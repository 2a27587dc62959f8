/** The VGA terminal: a 200-row ring, a 25-row viewport, and a line editor. */
module Terminal {
  import opened Bytes
  import opened Transcript
  import CString

  /** The oldest line the ring still has a slot for, seen from line `line`. */
  function Oldest(line: nat): nat {
    if line >= RING then line - RING + 1 else 0
  }

  function LatestTop(line: nat): nat {
    if line >= HEIGHT then line - HEIGHT + 1 else 0
  }

  /** The latest view contains the line, and is the first view that does. */
  lemma LatestTopIs(line: nat)
    ensures LatestTop(line) <= line < LatestTop(line) + HEIGHT
    ensures LatestTop(line) > 0 ==> line == LatestTop(line) + HEIGHT - 1
  {
  }

  /** The oldest line is the first of the last 200. */
  lemma OldestIs(line: nat)
    ensures Oldest(line) <= line < Oldest(line) + RING
    ensures Oldest(line) > 0 ==> line == Oldest(line) + RING - 1
  {
  }

  /** The line that currently owns the slot of line `l`, when `highest` is the highest line reached. */
  function Owner(l: nat, highest: nat): nat {
    if l + RING <= highest then l + RING * ((highest - l) / RING) else l
  }

  /** A slot shows its own line exactly when it has not been reused. */
  lemma OwnerIsExact(l: nat, highest: nat)
    requires l <= highest
    ensures Owner(l, highest) % RING == l % RING
    ensures Oldest(highest) <= Owner(l, highest) <= highest
    ensures Owner(l, highest) == l <==> Oldest(highest) <= l
  {
    var q := (highest - l) / RING;
    assert (l + RING * q) % RING == l % RING by {
      ModShift(l, q);
    }
  }

  lemma {:induction false} ModShift(l: nat, q: nat)
    ensures (l + RING * q) % RING == l % RING
  {
    if q > 0 {
      ModShift(l, q - 1);
      assert l + RING * q == (l + RING * (q - 1)) + RING;
    }
  }

  /** Lines less than a ring apart have different slots. */
  lemma SlotsDiffer(a: nat, b: nat)
    requires a < b < a + RING
    ensures a % RING != b % RING
  {
  }

  /** The ring holds the last 200 rows of the transcript. */
  predicate RingHolds(ring: seq<Row>, s: Screen) {
    |ring| == RING
    && forall l | Oldest(Max(0, |s.rows| - 1)) <= l < |s.rows| :: ring[l % RING] == s.rows[l]
  }

  /** The cursor has not been backed up past the rows the ring still has. */
  predicate InRing(s: Screen) {
    Highest(s) < s.line + RING
  }

  /** No backspace in the text moves the cursor past them. */
  ghost predicate StaysInRing(s: Screen, text: Text)
    requires IsScreen(s)
  {
    forall i | 0 <= i < |text| && text[i] == BACKSPACE :: InRing(PrintText(s, text[..i + 1]))
  }

  /** That is, the cursor's line still owns its slot. */
  lemma InRingIff(s: Screen)
    requires IsScreen(s)
    ensures InRing(s) <==> Owner(s.line, Highest(s)) == s.line
    ensures InRing(s) <==> s.line >= Oldest(Highest(s))
  {
    OwnerIsExact(s.line, Highest(s));
  }

  /** What render puts in row `y`: a ring row, or blanks outside the lines in use. */
  function Rendered(ring: seq<Row>, top: nat, line: nat, color: byte, y: nat): Row
    requires |ring| == RING
  {
    var l := top + y;
    if Oldest(line) <= l <= line then ring[l % RING] else BlankRow(color)
  }

  /** A rendered row is a transcript row: its own, unless backing up left it outside the last 200. */
  lemma RenderedRow(ring: seq<Row>, s: Screen, top: nat, y: nat)
    requires IsScreen(s) && RingHolds(ring, s)
    ensures var l := top + y;
      && (Oldest(s.line) <= l <= s.line ==>
            Rendered(ring, top, s.line, s.color, y) == s.rows[Owner(l, Highest(s))])
      && (Oldest(Highest(s)) <= l <= s.line ==> Rendered(ring, top, s.line, s.color, y) == s.rows[l])
      && (l > s.line ==> Rendered(ring, top, s.line, s.color, y) == BlankRow(s.color))
  {
    var l := top + y;
    if Oldest(s.line) <= l <= s.line {
      OwnerIsExact(l, Highest(s));
    }
  }

  /** Backed up one row after the ring filled, the oldest row on offer shows the highest line instead of its own. */
  lemma BackedUpRow(ring: seq<Row>, s: Screen)
    requires IsScreen(s) && RingHolds(ring, s) && s.line + 1 == Highest(s) && Highest(s) >= RING
    ensures Oldest(s.line) == Highest(s) - RING
    ensures Rendered(ring, Oldest(s.line), s.line, s.color, 0) == s.rows[Highest(s)]
  {
    RenderedRow(ring, s, Oldest(s.line), 0);
    assert Owner(Oldest(s.line), Highest(s)) == Highest(s);
  }

  /** Writing the row of the cursor's line: the ring follows the transcript. */
  lemma RingSet(ring: seq<Row>, s: Screen, l: nat, row: Row)
    requires RingHolds(ring, s) && Oldest(Max(0, |s.rows| - 1)) <= l < |s.rows|
    ensures RingHolds(ring[l % RING := row], s.(rows := s.rows[l := row]))
  {
    var r := s.rows[l := row];
    forall k | Oldest(Max(0, |r| - 1)) <= k < |r| ensures ring[l % RING := row][k % RING] == r[k] {
      if k < l { SlotsDiffer(k, l); }
      if l < k { SlotsDiffer(l, k); }
    }
  }

  /** A new highest line takes over the slot of the row that falls out of the ring. */
  lemma RingGrow(ring: seq<Row>, s: Screen, row: Row)
    requires RingHolds(ring, s) && s.rows != []
    ensures RingHolds(ring[|s.rows| % RING := row], s.(rows := s.rows + [row]))
  {
    var l, r := |s.rows|, s.rows + [row];
    forall k | Oldest(|r| - 1) <= k < |r| ensures ring[l % RING := row][k % RING] == r[k] {
      if k < l { SlotsDiffer(k, l); }
    }
  }

  // ------------------------------------------------------- printing to the ring

  // Beyond the last 200 rows the cursor writes to the line that has taken its slot.

  function RingSetCell(s: Screen, ch: byte): (r: Screen)
    requires IsScreen(s)
    ensures IsScreen(r)
  {
    OwnerIsExact(s.line, Highest(s));
    var l := Owner(s.line, Highest(s));
    s.(rows := s.rows[l := s.rows[l][s.column := Cell(ch, s.color)]])
  }

  function RingNewLine(s: Screen): (r: Screen)
    requires IsScreen(s)
    ensures IsScreen(r)
  {
    var blank := BlankRow(s.color);
    if s.line + 1 == |s.rows| then Screen(s.rows + [blank], s.line + 1, 0, s.color)
    else
      OwnerIsExact(s.line + 1, Highest(s));
      Screen(s.rows[Owner(s.line + 1, Highest(s)) := blank], s.line + 1, 0, s.color)
  }

  function RingBackspace(s: Screen): (r: Screen)
    requires IsScreen(s)
    ensures IsScreen(r)
  {
    if s.column == 0 && s.line == 0 then s
    else if s.column == 0 then RingSetCell(s.(line := s.line - 1, column := WIDTH - 1), SPACE)
    else RingSetCell(s.(column := s.column - 1), SPACE)
  }

  function RingPrint(s: Screen, c: byte): (r: Screen)
    requires IsScreen(s)
    ensures IsScreen(r)
  {
    if c == NEWLINE then RingNewLine(s)
    else if c == RETURN then s.(column := 0)
    else if c == BACKSPACE then RingBackspace(s)
    else
      var put := RingSetCell(s, c);
      if s.column + 1 == WIDTH then RingNewLine(put) else put.(column := s.column + 1)
  }

  function RingText(s: Screen, text: Text): (r: Screen)
    requires IsScreen(s)
    ensures IsScreen(r)
    decreases |text|
  {
    if text == [] then s else RingText(RingPrint(s, text[0]), text[1..])
  }

  lemma {:induction false} RingSnoc(s: Screen, text: Text, c: byte)
    requires IsScreen(s)
    ensures RingText(s, text + [c]) == RingPrint(RingText(s, text), c)
    decreases |text|
  {
    if text == [] {
      assert ([] + [c])[1..] == [];
    } else {
      assert (text + [c])[1..] == text[1..] + [c];
      RingSnoc(RingPrint(s, text[0]), text[1..], c);
    }
  }

  /** Within the last 200 rows the ring prints what the transcript does, and only a backspace can leave them. */
  lemma RingPrintIs(s: Screen, c: byte)
    requires IsScreen(s) && InRing(s) && (c == BACKSPACE ==> InRing(Backspace(s)))
    ensures RingPrint(s, c) == PrintChar(s, c) && InRing(PrintChar(s, c))
  {
    var h := Highest(s);
    OwnerIsExact(s.line, h);
    if s.line + 1 <= h { OwnerIsExact(s.line + 1, h); }
    if c == BACKSPACE && s.column == 0 && s.line > 0 { OwnerIsExact(s.line - 1, h); }
  }

  lemma RingCellHolds(ring: seq<Row>, s: Screen, ch: byte)
    requires IsScreen(s) && RingHolds(ring, s)
    ensures |ring[s.line % RING]| == WIDTH
    ensures RingHolds(ring[s.line % RING := ring[s.line % RING][s.column := Cell(ch, s.color)]], RingSetCell(s, ch))
  {
    OwnerIsExact(s.line, Highest(s));
    var l := Owner(s.line, Highest(s));
    RingSet(ring, s, l, s.rows[l][s.column := Cell(ch, s.color)]);
  }

  lemma RingLineHolds(ring: seq<Row>, s: Screen)
    requires IsScreen(s) && RingHolds(ring, s)
    ensures RingHolds(ring[(s.line + 1) % RING := BlankRow(s.color)], RingNewLine(s))
  {
    if s.line + 1 == |s.rows| {
      RingGrow(ring, s, BlankRow(s.color));
    } else {
      OwnerIsExact(s.line + 1, Highest(s));
      RingSet(ring, s, Owner(s.line + 1, Highest(s)), BlankRow(s.color));
    }
  }

  // ------------------------------------------------------------ at the prompt

  /** What a prompt shows: the screen, the text typed so far, and the top line of the view. */
  datatype Prompt = Prompt(screen: Screen, text: Text, top: nat)

  /** The view after a key: scrolled by one row or by a page, the latest after anything printed, and else the same. */
  function KeyView(p: Prompt, key: Key, max: nat): nat
    requires IsScreen(p.screen)
  {
    var oldest, latest := Oldest(p.screen.line), LatestTop(p.screen.line);
    match key
    case Up => Max(oldest, p.top - 1)
    case Down => Min(latest, p.top + 1)
    case PageUp => Max(oldest, p.top - (HEIGHT - 1))
    case PageDown => Min(latest, p.top + (HEIGHT - 1))
    case Bottom => latest
    case Char(c) =>
      if (if c == BACKSPACE then p.text != [] else |p.text| + 1 < max)
      then LatestTop(EchoKey(p.screen, p.text, key, max).line)
      else p.top
  }

  function KeyStep(p: Prompt, key: Key, max: nat): (r: Prompt)
    requires IsScreen(p.screen)
    ensures IsScreen(r.screen)
  {
    Prompt(EchoKey(p.screen, p.text, key, max), EditKey(p.text, key, max), KeyView(p, key, max))
  }

  function KeysRun(p: Prompt, keys: seq<Key>, max: nat): (r: Prompt)
    requires IsScreen(p.screen)
    ensures IsScreen(r.screen)
  {
    if keys == [] then p else KeyStep(KeysRun(p, keys[..|keys| - 1], max), keys[|keys| - 1], max)
  }

  /** One more key. */
  lemma KeysRunNext(p: Prompt, keys: seq<Key>, n: nat, max: nat)
    requires IsScreen(p.screen) && n < |keys|
    ensures KeysRun(p, keys[..n + 1], max) == KeyStep(KeysRun(p, keys[..n], max), keys[n], max)
  {
    assert keys[..n + 1][..n] == keys[..n];
  }

  lemma {:induction false} EditSnoc(text: Text, keys: seq<Key>, key: Key, max: nat)
    requires Char(NEWLINE) !in keys && key != Char(NEWLINE)
    ensures Edit(text, keys + [key], max) == EditKey(Edit(text, keys, max), key, max)
    decreases |keys|
  {
    if keys == [] {
      assert ([] + [key])[1..] == [];
    } else {
      assert (keys + [key])[1..] == keys[1..] + [key];
      EditSnoc(EditKey(text, keys[0], max), keys[1..], key, max);
    }
  }

  /** The text of the prompt is the edited line. */
  lemma {:induction false} KeysRunText(p: Prompt, keys: seq<Key>, max: nat)
    requires IsScreen(p.screen) && Char(NEWLINE) !in keys
    ensures KeysRun(p, keys, max).text == Edit(p.text, keys, max)
  {
    if keys != [] {
      var init, last := keys[..|keys| - 1], keys[|keys| - 1];
      KeysRunText(p, init, max);
      EditSnoc(p.text, init, last, max);
      assert keys == init + [last];
    }
  }

  /** The line ends at the first newline, whatever follows. */
  lemma {:induction false} EditStops(text: Text, keys: seq<Key>, n: nat, max: nat)
    requires n < |keys| && keys[n] == Char(NEWLINE) && Char(NEWLINE) !in keys[..n]
    ensures Edit(text, keys, max) == Edit(text, keys[..n], max)
    decreases n
  {
    if n > 0 {
      assert keys[..n][0] == keys[0] && keys[1..][..n - 1] == keys[..n][1..];
      EditStops(EditKey(text, keys[0], max), keys[1..], n - 1, max);
    }
  }

  class Console {
    const scrollback: array<Row>
    const vga: array<Row>
    var line: nat
    var column: nat
    var viewportTop: nat
    var color: byte
    ghost var model: Screen

    /** The ring holds the transcript; the view may still have to follow. */
    ghost predicate InStep()
      reads this, scrollback, vga
    {
      && scrollback != vga && scrollback.Length == RING && vga.Length == HEIGHT
      && IsScreen(model) && model.line == line && model.column == column && model.color == color
      && RingHolds(scrollback[..], model)
    }

    ghost predicate Valid()
      reads this, scrollback, vga
    {
      InStep() && Oldest(line) <= viewportTop <= LatestTop(line)
    }

    /** The screen shows the viewport. */
    ghost predicate Shown()
      reads this, scrollback, vga
    {
      && scrollback.Length == RING && vga.Length == HEIGHT
      && forall y | 0 <= y < HEIGHT :: vga[y] == Rendered(scrollback[..], viewportTop, line, color, y)
    }

    /** io_init. */
    constructor (color: byte)
      ensures Valid() && Shown() && fresh(scrollback) && fresh(vga)
      ensures model == Cleared(color) && viewportTop == 0
    {
      scrollback := new Row[RING](_ => BlankRow(color));
      vga := new Row[HEIGHT](_ => BlankRow(color));
      line, column, viewportTop := 0, 0, 0;
      this.color := color;
      model := Cleared(color);
      new;
      Render();
    }

    /** render: the clamps never fire in a valid state. */
    method Render()
      requires Valid()
      modifies vga
      ensures Valid() && Shown()
    {
      var oldest := Oldest(line);
      var top := viewportTop;
      if top < oldest { top := oldest; }
      if top > LatestTop(line) { top := LatestTop(line); }
      assert top == viewportTop;
      for y := 0 to HEIGHT
        invariant Valid()
        invariant forall k | 0 <= k < y :: vga[k] == Rendered(scrollback[..], viewportTop, line, color, k)
      {
        var l := top + y;
        vga[y] := if l >= oldest && l <= line then scrollback[l % RING] else BlankRow(color);
      }
    }

    method SetColor(c: byte)
      requires Valid()
      modifies this`color, this`model
      ensures Valid() && model == old(model).(color := c) && viewportTop == old(viewportTop)
    {
      color := c;
      model := model.(color := c);
    }

    /** io_clear_screen. */
    method ClearScreen()
      requires Valid()
      modifies this, scrollback, vga
      ensures Valid() && Shown() && model == Cleared(old(color)) && viewportTop == 0
    {
      line, column, viewportTop := 0, 0, 0;
      for y := 0 to RING
        modifies scrollback
        invariant forall k | 0 <= k < y :: scrollback[k] == BlankRow(color)
      {
        scrollback[y] := BlankRow(color);
      }
      model := Cleared(color);
      Render();
    }

    method ScrollUp()
      requires Valid()
      modifies this`viewportTop, vga
      ensures Valid() && (old(Shown()) || viewportTop != old(viewportTop) ==> Shown())
      ensures viewportTop == Max(Oldest(line), old(viewportTop) - 1)
    {
      if viewportTop > Oldest(line) {
        viewportTop := viewportTop - 1;
        Render();
      }
    }

    method ScrollDown()
      requires Valid()
      modifies this`viewportTop, vga
      ensures Valid() && (old(Shown()) || viewportTop != old(viewportTop) ==> Shown())
      ensures viewportTop == Min(LatestTop(line), old(viewportTop) + 1)
    {
      if viewportTop < LatestTop(line) {
        viewportTop := viewportTop + 1;
        Render();
      }
    }

    method ScrollPageUp()
      requires Valid()
      modifies this`viewportTop, vga
      ensures Valid() && (old(Shown()) || viewportTop != old(viewportTop) ==> Shown())
      ensures viewportTop == Max(Oldest(line), old(viewportTop) - (HEIGHT - 1))
    {
      for i := 0 to HEIGHT - 1
        invariant Valid() && (old(Shown()) || viewportTop != old(viewportTop) ==> Shown())
        invariant viewportTop == Max(Oldest(line), old(viewportTop) - i)
      {
        ScrollUp();
      }
    }

    method ScrollPageDown()
      requires Valid()
      modifies this`viewportTop, vga
      ensures Valid() && (old(Shown()) || viewportTop != old(viewportTop) ==> Shown())
      ensures viewportTop == Min(LatestTop(line), old(viewportTop) + (HEIGHT - 1))
    {
      for i := 0 to HEIGHT - 1
        invariant Valid() && (old(Shown()) || viewportTop != old(viewportTop) ==> Shown())
        invariant viewportTop == Min(LatestTop(line), old(viewportTop) + i)
      {
        ScrollDown();
      }
    }

    method ScrollBottom()
      requires Valid()
      modifies this`viewportTop, vga
      ensures Valid() && Shown() && viewportTop == LatestTop(line)
      ensures InRing(model) ==> CursorShown()
    {
      FollowOutput();
    }

    /** follow_output and render: the row of the cursor comes on the screen. */
    method FollowOutput()
      requires InStep()
      modifies this`viewportTop, vga
      ensures Valid() && Shown() && viewportTop == LatestTop(line)
      ensures InRing(model) ==> CursorShown()
    {
      viewportTop := LatestTop(line);
      Render();
      if InRing(model) { LatestShowsCursor(); }
    }

    /** The cell at the cursor, in the ring and in the transcript. */
    method PutCell(ch: byte)
      requires scrollback.Length == RING && vga.Length == HEIGHT && scrollback != vga
      requires IsScreen(model) && model.line == line && model.column == column && model.color == color
      requires RingHolds(scrollback[..], model)
      modifies this`model, scrollback
      ensures model == RingSetCell(old(model), ch)
      ensures RingHolds(scrollback[..], model)
    {
      RingCellHolds(scrollback[..], model, ch);
      var slot := line % RING;
      scrollback[slot] := scrollback[slot][column := Cell(ch, color)];
      model := RingSetCell(model, ch);
    }

    /** Down one line; clear_history_line blanks its slot. */
    method AdvanceLine()
      requires scrollback.Length == RING && vga.Length == HEIGHT && scrollback != vga
      requires IsScreen(model) && model.line == line && model.color == color
      requires RingHolds(scrollback[..], model)
      modifies this`model, this`line, this`column, scrollback
      ensures line == old(line) + 1 && column == 0 && model == RingNewLine(old(model))
      ensures RingHolds(scrollback[..], model)
    {
      RingLineHolds(scrollback[..], model);
      column := 0;
      line := line + 1;
      scrollback[line % RING] := BlankRow(color);
      model := RingNewLine(model);
    }

    /** The row of the cursor is on the screen. */
    ghost predicate CursorShown()
      requires IsScreen(model)
      reads this, vga
    {
      viewportTop <= model.line < viewportTop + vga.Length && vga[model.line - viewportTop] == model.rows[model.line]
    }

    lemma LatestShowsCursor()
      requires Valid() && Shown() && viewportTop == LatestTop(line) && InRing(model)
      ensures CursorShown()
    {
      LatestTopIs(line);
      RenderedRow(scrollback[..], model, viewportTop, line - viewportTop);
    }

    /** io_backspace. */
    method DoBackspace()
      requires Valid()
      modifies this`model, this`line, this`column, this`viewportTop, scrollback, vga
      ensures Valid() && model == RingBackspace(old(model))
      ensures old(InRing(model) && InRing(Backspace(model))) ==> model == Backspace(old(model))
      ensures old(Pos(model)) > 0 ==> Shown() && viewportTop == LatestTop(line) && (InRing(model) ==> CursorShown())
    {
      ghost var start := model;
      if InRing(start) && InRing(Backspace(start)) { RingPrintIs(start, BACKSPACE); }
      if column == 0 && line == 0 { return; }
      if column == 0 {
        line := line - 1;
        column := WIDTH - 1;
      } else {
        column := column - 1;
      }
      model := model.(line := line, column := column);
      PutCell(SPACE);
      FollowOutput();
    }

    /** io_print_char: what the ring does, which is what the transcript does within the last 200 rows. */
    method PrintCell(c: byte)
      requires Valid()
      modifies this`model, this`line, this`column, this`viewportTop, scrollback, vga
      ensures Valid() && model == RingPrint(old(model), c)
      ensures old(InRing(model) && (c == BACKSPACE ==> InRing(Backspace(model)))) ==>
                model == PrintChar(old(model), c) && InRing(model)
      ensures c != BACKSPACE || old(Pos(model)) > 0 ==> Shown() && (c != RETURN ==> viewportTop == LatestTop(line))
      ensures c != RETURN && (c != BACKSPACE || old(Pos(model)) > 0) && InRing(model) ==> CursorShown()
    {
      ghost var start := model;
      if InRing(start) && (c == BACKSPACE ==> InRing(Backspace(start))) { RingPrintIs(start, c); }
      if c == NEWLINE {
        AdvanceLine();
        FollowOutput();
        return;
      }
      if c == RETURN {
        column := 0;
        model := model.(column := 0);
        Render();
        return;
      }
      if c == BACKSPACE {
        DoBackspace();
        return;
      }
      PutCell(c);
      if column + 1 >= WIDTH {
        AdvanceLine();
      } else {
        column := column + 1;
        model := model.(column := column);
      }
      FollowOutput();
    }

    /** io_print. */
    method PrintString(text: Text)
      requires Valid()
      modifies this`model, this`line, this`column, this`viewportTop, scrollback, vga
      ensures Valid() && model == RingText(old(model), text)
      ensures old(InRing(model) && StaysInRing(model, text)) ==> model == PrintText(old(model), text) && InRing(model)
    {
      ghost var start := model;
      for i := 0 to |text|
        invariant Valid() && model == RingText(start, text[..i])
        invariant InRing(start) && StaysInRing(start, text) ==> model == PrintText(start, text[..i]) && InRing(model)
      {
        assert text[..i + 1] == text[..i] + [text[i]];
        PrintSnoc(start, text[..i], text[i]);
        RingSnoc(start, text[..i], text[i]);
        PrintCell(text[i]);
      }
      assert text[..|text|] == text;
    }

    /** The digits of `value`, last first, as io_print_int collects them. */
    method CollectDigits(value: nat, buf: array<byte>) returns (i: nat)
      requires 0 < value < 0x8000_0000 && buf.Length == 16
      modifies buf
      ensures i == |Digits(value)| <= 10
      ensures forall k | 0 <= k < i :: buf[k] == Digits(value)[i - 1 - k]
    {
      ghost var d := Digits(value);
      DigitsLength(value);
      i := 0;
      var n := value;
      while n > 0 && i < 15
        invariant n >= 0 && i <= |d| <= 10
        invariant if n > 0 then i < |d| && Digits(n) == d[..|d| - i] else i == |d|
        invariant forall k | 0 <= k < i :: buf[k] == d[|d| - 1 - k]
        decreases n
      {
        assert Digits(n)[|d| - i - 1] == d[|d| - 1 - i];
        buf[i] := (48 + n % 10) as byte;
        assert n >= 10 ==> Digits(n / 10) == Digits(n)[..|d| - i - 1];
        i := i + 1;
        n := n / 10;
      }
    }

    /** The collected characters, printed last first. */
    method PrintBackwards(buf: array<byte>, count: nat, ghost text: Text)
      requires Valid() && BACKSPACE !in text && count == |text| <= buf.Length
      requires forall k | 0 <= k < count :: buf[k] == text[count - 1 - k]
      modifies this`model, this`line, this`column, this`viewportTop, scrollback, vga
      ensures Valid() && model == RingText(old(model), text)
      ensures old(InRing(model)) ==> model == PrintText(old(model), text) && InRing(model)
    {
      ghost var start := model;
      var i: nat := count;
      assert text[..0] == [];
      while i > 0
        invariant i <= count && Valid() && model == RingText(start, text[..count - i])
        invariant InRing(start) ==> model == PrintText(start, text[..count - i]) && InRing(model)
        decreases i
      {
        i := i - 1;
        ghost var done := count - i - 1;
        assert buf[i] == text[done];
        PrintSnoc(start, text[..done], buf[i]);
        RingSnoc(start, text[..done], buf[i]);
        assert text[..done + 1] == text[..done] + [buf[i]];
        PrintCell(buf[i]);
      }
      assert text[..count] == text;
    }

    /** io_print_int, for every value whose negation exists. */
    method PrintInt(value: int)
      requires Valid() && -0x8000_0000 < value < 0x8000_0000
      modifies this`model, this`line, this`column, this`viewportTop, scrollback, vga
      ensures Valid() && model == RingText(old(model), Decimal(value))
      ensures old(InRing(model)) ==> model == PrintText(old(model), Decimal(value)) && InRing(model)
    {
      DecimalHasNoBackspace(value);
      var n := if value < 0 then -value else value;
      if n == 0 {
        PrintSnoc(model, [], 48);
        RingSnoc(model, [], 48);
        PrintCell(48);
        return;
      }
      var buf := new byte[16];
      var i: nat := CollectDigits(n, buf);
      if value < 0 {
        buf[i] := 45;
        i := i + 1;
      }
      PrintBackwards(buf, i, Decimal(value));
    }

    /** A key that only moves the view. */
    method ScrollKey(key: Key)
      requires Valid() && !key.Char?
      modifies this`viewportTop, vga
      ensures Valid() && (old(Shown()) ==> Shown())
      ensures key == Up ==> viewportTop == Max(Oldest(line), old(viewportTop) - 1)
      ensures key == Down ==> viewportTop == Min(LatestTop(line), old(viewportTop) + 1)
      ensures key == PageUp ==> viewportTop == Max(Oldest(line), old(viewportTop) - (HEIGHT - 1))
      ensures key == PageDown ==> viewportTop == Min(LatestTop(line), old(viewportTop) + (HEIGHT - 1))
      ensures key == Bottom ==> viewportTop == LatestTop(line)
    {
      match key
      case Up => ScrollUp();
      case Down => ScrollDown();
      case PageUp => ScrollPageUp();
      case PageDown => ScrollPageDown();
      case Bottom => ScrollBottom();
    }

    /** A character at the prompt: stored and echoed, or a backspace that takes the last one back. */
    method TypeKey(c: byte, buffer: array<byte>, len: nat, maxLen: nat, ghost start: Screen) returns (n: nat)
      requires Valid() && c != NEWLINE && c != NUL && c != RETURN
      requires len < maxLen <= buffer.Length && IsScreen(start) && Prompted(start, model, buffer[..len], maxLen)
      requires RoomFor(start, maxLen)
      modifies this`model, this`line, this`column, this`viewportTop, scrollback, vga, buffer
      ensures Valid() && n < maxLen && buffer[..n] == EditKey(old(buffer[..len]), Char(c), maxLen)
      ensures model == EchoKey(old(model), old(buffer[..len]), Char(c), maxLen) && (old(Shown()) ==> Shown())
      ensures (if c == BACKSPACE then len > 0 else len + 1 < maxLen) ==> Shown() && viewportTop == LatestTop(line)
      ensures !(if c == BACKSPACE then len > 0 else len + 1 < maxLen) ==> viewportTop == old(viewportTop)
    {
      PromptInRing(start, model, buffer[..len], maxLen);
      n := len;
      if c == BACKSPACE {
        if len > 0 {
          EraseInRing(start, model, buffer[..len]);
          n := len - 1;
          assert buffer[..n] == buffer[..len][..n];
          DoBackspace();
        }
      } else if len + 1 < maxLen {
        buffer[len] := c;
        n := len + 1;
        PrintCell(c);
      }
    }

    /** One key that is not a newline, at the prompt. */
    method TakeKey(key: Key, buffer: array<byte>, len: nat, maxLen: nat, ghost start: Screen) returns (n: nat)
      requires Valid() && key != Char(NEWLINE) && KeysOk([key])
      requires len < maxLen <= buffer.Length && IsScreen(start) && Prompted(start, model, buffer[..len], maxLen)
      requires RoomFor(start, maxLen)
      modifies this`model, this`line, this`column, this`viewportTop, scrollback, vga, buffer
      ensures Valid() && n < maxLen && (old(Shown()) ==> Shown())
      ensures Prompt(model, buffer[..n], viewportTop)
           == KeyStep(old(Prompt(model, buffer[..len], viewportTop)), key, maxLen)
      ensures Prompted(start, model, buffer[..n], maxLen)
    {
      EchoPrompted(start, model, buffer[..len], key, maxLen);
      match key
      case Char(c) =>
        assert [key][0] == key;
        n := TypeKey(c, buffer, len, maxLen, start);
      case _ =>
        n := len;
        ScrollKey(key);
    }

    /** The loop of io_read_line: keys up to a newline, or as many as there are so far. */
    method ReadKeys(keys: seq<Key>, buffer: array<byte>, maxLen: nat) returns (used: nat, len: nat)
      requires Valid() && KeysOk(keys) && 0 < maxLen <= buffer.Length && RoomFor(model, maxLen)
      modifies this`model, this`line, this`column, this`viewportTop, scrollback, vga, buffer
      ensures Valid() && (old(Shown()) ==> Shown()) && used <= |keys| && len < maxLen
      ensures Char(NEWLINE) !in keys[..used] && (used < |keys| ==> keys[used] == Char(NEWLINE))
      ensures Prompt(model, buffer[..len], viewportTop)
           == KeysRun(Prompt(old(model), [], old(viewportTop)), keys[..used], maxLen)
      ensures buffer[..len] == Edit([], keys[..used], maxLen) && IsText(buffer[..len])
      ensures Prompted(old(model), model, buffer[..len], maxLen)
    {
      ghost var start, first := model, Prompt(model, [], viewportTop);
      used, len := 0, 0;
      assert keys[..0] == [] && buffer[..0] == [];
      while used < |keys| && keys[used] != Char(NEWLINE)
        invariant used <= |keys| && len < maxLen && Valid() && (old(Shown()) ==> Shown())
        invariant Char(NEWLINE) !in keys[..used]
        invariant Prompt(model, buffer[..len], viewportTop) == KeysRun(first, keys[..used], maxLen)
        invariant IsText(buffer[..len]) && Prompted(start, model, buffer[..len], maxLen)
      {
        KeyTaken(keys, used, buffer[..len], maxLen);
        KeysRunNext(first, keys, used, maxLen);
        len := TakeKey(keys[used], buffer, len, maxLen, start);
        used := used + 1;
      }
      KeysRunText(first, keys[..used], maxLen);
    }

    /** io_read_line: the buffer is the edited line, and the screen shows it after the prompt. */
    method ReadLine(keys: seq<Key>, buffer: array<byte>, maxLen: nat) returns (used: nat)
      requires Valid() && KeysOk(keys) && maxLen <= buffer.Length && RoomFor(model, maxLen)
      requires maxLen > 0 ==> Char(NEWLINE) in keys
      modifies this`model, this`line, this`column, this`viewportTop, scrollback, vga, buffer
      ensures Valid() && used <= |keys|
      ensures maxLen == 0 ==> used == 0 && model == old(model) && buffer[..] == old(buffer[..])
      ensures maxLen > 0 ==> NUL in buffer[..] && CString.TextOf(buffer) == Edit([], keys, maxLen)
      ensures maxLen > 0 ==> 0 < used && keys[used - 1] == Char(NEWLINE) && Char(NEWLINE) !in keys[..used - 1]
      ensures maxLen > 0 ==> Shown() && CursorShown() && exists s: Screen ::
                IsScreen(s) && Prompted(old(model), s, Edit([], keys, maxLen), maxLen) && model == NewLine(s)
    {
      if maxLen == 0 { return 0; }
      ghost var start := model;
      var len: nat;
      assert keys[..|keys|] == keys;
      used, len := ReadKeys(keys, buffer, maxLen);
      EditStops([], keys, used, maxLen);
      ghost var s := model;
      ghost var text := buffer[..len];
      PromptInRing(start, s, text, maxLen);
      PrintCell(NEWLINE);
      used := used + 1;
      buffer[len] := NUL;
      assert buffer[..len] == text;
      CutIs(buffer[..], len);
      assert buffer[len] == NUL;
      assert IsScreen(s) && Prompted(start, s, text, maxLen) && model == NewLine(s);
    }
  }

  /** A letter, two hundred newlines and a backspace; then the view scrolled to its top. */
  method BackedUpView() returns (c: Console)
    ensures fresh(c) && c.Valid() && c.Shown()
    ensures c.line == RING - 1 && c.viewportTop == Oldest(c.line) == 0 && Highest(c.model) == RING
    ensures c.vga[0] == c.model.rows[RING] != c.model.rows[0]
  {
    c := new Console(7);
    c.PrintCell(97);
    for i := 0 to RING
      invariant fresh(c) && fresh(c.scrollback) && fresh(c.vga) && c.Valid()
      invariant c.line == i && Highest(c.model) == i && c.model.rows[0][0].ch == 97
      invariant i > 0 ==> c.column == 0 && c.model.rows[i] == BlankRow(c.color)
    {
      c.PrintCell(NEWLINE);
    }
    c.PrintCell(BACKSPACE);
    for i := 0 to 8
      invariant fresh(c) && fresh(c.scrollback) && fresh(c.vga) && c.Valid()
      invariant c.line == RING - 1 && Highest(c.model) == RING && c.viewportTop == Max(0, 175 - 24 * i)
      invariant c.model.rows[0][0].ch == 97 && c.model.rows[RING] == BlankRow(c.color)
      invariant i > 0 ==> c.Shown()
    {
      c.ScrollPageUp();
    }
    BackedUpRow(c.scrollback[..], c.model);
  }

  /** One key that is not a newline, taken from the front of those left. */
  lemma KeyTaken(keys: seq<Key>, used: nat, text: Text, max: nat)
    requires used < |keys| && KeysOk(keys) && keys[used] != Char(NEWLINE) && IsText(text)
    ensures KeysOk([keys[used]]) && IsText(EditKey(text, keys[used], max))
    ensures Char(NEWLINE) !in keys[..used] ==> Char(NEWLINE) !in keys[..used + 1]
  {
    assert keys[..used + 1] == keys[..used] + [keys[used]];
  }

  lemma DecimalHasNoBackspace(v: int)
    ensures BACKSPACE !in Decimal(v)
  {
    DigitsReadBack(if v < 0 then -v else v);
  }

  lemma PromptInRing(start: Screen, s: Screen, text: Text, max: nat)
    requires IsScreen(start) && IsScreen(s) && Prompted(start, s, text, max) && RoomFor(start, max)
    ensures InRing(s)
  {
    CursorCell(s);
    CursorCell(start);
  }

  lemma EraseInRing(start: Screen, s: Screen, text: Text)
    requires IsScreen(start) && IsScreen(s) && Shows(start, s, text) && text != []
    requires Highest(s) < start.line + RING
    ensures InRing(Backspace(s))
  {
    BackspaceStep(s);
    CursorCell(Backspace(s));
    CursorCell(start);
  }
}
