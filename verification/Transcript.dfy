/** The terminal without its ring: an unbounded list of rows and a cursor. */
module Transcript {
  import opened Bytes

  const WIDTH := 80
  const HEIGHT := 25
  const RING := 200

  datatype Cell = Cell(ch: byte, color: byte)

  type Row = seq<Cell>

  /** Everything printed since the last clear; the last row is the highest line reached. */
  datatype Screen = Screen(rows: seq<Row>, line: nat, column: nat, color: byte)

  predicate IsScreen(s: Screen) {
    && s.line < |s.rows| && s.column < WIDTH
    && forall l | 0 <= l < |s.rows| :: |s.rows[l]| == WIDTH
  }

  function BlankRow(color: byte): (r: Row)
    ensures |r| == WIDTH
  {
    seq(WIDTH, _ => Cell(SPACE, color))
  }

  function Cleared(color: byte): Screen {
    Screen([BlankRow(color)], 0, 0, color)
  }

  /** Down one line, which is blank afterwards even if it had been written before. */
  function NewLine(s: Screen): (r: Screen)
    requires IsScreen(s)
    ensures IsScreen(r)
  {
    var blank := BlankRow(s.color);
    var rows := if s.line + 1 == |s.rows| then s.rows + [blank] else s.rows[s.line + 1 := blank];
    Screen(rows, s.line + 1, 0, s.color)
  }

  function SetCell(s: Screen, ch: byte): (r: Screen)
    requires IsScreen(s)
    ensures IsScreen(r)
  {
    s.(rows := s.rows[s.line := s.rows[s.line][s.column := Cell(ch, s.color)]])
  }

  function Backspace(s: Screen): (r: Screen)
    requires IsScreen(s)
    ensures IsScreen(r)
  {
    if s.column == 0 && s.line == 0 then s
    else if s.column == 0 then SetCell(s.(line := s.line - 1, column := WIDTH - 1), SPACE)
    else SetCell(s.(column := s.column - 1), SPACE)
  }

  function PrintChar(s: Screen, c: byte): (r: Screen)
    requires IsScreen(s)
    ensures IsScreen(r)
  {
    if c == NEWLINE then NewLine(s)
    else if c == RETURN then s.(column := 0)
    else if c == BACKSPACE then Backspace(s)
    else
      var put := SetCell(s, c);
      if s.column + 1 == WIDTH then NewLine(put) else put.(column := s.column + 1)
  }

  function PrintText(s: Screen, text: Text): (r: Screen)
    requires IsScreen(s)
    ensures IsScreen(r)
    decreases |text|
  {
    if text == [] then s else PrintText(PrintChar(s, text[0]), text[1..])
  }

  lemma {:induction false} PrintSnoc(s: Screen, text: Text, c: byte)
    requires IsScreen(s)
    ensures PrintText(s, text + [c]) == PrintChar(PrintText(s, text), c)
    decreases |text|
  {
    if text == [] {
      assert ([] + [c])[1..] == [];
    } else {
      assert (text + [c])[1..] == text[1..] + [c];
      PrintSnoc(PrintChar(s, text[0]), text[1..], c);
    }
  }

  // ------------------------------------------------------------- line editing

  /** The cursor in row-major order. */
  function Pos(s: Screen): nat {
    s.line * WIDTH + s.column
  }

  function CellAt(s: Screen, p: nat): Cell
    requires IsScreen(s) && p < |s.rows| * WIDTH
  {
    s.rows[p / WIDTH][p % WIDTH]
  }

  predicate Printable(c: byte) {
    c != NEWLINE && c != RETURN && c != BACKSPACE && c != NUL
  }

  datatype Key = Char(c: byte) | Up | Down | PageUp | PageDown | Bottom

  /** The keys the keyboard produces: no NUL and no carriage return. */
  predicate KeysOk(keys: seq<Key>) {
    forall i | 0 <= i < |keys| && keys[i].Char? :: keys[i].c != NUL && keys[i].c != RETURN
  }

  /** One key applied to the text typed so far, in a buffer of `max` bytes. */
  function EditKey(text: Text, key: Key, max: nat): Text {
    match key
    case Char(c) =>
      if c == BACKSPACE then (if text == [] then [] else text[..|text| - 1])
      else if |text| + 1 < max then text + [c]
      else text
    case _ => text
  }

  /** The line the keys type, up to the first newline. */
  function Edit(text: Text, keys: seq<Key>, max: nat): Text
    decreases |keys|
  {
    if keys == [] || keys[0] == Char(NEWLINE) then text
    else Edit(EditKey(text, keys[0], max), keys[1..], max)
  }

  function Typing(text: Text): (keys: seq<Key>)
    ensures |keys| == |text|
  {
    if text == [] then [] else [Char(text[0])] + Typing(text[1..])
  }

  lemma EditStep(text: Text, key: Key, keys: seq<Key>, max: nat)
    requires key != Char(NEWLINE)
    ensures Edit(text, [key] + keys, max) == Edit(EditKey(text, key, max), keys, max)
  {
    assert ([key] + keys)[1..] == keys;
  }

  lemma EditTypesOne(text: Text, c: byte, keys: seq<Key>, max: nat)
    requires |text| + 1 < max && Printable(c)
    ensures Edit(text, [Char(c)] + keys, max) == Edit(text + [c], keys, max)
  {
    EditStep(text, Char(c), keys, max);
  }

  /** Typing characters that fit appends them. */
  lemma {:induction false} EditTypes(text: Text, typed: Text, keys: seq<Key>, max: nat)
    requires |text| + |typed| < max && forall i | 0 <= i < |typed| :: Printable(typed[i])
    ensures Edit(text, Typing(typed) + keys, max) == Edit(text + typed, keys, max)
    decreases |typed|
  {
    if typed == [] {
      assert Typing(typed) + keys == keys && text + typed == text;
    } else {
      assert Typing(typed) == [Char(typed[0])] + Typing(typed[1..]);
      KeyFirst(Char(typed[0]), Typing(typed[1..]), keys);
      assert text + typed == text + [typed[0]] + typed[1..];
      EditTypesOne(text, typed[0], Typing(typed[1..]) + keys, max);
      EditTypes(text + [typed[0]], typed[1..], keys, max);
    }
  }

  lemma KeyFirst(key: Key, more: seq<Key>, keys: seq<Key>)
    ensures [key] + more + keys == [key] + (more + keys)
  {
  }

  /** A backspace undoes the character before it. */
  lemma EditErases(text: Text, c: byte, keys: seq<Key>, max: nat)
    requires |text| + 1 < max && Printable(c)
    ensures Edit(text, [Char(c), Char(BACKSPACE)] + keys, max) == Edit(text, keys, max)
  {
    assert [Char(c), Char(BACKSPACE)] + keys == [Char(c)] + ([Char(BACKSPACE)] + keys);
    EditStep(text, Char(c), [Char(BACKSPACE)] + keys, max);
    EditStep(text + [c], Char(BACKSPACE), keys, max);
    assert EditKey(text + [c], Char(BACKSPACE), max) == text;
  }

  /** A character for which there is no room, a backspace with nothing typed and a scroll key leave the line as it is. */
  lemma EditIgnores(text: Text, key: Key, keys: seq<Key>, max: nat)
    requires match key
             case Char(c) => c != NEWLINE && (if c == BACKSPACE then text == [] else |text| + 1 >= max)
             case _ => true
    ensures Edit(text, [key] + keys, max) == Edit(text, keys, max)
  {
    EditStep(text, key, keys, max);
  }

  /** A newline ends the line. */
  lemma EditEnds(text: Text, keys: seq<Key>, max: nat)
    ensures Edit(text, [Char(NEWLINE)] + keys, max) == text
  {
  }

  /** `s` shows `text` typed at the cursor of `start`: the cursor follows it, nothing before it moved. */
  ghost predicate Shows(start: Screen, s: Screen, text: Text)
    requires IsScreen(start) && IsScreen(s)
  {
    && s.color == start.color
    && Pos(s) == Pos(start) + |text|
    && (forall i | 0 <= i < |text| :: CellAt(s, Pos(start) + i) == Cell(text[i], start.color))
    && (forall p | 0 <= p < Pos(start) :: CellAt(s, p) == CellAt(start, p))
  }

  /** Every cell from position `p` on is blank. */
  predicate BlankOn(s: Screen, p: nat)
    requires IsScreen(s)
  {
    forall q {:trigger CellAt(s, q)} | p <= q < |s.rows| * WIDTH :: CellAt(s, q).ch == SPACE
  }

  lemma CursorCell(s: Screen)
    requires IsScreen(s)
    ensures Pos(s) / WIDTH == s.line && Pos(s) % WIDTH == s.column
    ensures Pos(s) < |s.rows| * WIDTH
  {
  }

  /** Printing one character writes the cursor's cell, leaves all cells before it, and moves on by one. */
  lemma PrintableStep(s: Screen, c: byte)
    requires IsScreen(s) && Printable(c)
    ensures var r := PrintChar(s, c);
      && r.color == s.color && Pos(r) == Pos(s) + 1
      && CellAt(r, Pos(s)) == Cell(c, s.color)
      && forall p | 0 <= p < Pos(s) :: CellAt(r, p) == CellAt(s, p)
  {
    var r := PrintChar(s, c);
    CursorCell(s);
    CursorCell(r);
    forall p | 0 <= p < Pos(s) ensures CellAt(r, p) == CellAt(s, p) {
      assert p / WIDTH <= s.line;
    }
  }

  /** Backspace blanks the cell before the cursor, across a line wrap too, and moves onto it. */
  lemma BackspaceStep(s: Screen)
    requires IsScreen(s) && Pos(s) > 0
    ensures var r := Backspace(s);
      && r.color == s.color && Pos(r) + 1 == Pos(s)
      && CellAt(r, Pos(r)) == Cell(SPACE, s.color)
      && forall p | 0 <= p < Pos(r) :: CellAt(r, p) == CellAt(s, p)
  {
    var r := Backspace(s);
    CursorCell(s);
    CursorCell(r);
    forall p | 0 <= p < Pos(r) ensures CellAt(r, p) == CellAt(s, p) {
      assert p / WIDTH <= r.line;
    }
  }

  /** A printed character changes one cell, and when it wraps the whole of the next line, which is blank then. */
  lemma PrintableFrame(s: Screen, c: byte)
    requires IsScreen(s) && Printable(c)
    ensures var r, wraps := PrintChar(s, c), s.column + 1 == WIDTH;
      && r.line == (if wraps then s.line + 1 else s.line) && r.column == (if wraps then 0 else s.column + 1)
      && |r.rows| == (if wraps then Max(|s.rows|, s.line + 2) else |s.rows|)
      && (wraps ==> forall p | Pos(r) <= p < Pos(r) + WIDTH :: CellAt(r, p) == Cell(SPACE, s.color))
      && (forall p | 0 <= p < |s.rows| * WIDTH && p != Pos(s) && !(wraps && p / WIDTH == r.line) ::
            CellAt(r, p) == CellAt(s, p))
  {
    var r := PrintChar(s, c);
    CursorCell(s);
    forall p | 0 <= p < |s.rows| * WIDTH && p != Pos(s) && !(s.column + 1 == WIDTH && p / WIDTH == r.line)
      ensures CellAt(r, p) == CellAt(s, p)
    {
      if p / WIDTH == s.line {
        assert p % WIDTH != s.column;
      }
    }
    if s.column + 1 == WIDTH {
      forall p | Pos(r) <= p < Pos(r) + WIDTH ensures CellAt(r, p) == Cell(SPACE, s.color) {
        assert p / WIDTH == r.line;
      }
    }
  }

  /** A backspace changes no cell but the one it moves onto. */
  lemma BackspaceFrame(s: Screen)
    requires IsScreen(s) && Pos(s) > 0
    ensures var r := Backspace(s);
      |r.rows| == |s.rows| && forall p | 0 <= p < |s.rows| * WIDTH && p != Pos(r) :: CellAt(r, p) == CellAt(s, p)
  {
    var r := Backspace(s);
    CursorCell(r);
    forall p | 0 <= p < |s.rows| * WIDTH && p != Pos(r) ensures CellAt(r, p) == CellAt(s, p) {
      if p / WIDTH == r.line {
        assert p % WIDTH != r.column;
      }
    }
  }

  /** A newline goes to the start of the next line and blanks all of it, and no cell of another line. */
  lemma NewLineStep(s: Screen)
    requires IsScreen(s)
    ensures var r := PrintChar(s, NEWLINE);
      && r.line == s.line + 1 && r.column == 0 && r.color == s.color && |r.rows| == Max(|s.rows|, s.line + 2)
      && (forall p | Pos(r) <= p < Pos(r) + WIDTH :: CellAt(r, p) == Cell(SPACE, s.color))
      && (forall p | 0 <= p < |s.rows| * WIDTH && p / WIDTH != r.line :: CellAt(r, p) == CellAt(s, p))
  {
    var r := PrintChar(s, NEWLINE);
    forall p | Pos(r) <= p < Pos(r) + WIDTH ensures CellAt(r, p) == Cell(SPACE, s.color) {
      assert p / WIDTH == r.line;
    }
  }

  /** A carriage return only moves the cursor, and a backspace at the very start does nothing. */
  lemma ReturnStep(s: Screen)
    requires IsScreen(s)
    ensures PrintChar(s, RETURN) == s.(column := 0)
    ensures Pos(s) == 0 ==> PrintChar(s, BACKSPACE) == s
  {
  }

  /** A cleared screen is blank, with the cursor at its start. */
  lemma ClearedIsBlank(color: byte)
    ensures var r := Cleared(color);
      IsScreen(r) && Pos(r) == 0 && r.color == color && BlankOn(r, 0)
      && forall p | 0 <= p < |r.rows| * WIDTH :: CellAt(r, p) == Cell(SPACE, color)
  {
  }

  lemma PrintableBlanks(s: Screen, c: byte)
    requires IsScreen(s) && Printable(c) && BlankOn(s, Pos(s))
    ensures BlankOn(PrintChar(s, c), Pos(s) + 1)
  {
    var r := PrintChar(s, c);
    CursorCell(s);
    forall q | Pos(s) + 1 <= q < |r.rows| * WIDTH ensures CellAt(r, q).ch == SPACE {
      var l := q / WIDTH;
      if l < |s.rows| {
        assert CellAt(s, q).ch == SPACE;
      }
    }
  }

  lemma BackspaceBlanks(s: Screen)
    requires IsScreen(s) && Pos(s) > 0 && BlankOn(s, Pos(s))
    ensures BlankOn(Backspace(s), Pos(s) - 1)
  {
    var r := Backspace(s);
    CursorCell(s);
    CursorCell(r);
    forall q | Pos(s) - 1 <= q < |r.rows| * WIDTH ensures CellAt(r, q).ch == SPACE {
      if q >= Pos(s) {
        assert CellAt(s, q).ch == SPACE;
      }
    }
  }

  /** The screen after one key. */
  function EchoKey(s: Screen, text: Text, key: Key, max: nat): (r: Screen)
    requires IsScreen(s)
    ensures IsScreen(r)
  {
    match key
    case Char(c) =>
      if c == BACKSPACE then (if text == [] then s else Backspace(s))
      else if |text| + 1 < max then PrintChar(s, c)
      else s
    case _ => s
  }

  /** Typing a character extends what is shown. */
  lemma TypedShows(start: Screen, s: Screen, text: Text, c: byte)
    requires IsScreen(start) && IsScreen(s) && Shows(start, s, text) && Printable(c)
    ensures Shows(start, PrintChar(s, c), text + [c])
  {
    var r := PrintChar(s, c);
    PrintableStep(s, c);
    forall i | 0 <= i < |text| + 1 ensures CellAt(r, Pos(start) + i) == Cell((text + [c])[i], start.color) {
      if i < |text| {
        assert CellAt(r, Pos(start) + i) == CellAt(s, Pos(start) + i);
      }
    }
  }

  lemma {:induction false} PrintShows(start: Screen, text: Text)
    requires IsScreen(start) && forall i | 0 <= i < |text| :: Printable(text[i])
    ensures Shows(start, PrintText(start, text), text)
  {
    if text != [] {
      var init, c := text[..|text| - 1], text[|text| - 1];
      assert text == init + [c];
      PrintShows(start, init);
      PrintSnoc(start, init, c);
      TypedShows(start, PrintText(start, init), init, c);
    }
  }

  /** Text printed on a cleared screen fills rows of eighty from the top left, and the cursor follows it. */
  lemma TextFlows(color: byte, text: Text)
    requires forall i | 0 <= i < |text| :: Printable(text[i])
    ensures var r := PrintText(Cleared(color), text);
      && r.line == |text| / 80 && r.column == |text| % 80 && r.line < |r.rows|
      && forall i | 0 <= i < |text| :: |r.rows[i / 80]| == 80 && r.rows[i / 80][i % 80] == Cell(text[i], color)
  {
    var start := Cleared(color);
    PrintShows(start, text);
    CursorCell(PrintText(start, text));
  }

  /** Erasing a character shortens it. */
  lemma ErasedShows(start: Screen, s: Screen, text: Text)
    requires IsScreen(start) && IsScreen(s) && Shows(start, s, text) && text != []
    ensures Shows(start, Backspace(s), text[..|text| - 1])
  {
    var r := Backspace(s);
    BackspaceStep(s);
    forall i | 0 <= i < |text| - 1 ensures CellAt(r, Pos(start) + i) == Cell(text[i], start.color) {
      assert CellAt(r, Pos(start) + i) == CellAt(s, Pos(start) + i);
    }
  }

  /** Whatever is typed, wraps and backspaces included, the screen keeps showing the buffer, with blanks behind it. */
  lemma EchoShows(start: Screen, s: Screen, text: Text, key: Key, max: nat)
    requires IsScreen(start) && IsScreen(s) && Shows(start, s, text)
    requires key != Char(NEWLINE) && KeysOk([key])
    ensures Shows(start, EchoKey(s, text, key, max), EditKey(text, key, max))
    ensures BlankOn(s, Pos(s)) ==> BlankOn(EchoKey(s, text, key, max), Pos(EchoKey(s, text, key, max)))
  {
    if key.Char? {
      assert [key][0] == key;
      if key.c == BACKSPACE {
        if text != [] {
          ErasedShows(start, s, text);
          if BlankOn(s, Pos(s)) { BackspaceBlanks(s); }
        }
      } else if |text| + 1 < max {
        TypedShows(start, s, text, key.c);
        if BlankOn(s, Pos(s)) { PrintableBlanks(s, key.c); }
      }
    }
  }

  /** The highest line reached. */
  function Highest(s: Screen): int {
    |s.rows| - 1
  }

  /** A line of at most `max` bytes typed here never scrolls its own start out of the ring. */
  predicate RoomFor(s: Screen, max: nat) {
    Max(Highest(s), (Pos(s) + max) / WIDTH) < s.line + RING
  }

  lemma EchoHeight(s: Screen, text: Text, key: Key, max: nat, start: Screen)
    requires IsScreen(start) && IsScreen(s) && Shows(start, s, text)
    requires key != Char(NEWLINE) && KeysOk([key])
    requires Highest(s) <= Max(Highest(start), (Pos(start) + max) / WIDTH)
    ensures Highest(EchoKey(s, text, key, max)) <= Max(Highest(start), (Pos(start) + max) / WIDTH)
  {
    if key.Char? && key.c != BACKSPACE && |text| + 1 < max {
      assert [key][0] == key;
      PrintableStep(s, key.c);
      CursorCell(PrintChar(s, key.c));
    }
  }

  /** What holds after every key at the prompt: the buffer is shown, blanks follow it, the start is still in the ring. */
  ghost predicate Prompted(start: Screen, s: Screen, text: Text, max: nat)
    requires IsScreen(start) && IsScreen(s)
  {
    && Shows(start, s, text)
    && (BlankOn(start, Pos(start)) ==> BlankOn(s, Pos(s)))
    && Highest(s) <= Max(Highest(start), (Pos(start) + max) / WIDTH)
  }

  lemma EchoPrompted(start: Screen, s: Screen, text: Text, key: Key, max: nat)
    requires IsScreen(start) && IsScreen(s) && Prompted(start, s, text, max)
    requires key != Char(NEWLINE) && KeysOk([key])
    ensures Prompted(start, EchoKey(s, text, key, max), EditKey(text, key, max), max)
  {
    EchoShows(start, s, text, key, max);
    EchoHeight(s, text, key, max, start);
  }

  // ---------------------------------------------------------------- numbers

  /** The decimal digits of a natural number. */
  function Digits(n: nat): Text {
    if n < 10 then [(48 + n) as byte] else Digits(n / 10) + [(48 + n % 10) as byte]
  }

  function Decimal(v: int): Text {
    if v < 0 then [45] + Digits(-v) else Digits(v)
  }

  function ValueOf(t: Text): int {
    if t == [] then 0 else 10 * ValueOf(t[..|t| - 1]) + (t[|t| - 1] as int - 48)
  }

  /** The printed digits read back as the number. */
  lemma {:induction false} DigitsReadBack(n: nat)
    ensures ValueOf(Digits(n)) == n && Digits(n) != []
    ensures forall i | 0 <= i < |Digits(n)| :: 48 <= Digits(n)[i] <= 57
    ensures n > 0 ==> Digits(n)[0] != 48
  {
    var d := Digits(n);
    if n < 10 {
      assert d[..0] == [];
    } else {
      DigitsReadBack(n / 10);
      assert d[..|d| - 1] == Digits(n / 10);
    }
  }

  /** A minus sign in front of the digits of a negative number, and nothing else in front of any. */
  lemma DecimalReadsBack(v: int)
    ensures v < 0 ==> Decimal(v)[0] == 45 && ValueOf(Decimal(v)[1..]) == -v
    ensures v >= 0 ==> ValueOf(Decimal(v)) == v && Decimal(v)[0] != 45
  {
    DigitsReadBack(if v < 0 then -v else v);
    if v < 0 {
      assert Decimal(v)[1..] == Digits(-v);
    }
  }

  function Pow10(k: nat): nat {
    if k == 0 then 1 else 10 * Pow10(k - 1)
  }

  lemma {:induction false} DigitsFit(n: nat, k: nat)
    requires k > 0 && n < Pow10(k)
    ensures |Digits(n)| <= k
  {
    if n >= 10 {
      assert k > 1;
      DigitsFit(n / 10, k - 1);
    }
  }

  lemma DigitsLength(n: nat)
    requires n < 0x8000_0000
    ensures |Digits(n)| <= 10
  {
    assert Pow10(5) == 100000;
    assert Pow10(10) == 10000000000;
    DigitsFit(n, 10);
  }
}
