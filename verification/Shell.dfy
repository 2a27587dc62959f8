/** The shell's tokenizer: cut in place, it refines a pure splitting of the line. */
module Shell {
  import opened Bytes
  import opened CString

  // ---------------------------------------------------------- specification

  predicate IsSeparator(c: byte) {
    c == SPACE || c == TAB
  }

  function SkipBlanks(s: Text): (r: Text)
    ensures |r| <= |s|
    ensures r != [] ==> !IsSeparator(r[0])
  {
    if s != [] && IsSeparator(s[0]) then SkipBlanks(s[1..]) else s
  }

  /** The first index at or after `i` holding a blank, or the length. */
  function BlankFrom(s: Text, i: nat): (k: nat)
    requires i <= |s|
    ensures i <= k <= |s|
    ensures k < |s| ==> IsSeparator(s[k])
    ensures forall j | i <= j < k :: !IsSeparator(s[j])
    decreases |s| - i
  {
    if i == |s| || IsSeparator(s[i]) then i else BlankFrom(s, i + 1)
  }

  /** What follows the delimiter at index `n`, or nothing. */
  function After(s: Text, n: nat): Text
    requires n <= |s|
  {
    if n < |s| then s[n + 1..] else []
  }

  /** Where the token at the front of `s` starts and ends. */
  function TokenStart(s: Text): nat
    requires s != []
  {
    if s[0] == QUOTE then 1 else 0
  }

  function TokenEnd(s: Text): (n: nat)
    requires s != []
    ensures TokenStart(s) <= n <= |s|
  {
    if s[0] == QUOTE then FirstFrom(s, QUOTE, 1) else BlankFrom(s, 0)
  }

  function Token(s: Text): Text
    requires s != []
  {
    s[TokenStart(s)..TokenEnd(s)]
  }

  function Rest(s: Text): Text
    requires s != []
  {
    After(s, TokenEnd(s))
  }

  /** The arguments of a line, at most `max` of them. */
  function Args(s: Text, max: nat): seq<Text>
    decreases max
  {
    var t := SkipBlanks(s);
    if max == 0 || t == [] then [] else [Token(t)] + Args(Rest(t), max - 1)
  }

  // ------------------------------------------------------------------ lengths

  /** The length of the arguments with one byte after each. */
  function Footprint(args: seq<Text>): nat {
    if args == [] then 0 else |args[0]| + 1 + Footprint(args[1..])
  }

  /** Arguments and the bytes between them never exceed the line. */
  lemma {:induction false} ArgsFitLine(s: Text, max: nat)
    ensures Footprint(Args(s, max)) <= |s| + 1 && |Args(s, max)| <= max
    decreases max
  {
    var t := SkipBlanks(s);
    if max > 0 && t != [] {
      var rest := Rest(t);
      ArgsFitLine(rest, max - 1);
      var args := Args(s, max);
      assert args[1..] == Args(rest, max - 1);
      if rest == [] {
        assert SkipBlanks(rest) == [];
      }
    }
  }

  // --------------------------------------------------------------- round trip

  /** A token as typed: between quotes, or bare. */
  datatype Word = Quoted(text: Text) | Bare(text: Text)

  /** No space and no tab; every other byte goes, a slash or a quote inside included. */
  predicate IsPlain(t: Text) {
    forall i | 0 <= i < |t| :: t[i] != SPACE && t[i] != TAB
  }

  predicate WordOk(w: Word) {
    match w
    case Quoted(t) => QUOTE !in t
    case Bare(t) => t != [] && t[0] != QUOTE && IsPlain(t)
  }

  function Typed(w: Word): Text {
    match w
    case Quoted(t) => [QUOTE] + t + [QUOTE]
    case Bare(t) => t
  }

  /** Words typed with a space between each. */
  function Line(ws: seq<Word>): Text {
    if ws == [] then []
    else if |ws| == 1 then Typed(ws[0])
    else Typed(ws[0]) + [SPACE] + Line(ws[1..])
  }

  /** The texts of the first `max` words. */
  function Texts(ws: seq<Word>, max: nat): seq<Text>
    decreases max
  {
    if ws == [] || max == 0 then [] else [ws[0].text] + Texts(ws[1..], max - 1)
  }

  lemma FirstQuoted(t: Text, rest: Text)
    requires QUOTE !in t
    ensures var s := [QUOTE] + t + [QUOTE] + rest;
      Token(s) == t && Rest(s) == rest
  {
    var s, n := [QUOTE] + t + [QUOTE] + rest, |t| + 1;
    assert s[n] == QUOTE && forall j | 1 <= j < n :: s[j] == t[j - 1];
    FirstIs(s, QUOTE, 1, n);
    assert s[1..n] == t && s[n + 1..] == rest;
  }

  lemma FirstBare(t: Text, c: byte, rest: Text)
    requires t != [] && t[0] != QUOTE && IsPlain(t) && (c == SPACE || c == TAB)
    ensures var s := t + [c] + rest;
      Token(s) == t && Rest(s) == rest
  {
    var s := t + [c] + rest;
    assert s[|t|] == c && forall j | 0 <= j < |t| :: s[j] == t[j];
    BlankIs(s, |t|);
    assert s[..|t|] == t && s[|t| + 1..] == rest;
  }

  /** The front token of a line that starts with a word, and what is left. */
  lemma FirstWord(w: Word, c: byte, rest: Text)
    requires WordOk(w) && (c == SPACE || c == TAB)
    ensures var s := Typed(w) + [c] + rest;
      && s != [] && SkipBlanks(s) == s
      && Token(s) == w.text && SkipBlanks(Rest(s)) == SkipBlanks(rest)
  {
    match w
    case Quoted(t) =>
      FirstQuoted(t, [c] + rest);
      assert [QUOTE] + t + [QUOTE] + ([c] + rest) == Typed(w) + [c] + rest;
      assert ([c] + rest)[1..] == rest;
    case Bare(t) =>
      FirstBare(t, c, rest);
  }

  /** The last word of a line runs to its end. */
  lemma OnlyWord(w: Word)
    requires WordOk(w)
    ensures var s := Typed(w);
      && s != [] && SkipBlanks(s) == s
      && Token(s) == w.text && SkipBlanks(Rest(s)) == []
  {
    match w
    case Quoted(t) =>
      OnlyQuoted(t);
    case Bare(t) =>
      assert !IsSeparator(t[0]);
      assert BlankFrom(t, 0) == |t|;
      assert t[..|t|] == t;
  }

  lemma OnlyQuoted(t: Text)
    requires QUOTE !in t
    ensures var s := [QUOTE] + t + [QUOTE]; Token(s) == t && Rest(s) == []
  {
    var s, n := [QUOTE] + t + [QUOTE], |t| + 1;
    assert s[n] == QUOTE && forall j | 1 <= j < n :: s[j] == t[j - 1];
    FirstIs(s, QUOTE, 1, n);
    assert s[1..n] == t && s[n + 1..] == [];
  }

  lemma FirstIs(s: Text, c: byte, i: nat, n: nat)
    requires i <= n < |s| && s[n] == c && forall j | i <= j < n :: s[j] != c
    ensures FirstFrom(s, c, i) == n
  {
  }

  lemma BlankIs(s: Text, n: nat)
    requires n < |s| && IsSeparator(s[n]) && forall j | 0 <= j < n :: !IsSeparator(s[j])
    ensures BlankFrom(s, 0) == n
  {
  }

  lemma ArgsSkipBlanks(s: Text, s': Text, max: nat)
    requires SkipBlanks(s) == SkipBlanks(s')
    ensures Args(s, max) == Args(s', max)
  {
  }

  /** A word and one space or tab in front of anything. */
  lemma ArgsOfWord(w: Word, c: byte, line: Text, rest: Text, max: nat)
    requires WordOk(w) && (c == SPACE || c == TAB) && max > 0 && line == Typed(w) + [c] + rest
    ensures Args(line, max) == [w.text] + Args(rest, max - 1)
  {
    FirstWord(w, c, rest);
    ArgsSkipBlanks(Rest(line), rest, max - 1);
  }

  /** Spaces and tabs in front of a line do not matter. */
  lemma {:induction false} ArgsOfBlanks(blanks: Text, s: Text, max: nat)
    requires forall i | 0 <= i < |blanks| :: blanks[i] == SPACE || blanks[i] == TAB
    ensures Args(blanks + s, max) == Args(s, max)
  {
    if blanks == [] {
      assert blanks + s == s;
    } else {
      assert (blanks + s)[1..] == blanks[1..] + s;
      ArgsOfBlanks(blanks[1..], s, max);
      ArgsSkipBlanks(blanks + s, blanks[1..] + s, max);
    }
  }

  /** A quoted argument needs nothing behind its closing quote. */
  lemma ArgsOfQuoted(t: Text, rest: Text, max: nat)
    requires QUOTE !in t && max > 0
    ensures Args([QUOTE] + t + [QUOTE] + rest, max) == [t] + Args(rest, max - 1)
  {
    FirstQuoted(t, rest);
  }

  /** A quote that is never closed takes the rest of the line. */
  lemma ArgsOfOpenQuote(t: Text, max: nat)
    requires QUOTE !in t && max > 0
    ensures Args([QUOTE] + t, max) == [t]
  {
    var s := [QUOTE] + t;
    assert forall j | 1 <= j < |s| :: s[j] == t[j - 1];
    assert FirstFrom(s, QUOTE, 1) == |s| && s[1..|s|] == t;
    assert SkipBlanks(s) == s && Args(Rest(s), max - 1) == [];
  }

  lemma ArgsOfOne(ws: seq<Word>, max: nat)
    requires |ws| == 1 && WordOk(ws[0]) && max > 0
    ensures Args(Line(ws), max) == Texts(ws, max)
  {
    OnlyWord(ws[0]);
    assert Args(Rest(Line(ws)), max - 1) == [] && Texts(ws[1..], max - 1) == [];
  }

  predicate WordsOk(ws: seq<Word>) {
    ws == [] || (WordOk(ws[0]) && WordsOk(ws[1..]))
  }

  lemma ArgsOfMore(ws: seq<Word>, max: nat)
    requires |ws| > 1 && WordOk(ws[0]) && max > 0
    requires Args(Line(ws[1..]), max - 1) == Texts(ws[1..], max - 1)
    ensures Args(Line(ws), max) == Texts(ws, max)
  {
    ArgsOfWord(ws[0], SPACE, Line(ws), Line(ws[1..]), max);
  }

  /** Splitting words joined by single spaces gives the words back, up to the limit. */
  lemma {:induction false} ArgsOfLine(ws: seq<Word>, max: nat)
    requires WordsOk(ws)
    ensures Args(Line(ws), max) == Texts(ws, max)
    decreases max
  {
    if ws == [] || max == 0 {
    } else if |ws| == 1 {
      ArgsOfOne(ws, max);
    } else {
      ArgsOfLine(ws[1..], max - 1);
      ArgsOfMore(ws, max);
    }
  }

  // ------------------------------------------------------------- after str_trim

  /** A word ends in a byte that str_trim keeps, and starts with one. */
  lemma TypedEnds(w: Word)
    requires WordOk(w) && NEWLINE !in Typed(w)
    ensures var s := Typed(w); s != [] && !IsBlank(s[0]) && !IsBlank(s[|s| - 1])
  {
  }

  lemma {:induction false} LineEnds(ws: seq<Word>)
    requires ws != [] && WordsOk(ws) && NEWLINE !in Line(ws)
    ensures var s := Line(ws); s != [] && !IsBlank(s[0]) && !IsBlank(s[|s| - 1])
  {
    var first := Typed(ws[0]);
    if |ws| == 1 {
      TypedEnds(ws[0]);
    } else {
      var s, rest := Line(ws), Line(ws[1..]);
      assert s == first + [SPACE] + rest;
      assert forall i | 0 <= i < |first| :: first[i] == s[i];
      assert forall i | 0 <= i < |rest| :: rest[i] == s[|first| + 1 + i];
      TypedEnds(ws[0]);
      LineEnds(ws[1..]);
      assert s[|s| - 1] == rest[|rest| - 1];
    }
  }

  /** The shell trims a line and splits it: words joined by spaces come back. */
  lemma TypedLineReadsBack(ws: seq<Word>, max: nat)
    requires WordsOk(ws) && NEWLINE !in Line(ws)
    ensures Trim(Line(ws)) == Line(ws)
    ensures Args(Trim(Line(ws)), max) == Texts(ws, max)
  {
    if ws != [] {
      LineEnds(ws);
    }
    ArgsOfLine(ws, max);
  }

  // ------------------------------------------------------------------- method

  /** What C reads at offset `i` of the line. */
  function TextAt(line: array<byte>, i: nat): Text
    requires i <= line.Length
    reads line
  {
    Cut(line[i..])
  }

  /** Token `done` sits at offset `at`, ended by a NUL. */
  predicate Holds(line: seq<byte>, at: nat, done: Text) {
    at + |done| < |line| && line[at..at + |done|] == done && line[at + |done|] == NUL
  }

  lemma HeldText(line: array<byte>, at: nat, done: Text)
    requires Holds(line[..], at, done) && IsText(done)
    ensures TextAt(line, at) == done
  {
    assert line[at..][..|done|] == done;
    CutIs(line[at..], |done|);
  }

  /** The tokens found so far: held, in order, apart, and before the cursor unless the line is used up. */
  predicate Found(line: seq<byte>, offs: seq<nat>, done: seq<Text>, cursor: nat, n: nat) {
    && |offs| == |done|
    && (forall k | 0 <= k < |done| :: Holds(line, offs[k], done[k]) && IsText(done[k]))
    && (forall k | 0 <= k < |done| :: offs[k] + |done[k]| < cursor || (cursor == n && offs[k] + |done[k]| == n))
    && (forall k | 0 < k < |done| :: offs[k - 1] + |done[k - 1]| < offs[k])
  }

  /** One more token, beyond a cursor that had not reached the end. */
  lemma FoundOneMore(line: seq<byte>, line': seq<byte>, offs: seq<nat>, done: seq<Text>, start: nat, token: Text,
                     cursor: nat, next: nat, n: nat)
    requires Found(line, offs, done, cursor, n) && cursor < n && cursor <= start && cursor < next
    requires |line'| == |line| && cursor <= |line| && line'[..cursor] == line[..cursor]
    requires Holds(line', start, token) && IsText(token)
    requires start + |token| < next || (next == n && start + |token| == n)
    ensures Found(line', offs + [start], done + [token], next, n)
  {
    forall k | 0 <= k < |done| ensures Holds(line', offs[k], done[k]) {
      var end := offs[k] + |done[k]|;
      assert forall j | offs[k] <= j <= end :: line'[j] == line'[..cursor][j] == line[..cursor][j] == line[j];
      assert line'[offs[k]..end] == line[offs[k]..end];
    }
  }

  /** `now` is `before` with some bytes overwritten by NUL. */
  predicate OnlyCut(before: seq<byte>, now: seq<byte>) {
    |now| == |before| && forall i | 0 <= i < |now| :: now[i] == before[i] || now[i] == NUL
  }

  /** The text `left` of the line still to be read starts at `cursor`. */
  predicate Unread(line: seq<byte>, cursor: nat, left: Text) {
    cursor + |left| < |line| && line[cursor..cursor + |left|] == left && line[cursor + |left|] == NUL && IsText(left)
  }

  /** The token at the cursor: its start and its end. */
  method ScanToken(line: array<byte>, cursor: nat, ghost rest: Text) returns (start: nat, end: nat)
    requires Unread(line[..], cursor, rest) && rest != []
    ensures start == cursor + TokenStart(rest) && end == cursor + TokenEnd(rest)
  {
    assert forall j | 0 <= j < |rest| :: rest[j] == line[cursor + j];
    if line[cursor] == QUOTE {
      start := cursor + 1;
      end := start;
      while line[end] != NUL && line[end] != QUOTE
        invariant start <= end <= cursor + |rest|
        invariant FirstFrom(rest, QUOTE, 1) == FirstFrom(rest, QUOTE, end - cursor)
        decreases cursor + |rest| - end
      {
        end := end + 1;
      }
    } else {
      start := cursor;
      end := cursor;
      while line[end] != NUL && line[end] != SPACE && line[end] != TAB
        invariant start <= end <= cursor + |rest|
        invariant BlankFrom(rest, 0) == BlankFrom(rest, end - cursor)
        decreases cursor + |rest| - end
      {
        end := end + 1;
      }
    }
  }

  method SkipSeparators(line: array<byte>, at: nat, ghost rest: Text) returns (cursor: nat)
    requires Unread(line[..], at, rest)
    ensures at <= cursor && cursor + |SkipBlanks(rest)| == at + |rest| && Unread(line[..], cursor, SkipBlanks(rest))
    ensures line[cursor] == NUL <==> SkipBlanks(rest) == []
  {
    cursor := at;
    ghost var left := rest;
    while line[cursor] == SPACE || line[cursor] == TAB
      invariant at <= cursor && cursor + |left| == at + |rest|
      invariant Unread(line[..], cursor, left) && SkipBlanks(left) == SkipBlanks(rest)
      decreases |left|
    {
      UnreadBytes(line[..], cursor, left);
      UnreadTail(line[..], cursor, left);
      cursor, left := cursor + 1, left[1..];
    }
    UnreadBytes(line[..], cursor, left);
  }

  lemma UnreadTail(line: seq<byte>, cursor: nat, t: Text)
    requires Unread(line, cursor, t) && t != []
    ensures Unread(line, cursor + 1, t[1..])
  {
    assert line[cursor + 1..cursor + |t|] == line[cursor..cursor + |t|][1..];
  }

  lemma UnreadBytes(line: seq<byte>, cursor: nat, t: Text)
    requires Unread(line, cursor, t)
    ensures forall j | 0 <= j < |t| :: t[j] == line[cursor + j]
  {
  }

  /** The bytes `a..b` of the unread text, where they stand in the line. */
  lemma UnreadSlice(line: seq<byte>, cursor: nat, t: Text, a: nat, b: nat)
    requires Unread(line, cursor, t) && a <= b <= |t|
    ensures line[cursor + a..cursor + b] == t[a..b]
  {
    UnreadBytes(line, cursor, t);
  }

  /** An argument that a NUL is written after. */
  lemma CutAtDelimiter(line: seq<byte>, cursor: nat, t: Text, s: nat, e: nat)
    requires Unread(line, cursor, t) && s <= e < |t|
    ensures var line' := line[cursor + e := NUL];
      Holds(line', cursor + s, t[s..e]) && OnlyCut(line, line') && Unread(line', cursor + e + 1, t[e + 1..])
  {
    var line' := line[cursor + e := NUL];
    UnreadSlice(line, cursor, t, s, e);
    assert line'[cursor + s..cursor + e] == line[cursor + s..cursor + e];
    UnreadSlice(line, cursor, t, e + 1, |t|);
    assert line'[cursor + e + 1..cursor + |t|] == line[cursor + e + 1..cursor + |t|];
  }

  /** An argument that runs to the end of the line. */
  lemma CutAtEnd(line: seq<byte>, cursor: nat, t: Text, s: nat)
    requires Unread(line, cursor, t) && s <= |t|
    ensures Holds(line, cursor + s, t[s..]) && Unread(line, cursor + |t|, [])
  {
    UnreadBytes(line, cursor, t);
    assert line[cursor + s..cursor + |t|] == t[s..];
  }

  /** A delimiter, if there is one, overwritten by a NUL. */
  method Terminate(line: array<byte>, end: nat, ghost cursor: nat, ghost t: Text, ghost s: nat)
    returns (next: nat, ghost after: Text)
    requires Unread(line[..], cursor, t) && cursor + s <= end <= cursor + |t| && cursor < end
    modifies line
    ensures after == After(t, end - cursor)
    ensures cursor < next && Unread(line[..], next, after) && next + |after| == cursor + |t|
    ensures Holds(line[..], cursor + s, t[s..end - cursor]) && OnlyCut(old(line[..]), line[..])
    ensures end < next || (after == [] && end == next)
    ensures line[..cursor] == old(line[..cursor])
  {
    ghost var e := end - cursor;
    after := After(t, e);
    UnreadBytes(line[..], cursor, t);
    if line[end] != NUL {
      CutAtDelimiter(line[..], cursor, t, s, e);
      line[end] := NUL;
      next := end + 1;
    } else {
      CutAtEnd(line[..], cursor, t, s);
      assert t[s..e] == t[s..];
      next := end;
    }
  }

  /** One argument: found, and cut. */
  method CutArg(line: array<byte>, cursor: nat, ghost t: Text)
    returns (start: nat, next: nat, ghost token: Text, ghost after: Text)
    requires Unread(line[..], cursor, t) && t != [] && !IsSeparator(t[0])
    modifies line
    ensures token == Token(t) && after == Rest(t)
    ensures cursor <= start && cursor < next && Unread(line[..], next, after) && next + |after| == cursor + |t|
    ensures Holds(line[..], start, token) && OnlyCut(old(line[..]), line[..])
    ensures start + |token| < next || (after == [] && start + |token| == next)
    ensures line[..cursor] == old(line[..cursor])
  {
    var end;
    start, end := ScanToken(line, cursor, t);
    token := Token(t);
    next, after := Terminate(line, end, cursor, t, TokenStart(t));
  }

  /** The arguments of `left` are `token` and then those of `after`. */
  ghost predicate Splits(left: Text, token: Text, after: Text) {
    IsText(token) && forall k | k > 0 :: Args(left, k) == [token] + Args(after, k - 1)
  }

  /** The next argument after blanks, if there is one: the head of the arguments of what is left. */
  method NextArg(line: array<byte>, at: nat, ghost left: Text)
    returns (found: bool, start: nat, next: nat, ghost token: Text, ghost after: Text)
    requires Unread(line[..], at, left)
    modifies line
    ensures Unread(line[..], next, after) && next + |after| == at + |left| && OnlyCut(old(line[..]), line[..])
    ensures !found ==> after == [] && line[..] == old(line[..]) && forall k :: Args(left, k) == []
    ensures found ==> Splits(left, token, after) && at <= start && at < next && Holds(line[..], start, token)
                      && (start + |token| < next || (after == [] && start + |token| == next))
    ensures line[..at] == old(line[..at])
  {
    var cursor := SkipSeparators(line, at, left);
    ghost var t := SkipBlanks(left);
    found, start, next := line[cursor] != NUL, 0, cursor;
    token, after := [], [];
    if found {
      start, next, token, after := CutArg(line, cursor, t);
    }
  }

  /** Everything known after some arguments are cut: tokens held, text unread, arguments to come. */
  ghost predicate Progress(orig: seq<byte>, line: seq<byte>, offs: seq<nat>, args: seq<Text>, cursor: nat, left: Text,
                           max: nat)
  {
    var text := Cut(orig);
    && OnlyCut(orig, line) && Unread(line, cursor, left) && cursor + |left| == |text|
    && Found(line, offs, args, cursor, |text|) && |args| <= max
    && args + Args(left, max - |args|) == Args(text, max)
  }

  lemma ArgsShift(done: seq<Text>, token: Text, left: Text, after: Text, k: nat)
    requires k > 0 && Splits(left, token, after)
    ensures done + Args(left, k) == (done + [token]) + Args(after, k - 1)
  {
    assert Args(left, k) == [token] + Args(after, k - 1);
  }

  lemma OnlyCutTwice(a: seq<byte>, b: seq<byte>, c: seq<byte>)
    requires OnlyCut(a, b) && OnlyCut(b, c)
    ensures OnlyCut(a, c)
  {
  }

  lemma ProgressStep(orig: seq<byte>, line: seq<byte>, line': seq<byte>, offs: seq<nat>, args: seq<Text>,
                     cursor: nat, left: Text, max: nat, start: nat, next: nat, token: Text, after: Text)
    requires Progress(orig, line, offs, args, cursor, left, max) && |args| < max && left != []
    requires OnlyCut(line, line') && Unread(line', next, after) && next + |after| == cursor + |left|
    requires Splits(left, token, after) && cursor <= start && cursor < next && Holds(line', start, token)
    requires start + |token| < next || (after == [] && start + |token| == next)
    requires line'[..cursor] == line[..cursor]
    ensures Progress(orig, line', offs + [start], args + [token], next, after, max)
  {
    ArgsShift(args, token, left, after, max - |args|);
    OnlyCutTwice(orig, line, line');
    FoundOneMore(line, line', offs, args, start, token, cursor, next, |Cut(orig)|);
  }

  /** The loop of shell_parse: offsets recorded and delimiters cut until the line or the limit is used up. */
  method CutLine(line: array<byte>, argv: array<nat>, maxArgs: nat)
    returns (argc: nat, ghost args: seq<Text>, ghost end: nat)
    requires NUL in line[..] && maxArgs <= argv.Length
    modifies line, argv
    ensures args == Args(old(TextOf(line)), maxArgs) && argc == |args| <= maxArgs
    ensures Found(line[..], argv[..argc], args, end, |old(TextOf(line))|)
    ensures OnlyCut(old(line[..]), line[..])
  {
    ghost var orig, left, offs: seq<nat> := line[..], TextOf(line), [];
    argc := 0;
    args := [];
    var cursor: nat := 0;
    while line[cursor] != NUL && argc < maxArgs
      invariant argc == |args| <= maxArgs && argv[..argc] == offs
      invariant Progress(orig, line[..], offs, args, cursor, left, maxArgs)
      decreases maxArgs - argc
    {
      ghost var before := line[..];
      var found, start, next, token, after := NextArg(line, cursor, left);
      if !found {
        left := after;
        cursor := next;
        break;
      }
      ProgressStep(orig, before, line[..], offs, args, cursor, left, maxArgs, start, next, token, after);
      argv[argc] := start;
      assert argv[..argc + 1] == offs + [start];
      cursor, left := next, after;
      args, offs := args + [token], offs + [start];
      argc := argc + 1;
    }
    end := cursor;
  }

  /** shell_parse. */
  method ShellParse(line: array<byte>, argv: array<nat>, maxArgs: nat) returns (argc: nat, ghost args: seq<Text>)
    requires NUL in line[..] && maxArgs <= argv.Length
    modifies line, argv
    ensures args == Args(old(TextOf(line)), maxArgs) && argc == |args| <= maxArgs
    ensures forall k | 0 <= k < argc :: argv[k] <= line.Length && TextAt(line, argv[k]) == args[k]
    ensures forall k | 0 < k < argc :: argv[k - 1] + |args[k - 1]| < argv[k]
    ensures OnlyCut(old(line[..]), line[..])
  {
    ghost var n := |TextOf(line)|;
    ghost var end;
    argc, args, end := CutLine(line, argv, maxArgs);
    ghost var offs := argv[..argc];
    HeldTexts(line, offs, args, end, n);
    assert forall k | 0 <= k < argc :: offs[k] == argv[k];
  }

  lemma HeldTexts(line: array<byte>, offs: seq<nat>, args: seq<Text>, cursor: nat, n: nat)
    requires Found(line[..], offs, args, cursor, n)
    ensures forall k | 0 <= k < |args| :: offs[k] <= line.Length && TextAt(line, offs[k]) == args[k]
  {
    forall k | 0 <= k < |args| ensures offs[k] <= line.Length && TextAt(line, offs[k]) == args[k] {
      HeldText(line, offs[k], args[k]);
    }
  }
}
