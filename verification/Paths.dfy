/** Path normalisation and splitting: what fs_resolve_path and the path_get_* functions compute. */
module Paths {
  import opened Bytes

  const MAX_NAME := 32
  const MAX_PATH := 128
  const MAX_DEPTH := 16

  // ---------------------------------------------------------------- splitting

  /** The index of the last `c` in `s`, or -1. */
  function LastIndexOf(s: Text, c: byte): (k: int)
    ensures -1 <= k < |s|
    ensures k >= 0 ==> s[k] == c
    ensures forall i | k < i < |s| :: s[i] != c
  {
    if s == [] then -1
    else if s[|s| - 1] == c then |s| - 1
    else LastIndexOf(s[..|s| - 1], c)
  }

  function Filename(p: Text): Text {
    p[LastIndexOf(p, SLASH) + 1..]
  }

  function Dirname(p: Text): Text {
    var k := LastIndexOf(p, SLASH);
    if k <= 0 then ROOT else p[..Min(k, MAX_PATH - 1)]
  }

  /** A directory path followed by one more name. */
  function Join(dir: Text, name: Text): Text {
    if dir == ROOT then dir + name else dir + ROOT + name
  }

  /** `p` lies strictly inside directory `dir`. */
  predicate IsUnder(dir: Text, p: Text) {
    if dir == ROOT then ROOT <= p && p != ROOT else dir + ROOT <= p
  }

  predicate Inside(from: Text, p: Text) {
    p == from || IsUnder(from, p)
  }

  /** Where a path goes when `from` moves to `to`. */
  function Moved(from: Text, to: Text, p: Text): Text {
    if Inside(from, p) && |from| <= |p| then to + p[|from|..] else p
  }

  lemma SplitJoin(dir: Text, name: Text)
    requires dir != [] && SLASH !in name
    requires |dir| < MAX_PATH
    ensures Dirname(Join(dir, name)) == dir
    ensures Filename(Join(dir, name)) == name
  {
    var p := Join(dir, name);
    var s := |p| - |name| - 1;
    assert p[s] == SLASH;
    assert p[s + 1..] == name;
    forall i | s < i < |p| ensures p[i] != SLASH {
      assert p[i] == name[i - s - 1];
    }
    assert LastIndexOf(p, SLASH) == s;
  }

  lemma UnderJoin(d: Text, q: Text, n: Text)
    requires d != [] && ROOT <= q && n != [] && SLASH !in n
    ensures IsUnder(d, Join(q, n)) <==> d == q || IsUnder(d, q)
  {
    var p := Join(q, n);
    var s := |p| - |n| - 1;
    assert forall i | s < i < |p| :: p[i] == n[i - s - 1];
    if d != ROOT && d + ROOT <= p {
      assert (d + ROOT)[|d|] == SLASH == p[|d|];
      assert |d| <= s;
      if q != ROOT {
        assert p[..|q|] == q;
        assert d == p[..|d|] == q[..|d|];
        if |d| < |q| {
          assert (d + ROOT) == p[..|d| + 1] == q[..|d| + 1];
        }
      }
    }
    if d != ROOT && d == q {
      assert p[..|d| + 1] == d + ROOT;
    }
    if d != ROOT && IsUnder(d, q) {
      assert p[..|q|] == q;
      assert p[..|d| + 1] == q[..|d| + 1];
    }
  }

  // --------------------------------------------------------------- tokenising

  /** How many bytes the inner loop takes: up to the next slash, at most `cap`. */
  function ChunkLen(s: Text, cap: nat): (n: nat)
    ensures n <= |s| && n <= cap && SLASH !in s[..n]
    ensures n < |s| && n < cap ==> s[n] == SLASH
  {
    if s == [] || cap == 0 || s[0] == SLASH then 0
    else
      var n := 1 + ChunkLen(s[1..], cap - 1);
      assert s[..n] == [s[0]] + s[1..][..n - 1];
      n
  }

  /** The pieces between slashes, long ones cut every 31 bytes. */
  function Tokens(s: Text): seq<Text>
    decreases |s|
  {
    if s == [] then []
    else if s[0] == SLASH then Tokens(s[1..])
    else
      var n := ChunkLen(s, MAX_NAME - 1);
      [s[..n]] + Tokens(s[n..])
  }

  /** One token applied to the stack of components. */
  function Push(stack: seq<Text>, token: Text): seq<Text> {
    if token == [DOT] then stack
    else if token == [DOT, DOT] then (if stack == [] then stack else stack[..|stack| - 1])
    else if |stack| < MAX_DEPTH then stack + [token]
    else stack
  }

  function Fold(stack: seq<Text>, tokens: seq<Text>): seq<Text>
    decreases |tokens|
  {
    if tokens == [] then stack else Fold(Push(stack, tokens[0]), tokens[1..])
  }

  function Print(comps: seq<Text>): Text {
    if comps == [] then ROOT else Join(Print(comps[..|comps| - 1]), comps[|comps| - 1])
  }

  /** The text fs_resolve_path normalises, before normalisation. */
  function RawPath(cwd: Text, input: Text): Text {
    var text := if input == [] then cwd else input;
    if ROOT <= text then text[..Min(|text|, MAX_PATH - 1)] else Join(cwd, text)
  }

  function Resolve(cwd: Text, input: Text): Text {
    Print(Fold([], Tokens(RawPath(cwd, input))))
  }

  /** Both local 128-byte buffers of fs_resolve_path are large enough. */
  predicate Fits(cwd: Text, input: Text) {
    |RawPath(cwd, input)| < MAX_PATH && |Resolve(cwd, input)| < MAX_PATH
  }

  predicate IsComponent(c: Text) {
    1 <= |c| < MAX_NAME && IsText(c) && SLASH !in c && c != [DOT] && c != [DOT, DOT]
  }

  predicate AreComponents(cs: seq<Text>) {
    forall i | 0 <= i < |cs| :: IsComponent(cs[i])
  }

  /** A path in normal form: what printing a list of components yields. */
  predicate IsPath(p: Text) {
    AreComponents(Tokens(p)) && p == Print(Tokens(p))
  }

  predicate IsCanonical(p: Text) {
    IsPath(p) && |Tokens(p)| <= MAX_DEPTH
  }

  // ------------------------------------------------------------------- lemmas

  lemma {:induction false} ChunkLenBeforeSlash(a: Text, b: Text, cap: nat)
    ensures ChunkLen(a + ROOT + b, cap) == ChunkLen(a, cap)
  {
    if a == [] {
      assert (a + ROOT + b)[0] == SLASH;
    } else if cap > 0 && a[0] != SLASH {
      assert (a + ROOT + b)[1..] == a[1..] + ROOT + b;
      ChunkLenBeforeSlash(a[1..], b, cap - 1);
    }
  }

  /** A slash separates tokens: splitting is a homomorphism at every slash. */
  lemma {:induction false} TokensJoin(a: Text, b: Text)
    ensures Tokens(a + ROOT + b) == Tokens(a) + Tokens(b)
    decreases |a|
  {
    var s := a + ROOT + b;
    if a == [] {
      assert s[1..] == b;
    } else if a[0] == SLASH {
      assert s[1..] == a[1..] + ROOT + b;
      TokensJoin(a[1..], b);
    } else {
      var n := ChunkLen(a, MAX_NAME - 1);
      ChunkLenBeforeSlash(a, b, MAX_NAME - 1);
      assert s[..n] == a[..n];
      assert s[n..] == a[n..] + ROOT + b;
      TokensJoin(a[n..], b);
    }
  }

  lemma TokensOfPathJoin(d: Text, n: Text)
    ensures Tokens(Join(d, n)) == Tokens(d) + Tokens(n)
  {
    if d == ROOT {
      assert [] + ROOT + n == Join(d, n);
      TokensJoin([], n);
      assert Tokens(d[1..]) == [];
    } else {
      TokensJoin(d, n);
    }
  }

  lemma TokensOfComponent(c: Text)
    requires 1 <= |c| < MAX_NAME && SLASH !in c
    ensures Tokens(c) == [c]
  {
    var n := ChunkLen(c, MAX_NAME - 1);
    assert n == |c|;
    assert c[..n] == c && c[n..] == [];
  }

  /** The printer is a right inverse of the tokenizer. */
  lemma {:induction false} TokensOfPrint(cs: seq<Text>)
    requires AreComponents(cs)
    ensures Tokens(Print(cs)) == cs
    ensures ROOT <= Print(cs)
  {
    if cs == [] {
      assert ROOT[1..] == [];
    } else {
      var init, last := cs[..|cs| - 1], cs[|cs| - 1];
      TokensOfPrint(init);
      TokensOfPathJoin(Print(init), last);
      TokensOfComponent(last);
      assert init + [last] == cs;
    }
  }

  lemma {:induction false} FoldConcat(stack: seq<Text>, a: seq<Text>, b: seq<Text>)
    ensures Fold(stack, a + b) == Fold(Fold(stack, a), b)
    decreases |a|
  {
    if a == [] {
      assert a + b == b;
    } else {
      assert (a + b)[1..] == a[1..] + b;
      FoldConcat(Push(stack, a[0]), a[1..], b);
    }
  }

  lemma {:induction false} FoldOfComponents(stack: seq<Text>, cs: seq<Text>)
    requires AreComponents(cs) && |stack| + |cs| <= MAX_DEPTH
    ensures Fold(stack, cs) == stack + cs
    decreases |cs|
  {
    if cs != [] {
      FoldOfComponents(stack + [cs[0]], cs[1..]);
      assert stack + [cs[0]] + cs[1..] == stack + cs;
    }
  }

  predicate AreChunks(ts: seq<Text>) {
    forall i | 0 <= i < |ts| :: 1 <= |ts[i]| < MAX_NAME && IsText(ts[i]) && SLASH !in ts[i]
  }

  lemma {:induction false} TokensAreChunks(s: Text)
    requires IsText(s)
    ensures AreChunks(Tokens(s))
    decreases |s|
  {
    if s != [] {
      if s[0] == SLASH {
        TokensAreChunks(s[1..]);
      } else {
        TokensAreChunks(s[ChunkLen(s, MAX_NAME - 1)..]);
      }
    }
  }

  lemma {:induction false} FoldKeepsComponents(stack: seq<Text>, ts: seq<Text>)
    requires AreComponents(stack) && |stack| <= MAX_DEPTH && AreChunks(ts)
    ensures AreComponents(Fold(stack, ts)) && |Fold(stack, ts)| <= MAX_DEPTH
    decreases |ts|
  {
    if ts != [] {
      FoldKeepsComponents(Push(stack, ts[0]), ts[1..]);
    }
  }

  lemma PrintIsCanonical(cs: seq<Text>)
    requires AreComponents(cs)
    ensures IsPath(Print(cs)) && ROOT <= Print(cs)
    ensures |cs| <= MAX_DEPTH ==> IsCanonical(Print(cs))
  {
    TokensOfPrint(cs);
  }

  lemma {:induction false} PrintIsText(cs: seq<Text>)
    requires AreComponents(cs)
    ensures IsText(Print(cs))
  {
    if cs != [] {
      PrintIsText(cs[..|cs| - 1]);
    }
  }

  /** Every resolved path is canonical. */
  lemma ResolveIsCanonical(cwd: Text, input: Text)
    requires IsText(cwd) && IsText(input)
    ensures IsCanonical(Resolve(cwd, input))
    ensures IsText(Resolve(cwd, input)) && ROOT <= Resolve(cwd, input)
  {
    TokensAreChunks(RawPath(cwd, input));
    var cs := Fold([], Tokens(RawPath(cwd, input)));
    FoldKeepsComponents([], Tokens(RawPath(cwd, input)));
    PrintIsCanonical(cs);
    PrintIsText(cs);
  }

  /** A canonical path resolves to itself, from anywhere. */
  lemma ResolveOfCanonical(cwd: Text, p: Text)
    requires IsCanonical(p) && |p| < MAX_PATH
    ensures Resolve(cwd, p) == p && Fits(cwd, p)
  {
    TokensOfPrint(Tokens(p));
    assert RawPath(cwd, p) == p;
    FoldOfComponents([], Tokens(p));
    assert [] + Tokens(p) == Tokens(p);
  }

  /** fs_resolve_path is idempotent. */
  lemma ResolveIdempotent(cwd: Text, cwd': Text, input: Text)
    requires IsText(cwd) && IsText(input) && Fits(cwd, input)
    ensures Resolve(cwd', Resolve(cwd, input)) == Resolve(cwd, input)
  {
    ResolveIsCanonical(cwd, input);
    ResolveOfCanonical(cwd', Resolve(cwd, input));
  }

  /** Resolving a relative path from a printed directory continues its stack. */
  lemma ResolveFromComponents(cs: seq<Text>, b: Text)
    requires AreComponents(cs) && |cs| <= MAX_DEPTH
    requires b != [] && b[0] != SLASH
    ensures Resolve(Print(cs), b) == Print(Fold(cs, Tokens(b)))
  {
    TokensOfPrint(cs);
    TokensOfPathJoin(Print(cs), b);
    FoldConcat([], cs, Tokens(b));
    FoldOfComponents([], cs);
    assert [] + cs == cs;
  }

  lemma RawPathExtends(cwd: Text, a: Text, b: Text)
    requires a != [] && |a + ROOT + b| < MAX_PATH
    ensures RawPath(cwd, a + ROOT + b) == RawPath(cwd, a) + ROOT + b
  {
    var text := a + ROOT + b;
    assert text[0] == a[0];
    if ROOT <= a {
      assert ROOT <= text && text[..|text|] == text && a[..|a|] == a;
    } else {
      assert !(ROOT <= text);
      assert Join(cwd, text) == Join(cwd, a) + ROOT + b;
    }
  }

  /** Going to `a` and then to the relative `b` is going to `a/b`. */
  lemma ResolveComposes(cwd: Text, a: Text, b: Text)
    requires IsText(cwd) && IsText(a)
    requires a != [] && b != [] && b[0] != SLASH
    requires |a + ROOT + b| < MAX_PATH
    ensures Resolve(Resolve(cwd, a), b) == Resolve(cwd, a + ROOT + b)
  {
    var ts := Tokens(RawPath(cwd, a));
    TokensAreChunks(RawPath(cwd, a));
    FoldKeepsComponents([], ts);
    ResolveFromComponents(Fold([], ts), b);
    RawPathExtends(cwd, a, b);
    TokensJoin(RawPath(cwd, a), b);
    FoldConcat([], ts, Tokens(b));
  }

  /** Splitting a canonical path and joining the halves gives it back. */
  lemma JoinSplit(p: Text)
    requires IsPath(p) && p != ROOT && |p| < MAX_PATH
    ensures Join(Dirname(p), Filename(p)) == p
    ensures IsPath(Dirname(p)) && ROOT <= Dirname(p) && |Dirname(p)| < |p|
    ensures IsComponent(Filename(p))
  {
    var cs := Tokens(p);
    var init, last := cs[..|cs| - 1], cs[|cs| - 1];
    PrintIsCanonical(init);
    SplitJoin(Print(init), last);
  }

  lemma JoinIsPath(q: Text, n: Text)
    requires IsPath(q) && IsComponent(n)
    ensures IsPath(Join(q, n))
  {
    TokensOfPathJoin(q, n);
    TokensOfComponent(n);
    var cs := Tokens(q) + [n];
    assert cs[..|cs| - 1] == Tokens(q);
    assert Print(cs) == Join(q, n);
  }

  lemma DotTokens()
    ensures Tokens([DOT]) == [[DOT]] && Tokens([DOT, DOT]) == [[DOT, DOT]]
  {
    TokensOfComponent([DOT]);
    TokensOfComponent([DOT, DOT]);
  }

  /** The directory of a printed path is the path without its last component. */
  lemma PrintDirname(cs: seq<Text>)
    requires AreComponents(cs) && |Print(cs)| < MAX_PATH
    ensures Dirname(Print(cs)) == Print(if cs == [] then [] else cs[..|cs| - 1])
  {
    if cs == [] {
      assert ROOT[0] == SLASH;
    } else {
      TokensOfPrint(cs[..|cs| - 1]);
      SplitJoin(Print(cs[..|cs| - 1]), cs[|cs| - 1]);
    }
  }

  /** From a directory, `..` is its parent, the root's own for the root; `.` and no text at all are the directory itself. */
  lemma ResolveDots(p: Text)
    requires IsCanonical(p) && |p| < MAX_PATH
    ensures Resolve(p, [DOT, DOT]) == Dirname(p)
    ensures Resolve(p, [DOT]) == p && Resolve(p, []) == p
  {
    var cs := Tokens(p);
    DotTokens();
    ResolveFromComponents(cs, [DOT, DOT]);
    ResolveFromComponents(cs, [DOT]);
    PrintDirname(cs);
    assert Fold(cs, [[DOT, DOT]]) == Push(cs, [DOT, DOT]) && Fold(cs, [[DOT]]) == cs;
    ResolveOfCanonical(p, p);
    TokensOfPrint(cs);
  }

  /** So `..` behind any path undoes its last component. */
  lemma ResolveParent(cwd: Text, a: Text)
    requires IsText(cwd) && IsText(a) && a != [] && Fits(cwd, a) && |a + ROOT + [DOT, DOT]| < MAX_PATH
    ensures Resolve(cwd, a + ROOT + [DOT, DOT]) == Dirname(Resolve(cwd, a))
  {
    ResolveIsCanonical(cwd, a);
    ResolveComposes(cwd, a, [DOT, DOT]);
    ResolveDots(Resolve(cwd, a));
  }

  /** What the node table asks of a path: absolute, bounded, and split by its last slash. */
  predicate IsLookupPath(p: Text) {
    && IsText(p) && ROOT <= p && |p| < MAX_PATH
    && (p != ROOT ==>
          && Join(Dirname(p), Filename(p)) == p && IsComponent(Filename(p))
          && ROOT <= Dirname(p) && |Dirname(p)| < |p|)
  }

  lemma CanonicalLooksUp(p: Text)
    requires IsPath(p) && IsText(p) && |p| < MAX_PATH
    ensures IsLookupPath(p)
  {
    TokensOfPrint(Tokens(p));
    if p != ROOT {
      JoinSplit(p);
    }
  }
}
