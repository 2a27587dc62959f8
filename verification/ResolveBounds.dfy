/** When the result buffer of fs_resolve_path is large enough: cutting long names adds slashes. */
module ResolveBounds {
  import opened Bytes
  import opened Paths

  /** How many times a run without slashes is cut after its 31st byte. */
  function Cuts(s: Text): nat
    decreases |s|
  {
    if s == [] then 0
    else if s[0] == SLASH then Cuts(s[1..])
    else
      var n := ChunkLen(s, MAX_NAME - 1);
      Cuts(s[n..]) + (if n < |s| && s[n] != SLASH then 1 else 0)
  }

  /** The length of the components with a slash before each. */
  function Weight(cs: seq<Text>): nat {
    if cs == [] then 0 else |cs[0]| + 1 + Weight(cs[1..])
  }

  lemma {:induction false} WeightConcat(a: seq<Text>, b: seq<Text>)
    ensures Weight(a + b) == Weight(a) + Weight(b)
  {
    if a == [] {
      assert a + b == b;
    } else {
      assert (a + b)[1..] == a[1..] + b;
      WeightConcat(a[1..], b);
    }
  }

  lemma {:induction false} TokensWeight(s: Text)
    ensures Weight(Tokens(s)) <= |s| + Cuts(s) + (if ROOT <= s then 0 else 1)
    decreases |s|
  {
    if s == [] {
    } else if s[0] == SLASH {
      TokensWeight(s[1..]);
    } else {
      var n := ChunkLen(s, MAX_NAME - 1);
      TokensWeight(s[n..]);
      assert Tokens(s)[1..] == Tokens(s[n..]);
      if n < |s| {
        assert s[n..][0] == s[n];
      }
    }
  }

  lemma PushWeight(stack: seq<Text>, token: Text)
    ensures Weight(Push(stack, token)) <= Weight(stack) + |token| + 1
  {
    WeightConcat(stack, [token]);
    assert Weight([token]) == |token| + 1;
    if stack != [] {
      var init, last := stack[..|stack| - 1], stack[|stack| - 1];
      WeightConcat(init, [last]);
      assert init + [last] == stack;
    }
  }

  lemma {:induction false} FoldWeight(stack: seq<Text>, ts: seq<Text>)
    ensures Weight(Fold(stack, ts)) <= Weight(stack) + Weight(ts)
    decreases |ts|
  {
    if ts != [] {
      PushWeight(stack, ts[0]);
      FoldWeight(Push(stack, ts[0]), ts[1..]);
    }
  }

  lemma {:induction false} PrintWeight(cs: seq<Text>)
    requires AreComponents(cs)
    ensures |Print(cs)| == Max(1, Weight(cs))
  {
    if cs != [] {
      var init, last := cs[..|cs| - 1], cs[|cs| - 1];
      PrintWeight(init);
      WeightConcat(init, [last]);
      assert init + [last] == cs;
      if init == [] {
        assert Weight(init) == 0;
      } else {
        assert Weight(init) >= 2;
        assert Print(init) != ROOT;
      }
    }
  }

  /** The exact length of a result: the components left on the stack, with a slash before each. */
  lemma ResolveWeight(cwd: Text, input: Text)
    requires IsText(cwd) && IsText(input)
    ensures |Resolve(cwd, input)| == Max(1, Weight(Fold([], Tokens(RawPath(cwd, input)))))
    ensures var raw := RawPath(cwd, input);
      Fits(cwd, input) <==> |raw| < MAX_PATH && Weight(Fold([], Tokens(raw))) < MAX_PATH
  {
    var raw := RawPath(cwd, input);
    TokensAreChunks(raw);
    FoldKeepsComponents([], Tokens(raw));
    PrintWeight(Fold([], Tokens(raw)));
  }

  /** The result is no longer than the text plus one slash for each cut. */
  lemma ResolveLength(cwd: Text, input: Text)
    requires IsText(cwd) && IsText(input) && ROOT <= cwd
    ensures var raw := RawPath(cwd, input);
      |Resolve(cwd, input)| <= |raw| + Cuts(raw)
    ensures var raw := RawPath(cwd, input);
      |raw| + Cuts(raw) < MAX_PATH ==> Fits(cwd, input)
  {
    var raw := RawPath(cwd, input);
    assert ROOT <= raw;
    TokensWeight(raw);
    FoldWeight([], Tokens(raw));
    ResolveWeight(cwd, input);
  }

  /** Without dots the stack keeps the first sixteen tokens. */
  lemma {:induction false} FoldSaturates(stack: seq<Text>, ts: seq<Text>)
    requires AreComponents(ts) && |stack| <= MAX_DEPTH
    ensures Fold(stack, ts) == stack + ts[..Min(|ts|, MAX_DEPTH - |stack|)]
    decreases |ts|
  {
    if ts != [] {
      FoldSaturates(Push(stack, ts[0]), ts[1..]);
      if |stack| < MAX_DEPTH {
        var n := Min(|ts|, MAX_DEPTH - |stack|);
        assert ts[..n] == [ts[0]] + ts[1..][..n - 1];
      }
    }
  }

  /** The tokens a text without dots can put on the stack. */
  function Kept(raw: Text): seq<Text> {
    var ts := Tokens(raw);
    ts[..Min(|ts|, MAX_DEPTH)]
  }

  /** Without `.` and `..` the buffers suffice exactly when the text and its first sixteen tokens are short enough. */
  lemma FitsExactly(cwd: Text, input: Text)
    requires IsText(cwd) && IsText(input) && AreComponents(Tokens(RawPath(cwd, input)))
    ensures var raw := RawPath(cwd, input);
      Fits(cwd, input) <==> |raw| < MAX_PATH && Weight(Kept(raw)) < MAX_PATH
    ensures |Resolve(cwd, input)| == Max(1, Weight(Kept(RawPath(cwd, input))))
  {
    var ts := Tokens(RawPath(cwd, input));
    FoldSaturates([], ts);
    assert [] + ts[..Min(|ts|, MAX_DEPTH)] == Kept(RawPath(cwd, input));
    ResolveWeight(cwd, input);
  }

  lemma WeightOfFive(a: Text, b: Text, c: Text, d: Text, e: Text)
    ensures Weight([a, b, c, d, e]) == |a| + |b| + |c| + |d| + |e| + 5
  {
    assert [a, b, c, d, e][1..] == [b, c, d, e] && [b, c, d, e][1..] == [c, d, e];
    assert [c, d, e][1..] == [d, e] && [d, e][1..] == [e];
    assert Weight([e]) == |e| + 1;
    assert Weight([d, e]) == |d| + 1 + Weight([e]);
    assert Weight([c, d, e]) == |c| + 1 + Weight([d, e]);
  }

  /** A slash and a 126-byte name fit the first buffer; their normal form is four bytes too long for the second. */
  lemma LongNameOverflows(name: Text)
    requires |name| == 126 && forall i | 0 <= i < |name| :: name[i] == 97
    ensures |RawPath(ROOT, ROOT + name)| == MAX_PATH - 1 && |Resolve(ROOT, ROOT + name)| == 131
    ensures !Fits(ROOT, ROOT + name)
  {
    LongTokens(name);
    var ts := Tokens(name);
    forall i | 0 <= i < |ts| ensures IsComponent(ts[i]) {
      assert ts[i][0] == 97;
    }
    assert (ROOT + name)[1..] == name;
    assert RawPath(ROOT, ROOT + name) == ROOT + name && Tokens(ROOT + name) == ts == Kept(ROOT + name);
    assert IsText(ROOT + name);
    FitsExactly(ROOT, ROOT + name);
    WeightOfFive(name[..31], name[31..62], name[62..93], name[93..124], name[124..]);
  }

  lemma LongTokens(name: Text)
    requires |name| == 126 && SLASH !in name
    ensures Tokens(name) == [name[..31], name[31..62], name[62..93], name[93..124], name[124..]]
  {
    FrontToken(name);
    FrontToken(name[31..]);
    assert name[31..][31..] == name[62..] && name[31..][..31] == name[31..62];
    FrontToken(name[62..]);
    assert name[62..][31..] == name[93..] && name[62..][..31] == name[62..93];
    FrontToken(name[93..]);
    assert name[93..][31..] == name[124..] && name[93..][..31] == name[93..124];
    TokensOfComponent(name[124..]);
  }

  lemma FrontToken(s: Text)
    requires |s| > 31 && SLASH !in s
    ensures Tokens(s) == [s[..31]] + Tokens(s[31..])
  {
    assert ChunkLen(s, 31) == 31;
  }
}
