/** fs_resolve_path as the kernel runs it: two 128-byte buffers and a stack of sixteen components. */
module Resolver {
  import opened Bytes
  import opened Paths
  import opened CString

  lemma {:induction false} ChunkLenIs(s: Text, cap: nat, n: nat)
    requires n <= |s| && n <= cap && SLASH !in s[..n]
    requires n < |s| && n < cap ==> s[n] == SLASH
    ensures ChunkLen(s, cap) == n
  {
    if n > 0 {
      assert s[0] == s[..n][0];
      assert s[1..][..n - 1] == s[..n][1..];
      ChunkLenIs(s[1..], cap - 1, n - 1);
    }
  }

  lemma {:induction false} PrefixIsNoLonger(cs: seq<Text>, c: nat)
    requires c <= |cs|
    ensures |Print(cs[..c])| <= |Print(cs)|
    decreases |cs|
  {
    if c == |cs| {
      assert cs[..c] == cs;
    } else {
      var init := cs[..|cs| - 1];
      PrefixIsNoLonger(init, c);
      assert init[..c] == cs[..c];
    }
  }

  /** The text to normalise, assembled in a 128-byte buffer. */
  method BuildRaw(cwd: Text, input: Text, raw: array<byte>)
    requires raw.Length == MAX_PATH
    requires IsText(cwd) && IsText(input) && |RawPath(cwd, input)| < MAX_PATH
    modifies raw
    ensures NUL in raw[..] && TextOf(raw) == RawPath(cwd, input)
  {
    var text := if input == [] then cwd else input;
    if ROOT <= text {
      StrCopyN(raw, text, MAX_PATH);
    } else {
      assert |Join(cwd, text)| < MAX_PATH;
      StrCopyN(raw, cwd, MAX_PATH);
      assert TextOf(raw) == cwd;
      if TextOf(raw) != ROOT {
        StrConcat(raw, ROOT);
      }
      StrConcat(raw, text);
    }
  }

  /** One token on the stack: ignored, popped, pushed, or dropped when the stack is full. */
  method PushToken(stack: array<Text>, depth: nat, part: Text) returns (d: nat)
    requires depth <= stack.Length == MAX_DEPTH
    modifies stack
    ensures d <= MAX_DEPTH && stack[..d] == Push(old(stack[..depth]), part)
  {
    if part == [DOT] {
      return depth;
    }
    if part == [DOT, DOT] {
      return if depth > 0 then depth - 1 else depth;
    }
    if depth < MAX_DEPTH {
      stack[depth] := part;
      return depth + 1;
    }
    return depth;
  }

  /** The stack of components after the whole text is consumed. */
  method ParseComponents(raw: array<byte>) returns (comps: seq<Text>)
    requires NUL in raw[..]
    ensures comps == Fold([], Tokens(TextOf(raw)))
  {
    var stack := new Text[MAX_DEPTH];
    var depth: nat, i: nat := 0, 0;
    ghost var text := TextOf(raw);
    ghost var goal := Fold([], Tokens(text));
    assert text[0..] == text && stack[..0] == [];
    while raw[i] != NUL
      modifies stack
      invariant i <= |text| < raw.Length && text == raw[..|text|] && raw[|text|] == NUL
      invariant depth <= stack.Length == MAX_DEPTH
      invariant Fold(stack[..depth], Tokens(text[i..])) == goal
      decreases |text| - i
    {
      var part, next := NextToken(raw, i, text);
      i := next;
      if part == [] {
        break;
      }
      depth := PushToken(stack, depth, part);
    }
    assert text[i..] == [];
    comps := stack[..depth];
  }

  /** The next token and where it ends; an empty token at the end of the text. */
  method NextToken(raw: array<byte>, at: nat, ghost text: Text) returns (part: Text, next: nat)
    requires at < |text| < raw.Length && text == raw[..|text|] && raw[|text|] == NUL && IsText(text)
    ensures at < next <= |text|
    ensures part == [] ==> next == |text| && Tokens(text[at..]) == []
    ensures part != [] ==> Tokens(text[at..]) == [part] + Tokens(text[next..])
  {
    var i := SkipSlashes(raw, at, text);
    if raw[i] == NUL {
      assert text[i..] == [];
      return [], i;
    }
    part := TakeChunk(raw, i, text);
    next := i + |part|;
    assert text[i..][|part|..] == text[next..];
  }

  method SkipSlashes(raw: array<byte>, at: nat, ghost text: Text) returns (i: nat)
    requires at <= |text| < raw.Length && text == raw[..|text|] && raw[|text|] == NUL && IsText(text)
    ensures at <= i <= |text| && raw[i] != SLASH
    ensures Tokens(text[i..]) == Tokens(text[at..])
  {
    i := at;
    while raw[i] == SLASH
      invariant at <= i <= |text|
      invariant Tokens(text[i..]) == Tokens(text[at..])
      decreases |text| - i
    {
      assert text[i..][1..] == text[i + 1..];
      i := i + 1;
    }
  }

  /** The inner copying loop: at most 31 bytes, up to the next slash. */
  method TakeChunk(raw: array<byte>, at: nat, ghost text: Text) returns (part: Text)
    requires at < |text| < raw.Length && text == raw[..|text|] && raw[|text|] == NUL && IsText(text)
    requires raw[at] != SLASH
    ensures 1 <= |part| < MAX_NAME && at + |part| <= |text|
    ensures part == text[at..][..ChunkLen(text[at..], MAX_NAME - 1)]
  {
    part := [];
    var i := at;
    while raw[i] != NUL && raw[i] != SLASH && |part| + 1 < MAX_NAME
      invariant at <= i <= |text| && part == text[at..i] && |part| < MAX_NAME && SLASH !in part
      invariant i == at ==> part == []
      decreases |text| - i
    {
      part := part + [raw[i]];
      i := i + 1;
    }
    assert text[at..][..|part|] == part;
    assert i < |text| ==> text[i] == raw[i] && text[i] != NUL;
    ChunkLenIs(text[at..], MAX_NAME - 1, |part|);
  }

  /** The components printed back, one concatenation at a time. */
  method PrintComponents(comps: seq<Text>, result: array<byte>)
    requires result.Length == MAX_PATH
    requires AreComponents(comps) && |Print(comps)| < MAX_PATH
    modifies result
    ensures NUL in result[..] && TextOf(result) == Print(comps)
  {
    StrCopyN(result, ROOT, MAX_PATH);
    assert TextOf(result) == ROOT;
    for c := 0 to |comps|
      invariant NUL in result[..] && TextOf(result) == Print(comps[..c])
    {
      PrefixIsNoLonger(comps, c + 1);
      assert comps[..c + 1][..c] == comps[..c];
      assert Print(comps[..c + 1]) == Join(Print(comps[..c]), comps[c]);
      if c > 0 {
        assert Print(comps[..c]) != ROOT by {
          assert Print(comps[..c]) == Join(Print(comps[..c][..c - 1]), comps[c - 1]);
        }
        StrConcat(result, ROOT);
      }
      StrConcat(result, comps[c]);
    }
    assert comps[..|comps|] == comps;
  }

  /** fs_resolve_path. */
  method ResolvePath(cwd: Text, input: Text) returns (out: Text)
    requires IsText(cwd) && IsText(input) && Fits(cwd, input)
    ensures out == Resolve(cwd, input)
  {
    var raw := new byte[MAX_PATH];
    BuildRaw(cwd, input, raw);
    var comps := ParseComponents(raw);
    TokensAreChunks(RawPath(cwd, input));
    FoldKeepsComponents([], Tokens(RawPath(cwd, input)));
    var result := new byte[MAX_PATH];
    PrintComponents(comps, result);
    out := TextOf(result);
  }
}
