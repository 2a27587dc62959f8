/** The kernel's string routines: loops over NUL-terminated buffers, updated in place. */
module CString {
  import opened Bytes
  import Paths

  /** The text a buffer holds. */
  function TextOf(a: array<byte>): (t: Text)
    reads a
    ensures IsText(t) && |t| <= a.Length
  {
    Cut(a[..])
  }

  /** The buffer once `s` and its NUL are stored at offset `at`; the bytes beyond keep their old values. */
  function Stored(before: seq<byte>, at: nat, s: Text): seq<byte>
    requires at + |s| < |before|
  {
    before[..at] + s + [NUL] + before[at + |s| + 1..]
  }

  lemma StoredText(before: seq<byte>, at: nat, s: Text)
    requires at + |s| < |before| && IsText(s) && IsText(before[..at])
    ensures Cut(Stored(before, at, s)) == before[..at] + s
  {
    var after := Stored(before, at, s);
    assert after[..at + |s|] == before[..at] + s;
    CutIs(after, at + |s|);
  }

  method StrLen(str: array<byte>) returns (len: nat)
    requires NUL in str[..]
    ensures len == |TextOf(str)| && len < str.Length
  {
    len := 0;
    while str[len] != NUL
      invariant len < str.Length && NUL in str[len..] && IsText(str[..len])
      decreases str.Length - len
    {
      assert str[len..] == [str[len]] + str[len + 1..];
      len := len + 1;
    }
    CutIs(str[..], len);
  }

  method StrCopyN(dest: array<byte>, src: Text, maxLen: nat)
    requires maxLen <= dest.Length && IsText(src)
    modifies dest
    ensures maxLen == 0 ==> dest[..] == old(dest[..])
    ensures maxLen > 0 ==> dest[..] == Stored(old(dest[..]), 0, src[..Min(|src|, maxLen - 1)])
    ensures maxLen > 0 ==> TextOf(dest) == src[..Min(|src|, maxLen - 1)] && NUL in dest[..]
  {
    if maxLen == 0 { return; }
    ghost var before, part := dest[..], src[..Min(|src|, maxLen - 1)];
    var i := 0;
    while i < |src| && i + 1 < maxLen
      invariant i <= |part|
      invariant forall j | 0 <= j < i :: dest[j] == part[j]
      invariant forall j | i <= j < dest.Length :: dest[j] == before[j]
    {
      dest[i] := src[i];
      i := i + 1;
    }
    dest[i] := NUL;
    IsStored(before, dest[..], 0, part);
  }

  /** A buffer that agrees with a stored text byte by byte. */
  lemma IsStored(before: seq<byte>, after: seq<byte>, at: nat, s: Text)
    requires at + |s| < |before| == |after| && IsText(s) && IsText(before[..at])
    requires forall j | 0 <= j < at :: after[j] == before[j]
    requires after[at + |s|] == NUL && forall j | 0 <= j < |s| :: after[at + j] == s[j]
    requires forall j | at + |s| < j < |before| :: after[j] == before[j]
    ensures after == Stored(before, at, s)
    ensures Cut(after) == before[..at] + s && NUL in after
  {
    assert after == Stored(before, at, s);
    StoredText(before, at, s);
  }

  method StrConcat(dest: array<byte>, src: Text)
    requires NUL in dest[..] && IsText(src)
    requires |TextOf(dest)| + |src| < dest.Length
    modifies dest
    ensures dest[..] == Stored(old(dest[..]), |old(TextOf(dest))|, src)
    ensures TextOf(dest) == old(TextOf(dest)) + src && NUL in dest[..]
  {
    ghost var before := dest[..];
    var len := StrLen(dest);
    assert before[..len] == TextOf(dest);
    var j := 0;
    while j < |src|
      invariant j <= |src|
      invariant forall k | 0 <= k < len :: dest[k] == before[k]
      invariant forall k | 0 <= k < j :: dest[len + k] == src[k]
      invariant forall k | len + j <= k < dest.Length :: dest[k] == before[k]
    {
      dest[len + j] := src[j];
      j := j + 1;
    }
    dest[len + j] := NUL;
    IsStored(before, dest[..], len, src);
  }

  /** A C string read at index `i`: NUL at its end. */
  function CharAt(s: Text, i: nat): byte {
    if i < |s| then s[i] else NUL
  }

  method StrCompare(a: Text, b: Text) returns (r: int)
    requires IsText(a) && IsText(b)
    ensures r == 0 <==> a == b
    ensures exists k: nat :: k <= |a| && k <= |b| && a[..k] == b[..k] && r == CharAt(a, k) as int - CharAt(b, k) as int
                             && (r == 0 ==> k == |a|)
  {
    var k := 0;
    while CharAt(a, k) != NUL && CharAt(a, k) == CharAt(b, k)
      invariant k <= |a| && k <= |b| && a[..k] == b[..k]
      decreases |a| - k
    {
      k := k + 1;
    }
    r := CharAt(a, k) as int - CharAt(b, k) as int;
    assert a == b ==> r == 0;
    if r == 0 {
      assert k == |a| == |b|;
      assert a == a[..k] && b == b[..k];
    }
  }

  method StrLastIndexOf(str: Text, c: byte) returns (last: int)
    ensures last == Paths.LastIndexOf(str, c)
  {
    last := -1;
    for i := 0 to |str|
      invariant -1 <= last < i
      invariant last >= 0 ==> str[last] == c
      invariant forall j | last < j < i :: str[j] != c
    {
      if str[i] == c {
        last := i;
      }
    }
  }

  method PathGetFilename(path: Text) returns (name: Text)
    ensures name == Paths.Filename(path)
  {
    var k := StrLastIndexOf(path, SLASH);
    name := if k < 0 then path else path[k + 1..];
  }

  method PathGetDirname(path: Text) returns (dirname: Text)
    ensures dirname == Paths.Dirname(path)
  {
    var k := StrLastIndexOf(path, SLASH);
    if k <= 0 { return ROOT; }
    dirname := [];
    var i := 0;
    while i < k && i < Paths.MAX_PATH - 1
      invariant 0 <= i <= k && i <= Paths.MAX_PATH - 1 && dirname == path[..i]
    {
      dirname := dirname + [path[i]];
      i := i + 1;
    }
  }

  predicate IsBlank(c: byte) {
    c == SPACE || c == TAB || c == NEWLINE
  }

  function TrimLeft(s: Text): Text {
    if s != [] && IsBlank(s[0]) then TrimLeft(s[1..]) else s
  }

  function TrimRight(s: Text): Text {
    if s != [] && IsBlank(s[|s| - 1]) then TrimRight(s[..|s| - 1]) else s
  }

  /** The text without the blanks at both ends. */
  function Trim(s: Text): Text {
    TrimRight(TrimLeft(s))
  }

  predicate AreBlank(s: Text) {
    forall i | 0 <= i < |s| :: s[i] == SPACE || s[i] == TAB || s[i] == NEWLINE
  }

  lemma {:induction false} TrimLeftBlanks(a: Text, s: Text)
    requires AreBlank(a)
    ensures TrimLeft(a + s) == TrimLeft(s)
  {
    if a == [] {
      assert a + s == s;
    } else {
      assert (a + s)[1..] == a[1..] + s;
      TrimLeftBlanks(a[1..], s);
    }
  }

  lemma {:induction false} TrimRightBlanks(s: Text, b: Text)
    requires AreBlank(b)
    ensures TrimRight(s + b) == TrimRight(s)
  {
    if b == [] {
      assert s + b == s;
    } else {
      assert (s + b)[..|s + b| - 1] == s + b[..|b| - 1];
      TrimRightBlanks(s, b[..|b| - 1]);
    }
  }

  /** Spaces, tabs and newlines go at both ends, and nothing else does. */
  lemma TrimIs(a: Text, s: Text, b: Text)
    requires AreBlank(a) && AreBlank(b)
    requires s == [] || (!AreBlank([s[0]]) && !AreBlank([s[|s| - 1]]))
    ensures Trim(a + s + b) == s
  {
    if s == [] {
      assert a + s + b == (a + b) + [];
      TrimLeftBlanks(a + b, []);
    } else {
      assert a + s + b == a + (s + b);
      TrimLeftBlanks(a, s + b);
      assert [s[0]][0] == s[0] && [s[|s| - 1]][0] == s[|s| - 1] && (s + b)[0] == s[0];
      assert TrimLeft(s + b) == s + b;
      TrimRightBlanks(s, b);
    }
  }

  /** The last loop of str_trim: bytes start..end move to the front and are terminated. */
  method MoveLeft(str: array<byte>, start: nat, end: nat)
    requires start <= end < str.Length && IsText(str[start..end])
    modifies str
    ensures TextOf(str) == old(str[start..end]) && NUL in str[..]
  {
    ghost var before, text := str[..], str[start..end];
    var out, from := 0, start;
    while from < end
      invariant start <= from <= end && out == from - start
      invariant forall k | 0 <= k < out :: str[k] == text[k]
      invariant forall k | from <= k < end :: str[k] == before[k]
    {
      assert str[from] == before[from] == text[out];
      str[out] := str[from];
      out := out + 1;
      from := from + 1;
    }
    str[out] := NUL;
    HoldsText(str[..], text);
  }

  /** A buffer that starts with a text and its NUL. */
  lemma HoldsText(s: seq<byte>, t: Text)
    requires IsText(t) && |t| < |s| && s[|t|] == NUL && forall j | 0 <= j < |t| :: s[j] == t[j]
    ensures Cut(s) == t && NUL in s
  {
    assert s[..|t|] == t;
    CutIs(s, |t|);
  }

  /** The first loop of str_trim: the blanks at the front. */
  method SkipFront(str: array<byte>, end: nat, ghost text: Text) returns (start: nat)
    requires end < str.Length && str[end] == NUL && text == str[..end]
    ensures start <= end && TrimLeft(text) == text[start..]
  {
    start := 0;
    assert text[0..] == text;
    while IsBlank(str[start])
      invariant start <= end && TrimLeft(text) == TrimLeft(text[start..])
      decreases end - start
    {
      assert text[start] == str[start] && text[start..][1..] == text[start + 1..];
      start := start + 1;
    }
    assert start < end ==> text[start..][0] == str[start];
  }

  /** The second loop: the blanks at the end. */
  method SkipBack(str: array<byte>, start: nat, last: nat, ghost text: Text) returns (end: nat)
    requires start <= last < str.Length && text == str[..last]
    ensures start <= end <= last && TrimRight(text[start..]) == text[start..end]
  {
    end := last;
    assert text[start..last] == text[start..];
    while end > start && IsBlank(str[end - 1])
      invariant start <= end <= last && TrimRight(text[start..]) == TrimRight(text[start..end])
    {
      assert text[start..end][..end - start - 1] == text[start..end - 1] && text[end - 1] == str[end - 1];
      end := end - 1;
    }
    assert start < end ==> text[start..end][end - start - 1] == str[end - 1];
  }

  method StrTrim(str: array<byte>)
    requires NUL in str[..]
    modifies str
    ensures TextOf(str) == Trim(old(TextOf(str))) && NUL in str[..]
  {
    ghost var text := TextOf(str);
    var end := StrLen(str);
    assert text == str[..end];
    var start := SkipFront(str, end, text);
    end := SkipBack(str, start, end, text);
    assert str[start..end] == text[start..end];
    MoveLeft(str, start, end);
  }
}
