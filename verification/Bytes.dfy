/** Bytes, C strings and the constants shared by the kernel's components. */
module Bytes {

  newtype byte = x: int | 0 <= x < 256

  /** The text of a C string: its bytes before the terminating NUL. */
  type Text = seq<byte>

  const NUL: byte := 0
  const BACKSPACE: byte := 8
  const TAB: byte := 9
  const NEWLINE: byte := 10
  const RETURN: byte := 13
  const SPACE: byte := 32
  const QUOTE: byte := 34
  const DOT: byte := 46
  const SLASH: byte := 47

  const ROOT: Text := [SLASH]

  predicate IsText(s: seq<byte>) {
    NUL !in s
  }

  function Min(a: int, b: int): int {
    if a <= b then a else b
  }

  function Max(a: int, b: int): int {
    if a <= b then b else a
  }

  function Zeros(n: nat): (z: seq<byte>)
    ensures |z| == n && forall i | 0 <= i < n :: z[i] == NUL
  {
    seq(n, _ => NUL)
  }

  /** Exactly `cap` bytes, cut or padded. */
  function Fit(s: seq<byte>, cap: nat): (r: seq<byte>)
    ensures |r| == cap
    ensures |s| == cap ==> r == s
  {
    if cap <= |s| then s[..cap] else s + Zeros(cap - |s|)
  }

  /** The bytes of a string literal. */
  function Ascii(s: string): (t: Text)
    ensures |t| == |s|
    ensures forall i | 0 <= i < |s| :: t[i] as int == s[i] as int % 256
  {
    seq(|s|, i requires 0 <= i < |s| => (s[i] as int % 256) as byte)
  }

  /** The first index at or after `i` that holds `c`, or the length. */
  function FirstFrom(s: seq<byte>, c: byte, i: nat): (k: nat)
    requires i <= |s|
    ensures i <= k <= |s|
    ensures k < |s| ==> s[k] == c
    ensures forall j | i <= j < k :: s[j] != c
    decreases |s| - i
  {
    if i == |s| || s[i] == c then i else FirstFrom(s, c, i + 1)
  }

  /** What C reads from a buffer: everything before the first NUL. */
  function Cut(s: seq<byte>): (t: Text)
    ensures t <= s && IsText(t)
    ensures |t| < |s| ==> s[|t|] == NUL
  {
    s[..FirstFrom(s, NUL, 0)]
  }

  lemma CutIs(s: seq<byte>, n: nat)
    requires n <= |s| && IsText(s[..n])
    requires n < |s| ==> s[n] == NUL
    ensures Cut(s) == s[..n]
  {
    assert forall j | 0 <= j < n :: s[j] == s[..n][j];
  }
}
