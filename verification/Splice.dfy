/** Tables whose bytes come from one table up to some sector, and from another table after it. */
module Splice {
  import opened Bytes
  import opened Paths
  import opened NodeTable
  import opened NodeCodec

  /** The first `c` bytes of `x`, then the rest of `y`; a cut outside takes all of one. */
  function Spliced(x: seq<byte>, y: seq<byte>, c: int): (r: seq<byte>)
    requires |x| == |y|
    ensures |r| == |x|
    ensures c <= 0 ==> r == y
    ensures c >= |x| ==> r == x
  {
    var k := Max(0, Min(c, |x|));
    x[..k] + y[k..]
  }

  /** A splice, field by field. */
  lemma SpliceSlice(x: seq<byte>, y: seq<byte>, c: int, lo: nat, hi: nat)
    requires |x| == |y| && lo <= hi <= |x|
    ensures Spliced(x, y, c)[lo..hi] == Spliced(x[lo..hi], y[lo..hi], c - lo)
  {
    var r, s := Spliced(x, y, c), Spliced(x[lo..hi], y[lo..hi], c - lo);
    forall k | 0 <= k < hi - lo ensures r[lo..hi][k] == s[k] {
      SpliceAt(x, y, c, lo + k);
      SpliceAt(x[lo..hi], y[lo..hi], c - lo, k);
    }
  }

  lemma SpliceAt(x: seq<byte>, y: seq<byte>, c: int, k: nat)
    requires |x| == |y| && k < |x|
    ensures Spliced(x, y, c)[k] == if k < c then x[k] else y[k]
  {
  }

  // -------------------------------------------------------------------- nodes

  function CutBuf(a: Buf, b: Buf, cap: nat, c: int): Buf {
    ReadBuf(Spliced(Fit(RawBytes(a), cap), Fit(RawBytes(b), cap), c))
  }

  /** A node of which the first `c` bytes come from `a` and the rest from `b`. */
  function CutNode(a: Node, b: Node, c: int): Node {
    DecodeNode(Spliced(EncodeNode(a), EncodeNode(b), c))
  }

  lemma CutWhole(a: Node, b: Node, c: int)
    requires Shaped(a) && Shaped(b)
    ensures c <= 0 ==> CutNode(a, b, c) == b
    ensures c >= NODE_BYTES ==> CutNode(a, b, c) == a
  {
    NodeRoundTrip(a);
    NodeRoundTrip(b);
  }

  lemma CutBytes(a: Node, b: Node, c: int)
    ensures var raw := Spliced(EncodeNode(a), EncodeNode(b), c);
      && raw[..32] == Spliced(Fit(RawBytes(a.name), MAX_NAME), Fit(RawBytes(b.name), MAX_NAME), c)
      && raw[32..160] == Spliced(Fit(RawBytes(a.path), MAX_PATH), Fit(RawBytes(b.path), MAX_PATH), c - 32)
      && raw[160..164] == Spliced(I32(a.kind), I32(b.kind), c - 160)
      && raw[164..168] == Spliced(I32(a.parent), I32(b.parent), c - 164)
      && raw[168..172] == Spliced(I32(a.size), I32(b.size), c - 168)
      && raw[172..4268] == Spliced(Fit(a.data, MAX_FILE_SIZE), Fit(b.data, MAX_FILE_SIZE), c - 172)
      && raw[4268..] == Spliced(I32(a.used), I32(b.used), c - 4268)
  {
    var x, y := EncodeNode(a), EncodeNode(b);
    DecodeFields(a);
    DecodeFields(b);
    SpliceSlice(x, y, c, 0, 32);
    SpliceSlice(x, y, c, 32, 160);
    SpliceSlice(x, y, c, 160, 164);
    SpliceSlice(x, y, c, 164, 168);
    SpliceSlice(x, y, c, 168, 172);
    SpliceSlice(x, y, c, 172, 4268);
    SpliceSlice(x, y, c, 4268, 4272);
    assert x[..32] == x[0..32] && y[..32] == y[0..32];
    assert x[4268..] == x[4268..4272] && y[4268..] == y[4268..4272];
  }

  /** A cut in the name or the path, or between the path and the numbers: the links and the rest are those of `b`. */
  lemma CutEarly(a: Node, b: Node, c: int)
    requires Shaped(a) && Shaped(b) && 0 < c <= 160
    ensures CutNode(a, b, c) ==
      Node(CutBuf(a.name, b.name, MAX_NAME, c), CutBuf(a.path, b.path, MAX_PATH, c - 32),
           b.kind, b.parent, b.size, b.data, b.used)
  {
    CutBytes(a, b, c);
    NumbersRoundTrip(b);
  }

  /** A cut in the data: name, path and links are those of `a`, but whether the slot is used is up to `b`. */
  lemma CutLate(a: Node, b: Node, c: int)
    requires Shaped(a) && Shaped(b) && 172 <= c <= 4268
    ensures CutNode(a, b, c) == a.(data := Spliced(a.data, b.data, c - 172), used := b.used)
  {
    CutBytes(a, b, c);
    NumbersRoundTrip(a);
    NumbersRoundTrip(b);
    BufRoundTrip(a.name, MAX_NAME);
    BufRoundTrip(a.path, MAX_PATH);
  }

  /** Sectors never cut a number: a cut slot is cut early or late. */
  lemma CutPlaces(k: int, j: int)
    ensures var c := 512 * k - NODE_BYTES * j;
      c <= 0 || c <= 160 || 172 <= c <= 4268 || c >= NODE_BYTES
  {
    var q := 32 * k - 267 * j;
    assert 512 * k - NODE_BYTES * j == 16 * q;
    assert q <= 10 || 11 <= q <= 266 || q >= 267;
  }

  // ------------------------------------------------------------------- tables

  /** Slot by slot: whole slots of `a` before byte `c`, whole slots of `b` after it, and at most one cut slot. */
  function CutTable(a: Table, b: Table, c: int): (t: Table)
    requires |a| == |b|
    ensures |t| == |a|
  {
    CutAll(a, b, c, NODE_BYTES, CutNode)
  }

  function CutAll<T>(a: seq<T>, b: seq<T>, c: int, w: nat, cut: (T, T, int) -> T): (t: seq<T>)
    requires |a| == |b|
    ensures |t| == |a|
  {
    if a == [] then [] else [cut(a[0], b[0], c)] + CutAll(a[1..], b[1..], c - w, w, cut)
  }

  lemma {:induction false} CutAllAt<T>(a: seq<T>, b: seq<T>, c: int, w: nat, cut: (T, T, int) -> T, j: nat)
    requires |a| == |b| && j < |a|
    ensures CutAll(a, b, c, w, cut)[j] == cut(a[j], b[j], c - w * j)
  {
    if j > 0 {
      CutAllAt(a[1..], b[1..], c - w, w, cut, j - 1);
      assert w * j == w + w * (j - 1);
    }
  }

  lemma CutTableAt(a: Table, b: Table, c: int, j: nat)
    requires |a| == |b| && j < |a|
    ensures CutTable(a, b, c)[j] == CutNode(a[j], b[j], c - NODE_BYTES * j)
  {
    CutAllAt(a, b, c, NODE_BYTES, CutNode, j);
  }

  lemma {:induction false} EncodedSize(t: Table)
    ensures |EncodeTable(t)| == NODE_BYTES * |t|
  {
    if t != [] {
      EncodedSize(t[1..]);
      assert EncodeTable(t) == EncodeNode(t[0]) + EncodeTable(t[1..]);
    }
  }

  lemma SpliceHead(x: seq<byte>, x': seq<byte>, y: seq<byte>, y': seq<byte>, c: int)
    requires |x| == |y| && |x'| == |y'|
    ensures Spliced(x + x', y + y', c) == Spliced(x, y, c) + Spliced(x', y', c - |x|)
  {
    var r, s := Spliced(x + x', y + y', c), Spliced(x, y, c) + Spliced(x', y', c - |x|);
    forall k | 0 <= k < |r| ensures r[k] == s[k] {
      SpliceAt(x + x', y + y', c, k);
      if k < |x| {
        SpliceAt(x, y, c, k);
      } else {
        SpliceAt(x', y', c - |x|, k - |x|);
      }
    }
  }

  /** Splicing the images of two tables splices the tables. */
  lemma {:induction false} SplicedTables(a: Table, b: Table, c: int)
    requires |a| == |b|
    ensures |EncodeTable(a)| == |EncodeTable(b)|
    ensures DecodeTable(Spliced(EncodeTable(a), EncodeTable(b), c)) == CutTable(a, b, c)
  {
    EncodedSize(a);
    EncodedSize(b);
    if a != [] {
      SplicedTables(a[1..], b[1..], c - NODE_BYTES);
      assert EncodeTable(a) == EncodeNode(a[0]) + EncodeTable(a[1..]);
      assert EncodeTable(b) == EncodeNode(b[0]) + EncodeTable(b[1..]);
      EncodedSize(a[1..]);
      EncodedSize(b[1..]);
      SpliceHead(EncodeNode(a[0]), EncodeTable(a[1..]), EncodeNode(b[0]), EncodeTable(b[1..]), c);
      DecodeHead(Spliced(EncodeNode(a[0]), EncodeNode(b[0]), c),
                 Spliced(EncodeTable(a[1..]), EncodeTable(b[1..]), c - NODE_BYTES));
    }
  }

  lemma DecodeHead(x: seq<byte>, rest: seq<byte>)
    requires |x| == NODE_BYTES
    ensures DecodeTable(x + rest) == [DecodeNode(x)] + DecodeTable(rest)
  {
    assert (x + rest)[..NODE_BYTES] == x && (x + rest)[NODE_BYTES..] == rest;
  }
}
