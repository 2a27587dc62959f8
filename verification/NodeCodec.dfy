/** The bytes of the node table in memory: what fs_disk_save copies out and fs_disk_load copies in. */
module NodeCodec {
  import opened Bytes
  import opened Paths
  import opened NodeTable

  const TWO32 := 0x1_0000_0000
  const NODE_BYTES := MAX_NAME + MAX_PATH + 4 + 4 + 4 + MAX_FILE_SIZE + 4

  // ---------------------------------------------------------- 32-bit fields

  function LittleEndian(v: nat, n: nat): (b: seq<byte>)
    ensures |b| == n
  {
    if n == 0 then [] else [(v % 256) as byte] + LittleEndian(v / 256, n - 1)
  }

  function FromLittleEndian(b: seq<byte>): nat {
    if b == [] then 0 else b[0] as nat + 256 * FromLittleEndian(b[1..])
  }

  function Pow256(n: nat): (p: nat)
    ensures p >= 1
  {
    if n == 0 then 1 else 256 * Pow256(n - 1)
  }

  lemma {:induction false} LittleEndianRoundTrip(v: nat, n: nat)
    requires v < Pow256(n)
    ensures FromLittleEndian(LittleEndian(v, n)) == v
  {
    if n > 0 {
      LittleEndianRoundTrip(v / 256, n - 1);
      assert LittleEndian(v, n)[1..] == LittleEndian(v / 256, n - 1);
    }
  }

  lemma {:induction false} FromLittleEndianRoundTrip(b: seq<byte>)
    ensures LittleEndian(FromLittleEndian(b), |b|) == b
    ensures FromLittleEndian(b) < Pow256(|b|)
  {
    if b != [] {
      FromLittleEndianRoundTrip(b[1..]);
      var v, r := FromLittleEndian(b), FromLittleEndian(b[1..]);
      assert v / 256 == r && v % 256 == b[0] as int;
      assert b == [b[0]] + b[1..];
    }
  }

  lemma Pow256Of4()
    ensures Pow256(4) == TWO32
  {
    assert Pow256(1) == 256 && Pow256(2) == 0x1_0000 && Pow256(3) == 0x100_0000;
  }

  /** write_u32. */
  function U32(v: int): (b: seq<byte>)
    requires 0 <= v < TWO32
    ensures |b| == 4
  {
    LittleEndian(v, 4)
  }

  /** read_u32. */
  function ReadU32(b: seq<byte>): (v: int)
    requires |b| == 4
  {
    FromLittleEndian(b)
  }

  lemma U32RoundTrip(v: int)
    requires 0 <= v < TWO32
    ensures ReadU32(U32(v)) == v
  {
    Pow256Of4();
    LittleEndianRoundTrip(v, 4);
  }

  lemma ReadU32RoundTrip(b: seq<byte>)
    requires |b| == 4
    ensures 0 <= ReadU32(b) < TWO32 && U32(ReadU32(b)) == b
  {
    Pow256Of4();
    FromLittleEndianRoundTrip(b);
  }

  /** Least significant byte first. */
  lemma U32Bytes(v: int)
    requires 0 <= v < TWO32
    ensures U32(v)[0] as int == v % 0x100 && U32(v)[1] as int == v / 0x100 % 0x100
    ensures U32(v)[2] as int == v / 0x1_0000 % 0x100 && U32(v)[3] as int == v / 0x100_0000
  {
    var w := v / 0x100;
    var x := w / 0x100;
    assert U32(v)[1..] == LittleEndian(w, 3) && LittleEndian(w, 3)[1..] == LittleEndian(x, 2);
    assert LittleEndian(x, 2)[1..] == LittleEndian(x / 0x100, 1);
    assert U32(v)[2] == LittleEndian(x, 2)[0] && U32(v)[3] == LittleEndian(x / 0x100, 1)[0];
  }

  /** A 32-bit field, two's complement when negative. */
  function I32(v: int): (b: seq<byte>)
    ensures |b| == 4
  {
    U32(v % TWO32)
  }

  function ReadI32(b: seq<byte>): (v: int)
    requires |b| == 4
  {
    var u := ReadU32(b);
    if u < 0x8000_0000 then u else u - TWO32
  }

  lemma I32RoundTrip(v: int)
    requires IsInt32(v)
    ensures ReadI32(I32(v)) == v
  {
    var u := v % TWO32;
    assert u == if v < 0 then v + TWO32 else v;
    U32RoundTrip(u);
  }

  lemma ReadI32RoundTrip(b: seq<byte>)
    requires |b| == 4
    ensures I32(ReadI32(b)) == b
  {
    var u := ReadU32(b);
    ReadU32RoundTrip(b);
    assert ReadI32(b) % TWO32 == u;
  }

  // ------------------------------------------------------------ char buffers

  function ReadBuf(raw: seq<byte>): Buf {
    var text := Cut(raw);
    Buf(text, if |text| < |raw| then raw[|text| + 1..] else [])
  }

  lemma BufRoundTrip(b: Buf, cap: nat)
    requires Terminated(b, cap)
    ensures ReadBuf(Fit(RawBytes(b), cap)) == b
  {
    var raw := RawBytes(b);
    assert raw[..|b.text|] == b.text;
    CutIs(raw, |b.text|);
    assert raw[|b.text| + 1..] == b.slack;
  }

  lemma ReadBufRoundTrip(raw: seq<byte>)
    ensures Fit(RawBytes(ReadBuf(raw)), |raw|) == raw
  {
    var n := |Cut(raw)|;
    if n < |raw| {
      assert raw == raw[..n] + [raw[n]] + raw[n + 1..];
    }
  }

  // -------------------------------------------------------------------- nodes

  function EncodeNode(n: Node): (raw: seq<byte>)
    ensures |raw| == NODE_BYTES
  {
    Fit(RawBytes(n.name), MAX_NAME) + Fit(RawBytes(n.path), MAX_PATH)
    + I32(n.kind) + I32(n.parent) + I32(n.size) + Fit(n.data, MAX_FILE_SIZE) + I32(n.used)
  }

  function DecodeNode(raw: seq<byte>): Node
    requires |raw| == NODE_BYTES
  {
    Node(ReadBuf(raw[..32]), ReadBuf(raw[32..160]), ReadI32(raw[160..164]), ReadI32(raw[164..168]),
         ReadU32(raw[168..172]), raw[172..4268], ReadI32(raw[4268..]))
  }

  lemma DecodeFields(n: Node)
    ensures var raw := EncodeNode(n);
      && raw[..32] == Fit(RawBytes(n.name), MAX_NAME) && raw[32..160] == Fit(RawBytes(n.path), MAX_PATH)
      && raw[160..164] == I32(n.kind) && raw[164..168] == I32(n.parent)
      && raw[168..172] == I32(n.size) && raw[172..4268] == Fit(n.data, MAX_FILE_SIZE)
      && raw[4268..] == I32(n.used)
  {
  }

  lemma NumbersRoundTrip(n: Node)
    requires Shaped(n)
    ensures ReadI32(I32(n.kind)) == n.kind && ReadI32(I32(n.parent)) == n.parent
    ensures ReadI32(I32(n.used)) == n.used && ReadU32(I32(n.size)) == n.size
  {
    I32RoundTrip(n.kind);
    I32RoundTrip(n.parent);
    I32RoundTrip(n.used);
    SizeRoundTrip(n.size);
  }

  lemma SizeRoundTrip(x: int)
    requires 0 <= x < TWO32
    ensures ReadU32(I32(x)) == x
  {
    U32RoundTrip(x);
    assert x % TWO32 == x;
  }

  lemma NodeRoundTrip(n: Node)
    requires Shaped(n)
    ensures DecodeNode(EncodeNode(n)) == n
  {
    DecodeFields(n);
    BufRoundTrip(n.name, MAX_NAME);
    BufRoundTrip(n.path, MAX_PATH);
    NumbersRoundTrip(n);
  }

  lemma Pieces(raw: seq<byte>)
    requires |raw| == NODE_BYTES
    ensures raw == raw[..32] + raw[32..160] + raw[160..164] + raw[164..168]
                   + raw[168..172] + raw[172..4268] + raw[4268..]
  {
  }

  lemma RawNumbersRoundTrip(b: seq<byte>)
    requires |b| == 4
    ensures I32(ReadI32(b)) == b && I32(ReadU32(b)) == b
  {
    ReadI32RoundTrip(b);
    ReadU32RoundTrip(b);
    assert ReadU32(b) % TWO32 == ReadU32(b);
  }

  lemma RawFieldsRoundTrip(a: seq<byte>, b: seq<byte>, c: seq<byte>, d: seq<byte>, e: seq<byte>,
                           f: seq<byte>, g: seq<byte>)
    requires |a| == MAX_NAME && |b| == MAX_PATH && |f| == MAX_FILE_SIZE
    requires |c| == |d| == |e| == |g| == 4
    ensures EncodeNode(Node(ReadBuf(a), ReadBuf(b), ReadI32(c), ReadI32(d), ReadU32(e), f, ReadI32(g)))
         == a + b + c + d + e + f + g
  {
    ReadBufRoundTrip(a);
    ReadBufRoundTrip(b);
    RawNumbersRoundTrip(c);
    RawNumbersRoundTrip(d);
    RawNumbersRoundTrip(e);
    RawNumbersRoundTrip(g);
  }

  lemma RawNodeRoundTrip(raw: seq<byte>)
    requires |raw| == NODE_BYTES
    ensures EncodeNode(DecodeNode(raw)) == raw
  {
    RawFieldsRoundTrip(raw[..32], raw[32..160], raw[160..164], raw[164..168],
                       raw[168..172], raw[172..4268], raw[4268..]);
    Pieces(raw);
  }

  // ------------------------------------------------------------------- tables

  function EncodeAll<T>(xs: seq<T>, encode: T -> seq<byte>): seq<byte> {
    if xs == [] then [] else encode(xs[0]) + EncodeAll(xs[1..], encode)
  }

  /** Records of `w` bytes each; a short rest is dropped. */
  function DecodeAll<T>(raw: seq<byte>, w: nat, decode: seq<byte> --> T): seq<T>
    requires w > 0
    requires forall b | |b| == w :: decode.requires(b)
    decreases |raw|
  {
    if |raw| < w then [] else [decode(raw[..w])] + DecodeAll(raw[w..], w, decode)
  }

  lemma {:induction false} RecordsRoundTrip<T>(xs: seq<T>, w: nat, encode: T -> seq<byte>, decode: seq<byte> --> T)
    requires w > 0
    requires forall b | |b| == w :: decode.requires(b)
    requires forall i | 0 <= i < |xs| :: |encode(xs[i])| == w && decode(encode(xs[i])) == xs[i]
    ensures |EncodeAll(xs, encode)| == w * |xs|
    ensures DecodeAll(EncodeAll(xs, encode), w, decode) == xs
  {
    if xs != [] {
      RecordsRoundTrip(xs[1..], w, encode, decode);
      var raw := EncodeAll(xs, encode);
      assert raw[..w] == encode(xs[0]) && raw[w..] == EncodeAll(xs[1..], encode);
    }
  }

  lemma {:induction false} RawRecordsRoundTrip<T>(raw: seq<byte>, count: nat, w: nat, encode: T -> seq<byte>,
                                                  decode: seq<byte> --> T)
    requires w > 0 && |raw| == w * count
    requires forall b | |b| == w :: decode.requires(b) && encode(decode(b)) == b
    ensures |DecodeAll(raw, w, decode)| == count
    ensures EncodeAll(DecodeAll(raw, w, decode), encode) == raw
    decreases count
  {
    if count > 0 {
      var head, tail := raw[..w], raw[w..];
      assert |tail| == w * (count - 1);
      RawRecordsRoundTrip(tail, count - 1, w, encode, decode);
      var xs := DecodeAll(raw, w, decode);
      assert xs[1..] == DecodeAll(tail, w, decode);
      assert raw == head + tail;
    }
  }

  function EncodeTable(t: Table): seq<byte> {
    EncodeAll(t, EncodeNode)
  }

  function DecodeTable(raw: seq<byte>): Table {
    DecodeAll(raw, NODE_BYTES, DecodeNode)
  }

  /** No byte of the table is lost on its way to the raw image and back. */
  lemma TableRoundTrip(t: Table)
    requires forall i | 0 <= i < |t| :: Shaped(t[i])
    ensures |EncodeTable(t)| == NODE_BYTES * |t|
    ensures DecodeTable(EncodeTable(t)) == t
  {
    forall i | 0 <= i < |t| ensures |EncodeNode(t[i])| == NODE_BYTES && DecodeNode(EncodeNode(t[i])) == t[i] {
      NodeRoundTrip(t[i]);
    }
    RecordsRoundTrip(t, NODE_BYTES, EncodeNode, DecodeNode);
  }

  /** Every raw image is the image of the table it decodes to. */
  lemma RawTableRoundTrip(raw: seq<byte>, count: nat)
    requires |raw| == NODE_BYTES * count
    ensures |DecodeTable(raw)| == count && EncodeTable(DecodeTable(raw)) == raw
  {
    forall b: seq<byte> | |b| == NODE_BYTES ensures EncodeNode(DecodeNode(b)) == b {
      RawNodeRoundTrip(b);
    }
    RawRecordsRoundTrip(raw, count, NODE_BYTES, EncodeNode, DecodeNode);
  }
}
