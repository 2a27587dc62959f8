/** What tree a reboot finds after a save that was cut short. */
module Crash {
  import opened Bytes
  import opened Paths
  import opened NodeTable
  import opened TreeInvariant
  import opened PathMap
  import opened NodeCodec
  import opened Disk
  import opened DiskImage
  import opened Splice

  // --------------------------------------------------------------- the disk

  /** The table on disk after the header and `k` data sectors of `after` went over a complete save of `before`. */
  function Torn(after: Table, before: Table, k: nat): (t: Table)
    requires |after| == |before|
    ensures |t| == |after|
  {
    CutTable(after, before, SECTOR_BYTES * k)
  }

  /** The disk then holds exactly that table. */
  lemma TornDisk(m: Medium, after: Table, before: Table, k: nat)
    requires |after| == |before| == MAX_FILES && Holds(m, EncodeTable(before))
    requires |EncodeTable(after)| < TWO32 && k <= DataSectors(|EncodeTable(after)|)
    ensures Holds(Written(m, Image(EncodeTable(after)), k + 1), EncodeTable(Torn(after, before, k)))
  {
    var raw, saved := EncodeTable(after), EncodeTable(before);
    var m' := Written(m, Image(raw), k + 1);
    SplicedTables(after, before, SECTOR_BYTES * k);
    EncodedSize(after);
    var torn := Spliced(raw, saved, SECTOR_BYTES * k);
    RawTableRoundTrip(torn, MAX_FILES);
    SavedHeader(m, raw, k + 1);
    forall j | 0 <= j < |torn| ensures DiskByte(m', j) == torn[j] {
      InterruptedSave(m, raw, k, j);
      SpliceAt(raw, saved, SECTOR_BYTES * k, j);
    }
  }

  /** Two shaped tables that one disk holds are the same. */
  lemma HeldOnce(m: Medium, a: Table, b: Table)
    requires AllShaped(a) && |b| == MAX_FILES && DecodeTable(EncodeTable(b)) == b
    requires Holds(m, EncodeTable(a)) && Holds(m, EncodeTable(b))
    ensures a == b
  {
    EncodedSize(a);
    EncodedSize(b);
    assert EncodeTable(a) == EncodeTable(b);
    TableRoundTrip(a);
  }

  /** The disk holds a tree exactly when the torn table is one. */
  lemma TornIsTree(m: Medium, after: Table, before: Table, k: nat)
    requires |after| == |before| == MAX_FILES && Holds(m, EncodeTable(before))
    requires |EncodeTable(after)| < TWO32 && k <= DataSectors(|EncodeTable(after)|)
    ensures var m' := Written(m, Image(EncodeTable(after)), k + 1);
      (exists t: Table :: WellFormed(t) && Holds(m', EncodeTable(t))) <==> WellFormed(Torn(after, before, k))
  {
    var m', u := Written(m, Image(EncodeTable(after)), k + 1), Torn(after, before, k);
    TornDisk(m, after, before, k);
    SplicedTables(after, before, SECTOR_BYTES * k);
    EncodedSize(after);
    RawTableRoundTrip(Spliced(EncodeTable(after), EncodeTable(before), SECTOR_BYTES * k), MAX_FILES);
    forall t: Table | WellFormed(t) && Holds(m', EncodeTable(t)) ensures t == u {
      HeldOnce(m', t, u);
    }
  }

  // ---------------------------------------------------- one slot has changed

  lemma SplicedSame(x: seq<byte>, c: int)
    ensures Spliced(x, x, c) == x
  {
  }

  lemma CutSame(n: Node, c: int)
    requires Shaped(n)
    ensures CutNode(n, n, c) == n
  {
    SplicedSame(EncodeNode(n), c);
    NodeRoundTrip(n);
  }

  lemma OneSlotAt(t: Table, i: nat, n: Node, c: int, j: nat)
    requires AllShaped(t) && i < |t| && j < |t|
    ensures CutTable(t[i := n], t, c)[j] == if j == i then CutNode(n, t[i], c - NODE_BYTES * i) else t[j]
  {
    var a := t[i := n];
    CutTableAt(a, t, c, j);
    if j == i {
      assert a[j] == n;
    } else {
      assert a[j] == t[j];
      CutSame(t[j], c - NODE_BYTES * j);
    }
  }

  /** When the two tables differ in one slot, so do the torn table and the old one. */
  lemma OneSlotTorn(t: Table, i: nat, n: Node, k: nat)
    requires AllShaped(t) && i < |t|
    ensures Torn(t[i := n], t, k) == t[i := CutNode(n, t[i], SECTOR_BYTES * k - NODE_BYTES * i)]
  {
    var c := SECTOR_BYTES * k;
    var u, v := CutTable(t[i := n], t, c), t[i := CutNode(n, t[i], c - NODE_BYTES * i)];
    forall j | 0 <= j < |t| ensures u[j] == v[j] {
      OneSlotAt(t, i, n, c, j);
    }
  }

  lemma CutSameBuf(b: Buf, cap: nat, c: int)
    requires Terminated(b, cap)
    ensures CutBuf(b, b, cap, c) == b
  {
    SplicedSame(Fit(RawBytes(b), cap), c);
    BufRoundTrip(b, cap);
  }

  /** A slot whose name and path stay: all old, all new, or new links over data cut somewhere. */
  lemma CutInPlace(a: Node, b: Node, k: nat, i: nat)
    requires Shaped(a) && Shaped(b) && a.name == b.name && a.path == b.path
    ensures var u := CutNode(a, b, SECTOR_BYTES * k - NODE_BYTES * i);
      u == a || u == b || exists x :: u == a.(data := Spliced(a.data, b.data, x), used := b.used)
  {
    var c := SECTOR_BYTES * k - NODE_BYTES * i;
    CutPlaces(k, i);
    CutWhole(a, b, c);
    if 0 < c <= 160 {
      CutEarly(a, b, c);
      CutSameBuf(a.name, MAX_NAME, c);
      CutSameBuf(a.path, MAX_PATH, c - 32);
      assert CutNode(a, b, c) == b.(kind := b.kind);
    } else if 172 <= c <= 4268 {
      CutLate(a, b, c);
    }
  }

  /** fs_delete is atomic: a reboot finds the file there, or gone. */
  lemma DeleteTorn(t: Table, p: Text, k: nat)
    requires WellFormed(t)
    ensures Torn(Delete(t, p).table, t, k) == t || Torn(Delete(t, p).table, t, k) == Delete(t, p).table
  {
    var i, r := Find(t, p), Delete(t, p);
    if r.rc == 0 {
      var n := t[i].(used := 0);
      OneSlotTorn(t, i, n, k);
      CutInPlace(n, t[i], k, i);
      SplicedSameData(n.data);
    } else {
      FindUnique(t, 0);
      OneSlotTorn(t, 0, t[0], k);
      CutSame(t[0], SECTOR_BYTES * k);
    }
  }

  lemma SplicedSameData(d: seq<byte>)
    ensures forall x :: Spliced(d, d, x) == d
  {
  }

  // ------------------------------------------------------- writes and appends

  /** A file is as it was, or has its new length, new bytes up to some point and what its buffer held after it. */
  ghost predicate TornFile(m: Tree, p: Text, buffer: seq<byte>, whole: seq<byte>, r: Tree)
    requires |whole| <= |buffer|
  {
    r == m || exists x: nat :: x <= |whole| && r == m[p := File(whole[..x] + buffer[x..|whole|])]
  }

  lemma TornContent(buffer: seq<byte>, at: nat, bytes: seq<byte>, x: int) returns (y: nat)
    requires at + |bytes| <= |buffer|
    ensures var whole, now := buffer[..at] + bytes, buffer[..at] + bytes + buffer[at + |bytes|..];
      y <= |whole| && Spliced(now, buffer, x)[..|whole|] == whole[..y] + buffer[y..|whole|]
  {
    var whole, now := buffer[..at] + bytes, buffer[..at] + bytes + buffer[at + |bytes|..];
    y := Max(0, Min(x, |whole|));
    forall j | 0 <= j < |whole| ensures Spliced(now, buffer, x)[j] == (whole[..y] + buffer[y..|whole|])[j] {
      SpliceAt(now, buffer, x, j);
    }
  }

  /** A cut slot of which only data and size change. */
  lemma CutFilled(a: Node, b: Node, k: nat, i: nat) returns (x: int)
    requires Shaped(a) && Shaped(b) && a.name == b.name && a.path == b.path && a.used == b.used
    ensures var v := CutNode(a, b, SECTOR_BYTES * k - NODE_BYTES * i);
      v == b || v == a.(data := Spliced(a.data, b.data, x))
  {
    var v := CutNode(a, b, SECTOR_BYTES * k - NODE_BYTES * i);
    CutInPlace(a, b, k, i);
    if v == a || v == b {
      x := |a.data|;
    } else {
      x :| v == a.(data := Spliced(a.data, b.data, x), used := b.used);
    }
  }

  lemma OverwriteTorn(t: Table, i: nat, at: nat, bytes: seq<byte>, k: nat)
    requires WellFormed(t) && 1 <= i < |t| && Used(t[i]) && t[i].kind == FILE && at + |bytes| <= MAX_FILE_SIZE
    ensures var u := Torn(t[i := Overwrite(t[i], at, bytes)], t, k);
      && WellFormed(u)
      && TornFile(Abs(t), t[i].path.text, t[i].data, t[i].data[..at] + bytes, Abs(u))
  {
    var n := Overwrite(t[i], at, bytes);
    OneSlotTorn(t, i, n, k);
    var x := CutFilled(n, t[i], k, i);
    if CutNode(n, t[i], SECTOR_BYTES * k - NODE_BYTES * i) == t[i] {
      assert Torn(t[i := n], t, k) == t;
    } else {
      FilledTorn(t, i, at, bytes, x);
    }
  }

  lemma FilledTorn(t: Table, i: nat, at: nat, bytes: seq<byte>, x: int)
    requires WellFormed(t) && 1 <= i < |t| && Used(t[i]) && t[i].kind == FILE && at + |bytes| <= MAX_FILE_SIZE
    ensures var n := Overwrite(t[i], at, bytes);
      var u := t[i := n.(data := Spliced(n.data, t[i].data, x))];
      WellFormed(u) && TornFile(Abs(t), t[i].path.text, t[i].data, t[i].data[..at] + bytes, Abs(u))
  {
    var n, whole := Overwrite(t[i], at, bytes), t[i].data[..at] + bytes;
    var v := n.(data := Spliced(n.data, t[i].data, x));
    var y := TornContent(t[i].data, at, bytes, x);
    OverwriteKeepsTree(t, i, v);
    ReplaceSlot(t, i, v, Abs(t)[t[i].path.text := File(whole[..y] + t[i].data[y..|whole|])]);
  }

  /** fs_write_file and fs_append_file: a reboot finds the same tree but for that file's bytes. */
  lemma WriteTorn(t: Table, p: Text, bytes: seq<byte>, k: nat)
    requires WellFormed(t) && Write(t, p, bytes).rc == 0
    ensures var u := Torn(Write(t, p, bytes).table, t, k);
      WellFormed(u) && TornFile(Abs(t), p, t[Find(t, p)].data, bytes, Abs(u))
  {
    var i := Find(t, p);
    FindUnique(t, 0);
    OverwriteTorn(t, i, 0, bytes, k);
    assert t[i].data[..0] + bytes == bytes;
  }

  /** The same tree, but for a longer file. */
  predicate Lengthened(m: Tree, p: Text, r: Tree) {
    && r.Keys == m.Keys && p in m && m[p].File? && r[p].File? && m[p].content <= r[p].content
    && forall q | q in m && q != p :: r[q] == m[q]
  }

  lemma TornAppend(m: Tree, p: Text, buffer: seq<byte>, at: nat, bytes: seq<byte>, r: Tree)
    requires at + |bytes| <= |buffer| && TornFile(m, p, buffer, buffer[..at] + bytes, r)
    requires p in m && m[p] == File(buffer[..at])
    ensures Lengthened(m, p, r)
  {
  }

  /** An append keeps what the file held. */
  lemma AppendTorn(t: Table, p: Text, bytes: seq<byte>, k: nat)
    requires WellFormed(t) && Append(t, p, bytes).rc == 0
    ensures var u := Torn(Append(t, p, bytes).table, t, k);
      WellFormed(u) && Lengthened(Abs(t), p, Abs(u))
  {
    var i, u := Find(t, p), Torn(Append(t, p, bytes).table, t, k);
    FindUnique(t, 0);
    AbsFind(t, p);
    OverwriteTorn(t, i, t[i].size, bytes, k);
    assert Append(t, p, bytes).table == t[i := Overwrite(t[i], t[i].size, bytes)];
    TornAppend(Abs(t), p, t[i].data, t[i].size, bytes, Abs(u));
  }

  // ------------------------------------------------------------------ creates

  lemma CutBufShaped(a: Buf, b: Buf, cap: nat, c: int)
    requires cap > 0 && Terminated(a, cap) && Terminated(b, cap)
    requires c >= cap || RawBytes(b)[cap - 1] == NUL
    ensures Terminated(CutBuf(a, b, cap, c), cap)
  {
    var raw := Spliced(Fit(RawBytes(a), cap), Fit(RawBytes(b), cap), c);
    if c >= cap {
      BufRoundTrip(a, cap);
    } else {
      SpliceAt(RawBytes(a), RawBytes(b), c, cap - 1);
      assert raw[cap - 1] == NUL;
    }
  }

  lemma CutFreeEarly(a: Node, b: Node, c: int)
    requires Shaped(a) && Shaped(b) && Sealed(b) && 0 < c <= 160
    ensures Shaped(CutNode(a, b, c)) && CutNode(a, b, c).used == b.used
  {
    CutEarly(a, b, c);
    CutBufShaped(a.name, b.name, MAX_NAME, c);
    CutBufShaped(a.path, b.path, MAX_PATH, c - 32);
  }

  /** A cut slot that was free stays free. */
  lemma CutFree(a: Node, b: Node, k: nat, i: nat)
    requires Shaped(a) && Shaped(b) && Sealed(b) && !Used(b)
    ensures var u := CutNode(a, b, SECTOR_BYTES * k - NODE_BYTES * i);
      u == a || (Shaped(u) && !Used(u))
  {
    var c := SECTOR_BYTES * k - NODE_BYTES * i;
    CutPlaces(k, i);
    CutWhole(a, b, c);
    if 0 < c <= 160 {
      CutFreeEarly(a, b, c);
    } else if 172 <= c <= 4268 {
      CutLate(a, b, c);
    }
  }

  /** What a free slot holds does not matter. */
  lemma FreeSlot(t: Table, i: nat, n: Node)
    requires WellFormed(t) && 1 <= i < |t| && !Used(t[i]) && Shaped(n) && !Used(n)
    ensures WellFormed(t[i := n]) && Abs(t[i := n]) == Abs(t)
  {
    var u := t[i := n];
    forall j | 1 <= j < |u| && Used(u[j]) ensures LinkOk(u, j) && ContentOk(u[j]) {
      LinkTransfers(t, u, j);
    }
    forall j | 0 <= j < |u| && Used(u[j])
      ensures u[j].path.text in Abs(t) && Abs(t)[u[j].path.text] == EntryOf(u[j])
    {
      AbsAt(t, j);
    }
    forall p | p in Abs(t) ensures Find(u, p) >= 0 {
      AbsFind(t, p);
      assert Used(u[Find(t, p)]);
    }
    AbsIs(u, Abs(t));
  }

  /** fs_create_file and fs_create_dir are atomic: a reboot finds the tree before or after. */
  lemma CreateTorn(t: Table, p: Text, kind: int, k: nat)
    requires WellFormed(t) && IsLookupPath(p) && (kind == FILE || kind == DIR)
    requires Create(t, p, kind).rc == 0 && Sealed(t[Allocate(t)])
    ensures var u := Torn(Create(t, p, kind).table, t, k);
      WellFormed(u) && (Abs(u) == Abs(t) || Abs(u) == Abs(Create(t, p, kind).table))
  {
    var i, made := Allocate(t), Create(t, p, kind).table;
    CreateKeepsTree(t, p, kind);
    OneSlotTorn(t, i, made[i], k);
    CutFree(made[i], t[i], k, i);
    var v := CutNode(made[i], t[i], SECTOR_BYTES * k - NODE_BYTES * i);
    if v == made[i] {
      assert t[i := v] == made;
    } else {
      FreeSlot(t, i, v);
    }
  }
}
