/** What a disk holds after a history of saves, some of them cut short by a refused request. */
module SaveHistory {
  import opened Bytes
  import opened Disk
  import opened DiskImage
  import opened NodeCodec

  /** Images of tables of one size. */
  predicate AreImages(raws: seq<seq<byte>>, n: nat) {
    n < TWO32 && forall i | 0 <= i < |raws| :: |raws[i]| == n
  }

  /** Which save each sector of the image comes from, counted from 1; 0 is from before. Later sectors are never newer. */
  predicate AreVersions(v: seq<nat>, saves: nat, n: nat) {
    && |v| == 1 + DataSectors(n)
    && (forall i | 0 <= i < |v| :: v[i] <= saves)
    && (forall i, j | 0 <= i <= j < |v| :: v[j] <= v[i])
  }

  /** Sector `lba` in those versions. */
  function VersionAt(before: Medium, raws: seq<seq<byte>>, n: nat, v: seq<nat>, lba: nat): Sector
    requires AreImages(raws, n) && AreVersions(v, |raws|, n)
  {
    if START_LBA <= lba < START_LBA + |v| && v[lba - START_LBA] > 0
    then SectorOf(raws[v[lba - START_LBA] - 1], lba - START_LBA)
    else SectorAt(before, lba)
  }

  ghost predicate HoldsVersions(m: Medium, before: Medium, raws: seq<seq<byte>>, n: nat, v: seq<nat>) {
    && AreImages(raws, n) && AreVersions(v, |raws|, n)
    && forall lba: nat :: SectorAt(m, lba) == VersionAt(before, raws, n, v, lba)
  }

  /** The disk after saves of `raws`, in this order: each sector in some version, never rising along the disk. */
  ghost predicate Layered(m: Medium, before: Medium, raws: seq<seq<byte>>, n: nat) {
    exists v: seq<nat> :: HoldsVersions(m, before, raws, n, v)
  }

  lemma NoSaves(m: Medium, n: nat)
    requires n < TWO32
    ensures Layered(m, m, [], n)
  {
    var v: seq<nat> := seq(1 + DataSectors(n), _ => 0);
    assert HoldsVersions(m, m, [], n, v);
  }

  lemma SavedSectorAt(before: Medium, raw: seq<byte>, k: nat, lba: nat)
    requires |raw| < TWO32 && k <= |Image(raw)|
    ensures SectorAt(Written(before, Image(raw), k), lba) ==
      if START_LBA <= lba < START_LBA + k then SectorOf(raw, lba - START_LBA) else SectorAt(before, lba)
  {
    WrittenAt(before, Image(raw), k, lba);
    if START_LBA <= lba < START_LBA + k {
      ImageSector(raw, DataSectors(|raw|), lba - START_LBA);
    }
  }

  /** One save, finished or not: the sectors it reached are new. */
  lemma OneSave(before: Medium, raw: seq<byte>, k: nat)
    requires |raw| < TWO32 && k <= |Image(raw)|
    ensures Layered(Written(before, Image(raw), k), before, [raw], |raw|)
  {
    var n, m := |raw|, Written(before, Image(raw), k);
    var v: seq<nat> := seq(1 + DataSectors(n), i => if i < k then 1 else 0);
    forall lba: nat ensures SectorAt(m, lba) == VersionAt(before, [raw], n, v, lba) {
      SavedSectorAt(before, raw, k, lba);
    }
    assert HoldsVersions(m, before, [raw], n, v);
  }

  /** The versions after `a` saves and then more. */
  function Later(a: nat, v: seq<nat>, w: seq<nat>): (r: seq<nat>)
    requires |v| == |w|
    ensures |r| == |v|
  {
    seq(|v|, i requires 0 <= i < |v| => if w[i] > 0 then a + w[i] else v[i])
  }

  lemma LaterAreVersions(a: nat, b: nat, n: nat, v: seq<nat>, w: seq<nat>)
    requires AreVersions(v, a, n) && AreVersions(w, b, n)
    ensures AreVersions(Later(a, v, w), a + b, n)
  {
    var r := Later(a, v, w);
    forall i, j | 0 <= i <= j < |r| ensures r[j] <= r[i] {
      assert w[j] <= w[i] && v[j] <= v[i] && v[j] <= a;
    }
  }

  lemma VersionsJoin(m: Medium, mid: Medium, before: Medium, a: seq<seq<byte>>, b: seq<seq<byte>>, n: nat,
                     v: seq<nat>, w: seq<nat>)
    requires HoldsVersions(mid, before, a, n, v) && HoldsVersions(m, mid, b, n, w)
    ensures HoldsVersions(m, before, a + b, n, Later(|a|, v, w))
  {
    LaterAreVersions(|a|, |b|, n, v, w);
    forall lba: nat ensures SectorAt(m, lba) == VersionAt(before, a + b, n, Later(|a|, v, w), lba) {
      assert SectorAt(m, lba) == VersionAt(mid, b, n, w, lba);
      assert SectorAt(mid, lba) == VersionAt(before, a, n, v, lba);
    }
  }

  /** Saves of `a`, and after them saves of `b`. */
  lemma SavesJoin(m: Medium, mid: Medium, before: Medium, a: seq<seq<byte>>, b: seq<seq<byte>>, n: nat)
    requires Layered(mid, before, a, n) && Layered(m, mid, b, n)
    ensures Layered(m, before, a + b, n)
  {
    var v: seq<nat> :| HoldsVersions(mid, before, a, n, v);
    var w: seq<nat> :| HoldsVersions(m, mid, b, n, w);
    VersionsJoin(m, mid, before, a, b, n, v, w);
  }

  /** Byte by byte: a load reads each byte from the save that its sector comes from. */
  lemma VersionByte(m: Medium, before: Medium, raws: seq<seq<byte>>, n: nat, v: seq<nat>, j: nat)
    requires HoldsVersions(m, before, raws, n, v) && j < n
    ensures var s := 1 + j / SECTOR_BYTES;
      s < |v| && DiskByte(m, j) == if v[s] > 0 then raws[v[s] - 1][j] else DiskByte(before, j)
  {
    var s := 1 + j / SECTOR_BYTES;
    assert j / SECTOR_BYTES < DataSectors(n);
    assert SectorAt(m, START_LBA + s) == VersionAt(before, raws, n, v, START_LBA + s);
    if v[s] > 0 {
      var raw := raws[v[s] - 1];
      ChunkByte(raw, j);
      UnpackPack(Chunk(raw, s - 1));
    }
  }
}
