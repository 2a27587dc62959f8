/** The on-disk image: a header sector, then the raw table in 512-byte chunks. */
module DiskImage {
  import opened Bytes
  import opened NodeTable
  import opened NodeCodec
  import opened Disk

  const START_LBA := 2048
  const VERSION := 1
  const MAGIC: seq<byte> := Ascii("PLDOSFS1")

  function DataSectors(n: nat): nat {
    (n + SECTOR_BYTES - 1) / SECTOR_BYTES
  }

  function HeaderFields(n: nat): (b: seq<byte>)
    requires n < TWO32
    ensures |b| == 24
  {
    MAGIC + U32(VERSION) + U32(n) + U32(MAX_FILES) + U32(MAX_FILE_SIZE)
  }

  function Header(n: nat): (b: seq<byte>)
    requires n < TWO32
    ensures |b| == SECTOR_BYTES
  {
    HeaderFields(n) + Zeros(SECTOR_BYTES - 24)
  }

  /** The checks fs_disk_load makes on the first sector, for a table of `n` bytes. */
  predicate HeaderOk(b: seq<byte>, n: nat)
    requires |b| == SECTOR_BYTES
  {
    && b[..8] == MAGIC
    && ReadU32(b[8..12]) == VERSION && ReadU32(b[12..16]) == n
    && ReadU32(b[16..20]) == MAX_FILES && ReadU32(b[20..24]) == MAX_FILE_SIZE
  }

  lemma HeaderIsOk(n: nat)
    requires n < TWO32
    ensures HeaderOk(Header(n), n)
  {
    var b := Header(n);
    assert b[..8] == MAGIC && b[8..12] == U32(VERSION) && b[12..16] == U32(n);
    assert b[16..20] == U32(MAX_FILES) && b[20..24] == U32(MAX_FILE_SIZE);
    U32RoundTrip(n);
    U32RoundTrip(VERSION);
    U32RoundTrip(MAX_FILES);
    U32RoundTrip(MAX_FILE_SIZE);
  }

  /** The header, byte by byte: the eight letters, the version, the size of the table, and the two limits. */
  lemma HeaderBytes(n: nat)
    requires n < TWO32
    ensures var b := Header(n);
      && b[0] == 80 && b[1] == 76 && b[2] == 68 && b[3] == 79 && b[4] == 83 && b[5] == 70 && b[6] == 83 && b[7] == 49
      && b[8..12] == [1, 0, 0, 0] && ReadU32(b[12..16]) == n && b[16..20] == [128, 0, 0, 0] && b[20..24] == [0, 16, 0, 0]
      && forall i | 24 <= i < SECTOR_BYTES :: b[i] == NUL
  {
    var b := Header(n);
    assert |MAGIC| == 8;
    assert b[..8] == MAGIC && b[8..12] == U32(VERSION) && b[12..16] == U32(n);
    assert b[16..20] == U32(MAX_FILES) && b[20..24] == U32(MAX_FILE_SIZE);
    U32RoundTrip(n);
    U32Bytes(VERSION);
    U32Bytes(MAX_FILES);
    U32Bytes(MAX_FILE_SIZE);
  }

  /** The load accepts exactly the headers that a save of a table of the same size writes. */
  lemma HeaderOkIff(b: seq<byte>, n: nat)
    requires |b| == SECTOR_BYTES && n < TWO32
    ensures HeaderOk(b, n) <==> b[..24] == HeaderFields(n)
  {
    var f := HeaderFields(n);
    assert f[..8] == MAGIC && f[8..12] == U32(VERSION) && f[12..16] == U32(n);
    assert f[16..20] == U32(MAX_FILES) && f[20..24] == U32(MAX_FILE_SIZE);
    assert b[..24] == b[..8] + b[8..12] + b[12..16] + b[16..20] + b[20..24];
    if HeaderOk(b, n) {
      ReadU32RoundTrip(b[8..12]);
      ReadU32RoundTrip(b[12..16]);
      ReadU32RoundTrip(b[16..20]);
      ReadU32RoundTrip(b[20..24]);
    }
    if b[..24] == f {
      HeaderFieldsOk(b, n);
    }
  }

  lemma HeaderFieldsOk(b: seq<byte>, n: nat)
    requires |b| == SECTOR_BYTES && n < TWO32 && b[..24] == HeaderFields(n)
    ensures HeaderOk(b, n)
  {
    assert b[..8] == b[..24][..8] == MAGIC && b[8..12] == b[..24][8..12] == U32(VERSION);
    assert b[12..16] == b[..24][12..16] == U32(n) && b[16..20] == b[..24][16..20] == U32(MAX_FILES);
    assert b[20..24] == b[..24][20..24] == U32(MAX_FILE_SIZE);
    U32RoundTrip(n);
    U32RoundTrip(VERSION);
    U32RoundTrip(MAX_FILES);
    U32RoundTrip(MAX_FILE_SIZE);
  }

  /** A disk that was never written has no header. */
  lemma NewDiskHasNoHeader(n: nat)
    ensures !HeaderOnDisk(map[], n)
  {
    var b := Unpack(Blank(SECTOR_WORDS));
    UnpackAt(Blank(SECTOR_WORDS), 0);
    assert b[0] == 0 && MAGIC[0] == 80;
    assert b[..8][0] == b[0];
  }

  /** The s-th sector of data; the last one is padded with zeros. */
  function Chunk(raw: seq<byte>, s: nat): (b: seq<byte>)
    requires s < DataSectors(|raw|)
    ensures |b| == SECTOR_BYTES
  {
    Fit(raw[SECTOR_BYTES * s..Min(SECTOR_BYTES * s + SECTOR_BYTES, |raw|)], SECTOR_BYTES)
  }

  /** The s-th sector of an image: the header, then the data. */
  function SectorOf(raw: seq<byte>, s: nat): Sector
    requires |raw| < TWO32 && s <= DataSectors(|raw|)
  {
    if s == 0 then Pack(Header(|raw|)) else Pack(Chunk(raw, s - 1))
  }

  /** The header, then the first `k` data sectors. */
  function ImageUpTo(raw: seq<byte>, k: nat): (img: seq<Sector>)
    requires |raw| < TWO32 && k <= DataSectors(|raw|)
    ensures |img| == 1 + k
  {
    (if k == 0 then [] else ImageUpTo(raw, k - 1)) + [SectorOf(raw, k)]
  }

  /** What a save writes from START_LBA on. */
  function Image(raw: seq<byte>): (img: seq<Sector>)
    requires |raw| < TWO32
    ensures |img| == 1 + DataSectors(|raw|)
  {
    ImageUpTo(raw, DataSectors(|raw|))
  }

  /** The medium once the first `k` sectors of an image are written. */
  function Written(m: Medium, img: seq<Sector>, k: nat): Medium
    requires k <= |img|
  {
    if k == 0 then m else Written(m, img, k - 1)[START_LBA + k - 1 := img[k - 1]]
  }

  /** Byte `j` of the image as the driver reads it. */
  function DiskByte(m: Medium, j: nat): byte {
    Unpack(SectorAt(m, START_LBA + 1 + j / SECTOR_BYTES))[j % SECTOR_BYTES]
  }

  /** `now` is the memory `before`, once the first `k` data sectors are copied over it. */
  predicate Loaded(m: Medium, before: seq<byte>, k: nat, now: seq<byte>) {
    |now| == |before|
    && forall j | 0 <= j < |now| :: now[j] == if j < SECTOR_BYTES * k then DiskByte(m, j) else before[j]
  }

  predicate HeaderOnDisk(m: Medium, n: nat) {
    HeaderOk(Unpack(SectorAt(m, START_LBA)), n)
  }

  /** The medium holds exactly this raw table. */
  predicate Holds(m: Medium, raw: seq<byte>) {
    HeaderOnDisk(m, |raw|) && forall j | 0 <= j < |raw| :: DiskByte(m, j) == raw[j]
  }

  // ------------------------------------------------------------------- lemmas

  /** Which sectors a save interrupted after `k` sectors has changed. */
  lemma {:induction false} WrittenAt(m: Medium, img: seq<Sector>, k: nat, lba: nat)
    requires k <= |img|
    ensures SectorAt(Written(m, img, k), lba) ==
      if START_LBA <= lba < START_LBA + k then img[lba - START_LBA] else SectorAt(m, lba)
  {
    if k > 0 {
      WrittenAt(m, img, k - 1, lba);
    }
  }

  lemma ChunkByte(raw: seq<byte>, j: nat)
    requires j < |raw|
    ensures j / SECTOR_BYTES < DataSectors(|raw|)
    ensures Chunk(raw, j / SECTOR_BYTES)[j % SECTOR_BYTES] == raw[j]
  {
    var s := j / SECTOR_BYTES;
    var piece := raw[SECTOR_BYTES * s..Min(SECTOR_BYTES * s + SECTOR_BYTES, |raw|)];
    assert piece[j % SECTOR_BYTES] == raw[j];
  }

  lemma {:induction false} ImageSector(raw: seq<byte>, k: nat, s: nat)
    requires |raw| < TWO32 && s <= k <= DataSectors(|raw|)
    ensures ImageUpTo(raw, k)[s] == SectorOf(raw, s)
  {
    if s < k {
      ImageSector(raw, k - 1, s);
    }
  }

  lemma SavedSector(m: Medium, raw: seq<byte>, k: nat, s: nat)
    requires |raw| < TWO32 && k <= DataSectors(|raw|) && s < DataSectors(|raw|)
    ensures SectorAt(Written(m, Image(raw), k + 1), START_LBA + 1 + s) ==
      if s < k then Pack(Chunk(raw, s)) else SectorAt(m, START_LBA + 1 + s)
  {
    WrittenAt(m, Image(raw), k + 1, START_LBA + 1 + s);
    ImageSector(raw, DataSectors(|raw|), s + 1);
  }

  /** A sector read back after an interrupted save. */
  lemma InterruptedSector(m: Medium, raw: seq<byte>, k: nat, s: nat)
    requires |raw| < TWO32 && k <= DataSectors(|raw|) && s < DataSectors(|raw|)
    ensures Unpack(SectorAt(Written(m, Image(raw), k + 1), START_LBA + 1 + s)) ==
      if s < k then Chunk(raw, s) else Unpack(SectorAt(m, START_LBA + 1 + s))
  {
    SavedSector(m, raw, k, s);
    UnpackPack(Chunk(raw, s));
  }

  lemma BeforeSector(j: nat, k: nat)
    ensures j < SECTOR_BYTES * k <==> j / SECTOR_BYTES < k
  {
  }

  /** An interrupted save leaves the new table before the failing sector and the old image after it. */
  lemma InterruptedSave(m: Medium, raw: seq<byte>, k: nat, j: nat)
    requires |raw| < TWO32 && k <= DataSectors(|raw|) && j < |raw|
    ensures DiskByte(Written(m, Image(raw), k + 1), j) ==
      if j < SECTOR_BYTES * k then raw[j] else DiskByte(m, j)
  {
    BeforeSector(j, k);
    ChunkByte(raw, j);
    InterruptedSector(m, raw, k, j / SECTOR_BYTES);
  }

  lemma SavedHeader(m: Medium, raw: seq<byte>, k: nat)
    requires |raw| < TWO32 && 1 <= k <= |Image(raw)|
    ensures HeaderOnDisk(Written(m, Image(raw), k), |raw|)
  {
    WrittenAt(m, Image(raw), k, START_LBA);
    UnpackPack(Header(|raw|));
    HeaderIsOk(|raw|);
    ImageSector(raw, DataSectors(|raw|), 0);
  }

  /** A complete save holds the table, whatever its length and whatever was there before. */
  lemma SaveHolds(m: Medium, raw: seq<byte>)
    requires |raw| < TWO32
    ensures Holds(Written(m, Image(raw), |Image(raw)|), raw)
  {
    var m' := Written(m, Image(raw), |Image(raw)|);
    SavedHeader(m, raw, |Image(raw)|);
    forall j | 0 <= j < |raw| ensures DiskByte(m', j) == raw[j] {
      InterruptedSave(m, raw, DataSectors(|raw|), j);
    }
  }

  /** Loading from a medium that holds a table restores every byte of it. */
  lemma LoadRestores(m: Medium, raw: seq<byte>, before: seq<byte>)
    requires Holds(m, raw) && |before| == |raw|
    ensures Loaded(m, before, DataSectors(|raw|), raw)
    ensures forall now | Loaded(m, before, DataSectors(|raw|), now) :: now == raw
  {
  }

  /** After a complete load memory is what the disk holds, whatever that is. */
  lemma LoadedHolds(m: Medium, before: seq<byte>, now: seq<byte>)
    requires HeaderOnDisk(m, |before|) && Loaded(m, before, DataSectors(|before|), now)
    ensures Holds(m, now)
  {
  }

  /** Save then load is the identity on the raw table. */
  lemma SaveThenLoad(m: Medium, raw: seq<byte>, before: seq<byte>)
    requires |raw| < TWO32 && |before| == |raw|
    ensures var m' := Written(m, Image(raw), |Image(raw)|);
      HeaderOnDisk(m', |raw|)
      && forall now | Loaded(m', before, DataSectors(|raw|), now) :: now == raw
  {
    SaveHolds(m, raw);
    LoadRestores(Written(m, Image(raw), |Image(raw)|), raw, before);
  }

  /** A save stopped after `k` data sectors, then a load: the new table up to there, the last saved one after it. */
  lemma CrashThenLoad(m: Medium, saved: seq<byte>, raw: seq<byte>, k: nat, before: seq<byte>, now: seq<byte>)
    requires Holds(m, saved) && |saved| == |raw| == |before| < TWO32 && k <= DataSectors(|raw|)
    requires Loaded(Written(m, Image(raw), k + 1), before, DataSectors(|raw|), now)
    ensures HeaderOnDisk(Written(m, Image(raw), k + 1), |raw|)
    ensures var cut := Min(SECTOR_BYTES * k, |raw|); now == raw[..cut] + saved[cut..]
  {
    SavedHeader(m, raw, k + 1);
    var cut := Min(SECTOR_BYTES * k, |raw|);
    forall j | 0 <= j < |raw| ensures now[j] == (raw[..cut] + saved[cut..])[j] {
      InterruptedSave(m, raw, k, j);
    }
  }

  // ------------------------------------------------------------------ methods

  method WriteU32(buf: array<byte>, at: nat, v: int)
    requires at + 4 <= buf.Length && 0 <= v < TWO32
    modifies buf
    ensures buf[..] == old(buf[..at]) + U32(v) + old(buf[at + 4..])
  {
    var w := v;
    for k := 0 to 4
      invariant w >= 0 && U32(v)[k..] == LittleEndian(w, 4 - k)
      invariant forall i | 0 <= i < k :: buf[at + i] == U32(v)[i]
      invariant forall i | 0 <= i < buf.Length && !(at <= i < at + k) :: buf[i] == old(buf[i])
    {
      buf[at + k] := (w % 256) as byte;
      assert U32(v)[k] == U32(v)[k..][0] == buf[at + k];
      assert U32(v)[k + 1..] == U32(v)[k..][1..];
      w := w / 256;
    }
  }

  method Clear(buf: array<byte>)
    modifies buf
    ensures buf[..] == Zeros(buf.Length)
  {
    for i := 0 to buf.Length
      invariant forall k | 0 <= k < i :: buf[k] == NUL
    {
      buf[i] := NUL;
    }
  }

  /** kmemcpy between a raw table and a buffer. */
  method CopyIn(dst: array<byte>, at: nat, src: seq<byte>)
    requires at + |src| <= dst.Length
    modifies dst
    ensures dst[..] == old(dst[..at]) + src + old(dst[at + |src|..])
  {
    for i := 0 to |src|
      invariant dst[..] == old(dst[..at]) + src[..i] + old(dst[at + i..])
    {
      dst[at + i] := src[i];
    }
  }

  method BuildHeader(sector: array<byte>, n: nat)
    requires sector.Length == SECTOR_BYTES && n < TWO32
    modifies sector
    ensures sector[..] == Header(n)
  {
    Clear(sector);
    CopyIn(sector, 0, MAGIC);
    assert sector[..] == MAGIC + Zeros(504);
    WriteU32(sector, 8, VERSION);
    assert sector[..] == MAGIC + U32(VERSION) + Zeros(500);
    WriteU32(sector, 12, n);
    assert sector[..] == MAGIC + U32(VERSION) + U32(n) + Zeros(496);
    WriteU32(sector, 16, MAX_FILES);
    assert sector[..] == MAGIC + U32(VERSION) + U32(n) + U32(MAX_FILES) + Zeros(492);
    WriteU32(sector, 20, MAX_FILE_SIZE);
    assert sector[..] == HeaderFields(n) + Zeros(488);
  }

  /** One data sector: zeros, overwritten by what is left of the table. */
  method BuildChunk(sector: array<byte>, raw: seq<byte>, s: nat)
    requires sector.Length == SECTOR_BYTES && s < DataSectors(|raw|)
    modifies sector
    ensures sector[..] == Chunk(raw, s)
  {
    Clear(sector);
    var offset := SECTOR_BYTES * s;
    var chunk := Min(|raw| - offset, SECTOR_BYTES);
    CopyIn(sector, 0, raw[offset..offset + chunk]);
  }

  /** The `k` requests from the `first` on are served. */
  ghost predicate Served(drive: Drive, first: nat, k: nat) {
    forall r: nat | first <= r < first + k :: drive.answers(r)
  }

  ghost predicate Refused(drive: Drive, r: nat) {
    !drive.answers(r)
  }

  /** The request that stopped a transfer, after `k` that were served. */
  ghost predicate StoppedAt(drive: Drive, before: nat, k: nat)
    reads drive
  {
    drive.calls == before + k + 1 && Served(drive, before, k) && !drive.answers(before + k)
  }

  /** Writes of an image are a prefix of it: the next sector extends the prefix. */
  method WriteNext(drive: Drive, sector: array<byte>, ghost m: Medium, ghost img: seq<Sector>, k: nat)
    returns (ok: bool)
    requires sector.Length == SECTOR_BYTES && k < |img| && img[k] == Pack(sector[..])
    requires drive.medium == Written(m, img, k)
    modifies drive`calls, drive`medium
    ensures drive.calls == old(drive.calls) + 1
    ensures ok == (drive.present && drive.answers(old(drive.calls)))
    ensures drive.medium == Written(m, img, if ok then k + 1 else k)
  {
    ok := drive.WriteSector(START_LBA + k, sector);
  }

  /** The data sectors of an image, written one by one after its header. */
  method SaveData(drive: Drive, raw: seq<byte>, sector: array<byte>,
                  ghost m: Medium, ghost img: seq<Sector>, ghost first: nat)
    returns (ok: bool)
    requires drive.calls == first + 1
    requires drive.present && sector.Length == SECTOR_BYTES
    requires |img| == 1 + DataSectors(|raw|)
    requires forall s | 0 <= s < DataSectors(|raw|) :: img[s + 1] == Pack(Chunk(raw, s))
    requires drive.medium == Written(m, img, 1) && drive.answers(first)
    modifies drive`calls, drive`medium, sector
    ensures ok ==> drive.medium == Written(m, img, |img|)
    ensures ok ==> drive.calls == first + |img|
    ensures ok <==> Served(drive, first, |img|)
    ensures !ok ==> exists k | 1 <= k < |img| ::
                      drive.medium == Written(m, img, k) && StoppedAt(drive, first, k)
  {
    var s := 0;
    while s < DataSectors(|raw|)
      invariant s <= DataSectors(|raw|)
      invariant drive.medium == Written(m, img, s + 1)
      invariant drive.calls == old(drive.calls) + s && Served(drive, first, s + 1)
      decreases DataSectors(|raw|) - s
    {
      BuildChunk(sector, raw, s);
      ok := WriteNext(drive, sector, m, img, s + 1);
      if !ok {
        assert StoppedAt(drive, first, s + 1);
        return;
      }
      s := s + 1;
    }
    ok := true;
  }

  /** fs_disk_save over a raw table of any length. */
  method SaveRaw(drive: Drive, raw: seq<byte>) returns (rc: int)
    requires |raw| < TWO32
    modifies drive`calls, drive`medium
    ensures rc == 0 || rc == 1
    ensures rc == 0 ==> drive.medium == Written(old(drive.medium), Image(raw), |Image(raw)|)
    ensures rc == 1 && drive.present ==>
              exists k | 0 <= k < |Image(raw)| ::
                drive.medium == Written(old(drive.medium), Image(raw), k) && StoppedAt(drive, old(drive.calls), k)
    ensures rc == 0 <==> drive.present && Served(drive, old(drive.calls), |Image(raw)|)
    ensures rc == 0 ==> drive.calls == old(drive.calls) + |Image(raw)|
    ensures !drive.present ==> drive.medium == old(drive.medium)
  {
    if !drive.present { return 1; }
    ghost var img := Image(raw);
    forall s | 0 <= s <= DataSectors(|raw|)
      ensures img[s] == SectorOf(raw, s)
    {
      ImageSector(raw, DataSectors(|raw|), s);
    }
    var sector := new byte[SECTOR_BYTES];
    BuildHeader(sector, |raw|);
    var ok := WriteNext(drive, sector, old(drive.medium), img, 0);
    if !ok {
      assert StoppedAt(drive, old(drive.calls), 0);
      return 1;
    }
    ok := SaveData(drive, raw, sector, old(drive.medium), img, old(drive.calls));
    rc := if ok then 0 else 1;
  }

  method LoadChunk(raw: array<byte>, sector: array<byte>, s: nat, ghost m: Medium, ghost before: seq<byte>)
    requires sector != raw && sector.Length == SECTOR_BYTES && s < DataSectors(raw.Length)
    requires sector[..] == Unpack(SectorAt(m, START_LBA + 1 + s))
    requires Loaded(m, before, s, raw[..])
    modifies raw
    ensures Loaded(m, before, s + 1, raw[..])
  {
    var offset := SECTOR_BYTES * s;
    var chunk := Min(raw.Length - offset, SECTOR_BYTES);
    CopyIn(raw, offset, sector[..chunk]);
    forall j | 0 <= j < raw.Length
      ensures raw[j] == if j < SECTOR_BYTES * (s + 1) then DiskByte(m, j) else before[j]
    {
      if offset <= j < offset + chunk {
        assert j / SECTOR_BYTES == s && j % SECTOR_BYTES == j - offset;
        assert raw[j] == sector[j - offset];
      } else {
        assert raw[j] == old(raw[..])[j];
      }
    }
  }

  /** The data sectors, copied over the table one by one. */
  method LoadData(drive: Drive, raw: array<byte>, sector: array<byte>, ghost first: nat) returns (ok: bool)
    requires drive.present && sector != raw && sector.Length == SECTOR_BYTES && drive.calls == first + 1
    requires drive.answers(first)
    modifies drive`calls, raw, sector
    ensures ok ==> Loaded(drive.medium, old(raw[..]), DataSectors(raw.Length), raw[..])
    ensures !ok ==> exists k | 0 <= k < DataSectors(raw.Length) ::
                      Loaded(drive.medium, old(raw[..]), k, raw[..]) && StoppedAt(drive, first, k + 1)
    ensures ok <==> Served(drive, first, 1 + DataSectors(raw.Length))
  {
    ghost var before := raw[..];
    var s := 0;
    assert Loaded(drive.medium, before, 0, raw[..]);
    while s < DataSectors(raw.Length)
      invariant s <= DataSectors(raw.Length)
      invariant Loaded(drive.medium, before, s, raw[..])
      invariant drive.calls == first + 1 + s && Served(drive, first, 1 + s)
      decreases DataSectors(raw.Length) - s
    {
      ok := drive.ReadSector(START_LBA + 1 + s, sector);
      if !ok {
        assert Loaded(drive.medium, before, s, raw[..]) && StoppedAt(drive, first, s + 1);
        return;
      }
      LoadChunk(raw, sector, s, drive.medium, before);
      s := s + 1;
    }
    ok := true;
  }

  /** The first sector, read and checked. */
  method LoadHeader(drive: Drive, sector: array<byte>, n: nat) returns (ok: bool)
    requires sector.Length == SECTOR_BYTES
    modifies drive`calls, sector
    ensures drive.calls == old(drive.calls) + 1
    ensures ok <==> HeaderFound(drive, n) && drive.answers(old(drive.calls))
  {
    ok := drive.ReadSector(START_LBA, sector);
    if ok {
      ok := HeaderOk(sector[..], n);
    }
  }

  predicate HeaderFound(drive: Drive, n: nat)
    reads drive
  {
    drive.present && HeaderOnDisk(drive.medium, n)
  }

  /** A load of `n` bytes is complete: the header is there, and every request is served. */
  ghost predicate CanLoad(drive: Drive, calls: nat, n: nat)
    reads drive
  {
    HeaderFound(drive, n) && Served(drive, calls, 1 + DataSectors(n))
  }

  /** Everything a load may do: all of it, nothing, or the sectors before the one that failed. */
  ghost predicate LoadOutcome(drive: Drive, calls: nat, before: seq<byte>, now: seq<byte>, rc: int)
    reads drive
  {
    && (rc == 0 || rc == 1) && |now| == |before|
    && (rc == 0 <==> CanLoad(drive, calls, |before|))
    && (rc == 0 ==> Loaded(drive.medium, before, DataSectors(|before|), now))
    && (!(HeaderFound(drive, |before|) && drive.answers(calls)) ==>
          now == before && drive.calls == calls + (if drive.present then 1 else 0))
    && (HeaderFound(drive, |before|) && drive.answers(calls) && rc == 1 ==>
          exists k | 0 <= k < DataSectors(|before|) ::
            Loaded(drive.medium, before, k, now) && StoppedAt(drive, calls, k + 1))
  }

  /** fs_disk_load over a raw table of any length. */
  method LoadRaw(drive: Drive, raw: array<byte>) returns (rc: int)
    modifies drive`calls, raw
    ensures LoadOutcome(drive, old(drive.calls), old(raw[..]), raw[..], rc)
  {
    if !drive.present { return 1; }
    var sector := new byte[SECTOR_BYTES];
    var ok := LoadHeader(drive, sector, raw.Length);
    if !ok { return 1; }
    ok := LoadData(drive, raw, sector, old(drive.calls));
    rc := if ok then 0 else 1;
  }
}
