/** A call whose save is cut short, and the reboot after it. */
module Reboot {
  import opened Bytes
  import opened NodeTable
  import opened Runs
  import opened DefaultTree
  import opened NodeCodec
  import opened Disk
  import opened DiskImage
  import opened Crash
  import opened Recovery
  import FileSystem

  /** A machine with a new disk is switched on. */
  method NewMachine() returns (fs: FileSystem.Volume)
    ensures fresh(fs) && fresh(fs.nodes) && fresh(fs.drive)
    ensures fs.Valid() && fs.Saves() && fs.Working() && IsBlank(BLANK_TABLE) && fs.nodes[..] == DefaultTable(BLANK_TABLE)
    ensures Holds(fs.drive.medium, EncodeTable(fs.nodes[..]))
  {
    var drive := new Drive(true, _ => true, map[]);
    fs := new FileSystem.Volume(drive);
    fs.FirstBoot();
  }

  // --------------------------------------------- one call, a crash, a reboot

  /** The disk refuses at most one request, and none from number `last` on. */
  ghost predicate RefusesOnce(drive: Drive, last: nat) {
    && (forall r: nat | r >= last :: drive.answers(r))
    && (forall r: nat, q: nat | !drive.answers(r) && !drive.answers(q) :: r == q)
  }

  /** After a save the disk serves whatever comes next. */
  lemma ServedNext(drive: Drive, calls: nat, n: nat, total: nat)
    requires RefusesOnce(drive, calls + total) && n <= total
    requires if n == total then drive.calls == calls + n else DiskImage.StoppedAt(drive, calls, n)
    ensures Served(drive, drive.calls, total)
  {
  }

  lemma SameDisk(m: Medium, d: Medium, raw: seq<byte>)
    requires m == d && Holds(m, raw)
    ensures Holds(d, raw)
  {
  }

  /** How many sectors a save wrote. */
  lemma SavePoint(drive: Drive, m: Medium, calls: nat, after: Table) returns (n: nat)
    requires AllShaped(after) && FileSystem.SaveShape(drive, m, calls, after)
    requires RefusesOnce(drive, calls + 1 + DataSectors(FileSystem.TABLE_BYTES))
    ensures |EncodeTable(after)| == FileSystem.TABLE_BYTES < TWO32 && n <= 1 + DataSectors(|EncodeTable(after)|)
    ensures drive.medium == Written(m, Image(EncodeTable(after)), n)
    ensures Served(drive, drive.calls, 1 + DataSectors(FileSystem.TABLE_BYTES))
  {
    FileSystem.EncodedLength(after);
    var raw := EncodeTable(after);
    n :| 0 <= n <= |Image(raw)| && drive.medium == Written(m, Image(raw), n)
         && if n == |Image(raw)| then drive.calls == calls + n && Served(drive, calls, n)
            else DiskImage.StoppedAt(drive, calls, n);
    ServedNext(drive, calls, n, |Image(raw)|);
  }

  lemma TornAt(m: Medium, d: Medium, before: Table, after: Table, k: nat)
    requires AllShaped(before) && AllShaped(after) && Holds(m, EncodeTable(before))
    requires |EncodeTable(after)| < TWO32 && k <= DataSectors(|EncodeTable(after)|)
    requires d == Written(m, Image(EncodeTable(after)), k + 1)
    ensures Holds(d, EncodeTable(Torn(after, before, k)))
  {
    TornDisk(m, after, before, k);
    SameDisk(Written(m, Image(EncodeTable(after)), k + 1), d, EncodeTable(Torn(after, before, k)));
  }

  /** What a save that ended or was cut short leaves: the old table, or one torn at some sector. */
  lemma StoppedSave(drive: Drive, m: Medium, calls: nat, before: Table, after: Table) returns (torn: bool, k: nat)
    requires AllShaped(before) && AllShaped(after) && Holds(m, EncodeTable(before))
    requires FileSystem.SaveShape(drive, m, calls, after)
    requires RefusesOnce(drive, calls + 1 + DataSectors(FileSystem.TABLE_BYTES))
    ensures Holds(drive.medium, EncodeTable(if torn then Torn(after, before, k) else before))
    ensures Served(drive, drive.calls, 1 + DataSectors(FileSystem.TABLE_BYTES))
  {
    var n := SavePoint(drive, m, calls, after);
    torn, k := n > 0, if n > 0 then n - 1 else 0;
    if torn {
      TornAt(m, drive.medium, before, after, k);
    } else {
      SameDisk(m, drive.medium, EncodeTable(before));
    }
  }

  /**
   * A create, delete, write or append whose save is cut short, then a reboot: the volume is valid again, and its tree
   * is the one before, or what `Recovers` allows.
   */
  method CrashThenReboot(fs: FileSystem.Volume, op: Op) returns (rc: int)
    requires fs.Valid() && fs.Saves() && Holds(fs.drive.medium, EncodeTable(fs.nodes[..])) && AllSealed(fs.nodes[..])
    requires Admissible(AbsState(fs.State()), op) && SavesOnce(op)
    requires TextArguments(op) && TableStep(fs.State(), op).rc == 0
    requires RefusesOnce(fs.drive, fs.drive.calls + 1 + DataSectors(FileSystem.TABLE_BYTES))
    modifies fs, fs.nodes, fs.drive
    ensures fs.Valid() && !fs.booting && fs.currentDir == ROOT
    ensures Restored(old(fs.State()), op, fs.nodes[..])
  {
    ghost var s, m, calls := fs.State(), fs.drive.medium, fs.drive.calls;
    rc := fs.Change(op);
    ghost var after := fs.nodes[..];
    ghost var torn, k := StoppedSave(fs.drive, m, calls, s.table, after);
    TornIsRestored(s, op, after, k);
    fs.BootInto(if torn then Torn(after, s.table, k) else s.table);
  }
}
