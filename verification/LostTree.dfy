/** Two disks that the kernel writes, or boots from, and on which its tree is lost. */
module LostTree {
  import opened Bytes
  import opened Paths
  import opened NodeTable
  import opened TreeInvariant
  import opened PathMap
  import opened DefaultTree
  import opened NodeCodec
  import opened Disk
  import opened DiskImage
  import opened Crash
  import opened MoveCrash
  import opened PartialBoot
  import opened Limits
  import opened Runs
  import opened MoveRefinement
  import FileSystem

  // -------------------------------------------------- the slots of a new tree

  /** Slots 0 to 3 hold the root, two directories in it, and a file in the second. */
  predicate Layout(t: Table, progs: Text, home: Text, readme: Text) {
    && WellFormed(t)
    && (forall j | 0 <= j < |t| :: Used(t[j]) <==> j < 4)
    && t[1].path.text == progs && t[1].kind == DIR && t[1].parent == 0
    && t[2].path.text == home && t[2].kind == DIR && t[2].parent == 0
    && t[3].path.text == readme && t[3].kind == FILE && t[3].parent == 2
  }

  /** The first `n` slots are used, and no others. */
  predicate UsesFirst(t: Table, n: nat) {
    1 <= n <= |t| && forall j | 0 <= j < |t| :: Used(t[j]) <==> j < n
  }

  predicate Packed(t: Table, n: nat) {
    WellFormed(t) && UsesFirst(t, n)
  }

  lemma NextSlot(t: Table, n: nat)
    requires UsesFirst(t, n) && n < |t|
    ensures Allocate(t) == n
  {
    var r := Allocate(t);
    assert !Used(t[n]);
    assert r >= 0 && !Used(t[r]);
  }

  /** A new name in the directory of slot `q` takes the next slot. */
  lemma MadeNext(t: Table, n: nat, p: Text, kind: int, q: nat)
    requires Packed(t, n) && n < |t| && q < n && IsLookupPath(p) && (kind == FILE || kind == DIR)
    requires t[q].kind == DIR && t[q].path.text == Dirname(p)
    requires forall j | 0 <= j < n :: t[j].path.text != p
    ensures var u := Made(t, p, kind);
      && Packed(u, n + 1) && (forall j | 0 <= j < n :: u[j] == t[j])
      && u[n].path.text == p && u[n].kind == kind && u[n].parent == q
  {
    NextSlot(t, n);
    FindUnique(t, q);
    assert FindParent(t, p) == q && Find(t, p) == -1;
    assert Min(|p|, MAX_PATH - 1) == |p|;
    assert Made(t, p, kind) == t[n := NewNode(t[n], p, kind, q)];
  }

  lemma RootPacked(blank: Table)
    requires IsBlank(blank)
    ensures Packed(Rooted(blank), 1) && Rooted(blank)[0].path.text == ROOT && Rooted(blank)[0].kind == DIR
  {
    RootedIsTree(blank);
  }

  lemma TwoMade(t: Table, progs: Text, home: Text) returns (u: Table)
    requires Packed(t, 1) && t[0].path.text == ROOT && t[0].kind == DIR
    requires IsLookupPath(progs) && IsLookupPath(home) && Dirname(progs) == ROOT && Dirname(home) == ROOT
    requires |progs| > |home| > 1
    ensures u == Made(Made(t, progs, DIR), home, DIR)
    ensures Packed(u, 3) && u[0] == t[0]
    ensures u[1].path.text == progs && u[1].kind == DIR && u[1].parent == 0
    ensures u[2].path.text == home && u[2].kind == DIR && u[2].parent == 0
  {
    MadeNext(t, 1, progs, DIR, 0);
    MadeNext(Made(t, progs, DIR), 2, home, DIR, 0);
    u := Made(Made(t, progs, DIR), home, DIR);
  }

  lemma FileMade(u: Table, progs: Text, home: Text, readme: Text, text: seq<byte>)
    requires Packed(u, 3) && u[0].path.text == ROOT && IsLookupPath(readme) && Dirname(readme) == home
    requires u[1].path.text == progs && u[1].kind == DIR && u[1].parent == 0
    requires u[2].path.text == home && u[2].kind == DIR && u[2].parent == 0
    requires |readme| > |progs| > |home| > 1
    ensures Layout(Write(Made(u, readme, FILE), readme, text).table, progs, home, readme)
  {
    MadeNext(u, 3, readme, FILE, 2);
    var v := Made(u, readme, FILE);
    WriteKeepsTree(v, readme, text);
    FindUnique(v, 3);
  }

  lemma PlantedLayout(blank: Table, progs: Text, home: Text, readme: Text, text: seq<byte>)
    requires IsBlank(blank) && IsLookupPath(progs) && IsLookupPath(home) && IsLookupPath(readme)
    requires Dirname(progs) == ROOT && Dirname(home) == ROOT && Dirname(readme) == home
    requires |readme| > |progs| > |home| > 1
    ensures Layout(Planted(blank, progs, home, readme, text), progs, home, readme)
  {
    RootPacked(blank);
    var u := TwoMade(Rooted(blank), progs, home);
    FileMade(u, progs, home, readme, text);
  }

  lemma DefaultLayout(blank: Table)
    requires IsBlank(blank)
    ensures Layout(DefaultTable(blank), PROGS, HOME, README)
  {
    DefaultPaths();
    PlantedLayout(blank, PROGS, HOME, README, WELCOME);
  }

  // -------------------------------------------------- a move saved only in part

  /** 26 sectors of a save reach past slot 2 and end before slot 3. */
  const MOVE_CUT: nat := 25
  const MOVE_STOP: nat := MOVE_CUT + 1

  lemma CutBetween()
    ensures Reaches(MOVE_CUT, 2) && StopsBefore(MOVE_CUT, 3)
  {
  }

  /** Slot 2 moved with the file below it in slot 3: when the save ends between them, no tree is left. */
  lemma HomeTorn(t: Table, progs: Text, home: Text, readme: Text, to: Text)
    requires Layout(t, progs, home, readme) && MoveApplies(t, 2, home, to, 1)
    ensures !WellFormed(Torn(Rehung(t, 2, 1, to), t, MOVE_CUT))
  {
    CutBetween();
    assert Below(t, 2, 3) by { assert LinkOk(t, 3); }
    assert !Below(t, 2, 0) && !Below(t, 2, 1) by { assert LinkOk(t, 1); }
    assert IsMoved(t, 2, 2) && IsMoved(t, 2, 3);
    MoveTornIff(t, 2, home, to, 1, MOVE_CUT);
  }

  /** The lookups of a move of one top directory into the other. */
  lemma TopMoves(t: Table, i: nat, from: Text, q: nat, into: Text, n: Text)
    requires WellFormed(t) && 1 <= i < |t| && 1 <= q < |t| && Used(t[i]) && Used(t[q]) && t[q].kind == DIR
    requires t[i].path.text == from && t[q].path.text == into && IsPlace(from) && IsPlace(into) && from != into
    requires Dirname(into) == ROOT && |into| <= |from| + 1 && IsComponent(n) && |Tokens(into)| < MAX_DEPTH
    requires |from| >= 5 && |into| + 1 + |n| < 20
    requires forall j | 0 <= j < |t| && Used(t[j]) :: |t[j].path.text| < 20 && t[j].path.text != Join(into, n)
    ensures MoveApplies(t, i, from, Join(into, n), q) && IsPlace(Join(into, n))
  {
    ChildPlace(into, n);
    TopsApart(from, into, n);
    FindUnique(t, i);
    FindUnique(t, q);
  }

  lemma MoveIs(t: Table, i: nat, from: Text, to: Text, q: nat)
    requires WellFormed(t) && MoveApplies(t, i, from, to, q)
    ensures Move(t, from, to) == Outcome(Rehung(t, i, q, to), 0) && WellFormed(Move(t, from, to).table)
  {
    MoveKeepsTree(t, i, from, to, q);
  }

  /** A move that fs_move takes from the shell at the root directory. */
  predicate IsNamedMove(t: Table, from: Text, to: Text)
    requires WellFormed(t)
  {
    && PathFits(ROOT, from) && Resolve(ROOT, from) == from && PathFits(ROOT, to) && Resolve(ROOT, to) == to
    && MoveIsSafe(Abs(t), from, to) && Move(t, from, to).rc == 0
  }

  lemma NamedMove(t: Table, i: nat, from: Text, to: Text, q: nat)
    requires WellFormed(t) && MoveApplies(t, i, from, to, q) && IsPlace(from) && IsPlace(to)
    ensures IsNamedMove(t, from, to)
  {
    PlaceIsNamed(from);
    PlaceIsNamed(to);
    FitsAlike(t, from, to);
    MoveIs(t, i, from, to, q);
  }

  /** When the save of this move stops after `n` sectors, the disk has the kernel's header and no tree. */
  ghost predicate LosesTree(m: Medium, t: Table, from: Text, to: Text, n: nat)
    requires WellFormed(t) && IsText(to)
  {
    var raw := EncodeTable(Move(t, from, to).table);
    && |raw| == FileSystem.TABLE_BYTES < TWO32 && n < 1 + DataSectors(|raw|)
    && HeaderOnDisk(Written(m, Image(raw), n), FileSystem.TABLE_BYTES)
    && !exists u: Table :: WellFormed(u) && Holds(Written(m, Image(raw), n), EncodeTable(u))
  }

  lemma TornMoveLoses(m: Medium, t: Table, i: nat, from: Text, to: Text, q: nat, k: nat)
    requires WellFormed(t) && MoveApplies(t, i, from, to, q) && Holds(m, EncodeTable(t))
    requires k < DataSectors(FileSystem.TABLE_BYTES) && !WellFormed(Torn(Rehung(t, i, q, to), t, k))
    ensures LosesTree(m, t, from, to, k + 1)
  {
    MoveIs(t, i, from, to, q);
    TornSave(m, t, Rehung(t, i, q, to), k);
  }

  /** A torn table that is no tree: the disk has the header and no tree. */
  lemma TornSave(m: Medium, t: Table, r: Table, k: nat)
    requires AllShaped(t) && AllShaped(r) && Holds(m, EncodeTable(t)) && k < DataSectors(FileSystem.TABLE_BYTES)
    requires !WellFormed(Torn(r, t, k))
    ensures var raw := EncodeTable(r);
      && |raw| == FileSystem.TABLE_BYTES < TWO32
      && HeaderOnDisk(Written(m, Image(raw), k + 1), FileSystem.TABLE_BYTES)
      && !exists u: Table :: WellFormed(u) && Holds(Written(m, Image(raw), k + 1), EncodeTable(u))
  {
    FileSystem.EncodedLength(r);
    SavedHeader(m, EncodeTable(r), k + 1);
    TornIsTree(m, r, t, k);
  }

  lemma HomeMoves(t: Table, progs: Text, home: Text, readme: Text, n: Text, to: Text)
    requires Layout(t, progs, home, readme) && to == Join(progs, n)
    requires IsPlace(progs) && IsPlace(home) && Dirname(progs) == ROOT && |Tokens(progs)| < MAX_DEPTH && IsComponent(n)
    requires |progs| == 6 && |home| == 5 && |readme| == 16 && |n| == 4
    ensures MoveApplies(t, 2, home, to, 1) && IsNamedMove(t, home, to)
  {
    TopMoves(t, 2, home, 1, progs, n);
    NamedMove(t, 2, home, to, 1);
  }

  lemma HomeMoveLost(m: Medium, t: Table, progs: Text, home: Text, readme: Text, to: Text)
    requires Layout(t, progs, home, readme) && Holds(m, EncodeTable(t)) && MoveApplies(t, 2, home, to, 1)
    ensures LosesTree(m, t, home, to, MOVE_STOP)
  {
    HomeTorn(t, progs, home, readme, to);
    TornMoveLoses(m, t, 2, home, to, 1, MOVE_CUT);
  }

  /** The sector a save stops at is the first one refused. */
  lemma SaveStopsAt(drive: Drive, m: Medium, calls: nat, t: Table, n: nat, stop: nat)
    requires AllShaped(t) && FileSystem.SaveShape(drive, m, calls, t) && n < 1 + DataSectors(FileSystem.TABLE_BYTES)
    requires stop == calls + n && Served(drive, calls, n) && Refused(drive, stop)
    ensures |EncodeTable(t)| == FileSystem.TABLE_BYTES < TWO32
    ensures drive.medium == Written(m, Image(EncodeTable(t)), n) && drive.calls == stop + 1
  {
    FileSystem.EncodedLength(t);
    var raw := EncodeTable(t);
    var k: nat :| k <= |Image(raw)| && drive.medium == Written(m, Image(raw), k)
         && if k == |Image(raw)| then drive.calls == calls + k && Served(drive, calls, k)
            else DiskImage.StoppedAt(drive, calls, k);
    StopIsUnique(drive, calls, n, stop, k, |Image(raw)|);
  }

  lemma StopIsUnique(drive: Drive, calls: nat, n: nat, stop: nat, k: nat, size: nat)
    requires stop == calls + n && n < size && Served(drive, calls, n) && Refused(drive, stop)
    requires k <= size && if k == size then Served(drive, calls, k) else DiskImage.StoppedAt(drive, calls, k)
    ensures k == n && drive.calls == stop + 1
  {
    assert !drive.answers(stop);
  }

  /** On a new disk, `move /home /progs/home` whose save stops between the two slots that it changes. */
  lemma DefaultMoveLost(m: Medium, blank: Table)
    requires IsBlank(blank) && Holds(m, EncodeTable(DefaultTable(blank)))
    ensures WellFormed(DefaultTable(blank)) && IsNamedMove(DefaultTable(blank), HOME, Join(PROGS, HOME_NAME))
    ensures LosesTree(m, DefaultTable(blank), HOME, Join(PROGS, HOME_NAME), MOVE_STOP)
  {
    DefaultLayout(blank);
    DefaultPaths();
    DefaultPlaces();
    DefaultNames();
    HomeMoves(DefaultTable(blank), PROGS, HOME, README, HOME_NAME, Join(PROGS, HOME_NAME));
    HomeMoveLost(m, DefaultTable(blank), PROGS, HOME, README, Join(PROGS, HOME_NAME));
  }

  method NamedMoveRuns(fs: FileSystem.Volume, from: Text, to: Text, ghost t: Table)
    requires fs.Valid() && fs.Saves() && fs.currentDir == ROOT && fs.nodes[..] == t
    requires WellFormed(t) && IsNamedMove(t, from, to)
    modifies fs, fs.nodes, fs.drive
    ensures AllShaped(Move(t, from, to).table)
    ensures FileSystem.SaveShape(fs.drive, old(fs.drive.medium), old(fs.drive.calls), Move(t, from, to).table)
  {
    var rc := fs.MoveNode(from, to);
    assert Outcome(fs.nodes[..], rc) == Move(t, from, to);
  }

  /** A move whose save is refused at sector `n`, request number `stop`. */
  method MoveCutShort(fs: FileSystem.Volume, from: Text, to: Text, ghost t: Table, ghost n: nat, ghost stop: nat)
    requires fs.Valid() && fs.Saves() && fs.currentDir == ROOT && fs.nodes[..] == t
    requires WellFormed(t) && IsNamedMove(t, from, to) && n < 1 + DataSectors(FileSystem.TABLE_BYTES)
    requires stop == fs.drive.calls + n && Served(fs.drive, fs.drive.calls, n) && Refused(fs.drive, stop)
    modifies fs, fs.nodes, fs.drive
    ensures var raw := EncodeTable(Move(t, from, to).table);
      && |raw| == FileSystem.TABLE_BYTES < TWO32
      && fs.drive.medium == Written(old(fs.drive.medium), Image(raw), n)
    ensures fs.drive.calls == stop + 1
  {
    ghost var m, calls := fs.drive.medium, fs.drive.calls;
    NamedMoveRuns(fs, from, to, t);
    SaveStopsAt(fs.drive, m, calls, Move(t, from, to).table, n, stop);
  }

  /** A boot from a disk with the kernel's header and no tree behind it, which serves the load. */
  method BootLost(fs: FileSystem.Volume)
    requires fs.nodes.Length == MAX_FILES && fs.drive.present && !fs.HasTree(fs.drive.medium)
    requires HeaderOnDisk(fs.drive.medium, FileSystem.TABLE_BYTES)
    requires Served(fs.drive, fs.drive.calls, 1 + DataSectors(FileSystem.TABLE_BYTES))
    modifies fs, fs.nodes, fs.drive
    ensures fs.drive.medium == old(fs.drive.medium) && Holds(fs.drive.medium, EncodeTable(fs.nodes[..])) && !fs.Valid()
  {
    fs.Init();
  }

  /** A move whose save stops after `n` sectors and leaves no tree, and a reboot that serves all. */
  method CutMoveThenReboot(fs: FileSystem.Volume, from: Text, to: Text, ghost t: Table, ghost n: nat, ghost stop: nat)
    requires fs.Valid() && fs.Saves() && fs.currentDir == ROOT && fs.nodes[..] == t
    requires WellFormed(t) && IsNamedMove(t, from, to) && LosesTree(fs.drive.medium, t, from, to, n)
    requires stop == fs.drive.calls + n && Served(fs.drive, fs.drive.calls, n) && Refused(fs.drive, stop)
    requires Served(fs.drive, stop + 1, 1 + DataSectors(FileSystem.TABLE_BYTES))
    modifies fs, fs.nodes, fs.drive
    ensures HeaderOnDisk(fs.drive.medium, FileSystem.TABLE_BYTES) && !fs.HasTree(fs.drive.medium)
    ensures Holds(fs.drive.medium, EncodeTable(fs.nodes[..])) && !fs.Valid()
  {
    MoveCutShort(fs, from, to, t, n, stop);
    BootLost(fs);
  }

  /** `move /home /progs/home` on a new disk, with the save refused at its 27th sector; then a reboot that serves all. */
  method TornMoveThenReboot(fs: FileSystem.Volume, ghost blank: Table, ghost stop: nat)
    requires fs.Valid() && fs.Saves() && fs.currentDir == ROOT && IsBlank(blank)
    requires fs.nodes[..] == DefaultTable(blank) && Holds(fs.drive.medium, EncodeTable(DefaultTable(blank)))
    requires stop == fs.drive.calls + MOVE_STOP && Served(fs.drive, fs.drive.calls, MOVE_STOP) && Refused(fs.drive, stop)
    requires Served(fs.drive, stop + 1, 1 + DataSectors(FileSystem.TABLE_BYTES))
    modifies fs, fs.nodes, fs.drive
    ensures HeaderOnDisk(fs.drive.medium, FileSystem.TABLE_BYTES) && !fs.HasTree(fs.drive.medium)
    ensures Holds(fs.drive.medium, EncodeTable(fs.nodes[..])) && !fs.Valid()
  {
    DefaultMoveLost(fs.drive.medium, blank);
    CutMoveThenReboot(fs, HOME, Join(PROGS, HOME_NAME), DefaultTable(blank), MOVE_STOP, stop);
  }

  // ------------------------------------------------ a boot that loads only part

  /** 17 data sectors hold slots 0 and 1. */
  const LOAD_CUT: nat := 17

  lemma LoadsTwo(j: nat)
    ensures IsLoaded(LOAD_CUT, j) <==> j < 2
  {
  }

  /** What the cut load leaves: the root and slot 1. */
  lemma TwoLoaded(t: Table, blank: Table)
    requires WellFormed(t) && IsBlank(blank) && Used(t[1])
    ensures var p := Partial(t, blank, LOAD_CUT);
      AllShaped(p) && IsLoose(Rooted(p)) && UsesFirst(Rooted(p), 2) && p[1] == t[1]
  {
    var p := Partial(t, blank, LOAD_CUT);
    PartialIsLoose(t, blank, LOAD_CUT);
    forall j | 0 <= j < |p| ensures Used(p[j]) <==> j < 2 && Used(t[j]) {
      PartialAt(t, blank, LOAD_CUT, j);
      LoadsTwo(j);
    }
    PartialAt(t, blank, LOAD_CUT, 1);
    LoadsTwo(1);
  }

  /** The first directory planted over two loaded slots takes slot 2. */
  lemma TakesSlotTwo(r: Table, p: Text)
    requires IsLoose(r) && UsesFirst(r, 2) && IsLookupPath(p) && Dirname(p) == ROOT && p != ROOT && r[1].path.text != p
    ensures var u := Made(r, p, DIR); IsLoose(u) && Used(u[2]) && u[2].path.text == p
  {
    MadeGrows(r, p, DIR);
    NextSlot(r, 2);
    RootIsFound(r);
    assert Find(r, p) == -1 && FindParent(r, p) == 0;
    assert Min(|p|, MAX_PATH - 1) == |p|;
  }

  lemma PlantedTakes(p: Table, progs: Text, home: Text, readme: Text, text: seq<byte>)
    requires AllShaped(p) && IsLoose(Rooted(p)) && UsesFirst(Rooted(p), 2) && Rooted(p)[1].path.text != progs
    requires IsLookupPath(progs) && Dirname(progs) == ROOT && progs != ROOT && IsLookupPath(home) && IsLookupPath(readme)
    ensures Planted(p, progs, home, readme, text)[2].path.text == progs
  {
    var t1 := Made(Rooted(p), progs, DIR);
    TakesSlotTwo(Rooted(p), progs);
    MadeGrows(t1, home, DIR);
    var t2 := Made(t1, home, DIR);
    MadeGrows(t2, readme, FILE);
    var t3 := Made(t2, readme, FILE);
    WriteGrows(t3, readme, text);
    GrowsOn(t1, t2, t3);
    GrowsOn(t1, t3, Write(t3, readme, text).table);
    assert SamePlace(Planted(p, progs, home, readme, text)[2], t1[2]);
  }

  /** Slot 1 loaded, the directory in slot 2 that it is in not loaded, and /progs planted in its place. */
  lemma Orphaned(t: Table, blank: Table, k: nat)
    requires WellFormed(t) && IsBlank(blank) && k == LOAD_CUT
    requires Used(t[1]) && t[1].parent == 2 && t[1].path.text != PROGS && t[2].path.text != PROGS
    ensures AllShaped(Partial(t, blank, k)) && !WellFormed(DefaultTable(Partial(t, blank, k)))
  {
    var p := Partial(t, blank, LOAD_CUT);
    TwoLoaded(t, blank);
    DefaultPaths();
    PlantedTakes(p, PROGS, HOME, README, WELCOME);
    PlantedIff(t, blank, LOAD_CUT);
    LoadsTwo(1);
    assert DefaultTable(p)[2].path.text == PROGS;
  }

  /** A new tree with /progs moved to /home/progs. */
  lemma MovedProgs(blank: Table)
    requires IsBlank(blank)
    ensures WellFormed(DefaultTable(blank)) && IsNamedMove(DefaultTable(blank), PROGS, Join(HOME, PROGS_NAME))
    ensures var t := Move(DefaultTable(blank), PROGS, Join(HOME, PROGS_NAME)).table;
      WellFormed(t) && Used(t[1]) && t[1].parent == 2 && t[1].path.text != PROGS && t[2].path.text != PROGS
  {
    DefaultLayout(blank);
    DefaultPaths();
    DefaultPlaces();
    DefaultNames();
    ProgsMoved(DefaultTable(blank), PROGS, HOME, README, PROGS_NAME);
  }

  lemma ProgsMoved(t: Table, progs: Text, home: Text, readme: Text, n: Text)
    requires Layout(t, progs, home, readme)
    requires IsPlace(progs) && IsPlace(home) && Dirname(home) == ROOT && |Tokens(home)| < MAX_DEPTH && IsComponent(n)
    requires |progs| == 6 && |home| == 5 && |readme| == 16 && |n| == 5
    ensures IsNamedMove(t, progs, Join(home, n))
    ensures var r := Move(t, progs, Join(home, n)).table;
      WellFormed(r) && Used(r[1]) && r[1].parent == 2 && r[1].path.text != progs && r[2].path.text != progs
  {
    var to := Join(home, n);
    TopMoves(t, 1, progs, 2, home, n);
    NamedMove(t, 1, progs, to, 2);
    MoveIs(t, 1, progs, to, 2);
    RehungPath(t, 1, progs, to, 2, 1);
    RehungPath(t, 1, progs, to, 2, 2);
    MovedDiffers(t, 1, progs, to, 2, 1);
    assert Rehung(t, 1, 2, to)[1] == RehungNode(t, 1, 2, to, 1);
    assert !Below(t, 1, 0) && !Below(t, 1, 2) by { assert LinkOk(t, 2); }
    assert Rehung(t, 1, 2, to)[2] == RehungNode(t, 1, 2, to, 2);
  }

  lemma StopsAtCut(fs: FileSystem.Volume, m: Medium, calls: nat, t: Table, u: Table, k: nat, stop: nat)
    requires WellFormed(t) && Holds(m, EncodeTable(t)) && fs.PartlyLoaded(m, calls, u, k)
    requires stop == calls + LOAD_CUT + 1 && Served(fs.drive, calls, LOAD_CUT + 1) && Refused(fs.drive, stop)
    ensures u == t && k == LOAD_CUT
  {
    HeldOnce(m, t, u) by { FileSystem.EncodedLength(u); }
    assert !fs.drive.answers(stop);
  }

  lemma WholeSave(drive: Drive, m: Medium, calls: nat, t: Table)
    requires AllShaped(t) && FileSystem.SaveShape(drive, m, calls, t)
    requires Served(drive, calls, 1 + DataSectors(FileSystem.TABLE_BYTES))
    ensures Holds(drive.medium, EncodeTable(t))
  {
    FileSystem.EncodedLength(t);
    SaveHolds(m, EncodeTable(t));
  }

  /** The load stops at that sector. */
  lemma BootStops(fs: FileSystem.Volume, m: Medium, calls: nat, t: Table, stop: nat)
    requires fs.drive.present && WellFormed(t) && Holds(m, EncodeTable(t))
    requires stop == calls + LOAD_CUT + 1 && Served(fs.drive, calls, LOAD_CUT + 1) && Refused(fs.drive, stop)
    ensures !fs.Loads(m, calls) && fs.LoadStops(m, calls)
  {
    FileSystem.EncodedLength(t);
    assert !fs.drive.answers(stop) && fs.drive.answers(calls);
  }

  lemma LostMemory(fs: FileSystem.Volume, m: Medium, now: nat, p: Table)
    requires fs.FromDefault(m, now, p) && !WellFormed(DefaultTable(p)) && fs.drive.present
    requires Served(fs.drive, now, 1 + DataSectors(FileSystem.TABLE_BYTES))
    ensures !fs.Valid() && Holds(fs.drive.medium, EncodeTable(fs.nodes[..])) && !fs.HasTree(fs.drive.medium)
  {
    WholeSave(fs.drive, m, now, fs.nodes[..]);
    OnlyTree(fs.drive.medium, fs.nodes[..]);
  }

  /** Memory is then the default tree over the first two slots. */
  lemma CutPart(fs: FileSystem.Volume, m: Medium, calls: nat, blank: Table, t: Table, stop: nat, now: nat, k: nat)
    requires now == stop + 1 && k == LOAD_CUT
    requires fs.Boots(m, calls, blank) && !fs.Loads(m, calls) && fs.LoadStops(m, calls)
    requires WellFormed(t) && Holds(m, EncodeTable(t))
    requires stop == calls + LOAD_CUT + 1 && Served(fs.drive, calls, LOAD_CUT + 1) && Refused(fs.drive, stop)
    ensures IsBlank(blank) && fs.FromDefault(m, now, Partial(t, blank, k))
  {
    var u, n, at := fs.BootedInPart(m, calls, blank);
    StopsAtCut(fs, m, calls, t, u, n, stop);
    PartMemory(fs, m, blank, u, n, at, t, k, now);
  }

  lemma PartMemory(fs: FileSystem.Volume, m: Medium, blank: Table, u: Table, k: nat, a: nat, t: Table, n: nat, b: nat)
    requires IsBlank(blank) && |u| == MAX_FILES && fs.FromDefault(m, a, Partial(u, blank, k))
    requires u == t && k == n && a == b
    ensures fs.FromDefault(m, b, Partial(t, blank, n))
  {
    fs.SameDefault(m, a, Partial(u, blank, k), Partial(t, blank, n));
  }

  /** Slot 1's directory was not loaded, /progs took its slot, and the save that follows replaced the tree. */
  lemma OrphanLost(fs: FileSystem.Volume, m: Medium, now: nat, blank: Table, t: Table, k: nat)
    requires IsBlank(blank) && WellFormed(t) && k == LOAD_CUT && fs.FromDefault(m, now, Partial(t, blank, k))
    requires Used(t[1]) && t[1].parent == 2 && t[1].path.text != PROGS && t[2].path.text != PROGS
    requires fs.drive.present && Served(fs.drive, now, 1 + DataSectors(FileSystem.TABLE_BYTES))
    ensures !fs.Valid() && Holds(fs.drive.medium, EncodeTable(fs.nodes[..])) && !fs.HasTree(fs.drive.medium)
  {
    Orphaned(t, blank, k);
    LostMemory(fs, m, now, Partial(t, blank, k));
  }

  lemma OrphanBoots(fs: FileSystem.Volume, m: Medium, calls: nat, blank: Table, t: Table, stop: nat, now: nat, k: nat)
    requires now == stop + 1 && k == LOAD_CUT
    requires fs.Boots(m, calls, blank) && !fs.Loads(m, calls) && fs.LoadStops(m, calls)
    requires fs.drive.present && WellFormed(t) && Holds(m, EncodeTable(t))
    requires Used(t[1]) && t[1].parent == 2 && t[1].path.text != PROGS && t[2].path.text != PROGS
    requires stop == calls + LOAD_CUT + 1 && Served(fs.drive, calls, LOAD_CUT + 1) && Refused(fs.drive, stop)
    requires Served(fs.drive, now, 1 + DataSectors(FileSystem.TABLE_BYTES))
    ensures !fs.Valid() && Holds(fs.drive.medium, EncodeTable(fs.nodes[..])) && !fs.HasTree(fs.drive.medium)
  {
    CutPart(fs, m, calls, blank, t, stop, now, k);
    OrphanLost(fs, m, now, blank, t, k);
  }

  lemma OnlyTree(m: Medium, t: Table)
    requires AllShaped(t) && Holds(m, EncodeTable(t)) && !WellFormed(t)
    ensures !exists v: Table :: WellFormed(v) && Holds(m, EncodeTable(v))
  {
    FileSystem.EncodedLength(t);
    forall v: Table | WellFormed(v) && Holds(m, EncodeTable(v)) ensures v == t {
      HeldOnce(m, v, t);
    }
  }

  /**
   * A disk that holds the default tree with /progs moved to /home/progs, and that refuses the 19th request of a boot
   * and no other: the boot leaves no tree in memory, and overwrites the one on disk.
   */
  method OrphanedBoot(fs: FileSystem.Volume, ghost blank: Table, ghost stop: nat)
    requires fs.nodes.Length == MAX_FILES && fs.drive.present && IsBlank(blank)
    requires WellFormed(DefaultTable(blank)) && IsText(Join(HOME, PROGS_NAME))
    requires Holds(fs.drive.medium, EncodeTable(Move(DefaultTable(blank), PROGS, Join(HOME, PROGS_NAME)).table))
    requires stop == fs.drive.calls + LOAD_CUT + 1 && Served(fs.drive, fs.drive.calls, LOAD_CUT + 1)
    requires Refused(fs.drive, stop) && Served(fs.drive, stop + 1, 1 + DataSectors(FileSystem.TABLE_BYTES))
    modifies fs, fs.nodes, fs.drive
    ensures !fs.Valid() && Holds(fs.drive.medium, EncodeTable(fs.nodes[..])) && !fs.HasTree(fs.drive.medium)
  {
    MovedProgs(blank);
    ghost var m, calls := fs.drive.medium, fs.drive.calls;
    ghost var t := Move(DefaultTable(blank), PROGS, Join(HOME, PROGS_NAME)).table;
    assert fs.HasTree(m);
    fs.Init();
    BootStops(fs, m, calls, t, stop);
    OrphanBoots(fs, m, calls, BLANK_TABLE, t, stop, stop + 1, LOAD_CUT);
  }
}
