/** The kernel filesystem: a table of nodes updated in place, and its copy on disk. */
module FileSystem {
  import opened Bytes
  import opened Paths
  import opened NodeTable
  import opened TreeInvariant
  import opened PathMap
  import opened MoveRefinement
  import opened Runs
  import opened DefaultTree
  import opened Rebuild
  import opened NodeCodec
  import opened Disk
  import opened DiskImage
  import opened SaveHistory
  import opened Splice
  import opened Crash
  import opened PartialBoot
  import CString
  import Resolver

  /** On a node's raw buffer, `Store` leaves the bytes that str_copy_n leaves. */
  lemma StoreIsStrCopyN(b: Buf, cap: nat, s: Text)
    requires cap > 0 && Terminated(b, cap) && IsText(s)
    ensures RawBytes(Store(b, cap, s)) == CString.Stored(RawBytes(b), 0, s[..Min(|s|, cap - 1)])
  {
    var n, raw := Min(|s|, cap - 1), RawBytes(b);
    assert raw[..0] + s[..n] == s[..n];
  }

  lemma EncodedLength(t: Table)
    requires AllShaped(t)
    ensures |EncodeTable(t)| == TABLE_BYTES < TWO32
    ensures DecodeTable(EncodeTable(t)) == t
  {
    TableRoundTrip(t);
  }

  /** A save of the table takes the 1069 sectors from 2048 on, and leaves all others. */
  lemma SaveSectors(m: Medium, t: Table, k: nat, lba: nat)
    requires AllShaped(t)
    ensures |EncodeTable(t)| == 546816 && |Image(EncodeTable(t))| == 1069
    ensures k <= 1069 && !(2048 <= lba < 3117) ==>
      SectorAt(Written(m, Image(EncodeTable(t)), k), lba) == SectorAt(m, lba)
  {
    EncodedLength(t);
    if k <= 1069 {
      WrittenAt(m, Image(EncodeTable(t)), k, lba);
    }
  }

  /** A save came to its end or to a refused request: the disk holds that much of the image over its old contents. */
  ghost predicate SaveShape(drive: Drive, before: Medium, calls: nat, t: Table)
    reads drive
  {
    var raw := EncodeTable(t);
    |raw| < TWO32
    && exists k | 0 <= k <= |Image(raw)| ::
      drive.medium == Written(before, Image(raw), k)
      && if k == |Image(raw)| then drive.calls == calls + k && Served(drive, calls, k) else StoppedAt(drive, calls, k)
  }

  const TABLE_BYTES: nat := NODE_BYTES * MAX_FILES

  function Images(ts: seq<Table>): (raws: seq<seq<byte>>)
    ensures |raws| == |ts|
  {
    seq(|ts|, i requires 0 <= i < |ts| => EncodeTable(ts[i]))
  }

  lemma ImagesJoin(a: seq<Table>, b: seq<Table>)
    ensures Images(a + b) == Images(a) + Images(b)
  {
  }

  lemma SaveIsLayer(drive: Drive, before: Medium, calls: nat, t: Table)
    requires AllShaped(t) && SaveShape(drive, before, calls, t)
    ensures Layered(drive.medium, before, Images([t]), TABLE_BYTES)
  {
    EncodedLength(t);
    var raw := EncodeTable(t);
    var k :| 0 <= k <= |Image(raw)| && drive.medium == Written(before, Image(raw), k);
    OneSave(before, raw, k);
    assert Images([t]) == [raw];
  }

  /** A complete load from a disk that holds a table restores that table. */
  lemma LoadRestoresTable(drive: Drive, calls: nat, before: Table, now: Table, t: Table)
    requires AllShaped(before) && AllShaped(t) && DecodeTable(EncodeTable(now)) == now
    requires LoadOutcome(drive, calls, EncodeTable(before), EncodeTable(now), 0)
    requires Holds(drive.medium, EncodeTable(t))
    ensures now == t
  {
    EncodedLength(before);
    EncodedLength(t);
    LoadRestores(drive.medium, EncodeTable(t), EncodeTable(before));
  }

  lemma StoppingSector(drive: Drive, calls: nat, before: seq<byte>, now: seq<byte>, n: nat) returns (k: nat)
    requires n == |before| && LoadOutcome(drive, calls, before, now, 1)
    requires HeaderFound(drive, n) && drive.answers(calls)
    ensures k < DataSectors(n) && Loaded(drive.medium, before, k, now)
    ensures Served(drive, calls, k + 1) && !drive.answers(calls + k + 1) && drive.calls == calls + k + 2
  {
    k :| 0 <= k < DataSectors(n) && Loaded(drive.medium, before, k, now) && StoppedAt(drive, calls, k + 1);
  }

  /** A load that stopped after `k` data sectors of a saved table leaves that table's first slots over what was there. */
  lemma LoadStopsPartway(drive: Drive, before: Table, now: Table, t: Table, k: nat)
    requires AllShaped(before) && AllShaped(t) && DecodeTable(EncodeTable(now)) == now
    requires Holds(drive.medium, EncodeTable(t)) && k <= DataSectors(TABLE_BYTES)
    requires Loaded(drive.medium, EncodeTable(before), k, EncodeTable(now))
    ensures now == Torn(t, before, k)
  {
    EncodedLength(before);
    EncodedLength(t);
    var x, y, z := EncodeTable(t), EncodeTable(before), EncodeTable(now);
    forall j | 0 <= j < |z| ensures z[j] == Spliced(x, y, SECTOR_BYTES * k)[j] {
      SpliceAt(x, y, SECTOR_BYTES * k, j);
    }
    assert z == Spliced(x, y, SECTOR_BYTES * k);
    SplicedTables(t, before, SECTOR_BYTES * k);
  }

  /** The bytes of a table, as memory to load into. */
  method Memory(image: seq<byte>) returns (raw: array<byte>)
    ensures fresh(raw) && raw[..] == image
  {
    raw := new byte[|image|];
    CopyIn(raw, 0, image);
  }

  /** The raw bytes of a table, read over by the disk and taken as a table again. */
  method LoadTable(drive: Drive, before: Table) returns (rc: int, now: Table)
    requires AllShaped(before)
    modifies drive`calls
    ensures |now| == MAX_FILES && DecodeTable(EncodeTable(now)) == now
    ensures LoadOutcome(drive, old(drive.calls), EncodeTable(before), EncodeTable(now), rc)
  {
    EncodedLength(before);
    var raw := Memory(EncodeTable(before));
    rc := LoadRaw(drive, raw);
    RawTableRoundTrip(raw[..], MAX_FILES);
    now := DecodeTable(raw[..]);
  }

  /** Re-parenting node `i` leaves the same nodes below it. */
  lemma {:induction false} RehungBelow(t: Table, goal: Table, i: nat, j: nat)
    requires WellFormed(t) && WellFormed(goal) && i < |t| && j < |t|
    requires forall k | 0 <= k < |t| :: goal[k].used == t[k].used && (k != i ==> goal[k].parent == t[k].parent)
    ensures Below(goal, i, j) <==> j != i && Below(t, i, j)
    decreases |t[j].path.text|
  {
    if j == i {
      if Below(goal, i, i) { BelowIsLonger(goal, i, i); }
    } else if j > 0 && Used(t[j]) {
      assert LinkOk(t, j) && LinkOk(goal, j);
      RehungBelow(t, goal, i, t[j].parent);
    }
  }

  /** After the relink, the table waits for exactly the paths that a move rewrites. */
  lemma RehungIsReady(t: Table, now: Table, i: nat, from: Text, to: Text, parent: nat)
    requires WellFormed(t) && MoveApplies(t, i, from, to, parent)
    requires now == t[i := RehungNode(t, i, parent, to, i)]
    ensures var goal := Rehung(t, i, parent, to);
      && WellFormed(goal) && ReadyBelow(now, goal, i)
      && (forall j | 0 <= j < |t| && !Below(goal, i, j) :: goal[j] == now[j])
      && (t[i].kind != DIR ==> now == goal)
  {
    MoveKeepsTree(t, i, from, to, parent);
    var goal := Rehung(t, i, parent, to);
    forall k | 0 <= k < |t| ensures goal[k].used == t[k].used && (k != i ==> goal[k].parent == t[k].parent) {
      assert goal[k] == RehungNode(t, i, parent, to, k);
    }
    forall j | 0 <= j < |t|
      ensures SameLinks(now[j], goal[j])
      ensures Below(goal, i, j) ==> Waits(now[j], goal[j]) && t[i].kind == DIR
      ensures !Below(goal, i, j) ==> goal[j] == now[j]
    {
      RehungBelow(t, goal, i, j);
      assert goal[j] == RehungNode(t, i, parent, to, j);
      if Below(goal, i, j) {
        BelowDirectory(t, i, j);
        RehungPath(t, i, from, to, parent, j);
      }
    }
  }

  lemma MoveIsReady(t: Table, from: Text, to: Text)
    requires WellFormed(t) && IsLookupPath(to) && MoveIsSafe(Abs(t), from, to)
    requires Find(t, from) > 0 && Find(t, to) == -1 && FindParent(t, to) >= 0
    ensures MoveApplies(t, Find(t, from), from, to, FindParent(t, to))
  {
    RenameAlike(t, from, to);
    FitsAlike(t, from, to);
  }

  class Volume {
    const nodes: array<Node>
    const drive: Drive
    var currentDir: Text
    var persistence: bool
    var booting: bool

    constructor (drive: Drive)
      ensures this.drive == drive && fresh(nodes) && nodes.Length == MAX_FILES
    {
      this.drive := drive;
      nodes := new Node[MAX_FILES](_ => ZERO_NODE);
      currentDir, persistence, booting := ROOT, false, true;
    }

    ghost function State(): TableState
      reads this, nodes
    {
      TableState(nodes[..], currentDir)
    }

    /** The tree in memory is well formed. */
    ghost predicate Sound()
      reads this, nodes
    {
      nodes.Length == MAX_FILES && StateOk(State())
    }

    ghost predicate Working() {
      drive.present && drive.Reliable()
    }

    /** A successful call ends with a save. */
    predicate Saves()
      reads this
    {
      !booting && persistence && drive.present
    }

    /** What a call leaves on disk: a finished or interrupted save of the new table, or what was there. */
    ghost predicate SavedAfter(before: Medium, calls: nat, rc: int)
      reads this, nodes, drive
    {
      if Saves() && rc == 0 then SaveShape(drive, before, calls, nodes[..]) else drive.medium == before
    }

    /** The tree on disk is the tree in memory. */
    ghost predicate Mirrored()
      reads this, nodes, drive
    {
      persistence && Working() ==> Holds(drive.medium, EncodeTable(nodes[..]))
    }

    ghost predicate Valid()
      reads this, nodes, drive
    {
      Sound() && (!booting ==> Mirrored())
    }

    // ---------------------------------------------------------------- scans

    method FindNode(path: Text) returns (r: int)
      ensures r == Find(nodes[..], path)
    {
      for i := 0 to nodes.Length
        invariant Find(nodes[..], path) == FindFrom(nodes[..], path, i)
      {
        if Used(nodes[i]) && nodes[i].path.text == path {
          return i;
        }
      }
      r := -1;
    }

    method FindParentNode(path: Text) returns (r: int)
      ensures r == FindParent(nodes[..], path)
    {
      var dirname := CString.PathGetDirname(path);
      var parent := FindNode(dirname);
      if parent >= 0 && nodes[parent].kind == DIR {
        return parent;
      }
      r := -1;
    }

    method AllocateNode() returns (r: int)
      requires nodes.Length >= 1
      ensures r == Allocate(nodes[..])
    {
      for i := 1 to nodes.Length
        invariant Allocate(nodes[..]) == AllocateFrom(nodes[..], i)
      {
        if !Used(nodes[i]) {
          return i;
        }
      }
      r := -1;
    }

    // ---------------------------------------------------------- persistence

    /** fs_disk_save: afterwards the disk holds the table, or a prefix of its image over the old contents. */
    method DiskSave() returns (rc: int)
      requires nodes.Length == MAX_FILES && AllShaped(nodes[..])
      modifies this`persistence, drive
      ensures rc == 0 || rc == 1
      ensures rc == 0 ==> persistence && Holds(drive.medium, EncodeTable(nodes[..]))
      ensures rc == 1 ==> persistence == old(persistence)
      ensures drive.present ==> SaveShape(drive, old(drive.medium), old(drive.calls), nodes[..])
      ensures Working() ==> rc == 0
      ensures !drive.present ==> rc == 1 && drive.medium == old(drive.medium)
    {
      EncodedLength(nodes[..]);
      var raw := EncodeTable(nodes[..]);
      rc := SaveRaw(drive, raw);
      if rc == 0 {
        SaveHolds(old(drive.medium), raw);
        assert drive.medium == Written(old(drive.medium), Image(raw), |Image(raw)|);
        persistence := true;
      }
    }

    method PersistIfEnabled()
      requires Sound()
      modifies this`persistence, drive
      ensures persistence == old(persistence)
      ensures Valid()
      ensures if Saves() then SaveShape(drive, old(drive.medium), old(drive.calls), nodes[..])
              else drive.medium == old(drive.medium)
    {
      if !booting && persistence {
        var _ := DiskSave();
      }
    }

    /** fs_disk_load: the table is replaced, partly replaced from its start, or untouched. */
    method DiskLoad() returns (rc: int)
      requires nodes.Length == MAX_FILES && AllShaped(nodes[..])
      modifies this`persistence, this`currentDir, nodes, drive`calls
      ensures rc == 0 ==> persistence && currentDir == ROOT
      ensures rc == 1 ==> persistence == old(persistence) && currentDir == old(currentDir)
      ensures LoadOutcome(drive, old(drive.calls), EncodeTable(old(nodes[..])), EncodeTable(nodes[..]), rc)
      ensures DecodeTable(EncodeTable(nodes[..])) == nodes[..]
    {
      var now;
      rc, now := LoadTable(drive, nodes[..]);
      ReplaceTable(now);
      if rc == 0 {
        currentDir := ROOT;
        persistence := true;
      }
    }

    method ReplaceTable(t: Table)
      requires |t| == nodes.Length
      modifies nodes
      ensures nodes[..] == t
    {
      for i := 0 to nodes.Length
        invariant nodes[..i] == t[..i]
      {
        nodes[i] := t[i];
      }
    }

    method DiskFormat() returns (rc: int)
      requires Valid()
      modifies this`persistence, drive
      ensures Sound()
      ensures drive.present ==> persistence
      ensures !drive.present ==> rc == 1 && persistence == old(persistence)
      ensures Working() ==> rc == 0 && Mirrored()
    {
      if !drive.present { return 1; }
      persistence := true;
      rc := DiskSave();
    }

    // ---------------------------------------------------------- the calls

    method ChangeDir(path: Text) returns (rc: int)
      requires Valid() && PathFits(currentDir, path)
      modifies this`currentDir
      ensures Valid() && TableReply(State(), rc) == TableStep(old(State()), Op.ChangeDir(path))
      ensures rc == 0 <==> IsDirIn(Abs(nodes[..]), Resolve(old(currentDir), path))
      ensures currentDir == if rc == 0 then Resolve(old(currentDir), path) else old(currentDir)
    {
      ghost var s := State();
      ResolvedLooksUp(currentDir, path);
      AbsFind(nodes[..], Resolve(currentDir, path));
      var resolved := Resolver.ResolvePath(currentDir, path);
      var i := FindNode(resolved);
      if i < 0 || nodes[i].kind != DIR {
        return 1;
      }
      currentDir := resolved;
      rc := 0;
    }

    // Each mutating call resolves its path, changes the table, and saves when it succeeded.

    /** Slot `i` becomes the new node; its data bytes stay as they were. */
    method ClaimNode(i: nat, resolved: Text, kind: int, parent: int)
      requires i < nodes.Length && Shaped(nodes[i]) && IsText(resolved)
      modifies nodes
      ensures nodes[..] == old(nodes[..])[i := NewNode(old(nodes[i]), resolved, kind, parent)]
    {
      var name := CString.PathGetFilename(resolved);
      nodes[i] := nodes[i].(used := 1, kind := kind, parent := parent, size := 0,
                            name := Store(nodes[i].name, MAX_NAME, name),
                            path := Store(nodes[i].path, MAX_PATH, resolved));
    }

    method CreateAt(resolved: Text, kind: int) returns (rc: int)
      requires nodes.Length == MAX_FILES && AllShaped(nodes[..]) && IsText(resolved)
      modifies nodes
      ensures Outcome(nodes[..], rc) == Create(old(nodes[..]), resolved, kind)
    {
      var found := FindNode(resolved);
      if found >= 0 { return 1; }
      var parent := FindParentNode(resolved);
      if parent < 0 { return 1; }
      var i := AllocateNode();
      if i < 0 { return 1; }
      assert Shaped(nodes[..][i]);
      ClaimNode(i, resolved, kind, parent);
      rc := 0;
    }

    /** fs_create_file and fs_create_dir up to the save: while the machine boots there is none. */
    method MakeNode(path: Text, kind: int) returns (rc: int)
      requires nodes.Length == MAX_FILES && AllShaped(nodes[..]) && (kind == FILE || kind == DIR)
      requires CwdOk(currentDir) && PathFits(currentDir, path)
      modifies nodes
      ensures Outcome(nodes[..], rc) == Create(old(nodes[..]), ResolveText(currentDir, path), kind)
    {
      var resolved := Resolver.ResolvePath(currentDir, path);
      ResolvedLooksUp(currentDir, path);
      rc := CreateAt(resolved, kind);
    }

    /** fs_create_file and fs_create_dir, which differ only in the kind they store. */
    method CreateNode(path: Text, kind: int) returns (rc: int)
      requires Valid() && PathFits(currentDir, path) && (kind == FILE || kind == DIR)
      modifies this`persistence, nodes, drive
      ensures Valid() && persistence == old(persistence)
      ensures State() == InTable(old(State()), Outcome(nodes[..], rc)).state
      ensures Outcome(nodes[..], rc) == Create(old(nodes[..]), ResolveText(old(currentDir), path), kind)
      ensures SavedAfter(old(drive.medium), old(drive.calls), rc)
    {
      ResolvedLooksUp(currentDir, path);
      CreateKeepsTree(nodes[..], Resolve(currentDir, path), kind);
      rc := MakeNode(path, kind);
      if rc == 0 {
        PersistIfEnabled();
      }
    }

    method DeleteAt(resolved: Text) returns (rc: int)
      requires nodes.Length == MAX_FILES
      modifies nodes
      ensures Outcome(nodes[..], rc) == Delete(old(nodes[..]), resolved)
    {
      var i := FindNode(resolved);
      if i <= 0 { return 1; }
      if nodes[i].kind == DIR {
        for j := 0 to MAX_FILES
          modifies {}
          invariant forall k | 0 <= k < j :: !(Used(nodes[k]) && nodes[k].parent == i)
        {
          if Used(nodes[j]) && nodes[j].parent == i {
            assert nodes[..][j] == nodes[j];
            return 1;
          }
        }
        assert !HasChild(nodes[..], i);
      }
      nodes[i] := nodes[i].(used := 0);
      rc := 0;
    }

    /** fs_delete. */
    method DeleteNode(path: Text) returns (rc: int)
      requires Valid() && PathFits(currentDir, path)
      modifies this`persistence, nodes, drive
      ensures Valid() && persistence == old(persistence) && currentDir == old(currentDir)
      ensures Outcome(nodes[..], rc) == Delete(old(nodes[..]), Resolve(old(currentDir), path))
      ensures SavedAfter(old(drive.medium), old(drive.calls), rc)
    {
      var resolved := Resolver.ResolvePath(currentDir, path);
      DeleteKeepsTree(nodes[..], resolved);
      rc := DeleteAt(resolved);
      if rc == 0 {
        PersistIfEnabled();
      }
    }

    /** The bytes `bytes` go to offset `at` of file `i`. */
    method FillNode(i: nat, at: nat, bytes: seq<byte>)
      requires i < nodes.Length && at + |bytes| <= |nodes[i].data|
      modifies nodes
      ensures nodes[..] == old(nodes[..])[i := Overwrite(old(nodes[i]), at, bytes)]
    {
      nodes[i] := Overwrite(nodes[i], at, bytes);
    }

    /** fs_write_file up to the save. */
    method FillFile(path: Text, bytes: seq<byte>) returns (rc: int)
      requires nodes.Length == MAX_FILES && AllShaped(nodes[..]) && CwdOk(currentDir) && PathFits(currentDir, path)
      modifies nodes
      ensures Outcome(nodes[..], rc) == Write(old(nodes[..]), Resolve(currentDir, path), bytes)
    {
      var resolved := Resolver.ResolvePath(currentDir, path);
      var i := FindNode(resolved);
      if i < 0 || nodes[i].kind != FILE { return 1; }
      if |bytes| > MAX_FILE_SIZE { return 1; }
      assert Shaped(nodes[..][i]);
      FillNode(i, 0, bytes);
      rc := 0;
    }

    /** fs_write_file. */
    method WriteNode(path: Text, bytes: seq<byte>) returns (rc: int)
      requires Valid() && PathFits(currentDir, path)
      modifies this`persistence, nodes, drive
      ensures Valid() && persistence == old(persistence) && currentDir == old(currentDir)
      ensures Outcome(nodes[..], rc) == Write(old(nodes[..]), Resolve(old(currentDir), path), bytes)
      ensures SavedAfter(old(drive.medium), old(drive.calls), rc)
    {
      WriteKeepsTree(nodes[..], Resolve(currentDir, path), bytes);
      rc := FillFile(path, bytes);
      if rc == 0 {
        PersistIfEnabled();
      }
    }

    /** fs_append_file; the sum of the sizes stays below 2^32. */
    method AppendNode(path: Text, bytes: seq<byte>) returns (rc: int)
      requires Valid() && PathFits(currentDir, path) && |bytes| < TWO32 - MAX_FILE_SIZE
      modifies this`persistence, nodes, drive
      ensures Valid() && persistence == old(persistence) && currentDir == old(currentDir)
      ensures Outcome(nodes[..], rc) == Append(old(nodes[..]), Resolve(old(currentDir), path), bytes)
      ensures SavedAfter(old(drive.medium), old(drive.calls), rc)
    {
      var resolved := Resolver.ResolvePath(currentDir, path);
      WriteKeepsTree(nodes[..], resolved, bytes);
      var i := FindNode(resolved);
      if i < 0 || nodes[i].kind != FILE { return 1; }
      if nodes[i].size + |bytes| > MAX_FILE_SIZE { return 1; }
      FillNode(i, nodes[i].size, bytes);
      PersistIfEnabled();
      rc := 0;
    }

    /** The disk after calls that saved these tables, in this order. */
    ghost predicate SavedAs(before: Medium, tables: seq<Table>)
      reads this, drive
    {
      if Saves() then Layered(drive.medium, before, Images(tables), TABLE_BYTES) else drive.medium == before
    }

    lemma SavedOnce(before: Medium, calls: nat, rc: int)
      requires Sound() && SavedAfter(before, calls, rc)
      ensures SavedAs(before, if rc == 0 then [nodes[..]] else [])
    {
      if Saves() {
        if rc == 0 {
          SaveIsLayer(drive, before, calls, nodes[..]);
        } else {
          NoSaves(before, TABLE_BYTES);
        }
      }
    }

    lemma SavedNothing()
      ensures SavedAs(drive.medium, [])
    {
      NoSaves(drive.medium, TABLE_BYTES);
    }

    lemma SavedThen(mid: Medium, before: Medium, a: seq<Table>, b: seq<Table>)
      requires if Saves() then Layered(mid, before, Images(a), TABLE_BYTES) else mid == before
      requires SavedAs(mid, b)
      ensures SavedAs(before, a + b)
    {
      if Saves() {
        SavesJoin(drive.medium, mid, before, Images(a), Images(b), TABLE_BYTES);
        ImagesJoin(a, b);
      }
    }

    /** The two calls inside fs_copy, each with its own save. */
    method CopyInto(i: nat, dest: Text) returns (rc: int)
      requires Valid() && PathFits(currentDir, dest) && i < MAX_FILES && IsFileAt(nodes[..], i) && Used(nodes[i])
      modifies this`persistence, nodes, drive
      ensures Valid() && persistence == old(persistence) && currentDir == old(currentDir)
      ensures var to := ResolveText(old(currentDir), dest);
              var made := Create(old(nodes[..]), to, FILE);
              Outcome(nodes[..], rc) ==
              if made.rc != 0 then made else Write(made.table, to, made.table[i].data[..made.table[i].size])
      ensures SavedAs(old(drive.medium), CopySaves(old(nodes[..]), i, ResolveText(old(currentDir), dest)))
    {
      rc := CreateNode(dest, FILE);
      SavedOnce(old(drive.medium), old(drive.calls), rc);
      if rc != 0 { return 1; }
      ghost var medium, calls, made := drive.medium, drive.calls, nodes[..];
      assert ContentOk(nodes[..][i]);
      rc := WriteNode(dest, nodes[i].data[..nodes[i].size]);
      SavedOnce(medium, calls, rc);
      SavedThen(medium, old(drive.medium), [made], if rc == 0 then [nodes[..]] else []);
    }

    /** fs_copy. */
    method CopyNode(src: Text, dest: Text) returns (rc: int)
      requires Valid() && PathFits(currentDir, src) && PathFits(currentDir, dest)
      modifies this`persistence, nodes, drive
      ensures Valid() && persistence == old(persistence) && currentDir == old(currentDir)
      ensures Outcome(nodes[..], rc) ==
              Copy(old(nodes[..]), Resolve(old(currentDir), src), ResolveText(old(currentDir), dest))
      ensures SavedAs(old(drive.medium), StepSaves(old(State()), CopyFile(src, dest)))
    {
      SavedNothing();
      var from := Resolver.ResolvePath(currentDir, src);
      var i := FindNode(from);
      if i < 0 || nodes[i].kind != FILE { return 1; }
      rc := CopyInto(i, dest);
    }

    /** rebuild_child_paths: every path below `parent` becomes what it is in `goal`; nothing else changes. */
    method RebuildChildPaths(parent: nat, ghost goal: Table)
      requires nodes.Length == MAX_FILES && WellFormed(goal) && parent < MAX_FILES
      requires ReadyBelow(nodes[..], goal, parent)
      modifies nodes
      ensures forall j | 0 <= j < MAX_FILES ::
                nodes[j] == if Below(goal, parent, j) then goal[j] else old(nodes[..])[j]
      decreases MAX_PATH - |goal[parent].path.text|
    {
      ghost var before := nodes[..];
      for i := 0 to MAX_FILES
        invariant BranchesDone(nodes[..], before, goal, parent, i)
      {
        ghost var now := nodes[..];
        assert SameLinks(before[i], goal[i]) && SameLinks(now[i], goal[i]);
        if Used(nodes[i]) && nodes[i].parent == parent {
          ChildIsReady(before, now, goal, parent, i);
          var next := Join(nodes[parent].path.text, nodes[i].name.text);
          nodes[i] := nodes[i].(path := Store(nodes[i].path, MAX_PATH, next));
          assert nodes[..] == now[i := goal[i]];
          if nodes[i].kind == DIR {
            PathIsAbsolute(goal, i);
            ParentIsShorter(goal, i);
            RebuildChildPaths(i, goal);
          } else {
            forall j | 0 <= j < MAX_FILES ensures !Below(goal, i, j) {
              if Below(goal, i, j) { BelowDirectory(goal, i, j); }
            }
          }
          ChildIsDone(before, now, nodes[..], goal, parent, i);
        } else {
          NotAChild(before, now, goal, parent, i);
        }
      }
    }

    /** Node `i` re-parented, renamed, and the paths below it rebuilt. */
    method Rehang(i: nat, parent: nat, from: Text, to: Text)
      requires nodes.Length == MAX_FILES && WellFormed(nodes[..]) && MoveApplies(nodes[..], i, from, to, parent)
      modifies nodes
      ensures nodes[..] == Rehung(old(nodes[..]), i, parent, to)
    {
      ghost var t := nodes[..];
      ghost var goal := Rehung(t, i, parent, to);
      var name := CString.PathGetFilename(to);
      assert Shaped(t[i]);
      nodes[i] := nodes[i].(parent := parent, name := Store(nodes[i].name, MAX_NAME, name),
                            path := Store(nodes[i].path, MAX_PATH, to));
      RehungIsReady(t, nodes[..], i, from, to, parent);
      if nodes[i].kind == DIR {
        RebuildChildPaths(i, goal);
        assert nodes[..] == goal;
      }
    }

    method MoveAt(from: Text, to: Text) returns (rc: int)
      requires Sound()
      requires IsLookupPath(to) && MoveIsSafe(Abs(nodes[..]), from, to)
      modifies nodes
      ensures Sound() && rc == Move(old(nodes[..]), from, to).rc && nodes[..] == Move(old(nodes[..]), from, to).table
      ensures rc != 0 ==> nodes[..] == old(nodes[..])
    {
      var i := FindNode(from);
      if i <= 0 { return 1; }
      var taken := FindNode(to);
      if taken >= 0 { return 1; }
      var parent := FindParentNode(to);
      if parent < 0 { return 1; }
      MoveIsReady(nodes[..], from, to);
      MoveKeepsTree(nodes[..], i, from, to, parent);
      Rehang(i, parent, from, to);
      rc := 0;
    }

    method MoveAndSave(from: Text, to: Text) returns (rc: int)
      requires Valid() && IsLookupPath(to) && MoveIsSafe(Abs(nodes[..]), from, to)
      modifies this`persistence, nodes, drive
      ensures Valid() && persistence == old(persistence) && currentDir == old(currentDir)
      ensures Outcome(nodes[..], rc) == Move(old(nodes[..]), from, to)
      ensures SavedAfter(old(drive.medium), old(drive.calls), rc)
    {
      rc := MoveAt(from, to);
      if rc == 0 {
        PersistIfEnabled();
      }
    }

    /** fs_move. */
    method MoveNode(src: Text, dest: Text) returns (rc: int)
      requires Valid() && PathFits(currentDir, src) && PathFits(currentDir, dest)
      requires MoveIsSafe(Abs(nodes[..]), Resolve(currentDir, src), Resolve(currentDir, dest))
      modifies this`persistence, nodes, drive
      ensures Valid() && persistence == old(persistence) && currentDir == old(currentDir)
      ensures Outcome(nodes[..], rc) ==
              Move(old(nodes[..]), Resolve(old(currentDir), src), ResolveText(old(currentDir), dest))
      ensures SavedAfter(old(drive.medium), old(drive.calls), rc)
    {
      ghost var t := nodes[..];
      var from := Resolver.ResolvePath(currentDir, src);
      var to := Resolver.ResolvePath(currentDir, dest);
      assert nodes[..] == t;
      assert IsLookupPath(to) by { ResolvedLooksUp(currentDir, dest); }
      rc := MoveAndSave(from, to);
    }

    // -------------------------------------------------------------- queries

    /** fs_read_file: the first bytes of a file, or -1. */
    method ReadNode(path: Text, maxSize: nat) returns (count: int, bytes: seq<byte>)
      requires Valid() && PathFits(currentDir, path)
      ensures var m, p := Abs(nodes[..]), Resolve(currentDir, path);
        && (IsFileIn(m, p) ==> bytes == m[p].content[..Min(|m[p].content|, maxSize)] && count == |bytes|)
        && (!IsFileIn(m, p) ==> count == -1)
    {
      var resolved := Resolver.ResolvePath(currentDir, path);
      AbsFind(nodes[..], resolved);
      var i := FindNode(resolved);
      if i < 0 || nodes[i].kind != FILE { return -1, []; }
      assert ContentOk(nodes[..][i]);
      count := Min(nodes[i].size, maxSize);
      bytes := nodes[i].data[..count];
    }

    /** fs_list_dir: the slots it prints, in table order. */
    method ListDir(path: Text) returns (rc: int, slots: seq<nat>)
      requires Valid() && PathFits(currentDir, path)
      ensures rc == 0 <==> IsDirIn(Abs(nodes[..]), Resolve(currentDir, path))
      ensures slots == if rc == 0 then Children(nodes[..], Find(nodes[..], Resolve(currentDir, path)), nodes.Length)
                       else []
    {
      var resolved := Resolver.ResolvePath(currentDir, path);
      AbsFind(nodes[..], resolved);
      slots := [];
      var dir := FindNode(resolved);
      if dir < 0 || nodes[dir].kind != DIR { return 1, []; }
      for i := 0 to MAX_FILES
        invariant slots == Children(nodes[..], dir, i)
      {
        if Used(nodes[i]) && nodes[i].parent == dir {
          slots := slots + [i];
        }
      }
      rc := 0;
    }

    /** fs_exists. */
    method Exists(path: Text) returns (found: bool)
      requires Valid() && PathFits(currentDir, path)
      ensures found <==> Resolve(currentDir, path) in Abs(nodes[..])
    {
      var resolved := Resolver.ResolvePath(currentDir, path);
      AbsFind(nodes[..], resolved);
      var i := FindNode(resolved);
      found := i >= 0;
    }

    // ----------------------------------------------------------------- runs

    /** A call that changes the table and then saves it. */
    method Change(op: Op) returns (rc: int)
      requires Valid() && Admissible(AbsState(State()), op) && !op.ChangeDir? && !op.CopyFile?
      modifies this`persistence, nodes, drive
      ensures Valid() && persistence == old(persistence)
      ensures TextArguments(op) && TableReply(State(), rc) == TableStep(old(State()), op)
      ensures SavedAfter(old(drive.medium), old(drive.calls), rc)
    {
      AdmissibleIsText(AbsState(State()), op);
      match op
      case CreateFile(path) => rc := CreateNode(path, FILE);
      case CreateDir(path) => rc := CreateNode(path, DIR);
      case DeletePath(path) => rc := DeleteNode(path);
      case MovePath(src, dest) => rc := MoveNode(src, dest);
      case WriteFile(path, bytes) => rc := WriteNode(path, bytes);
      case AppendFile(path, bytes) => rc := AppendNode(path, bytes);
    }

    method Exec(op: Op) returns (rc: int)
      requires Valid() && Admissible(AbsState(State()), op)
      modifies this`persistence, this`currentDir, nodes, drive
      ensures Valid() && persistence == old(persistence)
      ensures TextArguments(op) && TableReply(State(), rc) == TableStep(old(State()), op)
      ensures SavedAs(old(drive.medium), StepSaves(old(State()), op))
    {
      AdmissibleIsText(AbsState(State()), op);
      if op.ChangeDir? {
        SavedNothing();
        rc := ChangeDir(op.path);
      } else if op.CopyFile? {
        rc := CopyNode(op.src, op.dest);
      } else {
        rc := Change(op);
        SavedOnce(old(drive.medium), old(drive.calls), rc);
      }
    }

    /**
     * Any run of calls: the tree stays well formed, refines the path map, and stays mirrored on disk. On a disk that
     * refuses requests each sector is what one of the run's saves writes there, or older, and no sector is newer than
     * an earlier one.
     */
    method Run(ops: seq<Op>)
      requires Valid() && RunAdmissible(AbsState(State()), ops)
      modifies this`persistence, this`currentDir, nodes, drive
      ensures Valid() && persistence == old(persistence)
      ensures State() == TableRun(old(State()), ops)
      ensures AbsState(State()) == TreeRun(AbsState(old(State())), ops)
      ensures SavedAs(old(drive.medium), RunSaves(old(State()), ops))
    {
      ghost var s, saved := State(), [];
      ReachedStart(s, ops);
      SavedNothing();
      for i := 0 to |ops|
        invariant Valid() && persistence == old(persistence)
        invariant Reached(s, ops, i, State(), saved) && SavedAs(old(drive.medium), saved)
      {
        saved := Advance(s, ops, i, saved, old(drive.medium));
      }
      ReachedEnd(s, ops, State(), saved);
      RunRefines(s, ops);
    }

    /** One more call of a run. */
    method Advance(ghost s: TableState, ops: seq<Op>, i: nat, ghost saved: seq<Table>, ghost before: Medium)
      returns (ghost more: seq<Table>)
      requires Valid() && i < |ops| && Reached(s, ops, i, State(), saved) && SavedAs(before, saved)
      modifies this`persistence, this`currentDir, nodes, drive
      ensures Valid() && persistence == old(persistence)
      ensures Reached(s, ops, i + 1, State(), more) && SavedAs(before, more)
    {
      ghost var now, medium := State(), drive.medium;
      ReachedNext(s, ops, i, now, saved);
      var _ := Exec(ops[i]);
      SavedThen(medium, before, saved, StepSaves(now, ops[i]));
      more := saved + StepSaves(now, ops[i]);
    }

    // -------------------------------------------------------------- booting

    // Booting is about the medium `m` and the requests from number `calls` on.

    /** The load at boot is complete. */
    ghost predicate Loads(m: Medium, calls: nat) {
      drive.present && HeaderOnDisk(m, TABLE_BYTES) && Served(drive, calls, 1 + DataSectors(TABLE_BYTES))
    }

    /** It finds the header and then stops at a data sector. */
    ghost predicate LoadStops(m: Medium, calls: nat) {
      drive.present && HeaderOnDisk(m, TABLE_BYTES) && drive.answers(calls) && !Loads(m, calls)
    }

    ghost predicate HasTree(m: Medium) {
      exists t: Table :: WellFormed(t) && Holds(m, EncodeTable(t))
    }

    /** A boot now would not find anything but a tree. */
    ghost predicate Bootable()
      reads this, drive
    {
      !LoadStops(drive.medium, drive.calls) && (Loads(drive.medium, drive.calls) ==> HasTree(drive.medium))
    }

    /** The tree on disk, and the number of its data sectors that are loaded before a request is refused. */
    ghost predicate PartlyLoaded(m: Medium, calls: nat, t: Table, k: nat) {
      && WellFormed(t) && Holds(m, EncodeTable(t))
      && k < DataSectors(TABLE_BYTES) && Served(drive, calls, k + 1) && !drive.answers(calls + k + 1)
    }

    /** Memory is what the disk holds; that is a valid volume exactly when it is a tree. */
    ghost predicate FromDisk(m: Medium)
      reads this, nodes, drive
    {
      && drive.medium == m && Holds(m, EncodeTable(nodes[..])) && (Valid() <==> HasTree(m))
      && forall t: Table | WellFormed(t) && Holds(m, EncodeTable(t)) :: nodes[..] == t
    }

    /** Memory is the default tree planted over `p`; its save began with request `calls`. */
    ghost predicate FromDefault(m: Medium, calls: nat, p: Table)
      reads this, nodes, drive
    {
      && AllShaped(p) && nodes[..] == DefaultTable(p) && (Valid() <==> WellFormed(nodes[..]))
      && if drive.present then SaveShape(drive, m, calls, nodes[..]) else drive.medium == m
    }

    /** Memory is the default tree planted over the first sectors of `t`; its save began with request `at`. */
    ghost predicate FromPart(m: Medium, calls: nat, blank: Table, t: Table, k: nat, at: nat)
      requires IsBlank(blank)
      reads this, nodes, drive
    {
      PartlyLoaded(m, calls, t, k) && at == calls + k + 2 && FromDefault(m, at, Partial(t, blank, k))
    }

    /** What a boot leaves in memory and on disk, from cleared memory. */
    ghost predicate Boots(m: Medium, calls: nat, blank: Table)
      reads this, nodes, drive
    {
      if Loads(m, calls) then FromDisk(m)
      else if LoadStops(m, calls) then
        IsBlank(blank) && exists t: Table, k: nat, at: nat :: FromPart(m, calls, blank, t, k, at)
      else IsBlank(blank) && FromDefault(m, calls + 1, blank) && Valid()
    }

    method MakeDefault(path: Text, kind: int)
      requires currentDir == ROOT && nodes.Length == MAX_FILES && AllShaped(nodes[..])
      requires CwdOk(path) && (kind == FILE || kind == DIR)
      modifies nodes
      ensures nodes[..] == Made(old(nodes[..]), path, kind)
    {
      RootIsCanonical();
      ResolveOfCanonical(ROOT, path);
      var _ := MakeNode(path, kind);
    }

    method MakeTree(progs: Text, home: Text, readme: Text, text: seq<byte>)
      requires currentDir == ROOT && nodes.Length == MAX_FILES && AllShaped(nodes[..])
      requires CwdOk(progs) && CwdOk(home) && CwdOk(readme)
      modifies nodes
      ensures nodes[..] == Planted(old(nodes[..]), progs, home, readme, text)
    {
      RootIsCanonical();
      ghost var t := nodes[..];
      assert Shaped(t[0]);
      nodes[0] := RootNode(nodes[0]);
      assert nodes[..] == Rooted(t);
      MakeDefault(progs, DIR);
      MakeDefault(home, DIR);
      MakeDefault(readme, FILE);
      ResolveOfCanonical(ROOT, readme);
      var _ := FillFile(readme, text);
    }

    /** create_default_tree, over whatever is in memory; nothing is saved while the machine boots. */
    method CreateDefaultTree()
      requires booting && currentDir == ROOT && nodes.Length == MAX_FILES && AllShaped(nodes[..])
      modifies nodes
      ensures nodes[..] == DefaultTable(old(nodes[..]))
    {
      DefaultPaths();
      MakeTree(PROGS, HOME, README, WELCOME);
    }

    method ClearNodes()
      requires nodes.Length == MAX_FILES
      modifies nodes
      ensures nodes[..] == BLANK_TABLE && IsBlank(nodes[..])
    {
      for i := 0 to MAX_FILES
        invariant forall k | 0 <= k < i :: nodes[k] == ZERO_NODE
      {
        nodes[i] := ZERO_NODE;
      }
      assert nodes[..] == BLANK_TABLE;
      BlankIsShaped();
    }

    /**
     * fs_init. A complete load gives what the disk holds. Otherwise the default tree is planted: over the cleared
     * table, or, when the load stopped at a data sector, over the slots already loaded. Either way it is then saved.
     */
    method Init()
      requires nodes.Length == MAX_FILES && (LoadStops(drive.medium, drive.calls) ==> HasTree(drive.medium))
      modifies this, nodes, drive
      ensures !booting && currentDir == ROOT && (Working() ==> persistence)
      ensures Boots(old(drive.medium), old(drive.calls), BLANK_TABLE)
    {
      ClearNodes();
      currentDir := ROOT;
      persistence := false;
      booting := true;
      if drive.present {
        BootFromDisk(BLANK_TABLE);
      } else {
        DefaultTreeIs(BLANK_TABLE);
        RootIsCanonical();
        CreateDefaultTree();
        booting := false;
      }
    }

    method BootFromDisk(ghost blank: Table)
      requires drive.present && nodes.Length == MAX_FILES && IsBlank(blank) && nodes[..] == blank
      requires booting && currentDir == ROOT && (LoadStops(drive.medium, drive.calls) ==> HasTree(drive.medium))
      modifies this, nodes, drive
      ensures !booting && currentDir == ROOT && (Working() ==> persistence)
      ensures Boots(old(drive.medium), old(drive.calls), blank)
    {
      RootIsCanonical();
      var rc, t, k := LoadAtBoot();
      if rc == 0 {
        booting := false;
      } else {
        PlantOver(old(drive.calls), blank, t, k);
      }
    }

    /** The default tree over the cleared table, or over what was loaded before the load stopped. */
    method PlantOver(ghost calls: nat, ghost blank: Table, ghost t: Table, ghost k: nat)
      requires booting && currentDir == ROOT && nodes.Length == MAX_FILES && AllShaped(nodes[..]) && IsBlank(blank)
      requires drive.present && !Loads(drive.medium, calls)
      requires if LoadStops(drive.medium, calls)
               then PartlyLoaded(drive.medium, calls, t, k) && nodes[..] == Partial(t, blank, k)
                    && drive.calls == calls + k + 2
               else nodes[..] == blank && drive.calls == calls + 1
      modifies this, nodes, drive
      ensures !booting && currentDir == ROOT && (Working() ==> persistence)
      ensures Boots(old(drive.medium), calls, blank)
    {
      ghost var m, p, stops := drive.medium, nodes[..], LoadStops(drive.medium, calls);
      ghost var q := if stops then Partial(t, blank, k) else blank;
      ghost var now := if stops then calls + k + 2 else calls + 1;
      assert p == q && drive.calls == now;
      PlantAndSave(p);
      assert FromDefault(m, now, p);
      SameDefault(m, now, p, q);
      if stops {
        BootsInPart(m, calls, blank, t, k, now);
      } else {
        BootsAfresh(m, calls, blank);
      }
    }

    lemma SameDefault(m: Medium, calls: nat, p: Table, q: Table)
      requires FromDefault(m, calls, p) && p == q
      ensures FromDefault(m, calls, q)
    {
    }

    lemma BootsInPart(m: Medium, calls: nat, blank: Table, t: Table, k: nat, at: nat)
      requires IsBlank(blank) && LoadStops(m, calls) && FromPart(m, calls, blank, t, k, at)
      ensures Boots(m, calls, blank)
    {
    }

    lemma BootedInPart(m: Medium, calls: nat, blank: Table) returns (t: Table, k: nat, at: nat)
      requires Boots(m, calls, blank) && !Loads(m, calls) && LoadStops(m, calls)
      ensures IsBlank(blank) && PartlyLoaded(m, calls, t, k)
      ensures at == calls + k + 2 && FromDefault(m, at, Partial(t, blank, k))
    {
      t, k, at :| FromPart(m, calls, blank, t, k, at);
    }

    lemma BootsAfresh(m: Medium, calls: nat, blank: Table)
      requires IsBlank(blank) && !Loads(m, calls) && !LoadStops(m, calls)
      requires FromDefault(m, calls + 1, blank)
      ensures Boots(m, calls, blank)
    {
      DefaultTreeIs(blank);
    }

    /** The default tree, and a first save. */
    method PlantAndSave(ghost p: Table)
      requires booting && currentDir == ROOT && nodes.Length == MAX_FILES && nodes[..] == p && AllShaped(p)
      modifies this, nodes, drive
      ensures !booting && currentDir == ROOT && (Working() ==> persistence)
      ensures FromDefault(old(drive.medium), old(drive.calls), p)
    {
      RootIsCanonical();
      ghost var m, calls := drive.medium, drive.calls;
      CreateDefaultTree();
      FirstSave();
      booting := false;
      DefaultMemory(m, calls, p);
    }

    lemma DefaultMemory(m: Medium, calls: nat, p: Table)
      requires nodes.Length == MAX_FILES && currentDir == ROOT && CwdOk(ROOT) && Mirrored()
      requires AllShaped(p) && nodes[..] == DefaultTable(p)
      requires if drive.present then SaveShape(drive, m, calls, nodes[..]) else drive.medium == m
      ensures FromDefault(m, calls, p)
    {
    }

    method FirstSave()
      requires nodes.Length == MAX_FILES && AllShaped(nodes[..])
      modifies this`persistence, drive
      ensures Mirrored() && (Working() ==> persistence)
      ensures if drive.present then SaveShape(drive, old(drive.medium), old(drive.calls), nodes[..])
              else drive.medium == old(drive.medium)
    {
      var _ := DiskSave();
    }

    /** The load at boot: the table on disk comes back whole, or in part, or not at all. */
    method LoadAtBoot() returns (rc: int, ghost t: Table, ghost k: nat)
      requires nodes.Length == MAX_FILES && AllShaped(nodes[..])
      requires LoadStops(drive.medium, drive.calls) ==> HasTree(drive.medium) && IsBlank(nodes[..])
      modifies this`persistence, this`currentDir, nodes, drive`calls
      ensures rc == 0 <==> Loads(drive.medium, old(drive.calls))
      ensures rc == 0 ==> persistence && currentDir == ROOT && Holds(drive.medium, EncodeTable(nodes[..]))
      ensures rc == 0 ==> forall t: Table | WellFormed(t) && Holds(drive.medium, EncodeTable(t)) :: nodes[..] == t
      ensures rc != 0 ==> persistence == old(persistence) && currentDir == old(currentDir) && AllShaped(nodes[..])
      ensures rc != 0 && !LoadStops(drive.medium, old(drive.calls)) ==>
                nodes[..] == old(nodes[..]) && (drive.present ==> drive.calls == old(drive.calls) + 1)
      ensures rc != 0 && LoadStops(drive.medium, old(drive.calls)) ==>
                && PartlyLoaded(drive.medium, old(drive.calls), t, k) && nodes[..] == Partial(t, old(nodes[..]), k)
                && drive.calls == old(drive.calls) + k + 2
    {
      ghost var before := nodes[..];
      EncodedLength(before);
      t, k := before, 0;
      rc := DiskLoad();
      if rc == 0 {
        LoadedHolds(drive.medium, EncodeTable(before), EncodeTable(nodes[..]));
        forall t: Table | WellFormed(t) && Holds(drive.medium, EncodeTable(t)) ensures nodes[..] == t {
          LoadRestoresTable(drive, old(drive.calls), before, nodes[..], t);
        }
      } else if LoadStops(drive.medium, old(drive.calls)) {
        t, k := StoppedLoad(before, nodes[..], old(drive.calls));
      } else {
        assert EncodeTable(nodes[..]) == EncodeTable(before);
      }
    }

    lemma StoppedLoad(before: Table, now: Table, calls: nat) returns (t: Table, k: nat)
      requires IsBlank(before) && DecodeTable(EncodeTable(now)) == now
      requires HasTree(drive.medium) && LoadStops(drive.medium, calls)
      requires LoadOutcome(drive, calls, EncodeTable(before), EncodeTable(now), 1)
      ensures PartlyLoaded(drive.medium, calls, t, k)
      ensures now == Partial(t, before, k) && AllShaped(now) && drive.calls == calls + k + 2
    {
      EncodedLength(before);
      t :| WellFormed(t) && Holds(drive.medium, EncodeTable(t));
      k := StoppingSector(drive, calls, EncodeTable(before), EncodeTable(now), TABLE_BYTES);
      LoadStopsPartway(drive, before, now, t, k);
      PartialIsLoose(t, before, k);
    }

    /** The first boot of a machine whose working disk was never written: the default tree, in memory and on disk. */
    method FirstBoot()
      requires nodes.Length == MAX_FILES && Working() && drive.medium == map[]
      modifies this, nodes, drive
      ensures Valid() && !booting && persistence && currentDir == ROOT
      ensures IsBlank(BLANK_TABLE) && nodes[..] == DefaultTable(BLANK_TABLE)
      ensures Abs(nodes[..]) == map[ROOT := Dir, PROGS := Dir, HOME := Dir, README := File(WELCOME)]
      ensures Holds(drive.medium, EncodeTable(nodes[..]))
    {
      NewDiskHasNoHeader(TABLE_BYTES);
      Init();
      DefaultTreeIs(BLANK_TABLE);
    }

    /** Loading back at any point, while the disk mirrors the table, changes nothing but the current directory. */
    method Reload() returns (rc: int)
      requires Valid() && !booting && persistence && Working()
      modifies this`persistence, this`currentDir, nodes, drive`calls
      ensures rc == 0 && Valid() && persistence && currentDir == ROOT
      ensures nodes[..] == old(nodes[..])
    {
      EncodedLength(nodes[..]);
      RootIsCanonical();
      ghost var t, k;
      rc, t, k := LoadAtBoot();
    }

    /** A boot from a disk that holds a tree and serves the load. */
    method BootInto(ghost t: Table)
      requires nodes.Length == MAX_FILES && drive.present && WellFormed(t) && Holds(drive.medium, EncodeTable(t))
      requires Served(drive, drive.calls, 1 + DataSectors(TABLE_BYTES))
      modifies this, nodes, drive
      ensures Valid() && !booting && currentDir == ROOT && nodes[..] == t && (Working() ==> persistence)
    {
      EncodedLength(t);
      Init();
    }

    /** After any run with persistence on, a reboot from a working disk restores the table and starts at the root. */
    method RunThenReboot(ops: seq<Op>)
      requires Valid() && !booting && persistence && Working() && RunAdmissible(AbsState(State()), ops)
      modifies this, nodes, drive
      ensures Valid() && !booting && persistence && currentDir == ROOT
      ensures nodes[..] == TableRun(old(State()), ops).table
      ensures Abs(nodes[..]) == TreeRun(AbsState(old(State())), ops).tree
    {
      Run(ops);
      BootInto(nodes[..]);
    }
  }
}
