/** What a reboot finds after the save of one call was cut short, and why every buffer the kernel wrote ends in NUL. */
module Recovery {
  import opened Bytes
  import opened Paths
  import opened NodeTable
  import opened TreeInvariant
  import opened PathMap
  import opened MoveRefinement
  import opened Runs
  import opened DefaultTree
  import opened Crash

  // ------------------------------------------------------------ sealed tables

  predicate AllSealed(t: Table) {
    AllShaped(t) && forall i | 0 <= i < |t| :: Sealed(t[i])
  }

  lemma StoreSeals(b: Buf, cap: nat, s: Text)
    requires cap > 0 && Terminated(b, cap) && IsText(s) && RawBytes(b)[cap - 1] == NUL
    ensures RawBytes(Store(b, cap, s))[cap - 1] == NUL
  {
  }

  lemma CreateSeals(t: Table, p: Text, kind: int)
    requires AllSealed(t) && WellFormed(t) && IsLookupPath(p) && (kind == FILE || kind == DIR)
    ensures AllSealed(Create(t, p, kind).table)
  {
    CreateKeepsTree(t, p, kind);
    if Create(t, p, kind).rc == 0 {
      NewSeals(t[Allocate(t)], p, kind, FindParent(t, p));
    }
  }

  lemma NewSeals(slot: Node, p: Text, kind: int, parent: int)
    requires Shaped(slot) && Sealed(slot) && IsText(p) && Shaped(NewNode(slot, p, kind, parent))
    ensures Sealed(NewNode(slot, p, kind, parent))
  {
    StoreSeals(slot.name, MAX_NAME, Filename(p));
    StoreSeals(slot.path, MAX_PATH, p);
  }

  lemma WriteSeals(t: Table, p: Text, bytes: seq<byte>)
    requires AllSealed(t) && WellFormed(t)
    ensures AllSealed(Write(t, p, bytes).table) && AllSealed(Append(t, p, bytes).table)
  {
    WriteKeepsTree(t, p, bytes);
  }

  lemma CopySeals(t: Table, from: Text, to: Text)
    requires AllSealed(t) && WellFormed(t) && IsLookupPath(to)
    ensures AllSealed(Copy(t, from, to).table)
  {
    var i, made := Find(t, from), Create(t, to, FILE);
    CreateSeals(t, to, FILE);
    CreateKeepsTree(t, to, FILE);
    if IsFileAt(t, i) && made.rc == 0 {
      WriteSeals(made.table, to, made.table[i].data[..made.table[i].size]);
    }
  }

  lemma NodeSeals(n: Node, name: Text, path: Text)
    requires Shaped(n) && Sealed(n) && IsText(name) && IsText(path)
    ensures var p := n.(path := Store(n.path, MAX_PATH, path)); Shaped(p) && Sealed(p)
    ensures var p := n.(name := Store(n.name, MAX_NAME, name), path := Store(n.path, MAX_PATH, path));
      Shaped(p) && Sealed(p)
  {
    StoreSeals(n.name, MAX_NAME, name);
    StoreSeals(n.path, MAX_PATH, path);
  }

  lemma RehungSeals(t: Table, i: nat, from: Text, to: Text, parent: nat)
    requires AllSealed(t) && WellFormed(t) && MoveApplies(t, i, from, to, parent)
    ensures AllSealed(Rehung(t, i, parent, to))
  {
    var r := Rehung(t, i, parent, to);
    forall j | 0 <= j < |r| ensures Shaped(r[j]) && Sealed(r[j]) {
      RehungFrame(t, i, from, to, parent, j);
      RehungNodeSeals(t, i, to, parent, j);
    }
  }

  lemma RehungNodeSeals(t: Table, i: nat, to: Text, parent: nat, j: nat)
    requires AllSealed(t) && WellFormed(t) && i < |t| && j < |t| && parent < |t| && IsLookupPath(to)
    ensures Shaped(RehungNode(t, i, parent, to, j)) && Sealed(RehungNode(t, i, parent, to, j))
  {
    var from := t[i].path.text;
    if j == i {
      NodeSeals(t[i], Filename(to), to);
    } else if |from| <= |t[j].path.text| {
      NodeSeals(t[j], [], to + t[j].path.text[|from|..]);
    }
  }

  lemma MoveSeals(t: Table, from: Text, to: Text)
    requires AllSealed(t) && WellFormed(t) && IsLookupPath(to) && MoveIsSafe(Abs(t), from, to)
    ensures AllSealed(Move(t, from, to).table)
  {
    RenameAlike(t, from, to);
    if CanRename(Abs(t), from, to) {
      var i, parent := SafeMove(t, from, to);
      RehungSeals(t, i, from, to, parent);
    }
  }

  lemma StepSeals(s: TableState, op: Op)
    requires StateOk(s) && TextArguments(op) && Admissible(AbsState(s), op) && AllSealed(s.table)
    ensures AllSealed(TableStep(s, op).state.table)
  {
    match op
    case ChangeDir(path) =>
    case CreateFile(path) =>
      ResolvedLooksUp(s.cwd, path);
      CreateSeals(s.table, Resolve(s.cwd, path), FILE);
    case CreateDir(path) =>
      ResolvedLooksUp(s.cwd, path);
      CreateSeals(s.table, Resolve(s.cwd, path), DIR);
    case DeletePath(path) =>
      DeleteKeepsTree(s.table, Resolve(s.cwd, path));
    case MovePath(src, dest) =>
      ResolvedLooksUp(s.cwd, dest);
      MoveSeals(s.table, Resolve(s.cwd, src), Resolve(s.cwd, dest));
    case CopyFile(src, dest) =>
      ResolvedLooksUp(s.cwd, dest);
      CopySeals(s.table, Resolve(s.cwd, src), Resolve(s.cwd, dest));
    case WriteFile(path, bytes) =>
      WriteSeals(s.table, Resolve(s.cwd, path), bytes);
    case AppendFile(path, bytes) =>
      WriteSeals(s.table, Resolve(s.cwd, path), bytes);
  }

  /** Every run keeps the last byte of each name and path buffer NUL, in free slots too. */
  lemma {:induction false} RunSeals(s: TableState, ops: seq<Op>)
    requires StateOk(s) && RunAdmissible(AbsState(s), ops) && AllSealed(s.table)
    ensures AllSealed(TableRun(s, ops).table)
    decreases |ops|
  {
    if ops != [] {
      AdmissibleIsText(AbsState(s), ops[0]);
      StepRefines(s, ops[0]);
      StepSeals(s, ops[0]);
      RunSeals(TableStep(s, ops[0]).state, ops[1..]);
    }
  }

  lemma RootSeals(blank: Table)
    requires IsBlank(blank)
    ensures AllSealed(Rooted(blank)) && WellFormed(Rooted(blank))
  {
    RootedIsTree(blank);
    StoreSeals(blank[0].name, MAX_NAME, ROOT);
    StoreSeals(blank[0].path, MAX_PATH, ROOT);
  }

  lemma PlantedSeals(blank: Table, progs: Text, home: Text, readme: Text, text: seq<byte>)
    requires IsBlank(blank) && IsLookupPath(progs) && IsLookupPath(home) && IsLookupPath(readme)
    ensures AllSealed(Planted(blank, progs, home, readme, text))
  {
    RootSeals(blank);
    var t0 := Rooted(blank);
    CreateSeals(t0, progs, DIR);
    var t1 := Made(t0, progs, DIR);
    CreateSeals(t1, home, DIR);
    var t2 := Made(t1, home, DIR);
    CreateSeals(t2, readme, FILE);
    WriteSeals(Made(t2, readme, FILE), readme, text);
  }

  /** The table of a new disk is sealed. */
  lemma DefaultSeals(blank: Table)
    requires IsBlank(blank)
    ensures AllSealed(DefaultTable(blank))
  {
    DefaultTexts();
    PlantedSeals(blank, PROGS, HOME, README, WELCOME);
  }

  // ------------------------------------------------------- one call cut short

  /** What the tree may be after a call whose save was cut short; nothing is said of moves. */
  ghost predicate Recovers(s: TreeState, op: Op, r: Tree) {
    match op
    case CreateFile(path) => r == s.tree || r == TreeStep(s, op).state.tree
    case CreateDir(path) => r == s.tree || r == TreeStep(s, op).state.tree
    case DeletePath(path) => r == s.tree || r == TreeStep(s, op).state.tree
    case WriteFile(path, bytes) => r == s.tree || IsPartWritten(s.tree, Resolve(s.cwd, path), bytes, r)
    case AppendFile(path, bytes) => Lengthened(s.tree, Resolve(s.cwd, path), r)
    case _ => true
  }

  /** The file has its new length and some of its new bytes, from the front. */
  ghost predicate IsPartWritten(m: Tree, p: Text, bytes: seq<byte>, r: Tree) {
    exists x: nat, rest: seq<byte> :: x + |rest| == |bytes| && r == m[p := File(bytes[..x] + rest)]
  }

  predicate SavesOnce(op: Op) {
    !op.ChangeDir? && !op.CopyFile? && !op.MovePath?
  }

  lemma TornFileIsPart(m: Tree, p: Text, buffer: seq<byte>, bytes: seq<byte>, r: Tree)
    requires |bytes| <= |buffer| && TornFile(m, p, buffer, bytes, r)
    ensures r == m || IsPartWritten(m, p, bytes, r)
  {
    if r != m {
      var x: nat :| x <= |bytes| && r == m[p := File(bytes[..x] + buffer[x..|bytes|])];
      assert x + |buffer[x..|bytes|]| == |bytes|;
    }
  }

  lemma CreateRecovers(t: Table, p: Text, kind: int, k: nat)
    requires WellFormed(t) && AllSealed(t) && IsLookupPath(p) && (kind == FILE || kind == DIR)
    requires Create(t, p, kind).rc == 0
    ensures var u := Torn(Create(t, p, kind).table, t, k);
      WellFormed(u) && (Abs(u) == Abs(t) || Abs(u) == Add(Abs(t), p, if kind == DIR then Dir else File([])).tree)
  {
    CreateTorn(t, p, kind, k);
    CreateStep(t, p, kind);
  }

  /** Whatever sector the save of a create, delete, write or append stops at, a reboot finds a tree: see `Recovers`. */
  lemma CallTorn(s: TableState, op: Op, after: Table, k: nat)
    requires StateOk(s) && TextArguments(op) && Admissible(AbsState(s), op) && AllSealed(s.table)
    requires SavesOnce(op) && TableStep(s, op).rc == 0 && after == TableStep(s, op).state.table && |after| == |s.table|
    ensures WellFormed(Torn(after, s.table, k)) && Recovers(AbsState(s), op, Abs(Torn(after, s.table, k)))
  {
    match op
    case CreateFile(path) =>
      ResolvedLooksUp(s.cwd, path);
      CreateRecovers(s.table, Resolve(s.cwd, path), FILE, k);
    case CreateDir(path) =>
      ResolvedLooksUp(s.cwd, path);
      CreateRecovers(s.table, Resolve(s.cwd, path), DIR, k);
    case DeletePath(path) =>
      DeleteTorn(s.table, Resolve(s.cwd, path), k);
      DeleteStep(s.table, Resolve(s.cwd, path));
    case WriteFile(path, bytes) =>
      var p := Resolve(s.cwd, path);
      WriteTorn(s.table, p, bytes, k);
      TornFileIsPart(Abs(s.table), p, s.table[Find(s.table, p)].data, bytes, Abs(Torn(after, s.table, k)));
    case AppendFile(path, bytes) =>
      AppendTorn(s.table, Resolve(s.cwd, path), bytes, k);
  }

  /** What a reboot may find after the call: the table before it, or a tree that `Recovers` allows. */
  ghost predicate Restored(s: TableState, op: Op, t: Table) {
    WellFormed(t) && (t == s.table || Recovers(AbsState(s), op, Abs(t)))
  }

  lemma TornIsRestored(s: TableState, op: Op, after: Table, k: nat)
    requires StateOk(s) && TextArguments(op) && Admissible(AbsState(s), op) && AllSealed(s.table)
    requires SavesOnce(op) && TableStep(s, op).rc == 0 && after == TableStep(s, op).state.table && |after| == |s.table|
    ensures Restored(s, op, Torn(after, s.table, k))
  {
    CallTorn(s, op, after, k);
  }
}
