/** Whole runs of filesystem calls: the node table refines the path map, call by call. */
module Runs {
  import opened Bytes
  import opened Paths
  import opened NodeTable
  import opened TreeInvariant
  import opened PathMap
  import opened MoveRefinement

  datatype Op =
    | ChangeDir(path: Text)
    | CreateFile(path: Text)
    | CreateDir(path: Text)
    | DeletePath(path: Text)
    | MovePath(src: Text, dest: Text)
    | CopyFile(src: Text, dest: Text)
    | WriteFile(path: Text, bytes: seq<byte>)
    | AppendFile(path: Text, bytes: seq<byte>)

  // ------------------------------------------------------- the reference run

  datatype TreeState = TreeState(tree: Tree, cwd: Text)

  datatype TreeReply = TreeReply(state: TreeState, rc: int)

  ghost function TreeStep(s: TreeState, op: Op): TreeReply {
    match op
    case ChangeDir(path) =>
      var p := Resolve(s.cwd, path);
      if IsDirIn(s.tree, p) then TreeReply(s.(cwd := p), 0) else TreeReply(s, 1)
    case CreateFile(path) => InTree(s, Add(s.tree, Resolve(s.cwd, path), File([])))
    case CreateDir(path) => InTree(s, Add(s.tree, Resolve(s.cwd, path), Dir))
    case DeletePath(path) => InTree(s, Remove(s.tree, Resolve(s.cwd, path)))
    case MovePath(src, dest) => InTree(s, Rename(s.tree, Resolve(s.cwd, src), Resolve(s.cwd, dest)))
    case CopyFile(src, dest) => InTree(s, Duplicate(s.tree, Resolve(s.cwd, src), Resolve(s.cwd, dest)))
    case WriteFile(path, bytes) => InTree(s, Put(s.tree, Resolve(s.cwd, path), bytes))
    case AppendFile(path, bytes) => InTree(s, Extend(s.tree, Resolve(s.cwd, path), bytes))
  }

  function InTree(s: TreeState, r: Result): TreeReply {
    TreeReply(s.(tree := r.tree), r.rc)
  }

  /** Exactly when each call succeeds; one that fails returns 1 and changes nothing. */
  lemma StepSucceedsIff(s: TreeState, op: Op)
    ensures match op
      case ChangeDir(path) => TreeStep(s, op).rc == 0 <==> IsDirIn(s.tree, Resolve(s.cwd, path))
      case CreateFile(path) => TreeStep(s, op).rc == 0 <==> IsFreeName(s.tree, Resolve(s.cwd, path))
      case CreateDir(path) => TreeStep(s, op).rc == 0 <==> IsFreeName(s.tree, Resolve(s.cwd, path))
      case DeletePath(path) =>
        var p := Resolve(s.cwd, path);
        TreeStep(s, op).rc == 0 <==>
          p in s.tree && p != ROOT && (s.tree[p].Dir? ==> forall q | q in s.tree && q != ROOT :: Dirname(q) != p)
      case MovePath(src, dest) =>
        var p, q := Resolve(s.cwd, src), Resolve(s.cwd, dest);
        TreeStep(s, op).rc == 0 <==> p in s.tree && p != ROOT && q !in s.tree && IsDirIn(s.tree, Dirname(q))
      case CopyFile(src, dest) =>
        TreeStep(s, op).rc == 0 <==> IsFileIn(s.tree, Resolve(s.cwd, src)) && IsFreeName(s.tree, Resolve(s.cwd, dest))
      case WriteFile(path, bytes) =>
        TreeStep(s, op).rc == 0 <==> IsFileIn(s.tree, Resolve(s.cwd, path)) && |bytes| <= 4096
      case AppendFile(path, bytes) =>
        var p := Resolve(s.cwd, path);
        TreeStep(s, op).rc == 0 <==> IsFileIn(s.tree, p) && |s.tree[p].content| + |bytes| <= 4096
    ensures TreeStep(s, op).rc != 0 ==> TreeStep(s, op) == TreeReply(s, 1)
    ensures TreeStep(s, op).state.cwd
         == if op.ChangeDir? && TreeStep(s, op).rc == 0 then Resolve(s.cwd, op.path) else s.cwd
  {
  }

  /** A path that is not taken, in a directory, in a tree with a slot to spare. */
  predicate IsFreeName(m: Tree, p: Text) {
    p !in m && IsDirIn(m, Dirname(p)) && |m| < 128
  }

  /** The call's path argument is a C string that fits the buffers of fs_resolve_path. */
  predicate PathFits(cwd: Text, path: Text) {
    IsText(path) && Fits(cwd, path)
  }

  /** What the code asks of its callers without checking it; appended sizes add up within 32 bits. */
  predicate Admissible(s: TreeState, op: Op) {
    match op
    case MovePath(src, dest) =>
      && PathFits(s.cwd, src) && PathFits(s.cwd, dest)
      && MoveIsSafe(s.tree, Resolve(s.cwd, src), Resolve(s.cwd, dest))
    case CopyFile(src, dest) => PathFits(s.cwd, src) && PathFits(s.cwd, dest)
    case AppendFile(path, bytes) => PathFits(s.cwd, path) && |bytes| < 0x1_0000_0000 - MAX_FILE_SIZE
    case _ => PathFits(s.cwd, op.path)
  }

  /** A directory moves outside itself, to where the paths below it still fit. */
  predicate MoveIsSafe(m: Tree, from: Text, to: Text) {
    CanRename(m, from, to) ==> !IsUnder(from, to) && RenameFits(m, from, to)
  }

  // ----------------------------------------------------------- the table run

  datatype TableState = TableState(table: Table, cwd: Text)

  datatype TableReply = TableReply(state: TableState, rc: int)

  function InTable(s: TableState, o: Outcome): TableReply {
    TableReply(s.(table := o.table), o.rc)
  }

  predicate CwdOk(cwd: Text) {
    IsText(cwd) && IsCanonical(cwd) && |cwd| < MAX_PATH
  }

  ghost predicate StateOk(s: TableState) {
    WellFormed(s.table) && CwdOk(s.cwd)
  }

  ghost predicate TextArguments(op: Op) {
    match op
    case MovePath(src, dest) => IsText(src) && IsText(dest)
    case CopyFile(src, dest) => IsText(src) && IsText(dest)
    case _ => IsText(op.path)
  }

  function ChangeTo(s: TableState, p: Text): TableReply {
    var i := Find(s.table, p);
    if i >= 0 && s.table[i].kind == DIR then TableReply(s.(cwd := p), 0) else TableReply(s, 1)
  }

  ghost function TableStep(s: TableState, op: Op): TableReply
    requires StateOk(s) && TextArguments(op)
  {
    match op
    case ChangeDir(path) => ChangeTo(s, Resolve(s.cwd, path))
    case CreateFile(path) => InTable(s, Create(s.table, ResolveText(s.cwd, path), FILE))
    case CreateDir(path) => InTable(s, Create(s.table, ResolveText(s.cwd, path), DIR))
    case DeletePath(path) => InTable(s, Delete(s.table, Resolve(s.cwd, path)))
    case MovePath(src, dest) => InTable(s, Move(s.table, Resolve(s.cwd, src), ResolveText(s.cwd, dest)))
    case CopyFile(src, dest) => InTable(s, Copy(s.table, Resolve(s.cwd, src), ResolveText(s.cwd, dest)))
    case WriteFile(path, bytes) => InTable(s, Write(s.table, Resolve(s.cwd, path), bytes))
    case AppendFile(path, bytes) => InTable(s, Append(s.table, Resolve(s.cwd, path), bytes))
  }

  /** A resolved path, known to be a C string. */
  function ResolveText(cwd: Text, path: Text): (p: Text)
    requires IsText(cwd) && IsText(path)
    ensures p == Resolve(cwd, path) && IsText(p)
  {
    ResolveIsCanonical(cwd, path);
    Resolve(cwd, path)
  }

  function AbsState(s: TableState): TreeState {
    TreeState(Abs(s.table), s.cwd)
  }

  // -------------------------------------------------------------- refinement

  lemma AdmissibleIsText(s: TreeState, op: Op)
    requires Admissible(s, op)
    ensures TextArguments(op)
  {
  }

  lemma ResolvedLooksUp(cwd: Text, path: Text)
    requires IsText(cwd) && PathFits(cwd, path)
    ensures CwdOk(Resolve(cwd, path)) && IsLookupPath(Resolve(cwd, path))
  {
    ResolveIsCanonical(cwd, path);
    CanonicalLooksUp(Resolve(cwd, path));
  }

  lemma CreateStep(t: Table, p: Text, kind: int)
    requires WellFormed(t) && IsLookupPath(p) && (kind == FILE || kind == DIR)
    ensures var o := Create(t, p, kind);
      WellFormed(o.table)
      && Result(Abs(o.table), o.rc) == Add(Abs(t), p, if kind == DIR then Dir else File([]))
  {
    CreateKeepsTree(t, p, kind);
    CreateRefines(t, p, kind);
  }

  lemma CopyStep(t: Table, from: Text, to: Text)
    requires WellFormed(t) && IsLookupPath(to)
    ensures var o := Copy(t, from, to);
      WellFormed(o.table) && Result(Abs(o.table), o.rc) == Duplicate(Abs(t), from, to)
  {
    CreateKeepsTree(t, to, FILE);
    CopyKeepsTree(t, from, to);
    CopyRefines(t, from, to);
  }

  lemma DeleteStep(t: Table, p: Text)
    requires WellFormed(t)
    ensures var o := Delete(t, p); WellFormed(o.table) && Result(Abs(o.table), o.rc) == Remove(Abs(t), p)
  {
    DeleteKeepsTree(t, p);
    DeleteRefines(t, p);
  }

  lemma WriteStep(t: Table, p: Text, bytes: seq<byte>)
    requires WellFormed(t)
    ensures var o := Write(t, p, bytes); WellFormed(o.table) && Result(Abs(o.table), o.rc) == Put(Abs(t), p, bytes)
    ensures var o := Append(t, p, bytes); WellFormed(o.table) && Result(Abs(o.table), o.rc) == Extend(Abs(t), p, bytes)
  {
    WriteKeepsTree(t, p, bytes);
    WriteRefines(t, p, bytes);
    AppendRefines(t, p, bytes);
  }

  /** One call keeps the tree and does what the path map says, return code included. */
  lemma StepRefines(s: TableState, op: Op)
    requires StateOk(s) && TextArguments(op) && Admissible(AbsState(s), op)
    ensures var r := TableStep(s, op);
      StateOk(r.state) && TreeReply(AbsState(r.state), r.rc) == TreeStep(AbsState(s), op)
  {
    match op
    case ChangeDir(path) =>
      ResolvedLooksUp(s.cwd, path);
      AbsFind(s.table, Resolve(s.cwd, path));
    case CreateFile(path) =>
      ResolvedLooksUp(s.cwd, path);
      CreateStep(s.table, Resolve(s.cwd, path), FILE);
    case CreateDir(path) =>
      ResolvedLooksUp(s.cwd, path);
      CreateStep(s.table, Resolve(s.cwd, path), DIR);
    case DeletePath(path) =>
      DeleteStep(s.table, Resolve(s.cwd, path));
    case MovePath(src, dest) =>
      ResolvedLooksUp(s.cwd, dest);
      MoveRefines(s.table, Resolve(s.cwd, src), Resolve(s.cwd, dest));
    case CopyFile(src, dest) =>
      ResolvedLooksUp(s.cwd, dest);
      CopyStep(s.table, Resolve(s.cwd, src), Resolve(s.cwd, dest));
    case WriteFile(path, bytes) =>
      WriteStep(s.table, Resolve(s.cwd, path), bytes);
    case AppendFile(path, bytes) =>
      WriteStep(s.table, Resolve(s.cwd, path), bytes);
  }

  ghost predicate RunAdmissible(s: TreeState, ops: seq<Op>)
    decreases |ops|
  {
    ops == [] || (Admissible(s, ops[0]) && RunAdmissible(TreeStep(s, ops[0]).state, ops[1..]))
  }

  ghost function TreeRun(s: TreeState, ops: seq<Op>): TreeState
    decreases |ops|
  {
    if ops == [] then s else TreeRun(TreeStep(s, ops[0]).state, ops[1..])
  }

  ghost function TableRun(s: TableState, ops: seq<Op>): TableState
    requires StateOk(s) && RunAdmissible(AbsState(s), ops)
    decreases |ops|
  {
    if ops == [] then s
    else
      StepRefines(s, ops[0]);
      TableRun(TableStep(s, ops[0]).state, ops[1..])
  }

  // ------------------------------------------------------------ what is saved

  /** The tables a copy saves: with its new empty file, and with that file filled. */
  function CopySaves(t: Table, i: nat, to: Text): seq<Table>
    requires WellFormed(t) && IsFileAt(t, i) && Used(t[i]) && IsText(to)
  {
    var made := Create(t, to, FILE);
    if made.rc != 0 then [] else
    assert Shaped(t[i]) && AllShaped(made.table);
    var w := Write(made.table, to, made.table[i].data[..made.table[i].size]);
    [made.table] + (if w.rc == 0 then [w.table] else [])
  }

  /** The tables a call saves: the one it leaves, if it succeeds and changes the table; a copy saves twice. */
  ghost function StepSaves(s: TableState, op: Op): seq<Table>
    requires StateOk(s) && TextArguments(op)
  {
    match op
    case ChangeDir(path) => []
    case CopyFile(src, dest) =>
      var i := Find(s.table, Resolve(s.cwd, src));
      if IsFileAt(s.table, i) then CopySaves(s.table, i, ResolveText(s.cwd, dest)) else []
    case _ =>
      var r := TableStep(s, op);
      if r.rc == 0 then [r.state.table] else []
  }

  ghost function RunSaves(s: TableState, ops: seq<Op>): seq<Table>
    requires StateOk(s) && RunAdmissible(AbsState(s), ops)
    decreases |ops|
  {
    if ops == [] then []
    else
      StepRefines(s, ops[0]);
      StepSaves(s, ops[0]) + RunSaves(TableStep(s, ops[0]).state, ops[1..])
  }

  /** Tables saved one after the other: trees, and the last one is the table that is left. */
  ghost predicate SavesLead(start: Table, ts: seq<Table>, end: Table) {
    && (forall i | 0 <= i < |ts| :: WellFormed(ts[i]))
    && end == if ts == [] then start else ts[|ts| - 1]
  }

  lemma SavesChain(a: Table, x: seq<Table>, b: Table, y: seq<Table>, c: Table)
    requires SavesLead(a, x, b) && SavesLead(b, y, c)
    ensures SavesLead(a, x + y, c)
  {
  }

  lemma CopySavesLead(t: Table, from: Text, to: Text)
    requires WellFormed(t) && IsFileAt(t, Find(t, from)) && IsLookupPath(to)
    ensures SavesLead(t, CopySaves(t, Find(t, from), to), Copy(t, from, to).table)
  {
    CreateKeepsTree(t, to, FILE);
    CopyKeepsTree(t, from, to);
  }

  lemma StepSavesLead(s: TableState, op: Op)
    requires StateOk(s) && TextArguments(op) && Admissible(AbsState(s), op)
    ensures SavesLead(s.table, StepSaves(s, op), TableStep(s, op).state.table)
  {
    StepRefines(s, op);
    if op.CopyFile? {
      ResolvedLooksUp(s.cwd, op.dest);
      if IsFileAt(s.table, Find(s.table, Resolve(s.cwd, op.src))) {
        CopySavesLead(s.table, Resolve(s.cwd, op.src), ResolveText(s.cwd, op.dest));
      }
    } else if !op.ChangeDir? {
      FailureChangesNothing(s, op);
    }
  }

  lemma FailureChangesNothing(s: TableState, op: Op)
    requires StateOk(s) && TextArguments(op) && !op.CopyFile?
    ensures TableStep(s, op).rc != 0 ==> TableStep(s, op).state.table == s.table
  {
  }

  /** Every table saved in a run is well formed, and the last one is the table the run ends with. */
  lemma {:induction false} RunSavesLead(s: TableState, ops: seq<Op>)
    requires StateOk(s) && RunAdmissible(AbsState(s), ops)
    ensures SavesLead(s.table, RunSaves(s, ops), TableRun(s, ops).table)
    decreases |ops|
  {
    if ops != [] {
      var next := TableStep(s, ops[0]).state;
      StepRefines(s, ops[0]);
      StepSavesLead(s, ops[0]);
      RunSavesLead(next, ops[1..]);
      SavesChain(s.table, StepSaves(s, ops[0]), next.table, RunSaves(next, ops[1..]), TableRun(s, ops).table);
    }
  }

  /** After `i` calls of the run the state is `now`, and `saved` has been saved. */
  ghost predicate Reached(s: TableState, ops: seq<Op>, i: nat, now: TableState, saved: seq<Table>) {
    && StateOk(s) && RunAdmissible(AbsState(s), ops) && i <= |ops|
    && StateOk(now) && RunAdmissible(AbsState(now), ops[i..])
    && TableRun(now, ops[i..]) == TableRun(s, ops)
    && saved + RunSaves(now, ops[i..]) == RunSaves(s, ops)
  }

  lemma ReachedStart(s: TableState, ops: seq<Op>)
    requires StateOk(s) && RunAdmissible(AbsState(s), ops)
    ensures Reached(s, ops, 0, s, [])
  {
    assert ops[0..] == ops;
  }

  lemma ReachedEnd(s: TableState, ops: seq<Op>, now: TableState, saved: seq<Table>)
    requires Reached(s, ops, |ops|, now, saved)
    ensures now == TableRun(s, ops) && saved == RunSaves(s, ops)
  {
    assert ops[|ops|..] == [];
  }

  lemma ReachedNext(s: TableState, ops: seq<Op>, i: nat, now: TableState, saved: seq<Table>)
    requires Reached(s, ops, i, now, saved) && i < |ops|
    ensures Admissible(AbsState(now), ops[i]) && TextArguments(ops[i])
    ensures Reached(s, ops, i + 1, TableStep(now, ops[i]).state, saved + StepSaves(now, ops[i]))
  {
    assert ops[i..][1..] == ops[i + 1..];
    AdmissibleIsText(AbsState(now), ops[i]);
    StepRefines(now, ops[i]);
    var next := TableStep(now, ops[i]).state;
    assert saved + RunSaves(now, ops[i..]) == saved + StepSaves(now, ops[i]) + RunSaves(next, ops[i + 1..]);
  }

  /** Every run keeps a well-formed table, and the table stands for what the path map computes. */
  lemma {:induction false} RunRefines(s: TableState, ops: seq<Op>)
    requires StateOk(s) && RunAdmissible(AbsState(s), ops)
    ensures StateOk(TableRun(s, ops))
    ensures AbsState(TableRun(s, ops)) == TreeRun(AbsState(s), ops)
    ensures IsTree(TreeRun(AbsState(s), ops).tree)
    decreases |ops|
  {
    if ops == [] {
      AbsIsTree(s.table);
    } else {
      StepRefines(s, ops[0]);
      RunRefines(TableStep(s, ops[0]).state, ops[1..]);
    }
  }
}
