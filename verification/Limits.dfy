/** Calls the kernel accepts at which a move goes wrong: a directory into itself, and a tree pushed too deep. */
module Limits {
  import opened Bytes
  import opened Paths
  import opened NodeTable
  import opened PathMap
  import opened MoveRefinement
  import opened TreeLaws
  import opened Runs
  import opened DefaultTree
  import opened MoveInside

  /** A directory path other than the root that a call can name. */
  predicate IsPlace(d: Text) {
    CwdOk(d) && IsLookupPath(d) && d != ROOT
  }

  /** A name in such a directory. */
  lemma ChildPlace(d: Text, n: Text)
    requires IsPlace(d) && |Tokens(d)| < MAX_DEPTH && IsComponent(n) && |d| + 1 + |n| < MAX_PATH
    ensures var p := Join(d, n);
      && IsPlace(p) && Dirname(p) == d && |p| == |d| + 1 + |n| && |Tokens(p)| == |Tokens(d)| + 1
      && IsUnder(d, p)
  {
    ChildPath(d, n);
    JoinIsUnder(d, n);
  }

  lemma JoinIsUnder(d: Text, n: Text)
    requires d != ROOT
    ensures IsUnder(d, Join(d, n)) && |Join(d, n)| == |d| + 1 + |n|
  {
  }

  lemma PlaceIsNamed(p: Text)
    requires IsPlace(p)
    ensures PathFits(ROOT, p) && Resolve(ROOT, p) == p
  {
    ResolveOfCanonical(ROOT, p);
  }

  // ------------------------------------------------- a directory into itself

  /** The checks of fs_move pass, no tree has the links it leaves, and rebuild_child_paths nests to every depth. */
  ghost predicate BreaksTree(t: Table, from: Text, to: Text)
    requires WellFormed(t)
  {
    var i, parent := Find(t, from), FindParent(t, to);
    && i > 0 && Find(t, to) == -1 && parent >= 0
    && (forall r: Table | LinkedAfterMove(t, i, parent, r) :: !WellFormed(r))
    && (forall n: nat :: CanNest(t, i, parent, n))
  }

  /** Every move of a directory below itself that the lookups let through. */
  lemma MoveIntoItself(t: Table, from: Text, to: Text)
    requires WellFormed(t) && IsLookupPath(to) && CanRename(Abs(t), from, to) && IsUnder(from, to)
    ensures BreaksTree(t, from, to)
  {
    RenameAlike(t, from, to);
    MoveTreeIff(t, Find(t, from), from, to, FindParent(t, to));
    RebuildDepthIff(t, Find(t, from), from, to, FindParent(t, to));
  }

  /** Any directory that is not full of names can be moved to a new name inside itself. */
  lemma MoveToNewName(t: Table, d: Text, n: Text)
    requires WellFormed(t) && IsPlace(d) && |Tokens(d)| < MAX_DEPTH && IsComponent(n) && |d| + 1 + |n| < MAX_PATH
    requires IsDirIn(Abs(t), d) && Join(d, n) !in Abs(t)
    ensures PathFits(ROOT, d) && PathFits(ROOT, Join(d, n))
    ensures BreaksTree(t, Resolve(ROOT, d), Resolve(ROOT, Join(d, n)))
  {
    ChildPlace(d, n);
    PlaceIsNamed(d);
    PlaceIsNamed(Join(d, n));
    MoveIntoItself(t, d, Join(d, n));
  }

  /** A tree of the default shape, with a name that is longer than its directories and not the file's. */
  lemma MoveInPlanted(t: Table, progs: Text, home: Text, readme: Text, text: seq<byte>, n: Text)
    requires WellFormed(t) && Abs(t) == map[ROOT := Dir, progs := Dir, home := Dir, readme := File(text)]
    requires IsPlace(home) && |Tokens(home)| < MAX_DEPTH && IsComponent(n)
    requires |progs| < |home| + 1 + |n| < |readme| < MAX_PATH
    ensures PathFits(ROOT, home) && PathFits(ROOT, Join(home, n))
    ensures BreaksTree(t, Resolve(ROOT, home), Resolve(ROOT, Join(home, n)))
  {
    ChildPlace(home, n);
    PlantedKeys(Abs(t), progs, home, readme, text, Join(home, n));
    MoveToNewName(t, home, n);
  }

  lemma PlantedKeys(m: Tree, progs: Text, home: Text, readme: Text, text: seq<byte>, p: Text)
    requires m == map[ROOT := Dir, progs := Dir, home := Dir, readme := File(text)]
    requires |progs| < |p| < |readme| && 1 <= |home| < |p|
    ensures p !in m && IsDirIn(m, home)
  {
  }

  lemma DefaultPlaces()
    ensures IsPlace(HOME) && |Tokens(HOME)| == 1 && Dirname(HOME) == ROOT && |HOME| == 5
    ensures IsPlace(PROGS) && |Tokens(PROGS)| == 1 && Dirname(PROGS) == ROOT && |PROGS| == 6
  {
    DefaultPaths();
  }

  lemma DefaultNames()
    ensures IsComponent(PROGS_NAME) && |PROGS_NAME| == 5 && IsComponent(HOME_NAME) && |HOME_NAME| == 4
    ensures IsComponent(README_NAME) && |README_NAME| == 10
  {
    PlainNameIsComponent("progs");
    PlainNameIsComponent("home");
    PlainNameIsComponent("readme.txt");
  }

  /** On a freshly planted disk, `move /home /home/progs` is such a move. */
  lemma DefaultMoveInside(blank: Table)
    requires IsBlank(blank)
    ensures WellFormed(DefaultTable(blank)) && PathFits(ROOT, HOME) && PathFits(ROOT, Join(HOME, PROGS_NAME))
    ensures BreaksTree(DefaultTable(blank), Resolve(ROOT, HOME), Resolve(ROOT, Join(HOME, PROGS_NAME)))
  {
    DefaultTreeIs(blank);
    DefaultPaths();
    DefaultPlaces();
    DefaultNames();
    MoveInPlanted(DefaultTable(blank), PROGS, HOME, README, WELCOME, PROGS_NAME);
  }

  // ---------------------------------------------------- a tree pushed too deep

  const D: Text := [100]

  /** `n` more directories named d, each in the one before. */
  function Deep(top: Text, n: nat): Text {
    if n == 0 then top else Join(Deep(top, n - 1), D)
  }

  /** `p` is a place `n` short names below `top`. */
  predicate IsDeep(top: Text, p: Text, n: nat) {
    IsPlace(p) && |Tokens(p)| == |Tokens(top)| + n && |p| == |top| + 2 * n && Inside(top, p)
  }

  lemma DeeperPlace(top: Text, q: Text, n: nat)
    requires IsPlace(top) && IsDeep(top, q, n) && |Tokens(q)| < MAX_DEPTH && |q| + 2 < MAX_PATH
    ensures IsDeep(top, Join(q, D), n + 1) && IsUnder(top, Join(q, D)) && Dirname(Join(q, D)) == q
  {
    ChildPlace(q, D);
    UnderJoin(top, q, D);
  }

  lemma {:induction false} DeepPlace(top: Text, n: nat)
    requires IsPlace(top) && |Tokens(top)| + n <= MAX_DEPTH && |top| + 2 * n < MAX_PATH
    ensures IsDeep(top, Deep(top, n), n)
    ensures n > 0 ==> IsUnder(top, Deep(top, n)) && Dirname(Deep(top, n)) == Deep(top, n - 1)
  {
    if n > 0 {
      DeepPlace(top, n - 1);
      DeeperPlace(top, Deep(top, n - 1), n - 1);
    }
  }

  /** The table once those directories are made in it. */
  function Dug(t: Table, top: Text, n: nat): (r: Table)
    requires WellFormed(t) && IsPlace(top) && |Tokens(top)| + n <= MAX_DEPTH && |top| + 2 * n < MAX_PATH
    ensures WellFormed(r)
  {
    if n == 0 then t
    else
      DeepPlace(top, n);
      Made(Dug(t, top, n - 1), Deep(top, n), DIR)
  }

  /** A key of the dug tree is an old one, or below `top` and no longer than the last new path. */
  predicate IsDugKey(m: Tree, top: Text, n: nat, q: Text) {
    q in m || (IsUnder(top, q) && |q| <= |top| + 2 * n)
  }

  lemma MadeIs(t: Table, p: Text)
    requires WellFormed(t) && IsLookupPath(p) && p !in Abs(t) && IsDirIn(Abs(t), Dirname(p)) && |Abs(t)| < MAX_FILES
    ensures Abs(Made(t, p, DIR)) == Abs(t)[p := Dir] && |Abs(Made(t, p, DIR))| == |Abs(t)| + 1
  {
    MadeRefines(t, p, DIR);
  }

  /** The map `r` is `m` with `n` entries more, all of the lengths of the new paths. */
  predicate IsDug(m: Tree, top: Text, n: nat, r: Tree) {
    && |r| == |m| + n
    && (forall q | q in m :: q in r && r[q] == m[q])
    && (forall q | q in r :: IsDugKey(m, top, n, q))
  }

  lemma NotYetDug(m: Tree, top: Text)
    ensures IsDug(m, top, 0, m)
  {
  }

  lemma DugOneMore(m: Tree, top: Text, n: nat, r: Tree, p: Text)
    requires IsDug(m, top, n, r) && IsUnder(top, p) && |p| == |top| + 2 * (n + 1)
    requires forall q | q in m :: !IsUnder(top, q)
    ensures p !in r && IsDug(m, top, n + 1, r[p := Dir])
  {
    assert !IsDugKey(m, top, n, p);
    forall q | q in r ensures IsDugKey(m, top, n + 1, q) {
      assert IsDugKey(m, top, n, q);
    }
  }

  lemma DugStep(m: Tree, top: Text, n: nat, u: Table, p: Text)
    requires WellFormed(u) && IsDug(m, top, n, Abs(u)) && |m| + n < MAX_FILES
    requires IsLookupPath(p) && IsDirIn(Abs(u), Dirname(p)) && IsUnder(top, p) && |p| == |top| + 2 * (n + 1)
    requires forall q | q in m :: !IsUnder(top, q)
    ensures IsDug(m, top, n + 1, Abs(Made(u, p, DIR))) && IsDirIn(Abs(Made(u, p, DIR)), p)
  {
    DugOneMore(m, top, n, Abs(u), p);
    MadeIs(u, p);
  }

  lemma DugUnfolds(t: Table, top: Text, n: nat)
    requires WellFormed(t) && IsPlace(top) && 0 < n && |Tokens(top)| + n <= MAX_DEPTH && |top| + 2 * n < MAX_PATH
    ensures IsLookupPath(Deep(top, n)) && Dug(t, top, n) == Made(Dug(t, top, n - 1), Deep(top, n), DIR)
  {
    DeepPlace(top, n);
  }

  ghost predicate DugWell(t: Table, m: Tree, top: Text, n: nat)
    requires WellFormed(t) && IsPlace(top) && |Tokens(top)| + n <= MAX_DEPTH && |top| + 2 * n < MAX_PATH
  {
    IsDirIn(Abs(Dug(t, top, n)), Deep(top, n)) && IsDug(m, top, n, Abs(Dug(t, top, n)))
  }

  lemma DugNext(t: Table, m: Tree, top: Text, n: nat)
    requires WellFormed(t) && |m| + n <= MAX_FILES
    requires IsPlace(top) && 0 < n && |Tokens(top)| + n <= MAX_DEPTH && |top| + 2 * n < MAX_PATH
    requires forall q | q in m :: !IsUnder(top, q)
    requires DugWell(t, m, top, n - 1)
    ensures DugWell(t, m, top, n)
  {
    DeepPlace(top, n);
    DugUnfolds(t, top, n);
    DugStep(m, top, n - 1, Dug(t, top, n - 1), Deep(top, n));
  }

  lemma {:induction false} DugIs(t: Table, m: Tree, top: Text, n: nat)
    requires WellFormed(t) && m == Abs(t) && |m| + n <= MAX_FILES
    requires IsPlace(top) && |Tokens(top)| + n <= MAX_DEPTH && |top| + 2 * n < MAX_PATH
    requires IsDirIn(m, top) && forall q | q in m :: !IsUnder(top, q)
    ensures DugWell(t, m, top, n)
  {
    if n == 0 {
      NotYetDug(m, top);
      assert DugWell(t, m, top, 0);
    } else {
      DugIs(t, m, top, n - 1);
      DugNext(t, m, top, n);
    }
  }

  /** A move that fs_move carries out, after which an entry is still there but no call can name it. */
  ghost predicate HidesEntry(t: Table, from: Text, to: Text, p: Text)
    requires WellFormed(t) && IsText(to)
  {
    && p in Abs(t) && PathFits(ROOT, p) && Resolve(ROOT, p) == p
    && PathFits(ROOT, from) && Resolve(ROOT, from) == from && PathFits(ROOT, to) && Resolve(ROOT, to) == to
    && Move(t, from, to).rc == 0 && WellFormed(Move(t, from, to).table)
    && Moved(from, to, p) in Abs(Move(t, from, to).table)
    && !exists cwd: Text, input: Text :: IsText(cwd) && IsText(input) && Resolve(cwd, input) == Moved(from, to, p)
  }

  /** A move to a deeper place hides every entry at the depth limit. */
  lemma MoveDeeper(t: Table, from: Text, to: Text, p: Text)
    requires WellFormed(t) && IsPlace(from) && IsPlace(to) && IsPlace(p)
    requires CanRename(Abs(t), from, to) && !IsUnder(from, to) && RenameFits(Abs(t), from, to)
    requires p in Abs(t) && IsUnder(from, p)
    requires |Tokens(to)| + |Tokens(p)| - |Tokens(from)| > MAX_DEPTH
    ensures HidesEntry(t, from, to, p)
  {
    PlaceIsNamed(from);
    PlaceIsNamed(to);
    PlaceIsNamed(p);
    MoveRefines(t, from, to);
    MovedDepth(from, to, p);
    forall cwd: Text, input: Text | IsText(cwd) && IsText(input) ensures Resolve(cwd, input) != Moved(from, to, p) {
      DeepPathsUnreachable(Moved(from, to, p), cwd, input);
    }
  }

  /** Directories of depth one are not inside each other. */
  lemma TopsApart(a: Text, b: Text, n: Text)
    requires IsPlace(a) && IsPlace(b) && a != b && Dirname(b) == ROOT && |b| <= |a| + 1 && IsComponent(n)
    ensures !IsUnder(a, Join(b, n))
  {
    UnderJoin(a, b, n);
    SplitJoin(a, []);
    assert Join(a, []) == a + ROOT;
    assert a + ROOT <= b ==> b == a + ROOT;
  }

  lemma DugMoves(m: Tree, r: Tree, top: Text, into: Text, to: Text)
    requires IsDug(m, top, 15, r) && 1 < |top| && |to| < 20 && Dirname(to) == into
    requires IsDirIn(m, top) && IsDirIn(m, into) && to !in m && !IsUnder(top, to)
    requires forall q | q in m :: |q| < 20
    ensures CanRename(r, top, to) && RenameFits(r, top, to)
  {
    assert !IsDugKey(m, top, 15, to);
    forall q | q in r && IsUnder(top, q) ensures |to| + |q| - |top| < MAX_PATH {
      assert IsDugKey(m, top, 15, q);
    }
  }

  /** Fifteen directories dug below an empty `top`, which then moves one level down. */
  lemma DugMove(t: Table, m: Tree, top: Text, into: Text, to: Text)
    requires WellFormed(t) && m == Abs(t) && |m| <= 20
    requires IsPlace(top) && |top| < 20 && |Tokens(top)| == 1
    requires IsPlace(to) && |to| < 20 && |Tokens(to)| == 2 && Dirname(to) == into
    requires IsDirIn(m, top) && IsDirIn(m, into) && to !in m && !IsUnder(top, to)
    requires forall q | q in m :: |q| < 20 && !IsUnder(top, q)
    ensures HidesEntry(Dug(t, top, 15), top, to, Deep(top, 15))
  {
    DeepPlace(top, 15);
    DugIs(t, m, top, 15);
    DugMoves(m, Abs(Dug(t, top, 15)), top, into, to);
    MoveDeeper(Dug(t, top, 15), top, to, Deep(top, 15));
  }

  /** In the default tree nothing is below /progs. */
  lemma PlantedRoom(m: Tree, progs: Text, home: Text, readme: Text, text: seq<byte>, to: Text)
    requires m == map[ROOT := Dir, progs := Dir, home := Dir, readme := File(text)]
    requires |progs| == 6 && |home| == 5 && |readme| == 16 && |to| == 10 && !IsUnder(progs, readme) && progs != ROOT
    ensures IsDirIn(m, home) && IsDirIn(m, progs) && to !in m && |m| <= 4
    ensures forall q | q in m :: |q| < 20 && !IsUnder(progs, q)
  {
    var small := map[ROOT := Dir, progs := Dir, home := Dir];
    assert m == small[readme := File(text)];
    assert small == map[ROOT := Dir, progs := Dir][home := Dir];
    assert |map[ROOT := Dir, progs := Dir]| == 2;
  }

  lemma DeepMoveInPlanted(t: Table, progs: Text, home: Text, file: Text, text: seq<byte>, n: Text)
    requires WellFormed(t) && IsComponent(n) && IsComponent(file) && |n| == 4 && |file| == 10
    requires Abs(t) == map[ROOT := Dir, progs := Dir, home := Dir, Join(home, file) := File(text)]
    requires IsPlace(progs) && |Tokens(progs)| == 1 && |progs| == 6
    requires IsPlace(home) && |Tokens(home)| == 1 && Dirname(home) == ROOT && |home| == 5
    ensures IsText(Join(home, n))
    ensures HidesEntry(Dug(t, progs, 15), progs, Join(home, n), Deep(progs, 15))
  {
    ChildPlace(home, n);
    TopsApart(progs, home, n);
    TopsApart(progs, home, file);
    PlantedRoom(Abs(t), progs, home, Join(home, file), text, Join(home, n));
    DugMove(t, Abs(t), progs, home, Join(home, n));
  }

  /** On a freshly planted disk: fifteen directories below /progs, then `move /progs /home/home`. */
  lemma DefaultDeepMove(blank: Table)
    requires IsBlank(blank)
    ensures WellFormed(DefaultTable(blank)) && IsPlace(PROGS) && |Tokens(PROGS)| == 1 && |PROGS| == 6
    ensures IsText(Join(HOME, HOME_NAME))
    ensures HidesEntry(Dug(DefaultTable(blank), PROGS, 15), PROGS, Join(HOME, HOME_NAME), Deep(PROGS, 15))
  {
    DefaultTreeIs(blank);
    DefaultPaths();
    DefaultPlaces();
    DefaultNames();
    DeepMoveInPlanted(DefaultTable(blank), PROGS, HOME, README_NAME, WELCOME, HOME_NAME);
  }
}
