/** A boot whose load stopped at a data sector: the default tree is planted over the slots already loaded. */
module PartialBoot {
  import opened Bytes
  import opened Paths
  import opened NodeTable
  import opened TreeInvariant
  import opened DefaultTree
  import opened NodeCodec
  import opened Disk
  import opened Splice
  import opened Crash

  // ------------------------------------------------------------- what is loaded

  /** Slot `j` lies wholly within the first `k` data sectors. */
  predicate IsLoaded(k: nat, j: nat) {
    NODE_BYTES * (j + 1) <= SECTOR_BYTES * k
  }

  /** Memory after the first `k` data sectors of a saved table were loaded over zeros. */
  function Partial(t: Table, blank: Table, k: nat): (p: Table)
    requires |t| == |blank| == MAX_FILES
    ensures |p| == MAX_FILES
  {
    Torn(t, blank, k)
  }

  /** Whole slots are as saved, all others are free; an empty node stays empty. */
  lemma PartialAt(t: Table, blank: Table, k: nat, j: nat)
    requires AllShaped(t) && IsBlank(blank) && j < |t|
    ensures Shaped(Partial(t, blank, k)[j])
    ensures IsLoaded(k, j) ==> Partial(t, blank, k)[j] == t[j]
    ensures !IsLoaded(k, j) ==> !Used(Partial(t, blank, k)[j]) && (t[j].size == 0 ==> Partial(t, blank, k)[j].size == 0)
  {
    var c := SECTOR_BYTES * k - NODE_BYTES * j;
    CutTableAt(t, blank, SECTOR_BYTES * k, j);
    assert Partial(t, blank, k)[j] == CutNode(t[j], blank[j], c);
    CutFromZero(t[j], blank[j], k, j);
  }

  lemma CutFromZero(a: Node, b: Node, k: nat, j: nat)
    requires Shaped(a) && Shaped(b) && Sealed(b) && !Used(b) && b.size == 0
    ensures var u, c := CutNode(a, b, SECTOR_BYTES * k - NODE_BYTES * j), SECTOR_BYTES * k - NODE_BYTES * j;
      && Shaped(u) && (c >= NODE_BYTES ==> u == a)
      && (c < NODE_BYTES ==> !Used(u) && (a.size == 0 ==> u.size == 0))
  {
    var c := SECTOR_BYTES * k - NODE_BYTES * j;
    CutPlaces(k, j);
    CutWhole(a, b, c);
    if 0 < c <= 160 {
      CutFreeEarly(a, b, c);
      CutEarly(a, b, c);
    } else if 172 <= c <= 4268 {
      CutLate(a, b, c);
    }
  }

  // ----------------------------------------------------- trees with loose links

  /** A tree but for its links: some parents may be missing. */
  predicate IsLoose(t: Table) {
    AllShaped(t) && RootOk(t[0]) && Filled(t) && UniquePaths(t)
  }

  /** `u` keeps every node of `t` in its place, and links every node it adds. */
  ghost predicate Grows(t: Table, u: Table) {
    && |u| == |t|
    && (forall j | 0 <= j < |t| && Used(t[j]) :: SamePlace(u[j], t[j]))
    && (forall j {:trigger LinkOk(u, j)} | 0 <= j < |t| && Used(u[j]) && !Used(t[j]) :: LinkOk(u, j))
  }

  lemma GrownLink(t: Table, u: Table, j: nat)
    requires Grows(t, u) && j < |t| && Used(t[j]) && LinkOk(t, j)
    ensures LinkOk(u, j)
  {
    assert SamePlace(u[j], t[j]) && SamePlace(u[t[j].parent], t[t[j].parent]);
  }

  lemma GrowsOn(t: Table, u: Table, v: Table)
    requires Grows(t, u) && Grows(u, v)
    ensures Grows(t, v)
  {
    forall j | 0 <= j < |t| && Used(t[j]) ensures SamePlace(v[j], t[j]) {
      assert SamePlace(u[j], t[j]);
    }
    forall j | 0 <= j < |t| && Used(v[j]) && !Used(t[j]) ensures LinkOk(v, j) {
      if Used(u[j]) {
        GrownLink(u, v, j);
      }
    }
  }

  /** A node added in a free slot, under a new path. */
  lemma AddGrows(t: Table, i: nat, n: Node)
    requires IsLoose(t) && 1 <= i < |t| && !Used(t[i])
    requires Shaped(n) && Used(n) && ContentOk(n) && LinkOk(t[i := n], i)
    requires forall j | 0 <= j < |t| && Used(t[j]) :: t[j].path.text != n.path.text
    ensures IsLoose(t[i := n]) && Grows(t, t[i := n])
  {
  }

  lemma MadeGrows(t: Table, p: Text, kind: int)
    requires IsLoose(t) && IsLookupPath(p) && (kind == FILE || kind == DIR)
    ensures IsLoose(Made(t, p, kind)) && Grows(t, Made(t, p, kind))
  {
    if Create(t, p, kind).rc == 0 {
      var i, q := Allocate(t), FindParent(t, p);
      var n := NewNode(t[i], p, kind, q);
      RootIsFound(t);
      NewLink(t, i, q, p, n);
      NewIsShaped(t[i], p, kind, q);
      AddGrows(t, i, n);
    }
  }

  lemma NewIsShaped(slot: Node, p: Text, kind: int, parent: nat)
    requires Shaped(slot) && IsText(p) && |p| < MAX_PATH && (kind == FILE || kind == DIR) && parent < MAX_FILES
    ensures var n := NewNode(slot, p, kind, parent);
      Shaped(n) && Used(n) && ContentOk(n) && n.path.text == p
  {
  }

  lemma RootIsFound(t: Table)
    requires IsLoose(t)
    ensures Find(t, ROOT) == 0
  {
    FindUnique(t, 0);
  }

  lemma NewLink(t: Table, i: nat, parent: nat, p: Text, n: Node)
    requires IsLoose(t) && IsLookupPath(p) && p != ROOT && 1 <= i < |t| && !Used(t[i])
    requires parent < |t| && Used(t[parent]) && t[parent].kind == DIR && t[parent].path.text == Dirname(p)
    requires n.path.text == p && n.name.text == Filename(p) && n.parent == parent
    ensures LinkOk(t[i := n], i)
  {
  }

  lemma WriteGrows(t: Table, p: Text, bytes: seq<byte>)
    requires IsLoose(t)
    ensures IsLoose(Write(t, p, bytes).table) && Grows(t, Write(t, p, bytes).table)
  {
    var i, u := Find(t, p), Write(t, p, bytes).table;
    forall j | 0 <= j < |t| ensures SamePlace(u[j], t[j]) {
    }
  }

  lemma PlantedGrows(t: Table, progs: Text, home: Text, readme: Text, text: seq<byte>)
    requires AllShaped(t) && IsLoose(Rooted(t))
    requires IsLookupPath(progs) && IsLookupPath(home) && IsLookupPath(readme)
    ensures IsLoose(Planted(t, progs, home, readme, text))
    ensures Grows(Rooted(t), Planted(t, progs, home, readme, text))
  {
    var t0 := Rooted(t);
    var t1 := Made(t0, progs, DIR);
    var t2 := Made(t1, home, DIR);
    var t3 := Made(t2, readme, FILE);
    MadeGrows(t0, progs, DIR);
    MadeGrows(t1, home, DIR);
    MadeGrows(t2, readme, FILE);
    WriteGrows(t3, readme, text);
    GrowsOn(t0, t1, t2);
    GrowsOn(t0, t2, t3);
    GrowsOn(t0, t3, Planted(t, progs, home, readme, text));
  }

  // --------------------------------------------------------- when it is a tree

  lemma PartIsLoose(t: Table, p: Table)
    requires WellFormed(t) && AllShaped(p) && p[0].size == 0
    requires forall j | 0 <= j < |p| && Used(p[j]) :: p[j] == t[j]
    ensures IsLoose(Rooted(p))
  {
    FindUnique(t, 0);
    forall j | 1 <= j < |p| && Used(p[j]) ensures p[j].path.text != ROOT {
      FindUnique(t, j);
    }
  }

  lemma PartialIsLoose(t: Table, blank: Table, k: nat)
    requires WellFormed(t) && IsBlank(blank)
    ensures AllShaped(Partial(t, blank, k)) && IsLoose(Rooted(Partial(t, blank, k)))
  {
    var p := Partial(t, blank, k);
    forall j | 0 <= j < |p| ensures Shaped(p[j]) && (Used(p[j]) ==> p[j] == t[j]) {
      PartialAt(t, blank, k, j);
    }
    PartialAt(t, blank, k, 0);
    PartIsLoose(t, p);
  }

  /** Slot `q` holds the directory `path`. */
  predicate HoldsDir(u: Table, q: int, path: Text) {
    0 <= q < |u| && Used(u[q]) && u[q].kind == DIR && u[q].path.text == path
  }

  /** The loaded node `j` is linked in `u` exactly when its parent's slot holds the directory it was saved under. */
  lemma LoadedLink(t: Table, u: Table, j: nat)
    requires WellFormed(t) && IsLoose(u) && |u| == |t| && 1 <= j < |t| && Used(t[j]) && SamePlace(u[j], t[j])
    ensures 0 <= t[j].parent < |t|
    ensures LinkOk(u, j) <==> HoldsDir(u, t[j].parent, t[t[j].parent].path.text)
  {
    assert LinkOk(t, j);
    var q := t[j].parent;
    PathIsAbsolute(t, q);
    if LinkOk(u, j) {
      assert Shaped(u[q]);
      SplitJoin(u[q].path.text, t[j].name.text);
      SplitJoin(t[q].path.text, t[j].name.text);
    }
  }

  /** Every loaded node's parent slot holds, in `u`, the directory it held when it was saved. */
  predicate ParentsKept(t: Table, k: nat, u: Table)
    requires WellFormed(t) && |u| == |t|
  {
    forall j {:trigger IsLoaded(k, j)} | 1 <= j < |t| && IsLoaded(k, j) && Used(t[j]) ::
      0 <= t[j].parent < |t| && HoldsDir(u, t[j].parent, t[t[j].parent].path.text)
  }

  /** Planted over a partial load, a tree exactly when every loaded node's parent slot still holds its directory. */
  lemma PlantedIff(t: Table, blank: Table, k: nat)
    requires WellFormed(t) && IsBlank(blank)
    ensures AllShaped(Partial(t, blank, k))
    ensures |DefaultTable(Partial(t, blank, k))| == |t|
    ensures WellFormed(DefaultTable(Partial(t, blank, k))) <==> ParentsKept(t, k, DefaultTable(Partial(t, blank, k)))
  {
    var p := Partial(t, blank, k);
    PartialIsLoose(t, blank, k);
    DefaultTexts();
    PlantedGrows(p, PROGS, HOME, README, WELCOME);
    GrownIff(t, blank, k, DefaultTable(p));
  }

  lemma GrownIff(t: Table, blank: Table, k: nat, u: Table)
    requires WellFormed(t) && IsBlank(blank) && AllShaped(Partial(t, blank, k))
    requires IsLoose(u) && Grows(Rooted(Partial(t, blank, k)), u)
    ensures WellFormed(u) <==> ParentsKept(t, k, u)
  {
    var r := Rooted(Partial(t, blank, k));
    forall j | 1 <= j < |t| && Used(u[j])
      ensures LinkOk(u, j) || (IsLoaded(k, j) && Used(t[j]) && SamePlace(u[j], t[j]))
    {
      PartialAt(t, blank, k, j);
      if Used(r[j]) {
        assert SamePlace(u[j], r[j]);
      }
    }
    forall j | 1 <= j < |t| && IsLoaded(k, j) && Used(t[j])
      ensures 0 <= t[j].parent < |t| && Used(u[j])
      ensures LinkOk(u, j) <==> HoldsDir(u, t[j].parent, t[t[j].parent].path.text)
    {
      PartialAt(t, blank, k, j);
      assert Used(r[j]) && SamePlace(u[j], r[j]);
      LoadedLink(t, u, j);
    }
  }

  lemma ParentLoaded(t: Table, blank: Table, k: nat, u: Table, j: nat)
    requires WellFormed(t) && IsBlank(blank) && AllShaped(Partial(t, blank, k))
    requires Grows(Rooted(Partial(t, blank, k)), u)
    requires IsLoose(u) && 1 <= j < |t| && Used(t[j]) && (t[j].parent < 0 || IsLoaded(k, t[j].parent))
    ensures 0 <= t[j].parent < |t| && HoldsDir(u, t[j].parent, t[t[j].parent].path.text)
  {
    assert LinkOk(t, j);
    var q, r := t[j].parent, Rooted(Partial(t, blank, k));
    PartialAt(t, blank, k, q);
    assert Used(r[q]) && SamePlace(u[q], r[q]);
  }

  /** In particular when every loaded node's parent was loaded too. */
  lemma ClosedLoadIsTree(t: Table, blank: Table, k: nat)
    requires WellFormed(t) && IsBlank(blank)
    requires forall j | 1 <= j < |t| && IsLoaded(k, j) && Used(t[j]) :: t[j].parent < 0 || IsLoaded(k, t[j].parent)
    ensures AllShaped(Partial(t, blank, k)) && WellFormed(DefaultTable(Partial(t, blank, k)))
  {
    var p := Partial(t, blank, k);
    PartialIsLoose(t, blank, k);
    DefaultTexts();
    PlantedGrows(p, PROGS, HOME, README, WELCOME);
    PlantedIff(t, blank, k);
    forall j | 1 <= j < |t| && IsLoaded(k, j) && Used(t[j])
      ensures 0 <= t[j].parent < |t| && HoldsDir(DefaultTable(p), t[j].parent, t[t[j].parent].path.text)
    {
      ParentLoaded(t, blank, k, DefaultTable(p), j);
    }
  }
}
