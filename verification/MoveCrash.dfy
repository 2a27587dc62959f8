/** When a move's save was cut short: exactly which cuts leave a tree on disk. */
module MoveCrash {
  import opened Bytes
  import opened Paths
  import opened NodeTable
  import opened TreeInvariant
  import opened NodeCodec
  import opened Disk
  import opened Splice
  import opened Crash

  /** Slot `j` belongs to the moved node or to something below it. */
  predicate IsMoved(t: Table, i: nat, j: nat)
    requires WellFormed(t) && i < |t| && j < |t|
  {
    Used(t[j]) && (j == i || Below(t, i, j))
  }

  /** `k` data sectors reach past the name, path and links of slot `j`. */
  predicate Reaches(k: nat, j: nat) {
    SECTOR_BYTES * k >= NODE_BYTES * j + 172
  }

  /** They end before slot `j`. */
  predicate StopsBefore(k: nat, j: nat) {
    SECTOR_BYTES * k <= NODE_BYTES * j
  }

  /** The cut is not within the name or the path of a moved slot. */
  predicate CutsNoName(t: Table, i: nat, k: nat)
    requires WellFormed(t) && i < |t|
  {
    forall j | 0 <= j < |t| && IsMoved(t, i, j) :: Reaches(k, j) || StopsBefore(k, j)
  }

  lemma RehungElsewhere(t: Table, i: nat, from: Text, to: Text, parent: nat, j: nat)
    requires WellFormed(t) && MoveApplies(t, i, from, to, parent) && j < |t| && !IsMoved(t, i, j)
    ensures Rehung(t, i, parent, to)[j] == t[j]
  {
    assert Rehung(t, i, parent, to)[j] == RehungNode(t, i, parent, to, j);
  }

  lemma CutLinks(a: Node, b: Node, k: nat, j: nat)
    requires Shaped(a) && Shaped(b) && a.data == b.data && a.used == b.used
    requires Reaches(k, j) || StopsBefore(k, j)
    ensures CutNode(a, b, SECTOR_BYTES * k - NODE_BYTES * j) == if Reaches(k, j) then a else b
  {
    var c := SECTOR_BYTES * k - NODE_BYTES * j;
    CutPlaces(k, j);
    CutWhole(a, b, c);
    if 172 <= c <= 4268 {
      CutLate(a, b, c);
      SplicedSame(a.data, c - 172);
    }
  }

  /** Each slot is as before or as after the move. */
  lemma TornMoveAt(t: Table, i: nat, from: Text, to: Text, parent: nat, k: nat, j: nat)
    requires WellFormed(t) && MoveApplies(t, i, from, to, parent) && CutsNoName(t, i, k) && j < |t|
    ensures Torn(Rehung(t, i, parent, to), t, k)[j] ==
      if IsMoved(t, i, j) && Reaches(k, j) then Rehung(t, i, parent, to)[j] else t[j]
    ensures !IsMoved(t, i, j) ==> Rehung(t, i, parent, to)[j] == t[j]
  {
    var r := Rehung(t, i, parent, to);
    CutTableAt(r, t, SECTOR_BYTES * k, j);
    RehungFrame(t, i, from, to, parent, j);
    if IsMoved(t, i, j) {
      CutLinks(r[j], t[j], k, j);
    } else {
      RehungElsewhere(t, i, from, to, parent, j);
      CutSame(t[j], SECTOR_BYTES * k - NODE_BYTES * j);
    }
  }

  lemma MovedDiffers(t: Table, i: nat, from: Text, to: Text, parent: nat, j: nat)
    requires WellFormed(t) && MoveApplies(t, i, from, to, parent) && j < |t| && IsMoved(t, i, j)
    ensures Rehung(t, i, parent, to)[j].path.text != t[j].path.text
  {
    RehungPath(t, i, from, to, parent, j);
    var p := t[j].path.text;
    assert p == from || IsUnder(from, p);
    assert from <= p by { if p != from { assert from + ROOT <= p; } }
    assert p[..|from|] == from && (to + p[|from|..])[..|to|] == to;
  }

  lemma JoinedAlike(p: Text, q: Text, n: Text)
    requires ROOT <= p && ROOT <= q && |p| < MAX_PATH && |q| < MAX_PATH && IsComponent(n)
    requires Join(p, n) == Join(q, n)
    ensures p == q
  {
    SplitJoin(p, n);
    SplitJoin(q, n);
  }

  /** The links of a moved child, in the moved table and in the torn one. */
  lemma ChildLinks(t: Table, i: nat, from: Text, to: Text, parent: nat, u: Table, j: nat)
    requires WellFormed(t) && MoveApplies(t, i, from, to, parent) && WellFormed(u) && |u| == |t|
    requires j < |t| && j != i && IsMoved(t, i, j) && (u[j] == t[j] || u[j] == Rehung(t, i, parent, to)[j])
    ensures 0 <= t[j].parent < |t| && IsMoved(t, i, t[j].parent)
    ensures var q, r := t[j].parent, Rehung(t, i, parent, to);
      && IsComponent(t[j].name.text) && WellFormed(r)
      && t[j].path.text == Join(t[q].path.text, t[j].name.text)
      && r[j].path.text == Join(r[q].path.text, t[j].name.text)
      && u[j].path.text == Join(u[q].path.text, t[j].name.text)
  {
    var r := Rehung(t, i, parent, to);
    MoveKeepsTree(t, i, from, to, parent);
    assert r[j] == RehungNode(t, i, parent, to, j);
    assert LinkOk(t, j) && LinkOk(r, j) && LinkOk(u, j);
  }

  /** In a tree a moved child has reached its new place exactly when its parent has. */
  lemma LinkAgrees(t: Table, i: nat, from: Text, to: Text, parent: nat, k: nat, j: nat)
    requires WellFormed(t) && MoveApplies(t, i, from, to, parent) && CutsNoName(t, i, k)
    requires j < |t| && j != i && IsMoved(t, i, j)
    requires WellFormed(Torn(Rehung(t, i, parent, to), t, k))
    ensures 0 <= t[j].parent < |t| && IsMoved(t, i, t[j].parent) && (Reaches(k, j) <==> Reaches(k, t[j].parent))
  {
    var r, u := Rehung(t, i, parent, to), Torn(Rehung(t, i, parent, to), t, k);
    TornMoveAt(t, i, from, to, parent, k, j);
    ChildLinks(t, i, from, to, parent, u, j);
    var q := t[j].parent;
    TornMoveAt(t, i, from, to, parent, k, q);
    MovedDiffers(t, i, from, to, parent, q);
    RehungFrame(t, i, from, to, parent, q);
    PathIsAbsolute(t, q);
    PathIsAbsolute(r, q);
    if Reaches(k, j) != Reaches(k, q) {
      JoinedAlike(r[q].path.text, t[q].path.text, t[j].name.text);
    }
  }

  lemma {:induction false} AllAgree(t: Table, i: nat, from: Text, to: Text, parent: nat, k: nat, j: nat)
    requires WellFormed(t) && MoveApplies(t, i, from, to, parent) && CutsNoName(t, i, k)
    requires j < |t| && IsMoved(t, i, j)
    requires WellFormed(Torn(Rehung(t, i, parent, to), t, k))
    ensures Reaches(k, j) <==> Reaches(k, i)
    decreases |t[j].path.text|
  {
    if j != i {
      LinkAgrees(t, i, from, to, parent, k, j);
      ParentIsShorter(t, j);
      AllAgree(t, i, from, to, parent, k, t[j].parent);
    }
  }

  predicate ReachesAll(t: Table, i: nat, k: nat)
    requires WellFormed(t) && i < |t|
  {
    forall j | 0 <= j < |t| && IsMoved(t, i, j) :: Reaches(k, j)
  }

  predicate StopsBeforeAll(t: Table, i: nat, k: nat)
    requires WellFormed(t) && i < |t|
  {
    forall j | 0 <= j < |t| && IsMoved(t, i, j) :: StopsBefore(k, j)
  }

  lemma AllReached(t: Table, i: nat, from: Text, to: Text, parent: nat, k: nat)
    requires WellFormed(t) && MoveApplies(t, i, from, to, parent) && ReachesAll(t, i, k)
    ensures Torn(Rehung(t, i, parent, to), t, k) == Rehung(t, i, parent, to)
  {
    var r, u := Rehung(t, i, parent, to), Torn(Rehung(t, i, parent, to), t, k);
    forall j | 0 <= j < |u| ensures u[j] == r[j] {
      TornMoveAt(t, i, from, to, parent, k, j);
    }
  }

  lemma NoneReached(t: Table, i: nat, from: Text, to: Text, parent: nat, k: nat)
    requires WellFormed(t) && MoveApplies(t, i, from, to, parent) && StopsBeforeAll(t, i, k)
    ensures Torn(Rehung(t, i, parent, to), t, k) == t
  {
    var u := Torn(Rehung(t, i, parent, to), t, k);
    forall j | 0 <= j < |u| ensures u[j] == t[j] {
      TornMoveAt(t, i, from, to, parent, k, j);
    }
  }

  /** A save of a move that stops outside the names leaves a tree exactly when it reached all moved slots or none. */
  lemma MoveTornIff(t: Table, i: nat, from: Text, to: Text, parent: nat, k: nat)
    requires WellFormed(t) && MoveApplies(t, i, from, to, parent) && CutsNoName(t, i, k)
    ensures WellFormed(Torn(Rehung(t, i, parent, to), t, k)) <==> ReachesAll(t, i, k) || StopsBeforeAll(t, i, k)
  {
    MoveKeepsTree(t, i, from, to, parent);
    if ReachesAll(t, i, k) {
      AllReached(t, i, from, to, parent, k);
    } else if StopsBeforeAll(t, i, k) {
      NoneReached(t, i, from, to, parent, k);
    } else if WellFormed(Torn(Rehung(t, i, parent, to), t, k)) {
      forall j | 0 <= j < |t| && IsMoved(t, i, j) ensures Reaches(k, j) <==> Reaches(k, i) {
        AllAgree(t, i, from, to, parent, k, j);
      }
    }
  }
}
