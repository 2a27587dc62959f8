/** What fs_move leaves behind when its destination is inside its source, or a path below it no longer fits. */
module MoveInside {
  import opened Bytes
  import opened Paths
  import opened NodeTable
  import opened TreeInvariant
  import opened Rebuild

  /** `r` has the used slots and parent links that fs_move leaves behind. */
  predicate LinkedAfterMove(t: Table, i: nat, parent: int, r: Table)
    requires i < |t|
  {
    && |r| == |t|
    && forall j | 0 <= j < |t| :: (Used(r[j]) <==> Used(t[j]))
                                && r[j].parent == (if j == i then parent else t[j].parent)
  }

  lemma {:induction false} LongerBelow(t: Table, i: nat, parent: int, r: Table, j: nat)
    requires WellFormed(t) && i < |t| && j < |t| && Below(t, i, j)
    requires LinkedAfterMove(t, i, parent, r) && WellFormed(r)
    ensures j == i || |r[i].path.text| < |r[j].path.text|
    decreases |t[j].path.text|
  {
    assert LinkOk(t, j);
    if j != i {
      ParentIsShorter(r, j);
      if t[j].parent != i {
        LongerBelow(t, i, parent, r, t[j].parent);
      }
    }
  }

  lemma LinkCycle(t: Table, i: nat, parent: nat, r: Table)
    requires WellFormed(t) && 1 <= i < |t| && Used(t[i])
    requires parent < |t| && (parent == i || Below(t, i, parent))
    requires LinkedAfterMove(t, i, parent, r)
    ensures !WellFormed(r)
  {
    if WellFormed(r) {
      ParentIsShorter(r, i);
      if parent != i {
        LongerBelow(t, i, parent, r, parent);
      }
    }
  }

  /** A table with the links, names and top path that fs_move leaves behind. */
  predicate NamedAfterMove(t: Table, i: nat, parent: int, to: Text, r: Table)
    requires i < |t|
  {
    && LinkedAfterMove(t, i, parent, r)
    && r[i].path.text == to
    && forall j | 0 <= j < |t| && Used(t[j]) && j != i :: r[j].name.text == t[j].name.text
  }

  lemma RehungIsNamed(t: Table, i: nat, from: Text, to: Text, parent: nat)
    requires WellFormed(t) && MoveApplies(t, i, from, to, parent)
    ensures NamedAfterMove(t, i, parent, to, Rehung(t, i, parent, to))
    ensures WellFormed(Rehung(t, i, parent, to))
  {
    MoveKeepsTree(t, i, from, to, parent);
    assert Min(|to|, MAX_PATH - 1) == |to|;
  }

  /** In such a tree the path of a descendant is the one that the move would give it. */
  lemma {:induction false} NamedPath(t: Table, i: nat, from: Text, to: Text, parent: int, r: Table, j: nat)
    requires WellFormed(t) && 1 <= i < |t| && Used(t[i]) && t[i].path.text == from && j < |t| && Below(t, i, j)
    requires ROOT <= to && to != ROOT
    requires WellFormed(r) && NamedAfterMove(t, i, parent, to, r)
    ensures r[j].path.text == Moved(from, to, t[j].path.text)
    decreases |t[j].path.text|
  {
    assert LinkOk(t, j) && LinkOk(r, j);
    var q := t[j].parent;
    NotRootSlot(t, i);
    PathIsAbsolute(t, i);
    if q == i {
      assert from[|from|..] == [];
      assert Moved(from, to, from) == to;
    } else {
      BelowIsUnder(t, i, q);
      NamedPath(t, i, from, to, parent, r, q);
    }
    BelowIsLonger(t, i, j);
    assert j != i;
    MovedJoin(from, to, t[q].path.text, t[j].name.text);
  }

  lemma NamedFits(t: Table, i: nat, from: Text, to: Text, parent: int, r: Table)
    requires WellFormed(t) && 1 <= i < |t| && Find(t, from) == i && ROOT <= to && to != ROOT
    requires WellFormed(r) && NamedAfterMove(t, i, parent, to, r)
    ensures MoveFits(t, from, to)
  {
    NotRootSlot(t, i);
    forall j | 0 <= j < |t| && Used(t[j]) && IsUnder(from, t[j].path.text)
      ensures |to| + |t[j].path.text| - |from| < MAX_PATH
    {
      BelowIsUnder(t, i, j);
      NamedPath(t, i, from, to, parent, r, j);
      PathIsAbsolute(r, j);
    }
  }

  lemma NotRootSlot(t: Table, i: nat)
    requires WellFormed(t) && 1 <= i < |t| && Used(t[i])
    ensures t[i].path.text != ROOT
  {
    FindUnique(t, 0);
    FindUnique(t, i);
  }

  /**
   * With its lookups successful, the links, names and path that fs_move leaves behind belong to a tree exactly when
   * the destination is outside the source and every path below it still fits.
   */
  lemma MoveTreeIff(t: Table, i: nat, from: Text, to: Text, parent: nat)
    requires WellFormed(t)
    requires 1 <= i < |t| && Find(t, from) == i
    requires IsLookupPath(to) && Find(t, to) == -1 && FindParent(t, to) == parent
    ensures (exists r: Table :: NamedAfterMove(t, i, parent, to, r) && WellFormed(r))
            <==> !IsUnder(from, to) && MoveFits(t, from, to)
    ensures (exists r: Table :: LinkedAfterMove(t, i, parent, r) && WellFormed(r)) ==> !IsUnder(from, to)
  {
    DestinationOutside(t, i, from, to, parent);
    FindUnique(t, 0);
    if !IsUnder(from, to) && MoveFits(t, from, to) {
      RehungIsNamed(t, i, from, to, parent);
    }
    forall r: Table | LinkedAfterMove(t, i, parent, r) && WellFormed(r)
      ensures !IsUnder(from, to)
      ensures NamedAfterMove(t, i, parent, to, r) ==> MoveFits(t, from, to)
    {
      if IsUnder(from, to) {
        LinkCycle(t, i, parent, r);
      }
      if NamedAfterMove(t, i, parent, to, r) {
        NamedFits(t, i, from, to, parent, r);
      }
    }
  }

  // ---------------------------------------- how deep rebuild_child_paths recurses

  /** The parent index of slot `j` once fs_move has re-parented slot `i`. */
  function ParentAfter(t: Table, i: nat, parent: int, j: nat): int
    requires j < |t|
  {
    if j == i then parent else t[j].parent
  }

  /** Nested calls of rebuild_child_paths: each on a used directory whose parent is the slot of the call before. */
  predicate Nested(t: Table, i: nat, parent: int, calls: seq<nat>) {
    && (forall k | 0 <= k < |calls| :: calls[k] < |t| && Used(t[calls[k]]) && t[calls[k]].kind == DIR)
    && (forall k | 0 < k < |calls| :: ParentAfter(t, i, parent, calls[k]) == calls[k - 1])
  }

  /** From the moved node the calls reach every directory below it. */
  lemma {:induction false} NestedDown(t: Table, i: nat, parent: int, j: nat) returns (calls: seq<nat>)
    requires WellFormed(t) && i < |t| && Used(t[i]) && j < |t| && t[j].kind == DIR
    requires j == i || Below(t, i, j)
    ensures Nested(t, i, parent, calls)
    ensures calls != [] && calls[0] == i && calls[|calls| - 1] == j
    decreases |t[j].path.text|
  {
    if j == i {
      calls := [i];
    } else {
      assert LinkOk(t, j);
      var up := NestedDown(t, i, parent, t[j].parent);
      calls := up + [j];
    }
  }

  lemma NestedJoin(t: Table, i: nat, parent: int, a: seq<nat>, b: seq<nat>)
    requires Nested(t, i, parent, a) && Nested(t, i, parent, b) && a != [] && b != []
    requires ParentAfter(t, i, parent, b[0]) == a[|a| - 1]
    ensures Nested(t, i, parent, a + b)
  {
    var c := a + b;
    forall k | 0 < k < |c| ensures ParentAfter(t, i, parent, c[k]) == c[k - 1] {
      if k > |a| {
        assert c[k] == b[k - |a|] && c[k - 1] == b[k - 1 - |a|];
      }
    }
  }

  /** Around the cycle again and again. */
  lemma {:induction false} NestedForever(t: Table, i: nat, parent: nat, n: nat) returns (calls: seq<nat>)
    requires WellFormed(t) && i < |t| && Used(t[i]) && parent < |t| && t[parent].kind == DIR
    requires parent == i || Below(t, i, parent)
    ensures Nested(t, i, parent, calls) && |calls| > n
    ensures calls[0] == i && calls[|calls| - 1] == parent
  {
    var round := NestedDown(t, i, parent, parent);
    calls := round;
    if n > 0 {
      var more := NestedForever(t, i, parent, n - 1);
      NestedJoin(t, i, parent, more, round);
      calls := more + round;
    }
  }

  /** When the destination is outside, each nested call works on a longer path. */
  lemma {:induction false} NestedDescends(t: Table, i: nat, parent: int, calls: seq<nat>, k: nat)
    requires WellFormed(t) && i < |t| && Used(t[i]) && k < |calls| && calls[0] == i
    requires 0 <= parent < |t| && parent != i && !Below(t, i, parent)
    requires Nested(t, i, parent, calls)
    ensures calls[k] < |t| && Used(t[calls[k]])
    ensures k == 0 || Below(t, i, calls[k])
    ensures |t[calls[k]].path.text| >= |t[i].path.text| + k
  {
    if k > 0 {
      NestedDescends(t, i, parent, calls, k - 1);
      var j := calls[k];
      assert ParentAfter(t, i, parent, j) == calls[k - 1];
      assert j != i && j != 0;
      ParentIsShorter(t, j);
    }
  }

  /** rebuild_child_paths(i) can reach `n` calls below the first. */
  ghost predicate CanNest(t: Table, i: nat, parent: int, n: nat) {
    exists calls: seq<nat> :: |calls| == n + 1 && calls[0] == i && Nested(t, i, parent, calls)
  }

  lemma NestsEverywhere(t: Table, i: nat, parent: nat, n: nat)
    requires WellFormed(t) && i < |t| && Used(t[i]) && parent < |t| && t[parent].kind == DIR
    requires parent == i || Below(t, i, parent)
    ensures CanNest(t, i, parent, n)
  {
    var calls := NestedForever(t, i, parent, n);
    assert Nested(t, i, parent, calls[..n + 1]);
  }

  lemma NestsWithin(t: Table, i: nat, parent: int, n: nat)
    requires WellFormed(t) && i < |t| && Used(t[i]) && 0 <= parent < |t| && parent != i && !Below(t, i, parent)
    requires CanNest(t, i, parent, n)
    ensures n + 1 < MAX_PATH
  {
    var calls: seq<nat> :| |calls| == n + 1 && calls[0] == i && Nested(t, i, parent, calls);
    NestedDescends(t, i, parent, calls, n);
    PathIsAbsolute(t, i);
    PathIsAbsolute(t, calls[n]);
  }

  /** rebuild_child_paths nests without bound exactly when the destination is below the source. */
  lemma RebuildDepthIff(t: Table, i: nat, from: Text, to: Text, parent: nat)
    requires WellFormed(t)
    requires 1 <= i < |t| && Find(t, from) == i
    requires IsLookupPath(to) && Find(t, to) == -1 && FindParent(t, to) == parent
    ensures IsUnder(from, to) <==> forall n: nat :: CanNest(t, i, parent, n)
    ensures !IsUnder(from, to) ==> forall n: nat | CanNest(t, i, parent, n) :: n + 1 < MAX_PATH
  {
    DestinationOutside(t, i, from, to, parent);
    if IsUnder(from, to) {
      forall n: nat ensures CanNest(t, i, parent, n) {
        NestsEverywhere(t, i, parent, n);
      }
    } else {
      forall n: nat | CanNest(t, i, parent, n) ensures n + 1 < MAX_PATH {
        NestsWithin(t, i, parent, n);
      }
      assert !CanNest(t, i, parent, MAX_PATH);
    }
  }
}
