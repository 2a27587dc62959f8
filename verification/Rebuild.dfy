/** Why rebuild_child_paths terminates and visits each descendant once. */
module Rebuild {
  import opened Bytes
  import opened Paths
  import opened NodeTable

  /** The child of `p` through which `j` descends from `p`. */
  function Branch(t: Table, p: nat, j: nat): (c: nat)
    requires WellFormed(t) && p < |t| && j < |t| && Below(t, p, j)
    ensures 1 <= c < |t| && Used(t[c]) && t[c].parent == p
    decreases |t[j].path.text|
  {
    assert LinkOk(t, j);
    if t[j].parent == p then j else Branch(t, p, t[j].parent)
  }

  lemma {:induction false} BelowIsLonger(t: Table, a: nat, j: nat)
    requires WellFormed(t) && a < |t| && j < |t| && Below(t, a, j)
    ensures |t[a].path.text| < |t[j].path.text|
    decreases |t[j].path.text|
  {
    assert LinkOk(t, j);
    if t[j].parent != a {
      BelowIsLonger(t, a, t[j].parent);
    }
  }

  /** Only directories have anything below them. */
  lemma {:induction false} BelowDirectory(t: Table, a: nat, j: nat)
    requires WellFormed(t) && a < |t| && j < |t| && Below(t, a, j)
    ensures t[a].kind == DIR
    decreases |t[j].path.text|
  {
    assert LinkOk(t, j);
    if t[j].parent != a {
      BelowDirectory(t, a, t[j].parent);
    }
  }

  /** The nodes reached through child `c` are `c` and everything below it. */
  lemma {:induction false} BranchIs(t: Table, p: nat, c: nat, j: nat)
    requires WellFormed(t) && p < |t| && j < |t|
    requires 1 <= c < |t| && Used(t[c]) && t[c].parent == p
    ensures (Below(t, p, j) && Branch(t, p, j) == c) <==> (j == c || Below(t, c, j))
    decreases |t[j].path.text|
  {
    assert LinkOk(t, c);
    if j > 0 && Used(t[j]) {
      assert LinkOk(t, j);
      var q := t[j].parent;
      BranchIs(t, p, c, q);
      if Below(t, c, p) {
        BelowIsLonger(t, c, p);
      }
    }
  }

  /** Node `n` with its path buffer overwritten. */
  function Repathed(n: Node, p: Text): Node
    requires Terminated(n.path, MAX_PATH) && IsText(p)
  {
    n.(path := Store(n.path, MAX_PATH, p))
  }

  /** Slot `j` of `now` still waits for the path it has in `goal`. */
  predicate Waits(now: Node, goal: Node) {
    Terminated(now.path, MAX_PATH) && IsText(goal.path.text) && Repathed(now, goal.path.text) == goal
  }

  predicate SameLinks(now: Node, goal: Node) {
    now.used == goal.used && now.parent == goal.parent && now.kind == goal.kind && now.name == goal.name
  }

  /** `now` agrees with `goal` except that the paths below `p` are still to be rewritten. */
  ghost predicate ReadyBelow(now: Table, goal: Table, p: nat)
    requires WellFormed(goal) && p < |goal|
  {
    && |now| == |goal|
    && now[p].path.text == goal[p].path.text
    && (forall j | 0 <= j < |goal| :: SameLinks(now[j], goal[j]))
    && (forall j {:trigger Below(goal, p, j)} | 0 <= j < |goal| && Below(goal, p, j) :: Waits(now[j], goal[j]))
  }

  /** `now` once the branches of `p` with numbers below `k` are rewritten. */
  ghost predicate BranchesDone(now: Table, before: Table, goal: Table, p: nat, k: nat)
    requires WellFormed(goal) && p < |goal| && |before| == |goal|
  {
    && |now| == |goal|
    && forall j | 0 <= j < |goal| ::
      now[j] == if Below(goal, p, j) && Branch(goal, p, j) < k then goal[j] else before[j]
  }

  lemma NotAChild(before: Table, now: Table, goal: Table, p: nat, k: nat)
    requires WellFormed(goal) && p < |goal| && |before| == |goal| && k < |goal|
    requires BranchesDone(now, before, goal, p, k)
    requires !Used(goal[k]) || goal[k].parent != p
    ensures BranchesDone(now, before, goal, p, k + 1)
  {
  }

  lemma ChildIsReady(before: Table, now: Table, goal: Table, p: nat, k: nat)
    requires WellFormed(goal) && p < |goal| && k < |goal|
    requires ReadyBelow(before, goal, p) && BranchesDone(now, before, goal, p, k)
    requires 1 <= k && Used(goal[k]) && goal[k].parent == p
    ensures now[p] == before[p] && now[k] == before[k] && Waits(now[k], goal[k])
    ensures goal[k].path.text == Join(now[p].path.text, now[k].name.text)
    ensures ReadyBelow(now[k := goal[k]], goal, k)
  {
    assert LinkOk(goal, k);
    BranchIs(goal, p, k, k);
    if Below(goal, p, p) { BelowIsLonger(goal, p, p); }
    if Below(goal, k, k) { BelowIsLonger(goal, k, k); }
    forall j | 0 <= j < |goal| && Below(goal, k, j) ensures Waits(now[k := goal[k]][j], goal[j]) {
      BranchIs(goal, p, k, j);
    }
  }

  lemma ChildIsDone(before: Table, now: Table, after: Table, goal: Table, p: nat, k: nat)
    requires WellFormed(goal) && p < |goal| && k < |goal| && |before| == |goal|
    requires BranchesDone(now, before, goal, p, k)
    requires 1 <= k && Used(goal[k]) && goal[k].parent == p
    requires |after| == |goal|
    requires forall j | 0 <= j < |goal| ::
      after[j] == if j == k || Below(goal, k, j) then goal[j] else now[j]
    ensures BranchesDone(after, before, goal, p, k + 1)
  {
    forall j | 0 <= j < |goal|
      ensures after[j] == if Below(goal, p, j) && Branch(goal, p, j) < k + 1 then goal[j] else before[j]
    {
      BranchIs(goal, p, k, j);
    }
  }
}
