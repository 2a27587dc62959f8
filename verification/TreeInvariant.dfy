/** Every call keeps the tree well formed; the directory move exactly when its destination lies outside. */
module TreeInvariant {
  import opened Bytes
  import opened Paths
  import opened NodeTable

  /** The links of slot `j` survive when its own link fields and its parent's survive. */
  lemma LinkTransfers(t: Table, t': Table, j: nat)
    requires |t'| == |t| && j < |t| && LinkOk(t, j)
    requires t'[j].name.text == t[j].name.text && t'[j].path.text == t[j].path.text
    requires t'[j].parent == t[j].parent
    requires var q := t[j].parent;
             Used(t'[q]) && t'[q].kind == t[q].kind && t'[q].path.text == t[q].path.text
    ensures LinkOk(t', j)
  {
  }

  lemma AddKeepsTree(t: Table, i: nat, n: Node)
    requires WellFormed(t) && 1 <= i < |t| && !Used(t[i])
    requires Shaped(n) && Used(n) && ContentOk(n) && LinkOk(t[i := n], i)
    requires forall j | 0 <= j < |t| && Used(t[j]) :: t[j].path.text != n.path.text
    ensures WellFormed(t[i := n])
  {
    var t' := t[i := n];
    forall j | 1 <= j < |t'| && Used(t'[j]) ensures LinkOk(t', j) && ContentOk(t'[j]) {
      if j != i {
        LinkTransfers(t, t', j);
      }
    }
  }

  lemma CreateKeepsTree(t: Table, p: Text, kind: int)
    requires WellFormed(t) && IsLookupPath(p) && (kind == FILE || kind == DIR)
    ensures WellFormed(Create(t, p, kind).table)
  {
    if Create(t, p, kind).rc == 0 {
      var i, q := Allocate(t), FindParent(t, p);
      FindUnique(t, 0);
      var n := NewNode(t[i], p, kind, q);
      assert t[i := n][q] == t[q];
      AddKeepsTree(t, i, n);
    }
  }

  lemma DeleteKeepsTree(t: Table, p: Text)
    requires WellFormed(t)
    ensures WellFormed(Delete(t, p).table)
  {
    var t' := Delete(t, p).table;
    forall j | 1 <= j < |t'| && Used(t'[j]) ensures LinkOk(t', j) && ContentOk(t'[j]) {
      assert LinkOk(t, j);
    }
  }

  predicate SamePlace(n: Node, m: Node) {
    n.used == m.used && n.parent == m.parent && n.kind == m.kind
    && n.name.text == m.name.text && n.path.text == m.path.text
  }

  /** Replacing contents without touching links or paths. */
  lemma OverwriteKeepsTree(t: Table, i: nat, n: Node)
    requires WellFormed(t) && 1 <= i < |t| && Used(t[i])
    requires Shaped(n) && ContentOk(n) && SamePlace(n, t[i])
    ensures WellFormed(t[i := n])
  {
    var t' := t[i := n];
    assert forall j | 0 <= j < |t| :: SamePlace(t'[j], t[j]);
    forall j | 1 <= j < |t'| && Used(t'[j]) ensures LinkOk(t', j) && ContentOk(t'[j]) {
      assert LinkOk(t, j);
      assert SamePlace(t'[t[j].parent], t[t[j].parent]);
      LinkTransfers(t, t', j);
    }
  }

  lemma WriteKeepsTree(t: Table, p: Text, bytes: seq<byte>)
    requires WellFormed(t)
    ensures WellFormed(Write(t, p, bytes).table)
    ensures WellFormed(Append(t, p, bytes).table)
  {
    var i := Find(t, p);
    if IsFileAt(t, i) {
      if |bytes| <= MAX_FILE_SIZE { OverwriteKeepsTree(t, i, Overwrite(t[i], 0, bytes)); }
      if t[i].size + |bytes| <= MAX_FILE_SIZE { OverwriteKeepsTree(t, i, Overwrite(t[i], t[i].size, bytes)); }
    }
  }

  lemma CopyKeepsTree(t: Table, from: Text, to: Text)
    requires WellFormed(t) && IsLookupPath(to)
    ensures WellFormed(Copy(t, from, to).table)
  {
    CreateKeepsTree(t, to, FILE);
    var i := Find(t, from);
    var made := Create(t, to, FILE);
    if IsFileAt(t, i) && made.rc == 0 {
      WriteKeepsTree(made.table, to, made.table[i].data[..made.table[i].size]);
    }
  }

  // ------------------------------------------------------------------- move

  /** The lookups of fs_move succeed, the destination is outside the source, and every new path fits. */
  predicate MoveApplies(t: Table, i: nat, from: Text, to: Text, parent: nat)
    requires WellFormed(t)
  {
    && 1 <= i < |t| && Find(t, from) == i
    && IsLookupPath(to) && Find(t, to) == -1 && FindParent(t, to) == parent
    && !IsUnder(from, to) && MoveFits(t, from, to)
  }

  lemma DestinationOutside(t: Table, i: nat, from: Text, to: Text, parent: nat)
    requires WellFormed(t)
    requires 1 <= i < |t| && Find(t, from) == i
    requires IsLookupPath(to) && Find(t, to) == -1 && FindParent(t, to) == parent
    ensures IsUnder(from, to) <==> (parent == i || Below(t, i, parent))
  {
    FindUnique(t, 0);
    PathIsAbsolute(t, parent);
    PathIsAbsolute(t, i);
    UnderJoin(from, Dirname(to), Filename(to));
    BelowIsUnder(t, i, parent);
    FindUnique(t, parent);
  }

  /** The rewritten path of every node, as fs_move leaves it. */
  lemma RehungPath(t: Table, i: nat, from: Text, to: Text, parent: nat, j: nat)
    requires WellFormed(t) && MoveApplies(t, i, from, to, parent)
    requires j < |t| && Used(t[j])
    ensures Rehung(t, i, parent, to)[j].path.text == Moved(from, to, t[j].path.text)
    ensures j != i ==> (IsUnder(from, t[j].path.text) <==> Below(t, i, j))
    ensures t[j].path.text == from ==> j == i
    ensures IsUnder(from, t[j].path.text) ==> |from| < |t[j].path.text|
  {
    PathIsAbsolute(t, i);
    FindUnique(t, j);
    BelowIsUnder(t, i, j);
  }

  lemma MovedJoin(from: Text, to: Text, q: Text, n: Text)
    requires ROOT <= from && from != ROOT && ROOT <= to && to != ROOT
    requires ROOT <= q && IsComponent(n)
    requires q == from || IsUnder(from, q)
    ensures Join(Moved(from, to, q), n) == Moved(from, to, Join(q, n))
  {
    UnderJoin(from, q, n);
    var p := Join(q, n);
    assert p == q + ROOT + n;
    assert p[|from|..] == q[|from|..] + ROOT + n;
    assert to + q[|from|..] + ROOT + n == to + (q[|from|..] + ROOT + n);
    if q == from {
      assert q[|from|..] == [];
    }
  }

  /** The links of the moved node itself. */
  lemma RehungTopLink(t: Table, i: nat, from: Text, to: Text, parent: nat)
    requires WellFormed(t) && MoveApplies(t, i, from, to, parent)
    ensures LinkOk(Rehung(t, i, parent, to), i)
  {
    var t' := Rehung(t, i, parent, to);
    DestinationOutside(t, i, from, to, parent);
    FindUnique(t, 0);
    assert t'[parent] == t[parent];
    assert Min(|to|, MAX_PATH - 1) == |to|;
    assert t'[i].path.text == to && t'[i].name.text == Filename(to);
  }

  lemma RehungLink(t: Table, i: nat, from: Text, to: Text, parent: nat, j: nat)
    requires WellFormed(t) && MoveApplies(t, i, from, to, parent)
    requires 1 <= j < |t| && Used(t[j]) && j != i
    ensures LinkOk(Rehung(t, i, parent, to), j)
  {
    var t' := Rehung(t, i, parent, to);
    var q := t[j].parent;
    assert LinkOk(t, j);
    RehungPath(t, i, from, to, parent, j);
    RehungPath(t, i, from, to, parent, q);
    assert Below(t, i, j) <==> q == i || Below(t, i, q);
    if Below(t, i, j) {
      RootIsNotMoved(t, i, from, to, parent);
      MovedJoin(from, to, t[q].path.text, t[j].name.text);
      assert ROOT <= t'[q].path.text;
    } else {
      LinkTransfers(t, t', j);
    }
  }

  lemma RootIsNotMoved(t: Table, i: nat, from: Text, to: Text, parent: nat)
    requires WellFormed(t) && MoveApplies(t, i, from, to, parent)
    ensures ROOT <= from && from != ROOT && ROOT <= to && to != ROOT
  {
    PathIsAbsolute(t, i);
    FindUnique(t, 0);
  }

  lemma MovedInjective(from: Text, to: Text, p: Text, q: Text)
    requires from != ROOT && Inside(from, p) && Inside(from, q)
    requires Moved(from, to, p) == Moved(from, to, q)
    ensures p == q
  {
    assert from <= p && from <= q;
    assert Moved(from, to, p)[|to|..] == p[|from|..];
    assert Moved(from, to, q)[|to|..] == q[|from|..];
    assert p == from + p[|from|..] && q == from + q[|from|..];
  }

  /** Nothing below `to` is taken while `to` itself is free, so moved and unmoved paths differ. */
  lemma MovedApart(t: Table, from: Text, to: Text, p: Text, k: nat)
    requires WellFormed(t) && k < |t| && Used(t[k])
    requires from != ROOT && ROOT <= to && to != ROOT && Find(t, to) == -1
    requires Inside(from, p) && !Inside(from, t[k].path.text)
    ensures Moved(from, to, p) != Moved(from, to, t[k].path.text)
  {
    NoOrphans(t, to, k);
    if p != from {
      assert p[|from|] == (from + ROOT)[|from|] == SLASH;
      assert p[|from|..][0] == SLASH;
      assert to + ROOT <= to + p[|from|..];
    }
  }

  /** No rewritten path collides with an untouched one, and no two rewritten paths collide. */
  lemma RehungUnique(t: Table, i: nat, from: Text, to: Text, parent: nat, j: nat, k: nat)
    requires WellFormed(t) && MoveApplies(t, i, from, to, parent)
    requires j < k < |t| && Used(t[j]) && Used(t[k])
    ensures Moved(from, to, t[j].path.text) != Moved(from, to, t[k].path.text)
  {
    var p, q := t[j].path.text, t[k].path.text;
    assert p != q;
    RootIsNotMoved(t, i, from, to, parent);
    if Inside(from, p) && Inside(from, q) {
      if Moved(from, to, p) == Moved(from, to, q) {
        MovedInjective(from, to, p, q);
      }
    } else if Inside(from, p) {
      MovedApart(t, from, to, p, k);
    } else if Inside(from, q) {
      MovedApart(t, from, to, q, j);
    }
  }

  lemma RehungFrame(t: Table, i: nat, from: Text, to: Text, parent: nat, j: nat)
    requires WellFormed(t) && MoveApplies(t, i, from, to, parent) && j < |t|
    ensures var n := Rehung(t, i, parent, to)[j];
      Shaped(n) && n.used == t[j].used && n.kind == t[j].kind && n.size == t[j].size && n.data == t[j].data
    ensures Rehung(t, i, parent, to)[0] == t[0]
  {
    var n := Rehung(t, i, parent, to)[j];
    assert n == RehungNode(t, i, parent, to, j);
    assert Shaped(t[j]);
  }

  lemma RehungPathsUnique(t: Table, i: nat, from: Text, to: Text, parent: nat)
    requires WellFormed(t) && MoveApplies(t, i, from, to, parent)
    ensures UniquePaths(Rehung(t, i, parent, to))
  {
    var t' := Rehung(t, i, parent, to);
    forall j, k | 0 <= j < k < |t'| && Used(t'[j]) && Used(t'[k])
      ensures t'[j].path.text != t'[k].path.text
    {
      RehungFrame(t, i, from, to, parent, j);
      RehungFrame(t, i, from, to, parent, k);
      RehungPath(t, i, from, to, parent, j);
      RehungPath(t, i, from, to, parent, k);
      RehungUnique(t, i, from, to, parent, j, k);
    }
  }

  /** fs_move keeps a well-formed tree when the destination lies outside the source and the new paths fit. */
  lemma MoveKeepsTree(t: Table, i: nat, from: Text, to: Text, parent: nat)
    requires WellFormed(t) && MoveApplies(t, i, from, to, parent)
    ensures WellFormed(Rehung(t, i, parent, to))
  {
    var t' := Rehung(t, i, parent, to);
    forall j | 0 <= j < |t'| ensures Shaped(t'[j]) {
      RehungFrame(t, i, from, to, parent, j);
    }
    RehungFrame(t, i, from, to, parent, 0);
    forall j | 1 <= j < |t'| && Used(t'[j]) ensures LinkOk(t', j) && ContentOk(t'[j]) {
      RehungFrame(t, i, from, to, parent, j);
      if j == i {
        RehungTopLink(t, i, from, to, parent);
      } else {
        RehungLink(t, i, from, to, parent, j);
      }
    }
    RehungPathsUnique(t, i, from, to, parent);
  }

  lemma ParentIsShorter(t: Table, i: nat)
    requires WellFormed(t) && 1 <= i < |t| && Used(t[i])
    ensures 0 <= t[i].parent < |t| && |t[t[i].parent].path.text| < |t[i].path.text|
  {
    assert LinkOk(t, i);
  }
}
