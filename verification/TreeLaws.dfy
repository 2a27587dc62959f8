/** Laws that relate several calls of the reference filesystem: undoing, conservation, reachability. */
module TreeLaws {
  import opened Bytes
  import opened Paths
  import opened NodeTable
  import opened TreeInvariant
  import opened PathMap
  import opened MoveRefinement

  /** Nothing lies below a path that is not there. */
  lemma {:induction false} NothingBelow(m: Tree, p: Text, q: Text)
    requires IsTree(m) && q in m && p !in m && p != []
    ensures !IsUnder(p, q)
    decreases |q|
  {
    assert PlaceOk(m, q);
    if q != ROOT {
      NothingBelow(m, p, Dirname(q));
      UnderJoin(p, Dirname(q), Filename(q));
    }
  }

  /** Creating and then deleting gives back the same tree. */
  lemma AddThenRemove(m: Tree, p: Text, e: Entry)
    requires IsTree(m) && Add(m, p, e).rc == 0
    ensures Remove(Add(m, p, e).tree, p) == Result(m, 0)
  {
    var r := Add(m, p, e).tree;
    forall q | q in r && q != ROOT ensures Dirname(q) != p {
      if q in m {
        assert PlaceOk(m, q);
      }
    }
    assert r - {p} == m;
  }

  lemma MovedBack(from: Text, to: Text, p: Text)
    requires from != ROOT && to != ROOT
    requires !IsUnder(to, p) && p != to
    ensures Moved(to, from, Moved(from, to, p)) == p
  {
    var q := Moved(from, to, p);
    if Inside(from, p) && |from| <= |p| {
      assert from <= p by { if p != from { assert from + ROOT <= p; } }
      assert q == to + p[|from|..];
      if p == from {
        assert q == to;
      } else {
        assert p[|from|] == (from + ROOT)[|from|] == SLASH;
        assert to + ROOT <= q;
      }
      assert q[|to|..] == p[|from|..];
      assert from + p[|from|..] == p;
    }
  }

  /** The destination of a rename is free afterwards to be renamed back. */
  lemma CanRenameBack(m: Tree, from: Text, to: Text, r: Tree)
    requires IsTree(m) && IsLookupPath(from) && IsLookupPath(to)
    requires CanRename(m, from, to) && !IsUnder(from, to) && IsRekeyed(m, from, to, r)
    ensures CanRename(r, to, from) && !IsUnder(to, from)
  {
    NothingBelow(m, to, from);
    var d := Dirname(from);
    assert PlaceOk(m, from);
    ShorterIsOutside(from, d);
    assert Moved(from, to, d) == d && IsDirIn(m, d);
    assert Moved(from, to, from) == to by { assert from[|from|..] == []; }
    forall p | p in m ensures Moved(from, to, p) != from {
      NothingBelow(m, to, p);
      NotMovedOnto(from, to, p);
    }
  }

  lemma ShorterIsOutside(from: Text, d: Text)
    requires |d| < |from|
    ensures !Inside(from, d)
  {
  }

  lemma NotMovedOnto(from: Text, to: Text, p: Text)
    requires from != ROOT && to != ROOT && from != to && !IsUnder(to, from)
    ensures Moved(from, to, p) != from
  {
    if Inside(from, p) && |from| <= |p| && p != from {
      assert p[|from|] == (from + ROOT)[|from|] == SLASH;
      assert p[|from|..][0] == SLASH;
      assert to + ROOT <= to + p[|from|..];
    }
  }

  /** Renaming back restores the tree exactly. */
  lemma RenameUndone(m: Tree, from: Text, to: Text, r: Tree)
    requires IsTree(m) && IsLookupPath(from) && IsLookupPath(to)
    requires CanRename(m, from, to) && !IsUnder(from, to) && IsRekeyed(m, from, to, r)
    ensures Rename(r, to, from) == Result(m, 0)
  {
    CanRenameBack(m, from, to, r);
    forall p | p in m ensures Moved(to, from, Moved(from, to, p)) == p {
      NothingBelow(m, to, p);
      MovedBack(from, to, p);
    }
    forall q | q in r ensures Moved(to, from, q) in m && m[Moved(to, from, q)] == r[q] {
      assert q in MovedKeys(m, from, to);
    }
    forall p | p in m ensures p in MovedKeys(r, to, from) {
      assert Moved(from, to, p) in r;
    }
    assert m.Keys == MovedKeys(r, to, from);
    RekeyedIsUnique(r, to, from, m);
  }

  lemma RenameBackFits(m: Tree, from: Text, to: Text, r: Tree)
    requires IsTree(m) && IsLookupPath(from) && IsLookupPath(to)
    requires CanRename(m, from, to) && IsRekeyed(m, from, to, r)
    ensures RenameFits(r, to, from)
  {
    forall q | q in r && IsUnder(to, q) ensures |from| + |q| - |to| < MAX_PATH {
      assert q in MovedKeys(m, from, to);
      MovedBackFits(m, from, to, q);
    }
  }

  /** Any table that stands for the renamed tree moves back to the original one. */
  lemma MoveBack(m: Tree, r: Table, from: Text, to: Text)
    requires IsTree(m) && WellFormed(r) && IsLookupPath(from) && IsLookupPath(to)
    requires CanRename(m, from, to) && !IsUnder(from, to) && IsRekeyed(m, from, to, Abs(r))
    ensures Move(r, to, from).rc == 0 && Abs(Move(r, to, from).table) == m
  {
    CanRenameBack(m, from, to, Abs(r));
    RenameBackFits(m, from, to, Abs(r));
    RenameUndone(m, from, to, Abs(r));
    MoveRefines(r, to, from);
  }

  /** fs_move, then fs_move back: both succeed and every entry is where it was. */
  lemma MoveUndone(t: Table, from: Text, to: Text)
    requires WellFormed(t) && IsLookupPath(from) && IsLookupPath(to)
    requires CanRename(Abs(t), from, to) && !IsUnder(from, to) && RenameFits(Abs(t), from, to)
    ensures var o := Move(t, from, to);
      && o.rc == 0 && WellFormed(o.table)
      && Move(o.table, to, from).rc == 0 && Abs(Move(o.table, to, from).table) == Abs(t)
  {
    MoveRefines(t, from, to);
    AbsIsTree(t);
    MoveBack(Abs(t), Move(t, from, to).table, from, to);
  }

  lemma MovedBackFits(m: Tree, from: Text, to: Text, q: Text)
    requires IsTree(m) && from != ROOT && to != ROOT && to != [] && to !in m
    requires q in MovedKeys(m, from, to) && IsUnder(to, q)
    ensures |from| + |q| - |to| < MAX_PATH
  {
    var p :| p in m && Moved(from, to, p) == q;
    NothingBelow(m, to, p);
    MovedBack(from, to, p);
    assert PlaceOk(m, p);
  }

  // ------------------------------------------------------ writes and appends

  /** Two appends are one append of both texts, and an append after a write is a write of both. */
  lemma AppendsJoin(m: Tree, p: Text, a: seq<byte>, b: seq<byte>)
    requires Extend(m, p, a).rc == 0
    ensures Extend(Extend(m, p, a).tree, p, b).rc == Extend(m, p, a + b).rc
    ensures Extend(m, p, a + b).rc == 0 ==> Extend(Extend(m, p, a).tree, p, b).tree == Extend(m, p, a + b).tree
  {
    var x := m[p].content;
    assert x + a + b == x + (a + b);
  }

  lemma WriteThenAppend(m: Tree, p: Text, a: seq<byte>, b: seq<byte>)
    requires Put(m, p, a).rc == 0
    ensures Extend(Put(m, p, a).tree, p, b).rc == Put(m, p, a + b).rc
    ensures Put(m, p, a + b).rc == 0 ==> Extend(Put(m, p, a).tree, p, b).tree == Put(m, p, a + b).tree
  {
  }

  /** A file reads as it was last written; every other entry is as before. */
  lemma WriteReplaces(m: Tree, p: Text, a: seq<byte>, q: Text)
    requires IsFileIn(m, p) && |a| <= 4096
    ensures var r := Put(m, p, a);
      && r.rc == 0 && r.tree.Keys == m.Keys && r.tree[p] == File(a)
      && (q in m && q != p ==> r.tree[q] == m[q])
  {
  }

  // ------------------------------------------------------------------ copies

  /** A failed copy changes nothing; a successful one adds exactly one file, equal to its source. */
  lemma CopyAllOrNothing(t: Table, from: Text, to: Text)
    requires WellFormed(t) && IsLookupPath(to)
    ensures var o := Copy(t, from, to);
      && (o.rc == 0 <==> IsFileIn(Abs(t), from) && Create(t, to, FILE).rc == 0)
      && (o.rc != 0 ==> o.table == t)
      && (o.rc == 0 ==>
            && CountUsed(o.table) == CountUsed(t) + 1
            && from in Abs(o.table) && to in Abs(o.table) && to !in Abs(t)
            && Abs(o.table)[to] == Abs(o.table)[from] == Abs(t)[from])
  {
    CreateKeepsTree(t, to, FILE);
    CopyKeepsTree(t, from, to);
    AbsFind(t, from);
    CreateRefines(t, to, FILE);
    CopyRefines(t, from, to);
    if IsFileAt(t, Find(t, from)) && Create(t, to, FILE).rc == 0 {
      CopySuccess(t, from, to);
      AbsSize(t);
      AbsSize(Copy(t, from, to).table);
    }
  }

  // ------------------------------------------------------------ conservation

  lemma {:induction false} SameUsedSameCount(t: Table, t': Table)
    requires |t| == |t'| && forall i | 0 <= i < |t| :: t[i].used == t'[i].used
    ensures CountUsed(t) == CountUsed(t')
  {
    if t != [] {
      SameUsedSameCount(t[..|t| - 1], t'[..|t| - 1]);
    }
  }

  lemma RehungConserves(t: Table, i: nat, from: Text, to: Text, parent: nat)
    requires WellFormed(t) && MoveApplies(t, i, from, to, parent)
    ensures |Abs(Rehung(t, i, parent, to))| == |Abs(t)|
  {
    var t' := Rehung(t, i, parent, to);
    forall j | 0 <= j < |t| ensures t'[j].used == t[j].used {
      RehungFrame(t, i, from, to, parent, j);
    }
    SameUsedSameCount(t, t');
    MoveKeepsTree(t, i, from, to, parent);
    AbsSize(t);
    AbsSize(t');
  }

  lemma RehungKeepsApart(t: Table, i: nat, from: Text, to: Text, parent: nat, p: Text, q: Text)
    requires WellFormed(t) && MoveApplies(t, i, from, to, parent)
    requires p in Abs(t) && q in Abs(t) && p != q
    ensures Moved(from, to, p) != Moved(from, to, q)
  {
    AbsFind(t, p);
    AbsFind(t, q);
    RehungUnique(t, i, from, to, parent, Min(Find(t, p), Find(t, q)), Max(Find(t, p), Find(t, q)));
  }

  /** A move loses and merges nothing: as many entries, and distinct paths stay distinct. */
  lemma MoveConserves(t: Table, from: Text, to: Text, p: Text, q: Text)
    requires WellFormed(t) && IsLookupPath(to)
    requires CanRename(Abs(t), from, to) && !IsUnder(from, to) && RenameFits(Abs(t), from, to)
    requires p in Abs(t) && q in Abs(t) && p != q
    ensures |Abs(Move(t, from, to).table)| == |Abs(t)|
    ensures Moved(from, to, p) != Moved(from, to, q)
  {
    var i, parent := SafeMove(t, from, to);
    RehungConserves(t, i, from, to, parent);
    RehungKeepsApart(t, i, from, to, parent, p, q);
  }

  // ------------------------------------------------------------ reachability

  /** A path deeper than the sixteen-component stack, as a move can produce, is never what a call resolves to. */
  lemma DeepPathsUnreachable(p: Text, cwd: Text, input: Text)
    requires IsText(cwd) && IsText(input) && |Tokens(p)| > MAX_DEPTH
    ensures Resolve(cwd, input) != p
  {
    ResolveIsCanonical(cwd, input);
  }

  lemma MovedSuffix(from: Text, to: Text, p: Text) returns (rest: Text)
    requires from != ROOT && IsUnder(from, p)
    ensures p == from + ROOT + rest && Moved(from, to, p) == to + ROOT + rest
  {
    rest := p[|from| + 1..];
    assert p == from + ROOT + rest;
    assert p[|from|..] == ROOT + rest;
    assert to + (ROOT + rest) == to + ROOT + rest;
  }

  /** A move changes the depth of every path below its source by the same amount. */
  lemma MovedDepth(from: Text, to: Text, p: Text)
    requires from != ROOT && to != ROOT && Inside(from, p)
    ensures |Tokens(Moved(from, to, p))| == |Tokens(to)| + |Tokens(p)| - |Tokens(from)|
  {
    if p != from {
      var rest := MovedSuffix(from, to, p);
      TokensJoin(from, rest);
      TokensJoin(to, rest);
    } else {
      assert from[|from|..] == [];
      assert Moved(from, to, p) == to;
    }
  }

  /** After a move, a path below the destination can be named exactly when it is at most sixteen components deep. */
  lemma MovedReachableIff(t: Table, from: Text, to: Text, p: Text)
    requires WellFormed(t) && IsLookupPath(to)
    requires CanRename(Abs(t), from, to) && !IsUnder(from, to) && RenameFits(Abs(t), from, to)
    requires p in Abs(t) && Inside(from, p)
    ensures (exists input: Text :: IsText(input) && Fits(ROOT, input) && Resolve(ROOT, input) == Moved(from, to, p))
            <==> |Tokens(to)| + |Tokens(p)| - |Tokens(from)| <= MAX_DEPTH
  {
    var q := Moved(from, to, p);
    AbsFind(t, ROOT);
    FindUnique(t, 0);
    MovedDepth(from, to, p);
    MoveRefines(t, from, to);
    AbsIsTree(Move(t, from, to).table);
    assert PlaceOk(Abs(Move(t, from, to).table), q);
    if |Tokens(q)| <= MAX_DEPTH {
      ResolveOfCanonical(ROOT, q);
    } else {
      forall input: Text | IsText(input) ensures Resolve(ROOT, input) != q {
        DeepPathsUnreachable(q, ROOT, input);
      }
    }
  }
}
