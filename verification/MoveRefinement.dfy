/** fs_move refines the renaming of a subtree of the path map. */
module MoveRefinement {
  import opened Bytes
  import opened Paths
  import opened NodeTable
  import opened TreeInvariant
  import opened PathMap

  lemma FitsAlike(t: Table, from: Text, to: Text)
    requires WellFormed(t)
    ensures MoveFits(t, from, to) <==> RenameFits(Abs(t), from, to)
  {
    if MoveFits(t, from, to) {
      forall p | p in Abs(t) && IsUnder(from, p) ensures |to| + |p| - |from| < MAX_PATH {
        AbsFind(t, p);
      }
    }
    if RenameFits(Abs(t), from, to) {
      forall j | 0 <= j < |t| && Used(t[j]) && IsUnder(from, t[j].path.text)
        ensures |to| + |t[j].path.text| - |from| < MAX_PATH
      {
        AbsAt(t, j);
      }
    }
  }

  lemma RenameAlike(t: Table, from: Text, to: Text)
    requires WellFormed(t)
    ensures CanRename(Abs(t), from, to) <==>
      Find(t, from) > 0 && Find(t, to) == -1 && FindParent(t, to) >= 0
  {
    AbsFind(t, from);
    AbsFind(t, to);
    AbsParent(t, to);
    FindUnique(t, 0);
  }

  lemma RehungEntry(t: Table, i: nat, from: Text, to: Text, parent: nat, j: nat)
    requires WellFormed(t) && MoveApplies(t, i, from, to, parent)
    requires j < |t| && Used(t[j])
    ensures var t', p := Rehung(t, i, parent, to), t[j].path.text;
      && p in Abs(t) && Moved(from, to, p) in Abs(t')
      && Abs(t')[Moved(from, to, p)] == Abs(t)[p]
  {
    MoveKeepsTree(t, i, from, to, parent);
    RehungPath(t, i, from, to, parent, j);
    RehungFrame(t, i, from, to, parent, j);
    AbsAt(t, j);
    AbsAt(Rehung(t, i, parent, to), j);
  }

  /** A move re-keys exactly `from` and the paths below it, and keeps every entry. */
  lemma RehungIsRekeyed(t: Table, i: nat, from: Text, to: Text, parent: nat)
    requires WellFormed(t) && MoveApplies(t, i, from, to, parent)
    ensures IsRekeyed(Abs(t), from, to, Abs(Rehung(t, i, parent, to)))
  {
    var t' := Rehung(t, i, parent, to);
    MoveKeepsTree(t, i, from, to, parent);
    forall p | p in Abs(t)
      ensures Moved(from, to, p) in Abs(t') && Abs(t')[Moved(from, to, p)] == Abs(t)[p]
    {
      AbsFind(t, p);
      RehungEntry(t, i, from, to, parent, Find(t, p));
    }
    forall q | q in Abs(t') ensures exists p :: p in Abs(t) && q == Moved(from, to, p) {
      AbsFind(t', q);
      var j := Find(t', q);
      RehungFrame(t, i, from, to, parent, j);
      RehungPath(t, i, from, to, parent, j);
      AbsAt(t, j);
    }
  }

  /** The slots of a safe move, and what it does. */
  lemma SafeMove(t: Table, from: Text, to: Text) returns (i: nat, parent: nat)
    requires WellFormed(t) && IsLookupPath(to)
    requires CanRename(Abs(t), from, to) && !IsUnder(from, to) && RenameFits(Abs(t), from, to)
    ensures MoveApplies(t, i, from, to, parent)
    ensures Move(t, from, to) == Outcome(Rehung(t, i, parent, to), 0)
  {
    RenameAlike(t, from, to);
    FitsAlike(t, from, to);
    i, parent := Find(t, from), FindParent(t, to);
  }

  /** fs_move is the rename of the path map, error cases included. */
  lemma MoveRefines(t: Table, from: Text, to: Text)
    requires WellFormed(t) && IsLookupPath(to)
    requires CanRename(Abs(t), from, to) ==> !IsUnder(from, to) && RenameFits(Abs(t), from, to)
    ensures var o := Move(t, from, to);
      WellFormed(o.table) && Result(Abs(o.table), o.rc) == Rename(Abs(t), from, to)
    ensures CanRename(Abs(t), from, to) ==> IsRekeyed(Abs(t), from, to, Abs(Move(t, from, to).table))
  {
    RenameAlike(t, from, to);
    if CanRename(Abs(t), from, to) {
      var i, parent := SafeMove(t, from, to);
      MoveKeepsTree(t, i, from, to, parent);
      RehungIsRekeyed(t, i, from, to, parent);
      RekeyedIsUnique(Abs(t), from, to, Abs(Rehung(t, i, parent, to)));
    }
  }
}
