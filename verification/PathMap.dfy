/** The reference filesystem: a map from canonical paths to directories and file contents. */
module PathMap {
  import opened Bytes
  import opened Paths
  import opened NodeTable

  datatype Entry = Dir | File(content: seq<byte>)

  type Tree = map<Text, Entry>

  datatype Result = Result(tree: Tree, rc: int)

  predicate IsDirIn(m: Tree, p: Text) {
    p in m && m[p].Dir?
  }

  predicate IsFileIn(m: Tree, p: Text) {
    p in m && m[p].File?
  }

  /** The key is a path in normal form, and a path but the root lies in a directory. */
  predicate PlaceOk(m: Tree, p: Text) {
    IsPath(p) && IsLookupPath(p) && (p != ROOT ==> IsDirIn(m, Dirname(p)))
  }

  /** Rooted, prefix-closed, and every proper prefix is a directory. */
  predicate IsTree(m: Tree) {
    && IsDirIn(m, ROOT)
    && forall p {:trigger PlaceOk(m, p)} | p in m :: PlaceOk(m, p)
  }

  function Add(m: Tree, p: Text, e: Entry): Result {
    if p in m || !IsDirIn(m, Dirname(p)) || |m| >= MAX_FILES then Result(m, 1)
    else Result(m[p := e], 0)
  }

  predicate IsEmptyDir(m: Tree, p: Text) {
    forall q | q in m :: q == ROOT || Dirname(q) != p
  }

  function Remove(m: Tree, p: Text): Result {
    if p !in m || p == ROOT || (m[p].Dir? && !IsEmptyDir(m, p)) then Result(m, 1)
    else Result(m - {p}, 0)
  }

  function Put(m: Tree, p: Text, bytes: seq<byte>): Result {
    if !IsFileIn(m, p) || |bytes| > MAX_FILE_SIZE then Result(m, 1)
    else Result(m[p := File(bytes)], 0)
  }

  function Extend(m: Tree, p: Text, bytes: seq<byte>): Result {
    if !IsFileIn(m, p) then Result(m, 1) else Put(m, p, m[p].content + bytes)
  }

  /** One atomic step: the whole copy happens, or nothing does. */
  function Duplicate(m: Tree, from: Text, to: Text): Result {
    if !IsFileIn(m, from) then Result(m, 1) else Add(m, to, m[from])
  }

  function MovedKeys(m: Tree, from: Text, to: Text): set<Text> {
    set p | p in m :: Moved(from, to, p)
  }

  /** The same entries under their new keys. */
  ghost predicate IsRekeyed(m: Tree, from: Text, to: Text, r: Tree) {
    && r.Keys == MovedKeys(m, from, to)
    && forall p | p in m :: Moved(from, to, p) in r && r[Moved(from, to, p)] == m[p]
  }

  predicate CanRename(m: Tree, from: Text, to: Text) {
    from in m && from != ROOT && to !in m && IsDirIn(m, Dirname(to))
  }

  predicate RenameFits(m: Tree, from: Text, to: Text) {
    forall p | p in m && IsUnder(from, p) :: |to| + |p| - |from| < MAX_PATH
  }

  ghost function Rekey(m: Tree, from: Text, to: Text): Tree {
    map q | q in MovedKeys(m, from, to) ::
      (var p :| p in m && Moved(from, to, p) == q; m[p])
  }

  ghost function Rename(m: Tree, from: Text, to: Text): Result {
    if CanRename(m, from, to) then Result(Rekey(m, from, to), 0) else Result(m, 1)
  }

  /** Re-keying without collisions determines the result. */
  lemma RekeyedIsUnique(m: Tree, from: Text, to: Text, r: Tree)
    requires IsRekeyed(m, from, to, r)
    ensures r == Rekey(m, from, to)
  {
  }

  // ------------------------------------------------------------- abstraction

  function EntryOf(n: Node): Entry {
    if n.kind == DIR then Dir else File(n.data[..Min(|n.data|, Max(0, n.size))])
  }

  function PathsOf(t: Table): set<Text> {
    set i | 0 <= i < |t| && Used(t[i]) :: t[i].path.text
  }

  /** The map a table stands for. */
  function Abs(t: Table): Tree {
    map p | p in PathsOf(t) :: EntryOf(t[Find(t, p)])
  }

  lemma AbsFind(t: Table, p: Text)
    ensures p in Abs(t) <==> Find(t, p) >= 0
    ensures p in Abs(t) ==> Abs(t)[p] == EntryOf(t[Find(t, p)])
  {
    if Find(t, p) >= 0 {
      assert t[Find(t, p)].path.text in PathsOf(t);
    }
  }

  lemma AbsAt(t: Table, i: nat)
    requires WellFormed(t) && i < |t| && Used(t[i])
    ensures t[i].path.text in Abs(t) && Abs(t)[t[i].path.text] == EntryOf(t[i])
  {
    FindUnique(t, i);
    AbsFind(t, t[i].path.text);
  }

  /** A table stands for `m` when its used slots and the keys of `m` match up. */
  lemma AbsIs(t: Table, m: Tree)
    requires WellFormed(t)
    requires forall i | 0 <= i < |t| && Used(t[i]) :: t[i].path.text in m && m[t[i].path.text] == EntryOf(t[i])
    requires forall p | p in m :: Find(t, p) >= 0
    ensures Abs(t) == m
  {
    forall p ensures p in Abs(t) <==> p in m {
      AbsFind(t, p);
    }
    forall p | p in m ensures Abs(t)[p] == m[p] {
      AbsFind(t, p);
    }
  }

  /** A well-formed table stands for a tree. */
  lemma AbsIsTree(t: Table)
    requires WellFormed(t)
    ensures IsTree(Abs(t))
  {
    AbsAt(t, 0);
    forall p | p in Abs(t) ensures PlaceOk(Abs(t), p) {
      AbsFind(t, p);
      var i := Find(t, p);
      PathIsNormal(t, i);
      PathIsAbsolute(t, i);
      CanonicalLooksUp(p);
      if i > 0 {
        ParentIsDirname(t, i);
        AbsAt(t, t[i].parent);
      }
    }
  }

  lemma AbsParent(t: Table, p: Text)
    requires WellFormed(t)
    ensures IsDirIn(Abs(t), Dirname(p)) <==> FindParent(t, p) >= 0
  {
    AbsFind(t, Dirname(p));
  }

  // ---------------------------------------------------------------- counting

  function CountUsed(t: Table): nat {
    if t == [] then 0
    else CountUsed(t[..|t| - 1]) + (if Used(t[|t| - 1]) then 1 else 0)
  }

  lemma PathsOfInit(t: Table)
    requires t != []
    ensures var init, last := t[..|t| - 1], t[|t| - 1];
      PathsOf(t) == PathsOf(init) + (if Used(last) then {last.path.text} else {})
  {
    var init, last := t[..|t| - 1], t[|t| - 1];
    forall p | p in PathsOf(init) ensures p in PathsOf(t) {
      var i :| 0 <= i < |init| && Used(init[i]) && init[i].path.text == p;
      assert t[i] == init[i];
    }
    if Used(last) {
      assert t[|t| - 1].path.text in PathsOf(t);
    }
    forall p | p in PathsOf(t)
      ensures p in PathsOf(init) + (if Used(last) then {last.path.text} else {})
    {
      var i :| 0 <= i < |t| && Used(t[i]) && t[i].path.text == p;
      if i < |init| {
        assert t[i] == init[i];
      }
    }
  }

  lemma {:induction false} PathsCount(t: Table)
    requires UniquePaths(t)
    ensures |PathsOf(t)| == CountUsed(t)
  {
    if t == [] {
      assert PathsOf(t) == {};
    } else {
      PathsOfInit(t);
      PathsCount(t[..|t| - 1]);
    }
  }

  lemma {:induction false} CountFull(t: Table)
    ensures CountUsed(t) <= |t|
    ensures CountUsed(t) == |t| <==> forall i | 0 <= i < |t| :: Used(t[i])
  {
    if t != [] {
      var init := t[..|t| - 1];
      CountFull(init);
      assert (forall i | 0 <= i < |t| :: Used(t[i])) <==> Used(t[|t| - 1]) && forall i | 0 <= i < |init| :: Used(init[i]);
    }
  }

  /** The map's size is the number of used slots. */
  lemma AbsSize(t: Table)
    requires WellFormed(t)
    ensures |Abs(t)| == CountUsed(t)
    ensures |Abs(t)| <= MAX_FILES
    ensures |Abs(t)| < MAX_FILES <==> Allocate(t) >= 0
  {
    PathsCount(t);
    assert Abs(t).Keys == PathsOf(t);
    CountFull(t);
  }

  // -------------------------------------------------------------- refinement

  lemma CreateSuccess(t: Table, p: Text, kind: int)
    requires WellFormed(t) && IsText(p) && |p| < MAX_PATH && (kind == FILE || kind == DIR)
    requires WellFormed(Create(t, p, kind).table) && Create(t, p, kind).rc == 0
    ensures Abs(Create(t, p, kind).table) == Abs(t)[p := if kind == DIR then Dir else File([])]
  {
    var i, n := Allocate(t), NewNode(t[Allocate(t)], p, kind, FindParent(t, p));
    assert Create(t, p, kind).table == t[i := n];
    assert n.path.text == p && EntryOf(n) == if kind == DIR then Dir else File([]);
    ReplaceSlot(t, i, n, Abs(t)[p := EntryOf(n)]);
  }

  lemma CreateRefines(t: Table, p: Text, kind: int)
    requires WellFormed(t) && IsText(p) && |p| < MAX_PATH && (kind == FILE || kind == DIR)
    requires WellFormed(Create(t, p, kind).table)
    ensures var o := Create(t, p, kind);
      Result(Abs(o.table), o.rc) == Add(Abs(t), p, if kind == DIR then Dir else File([]))
  {
    AbsFind(t, p);
    AbsParent(t, p);
    AbsSize(t);
    if Create(t, p, kind).rc == 0 {
      CreateSuccess(t, p, kind);
    }
  }

  /** The abstraction after one slot changed, when no other path is affected. */
  lemma ReplaceSlot(t: Table, i: nat, n: Node, m: Tree)
    requires WellFormed(t) && i < |t| && WellFormed(t[i := n]) && Used(n)
    requires Used(t[i]) ==> t[i].path.text == n.path.text
    requires m == Abs(t)[n.path.text := EntryOf(n)]
    ensures Abs(t[i := n]) == m
  {
    var t' := t[i := n];
    forall j | 0 <= j < |t'| && Used(t'[j])
      ensures t'[j].path.text in m && m[t'[j].path.text] == EntryOf(t'[j])
    {
      if j != i {
        AbsAt(t, j);
        assert t'[j].path.text != t'[i].path.text;
      }
    }
    forall p | p in m ensures Find(t', p) >= 0 {
      AbsFind(t, p);
      var j := if p == n.path.text then i else Find(t, p);
      assert Used(t'[j]) && t'[j].path.text == p;
    }
    AbsIs(t', m);
  }

  lemma WriteRefines(t: Table, p: Text, bytes: seq<byte>)
    requires WellFormed(t) && WellFormed(Write(t, p, bytes).table)
    ensures var o := Write(t, p, bytes); Result(Abs(o.table), o.rc) == Put(Abs(t), p, bytes)
  {
    var o := Write(t, p, bytes);
    AbsFind(t, p);
    if o.rc == 0 {
      var i := Find(t, p);
      assert o.table[i].data[..|bytes|] == bytes;
      ReplaceSlot(t, i, o.table[i], Abs(t)[p := File(bytes)]);
    }
  }

  lemma AppendRefines(t: Table, p: Text, bytes: seq<byte>)
    requires WellFormed(t) && WellFormed(Append(t, p, bytes).table)
    ensures var o := Append(t, p, bytes); Result(Abs(o.table), o.rc) == Extend(Abs(t), p, bytes)
  {
    var o := Append(t, p, bytes);
    AbsFind(t, p);
    if o.rc == 0 {
      var i := Find(t, p);
      var whole := t[i].data[..t[i].size] + bytes;
      assert o.table[i].data[..|whole|] == whole;
      ReplaceSlot(t, i, o.table[i], Abs(t)[p := File(whole)]);
    }
  }

  /** A child by parent index is a child by path. */
  lemma ChildByIndexIsChildByPath(t: Table, i: nat, j: nat)
    requires WellFormed(t) && i < |t| && Used(t[i]) && j < |t| && Used(t[j])
    ensures j > 0 ==> t[j].path.text != ROOT
    ensures j > 0 ==> (t[j].parent == i <==> Dirname(t[j].path.text) == t[i].path.text)
  {
    if j > 0 {
      ParentIsDirname(t, j);
      FindUnique(t, 0);
      FindUnique(t, j);
      FindUnique(t, i);
      FindUnique(t, t[j].parent);
    }
  }

  /** The slots below `n` whose parent index is `dir`, in table order. */
  function Children(t: Table, dir: int, n: nat): seq<nat>
    requires n <= |t|
  {
    if n == 0 then []
    else Children(t, dir, n - 1) + (if Used(t[n - 1]) && t[n - 1].parent == dir then [n - 1] else [])
  }

  lemma {:induction false} ChildrenByIndex(t: Table, dir: int, n: nat)
    requires n <= |t|
    ensures var c := Children(t, dir, n);
      && (forall a, b | 0 <= a < b < |c| :: c[a] < c[b])
      && (forall a | 0 <= a < |c| :: c[a] < n)
      && (forall i: nat | i < n :: i in c <==> Used(t[i]) && t[i].parent == dir)
  {
    if n > 0 {
      ChildrenByIndex(t, dir, n - 1);
    }
  }

  /** The parent-index scan visits, once each and in order, exactly the nodes whose dirname is the directory. */
  lemma ChildrenAreByPath(t: Table, dir: nat, i: nat)
    requires WellFormed(t) && dir < |t| && Used(t[dir]) && i < |t|
    ensures forall a, b | 0 <= a < b < |Children(t, dir, |t|)| :: Children(t, dir, |t|)[a] < Children(t, dir, |t|)[b]
    ensures i in Children(t, dir, |t|) <==>
      Used(t[i]) && i != 0 && Dirname(t[i].path.text) == t[dir].path.text
  {
    ChildrenByIndex(t, dir, |t|);
    if Used(t[i]) {
      ChildByIndexIsChildByPath(t, dir, i);
    }
  }

  lemma HasChildIffNotEmpty(t: Table, i: nat)
    requires WellFormed(t) && i < |t| && Used(t[i])
    ensures HasChild(t, i) <==> !IsEmptyDir(Abs(t), t[i].path.text)
  {
    var p := t[i].path.text;
    if HasChild(t, i) {
      var j :| 0 <= j < |t| && Used(t[j]) && t[j].parent == i;
      ChildByIndexIsChildByPath(t, i, j);
      AbsAt(t, j);
    }
    if !IsEmptyDir(Abs(t), p) {
      var q :| q in Abs(t) && q != ROOT && Dirname(q) == p;
      AbsFind(t, q);
      ChildByIndexIsChildByPath(t, i, Find(t, q));
    }
  }

  /** The abstraction after one slot was freed. */
  lemma ClearSlot(t: Table, i: nat, n: Node)
    requires WellFormed(t) && i < |t| && Used(t[i]) && !Used(n)
    requires WellFormed(t[i := n])
    ensures Abs(t[i := n]) == Abs(t) - {t[i].path.text}
  {
    var t', m := t[i := n], Abs(t) - {t[i].path.text};
    forall j | 0 <= j < |t| && Used(t'[j])
      ensures t'[j].path.text in m && m[t'[j].path.text] == EntryOf(t'[j])
    {
      AbsAt(t, j);
      assert t[j].path.text != t[i].path.text;
    }
    forall q | q in m ensures Find(t', q) >= 0 {
      AbsFind(t, q);
      assert Used(t'[Find(t, q)]);
    }
    AbsIs(t', m);
  }

  lemma DeleteRefines(t: Table, p: Text)
    requires WellFormed(t) && WellFormed(Delete(t, p).table)
    ensures var o := Delete(t, p); Result(Abs(o.table), o.rc) == Remove(Abs(t), p)
  {
    var o := Delete(t, p);
    AbsFind(t, p);
    FindUnique(t, 0);
    var i := Find(t, p);
    if i > 0 {
      HasChildIffNotEmpty(t, i);
    }
    if o.rc == 0 {
      ClearSlot(t, i, t[i].(used := 0));
    }
  }

  // -------------------------------------------------------------------- copy

  /** Filling a file that was just added. */
  lemma PutAfterAdd(m: Tree, p: Text, bytes: seq<byte>)
    requires Add(m, p, File([])).rc == 0 && |bytes| <= MAX_FILE_SIZE
    ensures Put(Add(m, p, File([])).tree, p, bytes) == Result(m[p := File(bytes)], 0)
  {
    assert m[p := File([])][p := File(bytes)] == m[p := File(bytes)];
  }

  /** Once the create succeeds the write cannot fail. */
  lemma CopySuccess(t: Table, from: Text, to: Text)
    requires WellFormed(t) && IsText(to) && |to| < MAX_PATH
    requires IsFileAt(t, Find(t, from)) && Create(t, to, FILE).rc == 0
    requires WellFormed(Create(t, to, FILE).table) && WellFormed(Copy(t, from, to).table)
    ensures from in Abs(t)
    ensures var o := Copy(t, from, to); Result(Abs(o.table), o.rc) == Result(Abs(t)[to := Abs(t)[from]], 0)
  {
    var made, i := Create(t, to, FILE).table, Find(t, from);
    assert made[i] == t[i];
    var bytes := t[i].data[..t[i].size];
    assert Copy(t, from, to) == Write(made, to, bytes);
    AbsFind(t, from);
    CreateRefines(t, to, FILE);
    PutAfterAdd(Abs(t), to, bytes);
    WriteRefines(made, to, bytes);
  }

  /** fs_copy is one atomic step of the reference filesystem. */
  lemma CopyRefines(t: Table, from: Text, to: Text)
    requires WellFormed(t) && IsText(to) && |to| < MAX_PATH
    requires WellFormed(Create(t, to, FILE).table) && WellFormed(Copy(t, from, to).table)
    ensures var o := Copy(t, from, to); Result(Abs(o.table), o.rc) == Duplicate(Abs(t), from, to)
  {
    AbsFind(t, from);
    CreateRefines(t, to, FILE);
    if IsFileAt(t, Find(t, from)) && Create(t, to, FILE).rc == 0 {
      CopySuccess(t, from, to);
    }
  }
}
