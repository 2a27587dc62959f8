/** The node table of the filesystem as a value: its invariant, and what each call does to it. */
module NodeTable {
  import opened Bytes
  import opened Paths

  const MAX_FILES := 128
  const MAX_FILE_SIZE := 4096
  const FILE := 0
  const DIR := 1

  /** A fixed C buffer: the text before its first NUL, and the stale bytes after that NUL. */
  datatype Buf = Buf(text: Text, slack: seq<byte>)

  predicate Terminated(b: Buf, cap: nat) {
    IsText(b.text) && |b.text| + 1 + |b.slack| == cap
  }

  function RawBytes(b: Buf): seq<byte> {
    b.text + [NUL] + b.slack
  }

  /** str_copy_n into a buffer: the text, a NUL, and the old bytes beyond it. */
  function Store(b: Buf, cap: nat, s: Text): (r: Buf)
    requires cap > 0 && Terminated(b, cap) && IsText(s)
    ensures Terminated(r, cap)
    ensures r.text == s[..Min(|s|, cap - 1)]
  {
    var n := Min(|s|, cap - 1);
    Buf(s[..n], RawBytes(b)[n + 1..])
  }

  datatype Node = Node(name: Buf, path: Buf, kind: int, parent: int, size: int, data: seq<byte>, used: int)

  type Table = seq<Node>

  predicate IsInt32(x: int) {
    -0x8000_0000 <= x < 0x8000_0000
  }

  /** The value fits the C struct. */
  predicate Shaped(n: Node) {
    && Terminated(n.name, MAX_NAME) && Terminated(n.path, MAX_PATH)
    && IsInt32(n.kind) && IsInt32(n.parent) && IsInt32(n.used)
    && 0 <= n.size < 0x1_0000_0000 && |n.data| == MAX_FILE_SIZE
  }

  /** The last byte of both buffers is NUL, as str_copy_n leaves it. */
  predicate Sealed(n: Node)
    requires Shaped(n)
  {
    RawBytes(n.name)[MAX_NAME - 1] == NUL && RawBytes(n.path)[MAX_PATH - 1] == NUL
  }

  const ZERO_NODE: Node := Node(Buf([], Zeros(MAX_NAME - 1)), Buf([], Zeros(MAX_PATH - 1)),
                                FILE, 0, 0, Zeros(MAX_FILE_SIZE), 0)

  predicate Used(n: Node) {
    n.used != 0
  }

  predicate RootOk(n: Node) {
    Used(n) && n.kind == DIR && n.parent == -1 && n.path.text == ROOT && n.size == 0
  }

  predicate LinkOk(t: Table, i: nat)
    requires i < |t|
  {
    var n := t[i];
    && 0 <= n.parent < |t| && Used(t[n.parent]) && t[n.parent].kind == DIR
    && IsComponent(n.name.text)
    && ROOT <= t[n.parent].path.text
    && n.path.text == Join(t[n.parent].path.text, n.name.text)
  }

  predicate ContentOk(n: Node) {
    (n.kind == FILE && n.size <= MAX_FILE_SIZE) || (n.kind == DIR && n.size == 0)
  }

  predicate AllShaped(t: Table) {
    |t| == MAX_FILES && forall i | 0 <= i < |t| :: Shaped(t[i])
  }

  predicate UniquePaths(t: Table) {
    forall i, j | 0 <= i < j < |t| && Used(t[i]) && Used(t[j]) :: t[i].path.text != t[j].path.text
  }

  predicate Linked(t: Table) {
    forall i {:trigger LinkOk(t, i)} | 1 <= i < |t| && Used(t[i]) :: LinkOk(t, i)
  }

  predicate Filled(t: Table) {
    forall i | 1 <= i < |t| && Used(t[i]) :: ContentOk(t[i])
  }

  /** The tree invariant: parent links and path strings describe the same tree. */
  predicate WellFormed(t: Table) {
    AllShaped(t) && RootOk(t[0]) && Linked(t) && Filled(t) && UniquePaths(t)
  }

  // --------------------------------------------------------------- the scans

  function FindFrom(t: Table, p: Text, i: nat): (r: int)
    requires i <= |t|
    ensures r == -1 || i <= r < |t|
    ensures r == -1 ==> forall j | i <= j < |t| :: !(Used(t[j]) && t[j].path.text == p)
    ensures r >= 0 ==> Used(t[r]) && t[r].path.text == p
    ensures r >= 0 ==> forall j | i <= j < r :: !(Used(t[j]) && t[j].path.text == p)
    decreases |t| - i
  {
    if i == |t| then -1
    else if Used(t[i]) && t[i].path.text == p then i
    else FindFrom(t, p, i + 1)
  }

  /** find_node. */
  function Find(t: Table, p: Text): (r: int)
    ensures -1 <= r < |t|
  {
    FindFrom(t, p, 0)
  }

  /** find_parent. */
  function FindParent(t: Table, p: Text): (r: int)
    ensures -1 <= r < |t|
    ensures r >= 0 ==> Used(t[r]) && t[r].kind == DIR && t[r].path.text == Dirname(p)
  {
    var r := Find(t, Dirname(p));
    if r >= 0 && t[r].kind == DIR then r else -1
  }

  function AllocateFrom(t: Table, i: nat): (r: int)
    requires i <= |t|
    ensures r == -1 || i <= r < |t|
    ensures r == -1 ==> forall j | i <= j < |t| :: Used(t[j])
    ensures r >= 0 ==> !Used(t[r]) && forall j | i <= j < r :: Used(t[j])
    decreases |t| - i
  {
    if i == |t| then -1 else if !Used(t[i]) then i else AllocateFrom(t, i + 1)
  }

  /** allocate_node never hands out slot 0. */
  function Allocate(t: Table): (r: int)
    requires |t| >= 1
    ensures r == -1 || 1 <= r < |t|
  {
    AllocateFrom(t, 1)
  }

  predicate HasChild(t: Table, d: int) {
    exists i | 0 <= i < |t| :: Used(t[i]) && t[i].parent == d
  }

  // ------------------------------------------------------------ tree lemmas

  lemma FindUnique(t: Table, i: nat)
    requires UniquePaths(t) && i < |t| && Used(t[i])
    ensures Find(t, t[i].path.text) == i
  {
  }

  /** `j` is a proper descendant of `a`, following parent links. */
  predicate Below(t: Table, a: nat, j: nat)
    requires WellFormed(t) && a < |t| && j < |t|
    decreases |t[j].path.text|
  {
    j > 0 && Used(t[j]) &&
    (assert LinkOk(t, j);
     t[j].parent == a || Below(t, a, t[j].parent))
  }

  lemma PathIsAbsolute(t: Table, j: nat)
    requires WellFormed(t) && j < |t| && Used(t[j])
    ensures ROOT <= t[j].path.text && 1 <= |t[j].path.text| < MAX_PATH
    ensures IsText(t[j].path.text)
  {
    assert j > 0 ==> LinkOk(t, j);
  }

  /** Every path in the table is in normal form. */
  lemma {:induction false} PathIsNormal(t: Table, j: nat)
    requires WellFormed(t) && j < |t| && Used(t[j])
    ensures IsPath(t[j].path.text)
    decreases |t[j].path.text|
  {
    if j == 0 {
      PrintIsCanonical([]);
    } else {
      assert LinkOk(t, j);
      PathIsNormal(t, t[j].parent);
      JoinIsPath(t[t[j].parent].path.text, t[j].name.text);
    }
  }

  /** Following parent links and comparing path prefixes find the same descendants. */
  lemma {:induction false} BelowIsUnder(t: Table, a: nat, j: nat)
    requires WellFormed(t) && a < |t| && j < |t| && Used(t[a]) && Used(t[j])
    ensures Below(t, a, j) <==> IsUnder(t[a].path.text, t[j].path.text)
    decreases |t[j].path.text|
  {
    PathIsAbsolute(t, a);
    if j > 0 {
      assert LinkOk(t, j);
      var q := t[j].parent;
      PathIsAbsolute(t, q);
      UnderJoin(t[a].path.text, t[q].path.text, t[j].name.text);
      BelowIsUnder(t, a, q);
      if t[a].path.text == t[q].path.text {
        FindUnique(t, a);
        FindUnique(t, q);
      }
    }
  }

  /** No used path lies below a path that is not in the table. */
  lemma {:induction false} NoOrphans(t: Table, p: Text, j: nat)
    requires WellFormed(t) && j < |t| && Used(t[j])
    requires p != [] && Find(t, p) == -1
    ensures !IsUnder(p, t[j].path.text)
    decreases |t[j].path.text|
  {
    if j > 0 {
      assert LinkOk(t, j);
      var q := t[j].parent;
      NoOrphans(t, p, q);
      UnderJoin(p, t[q].path.text, t[j].name.text);
    }
  }

  /** The parent index scan and the dirname lookup agree. */
  lemma ParentIsDirname(t: Table, i: nat)
    requires WellFormed(t) && 1 <= i < |t| && Used(t[i])
    ensures 0 <= t[i].parent < |t| && FindParent(t, t[i].path.text) == t[i].parent
    ensures Dirname(t[i].path.text) == t[t[i].parent].path.text
    ensures Filename(t[i].path.text) == t[i].name.text
  {
    assert LinkOk(t, i);
    PathIsAbsolute(t, t[i].parent);
    SplitJoin(t[t[i].parent].path.text, t[i].name.text);
    FindUnique(t, t[i].parent);
  }

  // ------------------------------------------------------- what the calls do

  datatype Outcome = Outcome(table: Table, rc: int)

  function NewNode(slot: Node, p: Text, kind: int, parent: int): Node
    requires Shaped(slot) && IsText(p)
  {
    Node(Store(slot.name, MAX_NAME, Filename(p)), Store(slot.path, MAX_PATH, p), kind, parent, 0, slot.data, 1)
  }

  /** fs_create_file and fs_create_dir. */
  function Create(t: Table, p: Text, kind: int): Outcome
    requires AllShaped(t) && IsText(p)
  {
    if Find(t, p) >= 0 || FindParent(t, p) < 0 || Allocate(t) < 0 then Outcome(t, 1)
    else
      var i := Allocate(t);
      Outcome(t[i := NewNode(t[i], p, kind, FindParent(t, p))], 0)
  }

  /** fs_delete. */
  function Delete(t: Table, p: Text): Outcome {
    var i := Find(t, p);
    if i <= 0 || (t[i].kind == DIR && HasChild(t, i)) then Outcome(t, 1)
    else Outcome(t[i := t[i].(used := 0)], 0)
  }

  function Overwrite(n: Node, at: nat, bytes: seq<byte>): Node
    requires at + |bytes| <= |n.data|
  {
    n.(data := n.data[..at] + bytes + n.data[at + |bytes|..], size := at + |bytes|)
  }

  predicate IsFileAt(t: Table, i: int) {
    0 <= i < |t| && t[i].kind == FILE
  }

  /** fs_write_file. */
  function Write(t: Table, p: Text, bytes: seq<byte>): Outcome
    requires AllShaped(t)
  {
    var i := Find(t, p);
    if !IsFileAt(t, i) || |bytes| > MAX_FILE_SIZE then Outcome(t, 1)
    else Outcome(t[i := Overwrite(t[i], 0, bytes)], 0)
  }

  /** fs_append_file. */
  function Append(t: Table, p: Text, bytes: seq<byte>): Outcome
    requires AllShaped(t)
  {
    var i := Find(t, p);
    if !IsFileAt(t, i) || t[i].size + |bytes| > MAX_FILE_SIZE then Outcome(t, 1)
    else Outcome(t[i := Overwrite(t[i], t[i].size, bytes)], 0)
  }

  /** fs_copy: create the destination, then write the source's bytes to it. */
  function Copy(t: Table, from: Text, to: Text): Outcome
    requires WellFormed(t) && IsText(to)
  {
    var i := Find(t, from);
    if !IsFileAt(t, i) then Outcome(t, 1)
    else
      var made := Create(t, to, FILE);
      if made.rc != 0 then made else
      assert Shaped(t[i]) && AllShaped(made.table);
      Write(made.table, to, made.table[i].data[..made.table[i].size])
  }

  /** Node `j` once node `i` is re-parented, renamed to `to`, and every path below it rewritten. */
  function RehungNode(t: Table, i: nat, parent: int, to: Text, j: nat): (n: Node)
    requires WellFormed(t) && i < |t| && IsText(to) && j < |t|
  {
    var from := t[i].path.text;
    if j == i then
      t[i].(parent := parent, name := Store(t[i].name, MAX_NAME, Filename(to)),
            path := Store(t[i].path, MAX_PATH, to))
    else if Below(t, i, j) && |from| <= |t[j].path.text| then
      t[j].(path := Store(t[j].path, MAX_PATH, to + t[j].path.text[|from|..]))
    else t[j]
  }

  function Rehung(t: Table, i: nat, parent: int, to: Text): (r: Table)
    requires WellFormed(t) && i < |t| && IsText(to)
    ensures |r| == |t|
  {
    seq(|t|, j requires 0 <= j < |t| => RehungNode(t, i, parent, to, j))
  }

  /** Every rewritten descendant path still fits its buffer. */
  predicate MoveFits(t: Table, from: Text, to: Text) {
    forall j | 0 <= j < |t| && Used(t[j]) && IsUnder(from, t[j].path.text) ::
      |to| + |t[j].path.text| - |from| < MAX_PATH
  }

  /** fs_move. */
  function Move(t: Table, from: Text, to: Text): Outcome
    requires WellFormed(t) && IsText(to)
  {
    var i := Find(t, from);
    if i <= 0 || Find(t, to) >= 0 || FindParent(t, to) < 0 then Outcome(t, 1)
    else Outcome(Rehung(t, i, FindParent(t, to), to), 0)
  }
}
