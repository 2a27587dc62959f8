/** The tree a machine starts with when its disk holds none. */
module DefaultTree {
  import opened Bytes
  import opened Paths
  import opened NodeTable
  import opened TreeInvariant
  import opened PathMap
  import opened Runs

  const PROGS_NAME: Text := Ascii("progs")
  const HOME_NAME: Text := Ascii("home")
  const README_NAME: Text := Ascii("readme.txt")
  const PROGS: Text := Join(ROOT, PROGS_NAME)
  const HOME: Text := Join(ROOT, HOME_NAME)
  const README: Text := Join(HOME, README_NAME)
  const WELCOME: seq<byte> := Ascii("Welcome to plDOS. Commands live in /progs as kernel-linked C modules.\n")

  predicate IsPlainName(s: string) {
    1 <= |s| < MAX_NAME && s[0] != '.' && forall i | 0 <= i < |s| :: s[i] == '.' || 'a' <= s[i] <= 'z'
  }

  lemma PlainNameIsComponent(s: string)
    requires IsPlainName(s)
    ensures IsComponent(Ascii(s))
  {
    var t := Ascii(s);
    assert t[0] != DOT;
  }

  /** One more component on a canonical path. */
  lemma ChildPath(d: Text, n: Text)
    requires CwdOk(d) && |Tokens(d)| < MAX_DEPTH && IsComponent(n) && |Join(d, n)| < MAX_PATH
    ensures CwdOk(Join(d, n)) && IsLookupPath(Join(d, n)) && ROOT <= d
    ensures |Tokens(Join(d, n))| == |Tokens(d)| + 1
    ensures Dirname(Join(d, n)) == d && Filename(Join(d, n)) == n
  {
    TokensOfPrint(Tokens(d));
    JoinIsPath(d, n);
    TokensOfPathJoin(d, n);
    TokensOfComponent(n);
    CanonicalLooksUp(Join(d, n));
    SplitJoin(d, n);
  }

  lemma RootIsCanonical()
    ensures CwdOk(ROOT) && Tokens(ROOT) == []
  {
    TokensOfPrint([]);
  }

  /** The names built into the kernel are canonical paths. */
  lemma DefaultPaths()
    ensures CwdOk(PROGS) && IsLookupPath(PROGS) && Dirname(PROGS) == ROOT && |Tokens(PROGS)| == 1
    ensures CwdOk(HOME) && IsLookupPath(HOME) && Dirname(HOME) == ROOT && |Tokens(HOME)| == 1
    ensures CwdOk(README) && IsLookupPath(README) && Dirname(README) == HOME
    ensures |PROGS| == 6 && |HOME| == 5 && |README| == 16
  {
    RootIsCanonical();
    PlainNameIsComponent("progs");
    PlainNameIsComponent("home");
    PlainNameIsComponent("readme.txt");
    ChildPath(ROOT, PROGS_NAME);
    ChildPath(ROOT, HOME_NAME);
    ChildPath(HOME, README_NAME);
  }

  function RootNode(n: Node): Node
    requires Shaped(n)
  {
    n.(used := 1, kind := DIR, parent := -1,
       name := Store(n.name, MAX_NAME, ROOT), path := Store(n.path, MAX_PATH, ROOT))
  }

  const BLANK_TABLE: Table := seq(MAX_FILES, _ => ZERO_NODE)

  function Rooted(t: Table): Table
    requires AllShaped(t)
  {
    t[0 := RootNode(t[0])]
  }

  lemma BlankIsShaped()
    ensures AllShaped(BLANK_TABLE) && IsBlank(BLANK_TABLE)
  {
    assert forall i | 0 <= i < MAX_FILES :: BLANK_TABLE[i] == ZERO_NODE;
  }

  lemma RootedIsTree(t: Table)
    requires AllShaped(t) && (forall i | 1 <= i < |t| :: !Used(t[i])) && t[0].size == 0
    ensures WellFormed(Rooted(t)) && Abs(Rooted(t)) == map[ROOT := Dir]
  {
    var r := Rooted(t);
    AbsAt(r, 0);
    forall p | p in Abs(r) ensures p == ROOT {
      AbsFind(r, p);
    }
  }

  lemma MadeIsShaped(t: Table, p: Text, kind: int)
    requires AllShaped(t) && IsText(p) && (kind == FILE || kind == DIR)
    ensures AllShaped(Create(t, p, kind).table)
    ensures WellFormed(t) && IsLookupPath(p) ==> WellFormed(Create(t, p, kind).table)
  {
    if WellFormed(t) && IsLookupPath(p) {
      CreateKeepsTree(t, p, kind);
    }
  }

  function Made(t: Table, p: Text, kind: int): (r: Table)
    requires AllShaped(t) && IsText(p) && (kind == FILE || kind == DIR)
    ensures AllShaped(r)
    ensures WellFormed(t) && IsLookupPath(p) ==> WellFormed(r)
  {
    MadeIsShaped(t, p, kind);
    Create(t, p, kind).table
  }

  predicate IsBlank(t: Table) {
    AllShaped(t) && forall i | 0 <= i < |t| :: !Used(t[i]) && t[i].size == 0 && Sealed(t[i])
  }

  lemma MadeRefines(t: Table, p: Text, kind: int)
    requires WellFormed(t) && IsLookupPath(p) && (kind == FILE || kind == DIR)
    ensures Abs(Made(t, p, kind)) == Add(Abs(t), p, if kind == DIR then Dir else File([])).tree
  {
    CreateStep(t, p, kind);
  }

  lemma WriteKeepsShape(t: Table, p: Text, bytes: seq<byte>)
    requires AllShaped(t)
    ensures AllShaped(Write(t, p, bytes).table)
  {
  }

  /** Two directories, a file in the second, and its contents. */
  function Planted(t: Table, progs: Text, home: Text, readme: Text, text: seq<byte>): (r: Table)
    requires AllShaped(t) && IsText(progs) && IsText(home) && IsText(readme)
    ensures AllShaped(r)
  {
    WriteKeepsShape(Made(Made(Made(Rooted(t), progs, DIR), home, DIR), readme, FILE), readme, text);
    Write(Made(Made(Made(Rooted(t), progs, DIR), home, DIR), readme, FILE), readme, text).table
  }

  /** The same four steps on the path map. */
  function PlantedTree(progs: Text, home: Text, readme: Text, text: seq<byte>): Tree {
    var m1 := Add(map[ROOT := Dir], progs, Dir).tree;
    var m2 := Add(m1, home, Dir).tree;
    var m3 := Add(m2, readme, File([])).tree;
    Put(m3, readme, text).tree
  }

  lemma PlantedTreeIs(progs: Text, home: Text, readme: Text, text: seq<byte>)
    requires Dirname(progs) == ROOT && Dirname(home) == ROOT && Dirname(readme) == home
    requires |progs| > |home| > 1 && |readme| > |progs| && |text| <= MAX_FILE_SIZE
    ensures PlantedTree(progs, home, readme, text) ==
      map[ROOT := Dir, progs := Dir, home := Dir, readme := File(text)]
  {
    assert Add(map[ROOT := Dir], progs, Dir).tree == map[ROOT := Dir, progs := Dir];
    assert Add(map[ROOT := Dir, progs := Dir], home, Dir).tree == map[ROOT := Dir, progs := Dir, home := Dir];
  }

  lemma PlantedRefines(blank: Table, progs: Text, home: Text, readme: Text, text: seq<byte>)
    requires IsBlank(blank) && IsLookupPath(progs) && IsLookupPath(home) && IsLookupPath(readme)
    ensures WellFormed(Planted(blank, progs, home, readme, text))
    ensures Abs(Planted(blank, progs, home, readme, text)) == PlantedTree(progs, home, readme, text)
  {
    RootedIsTree(blank);
    MadeRefines(Rooted(blank), progs, DIR);
    MadeRefines(Made(Rooted(blank), progs, DIR), home, DIR);
    var t2 := Made(Made(Rooted(blank), progs, DIR), home, DIR);
    MadeRefines(t2, readme, FILE);
    WriteStep(Made(t2, readme, FILE), readme, text);
  }

  /** create_default_tree, over whatever is in memory. */
  function DefaultTable(t: Table): (r: Table)
    requires AllShaped(t)
    ensures AllShaped(r)
  {
    DefaultTexts();
    Planted(t, PROGS, HOME, README, WELCOME)
  }

  lemma DefaultTexts()
    ensures IsLookupPath(PROGS) && IsLookupPath(HOME) && IsLookupPath(README)
  {
    DefaultPaths();
  }

  /** The default tree: a root, /progs, /home and the readme with its 70 bytes. */
  lemma DefaultTreeIs(blank: Table)
    requires IsBlank(blank)
    ensures WellFormed(DefaultTable(blank)) && |WELCOME| == 70
    ensures Abs(DefaultTable(blank)) == map[ROOT := Dir, PROGS := Dir, HOME := Dir, README := File(WELCOME)]
  {
    DefaultPaths();
    PlantedRefines(blank, PROGS, HOME, README, WELCOME);
    PlantedTreeIs(PROGS, HOME, README, WELCOME);
  }
}
