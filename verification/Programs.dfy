/** programs_init: the files under /progs, seeded at every boot. */
module Programs {
  import opened Bytes
  import opened Paths
  import opened NodeTable
  import opened TreeInvariant
  import opened PathMap
  import opened Runs
  import opened DefaultTree
  import opened NodeCodec
  import opened DiskImage
  import FileSystem

  datatype Program = Program(name: string, help: string, visible: bool)

  const FIRST_PROGRAMS: seq<Program> := [
    Program("about", "show system information", true),
    Program("cat", "view a file", true),
    Program("cd", "change directory", true),
    Program("clear", "clear the terminal", true),
    Program("cls", "clear the terminal", true),
    Program("copy", "copy a file", true),
    Program("cp", "copy a file", true),
    Program("del", "delete a file or empty folder", true),
    Program("rm", "delete a file or empty folder", true),
    Program("desktop", "developer desktop experiment", false),
    Program("disk", "show disk persistence status", true),
    Program("echo", "print text", true),
    Program("help", "list commands", true),
    Program("initdisk", "initialize persistent storage", true),
    Program("load", "load filesystem from disk", true),
    Program("ls", "list a directory", true),
    Program("dir", "list a directory", true)
  ]

  const MORE_PROGRAMS: seq<Program> := [
    Program("login", "switch to a user", true),
    Program("logout", "return to guest", true),
    Program("mkdir", "create a folder", true),
    Program("md", "create a folder", true),
    Program("move", "move or rename a file/folder", true),
    Program("mv", "move or rename a file/folder", true),
    Program("pwd", "print working directory", true),
    Program("save", "save filesystem to disk", true),
    Program("touch", "create an empty file", true),
    Program("mkf", "create an empty file", true),
    Program("useradd", "add a user", true),
    Program("userdel", "delete a user", true),
    Program("users", "list users", true),
    Program("whoami", "print current user", true),
    Program("write", "write text to a file", true),
    Program("wri", "write text to a file", true)
  ]

  const PROGRAMS: seq<Program> := FIRST_PROGRAMS + MORE_PROGRAMS

  predicate ProgramOk(p: Program) {
    IsPlainName(p.name) && |p.help| <= MAX_FILE_SIZE
  }

  predicate AllOk(ps: seq<Program>) {
    forall i | 0 <= i < |ps| :: ProgramOk(ps[i])
  }

  lemma FirstProgramsOk()
    ensures AllOk(FIRST_PROGRAMS) && |FIRST_PROGRAMS| == 17
  {
  }

  lemma MoreProgramsOk()
    ensures AllOk(MORE_PROGRAMS) && |MORE_PROGRAMS| == 16
  {
  }

  /** Every name in the kernel's table is a plain path component, and every help text fits a file. */
  lemma ProgramsOk()
    ensures AllOk(PROGRAMS) && |PROGRAMS| == 33
  {
    FirstProgramsOk();
    MoreProgramsOk();
  }

  function PathOf(p: Program): Text {
    Join(PROGS, Ascii(p.name))
  }

  lemma ProgramPath(p: Program)
    requires ProgramOk(p)
    ensures CwdOk(PathOf(p)) && IsLookupPath(PathOf(p)) && Dirname(PathOf(p)) == PROGS && |PathOf(p)| > |PROGS|
  {
    DefaultPaths();
    PlainNameIsComponent(p.name);
    ChildPath(PROGS, Ascii(p.name));
  }

  // -------------------------------------------------------- on the node table

  /** One turn of the loop: an absent visible program is touched, then written. */
  function SeedOne(t: Table, p: Program): (r: Table)
    requires WellFormed(t) && ProgramOk(p)
    ensures WellFormed(r)
  {
    ProgramPath(p);
    if !p.visible || Find(t, PathOf(p)) >= 0 then t
    else
      CreateKeepsTree(t, PathOf(p), FILE);
      var made := Create(t, PathOf(p), FILE).table;
      WriteKeepsTree(made, PathOf(p), Ascii(p.help));
      Write(made, PathOf(p), Ascii(p.help)).table
  }

  function Seed(t: Table, ps: seq<Program>): (r: Table)
    requires WellFormed(t) && AllOk(ps)
    ensures WellFormed(r)
    decreases |ps|
  {
    if ps == [] then t else Seed(SeedOne(t, ps[0]), ps[1..])
  }

  /** Seeding `p` again would change nothing: it is there, or it cannot be created. */
  predicate Settled(t: Table, p: Program)
    requires |t| >= 1
  {
    !p.visible || Find(t, PathOf(p)) >= 0 || FindParent(t, PathOf(p)) < 0 || Allocate(t) < 0
  }

  lemma SettledIsFixed(t: Table, p: Program)
    requires WellFormed(t) && ProgramOk(p) && Settled(t, p)
    ensures SeedOne(t, p) == t
  {
    ProgramPath(p);
  }

  /** Settledness, read off the path map. */
  predicate SettledIn(m: Tree, p: Program) {
    !p.visible || PathOf(p) in m || !IsDirIn(m, PROGS) || |m| >= MAX_FILES
  }

  lemma SettledAlike(t: Table, p: Program)
    requires WellFormed(t) && ProgramOk(p)
    ensures Settled(t, p) <==> SettledIn(Abs(t), p)
  {
    ProgramPath(p);
    AbsFind(t, PathOf(p));
    AbsParent(t, PathOf(p));
    AbsSize(t);
  }

  /** What one turn does to the path map. */
  function SeedTree(m: Tree, p: Program): Tree {
    if SettledIn(m, p) then m else m[PathOf(p) := File(Ascii(p.help))]
  }

  lemma SeedOneSteps(t: Table, p: Program)
    requires WellFormed(t) && ProgramOk(p) && p.visible && Find(t, PathOf(p)) < 0
    ensures Abs(SeedOne(t, p)) == Put(Add(Abs(t), PathOf(p), File([])).tree, PathOf(p), Ascii(p.help)).tree
  {
    ProgramPath(p);
    CreateStep(t, PathOf(p), FILE);
    WriteStep(Create(t, PathOf(p), FILE).table, PathOf(p), Ascii(p.help));
  }

  lemma SeedOneRefines(t: Table, p: Program)
    requires WellFormed(t) && ProgramOk(p)
    ensures Abs(SeedOne(t, p)) == SeedTree(Abs(t), p)
  {
    SettledAlike(t, p);
    if Settled(t, p) {
      SettledIsFixed(t, p);
    } else {
      ProgramPath(p);
      SeedOneSteps(t, p);
      PutAfterAdd(Abs(t), PathOf(p), Ascii(p.help));
    }
  }

  /** One turn settles its own program and unsettles no other. */
  lemma SeedTreeSettles(m: Tree, p: Program, q: Program)
    requires ProgramOk(p) && ProgramOk(q)
    ensures SettledIn(SeedTree(m, p), p)
    ensures SettledIn(m, q) ==> SettledIn(SeedTree(m, p), q)
  {
    ProgramPath(p);
  }

  lemma {:induction false} SeedSettles(t: Table, ps: seq<Program>, q: Program)
    requires WellFormed(t) && AllOk(ps) && ProgramOk(q)
    ensures Settled(t, q) || q in ps ==> Settled(Seed(t, ps), q)
    decreases |ps|
  {
    if ps != [] {
      SeedOneRefines(t, ps[0]);
      SeedTreeSettles(Abs(t), ps[0], q);
      SettledAlike(t, q);
      SettledAlike(SeedOne(t, ps[0]), q);
      SeedSettles(SeedOne(t, ps[0]), ps[1..], q);
      assert q in ps ==> q == ps[0] || q in ps[1..];
    }
  }

  lemma {:induction false} SettledSeedIsFixed(t: Table, ps: seq<Program>)
    requires WellFormed(t) && AllOk(ps) && forall q | q in ps :: Settled(t, q)
    ensures Seed(t, ps) == t
    decreases |ps|
  {
    if ps != [] {
      SettledIsFixed(t, ps[0]);
      SettledSeedIsFixed(t, ps[1..]);
    }
  }

  /** Seeding a seeded table changes nothing, however full it was and whether or not /progs exists. */
  lemma SeedIdempotent(t: Table, ps: seq<Program>)
    requires WellFormed(t) && AllOk(ps)
    ensures Seed(Seed(t, ps), ps) == Seed(t, ps)
  {
    forall q | q in ps ensures Settled(Seed(t, ps), q) {
      SeedSettles(t, ps, q);
    }
    SettledSeedIsFixed(Seed(t, ps), ps);
  }

  function SeedTrees(m: Tree, ps: seq<Program>): Tree
    decreases |ps|
  {
    if ps == [] then m else SeedTrees(SeedTree(m, ps[0]), ps[1..])
  }

  lemma {:induction false} SeedRefines(t: Table, ps: seq<Program>)
    requires WellFormed(t) && AllOk(ps)
    ensures Abs(Seed(t, ps)) == SeedTrees(Abs(t), ps)
    decreases |ps|
  {
    if ps != [] {
      SeedOneRefines(t, ps[0]);
      SeedRefines(SeedOne(t, ps[0]), ps[1..]);
    }
  }

  lemma {:induction false} SeedTreesKeep(m: Tree, ps: seq<Program>, p: Text)
    requires p in m
    ensures p in SeedTrees(m, ps) && SeedTrees(m, ps)[p] == m[p]
    decreases |ps|
  {
    if ps != [] {
      SeedTreesKeep(SeedTree(m, ps[0]), ps[1..], p);
    }
  }

  predicate IsHelpOf(ps: seq<Program>, p: Text, e: Entry) {
    exists i | 0 <= i < |ps| :: ps[i].visible && p == PathOf(ps[i]) && e == File(Ascii(ps[i].help))
  }

  lemma HelpOfRest(ps: seq<Program>, p: Text, e: Entry)
    requires ps != [] && IsHelpOf(ps[1..], p, e)
    ensures IsHelpOf(ps, p, e)
  {
    var i :| 0 <= i < |ps[1..]| && ps[1..][i].visible && p == PathOf(ps[1..][i]) && e == File(Ascii(ps[1..][i].help));
    assert ps[i + 1] == ps[1..][i];
  }

  lemma {:induction false} SeedTreesAdd(m: Tree, ps: seq<Program>, p: Text)
    ensures p in SeedTrees(m, ps) && p !in m ==> IsHelpOf(ps, p, SeedTrees(m, ps)[p])
    ensures |SeedTrees(m, ps)| <= |m| + |ps|
    decreases |ps|
  {
    if ps != [] {
      var m1 := SeedTree(m, ps[0]);
      SeedTreesAdd(m1, ps[1..], p);
      if p in m1 {
        SeedTreesKeep(m1, ps[1..], p);
      } else if p in SeedTrees(m, ps) {
        HelpOfRest(ps, p, SeedTrees(m, ps)[p]);
      }
    }
  }

  /** Seeding keeps every entry that is there, and adds only help texts of visible programs, at their programs' paths. */
  lemma SeedIs(t: Table, ps: seq<Program>, p: Text)
    requires WellFormed(t) && AllOk(ps)
    ensures p in Abs(t) ==> p in Abs(Seed(t, ps)) && Abs(Seed(t, ps))[p] == Abs(t)[p]
    ensures p in Abs(Seed(t, ps)) && p !in Abs(t) ==> IsHelpOf(ps, p, Abs(Seed(t, ps))[p])
    ensures |Abs(Seed(t, ps))| <= |Abs(t)| + |ps|
  {
    SeedRefines(t, ps);
    if p in Abs(t) {
      SeedTreesKeep(Abs(t), ps, p);
    }
    SeedTreesAdd(Abs(t), ps, p);
  }

  /** With /progs there and room enough, every visible program is there afterwards. */
  lemma SeedAddsAll(t: Table, ps: seq<Program>, q: Program)
    requires WellFormed(t) && AllOk(ps) && q in ps && q.visible
    requires IsDirIn(Abs(t), PROGS) && |Abs(t)| + |ps| < MAX_FILES
    ensures PathOf(q) in Abs(Seed(t, ps))
  {
    SeedSettles(t, ps, q);
    SettledAlike(Seed(t, ps), q);
    SeedIs(t, ps, PROGS);
  }

  /** The path a program is seeded at, assembled as in programs_init. */
  lemma SeedPathText(p: Program)
    requires ProgramOk(p)
    ensures Ascii("/progs/") + Ascii(p.name) == PathOf(p)
  {
    assert PROGS == Ascii("/progs");
    assert PROGS + ROOT == Ascii("/progs/");
    assert PROGS != ROOT;
  }

  // ------------------------------------------------------------ on the volume

  method ProgramsInit(fs: FileSystem.Volume, ps: seq<Program>)
    requires fs.Valid() && AllOk(ps)
    modifies fs`persistence, fs.nodes, fs.drive
    ensures fs.Valid() && fs.persistence == old(fs.persistence)
    ensures fs.nodes[..] == Seed(old(fs.nodes[..]), ps)
  {
    assert ps[0..] == ps;
    for i := 0 to |ps|
      invariant fs.Valid() && fs.persistence == old(fs.persistence)
      invariant Seed(fs.nodes[..], ps[i..]) == Seed(old(fs.nodes[..]), ps)
    {
      assert ps[i..][0] == ps[i] && ps[i..][1..] == ps[i + 1..];
      SeedVolume(fs, ps[i]);
    }
  }

  method SeedVolume(fs: FileSystem.Volume, p: Program)
    requires fs.Valid() && ProgramOk(p)
    modifies fs`persistence, fs.nodes, fs.drive
    ensures fs.Valid() && fs.persistence == old(fs.persistence)
    ensures fs.nodes[..] == SeedOne(old(fs.nodes[..]), p)
  {
    if !p.visible { return; }
    var path := Ascii("/progs/") + Ascii(p.name);
    SeedPathText(p);
    ProgramPath(p);
    ResolveOfCanonical(fs.currentDir, path);
    AbsFind(fs.nodes[..], path);
    var found := fs.Exists(path);
    if !found {
      var _ := fs.CreateNode(path, FILE);
      var _ := fs.WriteNode(path, Ascii(p.help));
    }
  }

  /** fs_init followed by programs_init. */
  method Boot(fs: FileSystem.Volume, ps: seq<Program>)
    requires fs.nodes.Length == MAX_FILES && fs.Bootable() && AllOk(ps)
    modifies fs, fs.nodes, fs.drive
    ensures fs.Valid() && !fs.booting && fs.currentDir == ROOT
    ensures fs.Working() ==> fs.persistence
    ensures old(fs.Loads(fs.drive.medium, fs.drive.calls)) ==>
              forall t: Table | WellFormed(t) && Holds(old(fs.drive.medium), EncodeTable(t)) ::
                fs.nodes[..] == Seed(t, ps)
    ensures !old(fs.Loads(fs.drive.medium, fs.drive.calls)) ==>
              IsBlank(BLANK_TABLE) && WellFormed(DefaultTable(BLANK_TABLE))
              && fs.nodes[..] == Seed(DefaultTable(BLANK_TABLE), ps)
  {
    fs.Init();
    ProgramsInit(fs, ps);
  }

  /** Booting twice with nothing between is booting once. */
  method BootTwice(fs: FileSystem.Volume, ps: seq<Program>) returns (ghost first: Table)
    requires fs.nodes.Length == MAX_FILES && fs.Bootable() && fs.Working() && AllOk(ps)
    modifies fs, fs.nodes, fs.drive
    ensures fs.Valid() && !fs.booting && fs.currentDir == ROOT && fs.persistence
    ensures fs.nodes[..] == first
    ensures old(fs.Loads(fs.drive.medium, fs.drive.calls)) ==>
              forall t: Table | WellFormed(t) && Holds(old(fs.drive.medium), EncodeTable(t)) :: first == Seed(t, ps)
    ensures !old(fs.Loads(fs.drive.medium, fs.drive.calls)) ==>
              IsBlank(BLANK_TABLE) && WellFormed(DefaultTable(BLANK_TABLE))
              && first == Seed(DefaultTable(BLANK_TABLE), ps)
  {
    Boot(fs, ps);
    first := fs.nodes[..];
    assert exists t: Table :: WellFormed(t) && first == Seed(t, ps);
    ghost var t :| WellFormed(t) && first == Seed(t, ps);
    SeedIdempotent(t, ps);
    FileSystem.EncodedLength(first);
    Boot(fs, ps);
  }
}
