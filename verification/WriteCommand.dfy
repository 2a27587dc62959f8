/** The shell's `write` command: a line is trimmed, split, joined again, and stored in a file. */
module WriteCommand {
  import opened Bytes
  import opened Paths
  import opened NodeTable
  import opened PathMap
  import opened Runs
  import CString
  import FileSystem
  import Shell

  const LINE_SIZE := 256
  const MAX_ARGS := 16

  /** The words with a space between each. */
  function Joined(args: seq<Text>): Text {
    if args == [] then []
    else if |args| == 1 then args[0]
    else args[0] + [SPACE] + Joined(args[1..])
  }

  predicate AreTexts(args: seq<Text>) {
    forall i | 0 <= i < |args| :: IsText(args[i])
  }

  lemma {:induction false} JoinedLength(args: seq<Text>)
    ensures args != [] ==> |Joined(args)| + 1 == Shell.Footprint(args)
    ensures AreTexts(args) ==> IsText(Joined(args))
  {
    if |args| > 1 {
      JoinedLength(args[1..]);
      assert args[0] + [SPACE] + Joined(args[1..]) == Joined(args);
    } else if |args| == 1 {
      assert args[1..] == [];
    }
  }

  /** The loop's partial text is the words so far, each but the last with its space. */
  lemma {:induction false} JoinedSnoc(args: seq<Text>, last: Text)
    ensures Joined(args + [last]) == (if args == [] then [] else Joined(args) + [SPACE]) + last
  {
    if args == [] {
      assert args + [last] == [last];
    } else {
      assert (args + [last])[1..] == args[1..] + [last];
      JoinedSnoc(args[1..], last);
      if |args| == 1 {
        assert args[1..] == [];
      }
    }
  }

  lemma {:induction false} FootprintDrop(args: seq<Text>, k: nat)
    requires k <= |args|
    ensures Shell.Footprint(args[k..]) <= Shell.Footprint(args)
    decreases k
  {
    if k == 0 {
      assert args[0..] == args;
    } else {
      FootprintDrop(args[1..], k - 1);
      assert args[1..][k - 1..] == args[k..];
    }
  }

  /** The words of a joined text, when each has no blank and does not start with a quote, are the arguments of that text. */
  lemma {:induction false} JoinedSplitsBack(args: seq<Text>, max: nat)
    requires forall i | 0 <= i < |args| :: Shell.WordOk(Shell.Bare(args[i]))
    ensures Shell.Args(Joined(args), max) == args[..Min(|args|, max)]
  {
    var ws := Bares(args);
    BaresLine(args);
    BaresTexts(args, max);
    Shell.ArgsOfLine(ws, max);
  }

  function Bares(args: seq<Text>): (ws: seq<Shell.Word>)
    ensures |ws| == |args|
  {
    if args == [] then [] else [Shell.Bare(args[0])] + Bares(args[1..])
  }

  lemma {:induction false} BaresLine(args: seq<Text>)
    requires forall i | 0 <= i < |args| :: Shell.WordOk(Shell.Bare(args[i]))
    ensures Shell.WordsOk(Bares(args)) && Shell.Line(Bares(args)) == Joined(args)
  {
    if args != [] {
      BaresLine(args[1..]);
      assert Bares(args)[1..] == Bares(args[1..]);
    }
  }

  lemma {:induction false} BaresTexts(args: seq<Text>, max: nat)
    ensures Shell.Texts(Bares(args), max) == args[..Min(|args|, max)]
    decreases max
  {
    if args != [] && max > 0 {
      BaresTexts(args[1..], max - 1);
      assert Bares(args)[1..] == Bares(args[1..]);
      assert args[..Min(|args|, max)] == [args[0]] + args[1..][..Min(|args| - 1, max - 1)];
    }
  }

  /** A line of the shell's buffer never overflows the text buffer of `write`. */
  lemma LineFitsBuffer(line: Text, max: nat)
    requires |line| < LINE_SIZE && |Shell.Args(line, max)| >= 3
    ensures |Joined(Shell.Args(line, max)[2..])| + 2 <= MAX_FILE_SIZE
  {
    var args := Shell.Args(line, max);
    Shell.ArgsFitLine(line, max);
    FootprintDrop(args, 2);
    JoinedLength(args[2..]);
  }

  lemma {:induction false} ArgsAreTexts(s: Text, max: nat)
    requires IsText(s)
    ensures AreTexts(Shell.Args(s, max))
    decreases max
  {
    var t := Shell.SkipBlanks(s);
    SkippedIsText(s);
    if max > 0 && t != [] {
      ArgsAreTexts(Shell.Rest(t), max - 1);
    }
  }

  lemma {:induction false} SkippedIsText(s: Text)
    requires IsText(s)
    ensures IsText(Shell.SkipBlanks(s))
  {
    if s != [] && Shell.IsSeparator(s[0]) {
      SkippedIsText(s[1..]);
    }
  }

  // ------------------------------------------------------------ the command

  /** Created when absent, then overwritten. */
  function PutNew(m: Tree, p: Text, bytes: seq<byte>): Result {
    if p in m then Put(m, p, bytes)
    else
      var made := Add(m, p, File([]));
      if made.rc != 0 then made else Put(made.tree, p, bytes)
  }

  /** For a text that fits, the command succeeds exactly on a file, or on a new name in a directory with room left. */
  lemma PutNewSucceedsIff(m: Tree, p: Text, bytes: seq<byte>)
    requires |bytes| <= MAX_FILE_SIZE
    ensures PutNew(m, p, bytes).rc == 0 <==> IsFileIn(m, p) || IsFreeName(m, p)
    ensures PutNew(m, p, bytes).rc != 0 ==> PutNew(m, p, bytes).tree == m
  {
  }

  /** A successful write reads back. */
  lemma PutNewReadsBack(m: Tree, p: Text, bytes: seq<byte>)
    requires PutNew(m, p, bytes).rc == 0
    ensures var r := PutNew(m, p, bytes).tree;
      && IsFileIn(r, p) && r[p].content == bytes
      && (forall q | q != p :: q in r <==> q in m) && (forall q | q in m && q != p :: r[q] == m[q])
  {
  }

  /** The text after `i` words: each of them, and a space unless it was the last. */
  function Partial(words: seq<Text>, i: nat): Text
    requires i <= |words|
  {
    if i == 0 then [] else Joined(words[..i]) + (if i < |words| then [SPACE] else [])
  }

  lemma PartialStep(words: seq<Text>, i: nat)
    requires i < |words|
    ensures Partial(words, i + 1) == Partial(words, i) + words[i] + (if i + 1 < |words| then [SPACE] else [])
  {
    assert words[..i + 1] == words[..i] + [words[i]];
    JoinedSnoc(words[..i], words[i]);
  }

  lemma {:induction false} PartialFits(words: seq<Text>, i: nat)
    requires i <= |words|
    ensures |Partial(words, i)| <= |Joined(words)|
    decreases |words| - i
  {
    if i == |words| {
      assert words[..i] == words;
    } else {
      PartialStep(words, i);
      PartialFits(words, i + 1);
    }
  }

  /** The words from the third on, joined in a 4096-byte buffer. */
  method JoinArgs(words: seq<Text>, text: array<byte>)
    requires words != [] && AreTexts(words) && text.Length == MAX_FILE_SIZE
    requires |Joined(words)| + 2 <= MAX_FILE_SIZE
    modifies text
    ensures NUL in text[..] && CString.TextOf(text) == Joined(words) + [NEWLINE]
  {
    CString.StrCopyN(text, [], MAX_FILE_SIZE);
    for i := 0 to |words|
      invariant NUL in text[..] && CString.TextOf(text) == Partial(words, i)
    {
      PartialStep(words, i);
      PartialFits(words, i + 1);
      CString.StrConcat(text, words[i]);
      if i + 1 < |words| {
        CString.StrConcat(text, [SPACE]);
      }
    }
    assert words[..|words|] == words;
    CString.StrConcat(text, [NEWLINE]);
  }

  /** prog_write. */
  method ProgWrite(fs: FileSystem.Volume, args: seq<Text>) returns (rc: int)
    requires fs.Valid() && AreTexts(args)
    requires |args| >= 3 ==> PathFits(fs.currentDir, args[1]) && |Joined(args[2..])| + 2 <= MAX_FILE_SIZE
    modifies fs`persistence, fs.nodes, fs.drive
    ensures fs.Valid() && fs.currentDir == old(fs.currentDir)
    ensures |args| < 3 ==> rc == 1 && fs.nodes[..] == old(fs.nodes[..])
    ensures |args| >= 3 ==>
              Result(Abs(fs.nodes[..]), rc) ==
              PutNew(Abs(old(fs.nodes[..])), Resolve(old(fs.currentDir), args[1]), Joined(args[2..]) + [NEWLINE])
    ensures |args| >= 3 ==>
              var m, p := Abs(old(fs.nodes[..])), Resolve(old(fs.currentDir), args[1]);
              rc == 0 <==> IsFileIn(m, p) || IsFreeName(m, p)
  {
    if |args| < 3 { return 1; }
    var text := new byte[MAX_FILE_SIZE];
    JoinArgs(args[2..], text);
    PutNewSucceedsIff(Abs(fs.nodes[..]), Resolve(fs.currentDir, args[1]), CString.TextOf(text));
    rc := StoreText(fs, args[1], CString.TextOf(text));
  }

  /** A file written by the command reads back as its words, joined and ended by a newline. */
  method WriteThenRead(fs: FileSystem.Volume, args: seq<Text>) returns (rc: int, count: int, bytes: seq<byte>)
    requires fs.Valid() && AreTexts(args) && |args| >= 3
    requires PathFits(fs.currentDir, args[1]) && |Joined(args[2..])| + 2 <= MAX_FILE_SIZE
    modifies fs`persistence, fs.nodes, fs.drive
    ensures fs.Valid()
    ensures rc == 0 ==> bytes == Joined(args[2..]) + [NEWLINE] && count == |bytes|
    ensures rc == 0 ==>
              var m, r, p := Abs(old(fs.nodes[..])), Abs(fs.nodes[..]), Resolve(old(fs.currentDir), args[1]);
              (forall q | q != p :: q in r <==> q in m) && (forall q | q in m && q != p :: r[q] == m[q])
  {
    ghost var m, p, text := Abs(fs.nodes[..]), Resolve(fs.currentDir, args[1]), Joined(args[2..]) + [NEWLINE];
    rc := ProgWrite(fs, args);
    if rc == 0 {
      PutNewReadsBack(m, p, text);
    }
    count, bytes := fs.ReadNode(args[1], MAX_FILE_SIZE);
  }

  method StoreText(fs: FileSystem.Volume, path: Text, bytes: seq<byte>) returns (rc: int)
    requires fs.Valid() && PathFits(fs.currentDir, path)
    modifies fs`persistence, fs.nodes, fs.drive
    ensures fs.Valid() && fs.currentDir == old(fs.currentDir)
    ensures Result(Abs(fs.nodes[..]), rc) ==
            PutNew(Abs(old(fs.nodes[..])), Resolve(old(fs.currentDir), path), bytes)
  {
    ghost var t := fs.nodes[..];
    var found := fs.Exists(path);
    if !found {
      rc := Touch(fs, path);
      if rc != 0 { return; }
    }
    WriteStep(fs.nodes[..], Resolve(fs.currentDir, path), bytes);
    rc := fs.WriteNode(path, bytes);
  }

  method Touch(fs: FileSystem.Volume, path: Text) returns (rc: int)
    requires fs.Valid() && PathFits(fs.currentDir, path)
    modifies fs`persistence, fs.nodes, fs.drive
    ensures fs.Valid() && fs.currentDir == old(fs.currentDir)
    ensures Result(Abs(fs.nodes[..]), rc) == Add(Abs(old(fs.nodes[..])), Resolve(old(fs.currentDir), path), File([]))
  {
    ResolvedLooksUp(fs.currentDir, path);
    CreateStep(fs.nodes[..], Resolve(fs.currentDir, path), FILE);
    rc := fs.CreateNode(path, FILE);
  }

  /** One turn of the shell on a `write` line: trim, split in place, join, store. */
  method WriteLine(fs: FileSystem.Volume, line: array<byte>) returns (rc: int, ghost args: seq<Text>)
    requires fs.Valid() && line.Length == LINE_SIZE && NUL in line[..]
    requires var given := Shell.Args(CString.Trim(CString.TextOf(line)), MAX_ARGS);
             |given| >= 3 ==> PathFits(fs.currentDir, given[1])
    modifies line, fs`persistence, fs.nodes, fs.drive
    ensures args == Shell.Args(CString.Trim(old(CString.TextOf(line))), MAX_ARGS)
    ensures fs.Valid() && fs.currentDir == old(fs.currentDir)
    ensures |args| < 3 ==> rc == 1 && fs.nodes[..] == old(fs.nodes[..])
    ensures |args| >= 3 ==>
              Result(Abs(fs.nodes[..]), rc) ==
              PutNew(Abs(old(fs.nodes[..])), Resolve(old(fs.currentDir), args[1]), Joined(args[2..]) + [NEWLINE])
  {
    ghost var t := fs.nodes[..];
    CString.StrTrim(line);
    ghost var text := CString.TextOf(line);
    assert |text| < LINE_SIZE by { assert NUL in line[..]; }
    ArgsAreTexts(text, MAX_ARGS);
    if |Shell.Args(text, MAX_ARGS)| >= 3 {
      LineFitsBuffer(text, MAX_ARGS);
    }
    var words := SplitLine(line);
    args := words;
    assert fs.nodes[..] == t;
    rc := ProgWrite(fs, words);
  }

  /** The texts at the offsets that shell_parse leaves. */
  method SplitLine(line: array<byte>) returns (words: seq<Text>)
    requires NUL in line[..]
    modifies line
    ensures words == Shell.Args(old(CString.TextOf(line)), MAX_ARGS)
  {
    var argv := new nat[MAX_ARGS];
    var argc;
    ghost var args;
    argc, args := Shell.ShellParse(line, argv, MAX_ARGS);
    words := [];
    for k := 0 to argc
      invariant words == args[..k]
    {
      words := words + [Shell.TextAt(line, argv[k])];
    }
  }
}
