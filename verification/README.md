# plDOS kernel model

A Dafny model of the parts of the plDOS kernel that hold state: the in-memory filesystem and its copy on an
ATA disk, the VGA terminal with its scrollback and line editor, the shell's tokenizer, the commands and boot
code that sit on top of them, and the table of users. Each routine that changes state is a method over arrays
or object fields, proved against a function of the old state; lemmas then say what those functions mean.

## How the model is built

- **Bytes and strings.** A byte is a number below 256, a C string is the bytes before its first NUL. A fixed
  buffer is its text plus the stale bytes behind the NUL, so that copying a shorter string keeps the old tail,
  as `str_copy_n` does, and a saved table keeps every byte.
- **Paths** (`Paths`, `Resolver`, `ResolveBounds`). Normalisation is a fold over tokens: names are cut every 31
  bytes, `.` and `..` are applied, and the stack holds sixteen components. `Resolver` runs it in two 128-byte
  buffers.
- **The node table** (`NodeTable`, `TreeInvariant`, `Rebuild`, `MoveInside`). 128 nodes carry both a parent index and a full
  path. The invariant `WellFormed` ties the two together; it makes parent links acyclic because a path is longer
  than its parent's.
- **The reference filesystem** (`PathMap`, `MoveRefinement`, `TreeLaws`, `Runs`, `Limits`). A map from paths to `Dir` or
  `File(bytes)`, with no indices. Every call on the table refines one call on the map, return code included,
  and so does every run of calls.
- **The disk** (`Disk`, `NodeCodec`, `DiskImage`, `SaveHistory`). A medium maps sector numbers to 256 words; an
  oracle decides which requests are served. A save is a header and 512-byte chunks of the raw table. After any
  history of saves, cut short or not, every sector has a version, and versions never rise along the disk.
- **Crashes** (`Splice`, `Crash`, `MoveCrash`, `Recovery`, `PartialBoot`, `Reboot`, `LostTree`). A save cut short
  leaves a table spliced from two, a load cut short one spliced with zeros. These modules say which such tables are
  trees, what a reboot finds after each call, and show two ways to lose the tree.
- **The volume** (`FileSystem`, `DefaultTree`, `Programs`). A class with the kernel's statics as fields. Its
  invariant says that the tree is well formed and, once booted with persistence on and a disk that answers, that
  the disk holds exactly the table in memory.
- **The terminal** (`Transcript`, `Terminal`). An unbounded transcript with a cursor is the specification; the
  200-row ring and the 25-row viewport refine it.
- **The shell** (`CString`, `Shell`, `WriteCommand`) and the **users** (`Users`).

## What the code needs from its callers

These conditions are not checked by the kernel; they are preconditions here, or one side of an equivalence.

- `fs_move` checks neither that a directory moves outside itself nor that the paths below it still fit 127 bytes.
  `MoveTreeIff` shows that, its lookups successful, some well-formed tree has the links, names and path that the
  call leaves behind if and only if both hold. `RebuildDepthIff` shows that the nested calls of
  `rebuild_child_paths` have no bound exactly when the destination is below the source. `DefaultMoveInside` is such
  a move on a freshly planted disk: `/home` to `/home/progs`.
- `fs_resolve_path` joins into a 128-byte buffer and prints into another. `ResolveWeight` gives the exact length
  that the second one must hold: the components left on the stack, with a slash each. Without `.` and `..` those
  are the first sixteen tokens (`FitsExactly`); with them, which components are left depends on the order of pops
  and on the full stack, so that the text alone gives only the bound of `ResolveLength`. `LongNameOverflows` is a
  name for which the second buffer is too small although the first is not.
- A move can push paths deeper than the sixteen components a path may have. Such a path is still listed, but no
  call can name it; `MovedReachableIff` says exactly which paths a move leaves nameable, and `DefaultDeepMove`
  hides one: fifteen directories below `/progs`, then `/progs` moved to `/home/home`.
- `fs_disk_load` does not validate what it reads, and a save is not atomic. `Volume.Init` gives a valid volume from a
  complete load if and only if the disk holds a tree. A create, delete, write or append whose save is cut short always
  leaves one (`CrashThenReboot`). A move may not: `MoveTornIff` says exactly when, for cuts outside the moved names,
  and `TornMoveThenReboot` loses the tree of a new disk by moving `/home` to `/progs/home`.
- A load that stops at a data sector is not undone: `fs_init` plants the default tree over the slots already loaded and
  saves the result. `PlantedIff` says exactly when that is a tree; in `OrphanedBoot` it is not, because `/progs` takes
  the slot of a directory that was not loaded, and the tree on disk is overwritten.
- A row scrolled to after the cursor was backed up may be outside the last 200 rows; `OwnerIsExact` and
  `RenderedRow` say which row is shown instead, and exactly when it is the right one. `BackedUpView` prints 200
  newlines and a backspace, after which the top of the scrollback shows line 200 in the place of line 0.
- `users_logout` is documented in the program table as a return to guest, but selects slot 1 whoever holds it.
  `Accounts.Exec` says exactly when a call leaves guest in that slot, and `RunThenLogout` that a logout is a return to
  guest after any run that does not try to remove guest. After an accepted removal it leaves nobody with an account
  logged in (`LogoutWithoutGuest`) until somebody is added, whom it then logs in (`LogoutIntoAnother`); guest itself
  may come back that way, and cannot be removed while logged in (`GuestComesBack`).
- `io_print_int` negates its argument, so the least 32-bit number is excluded; sums of file sizes stay below
  2^32; a typed line is short enough that its start stays in the ring.
- A backspace can move the cursor out of the last 200 rows. It then writes to the line that has taken the slot:
  `RingPrint` is what the ring does anywhere, and `RingPrintIs` says when that is what the transcript does.

## Model

| member | source | states |
|---|---|---|
| Paths.SplitJoin | kernel/string.c:105-125 | splitting a joined path at its last slash gives back the directory and the name |
| Paths.JoinSplit | kernel/string.c:105-125 | a normal path other than the root is its dirname joined with its filename |
| Paths.TokensJoin | kernel/filesystem.c:86-101 | tokenising is a homomorphism at every slash, cut names included |
| Paths.TokensOfPrint | kernel/filesystem.c:86-122 | printing components and tokenising the result gives the components back |
| Paths.ResolveIsCanonical | kernel/filesystem.c:66-125 | every result is canonical: at most 16 components of 1 to 31 bytes, no slash, none `.` or `..` |
| Paths.ResolveOfCanonical | kernel/filesystem.c:66-125 | a canonical path resolves to itself from any directory, within both buffers |
| Paths.ResolveIdempotent | kernel/filesystem.c:66-125 | resolving twice is resolving once |
| Paths.ResolveComposes | kernel/filesystem.c:66-139 | resolving `a` and then relative `b` from there is resolving `a/b`, saturation and cut names included |
| Paths.ResolveDots | kernel/filesystem.c:66-125 | from a canonical directory `..` is its dirname, at the root too, and `.` and the empty text are the directory itself |
| Paths.ResolveParent | kernel/filesystem.c:66-125 | `a/..` is the dirname of what `a` is |
| ResolveBounds.ResolveLength | kernel/filesystem.c:92-122 | the result is at most the text plus one byte per cut, which is enough for both buffers when below 128 |
| ResolveBounds.ResolveWeight | kernel/filesystem.c:103-124 | the exact length of every result, and exactly when both buffers suffice: the components left on the stack, with a slash each |
| ResolveBounds.FitsExactly | kernel/filesystem.c:92-124 | without dots the buffers suffice exactly when the text and its first sixteen tokens, with a slash each, are below 128 bytes |
| ResolveBounds.LongNameOverflows | kernel/filesystem.c:92-122 | a 126-byte name fits the first buffer and needs 131 bytes in the second |
| CString.StrLen | kernel/string.c:16-22 | the length of the text before the first NUL, inside the buffer |
| CString.StrCopyN | kernel/string.c:31-42 | the truncated text and a NUL are stored and every later byte keeps its value |
| CString.StrConcat | kernel/string.c:44-51 | the buffer's text is extended, with the whole new buffer stated |
| CString.StrCompare | kernel/string.c:53-59 | zero exactly for equal strings, otherwise the difference of the first differing bytes |
| CString.StrLastIndexOf | kernel/string.c:95-103 | the last index of a byte or -1 |
| CString.PathGetDirname | kernel/string.c:113-125 | the loop computes the dirname function |
| CString.PathGetFilename | kernel/string.c:105-111 | the text after the last slash |
| CString.StrTrim | kernel/string.c:70-84 | in place, the text loses exactly its blanks at both ends |
| CString.TrimIs | kernel/string.c:70-84 | spaces, tabs and newlines go at both ends, and nothing else does |
| Resolver.ParseComponents | kernel/filesystem.c:85-114 | the scanning loops leave the fold of all tokens on the stack |
| Resolver.PrintComponents | kernel/filesystem.c:116-122 | the concatenations print the components within the buffer |
| Resolver.ResolvePath | kernel/filesystem.c:66-125 | the buffers of fs_resolve_path compute the normal form |
| NodeTable.BelowIsUnder | kernel/filesystem.c:508-523 | following parent links and comparing path prefixes find the same descendants |
| NodeTable.PathIsNormal | kernel/filesystem.c:508-517 | every used path is in normal form |
| NodeTable.NoOrphans | kernel/filesystem.c:489-506 | no used path lies below a path that find_node does not find |
| NodeTable.ParentIsDirname | kernel/filesystem.c:498-506 | find_parent of a used path is its stored parent, and its split is its parent's path and its name |
| TreeInvariant.CreateKeepsTree | kernel/filesystem.c:141-201 | creating keeps the table well formed |
| TreeInvariant.DeleteKeepsTree | kernel/filesystem.c:203-225 | deleting keeps the table well formed |
| TreeInvariant.WriteKeepsTree | kernel/filesystem.c:274-312 | writing and appending keep the table well formed |
| TreeInvariant.CopyKeepsTree | kernel/filesystem.c:259-272 | copying keeps the table well formed |
| TreeInvariant.RehungUnique | kernel/filesystem.c:238-254 | no rewritten path collides with an untouched or another rewritten one |
| TreeInvariant.MoveKeepsTree | kernel/filesystem.c:227-257 | moving outside itself, with fitting paths, keeps the table well formed |
| MoveInside.MoveTreeIff | kernel/filesystem.c:227-257 | the links, names and path a move leaves behind belong to some well-formed tree exactly when the destination is not below the source and every path below it fits |
| MoveInside.RebuildDepthIff | kernel/filesystem.c:508-523 | the recursion nests to every depth exactly when the destination is below the source; otherwise less deeply than a path is long |
| Limits.MoveIntoItself | kernel/filesystem.c:238-256 | every move below itself that the lookups let through leaves no tree and recurses to every depth |
| Limits.DefaultMoveInside | kernel/filesystem.c:227-257 | on the default tree, moving /home to /home/progs is such a move |
| Rebuild.BranchIs | kernel/filesystem.c:508-523 | the recursion through a child reaches that child and everything below it, and nothing else |
| PathMap.AbsIsTree | kernel/filesystem.c:489-506 | a well-formed table stands for a rooted, prefix-closed map of paths |
| PathMap.AbsSize | kernel/filesystem.c:480-487 | the map has as many entries as used nodes, and is full exactly when allocation fails |
| PathMap.ChildrenAreByPath | kernel/filesystem.c:338-349 | the parent-index scan visits, once each and in order, the nodes whose dirname is the directory |
| PathMap.HasChildIffNotEmpty | kernel/filesystem.c:213-220 | the emptiness scan by index agrees with emptiness by path |
| TreeLaws.CopyAllOrNothing | kernel/filesystem.c:259-272 | a copy succeeds exactly when the source is a file and the create succeeds; otherwise nothing changes; one node more, equal contents |
| MoveRefinement.RehungIsRekeyed | kernel/filesystem.c:248-254 | a move re-keys exactly the source and the paths below it, and keeps every entry |
| MoveRefinement.MoveRefines | kernel/filesystem.c:227-257 | fs_move is the rename of the path map, error cases included, and keeps the tree |
| TreeLaws.AddThenRemove | kernel/filesystem.c:141-225 | creating and then deleting restores the tree |
| TreeLaws.WriteReplaces | kernel/filesystem.c:274-292 | a file holds what was last written, up to 4096 bytes, and every other entry is as before |
| TreeLaws.WriteThenAppend | kernel/filesystem.c:274-312 | an append after a write is a write of both texts, refused alike |
| TreeLaws.AppendsJoin | kernel/filesystem.c:294-312 | two appends are one append of both texts, refused alike |
| TreeLaws.MoveUndone | kernel/filesystem.c:227-257 | moving and moving back both succeed and restore every entry |
| TreeLaws.MoveConserves | kernel/filesystem.c:227-257 | a move loses and merges no entries |
| TreeLaws.DeepPathsUnreachable | kernel/filesystem.c:111-113 | no call resolves to a path of more than sixteen components |
| Limits.MoveDeeper | kernel/filesystem.c:111-113 | a move that takes an entry beyond sixteen components succeeds, keeps the entry, and leaves no call that can name it |
| Limits.DefaultDeepMove | kernel/filesystem.c:227-257 | after fifteen directories are made below /progs, moving /progs to /home/home is such a move |
| TreeLaws.MovedReachableIff | kernel/filesystem.c:111-113 | after a move a path below the destination can be named exactly when its new depth is at most sixteen |
| Runs.CreateStep | kernel/filesystem.c:141-201 | creating is adding to the path map: taken, no parent directory, full, or added empty |
| Runs.DeleteStep | kernel/filesystem.c:203-225 | deleting is removing from the path map: absent, root and non-empty directories are refused |
| Runs.WriteStep | kernel/filesystem.c:274-312 | writing and appending replace and extend one file's contents, up to 4096 bytes |
| Runs.CopyStep | kernel/filesystem.c:259-272 | copying is one atomic step of the path map |
| Runs.StepSucceedsIff | kernel/filesystem.c:127-312 | exactly when each call succeeds, spelled out; one that fails returns 1 and changes nothing; only a change of directory changes the directory |
| Runs.StepRefines | kernel/filesystem.c:127-312 | every call keeps the table well formed and does what the path map says, return code included |
| Runs.RunRefines | kernel/filesystem.c:127-312 | every run of calls does, and ends in a tree |
| NodeCodec.U32RoundTrip | kernel/filesystem.c:546-558 | read_u32 undoes write_u32 |
| NodeCodec.U32Bytes | kernel/filesystem.c:546-551 | the four bytes, least significant first |
| NodeCodec.NodeRoundTrip | kernel/filesystem.h:30-38 | decoding the bytes of a node gives the node |
| NodeCodec.TableRoundTrip | kernel/filesystem.c:407-478 | decoding the bytes of a table gives the table, stale buffer bytes included |
| NodeCodec.RawTableRoundTrip | kernel/filesystem.c:443-478 | any raw image of the right length is the image of the table it decodes to |
| Disk.UnpackPack | kernel/disk.c:118-146 | bytes survive the trip through 16-bit words, in place |
| Disk.PackAt | kernel/disk.c:118-146 | each word is an even byte in its low half and the next byte in its high half |
| Disk.Drive.ReadSector | kernel/disk.c:102-125 | a served read fills the buffer with the sector; a refused one leaves it |
| Disk.Drive.WriteSector | kernel/disk.c:127-152 | a served write replaces exactly one sector; a refused one none |
| DiskImage.WrittenAt | kernel/filesystem.c:424-437 | a save stopped after k sectors has changed exactly those k |
| DiskImage.InterruptedSave | kernel/filesystem.c:424-437 | byte by byte: the new table before the failing sector, the old image after it |
| DiskImage.SaveHolds | kernel/filesystem.c:407-441 | a complete save holds the table, for any length and whatever was on the disk |
| DiskImage.HeaderBytes | kernel/filesystem.c:415-422 | the header, byte by byte |
| DiskImage.HeaderOkIff | kernel/filesystem.c:453-462 | a header is accepted exactly when its first 24 bytes are those that a save writes |
| DiskImage.NewDiskHasNoHeader | kernel/filesystem.c:453-462 | a disk that was never written is refused |
| FileSystem.SaveSectors | kernel/filesystem.c:428-437 | a table is 546816 bytes; a save takes 1069 sectors from 2048 on and touches no other |
| DiskImage.SaveThenLoad | kernel/filesystem.c:407-478 | a load after a save gives back every byte, whatever was in memory |
| DiskImage.CrashThenLoad | kernel/filesystem.c:424-473 | loading after an interrupted save gives the new bytes up to the failing sector and the last saved ones after it |
| DiskImage.SaveRaw | kernel/filesystem.c:407-441 | the sector loop writes the whole image exactly when every request is served, and else the prefix before the first refused one |
| DiskImage.LoadRaw | kernel/filesystem.c:443-478 | the sector loop loads everything exactly when the header is there and every request is served; nothing on a bad header; else the sectors before the refused request |
| SaveHistory.OneSave | kernel/filesystem.c:407-441 | after one save, finished or not, the sectors it reached are new and the rest are as before |
| SaveHistory.SavesJoin | kernel/filesystem.c:407-441 | after any saves each sector is what one of them writes there, or older; later sectors are never newer than earlier ones; no other sector changes |
| SaveHistory.VersionByte | kernel/filesystem.c:461-473 | a load reads each byte from the save that its sector comes from |
| Splice.CutEarly | kernel/filesystem.h:30-38 | a node cut in its name or path keeps the old kind, parent, size, data and used flag |
| Splice.CutLate | kernel/filesystem.h:30-38 | a node cut in its data has the new name, path and links, and the old used flag |
| Splice.SplicedTables | kernel/filesystem.c:424-473 | bytes of one table and then of another decode to whole slots of the one, at most one cut slot, and whole slots of the other |
| Crash.TornDisk | kernel/filesystem.c:407-441 | after a save cut short the disk holds exactly that spliced table |
| Crash.TornIsTree | kernel/filesystem.c:407-478 | that disk holds a tree exactly when the spliced table is one |
| Crash.DeleteTorn | kernel/filesystem.c:203-225 | a delete is atomic: any cut of its save leaves the table before or after |
| Crash.CreateTorn | kernel/filesystem.c:141-201 | a create is atomic on the path map |
| Crash.WriteTorn | kernel/filesystem.c:274-292 | a cut write leaves the same tree but for the file: as it was, or its new length with new bytes up to some point |
| Crash.AppendTorn | kernel/filesystem.c:294-312 | a cut append keeps the tree and what the file held |
| MoveCrash.MoveTornIff | kernel/filesystem.c:227-257 | a cut move, outside the moved names, leaves a tree exactly when the save reached all moved slots or none |
| Recovery.RunSeals | kernel/string.c:31-42 | every run keeps the last byte of each name and path buffer NUL, in free slots too |
| Recovery.DefaultSeals | kernel/filesystem.c:525-538 | so has the table of a new disk |
| Recovery.CallTorn | kernel/filesystem.c:141-312 | whatever sector the save of a create, delete, write or append stops at, a tree is left, as the call allows |
| Reboot.CrashThenReboot | kernel/filesystem.c:40-60 | the call, the refused request and the reboot: the volume is valid again |
| LostTree.DefaultMoveLost | kernel/filesystem.c:227-257 | on a new disk, moving /home to /progs/home and stopping the save between their slots leaves the header and no tree |
| LostTree.TornMoveThenReboot | kernel/filesystem.c:40-60 | that move and a reboot end with a volume that is not valid |
| FileSystem.StoreIsStrCopyN | kernel/string.c:31-42 | storing a text in a node's buffer leaves the raw bytes that str_copy_n leaves |
| Runs.RunSavesLead | kernel/filesystem.c:540-544 | the tables saved in a run are well formed, and the last one is the table the run ends with |
| PartialBoot.PlantedIff | kernel/filesystem.c:40-60 | the default tree planted over a partial load is a tree exactly when each loaded node's parent slot still holds its directory |
| PartialBoot.ClosedLoadIsTree | kernel/filesystem.c:40-60 | in particular when every loaded node's parent was loaded |
| LostTree.Orphaned | kernel/filesystem.c:40-60 | a loaded node in a directory that was not loaded, whose slot /progs then takes: no tree |
| LostTree.OrphanedBoot | kernel/filesystem.c:40-60 | such a boot leaves no tree in memory and overwrites the one on disk |
| FileSystem.Volume.FindNode | kernel/filesystem.c:489-496 | the scan finds the first used node with the path |
| FileSystem.Volume.DiskSave | kernel/filesystem.c:407-441 | afterwards the disk holds the table, or a prefix of its image over the old contents |
| FileSystem.Volume.DiskLoad | kernel/filesystem.c:443-478 | the table is replaced, partly replaced from its start, or untouched |
| FileSystem.Volume.PersistIfEnabled | kernel/filesystem.c:540-544 | after it the disk mirrors the table, if persistence is on and the machine has booted; a disk that refuses a request holds the image up to that sector over its old contents |
| FileSystem.Volume.ChangeDir | kernel/filesystem.c:127-139 | succeeds exactly when the resolved path is a directory of the path map, which is then the current directory; otherwise it stays |
| FileSystem.Volume.CreateNode | kernel/filesystem.c:141-201 | the table becomes what creating gives, and stays mirrored |
| FileSystem.Volume.DeleteNode | kernel/filesystem.c:203-225 | the table becomes what deleting gives, and stays mirrored |
| FileSystem.Volume.WriteNode | kernel/filesystem.c:274-292 | the table becomes what writing gives, and stays mirrored |
| FileSystem.Volume.AppendNode | kernel/filesystem.c:294-312 | the table becomes what appending gives, and stays mirrored |
| FileSystem.Volume.CopyNode | kernel/filesystem.c:259-272 | the table becomes what copying gives, and stays mirrored |
| FileSystem.Volume.RebuildChildPaths | kernel/filesystem.c:508-523 | terminates; every path below the node is rewritten to its place in the goal and nothing else changes |
| FileSystem.Volume.MoveNode | kernel/filesystem.c:227-257 | the table becomes what moving gives, descendants included, and stays mirrored |
| FileSystem.Volume.ReadNode | kernel/filesystem.c:314-326 | the first bytes of a file of the path map, or -1 |
| FileSystem.Volume.ListDir | kernel/filesystem.c:328-351 | the slots listed are the directory's children in table order |
| FileSystem.Volume.Exists | kernel/filesystem.c:353-357 | whether the path map has the path |
| FileSystem.Volume.Exec | kernel/filesystem.c:127-312 | each call acts as its step on the table and keeps the volume valid |
| FileSystem.Volume.Run | kernel/filesystem.c:127-312 | a run of calls keeps the tree and the mirror, and computes the run of the path map; on a disk that refuses requests the tables saved in the run, in their order, have left their sectors as `SaveHistory` says |
| FileSystem.Volume.Init | kernel/filesystem.c:40-60 | booting loads what the disk holds exactly when every request is served, which is a valid volume exactly when it is a tree; or it plants the default tree, over cleared memory or over a partial load, and saves it |
| FileSystem.Volume.FirstBoot | kernel/filesystem.c:40-60 | the first boot on a working disk that was never written plants the default tree and saves it |
| Reboot.NewMachine | kernel/filesystem.c:40-60 | from a new drive: a valid volume, the default tree in memory and on the disk |
| FileSystem.Volume.Reload | kernel/filesystem.c:443-478 | loading back at any point changes nothing but the current directory |
| FileSystem.Volume.RunThenReboot | kernel/filesystem.c:40-60 | after any run, a reboot from a working disk restores the table, at the root directory |
| DefaultTree.DefaultTreeIs | kernel/filesystem.c:525-538 | the default tree is the root, /progs, /home and the 70-byte readme |
| Programs.ProgramsOk | progs/programs.c:43-79 | all 33 program names are path components and their help texts fit a file |
| Programs.SeedIdempotent | progs/programs.c:81-94 | seeding a seeded table changes nothing, also when it is full or has no /progs |
| Programs.SeedIs | progs/programs.c:81-94 | seeding keeps every entry and adds only help texts of visible programs, at their paths |
| Programs.SeedAddsAll | progs/programs.c:81-94 | with /progs there and room enough, every visible program is there afterwards |
| Programs.ProgramsInit | progs/programs.c:81-94 | the loop seeds exactly the absent visible programs |
| Programs.BootTwice | kernel/kernel.c:20-27 | booting twice with nothing between is booting once |
| Shell.ArgsFitLine | kernel/kernel.c:96-129 | the arguments with a byte after each are no longer than the line and one byte, and at most the limit |
| Shell.ArgsOfLine | kernel/kernel.c:96-129 | joining words by single spaces and splitting the line gives them back, up to the limit: a bare word is any bytes but space and tab that do not start with a quote, a quoted one any but a quote |
| Shell.ArgsOfWord | kernel/kernel.c:96-129 | a word and one space or tab in front of anything is one argument more |
| Shell.ArgsOfBlanks | kernel/kernel.c:101-106 | spaces and tabs in front of a line do not matter |
| Shell.ArgsOfQuoted | kernel/kernel.c:110-125 | a quoted argument ends at its closing quote, whatever follows |
| Shell.ArgsOfOpenQuote | kernel/kernel.c:110-125 | a quote that is never closed takes the rest of the line |
| Shell.TypedLineReadsBack | kernel/kernel.c:68-75 | trimming leaves such a line as it is, so that typing words, trimming and splitting gives the words back |
| Shell.ShellParse | kernel/kernel.c:96-129 | after the in-place cuts every offset reads its argument; the arguments lie apart; only NULs were written |
| WriteCommand.LineFitsBuffer | progs/write.c:16-39 | the text joined from any line of the shell's buffer fits the command's buffer |
| WriteCommand.JoinArgs | progs/write.c:31-37 | the concatenations leave the words joined by spaces and a newline |
| WriteCommand.JoinedSplitsBack | progs/write.c:31-37 | splitting the joined text of bare words gives the words back |
| WriteCommand.PutNewSucceedsIff | progs/write.c:25-40 | for a text that fits, storing it succeeds exactly when the path is a file or a free name in a directory, with a slot to spare |
| WriteCommand.ProgWrite | progs/write.c:16-41 | the command creates the file if absent and stores the joined words; it succeeds exactly when the path is a file or a free name |
| WriteCommand.WriteThenRead | progs/write.c:16-41 | after a successful write the file reads back as the words joined by spaces and a newline, and no other entry changed |
| WriteCommand.WriteLine | kernel/kernel.c:62-94 | a typed line is trimmed, split in place, joined and stored without overflow; with fewer than three words nothing changes |
| Transcript.PrintableStep | kernel/io.c:207-240 | a printed character takes the cursor's cell, leaves all earlier cells, and moves on by one, across a wrap too |
| Transcript.TextFlows | kernel/io.c:207-246 | text printed on a cleared screen fills rows of eighty from the top left, and the cursor follows it |
| Transcript.PrintableFrame | kernel/io.c:207-240 | it changes that one cell and, when it wraps, the next line, which is blank then |
| Transcript.NewLineStep | kernel/io.c:208-215 | a newline goes to the start of the next line, blanks it, and changes no other |
| Transcript.ReturnStep | kernel/io.c:217-226 | a carriage return only moves the cursor, and a backspace at the very start does nothing |
| Transcript.ClearedIsBlank | kernel/io.c:144-152 | a cleared screen is blank, with the cursor at its start |
| Transcript.BackspaceStep | kernel/io.c:190-205 | a backspace blanks the cell before the cursor and moves onto it, across a wrap too |
| Transcript.BackspaceFrame | kernel/io.c:190-205 | and changes no other cell |
| Transcript.EchoShows | kernel/io.c:336-361 | after any key the screen shows the edited buffer behind the prompt, the cursor follows it, and cells that were blank before typing are blank behind it |
| Transcript.EditTypes | kernel/io.c:336-361 | typing characters that fit appends them |
| Transcript.EditErases | kernel/io.c:348-354 | a backspace undoes the character before it |
| Transcript.EditIgnores | kernel/io.c:336-361 | a character for which there is no room, a backspace with nothing typed and a scroll key leave the line as it is |
| Transcript.EditEnds | kernel/io.c:342-347 | a newline ends the line |
| Transcript.DigitsReadBack | kernel/io.c:253-273 | the digits printed for a number read back as the number |
| Transcript.DecimalReadsBack | kernel/io.c:253-273 | a minus sign exactly for a negative number, and the digits of its absolute value |
| Terminal.OwnerIsExact | kernel/io.c:88-113 | which line owns a ring slot, and exactly when it is the line asked for |
| Terminal.RenderedRow | kernel/io.c:96-122 | every rendered row is the transcript row that owns its slot, and blank beyond the cursor's line |
| Terminal.LatestTopIs | kernel/io.c:65-70 | the latest view contains the cursor, and is the first that does |
| Terminal.OldestIs | kernel/io.c:88-95 | the oldest row on offer is the first of the last 200, or row 0 |
| Terminal.InRingIff | kernel/io.c:88-113 | exactly when the cursor is still within the last 200 rows |
| Terminal.BackedUpRow | kernel/io.c:88-113 | with the cursor backed up one row after the ring filled, the oldest row on offer shows the highest line |
| Terminal.BackedUpView | kernel/io.c:154-240 | a letter, 200 newlines, a backspace and page-ups: the top row shows line 200 where line 0 belongs |
| Terminal.RingGrow | kernel/io.c:214-237 | a new line takes the slot of the one that leaves the last 200 |
| Terminal.Console.Render | kernel/io.c:96-122 | the screen shows the viewport; the clamps never fire |
| Terminal.Console.ScrollUp | kernel/io.c:154-163 | the viewport moves up one row, down to the oldest row kept |
| Terminal.Console.ScrollDown | kernel/io.c:165-171 | the viewport moves down one row, up to the latest view |
| Terminal.Console.ScrollPageUp | kernel/io.c:173-177 | the viewport moves up 24 rows or to the oldest |
| Terminal.Console.ScrollPageDown | kernel/io.c:179-183 | the viewport moves down 24 rows or to the latest |
| Terminal.Console.ScrollKey | kernel/io.c:317-331 | Up, Down, the page keys and Home move the view one row up or down, 24 rows up or down, to the latest view, within what is kept |
| Terminal.Console.FollowOutput | kernel/io.c:124-126 | the latest view is shown, and within the last 200 rows it shows the row of the cursor as the transcript has it |
| Terminal.Console.ClearScreen | kernel/io.c:144-152 | the transcript starts again, blank |
| Terminal.RingPrintIs | kernel/io.c:190-240 | within the last 200 rows the ring prints what the transcript does, and only a backspace leaves them |
| Terminal.Console.DoBackspace | kernel/io.c:190-205 | what a backspace does to the ring, wherever the cursor is; within the last 200 rows that is the transcript's, and the screen shows the row of the cursor |
| Terminal.Console.PrintCell | kernel/io.c:207-240 | what every character does to the ring, which within the last 200 rows is what the transcript does; after any but a carriage return the screen shows the row of the cursor |
| Terminal.Console.PrintString | kernel/io.c:242-246 | the same for a whole text, backspaces included |
| Terminal.Console.PrintInt | kernel/io.c:253-273 | the decimal text of the number is printed, sign first |
| Terminal.Console.TakeKey | kernel/io.c:317-357 | one key does to the transcript, the text typed so far and the view what the specification of a key says |
| Terminal.Console.ReadKeys | kernel/io.c:336-358 | so do any keys, so that transcript, text and view are known after every prefix of them |
| Terminal.Console.ReadLine | kernel/io.c:336-361 | for every sequence of keys, scrolling included, the buffer is the edited line, the screen showed it with only blanks behind it, and then shows the row of the cursor |
| Users.EnumerationIsExact | kernel/users.c:104-126 | the listing has every active user exactly once, root among them |
| Users.Accounts.Add | kernel/users.c:47-65 | the return code for each case, and the first free slot taken |
| Users.Accounts.Remove | kernel/users.c:67-80 | never root or the current user; nobody else changes |
| Users.Accounts.Login | kernel/users.c:82-89 | succeeds exactly for an active name |
| Users.Accounts.Logout | kernel/users.c:91-94 | the current user becomes slot 1: a return to guest exactly when guest is still there |
| Users.Accounts.Exec | kernel/users.c:47-94 | exactly when a call leaves guest in slot 1: kept unless removed while somebody else is logged in, or taken by an accepted addition to a free slot |
| Users.Accounts.RunThenLogout | kernel/users.c:47-94 | after any run without a removal of guest somebody with an account is logged in, and a logout returns to guest |
| Users.LogoutWithoutGuest | kernel/users.c:67-94 | guest removed, then a logout: nobody with an account is logged in |
| Users.LogoutIntoAnother | kernel/users.c:47-94 | guest removed and an administrator added: a logout logs that administrator in |
| Users.GuestComesBack | kernel/users.c:47-94 | guest removed and added again gets the logout back, and cannot be removed while logged in |
| Users.Accounts.Count | kernel/users.c:104-112 | the number of active users |
| Users.Accounts.Get | kernel/users.c:114-126 | the index-th active user in table order, or none |

## Left out

- Port input and output, busy and request polling and drive detection in `kernel/disk.c`: hardware. An oracle
  decides whether each request is served, and a request fails before any data moves.
- VGA registers, the hardware cursor, the PS/2 port and the scancode table in `kernel/io.c`: hardware. Input is a
  sequence of characters and scroll keys, the screen an array of rows of cells, a colour one byte.
- The messages that the filesystem prints, and what `fs_list_dir` prints for each slot it visits.
- `kernel/kernel_connector.c` and the other `progs/*.c` commands: dispatch and printing only.
- `kernel/memory.c`, `progs/desktop.c`, `src/`, `include/` and the boot code: unused here or not part of the kernel.
- `fs_is_file`, `fs_is_dir`, `fs_get_file_size`, `fs_get_file_info`, `io_print_hex`, `str_compare_n` and
  `str_starts_with`: each is one lookup or one loop over a text.
- `programs_find` and the shell's dispatch on the first word: `WriteCommand.WriteLine` starts where the command is
  known to be `write`.
- FileSystem.Volume.Init: leaves out a disk with the kernel's header that holds no tree and also refuses a data sector:
  names without a NUL would then be read past their buffers.
- MoveCrash.MoveTornIff: says nothing of a cut within the name or the path of a moved slot, which leaves a text spliced
  from two.
- Wrap-around of the 32-bit line counter: `Terminal.Console.line` is unbounded.
- Passwords and permissions: the kernel has none.
