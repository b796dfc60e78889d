/** The tables of TecnicoFS implement the abstract file system. */
module FsRefinement {
  import opened CTypes
  import opened FsState
  import opened FsOperations
  import opened FsInvariant
  import opened FsRuns
  import opened FsDirectory
  import FsLinks
  import opened FsReads
  import opened FsAbstract

  // ---- the abstraction ----

  function Taken(taken: seq<bool>): (r: set<int>)
    ensures forall k :: k in r <==> 0 <= k < |taken| && taken[k]
  {
    set k: int | 0 <= k < |taken| && taken[k]
  }

  function LiveSlots(dir: seq<DirEntry>): (r: set<int>)
    ensures forall k :: k in r <==> 0 <= k < |dir| && dir[k].inumber != -1
  {
    set k: int | 0 <= k < |dir| && dir[k].inumber != -1
  }

  function FileOf(s: State, i: int): AFile
    requires s.Shape() && s.ValidInum(i)
  {
    if IsLink(s, i) then Alias(if LinkText(s, i).Some? then LinkText(s, i).value else []) else Plain(Content(s, i))
  }

  function Names(dir: seq<DirEntry>): map<CString, int> {
    map n | n in (set k | k in LiveSlots(dir) :: dir[k].name) :: FindInDir(dir, n)
  }

  lemma NamesIs(dir: seq<DirEntry>)
    ensures forall n :: n in Names(dir) <==> FindSlot(dir, n) != -1
    ensures forall n :: n in Names(dir) ==> Names(dir)[n] == FindInDir(dir, n)
  {
    assert forall n: CString :: FindSlot(dir, n) != -1 ==> FindSlot(dir, n) in LiveSlots(dir);
  }

  function Files(s: State): map<int, AFile>
    requires s.Shape()
  {
    map i | i in Taken(s.inodeTaken) - {ROOT_DIR_INUM} :: FileOf(s, i)
  }

  function Handles(s: State): map<int, OpenEntry>
    requires s.Shape()
  {
    map h | h in Taken(s.openTaken) :: s.open[h]
  }

  /** The abstract file system a snapshot stands for. */
  function Abs(s: State): AFs
    requires s.Shape()
  {
    AFs(Names(s.dir), Files(s), Handles(s))
  }

  function LimitsOf(s: State): Limits
    requires s.Mounted()
  {
    Limits(|s.inodes| - 1, |s.dir|, |s.open|, |s.blockTaken| - 1, s.blockSize)
  }

  // ---- what must hold for it ----

  ghost predicate CursorsInside(s: State)
    requires s.Shape()
  {
    forall h :: s.IsOpen(h) ==> s.ValidInum(s.open[h].inumber) && CursorInside(s, h)
  }

  ghost predicate Good(s: State) {
    Inv(s) && UniqueNames(s.dir) && ExactCounts(s) && CursorsInside(s)
  }

  /** A truncating open that finds a handle further into the file than its start. */
  ghost predicate StrandsCursor(s: State, path: CString)
    requires s.Mounted()
  {
    exists h :: s.IsOpen(h) && s.open[h].offset > 0 && Resolve(s, Lookup(s, path)) == Ends(s.open[h].inumber)
  }

  ghost predicate TakesStrayByte(s: State, h: int, len: nat)
    requires s.Shape()
  {
    && s.IsOpen(h) && s.ValidInum(s.open[h].inumber)
    && OverReads(Content(s, s.open[h].inumber), Behind(s, s.open[h].inumber), s.open[h].offset, len)
  }

  /** A name that can be entered without shadowing or being shadowed. */
  predicate Enterable(s: State, name: CString)
  {
    CanAdd(s.dir, name) && FindInDir(s.dir, name) == -1
  }

  /** The calls that keep everything in order; each condition can be checked beforehand. */
  ghost predicate Clean(s: State, c: Call)
    requires s.Mounted()
  {
    match c
    case Open(path, mode) => mode.truncate && Lookup(s, path) >= 0 ==> !StrandsCursor(s, path)
    case SymLink(target, linkName) =>
      Lookup(s, target) != -1 && CreateLink(s).1 != -1 ==> Enterable(s, NameOf(linkName))
    case Link(target, linkName) =>
      Lookup(s, target) != -1 && !IsLink(s, Lookup(s, target)) ==> Enterable(s, NameOf(linkName))
    case Close(h) => true
    case Write(h, buffer) => true
    case Read(h, len) => !TakesStrayByte(s, h, len)
    case Unlink(target) => !LosesOpenFile(s, target)
  }

  // ---- limits are reached when the tables are full ----

  lemma SubCard(xs: set<int>, ys: set<int>)
    requires xs <= ys
    ensures |xs| <= |ys| && (|xs| == |ys| ==> xs == ys)
  {
    assert ys == xs + (ys - xs);
    if |xs| == |ys| {
      assert |ys - xs| == 0;
    }
  }

  lemma FullIff(taken: seq<bool>)
    ensures |Taken(taken)| == |taken| <==> FirstFree(taken) == -1
  {
    SubCard(Taken(taken), Range(|taken|));
    if |Taken(taken)| == |taken| {
      assert forall k :: 0 <= k < |taken| ==> k in Range(|taken|) && k in Taken(taken);
    }
    if FirstFree(taken) == -1 {
      assert Taken(taken) == Range(|taken|);
    }
  }

  lemma HandlesFullIff(s: State)
    requires s.Mounted()
    ensures |Abs(s).handles| == LimitsOf(s).handles <==> FirstFree(s.openTaken) == -1
  {
    FullIff(s.openTaken);
    assert Handles(s).Keys == Taken(s.openTaken);
  }

  lemma FilesFullIff(s: State)
    requires s.Mounted()
    ensures |Abs(s).files| == LimitsOf(s).files <==> FirstFree(s.inodeTaken) == -1
  {
    FullIff(s.inodeTaken);
    assert Files(s).Keys == Taken(s.inodeTaken) - {ROOT_DIR_INUM};
    assert ROOT_DIR_INUM in Taken(s.inodeTaken);
  }

  lemma NamesCard(dir: seq<DirEntry>)
    requires UniqueNames(dir)
    ensures |Names(dir)| == |LiveSlots(dir)|
  {
    NamesIs(dir);
    var nameAt := (k: int) => if 0 <= k < |dir| then dir[k].name else [];
    forall n | n in Names(dir).Keys ensures exists k :: k in LiveSlots(dir) && nameAt(k) == n {
      assert FindSlot(dir, n) in LiveSlots(dir) && nameAt(FindSlot(dir, n)) == n;
    }
    forall k | k in LiveSlots(dir) ensures nameAt(k) in Names(dir).Keys {
      assert FindSlot(dir, dir[k].name) != -1;
    }
    InjectiveCard(LiveSlots(dir), nameAt, Names(dir).Keys);
  }

  lemma NamesFullIff(s: State)
    requires s.Mounted() && UniqueNames(s.dir)
    ensures |Abs(s).names| <= LimitsOf(s).names
    ensures |Abs(s).names| == LimitsOf(s).names <==> FreeSlot(s.dir) == -1
  {
    NamesCard(s.dir);
    var slots := LiveSlots(s.dir);
    SubCard(slots, Range(|s.dir|));
    if FreeSlot(s.dir) == -1 {
      assert slots == Range(|s.dir|);
    } else {
      assert FreeSlot(s.dir) in Range(|s.dir|) && FreeSlot(s.dir) !in slots;
    }
  }

  lemma UsesBlockIff(s: State, i: int)
    requires Inv(s) && s.Live(i) && i != ROOT_DIR_INUM
    ensures FileOf(s, i).UsesBlock() <==> s.inodes[i].size > 0
  {
    ContentSize(s, i);
  }

  lemma ContentSize(s: State, i: int)
    requires Inv(s) && s.Live(i) && i != ROOT_DIR_INUM
    ensures s.inodes[i].kind == File ==> |Content(s, i)| == s.inodes[i].size
    ensures IsLink(s, i) ==> s.inodes[i].size > 0 && LinkText(s, i).Some?
  {
    assert SizeOk(s, i) && CountOk(s, i);
    if s.inodes[i].size > 0 {
      assert Owns(s, i, s.inodes[i].block);
    }
    if IsLink(s, i) {
      assert LinkOk(s, i);
    }
  }

  lemma BlocksUsedIs(s: State)
    requires Inv(s)
    ensures Abs(s).BlocksUsed() == |NonemptyInodes(s)| - 1
  {
    hide BlocksInv, LinksInv, HandlesInv, FileOf;
    var using := set i | i in Files(s) && Files(s)[i].UsesBlock();
    forall i | s.Live(i) && i != ROOT_DIR_INUM ensures i in using <==> i in NonemptyInodes(s) {
      UsesBlockIff(s, i);
    }
    assert NonemptyInodes(s) == using + {ROOT_DIR_INUM};
  }

  lemma BlocksFullIff(s: State)
    requires Inv(s)
    ensures Abs(s).BlocksUsed() == LimitsOf(s).blocks <==> FirstFree(s.blockTaken) == -1
  {
    BlockConservation(s);
    BlocksUsedIs(s);
    if FirstFree(s.blockTaken) == -1 {
      assert FreeBlocks(s) == {};
    } else {
      assert FirstFree(s.blockTaken) in FreeBlocks(s);
    }
  }

  // ---- lookups and links ----

  lemma BoundIs(s: State, path: CString)
    requires NamesInv(s)
    ensures Abs(s).Bound(path) == Lookup(s, path)
  {
    NamesIs(s.dir);
  }

  lemma AliasIs(s: State, i: int)
    requires Inv(s) && s.Live(i) && IsLink(s, i)
    ensures LinkText(s, i).Some? && LinkName(s, i).Some? && i in Files(s) && Files(s)[i] == Alias(LinkText(s, i).value)
    ensures var hop := FindInDir(s.dir, LinkName(s, i).value);
            Abs(s).Bound(LinkText(s, i).value) == hop && (hop == -1 || (s.Live(hop) && hop != ROOT_DIR_INUM))
  {
    LiveLinkName(s, i);
    var text := LinkText(s, i).value;
    BoundIs(s, text);
    if Lookup(s, text) != -1 {
      FoundIsLive(s, text[1..]);
    }
  }

  /** One hop of get_path_recursive is one alias of the abstract file system. */
  lemma ResolvedHop(s: State, i: int, fuel: nat)
    requires Inv(s) && s.Live(i) && IsLink(s, i) && i != ROOT_DIR_INUM && 0 < fuel && LinkName(s, i).Some?
    ensures var hop := FindInDir(s.dir, LinkName(s, i).value);
            && Follow(s, i, fuel) == Follow(s, hop, fuel - 1)
            && Abs(s).Resolved(i, fuel) == Abs(s).Resolved(hop, fuel - 1)
            && (hop == -1 || (s.Live(hop) && hop != ROOT_DIR_INUM))
  {
    AliasIs(s, i);
  }

  lemma ResolvedHere(s: State, i: int, fuel: nat)
    requires Inv(s) && (i == -1 || (s.Live(i) && i != ROOT_DIR_INUM)) && (i == -1 || !IsLink(s, i) || fuel == 0)
    ensures Abs(s).Resolved(i, fuel) == if i == -1 || !IsLink(s, i) then Some(i) else None
    ensures Follow(s, i, fuel) == if i == -1 || !IsLink(s, i) then Ends(i) else OutOfFuel
  {
    if i != -1 {
      assert i in Files(s) && Files(s)[i] == FileOf(s, i);
      if IsLink(s, i) {
        LiveLinkName(s, i);
      }
    }
  }

  lemma {:induction false} ResolvedIs(s: State, i: int, fuel: nat)
    requires Inv(s) && (i == -1 || (s.Live(i) && i != ROOT_DIR_INUM))
    ensures var r := Follow(s, i, fuel);
            Abs(s).Resolved(i, fuel) == if r.Ends? then Some(r.inumber) else None
    decreases fuel
  {
    hide BlocksInv, LinksInv, HandlesInv, LinkName, FindInDir, Abs, Follow;
    if i == -1 || !IsLink(s, i) || fuel == 0 {
      ResolvedHere(s, i, fuel);
    } else {
      LiveLinkName(s, i);
      ResolvedHop(s, i, fuel);
      ResolvedIs(s, FindInDir(s.dir, LinkName(s, i).value), fuel - 1);
    }
  }

  // ---- how the abstraction changes ----

  lemma NameIs(dir: seq<DirEntry>, n: CString)
    ensures n in Names(dir) <==> FindSlot(dir, n) != -1
    ensures n in Names(dir) ==> Names(dir)[n] == FindInDir(dir, n)
  {
    NamesIs(dir);
  }

  lemma NameElsewhere(dir: seq<DirEntry>, name: CString, i: int, n: CString)
    requires CanAdd(dir, name) && i != -1 && n != name
    ensures var names := Names(AddDirEntry(dir, name, i));
            (n in names <==> n in Names(dir)) && (n in names ==> names[n] == Names(dir)[n])
  {
    hide Names;
    NameIs(dir, n);
    NameIs(AddDirEntry(dir, name, i), n);
    AddBinds(dir, name, i, n);
  }

  lemma NameEntered(dir: seq<DirEntry>, name: CString, i: int)
    requires CanAdd(dir, name) && i != -1
    ensures var names := Names(AddDirEntry(dir, name, i));
            name in names && (names[name] == i || (name in Names(dir) && names[name] == Names(dir)[name]))
    ensures FindInDir(dir, name) == -1 ==> Names(AddDirEntry(dir, name, i))[name] == i
  {
    hide Names;
    NameIs(dir, name);
    NameIs(AddDirEntry(dir, name, i), name);
    AddBinds(dir, name, i, name);
  }

  lemma NamesEnter(dir: seq<DirEntry>, name: CString, i: int)
    requires CanAdd(dir, name) && i != -1
    ensures var names := Names(AddDirEntry(dir, name, i));
            names == Names(dir)[name := i] || (name in Names(dir) && names == Names(dir))
    ensures FindInDir(dir, name) == -1 ==> Names(AddDirEntry(dir, name, i)) == Names(dir)[name := i]
  {
    hide Names, AddDirEntry, CanAdd, FindInDir;
    var names := Names(AddDirEntry(dir, name, i));
    NameEntered(dir, name, i);
    forall n: CString | n != name
      ensures (n in names <==> n in Names(dir)) && (n in names ==> names[n] == Names(dir)[n])
    {
      NameElsewhere(dir, name, i, n);
    }
    if names[name] == i {
      assert names == Names(dir)[name := i];
    } else {
      assert names == Names(dir);
    }
  }

  lemma NameNotCleared(s: State, name: CString, n: CString)
    requires n != name
    ensures var names := Names(ClearDirEntry(s.dir, name));
            (n in names <==> n in Names(s.dir)) && (n in names ==> names[n] == Names(s.dir)[n])
  {
    hide Names, ClearDirEntry, FindInDir;
    NameIs(s.dir, n);
    NameIs(ClearDirEntry(s.dir, name), n);
    ClearOther(s.dir, name, n);
  }

  lemma NamesClear(s: State, name: CString)
    requires NamesInv(s) && UniqueNames(s.dir) && name != []
    ensures Names(ClearDirEntry(s.dir, name)) == Names(s.dir) - {name}
  {
    hide Names, NamesInv, UniqueNames, ClearDirEntry, FindInDir;
    var names := Names(ClearDirEntry(s.dir, name));
    ClearedIsGone(s, name);
    NameIs(ClearDirEntry(s.dir, name), name);
    forall n: CString | n != name
      ensures (n in names <==> n in Names(s.dir)) && (n in names ==> names[n] == Names(s.dir)[n])
    {
      NameNotCleared(s, name, n);
    }
    assert names == Names(s.dir) - {name};
  }

  lemma ClearedIsGone(s: State, name: CString)
    requires NamesInv(s) && UniqueNames(s.dir) && name != []
    ensures FindSlot(ClearDirEntry(s.dir, name), name) == -1
  {
    ClearRemoves(s, name);
  }

  /** Nothing was stored in the block of inode i, if it has one. */
  ghost predicate Untouched(s: State, t: State, i: int)
    requires s.Shape() && s.ValidInum(i)
  {
    s.inodes[i].size > 0 ==>
      s.ValidBlock(s.inodes[i].block) && SameBytes(s.data, t.data, s.Base(s.inodes[i].block), s.blockSize)
  }

  /** A file is the same when its inode and the bytes of its block are. */
  lemma FileSame(s: State, t: State, i: int)
    requires Inv(s) && t.Shape() && s.Live(i) && i != ROOT_DIR_INUM && t.ValidInum(i)
    requires t.blockSize == s.blockSize && |t.blockTaken| == |s.blockTaken|
    requires t.inodes[i].(count := 0) == s.inodes[i].(count := 0)
    requires Untouched(s, t, i)
    ensures FileOf(t, i) == FileOf(s, i)
  {
    assert SizeOk(s, i) && CountOk(s, i);
    if IsLink(s, i) {
      assert LinkOk(s, i);
      TextKept(s, t, i);
    } else if s.inodes[i].size > 0 {
      assert Owns(s, i, s.inodes[i].block);
      assert Content(t, i) == Content(s, i);
    }
  }

  /** Files are as before where nothing was stored. */
  lemma FilesSame(s: State, t: State)
    requires Inv(s) && t.Shape() && t.blockSize == s.blockSize && |t.blockTaken| == |s.blockTaken| && t.data == s.data
    requires t.inodeTaken == s.inodeTaken && |t.inodes| == |s.inodes|
    requires forall i :: 0 <= i < |s.inodes| && s.inodeTaken[i] ==> t.inodes[i].(count := 0) == s.inodes[i].(count := 0)
    ensures Files(t) == Files(s)
  {
    forall i | s.Live(i) && i != ROOT_DIR_INUM ensures FileOf(t, i) == FileOf(s, i) {
      DataSame(s, t, i);
      FileSame(s, t, i);
    }
  }

  lemma DataSame(s: State, t: State, i: int)
    requires Inv(s) && s.Live(i) && t.data == s.data
    ensures Untouched(s, t, i)
  {
    if s.inodes[i].size > 0 {
      assert Owns(s, i, s.inodes[i].block);
    }
  }

  /** One file changes to f, or appears as f; every other is as before where nothing was stored. */
  lemma FilesUpdate(s: State, t: State, i: int, f: AFile)
    requires Inv(s) && t.Shape() && t.blockSize == s.blockSize && |t.blockTaken| == |s.blockTaken|
    requires s.ValidInum(i) && i != ROOT_DIR_INUM && t.inodeTaken == s.inodeTaken[i := true] && FileOf(t, i) == f
    requires forall j :: s.Live(j) && j != i ==> t.inodes[j].(count := 0) == s.inodes[j].(count := 0)
    requires forall j :: s.Live(j) && j != i ==> Untouched(s, t, j)
    ensures Files(t) == Files(s)[i := f]
  {
    forall j | s.Live(j) && j != ROOT_DIR_INUM && j != i ensures FileOf(t, j) == FileOf(s, j) {
      FileSame(s, t, j);
    }
    assert Taken(t.inodeTaken) == Taken(s.inodeTaken) + {i};
  }

  lemma HandlesAdd(s: State, i: int, offset: nat)
    requires s.Shape()
    ensures var (t, h) := AddHandle(s, i, offset);
            Handles(t) == if h == -1 then Handles(s) else Handles(s)[h := OpenEntry(i, offset)]
  {
    var (t, h) := AddHandle(s, i, offset);
    if h != -1 {
      assert Taken(t.openTaken) == Taken(s.openTaken) + {h};
    }
  }

  lemma FileByTables(s: State, t: State, i: int)
    requires s.Shape() && t.Shape() && s.ValidInum(i)
    requires t.(dir := s.dir, open := s.open, openTaken := s.openTaken) == s
    ensures FileOf(t, i) == FileOf(s, i)
  {
    hide StringAt;
    assert IsLink(s, i) ==> LinkText(t, i) == LinkText(s, i);
  }

  lemma FilesByTables(s: State, t: State)
    requires s.Shape() && t.Shape() && t.(dir := s.dir, open := s.open, openTaken := s.openTaken) == s
    ensures Files(t) == Files(s)
  {
    hide FileOf;
    forall i | s.Live(i) ensures FileOf(t, i) == FileOf(s, i) {
      FileByTables(s, t, i);
    }
  }

  lemma GetsHandleIs(s: State, i: int, offset: nat)
    requires s.Mounted()
    ensures var (t, h) := AddHandle(s, i, offset); GetsHandle(LimitsOf(s), Abs(s), i, offset, Abs(t), h)
  {
    var (t, h) := AddHandle(s, i, offset);
    HandlesFullIff(s);
    HandlesAdd(s, i, offset);
    FilesByTables(s, t);
    if h != -1 {
      assert h !in Handles(s);
    }
  }

  // ---- the calls, one by one ----

  lemma TruncateAbs(s: State, j: int)
    requires Inv(s) && s.Live(j) && s.inodes[j].kind == File
    ensures Truncate(s, j).Some? && Inv(Truncate(s, j).value)
    ensures var t := Truncate(s, j).value;
            LimitsOf(t) == LimitsOf(s) && Abs(t) == Abs(s).(files := Abs(s).files[j := Plain([])])
  {
    TruncateInv(s, j);
    var t := Truncate(s, j).value;
    assert s.inodeTaken == s.inodeTaken[j := true];
    hide BlocksInv, LinksInv, HandlesInv;
    forall k | s.Live(k) ensures Untouched(s, t, k) {
      DataSame(s, t, k);
    }
    FilesUpdate(s, t, j, Plain([]));
  }

  lemma OpenFileRefines(s: State, j: int, mode: Mode)
    requires Inv(s) && s.Live(j) && s.inodes[j].kind == File
    ensures var t := if mode.truncate then Truncate(s, j) else Some(s);
            && t.Some?
            && var r := AddHandle(t.value, j, if mode.append then t.value.inodes[j].size else 0);
               OpensFile(LimitsOf(s), Abs(s), j, mode, Abs(r.0), r.1)
  {
    if mode.truncate {
      TruncateAbs(s, j);
    }
    var t := if mode.truncate then Truncate(s, j).value else s;
    ContentSize(t, j);
    GetsHandleIs(t, j, if mode.append then t.inodes[j].size else 0);
  }

  lemma OpenExistingRefines(s: State, path: CString, mode: Mode)
    requires Inv(s) && Lookup(s, path) >= 0 && TfsOpen(s, path, mode).Done?
    ensures var r := TfsOpen(s, path, mode); Opens(LimitsOf(s), Abs(s), path, mode, Abs(r.state), r.ret)
  {
    hide Inv, NamesInv, TfsOpen, Follow, OpensFile, Abs, LimitsOf;
    InvMounted(s);
    OpenLeads(s, path, mode);
    BoundIs(s, path);
    var i := Lookup(s, path);
    FoundAt(s, path);
    ResolvedIs(s, i, |s.inodes|);
    var j := Resolve(s, i).inumber;
    assert Abs(s).LeadsTo(i, j);
    var r := TfsOpen(s, path, mode);
    if j != -1 {
      OpenFileRefines(s, j, mode);
    }
    assert OpensResolved(LimitsOf(s), Abs(s), j, mode, Abs(r.state), r.ret);
  }

  lemma FoundAt(s: State, path: CString)
    requires Inv(s) && Lookup(s, path) != -1
    ensures s.Live(Lookup(s, path)) && Lookup(s, path) != ROOT_DIR_INUM
  {
    FoundIsLive(s, path[1..]);
  }

  /** The state after a new empty file i has been entered under a name. */
  function Entered(s: State, name: CString): (t: State)
    requires s.Shape() && CreateFile(s).1 != -1
    ensures t.Shape()
  {
    CreateFile(s).0.(dir := AddDirEntry(s.dir, name, CreateFile(s).1))
  }

  lemma EnteredAbs(s: State, name: CString)
    requires Inv(s) && CreateFile(s).1 != -1 && CanAdd(s.dir, name) && FindInDir(s.dir, name) == -1
    ensures var i := CreateFile(s).1; var a := Abs(s);
            && i !in a.files && Entered(s, name).Mounted() && LimitsOf(Entered(s, name)) == LimitsOf(s)
            && Abs(Entered(s, name)) == a.(names := a.names[name := i], files := a.files[i := Plain([])])
  {
    var i := CreateFile(s).1;
    var t := Entered(s, name);
    NamesEnter(s.dir, name, i);
    forall k | s.Live(k) ensures Untouched(s, t, k) {
      DataSame(s, t, k);
    }
    hide BlocksInv, LinksInv, HandlesInv;
    FilesUpdate(s, t, i, Plain([]));
  }

  /** A file that could not be entered leaves nothing behind. */
  lemma NotEnteredAbs(s: State, name: CString)
    requires Inv(s) && CreateFile(s).1 != -1 && !CanAdd(s.dir, name)
    ensures OpenNew(s, name).Done? && OpenNew(s, name).ret == -1 && Abs(OpenNew(s, name).state) == Abs(s)
  {
    var t := OpenNew(s, name).state;
    assert t.inodeTaken == s.inodeTaken;
    hide BlocksInv, LinksInv, HandlesInv;
    FilesSame(s, t);
  }

  lemma EnteredRefines(s: State, name: CString)
    requires Inv(s) && CreateFile(s).1 != -1 && CanAdd(s.dir, name) && FindInDir(s.dir, name) == -1
    ensures OpenNew(s, name).Done?
    ensures var r := OpenNew(s, name); NewFile(LimitsOf(s), Abs(s), name, CreateFile(s).1, Abs(r.state), r.ret)
  {
    EnteredAbs(s, name);
    GetsHandleIs(Entered(s, name), CreateFile(s).1, 0);
  }

  lemma OpenNewRefines(s: State, name: CString)
    requires Inv(s) && UniqueNames(s.dir) && FindInDir(s.dir, name) == -1
    ensures OpenNew(s, name).Done?
    ensures var r := OpenNew(s, name); CreatesFile(LimitsOf(s), Abs(s), name, Abs(r.state), r.ret)
  {
    FilesFullIff(s);
    NamesFullIff(s);
    hide BlocksInv, LinksInv, HandlesInv, UniqueNames, Abs;
    if CreateFile(s).1 != -1 {
      if CanAdd(s.dir, name) {
        EnteredRefines(s, name);
      } else {
        NotEnteredAbs(s, name);
      }
    }
  }

  lemma OpenRefines(s: State, path: CString, mode: Mode)
    requires Inv(s) && UniqueNames(s.dir) && TfsOpen(s, path, mode).Done?
    ensures var r := TfsOpen(s, path, mode); Opens(LimitsOf(s), Abs(s), path, mode, Abs(r.state), r.ret)
  {
    BoundIs(s, path);
    if Lookup(s, path) >= 0 {
      OpenExistingRefines(s, path, mode);
    } else {
      if Lookup(s, path) != -1 {
        FoundIsLive(s, path[1..]);
      }
      if ValidPath(path) && mode.create {
        OpenNewRefines(s, path[1..]);
      }
    }
  }

  lemma StoreLinkAbs(s: State, target: CString)
    requires Inv(s) && CreateLink(s).1 != -1 && Lookup(s, target) != -1
    ensures var i := CreateLink(s).1; var a := Abs(s);
            && i !in a.files && |target| < s.blockSize
            && var t := StoreLink(s, target);
            && t.Mounted() && LimitsOf(t) == LimitsOf(s) && t.dir == s.dir
            && Abs(t) == a.(files := a.files[i := Alias(target)])
  {
    BoundPathFits(s, target);
    var (c, i) := CreateLink(s);
    var t := StoreLink(s, target);
    StoreLinkInv(s, target);
    forall k | s.Live(k) ensures Untouched(s, t, k) {
      if s.inodes[k].size > 0 {
        assert Owns(s, k, s.inodes[k].block);
        StoreElsewhere(s, c.inodes[i].block, 0, target + [NUL], s.inodes[k].block);
      }
    }
    hide BlocksInv, LinksInv, HandlesInv;
    FilesUpdate(s, t, i, Alias(target));
  }

  lemma SymLinkFailsAbs(s: State)
    requires Inv(s) && CreateLink(s).1 == -1
    ensures Abs(CreateLink(s).0) == Abs(s)
  {
    hide BlocksInv, LinksInv, HandlesInv;
    FilesSame(s, CreateLink(s).0);
  }

  lemma DirIgnored(s: State, dir: seq<DirEntry>)
    requires s.Shape() && |dir| == |s.dir|
    ensures Abs(s.(dir := dir)) == Abs(s).(names := Names(dir))
  {
    FilesByTables(s, s.(dir := dir));
  }

  lemma SymLinkIs(s: State, target: CString, linkName: CString)
    requires Inv(s) && CreateLink(s).1 != -1 && Lookup(s, target) != -1 && |linkName| > 0
    ensures |target| < s.blockSize
    ensures TfsSymLink(s, target, linkName)
         == Done(StoreLink(s, target).(dir := AddDirEntry(s.dir, linkName[1..], CreateLink(s).1)), 0, [])
  {
    BoundPathFits(s, target);
  }

  /** Entering a name in the directory is entering it in the abstract file system. */
  lemma EntersIs(s: State, name: CString, i: int)
    requires s.Mounted() && UniqueNames(s.dir) && i != -1
    ensures Enters(LimitsOf(s), Abs(s), name, i, Abs(s.(dir := AddDirEntry(s.dir, name, i))))
  {
    NamesFullIff(s);
    DirIgnored(s, AddDirEntry(s.dir, name, i));
    hide UniqueNames, Files, Handles, Names;
    if CanAdd(s.dir, name) {
      NamesEnter(s.dir, name, i);
    }
  }

  lemma SymLinkMadeRefines(s: State, target: CString, linkName: CString)
    requires Inv(s) && UniqueNames(s.dir) && CreateLink(s).1 != -1 && Lookup(s, target) != -1 && |linkName| > 0
    ensures var r := TfsSymLink(s, target, linkName);
            && r.Done? && r.ret == 0
            && NewAlias(LimitsOf(s), Abs(s), target, linkName[1..], CreateLink(s).1, Abs(r.state))
  {
    hide Inv, Abs, StoreLink, AddDirEntry, TfsSymLink, UniqueNames, LimitsOf, CreateLink, FindInDir, Enters;
    InvMounted(s);
    StoreLinkAbs(s, target);
    SymLinkIs(s, target, linkName);
    EntersIs(StoreLink(s, target), linkName[1..], CreateLink(s).1);
  }

  /** tfs_sym_link, whatever becomes of its name. */
  lemma SymLinkRefines(s: State, target: CString, linkName: CString)
    requires Inv(s) && UniqueNames(s.dir) && TfsSymLink(s, target, linkName).Done?
    ensures var r := TfsSymLink(s, target, linkName);
            SymLinks(LimitsOf(s), Abs(s), target, NameOf(linkName), Abs(r.state), r.ret)
  {
    BoundIs(s, target);
    FilesFullIff(s);
    BlocksFullIff(s);
    if Lookup(s, target) != -1 {
      hide BlocksInv, LinksInv, HandlesInv, Abs, UniqueNames;
      if CreateLink(s).1 == -1 {
        SymLinkFailsAbs(s);
      } else {
        SymLinkMadeRefines(s, target, linkName);
      }
    }
  }

  /** Counting an inode once more changes nothing that the abstract file system has. */
  lemma BumpedAbs(s: State, i: int)
    requires Inv(s) && s.ValidInum(i) && Bumped(s, i).Mounted()
    ensures s.Mounted() && Abs(Bumped(s, i)) == Abs(s) && LimitsOf(Bumped(s, i)) == LimitsOf(s)
  {
    hide BlocksInv, LinksInv, HandlesInv;
    FilesSame(s, Bumped(s, i));
  }

  lemma LinkMadeRefines(s: State, target: CString, linkName: CString)
    requires Inv(s) && UniqueNames(s.dir) && Lookup(s, target) != -1 && linkName != []
    requires s.ValidInum(Lookup(s, target)) && !IsLink(s, Lookup(s, target)) && Bumped(s, Lookup(s, target)).Mounted()
    ensures s.Mounted()
    ensures var r := TfsLink(s, target, linkName);
            && r.Done? && r.ret == 0
            && Enters(LimitsOf(s), Abs(s), linkName[1..], Lookup(s, target), Abs(r.state))
  {
    hide Inv, Abs, UniqueNames, AddDirEntry, Enters;
    var i := Lookup(s, target);
    BumpedAbs(s, i);
    EntersIs(Bumped(s, i), linkName[1..], i);
  }

  /** A bound name leads to a file, which is an alias exactly when its inode is a link. */
  lemma BoundFile(s: State, target: CString)
    requires Inv(s) && Lookup(s, target) != -1
    ensures var i := Lookup(s, target);
            && s.ValidInum(i) && Bumped(s, i).Mounted()
            && i in Abs(s).files && (Abs(s).files[i].Alias? <==> IsLink(s, i))
  {
    hide BlocksInv, LinksInv, HandlesInv;
    FoundIsLive(s, target[1..]);
  }

  /** tfs_link, whatever becomes of its name. */
  lemma LinkRefines(s: State, target: CString, linkName: CString)
    requires Inv(s) && UniqueNames(s.dir) && s.Mounted() && TfsLink(s, target, linkName).Done?
    ensures var r := TfsLink(s, target, linkName);
            Links(LimitsOf(s), Abs(s), target, NameOf(linkName), Abs(r.state), r.ret)
  {
    hide Inv, Abs, UniqueNames, AddDirEntry, Enters, Bumped;
    InvMounted(s);
    BoundIs(s, target);
    var i := Lookup(s, target);
    if i != -1 {
      BoundFile(s, target);
      if !IsLink(s, i) {
        LinkMadeRefines(s, target, linkName);
      }
    }
  }

  lemma CloseRefines(s: State, h: int)
    requires s.Mounted()
    ensures var r := TfsClose(s, h); Closes(Abs(s), h, Abs(r.state), r.ret)
  {
    var t := TfsClose(s, h).state;
    FilesByTables(s, t);
    if s.IsOpen(h) {
      assert Taken(t.openTaken) == Taken(s.openTaken) - {h};
    }
  }

  lemma OverwriteIs(mem: seq<Byte>, base: nat, size: nat, offset: nat, bytes: seq<Byte>)
    requires offset <= size && base + size <= |mem| && base + offset + |bytes| <= |mem|
    ensures var end := if offset + |bytes| > size then offset + |bytes| else size;
            Store(mem, base + offset, bytes)[base..base + end] == Overwrite(mem[base..base + size], offset, bytes)
  {
    var end := if offset + |bytes| > size then offset + |bytes| else size;
    var got := Store(mem, base + offset, bytes)[base..base + end];
    var want := Overwrite(mem[base..base + size], offset, bytes);
    assert |got| == |want|;
    forall k | 0 <= k < end ensures got[k] == want[k] {
      assert got[k] == Store(mem, base + offset, bytes)[base + k];
      if k < offset || offset + |bytes| <= k {
        assert mem[base..base + size][k] == mem[base + k];
      }
    }
  }

  lemma FileIsContent(s: State, h: int)
    requires Inv(s) && s.IsOpen(h)
    ensures var i := s.open[h].inumber;
            && h in Handles(s) && Handles(s)[h] == s.open[h]
            && i in Files(s) && Files(s)[i] == Plain(Content(s, i))
            && |Content(s, i)| == s.inodes[i].size <= s.blockSize
  {
    ContentSize(s, s.open[h].inumber);
    assert SizeOk(s, s.open[h].inumber);
  }

  lemma WriteTables(s: State, h: int, buffer: seq<Byte>, n: nat)
    requires s.Shape() && s.IsOpen(h) && s.ValidInum(s.open[h].inumber) && 0 < n
    requires WriteBlock(s, h, buffer, n).Done? && WriteBlock(s, h, buffer, n).ret == n
    ensures var t := WriteBlock(s, h, buffer, n).state; var e := s.open[h];
            t.dir == s.dir && Handles(t) == Handles(s)[h := OpenEntry(e.inumber, e.offset + n)]
  {
  }

  /** A write within the file's end, with a block at hand. */
  lemma WriteMadeAbs(s: State, h: int, buffer: seq<Byte>, n: nat)
    requires Inv(s) && s.IsOpen(h) && CursorInside(s, h) && 0 < n <= |buffer| && s.open[h].offset + n <= s.blockSize
    requires s.inodes[s.open[h].inumber].size > 0 || FirstFree(s.blockTaken) != -1
    ensures var r := WriteBlock(s, h, buffer, n); var i := s.open[h].inumber; var a := Abs(s);
            && r.Done? && r.ret == n && |Content(s, i)| == s.inodes[i].size
            && Abs(r.state) == a.(files := a.files[i := Plain(Overwrite(Content(s, i), s.open[h].offset, buffer[..n]))],
                                  handles := a.handles[h := OpenEntry(i, s.open[h].offset + n)])
  {
    WriteMadeFiles(s, h, buffer, n);
    WriteTables(s, h, buffer, n);
  }

  /** The block that a write goes to, and the state after it. */
  lemma WriteMade(s: State, h: int, buffer: seq<Byte>, n: nat)
    requires Inv(s) && s.IsOpen(h) && 0 < n <= |buffer| && s.open[h].offset + n <= s.blockSize
    requires s.inodes[s.open[h].inumber].size > 0 || FirstFree(s.blockTaken) != -1
    ensures var r := WriteBlock(s, h, buffer, n); var e := s.open[h]; var i := e.inumber;
            && r.Done? && r.ret == n && s.Live(i) && i != ROOT_DIR_INUM
            && var t := r.state; var b := t.inodes[i].block; var size := s.inodes[i].size;
            && s.ValidBlock(b) && (Owns(s, i, b) || !s.blockTaken[b])
            && t.Shape() && t.blockSize == s.blockSize && t.blockTaken == s.blockTaken[b := true]
            && t.inodeTaken == s.inodeTaken[i := true]
            && |t.inodes| == |s.inodes| && (forall j :: s.Live(j) && j != i ==> t.inodes[j] == s.inodes[j])
            && t.inodes[i] == s.inodes[i].(block := b, size := if e.offset + n > size then e.offset + n else size)
            && (size > 0 ==> b == s.inodes[i].block) && !IsLink(s, i)
            && t.data == Store(s.data, s.Base(b) + e.offset, buffer[..n])
  {
    var i := s.open[h].inumber;
    if s.inodes[i].size > 0 {
      assert Owns(s, i, s.inodes[i].block);
      assert s.blockTaken == s.blockTaken[s.inodes[i].block := true];
    }
    assert s.inodeTaken == s.inodeTaken[i := true];
  }

  lemma WriteElsewhere(s: State, i: int, b: int, offset: nat, bytes: seq<Byte>, t: State, k: int)
    requires Inv(s) && s.ValidBlock(b) && (Owns(s, i, b) || !s.blockTaken[b]) && offset + |bytes| <= s.blockSize
    requires t.data == Store(s.data, s.Base(b) + offset, bytes) && s.Live(k) && k != i
    ensures Untouched(s, t, k)
  {
    if s.inodes[k].size > 0 {
      assert Owns(s, k, s.inodes[k].block);
      StoreElsewhere(s, b, offset, bytes, s.inodes[k].block);
    }
  }

  lemma WriteMadeFiles(s: State, h: int, buffer: seq<Byte>, n: nat)
    requires Inv(s) && s.IsOpen(h) && CursorInside(s, h) && 0 < n <= |buffer| && s.open[h].offset + n <= s.blockSize
    requires s.inodes[s.open[h].inumber].size > 0 || FirstFree(s.blockTaken) != -1
    ensures var r := WriteBlock(s, h, buffer, n); var i := s.open[h].inumber;
            && r.Done? && r.ret == n && |Content(s, i)| == s.inodes[i].size
            && Files(r.state) == Files(s)[i := Plain(Overwrite(Content(s, i), s.open[h].offset, buffer[..n]))]
  {
    hide Inv, WriteBlock, Files, Content, Overwrite, Untouched, Owns, Store, FirstFree, FileOf;
    InvMounted(s);
    WriteMade(s, h, buffer, n);
    WrittenContent(s, h, buffer, n);
    var e := s.open[h];
    var t := WriteBlock(s, h, buffer, n).state;
    forall k | s.Live(k) && k != e.inumber ensures Untouched(s, t, k) {
      WriteElsewhere(s, e.inumber, t.inodes[e.inumber].block, e.offset, buffer[..n], t, k);
    }
    FilesUpdate(s, t, e.inumber, Plain(Overwrite(Content(s, e.inumber), e.offset, buffer[..n])));
  }

  lemma WrittenContent(s: State, h: int, buffer: seq<Byte>, n: nat)
    requires Inv(s) && s.IsOpen(h) && CursorInside(s, h) && 0 < n <= |buffer| && s.open[h].offset + n <= s.blockSize
    requires s.inodes[s.open[h].inumber].size > 0 || FirstFree(s.blockTaken) != -1
    ensures var r := WriteBlock(s, h, buffer, n); var i := s.open[h].inumber;
            && r.Done? && s.ValidInum(i) && |Content(s, i)| == s.inodes[i].size
            && var written := Overwrite(Content(s, i), s.open[h].offset, buffer[..n]);
               Content(r.state, i) == written && FileOf(r.state, i) == Plain(written)
  {
    hide Inv, WriteBlock, Overwrite, Owns, FirstFree, Content, Store, FileOf, LinkText;
    InvMounted(s);
    WriteMade(s, h, buffer, n);
    OpenContent(s, h);
    var e := s.open[h];
    var t := WriteBlock(s, h, buffer, n).state;
    StoredContent(s, t, e.inumber, t.inodes[e.inumber].block, e.offset, buffer[..n]);
    PlainFileOf(t, e.inumber);
  }

  lemma PlainFileOf(s: State, i: int)
    requires s.Shape() && s.ValidInum(i) && !IsLink(s, i)
    ensures FileOf(s, i) == Plain(Content(s, i))
  {
  }

  /** Storing into a file's block, within its end or right behind it, overwrites its contents. */
  lemma StoredContent(s: State, t: State, i: int, b: int, offset: nat, bytes: seq<Byte>)
    requires s.Shape() && t.Shape() && s.ValidInum(i) && t.ValidInum(i) && s.ValidBlock(b)
    requires t.blockSize == s.blockSize && |t.blockTaken| == |s.blockTaken|
    requires offset <= s.inodes[i].size <= s.blockSize && offset + |bytes| <= s.blockSize
    requires s.inodes[i].size > 0 ==> s.inodes[i].block == b
    requires t.inodes[i].block == b
    requires var end := offset + |bytes|; t.inodes[i].size == if end > s.inodes[i].size then end else s.inodes[i].size
    requires t.data == Store(s.data, s.Base(b) + offset, bytes)
    ensures Content(t, i) == Overwrite(Content(s, i), offset, bytes)
  {
    hide Overwrite, Content, Store;
    ContentIs(s, i, s.Base(b));
    ContentIs(t, i, s.Base(b));
    OverwriteIs(s.data, s.Base(b), s.inodes[i].size, offset, bytes);
  }

  lemma ContentIs(s: State, i: int, base: nat)
    requires s.Shape() && s.ValidInum(i) && s.inodes[i].size <= s.blockSize && base + s.blockSize <= |s.data|
    requires s.inodes[i].size > 0 ==> s.ValidBlock(s.inodes[i].block) && base == s.Base(s.inodes[i].block)
    ensures Content(s, i) == s.data[base..base + s.inodes[i].size]
  {
  }

  lemma AbstractWrite(l: Limits, a: AFs, h: int, buffer: seq<Byte>, n: nat, a': AFs)
    requires h in a.handles && a.handles[h].inumber in a.files && a.files[a.handles[h].inumber].Plain?
    requires var OpenEntry(i, offset) := a.handles[h]; var c := a.files[i].bytes;
             && offset <= |c| <= l.blockSize
             && 0 < n == (if |buffer| <= l.blockSize - offset then |buffer| else l.blockSize - offset)
             && (c == [] ==> a.BlocksUsed() != l.blocks)
             && a' == a.(files := a.files[i := Plain(Overwrite(c, offset, buffer[..n]))],
                handles := a.handles[h := OpenEntry(i, offset + n)])
    ensures Writes(l, a, h, buffer, a', n)
  {
  }

  lemma WriteMadeRefines(s: State, h: int, buffer: seq<Byte>, n: nat)
    requires Inv(s) && s.IsOpen(h) && CursorInside(s, h) && 0 < n == WriteLength(s, s.open[h].offset, |buffer|)
    requires s.inodes[s.open[h].inumber].size > 0 || FirstFree(s.blockTaken) != -1
    ensures var r := WriteBlock(s, h, buffer, n); r.Done? && Writes(LimitsOf(s), Abs(s), h, buffer, Abs(r.state), r.ret)
  {
    hide BlocksInv, LinksInv, HandlesInv, WriteBlock, Writes, Content, FirstFree, FileOf, Files, Names, Handles;
    BlocksFullIff(s);
    FileIsContent(s, h);
    WriteMadeAbs(s, h, buffer, n);
    AbstractWrite(LimitsOf(s), Abs(s), h, buffer, n, Abs(WriteBlock(s, h, buffer, n).state));
  }

  lemma WriteIdleRefines(s: State, h: int, buffer: seq<Byte>)
    requires Inv(s) && s.IsOpen(h) && CursorInside(s, h)
    requires WriteLength(s, s.open[h].offset, |buffer|) == 0
          || (s.inodes[s.open[h].inumber].size == 0 && FirstFree(s.blockTaken) == -1)
    ensures TfsWrite(s, h, buffer).Done?
    ensures var r := TfsWrite(s, h, buffer); Writes(LimitsOf(s), Abs(s), h, buffer, Abs(r.state), r.ret)
  {
    BlocksFullIff(s);
    FileIsContent(s, h);
    assert s.ValidInum(s.open[h].inumber);
    hide BlocksInv, LinksInv, HandlesInv, Content;
  }

  lemma WriteOpenRefines(s: State, h: int, buffer: seq<Byte>)
    requires Inv(s) && s.IsOpen(h) && CursorInside(s, h)
    ensures TfsWrite(s, h, buffer).Done?
    ensures var r := TfsWrite(s, h, buffer); Writes(LimitsOf(s), Abs(s), h, buffer, Abs(r.state), r.ret)
  {
    var i := s.open[h].inumber;
    var n := WriteLength(s, s.open[h].offset, |buffer|);
    if n > 0 && (s.inodes[i].size > 0 || FirstFree(s.blockTaken) != -1) {
      hide BlocksInv, LinksInv, HandlesInv, WriteBlock, Writes;
      WriteMadeRefines(s, h, buffer, n);
    } else {
      WriteIdleRefines(s, h, buffer);
    }
  }

  /** tfs_write does what the abstract write does exactly when its cursor is inside its file. */
  lemma WriteRefinesIff(s: State, h: int, buffer: seq<Byte>)
    requires Inv(s)
    ensures (s.IsOpen(h) ==> CursorInside(s, h)) ==> TfsWrite(s, h, buffer).Done?
    ensures TfsWrite(s, h, buffer).Done? ==>
              var r := TfsWrite(s, h, buffer);
              (Writes(LimitsOf(s), Abs(s), h, buffer, Abs(r.state), r.ret)
               <==> (s.IsOpen(h) ==> CursorInside(s, h)))
  {
    hide Inv, TfsWrite, Content, Files, Names;
    InvMounted(s);
    if s.IsOpen(h) {
      FileIsContent(s, h);
      if CursorInside(s, h) {
        WriteOpenRefines(s, h, buffer);
      }
    } else {
      WriteClosed(s, h, buffer);
    }
  }

  lemma WriteClosed(s: State, h: int, buffer: seq<Byte>)
    requires s.Mounted() && !s.IsOpen(h)
    ensures TfsWrite(s, h, buffer) == Done(s, -1, []) && h !in Handles(s)
  {
  }

  lemma ReadTables(s: State, h: int, e: OpenEntry)
    requires s.Shape() && s.IsOpen(h)
    ensures Abs(s.(open := s.open[h := e])) == Abs(s).(handles := Abs(s).handles[h := e])
  {
    var t := s.(open := s.open[h := e]);
    FilesByTables(s, t);
    assert Handles(t) == Handles(s)[h := e];
  }

  lemma ReadInsideIff(s: State, h: int, len: nat)
    requires Inv(s) && s.IsOpen(h) && CursorInside(s, h)
    ensures TfsRead(s, h, len).Done?
    ensures var r := TfsRead(s, h, len);
            Reads(Abs(s), h, len, Abs(r.state), r.ret, r.bytes) <==> !TakesStrayByte(s, h, len)
  {
    hide Inv, TfsRead, Content, Behind, OverReads;
    InvMounted(s);
    var i := s.open[h].inumber;
    ReadIff(s, h, len);
    FileIsContent(s, h);
    var r := TfsRead(s, h, len);
    ReadTables(s, h, OpenEntry(i, r.state.open[h].offset));
    assert Abs(r.state).handles[h] == OpenEntry(i, r.state.open[h].offset);
  }

  /**
   * tfs_read does what the abstract read does exactly when its cursor is inside its file and it takes no
   * stray byte.
   */
  lemma ReadRefinesIff(s: State, h: int, len: nat)
    requires Inv(s)
    ensures (s.IsOpen(h) ==> CursorInside(s, h)) ==> TfsRead(s, h, len).Done?
    ensures TfsRead(s, h, len).Done? ==>
              var r := TfsRead(s, h, len);
              (Reads(Abs(s), h, len, Abs(r.state), r.ret, r.bytes)
               <==> (s.IsOpen(h) ==> CursorInside(s, h) && !TakesStrayByte(s, h, len)))
  {
    hide Inv, TfsRead, Content, Behind, OverReads, Files, Names;
    InvMounted(s);
    if s.IsOpen(h) {
      FileIsContent(s, h);
      if CursorInside(s, h) {
        ReadInsideIff(s, h, len);
      }
    } else {
      ReadClosed(s, h, len);
      assert h !in Handles(s);
    }
  }

  lemma ValuesIff(dir: seq<DirEntry>, i: int)
    requires UniqueNames(dir) && i != -1
    ensures i in Names(dir).Values <==> Slots(dir, i) > 0
  {
    NamesIs(dir);
    if Slots(dir, i) > 0 {
      var k :| 0 <= k < |dir| && dir[k].inumber == i;
      FindSlotIs(dir, dir[k].name, k);
      assert dir[k].name in Names(dir) && Names(dir)[dir[k].name] == i;
    }
    if i in Names(dir).Values {
      var n :| n in Names(dir) && Names(dir)[n] == i;
      assert dir[FindSlot(dir, n)].inumber == i;
    }
  }

  lemma UnlinkTables(s: State, target: CString)
    requires Inv(s) && Lookup(s, target) != -1
    ensures var r := TfsUnlink(s, target); var i := Lookup(s, target);
            && r.Done? && r.ret == 0 && r.state.dir == ClearDirEntry(s.dir, target[1..]) && r.state.data == s.data
            && Handles(r.state) == Handles(s) && s.Live(i) && i != ROOT_DIR_INUM
            && Taken(r.state.inodeTaken)
            == (if s.inodes[i].count > 1 then Taken(s.inodeTaken) else Taken(s.inodeTaken) - {i})
            && forall k :: 0 <= k < |s.inodes| ==> r.state.inodes[k].(count := 0) == s.inodes[k].(count := 0)
  {
    UnlinkKeepsInvIff(s, target);
    FoundIsLive(s, target[1..]);
  }

  lemma UnlinkFilesAbs(s: State, target: CString)
    requires Inv(s) && Lookup(s, target) != -1
    ensures var r := TfsUnlink(s, target); var i := Lookup(s, target);
            && r.Done? && r.ret == 0 && r.state.dir == ClearDirEntry(s.dir, target[1..])
            && Files(r.state) == (if s.inodes[i].count > 1 then Files(s) else Files(s) - {i})
            && Handles(r.state) == Handles(s)
  {
    hide Inv, TfsUnlink, ClearDirEntry, FileOf, Untouched, FindInDir;
    InvMounted(s);
    UnlinkTables(s, target);
    var t := TfsUnlink(s, target).state;
    forall k | s.Live(k) && k != ROOT_DIR_INUM ensures FileOf(t, k) == FileOf(s, k) {
      DataSame(s, t, k);
      FileSame(s, t, k);
    }
  }

  /** tfs_unlink takes the last name of an inode that is counted more often than it is named. */
  predicate Leaks(s: State, target: CString)
    requires s.Mounted()
  {
    var i := Lookup(s, target);
    i != -1 && s.ValidInum(i) && s.inodes[i].count > 1 && Slots(s.dir, i) == 1
  }

  /** tfs_unlink removes the name, and the file with its last name exactly when it does not leak it. */
  lemma UnlinkRefinesIff(s: State, target: CString)
    requires Inv(s) && UniqueNames(s.dir)
    ensures TfsUnlink(s, target).Done?
    ensures var r := TfsUnlink(s, target);
            Unlinks(Abs(s), target, Abs(r.state), r.ret) <==> !Leaks(s, target)
  {
    hide BlocksInv, LinksInv, HandlesInv, UniqueNames, FindInDir, ClearDirEntry;
    UnlinkKeepsInvIff(s, target);
    BoundIs(s, target);
    var i := Lookup(s, target);
    if i != -1 {
      FoundIsLive(s, target[1..]);
      UnlinkFilesAbs(s, target);
      NamesClear(s, target[1..]);
      ClearRemoves(s, target[1..]);
      UnlinkFreesLastName(s, target);
      ValuesIff(ClearDirEntry(s.dir, target[1..]), i);
      assert i in Files(s) && CountOk(s, i);
    }
  }

  // ---- every call ----

  lemma TruncatesNone(s: State, j: int, mode: Mode)
    requires s.Shape() && CursorsInside(s) && s.ValidInum(j) && OpenTo(s, j, mode).Done?
    requires mode.truncate ==> forall h :: s.IsOpen(h) && s.open[h].inumber == j ==> s.open[h].offset == 0
    ensures CursorsInside(OpenTo(s, j, mode).state)
  {
  }

  /** tfs_open at the end of the chain of links. */
  function OpenTo(s: State, j: int, mode: Mode): (r: Outcome)
    requires s.Shape() && s.ValidInum(j)
    ensures r.Done? ==> r.state.Shape()
  {
    var t := if mode.truncate then Truncate(s, j) else Some(s);
    if t.None? then Crash
    else
      var r := AddHandle(t.value, j, if mode.append then t.value.inodes[j].size else 0);
      Done(r.0, r.1, [])
  }

  /** A tfs_open of a bound path ends in a file, or where a target is missing. */
  lemma OpenLeads(s: State, path: CString, mode: Mode)
    requires Inv(s) && Lookup(s, path) >= 0 && TfsOpen(s, path, mode).Done?
    ensures s.Mounted() && Resolve(s, Lookup(s, path)).Ends?
    ensures var j := Resolve(s, Lookup(s, path)).inumber;
            && (j == -1 ==> TfsOpen(s, path, mode) == Done(s, -1, []))
            && (j != -1 ==> s.Live(j) && s.inodes[j].kind == File && TfsOpen(s, path, mode) == OpenTo(s, j, mode))
  {
    hide BlocksInv, LinksInv, HandlesInv, Truncate, AddHandle, Resolve;
    FoundIsLive(s, path[1..]);
    ResolveSafe(s, Lookup(s, path));
  }

  lemma OpenExistingCursors(s: State, path: CString, mode: Mode)
    requires Inv(s) && CursorsInside(s) && Lookup(s, path) >= 0 && TfsOpen(s, path, mode).Done?
    requires mode.truncate ==> !StrandsCursor(s, path)
    ensures CursorsInside(TfsOpen(s, path, mode).state)
  {
    hide Inv, TfsOpen, Resolve, CursorsInside, OpenTo;
    OpenLeads(s, path, mode);
    var j := Resolve(s, Lookup(s, path)).inumber;
    if j != -1 {
      TruncatesNone(s, j, mode);
    }
  }

  lemma OpenAbsentCursors(s: State, path: CString, mode: Mode)
    requires Inv(s) && CursorsInside(s) && Lookup(s, path) == -1 && TfsOpen(s, path, mode).Done?
    ensures CursorsInside(TfsOpen(s, path, mode).state)
  {
    forall h | s.IsOpen(h) ensures s.Live(s.open[h].inumber) {
    }
    hide BlocksInv, LinksInv, NamesInv;
  }

  /** A truncating open keeps every cursor inside its file exactly when it strands none; other opens always do. */
  lemma StrandsIff(s: State, path: CString, mode: Mode)
    requires Inv(s) && CursorsInside(s) && TfsOpen(s, path, mode).Done?
    ensures CursorsInside(TfsOpen(s, path, mode).state)
       <==> (mode.truncate && Lookup(s, path) >= 0 ==> !StrandsCursor(s, path))
  {
    if Lookup(s, path) != -1 {
      FoundIsLive(s, path[1..]);
      if mode.truncate && StrandsCursor(s, path) {
        StrandedCursor(s, path, mode);
      } else {
        OpenExistingCursors(s, path, mode);
      }
    } else {
      OpenAbsentCursors(s, path, mode);
    }
  }

  lemma StrandedCursor(s: State, path: CString, mode: Mode)
    requires Inv(s) && Lookup(s, path) >= 0 && mode.truncate && TfsOpen(s, path, mode).Done?
    requires StrandsCursor(s, path)
    ensures !CursorsInside(TfsOpen(s, path, mode).state)
  {
    hide Inv, TfsOpen, Resolve;
    OpenLeads(s, path, mode);
    var h :| s.IsOpen(h) && s.open[h].offset > 0 && Resolve(s, Lookup(s, path)) == Ends(s.open[h].inumber);
    OpenIsInside(s, h);
    var t := TfsOpen(s, path, mode).state;
    assert t.IsOpen(h) && t.open[h] == s.open[h] && !CursorInside(t, h);
  }

  lemma OpenIsInside(s: State, h: int)
    requires Inv(s) && s.IsOpen(h)
    ensures s.ValidInum(s.open[h].inumber)
  {
  }

  /**
   * What a handle with a moved cursor reads after another open has truncated its file: the bytes that the
   * freed block still holds, from the cursor on and without regard to any file's size.
   */
  lemma ReadsFreedBlock(s: State, path: CString, mode: Mode, h: int, len: nat)
    requires Inv(s) && CursorsInside(s) && Lookup(s, path) >= 0 && mode.truncate && TfsOpen(s, path, mode).Done?
    requires s.IsOpen(h) && s.open[h].offset > 0 && Resolve(s, Lookup(s, path)) == Ends(s.open[h].inumber)
    requires 0 < len && len + s.open[h].offset <= SIZE_T_RANGE
    ensures TfsOpen(s, path, mode).state.Mounted()
    ensures var i := s.open[h].inumber; var b := s.inodes[i].block; var t := TfsOpen(s, path, mode).state;
            && s.ValidBlock(b) && !t.blockTaken[b] && t.inodes[i].size == 0
            && TfsRead(t, h, len)
               == match ReadChunk(s.data, s.Base(b), s.open[h].offset, len)
                  case None => Crash
                  case Some(c) => Done(t.(open := t.open[h := OpenEntry(i, c.offset)]), |c.bytes|, c.bytes)
  {
    hide Inv, CursorsInside, TfsOpen, TfsRead, ReadChunk, Resolve;
    InvMounted(s);
    OpenLeads(s, path, mode);
    CursorOf(s, h);
    OpenContent(s, h);
    TruncatedState(s, s.open[h].inumber, mode, h);
    var t := TfsOpen(s, path, mode).state;
    StrandedRead(t, h, len);
  }

  lemma TruncatedState(s: State, i: int, mode: Mode, h: int)
    requires s.Mounted() && s.ValidInum(i) && mode.truncate && s.inodes[i].size > 0 && s.ValidBlock(s.inodes[i].block)
    requires s.inodes[i].kind == File && s.IsOpen(h)
    ensures OpenTo(s, i, mode).Done?
    ensures var t := OpenTo(s, i, mode).state; var b := s.inodes[i].block;
            && t.Mounted() && s.SameSizes(t) && t.data == s.data && t.IsOpen(h) && t.open[h] == s.open[h]
            && t.inodes[i] == s.inodes[i].(size := 0) && !t.blockTaken[b]
  {
  }

  lemma WriteCursors(s: State, h: int, buffer: seq<Byte>)
    requires Inv(s) && CursorsInside(s) && TfsWrite(s, h, buffer).Done?
    ensures CursorsInside(TfsWrite(s, h, buffer).state)
  {
    hide Inv;
  }

  lemma CursorOf(s: State, h: int)
    requires s.Shape() && CursorsInside(s) && s.IsOpen(h)
    ensures s.ValidInum(s.open[h].inumber) && CursorInside(s, h)
  {
  }

  /** Only h's cursor moves. */
  lemma OneCursor(s: State, t: State, h: int, offset: nat)
    requires s.Shape() && t.Shape() && CursorsInside(s) && s.IsOpen(h)
    requires t == s.(open := s.open[h := OpenEntry(s.open[h].inumber, offset)])
    ensures t.IsOpen(h) && t.ValidInum(t.open[h].inumber)
    ensures CursorsInside(t) <==> CursorInside(t, h)
  {
    CursorOf(s, h);
    assert forall g :: t.IsOpen(g) && g != h ==> s.IsOpen(g) && CursorInside(s, g);
  }

  lemma ReadCursorsIff(s: State, h: int, len: nat)
    requires Inv(s) && CursorsInside(s)
    ensures TfsRead(s, h, len).Done?
    ensures CursorsInside(TfsRead(s, h, len).state) <==> !TakesStrayByte(s, h, len)
  {
    hide Inv, TfsRead, OverReads, Delivered, Content, Behind, CursorsInside, CursorInside;
    InvMounted(s);
    if s.IsOpen(h) {
      CursorOf(s, h);
      ReadIff(s, h, len);
      var t := TfsRead(s, h, len).state;
      OneCursor(s, t, h, t.open[h].offset);
    } else {
      ReadClosed(s, h, len);
    }
  }

  lemma ReadClosed(s: State, h: int, len: nat)
    requires s.Mounted() && !s.IsOpen(h)
    ensures TfsRead(s, h, len) == Done(s, -1, [])
  {
  }

  lemma UnlinkCursors(s: State, target: CString)
    requires Inv(s) && CursorsInside(s)
    ensures TfsUnlink(s, target).Done? && CursorsInside(TfsUnlink(s, target).state)
  {
    if Lookup(s, target) != -1 {
      UnlinkTables(s, target);
      var t := TfsUnlink(s, target).state;
      assert forall h :: s.IsOpen(h) ==>
               t.inodes[s.open[h].inumber].(count := 0).size == s.inodes[s.open[h].inumber].size;
    }
  }

  lemma OpenUnique(s: State, path: CString, mode: Mode)
    requires NamesInv(s) && UniqueNames(s.dir) && TfsOpen(s, path, mode).Done?
    ensures UniqueNames(TfsOpen(s, path, mode).state.dir)
  {
    if Lookup(s, path) != -1 {
      FoundIsLive(s, path[1..]);
      OpenInodeKeeps(s, Lookup(s, path), mode);
    } else if ValidPath(path) && CreateFile(s).1 != -1 {
      AddUniqueIff(s.dir, path[1..], CreateFile(s).1);
    }
  }

  /** Each call that is not about links keeps things in order exactly when it is clean. */
  lemma OpenCleanIff(s: State, path: CString, mode: Mode)
    requires Good(s) && TfsOpen(s, path, mode).Done?
    ensures Good(TfsOpen(s, path, mode).state) <==> Clean(s, Open(path, mode))
  {
    StrandsIff(s, path, mode);
    OpenInv(s, path, mode);
    OpenUnique(s, path, mode);
    OpenCounts(s, path, mode);
    hide Inv, TfsOpen, UniqueNames, ExactCounts, CursorsInside, StrandsCursor;
  }

  lemma ReadCleanIff(s: State, h: int, len: nat)
    requires Good(s)
    ensures TfsRead(s, h, len).Done?
    ensures Good(TfsRead(s, h, len).state) <==> Clean(s, Read(h, len))
  {
    hide Inv, TfsRead, UniqueNames, ExactCounts, CursorsInside, TakesStrayByte;
    InvMounted(s);
    ReadCursorsIff(s, h, len);
    ReadInv(s, h, len);
    ReadKeepsTables(s, h, len);
    SameCounts(s, TfsRead(s, h, len).state);
  }

  lemma ReadKeepsTables(s: State, h: int, len: nat)
    requires s.Mounted() && TfsRead(s, h, len).Done?
    ensures var t := TfsRead(s, h, len).state;
            && t.Mounted() && t.dir == s.dir && t.inodes == s.inodes && t.inodeTaken == s.inodeTaken
            && t.blockTaken == s.blockTaken && t.data == s.data
  {
  }

  lemma SameCounts(s: State, t: State)
    requires s.Shape() && t.Shape() && t.dir == s.dir && t.inodes == s.inodes && t.inodeTaken == s.inodeTaken
    ensures ExactCounts(t) <==> ExactCounts(s)
  {
  }

  lemma WriteKeepsGood(s: State, h: int, buffer: seq<Byte>)
    requires Good(s)
    ensures TfsWrite(s, h, buffer).Done? && Good(TfsWrite(s, h, buffer).state)
  {
    WriteRefinesIff(s, h, buffer);
    WriteCursors(s, h, buffer);
    StepInv(s, Write(h, buffer));
    ExactCountsIff(s, Write(h, buffer));
    WriteKeepsDir(s, h, buffer);
    hide Inv, TfsWrite, UniqueNames, ExactCounts, CursorsInside;
  }

  lemma WriteKeepsDir(s: State, h: int, buffer: seq<Byte>)
    requires s.Mounted() && TfsWrite(s, h, buffer).Done?
    ensures TfsWrite(s, h, buffer).state.dir == s.dir
  {
  }

  lemma CloseKeepsGood(s: State, h: int)
    requires Good(s)
    ensures Good(TfsClose(s, h).state)
  {
    StepInv(s, Close(h));
    hide Inv;
  }

  lemma UnlinkCleanIff(s: State, target: CString)
    requires Good(s)
    ensures TfsUnlink(s, target).Done?
    ensures Good(TfsUnlink(s, target).state) <==> Clean(s, Unlink(target))
  {
    UnlinkKeepsInvIff(s, target);
    UnlinkCounts(s, target);
    UnlinkCursors(s, target);
    if Lookup(s, target) != -1 {
      UnlinkTables(s, target);
      ClearRemoves(s, target[1..]);
    }
    hide Inv, TfsUnlink, UniqueNames, ExactCounts, CursorsInside, LosesOpenFile, ClearDirEntry;
  }

  lemma SymLinkCleanIff(s: State, target: CString, linkName: CString)
    requires Good(s) && TfsSymLink(s, target, linkName).Done?
    ensures Good(TfsSymLink(s, target, linkName).state) <==> Clean(s, SymLink(target, linkName))
  {
    SymLinkInv(s, target, linkName);
    SymLinkCounts(s, target, linkName);
    SymLinkCursors(s, target, linkName);
    if Lookup(s, target) != -1 && CreateLink(s).1 != -1 {
      AddUniqueIff(s.dir, NameOf(linkName), CreateLink(s).1);
    }
    SymLinkDir(s, target, linkName);
    hide Inv, TfsSymLink, UniqueNames, ExactCounts, CursorsInside, CreateLink, AddDirEntry;
  }

  lemma SymLinkDir(s: State, target: CString, linkName: CString)
    requires s.Mounted() && TfsSymLink(s, target, linkName).Done?
    ensures TfsSymLink(s, target, linkName).state.dir
         == if Lookup(s, target) != -1 && CreateLink(s).1 != -1
            then AddDirEntry(s.dir, NameOf(linkName), CreateLink(s).1) else s.dir
    ensures Lookup(s, target) != -1 && CreateLink(s).1 != -1 ==> linkName != []
  {
  }

  lemma SymLinkCursors(s: State, target: CString, linkName: CString)
    requires Inv(s) && CursorsInside(s) && TfsSymLink(s, target, linkName).Done?
    ensures CursorsInside(TfsSymLink(s, target, linkName).state)
  {
    forall h | s.IsOpen(h) ensures s.Live(s.open[h].inumber) {
    }
    hide Inv;
  }

  lemma LinkCleanIff(s: State, target: CString, linkName: CString)
    requires Good(s) && TfsLink(s, target, linkName).Done?
    ensures Good(TfsLink(s, target, linkName).state) <==> Clean(s, Link(target, linkName))
  {
    LinkInv(s, target, linkName);
    LinkCounts(s, target, linkName);
    LinkCursors(s, target, linkName);
    if Lookup(s, target) != -1 {
      AddUniqueIff(s.dir, NameOf(linkName), Lookup(s, target));
    }
    LinkDir(s, target, linkName);
    hide Inv, TfsLink, UniqueNames, ExactCounts, CursorsInside, AddDirEntry;
  }

  lemma LinkDir(s: State, target: CString, linkName: CString)
    requires s.Mounted() && TfsLink(s, target, linkName).Done?
    ensures TfsLink(s, target, linkName).state.dir
         == if Lookup(s, target) != -1 && !IsLink(s, Lookup(s, target))
            then AddDirEntry(s.dir, NameOf(linkName), Lookup(s, target)) else s.dir
    ensures Lookup(s, target) != -1 && !IsLink(s, Lookup(s, target)) ==> linkName != []
  {
  }

  lemma LinkCursors(s: State, target: CString, linkName: CString)
    requires s.Mounted() && CursorsInside(s) && TfsLink(s, target, linkName).Done?
    ensures CursorsInside(TfsLink(s, target, linkName).state)
  {
  }

  /**
   * A call that returns keeps the tables in agreement, names unique, counts exact and cursors inside
   * exactly when it is clean.
   */
  lemma CleanIff(s: State, c: Call)
    requires Good(s) && Step(s, c).Done?
    ensures Good(Step(s, c).state) <==> Clean(s, c)
  {
    match c
    case Open(path, mode) => OpenCleanIff(s, path, mode);
    case SymLink(target, linkName) => SymLinkCleanIff(s, target, linkName);
    case Link(target, linkName) => LinkCleanIff(s, target, linkName);
    case Close(h) => CloseKeepsGood(s, h);
    case Write(h, buffer) => WriteKeepsGood(s, h, buffer);
    case Read(h, len) => ReadCleanIff(s, h, len);
    case Unlink(target) => UnlinkCleanIff(s, target);
  }

  /** A tfs_open that does not return has no answer in the abstract file system either. */
  lemma DivergesRefines(s: State, path: CString, mode: Mode)
    requires Inv(s) && TfsOpen(s, path, mode).Diverges?
    ensures forall r :: !Abs(s).LeadsTo(Abs(s).Bound(path), r)
  {
    var i := Lookup(s, path);
    BoundIs(s, path);
    FoundIsLive(s, path[1..]);
    FsLinks.NeverEnds(s, i);
    forall fuel: nat ensures Abs(s).Resolved(i, fuel) == None {
      ResolvedIs(s, i, fuel);
    }
  }

  /**
   * The call does something else than the abstract file system may do: a read that takes a stray byte, a read
   * or a write behind the end of its file, or an unlink that leaks the file.
   */
  ghost predicate Departs(s: State, c: Call)
    requires s.Mounted()
  {
    match c
    case Read(h, len) => Stranded(s, h) || TakesStrayByte(s, h, len)
    case Write(h, _) => Stranded(s, h)
    case Unlink(target) => Leaks(s, target)
    case _ => false
  }

  /** Handle h has its cursor behind the end of its file. */
  predicate Stranded(s: State, h: int)
    requires s.Shape()
  {
    s.IsOpen(h) && s.ValidInum(s.open[h].inumber) && !CursorInside(s, h)
  }

  lemma OpenInodeIsValid(s: State, h: int)
    requires Inv(s) && s.IsOpen(h)
    ensures s.ValidInum(s.open[h].inumber)
  {
  }

  lemma ReadDeparts(s: State, h: int, len: nat)
    requires Inv(s)
    ensures TfsRead(s, h, len).Done? ==>
              var r := TfsRead(s, h, len);
              (Reads(Abs(s), h, len, Abs(r.state), r.ret, r.bytes) <==> !Departs(s, Read(h, len)))
    ensures TfsRead(s, h, len).Done? || (TfsRead(s, h, len).Crash? && Departs(s, Read(h, len)))
  {
    hide Inv, Abs, Reads, OverReads;
    InvMounted(s);
    ReadRefinesIff(s, h, len);
    if s.IsOpen(h) {
      OpenInodeIsValid(s, h);
    }
  }

  lemma WriteDeparts(s: State, h: int, buffer: seq<Byte>)
    requires Inv(s)
    ensures TfsWrite(s, h, buffer).Done? ==>
              var r := TfsWrite(s, h, buffer);
              (Writes(LimitsOf(s), Abs(s), h, buffer, Abs(r.state), r.ret) <==> !Departs(s, Write(h, buffer)))
    ensures TfsWrite(s, h, buffer).Done? || (TfsWrite(s, h, buffer).Crash? && Departs(s, Write(h, buffer)))
  {
    hide Inv, Abs, Writes;
    InvMounted(s);
    WriteRefinesIff(s, h, buffer);
    if s.IsOpen(h) {
      OpenInodeIsValid(s, h);
    }
  }

  /**
   * Refinement: while the tables agree and names are unique, every call that returns does what the abstract
   * file system may do, exactly unless it departs from it in one of those ways. A call that does not return is
   * a tfs_open on a path without an end; one that aborts departs, or is given an empty string as a link's name.
   */
  lemma Simulates(s: State, c: Call)
    requires Inv(s) && UniqueNames(s.dir)
    ensures var r := Step(s, c);
            && (r.Done? ==> (AStep(LimitsOf(s), Abs(s), c, Abs(r.state), r.ret, r.bytes) <==> !Departs(s, c)))
            && (r.Diverges? ==> c.Open? && forall i :: !Abs(s).LeadsTo(Abs(s).Bound(c.path), i))
            && (r.Crash? ==> Departs(s, c) || ((c.SymLink? || c.Link?) && c.linkName == []))
  {
    hide Inv, UniqueNames, Abs, LimitsOf, TfsOpen, TfsSymLink, TfsLink, TfsWrite, TfsRead, TfsUnlink;
    hide Opens, SymLinks, Links, Closes, Writes, Reads, Unlinks, Leaks, Stranded, TakesStrayByte;
    InvMounted(s);
    match c
    case Open(path, mode) =>
      OpenInv(s, path, mode);
      if TfsOpen(s, path, mode).Done? {
        OpenRefines(s, path, mode);
      } else {
        DivergesRefines(s, path, mode);
      }
    case SymLink(target, linkName) =>
      LinksReturn(s, target, linkName);
      SymLinkInv(s, target, linkName);
      if TfsSymLink(s, target, linkName).Done? {
        SymLinkRefines(s, target, linkName);
      }
    case Link(target, linkName) =>
      LinksReturn(s, target, linkName);
      LinkInv(s, target, linkName);
      if TfsLink(s, target, linkName).Done? {
        LinkRefines(s, target, linkName);
      }
    case Close(h) => CloseRefines(s, h);
    case Write(h, buffer) => WriteDeparts(s, h, buffer);
    case Read(h, len) => ReadDeparts(s, h, len);
    case Unlink(target) => UnlinkRefinesIff(s, target);
  }

  lemma LinksReturn(s: State, target: CString, linkName: CString)
    requires s.Mounted()
    ensures !TfsSymLink(s, target, linkName).Diverges? && !TfsLink(s, target, linkName).Diverges?
  {
  }

  /** In a state that is in order no clean call departs from the abstract file system. */
  lemma CleanFollows(s: State, c: Call)
    requires Good(s) && Clean(s, c)
    ensures s.Mounted() && !Departs(s, c)
  {
    hide BlocksInv, LinksInv, HandlesInv, TakesStrayByte, LosesOpenFile;
    match c
    case Unlink(target) =>
      if Lookup(s, target) != -1 {
        FoundIsLive(s, target[1..]);
      }
    case _ =>
  }

  ghost predicate AbstractStep(l: Limits, s: State, c: Call) {
    && s.Mounted() && Step(s, c).Done?
    && AStep(l, Abs(s), c, Abs(Step(s, c).state), Step(s, c).ret, Step(s, c).bytes)
  }

  lemma GoodMounted(s: State)
    requires Good(s)
    ensures s.Mounted()
  {
  }

  lemma GoodInv(s: State)
    requires Good(s)
    ensures Inv(s) && NamesInv(s)
  {
  }

  lemma StartGood(p: Params, memory: seq<Byte>, s: State)
    requires Starts(s, p, memory)
    ensures Good(s)
  {
    InitInv(p, memory);
  }

  /** One clean call. */
  lemma CleanStep(s: State, c: Call)
    requires Good(s) && Clean(s, c) && Step(s, c).Done?
    ensures s.Mounted() && Step(s, c).state.Mounted()
    ensures Good(Step(s, c).state) && LimitsOf(Step(s, c).state) == LimitsOf(s) && AbstractStep(LimitsOf(s), s, c)
  {
    hide Inv, UniqueNames, ExactCounts, CursorsInside, Clean, Departs, AStep, Step, Abs;
    CleanIff(s, c);
    CleanFollows(s, c);
    Simulates(s, c);
    GoodMounted(Step(s, c).state);
    SameLimits(s, c);
  }

  lemma SameLimits(s: State, c: Call)
    requires s.Mounted() && Step(s, c).Done? && Step(s, c).state.Mounted()
    ensures LimitsOf(Step(s, c).state) == LimitsOf(s)
  {
    hide Step;
  }

  /** Over runs of clean calls the tables behave as the abstract file system throughout. */
  lemma {:induction false} SimulatesAlways(p: Params, memory: seq<Byte>, ss: seq<State>, cs: seq<Call>, k: nat)
    requires Run(ss, cs) && Starts(ss[0], p, memory) && k < |ss|
    requires forall j :: 0 <= j < k ==> ss[j].Mounted() && Clean(ss[j], cs[j])
    ensures Good(ss[k]) && LimitsOf(ss[k]) == LimitsOf(ss[0])
    ensures forall j :: 0 <= j < k ==> AbstractStep(LimitsOf(ss[0]), ss[j], cs[j])
  {
    hide Starts, Good, Clean, Step, AbstractStep, LimitsOf;
    StartGood(p, memory, ss[0]);
    if k > 0 {
      SimulatesAlways(p, memory, ss, cs, k - 1);
      CleanStep(ss[k - 1], cs[k - 1]);
    }
  }
}
