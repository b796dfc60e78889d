/** The invariants hold in every state a run of calls can reach. */
module FsRuns {
  import opened CTypes
  import opened FsState
  import opened FsOperations
  import opened FsInvariant

  // ---- link resolution in a state that satisfies the invariants ----

  /** Dropping the first byte of a link's path leaves the name get_path_recursive looks up. */
  lemma LinkNameIs(s: State, i: int)
    requires s.Shape() && IsLink(s, i) && LinkOk(s, i)
    ensures LinkName(s, i) == Some(LinkText(s, i).value[1..])
  {
    var p := s.Base(s.inodes[i].block);
    var text := LinkText(s, i).value;
    assert s.data[p + 1..p + |text|] == s.data[p..p + |text|][1..];
    StringAtIs(s.data, p + 1, text[1..]);
  }

  /** get_path_recursive stays among the named inodes. */
  lemma {:induction false} FollowNamed(s: State, i: int, fuel: nat)
    requires NamesInv(s) && (i == -1 || (s.Live(i) && i != ROOT_DIR_INUM))
    ensures var r := Follow(s, i, fuel);
            r.Ends? ==> r.inumber == -1 || (s.Live(r.inumber) && r.inumber != ROOT_DIR_INUM && !IsLink(s, r.inumber))
    decreases fuel
  {
    if i != -1 && IsLink(s, i) && LinkName(s, i).Some? && fuel > 0 {
      var name := LinkName(s, i).value;
      if FindInDir(s.dir, name) != -1 {
        FoundIsLive(s, name);
      }
      FollowNamed(s, FindInDir(s.dir, name), fuel - 1);
    }
  }

  lemma LiveLinkName(s: State, i: int)
    requires Inv(s) && s.Live(i) && IsLink(s, i)
    ensures LinkOk(s, i) && LinkName(s, i) == Some(LinkText(s, i).value[1..])
  {
    LinkNameIs(s, i);
  }

  lemma LiveHop(s: State, i: int)
    requires Inv(s) && s.Live(i) && IsLink(s, i)
    ensures LinkName(s, i).Some?
    ensures var next := FindInDir(s.dir, LinkName(s, i).value); next == -1 || (s.Live(next) && next != ROOT_DIR_INUM)
  {
    LiveLinkName(s, i);
    var name := LinkName(s, i).value;
    if FindInDir(s.dir, name) != -1 {
      FoundIsLive(s, name);
    }
  }

  lemma {:induction false} FollowUnbroken(s: State, i: int, fuel: nat)
    requires Inv(s) && (i == -1 || (s.Live(i) && i != ROOT_DIR_INUM))
    ensures Follow(s, i, fuel) != Broken
    decreases fuel
  {
    hide Inv, LinkName, FindInDir;
    InvMounted(s);
    if i != -1 && IsLink(s, i) {
      LiveHop(s, i);
      if fuel > 0 {
        FollowUnbroken(s, FindInDir(s.dir, LinkName(s, i).value), fuel - 1);
      }
    }
  }

  /** Under the full invariant get_path_recursive ends at a live file, at -1, or not at all. */
  lemma ResolveSafe(s: State, i: int)
    requires Inv(s) && s.Live(i) && i != ROOT_DIR_INUM
    ensures var r := Resolve(s, i);
            r != Broken &&
            (r.Ends? && r.inumber != -1 ==>
               s.Live(r.inumber) && r.inumber != ROOT_DIR_INUM && s.inodes[r.inumber].kind == File)
  {
    FollowUnbroken(s, i, |s.inodes|);
    FollowNamed(s, i, |s.inodes|);
    var r := Resolve(s, i);
    if r.Ends? && r.inumber != -1 {
      assert CountOk(s, r.inumber);
    }
  }

  // ---- names and counts: every call ----

  lemma OpenNames(s: State, path: CString, mode: Mode)
    requires NamesInv(s) && TfsOpen(s, path, mode).Done?
    ensures NamesInv(TfsOpen(s, path, mode).state)
  {
    var i := Lookup(s, path);
    if i >= 0 {
      FoundIsLive(s, path[1..]);
      FollowNamed(s, i, |s.inodes|);
      var r := Resolve(s, i);
      if r.Ends? && r.inumber != -1 {
        var j := r.inumber;
        var t := if mode.truncate then Truncate(s, j).value else s;
        SameNames(s, t);
        AddHandleNames(t, j, if mode.append then t.inodes[j].size else 0);
      }
    } else if ValidPath(path) && mode.create && CreateFile(s).1 != -1 {
      OpenNewNames(s, path[1..]);
    }
  }

  lemma OpenNewNames(s: State, name: CString)
    requires NamesInv(s) && CreateFile(s).1 != -1
    ensures OpenNew(s, name).Done? && NamesInv(OpenNew(s, name).state)
  {
    var (c, i) := CreateFile(s);
    CreateFileNames(s);
    if CanAdd(s.dir, name) {
      AddEntryNames(c, name, i);
      AddHandleNames(c.(dir := AddDirEntry(s.dir, name, i)), i, 0);
    } else {
      DeleteNames(c, i);
    }
  }

  lemma SymLinkNames(s: State, target: CString, linkName: CString)
    requires NamesInv(s) && TfsSymLink(s, target, linkName).Done?
    ensures NamesInv(TfsSymLink(s, target, linkName).state)
  {
    var (c, i) := CreateLink(s);
    CreateLinkNames(s);
    if Lookup(s, target) != -1 && i != -1 {
      var t := StoreLink(s, target);
      SameNames(c, t);
      AddEntryNames(t, linkName[1..], i);
    }
  }

  lemma LinkNames(s: State, target: CString, linkName: CString)
    requires NamesInv(s) && TfsLink(s, target, linkName).Done?
    ensures NamesInv(TfsLink(s, target, linkName).state)
  {
    var i := Lookup(s, target);
    if i != -1 && !IsLink(s, i) {
      FoundIsLive(s, target[1..]);
      assert CountOk(s, i);
      SameNames(s, Bumped(s, i));
      AddEntryNames(Bumped(s, i), linkName[1..], i);
    }
  }

  lemma WriteNames(s: State, h: int, buffer: seq<Byte>)
    requires NamesInv(s) && TfsWrite(s, h, buffer).Done?
    ensures NamesInv(TfsWrite(s, h, buffer).state)
  {
    SameNames(s, TfsWrite(s, h, buffer).state);
  }

  lemma UnlinkNames(s: State, target: CString)
    requires NamesInv(s) && TfsUnlink(s, target).Done?
    ensures NamesInv(TfsUnlink(s, target).state)
  {
    var i := Lookup(s, target);
    if i != -1 {
      var name := target[1..];
      FoundIsLive(s, name);
      ClearEntryNames(s, name);
      assert CountOk(s, i);
      var t := s.(dir := ClearDirEntry(s.dir, name));
      if s.inodes[i].count > 1 {
        DroppedNames(t, i);
      } else {
        DeleteNames(t, i);
      }
    }
  }

  lemma StepNames(s: State, c: Call)
    requires NamesInv(s) && Step(s, c).Done?
    ensures NamesInv(Step(s, c).state)
  {
    match c
    case Open(path, mode) => OpenNames(s, path, mode);
    case SymLink(target, linkName) => SymLinkNames(s, target, linkName);
    case Link(target, linkName) => LinkNames(s, target, linkName);
    case Close(h) => SameNames(s, TfsClose(s, h).state);
    case Write(h, buffer) => WriteNames(s, h, buffer);
    case Read(h, len) => SameNames(s, TfsRead(s, h, len).state);
    case Unlink(target) => UnlinkNames(s, target);
  }

  // ---- the full invariant: every call that does not take the last name of an open file ----

  /** Unlinking target would free an inode that a handle still has open. */
  ghost predicate LosesOpenFile(s: State, target: CString)
    requires s.Mounted()
  {
    var i := Lookup(s, target);
    i != -1 && s.ValidInum(i) && s.inodes[i].count <= 1 && exists h :: s.IsOpen(h) && s.open[h].inumber == i
  }

  ghost predicate KeepsOpenFiles(s: State, c: Call)
    requires s.Mounted()
  {
    c.Unlink? ==> !LosesOpenFile(s, c.target)
  }

  lemma OpenInv(s: State, path: CString, mode: Mode)
    requires Inv(s)
    ensures TfsOpen(s, path, mode) != Crash
    ensures TfsOpen(s, path, mode).Done? ==> Inv(TfsOpen(s, path, mode).state)
  {
    var i := Lookup(s, path);
    if i >= 0 {
      FoundIsLive(s, path[1..]);
      ResolveSafe(s, i);
      var r := Resolve(s, i);
      if r.Ends? && r.inumber != -1 {
        var j := r.inumber;
        if mode.truncate {
          TruncateInv(s, j);
        }
        var t := if mode.truncate then Truncate(s, j).value else s;
        AddHandleInv(t, j, if mode.append then t.inodes[j].size else 0);
      }
    } else if ValidPath(path) && mode.create && CreateFile(s).1 != -1 {
      OpenNewInv(s, path[1..]);
    }
  }

  lemma OpenNewInv(s: State, name: CString)
    requires Inv(s) && CreateFile(s).1 != -1
    ensures OpenNew(s, name).Done? && Inv(OpenNew(s, name).state)
  {
    var (c, i) := CreateFile(s);
    CreateFileNames(s);
    CreateFileInv(s);
    if CanAdd(s.dir, name) {
      AddEntryInv(c, name, i);
      AddHandleInv(c.(dir := AddDirEntry(s.dir, name, i)), i, 0);
    } else {
      DeleteInv(c, i);
    }
  }

  /** A bound path fits in a block, terminator included: a directory entry is longer. */
  lemma BoundPathFits(s: State, path: CString)
    requires NamesInv(s) && Lookup(s, path) != -1
    ensures ValidPath(path) && |path| <= MAX_FILE_NAME < DIR_ENTRY_SIZE <= s.blockSize
  {
    var k := FindSlot(s.dir, path[1..]);
    assert SlotOk(s, s.dir[k]);
    assert 0 < |s.dir|;
  }

  lemma SymLinkInv(s: State, target: CString, linkName: CString)
    requires Inv(s)
    ensures TfsSymLink(s, target, linkName) == Crash ==> linkName == []
    ensures TfsSymLink(s, target, linkName).Done? ==> Inv(TfsSymLink(s, target, linkName).state)
  {
    var (c, i) := CreateLink(s);
    if Lookup(s, target) != -1 {
      BoundPathFits(s, target);
      if i == -1 {
        CreateLinkFailsInv(s);
      } else if linkName != [] {
        var t := StoreLink(s, target);
        CreateLinkNames(s);
        StoreLinkInv(s, target);
        AddEntryInv(t, linkName[1..], i);
      }
    }
  }

  lemma LinkInv(s: State, target: CString, linkName: CString)
    requires Inv(s)
    ensures TfsLink(s, target, linkName) == Crash ==> linkName == []
    ensures TfsLink(s, target, linkName).Done? ==> Inv(TfsLink(s, target, linkName).state)
  {
    var i := Lookup(s, target);
    if i != -1 {
      FoundIsLive(s, target[1..]);
      if !IsLink(s, i) && linkName != [] {
        BumpedInv(s, i);
        AddEntryInv(Bumped(s, i), linkName[1..], i);
      }
    }
  }

  /** A write that would leave the block is so long that it leaves the memory. */
  lemma WriteStaysInBlock(s: State, offset: nat, len: nat)
    requires s.Shape() && offset + WriteLength(s, offset, len) < SIZE_T_RANGE
    ensures offset + WriteLength(s, offset, len) <= s.blockSize
  {
    if offset > s.blockSize {
      WrapIsFar(s.blockSize, offset);
    }
  }

  lemma WriteInv(s: State, h: int, buffer: seq<Byte>)
    requires Inv(s) && TfsWrite(s, h, buffer).Done?
    ensures Inv(TfsWrite(s, h, buffer).state)
  {
    if s.IsOpen(h) {
      var n := WriteLength(s, s.open[h].offset, |buffer|);
      if n > 0 && TfsWrite(s, h, buffer).ret > 0 {
        WriteStaysInBlock(s, s.open[h].offset, |buffer|);
        WriteBlockInv(s, h, buffer, n);
      }
    }
  }

  lemma UnlinkInv(s: State, target: CString)
    requires Inv(s) && !LosesOpenFile(s, target)
    ensures TfsUnlink(s, target).Done? && Inv(TfsUnlink(s, target).state)
  {
    var i := Lookup(s, target);
    if i != -1 {
      var name := target[1..];
      FoundIsLive(s, name);
      ClearEntryNames(s, name);
      assert CountOk(s, i);
      var t := s.(dir := ClearDirEntry(s.dir, name));
      DirOnly(s, ClearDirEntry(s.dir, name));
      if s.inodes[i].count > 1 {
        DroppedInv(t, i);
      } else {
        DeleteInv(t, i);
      }
    }
  }

  lemma CloseInv(s: State, h: int)
    requires Inv(s)
    ensures Inv(TfsClose(s, h).state)
  {
    var t := TfsClose(s, h).state;
    SameNames(s, t);
    OpenTableOnly(s, t.open, t.openTaken);
  }

  lemma ReadInv(s: State, h: int, len: nat)
    requires Inv(s) && TfsRead(s, h, len).Done?
    ensures Inv(TfsRead(s, h, len).state)
  {
    hide BlocksInv, LinksInv;
    var t := TfsRead(s, h, len).state;
    SameNames(s, t);
    OpenTableOnly(s, t.open, t.openTaken);
  }

  lemma StepInv(s: State, c: Call)
    requires Inv(s) && Step(s, c).Done? && KeepsOpenFiles(s, c)
    ensures Inv(Step(s, c).state)
  {
    match c
    case Open(path, mode) => OpenInv(s, path, mode);
    case SymLink(target, linkName) => SymLinkInv(s, target, linkName);
    case Link(target, linkName) => LinkInv(s, target, linkName);
    case Close(h) => CloseInv(s, h);
    case Write(h, buffer) => WriteInv(s, h, buffer);
    case Read(h, len) => ReadInv(s, h, len);
    case Unlink(target) => UnlinkInv(s, target);
  }

  /** Unlinking is safe exactly when it does not free an inode some handle has open. */
  lemma UnlinkKeepsInvIff(s: State, target: CString)
    requires Inv(s)
    ensures TfsUnlink(s, target).Done?
    ensures Inv(TfsUnlink(s, target).state) <==> !LosesOpenFile(s, target)
  {
    if !LosesOpenFile(s, target) {
      UnlinkInv(s, target);
    } else {
      var i := Lookup(s, target);
      FoundIsLive(s, target[1..]);
      if s.inodes[i].size > 0 {
        assert Owns(s, i, s.inodes[i].block);
      }
      var t := TfsUnlink(s, target).state;
      var h :| s.IsOpen(h) && s.open[h].inumber == i;
      assert t.IsOpen(h) && !t.Live(t.open[h].inumber);
    }
  }

  // ---- runs ----

  lemma InitInv(p: Params, memory: seq<Byte>)
    requires 0 < p.blockSize && |memory| == p.blocks * p.blockSize + 1 <= SIZE_T_RANGE
    ensures Init(p, memory).Some? <==> 0 < p.inodes && 0 < p.blocks
    ensures Init(p, memory).Some? ==> Inv(Init(p, memory).value)
  {
    if Init(p, memory).Some? {
      var s := Init(p, memory).value;
      assert Owns(s, 0, 0);
      assert forall k :: 0 <= k < |s.dir| ==> SlotOk(s, s.dir[k]);
    }
  }

  /** The states a sequence of calls passes through; every call in it returned. */
  ghost predicate Run(ss: seq<State>, cs: seq<Call>) {
    && |ss| == |cs| + 1
    && forall k :: 0 <= k < |cs| ==>
         ss[k].Mounted() && Step(ss[k], cs[k]).Done? && ss[k + 1] == Step(ss[k], cs[k]).state
  }

  /** Starting from a fresh file system over any memory contents. */
  ghost predicate Starts(s: State, p: Params, memory: seq<Byte>) {
    0 < p.blockSize && |memory| == p.blocks * p.blockSize + 1 <= SIZE_T_RANGE && Init(p, memory) == Some(s)
  }

  /** In every run, failed calls included, no slot names a free inode and counts cover the names. */
  lemma {:induction false} NamesInvAlways(p: Params, memory: seq<Byte>, ss: seq<State>, cs: seq<Call>, k: nat)
    requires Run(ss, cs) && Starts(ss[0], p, memory) && k < |ss|
    ensures NamesInv(ss[k])
  {
    if k == 0 {
      InitInv(p, memory);
    } else {
      NamesInvAlways(p, memory, ss, cs, k - 1);
      StepNames(ss[k - 1], cs[k - 1]);
    }
  }

  /** In every run that never unlinks the last name of an open file, all tables agree. */
  lemma {:induction false} InvAlways(p: Params, memory: seq<Byte>, ss: seq<State>, cs: seq<Call>, k: nat)
    requires Run(ss, cs) && Starts(ss[0], p, memory) && k < |ss|
    requires forall j :: 0 <= j < k ==> KeepsOpenFiles(ss[j], cs[j])
    ensures Inv(ss[k])
  {
    if k == 0 {
      InitInv(p, memory);
    } else {
      InvAlways(p, memory, ss, cs, k - 1);
      StepInv(ss[k - 1], cs[k - 1]);
    }
  }

  // ---- conservation of blocks ----

  function FreeBlocks(s: State): set<int> { set b | 0 <= b < |s.blockTaken| && !s.blockTaken[b] }

  function NonemptyInodes(s: State): set<int>
    requires s.Shape()
  {
    set i | 0 <= i < |s.inodes| && s.inodeTaken[i] && s.inodes[i].size > 0
  }

  /** An injective function keeps the number of elements. */
  lemma {:induction false} InjectiveCard<A, B>(xs: set<A>, f: A -> B, ys: set<B>)
    requires forall x :: x in xs ==> f(x) in ys
    requires forall x, y :: x in xs && y in xs && f(x) == f(y) ==> x == y
    requires forall y :: y in ys ==> exists x :: x in xs && f(x) == y
    ensures |xs| == |ys|
    decreases |xs|
  {
    if |xs| == 0 {
      assert ys == {};
    } else {
      var x :| x in xs;
      forall y | y in ys - {f(x)} ensures exists z :: z in xs - {x} && f(z) == y {
        var z :| z in xs && f(z) == y;
        assert z in xs - {x};
      }
      InjectiveCard(xs - {x}, f, ys - {f(x)});
    }
  }

  function Range(n: nat): (r: set<int>)
    ensures |r| == n && forall k :: k in r <==> 0 <= k < n
  {
    if n == 0 then {} else Range(n - 1) + {n - 1}
  }

  function TakenBlocks(s: State): set<int> { set b | 0 <= b < |s.blockTaken| && s.blockTaken[b] }

  function BlockOf(s: State): (f: int -> int) { (i: int) => if 0 <= i < |s.inodes| then s.inodes[i].block else -1 }

  /** Nonempty live inodes and taken blocks correspond one to one. */
  lemma OwnersAreBlocks(s: State)
    requires Inv(s)
    ensures |NonemptyInodes(s)| == |TakenBlocks(s)|
  {
    var owned, used, block := NonemptyInodes(s), TakenBlocks(s), BlockOf(s);
    hide NamesInv, LinksInv, HandlesInv;
    forall i | i in owned ensures block(i) in used && Owns(s, i, block(i)) {
      assert Owns(s, i, block(i));
    }
    forall b | b in used ensures exists i :: i in owned && block(i) == b {
      var i :| Owns(s, i, b);
      assert i in owned && block(i) == b;
    }
    InjectiveCard(owned, block, used);
  }

  /** Each block is free or belongs to precisely one nonempty live inode. */
  lemma BlockConservation(s: State)
    requires Inv(s)
    ensures |FreeBlocks(s)| + |NonemptyInodes(s)| == |s.blockTaken|
  {
    hide Inv, NonemptyInodes;
    InvMounted(s);
    OwnersAreBlocks(s);
    assert Range(|s.blockTaken|) == FreeBlocks(s) + TakenBlocks(s);
    assert FreeBlocks(s) !! TakenBlocks(s);
  }

  // ---- exact link counts ----

  /** Every live inode but the root is counted once per name. */
  ghost predicate ExactCounts(s: State)
    requires s.Shape()
  {
    forall i :: i != ROOT_DIR_INUM && s.Live(i) ==> s.inodes[i].count == Slots(s.dir, i)
  }

  /** A linking call that gets as far as add_dir_entry finds room for the name. */
  predicate AddSucceeds(s: State, c: Call)
    requires s.Mounted()
  {
    match c
    case SymLink(target, linkName) =>
      Lookup(s, target) == -1 || CreateLink(s).1 == -1 || linkName == [] || CanAdd(s.dir, linkName[1..])
    case Link(target, linkName) =>
      var i := Lookup(s, target);
      i == -1 || IsLink(s, i) || linkName == [] || CanAdd(s.dir, linkName[1..])
    case _ => true
  }

  lemma AddEntryCounts(s: State, name: CString, i: int, j: int)
    requires i != -1 && j != -1
    ensures Slots(AddDirEntry(s.dir, name, i), j) == Slots(s.dir, j) + if CanAdd(s.dir, name) && i == j then 1 else 0
  {
    if CanAdd(s.dir, name) {
      SlotsUpdate(s.dir, FreeSlot(s.dir), DirEntry(name, i), j);
    }
  }

  lemma ClearCounts(s: State, name: CString, j: int)
    requires NamesInv(s) && name != [] && FindInDir(s.dir, name) != -1 && j != -1
    ensures Slots(ClearDirEntry(s.dir, name), j)
         == Slots(s.dir, j) - if j == FindInDir(s.dir, name) then 1 else 0
  {
    hide Slots;
    NameSlotIsFindSlot(s, name);
    SlotsUpdate(s.dir, NameSlot(s.dir, name), DirEntry([], -1), j);
  }

  lemma UnlinkCounts(s: State, target: CString)
    requires NamesInv(s) && ExactCounts(s) && TfsUnlink(s, target).Done?
    ensures ExactCounts(TfsUnlink(s, target).state)
  {
    hide Slots, ClearDirEntry, FindInDir;
    var i := Lookup(s, target);
    if i != -1 {
      FoundIsLive(s, target[1..]);
      var t := TfsUnlink(s, target).state;
      forall j | j != ROOT_DIR_INUM && t.Live(j) ensures t.inodes[j].count == Slots(t.dir, j) {
        ClearCounts(s, target[1..], j);
      }
    }
  }

  lemma OpenNewCounts(s: State, name: CString)
    requires NamesInv(s) && ExactCounts(s) && OpenNew(s, name).Done?
    ensures ExactCounts(OpenNew(s, name).state)
  {
    var i := FirstFree(s.inodeTaken);
    var t := OpenNew(s, name).state;
    if i != -1 {
      UnnamedInode(s, i);
      forall j | j != ROOT_DIR_INUM && t.Live(j) ensures t.inodes[j].count == Slots(t.dir, j) {
        AddEntryCounts(s, name, i, j);
      }
    }
  }

  /** Opening what exists changes no name, no count and no byte. */
  lemma OpenInodeKeeps(s: State, i: int, mode: Mode)
    requires s.Shape() && OpenInode(s, i, mode).Done?
    ensures var t := OpenInode(s, i, mode).state;
            && t.Shape() && t.blockSize == s.blockSize && t.dir == s.dir && t.data == s.data
            && t.inodeTaken == s.inodeTaken
            && |t.inodes| == |s.inodes| && |t.blockTaken| == |s.blockTaken|
            && forall k :: 0 <= k < |s.inodes| ==> t.inodes[k].(size := 0) == s.inodes[k].(size := 0)
  {
  }

  lemma OpenCounts(s: State, path: CString, mode: Mode)
    requires NamesInv(s) && ExactCounts(s) && TfsOpen(s, path, mode).Done?
    ensures ExactCounts(TfsOpen(s, path, mode).state)
  {
    if ValidPath(path) && Lookup(s, path) < 0 && mode.create {
      OpenNewCounts(s, path[1..]);
    } else if Lookup(s, path) >= 0 {
      OpenInodeKeeps(s, Lookup(s, path), mode);
      var t := TfsOpen(s, path, mode).state;
      assert forall j :: t.Live(j) ==> s.Live(j) && t.inodes[j].(size := 0).count == s.inodes[j].count;
    }
  }

  lemma SymLinkCounts(s: State, target: CString, linkName: CString)
    requires NamesInv(s) && ExactCounts(s) && TfsSymLink(s, target, linkName).Done?
    ensures ExactCounts(TfsSymLink(s, target, linkName).state) <==> AddSucceeds(s, SymLink(target, linkName))
  {
    var i := CreateLink(s).1;
    CreateLinkNames(s);
    if Lookup(s, target) != -1 && i != -1 {
      var t := TfsSymLink(s, target, linkName).state;
      forall j | j != ROOT_DIR_INUM && t.Live(j)
        ensures t.inodes[j].count == Slots(t.dir, j) <==> j != i || CanAdd(s.dir, linkName[1..])
      {
        AddEntryCounts(s, linkName[1..], i, j);
      }
      assert t.Live(i);
    }
  }

  lemma LinkCounts(s: State, target: CString, linkName: CString)
    requires NamesInv(s) && ExactCounts(s) && TfsLink(s, target, linkName).Done?
    ensures ExactCounts(TfsLink(s, target, linkName).state) <==> AddSucceeds(s, Link(target, linkName))
  {
    var i := Lookup(s, target);
    if i != -1 && !IsLink(s, i) {
      FoundIsLive(s, target[1..]);
      var t := TfsLink(s, target, linkName).state;
      forall j | j != ROOT_DIR_INUM && t.Live(j)
        ensures t.inodes[j].count == Slots(t.dir, j) <==> j != i || CanAdd(s.dir, linkName[1..])
      {
        AddEntryCounts(s, linkName[1..], i, j);
      }
      assert t.Live(i);
    }
  }

  /** The counts stay exact across a call precisely when its name, if it adds one, fits. */
  lemma ExactCountsIff(s: State, c: Call)
    requires NamesInv(s) && ExactCounts(s) && Step(s, c).Done?
    ensures ExactCounts(Step(s, c).state) <==> AddSucceeds(s, c)
  {
    match c
    case Open(path, mode) => OpenCounts(s, path, mode);
    case SymLink(target, linkName) => SymLinkCounts(s, target, linkName);
    case Link(target, linkName) => LinkCounts(s, target, linkName);
    case Unlink(target) => UnlinkCounts(s, target);
    case _ =>
  }

  /** With exact counts, unlinking frees the inode precisely when it takes its last name. */
  lemma UnlinkFreesLastName(s: State, target: CString)
    requires NamesInv(s) && TfsUnlink(s, target).Done? && Lookup(s, target) != -1
    ensures var i := Lookup(s, target); var t := TfsUnlink(s, target).state;
            && (!t.Live(i) ==> Slots(t.dir, i) == 0)
            && (ExactCounts(s) ==> (!t.Live(i) <==> Slots(s.dir, i) == 1))
            && Slots(t.dir, i) == Slots(s.dir, i) - 1
  {
    var i := Lookup(s, target);
    FoundIsLive(s, target[1..]);
    ClearEntryNames(s, target[1..]);
    assert CountOk(s, i);
  }

  lemma {:induction false} ExactCountsAlways(p: Params, memory: seq<Byte>, ss: seq<State>, cs: seq<Call>, k: nat)
    requires Run(ss, cs) && Starts(ss[0], p, memory) && k < |ss|
    requires forall j :: 0 <= j < k ==> ss[j].Mounted() && AddSucceeds(ss[j], cs[j])
    ensures NamesInv(ss[k]) && ExactCounts(ss[k])
  {
    NamesInvAlways(p, memory, ss, cs, k);
    if k > 0 {
      ExactCountsAlways(p, memory, ss, cs, k - 1);
      ExactCountsIff(ss[k - 1], cs[k - 1]);
    }
  }
}
