/** What the tables of TecnicoFS keep true, one table change at a time. */
module FsInvariant {
  import opened CTypes
  import opened FsState
  import opened FsOperations

  // ---- names and link counts: kept by every call ----

  /** How many directory slots hold inode i. */
  function Slots(dir: seq<DirEntry>, i: int): (n: nat)
    ensures n == 0 <==> forall k :: 0 <= k < |dir| ==> dir[k].inumber != i
  {
    if dir == [] then 0 else Slots(dir[..|dir| - 1], i) + if dir[|dir| - 1].inumber == i then 1 else 0
  }

  predicate SlotOk(s: State, e: DirEntry)
    requires s.Shape()
  {
    if e.inumber == -1 then e.name == []
    else e.inumber != ROOT_DIR_INUM && s.Live(e.inumber) && ValidEntryName(e.name)
  }

  predicate CountOk(s: State, i: int)
    requires s.Shape() && s.Live(i)
  {
    s.inodes[i].kind != Directory && 1 <= s.inodes[i].count && Slots(s.dir, i) <= s.inodes[i].count
  }

  /**
   * No slot names a free inode, free slots are blank, and every live inode but the root is counted at
   * least as often as it is named.
   */
  ghost predicate NamesInv(s: State) {
    && s.Mounted()
    && (forall k :: 0 <= k < |s.dir| ==> SlotOk(s, s.dir[k]))
    && (forall i :: i != ROOT_DIR_INUM && s.Live(i) ==> CountOk(s, i))
    && (forall h :: s.IsOpen(h) ==> s.ValidInum(s.open[h].inumber) && s.open[h].inumber != ROOT_DIR_INUM)
  }

  // ---- blocks, open files and link texts: kept while no open file loses its last name ----

  predicate Owns(s: State, i: int, b: int)
    requires s.Shape()
  {
    s.Live(i) && s.inodes[i].size > 0 && s.inodes[i].block == b
  }

  /** Every block of a live nonempty inode is taken. */
  ghost predicate OwnedTaken(s: State)
    requires s.Shape()
  {
    forall i, b :: Owns(s, i, b) ==> s.ValidBlock(b) && s.blockTaken[b]
  }

  /** No two inodes own one block. */
  ghost predicate OwnedOnce(s: State)
    requires s.Shape()
  {
    forall i, j, b :: Owns(s, i, b) && Owns(s, j, b) ==> i == j
  }

  /** No block is lost: a taken block has an owner. */
  ghost predicate TakenOwned(s: State)
    requires s.Shape()
  {
    forall b :: s.ValidBlock(b) && s.blockTaken[b] ==> exists i :: Owns(s, i, b)
  }

  predicate SizeOk(s: State, i: int)
    requires s.Shape() && s.Live(i)
  {
    && (s.inodes[i].kind == File ==> s.inodes[i].size <= s.blockSize)
    && (s.inodes[i].kind == SoftLink ==> s.inodes[i].size == MAX_FILE_NAME)
  }

  ghost predicate BlocksInv(s: State)
    requires s.Shape()
  {
    OwnedTaken(s) && OwnedOnce(s) && TakenOwned(s) && forall i :: s.Live(i) ==> SizeOk(s, i)
  }

  /** An open handle leads to a live file. */
  ghost predicate HandlesInv(s: State)
    requires s.Shape()
  {
    forall h :: s.IsOpen(h) ==> s.Live(s.open[h].inumber) && s.inodes[s.open[h].inumber].kind == File
  }

  predicate LinkOk(s: State, i: int)
    requires s.Shape() && IsLink(s, i)
  {
    && s.ValidBlock(s.inodes[i].block)
    && LinkText(s, i).Some?
    && ValidPath(LinkText(s, i).value)
    && |LinkText(s, i).value| < s.blockSize
  }

  /** A live link's block holds a path that fits in it. */
  ghost predicate LinksInv(s: State)
    requires s.Shape()
  {
    forall i :: s.Live(i) && IsLink(s, i) ==> LinkOk(s, i)
  }

  ghost predicate Inv(s: State) {
    NamesInv(s) && BlocksInv(s) && HandlesInv(s) && LinksInv(s)
  }

  lemma InvMounted(s: State)
    requires Inv(s)
    ensures s.Mounted() && NamesInv(s)
  {
  }

  // ---- slots ----

  lemma SlotsOf(dir: seq<DirEntry>, i: int)
    requires dir != []
    ensures Slots(dir, i) == Slots(dir[..|dir| - 1], i) + if dir[|dir| - 1].inumber == i then 1 else 0
  {
  }

  lemma {:induction false} SlotsUpdate(dir: seq<DirEntry>, k: nat, e: DirEntry, i: int)
    requires k < |dir|
    ensures Slots(dir[k := e], i)
         == Slots(dir, i) - (if dir[k].inumber == i then 1 else 0) + (if e.inumber == i then 1 else 0)
  {
    var last := |dir| - 1;
    var after := dir[k := e];
    hide Slots;
    SlotsOf(dir, i);
    SlotsOf(after, i);
    if k == last {
      assert after[..last] == dir[..last];
    } else {
      assert after[..last] == dir[..last][k := e];
      SlotsUpdate(dir[..last], k, e, i);
    }
  }

  /** Blank free slots make clear_dir_entry stop where find_in_dir does. */
  lemma NameSlotIsFindSlot(s: State, name: CString)
    requires NamesInv(s) && name != []
    ensures NameSlot(s.dir, name) == FindSlot(s.dir, name)
  {
  }

  lemma FoundIsLive(s: State, name: CString)
    requires NamesInv(s) && FindInDir(s.dir, name) != -1
    ensures 0 < FindInDir(s.dir, name) && s.Live(FindInDir(s.dir, name))
  {
    assert SlotOk(s, s.dir[FindSlot(s.dir, name)]);
  }

  lemma UnnamedInode(s: State, i: int)
    requires NamesInv(s) && !s.Live(i) && i != -1
    ensures Slots(s.dir, i) == 0
  {
  }

  // ---- the changes, one by one ----

  lemma CreateFileNames(s: State)
    requires NamesInv(s) && FirstFree(s.inodeTaken) != -1
    ensures NamesInv(CreateFile(s).0) && Slots(s.dir, CreateFile(s).1) == 0
  {
    var (t, i) := CreateFile(s);
    UnnamedInode(s, i);
    forall k | 0 <= k < |t.dir| ensures SlotOk(t, t.dir[k]) {
      assert SlotOk(s, s.dir[k]);
    }
    forall j | j != ROOT_DIR_INUM && t.Live(j) ensures CountOk(t, j) {
      if j != i {
        assert CountOk(s, j);
      }
    }
  }

  predicate SameBut(s: State, t: State)
    requires s.Shape()
  {
    t.Shape() && t.blockSize == s.blockSize && t.blockTaken == s.blockTaken && t.data == s.data
  }

  /** Changes that leave blocks, data and every nonempty live inode's use of them alone. */
  lemma SameBlocks(s: State, t: State)
    requires Inv(s) && SameBut(s, t)
    requires forall i, b :: Owns(s, i, b) <==> Owns(t, i, b)
    requires forall i :: t.Live(i) && t.inodes[i].size > 0 ==>
             s.Live(i) && t.inodes[i].(count := 0) == s.inodes[i].(count := 0)
    requires forall i :: t.Live(i) && t.inodes[i].size == 0 ==> t.inodes[i].kind == File
    ensures BlocksInv(t) && LinksInv(t)
  {
    OwnersSame(s, t);
    forall i | t.Live(i) ensures SizeOk(t, i) {
      assert t.inodes[i].size > 0 ==> SizeOk(s, i);
    }
    forall i | t.Live(i) && IsLink(t, i) ensures LinkOk(t, i) {
      assert LinkOk(s, i);
    }
  }

  /** A live inode without bytes is a file. */
  lemma EmptyIsFile(s: State)
    requires Inv(s)
    ensures forall i :: s.Live(i) && s.inodes[i].size == 0 ==> s.inodes[i].kind == File
  {
    forall i | s.Live(i) && s.inodes[i].size == 0 ensures s.inodes[i].kind == File {
      assert SizeOk(s, i);
      assert i != ROOT_DIR_INUM ==> CountOk(s, i);
    }
  }

  lemma CreateFileInv(s: State)
    requires Inv(s) && FirstFree(s.inodeTaken) != -1
    ensures Inv(CreateFile(s).0)
  {
    CreateFileNames(s);
    EmptyIsFile(s);
    SameBlocks(s, CreateFile(s).0);
  }

  /** Changes that leave every nonempty live inode and the block bitmap alone keep the ownership. */
  lemma OwnersSame(s: State, t: State)
    requires s.Shape() && t.Shape() && s.blockTaken == t.blockTaken
    requires OwnedTaken(s) && OwnedOnce(s) && TakenOwned(s)
    requires forall i, b :: Owns(s, i, b) <==> Owns(t, i, b)
    ensures OwnedTaken(t) && OwnedOnce(t) && TakenOwned(t)
  {
    forall b | t.ValidBlock(b) && t.blockTaken[b] ensures exists i :: Owns(t, i, b) {
      var i :| Owns(s, i, b);
      assert Owns(t, i, b);
    }
  }

  /** Naming inode i once more, when it is counted for it. */
  lemma AddEntryNames(s: State, name: CString, i: int)
    requires NamesInv(s) && s.Live(i) && i != ROOT_DIR_INUM && Slots(s.dir, i) < s.inodes[i].count
    ensures NamesInv(s.(dir := AddDirEntry(s.dir, name, i)))
  {
    var t := s.(dir := AddDirEntry(s.dir, name, i));
    if CanAdd(s.dir, name) {
      var k := FreeSlot(s.dir);
      forall j | j != ROOT_DIR_INUM && t.Live(j) ensures CountOk(t, j) {
        assert CountOk(s, j);
        SlotsUpdate(s.dir, k, DirEntry(name, i), j);
      }
      forall m | 0 <= m < |t.dir| ensures SlotOk(t, t.dir[m]) {
        assert SlotOk(s, s.dir[m]);
      }
    } else {
      assert t == s;
    }
  }

  /** Nothing outside the directory depends on its slots. */
  lemma DirOnly(s: State, dir: seq<DirEntry>)
    requires Inv(s) && |dir| == |s.dir| && NamesInv(s.(dir := dir))
    ensures Inv(s.(dir := dir))
  {
    EmptyIsFile(s);
    SameBlocks(s, s.(dir := dir));
  }

  lemma AddEntryInv(s: State, name: CString, i: int)
    requires Inv(s) && s.Live(i) && i != ROOT_DIR_INUM && Slots(s.dir, i) < s.inodes[i].count
    ensures Inv(s.(dir := AddDirEntry(s.dir, name, i)))
  {
    AddEntryNames(s, name, i);
    DirOnly(s, AddDirEntry(s.dir, name, i));
  }

  lemma ClearEntryNames(s: State, name: CString)
    requires NamesInv(s)
    ensures NamesInv(s.(dir := ClearDirEntry(s.dir, name)))
    ensures name != [] && FindInDir(s.dir, name) != -1 ==>
              Slots(ClearDirEntry(s.dir, name), FindInDir(s.dir, name)) == Slots(s.dir, FindInDir(s.dir, name)) - 1
  {
    hide Slots;
    var k := NameSlot(s.dir, name);
    var t := s.(dir := ClearDirEntry(s.dir, name));
    if k != -1 {
      SlotsUpdate(s.dir, k, DirEntry([], -1), s.dir[k].inumber);
      forall j | j != ROOT_DIR_INUM && t.Live(j) ensures CountOk(t, j) {
        assert CountOk(s, j);
        SlotsUpdate(s.dir, k, DirEntry([], -1), j);
      }
      forall m | 0 <= m < |t.dir| ensures SlotOk(t, t.dir[m]) {
        assert SlotOk(s, s.dir[m]);
      }
    } else {
      assert t == s;
    }
    if name != [] && FindInDir(s.dir, name) != -1 {
      NameSlotIsFindSlot(s, name);
    }
  }

  /** Freeing an inode that no slot names. */
  lemma DeleteNames(s: State, i: int)
    requires NamesInv(s) && i != ROOT_DIR_INUM && Slots(s.dir, i) == 0 && InodeDelete(s, i).Some?
    ensures NamesInv(InodeDelete(s, i).value)
  {
    var t := InodeDelete(s, i).value;
    forall j | j != ROOT_DIR_INUM && t.Live(j) ensures CountOk(t, j) {
      assert CountOk(s, j);
    }
    forall m | 0 <= m < |t.dir| ensures SlotOk(t, t.dir[m]) {
      assert SlotOk(s, s.dir[m]);
    }
  }

  /** Inode i no longer owns the block it owned, which is free now. */
  lemma OwnersLose(s: State, t: State, i: int, b: int)
    requires s.Shape() && t.Shape() && OwnedTaken(s) && OwnedOnce(s) && TakenOwned(s) && Owns(s, i, b)
    requires t.blockTaken == s.blockTaken[b := false]
    requires forall j, d :: Owns(t, j, d) <==> Owns(s, j, d) && j != i
    ensures OwnedTaken(t) && OwnedOnce(t) && TakenOwned(t)
  {
    forall d | t.ValidBlock(d) && t.blockTaken[d] ensures exists j :: Owns(t, j, d) {
      var j :| Owns(s, j, d);
      assert Owns(t, j, d);
    }
  }

  /** Data untouched, inode i gone or emptied, every other inode as before. */
  lemma LosesBlock(s: State, t: State, i: int, b: int)
    requires Inv(s) && t.Shape() && Owns(s, i, b) && s.inodes[i].kind != Directory
    requires t.blockTaken == s.blockTaken[b := false] && t.blockSize == s.blockSize && t.data == s.data
    requires |t.inodes| == |s.inodes| && forall j :: 0 <= j < |s.inodes| && j != i ==>
             t.inodes[j] == s.inodes[j] && t.inodeTaken[j] == s.inodeTaken[j]
    requires t.Live(i) ==> t.inodes[i].kind == File && t.inodes[i].size == 0
    ensures BlocksInv(t) && LinksInv(t)
  {
    OwnersLose(s, t, i, b);
    assert forall j :: t.Live(j) && j != i ==> SizeOk(s, j);
    forall j | t.Live(j) && IsLink(t, j) ensures LinkOk(t, j) {
      assert LinkOk(s, j);
    }
  }

  /** Freeing an inode that no slot names and no handle has open. */
  lemma DeleteInv(s: State, i: int)
    requires Inv(s) && s.Live(i) && i != ROOT_DIR_INUM && Slots(s.dir, i) == 0
    requires forall h :: s.IsOpen(h) ==> s.open[h].inumber != i
    ensures InodeDelete(s, i).Some? && Inv(InodeDelete(s, i).value)
  {
    if s.inodes[i].size > 0 {
      assert Owns(s, i, s.inodes[i].block);
    }
    DeleteNames(s, i);
    var t := InodeDelete(s, i).value;
    assert CountOk(s, i);
    if s.inodes[i].size > 0 {
      LosesBlock(s, t, i, s.inodes[i].block);
    } else {
      EmptyIsFile(s);
      SameBlocks(s, t);
    }
  }

  lemma AddHandleNames(s: State, i: int, offset: nat)
    requires NamesInv(s) && s.ValidInum(i) && i != ROOT_DIR_INUM
    ensures NamesInv(AddHandle(s, i, offset).0)
  {
    var t := AddHandle(s, i, offset).0;
    forall j | j != ROOT_DIR_INUM && t.Live(j) ensures CountOk(t, j) {
      assert CountOk(s, j);
    }
    forall m | 0 <= m < |t.dir| ensures SlotOk(t, t.dir[m]) {
      assert SlotOk(s, s.dir[m]);
    }
  }

  /** Changes to the open-file table alone. */
  lemma OpenTableOnly(s: State, open: seq<OpenEntry>, openTaken: seq<bool>)
    requires Inv(s) && |open| == |openTaken| == |s.open|
    requires NamesInv(s.(open := open, openTaken := openTaken)) && HandlesInv(s.(open := open, openTaken := openTaken))
    ensures Inv(s.(open := open, openTaken := openTaken))
  {
    EmptyIsFile(s);
    SameBlocks(s, s.(open := open, openTaken := openTaken));
  }

  lemma AddHandleInv(s: State, i: int, offset: nat)
    requires Inv(s) && s.Live(i) && s.inodes[i].kind == File
    ensures Inv(AddHandle(s, i, offset).0)
  {
    AddHandleNames(s, i, offset);
    var t := AddHandle(s, i, offset).0;
    OpenTableOnly(s, t.open, t.openTaken);
  }

  /** Changing size, block or data, but no name, count or kind. */
  lemma SameNames(s: State, t: State)
    requires NamesInv(s) && t.Shape()
    requires t.dir == s.dir && t.inodeTaken == s.inodeTaken && |t.inodes| == |s.inodes|
    requires |t.blockTaken| == |s.blockTaken| && t.blockSize == s.blockSize
    requires t.inodes[ROOT_DIR_INUM] == s.inodes[ROOT_DIR_INUM]
    requires forall i :: 0 <= i < |s.inodes| ==>
               t.inodes[i].kind == s.inodes[i].kind && t.inodes[i].count >= s.inodes[i].count
    requires forall h :: t.IsOpen(h) ==> s.IsOpen(h) && t.open[h].inumber == s.open[h].inumber
    ensures NamesInv(t)
  {
    forall j | j != ROOT_DIR_INUM && t.Live(j) ensures CountOk(t, j) {
      assert CountOk(s, j);
    }
    forall m | 0 <= m < |t.dir| ensures SlotOk(t, t.dir[m]) {
      assert SlotOk(s, s.dir[m]);
    }
  }

  lemma TruncateInv(s: State, i: int)
    requires Inv(s) && s.Live(i) && s.inodes[i].kind == File
    ensures Truncate(s, i).Some? && Inv(Truncate(s, i).value)
  {
    if s.inodes[i].size > 0 {
      assert Owns(s, i, s.inodes[i].block);
      SameNames(s, Truncate(s, i).value);
      LosesBlock(s, Truncate(s, i).value, i, s.inodes[i].block);
    }
  }

  lemma BumpedInv(s: State, i: int)
    requires Inv(s) && s.Live(i) && i != ROOT_DIR_INUM
    ensures Inv(Bumped(s, i)) && Slots(s.dir, i) < Bumped(s, i).inodes[i].count
  {
    assert CountOk(s, i);
    var t := Bumped(s, i);
    SameNames(s, t);
    EmptyIsFile(s);
    SameBlocks(s, t);
  }

  lemma DroppedNames(s: State, i: int)
    requires NamesInv(s) && s.Live(i) && i != ROOT_DIR_INUM
    requires 1 < s.inodes[i].count && Slots(s.dir, i) < s.inodes[i].count
    ensures NamesInv(Dropped(s, i))
  {
    var t := Dropped(s, i);
    forall j | j != ROOT_DIR_INUM && t.Live(j) ensures CountOk(t, j) {
      assert CountOk(s, j);
    }
    forall m | 0 <= m < |t.dir| ensures SlotOk(t, t.dir[m]) {
      assert SlotOk(s, s.dir[m]);
    }
  }

  lemma DroppedInv(s: State, i: int)
    requires Inv(s) && s.Live(i) && i != ROOT_DIR_INUM
    requires 1 < s.inodes[i].count && Slots(s.dir, i) < s.inodes[i].count
    ensures Inv(Dropped(s, i))
  {
    DroppedNames(s, i);
    EmptyIsFile(s);
    SameBlocks(s, Dropped(s, i));
  }

  /** Memory agrees on the block at p. */
  ghost predicate SameBytes(mem: seq<Byte>, mem': seq<Byte>, p: nat, n: nat) {
    p + n <= |mem| == |mem'| && forall k :: p <= k < p + n ==> mem[k] == mem'[k]
  }

  /** Bytes stored in one block change no other block. */
  lemma StoreElsewhere(s: State, b: int, offset: nat, bytes: seq<Byte>, c: int)
    requires s.Shape() && s.ValidBlock(b) && s.ValidBlock(c) && b != c && offset + |bytes| <= s.blockSize
    ensures SameBytes(s.data, Store(s.data, s.Base(b) + offset, bytes), s.Base(c), s.blockSize)
  {
    if b < c { BlockFits(b, c, s.blockSize); } else { BlockFits(c, b, s.blockSize); }
  }

  lemma StringKept(mem: seq<Byte>, mem': seq<Byte>, p: nat, n: nat)
    requires SameBytes(mem, mem', p, n) && StringAt(mem, p).Some? && |StringAt(mem, p).value| < n
    ensures StringAt(mem', p) == StringAt(mem, p)
  {
    var text := StringAt(mem, p).value;
    assert mem'[p..p + |text|] == mem[p..p + |text|];
    StringAtIs(mem', p, text);
  }

  /** A text that fits in a block depends on that block only. */
  lemma TextKept(s: State, t: State, i: int)
    requires s.Shape() && t.Shape() && IsLink(s, i) && LinkOk(s, i)
    requires IsLink(t, i) && t.inodes[i].block == s.inodes[i].block
    requires |t.blockTaken| == |s.blockTaken| && t.blockSize == s.blockSize
    requires SameBytes(s.data, t.data, s.Base(s.inodes[i].block), s.blockSize)
    ensures LinkOk(t, i) && LinkText(t, i) == LinkText(s, i)
  {
    StringKept(s.data, t.data, s.Base(s.inodes[i].block), s.blockSize);
  }

  /** Storing into block b keeps the text of every link that owns another block. */
  lemma LinksKept(s: State, t: State, b: int, offset: nat, bytes: seq<Byte>, i: int)
    requires s.Shape() && t.Shape() && s.ValidBlock(b) && offset + |bytes| <= s.blockSize
    requires t.blockSize == s.blockSize && |t.blockTaken| == |s.blockTaken|
    requires t.data == Store(s.data, s.Base(b) + offset, bytes)
    requires IsLink(s, i) && LinkOk(s, i) && s.inodes[i].block != b && IsLink(t, i) && t.inodes[i] == s.inodes[i]
    ensures LinkOk(t, i) && LinkText(t, i) == LinkText(s, i)
  {
    StoreElsewhere(s, b, offset, bytes, s.inodes[i].block);
    TextKept(s, t, i);
  }

  /** Inode i owns block b afterwards, and either it did before or b was free. */
  lemma OwnersGain(s: State, t: State, i: int, b: int)
    requires s.Shape() && t.Shape() && OwnedTaken(s) && OwnedOnce(s) && TakenOwned(s)
    requires s.ValidBlock(b) && t.blockTaken == s.blockTaken[b := true]
    requires Owns(s, i, b) || (!s.blockTaken[b] && forall d :: !Owns(s, i, d))
    requires forall j, d :: Owns(t, j, d) <==> Owns(s, j, d) || (j == i && d == b)
    ensures OwnedTaken(t) && OwnedOnce(t) && TakenOwned(t)
  {
    forall d | t.ValidBlock(d) && t.blockTaken[d] ensures exists j :: Owns(t, j, d) {
      if d == b {
        assert Owns(t, i, b);
      } else {
        var j :| Owns(s, j, d);
        assert Owns(t, j, d);
      }
    }
  }

  lemma CreateLinkNames(s: State)
    requires NamesInv(s)
    ensures NamesInv(CreateLink(s).0)
    ensures CreateLink(s).1 != -1 ==> Slots(s.dir, CreateLink(s).1) == 0 && !s.Live(CreateLink(s).1)
  {
    var (t, i) := CreateLink(s);
    if FirstFree(s.inodeTaken) != -1 {
      UnnamedInode(s, FirstFree(s.inodeTaken));
    }
    forall j | j != ROOT_DIR_INUM && t.Live(j) ensures CountOk(t, j) {
      if s.Live(j) {
        assert CountOk(s, j);
      }
    }
    forall m | 0 <= m < |t.dir| ensures SlotOk(t, t.dir[m]) {
      assert SlotOk(s, s.dir[m]);
    }
  }

  lemma CreateLinkFailsInv(s: State)
    requires Inv(s) && CreateLink(s).1 == -1
    ensures Inv(CreateLink(s).0)
  {
    CreateLinkNames(s);
    EmptyIsFile(s);
    SameBlocks(s, CreateLink(s).0);
  }

  /** Bytes stored into block b of inode i, which owns it from now on; nothing else changes. */
  lemma GainsBlock(s: State, t: State, i: int, b: int, offset: nat, bytes: seq<Byte>)
    requires Inv(s) && t.Shape() && t.Live(i) && t.inodes[i].size > 0 && t.inodes[i].block == b && SizeOk(t, i)
    requires s.ValidBlock(b) && (Owns(s, i, b) || (!s.blockTaken[b] && forall d :: !Owns(s, i, d)))
    requires t.blockTaken == s.blockTaken[b := true] && t.blockSize == s.blockSize
    requires offset + |bytes| <= s.blockSize && t.data == Store(s.data, s.Base(b) + offset, bytes)
    requires |t.inodes| == |s.inodes| && forall j :: 0 <= j < |s.inodes| && j != i ==>
             t.inodes[j] == s.inodes[j] && t.inodeTaken[j] == s.inodeTaken[j]
    ensures BlocksInv(t)
    ensures forall j :: t.Live(j) && j != i && IsLink(t, j) ==> LinkOk(t, j)
  {
    OwnersGain(s, t, i, b);
    assert forall j :: t.Live(j) && j != i ==> SizeOk(s, j);
    forall j | t.Live(j) && j != i && IsLink(t, j) ensures LinkOk(t, j) {
      assert LinkOk(s, j) && SizeOk(s, j) && Owns(s, j, s.inodes[j].block);
      LinksKept(s, t, b, offset, bytes, j);
    }
  }

  lemma StoredText(mem: seq<Byte>, p: nat, text: CString)
    requires p + |text| < |mem|
    ensures StringAt(Store(mem, p, text + [NUL]), p) == Some(text)
  {
    var mem' := Store(mem, p, text + [NUL]);
    assert mem'[p..p + |text|] == text;
    StringAtIs(mem', p, text);
  }

  lemma StoreLinkNames(s: State, target: CString)
    requires Inv(s) && CreateLink(s).1 != -1 && ValidPath(target) && |target| < s.blockSize
    ensures NamesInv(StoreLink(s, target)) && HandlesInv(StoreLink(s, target))
  {
    hide BlocksInv, LinksInv, Store;
    CreateLinkNames(s);
    SameNames(CreateLink(s).0, StoreLink(s, target));
  }

  lemma StoreLinkStores(s: State, target: CString)
    requires Inv(s) && CreateLink(s).1 != -1 && ValidPath(target) && |target| < s.blockSize
    ensures var t := StoreLink(s, target); var i := CreateLink(s).1;
            IsLink(t, i) && LinkText(t, i) == Some(target) && LinkOk(t, i)
  {
    hide Inv, Store, StringAt;
    InvMounted(s);
    var (c, i) := CreateLink(s);
    StoredText(s.data, s.Base(c.inodes[i].block), target);
  }

  lemma StoreLinkBlocks(s: State, target: CString)
    requires Inv(s) && CreateLink(s).1 != -1 && ValidPath(target) && |target| < s.blockSize
    ensures var t := StoreLink(s, target);
            && BlocksInv(t)
            && forall j :: t.Live(j) && j != CreateLink(s).1 && IsLink(t, j) ==> LinkOk(t, j)
  {
    hide BlocksInv, LinksInv, Store, LinkOk;
    var (c, i) := CreateLink(s);
    GainsBlock(s, StoreLink(s, target), i, c.inodes[i].block, 0, target + [NUL]);
  }

  lemma StoreLinkInv(s: State, target: CString)
    requires Inv(s) && CreateLink(s).1 != -1 && ValidPath(target) && |target| < s.blockSize
    ensures Inv(StoreLink(s, target))
    ensures var t := StoreLink(s, target); var i := CreateLink(s).1;
            IsLink(t, i) && LinkText(t, i) == Some(target)
  {
    hide NamesInv, BlocksInv, HandlesInv, LinkOk, LinkText, StoreLink;
    InvMounted(s);
    StoreLinkNames(s, target);
    StoreLinkBlocks(s, target);
    StoreLinkStores(s, target);
  }

  lemma WriteBlockInv(s: State, h: int, buffer: seq<Byte>, n: nat)
    requires Inv(s) && s.IsOpen(h) && 0 < n <= |buffer| && s.open[h].offset + n <= s.blockSize
    ensures WriteBlock(s, h, buffer, n).Done? && Inv(WriteBlock(s, h, buffer, n).state)
  {
    var e := s.open[h];
    var i := e.inumber;
    var inode := s.inodes[i];
    assert SizeOk(s, i);
    if inode.size > 0 {
      assert Owns(s, i, inode.block);
    } else if FirstFree(s.blockTaken) == -1 {
      return;
    }
    var t := WriteBlock(s, h, buffer, n).state;
    SameNames(s, t);
    GainsBlock(s, t, i, t.inodes[i].block, e.offset, buffer[..n]);
  }
}
