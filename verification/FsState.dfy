/** The tables of TecnicoFS and the operations of fs/state.c on them. */
module FsState {
  import opened CTypes

  /** fs/config.h:4-6 and sizeof(dir_entry_t), fs/state.h:15-18 */
  const ROOT_DIR_INUM := 0
  const MAX_FILE_NAME := 40
  const DIR_ENTRY_SIZE := 44

  datatype InodeType = File | Directory | SoftLink

  datatype Inode = Inode(kind: InodeType, size: nat, block: int, count: int)

  /** A slot of the root directory; inumber -1 marks it free. */
  datatype DirEntry = DirEntry(name: CString, inumber: int)

  datatype OpenEntry = OpenEntry(inumber: int, offset: nat)

  /**
   * A snapshot of all tables. data is fs_data followed by one cell that stands for the byte of
   * memory behind it; the slots of the root directory's block are kept apart as dir.
   */
  datatype State = State(
    blockSize: nat,
    inodes: seq<Inode>, inodeTaken: seq<bool>,
    blockTaken: seq<bool>, data: seq<Byte>,
    dir: seq<DirEntry>,
    open: seq<OpenEntry>, openTaken: seq<bool>)
  {
    predicate Shape() {
      && 0 < blockSize
      && |inodeTaken| == |inodes|
      && |data| == |blockTaken| * blockSize + 1 <= SIZE_T_RANGE
      && |dir| == blockSize / DIR_ENTRY_SIZE
      && |openTaken| == |open|
    }

    predicate ValidInum(i: int) { 0 <= i < |inodes| }

    predicate ValidBlock(b: int) { 0 <= b < |blockTaken| }

    predicate Live(i: int)
      requires Shape()
    {
      ValidInum(i) && inodeTaken[i]
    }

    /** get_open_file_entry(h) != NULL */
    predicate IsOpen(h: int)
      requires Shape()
    {
      0 <= h < |open| && openTaken[h]
    }

    /** tfs_init has succeeded: inode 0 is the root directory and owns a block. */
    predicate Mounted() {
      && Shape()
      && Live(ROOT_DIR_INUM)
      && inodes[ROOT_DIR_INUM].kind == Directory
      && inodes[ROOT_DIR_INUM].size == blockSize
      && ValidBlock(inodes[ROOT_DIR_INUM].block)
    }

    predicate SameSizes(t: State) {
      && t.blockSize == blockSize && |t.inodes| == |inodes| && |t.blockTaken| == |blockTaken|
      && |t.dir| == |dir| && |t.open| == |open|
    }

    /** Where data_block_get(b) points. */
    function Base(b: int): (p: nat)
      requires Shape() && ValidBlock(b)
      ensures p + blockSize < |data|
    {
      BlockFits(b, |blockTaken|, blockSize);
      b * blockSize
    }
  }

  /** Blocks b < c of one size do not overlap. */
  lemma {:induction false} BlockFits(b: nat, c: nat, size: nat)
    requires b < c
    ensures 0 <= b * size && b * size + size <= c * size
    decreases c
  {
    if b + 1 < c {
      BlockFits(b, c - 1, size);
    }
    assert c * size == (c - 1) * size + size;
  }

  function FirstFree(taken: seq<bool>): (r: int)
    ensures -1 <= r < |taken|
    ensures 0 <= r ==> !taken[r] && forall k :: 0 <= k < r ==> taken[k]
    ensures r == -1 ==> forall k :: 0 <= k < |taken| ==> taken[k]
  {
    FirstIndex(taken, (t: bool) => !t)
  }

  // ---- the directory ----

  /** The slot find_in_dir stops at. */
  function FindSlot(dir: seq<DirEntry>, name: CString): (k: int)
    ensures -1 <= k < |dir|
    ensures 0 <= k ==> dir[k].inumber != -1 && dir[k].name == name
    ensures forall j :: 0 <= j < (if k == -1 then |dir| else k) ==> !(dir[j].inumber != -1 && dir[j].name == name)
  {
    FirstIndex(dir, (e: DirEntry) => e.inumber != -1 && e.name == name)
  }

  function FindInDir(dir: seq<DirEntry>, name: CString): (i: int) {
    var k := FindSlot(dir, name);
    if k == -1 then -1 else dir[k].inumber
  }

  /** The slot clear_dir_entry stops at: it looks at names only. */
  function NameSlot(dir: seq<DirEntry>, name: CString): (k: int)
    ensures -1 <= k < |dir|
    ensures 0 <= k ==> dir[k].name == name
    ensures forall j :: 0 <= j < (if k == -1 then |dir| else k) ==> dir[j].name != name
  {
    FirstIndex(dir, (e: DirEntry) => e.name == name)
  }

  /** The slot add_dir_entry fills. */
  function FreeSlot(dir: seq<DirEntry>): (k: int)
    ensures -1 <= k < |dir|
    ensures 0 <= k ==> dir[k].inumber == -1
    ensures forall j :: 0 <= j < (if k == -1 then |dir| else k) ==> dir[j].inumber != -1
  {
    FirstIndex(dir, (e: DirEntry) => e.inumber == -1)
  }

  predicate ValidEntryName(name: CString) { 0 < |name| < MAX_FILE_NAME }

  predicate CanAdd(dir: seq<DirEntry>, name: CString) {
    ValidEntryName(name) && FreeSlot(dir) != -1
  }

  /** add_dir_entry; the directory is unchanged when it returns -1. */
  function AddDirEntry(dir: seq<DirEntry>, name: CString, inumber: int): (r: seq<DirEntry>)
    ensures |r| == |dir|
  {
    if CanAdd(dir, name) then dir[FreeSlot(dir) := DirEntry(name, inumber)] else dir
  }

  /** clear_dir_entry */
  function ClearDirEntry(dir: seq<DirEntry>, name: CString): (r: seq<DirEntry>)
    ensures |r| == |dir|
  {
    var k := NameSlot(dir, name);
    if k == -1 then dir else dir[k := DirEntry([], -1)]
  }

  // ---- inodes, blocks and open files ----

  /** inode_create(T_FILE) and the inumber it returns. */
  function CreateFile(s: State): (r: (State, int))
    requires s.Shape()
    ensures r.0.Shape() && s.SameSizes(r.0) && r.1 == FirstFree(s.inodeTaken)
  {
    var i := FirstFree(s.inodeTaken);
    if i == -1 then (s, -1)
    else (s.(inodeTaken := s.inodeTaken[i := true], inodes := s.inodes[i := Inode(File, 0, -1, 1)]), i)
  }

  /** inode_create(T_SOFT_LINK) and the inumber it returns; without a free block the inode is given back. */
  function CreateLink(s: State): (r: (State, int))
    requires s.Shape()
    ensures r.0.Shape() && s.SameSizes(r.0)
    ensures r.1 != -1 ==> r.0.ValidInum(r.1) && r.0.ValidBlock(r.0.inodes[r.1].block)
  {
    var i := FirstFree(s.inodeTaken);
    var b := FirstFree(s.blockTaken);
    if i == -1 then (s, -1)
    else if b == -1 then (s.(inodes := s.inodes[i := s.inodes[i].(kind := SoftLink, size := 0, block := -1)]), -1)
    else
      (s.(inodeTaken := s.inodeTaken[i := true], blockTaken := s.blockTaken[b := true],
          inodes := s.inodes[i := Inode(SoftLink, MAX_FILE_NAME, b, 1)]), i)
  }

  /** inode_delete; None when one of its assertions fails. */
  function InodeDelete(s: State, i: int): (r: Option<State>)
    requires s.Shape()
    ensures r.Some? ==> r.value.Shape() && s.SameSizes(r.value)
  {
    if !s.Live(i) then None
    else if s.inodes[i].size == 0 then Some(s.(inodeTaken := s.inodeTaken[i := false]))
    else if !s.ValidBlock(s.inodes[i].block) then None
    else Some(s.(blockTaken := s.blockTaken[s.inodes[i].block := false], inodeTaken := s.inodeTaken[i := false]))
  }

  /** add_to_open_file_table and the handle it returns. */
  function AddHandle(s: State, inumber: int, offset: nat): (r: (State, int))
    requires s.Shape()
    ensures r.0.Shape() && s.SameSizes(r.0) && r.1 == FirstFree(s.openTaken)
  {
    var h := FirstFree(s.openTaken);
    if h == -1 then (s, -1)
    else (s.(openTaken := s.openTaken[h := true], open := s.open[h := OpenEntry(inumber, offset)]), h)
  }

  // ---- get_path_recursive ----

  datatype Resolution = Ends(inumber: int) | OutOfFuel | Broken

  predicate IsLink(s: State, i: int) { s.ValidInum(i) && s.inodes[i].kind == SoftLink }

  /** The path stored in a link's block. */
  function LinkText(s: State, i: int): Option<CString>
    requires s.Shape() && IsLink(s, i)
  {
    if s.ValidBlock(s.inodes[i].block) then StringAt(s.data, s.Base(s.inodes[i].block)) else None
  }

  /** The name after the path's first byte, which get_path_recursive skips unread. */
  function LinkName(s: State, i: int): Option<CString>
    requires s.Shape() && IsLink(s, i)
  {
    if s.ValidBlock(s.inodes[i].block) then StringAt(s.data, s.Base(s.inodes[i].block) + 1) else None
  }

  /**
   * get_path_recursive, making at most fuel hops. Broken: an inode or block number is out of range,
   * or a link's text has no terminator.
   */
  function Follow(s: State, i: int, fuel: nat): Resolution
    requires s.Shape()
    decreases fuel
  {
    if i == -1 then Ends(-1)
    else if !s.ValidInum(i) then Broken
    else if !IsLink(s, i) then Ends(i)
    else if LinkName(s, i).None? then Broken
    else if fuel == 0 then OutOfFuel
    else Follow(s, FindInDir(s.dir, LinkName(s, i).value), fuel - 1)
  }

  /** What get_path_recursive(i) returns; OutOfFuel stands for a call that never returns. */
  function Resolve(s: State, i: int): Resolution
    requires s.Shape()
  {
    Follow(s, i, |s.inodes|)
  }
}
