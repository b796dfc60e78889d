/** fs/operations.c as functions from one snapshot of the tables to the next. */
module FsOperations {
  import opened CTypes
  import opened FsState

  datatype Params = Params(inodes: nat, blocks: nat, openFiles: nat, blockSize: nat)

  datatype Mode = Mode(create: bool, truncate: bool, append: bool)

  /**
   * How a call ends: it returns ret (and, for a read, fills the buffer with bytes); it aborts or
   * leaves the memory it may touch; or it never returns.
   */
  datatype Outcome =
    | Done(state: State, ret: int, bytes: seq<Byte>)
    | Crash
    | Diverges

  datatype Call =
    | Open(path: CString, mode: Mode)
    | SymLink(target: CString, linkName: CString)
    | Link(target: CString, linkName: CString)
    | Close(handle: int)
    | Write(handle: int, buffer: seq<Byte>)
    | Read(handle: int, len: nat)
    | Unlink(target: CString)

  predicate ValidPath(path: CString) { |path| > 1 && path[0] == SLASH }

  /** tfs_lookup */
  function Lookup(s: State, path: CString): int {
    if ValidPath(path) then FindInDir(s.dir, path[1..]) else -1
  }

  /** What state_init leaves for memory contents `memory` of fs_data; every directory slot starts blank. */
  function Blank(p: Params, memory: seq<Byte>): (s: State)
    requires 0 < p.blockSize && |memory| == p.blocks * p.blockSize + 1 <= SIZE_T_RANGE
    ensures s.Shape()
  {
    State(p.blockSize,
          seq(p.inodes, _ => Inode(File, 0, -1, 0)), seq(p.inodes, _ => false),
          seq(p.blocks, _ => false), memory,
          seq(p.blockSize / DIR_ENTRY_SIZE, _ => DirEntry([], -1)),
          seq(p.openFiles, _ => OpenEntry(-1, 0)), seq(p.openFiles, _ => false))
  }

  /** tfs_init: the root directory takes inode 0 and block 0; None when either table is empty. */
  function Init(p: Params, memory: seq<Byte>): (r: Option<State>)
    requires 0 < p.blockSize && |memory| == p.blocks * p.blockSize + 1 <= SIZE_T_RANGE
  {
    if p.inodes == 0 || p.blocks == 0 then None
    else
      var s := Blank(p, memory);
      Some(s.(inodeTaken := s.inodeTaken[0 := true], blockTaken := s.blockTaken[0 := true],
              inodes := s.inodes[0 := Inode(Directory, p.blockSize, 0, 0)]))
  }

  /** The TFS_O_TRUNC branch; None when data_block_free asserts. */
  function Truncate(s: State, i: int): (r: Option<State>)
    requires s.Shape() && s.ValidInum(i)
    ensures r.Some? ==> r.value.Shape() && s.SameSizes(r.value)
  {
    if s.inodes[i].size == 0 then Some(s)
    else if !s.ValidBlock(s.inodes[i].block) then None
    else Some(s.(blockTaken := s.blockTaken[s.inodes[i].block := false],
                 inodes := s.inodes[i := s.inodes[i].(size := 0)]))
  }

  /** tfs_open on a file or link that exists as inode i. */
  function OpenInode(s: State, i: int, mode: Mode): (r: Outcome)
    requires s.Shape()
    ensures r.Done? ==> r.state.Shape() && s.SameSizes(r.state)
  {
    match Resolve(s, i)
    case Broken => Crash
    case OutOfFuel => Diverges
    case Ends(j) =>
      if j == -1 then Done(s, -1, [])
      else if !s.ValidInum(j) then Crash
      else
        var t := if mode.truncate then Truncate(s, j) else Some(s);
        if t.None? then Crash
        else
          var r := AddHandle(t.value, j, if mode.append then t.value.inodes[j].size else 0);
          Done(r.0, r.1, [])
  }

  /** tfs_open with TFS_O_CREAT on a name that is not bound. */
  function OpenNew(s: State, name: CString): (r: Outcome)
    requires s.Shape()
    ensures r.Done? ==> r.state.Shape() && s.SameSizes(r.state)
  {
    var c := CreateFile(s);
    if c.1 == -1 then Done(s, -1, [])
    else if !CanAdd(s.dir, name) then
      var d := InodeDelete(c.0, c.1);
      if d.None? then Crash else Done(d.value, -1, [])
    else
      var r := AddHandle(c.0.(dir := AddDirEntry(s.dir, name, c.1)), c.1, 0);
      Done(r.0, r.1, [])
  }

  function TfsOpen(s: State, path: CString, mode: Mode): (r: Outcome)
    requires s.Mounted()
    ensures r.Done? ==> r.state.Shape() && s.SameSizes(r.state)
  {
    if !ValidPath(path) then Done(s, -1, [])
    else
      var i := Lookup(s, path);
      if i >= 0 then OpenInode(s, i, mode)
      else if mode.create then OpenNew(s, path[1..])
      else Done(s, -1, [])
  }

  /** inode_create(T_SOFT_LINK) followed by strcpy of the target into the new block. */
  function StoreLink(s: State, target: CString): (t: State)
    requires s.Shape() && CreateLink(s).1 != -1
    requires var c := CreateLink(s); c.0.Base(c.0.inodes[c.1].block) + |target| < |s.data|
    ensures t.Shape() && s.SameSizes(t)
  {
    var c := CreateLink(s);
    c.0.(data := Store(s.data, c.0.Base(c.0.inodes[c.1].block), target + [NUL]))
  }

  function TfsSymLink(s: State, target: CString, linkName: CString): (r: Outcome)
    requires s.Mounted()
    ensures r.Done? ==> r.state.Shape() && s.SameSizes(r.state)
  {
    if Lookup(s, target) == -1 then Done(s, -1, [])
    else
      var c := CreateLink(s);
      if c.1 == -1 then Done(c.0, -1, [])
      else
        var base := c.0.Base(c.0.inodes[c.1].block);
        if base + |target| >= |s.data| || |linkName| == 0 then Crash
        else
          Done(StoreLink(s, target).(dir := AddDirEntry(s.dir, linkName[1..], c.1)), 0, [])
  }

  /** The linked inode is counted once more before its new slot is filled. */
  function Bumped(s: State, i: int): (t: State)
    requires s.Shape() && s.ValidInum(i)
    ensures t.Shape() && s.SameSizes(t)
  {
    s.(inodes := s.inodes[i := s.inodes[i].(count := s.inodes[i].count + 1)])
  }

  function TfsLink(s: State, target: CString, linkName: CString): (r: Outcome)
    requires s.Mounted()
    ensures r.Done? ==> r.state.Shape() && s.SameSizes(r.state)
  {
    var i := Lookup(s, target);
    if i == -1 then Done(s, -1, [])
    else if !s.ValidInum(i) then Crash
    else if IsLink(s, i) then Done(s, -1, [])
    else if |linkName| == 0 then Crash
    else
      Done(Bumped(s, i).(dir := AddDirEntry(s.dir, linkName[1..], i)), 0, [])
  }

  function TfsClose(s: State, h: int): (r: Outcome)
    requires s.Mounted()
    ensures r.Done? && r.state.Shape() && s.SameSizes(r.state)
  {
    if !s.IsOpen(h) then Done(s, -1, [])
    else Done(s.(openTaken := s.openTaken[h := false]), 0, [])
  }

  /** How many bytes tfs_write decides to write. */
  function WriteLength(s: State, offset: nat, len: nat): nat {
    if len + offset > s.blockSize then WrapSub(s.blockSize, offset) else len
  }

  function TfsWrite(s: State, h: int, buffer: seq<Byte>): (r: Outcome)
    requires s.Mounted()
    ensures r.Done? ==> r.state.Shape() && s.SameSizes(r.state)
  {
    if !s.IsOpen(h) then Done(s, -1, [])
    else
      var e := s.open[h];
      if !s.ValidInum(e.inumber) then Crash
      else
        var n := WriteLength(s, e.offset, |buffer|);
        if n == 0 then Done(s, 0, []) else WriteBlock(s, h, buffer, n)
  }

  /** The part of tfs_write that runs when there is something to write. */
  function WriteBlock(s: State, h: int, buffer: seq<Byte>, n: nat): (r: Outcome)
    requires s.Shape() && s.IsOpen(h) && s.ValidInum(s.open[h].inumber)
    ensures r.Done? ==> r.state.Shape() && s.SameSizes(r.state)
  {
    var e := s.open[h];
    var inode := s.inodes[e.inumber];
    var b := if inode.size == 0 then FirstFree(s.blockTaken) else inode.block;
    if inode.size == 0 && b == -1 then Done(s, -1, [])
    else if !s.ValidBlock(b) || n > |buffer| || s.Base(b) + e.offset + n >= |s.data| then Crash
    else
      var end := e.offset + n;
      Done(s.(blockTaken := if inode.size == 0 then s.blockTaken[b := true] else s.blockTaken,
              data := Store(s.data, s.Base(b) + e.offset, buffer[..n]),
              inodes := s.inodes[e.inumber := inode.(block := b, size := if end > inode.size then end else inode.size)],
              open := s.open[h := e.(offset := end)]), n, [])
  }

  /** How many bytes tfs_read asks for before it looks at the data. */
  function ReadLength(size: nat, offset: nat, len: nat): nat {
    var left := WrapSub(size, offset);
    if left > len then len else left
  }

  /** What tfs_read hands over and where it leaves the cursor. */
  datatype Chunk = Chunk(bytes: seq<Byte>, offset: nat)

  /** tfs_read on the block at `base`, after its length n > 0 is fixed; None when it leaves the memory. */
  function ReadChunk(mem: seq<Byte>, base: nat, offset: nat, n: nat): Option<Chunk>
  {
    if base + offset >= |mem| then None
    else
      var p := if mem[base + offset] == NUL then offset + 1 else offset;
      var z := NulFrom(mem, base + p);
      if z < base + p + n && z < |mem| then Some(Chunk(mem[base + p..z], z - base))
      else if base + p + n <= |mem| then Some(Chunk(mem[base + p..base + p + n], p + n))
      else None
  }

  function TfsRead(s: State, h: int, len: nat): (r: Outcome)
    requires s.Mounted()
    ensures r.Done? ==> r.state.Shape() && s.SameSizes(r.state)
  {
    if !s.IsOpen(h) then Done(s, -1, [])
    else
      var e := s.open[h];
      if !s.ValidInum(e.inumber) then Crash
      else
        var inode := s.inodes[e.inumber];
        var n := ReadLength(inode.size, e.offset, len);
        if n == 0 then Done(s, 0, [])
        else if !s.ValidBlock(inode.block) then Crash
        else
          match ReadChunk(s.data, s.Base(inode.block), e.offset, n)
          case None => Crash
          case Some(c) => Done(s.(open := s.open[h := e.(offset := c.offset)]), |c.bytes|, c.bytes)
  }

  function Dropped(s: State, i: int): (t: State)
    requires s.Shape() && s.ValidInum(i)
    ensures t.Shape() && s.SameSizes(t)
  {
    s.(inodes := s.inodes[i := s.inodes[i].(count := s.inodes[i].count - 1)])
  }

  function TfsUnlink(s: State, target: CString): (r: Outcome)
    requires s.Mounted()
    ensures r.Done? ==> r.state.Shape() && s.SameSizes(r.state)
  {
    var i := Lookup(s, target);
    if i == -1 then Done(s, -1, [])
    else if !s.ValidInum(i) then Crash
    else
      var t := s.(dir := ClearDirEntry(s.dir, target[1..]));
      if s.inodes[i].count > 1 then Done(Dropped(t, i), 0, [])
      else
        var d := InodeDelete(t, i);
        if d.None? then Crash else Done(d.value, 0, [])
  }

  function Step(s: State, c: Call): (r: Outcome)
    requires s.Mounted()
    ensures r.Done? ==> r.state.Shape() && s.SameSizes(r.state)
  {
    match c
    case Open(path, mode) => TfsOpen(s, path, mode)
    case SymLink(target, linkName) => TfsSymLink(s, target, linkName)
    case Link(target, linkName) => TfsLink(s, target, linkName)
    case Close(h) => TfsClose(s, h)
    case Write(h, buffer) => TfsWrite(s, h, buffer)
    case Read(h, len) => TfsRead(s, h, len)
    case Unlink(target) => TfsUnlink(s, target)
  }
}
