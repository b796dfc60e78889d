/** TecnicoFS as it runs: static tables scanned by loops and changed in place. */
module FileSystems {
  import opened CTypes
  import opened FsState
  import opened FsOperations

  class FileSystem {
    const blockSize: nat
    const inodeTable: array<Inode>
    const freeInodes: array<bool>   // true: TAKEN
    const freeBlocks: array<bool>
    const fsData: array<Byte>       // the blocks, and the byte of memory behind them
    const rootBlock: array<DirEntry>
    const openFiles: array<OpenEntry>
    const freeOpenFiles: array<bool>

    /** The tables as one value. */
    ghost function Snap(): State
      reads inodeTable, freeInodes, freeBlocks, fsData, rootBlock, openFiles, freeOpenFiles
    {
      State(blockSize, inodeTable[..], freeInodes[..], freeBlocks[..], fsData[..], rootBlock[..], openFiles[..],
        freeOpenFiles[..])
    }

    ghost predicate Valid()
      reads inodeTable, freeInodes, freeBlocks, fsData, rootBlock, openFiles, freeOpenFiles
    {
      Snap().Shape() && freeInodes != freeBlocks && freeBlocks != freeOpenFiles && freeOpenFiles != freeInodes
    }

    /** tfs_init has been called and returned 0. */
    ghost predicate Mounted()
      reads inodeTable, freeInodes, freeBlocks, fsData, rootBlock, openFiles, freeOpenFiles
    {
      Valid() && Snap().Mounted()
    }

    /** state_init */
    constructor (p: Params, memory: seq<Byte>)
      requires 0 < p.blockSize && |memory| == p.blocks * p.blockSize + 1 <= SIZE_T_RANGE
      ensures Valid() && Snap() == Blank(p, memory)
      ensures inodeTable.Length == freeInodes.Length == p.inodes && freeBlocks.Length == p.blocks
      ensures openFiles.Length == freeOpenFiles.Length == p.openFiles && rootBlock.Length == p.blockSize / 44
      ensures blockSize == p.blockSize && fsData[..] == memory
      ensures fresh(inodeTable) && fresh(freeInodes) && fresh(freeBlocks) && fresh(fsData)
      ensures fresh(rootBlock) && fresh(openFiles) && fresh(freeOpenFiles)
    {
      blockSize := p.blockSize;
      inodeTable := new Inode[p.inodes](_ => Inode(File, 0, -1, 0));
      freeInodes := new bool[p.inodes](_ => false);
      freeBlocks := new bool[p.blocks](_ => false);
      fsData := new Byte[|memory|](k requires 0 <= k < |memory| => memory[k]);
      rootBlock := new DirEntry[p.blockSize / DIR_ENTRY_SIZE](_ => DirEntry([], -1));
      openFiles := new OpenEntry[p.openFiles](_ => OpenEntry(-1, 0));
      freeOpenFiles := new bool[p.openFiles](_ => false);
      new;
      assert fsData[..] == memory;
    }

    /** The scan of inode_alloc, data_block_alloc and add_to_open_file_table: take the first free entry. */
    static method TakeFirst(table: array<bool>) returns (r: int)
      modifies table
      ensures r == FirstFree(old(table[..]))
      ensures table[..] == if r == -1 then old(table[..]) else old(table[..])[r := true]
    {
      for i := 0 to table.Length
        invariant table[..] == old(table[..])
        invariant forall k :: 0 <= k < i ==> table[k]
      {
        if !table[i] {
          table[i] := true;
          return i;
        }
      }
      return -1;
    }

    /** tfs_init: inode_create(T_DIRECTORY) on fresh tables. */
    method TfsInit(ghost p: Params, ghost memory: seq<Byte>) returns (ret: int)
      requires 0 < p.blockSize && |memory| == p.blocks * p.blockSize + 1 <= SIZE_T_RANGE
      requires Valid() && Snap() == Blank(p, memory)
      modifies inodeTable, freeInodes, freeBlocks, rootBlock
      ensures Valid()
      ensures Init(p, memory).Some? <==> ret == 0
      ensures ret == 0 ==> Snap() == Init(p, memory).value
    {
      var i := TakeFirst(freeInodes);
      if i == -1 {
        return -1;
      }
      inodeTable[i] := inodeTable[i].(kind := Directory);
      var b := TakeFirst(freeBlocks);
      if b == -1 {
        inodeTable[i] := inodeTable[i].(size := 0, block := -1);
        freeInodes[i] := false;
        return -1;
      }
      inodeTable[i] := inodeTable[i].(size := blockSize, block := b);
      for k := 0 to rootBlock.Length
        invariant Valid() && rootBlock[..] == old(rootBlock[..])
        invariant Snap() == Init(p, memory).value
      {
        rootBlock[k] := rootBlock[k].(inumber := -1);
      }
      return 0;
    }

    /** find_in_dir */
    method FindInDir(name: CString) returns (i: int)
      requires Valid()
      ensures i == FsState.FindInDir(rootBlock[..], name)
    {
      for k := 0 to rootBlock.Length
        invariant forall j :: 0 <= j < k ==> !(rootBlock[j].inumber != -1 && rootBlock[j].name == name)
      {
        if rootBlock[k].inumber != -1 && rootBlock[k].name == name {
          return rootBlock[k].inumber;
        }
      }
      return -1;
    }

    /** clear_dir_entry */
    method ClearDirEntry(name: CString)
      requires Valid()
      modifies rootBlock
      ensures rootBlock[..] == FsState.ClearDirEntry(old(rootBlock[..]), name)
    {
      for k := 0 to rootBlock.Length
        invariant rootBlock[..] == old(rootBlock[..])
        invariant forall j :: 0 <= j < k ==> rootBlock[j].name != name
      {
        if rootBlock[k].name == name {
          rootBlock[k] := DirEntry([], -1);
          return;
        }
      }
    }

    /** add_dir_entry */
    method AddDirEntry(name: CString, inumber: int) returns (ret: int)
      requires Valid()
      modifies rootBlock
      ensures rootBlock[..] == FsState.AddDirEntry(old(rootBlock[..]), name, inumber)
      ensures ret == if CanAdd(old(rootBlock[..]), name) then 0 else -1
    {
      if |name| == 0 || |name| > MAX_FILE_NAME - 1 {
        return -1;
      }
      for k := 0 to rootBlock.Length
        invariant rootBlock[..] == old(rootBlock[..])
        invariant forall j :: 0 <= j < k ==> rootBlock[j].inumber != -1
      {
        if rootBlock[k].inumber == -1 {
          rootBlock[k] := DirEntry(name, inumber);
          return 0;
        }
      }
      return -1;
    }

    /** tfs_lookup */
    method Lookup(path: CString) returns (i: int)
      requires Valid()
      ensures i == FsOperations.Lookup(Snap(), path)
    {
      if !ValidPath(path) {
        return -1;
      }
      i := FindInDir(path[1..]);
    }

    /** inode_create(T_FILE) */
    method CreateFile() returns (i: int)
      requires Valid()
      modifies inodeTable, freeInodes
      ensures Valid() && (Snap(), i) == FsState.CreateFile(old(Snap()))
    {
      i := TakeFirst(freeInodes);
      if i != -1 {
        inodeTable[i] := Inode(File, 0, -1, 1);
      }
    }

    /** inode_create(T_SOFT_LINK) */
    method CreateLink() returns (i: int)
      requires Valid()
      modifies inodeTable, freeInodes, freeBlocks
      ensures Valid() && (Snap(), i) == FsState.CreateLink(old(Snap()))
    {
      hide FirstFree;
      i := TakeFirst(freeInodes);
      if i == -1 {
        return;
      }
      inodeTable[i] := inodeTable[i].(kind := SoftLink);
      var b := TakeFirst(freeBlocks);
      if b == -1 {
        inodeTable[i] := inodeTable[i].(size := 0, block := -1);
        InodeDelete(i);
        assert freeInodes[..] == old(freeInodes[..]);
        assert inodeTable[..]
               == old(inodeTable[..])[i := old(inodeTable[i]).(kind := SoftLink, size := 0, block := -1)];
        return -1;
      }
      inodeTable[i] := inodeTable[i].(count := 1, size := MAX_FILE_NAME, block := b);
      assert inodeTable[..] == old(inodeTable[..])[i := Inode(SoftLink, MAX_FILE_NAME, b, 1)];
    }

    /** inode_delete */
    method InodeDelete(i: int)
      requires Valid() && FsState.InodeDelete(Snap(), i).Some?
      modifies freeInodes, freeBlocks
      ensures Valid() && Snap() == FsState.InodeDelete(old(Snap()), i).value
    {
      if inodeTable[i].size > 0 {
        freeBlocks[inodeTable[i].block] := false;
      }
      freeInodes[i] := false;
    }

    /** add_to_open_file_table */
    method AddHandle(inumber: int, offset: nat) returns (h: int)
      requires Valid()
      modifies openFiles, freeOpenFiles
      ensures Valid() && (Snap(), h) == FsState.AddHandle(old(Snap()), inumber, offset)
    {
      h := TakeFirst(freeOpenFiles);
      if h != -1 {
        openFiles[h] := OpenEntry(inumber, offset);
      }
    }

    /** memchr(fs_data + p, 0, ...) */
    method FindNul(p: nat) returns (z: nat)
      requires p <= fsData.Length
      ensures z == NulFrom(fsData[..], p)
    {
      z := p;
      while z < fsData.Length && fsData[z] != NUL
        invariant p <= z <= fsData.Length
        invariant NulFrom(fsData[..], p) == NulFrom(fsData[..], z)
      {
        z := z + 1;
      }
    }

    /** strcpy and memcpy into fs_data */
    method CopyIn(p: nat, bytes: seq<Byte>)
      requires p + |bytes| <= fsData.Length
      modifies fsData
      ensures fsData[..] == Store(old(fsData[..]), p, bytes)
    {
      for k := 0 to |bytes|
        invariant forall j :: 0 <= j < fsData.Length ==>
                  fsData[j] == if p <= j < p + k then bytes[j - p] else old(fsData[j])
      {
        fsData[p + k] := bytes[k];
      }
      assert fsData[..] == Store(old(fsData[..]), p, bytes);
    }

    /** get_path_recursive, called on a chain that ends; fuel bounds its length. */
    method GetPathRecursive(i: int, ghost fuel: nat) returns (r: int)
      requires Valid() && Follow(Snap(), i, fuel).Ends?
      ensures r == Follow(Snap(), i, fuel).inumber
      decreases fuel
    {
      hide StringAt, FsState.FindInDir, NulFrom;
      if i == -1 {
        return -1;
      }
      if inodeTable[i].kind != SoftLink {
        return i;
      }
      var base := BlockStart(inodeTable[i].block);
      var z := FindNul(base + 1);
      LinkNameAt(Snap(), i);
      assert fsData[..][base + 1..z] == fsData[base + 1..z];
      var next := FindInDir(fsData[base + 1..z]);
      r := GetPathRecursive(next, fuel - 1);
    }

    /** data_block_get */
    method BlockStart(b: int) returns (p: nat)
      requires Valid() && Snap().ValidBlock(b)
      ensures p == Snap().Base(b) && p + blockSize < fsData.Length
    {
      BlockFits(b, freeBlocks.Length, blockSize);
      p := b * blockSize;
    }

    /** tfs_open */
    method TfsOpen(path: CString, mode: Mode) returns (ret: int)
      requires Mounted() && FsOperations.TfsOpen(Snap(), path, mode).Done?
      modifies inodeTable, freeInodes, freeBlocks, rootBlock, openFiles, freeOpenFiles
      ensures Valid()
      ensures Snap() == FsOperations.TfsOpen(old(Snap()), path, mode).state
      ensures ret == FsOperations.TfsOpen(old(Snap()), path, mode).ret
    {
      if !ValidPath(path) {
        return -1;
      }
      var i := Lookup(path);
      if i >= 0 {
        ret := OpenInode(i, mode);
      } else if mode.create {
        ret := OpenNew(path[1..]);
      } else {
        return -1;
      }
    }

    method TruncateInode(i: int)
      requires Valid() && Snap().ValidInum(i) && Truncate(Snap(), i).Some?
      modifies inodeTable, freeBlocks
      ensures Valid() && Snap() == Truncate(old(Snap()), i).value
    {
      if inodeTable[i].size > 0 {
        freeBlocks[inodeTable[i].block] := false;
        inodeTable[i] := inodeTable[i].(size := 0);
      }
    }

    method OpenInode(i: int, mode: Mode) returns (ret: int)
      requires Valid() && FsOperations.OpenInode(Snap(), i, mode).Done? && Snap().ValidInum(i)
      modifies inodeTable, freeBlocks, openFiles, freeOpenFiles
      ensures Valid()
      ensures Snap() == FsOperations.OpenInode(old(Snap()), i, mode).state
      ensures ret == FsOperations.OpenInode(old(Snap()), i, mode).ret
    {
      var j := i;
      if inodeTable[i].kind == SoftLink {
        j := GetPathRecursive(i, inodeTable.Length);
        if j == -1 {
          return -1;
        }
      }
      assert Resolve(Snap(), i) == Ends(j);
      if mode.truncate {
        TruncateInode(j);
      }
      var offset := if mode.append then inodeTable[j].size else 0;
      ret := AddHandle(j, offset);
    }

    method OpenNew(name: CString) returns (ret: int)
      requires Valid() && FsOperations.OpenNew(Snap(), name).Done?
      modifies inodeTable, freeInodes, freeBlocks, rootBlock, openFiles, freeOpenFiles
      ensures Valid()
      ensures Snap() == FsOperations.OpenNew(old(Snap()), name).state
      ensures ret == FsOperations.OpenNew(old(Snap()), name).ret
    {
      var i := CreateFile();
      if i == -1 {
        return -1;
      }
      var added := AddDirEntry(name, i);
      if added == -1 {
        InodeDelete(i);
        return -1;
      }
      ret := AddHandle(i, 0);
    }

    /** tfs_sym_link */
    method TfsSymLink(target: CString, linkName: CString) returns (ret: int)
      requires Mounted() && FsOperations.TfsSymLink(Snap(), target, linkName).Done?
      modifies inodeTable, freeInodes, freeBlocks, fsData, rootBlock
      ensures Valid()
      ensures Snap() == FsOperations.TfsSymLink(old(Snap()), target, linkName).state
      ensures ret == FsOperations.TfsSymLink(old(Snap()), target, linkName).ret
    {
      hide Store, FirstFree, FsState.AddDirEntry;
      var inumberTarget := Lookup(target);
      if inumberTarget == -1 {
        return -1;
      }
      var i := CreateLink();
      if i == -1 {
        return -1;
      }
      var p := BlockStart(inodeTable[i].block);
      CopyIn(p, target + [NUL]);
      var added := AddDirEntry(linkName[1..], i);
      return 0;
    }

    /** tfs_link */
    method TfsLink(target: CString, linkName: CString) returns (ret: int)
      requires Mounted() && FsOperations.TfsLink(Snap(), target, linkName).Done?
      modifies inodeTable, rootBlock
      ensures Valid()
      ensures Snap() == FsOperations.TfsLink(old(Snap()), target, linkName).state
      ensures ret == FsOperations.TfsLink(old(Snap()), target, linkName).ret
    {
      var i := Lookup(target);
      if i == -1 {
        return -1;
      }
      if inodeTable[i].kind == SoftLink {
        return -1;
      }
      inodeTable[i] := inodeTable[i].(count := inodeTable[i].count + 1);
      var added := AddDirEntry(linkName[1..], i);
      return 0;
    }

    /** tfs_close */
    method TfsClose(h: int) returns (ret: int)
      requires Mounted()
      modifies freeOpenFiles
      ensures Valid()
      ensures Snap() == FsOperations.TfsClose(old(Snap()), h).state
      ensures ret == FsOperations.TfsClose(old(Snap()), h).ret
    {
      if !(0 <= h < freeOpenFiles.Length && freeOpenFiles[h]) {
        return -1;
      }
      freeOpenFiles[h] := false;
      return 0;
    }

    /** tfs_write */
    method TfsWrite(h: int, buffer: seq<Byte>) returns (ret: int)
      requires Mounted() && FsOperations.TfsWrite(Snap(), h, buffer).Done?
      modifies inodeTable, freeBlocks, fsData, openFiles
      ensures Valid()
      ensures Snap() == FsOperations.TfsWrite(old(Snap()), h, buffer).state
      ensures ret == FsOperations.TfsWrite(old(Snap()), h, buffer).ret
    {
      if !(0 <= h < freeOpenFiles.Length && freeOpenFiles[h]) {
        return -1;
      }
      var i := openFiles[h].inumber;
      var offset := openFiles[h].offset;
      var n := if |buffer| + offset > blockSize then WrapSub(blockSize, offset) else |buffer|;
      if n == 0 {
        return 0;
      }
      ret := WriteBlock(h, buffer, n);
    }

    /** An empty file gets a block first. */
    method BlockToWrite(i: int) returns (b: int)
      requires Valid() && Snap().ValidInum(i)
      modifies inodeTable, freeBlocks
      ensures Valid()
      ensures b == if old(inodeTable[i].size) == 0 then FirstFree(old(freeBlocks[..])) else old(inodeTable[i].block)
      ensures old(inodeTable[i].size) == 0 && b == -1 ==> Snap() == old(Snap())
      ensures old(inodeTable[i].size) == 0 && b != -1 ==> freeBlocks[..] == old(freeBlocks[..])[b := true]
      ensures old(inodeTable[i].size) != 0 ==> freeBlocks[..] == old(freeBlocks[..])
      ensures inodeTable[..] == old(inodeTable[..])[i := inodeTable[i]]
      ensures inodeTable[i] == if old(inodeTable[i].size) == 0 && b == -1 then old(inodeTable[i])
              else old(inodeTable[i]).(block := b)
    {
      b := inodeTable[i].block;
      if inodeTable[i].size == 0 {
        b := TakeFirst(freeBlocks);
        if b == -1 {
          return;
        }
        inodeTable[i] := inodeTable[i].(block := b);
      }
    }

    /** The part of tfs_write that runs when there is something to write. */
    method WriteBlock(h: int, buffer: seq<Byte>, n: nat) returns (ret: int)
      requires Valid() && Snap().IsOpen(h) && Snap().ValidInum(openFiles[h].inumber)
      requires FsOperations.WriteBlock(Snap(), h, buffer, n).Done?
      modifies inodeTable, freeBlocks, fsData, openFiles
      ensures Valid()
      ensures Snap() == FsOperations.WriteBlock(old(Snap()), h, buffer, n).state
      ensures ret == FsOperations.WriteBlock(old(Snap()), h, buffer, n).ret
    {
      hide Store, FirstFree;
      var i := openFiles[h].inumber;
      var b := BlockToWrite(i);
      if b == -1 {
        return -1;
      }
      var p := BlockStart(b);
      CopyIn(p + openFiles[h].offset, buffer[..n]);
      Advance(h, n);
      return n;
    }

    /** Moves the cursor behind what was written; the file ends there if it was shorter. */
    method Advance(h: int, n: nat)
      requires 0 <= h < openFiles.Length && 0 <= openFiles[h].inumber < inodeTable.Length
      modifies openFiles, inodeTable
      ensures openFiles[..] == old(openFiles[..])[h := old(openFiles[h]).(offset := old(openFiles[h].offset) + n)]
      ensures var i := old(openFiles[h].inumber); var end := old(openFiles[h].offset) + n;
              var size := if end > old(inodeTable[i].size) then end else old(inodeTable[i].size);
              inodeTable[..] == old(inodeTable[..])[i := old(inodeTable[i]).(size := size)]
    {
      var i := openFiles[h].inumber;
      openFiles[h] := openFiles[h].(offset := openFiles[h].offset + n);
      if openFiles[h].offset > inodeTable[i].size {
        inodeTable[i] := inodeTable[i].(size := openFiles[h].offset);
      }
    }

    /** tfs_read; bytes is what it copies to the caller's buffer. */
    method TfsRead(h: int, len: nat) returns (ret: int, bytes: seq<Byte>)
      requires Mounted() && FsOperations.TfsRead(Snap(), h, len).Done?
      modifies openFiles
      ensures Valid()
      ensures Snap() == FsOperations.TfsRead(old(Snap()), h, len).state
      ensures ret == FsOperations.TfsRead(old(Snap()), h, len).ret
      ensures bytes == FsOperations.TfsRead(old(Snap()), h, len).bytes
    {
      if !(0 <= h < freeOpenFiles.Length && freeOpenFiles[h]) {
        return -1, [];
      }
      var i := openFiles[h].inumber;
      var toRead := WrapSub(inodeTable[i].size, openFiles[h].offset);
      if toRead > len {
        toRead := len;
      }
      bytes := [];
      if toRead > 0 {
        var p := BlockStart(inodeTable[i].block);
        var offset;
        bytes, offset := ReadBlock(p, openFiles[h].offset, toRead);
        openFiles[h] := openFiles[h].(offset := offset);
      }
      ret := |bytes|;
    }

    /** The part of tfs_read that looks at the data: skip a NUL, stop at the next one, copy. */
    method ReadBlock(p: nat, from: nat, n: nat) returns (bytes: seq<Byte>, offset: nat)
      requires ReadChunk(fsData[..], p, from, n).Some?
      ensures ReadChunk(fsData[..], p, from, n) == Some(Chunk(bytes, offset))
    {
      offset := from;
      if fsData[p + offset] == NUL {
        offset := offset + 1;
      }
      var toRead := n;
      var z := FindNul(p + offset);
      if z < p + offset + n && z < fsData.Length {
        toRead := z - (p + offset);
      }
      bytes := fsData[p + offset..p + offset + toRead];
      assert bytes == fsData[..][p + offset..p + offset + toRead];
      offset := offset + toRead;
    }

    /** tfs_unlink */
    method TfsUnlink(target: CString) returns (ret: int)
      requires Mounted() && FsOperations.TfsUnlink(Snap(), target).Done?
      modifies inodeTable, freeInodes, freeBlocks, rootBlock
      ensures Valid()
      ensures Snap() == FsOperations.TfsUnlink(old(Snap()), target).state
      ensures ret == FsOperations.TfsUnlink(old(Snap()), target).ret
    {
      var i := Lookup(target);
      if i == -1 {
        return -1;
      }
      ClearDirEntry(target[1..]);
      if inodeTable[i].count > 1 {
        inodeTable[i] := inodeTable[i].(count := inodeTable[i].count - 1);
      } else {
        InodeDelete(i);
      }
      return 0;
    }
  }

  /** Where the name that get_path_recursive looks up lies. */
  lemma LinkNameAt(s: State, i: int)
    requires s.Shape() && IsLink(s, i) && LinkName(s, i).Some?
    ensures var p := s.Base(s.inodes[i].block) + 1; LinkName(s, i) == Some(s.data[p..NulFrom(s.data, p)])
  {
  }
}
