/** tfs_copy_from_external_fs: what arrives, and what the open-file table looks like afterwards. */
module ExternalCopy {
  import opened CTypes
  import opened FsState
  import opened FsOperations
  import opened FsInvariant
  import opened FsRuns
  import opened FsReads
  import opened FsAbstract
  import opened FsAnswers
  import opened FsRefinement
  import opened FileSystems

  /** sizeof(buffer), fs/operations.c:370 */
  const CHUNK := 1024

  const COPY_MODE := Mode(true, true, false)

  /**
   * Handle h is at byte `done` of file i, which holds the source as far as that and has room for a block, or for
   * nothing.
   */
  ghost predicate Holds(l: Limits, a: AFs, h: int, i: int, source: seq<Byte>, done: nat, room: nat) {
    && h in a.handles && a.handles[h] == OpenEntry(i, done)
    && done <= |source| && done <= room && (room == 0 || room == l.blockSize)
    && i in a.files && a.files[i] == Plain(source[..done])
    && (done > 0 || (room == 0 <==> a.BlocksUsed() == l.blocks))
  }

  ghost predicate Copied(s: State, h: int, i: int, source: seq<Byte>, done: nat, room: nat) {
    Inv(s) && Holds(LimitsOf(s), Abs(s), h, i, source, done, room)
  }

  lemma WriteHolds(
      l: Limits, a: AFs, h: int, i: int, source: seq<Byte>, done: nat, room: nat, n: nat, a': AFs, ret: int)
    requires Holds(l, a, h, i, source, done, room) && 0 < n && done + n <= |source| && 0 < l.blockSize
    requires Writes(l, a, h, source[done..done + n], a', ret)
    ensures var end := if done + n <= room then done + n else room;
            && (ret == n <==> done + n <= room)
            && Holds(l, a', h, i, source, end, room) && a'.handles == a.handles[h := OpenEntry(i, end)]
  {
    var chunk := source[done..done + n];
    var end := if done + n <= room then done + n else room;
    assert Overwrite(source[..done], done, chunk[..end - done]) == source[..end];
  }

  /** The handle of the copy is open, its cursor at the end of the file. */
  lemma HoldsOpen(s: State, h: int, i: int, source: seq<Byte>, done: nat, room: nat)
    requires Copied(s, h, i, source, done, room)
    ensures s.Mounted() && 0 < s.blockSize && s.IsOpen(h) && s.ValidInum(s.open[h].inumber) && CursorInside(s, h)
  {
    FileIsContent(s, h);
  }

  /** One chunk arrives, as far as there is room, and no other handle moves. */
  lemma CopyChunk(s: State, h: int, i: int, source: seq<Byte>, done: nat, room: nat, n: nat)
    requires Copied(s, h, i, source, done, room) && 0 < n && done + n <= |source|
    ensures s.Mounted()
    ensures var r := TfsWrite(s, h, source[done..done + n]); var end := if done + n <= room then done + n else room;
            && r.Done? && (r.ret == n <==> done + n <= room) && Copied(r.state, h, i, source, end, room)
            && Handles(r.state) == Handles(s)[h := OpenEntry(i, end)]
            && (Good(s) ==> Good(r.state))
  {
    hide Inv, Good, Holds, Writes, TfsWrite, Files, Handles, Names, CursorInside;
    var chunk := source[done..done + n];
    HoldsOpen(s, h, i, source, done, room);
    WriteOpenRefines(s, h, chunk);
    WriteKeepsInv(s, h, chunk);
    var r := TfsWrite(s, h, chunk);
    WriteHolds(LimitsOf(s), Abs(s), h, i, source, done, room, n, Abs(r.state), r.ret);
  }

  lemma WriteKeepsInv(s: State, h: int, chunk: seq<Byte>)
    requires Inv(s) && TfsWrite(s, h, chunk).Done?
    ensures var t := TfsWrite(s, h, chunk).state;
            Inv(t) && LimitsOf(t) == LimitsOf(s) && (Good(s) ==> Good(t))
  {
    WriteInv(s, h, chunk);
    if Good(s) {
      WriteKeepsGood(s, h, chunk);
    }
  }

  lemma OpenHolds(l: Limits, a: AFs, dest: CString, id: int, a': AFs, h: int, source: seq<Byte>, room: nat)
    requires if a.Bound(dest) != -1 then Opens(l, a, dest, COPY_MODE, a', h) else NewFile(l, a, NameOf(dest), id, a', h)
    requires h != -1 && 0 < l.blockSize && room == if a'.BlocksUsed() == l.blocks then 0 else l.blockSize
    ensures h in a'.handles && h !in a.handles
    ensures Holds(l, a', h, a'.handles[h].inumber, source, 0, room)
    ensures a'.handles == a.handles[h := OpenEntry(a'.handles[h].inumber, 0)]
  {
    if a.Bound(dest) != -1 {
      var j :| a.LeadsTo(a.Bound(dest), j) && OpensResolved(l, a, j, COPY_MODE, a', h);
    }
    assert source[..0] == [];
  }

  /** A truncating open that succeeded, in the abstract file system. */
  lemma OpenMade(s: State, dest: CString)
    requires Inv(s) && TfsOpen(s, dest, COPY_MODE).Done? && TfsOpen(s, dest, COPY_MODE).ret != -1
    ensures Abs(s).Bound(dest) == Lookup(s, dest)
    ensures var r := TfsOpen(s, dest, COPY_MODE);
            if Lookup(s, dest) != -1 then Opens(LimitsOf(s), Abs(s), dest, COPY_MODE, Abs(r.state), r.ret)
            else NewFile(LimitsOf(s), Abs(s), NameOf(dest), CreateFile(s).1, Abs(r.state), r.ret)
  {
    hide BlocksInv, LinksInv, HandlesInv, Abs;
    BoundIs(s, dest);
    if Lookup(s, dest) != -1 {
      FoundIsLive(s, dest[1..]);
      OpenExistingRefines(s, dest, COPY_MODE);
    } else {
      EnteredRefines(s, dest[1..]);
    }
  }

  lemma OpenKeepsInv(s: State, dest: CString)
    requires Inv(s) && TfsOpen(s, dest, COPY_MODE).Done?
    ensures s.Mounted()
    ensures var t := TfsOpen(s, dest, COPY_MODE).state;
            && Inv(t) && LimitsOf(t) == LimitsOf(s) && 0 < t.blockSize
            && (Good(s) && Clean(s, Open(dest, COPY_MODE)) ==> Good(t))
  {
    OpenInv(s, dest, COPY_MODE);
    if Good(s) {
      CleanIff(s, Open(dest, COPY_MODE));
    }
  }

  /** After a truncating open that succeeded, nothing of the source has been copied yet. */
  lemma CopyStarts(s: State, dest: CString, source: seq<Byte>)
    requires Inv(s) && TfsOpen(s, dest, COPY_MODE).Done? && TfsOpen(s, dest, COPY_MODE).ret != -1
    ensures var r := TfsOpen(s, dest, COPY_MODE);
            && r.ret in Handles(r.state) && r.ret !in Handles(s)
            && Copied(r.state, r.ret, Handles(r.state)[r.ret].inumber, source, 0, RoomFor(r))
            && Handles(r.state) == Handles(s)[r.ret := OpenEntry(Handles(r.state)[r.ret].inumber, 0)]
  {
    hide Inv, Good, TfsOpen, Opens, NewFile, Files, Handles, Names, Clean, Holds;
    OpenMade(s, dest);
    OpenKeepsInv(s, dest);
    var r := TfsOpen(s, dest, COPY_MODE);
    BlocksFullIff(r.state);
    OpenHolds(LimitsOf(s), Abs(s), dest, CreateFile(s).1, Abs(r.state), r.ret, source, RoomFor(r));
  }

  lemma CloseKeepsInv(s: State, h: int)
    requires Inv(s)
    ensures Inv(TfsClose(s, h).state) && (Good(s) ==> Good(TfsClose(s, h).state))
  {
    StepInv(s, Close(h));
    if Good(s) {
      CloseKeepsGood(s, h);
    }
  }

  lemma CloseHolds(
      l: Limits, a: AFs, handles: map<int, OpenEntry>, h: int, i: int, source: seq<Byte>, room: nat, a': AFs, ret: int)
    requires Holds(l, a, h, i, source, |source|, room) && h !in handles
    requires a.handles == handles[h := OpenEntry(i, |source|)]
    requires Closes(a, h, a', ret)
    ensures i in a'.files && a'.files[i] == Plain(source) && a'.handles == handles && |source| <= room
  {
    assert source[..|source|] == source;
  }

  lemma CopyEnds(s: State, handles: map<int, OpenEntry>, h: int, i: int, source: seq<Byte>, room: nat)
    requires Copied(s, h, i, source, |source|, room) && h !in handles
    requires Handles(s) == handles[h := OpenEntry(i, |source|)]
    ensures s.Mounted() && |source| <= room
    ensures var t := TfsClose(s, h).state; Inv(t) && Arrived(t, i, source) && Handles(t) == handles
    ensures Good(s) ==> Good(TfsClose(s, h).state)
  {
    hide Inv, Good, Holds, Closes, Files, Handles, Names, TfsClose, CursorInside;
    HoldsOpen(s, h, i, source, |source|, room);
    CloseKeepsInv(s, h);
    CloseRefines(s, h);
    var r := TfsClose(s, h);
    CloseHolds(LimitsOf(s), Abs(s), handles, h, i, source, room, Abs(r.state), r.ret);
  }

  /** There was no room for all of the source. */
  lemma CopyStops(s: State, h: int, i: int, source: seq<Byte>, room: nat)
    requires Copied(s, h, i, source, room, room) && room < |source|
    ensures Inv(s) && Arrived(s, i, source[..room])
  {
  }

  /** File i holds these bytes. */
  ghost predicate Arrived(s: State, i: int, bytes: seq<Byte>)
    requires s.Shape()
  {
    i in Files(s) && Files(s)[i] == Plain(bytes)
  }

  /** The inode behind a handle that tfs_open returned. */
  ghost function Opened(r: Outcome): int
    requires r.Done? && r.state.Shape()
  {
    if r.ret in Handles(r.state) then Handles(r.state)[r.ret].inumber else -1
  }

  /**
   * The copy gets its destination open if and only if a handle is free, and the path leads to a file, or is not
   * bound and there is room for a new one.
   */
  lemma CopyOpensIff(s: State, dest: CString)
    requires Inv(s) && TfsOpen(s, dest, COPY_MODE).Done?
    ensures s.Mounted()
    ensures TfsOpen(s, dest, COPY_MODE).ret != -1 <==>
            && (exists h :: 0 <= h < |s.openTaken| && !s.openTaken[h])
            && if Lookup(s, dest) != -1 then Resolve(s, Lookup(s, dest)) != Ends(-1) else RoomForFile(s, dest)
  {
    hide Inv, TfsOpen, Resolve, RoomForFile;
    InvMounted(s);
    OpenSucceedsIff(s, dest, COPY_MODE);
  }

  /** How much a file that tfs_open has just emptied or created can hold: a block, if one is free. */
  function RoomFor(r: Outcome): nat
    requires r.Done?
  {
    if FirstFree(r.state.blockTaken) == -1 then 0 else r.state.blockSize
  }

  /**
   * The copy succeeds exactly when there is room for the source. Then the destination holds the source and
   * the handles are as before; otherwise it holds as much as there was room for and its handle stays open.
   */
  method TfsCopyFromExternalFs(fs: FileSystem, source: Option<seq<Byte>>, dest: CString) returns (ret: int)
    requires fs.Mounted() && Inv(fs.Snap()) && TfsOpen(fs.Snap(), dest, COPY_MODE).Done?
    modifies fs.inodeTable, fs.freeInodes, fs.freeBlocks, fs.fsData, fs.rootBlock, fs.openFiles, fs.freeOpenFiles
    ensures fs.Valid() && Inv(fs.Snap())
    ensures Good(old(fs.Snap())) && Clean(old(fs.Snap()), Open(dest, COPY_MODE)) ==> Good(fs.Snap())
    ensures source.None? ==> ret == -1 && fs.Snap() == old(fs.Snap())
    ensures var open := TfsOpen(old(fs.Snap()), dest, COPY_MODE); source.Some? ==>
              && (open.ret == -1 ==> ret == -1 && fs.Snap() == open.state)
              && (open.ret != -1 ==> (ret == 0 || ret == -1) && (ret == 0 <==> |source.value| <= RoomFor(open)))
              && (ret == 0 ==>
                    && Arrived(fs.Snap(), Opened(open), source.value)
                    && Handles(fs.Snap()) == Handles(old(fs.Snap())))
              && (ret == -1 && open.ret != -1 ==>
                    && |source.value| > RoomFor(open)
                    && Arrived(fs.Snap(), Opened(open), source.value[..RoomFor(open)])
                    && Handles(fs.Snap())
                       == Handles(old(fs.Snap()))[open.ret := OpenEntry(Opened(open), RoomFor(open))])
  {
    hide Inv, Good, TfsOpen, Handles, Clean, Names, Files, Holds;
    if source.None? {
      return -1;
    }
    var bytes := source.value;
    ghost var handles := Handles(fs.Snap());
    OpenKeepsInv(fs.Snap(), dest);
    ghost var open := TfsOpen(fs.Snap(), dest, COPY_MODE);
    if open.ret != -1 {
      CopyStarts(fs.Snap(), dest, bytes);
    }
    var h := fs.TfsOpen(dest, COPY_MODE);
    if h == -1 {
      return -1;
    }
    ret := CopyChunks(fs, h, Opened(open), bytes, handles, RoomFor(open));
  }

  /** The loop of the copy, and the tfs_close after it. */
  method CopyChunks(
      fs: FileSystem, h: int, ghost i: int, bytes: seq<Byte>, ghost handles: map<int, OpenEntry>, ghost room: nat)
    returns (ret: int)
    requires fs.Valid() && Copied(fs.Snap(), h, i, bytes, 0, room)
    requires h !in handles && Handles(fs.Snap()) == handles[h := OpenEntry(i, 0)]
    modifies fs.inodeTable, fs.freeBlocks, fs.fsData, fs.openFiles, fs.freeOpenFiles
    ensures fs.Valid() && Inv(fs.Snap()) && (ret == 0 || ret == -1)
    ensures Good(old(fs.Snap())) ==> Good(fs.Snap())
    ensures ret == 0 <==> |bytes| <= room
    ensures ret == 0 ==> Arrived(fs.Snap(), i, bytes) && Handles(fs.Snap()) == handles
    ensures ret == -1 ==> Arrived(fs.Snap(), i, bytes[..room]) && Handles(fs.Snap()) == handles[h := OpenEntry(i, room)]
  {
    hide Inv, Good, Handles, Names, Files, TfsWrite, TfsClose, Copied;
    var done := 0;
    while done < |bytes|
      invariant done <= |bytes| && fs.Valid() && Copied(fs.Snap(), h, i, bytes, done, room)
      invariant Handles(fs.Snap()) == handles[h := OpenEntry(i, done)]
      invariant Good(old(fs.Snap())) ==> Good(fs.Snap())
    {
      var n := if |bytes| - done < CHUNK then |bytes| - done else CHUNK;
      CopyChunk(fs.Snap(), h, i, bytes, done, room, n);
      var written := fs.TfsWrite(h, bytes[done..done + n]);
      if written != n {
        CopyStops(fs.Snap(), h, i, bytes, room);
        return -1;
      }
      done := done + n;
    }
    CopyEnds(fs.Snap(), handles, h, i, bytes, room);
    var closed := fs.TfsClose(h);
    return 0;
  }
}
