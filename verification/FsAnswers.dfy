/**
 * What tfs_init sets up and what tfs_open answers, in terms of the parameters, the path's bytes and the room
 * that is left.
 */
module FsAnswers {
  import opened CTypes
  import opened FsState
  import opened FsOperations
  import opened FsAbstract
  import opened FsInvariant
  import opened FsRuns
  import opened FsRefinement

  // ---- tfs_init ----

  /** The limits that the parameters set, with 44 bytes to a directory entry. */
  function LimitsFor(p: Params): Limits
    requires p.inodes > 0 && p.blocks > 0
  {
    Limits(p.inodes - 1, p.blockSize / 44, p.openFiles, p.blocks - 1, p.blockSize)
  }

  /**
   * After tfs_init there are as many inodes, blocks, directory slots and open-file entries as the parameters
   * say. The root has inode 0 and block 0; everything else is free, and no byte of memory has been touched.
   */
  lemma InitIs(p: Params, memory: seq<Byte>, s: State)
    requires Starts(s, p, memory)
    ensures p.inodes > 0 && p.blocks > 0 && s.Mounted() && LimitsOf(s) == LimitsFor(p)
    ensures |s.inodes| == p.inodes && |s.blockTaken| == p.blocks && |s.open| == p.openFiles && s.data == memory
    ensures forall i :: s.Live(i) <==> i == 0
    ensures forall b :: s.ValidBlock(b) ==> (s.blockTaken[b] <==> b == 0)
    ensures s.inodes[0].kind == Directory && s.inodes[0].block == 0 && s.inodes[0].size == p.blockSize
    ensures s.blockSize == p.blockSize && forall h :: !s.IsOpen(h)
    ensures Abs(s) == AFs(map[], map[], map[])
  {
    NamesIs(s.dir);
  }

  /** The limits stay what the parameters made them. */
  lemma {:induction false} LimitsAlways(p: Params, memory: seq<Byte>, ss: seq<State>, cs: seq<Call>, k: nat)
    requires Run(ss, cs) && Starts(ss[0], p, memory) && k < |ss|
    ensures p.inodes > 0 && p.blocks > 0 && ss[k].Mounted() && LimitsOf(ss[k]) == LimitsFor(p)
  {
    hide Starts, Step, LimitsOf, LimitsFor, NamesInv;
    InitIs(p, memory, ss[0]);
    if k > 0 {
      LimitsAlways(p, memory, ss, cs, k - 1);
      NamesInvAlways(p, memory, ss, cs, k);
      NamesMounted(ss[k]);
      SameLimits(ss[k - 1], cs[k - 1]);
    }
  }

  lemma NamesMounted(s: State)
    requires NamesInv(s)
    ensures s.Mounted()
  {
  }

  // ---- tfs_open ----

  /** The directory and the inode table have room for a new file of this name: at most 39 bytes after the slash. */
  predicate RoomForFile(s: State, path: CString)
    requires s.Shape()
  {
    && 2 <= |path| <= 40 && path[0] == 47
    && (exists i :: 0 <= i < |s.inodeTaken| && !s.inodeTaken[i])
    && (exists k :: 0 <= k < |s.dir| && s.dir[k].inumber == -1)
  }

  /**
   * tfs_open returns a handle if and only if one is free, and the path leads to a file, or is not bound and is
   * to be created and there is room for it.
   */
  lemma OpenSucceedsIff(s: State, path: CString, mode: Mode)
    requires Inv(s) && TfsOpen(s, path, mode).Done?
    ensures s.Mounted()
    ensures TfsOpen(s, path, mode).ret != -1 <==>
            && (exists h :: 0 <= h < |s.openTaken| && !s.openTaken[h])
            && if Lookup(s, path) != -1 then Resolve(s, Lookup(s, path)) != Ends(-1)
               else mode.create && RoomForFile(s, path)
  {
    hide BlocksInv, LinksInv, HandlesInv;
    if Lookup(s, path) != -1 {
      BoundOpens(s, path, mode);
    } else {
      UnboundOpens(s, path, mode);
    }
  }

  lemma BoundOpens(s: State, path: CString, mode: Mode)
    requires Inv(s) && TfsOpen(s, path, mode).Done? && Lookup(s, path) != -1
    ensures s.Mounted()
    ensures TfsOpen(s, path, mode).ret != -1
       <==> FirstFree(s.openTaken) != -1 && Resolve(s, Lookup(s, path)) != Ends(-1)
  {
    hide Inv, TfsOpen, Follow;
    InvMounted(s);
    FoundAt(s, path);
    OpenLeads(s, path, mode);
  }

  lemma UnboundOpens(s: State, path: CString, mode: Mode)
    requires Inv(s) && TfsOpen(s, path, mode).Done? && Lookup(s, path) == -1
    ensures s.Mounted()
    ensures TfsOpen(s, path, mode).ret != -1 <==> FirstFree(s.openTaken) != -1 && mode.create && RoomForFile(s, path)
  {
    hide Inv, OpenInode;
    InvMounted(s);
    if ValidPath(path) && mode.create {
      NewOpens(s, path[1..]);
    }
  }

  lemma NewOpens(s: State, name: CString)
    requires s.Shape() && OpenNew(s, name).Done?
    ensures OpenNew(s, name).ret != -1
       <==> FirstFree(s.inodeTaken) != -1 && CanAdd(s.dir, name) && FirstFree(s.openTaken) != -1
  {
  }

  /**
   * At every moment of a run, as many handles may be open as the parameters say and no more: opening a bound
   * path that leads to a file fails if and only if so many are.
   */
  lemma HandlesRunOutIff(p: Params, memory: seq<Byte>, ss: seq<State>, cs: seq<Call>, k: nat, path: CString, mode: Mode)
    requires Run(ss, cs) && Starts(ss[0], p, memory) && k < |ss|
    requires forall j :: 0 <= j < k ==> KeepsOpenFiles(ss[j], cs[j])
    ensures ss[k].Mounted() && |Handles(ss[k])| <= p.openFiles
    ensures TfsOpen(ss[k], path, mode).Done? && Lookup(ss[k], path) != -1
            && Resolve(ss[k], Lookup(ss[k], path)) != Ends(-1) ==>
              (TfsOpen(ss[k], path, mode).ret == -1 <==> |Handles(ss[k])| == p.openFiles)
  {
    hide Starts, Step, KeepsOpenFiles, Inv, Handles, TfsOpen, Resolve, Files, Names;
    LimitsAlways(p, memory, ss, cs, k);
    InvAlways(p, memory, ss, cs, k);
    var s := ss[k];
    HandlesFullIff(s);
    HandlesBound(s);
    if TfsOpen(s, path, mode).Done? && Lookup(s, path) != -1 {
      BoundOpens(s, path, mode);
    }
  }

  lemma HandlesBound(s: State)
    requires s.Shape()
    ensures |Handles(s)| <= |s.open|
  {
    assert Handles(s).Keys == Taken(s.openTaken);
    SubCard(Taken(s.openTaken), Range(|s.openTaken|));
  }
}
