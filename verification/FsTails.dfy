/**
 * The bytes between the end of a file and the end of its block. As long as no block is freed they stay as
 * they were at first; where that is NUL, tfs_read never takes in a byte from behind a file shorter than
 * its block.
 */
module FsTails {
  import opened CTypes
  import opened FsState
  import opened FsOperations
  import opened FsInvariant
  import opened FsRuns
  import opened FsReads
  import opened FsRefinement

  /** Block b holds NULs from byte n on. */
  ghost predicate NulsFrom(s: State, b: int, n: nat)
    requires s.Shape() && s.ValidBlock(b)
  {
    forall k :: s.Base(b) + n <= k < s.Base(b) + s.blockSize ==> s.data[k] == NUL
  }

  ghost predicate TailBlank(s: State, i: int)
    requires s.Shape() && s.Live(i)
  {
    s.inodes[i].kind == File && s.inodes[i].size > 0 && s.ValidBlock(s.inodes[i].block) ==>
      NulsFrom(s, s.inodes[i].block, s.inodes[i].size)
  }

  /** Free blocks are all NUL, and so is the rest of every file's block. */
  ghost predicate TailsBlank(s: State)
    requires s.Shape()
  {
    && (forall b :: s.ValidBlock(b) && !s.blockTaken[b] ==> NulsFrom(s, b, 0))
    && (forall i :: s.Live(i) ==> TailBlank(s, i))
  }

  /** The call gives a block back: it truncates a file that has one, or unlinks the last name of one. */
  predicate FreesBlock(s: State, c: Call)
    requires s.Mounted()
  {
    match c
    case Open(path, mode) =>
      && mode.truncate && Lookup(s, path) >= 0
      && var r := Resolve(s, Lookup(s, path)); r.Ends? && s.ValidInum(r.inumber) && s.inodes[r.inumber].size > 0
    case Unlink(target) =>
      var i := Lookup(s, target);
      s.ValidInum(i) && s.inodes[i].count <= 1 && s.inodes[i].size > 0
    case _ => false
  }

  /** The call gives a block back exactly when some block is taken before it and free after it. */
  lemma FreesBlockIff(s: State, c: Call)
    requires Inv(s) && Step(s, c).Done?
    ensures s.Mounted() && s.SameSizes(Step(s, c).state)
    ensures FreesBlock(s, c) <==> exists b :: s.ValidBlock(b) && s.blockTaken[b] && !Step(s, c).state.blockTaken[b]
  {
    hide Inv, TfsOpen, TfsUnlink;
    InvMounted(s);
    match c
    case Open(path, mode) => OpenFreesIff(s, path, mode);
    case Unlink(target) => UnlinkFreesIff(s, target);
    case _ =>
  }

  lemma FileBlockTaken(s: State, i: int)
    requires Inv(s) && s.Live(i) && s.inodes[i].size > 0
    ensures s.ValidBlock(s.inodes[i].block) && s.blockTaken[s.inodes[i].block]
  {
    assert Owns(s, i, s.inodes[i].block);
  }

  lemma OpenFreesIff(s: State, path: CString, mode: Mode)
    requires Inv(s) && TfsOpen(s, path, mode).Done?
    ensures s.Mounted() && s.SameSizes(TfsOpen(s, path, mode).state)
    ensures FreesBlock(s, Open(path, mode))
       <==> exists b :: s.ValidBlock(b) && s.blockTaken[b] && !TfsOpen(s, path, mode).state.blockTaken[b]
  {
    hide Inv, Resolve;
    InvMounted(s);
    if Lookup(s, path) >= 0 {
      OpenLeads(s, path, mode);
      var j := Resolve(s, Lookup(s, path)).inumber;
      if j != -1 && s.inodes[j].size > 0 {
        FileBlockTaken(s, j);
        assert mode.truncate ==> !TfsOpen(s, path, mode).state.blockTaken[s.inodes[j].block];
      }
    }
  }

  lemma UnlinkFreesIff(s: State, target: CString)
    requires Inv(s) && TfsUnlink(s, target).Done?
    ensures s.Mounted() && s.SameSizes(TfsUnlink(s, target).state)
    ensures FreesBlock(s, Unlink(target))
       <==> exists b :: s.ValidBlock(b) && s.blockTaken[b] && !TfsUnlink(s, target).state.blockTaken[b]
  {
    hide Inv, ClearDirEntry;
    InvMounted(s);
    var i := Lookup(s, target);
    if i != -1 {
      FoundIsLive(s, target[1..]);
      if s.inodes[i].size > 0 {
        FileBlockTaken(s, i);
        assert s.inodes[i].count <= 1 ==> !TfsUnlink(s, target).state.blockTaken[s.inodes[i].block];
      }
    }
  }

  // ---- one call ----

  /** Nothing is stored, no block is freed and no file appears that has one. */
  lemma TailsKept(s: State, t: State)
    requires s.Shape() && t.Shape() && TailsBlank(s)
    requires t.data == s.data && t.blockSize == s.blockSize && |t.blockTaken| == |s.blockTaken|
    requires forall b :: s.ValidBlock(b) && s.blockTaken[b] ==> t.blockTaken[b]
    requires forall i :: t.Live(i) && t.inodes[i].size > 0 && t.inodes[i].kind == File ==>
               s.Live(i) && s.inodes[i].(count := 0) == t.inodes[i].(count := 0)
    ensures TailsBlank(t)
  {
    forall i | t.Live(i) ensures TailBlank(t, i) {
      if t.inodes[i].size > 0 && t.inodes[i].kind == File {
        assert TailBlank(s, i);
      }
    }
    forall b | t.ValidBlock(b) && !t.blockTaken[b] ensures NulsFrom(t, b, 0) {
      assert NulsFrom(s, b, 0);
    }
  }

  lemma NulsElsewhere(s: State, t: State, b: int, offset: nat, bytes: seq<Byte>, c: int, n: nat)
    requires s.Shape() && t.Shape() && s.ValidBlock(b) && s.ValidBlock(c) && b != c && offset + |bytes| <= s.blockSize
    requires t.blockSize == s.blockSize && |t.blockTaken| == |s.blockTaken|
    requires t.data == Store(s.data, s.Base(b) + offset, bytes) && NulsFrom(s, c, n)
    ensures NulsFrom(t, c, n)
  {
    StoreElsewhere(s, b, offset, bytes, c);
  }

  /** Bytes stored in block b of inode i, which owns it from now on. */
  lemma StoredTails(s: State, t: State, i: int, b: int, offset: nat, bytes: seq<Byte>)
    requires Inv(s) && TailsBlank(s) && t.Shape() && t.Live(i) && t.inodes[i].block == b && TailBlank(t, i)
    requires s.ValidBlock(b) && (Owns(s, i, b) || !s.blockTaken[b])
    requires t.blockTaken == s.blockTaken[b := true] && t.blockSize == s.blockSize
    requires offset + |bytes| <= s.blockSize && t.data == Store(s.data, s.Base(b) + offset, bytes)
    requires forall j :: t.Live(j) && j != i ==> s.Live(j) && t.inodes[j] == s.inodes[j]
    ensures TailsBlank(t)
  {
    forall d | t.ValidBlock(d) && !t.blockTaken[d] ensures NulsFrom(t, d, 0) {
      NulsElsewhere(s, t, b, offset, bytes, d, 0);
    }
    forall j | t.Live(j) && j != i ensures TailBlank(t, j) {
      if s.inodes[j].kind == File && s.inodes[j].size > 0 {
        assert TailBlank(s, j) && Owns(s, j, s.inodes[j].block);
        hide NulsFrom;
        NulsElsewhere(s, t, b, offset, bytes, s.inodes[j].block, s.inodes[j].size);
      }
    }
  }

  /** What is stored into a block ends before its new tail begins. */
  lemma TailAfterStore(s: State, t: State, b: int, size: nat, offset: nat, bytes: seq<Byte>, size': nat)
    requires s.Shape() && t.Shape() && s.ValidBlock(b) && offset + |bytes| <= s.blockSize
    requires t.blockSize == s.blockSize && |t.blockTaken| == |s.blockTaken|
    requires t.data == Store(s.data, s.Base(b) + offset, bytes)
    requires NulsFrom(s, b, size) && size <= size' && offset + |bytes| <= size'
    ensures NulsFrom(t, b, size')
  {
  }

  lemma TailOf(s: State, i: int, b: int)
    requires s.Shape() && TailsBlank(s) && s.Live(i) && s.inodes[i].kind == File && s.ValidBlock(b)
    requires if s.inodes[i].size > 0 then b == s.inodes[i].block else !s.blockTaken[b]
    ensures NulsFrom(s, b, s.inodes[i].size)
  {
    assert TailBlank(s, i);
  }

  lemma OwnsNothing(s: State, i: int, b: int)
    requires s.Shape() && s.ValidInum(i) && s.ValidBlock(b) && s.inodes[i].size == 0
    requires Owns(s, i, b) || !s.blockTaken[b]
    ensures !s.blockTaken[b]
  {
  }

  lemma WriteBlockTails(s: State, h: int, buffer: seq<Byte>, n: nat)
    requires Inv(s) && TailsBlank(s) && s.IsOpen(h) && 0 < n <= |buffer| && s.open[h].offset + n <= s.blockSize
    requires s.Live(s.open[h].inumber) && s.inodes[s.open[h].inumber].kind == File
    requires s.inodes[s.open[h].inumber].size > 0 || FirstFree(s.blockTaken) != -1
    ensures WriteBlock(s, h, buffer, n).Done? && TailsBlank(WriteBlock(s, h, buffer, n).state)
  {
    hide Inv, TailsBlank, NulsFrom, WriteBlock, Owns, Store, FirstFree;
    InvMounted(s);
    WriteMade(s, h, buffer, n);
    var e := s.open[h];
    var i := e.inumber;
    var t := WriteBlock(s, h, buffer, n).state;
    var b := t.inodes[i].block;
    if s.inodes[i].size == 0 {
      OwnsNothing(s, i, b);
    }
    TailOf(s, i, b);
    TailAfterStore(s, t, b, s.inodes[i].size, e.offset, buffer[..n], t.inodes[i].size);
    StoredTails(s, t, i, b, e.offset, buffer[..n]);
  }

  lemma OpenIsFile(s: State, h: int)
    requires Inv(s) && s.IsOpen(h)
    ensures s.Live(s.open[h].inumber) && s.inodes[s.open[h].inumber].kind == File
  {
  }

  lemma WriteTails(s: State, h: int, buffer: seq<Byte>)
    requires Inv(s) && TailsBlank(s) && TfsWrite(s, h, buffer).Done?
    ensures TailsBlank(TfsWrite(s, h, buffer).state)
  {
    hide Inv, TailsBlank, Store, FirstFree;
    InvMounted(s);
    var t := TfsWrite(s, h, buffer).state;
    if t != s {
      OpenIsFile(s, h);
      WriteStaysInBlock(s, s.open[h].offset, |buffer|);
      WriteBlockTails(s, h, buffer, WriteLength(s, s.open[h].offset, |buffer|));
    }
  }

  lemma SymLinkTails(s: State, target: CString, linkName: CString)
    requires Inv(s) && TailsBlank(s) && TfsSymLink(s, target, linkName).Done?
    ensures TailsBlank(TfsSymLink(s, target, linkName).state)
  {
    hide Inv, NulsFrom, TailsBlank, Store, AddDirEntry;
    InvMounted(s);
    var t := TfsSymLink(s, target, linkName).state;
    var (c, i) := CreateLink(s);
    if Lookup(s, target) != -1 && i != -1 {
      BoundPathFits(s, target);
      StoredTails(s, t, i, c.inodes[i].block, 0, target + [NUL]);
    } else {
      TailsKept(s, t);
    }
  }

  lemma OpenInodeTails(s: State, i: int, mode: Mode)
    requires s.Shape() && TailsBlank(s) && OpenInode(s, i, mode).Done?
    requires mode.truncate ==> var r := Resolve(s, i); r.Ends? && s.ValidInum(r.inumber) ==>
             s.inodes[r.inumber].size == 0
    ensures TailsBlank(OpenInode(s, i, mode).state)
  {
    hide NulsFrom, TailBlank, TailsBlank, Resolve;
    TailsKept(s, OpenInode(s, i, mode).state);
  }

  lemma OpenNewTails(s: State, name: CString)
    requires s.Shape() && TailsBlank(s) && OpenNew(s, name).Done?
    ensures TailsBlank(OpenNew(s, name).state)
  {
    hide NulsFrom, TailBlank, TailsBlank;
    TailsKept(s, OpenNew(s, name).state);
  }

  lemma OpenTails(s: State, path: CString, mode: Mode)
    requires Inv(s) && TailsBlank(s) && TfsOpen(s, path, mode).Done? && !FreesBlock(s, Open(path, mode))
    ensures TailsBlank(TfsOpen(s, path, mode).state)
  {
    assert s.Mounted();
    hide Inv, TailsBlank, Resolve, OpenInode, OpenNew;
    if ValidPath(path) {
      if Lookup(s, path) >= 0 {
        OpenInodeTails(s, Lookup(s, path), mode);
      } else if mode.create {
        OpenNewTails(s, path[1..]);
      }
    }
  }

  lemma UnlinkTails(s: State, target: CString)
    requires Inv(s) && TailsBlank(s) && !FreesBlock(s, Unlink(target))
    ensures TfsUnlink(s, target).Done? && TailsBlank(TfsUnlink(s, target).state)
  {
    UnlinkKeepsInvIff(s, target);
    hide Inv, NulsFrom, TailBlank, TailsBlank;
    TailsKept(s, TfsUnlink(s, target).state);
  }

  /** Calls that free no block keep all tails blank. */
  lemma StepTails(s: State, c: Call)
    requires Inv(s) && TailsBlank(s) && Step(s, c).Done? && !FreesBlock(s, c)
    ensures TailsBlank(Step(s, c).state)
  {
    match c
    case Open(path, mode) => OpenTails(s, path, mode);
    case SymLink(target, linkName) => SymLinkTails(s, target, linkName);
    case Write(h, buffer) => WriteTails(s, h, buffer);
    case Unlink(target) => UnlinkTails(s, target);
    case _ =>
      hide Inv, NulsFrom, TailBlank, TailsBlank;
      TailsKept(s, Step(s, c).state);
  }

  // ---- reads ----

  /** Behind a file that is shorter than its block there is a NUL. */
  lemma NulBehind(s: State, h: int)
    requires Inv(s) && TailsBlank(s) && s.IsOpen(h)
    requires s.ValidInum(s.open[h].inumber) && 0 < s.inodes[s.open[h].inumber].size < s.blockSize
    ensures Behind(s, s.open[h].inumber) == NUL
  {
    OpenContent(s, h);
    assert TailBlank(s, s.open[h].inumber);
  }

  /** Frees no block, and is clean; a read need only be of a file that is shorter than its block. */
  ghost predicate Tidy(s: State, c: Call)
    requires s.Mounted()
  {
    && !FreesBlock(s, c)
    && if c.Read? then
         s.IsOpen(c.handle) && s.ValidInum(s.open[c.handle].inumber) ==>
           s.inodes[s.open[c.handle].inumber].size < s.blockSize
       else Clean(s, c)
  }

  lemma TidyIsClean(s: State, c: Call)
    requires Inv(s) && CursorsInside(s) && TailsBlank(s) && Tidy(s, c)
    ensures Clean(s, c)
  {
    if c.Read? && s.IsOpen(c.handle) && s.ValidInum(s.open[c.handle].inumber) {
      OpenContent(s, c.handle);
      if s.inodes[s.open[c.handle].inumber].size > 0 {
        NulBehind(s, c.handle);
      }
    }
  }

  lemma StartTails(p: Params, memory: seq<Byte>, s: State)
    requires Starts(s, p, memory) && forall k :: 0 <= k < |memory| ==> memory[k] == NUL
    ensures Good(s) && TailsBlank(s)
  {
    InitInv(p, memory);
  }

  /**
   * Over zero-filled memory, in every run of tidy calls no read takes a stray byte: every call is clean.
   */
  lemma {:induction false} TidyAlways(p: Params, memory: seq<Byte>, ss: seq<State>, cs: seq<Call>, k: nat)
    requires Run(ss, cs) && Starts(ss[0], p, memory) && k < |ss|
    requires forall j :: 0 <= j < |memory| ==> memory[j] == NUL
    requires forall j :: 0 <= j < k ==> ss[j].Mounted() && Tidy(ss[j], cs[j])
    ensures Good(ss[k]) && TailsBlank(ss[k])
    ensures forall j :: 0 <= j < k ==> Clean(ss[j], cs[j])
  {
    hide Tidy, Clean, TailsBlank, Starts, Step;
    if k == 0 {
      StartTails(p, memory, ss[0]);
    } else {
      TidyAlways(p, memory, ss, cs, k - 1);
      var s, c := ss[k - 1], cs[k - 1];
      TidyStep(s, c);
    }
  }

  lemma TidyStep(s: State, c: Call)
    requires Good(s) && TailsBlank(s) && Step(s, c).Done? && Tidy(s, c)
    ensures Clean(s, c) && Good(Step(s, c).state) && TailsBlank(Step(s, c).state)
  {
    TidyIsClean(s, c);
    CleanIff(s, c);
    StepTails(s, c);
  }
}
