/** Symbolic links: when get_path_recursive ends, and what it finds. */
module FsLinks {
  import opened CTypes
  import opened FsState
  import opened FsOperations
  import opened FsInvariant
  import opened FsRuns
  import opened FsDirectory

  // ---- fuel ----

  /** One hop of get_path_recursive. */
  function Hop(s: State, i: int): int
    requires s.Shape() && IsLink(s, i) && LinkName(s, i).Some?
  {
    FindInDir(s.dir, LinkName(s, i).value)
  }

  /** The inodes a chain visits in its first n hops, when it does not end within them. */
  function Trail(s: State, i: int, n: nat): (t: seq<int>)
    requires s.Shape() && Follow(s, i, n) == OutOfFuel
    ensures |t| == n + 1 && t[0] == i
    decreases n
  {
    if n == 0 then [i] else [i] + Trail(s, Hop(s, i), n - 1)
  }

  lemma {:induction false} MoreFuel(s: State, i: int, m: nat, n: nat)
    requires s.Shape() && m <= n && Follow(s, i, m) != OutOfFuel
    ensures Follow(s, i, n) == Follow(s, i, m)
    decreases m
  {
    if i != -1 && IsLink(s, i) && LinkName(s, i).Some? {
      MoreFuel(s, Hop(s, i), m - 1, n - 1);
    }
  }

  lemma TrailStarts(s: State, i: int, n: nat)
    requires s.Shape() && Follow(s, i, n) == OutOfFuel
    ensures IsLink(s, i) && LinkName(s, i).Some? && Trail(s, i, n)[0] == i
  {
  }

  lemma TrailGoesOn(s: State, i: int, n: nat, j: nat, m: nat)
    requires s.Shape() && Follow(s, i, n) == OutOfFuel && 0 < j <= n
    ensures IsLink(s, i) && LinkName(s, i).Some? && Follow(s, Hop(s, i), n - 1) == OutOfFuel
    ensures Trail(s, i, n)[j] == Trail(s, Hop(s, i), n - 1)[j - 1]
    ensures Follow(s, i, j + m) == Follow(s, Hop(s, i), (j - 1) + m)
  {
    hide LinkName, FindInDir;
  }

  /** The j-th inode of the trail is a link, and following from i by way of it takes j hops more. */
  lemma {:induction false} TrailLeads(s: State, i: int, n: nat, j: nat, m: nat)
    requires s.Shape() && Follow(s, i, n) == OutOfFuel && j <= n
    ensures IsLink(s, Trail(s, i, n)[j]) && LinkName(s, Trail(s, i, n)[j]).Some?
    ensures Follow(s, i, j + m) == Follow(s, Trail(s, i, n)[j], m)
    decreases n
  {
    hide Follow, Trail, Hop, LinkName;
    if j > 0 {
      TrailGoesOn(s, i, n, j, m);
      TrailLeads(s, Hop(s, i), n - 1, j - 1, m);
    } else {
      TrailStarts(s, i, n);
    }
  }

  lemma {:induction false} DistinctCard(t: seq<int>, n: nat)
    requires forall k :: 0 <= k < |t| ==> 0 <= t[k] < n
    requires forall j, k :: 0 <= j < k < |t| ==> t[j] != t[k]
    ensures |t| <= n
  {
    var members := set k | 0 <= k < |t| :: t[k];
    var at := (k: int) => if 0 <= k < |t| then t[k] else -1;
    forall y | y in members ensures exists k :: k in Range(|t|) && at(k) == y {
      var k :| 0 <= k < |t| && t[k] == y;
      assert k in Range(|t|) && at(k) == y;
    }
    InjectiveCard(Range(|t|), at, members);
    SubsetCard(members, Range(n));
  }

  lemma {:induction false} SubsetCard(xs: set<int>, ys: set<int>)
    requires xs <= ys
    ensures |xs| <= |ys|
  {
    assert ys == xs + (ys - xs);
  }

  /** Inodes a and b of a trail coincide: the chain goes round and never ends. */
  lemma {:induction false} RoundAndRound(s: State, i: int, n: nat, a: nat, b: nat, m: nat)
    requires s.Shape() && Follow(s, i, n) == OutOfFuel && a < b <= n && Trail(s, i, n)[a] == Trail(s, i, n)[b]
    ensures Follow(s, i, m) == OutOfFuel
    decreases m
  {
    hide Follow, Trail;
    if m < b {
      if Follow(s, i, m) != OutOfFuel {
        MoreFuel(s, i, m, n);
      }
    } else {
      TrailLeads(s, i, n, b, m - b);
      TrailLeads(s, i, n, a, m - b);
      RoundAndRound(s, i, n, a, b, m - (b - a));
    }
  }

  /**
   * A chain that has not ended after as many hops as there are inodes has visited one of them twice,
   * and no amount of further hops ends it.
   */
  lemma NeverEnds(s: State, i: int)
    requires s.Shape() && Resolve(s, i) == OutOfFuel
    ensures exists a, b :: 0 <= a < b <= |s.inodes| && Trail(s, i, |s.inodes|)[a] == Trail(s, i, |s.inodes|)[b]
    ensures forall m: nat :: Follow(s, i, m) == OutOfFuel
  {
    var n := |s.inodes|;
    var t := Trail(s, i, n);
    forall k | 0 <= k < |t| ensures 0 <= t[k] < n {
      TrailLeads(s, i, n, k, 0);
    }
    if forall j, k :: 0 <= j < k < |t| ==> t[j] != t[k] {
      DistinctCard(t, n);
      assert false;
    }
    var a, b :| 0 <= a < b < |t| && t[a] == t[b];
    forall m: nat ensures Follow(s, i, m) == OutOfFuel {
      RoundAndRound(s, i, n, a, b, m);
    }
  }

  /** Resolve is the recursion of get_path_recursive, with no bound left in it. */
  lemma ResolveUnfolds(s: State, i: int)
    requires s.Shape() && IsLink(s, i) && LinkName(s, i).Some?
    ensures Resolve(s, i) == Resolve(s, Hop(s, i))
  {
    var n := |s.inodes|;
    assert Follow(s, i, n + 1) == Follow(s, Hop(s, i), n);
    if Resolve(s, i) == OutOfFuel {
      NeverEnds(s, i);
    } else {
      MoreFuel(s, i, n, n + 1);
    }
  }

  /** A bounded resolver agrees with get_path_recursive exactly on the chains that end within its bound. */
  lemma BoundedResolver(s: State, i: int, fuel: nat)
    requires s.Shape()
    ensures Follow(s, i, fuel) == Resolve(s, i) <==> Follow(s, i, fuel) != OutOfFuel || Resolve(s, i) == OutOfFuel
    ensures fuel >= |s.inodes| ==> Follow(s, i, fuel) == Resolve(s, i)
  {
    if Resolve(s, i) == OutOfFuel {
      NeverEnds(s, i);
    } else if fuel >= |s.inodes| {
      MoreFuel(s, i, |s.inodes|, fuel);
    } else if Follow(s, i, fuel) != OutOfFuel {
      MoreFuel(s, i, fuel, |s.inodes|);
    }
  }

  // ---- late binding ----

  lemma NothingResolves(s: State)
    requires s.Shape()
    ensures Resolve(s, -1) == Ends(-1)
  {
  }

  /** Opening a link is opening the path stored in it, while that path is bound or nothing is to be created. */
  lemma OpenThroughLink(s: State, path: CString, mode: Mode)
    requires Inv(s) && Lookup(s, path) != -1 && IsLink(s, Lookup(s, path))
    ensures var text := LinkText(s, Lookup(s, path));
            && text.Some?
            && (Lookup(s, text.value) != -1 || !mode.create ==> TfsOpen(s, path, mode) == TfsOpen(s, text.value, mode))
            && (Lookup(s, text.value) == -1 ==> TfsOpen(s, path, mode) == Done(s, -1, []))
  {
    hide Inv, Resolve, LinkText, LinkName, FindInDir, Truncate, AddHandle;
    InvMounted(s);
    var i := Lookup(s, path);
    FoundIsLive(s, path[1..]);
    LiveLinkName(s, i);
    ResolveUnfolds(s, i);
    NothingResolves(s);
    var text := LinkText(s, i).value;
    if Lookup(s, text) != -1 {
      FoundIsLive(s, text[1..]);
    }
  }

  lemma LinkOwns(s: State, i: int)
    requires Inv(s) && s.Live(i) && IsLink(s, i)
    ensures LinkOk(s, i) && Owns(s, i, s.inodes[i].block)
  {
    assert SizeOk(s, i);
  }

  /** Bytes stored in a free block, or in another inode's, change no link's path. */
  lemma StoredElsewhere(s: State, t: State, j: int, b: int, offset: nat, bytes: seq<Byte>, i: int)
    requires Inv(s) && s.Live(i) && IsLink(s, i) && s.ValidBlock(b) && offset + |bytes| <= s.blockSize
    requires i != j && (Owns(s, j, b) || !s.blockTaken[b])
    requires t.Shape() && t.blockSize == s.blockSize && |t.blockTaken| == |s.blockTaken|
    requires t.data == Store(s.data, s.Base(b) + offset, bytes) && t.ValidInum(i) && t.inodes[i] == s.inodes[i]
    ensures IsLink(t, i) && LinkText(t, i) == LinkText(s, i)
  {
    LinkOwns(s, i);
    hide LinkOk, LinkText, Store;
    LinksKept(s, t, b, offset, bytes, i);
  }

  lemma SymLinkText(s: State, target: CString, linkName: CString, i: int)
    requires Inv(s) && TfsSymLink(s, target, linkName).Done? && s.Live(i) && IsLink(s, i)
    ensures var t := TfsSymLink(s, target, linkName).state;
            t.Shape() && IsLink(t, i) && LinkText(t, i) == LinkText(s, i)
  {
    hide Inv, LinkText, Store, AddDirEntry;
    InvMounted(s);
    if Lookup(s, target) != -1 && CreateLink(s).1 != -1 {
      BoundPathFits(s, target);
      var (c, j) := CreateLink(s);
      StoredElsewhere(s, TfsSymLink(s, target, linkName).state, j, c.inodes[j].block, 0, target + [NUL], i);
    } else {
      SameLinkText(s, TfsSymLink(s, target, linkName).state, i);
    }
  }

  lemma SameLinkText(s: State, t: State, i: int)
    requires s.Shape() && t.Shape() && IsLink(s, i) && t.data == s.data
    requires t.blockSize == s.blockSize && |t.blockTaken| == |s.blockTaken|
    requires t.ValidInum(i) && t.inodes[i].kind == s.inodes[i].kind && t.inodes[i].block == s.inodes[i].block
    ensures IsLink(t, i) && LinkText(t, i) == LinkText(s, i)
  {
  }

  lemma WriteText(s: State, h: int, buffer: seq<Byte>, i: int)
    requires Inv(s) && TfsWrite(s, h, buffer).Done? && s.Live(i) && IsLink(s, i)
    ensures var t := TfsWrite(s, h, buffer).state; t.Shape() && IsLink(t, i) && LinkText(t, i) == LinkText(s, i)
  {
    hide LinksInv, BlocksInv, LinkText, Store;
    var t := TfsWrite(s, h, buffer).state;
    if t != s {
      var e := s.open[h];
      WriteStaysInBlock(s, e.offset, |buffer|);
      var b := t.inodes[e.inumber].block;
      if s.inodes[e.inumber].size > 0 {
        assert Owns(s, e.inumber, b);
      }
      StoredElsewhere(s, t, e.inumber, b, e.offset, buffer[..WriteLength(s, e.offset, |buffer|)], i);
    }
  }

  lemma UnlinkText(s: State, target: CString, i: int)
    requires Inv(s) && TfsUnlink(s, target).Done? && s.Live(i) && IsLink(s, i)
    ensures var t := TfsUnlink(s, target).state; t.Shape() && IsLink(t, i) && LinkText(t, i) == LinkText(s, i)
  {
    hide Inv, LinkText, ClearDirEntry;
    InvMounted(s);
    SameLinkText(s, TfsUnlink(s, target).state, i);
  }

  /** tfs_open changes at most the size of a live inode, and no byte. */
  lemma OpenKeepsInode(s: State, path: CString, mode: Mode, i: int)
    requires s.Mounted() && TfsOpen(s, path, mode).Done? && s.Live(i)
    ensures var t := TfsOpen(s, path, mode).state;
            && t.Shape() && t.blockSize == s.blockSize && |t.blockTaken| == |s.blockTaken| && t.data == s.data
            && t.ValidInum(i) && t.inodes[i].(size := 0) == s.inodes[i].(size := 0)
  {
    if Lookup(s, path) >= 0 {
      OpenInodeKeeps(s, Lookup(s, path), mode);
    }
  }

  /** As long as a link lives, no call changes the path stored in it. */
  lemma StepText(s: State, c: Call, i: int)
    requires Inv(s) && Step(s, c).Done? && s.Live(i) && IsLink(s, i)
    ensures var t := Step(s, c).state; t.Shape() && IsLink(t, i) && LinkText(t, i) == LinkText(s, i)
  {
    match c
    case Open(path, mode) =>
      OpenKeepsInode(s, path, mode, i);
      assert TfsOpen(s, path, mode).state.inodes[i].(size := 0).block == s.inodes[i].block;
    case SymLink(target, linkName) => SymLinkText(s, target, linkName, i);
    case Write(h, buffer) => WriteText(s, h, buffer, i);
    case Unlink(target) => UnlinkText(s, target, i);
    case _ =>
  }

  /** Over a run, as long as link i lives, it stores the path it was given. */
  lemma {:induction false} TextAlways(
      p: Params, memory: seq<Byte>, ss: seq<State>, cs: seq<Call>, i: int, a: nat, b: nat)
    requires Run(ss, cs) && Starts(ss[0], p, memory) && a <= b < |ss|
    requires forall j :: 0 <= j < b ==> KeepsOpenFiles(ss[j], cs[j])
    requires forall j :: a <= j < b ==> ss[j].Shape() && ss[j].Live(i)
    requires ss[a].Shape() && IsLink(ss[a], i)
    ensures ss[b].Shape() && IsLink(ss[b], i) && LinkText(ss[b], i) == LinkText(ss[a], i)
    decreases b
  {
    hide Starts, KeepsOpenFiles, Inv, LinkText, IsLink, Step;
    if a < b {
      TextAlways(p, memory, ss, cs, i, a, b - 1);
      InvAlways(p, memory, ss, cs, b - 1);
      StepText(ss[b - 1], cs[b - 1], i);
    }
  }

  /**
   * Late binding: a link made at time a and still bound to `path` at time b opens, at time b, exactly
   * what its stored target path opens at time b. It fails while the target is absent, even where opening
   * that path itself would create a file, and works again as soon as the target has been created anew.
   */
  lemma LateBinding(
      p: Params, memory: seq<Byte>, ss: seq<State>, cs: seq<Call>, path: CString, mode: Mode, a: nat, b: nat)
    requires Run(ss, cs) && Starts(ss[0], p, memory) && a <= b < |ss|
    requires forall j :: 0 <= j < b ==> KeepsOpenFiles(ss[j], cs[j])
    requires Lookup(ss[b], path) != -1
    requires forall j :: a <= j < b ==> ss[j].Shape() && ss[j].Live(Lookup(ss[b], path))
    requires ss[a].Shape() && IsLink(ss[a], Lookup(ss[b], path)) && LinkText(ss[a], Lookup(ss[b], path)).Some?
    ensures ss[b].Mounted()
    ensures var text := LinkText(ss[a], Lookup(ss[b], path)).value;
            TfsOpen(ss[b], path, mode)
            == if Lookup(ss[b], text) == -1 then Done(ss[b], -1, []) else TfsOpen(ss[b], text, mode)
  {
    hide Starts, KeepsOpenFiles, Inv, LinkText, TfsOpen, Step;
    InvAlways(p, memory, ss, cs, b);
    InvMounted(ss[b]);
    TextAlways(p, memory, ss, cs, Lookup(ss[b], path), a, b);
    OpenThroughLink(ss[b], path, mode);
  }

  // ---- acyclicity of runs without unlink ----

  predicate HopsDown(s: State, i: int)
    requires s.Shape() && IsLink(s, i)
  {
    LinkName(s, i).Some? && 0 <= Hop(s, i) < i
  }

  /**
   * Nothing has ever been unlinked: inodes and slots fill up from the front, so inumbers are in order of
   * creation and every link leads to an older inode.
   */
  ghost predicate Ordered(s: State)
    requires s.Shape()
  {
    InodesInOrder(s.inodeTaken) && SlotsInOrder(s.dir) && forall i :: s.Live(i) && IsLink(s, i) ==> HopsDown(s, i)
  }

  predicate InodesInOrder(taken: seq<bool>) { forall i, j :: 0 <= i < j < |taken| && taken[j] ==> taken[i] }

  predicate SlotsInOrder(dir: seq<DirEntry>) {
    forall j, k :: 0 <= j < k < |dir| && dir[k].inumber != -1 ==> dir[j].inumber != -1
  }

  /** Without gaps in the directory, a binding once made is never shadowed. */
  lemma AddKeepsBinding(s: State, name: CString, i: int, other: CString)
    requires s.Shape() && Ordered(s) && i != -1 && FindInDir(s.dir, other) != -1
    ensures FindInDir(AddDirEntry(s.dir, name, i), other) == FindInDir(s.dir, other)
  {
    if CanAdd(s.dir, name) {
      AddBinds(s.dir, name, i, other);
    }
  }

  /** Old links hop as before when the directory has grown and their texts are unchanged. */
  lemma HopKept(s: State, t: State, name: CString, i: int, k: int)
    requires Inv(s) && Ordered(s) && s.Live(k) && IsLink(s, k) && i != -1
    requires t.Shape() && IsLink(t, k) && LinkOk(t, k) && LinkText(t, k) == LinkText(s, k)
    requires t.dir == s.dir || t.dir == AddDirEntry(s.dir, name, i)
    ensures HopsDown(t, k)
  {
    LinkNameIs(t, k);
    LinkNameIs(s, k);
    assert HopsDown(s, k);
    AddKeepsBinding(s, name, i, LinkName(s, k).value);
  }

  lemma GrowsInOrder(s: State, name: CString, i: int, t: State)
    requires s.Shape() && t.Shape() && Grows(s, name, i, t) && InodesInOrder(s.inodeTaken) && SlotsInOrder(s.dir)
    ensures InodesInOrder(t.inodeTaken) && SlotsInOrder(t.dir)
  {
  }

  /** The name and inode a call may enter in the directory. */
  function Entered(s: State, c: Call): (CString, int)
    requires s.Mounted()
  {
    match c
    case Open(path, mode) => (if |path| > 0 then path[1..] else [], FirstFree(s.inodeTaken))
    case SymLink(target, linkName) => (if |linkName| > 0 then linkName[1..] else [], CreateLink(s).1)
    case Link(target, linkName) => (if |linkName| > 0 then linkName[1..] else [], Lookup(s, target))
    case _ => ([], -1)
  }

  /** One step of growth: at most one entry more, and at most one inode more. */
  ghost predicate Grows(s: State, name: CString, i: int, t: State)
    requires s.Shape() && t.Shape()
  {
    && (t.dir == s.dir || (i != -1 && t.dir == AddDirEntry(s.dir, name, i)))
    && (t.inodeTaken == s.inodeTaken ||
        (FirstFree(s.inodeTaken) != -1 && t.inodeTaken == s.inodeTaken[FirstFree(s.inodeTaken) := true]))
  }

  lemma OpenGrows(s: State, path: CString, mode: Mode)
    requires s.Mounted() && TfsOpen(s, path, mode).Done?
    ensures var (name, i) := Entered(s, Open(path, mode)); Grows(s, name, i, TfsOpen(s, path, mode).state)
  {
    hide OpenInode;
    if Lookup(s, path) >= 0 {
      OpenInodeKeeps(s, Lookup(s, path), mode);
    } else if ValidPath(path) && mode.create && FirstFree(s.inodeTaken) != -1 {
      assert s.inodeTaken == s.inodeTaken[FirstFree(s.inodeTaken) := true][FirstFree(s.inodeTaken) := false];
    }
  }

  /**
   * Without unlink a call leaves the directory alone or fills its first free slot, and takes the first free inode
   * or none.
   */
  lemma StepGrows(s: State, c: Call)
    requires s.Mounted() && Step(s, c).Done? && !c.Unlink?
    ensures var (name, i) := Entered(s, c); Grows(s, name, i, Step(s, c).state)
  {
    hide TfsOpen;
    if c.Open? {
      OpenGrows(s, c.path, c.mode);
    }
  }

  lemma OrderedLive(s: State, k: int)
    requires s.Shape() && Ordered(s) && s.Live(k) && FirstFree(s.inodeTaken) != -1
    ensures k < FirstFree(s.inodeTaken)
  {
  }

  /** A link made by tfs_sym_link leads to an inode that existed before it. */
  lemma NewLinkHopsDown(s: State, target: CString, linkName: CString)
    requires Inv(s) && Ordered(s) && linkName != [] && Lookup(s, target) != -1 && CreateLink(s).1 != -1
    ensures var t := TfsSymLink(s, target, linkName);
            t.Done? && t.state.Shape() && IsLink(t.state, CreateLink(s).1) && HopsDown(t.state, CreateLink(s).1)
  {
    hide Inv, Ordered, TfsSymLink, AddDirEntry, FindInDir, LinkText, LinkName;
    InvMounted(s);
    var i := CreateLink(s).1;
    BoundPathFits(s, target);
    SymLinkMakes(s, target, linkName);
    LiveLinkName(TfsSymLink(s, target, linkName).state, i);
    FoundIsLive(s, target[1..]);
    OrderedLive(s, Lookup(s, target));
    AddKeepsBinding(s, linkName[1..], i, target[1..]);
  }

  lemma LinkHopsDown(s: State, c: Call, k: int)
    requires Inv(s) && Ordered(s) && Step(s, c).Done? && !c.Unlink?
    requires Step(s, c).state.Shape() && Step(s, c).state.Live(k) && IsLink(Step(s, c).state, k)
    ensures HopsDown(Step(s, c).state, k)
  {
    hide Step, HopsDown, LinkText, Inv, AddDirEntry, Ordered;
    InvMounted(s);
    var t := Step(s, c).state;
    if s.Live(k) {
      OldLink(s, c, k);
      StepInv(s, c);
      StepText(s, c, k);
      LiveLinkName(t, k);
      StepGrows(s, c);
      var (name, i) := Entered(s, c);
      HopKept(s, t, name, if i == -1 then 0 else i, k);
    } else {
      NewInode(s, c, k);
      NewLinkHopsDown(s, c.target, c.linkName);
      assert t == TfsSymLink(s, c.target, c.linkName).state by { SymLinkStep(s, c); }
    }
  }

  lemma SymLinkStep(s: State, c: Call)
    requires s.Mounted() && c.SymLink?
    ensures Step(s, c) == TfsSymLink(s, c.target, c.linkName)
  {
  }

  lemma StepOrdered(s: State, c: Call)
    requires Inv(s) && Ordered(s) && Step(s, c).Done? && !c.Unlink?
    ensures Inv(Step(s, c).state) && Ordered(Step(s, c).state)
  {
    hide Step, HopsDown, Inv, InodesInOrder, SlotsInOrder, Grows, IsLink;
    InvMounted(s);
    StepInv(s, c);
    var t := Step(s, c).state;
    InvMounted(t);
    StepGrows(s, c);
    GrowsInOrder(s, Entered(s, c).0, Entered(s, c).1, t);
    forall k | t.Live(k) && IsLink(t, k) ensures HopsDown(t, k) {
      LinkHopsDown(s, c, k);
    }
  }

  lemma OpenKeepsKind(s: State, path: CString, mode: Mode, k: int)
    requires s.Mounted() && TfsOpen(s, path, mode).Done? && s.Live(k)
    ensures TfsOpen(s, path, mode).state.inodes[k].kind == s.inodes[k].kind
  {
    hide TfsOpen;
    OpenKeepsInode(s, path, mode, k);
    assert TfsOpen(s, path, mode).state.inodes[k].(size := 0).kind == s.inodes[k].(size := 0).kind;
  }

  lemma SymLinkKeepsKind(s: State, target: CString, linkName: CString, k: int)
    requires s.Mounted() && TfsSymLink(s, target, linkName).Done? && s.Live(k)
    ensures TfsSymLink(s, target, linkName).state.inodes[k].kind == s.inodes[k].kind
  {
    hide AddDirEntry, Store;
  }

  lemma WriteKeepsKind(s: State, h: int, buffer: seq<Byte>, k: int)
    requires s.Mounted() && TfsWrite(s, h, buffer).Done? && s.Live(k)
    ensures TfsWrite(s, h, buffer).state.inodes[k].kind == s.inodes[k].kind
  {
    hide Store;
  }

  lemma StepKeepsKind(s: State, c: Call, k: int)
    requires s.Mounted() && Step(s, c).Done? && s.Live(k)
    ensures Step(s, c).state.ValidInum(k) && Step(s, c).state.inodes[k].kind == s.inodes[k].kind
  {
    hide TfsOpen, TfsSymLink, TfsWrite;
    match c
    case Open(path, mode) => OpenKeepsKind(s, path, mode, k);
    case SymLink(target, linkName) => SymLinkKeepsKind(s, target, linkName, k);
    case Write(h, buffer) => WriteKeepsKind(s, h, buffer, k);
    case _ =>
  }

  lemma OldLink(s: State, c: Call, k: int)
    requires Inv(s) && Step(s, c).Done? && !c.Unlink? && s.Live(k) && IsLink(Step(s, c).state, k)
    ensures IsLink(s, k)
  {
    hide Inv, Step;
    InvMounted(s);
    StepKeepsKind(s, c, k);
  }

  lemma NewInode(s: State, c: Call, k: int)
    requires Inv(s) && Step(s, c).Done? && !c.Unlink? && !s.Live(k)
    requires Step(s, c).state.Shape() && Step(s, c).state.Live(k) && IsLink(Step(s, c).state, k)
    ensures c.SymLink? && c.linkName != [] && Lookup(s, c.target) != -1 && CreateLink(s).1 == k
  {
    if c.Open? && Lookup(s, c.path) >= 0 {
      OpenInodeKeeps(s, Lookup(s, c.path), c.mode);
    }
  }

  lemma OrderedHop(s: State, i: int)
    requires Inv(s) && Ordered(s) && s.Live(i) && IsLink(s, i)
    ensures LinkName(s, i).Some? && 0 <= Hop(s, i) < i && s.Live(Hop(s, i))
  {
    assert HopsDown(s, i);
    FoundIsLive(s, LinkName(s, i).value);
  }

  lemma {:induction false} OrderedEnds(s: State, i: int, fuel: nat)
    requires Inv(s) && Ordered(s) && (i == -1 || s.Live(i)) && i < fuel
    ensures Follow(s, i, fuel).Ends?
    decreases fuel
  {
    hide Inv, Ordered, LinkName, FindInDir;
    InvMounted(s);
    if i != -1 && IsLink(s, i) {
      OrderedHop(s, i);
      OrderedEnds(s, Hop(s, i), fuel - 1);
    }
  }

  lemma OrderedOpens(s: State, path: CString, mode: Mode)
    requires Inv(s) && Ordered(s)
    ensures TfsOpen(s, path, mode).Done?
  {
    OpenInv(s, path, mode);
    if Lookup(s, path) >= 0 {
      FoundIsLive(s, path[1..]);
      OrderedEnds(s, Lookup(s, path), |s.inodes|);
    }
  }

  /** In a run without unlink every chain of links ends, so every tfs_open returns. */
  lemma {:induction false} AcyclicAlways(p: Params, memory: seq<Byte>, ss: seq<State>, cs: seq<Call>, k: nat)
    requires Run(ss, cs) && Starts(ss[0], p, memory) && k < |ss|
    requires forall j :: 0 <= j < k ==> !cs[j].Unlink?
    ensures Inv(ss[k]) && Ordered(ss[k])
    ensures forall i :: ss[k].Live(i) ==> Resolve(ss[k], i).Ends?
    ensures forall path, mode :: TfsOpen(ss[k], path, mode).Done?
  {
    hide Starts, Inv, Ordered, Step, Resolve, TfsOpen;
    if k == 0 {
      StartsOrdered(p, memory, ss[0]);
    } else {
      AcyclicAlways(p, memory, ss, cs, k - 1);
      StepOrdered(ss[k - 1], cs[k - 1]);
    }
    InvMounted(ss[k]);
    forall i | ss[k].Live(i) ensures Resolve(ss[k], i).Ends? {
      OrderedResolves(ss[k], i);
    }
    forall path, mode ensures TfsOpen(ss[k], path, mode).Done? {
      OrderedOpens(ss[k], path, mode);
    }
  }

  lemma StartsOrdered(p: Params, memory: seq<Byte>, s: State)
    requires Starts(s, p, memory)
    ensures Inv(s) && Ordered(s)
  {
    InitInv(p, memory);
  }

  lemma OrderedResolves(s: State, i: int)
    requires Inv(s) && Ordered(s) && s.Live(i)
    ensures Resolve(s, i).Ends?
  {
    OrderedEnds(s, i, |s.inodes|);
  }

  /** Without unlink no call rebinds a name. */
  lemma BindingKept(s: State, c: Call, name: CString)
    requires Inv(s) && Ordered(s) && Step(s, c).Done? && !c.Unlink? && FindInDir(s.dir, name) != -1
    ensures FindInDir(Step(s, c).state.dir, name) == FindInDir(s.dir, name)
  {
    StepGrows(s, c);
    var (entered, i) := Entered(s, c);
    if i != -1 {
      AddKeepsBinding(s, entered, i, name);
    }
  }

  /** In a run without unlink a name keeps the inode it was first bound to. */
  lemma {:induction false} BindingStable(
      p: Params, memory: seq<Byte>, ss: seq<State>, cs: seq<Call>, name: CString, a: nat, b: nat)
    requires Run(ss, cs) && Starts(ss[0], p, memory) && a <= b < |ss|
    requires forall j :: 0 <= j < b ==> !cs[j].Unlink?
    requires FindInDir(ss[a].dir, name) != -1
    ensures FindInDir(ss[b].dir, name) == FindInDir(ss[a].dir, name)
    decreases b
  {
    hide Starts, FindInDir, Inv, Ordered, Step;
    if a < b {
      BindingStable(p, memory, ss, cs, name, a, b - 1);
      AcyclicAlways(p, memory, ss, cs, b - 1);
      BindingKept(ss[b - 1], cs[b - 1], name);
    }
  }

  // ---- a cycle that unlink makes possible ----

  lemma PathByName(p: CString, q: CString)
    requires ValidPath(p) && ValidPath(q) && p[1..] == q[1..]
    ensures p == q
  {
    assert p == [SLASH] + p[1..] && q == [SLASH] + q[1..];
  }

  /** tfs_sym_link of a bound target, with room for the link: it stores its target. */
  lemma SymLinkMakes(s: State, target: CString, linkName: CString)
    requires Inv(s) && linkName != [] && Lookup(s, target) != -1 && CreateLink(s).1 != -1
    ensures var r := TfsSymLink(s, target, linkName); var i := CreateLink(s).1;
            && r.Done? && r.ret == 0 && Inv(r.state) && r.state.Live(i)
            && r.state.dir == AddDirEntry(s.dir, linkName[1..], i)
            && IsLink(r.state, i) && LinkText(r.state, i) == Some(target)
  {
    BoundPathFits(s, target);
    SymLinkInv(s, target, linkName);
    StoreLinkInv(s, target);
    assert LinkText(TfsSymLink(s, target, linkName).state, CreateLink(s).1)
           == LinkText(StoreLink(s, target), CreateLink(s).1);
  }

  /** It binds the link's name and disturbs no other. */
  lemma SymLinkBinds(s: State, target: CString, linkName: CString)
    requires Inv(s) && UniqueNames(s.dir) && ValidPath(linkName) && Lookup(s, target) != -1 && Lookup(s, linkName) == -1
    requires CanAdd(s.dir, linkName[1..]) && CreateLink(s).1 != -1
    ensures var t := AddDirEntry(s.dir, linkName[1..], CreateLink(s).1);
            && UniqueNames(t) && FindInDir(t, linkName[1..]) == CreateLink(s).1
            && forall other :: ValidPath(other) && other != linkName ==>
               FindInDir(t, other[1..]) == FindInDir(s.dir, other[1..])
  {
    AddExtends(s.dir, linkName[1..], CreateLink(s).1);
    AddUniqueIff(s.dir, linkName[1..], CreateLink(s).1);
    forall other | ValidPath(other) && other != linkName ensures other[1..] != linkName[1..] {
      if other[1..] == linkName[1..] {
        PathByName(other, linkName);
      }
    }
  }

  /** tfs_unlink of a bound path: it is unbound, and no other name is disturbed. */
  lemma UnlinkUnbinds(s: State, target: CString)
    requires Inv(s) && UniqueNames(s.dir) && Lookup(s, target) != -1
    ensures var r := TfsUnlink(s, target);
            && r.Done? && r.ret == 0 && NamesInv(r.state) && UniqueNames(r.state.dir)
            && r.state.dir == ClearDirEntry(s.dir, target[1..])
            && (Inv(r.state) <==> !LosesOpenFile(s, target))
            && Lookup(r.state, target) == -1
            && forall other :: other != target ==> Lookup(r.state, other) == Lookup(s, other)
  {
    hide BlocksInv, LinksInv, HandlesInv, LosesOpenFile, ClearDirEntry, UniqueNames;
    UnlinkKeepsInvIff(s, target);
    UnlinkNames(s, target);
    ClearRemoves(s, target[1..]);
    var t := TfsUnlink(s, target).state;
    forall other | other != target ensures Lookup(t, other) == Lookup(s, other) {
      if ValidPath(other) && other[1..] == target[1..] {
        PathByName(other, target);
      }
    }
  }

  /** Unlinking frees what the next link needs: a slot and an inode. */
  lemma UnlinkMakesRoom(s: State, target: CString)
    requires Inv(s) && UniqueNames(s.dir) && Lookup(s, target) != -1 && !LosesOpenFile(s, target)
    requires s.inodes[Lookup(s, target)].count == 1
    ensures TfsUnlink(s, target).Done?
    ensures var t := TfsUnlink(s, target).state;
            CanAdd(t.dir, target[1..]) && (FreeBlocks(s) != {} ==> CreateLink(t).1 != -1)
  {
    FoundIsLive(s, target[1..]);
    UnlinkUnbinds(s, target);
    BoundPathFits(s, target);
    NameSlotIsFindSlot(s, target[1..]);
    var t := TfsUnlink(s, target).state;
    assert t.dir[FindSlot(s.dir, target[1..])].inumber == -1;
    assert !t.inodeTaken[Lookup(s, target)];
    if b :| b in FreeBlocks(s) {
      assert !t.blockTaken[b];
    }
  }

  lemma {:induction false} TwoCycle(s: State, i: int, k: int, fuel: nat)
    requires s.Shape() && IsLink(s, i) && IsLink(s, k) && LinkName(s, i).Some? && LinkName(s, k).Some?
    requires Hop(s, i) == k && Hop(s, k) == i
    ensures Follow(s, i, fuel) == OutOfFuel
    decreases fuel
  {
    if fuel > 0 {
      TwoCycle(s, k, i, fuel - 1);
    }
  }

  lemma CrossedLinks(s: State, a: CString, b: CString)
    requires Inv(s) && Lookup(s, a) != -1 && Lookup(s, b) != -1 && IsLink(s, Lookup(s, a)) && IsLink(s, Lookup(s, b))
    requires LinkText(s, Lookup(s, a)) == Some(b) && LinkText(s, Lookup(s, b)) == Some(a)
    ensures forall mode :: TfsOpen(s, a, mode) == Diverges
  {
    FoundIsLive(s, a[1..]);
    FoundIsLive(s, b[1..]);
    LiveLinkName(s, Lookup(s, a));
    LiveLinkName(s, Lookup(s, b));
    TwoCycle(s, Lookup(s, a), Lookup(s, b), |s.inodes|);
  }

  /** Link b, whose target a was unlinked, and now link a to b. */
  lemma LinkBack(s: State, a: CString, b: CString)
    requires Inv(s) && UniqueNames(s.dir) && ValidPath(a) && Lookup(s, a) == -1 && Lookup(s, b) != -1
    requires IsLink(s, Lookup(s, b)) && LinkText(s, Lookup(s, b)) == Some(a)
    requires CanAdd(s.dir, a[1..]) && CreateLink(s).1 != -1
    ensures var r := TfsSymLink(s, b, a);
            r.Done? && r.ret == 0 && r.state.Mounted() && forall mode :: TfsOpen(r.state, a, mode) == Diverges
  {
    SymLinkMakes(s, b, a);
    SymLinkBinds(s, b, a);
    FoundIsLive(s, b[1..]);
    SymLinkText(s, b, a, Lookup(s, b));
    CrossedLinks(TfsSymLink(s, b, a).state, a, b);
  }

  /**
   * With unlink, cycles are within reach: link b to a, unlink a, link a to b. All three calls return 0
   * whenever there is room for them, and after that tfs_open of a never returns.
   */
  lemma CycleReachable(s: State, a: CString, b: CString)
    requires Inv(s) && UniqueNames(s.dir) && ValidPath(b) && a != b
    requires Lookup(s, a) != -1 && s.inodes[Lookup(s, a)].count == 1 && !LosesOpenFile(s, a) && Lookup(s, b) == -1
    requires CanAdd(s.dir, b[1..]) && FirstFree(s.inodeTaken) != -1 && 2 <= |FreeBlocks(s)|
    ensures var r1 := TfsSymLink(s, a, b);
            && r1.Done? && r1.ret == 0 && r1.state.Mounted()
            && var r2 := TfsUnlink(r1.state, a);
            && r2.Done? && r2.ret == 0 && r2.state.Mounted()
            && var r3 := TfsSymLink(r2.state, b, a);
            && r3.Done? && r3.ret == 0 && r3.state.Mounted()
            && forall mode :: TfsOpen(r3.state, a, mode) == Diverges
  {
    var s1 := FirstLink(s, a, b);
    UnlinkUnbinds(s1, a);
    UnlinkMakesRoom(s1, a);
    FoundIsLive(s1, b[1..]);
    var i := Lookup(s1, b);
    UnlinkText(s1, a, i);
    var s2 := TfsUnlink(s1, a).state;
    assert Lookup(s2, b) == i;
    LinkBack(s2, a, b);
  }

  lemma BlockToSpare(s: State)
    requires s.Shape() && FirstFree(s.inodeTaken) != -1 && 2 <= |FreeBlocks(s)|
    ensures CreateLink(s).1 != -1 && FreeBlocks(CreateLink(s).0) != {}
  {
    var used := FirstFree(s.blockTaken);
    assert |FreeBlocks(s) - {used}| > 0;
    var free: int :| free in FreeBlocks(s) - {used};
    assert free in FreeBlocks(CreateLink(s).0);
  }

  /** tfs_sym_link leaves inodes in use and open files alone. */
  lemma SymLinkLeaves(s: State, target: CString, linkName: CString, k: int)
    requires Inv(s) && linkName != [] && Lookup(s, target) != -1 && CreateLink(s).1 != -1 && s.Live(k)
    ensures TfsSymLink(s, target, linkName).Done?
    ensures var t := TfsSymLink(s, target, linkName).state;
            && t.Shape() && t.ValidInum(k) && t.inodes[k] == s.inodes[k] && t.open == s.open
            && t.openTaken == s.openTaken
            && t.blockTaken == CreateLink(s).0.blockTaken
  {
    hide AddDirEntry, Store, BlocksInv, LinksInv, HandlesInv;
    BoundPathFits(s, target);
  }

  lemma FirstLink(s: State, a: CString, b: CString) returns (t: State)
    requires Inv(s) && UniqueNames(s.dir) && ValidPath(b) && a != b
    requires Lookup(s, a) != -1 && s.inodes[Lookup(s, a)].count == 1 && !LosesOpenFile(s, a) && Lookup(s, b) == -1
    requires CanAdd(s.dir, b[1..]) && FirstFree(s.inodeTaken) != -1 && 2 <= |FreeBlocks(s)|
    ensures TfsSymLink(s, a, b).Done? && TfsSymLink(s, a, b).ret == 0 && t == TfsSymLink(s, a, b).state
    ensures Inv(t) && UniqueNames(t.dir) && Lookup(t, a) == Lookup(s, a) && Lookup(t, b) != -1
    ensures t.inodes[Lookup(t, a)].count == 1 && !LosesOpenFile(t, a) && FreeBlocks(t) != {}
    ensures IsLink(t, Lookup(t, b)) && LinkText(t, Lookup(t, b)) == Some(a)
  {
    hide Inv, UniqueNames, TfsSymLink, CreateLink, AddDirEntry, FindInDir, LinkText;
    InvMounted(s);
    FoundIsLive(s, a[1..]);
    BlockToSpare(s);
    SymLinkMakes(s, a, b);
    SymLinkBinds(s, a, b);
    SymLinkLeaves(s, a, b, Lookup(s, a));
    t := TfsSymLink(s, a, b).state;
    InvMounted(t);
    assert FreeBlocks(t) == FreeBlocks(CreateLink(s).0);
  }
}
