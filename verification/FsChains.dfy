/**
 * When every tfs_open returns: the names that links pass through, and the calls that close a circle of
 * links. A chain of links is seen as a chain of names here, so that nothing need be assumed of names that
 * two slots bear or of links that no slot names.
 */
module FsChains {
  import opened CTypes
  import opened FsState
  import opened FsOperations
  import opened FsAbstract
  import opened FsInvariant
  import opened FsRuns
  import opened FsDirectory
  import opened FsLinks
  import opened FsRefinement

  // ---- names ----

  /** The name that the link bound to this name leads to. */
  function Next(s: State, name: CString): Option<CString>
    requires s.Shape()
  {
    NextOf(s, FindInDir(s.dir, name))
  }

  /** The name that inode i leads to, if it is a link. */
  function NextOf(s: State, i: int): Option<CString>
    requires s.Shape()
  {
    if i != -1 && IsLink(s, i) then LinkName(s, i) else None
  }

  /** The chain from this name ends within so many hops. */
  predicate EndsIn(s: State, name: CString, hops: nat)
    requires s.Shape()
    decreases hops
  {
    Next(s, name).None? || (hops > 0 && EndsIn(s, Next(s, name).value, hops - 1))
  }

  /** The chain from `from` passes by `name` within so many hops. */
  predicate Visits(s: State, from: CString, name: CString, hops: nat)
    requires s.Shape()
    decreases hops
  {
    from == name || (hops > 0 && Next(s, from).Some? && Visits(s, Next(s, from).value, name, hops - 1))
  }

  /** From every name get_path_recursive ends. */
  ghost predicate ChainsEnd(s: State)
    requires s.Shape()
  {
    forall name :: EndsIn(s, name, |s.inodes|)
  }

  // ---- names and inodes ----

  lemma {:induction false} EndsInIff(s: State, name: CString, hops: nat)
    requires Inv(s)
    ensures EndsIn(s, name, hops) <==> Follow(s, FindInDir(s.dir, name), hops).Ends?
    decreases hops
  {
    hide Inv, LinkName, FindInDir;
    InvMounted(s);
    var i := FindInDir(s.dir, name);
    if i != -1 {
      FoundIsLive(s, name);
      if IsLink(s, i) {
        LiveHop(s, i);
        if hops > 0 {
          EndsInIff(s, LinkName(s, i).value, hops - 1);
        }
      }
    }
  }

  lemma {:induction false} MoreHops(s: State, name: CString, hops: nat, more: nat)
    requires s.Shape() && EndsIn(s, name, hops) && hops <= more
    ensures EndsIn(s, name, more)
    decreases hops
  {
    hide Next;
    if Next(s, name).Some? {
      MoreHops(s, Next(s, name).value, hops - 1, more - 1);
    }
  }

  /** As many hops as there are inodes are enough. */
  lemma EnoughHops(s: State, name: CString, hops: nat)
    requires Inv(s) && EndsIn(s, name, hops)
    ensures EndsIn(s, name, |s.inodes|)
  {
    hide Inv, Follow, EndsIn, FindInDir;
    InvMounted(s);
    EndsInIff(s, name, hops);
    EndsInIff(s, name, |s.inodes|);
    BoundedResolver(s, FindInDir(s.dir, name), hops);
  }

  lemma {:induction false} VisitsWhileItLasts(s: State, from: CString, name: CString, hops: nat, length: nat)
    requires s.Shape() && Visits(s, from, name, hops) && EndsIn(s, from, length)
    ensures Visits(s, from, name, length)
    decreases hops
  {
    hide Next;
    if from != name {
      VisitsWhileItLasts(s, Next(s, from).value, name, hops - 1, length - 1);
    }
  }

  // ---- one name is bound anew ----

  /** s and t lead from every name but one to the same name. */
  ghost predicate RebindsOnly(s: State, t: State, name: CString)
    requires s.Shape() && t.Shape()
  {
    forall n :: n != name ==> Next(t, n) == Next(s, n)
  }

  /** A chain that does not pass by the name ends as before. */
  lemma {:induction false} EndsUntouched(s: State, t: State, name: CString, from: CString, hops: nat)
    requires s.Shape() && t.Shape() && RebindsOnly(s, t, name)
    requires EndsIn(s, from, hops) && !Visits(s, from, name, hops)
    ensures EndsIn(t, from, hops)
    decreases hops
  {
    hide Next;
    if Next(s, from).Some? {
      EndsUntouched(s, t, name, Next(s, from).value, hops - 1);
    }
  }

  /** One that does ends if the chain from the name does. */
  lemma {:induction false} EndsByWayOf(s: State, t: State, name: CString, from: CString, hops: nat, length: nat)
    requires s.Shape() && t.Shape() && RebindsOnly(s, t, name)
    requires EndsIn(s, from, hops) && EndsIn(t, name, length)
    ensures EndsIn(t, from, hops + length)
    decreases hops
  {
    hide Next;
    if from == name {
      MoreHops(t, name, length, hops + length);
    } else if Next(s, from).Some? {
      EndsByWayOf(s, t, name, Next(s, from).value, hops - 1, length);
    }
  }

  /** From `from` to the name on the same way as before. */
  lemma {:induction false} ReachesName(s: State, t: State, name: CString, from: CString, hops: nat, length: nat)
    requires s.Shape() && t.Shape() && RebindsOnly(s, t, name)
    requires Visits(s, from, name, hops) && EndsIn(t, from, length)
    ensures EndsIn(t, name, length)
    decreases hops
  {
    hide Next;
    if from != name {
      ReachesName(s, t, name, Next(s, from).value, hops - 1, length - 1);
      MoreHops(t, name, length - 1, length);
    }
  }

  /** The new target's chain comes back to the name: it goes round for ever. */
  lemma {:induction false} Circle(s: State, t: State, name: CString, hops: nat, length: nat)
    requires s.Shape() && t.Shape() && RebindsOnly(s, t, name)
    requires Next(t, name).Some? && Visits(s, Next(t, name).value, name, hops)
    ensures !EndsIn(t, name, length)
    decreases length
  {
    hide Next;
    if length > 0 && EndsIn(t, name, length) {
      ReachesName(s, t, name, Next(t, name).value, hops, length - 1);
      Circle(s, t, name, hops, length - 1);
    }
  }

  /** The chain that begins with the new binding comes back to the name. */
  predicate ComesBack(s: State, next: Option<CString>, name: CString)
    requires s.Shape()
  {
    next.Some? && Visits(s, next.value, name, |s.inodes|)
  }

  /** Binding one name anew keeps all chains ending exactly when the new chain does not come back to the name. */
  lemma RebindingIff(s: State, t: State, name: CString)
    requires Inv(s) && Inv(t) && |t.inodes| == |s.inodes| && ChainsEnd(s) && RebindsOnly(s, t, name)
    ensures ChainsEnd(t) <==> !ComesBack(s, Next(t, name), name)
  {
    hide Inv, Next, EndsIn, Visits, RebindsOnly;
    InvMounted(s);
    InvMounted(t);
    if ComesBack(s, Next(t, name), name) {
      Circle(s, t, name, |s.inodes|, |s.inodes|);
    } else {
      NewChainEnds(s, t, name);
      forall from ensures EndsIn(t, from, |t.inodes|) {
        EndsByWayOf(s, t, name, from, |s.inodes|, |s.inodes| + 1);
        EnoughHops(t, from, |s.inodes| + (|s.inodes| + 1));
      }
    }
  }

  lemma NewChainEnds(s: State, t: State, name: CString)
    requires s.Shape() && t.Shape() && ChainsEnd(s) && RebindsOnly(s, t, name) && !ComesBack(s, Next(t, name), name)
    ensures EndsIn(t, name, |s.inodes| + 1)
  {
    hide Next;
    if Next(t, name).Some? {
      EndsUntouched(s, t, name, Next(t, name).value, |s.inodes|);
    }
  }

  /** A name that leads where it led before does not come back. */
  lemma OldChainEnds(s: State, name: CString)
    requires s.Shape() && ChainsEnd(s)
    ensures !ComesBack(s, Next(s, name), name)
  {
    hide Next, EndsIn;
    assert EndsIn(s, name, |s.inodes|);
    if ComesBack(s, Next(s, name), name) {
      Circle(s, s, name, |s.inodes|, |s.inodes|);
    }
  }

  // ---- the calls ----

  /** The name a call may bind anew. */
  function Rebound(c: Call): CString {
    match c
    case Open(path, _) => NameOf(path)
    case SymLink(_, linkName) => NameOf(linkName)
    case Link(_, linkName) => NameOf(linkName)
    case Unlink(target) => NameOf(target)
    case _ => []
  }

  /** tfs_sym_link makes its link and enters it where the name is found. */
  predicate BindsLink(s: State, target: CString, linkName: CString)
    requires s.Mounted()
  {
    && Lookup(s, target) != -1 && CreateLink(s).1 != -1
    && CanAdd(s.dir, NameOf(linkName)) && !Shadowed(s.dir, NameOf(linkName))
  }

  /**
   * The call closes a circle of links. tfs_sym_link does when it binds its name and the target's chain passes
   * by that name; tfs_unlink does when it uncovers a second slot of the name, and the link in it leads back.
   * The target's chain can be walked before the call.
   */
  predicate Closes(s: State, c: Call)
    requires s.Mounted()
  {
    match c
    case SymLink(target, linkName) =>
      BindsLink(s, target, linkName) && Visits(s, NameOf(target), NameOf(linkName), |s.inodes|)
    case Unlink(target) =>
      && Lookup(s, target) != -1
      && ComesBack(s, NextOf(s, FindInDir(ClearDirEntry(s.dir, NameOf(target)), NameOf(target))), NameOf(target))
    case _ => false
  }

  lemma SameText(s: State, t: State, i: int)
    requires s.Shape() && t.Shape() && IsLink(s, i) && IsLink(t, i) && LinkOk(s, i)
    requires s.SameSizes(t) && LinkText(t, i) == LinkText(s, i)
    ensures LinkName(t, i) == LinkName(s, i)
  {
    LinkNameIs(s, i);
    LinkNameIs(t, i);
  }

  /** An inode in use leads where it led. */
  lemma NextKept(s: State, c: Call, i: int)
    requires Inv(s) && Step(s, c).Done? && s.Live(i)
    ensures Step(s, c).state.Shape() && NextOf(Step(s, c).state, i) == NextOf(s, i)
  {
    hide Inv, Step, LinkText, LinkName;
    InvMounted(s);
    StepKeepsKind(s, c, i);
    if IsLink(s, i) {
      LiveLinkName(s, i);
      StepText(s, c, i);
      SameText(s, Step(s, c).state, i);
    }
  }

  /** What a call does to the directory. */
  lemma StepDir(s: State, c: Call)
    requires Inv(s) && Step(s, c).Done?
    ensures var t := Step(s, c).state;
            || t.dir == s.dir
            || (c.Unlink? && Lookup(s, c.target) != -1 && t.dir == ClearDirEntry(s.dir, Rebound(c)))
            || (!c.Unlink? && exists i :: i != -1 && t.dir == AddDirEntry(s.dir, Rebound(c), i))
  {
    hide Inv, TfsOpen, TfsSymLink, TfsLink, TfsWrite, TfsRead, AddDirEntry, ClearDirEntry;
    InvMounted(s);
    if c.Unlink? {
      UnlinkDir(s, c.target);
    } else {
      StepGrows(s, c);
      var (name, i) := FsLinks.Entered(s, c);
      assert Step(s, c).state.dir == s.dir || (i != -1 && Step(s, c).state.dir == AddDirEntry(s.dir, Rebound(c), i));
    }
  }

  lemma UnlinkDir(s: State, target: CString)
    requires s.Mounted() && TfsUnlink(s, target).Done?
    ensures TfsUnlink(s, target).state.dir
         == if Lookup(s, target) != -1 then ClearDirEntry(s.dir, NameOf(target)) else s.dir
  {
  }

  lemma OtherBinding(s: State, c: Call, n: CString)
    requires Inv(s) && Step(s, c).Done? && n != Rebound(c)
    ensures FindInDir(Step(s, c).state.dir, n) == FindInDir(s.dir, n)
  {
    hide Inv, Step, AddDirEntry, ClearDirEntry;
    InvMounted(s);
    StepDir(s, c);
    var t := Step(s, c).state;
    if t.dir != s.dir {
      if c.Unlink? {
        ClearOther(s.dir, Rebound(c), n);
      } else {
        var i :| i != -1 && t.dir == AddDirEntry(s.dir, Rebound(c), i);
        AddOther(s.dir, Rebound(c), i, n);
      }
    }
  }

  lemma AddOther(dir: seq<DirEntry>, name: CString, i: int, n: CString)
    requires i != -1 && n != name
    ensures FindInDir(AddDirEntry(dir, name, i), n) == FindInDir(dir, n)
  {
    if CanAdd(dir, name) {
      AddBinds(dir, name, i, n);
    }
  }

  /** From every name but the one a call binds anew, the chains lead where they led. */
  lemma StepRebindsOnly(s: State, c: Call)
    requires Inv(s) && Step(s, c).Done?
    ensures Step(s, c).state.Shape() && RebindsOnly(s, Step(s, c).state, Rebound(c))
  {
    hide Inv, Step, NextOf, FindInDir;
    InvMounted(s);
    var t := Step(s, c).state;
    forall n | n != Rebound(c) ensures Next(t, n) == Next(s, n) {
      OtherBinding(s, c, n);
      if FindInDir(s.dir, n) != -1 {
        FoundIsLive(s, n);
        NextKept(s, c, FindInDir(s.dir, n));
      } else {
        NothingNext(s, t);
      }
    }
  }

  lemma NothingNext(s: State, t: State)
    requires s.Shape() && t.Shape()
    ensures NextOf(s, -1) == None && NextOf(t, -1) == None
  {
  }

  /** A name that is bound as before leads where it led. */
  lemma SameBindingNext(s: State, c: Call, n: CString)
    requires Inv(s) && Step(s, c).Done? && FindInDir(Step(s, c).state.dir, n) == FindInDir(s.dir, n)
    ensures Step(s, c).state.Shape() && Next(Step(s, c).state, n) == Next(s, n)
  {
    hide Inv, Step, NextOf, FindInDir;
    InvMounted(s);
    if FindInDir(s.dir, n) != -1 {
      FoundIsLive(s, n);
      NextKept(s, c, FindInDir(s.dir, n));
    } else {
      NothingNext(s, Step(s, c).state);
    }
  }

  /** Where the new link leads. */
  lemma NewLinkNext(s: State, target: CString, linkName: CString)
    requires Inv(s) && TfsSymLink(s, target, linkName).Done? && BindsLink(s, target, linkName)
    ensures var t := TfsSymLink(s, target, linkName).state;
            t.Shape() && Next(t, NameOf(linkName)) == Some(NameOf(target))
  {
    hide Inv, CreateLink, LinkText, LinkName, AddDirEntry, FindInDir, CanAdd, Shadowed;
    InvMounted(s);
    SymLinkDir(s, target, linkName);
    SymLinkMakes(s, target, linkName);
    var t := TfsSymLink(s, target, linkName).state;
    var i := CreateLink(s).1;
    LiveLinkName(t, i);
    AddBound(s.dir, NameOf(linkName), i);
    BoundPathFits(s, target);
  }

  lemma AddBound(dir: seq<DirEntry>, name: CString, i: int)
    requires i != -1
    ensures FindInDir(AddDirEntry(dir, name, i), name)
         == if CanAdd(dir, name) && !Shadowed(dir, name) then i else FindInDir(dir, name)
  {
    if CanAdd(dir, name) {
      AddBinds(dir, name, i, name);
    }
  }

  /** Opening or hard-linking binds a name to a file, if it binds it anew at all. */
  lemma FileNext(s: State, c: Call)
    requires Inv(s) && Step(s, c).Done? && (c.Open? || c.Link?)
    ensures var t := Step(s, c).state; Next(t, Rebound(c)) == Next(s, Rebound(c)) || Next(t, Rebound(c)) == None
  {
    hide Inv, Step, AddDirEntry, FindInDir, NextOf;
    InvMounted(s);
    var t := Step(s, c).state;
    if FindInDir(t.dir, Rebound(c)) == FindInDir(s.dir, Rebound(c)) {
      SameBindingNext(s, c, Rebound(c));
    } else {
      BoundToFile(s, c);
    }
  }

  lemma BoundToFile(s: State, c: Call)
    requires Inv(s) && Step(s, c).Done? && (c.Open? || c.Link?)
    requires FindInDir(Step(s, c).state.dir, Rebound(c)) != FindInDir(s.dir, Rebound(c))
    ensures NextOf(Step(s, c).state, FindInDir(Step(s, c).state.dir, Rebound(c))) == None
  {
    hide Inv, FindInDir;
    InvMounted(s);
    match c
    case Open(path, mode) =>
      if Lookup(s, path) >= 0 {
        OpenInodeKeeps(s, Lookup(s, path), mode);
      } else {
        AddBound(s.dir, NameOf(path), CreateFile(s).1);
      }
    case Link(target, linkName) => AddBound(s.dir, NameOf(linkName), Lookup(s, target));
  }

  lemma UnlinkNext(s: State, target: CString)
    requires Inv(s) && TfsUnlink(s, target).Done? && Lookup(s, target) != -1
    ensures var t := TfsUnlink(s, target).state;
            Next(t, NameOf(target)) == NextOf(s, FindInDir(ClearDirEntry(s.dir, NameOf(target)), NameOf(target)))
  {
    hide Inv, TfsUnlink, ClearDirEntry, NextOf, FindInDir;
    InvMounted(s);
    UnlinkDir(s, target);
    var t := TfsUnlink(s, target).state;
    var j := FindInDir(t.dir, NameOf(target));
    if j == -1 {
      NothingNext(s, t);
    } else {
      UncoveredIsLive(s, NameOf(target));
      assert Step(s, Unlink(target)) == TfsUnlink(s, target);
      NextKept(s, Unlink(target), j);
    }
  }

  /** What a cleared slot uncovers was in use before. */
  lemma UncoveredIsLive(s: State, name: CString)
    requires NamesInv(s) && FindInDir(ClearDirEntry(s.dir, name), name) != -1
    ensures s.Live(FindInDir(ClearDirEntry(s.dir, name), name))
  {
    var d := ClearDirEntry(s.dir, name);
    assert SlotOk(s, s.dir[FindSlot(d, name)]);
  }

  /** Where the name leads after the call, in terms of the state before it. */
  lemma ReboundIff(s: State, c: Call)
    requires Inv(s) && ChainsEnd(s) && Step(s, c).Done?
    ensures Step(s, c).state.Shape() && (ComesBack(s, Next(Step(s, c).state, Rebound(c)), Rebound(c)) <==> Closes(s, c))
  {
    hide Inv, ChainsEnd, TfsOpen, TfsSymLink, TfsLink, TfsWrite, TfsRead, TfsUnlink, Next, Visits, BindsLink;
    InvMounted(s);
    OldChainEnds(s, Rebound(c));
    match c
    case SymLink(target, linkName) =>
      if BindsLink(s, target, linkName) {
        NewLinkNext(s, target, linkName);
      } else {
        SymLinkBindsNothing(s, target, linkName);
        SameBindingNext(s, c, Rebound(c));
      }
    case Unlink(target) =>
      if Lookup(s, target) != -1 {
        UnlinkNext(s, target);
      } else {
        UnlinkDir(s, target);
        SameBindingNext(s, c, Rebound(c));
      }
    case Open(_, _) => FileNext(s, c);
    case Link(_, _) => FileNext(s, c);
    case _ =>
      SameDir(s, c);
      SameBindingNext(s, c, Rebound(c));
  }

  lemma SameDir(s: State, c: Call)
    requires s.Mounted() && Step(s, c).Done? && (c.Close? || c.Write? || c.Read?)
    ensures Step(s, c).state.dir == s.dir
  {
  }

  lemma SymLinkBindsNothing(s: State, target: CString, linkName: CString)
    requires Inv(s) && TfsSymLink(s, target, linkName).Done? && !BindsLink(s, target, linkName)
    ensures FindInDir(TfsSymLink(s, target, linkName).state.dir, NameOf(linkName)) == FindInDir(s.dir, NameOf(linkName))
  {
    hide Inv, TfsSymLink, CreateLink, AddDirEntry, CanAdd, Shadowed, FindInDir;
    InvMounted(s);
    SymLinkDir(s, target, linkName);
    if CreateLink(s).1 != -1 {
      AddBound(s.dir, NameOf(linkName), CreateLink(s).1);
    }
  }

  /**
   * Where every chain of links ends, a call that returns leaves it so if and only if it closes no circle.
   */
  lemma ChainsEndIff(s: State, c: Call)
    requires Inv(s) && ChainsEnd(s) && Step(s, c).Done? && KeepsOpenFiles(s, c)
    ensures ChainsEnd(Step(s, c).state) <==> !Closes(s, c)
  {
    hide Inv, Step, ChainsEnd, Closes, ComesBack, RebindsOnly, KeepsOpenFiles;
    InvMounted(s);
    StepInv(s, c);
    StepRebindsOnly(s, c);
    ReboundIff(s, c);
    RebindingIff(s, Step(s, c).state, Rebound(c));
  }

  // ---- tfs_open ----

  /** Every tfs_open returns. */
  ghost predicate OpensReturn(s: State)
    requires s.Mounted()
  {
    forall path, mode :: TfsOpen(s, path, mode).Done?
  }

  /** Every tfs_open returns if and only if every chain ends. */
  lemma OpensReturnIff(s: State)
    requires Inv(s)
    ensures OpensReturn(s) <==> ChainsEnd(s)
  {
    hide Inv, TfsOpen, EndsIn;
    InvMounted(s);
    if ChainsEnd(s) {
      forall path, mode ensures TfsOpen(s, path, mode).Done? {
        assert EndsIn(s, NameOf(path), |s.inodes|);
        OpenReturnsIff(s, path, mode);
      }
    }
    if OpensReturn(s) {
      forall name ensures EndsIn(s, name, |s.inodes|) {
        var path := [SLASH] + name;
        assert NameOf(path) == name;
        var mode := Mode(false, false, false);
        assert TfsOpen(s, path, mode).Done?;
        OpenReturnsIff(s, path, mode);
      }
    }
  }

  lemma OpenReturnsIff(s: State, path: CString, mode: Mode)
    requires Inv(s)
    ensures EndsIn(s, NameOf(path), |s.inodes|) ==> TfsOpen(s, path, mode).Done?
    ensures TfsOpen(s, path, mode).Done? && path != [] && path[0] == SLASH ==> EndsIn(s, NameOf(path), |s.inodes|)
  {
    hide Inv, Follow, FindInDir, Truncate, AddHandle;
    InvMounted(s);
    OpenInv(s, path, mode);
    EndsInIff(s, NameOf(path), |s.inodes|);
    if FindInDir(s.dir, NameOf(path)) != -1 {
      FoundIsLive(s, NameOf(path));
      FoundHasName(s, NameOf(path));
    } else {
      NothingResolves(s);
    }
  }

  lemma FoundHasName(s: State, name: CString)
    requires NamesInv(s) && FindInDir(s.dir, name) != -1
    ensures name != []
  {
    assert SlotOk(s, s.dir[FindSlot(s.dir, name)]);
  }

  // ---- where names are in order ----

  /** The unbound name at which the chain from this one stops. */
  function Missing(s: State, from: CString, hops: nat): Option<CString>
    requires s.Shape()
    decreases hops
  {
    if FindInDir(s.dir, from) == -1 then Some(from)
    else if hops > 0 && Next(s, from).Some? then Missing(s, Next(s, from).value, hops - 1)
    else None
  }

  /** A chain passes by an unbound name exactly when it stops there. */
  lemma {:induction false} VisitsUnboundIff(s: State, from: CString, name: CString, hops: nat)
    requires s.Shape() && FindInDir(s.dir, name) == -1
    ensures Visits(s, from, name, hops) <==> Missing(s, from, hops) == Some(name)
    decreases hops
  {
    hide FindInDir, LinkName;
    if hops > 0 && Next(s, from).Some? {
      VisitsUnboundIff(s, Next(s, from).value, name, hops - 1);
    }
  }

  /**
   * tfs_sym_link of a bound target under an unbound name, with room for it: all chains still end if and only
   * if the target's chain does not stop at that very name.
   */
  lemma SymLinkEndsIff(s: State, target: CString, linkName: CString)
    requires Inv(s) && ChainsEnd(s) && Lookup(s, target) != -1 && CreateLink(s).1 != -1
    requires Enterable(s, NameOf(linkName))
    ensures TfsSymLink(s, target, linkName).Done?
    ensures ChainsEnd(TfsSymLink(s, target, linkName).state)
       <==> Missing(s, NameOf(target), |s.inodes|) != Some(NameOf(linkName))
  {
    hide Inv, ChainsEnd, TfsSymLink, CreateLink, CanAdd, FindInDir, Visits, Missing;
    InvMounted(s);
    NameFits(s.dir, NameOf(linkName));
    SymLinkMakes(s, target, linkName);
    var c := SymLink(target, linkName);
    ChainsEndIff(s, c);
    VisitsUnboundIff(s, NameOf(target), NameOf(linkName), |s.inodes|);
    BindsUnbound(s, target, linkName);
  }

  lemma NameFits(dir: seq<DirEntry>, name: CString)
    requires CanAdd(dir, name)
    ensures name != []
  {
  }

  lemma BindsUnbound(s: State, target: CString, linkName: CString)
    requires s.Mounted() && Lookup(s, target) != -1 && CreateLink(s).1 != -1 && Enterable(s, NameOf(linkName))
    ensures BindsLink(s, target, linkName)
  {
  }

  /** Where names are unique no other call closes a circle, and a clean tfs_sym_link does as just said. */
  lemma CleanClosesIff(s: State, c: Call)
    requires Good(s) && Clean(s, c)
    ensures s.Mounted()
    ensures Closes(s, c) <==>
            && c.SymLink? && Lookup(s, c.target) != -1 && CreateLink(s).1 != -1
            && Missing(s, NameOf(c.target), |s.inodes|) == Some(NameOf(c.linkName))
  {
    hide Inv, CreateLink, CanAdd, Visits, Missing, FindInDir, ClearDirEntry, Shadowed, UniqueNames;
    GoodMounted(s);
    match c
    case SymLink(target, linkName) =>
      if Lookup(s, target) != -1 && CreateLink(s).1 != -1 {
        BindsUnbound(s, target, linkName);
        VisitsUnboundIff(s, NameOf(target), NameOf(linkName), |s.inodes|);
      }
    case Unlink(target) =>
      if Lookup(s, target) != -1 {
        InvMounted(s);
        ClearRemoves(s, NameOf(target));
        NothingNext(s, s);
      }
    case _ =>
  }

  /**
   * Where every link has a name of its own, all chains end if and only if get_path_recursive ends from every
   * inode in use.
   */
  lemma AllEndIff(s: State)
    requires Good(s)
    ensures s.Mounted()
    ensures ChainsEnd(s) <==> forall i :: s.Live(i) ==> Resolve(s, i).Ends?
  {
    hide Good, Follow, FindInDir, EndsIn;
    GoodMounted(s);
    forall name ensures EndsIn(s, name, |s.inodes|) <==> Resolve(s, FindInDir(s.dir, name)).Ends? {
      GoodInv(s);
      EndsInIff(s, name, |s.inodes|);
    }
    if ChainsEnd(s) {
      forall i | s.Live(i) ensures Resolve(s, i).Ends? {
        if i == ROOT_DIR_INUM {
          RootResolves(s);
        } else {
          var name := NameOfInode(s, i);
          assert EndsIn(s, name, |s.inodes|);
        }
      }
    }
    if forall i :: s.Live(i) ==> Resolve(s, i).Ends? {
      forall name ensures EndsIn(s, name, |s.inodes|) {
        GoodInv(s);
        NothingResolves(s);
        if FindInDir(s.dir, name) != -1 {
          FoundIsLive(s, name);
        }
      }
    }
  }

  lemma RootResolves(s: State)
    requires s.Mounted()
    ensures Resolve(s, ROOT_DIR_INUM).Ends?
  {
  }

  /** With exact counts and unique names every inode in use is found under some name. */
  lemma NameOfInode(s: State, i: int) returns (name: CString)
    requires Good(s) && s.Live(i) && i != ROOT_DIR_INUM
    ensures FindInDir(s.dir, name) == i
  {
    assert CountOk(s, i);
    hide BlocksInv, LinksInv, HandlesInv, CursorsInside;
    assert Slots(s.dir, i) > 0;
    var k :| 0 <= k < |s.dir| && s.dir[k].inumber == i;
    name := s.dir[k].name;
    FindSlotIs(s.dir, name, k);
  }

  // ---- runs ----

  lemma StartChainsEnd(p: Params, memory: seq<Byte>, s: State)
    requires Starts(s, p, memory)
    ensures Inv(s) && ChainsEnd(s)
  {
    InitInv(p, memory);
    assert forall name :: FindInDir(s.dir, name) == -1;
  }

  /**
   * Over every run, unlinks included, all chains of links end at every moment if and only if no call closes a
   * circle.
   */
  lemma {:induction false} ChainsAlwaysEndIff(p: Params, memory: seq<Byte>, ss: seq<State>, cs: seq<Call>, k: nat)
    requires Run(ss, cs) && Starts(ss[0], p, memory) && k < |ss|
    requires forall j :: 0 <= j < k ==> KeepsOpenFiles(ss[j], cs[j])
    ensures forall j :: 0 <= j <= k ==> ss[j].Shape() && ss[j].Mounted()
    ensures (forall j :: 0 <= j <= k ==> ChainsEnd(ss[j])) <==> (forall j :: 0 <= j < k ==> !Closes(ss[j], cs[j]))
    decreases k
  {
    hide Starts, Inv, ChainsEnd, Closes, Step, KeepsOpenFiles;
    StartChainsEnd(p, memory, ss[0]);
    forall j | 0 <= j <= k ensures Inv(ss[j]) && ss[j].Mounted() {
      InvAlways(p, memory, ss, cs, j);
      InvMounted(ss[j]);
    }
    if k > 0 {
      ChainsAlwaysEndIff(p, memory, ss, cs, k - 1);
      if forall j :: 0 <= j <= k - 1 ==> ChainsEnd(ss[j]) {
        assert ss[k] == Step(ss[k - 1], cs[k - 1]).state;
        ChainsEndIff(ss[k - 1], cs[k - 1]);
        assert ChainsEnd(ss[k]) <==> !Closes(ss[k - 1], cs[k - 1]);
      }
    }
  }

  /** So every tfs_open returns, at every moment, if and only if no call closes a circle. */
  lemma OpensAlwaysReturnIff(p: Params, memory: seq<Byte>, ss: seq<State>, cs: seq<Call>, k: nat)
    requires Run(ss, cs) && Starts(ss[0], p, memory) && k < |ss|
    requires forall j :: 0 <= j < k ==> KeepsOpenFiles(ss[j], cs[j])
    ensures forall j :: 0 <= j <= k ==> ss[j].Mounted()
    ensures (forall j :: 0 <= j <= k ==> OpensReturn(ss[j])) <==> (forall j :: 0 <= j < k ==> !Closes(ss[j], cs[j]))
  {
    hide Starts, Inv, ChainsEnd, OpensReturn, Closes, Step, KeepsOpenFiles;
    ChainsAlwaysEndIff(p, memory, ss, cs, k);
    forall j | 0 <= j <= k ensures ss[j].Mounted() && (OpensReturn(ss[j]) <==> ChainsEnd(ss[j])) {
      InvAlways(p, memory, ss, cs, j);
      InvMounted(ss[j]);
      OpensReturnIff(ss[j]);
    }
  }
}
