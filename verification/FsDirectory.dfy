/** The slot array of the root directory seen as a map from names to inodes. */
module FsDirectory {
  import opened CTypes
  import opened FsState
  import opened FsOperations
  import opened FsInvariant

  /** No two live slots bear one name. */
  ghost predicate UniqueNames(dir: seq<DirEntry>) {
    forall j, k :: 0 <= j < k < |dir| && dir[j].inumber != -1 && dir[k].inumber != -1 ==> dir[j].name != dir[k].name
  }

  lemma FindSlotIs(dir: seq<DirEntry>, name: CString, k: nat)
    requires k < |dir| && dir[k].inumber != -1 && dir[k].name == name
    requires forall j :: 0 <= j < k ==> !(dir[j].inumber != -1 && dir[j].name == name)
    ensures FindSlot(dir, name) == k
  {
  }

  /** Adding an entry changes no other name's binding; the name is bound to i unless an earlier slot shadows it. */
  lemma AddBinds(dir: seq<DirEntry>, name: CString, i: int, other: CString)
    requires i != -1 && CanAdd(dir, name)
    ensures var d := AddDirEntry(dir, name, i);
            && (other != name ==> FindSlot(d, other) == FindSlot(dir, other))
            && FindSlot(d, name) == if FindSlot(dir, name) == -1 || FreeSlot(dir) < FindSlot(dir, name)
                                    then FreeSlot(dir) else FindSlot(dir, name)
  {
    var d := AddDirEntry(dir, name, i);
    var k := if FindSlot(dir, name) == -1 || FreeSlot(dir) < FindSlot(dir, name) then FreeSlot(dir)
      else FindSlot(dir, name);
    FindSlotIs(d, name, k);
    if other != name && FindSlot(dir, other) != -1 {
      FindSlotIs(d, other, FindSlot(dir, other));
    }
  }

  /** As a map update: an unbound name gets bound to i and every other lookup is unchanged. */
  lemma AddExtends(dir: seq<DirEntry>, name: CString, i: int)
    requires i != -1 && CanAdd(dir, name) && FindInDir(dir, name) == -1
    ensures FindInDir(AddDirEntry(dir, name, i), name) == i
    ensures forall other :: other != name ==> FindInDir(AddDirEntry(dir, name, i), other) == FindInDir(dir, other)
  {
    AddBinds(dir, name, i, name);
    forall other | other != name ensures FindInDir(AddDirEntry(dir, name, i), other) == FindInDir(dir, other) {
      AddBinds(dir, name, i, other);
    }
  }

  /** add_dir_entry refuses a valid name only when every slot is in use. */
  lemma CanAddIff(dir: seq<DirEntry>, name: CString)
    ensures CanAdd(dir, name)
            <==> 1 <= |name| <= MAX_FILE_NAME - 1 && exists k :: 0 <= k < |dir| && dir[k].inumber == -1
  {
  }

  /** Adding keeps names unique exactly when the name, if it is added, was unbound. */
  lemma AddUniqueIff(dir: seq<DirEntry>, name: CString, i: int)
    requires UniqueNames(dir) && i != -1
    ensures UniqueNames(AddDirEntry(dir, name, i)) <==> (CanAdd(dir, name) ==> FindInDir(dir, name) == -1)
  {
    var d := AddDirEntry(dir, name, i);
    if CanAdd(dir, name) && FindInDir(dir, name) != -1 {
      var j, k := FindSlot(dir, name), FreeSlot(dir);
      assert d[j].inumber != -1 && d[k].inumber != -1 && d[j].name == d[k].name && j != k;
    }
  }

  /**
   * clear_dir_entry compares names only, so it hits the slot that find_in_dir found precisely when no
   * earlier slot, free or not, still carries the name.
   */
  lemma ClearHitsFoundIff(dir: seq<DirEntry>, name: CString)
    requires FindSlot(dir, name) != -1
    ensures NameSlot(dir, name) == FindSlot(dir, name)
       <==> forall j :: 0 <= j < FindSlot(dir, name) ==> dir[j].name != name
  {
  }

  /** A stale name in a free slot: clearing leaves the live entry bound. */
  lemma StaleNameKeepsBinding(name: CString, i: int)
    requires name != [] && i != -1
    ensures var dir := [DirEntry(name, -1), DirEntry(name, i)];
            FindInDir(dir, name) == i && FindInDir(ClearDirEntry(dir, name), name) == i
  {
    var dir := [DirEntry(name, -1), DirEntry(name, i)];
    FindSlotIs(dir, name, 1);
    assert NameSlot(dir, name) == 0;
    FindSlotIs(ClearDirEntry(dir, name), name, 1);
  }

  /** As a map removal: the name is unbound afterwards and every other lookup is unchanged. */
  lemma ClearRemoves(s: State, name: CString)
    requires NamesInv(s) && UniqueNames(s.dir) && name != []
    ensures FindInDir(ClearDirEntry(s.dir, name), name) == -1
    ensures forall other :: other != name ==> FindInDir(ClearDirEntry(s.dir, name), other) == FindInDir(s.dir, other)
    ensures UniqueNames(ClearDirEntry(s.dir, name))
  {
    NameSlotIsFindSlot(s, name);
    var d := ClearDirEntry(s.dir, name);
    assert FindSlot(d, name) == -1;
    forall other | other != name ensures FindInDir(d, other) == FindInDir(s.dir, other) {
      ClearOther(s.dir, name, other);
    }
  }

  lemma ClearOther(dir: seq<DirEntry>, name: CString, other: CString)
    requires other != name
    ensures FindSlot(ClearDirEntry(dir, name), other) == FindSlot(dir, other)
    ensures FindInDir(ClearDirEntry(dir, name), other) == FindInDir(dir, other)
  {
    var k := FindSlot(dir, other);
    if k != -1 {
      FindSlotIs(ClearDirEntry(dir, name), other, k);
    }
  }

  /** A live slot with the name comes before the first free one. */
  predicate Shadowed(dir: seq<DirEntry>, name: CString) {
    FindSlot(dir, name) != -1 && !(FreeSlot(dir) < FindSlot(dir, name))
  }

  /**
   * tfs_link returns 0 without looking at add_dir_entry. The new path leads to the target afterwards
   * precisely when the entry was added and no earlier slot shadows it, or the path led there before.
   */
  lemma LinkTakesEffectIff(s: State, target: CString, linkName: CString)
    requires NamesInv(s) && ValidPath(linkName) && TfsLink(s, target, linkName).Done?
             && TfsLink(s, target, linkName).ret == 0
    ensures Lookup(TfsLink(s, target, linkName).state, linkName) == Lookup(s, target) <==>
            (|| Lookup(s, linkName) == Lookup(s, target)
             || (CanAdd(s.dir, linkName[1..]) && !Shadowed(s.dir, linkName[1..])))
  {
    var i := Lookup(s, target);
    var name := linkName[1..];
    if CanAdd(s.dir, name) {
      AddBinds(s.dir, name, i, name);
    }
  }

  /**
   * The same for tfs_sym_link: its new link is found under its name precisely when it was added and is not
   * shadowed.
   */
  lemma SymLinkTakesEffectIff(s: State, target: CString, linkName: CString)
    requires NamesInv(s) && ValidPath(linkName)
    requires TfsSymLink(s, target, linkName).Done? && TfsSymLink(s, target, linkName).ret == 0
    ensures Lookup(TfsSymLink(s, target, linkName).state, linkName) == CreateLink(s).1 <==>
            CanAdd(s.dir, linkName[1..]) && !Shadowed(s.dir, linkName[1..])
  {
    var i := CreateLink(s).1;
    var name := linkName[1..];
    if CanAdd(s.dir, name) {
      AddBinds(s.dir, name, i, name);
    }
    forall k | 0 <= k < |s.dir| ensures s.dir[k].inumber != i {
      assert SlotOk(s, s.dir[k]);
    }
  }
}
