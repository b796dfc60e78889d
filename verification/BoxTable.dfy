/** The broker's table of boxes and the file system behind it, mbroker/mbroker.c. */
module BoxTable {
  import opened CTypes
  import opened FsState
  import opened FsOperations
  import opened FsInvariant
  import opened FsRuns
  import opened FsDirectory
  import opened FsRefinement
  import opened FsAnswers
  import FsLinks

  /** utils/server_structures.h:11-19, without its lock and condition; taken stands for free == 1. */
  datatype Box = Box(name: CString, password: CString, nPub: int, nSubs: int, size: int, taken: bool)

  const BLANK := Box([], [], 0, 0, 0, false)

  /** The first box bearing the name, -1 when there is none. */
  function FindBox(boxes: seq<Box>, name: CString): (i: int)
    ensures -1 <= i < |boxes|
    ensures 0 <= i ==> boxes[i].name == name
    ensures forall j :: 0 <= j < (if i == -1 then |boxes| else i) ==> boxes[j].name != name
  {
    FirstIndex(boxes, (b: Box) => b.name == name)
  }

  function FreeBox(boxes: seq<Box>): (i: int)
    ensures -1 <= i < |boxes|
    ensures 0 <= i ==> !boxes[i].taken
    ensures forall j :: 0 <= j < (if i == -1 then |boxes| else i) ==> boxes[j].taken
  {
    FirstIndex(boxes, (b: Box) => !b.taken)
  }

  /** The table after realloc to twice its size. */
  function Doubled(boxes: seq<Box>): seq<Box> { boxes + seq(|boxes|, _ => BLANK) }

  /** The slot process_manager_create claims, and the table it claims it in. */
  function Room(boxes: seq<Box>): (r: (seq<Box>, nat))
    requires |boxes| > 0
    ensures r.1 < |r.0| && |boxes| <= |r.0| && !r.0[r.1].taken
    ensures forall j :: 0 <= j < |r.0| ==> r.0[j] == if j < |boxes| then boxes[j] else BLANK
  {
    if FreeBox(boxes) == -1 then (Doubled(boxes), |boxes|) else (boxes, FreeBox(boxes))
  }

  /** The table with the new box in the slot it gets. */
  function BoxEntered(boxes: seq<Box>, name: CString, password: CString): seq<Box>
    requires |boxes| > 0
  {
    var (table, i) := Room(boxes);
    table[i := table[i].(taken := true, name := name, password := password)]
  }

  /** The table after the new box's slot has been given back, because its file could not be made. */
  function BoxRefused(boxes: seq<Box>): seq<Box>
    requires |boxes| > 0
  {
    var (table, i) := Room(boxes);
    table[i := table[i].(taken := false, name := [], password := [])]
  }

  /** A handler's effect; reply is its return_code, or None when it sends no response. */
  datatype Handled = Handled(boxes: seq<Box>, fs: State, reply: Option<int>)

  const CREATE_MODE := Mode(true, false, false)

  /** process_manager_create */
  function Create(boxes: seq<Box>, s: State, name: CString, password: CString): (r: Option<Handled>)
    requires |boxes| > 0 && s.Mounted()
  {
    if FindBox(boxes, name) != -1 then Some(Handled(boxes, s, Some(-1)))
    else
      var open := TfsOpen(s, name, CREATE_MODE);
      if !open.Done? then None
      else if open.ret == -1 then Some(Handled(BoxRefused(boxes), open.state, Some(-1)))
      else if !open.state.Mounted() then None
      else Some(Handled(BoxEntered(boxes, name, password), TfsClose(open.state, open.ret).state, Some(0)))
  }

  /** process_manager_remove; `worker` is the box index its thread was left with, which it uses when no box is found. */
  function Remove(boxes: seq<Box>, s: State, name: CString, password: CString, worker: int): (r: Option<Handled>)
    requires s.Mounted()
  {
    var i := FindBox(boxes, name);
    if i != -1 && !boxes[i].taken then Some(Handled(boxes, s, None))
    else if i != -1 && boxes[i].password != password then Some(Handled(boxes, s, Some(-1)))
    else
      var k := if i != -1 then i else worker;
      var u := TfsUnlink(s, name);
      if !u.Done? then None
      else if u.ret == -1 then Some(Handled(boxes, u.state, Some(-1)))
      else if !(0 <= k < |boxes|) then None
      else Some(Handled(boxes[k := BLANK], u.state, Some(0)))
  }

  // ---- what the table holds afterwards ----

  /** The slot a new box gets is the first free one, and the table grows, to twice its size, only without one. */
  lemma RoomIs(boxes: seq<Box>)
    requires |boxes| > 0
    ensures var (table, i) := Room(boxes);
            && (forall j :: 0 <= j < i ==> table[j].taken) && !table[i].taken
            && |table| == (if exists j :: 0 <= j < |boxes| && !boxes[j].taken then |boxes| else 2 * |boxes|)
            && forall j :: 0 <= j < |table| ==>
                 table[j] == if j < |boxes| then boxes[j] else Box([], [], 0, 0, 0, false)
  {
  }

  /**
   * After a box has been created it is found under its name, with the password it was given and the counters of
   * its slot; every other slot is as before, or blank where the table has grown.
   */
  lemma CreateStores(boxes: seq<Box>, s: State, name: CString, password: CString)
    requires |boxes| > 0 && s.Mounted() && Create(boxes, s, name, password).Some?
    requires Create(boxes, s, name, password).value.reply == Some(0)
    ensures var after := Create(boxes, s, name, password).value.boxes; var i := FindBox(after, name);
            && i != -1
            && (var was := if i < |boxes| then boxes[i] else Box([], [], 0, 0, 0, false);
                !was.taken && after[i] == Box(name, password, was.nPub, was.nSubs, was.size, true))
            && (forall j :: 0 <= j < |after| && j != i ==>
                  after[j] == if j < |boxes| then boxes[j] else Box([], [], 0, 0, 0, false))
            && forall q :: Removes(after, name, q) <==> q == password
  {
    var (table, i) := Room(boxes);
    var after := BoxEntered(boxes, name, password);
    RoomIs(boxes);
    hide Room, TfsOpen, TfsClose;
    forall j | 0 <= j < i ensures after[j].name != name {
      assert after[j] == boxes[j];
    }
    FoundFirst(after, name, i);
  }

  lemma FoundFirst(boxes: seq<Box>, name: CString, i: nat)
    requires i < |boxes| && boxes[i].name == name && forall j :: 0 <= j < i ==> boxes[j].name != name
    ensures FindBox(boxes, name) == i
  {
  }

  /** A request to create a box that is not granted changes no box. */
  lemma RefusedCreateKeeps(boxes: seq<Box>, s: State, name: CString, password: CString)
    requires |boxes| > 0 && s.Mounted() && Create(boxes, s, name, password).Some?
    requires Create(boxes, s, name, password).value.reply != Some(0)
    ensures Create(boxes, s, name, password).value.reply == Some(-1)
    ensures var after := Create(boxes, s, name, password).value.boxes;
            && |boxes| <= |after| && (forall j :: 0 <= j < |boxes| && boxes[j].taken ==> after[j] == boxes[j])
            && forall j :: 0 <= j < |after| ==> (after[j].taken <==> j < |boxes| && boxes[j].taken)
  {
    RoomIs(boxes);
  }

  /** A box with the name and password goes. */
  predicate Removes(boxes: seq<Box>, name: CString, password: CString) {
    var i := FindBox(boxes, name);
    i != -1 && boxes[i].taken && boxes[i].password == password
  }

  /**
   * What a request to remove a box comes to: no response for a slot that is free, -1 for a wrong password and
   * for a name without a box, and else 0, with the whole slot blank and every other as before.
   */
  lemma RemoveReplies(boxes: seq<Box>, s: State, name: CString, password: CString, worker: int)
    requires Agree(boxes, s) && Good(s)
    ensures s.Mounted()
    ensures var r := Remove(boxes, s, name, password, worker); var i := FindBox(boxes, name);
            && r.Some?
            && (i == -1 ==> r.value.reply == Some(-1))
            && (i != -1 && !boxes[i].taken ==> r.value.reply == None)
            && (i != -1 && boxes[i].taken && boxes[i].password != password ==> r.value.reply == Some(-1))
            && (i != -1 && boxes[i].taken && boxes[i].password == password ==>
                  && r.value.reply == Some(0)
                  && r.value.boxes == boxes[i := Box([], [], 0, 0, 0, false)]
                  && r.value.fs == TfsUnlink(s, name).state)
            && (r.value.reply != Some(0) ==> r.value.boxes == boxes && r.value.fs == s)
  {
    hide BlocksInv, LinksInv, HandlesInv, TfsUnlink, LosesOpenFile, ExactCounts, CursorsInside;
    var i := FindBox(boxes, name);
    if i == -1 {
      NoBoxNoFile(boxes, s, name);
      UnlinkAbsent(s, name);
    } else if boxes[i].taken && boxes[i].password == password {
      assert HasBox(boxes, name);
      UnlinkGood(s, name);
    }
  }

  lemma UnlinkAbsent(s: State, name: CString)
    requires s.Mounted() && Lookup(s, name) == -1
    ensures TfsUnlink(s, name) == Done(s, -1, [])
  {
  }

  // ---- agreement of table and file system ----

  /** Some box is taken under this name. */
  ghost predicate HasBox(boxes: seq<Box>, name: CString) {
    exists i :: 0 <= i < |boxes| && boxes[i].taken && boxes[i].name == name
  }

  /** Free boxes are blank, taken ones have valid and distinct names. */
  ghost predicate TableOk(boxes: seq<Box>) {
    && |boxes| > 0
    && (forall i :: 0 <= i < |boxes| && !boxes[i].taken ==> boxes[i].name == [] && boxes[i].password == [])
    && (forall i :: 0 <= i < |boxes| && boxes[i].taken ==> ValidPath(boxes[i].name))
    && (forall i, j :: 0 <= i < j < |boxes| && boxes[i].taken && boxes[j].taken ==> boxes[i].name != boxes[j].name)
  }

  /** The files are precisely the boxes'. */
  ghost predicate Agree(boxes: seq<Box>, s: State) {
    TableOk(boxes) && forall path :: Lookup(s, path) != -1 <==> HasBox(boxes, path)
  }

  /** tfs_open can create the file, but has no handle to open it with. */
  predicate LeavesFileBehind(s: State, name: CString)
    requires s.Shape()
  {
    ValidPath(name) && CreateFile(s).1 != -1 && CanAdd(s.dir, name[1..]) && FirstFree(s.openTaken) == -1
  }

  /** What opening a name without a file leaves bound. */
  lemma OpenBinds(s: State, name: CString)
    requires Good(s) && Lookup(s, name) == -1
    ensures var r := TfsOpen(s, name, CREATE_MODE);
            && r.Done? && Good(r.state) && (r.ret != -1 ==> r.state.IsOpen(r.ret))
            && (r.ret == -1 <==>
                !(ValidPath(name) && CreateFile(s).1 != -1 && CanAdd(s.dir, name[1..]) && FirstFree(s.openTaken) != -1))
            && (Lookup(r.state, name) != -1 <==> ValidPath(name) && CreateFile(s).1 != -1 && CanAdd(s.dir, name[1..]))
            && forall path :: path != name ==> Lookup(r.state, path) == Lookup(s, path)
  {
    OpenInv(s, name, CREATE_MODE);
    var r := TfsOpen(s, name, CREATE_MODE);
    OpenGood(s, name);
    if ValidPath(name) && CreateFile(s).1 != -1 && CanAdd(s.dir, name[1..]) {
      AddExtends(s.dir, name[1..], CreateFile(s).1);
      forall path | path != name ensures Lookup(r.state, path) == Lookup(s, path) {
        if ValidPath(path) && path[1..] == name[1..] {
          FsLinks.PathByName(path, name);
        }
      }
    }
  }

  lemma OpenGood(s: State, name: CString)
    requires Good(s) && TfsOpen(s, name, CREATE_MODE).Done?
    ensures Good(TfsOpen(s, name, CREATE_MODE).state)
  {
    CleanIff(s, Open(name, CREATE_MODE));
  }

  lemma CloseKeeps(s: State, h: int)
    requires Good(s)
    ensures Good(TfsClose(s, h).state) && TfsClose(s, h).state.dir == s.dir
  {
    CleanIff(s, Close(h));
  }

  lemma PutBoxNames(boxes: seq<Box>, b: Box, path: CString)
    requires |boxes| > 0
    ensures var (table, i) := Room(boxes);
            HasBox(table[i := b], path) <==> HasBox(boxes, path) || (b.taken && b.name == path)
  {
    var (table, i) := Room(boxes);
    hide Room;
    var after := table[i := b];
    if HasBox(boxes, path) {
      var k :| 0 <= k < |boxes| && boxes[k].taken && boxes[k].name == path;
      assert after[k] == boxes[k];
    }
    if b.taken && b.name == path {
      assert after[i] == b;
    }
  }

  /** Filling or clearing a slot that was free. */
  lemma PutBox(boxes: seq<Box>, b: Box, path: CString)
    requires TableOk(boxes)
    requires if b.taken then ValidPath(b.name) && !HasBox(boxes, b.name) else b.name == [] && b.password == []
    ensures var (table, i) := Room(boxes);
            TableOk(table[i := b])
              && (HasBox(table[i := b], path) <==> HasBox(boxes, path) || (b.taken && b.name == path))
  {
    hide Room;
    PutBoxNames(boxes, b, path);
    var (table, i) := Room(boxes);
    forall j | 0 <= j < |table| && j != i ensures table[i := b][j] == if j < |boxes| then boxes[j] else BLANK {
    }
  }

  /** Without a box under the name, there is no file under it either. */
  lemma NoBoxNoFile(boxes: seq<Box>, s: State, name: CString)
    requires Agree(boxes, s) && FindBox(boxes, name) == -1
    ensures !HasBox(boxes, name) && Lookup(s, name) == -1
  {
  }

  lemma FoundRejected(boxes: seq<Box>, s: State, name: CString, password: CString)
    requires |boxes| > 0 && s.Mounted() && FindBox(boxes, name) != -1
    ensures Create(boxes, s, name, password) == Some(Handled(boxes, s, Some(-1)))
  {
  }

  lemma CreateFails(boxes: seq<Box>, s: State, name: CString, password: CString)
    requires Agree(boxes, s) && Good(s) && FindBox(boxes, name) == -1
    requires TfsOpen(s, name, CREATE_MODE).Done? && TfsOpen(s, name, CREATE_MODE).ret == -1
    ensures var r := Create(boxes, s, name, password);
            && r.Some? && r.value.reply == Some(-1) && Good(r.value.fs) && TableOk(r.value.boxes)
            && (forall path :: HasBox(r.value.boxes, path) <==> HasBox(boxes, path))
            && (Agree(r.value.boxes, r.value.fs) <==> !LeavesFileBehind(s, name))
  {
    NoBoxNoFile(boxes, s, name);
    OpenBinds(s, name);
    var r := Create(boxes, s, name, password).value;
    var (table, i) := Room(boxes);
    var b := table[i].(taken := false, name := [], password := []);
    forall path ensures HasBox(r.boxes, path) <==> HasBox(boxes, path) {
      PutBox(boxes, b, path);
    }
    PutBox(boxes, b, name);
    hide Good, TfsOpen, Room, CREATE_MODE;
    if !LeavesFileBehind(s, name) {
      forall path ensures Lookup(r.fs, path) != -1 <==> HasBox(r.boxes, path) {
        assert path != name ==> Lookup(r.fs, path) == Lookup(s, path);
      }
    } else {
      assert Lookup(r.fs, name) != -1 && !HasBox(r.boxes, name);
    }
  }

  lemma CreateSucceeds(boxes: seq<Box>, s: State, name: CString, password: CString)
    requires Agree(boxes, s) && Good(s) && FindBox(boxes, name) == -1
    requires TfsOpen(s, name, CREATE_MODE).Done? && TfsOpen(s, name, CREATE_MODE).ret != -1
    ensures var r := Create(boxes, s, name, password);
            && r.Some? && r.value.reply == Some(0) && Good(r.value.fs) && Agree(r.value.boxes, r.value.fs)
            && (forall path :: HasBox(r.value.boxes, path) <==> HasBox(boxes, path) || path == name)
  {
    NoBoxNoFile(boxes, s, name);
    OpenBinds(s, name);
    var open := TfsOpen(s, name, CREATE_MODE);
    CloseKeeps(open.state, open.ret);
    var r := Create(boxes, s, name, password).value;
    var (table, i) := Room(boxes);
    var b := table[i].(taken := true, name := name, password := password);
    forall path ensures HasBox(r.boxes, path) <==> HasBox(boxes, path) || path == name {
      PutBox(boxes, b, path);
    }
    PutBox(boxes, b, name);
    hide Good, TfsOpen, Room, CREATE_MODE, TfsClose;
    forall path ensures Lookup(r.fs, path) != -1 <==> HasBox(r.boxes, path) {
      assert Lookup(r.fs, path) == Lookup(open.state, path);
      assert path != name ==> Lookup(open.state, path) == Lookup(s, path);
    }
  }

  /**
   * Creating a box, with or without doubling the table and whether or not tfs_open works out, keeps boxes
   * and files in step exactly when it does not create the file and then lack a handle for it.
   */
  lemma CreateAgreesIff(boxes: seq<Box>, s: State, name: CString, password: CString)
    requires Agree(boxes, s) && Good(s)
    ensures var r := Create(boxes, s, name, password);
            && r.Some? && Good(r.value.fs)
            && (Agree(r.value.boxes, r.value.fs) <==> FindBox(boxes, name) != -1 || !LeavesFileBehind(s, name))
            && (r.value.reply == Some(0) ==>
                  && !HasBox(boxes, name)
                  && forall path :: HasBox(r.value.boxes, path) <==> HasBox(boxes, path) || path == name)
            && (r.value.reply != Some(0) ==> forall path :: HasBox(r.value.boxes, path) <==> HasBox(boxes, path))
  {
    if FindBox(boxes, name) == -1 {
      NoBoxNoFile(boxes, s, name);
      OpenBinds(s, name);
      if TfsOpen(s, name, CREATE_MODE).ret == -1 {
        CreateFails(boxes, s, name, password);
      } else {
        CreateSucceeds(boxes, s, name, password);
      }
    }
  }

  /**
   * The reply to a request to create a box is 0 if and only if no box bears the name, a handle is free, and there
   * is room for a file of that name; otherwise it is -1.
   */
  lemma CreateReplies(boxes: seq<Box>, s: State, name: CString, password: CString)
    requires Agree(boxes, s) && Good(s)
    ensures s.Mounted()
    ensures var r := Create(boxes, s, name, password);
            && r.Some? && (r.value.reply == Some(0) || r.value.reply == Some(-1))
            && (r.value.reply == Some(0) <==>
                  && FindBox(boxes, name) == -1 && (exists h :: 0 <= h < |s.openTaken| && !s.openTaken[h])
                  && RoomForFile(s, name))
  {
    hide Inv, ExactCounts, CursorsInside, TfsOpen, TfsClose, RoomForFile, TableOk, HasBox;
    GoodMounted(s);
    if FindBox(boxes, name) == -1 {
      NoBoxNoFile(boxes, s, name);
      OpenBinds(s, name);
      GoodMounted(TfsOpen(s, name, CREATE_MODE).state);
      OpenSucceedsIff(s, name, CREATE_MODE);
    }
  }

  /** A box's slot blanked: that name goes, every other stays. */
  lemma DropBox(boxes: seq<Box>, i: nat, path: CString)
    requires TableOk(boxes) && i < |boxes| && boxes[i].taken
    ensures TableOk(boxes[i := BLANK])
    ensures HasBox(boxes[i := BLANK], path) <==> HasBox(boxes, path) && path != boxes[i].name
  {
    var after := boxes[i := BLANK];
    if HasBox(boxes, path) && path != boxes[i].name {
      var k :| 0 <= k < |boxes| && boxes[k].taken && boxes[k].name == path;
      assert after[k] == boxes[k];
    }
    if HasBox(after, path) {
      var k :| 0 <= k < |after| && after[k].taken && after[k].name == path;
      assert after[k] == boxes[k];
    }
  }

  /**
   * Removing a box: the box and its file go together, and nothing else does. The file system's own tables
   * stay in order exactly when nobody has the file open.
   */
  lemma RemoveAgrees(boxes: seq<Box>, s: State, name: CString, password: CString, worker: int)
    requires Agree(boxes, s) && Good(s)
    ensures var r := Remove(boxes, s, name, password, worker);
            && r.Some? && r.value.fs.Mounted() && Agree(r.value.boxes, r.value.fs)
            && (r.value.reply == Some(0) <==> Removes(boxes, name, password))
            && (Good(r.value.fs) <==> !(Removes(boxes, name, password) && LosesOpenFile(s, name)))
            && (r.value.reply == Some(0) ==>
                  forall path :: HasBox(r.value.boxes, path) <==> HasBox(boxes, path) && path != name)
            && (r.value.reply != Some(0) ==> r.value.boxes == boxes && r.value.fs == s)
  {
    hide Agree, Good, LosesOpenFile, TfsUnlink;
    if Removes(boxes, name, password) {
      RemovesBoth(boxes, s, name, password, worker);
    } else {
      RemovesNothing(boxes, s, name, password, worker);
    }
  }

  lemma RemovesNothing(boxes: seq<Box>, s: State, name: CString, password: CString, worker: int)
    requires Agree(boxes, s) && Good(s) && !Removes(boxes, name, password)
    ensures s.Mounted()
    ensures var r := Remove(boxes, s, name, password, worker);
            r.Some? && r.value.reply != Some(0) && r.value.boxes == boxes && r.value.fs == s
  {
    hide BlocksInv, LinksInv, HandlesInv;
    if FindBox(boxes, name) == -1 {
      NoBoxNoFile(boxes, s, name);
    }
  }

  lemma RemovesBoth(boxes: seq<Box>, s: State, name: CString, password: CString, worker: int)
    requires Agree(boxes, s) && Good(s) && Removes(boxes, name, password)
    ensures s.Mounted()
    ensures var r := Remove(boxes, s, name, password, worker);
            && r.Some? && r.value.reply == Some(0) && r.value.fs.Mounted() && Agree(r.value.boxes, r.value.fs)
            && (Good(r.value.fs) <==> !LosesOpenFile(s, name))
            && forall path :: HasBox(r.value.boxes, path) <==> HasBox(boxes, path) && path != name
  {
    hide Good, TfsUnlink, LosesOpenFile, TableOk, FsOperations.Lookup;
    UnlinkGood(s, name);
    var i := FindBox(boxes, name);
    assert HasBox(boxes, name);
    var r := Remove(boxes, s, name, password, worker).value;
    forall path ensures HasBox(r.boxes, path) <==> HasBox(boxes, path) && path != name {
      DropBox(boxes, i, path);
    }
    DropBox(boxes, i, name);
  }

  /** What unlinking does to the names, and when it leaves the tables in order. */
  lemma UnlinkGood(s: State, name: CString)
    requires Good(s)
    ensures s.Mounted()
    ensures Lookup(s, name) != -1 ==>
              var r := TfsUnlink(s, name);
              && r.Done? && r.ret == 0 && r.state.Mounted() && (Good(r.state) <==> !LosesOpenFile(s, name))
              && Lookup(r.state, name) == -1
              && forall other :: other != name ==> Lookup(r.state, other) == Lookup(s, other)
  {
    hide ExactCounts, CursorsInside, LosesOpenFile, BlocksInv, LinksInv, HandlesInv;
    if Lookup(s, name) != -1 {
      FsLinks.UnlinkUnbinds(s, name);
      UnlinkCleanIff(s, name);
    }
  }

  /** The box index left over in a worker is never used: without a box there is nothing to unlink. */
  lemma WorkerIndexUnused(boxes: seq<Box>, s: State, name: CString, password: CString, worker: int, other: int)
    requires Agree(boxes, s) && s.Mounted()
    ensures Remove(boxes, s, name, password, worker) == Remove(boxes, s, name, password, other)
  {
    if FindBox(boxes, name) == -1 {
      NoBoxNoFile(boxes, s, name);
    }
  }

  // ---- runs ----

  /** A manager's request, a publisher's or subscriber's call, or a change of a box's counters. */
  datatype Request =
    | CreateBox(name: CString, password: CString)
    | RemoveBox(name: CString, password: CString, worker: int)
    | Session(call: Call)
    | Count(box: nat, nPub: int, nSubs: int, size: int)

  /** What publishers and subscribers call: tfs_open without TFS_O_CREAT, tfs_write, tfs_read and tfs_close. */
  predicate OfSession(c: Call) {
    match c
    case Open(_, mode) => !mode.create
    case Write(_, _) => true
    case Read(_, _) => true
    case Close(_) => true
    case _ => false
  }

  function Handle(boxes: seq<Box>, s: State, q: Request): Option<Handled>
    requires |boxes| > 0 && s.Mounted()
  {
    match q
    case CreateBox(name, password) => Create(boxes, s, name, password)
    case RemoveBox(name, password, worker) => Remove(boxes, s, name, password, worker)
    case Session(c) =>
      var r := Step(s, c);
      if r.Done? then Some(Handled(boxes, r.state, None)) else None
    case Count(i, nPub, nSubs, size) =>
      if i < |boxes| then Some(Handled(boxes[i := boxes[i].(nPub := nPub, nSubs := nSubs, size := size)], s, None))
      else Some(Handled(boxes, s, None))
  }

  /**
   * The broker finds a handle when it creates a file, removes no box that is in use, and its sessions make
   * clean calls.
   */
  ghost predicate Undisturbed(boxes: seq<Box>, s: State, q: Request)
    requires s.Mounted()
  {
    match q
    case CreateBox(name, _) => FindBox(boxes, name) != -1 || !LeavesFileBehind(s, name)
    case RemoveBox(name, password, _) => !(Removes(boxes, name, password) && LosesOpenFile(s, name))
    case Session(c) => Clean(s, c)
    case Count(_, _, _, _) => true
  }

  /** The states a sequence of requests passes through. */
  ghost predicate Serves(tables: seq<seq<Box>>, files: seq<State>, qs: seq<Request>) {
    && |tables| == |files| == |qs| + 1
    && forall k :: 0 <= k < |qs| ==> Served(tables[k], files[k], qs[k], tables[k + 1], files[k + 1])
  }

  ghost predicate Served(boxes: seq<Box>, s: State, q: Request, boxes': seq<Box>, s': State) {
    && |boxes| > 0 && s.Mounted() && (q.Session? ==> OfSession(q.call))
    && var r := Handle(boxes, s, q); r.Some? && boxes' == r.value.boxes && s' == r.value.fs
  }

  /** Sessions make and unmake no name. */
  lemma SessionKeepsDir(s: State, c: Call)
    requires s.Mounted() && OfSession(c) && Step(s, c).Done?
    ensures Step(s, c).state.dir == s.dir
  {
    if c.Open? && Lookup(s, c.path) >= 0 {
      OpenInodeKeeps(s, Lookup(s, c.path), c.mode);
    }
  }

  /**
   * Sessions come and go without disturbing the agreement; they keep the tables in order exactly when their
   * calls are clean.
   */
  lemma SessionAgrees(boxes: seq<Box>, s: State, c: Call)
    requires Agree(boxes, s) && Good(s) && OfSession(c) && Step(s, c).Done?
    ensures Agree(boxes, Step(s, c).state) && (Good(Step(s, c).state) <==> Clean(s, c))
  {
    hide Good, Step, Clean, TableOk, HasBox;
    GoodMounted(s);
    CleanIff(s, c);
    SessionKeepsDir(s, c);
    assert forall path :: Lookup(Step(s, c).state, path) == Lookup(s, path);
  }

  /** Counters play no part in the agreement. */
  lemma CountAgrees(boxes: seq<Box>, s: State, i: nat, b: Box)
    requires Agree(boxes, s) && i < |boxes|
    requires b.name == boxes[i].name && b.password == boxes[i].password && b.taken == boxes[i].taken
    ensures Agree(boxes[i := b], s)
  {
    var after := boxes[i := b];
    forall path ensures HasBox(after, path) <==> HasBox(boxes, path) {
      if HasBox(boxes, path) {
        var k :| 0 <= k < |boxes| && boxes[k].taken && boxes[k].name == path;
        assert after[k].taken && after[k].name == path;
      }
    }
  }

  /** One request of any kind leaves everything in order if and only if it is undisturbed. */
  lemma ServedIff(boxes: seq<Box>, s: State, q: Request, boxes': seq<Box>, s': State)
    requires Served(boxes, s, q, boxes', s') && Agree(boxes, s) && Good(s)
    ensures Good(s') && Agree(boxes', s') <==> Undisturbed(boxes, s, q)
  {
    hide Good, Agree, TableOk, HasBox, LeavesFileBehind, LosesOpenFile, Clean, Create, Remove, Step, Removes;
    match q
    case CreateBox(name, password) => CreateAgreesIff(boxes, s, name, password);
    case RemoveBox(name, password, worker) => RemoveAgrees(boxes, s, name, password, worker);
    case Session(c) => SessionAgrees(boxes, s, c);
    case Count(i, nPub, nSubs, size) =>
      if i < |boxes| {
        CountAgrees(boxes, s, i, boxes[i].(nPub := nPub, nSubs := nSubs, size := size));
      }
  }

  lemma FreshAgrees(n: nat, p: Params, memory: seq<Byte>, s: State)
    requires n > 0 && Starts(s, p, memory)
    ensures Good(s) && Agree(seq(n, _ => BLANK), s)
  {
    InitInv(p, memory);
    forall k | 0 <= k < |s.dir| ensures s.dir[k].inumber == -1 {
    }
    assert forall path :: Lookup(s, path) == -1;
  }

  /** Boxes and files are in step, and the tables in order. */
  ghost predicate InStep(boxes: seq<Box>, s: State) { Good(s) && Agree(boxes, s) }

  /**
   * From an empty table and a fresh file system on, boxes and files stay in step, sessions and all, if and only
   * if every request is undisturbed.
   */
  lemma {:induction false} AgreeAlwaysIff(
      n: nat, p: Params, memory: seq<Byte>, tables: seq<seq<Box>>, files: seq<State>, qs: seq<Request>, k: nat)
    requires Serves(tables, files, qs) && k < |tables|
    requires n > 0 && Starts(files[0], p, memory) && tables[0] == seq(n, _ => BLANK)
    ensures |tables| == |files| == |qs| + 1 && forall j :: 0 <= j < |qs| ==> files[j].Mounted()
    ensures (forall j :: 0 <= j <= k ==> InStep(tables[j], files[j]))
       <==> (forall j :: 0 <= j < k ==> Undisturbed(tables[j], files[j], qs[j]))
  {
    hide Good, Agree, Starts, Served, Undisturbed;
    forall j | 0 <= j < |qs| ensures files[j].Mounted() {
      ServedMounted(tables[j], files[j], qs[j], tables[j + 1], files[j + 1]);
    }
    if k == 0 {
      FreshAgrees(n, p, memory, files[0]);
    } else {
      AgreeAlwaysIff(n, p, memory, tables, files, qs, k - 1);
      if forall j :: 0 <= j <= k - 1 ==> InStep(tables[j], files[j]) {
        assert Served(tables[k - 1], files[k - 1], qs[k - 1], tables[k], files[k]);
        ServedIff(tables[k - 1], files[k - 1], qs[k - 1], tables[k], files[k]);
        assert InStep(tables[k], files[k]) <==> Undisturbed(tables[k - 1], files[k - 1], qs[k - 1]);
      }
    }
  }

  lemma ServedMounted(boxes: seq<Box>, s: State, q: Request, boxes': seq<Box>, s': State)
    requires Served(boxes, s, q, boxes', s')
    ensures s.Mounted()
  {
  }

  // ---- what a publisher's tfs_open finds ----

  /** No file is a symbolic link. */
  ghost predicate NoLinks(s: State)
    requires s.Shape()
  {
    forall i :: s.Live(i) ==> !IsLink(s, i)
  }

  /** Only tfs_sym_link makes links. */
  lemma StepNoLinks(s: State, c: Call)
    requires Good(s) && s.Mounted() && NoLinks(s) && Step(s, c).Done? && !c.SymLink?
    ensures Step(s, c).state.Shape() && NoLinks(Step(s, c).state)
  {
    hide Good, Step;
    GoodInv(s);
    var t := Step(s, c).state;
    forall i | t.Live(i) ensures !IsLink(t, i) {
      if s.Live(i) {
        FsLinks.StepKeepsKind(s, c, i);
      } else if IsLink(t, i) {
        if c.Unlink? {
          UnlinkTakesNone(s, c, i);
        } else {
          FsLinks.NewInode(s, c, i);
        }
      }
    }
  }

  lemma UnlinkTakesNone(s: State, c: Call, i: int)
    requires s.Mounted() && c.Unlink? && Step(s, c).Done? && Step(s, c).state.Live(i)
    ensures s.Live(i)
  {
  }

  lemma CreateNoLinks(boxes: seq<Box>, s: State, name: CString, password: CString)
    requires Agree(boxes, s) && Good(s) && s.Mounted() && NoLinks(s)
    ensures var r := Create(boxes, s, name, password); r.Some? && r.value.fs.Shape() && NoLinks(r.value.fs)
  {
    hide Good, NoLinks, TableOk, HasBox, TfsOpen, TfsClose, FsOperations.Lookup, Room;
    CreateAgreesIff(boxes, s, name, password);
    if FindBox(boxes, name) == -1 {
      NoBoxNoFile(boxes, s, name);
      OpenBinds(s, name);
      var open := TfsOpen(s, name, CREATE_MODE);
      GoodMounted(open.state);
      assert Step(s, Open(name, CREATE_MODE)) == open;
      assert Step(open.state, Close(open.ret)) == TfsClose(open.state, open.ret);
      StepNoLinks(s, Open(name, CREATE_MODE));
      StepNoLinks(open.state, Close(open.ret));
    }
  }

  lemma RemoveNoLinks(boxes: seq<Box>, s: State, name: CString, password: CString, worker: int)
    requires Agree(boxes, s) && Good(s) && s.Mounted() && NoLinks(s)
    ensures var r := Remove(boxes, s, name, password, worker); r.Some? && r.value.fs.Shape() && NoLinks(r.value.fs)
  {
    hide Good, NoLinks, TableOk, HasBox, TfsUnlink, Agree;
    RemoveAgrees(boxes, s, name, password, worker);
    assert Step(s, Unlink(name)) == TfsUnlink(s, name);
    if TfsUnlink(s, name).Done? {
      StepNoLinks(s, Unlink(name));
    }
  }

  lemma ServedNoLinks(boxes: seq<Box>, s: State, q: Request, boxes': seq<Box>, s': State)
    requires Served(boxes, s, q, boxes', s') && Agree(boxes, s) && Good(s) && NoLinks(s)
    ensures s'.Shape() && NoLinks(s')
  {
    hide Good, Agree, NoLinks, LeavesFileBehind, LosesOpenFile, Clean, Create, Remove, Step;
    match q
    case CreateBox(name, password) => CreateNoLinks(boxes, s, name, password);
    case RemoveBox(name, password, worker) => RemoveNoLinks(boxes, s, name, password, worker);
    case Session(c) => StepNoLinks(s, c);
    case Count(_, _, _, _) =>
  }

  lemma StartNoLinks(p: Params, memory: seq<Byte>, s: State)
    requires Starts(s, p, memory)
    ensures s.Shape() && NoLinks(s)
  {
    InitInv(p, memory);
  }

  lemma {:induction false} NoLinksAlways(
      n: nat, p: Params, memory: seq<Byte>, tables: seq<seq<Box>>, files: seq<State>, qs: seq<Request>, k: nat)
    requires Serves(tables, files, qs) && k < |tables|
    requires n > 0 && Starts(files[0], p, memory) && tables[0] == seq(n, _ => BLANK)
    requires forall j :: 0 <= j < k ==> files[j].Mounted() && Undisturbed(tables[j], files[j], qs[j])
    ensures files[k].Shape() && NoLinks(files[k])
  {
    hide Good, Agree, Starts, Served, NoLinks, Undisturbed;
    if k == 0 {
      StartNoLinks(p, memory, files[0]);
    } else {
      NoLinksAlways(n, p, memory, tables, files, qs, k - 1);
      AgreeAlwaysIff(n, p, memory, tables, files, qs, k - 1);
      assert InStep(tables[k - 1], files[k - 1]);
      ServedNoLinks(tables[k - 1], files[k - 1], qs[k - 1], tables[k], files[k]);
    }
  }

  /** The mode in which process_pub opens its box's file, mbroker/mbroker.c:165. */
  const APPEND_MODE := Mode(false, false, true)

  lemma PlainOpenFailsIff(s: State, name: CString)
    requires Good(s) && s.Mounted() && NoLinks(s) && Lookup(s, name) != -1
    ensures TfsOpen(s, name, APPEND_MODE).Done?
    ensures TfsOpen(s, name, APPEND_MODE).ret == -1 <==> FirstFree(s.openTaken) == -1
  {
    hide Good, FirstFree;
    GoodInv(s);
    FoundAt(s, name);
  }

  /**
   * At every moment of such a run, opening the file of a box to publish fails if and only if no handle is
   * free: that is when a publisher gives up and its box stays shut.
   */
  lemma PublisherGivesUpIff(
      n: nat, p: Params, memory: seq<Byte>, tables: seq<seq<Box>>, files: seq<State>, qs: seq<Request>, k: nat,
      name: CString)
    requires Serves(tables, files, qs) && k < |tables|
    requires n > 0 && Starts(files[0], p, memory) && tables[0] == seq(n, _ => BLANK)
    requires forall j :: 0 <= j < k ==> files[j].Mounted() && Undisturbed(tables[j], files[j], qs[j])
    requires HasBox(tables[k], name)
    ensures files[k].Mounted() && TfsOpen(files[k], name, APPEND_MODE).Done?
    ensures TfsOpen(files[k], name, APPEND_MODE).ret == -1 <==> FirstFree(files[k].openTaken) == -1
  {
    hide Good, Starts, Served, NoLinks, HasBox, TableOk, TfsOpen, FirstFree, Undisturbed;
    AgreeAlwaysIff(n, p, memory, tables, files, qs, k);
    assert InStep(tables[k], files[k]);
    NoLinksAlways(n, p, memory, tables, files, qs, k);
    GoodMounted(files[k]);
    PlainOpenFailsIff(files[k], name);
  }
}
