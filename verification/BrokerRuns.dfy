/**
 * Whole runs of the broker: managers create and remove boxes, publishers connect, write and leave,
 * subscribers read. That publishers of a box take turns is not assumed here; it follows from the way n_pub is
 * tested and set, and with it the delivery of messages.
 */
module BrokerRuns {
  import opened CTypes
  import opened FsState
  import opened FsOperations
  import opened FsAbstract
  import opened BoxTable
  import opened MessageStream
  import FsReads
  import FsRuns
  import FsRefinement
  import FsAnswers
  import FsTails
  import PubSessions
  import SubSessions

  /**
   * What a worker thread does for a publisher: n_pub is set, its box's file is open, it is closed again. The name
   * and the password are those of the publisher's request.
   */
  datatype Job =
    | Idle
    | Waiting(box: nat, name: CString, password: CString)
    | Publishing(box: nat, name: CString, password: CString, handle: int, id: int)
    | Closed(box: nat)

  /** The box table, the publishers, the handles of creating managers and those of subscribers. */
  datatype World = World(boxes: seq<Box>, jobs: seq<Job>, pending: set<int>, readers: set<int>)

  /** What happens next; each makes one call to the file system, or none. */
  datatype Act =
    | Connect(worker: nat, name: CString, password: CString)
    | OpenBox(worker: nat)
    | Publish(worker: nat, message: seq<Byte>)
    | CloseBox(worker: nat)
    | Release(worker: nat)
    | CreateOpen(name: CString, password: CString)
    | CreateClose(handle: int)
    | Remove(name: CString, password: CString)
    | SubOpen(name: CString, password: CString)
    | SubRead(handle: int)
    | SubClose(handle: int)

  const READ_MODE := Mode(false, false, false)

  /** No call: a tfs_close of no handle, which changes nothing. */
  const NO_CALL := Event(Close(-1), -1, [])

  predicate HasJob(w: World, t: nat, box: nat)
    requires t < |w.jobs|
  {
    !w.jobs[t].Idle? && w.jobs[t].box == box
  }

  /** No publisher is at the box. */
  ghost predicate Unused(w: World, box: nat) { forall t: nat :: t < |w.jobs| ==> !HasJob(w, t, box) }

  /** One step of the broker, around the file system's step from a to a'. */
  ghost predicate Acts(l: Limits, a: AFs, w: World, act: Act, e: Event, a': AFs, w': World) {
    match act
    case Connect(t, name, password) =>
      && t < |w.jobs| && w.jobs[t].Idle? && e == NO_CALL
      && match PubSessions.Admitted(w.boxes, name, password) {
           case None => w' == w
           case Some(i) =>
             w' == w.(boxes := PubSessions.Connected(w.boxes, name, password),
                      jobs := w.jobs[t := Waiting(i, name, password)])
         }
    case OpenBox(t) =>
      && t < |w.jobs| && w.jobs[t].Waiting? && e.call == Open(w.jobs[t].name, APPEND_MODE)
      && if e.ret == -1 then w' == w.(jobs := w.jobs[t := Idle])
         else
           && e.ret in a'.handles
           && var Waiting(i, name, password) := w.jobs[t];
              w' == w.(jobs := w.jobs[t := Publishing(i, name, password, e.ret, a'.handles[e.ret].inumber)])
    case Publish(t, message) =>
      && t < |w.jobs| && w.jobs[t].Publishing? && NUL !in message
      && e.call == Write(w.jobs[t].handle, message + [NUL]) && w' == w
    case CloseBox(t) =>
      && t < |w.jobs| && w.jobs[t].Publishing? && e.call == Close(w.jobs[t].handle)
      && w' == w.(jobs := w.jobs[t := Closed(w.jobs[t].box)])
    case Release(t) =>
      && t < |w.jobs| && w.jobs[t].Closed? && w.jobs[t].box < |w.boxes| && e == NO_CALL
      && var i := w.jobs[t].box;
         w' == w.(boxes := w.boxes[i := w.boxes[i].(nPub := 0)], jobs := w.jobs[t := Idle])
    case CreateOpen(name, password) =>
      && |w.boxes| > 0 && FindBox(w.boxes, name) == -1 && |a.handles| < l.handles
      && e.call == Open(name, CREATE_MODE)
      && if e.ret == -1 then w' == w.(boxes := BoxRefused(w.boxes))
         else w' == w.(boxes := BoxEntered(w.boxes, name, password), pending := w.pending + {e.ret})
    case CreateClose(h) => h in w.pending && e.call == Close(h) && w' == w.(pending := w.pending - {h})
    case Remove(name, password) =>
      var i := FindBox(w.boxes, name);
      && (i != -1 ==> w.boxes[i].taken && w.boxes[i].password == password && Unused(w, i))
      && e.call == Unlink(name)
      && w' == if i != -1 && e.ret != -1 then w.(boxes := w.boxes[i := BLANK]) else w
    case SubOpen(name, password) =>
      var i := FindBox(w.boxes, name);
      if i == -1 || w.boxes[i].password != password then e == NO_CALL && w' == w
      else
        && e.call == Open(name, READ_MODE)
        && w' == if e.ret == -1 then w else w.(readers := w.readers + {e.ret})
    case SubRead(g) => g in w.readers && e.call == Read(g, SubSessions.MESSAGE_SIZE) && w' == w
    case SubClose(g) => g in w.readers && e.call == Close(g) && w' == w.(readers := w.readers - {g})
  }

  // ---- what holds throughout ----

  /** Every name has a plain file of its own. */
  ghost predicate FilesOk(a: AFs) {
    && (forall n :: n in a.names ==> a.names[n] != -1 && a.names[n] in a.files)
    && (forall n, m :: n in a.names && m in a.names && a.names[n] == a.names[m] ==> n == m)
    && (forall id :: id in a.files ==> a.files[id].Plain?)
    && -1 !in a.handles
  }

  ghost predicate BoxesOk(a: AFs, w: World) {
    TableOk(w.boxes) && forall path :: a.Bound(path) != -1 <==> HasBox(w.boxes, path)
  }

  predicate JobOk(a: AFs, w: World, t: nat)
    requires t < |w.jobs|
  {
    match w.jobs[t]
    case Idle => true
    case Waiting(i, name, password) =>
      && i < |w.boxes| && w.boxes[i].nPub == 1
      && (name != [] ==> w.boxes[i].taken && w.boxes[i].name == name && w.boxes[i].password == password)
    case Publishing(i, name, password, h, id) =>
      && i < |w.boxes| && w.boxes[i].nPub == 1 && w.boxes[i].taken
      && w.boxes[i].name == name && w.boxes[i].password == password && a.Bound(name) == id
      && h in a.handles && a.handles[h].inumber == id && h !in w.pending && h !in w.readers
    case Closed(i) => i < |w.boxes| && w.boxes[i].nPub == 1
  }

  /** Two publishers are at different boxes and have different handles. */
  predicate Apart(w: World, t: nat, u: nat)
    requires t < |w.jobs| && u < |w.jobs|
  {
    var x, y := w.jobs[t], w.jobs[u];
    && (!x.Idle? && !y.Idle? ==> x.box != y.box)
    && (x.Publishing? && y.Publishing? ==> x.handle != y.handle)
  }

  ghost predicate JobsOk(a: AFs, w: World) {
    && (forall t: nat :: t < |w.jobs| ==> JobOk(a, w, t))
    && (forall t: nat, u: nat :: t < |w.jobs| && u < |w.jobs| && t != u ==> Apart(w, t, u))
  }

  ghost predicate HandlesOk(a: AFs, w: World) {
    w.pending <= a.handles.Keys && w.readers <= a.handles.Keys && w.pending !! w.readers
  }

  ghost predicate WorldOk(a: AFs, w: World) { FilesOk(a) && BoxesOk(a, w) && JobsOk(a, w) && HandlesOk(a, w) }

  // ---- what the calls do to the file system ----

  lemma PlainLeads(a: AFs, id: int, r: int)
    requires FilesOk(a) && id in a.files && id != -1 && a.LeadsTo(id, r)
    ensures r == id
  {
  }

  /** Opening without creating or truncating: no file changes, and a handle that is given out is a new one. */
  lemma OpenEffect(l: Limits, a: AFs, path: CString, mode: Mode, a': AFs, ret: int)
    requires FilesOk(a) && Opens(l, a, path, mode, a', ret) && !mode.truncate && !mode.create
    ensures FilesOk(a') && a'.names == a.names && a'.files == a.files
    ensures ret == -1 ==> a' == a
    ensures ret != -1 ==>
              && a.Bound(path) != -1 && ret !in a.handles && ret in a'.handles
              && a'.handles[ret].inumber == a.Bound(path)
              && a'.handles == a.handles[ret := a'.handles[ret]]
              && (!mode.append ==> a'.handles[ret].offset == 0)
  {
    if a.Bound(path) != -1 {
      var r :| a.LeadsTo(a.Bound(path), r) && OpensResolved(l, a, r, mode, a', ret);
      PlainLeads(a, a.Bound(path), r);
    }
  }

  /** Opening to create, where a handle is left: the name is bound to a new empty file, or nothing happens. */
  lemma CreateEffect(l: Limits, a: AFs, path: CString, a': AFs, ret: int)
    requires FilesOk(a) && Opens(l, a, path, CREATE_MODE, a', ret) && a.Bound(path) == -1 && |a.handles| < l.handles
    ensures FilesOk(a')
    ensures ret == -1 ==> a' == a
    ensures ret != -1 ==>
              && ValidPath(path) && ret !in a.handles && ret in a'.handles
              && a'.handles == a.handles[ret := a'.handles[ret]]
              && var id := a'.Bound(path);
              && id != -1 && a'.names == a.names[path[1..] := id] && id !in a.files
              && a'.files == a.files[id := Plain([])] && a'.handles[ret].inumber == id
  {
    if a' != a {
      var id :| NewFile(l, a, path[1..], id, a', ret);
    }
  }

  lemma WriteEffect(l: Limits, a: AFs, h: int, buffer: seq<Byte>, a': AFs, ret: int)
    requires FilesOk(a) && Writes(l, a, h, buffer, a', ret)
    ensures FilesOk(a') && a'.names == a.names && a'.files.Keys == a.files.Keys && a'.handles.Keys == a.handles.Keys
    ensures forall g :: g in a.handles ==> a'.handles[g].inumber == a.handles[g].inumber
  {
  }

  lemma ReadEffect(a: AFs, h: int, len: nat, a': AFs, ret: int, bytes: seq<Byte>)
    requires FilesOk(a) && Reads(a, h, len, a', ret, bytes)
    ensures FilesOk(a') && a'.names == a.names && a'.files == a.files && a'.handles.Keys == a.handles.Keys
    ensures forall g :: g in a.handles ==> a'.handles[g].inumber == a.handles[g].inumber
  {
  }

  /** Unlinking takes a name and its file away, and leaves every other name bound as it was. */
  lemma UnlinkEffect(a: AFs, path: CString, a': AFs, ret: int)
    requires FilesOk(a) && Unlinks(a, path, a', ret)
    ensures FilesOk(a') && a'.handles == a.handles && a'.Bound(path) == -1
    ensures ret == -1 <==> a.Bound(path) == -1
    ensures forall p :: p != path ==> a'.Bound(p) == a.Bound(p)
  {
    forall p | p != path ensures a'.Bound(p) == a.Bound(p) {
      if ValidPath(p) && ValidPath(path) && p[1..] == path[1..] {
        SamePath(p, path);
      }
    }
  }

  lemma SamePath(p: CString, q: CString)
    requires ValidPath(p) && ValidPath(q) && p[1..] == q[1..]
    ensures p == q
  {
    assert p == [SLASH] + p[1..] && q == [SLASH] + q[1..];
  }

  /** A new name binds no other path. */
  lemma CreateBinds(a: AFs, path: CString, a': AFs, id: int)
    requires ValidPath(path) && a'.names == a.names[path[1..] := id]
    ensures forall p :: p != path ==> a'.Bound(p) == a.Bound(p)
  {
    forall p | p != path ensures a'.Bound(p) == a.Bound(p) {
      if ValidPath(p) && p[1..] == path[1..] {
        SamePath(p, path);
      }
    }
  }

  // ---- the table ----

  /** Counters play no part in what the boxes' names say. */
  lemma SameNames(boxes: seq<Box>, boxes': seq<Box>)
    requires TableOk(boxes) && |boxes'| == |boxes|
    requires forall i :: 0 <= i < |boxes| ==>
               && boxes'[i].name == boxes[i].name && boxes'[i].password == boxes[i].password
               && boxes'[i].taken == boxes[i].taken
    ensures TableOk(boxes')
    ensures forall path :: HasBox(boxes', path) <==> HasBox(boxes, path)
  {
    forall path ensures HasBox(boxes', path) <==> HasBox(boxes, path) {
      if HasBox(boxes, path) {
        var k :| 0 <= k < |boxes| && boxes[k].taken && boxes[k].name == path;
        assert boxes'[k].taken && boxes'[k].name == path;
      }
    }
  }

  /** A path is bound that a taken box bears. */
  lemma BoxIsBound(a: AFs, w: World, i: nat)
    requires BoxesOk(a, w) && i < |w.boxes| && w.boxes[i].taken
    ensures a.Bound(w.boxes[i].name) != -1 && w.boxes[i].name != []
  {
    assert HasBox(w.boxes, w.boxes[i].name);
  }

  /** Publishers that keep their boxes, names, files and handles. */
  lemma JobsKept(a: AFs, w: World, a': AFs, w': World)
    requires JobsOk(a, w) && w'.jobs == w.jobs && |w.boxes| <= |w'.boxes|
    requires forall t: nat :: t < |w.jobs| && !w.jobs[t].Idle? && w.jobs[t].box < |w.boxes| ==>
               BoxKept(w.boxes[w.jobs[t].box], w'.boxes[w.jobs[t].box])
    requires forall t: nat :: t < |w.jobs| && w.jobs[t].Publishing? && w.jobs[t].box < |w.boxes| ==>
               HandleKept(a, w.jobs[t].handle, a', w') && BoundKept(a, w.boxes[w.jobs[t].box].name, a')
    ensures JobsOk(a', w')
  {
    forall t: nat | t < |w.jobs| ensures JobOk(a', w', t) {
      assert JobOk(a, w, t);
    }
    forall t: nat, u: nat | t < |w.jobs| && u < |w.jobs| && t != u ensures Apart(w', t, u) {
      assert Apart(w, t, u);
    }
  }

  predicate BoxKept(b: Box, b': Box) {
    b'.nPub == b.nPub && (b.taken ==> b'.taken && b'.name == b.name && b'.password == b.password)
  }

  predicate HandleKept(a: AFs, h: int, a': AFs, w': World) {
    h in a.handles ==>
      h in a'.handles && a'.handles[h].inumber == a.handles[h].inumber && h !in w'.pending && h !in w'.readers
  }

  predicate BoundKept(a: AFs, path: CString, a': AFs) { a'.Bound(path) == a.Bound(path) }

  /** Nothing happens to boxes, names and handles but that these handles are new or gone. */
  lemma NamesStay(a: AFs, w: World, a': AFs, w': World)
    requires BoxesOk(a, w) && w'.boxes == w.boxes && a'.names == a.names
    ensures BoxesOk(a', w')
    ensures forall path :: BoundKept(a, path, a')
  {
    assert forall path :: a'.Bound(path) == a.Bound(path);
  }

  // ---- the steps ----

  lemma ConnectOk(l: Limits, a: AFs, w: World, act: Act, e: Event, a': AFs, w': World)
    requires WorldOk(a, w) && act.Connect? && Acts(l, a, w, act, e, a', w') && a' == a
    ensures WorldOk(a', w')
  {
    hide FilesOk, FindBox, TableOk, HasBox;
    match PubSessions.Admitted(w.boxes, act.name, act.password)
    case None =>
    case Some(i) =>
      SameNames(w.boxes, w'.boxes);
      Admits(w, i, act.name);
      forall t: nat | t < |w'.jobs| ensures JobOk(a', w', t) {
        assert JobOk(a, w, t);
      }
      forall t: nat, u: nat | t < |w'.jobs| && u < |w'.jobs| && t != u ensures Apart(w', t, u) {
        assert Apart(w, t, u) && JobOk(a, w, t) && JobOk(a, w, u);
      }
  }

  /** A box found under a name that is not empty is taken. */
  lemma Admits(w: World, i: nat, name: CString)
    requires TableOk(w.boxes) && i < |w.boxes| && w.boxes[i].name == name
    ensures name != [] ==> w.boxes[i].taken
  {
  }

  lemma OpenBoxOk(l: Limits, a: AFs, w: World, act: Act, e: Event, a': AFs, w': World)
    requires WorldOk(a, w) && act.OpenBox? && Acts(l, a, w, act, e, a', w')
    requires AStep(l, a, e.call, a', e.ret, e.bytes)
    ensures WorldOk(a', w')
  {
    hide FilesOk, TableOk, HasBox, Opens;
    var t := act.worker;
    assert JobOk(a, w, t);
    OpenEffect(l, a, w.jobs[t].name, APPEND_MODE, a', e.ret);
    NamesStay(a, w, a', w');
    forall u: nat | u < |w'.jobs| ensures JobOk(a', w', u) {
      assert JobOk(a, w, u);
    }
    forall u: nat, v: nat | u < |w'.jobs| && v < |w'.jobs| && u != v ensures Apart(w', u, v) {
      assert Apart(w, u, v) && JobOk(a, w, u) && JobOk(a, w, v);
    }
  }

  lemma PublishOk(l: Limits, a: AFs, w: World, act: Act, e: Event, a': AFs, w': World)
    requires WorldOk(a, w) && (act.Publish? || act.SubRead?) && Acts(l, a, w, act, e, a', w')
    requires AStep(l, a, e.call, a', e.ret, e.bytes)
    ensures WorldOk(a', w')
  {
    hide FilesOk, TableOk, HasBox, Writes, Reads;
    if act.Publish? {
      WriteEffect(l, a, e.call.handle, e.call.buffer, a', e.ret);
    } else {
      ReadEffect(a, e.call.handle, e.call.len, a', e.ret, e.bytes);
    }
    NamesStay(a, w, a', w');
    forall t: nat | t < |w.jobs| && w.jobs[t].Publishing? ensures HandleKept(a, w.jobs[t].handle, a', w') {
      assert JobOk(a, w, t);
    }
    JobsKept(a, w, a', w');
  }

  lemma CloseOk(l: Limits, a: AFs, w: World, act: Act, e: Event, a': AFs, w': World)
    requires WorldOk(a, w) && (act.CreateClose? || act.SubClose?) && Acts(l, a, w, act, e, a', w')
    requires AStep(l, a, e.call, a', e.ret, e.bytes)
    ensures WorldOk(a', w')
  {
    hide TableOk, HasBox;
    NamesStay(a, w, a', w');
    forall t: nat | t < |w.jobs| && w.jobs[t].Publishing? ensures HandleKept(a, w.jobs[t].handle, a', w') {
      assert JobOk(a, w, t);
    }
    JobsKept(a, w, a', w');
  }

  lemma CloseBoxOk(l: Limits, a: AFs, w: World, act: Act, e: Event, a': AFs, w': World)
    requires WorldOk(a, w) && act.CloseBox? && Acts(l, a, w, act, e, a', w')
    requires AStep(l, a, e.call, a', e.ret, e.bytes)
    ensures WorldOk(a', w')
  {
    hide TableOk, HasBox;
    assert JobOk(a, w, act.worker);
    NamesStay(a, w, a', w');
    forall u: nat | u < |w'.jobs| ensures JobOk(a', w', u) {
      assert JobOk(a, w, u) && (u != act.worker ==> Apart(w, u, act.worker));
    }
    forall u: nat, v: nat | u < |w'.jobs| && v < |w'.jobs| && u != v ensures Apart(w', u, v) {
      assert Apart(w, u, v);
    }
  }

  lemma ReleaseOk(l: Limits, a: AFs, w: World, act: Act, e: Event, a': AFs, w': World)
    requires WorldOk(a, w) && act.Release? && Acts(l, a, w, act, e, a', w') && a' == a
    ensures WorldOk(a', w')
  {
    hide FilesOk, TableOk, HasBox;
    SameNames(w.boxes, w'.boxes);
    forall u: nat | u < |w'.jobs| ensures JobOk(a', w', u) {
      assert JobOk(a, w, u) && (u != act.worker ==> Apart(w, u, act.worker));
    }
    forall u: nat, v: nat | u < |w'.jobs| && v < |w'.jobs| && u != v ensures Apart(w', u, v) {
      assert Apart(w, u, v);
    }
  }

  lemma SubOpenOk(l: Limits, a: AFs, w: World, act: Act, e: Event, a': AFs, w': World)
    requires WorldOk(a, w) && act.SubOpen? && Acts(l, a, w, act, e, a', w')
    requires AStep(l, a, e.call, a', e.ret, e.bytes)
    ensures WorldOk(a', w')
  {
    hide FilesOk, TableOk, HasBox, Opens;
    if e == NO_CALL {
      NoCallKeeps(l, a, a');
    } else {
      OpenEffect(l, a, act.name, READ_MODE, a', e.ret);
    }
    NamesStay(a, w, a', w');
    forall t: nat | t < |w.jobs| && w.jobs[t].Publishing? ensures HandleKept(a, w.jobs[t].handle, a', w') {
      assert JobOk(a, w, t);
    }
    JobsKept(a, w, a', w');
  }

  lemma RemoveOk(l: Limits, a: AFs, w: World, act: Act, e: Event, a': AFs, w': World)
    requires WorldOk(a, w) && act.Remove? && Acts(l, a, w, act, e, a', w')
    requires AStep(l, a, e.call, a', e.ret, e.bytes)
    ensures WorldOk(a', w')
  {
    hide FilesOk, Unlinks;
    UnlinkEffect(a, act.name, a', e.ret);
    var i := FindBox(w.boxes, act.name);
    if i == -1 {
      assert !HasBox(w.boxes, act.name);
      assert forall path :: BoundKept(a, path, a');
    } else {
      BoxIsBound(a, w, i);
      forall path ensures a'.Bound(path) != -1 <==> HasBox(w'.boxes, path) {
        DropBox(w.boxes, i, path);
      }
      DropBox(w.boxes, i, act.name);
    }
    RemoveKeepsJobs(a, w, act, a', w');
  }

  lemma RemoveKeepsJobs(a: AFs, w: World, act: Act, a': AFs, w': World)
    requires WorldOk(a, w) && act.Remove? && a'.handles == a.handles
    requires forall p :: p != act.name ==> a'.Bound(p) == a.Bound(p)
    requires var i := FindBox(w.boxes, act.name);
             if i == -1 then w' == w && a'.Bound(act.name) == a.Bound(act.name)
             else w.boxes[i].taken && Unused(w, i) && w' == w.(boxes := w.boxes[i := BLANK])
    ensures JobsOk(a', w')
  {
    hide FilesOk, HasBox, FindBox;
    var i := FindBox(w.boxes, act.name);
    forall t: nat | t < |w.jobs| && !w.jobs[t].Idle? && w.jobs[t].box < |w.boxes|
      ensures BoxKept(w.boxes[w.jobs[t].box], w'.boxes[w.jobs[t].box])
      ensures w.jobs[t].Publishing? ==>
                HandleKept(a, w.jobs[t].handle, a', w') && BoundKept(a, w.boxes[w.jobs[t].box].name, a')
    {
      assert JobOk(a, w, t) && (i != -1 ==> !HasJob(w, t, i));
    }
    JobsKept(a, w, a', w');
  }

  lemma CreateOpenOk(l: Limits, a: AFs, w: World, act: Act, e: Event, a': AFs, w': World)
    requires WorldOk(a, w) && act.CreateOpen? && Acts(l, a, w, act, e, a', w')
    requires AStep(l, a, e.call, a', e.ret, e.bytes)
    ensures WorldOk(a', w')
  {
    hide FilesOk, Opens;
    assert !HasBox(w.boxes, act.name) && a.Bound(act.name) == -1;
    CreateEffect(l, a, act.name, a', e.ret);
    var (table, i) := Room(w.boxes);
    forall path ensures a'.Bound(path) != -1 <==> HasBox(w'.boxes, path) {
      PutBox(w.boxes, w'.boxes[i], path);
      if e.ret != -1 {
        CreateBinds(a, act.name, a', a'.Bound(act.name));
      }
    }
    PutBox(w.boxes, w'.boxes[i], act.name);
    CreateKeepsJobs(a, w, act, e, a', w');
  }

  lemma CreateKeepsJobs(a: AFs, w: World, act: Act, e: Event, a': AFs, w': World)
    requires WorldOk(a, w) && act.CreateOpen? && |w.boxes| > 0 && !HasBox(w.boxes, act.name)
    requires w'.jobs == w.jobs && w'.readers == w.readers
    requires var (table, i) := Room(w.boxes);
             |w'.boxes| == |table| && w'.boxes[i].nPub == table[i].nPub
             && forall k :: 0 <= k < |table| && k != i ==> w'.boxes[k] == table[k]
    requires if e.ret == -1 then a' == a && w'.pending == w.pending
             else
               && ValidPath(act.name) && a'.Bound(act.name) != -1
               && a'.names == a.names[act.name[1..] := a'.Bound(act.name)]
               && e.ret !in a.handles && e.ret in a'.handles && a'.handles == a.handles[e.ret := a'.handles[e.ret]]
               && w'.pending == w.pending + {e.ret}
    ensures JobsOk(a', w')
  {
    hide FilesOk, HasBox, FindBox, TableOk;
    if e.ret != -1 {
      CreateBinds(a, act.name, a', a'.Bound(act.name));
    }
    forall t: nat | t < |w.jobs| && !w.jobs[t].Idle? && w.jobs[t].box < |w.boxes|
      ensures BoxKept(w.boxes[w.jobs[t].box], w'.boxes[w.jobs[t].box])
      ensures w.jobs[t].Publishing? ==>
                HandleKept(a, w.jobs[t].handle, a', w') && BoundKept(a, w.boxes[w.jobs[t].box].name, a')
    {
      assert JobOk(a, w, t);
      if w.boxes[w.jobs[t].box].taken {
        BoxHasName(w.boxes, w.jobs[t].box);
      }
    }
    JobsKept(a, w, a', w');
  }

  lemma BoxHasName(boxes: seq<Box>, i: nat)
    requires i < |boxes| && boxes[i].taken
    ensures HasBox(boxes, boxes[i].name)
  {
  }

  lemma NoCallKeeps(l: Limits, a: AFs, a': AFs)
    requires FilesOk(a) && AStep(l, a, NO_CALL.call, a', NO_CALL.ret, NO_CALL.bytes)
    ensures a' == a
  {
  }

  /** Every step of the broker keeps the world in order. */
  lemma ActsOk(l: Limits, a: AFs, w: World, act: Act, e: Event, a': AFs, w': World)
    requires WorldOk(a, w) && Acts(l, a, w, act, e, a', w') && AStep(l, a, e.call, a', e.ret, e.bytes)
    ensures WorldOk(a', w')
  {
    match act
    case Connect(_, _, _) =>
      NoCallKeeps(l, a, a');
      ConnectOk(l, a, w, act, e, a', w');
    case OpenBox(_) => OpenBoxOk(l, a, w, act, e, a', w');
    case Publish(_, _) => PublishOk(l, a, w, act, e, a', w');
    case CloseBox(_) => CloseBoxOk(l, a, w, act, e, a', w');
    case Release(_) =>
      NoCallKeeps(l, a, a');
      ReleaseOk(l, a, w, act, e, a', w');
    case CreateOpen(_, _) => CreateOpenOk(l, a, w, act, e, a', w');
    case CreateClose(_) => CloseOk(l, a, w, act, e, a', w');
    case Remove(_, _) => RemoveOk(l, a, w, act, e, a', w');
    case SubOpen(_, _) => SubOpenOk(l, a, w, act, e, a', w');
    case SubRead(_) => PublishOk(l, a, w, act, e, a', w');
    case SubClose(_) => CloseOk(l, a, w, act, e, a', w');
  }

  // ---- runs ----

  ghost predicate FreshWorld(w: World) {
    && |w.boxes| > 0 && (forall i :: 0 <= i < |w.boxes| ==> w.boxes[i] == BLANK)
    && (forall t :: 0 <= t < |w.jobs| ==> w.jobs[t] == Idle) && w.pending == {} && w.readers == {}
  }

  ghost predicate Fresh(a: AFs, w: World) { a == AFs(map[], map[], map[]) && FreshWorld(w) }

  /** The steps of the broker around the states of the file system. */
  ghost predicate BrokerActs(l: Limits, states: seq<AFs>, events: seq<Event>, ws: seq<World>, acts: seq<Act>) {
    && |ws| == |states| == |events| + 1 && |acts| == |events| && FreshWorld(ws[0])
    && forall j :: 0 <= j < |acts| ==> Acts(l, states[j], ws[j], acts[j], events[j], states[j + 1], ws[j + 1])
  }

  /** A run of the broker over a trace of the file system. */
  ghost predicate BrokerRun(l: Limits, states: seq<AFs>, events: seq<Event>, ws: seq<World>, acts: seq<Act>) {
    Trace(l, states, events) && BrokerActs(l, states, events, ws, acts) && Fresh(states[0], ws[0])
  }

  lemma FreshOk(a: AFs, w: World)
    requires Fresh(a, w)
    ensures WorldOk(a, w)
  {
  }

  lemma StepOf(l: Limits, states: seq<AFs>, events: seq<Event>, ws: seq<World>, acts: seq<Act>, j: nat)
    requires BrokerRun(l, states, events, ws, acts) && j < |acts|
    ensures |ws| == |states| == |events| + 1 == |acts| + 1
    ensures Acts(l, states[j], ws[j], acts[j], events[j], states[j + 1], ws[j + 1])
    ensures AStep(l, states[j], events[j].call, states[j + 1], events[j].ret, events[j].bytes)
  {
    assert Stepped(l, states[j], events[j], states[j + 1]);
  }

  lemma {:induction false} WorldAlways(
      l: Limits, states: seq<AFs>, events: seq<Event>, ws: seq<World>, acts: seq<Act>, k: nat)
    requires BrokerRun(l, states, events, ws, acts) && k < |ws|
    ensures k < |states| && WorldOk(states[k], ws[k])
  {
    hide WorldOk, Acts, AStep, Fresh, Trace;
    if k == 0 {
      FreshOk(states[0], ws[0]);
    } else {
      WorldAlways(l, states, events, ws, acts, k - 1);
      StepOf(l, states, events, ws, acts, k - 1);
      ActsOk(l, states[k - 1], ws[k - 1], acts[k - 1], events[k - 1], states[k], ws[k]);
    }
  }

  // ---- a publisher's session ----

  /** A publisher begins to publish by opening its box's file to append. */
  lemma Begins(l: Limits, a: AFs, w: World, act: Act, e: Event, a': AFs, w': World, t: nat)
    requires WorldOk(a, w) && Acts(l, a, w, act, e, a', w') && AStep(l, a, e.call, a', e.ret, e.bytes)
    requires t < |w'.jobs| && w'.jobs[t].Publishing? && (t < |w.jobs| ==> w.jobs[t] != w'.jobs[t])
    ensures act == OpenBox(t) && OpensToAppend(a, e, a', w'.jobs[t].id, w'.jobs[t].handle) && a'.files == a.files
  {
    hide FilesOk, BoxesOk, HandlesOk, JobsOk, Opens;
    if act.OpenBox? {
      OpenEffect(l, a, e.call.path, APPEND_MODE, a', e.ret);
    }
  }

  lemma SameWorkers(l: Limits, a: AFs, w: World, act: Act, e: Event, a': AFs, w': World)
    requires Acts(l, a, w, act, e, a', w')
    ensures |w'.jobs| == |w.jobs|
  {
  }

  /** While it lasts, its handle is not closed. */
  lemma StaysOpen(l: Limits, a: AFs, w: World, act: Act, e: Event, a': AFs, w': World, t: nat)
    requires WorldOk(a, w) && Acts(l, a, w, act, e, a', w')
    requires t < |w.jobs| == |w'.jobs| && w.jobs[t].Publishing? && w'.jobs[t] == w.jobs[t]
    ensures e.call != Close(w.jobs[t].handle)
  {
    hide BoxesOk;
    assert JobOk(a, w, t);
    if act.CloseBox? && act.worker != t {
      assert Apart(w, t, act.worker);
    }
  }

  lemma SameBox(a: AFs, w: World, i: nat, j: nat)
    requires FilesOk(a) && BoxesOk(a, w) && i < |w.boxes| && j < |w.boxes| && w.boxes[i].taken && w.boxes[j].taken
    requires a.Bound(w.boxes[i].name) == a.Bound(w.boxes[j].name)
    ensures i == j
  {
    BoxIsBound(a, w, i);
    BoxIsBound(a, w, j);
    SamePath(w.boxes[i].name, w.boxes[j].name);
  }

  /** Nobody else writes to its box. */
  lemma WritesAlone(l: Limits, a: AFs, w: World, act: Act, e: Event, a': AFs, w': World, t: nat, box: int)
    requires WorldOk(a, w) && Acts(l, a, w, act, e, a', w') && WritesTo(a, e, box)
    requires t < |w.jobs| && w.jobs[t].Publishing? && w.jobs[t].id == box
    ensures e.call.handle == w.jobs[t].handle
  {
    hide FilesOk, BoxesOk;
    var u := act.worker;
    assert JobOk(a, w, t) && JobOk(a, w, u);
    assert u != t ==> Apart(w, t, u);
    SameBox(a, w, w.jobs[t].box, w.jobs[u].box);
  }

  lemma PublishesTo(l: Limits, a: AFs, w: World, act: Act, e: Event, a': AFs, w': World, box: int)
    requires WorldOk(a, w) && Acts(l, a, w, act, e, a', w') && WritesTo(a, e, box)
    ensures act.Publish? && act.worker < |w.jobs| && IsMessage(e.call.buffer)
    ensures w.jobs[act.worker].Publishing? && w.jobs[act.worker].id == box && w.jobs[act.worker].handle == e.call.handle
  {
    hide FilesOk, BoxesOk;
    assert JobOk(a, w, act.worker);
    assert e.call.buffer[..|e.call.buffer| - 1] == act.message;
  }

  /** When the publisher that is at work at step j began. */
  lemma {:induction false} Began(
      l: Limits, states: seq<AFs>, events: seq<Event>, ws: seq<World>, acts: seq<Act>, t: nat, j: nat) returns (o: nat)
    requires BrokerRun(l, states, events, ws, acts) && j < |ws| && t < |ws[j].jobs| && ws[j].jobs[t].Publishing?
    ensures o < j < |states| == |events| + 1 == |ws| && states[o + 1].files == states[o].files
    ensures OpensToAppend(states[o], events[o], states[o + 1], ws[j].jobs[t].id, ws[j].jobs[t].handle)
    ensures forall m :: o < m <= j ==> t < |ws[m].jobs| && ws[m].jobs[t] == ws[j].jobs[t]
    decreases j
  {
    hide Acts, AStep, Fresh, Trace, WorldOk, OpensToAppend;
    if j == 0 {
      FreshIdle(states[0], ws[0], t);
      assert false;
    } else {
      StepOf(l, states, events, ws, acts, j - 1);
      WorldAlways(l, states, events, ws, acts, j - 1);
      SameWorkers(l, states[j - 1], ws[j - 1], acts[j - 1], events[j - 1], states[j], ws[j]);
      if ws[j - 1].jobs[t] == ws[j].jobs[t] {
        o := Began(l, states, events, ws, acts, t, j - 1);
      } else {
        o := j - 1;
        Begins(l, states[o], ws[o], acts[o], events[o], states[j], ws[j], t);
      }
    }
  }

  lemma FreshIdle(a: AFs, w: World, t: nat)
    requires Fresh(a, w) && t < |w.jobs|
    ensures w.jobs[t].Idle?
  {
  }

  /** A publisher at work has a session of its own. */
  lemma HasSession(
      l: Limits, states: seq<AFs>, events: seq<Event>, ws: seq<World>, acts: seq<Act>, t: nat, box: int, j: nat)
    returns (o: nat)
    requires BrokerRun(l, states, events, ws, acts) && j < |ws| && t < |ws[j].jobs|
    requires ws[j].jobs[t].Publishing? && ws[j].jobs[t].id == box
    ensures o < j < |states| == |events| + 1 == |ws| && states[o + 1].files == states[o].files
    ensures MessageStream.Session(states, events, box, ws[j].jobs[t].handle, o, j)
    ensures forall m :: o < m <= j ==> t < |ws[m].jobs| && ws[m].jobs[t] == ws[j].jobs[t]
  {
    hide Acts, AStep, Fresh, Trace, WorldOk, OpensToAppend, WritesTo;
    o := Began(l, states, events, ws, acts, t, j);
    var h := ws[j].jobs[t].handle;
    forall m | o < m < j
      ensures events[m].call != Close(h) && (WritesTo(states[m], events[m], box) ==> Writer(events[m]) == h)
    {
      StepOf(l, states, events, ws, acts, m);
      WorldAlways(l, states, events, ws, acts, m);
      StaysOpen(l, states[m], ws[m], acts[m], events[m], states[m + 1], ws[m + 1], t);
      if WritesTo(states[m], events[m], box) {
        WritesAlone(l, states[m], ws[m], acts[m], events[m], states[m + 1], ws[m + 1], t, box);
        WriterIs(states[m], events[m], box);
      }
    }
    SessionIs(states, events, box, h, o, j);
  }

  /** The handle a call writes to. */
  function Writer(e: Event): int { if e.call.Write? then e.call.handle else -1 }

  lemma WriterIs(a: AFs, e: Event, box: int)
    requires WritesTo(a, e, box)
    ensures Writer(e) == e.call.handle
  {
  }

  lemma SessionIs(states: seq<AFs>, events: seq<Event>, box: int, h: int, o: nat, j: nat)
    requires |states| == |events| + 1 && o < j <= |events| && OpensToAppend(states[o], events[o], states[o + 1], box, h)
    requires forall m :: o < m < j ==>
               events[m].call != Close(h) && (WritesTo(states[m], events[m], box) ==> Writer(events[m]) == h)
    ensures MessageStream.Session(states, events, box, h, o, j)
  {
  }

  // ---- publishers take turns ----

  /** A file that a publisher has open exists. */
  lemma PublishedExists(a: AFs, w: World, t: nat)
    requires WorldOk(a, w) && t < |w.jobs| && w.jobs[t].Publishing?
    ensures w.jobs[t].id in a.files
  {
    assert JobOk(a, w, t);
    BoxIsBound(a, w, w.jobs[t].box);
  }

  lemma NoneTruncates(l: Limits, a: AFs, w: World, act: Act, e: Event, a': AFs, w': World, box: int)
    requires Acts(l, a, w, act, e, a', w')
    ensures !Truncates(a, e, box)
  {
  }

  /** What a step of the run does to the box. */
  lemma BrokerStep(
      l: Limits, states: seq<AFs>, events: seq<Event>, ws: seq<World>, acts: seq<Act>, box: int, from: nat, j: nat)
    requires BrokerRun(l, states, events, ws, acts) && 0 < from <= j < |events|
    requires |states| == |events| + 1 && box !in states[from - 1].files && box in states[from].files
    requires box in states[j + 1].files
    ensures DisciplinedStep(states, events, box, from, j)
  {
    hide Acts, AStep, Fresh, Trace, WorldOk, Truncates, WritesTo, IsMessage, MessageStream.Session;
    StepOf(l, states, events, ws, acts, j);
    WorldAlways(l, states, events, ws, acts, j);
    NoneTruncates(l, states[j], ws[j], acts[j], events[j], states[j + 1], ws[j + 1], box);
    if WritesTo(states[j], events[j], box) {
      PublishesTo(l, states[j], ws[j], acts[j], events[j], states[j + 1], ws[j + 1], box);
      var t := acts[j].worker;
      var o := HasSession(l, states, events, ws, acts, t, box, j);
      if o < from {
        assert o != from - 1;
        WorldAlways(l, states, events, ws, acts, from - 1);
        PublishedExists(states[from - 1], ws[from - 1], t);
        assert false;
      }
      assert MessageStream.Session(states, events, box, ws[j].jobs[t].handle, o, j);
      HasWriter(states[j], events[j], box);
    }
  }

  lemma HasWriter(a: AFs, e: Event, box: int)
    requires WritesTo(a, e, box)
    ensures e.call.Write?
  {
  }

  /** From the step on at which the box's file is made, as long as it exists, its publishers take turns. */
  lemma PublishersTakeTurns(
      l: Limits, states: seq<AFs>, events: seq<Event>, ws: seq<World>, acts: seq<Act>, box: int, from: nat, k: nat)
    requires BrokerRun(l, states, events, ws, acts) && 0 < from <= k <= |events|
    requires |states| == |events| + 1 && box !in states[from - 1].files
    requires forall j :: from <= j <= k ==> box in states[j].files
    ensures Disciplined(states, events, box, from, k)
  {
    hide BrokerRun, DisciplinedStep;
    forall j | from <= j < k ensures DisciplinedStep(states, events, box, from, j) {
      BrokerStep(l, states, events, ws, acts, box, from, j);
    }
  }

  /** A file that is new is empty. */
  lemma NewIsEmpty(l: Limits, a: AFs, w: World, act: Act, e: Event, a': AFs, w': World, box: int)
    requires WorldOk(a, w) && Acts(l, a, w, act, e, a', w') && AStep(l, a, e.call, a', e.ret, e.bytes)
    requires box !in a.files && box in a'.files
    ensures a'.files[box] == Plain([])
  {
    hide JobsOk, HandlesOk, Opens, Reads;
    match act
    case OpenBox(_) => OpenEffect(l, a, e.call.path, APPEND_MODE, a', e.ret);
    case SubOpen(_, _) =>
      if e != NO_CALL {
        OpenEffect(l, a, e.call.path, READ_MODE, a', e.ret);
      }
    case CreateOpen(name, _) =>
      assert !HasBox(w.boxes, name);
      CreateEffect(l, a, name, a', e.ret);
    case SubRead(_) => ReadEffect(a, e.call.handle, e.call.len, a', e.ret, e.bytes);
    case _ =>
  }

  // ---- subscribers ----

  /** A subscriber's handle stays its own until it closes it. */
  lemma ReaderStays(l: Limits, a: AFs, w: World, act: Act, e: Event, a': AFs, w': World, g: int)
    requires WorldOk(a, w) && Acts(l, a, w, act, e, a', w') && g in w.readers && act != SubClose(g)
    ensures g in w'.readers && e.call != Close(g) && !(e.call.Write? && e.call.handle == g)
    ensures e.call.Read? ==> e.call.len == 1024
  {
    hide BoxesOk;
    if act.CloseBox? || act.Publish? {
      assert JobOk(a, w, act.worker);
    }
  }

  lemma SubOpens(l: Limits, a: AFs, w: World, act: Act, e: Event, a': AFs, w': World)
    requires WorldOk(a, w) && Acts(l, a, w, act, e, a', w') && AStep(l, a, e.call, a', e.ret, e.bytes)
    requires act.SubOpen? && e.ret != -1
    ensures e.ret in w'.readers && e.ret in a'.handles && a'.handles[e.ret].offset == 0
  {
    hide FilesOk, BoxesOk, JobsOk, HandlesOk, Opens;
    OpenEffect(l, a, e.call.path, READ_MODE, a', e.ret);
  }

  lemma {:induction false} ReaderAlways(
      l: Limits, states: seq<AFs>, events: seq<Event>, ws: seq<World>, acts: seq<Act>, g: int, a: nat, j: nat)
    requires BrokerRun(l, states, events, ws, acts) && a <= j < |ws| && g in ws[a].readers
    requires |acts| == |events| && forall m :: a <= m < j && m < |acts| ==> acts[m] != SubClose(g)
    ensures g in ws[j].readers
    decreases j
  {
    hide Acts, AStep, Fresh, Trace, WorldOk;
    if a < j {
      StepOf(l, states, events, ws, acts, j - 1);
      ReaderAlways(l, states, events, ws, acts, g, a, j - 1);
      WorldAlways(l, states, events, ws, acts, j - 1);
      ReaderStays(l, states[j - 1], ws[j - 1], acts[j - 1], events[j - 1], states[j], ws[j], g);
    }
  }

  /** A subscriber that opened the box at step a and has not closed it. */
  lemma IsSubscribed(
      l: Limits, states: seq<AFs>, events: seq<Event>, ws: seq<World>, acts: seq<Act>, box: int, a: nat, k: nat)
    requires BrokerRun(l, states, events, ws, acts) && 0 < a <= k < |ws| && l.blockSize <= 1024
    requires |states| == |events| + 1 && |acts| == |events|
    requires k <= |events| && acts[a - 1].SubOpen? && events[a - 1].ret != -1
    requires var g := events[a - 1].ret;
             && (g in states[a].handles ==> states[a].handles[g].inumber == box)
             && forall m :: a <= m < k ==> acts[m] != SubClose(g)
    ensures Subscribed(l, states, events, box, events[a - 1].ret, a, k)
  {
    hide Acts, AStep, Fresh, Trace, WorldOk, BrokerRun;
    var g := events[a - 1].ret;
    StepOf(l, states, events, ws, acts, a - 1);
    WorldAlways(l, states, events, ws, acts, a - 1);
    SubOpens(l, states[a - 1], ws[a - 1], acts[a - 1], events[a - 1], states[a], ws[a]);
    forall j | a <= j < k
      ensures && events[j].call != Close(g) && !(events[j].call.Write? && events[j].call.handle == g)
              && (events[j].call.Read? && events[j].call.handle == g ==> l.blockSize <= events[j].call.len)
    {
      StepOf(l, states, events, ws, acts, j);
      ReaderAlways(l, states, events, ws, acts, g, a, j);
      WorldAlways(l, states, events, ws, acts, j);
      ReaderStays(l, states[j], ws[j], acts[j], events[j], states[j + 1], ws[j + 1], g);
    }
  }

  // ---- delivery ----

  /**
   * In every run of the broker, whoever publishes to a box and however the steps interleave: what a
   * subscriber of the box has received is a prefix of what was published to it since it was made, and all of
   * it once the subscriber has drained the box.
   */
  lemma BrokerDelivers(
      l: Limits, states: seq<AFs>, events: seq<Event>, ws: seq<World>, acts: seq<Act>, box: int, from: nat, a: nat,
      k: nat)
    requires BrokerRun(l, states, events, ws, acts) && 0 < from <= a <= k <= |events|
    requires l.blockSize <= 1024
    requires |states| == |events| + 1 == |ws| && |acts| == |events| && box !in states[from - 1].files
    requires forall j :: from <= j <= k ==> box in states[j].files
    requires acts[a - 1].SubOpen? && events[a - 1].ret != -1
    requires var g := events[a - 1].ret;
             && (g in states[a].handles ==> states[a].handles[g].inumber == box)
             && forall m :: a <= m < k ==> acts[m] != SubClose(g)
    ensures var g := events[a - 1].ret;
            && Received(events, g, a, k) <= Published(states, events, box, from, k)
            && g in states[k].handles && states[k].files[box].Plain?
            && (states[k].handles[g].offset == |states[k].files[box].bytes| ==>
                  Received(events, g, a, k) == Published(states, events, box, from, k))
  {
    hide BrokerRun, Trace, Disciplined, Subscribed, Received, Published, Acts, AStep, WorldOk, BoxOk;
    var g := events[a - 1].ret;
    PublishersTakeTurns(l, states, events, ws, acts, box, from, k);
    StepOf(l, states, events, ws, acts, from - 1);
    WorldAlways(l, states, events, ws, acts, from - 1);
    NewIsEmpty(l, states[from - 1], ws[from - 1], acts[from - 1], events[from - 1], states[from], ws[from], box);
    IsSubscribed(l, states, events, ws, acts, box, a, k);
    IsTrace(l, states, events, ws, acts);
    SubscriberGetsPrefix(l, states, events, box, from, g, a, k);
    BoxHasBytes(l, states[k], box);
  }

  lemma IsTrace(l: Limits, states: seq<AFs>, events: seq<Event>, ws: seq<World>, acts: seq<Act>)
    requires BrokerRun(l, states, events, ws, acts)
    ensures Trace(l, states, events)
  {
  }

  /** The same on the tables, in every run of clean calls that the broker makes. */
  lemma BrokerDeliversOnTables(
      p: Params, memory: seq<Byte>, ss: seq<State>, cs: seq<Call>, ws: seq<World>, acts: seq<Act>, box: int, from: nat,
      a: nat, k: nat)
    requires FsRuns.Run(ss, cs) && FsRuns.Starts(ss[0], p, memory) && p.blockSize <= 1024
    requires forall j :: 0 <= j < |cs| ==> ss[j].Mounted() && FsRefinement.Clean(ss[j], cs[j])
    requires forall j :: 0 <= j < |ss| ==> ss[j].Shape()
    requires ss[0].Mounted() && BrokerActs(FsRefinement.LimitsOf(ss[0]), AbsOf(ss), EventsOf(ss, cs), ws, acts)
    requires 0 < from <= a <= k <= |cs| && |acts| == |cs|
    requires box !in FsRefinement.Files(ss[from - 1])
    requires forall j :: from <= j <= k ==> box in FsRefinement.Files(ss[j])
    requires acts[a - 1].SubOpen? && EventsOf(ss, cs)[a - 1].ret != -1
    requires var g := EventsOf(ss, cs)[a - 1].ret;
             && (g in FsRefinement.Handles(ss[a]) ==> FsRefinement.Handles(ss[a])[g].inumber == box)
             && forall m :: a <= m < k ==> acts[m] != SubClose(g)
    ensures var g := EventsOf(ss, cs)[a - 1].ret;
            && Received(EventsOf(ss, cs), g, a, k) <= Published(AbsOf(ss), EventsOf(ss, cs), box, from, k)
            && ss[k].IsOpen(g) && ss[k].ValidInum(box)
            && (ss[k].open[g].offset == |FsReads.Content(ss[k], box)| ==>
                  Received(EventsOf(ss, cs), g, a, k) == Published(AbsOf(ss), EventsOf(ss, cs), box, from, k))
  {
    hide FsRuns.Starts, Step, FsRefinement.Clean, FsRefinement.LimitsOf, FsRefinement.Files, FsRefinement.Handles;
    hide FsRefinement.Names, Trace, BrokerActs, EventsOf, AbsOf, Received, Published, FsReads.Content, Acts;
    var l, states, events := FsRefinement.LimitsOf(ss[0]), AbsOf(ss), EventsOf(ss, cs);
    RunIsTrace(p, memory, ss, cs);
    FsAnswers.InitIs(p, memory, ss[0]);
    BlockSizeIs(ss[0]);
    StartsFresh(l, states, events, ws, acts);
    BrokerDelivers(l, states, events, ws, acts, box, from, a, k);
    PlainContent(ss[k], box, events[a - 1].ret);
  }

  lemma BlockSizeIs(s: State)
    requires s.Mounted()
    ensures FsRefinement.LimitsOf(s).blockSize == s.blockSize
  {
  }

  lemma StartsFresh(l: Limits, states: seq<AFs>, events: seq<Event>, ws: seq<World>, acts: seq<Act>)
    requires Trace(l, states, events) && BrokerActs(l, states, events, ws, acts)
    requires states[0] == AFs(map[], map[], map[])
    ensures BrokerRun(l, states, events, ws, acts) && |ws| == |states| == |events| + 1
  {
  }

  // ---- passwords ----

  /** A box that is there was there before, or has just been created. */
  lemma BoxHistory(l: Limits, a: AFs, w: World, act: Act, e: Event, a': AFs, w': World, i: nat)
    requires Acts(l, a, w, act, e, a', w') && i < |w'.boxes| && w'.boxes[i].taken
    ensures var b := w'.boxes[i];
            || SameBoxAt(w, i, b.name, b.password)
            || (act == CreateOpen(b.name, b.password) && e.ret != -1)
  {
  }

  /** Slot i holds a box of this name and password. */
  predicate SameBoxAt(w: World, i: nat, name: CString, password: CString) {
    i < |w.boxes| && w.boxes[i].taken && w.boxes[i].name == name && w.boxes[i].password == password
  }

  /** Every box was created with the name and the password it has, and has had them since. */
  lemma {:induction false} CreatedWith(
      l: Limits, states: seq<AFs>, events: seq<Event>, ws: seq<World>, acts: seq<Act>, i: nat, j: nat) returns (n: nat)
    requires BrokerRun(l, states, events, ws, acts) && j < |ws| && i < |ws[j].boxes| && ws[j].boxes[i].taken
    ensures n < j && j <= |acts| == |events| && |ws| == |acts| + 1
    ensures acts[n] == CreateOpen(ws[j].boxes[i].name, ws[j].boxes[i].password) && events[n].ret != -1
    ensures forall m :: n < m <= j ==> SameBoxAt(ws[m], i, ws[j].boxes[i].name, ws[j].boxes[i].password)
    decreases j
  {
    hide Acts, AStep, Trace;
    if j == 0 {
      FreshHasNoBox(states[0], ws[0], i);
      assert false;
    } else {
      StepOf(l, states, events, ws, acts, j - 1);
      BoxHistory(l, states[j - 1], ws[j - 1], acts[j - 1], events[j - 1], states[j], ws[j], i);
      if SameBoxAt(ws[j - 1], i, ws[j].boxes[i].name, ws[j].boxes[i].password) {
        n := CreatedWith(l, states, events, ws, acts, i, j - 1);
      } else {
        n := j - 1;
      }
    }
  }

  lemma FreshHasNoBox(a: AFs, w: World, i: nat)
    requires Fresh(a, w) && i < |w.boxes|
    ensures !w.boxes[i].taken
  {
  }

  /** Worker t is at slot i for a publisher that gave this name and password. */
  predicate AtWork(w: World, t: nat, i: nat, name: CString, password: CString) {
    t < |w.jobs| &&
    match w.jobs[t]
    case Waiting(k, n, p) => k == i && n == name && p == password
    case Publishing(k, n, p, _, _) => k == i && n == name && p == password
    case _ => false
  }

  lemma JobHistory(
      l: Limits, a: AFs, w: World, act: Act, e: Event, a': AFs, w': World, t: nat, i: nat, name: CString,
      password: CString)
    requires Acts(l, a, w, act, e, a', w') && AtWork(w', t, i, name, password)
    ensures || AtWork(w, t, i, name, password)
            || (act == Connect(t, name, password) && PubSessions.Admitted(w.boxes, name, password) == Some(i))
  {
  }

  /** A publisher at work was admitted with the name and password it gave. */
  lemma {:induction false} ConnectedWith(
      l: Limits, states: seq<AFs>, events: seq<Event>, ws: seq<World>, acts: seq<Act>, t: nat, j: nat, i: nat,
      name: CString, password: CString)
    returns (c: nat)
    requires BrokerRun(l, states, events, ws, acts) && j < |ws| && AtWork(ws[j], t, i, name, password)
    ensures c < j && j <= |acts| && |ws| == |acts| + 1
    ensures acts[c] == Connect(t, name, password) && PubSessions.Admitted(ws[c].boxes, name, password) == Some(i)
    ensures forall m :: c < m <= j ==> AtWork(ws[m], t, i, name, password)
    decreases j
  {
    hide Acts, AStep, Trace, PubSessions.Admitted, Fresh;
    if j == 0 {
      FreshAtRest(states[0], ws[0], t, i, name, password);
      assert false;
    } else {
      StepOf(l, states, events, ws, acts, j - 1);
      JobHistory(l, states[j - 1], ws[j - 1], acts[j - 1], events[j - 1], states[j], ws[j], t, i, name, password);
      if AtWork(ws[j - 1], t, i, name, password) {
        c := ConnectedWith(l, states, events, ws, acts, t, j - 1, i, name, password);
      } else {
        c := j - 1;
      }
    }
  }

  lemma FreshAtRest(a: AFs, w: World, t: nat, i: nat, name: CString, password: CString)
    requires Fresh(a, w)
    ensures !AtWork(w, t, i, name, password)
  {
  }

  lemma PublisherAtWork(a: AFs, w: World, t: nat)
    requires WorldOk(a, w) && t < |w.jobs| && w.jobs[t].Publishing?
    ensures AtWork(w, t, w.jobs[t].box, w.jobs[t].name, w.jobs[t].password) && w.jobs[t].name != []
  {
    assert JobOk(a, w, t);
    BoxIsBound(a, w, w.jobs[t].box);
  }

  /** A slot to which a publisher that names a box is admitted holds a box of that name and password. */
  lemma AdmissionNeedsPassword(a: AFs, w: World, name: CString, password: CString, i: nat)
    requires WorldOk(a, w) && name != [] && PubSessions.Admitted(w.boxes, name, password) == Some(i)
    ensures SameBoxAt(w, i, name, password)
  {
    PubSessions.AdmittedIff(w.boxes, name, password, i);
  }

  /**
   * Whoever publishes to a box connected with the password that the box was created with, after it had been
   * created, and to that very box.
   */
  lemma PublisherKnowsPassword(
      l: Limits, states: seq<AFs>, events: seq<Event>, ws: seq<World>, acts: seq<Act>, t: nat, j: nat)
    returns (n: nat, c: nat)
    requires BrokerRun(l, states, events, ws, acts) && j < |ws| && t < |ws[j].jobs| && ws[j].jobs[t].Publishing?
    ensures n < c < j <= |acts| == |events| && |ws| == |acts| + 1
    ensures var Publishing(i, name, password, _, _) := ws[j].jobs[t];
            && acts[n] == CreateOpen(name, password) && events[n].ret != -1
            && acts[c] == Connect(t, name, password)
            && forall m :: n < m <= c ==> SameBoxAt(ws[m], i, name, password)
  {
    hide BrokerRun, WorldOk, PubSessions.Admitted;
    var Publishing(i, name, password, _, _) := ws[j].jobs[t];
    WorldAlways(l, states, events, ws, acts, j);
    PublisherAtWork(states[j], ws[j], t);
    c := ConnectedWith(l, states, events, ws, acts, t, j, i, name, password);
    WorldAlways(l, states, events, ws, acts, c);
    AdmissionNeedsPassword(states[c], ws[c], name, password, i);
    n := CreatedWith(l, states, events, ws, acts, i, c);
  }

  lemma SubNeedsPassword(l: Limits, a: AFs, w: World, act: Act, e: Event, a': AFs, w': World) returns (i: nat)
    requires WorldOk(a, w) && Acts(l, a, w, act, e, a', w') && AStep(l, a, e.call, a', e.ret, e.bytes)
    requires act.SubOpen? && e.ret != -1
    ensures SameBoxAt(w, i, act.name, act.password)
  {
    hide JobsOk, HandlesOk, Opens;
    OpenEffect(l, a, act.name, READ_MODE, a', e.ret);
    i := FindBox(w.boxes, act.name);
    assert HasBox(w.boxes, act.name);
  }

  /** Whoever reads from a box gave the password that the box was created with. */
  lemma SubscriberKnowsPassword(
      l: Limits, states: seq<AFs>, events: seq<Event>, ws: seq<World>, acts: seq<Act>, c: nat)
    returns (n: nat)
    requires BrokerRun(l, states, events, ws, acts) && c < |acts| == |events|
    requires acts[c].SubOpen? && events[c].ret != -1
    ensures n < c && acts[n] == CreateOpen(acts[c].name, acts[c].password) && events[n].ret != -1
  {
    hide BrokerRun, WorldOk, Acts, AStep;
    StepOf(l, states, events, ws, acts, c);
    WorldAlways(l, states, events, ws, acts, c);
    var i := SubNeedsPassword(l, states[c], ws[c], acts[c], events[c], states[c + 1], ws[c + 1]);
    n := CreatedWith(l, states, events, ws, acts, i, c);
  }

  // ---- the sessions of these runs are those of PubSessions ----

  function WorkerOf(j: Job): PubSessions.Worker {
    if j.Idle? then PubSessions.Idle else PubSessions.Publishing(j.box)
  }

  function ServerOf(w: World): PubSessions.Server {
    PubSessions.Server(w.boxes, seq(|w.jobs|, t requires 0 <= t < |w.jobs| => WorkerOf(w.jobs[t])))
  }

  /** What a step is to the publishers' sessions; None when it does not concern them. */
  function EventOf(w: World, act: Act, e: Event): Option<PubSessions.Event> {
    match act
    case Connect(t, name, password) => Some(PubSessions.Connect(t, name, password))
    case OpenBox(t) => if e.ret == -1 then Some(PubSessions.Abandon(t)) else None
    case Release(t) => Some(PubSessions.Leave(t))
    case CreateOpen(name, password) => Some(PubSessions.BoxCreated(name, password, e.ret != -1))
    case Remove(name, _) =>
      var i := FindBox(w.boxes, name);
      if i != -1 && e.ret != -1 then Some(PubSessions.BoxRemoved(i)) else None
    case _ => None
  }

  /** Each step of the broker is an event of the publishers' sessions, or leaves them as they are. */
  lemma ActsAreEvents(l: Limits, a: AFs, w: World, act: Act, e: Event, a': AFs, w': World)
    requires WorldOk(a, w) && Acts(l, a, w, act, e, a', w')
    ensures match EventOf(w, act, e)
            case None => ServerOf(w') == ServerOf(w)
            case Some(v) =>
              && PubSessions.Enabled(ServerOf(w), v) && ServerOf(w') == PubSessions.Next(ServerOf(w), v)
              && (v.BoxRemoved? ==> !PubSessions.Active(ServerOf(w), v.box))
  {
    hide FilesOk, BoxesOk, HandlesOk, FindBox, Room, BoxEntered, BoxRefused;
    hide PubSessions.Admitted, PubSessions.Connected;
    match act
    case Connect(t, name, password) =>
      match PubSessions.Admitted(w.boxes, name, password) {
        case None =>
        case Some(i) => JobChanges(w, w', t, Waiting(i, name, password));
      }
    case OpenBox(t) => JobChanges(w, w', t, w'.jobs[t]);
    case CloseBox(t) => JobChanges(w, w', t, w'.jobs[t]);
    case Release(t) => JobChanges(w, w', t, Idle);
    case Remove(name, _) =>
      var i := FindBox(w.boxes, name);
      if i != -1 {
        NobodyActive(w, i);
      }
    case _ =>
  }

  lemma JobChanges(w: World, w': World, t: nat, j: Job)
    requires t < |w.jobs| && w'.jobs == w.jobs[t := j]
    ensures ServerOf(w').workers == ServerOf(w).workers[t := WorkerOf(j)]
  {
  }

  lemma NobodyActive(w: World, i: nat)
    requires Unused(w, i)
    ensures !PubSessions.Active(ServerOf(w), i)
  {
    forall t: nat | t < |w.jobs| ensures ServerOf(w).workers[t] != PubSessions.Publishing(i) {
      assert !HasJob(w, t, i);
    }
  }

  // ---- a run that delivers ----

  ghost predicate Does(l: Limits, a: AFs, w: World, act: Act, e: Event, a': AFs, w': World) {
    Acts(l, a, w, act, e, a', w') && AStep(l, a, e.call, a', e.ret, e.bytes)
  }

  /** File 1 under one name, holding c, with these handles on it. */
  function OneFile(path: CString, c: seq<Byte>, handles: map<int, OpenEntry>): AFs
    requires path != []
  {
    AFs(map[path[1..] := 1], map[1 := Plain(c)], handles)
  }

  function OneBox(path: CString, password: CString, nPub: int): seq<Box> { [Box(path, password, nPub, 0, 0, true)] }

  predicate RoomForOne(l: Limits, path: CString, message: seq<Byte>) {
    && ValidPath(path) && ValidEntryName(path[1..])
    && NUL !in message && 0 < |message| < l.blockSize && |message| < 1024
    && l.files > 0 && l.names > 0 && l.handles > 1 && l.blocks > 0
  }

  lemma OneFileLeads(path: CString, c: seq<Byte>, handles: map<int, OpenEntry>)
    requires ValidPath(path)
    ensures var a := OneFile(path, c, handles); a.Bound(path) == 1 && a.LeadsTo(1, 1)
  {
    assert OneFile(path, c, handles).Resolved(1, 0) == Some(1);
  }

  lemma DoesCreate(l: Limits, path: CString, password: CString, message: seq<Byte>)
    requires RoomForOne(l, path, message)
    ensures Does(l, AFs(map[], map[], map[]), World([BLANK], [Idle], {}, {}), CreateOpen(path, password),
                 Event(Open(path, CREATE_MODE), 0, []),
                 OneFile(path, [], map[0 := OpenEntry(1, 0)]), World(OneBox(path, password, 0), [Idle], {0}, {}))
  {
    var a := AFs(map[], map[], map[]);
    assert NewFile(l, a, path[1..], 1, OneFile(path, [], map[0 := OpenEntry(1, 0)]), 0);
    assert BoxEntered([BLANK], path, password) == OneBox(path, password, 0);
  }

  lemma DoesCreateClose(l: Limits, path: CString, password: CString)
    requires ValidPath(path)
    ensures Does(l, OneFile(path, [], map[0 := OpenEntry(1, 0)]), World(OneBox(path, password, 0), [Idle], {0}, {}),
                 CreateClose(0), Event(Close(0), 0, []),
                 OneFile(path, [], map[]), World(OneBox(path, password, 0), [Idle], {}, {}))
  {
  }

  lemma DoesConnect(l: Limits, path: CString, password: CString)
    requires ValidPath(path)
    ensures Does(l, OneFile(path, [], map[]), World(OneBox(path, password, 0), [Idle], {}, {}),
                 Connect(0, path, password), NO_CALL, OneFile(path, [], map[]),
                 World(OneBox(path, password, 1), [Waiting(0, path, password)], {}, {}))
  {
    var boxes := OneBox(path, password, 0);
    assert boxes[0].name == path && FindBox(boxes, path) == 0;
    assert PubSessions.Connected(boxes, path, password) == OneBox(path, password, 1);
  }

  lemma DoesOpen(l: Limits, path: CString, password: CString)
    requires ValidPath(path) && l.handles > 1
    ensures Does(l, OneFile(path, [], map[]), World(OneBox(path, password, 1), [Waiting(0, path, password)], {}, {}),
                 OpenBox(0), Event(Open(path, APPEND_MODE), 0, []), OneFile(path, [], map[0 := OpenEntry(1, 0)]),
                 World(OneBox(path, password, 1), [Publishing(0, path, password, 0, 1)], {}, {}))
  {
    var a, a' := OneFile(path, [], map[]), OneFile(path, [], map[0 := OpenEntry(1, 0)]);
    OneFileLeads(path, [], map[]);
    assert OpensResolved(l, a, 1, APPEND_MODE, a', 0);
  }

  lemma NoBlockUsed(path: CString, handles: map<int, OpenEntry>)
    requires path != []
    ensures OneFile(path, [], handles).BlocksUsed() == 0
  {
    var a := OneFile(path, [], handles);
    assert (set i | i in a.files && a.files[i].UsesBlock()) == {};
  }

  lemma DoesPublish(l: Limits, path: CString, password: CString, message: seq<Byte>)
    requires RoomForOne(l, path, message)
    ensures var n := |message| + 1;
            var w := World(OneBox(path, password, 1), [Publishing(0, path, password, 0, 1)], {}, {});
            Does(l, OneFile(path, [], map[0 := OpenEntry(1, 0)]), w, Publish(0, message),
                 Event(Write(0, message + [NUL]), n, []),
                 OneFile(path, message + [NUL], map[0 := OpenEntry(1, n)]), w)
  {
    NoBlockUsed(path, map[0 := OpenEntry(1, 0)]);
    var buffer := message + [NUL];
    assert buffer[..|buffer|] == buffer && Overwrite([], 0, buffer) == buffer;
  }

  lemma DoesSubOpen(l: Limits, path: CString, password: CString, message: seq<Byte>)
    requires RoomForOne(l, path, message)
    ensures var n := |message| + 1;
            var w := World(OneBox(path, password, 1), [Publishing(0, path, password, 0, 1)], {}, {});
            Does(l, OneFile(path, message + [NUL], map[0 := OpenEntry(1, n)]), w, SubOpen(path, password),
                 Event(Open(path, READ_MODE), 1, []),
                 OneFile(path, message + [NUL], map[0 := OpenEntry(1, n), 1 := OpenEntry(1, 0)]), w.(readers := {1}))
  {
    var n := |message| + 1;
    var a := OneFile(path, message + [NUL], map[0 := OpenEntry(1, n)]);
    var a' := OneFile(path, message + [NUL], map[0 := OpenEntry(1, n), 1 := OpenEntry(1, 0)]);
    OneFileLeads(path, message + [NUL], map[0 := OpenEntry(1, n)]);
    assert OpensResolved(l, a, 1, READ_MODE, a', 1);
    assert OneBox(path, password, 1)[0].name == path && FindBox(OneBox(path, password, 1), path) == 0;
  }

  lemma DeliversMessage(message: seq<Byte>)
    requires NUL !in message && 0 < |message| < 1024
    ensures FsReads.Delivered(message + [NUL], 0, 1024) == Chunk(message, |message|)
  {
    var c := message + [NUL];
    assert c[0] == message[0] && c[|message|] == NUL && forall k :: 0 <= k < |message| ==> c[k] == message[k];
    var z := NulFrom(c, 0);
    assert z == |message|;
    FsReads.DeliveredIs(c, 0, 1024, z);
    assert c[0..z] == message;
  }

  lemma DoesRead(l: Limits, path: CString, password: CString, message: seq<Byte>)
    requires RoomForOne(l, path, message)
    ensures var n := |message| + 1;
            var w := World(OneBox(path, password, 1), [Publishing(0, path, password, 0, 1)], {}, {1});
            Does(l, OneFile(path, message + [NUL], map[0 := OpenEntry(1, n), 1 := OpenEntry(1, 0)]), w, SubRead(1),
                 Event(Read(1, 1024), |message|, message),
                 OneFile(path, message + [NUL], map[0 := OpenEntry(1, n), 1 := OpenEntry(1, |message|)]), w)
  {
    hide FsReads.Delivered;
    DeliversMessage(message);
    var n := |message| + 1;
    var before := OneFile(path, message + [NUL], map[0 := OpenEntry(1, n), 1 := OpenEntry(1, 0)]);
    var after := OneFile(path, message + [NUL], map[0 := OpenEntry(1, n), 1 := OpenEntry(1, |message|)]);
    assert after == before.(handles := before.handles[1 := OpenEntry(1, |message|)]);
    ReadsFirst(before, message, after);
  }

  lemma ReadsFirst(a: AFs, message: seq<Byte>, a': AFs)
    requires NUL !in message && 0 < |message| < 1024 && 1 in a.handles && a.handles[1] == OpenEntry(1, 0)
    requires 1 in a.files && a.files[1] == Plain(message + [NUL])
    requires a' == a.(handles := a.handles[1 := OpenEntry(1, |message|)])
    ensures Reads(a, 1, 1024, a', |message|, message)
  {
    hide FsReads.Delivered;
    DeliversMessage(message);
  }

  /** One step more. */
  lemma Continue(
      l: Limits, states: seq<AFs>, events: seq<Event>, ws: seq<World>, acts: seq<Act>, act: Act, e: Event, a': AFs,
      w': World)
    requires BrokerRun(l, states, events, ws, acts) && |states| > 0 && |ws| > 0
    requires Does(l, states[|states| - 1], ws[|ws| - 1], act, e, a', w')
    ensures BrokerRun(l, states + [a'], events + [e], ws + [w'], acts + [act])
  {
    hide Acts, AStep, Fresh;
    var ss, es, vs, bs := states + [a'], events + [e], ws + [w'], acts + [act];
    forall j | 0 <= j < |bs|
      ensures Stepped(l, ss[j], es[j], ss[j + 1]) && Acts(l, ss[j], vs[j], bs[j], es[j], ss[j + 1], vs[j + 1])
    {
      if j < |acts| {
        StepOf(l, states, events, ws, acts, j);
      }
    }
  }

  lemma Begin(l: Limits, a: AFs, w: World)
    requires Fresh(a, w)
    ensures BrokerRun(l, [a], [], [w], [])
  {
  }

  /** A run as far as the last of its states. */
  ghost predicate RunsTo(l: Limits, a: AFs, w: World, acts: seq<Act>, bytes: seq<Byte>) {
    exists states: seq<AFs>, events: seq<Event>, ws: seq<World> ::
      BrokerRunTo(l, states, events, ws, acts, a, w, bytes)
  }

  ghost predicate BrokerRunTo(
      l: Limits, states: seq<AFs>, events: seq<Event>, ws: seq<World>, acts: seq<Act>, a: AFs, w: World,
      bytes: seq<Byte>)
  {
    && BrokerRun(l, states, events, ws, acts) && |states| > 0 && |ws| > 0
    && states[|states| - 1] == a && ws[|ws| - 1] == w
    && (|events| > 0 ==> events[|events| - 1].bytes == bytes)
  }

  lemma RunsOn(l: Limits, a: AFs, w: World, acts: seq<Act>, bytes: seq<Byte>, act: Act, e: Event, a': AFs, w': World)
    requires RunsTo(l, a, w, acts, bytes) && Does(l, a, w, act, e, a', w')
    ensures RunsTo(l, a', w', acts + [act], e.bytes)
  {
    hide BrokerRun, Does;
    var states: seq<AFs>, events: seq<Event>, ws: seq<World> :| BrokerRunTo(l, states, events, ws, acts, a, w, bytes);
    Continue(l, states, events, ws, acts, act, e, a', w');
    assert BrokerRunTo(l, states + [a'], events + [e], ws + [w'], acts + [act], a', w', e.bytes);
  }

  lemma RunsFrom(l: Limits, a: AFs, w: World)
    requires Fresh(a, w)
    ensures RunsTo(l, a, w, [], [])
  {
    Begin(l, a, w);
    assert BrokerRunTo(l, [a], [], [w], [], a, w, []);
  }

  /** A box with a publisher. */
  lemma SomeRunPublishes(l: Limits, path: CString, password: CString, message: seq<Byte>)
    requires RoomForOne(l, path, message)
    ensures var n := |message| + 1;
            RunsTo(l, OneFile(path, message + [NUL], map[0 := OpenEntry(1, n)]),
                   World(OneBox(path, password, 1), [Publishing(0, path, password, 0, 1)], {}, {}),
                   [CreateOpen(path, password), CreateClose(0), Connect(0, path, password), OpenBox(0),
                    Publish(0, message)], [])
  {
    hide RunsTo, Does, OneFile, OneBox;
    var n := |message| + 1;
    var a0, w0 := AFs(map[], map[], map[]), World([BLANK], [Idle], {}, {});
    RunsFrom(l, a0, w0);
    DoesCreate(l, path, password, message);
    var a1, w1 := OneFile(path, [], map[0 := OpenEntry(1, 0)]), World(OneBox(path, password, 0), [Idle], {0}, {});
    var b1 := CreateOpen(path, password);
    RunsOn(l, a0, w0, [], [], b1, Event(Open(path, CREATE_MODE), 0, []), a1, w1);
    assert [] + [b1] == [b1];
    DoesCreateClose(l, path, password);
    var a2, w2 := OneFile(path, [], map[]), World(OneBox(path, password, 0), [Idle], {}, {});
    RunsOn(l, a1, w1, [b1], [], CreateClose(0), Event(Close(0), 0, []), a2, w2);
    assert [b1] + [CreateClose(0)] == [b1, CreateClose(0)];
    DoesConnect(l, path, password);
    var b3 := Connect(0, path, password);
    var w3 := World(OneBox(path, password, 1), [Waiting(0, path, password)], {}, {});
    RunsOn(l, a2, w2, [b1, CreateClose(0)], [], b3, NO_CALL, a2, w3);
    assert [b1, CreateClose(0)] + [b3] == [b1, CreateClose(0), b3];
    DoesOpen(l, path, password);
    var w4 := World(OneBox(path, password, 1), [Publishing(0, path, password, 0, 1)], {}, {});
    RunsOn(l, a2, w3, [b1, CreateClose(0), b3], [], OpenBox(0), Event(Open(path, APPEND_MODE), 0, []), a1, w4);
    assert [b1, CreateClose(0), b3] + [OpenBox(0)] == [b1, CreateClose(0), b3, OpenBox(0)];
    DoesPublish(l, path, password, message);
    RunsOn(l, a1, w4, [b1, CreateClose(0), b3, OpenBox(0)], [], Publish(0, message),
      Event(Write(0, message + [NUL]), n, []), OneFile(path, message + [NUL], map[0 := OpenEntry(1, n)]), w4);
    assert [b1, CreateClose(0), b3, OpenBox(0)] + [Publish(0, message)]
        == [b1, CreateClose(0), b3, OpenBox(0), Publish(0, message)];
  }

  /**
   * There are such runs: a box is created, a publisher connects and publishes a message, a subscriber opens the
   * box and receives it.
   */
  lemma SomeRunDelivers(l: Limits, path: CString, password: CString, message: seq<Byte>)
    requires RoomForOne(l, path, message)
    ensures exists a, w ::
              RunsTo(l, a, w, [CreateOpen(path, password), CreateClose(0), Connect(0, path, password), OpenBox(0),
                               Publish(0, message), SubOpen(path, password), SubRead(1)], message)
  {
    hide RunsTo, Does, OneFile, OneBox;
    var n := |message| + 1;
    var acts := [CreateOpen(path, password), CreateClose(0), Connect(0, path, password), OpenBox(0),
                 Publish(0, message)];
    var w := World(OneBox(path, password, 1), [Publishing(0, path, password, 0, 1)], {}, {});
    var a5 := OneFile(path, message + [NUL], map[0 := OpenEntry(1, n)]);
    SomeRunPublishes(l, path, password, message);
    DoesSubOpen(l, path, password, message);
    var a6 := OneFile(path, message + [NUL], map[0 := OpenEntry(1, n), 1 := OpenEntry(1, 0)]);
    RunsOn(l, a5, w, acts, [], SubOpen(path, password), Event(Open(path, READ_MODE), 1, []), a6, w.(readers := {1}));
    DoesRead(l, path, password, message);
    var a7 := OneFile(path, message + [NUL], map[0 := OpenEntry(1, n), 1 := OpenEntry(1, |message|)]);
    RunsOn(l, a6, w.(readers := {1}), acts + [SubOpen(path, password)], [], SubRead(1),
      Event(Read(1, 1024), |message|, message), a7, w.(readers := {1}));
    assert acts + [SubOpen(path, password)] + [SubRead(1)]
        == [CreateOpen(path, password), CreateClose(0), Connect(0, path, password), OpenBox(0), Publish(0, message),
            SubOpen(path, password), SubRead(1)];
  }
}
