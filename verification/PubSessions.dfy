/** Publisher sessions, mbroker/mbroker.c:133-201: any number of worker threads, at most one publisher a box. */
module PubSessions {
  import opened CTypes
  import opened BoxTable

  /** What a worker thread is doing for a publisher. */
  datatype Worker = Idle | Publishing(box: nat)

  datatype Server = Server(boxes: seq<Box>, workers: seq<Worker>)

  /** The part of process_pub that runs under the table's lock: the box it gets, or None when it is turned away. */
  function Admitted(boxes: seq<Box>, name: CString, password: CString): (r: Option<nat>)
    ensures r.Some? ==> r.value < |boxes| && boxes[r.value].name == name && boxes[r.value].nPub != 1
  {
    var i := FindBox(boxes, name);
    if i == -1 || boxes[i].nPub == 1 || boxes[i].password != password then None else Some(i)
  }

  function Connected(boxes: seq<Box>, name: CString, password: CString): (r: seq<Box>)
    ensures |r| == |boxes|
  {
    match Admitted(boxes, name, password)
    case None => boxes
    case Some(i) => boxes[i := boxes[i].(nPub := 1, size := 0)]
  }

  /**
   * A publisher that names a box is admitted to a slot if and only if a box of that name and password is there
   * and has no publisher.
   */
  lemma AdmittedIff(boxes: seq<Box>, name: CString, password: CString, i: nat)
    requires TableOk(boxes) && name != []
    ensures Admitted(boxes, name, password) == Some(i) <==>
            && i < |boxes| && boxes[i].taken && boxes[i].name == name && boxes[i].password == password
            && boxes[i].nPub != 1
  {
  }

  /** Admission marks the box, sets its size back to 0, and changes nothing else. */
  lemma ConnectedIs(boxes: seq<Box>, name: CString, password: CString)
    ensures var after := Connected(boxes, name, password);
            forall j :: 0 <= j < |boxes| ==>
              after[j] == if Admitted(boxes, name, password) == Some(j)
                          then Box(boxes[j].name, boxes[j].password, 1, boxes[j].nSubs, 0, boxes[j].taken)
                          else boxes[j]
  {
  }

  /**
   * A publisher that names no box is admitted to a free slot, if there is one that is not marked: free slots
   * are blank, and so is its name. It is never admitted to a free slot under another name.
   */
  lemma AdmittedToNoBoxIff(boxes: seq<Box>, name: CString, password: CString)
    requires TableOk(boxes) && Admitted(boxes, name, password).Some?
    ensures !boxes[Admitted(boxes, name, password).value].taken <==> name == []
  {
  }

  datatype Event =
    | Connect(worker: nat, name: CString, password: CString)
    | Abandon(worker: nat)   // tfs_open failed, or the broker is ending: n_pub is left as it is
    | Leave(worker: nat)
    | BoxCreated(name: CString, password: CString, made: bool)
    | BoxRemoved(box: nat)

  /** Some worker publishes to the box. */
  ghost predicate Active(s: Server, box: nat) {
    exists t :: 0 <= t < |s.workers| && s.workers[t] == Publishing(box)
  }

  ghost predicate Enabled(s: Server, e: Event) {
    match e
    case Connect(t, _, _) => t < |s.workers| && s.workers[t].Idle?
    case Abandon(t) => t < |s.workers| && s.workers[t].Publishing?
    case Leave(t) => t < |s.workers| && s.workers[t].Publishing? && s.workers[t].box < |s.boxes|
    case BoxCreated(name, _, _) => |s.boxes| > 0 && FindBox(s.boxes, name) == -1
    case BoxRemoved(i) => i < |s.boxes| && s.boxes[i].taken
  }

  ghost function Next(s: Server, e: Event): Server
    requires Enabled(s, e)
  {
    match e
    case Connect(t, name, password) =>
      match Admitted(s.boxes, name, password) {
        case None => s
        case Some(i) => Server(Connected(s.boxes, name, password), s.workers[t := Publishing(i)])
      }
    case Abandon(t) => s.(workers := s.workers[t := Idle])
    case Leave(t) =>
      var i := s.workers[t].box;
      Server(s.boxes[i := s.boxes[i].(nPub := 0)], s.workers[t := Idle])
    case BoxCreated(name, password, made) =>
      s.(boxes := if made then BoxEntered(s.boxes, name, password) else BoxRefused(s.boxes))
    case BoxRemoved(i) => s.(boxes := s.boxes[i := BLANK])
  }

  /** A box with a publisher says so, and has one. */
  ghost predicate OnePublisher(s: Server) {
    && (forall t :: 0 <= t < |s.workers| && s.workers[t].Publishing? ==>
          s.workers[t].box < |s.boxes| && s.boxes[s.workers[t].box].nPub == 1)
    && (forall t, u :: 0 <= t < u < |s.workers| && s.workers[t].Publishing? ==> s.workers[t] != s.workers[u])
  }

  /** Every event keeps it, except removing a box somebody is publishing to, which never does. */
  lemma NextOnePublisherIff(s: Server, e: Event)
    requires OnePublisher(s) && Enabled(s, e)
    ensures OnePublisher(Next(s, e)) <==> !(e.BoxRemoved? && Active(s, e.box))
  {
    var s' := Next(s, e);
    match e
    case BoxRemoved(i) =>
      if Active(s, i) {
        var t :| 0 <= t < |s.workers| && s.workers[t] == Publishing(i);
        assert s'.boxes[s'.workers[t].box].nPub != 1;
      }
    case BoxCreated(_, _, _) =>
      var (table, i) := Room(s.boxes);
      assert forall j :: 0 <= j < |s.boxes| ==> s'.boxes[j].nPub == s.boxes[j].nPub;
    case _ =>
  }

  /** Two sessions can get onto one box once it has been removed under a publisher and created again. */
  lemma RemovedBoxTakesTwo(s: Server, t: nat, u: nat, i: nat, name: CString, password: CString)
    requires OnePublisher(s) && t < |s.workers| && u < |s.workers| && s.workers[t] == Publishing(i)
             && s.workers[u].Idle?
    requires s.boxes[i].taken && FreeBox(s.boxes[i := BLANK]) == i
    requires name != [] && FindBox(s.boxes[i := BLANK], name) == -1
    ensures var s1 := Next(s, BoxRemoved(i));
            && Enabled(s1, BoxCreated(name, password, true))
            && var s2 := Next(s1, BoxCreated(name, password, true));
            && Enabled(s2, Connect(u, name, password))
            && var s3 := Next(s2, Connect(u, name, password));
               s3.workers[t] == s3.workers[u] == Publishing(i)
  {
    var s1 := Next(s, BoxRemoved(i));
    var s2 := Next(s1, BoxCreated(name, password, true));
    assert FreeBox(s1.boxes) == i && Room(s1.boxes) == (s1.boxes, i);
    assert s2.boxes == s1.boxes[i := Box(name, password, 0, 0, 0, true)];
    forall j | 0 <= j < i ensures s2.boxes[j].name != name {
      assert s2.boxes[j] == s1.boxes[j];
    }
    FoundFirst(s2.boxes, name, i);
  }

  ghost predicate Run(ss: seq<Server>, es: seq<Event>) {
    && |ss| == |es| + 1
    && (forall t :: 0 <= t < |ss[0].workers| ==> ss[0].workers[t].Idle?)
    && forall k :: 0 <= k < |es| ==> Enabled(ss[k], es[k]) && ss[k + 1] == Next(ss[k], es[k])
  }

  /** In every run that removes no box under its publisher, no box ever has two publishers. */
  lemma {:induction false} OnePublisherAlways(ss: seq<Server>, es: seq<Event>, k: nat)
    requires Run(ss, es) && k < |ss|
    requires forall j :: 0 <= j < k && es[j].BoxRemoved? ==> !Active(ss[j], es[j].box)
    ensures OnePublisher(ss[k])
    ensures forall t, u :: 0 <= t < u < |ss[k].workers| && ss[k].workers[t].Publishing? ==>
            ss[k].workers[t] != ss[k].workers[u]
  {
    if k > 0 {
      OnePublisherAlways(ss, es, k - 1);
      NextOnePublisherIff(ss[k - 1], es[k - 1]);
    }
  }

  /** A box that says it has a publisher and has none. */
  ghost predicate Shut(s: Server, box: nat) {
    box < |s.boxes| && s.boxes[box].nPub == 1 && !Active(s, box)
  }

  lemma AbandonShuts(s: Server, t: nat)
    requires OnePublisher(s) && Enabled(s, Abandon(t))
    ensures Shut(Next(s, Abandon(t)), s.workers[t].box)
  {
    var s' := Next(s, Abandon(t));
    forall u | 0 <= u < |s'.workers| && u != t ensures s'.workers[u] != s.workers[t] {
      if u < t {
        assert s.workers[u].Publishing? ==> s.workers[u] != s.workers[t];
      }
    }
  }

  lemma StaysShut(s: Server, e: Event, box: nat)
    requires Shut(s, box) && Enabled(s, e) && e != BoxRemoved(box)
    ensures Shut(Next(s, e), box)
  {
    var s' := Next(s, e);
    if e.BoxCreated? {
      assert forall j :: 0 <= j < |s.boxes| ==> s'.boxes[j].nPub == s.boxes[j].nPub;
    }
    forall u | 0 <= u < |s'.workers| ensures s'.workers[u] != Publishing(box) {
      assert s.workers[u] != Publishing(box);
    }
  }

  /**
   * A publisher whose tfs_open fails leaves its box marked: until the box is removed nobody publishes to it
   * and nobody is admitted to it, under whatever name and password.
   */
  lemma {:induction false} AbandonedBoxIsShut(ss: seq<Server>, es: seq<Event>, k: nat, m: nat)
    requires Run(ss, es) && k < m < |ss| && es[k].Abandon?
    requires forall j :: 0 <= j < k && es[j].BoxRemoved? ==> !Active(ss[j], es[j].box)
    requires forall j :: k < j < m ==> es[j] != BoxRemoved(ss[k].workers[es[k].worker].box)
    ensures Shut(ss[m], ss[k].workers[es[k].worker].box)
    ensures forall name, password :: Admitted(ss[m].boxes, name, password) != Some(ss[k].workers[es[k].worker].box)
    decreases m
  {
    if m == k + 1 {
      OnePublisherAlways(ss, es, k);
      AbandonShuts(ss[k], es[k].worker);
    } else {
      AbandonedBoxIsShut(ss, es, k, m - 1);
      StaysShut(ss[m - 1], es[m - 1], ss[k].workers[es[k].worker].box);
    }
  }

  /** Every box that says it has a publisher has one. */
  ghost predicate NoneShut(s: Server) {
    forall box :: !Shut(s, box)
  }

  lemma StaysOpen(s: Server, e: Event, box: nat)
    requires OnePublisher(s) && NoneShut(s) && Enabled(s, e) && !e.Abandon?
    ensures !Shut(Next(s, e), box)
  {
    var s' := Next(s, e);
    assert !Shut(s, box);
    if box < |s.boxes| && s.boxes[box].nPub == 1 {
      var t :| 0 <= t < |s.workers| && s.workers[t] == Publishing(box);
      if !(e.Leave? && e.worker == t) {
        assert s'.workers[t] == Publishing(box);
      }
    } else if e.Connect? && s'.boxes != s.boxes {
      assert s'.workers[e.worker] == Publishing(Admitted(s.boxes, e.name, e.password).value);
    } else if e.BoxCreated? {
      var (table, i) := Room(s.boxes);
      assert box < |s.boxes| ==> s'.boxes[box].nPub == s.boxes[box].nPub;
    }
  }

  /** Boxes stay so exactly as long as no publisher gives up without its file. */
  lemma NoneShutIff(s: Server, e: Event)
    requires OnePublisher(s) && NoneShut(s) && Enabled(s, e)
    ensures NoneShut(Next(s, e)) <==> !e.Abandon?
  {
    if e.Abandon? {
      AbandonShuts(s, e.worker);
    } else {
      forall box ensures !Shut(Next(s, e), box) {
        StaysOpen(s, e, box);
      }
    }
  }

  /** In every run that removes no box under its publisher, no box is ever shut if and only if no publisher gives up. */
  lemma {:induction false} NoneShutAlwaysIff(ss: seq<Server>, es: seq<Event>, k: nat)
    requires Run(ss, es) && k < |ss| && NoneShut(ss[0])
    requires forall j :: 0 <= j < k && es[j].BoxRemoved? ==> !Active(ss[j], es[j].box)
    ensures (forall j :: 0 <= j <= k ==> NoneShut(ss[j])) <==> (forall j :: 0 <= j < k ==> !es[j].Abandon?)
  {
    hide NoneShut, OnePublisher, Next, Enabled;
    if k > 0 {
      NoneShutAlwaysIff(ss, es, k - 1);
      OnePublisherAlways(ss, es, k - 1);
      if forall j :: 0 <= j <= k - 1 ==> NoneShut(ss[j]) {
        NoneShutIff(ss[k - 1], es[k - 1]);
        assert NoneShut(ss[k]) <==> !es[k - 1].Abandon?;
      }
    }
  }
}
