/** The broker's handlers as they run: loops over server_boxes, which realloc may replace. */
module Brokers {
  import opened CTypes
  import opened FsState
  import opened FsOperations
  import opened FsInvariant
  import opened FsRuns
  import opened FsRefinement
  import opened FileSystems
  import opened BoxTable
  import PubSessions
  import MessageStream
  import opened SubSessions

  class Broker {
    var serverBoxes: array<Box>   // size_boxes is its length
    const threadIndex: array<int> // thread_pool[].index
    const fs: FileSystem

    ghost predicate Valid()
      reads this, serverBoxes, fs.inodeTable, fs.freeInodes, fs.freeBlocks, fs.fsData, fs.rootBlock, fs.openFiles,
            fs.freeOpenFiles
    {
      fs.Mounted() && Good(fs.Snap()) && Agree(serverBoxes[..], fs.Snap())
    }

    /** The table main allocates, blank, over a file system that tfs_init has set up. */
    constructor (n: nat, fs: FileSystem)
      requires n > 0 && fs.Mounted() && Good(fs.Snap()) && forall path :: FsOperations.Lookup(fs.Snap(), path) == -1
      ensures Valid() && this.fs == fs && serverBoxes[..] == seq(n, _ => BLANK) && fresh(serverBoxes)
              && fresh(threadIndex)
    {
      serverBoxes := new Box[n](_ => BLANK);
      threadIndex := new int[n](_ => -1);
      this.fs := fs;
      new;
      assert serverBoxes[..] == seq(n, _ => BLANK);
    }

    /** The scan for a name that every handler starts with. */
    method FindBox(name: CString) returns (i: int)
      ensures i == BoxTable.FindBox(serverBoxes[..], name)
    {
      for k := 0 to serverBoxes.Length
        invariant forall j :: 0 <= j < k ==> serverBoxes[j].name != name
      {
        if serverBoxes[k].name == name {
          return k;
        }
      }
      return -1;
    }

    /** The first slot whose free field is 0; the table is doubled when there is none. */
    method ClaimSlot() returns (i: nat)
      requires serverBoxes.Length > 0
      modifies this`serverBoxes
      ensures (serverBoxes[..], i) == Room(old(serverBoxes[..]))
      ensures serverBoxes == old(serverBoxes) || fresh(serverBoxes)
      ensures old(serverBoxes[..]) == old(serverBoxes)[..]
    {
      for k := 0 to serverBoxes.Length
        invariant serverBoxes == old(serverBoxes)
        invariant forall j :: 0 <= j < k ==> serverBoxes[j].taken
      {
        if !serverBoxes[k].taken {
          return k;
        }
      }
      var n := serverBoxes.Length;
      var grown := new Box[2 * n](_ => BLANK);
      for k := 0 to n
        invariant serverBoxes == old(serverBoxes) && serverBoxes[..] == old(serverBoxes[..])
        invariant forall j :: 0 <= j < 2 * n ==> grown[j] == if j < k then serverBoxes[j] else BLANK
      {
        grown[k] := serverBoxes[k];
      }
      assert grown[..] == Doubled(serverBoxes[..]);
      serverBoxes := grown;
      return n;
    }

    /** process_manager_create; reply is the response's return_code. */
    method ProcessManagerCreate(name: CString, password: CString, worker: nat) returns (reply: int)
      requires Valid() && worker < threadIndex.Length
      modifies this`serverBoxes, serverBoxes, threadIndex
      modifies fs.inodeTable, fs.freeInodes, fs.freeBlocks, fs.rootBlock, fs.openFiles, fs.freeOpenFiles
      ensures var r := Create(old(serverBoxes[..]), old(fs.Snap()), name, password);
              r.Some? && serverBoxes[..] == r.value.boxes && fs.Snap() == r.value.fs && r.value.reply == Some(reply)
      ensures Valid() <==> BoxTable.FindBox(old(serverBoxes[..]), name) != -1 || !LeavesFileBehind(old(fs.Snap()), name)
      ensures serverBoxes == old(serverBoxes) || fresh(serverBoxes)
    {
      CreateAgreesIff(serverBoxes[..], fs.Snap(), name, password);
      assert serverBoxes.Length > 0;
      hide TableOk, HasBox, Create, LeavesFileBehind, Inv;
      var found := FindBox(name);
      if found != -1 {
        FoundRejected(serverBoxes[..], fs.Snap(), name, password);
        return -1;
      }
      reply := CreateBox(name, password, worker);
    }

    /** The rest of process_manager_create, for a name that no box bears. */
    method CreateBox(name: CString, password: CString, worker: nat) returns (reply: int)
      requires fs.Mounted() && Good(fs.Snap()) && Agree(serverBoxes[..], fs.Snap()) && serverBoxes.Length > 0
      requires worker < threadIndex.Length && BoxTable.FindBox(serverBoxes[..], name) == -1
      modifies this`serverBoxes, serverBoxes, threadIndex
      modifies fs.inodeTable, fs.freeInodes, fs.freeBlocks, fs.rootBlock, fs.openFiles, fs.freeOpenFiles
      ensures fs.Mounted()
      ensures var r := Create(old(serverBoxes[..]), old(fs.Snap()), name, password);
              r.Some? && serverBoxes[..] == r.value.boxes && fs.Snap() == r.value.fs && r.value.reply == Some(reply)
      ensures serverBoxes == old(serverBoxes) || fresh(serverBoxes)
    {
      NoBoxNoFile(serverBoxes[..], fs.Snap(), name);
      hide Good, Agree, Room, TfsOpen, TfsClose, CREATE_MODE, TableOk, HasBox, Inv, FindSlot, FsState.FindInDir;
      var i := ClaimBox(name, password, worker);
      var made := CreateFile(name);
      if !made {
        serverBoxes[i] := serverBoxes[i].(taken := false, name := [], password := []);
        return -1;
      }
      return 0;
    }

    /** Fills the slot that the new box gets. */
    method ClaimBox(name: CString, password: CString, worker: nat) returns (i: nat)
      requires serverBoxes.Length > 0 && worker < threadIndex.Length
      modifies this`serverBoxes, serverBoxes, threadIndex
      ensures var (table, k) := Room(old(serverBoxes[..]));
              i == k && serverBoxes[..] == table[i := table[i].(taken := true, name := name, password := password)]
      ensures serverBoxes == old(serverBoxes) || fresh(serverBoxes)
    {
      i := ClaimSlot();
      threadIndex[worker] := i;
      serverBoxes[i] := serverBoxes[i].(taken := true, name := name, password := password);
    }

    /** tfs_open with TFS_O_CREAT, and tfs_close of whatever it returned. */
    method CreateFile(name: CString) returns (made: bool)
      requires fs.Mounted() && Good(fs.Snap()) && FsOperations.Lookup(fs.Snap(), name) == -1
      modifies fs.inodeTable, fs.freeInodes, fs.freeBlocks, fs.rootBlock, fs.openFiles, fs.freeOpenFiles
      ensures fs.Mounted()
      ensures var open := TfsOpen(old(fs.Snap()), name, CREATE_MODE);
              && open.Done? && open.state.Mounted() && (made <==> open.ret != -1)
              && fs.Snap() == if made then TfsClose(open.state, open.ret).state else open.state
    {
      OpenBinds(fs.Snap(), name);
      CloseKeeps(TfsOpen(fs.Snap(), name, CREATE_MODE).state, TfsOpen(fs.Snap(), name, CREATE_MODE).ret);
      hide BlocksInv, HandlesInv, LinksInv, CursorsInside;
      var h := fs.TfsOpen(name, CREATE_MODE);
      var ignored := fs.TfsClose(h);
      made := h != -1;
    }

    /** process_manager_remove; None when it sends no response. */
    method ProcessManagerRemove(name: CString, password: CString, worker: nat) returns (reply: Option<int>)
      requires Valid() && worker < threadIndex.Length
      modifies serverBoxes, threadIndex, fs.inodeTable, fs.freeInodes, fs.freeBlocks, fs.rootBlock
      ensures var r := Remove(old(serverBoxes[..]), old(fs.Snap()), name, password, old(threadIndex[worker]));
              r.Some? && serverBoxes[..] == r.value.boxes && fs.Snap() == r.value.fs && r.value.reply == reply
      ensures fs.Mounted() && Agree(serverBoxes[..], fs.Snap())
      ensures Valid() <==> !(Removes(old(serverBoxes[..]), name, password) && LosesOpenFile(old(fs.Snap()), name))
    {
      RemoveAgrees(serverBoxes[..], fs.Snap(), name, password, threadIndex[worker]);
      hide TableOk, HasBox, Inv, LosesOpenFile, Remove;
      reply := RemoveBox(name, password, worker);
    }

    /** The body of process_manager_remove, for a table and a file system that need not agree afterwards. */
    method RemoveBox(name: CString, password: CString, worker: nat) returns (reply: Option<int>)
      requires fs.Mounted() && worker < threadIndex.Length
      requires Remove(serverBoxes[..], fs.Snap(), name, password, threadIndex[worker]).Some?
      modifies serverBoxes, threadIndex, fs.inodeTable, fs.freeInodes, fs.freeBlocks, fs.rootBlock
      ensures var r := Remove(old(serverBoxes[..]), old(fs.Snap()), name, password, old(threadIndex[worker]));
              serverBoxes[..] == r.value.boxes && fs.Snap() == r.value.fs && r.value.reply == reply && fs.Valid()
    {
      hide TfsUnlink;
      var i := FindBox(name);
      if i != -1 {
        if !serverBoxes[i].taken {
          return None;
        }
        if serverBoxes[i].password != password {
          return Some(-1);
        }
        threadIndex[worker] := i;
      }
      var removed := fs.TfsUnlink(name);
      if removed == -1 {
        return Some(-1);
      }
      serverBoxes[threadIndex[worker]] := BLANK;
      return Some(0);
    }

    /** The locked part of process_pub. */
    method ConnectPublisher(name: CString, password: CString, worker: nat) returns (admitted: bool)
      requires worker < threadIndex.Length
      modifies serverBoxes, threadIndex
      ensures var was := old(serverBoxes[..]); var i := BoxTable.FindBox(was, name);
              && (admitted <==> i != -1 && was[i].nPub != 1 && was[i].password == password)
              && serverBoxes[..] == (if admitted then was[i := was[i].(nPub := 1, size := 0)] else was)
              && (admitted ==> threadIndex[worker] == i)
      ensures serverBoxes[..] == PubSessions.Connected(old(serverBoxes[..]), name, password)
      ensures admitted <==> PubSessions.Admitted(old(serverBoxes[..]), name, password).Some?
    {
      var i := FindBox(name);
      if i == -1 {
        return false;
      }
      if serverBoxes[i].nPub == 1 {
        return false;
      }
      if serverBoxes[i].password != password {
        return false;
      }
      threadIndex[worker] := i;
      serverBoxes[i] := serverBoxes[i].(nPub := 1, size := 0);
      return true;
    }

    /** The inner loop of process_sub: send what tfs_read hands over until a read comes back empty. */
    method SendPending(h: int, ghost rounds: nat) returns (sent: seq<seq<Byte>>)
      requires fs.Mounted() && SendLoop(fs.Snap(), h, rounds).Sent?
      modifies fs.openFiles
      ensures fs.Mounted() && fs.Snap() == SendLoop(old(fs.Snap()), h, rounds).state
      ensures sent == SendLoop(old(fs.Snap()), h, rounds).messages
    {
      hide SendLoop, TfsRead;
      sent := [];
      ghost var left := rounds;
      ghost var all := SendLoop(fs.Snap(), h, rounds);
      while true
        invariant fs.Mounted() && SendLoop(fs.Snap(), h, left).Sent?
        invariant SendLoop(fs.Snap(), h, left).state == all.state
        invariant sent + SendLoop(fs.Snap(), h, left).messages == all.messages
        decreases left
      {
        SentReads(fs.Snap(), h, left);
        SendLoopStep(fs.Snap(), h, left);
        var value, bytes := fs.TfsRead(h, MESSAGE_SIZE);
        if value <= 0 {
          break;
        }
        left := left - 1;
        MessageStream.Regroup(sent, [bytes], SendLoop(fs.Snap(), h, left).messages);
        sent := sent + [bytes];
      }
    }
  }
}
