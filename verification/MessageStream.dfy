/**
 * A box is a file to which publishers append NUL-terminated messages and from which subscribers read:
 * every subscriber receives the published messages, in order and without gaps.
 */
module MessageStream {
  import opened CTypes
  import opened FsState
  import opened FsOperations
  import opened FsReads
  import opened FsAbstract
  import FsRuns
  import FsRefinement
  import FsTails

  // ---- messages in a byte sequence ----

  /** The nonempty pieces between NULs. */
  function Chunks(c: seq<Byte>): seq<seq<Byte>>
    decreases |c|
  {
    if c == [] then []
    else if c[0] == NUL then Chunks(c[1..])
    else var z := NulFrom(c, 0); [c[..z]] + Chunks(c[z..])
  }

  /** Ends where a message ends. */
  predicate Ended(c: seq<Byte>) { c == [] || c[|c| - 1] == NUL }

  lemma {:induction false} ChunksAppend(x: seq<Byte>, y: seq<Byte>)
    requires Ended(x)
    ensures Chunks(x + y) == Chunks(x) + Chunks(y)
    decreases |x|
  {
    if x == [] {
      assert x + y == y;
    } else if x[0] == NUL {
      assert (x + y)[1..] == x[1..] + y;
      ChunksAppend(x[1..], y);
    } else {
      var z := NulFrom(x, 0);
      assert (x + y)[z] == x[z] == NUL && forall k :: 0 <= k < z ==> (x + y)[k] == x[k];
      assert NulFrom(x + y, 0) == z;
      assert (x + y)[..z] == x[..z] && (x + y)[z..] == x[z..] + y;
      ChunksAppend(x[z..], y);
    }
  }

  /** A message, or nothing when it is empty. */
  function One(m: seq<Byte>): seq<seq<Byte>> { if m == [] then [] else [m] }

  lemma ChunksOfMessage(m: seq<Byte>)
    requires NUL !in m
    ensures Chunks(m) == One(m) && Chunks(m + [NUL]) == One(m)
  {
    assert Chunks([NUL]) == Chunks([NUL][1..]) == [];
    if m != [] {
      assert NulFrom(m, 0) == |m| && m[..|m|] == m && m[|m|..] == [];
      assert (m + [NUL])[|m|] == NUL && forall k :: 0 <= k < |m| ==> (m + [NUL])[k] == m[k];
      assert NulFrom(m + [NUL], 0) == |m| && (m + [NUL])[..|m|] == m && (m + [NUL])[|m|..] == [NUL];
    } else {
      assert m + [NUL] == [NUL];
    }
  }

  lemma NulInRest(c: seq<Byte>, p: nat)
    requires p <= |c|
    ensures NulFrom(c[p..], 0) == NulFrom(c, p) - p
  {
    var z := NulFrom(c, p);
    var d := c[p..];
    assert forall k :: 0 <= k < |d| ==> d[k] == c[p + k];
    if z < |c| { assert d[z - p] == NUL; }
    var y := NulFrom(d, 0);
    if y < |d| { assert c[p + y] == NUL; }
  }

  /** From a stretch without NUL up to position z on, the first piece ends there. */
  lemma ChunksFrom(c: seq<Byte>, p: nat)
    requires p <= |c|
    ensures var z := NulFrom(c, p); Chunks(c[p..]) == One(c[p..z]) + Chunks(c[z..])
  {
    var z := NulFrom(c, p);
    if p < z {
      NulInRest(c, p);
      assert c[p..][..z - p] == c[p..z] && c[p..][z - p..] == c[z..];
    } else {
      assert c[p..z] == [];
    }
  }

  /** No piece is longer than len bytes. */
  ghost predicate PiecesFit(c: seq<Byte>, len: nat) {
    0 < len && forall p :: 0 <= p <= |c| ==> NulFrom(c, p) <= p + len
  }

  /** What one read hands over is the first piece from the cursor on, and the cursor moves behind it. */
  lemma DeliveredPiece(c: seq<Byte>, offset: nat, len: nat)
    requires offset <= |c| && PiecesFit(c, len)
    ensures var r := Delivered(c, offset, len); Chunks(c[offset..]) == One(r.bytes) + Chunks(c[r.offset..])
    ensures offset < |c| ==> offset < Delivered(c, offset, len).offset
  {
    if offset < |c| {
      var p := Skip(c, offset);
      if c[offset] == NUL {
        SkippedNul(c, offset);
      }
      DeliveredIs(c, offset, len, NulFrom(c, p));
      hide Chunks, Delivered, NulFrom;
      ChunksFrom(c, p);
    } else {
      assert c[offset..] == [];
    }
  }

  lemma SkippedNul(c: seq<Byte>, offset: nat)
    requires offset < |c| && c[offset] == NUL
    ensures Chunks(c[offset..]) == Chunks(c[offset + 1..])
  {
    assert c[offset..][1..] == c[offset + 1..];
  }

  /** A buffer no smaller than the file has room for every piece. */
  lemma DeliveredChunk(c: seq<Byte>, offset: nat, len: nat)
    requires offset <= |c| <= len
    ensures var r := Delivered(c, offset, len); Chunks(c[offset..]) == One(r.bytes) + Chunks(c[r.offset..])
    ensures offset < |c| ==> offset < Delivered(c, offset, len).offset
  {
    if 0 < len {
      DeliveredPiece(c, offset, len);
    } else {
      assert c[offset..] == [];
    }
  }

  /** What reading until the end of the file hands over. */
  function ReadAll(c: seq<Byte>, offset: nat): seq<seq<Byte>>
    requires offset <= |c|
    decreases |c| - offset
  {
    if offset == |c| then []
    else
      var r := Delivered(c, offset, |c|);
      if r.offset <= offset then [] else One(r.bytes) + ReadAll(c, r.offset)
  }

  /** Reading on drains the file of every message from the cursor on. */
  lemma {:induction false} Drains(c: seq<Byte>, offset: nat)
    requires offset <= |c|
    ensures ReadAll(c, offset) == Chunks(c[offset..])
    decreases |c| - offset
  {
    DeliveredChunk(c, offset, |c|);
    if offset < |c| {
      Drains(c, Delivered(c, offset, |c|).offset);
    }
  }

  // ---- sessions ----

  /** A call together with what it returned. */
  datatype Event = Event(call: Call, ret: int, bytes: seq<Byte>)

  ghost predicate Trace(l: Limits, states: seq<AFs>, events: seq<Event>) {
    && |states| == |events| + 1
    && forall j :: 0 <= j < |events| ==> Stepped(l, states[j], events[j], states[j + 1])
  }

  ghost predicate Stepped(l: Limits, a: AFs, e: Event, a': AFs) {
    AStep(l, a, e.call, a', e.ret, e.bytes)
  }

  predicate WritesTo(a: AFs, e: Event, box: int) {
    e.call.Write? && e.call.handle in a.handles && a.handles[e.call.handle].inumber == box
  }

  predicate StoresIn(a: AFs, e: Event, box: int) {
    WritesTo(a, e, box) && 0 < e.ret <= |e.call.buffer|
  }

  ghost predicate Truncates(a: AFs, e: Event, box: int) {
    e.call.Open? && e.call.mode.truncate && a.LeadsTo(a.Bound(e.call.path), box)
  }

  /** What process_pub writes: a message with its terminator. */
  predicate IsMessage(buffer: seq<Byte>) {
    |buffer| > 0 && buffer[|buffer| - 1] == NUL && NUL !in buffer[..|buffer| - 1]
  }

  /** The part of the message that a write of n bytes stores. */
  function Stored(buffer: seq<Byte>, n: nat): seq<Byte>
    requires n <= |buffer|
  {
    if n == |buffer| && n > 0 then buffer[..n - 1] else buffer[..n]
  }

  predicate OpensToAppend(a: AFs, e: Event, a': AFs, box: int, h: int) {
    && e.call.Open? && e.call.mode.append && e.ret == h
    && h !in a.handles && h in a'.handles && a'.handles[h].inumber == box
  }

  /** The publisher's session: h was opened to append at step o, and since then nobody else has written to the box. */
  ghost predicate Session(states: seq<AFs>, events: seq<Event>, box: int, h: int, o: nat, j: nat)
    requires |states| == |events| + 1
  {
    && o < j <= |events|
    && OpensToAppend(states[o], events[o], states[o + 1], box, h)
    && forall i :: o < i < j ==>
         events[i].call != Close(h) && (WritesTo(states[i], events[i], box) ==> events[i].call.handle == h)
  }

  /** Between steps from and k the box exists and holds only what one publisher at a time has appended. */
  ghost predicate Disciplined(states: seq<AFs>, events: seq<Event>, box: int, from: nat, k: nat)
    requires |states| == |events| + 1
  {
    && from <= k <= |events|
    && forall j :: from <= j < k ==> DisciplinedStep(states, events, box, from, j)
  }

  ghost predicate DisciplinedStep(states: seq<AFs>, events: seq<Event>, box: int, from: nat, j: nat)
    requires |states| == |events| + 1 && j < |events|
  {
    && box in states[j + 1].files
    && !Truncates(states[j], events[j], box)
    && (WritesTo(states[j], events[j], box) ==>
          && IsMessage(events[j].call.buffer)
          && exists o :: from <= o && Session(states, events, box, events[j].call.handle, o, j))
  }

  /** The messages stored in the box, each as far as it was stored. */
  function Published(states: seq<AFs>, events: seq<Event>, box: int, from: nat, k: nat): seq<seq<Byte>>
    requires |states| == |events| + 1 && k <= |events|
    decreases k
  {
    if k <= from then []
    else
      var e := events[k - 1];
      Published(states, events, box, from, k - 1) +
      if StoresIn(states[k - 1], e, box) then One(Stored(e.call.buffer, e.ret)) else []
  }

  /** What the reads through handle g have handed over, empty reads apart. */
  function Received(events: seq<Event>, g: int, from: nat, k: nat): seq<seq<Byte>>
    requires k <= |events|
    decreases k
  {
    if k <= from then []
    else
      Received(events, g, from, k - 1) +
      if events[k - 1].call.Read? && events[k - 1].call.handle == g then One(events[k - 1].bytes) else []
  }

  // ---- one step ----

  /** Creating a file or a link touches no other file and no handle. */
  lemma CreatingKeeps(l: Limits, a: AFs, e: Event, a': AFs, box: int, g: int)
    requires Stepped(l, a, e, a') && (e.call.SymLink? || (e.call.Open? && a.Bound(e.call.path) == -1))
    ensures box in a.files ==> box in a'.files && a'.files[box] == a.files[box]
    ensures g in a.handles ==> g in a'.handles && a'.handles[g] == a.handles[g]
  {
    if e.call.SymLink? {
      if a' != a {
        var id :| NewAlias(l, a, e.call.target, NameOf(e.call.linkName), id, a');
      }
    } else if a' != a {
      var id :| NewFile(l, a, e.call.path[1..], id, a', e.ret);
    }
  }

  /** Opening a file that exists touches at most that file, when it truncates, and no handle in use. */
  lemma OpeningKeeps(l: Limits, a: AFs, e: Event, a': AFs, box: int, g: int)
    requires Stepped(l, a, e, a') && e.call.Open? && a.Bound(e.call.path) != -1
    ensures box in a.files && !Truncates(a, e, box) ==> box in a'.files && a'.files[box] == a.files[box]
    ensures g in a.handles ==> g in a'.handles && a'.handles[g] == a.handles[g]
  {
    var r :| a.LeadsTo(a.Bound(e.call.path), r) && OpensResolved(l, a, r, e.call.mode, a', e.ret);
  }

  /** A step that does not write to the box leaves its bytes alone. */
  lemma BoxKept(l: Limits, a: AFs, e: Event, a': AFs, box: int)
    requires Stepped(l, a, e, a') && box in a.files && box in a'.files
    requires !WritesTo(a, e, box) && !Truncates(a, e, box)
    ensures a'.files[box] == a.files[box]
  {
    if e.call.SymLink? || (e.call.Open? && a.Bound(e.call.path) == -1) {
      CreatingKeeps(l, a, e, a', box, 0);
    } else if e.call.Open? {
      OpeningKeeps(l, a, e, a', box, 0);
    }
  }

  /** A step that does not use handle g leaves it alone. */
  lemma HandleKept(l: Limits, a: AFs, e: Event, a': AFs, g: int)
    requires Stepped(l, a, e, a') && g in a.handles
    requires e.call != Close(g) && !(e.call.Read? && e.call.handle == g) && !(e.call.Write? && e.call.handle == g)
    ensures g in a'.handles && a'.handles[g] == a.handles[g]
  {
    if e.call.SymLink? || (e.call.Open? && a.Bound(e.call.path) == -1) {
      CreatingKeeps(l, a, e, a', 0, g);
    } else if e.call.Open? {
      OpeningKeeps(l, a, e, a', 0, g);
    }
  }

  predicate AtEnd(a: AFs, box: int, h: int) {
    box in a.files && a.files[box].Plain? && h in a.handles && a.handles[h] == OpenEntry(box, |a.files[box].bytes|)
  }

  /** Writing at the end of the box appends, as far as the block goes. */
  lemma WriteAppends(l: Limits, a: AFs, e: Event, a': AFs, box: int)
    requires Stepped(l, a, e, a') && WritesTo(a, e, box) && AtEnd(a, box, e.call.handle)
    ensures AtEnd(a', box, e.call.handle) && |a'.files[box].bytes| <= l.blockSize
    ensures var c := a.files[box].bytes; var c' := a'.files[box].bytes;
            && (e.ret <= 0 ==> c' == c)
            && (e.ret > 0 ==> e.ret <= |e.call.buffer| && c' == c + e.call.buffer[..e.ret])
            && (0 < e.ret < |e.call.buffer| ==> |c'| == l.blockSize)
  {
    var c := a.files[box].bytes;
    if e.ret > 0 {
      var n := e.ret;
      assert c[..|c|] + e.call.buffer[..n] + [] == c + e.call.buffer[..n];
    }
  }

  lemma OpenedAtEnd(l: Limits, a: AFs, e: Event, a': AFs, box: int, h: int)
    requires Stepped(l, a, e, a') && OpensToAppend(a, e, a', box, h)
    ensures AtEnd(a', box, h)
  {
    if a.Bound(e.call.path) == -1 {
      var id :| NewFile(l, a, e.call.path[1..], id, a', e.ret);
    } else {
      var r :| a.LeadsTo(a.Bound(e.call.path), r) && OpensResolved(l, a, r, e.call.mode, a', e.ret);
    }
  }

  /** The publisher's cursor stays at the end of the box for the whole session. */
  lemma {:induction false} SessionAtEnd(
      l: Limits, states: seq<AFs>, events: seq<Event>, box: int, h: int, from: nat, o: nat, j: nat)
    requires Trace(l, states, events) && from <= o && Session(states, events, box, h, o, j)
             && Disciplined(states, events, box, from, j)
    ensures AtEnd(states[j], box, h)
    decreases j
  {
    var i := j - 1;
    assert Stepped(l, states[i], events[i], states[i + 1]);
    if i == o {
      OpenedAtEnd(l, states[o], events[o], states[o + 1], box, h);
    } else {
      SessionAtEnd(l, states, events, box, h, from, o, i);
      assert DisciplinedStep(states, events, box, from, i);
      if WritesTo(states[i], events[i], box) {
        WriteAppends(l, states[i], events[i], states[i + 1], box);
      } else {
        BoxKept(l, states[i], events[i], states[i + 1], box);
        if !(events[i].call.Read? && events[i].call.handle == h) {
          HandleKept(l, states[i], events[i], states[i + 1], h);
        }
      }
    }
  }

  // ---- the stream ----

  /** The box holds whole messages, unless its block is full. */
  predicate BoxOk(l: Limits, a: AFs, box: int) {
    && box in a.files && a.files[box].Plain?
    && |a.files[box].bytes| <= l.blockSize
    && (Ended(a.files[box].bytes) || |a.files[box].bytes| == l.blockSize)
  }

  lemma StoredChunks(buffer: seq<Byte>, n: nat)
    requires IsMessage(buffer) && 0 < n <= |buffer|
    ensures Chunks(buffer[..n]) == One(Stored(buffer, n))
    ensures n == |buffer| ==> Ended(buffer[..n])
  {
    var m := Stored(buffer, n);
    assert forall k :: 0 <= k < |m| ==> m[k] == buffer[..|buffer| - 1][k];
    ChunksOfMessage(m);
    if n == |buffer| {
      assert buffer[..n] == m + [NUL];
    }
  }

  /** The bytes a step adds to the box. */
  function Piece(a: AFs, e: Event, box: int): seq<Byte> {
    if StoresIn(a, e, box) then e.call.buffer[..e.ret] else []
  }

  /** One step of a disciplined trace either appends one message to the box or leaves it alone. */
  lemma BoxStep(l: Limits, states: seq<AFs>, events: seq<Event>, box: int, from: nat, j: nat)
    requires Trace(l, states, events) && j < |events| && Disciplined(states, events, box, from, j + 1) && from <= j
    requires BoxOk(l, states[j], box)
    ensures BoxOk(l, states[j + 1], box)
    ensures states[j + 1].files[box].bytes == states[j].files[box].bytes + Piece(states[j], events[j], box)
    ensures StoresIn(states[j], events[j], box) ==>
              && Ended(states[j].files[box].bytes)
              && Chunks(Piece(states[j], events[j], box)) == One(Stored(events[j].call.buffer, events[j].ret))
  {
    var e := events[j];
    var c := states[j].files[box].bytes;
    assert Stepped(l, states[j], e, states[j + 1]);
    assert DisciplinedStep(states, events, box, from, j);
    if WritesTo(states[j], e, box) {
      var o :| from <= o && Session(states, events, box, e.call.handle, o, j);
      SessionAtEnd(l, states, events, box, e.call.handle, from, o, j);
      WriteAppends(l, states[j], e, states[j + 1], box);
      if e.ret > 0 {
        StoredChunks(e.call.buffer, e.ret);
        var q := e.call.buffer[..e.ret];
        assert (c + q)[|c + q| - 1] == q[|q| - 1];
      } else {
        assert c + [] == c;
      }
    } else {
      BoxKept(l, states[j], e, states[j + 1], box);
      assert c + [] == c;
    }
  }

  lemma PublishedStep(l: Limits, a: AFs, e: Event, box: int)
    requires BoxOk(l, a, box)
    requires StoresIn(a, e, box) ==>
               Ended(a.files[box].bytes) && Chunks(Piece(a, e, box)) == One(Stored(e.call.buffer, e.ret))
    ensures Chunks(a.files[box].bytes + Piece(a, e, box))
         == Chunks(a.files[box].bytes) + if StoresIn(a, e, box) then One(Stored(e.call.buffer, e.ret)) else []
  {
    var c := a.files[box].bytes;
    if StoresIn(a, e, box) {
      ChunksAppend(c, Piece(a, e, box));
    } else {
      assert c + [] == c && Chunks(c) + [] == Chunks(c);
    }
  }

  lemma EmptyBox(l: Limits, a: AFs, box: int)
    requires box in a.files && a.files[box] == Plain([])
    ensures BoxOk(l, a, box) && Chunks(a.files[box].bytes) == []
  {
  }

  lemma BoxHasBytes(l: Limits, a: AFs, box: int)
    requires BoxOk(l, a, box)
    ensures box in a.files && a.files[box].Plain?
  {
  }

  lemma PublishedUnfolds(states: seq<AFs>, events: seq<Event>, box: int, from: nat, k: nat)
    requires |states| == |events| + 1 && from < k <= |events|
    requires StoresIn(states[k - 1], events[k - 1], box) ==> events[k - 1].ret <= |events[k - 1].call.buffer|
    ensures var e := events[k - 1];
            Published(states, events, box, from, k)
            == Published(states, events, box, from, k - 1)
               + if StoresIn(states[k - 1], e, box) then One(Stored(e.call.buffer, e.ret)) else []
  {
  }

  lemma SoFar(l: Limits, states: seq<AFs>, events: seq<Event>, box: int, from: nat, k: nat)
    requires Trace(l, states, events) && Disciplined(states, events, box, from, k)
    ensures from <= k <= |events| && |states| == |events| + 1
    ensures from < k ==> Disciplined(states, events, box, from, k - 1)
  {
  }

  /** One more step: the box gains what is published. */
  lemma BoxHoldsMore(l: Limits, states: seq<AFs>, events: seq<Event>, box: int, from: nat, k: nat)
    requires Trace(l, states, events) && Disciplined(states, events, box, from, k) && from < k <= |events|
    requires |states| == |events| + 1 && BoxOk(l, states[k - 1], box)
    requires BoxOk(l, states[k - 1], box) && box in states[k - 1].files && states[k - 1].files[box].Plain?
    requires Chunks(states[k - 1].files[box].bytes) == Published(states, events, box, from, k - 1)
    ensures BoxOk(l, states[k], box) && box in states[k].files && states[k].files[box].Plain?
    ensures Chunks(states[k].files[box].bytes) == Published(states, events, box, from, k)
  {
    hide Trace, Disciplined, Chunks, Piece, Stored, One, BoxOk, Published, Ended;
    BoxStep(l, states, events, box, from, k - 1);
    BoxHasBytes(l, states[k], box);
    PublishedStep(l, states[k - 1], events[k - 1], box);
    PublishedUnfolds(states, events, box, from, k);
  }

  /** The box holds precisely the published messages. */
  lemma {:induction false} BoxHoldsPublished(
      l: Limits, states: seq<AFs>, events: seq<Event>, box: int, from: nat, k: nat)
    requires Trace(l, states, events) && Disciplined(states, events, box, from, k)
    requires box in states[from].files && states[from].files[box] == Plain([])
    ensures BoxOk(l, states[k], box) && Chunks(states[k].files[box].bytes) == Published(states, events, box, from, k)
    decreases k
  {
    hide Trace, Disciplined, Chunks, BoxOk;
    SoFar(l, states, events, box, from, k);
    if from < k {
      BoxHoldsPublished(l, states, events, box, from, k - 1);
      BoxHasBytes(l, states[k - 1], box);
      BoxHoldsMore(l, states, events, box, from, k);
    } else {
      EmptyBox(l, states[k], box);
    }
  }

  /**
   * Subscriber g: opened at step a with its cursor at 0, since then only read, and never into a buffer smaller
   * than a block.
   */
  ghost predicate Subscribed(l: Limits, states: seq<AFs>, events: seq<Event>, box: int, g: int, a: nat, k: nat)
    requires |states| == |events| + 1
  {
    && a <= k <= |events|
    && g in states[a].handles && states[a].handles[g] == OpenEntry(box, 0)
    && forall j :: a <= j < k ==>
         && events[j].call != Close(g)
         && !(events[j].call.Write? && events[j].call.handle == g)
         && (events[j].call.Read? && events[j].call.handle == g ==> l.blockSize <= events[j].call.len)
  }

  /** What has been received, followed by what is still ahead of the cursor, is all there is in the box. */
  ghost predicate Streaming(l: Limits, a: AFs, box: int, g: int, got: seq<seq<Byte>>) {
    && BoxOk(l, a, box) && g in a.handles && a.handles[g].inumber == box
    && a.handles[g].offset <= |a.files[box].bytes|
    && got + Chunks(a.files[box].bytes[a.handles[g].offset..]) == Chunks(a.files[box].bytes)
  }

  lemma ReadStreams(l: Limits, a: AFs, e: Event, a': AFs, box: int, g: int, got: seq<seq<Byte>>)
    requires Streaming(l, a, box, g, got) && Stepped(l, a, e, a')
    requires e.call.Read? && e.call.handle == g && l.blockSize <= e.call.len
    ensures Streaming(l, a', box, g, got + One(e.bytes))
  {
    hide Chunks, Delivered, Ended;
    assert Reads(a, g, e.call.len, a', e.ret, e.bytes);
    hide Stepped;
    var c := a.files[box].bytes;
    DeliveredChunk(c, a.handles[g].offset, e.call.len);
    Regroup(got, One(e.bytes), Chunks(c[a'.handles[g].offset..]));
  }

  lemma OthersStream(l: Limits, a: AFs, e: Event, a': AFs, box: int, g: int, got: seq<seq<Byte>>)
    requires Streaming(l, a, box, g, got) && Stepped(l, a, e, a') && BoxOk(l, a', box)
    requires e.call != Close(g) && !(e.call.Read? && e.call.handle == g) && !(e.call.Write? && e.call.handle == g)
    requires a'.files[box].bytes == a.files[box].bytes + Piece(a, e, box)
    requires StoresIn(a, e, box) ==> Ended(a.files[box].bytes)
    ensures Streaming(l, a', box, g, got)
  {
    HandleKept(l, a, e, a', g);
    hide Stepped, Chunks;
    Grows(a.files[box].bytes, a'.files[box].bytes, a.handles[g].offset, got);
  }

  lemma StreamStep(l: Limits, a: AFs, e: Event, a': AFs, box: int, g: int, got: seq<seq<Byte>>)
    requires Streaming(l, a, box, g, got) && Stepped(l, a, e, a') && BoxOk(l, a', box)
    requires e.call != Close(g) && !(e.call.Write? && e.call.handle == g)
    requires e.call.Read? && e.call.handle == g ==> l.blockSize <= e.call.len
    requires a'.files[box].bytes == a.files[box].bytes + Piece(a, e, box)
    requires StoresIn(a, e, box) ==> Ended(a.files[box].bytes)
    ensures Streaming(l, a', box, g, got + if e.call.Read? && e.call.handle == g then One(e.bytes) else [])
  {
    if e.call.Read? && e.call.handle == g {
      ReadStreams(l, a, e, a', box, g, got);
    } else {
      OthersStream(l, a, e, a', box, g, got);
      assert got + [] == got;
    }
  }

  /**
   * At every moment, what a subscriber has received followed by what is still ahead of its cursor is all
   * that was ever published to the box.
   */
  lemma {:induction false} StreamInvariant(
      l: Limits, states: seq<AFs>, events: seq<Event>, box: int, from: nat, g: int, a: nat, k: nat)
    requires Trace(l, states, events) && Disciplined(states, events, box, from, k) && from <= a
    requires box in states[from].files && states[from].files[box] == Plain([])
    requires Subscribed(l, states, events, box, g, a, k)
    ensures Streaming(l, states[k], box, g, Received(events, g, a, k))
    ensures Chunks(states[k].files[box].bytes) == Published(states, events, box, from, k)
    decreases k
  {
    hide Stepped, DisciplinedStep, Chunks, StoresIn, Piece, Published;
    BoxHoldsPublished(l, states, events, box, from, k);
    if a < k {
      StreamInvariant(l, states, events, box, from, g, a, k - 1);
      BoxStep(l, states, events, box, from, k - 1);
      StreamStep(l, states[k - 1], events[k - 1], states[k], box, g, Received(events, g, a, k - 1));
    } else {
      assert states[k].files[box].bytes[0..] == states[k].files[box].bytes;
    }
  }

  lemma Regroup(x: seq<seq<Byte>>, y: seq<seq<Byte>>, z: seq<seq<Byte>>)
    ensures x + (y + z) == (x + y) + z
  {
  }

  lemma EndedRest(c: seq<Byte>, offset: nat)
    requires Ended(c) && offset <= |c|
    ensures Ended(c[offset..])
  {
  }

  /** A whole message appended to the box is ahead of every cursor. */
  lemma Grows(c: seq<Byte>, c': seq<Byte>, offset: nat, got: seq<seq<Byte>>)
    requires offset <= |c| && c <= c' && (c' != c ==> Ended(c)) && got + Chunks(c[offset..]) == Chunks(c)
    ensures got + Chunks(c'[offset..]) == Chunks(c')
  {
    hide Chunks, Ended;
    if c' != c {
      var q := c'[|c|..];
      EndedRest(c, offset);
      assert c' == c + q && c'[offset..] == c[offset..] + q;
      ChunksAppend(c, q);
      ChunksAppend(c[offset..], q);
      Regroup(got, Chunks(c[offset..]), Chunks(q));
    }
  }

  /** A subscriber's messages are always a prefix of the published ones, and all of them once it has drained the box. */
  lemma SubscriberGetsPrefix(
      l: Limits, states: seq<AFs>, events: seq<Event>, box: int, from: nat, g: int, a: nat, k: nat)
    requires Trace(l, states, events) && Disciplined(states, events, box, from, k) && from <= a
    requires box in states[from].files && states[from].files[box] == Plain([])
    requires Subscribed(l, states, events, box, g, a, k)
    ensures Received(events, g, a, k) <= Published(states, events, box, from, k)
    ensures BoxOk(l, states[k], box) && g in states[k].handles
    ensures states[k].handles[g].offset == |states[k].files[box].bytes| ==>
              Received(events, g, a, k) == Published(states, events, box, from, k)
  {
    StreamInvariant(l, states, events, box, from, g, a, k);
    var c := states[k].files[box].bytes;
    var offset := states[k].handles[g].offset;
    if offset == |c| {
      assert c[offset..] == [] && Received(events, g, a, k) + [] == Received(events, g, a, k);
    }
  }

  // ---- on the tables ----

  function EventsOf(ss: seq<State>, cs: seq<Call>): (es: seq<Event>)
    requires FsRuns.Run(ss, cs)
    ensures |es| == |cs| && forall j :: 0 <= j < |cs| ==> es[j].call == cs[j]
  {
    seq(|cs|, j requires 0 <= j < |cs| =>
      assert ss[j].Mounted() && Step(ss[j], cs[j]).Done?;
      Event(cs[j], Step(ss[j], cs[j]).ret, Step(ss[j], cs[j]).bytes))
  }

  function AbsOf(ss: seq<State>): (states: seq<AFs>)
    requires forall j :: 0 <= j < |ss| ==> ss[j].Shape()
    ensures |states| == |ss| && forall j :: 0 <= j < |ss| ==> states[j] == FsRefinement.Abs(ss[j])
  {
    seq(|ss|, j requires 0 <= j < |ss| => FsRefinement.Abs(ss[j]))
  }

  /** Every run of clean calls on the tables is a trace of the abstract file system, so the above holds of it. */
  lemma RunIsTrace(p: Params, memory: seq<Byte>, ss: seq<State>, cs: seq<Call>)
    requires FsRuns.Run(ss, cs) && FsRuns.Starts(ss[0], p, memory)
    requires forall j :: 0 <= j < |cs| ==> ss[j].Mounted() && FsRefinement.Clean(ss[j], cs[j])
    ensures ss[0].Mounted() && forall j :: 0 <= j < |ss| ==> ss[j].Shape()
    ensures Trace(FsRefinement.LimitsOf(ss[0]), AbsOf(ss), EventsOf(ss, cs))
  {
    hide FsRuns.Starts, FsRefinement.Good, FsRefinement.Clean, FsRefinement.LimitsOf, FsRefinement.Abs, Step, AStep;
    FsRefinement.StartGood(p, memory, ss[0]);
    FsRefinement.GoodMounted(ss[0]);
    FsRefinement.SimulatesAlways(p, memory, ss, cs, |cs|);
    forall j | 0 <= j < |ss| ensures ss[j].Shape() {
      FsRefinement.SimulatesAlways(p, memory, ss, cs, j);
      FsRefinement.GoodMounted(ss[j]);
    }
    forall j | 0 <= j < |cs|
      ensures Stepped(FsRefinement.LimitsOf(ss[0]), AbsOf(ss)[j], EventsOf(ss, cs)[j], AbsOf(ss)[j + 1])
    {
      assert FsRefinement.AbstractStep(FsRefinement.LimitsOf(ss[0]), ss[j], cs[j]);
    }
  }

  lemma EmptyAtFirst(s: State, box: int)
    requires s.Shape() && box in FsRefinement.Files(s) && FsRefinement.Files(s)[box] == Plain([])
    ensures box in FsRefinement.Abs(s).files && FsRefinement.Abs(s).files[box] == Plain([])
  {
  }

  /** A plain file and a handle of the abstract file system, as they lie in the tables. */
  lemma PlainContent(s: State, i: int, h: int)
    requires s.Shape() && var a := FsRefinement.Abs(s); i in a.files && a.files[i].Plain? && h in a.handles
    ensures s.ValidInum(i) && FsRefinement.Abs(s).files[i].bytes == Content(s, i)
    ensures s.IsOpen(h) && FsRefinement.Abs(s).handles[h] == s.open[h]
  {
    hide Content;
  }

  /**
   * The same on the tables: in every run of clean calls in which one publisher at a time appends to the
   * box, a subscriber's messages are a prefix of the published ones, and all of them once it is drained.
   */
  lemma DeliveryOnTables(
      p: Params, memory: seq<Byte>, ss: seq<State>, cs: seq<Call>, box: int, from: nat, g: int, a: nat, k: nat)
    requires FsRuns.Run(ss, cs) && FsRuns.Starts(ss[0], p, memory) && from <= a <= k <= |cs|
    requires forall j :: 0 <= j < |cs| ==> ss[j].Mounted() && FsRefinement.Clean(ss[j], cs[j])
    requires forall j :: 0 <= j < |ss| ==> ss[j].Shape()
    requires box in FsRefinement.Files(ss[from]) && FsRefinement.Files(ss[from])[box] == Plain([])
    requires Disciplined(AbsOf(ss), EventsOf(ss, cs), box, from, k)
    requires ss[0].Mounted() && Subscribed(FsRefinement.LimitsOf(ss[0]), AbsOf(ss), EventsOf(ss, cs), box, g, a, k)
    ensures ss[k].IsOpen(g) && ss[k].ValidInum(box)
    ensures Received(EventsOf(ss, cs), g, a, k) <= Published(AbsOf(ss), EventsOf(ss, cs), box, from, k)
    ensures ss[k].open[g].offset == |Content(ss[k], box)| ==>
              Received(EventsOf(ss, cs), g, a, k) == Published(AbsOf(ss), EventsOf(ss, cs), box, from, k)
  {
    hide FsRuns.Starts, Step, FsRefinement.Clean, FsRefinement.LimitsOf, FsRefinement.Abs, Trace, Disciplined,
         Subscribed;
    hide BoxOk, Chunks, EventsOf, AbsOf, Published, Received, Content, FsRefinement.Files;
    RunIsTrace(p, memory, ss, cs);
    var l, states, events := FsRefinement.LimitsOf(ss[0]), AbsOf(ss), EventsOf(ss, cs);
    EmptyAtFirst(ss[from], box);
    assert states[from] == FsRefinement.Abs(ss[from]) && states[k] == FsRefinement.Abs(ss[k]);
    SubscriberGetsPrefix(l, states, events, box, from, g, a, k);
    BoxHasBytes(l, states[k], box);
    PlainContent(ss[k], box, g);
  }

  /**
   * Over zero-filled memory nothing need be assumed of the bytes that reads find behind a file: the same
   * delivery, in every run of tidy calls, which read only files that are shorter than their block.
   */
  lemma DeliveryOverBlankMemory(
      p: Params, memory: seq<Byte>, ss: seq<State>, cs: seq<Call>, box: int, from: nat, g: int, a: nat, k: nat)
    requires FsRuns.Run(ss, cs) && FsRuns.Starts(ss[0], p, memory) && from <= a <= k <= |cs|
    requires forall j :: 0 <= j < |memory| ==> memory[j] == NUL
    requires forall j :: 0 <= j < |cs| ==> ss[j].Mounted() && FsTails.Tidy(ss[j], cs[j])
    requires forall j :: 0 <= j < |ss| ==> ss[j].Shape()
    requires box in FsRefinement.Files(ss[from]) && FsRefinement.Files(ss[from])[box] == Plain([])
    requires Disciplined(AbsOf(ss), EventsOf(ss, cs), box, from, k)
    requires ss[0].Mounted() && Subscribed(FsRefinement.LimitsOf(ss[0]), AbsOf(ss), EventsOf(ss, cs), box, g, a, k)
    ensures ss[k].IsOpen(g) && ss[k].ValidInum(box)
    ensures Received(EventsOf(ss, cs), g, a, k) <= Published(AbsOf(ss), EventsOf(ss, cs), box, from, k)
    ensures ss[k].open[g].offset == |Content(ss[k], box)| ==>
              Received(EventsOf(ss, cs), g, a, k) == Published(AbsOf(ss), EventsOf(ss, cs), box, from, k)
  {
    hide Step, FsRuns.Starts, FsRefinement.Clean, FsRefinement.LimitsOf, FsRefinement.Good, FsTails.Tidy;
    hide Disciplined, Subscribed, Content, EventsOf, AbsOf, Published, Received, FsTails.TailsBlank;
    FsTails.TidyAlways(p, memory, ss, cs, |cs|);
    DeliveryOnTables(p, memory, ss, cs, box, from, g, a, k);
  }
}
