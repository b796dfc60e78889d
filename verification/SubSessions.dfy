/** A subscriber's session, mbroker/mbroker.c:99-124: what the loop that sends messages takes from the box. */
module SubSessions {
  import opened CTypes
  import opened FsState
  import opened FsOperations
  import opened FsInvariant
  import opened FsReads
  import opened FsRefinement
  import opened MessageStream

  /** sizeof(teste), mbroker/mbroker.c:78 */
  const MESSAGE_SIZE := 1024

  /** How the loop ends: after sending these messages, or in a tfs_read that leaves the memory, or not so far. */
  datatype Sending = Sent(messages: seq<seq<Byte>>, state: State) | Stuck | StillSending

  /** At most `fuel` rounds of the loop: read, and send what was read, until a read hands over nothing. */
  function SendLoop(s: State, h: int, fuel: nat): Sending
    requires s.Mounted()
    decreases fuel
  {
    if fuel == 0 then StillSending
    else
      var r := TfsRead(s, h, MESSAGE_SIZE);
      if !r.Done? then Stuck
      else if r.ret <= 0 then Sent([], r.state)
      else
        ReadKeepsTables(s, h, MESSAGE_SIZE);
        Prepended(r.bytes, SendLoop(r.state, h, fuel - 1))
  }

  /** A message taken by the next read comes before what the rest of the loop sends. */
  function Prepended(bytes: seq<Byte>, rest: Sending): Sending {
    match rest
    case Sent(messages, t) => Sent([bytes] + messages, t)
    case other => other
  }

  lemma SendLoopStep(s: State, h: int, fuel: nat)
    requires s.Mounted() && TfsRead(s, h, MESSAGE_SIZE).Done? && TfsRead(s, h, MESSAGE_SIZE).state.Mounted()
    ensures var r := TfsRead(s, h, MESSAGE_SIZE);
            SendLoop(s, h, fuel)
            == if fuel == 0 then StillSending else if r.ret <= 0 then Sent([], r.state)
              else Prepended(r.bytes, SendLoop(r.state, h, fuel - 1))
  {
  }

  /** A loop that ends has made a read that ended. */
  lemma SentReads(s: State, h: int, fuel: nat)
    requires s.Mounted() && SendLoop(s, h, fuel).Sent?
    ensures 0 < fuel && TfsRead(s, h, MESSAGE_SIZE).Done? && TfsRead(s, h, MESSAGE_SIZE).state.Mounted()
  {
    ReadKeepsTables(s, h, MESSAGE_SIZE);
  }

  /** Handle h reads file i, which holds c, and the buffer has room for each of its messages. */
  ghost predicate Reading(s: State, h: int, i: int, c: seq<Byte>) {
    && Inv(s) && s.IsOpen(h) && s.open[h].inumber == i && CursorInside(s, h)
    && Content(s, i) == c && PiecesFit(c, 1024)
  }

  ghost function Cursor(s: State, h: int, i: int, c: seq<Byte>): (offset: nat)
    requires Reading(s, h, i, c)
    ensures offset <= |c|
  {
    OpenContent(s, h);
    s.open[h].offset
  }

  /** The messages that are still to be read. */
  ghost function Ahead(s: State, h: int, i: int, c: seq<Byte>): seq<seq<Byte>>
    requires Reading(s, h, i, c)
  {
    Chunks(c[Cursor(s, h, i, c)..])
  }

  /** The byte of memory behind the file. */
  ghost function Next(s: State, h: int, i: int, c: seq<Byte>): Byte
    requires Reading(s, h, i, c)
  {
    Behind(s, i)
  }

  /** The next read runs over. */
  ghost predicate Over(s: State, h: int, i: int, c: seq<Byte>)
    requires Reading(s, h, i, c)
  {
    OverReads(c, Next(s, h, i, c), Cursor(s, h, i, c), MESSAGE_SIZE)
  }

  /** Moving a cursor changes no file. */
  lemma CursorOnly(s: State, h: int, i: int, c: seq<Byte>, offset: nat)
    requires Reading(s, h, i, c) && offset <= |c|
    ensures var t := s.(open := s.open[h := OpenEntry(i, offset)]);
            && t.Mounted() && Reading(t, h, i, c) && Cursor(t, h, i, c) == offset
            && Next(t, h, i, c) == Next(s, h, i, c)
  {
    hide Inv, Content, Behind, PiecesFit;
    InvMounted(s);
    OpenContent(s, h);
    OffsetInv(s, h, offset);
    SameFile(s, s.(open := s.open[h := OpenEntry(i, offset)]), i);
  }

  lemma SameFile(s: State, t: State, i: int)
    requires s.Shape() && s.ValidInum(i) && t == s.(open := t.open) && |t.open| == |s.open|
    ensures Content(t, i) == Content(s, i) && Behind(t, i) == Behind(s, i)
  {
  }

  lemma OffsetInv(s: State, h: int, offset: nat)
    requires Inv(s) && s.IsOpen(h)
    ensures Inv(s.(open := s.open[h := OpenEntry(s.open[h].inumber, offset)]))
  {
    var t := s.(open := s.open[h := OpenEntry(s.open[h].inumber, offset)]);
    hide BlocksInv, LinksInv;
    SameNames(s, t);
    OpenTableOnly(s, t.open, t.openTaken);
  }

  /** One read that does not run over: it takes the first message from the cursor on and moves behind it. */
  lemma ReadStep(s: State, h: int, i: int, c: seq<Byte>)
    requires Reading(s, h, i, c) && !Over(s, h, i, c)
    ensures s.Mounted() && TfsRead(s, h, MESSAGE_SIZE).Done?
    ensures var r := TfsRead(s, h, MESSAGE_SIZE); var d := Delivered(c, Cursor(s, h, i, c), MESSAGE_SIZE);
            && r.state.Mounted() && Reading(r.state, h, i, c) && Next(r.state, h, i, c) == Next(s, h, i, c)
            && r.ret == |r.bytes| && r.bytes == d.bytes && Cursor(r.state, h, i, c) == d.offset
            && (r.ret > 0 ==> Cursor(s, h, i, c) < d.offset)
            && Ahead(s, h, i, c) == One(r.bytes) + Ahead(r.state, h, i, c)
  {
    var offset := Cursor(s, h, i, c);
    ReadTakes(s, h, MESSAGE_SIZE);
    var d := Delivered(c, offset, MESSAGE_SIZE);
    assert HandedOver(c, Behind(s, i), offset, MESSAGE_SIZE) == d;
    CursorOnly(s, h, i, c, d.offset);
    DeliveredPiece(c, offset, MESSAGE_SIZE);
    assert s.Mounted();
    hide Inv, TfsRead, HandedOver, Delivered, Content, Behind, Chunks, PiecesFit;
  }

  /** One read that does: from the box's last NUL it takes the byte behind the file. */
  lemma ReadOver(s: State, h: int, i: int, c: seq<Byte>)
    requires Reading(s, h, i, c) && Over(s, h, i, c)
    ensures s.Mounted() && TfsRead(s, h, MESSAGE_SIZE).Done?
    ensures var r := TfsRead(s, h, MESSAGE_SIZE);
            && r.state.Mounted() && r.ret == |r.bytes|
            && r.bytes == c[Cursor(s, h, i, c) + 1..] + [Next(s, h, i, c)]
  {
    ReadTakes(s, h, MESSAGE_SIZE);
    assert s.Mounted();
    hide Inv, TfsRead, Content, Behind;
  }

  /** Behind a NUL no read runs over. */
  lemma NulStops(s: State, h: int, i: int, c: seq<Byte>)
    requires Reading(s, h, i, c) && Next(s, h, i, c) == NUL
    ensures !Over(s, h, i, c)
  {
  }

  /** With a NUL behind the file: what is sent, followed by what is still ahead, is what was ahead before. */
  lemma {:induction false} SendsAhead(s: State, h: int, i: int, c: seq<Byte>, fuel: nat)
    requires Reading(s, h, i, c) && Next(s, h, i, c) == NUL && |c| - Cursor(s, h, i, c) < fuel
    ensures s.Mounted()
    ensures var r := SendLoop(s, h, fuel);
            && r.Sent? && Reading(r.state, h, i, c)
            && r.messages + Ahead(r.state, h, i, c) == Ahead(s, h, i, c)
            && (Delivered(c, Cursor(s, h, i, c), MESSAGE_SIZE).bytes != [] ==> r.messages != [])
    decreases fuel
  {
    hide Reading, TfsRead, Delivered, Ahead, Cursor, Next, Over, SendLoop;
    NulStops(s, h, i, c);
    ReadStep(s, h, i, c);
    SendLoopStep(s, h, fuel);
    var r := TfsRead(s, h, MESSAGE_SIZE);
    if r.ret > 0 {
      SendsAhead(r.state, h, i, c, fuel - 1);
      var rest := SendLoop(r.state, h, fuel - 1);
      Regroup([r.bytes], rest.messages, Ahead(rest.state, h, i, c));
    }
  }

  /** An empty message lies ahead: a NUL directly behind another. */
  ghost predicate EmptyAhead(c: seq<Byte>, offset: nat) {
    exists k :: offset <= k < |c| - 1 && c[k] == NUL && c[k + 1] == NUL
  }

  predicate Whole(c: seq<Byte>) { c != [] && c[|c| - 1] == NUL }

  /** Where the next read leaves the cursor, in a box of whole messages and before its end. */
  lemma NextMessage(s: State, h: int, i: int, c: seq<Byte>)
    requires Reading(s, h, i, c) && Whole(c) && Cursor(s, h, i, c) < |c| - 1
    ensures var offset := Cursor(s, h, i, c); var d := Delivered(c, offset, MESSAGE_SIZE);
            && d.offset < |c|
            && (d.bytes == [] ==> EmptyAhead(c, offset))
            && (d.bytes != [] ==> (EmptyAhead(c, d.offset) <==> EmptyAhead(c, offset)))
  {
    NextPiece(c, Cursor(s, h, i, c));
  }

  lemma NextPiece(c: seq<Byte>, offset: nat)
    requires Whole(c) && offset < |c| - 1 && PiecesFit(c, MESSAGE_SIZE)
    ensures var d := Delivered(c, offset, MESSAGE_SIZE);
            && d.offset < |c|
            && (d.bytes == [] ==> EmptyAhead(c, offset))
            && (d.bytes != [] ==> (EmptyAhead(c, d.offset) <==> EmptyAhead(c, offset)))
  {
    var p := Skip(c, offset);
    var z := NulFrom(c, p);
    DeliveredIs(c, offset, MESSAGE_SIZE, z);
    hide Delivered, NulFrom, PiecesFit;
    if z > p {
      assert forall k :: offset <= k < z && c[k] == NUL ==> k == offset < p;
    } else {
      assert c[offset] == NUL && c[offset + 1] == NUL;
    }
  }

  /** Before the last NUL of a box of whole messages a read does not run over. */
  lemma OverAtEndOnly(s: State, h: int, i: int, c: seq<Byte>)
    requires Reading(s, h, i, c) && Whole(c) && Cursor(s, h, i, c) < |c|
    ensures Over(s, h, i, c) <==> Cursor(s, h, i, c) == |c| - 1 && Next(s, h, i, c) != NUL
  {
    var offset := Cursor(s, h, i, c);
    if offset < |c| - 1 {
      assert c[offset + 1..][|c| - offset - 2] == NUL;
    } else {
      assert c[offset + 1..] == [];
    }
  }

  /** Nothing is ahead of the box's last byte. */
  lemma NothingAhead(s: State, h: int, i: int, c: seq<Byte>)
    requires Reading(s, h, i, c) && Whole(c) && Cursor(s, h, i, c) == |c| - 1
    ensures Ahead(s, h, i, c) == [] && !EmptyAhead(c, |c| - 1) && c[|c|..] == []
    ensures Delivered(c, |c| - 1, MESSAGE_SIZE).bytes == []
  {
    ChunksOfMessage([]);
    assert c[|c| - 1..] == [] + [NUL];
    OverAtEndOnly(s, h, i, c);
  }

  /**
   * Only messages of the box are sent, when a NUL follows the box or an empty message stops the loop before its
   * end.
   */
  lemma {:induction false} SendsOnlyMessages(s: State, h: int, i: int, c: seq<Byte>, fuel: nat)
    requires Reading(s, h, i, c) && Whole(c) && |c| - Cursor(s, h, i, c) < fuel && Cursor(s, h, i, c) < |c|
    requires Next(s, h, i, c) == NUL || EmptyAhead(c, Cursor(s, h, i, c))
    ensures s.Mounted() && SendLoop(s, h, fuel).Sent? && SendLoop(s, h, fuel).messages <= Ahead(s, h, i, c)
    decreases fuel
  {
    hide Reading, TfsRead, Delivered, Ahead, Cursor, Next, Over, SendLoop, EmptyAhead, PiecesFit;
    OverAtEndOnly(s, h, i, c);
    var offset := Cursor(s, h, i, c);
    if offset == |c| - 1 {
      NothingAhead(s, h, i, c);
    } else {
      NextMessage(s, h, i, c);
    }
    ReadStep(s, h, i, c);
    SendLoopStep(s, h, fuel);
    var r := TfsRead(s, h, MESSAGE_SIZE);
    if r.ret > 0 {
      SendsOnlyMessages(r.state, h, i, c, fuel - 1);
    }
  }

  /** Otherwise the byte behind the box is sent after all of its messages. */
  lemma {:induction false} SendsMore(s: State, h: int, i: int, c: seq<Byte>, fuel: nat)
    requires Reading(s, h, i, c) && Whole(c) && Cursor(s, h, i, c) < |c|
    requires Next(s, h, i, c) != NUL && !EmptyAhead(c, Cursor(s, h, i, c))
    ensures s.Mounted()
    ensures SendLoop(s, h, fuel).Sent? ==> Ahead(s, h, i, c) + [[Next(s, h, i, c)]] <= SendLoop(s, h, fuel).messages
    decreases fuel
  {
    hide Reading, TfsRead, Delivered, Ahead, Cursor, Next, Over, SendLoop, EmptyAhead, PiecesFit;
    OverAtEndOnly(s, h, i, c);
    var offset := Cursor(s, h, i, c);
    if offset == |c| - 1 {
      ReadOver(s, h, i, c);
      NothingAhead(s, h, i, c);
      SendLoopStep(s, h, fuel);
      assert c[|c|..] + [Next(s, h, i, c)] == [Next(s, h, i, c)];
    } else {
      ReadStep(s, h, i, c);
      NextMessage(s, h, i, c);
      SendLoopStep(s, h, fuel);
      var r := TfsRead(s, h, MESSAGE_SIZE);
      if fuel > 0 {
        SendsMore(r.state, h, i, c, fuel - 1);
        Regroup([r.bytes], Ahead(r.state, h, i, c), [[Next(s, h, i, c)]]);
      }
    }
  }

  /**
   * From a cursor inside a box of whole messages the loop hands over only messages of the box if and only if
   * the byte of memory behind the box is NUL, or an empty message stops the loop before it gets that far.
   */
  lemma SendsOnlyMessagesIff(s: State, h: int, i: int, c: seq<Byte>)
    requires Reading(s, h, i, c) && Whole(c) && Cursor(s, h, i, c) < |c|
    ensures s.Mounted()
    ensures (exists fuel :: SendLoop(s, h, fuel).Sent? && SendLoop(s, h, fuel).messages <= Ahead(s, h, i, c))
       <==> Next(s, h, i, c) == NUL || EmptyAhead(c, Cursor(s, h, i, c))
  {
    assert s.Mounted();
    if Next(s, h, i, c) == NUL || EmptyAhead(c, Cursor(s, h, i, c)) {
      SendsOnlyMessages(s, h, i, c, |c| + 1);
    } else {
      forall fuel: nat | SendLoop(s, h, fuel).Sent? ensures !(SendLoop(s, h, fuel).messages <= Ahead(s, h, i, c)) {
        SendsMore(s, h, i, c, fuel);
      }
    }
  }
}
