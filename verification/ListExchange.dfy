/** Listing the boxes: the frames the broker sends and the loop in which the manager collects them. */
module ListExchange {
  import opened CTypes
  import opened BoxTable

  /** A list_manager_response, its char arrays read as strings. */
  datatype Frame = Frame(last: nat, name: CString, size: int, nPubs: int, nSubs: int, password: CString)

  const NO_BOX := Frame(0, [], 0, 0, 0, [])

  function FrameOf(b: Box): Frame { Frame(0, b.name, b.size, b.nPub, b.nSubs, b.password) }

  /** The taken boxes, in table order. */
  function TakenBoxes(boxes: seq<Box>): (t: seq<Box>)
    ensures |t| <= |boxes|
  {
    if boxes == [] then []
    else TakenBoxes(boxes[..|boxes| - 1]) + if boxes[|boxes| - 1].taken then [boxes[|boxes| - 1]] else []
  }

  /** A frame for each taken box, or one blank frame when there is none; the last one says so. */
  function Frames(boxes: seq<Box>): (f: seq<Frame>)
    ensures |f| == if TakenBoxes(boxes) == [] then 1 else |TakenBoxes(boxes)|
  {
    var t := TakenBoxes(boxes);
    if t == [] then [NO_BOX.(last := 1)]
    else seq(|t|, k requires 0 <= k < |t| => FrameOf(t[k]).(last := if k == |t| - 1 then 1 else 0))
  }

  /** What the manager ends up with: nothing when the closing frame is blank, else all frames up to it. */
  function Collected(frames: seq<Frame>): (r: Option<seq<Frame>>) {
    var k := FirstIndex(frames, (f: Frame) => f.last == 1);
    if k == -1 || frames[k].name == [] then None else Some(frames[..k + 1])
  }

  /** Every taken box is listed, in table order, and nothing else is. */
  lemma {:induction false} ListedIff(boxes: seq<Box>, b: Box)
    ensures b in TakenBoxes(boxes) <==> exists i :: 0 <= i < |boxes| && boxes[i] == b && b.taken
  {
    if boxes != [] {
      var init := boxes[..|boxes| - 1];
      ListedIff(init, b);
      if exists i :: 0 <= i < |boxes| && boxes[i] == b && b.taken {
        var i :| 0 <= i < |boxes| && boxes[i] == b && b.taken;
        if i < |init| {
          assert init[i] == b;
        }
      }
    }
  }

  /** The exchange: one last flag, on the final frame, and the manager shows exactly the taken boxes in table order. */
  lemma ExchangeComplete(boxes: seq<Box>)
    requires TableOk(boxes)
    ensures var f := Frames(boxes); forall k :: 0 <= k < |f| ==> (f[k].last == 1 <==> k == |f| - 1)
    ensures var t := TakenBoxes(boxes); var r := Collected(Frames(boxes));
            && (r.None? <==> t == [])
            && (r.Some? ==> |r.value| == |t| && forall k :: 0 <= k < |t| ==> r.value[k].(last := 0) == FrameOf(t[k]))
  {
    var t, f := TakenBoxes(boxes), Frames(boxes);
    var k := FirstIndex(f, (g: Frame) => g.last == 1);
    assert f[|f| - 1].last == 1;
    assert k == |f| - 1 && f[..k + 1] == f;
    if t != [] {
      ListedIff(boxes, t[|t| - 1]);
      assert t[|t| - 1] in t;
    }
  }

  /** Which of a box's fields each frame carries, and which frame is the last. */
  lemma FramesCarry(boxes: seq<Box>, k: nat)
    requires k < |TakenBoxes(boxes)|
    ensures var b := TakenBoxes(boxes)[k];
            Frames(boxes)[k]
            == Frame(if k == |TakenBoxes(boxes)| - 1 then 1 else 0, b.name, b.size, b.nPub, b.nSubs, b.password)
  {
  }

  /** Without a box there is one frame, with an empty name and the last flag. */
  lemma NoBoxFrame(boxes: seq<Box>)
    requires TakenBoxes(boxes) == []
    ensures |Frames(boxes)| == 1 && Frames(boxes)[0].last == 1 && Frames(boxes)[0].name == []
  {
  }

  /** process_manager_list: fill an array as long as the table, then flag the last frame. */
  method ProcessManagerList(boxes: array<Box>) returns (frames: seq<Frame>)
    requires boxes.Length > 0
    ensures frames == Frames(boxes[..])
  {
    var toSend := new Frame[boxes.Length](_ => NO_BOX);
    var counter := 0;
    for i := 0 to boxes.Length
      invariant counter == |TakenBoxes(boxes[..i])| <= i
      invariant forall k :: 0 <= k < counter ==> toSend[k] == FrameOf(TakenBoxes(boxes[..i])[k])
      invariant forall k :: counter <= k < boxes.Length ==> toSend[k] == NO_BOX
    {
      assert boxes[..i + 1][..i] == boxes[..i];
      if boxes[i].taken {
        toSend[counter] := FrameOf(boxes[i]);
        counter := counter + 1;
      }
    }
    assert boxes[..boxes.Length] == boxes[..];
    if counter == 0 {
      toSend[0] := NO_BOX;
      counter := 1;
    }
    toSend[counter - 1] := toSend[counter - 1].(last := 1);
    frames := toSend[..counter];
    assert frames == Frames(boxes[..]);
  }

  /** The first length of the manager's array, manager/manager.c:68 */
  const FIRST_SIZE := 100

  /** manager_list: read frames until one is flagged last, doubling the array whenever it is full. */
  method ManagerList(frames: seq<Frame>) returns (shown: Option<seq<Frame>>)
    requires exists k :: 0 <= k < |frames| && frames[k].last == 1
    ensures shown == Collected(frames)
  {
    ghost var final := FirstIndex(frames, (f: Frame) => f.last == 1);
    var size := FIRST_SIZE;
    var counter := 0;
    var listOfBoxes := new Frame[size](_ => NO_BOX);
    while true
      invariant 0 <= counter <= final && counter < size == listOfBoxes.Length
      invariant listOfBoxes[..counter] == frames[..counter]
      invariant fresh(listOfBoxes)
      decreases final - counter
    {
      listOfBoxes[counter] := frames[counter];
      assert listOfBoxes[..counter + 1] == frames[..counter + 1];
      if listOfBoxes[counter].last == 1 {
        if listOfBoxes[counter].name == [] {
          return None;
        }
        break;
      }
      counter := counter + 1;
      if counter == size {
        size := size * 2;
        var grown := new Frame[size](k requires 0 <= k < size reads listOfBoxes =>
          if k < listOfBoxes.Length then listOfBoxes[k] else NO_BOX);
        assert grown[..counter] == listOfBoxes[..counter];
        listOfBoxes := grown;
      }
    }
    return Some(listOfBoxes[..counter + 1]);
  }
}
