/** The bounded task queue of producer-consumer/producer-consumer.c, one caller at a time. */
module TaskQueues {

  function Reversed<T>(s: seq<T>): (r: seq<T>)
    ensures |r| == |s|
  {
    if s == [] then [] else Reversed(s[1..]) + [s[0]]
  }

  lemma {:induction false} ReversedSnoc<T>(s: seq<T>, x: T)
    ensures Reversed(s + [x]) == [x] + Reversed(s)
  {
    if s == [] {
      assert Reversed([x]) == Reversed([]) + [x];
    } else {
      assert (s + [x])[1..] == s[1..] + [x];
      ReversedSnoc(s[1..], x);
    }
  }

  /** The buffer after pcq_enqueue: the tasks moved one place up, the new one in front. */
  function Shifted<T>(buffer: seq<T>, size: nat, elem: T): (r: seq<T>)
    requires size < |buffer|
    ensures |r| == |buffer|
  {
    [elem] + buffer[..size] + buffer[size + 1..]
  }

  /** Enqueueing at the front of the buffer appends to the queue. */
  lemma ShiftedContents<T>(buffer: seq<T>, size: nat, elem: T)
    requires size < |buffer|
    ensures Reversed(Shifted(buffer, size, elem)[..size + 1]) == Reversed(buffer[..size]) + [elem]
  {
    var front := Shifted(buffer, size, elem)[..size + 1];
    assert front == [elem] + buffer[..size];
    assert front[1..] == buffer[..size];
  }

  /** The task at the back of the buffer is the oldest of the queue. */
  lemma BackIsOldest<T>(buffer: seq<T>, size: nat)
    requires 0 < size <= |buffer|
    ensures Reversed(buffer[..size]) == [buffer[size - 1]] + Reversed(buffer[..size - 1])
  {
    assert buffer[..size] == buffer[..size - 1] + [buffer[size - 1]];
    ReversedSnoc(buffer[..size - 1], buffer[size - 1]);
  }

  class TaskQueue<T(0)> {
    const capacity: nat
    const buffer: array<T>
    var size: nat
    var head: nat
    var tail: nat

    ghost predicate Valid()
      reads this
    {
      size <= capacity == buffer.Length && head == 0 && tail == if size == 0 then 0 else size - 1
    }

    /** The queued tasks, oldest first. */
    ghost function Contents(): seq<T>
      reads this, buffer
      requires Valid()
    {
      Reversed(buffer[head..head + size])
    }

    /** pcq_create; the fields it leaves unset are 0. */
    constructor (capacity: nat)
      ensures Valid() && Contents() == [] && this.capacity == capacity && fresh(buffer)
    {
      this.capacity := capacity;
      buffer := new T[capacity];
      size, head, tail := 0, 0, 0;
    }

    /** pcq_enqueue, past its wait for room */
    method Enqueue(elem: T)
      requires Valid() && size < capacity
      modifies this, buffer
      ensures Valid() && Contents() == old(Contents()) + [elem] && size == old(size) + 1
    {
      if size != 0 {
        var i := tail + 1;
        while i > head
          modifies buffer
          invariant head <= i <= size
          invariant forall k :: 0 <= k < buffer.Length ==>
                    buffer[k] == if i < k <= size then old(buffer[k - 1]) else old(buffer[k])
        {
          buffer[i] := buffer[i - 1];
          i := i - 1;
        }
      }
      buffer[head] := elem;
      assert buffer[..] == Shifted(old(buffer[..]), size, elem);
      ShiftedContents(old(buffer[..]), size, elem);
      assert buffer[..size + 1] == buffer[..][..size + 1];
      assert old(buffer[..size]) == old(buffer[..])[..size];
      if size != 0 {
        tail := tail + 1;
      }
      size := size + 1;
    }

    /** pcq_dequeue, past its wait for a task */
    method Dequeue() returns (removed: T)
      requires Valid() && 0 < size
      modifies this
      ensures Valid() && old(Contents()) == [removed] + Contents() && size == old(size) - 1
    {
      removed := buffer[tail];
      BackIsOldest(buffer[..], size);
      assert buffer[..size] == buffer[..][..size] && buffer[..size - 1] == buffer[..][..size - 1];
      if tail != head {
        tail := tail - 1;
      }
      size := size - 1;
    }
  }
}
