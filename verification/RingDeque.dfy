/**
 The work-stealing deque with its growing ring buffer, for calls that do not overlap:
 the buffer with doubling refines an unbounded double-ended queue.
 */
module RingDeque {
  import opened Common
  import opened WorkStealingDeque

  const INITIAL_SIZE := 1024

  ghost predicate PowerOfTwo(n: nat)
  {
    n == 1 || (n > 1 && n % 2 == 0 && PowerOfTwo(n / 2))
  }

  lemma InitialSizeIsPowerOfTwo()
    ensures PowerOfTwo(INITIAL_SIZE)
  {
    assert PowerOfTwo(8);
    assert PowerOfTwo(64);
    assert PowerOfTwo(512);
  }

  class RingDeque<T(0)> {
    var buffer: array<T>
    var head: nat
    var tail: nat

    ghost predicate Valid()
      reads this, buffer
    {
      && buffer.Length >= 2 && PowerOfTwo(buffer.Length)
      && head <= tail && tail - head <= buffer.Length - 1
    }

    /** The queue from front to back. */
    ghost function Contents(): (s: seq<T>)
      requires Valid()
      reads this, buffer
    {
      Items(buffer[..], head, tail)
    }

    constructor ()
      ensures Valid() && fresh(buffer) && Contents() == []
    {
      InitialSizeIsPowerOfTwo();
      buffer := new T[INITIAL_SIZE];
      head, tail := 0, 0;
    }

    /** Doubling moves every live item to its slot in the larger buffer. */
    method Resize()
      requires Valid()
      modifies this
      ensures Valid() && fresh(buffer)
      ensures buffer.Length == 2 * old(buffer.Length)
      ensures head == old(head) && tail == old(tail)
      ensures Contents() == old(Contents())
    {
      var oldSize := buffer.Length;
      var newSize := 2 * oldSize;
      var grown := new T[newSize];
      var i := head;
      while i < tail
        modifies grown
        invariant head <= i <= tail
        invariant Items(grown[..], head, i) == Items(buffer[..], head, i)
      {
        WriteSlot(grown[..], head, i, buffer[Slot(i, oldSize)]);
        ghost var before := grown[..];
        grown[Slot(i, newSize)] := buffer[Slot(i, oldSize)];
        assert grown[..] == before[Slot(i, newSize) := buffer[Slot(i, oldSize)]];
        assert Items(grown[..], head, i + 1) == Items(grown[..], head, i) + [buffer[Slot(i, oldSize)]];
        assert Items(buffer[..], head, i + 1) == Items(buffer[..], head, i) + [buffer[Slot(i, oldSize)]];
        i := i + 1;
      }
      buffer := grown;
    }

    method Push(item: T)
      requires Valid()
      modifies this, buffer
      ensures Valid() && (buffer == old(buffer) || fresh(buffer))
      ensures Contents() == old(Contents()) + [item]
      ensures buffer.Length == if |old(Contents())| < old(buffer.Length) - 1 then old(buffer.Length) else 2 * old(buffer.Length)
    {
      if tail - head >= buffer.Length - 1 {
        Resize();
      }
      WriteSlot(buffer[..], head, tail, item);
      ghost var before := buffer[..];
      buffer[Slot(tail, buffer.Length)] := item;
      assert buffer[..] == before[Slot(tail, buffer.Length) := item];
      assert Items(buffer[..], head, tail + 1) == Items(buffer[..], head, tail) + [item];
      tail := tail + 1;
    }

    method Pop() returns (r: Option<T>)
      requires Valid()
      modifies this
      ensures Valid() && buffer == old(buffer)
      ensures old(Contents()) == [] ==> r == None && Contents() == []
      ensures old(Contents()) != [] ==> r.Some? && old(Contents()) == Contents() + [r.value]
    {
      if tail == 0 {
        return None;
      }
      var t := tail;
      tail := t - 1;
      var item := buffer[Slot(t - 1, buffer.Length)];
      if t - 1 > head {
        assert Items(buffer[..], head, t) == Items(buffer[..], head, t - 1) + [item];
        return Some(item);
      }
      if t - 1 == head {
        head := t;
        tail := t;
        assert old(Contents()) == Contents() + [item];
        return Some(item);
      }
      tail := t;
      return None;
    }

    method Steal() returns (r: Option<T>)
      requires Valid()
      modifies this
      ensures Valid() && buffer == old(buffer)
      ensures old(Contents()) == [] ==> r == None && Contents() == []
      ensures old(Contents()) != [] ==> r.Some? && old(Contents()) == [r.value] + Contents()
    {
      if tail <= head {
        return None;
      }
      var item := buffer[Slot(head, buffer.Length)];
      assert Items(buffer[..], head, tail) == [item] + Items(buffer[..], head + 1, tail);
      head := head + 1;
      return Some(item);
    }
  }
}
