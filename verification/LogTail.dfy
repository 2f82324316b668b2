/**
 The buffer that keeps the end of the core's output
 (internal/supervisor/manager_linux.go, ringBuffer): bounded, whatever the sizes
 of the writes.
 */
module LogTail {
  import opened Common

  newtype byte = b: int | 0 <= b < 256

  /** The last `capacity` bytes. */
  function Tail(s: seq<byte>, capacity: nat): seq<byte> {
    if |s| <= capacity then s else s[|s| - capacity..]
  }

  class RingBuffer {
    const capacity: nat
    var buffer: seq<byte>

    constructor (capacity: nat)
      ensures this.capacity == capacity && buffer == []
    {
      this.capacity := capacity;
      buffer := [];
    }

    /** What is written never fails; what no longer fits falls out at the front. */
    method Write(data: seq<byte>) returns (n: nat)
      requires |buffer| <= capacity
      modifies this
      ensures n == |data| && |buffer| <= capacity
      ensures buffer == Tail(old(buffer) + data, capacity)
    {
      n := |data|;
      if |data| >= capacity {
        ghost var all := buffer + data;
        assert data[|data| - capacity..] == all[|all| - capacity..];
        buffer := data[|data| - capacity..];
        return;
      }
      var overflow := |buffer| + |data| - capacity;
      if overflow > 0 {
        assert (buffer + data)[overflow..] == buffer[overflow..] + data;
        buffer := buffer[overflow..];
      }
      buffer := buffer + data;
    }
  }

  function Concat(writes: seq<seq<byte>>): seq<byte>
    decreases |writes|
  {
    if writes == [] then [] else Concat(writes[..|writes| - 1]) + writes[|writes| - 1]
  }

  /** The buffer after each write, as Write's contract gives it. */
  function After(writes: seq<seq<byte>>, capacity: nat): seq<byte>
    decreases |writes|
  {
    if writes == [] then [] else Tail(After(writes[..|writes| - 1], capacity) + writes[|writes| - 1], capacity)
  }

  lemma TailOfTail(s: seq<byte>, t: seq<byte>, capacity: nat)
    ensures Tail(Tail(s, capacity) + t, capacity) == Tail(s + t, capacity)
  {
    var kept := Tail(s, capacity) + t;
    if |s| > capacity {
      var dropped := |s| - capacity;
      assert kept == (s + t)[dropped..];
    }
  }

  lemma {:induction false} AfterIsTail(writes: seq<seq<byte>>, capacity: nat)
    ensures After(writes, capacity) == Tail(Concat(writes), capacity)
    decreases |writes|
  {
    if writes != [] {
      var rest, last := writes[..|writes| - 1], writes[|writes| - 1];
      AfterIsTail(rest, capacity);
      TailOfTail(Concat(rest), last, capacity);
    }
  }

  /** However the output was cut into writes, the buffer holds the end of all of it, as much as fits. */
  lemma BufferHoldsTheEnd(writes: seq<seq<byte>>, capacity: nat)
    ensures
      var all, kept := Concat(writes), After(writes, capacity);
      |kept| == Min(|all|, capacity) && kept == all[|all| - |kept|..]
  {
    AfterIsTail(writes, capacity);
  }
}
