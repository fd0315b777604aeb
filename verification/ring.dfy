/** The bounded output buffer kept for attach-time replay (internal/session/ring.go). */
module OutputRing {
  import opened Common

  class Ring {
    const cap: nat
    var b: seq<byte>
    // Everything ever written, for the specification only.
    ghost var history: seq<byte>

    ghost predicate Valid()
      reads this
    {
      b == Tail(history, cap)
    }

    constructor (capacity: nat)
      ensures Valid() && cap == capacity && history == []
    {
      cap, b, history := capacity, [], [];
    }

    method Write(p: seq<byte>)
      requires Valid()
      modifies this
      ensures Valid() && history == old(history) + p
      ensures b == Tail(old(b) + p, cap)
    {
      TailOfTail(history, p, cap);
      history := history + p;
      if |p| >= cap {
        b := p[|p| - cap..];
        return;
      }
      b := b + p;
      if |b| > cap {
        var n := |b| - cap;
        b := b[n..];
      }
    }

    method Bytes() returns (copy: seq<byte>)
      requires Valid()
      ensures copy == Tail(history, cap) == b
    {
      copy := b;
    }
  }
}
