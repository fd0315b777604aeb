/** A terminal session's ownership and output state (internal/session/session.go). Each method of the
    class is one region the source executes under its locks. */
module SessionCore {
  import opened Common
  import opened OutputRing

  const OUTPUT_RING_CAPACITY := 4 * 1024 * 1024

  datatype State = Idle | Running | Destroyed

  // The identity of a client connection.
  type Conn = nat

  // What Attach returns: the bridge's own reason, or why the session refused or took over.
  datatype Outcome = Bridged(reason: nat) | Preempted | AlreadyDestroyed

  datatype Core = Core(
    state: State, conn: Option<Conn>, epoch: nat, total: nat, replaySeq: nat, out: seq<byte>)

  const FRESH := Core(Idle, None, 0, 0, 0, [])

  /** Attach, first region: take over whoever is attached. */
  function Publish(c: Core, conn: Conn): Core {
    c.(epoch := c.epoch + 1, conn := Some(conn), state := Running)
  }

  /** The bridge's first region: set the replay boundary and copy the buffered output. */
  function MarkReplay(c: Core): Core {
    c.(replaySeq := c.total)
  }

  /** Attach, last region: the state falls back to Idle only under the epoch that owns it. */
  function Release(c: Core, epoch: nat, conn: Conn): Core {
    if c.state.Destroyed? || c.epoch != epoch then c
    else c.(state := Idle, conn := if c.conn == Some(conn) then None else c.conn)
  }

  function ReleaseOutcome(c: Core, epoch: nat, reason: nat): Outcome {
    if c.state.Destroyed? || c.epoch == epoch then Bridged(reason) else Preempted
  }

  function Kill(c: Core): Core {
    if c.state.Destroyed? then c
    else c.(state := Destroyed, epoch := c.epoch + 1, conn := None)
  }

  function Append(c: Core, chunk: seq<byte>): Core {
    c.(total := c.total + |chunk|, out := Tail(c.out + chunk, OUTPUT_RING_CAPACITY))
  }

  /** Where a chunk that starts at `start` is delivered live. */
  function LiveTarget(c: Core, start: nat): Option<Conn> {
    if start >= c.replaySeq then c.conn else None
  }

  class Session {
    var state: State
    var conn: Option<Conn>
    var attachEpoch: nat
    var total: nat
    var replaySeq: nat
    const out: Ring

    ghost predicate Valid()
      reads this, out
    {
      out.Valid() && out.cap == OUTPUT_RING_CAPACITY && total == |out.history|
    }

    ghost function View(): Core
      reads this, out
    {
      Core(state, conn, attachEpoch, total, replaySeq, out.b)
    }

    constructor ()
      ensures Valid() && View() == FRESH && fresh(out)
    {
      state, conn, attachEpoch, total, replaySeq := Idle, None, 0, 0, 0;
      out := new Ring(OUTPUT_RING_CAPACITY);
    }

    /** The connection returned is the one to close, outside the lock. */
    method BeginAttach(client: Conn) returns (refused: bool, previous: Option<Conn>, myEpoch: nat)
      requires Valid()
      modifies this`state, this`conn, this`attachEpoch
      ensures Valid()
      ensures refused <==> old(state).Destroyed?
      ensures refused ==> View() == old(View()) && previous == None
      ensures !refused ==> View() == Publish(old(View()), client) && previous == old(conn)
      ensures !refused ==> myEpoch == attachEpoch
    {
      if state.Destroyed? {
        return true, None, 0;
      }
      previous := conn;
      attachEpoch := attachEpoch + 1;
      myEpoch := attachEpoch;
      conn := Some(client);
      state := Running;
      refused := false;
    }

    method EndAttach(myEpoch: nat, client: Conn, reason: nat) returns (outcome: Outcome)
      requires Valid()
      modifies this`state, this`conn
      ensures Valid()
      ensures View() == Release(old(View()), myEpoch, client)
      ensures outcome == ReleaseOutcome(old(View()), myEpoch, reason)
    {
      outcome := Bridged(reason);
      if state.Destroyed? {
      } else if attachEpoch == myEpoch {
        state := Idle;
        if conn == Some(client) {
          conn := None;
        }
      } else {
        outcome := Preempted;
      }
    }

    method Destroy() returns (victim: Option<Conn>)
      requires Valid()
      modifies this`state, this`conn, this`attachEpoch
      ensures Valid()
      ensures View() == Kill(old(View()))
      ensures victim == if old(state).Destroyed? then None else old(conn)
    {
      if state.Destroyed? {
        return None;
      }
      state := Destroyed;
      attachEpoch := attachEpoch + 1;
      victim := conn;
      conn := None;
    }

    method TakeSnapshot() returns (snapshot: seq<byte>)
      requires Valid()
      modifies this`replaySeq
      ensures Valid()
      ensures View() == MarkReplay(old(View()))
      ensures snapshot == Tail(out.history, OUTPUT_RING_CAPACITY) == View().out
    {
      replaySeq := total;
      snapshot := out.Bytes();
    }

    /** pumpChunk up to the guard; the output lock stays held until LookUpTarget. */
    method AppendOutput(chunk: seq<byte>) returns (chunkStart: nat, eligible: bool)
      requires Valid()
      modifies this`total, out
      ensures Valid() && out.history == old(out.history) + chunk
      ensures View() == Append(old(View()), chunk)
      ensures chunkStart == old(total) && (eligible <==> chunkStart >= replaySeq)
    {
      chunkStart := total;
      total := total + |chunk|;
      out.Write(chunk);
      eligible := chunkStart >= replaySeq;
    }

    method LookUpTarget(chunkStart: nat, eligible: bool) returns (deliverTo: Option<Conn>)
      requires Valid() && (eligible <==> chunkStart >= replaySeq)
      ensures deliverTo == LiveTarget(View(), chunkStart)
    {
      deliverTo := None;
      if eligible {
        deliverTo := conn;
      }
    }
  }
}
