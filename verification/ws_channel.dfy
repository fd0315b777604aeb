/** The logical channels of one WebSocket connection and their registry (internal/api/ws_handler.go,
    virtualConn and wsRouter). Methods are the regions the source runs under one lock, and single
    channel operations. */
module WsChannel {
  import opened Common

  const QUEUE_CAPACITY := 64

  type Frame = seq<byte>

  // Why a channel was closed: a plain detach, or a reason the client is told.
  datatype Reason = ClientClosed | TakenOver | SessionGone

  // signalled: the channel's closedCh has been closed.
  datatype Chan = Chan(err: Option<Reason>, signalled: bool, queue: seq<Frame>)

  const OPEN := Chan(None, false, [])

  /** The first close wins; a later one finds the channel closed and does nothing. */
  function Close(c: Chan, reason: Reason): Chan {
    if c.err.Some? then c else c.(err := Some(reason))
  }

  /** A channel keeps the reason it was first closed for, and its frames. */
  lemma FirstCloseWins(c: Chan, first: Reason, second: Reason)
    ensures Close(c, first) == Chan(if c.err.Some? then c.err else Some(first), c.signalled, c.queue)
    ensures Close(Close(c, first), second) == Close(c, first)
  {
  }

  function Signalled(c: Chan): Chan {
    c.(signalled := true)
  }

  function Enqueued(c: Chan, frame: Frame): Chan {
    c.(queue := c.queue + [frame])
  }

  function Dequeued(c: Chan): Chan
    requires c.queue != []
  {
    c.(queue := c.queue[1..])
  }

  // The registry, for whatever stands for a channel.

  function Registered<T>(chans: map<string, T>, sid: string, vc: T): map<string, T> {
    chans[sid := vc]
  }

  function Removed<T>(chans: map<string, T>, sid: string): map<string, T> {
    chans - {sid}
  }

  /** A channel is taken out by identity: never another one. */
  function Unregistered<T(==)>(chans: map<string, T>, sid: string, vc: T): map<string, T> {
    if sid in chans && chans[sid] == vc then Removed(chans, sid) else chans
  }

  class VirtualConn {
    const sid: string
    var queue: seq<Frame>
    var closed: bool
    var closeErr: Option<Reason>
    var closedCh: bool

    ghost predicate Valid()
      reads this
    {
      (closed <==> closeErr.Some?) && |queue| <= QUEUE_CAPACITY
    }

    ghost function View(): Chan
      reads this
    {
      Chan(closeErr, closedCh, queue)
    }

    constructor (sid: string)
      ensures Valid() && View() == OPEN && this.sid == sid
    {
      this.sid, queue, closed, closeErr, closedCh := sid, [], false, None, false;
    }

    /** The locked part of detach and CloseWithReason; the winner goes on to signal. */
    method TryClose(reason: Reason) returns (won: bool)
      requires Valid()
      modifies this`closed, this`closeErr
      ensures Valid()
      ensures View() == Close(old(View()), reason)
      ensures won <==> old(closeErr).None?
    {
      if closed {
        return false;
      }
      closed := true;
      closeErr := Some(reason);
      won := true;
    }

    /** Closing a channel that is closed already would panic. */
    method Signal()
      requires Valid() && !closedCh
      modifies this`closedCh
      ensures Valid() && View() == Signalled(old(View()))
    {
      closedCh := true;
    }

    /** A send that found the channel open waits for room or for the close; `dropped` is the choice made
        when both are there. */
    method Push(frame: Frame, dropped: bool) returns (sent: bool)
      requires Valid() && (if dropped then closedCh else |queue| < QUEUE_CAPACITY)
      modifies this`queue
      ensures Valid() && (sent <==> !dropped)
      ensures View() == if sent then Enqueued(old(View()), frame) else old(View())
    {
      if dropped {
        return false;
      }
      queue := queue + [frame];
      sent := true;
    }

    /** A read returns the oldest frame or the close reason; `sawClose` is the choice made when
        both are there. */
    method ReadMessage(sawClose: bool) returns (r: Result<Frame, Reason>)
      requires Valid() && (if sawClose then closedCh && closed else |queue| > 0)
      modifies this`queue
      ensures Valid()
      ensures sawClose ==> r == Err(closeErr.value) && View() == old(View())
      ensures !sawClose ==> r == Ok(old(queue)[0]) && View() == Dequeued(old(View()))
    {
      if sawClose {
        return Err(closeErr.value);
      }
      r := Ok(queue[0]);
      queue := queue[1..];
    }
  }

  class Router {
    var chans: map<string, VirtualConn>

    ghost predicate Valid()
      reads this, chans.Values
    {
      forall sid :: sid in chans ==> chans[sid].sid == sid
    }

    constructor ()
      ensures Valid() && chans == map[]
    {
      chans := map[];
    }

    method Lookup(sid: string) returns (vc: Option<VirtualConn>)
      ensures vc == if sid in chans then Some(chans[sid]) else None
    {
      vc := if sid in chans then Some(chans[sid]) else None;
    }

    method Register(vc: VirtualConn)
      requires Valid()
      modifies this
      ensures Valid() && chans == Registered(old(chans), vc.sid, vc)
    {
      chans := chans[vc.sid := vc];
    }

    method Remove(sid: string) returns (vc: Option<VirtualConn>)
      requires Valid()
      modifies this
      ensures Valid() && chans == Removed(old(chans), sid)
      ensures vc == if sid in old(chans) then Some(old(chans)[sid]) else None
    {
      vc := if sid in chans then Some(chans[sid]) else None;
      chans := chans - {sid};
    }

    /** The bridge's clean-up removes its own channel by identity, never another one. */
    method Unregister(vc: VirtualConn)
      requires Valid()
      modifies this
      ensures Valid()
      ensures chans == Unregistered(old(chans), vc.sid, vc)
    {
      if vc.sid in chans && chans[vc.sid] == vc {
        chans := chans - {vc.sid};
      }
    }

    method TakeAll() returns (vcs: set<VirtualConn>)
      requires Valid()
      modifies this
      ensures Valid() && chans == map[] && vcs == old(chans).Values
    {
      vcs := set sid | sid in chans :: chans[sid];
      chans := map[];
    }
  }
}
