/** What the multiplexer does for its client in every run (internal/api/ws_handler.go): frames reach open channels,
    attaching opens a channel, and detaching closes it. */
module WsService {
  import opened Common
  import opened WsChannel
  import opened WsMux

  /** What the read loop is doing between a frame it read and its next read. */
  predicate Busy(ss: seq<Sys>, i: nat, n: nat)
    requires n < |ss|
  {
    forall k :: i < k < n ==> !ss[k].loop.Reading?
  }

  /** The loop's own steps are the ones that move it. */
  lemma BusyStep(s: Sys, a: Action)
    requires Enabled(s, a) && !s.loop.Reading?
    ensures s.loop.Delivering? && s.loop.vc in s.vcs ==>
              var s', vc := Apply(s, a), s.loop.vc;
              vc in s'.vcs && s'.vcs[vc].pushed == s.vcs[vc].pushed
              && (if a.CheckOpen? then s'.loop == (if s.vcs[vc].ch.err.Some? then Reading else Pushing(vc, s.loop.sid, s.loop.frame))
                  else s'.loop == s.loop)
    ensures s.loop.Pushing? && s.loop.vc in s.vcs ==>
              var s', vc := Apply(s, a), s.loop.vc;
              vc in s'.vcs
              && s'.vcs[vc].pushed == s.vcs[vc].pushed + (if a.Enqueue? then [(s.loop.sid, s.loop.frame)] else [])
              && (if a.Enqueue? then s'.loop == Reading
                  else if a.DropFrame? then s'.loop == Reading && s.vcs[vc].ch.signalled
                  else s'.loop == s.loop)
  {
    if s.loop.Delivering? && s.loop.vc in s.vcs && !a.CheckOpen? {
      EveryChannelStep(s, a, s.loop.vc);
    }
    if s.loop.Pushing? && s.loop.vc in s.vcs && !a.Enqueue? {
      EveryChannelStep(s, a, s.loop.vc);
    }
  }

  lemma SignalledIsClosed(s: Sys, vc: nat)
    requires ClosersInv(s) && vc in s.vcs && s.vcs[vc].ch.signalled
    ensures s.vcs[vc].ch.err.Some?
  {
    if HasCloser(s.closers, vc) {
      var k :| k in s.closers && s.closers[k].vc == vc;
      assert Closing(s.vcs[vc], s.closers[k]);
    } else {
      assert Settled(s.vcs[vc]);
    }
  }

  /** Where a frame for channel `vc` stands: under way, accepted, or refused by a closed channel. */
  predicate FrameStands(s: Sys, vc: nat, sid: Sid, frame: Frame, pushed: seq<(Sid, Frame)>) {
    vc in s.vcs
    && match s.loop
       case Delivering(v, x, f) => v == vc && x == sid && f == frame && s.vcs[vc].pushed == pushed
       case Pushing(v, x, f) => v == vc && x == sid && f == frame && s.vcs[vc].pushed == pushed
       case Reading => s.vcs[vc].pushed == pushed + [(sid, frame)]
                       || (s.vcs[vc].pushed == pushed && s.vcs[vc].ch.err.Some?)
       case _ => false
  }

  lemma FrameMoves(s: Sys, a: Action, vc: nat, sid: Sid, frame: Frame, pushed: seq<(Sid, Frame)>)
    requires ClosersInv(s) && Enabled(s, a) && !s.loop.Reading? && FrameStands(s, vc, sid, frame, pushed)
    ensures FrameStands(Apply(s, a), vc, sid, frame, pushed)
  {
    BusyStep(s, a);
    EveryChannelStep(s, a, vc);
    if a.DropFrame? && s.loop.Pushing? {
      SignalledIsClosed(s, vc);
    }
    hide Apply, Enabled, ClosersInv;
    assert pushed + [] == pushed;
  }

  lemma FrameStarts(s: Sys, sid: Sid, frame: Frame)
    requires ChansInv(s) && Enabled(s, FrameData(sid, frame)) && sid in s.chans
    ensures s.chans[sid] in s.vcs
    ensures FrameStands(Apply(s, FrameData(sid, frame)), s.chans[sid], sid, frame, s.vcs[s.chans[sid]].pushed)
  {
  }

  lemma InvParts(s: Sys)
    requires Inv(s)
    ensures ClosersInv(s) && ChansInv(s)
  {
  }

  lemma {:induction false} FrameUnderWay(ss: seq<Sys>, acts: seq<Action>, i: nat, n: nat, sid: Sid, frame: Frame)
    requires IsRun(ss, acts) && i < n < |ss| && acts[i] == FrameData(sid, frame) && sid in ss[i].chans
    requires Busy(ss, i, n)
    ensures ss[i].chans[sid] in ss[i].vcs
    ensures var vc := ss[i].chans[sid]; FrameStands(ss[n], vc, sid, frame, ss[i].vcs[vc].pushed)
    decreases n
  {
    hide Apply, Enabled, Inv, ClosersInv, ChansInv, FrameStands;
    RunKeepsInv(ss, acts, i);
    InvParts(ss[i]);
    RunStep(ss, acts, i);
    FrameStarts(ss[i], sid, frame);
    if i + 1 < n {
      var k := n - 1;
      FrameUnderWay(ss, acts, i, k, sid, frame);
      RunKeepsInv(ss, acts, k);
      InvParts(ss[k]);
      RunStep(ss, acts, k);
      FrameMoves(ss[k], acts[k], ss[i].chans[sid], sid, frame, ss[i].vcs[ss[i].chans[sid]].pushed);
    }
  }

  /** A frame for a registered channel is accepted, unless the channel has been closed by the time the loop reads
      on: an open channel never loses one. */
  lemma OpenChannelAccepts(ss: seq<Sys>, acts: seq<Action>, i: nat, n: nat, sid: Sid, frame: Frame)
    requires IsRun(ss, acts) && i < n < |ss| && acts[i] == FrameData(sid, frame) && sid in ss[i].chans
    requires ss[n].loop.Reading? && Busy(ss, i, n)
    ensures ss[i].chans[sid] in ss[i].vcs && ss[i].chans[sid] in ss[n].vcs
    ensures var vc := ss[i].chans[sid];
            || ss[n].vcs[vc].pushed == ss[i].vcs[vc].pushed + [(sid, frame)]
            || (ss[n].vcs[vc].pushed == ss[i].vcs[vc].pushed && ss[n].vcs[vc].ch.err.Some?)
  {
    FrameUnderWay(ss, acts, i, n, sid, frame);
  }

  lemma DetachStep(s: Sys, a: Action)
    requires Enabled(s, a) && s.loop.Detaching? && s.loop.vc in s.vcs
    ensures var s', vc := Apply(s, a), s.loop.vc;
            vc in s'.vcs && (if a.LoopDetach? then s'.loop == Reading && s'.vcs[vc].ch.err.Some? else s'.loop == s.loop)
  {
    EveryChannelStep(s, a, s.loop.vc);
  }

  lemma AttachStep(s: Sys, a: Action)
    requires Enabled(s, a) && s.loop.Attaching?
    ensures var s' := Apply(s, a);
            if a.Register? then
              && s'.loop == Reading && a.vc !in s.vcs && a.vc in s'.vcs && s'.vcs[a.vc] == Vc(s.loop.sid, OPEN, Bridging, [], [], 0, [])
              && s.loop.sid in s'.chans && s'.chans[s.loop.sid] == a.vc
            else s'.loop == s.loop
  {
  }

  lemma DetachStarts(s: Sys, sid: Sid)
    requires ChansInv(s) && Enabled(s, FrameDetach(sid)) && sid in s.chans
    ensures s.chans[sid] in s.vcs && DetachStands(Apply(s, FrameDetach(sid)), s.chans[sid], sid)
  {
  }

  /** Where a detach stands: out of the registry, and closed once the loop reads on. */
  predicate DetachStands(s: Sys, vc: nat, sid: Sid) {
    && vc in s.vcs && sid !in s.chans
    && (s.loop == Detaching(vc) || (s.loop.Reading? && s.vcs[vc].ch.err.Some?))
  }

  lemma DetachMoves(s: Sys, a: Action, vc: nat, sid: Sid)
    requires Enabled(s, a) && !s.loop.Reading? && DetachStands(s, vc, sid)
    ensures DetachStands(Apply(s, a), vc, sid)
  {
    DetachStep(s, a);
    assert !a.Register?;
    hide Apply, Enabled;
    if sid in Apply(s, a).chans {
      RegistryStep(s, a, sid);
    }
  }

  /** Detaching takes the channel out of the registry and closes it. */
  lemma {:induction false} DetachCloses(ss: seq<Sys>, acts: seq<Action>, i: nat, n: nat, sid: Sid)
    requires IsRun(ss, acts) && i < n < |ss| && acts[i] == FrameDetach(sid) && sid in ss[i].chans && Busy(ss, i, n)
    ensures ss[i].chans[sid] in ss[n].vcs && sid !in ss[n].chans
    ensures ss[n].loop.Reading? ==> ss[n].vcs[ss[i].chans[sid]].ch.err.Some?
    ensures DetachStands(ss[n], ss[i].chans[sid], sid)
    decreases n
  {
    hide Apply, Enabled, Inv, ClosersInv, ChansInv;
    RunKeepsInv(ss, acts, i);
    InvParts(ss[i]);
    RunStep(ss, acts, i);
    DetachStarts(ss[i], sid);
    if i + 1 < n {
      var k := n - 1;
      DetachCloses(ss, acts, i, k, sid);
      RunStep(ss, acts, k);
      DetachMoves(ss[k], acts[k], ss[i].chans[sid], sid);
    }
  }

  /** A channel as it begins. */
  function NewVc(sid: Sid): Vc {
    Vc(sid, OPEN, Bridging, [], [], 0, [])
  }

  /** Where an attach stands: to be registered, or just registered with a new channel. */
  predicate AttachStands(s: Sys, s': Sys, sid: Sid) {
    || s'.loop == Attaching(sid)
    || (&& s'.loop.Reading? && sid in s'.chans && s'.chans[sid] !in s.vcs
        && s'.chans[sid] in s'.vcs && s'.vcs[s'.chans[sid]] == NewVc(sid))
  }

  lemma AttachStarts(s: Sys, sid: Sid)
    requires Enabled(s, FrameAttach(sid, true)) && sid !in s.chans
    ensures Apply(s, FrameAttach(sid, true)).loop == Attaching(sid)
  {
  }

  /** Attaching an id that names a session and has no channel ends with a new, open channel for it. */
  lemma {:induction false} AttachOpens(ss: seq<Sys>, acts: seq<Action>, i: nat, n: nat, sid: Sid)
    requires IsRun(ss, acts) && i < n < |ss| && acts[i] == FrameAttach(sid, true) && sid !in ss[i].chans && Busy(ss, i, n)
    ensures AttachStands(ss[n - 1], ss[n], sid)
    decreases n
  {
    hide Apply, Enabled;
    RunStep(ss, acts, i);
    AttachStarts(ss[i], sid);
    if i + 1 < n {
      var k := n - 1;
      AttachOpens(ss, acts, i, k, sid);
      RunStep(ss, acts, k);
      AttachStep(ss[k], acts[k]);
    }
  }

  /** Attaching again, or an id that names no session, changes nothing; and so does a frame or a detach for an id
      without a channel. */
  lemma NothingToDo(ss: seq<Sys>, acts: seq<Action>, i: nat, sid: Sid)
    requires IsRun(ss, acts) && i < |acts|
    requires || (sid in ss[i].chans && (acts[i] == FrameAttach(sid, true) || acts[i] == FrameAttach(sid, false)))
             || (sid !in ss[i].chans && (acts[i] == FrameAttach(sid, false) || acts[i] == FrameDetach(sid)))
             || (sid !in ss[i].chans && acts[i].FrameData? && acts[i].sid == sid)
    ensures ss[i + 1] == ss[i]
  {
    RunStep(ss, acts, i);
  }

  /** A session's close gives an open channel its reason. */
  lemma CloseGivesReason(ss: seq<Sys>, acts: seq<Action>, i: nat, vc: nat, reason: Reason, k: nat)
    requires IsRun(ss, acts) && i < |acts| && acts[i] == CloseBySession(vc, reason, k)
    ensures vc in ss[i].vcs && vc in ss[i + 1].vcs
    ensures ss[i + 1].vcs[vc].ch.err == if ss[i].vcs[vc].ch.err.Some? then ss[i].vcs[vc].ch.err else Some(reason)
  {
    RunStep(ss, acts, i);
  }

  /** A frame waits for room only while 64 others are queued, and is dropped only once the channel is signalled. */
  lemma RoomForFrames(s: Sys)
    requires s.loop.Pushing? && s.loop.vc in s.vcs
    ensures Enabled(s, Enqueue) <==> |s.vcs[s.loop.vc].ch.queue| < 64
    ensures Enabled(s, DropFrame) <==> s.vcs[s.loop.vc].ch.signalled
  {
  }

  /** How a step moves a channel's bridge. */
  lemma BridgeStep(s: Sys, a: Action, vc: nat)
    requires Enabled(s, a) && vc in s.vcs
    ensures vc in Apply(s, a).vcs
    ensures var b, b' := s.vcs[vc].bridge, Apply(s, a).vcs[vc].bridge;
            if a == BridgeReturns(vc) then b.Bridging? && b'.Returned?
            else if a == Action.Unregister(vc) then b.Returned? && b'.Unregistered?
            else if a.BridgeDetach? && a.vc == vc then b.Unregistered? && b'.Cleaned? && Apply(s, a).vcs[vc].ch.err.Some?
            else b' == b
  {
    EveryChannelStep(s, a, vc);
  }

  /** A bridge goes its way once: its attach returns, then its channel leaves the registry for good, and then it is
      closed. */
  predicate BridgeStands(s: Sys, vc: nat)
    requires vc in s.vcs
  {
    && (s.vcs[vc].bridge.Unregistered? || s.vcs[vc].bridge.Cleaned? ==> vc !in s.chans.Values)
    && (s.vcs[vc].bridge.Cleaned? ==> s.vcs[vc].ch.err.Some?)
  }

  lemma BridgeMoves(s: Sys, a: Action, vc: nat)
    requires ChansInv(s) && Enabled(s, a) && vc in s.vcs && BridgeStands(s, vc)
    ensures vc in Apply(s, a).vcs && BridgeStands(Apply(s, a), vc)
  {
    BridgeStep(s, a, vc);
    EveryChannelStep(s, a, vc);
    if a == Action.Unregister(vc) {
      UnregisterTakesOut(s, vc);
    }
    hide Apply, Enabled;
    forall sid | sid in Apply(s, a).chans && Apply(s, a).chans[sid] == vc
      ensures sid in s.chans && s.chans[sid] == vc
    {
      RegistryStep(s, a, sid);
      RegisterIsNew(s, a, vc);
    }
  }

  lemma UnregisterTakesOut(s: Sys, vc: nat)
    requires ChansInv(s) && Enabled(s, Action.Unregister(vc))
    ensures vc !in Apply(s, Action.Unregister(vc)).chans.Values
  {
  }

  lemma RegisterIsNew(s: Sys, a: Action, vc: nat)
    requires Enabled(s, a) && vc in s.vcs
    ensures a != Register(vc)
  {
  }

  /** In every run a bridge stands as above: once its channel has been unregistered it is never registered again, and
      once it is done the channel is closed. */
  lemma {:induction false} BridgeCleansUp(ss: seq<Sys>, acts: seq<Action>, n: nat, vc: nat)
    requires IsRun(ss, acts) && n < |ss| && vc in ss[n].vcs
    ensures BridgeStands(ss[n], vc)
    decreases n
  {
    if n > 0 {
      hide Apply, Enabled, Inv, ChansInv, BridgeStands;
      RunStep(ss, acts, n - 1);
      if vc in ss[n - 1].vcs {
        BridgeCleansUp(ss, acts, n - 1, vc);
        RunKeepsInv(ss, acts, n - 1);
        InvParts(ss[n - 1]);
        BridgeMoves(ss[n - 1], acts[n - 1], vc);
      } else {
        NewChannel(ss[n - 1], acts[n - 1], vc);
        NewStands(ss[n], vc);
      }
    }
  }

  lemma NewStands(s: Sys, vc: nat)
    requires vc in s.vcs && s.vcs[vc].bridge.Bridging?
    ensures BridgeStands(s, vc)
  {
  }
}
