/** Every interleaving of one connection's read loop, its bridges, and sessions that preempt or
    destroy (internal/api/ws_handler.go). */
module WsMux {
  import opened Common
  import opened WsChannel

  type Sid = string

  // Clean-up of a bridge whose Attach returned: unregister first, then detach.
  datatype Bridge = Bridging | Returned | Unregistered | Cleaned

  /** A logical channel with what happened to it: the frames accepted and read, the close of its
      signal channel, and the reasons sent to the client as event frames. */
  datatype Vc = Vc(
    sid: Sid, ch: Chan, bridge: Bridge,
    pushed: seq<(Sid, Frame)>, read: seq<(Sid, Frame)>, signals: nat, events: seq<Reason>)

  // A caller that won the race to close channel `vc` and has not finished.
  datatype Closer = Closer(vc: nat, signalled: bool)

  datatype Loop =
    | Reading
    | Attaching(sid: Sid)
    | Detaching(vc: nat)
    | Delivering(vc: nat, sid: Sid, frame: Frame)
    | Pushing(vc: nat, sid: Sid, frame: Frame)
    | Ending(left: set<nat>)

  datatype Sys = Sys(chans: map<Sid, nat>, vcs: map<nat, Vc>, closers: map<nat, Closer>, loop: Loop)

  const START := Sys(map[], map[], map[], Reading)

  datatype Action =
    | FrameAttach(sid: Sid, found: bool)
    | Register(vc: nat)
    | FrameDetach(sid: Sid)
    | LoopDetach(k: nat)
    | FrameData(sid: Sid, frame: Frame)
    | CheckOpen
    | Enqueue
    | DropFrame
    | ReadFrame(vc: nat)
    | BridgeReturns(vc: nat)
    | Unregister(vc: nat)
    | BridgeDetach(vc: nat, k: nat)
    | CloseBySession(vc: nat, reason: Reason, k: nat)
    | SignalClose(k: nat)
    | SendEvent(k: nat)
    | ConnectionEnds
    | EndDetach(vc: nat, k: nat)

  predicate Enabled(s: Sys, a: Action) {
    match a
    case FrameAttach(_, _) => s.loop.Reading?
    case Register(vc) => s.loop.Attaching? && vc !in s.vcs
    case FrameDetach(_) => s.loop.Reading?
    case LoopDetach(k) => s.loop.Detaching? && s.loop.vc in s.vcs && k !in s.closers
    case FrameData(_, _) => s.loop.Reading?
    case CheckOpen => s.loop.Delivering? && s.loop.vc in s.vcs
    case Enqueue => s.loop.Pushing? && s.loop.vc in s.vcs && |s.vcs[s.loop.vc].ch.queue| < QUEUE_CAPACITY
    case DropFrame => s.loop.Pushing? && s.loop.vc in s.vcs && s.vcs[s.loop.vc].ch.signalled
    case ReadFrame(vc) => vc in s.vcs && s.vcs[vc].ch.queue != []
    case BridgeReturns(vc) => vc in s.vcs && s.vcs[vc].bridge.Bridging?
    case Unregister(vc) => vc in s.vcs && s.vcs[vc].bridge.Returned?
    case BridgeDetach(vc, k) => vc in s.vcs && s.vcs[vc].bridge.Unregistered? && k !in s.closers
    case CloseBySession(vc, reason, k) => vc in s.vcs && reason != ClientClosed && k !in s.closers
    case SignalClose(k) => k in s.closers && s.closers[k].vc in s.vcs && !s.closers[k].signalled
    case SendEvent(k) => k in s.closers && s.closers[k].vc in s.vcs && s.closers[k].signalled
    case ConnectionEnds => s.loop.Reading?
    case EndDetach(vc, k) => s.loop.Ending? && vc in s.loop.left && vc in s.vcs && k !in s.closers
  }

  function WithVc(s: Sys, vc: nat, v: Vc): Sys {
    s.(vcs := s.vcs[vc := v])
  }

  /** The locked part of a close; the first caller becomes the channel's closer `k`. */
  function TryClose(s: Sys, vc: nat, reason: Reason, k: nat): Sys
    requires vc in s.vcs
  {
    var v := s.vcs[vc];
    if v.ch.err.Some? then s
    else WithVc(s, vc, v.(ch := Close(v.ch, reason))).(closers := s.closers[k := Closer(vc, false)])
  }

  function Apply(s: Sys, a: Action): Sys
    requires Enabled(s, a)
  {
    match a
    case FrameAttach(sid, found) =>
      if sid !in s.chans && found then s.(loop := Attaching(sid)) else s
    case Register(vc) =>
      var sid := s.loop.sid;
      Sys(Registered(s.chans, sid, vc), s.vcs[vc := Vc(sid, OPEN, Bridging, [], [], 0, [])], s.closers, Reading)
    case FrameDetach(sid) =>
      if sid in s.chans then s.(chans := Removed(s.chans, sid), loop := Detaching(s.chans[sid])) else s
    case LoopDetach(k) => TryClose(s, s.loop.vc, ClientClosed, k).(loop := Reading)
    case FrameData(sid, frame) =>
      if sid in s.chans then s.(loop := Delivering(s.chans[sid], sid, frame)) else s
    case CheckOpen =>
      s.(loop := if s.vcs[s.loop.vc].ch.err.Some? then Reading
                 else Pushing(s.loop.vc, s.loop.sid, s.loop.frame))
    case Enqueue =>
      var v := s.vcs[s.loop.vc];
      WithVc(s, s.loop.vc, v.(ch := Enqueued(v.ch, s.loop.frame),
                              pushed := v.pushed + [(s.loop.sid, s.loop.frame)])).(loop := Reading)
    case DropFrame => s.(loop := Reading)
    case ReadFrame(vc) =>
      var v := s.vcs[vc];
      WithVc(s, vc, v.(ch := Dequeued(v.ch), read := v.read + [(v.sid, v.ch.queue[0])]))
    case BridgeReturns(vc) => WithVc(s, vc, s.vcs[vc].(bridge := Returned))
    case Unregister(vc) =>
      var v := s.vcs[vc];
      WithVc(s, vc, v.(bridge := Bridge.Unregistered)).(chans := WsChannel.Unregistered(s.chans, v.sid, vc))
    case BridgeDetach(vc, k) =>
      var s1 := TryClose(s, vc, ClientClosed, k);
      WithVc(s1, vc, s1.vcs[vc].(bridge := Cleaned))
    case CloseBySession(vc, reason, k) => TryClose(s, vc, reason, k)
    case SignalClose(k) =>
      var vc := s.closers[k].vc;
      var v := s.vcs[vc];
      // A plain detach is finished here; a close with a reason still owes its event frame.
      WithVc(s, vc, v.(ch := Signalled(v.ch), signals := v.signals + 1)).(
        closers := if v.ch.err == Some(ClientClosed) then s.closers - {k} else s.closers[k := Closer(vc, true)])
    case SendEvent(k) =>
      var vc := s.closers[k].vc;
      var v := s.vcs[vc];
      WithVc(s, vc, v.(events := v.events + (if v.ch.err.Some? then [v.ch.err.value] else []))).(
        closers := s.closers - {k})
    case ConnectionEnds => s.(chans := map[], loop := Ending(s.chans.Values))
    case EndDetach(vc, k) => TryClose(s, vc, ClientClosed, k).(loop := Ending(s.loop.left - {vc}))
  }

  ghost predicate IsRun(ss: seq<Sys>, acts: seq<Action>) {
    && |ss| == |acts| + 1
    && ss[0] == START
    && forall i :: 0 <= i < |acts| ==> Enabled(ss[i], acts[i]) && ss[i + 1] == Apply(ss[i], acts[i])
  }

  // ---------------------------------------------------------------------------
  // Invariants

  function Tagged(sid: Sid, frames: seq<Frame>): (r: seq<(Sid, Frame)>)
    ensures |r| == |frames| && forall i :: 0 <= i < |r| ==> r[i] == (sid, frames[i])
  {
    seq(|frames|, i requires 0 <= i < |frames| => (sid, frames[i]))
  }

  /** The frames of one channel: what was read and what is queued is what was accepted, in order. */
  predicate FramesInv(v: Vc) {
    v.read + Tagged(v.sid, v.ch.queue) == v.pushed && |v.ch.queue| <= QUEUE_CAPACITY
  }

  /** A channel nobody is closing has either not been closed, or was signalled once and told its
      client the reason, if it had one to tell. */
  predicate Settled(v: Vc) {
    match v.ch.err
    case None => v.signals == 0 && v.events == []
    case Some(r) => v.signals == 1 && v.events == if r == ClientClosed then [] else [r]
  }

  /** A channel being closed: its event is still owed. */
  predicate Closing(v: Vc, c: Closer) {
    && v.ch.err.Some? && v.events == []
    && v.signals == (if c.signalled then 1 else 0)
    && (c.signalled ==> v.ch.err != Some(ClientClosed))
  }

  ghost predicate HasCloser(closers: map<nat, Closer>, vc: nat) {
    exists k :: k in closers && closers[k].vc == vc
  }

  ghost predicate CloserOfEach(s: Sys) {
    && (forall k :: k in s.closers ==> s.closers[k].vc in s.vcs && Closing(s.vcs[s.closers[k].vc], s.closers[k]))
    && (forall k, l :: k in s.closers && l in s.closers && s.closers[k].vc == s.closers[l].vc ==> k == l)
  }

  ghost predicate OthersSettled(s: Sys) {
    && (forall vc :: vc in s.vcs ==> HasCloser(s.closers, vc) || Settled(s.vcs[vc]))
    && (forall vc :: vc in s.vcs ==> (s.vcs[vc].ch.signalled <==> s.vcs[vc].signals > 0))
  }

  ghost predicate ClosersInv(s: Sys) {
    CloserOfEach(s) && OthersSettled(s)
  }

  ghost predicate ChansInv(s: Sys) {
    forall sid :: sid in s.chans ==> s.chans[sid] in s.vcs && s.vcs[s.chans[sid]].sid == sid
  }

  ghost predicate LoopInv(s: Sys) {
    match s.loop
    case Attaching(sid) => sid !in s.chans
    case Detaching(vc) => vc in s.vcs
    case Delivering(vc, sid, _) => vc in s.vcs && s.vcs[vc].sid == sid
    case Pushing(vc, sid, _) => vc in s.vcs && s.vcs[vc].sid == sid
    case Ending(left) => s.chans == map[] && forall vc :: vc in left ==> vc in s.vcs
    case Reading => true
  }

  /** Some step is still bound to close channel `vc`, or it is registered. */
  predicate Accounted(s: Sys, vc: nat)
    requires vc in s.vcs
  {
    var v := s.vcs[vc];
    || (v.sid in s.chans && s.chans[v.sid] == vc)
    || v.bridge.Unregistered?
    || s.loop == Detaching(vc)
    || (s.loop.Ending? && vc in s.loop.left)
  }

  ghost predicate OpenInv(s: Sys) {
    forall vc :: vc in s.vcs && s.vcs[vc].ch.err.None? ==> Accounted(s, vc)
  }

  /** Two states that agree on everything a close touches. */
  ghost predicate SameCloses(s: Sys, s': Sys) {
    && s'.closers == s.closers && s'.vcs.Keys == s.vcs.Keys
    && forall vc :: vc in s.vcs ==>
                      var v, v' := s.vcs[vc], s'.vcs[vc];
                      v'.ch.err == v.ch.err && v'.ch.signalled == v.ch.signalled
                      && v'.signals == v.signals && v'.events == v.events
  }

  lemma SameClosesKeep(s: Sys, s': Sys)
    requires ClosersInv(s) && SameCloses(s, s')
    ensures ClosersInv(s')
  {
  }

  /** Closers of other channels do not depend on closer `k`. */
  lemma OtherClosers(c: map<nat, Closer>, c': map<nat, Closer>, k: nat, x: nat)
    requires forall l :: l in c && l != k ==> l in c' && c'[l] == c[l]
    ensures HasCloser(c, x) && (k in c ==> c[k].vc != x) ==> HasCloser(c', x)
  {
    if HasCloser(c, x) && (k in c ==> c[k].vc != x) {
      var l :| l in c && c[l].vc == x;
      assert c'[l].vc == x;
    }
  }

  /** A channel that is not closed has no closer. */
  lemma OpenHasNoCloser(s: Sys, vc: nat)
    requires ClosersInv(s) && vc in s.vcs && s.vcs[vc].ch.err.None?
    ensures (forall l :: l in s.closers ==> s.closers[l].vc != vc) && Settled(s.vcs[vc])
  {
    assert forall l :: l in s.closers ==> s.closers[l].vc != vc;
  }

  lemma AddCloser(s: Sys, vc: nat, v: Vc, k: nat)
    requires CloserOfEach(s) && k !in s.closers && (forall l :: l in s.closers ==> s.closers[l].vc != vc)
    requires Closing(v, Closer(vc, false))
    ensures CloserOfEach(WithVc(s, vc, v).(closers := s.closers[k := Closer(vc, false)]))
  {
    hide Closing;
  }

  lemma TryCloseOwns(s: Sys, vc: nat, reason: Reason, k: nat)
    requires ClosersInv(s) && vc in s.vcs && k !in s.closers
    ensures CloserOfEach(TryClose(s, vc, reason, k))
  {
    hide CloserOfEach, OthersSettled;
    if s.vcs[vc].ch.err.None? {
      OpenHasNoCloser(s, vc);
      var v := s.vcs[vc];
      AddCloser(s, vc, v.(ch := Close(v.ch, reason)), k);
    }
  }

  lemma TryCloseSettles(s: Sys, vc: nat, reason: Reason, k: nat)
    requires OthersSettled(s) && vc in s.vcs && k !in s.closers
    ensures OthersSettled(TryClose(s, vc, reason, k))
  {
    if s.vcs[vc].ch.err.None? {
      var s' := TryClose(s, vc, reason, k);
      assert s'.closers[k].vc == vc;
      forall x | x in s'.vcs ensures HasCloser(s'.closers, x) || Settled(s'.vcs[x]) {
        OtherClosers(s.closers, s'.closers, k, x);
      }
    }
  }

  lemma TryCloseKeeps(s: Sys, vc: nat, reason: Reason, k: nat)
    requires ClosersInv(s) && vc in s.vcs && k !in s.closers
    ensures ClosersInv(TryClose(s, vc, reason, k))
  {
    hide CloserOfEach, OthersSettled, TryClose;
    TryCloseOwns(s, vc, reason, k);
    TryCloseSettles(s, vc, reason, k);
  }

  lemma SignalOwns(s: Sys, k: nat)
    requires CloserOfEach(s) && Enabled(s, SignalClose(k))
    ensures CloserOfEach(Apply(s, SignalClose(k)))
    ensures s.vcs[s.closers[k].vc].signals == 0
  {
  }

  lemma SignalSettles(s: Sys, k: nat)
    requires ClosersInv(s) && Enabled(s, SignalClose(k))
    ensures OthersSettled(Apply(s, SignalClose(k)))
  {
    var s', vc := Apply(s, SignalClose(k)), s.closers[k].vc;
    assert k in s'.closers ==> HasCloser(s'.closers, vc);
    forall x | x in s'.vcs ensures HasCloser(s'.closers, x) || Settled(s'.vcs[x]) {
      OtherClosers(s.closers, s'.closers, k, x);
    }
  }

  lemma SignalKeeps(s: Sys, k: nat)
    requires ClosersInv(s) && Enabled(s, SignalClose(k))
    ensures ClosersInv(Apply(s, SignalClose(k)))
    ensures s.vcs[s.closers[k].vc].signals == 0
  {
    hide Apply, CloserOfEach, OthersSettled;
    SignalOwns(s, k);
    SignalSettles(s, k);
  }

  lemma SendOwns(s: Sys, k: nat)
    requires CloserOfEach(s) && Enabled(s, SendEvent(k))
    ensures CloserOfEach(Apply(s, SendEvent(k)))
  {
  }

  lemma SendSettles(s: Sys, k: nat)
    requires ClosersInv(s) && Enabled(s, SendEvent(k))
    ensures OthersSettled(Apply(s, SendEvent(k)))
  {
    var s', vc := Apply(s, SendEvent(k)), s.closers[k].vc;
    forall x | x in s'.vcs ensures HasCloser(s'.closers, x) || Settled(s'.vcs[x]) {
      OtherClosers(s.closers, s'.closers, k, x);
    }
  }

  lemma SendKeeps(s: Sys, k: nat)
    requires ClosersInv(s) && Enabled(s, SendEvent(k))
    ensures ClosersInv(Apply(s, SendEvent(k)))
  {
    hide Apply, CloserOfEach, OthersSettled;
    SendOwns(s, k);
    SendSettles(s, k);
  }

  lemma RegisterKeeps(s: Sys, vc: nat)
    requires ClosersInv(s) && Enabled(s, Register(vc))
    ensures ClosersInv(Apply(s, Register(vc)))
  {
  }

  predicate IsClosing(a: Action) {
    a.Register? || a.LoopDetach? || a.BridgeDetach? || a.CloseBySession? || a.EndDetach? || a.SignalClose? || a.SendEvent?
  }

  predicate IsLoopStep(a: Action) {
    a.FrameAttach? || a.FrameDetach? || a.FrameData? || a.CheckOpen? || a.DropFrame? || a.ConnectionEnds?
  }

  lemma LoopStepsSameChannels(s: Sys, a: Action)
    requires Enabled(s, a) && IsLoopStep(a)
    ensures Apply(s, a).vcs == s.vcs && Apply(s, a).closers == s.closers
  {
  }

  /** The channel a step may change. */
  function Touched(s: Sys, a: Action): Option<nat>
    requires Enabled(s, a)
  {
    match a
    case LoopDetach(_) => Some(s.loop.vc)
    case Enqueue => Some(s.loop.vc)
    case ReadFrame(vc) => Some(vc)
    case BridgeReturns(vc) => Some(vc)
    case Unregister(vc) => Some(vc)
    case BridgeDetach(vc, _) => Some(vc)
    case CloseBySession(vc, _, _) => Some(vc)
    case SignalClose(k) => Some(s.closers[k].vc)
    case SendEvent(k) => Some(s.closers[k].vc)
    case EndDetach(vc, _) => Some(vc)
    case _ => None
  }

  /** A registration adds a channel; any other step leaves all channels but one alone. */
  lemma ChannelsUntouched(s: Sys, a: Action)
    requires Enabled(s, a)
    ensures var vcs' := Apply(s, a).vcs;
            if a.Register? then vcs' == s.vcs[a.vc := Vc(s.loop.sid, OPEN, Bridging, [], [], 0, [])]
            else match Touched(s, a)
                 case Some(vc) => vc in s.vcs && vc in vcs' && vcs' == s.vcs[vc := vcs'[vc]]
                 case None => vcs' == s.vcs
  {
  }

  /** What a step may do to the channel it changes. */
  lemma ChannelTouched(s: Sys, a: Action)
    requires Enabled(s, a) && Touched(s, a).Some?
    ensures var vc := Touched(s, a).value;
            vc in s.vcs && vc in Apply(s, a).vcs && ChannelStep(s.vcs[vc], Apply(s, a).vcs[vc], a.Enqueue? || a.ReadFrame?)
  {
  }

  /** It stays the channel of its session, keeps the reason it was closed for, and, unless frames are moved, its
      frames. */
  predicate ChannelStep(v: Vc, v': Vc, moves: bool) {
    && v'.sid == v.sid && (v.ch.err.Some? ==> v'.ch.err == v.ch.err)
    && (!moves ==> v'.ch.queue == v.ch.queue && v'.pushed == v.pushed && v'.read == v.read)
  }

  lemma EveryChannelStep(s: Sys, a: Action, vc: nat)
    requires Enabled(s, a) && vc in s.vcs
    ensures vc in Apply(s, a).vcs && ChannelStep(s.vcs[vc], Apply(s, a).vcs[vc], a.Enqueue? || a.ReadFrame?)
  {
    ChannelsUntouched(s, a);
    if Touched(s, a).Some? {
      ChannelTouched(s, a);
    }
    hide Apply;
    assert a.Register? ==> a.vc !in s.vcs;
  }

  lemma NewChannel(s: Sys, a: Action, vc: nat)
    requires Enabled(s, a) && vc in Apply(s, a).vcs && vc !in s.vcs
    ensures a == Register(vc) && Apply(s, a).vcs[vc] == Vc(s.loop.sid, OPEN, Bridging, [], [], 0, [])
  {
    ChannelsUntouched(s, a);
    hide Apply;
  }

  lemma OtherActionsSameCloses(s: Sys, a: Action)
    requires Enabled(s, a) && !IsClosing(a)
    ensures SameCloses(s, Apply(s, a))
  {
    if IsLoopStep(a) {
      LoopStepsSameChannels(s, a);
    } else {
      assert a.Enqueue? || a.ReadFrame? || a.BridgeReturns? || a.Unregister?;
    }
  }

  lemma ClosingKept(s: Sys, a: Action)
    requires ClosersInv(s) && Enabled(s, a) && (a.LoopDetach? || a.BridgeDetach? || a.CloseBySession? || a.EndDetach?)
    ensures ClosersInv(Apply(s, a))
  {
    hide ClosersInv, TryClose;
    var vc := Touched(s, a).value;
    var reason := if a.CloseBySession? then a.reason else ClientClosed;
    TryCloseKeeps(s, vc, reason, a.k);
    TryCloseChannels(s, vc, reason, a.k);
    SameClosesKeep(TryClose(s, vc, reason, a.k), Apply(s, a));
  }

  lemma ClosersKept(s: Sys, a: Action)
    requires ClosersInv(s) && Enabled(s, a)
    ensures ClosersInv(Apply(s, a))
  {
    hide ClosersInv, Apply, Enabled;
    match a
    case Register(vc) => RegisterKeeps(s, vc);
    case SignalClose(k) => SignalKeeps(s, k);
    case SendEvent(k) => SendKeeps(s, k);
    case _ =>
      if IsClosing(a) {
        ClosingKept(s, a);
      } else {
        OtherActionsSameCloses(s, a);
        SameClosesKeep(s, Apply(s, a));
      }
  }

  lemma TryCloseChannels(s: Sys, vc: nat, reason: Reason, k: nat)
    requires vc in s.vcs
    ensures TryClose(s, vc, reason, k).vcs.Keys == s.vcs.Keys
  {
  }

  ghost predicate AllFramesInv(s: Sys) {
    forall vc :: vc in s.vcs ==> FramesInv(s.vcs[vc])
  }

  lemma EnqueueKeepsFrames(v: Vc, frame: Frame)
    requires FramesInv(v) && |v.ch.queue| < QUEUE_CAPACITY
    ensures FramesInv(v.(ch := v.ch.(queue := v.ch.queue + [frame]), pushed := v.pushed + [(v.sid, frame)]))
  {
    assert Tagged(v.sid, v.ch.queue + [frame]) == Tagged(v.sid, v.ch.queue) + [(v.sid, frame)];
  }

  lemma ReadKeepsFrames(v: Vc)
    requires FramesInv(v) && v.ch.queue != []
    ensures FramesInv(v.(ch := v.ch.(queue := v.ch.queue[1..]), read := v.read + [(v.sid, v.ch.queue[0])]))
  {
    assert Tagged(v.sid, v.ch.queue) == [(v.sid, v.ch.queue[0])] + Tagged(v.sid, v.ch.queue[1..]);
  }

  /** Steps other than a push and a read leave every channel's frames alone. */
  lemma OtherActionsSameFrames(s: Sys, a: Action)
    requires Enabled(s, a) && !a.Enqueue? && !a.ReadFrame?
    ensures forall vc :: vc in Apply(s, a).vcs ==>
              var v' := Apply(s, a).vcs[vc];
              if vc in s.vcs then
                var v := s.vcs[vc];
                v'.sid == v.sid && v'.ch.queue == v.ch.queue && v'.pushed == v.pushed && v'.read == v.read
              else v'.ch.queue == [] && v'.pushed == [] && v'.read == []
  {
    hide Apply, Enabled;
    forall vc | vc in Apply(s, a).vcs
      ensures var v' := Apply(s, a).vcs[vc];
              if vc in s.vcs then
                var v := s.vcs[vc];
                v'.sid == v.sid && v'.ch.queue == v.ch.queue && v'.pushed == v.pushed && v'.read == v.read
              else v'.ch.queue == [] && v'.pushed == [] && v'.read == []
    {
      if vc in s.vcs {
        EveryChannelStep(s, a, vc);
      } else {
        NewChannel(s, a, vc);
      }
    }
  }

  lemma FramesMoved(s: Sys, a: Action)
    requires AllFramesInv(s) && LoopInv(s) && Enabled(s, a) && (a.Enqueue? || a.ReadFrame?)
    ensures var vc := Touched(s, a).value; vc in s.vcs && vc in Apply(s, a).vcs && FramesInv(Apply(s, a).vcs[vc])
  {
    hide FramesInv;
    if a.Enqueue? {
      EnqueueKeepsFrames(s.vcs[s.loop.vc], s.loop.frame);
    } else {
      ReadKeepsFrames(s.vcs[a.vc]);
    }
  }

  lemma FramesKept(s: Sys, a: Action)
    requires AllFramesInv(s) && LoopInv(s) && Enabled(s, a)
    ensures AllFramesInv(Apply(s, a))
  {
    if a.Enqueue? || a.ReadFrame? {
      FramesMoved(s, a);
      ChannelsUntouched(s, a);
      hide Apply, Enabled, LoopInv, FramesInv;
    } else {
      hide Apply, Enabled, LoopInv;
      OtherActionsSameFrames(s, a);
    }
  }

  /** Only a registration adds to the registry. */
  lemma RegistryStep(s: Sys, a: Action, sid: Sid)
    requires Enabled(s, a) && sid in Apply(s, a).chans
    ensures if a.Register? && sid == s.loop.sid then Apply(s, a).chans[sid] == a.vc
            else sid in s.chans && Apply(s, a).chans[sid] == s.chans[sid]
  {
  }

  lemma ChansKept(s: Sys, a: Action)
    requires ChansInv(s) && Enabled(s, a)
    ensures ChansInv(Apply(s, a))
  {
    hide Apply;
    forall sid | sid in Apply(s, a).chans
      ensures Apply(s, a).chans[sid] in Apply(s, a).vcs && Apply(s, a).vcs[Apply(s, a).chans[sid]].sid == sid
    {
      RegistryStep(s, a, sid);
      ChannelsKeepSession(s, a);
      if a.Register? {
        ChannelsUntouched(s, a);
      }
    }
  }

  /** Steps that are not the read loop's own leave it where it is. */
  predicate IsAside(a: Action) {
    a.ReadFrame? || a.BridgeReturns? || a.Unregister? || a.BridgeDetach? || a.CloseBySession? || a.SignalClose? || a.SendEvent?
  }

  lemma LoopStays(s: Sys, a: Action)
    requires Enabled(s, a) && IsAside(a)
    ensures Apply(s, a).loop == s.loop
    ensures s.chans == map[] ==> Apply(s, a).chans == map[]
  {
  }

  lemma LoopMoves(s: Sys, a: Action)
    requires ChansInv(s) && LoopInv(s) && Enabled(s, a) && !IsAside(a)
    ensures LoopInv(Apply(s, a))
  {
    ChannelsKeepSession(s, a);
    if IsLoopStep(a) {
      LoopStepsSameChannels(s, a);
    }
  }

  lemma LoopKept(s: Sys, a: Action)
    requires ChansInv(s) && LoopInv(s) && Enabled(s, a)
    ensures LoopInv(Apply(s, a))
  {
    if IsAside(a) {
      hide Apply, Enabled, ChansInv;
      LoopStays(s, a);
      ChannelsKeepSession(s, a);
      forall sid | sid in Apply(s, a).chans
        ensures sid in s.chans
      {
        RegistryStep(s, a, sid);
      }
    } else {
      LoopMoves(s, a);
    }
  }

  /** Steps that close, or that only move frames, leave an open channel where it was accounted for. */
  lemma AccountedStays(s: Sys, a: Action, vc: nat)
    requires Enabled(s, a) && !IsLoopStep(a) && !a.Register? && !a.Unregister?
    requires vc in s.vcs && Accounted(s, vc)
    requires vc in Apply(s, a).vcs && Apply(s, a).vcs[vc].ch.err.None?
    ensures Accounted(Apply(s, a), vc)
  {
  }

  lemma LoopAccounts(s: Sys, a: Action, vc: nat)
    requires ChansInv(s) && Enabled(s, a) && IsLoopStep(a)
    requires vc in s.vcs && Accounted(s, vc)
    ensures Accounted(Apply(s, a), vc)
  {
  }

  lemma RegistryAccounts(s: Sys, a: Action, vc: nat)
    requires ChansInv(s) && LoopInv(s) && Enabled(s, a) && (a.Register? || a.Unregister?)
    requires vc in s.vcs ==> Accounted(s, vc)
    requires vc in Apply(s, a).vcs
    ensures Accounted(Apply(s, a), vc)
  {
  }

  lemma OpenKept(s: Sys, a: Action)
    requires ChansInv(s) && LoopInv(s) && OpenInv(s) && Enabled(s, a)
    ensures OpenInv(Apply(s, a))
  {
    ChannelsOpened(s, a);
    forall vc | vc in Apply(s, a).vcs && Apply(s, a).vcs[vc].ch.err.None? ensures Accounted(Apply(s, a), vc) {
      hide Apply, Accounted, Enabled;
      if IsLoopStep(a) {
        LoopAccounts(s, a, vc);
      } else if a.Register? || a.Unregister? {
        RegistryAccounts(s, a, vc);
      } else {
        AccountedStays(s, a, vc);
      }
    }
  }

  /** An open channel was open before, unless it is the one being registered. */
  lemma ChannelsOpened(s: Sys, a: Action)
    requires Enabled(s, a)
    ensures forall vc :: vc in Apply(s, a).vcs && Apply(s, a).vcs[vc].ch.err.None? ==>
              if vc in s.vcs then s.vcs[vc].ch.err.None? else a == Register(vc)
  {
    hide Apply, Enabled;
    forall vc | vc in Apply(s, a).vcs && Apply(s, a).vcs[vc].ch.err.None?
      ensures if vc in s.vcs then s.vcs[vc].ch.err.None? else a == Register(vc)
    {
      if vc in s.vcs {
        EveryChannelStep(s, a, vc);
      } else {
        NewChannel(s, a, vc);
      }
    }
  }

  /** A channel stays the channel of its session. */
  lemma ChannelsKeepSession(s: Sys, a: Action)
    requires Enabled(s, a)
    ensures forall vc :: vc in s.vcs ==> vc in Apply(s, a).vcs && Apply(s, a).vcs[vc].sid == s.vcs[vc].sid
  {
    hide Apply, Enabled;
    forall vc | vc in s.vcs
      ensures vc in Apply(s, a).vcs && Apply(s, a).vcs[vc].sid == s.vcs[vc].sid
    {
      EveryChannelStep(s, a, vc);
    }
  }

  ghost predicate Inv(s: Sys) {
    ClosersInv(s) && ChansInv(s) && LoopInv(s) && OpenInv(s) && AllFramesInv(s)
  }

  lemma StepKeepsInv(s: Sys, a: Action)
    requires Inv(s) && Enabled(s, a)
    ensures Inv(Apply(s, a))
  {
    hide Apply, ClosersInv, ChansInv, LoopInv, OpenInv, AllFramesInv;
    ClosersKept(s, a);
    ChansKept(s, a);
    LoopKept(s, a);
    OpenKept(s, a);
    FramesKept(s, a);
  }

  lemma {:induction false} RunKeepsInv(ss: seq<Sys>, acts: seq<Action>, i: nat)
    requires IsRun(ss, acts) && i < |ss|
    ensures Inv(ss[i])
  {
    if i > 0 {
      hide Apply;
      RunKeepsInv(ss, acts, i - 1);
      StepKeepsInv(ss[i - 1], acts[i - 1]);
    }
  }

  // ---------------------------------------------------------------------------
  // Over runs

  /** No channel is closed twice: whoever signals a close finds it not signalled, so the second close
      that would panic never happens. */
  lemma SignalledOnce(ss: seq<Sys>, acts: seq<Action>, i: nat, k: nat)
    requires IsRun(ss, acts) && i < |acts| && acts[i] == SignalClose(k)
    ensures !ss[i].vcs[ss[i].closers[k].vc].ch.signalled
  {
    hide Apply;
    RunKeepsInv(ss, acts, i);
  }

  lemma RunStep(ss: seq<Sys>, acts: seq<Action>, i: nat)
    requires IsRun(ss, acts) && i < |acts|
    ensures Enabled(ss[i], acts[i]) && ss[i + 1] == Apply(ss[i], acts[i])
  {
  }

  lemma StepKeepsReason(s: Sys, a: Action, vc: nat)
    requires Enabled(s, a) && vc in s.vcs && s.vcs[vc].ch.err.Some?
    ensures vc in Apply(s, a).vcs && Apply(s, a).vcs[vc].ch.err == s.vcs[vc].ch.err
  {
    hide Apply, Enabled;
    EveryChannelStep(s, a, vc);
  }

  /** The first reason a channel is closed for stays its reason. */
  lemma {:induction false} FirstReasonStays(ss: seq<Sys>, acts: seq<Action>, i: nat, j: nat, vc: nat)
    requires IsRun(ss, acts) && i <= j < |ss| && vc in ss[i].vcs && ss[i].vcs[vc].ch.err.Some?
    ensures vc in ss[j].vcs && ss[j].vcs[vc].ch.err == ss[i].vcs[vc].ch.err
    decreases j
  {
    hide Apply, Enabled;
    if i < j {
      var k := j - 1;
      RunStep(ss, acts, k);
      FirstReasonStays(ss, acts, i, k, vc);
      StepKeepsReason(ss[k], acts[k], vc);
      assert ss[k + 1] == ss[j];
    }
  }

  /** At most one event frame is ever sent for a channel, it carries the reason the channel was first
      closed for, and a plain detach sends none. Once no caller is still closing the channel, a closed
      one was signalled exactly once and its client was told the reason. */
  lemma EventsFollowTheReason(ss: seq<Sys>, acts: seq<Action>, i: nat, vc: nat)
    requires IsRun(ss, acts) && i < |ss| && vc in ss[i].vcs
    ensures var v := ss[i].vcs[vc];
            && v.signals <= 1 && |v.events| <= 1
            && (v.events != [] ==> v.ch.err == Some(v.events[0]) && v.events[0] != ClientClosed)
            && (HasCloser(ss[i].closers, vc) || Settled(v))
  {
    hide Apply;
    RunKeepsInv(ss, acts, i);
    if HasCloser(ss[i].closers, vc) {
      var k :| k in ss[i].closers && ss[i].closers[k].vc == vc;
      assert Closing(ss[i].vcs[vc], ss[i].closers[k]);
    } else {
      assert Settled(ss[i].vcs[vc]);
    }
  }

  /** What a bridge reads is, in order, the beginning of what was accepted for its own session. */
  lemma ReadsAreInOrder(ss: seq<Sys>, acts: seq<Action>, i: nat, vc: nat)
    requires IsRun(ss, acts) && i < |ss| && vc in ss[i].vcs
    ensures var v := ss[i].vcs[vc];
            && v.read <= v.pushed && |v.pushed| <= |v.read| + 64
            && (ss[i].loop.Pushing? && ss[i].loop.vc == vc ==> ss[i].loop.sid == v.sid)
  {
    hide Apply;
    RunKeepsInv(ss, acts, i);
  }

  /** Registering never replaces a registered channel. */
  lemma RegisterFindsNone(ss: seq<Sys>, acts: seq<Action>, i: nat)
    requires IsRun(ss, acts) && i < |acts| && acts[i].Register?
    ensures ss[i].loop.sid !in ss[i].chans
  {
    hide Apply;
    RunKeepsInv(ss, acts, i);
  }

  /** A bridge's clean-up takes its own channel out of the registry and no other. */
  lemma CleanupSparesNewer(ss: seq<Sys>, acts: seq<Action>, i: nat, vc: nat)
    requires IsRun(ss, acts) && i < |acts| && acts[i] == Action.Unregister(vc)
    ensures vc !in ss[i + 1].chans.Values
    ensures forall sid :: sid in ss[i].chans && ss[i].chans[sid] != vc ==>
              sid in ss[i + 1].chans && ss[i + 1].chans[sid] == ss[i].chans[sid]
  {
    RunKeepsInv(ss, acts, i);
  }

  /** Once the connection has ended and its loop has detached what was registered, a channel still open
      is one whose bridge is about to detach it. */
  lemma NoChannelLeaks(ss: seq<Sys>, acts: seq<Action>, i: nat, vc: nat)
    requires IsRun(ss, acts) && i < |ss| && ss[i].loop == Ending({})
    requires vc in ss[i].vcs
    ensures ss[i].vcs[vc].ch.err.Some? || ss[i].vcs[vc].bridge.Unregistered?
  {
    hide Apply;
    RunKeepsInv(ss, acts, i);
    assert ss[i].vcs[vc].ch.err.None? ==> Accounted(ss[i], vc);
  }
}
