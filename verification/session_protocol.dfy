/** Every interleaving of attaches, one output pump and destroy on one session. The steps are the
    locked regions of SessionCore; the scheduler, the output and the clients are free. */
module SessionProtocol {
  import opened Common
  import opened SessionCore
  import opened Replay

  // A chunk the pump handed to a client: `start` is its offset in the output history.
  datatype Delivery = Delivery(to: Conn, start: nat, chunk: seq<byte>)

  datatype Phase = Published | Bridging | Done(outcome: Outcome)

  /** One Attach call. The last three fields record, for the proofs only, the output position and the
      length of the delivery log when the call became the pump's target and when it took its snapshot. */
  datatype Attach = Attach(
    epoch: nat, conn: Conn, phase: Phase, from: nat, logStart: nat, replayed: Option<(nat, nat)>)

  datatype Pump = Resting | Appended(start: nat, chunk: seq<byte>) | Delivering(next: Option<Delivery>)

  datatype Sys = Sys(
    core: Core, attaches: map<nat, Attach>, pump: Pump, history: seq<byte>,
    addressed: seq<Delivery>, written: seq<Delivery>, failed: nat)

  datatype Action =
    | DoPublish(t: nat, conn: Conn)
    | DoSnapshot(t: nat)
    | DoFinish(t: nat, reason: nat)
    | DoDestroy
    | DoAppend(chunk: seq<byte>)
    | DoTarget
    | DoDeliver(ok: bool)

  const START := Sys(FRESH, map[], Resting, [], [], [], 0)

  /** How much of the output has been offered to whoever is attached. */
  function Offered(s: Sys): nat {
    if s.pump.Appended? then s.pump.start else s.core.total
  }

  predicate Enabled(s: Sys, a: Action) {
    match a
    case DoPublish(t, _) => t !in s.attaches && !s.core.state.Destroyed?
    // The snapshot needs the output lock, which the pump holds while it looks up its target.
    case DoSnapshot(t) => t in s.attaches && s.attaches[t].phase.Published? && !s.pump.Appended?
    case DoFinish(t, _) => t in s.attaches && s.attaches[t].phase.Bridging?
    case DoDestroy => !s.core.state.Destroyed?
    case DoAppend(chunk) => s.pump.Resting? && chunk != []
    case DoTarget => s.pump.Appended?
    case DoDeliver(_) => s.pump.Delivering?
  }

  function Apply(s: Sys, a: Action): Sys
    requires Enabled(s, a)
  {
    match a
    case DoPublish(t, conn) =>
      var core := Publish(s.core, conn);
      s.(core := core,
         attaches := s.attaches[t := Attach(core.epoch, conn, Published, Offered(s), |s.addressed|, None)])
    case DoSnapshot(t) =>
      s.(core := MarkReplay(s.core),
         attaches := s.attaches[t := s.attaches[t].(phase := Bridging,
                                                    replayed := Some((s.core.total, |s.addressed|)))])
    case DoFinish(t, reason) =>
      var at := s.attaches[t];
      s.(core := Release(s.core, at.epoch, at.conn),
         attaches := s.attaches[t := at.(phase := Done(ReleaseOutcome(s.core, at.epoch, reason)))])
    case DoDestroy => s.(core := Kill(s.core))
    case DoAppend(chunk) =>
      s.(core := SessionCore.Append(s.core, chunk), history := s.history + chunk,
         pump := Appended(s.core.total, chunk))
    case DoTarget =>
      (match LiveTarget(s.core, s.pump.start)
       case Some(conn) =>
         var d := Delivery(conn, s.pump.start, s.pump.chunk);
         s.(pump := Delivering(Some(d)), addressed := s.addressed + [d])
       case None => s.(pump := Delivering(None)))
    case DoDeliver(ok) =>
      (match s.pump.next
       case Some(d) =>
         if ok then s.(pump := Resting, written := s.written + [d])
         else s.(pump := Resting, failed := s.failed + 1)
       case None => s.(pump := Resting))
  }

  /** A run: every state is the start or follows from the one before it. */
  ghost predicate IsRun(ss: seq<Sys>, acts: seq<Action>) {
    && |ss| == |acts| + 1
    && ss[0] == START
    && forall i :: 0 <= i < |acts| ==> Enabled(ss[i], acts[i]) && ss[i + 1] == Apply(ss[i], acts[i])
  }

  // ---------------------------------------------------------------------------
  // The invariant

  /** `log` carries exactly `history[from..to]` to `conn`, chunk after chunk. */
  predicate Carries(log: seq<Delivery>, conn: Conn, from: nat, to: nat, history: seq<byte>) {
    if log == [] then from == to <= |history|
    else
      var d := log[|log| - 1];
      && d.to == conn && d.chunk != []
      && from <= d.start && d.start + |d.chunk| == to <= |history|
      && d.chunk == history[d.start..to]
      && Carries(log[..|log| - 1], conn, from, d.start, history)
  }

  /** Attach call `t` is the one the session belongs to. */
  predicate Owns(s: Sys, t: nat) {
    t in s.attaches && s.core.state.Running? && s.attaches[t].epoch == s.core.epoch
  }

  ghost predicate OutputInv(s: Sys) {
    && s.core.total == |s.history|
    && s.core.replaySeq <= Offered(s)
    && s.core.out == Tail(s.history, OUTPUT_RING_CAPACITY)
    && (s.pump.Appended? ==>
          && s.pump.chunk != []
          && s.pump.start + |s.pump.chunk| == s.core.total
          && s.pump.chunk == s.history[s.pump.start..])
  }

  ghost predicate EpochInv(s: Sys) {
    && (forall t :: t in s.attaches ==> 1 <= s.attaches[t].epoch <= s.core.epoch)
    && (forall t, u :: t in s.attaches && u in s.attaches && s.attaches[t].epoch == s.attaches[u].epoch ==> t == u)
  }

  ghost predicate OwnerInv(s: Sys) {
    match s.core.state
    case Running => exists t :: Owns(s, t) && s.core.conn == Some(s.attaches[t].conn) && !s.attaches[t].phase.Done?
    case Idle => s.core.conn == None && forall t :: t in s.attaches && s.attaches[t].epoch == s.core.epoch ==> s.attaches[t].phase.Done?
    case Destroyed => s.core.conn == None && forall t :: t in s.attaches ==> s.attaches[t].epoch < s.core.epoch
  }

  /** What the deliveries logged since the owner's publish and snapshot carry. */
  ghost predicate LogInv(log: seq<Delivery>, offered: nat, h: seq<byte>, a: Attach) {
    && a.logStart <= |log| && a.from <= offered <= |h|
    && (a.phase.Bridging? <==> a.replayed.Some?)
    && match a.replayed
       case None => Carries(log[a.logStart..], a.conn, a.from, offered, h)
       case Some((hi, k)) =>
         && a.logStart <= k <= |log| && a.from <= hi <= offered
         && Carries(log[a.logStart..k], a.conn, a.from, hi, h)
         && Carries(log[k..], a.conn, hi, offered, h)
  }

  ghost predicate WriteInv(s: Sys) {
    s.failed == 0 ==>
      s.addressed == s.written + match s.pump case Delivering(Some(d)) => [d] case _ => []
  }

  ghost predicate Inv(s: Sys) {
    && OutputInv(s) && EpochInv(s) && OwnerInv(s) && WriteInv(s)
    && forall t :: Owns(s, t) ==> LogInv(s.addressed, Offered(s), s.history, s.attaches[t])
  }

  lemma {:induction false} CarriesGrows(log: seq<Delivery>, conn: Conn, from: nat, to: nat, h: seq<byte>, more: seq<byte>)
    requires Carries(log, conn, from, to, h)
    ensures Carries(log, conn, from, to, h + more)
  {
    if log != [] {
      var d := log[|log| - 1];
      CarriesGrows(log[..|log| - 1], conn, from, d.start, h, more);
      assert (h + more)[d.start..to] == h[d.start..to];
    }
  }

  lemma {:induction false} CarriesBounds(log: seq<Delivery>, conn: Conn, from: nat, to: nat, h: seq<byte>)
    requires Carries(log, conn, from, to, h)
    ensures from <= to <= |h|
    ensures forall i :: 0 <= i < |log| ==> log[i].to == conn && from <= log[i].start < to
  {
    if log != [] {
      CarriesBounds(log[..|log| - 1], conn, from, log[|log| - 1].start, h);
    }
  }

  lemma CarriesNext(log: seq<Delivery>, d: Delivery, conn: Conn, from: nat, h: seq<byte>)
    requires Carries(log, conn, from, d.start, h)
    requires d.to == conn && d.chunk != [] && d.start + |d.chunk| <= |h| && d.chunk == h[d.start..d.start + |d.chunk|]
    ensures Carries(log + [d], conn, from, d.start + |d.chunk|, h)
  {
    CarriesBounds(log, conn, from, d.start, h);
    assert (log + [d])[..|log|] == log;
  }

  function Payloads(log: seq<Delivery>): (ps: seq<seq<byte>>)
    ensures |ps| == |log| && forall i :: 0 <= i < |log| ==> ps[i] == log[i].chunk
  {
    seq(|log|, i requires 0 <= i < |log| => log[i].chunk)
  }

  lemma {:induction false} CarriesPayload(log: seq<Delivery>, conn: Conn, from: nat, to: nat, h: seq<byte>)
    requires Carries(log, conn, from, to, h)
    ensures from <= to <= |h| && Concat(Payloads(log)) == h[from..to]
  {
    CarriesBounds(log, conn, from, to, h);
    if log != [] {
      var k := |log| - 1;
      CarriesPayload(log[..k], conn, from, log[k].start, h);
      assert Payloads(log)[..k] == Payloads(log[..k]);
      assert h[from..to] == h[from..log[k].start] + h[log[k].start..to];
    }
  }

  // ---------------------------------------------------------------------------
  // Every step keeps the invariant

  lemma OutputPreserved(s: Sys, a: Action)
    requires Inv(s) && Enabled(s, a)
    ensures OutputInv(Apply(s, a)) && WriteInv(Apply(s, a))
  {
    if a.DoAppend? {
      TailOfTail(s.history, a.chunk, OUTPUT_RING_CAPACITY);
      assert (s.history + a.chunk)[s.core.total..] == a.chunk;
    }
  }

  lemma PublishKeepsEpochs(s: Sys, t: nat, c: Conn)
    requires EpochInv(s) && Enabled(s, DoPublish(t, c))
    ensures EpochInv(Apply(s, DoPublish(t, c)))
  {
  }

  /** Steps other than a publish keep the tokens of the attaches, and the session's never falls. */
  lemma SameEpochs(s: Sys, a: Action)
    requires Enabled(s, a) && !a.DoPublish?
    ensures var s' := Apply(s, a);
            && s'.attaches.Keys == s.attaches.Keys && s.core.epoch <= s'.core.epoch
            && forall t :: t in s.attaches ==> s'.attaches[t].epoch == s.attaches[t].epoch && s'.attaches[t].conn == s.attaches[t].conn
  {
  }

  lemma EpochsPreserved(s: Sys, a: Action)
    requires EpochInv(s) && Enabled(s, a)
    ensures EpochInv(Apply(s, a))
  {
    if a.DoPublish? {
      PublishKeepsEpochs(s, a.t, a.conn);
    } else {
      hide Apply, Enabled;
      SameEpochs(s, a);
    }
  }

  lemma PublishKeepsOwner(s: Sys, t: nat, c: Conn)
    requires Enabled(s, DoPublish(t, c))
    ensures OwnerInv(Apply(s, DoPublish(t, c)))
  {
    assert Owns(Apply(s, DoPublish(t, c)), t);
  }

  lemma FinishKeepsOwner(s: Sys, t: nat, reason: nat)
    requires EpochInv(s) && OwnerInv(s) && Enabled(s, DoFinish(t, reason))
    ensures OwnerInv(Apply(s, DoFinish(t, reason)))
  {
    if s.core.state.Running? {
      var u :| Owns(s, u) && s.core.conn == Some(s.attaches[u].conn) && !s.attaches[u].phase.Done?;
      assert s.attaches[t].epoch != s.core.epoch ==> Owns(Apply(s, DoFinish(t, reason)), u);
    }
  }

  lemma DestroyKeepsOwner(s: Sys)
    requires EpochInv(s) && Enabled(s, DoDestroy)
    ensures OwnerInv(Apply(s, DoDestroy))
  {
  }

  lemma SameOwner(s: Sys, a: Action)
    requires Enabled(s, a) && !a.DoPublish? && !a.DoFinish? && !a.DoDestroy?
    ensures var c, c' := s.core, Apply(s, a).core;
            c'.state == c.state && c'.conn == c.conn && c'.epoch == c.epoch
    ensures forall t :: t in s.attaches ==>
              t in Apply(s, a).attaches && (Apply(s, a).attaches[t].phase.Done? <==> s.attaches[t].phase.Done?)
  {
  }

  lemma OwnerPreserved(s: Sys, a: Action)
    requires EpochInv(s) && OwnerInv(s) && Enabled(s, a)
    ensures OwnerInv(Apply(s, a))
  {
    hide Apply, EpochInv;
    match a
    case DoPublish(t, c) => PublishKeepsOwner(s, t, c);
    case DoFinish(t, reason) => FinishKeepsOwner(s, t, reason);
    case DoDestroy => DestroyKeepsOwner(s);
    case _ =>
      SameEpochs(s, a);
      SameOwner(s, a);
      if s.core.state.Running? {
        var u :| Owns(s, u) && s.core.conn == Some(s.attaches[u].conn) && !s.attaches[u].phase.Done?;
        assert Owns(Apply(s, a), u);
      }
  }

  /** The owner is unique, still in progress, and its connection is the stored one. */
  lemma OwnerIsStored(s: Sys, t: nat)
    requires EpochInv(s) && OwnerInv(s) && Owns(s, t)
    ensures s.core.conn == Some(s.attaches[t].conn) && !s.attaches[t].phase.Done?
    ensures forall u :: Owns(s, u) ==> u == t
  {
  }

  lemma OwnerStays(s: Sys, a: Action, t: nat)
    requires Inv(s) && Enabled(s, a) && Owns(Apply(s, a), t)
    requires !(a.DoPublish? && a.t == t)
    ensures Owns(s, t)
    ensures var before, after := s.attaches[t], Apply(s, a).attaches[t];
            if a == DoSnapshot(t)
            then after == before.(phase := Bridging, replayed := Some((s.core.total, |s.addressed|)))
            else after == before
  {
    if a.DoFinish? {
      OwnerIsStored(s, t);
    }
  }

  lemma LogGrows(log: seq<Delivery>, offered: nat, h: seq<byte>, at: Attach, more: seq<byte>)
    requires LogInv(log, offered, h, at)
    ensures LogInv(log, offered, h + more, at)
  {
    match at.replayed
    case None => CarriesGrows(log[at.logStart..], at.conn, at.from, offered, h, more);
    case Some((hi, k)) =>
      CarriesGrows(log[at.logStart..k], at.conn, at.from, hi, h, more);
      CarriesGrows(log[k..], at.conn, hi, offered, h, more);
  }

  lemma LogExtends(log: seq<Delivery>, h: seq<byte>, at: Attach, d: Delivery)
    requires LogInv(log, d.start, h, at)
    requires d.to == at.conn && d.chunk != [] && d.start + |d.chunk| <= |h| && d.chunk == h[d.start..d.start + |d.chunk|]
    ensures LogInv(log + [d], d.start + |d.chunk|, h, at)
  {
    match at.replayed
    case None =>
      CarriesNext(log[at.logStart..], d, at.conn, at.from, h);
      assert (log + [d])[at.logStart..] == log[at.logStart..] + [d];
    case Some((hi, k)) =>
      CarriesNext(log[k..], d, at.conn, hi, h);
      assert (log + [d])[k..] == log[k..] + [d];
      assert (log + [d])[at.logStart..k] == log[at.logStart..k];
  }

  lemma LogSnapshots(log: seq<Delivery>, offered: nat, h: seq<byte>, at: Attach)
    requires LogInv(log, offered, h, at) && at.replayed.None?
    ensures LogInv(log, offered, h, at.(phase := Bridging, replayed := Some((offered, |log|))))
  {
    assert log[at.logStart..|log|] == log[at.logStart..];
    assert log[|log|..] == [];
  }

  lemma TargetLogs(s: Sys, t: nat)
    requires Inv(s) && s.pump.Appended? && Owns(s, t)
    ensures var s', at := Apply(s, DoTarget), s.attaches[t];
            LogInv(s'.addressed, Offered(s'), s'.history, at)
  {
    OwnerIsStored(s, t);
    var at := s.attaches[t];
    var d := Delivery(at.conn, s.pump.start, s.pump.chunk);
    assert s.history[d.start..] == s.history[d.start..d.start + |d.chunk|];
    LogExtends(s.addressed, s.history, at, d);
  }

  lemma LogPreserved(s: Sys, a: Action, t: nat)
    requires Inv(s) && Enabled(s, a) && Owns(Apply(s, a), t)
    ensures var s' := Apply(s, a);
            LogInv(s'.addressed, Offered(s'), s'.history, s'.attaches[t])
  {
    if a.DoPublish? && a.t == t {
      assert s.addressed[|s.addressed|..] == [];
      return;
    }
    OwnerStays(s, a, t);
    var at := s.attaches[t];
    match a
    case DoSnapshot(u) =>
      if u == t {
        LogSnapshots(s.addressed, Offered(s), s.history, at);
      }
    case DoAppend(chunk) => LogGrows(s.addressed, Offered(s), s.history, at, chunk);
    case DoTarget => TargetLogs(s, t);
    case _ =>
  }

  lemma StepKeepsInv(s: Sys, a: Action)
    requires Inv(s) && Enabled(s, a)
    ensures Inv(Apply(s, a))
  {
    OutputPreserved(s, a);
    EpochsPreserved(s, a);
    OwnerPreserved(s, a);
    forall t | Owns(Apply(s, a), t) 
      ensures var s' := Apply(s, a); LogInv(s'.addressed, Offered(s'), s'.history, s'.attaches[t])
    {
      LogPreserved(s, a, t);
    }
  }

  lemma {:induction false} RunKeepsInv(ss: seq<Sys>, acts: seq<Action>, i: nat)
    requires IsRun(ss, acts) && i < |ss|
    ensures Inv(ss[i])
  {
    if i > 0 {
      RunKeepsInv(ss, acts, i - 1);
      StepKeepsInv(ss[i - 1], acts[i - 1]);
    }
  }

  // ---------------------------------------------------------------------------
  // Output coverage

  /** The replay boundary never passes the output position, so the pump's guard holds for every
      chunk: it withholds nothing from whoever is attached. */
  lemma GuardNeverFilters(ss: seq<Sys>, acts: seq<Action>, i: nat)
    requires IsRun(ss, acts) && i < |ss|
    ensures ss[i].core.replaySeq <= ss[i].core.total
    ensures ss[i].pump.Appended? ==> LiveTarget(ss[i].core, ss[i].pump.start) == ss[i].core.conn
  {
    RunKeepsInv(ss, acts, i);
  }

  lemma {:induction false} PublishedOnce(ss: seq<Sys>, acts: seq<Action>, p: nat, i: nat, t: nat)
    requires IsRun(ss, acts) && p < i < |ss| && acts[p].DoPublish? && acts[p].t == t
    ensures t in ss[i].attaches
  {
    if p + 1 < i {
      PublishedOnce(ss, acts, p, i - 1, t);
    }
  }

  lemma OwnedBefore(ss: seq<Sys>, acts: seq<Action>, p: nat, n: nat, t: nat)
    requires IsRun(ss, acts) && p < n < |ss| - 1 && acts[p].DoPublish? && acts[p].t == t && Owns(ss[n + 1], t)
    ensures Owns(ss[n], t)
    ensures var before, after := ss[n].attaches[t], ss[n + 1].attaches[t];
            if acts[n] == DoSnapshot(t)
            then after == before.(phase := Bridging, replayed := Some((|ss[n].history|, |ss[n].addressed|)))
            else after == before
  {
    RunKeepsInv(ss, acts, n);
    PublishedOnce(ss, acts, p, n, t);
    OwnerStays(ss[n], acts[n], t);
  }

  /** Where an owner's live delivery began: at its publish. */
  lemma {:induction false} OwnerOrigin(ss: seq<Sys>, acts: seq<Action>, p: nat, n: nat, t: nat, c: Conn)
    requires IsRun(ss, acts) && p < n < |ss| && acts[p] == DoPublish(t, c) && Owns(ss[n], t)
    ensures var at := ss[n].attaches[t];
            at.conn == c && at.from == Offered(ss[p]) && at.logStart == |ss[p].addressed|
  {
    if p + 1 < n {
      OwnedBefore(ss, acts, p, n - 1, t);
      OwnerOrigin(ss, acts, p, n - 1, t, c);
    }
  }

  /** Where its replay ended: at its snapshot. */
  lemma {:induction false} OwnerReplay(ss: seq<Sys>, acts: seq<Action>, p: nat, q: nat, n: nat, t: nat)
    requires IsRun(ss, acts) && p < q < n < |ss| && acts[p].DoPublish? && acts[p].t == t && acts[q] == DoSnapshot(t)
    requires Owns(ss[n], t)
    ensures ss[n].attaches[t].replayed == Some((|ss[q].history|, |ss[q].addressed|))
    decreases n
  {
    hide Apply;
    OwnedBefore(ss, acts, p, n - 1, t);
    if q + 1 < n {
      OwnerReplay(ss, acts, p, q, n - 1, t);
      assert ss[n - 1].attaches[t].replayed.Some?;
      RunKeepsInv(ss, acts, n - 1);
    }
  }

  /** The log only grows along a run. */
  lemma {:induction false} LogPrefix(ss: seq<Sys>, acts: seq<Action>, i: nat, j: nat)
    requires IsRun(ss, acts) && i <= j < |ss|
    ensures ss[i].addressed <= ss[j].addressed
    ensures ss[i].history <= ss[j].history
    decreases j
  {
    if i < j {
      LogPrefix(ss, acts, i, j - 1);
    }
  }

  lemma OwnerLogCarries(ss: seq<Sys>, acts: seq<Action>, p: nat, q: nat, n: nat, t: nat, c: Conn)
    requires IsRun(ss, acts) && p < q < n < |ss|
    requires acts[p] == DoPublish(t, c) && acts[q] == DoSnapshot(t) && Owns(ss[n], t)
    ensures var log, h := ss[n].addressed, ss[n].history;
            var (k0, k1, hi) := (|ss[p].addressed|, |ss[q].addressed|, |ss[q].history|);
            && k0 <= k1 <= |log| && hi <= |h| && h[..hi] == ss[q].history
            && Carries(log[k0..k1], c, Offered(ss[p]), hi, h)
            && Carries(log[k1..], c, hi, Offered(ss[n]), h)
  {
    RunKeepsInv(ss, acts, n);
    OwnerOrigin(ss, acts, p, n, t, c);
    OwnerReplay(ss, acts, p, q, n, t);
    LogPrefix(ss, acts, q, n);
  }

  /** A client was shown `replay`, the output up to `hi`, and everything in `log[k0..]`: the replay and
      what follows in `log[k1..]` make one contiguous piece of the output up to `offered`, and the
      entries before `k1` repeat exactly the output between `from` and `hi`. */
  predicate Covered(log: seq<Delivery>, k0: nat, k1: nat, c: Conn, replay: seq<byte>,
                    from: nat, hi: nat, offered: nat, h: seq<byte>) {
    && k0 <= k1 <= |log| && |replay| <= hi <= offered <= |h| && from <= hi
    && replay + Concat(Payloads(log[k1..])) == h[hi - |replay|..offered]
    && Concat(Payloads(log[k0..k1])) == h[from..hi]
    && forall i :: k0 <= i < |log| ==> log[i].to == c && (log[i].start < hi <==> i < k1)
  }

  lemma AddressedWithin(log: seq<Delivery>, i: nat, j: nat, c: Conn, from: nat, to: nat, h: seq<byte>)
    requires i <= j <= |log| && Carries(log[i..j], c, from, to, h)
    ensures forall k :: i <= k < j ==> log[k].to == c && from <= log[k].start < to
  {
    CarriesBounds(log[i..j], c, from, to, h);
    forall k | i <= k < j ensures log[k].to == c && from <= log[k].start < to {
      assert log[k] == log[i..j][k - i];
    }
  }

  lemma CarriedIsCovered(log: seq<Delivery>, k0: nat, k1: nat, c: Conn, replay: seq<byte>,
                         from: nat, hi: nat, offered: nat, h: seq<byte>)
    requires k0 <= k1 <= |log| && |replay| <= hi <= |h| && replay == h[hi - |replay|..hi]
    requires Carries(log[k0..k1], c, from, hi, h) && Carries(log[k1..], c, hi, offered, h)
    ensures Covered(log, k0, k1, c, replay, from, hi, offered, h)
  {
    assert log[k1..] == log[k1..|log|];
    AddressedWithin(log, k0, k1, c, from, hi, h);
    AddressedWithin(log, k1, |log|, c, hi, offered, h);
    CarriesPayload(log[k0..k1], c, from, hi, h);
    CarriesPayload(log[k1..], c, hi, offered, h);
    var lo := hi - |replay|;
    assert h[lo..offered] == h[lo..hi] + h[hi..offered];
  }

  /** Coverage: attach `t` published at step `p`, took its snapshot at step `q` and still owns the session
      in state `n`. Its replay followed by what the pump addressed to it after the snapshot is one
      contiguous piece of the output, up to everything offered so far. Everything addressed since the
      publish went to it alone, and a byte reaches it both ways only if its chunk was
      addressed between the publish and the snapshot. */
  lemma OwnerSeesContiguousOutput(ss: seq<Sys>, acts: seq<Action>, p: nat, q: nat, n: nat, t: nat, c: Conn)
    requires IsRun(ss, acts) && p < q < n < |ss|
    requires acts[p] == DoPublish(t, c) && acts[q] == DoSnapshot(t) && Owns(ss[n], t)
    ensures Covered(ss[n].addressed, |ss[p].addressed|, |ss[q].addressed|, c, ReplayTail(ss[q].core.out),
                    Offered(ss[p]), |ss[q].history|, Offered(ss[n]), ss[n].history)
  {
    OwnerLogCarries(ss, acts, p, q, n, t, c);
    RunKeepsInv(ss, acts, q);
    var out, hi, h := ss[q].core.out, |ss[q].history|, ss[n].history;
    var replay := ReplayTail(out);
    ReplayIsHistory(ss[q].history, out);
    assert h[hi - |replay|..hi] == h[..hi][hi - |replay|..];
    CarriedIsCovered(ss[n].addressed, |ss[p].addressed|, |ss[q].addressed|, c, replay,
                     Offered(ss[p]), hi, Offered(ss[n]), h);
  }

  /** Some chunk of `log` from entry `k` on holds byte `x` of the output. */
  predicate Holds(log: seq<Delivery>, k: nat, x: nat) {
    exists i :: k <= i < |log| && log[i].start <= x < log[i].start + |log[i].chunk|
  }

  lemma {:induction false} CarriesHolds(log: seq<Delivery>, conn: Conn, from: nat, to: nat, h: seq<byte>, x: nat)
    requires Carries(log, conn, from, to, h)
    ensures Holds(log, 0, x) <==> from <= x < to
    decreases |log|
  {
    if log != [] {
      var n := |log| - 1;
      CarriesBounds(log, conn, from, to, h);
      CarriesHolds(log[..n], conn, from, log[n].start, h, x);
      if Holds(log[..n], 0, x) {
        var i :| 0 <= i < n && log[..n][i].start <= x < log[..n][i].start + |log[..n][i].chunk|;
        assert log[i].start <= x < log[i].start + |log[i].chunk|;
      }
      if from <= x < to && log[n].start <= x {
        assert log[n].start <= x < log[n].start + |log[n].chunk|;
      }
      if Holds(log, 0, x) {
        var i :| 0 <= i < |log| && log[i].start <= x < log[i].start + |log[i].chunk|;
        assert i < n ==> log[..n][i] == log[i];
      }
    }
  }

  lemma HoldsSplit(log: seq<Delivery>, k0: nat, k1: nat, x: nat)
    requires k0 <= k1 <= |log|
    ensures Holds(log, k0, x) <==> Holds(log[k0..k1], 0, x) || Holds(log[k1..], 0, x)
  {
    if Holds(log, k0, x) {
      var i :| k0 <= i < |log| && log[i].start <= x < log[i].start + |log[i].chunk|;
      assert if i < k1 then log[k0..k1][i - k0] == log[i] else log[k1..][i - k1] == log[i];
    }
    if Holds(log[k0..k1], 0, x) {
      var i :| 0 <= i < k1 - k0 && log[k0..k1][i].start <= x < log[k0..k1][i].start + |log[k0..k1][i].chunk|;
      assert log[k0 + i] == log[k0..k1][i];
    }
    if Holds(log[k1..], 0, x) {
      var i :| 0 <= i < |log| - k1 && log[k1..][i].start <= x < log[k1..][i].start + |log[k1..][i].chunk|;
      assert log[k1 + i] == log[k1..][i];
    }
  }

  /** Every step back from an owned state to its publish. */
  lemma {:induction false} OwnedSince(ss: seq<Sys>, acts: seq<Action>, p: nat, k: nat, n: nat, t: nat)
    requires IsRun(ss, acts) && p < k <= n < |ss| && acts[p].DoPublish? && acts[p].t == t && Owns(ss[n], t)
    ensures Owns(ss[k], t)
    decreases n
  {
    if k < n {
      OwnedBefore(ss, acts, p, n - 1, t);
      OwnedSince(ss, acts, p, k, n - 1, t);
    }
  }

  /** While attach `t` owns the session every chunk finds it, and nothing else is addressed. */
  lemma {:induction false} AddressedByTargets(ss: seq<Sys>, acts: seq<Action>, p: nat, n: nat, t: nat)
    requires IsRun(ss, acts) && p < n < |ss| && acts[p].DoPublish? && acts[p].t == t && Owns(ss[n], t)
    ensures |ss[n].addressed| == |ss[p].addressed| <==> forall k :: p < k < n ==> !acts[k].DoTarget?
    ensures |ss[p].addressed| <= |ss[n].addressed|
    decreases n
  {
    if p + 1 < n {
      var k := n - 1;
      OwnedSince(ss, acts, p, k, n, t);
      AddressedByTargets(ss, acts, p, k, t);
      RunKeepsInv(ss, acts, k);
      OwnerIsStored(ss[k], t);
    }
  }

  /** Exactly which bytes a client gets both in its replay and live: those of the replay from what had been
      offered when it published. There are such bytes only if some chunk found its target between the
      publish and the snapshot. */
  lemma SeenTwiceIff(ss: seq<Sys>, acts: seq<Action>, p: nat, q: nat, n: nat, t: nat, c: Conn, x: nat)
    requires IsRun(ss, acts) && p < q < n < |ss|
    requires acts[p] == DoPublish(t, c) && acts[q] == DoSnapshot(t) && Owns(ss[n], t)
    ensures var (from, hi) := (Offered(ss[p]), |ss[q].history|);
            var lo := hi - |ReplayTail(ss[q].core.out)|;
            && (lo <= x < hi && Holds(ss[n].addressed, |ss[p].addressed|, x) <==> Max(lo, from) <= x < hi)
            && (from == hi <==> |ss[p].addressed| == |ss[q].addressed|)
            && (from == hi <==> forall k :: p < k < q ==> !acts[k].DoTarget?)
  {
    hide ReplayTail, Apply, Enabled;
    var (k0, k1) := (|ss[p].addressed|, |ss[q].addressed|);
    var (from, hi, log, h) := (Offered(ss[p]), |ss[q].history|, ss[n].addressed, ss[n].history);
    OwnerLogCarries(ss, acts, p, q, n, t, c);
    CarriesBounds(log[k0..k1], c, from, hi, h);
    CarriesBounds(log[k1..], c, hi, Offered(ss[n]), h);
    CarriesHolds(log[k0..k1], c, from, hi, h, x);
    CarriesHolds(log[k1..], c, hi, Offered(ss[n]), h, x);
    HoldsSplit(log, k0, k1, x);
    OwnedSince(ss, acts, p, q, n, t);
    AddressedByTargets(ss, acts, p, q, t);
    NothingCarried(log[k0..k1], c, from, hi, h);
  }

  lemma NothingCarried(log: seq<Delivery>, conn: Conn, from: nat, to: nat, h: seq<byte>)
    requires Carries(log, conn, from, to, h)
    ensures log == [] <==> from == to
  {
    CarriesBounds(log, conn, from, to, h);
  }

  /** It happens: the whole replay of this client has already been delivered to it live. */
  lemma ReplayRepeatsDelivered() returns (ss: seq<Sys>, acts: seq<Action>)
    ensures IsRun(ss, acts) && |acts| == 5
    ensures acts[0] == DoPublish(0, 7) && acts[4] == DoSnapshot(0) && Owns(ss[5], 0)
    ensures ReplayTail(ss[4].core.out) == [0x61] && ss[4].written == [Delivery(7, 0, [0x61])]
  {
    acts := [DoPublish(0, 7), DoAppend([0x61]), DoTarget, DoDeliver(true), DoSnapshot(0)];
    var d := Delivery(7, 0, [0x61]);
    var at := Attach(1, 7, Published, 0, 0, None);
    var s1 := START.(core := Core(Running, Some(7), 1, 0, 0, []), attaches := map[0 := at]);
    assert s1 == Apply(START, acts[0]);
    var s2 := s1.(core := Core(Running, Some(7), 1, 1, 0, [0x61]), history := [0x61], pump := Appended(0, [0x61]));
    assert s2 == Apply(s1, acts[1]);
    var s3 := s2.(pump := Delivering(Some(d)), addressed := [d]);
    assert s3 == Apply(s2, acts[2]);
    var s4 := s3.(pump := Resting, written := [d]);
    assert s4 == Apply(s3, acts[3]);
    ss := [START, s1, s2, s3, s4, Apply(s4, acts[4])];
  }

  /** A replay is the end of the output so far. */
  lemma ReplayIsHistory(h: seq<byte>, out: seq<byte>)
    requires out == Tail(h, OUTPUT_RING_CAPACITY)
    ensures |ReplayTail(out)| <= |h| && ReplayTail(out) == h[|h| - |ReplayTail(out)|..]
  {
    ReplayTailIsSafeSuffix(out);
  }

  /** Addressed chunks reach the client in order, all but the one the pump may still hold,
      as long as no write failed. */
  lemma WritesFollowAddresses(ss: seq<Sys>, acts: seq<Action>, n: nat)
    requires IsRun(ss, acts) && n < |ss| && ss[n].failed == 0
    ensures ss[n].written <= ss[n].addressed && |ss[n].addressed| <= |ss[n].written| + 1
    ensures ss[n].pump.Delivering? || ss[n].written == ss[n].addressed
  {
    RunKeepsInv(ss, acts, n);
  }

  // ---------------------------------------------------------------------------
  // Ownership over runs

  /** At every point: a session is Running exactly while it stores a connection, and then one attach
      in progress owns it and that connection is its own. */
  lemma RunningIffConnected(ss: seq<Sys>, acts: seq<Action>, i: nat)
    requires IsRun(ss, acts) && i < |ss|
    ensures ss[i].core.state.Running? <==> ss[i].core.conn.Some?
    ensures ss[i].core.state.Running? ==>
              exists t :: Owns(ss[i], t) && ss[i].core.conn == Some(ss[i].attaches[t].conn) && !ss[i].attaches[t].phase.Done?
    ensures forall t, u :: Owns(ss[i], t) && Owns(ss[i], u) ==> t == u
  {
    RunKeepsInv(ss, acts, i);
  }

  /** Destroyed is absorbing and the ownership token never goes back. */
  lemma {:induction false} LifecycleMonotone(ss: seq<Sys>, acts: seq<Action>, i: nat, j: nat)
    requires IsRun(ss, acts) && i <= j < |ss|
    ensures ss[i].core.epoch <= ss[j].core.epoch
    ensures ss[i].core.state.Destroyed? ==> ss[j].core.state.Destroyed? && ss[j].core.epoch == ss[i].core.epoch
    ensures !ss[j].core.state.Destroyed? ==>
              (ss[i].core.epoch == ss[j].core.epoch <==> forall k :: i <= k < j ==> !acts[k].DoPublish?)
    decreases j
  {
    if i < j {
      LifecycleMonotone(ss, acts, i, j - 1);
    }
  }

  lemma {:induction false} EpochOf(ss: seq<Sys>, acts: seq<Action>, p: nat, i: nat, t: nat)
    requires IsRun(ss, acts) && p < i < |ss| && acts[p].DoPublish? && acts[p].t == t
    ensures t in ss[i].attaches && ss[i].attaches[t].epoch == ss[p + 1].core.epoch
  {
    if p + 1 < i {
      EpochOf(ss, acts, p, i - 1, t);
    }
  }

  /** An attach that ends reports preemption exactly when another attach published after it, unless
      the session was already destroyed. */
  lemma SupersededIsPreempted(ss: seq<Sys>, acts: seq<Action>, p: nat, i: nat, t: nat, c: Conn, reason: nat)
    requires IsRun(ss, acts) && p < i < |acts|
    requires acts[p] == DoPublish(t, c) && acts[i] == DoFinish(t, reason)
    ensures ss[i + 1].attaches[t].phase == Done(
              if !ss[i].core.state.Destroyed? && exists k :: p < k < i && acts[k].DoPublish?
              then Preempted else Bridged(reason))
  {
    EpochOf(ss, acts, p, i, t);
    LifecycleMonotone(ss, acts, p + 1, i);
  }

  lemma {:induction false} EndedByFinish(ss: seq<Sys>, acts: seq<Action>, p: nat, n: nat, t: nat)
    requires IsRun(ss, acts) && p < n < |ss| && acts[p].DoPublish? && acts[p].t == t
    ensures t in ss[n].attaches
    ensures ss[n].attaches[t].phase.Done? <==> exists k :: p < k < n && acts[k].DoFinish? && acts[k].t == t
    decreases n
  {
    if p + 1 < n {
      EndedByFinish(ss, acts, p, n - 1, t);
    }
  }

  /** From one publish to the next, and until the session is destroyed, it is Idle exactly once the attach that
      published has ended: no other step, and no earlier attach that ends late, takes it back to Idle. */
  lemma OnlyOwnerReturnsToIdle(ss: seq<Sys>, acts: seq<Action>, p: nat, n: nat, t: nat, c: Conn)
    requires IsRun(ss, acts) && p < n < |ss| && acts[p] == DoPublish(t, c)
    requires forall k :: p < k < n ==> !acts[k].DoPublish?
    ensures ss[n].core.state.Idle?
            <==> !ss[n].core.state.Destroyed? && exists k :: p < k < n && acts[k].DoFinish? && acts[k].t == t
  {
    hide Apply, Enabled;
    EpochOf(ss, acts, p, n, t);
    LifecycleMonotone(ss, acts, p + 1, n);
    RunKeepsInv(ss, acts, n);
    EndedByFinish(ss, acts, p, n, t);
    if ss[n].core.state.Running? {
      OwnerIsStored(ss[n], t);
    }
  }

  /** Publishing makes the newcomer the session's owner, and nobody else. */
  lemma PublishTakesOver(ss: seq<Sys>, acts: seq<Action>, i: nat, t: nat, c: Conn)
    requires IsRun(ss, acts) && i < |acts| && acts[i] == DoPublish(t, c)
    ensures var s' := ss[i + 1];
            && s'.core.state.Running? && s'.core.conn == Some(c) && s'.core.epoch == ss[i].core.epoch + 1
            && Owns(s', t) && forall u :: Owns(s', u) ==> u == t
  {
    RunKeepsInv(ss, acts, i + 1);
  }

  /** A session is destroyed if and only if some step destroyed it, and then nobody owns it or is connected. */
  lemma {:induction false} DestroyedIff(ss: seq<Sys>, acts: seq<Action>, n: nat)
    requires IsRun(ss, acts) && n < |ss|
    ensures ss[n].core.state.Destroyed? <==> exists k :: 0 <= k < n && acts[k].DoDestroy?
    ensures ss[n].core.state.Destroyed? ==> ss[n].core.conn == None && forall t :: !Owns(ss[n], t)
    decreases n
  {
    RunKeepsInv(ss, acts, n);
    if n > 0 {
      DestroyedIff(ss, acts, n - 1);
      DestroyStep(ss[n - 1], acts[n - 1]);
      hide Apply, Enabled;
      assert ss[n] == Apply(ss[n - 1], acts[n - 1]);
    }
  }

  lemma DestroyStep(s: Sys, a: Action)
    requires Enabled(s, a)
    ensures Apply(s, a).core.state.Destroyed? <==> s.core.state.Destroyed? || a.DoDestroy?
  {
  }

  /** The output is what the pump read, the ring holds its last 4 MiB, and a snapshot sets the boundary to where
      the output stands. */
  lemma OutputIsWhatWasRead(s: Sys, a: Action)
    requires Enabled(s, a)
    ensures Apply(s, a).history == s.history + if a.DoAppend? then a.chunk else []
    ensures a.DoSnapshot? ==> Apply(s, a).core.replaySeq == s.core.total
    ensures a.DoAppend? ==> Apply(s, a).core.out == Tail(s.core.out + a.chunk, 0x40_0000)
    ensures a.DoAppend? ==> Apply(s, a).core.total == s.core.total + |a.chunk|
  {
    assert s.history + [] == s.history;
  }
}
