/** What the session registry does for its callers in every run (internal/session/manager.go): who is started, who is
    swept out, how titles live on, and who counts as alive. */
module ManagerService {
  import opened Common
  import opened SessionManager
  import opened ManagerRuns

  // ---------------------------------------------------------------------------
  // Creating

  /** A living session is registered under the id. */
  predicate Lives(s: Sys, id: string) {
    id != "" && id in s.reg.sessions && s.reg.sessions[id] !in s.exited
  }

  /** What a create call comes to. The living session is returned; otherwise the call fails if the registry is
      full, if there is neither a record to go by nor a command, or if no terminal could be started, in that
      order; and otherwise a session is started. */
  lemma CreateOutcome(s: Sys, maxSession: int, q: Request)
    requires Enabled(s, DoCreate(q))
    ensures var r, s' := CreateResult(s.reg, maxSession, s.exited, q), Apply(s, maxSession, DoCreate(q));
            var full := maxSession > 0 && |s.reg.sessions| >= maxSession;
            var noCommand := q.command == "" && (q.id == "" || q.id !in s.reg.store);
            && (Lives(s, q.id) ==> r == Ok(Created(s.reg.sessions[q.id], false)))
            && (!Lives(s, q.id) && full ==> r == Err(TooManySessions))
            && (!Lives(s, q.id) && !full && noCommand ==> r == Err(NoCommand))
            && (!Lives(s, q.id) && !full && !noCommand && !q.started ==> r == Err(TerminalFailed))
            && (!Lives(s, q.id) && !full && !noCommand && q.started ==> r == Ok(Created(q.ref, true)))
            && (r != Ok(Created(q.ref, true)) ==> s' == s)
  {
  }

  /** What starting a session does: it is registered under the id asked for, or the generated one, with all
      others as they were, and its record is a new one, or the old one with one more run. */
  lemma CreateStarts(s: Sys, maxSession: int, q: Request)
    requires Enabled(s, DoCreate(q)) && CreateResult(s.reg, maxSession, s.exited, q) == Ok(Created(q.ref, true))
    requires !Lives(s, q.id)
    ensures var s', id := Apply(s, maxSession, DoCreate(q)), if q.id == "" then q.generated else q.id;
            && s'.reg.sessions == s.reg.sessions[id := q.ref]
            && id in s'.reg.store && s'.reg.store == s.reg.store[id := s'.reg.store[id]]
            && (if id in s.reg.store
                then var m := s.reg.store[id];
                     s'.reg.store[id] == Metadata(m.command, m.args, m.title, m.createdAt, m.runCount + 1)
                else s'.reg.store[id] == Metadata(q.command, q.args, "", q.now, 0))
  {
  }

  // ---------------------------------------------------------------------------
  // Leaving the registry

  /** A sweep keeps a session registered if and only if it is neither exited nor destroyed nor timed out; what it
      removes is exited or destroyed afterwards; and it destroys just the timed-out sessions that were alive. */
  lemma SweepKeepsTheLiving(s: Sys, maxSession: int, timedOut: set<Ref>)
    ensures var s' := Apply(s, maxSession, DoSweep(timedOut));
            && (forall id :: id in s'.reg.sessions <==>
                  id in s.reg.sessions && s.reg.sessions[id] !in s.exited && s.reg.sessions[id] !in s.destroyed
                  && s.reg.sessions[id] !in timedOut)
            && (forall id :: id in s'.reg.sessions ==> s'.reg.sessions[id] == s.reg.sessions[id])
            && (forall id :: id in s.reg.sessions && id !in s'.reg.sessions ==>
                  s.reg.sessions[id] in s'.exited || s.reg.sessions[id] in s'.destroyed)
            && (forall ref :: ref in s'.destroyed <==>
                  ref in s.destroyed || (ref in s.reg.sessions.Values && ref !in s.exited && ref in timedOut))
            && s'.reg.store == s.reg.store && s'.exited == s.exited
  {
    var s' := Apply(s, maxSession, DoSweep(timedOut));
    forall ref
      ensures ref in s'.destroyed <==>
              ref in s.destroyed || (ref in s.reg.sessions.Values && ref !in s.exited && ref in timedOut)
    {
      if ref in s.reg.sessions.Values && ref !in s.exited && ref in timedOut && ref !in s.destroyed {
        var id :| id in s.reg.sessions && s.reg.sessions[id] == ref;
        assert id in s.reg.sessions && !Gone(s.reg.sessions[id], s.exited, s.destroyed) && s.reg.sessions[id] in timedOut;
      }
    }
  }

  /** Step `a` takes `id` out: a sweep that finds its session gone or timed out, or a destroy call that was made
      for the id and comes to its end. */
  predicate TakesOut(s: Sys, a: Action, id: string) {
    match a
    case DoSweep(timedOut) =>
      id in s.reg.sessions
      && (s.reg.sessions[id] in s.exited || s.reg.sessions[id] in s.destroyed || s.reg.sessions[id] in timedOut)
    case DoDestroyForget(k) => k in s.destroyers && s.destroyers[k].killed && s.destroyers[k].id == id
    case _ => false
  }

  lemma StepTakesOut(s: Sys, maxSession: int, a: Action, id: string)
    requires Enabled(s, a) && id in s.reg.sessions
    ensures id !in Apply(s, maxSession, a).reg.sessions <==> TakesOut(s, a, id)
  {
    if a.DoSweep? {
      SweepKeepsTheLiving(s, maxSession, a.timedOut);
    }
  }

  /** An id stays registered, from one moment of a run to another, unless a step in between takes it out. */
  lemma {:induction false} LeavesOnlyWhenTakenOut(maxSession: int, ss: seq<Sys>, acts: seq<Action>, i: nat, j: nat, id: string)
    requires IsRun(maxSession, ss, acts) && i <= j < |ss| && id in ss[i].reg.sessions && id !in ss[j].reg.sessions
    ensures exists k :: i <= k < j && TakesOut(ss[k], acts[k], id)
    decreases j
  {
    hide Apply, Enabled, TakesOut;
    if id in ss[j - 1].reg.sessions {
      StepTakesOut(ss[j - 1], maxSession, acts[j - 1], id);
    } else {
      LeavesOnlyWhenTakenOut(maxSession, ss, acts, i, j - 1, id);
    }
  }

  /** A destroy call destroys the session that it found under the id. */
  lemma DestroyKills(s: Sys, maxSession: int, k: nat, ok: bool)
    requires Enabled(s, DoDestroyKill(k, ok))
    ensures var s' := Apply(s, maxSession, DoDestroyKill(k, ok));
            s.destroyers[k].ref in s'.destroyed && s'.reg == s.reg && (k in s'.destroyers <==> ok)
  {
  }

  // ---------------------------------------------------------------------------
  // Titles

  /** The title of a recorded id after a run's steps from `i` to `j`. */
  lemma {:induction false} TitleStays(maxSession: int, ss: seq<Sys>, acts: seq<Action>, i: nat, j: nat, id: string)
    requires IsRun(maxSession, ss, acts) && i <= j < |ss| && id in ss[i].reg.store
    requires forall k :: i <= k < j && acts[k].DoTitle? ==> acts[k].id != id
    ensures id in ss[j].reg.store && ss[j].reg.store[id].title == ss[i].reg.store[id].title
    decreases j
  {
    hide Apply, Enabled;
    if i < j {
      TitleStays(maxSession, ss, acts, i, j - 1, id);
      StepTitle(ss[j - 1], maxSession, acts[j - 1], id);
    }
  }

  lemma StepTitle(s: Sys, maxSession: int, a: Action, id: string)
    requires Enabled(s, a) && id in s.reg.store
    ensures id in Apply(s, maxSession, a).reg.store
    ensures Apply(s, maxSession, a).reg.store[id].title
            == if a.DoTitle? && a.id == id then a.title else s.reg.store[id].title
  {
  }

  /** A title given to a recorded id is its title from then on, through sweeps, destruction and resurrection,
      until another is given. */
  lemma TitleLivesOn(maxSession: int, ss: seq<Sys>, acts: seq<Action>, i: nat, j: nat, id: string, title: string)
    requires IsRun(maxSession, ss, acts) && i < j < |ss| && acts[i] == DoTitle(id, title) && id in ss[i].reg.store
    requires forall k :: i < k < j && acts[k].DoTitle? ==> acts[k].id != id
    ensures id in ss[j].reg.store && ss[j].reg.store[id].title == title
  {
    hide Apply, Enabled;
    StepTitle(ss[i], maxSession, acts[i], id);
    TitleStays(maxSession, ss, acts, i + 1, j, id);
  }

  /** Giving a title changes that title only, and none if there is no record. */
  lemma TitleChangesNothingElse(r: Registry, id: string, title: string)
    ensures var r' := AfterTitle(r, id, title);
            && r'.sessions == r.sessions && r'.store.Keys == r.store.Keys
            && (id !in r.store ==> r' == r)
            && forall x :: x in r.store ==>
                 r'.store[x] == if x == id then Metadata(r.store[x].command, r.store[x].args, title, r.store[x].createdAt, r.store[x].runCount)
                                else r.store[x]
  {
  }

  // ---------------------------------------------------------------------------
  // Status

  predicate IsAlive(r: Registry, id: string, exited: set<Ref>, destroyed: set<Ref>) {
    id in r.sessions && r.sessions[id] !in exited && r.sessions[id] !in destroyed
  }

  /** The status of a list is that of its parts, one after the other, and that of one id is its session, if that is
      registered, not exited and not destroyed. */
  lemma {:induction false} StatusInOrder(r: Registry, a: seq<string>, b: seq<string>, exited: set<Ref>, destroyed: set<Ref>)
    ensures AliveAmong(r, a + b, exited, destroyed) == AliveAmong(r, a, exited, destroyed) + AliveAmong(r, b, exited, destroyed)
    decreases |b|
  {
    if b == [] {
      assert a + b == a;
    } else {
      var n := |b| - 1;
      assert (a + b)[..|a + b| - 1] == a + b[..n];
      StatusInOrder(r, a, b[..n], exited, destroyed);
    }
  }

  lemma StatusOfOne(r: Registry, id: string, exited: set<Ref>, destroyed: set<Ref>)
    ensures AliveAmong(r, [], exited, destroyed) == []
    ensures AliveAmong(r, [id], exited, destroyed) == if IsAlive(r, id, exited, destroyed) then [r.sessions[id]] else []
  {
    assert [id][..0] == [];
  }
}
