/** Every interleaving of registry operations, with Destroy split at its two locked regions. */
module ManagerRuns {
  import opened Common
  import opened SessionManager

  // A Destroy call between its regions: it looked up `ref` under `id`.
  datatype Destroyer = Destroyer(id: string, ref: Ref, killed: bool)

  // runs[ref] is what the session was started with; creations counts the sessions started per id.
  datatype Sys = Sys(
    reg: Registry, exited: set<Ref>, destroyed: set<Ref>, destroyers: map<nat, Destroyer>,
    runs: map<Ref, (string, seq<string>)>, creations: map<string, nat>)

  const START := Sys(EMPTY, {}, {}, map[], map[], map[])

  datatype Action =
    | DoCreate(q: Request)
    | DoExit(ref: Ref)
    | DoDestroyFind(k: nat, id: string)
    | DoDestroyKill(k: nat, ok: bool)
    | DoDestroyForget(k: nat)
    | DoSweep(timedOut: set<Ref>)
    | DoTitle(id: string, title: string)

  /** New sessions have new identities and generated ids have not been used; nothing else is asked. */
  predicate Enabled(s: Sys, a: Action) {
    match a
    case DoCreate(q) =>
      && q.ref !in s.runs
      && (q.id == "" ==> q.generated !in s.reg.store && q.generated !in s.reg.sessions)
    case DoDestroyFind(k, id) => k !in s.destroyers && id in s.reg.sessions
    case DoDestroyKill(k, _) => k in s.destroyers && !s.destroyers[k].killed
    case DoDestroyForget(k) => k in s.destroyers && s.destroyers[k].killed
    case _ => true
  }

  predicate Starts(s: Sys, maxSession: int, q: Request) {
    var res := CreateResult(s.reg, maxSession, s.exited, q);
    res.Ok? && res.value.isNew
  }

  function Count(m: map<string, nat>, id: string): nat {
    if id in m then m[id] else 0
  }

  function Apply(s: Sys, maxSession: int, a: Action): Sys
    requires Enabled(s, a)
  {
    match a
    case DoCreate(q) =>
      if !Starts(s, maxSession, q) then s
      else
        var id, meta := IdOf(q), NewRecord(s.reg, q);
        s.(reg := AfterCreate(s.reg, maxSession, s.exited, q),
           runs := s.runs[q.ref := (meta.command, meta.args)],
           creations := s.creations[id := Count(s.creations, id) + 1])
    case DoExit(ref) => s.(exited := s.exited + {ref})
    case DoDestroyFind(k, id) => s.(destroyers := s.destroyers[k := Destroyer(id, s.reg.sessions[id], false)])
    case DoDestroyKill(k, ok) =>
      // When the terminal cannot be closed the call returns the error and forgets nothing.
      s.(destroyed := s.destroyed + {s.destroyers[k].ref},
         destroyers := if ok then s.destroyers[k := s.destroyers[k].(killed := true)] else s.destroyers - {k})
    case DoDestroyForget(k) =>
      s.(reg := Forgotten(s.reg, s.destroyers[k].id), destroyers := s.destroyers - {k})
    case DoSweep(timedOut) =>
      s.(reg := AfterSweep(s.reg, s.exited, s.destroyed, timedOut),
         destroyed := s.destroyed + SweepKills(s.reg, s.exited, s.destroyed, timedOut))
    case DoTitle(id, title) => s.(reg := AfterTitle(s.reg, id, title))
  }

  ghost predicate IsRun(maxSession: int, ss: seq<Sys>, acts: seq<Action>) {
    && |ss| == |acts| + 1
    && ss[0] == START
    && forall i :: 0 <= i < |acts| ==> Enabled(ss[i], acts[i]) && ss[i + 1] == Apply(ss[i], maxSession, acts[i])
  }

  /** A record exists for every id a session was started under, and counts the later starts. */
  ghost predicate RecordsInv(s: Sys) {
    && (forall id :: id in s.reg.store <==> Count(s.creations, id) > 0)
    && (forall id :: id in s.reg.store ==> s.reg.store[id].runCount == s.creations[id] - 1)
  }

  /** A registered session runs what its record says. */
  ghost predicate RunsInv(s: Sys) {
    forall id :: id in s.reg.sessions ==>
      && id in s.reg.store && s.reg.sessions[id] in s.runs
      && s.runs[s.reg.sessions[id]] == (s.reg.store[id].command, s.reg.store[id].args)
  }

  ghost predicate Inv(s: Sys, maxSession: int) {
    && (maxSession > 0 ==> |s.reg.sessions| <= maxSession)
    && RecordsInv(s) && RunsInv(s)
  }

  lemma SmallerMap<K, V>(m: map<K, V>, ks: set<K>)
    ensures |m - ks| <= |m|
  {
    assert (m - ks).Keys <= m.Keys;
    SubsetCard((m - ks).Keys, m.Keys);
  }

  lemma CreateKeepsLimit(r: Registry, maxSession: int, exited: set<Ref>, q: Request)
    requires |r.sessions| <= maxSession && maxSession > 0
    ensures |AfterCreate(r, maxSession, exited, q).sessions| <= maxSession
  {
    hide NewRecord;
  }

  lemma LimitKept(s: Sys, maxSession: int, a: Action)
    requires Enabled(s, a) && |s.reg.sessions| <= maxSession && maxSession > 0
    ensures |Apply(s, maxSession, a).reg.sessions| <= maxSession
  {
    hide AfterCreate, Swept, SweepKills, NewRecord;
    match a
    case DoCreate(q) => CreateKeepsLimit(s.reg, maxSession, s.exited, q);
    case DoDestroyForget(k) => SmallerMap(s.reg.sessions, {s.destroyers[k].id});
    case DoSweep(timedOut) => SmallerMap(s.reg.sessions, Swept(s.reg, s.exited, s.destroyed, timedOut));
    case _ =>
  }

  lemma CreateKeepsRecords(s: Sys, maxSession: int, q: Request)
    requires RecordsInv(s) && Enabled(s, DoCreate(q))
    ensures RecordsInv(Apply(s, maxSession, DoCreate(q)))
  {
    hide CreateResult;
  }

  lemma RecordsKept(s: Sys, maxSession: int, a: Action)
    requires RecordsInv(s) && Enabled(s, a)
    ensures RecordsInv(Apply(s, maxSession, a))
  {
    hide AfterCreate, CreateResult, Swept, SweepKills;
    if a.DoCreate? {
      CreateKeepsRecords(s, maxSession, a.q);
    }
  }

  lemma RunsKept(s: Sys, maxSession: int, a: Action)
    requires RunsInv(s) && Enabled(s, a)
    ensures RunsInv(Apply(s, maxSession, a))
  {
  }

  lemma StepKeepsInv(s: Sys, maxSession: int, a: Action)
    requires Inv(s, maxSession) && Enabled(s, a)
    ensures Inv(Apply(s, maxSession, a), maxSession)
  {
    hide Apply, RecordsInv, RunsInv;
    if maxSession > 0 {
      LimitKept(s, maxSession, a);
    }
    RecordsKept(s, maxSession, a);
    RunsKept(s, maxSession, a);
  }

  lemma {:induction false} RunKeepsInv(maxSession: int, ss: seq<Sys>, acts: seq<Action>, i: nat)
    requires IsRun(maxSession, ss, acts) && i < |ss|
    ensures Inv(ss[i], maxSession)
  {
    hide Apply;
    if i > 0 {
      RunKeepsInv(maxSession, ss, acts, i - 1);
      StepKeepsInv(ss[i - 1], maxSession, acts[i - 1]);
    }
  }

  /** A positive limit is never exceeded, every record's run count is the number of its later starts, and
      a registered session runs what its record says, resurrected or not. */
  lemma RegistryIsConsistent(maxSession: int, ss: seq<Sys>, acts: seq<Action>, i: nat)
    requires IsRun(maxSession, ss, acts) && i < |ss|
    ensures maxSession > 0 ==> |ss[i].reg.sessions| <= maxSession
    ensures forall id :: id in ss[i].reg.store ==> ss[i].reg.store[id].runCount + 1 == Count(ss[i].creations, id)
    ensures forall id :: id in ss[i].reg.sessions ==>
              id in ss[i].reg.store && ss[i].reg.sessions[id] in ss[i].runs
              && ss[i].runs[ss[i].reg.sessions[id]] == (ss[i].reg.store[id].command, ss[i].reg.store[id].args)
  {
    RunKeepsInv(maxSession, ss, acts, i);
  }

  predicate SameRecord(m: Metadata, m': Metadata) {
    m'.command == m.command && m'.args == m.args && m'.createdAt == m.createdAt && m.runCount <= m'.runCount
  }

  lemma StepKeepsRecords(s: Sys, maxSession: int, a: Action, id: string)
    requires Enabled(s, a) && id in s.reg.store
    ensures id in Apply(s, maxSession, a).reg.store
    ensures SameRecord(s.reg.store[id], Apply(s, maxSession, a).reg.store[id])
  {
  }

  /** What a record says was started, and when, never changes; no record is ever lost. */
  lemma {:induction false} RecordsNeverChange(maxSession: int, ss: seq<Sys>, acts: seq<Action>, i: nat, j: nat, id: string)
    requires IsRun(maxSession, ss, acts) && i <= j < |ss| && id in ss[i].reg.store
    ensures id in ss[j].reg.store && SameRecord(ss[i].reg.store[id], ss[j].reg.store[id])
    decreases j
  {
    hide Apply, Enabled;
    if i < j {
      RecordsNeverChange(maxSession, ss, acts, i, j - 1, id);
      StepKeepsRecords(ss[j - 1], maxSession, acts[j - 1], id);
    }
  }

  /** A session is started under a recorded id with the record's command and arguments, and under a new one with
      those asked for; either way the record then says what it runs. */
  lemma StartRunsRecord(s: Sys, maxSession: int, q: Request)
    requires Enabled(s, DoCreate(q)) && Starts(s, maxSession, q)
    ensures var s', id := Apply(s, maxSession, DoCreate(q)), IdOf(q);
            && id in s'.reg.store && q.ref in s'.runs && q.ref !in s.runs
            && s'.runs[q.ref] == (s'.reg.store[id].command, s'.reg.store[id].args)
            && s'.runs[q.ref] == if id in s.reg.store then (s.reg.store[id].command, s.reg.store[id].args) else (q.command, q.args)
  {
  }

  lemma StepKeepsRun(s: Sys, maxSession: int, a: Action, ref: Ref)
    requires Enabled(s, a) && ref in s.runs
    ensures ref in Apply(s, maxSession, a).runs && Apply(s, maxSession, a).runs[ref] == s.runs[ref]
  {
  }

  lemma {:induction false} RunStays(maxSession: int, ss: seq<Sys>, acts: seq<Action>, i: nat, j: nat, ref: Ref)
    requires IsRun(maxSession, ss, acts) && i <= j < |ss| && ref in ss[i].runs
    ensures ref in ss[j].runs && ss[j].runs[ref] == ss[i].runs[ref]
    decreases j
  {
    hide Apply, Enabled;
    if i < j {
      RunStays(maxSession, ss, acts, i, j - 1, ref);
      StepKeepsRun(ss[j - 1], maxSession, acts[j - 1], ref);
    }
  }

  /** Whatever later creates ask for, every session ever started under an id runs the command and the arguments
      that the first one was started with; and it runs them for good. */
  lemma EveryStartRunsTheFirst(maxSession: int, ss: seq<Sys>, acts: seq<Action>, i: nat, j: nat, n: nat, id: string)
    requires IsRun(maxSession, ss, acts) && i < j < n < |ss|
    requires StartsUnder(ss[i], maxSession, acts[i], id) && StartsUnder(ss[j], maxSession, acts[j], id)
    ensures acts[i].q.ref in ss[n].runs && acts[j].q.ref in ss[n].runs
    ensures ss[n].runs[acts[j].q.ref] == ss[n].runs[acts[i].q.ref]
    ensures id !in ss[i].reg.store ==> ss[n].runs[acts[j].q.ref] == (acts[i].q.command, acts[i].q.args)
  {
    hide Apply, Enabled, Starts, IdOf;
    StartRunsRecord(ss[i], maxSession, acts[i].q);
    RecordsNeverChange(maxSession, ss, acts, i + 1, j, id);
    StartRunsRecord(ss[j], maxSession, acts[j].q);
    RunStays(maxSession, ss, acts, i + 1, n, acts[i].q.ref);
    RunStays(maxSession, ss, acts, j + 1, n, acts[j].q.ref);
  }

  /** Step `n` starts a session under `id`. */
  predicate StartsUnder(s: Sys, maxSession: int, a: Action, id: string) {
    a.DoCreate? && Starts(s, maxSession, a.q) && IdOf(a.q) == id
  }

  lemma {:induction false} ExitedGrows(maxSession: int, ss: seq<Sys>, acts: seq<Action>, i: nat, j: nat)
    requires IsRun(maxSession, ss, acts) && i <= j < |ss|
    ensures ss[i].exited <= ss[j].exited
    decreases j
  {
    if i < j {
      ExitedGrows(maxSession, ss, acts, i, j - 1);
    }
  }

  lemma AliveKeepsName(s: Sys, maxSession: int, a: Action, id: string)
    requires Enabled(s, a) && id in s.reg.sessions && s.reg.sessions[id] !in s.exited
    requires forall x :: x in s.reg.sessions ==> x in s.reg.store
    requires id in Apply(s, maxSession, a).reg.sessions
    ensures Apply(s, maxSession, a).reg.sessions[id] == s.reg.sessions[id]
  {
  }

  lemma {:induction false} AliveNameStays(maxSession: int, ss: seq<Sys>, acts: seq<Action>, i: nat, j: nat, id: string)
    requires IsRun(maxSession, ss, acts) && i <= j < |ss|
    requires forall k :: i <= k <= j ==> id in ss[k].reg.sessions
    requires ss[i].reg.sessions[id] !in ss[j].exited
    ensures ss[j].reg.sessions[id] == ss[i].reg.sessions[id]
    decreases j
  {
    hide Apply, Enabled;
    if i < j {
      ExitedGrows(maxSession, ss, acts, j - 1, j);
      AliveNameStays(maxSession, ss, acts, i, j - 1, id);
      RegistryIsConsistent(maxSession, ss, acts, j - 1);
      AliveKeepsName(ss[j - 1], maxSession, acts[j - 1], id);
    }
  }

  /** From its start on, as long as its process lives and its id stays registered, every create for the id
      returns that session, whatever else it asks for, and changes nothing. */
  lemma CreateReturnsTheLiving(maxSession: int, ss: seq<Sys>, acts: seq<Action>, i: nat, j: nat, id: string)
    requires IsRun(maxSession, ss, acts) && i < j < |acts|
    requires StartsUnder(ss[i], maxSession, acts[i], id) && acts[j].DoCreate? && acts[j].q.id == id != ""
    requires forall k :: i < k <= j ==> id in ss[k].reg.sessions
    requires acts[i].q.ref !in ss[j].exited
    ensures CreateResult(ss[j].reg, maxSession, ss[j].exited, acts[j].q) == Ok(Created(acts[i].q.ref, false))
    ensures ss[j + 1] == ss[j]
  {
    StartReplaces(ss[i], maxSession, acts[i], id);
    AliveNameStays(maxSession, ss, acts, i + 1, j, id);
  }

  // ---------------------------------------------------------------------------
  // The two regions of Destroy

  lemma DestroyerStays(s: Sys, maxSession: int, a: Action, k: nat)
    requires Enabled(s, a) && k in s.destroyers && k in Apply(s, maxSession, a).destroyers
    ensures Apply(s, maxSession, a).destroyers[k].id == s.destroyers[k].id
    ensures Apply(s, maxSession, a).destroyers[k].ref == s.destroyers[k].ref
  {
  }

  lemma OnlyStartsReplace(s: Sys, maxSession: int, a: Action, id: string)
    requires Enabled(s, a) && !StartsUnder(s, maxSession, a, id)
    ensures id in Apply(s, maxSession, a).reg.sessions ==>
              id in s.reg.sessions && Apply(s, maxSession, a).reg.sessions[id] == s.reg.sessions[id]
  {
  }

  lemma StartReplaces(s: Sys, maxSession: int, a: Action, id: string)
    requires Enabled(s, a) && StartsUnder(s, maxSession, a, id)
    ensures Apply(s, maxSession, a).reg.sessions == s.reg.sessions[id := a.q.ref]
  {
  }

  lemma {:induction false} DestroyerKeepsTarget(maxSession: int, ss: seq<Sys>, acts: seq<Action>, i: nat, j: nat, k: nat, id: string)
    requires IsRun(maxSession, ss, acts) && i < j < |ss| && acts[i] == DoDestroyFind(k, id)
    requires forall n :: i < n <= j ==> k in ss[n].destroyers
    ensures id in ss[i].reg.sessions
    ensures ss[j].destroyers[k].id == id && ss[j].destroyers[k].ref == ss[i].reg.sessions[id]
    decreases j
  {
    if i + 1 < j {
      hide Apply, Enabled;
      DestroyerKeepsTarget(maxSession, ss, acts, i, j - 1, k, id);
      assert k in ss[j].destroyers && k in ss[j - 1].destroyers;
      DestroyerStays(ss[j - 1], maxSession, acts[j - 1], k);
    }
  }

  /** Between two moments, an id keeps naming its session or names one started under it since. */
  lemma {:induction false} NameChangesByStarts(maxSession: int, ss: seq<Sys>, acts: seq<Action>, i: nat, j: nat, id: string)
    requires IsRun(maxSession, ss, acts) && i <= j < |ss| && id in ss[j].reg.sessions
    ensures || (id in ss[i].reg.sessions && ss[j].reg.sessions[id] == ss[i].reg.sessions[id])
            || exists n :: i <= n < j && StartsUnder(ss[n], maxSession, acts[n], id) && acts[n].q.ref == ss[j].reg.sessions[id]
    decreases j
  {
    hide Apply, Enabled, StartsUnder;
    if i < j {
      var n := j - 1;
      if StartsUnder(ss[n], maxSession, acts[n], id) {
        StartReplaces(ss[n], maxSession, acts[n], id);
      } else {
        OnlyStartsReplace(ss[n], maxSession, acts[n], id);
        NameChangesByStarts(maxSession, ss, acts, i, n, id);
      }
    }
  }

  lemma StepKeepsRuns(s: Sys, maxSession: int, a: Action)
    requires Enabled(s, a)
    ensures s.runs.Keys <= Apply(s, maxSession, a).runs.Keys
  {
  }

  lemma {:induction false} RunsGrow(maxSession: int, ss: seq<Sys>, acts: seq<Action>, i: nat, j: nat)
    requires IsRun(maxSession, ss, acts) && i <= j < |ss|
    ensures ss[i].runs.Keys <= ss[j].runs.Keys
    decreases j
  {
    hide Apply, Enabled;
    if i < j {
      RunsGrow(maxSession, ss, acts, i, j - 1);
      StepKeepsRuns(ss[j - 1], maxSession, acts[j - 1]);
    }
  }

  /** The second region of Destroy takes out whatever the id names by then. That is a session other than
      the one destroyed exactly when it was started under the id after the first region. */
  lemma DestroyForgetsAnotherIff(maxSession: int, ss: seq<Sys>, acts: seq<Action>, i: nat, j: nat, k: nat, id: string)
    requires IsRun(maxSession, ss, acts) && i < j < |acts|
    requires acts[i] == DoDestroyFind(k, id) && acts[j] == DoDestroyForget(k)
    requires forall n :: i < n <= j ==> k in ss[n].destroyers
    ensures ss[j].destroyers[k].ref == ss[i].reg.sessions[id]
    ensures ss[j + 1].reg.sessions == ss[j].reg.sessions - {id}
    ensures id in ss[j].reg.sessions && ss[j].reg.sessions[id] != ss[i].reg.sessions[id] <==>
            id in ss[j].reg.sessions
            && exists n :: i < n < j && StartsUnder(ss[n], maxSession, acts[n], id) && acts[n].q.ref == ss[j].reg.sessions[id]
  {
    DestroyerKeepsTarget(maxSession, ss, acts, i, j, k, id);
    RunKeepsInv(maxSession, ss, acts, i);
    var ref := ss[i].reg.sessions[id];
    if id in ss[j].reg.sessions {
      NameChangesByStarts(maxSession, ss, acts, i + 1, j, id);
      assert ss[i + 1].reg == ss[i].reg;
      forall n | i < n < j && StartsUnder(ss[n], maxSession, acts[n], id) ensures acts[n].q.ref != ref {
        RunsGrow(maxSession, ss, acts, i, n);
        assert Enabled(ss[n], acts[n]);
      }
    }
  }

  /** It happens: the process dies once killed, a client resurrects the id, and the second region takes
      the new, running session out of the registry. */
  lemma DestroyMayForgetAnother() returns (ss: seq<Sys>, acts: seq<Action>)
    ensures IsRun(0, ss, acts) && |acts| == 6
    ensures acts[1] == DoDestroyFind(0, "a") && acts[5] == DoDestroyForget(0)
    ensures "a" in ss[5].reg.sessions && ss[5].reg.sessions["a"] == 2 && 2 !in ss[5].exited && 2 !in ss[5].destroyed
    ensures ss[5].destroyers[0].ref == 1 && ss[6].reg.sessions == map[]
  {
    hide Apply, Enabled;
    var q1 := Request("a", "sh", [], "", 1, 0, true);
    var q2 := Request("a", "", [], "", 2, 0, true);
    acts := [DoCreate(q1), DoDestroyFind(0, "a"), DoDestroyKill(0, true), DoExit(1), DoCreate(q2), DoDestroyForget(0)];
    var s1, s4 := FirstDestroyed(q1);
    var s2 := s1.(destroyers := map[0 := Destroyer("a", 1, false)]);
    var s3 := s2.(destroyers := map[0 := Destroyer("a", 1, true)], destroyed := {1});
    var s5 := s4.(reg := Registry(map["a" := 2], map["a" := Metadata("sh", [], "", 0, 1)]),
                  runs := map[1 := ("sh", []), 2 := ("sh", [])], creations := map["a" := 2]);
    Resurrection(s4, s5, q2);
    var s6 := s5.(reg := s5.reg.(sessions := map[]), destroyers := map[]);
    Forgets(s5, s6);
    ss := [START, s1, s2, s3, s4, s5, s6];
  }

  /** The first four steps: a session is started, found, killed, and its process exits. */
  lemma FirstDestroyed(q: Request) returns (s1: Sys, s4: Sys)
    requires q == Request("a", "sh", [], "", 1, 0, true)
    ensures s1 == Sys(Registry(map["a" := 1], map["a" := Metadata("sh", [], "", 0, 0)]), {}, {}, map[],
                      map[1 := ("sh", [])], map["a" := 1])
    ensures s4 == s1.(destroyers := map[0 := Destroyer("a", 1, true)], destroyed := {1}, exited := {1})
    ensures var s2 := s1.(destroyers := map[0 := Destroyer("a", 1, false)]);
            var s3 := s2.(destroyers := map[0 := Destroyer("a", 1, true)], destroyed := {1});
            && Enabled(START, DoCreate(q)) && s1 == Apply(START, 0, DoCreate(q))
            && Enabled(s1, DoDestroyFind(0, "a")) && s2 == Apply(s1, 0, DoDestroyFind(0, "a"))
            && Enabled(s2, DoDestroyKill(0, true)) && s3 == Apply(s2, 0, DoDestroyKill(0, true))
            && Enabled(s3, DoExit(1)) && s4 == Apply(s3, 0, DoExit(1))
  {
    s1 := Sys(Registry(map["a" := 1], map["a" := Metadata("sh", [], "", 0, 0)]), {}, {}, map[],
              map[1 := ("sh", [])], map["a" := 1]);
    s4 := s1.(destroyers := map[0 := Destroyer("a", 1, true)], destroyed := {1}, exited := {1});
  }

  lemma Forgets(s: Sys, s': Sys)
    requires s.destroyers == map[0 := Destroyer("a", 1, true)] && s.reg.sessions == map["a" := 2]
    requires s' == s.(reg := s.reg.(sessions := map[]), destroyers := map[])
    ensures Enabled(s, DoDestroyForget(0)) && Apply(s, 0, DoDestroyForget(0)) == s'
  {
  }

  lemma Resurrection(s: Sys, s': Sys, q: Request)
    requires s.reg == Registry(map["a" := 1], map["a" := Metadata("sh", [], "", 0, 0)]) && s.exited == {1}
    requires s.runs == map[1 := ("sh", [])] && s.creations == map["a" := 1]
    requires q == Request("a", "", [], "", 2, 0, true)
    requires s' == s.(reg := Registry(map["a" := 2], map["a" := Metadata("sh", [], "", 0, 1)]),
                      runs := map[1 := ("sh", []), 2 := ("sh", [])], creations := map["a" := 2])
    ensures Enabled(s, DoCreate(q)) && Apply(s, 0, DoCreate(q)) == s'
  {
    assert Starts(s, 0, q);
  }
}
