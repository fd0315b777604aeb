/** The session registry (internal/session/manager.go) over an in-memory store of records. */
module SessionManager {
  import opened Common

  // The identity of a session object.
  type Ref = nat

  datatype Metadata = Metadata(command: string, args: seq<string>, title: string, createdAt: int, runCount: nat)

  datatype Registry = Registry(sessions: map<string, Ref>, store: map<string, Metadata>)

  const EMPTY := Registry(map[], map[])

  /** What a create call is given: the requested id ("" asks for a generated one), and what the
      environment contributes: the generated id, the new session's identity, the clock, and whether
      a terminal could be started. */
  datatype Request = Request(
    id: string, command: string, args: seq<string>,
    generated: string, ref: Ref, now: int, started: bool)

  datatype CreateError = TooManySessions | NoCommand | TerminalFailed

  datatype Created = Created(ref: Ref, isNew: bool)

  function IdOf(q: Request): string {
    if q.id == "" then q.generated else q.id
  }

  /** The record a resurrecting create goes by. */
  function RecordFor(r: Registry, q: Request): Option<Metadata> {
    if q.id != "" && q.id in r.store then Some(r.store[q.id]) else None
  }

  function NewRecord(r: Registry, q: Request): Metadata {
    match RecordFor(r, q)
    case Some(m) => m.(runCount := m.runCount + 1)
    case None => Metadata(q.command, q.args, "", q.now, 0)
  }

  function CreateResult(r: Registry, maxSession: int, exited: set<Ref>, q: Request): Result<Created, CreateError> {
    if q.id != "" && q.id in r.sessions && r.sessions[q.id] !in exited then Ok(Created(r.sessions[q.id], false))
    else if maxSession > 0 && |r.sessions| >= maxSession then Err(TooManySessions)
    else if RecordFor(r, q).None? && q.command == "" then Err(NoCommand)
    else if !q.started then Err(TerminalFailed)
    else Ok(Created(q.ref, true))
  }

  function AfterCreate(r: Registry, maxSession: int, exited: set<Ref>, q: Request): Registry {
    var res := CreateResult(r, maxSession, exited, q);
    if res.Ok? && res.value.isNew
    then Registry(r.sessions[IdOf(q) := q.ref], r.store[IdOf(q) := NewRecord(r, q)])
    else r
  }

  predicate Gone(ref: Ref, exited: set<Ref>, destroyed: set<Ref>) {
    ref in destroyed || ref in exited
  }

  /** Ids the sweep takes out: gone sessions, and idle ones past their timeout. */
  function Swept(r: Registry, exited: set<Ref>, destroyed: set<Ref>, timedOut: set<Ref>): set<string> {
    set id | id in r.sessions && (Gone(r.sessions[id], exited, destroyed) || r.sessions[id] in timedOut)
  }

  function AfterSweep(r: Registry, exited: set<Ref>, destroyed: set<Ref>, timedOut: set<Ref>): Registry {
    r.(sessions := r.sessions - Swept(r, exited, destroyed, timedOut))
  }

  /** The sessions a sweep destroys: not gone already, and idle too long. */
  function SweepKills(r: Registry, exited: set<Ref>, destroyed: set<Ref>, timedOut: set<Ref>): set<Ref> {
    set id | id in r.sessions && !Gone(r.sessions[id], exited, destroyed) && r.sessions[id] in timedOut :: r.sessions[id]
  }

  /** Whatever is registered under the id goes. */
  function Forgotten(r: Registry, id: string): Registry {
    r.(sessions := r.sessions - {id})
  }

  function AfterTitle(r: Registry, id: string, title: string): Registry {
    if id in r.store then r.(store := r.store[id := r.store[id].(title := title)]) else r
  }

  /** The ids that name an alive session, in the order asked. */
  function AliveAmong(r: Registry, ids: seq<string>, exited: set<Ref>, destroyed: set<Ref>): seq<Ref> {
    if ids == [] then []
    else
      var id := ids[|ids| - 1];
      AliveAmong(r, ids[..|ids| - 1], exited, destroyed)
      + if id in r.sessions && !Gone(r.sessions[id], exited, destroyed) then [r.sessions[id]] else []
  }

  class Manager {
    const maxSession: int
    var sessions: map<string, Ref>
    var store: map<string, Metadata>

    ghost function View(): Registry
      reads this
    {
      Registry(sessions, store)
    }

    constructor (maxSession: int)
      ensures View() == EMPTY && this.maxSession == maxSession
    {
      this.maxSession, sessions, store := maxSession, map[], map[];
    }

    method CreateWithID(q: Request, exited: set<Ref>) returns (r: Result<Created, CreateError>)
      modifies this
      ensures View() == AfterCreate(old(View()), maxSession, exited, q)
      ensures r == CreateResult(old(View()), maxSession, exited, q)
    {
      if q.id != "" && q.id in sessions && sessions[q.id] !in exited {
        return Ok(Created(sessions[q.id], false));
      }
      if maxSession > 0 && |sessions| >= maxSession {
        return Err(TooManySessions);
      }
      var record: Option<Metadata> := None;
      var command, args := q.command, q.args;
      if q.id != "" && q.id in store {
        record := Some(store[q.id]);
        command, args := store[q.id].command, store[q.id].args;
      }
      var id := q.id;
      if id == "" {
        id := q.generated;
      }
      if record.None? && command == "" {
        return Err(NoCommand);
      }
      if !q.started {
        return Err(TerminalFailed);
      }
      sessions := sessions[id := q.ref];
      var meta := Metadata(command, args, "", q.now, 0);
      if record.Some? {
        meta := meta.(createdAt := record.value.createdAt, title := record.value.title,
                      runCount := record.value.runCount + 1);
      }
      store := store[id := meta];
      r := Ok(Created(q.ref, true));
    }

    /** Destroy, first region. */
    method Find(id: string) returns (s: Option<Ref>)
      ensures s == if id in View().sessions then Some(View().sessions[id]) else None
    {
      s := if id in sessions then Some(sessions[id]) else None;
    }

    /** Destroy, last region: whatever is registered under the id by now goes. */
    method Forget(id: string)
      modifies this`sessions
      ensures View() == Forgotten(old(View()), id)
    {
      sessions := sessions - {id};
    }

    /** Returns the sessions that have to be destroyed: they were idle too long. */
    method DestroyExpired(exited: set<Ref>, destroyed: set<Ref>, timedOut: set<Ref>) returns (killed: set<Ref>)
      modifies this`sessions
      ensures View() == AfterSweep(old(View()), exited, destroyed, timedOut)
      ensures killed == SweepKills(old(View()), exited, destroyed, timedOut)
    {
      killed := {};
      var left := sessions.Keys;
      ghost var all := sessions;
      ghost var done: set<string> := {};
      while left != {}
        invariant left + done == all.Keys && left !! done
        invariant sessions == all - (set id | id in done && (Gone(all[id], exited, destroyed) || all[id] in timedOut))
        invariant killed == set id | id in done && !Gone(all[id], exited, destroyed) && all[id] in timedOut :: all[id]
        decreases left
      {
        var id :| id in left;
        var ref := sessions[id];
        if ref in destroyed || ref in exited {
          sessions := sessions - {id};
        } else if ref in timedOut {
          killed := killed + {ref};
          sessions := sessions - {id};
        }
        left, done := left - {id}, done + {id};
      }
      assert done == all.Keys;
      assert (set id | id in done && (Gone(all[id], exited, destroyed) || all[id] in timedOut))
          == Swept(old(View()), exited, destroyed, timedOut);
    }

    method UpdateTitle(id: string, title: string) returns (found: bool)
      modifies this`store
      ensures View() == AfterTitle(old(View()), id, title)
      ensures found <==> id in old(store)
    {
      found := id in store;
      if found {
        store := store[id := store[id].(title := title)];
      }
    }

    method Status(ids: seq<string>, exited: set<Ref>, destroyed: set<Ref>) returns (alive: seq<Ref>)
      ensures alive == AliveAmong(View(), ids, exited, destroyed)
    {
      alive := [];
      for i := 0 to |ids|
        invariant alive == AliveAmong(View(), ids[..i], exited, destroyed)
      {
        assert ids[..i + 1][..i] == ids[..i];
        if ids[i] in sessions && sessions[ids[i]] !in destroyed && sessions[ids[i]] !in exited {
          alive := alive + [sessions[ids[i]]];
        }
      }
      assert ids[..|ids|] == ids;
    }
  }
}
