/** Execution admission and the reload lease (src/core/exec-service.ts). */
module ExecService {
  import opened Basics

  /** One prepared generation's runner; a reload brings a new one, a metadata update keeps it. */
  type Runner = nat
  type Session = string
  type Request = nat
  type Key = (Session, Request)

  datatype Result<+T> = Ok(value: T) | Err(error: Error)
  datatype Error = Stopping | Reloading | LimitReached | DuplicateRequest | ActiveExecutions | LeaseEnded

  datatype Generation = Generation(registry: nat, runner: Runner)

  // ---------------------------------------------------------------- the service as a value

  /** The open reload lease, which commits once. */
  datatype Lease = Lease(token: nat, committed: bool)

  datatype Core = Core(generation: Generation, active: map<Key, Runner>, lease: Option<Lease>, closing: bool)

  predicate Leases(c: Core, token: nat) {
    c.lease.Some? && c.lease.value.token == token
  }

  /** assertExecutionAvailable. */
  function Available(c: Core): (r: Result<Runner>) {
    if c.closing then Err(Stopping) else if c.lease.Some? then Err(Reloading) else Ok(c.generation.runner)
  }

  /** startExecution with a runner captured earlier. */
  function Start(c: Core, key: Key, runner: Runner, limit: nat): (r: Result<Core>) {
    if |c.active| >= limit then Err(LimitReached)
    else if key in c.active then Err(DuplicateRequest)
    else Ok(c.(active := c.active[key := runner]))
  }

  function Remove(c: Core, key: Key): (c': Core) {
    c.(active := c.active - {key})
  }

  function UpdateMetadata(c: Core, registry: nat): (r: Result<Core>) {
    if c.closing then Err(Stopping)
    else if c.lease.Some? then Err(Reloading)
    else Ok(c.(generation := Generation(registry, c.generation.runner)))
  }

  function BeginReload(c: Core, runningTasks: nat, token: nat): (r: Result<Core>) {
    if c.closing then Err(Stopping)
    else if c.lease.Some? then Err(Reloading)
    else if |c.active| != 0 || runningTasks != 0 then Err(ActiveExecutions)
    else Ok(c.(lease := Some(Lease(token, false))))
  }

  function Release(c: Core, token: nat): (c': Core) {
    if Leases(c, token) then c.(lease := None) else c
  }

  /** commit re-checks idleness: transfers do not look at the lease. A refusal settles the lease. */
  function Commit(c: Core, runningTasks: nat, token: nat, generation: Generation): (r: (Core, Option<Error>)) {
    if !Leases(c, token) || c.lease.value.committed then (c, Some(LeaseEnded))
    else if c.closing then (Release(c, token), Some(Stopping))
    else if |c.active| != 0 || runningTasks != 0 then (Release(c, token), Some(ActiveExecutions))
    else (c.(generation := generation, lease := Some(Lease(token, true))), None)
  }

  function BeginShutdown(c: Core): (c': Core) {
    c.(closing := true, lease := None)
  }

  // ---------------------------------------------------------------- the service as an object

  /** Execution `key` of the nested per-session maps. */
  ghost function Lookup(m: map<Session, map<Request, Runner>>, key: Key): Option<Runner> {
    if key.0 in m && key.1 in m[key.0] then Some(m[key.0][key.1]) else None
  }

  ghost predicate AgreeAt(m: map<Session, map<Request, Runner>>, active: map<Key, Runner>, key: Key) {
    Lookup(m, key) == if key in active then Some(active[key]) else None
  }

  ghost predicate Agree(m: map<Session, map<Request, Runner>>, active: map<Key, Runner>) {
    forall key: Key :: AgreeAt(m, active, key)
  }

  ghost predicate NoneEmpty(m: map<Session, map<Request, Runner>>) {
    forall s :: s in m ==> m[s] != map[]
  }

  class Service {
    const maxConcurrentExecutions: nat
    var generation: Generation
    var activeBySession: map<Session, map<Request, Runner>>
    var activeCount: nat
    var lease: Option<Lease>
    var closing: bool
    /** The executions of all sessions by session and request. */
    ghost var active: map<Key, Runner>

    /** The counter is the number of active executions, and no session is kept without one. */
    ghost predicate Valid()
      reads this
    {
      && activeCount == |active|
      && Agree(activeBySession, active)
      && NoneEmpty(activeBySession)
    }

    ghost function View(): Core
      reads this
    {
      Core(generation, active, lease, closing)
    }

    constructor (registry: nat, runner: Runner, limit: nat)
      ensures Valid() && View() == Core(Generation(registry, runner), map[], None, false)
      ensures maxConcurrentExecutions == limit
    {
      maxConcurrentExecutions := limit;
      generation := Generation(registry, runner);
      activeBySession, activeCount, lease, closing := map[], 0, None, false;
      active := map[];
    }

    method StartExecution(session: Session, request: Request, runner: Runner) returns (r: Result<()>)
      requires Valid()
      modifies this
      ensures Valid()
      ensures var spec := Start(old(View()), (session, request), runner, maxConcurrentExecutions);
              if spec.Ok? then r.Ok? && View() == spec.value else r == Err(spec.error) && View() == old(View())
    {
      if activeCount >= maxConcurrentExecutions {
        return Err(LimitReached);
      }
      var sessionExecutions := if session in activeBySession then activeBySession[session] else map[];
      ghost var key := (session, request);
      assert AgreeAt(activeBySession, active, key);
      if request in sessionExecutions {
        return Err(DuplicateRequest);
      }
      AgreeAdd(activeBySession, active, session, sessionExecutions, request, runner);
      CountAdd(active, key, runner);
      activeBySession := activeBySession[session := sessionExecutions[request := runner]];
      active := active[key := runner];
      activeCount := activeCount + 1;
      return Ok(());
    }

    method RemoveExecution(session: Session, request: Request)
      requires Valid()
      modifies this
      ensures Valid() && View() == Remove(old(View()), (session, request))
    {
      var removed;
      activeBySession, removed, active := DeleteRequest(activeBySession, session, request, active);
      if removed {
        activeCount := activeCount - 1;
      }
    }

    method TryBeginReload(runningTasks: nat, token: nat) returns (r: Result<()>)
      requires Valid()
      modifies this`lease
      ensures Valid()
      ensures var spec := BeginReload(old(View()), runningTasks, token);
              if spec.Ok? then r.Ok? && View() == spec.value else r == Err(spec.error) && View() == old(View())
    {
      if closing {
        return Err(Stopping);
      }
      if lease.Some? {
        return Err(Reloading);
      }
      if activeCount != 0 || runningTasks != 0 {
        return Err(ActiveExecutions);
      }
      lease := Some(Lease(token, false));
      return Ok(());
    }

    method CommitLease(runningTasks: nat, token: nat, next: Generation) returns (error: Option<Error>)
      requires Valid()
      modifies this`lease, this`generation
      ensures Valid() && (View(), error) == Commit(old(View()), runningTasks, token, next)
    {
      if lease.None? || lease.value.token != token || lease.value.committed {
        return Some(LeaseEnded);
      }
      if closing {
        lease := None;
        return Some(Stopping);
      }
      if activeCount != 0 || runningTasks != 0 {
        lease := None;
        return Some(ActiveExecutions);
      }
      generation, lease := next, Some(Lease(token, true));
      return None;
    }

    method ReleaseLease(token: nat)
      requires Valid()
      modifies this`lease
      ensures Valid() && View() == Release(old(View()), token)
    {
      if lease.Some? && lease.value.token == token {
        lease := None;
      }
    }

    /** Revoking targets is a whole reload in one step, with the same runner. */
    method RemoveTargets(runningTasks: nat, token: nat, registry: nat) returns (r: Result<()>)
      requires Valid()
      modifies this`lease, this`generation
      ensures Valid()
      ensures r.Ok? <==> BeginReload(old(View()), runningTasks, token).Ok?
      ensures View() == if r.Ok? then old(View()).(generation := Generation(registry, old(generation).runner))
              else old(View())
    {
      r := TryBeginReload(runningTasks, token);
      if r.Ok? {
        var error := CommitLease(runningTasks, token, Generation(registry, generation.runner));
        ReleaseLease(token);
      }
    }
  }

  lemma CountAdd(active: map<Key, Runner>, key: Key, x: Runner)
    requires key !in active
    ensures |active[key := x]| == |active| + 1
  {
    assert active[key := x].Keys == active.Keys + {key};
  }

  lemma CountRemove(active: map<Key, Runner>, key: Key)
    ensures |active - {key}| == |active| - if key in active then 1 else 0
    ensures key !in active ==> active - {key} == active
  {
    if key in active {
      assert active.Keys == (active - {key}).Keys + {key};
    } else {
      assert active - {key} == active;
    }
  }

  lemma AgreeAdd(m: map<Session, map<Request, Runner>>, active: map<Key, Runner>, s: Session,
                 inner: map<Request, Runner>, r: Request, x: Runner)
    requires Agree(m, active) && inner == if s in m then m[s] else map[]
    ensures Agree(m[s := inner[r := x]], active[(s, r) := x])
  {
    var m', active' := m[s := inner[r := x]], active[(s, r) := x];
    forall key: Key ensures AgreeAt(m', active', key) {
      assert AgreeAt(m, active, key);
      assert key == (key.0, key.1);
    }
  }

  /** The nested maps without one execution; a session left empty goes too. */
  function Without(m: map<Session, map<Request, Runner>>, s: Session,
                   r: Request): (m': map<Session, map<Request, Runner>>)
  {
    if s !in m then m
    else if m[s] - {r} == map[] then m - {s}
    else m[s := m[s] - {r}]
  }

  lemma AgreeRemove(m: map<Session, map<Request, Runner>>, active: map<Key, Runner>, s: Session, r: Request)
    requires Agree(m, active)
    ensures Agree(Without(m, s, r), active - {(s, r)})
  {
    var m', active' := Without(m, s, r), active - {(s, r)};
    forall key: Key ensures AgreeAt(m', active', key) {
      assert AgreeAt(m, active, key);
      assert key == (key.0, key.1);
      assert s in m && m[s] - {r} == map[] ==> key.1 !in m[s] - {r};
    }
  }

  method DeleteRequest(m: map<Session, map<Request, Runner>>, s: Session, r: Request, ghost active: map<Key, Runner>)
    returns (remaining: map<Session, map<Request, Runner>>, removed: bool, ghost active': map<Key, Runner>)
    requires Agree(m, active) && NoneEmpty(m)
    ensures active' == active - {(s, r)} && Agree(remaining, active') && NoneEmpty(remaining)
    ensures |active'| == |active| - if removed then 1 else 0
  {
    RemoveFacts(m, active, s, r);
    remaining, removed, active' := Without(m, s, r), s in m && r in m[s], active - {(s, r)};
  }

  /** What removing an execution does to the nested maps, the flat view and the count. */
  lemma RemoveFacts(m: map<Session, map<Request, Runner>>, active: map<Key, Runner>, s: Session, r: Request)
    requires Agree(m, active) && NoneEmpty(m)
    ensures Agree(Without(m, s, r), active - {(s, r)}) && NoneEmpty(Without(m, s, r))
    ensures |active - {(s, r)}| == |active| - if s in m && r in m[s] then 1 else 0
  {
    assert AgreeAt(m, active, (s, r));
    CountRemove(active, (s, r));
    AgreeRemove(m, active, s, r);
  }

  /** A lease commits at most once, and a refused commit ends it. */
  lemma CommitsOnce(c: Core, runningTasks: nat, later: nat, token: nat, first: Generation, second: Generation)
    ensures var once := Commit(c, runningTasks, token, first);
            Commit(once.0, later, token, second) == (once.0, Some(LeaseEnded))
  {
  }
}
