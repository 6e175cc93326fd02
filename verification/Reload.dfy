/** Hot reload of the daemon (src/daemon/service.ts) while commands, tasks and transfers run: every
    interleaving of the synchronous sections of ExecService, TaskStore, TransferService and the daemon. */
module Reload {
  import opened Basics
  import opened ExecService

  type RunId = nat

  datatype Kind = Exec | Transfer
  datatype Task = Task(kind: Kind, running: bool, runner: Runner)

  /** The daemon's reloadOperation. */
  datatype Operation = NoOperation | Preparing(token: nat) | Prepared(token: nat, candidate: Runner) |
    Disposing(token: nat) | RemovingRoutes

  datatype Phase = Serving | Waiting | ClosingTasks | ClosingService | Disposed

  datatype Limits = Limits(executions: nat, tasks: nat)

  /** A host-key inspection, which reads the ssh configuration of the generation it started with. `key`: the execution
      it was started beside. `outlived`: that execution has ended, or was refused. */
  datatype Inspection = Inspection(key: Key, runner: Runner, outlived: bool)

  /** `disposed`: every generation whose resources have been told to close. */
  datatype System = System(
    core: Core, tasks: map<RunId, Task>, tasksClosing: bool, transferRunner: Runner, transferRegistry: nat,
    activeGeneration: Runner, retired: set<Runner>, disposed: set<Runner>, born: set<Runner>,
    operation: Operation, phase: Phase, inspections: map<nat, Inspection>)

  function Running(s: System): set<RunId> {
    set id | id in s.tasks && s.tasks[id].running
  }

  /** The session and request a task's own execution runs under. */
  function TaskKey(id: RunId): Key {
    ("task", id)
  }

  const FIRST: Runner := 0

  const START := System(Core(Generation(0, FIRST), map[], None, false), map[], false, FIRST, 0, FIRST, {}, {},
                        {FIRST}, NoOperation, Serving, map[])

  datatype Action =
    | Run(key: Key)                          // run, runOperation, check, dockerPreflight
    | Inspect(key: Key, id: nat)             // an execution, and beside it an inspection that nobody counts
    | InspectionEnds(id: nat)
    | ExecutionEnds(key: Key)
    | StartTask(id: RunId)
    | TaskExecutes(id: RunId)                // the worker's startExecution, a later turn
    | StartTransfer(id: RunId)               // never looks at the lease
    | TaskEnds(id: RunId)
    | ForgetTask(id: RunId)
    | UpdateMetadata(registry: nat)
    | RemoveTargets(token: nat, registry: nat)
    | RoutesRemoved
    | BeginReload(token: nat)
    | Prepare(candidate: Runner)
    | ReloadFails
    | CommitReload(registry: nat)
    | ReloadEnds(failed: set<Runner>)        // `failed`: retired generations that did not close
    | Stop
    | CloseTasks
    | CloseService
    | DisposeAll

  predicate Enabled(s: System, a: Action) {
    match a
    case ExecutionEnds(key) => key in s.core.active
    case Inspect(_, id) => id !in s.inspections
    case InspectionEnds(id) => id in s.inspections
    case TaskExecutes(id) => id in Running(s)
    case TaskEnds(id) => id in Running(s) && TaskKey(id) !in s.core.active
    case ForgetTask(id) => id in s.tasks && id !in Running(s)
    case RoutesRemoved => s.operation.RemovingRoutes?
    case Prepare(candidate) => s.operation.Preparing? && candidate !in s.born
    case ReloadFails => s.operation.Preparing? || s.operation.Prepared?
    case CommitReload(_) => s.operation.Prepared?
    case ReloadEnds(_) => s.operation.Disposing?
    case Stop => s.phase.Serving?
    case CloseTasks => s.phase.Waiting? && s.operation.NoOperation?
    case CloseService => s.phase.ClosingTasks? && Running(s) == {}
    case DisposeAll => s.phase.ClosingService? && s.core.active == map[]
    case _ => true
  }

  /** TaskStore.start with the runner captured by the caller. */
  function Admit(s: System, id: RunId, kind: Kind, runner: Runner, limits: Limits): (s': System) {
    if s.tasksClosing || |Running(s)| >= limits.tasks || id in s.tasks then s
    else s.(tasks := s.tasks[id := Task(kind, true, runner)])
  }

  /** The reload operation gives up: its candidate is closed and its lease released. */
  function Abandon(s: System): (s': System)
    requires s.operation.Preparing? || s.operation.Prepared?
  {
    s.(core := Release(s.core, s.operation.token), operation := NoOperation,
       disposed := if s.operation.Prepared? then s.disposed + {s.operation.candidate} else s.disposed)
  }

  /** The inspections once the execution has ended. */
  function Outlive(inspections: map<nat, Inspection>, key: Key): (r: map<nat, Inspection>) {
    map id | id in inspections :: inspections[id].(outlived := inspections[id].outlived || inspections[id].key == key)
  }

  function Do(s: System, a: Action, limits: Limits): (s': System)
    requires Enabled(s, a)
  {
    match a
    case Run(key) =>
      var available := Available(s.core);
      if available.Err? then s
      else
        var started := Start(s.core, key, available.value, limits.executions);
        if started.Ok? then s.(core := started.value) else s
    case Inspect(key, id) =>
      var available := Available(s.core);
      if available.Err? then s
      else
        var started := Start(s.core, key, available.value, limits.executions);
        s.(core := if started.Ok? then started.value else s.core,
           inspections := s.inspections[id := Inspection(key, available.value, started.Err?)])
    case InspectionEnds(id) => s.(inspections := s.inspections - {id})
    case ExecutionEnds(key) => s.(core := Remove(s.core, key), inspections := Outlive(s.inspections, key))
    case StartTask(id) =>
      var available := Available(s.core);
      if available.Err? then s else Admit(s, id, Exec, available.value, limits)
    case TaskExecutes(id) =>
      var started := Start(s.core, TaskKey(id), s.tasks[id].runner, limits.executions);
      if started.Ok? then s.(core := started.value) else s
    case StartTransfer(id) => Admit(s, id, Transfer, s.transferRunner, limits)
    case TaskEnds(id) => s.(tasks := s.tasks[id := s.tasks[id].(running := false)])
    case ForgetTask(id) => s.(tasks := s.tasks - {id})
    case UpdateMetadata(registry) =>
      if !s.phase.Serving? || !s.operation.NoOperation? then s
      else
        var updated := ExecService.UpdateMetadata(s.core, registry);
        if updated.Ok? then s.(core := updated.value, transferRegistry := registry) else s
    case RemoveTargets(token, registry) =>
      if !s.phase.Serving? || !s.operation.NoOperation? then s
      else
        var lease := ExecService.BeginReload(s.core, |Running(s)|, token);
        if lease.Err? then s
        else
          var committed := Commit(lease.value, |Running(s)|, token, Generation(registry, s.core.generation.runner));
          s.(core := Release(committed.0, token), transferRegistry := registry, operation := RemovingRoutes)
    case RoutesRemoved => s.(operation := NoOperation)
    case BeginReload(token) =>
      if !s.phase.Serving? || !s.operation.NoOperation? then s
      else
        var lease := ExecService.BeginReload(s.core, |Running(s)|, token);
        if lease.Err? then s else s.(core := lease.value, operation := Preparing(token))
    case Prepare(candidate) => s.(operation := Prepared(s.operation.token, candidate), born := s.born + {candidate})
    case ReloadFails => Abandon(s)
    case CommitReload(registry) =>
      if !s.phase.Serving? then Abandon(s)
      else
        var committed := Commit(s.core, |Running(s)|, s.operation.token, Generation(registry, s.operation.candidate));
        if committed.1.Some? then Abandon(s.(core := committed.0))
        else
          var retired := s.retired + {s.activeGeneration};
          s.(core := committed.0, transferRunner := s.operation.candidate, transferRegistry := registry,
             activeGeneration := s.operation.candidate, retired := retired, disposed := s.disposed + retired,
             operation := Disposing(s.operation.token))
    case ReloadEnds(failed) =>
      s.(core := Release(s.core, s.operation.token), retired := s.retired * failed, operation := NoOperation)
    case Stop => s.(phase := Waiting)
    case CloseTasks => s.(phase := ClosingTasks, tasksClosing := true)
    case CloseService => s.(phase := ClosingService, core := BeginShutdown(s.core))
    case DisposeAll => s.(phase := Disposed, disposed := s.disposed + s.retired + {s.activeGeneration})
  }

  ghost predicate Reaches(actions: seq<Action>, limits: Limits, s: System) {
    if actions == [] then s == START
    else
      var a := actions[|actions| - 1];
      exists before :: Reaches(actions[..|actions| - 1], limits, before) && Enabled(before, a)
        && s == Do(before, a, limits)
  }

  /** The runner is held by an active execution or by a running task. */
  ghost predicate InUse(s: System, r: Runner) {
    || (exists key :: key in s.core.active && s.core.active[key] == r)
    || (exists id :: id in Running(s) && s.tasks[id].runner == r)
  }

  // ---------------------------------------------------------------- the invariant

  /** Everything that runs holds the current runner, which three components agree on. */
  ghost predicate Current(s: System) {
    && s.core.generation.runner == s.transferRunner == s.activeGeneration
    && (forall key :: key in s.core.active ==> s.core.active[key] == s.activeGeneration)
    && (forall id :: id in Running(s) ==> s.tasks[id].runner == s.activeGeneration)
  }

  /** The current generation and a candidate are neither retired nor closed. */
  ghost predicate Kept(s: System) {
    && s.activeGeneration in s.born && s.retired <= s.born && s.disposed <= s.born
    && s.activeGeneration !in s.retired
    && (s.activeGeneration in s.disposed ==> s.phase.Disposed?)
    && (s.operation.Prepared? ==>
          && s.operation.candidate in s.born && s.operation.candidate != s.activeGeneration
          && s.operation.candidate !in s.retired && s.operation.candidate !in s.disposed)
  }

  /** An inspection whose execution still runs uses the current generation. */
  ghost predicate Watched(s: System) {
    forall id :: id in s.inspections && !s.inspections[id].outlived ==>
      s.inspections[id].key in s.core.active && s.inspections[id].runner == s.activeGeneration
  }

  /** A lease belongs to the reload under way, and before its commit that reload has it. */
  predicate Leased(s: System) {
    && (s.core.lease.Some? ==>
          && (s.operation.Preparing? || s.operation.Prepared? || s.operation.Disposing?)
          && s.core.lease.value.token == s.operation.token)
    && (s.operation.Preparing? || s.operation.Prepared? ==> s.core.lease == Some(Lease(s.operation.token, false)))
  }

  /** Shutdown closes task admission before it closes execution admission, and each waits for what it admitted. */
  ghost predicate Orderly(s: System) {
    && (s.phase.ClosingTasks? || s.phase.ClosingService? || s.phase.Disposed? ==>
        s.tasksClosing && s.operation.NoOperation?)
    && (s.phase.ClosingService? || s.phase.Disposed? ==> s.core.closing && Running(s) == {})
    && (s.phase.Disposed? ==> s.core.active == map[])
    && (s.core.closing ==> s.phase.ClosingService? || s.phase.Disposed?)
  }

  ghost predicate Inv(s: System, limits: Limits) {
    && Current(s) && Kept(s) && Leased(s) && Orderly(s) && Watched(s)
    && |s.core.active| <= limits.executions && |Running(s)| <= limits.tasks
  }

  lemma AdmitOne(s: System, id: RunId, kind: Kind, runner: Runner, limits: Limits)
    ensures var s' := Admit(s, id, kind, runner, limits);
            s' != s ==> Running(s') == Running(s) + {id} && |Running(s')| <= limits.tasks
  {
    var s' := Admit(s, id, kind, runner, limits);
    if s' != s {
      assert Running(s') == Running(s) + {id};
    }
  }

  /** An execution that may have been admitted with the current runner. */
  lemma StartStep(s: System, key: Key, limits: Limits)
    requires Inv(s, limits)
    ensures var started := Start(s.core, key, s.activeGeneration, limits.executions);
            started.Ok? && !s.core.closing ==> Inv(s.(core := started.value), limits)
  {
    var started := Start(s.core, key, s.activeGeneration, limits.executions);
    if started.Ok? {
      assert Running(s.(core := started.value)) == Running(s);
      CountAdd(s.core.active, key, s.activeGeneration);
    }
  }

  lemma ExecutionSteps(s: System, a: Action, limits: Limits)
    requires Inv(s, limits) && Enabled(s, a) && (a.Run? || a.ExecutionEnds? || a.TaskExecutes?)
    ensures Inv(Do(s, a, limits), limits)
  {
    match a
    case Run(key) => StartStep(s, key, limits);
    case TaskExecutes(id) => StartStep(s, TaskKey(id), limits);
    case ExecutionEnds(key) =>
      assert Running(Do(s, a, limits)) == Running(s);
      CountRemove(s.core.active, key);
  }

  lemma InspectionSteps(s: System, a: Action, limits: Limits)
    requires Inv(s, limits) && Enabled(s, a) && (a.Inspect? || a.InspectionEnds?)
    ensures Inv(Do(s, a, limits), limits)
  {
    if a.Inspect? && Available(s.core).Ok? {
      StartStep(s, a.key, limits);
      var started := Start(s.core, a.key, s.activeGeneration, limits.executions);
      var s1 := if started.Ok? then s.(core := started.value) else s;
      var s2 := s1.(inspections := s.inspections[a.id := Inspection(a.key, s.activeGeneration, started.Err?)]);
      assert Do(s, a, limits) == s2 && Running(s2) == Running(s1);
    } else {
      assert Running(Do(s, a, limits)) == Running(s);
    }
  }

  lemma AdmissionSteps(s: System, id: RunId, kind: Kind, limits: Limits)
    requires Inv(s, limits)
    ensures Inv(Admit(s, id, kind, s.activeGeneration, limits), limits)
  {
    AdmitOne(s, id, kind, s.activeGeneration, limits);
  }

  lemma TaskSteps(s: System, a: Action, limits: Limits)
    requires Inv(s, limits) && Enabled(s, a) && (a.TaskEnds? || a.ForgetTask?)
    ensures Inv(Do(s, a, limits), limits)
  {
    var s' := Do(s, a, limits);
    if a.TaskEnds? {
      assert Running(s') == Running(s) - {a.id};
    } else {
      assert Running(s') == Running(s);
    }
  }

  lemma AbandonStep(s: System, limits: Limits)
    requires Inv(s, limits) && (s.operation.Preparing? || s.operation.Prepared?)
    ensures Inv(Abandon(s), limits)
  {
    assert Running(Abandon(s)) == Running(s);
  }

  lemma CommittedStep(s: System, registry: nat, limits: Limits)
    requires Inv(s, limits) && s.operation.Prepared? && Free(s)
    ensures Inv(Do(s, CommitReload(registry), limits), limits)
  {
    assert Running(Do(s, CommitReload(registry), limits)) == {};
  }

  predicate Free(s: System) {
    s.phase.Serving? && s.core.active == map[] && Running(s) == {}
  }

  /** A commit goes through exactly if the daemon serves and nothing runs; otherwise the reload gives up. */
  lemma CommitIs(s: System, registry: nat, limits: Limits)
    requires s.operation.Prepared? && s.core.lease == Some(Lease(s.operation.token, false))
             && (s.phase.Serving? ==> !s.core.closing)
    ensures var s' := Do(s, CommitReload(registry), limits);
            && s'.inspections == s.inspections
            && (Free(s) ==> s'.disposed == s.disposed + s.retired + {s.activeGeneration})
            && (!Free(s) ==> s' == Abandon(s))
  {
    assert |s.core.active| == 0 <==> s.core.active == map[];
    assert |Running(s)| == 0 <==> Running(s) == {};
  }

  lemma CommitStep(s: System, registry: nat, limits: Limits)
    requires Inv(s, limits) && s.operation.Prepared?
    ensures Inv(Do(s, CommitReload(registry), limits), limits)
  {
    CommitIs(s, registry, limits);
    if Free(s) {
      CommittedStep(s, registry, limits);
    } else {
      AbandonStep(s, limits);
    }
  }

  lemma ReloadSteps(s: System, a: Action, limits: Limits)
    requires Inv(s, limits) && Enabled(s, a) && (a.BeginReload? || a.Prepare? || a.ReloadFails? || a.ReloadEnds?)
    ensures Inv(Do(s, a, limits), limits)
  {
    assert Running(Do(s, a, limits)) == Running(s);
  }

  lemma OtherSteps(s: System, a: Action, limits: Limits)
    requires Inv(s, limits) && Enabled(s, a)
    requires a.UpdateMetadata? || a.RemoveTargets? || a.RoutesRemoved? || a.Stop? || a.CloseTasks? || a.CloseService?
             || a.DisposeAll?
    ensures Inv(Do(s, a, limits), limits)
  {
    assert Running(Do(s, a, limits)) == Running(s);
  }

  lemma {:induction false} ReachableInv(actions: seq<Action>, limits: Limits, s: System)
    requires Reaches(actions, limits, s)
    ensures Inv(s, limits)
    decreases |actions|
  {
    if actions == [] {
      assert Running(s) == {};
    } else {
      var a := actions[|actions| - 1];
      var before :| Reaches(actions[..|actions| - 1], limits, before) && Enabled(before, a)
        && s == Do(before, a, limits);
      ReachableInv(actions[..|actions| - 1], limits, before);
      if a.Run? || a.ExecutionEnds? || a.TaskExecutes? {
        ExecutionSteps(before, a, limits);
      } else if a.Inspect? || a.InspectionEnds? {
        InspectionSteps(before, a, limits);
      } else if a.StartTask? {
        AdmissionSteps(before, a.id, Exec, limits);
      } else if a.StartTransfer? {
        AdmissionSteps(before, a.id, Transfer, limits);
      } else if a.TaskEnds? || a.ForgetTask? {
        TaskSteps(before, a, limits);
      } else if a.CommitReload? {
        CommitStep(before, a.registry, limits);
      } else if a.BeginReload? || a.Prepare? || a.ReloadFails? || a.ReloadEnds? {
        ReloadSteps(before, a, limits);
      } else {
        OtherSteps(before, a, limits);
      }
    }
  }

  /** In every interleaving a runner in use is the current generation's, and no reload, failed reload or
      shutdown has told it to close; the concurrency limits hold throughout. */
  lemma RunnersInUseAreCurrent(actions: seq<Action>, limits: Limits, s: System, r: Runner)
    requires Reaches(actions, limits, s) && InUse(s, r)
    ensures r == s.core.generation.runner == s.transferRunner == s.activeGeneration
    ensures r !in s.disposed && r !in s.retired
    ensures |s.core.active| <= limits.executions && |Running(s)| <= limits.tasks
  {
    ReachableInv(actions, limits, s);
  }

  /** A generation that an inspection uses is retired, closed or no longer current only after the inspection's own
      execution has ended. */
  lemma InspectionsAreCurrent(actions: seq<Action>, limits: Limits, s: System, id: nat)
    requires Reaches(actions, limits, s) && id in s.inspections
    ensures var r := s.inspections[id].runner;
            r in s.retired || r in s.disposed || r != s.activeGeneration ==> s.inspections[id].outlived
  {
    ReachableInv(actions, limits, s);
  }

  /** A commit looks at executions and tasks and not at inspections: it closes the generation that a pending inspection
      reads from exactly if the daemon serves and nothing else runs. */
  lemma CommitClosesInspected(actions: seq<Action>, limits: Limits, s: System, id: nat, registry: nat)
    requires Reaches(actions, limits, s) && s.operation.Prepared?
    requires id in s.inspections && s.inspections[id].runner == s.activeGeneration
    ensures var s' := Do(s, CommitReload(registry), limits);
            && id in s'.inspections
            && (s'.inspections[id].runner in s'.disposed <==> Free(s))
  {
    ReachableInv(actions, limits, s);
    CommitIs(s, registry, limits);
  }

  /** Between the lease and the commit a transfer may start with the current runner, so an unchecked commit
      would retire a runner in use; the checked one refuses and keeps the generation. */
  lemma CommitMustCheckAgain(limits: Limits)
    requires limits.tasks >= 1
    ensures exists s ::
              && Reachable(limits, s) && s.operation.Prepared? && Leases(s.core, s.operation.token)
              && InUse(s, s.activeGeneration)
              && Do(s, CommitReload(1), limits).activeGeneration == s.activeGeneration
              && Do(s, CommitReload(1), limits).operation == NoOperation
  {
    var s := TransferUnderLease(limits);
    assert Running(s) == {7};
    assert 7 in Running(s) && s.tasks[7].runner == s.activeGeneration;
    CommitIs(s, 1, limits);
  }

  lemma TransferUnderLease(limits: Limits) returns (s: System)
    requires limits.tasks >= 1
    ensures Reachable(limits, s)
    ensures s ==
            START.(core := START.core.(lease := Some(Lease(0, false))), operation := Prepared(0, 1),
                   born := {FIRST} + {1}, tasks := map[7 := Task(Transfer, true, FIRST)])
  {
    assert Running(START) == {};
    StartIsReachable(limits);
    var prepared := ReloadPrepared(limits, START);
    assert Running(prepared) == {};
    Then(limits, prepared, StartTransfer(7));
    s := Do(prepared, StartTransfer(7), limits);
  }

  /** An inspection that outlives its execution can lose its generation: the reload closes it while the inspection still
      reads from it. */
  lemma InspectionLosesGeneration(limits: Limits)
    requires limits.executions >= 1
    ensures exists s, id ::
              Reachable(limits, s) && id in s.inspections && s.inspections[id].runner in s.disposed && s.phase.Serving?
  {
    var idle := InspectionLeft(limits);
    assert Running(idle) == {};
    var prepared := ReloadPrepared(limits, idle);
    assert Running(prepared) == {};
    Then(limits, prepared, CommitReload(1));
    var s := Do(prepared, CommitReload(1), limits);
    assert s.inspections == idle.inspections && FIRST in s.disposed;
    assert 0 in s.inspections && s.inspections[0].runner in s.disposed;
  }

  /** An execution has ended, and its inspection has not. */
  lemma InspectionLeft(limits: Limits) returns (s: System)
    requires limits.executions >= 1
    ensures Reachable(limits, s)
    ensures s == START.(inspections := map[0 := Inspection(("s", 0), FIRST, true)])
  {
    StartIsReachable(limits);
    Then(limits, START, Inspect(("s", 0), 0));
    var busy :=
      START.(core := START.core.(active := map[("s", 0) := FIRST]),
             inspections := map[0 := Inspection(("s", 0), FIRST, false)]);
    assert Do(START, Inspect(("s", 0), 0), limits) == busy;
    Then(limits, busy, ExecutionEnds(("s", 0)));
    s := START.(inspections := map[0 := Inspection(("s", 0), FIRST, true)]);
    assert Remove(busy.core, ("s", 0)) == START.core && Outlive(busy.inspections, ("s", 0)) == s.inspections;
    assert Do(busy, ExecutionEnds(("s", 0)), limits) == s;
  }

  // ---------------------------------------------------------------- runs

  ghost predicate Reachable(limits: Limits, s: System) {
    exists actions :: Reaches(actions, limits, s)
  }

  lemma StartIsReachable(limits: Limits)
    ensures Reachable(limits, START)
  {
    assert Reaches([], limits, START);
  }

  lemma Then(limits: Limits, s: System, a: Action)
    requires Reachable(limits, s) && Enabled(s, a)
    ensures Reachable(limits, Do(s, a, limits))
  {
    var actions :| Reaches(actions, limits, s);
    var more := actions + [a];
    assert more[..|more| - 1] == actions && more[|more| - 1] == a;
    assert Reaches(more, limits, Do(s, a, limits));
  }

  /** From an idle state a reload gets its lease and prepares generation 1. */
  lemma ReloadPrepared(limits: Limits, s: System) returns (r: System)
    requires Reachable(limits, s) && s.phase.Serving? && s.operation.NoOperation? && 1 !in s.born
    requires s.core.lease.None? && !s.core.closing && s.core.active == map[] && Running(s) == {}
    ensures Reachable(limits, r)
    ensures r == s.(core := s.core.(lease := Some(Lease(0, false))), operation := Prepared(0, 1), born := s.born + {1})
  {
    Then(limits, s, BeginReload(0));
    var leased := s.(core := s.core.(lease := Some(Lease(0, false))), operation := Preparing(0));
    assert Do(s, BeginReload(0), limits) == leased;
    Then(limits, leased, Prepare(1));
    r := Do(leased, Prepare(1), limits);
  }
}
