/** What a daemon admits, what becomes of the generations it has prepared, and that it can always be stopped
    (src/daemon/service.ts, src/core/exec-service.ts, src/core/task-store.ts). */
module ReloadAccounts {
  import opened Basics
  import opened ExecService
  import opened Reload
  import opened ReloadHistory

  // ---------------------------------------------------------------- admission

  /** The daemon has not begun to close executions, and no reload or removal holds the lease. */
  predicate Open(s: System) {
    (s.phase.Serving? || s.phase.Waiting? || s.phase.ClosingTasks?) && s.core.lease.None?
  }

  /** In every reachable state an execution is admitted exactly if the service is open, the limit is not reached and its
      request is not running already; it gets the current runner. A task's own execution, admitted with the task, is not
      held up by a lease. */
  lemma ExecutionAdmitted(actions: seq<Action>, limits: Limits, s: System, key: Key, id: RunId)
    requires Reaches(actions, limits, s)
    ensures Do(s, Run(key), limits) ==
            if Open(s) && |s.core.active| < limits.executions && key !in s.core.active
            then s.(core := s.core.(active := s.core.active[key := s.activeGeneration])) else s
    ensures id in s.tasks && s.tasks[id].running ==>
              Do(s, TaskExecutes(id), limits) ==
              if |s.core.active| < limits.executions && TaskKey(id) !in s.core.active
              then s.(core := s.core.(active := s.core.active[TaskKey(id) := s.activeGeneration])) else s
  {
    ReachableInv(actions, limits, s);
  }

  /** A task is admitted exactly if the service is open, tasks are not being closed, the limit is not reached and its id
      is new; a transfer does not look at the lease. */
  lemma TaskAdmitted(actions: seq<Action>, limits: Limits, s: System, id: RunId)
    requires Reaches(actions, limits, s)
    ensures var room := (s.phase.Serving? || s.phase.Waiting?) && |Running(s)| < limits.tasks && id !in s.tasks;
            && Do(s, StartTask(id), limits) ==
               (if room && Open(s) then s.(tasks := s.tasks[id := Task(Exec, true, s.activeGeneration)]) else s)
            && Do(s, StartTransfer(id), limits) ==
               (if room then s.(tasks := s.tasks[id := Task(Transfer, true, s.activeGeneration)]) else s)
  {
    ReachableInv(actions, limits, s);
    ClosingIsPhase(actions, limits, s);
  }

  lemma {:induction false} ClosingIsPhase(actions: seq<Action>, limits: Limits, s: System)
    requires Reaches(actions, limits, s)
    ensures s.tasksClosing <==> !s.phase.Serving? && !s.phase.Waiting?
    decreases |actions|
  {
    if actions != [] {
      var before := Before(actions, limits, s);
      ClosingIsPhase(actions[..|actions| - 1], limits, before);
      ClosingStep(before, actions[|actions| - 1], limits);
    }
  }

  lemma ClosingStep(s: System, a: Action, limits: Limits)
    requires Enabled(s, a)
    ensures var s' := Do(s, a, limits);
            && (!a.Stop? && !a.CloseTasks? && !a.CloseService? && !a.DisposeAll? ==>
                  s'.phase == s.phase && s'.tasksClosing == s.tasksClosing)
            && (a.CloseTasks? ==> s'.tasksClosing && s'.phase.ClosingTasks?)
            && (a.Stop? || a.CloseService? || a.DisposeAll? ==>
                  s'.tasksClosing == s.tasksClosing && (s'.phase.Waiting? <==> a.Stop?) && !s'.phase.Serving?)
  {
  }

  // ---------------------------------------------------------------- generations

  /** Every generation that was prepared is in force, a candidate, retired or told to close; at the end all are. */
  ghost predicate Accounted(s: System) {
    && (forall r :: r in s.born ==>
          r == s.activeGeneration || r in s.retired || r in s.disposed
            || (s.operation.Prepared? && s.operation.candidate == r))
    && s.retired <= s.disposed && (s.phase.Disposed? ==> s.activeGeneration in s.disposed)
  }

  lemma AccountedStep(s: System, a: Action, limits: Limits)
    requires Inv(s, limits) && Accounted(s) && Enabled(s, a)
    ensures Accounted(Do(s, a, limits))
  {
    if a.CommitReload? {
      CommitAccounted(s, a.registry, limits);
    }
  }

  lemma CommitAccounted(s: System, registry: nat, limits: Limits)
    requires Inv(s, limits) && Accounted(s) && s.operation.Prepared?
    ensures Accounted(Do(s, CommitReload(registry), limits))
  {
    QuietIs(s);
  }

  lemma {:induction false} NothingLeaks(actions: seq<Action>, limits: Limits, s: System)
    requires Reaches(actions, limits, s)
    ensures Accounted(s)
    decreases |actions|
  {
    if actions != [] {
      var before := Before(actions, limits, s);
      NothingLeaks(actions[..|actions| - 1], limits, before);
      AccountedStep(before, actions[|actions| - 1], limits);
    }
  }

  /** Commit `j` of the run replaced `r`, and no end of a reload since then has closed it. */
  ghost predicate RetiredBy(actions: seq<Action>, limits: Limits, r: Runner, j: nat) {
    && j < |actions| && actions[j].CommitReload?
    && (exists before ::
          Reaches(actions[..j], limits, before) && Accepts(before, actions[j]) && before.activeGeneration == r)
    && forall k :: j < k < |actions| && actions[k].ReloadEnds? ==> r in actions[k].failed
  }

  lemma RetiredStep(s: System, a: Action, limits: Limits)
    requires Inv(s, limits) && Enabled(s, a)
    ensures Do(s, a, limits).retired ==
            if a.CommitReload? && Accepts(s, a) then s.retired + {s.activeGeneration}
            else if a.ReloadEnds? then s.retired * a.failed else s.retired
  {
    if a.CommitReload? {
      CommitRetires(s, a.registry, limits);
    }
  }

  lemma CommitRetires(s: System, registry: nat, limits: Limits)
    requires Inv(s, limits) && s.operation.Prepared?
    ensures Do(s, CommitReload(registry), limits).retired ==
            if Accepts(s, CommitReload(registry)) then s.retired + {s.activeGeneration} else s.retired
  {
    QuietIs(s);
  }

  lemma RetiredEarlier(actions: seq<Action>, limits: Limits, r: Runner, j: nat)
    requires j + 1 < |actions|
    ensures var a := actions[|actions| - 1];
            RetiredBy(actions, limits, r, j) <==>
              RetiredBy(actions[..|actions| - 1], limits, r, j) && (a.ReloadEnds? ==> r in a.failed)
  {
    var front := actions[..|actions| - 1];
    assert front[..j] == actions[..j];
    assert forall k :: 0 <= k < |front| ==> front[k] == actions[k];
  }

  /** The last action retires `r` exactly if it is an accepted commit and `r` was in force. */
  lemma RetiredLast(actions: seq<Action>, limits: Limits, r: Runner, before: System)
    requires actions != [] && Reaches(actions[..|actions| - 1], limits, before)
    ensures var a := actions[|actions| - 1];
            RetiredBy(actions, limits, r, |actions| - 1) <==>
              a.CommitReload? && Accepts(before, a) && before.activeGeneration == r
  {
    var j := |actions| - 1;
    if RetiredBy(actions, limits, r, j) {
      var other :| Reaches(actions[..j], limits, other) && Accepts(other, actions[j]) && other.activeGeneration == r;
      ReachesOne(actions[..j], limits, before, other);
    }
  }

  ghost predicate WasRetired(actions: seq<Action>, limits: Limits, r: Runner) {
    exists j: nat :: RetiredBy(actions, limits, r, j)
  }

  lemma WasRetiredStep(actions: seq<Action>, limits: Limits, r: Runner)
    requires actions != []
    ensures var last := |actions| - 1;
            var a := actions[last];
            WasRetired(actions, limits, r) <==>
              || (WasRetired(actions[..last], limits, r) && (a.ReloadEnds? ==> r in a.failed))
              || RetiredBy(actions, limits, r, last)
  {
    var last := |actions| - 1;
    var front, a := actions[..last], actions[last];
    if WasRetired(front, limits, r) && (a.ReloadEnds? ==> r in a.failed) {
      var j: nat :| RetiredBy(front, limits, r, j);
      RetiredEarlier(actions, limits, r, j);
    }
    if WasRetired(actions, limits, r) {
      var j: nat :| RetiredBy(actions, limits, r, j);
      if j < last {
        RetiredEarlier(actions, limits, r, j);
      }
    }
  }

  /** The retired generations, which the next reload or the shutdown closes again, are exactly those that a commit has
      replaced and that no reload has closed since. */
  lemma {:induction false} RetiredMeaning(actions: seq<Action>, limits: Limits, s: System, r: Runner)
    requires Reaches(actions, limits, s)
    ensures r in s.retired <==> WasRetired(actions, limits, r)
    decreases |actions|
  {
    if actions != [] {
      var before := Before(actions, limits, s);
      RetiredMeaning(actions[..|actions| - 1], limits, before, r);
      RetiredStep(before, actions[|actions| - 1], limits);
      RetiredLast(actions, limits, r, before);
      WasRetiredStep(actions, limits, r);
    }
  }

  // ---------------------------------------------------------------- a change excludes others until it is over

  /** The daemon is busy with accepted change `j`: its routes are not yet removed, or what it replaced not yet
      closed. */
  ghost predicate Under(actions: seq<Action>, limits: Limits, j: nat) {
    && j < |actions| && Accepted(actions, limits, j)
    && ((actions[j].RemoveTargets? && forall k :: j < k < |actions| ==> !actions[k].RoutesRemoved?)
        || (actions[j].CommitReload? && forall k :: j < k < |actions| ==> !actions[k].ReloadEnds?))
  }

  lemma BusyStep(s: System, a: Action, limits: Limits)
    requires Inv(s, limits) && Enabled(s, a)
    ensures var o := Do(s, a, limits).operation;
            && (s.operation.RemovingRoutes? && !a.RoutesRemoved? ==> o.RemovingRoutes?)
            && (s.operation.Disposing? && !a.ReloadEnds? ==> o.Disposing?)
            && (a.RemoveTargets? && Accepts(s, a) ==> o.RemovingRoutes?)
            && (a.CommitReload? && Accepts(s, a) ==> o.Disposing?)
  {
    match a
    case CommitReload(registry) =>
      if Accepts(s, a) {
        CommitBusy(s, registry, limits);
      }
    case RemoveTargets(token, registry) =>
      if Accepts(s, a) {
        RemovalBusy(s, token, registry, limits);
      }
    case _ =>
  }

  lemma CommitBusy(s: System, registry: nat, limits: Limits)
    requires Inv(s, limits) && s.operation.Prepared? && Accepts(s, CommitReload(registry))
    ensures Do(s, CommitReload(registry), limits).operation.Disposing?
  {
    QuietIs(s);
  }

  lemma RemovalBusy(s: System, token: nat, registry: nat, limits: Limits)
    requires Inv(s, limits) && Accepts(s, RemoveTargets(token, registry))
    ensures Do(s, RemoveTargets(token, registry), limits).operation.RemovingRoutes?
  {
    QuietIs(s);
  }

  /** Until then nothing else is accepted and no reload begins. */
  lemma {:induction false} ChangeExcludes(actions: seq<Action>, limits: Limits, s: System, j: nat, next: Action)
    requires Reaches(actions, limits, s) && Under(actions, limits, j)
    ensures s.operation.RemovingRoutes? || s.operation.Disposing?
    ensures actions[j].RemoveTargets? <==> s.operation.RemovingRoutes?
    ensures !Accepts(s, next) && (next.BeginReload? ==> Do(s, next, limits) == s)
    decreases |actions|
  {
    var before := Before(actions, limits, s);
    BusyStep(before, actions[|actions| - 1], limits);
    if j < |actions| - 1 {
      AcceptedEarlier(actions, limits, j);
      assert forall k :: 0 <= k < |actions| - 1 ==> actions[..|actions| - 1][k] == actions[k];
      ChangeExcludes(actions[..|actions| - 1], limits, before, j, next);
    }
  }

  // ---------------------------------------------------------------- stopping

  ghost predicate Leads(limits: Limits, s: System, actions: seq<Action>, t: System)
    decreases |actions|
  {
    if actions == [] then t == s
    else Enabled(s, actions[0]) && Leads(limits, Do(s, actions[0], limits), actions[1..], t)
  }

  /** The next action on the way to a stop: what runs ends, an operation under way ends, and shutdown goes on. */
  ghost function Towards(s: System): (a: Action)
    requires !s.phase.Disposed?
  {
    if s.operation.Preparing? || s.operation.Prepared? then ReloadFails
    else if s.operation.Disposing? then ReloadEnds({})
    else if s.operation.RemovingRoutes? then RoutesRemoved
    else if s.phase.Serving? then Stop
    else if s.phase.Waiting? then CloseTasks
    else if s.phase.ClosingTasks? then
      if Running(s) == {} then CloseService
      else
        var id :| id in Running(s);
        if TaskKey(id) in s.core.active then ExecutionEnds(TaskKey(id)) else TaskEnds(id)
    else if s.core.active == map[] then DisposeAll
    else
      var key :| key in s.core.active;
      ExecutionEnds(key)
  }

  function PhasesLeft(p: Phase): nat {
    match p
    case Serving => 4
    case Waiting => 3
    case ClosingTasks => 2
    case ClosingService => 1
    case Disposed => 0
  }

  function OperationLeft(o: Operation): nat {
    if o.NoOperation? then 0 else 1
  }

  lemma EndStep(s: System, a: Action, limits: Limits)
    requires Inv(s, limits) && Enabled(s, a) && (a.ExecutionEnds? || a.TaskEnds?)
    ensures var s' := Do(s, a, limits);
            && s'.phase == s.phase && s'.operation == s.operation
            && (a.ExecutionEnds? ==> Running(s') == Running(s) && |s'.core.active| < |s.core.active|)
            && (a.TaskEnds? ==> |Running(s')| < |Running(s)|)
  {
    var s' := Do(s, a, limits);
    if a.ExecutionEnds? {
      assert Running(s') == Running(s);
      CountRemove(s.core.active, a.key);
    } else {
      assert Running(s') == Running(s) - {a.id};
    }
  }

  lemma TowardsStep(s: System, limits: Limits)
    requires Inv(s, limits) && !s.phase.Disposed?
    ensures var a := Towards(s);
            && Enabled(s, a)
            && var s' := Do(s, a, limits);
               if a.ExecutionEnds? || a.TaskEnds? then true
               else
                 || PhasesLeft(s'.phase) < PhasesLeft(s.phase)
                 || (s'.phase == s.phase && OperationLeft(s'.operation) < OperationLeft(s.operation))
  {
  }

  /** From every reachable state, if what runs ends, the daemon can be stopped, and it has then closed every generation
      it ever prepared. */
  lemma {:induction false} CanStop(run: seq<Action>, limits: Limits, s: System)
    returns (actions: seq<Action>, t: System)
    requires Reaches(run, limits, s)
    ensures Leads(limits, s, actions, t) && t.phase.Disposed?
    ensures t.core.active == map[] && Running(t) == {} && t.born == t.disposed
    decreases PhasesLeft(s.phase), OperationLeft(s.operation), |Running(s)|, |s.core.active|
  {
    ReachableInv(run, limits, s);
    if s.phase.Disposed? {
      NothingLeaks(run, limits, s);
      actions, t := [], s;
    } else {
      var a := Towards(s);
      TowardsStep(s, limits);
      if a.ExecutionEnds? || a.TaskEnds? {
        EndStep(s, a, limits);
      }
      ReachesNext(run, limits, s, a);
      var rest;
      rest, t := CanStop(run + [a], limits, Do(s, a, limits));
      actions := [a] + rest;
      assert actions[1..] == rest;
    }
  }

  lemma ReachesNext(run: seq<Action>, limits: Limits, s: System, a: Action)
    requires Reaches(run, limits, s) && Enabled(s, a)
    ensures Reaches(run + [a], limits, Do(s, a, limits))
  {
    var more := run + [a];
    assert more[..|more| - 1] == run && more[|more| - 1] == a;
  }
}
