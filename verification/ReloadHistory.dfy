/** Which registry and which runner a daemon serves with, read off the history of its run (src/daemon/service.ts,
    src/core/exec-service.ts): the last change that was accepted decides. */
module ReloadHistory {
  import opened Basics
  import opened ExecService
  import opened Reload

  /** No execution and no task runs. */
  predicate Quiet(s: System) {
    s.core.active == map[] && forall id :: id in s.tasks ==> !s.tasks[id].running
  }

  /** Nobody holds the reload lease and no reload or removal is under way. */
  predicate Unleased(s: System) {
    s.core.lease.None? && s.operation.NoOperation?
  }

  /** When the daemon accepts a change of its registry: it serves, and a metadata update finds no lease, a removal finds
      no lease and nothing running, and a commit finds its own lease and nothing running. */
  predicate Accepts(s: System, a: Action) {
    && s.phase.Serving?
    && match a {
         case UpdateMetadata(_) => Unleased(s)
         case RemoveTargets(_, _) => Unleased(s) && Quiet(s)
         case CommitReload(_) =>
           s.operation.Prepared? && s.core.lease == Some(Lease(s.operation.token, false)) && Quiet(s)
         case _ => false
       }
  }

  /** Action `k` of the run was an accepted change. */
  ghost predicate Accepted(actions: seq<Action>, limits: Limits, k: nat)
    requires k < |actions|
  {
    exists before :: Reaches(actions[..k], limits, before) && Accepts(before, actions[k])
  }

  /** The candidate that the run prepared last. */
  function LastPrepared(actions: seq<Action>): (r: Runner) {
    if actions == [] then FIRST
    else
      var a := actions[|actions| - 1];
      if a.Prepare? then a.candidate else LastPrepared(actions[..|actions| - 1])
  }

  // ---------------------------------------------------------------- one step

  lemma QuietIs(s: System)
    ensures Quiet(s) <==> |s.core.active| == 0 && |Running(s)| == 0
  {
    assert |s.core.active| == 0 <==> s.core.active == map[];
    assert |Running(s)| == 0 <==> Running(s) == {};
    assert Running(s) == {} <==> forall id :: id in s.tasks ==> id !in Running(s);
  }

  /** Both services take over the registry of an accepted change, and keep theirs otherwise. */
  predicate Installs(s: System, a: Action, s': System) {
    if Accepts(s, a) then s'.core.generation.registry == s'.transferRegistry == a.registry
    else s'.core.generation.registry == s.core.generation.registry && s'.transferRegistry == s.transferRegistry
  }

  lemma CommitInstalls(s: System, registry: nat, limits: Limits)
    requires Inv(s, limits) && s.operation.Prepared?
    ensures Installs(s, CommitReload(registry), Do(s, CommitReload(registry), limits))
  {
    QuietIs(s);
  }

  lemma RemovalInstalls(s: System, token: nat, registry: nat, limits: Limits)
    requires Inv(s, limits)
    ensures Installs(s, RemoveTargets(token, registry), Do(s, RemoveTargets(token, registry), limits))
  {
    QuietIs(s);
  }

  lemma RegistryStep(s: System, a: Action, limits: Limits)
    requires Inv(s, limits) && Enabled(s, a)
    ensures Installs(s, a, Do(s, a, limits))
  {
    match a
    case CommitReload(registry) => CommitInstalls(s, registry, limits);
    case RemoveTargets(token, registry) => RemovalInstalls(s, token, registry, limits);
    case _ =>
  }

  lemma CommitRunner(s: System, registry: nat, limits: Limits)
    requires Inv(s, limits) && s.operation.Prepared?
    ensures var s' := Do(s, CommitReload(registry), limits);
            && (s'.activeGeneration ==
                if Accepts(s, CommitReload(registry)) then s.operation.candidate else s.activeGeneration)
            && !s'.operation.Prepared?
  {
    QuietIs(s);
  }

  /** Only an accepted commit changes the runner, to the candidate that was prepared. */
  lemma RunnerStep(s: System, a: Action, limits: Limits)
    requires Inv(s, limits) && Enabled(s, a)
    ensures var s' := Do(s, a, limits);
            && (s'.activeGeneration ==
                if a.CommitReload? && Accepts(s, a) then s.operation.candidate else s.activeGeneration)
            && (s'.operation.Prepared? ==>
                  if a.Prepare? then s'.operation.candidate == a.candidate
                  else s.operation.Prepared? && s'.operation.candidate == s.operation.candidate)
  {
    if a.CommitReload? {
      CommitRunner(s, a.registry, limits);
    }
  }

  // ---------------------------------------------------------------- the whole run

  lemma {:induction false} ReachesOne(actions: seq<Action>, limits: Limits, s: System, t: System)
    requires Reaches(actions, limits, s) && Reaches(actions, limits, t)
    ensures s == t
    decreases |actions|
  {
    if actions != [] {
      var front, a := actions[..|actions| - 1], actions[|actions| - 1];
      var s0 :| Reaches(front, limits, s0) && Enabled(s0, a) && s == Do(s0, a, limits);
      var t0 :| Reaches(front, limits, t0) && Enabled(t0, a) && t == Do(t0, a, limits);
      ReachesOne(front, limits, s0, t0);
    }
  }

  /** The state before the last action of a run. */
  lemma Before(actions: seq<Action>, limits: Limits, s: System) returns (before: System)
    requires Reaches(actions, limits, s) && actions != []
    ensures Reaches(actions[..|actions| - 1], limits, before) && Enabled(before, actions[|actions| - 1])
    ensures s == Do(before, actions[|actions| - 1], limits) && Inv(before, limits)
    ensures Accepted(actions, limits, |actions| - 1) <==> Accepts(before, actions[|actions| - 1])
  {
    var last := |actions| - 1;
    before :| Reaches(actions[..last], limits, before) && Enabled(before, actions[last])
      && s == Do(before, actions[last], limits);
    ReachableInv(actions[..last], limits, before);
    if Accepted(actions, limits, last) {
      var other :| Reaches(actions[..last], limits, other) && Accepts(other, actions[last]);
      ReachesOne(actions[..last], limits, before, other);
    }
  }

  lemma AcceptedEarlier(actions: seq<Action>, limits: Limits, k: nat)
    requires k + 1 < |actions|
    ensures Accepted(actions[..|actions| - 1], limits, k) <==> Accepted(actions, limits, k)
  {
    assert actions[..|actions| - 1][..k] == actions[..k];
  }

  /** No change from number `n` on was accepted. */
  ghost predicate NoneFrom(actions: seq<Action>, limits: Limits, n: nat) {
    forall k :: n <= k < |actions| ==> !Accepted(actions, limits, k)
  }

  lemma NoneEarlier(actions: seq<Action>, limits: Limits, n: nat)
    requires NoneFrom(actions, limits, n) && n < |actions|
    ensures NoneFrom(actions[..|actions| - 1], limits, n)
  {
    var front := actions[..|actions| - 1];
    forall k | n <= k < |front| ensures !Accepted(front, limits, k) {
      AcceptedEarlier(actions, limits, k);
    }
  }

  /** In every run the registry in force, for executions and for transfers, is the one of the last accepted change. */
  lemma {:induction false} RegistryInForce(actions: seq<Action>, limits: Limits, s: System, j: nat)
    requires Reaches(actions, limits, s) && j < |actions|
    requires Accepted(actions, limits, j) && NoneFrom(actions, limits, j + 1)
    ensures actions[j].UpdateMetadata? || actions[j].RemoveTargets? || actions[j].CommitReload?
    ensures s.core.generation.registry == s.transferRegistry == actions[j].registry
    decreases |actions|
  {
    var before := Before(actions, limits, s);
    RegistryStep(before, actions[|actions| - 1], limits);
    if j < |actions| - 1 {
      NoneEarlier(actions, limits, j + 1);
      AcceptedEarlier(actions, limits, j);
      RegistryInForce(actions[..|actions| - 1], limits, before, j);
    }
  }

  /** Until a change is accepted it is the first one. */
  lemma {:induction false} FirstRegistryInForce(actions: seq<Action>, limits: Limits, s: System)
    requires Reaches(actions, limits, s) && NoneFrom(actions, limits, 0)
    ensures s.core.generation.registry == s.transferRegistry == 0
    decreases |actions|
  {
    if actions != [] {
      var before := Before(actions, limits, s);
      RegistryStep(before, actions[|actions| - 1], limits);
      NoneEarlier(actions, limits, 0);
      FirstRegistryInForce(actions[..|actions| - 1], limits, before);
    }
  }

  lemma {:induction false} CandidateIsLastPrepared(actions: seq<Action>, limits: Limits, s: System)
    requires Reaches(actions, limits, s) && s.operation.Prepared?
    ensures s.operation.candidate == LastPrepared(actions)
    decreases |actions|
  {
    var before := Before(actions, limits, s);
    RunnerStep(before, actions[|actions| - 1], limits);
    if !actions[|actions| - 1].Prepare? {
      CandidateIsLastPrepared(actions[..|actions| - 1], limits, before);
    }
  }

  /** No commit from number `n` on was accepted. */
  ghost predicate NoCommitFrom(actions: seq<Action>, limits: Limits, n: nat) {
    forall k :: n <= k < |actions| && actions[k].CommitReload? ==> !Accepted(actions, limits, k)
  }

  lemma NoCommitEarlier(actions: seq<Action>, limits: Limits, n: nat)
    requires NoCommitFrom(actions, limits, n) && n < |actions|
    ensures NoCommitFrom(actions[..|actions| - 1], limits, n)
  {
    var front := actions[..|actions| - 1];
    forall k | n <= k < |front| && front[k].CommitReload? ensures !Accepted(front, limits, k) {
      AcceptedEarlier(actions, limits, k);
    }
  }

  /** In every run the runner in force, which all three components use, is the candidate that had been prepared when the
      last accepted commit was made. */
  lemma {:induction false} RunnerInForce(actions: seq<Action>, limits: Limits, s: System, j: nat)
    requires Reaches(actions, limits, s) && j < |actions| && actions[j].CommitReload?
    requires Accepted(actions, limits, j) && NoCommitFrom(actions, limits, j + 1)
    ensures s.core.generation.runner == s.transferRunner == s.activeGeneration == LastPrepared(actions[..j])
    decreases |actions|
  {
    ReachableInv(actions, limits, s);
    var before := Before(actions, limits, s);
    RunnerStep(before, actions[|actions| - 1], limits);
    if j < |actions| - 1 {
      NoCommitEarlier(actions, limits, j + 1);
      AcceptedEarlier(actions, limits, j);
      assert actions[..|actions| - 1][..j] == actions[..j];
      RunnerInForce(actions[..|actions| - 1], limits, before, j);
    } else {
      CandidateIsLastPrepared(actions[..j], limits, before);
    }
  }
}
