/** The run queue of PuttySharedExecutor (src/infra/putty-shared-executor.ts): submission, abort of queued runs,
    one drain at a time that reschedules itself, and close. Runs are numbered in submission order. */
module ExecutorQueue {
  datatype Phase = Queued | Active | Settled

  datatype Outcome = Aborted | Executed | Refused

  /** `outcomes`: every call of the run's resolve or reject so far. */
  datatype Run = Run(phase: Phase, aborted: bool, outcomes: seq<Outcome>)

  /** #drainOperation. Ending: #drainQueue has returned and its finally callback has not yet run. */
  datatype Drain = Absent | Executing(id: nat) | Ending

  /** `started`: the runs handed to #execute, in order. */
  datatype Executor = Executor(runs: seq<Run>, queue: seq<nat>, drain: Drain, closed: bool, started: seq<nat>)

  const NEW := Executor([], [], Absent, false, [])

  predicate WellFormed(x: Executor) {
    && (forall i :: 0 <= i < |x.queue| ==> x.queue[i] < |x.runs|)
    && (x.drain.Executing? ==> x.drain.id < |x.runs|)
  }

  function Settle(x: Executor, id: nat, outcome: Outcome): (r: Executor)
    requires id < |x.runs|
  {
    x.(runs := x.runs[id := x.runs[id].(phase := Settled, outcomes := x.runs[id].outcomes + [outcome])])
  }

  /** #drainQueue up to its next await. */
  function Drained(x: Executor): (r: Executor)
    requires WellFormed(x)
    ensures WellFormed(r) && |r.runs| == |x.runs|
    decreases |x.queue|
  {
    if x.closed || x.queue == [] then x.(drain := Ending)
    else
      var id, rest := x.queue[0], x.(queue := x.queue[1..]);
      if x.runs[id].phase != Queued then Drained(rest)
      else if x.runs[id].aborted then Drained(Settle(rest, id, Aborted))
      else rest.(runs := x.runs[id := x.runs[id].(phase := Active)], drain := Executing(id),
                 started := x.started + [id])
  }

  function Ensured(x: Executor): (r: Executor)
    requires WellFormed(x)
    ensures WellFormed(r) && |r.runs| == |x.runs|
  {
    if x.drain.Absent? then Drained(x) else x
  }

  function Submitted(x: Executor, aborted: bool): (r: Executor)
    requires WellFormed(x)
    ensures WellFormed(r)
  {
    if x.closed then x.(runs := x.runs + [Run(Settled, aborted, [Refused])])
    else if aborted then x.(runs := x.runs + [Run(Settled, true, [Aborted])])
    else Ensured(x.(runs := x.runs + [Run(Queued, false, [])], queue := x.queue + [|x.runs|]))
  }

  /** The queue without `id`, as indexOf and splice leave it. */
  function Without(queue: seq<nat>, id: nat): (r: seq<nat>) {
    if queue == [] then []
    else if queue[0] == id then queue[1..]
    else [queue[0]] + Without(queue[1..], id)
  }

  lemma {:induction false} WithoutMeaning(queue: seq<nat>, id: nat)
    requires Increasing(queue)
    ensures Increasing(Without(queue, id))
    ensures forall i :: i in Without(queue, id) <==> i in queue && i != id
    ensures |Without(queue, id)| <= |queue|
  {
    if queue != [] {
      WithoutMeaning(queue[1..], id);
      assert queue == [queue[0]] + queue[1..];
      var r := Without(queue, id);
      if queue[0] != id {
        forall j, k | 0 <= j < k < |r| ensures r[j] < r[k] {
          assert r[k] in queue[1..];
        }
      } 
    }
  }

  /** The abort listener of a run. */
  function Dropped(x: Executor, id: nat): (r: Executor)
    requires id < |x.runs|
  {
    if x.runs[id].phase != Queued then x
    else Settle(x.(queue := Without(x.queue, id)), id, Aborted)
  }

  function Completed(x: Executor): (r: Executor)
    requires WellFormed(x) && x.drain.Executing?
    ensures WellFormed(r)
  {
    Drained(Settle(x.(drain := Ending), x.drain.id, Executed))
  }

  /** The finally callback of a drain. */
  function Rescheduled(x: Executor): (r: Executor)
    requires WellFormed(x)
    ensures WellFormed(r)
  {
    var idle := x.(drain := Absent);
    if !x.closed && x.queue != [] then Ensured(idle) else idle
  }

  /** close() rejects what it splices off the queue. */
  function Rejected(runs: seq<Run>, queue: seq<nat>): (r: seq<Run>)
    requires forall i :: 0 <= i < |queue| ==> queue[i] < |runs|
    ensures |r| == |runs|
  {
    if queue == [] then runs
    else
      var init, id := Rejected(runs, queue[..|queue| - 1]), queue[|queue| - 1];
      if init[id].phase != Queued then init
      else init[id := init[id].(phase := Settled, outcomes := init[id].outcomes + [Refused])]
  }

  function Closed(x: Executor): (r: Executor)
    requires WellFormed(x)
    ensures WellFormed(r)
  {
    x.(closed := true, queue := [], runs := Rejected(x.runs, x.queue))
  }

  // ---------------------------------------------------------------- every run

  /** Abort raises the signal; the run's listener is a step of its own. */
  datatype Action = Submit(aborted: bool) | Abort(id: nat) | Listen(id: nat) | Complete | Reschedule | Close

  predicate Enabled(x: Executor, a: Action) {
    match a
    case Abort(id) => id < |x.runs|
    case Listen(id) => id < |x.runs| && x.runs[id].aborted
    case Complete => x.drain.Executing?
    case Reschedule => x.drain.Ending?
    case _ => true
  }

  function Do(x: Executor, a: Action): (r: Executor)
    requires WellFormed(x) && Enabled(x, a)
  {
    match a
    case Submit(aborted) => Submitted(x, aborted)
    case Abort(id) => x.(runs := x.runs[id := x.runs[id].(aborted := true)])
    case Listen(id) => Dropped(x, id)
    case Complete => Completed(x)
    case Reschedule => Rescheduled(x)
    case Close => Closed(x)
  }

  ghost predicate Reaches(actions: seq<Action>, x: Executor) {
    if actions == [] then x == NEW
    else
      var a := actions[|actions| - 1];
      exists before :: Reaches(actions[..|actions| - 1], before) && WellFormed(before) && Enabled(before, a)
        && x == Do(before, a)
  }

  // ---------------------------------------------------------------- the invariant

  ghost predicate Increasing(s: seq<nat>) {
    forall j, k :: 0 <= j < k < |s| ==> s[j] < s[k]
  }

  /** What holds of run `i`: it is queued, active or settled once, and overtaken only if it was aborted. */
  ghost predicate Sound(x: Executor, i: nat)
    requires i < |x.runs|
  {
    var run := x.runs[i];
    && (run.phase == Queued <==> i in x.queue)
    && (run.phase == Active <==> x.drain == Executing(i))
    && |run.outcomes| == (if run.phase == Settled then 1 else 0)
    && (run.phase == Active ==> i in x.started)
    && (run.phase == Settled && |run.outcomes| == 1 ==>
          && (run.outcomes[0] == Executed <==> i in x.started)
          && (run.outcomes[0] == Aborted ==> run.aborted) && (run.outcomes[0] == Refused ==> x.closed))
    && (forall k :: 0 <= k < |x.started| && i < x.started[k] && i !in x.started ==> run.aborted)
  }

  /** The queue holds later runs than any that were started. */
  ghost predicate Ordered(x: Executor) {
    && Increasing(x.queue) && Increasing(x.started)
    && (forall j, k :: 0 <= j < |x.started| && 0 <= k < |x.queue| ==> x.started[j] < x.queue[k])
    && (forall j :: 0 <= j < |x.started| ==> x.started[j] < |x.runs|)
  }

  ghost predicate Core(x: Executor) {
    WellFormed(x) && Ordered(x) && forall i :: 0 <= i < |x.runs| ==> Sound(x, i)
  }

  ghost predicate Inv(x: Executor) {
    && Core(x)
    && (x.closed || x.drain.Absent? ==> x.queue == [])
  }

  // ---------------------------------------------------------------- every step keeps it

  lemma SettleHead(x: Executor, outcome: Outcome)
    requires Core(x) && x.queue != [] && x.runs[x.queue[0]].aborted && outcome == Aborted
    ensures Core(Settle(x.(queue := x.queue[1..]), x.queue[0], outcome))
  {
    var r := Settle(x.(queue := x.queue[1..]), x.queue[0], outcome);
    forall i | 0 <= i < |r.runs| ensures Sound(r, i) {
      assert Sound(x, i);
    }
  }

  lemma StartHead(x: Executor)
    requires Core(x) && x.queue != [] && !x.drain.Executing? && !x.closed
    ensures var id := x.queue[0];
            Core(x.(queue := x.queue[1..], runs := x.runs[id := x.runs[id].(phase := Active)], drain := Executing(id),
                    started := x.started + [id]))
  {
    var id := x.queue[0];
    var r := x.(queue := x.queue[1..], runs := x.runs[id := x.runs[id].(phase := Active)], drain := Executing(id),
                started := x.started + [id]);
    assert Sound(x, id);
    forall i | 0 <= i < |r.runs| ensures Sound(r, i) {
      assert Sound(x, i);
      assert i in r.started <==> i in x.started || i == id;
    }
  }

  lemma {:induction false} DrainedInv(x: Executor)
    requires Core(x) && !x.drain.Executing? && (x.closed ==> x.queue == [])
    ensures Inv(Drained(x)) && !Drained(x).drain.Absent?
    ensures Drained(x).drain.Ending? ==> Drained(x).queue == []
    ensures Drained(x).closed == x.closed
    ensures |Drained(x).queue| <= |x.queue| && (Drained(x).drain.Executing? ==> |Drained(x).queue| < |x.queue|)
    decreases |x.queue|
  {
    if x.closed || x.queue == [] {
      forall i | 0 <= i < |x.runs| ensures Sound(Drained(x), i) {
        assert Sound(x, i);
      }
    } else {
      var id := x.queue[0];
      assert Sound(x, id);
      if x.runs[id].aborted {
        SettleHead(x, Aborted);
        DrainedInv(Settle(x.(queue := x.queue[1..]), id, Aborted));
      } else {
        StartHead(x);
      }
    }
  }

  lemma SubmitStep(x: Executor, aborted: bool)
    requires Inv(x)
    ensures Inv(Submitted(x, aborted))
  {
    var id := |x.runs|;
    if x.closed || aborted {
      var r := Submitted(x, aborted);
      forall i | 0 <= i < |r.runs| ensures Sound(r, i) {
        assert i < id ==> Sound(x, i);
      }
    } else {
      var r := x.(runs := x.runs + [Run(Queued, false, [])], queue := x.queue + [id]);
      forall i | 0 <= i < |r.runs| ensures Sound(r, i) {
        assert i < id ==> Sound(x, i);
      }
      if x.drain.Absent? {
        DrainedInv(r);
      }
    }
  }

  lemma ListenStep(x: Executor, id: nat)
    requires Inv(x) && id < |x.runs| && x.runs[id].aborted
    ensures Inv(Dropped(x, id))
  {
    if x.runs[id].phase == Queued {
      WithoutMeaning(x.queue, id);
      var r := Dropped(x, id);
      forall k | 0 <= k < |r.queue| ensures r.queue[k] in x.queue {
        assert r.queue[k] in r.queue;
      }
      assert Ordered(r);
      forall i | 0 <= i < |r.runs| ensures Sound(r, i) {
        assert Sound(x, i);
      }
    }
  }

  lemma CompleteStep(x: Executor)
    requires Inv(x) && x.drain.Executing?
    ensures Inv(Completed(x)) && !Completed(x).drain.Absent?
    ensures Completed(x).drain.Ending? ==> Completed(x).queue == []
    ensures |Completed(x).queue| <= |x.queue| && (Completed(x).drain.Executing? ==> |Completed(x).queue| < |x.queue|)
  {
    var r := Settle(x.(drain := Ending), x.drain.id, Executed);
    forall i | 0 <= i < |r.runs| ensures Sound(r, i) {
      assert Sound(x, i);
    }
    DrainedInv(r);
  }

  lemma RescheduleStep(x: Executor)
    requires Inv(x) && x.drain.Ending?
    ensures Inv(Rescheduled(x))
    ensures x.queue == [] ==> Rescheduled(x).drain.Absent?
    ensures x.queue != [] ==> |Rescheduled(x).queue| < |x.queue|
  {
    var r := x.(drain := Absent);
    forall i | 0 <= i < |r.runs| ensures Sound(r, i) {
      assert Sound(x, i);
    }
    if x.queue != [] {
      DrainedInv(r);
    }
  }

  lemma {:induction false} RejectedMeaning(runs: seq<Run>, queue: seq<nat>)
    requires forall i :: 0 <= i < |queue| ==> queue[i] < |runs|
    ensures var r := Rejected(runs, queue);
            forall i :: 0 <= i < |runs| ==>
              r[i] == if i in queue && runs[i].phase == Queued
                then runs[i].(phase := Settled, outcomes := runs[i].outcomes + [Refused]) else runs[i]
  {
    if queue != [] {
      var init := queue[..|queue| - 1];
      RejectedMeaning(runs, init);
      assert queue == init + [queue[|queue| - 1]];
    }
  }

  lemma CloseStep(x: Executor)
    requires Inv(x)
    ensures Inv(Closed(x))
  {
    RejectedMeaning(x.runs, x.queue);
    var r := Closed(x);
    forall i | 0 <= i < |r.runs| ensures Sound(r, i) {
      assert Sound(x, i);
    }
  }

  lemma AbortStep(x: Executor, id: nat)
    requires Inv(x) && id < |x.runs|
    ensures Inv(Do(x, Abort(id)))
  {
    var r := Do(x, Abort(id));
    forall i | 0 <= i < |r.runs| ensures Sound(r, i) {
      assert Sound(x, i);
    }
  }

  lemma {:induction false} ReachableInv(actions: seq<Action>, x: Executor)
    requires Reaches(actions, x)
    ensures Inv(x)
    decreases |actions|
  {
    if actions != [] {
      var a := actions[|actions| - 1];
      var before :| Reaches(actions[..|actions| - 1], before) && WellFormed(before) && Enabled(before, a)
        && x == Do(before, a);
      ReachableInv(actions[..|actions| - 1], before);
      match a {
        case Submit(aborted) => SubmitStep(before, aborted);
        case Abort(id) => AbortStep(before, id);
        case Listen(id) => ListenStep(before, id);
        case Complete => CompleteStep(before);
        case Reschedule => RescheduleStep(before);
        case Close => CloseStep(before);
      }
    }
  }

  // ---------------------------------------------------------------- the results

  /** In every run of the executor no run settles twice, an unsettled one is queued or active, and at most one is
      active. */
  lemma SettledOnce(actions: seq<Action>, x: Executor, i: nat, j: nat)
    requires Reaches(actions, x) && i < |x.runs| && j < |x.runs|
    ensures |x.runs[i].outcomes| == (if x.runs[i].phase == Settled then 1 else 0)
    ensures x.runs[i].phase == Queued <==> i in x.queue
    ensures x.runs[i].phase == Active && x.runs[j].phase == Active ==> i == j
  {
    ReachableInv(actions, x);
    assert Sound(x, i) && Sound(x, j);
  }

  /** A run that was started is settled as executed, and no other; one settled as aborted was aborted, and one that is
      refused found the executor closed. */
  lemma SettledByCause(actions: seq<Action>, x: Executor, i: nat)
    requires Reaches(actions, x) && i < |x.runs| && x.runs[i].phase == Settled
    ensures exists outcome :: x.runs[i].outcomes == [outcome]
    ensures x.runs[i].outcomes == [Executed] <==> i in x.started
    ensures x.runs[i].outcomes == [Aborted] ==> x.runs[i].aborted
    ensures x.runs[i].outcomes == [Refused] ==> x.closed
  {
    ReachableInv(actions, x);
    assert Sound(x, i);
    assert x.runs[i].outcomes == [x.runs[i].outcomes[0]];
  }

  /** Runs start in submission order, and one is overtaken only if it was aborted. */
  lemma StartedInOrder(actions: seq<Action>, x: Executor, j: nat, k: nat)
    requires Reaches(actions, x) && k < |x.started|
    ensures j < k ==> x.started[j] < x.started[k]
    ensures x.started[k] < |x.runs| && (j < x.started[k] && j !in x.started ==> x.runs[j].aborted)
  {
    ReachableInv(actions, x);
    if j < x.started[k] {
      assert Sound(x, j);
    }
  }

  /** No reachable state forgets a run: as long as one is unsettled, a drain is executing or about to reschedule. */
  lemma NoForgottenRun(actions: seq<Action>, x: Executor, i: nat)
    requires Reaches(actions, x) && i < |x.runs| && x.runs[i].phase != Settled
    ensures !x.drain.Absent? && (Enabled(x, Complete) || Enabled(x, Reschedule))
    ensures x.closed ==> x.drain == Executing(i)
  {
    ReachableInv(actions, x);
    assert Sound(x, i);
  }

  /** The drain's own steps, `n` of them, each execution having ended. */
  function Driven(x: Executor, n: nat): (r: Executor)
    requires WellFormed(x)
    ensures WellFormed(r)
    decreases n
  {
    if n == 0 then x
    else if x.drain.Executing? then Driven(Do(x, Complete), n - 1)
    else if x.drain.Ending? then Driven(Do(x, Reschedule), n - 1)
    else x
  }

  /** How many such steps are left. */
  function Remaining(x: Executor): nat {
    2 * |x.queue| + match x.drain { case Absent => 0 case Ending => 1 case Executing(_) => 2 }
  }

  lemma {:induction false} DrivenSettles(x: Executor, n: nat)
    requires Inv(x) && n >= Remaining(x)
    ensures Inv(Driven(x, n)) && Driven(x, n).drain.Absent?
    decreases n
  {
    if x.drain.Executing? {
      CompleteStep(x);
      DrivenSettles(Completed(x), n - 1);
    } else if x.drain.Ending? {
      RescheduleStep(x);
      DrivenSettles(Rescheduled(x), n - 1);
    }
  }

  /** Without further calls, as long as executions end, everything submitted is settled after finitely many steps. */
  lemma EverythingSettles(actions: seq<Action>, x: Executor)
    requires Reaches(actions, x) && WellFormed(x)
    ensures var r := Driven(x, Remaining(x));
            forall i :: 0 <= i < |r.runs| ==> r.runs[i].phase == Settled && |r.runs[i].outcomes| == 1
  {
    ReachableInv(actions, x);
    var r := Driven(x, Remaining(x));
    DrivenSettles(x, Remaining(x));
    forall i | 0 <= i < |r.runs| ensures r.runs[i].phase == Settled && |r.runs[i].outcomes| == 1 {
      assert Sound(r, i);
    }
  }

  // ---------------------------------------------------------------- the history of a run

  /** How many runs were submitted. */
  function Submissions(actions: seq<Action>): (r: nat) {
    if actions == [] then 0
    else Submissions(actions[..|actions| - 1]) + if actions[|actions| - 1].Submit? then 1 else 0
  }

  /** Run `id` was submitted with its signal raised, or it was raised later. */
  ghost predicate WasAborted(actions: seq<Action>, id: nat) {
    exists k ::
      && 0 <= k < |actions|
      && (actions[k] == Abort(id) || (actions[k] == Submit(true) && Submissions(actions[..k]) == id))
  }

  lemma WasAbortedStep(actions: seq<Action>, id: nat)
    requires actions != []
    ensures var last := |actions| - 1;
            WasAborted(actions, id) <==>
              || WasAborted(actions[..last], id) || actions[last] == Abort(id)
              || (actions[last] == Submit(true) && Submissions(actions[..last]) == id)
  {
    var front := actions[..|actions| - 1];
    assert forall k :: 0 <= k < |front| ==> front[k] == actions[k] && front[..k] == actions[..k];
  }

  /** `runs` are those of `before`, some of them settled or started since. */
  predicate SameSignals(before: seq<Run>, runs: seq<Run>) {
    |runs| == |before| && forall i :: 0 <= i < |runs| ==> runs[i].aborted == before[i].aborted
  }

  lemma {:induction false} DrainedSignals(x: Executor)
    requires WellFormed(x)
    ensures SameSignals(x.runs, Drained(x).runs) && Drained(x).closed == x.closed
    decreases |x.queue|
  {
    if !x.closed && x.queue != [] {
      var id, rest := x.queue[0], x.(queue := x.queue[1..]);
      if x.runs[id].phase != Queued {
        DrainedSignals(rest);
      } else if x.runs[id].aborted {
        DrainedSignals(Settle(rest, id, Aborted));
      }
    }
  }

  lemma SignalsStep(x: Executor, a: Action)
    requires WellFormed(x) && Enabled(x, a)
    ensures var r := Do(x, a);
            && |r.runs| == |x.runs| + (if a.Submit? then 1 else 0)
            && (r.closed <==> x.closed || a.Close?)
            && (forall i :: 0 <= i < |x.runs| ==> (r.runs[i].aborted <==> x.runs[i].aborted || a == Abort(i)))
            && (a.Submit? ==> r.runs[|x.runs|].aborted == a.aborted)
  {
    match a
    case Submit(aborted) =>
      DrainedSignals(x.(runs := x.runs + [Run(Queued, false, [])], queue := x.queue + [|x.runs|]));
    case Complete => DrainedSignals(Settle(x.(drain := Ending), x.drain.id, Executed));
    case Reschedule => DrainedSignals(x.(drain := Absent));
    case Close => RejectedMeaning(x.runs, x.queue);
    case _ =>
  }

  /** There is one run for each submission, with its own signal, and the executor is closed once close() was called. */
  lemma {:induction false} RunsAreSubmissions(actions: seq<Action>, x: Executor)
    requires Reaches(actions, x)
    ensures |x.runs| == Submissions(actions)
    ensures x.closed <==> Close in actions
    ensures forall i :: 0 <= i < |x.runs| ==> (x.runs[i].aborted <==> WasAborted(actions, i))
    decreases |actions|
  {
    if actions != [] {
      var front, a := actions[..|actions| - 1], actions[|actions| - 1];
      var before :| Reaches(front, before) && WellFormed(before) && Enabled(before, a) && x == Do(before, a);
      RunsAreSubmissions(front, before);
      SignalsStep(before, a);
      assert actions == front + [a];
      forall i | 0 <= i < |x.runs| ensures x.runs[i].aborted <==> WasAborted(actions, i) {
        WasAbortedStep(actions, i);
        if i == |before.runs| {
          NotAbortedYet(front, before);
        }
      }
    }
  }

  lemma {:induction false} NotAbortedYet(actions: seq<Action>, x: Executor)
    requires Reaches(actions, x)
    ensures |x.runs| == Submissions(actions) && forall i :: |x.runs| <= i ==> !WasAborted(actions, i)
    decreases |actions|
  {
    if actions != [] {
      var front, a := actions[..|actions| - 1], actions[|actions| - 1];
      var before :| Reaches(front, before) && WellFormed(before) && Enabled(before, a) && x == Do(before, a);
      NotAbortedYet(front, before);
      SignalsStep(before, a);
      forall i | |x.runs| <= i ensures !WasAborted(actions, i) {
        WasAbortedStep(actions, i);
      }
    }
  }

  /** The listener of an aborted run takes it out of the queue and settles it, and no other. */
  lemma ListenSettles(actions: seq<Action>, x: Executor, id: nat)
    requires Reaches(actions, x) && Enabled(x, Listen(id)) && WellFormed(x)
    ensures var r := Do(x, Listen(id));
            && r.runs[id].phase != Queued && id !in r.queue
            && (x.runs[id].phase == Queued ==> r.runs[id].outcomes == [Aborted])
            && forall i :: 0 <= i < |x.runs| && (i != id || x.runs[id].phase != Queued) ==> r.runs[i] == x.runs[i]
  {
    ReachableInv(actions, x);
    ListenStep(x, id);
    assert Sound(x, id) && Sound(Do(x, Listen(id)), id);
  }

  /** close() refuses what is queued and touches nothing else. */
  lemma CloseRefuses(actions: seq<Action>, x: Executor, i: nat)
    requires Reaches(actions, x) && WellFormed(x) && i < |x.runs|
    ensures var r := Do(x, Close);
            && r.queue == [] && r.drain == x.drain && |r.runs| == |x.runs|
            && (if x.runs[i].phase == Queued then r.runs[i].phase == Settled && r.runs[i].outcomes == [Refused]
                else r.runs[i] == x.runs[i])
  {
    ReachableInv(actions, x);
    RejectedMeaning(x.runs, x.queue);
    assert Sound(x, i);
  }

  // ---------------------------------------------------------------- the executor itself

  /** The executor's fields; each method is the code between two awaits. */
  class SharedExecutor {
    var runs: seq<Run>
    var queue: seq<nat>
    var drain: Drain
    var closed: bool
    ghost var started: seq<nat>

    ghost function View(): (x: Executor) reads this {
      Executor(runs, queue, drain, closed, started)
    }

    constructor ()
      ensures View() == NEW
    {
      runs, queue, drain, closed, started := [], [], Absent, false, [];
    }

    method DrainQueue()
      requires WellFormed(View())
      modifies this
      ensures View() == Drained(old(View()))
    {
      while !closed
        invariant WellFormed(View())
        invariant Drained(View()) == Drained(old(View()))
        decreases |queue|
      {
        if queue == [] {
          break;
        }
        var id := queue[0];
        queue := queue[1..];
        if runs[id].phase == Queued {
          if !runs[id].aborted {
            runs := runs[id := runs[id].(phase := Active)];
            started := started + [id];
            drain := Executing(id);
            return;
          }
          runs := runs[id := runs[id].(phase := Settled, outcomes := runs[id].outcomes + [Aborted])];
        }
      }
      drain := Ending;
    }

    method EnsureDrain()
      requires WellFormed(View())
      modifies this
      ensures View() == Ensured(old(View()))
    {
      if drain.Absent? {
        DrainQueue();
      }
    }

    method Submit(aborted: bool)
      requires WellFormed(View())
      modifies this
      ensures View() == Submitted(old(View()), aborted)
    {
      if closed {
        runs := runs + [Run(Settled, aborted, [Refused])];
      } else if aborted {
        runs := runs + [Run(Settled, true, [Aborted])];
      } else {
        queue := queue + [|runs|];
        runs := runs + [Run(Queued, false, [])];
        EnsureDrain();
      }
    }

    method OnQueuedAbort(id: nat)
      requires id < |runs|
      modifies this
      ensures View() == Dropped(old(View()), id)
    {
      if runs[id].phase == Queued {
        queue := Without(queue, id);
        runs := runs[id := runs[id].(phase := Settled, outcomes := runs[id].outcomes + [Aborted])];
      }
    }

    method ExecutionEnded()
      requires WellFormed(View()) && drain.Executing?
      modifies this
      ensures View() == Completed(old(View()))
    {
      var id := drain.id;
      drain := Ending;
      runs := runs[id := runs[id].(phase := Settled, outcomes := runs[id].outcomes + [Executed])];
      DrainQueue();
    }

    method DrainEnded()
      requires WellFormed(View())
      modifies this
      ensures View() == Rescheduled(old(View()))
    {
      drain := Absent;
      if !closed && |queue| > 0 {
        EnsureDrain();
      }
    }

    method CloseNow()
      requires WellFormed(View())
      modifies this
      ensures View() == Closed(old(View()))
    {
      closed := true;
      var spliced := queue;
      queue := [];
      for i := 0 to |spliced|
        invariant closed && queue == [] && drain == old(drain) && started == old(started)
        invariant spliced == old(queue) && |runs| == |old(runs)|
        invariant runs == Rejected(old(runs), spliced[..i])
      {
        var id := spliced[i];
        assert spliced[..i + 1][..i] == spliced[..i];
        if runs[id].phase == Queued {
          runs := runs[id := runs[id].(phase := Settled, outcomes := runs[id].outcomes + [Refused])];
        }
      }
      assert spliced[..|spliced|] == spliced;
    }
  }
}
