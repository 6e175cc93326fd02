/** The group scheduler (src/mcp/groups.ts) when things go wrong: every cycle ends whatever is lost, an ambiguous start
    keeps its slot and is never retried, scripts are not kept, and cancel() is final. */
module GroupsCycles {
  import opened Groups
  import opened GroupsProgress

  // ---------------------------------------------------------------- every cycle ends, whatever is lost or cancelled

  function Distance(m: Member): nat {
    match m.place
    case Nowhere => 0
    case Flying => 1
    case Connecting => 2
    case Planned => 3
  }

  /** What is left of the cycle under way. */
  function Left(b: Batch): (r: nat) {
    match b.work
    case Idle => 0
    case Dispatching => 1 + Sum(Distance, b.members)
    case Refreshing(next) =>
      2 + 3 * |b.members| + (if next < |b.members| then 2 * (|b.members| - next) else 0) + Asking(b.members)
  }

  /** An event of the dispatch or of the refresh itself. */
  predicate OfCycle(e: Event) {
    e.Answer? || e.Take? || e.Connect? || e.ConnectFails? || e.Accepted? || e.Rejected? || e.Lost?
  }

  lemma EventLowers(m: Member, e: Event, cancelling: bool)
    requires Possible(m, e, cancelling)
    ensures var r := After(m, e, cancelling);
            && Distance(r) <= Distance(m) && IsAsked(r) <= IsAsked(m)
            && (OfCycle(e) && !e.Answer? ==> Distance(r) < Distance(m)) && (e.Answer? ==> IsAsked(r) < IsAsked(m))
  {
  }

  lemma EventShrinks(b: Batch, i: nat, e: Event, concurrency: nat)
    requires Inv(b, concurrency) && Enabled(b, On(i, e))
    ensures var b' := Do(b, On(i, e), concurrency);
            Left(b') <= Left(b) && (OfCycle(e) ==> Left(b') < Left(b))
  {
    var m := After(b.members[i], e, b.cancelling);
    assert Sound(b.members[i], b.cancelling, b.work);
    EventLowers(b.members[i], e, b.cancelling);
    SumUpdate(Distance, b.members, i, m);
    SumUpdate(IsAsked, b.members, i, m);
  }

  /** Every step of a cycle brings it nearer its end, and nothing else delays it. */
  lemma CycleShrinks(b: Batch, a: Action, concurrency: nat)
    requires Inv(b, concurrency) && Enabled(b, a) && !a.Cycle?
    ensures var b' := Do(b, a, concurrency);
            && Left(b') <= Left(b)
            && (a.Visit? || a.Plan? || a.Settle? || (a.On? && OfCycle(a.event)) ==> Left(b') < Left(b))
  {
    match a
    case On(i, e) => EventShrinks(b, i, e, concurrency);
    case Visit => SumUpdate(IsAsked, b.members, b.work.next, Asked(b.members[b.work.next]));
    case Plan => SumBound(Distance, Do(b, a, concurrency).members, 3);
    case Settle =>
    case _ => CancelDelaysNothing(b, a, concurrency);
  }

  lemma CancelDelaysNothing(b: Batch, a: Action, concurrency: nat)
    requires Enabled(b, a) && (a.Cancel? || a.Forget?)
    ensures Left(Do(b, a, concurrency)) <= Left(b)
  {
    var b' := Do(b, a, concurrency);
    SumFalls(Distance, b.members, b'.members);
    SumFalls(IsAsked, b.members, b'.members);
  }

  /** A cycle is never stuck: one of its steps can be taken. */
  lemma CycleGoesOn(enabled: seq<bool>, concurrency: nat, actions: seq<Action>, b: Batch) returns (a: Action)
    requires Reaches(enabled, concurrency, actions, b) && !b.work.Idle?
    ensures Enabled(b, a) && Left(Do(b, a, concurrency)) < Left(b)
  {
    ReachableInv(enabled, concurrency, actions, b);
    if i :| 0 <= i < |b.members| && b.members[i].place != Nowhere {
      var m := b.members[i];
      a := On(i, if m.place == Planned then Take else if m.place == Connecting then Connect else Lost);
    } else if b.work.Dispatching? {
      a := Settle;
    } else if b.work.next < |b.members| {
      a := Visit;
    } else if i :| 0 <= i < |b.members| && b.members[i].asked {
      a := On(i, Answer(Unknown));
    } else {
      a := Plan;
    }
    CycleShrinks(b, a, concurrency);
  }

  // ---------------------------------------------------------------- ambiguous starts, scripts and cancellation

  /** From `b` to `b'` by any actions. */
  ghost predicate Leads(b: Batch, concurrency: nat, actions: seq<Action>, b': Batch) {
    if actions == [] then b' == b
    else
      var a := actions[|actions| - 1];
      exists before :: Leads(b, concurrency, actions[..|actions| - 1], before) && Enabled(before, a)
        && b' == Do(before, a, concurrency)
  }

  lemma {:induction false} LeadsReaches(enabled: seq<bool>, concurrency: nat, run: seq<Action>, b: Batch,
                                        actions: seq<Action>, b': Batch)
    requires Reaches(enabled, concurrency, run, b) && Leads(b, concurrency, actions, b')
    ensures Reaches(enabled, concurrency, run + actions, b')
    decreases |actions|
  {
    if actions == [] {
      assert run + actions == run;
    } else {
      var front, a := actions[..|actions| - 1], actions[|actions| - 1];
      var before :| Leads(b, concurrency, front, before) && Enabled(before, a) && b' == Do(before, a, concurrency);
      LeadsReaches(enabled, concurrency, run, b, front, before);
      assert run + actions == run + front + [a];
      ReachesThen(enabled, concurrency, run + front, before, a);
    }
  }

  /** What became of the start is unknown, and there is no run to ask about. */
  predicate Ambiguous(m: Member) {
    m.view == Unknown && !m.known && m.place == Nowhere
  }

  lemma AmbiguousStep(b: Batch, a: Action, concurrency: nat, i: nat)
    requires Inv(b, concurrency) && Enabled(b, a) && i < |b.members|
    ensures var b' := Do(b, a, concurrency);
            && |b'.members| == |b.members|
            && (a == On(i, Lost) || a == On(i, ConnectFails) ==> Ambiguous(b'.members[i]))
            && (Ambiguous(b.members[i]) ==> Ambiguous(b'.members[i]) && b'.members[i].sent == b.members[i].sent)
  {
    assert Sound(b.members[i], b.cancelling, b.work);
    if a.Plan? {
      NextMeaning(b.members, concurrency);
    }
  }

  /** A start whose answer is lost, or that could not be sent for sure, is never tried again and keeps its slot for
      good. */
  lemma {:induction false} AmbiguousForGood(enabled: seq<bool>, concurrency: nat, run: seq<Action>, b: Batch,
                                            actions: seq<Action>, b': Batch, i: nat)
    requires Reaches(enabled, concurrency, run, b) && Leads(b, concurrency, actions, b')
    requires i < |b.members| && Ambiguous(b.members[i])
    ensures |b'.members| == |b.members| && Ambiguous(b'.members[i]) && b'.members[i].sent == b.members[i].sent
    ensures Reserves(b'.members[i])
    decreases |actions|
  {
    if actions != [] {
      var front, a := actions[..|actions| - 1], actions[|actions| - 1];
      var before :| Leads(b, concurrency, front, before) && Enabled(before, a) && b' == Do(before, a, concurrency);
      AmbiguousForGood(enabled, concurrency, run, b, front, before, i);
      LeadsReaches(enabled, concurrency, run, b, front, before);
      ReachableInv(enabled, concurrency, run + front, before);
      AmbiguousStep(before, a, concurrency, i);
    }
  }

  /** A script is kept only for a start that may still need it: once the start has been answered, lost or refused it is
      gone, and after cancel() has dropped the rest there is none. */
  lemma ScriptsDropped(enabled: seq<bool>, concurrency: nat, actions: seq<Action>, b: Batch, i: nat)
    requires Reaches(enabled, concurrency, actions, b) && i < |b.members|
    ensures b.members[i].command && b.members[i].place == Nowhere ==> b.members[i].sent == 0
    ensures b.members[i].command && b.members[i].place == Nowhere && !b.cancelling ==> b.members[i].view == Queued
    ensures Enabled(b, Forget) ==> !Do(b, Forget, concurrency).members[i].command
  {
    ReachableInv(enabled, concurrency, actions, b);
    assert Sound(b.members[i], b.cancelling, b.work);
  }

  /** Not sent, and on no way to be sent. */
  predicate Withheld(m: Member) {
    m.sent == 0 && (m.place == Nowhere || m.place == Planned)
  }

  lemma CancelledStep(b: Batch, a: Action, concurrency: nat, i: nat)
    requires Inv(b, concurrency) && Enabled(b, a) && i < |b.members| && b.cancelling
    ensures var b' := Do(b, a, concurrency);
            && b'.cancelling && |b'.members| == |b.members|
            && (Withheld(b.members[i]) ==> Withheld(b'.members[i]))
  {
    assert Sound(b.members[i], b.cancelling, b.work);
  }

  /** cancel() is final: from then on nothing is queued, and what had not begun to be sent never is. */
  lemma {:induction false} CancelIsFinal(enabled: seq<bool>, concurrency: nat, run: seq<Action>, b: Batch,
                                         actions: seq<Action>, b': Batch, i: nat)
    requires Reaches(enabled, concurrency, run, b) && i < |b.members|
    requires Enabled(b, Cancel) && Leads(Do(b, Cancel, concurrency), concurrency, actions, b')
    ensures b'.cancelling && |b'.members| == |b.members| && b'.members[i].view != Queued
    ensures Withheld(b.members[i]) ==> b'.members[i].sent == 0
    ensures Withheld(b.members[i]) ==> Withheld(b'.members[i])
    decreases |actions|
  {
    var cancelled := Do(b, Cancel, concurrency);
    ReachesThen(enabled, concurrency, run, b, Cancel);
    LeadsReaches(enabled, concurrency, run + [Cancel], cancelled, actions, b');
    ReachableInv(enabled, concurrency, run + [Cancel] + actions, b');
    if actions != [] {
      var front, a := actions[..|actions| - 1], actions[|actions| - 1];
      var before :| Leads(cancelled, concurrency, front, before) && Enabled(before, a)
        && b' == Do(before, a, concurrency);
      CancelIsFinal(enabled, concurrency, run, b, front, before, i);
      LeadsReaches(enabled, concurrency, run + [Cancel], cancelled, front, before);
      ReachableInv(enabled, concurrency, run + [Cancel] + front, before);
      CancelledStep(before, a, concurrency, i);
    }
    assert Sound(b'.members[i], b'.cancelling, b'.work);
  }

  /** cancel() can always be called, and asks about each known member that is not recorded as ended; the answer that its
      task is over is recorded. */
  lemma StopIsRecorded(b: Batch, concurrency: nat, i: nat)
    requires i < |b.members|
    ensures Enabled(b, Cancel)
    ensures b.cancelling && b.members[i].known && b.members[i].view != Ended ==>
              && Enabled(b, On(i, AskStop))
              && var asked := Do(b, On(i, AskStop), concurrency);
                 b.members[i].wire == Finished ==>
                   && Enabled(asked, On(i, Stopped(Ended)))
                   && Do(asked, On(i, Stopped(Ended)), concurrency).members[i].view == Ended
  {
  }
}
