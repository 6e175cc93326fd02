/** Progress of the group scheduler (src/mcp/groups.ts): what a refresh records, and that a batch whose tasks end and
    whose answers arrive runs every enabled member once and comes to an end. */
module GroupsProgress {
  import opened Groups

  // ---------------------------------------------------------------- what a refresh records

  /** The daemon tells the truth about a task: it reports a final state exactly if the task has ended. */
  predicate Truthful(b: Batch, a: Action) {
    a.On? && a.i < |b.members| && (a.event.Answer? || a.event.Stopped?) ==>
      (a.event.view == Ended <==> b.members[a.i].wire == Finished)
  }

  /** From `b` to `b'` by truthful actions of one refresh. */
  ghost predicate Refresh(b: Batch, concurrency: nat, actions: seq<Action>, b': Batch) {
    if actions == [] then b' == b
    else
      var a := actions[|actions| - 1];
      exists before ::
        && Refresh(b, concurrency, actions[..|actions| - 1], before)
        && Enabled(before, a) && Truthful(before, a) && (a.Visit? || a.On? || a.Cancel?)
        && b' == Do(before, a, concurrency)
  }

  /** The member's task had ended when the refresh began. */
  predicate HadEnded(b: Batch, i: nat) {
    i < |b.members| && b.members[i].known && b.members[i].wire == Finished
  }

  /** Members already visited are recorded as ended or being asked about. */
  ghost predicate Recording(b: Batch, now: Batch) {
    && |now.members| == |b.members| && now.work.Refreshing?
    && forall i: nat :: HadEnded(b, i) ==>
         && HadEnded(now, i)
         && (i < now.work.next ==> now.members[i].view == Ended || now.members[i].asked)
  }

  lemma RecordingStep(b: Batch, now: Batch, a: Action, concurrency: nat)
    requires Recording(b, now) && Inv(now, concurrency) && Enabled(now, a) && Truthful(now, a)
    requires a.Visit? || a.On? || a.Cancel?
    ensures Recording(b, Do(now, a, concurrency))
  {
    var r := Do(now, a, concurrency);
    forall i: nat | HadEnded(b, i)
      ensures HadEnded(r, i) && (i < r.work.next ==> r.members[i].view == Ended || r.members[i].asked)
    {
      assert HadEnded(now, i) && Sound(now.members[i], now.cancelling, now.work);
    }
  }

  lemma {:induction false} RefreshReaches(enabled: seq<bool>, concurrency: nat, run: seq<Action>, b: Batch,
                                          actions: seq<Action>, b': Batch)
    requires Reaches(enabled, concurrency, run, b) && Refresh(b, concurrency, actions, b')
    ensures Reaches(enabled, concurrency, run + actions, b')
    decreases |actions|
  {
    if actions == [] {
      assert run + actions == run;
    } else {
      var front, a := actions[..|actions| - 1], actions[|actions| - 1];
      var before :|
        && Refresh(b, concurrency, front, before)
        && Enabled(before, a) && Truthful(before, a) && (a.Visit? || a.On? || a.Cancel?)
        && b' == Do(before, a, concurrency);
      RefreshReaches(enabled, concurrency, run, b, front, before);
      assert run + actions == run + front + [a];
      ReachesThen(enabled, concurrency, run + front, before, a);
    }
  }

  lemma {:induction false} RefreshRuns(enabled: seq<bool>, concurrency: nat, run: seq<Action>, b: Batch,
                                       actions: seq<Action>, b': Batch)
    requires Reaches(enabled, concurrency, run, b) && Refresh(b, concurrency, actions, b')
    requires b.work == Refreshing(0)
    ensures Recording(b, b')
    decreases |actions|
  {
    if actions != [] {
      var front, a := actions[..|actions| - 1], actions[|actions| - 1];
      var before :|
        && Refresh(b, concurrency, front, before)
        && Enabled(before, a) && Truthful(before, a) && (a.Visit? || a.On? || a.Cancel?)
        && b' == Do(before, a, concurrency);
      RefreshRuns(enabled, concurrency, run, b, front, before);
      RefreshReaches(enabled, concurrency, run, b, front, before);
      ReachableInv(enabled, concurrency, run + front, before);
      RecordingStep(b, before, a, concurrency);
    }
  }

  lemma ReachesThen(enabled: seq<bool>, concurrency: nat, run: seq<Action>, b: Batch, a: Action)
    requires Reaches(enabled, concurrency, run, b) && Enabled(b, a)
    ensures Reaches(enabled, concurrency, run + [a], Do(b, a, concurrency))
  {
    var all := run + [a];
    assert all[..|all| - 1] == run && all[|all| - 1] == a;
  }

  /** When a refresh whose requests were all answered truthfully is over, every known member whose task had ended before
      it is recorded as ended, also if the batch is cancelled meanwhile. */
  lemma RefreshRecords(enabled: seq<bool>, concurrency: nat, run: seq<Action>, b: Batch, actions: seq<Action>,
                       b': Batch)
    requires Reaches(enabled, concurrency, run, b) && b.work == Refreshing(0)
    requires Refresh(b, concurrency, actions, b') && Enabled(b', Plan)
    ensures |b'.members| == |b.members|
    ensures forall i :: 0 <= i < |b.members| && b.members[i].known && b.members[i].wire == Finished ==>
              b'.members[i].view == Ended
  {
    RefreshRuns(enabled, concurrency, run, b, actions, b');
    forall i | 0 <= i < |b.members| && b.members[i].known && b.members[i].wire == Finished
      ensures b'.members[i].view == Ended
    {
      assert HadEnded(b, i);
    }
  }

  // ---------------------------------------------------------------- good runs

  /** Nothing is lost or cancelled, and the daemon tells the truth. */
  predicate Good(b: Batch, a: Action) {
    && !a.Cancel? && !a.Forget?
    && (a.On? && a.i < |b.members| ==>
          && !a.event.ConnectFails? && !a.event.Lost? && !a.event.Drop?
          && (a.event.Answer? ==> a.event.view == if b.members[a.i].wire == Finished then Ended else Live))
  }

  predicate AllEnded(b: Batch) {
    forall i :: 0 <= i < |b.members| ==> b.members[i].view == Ended
  }

  predicate AtRest(m: Member) {
    m.wire != Transit && m.wire != Running
  }

  /** A cycle that starts with something left to do and no task running or on its way. */
  predicate Counts(b: Batch, a: Action) {
    a.Cycle? && !AllEnded(b) && forall i :: 0 <= i < |b.members| ==> AtRest(b.members[i])
  }

  /** A batch, and how many of those cycles its run has had. */
  datatype Progress = Progress(batch: Batch, cycles: nat)

  function Next(s: Progress, a: Action, concurrency: nat): (r: Progress)
    requires Enabled(s.batch, a)
  {
    Progress(Do(s.batch, a, concurrency), s.cycles + if Counts(s.batch, a) then 1 else 0)
  }

  /** A run of good actions. */
  ghost predicate GoodRun(enabled: seq<bool>, concurrency: nat, actions: seq<Action>, s: Progress) {
    if actions == [] then s == Progress(Start(enabled), 0)
    else
      var a := actions[|actions| - 1];
      exists before ::
        && GoodRun(enabled, concurrency, actions[..|actions| - 1], before)
        && Enabled(before.batch, a) && Good(before.batch, a) && s == Next(before, a, concurrency)
  }

  /** Where a member can be in a good run. */
  predicate Fine(m: Member, enabled: bool) {
    && (m.asked ==> m.view == Live) && !m.stopping
    && match m.view {
         case Queued =>
           && enabled && !m.known
           && (if m.place == Flying then m.wire != Unsent && m.wire != Dropped && m.sent == 1
               else m.wire == Unsent && m.sent == 0)
         case Live =>
           enabled && m.known && m.place == Nowhere && (m.wire == Running || m.wire == Finished) && m.sent == 1
         case Unknown => false
         case Ended =>
           && m.place == Nowhere
           && (if enabled then (m.wire == Finished || m.wire == Refused) && m.sent == 1
               else m.wire == Unsent && m.sent == 0)
       }
  }

  /** How many steps the member is from its end, status requests aside. */
  function Rank(m: Member): (r: nat)
    ensures r <= 8
  {
    if m.view == Ended then 0
    else
      (if m.view != Queued then 1
       else match m.place
            case Nowhere => 5
            case Planned => 4
            case Connecting => 3
            case Flying => 2)
      + (match m.wire
         case Unsent => 3
         case Transit => 2
         case Running => 1
         case _ => 0)
  }

  function Sum(f: Member -> nat, members: seq<Member>): (r: nat) {
    if members == [] then 0 else Sum(f, members[..|members| - 1]) + f(members[|members| - 1])
  }

  function Ranks(members: seq<Member>): (r: nat) {
    Sum(Rank, members)
  }

  lemma {:induction false} SumFalls(f: Member -> nat, a: seq<Member>, b: seq<Member>)
    requires |a| == |b| && forall i :: 0 <= i < |a| ==> f(b[i]) <= f(a[i])
    ensures Sum(f, b) <= Sum(f, a)
    ensures (exists i :: 0 <= i < |a| && f(b[i]) < f(a[i])) ==> Sum(f, b) < Sum(f, a)
  {
    if a != [] {
      var n := |a| - 1;
      SumFalls(f, a[..n], b[..n]);
      if i :| 0 <= i < |a| && f(b[i]) < f(a[i]) && i < n {
        assert f(b[..n][i]) < f(a[..n][i]);
      }
    }
  }

  lemma {:induction false} SumAtMost(f: Member -> nat, members: seq<Member>, max: nat)
    requires forall i :: 0 <= i < |members| ==> f(members[i]) <= max
    ensures Sum(f, members) <= max * |members|
  {
    if members != [] {
      SumAtMost(f, members[..|members| - 1], max);
    }
  }

  lemma {:induction false} SumZero(f: Member -> nat, members: seq<Member>)
    ensures Sum(f, members) == 0 <==> forall i :: 0 <= i < |members| ==> f(members[i]) == 0
  {
    if members != [] {
      var n := |members| - 1;
      SumZero(f, members[..n]);
      assert forall i :: 0 <= i < n ==> members[..n][i] == members[i];
      if Sum(f, members) == 0 {
        forall i | 0 <= i < |members| ensures f(members[i]) == 0 {
          assert i < n ==> f(members[..n][i]) == 0;
        }
      }
    }
  }

  lemma SumBound(f: Member -> nat, members: seq<Member>, max: nat)
    requires forall i :: 0 <= i < |members| ==> f(members[i]) <= max
    ensures Sum(f, members) <= max * |members|
    ensures Sum(f, members) == 0 <==> forall i :: 0 <= i < |members| ==> f(members[i]) == 0
  {
    SumAtMost(f, members, max);
    SumZero(f, members);
  }

  lemma RanksFall(a: seq<Member>, b: seq<Member>)
    requires |a| == |b| && forall i :: 0 <= i < |a| ==> Rank(b[i]) <= Rank(a[i])
    ensures Ranks(b) <= Ranks(a)
    ensures (exists i :: 0 <= i < |a| && Rank(b[i]) < Rank(a[i])) ==> Ranks(b) < Ranks(a)
  {
    SumFalls(Rank, a, b);
  }

  lemma RanksBound(members: seq<Member>)
    ensures Ranks(members) <= 8 * |members|
    ensures Ranks(members) == 0 <==> forall i :: 0 <= i < |members| ==> Rank(members[i]) == 0
  {
    SumBound(Rank, members, 8);
  }

  ghost predicate AllFine(b: Batch, enabled: seq<bool>) {
    && |b.members| == |enabled| && !b.cancelling
    && forall i :: 0 <= i < |enabled| ==> Fine(b.members[i], enabled[i])
  }

  lemma EventFine(m: Member, e: Event, enabled: bool)
    requires Fine(m, enabled) && Possible(m, e, false)
    requires !e.ConnectFails? && !e.Lost? && !e.Drop?
    requires e.Answer? ==> e.view == if m.wire == Finished then Ended else Live
    ensures var r := After(m, e, false);
            && Fine(r, enabled) && Rank(r) <= Rank(m)
            && (!e.Answer? || m.wire == Finished ==> Rank(r) < Rank(m))
            && (e.Answer? ==> m.asked && !r.asked) && (!e.Answer? ==> r.asked == m.asked)
  {
  }

  lemma EventStepFine(b: Batch, i: nat, e: Event, concurrency: nat, enabled: seq<bool>)
    requires AllFine(b, enabled) && Enabled(b, On(i, e)) && Good(b, On(i, e))
    ensures var b' := Do(b, On(i, e), concurrency);
            && AllFine(b', enabled) && Ranks(b'.members) <= Ranks(b.members)
            && (!e.Answer? || b.members[i].wire == Finished ==> Ranks(b'.members) < Ranks(b.members))
  {
    var b' := Do(b, On(i, e), concurrency);
    EventFine(b.members[i], e, enabled[i]);
    assert !e.Answer? || b.members[i].wire == Finished ==> Rank(b'.members[i]) < Rank(b.members[i]);
    RanksFall(b.members, b'.members);
  }

  /** A plan only changes places, of queued members. */
  lemma PlanFine(b: Batch, concurrency: nat, enabled: seq<bool>)
    requires AllFine(b, enabled) && Inv(b, concurrency) && Enabled(b, Plan)
    ensures var b', next := Do(b, Plan, concurrency), Groups.Next(b.members, concurrency);
            && AllFine(b', enabled)
            && forall i :: 0 <= i < |b.members| ==>
                 && Rank(b'.members[i]) <= Rank(b.members[i])
                 && (i in next ==> Rank(b'.members[i]) < Rank(b.members[i]))
  {
    NextMeaning(b.members, concurrency);
    forall i | 0 <= i < |b.members| ensures Fine(b.members[i], enabled[i]) && b.members[i].place == Nowhere {
      assert Sound(b.members[i], false, b.work);
    }
  }

  lemma StepFine(b: Batch, a: Action, concurrency: nat, enabled: seq<bool>)
    requires AllFine(b, enabled) && Enabled(b, a) && Good(b, a) && Inv(b, concurrency)
    ensures AllFine(Do(b, a, concurrency), enabled)
    ensures Ranks(Do(b, a, concurrency).members) <= Ranks(b.members)
    ensures a.On? && (!a.event.Answer? || b.members[a.i].wire == Finished) ==>
              Ranks(Do(b, a, concurrency).members) < Ranks(b.members)
  {
    var b' := Do(b, a, concurrency);
    if a.On? {
      EventStepFine(b, a.i, a.event, concurrency, enabled);
    } else {
      if a.Plan? {
        PlanFine(b, concurrency, enabled);
      }
      RanksFall(b.members, b'.members);
    }
  }

  // ---------------------------------------------------------------- every counted cycle makes progress

  /** The rank is below `r`, or a counted cycle is under way that has not lowered it yet: then every member is at rest,
      and those already visited whose tasks have ended are being asked about. */
  ghost predicate Owes(b: Batch, r: int) {
    || Ranks(b.members) < r
    || (&& Ranks(b.members) == r && b.work.Refreshing? && !AllEnded(b)
        && (forall i :: 0 <= i < |b.members| ==> AtRest(b.members[i]))
        && (forall i :: 0 <= i < b.work.next && i < |b.members| && b.members[i].view == Live ==> b.members[i].asked))
  }

  lemma NoneReserved(b: Batch, enabled: seq<bool>)
    requires AllFine(b, enabled) && forall i :: 0 <= i < |b.members| ==> b.members[i].view != Live
    ensures Reserved(b.members) == {}
  {
    forall i | 0 <= i < |b.members| ensures !Reserves(b.members[i]) {
      assert Fine(b.members[i], enabled[i]);
    }
  }

  /** With no slot reserved the first queued member is chosen. */
  lemma FirstChosen(members: seq<Member>, concurrency: nat, k: nat) returns (j: nat)
    requires Reserved(members) == {} && concurrency >= 1 && k < |members| && members[k].view == Queued
    ensures j < |members| && j in Groups.Next(members, concurrency) && members[j].view == Queued
  {
    QueuedFromMeaning(members, 0);
    j := QueuedFrom(members, 0)[0];
    assert Groups.Next(members, concurrency)[0] == j;
  }

  /** Then the plan makes progress. */
  lemma PlanChooses(b: Batch, concurrency: nat, enabled: seq<bool>)
    requires AllFine(b, enabled) && Inv(b, concurrency) && Enabled(b, Plan) && concurrency >= 1 && !AllEnded(b)
    requires forall i :: 0 <= i < |b.members| ==> b.members[i].view != Live
    ensures Ranks(Do(b, Plan, concurrency).members) < Ranks(b.members)
  {
    var b' := Do(b, Plan, concurrency);
    var k :| 0 <= k < |b.members| && b.members[k].view != Ended;
    assert Fine(b.members[k], enabled[k]);
    NoneReserved(b, enabled);
    var j := FirstChosen(b.members, concurrency, k);
    PlanFine(b, concurrency, enabled);
    OneLower(b.members, b'.members, j);
  }

  lemma OneLower(a: seq<Member>, b: seq<Member>, j: nat)
    requires |a| == |b| && (forall i :: 0 <= i < |a| ==> Rank(b[i]) <= Rank(a[i])) && j < |a| && Rank(b[j]) < Rank(a[j])
    ensures Ranks(b) < Ranks(a)
  {
    RanksFall(a, b);
  }

  lemma OwesStep(b: Batch, a: Action, concurrency: nat, enabled: seq<bool>, r: int)
    requires AllFine(b, enabled) && Inv(b, concurrency) && Enabled(b, a) && Good(b, a) && concurrency >= 1
    requires Owes(b, r)
    ensures Owes(Do(b, a, concurrency), if Counts(b, a) then r - 1 else r)
  {
    var b' := Do(b, a, concurrency);
    StepFine(b, a, concurrency, enabled);
    if Ranks(b.members) == r {
      assert forall i :: 0 <= i < |b.members| ==> Fine(b.members[i], enabled[i]);
      if a.Plan? {
        PlanChooses(b, concurrency, enabled);
      }
    }
  }

  lemma StartFine(enabled: seq<bool>)
    ensures AllFine(Start(enabled), enabled) && Ranks(Start(enabled).members) <= 8 * |enabled|
  {
    RanksBound(Start(enabled).members);
  }

  lemma {:induction false} GoodRunFacts(enabled: seq<bool>, concurrency: nat, actions: seq<Action>, s: Progress)
    requires GoodRun(enabled, concurrency, actions, s) && concurrency >= 1
    ensures Reaches(enabled, concurrency, actions, s.batch) && Inv(s.batch, concurrency)
    ensures AllFine(s.batch, enabled) && Owes(s.batch, 8 * |enabled| + 1 - s.cycles)
    decreases |actions|
  {
    if actions == [] {
      StartFine(enabled);
    } else {
      var front, a := actions[..|actions| - 1], actions[|actions| - 1];
      var before :|
        && GoodRun(enabled, concurrency, front, before)
        && Enabled(before.batch, a) && Good(before.batch, a) && s == Next(before, a, concurrency);
      GoodRunFacts(enabled, concurrency, front, before);
      StepFine(before.batch, a, concurrency, enabled);
      OwesStep(before.batch, a, concurrency, enabled, 8 * |enabled| + 1 - before.cycles);
    }
    ReachableInv(enabled, concurrency, actions, s.batch);
  }

  // ---------------------------------------------------------------- the other steps are bounded as well

  function IsAsked(m: Member): nat {
    if m.asked then 1 else 0
  }

  function Asking(members: seq<Member>): (r: nat) {
    Sum(IsAsked, members)
  }

  lemma {:induction false} SumUpdate(f: Member -> nat, members: seq<Member>, i: nat, m: Member)
    requires i < |members|
    ensures Sum(f, members[i := m]) == Sum(f, members) - f(members[i]) + f(m)
  {
    var n := |members| - 1;
    if i < n {
      SumUpdate(f, members[..n], i, m);
      assert members[i := m][..n] == members[..n][i := m];
    } else {
      assert members[i := m][..n] == members[..n];
    }
  }

  lemma AskingUpdate(members: seq<Member>, i: nat, m: Member)
    requires i < |members|
    ensures Asking(members[i := m]) == Asking(members) - IsAsked(members[i]) + IsAsked(m)
    ensures Asking(members[i := m]) <= |members|
  {
    SumUpdate(IsAsked, members, i, m);
    SumBound(IsAsked, members[i := m], 1);
  }

  lemma NobodyAsked(members: seq<Member>)
    requires forall i :: 0 <= i < |members| ==> !members[i].asked
    ensures Asking(members) == 0
  {
    SumBound(IsAsked, members, 1);
  }

  /** How far the cycle is from its end, the members' own steps aside. */
  function Remaining(b: Batch): (r: nat) {
    match b.work
    case Idle => 0
    case Dispatching => 1
    case Refreshing(next) => 2 + (if next < |b.members| then 2 * (|b.members| - next) else 0) + Asking(b.members)
  }

  /** A step of the cycle that lowers no rank brings it nearer to its end. */
  lemma CycleStep(b: Batch, a: Action, concurrency: nat, enabled: seq<bool>)
    requires AllFine(b, enabled) && Inv(b, concurrency) && Enabled(b, a) && Good(b, a) && !a.Cycle?
    ensures var b' := Do(b, a, concurrency);
            Ranks(b'.members) < Ranks(b.members)
              || (Ranks(b'.members) == Ranks(b.members) && Remaining(b') < Remaining(b))
  {
    StepFine(b, a, concurrency, enabled);
    match a
    case Visit => AskingUpdate(b.members, b.work.next, Asked(b.members[b.work.next]));
    case On(i, e) =>
      if e.Answer? {
        assert Sound(b.members[i], b.cancelling, b.work);
        AskingUpdate(b.members, i, After(b.members[i], e, b.cancelling));
      }
    case _ =>
  }

  function Size(n: nat): nat {
    3 * n + 3
  }

  function Potential(b: Batch): nat {
    Ranks(b.members) * Size(|b.members|) + Remaining(b)
  }

  lemma Lexicographic(high: nat, high': nat, low: nat, low': nat, size: nat)
    requires low' < size && (high' < high || (high' == high && low' < low))
    ensures high' * size + low' < high * size + low
  {
    if high' < high {
      assert high' * size + size == (high' + 1) * size <= high * size;
    }
  }

  function CyclesIn(actions: seq<Action>): (r: nat) {
    if actions == [] then 0
    else CyclesIn(actions[..|actions| - 1]) + if actions[|actions| - 1].Cycle? then 1 else 0
  }

  lemma PotentialStep(b: Batch, a: Action, concurrency: nat, enabled: seq<bool>)
    requires AllFine(b, enabled) && Inv(b, concurrency) && Enabled(b, a) && Good(b, a)
    ensures var b' := Do(b, a, concurrency);
            if a.Cycle? then Potential(b') + 1 <= Potential(b) + Size(|enabled|) else Potential(b') < Potential(b)
  {
    var b' := Do(b, a, concurrency);
    StepFine(b, a, concurrency, enabled);
    if a.Cycle? {
      forall i | 0 <= i < |b.members| ensures !b.members[i].asked {
        assert Sound(b.members[i], b.cancelling, b.work);
      }
      NobodyAsked(b.members);
    } else {
      CycleStep(b, a, concurrency, enabled);
      SumBound(IsAsked, b'.members, 1);
      Lexicographic(Ranks(b.members), Ranks(b'.members), Remaining(b), Remaining(b'), Size(|enabled|));
    }
  }

  /** The steps that so many cycles allow. */
  function Allowance(n: nat, cycles: nat): nat {
    (8 * n + cycles) * Size(n)
  }

  lemma AllowanceOne(n: nat, cycles: nat)
    ensures Allowance(n, cycles + 1) == Allowance(n, cycles) + Size(n)
  {
    var c, size := 8 * n + cycles, Size(n);
    assert (c + 1) * size == c * size + size;
  }

  lemma AllowanceAtStart(ranks: nat, n: nat)
    requires ranks <= 8 * n
    ensures ranks * Size(n) <= Allowance(n, 0)
  {
    var c, size := 8 * n, Size(n);
    assert c * size - ranks * size == (c - ranks) * size >= 0;
  }

  lemma {:induction false} StepsBounded(enabled: seq<bool>, concurrency: nat, actions: seq<Action>, s: Progress)
    requires GoodRun(enabled, concurrency, actions, s) && concurrency >= 1
    ensures |s.batch.members| == |enabled|
    ensures Potential(s.batch) + |actions| <= Allowance(|enabled|, CyclesIn(actions))
    decreases |actions|
  {
    if actions == [] {
      StartFine(enabled);
      AllowanceAtStart(Ranks(s.batch.members), |enabled|);
    } else {
      var front, a := actions[..|actions| - 1], actions[|actions| - 1];
      var before :|
        && GoodRun(enabled, concurrency, front, before)
        && Enabled(before.batch, a) && Good(before.batch, a) && s == Next(before, a, concurrency);
      StepsBounded(enabled, concurrency, front, before);
      GoodRunFacts(enabled, concurrency, front, before);
      PotentialStep(before.batch, a, concurrency, enabled);
      AllowanceOne(|enabled|, CyclesIn(front));
    }
  }

  // ---------------------------------------------------------------- a batch is never stuck

  /** What one member needs next. */
  lemma MemberGoesOn(m: Member, enabled: bool) returns (e: Event)
    requires Fine(m, enabled) && (m.place != Nowhere || m.wire == Transit || m.wire == Running)
    ensures Possible(m, e, false) && !e.ConnectFails? && !e.Lost? && !e.Drop? && !e.Answer?
  {
    if m.wire == Transit {
      e := Arrive;
    } else if m.wire == Running {
      e := Finish;
    } else if m.place == Planned {
      e := Take;
    } else if m.place == Connecting {
      e := Connect;
    } else {
      e := if m.wire == Refused then Rejected else Accepted;
    }
  }

  lemma GoesOn(b: Batch, concurrency: nat, enabled: seq<bool>) returns (a: Action)
    requires AllFine(b, enabled) && Inv(b, concurrency) && !AllEnded(b)
    ensures Enabled(b, a) && Good(b, a) && (a.Cycle? ==> Counts(b, a))
  {
    assert forall i :: 0 <= i < |b.members| ==> Fine(b.members[i], enabled[i]);
    if i :| 0 <= i < |b.members| && (b.members[i].place != Nowhere || !AtRest(b.members[i])) {
      var e := MemberGoesOn(b.members[i], enabled[i]);
      a := On(i, e);
    } else if b.work.Idle? {
      a := Cycle;
    } else if b.work.Dispatching? {
      a := Settle;
    } else if b.work.next < |b.members| {
      a := Visit;
    } else if i :| 0 <= i < |b.members| && b.members[i].asked {
      a := On(i, Answer(if b.members[i].wire == Finished then Ended else Live));
    } else {
      a := Plan;
    }
  }

  /** A batch of n members that is not cancelled, whose starts are not lost and whose daemon answers truthfully: at most
      8n cycles start with work left and no task running; the other steps are bounded by the cycles; as long as some
      member has not ended the run can go on without an idle cycle; and once all have, each enabled member was sent
      exactly once and has finished or was refused, and no other was sent. */
  lemma BatchCompletes(enabled: seq<bool>, concurrency: nat, actions: seq<Action>, s: Progress)
    requires GoodRun(enabled, concurrency, actions, s) && concurrency >= 1
    ensures s.cycles <= 8 * |enabled|
    ensures |actions| <= Allowance(|enabled|, CyclesIn(actions))
    ensures !AllEnded(s.batch) ==>
            exists a :: Enabled(s.batch, a) && Good(s.batch, a) && (a.Cycle? ==> Counts(s.batch, a))
    ensures |s.batch.members| == |enabled|
    ensures AllEnded(s.batch) ==>
              forall i :: 0 <= i < |enabled| ==>
                var m := s.batch.members[i];
                if enabled[i] then m.sent == 1 && (m.wire == Finished || m.wire == Refused) else m.sent == 0
  {
    GoodRunFacts(enabled, concurrency, actions, s);
    StepsBounded(enabled, concurrency, actions, s);
    RanksBound(s.batch.members);
    assert forall i :: 0 <= i < |enabled| ==> Fine(s.batch.members[i], enabled[i]);
    if !AllEnded(s.batch) {
      var a := GoesOn(s.batch, concurrency, enabled);
    }
  }
}
