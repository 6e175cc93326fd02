/** The group scheduler (src/mcp/groups.ts): one batch, its members' starts over a transport that may lose
    answers, and the daemon that really runs the tasks. Every await is an interleaving point. */
module Groups {
  import opened Basics

  /** What the batch records of a member; `Ended` stands for the five states of TERMINAL. */
  datatype View = Queued | Live | Unknown | Ended

  /** Where the member's start request really is. */
  datatype Wire = Unsent | Transit | Running | Finished | Refused | Dropped

  /** How far the dispatch of the current cycle is with the member. */
  datatype Place = Nowhere | Planned | Connecting | Flying

  /** `known`: a runId is recorded. `command`: the script is still retained. `asked`, `stopping`: a task.status
      or task.cancel request may still be answered. `sent`: start requests sent so far. */
  datatype Member = Member(view: View, known: bool, command: bool, place: Place, asked: bool, stopping: bool,
                           wire: Wire, sent: nat)

  /** batch.work; a refresh visits the members in order. */
  datatype Work = Idle | Refreshing(next: nat) | Dispatching

  datatype Batch = Batch(members: seq<Member>, cancelling: bool, work: Work)

  /** What happens to one member. */
  datatype Event =
    | Answer(view: View)     // task.status answers, or fails (Unknown)
    | Take                   // a dispatch worker takes the planned member
    | Connect                // its request is sent
    | ConnectFails
    | Accepted               // its response arrives
    | Rejected
    | Lost                   // no response will arrive, whatever becomes of the request
    | AskStop                // cancel() asks the daemon to stop it
    | Stopped(view: View)
    | Arrive                 // the daemon's and the transport's own steps
    | Refuse
    | Drop
    | Finish

  datatype Action =
    | Cycle                  // timer or status()
    | Visit                  // the refresh looks at the next member
    | Plan
    | Settle
    | Cancel
    | Forget                 // cancel() drops the remaining scripts
    | On(i: nat, event: Event)

  /** A daemon reports a final state only of a task that has ended. */
  predicate Honest(m: Member, view: View) {
    view != Queued && (view == Ended ==> m.wire == Finished)
  }

  predicate Possible(m: Member, e: Event, cancelling: bool) {
    match e
    case Answer(view) => m.asked && Honest(m, view)
    case Take => m.place == Planned
    case Connect => m.place == Connecting
    case ConnectFails => m.place == Connecting
    case Accepted => m.place == Flying && (m.wire == Running || m.wire == Finished)
    case Rejected => m.place == Flying && m.wire == Refused
    case Lost => m.place == Flying
    case AskStop => cancelling && m.known && m.view != Ended
    case Stopped(view) => m.stopping && Honest(m, view)
    case Arrive => m.wire == Transit
    case Refuse => m.wire == Transit
    case Drop => m.wire == Transit
    case Finish => m.wire == Running
  }

  function After(m: Member, e: Event, cancelling: bool): (r: Member) {
    match e
    case Answer(view) => m.(view := view, asked := false)
    case Take => if cancelling then m.(view := Ended, place := Nowhere) else m.(place := Connecting)
    case Connect => m.(place := Flying, wire := Transit, sent := m.sent + 1)
    case ConnectFails => m.(view := Unknown, command := false, place := Nowhere)
    case Accepted => m.(view := Live, known := true, command := false, place := Nowhere)
    case Rejected => m.(view := Ended, command := false, place := Nowhere)
    case Lost => m.(view := Unknown, command := false, place := Nowhere)
    case AskStop => m.(stopping := true)
    case Stopped(view) => m.(view := view)
    case Arrive => m.(wire := Running)
    case Refuse => m.(wire := Refused)
    case Drop => m.(wire := Dropped)
    case Finish => m.(wire := Finished)
  }

  /** A member that the plan counts as active. */
  predicate Reserves(m: Member) {
    m.view != Ended && (m.known || m.view == Unknown)
  }

  function Reserved(members: seq<Member>): set<nat> {
    set i | 0 <= i < |members| && Reserves(members[i])
  }

  function QueuedFrom(members: seq<Member>, i: nat): (r: seq<nat>)
    decreases |members| - i
  {
    if i >= |members| then []
    else (if members[i].view == Queued then [i] else []) + QueuedFrom(members, i + 1)
  }

  function Next(members: seq<Member>, concurrency: nat): (r: seq<nat>) {
    var queued := QueuedFrom(members, 0);
    var active := |Reserved(members)|;
    queued[..Min(|queued|, if concurrency > active then concurrency - active else 0)]
  }

  predicate Enabled(b: Batch, a: Action) {
    match a
    case Cycle => b.work.Idle?
    case Visit => b.work.Refreshing? && b.work.next < |b.members|
    case Plan =>
      b.work.Refreshing? && b.work.next == |b.members| && forall i :: 0 <= i < |b.members| ==> !b.members[i].asked
    case Settle => b.work.Dispatching? && forall i :: 0 <= i < |b.members| ==> b.members[i].place == Nowhere
    case Cancel => true
    case Forget => b.cancelling && !b.work.Dispatching?
    case On(i, e) => i < |b.members| && Possible(b.members[i], e, b.cancelling)
  }

  function Asked(m: Member): (r: Member) {
    if !m.known || m.view == Ended then m else m.(asked := true)
  }

  function Chosen(m: Member, chosen: bool): (r: Member) {
    if chosen then m.(place := Planned) else m
  }

  /** cancel() marks what is queued in the record, even if its start is in flight. */
  function Cancelled(m: Member): (r: Member) {
    if m.view == Queued then m.(view := Ended) else m
  }

  function Do(b: Batch, a: Action, concurrency: nat): (r: Batch)
    requires Enabled(b, a)
  {
    var n := |b.members|;
    match a
    case Cycle => b.(work := Refreshing(0))
    case Visit =>
      b.(members := b.members[b.work.next := Asked(b.members[b.work.next])], work := Refreshing(b.work.next + 1))
    case Plan =>
      if b.cancelling then b.(work := Idle)
      else
        var next := Next(b.members, concurrency);
        b.(work := Dispatching, members := seq(n, i requires 0 <= i < n => Chosen(b.members[i], i in next)))
    case Settle => b.(work := Idle)
    case Cancel => b.(cancelling := true, members := seq(n, i requires 0 <= i < n => Cancelled(b.members[i])))
    case Forget => b.(members := seq(n, i requires 0 <= i < n => b.members[i].(command := false)))
    case On(i, e) => b.(members := b.members[i := After(b.members[i], e, b.cancelling)])
  }

  /** A batch as start() leaves it: enabled targets queued with their commands, disabled ones skipped. */
  function Start(enabled: seq<bool>): Batch {
    Batch(seq(|enabled|, i requires 0 <= i < |enabled| =>
                Member(if enabled[i] then Queued else Ended, false, enabled[i], Nowhere, false, false, Unsent, 0)),
          false, Idle)
  }

  ghost predicate Reaches(enabled: seq<bool>, concurrency: nat, actions: seq<Action>, b: Batch) {
    if actions == [] then b == Start(enabled)
    else
      var a := actions[|actions| - 1];
      exists before :: Reaches(enabled, concurrency, actions[..|actions| - 1], before) && Enabled(before, a)
        && b == Do(before, a, concurrency)
  }

  // ---------------------------------------------------------------- the invariant

  /** The daemon runs it, its request is on the way, or it is about to be sent. */
  predicate IsBusy(m: Member) {
    m.wire == Transit || m.wire == Running || m.place == Connecting
  }

  function Busy(members: seq<Member>): set<nat> {
    set i | 0 <= i < |members| && IsBusy(members[i])
  }

  predicate Claims(m: Member) {
    Reserves(m) || m.place != Nowhere
  }

  function Claimed(members: seq<Member>): set<nat> {
    set i | 0 <= i < |members| && Claims(members[i])
  }

  /** What holds of each member in every reachable batch. */
  predicate Sound(m: Member, cancelling: bool, work: Work) {
    && m.sent <= 1
    && (m.wire == Unsent <==> m.sent == 0)
    && (m.view == Queued ==> !m.known && !cancelling && (m.place != Flying ==> m.sent == 0 && m.command))
    && (m.place == Planned || m.place == Connecting ==> m.sent == 0 && m.command)
    && (m.place == Flying ==> m.sent == 1)
    && (m.place != Nowhere ==> work.Dispatching? && !m.known && (cancelling || m.view == Queued))
    && (m.known ==> m.sent == 1)
    && (m.command ==> (m.sent == 1 ==> m.place == Flying) && (m.place != Nowhere || m.view == Queued || cancelling))
    && (m.asked ==> work.Refreshing? && m.known && (cancelling || m.view != Ended))
    && (m.stopping ==> m.known && cancelling)
    && (IsBusy(m) ==> Claims(m))
  }

  ghost predicate Inv(b: Batch, concurrency: nat) {
    && (b.work.Refreshing? ==> b.work.next <= |b.members|)
    && (forall i :: 0 <= i < |b.members| ==> Sound(b.members[i], b.cancelling, b.work))
    && (!b.cancelling ==> |Claimed(b.members)| <= concurrency)
    && |Busy(b.members)| <= concurrency
  }

  // ---------------------------------------------------------------- every step keeps it

  lemma EventSound(m: Member, e: Event, cancelling: bool, work: Work)
    requires Sound(m, cancelling, work) && Possible(m, e, cancelling)
    ensures var r := After(m, e, cancelling);
            && Sound(r, cancelling, work)
            && (!cancelling && Claims(r) ==> Claims(m))
            && (cancelling && IsBusy(r) ==> IsBusy(m))
  {
  }

  lemma Fewer(a: set<nat>, b: set<nat>)
    requires a <= b
    ensures |a| <= |b|
  {
    if a != b {
      var x :| x in b && x !in a;
      Fewer(a, b - {x});
    }
  }

  lemma BusyFits(members: seq<Member>, work: Work, concurrency: nat)
    requires forall i :: 0 <= i < |members| ==> Sound(members[i], false, work)
    requires |Claimed(members)| <= concurrency
    ensures |Busy(members)| <= concurrency
  {
    Fewer(Busy(members), Claimed(members));
  }

  lemma EventStep(b: Batch, i: nat, e: Event, concurrency: nat)
    requires Inv(b, concurrency) && Enabled(b, On(i, e))
    ensures Inv(Do(b, On(i, e), concurrency), concurrency)
  {
    var b' := Do(b, On(i, e), concurrency);
    assert Sound(b.members[i], b.cancelling, b.work);
    EventSound(b.members[i], e, b.cancelling, b.work);
    if b.cancelling {
      Fewer(Busy(b'.members), Busy(b.members));
    } else {
      Fewer(Claimed(b'.members), Claimed(b.members));
      BusyFits(b'.members, b'.work, concurrency);
    }
  }

  lemma {:induction false} QueuedFromMeaning(members: seq<Member>, i: nat)
    ensures ListsQueued(members, i, QueuedFrom(members, i))
    decreases |members| - i
  {
    if i < |members| {
      QueuedFromMeaning(members, i + 1);
      if members[i].view == Queued {
        ListsOneMore(members, i, QueuedFrom(members, i + 1));
      } else {
        assert [] + QueuedFrom(members, i + 1) == QueuedFrom(members, i + 1);
      }
    }
  }

  /** The queued members from `i` on, in order. */
  ghost predicate ListsQueued(members: seq<Member>, i: nat, q: seq<nat>) {
    && (forall k :: 0 <= k < |q| ==> i <= q[k] < |members| && members[q[k]].view == Queued)
    && Increasing(q)
    && (forall k :: i <= k < |members| && members[k].view == Queued ==> k in q)
  }

  lemma ListsOneMore(members: seq<Member>, i: nat, q: seq<nat>)
    requires i < |members| && members[i].view == Queued && ListsQueued(members, i + 1, q)
    ensures ListsQueued(members, i, [i] + q)
  {
  }

  function Elements(s: seq<nat>): (r: set<nat>)
    ensures forall i :: i in r <==> i in s
  {
    set i | i in s
  }

  ghost predicate Increasing(s: seq<nat>) {
    forall j, k :: 0 <= j < k < |s| ==> s[j] < s[k]
  }

  lemma {:induction false} ElementsOf(s: seq<nat>)
    requires Increasing(s)
    ensures |Elements(s)| == |s|
  {
    if s == [] {
      assert Elements(s) == {};
    } else {
      var init, last := s[..|s| - 1], s[|s| - 1];
      ElementsOf(init);
      assert s == init + [last];
      assert last !in init;
      assert Elements(s) == Elements(init) + {last};
    }
  }

  lemma Union(a: set<nat>, b: set<nat>)
    ensures |a + b| <= |a| + |b|
    ensures a !! b ==> |a + b| == |a| + |b|
  {
    assert a + b == a + (b - a);
    Fewer(b - a, b);
  }

  lemma PlanStep(b: Batch, concurrency: nat)
    requires Inv(b, concurrency) && Enabled(b, Plan)
    ensures Inv(Do(b, Plan, concurrency), concurrency)
  {
    var b' := Do(b, Plan, concurrency);
    assert forall i :: 0 <= i < |b.members| ==> Sound(b.members[i], b.cancelling, b.work);
    if !b.cancelling {
      PlanClaimed(b, concurrency);
      PlanClaims(b, concurrency);
      BusyFits(b'.members, b'.work, concurrency);
    }
  }

  /** The plan takes the first queued members, as many as there are free slots. */
  lemma NextMeaning(members: seq<Member>, concurrency: nat)
    ensures var next := Next(members, concurrency);
            && Increasing(next)
            && (forall i :: i in next ==> i < |members| && members[i].view == Queued)
            && |next| + |Reserved(members)| <= concurrency +
               (if |Reserved(members)| > concurrency then |Reserved(members)| - concurrency else 0)
  {
    QueuedFromMeaning(members, 0);
    var queued := QueuedFrom(members, 0);
    forall i | i in Next(members, concurrency) ensures i < |members| && members[i].view == Queued {
      var k :| 0 <= k < |Next(members, concurrency)| && Next(members, concurrency)[k] == i;
      assert queued[k] == i;
    }
  }

  lemma ChosenSound(m: Member, chosen: bool, work: Work)
    requires Sound(m, false, work) && work.Refreshing? && !m.asked && (chosen ==> m.view == Queued)
    ensures Sound(Chosen(m, chosen), false, Dispatching)
    ensures Claims(Chosen(m, chosen)) <==> Reserves(m) || chosen
    ensures Claims(m) <==> Reserves(m)
    ensures chosen ==> !Reserves(m)
  {
  }

  /** After a plan the claimed slots are those that were reserved and those just chosen. */
  lemma PlanClaimed(b: Batch, concurrency: nat)
    requires Inv(b, concurrency) && Enabled(b, Plan) && !b.cancelling
    ensures var b' := Do(b, Plan, concurrency);
            var next := Next(b.members, concurrency);
            && (forall i :: 0 <= i < |b'.members| ==> Sound(b'.members[i], false, b'.work))
            && Claimed(b.members) == Reserved(b.members)
            && Claimed(b'.members) == Reserved(b.members) + Elements(next)
            && Reserved(b.members) !! Elements(next)
  {
    var b' := Do(b, Plan, concurrency);
    var next := Next(b.members, concurrency);
    NextMeaning(b.members, concurrency);
    forall i | 0 <= i < |b.members|
      ensures Sound(b'.members[i], false, b'.work)
      ensures Claims(b'.members[i]) <==> Reserves(b.members[i]) || i in next
      ensures Claims(b.members[i]) <==> Reserves(b.members[i])
      ensures i in next ==> !Reserves(b.members[i])
    {
      assert Sound(b.members[i], false, b.work);
      ChosenSound(b.members[i], i in next, b.work);
    }
  }

  lemma PlanClaims(b: Batch, concurrency: nat)
    requires Inv(b, concurrency) && Enabled(b, Plan) && !b.cancelling
    ensures |Claimed(Do(b, Plan, concurrency).members)| ==
            |Reserved(b.members)| + |Next(b.members, concurrency)| <= concurrency
  {
    PlanClaimed(b, concurrency);
    NextMeaning(b.members, concurrency);
    ElementsOf(Next(b.members, concurrency));
    Union(Reserved(b.members), Elements(Next(b.members, concurrency)));
  }

  lemma OtherStep(b: Batch, a: Action, concurrency: nat)
    requires Inv(b, concurrency) && Enabled(b, a) && !a.Plan? && !a.On?
    ensures Inv(Do(b, a, concurrency), concurrency)
  {
    var b' := Do(b, a, concurrency);
    forall i | 0 <= i < |b.members|
      ensures Sound(b'.members[i], b'.cancelling, b'.work)
      ensures IsBusy(b'.members[i]) <==> IsBusy(b.members[i])
      ensures !b'.cancelling ==> (Claims(b'.members[i]) <==> Claims(b.members[i]))
    {
      assert Sound(b.members[i], b.cancelling, b.work);
    }
    assert Busy(b'.members) == Busy(b.members);
    if !b'.cancelling {
      assert Claimed(b'.members) == Claimed(b.members);
    }
  }

  lemma {:induction false} ReachableInv(enabled: seq<bool>, concurrency: nat, actions: seq<Action>, b: Batch)
    requires Reaches(enabled, concurrency, actions, b)
    ensures Inv(b, concurrency) && |b.members| == |enabled|
    decreases |actions|
  {
    if actions == [] {
      assert Claimed(b.members) == {} && Busy(b.members) == {};
    } else {
      var a := actions[|actions| - 1];
      var before :| Reaches(enabled, concurrency, actions[..|actions| - 1], before) && Enabled(before, a)
        && b == Do(before, a, concurrency);
      ReachableInv(enabled, concurrency, actions[..|actions| - 1], before);
      match a {
        case Plan => PlanStep(before, concurrency);
        case On(i, e) => EventStep(before, i, e, concurrency);
        case _ => OtherStep(before, a, concurrency);
      }
    }
  }

  // ---------------------------------------------------------------- the results

  /** In every run each start is sent at most once, a request that is about to be sent still has its command,
      and tasks really running plus starts in flight stay within the concurrency. */
  lemma StartedOnceWithinConcurrency(enabled: seq<bool>, concurrency: nat, actions: seq<Action>, b: Batch)
    requires Reaches(enabled, concurrency, actions, b)
    ensures forall i :: 0 <= i < |b.members| ==>
            b.members[i].sent <= 1 && (b.members[i].place == Connecting ==> b.members[i].command)
    ensures |Busy(b.members)| <= concurrency
  {
    ReachableInv(enabled, concurrency, actions, b);
    assert forall i :: 0 <= i < |b.members| ==> Sound(b.members[i], b.cancelling, b.work);
  }

  /** Except while its own start is being dispatched, a member recorded as finished neither runs nor can still run,
      also after cancel(), lost answers and unreachable status. */
  lemma EndedIsOver(enabled: seq<bool>, concurrency: nat, actions: seq<Action>, b: Batch, i: nat)
    requires Reaches(enabled, concurrency, actions, b) && i < |b.members| && b.members[i].view == Ended
             && b.members[i].place == Nowhere
    ensures !IsBusy(b.members[i])
  {
    ReachableInv(enabled, concurrency, actions, b);
    assert Sound(b.members[i], b.cancelling, b.work);
  }

  /** A plan uses every free slot, in member order: either all queued members are chosen, or every slot is claimed,
      and no queued member is passed over for a later one. */
  lemma PlanFillsSlots(enabled: seq<bool>, concurrency: nat, actions: seq<Action>, b: Batch, k: nat)
    requires Reaches(enabled, concurrency, actions, b) && Enabled(b, Plan) && !b.cancelling
    requires k < |b.members| && b.members[k].view == Queued && k !in Next(b.members, concurrency)
    ensures |Claimed(Do(b, Plan, concurrency).members)| == concurrency
    ensures forall i :: i in Next(b.members, concurrency) ==> i < k
  {
    ReachableInv(enabled, concurrency, actions, b);
    PlanClaims(b, concurrency);
    PassedOver(b.members, concurrency, k);
  }

  lemma PassedOver(members: seq<Member>, concurrency: nat, k: nat)
    requires k < |members| && members[k].view == Queued && k !in Next(members, concurrency)
    requires |Reserved(members)| <= concurrency
    ensures |Reserved(members)| + |Next(members, concurrency)| == concurrency
    ensures forall i :: i in Next(members, concurrency) ==> i < k
  {
    var next, queued := Next(members, concurrency), QueuedFrom(members, 0);
    QueuedFromMeaning(members, 0);
    var at :| 0 <= at < |queued| && queued[at] == k;
    assert forall i :: 0 <= i < |next| ==> next[i] == queued[i] && next[i] in next;
  }

  /** After cancel() only members already being connected can still be sent, and there will be no more of those. */
  lemma CancelStopsSending(enabled: seq<bool>, concurrency: nat, actions: seq<Action>, b: Batch, a: Action, i: nat)
    requires Reaches(enabled, concurrency, actions, b) && Enabled(b, a) && b.cancelling && i < |b.members|
    ensures var b' := Do(b, a, concurrency);
            && b'.cancelling && |b'.members| == |b.members|
            && (b'.members[i].sent != b.members[i].sent ==> b.members[i].place == Connecting)
            && (b'.members[i].place == Connecting ==> b.members[i].place == Connecting)
  {
    if a.On? {
      EventStopsSending(b.members[a.i], a.event);
    }
  }

  lemma EventStopsSending(m: Member, e: Event)
    requires Possible(m, e, true)
    ensures After(m, e, true).sent != m.sent ==> m.place == Connecting
    ensures After(m, e, true).place == Connecting ==> m.place == Connecting
  {
  }
}
