/** The audit log's size limits (src/infra/audit-writer.ts) under every run of executions, transfers, shutdowns,
    crashes and restarts. A slot is one of the places the concurrency limits allow; writes are serialized, so a
    write is one step. */
module AuditHeadroom {
  const MAX_RECORD := 4096
  const SHUTDOWN_HEADROOM := 2 * MAX_RECORD

  datatype Limits = Limits(maxBytes: nat, executions: nat, transfers: nat)

  /** Records other than follow-ups may fill the file up to here. */
  function NormalLimit(l: Limits): int {
    l.maxBytes - (l.executions * 2 + l.transfers) * MAX_RECORD - SHUTDOWN_HEADROOM
  }

  /** What the constructor accepts. */
  predicate Accepted(l: Limits) {
    l.maxBytes >= 1 && l.executions >= 1 && l.transfers >= 1 && NormalLimit(l) >= MAX_RECORD
  }

  datatype Stage =
    | Free
    | Admitted       // the started record is not yet written
    | Running        // an execution: a cancelled and a completed record may follow
    | Cancelled      // the cancelled record is written
    | Moving         // a transfer: a completed or a failed record may follow
    | MoveFailed     // the worker or the completed record failed
    | Ended

  function Owes(s: Stage): nat {
    match s
    case Running => 2
    case Cancelled => 1
    case Moving => 1
    case MoveFailed => 1
    case _ => 0
  }

  /** Aborted: the started record was refused, and stop() runs without ever having served. */
  datatype Daemon = Down | Starting | Serving | Stopping | Stopped | Aborted

  function Reserves(d: Daemon): nat {
    match d
    case Serving => 2
    case Stopping => 1
    case _ => 0
  }

  /** `leaked`: the bytes that completed records of transfers have left in the file although their writes failed, since
      the last boot. */
  datatype Log = Log(limits: Limits, size: nat, daemon: Daemon, executions: seq<Stage>, transfers: seq<Stage>,
                     leaked: nat)

  /** An append that fails may have left some bytes behind. */
  datatype Io = Fine | Broken(landed: nat)

  datatype Record =
    | Started | Note                                      // daemon started; registry, config and other events
    | DaemonStopping | DaemonStopped
    | ExecStarted(slot: nat) | ExecCancelled(slot: nat) | ExecCompleted(slot: nat)
    | TransferStarted(slot: nat) | TransferCompleted(slot: nat) | TransferFailed(slot: nat)

  predicate IsFollowup(r: Record) {
    r.ExecCancelled? || r.ExecCompleted? || r.TransferCompleted? || r.TransferFailed? || r.DaemonStopping?
      || r.DaemonStopped?
  }

  datatype Action =
    | Boot(limits: Limits)
    | Crash
    | AdmitExecution(slot: nat)
    | AdmitTransfer(slot: nat)
    | WorkerFails(slot: nat)                     // a transfer's worker throws
    | Give(slot: nat)                            // an execution ends without further records
    | ReleaseExecution(slot: nat)
    | ReleaseTransfer(slot: nat)
    | Write(record: Record, frame: nat, io: Io)

  function ExecutionAt(l: Log, slot: nat): Stage {
    if slot < |l.executions| then l.executions[slot] else Free
  }

  function TransferAt(l: Log, slot: nat): Stage {
    if slot < |l.transfers| then l.transfers[slot] else Free
  }

  predicate Up(d: Daemon) {
    d.Serving? || d.Stopping? || d.Stopped?
  }

  /** The place in the program from which the record is written. */
  predicate Due(l: Log, r: Record) {
    match r
    case Started => l.daemon.Starting?
    case Note => Up(l.daemon)
    case DaemonStopping => l.daemon.Serving? || l.daemon.Aborted?
    case DaemonStopped => l.daemon.Stopping? || l.daemon.Aborted?
    case ExecStarted(slot) => Up(l.daemon) && ExecutionAt(l, slot) == Admitted
    case ExecCancelled(slot) => Up(l.daemon) && ExecutionAt(l, slot) == Running
    case ExecCompleted(slot) => Up(l.daemon) && (ExecutionAt(l, slot) == Running || ExecutionAt(l, slot) == Cancelled)
    case TransferStarted(slot) => Up(l.daemon) && TransferAt(l, slot) == Admitted
    case TransferCompleted(slot) => Up(l.daemon) && TransferAt(l, slot) == Moving
    case TransferFailed(slot) => Up(l.daemon) && TransferAt(l, slot) == MoveFailed
  }

  predicate Enabled(l: Log, a: Action) {
    match a
    case Boot(limits) => l.daemon.Down? && Accepted(limits)
    case Crash => true
    case AdmitExecution(slot) => Up(l.daemon) && slot < |l.executions| && l.executions[slot] == Free
    case AdmitTransfer(slot) => Up(l.daemon) && slot < |l.transfers| && l.transfers[slot] == Free
    case WorkerFails(slot) => TransferAt(l, slot) == Moving
    case Give(slot) => slot < |l.executions|
    case ReleaseExecution(slot) => slot < |l.executions| && l.executions[slot] == Ended
    case ReleaseTransfer(slot) => slot < |l.transfers| && l.transfers[slot] == Ended
    case Write(record, frame, io) => Due(l, record) && 1 <= frame <= MAX_RECORD && (io.Broken? ==> io.landed <= frame)
  }

  /** AuditWriter.write refuses the record for size. */
  predicate Refuses(l: Log, record: Record, frame: nat) {
    l.size > (if IsFollowup(record) then l.limits.maxBytes else NormalLimit(l.limits)) - frame
  }

  function Grown(l: Log, record: Record, frame: nat, io: Io): nat {
    if Refuses(l, record, frame) then l.size else l.size + (if io.Fine? then frame else io.landed)
  }

  /** What a write leaves in the file. */
  function Recorded(l: Log, record: Record, frame: nat, io: Io): Log {
    var size := Grown(l, record, frame, io);
    l.(size := size, leaked := if record.TransferCompleted? && io.Broken? then l.leaked + (size - l.size) else l.leaked)
  }

  predicate Lands(l: Log, record: Record, frame: nat, io: Io) {
    io.Fine? && !Refuses(l, record, frame)
  }

  function SetExecution(l: Log, slot: nat, s: Stage): (r: Log) {
    if slot < |l.executions| then l.(executions := l.executions[slot := s]) else l
  }

  function SetTransfer(l: Log, slot: nat, s: Stage): (r: Log) {
    if slot < |l.transfers| then l.(transfers := l.transfers[slot := s]) else l
  }

  /** The stage of the slot after its record. */
  function StageAfter(record: Record, ok: bool): Stage {
    match record
    case ExecStarted(_) => if ok then Running else Ended
    case ExecCancelled(_) => if ok then Cancelled else Ended
    case TransferStarted(_) => if ok then Moving else Ended
    case TransferCompleted(_) => if ok then Ended else MoveFailed
    case _ => Ended
  }

  function DaemonAfter(d: Daemon, record: Record, ok: bool): Daemon {
    if record.Started? then (if ok then Serving else Aborted)
    else if d.Serving? && record.DaemonStopping? then Stopping
    else if d.Stopping? && record.DaemonStopped? then Stopped
    else d
  }

  /** What the writer of the record does next. */
  function Continue(l: Log, record: Record, ok: bool): (r: Log) {
    if record.ExecStarted? || record.ExecCancelled? || record.ExecCompleted?
      then SetExecution(l, record.slot, StageAfter(record, ok))
    else if record.TransferStarted? || record.TransferCompleted? || record.TransferFailed?
      then SetTransfer(l, record.slot, StageAfter(record, ok))
    else l.(daemon := DaemonAfter(l.daemon, record, ok))
  }

  function Do(l: Log, a: Action): (r: Log)
    requires Enabled(l, a)
  {
    match a
    case Boot(limits) =>
      Log(limits, l.size, Starting, seq(limits.executions, _ => Free), seq(limits.transfers, _ => Free), 0)
    case Crash => l.(daemon := Down)
    case AdmitExecution(slot) => SetExecution(l, slot, Admitted)
    case AdmitTransfer(slot) => SetTransfer(l, slot, Admitted)
    case WorkerFails(slot) => SetTransfer(l, slot, MoveFailed)
    case Give(slot) => SetExecution(l, slot, Ended)
    case ReleaseExecution(slot) => SetExecution(l, slot, Free)
    case ReleaseTransfer(slot) => SetTransfer(l, slot, Free)
    case Write(record, frame, io) => Continue(Recorded(l, record, frame, io), record, Lands(l, record, frame, io))
  }

  /** From a log file of any size. */
  ghost predicate Reaches(actions: seq<Action>, l: Log) {
    if actions == [] then l == Log(Limits(0, 0, 0), l.size, Down, [], [], 0)
    else
      var a := actions[|actions| - 1];
      exists before :: Reaches(actions[..|actions| - 1], before) && Enabled(before, a) && l == Do(before, a)
  }

  // ---------------------------------------------------------------- the ledger

  function Total(s: seq<Stage>): nat {
    if s == [] then 0 else Total(s[..|s| - 1]) + Owes(s[|s| - 1])
  }

  lemma {:induction false} TotalUpdate(s: seq<Stage>, i: nat, x: Stage)
    requires i < |s|
    ensures Total(s[i := x]) == Total(s) - Owes(s[i]) + Owes(x)
  {
    var init := s[..|s| - 1];
    if i == |s| - 1 {
      assert s[i := x][..|s| - 1] == init;
    } else {
      TotalUpdate(init, i, x);
      assert s[i := x][..|s| - 1] == init[i := x];
    }
  }

  lemma {:induction false} TotalBound(s: seq<Stage>, most: nat)
    requires forall i :: 0 <= i < |s| ==> Owes(s[i]) <= most
    ensures Total(s) <= most * |s|
  {
    if s != [] {
      TotalBound(s[..|s| - 1], most);
    }
  }

  /** Follow-up records that may still have to be written. */
  function Outstanding(l: Log): nat {
    Total(l.executions) + Total(l.transfers) + Reserves(l.daemon)
  }

  ghost predicate Slots(l: Log) {
    && |l.executions| == l.limits.executions && |l.transfers| == l.limits.transfers
    && (forall i :: 0 <= i < |l.transfers| ==> Owes(l.transfers[i]) <= 1)
  }

  ghost predicate Inv(l: Log) {
    Slots(l) && (Up(l.daemon) ==> l.size + MAX_RECORD * Outstanding(l) <= l.limits.maxBytes + l.leaked)
      && (l.daemon.Starting? ==> Total(l.executions) == 0 == Total(l.transfers))
  }

  lemma AtMost(l: Log)
    requires Slots(l)
    ensures Total(l.executions) <= 2 * l.limits.executions && Total(l.transfers) <= l.limits.transfers
  {
    TotalBound(l.executions, 2);
    TotalBound(l.transfers, 1);
  }

  lemma SlotUpdates(l: Log, slot: nat, x: Stage)
    ensures slot < |l.executions| ==>
            Total(SetExecution(l, slot, x).executions) == Total(l.executions) - Owes(ExecutionAt(l, slot)) + Owes(x)
    ensures slot < |l.transfers| ==>
            Total(SetTransfer(l, slot, x).transfers) == Total(l.transfers) - Owes(TransferAt(l, slot)) + Owes(x)
  {
    if slot < |l.executions| {
      TotalUpdate(l.executions, slot, x);
    }
    if slot < |l.transfers| {
      TotalUpdate(l.transfers, slot, x);
    }
  }

  lemma {:induction false} AllFree(n: nat)
    ensures Total(seq(n, _ => Free)) == 0
  {
    if n > 0 {
      AllFree(n - 1);
      assert seq(n, _ => Free)[..n - 1] == seq(n - 1, _ => Free);
    }
  }

  lemma ExecutionOutstanding(l: Log, record: Record, ok: bool)
    requires Inv(l) && Due(l, record) && (record.ExecStarted? || record.ExecCancelled? || record.ExecCompleted?)
    ensures var r := Continue(l, record, ok);
            && Slots(r) && r.daemon == l.daemon
            && (IsFollowup(record) ==> Outstanding(r) + 1 <= Outstanding(l))
            && (!ok ==> Outstanding(r) <= Outstanding(l))
  {
    SlotUpdates(l, record.slot, StageAfter(record, ok));
  }

  lemma TransferOutstanding(l: Log, record: Record, ok: bool)
    requires Inv(l) && Due(l, record)
             && (record.TransferStarted? || record.TransferCompleted? || record.TransferFailed?)
    ensures var r := Continue(l, record, ok);
            && Slots(r) && r.daemon == l.daemon
            && (record.TransferFailed? || (record.TransferCompleted? && ok) ==> Outstanding(r) + 1 <= Outstanding(l))
            && (!ok ==> Outstanding(r) <= Outstanding(l))
  {
    SlotUpdates(l, record.slot, StageAfter(record, ok));
  }

  /** A record that is no follow-up keeps clear of the whole headroom. */
  lemma NormalWrite(l: Log, record: Record, frame: nat, io: Io)
    requires Enabled(l, Write(record, frame, io)) && !Refuses(l, record, frame) && !IsFollowup(record)
    requires Slots(Do(l, Write(record, frame, io)))
    ensures var r := Do(l, Write(record, frame, io));
            r.size + MAX_RECORD * Outstanding(r) <= r.limits.maxBytes
  {
    AtMost(Do(l, Write(record, frame, io)));
  }

  lemma ExecutionWrite(l: Log, record: Record, frame: nat, io: Io)
    requires Inv(l) && Enabled(l, Write(record, frame, io))
             && (record.ExecStarted? || record.ExecCancelled? || record.ExecCompleted?)
    ensures Inv(Do(l, Write(record, frame, io)))
  {
    var ok := Lands(l, record, frame, io);
    ExecutionOutstanding(l, record, ok);
    assert Do(l, Write(record, frame, io)) ==
      Continue(l, record, ok).(size := Grown(l, record, frame, io), leaked := Recorded(l, record, frame, io).leaked);
    if !IsFollowup(record) && !Refuses(l, record, frame) {
      NormalWrite(l, record, frame, io);
    }
  }

  lemma TransferWrite(l: Log, record: Record, frame: nat, io: Io)
    requires Inv(l) && Enabled(l, Write(record, frame, io))
             && (record.TransferStarted? || record.TransferCompleted? || record.TransferFailed?)
    ensures Inv(Do(l, Write(record, frame, io)))
  {
    var ok := Lands(l, record, frame, io);
    TransferOutstanding(l, record, ok);
    assert Do(l, Write(record, frame, io)) ==
      Continue(l, record, ok).(size := Grown(l, record, frame, io), leaked := Recorded(l, record, frame, io).leaked);
    if !IsFollowup(record) && !Refuses(l, record, frame) {
      NormalWrite(l, record, frame, io);
    }
  }

  lemma DaemonWrite(l: Log, record: Record, frame: nat, io: Io)
    requires Inv(l) && Enabled(l, Write(record, frame, io))
             && (record.Started? || record.Note? || record.DaemonStopping? || record.DaemonStopped?)
    ensures Inv(Do(l, Write(record, frame, io)))
  {
    if !IsFollowup(record) && !Refuses(l, record, frame) {
      NormalWrite(l, record, frame, io);
    }
  }

  lemma OtherStep(l: Log, a: Action)
    requires Inv(l) && Enabled(l, a) && !a.Write?
    ensures Inv(Do(l, a))
  {
    match a
    case Boot(limits) =>
      AllFree(limits.executions);
      AllFree(limits.transfers);
    case AdmitExecution(slot) => SlotUpdates(l, slot, Admitted);
    case AdmitTransfer(slot) => SlotUpdates(l, slot, Admitted);
    case WorkerFails(slot) => SlotUpdates(l, slot, MoveFailed);
    case Give(slot) => SlotUpdates(l, slot, Ended);
    case ReleaseExecution(slot) => SlotUpdates(l, slot, Free);
    case ReleaseTransfer(slot) => SlotUpdates(l, slot, Free);
    case _ =>
  }

  lemma {:induction false} ReachableInv(actions: seq<Action>, l: Log)
    requires Reaches(actions, l)
    ensures Inv(l)
    decreases |actions|
  {
    if actions != [] {
      var a := actions[|actions| - 1];
      var before :| Reaches(actions[..|actions| - 1], before) && Enabled(before, a) && l == Do(before, a);
      ReachableInv(actions[..|actions| - 1], before);
      if !a.Write? {
        OtherStep(before, a);
      } else if a.record.ExecStarted? || a.record.ExecCancelled? || a.record.ExecCompleted? {
        ExecutionWrite(before, a.record, a.frame, a.io);
      } else if a.record.TransferStarted? || a.record.TransferCompleted? || a.record.TransferFailed? {
        TransferWrite(before, a.record, a.frame, a.io);
      } else {
        DaemonWrite(before, a.record, a.frame, a.io);
      }
    }
  }

  // ---------------------------------------------------------------- the results

  /** In every run, whatever was in the file and whatever fails, the file of a daemon that has started plus one maximal
      record for each outstanding follow-up exceeds the limit by no more than what failed completed records left behind;
      a follow-up is refused for size only if they left more than the space it does not need. */
  lemma FollowupsFit(actions: seq<Action>, l: Log, record: Record, frame: nat)
    requires Reaches(actions, l) && Up(l.daemon)
    ensures l.size + MAX_RECORD * Outstanding(l) <= l.limits.maxBytes + l.leaked
    ensures Due(l, record) && IsFollowup(record) && frame <= MAX_RECORD && Refuses(l, record, frame) ==>
              l.leaked > MAX_RECORD - frame
  {
    ReachableInv(actions, l);
    if Due(l, record) && IsFollowup(record) {
      Owed(l, record);
    }
  }

  /** A follow-up that is due has its place in the ledger. */
  lemma Owed(l: Log, record: Record)
    requires Due(l, record) && IsFollowup(record) && Up(l.daemon)
    ensures Outstanding(l) >= 1
  {
    if !record.DaemonStopping? && !record.DaemonStopped? {
      SlotUpdates(l, record.slot, Free);
    }
  }

  // ---------------------------------------------------------------- a completed record that fails after landing

  const TIGHT := Limits(9 * MAX_RECORD, 1, 1)

  function Full(r: Record): Action {
    Write(r, MAX_RECORD, Fine)
  }

  lemma Extend(actions: seq<Action>, l: Log, a: Action)
    requires Reaches(actions, l) && Enabled(l, a)
    ensures Reaches(actions + [a], Do(l, a))
  {
    var all := actions + [a];
    assert all[..|all| - 1] == actions && all[|all| - 1] == a;
  }

  /** One execution and one transfer run, and ordinary records have filled the file as far as they may. */
  lemma BusyAndFull() returns (actions: seq<Action>, l: Log)
    ensures Reaches(actions, l) && l == Log(TIGHT, 4 * MAX_RECORD, Serving, [Running], [Moving], 0)
  {
    var l0 := Log(Limits(0, 0, 0), MAX_RECORD, Down, [], [], 0);
    Extend([], l0, Boot(TIGHT));
    var l1 := Log(TIGHT, MAX_RECORD, Starting, [Free], [Free], 0);
    assert Do(l0, Boot(TIGHT)) == l1;
    actions, l := [] + [Boot(TIGHT)], l1;
    Extend(actions, l, Full(Started));
    actions, l := actions + [Full(Started)], Log(TIGHT, 2 * MAX_RECORD, Serving, [Free], [Free], 0);
    actions, l := StartBoth(actions, l);
  }

  lemma StartBoth(before: seq<Action>, l0: Log) returns (actions: seq<Action>, l: Log)
    requires Reaches(before, l0) && l0 == Log(TIGHT, 2 * MAX_RECORD, Serving, [Free], [Free], 0)
    ensures Reaches(actions, l) && l == Log(TIGHT, 4 * MAX_RECORD, Serving, [Running], [Moving], 0)
  {
    actions, l := StartExecution(before, l0);
    Extend(actions, l, AdmitTransfer(0));
    var l3 := Log(TIGHT, 3 * MAX_RECORD, Serving, [Running], [Admitted], 0);
    assert Do(l, AdmitTransfer(0)) == l3;
    actions := actions + [AdmitTransfer(0)];
    Extend(actions, l3, Full(TransferStarted(0)));
    actions, l := actions + [Full(TransferStarted(0))], Log(TIGHT, 4 * MAX_RECORD, Serving, [Running], [Moving], 0);
    assert Do(l3, Full(TransferStarted(0))) == l;
  }

  lemma StartExecution(before: seq<Action>, l0: Log) returns (actions: seq<Action>, l: Log)
    requires Reaches(before, l0) && l0 == Log(TIGHT, 2 * MAX_RECORD, Serving, [Free], [Free], 0)
    ensures Reaches(actions, l) && l == Log(TIGHT, 3 * MAX_RECORD, Serving, [Running], [Free], 0)
  {
    Extend(before, l0, AdmitExecution(0));
    var l1 := Log(TIGHT, 2 * MAX_RECORD, Serving, [Admitted], [Free], 0);
    assert Do(l0, AdmitExecution(0)) == l1;
    actions := before + [AdmitExecution(0)];
    Extend(actions, l1, Full(ExecStarted(0)));
    actions, l := actions + [Full(ExecStarted(0))], Log(TIGHT, 3 * MAX_RECORD, Serving, [Running], [Free], 0);
    assert Do(l1, Full(ExecStarted(0))) == l;
  }

  lemma TransferWritesTwice(before: seq<Action>, l0: Log) returns (actions: seq<Action>, l: Log)
    requires Reaches(before, l0) && l0 == Log(TIGHT, 4 * MAX_RECORD, Serving, [Running], [Moving], 0)
    ensures Reaches(actions, l) && l == Log(TIGHT, 6 * MAX_RECORD, Serving, [Running], [Ended], MAX_RECORD)
  {
    var broken := Write(TransferCompleted(0), MAX_RECORD, Broken(MAX_RECORD));
    Extend(before, l0, broken);
    var l1 := Log(TIGHT, 5 * MAX_RECORD, Serving, [Running], [MoveFailed], MAX_RECORD);
    assert Do(l0, broken) == l1;
    actions := before + [broken];
    Extend(actions, l1, Full(TransferFailed(0)));
    actions, l := actions + [Full(TransferFailed(0))],
      Log(TIGHT, 6 * MAX_RECORD, Serving, [Running], [Ended], MAX_RECORD);
    assert Do(l1, Full(TransferFailed(0))) == l;
  }

  lemma ExecutionEnds(before: seq<Action>, l0: Log) returns (actions: seq<Action>, l: Log)
    requires Reaches(before, l0) && l0 == Log(TIGHT, 6 * MAX_RECORD, Serving, [Running], [Ended], MAX_RECORD)
    ensures Reaches(actions, l) && l == Log(TIGHT, 8 * MAX_RECORD, Serving, [Ended], [Ended], MAX_RECORD)
  {
    Extend(before, l0, Full(ExecCancelled(0)));
    var l1 := Log(TIGHT, 7 * MAX_RECORD, Serving, [Cancelled], [Ended], MAX_RECORD);
    assert Do(l0, Full(ExecCancelled(0))) == l1;
    actions := before + [Full(ExecCancelled(0))];
    Extend(actions, l1, Full(ExecCompleted(0)));
    actions, l := actions + [Full(ExecCompleted(0))], Log(TIGHT, 8 * MAX_RECORD, Serving, [Ended], [Ended], MAX_RECORD);
    assert Do(l1, Full(ExecCompleted(0))) == l;
  }

  /** Leaked bytes do count: a completed record that reached the file although its write was reported as
      failed is followed by a failed record, two for the one that was reserved, and the last follow-up is refused. */
  lemma LandedFailureOverruns()
    ensures exists actions, l ::
              Reaches(actions, l) && Up(l.daemon) && Due(l, DaemonStopped) && Refuses(l, DaemonStopped, MAX_RECORD)
  {
    var actions, l := BusyAndFull();
    actions, l := TransferWritesTwice(actions, l);
    actions, l := ExecutionEnds(actions, l);
    Extend(actions, l, Full(DaemonStopping));
    actions, l := actions + [Full(DaemonStopping)], l.(size := 9 * MAX_RECORD, daemon := Stopping);
  }

  // ---------------------------------------------------------------- slots, crashes and what is counted as leaked

  /** What is counted as leaked is what the file grew by in failed writes of completed records of transfers. */
  lemma LeakStep(l: Log, a: Action)
    requires Enabled(l, a)
    ensures var r := Do(l, a);
            if a.Boot? then r.leaked == 0
            else if a.Write? && a.record.TransferCompleted? && a.io.Broken? then r.leaked - l.leaked == r.size - l.size
            else r.leaked == l.leaked
  {
  }

  /** How many steps a slot is from being free. */
  function Distance(s: Stage): nat {
    match s
    case Free => 0
    case Ended => 1
    case MoveFailed => 2
    case Cancelled => 2
    case Moving => 3
    case Running => 3
    case Admitted => 4
  }

  predicate OfExecution(a: Action, slot: nat) {
    || a == Give(slot) || a == ReleaseExecution(slot)
    || (a.Write?
        && (a.record == ExecStarted(slot) || a.record == ExecCancelled(slot) || a.record == ExecCompleted(slot)))
  }

  predicate OfTransfer(a: Action, slot: nat) {
    || a == WorkerFails(slot) || a == ReleaseTransfer(slot)
    || (a.Write?
        && (a.record == TransferStarted(slot) || a.record == TransferCompleted(slot)
            || a.record == TransferFailed(slot)))
  }

  /** Whatever its writes meet with, refused for size or failed, each step of an execution or a transfer brings its slot
      nearer to being free, and touches no other. */
  lemma SlotsComeFree(l: Log, a: Action, slot: nat, other: nat)
    requires Enabled(l, a)
    ensures OfExecution(a, slot) && slot < |l.executions|
            && Distance(l.executions[slot]) > (if a.Give? then 1 else 0) ==>
              Distance(ExecutionAt(Do(l, a), slot)) < Distance(l.executions[slot])
    ensures OfTransfer(a, slot) && slot < |l.transfers| ==>
              Distance(TransferAt(Do(l, a), slot)) < Distance(l.transfers[slot])
    ensures OfExecution(a, slot) && other != slot ==> ExecutionAt(Do(l, a), other) == ExecutionAt(l, other)
    ensures OfTransfer(a, slot) && other != slot ==> TransferAt(Do(l, a), other) == TransferAt(l, other)
  {
  }

  /** After a crash a daemon boots with the file as it is and every slot free. */
  lemma BootAfterCrash(l: Log, limits: Limits)
    requires Accepted(limits) && Enabled(l, Crash)
    ensures var crashed := Do(l, Crash);
            && crashed.size == l.size && Enabled(crashed, Boot(limits))
            && var r := Do(crashed, Boot(limits));
               && r.daemon.Starting? && r.size == l.size && r.limits == limits
               && |r.executions| == limits.executions && |r.transfers| == limits.transfers
               && (forall s :: s in r.executions + r.transfers ==> s == Free)
  {
  }
}
