/** The output sinks of concurrent executions (FileOutputSink in src/core/output-store.ts) over one shared quota:
    appends reserve, then write, then count; finalize publishes or discards; every await is an interleaving point. */
module OutputSinks {
  import opened Basics
  import opened OutputQuota
  import Utf8

  type Bytes = seq<Utf8.byte>

  datatype Stream = Stdout | Stderr
  datatype Streams = Streams(out: Bytes, err: Bytes)

  const EMPTY := Streams([], [])

  function Get(s: Streams, stream: Stream): Bytes {
    if stream.Stdout? then s.out else s.err
  }

  function Plus(s: Streams, stream: Stream, bytes: Bytes): Streams {
    if stream.Stdout? then s.(out := s.out + bytes) else s.(err := s.err + bytes)
  }

  function Size(s: Streams): nat {
    |s.out| + |s.err|
  }

  /** An append between its reservation and the end of its write. */
  datatype Pending = Pending(stream: Stream, chunk: Bytes, granted: nat)

  /** Left: the directory could not be removed. Removed: gone from disk, not yet released. */
  datatype Stage = Open | Published | Left | Removed | Released

  /** `appended`: what the callers handed in; `disk`: what the files hold; `inline`: the inlineChunks. */
  datatype Sink = Sink(appended: Streams, disk: Streams, inline: Streams, pending: Option<Pending>,
                       cancelled: bool, fatal: bool, limited: bool, stage: Stage)

  const NEW := Sink(EMPTY, EMPTY, EMPTY, None, false, false, false, Open)

  datatype Config = Config(inlineBytes: nat, maxStored: nat)

  datatype Store = Store(quota: Quota, sinks: map<Ref, Sink>)

  datatype Outcome = Fine | Trouble(removed: bool)

  datatype Action =
    | Create(reference: Ref)
    | Append(reference: Ref, stream: Stream, chunk: Bytes)
    | Written(reference: Ref)
    | WriteFails(reference: Ref, landed: nat)
    | Cancel(reference: Ref)
    | Finalize(reference: Ref, outcome: Outcome)
    | Abort(reference: Ref, removed: bool)
    | Purge(reference: Ref)          // expiry, or cleanup of what a sink left behind
    | Release(reference: Ref)

  predicate Stopped(s: Sink) {
    s.cancelled || s.fatal || s.limited
  }

  /** What the append may still store under the limit of one execution. */
  function Requested(s: Sink, chunk: Bytes, config: Config): nat {
    Min(if Size(s.disk) < config.maxStored then config.maxStored - Size(s.disk) else 0, |chunk|)
  }

  /** #appendNow up to its first await, with what the quota granted. */
  function Begun(s: Sink, stream: Stream, chunk: Bytes, granted: nat): Sink {
    var s' := s.(appended := Plus(s.appended, stream, chunk));
    if Stopped(s) || chunk == [] then s'
    else if granted > 0 then s'.(pending := Some(Pending(stream, chunk, granted)))
    else s'.(limited := true)
  }

  /** The write has ended with `landed` bytes in the file. */
  function Landed(s: Sink, landed: nat): (r: Sink)
    requires s.pending.Some? && landed <= |s.pending.value.chunk|
  {
    s.(disk := Plus(s.disk, s.pending.value.stream, s.pending.value.chunk[..landed]), pending := None)
  }

  function InlinePart(s: Sink, config: Config): (r: Bytes)
    requires s.pending.Some? && s.pending.value.granted <= |s.pending.value.chunk|
  {
    var p := s.pending.value;
    var have := |Get(s.inline, p.stream)|;
    p.chunk[..Min(if have < config.inlineBytes then config.inlineBytes - have else 0, p.granted)]
  }

  function Ended(s: Sink, config: Config): (r: Sink)
    requires s.pending.Some? && s.pending.value.granted <= |s.pending.value.chunk|
  {
    var p := s.pending.value;
    var s' := Landed(s, p.granted);
    if s.cancelled then s'
    else s'.(inline := Plus(s.inline, p.stream, InlinePart(s, config)), limited := p.granted < |p.chunk|)
  }

  function Failed(s: Sink, landed: nat): (r: Sink)
    requires s.pending.Some? && landed <= |s.pending.value.chunk|
  {
    var s' := Landed(s, landed);
    if s.cancelled then s' else s'.(fatal := true)
  }

  predicate ExceedsInline(s: Sink, config: Config) {
    |s.disk.out| > config.inlineBytes || |s.disk.err| > config.inlineBytes
  }

  function Discarded(s: Sink, removed: bool): Sink {
    if removed then s.(disk := EMPTY, stage := Removed) else s.(stage := Left)
  }

  function Finalized(s: Sink, outcome: Outcome, config: Config): Sink {
    if outcome.Trouble? then Discarded(s, outcome.removed)
    else if s.fatal || !ExceedsInline(s, config) then Discarded(s, true)
    else s.(stage := Published)
  }

  /** Appends, finalize and abort of one sink wait for each other. */
  predicate Enabled(st: Store, a: Action) {
    match a
    case Create(r) => r !in st.sinks && r !in st.quota.charges
    case Append(r, _, _) =>
      r in st.sinks && st.sinks[r].stage.Open? && st.sinks[r].pending.None? && st.quota.total <= st.quota.maxBytes
    case Written(r) =>
      r in st.sinks && st.sinks[r].pending.Some?
      && st.sinks[r].pending.value.granted <= |st.sinks[r].pending.value.chunk|
    case WriteFails(r, landed) =>
      r in st.sinks && st.sinks[r].pending.Some?
        && landed <= st.sinks[r].pending.value.granted <= |st.sinks[r].pending.value.chunk|
    case Cancel(r) => r in st.sinks && st.sinks[r].stage.Open?
    case Finalize(r, _) =>
      r in st.sinks && st.sinks[r].stage.Open? && st.sinks[r].pending.None? && !st.sinks[r].cancelled
    case Abort(r, _) => r in st.sinks && st.sinks[r].stage.Open? && st.sinks[r].pending.None?
    case Purge(r) => r in st.sinks && (st.sinks[r].stage.Published? || st.sinks[r].stage.Left?)
    case Release(r) => r in st.sinks && st.sinks[r].stage.Removed? && Charge(st.quota, r) <= st.quota.total
  }

  function Granting(st: Store, a: Action, config: Config): nat
    requires Enabled(st, a) && a.Append?
  {
    var s := st.sinks[a.reference];
    if Stopped(s) || a.chunk == [] then 0 else Granted(st.quota, a.reference, Requested(s, a.chunk, config))
  }

  function QuotaAfter(st: Store, a: Action, config: Config): Quota
    requires Enabled(st, a)
  {
    if a.Append? && Granting(st, a, config) > 0
      then Reserved(st.quota, a.reference, Requested(st.sinks[a.reference], a.chunk, config))
    else if a.Release? then OutputQuota.Released(st.quota, a.reference)
    else st.quota
  }

  function SinkAfter(st: Store, a: Action, config: Config): Sink
    requires Enabled(st, a)
  {
    match a
    case Create(_) => NEW
    case Append(r, stream, chunk) => Begun(st.sinks[r], stream, chunk, Granting(st, a, config))
    case Written(r) => Ended(st.sinks[r], config)
    case WriteFails(r, landed) => Failed(st.sinks[r], landed)
    case Cancel(r) => st.sinks[r].(cancelled := true)
    case Finalize(r, outcome) => Finalized(st.sinks[r], outcome, config)
    case Abort(r, removed) => Discarded(st.sinks[r].(cancelled := true), removed)
    case Purge(r) => Discarded(st.sinks[r], true)
    case Release(r) => st.sinks[r].(stage := Stage.Released)
  }

  function Do(st: Store, a: Action, config: Config): (r: Store)
    requires Enabled(st, a)
  {
    Store(QuotaAfter(st, a, config), st.sinks[a.reference := SinkAfter(st, a, config)])
  }

  /** A store as startup leaves it: a sound quota, and published outputs that it covers. */
  ghost predicate Initial(st: Store) {
    && Valid(st.quota)
    && forall r :: r in st.sinks ==>
         && st.sinks[r] == NEW.(appended := st.sinks[r].disk, disk := st.sinks[r].disk, stage := Published)
         && Size(st.sinks[r].disk) <= Charge(st.quota, r)
  }

  ghost predicate Reaches(from: Store, config: Config, actions: seq<Action>, st: Store) {
    if actions == [] then st == from
    else
      var a := actions[|actions| - 1];
      exists before :: Reaches(from, config, actions[..|actions| - 1], before) && Enabled(before, a)
        && st == Do(before, a, config)
  }

  // ---------------------------------------------------------------- the invariant

  predicate Prefix(a: Bytes, b: Bytes) {
    |a| <= |b| && a == b[..|a|]
  }

  function Head(b: Bytes, n: nat): Bytes {
    b[..Min(n, |b|)]
  }

  function Holding(s: Sink): nat {
    if s.pending.Some? then s.pending.value.granted else 0
  }

  /** With an append under way, the files lack exactly its chunk. */
  predicate InStep(s: Sink) {
    s.pending.Some? ==>
      && var p := s.pending.value;
         0 < p.granted <= |p.chunk| && s.stage.Open? && !s.fatal && !s.limited
           && s.appended == Plus(s.disk, p.stream, p.chunk)
  }

  predicate Sound(s: Sink, config: Config) {
    && InStep(s)
    && Prefix(s.disk.out, s.appended.out) && Prefix(s.disk.err, s.appended.err)
    && (s.stage.Open? && s.pending.None? && !Stopped(s) ==> s.disk == s.appended)
    && (s.stage.Open? && s.limited && !s.cancelled ==> s.disk != s.appended)
    && (s.stage.Open? && !s.cancelled && !s.fatal ==>
          s.inline.out == Head(s.disk.out, config.inlineBytes) && s.inline.err == Head(s.disk.err, config.inlineBytes))
    && (s.stage.Removed? || s.stage.Released? ==> s.disk == EMPTY)
    && (s.stage.Open? ==> Size(s.disk) + Holding(s) <= config.maxStored)
  }

  ghost predicate Inv(st: Store, config: Config) {
    && Valid(st.quota)
    && (forall r :: r in st.sinks ==>
        Sound(st.sinks[r], config) && Size(st.sinks[r].disk) + Holding(st.sinks[r]) <= Charge(st.quota, r))
  }

  // ---------------------------------------------------------------- every step keeps it

  lemma BegunSound(s: Sink, stream: Stream, chunk: Bytes, granted: nat, config: Config)
    requires Sound(s, config) && s.stage.Open? && s.pending.None?
    requires granted <= Requested(s, chunk, config) && (Stopped(s) || chunk == [] ==> granted == 0)
    ensures Sound(Begun(s, stream, chunk, granted), config)
  {
  }

  /** Whatever part of the chunk has landed, the files hold a prefix of what was appended, and all of it only with the
      whole chunk. */
  lemma LandedPrefix(s: Sink, landed: nat, config: Config)
    requires Sound(s, config) && s.pending.Some? && landed <= |s.pending.value.chunk|
    ensures var disk := Landed(s, landed).disk;
            && Prefix(disk.out, s.appended.out) && Prefix(disk.err, s.appended.err)
            && (disk == s.appended <==> landed == |s.pending.value.chunk|)
            && Size(disk) == Size(s.disk) + landed
  {
    var p := s.pending.value;
    assert Get(s.appended, p.stream) == Get(s.disk, p.stream) + p.chunk;
    assert landed == |p.chunk| ==> p.chunk[..landed] == p.chunk;
    var disk := Landed(s, landed).disk;
    assert disk.out == s.appended.out[..|disk.out|];
    assert disk.err == s.appended.err[..|disk.err|];
  }

  /** The inline text stays the head of the file. */
  lemma InlineGrows(inline: Bytes, disk: Bytes, chunk: Bytes, granted: nat, limit: nat)
    requires inline == Head(disk, limit) && granted <= |chunk|
    ensures var more := chunk[..Min(if |inline| < limit then limit - |inline| else 0, granted)];
            inline + more == Head(disk + chunk[..granted], limit)
  {
  }

  lemma EndedSound(s: Sink, config: Config)
    requires Sound(s, config) && s.pending.Some?
    ensures Sound(Ended(s, config), config)
  {
    var p := s.pending.value;
    LandedPrefix(s, p.granted, config);
    if !s.cancelled {
      InlineGrows(Get(s.inline, p.stream), Get(s.disk, p.stream), p.chunk, p.granted, config.inlineBytes);
    }
  }

  lemma FailedSound(s: Sink, landed: nat, config: Config)
    requires Sound(s, config) && s.pending.Some? && landed <= s.pending.value.granted
    ensures Sound(Failed(s, landed), config)
  {
    LandedPrefix(s, landed, config);
  }

  lemma ClosedSound(s: Sink, removed: bool, config: Config)
    requires Sound(s, config) && s.pending.None?
    ensures Sound(Discarded(s, removed), config) && Sound(Discarded(s.(cancelled := true), removed), config)
    ensures Sound(s.(stage := Published), config)
  {
  }

  lemma AppendingSound(st: Store, a: Action, config: Config)
    requires Inv(st, config) && Enabled(st, a) && (a.Append? || a.Written? || a.WriteFails?)
    ensures Sound(SinkAfter(st, a, config), config)
  {
    match a
    case Append(r, stream, chunk) => BegunSound(st.sinks[r], stream, chunk, Granting(st, a, config), config);
    case Written(r) => EndedSound(st.sinks[r], config);
    case WriteFails(r, landed) => FailedSound(st.sinks[r], landed, config);
  }

  lemma EndingSound(st: Store, a: Action, config: Config)
    requires Inv(st, config) && Enabled(st, a) && (a.Finalize? || a.Abort? || a.Purge?)
    ensures Sound(SinkAfter(st, a, config), config)
  {
    assert Sound(st.sinks[a.reference], config);
    ClosedSound(st.sinks[a.reference], true, config);
    ClosedSound(st.sinks[a.reference], false, config);
  }

  lemma SinkSound(st: Store, a: Action, config: Config)
    requires Inv(st, config) && Enabled(st, a)
    ensures Sound(SinkAfter(st, a, config), config)
  {
    if a.Append? || a.Written? || a.WriteFails? {
      AppendingSound(st, a, config);
    } else if a.Finalize? || a.Abort? || a.Purge? {
      EndingSound(st, a, config);
    } else if !a.Create? {
      assert Sound(st.sinks[a.reference], config);
    }
  }

  lemma QuotaSound(st: Store, a: Action, config: Config)
    requires Inv(st, config) && Enabled(st, a)
    ensures var q := QuotaAfter(st, a, config);
            && Valid(q) && q.maxBytes == st.quota.maxBytes && q.maxEntries == st.quota.maxEntries
            && (forall k :: k != a.reference ==> Charge(q, k) == Charge(st.quota, k))
            && Charge(q, a.reference) ==
               if a.Append? then Charge(st.quota, a.reference) + Granting(st, a, config)
               else if a.Release? then 0 else Charge(st.quota, a.reference)
  {
    if a.Append? && Granting(st, a, config) > 0 {
      ReserveMeaning(st.quota, a.reference, Requested(st.sinks[a.reference], a.chunk, config));
    } else if a.Release? {
      ReleaseMeaning(st.quota, a.reference);
    }
  }

  lemma StepKeepsInv(st: Store, a: Action, config: Config)
    requires Inv(st, config) && Enabled(st, a)
    ensures Inv(Do(st, a, config), config)
  {
    SinkSound(st, a, config);
    QuotaSound(st, a, config);
    ChargeCovers(st, a, config);
  }

  /** The charge of the sink that moved still covers it. */
  lemma ChargeCovers(st: Store, a: Action, config: Config)
    requires Inv(st, config) && Enabled(st, a)
    ensures var s := SinkAfter(st, a, config);
            Size(s.disk) + Holding(s) <= if a.Append? then Charge(st.quota, a.reference) + Granting(st, a, config)
                                        else if a.Release? then 0 else Charge(st.quota, a.reference)
  {
    if a.Written? || a.WriteFails? {
      LandedCovers(st.sinks[a.reference], config);
    } else if a.Append? {
      assert Sound(st.sinks[a.reference], config);
      BegunCovers(st.sinks[a.reference], a.stream, a.chunk, Granting(st, a, config));
    } else if !a.Create? {
      ClosedFiles(st, a, config);
      ClosedCovers(st.sinks[a.reference], SinkAfter(st, a, config), config);
    }
  }

  lemma ClosedFiles(st: Store, a: Action, config: Config)
    requires Enabled(st, a) && (a.Cancel? || a.Finalize? || a.Abort? || a.Purge? || a.Release?)
    ensures var s, r := st.sinks[a.reference], SinkAfter(st, a, config);
            (r.disk == s.disk || r.disk == EMPTY) && r.pending == s.pending
  {
  }

  /** The other steps leave the files or remove them, and nothing is charged for a sink that was removed. */
  lemma ClosedCovers(s: Sink, r: Sink, config: Config)
    requires Sound(s, config) && (r.disk == s.disk || r.disk == EMPTY) && r.pending == s.pending
    ensures Size(r.disk) + Holding(r) <= Size(s.disk) + Holding(s)
    ensures s.stage.Removed? ==> Size(r.disk) + Holding(r) == 0
  {
  }

  lemma BegunCovers(s: Sink, stream: Stream, chunk: Bytes, granted: nat)
    requires s.pending.None?
    ensures var b := Begun(s, stream, chunk, granted);
            Size(b.disk) + Holding(b) <= Size(s.disk) + Holding(s) + granted
  {
  }

  /** A write puts no more on disk than was held for it. */
  lemma LandedCovers(s: Sink, config: Config)
    requires Sound(s, config) && s.pending.Some?
    ensures var e := Ended(s, config);
            Size(e.disk) + Holding(e) <= Size(s.disk) + Holding(s)
    ensures forall landed :: 0 <= landed <= s.pending.value.granted ==>
              Size(Failed(s, landed).disk) + Holding(Failed(s, landed)) <= Size(s.disk) + Holding(s)
  {
  }

  lemma {:induction false} ReachableInv(from: Store, config: Config, actions: seq<Action>, st: Store)
    requires Initial(from) && Reaches(from, config, actions, st)
    ensures Inv(st, config) && st.quota.maxBytes == from.quota.maxBytes && st.quota.maxEntries == from.quota.maxEntries
    decreases |actions|
  {
    if actions != [] {
      var a := actions[|actions| - 1];
      var before :| Reaches(from, config, actions[..|actions| - 1], before) && Enabled(before, a)
        && st == Do(before, a, config);
      ReachableInv(from, config, actions[..|actions| - 1], before);
      StepKeepsInv(before, a, config);
      QuotaSound(before, a, config);
    }
  }

  // ---------------------------------------------------------------- the results

  /** The bytes each reference has on disk. */
  function OnDisk(st: Store): map<Ref, nat> {
    map r | r in st.sinks :: Size(st.sinks[r].disk)
  }

  /** In every interleaving the quota's total is the sum of its charges within both limits, each reference's charge
      covers its files, and therefore everything on disk together stays within the byte limit. */
  lemma LedgerHolds(from: Store, config: Config, actions: seq<Action>, st: Store)
    requires Initial(from) && Reaches(from, config, actions, st)
    ensures st.quota.total == Sum(st.quota.charges) <= from.quota.maxBytes
            && |st.quota.charges| <= from.quota.maxEntries
    ensures forall r :: r in st.sinks ==> Size(st.sinks[r].disk) <= Charge(st.quota, r)
    ensures Sum(OnDisk(st)) <= from.quota.maxBytes
  {
    ReachableInv(from, config, actions, st);
    assert forall r :: r in st.sinks ==> Size(st.sinks[r].disk) + Holding(st.sinks[r]) <= Charge(st.quota, r);
    SumCovered(OnDisk(st), st.quota.charges);
  }

  /** What the files hold is a prefix of what was appended, stream by stream; in a sink that is between appends and was
      neither cancelled nor failed, it is all of it exactly if no limit was reported. */
  lemma StoredIsPrefix(from: Store, config: Config, actions: seq<Action>, st: Store, r: Ref)
    requires Initial(from) && Reaches(from, config, actions, st) && r in st.sinks
    ensures var s := st.sinks[r];
            && Prefix(s.disk.out, s.appended.out) && Prefix(s.disk.err, s.appended.err)
            && (s.stage.Open? && s.pending.None? && !s.cancelled && !s.fatal ==> (s.disk == s.appended <==> !s.limited))
  {
    ReachableInv(from, config, actions, st);
    assert Sound(st.sinks[r], config);
  }

  /** A finalize that meets no trouble publishes the reference exactly if some stream exceeds the inline limit; its
      inline text is the first bytes stored, which is everything if the reference is not published. */
  lemma PublishedExactlyWhenNeeded(from: Store, config: Config, actions: seq<Action>, st: Store, r: Ref)
    requires Initial(from) && Reaches(from, config, actions, st) && Enabled(st, Finalize(r, Fine)) && !st.sinks[r].fatal
    ensures var s, s' := st.sinks[r], Do(st, Finalize(r, Fine), config).sinks[r];
            && (s'.stage.Published? <==> |s.disk.out| > config.inlineBytes || |s.disk.err| > config.inlineBytes)
            && (s'.stage.Published? ==> s'.disk == s.disk)
            && s'.inline.out == Head(s.disk.out, config.inlineBytes)
            && s'.inline.err == Head(s.disk.err, config.inlineBytes)
            && (!s'.stage.Published? ==> s'.stage.Removed? && s'.inline == s.disk)
  {
    ReachableInv(from, config, actions, st);
    assert Sound(st.sinks[r], config);
  }

  /** What an append may store: as much of the chunk as the execution's limit and the quota leave room for, and nothing
      if the reference would be one too many. */
  function Room(st: Store, r: Ref, chunk: Bytes, config: Config): nat
    requires r in st.sinks && st.quota.total <= st.quota.maxBytes
  {
    if r !in st.quota.charges && |st.quota.charges| >= st.quota.maxEntries then 0
    else if config.maxStored <= Size(st.sinks[r].disk) then 0
    else Min(|chunk|, Min(config.maxStored - Size(st.sinks[r].disk), st.quota.maxBytes - st.quota.total))
  }

  /** An append to a sink that has not stopped stores exactly that, once its write has succeeded, and reports a limit
      exactly if that is not the whole chunk; with no room it does so at once. */
  lemma AppendStores(from: Store, config: Config, actions: seq<Action>, st: Store, r: Ref, stream: Stream, chunk: Bytes)
    requires Initial(from) && Reaches(from, config, actions, st)
    requires Enabled(st, Append(r, stream, chunk)) && !Stopped(st.sinks[r]) && chunk != []
    ensures var n, begun := Room(st, r, chunk, config), Do(st, Append(r, stream, chunk), config);
            if n == 0 then begun.sinks[r].limited && begun.sinks[r].disk == st.sinks[r].disk && begun.quota == st.quota
            else
              && Charge(begun.quota, r) == Charge(st.quota, r) + n
              && Enabled(begun, Written(r))
              && var s := Do(begun, Written(r), config).sinks[r];
                 s.disk == Plus(st.sinks[r].disk, stream, chunk[..n]) && (s.limited <==> n < |chunk|) && s.pending.None?
  {
    ReachableInv(from, config, actions, st);
    var n := Room(st, r, chunk, config);
    assert Granting(st, Append(r, stream, chunk), config) == n;
    if n > 0 {
      ReserveMeaning(st.quota, r, Requested(st.sinks[r], chunk, config));
    }
  }

  /** A sink that is finalized or aborted is not open any more, whatever trouble that meets with. */
  lemma EndingCloses(st: Store, config: Config, a: Action)
    requires Enabled(st, a) && (a.Finalize? || a.Abort?)
    ensures var s := Do(st, a, config).sinks[a.reference];
            s.stage.Published? || s.stage.Left? || (s.stage.Removed? && s.disk == EMPTY)
  {
  }

  /** The charge of a sink whose files are gone is given back. */
  lemma ReleaseGivesBack(from: Store, config: Config, actions: seq<Action>, st: Store, r: Ref)
    requires Initial(from) && Reaches(from, config, actions, st) && r in st.sinks && st.sinks[r].stage.Removed?
    ensures Enabled(st, Release(r))
    ensures var released := Do(st, Release(r), config);
            released.sinks[r].stage.Released? && r !in released.quota.charges
  {
    ReachableInv(from, config, actions, st);
    ReleaseMeaning(st.quota, r);
  }

  /** What was published or left behind can be removed. */
  lemma PurgeRemoves(st: Store, config: Config, r: Ref)
    requires r in st.sinks && (st.sinks[r].stage.Published? || st.sinks[r].stage.Left?)
    ensures Enabled(st, Purge(r))
    ensures var s := Do(st, Purge(r), config).sinks[r];
            s.stage.Removed? && s.disk == EMPTY
  {
  }
}
