/** The rolling output log of a task and its tail cursors (src/core/task-store.ts). */
module RollingLog {
  import opened Basics
  import opened Seqs
  import opened Utf8

  datatype Result<+T> = Ok(value: T) | InvalidCursor

  /** `nextOffset == requested + droppedBytes + |bytes|`. */
  datatype TailRead = TailRead(bytes: seq<byte>, droppedBytes: nat, nextOffset: nat)

  /** The bytes one read takes from what is retained past its cursor. */
  function Take(available: seq<byte>, limit: nat, terminal: bool): (bytes: seq<byte>)
    ensures |bytes| <= |available|
  {
    var first := available[..Min(|available|, limit)];
    var whole := if first != [] && CompletePrefix(first) == 0
      then available[..Min(|available|, SequenceLength(first[0]))] else first;
    if terminal && |whole| == |available| then whole else whole[..CompletePrefix(whole)]
  }

  /** The byte selection of RollingByteLog.read, over the retained bytes from its effective offset on. */
  method TakeBytes(available: seq<byte>, limit: nat, terminal: bool) returns (bytes: seq<byte>)
    ensures bytes == Take(available, limit, terminal)
  {
    bytes := available[..Min(|available|, limit)];
    var completeBytes := CompleteUtf8PrefixLength(bytes);
    if |bytes| > 0 && completeBytes == 0 {
      var partialLength := |bytes| - completeBytes;
      var expectedLength := SequenceLength(bytes[completeBytes]);
      var missingBytes := if expectedLength > partialLength then expectedLength - partialLength else 0;
      if missingBytes > 0 {
        bytes := available[..Min(|available|, |bytes| + missingBytes)];
      }
    }
    if !terminal || |bytes| < |available| {
      var keep := CompleteUtf8PrefixLength(bytes);
      bytes := bytes[..keep];
    }
  }

  /** A read cuts cleanly, and it is empty only while the last character is still arriving. */
  ghost predicate GoodTake(available: seq<byte>, bytes: seq<byte>, terminal: bool) {
    && bytes <= available
    && ((terminal && bytes == available) || Decode(Ground, bytes).0.Ground?
        || (|bytes| < |available| && !IsContinuation(available[|bytes|])))
    && (bytes == [] ==> available == [] || (!terminal && PartialTail(available, 0)))
  }

  lemma TakeIsGood(available: seq<byte>, limit: nat, terminal: bool)
    requires limit >= 1
    ensures GoodTake(available, Take(available, limit, terminal), terminal)
  {
    var first := available[..Min(|available|, limit)];
    var whole := if first != [] && CompletePrefix(first) == 0
      then available[..Min(|available|, SequenceLength(first[0]))] else first;
    var keep := CompletePrefix(whole);
    CompletePrefixMeaning(whole);
    CompletePrefixMeaning(first);
    if keep == |whole| {
      assert whole[..keep] == whole;
      CompleteMeansGround(whole);
    } else {
      assert available[keep] == whole[keep];
    }
    if available != [] && keep == 0 && !(terminal && |whole| == |available|) {
      assert PartialTail(whole, 0) && whole[0] == available[0] == first[0];
      assert PartialTail(first, 0);
      assert |whole| == |available|;
      assert whole == available;
    }
  }

  class RollingByteLog {
    const limit: nat
    var buffer: seq<byte>
    var startOffset: nat
    var totalBytes: nat
    /** Every byte ever appended. */
    ghost var history: seq<byte>

    /** The buffer is exactly the last min(limit, total) bytes. */
    ghost predicate Valid()
      reads this
    {
      && totalBytes == |history|
      && |buffer| == Min(limit, totalBytes)
      && startOffset == totalBytes - |buffer|
      && buffer == history[startOffset..]
    }

    constructor (limit: nat)
      ensures Valid() && history == [] && this.limit == limit
    {
      this.limit := limit;
      buffer, startOffset, totalBytes, history := [], 0, 0, [];
    }

    method Append(chunk: seq<byte>)
      requires Valid()
      modifies this
      ensures Valid() && history == old(history) + chunk
    {
      totalBytes := totalBytes + |chunk|;
      buffer := buffer + chunk;
      history := history + chunk;
      if |buffer| > limit {
        var overflow := |buffer| - limit;
        buffer := buffer[overflow..];
        startOffset := startOffset + overflow;
      }
    }

    method Read(requestedOffset: int, limit: nat, terminal: bool) returns (r: Result<TailRead>)
      requires Valid()
      ensures r.Ok? <==> 0 <= requestedOffset <= totalBytes
      ensures r.Ok? ==>
                var from := if requestedOffset < startOffset then startOffset else requestedOffset;
                && r.value.bytes == Take(buffer[from - startOffset..], limit, terminal)
                && r.value.droppedBytes == from - requestedOffset
                && r.value.nextOffset == from + |r.value.bytes| <= totalBytes
    {
      if requestedOffset < 0 || requestedOffset > totalBytes {
        return InvalidCursor;
      }
      var effectiveOffset := if requestedOffset < startOffset then startOffset else requestedOffset;
      var droppedBytes := effectiveOffset - requestedOffset;
      var relative := effectiveOffset - startOffset;
      var bytes := TakeBytes(buffer[relative..], limit, terminal);
      r := Ok(TailRead(bytes, droppedBytes, effectiveOffset + |bytes|));
    }
  }

  // ---------------------------------------------------------------- following one stream

  /** The cursor interrupts no character that later bytes could complete. */
  ghost predicate RestsAt(history: seq<byte>, cursor: int, terminal: bool) {
    && 0 <= cursor <= |history|
    && (Decode(Ground, history[..cursor]).0.Ground?
        || (cursor < |history| && !IsContinuation(history[cursor]))
        || (terminal && cursor == |history|))
  }

  lemma ReadRests(history: seq<byte>, cursor: int, bytes: seq<byte>, terminal: bool)
    requires RestsAt(history, cursor, terminal) && GoodTake(history[cursor..], bytes, terminal)
    ensures cursor + |bytes| <= |history| && RestsAt(history, cursor + |bytes|, terminal)
    ensures Text(history[..cursor + |bytes|]) == Text(history[..cursor]) + Text(bytes)
  {
    if bytes == [] {
      assert Text(bytes) == [];
      assert Text(history[..cursor]) + [] == Text(history[..cursor]);
    } else {
      RestsNext(history, cursor, bytes, terminal);
    }
  }

  lemma RestsNext(history: seq<byte>, cursor: int, bytes: seq<byte>, terminal: bool)
    requires RestsAt(history, cursor, terminal) && bytes != [] && GoodTake(history[cursor..], bytes, terminal)
    ensures cursor + |bytes| <= |history| && RestsAt(history, cursor + |bytes|, terminal)
    ensures Text(history[..cursor + |bytes|]) == Text(history[..cursor]) + Text(bytes)
  {
    var next := cursor + |bytes|;
    assert history[..cursor] + bytes == history[..next];
    assert bytes[0] == history[cursor];
    CutCleanly(history[..cursor], bytes);
    assert next < |history| ==> history[next] == history[cursor..][|bytes|];
  }

  /** Bytes after a clean cut: their text is added, and the decoder forgets what came before. */
  lemma CutCleanly(front: seq<byte>, bytes: seq<byte>)
    requires CleanCut(front, bytes) && bytes != []
    ensures Text(front + bytes) == Text(front) + Text(bytes)
    ensures Decode(Ground, front + bytes).0 == Decode(Ground, bytes).0
  {
    CleanCutInterruptsNothing(front, bytes);
    TextSplits(front, bytes);
    StateAfterCleanCut(front, bytes);
  }

  // ---------------------------------------------------------------- the tail of a task

  datatype Stream = Stdout | Stderr

  datatype Tail = Tail(stdout: TailRead, stderr: TailRead, eof: bool)

  class Task {
    const stdout: RollingByteLog
    const stderr: RollingByteLog
    var running: bool

    ghost predicate Valid()
      reads this, stdout, stderr
    {
      stdout != stderr && stdout.Valid() && stderr.Valid()
    }

    constructor (logLimit: nat)
      ensures Valid() && running && fresh(stdout) && fresh(stderr)
      ensures stdout.history == [] && stderr.history == []
    {
      stdout := new RollingByteLog(logLimit);
      stderr := new RollingByteLog(logLimit);
      running := true;
    }

    /** The worker's append: ignored once terminal. */
    method Append(stream: Stream, chunk: seq<byte>)
      requires Valid()
      modifies stdout, stderr
      ensures Valid()
      ensures stdout.history == old(stdout.history) + if running && stream.Stdout? then chunk else []
      ensures stderr.history == old(stderr.history) + if running && stream.Stderr? then chunk else []
    {
      if running {
        if stream.Stdout? {
          stdout.Append(chunk);
        } else {
          stderr.Append(chunk);
        }
      }
    }

    /** One tail call; the cursor is the pair of stream offsets. */
    method TailFrom(o: int, e: int, limit: nat) returns (r: Result<Tail>)
      requires Valid() && limit >= 1
      ensures r.Ok? <==> 0 <= o <= stdout.totalBytes && 0 <= e <= stderr.totalBytes
      ensures r.Ok? ==> IsTailOf(stdout, o, !running, r.value.stdout) && IsTailOf(stderr, e, !running, r.value.stderr)
      ensures r.Ok? ==> (r.value.eof <==>
                !running && r.value.stdout.nextOffset == stdout.totalBytes
                  && r.value.stderr.nextOffset == stderr.totalBytes)
    {
      var terminal := !running;
      var out := ReadTail(stdout, o, limit, terminal);
      if out.InvalidCursor? {
        return InvalidCursor;
      }
      var err := ReadTail(stderr, e, limit, terminal);
      if err.InvalidCursor? {
        return InvalidCursor;
      }
      r := Ok(Tail(out.value, err.value,
                   terminal && out.value.nextOffset >= stdout.totalBytes && err.value.nextOffset >= stderr.totalBytes));
    }
  }

  method ReadTail(log: RollingByteLog, cursor: int, limit: nat, terminal: bool) returns (r: Result<TailRead>)
    requires log.Valid() && limit >= 1
    ensures r.Ok? <==> 0 <= cursor <= log.totalBytes
    ensures r.Ok? ==> IsTailOf(log, cursor, terminal, r.value)
  {
    r := log.Read(cursor, limit, terminal);
    if r.Ok? {
      TakenTail(log.buffer, log.history, log.startOffset, cursor, limit, terminal, r.value);
    }
  }

  /** What RollingByteLog.read returns is a tail of everything that was appended. */
  lemma TakenTail(buffer: seq<byte>, history: seq<byte>, start: nat, cursor: nat, limit: nat, terminal: bool,
                  t: TailRead)
    requires start <= |history| && buffer == history[start..] && cursor <= |history| && limit >= 1
    requires var from := if cursor < start then start else cursor;
             && t.bytes == Take(buffer[from - start..], limit, terminal)
             && t.droppedBytes == from - cursor && t.nextOffset == from + |t.bytes|
    ensures IsTail(history, start, cursor, terminal, t)
  {
    var from := if cursor < start then start else cursor;
    RetainedTake(buffer, history, start, from, limit, terminal, t.bytes);
  }

  /** The bytes of a good read are a slice, and on a finished stream there are some before its end. */
  lemma TakenSlice(history: seq<byte>, from: nat, bytes: seq<byte>, terminal: bool)
    requires from <= |history| && GoodTake(history[from..], bytes, terminal)
    ensures IsSlice(history, from, bytes)
    ensures terminal && from < |history| ==> bytes != []
  {
    assert history[from..][..|bytes|] == history[from..from + |bytes|];
  }

  /** A take from the retained bytes is a good take from everything that was appended. */
  lemma RetainedTake(buffer: seq<byte>, history: seq<byte>, start: nat, from: nat, limit: nat, terminal: bool,
                     bytes: seq<byte>)
    requires start <= from <= |history| && buffer == history[start..] && limit >= 1
    requires bytes == Take(buffer[from - start..], limit, terminal)
    ensures GoodTake(history[from..], bytes, terminal) && IsSlice(history, from, bytes)
    ensures terminal && from < |history| ==> bytes != []
  {
    assert buffer[from - start..] == history[from..];
    TakeIsGood(history[from..], limit, terminal);
    TakenSlice(history, from, bytes, terminal);
  }

  predicate IsSlice(history: seq<byte>, from: nat, bytes: seq<byte>) {
    from + |bytes| <= |history| && history[from..from + |bytes|] == bytes
  }

  /** A read at `cursor` of a stream retained from `start` on: it reports what was dropped, returns the next piece,
      stops short of an unfinished character, and advances before the end of a finished stream. */
  ghost predicate IsTail(history: seq<byte>, start: nat, cursor: int, terminal: bool, t: TailRead) {
    && 0 <= cursor && cursor + t.droppedBytes <= |history|
    && t.droppedBytes == (if cursor < start then start - cursor else 0)
    && GoodTake(history[cursor + t.droppedBytes..], t.bytes, terminal)
    && IsSlice(history, cursor + t.droppedBytes, t.bytes)
    && (terminal && cursor < |history| ==> cursor < t.nextOffset)
    && t.nextOffset == cursor + t.droppedBytes + |t.bytes|
  }

  ghost predicate IsTailOf(log: RollingByteLog, cursor: int, terminal: bool, t: TailRead)
    reads log
  {
    IsTail(log.history, log.startOffset, cursor, terminal, t)
  }

  // ---------------------------------------------------------------- a reader of one stream

  /** What a reader of one stream has received: `bytes` after it was told that `lost` bytes are gone. */
  datatype Pieces = Start | More(front: Pieces, lost: nat, bytes: seq<byte>)

  /** The reader's cursor. */
  function End(r: Pieces): nat {
    match r
    case Start => 0
    case More(front, lost, bytes) => End(front) + lost + |bytes|
  }

  /** Where the last loss ended. */
  function Base(r: Pieces): nat {
    match r
    case Start => 0
    case More(front, lost, _) => if lost > 0 then End(front) + lost else Base(front)
  }

  /** The bytes and the texts received since then. */
  function Recent(r: Pieces): seq<byte> {
    match r
    case Start => []
    case More(front, lost, bytes) => if lost > 0 then bytes else Recent(front) + bytes
  }

  function RecentText(r: Pieces): seq<int> {
    match r
    case Start => []
    case More(front, lost, bytes) => if lost > 0 then Text(bytes) else RecentText(front) + Text(bytes)
  }

  /** Each piece is the slice of the stream at the cursor that it was read from, behind what was lost. */
  ghost predicate Slices(history: seq<byte>, r: Pieces) {
    match r
    case Start => true
    case More(front, lost, bytes) =>
      IsSlice(history, End(front) + lost, bytes) && Slices(history, front)
  }

  lemma {:induction false} SlicesFacts(history: seq<byte>, r: Pieces)
    requires Slices(history, r)
    ensures Base(r) <= End(r) <= |history| && Recent(r) == history[Base(r)..End(r)]
  {
    if r.More? {
      SlicesFacts(history, r.front);
      if r.lost == 0 {
        assert history[Base(r)..End(r.front)] + history[End(r.front)..End(r)] == history[Base(r)..End(r)];
      }
    }
  }

  lemma {:induction false} SlicesAppend(history: seq<byte>, chunk: seq<byte>, r: Pieces)
    requires Slices(history, r)
    ensures Slices(history + chunk, r)
  {
    if r.More? {
      SlicesAppend(history, chunk, r.front);
      var from, end := End(r.front) + r.lost, End(r);
      assert (history + chunk)[from..end] == history[from..end];
    }
  }

  /** The texts since the last loss are the text of those bytes, and the cursor rests. */
  ghost predicate Texts(rest: seq<byte>, cursor: int, text: seq<int>, terminal: bool) {
    RestsAt(rest, cursor, terminal) && text == Text(rest[..cursor])
  }

  /** The account of a reader: slices of the stream, and the right texts since the last loss. */
  ghost predicate Accounts(history: seq<byte>, r: Pieces, terminal: bool) {
    && Slices(history, r) && Base(r) <= End(r) <= |history|
    && Texts(history[Base(r)..], End(r) - Base(r), RecentText(r), terminal)
  }

  /** The reader of a log, none of whose retained bytes it has lost. */
  ghost predicate Reads(log: RollingByteLog, r: Pieces, terminal: bool)
    reads log
  {
    log.Valid() && Accounts(log.history, r, terminal) && Base(r) <= log.startOffset
  }

  function Received(r: Pieces, t: TailRead): (r': Pieces) {
    More(r, t.droppedBytes, t.bytes)
  }

  lemma TextsGrow(rest: seq<byte>, cursor: int, text: seq<int>, bytes: seq<byte>, next: int, more: seq<int>,
                  terminal: bool)
    requires Texts(rest, cursor, text, terminal) && GoodTake(rest[cursor..], bytes, terminal)
    requires next == cursor + |bytes| && more == text + Text(bytes)
    ensures Texts(rest, next, more, terminal)
  {
    ReadRests(rest, cursor, bytes, terminal);
  }

  lemma TextsStart(rest: seq<byte>, bytes: seq<byte>, next: int, more: seq<int>, terminal: bool)
    requires GoodTake(rest, bytes, terminal) && next == |bytes| && more == Text(bytes)
    ensures Texts(rest, next, more, terminal)
  {
    assert rest[..0] == [] && rest[0..] == rest;
    assert Text([]) == [] && [] + Text(bytes) == Text(bytes);
    TextsGrow(rest, 0, [], bytes, next, more, terminal);
  }

  lemma LossTexts(history: seq<byte>, from: nat, bytes: seq<byte>, base: nat, next: int, more: seq<int>, terminal: bool)
    requires from <= |history| && GoodTake(history[from..], bytes, terminal)
    requires base == from && next == |bytes| && more == Text(bytes)
    ensures Texts(history[base..], next, more, terminal)
  {
    TextsStart(history[from..], bytes, next, more, terminal);
  }

  lemma NextTexts(history: seq<byte>, base: nat, end: nat, text: seq<int>, bytes: seq<byte>, next: int, more: seq<int>,
                  terminal: bool)
    requires base <= end <= |history| && Texts(history[base..], end - base, text, terminal)
             && GoodTake(history[end..], bytes, terminal)
    requires next == end - base + |bytes| && more == text + Text(bytes)
    ensures Texts(history[base..], next, more, terminal)
  {
    assert history[base..][end - base..] == history[end..];
    TextsGrow(history[base..], end - base, text, bytes, next, more, terminal);
  }

  lemma Assemble(history: seq<byte>, r: Pieces, base: nat, next: int, text: seq<int>, terminal: bool)
    requires Slices(history, r) && base == Base(r) <= End(r) <= |history| && next == End(r) - base
             && text == RecentText(r)
    requires Texts(history[base..], next, text, terminal)
    ensures Accounts(history, r, terminal)
  {
  }

  /** A read that reports a loss starts a new account of texts. */
  lemma LossKeeps(history: seq<byte>, r: Pieces, lost: nat, bytes: seq<byte>, terminal: bool)
    requires Slices(history, r) && 0 < lost && IsSlice(history, End(r) + lost, bytes)
    requires GoodTake(history[End(r) + lost..], bytes, terminal)
    ensures Accounts(history, More(r, lost, bytes), terminal)
  {
    var from := End(r) + lost;
    LossTexts(history, from, bytes, from, |bytes|, Text(bytes), terminal);
    Assemble(history, More(r, lost, bytes), from, |bytes|, Text(bytes), terminal);
  }

  /** A read without a loss continues it. */
  lemma NextKeeps(history: seq<byte>, r: Pieces, bytes: seq<byte>, terminal: bool)
    requires Accounts(history, r, terminal) && IsSlice(history, End(r), bytes)
             && GoodTake(history[End(r)..], bytes, terminal)
    ensures Accounts(history, More(r, 0, bytes), terminal)
  {
    var base, next, more := Base(r), End(r) - Base(r) + |bytes|, RecentText(r) + Text(bytes);
    NextTexts(history, base, End(r), RecentText(r), bytes, next, more, terminal);
    Assemble(history, More(r, 0, bytes), base, next, more, terminal);
  }

  /** A read keeps the account. */
  lemma ReadKeeps(history: seq<byte>, r: Pieces, lost: nat, bytes: seq<byte>, terminal: bool)
    requires Accounts(history, r, terminal) && IsSlice(history, End(r) + lost, bytes)
    requires GoodTake(history[End(r) + lost..], bytes, terminal)
    ensures Accounts(history, More(r, lost, bytes), terminal)
  {
    if lost > 0 {
      LossKeeps(history, r, lost, bytes, terminal);
    } else {
      assert End(r) + lost == End(r);
      NextKeeps(history, r, bytes, terminal);
    }
  }

  lemma AppendKeeps(history: seq<byte>, chunk: seq<byte>, r: Pieces)
    requires Accounts(history, r, false)
    ensures Accounts(history + chunk, r, false)
  {
    var rest, cursor := history[Base(r)..], End(r) - Base(r);
    SlicesAppend(history, chunk, r);
    assert (history + chunk)[Base(r)..] == rest + chunk;
    assert (rest + chunk)[..cursor] == rest[..cursor];
  }

  lemma TailMoves(start: nat, r: Pieces, t: TailRead)
    requires t.droppedBytes == (if End(r) < start then start - End(r) else 0)
    ensures End(Received(r, t)) == End(r) + t.droppedBytes + |t.bytes|
    ensures Base(Received(r, t)) == if End(r) < start then start else Base(r)
  {
  }

  lemma TailKeeps(history: seq<byte>, start: nat, r: Pieces, t: TailRead, terminal: bool)
    requires Accounts(history, r, terminal) && IsTail(history, start, End(r), terminal, t)
    ensures Accounts(history, Received(r, t), terminal)
  {
    ReadKeeps(history, r, t.droppedBytes, t.bytes, terminal);
  }

  /** The same on a log; before the end of a finished one a read advances. */
  lemma LogReadKeeps(log: RollingByteLog, r: Pieces, t: TailRead, terminal: bool)
    requires Reads(log, r, terminal) && IsTailOf(log, End(r), terminal, t)
    ensures Reads(log, Received(r, t), terminal) && End(Received(r, t)) == t.nextOffset >= End(r)
    ensures terminal && End(r) < log.totalBytes ==> End(r) < t.nextOffset
    ensures BaseAfter(log, Received(r, t)) == Base(Received(r, t)) == BaseAfter(log, r)
  {
    TailMoves(log.startOffset, r, t);
    TailKeeps(log.history, log.startOffset, r, t, terminal);
  }

  // ---------------------------------------------------------------- polling a finished task

  /** One poll of a finished task: both readers keep their accounts, and each one that is not at its end advances. */
  method PollOnce(task: Task, out: Pieces, err: Pieces, limit: nat) returns (out': Pieces, err': Pieces, eof: bool)
    requires task.Valid() && !task.running && limit >= 1
    requires Reads(task.stdout, out, true) && Reads(task.stderr, err, true)
    ensures Reads(task.stdout, out', true) && Reads(task.stderr, err', true)
    ensures End(out) <= End(out') && (End(out) < task.stdout.totalBytes ==> End(out) < End(out'))
    ensures End(err) <= End(err') && (End(err) < task.stderr.totalBytes ==> End(err) < End(err'))
    ensures eof <==> End(out') == task.stdout.totalBytes && End(err') == task.stderr.totalBytes
    ensures BaseAfter(task.stdout, out') == Base(out') == BaseAfter(task.stdout, out)
    ensures BaseAfter(task.stderr, err') == Base(err') == BaseAfter(task.stderr, err)
  {
    var r := task.TailFrom(End(out), End(err), limit);
    LogReadKeeps(task.stdout, out, r.value.stdout, true);
    LogReadKeeps(task.stderr, err, r.value.stderr, true);
    out', err', eof := Received(out, r.value.stdout), Received(err, r.value.stderr), r.value.eof;
  }

  /** Where the reader's last loss will end once it has read again. */
  ghost function BaseAfter(log: RollingByteLog, r: Pieces): nat
    reads log
  {
    if End(r) < log.startOffset then log.startOffset else Base(r)
  }

  /** Polling a finished task from any account terminates, at the end of both streams. */
  method Drain(task: Task, o: Pieces, e: Pieces) returns (out: Pieces, err: Pieces)
    requires task.Valid() && !task.running && Reads(task.stdout, o, true) && Reads(task.stderr, e, true)
    ensures Reads(task.stdout, out, true) && End(out) == task.stdout.totalBytes
            && Base(out) == BaseAfter(task.stdout, o)
    ensures Reads(task.stderr, err, true) && End(err) == task.stderr.totalBytes
            && Base(err) == BaseAfter(task.stderr, e)
    decreases task.stdout.totalBytes - End(o) + task.stderr.totalBytes - End(e)
  {
    var limit: nat :| limit >= 1;
    var eof;
    out, err, eof := PollOnce(task, o, e, limit);
    if !eof {
      out, err := Drain(task, out, err);
    }
  }

  /** A reader at the end: since its last loss it has every byte and the text of them. */
  lemma AtEnd(log: RollingByteLog, r: Pieces)
    requires Reads(log, r, true) && End(r) == log.totalBytes
    ensures Recent(r) == log.history[Base(r)..] && RecentText(r) == Text(log.history[Base(r)..])
  {
    var rest := log.history[Base(r)..];
    SlicesFacts(log.history, r);
    assert rest[..|rest|] == rest && log.history[Base(r)..End(r)] == rest;
  }

  lemma StartReads(log: RollingByteLog, terminal: bool)
    requires log.Valid()
    ensures Reads(log, Start, terminal)
  {
    assert log.history[0..][..0] == [] && Text([]) == [];
  }

  /** Polling a finished task from the start returns each retained byte of both streams exactly once, with texts that
      concatenate to the text of what is retained. */
  method DrainFinished(task: Task) returns (out: Pieces, err: Pieces)
    requires task.Valid() && !task.running
    ensures Recent(out) == task.stdout.buffer && RecentText(out) == Text(task.stdout.buffer)
    ensures Recent(err) == task.stderr.buffer && RecentText(err) == Text(task.stderr.buffer)
  {
    StartReads(task.stdout, true);
    StartReads(task.stderr, true);
    out, err := Drain(task, Start, Start);
    AtEnd(task.stdout, out);
    AtEnd(task.stderr, err);
  }

  // ---------------------------------------------------------------- following a task from its start to its end

  datatype Event = Append(stream: Stream, chunk: seq<byte>) | Poll(limit: nat)

  /** Output that arrives while a reader is between two polls. */
  method OutputArrives(task: Task, stream: Stream, chunk: seq<byte>, ghost o: Pieces, ghost e: Pieces)
    requires task.Valid() && task.running && Reads(task.stdout, o, false) && Reads(task.stderr, e, false)
    modifies task.stdout, task.stderr
    ensures task.Valid() && Reads(task.stdout, o, false) && Reads(task.stderr, e, false)
  {
    AppendKeeps(task.stdout.history, if stream.Stdout? then chunk else [], o);
    AppendKeeps(task.stderr.history, if stream.Stderr? then chunk else [], e);
    task.Append(stream, chunk);
  }

  method PollRunning(task: Task, o: Pieces, e: Pieces, limit: nat) returns (out: Pieces, err: Pieces)
    requires task.Valid() && task.running && limit >= 1 && Reads(task.stdout, o, false) && Reads(task.stderr, e, false)
    ensures Reads(task.stdout, out, false) && Reads(task.stderr, err, false)
  {
    var r := task.TailFrom(End(o), End(e), limit);
    LogReadKeeps(task.stdout, o, r.value.stdout, false);
    LogReadKeeps(task.stderr, e, r.value.stderr, false);
    out, err := Received(o, r.value.stdout), Received(e, r.value.stderr);
  }

  lemma FinishKeeps(log: RollingByteLog, r: Pieces)
    requires Reads(log, r, false)
    ensures Reads(log, r, true)
  {
  }

  /** One reader follows a task while it runs, through its end, to eof, in any interleaving with its output and with any
      limits. Of each stream every piece is the slice that it claims to be, behind what was reported lost; the reader
      ends at the end; none of the bytes retained then is lost; and since the last loss it has the stream, also as
      text. */
  method FollowTask(task: Task, events: seq<Event>) returns (out: Pieces, err: Pieces)
    requires task.Valid() && task.running && forall i :: 0 <= i < |events| && events[i].Poll? ==> events[i].limit >= 1
    modifies task, task.stdout, task.stderr
    ensures task.Valid() && !task.running
    ensures Slices(task.stdout.history, out) && End(out) == |task.stdout.history|
            && Base(out) <= task.stdout.startOffset
    ensures Slices(task.stderr.history, err) && End(err) == |task.stderr.history|
            && Base(err) <= task.stderr.startOffset
    ensures Recent(out) == task.stdout.history[Base(out)..] && RecentText(out) == Text(task.stdout.history[Base(out)..])
    ensures Recent(err) == task.stderr.history[Base(err)..] && RecentText(err) == Text(task.stderr.history[Base(err)..])
  {
    out, err := Start, Start;
    StartReads(task.stdout, false);
    StartReads(task.stderr, false);
    for k := 0 to |events|
      invariant task.Valid() && task.running && Reads(task.stdout, out, false) && Reads(task.stderr, err, false)
    {
      match events[k]
      case Append(stream, chunk) => OutputArrives(task, stream, chunk, out, err);
      case Poll(limit) => out, err := PollRunning(task, out, err, limit);
    }
    FinishKeeps(task.stdout, out);
    FinishKeeps(task.stderr, err);
    task.running := false;
    out, err := Drain(task, out, err);
    AtEnd(task.stdout, out);
    AtEnd(task.stderr, err);
  }
}
