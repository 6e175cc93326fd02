/** Client and broker of a shared session composed over two FIFO channels (src/infra/putty-shared-executor.ts): the
    client's commands go out as RUN frames one at a time, the broker answers with BEGIN, OUT, ERR and END lines, and the
    bytes of the answers arrive in any pieces. */
module SharedSession {
  import opened Basics
  import opened Utf8
  import opened Base64
  import opened Frames
  import opened SessionParser
  import Sanitizer

  /** A terminal may turn the newline of a line into a return and a newline. */
  datatype Message = Message(event: Event, cr: bool)

  /** What the broker really ran and what it printed. */
  datatype Run = Run(request: Request, out: seq<byte>, err: seq<byte>, exit: nat)

  datatype Broker = Broker(running: Option<Run>, history: seq<Run>, dead: bool)

  datatype Submission = Submission(request: Request, limit: nat)

  /** `unread` names the lines still in `toClient` and in the parser's buffer, `heardOut` and `heardErr` the bytes of
      the current run whose lines were read; the three only record. */
  datatype System = System(parser: Parser, submitted: seq<Submission>, toBroker: seq<string>, broker: Broker,
                           toClient: seq<byte>, unread: seq<Message>, heardOut: seq<byte>, heardErr: seq<byte>)

  datatype Action =
    | Begin(submission: Submission)
    | Receive(cr: bool)                                  // the broker reads a frame
    | Print(stderr: bool, chunk: seq<byte>, cr: bool)    // the running command's output
    | Exit(code: nat, cr: bool)
    | Die(cr: bool)                                      // the broker gives up
    | Deliver                                            // one byte reaches the client
    | Poison                                             // abort, timeout or a broken pipe on the client's side

  function ToByte(c: char): byte {
    if c as int < 0x80 then c as int else 0x3F
  }

  function BytesOf(text: string): (r: seq<byte>) {
    seq(|text|, i requires 0 <= i < |text| => ToByte(text[i]))
  }

  function LineBytes(text: string, cr: bool): (r: seq<byte>) {
    BytesOf(text) + (if cr then [RETURN] else [])
  }

  function Send(s: System, prefix: string, e: Event, cr: bool): (r: System) {
    s.(toClient := s.toClient + LineBytes(Line(s.parser.session, prefix, e), cr) + [NEWLINE],
       unread := s.unread + [Message(e, cr)])
  }

  predicate Enabled(s: System, a: Action) {
    match a
    case Begin(submission) =>
      s.parser.phase.Idle? && s.parser.active.None? && IsNonce(submission.request.nonce)
      && submission.request.command != []
    case Receive(_) => !s.broker.dead && s.broker.running.None? && s.toBroker != []
    case Print(_, chunk, _) => !s.broker.dead && s.broker.running.Some? && chunk != []
    case Exit(code, _) => !s.broker.dead && s.broker.running.Some? && code <= 0xffff_ffff
    case Die(_) => !s.broker.dead
    case Deliver => s.toClient != []
    case Poison => true
  }

  /** The broker's expected sequence number. */
  function Expected(s: System): nat {
    |s.broker.history| + 1
  }

  function RunPrefix(s: System): string
    requires s.broker.running.Some?
  {
    Prefix(s.parser.session, Expected(s), s.broker.running.value.request.nonce)
  }

  function Printing(run: Run, stderr: bool, chunk: seq<byte>): Run {
    if stderr then run.(err := run.err + chunk) else run.(out := run.out + chunk)
  }

  /** The record of what was read, after one more line. */
  function Heard(s: System, e: Event): (r: System) {
    if e.Printed? then (if e.stderr then s.(heardErr := s.heardErr + e.chunk) else s.(heardOut := s.heardOut + e.chunk))
      else s
  }

  function Delivered(s: System): (r: System)
    requires s.toClient != []
  {
    var b := s.toClient[0];
    var s' := s.(parser := Feed(s.parser, b), toClient := s.toClient[1..]);
    if b == NEWLINE && s.unread != [] then Heard(s'.(unread := s.unread[1..]), s.unread[0].event) else s'
  }

  function Died(s: System, cr: bool): (r: System) {
    Send(s, "", Event.Died, cr).(broker := s.broker.(dead := true))
  }

  function Do(s: System, a: Action): (r: System)
    requires Enabled(s, a)
  {
    match a
    case Begin(submission) =>
      var n := |s.submitted| + 1;
      s.(parser := BeginCommand(s.parser, n, submission.request.nonce, submission.limit),
         submitted := s.submitted + [submission],
         toBroker := s.toBroker + [RunFrame(s.parser.session, n, submission.request)], heardOut := [], heardErr := [])
    case Receive(cr) =>
      var request := BrokerReads(s.parser.session, Expected(s), s.toBroker[0]);
      var s' := s.(toBroker := s.toBroker[1..]);
      if request.None? then Died(s', cr)
      else
        var started := s'.(broker := s.broker.(running := Some(Run(request.value, [], [], 0))));
        Send(started, RunPrefix(started), Began, cr)
    case Print(stderr, chunk, cr) =>
      var run := Printing(s.broker.running.value, stderr, chunk);
      Send(s, RunPrefix(s), Printed(stderr, chunk), cr).(broker := s.broker.(running := Some(run)))
    case Exit(code, cr) =>
      Send(s, RunPrefix(s), Exited(code), cr)
        .(broker := s.broker.(running := None, history := s.broker.history + [s.broker.running.value.(exit := code)]))
    case Die(cr) => Died(s, cr)
    case Deliver => Delivered(s)
    case Poison => s.(parser := Fail(s.parser))
  }

  /** A session that has just become ready. */
  function Start(session: string, hostname: seq<byte>): System {
    System(New(session).(phase := Idle, hostname := Some(hostname)), [], [], Broker(None, [], false), [], [], [], [])
  }

  ghost predicate Reaches(session: string, hostname: seq<byte>, actions: seq<Action>, s: System) {
    if actions == [] then s == Start(session, hostname)
    else
      var a := actions[|actions| - 1];
      exists before :: Reaches(session, hostname, actions[..|actions| - 1], before) && Enabled(before, a)
        && s == Do(before, a)
  }

  // ---------------------------------------------------------------- what a completion must say

  function OutputOf(limit: nat, bytes: seq<byte>): Output {
    Output(Head(limit, Sanitizer.Sanitize(bytes)), |Sanitizer.Sanitize(bytes)|)
  }

  /** The result owed for a run. */
  function Report(run: Run, limit: nat): Completion {
    Completion(run.exit, OutputOf(limit, run.out), OutputOf(limit, run.err))
  }

  ghost predicate Right(s: System, k: nat)
    requires k < |s.parser.completions|
  {
    && k < |s.broker.history| && k < |s.submitted|
    && s.broker.history[k].request == s.submitted[k].request
    && s.parser.completions[k] == Report(s.broker.history[k], s.submitted[k].limit)
  }

  // ---------------------------------------------------------------- lines on the wire

  predicate Printable(text: string) {
    forall i :: 0 <= i < |text| ==> '!' <= text[i] <= '~'
  }

  lemma PrintableLine(text: string, cr: bool)
    requires Printable(text)
    ensures NEWLINE !in LineBytes(text, cr)
    ensures WithoutReturn(LineBytes(text, cr)) == BytesOf(text)
    ensures ToText(BytesOf(text)) == Some(text)
  {
    var bytes := BytesOf(text);
    assert forall i :: 0 <= i < |bytes| ==> bytes[i] == text[i] as int && 0x21 <= bytes[i] < 0x7F;
    assert ToText(bytes).value == text;
    assert cr ==> LineBytes(text, cr)[..|bytes|] == bytes;
    assert !cr ==> LineBytes(text, cr) == bytes;
  }

  lemma PrefixPrintable(session: string, n: nat, nonce: string)
    requires IsNonce(session) && IsNonce(nonce)
    ensures Printable(Prefix(session, n, nonce))
  {
    NumberOfDecimal(n);
  }

  lemma TagPrintable(e: Event)
    ensures Printable(Tag(e))
  {
    if e.Printed? {
      EncodedChars(e.chunk);
    } else if e.Exited? {
      NumberOfDecimal(e.code);
    }
  }

  lemma LinePrintable(session: string, prefix: string, e: Event)
    requires IsNonce(session) && (Printable(prefix) || e.Died?)
    ensures Printable(Line(session, prefix, e))
  {
    TagPrintable(e);
  }

  /** The bytes of unread lines. */
  function Wire(session: string, prefix: string, unread: seq<Message>): (r: seq<byte>) {
    if unread == [] then []
    else
      LineBytes(Line(session, prefix, unread[0].event), unread[0].cr) + [NEWLINE] + Wire(session, prefix, unread[1..])
  }

  lemma Reassociate(a: seq<byte>, b: seq<byte>, c: seq<byte>, d: seq<byte>)
    ensures a + (b + c + d) == a + b + c + d
  {
  }

  lemma {:induction false} WireAppend(session: string, prefix: string, unread: seq<Message>, m: Message)
    ensures Wire(session, prefix, unread + [m]) ==
            Wire(session, prefix, unread) + LineBytes(Line(session, prefix, m.event), m.cr) + [NEWLINE]
  {
    if unread == [] {
      assert unread + [m] == [m] && [m][1..] == [];
    } else {
      WireAppend(session, prefix, unread[1..], m);
      assert (unread + [m])[1..] == unread[1..] + [m];
      Reassociate(LineBytes(Line(session, prefix, unread[0].event), unread[0].cr) + [NEWLINE],
                  Wire(session, prefix, unread[1..]),
                  LineBytes(Line(session, prefix, m.event), m.cr), [NEWLINE]);
    }
  }

  predicate AllDied(unread: seq<Message>) {
    forall i :: 0 <= i < |unread| ==> unread[i].event.Died?
  }

  lemma {:induction false} WireOfDied(session: string, prefix: string, other: string, unread: seq<Message>)
    requires AllDied(unread)
    ensures Wire(session, prefix, unread) == Wire(session, other, unread)
  {
    if unread != [] {
      WireOfDied(session, prefix, other, unread[1..]);
    }
  }

  /** Both strings up to their first newline. */
  lemma {:induction false} FirstNewline(a: seq<byte>, s: seq<byte>, b: seq<byte>, t: seq<byte>)
    requires NEWLINE !in a && NEWLINE !in b && a + [NEWLINE] + s == b + [NEWLINE] + t
    ensures a == b && s == t
    decreases |a|
  {
    var x, y := a + [NEWLINE] + s, b + [NEWLINE] + t;
    assert x[0] == y[0];
    if a == [] {
      assert b == [];
      assert x[1..] == s && y[1..] == t;
    } else {
      assert b != [];
      assert x[1..] == a[1..] + [NEWLINE] + s && y[1..] == b[1..] + [NEWLINE] + t;
      FirstNewline(a[1..], s, b[1..], t);
      assert a == [a[0]] + a[1..] && b == [b[0]] + b[1..];
    }
  }

  // ---------------------------------------------------------------- the parser on one line

  lemma AfterPrefix(prefix: string, tag: string, rest: string)
    ensures StartsWith(prefix + (tag + rest), prefix + tag)
    ensures |tag| == 5 ==> (prefix + (tag + rest))[|prefix| + 5..] == rest
  {
    assert prefix + (tag + rest) == prefix + tag + rest;
  }

  lemma OtherTag(prefix: string, tag: string, rest: string, other: string)
    requires |tag| >= 2 && |other| >= 2 && tag[1] != other[1]
    ensures !StartsWith(prefix + (tag + rest), prefix + other) && prefix + (tag + rest) != prefix + other
  {
    var line, start := prefix + (tag + rest), prefix + other;
    assert line[|prefix| + 1] == tag[1] && start[|prefix| + 1] == other[1];
  }

  lemma EndAndErr(prefix: string, tag: string, rest: string, other: string)
    requires |tag| == 5 && |other| == 5 && tag[2] != other[2]
    ensures !StartsWith(prefix + (tag + rest), prefix + other)
  {
    var line, start := prefix + (tag + rest), prefix + other;
    assert line[|prefix| + 2] == tag[2] && start[|prefix| + 2] == other[2];
  }

  lemma AcceptBegin(p: Parser, a: Active)
    ensures AcceptFor(p, a, a.prefix + Tag(Began)) == if a.began then Fail(p) else p.(active := Some(a.(began := true)))
  {
  }

  lemma AcceptPrinted(p: Parser, a: Active, stderr: bool, chunk: seq<byte>)
    requires chunk != []
    ensures AcceptFor(p, a, a.prefix + Tag(Printed(stderr, chunk))) == AcceptOutput(p, a, stderr, Encode(chunk))
  {
    var text := Encode(chunk);
    var tag := if stderr then ":ERR:" else ":OUT:";
    AfterPrefix(a.prefix, tag, text);
    OtherTag(a.prefix, tag, text, ":BEGIN");
    if stderr {
      OtherTag(a.prefix, tag, text, ":OUT:");
    }
  }

  lemma AcceptExited(p: Parser, a: Active, code: nat)
    ensures AcceptFor(p, a, a.prefix + Tag(Exited(code))) == AcceptEnd(p, a, Decimal(code))
  {
    var text := Decimal(code);
    AfterPrefix(a.prefix, ":END:", text);
    OtherTag(a.prefix, ":END:", text, ":BEGIN");
    OtherTag(a.prefix, ":END:", text, ":OUT:");
    EndAndErr(a.prefix, ":END:", text, ":ERR:");
  }

  /** What reading the line of an event does to a parser that waits for it. */
  function AfterEvent(p: Parser, a: Active, e: Event): (r: Parser) {
    match e
    case Began => if a.began then Fail(p) else p.(active := Some(a.(began := true)))
    case Printed(stderr, chunk) => AcceptOutput(p, a, stderr, Encode(chunk))
    case Exited(code) => AcceptEnd(p, a, Decimal(code))
    case Died => Fail(p)
  }

  lemma AcceptEvent(p: Parser, n: nat, nonce: string, e: Event)
    requires IsNonce(p.session) && IsNonce(nonce) && p.phase.Idle?
    requires p.active.Some? && p.active.value.prefix == Prefix(p.session, n, nonce)
    requires e.Printed? ==> e.chunk != []
    ensures Accept(p, BytesOf(Line(p.session, Prefix(p.session, n, nonce), e))) == AfterEvent(p, p.active.value, e)
  {
    var prefix := Prefix(p.session, n, nonce);
    PrefixPrintable(p.session, n, nonce);
    LinePrintable(p.session, prefix, e);
    PrintableLine(Line(p.session, prefix, e), false);
    match e {
      case Began =>
        AcceptBegin(p, p.active.value);
      case Printed(stderr, chunk) =>
        AcceptPrinted(p, p.active.value, stderr, chunk);
      case Exited(code) =>
        AcceptExited(p, p.active.value, code);
      case Died =>
    }
  }

  /** The events that a parser waits for. */
  predicate Wanted(a: Active, e: Event) {
    match e
    case Began => !a.began
    case Printed(_, chunk) => a.began && chunk != []
    case Exited(code) => a.began && code <= 0xffff_ffff
    case Died => false
  }

  /** The line is that of an event the parser waits for. */
  ghost predicate IsWanted(a: Active, raw: string) {
    exists e :: Wanted(a, e) && raw == a.prefix + Tag(e)
  }

  lemma Behind(raw: string, prefix: string, tag: string)
    requires |tag| == 5 && StartsWith(raw, prefix + tag)
    ensures raw == prefix + (tag + raw[|prefix| + 5..])
  {
    var rest := raw[|prefix| + 5..];
    assert raw == (prefix + tag) + rest;
  }

  lemma OutputWanted(p: Parser, a: Active, stderr: bool, raw: string)
    requires StartsWith(raw, a.prefix + if stderr then ":ERR:" else ":OUT:")
    ensures AcceptOutput(p, a, stderr, raw[|a.prefix| + 5..]) == Fail(p) || IsWanted(a, raw)
  {
    var encoded := raw[|a.prefix| + 5..];
    var decoded := DecodeStrict(encoded);
    if a.began && decoded.Some? {
      StrictIsCanonical(encoded, decoded.value);
      Behind(raw, a.prefix, if stderr then ":ERR:" else ":OUT:");
      var e := Printed(stderr, decoded.value);
      assert Wanted(a, e) && Tag(e) == (if stderr then ":ERR:" else ":OUT:") + encoded;
    }
  }

  lemma EndWanted(p: Parser, a: Active, raw: string)
    requires StartsWith(raw, a.prefix + ":END:")
    ensures AcceptEnd(p, a, raw[|a.prefix| + 5..]) == Fail(p) || IsWanted(a, raw)
  {
    var code := raw[|a.prefix| + 5..];
    var exit := ParseExit(code);
    if a.began && exit.Some? {
      ExitExactly(code, exit.value);
      Behind(raw, a.prefix, ":END:");
      var e := Exited(exit.value);
      assert Wanted(a, e) && Tag(e) == ":END:" + code;
    }
  }

  lemma OnlyWanted(p: Parser, a: Active, raw: string)
    ensures AcceptFor(p, a, raw) == Fail(p) || IsWanted(a, raw)
  {
    if raw == a.prefix + ":BEGIN" {
      assert Tag(Began) == ":BEGIN" && (!a.began ==> Wanted(a, Began));
    } else if StartsWith(raw, a.prefix + ":OUT:") {
      OutputWanted(p, a, false, raw);
    } else if StartsWith(raw, a.prefix + ":ERR:") {
      OutputWanted(p, a, true, raw);
    } else if StartsWith(raw, a.prefix + ":END:") {
      EndWanted(p, a, raw);
    }
  }

  /** Once ready, a parser takes nothing but the lines of the events it waits for: any other line, however near to one,
      and any line between commands, ends the session. */
  lemma OnlyWantedLines(p: Parser, line: seq<byte>)
    requires p.phase.Idle?
    ensures || Accept(p, line) == Fail(p)
            || (p.active.Some? && ToText(line).Some? && IsWanted(p.active.value, ToText(line).value))
  {
    if ToText(line).Some? && p.active.Some? {
      OnlyWanted(p, p.active.value, ToText(line).value);
    }
  }

  // ---------------------------------------------------------------- the invariant

  /** Reading the unread lines, after `o` and `e` have been heard, leads to what the run has printed, and to its end
      if it has ended; a broker that died says so last. */
  predicate Continues(began: bool, o: seq<byte>, e: seq<byte>, unread: seq<Message>, run: Run, ended: bool)
    decreases |unread|
  {
    if unread == [] then began && !ended && o == run.out && e == run.err
    else
      var rest := unread[1..];
      match unread[0].event
      case Began => !began && Continues(true, o, e, rest, run, ended)
      case Printed(stderr, chunk) =>
        began && chunk != []
          && Continues(true, if stderr then o else o + chunk, if stderr then e + chunk else e, rest, run, ended)
      case Exited(code) =>
        began && ended && o == run.out && e == run.err && code == run.exit && code <= 0xffff_ffff && AllDied(rest)
      case Died => AllDied(rest)
  }

  predicate NoneDied(unread: seq<Message>) {
    forall i :: 0 <= i < |unread| ==> !unread[i].event.Died?
  }

  lemma {:induction false} ContinuesPrint(began: bool, o: seq<byte>, e: seq<byte>, unread: seq<Message>, run: Run,
                                          stderr: bool, chunk: seq<byte>, cr: bool)
    requires Continues(began, o, e, unread, run, false) && NoneDied(unread) && chunk != []
    ensures Continues(began, o, e, unread + [Message(Printed(stderr, chunk), cr)], Printing(run, stderr, chunk), false)
    decreases |unread|
  {
    var more := unread + [Message(Printed(stderr, chunk), cr)];
    if unread == [] {
      assert more[1..] == [];
    } else {
      var rest, event := unread[1..], unread[0].event;
      assert more[1..] == rest + [Message(Printed(stderr, chunk), cr)];
      if event.Began? {
        ContinuesPrint(true, o, e, rest, run, stderr, chunk, cr);
      } else {
        ContinuesPrint(true, if event.stderr then o else o + event.chunk,
                       if event.stderr then e + event.chunk else e, rest, run, stderr, chunk, cr);
      }
    }
  }

  lemma {:induction false} ContinuesExit(began: bool, o: seq<byte>, e: seq<byte>, unread: seq<Message>, run: Run,
                                         code: nat, cr: bool)
    requires Continues(began, o, e, unread, run, false) && NoneDied(unread) && code <= 0xffff_ffff
    ensures Continues(began, o, e, unread + [Message(Exited(code), cr)], run.(exit := code), true)
    decreases |unread|
  {
    var more := unread + [Message(Exited(code), cr)];
    if unread == [] {
      assert more[1..] == [];
    } else {
      var rest, event := unread[1..], unread[0].event;
      assert more[1..] == rest + [Message(Exited(code), cr)];
      if event.Began? {
        ContinuesExit(true, o, e, rest, run, code, cr);
      } else {
        ContinuesExit(true, if event.stderr then o else o + event.chunk,
                      if event.stderr then e + event.chunk else e, rest, run, code, cr);
      }
    }
  }

  lemma {:induction false} ContinuesDeath(began: bool, o: seq<byte>, e: seq<byte>, unread: seq<Message>, run: Run,
                                          ended: bool, cr: bool)
    requires Continues(began, o, e, unread, run, ended)
    ensures Continues(began, o, e, unread + [Message(Event.Died, cr)], run, ended)
    decreases |unread|
  {
    var more := unread + [Message(Event.Died, cr)];
    if unread == [] {
      assert more[1..] == [];
    } else {
      var rest, event := unread[1..], unread[0].event;
      assert more[1..] == rest + [Message(Event.Died, cr)];
      if event.Began? {
        ContinuesDeath(true, o, e, rest, run, ended, cr);
      } else if event.Printed? {
        ContinuesDeath(true, if event.stderr then o else o + event.chunk,
                       if event.stderr then e + event.chunk else e, rest, run, ended, cr);
      }
    }
  }

  /** The prefix of the latest command. */
  function Current(s: System): string {
    var n := |s.submitted|;
    if n == 0 then "" else Prefix(s.parser.session, n, s.submitted[n - 1].request.nonce)
  }

  /** The frame of the latest command, number `n`, is on its way, its run is going on, or its run has ended. */
  predicate Stage(session: string, n: nat, request: Request, toBroker: seq<string>, running: Option<Run>,
                  history: seq<Run>, o: seq<byte>, e: seq<byte>, unread: seq<Message>, began: bool)
  {
    || (&& toBroker == [RunFrame(session, n, request)] && running.None? && |history| == n - 1
        && !began && o == [] == e && AllDied(unread))
    || (&& toBroker == [] && running.Some? && running.value.request == request && |history| == n - 1
        && Continues(began, o, e, unread, running.value, false))
    || (&& toBroker == [] && running.None? && |history| == n >= 1 && history[n - 1].request == request
        && Continues(began, o, e, unread, history[n - 1], true))
  }

  predicate Staged(s: System, began: bool)
    requires s.submitted != []
  {
    Stage(s.parser.session, |s.submitted|, s.submitted[|s.submitted| - 1].request, s.toBroker, s.broker.running,
          s.broker.history, s.heardOut, s.heardErr, s.unread, began)
  }

  predicate Channel(s: System) {
    && NEWLINE !in s.parser.pending && s.parser.pending + s.toClient == Wire(s.parser.session, Current(s), s.unread)
    && (!s.broker.dead ==> NoneDied(s.unread))
  }

  /** Between commands nothing is on its way; during one, everything on its way belongs to it. */
  predicate Synchronized(s: System) {
    var n, p := |s.submitted|, s.parser;
    if p.active.None? then
      |p.completions| == n == |s.broker.history| && s.toBroker == [] && s.broker.running.None? && AllDied(s.unread)
    else
      && n >= 1 && |p.completions| == n - 1
      && p.active.value.prefix == Current(s) && p.active.value.limit == s.submitted[n - 1].limit
      && Staged(s, p.active.value.began)
  }

  ghost predicate Shape(s: System, session: string) {
    && s.parser.session == session && IsNonce(session)
    && (forall i :: 0 <= i < |s.submitted| ==>
        IsNonce(s.submitted[i].request.nonce) && s.submitted[i].request.command != [])
    && (s.parser.phase.Idle? || (s.parser.phase.Fatal? && s.parser.active.None?))
    && (s.parser.phase.Idle? ==> Channel(s) && Synchronized(s))
  }

  /** The active command's streams are what was heard, and what is complete is right. */
  ghost predicate Data(s: System) {
    && (s.parser.active.Some? ==>
          s.parser.active.value.out == TrackOf(s.parser.active.value.limit, s.heardOut) &&
          s.parser.active.value.err == TrackOf(s.parser.active.value.limit, s.heardErr))
    && (forall k :: 0 <= k < |s.parser.completions| ==> Right(s, k))
  }

  // ---------------------------------------------------------------- the broker's steps

  /** A line put on the wire is the last unread one. */
  lemma SentOnWire(s: System, prefix: string, e: Event, cr: bool)
    requires s.parser.pending + s.toClient == Wire(s.parser.session, Current(s), s.unread)
    requires prefix == Current(s) || e.Died?
    ensures var r := Send(s, prefix, e, cr);
            r.parser.pending + r.toClient == Wire(s.parser.session, Current(s), r.unread)
  {
    var line := LineBytes(Line(s.parser.session, prefix, e), cr);
    WireAppend(s.parser.session, Current(s), s.unread, Message(e, cr));
    Reassociate(s.parser.pending, s.toClient, line, [NEWLINE]);
  }

  lemma BeginStep(s: System, submission: Submission, session: string)
    requires Shape(s, session) && Enabled(s, Begin(submission))
    ensures Shape(Do(s, Begin(submission)), session)
  {
    WireOfDied(session, Current(s), Current(Do(s, Begin(submission))), s.unread);
  }

  /** The frame that arrives is the latest command's, so the broker runs exactly that. */
  lemma FrameArrives(s: System, session: string)
    requires Shape(s, session) && s.parser.phase.Idle? && s.broker.running.None? && s.toBroker != []
    ensures s.submitted != [] && s.parser.active.Some? && Expected(s) == |s.submitted|
    ensures s.toBroker[1..] == [] && !s.parser.active.value.began && s.heardOut == [] == s.heardErr && AllDied(s.unread)
    ensures BrokerReads(session, Expected(s), s.toBroker[0]) == Some(s.submitted[|s.submitted| - 1].request)
  {
    var n := |s.submitted|;
    FrameRoundTrip(session, n, n, s.submitted[n - 1].request);
  }

  lemma ReceiveStep(s: System, cr: bool, session: string)
    requires Shape(s, session) && Enabled(s, Receive(cr)) && s.parser.phase.Idle?
    ensures Shape(Do(s, Receive(cr)), session)
  {
    var r := Do(s, Receive(cr));
    FrameArrives(s, session);
    SentOnWire(s, Current(s), Began, cr);
    assert s.unread == [];
    assert r.unread[1..] == [];
  }

  lemma StagePrint(session: string, n: nat, request: Request, toBroker: seq<string>, running: Option<Run>,
                   history: seq<Run>, o: seq<byte>, e: seq<byte>, unread: seq<Message>, began: bool, stderr: bool,
                   chunk: seq<byte>, cr: bool)
    requires Stage(session, n, request, toBroker, running, history, o, e, unread, began) && running.Some?
             && NoneDied(unread) && chunk != []
    ensures Stage(session, n, request, toBroker, Some(Printing(running.value, stderr, chunk)), history, o, e,
                  unread + [Message(Printed(stderr, chunk), cr)], began)
  {
    ContinuesPrint(began, o, e, unread, running.value, stderr, chunk, cr);
  }

  lemma StageExit(session: string, n: nat, request: Request, toBroker: seq<string>, running: Option<Run>,
                  history: seq<Run>, o: seq<byte>, e: seq<byte>, unread: seq<Message>, began: bool, code: nat, cr: bool)
    requires Stage(session, n, request, toBroker, running, history, o, e, unread, began) && running.Some?
             && NoneDied(unread) && code <= 0xffff_ffff
    ensures Stage(session, n, request, toBroker, None, history + [running.value.(exit := code)], o, e,
                  unread + [Message(Exited(code), cr)], began)
  {
    ContinuesExit(began, o, e, unread, running.value, code, cr);
  }

  lemma StageDeath(session: string, n: nat, request: Request, toBroker: seq<string>, running: Option<Run>,
                   history: seq<Run>, o: seq<byte>, e: seq<byte>, unread: seq<Message>, began: bool, cr: bool)
    requires Stage(session, n, request, toBroker, running, history, o, e, unread, began)
    ensures Stage(session, n, request, toBroker, running, history, o, e, unread + [Message(Event.Died, cr)], began)
  {
    if running.Some? {
      ContinuesDeath(began, o, e, unread, running.value, false, cr);
    } else if toBroker == [] {
      ContinuesDeath(began, o, e, unread, history[n - 1], true, cr);
    }
  }

  /** A step of the broker during a command. */
  predicate Moved(s: System, r: System, session: string) {
    && s.parser.active.Some? && s.submitted != []
    && r.parser == s.parser && r.submitted == s.submitted
    && r.parser.pending + r.toClient == Wire(session, Current(s), r.unread) && (!r.broker.dead ==> NoneDied(r.unread))
    && Staged(r, s.parser.active.value.began)
  }

  /** A run is going on and all that is unread belongs to it. */
  predicate InRun(s: System, session: string) {
    && s.parser.session == session && s.parser.active.Some? && s.submitted != [] && s.broker.running.Some?
    && !s.broker.dead
    && RunPrefix(s) == Current(s) && s.parser.pending + s.toClient == Wire(session, Current(s), s.unread)
    && NoneDied(s.unread)
    && Staged(s, s.parser.active.value.began)
  }

  lemma RunGoesOn(s: System, session: string)
    requires Shape(s, session) && s.parser.phase.Idle? && s.broker.running.Some? && !s.broker.dead
    ensures InRun(s, session)
  {
  }

  lemma MovedShape(s: System, r: System, session: string)
    requires Shape(s, session) && s.parser.phase.Idle? && Moved(s, r, session)
    ensures Shape(r, session)
  {
  }

  /** `r` differs from `s` in what the broker has and has sent. */
  predicate OnlyBroker(s: System, r: System) {
    r.parser == s.parser && r.submitted == s.submitted && r.toBroker == s.toBroker
    && r.heardOut == s.heardOut && r.heardErr == s.heardErr
  }

  lemma PrintStaged(s: System, r: System, stderr: bool, chunk: seq<byte>, cr: bool, session: string)
    requires InRun(s, session) && chunk != [] && OnlyBroker(s, r)
    requires r.broker == s.broker.(running := Some(Printing(s.broker.running.value, stderr, chunk)))
    requires r.unread == s.unread + [Message(Printed(stderr, chunk), cr)]
    ensures Staged(r, s.parser.active.value.began)
  {
    StagePrint(session, |s.submitted|, s.submitted[|s.submitted| - 1].request, s.toBroker, s.broker.running,
               s.broker.history, s.heardOut, s.heardErr, s.unread, s.parser.active.value.began, stderr, chunk, cr);
  }

  lemma PrintMoves(s: System, stderr: bool, chunk: seq<byte>, cr: bool, session: string)
    requires InRun(s, session) && chunk != []
    ensures Moved(s, Do(s, Print(stderr, chunk, cr)), session)
  {
    SentOnWire(s, Current(s), Printed(stderr, chunk), cr);
    PrintStaged(s, Do(s, Print(stderr, chunk, cr)), stderr, chunk, cr, session);
  }

  lemma ExitStaged(s: System, r: System, code: nat, cr: bool, session: string)
    requires InRun(s, session) && code <= 0xffff_ffff && OnlyBroker(s, r)
    requires var run := s.broker.running.value.(exit := code);
             r.broker == s.broker.(running := None, history := s.broker.history + [run])
    requires r.unread == s.unread + [Message(Exited(code), cr)]
    ensures Staged(r, s.parser.active.value.began)
  {
    StageExit(session, |s.submitted|, s.submitted[|s.submitted| - 1].request, s.toBroker, s.broker.running,
              s.broker.history, s.heardOut, s.heardErr, s.unread, s.parser.active.value.began, code, cr);
  }

  lemma ExitMoves(s: System, code: nat, cr: bool, session: string)
    requires InRun(s, session) && code <= 0xffff_ffff
    ensures Moved(s, Do(s, Exit(code, cr)), session)
  {
    SentOnWire(s, Current(s), Exited(code), cr);
    ExitStaged(s, Do(s, Exit(code, cr)), code, cr, session);
  }

  lemma DeathMoves(s: System, cr: bool, session: string)
    requires Shape(s, session) && s.parser.phase.Idle? && s.parser.active.Some?
    ensures Moved(s, Died(s, cr), session)
  {
    SentOnWire(s, "", Event.Died, cr);
    StageDeath(session, |s.submitted|, s.submitted[|s.submitted| - 1].request, s.toBroker, s.broker.running,
               s.broker.history, s.heardOut, s.heardErr, s.unread, s.parser.active.value.began, cr);
  }

  lemma IdleDeath(s: System, cr: bool, session: string)
    requires Shape(s, session) && s.parser.phase.Idle? && s.parser.active.None?
    ensures Shape(Died(s, cr), session)
  {
    SentOnWire(s, "", Event.Died, cr);
  }

  lemma PrintStep(s: System, stderr: bool, chunk: seq<byte>, cr: bool, session: string)
    requires Shape(s, session) && Enabled(s, Print(stderr, chunk, cr)) && s.parser.phase.Idle?
    ensures Shape(Do(s, Print(stderr, chunk, cr)), session)
  {
    RunGoesOn(s, session);
    PrintMoves(s, stderr, chunk, cr, session);
    MovedShape(s, Do(s, Print(stderr, chunk, cr)), session);
  }

  lemma ExitStep(s: System, code: nat, cr: bool, session: string)
    requires Shape(s, session) && Enabled(s, Exit(code, cr)) && s.parser.phase.Idle?
    ensures Shape(Do(s, Exit(code, cr)), session)
  {
    RunGoesOn(s, session);
    ExitMoves(s, code, cr, session);
    MovedShape(s, Do(s, Exit(code, cr)), session);
  }

  lemma DieStep(s: System, cr: bool, session: string)
    requires Shape(s, session) && s.parser.phase.Idle?
    ensures Shape(Died(s, cr), session)
  {
    if s.parser.active.Some? {
      DeathMoves(s, cr, session);
      MovedShape(s, Died(s, cr), session);
    } else {
      IdleDeath(s, cr, session);
    }
  }

  // ---------------------------------------------------------------- the client's steps

  /** The system with one more byte in the parser's buffer. */
  function Buffering(s: System): (r: System)
    requires s.toClient != []
  {
    s.(parser := s.parser.(pending := s.parser.pending + [s.toClient[0]]), toClient := s.toClient[1..])
  }

  lemma ByteTaken(pending: seq<byte>, toClient: seq<byte>)
    requires toClient != [] && toClient[0] != NEWLINE && NEWLINE !in pending
    ensures pending + [toClient[0]] + toClient[1..] == pending + toClient && NEWLINE !in pending + [toClient[0]]
  {
  }

  lemma ChannelBuffered(s: System)
    requires Channel(s) && s.toClient != [] && s.toClient[0] != NEWLINE
    ensures Channel(Buffering(s))
  {
    ByteTaken(s.parser.pending, s.toClient);
    assert Current(Buffering(s)) == Current(s);
  }

  lemma Buffered(s: System, session: string)
    requires Shape(s, session) && s.parser.phase.Idle? && s.toClient != [] && s.toClient[0] != NEWLINE
    ensures Shape(Buffering(s), session)
  {
    ChannelBuffered(s);
  }

  lemma ByteStep(s: System, session: string)
    requires Shape(s, session) && s.parser.phase.Idle? && s.toClient != [] && s.toClient[0] != NEWLINE
    ensures Shape(Delivered(s), session)
  {
    Buffered(s, session);
    assert Delivered(s) == Buffering(s) || Delivered(s) == s.(parser := Fail(s.parser), toClient := s.toClient[1..]);
  }

  /** A newline completes the first unread line. */
  lemma LineArrives(s: System, session: string)
    requires Shape(s, session) && s.parser.phase.Idle? && s.toClient != [] && s.toClient[0] == NEWLINE
    ensures s.unread != [] && s.toClient[1..] == Wire(session, Current(s), s.unread[1..])
    ensures WithoutReturn(s.parser.pending) == BytesOf(Line(session, Current(s), s.unread[0].event))
  {
    var pending, rest := s.parser.pending, s.toClient[1..];
    assert pending + s.toClient == pending + [NEWLINE] + rest;
    assert s.unread != [];
    var m := s.unread[0];
    var text := Line(session, Current(s), m.event);
    if |s.submitted| > 0 {
      PrefixPrintable(session, |s.submitted|, s.submitted[|s.submitted| - 1].request.nonce);
    }
    LinePrintable(session, Current(s), m.event);
    PrintableLine(text, m.cr);
    FirstNewline(pending, rest, LineBytes(text, m.cr), Wire(session, Current(s), s.unread[1..]));
  }

  /** The system once the parser has read the first unread line. */
  function Read(s: System, parser: Parser): (r: System)
    requires s.unread != [] && s.toClient != []
  {
    Heard(s.(parser := parser.(pending := []), toClient := s.toClient[1..], unread := s.unread[1..]), s.unread[0].event)
  }

  /** Reading goes through the event of the first unread line. */
  lemma LineRead(s: System, session: string)
    requires Shape(s, session) && s.parser.phase.Idle? && s.toClient != [] && s.toClient[0] == NEWLINE
    ensures s.unread != []
    ensures s.parser.active.None? ==> Delivered(s) == Read(s, Fail(s.parser))
    ensures s.parser.active.Some? && (s.unread[0].event.Printed? ==> s.unread[0].event.chunk != []) ==>
              Delivered(s) == Read(s, AfterEvent(s.parser, s.parser.active.value, s.unread[0].event))
  {
    LineArrives(s, session);
    var p, e := s.parser.(pending := []), s.unread[0].event;
    assert Feed(s.parser, NEWLINE) == Accept(p, WithoutReturn(s.parser.pending));
    if s.parser.active.Some? && (e.Printed? ==> e.chunk != []) {
      AcceptEvent(p, |s.submitted|, s.submitted[|s.submitted| - 1].request.nonce, e);
    }
  }

  /** The stream `heard` after one more line. */
  function HeardOut(o: seq<byte>, e: Event): seq<byte> {
    if e.Printed? && !e.stderr then o + e.chunk else o
  }

  function HeardErr(o: seq<byte>, e: Event): seq<byte> {
    if e.Printed? && e.stderr then o + e.chunk else o
  }

  /** What the first unread line can be, and what is left to read after it. */
  lemma StageRead(session: string, n: nat, request: Request, toBroker: seq<string>, running: Option<Run>,
                  history: seq<Run>, o: seq<byte>, e: seq<byte>, unread: seq<Message>, began: bool)
    requires Stage(session, n, request, toBroker, running, history, o, e, unread, began) && unread != []
    ensures var first, rest := unread[0].event, unread[1..];
            && (first.Began? ==> !began)
            && (first.Printed? ==> began && first.chunk != [])
            && (first.Began? || first.Printed? ==>
                  Stage(session, n, request, toBroker, running, history, HeardOut(o, first), HeardErr(e, first), rest,
                        true))
            && (first.Exited? ==>
                  && began && first.code <= 0xffff_ffff && toBroker == [] && running.None? && |history| == n >= 1
                  && AllDied(rest)
                  && history[n - 1].request == request && history[n - 1].out == o && history[n - 1].err == e
                  && history[n - 1].exit == first.code)
  {
  }

  /** What reading an event does when it comes at its time. */
  lemma EventEffect(p: Parser, a: Active, e: Event)
    ensures e.Began? && !a.began ==> AfterEvent(p, a, e) == p.(active := Some(a.(began := true)))
    ensures e.Printed? && a.began && e.chunk != [] ==>
              AfterEvent(p, a, e) ==
                p.(active := Some(if e.stderr then a.(err := Emitted(a.limit, a.err, e.chunk))
                                  else a.(out := Emitted(a.limit, a.out, e.chunk))))
    ensures e.Exited? && a.began && e.code <= 0xffff_ffff ==> AfterEvent(p, a, e) == Complete(p, a, e.code)
    ensures e.Died? ==> AfterEvent(p, a, e) == Fail(p)
  {
    if e.Printed? {
      StrictIsCanonical(Encode(e.chunk), e.chunk);
    } else if e.Exited? && e.code <= 0xffff_ffff {
      ExitRoundTrip(e.code);
    }
  }

  lemma StagedFacts(s: System, session: string)
    requires Shape(s, session) && s.parser.phase.Idle? && s.parser.active.Some? && s.unread != []
    ensures s.submitted != []
    ensures var e, began := s.unread[0].event, s.parser.active.value.began;
            (e.Began? ==> !began) && (e.Printed? ==> began && e.chunk != [])
              && (e.Exited? ==> began && e.code <= 0xffff_ffff)
  {
    StageRead(session, |s.submitted|, s.submitted[|s.submitted| - 1].request, s.toBroker, s.broker.running,
              s.broker.history, s.heardOut, s.heardErr, s.unread, s.parser.active.value.began);
  }

  /** The system after a whole line, by its event. */
  function AfterLine(s: System): (r: System)
    requires s.unread != [] && s.toClient != [] && s.parser.active.Some?
  {
    Read(s, AfterEvent(s.parser, s.parser.active.value, s.unread[0].event))
  }

  /** What reading a line leaves of the channel. */
  lemma ChannelAfterLine(s: System, r: System)
    requires Channel(s) && s.unread != [] && r.parser.session == s.parser.session && r.submitted == s.submitted
             && r.broker == s.broker
    requires r.parser.pending == [] && r.unread == s.unread[1..]
             && r.toClient == Wire(s.parser.session, Current(s), s.unread[1..])
    ensures Channel(r)
  {
    assert Current(r) == Current(s) && [] + r.toClient == r.toClient;
  }

  /** BEGIN, OUT and ERR leave the command active. */
  lemma OutputLineShape(s: System, session: string)
    requires Shape(s, session) && s.parser.phase.Idle? && s.parser.active.Some? && s.toClient != [] && s.unread != []
    requires s.toClient[1..] == Wire(session, Current(s), s.unread[1..])
             && (s.unread[0].event.Began? || s.unread[0].event.Printed?)
    ensures Shape(AfterLine(s), session)
  {
    var p, n, r := s.parser, |s.submitted|, AfterLine(s);
    StagedFacts(s, session);
    EventEffect(p, p.active.value, s.unread[0].event);
    StageRead(session, n, s.submitted[n - 1].request, s.toBroker, s.broker.running, s.broker.history, s.heardOut,
              s.heardErr, s.unread, p.active.value.began);
    ChannelAfterLine(s, r);
    assert Staged(r, true);
  }

  /** END leaves the session idle, FATAL leaves it failed. */
  lemma LastLineShape(s: System, session: string)
    requires Shape(s, session) && s.parser.phase.Idle? && s.parser.active.Some? && s.toClient != [] && s.unread != []
    requires s.toClient[1..] == Wire(session, Current(s), s.unread[1..])
             && (s.unread[0].event.Exited? || s.unread[0].event.Died?)
    ensures Shape(AfterLine(s), session)
  {
    var p, n, r := s.parser, |s.submitted|, AfterLine(s);
    StagedFacts(s, session);
    EventEffect(p, p.active.value, s.unread[0].event);
    StageRead(session, n, s.submitted[n - 1].request, s.toBroker, s.broker.running, s.broker.history, s.heardOut,
              s.heardErr, s.unread, p.active.value.began);
    if s.unread[0].event.Exited? {
      ChannelAfterLine(s, r);
    }
  }

  lemma LineStep(s: System, session: string)
    requires Shape(s, session) && s.parser.phase.Idle? && s.toClient != [] && s.toClient[0] == NEWLINE
    ensures Shape(Delivered(s), session)
  {
    LineArrives(s, session);
    LineRead(s, session);
    if s.parser.active.Some? {
      StagedFacts(s, session);
      if s.unread[0].event.Began? || s.unread[0].event.Printed? {
        OutputLineShape(s, session);
      } else {
        LastLineShape(s, session);
      }
    }
  }

  lemma StepShape(s: System, a: Action, session: string)
    requires Shape(s, session) && Enabled(s, a)
    ensures Shape(Do(s, a), session)
  {
    if s.parser.phase.Idle? {
      match a {
        case Begin(submission) => BeginStep(s, submission, session);
        case Receive(cr) => ReceiveStep(s, cr, session);
        case Print(stderr, chunk, cr) => PrintStep(s, stderr, chunk, cr, session);
        case Exit(code, cr) => ExitStep(s, code, cr, session);
        case Die(cr) => DieStep(s, cr, session);
        case Deliver =>
          if s.toClient[0] == NEWLINE {
            LineStep(s, session);
          } else {
            ByteStep(s, session);
          }
        case Poison =>
      }
    }
  }

  // ---------------------------------------------------------------- what completes is right

  lemma KeepsRight(s: System, r: System)
    requires forall k :: 0 <= k < |s.parser.completions| ==> Right(s, k)
    requires r.parser.completions == s.parser.completions
    requires |s.submitted| <= |r.submitted| && r.submitted[..|s.submitted|] == s.submitted
    requires |s.broker.history| <= |r.broker.history| && r.broker.history[..|s.broker.history|] == s.broker.history
    ensures forall k :: 0 <= k < |r.parser.completions| ==> Right(r, k)
  {
    forall k | 0 <= k < |r.parser.completions| ensures Right(r, k) {
      assert Right(s, k);
      assert r.broker.history[k] == r.broker.history[..|s.broker.history|][k];
      assert r.submitted[k] == r.submitted[..|s.submitted|][k];
    }
  }

  lemma BrokerData(s: System, a: Action)
    requires Data(s) && Enabled(s, a) && !a.Deliver?
    ensures Data(Do(s, a))
  {
    KeepsRight(s, Do(s, a));
  }

  /** A command that ends reports its own run. */
  lemma CompletedRight(s: System, run: Run)
    requires s.parser.active.Some? && s.parser.active.value.began && s.unread != [] && s.toClient != [] && Data(s)
    requires s.unread[0].event == Exited(run.exit) && run.exit <= 0xffff_ffff && run.out == s.heardOut
             && run.err == s.heardErr
    requires |s.broker.history| == |s.submitted| == |s.parser.completions| + 1
    requires run == s.broker.history[|s.submitted| - 1] && run.request == s.submitted[|s.submitted| - 1].request
    requires s.parser.active.value.limit == s.submitted[|s.submitted| - 1].limit
    ensures Data(AfterLine(s))
  {
    EventEffect(s.parser, s.parser.active.value, Exited(run.exit));
    OneMoreRight(s, AfterLine(s));
  }

  lemma OneMoreRight(s: System, r: System)
    requires forall k :: 0 <= k < |s.parser.completions| ==> Right(s, k)
    requires r.submitted == s.submitted && r.broker.history == s.broker.history && r.parser.active.None?
    requires var n := |s.submitted|;
             && n >= 1 && |s.parser.completions| == n - 1 && |s.broker.history| == n
             && s.broker.history[n - 1].request == s.submitted[n - 1].request
             && r.parser.completions ==
                s.parser.completions + [Report(s.broker.history[n - 1], s.submitted[n - 1].limit)]
    ensures Data(r)
  {
    forall k | 0 <= k < |r.parser.completions| ensures Right(r, k) {
      assert k < |s.submitted| - 1 ==> Right(s, k);
    }
  }

  lemma OtherLineData(s: System, session: string)
    requires Shape(s, session) && Data(s) && s.parser.phase.Idle? && s.parser.active.Some? && s.unread != []
             && s.toClient != []
    requires !s.unread[0].event.Exited?
    ensures Data(AfterLine(s))
  {
    var p, e := s.parser, s.unread[0].event;
    StagedFacts(s, session);
    EventEffect(p, p.active.value, e);
    if e.Printed? {
      EmittedMeaning(p.active.value.limit, if e.stderr then s.heardErr else s.heardOut, e.chunk);
    }
    KeepsRight(s, AfterLine(s));
  }

  lemma ByteData(s: System)
    requires Data(s) && s.toClient != []
             && (s.toClient[0] != NEWLINE || (s.parser.phase.Fatal? && s.parser.active.None?))
    ensures Data(Delivered(s))
  {
    KeepsRight(s, Delivered(s));
  }

  lemma LineData(s: System, session: string)
    requires Shape(s, session) && Data(s) && s.parser.phase.Idle? && s.toClient != [] && s.toClient[0] == NEWLINE
    ensures Data(Delivered(s))
  {
    LineRead(s, session);
    if s.parser.active.None? {
      KeepsRight(s, Delivered(s));
    } else {
      StagedFacts(s, session);
      if s.unread[0].event.Exited? {
        StageRead(session, |s.submitted|, s.submitted[|s.submitted| - 1].request, s.toBroker, s.broker.running,
                  s.broker.history, s.heardOut, s.heardErr, s.unread, s.parser.active.value.began);
        CompletedRight(s, s.broker.history[|s.submitted| - 1]);
      } else {
        OtherLineData(s, session);
      }
    }
  }

  lemma {:induction false} ReachableInv(session: string, hostname: seq<byte>, actions: seq<Action>, s: System)
    requires IsNonce(session) && Reaches(session, hostname, actions, s)
    ensures Shape(s, session) && Data(s)
    decreases |actions|
  {
    if actions != [] {
      var a := actions[|actions| - 1];
      var before :| Reaches(session, hostname, actions[..|actions| - 1], before) && Enabled(before, a)
        && s == Do(before, a);
      ReachableInv(session, hostname, actions[..|actions| - 1], before);
      StepShape(before, a, session);
      if !a.Deliver? {
        BrokerData(before, a);
      } else if before.parser.phase.Fatal? || before.toClient[0] != NEWLINE {
        ByteData(before);
      } else {
        LineData(before, session);
      }
    }
  }

  /** In every run of client and broker, with any chunking, failures and deaths: the k-th command that completes reports
      the exit code of the k-th broker run, which ran exactly the k-th submitted request, and its captured output is the
      capped beginning of the sanitized bytes of that run alone. */
  lemma CompletionsAreRight(session: string, hostname: seq<byte>, actions: seq<Action>, s: System, k: nat)
    requires IsNonce(session) && Reaches(session, hostname, actions, s) && k < |s.parser.completions|
    ensures k < |s.broker.history| && k < |s.submitted|
    ensures var run, submission, result := s.broker.history[k], s.submitted[k], s.parser.completions[k];
            && run.request == submission.request && result.exitCode == run.exit
            && result.out.captured == Head(submission.limit, Sanitizer.Sanitize(run.out))
            && result.out.total == |Sanitizer.Sanitize(run.out)|
            && result.err.captured == Head(submission.limit, Sanitizer.Sanitize(run.err))
            && result.err.total == |Sanitizer.Sanitize(run.err)|
  {
    ReachableInv(session, hostname, actions, s);
    assert Right(s, k);
  }
}
