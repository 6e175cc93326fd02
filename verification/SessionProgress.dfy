/** Progress of a shared session (src/infra/putty-shared-executor.ts): once the run of a command has ended, delivering
    what is on its way completes the command. */
module SessionProgress {
  import opened Basics
  import opened Utf8
  import opened Frames
  import opened SessionParser
  import opened SharedSession

  /** The run of the active command has ended and the broker lives. */
  predicate RunEnded(s: System) {
    && s.parser.phase.Idle? && s.parser.active.Some?
    && s.toBroker == [] && s.broker.running.None? && !s.broker.dead
  }

  /** No line on its way is longer than the client accepts. */
  predicate Fits(s: System) {
    forall i :: 0 <= i < |s.unread| ==>
      |LineBytes(Line(s.parser.session, Current(s), s.unread[i].event), s.unread[i].cr)| <= MAX_LINE
  }

  lemma UnreadWire(session: string, prefix: string, unread: seq<Message>)
    requires unread != []
    ensures NEWLINE in Wire(session, prefix, unread)
  {
    var first := LineBytes(Line(session, prefix, unread[0].event), unread[0].cr);
    assert (first + [NEWLINE] + Wire(session, prefix, unread[1..]))[|first|] == NEWLINE;
  }

  /** Then there is something on its way. */
  lemma OnItsWay(s: System, session: string)
    requires Shape(s, session) && RunEnded(s)
    ensures s.unread != [] && s.toClient != [] && !s.unread[0].event.Died?
  {
    UnreadWire(session, Current(s), s.unread);
    assert s.toClient == [] ==> s.parser.pending + s.toClient == s.parser.pending;
  }

  lemma BeforeNewline(a: seq<byte>, b: byte, rest: seq<byte>, line: seq<byte>, more: seq<byte>)
    requires NEWLINE !in a && b != NEWLINE && a + ([b] + rest) == line + [NEWLINE] + more
    ensures |a| < |line|
  {
    var all := line + [NEWLINE] + more;
    assert all[|line|] == NEWLINE;
    assert all[|a|] == b && forall k :: 0 <= k < |a| ==> all[k] == a[k];
  }

  /** The client's buffer has room for one more byte of the line. */
  lemma BufferHasRoom(s: System, session: string)
    requires Shape(s, session) && RunEnded(s) && Fits(s) && s.toClient != [] && s.toClient[0] != NEWLINE
    ensures |s.parser.pending| < MAX_LINE
  {
    OnItsWay(s, session);
    var first := LineBytes(Line(session, Current(s), s.unread[0].event), s.unread[0].cr);
    assert |first| <= MAX_LINE;
    assert s.toClient == [s.toClient[0]] + s.toClient[1..];
    BeforeNewline(s.parser.pending, s.toClient[0], s.toClient[1..], first, Wire(session, Current(s), s.unread[1..]));
  }

  lemma ByteDelivered(s: System, session: string)
    requires Shape(s, session) && RunEnded(s) && Fits(s) && s.toClient != [] && s.toClient[0] != NEWLINE
    ensures var t := Do(s, Deliver);
            && RunEnded(t) && Fits(t) && Shape(t, session) && |t.toClient| < |s.toClient|
            && t.submitted == s.submitted && t.broker == s.broker
  {
    BufferHasRoom(s, session);
    Buffered(s, session);
    assert Delivered(s) == Buffering(s) && Current(Buffering(s)) == Current(s);
  }

  predicate Completed(s: System, t: System) {
    && t.parser.phase.Idle? && t.parser.active.None?
    && |t.parser.completions| == |t.submitted| && t.submitted == s.submitted && t.broker == s.broker
  }

  lemma DeliveredLine(s: System, session: string)
    requires Shape(s, session) && RunEnded(s) && s.toClient != [] && s.toClient[0] == NEWLINE
    ensures s.unread != [] && Do(s, Deliver) == AfterLine(s)
  {
    OnItsWay(s, session);
    StagedFacts(s, session);
    LineRead(s, session);
  }

  /** END completes the command. */
  lemma EndRead(s: System, session: string)
    requires Shape(s, session) && RunEnded(s) && s.toClient != [] && s.unread != [] && s.unread[0].event.Exited?
    ensures Completed(s, AfterLine(s))
  {
    StagedFacts(s, session);
    EventEffect(s.parser, s.parser.active.value, s.unread[0].event);
  }

  /** Any other line leaves it active. */
  lemma OutputRead(s: System, session: string)
    requires Shape(s, session) && RunEnded(s) && s.toClient != [] && s.unread != []
    requires s.unread[0].event.Began? || s.unread[0].event.Printed?
    ensures RunEnded(AfterLine(s)) && AfterLine(s).submitted == s.submitted && AfterLine(s).broker == s.broker
    ensures AfterLine(s).unread == s.unread[1..] && AfterLine(s).parser.session == s.parser.session
  {
    StagedFacts(s, session);
    EventEffect(s.parser, s.parser.active.value, s.unread[0].event);
  }

  lemma LaterFits(s: System, t: System)
    requires Fits(s) && s.unread != [] && t.unread == s.unread[1..] && t.submitted == s.submitted
    requires t.parser.session == s.parser.session
    ensures Fits(t)
  {
    assert Current(t) == Current(s);
    forall i | 0 <= i < |t.unread|
      ensures |LineBytes(Line(t.parser.session, Current(t), t.unread[i].event), t.unread[i].cr)| <= MAX_LINE
    {
      assert t.unread[i] == s.unread[i + 1];
    }
  }

  lemma LineDelivered(s: System, session: string, t: System)
    requires Shape(s, session) && RunEnded(s) && Fits(s) && s.toClient != [] && s.toClient[0] == NEWLINE
    requires t == Do(s, Deliver)
    ensures Completed(s, t) || (RunEnded(t) && Fits(t) && t.submitted == s.submitted && t.broker == s.broker)
  {
    OnItsWay(s, session);
    DeliveredLine(s, session);
    if s.unread[0].event.Exited? {
      EndRead(s, session);
    } else {
      OutputRead(s, session);
      LaterFits(s, t);
    }
  }

  lemma Delivery(s: System, session: string)
    requires Shape(s, session) && RunEnded(s) && Fits(s)
    ensures var t := Delivers(s);
            && |t.toClient| < |s.toClient| && t.submitted == s.submitted && t.broker == s.broker
            && (Completed(s, t) || (Shape(t, session) && RunEnded(t) && Fits(t)))
  {
    OnItsWay(s, session);
    StepShape(s, Deliver, session);
    if s.toClient[0] == NEWLINE {
      LineDelivered(s, session, Do(s, Deliver));
    } else {
      ByteDelivered(s, session);
    }
  }

  /** One byte is delivered, if there is one. */
  function Delivers(s: System): (t: System) {
    if s.toClient == [] then s else Do(s, Deliver)
  }

  function Iterate<S>(next: S -> S, s: S, n: nat): (r: S)
    decreases n
  {
    if n == 0 then s else Iterate(next, next(s), n - 1)
  }

  /** Steps that get smaller come to an end. */
  lemma {:induction false} Eventually<S>(next: S -> S, size: S -> nat, good: S -> bool, done: S -> bool, s: S)
    returns (n: nat)
    requires good(s) && forall u :: good(u) ==> size(next(u)) < size(u) && (good(next(u)) || done(next(u)))
    ensures n <= size(s) && done(Iterate(next, s, n))
    decreases size(s)
  {
    n := 1;
    assert Iterate(next, next(s), 0) == next(s);
    if !done(next(s)) {
      var m := Eventually(next, size, good, done, next(s));
      n := m + 1;
    }
  }

  /** In every reachable state in which the run of the active command has ended, the broker lives and no line is too
      long, the command completes with at most as many deliveries as there are bytes on their way. */
  lemma EndedRunCompletes(session: string, hostname: seq<byte>, actions: seq<Action>, s: System) returns (n: nat)
    requires IsNonce(session) && Reaches(session, hostname, actions, s) && RunEnded(s) && Fits(s)
    ensures n <= |s.toClient| && Completed(s, Iterate(Delivers, s, n))
  {
    ReachableInv(session, hostname, actions, s);
    var good := u => Shape(u, session) && RunEnded(u) && Fits(u) && u.submitted == s.submitted && u.broker == s.broker;
    var done := u => Completed(s, u);
    var size := (u: System) => |u.toClient|;
    forall u | good(u) ensures size(Delivers(u)) < size(u) && (good(Delivers(u)) || done(Delivers(u))) {
      Delivery(u, session);
    }
    n := Eventually(Delivers, size, good, done, s);
  }
}
