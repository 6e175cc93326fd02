/** PersistentProtocolParser (src/infra/putty-shared-executor.ts): the client's reading of the broker's byte stream,
    whatever chunks it arrives in, and the capped capture of each command's sanitized output. */
module SessionParser {
  import opened Basics
  import opened Utf8
  import opened Base64
  import opened Frames
  import opened Seqs
  import Sanitizer

  const MAX_LINE := 256 * 1024
  const MAX_PREAMBLE := 256 * 1024
  const NEWLINE: byte := 0x0A
  const RETURN: byte := 0x0D

  // ---------------------------------------------------------------- captured output

  /** The first bytes, as many as the limit allows. */
  function Head(limit: nat, bytes: seq<byte>): (r: seq<byte>) {
    bytes[..Min(limit, |bytes|)]
  }

  /** OutputCapture (src/infra/managed-command.ts). */
  class OutputCapture {
    const limit: nat
    var captured: seq<byte>
    var totalBytes: nat
    /** Everything appended so far. */
    ghost var history: seq<byte>

    /** The first bytes of the whole are kept, and all are counted. */
    ghost predicate Valid()
      reads this
    {
      captured == Head(limit, history) && totalBytes == |history|
    }

    constructor (limit: nat)
      ensures Valid() && this.limit == limit && history == []
    {
      this.limit := limit;
      captured, totalBytes, history := [], 0, [];
    }

    method Append(chunk: seq<byte>)
      requires Valid()
      modifies this
      ensures Valid() && history == old(history) + chunk
    {
      CappedHead(limit, history, chunk);
      totalBytes := totalBytes + |chunk|;
      if limit > |captured| {
        captured := captured + chunk[..Min(limit - |captured|, |chunk|)];
      }
      history := history + chunk;
    }

    /** The `truncated` getter: something was left out exactly if the whole is longer than the limit. */
    method Truncated() returns (r: bool)
      requires Valid()
      ensures r <==> |history| > limit
      ensures !r ==> captured == history
    {
      r := totalBytes > |captured|;
    }
  }

  /** Any chunks, appended one after the other. */
  method CaptureChunks(limit: nat, chunks: seq<seq<byte>>) returns (captured: seq<byte>, totalBytes: nat)
    ensures captured == Head(limit, Concat(chunks)) && totalBytes == |Concat(chunks)|
  {
    var capture := new OutputCapture(limit);
    for i := 0 to |chunks|
      invariant capture.Valid() && capture.limit == limit && capture.history == Concat(chunks[..i])
    {
      capture.Append(chunks[i]);
      assert chunks[..i + 1] == chunks[..i] + [chunks[i]];
      ConcatAppend(chunks[..i], chunks[i]);
    }
    assert chunks[..|chunks|] == chunks;
    captured, totalBytes := capture.captured, capture.totalBytes;
  }

  function Capped(limit: nat, captured: seq<byte>, chunk: seq<byte>): (r: seq<byte>) {
    if limit <= |captured| then captured else captured + chunk[..Min(limit - |captured|, |chunk|)]
  }

  /** Appending chunk by chunk captures the first bytes of the whole. */
  lemma CappedHead(limit: nat, a: seq<byte>, b: seq<byte>)
    ensures Capped(limit, Head(limit, a), b) == Head(limit, a + b)
  {
  }

  /** One stream of a command: the sanitizer's state and what was captured. */
  datatype Track = Track(state: Sanitizer.State, captured: seq<byte>, total: nat)

  function Emitted(limit: nat, t: Track, chunk: seq<byte>): (r: Track) {
    var e := Sanitizer.Run(t.state, chunk);
    Track(e.state, Capped(limit, t.captured, e.output), t.total + |e.output|)
  }

  /** A stream on which `bytes` have arrived. */
  function TrackOf(limit: nat, bytes: seq<byte>): (r: Track) {
    var e := Sanitizer.Run(Sanitizer.START, bytes);
    Track(e.state, Head(limit, e.output), |e.output|)
  }

  lemma EmittedMeaning(limit: nat, a: seq<byte>, b: seq<byte>)
    ensures Emitted(limit, TrackOf(limit, a), b) == TrackOf(limit, a + b)
  {
    Sanitizer.RunConcat(Sanitizer.START, a, b);
    var first := Sanitizer.Run(Sanitizer.START, a);
    CappedHead(limit, first.output, Sanitizer.Run(first.state, b).output);
  }

  // ---------------------------------------------------------------- lines

  datatype Active = Active(prefix: string, limit: nat, began: bool, out: Track, err: Track)

  datatype Output = Output(captured: seq<byte>, total: nat)

  datatype Completion = Completion(exitCode: nat, out: Output, err: Output)

  datatype Phase = Preamble(seen: nat, shellReady: bool) | Idle | Fatal

  /** `completions`: the commands resolved so far. */
  datatype Parser = Parser(session: string, phase: Phase, pending: seq<byte>, active: Option<Active>,
                           hostname: Option<seq<byte>>, completions: seq<Completion>)

  function New(session: string): Parser {
    Parser(session, Preamble(0, false), [], None, None, [])
  }

  function Fail(p: Parser): (r: Parser) {
    p.(phase := Fatal, pending := [], active := None)
  }

  /** strictAscii. */
  function ToText(line: seq<byte>): (r: Option<string>) {
    if forall i :: 0 <= i < |line| ==> line[i] < 0x80
      then Some(seq(|line|, i requires 0 <= i < |line| => line[i] as char)) else None
  }

  predicate IsAlphanumeric(b: byte) {
    'a' as int <= b <= 'z' as int || 'A' as int <= b <= 'Z' as int || '0' as int <= b <= '9' as int
  }

  /** SAFE_EXPECTED_HOSTNAME_PATTERN, which only ASCII text can match. */
  predicate IsHostname(h: seq<byte>) {
    && 1 <= |h| <= 255 && IsAlphanumeric(h[0])
    && forall i :: 0 <= i < |h| ==>
       IsAlphanumeric(h[i]) || h[i] == '.' as int || h[i] == '_' as int || h[i] == '-' as int
  }

  function AcceptPreamble(p: Parser, line: seq<byte>): (r: Parser)
    requires p.phase.Preamble?
  {
    var seen := p.phase.seen + |line| + 1;
    var next := p.(phase := p.phase.(seen := seen));
    var raw := ToText(line);
    var ready := SessionPrefix(p.session) + ":READY:";
    if seen > MAX_PREAMBLE then Fail(p)
    else if raw.None? then next
    else if raw.value == SessionPrefix(p.session) + ":SHELL_READY" then next.(phase := next.phase.(shellReady := true))
    else if !StartsWith(raw.value, ready) then next
    else
      var hostname := DecodeStrict(raw.value[|ready|..]);
      if hostname.None? || !IsHostname(hostname.value) then Fail(p)
      else p.(phase := Idle, hostname := hostname)
  }

  function Complete(p: Parser, a: Active, exitCode: nat): (r: Parser) {
    p.(active := None,
       completions := p.completions +
         [Completion(exitCode, Output(a.out.captured, a.out.total), Output(a.err.captured, a.err.total))])
  }

  function AcceptOutput(p: Parser, a: Active, stderr: bool, encoded: string): (r: Parser) {
    var decoded := DecodeStrict(encoded);
    if !a.began || decoded.None? then Fail(p)
    else if stderr then p.(active := Some(a.(err := Emitted(a.limit, a.err, decoded.value))))
    else p.(active := Some(a.(out := Emitted(a.limit, a.out, decoded.value))))
  }

  function AcceptEnd(p: Parser, a: Active, code: string): (r: Parser) {
    var exit := ParseExit(code);
    if !a.began || exit.None? then Fail(p) else Complete(p, a, exit.value)
  }

  /** A line for the active command. */
  function AcceptFor(p: Parser, a: Active, raw: string): (r: Parser) {
    if raw == a.prefix + ":BEGIN" then (if a.began then Fail(p) else p.(active := Some(a.(began := true))))
    else if StartsWith(raw, a.prefix + ":OUT:") then AcceptOutput(p, a, false, raw[|a.prefix| + 5..])
    else if StartsWith(raw, a.prefix + ":ERR:") then AcceptOutput(p, a, true, raw[|a.prefix| + 5..])
    else if StartsWith(raw, a.prefix + ":END:") then AcceptEnd(p, a, raw[|a.prefix| + 5..])
    else Fail(p)
  }

  function Accept(p: Parser, line: seq<byte>): (r: Parser) {
    match p.phase
    case Fatal => p
    case Preamble(_, _) => AcceptPreamble(p, line)
    case Idle =>
      var raw := ToText(line);
      if raw.None? || raw.value == SessionPrefix(p.session) + ":FATAL" || p.active.None? then Fail(p)
      else AcceptFor(p, p.active.value, raw.value)
  }

  function BeginCommand(p: Parser, sequence: nat, nonce: string, limit: nat): (r: Parser) {
    p.(active := Some(Active(Prefix(p.session, sequence, nonce), limit, false, TrackOf(limit, []), TrackOf(limit, []))))
  }

  lemma StrayTag(raw: string, prefix: string, tag: string, m: nat, x: string, n: nat, y: string, session: string,
                 rest: string)
    requires IsNonce(session) && IsNonce(x) && IsNonce(y) && (m != n || x != y)
    requires prefix == Prefix(session, n, y) && raw == Prefix(session, m, x) + ":" + rest
    ensures !StartsWith(raw, prefix + ":" + tag)
  {
    if StartsWith(raw, prefix + ":" + tag) {
      PrefixIdentifies(session, n, y, m, x, tag, rest);
    }
  }

  /** A line of another command of the session, late or repeated, is never taken for the active one: it ends the
      session. */
  lemma StrayLineFails(p: Parser, line: seq<byte>, n: nat, nonce: string, m: nat, other: string, rest: string)
    requires IsNonce(p.session) && IsNonce(nonce) && IsNonce(other) && (m != n || other != nonce)
    requires p.phase.Idle? && p.active.Some? && p.active.value.prefix == Prefix(p.session, n, nonce)
    requires ToText(line) == Some(Prefix(p.session, m, other) + ":" + rest)
    ensures Accept(p, line) == Fail(p)
  {
    var raw, prefix := ToText(line).value, p.active.value.prefix;
    StrayTag(raw, prefix, "BEGIN", m, other, n, nonce, p.session, rest);
    StrayTag(raw, prefix, "OUT:", m, other, n, nonce, p.session, rest);
    StrayTag(raw, prefix, "ERR:", m, other, n, nonce, p.session, rest);
    StrayTag(raw, prefix, "END:", m, other, n, nonce, p.session, rest);
    assert prefix + ":" + "BEGIN" == prefix + ":BEGIN";
    assert prefix + ":" + "OUT:" == prefix + ":OUT:";
    assert prefix + ":" + "ERR:" == prefix + ":ERR:";
    assert prefix + ":" + "END:" == prefix + ":END:";
  }

  // ---------------------------------------------------------------- bytes

  function WithoutReturn(line: seq<byte>): (r: seq<byte>) {
    if line != [] && line[|line| - 1] == RETURN then line[..|line| - 1] else line
  }

  /** One byte of the stream. */
  function Feed(p: Parser, b: byte): (r: Parser) {
    if p.phase.Fatal? then p
    else if b == NEWLINE then Accept(p.(pending := []), WithoutReturn(p.pending))
    else if |p.pending| + 1 > MAX_LINE then Fail(p)
    else p.(pending := p.pending + [b])
  }

  function FeedAll(p: Parser, bytes: seq<byte>): (r: Parser) {
    Fold(Feed, p, bytes)
  }

  lemma FeedNewline(p: Parser)
    requires !p.phase.Fatal?
    ensures FeedAll(p, [NEWLINE]) == Accept(p.(pending := []), WithoutReturn(p.pending))
  {
    var none: seq<byte> := [];
    FoldLast(Feed, p, none, NEWLINE);
    assert none + [NEWLINE] == [NEWLINE] && Fold(Feed, p, none) == p;
  }

  /** Chunks do not matter. */
  lemma FeedConcat(p: Parser, a: seq<byte>, b: seq<byte>)
    ensures FeedAll(p, a + b) == FeedAll(FeedAll(p, a), b)
  {
    FoldConcat(Feed, p, a, b);
  }

  lemma {:induction false} FatalStays(p: Parser, bytes: seq<byte>)
    requires p.phase.Fatal?
    ensures FeedAll(p, bytes) == p
  {
    if bytes != [] {
      FatalStays(p, bytes[..|bytes| - 1]);
    }
  }

  /** A piece of a line is buffered whole, or is too much. */
  lemma {:induction false} FeedPiece(p: Parser, piece: seq<byte>)
    requires NEWLINE !in piece && !p.phase.Fatal? && |p.pending| <= MAX_LINE
    ensures FeedAll(p, piece) == if |p.pending| + |piece| > MAX_LINE then Fail(p) else p.(pending := p.pending + piece)
  {
    if piece == [] {
      assert p.pending + piece == p.pending;
    } else {
      var front, last := piece[..|piece| - 1], piece[|piece| - 1];
      FeedPiece(p, front);
      assert last in piece;
      assert p.pending + front + [last] == p.pending + piece;
    }
  }

  /** indexOf(0x0a, offset), or the length. */
  function NextNewline(bytes: seq<byte>, offset: nat): (r: nat)
    decreases |bytes| - offset
  {
    if offset >= |bytes| || bytes[offset] == NEWLINE then offset else NextNewline(bytes, offset + 1)
  }

  lemma {:induction false} NextNewlineMeaning(bytes: seq<byte>, offset: nat)
    requires offset <= |bytes|
    ensures var r := NextNewline(bytes, offset);
            offset <= r <= |bytes| && NEWLINE !in bytes[offset..r] && (r < |bytes| ==> bytes[r] == NEWLINE)
    decreases |bytes| - offset
  {
    if offset < |bytes| && bytes[offset] != NEWLINE {
      NextNewlineMeaning(bytes, offset + 1);
      var r := NextNewline(bytes, offset + 1);
      assert bytes[offset..r] == [bytes[offset]] + bytes[offset + 1..r];
    }
  }

  class PersistentProtocolParser {
    var pending: seq<byte>
    var parser: Parser

    /** After a failure the buffer is never looked at again. */
    ghost function View(): (p: Parser) reads this {
      if parser.phase.Fatal? then parser.(pending := []) else parser.(pending := pending)
    }

    ghost predicate Valid() reads this {
      |pending| <= MAX_LINE && parser.pending == []
    }

    constructor (session: string)
      ensures Valid() && View() == New(session)
    {
      pending, parser := [], New(session);
    }

    method AppendPending(piece: seq<byte>) returns (ok: bool)
      requires Valid() && !parser.phase.Fatal? && NEWLINE !in piece
      modifies this
      ensures Valid() && View() == FeedAll(old(View()), piece) && (ok <==> !parser.phase.Fatal?)
    {
      FeedPiece(View(), piece);
      if |piece| > 0 && |pending| + |piece| > MAX_LINE {
        parser := Fail(parser);
        return false;
      }
      pending := pending + piece;
      return true;
    }

    /** The end of a line: takes the buffer and has it read. */
    method EndLine()
      requires Valid() && !parser.phase.Fatal?
      modifies this
      ensures Valid() && View() == FeedAll(old(View()), [NEWLINE])
    {
      var line := WithoutReturn(pending);
      FeedNewline(View());
      pending := [];
      parser := Accept(parser, line);
    }

    /** The rest of a line, if its newline is in the chunk. */
    method ReadLine(chunk: seq<byte>, offset: nat, ghost start: Parser) returns (next: nat)
      requires Valid() && !parser.phase.Fatal? && offset < |chunk| && View() == FeedAll(start, chunk[..offset])
      modifies this
      ensures Valid() && offset < next <= |chunk| && View() == FeedAll(start, chunk[..next])
    {
      var newline := NextNewline(chunk, offset);
      NextNewlineMeaning(chunk, offset);
      FeedUpTo(start, chunk, offset, newline);
      var ok := AppendPending(chunk[offset..newline]);
      next := newline;
      if newline < |chunk| {
        next := newline + 1;
        FeedUpTo(start, chunk, newline, next);
        assert chunk[newline..next] == [NEWLINE];
        if ok {
          EndLine();
        } else {
          FatalStays(View(), [NEWLINE]);
        }
      }
    }

    /** Reading a chunk has the same effect as reading its bytes one at a time. */
    method Append(chunk: seq<byte>)
      requires Valid()
      modifies this
      ensures Valid() && View() == FeedAll(old(View()), chunk)
    {
      var offset := 0;
      while offset < |chunk| && !parser.phase.Fatal?
        invariant 0 <= offset <= |chunk| && Valid()
        invariant View() == FeedAll(old(View()), chunk[..offset])
      {
        offset := ReadLine(chunk, offset, old(View()));
      }
      FedUp(old(View()), chunk, offset, View());
    }
  }

  lemma FeedUpTo(p: Parser, chunk: seq<byte>, m: nat, n: nat)
    requires m <= n <= |chunk|
    ensures FeedAll(p, chunk[..n]) == FeedAll(FeedAll(p, chunk[..m]), chunk[m..n])
  {
    FeedConcat(p, chunk[..m], chunk[m..n]);
    assert chunk[..m] + chunk[m..n] == chunk[..n];
  }

  /** Nothing changes after a failure, or after the last byte. */
  lemma FedUp(p: Parser, chunk: seq<byte>, n: nat, q: Parser)
    requires n <= |chunk| && q == FeedAll(p, chunk[..n]) && (q.phase.Fatal? || n == |chunk|)
    ensures FeedAll(p, chunk) == q
  {
    assert chunk[..n] + chunk[n..] == chunk;
    FeedConcat(p, chunk[..n], chunk[n..]);
    if q.phase.Fatal? {
      FatalStays(q, chunk[n..]);
    }
  }
}
