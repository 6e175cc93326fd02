/** How a shared session becomes ready (src/infra/putty-shared-executor.ts): whatever the remote login prints before it,
    the first READY line decides, by the hostname that it carries. */
module SessionReady {
  import opened Basics
  import opened Seqs
  import opened Utf8
  import opened Base64
  import opened Frames
  import opened SessionParser

  type Line = seq<byte>

  /** The pattern ^[A-Za-z0-9][A-Za-z0-9._-]{0,254}$. */
  predicate ValidHostname(h: seq<byte>) {
    && 1 <= |h| <= 255 && h[0] as char !in {'.', '_', '-'}
    && forall i :: 0 <= i < |h| ==>
         var c := h[i] as char;
         'A' <= c <= 'Z' || 'a' <= c <= 'z' || '0' <= c <= '9' || c in {'.', '_', '-'}
  }

  lemma HostnameIs(h: seq<byte>)
    ensures IsHostname(h) <==> ValidHostname(h)
  {
  }

  /** Lines as they arrive: none holds a newline or is too long. */
  predicate AreLines(lines: seq<Line>) {
    forall i :: 0 <= i < |lines| ==> NEWLINE !in lines[i] && |lines[i]| <= MAX_LINE
  }

  function Stream(lines: seq<Line>): (r: seq<byte>) {
    if lines == [] then [] else Stream(lines[..|lines| - 1]) + lines[|lines| - 1] + [NEWLINE]
  }

  /** What the lines count for, carriage returns at their ends aside. */
  function Length(lines: seq<Line>): (r: nat) {
    if lines == [] then 0 else Length(lines[..|lines| - 1]) + |WithoutReturn(lines[|lines| - 1])| + 1
  }

  function ReadyText(session: string): string {
    MAGIC + ":" + session + ":READY:"
  }

  /** The line is ASCII and announces a hostname, encoded in `payload`. */
  predicate Announces(session: string, line: Line, payload: string) {
    var raw := WithoutReturn(line);
    && |raw| == |ReadyText(session)| + |payload|
    && forall i :: 0 <= i < |raw| ==> raw[i] < 0x80 && raw[i] as char == (ReadyText(session) + payload)[i]
  }

  /** The line says that the shell is there. */
  predicate SaysShellReady(session: string, line: Line) {
    ToText(WithoutReturn(line)) == Some(MAGIC + ":" + session + ":SHELL_READY")
  }

  ghost predicate AnyShellReady(session: string, lines: seq<Line>) {
    exists i :: 0 <= i < |lines| && SaysShellReady(session, lines[i])
  }

  ghost predicate Announcing(session: string, line: Line) {
    exists payload :: Announces(session, line, payload)
  }

  ghost predicate Quiet(session: string, lines: seq<Line>) {
    forall i :: 0 <= i < |lines| ==> !Announcing(session, lines[i])
  }

  // ---------------------------------------------------------------- one line

  lemma FeedLine(p: Parser, line: Line)
    requires NEWLINE !in line && |line| <= MAX_LINE && !p.phase.Fatal? && p.pending == []
    ensures FeedAll(p, line + [NEWLINE]) == Accept(p, WithoutReturn(line))
  {
    FeedConcat(p, line, [NEWLINE]);
    FeedPiece(p, line);
    assert p.pending + line == line;
    var q := p.(pending := line);
    FeedNewline(q);
    assert q.(pending := []) == p;
  }

  lemma TextOfLine(session: string, line: Line, payload: string)
    ensures Announces(session, line, payload) <==> ToText(WithoutReturn(line)) == Some(ReadyText(session) + payload)
  {
    var raw, text := WithoutReturn(line), ReadyText(session) + payload;
    if Announces(session, line, payload) {
      assert ToText(raw).value == text;
    }
    if ToText(raw) == Some(text) {
      forall i | 0 <= i < |raw| ensures raw[i] < 0x80 && raw[i] as char == text[i] {
        assert ToText(raw).value[i] == raw[i] as char;
      }
    }
  }

  lemma AnnouncedText(session: string, line: Line)
    ensures Announcing(session, line) <==>
              var raw := ToText(WithoutReturn(line));
              raw.Some? && StartsWith(raw.value, ReadyText(session))
  {
    var raw, ready := ToText(WithoutReturn(line)), ReadyText(session);
    if payload :| Announces(session, line, payload) {
      TextOfLine(session, line, payload);
      assert (ready + payload)[..|ready|] == ready;
    }
    if raw.Some? && StartsWith(raw.value, ready) {
      var payload := raw.value[|ready|..];
      assert raw.value == ready + payload;
      TextOfLine(session, line, payload);
    }
  }

  lemma ReadyIs(session: string)
    ensures SessionPrefix(session) + ":READY:" == ReadyText(session)
    ensures forall text :: text == SessionPrefix(session) + ":SHELL_READY" ==> !StartsWith(text, ReadyText(session))
  {
    var shell, ready := SessionPrefix(session) + ":SHELL_READY", ReadyText(session);
    var n := |SessionPrefix(session)| + 1;
    assert shell[n] == 'S' && ready[n] == 'R';
  }

  /** Any other line is passed over. */
  lemma OtherLine(p: Parser, line: Line)
    requires p.phase.Preamble? && !Announcing(p.session, line)
    ensures var seen := p.phase.seen + |WithoutReturn(line)| + 1;
            var r := Accept(p, WithoutReturn(line));
            if seen > MAX_PREAMBLE then r == Fail(p)
            else r == p.(phase := Preamble(seen, p.phase.shellReady || SaysShellReady(p.session, line)))
  {
    AnnouncedText(p.session, line);
    ReadyIs(p.session);
  }

  /** The first line that announces a hostname. */
  lemma ReadyLine(p: Parser, line: Line, payload: string)
    requires p.phase.Preamble? && Announces(p.session, line, payload)
    requires p.phase.seen + |WithoutReturn(line)| + 1 <= MAX_PREAMBLE
    ensures var r := Accept(p, WithoutReturn(line));
            && (forall h :: ValidHostname(h) && payload == Encode(h) ==> r == p.(phase := Idle, hostname := Some(h)))
            && ((forall h :: ValidHostname(h) ==> payload != Encode(h)) ==> r == Fail(p))
  {
    TextOfLine(p.session, line, payload);
    AnnouncedText(p.session, line);
    ReadyIs(p.session);
    assert (ReadyText(p.session) + payload)[|ReadyText(p.session)|..] == payload;
    forall h ensures DecodeStrict(payload) == Some(h) <==> h != [] && payload == Encode(h) {
      StrictIsCanonical(payload, h);
    }
    forall h ensures IsHostname(h) <==> ValidHostname(h) {
      HostnameIs(h);
    }
  }

  // ---------------------------------------------------------------- the preamble

  lemma ShellReadyLater(session: string, lines: seq<Line>)
    requires lines != []
    ensures AnyShellReady(session, lines) <==>
              AnyShellReady(session, lines[..|lines| - 1]) || SaysShellReady(session, lines[|lines| - 1])
  {
    var front := lines[..|lines| - 1];
    assert forall i :: 0 <= i < |front| ==> front[i] == lines[i];
  }

  /** A new parser that has passed over lines of the given length. */
  function Waiting(session: string, seen: nat, shellReady: bool): Parser {
    New(session).(phase := Preamble(seen, shellReady))
  }

  lemma OneMoreLine(session: string, seen: nat, shellReady: bool, line: Line)
    requires NEWLINE !in line && |line| <= MAX_LINE && !Announcing(session, line)
    ensures var more := seen + |WithoutReturn(line)| + 1;
            var p := FeedAll(Waiting(session, seen, shellReady), line + [NEWLINE]);
            if more > MAX_PREAMBLE then p.phase.Fatal?
            else p == Waiting(session, more, shellReady || SaysShellReady(session, line))
  {
    var p := Waiting(session, seen, shellReady);
    FeedLine(p, line);
    OtherLine(p, line);
  }

  lemma StreamMore(session: string, front: seq<Line>, line: Line, p: Parser)
    requires p == FeedAll(New(session), Stream(front))
    ensures FeedAll(New(session), Stream(front + [line])) == FeedAll(p, line + [NEWLINE])
    ensures Length(front + [line]) == Length(front) + |WithoutReturn(line)| + 1
  {
    var all := front + [line];
    assert all[..|all| - 1] == front && all[|all| - 1] == line;
    assert Stream(all) == Stream(front) + (line + [NEWLINE]);
    FeedConcat(New(session), Stream(front), line + [NEWLINE]);
  }

  lemma FrontIsQuiet(session: string, lines: seq<Line>)
    requires AreLines(lines) && Quiet(session, lines) && lines != []
    ensures var front, line := lines[..|lines| - 1], lines[|lines| - 1];
            && AreLines(front) && Quiet(session, front) && lines == front + [line]
            && NEWLINE !in line && |line| <= MAX_LINE && !Announcing(session, line)
  {
    var front := lines[..|lines| - 1];
    assert forall i :: 0 <= i < |front| ==> front[i] == lines[i];
  }

  predicate IsWaiting(p: Parser, session: string, seen: nat, shellReady: bool) {
    if seen > MAX_PREAMBLE then p.phase.Fatal? else p == Waiting(session, seen, shellReady)
  }

  lemma LineWaits(p: Parser, session: string, seen: nat, shellReady: bool, line: Line, q: Parser, more: nat,
                  shell: bool)
    requires IsWaiting(p, session, seen, shellReady) && q == FeedAll(p, line + [NEWLINE])
    requires NEWLINE !in line && |line| <= MAX_LINE && !Announcing(session, line)
    requires more == seen + |WithoutReturn(line)| + 1 && (shell <==> shellReady || SaysShellReady(session, line))
    ensures IsWaiting(q, session, more, shell)
  {
    if seen > MAX_PREAMBLE {
      FatalStays(p, line + [NEWLINE]);
    } else {
      OneMoreLine(session, seen, shellReady, line);
    }
  }

  /** The parser's state after quiet lines. */
  ghost predicate Waits(session: string, lines: seq<Line>) {
    IsWaiting(FeedAll(New(session), Stream(lines)), session, Length(lines), AnyShellReady(session, lines))
  }

  lemma WaitsOn(session: string, lines: seq<Line>, front: seq<Line>, line: Line)
    requires lines == front + [line] && Waits(session, front)
    requires NEWLINE !in line && |line| <= MAX_LINE && !Announcing(session, line)
    ensures Waits(session, lines)
  {
    var p, q := FeedAll(New(session), Stream(front)), FeedAll(New(session), Stream(lines));
    StreamMore(session, front, line, p);
    assert lines[..|lines| - 1] == front;
    ShellReadyLater(session, lines);
    LineWaits(p, session, Length(front), AnyShellReady(session, front), line, q, Length(lines),
              AnyShellReady(session, lines));
  }

  /** Lines that announce nothing leave a new parser waiting, up to the limit. */
  lemma {:induction false} QuietLines(session: string, lines: seq<Line>)
    requires AreLines(lines) && Quiet(session, lines)
    ensures Waits(session, lines)
    decreases |lines|
  {
    if lines == [] {
      assert Stream(lines) == [];
    } else {
      FrontIsQuiet(session, lines);
      QuietLines(session, lines[..|lines| - 1]);
      WaitsOn(session, lines, lines[..|lines| - 1], lines[|lines| - 1]);
    }
  }

  /** A session becomes ready by the first line that announces a hostname, if everything up to it is within the limit:
      with that hostname if it is a valid one in its canonical encoding, and otherwise it fails. */
  lemma BecomesReady(session: string, lines: seq<Line>, line: Line, payload: string)
    requires AreLines(lines + [line]) && Quiet(session, lines) && Announces(session, line, payload)
    ensures var p := FeedAll(New(session), Stream(lines + [line]));
            && (Length(lines + [line]) > MAX_PREAMBLE ==> p.phase.Fatal?)
            && (Length(lines + [line]) <= MAX_PREAMBLE ==>
                  && (forall h :: ValidHostname(h) && payload == Encode(h) ==>
                        p == New(session).(phase := Idle, hostname := Some(h)))
                  && ((forall h :: ValidHostname(h) ==> payload != Encode(h)) ==> p.phase.Fatal?))
  {
    var all := lines + [line];
    assert all[|all| - 1] == line && forall i :: 0 <= i < |lines| ==> all[i] == lines[i];
    QuietLines(session, lines);
    var p := FeedAll(New(session), Stream(lines));
    StreamMore(session, lines, line, p);
    if p.phase.Fatal? {
      FatalStays(p, line + [NEWLINE]);
    } else {
      FeedLine(p, line);
      if Length(all) <= MAX_PREAMBLE {
        ReadyLine(p, line, payload);
      }
    }
  }
}
