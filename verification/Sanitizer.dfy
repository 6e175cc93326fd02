/** The streaming terminal sanitizer of a shared session (src/infra/putty-shared-executor.ts). */
module Sanitizer {
  import opened Seqs
  import opened Utf8

  datatype Mode = Ground | Escape | Csi | Osc | OscEscape | Utf8C2

  /** `afterCr`: the last kept byte was a carriage return already rendered as a newline. */
  datatype State = State(mode: Mode, afterCr: bool)

  const START := State(Mode.Ground, false)

  datatype Emit = Emit(state: State, output: seq<byte>)

  /** A byte that starts outside every sequence. */
  function Plain(afterCr: bool, b: byte): (e: Emit) {
    if b == 0xC2 then Emit(State(Utf8C2, afterCr), [])
    else if b == 0x1B then Emit(State(Escape, afterCr), [])
    else if b == 0x0D then Emit(State(Mode.Ground, true), [0x0A])
    else if b == 0x0A && afterCr then Emit(State(Mode.Ground, false), [])
    else if (b < 0x20 && b != 0x09 && b != 0x0A) || b == 0x7F then Emit(State(Mode.Ground, false), [])
    else Emit(State(Mode.Ground, false), [b])
  }

  function Step(s: State, b: byte): (e: Emit) {
    match s.mode
    case Ground => Plain(s.afterCr, b)
    case Escape => Emit(s.(mode := if b == 0x5B then Csi else if b == 0x5D then Osc else Mode.Ground), [])
    case Csi => Emit(s.(mode := if 0x40 <= b <= 0x7E then Mode.Ground else Csi), [])
    case Osc => Emit(s.(mode := if b == 0x07 then Mode.Ground else if b == 0x1B then OscEscape else Osc), [])
    case OscEscape => Emit(s.(mode := if b == 0x5C then Mode.Ground else if b == 0x1B then OscEscape else Osc), [])
    case Utf8C2 =>
      if 0x80 <= b <= 0x9F then Emit(State(Mode.Ground, s.afterCr), [])
      else if 0xA0 <= b <= 0xBF then Emit(State(Mode.Ground, false), [0xC2, b])
      else Plain(s.afterCr, b)
  }

  function Then(e: Emit, b: byte): (e': Emit) {
    var last := Step(e.state, b);
    Emit(last.state, e.output + last.output)
  }

  function Run(s: State, bytes: seq<byte>): (e: Emit) {
    if bytes == [] then Emit(s, []) else Then(Run(s, bytes[..|bytes| - 1]), bytes[|bytes| - 1])
  }

  /** Everything one command prints, sanitized from start to end; an unfinished sequence yields nothing. */
  function Sanitize(bytes: seq<byte>): (r: seq<byte>) {
    Run(START, bytes).output
  }

  class TerminalSanitizer {
    var state: State

    constructor ()
      ensures state == START
    {
      state := START;
    }

    method Feed(chunk: seq<byte>) returns (output: seq<byte>)
      modifies this
      ensures Emit(state, output) == Run(old(state), chunk)
    {
      output := [];
      for i := 0 to |chunk|
        invariant Emit(state, output) == Run(old(state), chunk[..i])
      {
        var b := chunk[i];
        assert chunk[..i + 1][..i] == chunk[..i];
        var mode, afterCr := state.mode, state.afterCr;
        if mode.Escape? {
          state := State(if b == 0x5B then Csi else if b == 0x5D then Osc else Mode.Ground, afterCr);
        } else if mode.Csi? {
          if 0x40 <= b <= 0x7E {
            state := State(Mode.Ground, afterCr);
          }
        } else if mode.Osc? {
          if b == 0x07 {
            state := State(Mode.Ground, afterCr);
          } else if b == 0x1B {
            state := State(OscEscape, afterCr);
          }
        } else if mode.OscEscape? {
          if b == 0x5C {
            state := State(Mode.Ground, afterCr);
          } else if b != 0x1B {
            state := State(Osc, afterCr);
          }
        } else if mode.Utf8C2? && 0x80 <= b <= 0x9F {
          state := State(Mode.Ground, afterCr);
        } else if mode.Utf8C2? && 0xA0 <= b <= 0xBF {
          state, output := State(Mode.Ground, false), output + [0xC2, b];
        } else if b == 0xC2 {
          state := State(Utf8C2, afterCr);
        } else if b == 0x1B {
          state := State(Escape, afterCr);
        } else if b == 0x0D {
          state, output := State(Mode.Ground, true), output + [0x0A];
        } else if b == 0x0A && afterCr {
          state := State(Mode.Ground, false);
        } else if (b < 0x20 && b != 0x09 && b != 0x0A) || b == 0x7F {
          state := State(Mode.Ground, false);
        } else {
          state, output := State(Mode.Ground, false), output + [b];
        }
      }
      assert chunk[..|chunk|] == chunk;
    }

    /** The end of a command: nothing is held back, and the next command starts afresh. */
    method Finish() returns (output: seq<byte>)
      modifies this
      ensures state == START && output == []
    {
      state, output := START, [];
    }
  }

  // ---------------------------------------------------------------- independent of chunking

  function After(output: seq<byte>, e: Emit): (e': Emit) {
    Emit(e.state, output + e.output)
  }

  lemma AfterThen(output: seq<byte>, e: Emit, b: byte)
    ensures Then(After(output, e), b) == After(output, Then(e, b))
  {
    var last := Step(e.state, b);
    assert (output + e.output) + last.output == output + (e.output + last.output);
  }

  lemma {:induction false} RunConcat(s: State, a: seq<byte>, b: seq<byte>)
    ensures Run(s, a + b) == After(Run(s, a).output, Run(Run(s, a).state, b))
    decreases |b|
  {
    var first := Run(s, a);
    if b == [] {
      assert a + b == a && first.output + [] == first.output;
    } else {
      var front, b' := b[..|b| - 1], b[|b| - 1];
      RunConcat(s, a, front);
      assert a + b == (a + front) + [b'] && b == front + [b'];
      AfterThen(first.output, Run(first.state, front), b');
    }
  }

  /** However the bytes are cut into chunks, the outputs concatenate to the sanitized whole. */
  method SanitizeChunks(chunks: seq<seq<byte>>) returns (output: seq<byte>)
    ensures output == Sanitize(Concat(chunks))
  {
    var sanitizer := new TerminalSanitizer();
    output := [];
    for i := 0 to |chunks|
      invariant Emit(sanitizer.state, output) == Run(START, Concat(chunks[..i]))
    {
      var piece := sanitizer.Feed(chunks[i]);
      assert chunks[..i + 1] == chunks[..i] + [chunks[i]];
      ConcatAppend(chunks[..i], chunks[i]);
      RunConcat(START, Concat(chunks[..i]), chunks[i]);
      output := output + piece;
    }
    assert chunks[..|chunks|] == chunks;
    var tail := sanitizer.Finish();
    output := output + tail;
  }

  // ---------------------------------------------------------------- what comes out

  /** No ESC, CR, DEL or C0 control but tab and newline, and 0xC2 only as the lead of U+00A0 to U+00BF. */
  predicate Clean(s: seq<byte>) {
    forall i :: 0 <= i < |s| ==> CleanAt(s, i)
  }

  predicate CleanAt(s: seq<byte>, i: nat)
    requires i < |s|
  {
    && Printable(s[i])
    && (s[i] == 0xC2 ==> i + 1 < |s| && 0xA0 <= s[i + 1] <= 0xBF)
  }

  lemma CleanConcat(a: seq<byte>, b: seq<byte>)
    requires Clean(a) && Clean(b)
    ensures Clean(a + b)
  {
    forall i | 0 <= i < |a + b| ensures CleanAt(a + b, i) {
      if i < |a| {
        assert CleanAt(a, i);
      } else {
        assert CleanAt(b, i - |a|);
      }
    }
  }

  lemma {:induction false} OutputIsClean(s: State, bytes: seq<byte>)
    ensures Clean(Run(s, bytes).output)
  {
    if bytes != [] {
      OutputIsClean(s, bytes[..|bytes| - 1]);
      var front := Run(s, bytes[..|bytes| - 1]);
      var last := Step(front.state, bytes[|bytes| - 1]);
      assert Clean(last.output);
      CleanConcat(front.output, last.output);
    }
  }

  /** After a clean prefix everything is out, but for a final 0xC2 held until its partner arrives. */
  function Passed(s: seq<byte>): (e: Emit) {
    if s != [] && s[|s| - 1] == 0xC2 then Emit(State(Utf8C2, false), s[..|s| - 1]) else Emit(START, s)
  }

  lemma {:induction false} CleanPrefixPasses(s: seq<byte>, n: nat)
    requires Clean(s) && n <= |s|
    ensures Run(START, s[..n]) == Passed(s[..n])
  {
    if n > 0 {
      var front, b := s[..n - 1], s[n - 1];
      CleanPrefixPasses(s, n - 1);
      assert s[..n] == front + [b] && (front + [b])[..|front|] == front;
      assert CleanAt(s, n - 1);
      assert n > 1 ==> CleanAt(s, n - 2) && front[n - 2] == s[n - 2];
      PassOne(front, b);
    }
  }

  /** A byte that may stand in clean text. */
  predicate Printable(b: byte) {
    b == 0x09 || b == 0x0A || (0x20 <= b && b != 0x7F)
  }

  /** One more clean byte; behind a 0xC2 it is the partner. */
  lemma PassOne(front: seq<byte>, b: byte)
    requires Printable(b) && (front != [] && front[|front| - 1] == 0xC2 ==> 0xA0 <= b <= 0xBF)
    ensures Then(Passed(front), b) == Passed(front + [b])
  {
    var all := front + [b];
    assert all[|all| - 1] == b && all[..|all| - 1] == front;
    if front != [] && front[|front| - 1] == 0xC2 {
      assert front[..|front| - 1] + [0xC2, b] == all;
    } else if b == 0xC2 {
      assert front + [] == front;
    }
  }

  /** Sanitizing leaves a text alone exactly when it is clean, always produces clean text, and so is idempotent. */
  lemma SanitizeProjects(bytes: seq<byte>)
    ensures Sanitize(bytes) == bytes <==> Clean(bytes)
    ensures Clean(Sanitize(bytes))
    ensures Sanitize(Sanitize(bytes)) == Sanitize(bytes)
  {
    OutputIsClean(START, bytes);
    var out := Sanitize(bytes);
    CleanPasses(out);
    if Clean(bytes) {
      CleanPasses(bytes);
    }
  }

  lemma CleanPasses(s: seq<byte>)
    requires Clean(s)
    ensures Sanitize(s) == s
  {
    CleanPrefixPasses(s, |s|);
    assert s[..|s|] == s;
    if s != [] {
      assert CleanAt(s, |s| - 1);
    }
  }

  /** A clean text has no UTF-8-encoded C1 control. */
  lemma CleanHasNoC1(s: seq<byte>, i: nat)
    requires Clean(s) && i + 1 < |s|
    ensures !(s[i] == 0xC2 && 0x80 <= s[i + 1] <= 0x9F)
  {
    assert CleanAt(s, i);
  }
}
