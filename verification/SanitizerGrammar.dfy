/** What the terminal sanitizer (src/infra/putty-shared-executor.ts) removes, as a grammar: every input is in exactly
    one way a list of escape sequences, controls and shown bytes, and what comes out is what those items show. */
module SanitizerGrammar {
  import opened Basics
  import opened Utf8
  import opened Sanitizer

  const ESC: byte := 0x1B

  datatype Item =
    | ControlSequence(text: seq<byte>)   // ESC [ up to a byte from @ to ~
    | SystemCommand(text: seq<byte>)     // ESC ] up to BEL or ESC \
    | ShortEscape(b: byte)               // ESC and any other byte
    | EncodedC1(b: byte)                 // U+0080 to U+009F
    | Encoded(b: byte)                   // U+00A0 to U+00BF
    | LoneC2                             // 0xC2 that no continuation byte follows
    | Return
    | Feed
    | Control(b: byte)                   // any other C0 control but tab, and DEL
    | Shown(b: byte)

  /** What may be unfinished at the end of the input. */
  datatype Rest = Nothing | OpenEscape | OpenSequence(text: seq<byte>) | OpenCommand(text: seq<byte>) | OpenC2

  datatype Reading = Reading(items: seq<Item>, rest: Rest)

  // ---------------------------------------------------------------- the grammar

  predicate SequenceEnds(text: seq<byte>, k: nat) {
    k < |text| && 0x40 <= text[k] <= 0x7E
  }

  /** BEL that is not escaped, or the backslash of ESC \. */
  predicate CommandEnds(text: seq<byte>, k: nat) {
    k < |text| && if k > 0 && text[k - 1] == ESC then text[k] == 0x5C else text[k] == 0x07
  }

  predicate Open(ends: (seq<byte>, nat) -> bool, text: seq<byte>) {
    forall k: nat :: k < |text| ==> !ends(text, k)
  }

  predicate Closed(ends: (seq<byte>, nat) -> bool, text: seq<byte>) {
    && text != [] && ends(text, |text| - 1)
    && forall k: nat :: k < |text| - 1 ==> !ends(text, k)
  }

  predicate IsControl(b: byte) {
    (b < 0x20 && b != 0x09 && b != 0x0A && b != 0x0D && b != ESC) || b == 0x7F
  }

  predicate Valid(i: Item) {
    match i
    case ControlSequence(text) => Closed(SequenceEnds, text)
    case SystemCommand(text) => Closed(CommandEnds, text)
    case ShortEscape(b) => b != 0x5B && b != 0x5D
    case EncodedC1(b) => 0x80 <= b <= 0x9F
    case Encoded(b) => 0xA0 <= b <= 0xBF
    case Control(b) => IsControl(b)
    case Shown(b) => b == 0x09 || (0x20 <= b && b != 0x7F && b != 0xC2)
    case _ => true
  }

  function Spelling(i: Item): (s: seq<byte>)
    ensures s != []
  {
    match i
    case ControlSequence(text) => [ESC, 0x5B] + text
    case SystemCommand(text) => [ESC, 0x5D] + text
    case ShortEscape(b) => [ESC, b]
    case EncodedC1(b) => [0xC2, b]
    case Encoded(b) => [0xC2, b]
    case LoneC2 => [0xC2]
    case Return => [0x0D]
    case Feed => [0x0A]
    case Control(b) => [b]
    case Shown(b) => [b]
  }

  predicate ValidRest(r: Rest) {
    match r
    case OpenSequence(text) => Open(SequenceEnds, text)
    case OpenCommand(text) => Open(CommandEnds, text)
    case _ => true
  }

  function SpellingOfRest(r: Rest): seq<byte> {
    match r
    case Nothing => []
    case OpenEscape => [ESC]
    case OpenSequence(text) => [ESC, 0x5B] + text
    case OpenCommand(text) => [ESC, 0x5D] + text
    case OpenC2 => [0xC2]
  }

  function Spelled(items: seq<Item>, rest: Rest): (s: seq<byte>) {
    if items == [] then SpellingOfRest(rest) else Spelling(items[0]) + Spelled(items[1..], rest)
  }

  /** A 0xC2 stands alone only before a byte that does not continue it. */
  predicate Follows(i: Item, after: seq<byte>) {
    i.LoneC2? ==> after != [] && !(0x80 <= after[0] <= 0xBF)
  }

  ghost predicate WellFormed(items: seq<Item>, rest: Rest) {
    if items == [] then ValidRest(rest)
    else Valid(items[0]) && Follows(items[0], Spelled(items[1..], rest)) && WellFormed(items[1..], rest)
  }

  // ---------------------------------------------------------------- what the items show

  /** Items that the end of a line is looked for across. */
  predicate Silent(i: Item) {
    i.ControlSequence? || i.SystemCommand? || i.ShortEscape? || i.EncodedC1? || i.LoneC2?
  }

  function Output(behindReturn: bool, i: Item): seq<byte> {
    match i
    case Return => [0x0A]
    case Feed => if behindReturn then [] else [0x0A]
    case Encoded(b) => [0xC2, b]
    case Shown(b) => [b]
    case _ => []
  }

  /** What is left of a list of items; a line feed behind a return, with only silent items between, shows nothing. */
  function Shows(behindReturn: bool, items: seq<Item>): (s: seq<byte>)
    decreases |items|
  {
    if items == [] then []
    else
      var i := items[0];
      Output(behindReturn, i) + Shows(if Silent(i) then behindReturn else i.Return?, items[1..])
  }

  // ---------------------------------------------------------------- the sanitizer on items

  lemma {:induction false} RunOpenSequence(afterCr: bool, text: seq<byte>)
    requires Open(SequenceEnds, text)
    ensures Run(State(Csi, afterCr), text) == Emit(State(Csi, afterCr), [])
    decreases |text|
  {
    if text != [] {
      var n := |text| - 1;
      assert !SequenceEnds(text, n);
      forall k: nat | k < n ensures !SequenceEnds(text[..n], k) {
        assert !SequenceEnds(text, k);
      }
      RunOpenSequence(afterCr, text[..n]);
    }
  }

  lemma {:induction false} RunOpenCommand(afterCr: bool, text: seq<byte>)
    requires Open(CommandEnds, text)
    ensures Run(State(Osc, afterCr), text) ==
            Emit(State(if text != [] && text[|text| - 1] == ESC then OscEscape else Osc, afterCr), [])
    decreases |text|
  {
    if text != [] {
      var n := |text| - 1;
      assert !CommandEnds(text, n);
      forall k: nat | k < n ensures !CommandEnds(text[..n], k) {
        assert !CommandEnds(text, k);
      }
      RunOpenCommand(afterCr, text[..n]);
    }
  }

  lemma ClosedFront(ends: (seq<byte>, nat) -> bool, text: seq<byte>)
    requires ends == SequenceEnds || ends == CommandEnds
    requires Closed(ends, text)
    ensures Open(ends, text[..|text| - 1])
  {
    var front := text[..|text| - 1];
    forall k: nat | k < |front| ensures !ends(front, k) {
      assert !ends(text, k);
    }
  }

  /** One byte more. */
  lemma RunMore(s: State, front: seq<byte>, b: byte)
    ensures Run(s, front + [b]) == Then(Run(s, front), b)
  {
    assert (front + [b])[..|front|] == front;
  }

  lemma RunOne(s: State, b: byte)
    ensures Run(s, [b]) == Step(s, b)
  {
    RunMore(s, [], b);
    assert [] + [b] == [b] && [] + Step(s, b).output == Step(s, b).output;
  }

  lemma RunTwo(s: State, a: byte, b: byte)
    ensures Run(s, [a, b]) == Then(Step(s, a), b)
  {
    RunOne(s, a);
    RunMore(s, [a], b);
    assert [a] + [b] == [a, b];
  }

  lemma RunSequence(afterCr: bool, text: seq<byte>)
    requires Closed(SequenceEnds, text)
    ensures Run(State(Csi, afterCr), text) == Emit(State(Mode.Ground, afterCr), [])
  {
    var n := |text| - 1;
    ClosedFront(SequenceEnds, text);
    RunOpenSequence(afterCr, text[..n]);
  }

  lemma RunCommand(afterCr: bool, text: seq<byte>)
    requires Closed(CommandEnds, text)
    ensures Run(State(Osc, afterCr), text) == Emit(State(Mode.Ground, afterCr), [])
  {
    var n := |text| - 1;
    ClosedFront(CommandEnds, text);
    RunOpenCommand(afterCr, text[..n]);
  }

  /** The state takes a byte as if outside every sequence. */
  predicate Fresh(s: State, b: byte) {
    s.mode.Ground? || (s.mode.Utf8C2? && !(0x80 <= b <= 0xBF))
  }

  function StateAfter(s: State, i: Item): State {
    State(if i.LoneC2? then Utf8C2 else Mode.Ground, if Silent(i) then s.afterCr else i.Return?)
  }

  /** ESC, the byte behind it, and a text. */
  lemma RunEscape(s: State, b: byte, text: seq<byte>)
    requires Fresh(s, ESC) && (b == 0x5B || b == 0x5D)
    ensures Run(s, [ESC, b] + text) == Run(State(if b == 0x5B then Csi else Osc, s.afterCr), text)
  {
    RunTwo(s, ESC, b);
    RunConcat(s, [ESC, b], text);
    var e := Run(State(if b == 0x5B then Csi else Osc, s.afterCr), text);
    assert [] + e.output == e.output;
  }

  /** A byte outside every sequence. */
  lemma OneIs(s: State, b: byte, e: Emit)
    requires Fresh(s, b) && e == Plain(s.afterCr, b)
    ensures Run(s, [b]) == e
  {
    RunOne(s, b);
  }

  /** Two bytes, the first of which shows nothing. */
  lemma TwoIs(s: State, a: byte, b: byte, between: State, e: Emit)
    requires Step(s, a) == Emit(between, []) && Step(between, b) == e
    ensures Run(s, [a, b]) == e
  {
    RunTwo(s, a, b);
    assert [] + e.output == e.output;
  }

  lemma RunItem(s: State, i: Item)
    requires Valid(i) && Fresh(s, Spelling(i)[0])
    ensures Run(s, Spelling(i)) == Emit(StateAfter(s, i), Output(s.afterCr, i))
  {
    match i
    case ControlSequence(text) =>
      RunEscape(s, 0x5B, text);
      RunSequence(s.afterCr, text);
    case SystemCommand(text) =>
      RunEscape(s, 0x5D, text);
      RunCommand(s.afterCr, text);
    case ShortEscape(b) => TwoIs(s, ESC, b, State(Escape, s.afterCr), Emit(State(Mode.Ground, s.afterCr), []));
    case EncodedC1(b) => TwoIs(s, 0xC2, b, State(Utf8C2, s.afterCr), Emit(State(Mode.Ground, s.afterCr), []));
    case Encoded(b) => TwoIs(s, 0xC2, b, State(Utf8C2, s.afterCr), Emit(State(Mode.Ground, false), [0xC2, b]));
    case LoneC2 => OneIs(s, 0xC2, Emit(State(Utf8C2, s.afterCr), []));
    case Return => OneIs(s, 0x0D, Emit(State(Mode.Ground, true), [0x0A]));
    case Feed => OneIs(s, 0x0A, Emit(State(Mode.Ground, false), if s.afterCr then [] else [0x0A]));
    case Control(b) => OneIs(s, b, Emit(State(Mode.Ground, false), []));
    case Shown(b) => OneIs(s, b, Emit(State(Mode.Ground, false), [b]));
  }

  lemma RunRest(s: State, r: Rest)
    requires ValidRest(r) && (s.mode.Ground? || s.mode.Utf8C2?)
    ensures Run(s, SpellingOfRest(r)).output == []
  {
    match r
    case Nothing =>
    case OpenEscape => RunOne(s, ESC);
    case OpenC2 => RunOne(s, 0xC2);
    case OpenSequence(text) =>
      RunEscape(s, 0x5B, text);
      RunOpenSequence(s.afterCr, text);
    case OpenCommand(text) =>
      RunEscape(s, 0x5D, text);
      RunOpenCommand(s.afterCr, text);
  }

  lemma {:induction false} RunItems(s: State, items: seq<Item>, rest: Rest)
    requires WellFormed(items, rest)
    requires s.mode.Ground? || (s.mode.Utf8C2? && Follows(LoneC2, Spelled(items, rest)))
    ensures Run(s, Spelled(items, rest)).output == Shows(s.afterCr, items)
    decreases |items|
  {
    if items == [] {
      RunRest(s, rest);
    } else {
      var i, after := items[0], Spelled(items[1..], rest);
      assert (Spelling(i) + after)[0] == Spelling(i)[0];
      RunItem(s, i);
      RunConcat(s, Spelling(i), after);
      RunItems(StateAfter(s, i), items[1..], rest);
    }
  }

  /** However it is made up of items, an input is sanitized to what they show. */
  lemma SanitizeShows(items: seq<Item>, rest: Rest)
    requires WellFormed(items, rest)
    ensures Sanitize(Spelled(items, rest)) == Shows(false, items)
  {
    RunItems(START, items, rest);
  }

  // ---------------------------------------------------------------- reading an input

  /** The first place from `k` on where the text ends, or its length. */
  function End(ends: (seq<byte>, nat) -> bool, text: seq<byte>, k: nat): (r: nat)
    requires k <= |text|
    ensures k <= r <= |text| && (r < |text| ==> ends(text, r)) && forall j: nat :: k <= j < r ==> !ends(text, j)
    decreases |text| - k
  {
    if k == |text| || ends(text, k) then k else End(ends, text, k + 1)
  }

  /** The first item, unless the input ends within it. */
  function First(s: seq<byte>): (r: Option<Item>)
    requires s != []
  {
    var b := s[0];
    if b == ESC then
      if |s| == 1 then None
      else if s[1] == 0x5B then
        var text := s[2..];
        var end := End(SequenceEnds, text, 0);
        if end == |text| then None else Some(ControlSequence(text[..end + 1]))
      else if s[1] == 0x5D then
        var text := s[2..];
        var end := End(CommandEnds, text, 0);
        if end == |text| then None else Some(SystemCommand(text[..end + 1]))
      else Some(ShortEscape(s[1]))
    else if b == 0xC2 then
      if |s| == 1 then None
      else if 0x80 <= s[1] <= 0x9F then Some(EncodedC1(s[1]))
      else if 0xA0 <= s[1] <= 0xBF then Some(Encoded(s[1]))
      else Some(LoneC2)
    else if b == 0x0D then Some(Return)
    else if b == 0x0A then Some(Feed)
    else if IsControl(b) then Some(Control(b))
    else Some(Shown(b))
  }

  function RestOf(s: seq<byte>): Rest {
    if s == [] then Nothing
    else if s[0] == 0xC2 then OpenC2
    else if |s| == 1 then OpenEscape
    else if s[1] == 0x5B then OpenSequence(s[2..]) else OpenCommand(s[2..])
  }

  lemma ClosedAt(ends: (seq<byte>, nat) -> bool, text: seq<byte>, end: nat)
    requires ends == SequenceEnds || ends == CommandEnds
    requires end < |text| && end == End(ends, text, 0)
    ensures Closed(ends, text[..end + 1])
  {
    var front := text[..end + 1];
    assert ends(text, end) && front[end] == text[end];
    forall k: nat | k < end ensures !ends(front, k) {
      assert !ends(text, k) && front[k] == text[k];
    }
  }

  /** The item is there at the start of the text. */
  ghost predicate Starts(s: seq<byte>, i: Item) {
    && Valid(i) && |Spelling(i)| <= |s| && s[..|Spelling(i)|] == Spelling(i)
    && Follows(i, s[|Spelling(i)|..])
  }

  lemma EscapeStarts(s: seq<byte>)
    requires s != [] && s[0] == ESC && First(s).Some?
    ensures Starts(s, First(s).value)
  {
    var text := s[2..];
    if s[1] == 0x5B {
      var end := End(SequenceEnds, text, 0);
      ClosedAt(SequenceEnds, text, end);
      assert s[..end + 3] == [ESC, 0x5B] + text[..end + 1];
    } else if s[1] == 0x5D {
      var end := End(CommandEnds, text, 0);
      ClosedAt(CommandEnds, text, end);
      assert s[..end + 3] == [ESC, 0x5D] + text[..end + 1];
    } else {
      assert s[..2] == [ESC, s[1]];
    }
  }

  lemma ByteStarts(s: seq<byte>)
    requires s != [] && s[0] != ESC && First(s).Some?
    ensures Starts(s, First(s).value)
  {
    assert s[..1] == [s[0]];
    if s[0] == 0xC2 {
      assert s[..2] == [0xC2, s[1]];
    }
  }

  lemma FirstSpells(s: seq<byte>)
    requires s != [] && First(s).Some?
    ensures var i := First(s).value;
            Valid(i) && |Spelling(i)| <= |s| && s == Spelling(i) + s[|Spelling(i)|..] && Follows(i, s[|Spelling(i)|..])
  {
    if s[0] == ESC {
      EscapeStarts(s);
    } else {
      ByteStarts(s);
    }
    var n := |Spelling(First(s).value)|;
    assert s == s[..n] + s[n..];
  }

  lemma RestSpells(s: seq<byte>)
    requires s == [] || First(s).None?
    ensures ValidRest(RestOf(s)) && s == SpellingOfRest(RestOf(s))
  {
  }

  function Read(s: seq<byte>): (r: Reading)
    decreases |s|
  {
    if s == [] || First(s).None? then Reading([], RestOf(s))
    else
      var i := First(s).value;
      var r := if |Spelling(i)| <= |s| then Read(s[|Spelling(i)|..]) else Reading([], Nothing);
      Reading([i] + r.items, r.rest)
  }

  /** Every input is made up of items. */
  lemma {:induction false} ReadSpells(s: seq<byte>)
    ensures WellFormed(Read(s).items, Read(s).rest) && Spelled(Read(s).items, Read(s).rest) == s
    decreases |s|
  {
    if s == [] || First(s).None? {
      RestSpells(s);
    } else {
      FirstSpells(s);
      var i := First(s).value;
      var after := s[|Spelling(i)|..];
      ReadSpells(after);
      assert Read(s).items[1..] == Read(after).items;
    }
  }

  lemma EndsThere(ends: (seq<byte>, nat) -> bool, text: seq<byte>, after: seq<byte>)
    requires ends == SequenceEnds || ends == CommandEnds
    requires Closed(ends, text)
    ensures End(ends, text + after, 0) == |text| - 1 && (text + after)[..|text|] == text
  {
    var all, n := text + after, |text| - 1;
    assert ends(text, n) && ends(all, n);
    forall k: nat | k < n ensures !ends(all, k) {
      assert !ends(text, k);
    }
  }

  /** No other item begins the input. */
  lemma FirstIsOnly(i: Item, after: seq<byte>)
    requires Valid(i) && Follows(i, after)
    ensures First(Spelling(i) + after) == Some(i)
  {
    match i
    case ControlSequence(text) =>
      EndsThere(SequenceEnds, text, after);
      assert Spelling(i) + after == [ESC, 0x5B] + text + after;
      FirstSequence(Spelling(i) + after, text, after);
    case SystemCommand(text) =>
      EndsThere(CommandEnds, text, after);
      assert Spelling(i) + after == [ESC, 0x5D] + text + after;
      FirstSequence(Spelling(i) + after, text, after);
    case _ => FirstShort(Spelling(i) + after, i, after);
  }

  lemma FirstSequence(s: seq<byte>, text: seq<byte>, after: seq<byte>)
    requires text != [] && |s| >= 2 && s[0] == ESC && s == s[..2] + text + after
    ensures s[1] == 0x5B && End(SequenceEnds, text + after, 0) == |text| - 1 ==> First(s) == Some(ControlSequence(text))
    ensures s[1] == 0x5D && End(CommandEnds, text + after, 0) == |text| - 1 ==> First(s) == Some(SystemCommand(text))
  {
    assert s[2..] == text + after && (text + after)[..|text|] == text;
  }

  lemma FirstShort(s: seq<byte>, i: Item, after: seq<byte>)
    requires Valid(i) && Follows(i, after) && !i.ControlSequence? && !i.SystemCommand?
    requires s == Spelling(i) + after
    ensures First(s) == Some(i)
  {
    assert |Spelling(i)| == 2 ==> s[1] == Spelling(i)[1];
  }

  lemma RestIsOnly(r: Rest)
    requires ValidRest(r)
    ensures var s := SpellingOfRest(r);
            (s == [] || First(s).None?) && RestOf(s) == r
  {
    match r
    case OpenSequence(text) => assert SpellingOfRest(r)[2..] == text;
    case OpenCommand(text) => assert SpellingOfRest(r)[2..] == text;
    case _ =>
  }

  lemma ReadFirst(i: Item, after: seq<byte>)
    requires Valid(i) && Follows(i, after)
    ensures Read(Spelling(i) + after) == Reading([i] + Read(after).items, Read(after).rest)
  {
    FirstIsOnly(i, after);
    assert (Spelling(i) + after)[|Spelling(i)|..] == after;
  }

  /** It is so in one way only. */
  lemma {:induction false} ReadIsOnly(items: seq<Item>, rest: Rest)
    requires WellFormed(items, rest)
    ensures Read(Spelled(items, rest)) == Reading(items, rest)
    decreases |items|
  {
    if items == [] {
      RestIsOnly(rest);
    } else {
      ReadFirst(items[0], Spelled(items[1..], rest));
      ReadIsOnly(items[1..], rest);
      assert [items[0]] + items[1..] == items;
    }
  }

  /** The sanitizer shows of every input exactly what its items show, and the items are determined by the input. */
  lemma SanitizeMeaning(input: seq<byte>)
    ensures exists items, rest ::
              && WellFormed(items, rest) && Spelled(items, rest) == input
              && Sanitize(input) == Shows(false, items)
    ensures forall items, rest, items', rest' ::
              WellFormed(items, rest) && WellFormed(items', rest')
                && Spelled(items, rest) == input == Spelled(items', rest')
              ==> items == items' && rest == rest'
  {
    ReadSpells(input);
    SanitizeShows(Read(input).items, Read(input).rest);
    forall items, rest | WellFormed(items, rest) && Spelled(items, rest) == input
      ensures Reading(items, rest) == Read(input)
    {
      ReadIsOnly(items, rest);
    }
  }
}
