/** Windows command-line quoting (native/windows-job-supervisor/Program.cs) and the documented
    Microsoft C rules "Parsing C command-line arguments" that undo it. */
module CommandLine {

  const QUOTE: char := '"'
  const SLASH: char := '\\'

  function Slashes(n: nat): (s: string)
    ensures |s| == n && forall i :: 0 <= i < n ==> s[i] == SLASH
  {
    seq(n, _ => SLASH)
  }

  predicate IsBlank(c: char) {
    c == ' ' || c == '\t'
  }

  // ---------------------------------------------------------------- the reader: Microsoft C argument rules

  datatype Argument = Argument(value: string, rest: string)

  /** Reads on in one argument after `value` and `slashes` backslashes not yet decided. Backslashes are literal
      unless they precede a quote: 2n of them and a quote give n and a delimiter, 2n+1 give n and a literal
      quote. A doubled quote inside a quoted part is one literal quote. */
  function ReadArgument(s: string, inQuotes: bool, slashes: nat, value: string): (r: Argument)
    ensures |r.rest| <= |s|
    decreases |s|
  {
    if s == [] then Argument(value + Slashes(slashes), [])
    else if s[0] == SLASH then ReadArgument(s[1..], inQuotes, slashes + 1, value)
    else if s[0] == QUOTE then
      if slashes % 2 == 1 then ReadArgument(s[1..], inQuotes, 0, value + Slashes(slashes / 2) + [QUOTE])
      else if inQuotes && |s| > 1 && s[1] == QUOTE
        then ReadArgument(s[2..], inQuotes, 0, value + Slashes(slashes / 2) + [QUOTE])
      else ReadArgument(s[1..], !inQuotes, 0, value + Slashes(slashes / 2))
    else if !inQuotes && IsBlank(s[0]) then Argument(value + Slashes(slashes), s)
    else ReadArgument(s[1..], inQuotes, 0, value + Slashes(slashes) + [s[0]])
  }

  function SkipBlanks(s: string): (r: string)
    ensures |r| <= |s| && (r != [] ==> !IsBlank(r[0]))
  {
    if s != [] && IsBlank(s[0]) then SkipBlanks(s[1..]) else s
  }

  function ReadArguments(s: string): (args: seq<string>)
    decreases |s|
  {
    var t := SkipBlanks(s);
    if t == [] then []
    else
      var argument := ReadArgument(t, false, 0, []);
      [argument.value] + ReadArguments(argument.rest)
  }

  /** The program name: quotes only group, backslashes are never special. */
  function ReadProgram(s: string, inQuotes: bool): (r: (string, string))
    ensures |r.1| <= |s|
  {
    if s == [] || (!inQuotes && IsBlank(s[0])) then ([], s)
    else if s[0] == QUOTE then ReadProgram(s[1..], !inQuotes)
    else
      var (name, left) := ReadProgram(s[1..], inQuotes);
      ([s[0]] + name, left)
  }

  function UntilNul(s: string): (r: string)
    ensures '\0' !in r && ('\0' !in s ==> r == s)
  {
    if s == [] || s[0] == '\0' then [] else [s[0]] + UntilNul(s[1..])
  }

  /** argv of a NUL-terminated command line. */
  function Parse(commandLine: string): (argv: seq<string>)
    ensures argv != []
  {
    var (program, left) := ReadProgram(UntilNul(commandLine), false);
    [program] + ReadArguments(left)
  }

  // ---------------------------------------------------------------- the printer

  predicate Plain(c: char) {
    c !in [' ', '\t', '\n', '\U{0B}', QUOTE]
  }

  predicate NeedsQuotes(argument: string) {
    exists i :: 0 <= i < |argument| && !Plain(argument[i])
  }

  /** The quoted text that remains to be written with `pending` backslashes held back, closing quote included. */
  function QuotedTail(s: string, pending: nat): (r: string) {
    if s == [] then Slashes(2 * pending) + [QUOTE]
    else if s[0] == SLASH then QuotedTail(s[1..], pending + 1)
    else if s[0] == QUOTE then Slashes(2 * pending + 1) + [QUOTE] + QuotedTail(s[1..], 0)
    else Slashes(pending) + [s[0]] + QuotedTail(s[1..], 0)
  }

  function Quoted(argument: string): (r: string) {
    if argument == [] then [QUOTE, QUOTE]
    else if !NeedsQuotes(argument) then argument
    else [QUOTE] + QuotedTail(argument, 0)
  }

  method QuoteArgument(argument: string) returns (quoted: string)
    ensures quoted == Quoted(argument)
  {
    if |argument| == 0 {
      return [QUOTE, QUOTE];
    }
    if !NeedsQuotes(argument) {
      return argument;
    }
    quoted := [QUOTE];
    var backslashCount := 0;
    for i := 0 to |argument|
      invariant backslashCount >= 0
      invariant quoted + QuotedTail(argument[i..], backslashCount) == [QUOTE] + QuotedTail(argument, 0)
    {
      var character := argument[i];
      assert argument[i..][1..] == argument[i + 1..];
      if character == SLASH {
        backslashCount := backslashCount + 1;
      } else if character == QUOTE {
        quoted := quoted + Slashes(backslashCount * 2 + 1) + [QUOTE];
        backslashCount := 0;
      } else {
        quoted := quoted + Slashes(backslashCount) + [character];
        backslashCount := 0;
      }
    }
    quoted := quoted + Slashes(backslashCount * 2) + [QUOTE];
  }

  /** Every argument as shown, with a blank before each. */
  function Listed(show: string -> string, arguments: seq<string>): (r: string) {
    if arguments == [] then []
    else Listed(show, arguments[..|arguments| - 1]) + [' '] + show(arguments[|arguments| - 1])
  }

  function AllQuoted(arguments: seq<string>): (r: string) {
    Listed(Quoted, arguments)
  }

  lemma ListedLast(show: string -> string, arguments: seq<string>, i: nat)
    requires i < |arguments|
    ensures Listed(show, arguments[..i + 1]) == Listed(show, arguments[..i]) + [' '] + show(arguments[i])
  {
    assert arguments[..i + 1][..i] == arguments[..i];
  }

  datatype Result<+T> = Ok(value: T) | NulInArgument | TooLong

  const LIMIT := 32_767

  predicate HasNul(s: string) {
    '\0' in s
  }

  /** The program, then every argument after a space. */
  function CommandText(executable: string, arguments: seq<string>): (r: string) {
    Quoted(executable) + AllQuoted(arguments)
  }

  lemma CommandTextGrows(executable: string, arguments: seq<string>, i: nat)
    requires i < |arguments|
    ensures CommandText(executable, arguments[..i + 1]) ==
            CommandText(executable, arguments[..i]) + [' '] + Quoted(arguments[i])
  {
    ListedLast(Quoted, arguments, i);
  }

  method BuildCommandLine(executable: string, arguments: seq<string>) returns (r: Result<string>)
    ensures r.NulInArgument? <==> exists i :: 0 <= i < |arguments| && HasNul(arguments[i])
    ensures r.TooLong? ==> |CommandText(executable, arguments)| >= LIMIT
    ensures r.Ok? ==> r.value == CommandText(executable, arguments) && |r.value| < LIMIT
  {
    var commandLine := QuoteArgument(executable);
    assert arguments[..0] == [];
    for i := 0 to |arguments|
      invariant commandLine == CommandText(executable, arguments[..i])
      invariant forall j :: 0 <= j < i ==> !HasNul(arguments[j])
    {
      if HasNul(arguments[i]) {
        return NulInArgument;
      }
      var quoted := QuoteArgument(arguments[i]);
      CommandTextGrows(executable, arguments, i);
      commandLine := commandLine + [' '] + quoted;
    }
    assert arguments[..|arguments|] == arguments;
    if |commandLine| >= LIMIT {
      return TooLong;
    }
    return Ok(commandLine);
  }

  // ---------------------------------------------------------------- one argument comes back

  /** Where the text of an argument ends on a built command line. */
  predicate EndsArgument(rest: string) {
    rest == [] || rest[0] == ' '
  }

  lemma {:induction false} ReadSlashes(n: nat, s: string, inQuotes: bool, slashes: nat, value: string)
    ensures ReadArgument(Slashes(n) + s, inQuotes, slashes, value) == ReadArgument(s, inQuotes, slashes + n, value)
    decreases n
  {
    if n == 0 {
      assert Slashes(n) + s == s;
    } else {
      assert (Slashes(n) + s)[1..] == Slashes(n - 1) + s;
      ReadSlashes(n - 1, s, inQuotes, slashes + 1, value);
    }
  }

  lemma Reassociate(a: string, c: char, b: string, d: string)
    ensures (a + [c] + b) + d == a + ([c] + (b + d))
  {
  }

  /** Inside quotes, `n` backslashes and a character: halved before a quote, kept otherwise. */
  lemma ReadThrough(n: nat, c: char, s: string, value: string)
    requires c != SLASH && (c == QUOTE ==> n % 2 == 1)
    ensures ReadArgument(Slashes(n) + ([c] + s), true, 0, value)
         == ReadArgument(s, true, 0, value + Slashes(if c == QUOTE then n / 2 else n) + [c])
  {
    ReadSlashes(n, [c] + s, true, 0, value);
  }

  lemma QuotedStep(s: string, pending: nat, rest: string, value: string)
    requires s != [] && s[0] != SLASH
    ensures ReadArgument(QuotedTail(s, pending) + rest, true, 0, value)
         == ReadArgument(QuotedTail(s[1..], 0) + rest, true, 0, value + Slashes(pending) + [s[0]])
  {
    var c, t := s[0], QuotedTail(s[1..], 0);
    var n := QuotedSlashes(c, pending);
    Reassociate(Slashes(n), c, t, rest);
    ReadThrough(n, c, t + rest, value);
  }

  /** How many backslashes are printed before a character. */
  function QuotedSlashes(c: char, pending: nat): nat {
    if c == QUOTE then 2 * pending + 1 else pending
  }

  lemma QuotedEnd(pending: nat, rest: string, value: string)
    requires EndsArgument(rest)
    ensures ReadArgument(QuotedTail([], pending) + rest, true, 0, value) == Argument(value + Slashes(pending), rest)
  {
    assert QuotedTail([], pending) + rest == Slashes(2 * pending) + ([QUOTE] + rest);
    ReadSlashes(2 * pending, [QUOTE] + rest, true, 0, value);
    assert Slashes(0) == [] && value + Slashes(pending) + [] == value + Slashes(pending);
  }

  lemma {:induction false} QuotedComesBack(s: string, pending: nat, rest: string, value: string)
    requires EndsArgument(rest)
    ensures ReadArgument(QuotedTail(s, pending) + rest, true, 0, value) == Argument(value + Slashes(pending) + s, rest)
    decreases |s|
  {
    if s == [] {
      QuotedEnd(pending, rest, value);
      assert value + Slashes(pending) + [] == value + Slashes(pending);
    } else if s[0] == SLASH {
      QuotedComesBack(s[1..], pending + 1, rest, value);
      assert value + Slashes(pending + 1) + s[1..] == value + Slashes(pending) + s;
    } else {
      QuotedStep(s, pending, rest, value);
      QuotedComesBack(s[1..], 0, rest, value + Slashes(pending) + [s[0]]);
      assert (value + Slashes(pending) + [s[0]]) + Slashes(0) + s[1..] == value + Slashes(pending) + s;
    }
  }

  lemma {:induction false} PlainComesBack(s: string, slashes: nat, rest: string, value: string)
    requires EndsArgument(rest) && !NeedsQuotes(s)
    ensures ReadArgument(s + rest, false, slashes, value) == Argument(value + Slashes(slashes) + s, rest)
    decreases |s|
  {
    if s == [] {
      assert s + rest == rest && value + Slashes(slashes) + s == value + Slashes(slashes);
    } else {
      var tail := s[1..] + rest;
      assert s + rest == [s[0]] + tail && ([s[0]] + tail)[1..] == tail;
      if s[0] == SLASH {
        PlainComesBack(s[1..], slashes + 1, rest, value);
        assert value + Slashes(slashes + 1) + s[1..] == value + Slashes(slashes) + s;
      } else {
        PlainComesBack(s[1..], 0, rest, value + Slashes(slashes) + [s[0]]);
        assert (value + Slashes(slashes) + [s[0]]) + Slashes(0) + s[1..] == value + Slashes(slashes) + s;
      }
    }
  }

  lemma ArgumentComesBack(argument: string, rest: string)
    requires EndsArgument(rest)
    ensures ReadArgument(Quoted(argument) + rest, false, 0, []) == Argument(argument, rest)
  {
    var none: string := [];
    assert none + Slashes(0) + argument == argument && none + Slashes(0) == none;
    if argument != [] && !NeedsQuotes(argument) {
      PlainComesBack(argument, 0, rest, []);
    } else {
      OpenQuoteComesBack(argument, rest);
    }
  }

  lemma OpenQuoteComesBack(argument: string, rest: string)
    requires EndsArgument(rest)
    ensures ReadArgument([QUOTE] + QuotedTail(argument, 0) + rest, false, 0, []) ==
            Argument([] + Slashes(0) + argument, rest)
  {
    var tail := QuotedTail(argument, 0);
    QuotedComesBack(argument, 0, rest, []);
    assert ([QUOTE] + tail) + rest == [QUOTE] + (tail + rest);
    assert [] + Slashes(0) == [];
  }

  // ---------------------------------------------------------------- all arguments come back

  /** The list can as well be taken apart at its front. */
  lemma {:induction false} ListedFirst(show: string -> string, arguments: seq<string>)
    requires arguments != []
    ensures Listed(show, arguments) == [' '] + show(arguments[0]) + Listed(show, arguments[1..])
  {
    var n := |arguments| - 1;
    var front, tail := arguments[..n], arguments[1..];
    ListedLast(show, arguments, n);
    assert arguments[..n + 1] == arguments;
    if n == 0 {
      assert front == [] && tail == [];
      assert [' '] + show(arguments[0]) == [] + [' '] + show(arguments[0]);
    } else {
      ListedFirst(show, front);
      ListedLast(show, tail, n - 1);
      assert front[1..] == tail[..n - 1] && tail[..n] == tail && tail[n - 1] == arguments[n];
    }
  }

  lemma ReadAfterBlank(text: string)
    requires text != [] && !IsBlank(text[0])
    ensures var argument := ReadArgument(text, false, 0, []);
            ReadArguments([' '] + text) == [argument.value] + ReadArguments(argument.rest)
  {
    assert ([' '] + text)[1..] == text && SkipBlanks(text) == text;
    assert SkipBlanks([' '] + text) == text;
  }

  lemma {:induction false} ArgumentsComeBack(arguments: seq<string>)
    ensures ReadArguments(AllQuoted(arguments)) == arguments
    ensures EndsArgument(AllQuoted(arguments))
    decreases |arguments|
  {
    if arguments != [] {
      var rest := AllQuoted(arguments[1..]);
      ListedFirst(Quoted, arguments);
      ArgumentsComeBack(arguments[1..]);
      FirstComesBack(arguments[0], rest);
      assert arguments == [arguments[0]] + arguments[1..];
    }
  }

  lemma FirstComesBack(argument: string, rest: string)
    requires EndsArgument(rest)
    ensures ReadArguments([' '] + Quoted(argument) + rest) == [argument] + ReadArguments(rest)
  {
    var text := Quoted(argument) + rest;
    ArgumentComesBack(argument, rest);
    assert [' '] + Quoted(argument) + rest == [' '] + text;
    ReadAfterBlank(text);
  }

  // ---------------------------------------------------------------- the program name

  lemma {:induction false} QuotedWithoutQuotes(s: string, pending: nat) returns (extra: nat)
    requires QUOTE !in s
    ensures QuotedTail(s, pending) == Slashes(pending) + s + Slashes(extra) + [QUOTE]
    ensures extra > 0 <==> (if s == [] then pending > 0 else s[|s| - 1] == SLASH)
  {
    if s == [] {
      extra := pending;
      assert Slashes(2 * pending) == Slashes(pending) + Slashes(pending);
    } else if s[0] == SLASH {
      extra := QuotedWithoutQuotes(s[1..], pending + 1);
      assert Slashes(pending + 1) + s[1..] == Slashes(pending) + s;
    } else {
      extra := QuotedWithoutQuotes(s[1..], 0);
      assert s == [s[0]] + s[1..];
      assert Slashes(pending) + [s[0]] + (Slashes(0) + s[1..] + Slashes(extra) + [QUOTE]) ==
        Slashes(pending) + s + Slashes(extra) + [QUOTE];
    }
  }

  lemma {:induction false} ProgramInQuotes(name: string, rest: string)
    requires QUOTE !in name && EndsArgument(rest)
    ensures ReadProgram(name + [QUOTE] + rest, true) == (name, rest)
  {
    var s := name + [QUOTE] + rest;
    if name == [] {
      assert s[1..] == rest;
    } else {
      assert s[1..] == name[1..] + [QUOTE] + rest;
      ProgramInQuotes(name[1..], rest);
      assert [name[0]] + name[1..] == name;
    }
  }

  lemma {:induction false} ProgramPlain(name: string, rest: string)
    requires !NeedsQuotes(name) && EndsArgument(rest)
    ensures ReadProgram(name + rest, false) == (name, rest)
  {
    var s := name + rest;
    if name == [] {
      assert s == rest;
    } else {
      assert s[1..] == name[1..] + rest;
      ProgramPlain(name[1..], rest);
      assert [name[0]] + name[1..] == name;
    }
  }

  /** What comes back is free of quotes, so a name with a quote never comes back. */
  lemma {:induction false} ProgramHasNoQuote(s: string, inQuotes: bool)
    ensures QUOTE !in ReadProgram(s, inQuotes).0
    ensures forall c :: c in ReadProgram(s, inQuotes).0 ==> c in s
    decreases |s|
  {
    if s != [] && !(!inQuotes && IsBlank(s[0])) {
      ProgramHasNoQuote(s[1..], if s[0] == QUOTE then !inQuotes else inQuotes);
    }
  }

  /** The names that survive: no quote, no NUL, and no backslash right before a closing quote. */
  predicate SafeProgram(executable: string) {
    && QUOTE !in executable
    && '\0' !in executable
    && !(NeedsQuotes(executable) && executable[|executable| - 1] == SLASH)
  }

  lemma ProgramComesBack(executable: string, rest: string)
    requires QUOTE !in executable && EndsArgument(rest)
    ensures var r := ReadProgram(Quoted(executable) + rest, false);
            r.1 == rest && (r.0 == executable <==> !(NeedsQuotes(executable) && executable[|executable| - 1] == SLASH))
  {
    if executable == [] || NeedsQuotes(executable) {
      var extra := QuotedProgram(executable, rest);
      assert extra > 0 ==> |executable + Slashes(extra)| != |executable|;
      assert extra == 0 ==> executable + Slashes(extra) == executable;
    } else {
      ProgramPlain(executable, rest);
    }
  }

  /** A quoted program name comes back with as many backslashes more as it ends with. */
  lemma QuotedProgram(executable: string, rest: string) returns (extra: nat)
    requires QUOTE !in executable && EndsArgument(rest) && (executable == [] || NeedsQuotes(executable))
    ensures ReadProgram(Quoted(executable) + rest, false) == (executable + Slashes(extra), rest)
    ensures extra > 0 <==> executable != [] && executable[|executable| - 1] == SLASH
  {
    extra := QuotedProgramText(executable);
    var name := executable + Slashes(extra);
    assert (Quoted(executable) + rest)[1..] == name + [QUOTE] + rest;
    ProgramInQuotes(name, rest);
  }

  lemma QuotedProgramText(executable: string) returns (extra: nat)
    requires QUOTE !in executable && (executable == [] || NeedsQuotes(executable))
    ensures Quoted(executable) == [QUOTE] + (executable + Slashes(extra) + [QUOTE])
    ensures extra > 0 <==> executable != [] && executable[|executable| - 1] == SLASH
  {
    extra := QuotedWithoutQuotes(executable, 0);
    assert Slashes(0) + executable + Slashes(extra) + [QUOTE] == executable + Slashes(extra) + [QUOTE];
    assert executable == [] ==> Slashes(extra) == [];
  }

  // ---------------------------------------------------------------- NUL

  lemma {:induction false} QuotedKeepsNul(s: string, pending: nat)
    ensures '\0' in QuotedTail(s, pending) <==> '\0' in s
  {
    if s != [] {
      QuotedKeepsNul(s[1..], if s[0] == SLASH then pending + 1 else 0);
      assert s == [s[0]] + s[1..];
    }
  }

  lemma {:induction false} LineKeepsNul(executable: string, arguments: seq<string>)
    requires forall i :: 0 <= i < |arguments| ==> !HasNul(arguments[i])
    ensures '\0' in Quoted(executable) + AllQuoted(arguments) <==> '\0' in executable
    decreases |arguments|
  {
    QuotedKeepsNul(executable, 0);
    if arguments != [] {
      LineKeepsNul(executable, arguments[..|arguments| - 1]);
      QuotedKeepsNul(arguments[|arguments| - 1], 0);
    }
  }

  /** The built command line parses back to exactly the original list, for every NUL-free argument list,
      if and only if the program name is safe. */
  lemma RoundTrip(executable: string, arguments: seq<string>)
    requires forall i :: 0 <= i < |arguments| ==> !HasNul(arguments[i])
    ensures Parse(CommandText(executable, arguments)) == [executable] + arguments <==> SafeProgram(executable)
  {
    var rest := AllQuoted(arguments);
    var line := Quoted(executable) + rest;
    LineKeepsNul(executable, arguments);
    if QUOTE !in executable && '\0' !in executable {
      ArgumentsComeBack(arguments);
      ProgramComesBack(executable, rest);
      ParseIs(line, ReadProgram(line, false).0, rest, arguments);
    } else {
      FirstHasNoQuoteOrNul(line);
    }
    assert ([executable] + arguments)[0] == executable;
  }

  lemma ParseIs(line: string, program: string, rest: string, arguments: seq<string>)
    requires '\0' !in line && ReadProgram(line, false) == (program, rest) && ReadArguments(rest) == arguments
    ensures Parse(line) == [program] + arguments
    ensures forall executable :: Parse(line) == [executable] + arguments <==> program == executable
  {
    forall executable | [program] + arguments == [executable] + arguments ensures program == executable {
      assert ([program] + arguments)[0] == ([executable] + arguments)[0];
    }
  }

  lemma FirstHasNoQuoteOrNul(line: string)
    ensures QUOTE !in Parse(line)[0] && '\0' !in Parse(line)[0]
  {
    ProgramHasNoQuote(UntilNul(line), false);
  }

  /** A quoted directory with a trailing backslash comes back with the backslash doubled. */
  lemma TrailingBackslashExample()
    ensures Parse(CommandText("a b\\", []))[0] != "a b\\"
  {
    var name := "a b\\";
    assert name[1] == ' ' && name[3] == SLASH;
    assert !Plain(name[1]);
    RoundTrip(name, []);
    assert Quoted(name) + AllQuoted([]) == Quoted(name);
    ArgumentsComeBack([]);
    ProgramComesBack(name, []);
    LineKeepsNul(name, []);
    assert Quoted(name) + [] == Quoted(name);
  }
}
