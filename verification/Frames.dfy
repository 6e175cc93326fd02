/** The text frames of a shared session: what buildPuttyCommandFrame prints and the broker loop takes apart, and the
    numbers and prefixes in the broker's answers (src/infra/putty-shared-executor.ts). */
module Frames {
  import opened Basics
  import opened Utf8
  import opened Base64

  const MAGIC := "__ASH2__"

  // ---------------------------------------------------------------- numbers

  predicate IsDigit(c: char) {
    '0' <= c <= '9'
  }

  function Digit(n: nat): char
    requires n < 10
  {
    (n + '0' as int) as char
  }

  function Decimal(n: nat): (r: string) {
    if n < 10 then [Digit(n)] else Decimal(n / 10) + [Digit(n % 10)]
  }

  predicate Digits(s: string) {
    forall i :: 0 <= i < |s| ==> IsDigit(s[i])
  }

  function Number(s: string): (r: nat)
    requires Digits(s)
  {
    if s == "" then 0 else 10 * Number(s[..|s| - 1]) + (s[|s| - 1] as int - '0' as int)
  }

  lemma {:induction false} NumberOfDecimal(n: nat)
    ensures Digits(Decimal(n)) && Decimal(n) != "" && Number(Decimal(n)) == n
    ensures Decimal(n)[0] == '0' ==> n == 0 && |Decimal(n)| == 1
  {
    if n < 10 {
      assert Decimal(n)[..0] == "";
    } else {
      NumberOfDecimal(n / 10);
      assert Decimal(n)[..|Decimal(n)| - 1] == Decimal(n / 10);
    }
  }

  lemma DecimalLength(n: nat)
    requires n < 10_000_000_000
    ensures |Decimal(n)| <= 10
  {
    var n1, n2, n3 := n / 10, n / 10 / 10, n / 10 / 10 / 10;
    var n6 := n3 / 10 / 10 / 10;
    assert n3 < 10_000_000 && n6 < 10_000;
    ThreeDigits(n);
    ThreeDigits(n3);
    ThreeDigits(n6);
    assert n6 / 10 / 10 / 10 < 10;
  }

  lemma ThreeDigits(n: nat)
    ensures |Decimal(n)| <= |Decimal(n / 10 / 10 / 10)| + 3
  {
    OneDigit(n);
    OneDigit(n / 10);
    OneDigit(n / 10 / 10);
  }

  lemma OneDigit(n: nat)
    ensures |Decimal(n)| <= |Decimal(n / 10)| + 1
  {
  }

  /** The exit code of an END frame: /^(?:0|[1-9][0-9]{0,9})$/ and at most 32 bits. */
  function ParseExit(s: string): (r: Option<nat>) {
    if s == "" || |s| > 10 || !Digits(s) || (s[0] == '0' && |s| > 1) then None
    else if Number(s) > 0xffff_ffff then None
    else Some(Number(s))
  }

  /** Every 32-bit exit code survives printing and parsing. */
  lemma ExitRoundTrip(n: nat)
    requires n <= 0xffff_ffff
    ensures ParseExit(Decimal(n)) == Some(n)
  {
    NumberOfDecimal(n);
    DecimalLength(n);
  }

  lemma {:induction false} NumberPositive(s: string)
    requires Digits(s) && s != "" && s[0] != '0'
    ensures Number(s) >= 1
  {
    if |s| > 1 {
      NumberPositive(s[..|s| - 1]);
    }
  }

  /** A numeral without leading zeros is that of its number. */
  lemma {:induction false} DecimalOfNumber(s: string)
    requires Digits(s) && s != "" && (s[0] == '0' ==> |s| == 1)
    ensures Decimal(Number(s)) == s
  {
    var front, last := s[..|s| - 1], s[|s| - 1];
    var digit := last as int - '0' as int;
    if front == "" {
      assert s == [last];
    } else {
      NumberPositive(front);
      DecimalOfNumber(front);
      assert Number(s) / 10 == Number(front) && Number(s) % 10 == digit;
      assert s == front + [last];
    }
  }

  /** Exactly the decimal numerals of 32-bit codes are exit codes. */
  lemma ExitExactly(s: string, n: nat)
    ensures ParseExit(s) == Some(n) <==> n <= 0xffff_ffff && s == Decimal(n)
  {
    if ParseExit(s) == Some(n) {
      DecimalOfNumber(s);
    } else if n <= 0xffff_ffff {
      ExitRoundTrip(n);
    }
  }

  lemma DecimalInjective(m: nat, n: nat)
    requires Decimal(m) == Decimal(n)
    ensures m == n
  {
    NumberOfDecimal(m);
    NumberOfDecimal(n);
  }

  // ---------------------------------------------------------------- fields

  predicate NoColon(s: string) {
    ':' !in s
  }

  /** All fields between colons, empty ones included. */
  function Split(s: string): (r: seq<string>)
    ensures |r| >= 1
    decreases |s|
  {
    if s == "" then [""]
    else if s[0] == ':' then [""] + Split(s[1..])
    else
      var rest := Split(s[1..]);
      [[s[0]] + rest[0]] + rest[1..]
  }

  lemma {:induction false} SplitLast(a: string)
    requires NoColon(a)
    ensures Split(a) == [a]
  {
    if a != "" {
      SplitLast(a[1..]);
      assert [a[0]] + a[1..] == a;
    }
  }

  lemma {:induction false} SplitFirst(a: string, rest: string)
    requires NoColon(a)
    ensures Split(a + ":" + rest) == [a] + Split(rest)
    decreases |a|
  {
    var s := a + ":" + rest;
    if a == "" {
      assert s[1..] == rest;
    } else {
      SplitFirst(a[1..], rest);
      assert s[1..] == a[1..] + ":" + rest;
      assert [a[0]] + a[1..] == a;
    }
  }

  /** Fields with colons between them. */
  function Joined(fields: seq<string>): (r: string)
    requires fields != []
  {
    if |fields| == 1 then fields[0] else fields[0] + ":" + Joined(fields[1..])
  }

  /** Splitting undoes joining. */
  lemma {:induction false} SplitJoined(fields: seq<string>)
    requires fields != [] && forall i :: 0 <= i < |fields| ==> NoColon(fields[i])
    ensures Split(Joined(fields)) == fields
  {
    if |fields| == 1 {
      SplitLast(fields[0]);
    } else {
      SplitJoined(fields[1..]);
      SplitFirst(fields[0], Joined(fields[1..]));
    }
  }

  predicate IsNonce(s: string) {
    |s| == 32 && forall i :: 0 <= i < |s| ==> IsDigit(s[i]) || 'a' <= s[i] <= 'f'
  }

  datatype Request = Request(nonce: string, command: seq<byte>, stdin: Option<seq<byte>>)

  function StdinMode(stdin: Option<seq<byte>>): string {
    if stdin.None? then "N" else "B"
  }

  function StdinText(stdin: Option<seq<byte>>): string {
    if stdin.None? then "" else Encode(stdin.value)
  }

  /** buildPuttyCommandFrame without its newline. */
  function RunFrame(session: string, sequence: nat, r: Request): (line: string) {
    Joined([MAGIC, session, Decimal(sequence), r.nonce, "RUN", Encode(r.command), StdinMode(r.stdin),
            StdinText(r.stdin)])
  }

  /** The checks and decodings of the broker loop; None is its fatal exit. */
  function BrokerReads(session: string, expected: nat, line: string): (r: Option<Request>) {
    BrokerTakes(session, expected, Split(line))
  }

  function BrokerTakes(session: string, expected: nat, f: seq<string>): (r: Option<Request>) {
    if |f| != 8 then None
    else if f[0] != MAGIC || f[1] != session || f[2] != Decimal(expected) || !IsNonce(f[3]) || f[4] != "RUN" then None
    else if f[5] == "" || !Shaped(f[5]) then None
    else if f[6] == "N" then (if f[7] != "" then None else Some(Request(f[3], DecodeShaped(f[5]), None)))
    else if f[6] != "B" || !Shaped(f[7]) then None
    else Some(Request(f[3], DecodeShaped(f[5]), Some(DecodeShaped(f[7]))))
  }

  lemma EncodedNoColon(bytes: seq<byte>)
    ensures NoColon(Encode(bytes))
  {
    EncodedChars(bytes);
  }

  lemma NonceNoColon(s: string)
    requires IsNonce(s)
    ensures NoColon(s)
  {
  }

  lemma DecimalNoColon(n: nat)
    ensures NoColon(Decimal(n))
  {
    NumberOfDecimal(n);
  }

  /** The frame's eight fields. */
  lemma SplitFrame(session: string, sequence: nat, r: Request)
    requires IsNonce(session) && IsNonce(r.nonce)
    ensures Split(RunFrame(session, sequence, r)) ==
            [MAGIC, session, Decimal(sequence), r.nonce, "RUN", Encode(r.command), StdinMode(r.stdin),
             StdinText(r.stdin)]
  {
    NonceNoColon(session);
    NonceNoColon(r.nonce);
    DecimalNoColon(sequence);
    EncodedNoColon(r.command);
    if r.stdin.Some? {
      EncodedNoColon(r.stdin.value);
    }
    SplitJoined([MAGIC, session, Decimal(sequence), r.nonce, "RUN", Encode(r.command), StdinMode(r.stdin),
                 StdinText(r.stdin)]);
  }

  lemma FieldsTaken(session: string, sequence: nat, expected: nat, r: Request, f: seq<string>)
    requires |f| == 8 && f[0] == MAGIC && f[1] == session && f[2] == Decimal(sequence) && f[3] == r.nonce
    requires f[4] == "RUN" && f[5] == Encode(r.command) && f[6] == StdinMode(r.stdin) && f[7] == StdinText(r.stdin)
    requires IsNonce(r.nonce) && r.command != []
    ensures BrokerTakes(session, expected, f) == if sequence == expected then Some(r) else None
  {
    if f[2] == Decimal(expected) {
      DecimalInjective(sequence, expected);
      PayloadRoundTrip(r);
    }
  }

  /** The broker recovers exactly the request from the frame it expects, and refuses the frame of any other number. */
  lemma FrameRoundTrip(session: string, sequence: nat, expected: nat, r: Request)
    requires IsNonce(session) && IsNonce(r.nonce) && r.command != []
    ensures BrokerReads(session, expected, RunFrame(session, sequence, r)) ==
            if sequence == expected then Some(r) else None
  {
    SplitFrame(session, sequence, r);
    FieldsTaken(session, sequence, expected, r, Split(RunFrame(session, sequence, r)));
  }

  lemma PayloadRoundTrip(r: Request)
    requires r.command != []
    ensures Encode(r.command) != "" && Shaped(Encode(r.command)) && DecodeShaped(Encode(r.command)) == r.command
    ensures r.stdin.Some? ==> Shaped(StdinText(r.stdin)) && DecodeShaped(StdinText(r.stdin)) == r.stdin.value
  {
    EncodeRoundTrip(r.command);
    EncodedChars(r.command);
    if r.stdin.Some? {
      EncodeRoundTrip(r.stdin.value);
    }
  }

  // ---------------------------------------------------------------- the broker's answers

  function SessionPrefix(session: string): (r: string) {
    MAGIC + ":" + session
  }

  function Prefix(session: string, sequence: nat, nonce: string): (r: string) {
    SessionPrefix(session) + ":" + Decimal(sequence) + ":" + nonce
  }

  /** What a broker run prints; Died is the broker's FATAL. */
  datatype Event = Began | Printed(stderr: bool, chunk: seq<byte>) | Exited(code: nat) | Died

  function Tag(e: Event): (r: string) {
    match e
    case Began => ":BEGIN"
    case Printed(stderr, chunk) => (if stderr then ":ERR:" else ":OUT:") + Encode(chunk)
    case Exited(code) => ":END:" + Decimal(code)
    case Died => ""
  }

  function Line(session: string, prefix: string, e: Event): (r: string) {
    if e.Died? then SessionPrefix(session) + ":FATAL" else prefix + Tag(e)
  }

  predicate StartsWith(s: string, prefix: string) {
    |prefix| <= |s| && s[..|prefix|] == prefix
  }

  /** The two strings agree up to the first colon of each. */
  lemma {:induction false} FirstField(a: string, s: string, b: string, t: string)
    requires NoColon(a) && NoColon(b) && StartsWith(b + ":" + t, a + ":" + s)
    ensures a == b && StartsWith(t, s)
    decreases |a|
  {
    var whole, start := b + ":" + t, a + ":" + s;
    assert whole[0] == whole[..|start|][0] == start[0];
    if a == "" {
      assert b == "";
      assert t[..|s|] == whole[..|start|][1..] == s;
    } else {
      assert b != "";
      assert whole[1..] == b[1..] + ":" + t && start[1..] == a[1..] + ":" + s;
      assert whole[1..][..|start| - 1] == whole[..|start|][1..] == start[1..];
      FirstField(a[1..], s, b[1..], t);
      assert a == [a[0]] + a[1..] && b == [b[0]] + b[1..];
    }
  }

  /** A line that starts with the prefix of one command and a colon is not a line of any other sequence number or
      nonce. */
  lemma PrefixIdentifies(session: string, m: nat, x: string, n: nat, y: string, s: string, t: string)
    requires IsNonce(session) && IsNonce(x) && IsNonce(y)
    requires StartsWith(Prefix(session, n, y) + ":" + t, Prefix(session, m, x) + ":" + s)
    ensures m == n && x == y
  {
    NonceNoColon(session);
    NonceNoColon(x);
    NonceNoColon(y);
    DecimalNoColon(m);
    DecimalNoColon(n);
    PrefixNested(session, m, x, s);
    PrefixNested(session, n, y, t);
    FirstField(MAGIC, session + ":" + (Decimal(m) + ":" + (x + ":" + s)), MAGIC,
               session + ":" + (Decimal(n) + ":" + (y + ":" + t)));
    FirstField(session, Decimal(m) + ":" + (x + ":" + s), session, Decimal(n) + ":" + (y + ":" + t));
    FirstField(Decimal(m), x + ":" + s, Decimal(n), y + ":" + t);
    FirstField(x, s, y, t);
    DecimalInjective(m, n);
  }

  lemma Nest(a: string, b: string, c: string)
    ensures (a + ":" + b) + ":" + c == a + ":" + (b + ":" + c)
  {
  }

  lemma PrefixNested(session: string, n: nat, nonce: string, s: string)
    ensures Prefix(session, n, nonce) + ":" + s ==
            MAGIC + ":" + (session + ":" + (Decimal(n) + ":" + (nonce + ":" + s)))
  {
    var front, number := SessionPrefix(session), Decimal(n);
    Nest(front + ":" + number, nonce, s);
    Nest(front, number, nonce + ":" + s);
    Nest(MAGIC, session, number + ":" + (nonce + ":" + s));
  }
}
