/** Base64 with canonical decoding (src/infra/putty-shared-executor.ts), against section 4 of RFC 4648. */
module Base64 {
  import opened Basics
  import opened Utf8

  type Sextet = n: int | 0 <= n < 64

  /** Table 1 of RFC 4648. */
  function Letter(n: Sextet): (c: char) {
    if n < 26 then (n + 'A' as int) as char
    else if n < 52 then (n - 26 + 'a' as int) as char
    else if n < 62 then (n - 52 + '0' as int) as char
    else if n == 62 then '+' else '/'
  }

  predicate IsLetter(c: char) {
    'A' <= c <= 'Z' || 'a' <= c <= 'z' || '0' <= c <= '9' || c == '+' || c == '/'
  }

  function Value(c: char): (n: Sextet)
    requires IsLetter(c)
  {
    if 'A' <= c <= 'Z' then c as int - 'A' as int
    else if 'a' <= c <= 'z' then c as int - 'a' as int + 26
    else if '0' <= c <= '9' then c as int - '0' as int + 52
    else if c == '+' then 62 else 63
  }

  /** The sextets of three bytes. */
  function S0(a: byte): Sextet { a / 4 }
  function S1(a: byte, b: byte): Sextet { a % 4 * 16 + b / 16 }
  function S2(b: byte, c: byte): Sextet { b % 16 * 4 + c / 64 }
  function S3(c: byte): Sextet { c % 64 }

  function Quad(a: byte, b: byte, c: byte): (r: string) {
    [Letter(S0(a)), Letter(S1(a, b)), Letter(S2(b, c)), Letter(S3(c))]
  }

  function Encode(bytes: seq<byte>): (r: string) {
    if bytes == [] then ""
    else if |bytes| == 1 then [Letter(S0(bytes[0])), Letter(S1(bytes[0], 0)), '=', '=']
    else if |bytes| == 2 then [Letter(S0(bytes[0])), Letter(S1(bytes[0], bytes[1])), Letter(S2(bytes[1], 0)), '=']
    else Quad(bytes[0], bytes[1], bytes[2]) + Encode(bytes[3..])
  }

  function First(p: Sextet, q: Sextet): byte { p * 4 + q / 16 }
  function Second(q: Sextet, r: Sextet): byte { q % 16 * 16 + r / 4 }
  function Third(r: Sextet, s: Sextet): byte { r % 4 * 64 + s }

  predicate Letters(s: string) {
    forall i :: 0 <= i < |s| ==> IsLetter(s[i])
  }

  /** A lenient decoder: what is left of an incomplete last group is dropped. */
  function DecodeLetters(s: string): (r: seq<byte>)
    requires Letters(s)
  {
    if |s| < 2 then []
    else if |s| == 2 then [First(Value(s[0]), Value(s[1]))]
    else if |s| == 3 then [First(Value(s[0]), Value(s[1])), Second(Value(s[1]), Value(s[2]))]
    else
      [First(Value(s[0]), Value(s[1])), Second(Value(s[1]), Value(s[2])), Third(Value(s[2]), Value(s[3]))] +
        DecodeLetters(s[4..])
  }

  /** The text without its padding, at most two characters. */
  function Unpadded(s: string): (r: string) {
    if |s| >= 2 && s[|s| - 2] == '=' && s[|s| - 1] == '=' then s[..|s| - 2]
    else if |s| >= 1 && s[|s| - 1] == '=' then s[..|s| - 1]
    else s
  }

  /** /^[A-Za-z0-9+/]*={0,2}$/ and a length divisible by four. */
  predicate Shaped(s: string) {
    |s| % 4 == 0 && Letters(Unpadded(s))
  }

  function DecodeShaped(s: string): (r: seq<byte>)
    requires Shaped(s)
  {
    DecodeLetters(Unpadded(s))
  }

  /** decodeBase64Strict: decode, encode again and compare. */
  function DecodeStrict(s: string): (r: Option<seq<byte>>) {
    if s == "" || !Shaped(s) then None
    else
      var decoded := DecodeShaped(s);
      if Encode(decoded) == s then Some(decoded) else None
  }

  // ---------------------------------------------------------------- round trip

  lemma FirstRoundTrip(a: byte, b: byte)
    ensures First(S0(a), S1(a, b)) == a
  {
  }

  lemma SecondRoundTrip(a: byte, b: byte, c: byte)
    ensures Second(S1(a, b), S2(b, c)) == b
  {
    assert S1(a, b) % 16 == b / 16;
    assert S2(b, c) / 4 == b % 16;
  }

  lemma IsQuad(p: Sextet, q: Sextet, r: Sextet, s: Sextet)
    ensures var t := [Letter(p), Letter(q), Letter(r), Letter(s)];
            Letters(t) && t[2] != '=' && t[3] != '=' && Value(t[0]) == p && Value(t[1]) == q && Value(t[2]) == r
              && Value(t[3]) == s
  {
  }

  lemma {:induction false} UnpaddedMore(q: string, rest: string)
    requires |q| == 4 && Letters(q) && q[2] != '=' && q[3] != '=' && |rest| % 4 == 0
    ensures Unpadded(q + rest) == q + Unpadded(rest)
  {
    var s := q + rest;
    if rest == "" {
      assert s == q;
    } else {
      assert s[|s| - 1] == rest[|rest| - 1] && s[|s| - 2] == rest[|rest| - 2];
    }
  }

  lemma OneRoundTrip(p: Sextet, q: Sextet)
    ensures var s := [Letter(p), Letter(q), '=', '='];
            Shaped(s) && DecodeShaped(s) == [First(p, q)]
  {
    IsQuad(p, q, q, q);
    assert Unpadded([Letter(p), Letter(q), '=', '=']) == [Letter(p), Letter(q)];
  }

  lemma TwoRoundTrip(p: Sextet, q: Sextet, r: Sextet)
    ensures var s := [Letter(p), Letter(q), Letter(r), '='];
            Shaped(s) && DecodeShaped(s) == [First(p, q), Second(q, r)]
  {
    IsQuad(p, q, r, r);
    assert Unpadded([Letter(p), Letter(q), Letter(r), '=']) == [Letter(p), Letter(q), Letter(r)];
  }

  lemma DecodeQuad(p: Sextet, q: Sextet, r: Sextet, s: Sextet, rest: string)
    requires Shaped(rest)
    ensures var t := [Letter(p), Letter(q), Letter(r), Letter(s)];
            Shaped(t + rest) && DecodeShaped(t + rest) == [First(p, q), Second(q, r), Third(r, s)] + DecodeShaped(rest)
  {
    var t := [Letter(p), Letter(q), Letter(r), Letter(s)];
    IsQuad(p, q, r, s);
    UnpaddedMore(t, rest);
    assert (t + Unpadded(rest))[4..] == Unpadded(rest);
  }

  lemma Three(a: byte, b: byte, c: byte)
    ensures [First(S0(a), S1(a, b)), Second(S1(a, b), S2(b, c)), Third(S2(b, c), S3(c))] == [a, b, c]
  {
    FirstRoundTrip(a, b);
    SecondRoundTrip(a, b, c);
  }

  lemma QuadBack(a: byte, b: byte, c: byte, rest: string)
    requires Shaped(rest)
    ensures Shaped(Quad(a, b, c) + rest) && DecodeShaped(Quad(a, b, c) + rest) == [a, b, c] + DecodeShaped(rest)
  {
    var p, q, r, s := S0(a), S1(a, b), S2(b, c), S3(c);
    DecodeQuad(p, q, r, s, rest);
    Three(a, b, c);
  }

  lemma ShortBack(bytes: seq<byte>)
    requires 1 <= |bytes| <= 2
    ensures Shaped(Encode(bytes)) && DecodeShaped(Encode(bytes)) == bytes
  {
    if |bytes| == 1 {
      OneRoundTrip(S0(bytes[0]), S1(bytes[0], 0));
      FirstRoundTrip(bytes[0], 0);
    } else {
      TwoRoundTrip(S0(bytes[0]), S1(bytes[0], bytes[1]), S2(bytes[1], 0));
      FirstRoundTrip(bytes[0], bytes[1]);
      SecondRoundTrip(bytes[0], bytes[1], 0);
    }
  }

  lemma {:induction false} EncodeRoundTrip(bytes: seq<byte>)
    ensures Shaped(Encode(bytes)) && DecodeShaped(Encode(bytes)) == bytes
  {
    if 1 <= |bytes| <= 2 {
      ShortBack(bytes);
    } else if |bytes| >= 3 {
      EncodeRoundTrip(bytes[3..]);
      QuadBack(bytes[0], bytes[1], bytes[2], Encode(bytes[3..]));
      assert [bytes[0], bytes[1], bytes[2]] + bytes[3..] == bytes;
    }
  }

  /** The strict decoder accepts exactly the canonical encodings of non-empty byte strings. */
  lemma StrictIsCanonical(s: string, bytes: seq<byte>)
    ensures DecodeStrict(s) == Some(bytes) <==> bytes != [] && s == Encode(bytes)
  {
    EncodeRoundTrip(bytes);
    if DecodeStrict(s) == Some(bytes) && bytes == [] {
      assert false;
    }
  }

  predicate IsBase64Char(c: char) {
    IsLetter(c) || c == '='
  }

  lemma {:induction false} EncodedChars(bytes: seq<byte>)
    ensures forall i :: 0 <= i < |Encode(bytes)| ==> IsBase64Char(Encode(bytes)[i])
    ensures bytes != [] ==> Encode(bytes) != ""
  {
    if |bytes| >= 3 {
      EncodedChars(bytes[3..]);
      IsQuad(S0(bytes[0]), S1(bytes[0], bytes[1]), S2(bytes[1], bytes[2]), S3(bytes[2]));
    } else if |bytes| == 2 {
      IsQuad(S0(bytes[0]), S1(bytes[0], bytes[1]), S2(bytes[1], 0), 0);
    } else if |bytes| == 1 {
      IsQuad(S0(bytes[0]), S1(bytes[0], 0), 0, 0);
    }
  }

  // ---------------------------------------------------------------- the alphabet and the bits

  /** The letters are those of table 1 of RFC 4648. */
  lemma Alphabet()
    ensures Letter(0) == 'A' && Letter(1) == 'B' && Letter(2) == 'C' && Letter(3) == 'D'
    ensures Letter(4) == 'E' && Letter(5) == 'F' && Letter(6) == 'G' && Letter(7) == 'H'
    ensures Letter(8) == 'I' && Letter(9) == 'J' && Letter(10) == 'K' && Letter(11) == 'L'
    ensures Letter(12) == 'M' && Letter(13) == 'N' && Letter(14) == 'O' && Letter(15) == 'P'
    ensures Letter(16) == 'Q' && Letter(17) == 'R' && Letter(18) == 'S' && Letter(19) == 'T'
    ensures Letter(20) == 'U' && Letter(21) == 'V' && Letter(22) == 'W' && Letter(23) == 'X'
    ensures Letter(24) == 'Y' && Letter(25) == 'Z' && Letter(26) == 'a' && Letter(27) == 'b'
    ensures Letter(28) == 'c' && Letter(29) == 'd' && Letter(30) == 'e' && Letter(31) == 'f'
    ensures Letter(32) == 'g' && Letter(33) == 'h' && Letter(34) == 'i' && Letter(35) == 'j'
    ensures Letter(36) == 'k' && Letter(37) == 'l' && Letter(38) == 'm' && Letter(39) == 'n'
    ensures Letter(40) == 'o' && Letter(41) == 'p' && Letter(42) == 'q' && Letter(43) == 'r'
    ensures Letter(44) == 's' && Letter(45) == 't' && Letter(46) == 'u' && Letter(47) == 'v'
    ensures Letter(48) == 'w' && Letter(49) == 'x' && Letter(50) == 'y' && Letter(51) == 'z'
    ensures Letter(52) == '0' && Letter(53) == '1' && Letter(54) == '2' && Letter(55) == '3'
    ensures Letter(56) == '4' && Letter(57) == '5' && Letter(58) == '6' && Letter(59) == '7'
    ensures Letter(60) == '8' && Letter(61) == '9' && Letter(62) == '+' && Letter(63) == '/'
  {
  }

  /** Four letters stand for the 24 bits of three bytes, six each, the first bits first. */
  lemma QuadBits(a: byte, b: byte, c: byte)
    ensures S0(a) * 0x40000 + S1(a, b) * 0x1000 + S2(b, c) * 0x40 + S3(c) == a * 0x10000 + b * 0x100 + c
  {
  }
}
