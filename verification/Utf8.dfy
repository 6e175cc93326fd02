/** UTF-8 boundaries in arbitrary byte streams (src/shared/utf8.ts) against two
    independent references: the character grammar of section 4 of RFC 3629, and the
    replacing decoder of the WHATWG Encoding Standard that turns bytes into text. */
module Utf8 {
  import opened Seqs

  type byte = b: int | 0 <= b < 256

  predicate IsContinuation(b: byte) {
    0x80 <= b <= 0xBF
  }

  /** The number of bytes a lead byte announces; 1 for everything that is not a multi-byte lead. */
  function SequenceLength(lead: byte): (n: nat)
    ensures 1 <= n <= 4
    ensures n > 1 ==> !IsContinuation(lead)
  {
    if 0xC2 <= lead <= 0xDF then 2
    else if 0xE0 <= lead <= 0xEF then 3
    else if 0xF0 <= lead <= 0xF4 then 4
    else 1
  }

  // ---------------------------------------------------------------- RFC 3629, section 4

  /** Exactly one encoded character. */
  predicate IsChar(c: seq<byte>) {
    || (|c| == 1 && c[0] <= 0x7F)
    || (|c| == 2 && 0xC2 <= c[0] <= 0xDF && IsContinuation(c[1]))
    || (|c| == 3 && IsContinuation(c[1]) && IsContinuation(c[2]) &&
        ((c[0] == 0xE0 && 0xA0 <= c[1]) || 0xE1 <= c[0] <= 0xEC || (c[0] == 0xED && c[1] <= 0x9F)
         || 0xEE <= c[0] <= 0xEF))
    || (|c| == 4 && IsContinuation(c[1]) && IsContinuation(c[2]) && IsContinuation(c[3]) &&
        ((c[0] == 0xF0 && 0x90 <= c[1]) || 0xF1 <= c[0] <= 0xF3 || (c[0] == 0xF4 && c[1] <= 0x8F)))
  }

  /** A sequence of encoded characters: what a fatal decoder accepts. */
  predicate IsValidUtf8(s: seq<byte>) {
    s == [] || exists n :: 1 <= n <= 4 && n <= |s| && IsChar(s[..n]) && IsValidUtf8(s[n..])
  }

  ghost predicate CharAt(s: seq<byte>, i: int, n: int) {
    0 <= i && 0 <= n && i + n <= |s| && IsChar(s[i..i + n])
  }

  /** Offset `k` lies strictly inside an encoded character of `s`. */
  ghost predicate Inside(s: seq<byte>, k: int) {
    exists i, n :: CharAt(s, i, n) && i < k < i + n
  }

  /** The lead byte fixes the length, and every later byte is a continuation. */
  lemma CharShape(s: seq<byte>, i: int, n: int)
    requires CharAt(s, i, n)
    ensures n >= 1 && (n == SequenceLength(s[i]) || (n == 1 && s[i] <= 0x7F))
    ensures forall j :: i < j < i + n ==> IsContinuation(s[j])
    ensures !IsContinuation(s[i])
  {
    var c := s[i..i + n];
    assert c[0] == s[i];
    forall j | i < j < i + n ensures IsContinuation(s[j]) {
      assert s[j] == c[j - i];
    }
  }

  /** A valid string that starts with a multi-byte lead and has the announced length is one character. */
  lemma ValidAtLeadLength(c: seq<byte>)
    requires |c| >= 2 && |c| == SequenceLength(c[0])
    ensures IsValidUtf8(c) <==> IsChar(c)
  {
    assert c[..|c|] == c && c[|c|..] == [];
    if IsValidUtf8(c) {
      var n :| 1 <= n <= 4 && n <= |c| && IsChar(c[..n]) && IsValidUtf8(c[n..]);
      assert c[..n][0] == c[0];
    }
    if IsChar(c) {
      assert IsValidUtf8(c[|c|..]);
    }
  }

  // ---------------------------------------------------------------- the prefix that ends no character early

  /** `s[k..]` is a lead byte followed by fewer continuation bytes than it announces. */
  predicate PartialTail(s: seq<byte>, k: int) {
    && 0 <= k < |s|
    && SequenceLength(s[k]) > |s| - k
    && forall j :: k < j < |s| ==> IsContinuation(s[j])
  }

  /** The start of the partial tail, or the whole length when there is none. */
  function CompletePrefix(s: seq<byte>): (k: nat)
    ensures k <= |s| <= k + 3
    ensures k < |s| ==> SequenceLength(s[k]) > |s| - k
  {
    var n := |s|;
    if n >= 1 && SequenceLength(s[n - 1]) > 1 then n - 1
    else if n >= 2 && IsContinuation(s[n - 1]) && SequenceLength(s[n - 2]) > 2 then n - 2
    else if n >= 3 && IsContinuation(s[n - 1]) && IsContinuation(s[n - 2]) && SequenceLength(s[n - 3]) > 3 then n - 3
    else n
  }

  lemma CompletePrefixMeaning(s: seq<byte>)
    ensures CompletePrefix(s) < |s| ==> PartialTail(s, CompletePrefix(s))
    ensures forall j :: PartialTail(s, j) ==> j == CompletePrefix(s)
  {
    forall j | PartialTail(s, j) ensures j == CompletePrefix(s) {
      assert j >= |s| - 3;
    }
  }

  /** The backward scan of completeUtf8PrefixLength. */
  method CompleteUtf8PrefixLength(buffer: seq<byte>) returns (k: nat)
    ensures k == CompletePrefix(buffer)
  {
    if |buffer| == 0 {
      return 0;
    }
    var leadIndex: int := |buffer| - 1;
    var continuationBytes := 0;
    while leadIndex >= 0 && continuationBytes < 3 && IsContinuation(buffer[leadIndex])
      invariant -1 <= leadIndex && 0 <= continuationBytes <= 3
      invariant leadIndex == |buffer| - 1 - continuationBytes
      invariant forall j :: leadIndex < j < |buffer| ==> IsContinuation(buffer[j])
    {
      continuationBytes := continuationBytes + 1;
      leadIndex := leadIndex - 1;
    }
    if leadIndex < 0 {
      return |buffer|;
    }
    CompletePrefixMeaning(buffer);
    var lead := buffer[leadIndex];
    var expectedBytes := if lead <= 0x7F then 1 else SequenceLength(lead);
    var availableBytes := |buffer| - leadIndex;
    if expectedBytes > availableBytes && continuationBytes == availableBytes - 1 {
      k := leadIndex;
    } else {
      k := |buffer|;
    }
  }

  /** Whatever bytes follow, the prefix never ends inside a character. */
  lemma CompletePrefixNeverSplits(s: seq<byte>, t: seq<byte>)
    ensures !Inside(s + t, CompletePrefix(s))
  {
    var k := CompletePrefix(s);
    CompletePrefixMeaning(s);
    forall i, n | CharAt(s + t, i, n) && i < k ensures i + n <= k {
      CharShape(s + t, i, n);
      assert (s + t)[i] == s[i];
      assert forall j :: i < j < |s| ==> (s + t)[j] == s[j];
      assert k == |s| ==> !PartialTail(s, i);
      assert k < |s| ==> !IsContinuation((s + t)[k]);
    }
  }

  // ---------------------------------------------------------------- the replacing decoder

  const REPLACEMENT := 0xFFFD

  datatype Decoder = Ground | Pending(need: nat, lower: int, upper: int, scalar: int)

  function FromGround(b: byte): (Decoder, seq<int>) {
    if b <= 0x7F then (Ground, [b])
    else if 0xC2 <= b <= 0xDF then (Pending(1, 0x80, 0xBF, b - 0xC0), [])
    else if 0xE0 <= b <= 0xEF then
      (Pending(2, if b == 0xE0 then 0xA0 else 0x80, if b == 0xED then 0x9F else 0xBF, b - 0xE0), [])
    else if 0xF0 <= b <= 0xF4 then
      (Pending(3, if b == 0xF0 then 0x90 else 0x80, if b == 0xF4 then 0x8F else 0xBF, b - 0xF0), [])
    else (Ground, [REPLACEMENT])
  }

  function DecodeByte(d: Decoder, b: byte): (Decoder, seq<int>) {
    if d.Ground? then FromGround(b)
    else if d.lower <= b <= d.upper then
      var scalar := d.scalar * 64 + (b - 0x80);
      if d.need <= 1 then (Ground, [scalar]) else (Pending(d.need - 1, 0x80, 0xBF, scalar), [])
    else
      var (d', out) := FromGround(b);
      (d', [REPLACEMENT] + out)
  }

  function Decode(d: Decoder, s: seq<byte>): (Decoder, seq<int>) {
    if s == [] then (d, [])
    else
      var (d1, out1) := Decode(d, s[..|s| - 1]);
      var (d2, out2) := DecodeByte(d1, s[|s| - 1]);
      (d2, out1 + out2)
  }

  function Flush(d: Decoder): seq<int> {
    if d.Ground? then [] else [REPLACEMENT]
  }

  /** The code points `toString("utf8")` yields for a whole buffer. */
  function Text(s: seq<byte>): (t: seq<int>) {
    var (d, out) := Decode(Ground, s);
    out + Flush(d)
  }

  lemma {:induction false} DecodeConcat(d: Decoder, a: seq<byte>, b: seq<byte>)
    ensures Decode(d, a + b) == (Decode(Decode(d, a).0, b).0, Decode(d, a).1 + Decode(Decode(d, a).0, b).1)
    decreases |b|
  {
    if b == [] {
      assert a + b == a && Decode(d, a).1 + [] == Decode(d, a).1;
    } else {
      var s := a + b;
      assert s[..|s| - 1] == a + b[..|b| - 1];
      DecodeConcat(d, a, b[..|b| - 1]);
      var d1 := Decode(d, a);
      var d2 := Decode(d1.0, b[..|b| - 1]);
      var d3 := DecodeByte(d2.0, b[|b| - 1]);
      assert (d1.1 + d2.1) + d3.1 == d1.1 + (d2.1 + d3.1);
    }
  }

  /** Cutting between `a` and `b` interrupts nothing: the decoder is at rest, or `b` opens afresh. */
  ghost predicate CleanCut(a: seq<byte>, b: seq<byte>) {
    Decode(Ground, a).0.Ground? || (b != [] && !IsContinuation(b[0]))
  }

  /** What a pending decoder remembers is exactly a partial tail. */
  lemma {:induction false} PendingIsPartialTail(s: seq<byte>)
    ensures var d := Decode(Ground, s).0;
            d.Pending? ==>
              && 1 <= d.need && 0x80 <= d.lower && d.upper <= 0xBF
              && PartialTail(s, CompletePrefix(s))
              && SequenceLength(s[CompletePrefix(s)]) == |s| - CompletePrefix(s) + d.need
    decreases |s|
  {
    if s != [] {
      var p := s[..|s| - 1];
      PendingIsPartialTail(p);
      var d := Decode(Ground, p).0;
      var b := s[|s| - 1];
      if Decode(Ground, s).0.Pending? && d.Pending? && d.lower <= b <= d.upper {
        var k := CompletePrefix(p);
        assert s[k] == p[k];
        assert forall j :: k < j < |p| ==> p[j] == s[j];
        assert PartialTail(s, k);
        CompletePrefixMeaning(s);
      }
    }
  }

  /** A cut where CompletePrefix reports nothing partial, or where the next byte is no continuation, is clean. */
  lemma CompleteMeansGround(s: seq<byte>)
    requires CompletePrefix(s) == |s|
    ensures Decode(Ground, s).0.Ground?
  {
    PendingIsPartialTail(s);
  }

  lemma {:induction false} DecodeFirst(d: Decoder, b: seq<byte>)
    requires d.Pending? && b != [] && !(d.lower <= b[0] <= d.upper)
    ensures Decode(d, b) == (Decode(Ground, b).0, [REPLACEMENT] + Decode(Ground, b).1)
    decreases |b|
  {
    if |b| == 1 {
      assert b[..0] == [];
      var first := FromGround(b[0]);
      assert [] + ([REPLACEMENT] + first.1) == [REPLACEMENT] + ([] + first.1);
    } else {
      DecodeFirst(d, b[..|b| - 1]);
      var d1 := Decode(Ground, b[..|b| - 1]);
      var d2 := DecodeByte(d1.0, b[|b| - 1]);
      assert ([REPLACEMENT] + d1.1) + d2.1 == [REPLACEMENT] + (d1.1 + d2.1);
    }
  }

  /** The first byte of `b` continues a character that `a` leaves unfinished. */
  predicate Interrupts(a: seq<byte>, b: seq<byte>) {
    var d := Decode(Ground, a).0;
    d.Pending? && b != [] && d.lower <= b[0] <= d.upper
  }

  lemma CleanCutInterruptsNothing(a: seq<byte>, b: seq<byte>)
    requires CleanCut(a, b)
    ensures !Interrupts(a, b)
  {
    PendingIsPartialTail(a);
  }

  /** Text is compositional at cuts that interrupt no character, ill-formed bytes included. */
  lemma TextSplits(a: seq<byte>, b: seq<byte>)
    requires !Interrupts(a, b)
    ensures Text(a + b) == Text(a) + Text(b)
  {
    DecodeConcat(Ground, a, b);
    var (d, out) := Decode(Ground, a);
    var (e, out') := Decode(Ground, b);
    if d.Pending? && b != [] {
      DecodeFirst(d, b);
      assert (out + ([REPLACEMENT] + out')) + Flush(e) == (out + [REPLACEMENT]) + (out' + Flush(e));
    } else if d.Pending? {
      assert a + b == a;
    } else {
      assert (out + out') + Flush(e) == (out + []) + (out' + Flush(e));
    }
  }

  /** The number of code points from a decoder's state on. */
  function Points(d: Decoder, s: seq<byte>): nat {
    |Decode(d, s).1| + |Flush(Decode(d, s).0)|
  }

  lemma PointsFirst(d: Decoder, s: seq<byte>)
    requires s != []
    ensures Points(d, s) == |DecodeByte(d, s[0]).1| + Points(DecodeByte(d, s[0]).0, s[1..])
  {
    DecodeConcat(d, s[..1], s[1..]);
    assert s[..1] + s[1..] == s && s[..1][..0] == [];
  }

  /** An unfinished character costs at most one code point, and none if it is continued: every byte that continues it
      would cost one by itself. */
  lemma {:induction false} PointsPending(d: Decoder, s: seq<byte>)
    requires d.Pending? && 0x80 <= d.lower && d.upper <= 0xBF
    ensures Points(d, s) <= 1 + Points(Ground, s)
    ensures s != [] && d.lower <= s[0] <= d.upper ==> Points(d, s) <= Points(Ground, s)
    decreases |s|
  {
    if s != [] {
      PointsFirst(d, s);
      PointsFirst(Ground, s);
      var next := DecodeByte(d, s[0]).0;
      if d.lower <= s[0] <= d.upper && next.Pending? {
        PointsPending(next, s[1..]);
      }
    }
  }

  /** At every other cut the text of the parts is longer than that of the whole. */
  lemma TextBreaks(a: seq<byte>, b: seq<byte>)
    requires Interrupts(a, b)
    ensures |Text(a + b)| < |Text(a)| + |Text(b)|
  {
    DecodeConcat(Ground, a, b);
    PendingIsPartialTail(a);
    PointsPending(Decode(Ground, a).0, b);
  }

  /** The parts of a stream decode to its text exactly if the cut interrupts no character. */
  lemma TextSplitsExactly(a: seq<byte>, b: seq<byte>)
    ensures Text(a + b) == Text(a) + Text(b) <==> !Interrupts(a, b)
  {
    if Interrupts(a, b) {
      TextBreaks(a, b);
    } else {
      TextSplits(a, b);
    }
  }

  /** After a clean cut the decoder's state depends only on what follows the cut. */
  lemma StateAfterCleanCut(a: seq<byte>, b: seq<byte>)
    requires CleanCut(a, b) && b != []
    ensures Decode(Ground, a + b).0 == Decode(Ground, b).0
  {
    DecodeConcat(Ground, a, b);
    if Decode(Ground, a).0.Pending? {
      PendingIsPartialTail(a);
      DecodeFirst(Decode(Ground, a).0, b);
    }
  }

  // ---------------------------------------------------------------- the decoder inverts the encoding

  /** The scalar values of section 3 of RFC 3629. */
  type Scalar = n: int | 0 <= n <= 0x10FFFF && !(0xD800 <= n <= 0xDFFF)

  /** The table of section 3 of RFC 3629. */
  function EncodedScalar(n: Scalar): (r: seq<byte>) {
    if n <= 0x7F then [n]
    else if n <= 0x7FF then [0xC0 + n / 64, 0x80 + n % 64]
    else if n <= 0xFFFF then [0xE0 + n / 4096, 0x80 + n / 64 % 64, 0x80 + n % 64]
    else [0xF0 + n / 262144, 0x80 + n / 4096 % 64, 0x80 + n / 64 % 64, 0x80 + n % 64]
  }

  function Codes(scalars: seq<Scalar>): (r: seq<seq<byte>>) {
    seq(|scalars|, i requires 0 <= i < |scalars| => EncodedScalar(scalars[i]))
  }

  function Encoded(scalars: seq<Scalar>): (r: seq<byte>) {
    Concat(Codes(scalars))
  }

  lemma DecodeOne(d: Decoder, b: byte)
    ensures Decode(d, [b]) == DecodeByte(d, b)
  {
    assert [b][..0] == [];
    assert [] + DecodeByte(d, b).1 == DecodeByte(d, b).1;
  }

  lemma DecodeNext(d: Decoder, a: seq<byte>, b: byte, e: Decoder, f: Decoder, out: seq<int>)
    requires Decode(d, a) == (e, []) && DecodeByte(e, b) == (f, out)
    ensures Decode(d, a + [b]) == (f, out)
  {
    DecodeConcat(d, a, [b]);
    DecodeOne(e, b);
    assert [] + out == out;
  }

  lemma TwoBytes(n: Scalar)
    requires 0x7F < n <= 0x7FF
    ensures Decode(Ground, EncodedScalar(n)) == (Ground, [n])
  {
    var a, b := 0xC0 + n / 64, 0x80 + n % 64;
    DecodeOne(Ground, a);
    DecodeNext(Ground, [a], b, Pending(1, 0x80, 0xBF, n / 64), Ground, [n]);
    assert [a] + [b] == [a, b];
  }

  lemma ThreeBytes(n: Scalar)
    requires 0x7FF < n <= 0xFFFF
    ensures Decode(Ground, EncodedScalar(n)) == (Ground, [n])
  {
    var a, b, c := 0xE0 + n / 4096, 0x80 + n / 64 % 64, 0x80 + n % 64;
    var first := DecodeByte(Ground, a).0;
    DecodeOne(Ground, a);
    assert first.lower <= b <= first.upper && n / 64 == n / 4096 * 64 + n / 64 % 64;
    DecodeNext(Ground, [a], b, first, Pending(1, 0x80, 0xBF, n / 64), []);
    DecodeNext(Ground, [a] + [b], c, Pending(1, 0x80, 0xBF, n / 64), Ground, [n]);
    assert [a] + [b] + [c] == [a, b, c];
  }

  lemma FourBytesFit(n: Scalar, high: int, next: int)
    requires 0xFFFF < n && high == n / 262144 && next == n / 4096 % 64
    ensures n / 4096 == high * 64 + next && 0 <= high <= 4 && 0 <= next < 64
    ensures (high == 0 ==> 0x10 <= next) && (high == 4 ==> next <= 0x0F)
  {
    assert n / 4096 / 64 == n / 262144;
  }

  lemma FourBytes(n: Scalar)
    requires 0xFFFF < n
    ensures Decode(Ground, EncodedScalar(n)) == (Ground, [n])
  {
    var a, b, c, d := 0xF0 + n / 262144, 0x80 + n / 4096 % 64, 0x80 + n / 64 % 64, 0x80 + n % 64;
    var first := FromGround(a).0;
    DecodeOne(Ground, a);
    FourBytesFit(n, n / 262144, n / 4096 % 64);
    assert n / 64 == n / 4096 * 64 + n / 64 % 64;
    DecodeNext(Ground, [a], b, first, Pending(2, 0x80, 0xBF, n / 4096), []);
    DecodeNext(Ground, [a] + [b], c, Pending(2, 0x80, 0xBF, n / 4096), Pending(1, 0x80, 0xBF, n / 64), []);
    DecodeNext(Ground, [a] + [b] + [c], d, Pending(1, 0x80, 0xBF, n / 64), Ground, [n]);
    assert [a] + [b] + [c] + [d] == [a, b, c, d];
  }

  lemma ScalarComesBack(n: Scalar)
    ensures Decode(Ground, EncodedScalar(n)) == (Ground, [n])
  {
    if n <= 0x7F {
      DecodeOne(Ground, n);
    } else if n <= 0x7FF {
      TwoBytes(n);
    } else if n <= 0xFFFF {
      ThreeBytes(n);
    } else {
      FourBytes(n);
    }
  }

  predicate Decodes(bytes: seq<byte>, out: seq<int>) {
    Decode(Ground, bytes) == (Ground, out)
  }

  lemma DecodesMore(a: seq<byte>, out: seq<int>, b: seq<byte>, last: seq<int>)
    requires Decodes(a, out) && Decodes(b, last)
    ensures Decodes(a + b, out + last)
  {
    DecodeConcat(Ground, a, b);
  }

  lemma {:induction false} CodesDecode(codes: seq<seq<byte>>, values: seq<int>)
    requires |codes| == |values| && forall i :: 0 <= i < |codes| ==> Decodes(codes[i], [values[i]])
    ensures Decodes(Concat(codes), values)
  {
    if codes != [] {
      var n := |codes| - 1;
      CodesDecode(codes[..n], values[..n]);
      DecodesMore(Concat(codes[..n]), values[..n], codes[n], [values[n]]);
      assert values[..n] + [values[n]] == values;
    }
  }

  /** The text of the UTF-8 encoding of any scalar values is those values. */
  lemma TextOfEncoded(scalars: seq<Scalar>)
    ensures Text(Encoded(scalars)) == scalars
  {
    var codes := Codes(scalars);
    forall i | 0 <= i < |codes| ensures Decodes(codes[i], [scalars[i]]) {
      ScalarComesBack(scalars[i]);
    }
    CodesDecode(codes, scalars);
    TextOfDecoded(Concat(codes), scalars);
  }

  lemma TextOfDecoded(bytes: seq<byte>, out: seq<int>)
    requires Decodes(bytes, out)
    ensures Text(bytes) == out
  {
    assert out + [] == out;
  }
}
