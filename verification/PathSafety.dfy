/** Remote path normalization (src/core/transfer-paths.ts) against the texts themselves: which values are accepted, how
    they are split, and that an accepted path names nothing outside the root that contains it. */
module PathSafety {
  import opened RemotePaths
  import opened Seqs
  import Utf8

  // ---------------------------------------------------------------- pieces of a text

  /** A longest stretch of the text without a separator. */
  predicate PieceAt(platform: Platform, s: string, i: int, j: int) {
    && 0 <= i <= j <= |s| && (i > 0 ==> IsSeparator(platform, s[i - 1])) && (j < |s| ==> IsSeparator(platform, s[j]))
    && Plain(platform, s[i..j])
  }

  ghost predicate IsPiece(platform: Platform, s: string, x: string) {
    exists i, j :: PieceAt(platform, s, i, j) && s[i..j] == x
  }

  lemma PieceOfPlain(platform: Platform, s: string, x: string)
    requires Plain(platform, s)
    ensures IsPiece(platform, s, x) <==> x == s
  {
    assert s[0..|s|] == s;
    assert PieceAt(platform, s, 0, |s|);
    forall i, j | PieceAt(platform, s, i, j) ensures s[i..j] == s {
    }
  }

  /** Pieces on either side of a separator. */
  lemma PieceAround(platform: Platform, a: string, c: char, b: string, x: string)
    requires Plain(platform, a) && IsSeparator(platform, c)
    ensures IsPiece(platform, a + [c] + b, x) <==> x == a || IsPiece(platform, b, x)
  {
    var s, n := a + [c] + b, |a| + 1;
    assert s[0..|a|] == a && s[|a|] == c && s[n..] == b;
    assert PieceAt(platform, s, 0, |a|);
    forall i, j | PieceAt(platform, s, i, j) ensures s[i..j] == a || IsPiece(platform, b, s[i..j]) {
      if i < n {
        PieceBefore(platform, a, c, b, i, j);
      } else {
        PieceBehind(platform, s, n, b, i, j);
      }
    }
    forall i, j | PieceAt(platform, b, i, j) ensures IsPiece(platform, s, b[i..j]) {
      assert s[n + i..n + j] == b[i..j];
      assert PieceAt(platform, s, n + i, n + j);
    }
  }

  lemma PieceBefore(platform: Platform, a: string, c: char, b: string, i: int, j: int)
    requires Plain(platform, a) && IsSeparator(platform, c) && PieceAt(platform, a + [c] + b, i, j) && i <= |a|
    ensures i == 0 && j == |a|
  {
    var s := a + [c] + b;
    assert s[|a|] == c && forall k :: 0 <= k < |a| ==> s[k] == a[k];
    assert forall k :: i <= k < j ==> s[k] == s[i..j][k - i];
  }

  lemma PieceBehind(platform: Platform, s: string, n: nat, b: string, i: int, j: int)
    requires n <= |s| && s[n..] == b && PieceAt(platform, s, i, j) && n <= i
    ensures IsPiece(platform, b, s[i..j])
  {
    assert b[i - n..j - n] == s[i..j];
    assert PieceAt(platform, b, i - n, j - n);
  }

  /** The segments are the pieces that are not empty. */
  lemma {:induction false} SegmentsArePieces(platform: Platform, current: string, s: string, x: string)
    requires Plain(platform, current)
    ensures x in SegmentsFrom(platform, current, s) <==> x != "" && IsPiece(platform, current + s, x)
    decreases |s|
  {
    if s == "" {
      assert current + s == current;
      PieceOfPlain(platform, current, x);
    } else if IsSeparator(platform, s[0]) {
      assert current + s == current + [s[0]] + s[1..];
      PieceAround(platform, current, s[0], s[1..], x);
      SegmentsArePieces(platform, "", s[1..], x);
      assert "" + s[1..] == s[1..];
    } else {
      assert current + s == current + [s[0]] + s[1..];
      SegmentsArePieces(platform, current + [s[0]], s[1..], x);
    }
  }

  lemma SegmentIsPiece(platform: Platform, s: string, x: string)
    ensures x in Segments(platform, s) <==> x != "" && IsPiece(platform, s, x)
  {
    SegmentsArePieces(platform, "", s, x);
    assert "" + s == s;
  }

  // ---------------------------------------------------------------- splitting

  predicate AllSeparators(platform: Platform, s: string) {
    forall i :: 0 <= i < |s| ==> IsSeparator(platform, s[i])
  }

  /** The text is separators, the first segment, and the others behind a separator. */
  ghost predicate SplitAt(platform: Platform, s: string, segments: seq<string>, i: int, j: int)
    requires segments != []
    decreases |s|, 0
  {
    && 0 <= i < j <= |s| && AllSeparators(platform, s[..i])
    && s[i..j] == segments[0] && Plain(platform, segments[0]) && (j < |s| ==> IsSeparator(platform, s[j]))
    && IsSplit(platform, s[j..], segments[1..])
  }

  /** Runs of separators between, before and behind the segments. */
  ghost predicate IsSplit(platform: Platform, s: string, segments: seq<string>)
    decreases |s|, 1
  {
    if segments == [] then AllSeparators(platform, s) else exists i, j :: SplitAt(platform, s, segments, i, j)
  }

  lemma SplitChars(platform: Platform, s: string, segments: seq<string>, i: int, j: int)
    requires segments != [] && SplitAt(platform, s, segments, i, j)
    ensures forall k :: 0 <= k < i ==> IsSeparator(platform, s[k])
    ensures forall k :: i <= k < j ==> !IsSeparator(platform, s[k])
  {
    forall k | 0 <= k < i ensures IsSeparator(platform, s[k]) {
      assert s[..i][k] == s[k];
    }
    forall k | i <= k < j ensures !IsSeparator(platform, s[k]) {
      assert s[i..j][k - i] == s[k];
    }
  }

  lemma SplitStarts(platform: Platform, s: string, segments: seq<string>, i: int, j: int)
    requires segments != [] && SplitAt(platform, s, segments, i, j)
    ensures !AllSeparators(platform, s)
  {
    assert s[i] == s[i..j][0];
  }

  lemma SplitPlace(platform: Platform, s: string, a: seq<string>, b: seq<string>, i: int, j: int, i': int, j': int)
    requires a != [] && b != [] && SplitAt(platform, s, a, i, j) && SplitAt(platform, s, b, i', j')
    ensures i == i' && j == j'
  {
    SplitChars(platform, s, a, i, j);
    SplitChars(platform, s, b, i', j');
    assert !IsSeparator(platform, s[i]) && !IsSeparator(platform, s[i']);
    assert j < |s| ==> IsSeparator(platform, s[j]);
    assert j' < |s| ==> IsSeparator(platform, s[j']);
  }

  /** A text is split in one way only. */
  lemma {:induction false} SplitIsUnique(platform: Platform, s: string, a: seq<string>, b: seq<string>)
    requires IsSplit(platform, s, a) && IsSplit(platform, s, b)
    ensures a == b
    decreases |s|
  {
    if a != [] && b != [] {
      var i, j :| SplitAt(platform, s, a, i, j);
      var i', j' :| SplitAt(platform, s, b, i', j');
      SplitPlace(platform, s, a, b, i, j, i', j');
      SplitIsUnique(platform, s[j..], a[1..], b[1..]);
      assert a == [a[0]] + a[1..] && b == [b[0]] + b[1..];
    } else if a != [] {
      var i, j :| SplitAt(platform, s, a, i, j);
      SplitStarts(platform, s, a, i, j);
    } else if b != [] {
      var i, j :| SplitAt(platform, s, b, i, j);
      SplitStarts(platform, s, b, i, j);
    }
  }

  /** A separator more in front changes nothing. */
  lemma SplitBehind(platform: Platform, c: char, s: string, segments: seq<string>)
    requires IsSeparator(platform, c) && IsSplit(platform, s, segments)
    ensures IsSplit(platform, [c] + s, segments)
  {
    var all := [c] + s;
    if segments != [] {
      var i, j :| SplitAt(platform, s, segments, i, j);
      assert all[..i + 1] == [c] + s[..i] && all[i + 1..j + 1] == s[i..j] && all[j + 1..] == s[j..];
      assert SplitAt(platform, all, segments, i + 1, j + 1);
    }
  }

  /** A segment at the start. */
  lemma SplitFirst(platform: Platform, current: string, rest: string, segments: seq<string>)
    requires current != "" && Plain(platform, current) && (rest != "" ==> IsSeparator(platform, rest[0]))
    requires IsSplit(platform, rest, segments)
    ensures IsSplit(platform, current + rest, [current] + segments)
  {
    var s, all := current + rest, [current] + segments;
    assert s[..0] == "" && s[0..|current|] == current && s[|current|..] == rest && all[1..] == segments;
    assert SplitAt(platform, s, all, 0, |current|);
  }

  lemma {:induction false} SegmentsSplitFrom(platform: Platform, current: string, s: string)
    requires Plain(platform, current)
    ensures IsSplit(platform, current + s, SegmentsFrom(platform, current, s))
    decreases |s|
  {
    if s == "" {
      assert current + s == current + "" && [current] + [] == [current];
      if current == "" {
        assert AllSeparators(platform, current + s);
      } else {
        SplitFirst(platform, current, "", []);
      }
    } else if IsSeparator(platform, s[0]) {
      var rest := SegmentsFrom(platform, "", s[1..]);
      SegmentsSplitFrom(platform, "", s[1..]);
      assert "" + s[1..] == s[1..] && [s[0]] + s[1..] == s;
      SplitBehind(platform, s[0], s[1..], rest);
      if current == "" {
        assert current + s == s && [] + rest == rest;
      } else {
        SplitFirst(platform, current, s, rest);
      }
    } else {
      assert current + s == current + [s[0]] + s[1..];
      SegmentsSplitFrom(platform, current + [s[0]], s[1..]);
    }
  }

  lemma SegmentsSplit(platform: Platform, s: string)
    ensures IsSplit(platform, s, Segments(platform, s))
  {
    SegmentsSplitFrom(platform, "", s);
    assert "" + s == s;
  }

  // ---------------------------------------------------------------- what is accepted

  const DEVICES: set<string> := {
    "CON", "PRN", "AUX", "NUL",
    "COM1", "COM2", "COM3", "COM4", "COM5", "COM6", "COM7", "COM8", "COM9",
    "LPT1", "LPT2", "LPT3", "LPT4", "LPT5", "LPT6", "LPT7", "LPT8", "LPT9"
  }

  /** The same letter, in upper or lower case. */
  predicate SameLetter(c: char, upper: char) {
    c == upper || ('A' <= upper <= 'Z' && c as int == upper as int + 32)
  }

  /** The name begins with the name of a device, up to its end or a dot. */
  predicate Names(x: string, device: string) {
    && |device| <= |x| && (forall k :: 0 <= k < |device| ==> SameLetter(x[k], device[k]))
    && (|device| < |x| ==> x[|device|] == '.')
  }

  predicate NamesDevice(x: string) {
    exists device :: device in DEVICES && Names(x, device)
  }

  lemma DeviceNames(name: string)
    ensures IsDevice(name) <==> name in DEVICES
  {
    if |name| == 4 {
      var c := name[3];
      assert name[..3] == [name[0], name[1], name[2]] && name == [name[0], name[1], name[2], c];
      assert '1' <= c <= '9' <==> c in {'1', '2', '3', '4', '5', '6', '7', '8', '9'};
    }
  }

  lemma {:induction false} BaseIs(x: string, n: nat)
    requires n <= |x| && (forall k :: 0 <= k < n ==> x[k] != '.') && (n < |x| ==> x[n] == '.')
    ensures Base(x) == x[..n]
  {
    if n > 0 {
      BaseIs(x[1..], n - 1);
      assert x[..n] == [x[0]] + x[1..][..n - 1];
    }
  }

  lemma {:induction false} BaseLength(x: string) returns (n: nat)
    ensures n <= |x| && (forall k :: 0 <= k < n ==> x[k] != '.') && (n < |x| ==> x[n] == '.')
  {
    n := 0;
    if x != "" && x[0] != '.' {
      var m := BaseLength(x[1..]);
      n := m + 1;
      assert forall k :: 1 <= k < n ==> x[k] == x[1..][k - 1];
    }
  }

  lemma UpperIs(c: char, d: char)
    requires d != '.' && !('a' <= d <= 'z')
    ensures UpperChar(c) == d <==> SameLetter(c, d)
  {
  }

  lemma DeviceIs(x: string, device: string)
    requires device in DEVICES
    ensures Names(x, device) <==> Upper(Base(x)) == device
  {
    assert forall k :: 0 <= k < |device| ==> device[k] != '.' && !('a' <= device[k] <= 'z');
    if Names(x, device) {
      forall k | 0 <= k < |device| ensures x[k] != '.' {
        assert SameLetter(x[k], device[k]);
      }
      BaseIs(x, |device|);
    }
    var n := BaseLength(x);
    BaseIs(x, n);
    if n == |device| {
      forall k | 0 <= k < n ensures Upper(x[..n])[k] == device[k] <==> SameLetter(x[k], device[k]) {
        UpperIs(x[k], device[k]);
      }
    }
  }

  /** A piece of a Windows path that names no file there. */
  predicate BadWindowsName(x: string) {
    || (x != "" && x[|x| - 1] in {'.', ' '})
    || (exists k :: 0 <= k < |x| && x[k] in {'<', '>', ':', '"', '|', '?', '*'})
    || NamesDevice(x)
  }

  lemma WindowsSegment(x: string)
    requires x != ""
    ensures ValidSegment(Windows, x) <==> !BadWindowsName(x)
  {
    var base := Upper(Base(x));
    DeviceNames(base);
    forall device | device in DEVICES ensures Names(x, device) <==> base == device {
      DeviceIs(x, device);
    }
  }

  function Scalars(s: string): (r: seq<Utf8.Scalar>) {
    seq(|s|, i requires 0 <= i < |s| => s[i] as int)
  }

  lemma {:induction false} ConcatFirst(parts: seq<seq<Utf8.byte>>)
    requires parts != []
    ensures |Concat(parts)| == |parts[0]| + |Concat(parts[1..])|
  {
    if |parts| > 1 {
      ConcatFirst(parts[..|parts| - 1]);
      assert parts[1..][..|parts| - 2] == parts[..|parts| - 1][1..];
    } else {
      assert parts[..0] == [] == parts[1..];
    }
  }

  /** The length that is limited is that of the UTF-8 encoding. */
  lemma {:induction false} ByteLengthIs(s: string)
    ensures ByteLength(s) == |Utf8.Encoded(Scalars(s))|
  {
    var codes := Utf8.Codes(Scalars(s));
    if s == "" {
      assert codes == [];
    } else {
      ByteLengthIs(s[1..]);
      ConcatFirst(codes);
      assert codes[1..] == Utf8.Codes(Scalars(s[1..]));
      assert codes[0] == Utf8.EncodedScalar(s[0] as int);
    }
  }

  /** Absolute, of at most 4096 bytes, without control characters, and with no piece that goes up or nowhere. */
  ghost predicate Acceptable(platform: Platform, value: string) {
    && value != "" && ByteLength(value) <= 4096
    && (forall k :: 0 <= k < |value| ==> 0x20 <= value[k] as int && value[k] as int != 0x7F)
    && if platform.Posix? then
         && value[0] == '/' && (|value| >= 2 ==> value[1] != '/')
         && !IsPiece(Posix, value, ".") && !IsPiece(Posix, value, "..")
       else
         && |value| >= 3 && ('a' <= value[0] <= 'z' || 'A' <= value[0] <= 'Z') && value[1] == ':'
         && value[2] in {'/', '\\'}
         && (forall k :: 3 <= k < |value| ==> value[k] as int !in {0x2028, 0x2029})
         && (forall x :: IsPiece(Windows, value[3..], x) ==> !BadWindowsName(x))
  }

  lemma PosixAccepted(value: string)
    requires ValidText(value) && StartsWith(value, "/")
    ensures (forall i :: 0 <= i < |Segments(Posix, value)| ==> ValidSegment(Posix, Segments(Posix, value)[i]))
            <==> !IsPiece(Posix, value, ".") && !IsPiece(Posix, value, "..")
  {
    SegmentIsPiece(Posix, value, ".");
    SegmentIsPiece(Posix, value, "..");
    AllButTwo(Segments(Posix, value));
  }

  lemma AllButTwo(segments: seq<string>)
    ensures (forall i :: 0 <= i < |segments| ==> ValidSegment(Posix, segments[i]))
            <==> "." !in segments && ".." !in segments
  {
    if "." !in segments && ".." !in segments {
      assert forall i :: 0 <= i < |segments| ==> segments[i] in segments;
    } else {
      var i :| 0 <= i < |segments| && segments[i] in {".", ".."};
      assert !ValidSegment(Posix, segments[i]);
    }
  }

  /** A piece is good exactly if it is empty or a valid segment. */
  lemma WindowsPiece(rest: string, x: string)
    requires IsPiece(Windows, rest, x)
    ensures BadWindowsName(x) <==> x in Segments(Windows, rest) && !ValidSegment(Windows, x)
  {
    SegmentIsPiece(Windows, rest, x);
    if x != "" {
      WindowsSegment(x);
    } else {
      assert forall device :: device in DEVICES ==> !Names(x, device);
    }
  }

  lemma WindowsAccepted(rest: string)
    ensures (forall i :: 0 <= i < |Segments(Windows, rest)| ==> ValidSegment(Windows, Segments(Windows, rest)[i]))
            <==> (forall x :: IsPiece(Windows, rest, x) ==> !BadWindowsName(x))
  {
    var segments := Segments(Windows, rest);
    if forall i :: 0 <= i < |segments| ==> ValidSegment(Windows, segments[i]) {
      forall x | IsPiece(Windows, rest, x) ensures !BadWindowsName(x) {
        WindowsPiece(rest, x);
      }
    }
    if forall x :: IsPiece(Windows, rest, x) ==> !BadWindowsName(x) {
      forall i | 0 <= i < |segments| ensures ValidSegment(Windows, segments[i]) {
        SegmentIsPiece(Windows, rest, segments[i]);
        WindowsPiece(rest, segments[i]);
      }
    }
  }

  lemma PosixExactly(value: string)
    ensures Normalize(Posix, value).Ok? <==> Acceptable(Posix, value)
    ensures Acceptable(Posix, value) ==> Normalize(Posix, value) == Ok(Text("", Segments(Posix, value)))
  {
    if ValidText(value) && StartsWith(value, "/") {
      PosixAccepted(value);
    }
  }

  lemma WindowsExactly(value: string)
    ensures Normalize(Windows, value).Ok? <==> Acceptable(Windows, value)
    ensures Acceptable(Windows, value) ==>
              Normalize(Windows, value) == Ok(Text([UpperChar(value[0]), ':'], Segments(Windows, value[3..])))
  {
    if ValidText(value) && |value| >= 3 {
      WindowsAccepted(value[3..]);
    }
  }

  /** What the value is split behind: nothing, or the drive. */
  function Rest(platform: Platform, value: string): string {
    if platform.Posix? || |value| < 3 then value else value[3..]
  }

  /** Exactly the acceptable values are normalized, to the drive and the one list of segments that the value splits
      into. */
  lemma NormalizeExactly(platform: Platform, value: string)
    ensures Normalize(platform, value).Ok? <==> Acceptable(platform, value)
    ensures Acceptable(platform, value) ==>
              exists segments ::
                && IsSplit(platform, Rest(platform, value), segments)
                && Normalize(platform, value) ==
                   Ok(Text(if platform.Posix? then "" else [UpperChar(value[0]), ':'], segments))
  {
    SegmentsSplit(platform, Rest(platform, value));
    if platform.Posix? {
      PosixExactly(value);
    } else {
      WindowsExactly(value);
    }
  }

  // ---------------------------------------------------------------- nothing outside the root

  /** Going from a directory to what a name stands for there. */
  function Enter(place: seq<string>, name: string): (r: seq<string>) {
    if name == "" || name == "." then place
    else if name == ".." then (if place == [] then [] else place[..|place| - 1])
    else place + [name]
  }

  /** Where a path leads, read name by name; a drive is the first name. */
  function LeadsFrom(place: seq<string>, current: string, s: string): (r: seq<string>)
    decreases |s|
  {
    if s == "" then Enter(place, current)
    else if s[0] == '/' then LeadsFrom(Enter(place, current), "", s[1..])
    else LeadsFrom(place, current + [s[0]], s[1..])
  }

  function LeadsTo(path: string): (r: seq<string>) {
    LeadsFrom([], "", path)
  }

  lemma {:induction false} LeadsSkip(place: seq<string>, current: string, a: string, rest: string)
    requires NoSlash(a)
    ensures LeadsFrom(place, current, a + rest) == LeadsFrom(place, current + a, rest)
    decreases |a|
  {
    if a == "" {
      assert a + rest == rest && current + a == current;
    } else {
      LeadsSkip(place, current + [a[0]], a[1..], rest);
      assert (a + rest)[1..] == a[1..] + rest && current + [a[0]] + a[1..] == current + a;
    }
  }

  /** A name that goes down by one. */
  predicate GoesDown(name: string) {
    name != "" && name != "." && name != ".." && NoSlash(name)
  }

  lemma {:induction false} LeadsDown(place: seq<string>, current: string, segments: seq<string>)
    requires forall i :: 0 <= i < |segments| ==> GoesDown(segments[i])
    ensures LeadsFrom(place, current, Slashed(segments)) == Enter(place, current) + segments
    decreases |segments|
  {
    if segments != [] {
      var first, rest := segments[0], Slashed(segments[1..]);
      PlusIsAssociative("/", first, rest);
      assert Slashed(segments)[1..] == first + rest && "" + first == first;
      LeadsSkip(Enter(place, current), "", first, rest);
      LeadsDown(Enter(place, current), first, segments[1..]);
      assert Enter(place, current) + [first] + segments[1..] == Enter(place, current) + segments;
    }
  }

  predicate AllGoDown(segments: seq<string>) {
    forall i :: 0 <= i < |segments| ==> GoesDown(segments[i])
  }

  lemma CanonicalGoesDown(platform: Platform, drive: string, segments: seq<string>)
    requires Canonical(platform, drive, segments)
    ensures AllGoDown(segments) && NoSlash(drive) && IsPath(drive, segments)
    ensures drive != "." && drive != ".."
  {
    forall i | 0 <= i < |segments| ensures GoesDown(segments[i]) {
      assert segments[i] != "" && Plain(platform, segments[i]) && ValidSegment(platform, segments[i]);
    }
  }

  lemma TextLeads(drive: string, segments: seq<string>)
    requires AllGoDown(segments) && NoSlash(drive) && drive != "." && drive != ".."
    ensures LeadsTo(Text(drive, segments)) == Piece(drive) + segments
  {
    var tail := if segments == [] then "/" else Slashed(segments);
    assert Text(drive, segments) == drive + tail && "" + drive == drive;
    LeadsSkip([], "", drive, tail);
    if segments == [] {
      assert tail[1..] == "";
    } else {
      LeadsDown([], drive, segments);
    }
  }

  /** A normalized path leads down from its drive, segment by segment. */
  lemma NormalizedLeads(platform: Platform, drive: string, segments: seq<string>)
    requires Canonical(platform, drive, segments)
    ensures LeadsTo(Text(drive, segments)) == Piece(drive) + segments
    ensures IsPath(drive, segments)
  {
    CanonicalGoesDown(platform, drive, segments);
    TextLeads(drive, segments);
  }

  /** No piece of a normalized path, between slashes, is "." or "..". */
  lemma NormalizedGoesDown(platform: Platform, value: string, i: int, j: int)
    requires Normalize(platform, value).Ok?
    ensures var path := Normalize(platform, value).value;
            PieceAt(Posix, path, i, j) ==> path[i..j] != "." && path[i..j] != ".."
  {
    var path := Normalize(platform, value).value;
    NormalizeIsCanonical(platform, value);
    var d, rs := DriveOf(platform, value), SegmentsOf(platform, value);
    if PieceAt(Posix, path, i, j) && path[i..j] != "" {
      SegmentIsPiece(Posix, path, path[i..j]);
      assert IsPiece(Posix, path, path[i..j]);
      TextSegments(platform, d, rs);
    }
  }

  lemma TextSegments(platform: Platform, d: string, rs: seq<string>)
    requires Canonical(platform, d, rs)
    ensures Segments(Posix, Text(d, rs)) == Piece(d) + rs
  {
    var tail := if rs == [] then "/" else Slashed(rs);
    assert Text(d, rs) == d + tail && "" + d == d;
    assert NoSlash(d) && AllPlain(Posix, rs);
    SegmentsSkip(Posix, "", d, tail);
    if rs == [] {
      assert tail[1..] == "";
    } else {
      SegmentsOfSlashed(Posix, d, rs);
    }
  }

  /** A normalized path that is contained in a normalized root leads to a place at or below that of the root. */
  lemma ContainedLeadsInside(platform: Platform, fold: string -> string, rootValue: string, value: string)
    requires KeepsSlashes(fold)
    requires Normalize(platform, rootValue).Ok? && Normalize(platform, value).Ok?
    ensures var root, path := Normalize(platform, rootValue).value, Normalize(platform, value).value;
            Contained(fold, root, path) <==> IsPrefix(FoldedAll(fold, LeadsTo(root)), FoldedAll(fold, LeadsTo(path)))
  {
    NormalizeIsCanonical(platform, rootValue);
    NormalizeIsCanonical(platform, value);
    var d, rs := DriveOf(platform, rootValue), SegmentsOf(platform, rootValue);
    var e, cs := DriveOf(platform, value), SegmentsOf(platform, value);
    NormalizedLeads(platform, d, rs);
    NormalizedLeads(platform, e, cs);
    ContainedMeaning(fold, d, rs, e, cs);
    UnderLeads(fold, d, rs, e, cs);
  }

  lemma UnderLeads(fold: string -> string, d: string, rs: seq<string>, e: string, cs: seq<string>)
    requires d == "" <==> e == ""
    ensures Under(fold, d, rs, e, cs) <==> IsPrefix(FoldedAll(fold, Piece(d) + rs), FoldedAll(fold, Piece(e) + cs))
  {
    var fr, fc := FoldedAll(fold, rs), FoldedAll(fold, cs);
    if d == "" {
      assert Piece(d) + rs == rs && Piece(e) + cs == cs;
    } else {
      assert FoldedAll(fold, Piece(d) + rs) == [fold(d)] + fr && FoldedAll(fold, Piece(e) + cs) == [fold(e)] + fc;
      assert |fr| <= |fc| ==> ([fold(e)] + fc)[..|fr| + 1] == [fold(e)] + fc[..|fr|];
      assert ([fold(d)] + fr)[0] == fold(d) && ([fold(d)] + fr)[1..] == fr;
      assert |fr| <= |fc| ==> ([fold(e)] + fc[..|fr|])[0] == fold(e) && ([fold(e)] + fc[..|fr|])[1..] == fc[..|fr|];
    }
  }
}
