/** Remote transfer paths: normalization (src/core/transfer-paths.ts), containment, staging paths, joins and the
    generated mkdirs (src/core/transfer-service.ts), against paths as a drive and a list of segments. */
module RemotePaths {
  datatype Platform = Posix | Windows
  datatype Result<T> = Ok(value: T) | Err

  const MAX_BYTES := 4096

  // ---------------------------------------------------------------- text and segments

  function CharBytes(c: char): nat {
    if c as int < 0x80 then 1 else if c as int < 0x800 then 2 else if c as int < 0x10000 then 3 else 4
  }

  function ByteLength(s: string): nat {
    if s == "" then 0 else CharBytes(s[0]) + ByteLength(s[1..])
  }

  lemma {:induction false} ByteLengthPlus(a: string, b: string)
    ensures ByteLength(a + b) == ByteLength(a) + ByteLength(b)
  {
    if a == "" {
      assert a + b == b;
    } else {
      ByteLengthPlus(a[1..], b);
      assert (a + b)[1..] == a[1..] + b;
    }
  }

  predicate IsControl(c: char) {
    c as int < 0x20 || c as int == 0x7f
  }

  predicate ValidText(s: string) {
    s != "" && ByteLength(s) <= MAX_BYTES && Free(s, IsControl)
  }

  predicate IsSeparator(platform: Platform, c: char) {
    c == '/' || (platform.Windows? && c == '\\')
  }

  function Piece(s: string): (r: seq<string>) {
    if s == "" then [] else [s]
  }

  /** Splitting at separators and dropping empty pieces; `current` is the piece being read. */
  function SegmentsFrom(platform: Platform, current: string, s: string): (r: seq<string>)
    decreases |s|
  {
    if s == "" then Piece(current)
    else if IsSeparator(platform, s[0]) then Piece(current) + SegmentsFrom(platform, "", s[1..])
    else SegmentsFrom(platform, current + [s[0]], s[1..])
  }

  function Segments(platform: Platform, s: string): (r: seq<string>) {
    SegmentsFrom(platform, "", s)
  }

  /** Each segment behind a slash. */
  function Slashed(segments: seq<string>): (r: string) {
    if segments == [] then "" else "/" + segments[0] + Slashed(segments[1..])
  }

  predicate Plain(platform: Platform, s: string) {
    forall i :: 0 <= i < |s| ==> !IsSeparator(platform, s[i])
  }

  predicate AllPlain(platform: Platform, segments: seq<string>) {
    forall i :: 0 <= i < |segments| ==> segments[i] != "" && Plain(platform, segments[i])
  }

  lemma {:induction false} SegmentsSkip(platform: Platform, current: string, a: string, rest: string)
    requires Plain(platform, a)
    ensures SegmentsFrom(platform, current, a + rest) == SegmentsFrom(platform, current + a, rest)
    decreases |a|
  {
    if a == "" {
      assert a + rest == rest && current + a == current;
    } else {
      SegmentsSkip(platform, current + [a[0]], a[1..], rest);
      assert (a + rest)[1..] == a[1..] + rest && current + [a[0]] + a[1..] == current + a;
    }
  }

  lemma PlusIsAssociative(a: string, b: string, c: string)
    ensures a + (b + c) == a + b + c
  {
  }

  lemma SegmentsAtSlash(platform: Platform, current: string, rest: string)
    ensures SegmentsFrom(platform, current, "/" + rest) == Piece(current) + SegmentsFrom(platform, "", rest)
  {
    assert ("/" + rest)[1..] == rest;
  }

  /** Splitting undoes joining. */
  lemma {:induction false} SegmentsOfSlashed(platform: Platform, current: string, segments: seq<string>)
    requires AllPlain(platform, segments)
    ensures SegmentsFrom(platform, current, Slashed(segments)) == Piece(current) + segments
    decreases |segments|
  {
    if segments != [] {
      var first, rest := segments[0], Slashed(segments[1..]);
      PlusIsAssociative("/", first, rest);
      SegmentsAtSlash(platform, current, first + rest);
      SegmentsSkip(platform, "", first, rest);
      assert "" + first == first;
      SegmentsOfSlashed(platform, first, segments[1..]);
      assert Piece(first) + segments[1..] == segments;
    }
  }

  lemma {:induction false} SegmentsArePlain(platform: Platform, current: string, s: string)
    requires Plain(platform, current)
    ensures AllPlain(platform, SegmentsFrom(platform, current, s))
    decreases |s|
  {
    if s != "" {
      if IsSeparator(platform, s[0]) {
        SegmentsArePlain(platform, "", s[1..]);
      } else {
        SegmentsArePlain(platform, current + [s[0]], s[1..]);
      }
    }
  }

  lemma {:induction false} SlashedPlus(a: seq<string>, b: seq<string>)
    ensures Slashed(a + b) == Slashed(a) + Slashed(b)
  {
    if a == [] {
      assert a + b == b;
    } else {
      SlashedPlus(a[1..], b);
      assert (a + b)[1..] == a[1..] + b;
      PlusIsAssociative("/" + a[0], Slashed(a[1..]), Slashed(b));
    }
  }

  /** No character of `s` is bad. */
  predicate Free(s: string, bad: char -> bool) {
    forall i :: 0 <= i < |s| ==> !bad(s[i])
  }

  lemma SlashedPiece(current: string)
    ensures Slashed(Piece(current)) == if current == "" then "" else "/" + current
  {
    if current != "" {
      assert Piece(current)[1..] == [];
    }
  }

  /** Splitting and joining again adds at most the first slash, and no other character. */
  lemma {:induction false} Rejoined(platform: Platform, current: string, s: string, bad: char -> bool)
    requires !bad('/')
    ensures ByteLength(Slashed(SegmentsFrom(platform, current, s))) <= 1 + ByteLength(current) + ByteLength(s)
    ensures Free(current, bad) && Free(s, bad) ==> Free(Slashed(SegmentsFrom(platform, current, s)), bad)
    decreases |s|
  {
    SlashedPiece(current);
    ByteLengthPlus("/", current);
    if s != "" {
      if IsSeparator(platform, s[0]) {
        var rest := SegmentsFrom(platform, "", s[1..]);
        Rejoined(platform, "", s[1..], bad);
        SlashedPlus(Piece(current), rest);
        ByteLengthPlus(Slashed(Piece(current)), Slashed(rest));
      } else {
        Rejoined(platform, current + [s[0]], s[1..], bad);
        ByteLengthPlus(current, [s[0]]);
        assert s == [s[0]] + s[1..];
        ByteLengthPlus([s[0]], s[1..]);
      }
    }
  }

  // ---------------------------------------------------------------- normalization

  predicate StartsWith(s: string, prefix: string) {
    |prefix| <= |s| && s[..|prefix|] == prefix
  }

  function UpperChar(c: char): char {
    if 'a' <= c <= 'z' then (c as int - 32) as char else c
  }

  function Upper(s: string): string {
    seq(|s|, i requires 0 <= i < |s| => UpperChar(s[i]))
  }

  /** The part of a segment before its first dot. */
  function Base(s: string): string {
    if s == "" || s[0] == '.' then "" else [s[0]] + Base(s[1..])
  }

  predicate IsDevice(name: string) {
    name in {"CON", "PRN", "AUX", "NUL"} || (|name| == 4 && name[..3] in {"COM", "LPT"} && '1' <= name[3] <= '9')
  }

  predicate ValidSegment(platform: Platform, s: string) {
    && s != "." && s != ".."
    && (platform.Windows? ==>
          && s != "" && s[|s| - 1] != '.' && s[|s| - 1] != ' '
          && (forall i :: 0 <= i < |s| ==> s[i] !in {'<', '>', ':', '"', '|', '?', '*'})
          && !IsDevice(Upper(Base(s))))
  }

  predicate IsLetter(c: char) {
    'a' <= c <= 'z' || 'A' <= c <= 'Z'
  }

  predicate IsLineBreak(c: char) {
    c as int == 0x2028 || c as int == 0x2029
  }

  /** A path is a drive ("" on POSIX) and segments. */
  function Stem(drive: string, segments: seq<string>): string {
    drive + Slashed(segments)
  }

  function Text(drive: string, segments: seq<string>): string {
    if segments == [] then drive + "/" else Stem(drive, segments)
  }

  predicate IsDrive(platform: Platform, drive: string) {
    if platform.Posix? then drive == "" else |drive| == 2 && 'A' <= drive[0] <= 'Z' && drive[1] == ':'
  }

  function Checked(platform: Platform, drive: string, segments: seq<string>): (r: Result<string>) {
    if forall i :: 0 <= i < |segments| ==> ValidSegment(platform, segments[i]) then Ok(Text(drive, segments)) else Err
  }

  function Normalize(platform: Platform, value: string): (r: Result<string>) {
    if !ValidText(value) then Err
    else if platform.Windows? then NormalizeWindows(value)
    else if !StartsWith(value, "/") || StartsWith(value, "//") then Err
    else Checked(Posix, "", Segments(Posix, value))
  }

  function NormalizeWindows(value: string): (r: Result<string>) {
    if StartsWith(value, "\\\\") || StartsWith(value, "//") then Err
    else if |value| < 3 || !IsLetter(value[0]) || value[1] != ':' || !IsSeparator(Windows, value[2]) then Err
    else if !Free(value[3..], IsLineBreak) then Err
    else Checked(Windows, [UpperChar(value[0]), ':'], Segments(Windows, value[3..]))
  }

  /** What normalization produces: a drive and valid, separator-free segments within the length limit. */
  ghost predicate Canonical(platform: Platform, drive: string, segments: seq<string>) {
    && IsDrive(platform, drive) && AllPlain(platform, segments) && ValidText(Text(drive, segments))
    && (forall i :: 0 <= i < |segments| ==> ValidSegment(platform, segments[i]))
    && (platform.Windows? ==> Free(Text(drive, segments), IsLineBreak))
  }

  function DriveOf(platform: Platform, value: string): string {
    if platform.Windows? && |value| > 0 then [UpperChar(value[0]), ':'] else ""
  }

  function SegmentsOf(platform: Platform, value: string): seq<string> {
    if platform.Windows? then (if |value| < 3 then [] else Segments(Windows, value[3..])) else Segments(Posix, value)
  }

  lemma PosixCanonical(value: string)
    requires Normalize(Posix, value).Ok?
    ensures Canonical(Posix, "", Segments(Posix, value))
  {
    var rest := value[1..];
    assert value == "/" + rest;
    assert Segments(Posix, value) == Segments(Posix, rest) by {
      assert Piece("") + SegmentsFrom(Posix, "", rest) == SegmentsFrom(Posix, "", rest);
    }
    SegmentsArePlain(Posix, "", rest);
    Rejoined(Posix, "", rest, IsControl);
    ByteLengthPlus("/", rest);
    assert "" + Slashed(Segments(Posix, rest)) == Slashed(Segments(Posix, rest));
  }

  lemma TextFree(drive: string, segments: seq<string>, bad: char -> bool)
    requires !bad('/') && Free(drive, bad) && Free(Slashed(segments), bad)
    ensures Free(Text(drive, segments), bad)
  {
  }

  lemma TextLength(drive: string, segments: seq<string>)
    ensures ByteLength(Text(drive, segments)) ==
            ByteLength(drive) + (if segments == [] then 1 else ByteLength(Slashed(segments)))
  {
    ByteLengthPlus(drive, if segments == [] then "/" else Slashed(segments));
  }

  lemma {:induction false} AsciiLength(s: string)
    requires forall i :: 0 <= i < |s| ==> s[i] as int < 0x80
    ensures ByteLength(s) == |s|
  {
    if s != "" {
      AsciiLength(s[1..]);
    }
  }

  lemma WindowsCanonical(value: string)
    requires Normalize(Windows, value).Ok?
    ensures Canonical(Windows, DriveOf(Windows, value), Segments(Windows, value[3..]))
  {
    var drive, rest := DriveOf(Windows, value), value[3..];
    var segments := Segments(Windows, rest);
    SegmentsArePlain(Windows, "", rest);
    Rejoined(Windows, "", rest, IsControl);
    Rejoined(Windows, "", rest, IsLineBreak);
    assert value == value[..3] + rest;
    ByteLengthPlus(value[..3], rest);
    AsciiLength(value[..3]);
    AsciiLength(drive);
    TextLength(drive, segments);
    TextFree(drive, segments, IsControl);
    TextFree(drive, segments, IsLineBreak);
  }

  /** Canonical paths are left as they are. */
  lemma CanonicalIsFixed(platform: Platform, drive: string, segments: seq<string>)
    requires Canonical(platform, drive, segments)
    ensures Normalize(platform, Text(drive, segments)) == Ok(Text(drive, segments))
    ensures SegmentsOf(platform, Text(drive, segments)) == segments && DriveOf(platform, Text(drive, segments)) == drive
  {
    var value := Text(drive, segments);
    if platform.Posix? {
      PosixFixed(segments);
    } else {
      WindowsFixed(drive, segments);
      assert [UpperChar(value[0]), ':'] == drive;
      assert !StartsWith(value, "\\\\") && !StartsWith(value, "//") by {
        assert value[..2] == drive;
      }
      assert Free(value[3..], IsLineBreak);
    }
  }

  lemma PosixFixed(segments: seq<string>)
    requires Canonical(Posix, "", segments)
    ensures Segments(Posix, Text("", segments)) == segments
    ensures !StartsWith(Text("", segments), "//") && StartsWith(Text("", segments), "/")
  {
    SegmentsOfSlashed(Posix, "", segments);
    assert Piece("") + segments == segments;
    if segments != [] {
      assert Text("", segments) == Slashed(segments);
      assert Slashed(segments)[1] == segments[0][0];
    } else {
      assert Text("", segments) == "/";
    }
  }

  lemma WindowsFixed(drive: string, segments: seq<string>)
    requires Canonical(Windows, drive, segments)
    ensures var value := Text(drive, segments);
            |value| >= 3 && value[0] == drive[0] && value[1] == ':' && value[2] == '/'
              && Segments(Windows, value[3..]) == segments
  {
    var value := Text(drive, segments);
    SegmentsOfSlashed(Windows, "", segments);
    assert Piece("") + segments == segments;
    if segments != [] {
      assert value[2..] == Slashed(segments);
      assert Slashed(segments)[1..] == value[3..];
      assert Piece("") + SegmentsFrom(Windows, "", value[3..]) == SegmentsFrom(Windows, "", value[3..]);
    } else {
      assert value[3..] == "";
    }
  }

  /** Normalization yields canonical paths, exactly the canonical paths are left alone, and it is idempotent. */
  lemma NormalizeIsCanonical(platform: Platform, value: string)
    ensures var r := Normalize(platform, value);
            r.Ok? ==>
              && Canonical(platform, DriveOf(platform, value), SegmentsOf(platform, value))
              && r.value == Text(DriveOf(platform, value), SegmentsOf(platform, value))
              && Normalize(platform, r.value) == r
    ensures Normalize(platform, value) == Ok(value) <==>
            exists drive, segments :: Canonical(platform, drive, segments) && value == Text(drive, segments)
  {
    if Normalize(platform, value).Ok? {
      if platform.Posix? {
        PosixCanonical(value);
      } else {
        WindowsCanonical(value);
      }
      CanonicalIsFixed(platform, DriveOf(platform, value), SegmentsOf(platform, value));
    }
    forall drive, segments | Canonical(platform, drive, segments) && value == Text(drive, segments)
      ensures Normalize(platform, value) == Ok(value) {
      CanonicalIsFixed(platform, drive, segments);
    }
  }

  // ---------------------------------------------------------------- containment

  function Folded(fold: string -> string, s: string): (r: string) {
    fold(s)
  }

  function FoldedAll(fold: string -> string, segments: seq<string>): (r: seq<string>) {
    seq(|segments|, i requires 0 <= i < |segments| => Folded(fold, segments[i]))
  }

  function Separated(a: string, b: string): string {
    a + "/" + b
  }

  /** What is used of case folding, which may change lengths and may depend on neighbouring characters: it works on each
      side of a slash by itself, makes no slashes, drops nothing, and its lengths add up. */
  ghost predicate KeepsSlashes(fold: string -> string) {
    && (forall a, b {:trigger Separated(a, b)} :: fold(Separated(a, b)) == Separated(fold(a), fold(b)))
    && (forall a {:trigger fold(a)} :: (NoSlash(a) ==> NoSlash(fold(a))) && (fold(a) == "" <==> a == ""))
    && (forall a, b {:trigger fold(a + b)} :: |fold(a + b)| == |fold(a)| + |fold(b)|)
  }

  function Strip(s: string): (r: string) {
    if s != "" && s[|s| - 1] == '/' then s[..|s| - 1] else s
  }

  /** remotePathIsContained; `fold` is the identity on POSIX and toLowerCase on Windows. */
  predicate Contained(fold: string -> string, root: string, candidate: string) {
    var r, c := Strip(Folded(fold, root)), Folded(fold, candidate);
    c == r || r == "" || StartsWith(c, r + "/")
  }

  predicate NoSlash(s: string) {
    Plain(Posix, s)
  }

  predicate NoSlashes(segments: seq<string>) {
    forall i :: 0 <= i < |segments| ==> NoSlash(segments[i])
  }

  lemma StemFirst(drive: string, segments: seq<string>)
    requires segments != []
    ensures Stem(drive, segments) == Separated(drive, Stem(segments[0], segments[1..]))
  {
    assert drive + ("/" + segments[0] + Slashed(segments[1..])) == drive + "/" + (segments[0] + Slashed(segments[1..]));
  }

  lemma FoldSeparated(fold: string -> string, a: string, b: string)
    requires KeepsSlashes(fold)
    ensures fold(Separated(a, b)) == Separated(fold(a), fold(b))
  {
  }

  lemma FoldedFirst(fold: string -> string, segments: seq<string>)
    requires segments != []
    ensures FoldedAll(fold, segments)[0] == fold(segments[0])
    ensures FoldedAll(fold, segments)[1..] == FoldedAll(fold, segments[1..])
  {
  }

  lemma {:induction false} FoldedStem(fold: string -> string, drive: string, segments: seq<string>)
    requires KeepsSlashes(fold)
    ensures Folded(fold, Stem(drive, segments)) == Stem(Folded(fold, drive), FoldedAll(fold, segments))
    decreases |segments|
  {
    if segments == [] {
      assert Stem(drive, []) == drive && Stem(fold(drive), []) == fold(drive);
      assert FoldedAll(fold, segments) == [];
    } else {
      StemFirst(drive, segments);
      FoldSeparated(fold, drive, Stem(segments[0], segments[1..]));
      FoldedStem(fold, segments[0], segments[1..]);
      FoldedFirst(fold, segments);
      StemFirst(fold(drive), FoldedAll(fold, segments));
    }
  }

  /** The number of characters before the first slash. */
  function UntilSlash(s: string): (r: nat) {
    if s == "" || s[0] == '/' then 0 else 1 + UntilSlash(s[1..])
  }

  lemma {:induction false} UntilSlashPlus(a: string, s: string)
    requires NoSlash(a) && (s == "" || s[0] == '/')
    ensures UntilSlash(a + s) == |a|
    decreases |a|
  {
    if a == "" {
      assert a + s == s;
    } else {
      UntilSlashPlus(a[1..], s);
      assert (a + s)[1..] == a[1..] + s;
    }
  }

  lemma {:induction false} UntilSlashStart(whole: string, start: string)
    requires StartsWith(whole, start) && UntilSlash(start) < |start|
    ensures UntilSlash(whole) == UntilSlash(start)
    decreases |start|
  {
    assert whole[0] == whole[..|start|][0] == start[0];
    if start[0] != '/' {
      assert whole[1..][..|start| - 1] == whole[..|start|][1..] == start[1..];
      UntilSlashStart(whole[1..], start[1..]);
    }
  }

  /** A slash-free start is recognized up to the next slash. */
  lemma Boundary(a: string, s: string, b: string, t: string)
    requires NoSlash(a) && NoSlash(b) && s != "" && s[0] == '/' && (t == "" || t[0] == '/')
    ensures StartsWith(b + t, a + s) <==> a == b && StartsWith(t, s)
  {
    var whole, start := b + t, a + s;
    if StartsWith(whole, start) {
      UntilSlashPlus(a, s);
      UntilSlashPlus(b, t);
      UntilSlashStart(whole, start);
      assert a == start[..|a|] == whole[..|start|][..|a|] == whole[..|a|] == b;
      assert s == start[|a|..] == whole[..|start|][|a|..] == t[..|s|];
    }
    if a == b && StartsWith(t, s) {
      assert whole[..|start|] == b + t[..|s|];
    }
  }

  predicate IsPrefix<T(==)>(a: seq<T>, b: seq<T>) {
    |a| <= |b| && a == b[..|a|]
  }

  lemma SameFirst(c: char, whole: string, start: string)
    ensures StartsWith([c] + whole, [c] + start) <==> StartsWith(whole, start)
  {
    if |start| <= |whole| {
      assert ([c] + whole)[..|start| + 1] == [c] + whole[..|start|];
      assert ([c] + start)[1..] == start && ([c] + whole[..|start|])[1..] == whole[..|start|];
    }
  }

  lemma {:induction false} SlashedPrefix(rs: seq<string>, cs: seq<string>)
    requires NoSlashes(rs) && NoSlashes(cs)
    ensures StartsWith(Slashed(cs), Slashed(rs) + "/") <==> |rs| < |cs| && IsPrefix(rs, cs)
  {
    if rs != [] && cs != [] {
      var s, t := Slashed(rs[1..]) + "/", Slashed(cs[1..]);
      SlashedPrefix(rs[1..], cs[1..]);
      Boundary(rs[0], s, cs[0], t);
      var whole, start := cs[0] + t, rs[0] + s;
      assert Slashed(cs) == "/" + whole && Slashed(rs) + "/" == "/" + start;
      SameFirst('/', whole, start);
      assert rs == [rs[0]] + rs[1..] && cs == [cs[0]] + cs[1..];
      assert |rs| <= |cs| ==> cs[..|rs|] == [cs[0]] + cs[1..][..|rs| - 1];
    }
  }

  /** Equality or a longer path behind a slash: one test with a slash added. */
  lemma EqualOrLonger(c: string, r: string)
    ensures (c == r || StartsWith(c, r + "/")) <==> StartsWith(c + "/", r + "/")
  {
    var more, start := c + "/", r + "/";
    if |c| == |r| {
      assert more[..|start|] == more && more[..|c|] == c && start[..|c|] == r;
    } else if |start| <= |c| {
      assert more[..|start|] == c[..|start|];
    }
  }

  lemma StemPrefix(d: string, rs: seq<string>, e: string, cs: seq<string>)
    requires NoSlash(d) && NoSlash(e) && NoSlashes(rs) && NoSlashes(cs)
    ensures (Stem(e, cs) == Stem(d, rs) || StartsWith(Stem(e, cs), Stem(d, rs) + "/")) <==> d == e && IsPrefix(rs, cs)
  {
    EqualOrLonger(Stem(e, cs), Stem(d, rs));
    var more := cs + [""];
    SlashedPlus(cs, [""]);
    assert Slashed([""]) == "/";
    SlashedPrefix(rs, more);
    Boundary(d, Slashed(rs) + "/", e, Slashed(more));
    PlusIsAssociative(d, Slashed(rs), "/");
    PlusIsAssociative(e, Slashed(cs), "/");
    assert |rs| <= |cs| ==> more[..|rs|] == cs[..|rs|];
  }

  // ---------------------------------------------------------------- what containment means

  /** A drive and segments as they appear in paths. */
  predicate IsPath(drive: string, segments: seq<string>) {
    NoSlash(drive) && AllPlain(Posix, segments)
  }

  lemma FoldedNoSlash(fold: string -> string, drive: string, segments: seq<string>)
    requires KeepsSlashes(fold)
    ensures NoSlash(drive) ==> NoSlash(Folded(fold, drive))
    ensures NoSlashes(segments) ==> NoSlashes(FoldedAll(fold, segments))
  {
    if NoSlashes(segments) {
      forall i | 0 <= i < |segments| ensures NoSlash(FoldedAll(fold, segments)[i]) {
        assert NoSlash(segments[i]);
      }
    }
  }

  lemma {:induction false} SlashedEnds(segments: seq<string>)
    requires AllPlain(Posix, segments) && segments != []
    ensures Slashed(segments) != "" && Slashed(segments)[|Slashed(segments)| - 1] != '/'
  {
    if |segments| > 1 {
      SlashedEnds(segments[1..]);
    }
  }

  lemma StripText(drive: string, segments: seq<string>)
    requires IsPath(drive, segments)
    ensures Strip(Text(drive, segments)) == Stem(drive, segments)
  {
    if segments == [] {
      assert Strip(drive + "/") == drive == Stem(drive, segments);
    } else {
      SlashedEnds(segments);
    }
  }

  lemma FoldedText(fold: string -> string, drive: string, segments: seq<string>)
    requires KeepsSlashes(fold)
    ensures Folded(fold, Text(drive, segments)) == Text(Folded(fold, drive), FoldedAll(fold, segments))
  {
    FoldedStem(fold, drive, segments);
    assert drive + "/" == Separated(drive, "") && fold("") == "";
    assert Separated(fold(drive), "") == fold(drive) + "/";
  }

  lemma FoldedIsPath(fold: string -> string, drive: string, segments: seq<string>)
    requires KeepsSlashes(fold) && IsPath(drive, segments)
    ensures IsPath(Folded(fold, drive), FoldedAll(fold, segments))
  {
    forall i | 0 <= i < |segments| ensures FoldedAll(fold, segments)[i] != "" && NoSlash(FoldedAll(fold, segments)[i]) {
      assert segments[i] != "" && Plain(Posix, segments[i]);
    }
  }

  /** The root's segments, case-folded, begin the candidate's, on the same drive. */
  predicate Under(fold: string -> string, d: string, rs: seq<string>, e: string, cs: seq<string>) {
    (d == "" && rs == []) || (Folded(fold, d) == Folded(fold, e) && IsPrefix(FoldedAll(fold, rs), FoldedAll(fold, cs)))
  }

  /** For any candidate text made of a drive and slash-free pieces. */
  lemma ContainedStem(fold: string -> string, d: string, rs: seq<string>, e: string, cs: seq<string>)
    requires KeepsSlashes(fold) && IsPath(d, rs) && NoSlash(e) && NoSlashes(cs)
    ensures Contained(fold, Text(d, rs), Stem(e, cs)) <==> Under(fold, d, rs, e, cs)
  {
    FoldedText(fold, d, rs);
    FoldedIsPath(fold, d, rs);
    StripText(Folded(fold, d), FoldedAll(fold, rs));
    FoldedStem(fold, e, cs);
    FoldedNoSlash(fold, e, cs);
    StemPrefix(Folded(fold, d), FoldedAll(fold, rs), Folded(fold, e), FoldedAll(fold, cs));
    assert Stem(Folded(fold, d), FoldedAll(fold, rs)) == "" <==> d == "" && rs == [] by {
      assert (fold(d) == "" <==> d == "") && |FoldedAll(fold, rs)| == |rs|;
    }
  }

  /** Containment is being under the root segment by segment. */
  lemma ContainedMeaning(fold: string -> string, d: string, rs: seq<string>, e: string, cs: seq<string>)
    requires KeepsSlashes(fold) && IsPath(d, rs) && IsPath(e, cs)
    ensures Contained(fold, Text(d, rs), Text(e, cs)) <==> Under(fold, d, rs, e, cs)
  {
    if cs == [] {
      ContainedStem(fold, d, rs, e, [""]);
      assert Text(e, cs) == Stem(e, [""]);
      FoldedIsPath(fold, d, rs);
      var fr := FoldedAll(fold, rs);
      assert fold("") == "" && FoldedAll(fold, [""]) == [""] && FoldedAll(fold, cs) == [];
      if fr != [] {
        assert fr[0] != "";
        assert IsPrefix(fr, [""]) ==> [""][..|fr|][0] == fr[0];
      }
    } else {
      assert NoSlashes(cs);
      ContainedStem(fold, d, rs, e, cs);
    }
  }

  // ---------------------------------------------------------------- staging paths and joins

  /** The path with its last segment extended. */
  function Extended(cs: seq<string>, suffix: string): seq<string> {
    if cs == [] then [suffix] else cs[..|cs| - 1] + [cs[|cs| - 1] + suffix]
  }

  lemma {:induction false} ExtendedText(e: string, cs: seq<string>, suffix: string)
    ensures Text(e, cs) + suffix == Stem(e, Extended(cs, suffix))
  {
    if cs != [] {
      var init, last := cs[..|cs| - 1], cs[|cs| - 1];
      assert cs == init + [last];
      SlashedPlus(init, [last]);
      SlashedPlus(init, [last + suffix]);
      assert Slashed([last]) == "/" + last && Slashed([last + suffix]) == "/" + last + suffix;
      assert e + (Slashed(init) + ("/" + last)) + suffix == e + (Slashed(init) + ("/" + last + suffix));
    } else {
      assert Slashed([suffix]) == "/" + suffix;
    }
  }

  /** The staging path of a contained path is contained too, except exactly when the path is the root itself and the
      root is not a filesystem root. */
  lemma StagingPathContained(fold: string -> string, d: string, rs: seq<string>, e: string, cs: seq<string>,
                             suffix: string)
    requires KeepsSlashes(fold) && IsPath(d, rs) && IsPath(e, cs) && NoSlash(suffix) && suffix != ""
    requires Contained(fold, Text(d, rs), Text(e, cs))
    ensures Contained(fold, Text(d, rs), Text(e, cs) + suffix) <==>
            rs == [] || FoldedAll(fold, rs) != FoldedAll(fold, cs)
  {
    ContainedMeaning(fold, d, rs, e, cs);
    ExtendedText(e, cs, suffix);
    assert NoSlashes(Extended(cs, suffix));
    ContainedStem(fold, d, rs, e, Extended(cs, suffix));
    ExtendedUnder(fold, d, rs, e, cs, suffix);
  }

  lemma ExtendedUnder(fold: string -> string, d: string, rs: seq<string>, e: string, cs: seq<string>, suffix: string)
    requires KeepsSlashes(fold) && Under(fold, d, rs, e, cs) && suffix != ""
    ensures Under(fold, d, rs, e, Extended(cs, suffix)) <==> rs == [] || FoldedAll(fold, rs) != FoldedAll(fold, cs)
  {
    var more := Extended(cs, suffix);
    var fr, fc, fm := FoldedAll(fold, rs), FoldedAll(fold, cs), FoldedAll(fold, more);
    assert |fr| == |rs| && |fc| == |cs| && |fm| == |more|;
    if |rs| < |cs| {
      assert fm[..|rs|] == fc[..|rs|];
    } else if rs != [] {
      assert fc == fr && |more| == |cs|;
      var last := |cs| - 1;
      assert fm[last] == fold(cs[last] + suffix) && fc[last] == fold(cs[last]) && fold(suffix) != "";
    }
  }

  function JoinRemotePath(root: string, relative: string): (r: string) {
    Strip(root) + "/" + relative
  }

  /** Segments as a relative path. */
  function Relative(segments: seq<string>): (r: string)
    requires segments != []
  {
    segments[0] + Slashed(segments[1..])
  }

  lemma SlashedRelative(ks: seq<string>)
    requires ks != []
    ensures Slashed(ks) == "/" + Relative(ks)
  {
  }

  lemma JoinedText(e: string, cs: seq<string>, ks: seq<string>)
    requires IsPath(e, cs) && ks != []
    ensures JoinRemotePath(Text(e, cs), Relative(ks)) == Text(e, cs + ks)
  {
    StripText(e, cs);
    SlashedPlus(cs, ks);
    SlashedRelative(ks);
    assert e + Slashed(cs) + "/" + Relative(ks) == e + (Slashed(cs) + ("/" + Relative(ks)));
  }

  lemma UnderLonger(fold: string -> string, d: string, rs: seq<string>, e: string, cs: seq<string>, ks: seq<string>)
    requires Under(fold, d, rs, e, cs)
    ensures Under(fold, d, rs, e, cs + ks)
  {
    if |rs| <= |cs| {
      assert FoldedAll(fold, cs + ks)[..|rs|] == FoldedAll(fold, cs)[..|rs|];
    }
  }

  /** A joined sync path is the base's segments followed by the relative ones, so it stays under every root above the
      base. */
  lemma JoinedPath(fold: string -> string, d: string, rs: seq<string>, e: string, cs: seq<string>, ks: seq<string>)
    requires KeepsSlashes(fold) && IsPath(d, rs) && IsPath(e, cs) && AllPlain(Posix, ks) && ks != []
    ensures JoinRemotePath(Text(e, cs), Relative(ks)) == Text(e, cs + ks)
    ensures Contained(fold, Text(d, rs), Text(e, cs)) ==> Contained(fold, Text(d, rs), Text(e, cs + ks))
  {
    JoinedText(e, cs, ks);
    if Contained(fold, Text(d, rs), Text(e, cs)) {
      ContainedMeaning(fold, d, rs, e, cs);
      UnderLonger(fold, d, rs, e, cs, ks);
      ContainedMeaning(fold, d, rs, e, cs + ks);
    }
  }

  // ---------------------------------------------------------------- the generated mkdirs

  /** The root unless it is a filesystem root, and every directory below it down to the last of `ks`. */
  function Chain(d: string, rs: seq<string>, ks: seq<string>): (r: seq<string>) {
    if ks == [] then (if rs == [] then [] else [Text(d, rs)])
    else Chain(d, rs, ks[..|ks| - 1]) + [Text(d, rs + ks)]
  }

  /** The chain is complete and ordered: entry by entry it is one segment longer, and all of it lies under the root. */
  lemma {:induction false} ChainMeaning(fold: string -> string, d: string, rs: seq<string>, ks: seq<string>, j: nat)
    requires KeepsSlashes(fold) && IsPath(d, rs) && AllPlain(Posix, ks)
    requires (if rs == [] then 1 else 0) <= j <= |ks|
    ensures var at := if rs == [] then j - 1 else j;
            && |Chain(d, rs, ks)| == |ks| + (if rs == [] then 0 else 1)
            && Chain(d, rs, ks)[at] == Text(d, rs + ks[..j])
            && Contained(fold, Text(d, rs), Text(d, rs + ks[..j]))
  {
    UnderLonger(fold, d, rs, d, rs, ks[..j]);
    ContainedMeaning(fold, d, rs, d, rs + ks[..j]);
    ChainAt(d, rs, ks, j);
  }

  lemma {:induction false} ChainLength(d: string, rs: seq<string>, ks: seq<string>)
    ensures |Chain(d, rs, ks)| == |ks| + (if rs == [] then 0 else 1)
  {
    if ks != [] {
      ChainLength(d, rs, ks[..|ks| - 1]);
    }
  }

  lemma {:induction false} ChainAt(d: string, rs: seq<string>, ks: seq<string>, j: nat)
    requires (if rs == [] then 1 else 0) <= j <= |ks|
    ensures |Chain(d, rs, ks)| == |ks| + (if rs == [] then 0 else 1)
    ensures Chain(d, rs, ks)[if rs == [] then j - 1 else j] == Text(d, rs + ks[..j])
    decreases |ks|
  {
    ChainLength(d, rs, ks);
    if ks != [] {
      var init := ks[..|ks| - 1];
      ChainLength(d, rs, init);
      if j < |ks| {
        ChainAt(d, rs, init, j);
        assert init[..j] == ks[..j];
      } else {
        assert ks[..j] == ks;
      }
    } else {
      assert rs + ks[..j] == rs;
    }
  }

  function LastSlash(s: string): (r: int)
    ensures -1 <= r < |s|
  {
    if s == "" then -1 else if s[|s| - 1] == '/' then |s| - 1 else LastSlash(s[..|s| - 1])
  }

  /** remotePath.slice(0, remotePath.lastIndexOf("/")). */
  function Parent(path: string): (r: string) {
    var at := LastSlash(path);
    if at >= 0 then path[..at] else if path == "" then "" else path[..|path| - 1]
  }

  lemma {:induction false} LastSlashBefore(a: string, b: string)
    requires NoSlash(b)
    ensures LastSlash(a + "/" + b) == |a|
    decreases |b|
  {
    var s := a + "/" + b;
    if b != "" {
      LastSlashBefore(a, b[..|b| - 1]);
      assert s[..|s| - 1] == a + "/" + b[..|b| - 1];
    }
  }

  function Above(cs: seq<string>): (r: seq<string>) {
    if cs == [] then [] else cs[..|cs| - 1]
  }

  lemma ParentText(e: string, cs: seq<string>)
    requires IsPath(e, cs)
    ensures Parent(Text(e, cs)) == Stem(e, Above(cs))
  {
    if cs == [] {
      assert Stem(e, []) == e;
      LastSlashBefore(e, "");
      assert e + "/" + "" == Text(e, cs);
    } else {
      var init, last := cs[..|cs| - 1], cs[|cs| - 1];
      assert cs == init + [last];
      SlashedPlus(init, [last]);
      assert Slashed([last]) == "/" + last;
      assert Text(e, cs) == Stem(e, init) + "/" + last;
      LastSlashBefore(Stem(e, init), last);
    }
  }

  predicate IsFilesystemRoot(root: string) {
    root == "/" || (|root| == 3 && IsLetter(root[0]) && root[1..] == ":/")
  }

  lemma FilesystemRootText(platform: Platform, d: string, rs: seq<string>)
    requires IsDrive(platform, d) && IsPath(d, rs)
    ensures IsFilesystemRoot(Text(d, rs)) <==> rs == []
  {
    if rs != [] {
      assert Slashed(rs)[0] == '/' && Slashed(rs)[1] == rs[0][0];
      SlashedEnds(rs);
    }
  }

  /** parent.slice(from). */
  function SliceFrom(s: string, from: nat): (r: string) {
    if from <= |s| then s[from..] else ""
  }

  /** The part of the parent below the root, as text. */
  function RemainderOf(root: string, parent: string): (r: string) {
    if parent == root then "" else SliceFrom(parent, |root| + if root != "" && root[|root| - 1] == '/' then 0 else 1)
  }

  /** The text of the path is cut one character behind the root's length. That falls on a segment's boundary if the part
      of the path that the root folds to is as long as the root or one character longer, or if nothing follows it. */
  predicate Aligned(d: string, rs: seq<string>, e: string, ps: seq<string>) {
    |rs| <= |ps| ==>
      var l, m := |Stem(d, rs)|, |Stem(e, ps[..|rs|])|;
      l == m || l + 1 == m || (|rs| == |ps| && m <= l)
  }

  function RelativeOrEmpty(ks: seq<string>): string {
    if ks == [] then "" else Relative(ks)
  }

  lemma SegmentsOfRelative(ks: seq<string>)
    requires AllPlain(Posix, ks)
    ensures Segments(Posix, RelativeOrEmpty(ks)) == ks
  {
    if ks != [] {
      SegmentsSkip(Posix, "", ks[0], Slashed(ks[1..]));
      SegmentsOfSlashed(Posix, ks[0], ks[1..]);
      assert "" + ks[0] == ks[0] && Piece(ks[0]) + ks[1..] == ks;
    }
  }

  lemma StemPlus(e: string, top: seq<string>, ks: seq<string>)
    ensures Stem(e, top + ks) == Stem(e, top) + Slashed(ks)
  {
    SlashedPlus(top, ks);
    assert e + (Slashed(top) + Slashed(ks)) == e + Slashed(top) + Slashed(ks);
  }

  /** An aligned cut leaves the segments below the root. */
  lemma CutLeaves(stem: string, ks: seq<string>, from: nat)
    requires AllPlain(Posix, ks)
    requires from == |stem| + 1 || from == |stem| || (ks == [] && |stem| <= from)
    ensures Segments(Posix, SliceFrom(stem + Slashed(ks), from)) == ks
  {
    var text := stem + Slashed(ks);
    if from == |stem| {
      assert text[from..] == Slashed(ks);
      SegmentsOfSlashed(Posix, "", ks);
      assert Piece("") + ks == ks;
    } else if ks != [] {
      SlashedRelative(ks);
      assert text[from..] == RelativeOrEmpty(ks);
      SegmentsOfRelative(ks);
    } else {
      assert SliceFrom(text, from) == "";
    }
  }

  /** The number of characters that are no slashes. */
  function Ink(s: string): nat {
    if s == "" then 0 else (if s[0] == '/' then 0 else 1) + Ink(s[1..])
  }

  lemma {:induction false} InkPlus(a: string, b: string)
    ensures Ink(a + b) == Ink(a) + Ink(b)
  {
    if a == "" {
      assert a + b == b;
    } else {
      InkPlus(a[1..], b);
      assert (a + b)[1..] == a[1..] + b;
    }
  }

  lemma {:induction false} InkOfSegments(current: string, s: string)
    ensures Ink(Slashed(SegmentsFrom(Posix, current, s))) == Ink(current) + Ink(s)
    decreases |s|
  {
    SlashedPiece(current);
    InkPlus("/", current);
    if s != "" {
      if s[0] == '/' {
        var rest := SegmentsFrom(Posix, "", s[1..]);
        InkOfSegments("", s[1..]);
        SlashedPlus(Piece(current), rest);
        InkPlus(Slashed(Piece(current)), Slashed(rest));
      } else {
        InkOfSegments(current + [s[0]], s[1..]);
        InkPlus(current, [s[0]]);
      }
    }
  }

  lemma InkOfTail(s: string, from: nat)
    requires from < |s| && s[|s| - 1] != '/'
    ensures Ink(s[from..]) >= 1
  {
    var last := |s| - 1;
    assert s[from..] == s[from..last] + [s[last]];
    InkPlus(s[from..last], [s[last]]);
  }

  /** Any other cut loses characters of segments below the root, or keeps some of the part above. */
  lemma CutMisses(stem: string, ks: seq<string>, from: nat)
    requires AllPlain(Posix, ks) && (stem == "" || stem[|stem| - 1] != '/')
    requires if from < |stem| then true else |stem| + 1 < from && ks != []
    ensures Ink(SliceFrom(stem + Slashed(ks), from)) != Ink(Slashed(ks))
  {
    var text := stem + Slashed(ks);
    if from < |stem| {
      assert text[from..] == stem[from..] + Slashed(ks);
      InkPlus(stem[from..], Slashed(ks));
      InkOfTail(stem, from);
    } else {
      InkAfter(Slashed(ks), from - |stem|, ks);
      assert SliceFrom(text, from) == SliceFrom(Slashed(ks), from - |stem|);
    }
  }

  lemma InkAfter(s: string, from: nat, ks: seq<string>)
    requires ks != [] && ks[0] != "" && NoSlash(ks[0]) && s == Slashed(ks) && 1 < from
    ensures Ink(SliceFrom(s, from)) < Ink(s)
  {
    var rest := SliceFrom(s, from);
    var cut := |s| - |rest|;
    assert s == s[..cut] + rest;
    InkPlus(s[..cut], rest);
    assert s[0] == '/' && s[1] == ks[0][0] != '/';
    assert s[..2][1..] == [s[1]];
    assert s[..cut] == s[..2] + s[2..cut];
    InkPlus(s[..2], s[2..cut]);
  }

  lemma InkOfText(d: string, rs: seq<string>, ks: seq<string>)
    requires ks != []
    ensures Ink(Text(d, rs + ks)) == Ink(Stem(d, rs)) + Ink(Slashed(ks))
  {
    StemPlus(d, rs, ks);
    InkPlus(Stem(d, rs), Slashed(ks));
  }

  lemma ChainLast(d: string, rs: seq<string>, ks: seq<string>, length: nat, last: string)
    requires |Chain(d, rs, ks)| == length > 0 && Chain(d, rs, ks)[length - 1] == last
    ensures |ks| == length - (if rs == [] then 0 else 1)
    ensures ks != [] ==> Ink(last) == Ink(Stem(d, rs)) + Ink(Slashed(ks))
  {
    ChainLength(d, rs, ks);
    if ks != [] {
      InkOfText(d, rs, ks);
    }
  }

  /** Equal chains are of segments with as many characters. */
  lemma ChainInk(d: string, rs: seq<string>, a: seq<string>, b: seq<string>)
    requires Chain(d, rs, a) == Chain(d, rs, b)
    ensures Ink(Slashed(a)) == Ink(Slashed(b))
  {
    var chain := Chain(d, rs, a);
    if chain == [] {
      ChainLength(d, rs, a);
      ChainLength(d, rs, b);
    } else {
      ChainLast(d, rs, a, |chain|, chain[|chain| - 1]);
      ChainLast(d, rs, b, |chain|, chain[|chain| - 1]);
    }
  }

  /** The directories below the root that the destination needs; none if its parent is outside. */
  function Needed(fold: string -> string, d: string, rs: seq<string>, e: string, cs: seq<string>): (r: seq<string>) {
    if |cs| <= |rs| || !Under(fold, d, rs, e, cs[..|cs| - 1]) then []
    else Chain(d, rs, cs[|rs|..|cs| - 1])
  }

  /** The parent test of the method, in segments. */
  lemma ParentContained(fold: string -> string, d: string, rs: seq<string>, e: string, cs: seq<string>)
    requires KeepsSlashes(fold) && IsPath(d, rs) && IsPath(e, cs)
    ensures Contained(fold, Text(d, rs), Parent(Text(e, cs))) <==> Under(fold, d, rs, e, Above(cs))
  {
    ParentText(e, cs);
    ContainedStem(fold, d, rs, e, Above(cs));
  }

  lemma UnderShorter(fold: string -> string, d: string, rs: seq<string>, e: string, ps: seq<string>)
    requires Under(fold, d, rs, e, ps) && (d == "" <==> e == "")
    ensures Folded(fold, d) == Folded(fold, e) && IsPrefix(FoldedAll(fold, rs), FoldedAll(fold, ps)) && |rs| <= |ps|
  {
    assert |FoldedAll(fold, rs)| == |rs| && |FoldedAll(fold, ps)| == |ps|;
  }

  method MakeChain(root: string, remainder: string, ghost d: string, ghost rs: seq<string>, ghost platform: Platform)
    returns (commands: seq<string>)
    requires root == Text(d, rs) && IsDrive(platform, d) && IsPath(d, rs)
    ensures commands == Chain(d, rs, Segments(Posix, remainder))
  {
    FilesystemRootText(platform, d, rs);
    StripText(d, rs);
    var segments := Segments(Posix, remainder);
    var current := Strip(root);
    commands := if IsFilesystemRoot(root) then [] else [root];
    ChainStarts(d, rs, segments);
    for j := 0 to |segments|
      invariant current == Stem(d, rs + segments[..j])
      invariant commands == Chain(d, rs, segments[..j])
    {
      var segment := segments[j];
      ChainNext(d, rs, segments, j, current);
      current := if current == "" then "/" + segment else current + "/" + segment;
      commands := commands + [current];
    }
    assert segments[..|segments|] == segments;
  }

  lemma ChainStarts(d: string, rs: seq<string>, ks: seq<string>)
    ensures Stem(d, rs + ks[..0]) == Stem(d, rs)
    ensures Chain(d, rs, ks[..0]) == if rs == [] then [] else [Text(d, rs)]
  {
    assert rs + ks[..0] == rs;
  }

  lemma ChainNext(d: string, rs: seq<string>, ks: seq<string>, j: nat, current: string)
    requires j < |ks| && current == Stem(d, rs + ks[..j])
    ensures current + "/" + ks[j] == Stem(d, rs + ks[..j + 1])
    ensures "/" + ks[j] == "" + "/" + ks[j]
    ensures Chain(d, rs, ks[..j + 1]) == Chain(d, rs, ks[..j]) + [current + "/" + ks[j]]
  {
    StemNext(d, rs, ks, j);
    assert ks[..j + 1][..j] == ks[..j];
  }

  lemma StemNext(d: string, rs: seq<string>, ks: seq<string>, j: nat)
    requires j < |ks|
    ensures Stem(d, rs + ks[..j]) + "/" + ks[j] == Stem(d, rs + ks[..j + 1]) == Text(d, rs + ks[..j + 1])
  {
    assert rs + ks[..j + 1] == rs + ks[..j] + [ks[j]];
    SlashedPlus(rs + ks[..j], [ks[j]]);
    assert Slashed([ks[j]]) == "/" + ks[j];
  }

  lemma NeededIsChain(fold: string -> string, d: string, rs: seq<string>, e: string, cs: seq<string>)
    requires Under(fold, d, rs, e, Above(cs)) && |rs| <= |Above(cs)|
    ensures Needed(fold, d, rs, e, cs) == Chain(d, rs, Above(cs)[|rs|..])
  {
    if cs != [] {
      assert Above(cs)[|rs|..] == cs[|rs|..|cs| - 1];
    }
  }

  /** The chain made from what is cut off a parent under the root is the needed one exactly for an aligned cut. */
  lemma CutExact(d: string, rs: seq<string>, e: string, ps: seq<string>)
    requires IsPath(e, ps) && |rs| <= |ps|
    ensures var cut := SliceFrom(Stem(e, ps), |Stem(d, rs)| + 1);
            Chain(d, rs, Segments(Posix, cut)) == Chain(d, rs, ps[|rs|..]) <==> Aligned(d, rs, e, ps)
  {
    var top, ks, from := ps[..|rs|], ps[|rs|..], |Stem(d, rs)| + 1;
    assert ps == top + ks;
    StemPlus(e, top, ks);
    StemEnds(e, top);
    if Aligned(d, rs, e, ps) {
      CutLeaves(Stem(e, top), ks, from);
    } else {
      CutMisses(Stem(e, top), ks, from);
      InkOfSegments("", SliceFrom(Stem(e, ps), from));
      if Chain(d, rs, Segments(Posix, SliceFrom(Stem(e, ps), from))) == Chain(d, rs, ks) {
        ChainInk(d, rs, Segments(Posix, SliceFrom(Stem(e, ps), from)), ks);
      }
    }
  }

  /** What the method cuts off the parent. */
  lemma CutOff(d: string, rs: seq<string>, e: string, cs: seq<string>)
    requires IsPath(d, rs) && IsPath(e, cs) && |rs| <= |Above(cs)|
    ensures RemainderOf(Text(d, rs), Parent(Text(e, cs))) == SliceFrom(Stem(e, Above(cs)), |Stem(d, rs)| + 1)
  {
    ParentText(e, cs);
    AtRoot(d, rs, e, Above(cs));
  }

  lemma ParentBelow(fold: string -> string, d: string, rs: seq<string>, e: string, cs: seq<string>)
    requires KeepsSlashes(fold) && IsPath(d, rs) && IsPath(e, cs) && (d == "" <==> e == "")
    requires Contained(fold, Text(d, rs), Parent(Text(e, cs)))
    ensures Under(fold, d, rs, e, Above(cs)) && |rs| <= |Above(cs)|
    ensures var made := Chain(d, rs, Segments(Posix, RemainderOf(Text(d, rs), Parent(Text(e, cs)))));
            made == Needed(fold, d, rs, e, cs) <==> Aligned(d, rs, e, Above(cs))
  {
    ParentContained(fold, d, rs, e, cs);
    UnderShorter(fold, d, rs, e, Above(cs));
    CutOff(d, rs, e, cs);
    CutExact(d, rs, e, Above(cs));
    NeededIsChain(fold, d, rs, e, cs);
  }

  /** ensureRemoteParents: the mkdirs are a chain of directories below the root, and the complete one down to the
      destination's parent exactly if the cut behind the root is aligned. */
  method EnsureRemoteParents(fold: string -> string, root: string, path: string, ghost platform: Platform,
                             ghost d: string, ghost rs: seq<string>, ghost e: string, ghost cs: seq<string>)
    returns (commands: seq<string>)
    requires KeepsSlashes(fold) && IsDrive(platform, d) && IsDrive(platform, e) && IsPath(d, rs) && IsPath(e, cs)
    requires root == Text(d, rs) && path == Text(e, cs)
    ensures commands == [] || exists ks :: AllPlain(Posix, ks) && commands == Chain(d, rs, ks)
    ensures commands == Needed(fold, d, rs, e, cs) <==> MkdirsFit(fold, d, rs, e, cs)
  {
    if path == root {
      AtTheRoot(fold, d, rs, e, cs);
      return [];
    }
    var parent := Parent(path);
    if parent == "" || !Contained(fold, root, parent) {
      NothingNeeded(fold, d, rs, e, cs);
      return [];
    }
    ParentBelow(fold, d, rs, e, cs);
    commands := MakeChain(root, RemainderOf(root, parent), d, rs, platform);
    SegmentsArePlain(Posix, "", RemainderOf(root, parent));
  }

  /** The destination's parent is outside the root, or the cut behind the root is aligned. */
  predicate MkdirsFit(fold: string -> string, d: string, rs: seq<string>, e: string, cs: seq<string>) {
    Under(fold, d, rs, e, Above(cs)) ==> Aligned(d, rs, e, Above(cs))
  }

  lemma SameText(d: string, rs: seq<string>, e: string, cs: seq<string>)
    requires IsPath(d, rs) && IsPath(e, cs) && Text(d, rs) == Text(e, cs)
    ensures |rs| == |cs|
  {
    StripText(d, rs);
    StripText(e, cs);
    StemPrefix(d, rs, e, cs);
    StemPrefix(e, cs, d, rs);
  }

  lemma TopAligned(d: string, e: string, ps: seq<string>)
    requires |d| == |e|
    ensures Aligned(d, [], e, ps)
  {
    assert ps[..0] == [];
  }

  lemma AtTheRoot(fold: string -> string, d: string, rs: seq<string>, e: string, cs: seq<string>)
    requires IsPath(d, rs) && IsPath(e, cs) && Text(d, rs) == Text(e, cs) && |d| == |e|
    ensures Needed(fold, d, rs, e, cs) == [] && MkdirsFit(fold, d, rs, e, cs)
  {
    SameText(d, rs, e, cs);
    TopAligned(d, e, Above(cs));
  }

  lemma NothingNeeded(fold: string -> string, d: string, rs: seq<string>, e: string, cs: seq<string>)
    requires KeepsSlashes(fold) && IsPath(d, rs) && IsPath(e, cs) && |d| == |e|
    requires Parent(Text(e, cs)) == "" || !Contained(fold, Text(d, rs), Parent(Text(e, cs)))
    ensures Needed(fold, d, rs, e, cs) == [] && MkdirsFit(fold, d, rs, e, cs)
  {
    ParentContained(fold, d, rs, e, cs);
    ParentText(e, cs);
    TopAligned(d, e, Above(cs));
    if |cs| > 1 {
      assert Slashed(cs[..|cs| - 1]) != "";
    }
  }

  /** The length that is cut off, and the two ways to find an empty remainder. */
  lemma AtRoot(d: string, rs: seq<string>, e: string, ps: seq<string>)
    requires IsPath(d, rs) && IsPath(e, ps) && |rs| <= |ps|
    ensures var root := Text(d, rs);
            && root != "" && |root| + (if root[|root| - 1] == '/' then 0 else 1) == |Stem(d, rs)| + 1
            && (Stem(e, ps) == root ==> ps[|rs|..] == [])
  {
    StemEnds(e, ps);
    if rs != [] {
      SlashedEnds(rs);
      StemPrefix(d, rs, e, ps);
      StemPrefix(e, ps, d, rs);
    }
  }

  lemma StemEnds(e: string, ps: seq<string>)
    requires IsPath(e, ps)
    ensures Stem(e, ps) == "" || Stem(e, ps)[|Stem(e, ps)| - 1] != '/'
  {
    if ps == [] {
      assert Stem(e, ps) == e;
    } else {
      SlashedEnds(ps);
    }
  }

  // ---------------------------------------------------------------- folding character by character

  function Spread(f: char -> string, s: string): (r: string) {
    if s == "" then "" else f(s[0]) + Spread(f, s[1..])
  }

  /** Each character becomes a text of its own. */
  function CharFold(f: char -> string): string -> string {
    s => Spread(f, s)
  }

  lemma {:induction false} SpreadPlus(f: char -> string, a: string, b: string)
    ensures Spread(f, a + b) == Spread(f, a) + Spread(f, b)
  {
    if a == "" {
      assert a + b == b;
    } else {
      SpreadPlus(f, a[1..], b);
      assert (a + b)[1..] == a[1..] + b;
      PlusIsAssociative(f(a[0]), Spread(f, a[1..]), Spread(f, b));
    }
  }

  lemma {:induction false} SpreadPlain(f: char -> string, s: string)
    requires forall c :: c != '/' ==> NoSlash(f(c)) && f(c) != ""
    requires NoSlash(s)
    ensures NoSlash(Spread(f, s)) && |Spread(f, s)| >= |s|
  {
    if s != "" {
      assert s[0] != '/';
      SpreadPlain(f, s[1..]);
    }
  }

  /** Folding each character by itself satisfies what is used of folding. */
  lemma CharFoldKeepsSlashes(f: char -> string)
    requires f('/') == "/" && forall c :: c != '/' ==> NoSlash(f(c)) && f(c) != ""
    ensures KeepsSlashes(CharFold(f))
  {
    var fold := CharFold(f);
    forall a, b ensures fold(Separated(a, b)) == Separated(fold(a), fold(b)) {
      SpreadPlus(f, a + "/", b);
      SpreadPlus(f, a, "/");
    }
    forall a ensures (NoSlash(a) ==> NoSlash(fold(a))) && (fold(a) == "" <==> a == "") {
      if NoSlash(a) {
        SpreadPlain(f, a);
      }
    }
    forall a, b ensures |fold(a + b)| == |fold(a)| + |fold(b)| {
      SpreadPlus(f, a, b);
    }
  }

  lemma {:induction false} SpreadLength(f: char -> string, s: string)
    requires forall c :: |f(c)| == 1
    ensures |Spread(f, s)| == |s|
  {
    if s != "" {
      SpreadLength(f, s[1..]);
    }
  }

  lemma {:induction false} CharFoldLength(f: char -> string, rs: seq<string>, cs: seq<string>)
    requires forall c :: |f(c)| == 1
    requires FoldedAll(CharFold(f), rs) == FoldedAll(CharFold(f), cs)
    ensures |Slashed(rs)| == |Slashed(cs)|
  {
    var fold := CharFold(f);
    assert |rs| == |FoldedAll(fold, rs)| == |cs|;
    if rs != [] {
      assert FoldedAll(fold, rs)[0] == FoldedAll(fold, cs)[0];
      SpreadLength(f, rs[0]);
      SpreadLength(f, cs[0]);
      assert FoldedAll(fold, rs[1..]) == FoldedAll(fold, rs)[1..];
      assert FoldedAll(fold, cs[1..]) == FoldedAll(fold, cs)[1..];
      CharFoldLength(f, rs[1..], cs[1..]);
    }
  }

  /** If each becomes one character, and so on POSIX, every path under a root is aligned with it: the mkdirs are
      complete. */
  lemma CharFoldAligned(f: char -> string, d: string, rs: seq<string>, e: string, cs: seq<string>)
    requires forall c :: |f(c)| == 1
    requires d == "" <==> e == ""
    ensures MkdirsFit(CharFold(f), d, rs, e, cs)
  {
    var fold, ps := CharFold(f), Above(cs);
    if Under(fold, d, rs, e, ps) {
      UnderShorter(fold, d, rs, e, ps);
      assert FoldedAll(fold, ps[..|rs|]) == FoldedAll(fold, ps)[..|rs|];
      CharFoldLength(f, rs, ps[..|rs|]);
      SpreadLength(f, d);
      SpreadLength(f, e);
    }
  }

  /** Not every folding does that: an I with a dot above (U+0130) folds to two characters, and then the cut goes through
      the next segment. */
  lemma MisalignedExample(fold: string -> string)
    requires KeepsSlashes(fold) && fold("C:") == "c:" && fold("\U{0130}") == "i\U{0307}" == fold("i\U{0307}")
    ensures var rs, cs := ["i\U{0307}"], ["\U{0130}", "xy", "f"];
            && Contained(fold, Text("C:", rs), Text("C:", cs))
            && RemainderOf(Text("C:", rs), Parent(Text("C:", cs))) == "y"
            && !MkdirsFit(fold, "C:", rs, "C:", cs)
  {
    MisalignedUnder(fold);
    MisalignedPaths();
    ContainedMeaning(fold, "C:", ["i\U{0307}"], "C:", ["\U{0130}", "xy", "f"]);
    MisalignedCut();
    MisalignedLengths();
  }

  lemma MisalignedUnder(fold: string -> string)
    requires fold("C:") == "c:" && fold("\U{0130}") == "i\U{0307}" == fold("i\U{0307}")
    ensures Under(fold, "C:", ["i\U{0307}"], "C:", ["\U{0130}", "xy", "f"])
    ensures Under(fold, "C:", ["i\U{0307}"], "C:", Above(["\U{0130}", "xy", "f"]))
  {
    var rs, cs := ["i\U{0307}"], ["\U{0130}", "xy", "f"];
    assert FoldedAll(fold, cs)[..1] == FoldedAll(fold, rs) == FoldedAll(fold, Above(cs))[..1];
  }

  lemma MisalignedPaths()
    ensures IsPath("C:", ["i\U{0307}"]) && IsPath("C:", ["\U{0130}", "xy", "f"])
  {
  }

  lemma MisalignedCut()
    ensures RemainderOf(Text("C:", ["i\U{0307}"]), Parent(Text("C:", ["\U{0130}", "xy", "f"]))) == "y"
  {
    MisalignedPaths();
    ParentText("C:", ["\U{0130}", "xy", "f"]);
    MisalignedTexts();
  }

  lemma MisalignedLengths()
    ensures !Aligned("C:", ["i\U{0307}"], "C:", Above(["\U{0130}", "xy", "f"]))
  {
    assert Above(["\U{0130}", "xy", "f"])[..1] == ["\U{0130}"];
    MisalignedTexts();
    assert Slashed(["\U{0130}"]) == "/\U{0130}";
  }

  lemma MisalignedTexts()
    ensures Text("C:", ["i\U{0307}"]) == "C:/i\U{0307}" == Stem("C:", ["i\U{0307}"])
    ensures Stem("C:", Above(["\U{0130}", "xy", "f"])) == "C:/\U{0130}/xy"
  {
    assert Above(["\U{0130}", "xy", "f"]) == ["\U{0130}", "xy"] && ["\U{0130}", "xy"][1..] == ["xy"];
    assert Slashed(["xy"]) == "/xy" && ["i\U{0307}"][1..] == [];
  }
}
