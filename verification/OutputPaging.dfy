/** Cursor paging of one retained output stream as text (src/core/exec-service.ts). */
module OutputPaging {
  import opened Seqs
  import opened Utf8

  datatype Result<+T> = Ok(value: T) | Err(error: Error)
  datatype Error = RangeError | InvalidCursor

  datatype Chunk = Chunk(data: seq<byte>, eof: bool, totalBytes: nat)

  function Slice(stream: seq<byte>, offset: nat, limit: nat): (c: Chunk)
    requires offset <= |stream|
    ensures offset + |c.data| <= |stream| && c.data == stream[offset..offset + |c.data|]
    ensures c.totalBytes == |stream| && (c.eof <==> offset + |c.data| == |stream|)
    ensures |c.data| <= limit && (c.eof || |c.data| == limit)
  {
    var size := if limit < |stream| - offset then limit else |stream| - offset;
    Chunk(stream[offset..offset + size], offset + size == |stream|, |stream|)
  }

  /** OutputStore.read on a stream whose bytes and metadata agree. */
  function ReadChunk(stream: seq<byte>, offset: nat, limit: nat, maxRead: nat): (r: Result<Chunk>)
    ensures r.Ok? <==> 1 <= limit <= maxRead && offset <= |stream|
    ensures r.Ok? ==> r.value == Slice(stream, offset, limit)
  {
    if limit < 1 || limit > maxRead || offset > |stream| then Err(RangeError) else Ok(Slice(stream, offset, limit))
  }

  // ---------------------------------------------------------------- characters do not overlap

  lemma CharEndIsOutside(s: seq<byte>, i: int, n: int)
    requires CharAt(s, i, n)
    ensures !Inside(s, i + n)
  {
    forall j, m | CharAt(s, j, m) && j < i + n ensures j + m <= i + n {
      CharShape(s, i, n);
      CharShape(s, j, m);
    }
  }

  lemma CharBehind(stream: seq<byte>, offset: nat, rest: seq<byte>, i: int, n: int)
    requires offset <= i && offset <= |stream| && rest == stream[offset..] && CharAt(stream, i, n)
    ensures CharAt(rest, i - offset, n)
  {
    assert rest[i - offset..i - offset + n] == stream[i..i + n];
  }

  lemma PageAndRest(stream: seq<byte>, offset: nat, size: nat)
    requires offset + size <= |stream|
    ensures stream[offset..offset + size] + stream[offset + size..] == stream[offset..]
  {
  }

  /** From an offset outside every character, what ends no character of the page ends none of the stream. */
  lemma PageCutIsOutside(stream: seq<byte>, offset: nat, size: nat, k: nat)
    requires offset + size <= |stream| && !Inside(stream, offset)
    requires k == CompletePrefix(stream[offset..offset + size])
    ensures !Inside(stream, offset + k)
  {
    var s, t := stream[offset..offset + size], stream[offset + size..];
    CompletePrefixNeverSplits(s, t);
    PageAndRest(stream, offset, size);
    forall i, n | CharAt(stream, i, n) && i < offset + k ensures i + n <= offset + k {
      if i < offset {
        assert i + n <= offset;
      } else {
        CharBehind(stream, offset, s + t, i, n);
      }
    }
  }

  // ---------------------------------------------------------------- alignUtf8ReadOffset

  /** The character that starts at `i` covers offset `k`. */
  predicate CharOver(s: seq<byte>, i: int, k: int) {
    && 0 <= i < |s| && i < k < i + SequenceLength(s[i]) <= |s|
    && IsChar(s[i..i + SequenceLength(s[i])])
  }

  /** The end of the character that `k` falls into, or `k` itself; a character is at most four bytes long. */
  function AlignedOffset(s: seq<byte>, k: nat): (r: nat)
    ensures k <= r <= k + 3
  {
    if k <= |s| && CharOver(s, k - 1, k) then k - 1 + SequenceLength(s[k - 1])
    else if k <= |s| && CharOver(s, k - 2, k) then k - 2 + SequenceLength(s[k - 2])
    else if k <= |s| && CharOver(s, k - 3, k) then k - 3 + SequenceLength(s[k - 3])
    else k
  }

  lemma InsideCovers(s: seq<byte>, k: nat, i: int, n: int)
    requires CharAt(s, i, n) && i < k < i + n
    ensures CharOver(s, i, k) && k - 3 <= i
  {
    CharShape(s, i, n);
  }

  lemma CoverFound(s: seq<byte>, k: nat, i: int)
    requires k <= |s| && CharOver(s, i, k) && k - 3 <= i
    ensures AlignedOffset(s, k) != k
  {
    assert i == k - 1 || i == k - 2 || i == k - 3;
  }

  lemma AlignedOffsetMeaning(s: seq<byte>, k: nat)
    requires k <= |s|
    ensures !Inside(s, k) ==> AlignedOffset(s, k) == k
    ensures Inside(s, k) ==> exists i, n :: CharAt(s, i, n) && i < k < i + n && AlignedOffset(s, k) == i + n
    ensures !Inside(s, AlignedOffset(s, k))
    ensures AlignedOffset(s, k) <= |s|
  {
    var r := AlignedOffset(s, k);
    if r != k {
      var i := CoveringLead(s, k);
      var n := r - i;
      assert CharAt(s, i, n) && i < k < i + n;
      CharEndIsOutside(s, i, n);
    } else if Inside(s, k) {
      var i, n :| CharAt(s, i, n) && i < k < i + n;
      InsideCovers(s, k, i, n);
      CoverFound(s, k, i);
    }
  }

  lemma CoveringLead(s: seq<byte>, k: nat) returns (i: int)
    requires k <= |s| && AlignedOffset(s, k) != k
    ensures 0 <= i < k && i < |s| && CharAt(s, i, SequenceLength(s[i]))
            && AlignedOffset(s, k) == i + SequenceLength(s[i]) > k
  {
    i := if CharOver(s, k - 1, k) then k - 1 else if CharOver(s, k - 2, k) then k - 2 else k - 3;
  }

  lemma CoverIsContinuation(s: seq<byte>, k: nat)
    ensures AlignedOffset(s, k) != k ==> k < |s| && IsContinuation(s[k])
  {
    var i := if CharOver(s, k - 1, k) then k - 1 else if CharOver(s, k - 2, k) then k - 2 else k - 3;
    if AlignedOffset(s, k) != k {
      var c := s[i..i + SequenceLength(s[i])];
      assert c[k - i] == s[k];
    }
  }

  /** The test on one candidate lead of the probe window. */
  predicate Covers(bytes: seq<byte>, lead: nat, index: nat)
    requires lead < |bytes|
  {
    var end := lead + SequenceLength(bytes[lead]);
    SequenceLength(bytes[lead]) != 1 && index < end <= |bytes| && IsValidUtf8(bytes[lead..end])
  }

  /** The test decides whether its character covers the offset. */
  lemma CandidateTest(stream: seq<byte>, probe: nat, bytes: seq<byte>, lead: nat, index: nat)
    requires probe + |bytes| <= |stream| && bytes == stream[probe..probe + |bytes|] && lead < index < |bytes|
    requires probe + |bytes| == |stream| || index + 3 <= |bytes|
    ensures CharOver(stream, probe + lead, probe + index) <==> Covers(bytes, lead, index)
  {
    var n := SequenceLength(bytes[lead]);
    assert stream[probe + lead] == bytes[lead];
    if n != 1 && lead + n <= |bytes| {
      var a, b := bytes[lead..lead + n], stream[probe + lead..probe + lead + n];
      assert forall j :: 0 <= j < n ==> a[j] == b[j];
      assert a == b;
      ValidAtLeadLength(a);
    }
  }

  method AlignReadOffset(stream: seq<byte>, offset: nat, maxRead: nat) returns (r: Result<nat>)
    ensures r.Ok? <==> offset == 0 || (7 <= maxRead && offset - 3 <= |stream|)
    ensures r.Ok? ==> r.value == AlignedOffset(stream, offset)
  {
    if offset == 0 {
      return Ok(0);
    }
    var probeOffset := if offset >= 3 then offset - 3 else 0;
    var probe := ReadChunk(stream, probeOffset, 7, maxRead);
    if probe.Err? {
      return Err(probe.error);
    }
    var bytes := probe.value.data;
    var index := offset - probeOffset;
    assert index < |bytes| ==> bytes[index] == stream[offset];
    CoverIsContinuation(stream, offset);
    if index >= |bytes| || !IsContinuation(bytes[index]) {
      return Ok(offset);
    }
    var aligned := SearchLead(stream, offset, probeOffset, bytes);
    return Ok(aligned);
  }

  /** The backward search for a lead whose character covers the offset. */
  method SearchLead(stream: seq<byte>, offset: nat, probeOffset: nat, bytes: seq<byte>) returns (r: nat)
    requires probeOffset == (if offset >= 3 then offset - 3 else 0) && probeOffset + |bytes| <= |stream|
    requires bytes == stream[probeOffset..probeOffset + |bytes|] && 0 < offset - probeOffset < |bytes|
    requires probeOffset + |bytes| == |stream| || offset - probeOffset + 3 <= |bytes|
    ensures r == AlignedOffset(stream, offset)
  {
    var index := offset - probeOffset;
    var leadIndex: int := index - 1;
    while leadIndex >= 0
      invariant -1 <= leadIndex < index
      invariant leadIndex < index - 1 ==> !CharOver(stream, offset - 1, offset)
      invariant leadIndex < index - 2 ==> !CharOver(stream, offset - 2, offset)
      invariant leadIndex < index - 3 ==> !CharOver(stream, offset - 3, offset)
    {
      CandidateTest(stream, probeOffset, bytes, leadIndex, index);
      if Covers(bytes, leadIndex, index) {
        assert stream[probeOffset + leadIndex] == bytes[leadIndex];
        return probeOffset + leadIndex + SequenceLength(bytes[leadIndex]);
      }
      leadIndex := leadIndex - 1;
    }
    return offset;
  }

  // ---------------------------------------------------------------- readUtf8OutputPage

  datatype Page = Page(bytes: seq<byte>, offset: nat, followingOffset: nat, eof: bool, totalBytes: nat)

  /** A page is a contiguous piece, stops inside no character, and advances unless it is the last. */
  ghost predicate GoodPage(stream: seq<byte>, p: Page) {
    && p.followingOffset == p.offset + |p.bytes| <= |stream| == p.totalBytes
    && p.bytes == stream[p.offset..p.followingOffset]
    && (p.eof <==> p.followingOffset == |stream|)
    && !Inside(stream, p.followingOffset)
    && (!p.eof ==> p.bytes != [] && CleanCut(p.bytes, stream[p.followingOffset..]))
  }

  /** The bytes fetched before the final cut: a partial last character is completed, as far as the stream goes. */
  function FetchPage(stream: seq<byte>, offset: nat, limit: nat): (bytes: seq<byte>)
    requires offset <= |stream| && 1 <= limit
  {
    var first := Slice(stream, offset, limit);
    first.data + Slice(stream, offset + |first.data|, Missing(first)).data
  }

  /** How many bytes of the chunk's last character are still to be fetched. */
  function Missing(first: Chunk): (n: nat)
    ensures n <= 3
  {
    var k := CompletePrefix(first.data);
    if first.eof || k == |first.data| then 0 else SequenceLength(first.data[k]) - (|first.data| - k)
  }

  function PageAt(stream: seq<byte>, offset: nat, limit: nat): (p: Page)
    requires offset <= |stream| && 1 <= limit
  {
    PageOf(stream, offset, FetchPage(stream, offset, limit))
  }

  /** The page cut from the bytes that were fetched. */
  function PageOf(stream: seq<byte>, offset: nat, whole: seq<byte>): (p: Page) {
    var bytes := if offset + |whole| >= |stream| then whole else whole[..CompletePrefix(whole)];
    Page(bytes, offset, offset + |bytes|, offset + |bytes| >= |stream|, |stream|)
  }

  lemma CutPage(stream: seq<byte>, offset: nat, whole: seq<byte>, bytes: seq<byte>, next: nat)
    requires offset + |whole| < |stream| && !Inside(stream, offset) && whole == stream[offset..offset + |whole|]
    requires bytes == whole[..CompletePrefix(whole)] && next == offset + |bytes|
    ensures bytes == stream[offset..next] && !Inside(stream, next) && CleanCut(bytes, stream[next..])
  {
    PageCutIsOutside(stream, offset, |whole|, |bytes|);
    if |bytes| == |whole| {
      assert bytes == whole;
      CompleteMeansGround(whole);
    } else {
      CompletePrefixMeaning(whole);
      assert stream[next..][0] == whole[|bytes|];
    }
  }

  lemma EndIsOutside(stream: seq<byte>)
    ensures !Inside(stream, |stream|) && !Inside(stream, 0)
  {
  }

  lemma PageIsGood(stream: seq<byte>, offset: nat, limit: nat)
    requires offset <= |stream| && 1 <= limit && !Inside(stream, offset)
    ensures GoodPage(stream, PageAt(stream, offset, limit))
  {
    CutIsGood(stream, offset, FetchPage(stream, offset, limit));
  }

  lemma CutIsGood(stream: seq<byte>, offset: nat, whole: seq<byte>)
    requires offset + |whole| <= |stream| && !Inside(stream, offset) && whole == stream[offset..offset + |whole|]
    requires offset + |whole| < |stream| ==> CompletePrefix(whole) > 0
    ensures GoodPage(stream, PageOf(stream, offset, whole))
  {
    EndIsOutside(stream);
    if offset + |whole| < |stream| {
      var p := PageOf(stream, offset, whole);
      CutPage(stream, offset, whole, p.bytes, p.followingOffset);
    }
  }

  /** What a store with the given read limit serves: the alignment probe reads seven bytes, and the rest of a character
      is read at once. */
  predicate Served(stream: seq<byte>, offset: nat, limit: nat, maxRead: nat) {
    && 1 <= limit <= maxRead && offset <= |stream| && (offset == 0 || 7 <= maxRead)
    && (maxRead < 7 ==> Missing(Slice(stream, offset, limit)) <= maxRead)
  }

  method ReadUtf8OutputPage(stream: seq<byte>, requestedOffset: nat, limit: nat, maxRead: nat) returns (r: Result<Page>)
    ensures r.Ok? <==> Served(stream, requestedOffset, limit, maxRead)
    ensures r.Ok? ==> var offset := AlignedOffset(stream, requestedOffset);
                      offset <= |stream| && r.value == PageAt(stream, offset, limit)
  {
    var aligned := AlignReadOffset(stream, requestedOffset, maxRead);
    if aligned.Err? {
      return Err(aligned.error);
    }
    r := ReadPageFrom(stream, aligned.value, limit, maxRead);
  }

  /** Fetches what is missing of a partial last character. */
  method CompleteLast(stream: seq<byte>, offset: nat, limit: nat, maxRead: nat, first: Chunk) returns (r: Result<Chunk>)
    requires 1 <= limit && offset <= |stream| && first == Slice(stream, offset, limit)
    ensures r.Ok? <==> Missing(first) <= maxRead
    ensures r.Ok? ==> r.value.data == FetchPage(stream, offset, limit) && offset + |r.value.data| <= |stream|
    ensures r.Ok? ==> (r.value.eof <==> offset + |r.value.data| == |stream|)
  {
    if !first.eof {
      var completeBytes := CompleteUtf8PrefixLength(first.data);
      if completeBytes < |first.data| {
        var partialLength := |first.data| - completeBytes;
        var expectedLength := SequenceLength(first.data[completeBytes]);
        var missingBytes := if expectedLength > partialLength then expectedLength - partialLength else 0;
        if missingBytes > 0 {
          var extra := ReadChunk(stream, offset + |first.data|, missingBytes, maxRead);
          if extra.Err? {
            return Err(extra.error);
          }
          return Ok(Chunk(first.data + extra.value.data, extra.value.eof, first.totalBytes));
        }
      }
    }
    return Ok(first);
  }

  method ReadPageFrom(stream: seq<byte>, offset: nat, limit: nat, maxRead: nat) returns (r: Result<Page>)
    ensures r.Ok? <==> 1 <= limit <= maxRead && offset <= |stream| && Missing(Slice(stream, offset, limit)) <= maxRead
    ensures r.Ok? ==> r.value == PageAt(stream, offset, limit)
  {
    var first := ReadChunk(stream, offset, limit, maxRead);
    if first.Err? {
      return Err(first.error);
    }
    var whole := CompleteLast(stream, offset, limit, maxRead, first.value);
    if whole.Err? {
      return Err(whole.error);
    }
    var bytes := whole.value.data;
    if !whole.value.eof {
      var keep := CompleteUtf8PrefixLength(bytes);
      bytes := bytes[..keep];
    }
    var followingOffset := offset + |bytes|;
    return Ok(Page(bytes, offset, followingOffset, followingOffset >= first.value.totalBytes, first.value.totalBytes));
  }

  // ---------------------------------------------------------------- cursors

  /** The cursor's binding hashes the reference, the stream and the offset; digests are taken as injective. */
  datatype Cursor = Cursor(outputRef: string, streamName: string, offset: nat)

  function DecodeCursor(c: Cursor, outputRef: string, streamName: string): (r: Result<nat>)
    ensures r.Ok? <==> c == Cursor(outputRef, streamName, c.offset)
    ensures r.Ok? ==> r.value == c.offset
  {
    if c.outputRef == outputRef && c.streamName == streamName then Ok(c.offset) else Err(InvalidCursor)
  }

  datatype TextChunk = TextChunk(page: Page, text: seq<int>, nextCursor: seq<Cursor>)

  /** `cursor` is absent or one value; a cursor issued by an earlier page is its own aligned offset. */
  method ReadOutputText(stream: seq<byte>, outputRef: string, streamName: string, cursor: seq<Cursor>, limit: nat,
                        maxRead: nat)
    returns (r: Result<TextChunk>)
    requires |cursor| <= 1
    ensures var at := if cursor == [] then 0 else cursor[0].offset;
            && (r.Ok? <==>
                 (cursor == [] || DecodeCursor(cursor[0], outputRef, streamName).Ok?)
                   && Served(stream, at, limit, maxRead))
            && (r.Ok? ==> GoodPage(stream, r.value.page) && r.value.text == Text(r.value.page.bytes))
            && (r.Ok? && !Inside(stream, at) ==> r.value.page.offset == at)
    ensures r.Ok? ==> r.value.nextCursor ==
                      if r.value.page.eof then [] else [Cursor(outputRef, streamName, r.value.page.followingOffset)]
  {
    var requested := 0;
    if cursor != [] {
      var decoded := DecodeCursor(cursor[0], outputRef, streamName);
      if decoded.Err? {
        return Err(decoded.error);
      }
      requested := decoded.value;
    }
    var p := ReadUtf8OutputPage(stream, requested, limit, maxRead);
    if p.Err? {
      return Err(p.error);
    }
    AlignedOffsetMeaning(stream, requested);
    PageIsGood(stream, AlignedOffset(stream, requested), limit);
    var page := p.value;
    var next := if page.eof then [] else [Cursor(outputRef, streamName, page.followingOffset)];
    r := Ok(TextChunk(page, Text(page.bytes), next));
  }

  /** Text is split where the bytes are, at a clean cut. */
  lemma TextOfParts(whole: seq<byte>, a: seq<byte>, b: seq<byte>)
    requires whole == a + b && CleanCut(a, b)
    ensures Text(whole) == Text(a) + Text(b)
  {
    CleanCutInterruptsNothing(a, b);
    TextSplits(a, b);
  }

  lemma TextOfAll(whole: seq<byte>, a: seq<byte>, b: seq<byte>)
    requires whole == a && b == []
    ensures Text(whole) == Text(a) + Text(b)
  {
    assert Text([]) == [];
  }

  lemma PageSplitsStream(stream: seq<byte>, p: Page)
    requires GoodPage(stream, p)
    ensures stream[..p.offset] + p.bytes == stream[..p.followingOffset]
    ensures Text(stream[p.offset..]) == Text(p.bytes) + Text(stream[p.followingOffset..])
  {
    if !p.eof {
      assert p.bytes + stream[p.followingOffset..] == stream[p.offset..];
      TextOfParts(stream[p.offset..], p.bytes, stream[p.followingOffset..]);
    } else {
      assert p.bytes == stream[p.offset..] && stream[p.followingOffset..] == [];
      TextOfAll(stream[p.offset..], p.bytes, stream[p.followingOffset..]);
    }
  }

  /** What a reader holds after some pages: everything before `at`, byte for byte and as text. */
  ghost predicate Collected(stream: seq<byte>, at: nat, pages: seq<seq<byte>>, texts: seq<seq<int>>) {
    && at <= |stream| && |pages| == |texts|
    && Concat(pages) == stream[..at]
    && Concat(texts) + Text(stream[at..]) == Text(stream)
  }

  lemma CollectPage(stream: seq<byte>, pages: seq<seq<byte>>, texts: seq<seq<int>>, p: Page)
    requires GoodPage(stream, p) && Collected(stream, p.offset, pages, texts)
    ensures Collected(stream, p.followingOffset, pages + [p.bytes], texts + [Text(p.bytes)])
  {
    ConcatAppend(pages, p.bytes);
    ConcatAppend(texts, Text(p.bytes));
    PageSplitsStream(stream, p);
    JoinTexts(Concat(texts), Text(p.bytes), Text(stream[p.followingOffset..]));
  }

  lemma JoinTexts(a: seq<int>, b: seq<int>, c: seq<int>)
    ensures a + (b + c) == (a + b) + c
  {
  }

  /** The page at `at`, read with the cursor for it. */
  method ReadNext(stream: seq<byte>, outputRef: string, streamName: string, cursor: seq<Cursor>, limit: nat,
                  maxRead: nat, ghost at: nat, ghost pages: seq<seq<byte>>, ghost texts: seq<seq<int>>)
    returns (chunk: TextChunk)
    requires 1 <= limit <= maxRead && 7 <= maxRead && !Inside(stream, at) && Collected(stream, at, pages, texts)
    requires (cursor == [] && at == 0) || cursor == [Cursor(outputRef, streamName, at)]
    ensures var p := chunk.page;
            && Collected(stream, p.followingOffset, pages + [p.bytes], texts + [chunk.text])
            && !Inside(stream, p.followingOffset) && p.followingOffset <= |stream|
            && (p.eof ==> p.followingOffset == |stream|)
            && (!p.eof ==> p.bytes != [] && at < p.followingOffset)
            && (!p.eof ==> chunk.nextCursor == [Cursor(outputRef, streamName, p.followingOffset)])
  {
    var r := ReadOutputText(stream, outputRef, streamName, cursor, limit, maxRead);
    chunk := r.value;
    CollectPage(stream, pages, texts, chunk.page);
  }

  lemma CollectedAll(stream: seq<byte>, pages: seq<seq<byte>>, texts: seq<seq<int>>)
    requires Collected(stream, |stream|, pages, texts)
    ensures Concat(pages) == stream && Concat(texts) == Text(stream)
  {
    assert stream[..|stream|] == stream && stream[|stream|..] == [] && Text([]) == [];
    assert Concat(texts) + [] == Concat(texts);
  }

  lemma CollectedNone(stream: seq<byte>)
    ensures Collected(stream, 0, [], [])
  {
    assert stream[0..] == stream && stream[..0] == [];
    var none: seq<seq<int>> := [];
    assert Concat(none) + Text(stream) == Text(stream);
  }

  /** A reader that follows nextCursor with any page limits: no byte lost or repeated, the texts of the
      pages concatenate to the text of the whole stream, and only the last page may be empty. */
  method FollowCursors(stream: seq<byte>, outputRef: string, streamName: string, maxRead: nat)
    returns (pages: seq<seq<byte>>, texts: seq<seq<int>>)
    requires 7 <= maxRead
    ensures Concat(pages) == stream
    ensures Concat(texts) == Text(stream)
    ensures |pages| == |texts| >= 1 && forall i :: 0 <= i < |pages| - 1 ==> pages[i] != []
  {
    pages, texts := [], [];
    var cursor: seq<Cursor> := [];
    ghost var at: nat := 0;
    var done := false;
    EndIsOutside(stream);
    CollectedNone(stream);
    while !done
      invariant Collected(stream, at, pages, texts)
      invariant forall i :: 0 <= i < |pages| - (if done then 1 else 0) ==> pages[i] != []
      invariant !done ==> (cursor == [] && at == 0) || cursor == [Cursor(outputRef, streamName, at)]
      invariant !Inside(stream, at)
      invariant done ==> at == |stream| && pages != []
      decreases !done, |stream| - at
    {
      var limit :| 1 <= limit <= maxRead;
      var chunk := ReadNext(stream, outputRef, streamName, cursor, limit, maxRead, at, pages, texts);
      pages, texts := pages + [chunk.page.bytes], texts + [chunk.text];
      cursor := chunk.nextCursor;
      done := chunk.page.eof;
      at := chunk.page.followingOffset;
    }
    CollectedAll(stream, pages, texts);
  }
}
