/** Resumable upload through a shared shell (src/core/transfer-service.ts, src/infra/shared-shell-transfer.ts): chunks
    go to a partial file, its fingerprint is compared, and only then is it published. Any remote operation may fail,
    with or without effect, and a write that reports success may still have stored something else; nobody else writes
    the two files. What each operation meets with is given in advance, so that a run is a function of its fates. */
module Upload {
  import opened Basics
  import Utf8

  type Bytes = seq<Utf8.byte>

  const CHUNK := 96 * 1024

  /** SHA-256 as an injective function. */
  datatype Digest = Digest(of: Bytes)
  datatype Fingerprint = Fingerprint(size: nat, sha256: Digest)

  function FingerprintOf(b: Bytes): Fingerprint {
    Fingerprint(|b|, Digest(b))
  }

  predicate FingerprintsMatch(left: Option<Bytes>, right: Fingerprint) {
    left.Some? && FingerprintOf(left.value).size == right.size && FingerprintOf(left.value).sha256 == right.sha256
  }

  /** What one operation meets with. `ok`: it reports success. `faithful`: a write that reports success stored its
      bytes. `effect`: one that fails took effect all the same, a write leaving `stored` behind. `unlinked`: a publish
      got as far as removing the partial's name. `read`: how many bytes a local read returns. `aborted`: the signal was
      raised. */
  datatype Fate = Fate(ok: bool, faithful: bool, effect: bool, unlinked: bool, stored: Bytes, read: nat, aborted: bool)

  const FINE := Fate(true, true, false, true, [], CHUNK, false)

  /** The two files, and the fates still to come; all operations after those are fine. `linked`: both names are one
      file, as an exclusive publish interrupted between its link and its unlink leaves them. `troubled`: some operation
      has failed for a reason outside the two files. */
  datatype Host = Host(part: Option<Bytes>, dest: Option<Bytes>, linked: bool, troubled: bool, fates: seq<Fate>)

  datatype Step = Step(host: Host, ok: bool)

  /** Two names of one file have one content. */
  predicate Consistent(h: Host) {
    h.linked ==> h.part.Some? && h.dest == h.part
  }

  function Next(h: Host): Fate {
    if h.fates == [] then FINE else h.fates[0]
  }

  function Later(h: Host): Host {
    if h.fates == [] then h else h.(fates := h.fates[1..])
  }

  function Trouble(h: Host): Host {
    Later(h).(troubled := true)
  }

  /** The contents of the partial file once a write has succeeded. */
  function AfterWrite(part: Option<Bytes>, bytes: Bytes, truncate: bool): Option<Bytes> {
    if truncate || part.None? then Some(bytes) else Some(part.value + bytes)
  }

  function Store(h: Host, part: Option<Bytes>): Host {
    h.(part := part, dest := if h.linked then part else h.dest)
  }

  /** cat > part, or cat >> part for a file that must exist. */
  function Written(h: Host, bytes: Bytes, truncate: bool): (r: Step) {
    var f := Next(h);
    if !truncate && h.part.None? then Step(h, false)
    else if f.ok && f.faithful then Step(Store(Later(h), AfterWrite(h.part, bytes, truncate)), true)
    else Step(if f.ok || f.effect then Store(Trouble(h), Some(f.stored)) else Trouble(h), f.ok)
  }

  /** A check, a mkdir or a fingerprint: it leaves the two files alone. */
  function Checked(h: Host): (r: Step) {
    if Next(h).ok then Step(Later(h), true) else Step(Trouble(h), false)
  }

  /** rm -f part. */
  function Removed(h: Host): (r: Step) {
    var f := Next(h);
    var h' := if f.ok then Later(h) else Trouble(h);
    Step(if f.ok || f.effect then h'.(part := None, linked := false) else h', f.ok)
  }

  /** mv -f part dest; of two names of one file it removes one, or does nothing. */
  function Replaced(h: Host): (r: Step) {
    var f := Next(h);
    var h' := if f.ok then Later(h) else Trouble(h);
    if h.part.None? then Step(h, false)
    else if h.linked then Step(if f.unlinked then h'.(part := None, linked := false) else h', f.ok)
    else Step(if f.ok || f.effect then h'.(dest := h.part, part := None) else h', f.ok)
  }

  /** ln part dest and rm -f part; an existing destination is never touched. */
  function Linked(h: Host): (r: Step) {
    var f := Next(h);
    if h.part.None? || h.dest.Some? then Step(Later(h), false)
    else if f.ok then Step(Later(h).(dest := h.part, part := None), true)
    else if !f.effect then Step(Trouble(h), false)
    else if f.unlinked then Step(Trouble(h).(dest := h.part, part := None), false)
    else Step(Trouble(h).(dest := h.part, linked := true), false)
  }

  /** The chunk loop from `position` on. */
  function Chunks(h: Host, staged: Bytes, position: nat): (r: Step)
    decreases |staged| - position
  {
    if position >= |staged| then Step(h, true)
    else if Next(h).aborted || Next(h).read == 0 then Step(Trouble(h), false)
    else
      var n := Min(Next(h).read, Min(CHUNK, |staged| - position));
      var w := Written(Later(h), staged[position..position + n], position == 0);
      if !w.ok then w else Chunks(w.host, staged, position + n)
  }

  /** uploadThroughSharedShell. */
  function Sent(h: Host, staged: Bytes, offset: nat): (r: Step) {
    if staged == [] then Written(h, [], true) else Chunks(h, staged, offset)
  }

  /** Mismatch: the checksum error. Failed: any other. */
  datatype Result = Published | Exists | Mismatch | Failed

  datatype Run = Run(host: Host, result: Result)

  /** The comparison after the last sending. */
  function Compared(h: Host, staged: Bytes): (r: Run) {
    if FingerprintsMatch(h.part, FingerprintOf(staged)) then Run(h, Published)
    else
      var removed := Removed(h);
      Run(removed.host, if removed.ok then Mismatch else Failed)
  }

  /** Once more from nothing. */
  function Restarted(h: Host, staged: Bytes): (r: Run) {
    var removed := Removed(h);
    if !removed.ok then Run(removed.host, Failed)
    else
      var sent := Sent(removed.host, staged, 0);
      var checked := Checked(sent.host);
      if !sent.ok then Run(sent.host, Failed)
      else if !checked.ok then Run(checked.host, Failed)
      else Compared(checked.host, staged)
  }

  /** Sends, compares, and starts once more if a resumed partial turns out wrong. */
  function Transferred(h: Host, staged: Bytes, offset: nat, resumed: bool): (r: Run) {
    var sent := Sent(h, staged, offset);
    var checked := Checked(sent.host);
    if !sent.ok then Run(sent.host, Failed)
    else if !checked.ok then Run(checked.host, Failed)
    else if !FingerprintsMatch(checked.host.part, FingerprintOf(staged)) && resumed then Restarted(checked.host, staged)
    else Compared(checked.host, staged)
  }

  /** The end of a publish: one that may not overwrite removes the partial if it was refused. */
  function PublishedBy(h: Host, overwrite: bool): (r: Step) {
    if overwrite then Replaced(h)
    else
      var linked := Linked(h);
      if linked.ok || Next(linked.host).aborted then linked else Step(Removed(linked.host).host, false)
  }

  /** The catch block. */
  function CleanedUp(r: Run, resume: bool): (r': Run) {
    if r.result.Published? || resume || Next(r.host).aborted then r else r.(host := Removed(r.host).host)
  }

  /** The try block. */
  function Tried(h: Host, staged: Bytes, overwrite: bool, offset: nat, resumed: bool): (r: Run) {
    var sent := Transferred(h, staged, offset, resumed);
    var published := PublishedBy(sent.host, overwrite);
    if !sent.result.Published? then sent else Run(published.host, if published.ok then Published else Failed)
  }

  function SentAndPublished(h: Host, staged: Bytes, overwrite: bool, resume: bool, offset: nat,
                            resumed: bool): (r: Run) {
    CleanedUp(Tried(h, staged, overwrite, offset, resumed), resume)
  }

  /** With what an existing partial file is good for. */
  function Resumed(h: Host, staged: Bytes, overwrite: bool, resume: bool): (r: Run) {
    var checked := Checked(h);
    if !resume then SentAndPublished(h, staged, overwrite, resume, 0, false)
    else if !checked.ok then Run(checked.host, Failed)
    else if h.part.None? then SentAndPublished(checked.host, staged, overwrite, resume, 0, false)
    else if |h.part.value| <= |staged|
      then SentAndPublished(checked.host, staged, overwrite, resume, |h.part.value|, true)
    else
      var removed := Removed(checked.host);
      if removed.ok then SentAndPublished(removed.host, staged, overwrite, resume, 0, false)
        else Run(removed.host, Failed)
  }

  /** With the parents in place. */
  function Prepared(h: Host, staged: Bytes, overwrite: bool, resume: bool): (r: Run) {
    var made := Checked(h);
    if made.ok then Resumed(made.host, staged, overwrite, resume) else Run(made.host, Failed)
  }

  /** #uploadFileThroughSharedShell. */
  function Uploaded(h: Host, staged: Bytes, overwrite: bool, resume: bool): (r: Run) {
    var safe := Checked(h);
    var read := Checked(safe.host);
    if !safe.ok then Run(safe.host, Failed)
    else if overwrite then Prepared(safe.host, staged, overwrite, resume)
    else if !read.ok then Run(read.host, Failed)
    else if h.dest.Some? then Run(read.host, Exists)
    else Prepared(read.host, staged, overwrite, resume)
  }

  /** What is left of the partial file behind the try block: without resume and without an abort a failed upload removes
      it, and nothing is left if that succeeds; otherwise it stays for the next one. */
  lemma FailureCleansUp(h: Host, staged: Bytes, overwrite: bool, resume: bool, offset: nat, resumed: bool)
    ensures var tried := Tried(h, staged, overwrite, offset, resumed);
            var r := SentAndPublished(h, staged, overwrite, resume, offset, resumed);
            var kept := tried.result.Published? || resume || Next(tried.host).aborted;
            && r.result == tried.result && r.host.dest == tried.host.dest
            && (kept ==> r.host == tried.host)
            && (!kept && Next(tried.host).ok ==> r.host.part.None? && !r.host.linked)
  {
  }

  // ---------------------------------------------------------------- what each part of an upload keeps

  /** What every operation keeps: one content of two names, a destination that is not linked, and troubles. */
  predicate Kept(h: Host, h': Host) {
    && Consistent(h') && (h.troubled ==> h'.troubled)
    && (!h.linked ==> !h'.linked && h'.dest == h.dest)
  }

  lemma WrittenFacts(h: Host, bytes: Bytes, truncate: bool)
    requires Consistent(h)
    ensures var r := Written(h, bytes, truncate);
            && Kept(h, r.host) && r.host.linked == h.linked
            && (r.ok && !r.host.troubled ==>
                r.host.part == AfterWrite(h.part, bytes, truncate) && (truncate || h.part.Some?))
            && (!r.ok ==> r.host.troubled || (!truncate && h.part.None?))
  {
  }

  lemma RemovedFacts(h: Host)
    requires Consistent(h)
    ensures var r := Removed(h);
            && Kept(h, r.host) && r.host.dest == h.dest && (h.linked && !r.ok ==> r.host.linked || r.host.part.None?)
            && (r.ok ==> r.host.part.None? && !r.host.linked && r.host.troubled == h.troubled)
            && (!r.ok ==> r.host.troubled)
  {
  }

  /** The contents of the partial file once all chunks from `position` on are written. */
  function Filled(part: Option<Bytes>, staged: Bytes, position: nat): Option<Bytes> {
    if position >= |staged| then part else AfterWrite(part, staged[position..], position == 0)
  }

  lemma FilledStep(part: Option<Bytes>, staged: Bytes, position: nat, n: nat)
    requires position < position + n <= |staged| && (position == 0 || part.Some?)
    ensures Filled(AfterWrite(part, staged[position..position + n], position == 0), staged, position + n)
         == Filled(part, staged, position)
  {
    var piece, rest := staged[position..position + n], staged[position + n..];
    assert piece + rest == staged[position..];
    assert position + n == |staged| ==> piece == staged[position..];
    if position > 0 {
      assert part.value + piece + rest == part.value + (piece + rest);
    }
  }

  /** What sending from `position` on leaves. */
  predicate Fills(h: Host, staged: Bytes, position: nat, r: Step) {
    && Kept(h, r.host) && r.host.linked == h.linked
    && (r.ok && !r.host.troubled ==> r.host.part == Filled(h.part, staged, position))
    && (!r.ok ==> r.host.troubled || (0 < position && h.part.None?))
  }

  lemma OneChunk(h: Host, staged: Bytes, position: nat, n: nat, r: Step)
    requires Consistent(h) && position < position + n <= |staged|
    requires var w := Written(h, staged[position..position + n], position == 0);
             if w.ok then Fills(w.host, staged, position + n, r) else r == w
    ensures Fills(h, staged, position, r)
  {
    WrittenFacts(h, staged[position..position + n], position == 0);
    if r.ok && !r.host.troubled {
      FilledStep(h.part, staged, position, n);
    }
  }

  lemma {:induction false} ChunksFacts(h: Host, staged: Bytes, position: nat)
    requires Consistent(h)
    ensures Fills(h, staged, position, Chunks(h, staged, position))
    decreases |staged| - position
  {
    if position < |staged| && !Next(h).aborted && Next(h).read > 0 {
      var n := Min(Next(h).read, Min(CHUNK, |staged| - position));
      var w := Written(Later(h), staged[position..position + n], position == 0);
      if w.ok {
        WrittenFacts(Later(h), staged[position..position + n], position == 0);
        ChunksFacts(w.host, staged, position + n);
      }
      OneChunk(Later(h), staged, position, n, Chunks(h, staged, position));
    }
  }

  lemma SentFacts(h: Host, staged: Bytes, offset: nat)
    requires Consistent(h) && offset <= |staged|
    ensures var r := Sent(h, staged, offset);
            && Kept(h, r.host) && r.host.linked == h.linked
            && (r.ok && !r.host.troubled ==>
                r.host.part == if offset == 0 then Some(staged) else Filled(h.part, staged, offset))
            && (!r.ok ==> r.host.troubled || (0 < offset && h.part.None?))
            && (0 < offset == |staged| ==> r == Step(h, true))
  {
    if staged == [] {
      WrittenFacts(h, [], true);
    } else {
      ChunksFacts(h, staged, offset);
      assert staged[0..] == staged;
    }
  }

  lemma ComparedFacts(h: Host, staged: Bytes)
    requires Consistent(h)
    ensures var r := Compared(h, staged);
            && Kept(h, r.host) && r.host.dest == h.dest && !r.result.Exists?
            && (r.result.Published? <==> h.part == Some(staged)) && (r.result.Published? ==> r.host == h)
            && (r.result.Failed? ==> r.host.troubled)
  {
    RemovedFacts(h);
  }

  /** From nothing: right unless troubled, and only a linked host's destination can change. */
  lemma FromNothing(h: Host, staged: Bytes)
    requires Consistent(h)
    ensures var sent := Sent(h, staged, 0);
            var checked := Checked(sent.host);
            var r := if !sent.ok then Run(sent.host, Failed) else if !checked.ok then Run(checked.host, Failed)
              else Compared(checked.host, staged);
            && Kept(h, r.host) && !r.result.Exists?
            && (r.result.Published? ==> r.host.part == Some(staged))
            && (!r.result.Published? ==> r.host.troubled)
  {
    SentFacts(h, staged, 0);
    var sent := Sent(h, staged, 0);
    if sent.ok && Checked(sent.host).ok {
      ComparedFacts(Checked(sent.host).host, staged);
    }
  }

  lemma RestartedFacts(h: Host, staged: Bytes)
    requires Consistent(h)
    ensures var r := Restarted(h, staged);
            && Kept(h, r.host) && !r.result.Exists? && r.host.dest == h.dest
            && (r.result.Published? ==> r.host.part == Some(staged))
            && (!r.result.Published? ==> r.host.troubled)
  {
    RemovedFacts(h);
    if Removed(h).ok {
      FromNothing(Removed(h).host, staged);
    }
  }

  // ---------------------------------------------------------------- transfer and publish

  /** How the sending starts: a resumed partial is continued at its end. */
  predicate Starts(h: Host, staged: Bytes, offset: nat, resumed: bool) {
    && Consistent(h) && offset <= |staged|
    && (if resumed then h.part.Some? && |h.part.value| == offset else offset == 0)
  }

  /** Continuing a partial file yields the staged file exactly if the partial is a prefix of it. */
  lemma ResumeIsRight(partial: Bytes, staged: Bytes)
    requires 0 < |partial| <= |staged|
    ensures FingerprintsMatch(Filled(Some(partial), staged, |partial|), FingerprintOf(staged)) <==>
            partial == staged[..|partial|]
  {
    var whole := partial + staged[|partial|..];
    assert whole[..|partial|] == partial;
    assert |partial| == |staged| ==> whole == partial && staged[..|partial|] == staged;
    assert partial == staged[..|partial|] ==> whole == staged;
  }

  /** Sending succeeds only with the staged bytes in place, and fails only by trouble: a wrong partial is repaired. On a
      host that is not linked, or where a resumed partial is as long as the staged file, the destination is
      untouched. */
  lemma TransferredFacts(h: Host, staged: Bytes, offset: nat, resumed: bool)
    requires Starts(h, staged, offset, resumed)
    ensures var r := Transferred(h, staged, offset, resumed);
            && Kept(h, r.host) && !r.result.Exists?
            && (r.result.Published? ==> r.host.part == Some(staged))
            && (!r.result.Published? ==> r.host.troubled)
            && (!h.linked || 0 < offset == |staged| ==> r.host.dest == h.dest)
  {
    if offset == 0 && !resumed {
      FromNothing(h, staged);
    } else {
      SentFacts(h, staged, offset);
      var sent := Sent(h, staged, offset);
      if sent.ok && Checked(sent.host).ok {
        ComparedFacts(Checked(sent.host).host, staged);
        RestartedFacts(Checked(sent.host).host, staged);
      }
    }
  }

  /** A publish moves the whole partial or leaves the destination alone. */
  /** An exclusive publish takes the partial's file over, or is refused; interrupted it leaves the destination alone,
      both names on the file, or only the new one. */
  lemma ExclusivePublish(h: Host)
    ensures var r := Linked(h);
            && (r.ok <==> h.part.Some? && h.dest.None? && Next(h).ok)
            && (r.ok ==> r.host.dest == h.part && r.host.part.None?)
            && (!r.ok ==>
                  || (r.host.dest == h.dest && r.host.part == h.part && r.host.linked == h.linked)
                  || (h.dest.None? && r.host.dest == h.part && r.host.part == h.part && r.host.linked)
                  || (h.dest.None? && r.host.dest == h.part && r.host.part.None? && r.host.linked == h.linked))
  {
  }

  /** A replace without a partial is refused; otherwise it moves the file or fails, and of two names of one file at most
      the partial's goes. */
  lemma ReplacingPublish(h: Host)
    ensures var r := Replaced(h);
            && (r.ok <==> h.part.Some? && Next(h).ok)
            && (h.part.Some? && !h.linked && r.ok ==> r.host.dest == h.part && r.host.part.None?)
            && (h.linked ==> r.host.dest == h.dest && (r.host.part == h.part || (r.host.part.None? && !r.host.linked)))
            && (h.linked && h.part.Some? && Next(h).unlinked ==> r.host.part.None?)
  {
  }

  lemma PublishedFacts(h: Host, overwrite: bool)
    requires Consistent(h) && h.part.Some?
    ensures var r := PublishedBy(h, overwrite);
            && Consistent(r.host) && (h.troubled ==> r.host.troubled)
            && (r.host.dest == h.dest || (r.host.dest == h.part && (overwrite || h.dest.None?)))
            && (r.ok ==> r.host.dest == h.part && (overwrite || h.dest.None?))
            && (!r.ok ==> r.host.troubled || (!overwrite && h.dest.Some?))
            && (r.ok && !h.linked ==> r.host.part.None? && !r.host.linked)
  {
    if !overwrite && !Linked(h).ok {
      RemovedFacts(Linked(h).host);
    }
  }

  /** What a whole upload promises of its end, wherever it starts. */
  predicate Ends(h: Host, staged: Bytes, overwrite: bool, r: Run) {
    && (r.result.Published? ==> r.host.dest == Some(staged) && (overwrite || h.dest.None?))
    && (r.result.Published? && !h.linked ==> r.host.part.None?)
    && (h.troubled ==> r.host.troubled)
    && (!r.host.troubled ==> (r.result.Published? <==> overwrite || h.dest.None?))
  }

  /** The destination is what it was or the staged file; an error that says so left it as it was. */
  predicate Intact(h: Host, staged: Bytes, overwrite: bool, r: Run) {
    && (r.host.dest == h.dest || (r.host.dest == Some(staged) && (overwrite || h.dest.None?)))
    && (r.result.Mismatch? || r.result.Exists? ==> r.host.dest == h.dest)
  }

  lemma SentAndPublishedFacts(h: Host, staged: Bytes, overwrite: bool, resume: bool, offset: nat, resumed: bool)
    requires Starts(h, staged, offset, resumed) && (h.linked ==> overwrite)
    ensures var r := SentAndPublished(h, staged, overwrite, resume, offset, resumed);
            && Ends(h, staged, overwrite, r)
            && (!h.linked || 0 < offset == |staged| ==> Intact(h, staged, overwrite, r))
            && Consistent(r.host)
  {
    TransferredFacts(h, staged, offset, resumed);
    var sent := Transferred(h, staged, offset, resumed);
    if sent.result.Published? {
      PublishedFacts(sent.host, overwrite);
      RemovedFacts(PublishedBy(sent.host, overwrite).host);
    } else {
      RemovedFacts(sent.host);
    }
  }

  // ---------------------------------------------------------------- the results

  /** What a caller can check before an upload: the partial is a file of its own, or the destination may not be
      overwritten, or the upload resumes from a partial so long that nothing is written before it is unlinked. */
  predicate Safe(h: Host, staged: Bytes, overwrite: bool, resume: bool) {
    !h.linked || !overwrite || (resume && h.part.Some? && h.part.value != [] && |h.part.value| >= |staged|)
  }

  lemma ResumedFacts(h: Host, staged: Bytes, overwrite: bool, resume: bool)
    requires Consistent(h) && (h.linked ==> overwrite)
    ensures var r := Resumed(h, staged, overwrite, resume);
            Ends(h, staged, overwrite, r) && Consistent(r.host)
              && (Safe(h, staged, overwrite, resume) ==> Intact(h, staged, overwrite, r))
  {
    var checked := Checked(h);
    if !resume {
      SentAndPublishedFacts(h, staged, overwrite, resume, 0, false);
    } else if checked.ok {
      RemovedFacts(checked.host);
      if h.part.None? {
        SentAndPublishedFacts(checked.host, staged, overwrite, resume, 0, false);
      } else if |h.part.value| <= |staged| {
        SentAndPublishedFacts(checked.host, staged, overwrite, resume, |h.part.value|, true);
      } else if Removed(checked.host).ok {
        SentAndPublishedFacts(Removed(checked.host).host, staged, overwrite, resume, 0, false);
      }
    }
  }

  /** Every upload, on every host and with all fates: a normal return means that the destination is the staged file, and
      without trouble it returns normally exactly if it may write there; a safe one leaves the destination as it was or
      as the staged file at every return. */
  lemma UploadedFacts(h: Host, staged: Bytes, overwrite: bool, resume: bool)
    requires Consistent(h)
    ensures var r := Uploaded(h, staged, overwrite, resume);
            Ends(h, staged, overwrite, r) && Consistent(r.host)
              && (Safe(h, staged, overwrite, resume) ==> Intact(h, staged, overwrite, r))
  {
    var safe := Checked(h);
    var read := Checked(safe.host);
    var start := if overwrite then safe else read;
    if safe.ok && start.ok && (overwrite || h.dest.None?) && Checked(start.host).ok {
      ResumedFacts(Checked(start.host).host, staged, overwrite, resume);
    }
  }

  /** The files of an upload that meets with the given fates. */
  function With(h: Host, fates: seq<Fate>): Host {
    h.(fates := fates)
  }

  ghost predicate AlwaysIntact(h: Host, staged: Bytes, overwrite: bool, resume: bool) {
    forall fates :: Intact(h, staged, overwrite, Uploaded(With(h, fates), staged, overwrite, resume))
  }

  /** The destination is the old or the staged file at every return, whatever the operations meet with, if and only if
      the upload is safe. */
  lemma IntactExactlyWhenSafe(h: Host, staged: Bytes, overwrite: bool, resume: bool)
    requires Consistent(h)
    ensures AlwaysIntact(h, staged, overwrite, resume) <==> Safe(h, staged, overwrite, resume)
  {
    if Safe(h, staged, overwrite, resume) {
      forall fates ensures Intact(h, staged, overwrite, Uploaded(With(h, fates), staged, overwrite, resume)) {
        UploadedFacts(With(h, fates), staged, overwrite, resume);
      }
    } else {
      var fates := DamagingFates(h, staged, resume);
      assert !Intact(h, staged, overwrite, Uploaded(With(h, fates), staged, overwrite, resume));
    }
  }

  /** Bytes that neither file holds. */
  function Rubbish(h: Host, staged: Bytes): Bytes
    requires h.dest.Some?
  {
    seq(|h.dest.value| + |staged| + 1, _ => 0)
  }

  /** A write that fails after it has stored something else. */
  function Spoiling(h: Host, staged: Bytes): Fate
    requires h.dest.Some?
  {
    Fate(false, false, true, false, Rubbish(h, staged), 0, false)
  }

  /** The first write of an unsafe upload goes into the destination. */
  lemma FirstWriteDamages(h: Host, staged: Bytes, resume: bool, offset: nat, resumed: bool, rubbish: Bytes, spoil: Fate)
    requires h.linked && h.part.Some? && h.dest == h.part && (offset < |staged| || staged == [])
    requires spoil == Fate(false, false, true, false, rubbish, 0, false)
    requires h.fates == if staged == [] then [spoil] else [FINE, spoil]
    ensures SentAndPublished(h, staged, true, resume, offset, resumed).host.dest == Some(rubbish)
  {
    var sent := Sent(h, staged, offset);
    if staged != [] {
      assert Later(h).fates == [spoil] && Next(Later(h)) == spoil;
    }
    assert sent == Step(h.(part := Some(rubbish), dest := Some(rubbish), troubled := true, fates := []), false);
    assert Transferred(h, staged, offset, resumed) == Run(sent.host, Failed);
  }

  lemma DamagingFates(h: Host, staged: Bytes, resume: bool) returns (fates: seq<Fate>)
    requires Consistent(h) && !Safe(h, staged, true, resume)
    ensures var r := Uploaded(With(h, fates), staged, true, resume);
            r.host.dest != h.dest && r.host.dest != Some(staged)
  {
    var rubbish, spoil := Rubbish(h, staged), Spoiling(h, staged);
    var write := if staged == [] then [spoil] else [FINE, spoil];
    var start := With(h, write);
    if resume {
      fates := [FINE, FINE, FINE] + write;
      FirstWriteDamages(start, staged, resume, |h.part.value|, true, rubbish, spoil);
      assert fates[1..] == [FINE, FINE] + write && fates[1..][1..] == [FINE] + write && fates[1..][1..][1..] == write;
      assert Uploaded(With(h, fates), staged, true, resume) == Resumed(With(h, [FINE] + write), staged, true, resume);
    } else {
      fates := [FINE, FINE] + write;
      FirstWriteDamages(start, staged, resume, 0, false, rubbish, spoil);
      assert fates[1..] == [FINE] + write && fates[1..][1..] == write;
      assert Uploaded(With(h, fates), staged, true, resume) == Resumed(start, staged, true, resume);
    }
  }

  // ---------------------------------------------------------------- how a host gets linked, and what follows

  /** Two operations for each chunk. */
  function FineChunks(size: nat): (r: seq<Fate>) {
    if size == 0 then [] else [FINE, FINE] + FineChunks(size - Min(CHUNK, size))
  }

  /** A read and a write that are fine. */
  lemma FineChunk(h: Host, staged: Bytes, position: nat, rest: seq<Fate>)
    requires !h.linked && (position == 0 || h.part.Some?) && position < |staged| && h.fates == [FINE, FINE] + rest
    ensures var n := Min(CHUNK, |staged| - position);
            var part := AfterWrite(h.part, staged[position..position + n], position == 0);
            Chunks(h, staged, position) == Chunks(h.(part := part, fates := rest), staged, position + n)
  {
    assert h.fates[1..] == [FINE] + rest && h.fates[1..][1..] == rest;
    assert Later(h) == h.(fates := [FINE] + rest) && Later(Later(h)) == h.(fates := rest);
  }

  lemma {:induction false} FineSending(h: Host, staged: Bytes, position: nat, later: seq<Fate>)
    requires !h.linked && (position == 0 || h.part.Some?) && position <= |staged|
    requires h.fates == FineChunks(|staged| - position) + later
    ensures Chunks(h, staged, position) == Step(h.(part := Filled(h.part, staged, position), fates := later), true)
    decreases |staged| - position
  {
    var size := |staged| - position;
    if size > 0 {
      var n := Min(CHUNK, size);
      var part, rest := AfterWrite(h.part, staged[position..position + n], position == 0), FineChunks(size - n) + later;
      assert h.fates == [FINE, FINE] + rest;
      FineChunk(h, staged, position, rest);
      FineSending(h.(part := part, fates := rest), staged, position + n, later);
      FilledStep(h.part, staged, position, n);
    } else {
      assert h.fates == later;
    }
  }

  const ABORTED := Fate(false, false, false, false, [], 0, true)

  /** The link was made, and the shell was stopped before it removed the partial's name. */
  const INTERRUPTED := Fate(false, false, true, false, [], 0, false)

  /** An upload that may not overwrite, stopped in its publish. */
  function InterruptedUpload(staged: Bytes): Run {
    Uploaded(Host(None, None, false, false, [FINE, FINE, FINE] + (FineChunks(|staged|) + [FINE, INTERRUPTED, ABORTED])),
             staged, false, false)
  }

  lemma InterruptedLeavesLink(staged: Bytes)
    requires staged != []
    ensures InterruptedUpload(staged) == Run(Host(Some(staged), Some(staged), true, true, [ABORTED]), Failed)
  {
    var last := [FINE, INTERRUPTED, ABORTED];
    var sending := FineChunks(|staged|) + last;
    var fates := [FINE, FINE, FINE] + sending;
    assert fates[1..] == [FINE, FINE] + sending && fates[1..][1..] == [FINE] + sending
      && fates[1..][1..][1..] == sending;
    var h := Host(None, None, false, false, sending);
    assert InterruptedUpload(staged) == SentAndPublished(h, staged, false, false, 0, false);
    FineSending(h, staged, 0, last);
    assert staged[0..] == staged;
    LinkedAtTheEnd(h, staged);
  }

  lemma LinkedAtTheEnd(h: Host, staged: Bytes)
    requires h.dest.None? && !h.linked && staged != []
    requires Chunks(h, staged, 0) == Step(Host(Some(staged), None, false, false, [FINE, INTERRUPTED, ABORTED]), true)
    ensures SentAndPublished(h, staged, false, false, 0, false) ==
            Run(Host(Some(staged), Some(staged), true, true, [ABORTED]), Failed)
  {
    var sent := Host(Some(staged), None, false, false, [INTERRUPTED, ABORTED]);
    assert Transferred(h, staged, 0, false) == Run(sent, Published);
    assert PublishedBy(sent, false) == Step(Host(Some(staged), Some(staged), true, true, [ABORTED]), false);
  }

  /** The guarantee fails on hosts that the code itself produces: after an interrupted exclusive publish of more than
      one chunk, an upload of the same bytes that overwrites from the start and is aborted after its first chunk leaves
      a destination that holds that chunk only. */
  lemma InterruptedPublishThenDamage(staged: Bytes)
    requires |staged| > CHUNK
    ensures var first := InterruptedUpload(staged).host;
            var second := Uploaded(With(first, [FINE, FINE, FINE, FINE, ABORTED]), staged, true, false);
            && first.dest == Some(staged) && second.result.Failed?
            && second.host.dest == Some(staged[..CHUNK]) && second.host.dest != first.dest
  {
    InterruptedLeavesLink(staged);
    var first := InterruptedUpload(staged).host;
    var chunk := staged[..CHUNK];
    var start := With(first, [FINE, FINE, ABORTED]);
    var cut := start.(part := Some(chunk), dest := Some(chunk));
    assert Written(Later(start), staged[0..CHUNK], true) == Step(With(cut, [ABORTED]), true);
    assert Chunks(With(cut, [ABORTED]), staged, CHUNK) == Step(With(cut, []).(troubled := true), false);
    assert Chunks(start, staged, 0) == Step(With(cut, []).(troubled := true), false);
    var fates := [FINE, FINE, FINE, FINE, ABORTED];
    assert fates[1..][1..] == [FINE, FINE, ABORTED];
    assert Uploaded(With(first, fates), staged, true, false) == SentAndPublished(start, staged, true, false, 0, false);
  }

  // ---------------------------------------------------------------- the code itself

  class RemoteHost {
    var part: Option<Bytes>
    var dest: Option<Bytes>
    var linked: bool
    var troubled: bool
    var fates: seq<Fate>

    ghost function View(): (h: Host) reads this {
      Host(part, dest, linked, troubled, fates)
    }

    /** What the next operation meets with. */
    method Meet() returns (f: Fate)
      modifies this
      ensures f == Next(old(View())) && View() == (if f.ok then Later(old(View())) else Trouble(old(View())))
    {
      f := FINE;
      if fates != [] {
        f, fates := fates[0], fates[1..];
      }
      troubled := troubled || !f.ok;
    }

    method Write(bytes: Bytes, truncate: bool) returns (ok: bool)
      modifies this
      ensures Step(View(), ok) == Written(old(View()), bytes, truncate)
    {
      if !truncate && part.None? {
        return false;
      }
      var f := Meet();
      if f.ok && f.faithful {
        part := if truncate || part.None? then Some(bytes) else Some(part.value + bytes);
      } else if f.ok || f.effect {
        part := Some(f.stored);
      }
      troubled := troubled || !f.faithful || !f.ok;
      if linked && (f.ok || f.effect) {
        dest := part;
      }
      ok := f.ok;
    }

    method Check() returns (ok: bool)
      modifies this
      ensures Step(View(), ok) == Checked(old(View()))
    {
      var f := Meet();
      ok := f.ok;
    }

    method RemovePart() returns (ok: bool)
      modifies this
      ensures Step(View(), ok) == Removed(old(View()))
    {
      var f := Meet();
      if f.ok || f.effect {
        part, linked := None, false;
      }
      ok := f.ok;
    }

    method ReplaceFile() returns (ok: bool)
      modifies this
      ensures Step(View(), ok) == Replaced(old(View()))
    {
      if part.None? {
        return false;
      }
      var f := Meet();
      if linked {
        if f.unlinked {
          part, linked := None, false;
        }
      } else if f.ok || f.effect {
        dest, part := part, None;
      }
      ok := f.ok;
    }

    method PublishExclusive() returns (ok: bool)
      modifies this
      ensures Step(View(), ok) == Linked(old(View()))
    {
      if part.None? || dest.Some? {
        fates := if fates == [] then [] else fates[1..];
        return false;
      }
      var f := Meet();
      if f.ok || f.effect {
        dest := part;
        if f.ok || f.unlinked {
          part := None;
        } else {
          linked := true;
        }
      }
      ok := f.ok;
    }
  }

  /** uploadThroughSharedShell: the local reads may come back short. */
  method UploadThroughSharedShell(host: RemoteHost, staged: Bytes, offset: nat) returns (ok: bool)
    requires offset <= |staged|
    modifies host
    ensures Step(host.View(), ok) == Sent(old(host.View()), staged, offset)
  {
    if |staged| == 0 {
      ok := host.Write([], true);
      return;
    }
    var position := offset;
    ok := true;
    while position < |staged|
      invariant offset <= position <= |staged| && ok
      invariant Chunks(host.View(), staged, position) == Chunks(old(host.View()), staged, offset)
    {
      ghost var before := host.View();
      var requested := Min(CHUNK, |staged| - position);
      var f := ReadLocal(host);
      if f.aborted || f.read == 0 {
        host.troubled := true;
        return false;
      }
      var bytesRead := Min(f.read, requested);
      ok := host.Write(staged[position..position + bytesRead], position == 0);
      ChunkTaken(before, staged, position, bytesRead, Step(host.View(), ok));
      if !ok {
        return;
      }
      position := position + bytesRead;
    }
  }

  /** Before each chunk the signal is looked at and the local file read. */
  method ReadLocal(host: RemoteHost) returns (f: Fate)
    modifies host
    ensures f == Next(old(host.View())) && host.View() == Later(old(host.View()))
  {
    f := if host.fates == [] then FINE else host.fates[0];
    host.fates := if host.fates == [] then [] else host.fates[1..];
  }

  lemma ChunkTaken(h: Host, staged: Bytes, position: nat, n: nat, w: Step)
    requires position < |staged| && !Next(h).aborted && Next(h).read != 0
    requires n == Min(Next(h).read, Min(CHUNK, |staged| - position))
    requires w == Written(Later(h), staged[position..position + n], position == 0)
    ensures Chunks(h, staged, position) == if w.ok then Chunks(w.host, staged, position + n) else w
  {
  }

  method Compare(host: RemoteHost, staged: Bytes) returns (result: Result)
    modifies host
    ensures Run(host.View(), result) == Compared(old(host.View()), staged)
  {
    if FingerprintsMatch(host.part, FingerprintOf(staged)) {
      return Published;
    }
    var ok := host.RemovePart();
    return if ok then Mismatch else Failed;
  }

  method Transfer(host: RemoteHost, staged: Bytes, offset: nat, resumed: bool) returns (result: Result)
    requires offset <= |staged|
    modifies host
    ensures Run(host.View(), result) == Transferred(old(host.View()), staged, offset, resumed)
  {
    var ok := UploadThroughSharedShell(host, staged, offset);
    if !ok {
      return Failed;
    }
    ok := host.Check();
    if !ok {
      return Failed;
    }
    if !FingerprintsMatch(host.part, FingerprintOf(staged)) && resumed {
      ok := host.RemovePart();
      if !ok {
        return Failed;
      }
      ok := UploadThroughSharedShell(host, staged, 0);
      if !ok {
        return Failed;
      }
      ok := host.Check();
      if !ok {
        return Failed;
      }
    }
    result := Compare(host, staged);
  }

  method Publish(host: RemoteHost, overwrite: bool) returns (ok: bool)
    modifies host
    ensures Step(host.View(), ok) == PublishedBy(old(host.View()), overwrite)
  {
    if overwrite {
      ok := host.ReplaceFile();
    } else {
      ok := host.PublishExclusive();
      if !ok && (host.fates == [] || !host.fates[0].aborted) {
        var _ := host.RemovePart();
      }
    }
  }

  /** The try block and its catch. */
  method SendAndPublish(host: RemoteHost, staged: Bytes, overwrite: bool, resume: bool, offset: nat, resumed: bool)
    returns (result: Result)
    requires offset <= |staged|
    modifies host
    ensures Run(host.View(), result) == SentAndPublished(old(host.View()), staged, overwrite, resume, offset, resumed)
  {
    result := Transfer(host, staged, offset, resumed);
    if result.Published? {
      var ok := Publish(host, overwrite);
      if !ok {
        result := Failed;
      }
    }
    if !result.Published? && !resume && (host.fates == [] || !host.fates[0].aborted) {
      var _ := host.RemovePart();
    }
  }

  method UploadPrepared(host: RemoteHost, staged: Bytes, overwrite: bool, resume: bool) returns (result: Result)
    modifies host
    ensures Run(host.View(), result) == Resumed(old(host.View()), staged, overwrite, resume)
  {
    var offset, resumed := 0, false;
    if resume {
      var ok := host.Check();
      if !ok {
        return Failed;
      }
      if host.part.Some? {
        if |host.part.value| <= |staged| {
          offset, resumed := |host.part.value|, true;
        } else {
          ok := host.RemovePart();
          if !ok {
            return Failed;
          }
        }
      }
    }
    result := SendAndPublish(host, staged, overwrite, resume, offset, resumed);
  }

  /** #uploadFileThroughSharedShell, on any host: whatever the partial holds, whatever the operations do, and whether or
      not the two names are one file. */
  method UploadFile(host: RemoteHost, staged: Bytes, overwrite: bool, resume: bool) returns (result: Result)
    requires Consistent(host.View())
    modifies host
    ensures Consistent(host.View())
    ensures result.Published? ==> host.dest == Some(staged) && (overwrite || old(host.dest).None?)
    ensures result.Published? && !old(host.linked) ==> host.part.None?
    ensures !host.troubled ==> (result.Published? <==> overwrite || old(host.dest).None?)
    ensures Safe(old(host.View()), staged, overwrite, resume) ==>
              && (host.dest == old(host.dest) || (host.dest == Some(staged) && (overwrite || old(host.dest).None?)))
              && (result.Mismatch? || result.Exists? ==> host.dest == old(host.dest))
    ensures Run(host.View(), result) == Uploaded(old(host.View()), staged, overwrite, resume)
  {
    UploadedFacts(host.View(), staged, overwrite, resume);
    var ok := host.Check();
    if !ok {
      return Failed;
    }
    if !overwrite {
      ok := host.Check();
      if !ok {
        return Failed;
      }
      if host.dest.Some? {
        return Exists;
      }
    }
    ok := host.Check();
    if !ok {
      return Failed;
    }
    result := UploadPrepared(host, staged, overwrite, resume);
  }
}
