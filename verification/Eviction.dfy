/** Startup adoption of retained outputs (src/core/output-store.ts): what is over the limits is evicted in
    (expiry, reference) order, and the survivors are registered in the order in which they were found. */
module Eviction {
  import opened OutputQuota

  datatype Entry = Entry(reference: Ref, expiresAtMs: int, bytes: nat)

  /** The order of strings by their characters. */
  predicate Less(a: string, b: string) {
    b != [] && (a == [] || a[0] < b[0] || (a[0] == b[0] && Less(a[1..], b[1..])))
  }

  lemma {:induction false} LessIsStrictOrder(a: string, b: string, c: string)
    ensures !Less(a, a)
    ensures a != b ==> Less(a, b) || Less(b, a)
    ensures Less(a, b) && Less(b, c) ==> Less(a, c)
    ensures Less(a, b) ==> !Less(b, a)
    decreases |a| + |b| + |c|
  {
    if a != [] && b != [] {
      if a[0] == b[0] && a[1..] == b[1..] {
        assert a == [a[0]] + a[1..] == b;
      }
      if c != [] {
        LessIsStrictOrder(a[1..], b[1..], c[1..]);
      } else {
        LessIsStrictOrder(a[1..], b[1..], c);
      }
    } else if a != [] {
      LessIsStrictOrder(a[1..], b, c);
    }
  }

  /** The comparator of the sort. */
  predicate Before(a: Entry, b: Entry) {
    a.expiresAtMs < b.expiresAtMs || (a.expiresAtMs == b.expiresAtMs && Less(a.reference, b.reference))
  }

  lemma BeforeIsStrictOrder(a: Entry, b: Entry, c: Entry)
    ensures a.reference != b.reference ==> Before(a, b) || Before(b, a)
    ensures Before(a, b) && Before(b, c) ==> Before(a, c)
    ensures Before(a, b) ==> !Before(b, a)
  {
    LessIsStrictOrder(a.reference, b.reference, c.reference);
  }

  ghost predicate Ordered(s: seq<Entry>) {
    forall i, j :: 0 <= i < j < |s| ==> Before(s[i], s[j])
  }

  ghost predicate Distinct(s: seq<Entry>) {
    forall i, j :: 0 <= i < j < |s| ==> s[i].reference != s[j].reference
  }

  function Inserted(s: seq<Entry>, e: Entry): (r: seq<Entry>) {
    if s == [] then [e]
    else if Before(e, s[0]) then [e] + s
    else [s[0]] + Inserted(s[1..], e)
  }

  function Sorted(s: seq<Entry>): (r: seq<Entry>) {
    if s == [] then [] else Inserted(Sorted(s[1..]), s[0])
  }

  lemma {:induction false} InsertedMeaning(s: seq<Entry>, e: Entry)
    requires Ordered(s) && forall i :: 0 <= i < |s| ==> s[i].reference != e.reference
    ensures Ordered(Inserted(s, e)) && |Inserted(s, e)| == |s| + 1
    ensures forall x :: x in Inserted(s, e) <==> x in s || x == e
  {
    var r := Inserted(s, e);
    if s != [] {
      assert s == [s[0]] + s[1..];
      if Before(e, s[0]) {
        forall j | 0 < j < |r| ensures Before(e, r[j]) {
          BeforeIsStrictOrder(e, s[0], r[j]);
        }
      } else {
        BeforeIsStrictOrder(e, s[0], s[0]);
        InsertedMeaning(s[1..], e);
        forall j | 0 < j < |r| ensures Before(s[0], r[j]) {
          assert r[j] in r[1..];
        }
      }
    }
  }

  /** The sort is a permutation of distinct entries into the comparator's order. */
  lemma {:induction false} SortedMeaning(s: seq<Entry>)
    requires Distinct(s)
    ensures Ordered(Sorted(s)) && Distinct(Sorted(s)) && |Sorted(s)| == |s|
    ensures forall x :: x in Sorted(s) <==> x in s
  {
    if s != [] {
      assert s == [s[0]] + s[1..];
      SortedMeaning(s[1..]);
      forall i | 0 <= i < |Sorted(s[1..])| ensures Sorted(s[1..])[i].reference != s[0].reference {
        assert Sorted(s[1..])[i] in s[1..];
      }
      InsertedMeaning(Sorted(s[1..]), s[0]);
      OrderedMeansDistinct(s);
    }
  }

  lemma OrderedMeansDistinct(s: seq<Entry>)
    requires Distinct(s) && Ordered(Sorted(s)) && forall x :: x in Sorted(s) <==> x in s
    ensures Distinct(Sorted(s))
  {
    var r := Sorted(s);
    forall i, j | 0 <= i < j < |r| ensures r[i].reference != r[j].reference {
      BeforeIsStrictOrder(r[i], r[j], r[i]);
      assert r[i] in s && r[j] in s;
    }
  }

  // ---------------------------------------------------------------- totals

  function TotalBytes(s: seq<Entry>): nat {
    if s == [] then 0 else s[0].bytes + TotalBytes(s[1..])
  }

  predicate Fits(s: seq<Entry>, maxBytes: nat, maxEntries: nat) {
    TotalBytes(s) <= maxBytes && |s| <= maxEntries
  }

  function ChargesOf(s: seq<Entry>): (r: map<Ref, nat>) {
    if s == [] then map[] else ChargesOf(s[1..])[s[0].reference := s[0].bytes]
  }

  function References(s: seq<Entry>): (r: set<Ref>) {
    if s == [] then {} else References(s[1..]) + {s[0].reference}
  }

  lemma {:induction false} ReferenceOf(s: seq<Entry>, i: nat)
    requires i < |s|
    ensures s[i].reference in References(s)
  {
    if i > 0 {
      ReferenceOf(s[1..], i - 1);
    }
  }

  lemma {:induction false} Referenced(s: seq<Entry>, k: Ref) returns (i: nat)
    requires k in References(s)
    ensures i < |s| && s[i].reference == k
  {
    if s[0].reference == k {
      i := 0;
    } else {
      i := Referenced(s[1..], k);
      i := i + 1;
    }
  }

  lemma {:induction false} ChargesKeys(s: seq<Entry>)
    ensures ChargesOf(s).Keys == References(s)
  {
    if s != [] {
      ChargesKeys(s[1..]);
    }
  }

  lemma {:induction false} ChargesAt(s: seq<Entry>, i: nat)
    requires Distinct(s) && i < |s|
    ensures s[i].reference in ChargesOf(s) && ChargesOf(s)[s[i].reference] == s[i].bytes
  {
    if i > 0 {
      assert s[1..][i - 1] == s[i];
      ChargesAt(s[1..], i - 1);
    }
  }

  lemma {:induction false} ChargesSum(s: seq<Entry>)
    requires Distinct(s)
    ensures Sum(ChargesOf(s)) == TotalBytes(s) && |ChargesOf(s)| == |s|
  {
    if s != [] {
      var rest := ChargesOf(s[1..]);
      ChargesSum(s[1..]);
      ChargesKeys(s[1..]);
      if s[0].reference in rest {
        var j := Referenced(s[1..], s[0].reference);
      }
      SumPut(rest, s[0].reference, s[0].bytes);
      SumWithout(rest, s[0].reference);
      Put(rest, s[0].reference, s[0].bytes);
    }
  }

  lemma {:induction false} SuffixesShrink(s: seq<Entry>, i: nat, j: nat)
    requires i <= j <= |s|
    ensures TotalBytes(s[j..]) <= TotalBytes(s[i..])
    decreases j - i
  {
    if i < j {
      assert s[i..][1..] == s[i + 1..];
      SuffixesShrink(s, i + 1, j);
    }
  }

  // ---------------------------------------------------------------- registration never fails

  /** `q` holds part of what `kept` allows. */
  ghost predicate Part(q: Quota, kept: map<Ref, nat>) {
    forall k :: k in q.charges ==> k in kept && q.charges[k] == kept[k]
  }

  lemma RoomForMore(q: Quota, kept: map<Ref, nat>, reference: Ref)
    requires Valid(q) && Part(q, kept) && reference in kept && reference !in q.charges
    requires Sum(kept) <= q.maxBytes && |kept| <= q.maxEntries
    ensures Track(q, reference, kept[reference]).Registered?
    ensures Valid(Track(q, reference, kept[reference]).quota) && Part(Track(q, reference, kept[reference]).quota, kept)
  {
    OneMoreFits(q, kept, reference);
    TrackMeaning(q, reference, kept[reference]);
  }

  lemma OneMoreFits(q: Quota, kept: map<Ref, nat>, reference: Ref)
    requires Valid(q) && Part(q, kept) && reference in kept && reference !in q.charges
    ensures q.total + kept[reference] <= Sum(kept) && |q.charges| + 1 <= |kept|
  {
    var more := q.charges[reference := kept[reference]];
    SumPut(q.charges, reference, kept[reference]);
    SumWithout(q.charges, reference);
    SumCovered(more, kept);
    Put(q.charges, reference, kept[reference]);
    FewerKeys(more, kept);
  }

  lemma {:induction false} FewerKeys(a: map<Ref, nat>, b: map<Ref, nat>)
    requires a.Keys <= b.Keys
    ensures |a| <= |b|
    decreases |a|
  {
    if a != map[] {
      var k :| k in a;
      Smaller(a, k);
      Smaller(b, k);
      FewerKeys(a - {k}, b - {k});
    }
  }

  /** How many entries are evicted. */
  function Cut(s: seq<Entry>, maxBytes: nat, maxEntries: nat): (k: nat)
    ensures k <= |s|
  {
    if s == [] || Fits(s, maxBytes, maxEntries) then 0 else 1 + Cut(s[1..], maxBytes, maxEntries)
  }

  /** An entry is evicted exactly if it and all that outlive it do not fit: the shortest prefix that helps. */
  lemma {:induction false} CutMeaning(s: seq<Entry>, maxBytes: nat, maxEntries: nat)
    ensures Fits(s[Cut(s, maxBytes, maxEntries)..], maxBytes, maxEntries)
    ensures forall j :: 0 <= j < |s| ==> (j < Cut(s, maxBytes, maxEntries) <==> !Fits(s[j..], maxBytes, maxEntries))
  {
    var k := Cut(s, maxBytes, maxEntries);
    if s != [] && !Fits(s, maxBytes, maxEntries) {
      CutMeaning(s[1..], maxBytes, maxEntries);
      assert s[k..] == s[1..][k - 1..];
      forall j | 0 <= j < |s| ensures j < k <==> !Fits(s[j..], maxBytes, maxEntries) {
        if j > 0 {
          assert s[j..] == s[1..][j - 1..];
        } else {
          assert s[0..] == s;
        }
      }
    } else {
      assert s[0..] == s;
      forall j | 0 <= j < |s| ensures Fits(s[j..], maxBytes, maxEntries) {
        SuffixesShrink(s, 0, j);
      }
    }
  }

  /** The evicting loop; removal of a directory is outside the model. */
  method Evict(ordered: seq<Entry>, maxBytes: nat, maxEntries: nat) returns (evicted: set<Ref>)
    ensures evicted == References(ordered[..Cut(ordered, maxBytes, maxEntries)])
  {
    evicted := {};
    var totalBytes, retainedEntries := TotalBytes(ordered), |ordered|;
    var k := 0;
    assert ordered[0..] == ordered;
    while k < |ordered| && !(totalBytes <= maxBytes && retainedEntries <= maxEntries)
      invariant 0 <= k <= |ordered|
      invariant totalBytes == TotalBytes(ordered[k..]) && retainedEntries == |ordered| - k
      invariant Cut(ordered, maxBytes, maxEntries) == k + Cut(ordered[k..], maxBytes, maxEntries)
      invariant evicted == References(ordered[..k])
    {
      assert ordered[k..][1..] == ordered[k + 1..];
      ReferencesNext(ordered, k);
      evicted := evicted + {ordered[k].reference};
      totalBytes := totalBytes - ordered[k].bytes;
      retainedEntries := retainedEntries - 1;
      k := k + 1;
    }
  }

  /** What is left of the entries after an eviction. */
  lemma Survivor(entries: seq<Entry>, k: nat, i: nat)
    requires Distinct(entries) && k <= |entries| == |Sorted(entries)| && i < |entries|
    requires entries[i].reference !in References(Sorted(entries)[..k])
    ensures Distinct(Sorted(entries)[k..])
    ensures var kept := ChargesOf(Sorted(entries)[k..]);
            entries[i].reference in kept && kept[entries[i].reference] == entries[i].bytes
  {
    SortedMeaning(entries);
    assert entries[i] in Sorted(entries);
    KeptBehind(Sorted(entries), k, entries[i]);
  }

  /** An entry that is not among the first `k` is among the rest. */
  lemma KeptBehind(ordered: seq<Entry>, k: nat, e: Entry)
    requires Distinct(ordered) && k <= |ordered| && e in ordered && e.reference !in References(ordered[..k])
    ensures Distinct(ordered[k..])
    ensures var kept := ChargesOf(ordered[k..]);
            e.reference in kept && kept[e.reference] == e.bytes
  {
    var j :| 0 <= j < |ordered| && ordered[j] == e;
    if j < k {
      ReferenceOf(ordered[..k], j);
    } else {
      assert ordered[k..][j - k] == e;
      ChargesAt(ordered[k..], j - k);
    }
  }

  lemma {:induction false} ReferencesNext(s: seq<Entry>, i: nat)
    requires i < |s|
    ensures References(s[..i + 1]) == References(s[..i]) + {s[i].reference}
  {
    if i > 0 {
      ReferencesNext(s[1..], i - 1);
      assert s[..i + 1][1..] == s[1..][..i] && s[..i][1..] == s[1..][..i - 1];
    }
  }

  lemma NextReference(s: seq<Entry>, i: nat, evicted: set<Ref>)
    requires Distinct(s) && i < |s|
    ensures s[i].reference !in References(s[..i])
    ensures References(s[..i + 1]) - evicted ==
            References(s[..i]) - evicted + (if s[i].reference in evicted then {} else {s[i].reference})
  {
    ReferencesNext(s, i);
    if s[i].reference in References(s[..i]) {
      var j := Referenced(s[..i], s[i].reference);
    }
  }

  /** Every entry that is not evicted has its place among the kept. */
  ghost predicate Allowed(entries: seq<Entry>, evicted: set<Ref>, kept: map<Ref, nat>) {
    forall i :: 0 <= i < |entries| && entries[i].reference !in evicted ==>
      entries[i].reference in kept && kept[entries[i].reference] == entries[i].bytes
  }

  method RegisterOne(quota: RetainedByteQuota, e: Entry, ghost kept: map<Ref, nat>) returns (ok: bool)
    requires Valid(quota.View()) && Part(quota.View(), kept) && e.reference !in quota.bytesByReference
    requires e.reference in kept && kept[e.reference] == e.bytes && Sum(kept) <= quota.maxBytes
             && |kept| <= quota.maxEntries
    modifies quota
    ensures ok && Valid(quota.View()) && Part(quota.View(), kept)
    ensures quota.bytesByReference.Keys == old(quota.bytesByReference.Keys) + {e.reference}
  {
    RoomForMore(quota.View(), kept, e.reference);
    ok := quota.TrackExisting(e.reference, e.bytes);
  }

  /** The registering loop, for survivors that fit together. */
  method Register(quota: RetainedByteQuota, entries: seq<Entry>, evicted: set<Ref>, ghost kept: map<Ref, nat>)
    returns (ok: bool)
    requires Distinct(entries) && quota.bytesByReference == map[] && quota.totalBytes == 0
    requires Allowed(entries, evicted, kept)
    requires Sum(kept) <= quota.maxBytes && |kept| <= quota.maxEntries
    modifies quota
    ensures ok && Valid(quota.View()) && Part(quota.View(), kept)
    ensures quota.bytesByReference.Keys == References(entries) - evicted
  {
    ok := true;
    ghost var charged: set<Ref> := {};
    for i := 0 to |entries|
      invariant ok && Valid(quota.View()) && Part(quota.View(), kept)
      invariant charged == References(entries[..i]) - evicted && quota.bytesByReference.Keys == charged
    {
      NextReference(entries, i, evicted);
      if entries[i].reference !in evicted {
        ok := RegisterOne(quota, entries[i], kept);
        if !ok {
          return;
        }
        charged := charged + {entries[i].reference};
      }
    }
    assert entries[..|entries|] == entries;
  }

  /** With any entries found on disk: the shortest prefix in (expiry, reference) order is evicted, registering the rest
      in the order found never fails, and the quota then holds exactly the rest. */
  method AdoptRetainedEntries(quota: RetainedByteQuota, entries: seq<Entry>) returns (evicted: set<Ref>, ok: bool)
    requires Distinct(entries) && quota.bytesByReference == map[] && quota.totalBytes == 0
    modifies quota
    ensures ok && Valid(quota.View())
    ensures evicted == References(Sorted(entries)[..Cut(Sorted(entries), quota.maxBytes, quota.maxEntries)])
    ensures quota.bytesByReference.Keys == References(entries) - evicted
    ensures forall i :: 0 <= i < |entries| && entries[i].reference !in evicted ==>
            Charge(quota.View(), entries[i].reference) == entries[i].bytes
  {
    var ordered := Sorted(entries);
    ghost var k := Cut(ordered, quota.maxBytes, quota.maxEntries);
    ghost var kept := ChargesOf(ordered[k..]);
    SortedMeaning(entries);
    CutMeaning(ordered, quota.maxBytes, quota.maxEntries);
    ChargesSum(ordered[k..]);
    evicted := Evict(ordered, quota.maxBytes, quota.maxEntries);
    forall i | 0 <= i < |entries| && entries[i].reference !in evicted
      ensures entries[i].reference in kept && kept[entries[i].reference] == entries[i].bytes
    {
      Survivor(entries, k, i);
    }
    assert Allowed(entries, evicted, kept);
    ok := Register(quota, entries, evicted, kept);
    forall i | 0 <= i < |entries| ensures entries[i].reference in References(entries) {
      ReferenceOf(entries, i);
    }
  }
}
