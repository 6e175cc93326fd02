/** RetainedByteQuota (src/core/output-store.ts): how many bytes each retained output reference is charged for. */
module OutputQuota {
  import opened Basics

  type Ref = string

  /** The sum of the charges. */
  ghost function Sum(m: map<Ref, nat>): nat
    decreases |m|
  {
    if m == map[] then 0
    else
      var k :| k in m;
      Smaller(m, k);
      m[k] + Sum(m - {k})
  }

  lemma Smaller(m: map<Ref, nat>, k: Ref)
    requires k in m
    ensures |m - {k}| == |m| - 1
  {
    assert (m - {k}).Keys == m.Keys - {k};
  }

  /** Any entry may be taken out first. */
  lemma {:induction false} SumTake(m: map<Ref, nat>, k: Ref)
    requires k in m
    ensures Sum(m) == m[k] + Sum(m - {k})
    decreases |m|
  {
    var j :| j in m && Sum(m) == m[j] + Sum(m - {j});
    if j != k {
      Smaller(m, j);
      Smaller(m, k);
      SumTake(m - {j}, k);
      SumTake(m - {k}, j);
      assert m - {j} - {k} == m - {k} - {j};
    }
  }

  lemma SumPut(m: map<Ref, nat>, k: Ref, v: nat)
    ensures Sum(m[k := v]) == Sum(m - {k}) + v
  {
    SumTake(m[k := v], k);
    assert m[k := v] - {k} == m - {k};
  }

  lemma SumWithout(m: map<Ref, nat>, k: Ref)
    ensures Sum(m) == Sum(m - {k}) + (if k in m then m[k] else 0)
  {
    if k in m {
      SumTake(m, k);
    } else {
      assert m - {k} == m;
    }
  }

  lemma Put(m: map<Ref, nat>, k: Ref, v: nat)
    ensures |m[k := v]| == |m| + (if k in m then 0 else 1)
  {
    assert m[k := v].Keys == m.Keys + {k};
    assert |m.Keys| == |m| && |m[k := v].Keys| == |m[k := v]|;
  }

  function ChargeIn(m: map<Ref, nat>, k: Ref): nat {
    if k in m then m[k] else 0
  }

  /** What is covered reference by reference is covered in total. */
  lemma {:induction false} SumCovered(used: map<Ref, nat>, charged: map<Ref, nat>)
    requires forall k :: k in used ==> used[k] <= ChargeIn(charged, k)
    ensures Sum(used) <= Sum(charged)
    decreases |used|
  {
    if used != map[] {
      var k :| k in used;
      SumTake(used, k);
      Smaller(used, k);
      SumWithout(charged, k);
      SumCovered(used - {k}, charged - {k});
    }
  }

  datatype Quota = Quota(maxBytes: nat, maxEntries: nat, charges: map<Ref, nat>, total: nat)

  function Charge(q: Quota, reference: Ref): nat {
    ChargeIn(q.charges, reference)
  }

  /** The total is the sum of the charges and both limits hold. */
  ghost predicate Valid(q: Quota) {
    q.total == Sum(q.charges) && q.total <= q.maxBytes && |q.charges| <= q.maxEntries
  }

  function Granted(q: Quota, reference: Ref, requested: nat): (r: nat)
    requires q.total <= q.maxBytes
  {
    if requested > 0 && reference !in q.charges && |q.charges| >= q.maxEntries then 0
    else Min(requested, q.maxBytes - q.total)
  }

  function Reserved(q: Quota, reference: Ref, requested: nat): (r: Quota)
    requires q.total <= q.maxBytes
  {
    var granted := Granted(q, reference, requested);
    if granted == 0 then q
    else q.(total := q.total + granted, charges := q.charges[reference := Charge(q, reference) + granted])
  }

  datatype Tracked = Registered(quota: Quota) | Twice | TooManyBytes | TooManyEntries

  function Track(q: Quota, reference: Ref, bytes: nat): (r: Tracked) {
    if reference in q.charges then Twice
    else if bytes + q.total > q.maxBytes then TooManyBytes
    else if |q.charges| >= q.maxEntries then TooManyEntries
    else Registered(q.(charges := q.charges[reference := bytes], total := q.total + bytes))
  }

  function Released(q: Quota, reference: Ref): (r: Quota)
    requires Charge(q, reference) <= q.total
  {
    if reference !in q.charges then q
    else q.(total := q.total - q.charges[reference], charges := q.charges - {reference})
  }

  /** The granted bytes are added to the reference's charge and nothing else changes; a request is cut short only by
      a limit that is then exhausted. */
  lemma ReserveMeaning(q: Quota, reference: Ref, requested: nat)
    requires Valid(q)
    ensures var r, granted := Reserved(q, reference, requested), Granted(q, reference, requested);
            && Valid(r) && granted <= requested
            && Charge(r, reference) == Charge(q, reference) + granted
            && (forall k :: k != reference ==> Charge(r, k) == Charge(q, k) && (k in r.charges <==> k in q.charges))
            && (granted < requested ==>
                r.total == r.maxBytes || (granted == 0 && reference !in q.charges && |q.charges| >= q.maxEntries))
            && r.maxBytes == q.maxBytes && r.maxEntries == q.maxEntries
  {
    var charge := Charge(q, reference) + Granted(q, reference, requested);
    SumPut(q.charges, reference, charge);
    SumWithout(q.charges, reference);
    Put(q.charges, reference, charge);
  }

  lemma ReservedValid(q: Quota, reference: Ref, requested: nat)
    requires Valid(q)
    ensures Valid(Reserved(q, reference, requested))
  {
    ReserveMeaning(q, reference, requested);
  }

  /** Registration succeeds exactly if the reference is new and both limits leave room. */
  lemma TrackMeaning(q: Quota, reference: Ref, bytes: nat)
    requires Valid(q)
    ensures var r := Track(q, reference, bytes);
            && (r.Registered? <==>
                reference !in q.charges && q.total + bytes <= q.maxBytes && |q.charges| + 1 <= q.maxEntries)
            && (r.Registered? ==>
                  && Valid(r.quota) && r.quota.charges == q.charges[reference := bytes]
                  && r.quota.total == q.total + bytes
                  && |r.quota.charges| == |q.charges| + 1 && r.quota.maxBytes == q.maxBytes
                  && r.quota.maxEntries == q.maxEntries)
  {
    SumPut(q.charges, reference, bytes);
    SumWithout(q.charges, reference);
    Put(q.charges, reference, bytes);
  }

  lemma ChargeWithinTotal(q: Quota, reference: Ref)
    requires Valid(q)
    ensures Charge(q, reference) <= q.total
  {
    SumWithout(q.charges, reference);
  }

  lemma ReleaseMeaning(q: Quota, reference: Ref)
    requires Valid(q)
    ensures Charge(q, reference) <= q.total
    ensures var r := Released(q, reference);
            && Valid(r) && Charge(r, reference) == 0 && reference !in r.charges
            && (forall k :: k != reference ==> Charge(r, k) == Charge(q, k) && (k in r.charges <==> k in q.charges))
            && r.maxBytes == q.maxBytes && r.maxEntries == q.maxEntries
  {
    SumWithout(q.charges, reference);
    if reference in q.charges {
      Smaller(q.charges, reference);
    }
  }

  /** What was reserved is given back. */
  lemma ReserveThenRelease(q: Quota, reference: Ref, requested: nat)
    requires Valid(q) && reference !in q.charges
    ensures Charge(Reserved(q, reference, requested), reference) <= Reserved(q, reference, requested).total
    ensures Released(Reserved(q, reference, requested), reference) == q
  {
    var r, granted := Reserved(q, reference, requested), Granted(q, reference, requested);
    ReserveMeaning(q, reference, requested);
    ChargeWithinTotal(r, reference);
  }

  class RetainedByteQuota {
    const maxBytes: nat
    const maxEntries: nat
    var bytesByReference: map<Ref, nat>
    var totalBytes: nat

    ghost function View(): (q: Quota) reads this {
      Quota(maxBytes, maxEntries, bytesByReference, totalBytes)
    }

    constructor (maxBytes: nat, maxEntries: nat)
      ensures View() == Quota(maxBytes, maxEntries, map[], 0) && Valid(View())
    {
      this.maxBytes, this.maxEntries := maxBytes, maxEntries;
      bytesByReference, totalBytes := map[], 0;
    }

    method Reserve(reference: Ref, requestedBytes: nat) returns (grantedBytes: nat)
      requires Valid(View())
      modifies this
      ensures Valid(View()) && View() == Reserved(old(View()), reference, requestedBytes)
      ensures grantedBytes == Granted(old(View()), reference, requestedBytes)
    {
      ghost var before := View();
      if requestedBytes > 0 && reference !in bytesByReference && |bytesByReference| >= maxEntries {
        return 0;
      }
      grantedBytes := Min(requestedBytes, maxBytes - totalBytes);
      if grantedBytes > 0 {
        totalBytes := totalBytes + grantedBytes;
        var charged := if reference in bytesByReference then bytesByReference[reference] else 0;
        bytesByReference := bytesByReference[reference := charged + grantedBytes];
      }
      ReservedValid(before, reference, requestedBytes);
    }

    method TrackExisting(reference: Ref, bytes: nat) returns (ok: bool)
      requires Valid(View())
      modifies this
      ensures Valid(View())
      ensures ok <==> Track(old(View()), reference, bytes).Registered?
      ensures View() == if ok then Track(old(View()), reference, bytes).quota else old(View())
    {
      TrackMeaning(View(), reference, bytes);
      if reference in bytesByReference || bytes + totalBytes > maxBytes || |bytesByReference| >= maxEntries {
        return false;
      }
      bytesByReference := bytesByReference[reference := bytes];
      totalBytes := totalBytes + bytes;
      return true;
    }

    method Release(reference: Ref)
      requires Valid(View()) && Charge(View(), reference) <= totalBytes
      modifies this
      ensures Valid(View()) && View() == Released(old(View()), reference)
    {
      ReleaseMeaning(View(), reference);
      if reference in bytesByReference {
        totalBytes := totalBytes - bytesByReference[reference];
        bytesByReference := bytesByReference - {reference};
      }
    }
  }
}
