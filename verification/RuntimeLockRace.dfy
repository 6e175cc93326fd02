/** What happens when two processes take the same stale claim away at once (removeOwnedFile in
    src/daemon/runtime-state.ts): five processes reach two live holders. */
module RuntimeLockRace {
  import opened Basics
  import opened RuntimeLock

  ghost predicate Reachable(w: World) {
    exists actions :: Reaches(actions, w)
  }

  lemma Then(w: World, a: Action)
    requires Reachable(w) && Enabled(w, a)
    ensures Reachable(Do(w, a))
  {
    var actions :| Reaches(actions, w);
    var all := actions + [a];
    assert all[..|all| - 1] == actions && all[|all| - 1] == a;
    assert Reaches(all, Do(w, a));
  }

  /** World `b` with another lock and with process `p` elsewhere. */
  function Place(b: World, p: Pid, lock: Option<Dir>, pc: Pc): World {
    Goto(b.(lock := lock), p, pc)
  }

  /** One operation of `p`, from a known place to a known place. */
  lemma Step(b: World, p: Pid, lock: Option<Dir>, pc: Pc, lock': Option<Dir>, pc': Pc)
    requires Reachable(Place(b, p, lock, pc)) && p in b.alive
    requires Advance(Place(b, p, lock, pc), p, 0) == Place(Place(b, p, lock, pc), p, lock', pc')
    ensures Reachable(Place(b, p, lock', pc'))
  {
    Then(Place(b, p, lock, pc), Run(p, 0));
    assert b.pcs[p := pc][p := pc'] == b.pcs[p := pc'];
  }

  function Me(p: Pid): Owner {
    Owner(p, 0)
  }

  function Locked(owner: Pid, claim: Option<Claim>): Option<Dir> {
    Some(Dir(Some(Me(owner)), claim))
  }

  /** A process finds the lock owned by the dead process 1. */
  lemma FindDead(b: World, p: Pid, lock: Option<Dir>)
    requires p in b.alive && 1 !in b.alive && Reachable(Place(b, p, lock, Idle))
    requires lock.Some? && lock.value.owner == Some(Me(1))
    ensures Reachable(Place(b, p, lock, CreateClaim(Me(1), false)))
  {
    Step(b, p, lock, Idle, lock, Rename(Me(p)));
    Step(b, p, lock, Rename(Me(p)), lock, Examine);
    Step(b, p, lock, Examine, lock, ReadOwner);
    Step(b, p, lock, ReadOwner, lock, CreateClaim(Me(1), false));
  }

  lemma MakeClaim(b: World, p: Pid, retried: bool)
    requires p in b.alive && Reachable(Place(b, p, Locked(1, None), CreateClaim(Me(1), retried)))
    ensures Reachable(Place(b, p, Locked(1, Some(Written(Me(p)))), VerifyOwner(Me(1), Me(p))))
  {
    var torn := Locked(1, Some(Torn(Me(p))));
    Step(b, p, Locked(1, None), CreateClaim(Me(1), retried), torn, FillClaim(Me(1), Me(p)));
    Step(b, p, torn, FillClaim(Me(1), Me(p)), Locked(1, Some(Written(Me(p)))), VerifyOwner(Me(1), Me(p)));
  }

  const DROPPING := Matched(Owner(2, 0), CreateClaim(Owner(1, 0), true))

  /** The claim of the dead process 2 is compared, and not yet unlinked. */
  lemma CompareClaim(b: World, p: Pid)
    requires p in b.alive && 2 !in b.alive
             && Reachable(Place(b, p, Locked(1, Some(Written(Me(2)))), CreateClaim(Me(1), false)))
    ensures Reachable(Place(b, p, Locked(1, Some(Written(Me(2)))), DROPPING))
  {
    var lock := Locked(1, Some(Written(Me(2))));
    Step(b, p, lock, CreateClaim(Me(1), false), lock, ReadClaim(Me(1)));
    Step(b, p, lock, ReadClaim(Me(1)), lock, DropClaim(Me(1), Me(2)));
    Step(b, p, lock, DropClaim(Me(1), Me(2)), lock, DROPPING);
  }

  /** The unlink takes whatever claim is there now, and the process claims itself. */
  lemma UnlinkAndClaim(b: World, p: Pid, claimant: Pid)
    requires p in b.alive && 1 !in b.alive && Reachable(Place(b, p, Locked(1, Some(Written(Me(claimant)))), DROPPING))
    ensures Reachable(Place(b, p, Locked(1, Some(Written(Me(p)))), UnlinkOwner(Me(1), Me(p))))
  {
    var mine := Locked(1, Some(Written(Me(p))));
    Step(b, p, Locked(1, Some(Written(Me(claimant)))), DROPPING, Locked(1, None), CreateClaim(Me(1), true));
    MakeClaim(b, p, true);
    Step(b, p, mine, VerifyOwner(Me(1), Me(p)), mine, UnlinkOwner(Me(1), Me(p)));
  }

  lemma ReclaimAndHold(b: World, p: Pid)
    requires p in b.alive && Reachable(Place(b, p, Locked(1, Some(Written(Me(p)))), UnlinkOwner(Me(1), Me(p))))
    ensures Reachable(Place(b, p, Locked(p, None), Holding(Me(p))))
  {
    var alone := Some(Dir(None, Some(Written(Me(p)))));
    Step(b, p, Locked(1, Some(Written(Me(p)))), UnlinkOwner(Me(1), Me(p)), alone, DropOwnClaim(Me(p)));
    ClearDirectory(b, p);
    TakeLock(b, p, None);
  }

  lemma ClearDirectory(b: World, p: Pid)
    requires p in b.alive && Reachable(Place(b, p, Some(Dir(None, Some(Written(Me(p))))), DropOwnClaim(Me(p))))
    ensures Reachable(Place(b, p, None, Idle))
  {
    var alone := Some(Dir(None, Some(Written(Me(p)))));
    Step(b, p, alone, DropOwnClaim(Me(p)), alone, Matched(Me(p), RemoveDirectory));
    Step(b, p, alone, Matched(Me(p), RemoveDirectory), Some(EMPTY), RemoveDirectory);
    RemoveEmpty(b, p);
  }

  lemma RemoveEmpty(b: World, p: Pid)
    requires p in b.alive && Reachable(Place(b, p, Some(EMPTY), RemoveDirectory))
    ensures Reachable(Place(b, p, None, Idle))
  {
    Step(b, p, Some(EMPTY), RemoveDirectory, None, Idle);
  }

  lemma TakeLock(b: World, p: Pid, lock: Option<Dir>)
    requires p in b.alive && Reachable(Place(b, p, lock, Idle)) && (lock == None || lock == Some(EMPTY))
    ensures Reachable(Place(b, p, Locked(p, None), Holding(Me(p))))
  {
    Step(b, p, lock, Idle, lock, Rename(Me(p)));
    Step(b, p, lock, Rename(Me(p)), Locked(p, None), Holding(Me(p)));
  }

  /** A new process starts. */
  function Started(w: World, p: Pid): World {
    World(w.lock, w.alive + {p}, w.born + {p}, w.pcs[p := Idle])
  }

  lemma Start(w: World, p: Pid)
    requires Reachable(w) && p !in w.born
    ensures Reachable(Place(Started(w, p), p, w.lock, Idle))
  {
    Then(w, Spawn(p));
    assert Place(Started(w, p), p, w.lock, Idle) == Do(w, Spawn(p)) by {
      assert Started(w, p).pcs[p := Idle] == Started(w, p).pcs;
    }
  }

  /** Process 1 has died holding the lock, and process 2 has died with its claim written. */
  lemma TwoDead() returns (w: World)
    ensures Reachable(w) && w.lock == Locked(1, Some(Written(Me(2)))) && w.alive == {} && w.born == {1, 2}
            && w.pcs.Keys == {1, 2}
  {
    assert Reaches([], START);
    Start(START, 1);
    TakeLock(Started(START, 1), 1, None);
    var held := Place(Started(START, 1), 1, Locked(1, None), Holding(Me(1)));
    Then(held, Crash(1));
    var one := Do(held, Crash(1));
    Start(one, 2);
    FindDead(Started(one, 2), 2, Locked(1, None));
    MakeClaim(Started(one, 2), 2, false);
    var claimed := Place(Started(one, 2), 2, Locked(1, Some(Written(Me(2)))), VerifyOwner(Me(1), Me(2)));
    Then(claimed, Crash(2));
    w := Do(claimed, Crash(2));
  }

  /** Processes 3 and 4 have both compared the dead claim. */
  lemma BothCompared(w: World) returns (b: World)
    requires Reachable(w) && w.lock == Locked(1, Some(Written(Me(2)))) && w.alive == {} && w.born == {1, 2}
             && w.pcs.Keys == {1, 2}
    ensures Reachable(b) && b.lock == w.lock && b.alive == {3, 4} && b.born == {1, 2, 3, 4} && {3, 4} <= b.pcs.Keys
    ensures b.pcs[3] == DROPPING == b.pcs[4]
  {
    Start(w, 3);
    FindDead(Started(w, 3), 3, w.lock);
    CompareClaim(Started(w, 3), 3);
    var three := Place(Started(w, 3), 3, w.lock, DROPPING);
    Start(three, 4);
    FindDead(Started(three, 4), 4, w.lock);
    CompareClaim(Started(three, 4), 4);
    b := Place(Started(three, 4), 4, w.lock, DROPPING);
  }

  /** Both claim in turn, each unlinking the claim before its own; process 4 takes the lock and process 3 then unlinks
      its owner file. */
  lemma OwnerFileLost(b: World) returns (w: World)
    requires Reachable(b) && b.lock == Locked(1, Some(Written(Me(2)))) && b.alive == {3, 4} && b.born == {1, 2, 3, 4}
             && {3, 4} <= b.pcs.Keys
    requires b.pcs[3] == DROPPING == b.pcs[4]
    ensures Reachable(w) && w.lock == Some(EMPTY) && w.alive == {3, 4} && w.born == {1, 2, 3, 4} && 4 in w.pcs
            && w.pcs[4] == Holding(Me(4))
  {
    assert b == Place(b, 3, b.lock, DROPPING) by {
      assert b.pcs[3 := DROPPING] == b.pcs;
    }
    UnlinkAndClaim(b, 3, 2);
    var mine := Locked(1, Some(Written(Me(3))));
    var c := Place(b, 3, mine, UnlinkOwner(Me(1), Me(3)));
    assert c == Place(c, 4, mine, DROPPING) by {
      assert c.pcs[4 := DROPPING] == c.pcs;
    }
    UnlinkAndClaim(c, 4, 3);
    ReclaimAndHold(c, 4);
    var d := Place(c, 4, Locked(4, None), Holding(Me(4)));
    w := Unlinked(d);
  }

  lemma Unlinked(d: World) returns (w: World)
    requires Reachable(d) && 3 in d.alive && 3 in d.pcs && d.pcs[3] == UnlinkOwner(Me(1), Me(3))
             && d.lock == Locked(4, None)
    ensures Reachable(w) && w == d.(lock := Some(EMPTY), pcs := d.pcs[3 := DropOwnClaim(Me(3))])
  {
    Then(d, Run(3, 0));
    w := Do(d, Run(3, 0));
  }

  /** Two live processes hold the lock. */
  lemma SplitUnlinkBreaksExclusion()
    ensures exists actions, w, p, q :: Reaches(actions, w) && p != q && Holds(w, p) && Holds(w, q)
  {
    var dead := TwoDead();
    var both := BothCompared(dead);
    var w := OwnerFileLost(both);
    Start(w, 5);
    TakeLock(Started(w, 5), 5, Some(EMPTY));
    var end := Place(Started(w, 5), 5, Locked(5, None), Holding(Me(5)));
    assert Holds(end, 4) && Holds(end, 5);
    var actions :| Reaches(actions, end);
  }
}
