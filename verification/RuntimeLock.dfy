/** The multi-process runtime lock (src/daemon/runtime-state.ts): exclusive create, directory rename and
    stale-owner reclaim, as a state machine over the shared file system. Each step is one file-system
    operation of one process; processes may crash, and operations may fail, at any step. */
module RuntimeLock {
  import opened Basics

  type Pid = nat

  /** The record written to an owner or reclaim file. */
  datatype Owner = Owner(pid: Pid, token: nat)

  /** A reclaim file is created empty and filled in a second step; reading an empty one fails to parse. */
  datatype Claim = Torn(claimant: Owner) | Written(claimant: Owner)

  datatype Dir = Dir(owner: Option<Owner>, claim: Option<Claim>)

  const EMPTY := Dir(None, None)

  /** Where a process is, named after the operation it performs next. */
  datatype Pc =
    | Idle                                     // create a pending directory with a fresh owner file
    | Rename(me: Owner)                        // rename it to the lock path
    | Examine                                  // lstat the lock path
    | ReadOwner
    | CreateClaim(seen: Owner, retried: bool)  // the owner read was dead
    | FillClaim(seen: Owner, me: Owner)
    | ReadClaim(seen: Owner)                   // the claim existed already
    | DropClaim(seen: Owner, stale: Owner)       // removeOwnedFile of a dead claimant's file
    | VerifyOwner(seen: Owner, me: Owner)
    | UnlinkOwner(seen: Owner, me: Owner)
    | DropOwnClaim(me: Owner)
    | RemoveDirectory
    | UndoClaim(me: Owner)                     // a failed reclaim takes its own claim back
    | ListDirectory                            // the owner file was missing
    | ReadLoneClaim
    | DropLoneClaim(stale: Owner)
    | RemoveIncomplete
    | Holding(me: Owner)                       // release: read the owner file back
    | UnlinkOwn(me: Owner)
    | RemoveOwn
    | Matched(expected: Owner, next: Pc)       // removeOwnedFile: compared, not yet unlinked

  datatype World = World(lock: Option<Dir>, alive: set<Pid>, born: set<Pid>, pcs: map<Pid, Pc>)

  predicate IsClaim(w: World, c: Owner) {
    w.lock.Some? && w.lock.value.claim == Some(Written(c))
  }

  function Goto(w: World, p: Pid, pc: Pc): World {
    w.(pcs := w.pcs[p := pc])
  }

  function SetClaim(w: World, claim: Option<Claim>): World
    requires w.lock.Some?
  {
    w.(lock := Some(w.lock.value.(claim := claim)))
  }

  function SetOwner(w: World, owner: Option<Owner>): World
    requires w.lock.Some?
  {
    w.(lock := Some(w.lock.value.(owner := owner)))
  }

  function RemoveIfEmpty(w: World): World {
    if w.lock == Some(EMPTY) then w.(lock := None) else w
  }

  /** removeOwnedFile on the reclaim file: the comparison; the unlink is a step of its own. */
  function RemoveOwned(w: World, p: Pid, expected: Owner, next: Pc, failed: Pc): World {
    Goto(w, p, if IsClaim(w, expected) then Matched(expected, next) else failed)
  }

  /** The unlink found no file. */
  function Missed(expected: Owner, next: Pc): Pc {
    if next.RemoveIncomplete? then next else if next.RemoveDirectory? then UndoClaim(expected) else Idle
  }

  /** The next operation of process `p`; `token` is the random token of a record it creates. */
  function Advance(w: World, p: Pid, token: nat): (w': World)
    requires p in w.pcs
    ensures p in w'.pcs && w'.alive == w.alive
  {
    var me := Owner(p, token);
    var noOwner := w.lock.None? || w.lock.value.owner.None?;
    var noClaim := w.lock.None? || w.lock.value.claim.None?;
    match w.pcs[p]
    case Idle => Goto(w, p, Rename(me))
    case Rename(owner) =>
      if w.lock.None? || w.lock == Some(EMPTY) then Goto(w.(lock := Some(Dir(Some(owner), None))), p, Holding(owner))
      else Goto(w, p, Examine)
    case Examine => Goto(w, p, if w.lock.None? then Idle else ReadOwner)
    case ReadOwner =>
      if noOwner then Goto(w, p, ListDirectory)
      else
        var owner := w.lock.value.owner.value;
        Goto(w, p, if owner.pid in w.alive then Idle else CreateClaim(owner, false))
    case CreateClaim(seen, retried) =>
      if w.lock.None? then Goto(w, p, Idle)
      else if noClaim then Goto(SetClaim(w, Some(Torn(me))), p, FillClaim(seen, me))
      else Goto(w, p, if retried then Idle else ReadClaim(seen))
    case FillClaim(seen, mine) =>
      var w1 := if w.lock.Some? && w.lock.value.claim == Some(Torn(mine)) then SetClaim(w, Some(Written(mine))) else w;
      Goto(w1, p, VerifyOwner(seen, mine))
    case ReadClaim(seen) =>
      if noClaim || w.lock.value.claim.value.Torn? then Goto(w, p, Idle)
      else
        var other := w.lock.value.claim.value.claimant;
        Goto(w, p, if other.pid in w.alive then Idle else DropClaim(seen, other))
    case DropClaim(seen, stale) => RemoveOwned(w, p, stale, CreateClaim(seen, true), Idle)
    case VerifyOwner(seen, mine) =>
      Goto(w, p, if !noOwner && w.lock.value.owner.value == seen && seen.pid !in w.alive then UnlinkOwner(seen, mine)
           else UndoClaim(mine))
    case UnlinkOwner(seen, mine) =>
      if noOwner then Goto(w, p, UndoClaim(mine)) else Goto(SetOwner(w, None), p, DropOwnClaim(mine))
    case DropOwnClaim(mine) => RemoveOwned(w, p, mine, RemoveDirectory, UndoClaim(mine))
    case RemoveDirectory => Goto(RemoveIfEmpty(w), p, Idle)
    case UndoClaim(mine) => RemoveOwned(w, p, mine, Idle, Idle)
    case ListDirectory =>
      Goto(w, p, if w.lock.None? then Idle else if !noOwner then Idle else if noClaim then RemoveIncomplete
           else ReadLoneClaim)
    case ReadLoneClaim =>
      if noClaim then Goto(w, p, RemoveIncomplete)
      else if w.lock.value.claim.value.Torn? then Goto(w, p, Idle)
      else
        var other := w.lock.value.claim.value.claimant;
        Goto(w, p, if other.pid in w.alive then Idle else DropLoneClaim(other))
    case DropLoneClaim(stale) => RemoveOwned(w, p, stale, RemoveIncomplete, if noClaim then RemoveIncomplete else Idle)
    case RemoveIncomplete => Goto(RemoveIfEmpty(w), p, Idle)
    case Holding(owner) => Goto(w, p, if !noOwner && w.lock.value.owner.value == owner then UnlinkOwn(owner) else Idle)
    case UnlinkOwn(owner) => if noOwner then Goto(w, p, Idle) else Goto(SetOwner(w, None), p, RemoveOwn)
    case RemoveOwn => Goto(RemoveIfEmpty(w), p, Idle)
    case Matched(expected, next) =>
      if noClaim then Goto(w, p, Missed(expected, next)) else Goto(SetClaim(w, None), p, next)
  }

  /** An operation of `p` fails with some I/O error; `unlink`: filling the claim failed after the write, in its
      hardening. */
  function Fail(w: World, p: Pid, unlink: bool): (w': World)
    requires p in w.pcs
  {
    match w.pcs[p]
    case Rename(_) => Goto(w, p, Examine)
    case FillClaim(_, _) => Goto(if unlink && w.lock.Some? then SetClaim(w, None) else w, p, Idle)
    case VerifyOwner(_, mine) => Goto(w, p, UndoClaim(mine))
    case UnlinkOwner(_, mine) => Goto(w, p, UndoClaim(mine))
    case DropOwnClaim(mine) => Goto(w, p, UndoClaim(mine))
    case Matched(expected, next) => Goto(w, p, if next.RemoveDirectory? then UndoClaim(expected) else Idle)
    case Holding(_) => w
    case _ => Goto(w, p, Idle)
  }

  datatype Action = Spawn(p: Pid) | Crash(p: Pid) | Run(p: Pid, token: nat) | IoError(p: Pid, unlink: bool)

  predicate Enabled(w: World, a: Action) {
    match a
    case Spawn(p) => p !in w.born
    case Crash(p) => p in w.alive
    case Run(p, _) => p in w.alive && p in w.pcs
    case IoError(p, _) => p in w.alive && p in w.pcs
  }

  function Do(w: World, a: Action): (w': World)
    requires Enabled(w, a)
  {
    match a
    case Spawn(p) => World(w.lock, w.alive + {p}, w.born + {p}, w.pcs[p := Idle])
    case Crash(p) => w.(alive := w.alive - {p})
    case Run(p, token) => Advance(w, p, token)
    case IoError(p, unlink) => Fail(w, p, unlink)
  }

  const START := World(None, {}, {}, map[])

  /** A run from the start with the given actions. */
  ghost predicate Reaches(actions: seq<Action>, w: World) {
    if actions == [] then w == START
    else
      var a := actions[|actions| - 1];
      exists before :: Reaches(actions[..|actions| - 1], before) && Enabled(before, a) && w == Do(before, a)
  }

  predicate Holds(w: World, p: Pid) {
    p in w.alive && p in w.pcs && (w.pcs[p].Holding? || w.pcs[p].UnlinkOwn?)
  }

  // ---------------------------------------------------------------- the invariant

  predicate Dead(w: World, o: Owner) {
    o.pid in w.born && o.pid !in w.alive
  }

  /** What a live process may rely on. */
  predicate Relies(w: World, p: Pid, pc: Pc) {
    match pc
    case Rename(me) => me.pid == p
    case CreateClaim(seen, _) => Dead(w, seen)
    case ReadClaim(seen) => Dead(w, seen)
    case DropClaim(seen, stale) => Dead(w, seen) && Dead(w, stale)
    case FillClaim(seen, me) => me.pid == p && Dead(w, seen) && w.lock.Some? && w.lock.value.claim == Some(Torn(me))
    case VerifyOwner(seen, me) => me.pid == p && Dead(w, seen) && IsClaim(w, me)
    case UnlinkOwner(seen, me) => me.pid == p && Dead(w, seen) && IsClaim(w, me) && w.lock.value.owner == Some(seen)
    case DropOwnClaim(me) => me.pid == p && IsClaim(w, me)
    case UndoClaim(me) => me.pid == p
    case DropLoneClaim(stale) => Dead(w, stale)
    case Holding(me) => me.pid == p && w.lock.Some? && w.lock.value.owner == Some(me)
    case UnlinkOwn(me) => me.pid == p && w.lock.Some? && w.lock.value.owner == Some(me)
    case Matched(expected, next) =>
      || ((next.Idle? || next.RemoveDirectory?) && expected.pid == p)
      || ((next.RemoveIncomplete? || (next.CreateClaim? && Dead(w, next.seen))) && Dead(w, expected))
    case _ => true
  }

  ghost predicate Inv(w: World) {
    && w.alive <= w.born && w.alive <= w.pcs.Keys
    && (w.lock.Some? && w.lock.value.owner.Some? ==> w.lock.value.owner.value.pid in w.born)
    && (w.lock.Some? && w.lock.value.claim.Some? ==> w.lock.value.claim.value.claimant.pid in w.born)
    && forall p :: p in w.alive ==> Relies(w, p, w.pcs[p])
  }

  // ---------------------------------------------------------------- every undisturbed step keeps it

  /** An unlink finds the claim that its process compared, or none. */
  predicate Undisturbed(w: World, a: Action) {
    a.Run? && a.p in w.pcs && w.pcs[a.p].Matched? && w.lock.Some? && w.lock.value.claim.Some? ==>
      IsClaim(w, w.pcs[a.p].expected)
  }

  /** A process that has a claim of its own, or is taking one away. */
  predicate Claiming(pc: Pc) {
    pc.FillClaim? || pc.VerifyOwner? || pc.UnlinkOwner? || pc.DropOwnClaim? || pc.UndoClaim? || pc.Matched?
  }

  lemma ClaimantsStep(w: World, p: Pid, token: nat)
    requires Inv(w) && p in w.alive && Claiming(w.pcs[p]) && Undisturbed(w, Run(p, token))
    ensures var w' := Advance(w, p, token);
            Relies(w', p, w'.pcs[p])
  {
    assert Relies(w, p, w.pcs[p]);
  }

  lemma OwnStep(w: World, p: Pid, token: nat)
    requires Inv(w) && p in w.alive && Undisturbed(w, Run(p, token))
    ensures var w' := Advance(w, p, token);
            Relies(w', p, w'.pcs[p])
  {
    if Claiming(w.pcs[p]) {
      ClaimantsStep(w, p, token);
    } else {
      assert Relies(w, p, w.pcs[p]);
    }
  }

  lemma OthersStep(w: World, p: Pid, token: nat, q: Pid)
    requires Inv(w) && p in w.alive && q in w.alive && q != p && Undisturbed(w, Run(p, token))
    ensures var w' := Advance(w, p, token);
            w'.pcs[q] == w.pcs[q] && Relies(w', q, w.pcs[q])
  {
    assert Relies(w, p, w.pcs[p]) && Relies(w, q, w.pcs[q]);
  }

  lemma FilesKeepInv(w: World, p: Pid, token: nat)
    requires Inv(w) && p in w.alive
    ensures var w' := Advance(w, p, token);
            && w'.alive == w.alive && w'.born == w.born && w'.pcs.Keys == w.pcs.Keys
            && (w'.lock.Some? && w'.lock.value.owner.Some? ==> w'.lock.value.owner.value.pid in w.born)
            && (w'.lock.Some? && w'.lock.value.claim.Some? ==> w'.lock.value.claim.value.claimant.pid in w.born)
  {
    assert Relies(w, p, w.pcs[p]);
  }

  lemma FailureKeeps(w: World, p: Pid, unlink: bool, q: Pid)
    requires Inv(w) && p in w.alive && q in w.alive
    ensures var w' := Fail(w, p, unlink);
            q in w'.pcs && Relies(w', q, w'.pcs[q])
  {
    assert Relies(w, p, w.pcs[p]) && Relies(w, q, w.pcs[q]);
  }

  lemma StepKeepsInv(w: World, a: Action)
    requires Inv(w) && Enabled(w, a) && Undisturbed(w, a)
    ensures Inv(Do(w, a))
  {
    var w' := Do(w, a);
    if a.Run? {
      FilesKeepInv(w, a.p, a.token);
      OwnStep(w, a.p, a.token);
    }
    forall q | q in w'.alive ensures Relies(w', q, w'.pcs[q]) {
      if a.Run? {
        if q != a.p {
          OthersStep(w, a.p, a.token, q);
        }
      } else if a.IoError? {
        FailureKeeps(w, a.p, a.unlink, q);
      } else if q in w.alive {
        assert Relies(w, q, w.pcs[q]);
      }
    }
  }

  /** A run from the start in which every step is allowed. */
  ghost predicate ReachesBy(allowed: (World, Action) -> bool, actions: seq<Action>, w: World) {
    if actions == [] then w == START
    else
      var a := actions[|actions| - 1];
      exists before ::
        && ReachesBy(allowed, actions[..|actions| - 1], before)
        && Enabled(before, a) && allowed(before, a) && w == Do(before, a)
  }

  lemma {:induction false} ReachableInv(actions: seq<Action>, w: World)
    requires ReachesBy(Undisturbed, actions, w)
    ensures Inv(w)
    decreases |actions|
  {
    if actions != [] {
      var a := actions[|actions| - 1];
      var before :| && ReachesBy(Undisturbed, actions[..|actions| - 1], before)
                    && Enabled(before, a) && Undisturbed(before, a) && w == Do(before, a);
      ReachableInv(actions[..|actions| - 1], before);
      StepKeepsInv(before, a);
    }
  }

  /** In every run of the code in which each unlink finds the claim that was compared, at most one live process holds
      the lock, and the owner file names it. */
  lemma MutualExclusion(actions: seq<Action>, w: World)
    requires ReachesBy(Undisturbed, actions, w)
    ensures forall p, q :: Holds(w, p) && Holds(w, q) ==> p == q
    ensures forall p :: Holds(w, p) ==> w.lock.Some? && w.lock.value.owner == Some(w.pcs[p].me)
  {
    ReachableInv(actions, w);
    forall p | Holds(w, p) ensures w.lock.Some? && w.lock.value.owner == Some(w.pcs[p].me) && w.pcs[p].me.pid == p {
      assert Relies(w, p, w.pcs[p]);
    }
  }

  /** An owner file that disappears was its own process's, or its process is dead. */
  lemma OwnerFileIsSafe(actions: seq<Action>, w: World, a: Action)
    requires ReachesBy(Undisturbed, actions, w) && Enabled(w, a)
    requires w.lock.Some? && w.lock.value.owner.Some?
    ensures var o := w.lock.value.owner.value;
            var w' := Do(w, a);
            || (w'.lock.Some? && w'.lock.value.owner == Some(o)) || o.pid !in w.alive
            || (a == Run(o.pid, a.token) && w.pcs[o.pid] == UnlinkOwn(o))
  {
    ReachableInv(actions, w);
    if a.Run? || a.IoError? {
      assert Relies(w, a.p, w.pcs[a.p]);
    }
  }

  // ---------------------------------------------------------------- release

  /** In every such run a process that holds the lock and whose operations succeed goes on to hold it until its owner
      file is gone, and then removes the directory if it is empty. */
  lemma ReleaseStep(actions: seq<Action>, w: World, p: Pid, token: nat)
    requires ReachesBy(Undisturbed, actions, w) && p in w.alive && p in w.pcs
    ensures var w' := Do(w, Run(p, token));
            && (w.pcs[p].Holding? ==> w'.lock == w.lock && w'.pcs[p] == UnlinkOwn(w.pcs[p].me))
            && (w.pcs[p].UnlinkOwn? ==>
                  w.lock.Some? && w'.lock == Some(Dir(None, w.lock.value.claim)) && w'.pcs[p] == RemoveOwn)
            && (w.pcs[p].RemoveOwn? ==>
                w'.lock == (if w.lock == Some(EMPTY) then None else w.lock) && w'.pcs[p] == Idle)
            && (Holds(w, p) && !Holds(w', p) ==> w'.lock.Some? && w'.lock.value.owner.None?)
  {
    ReachableInv(actions, w);
    assert Relies(w, p, w.pcs[p]);
  }

  /** A holder that is left alone for three operations is done, and the lock path is free unless another process has
      left a claim there. */
  lemma ReleaseFrees(actions: seq<Action>, w: World, p: Pid, tokens: seq<nat>)
    requires ReachesBy(Undisturbed, actions, w) && p in w.alive && p in w.pcs && w.pcs[p].Holding? && |tokens| == 3
    ensures w.lock.Some?
    ensures var claim := w.lock.value.claim;
            Alone(w, p, tokens) ==
            w.(lock := if claim.None? then None else Some(Dir(None, claim)), pcs := w.pcs[p := Idle])
  {
    ReachableInv(actions, w);
    assert Relies(w, p, w.pcs[p]);
    var claim := w.lock.value.claim;
    ReleaseAlone(w, p, tokens, w.pcs[p].me, claim, if claim.None? then None else Some(Dir(None, claim)));
  }

  lemma UnlinkOwnFile(w: World, p: Pid, tokens: seq<nat>, me: Owner, claim: Option<Claim>)
    requires p in w.pcs && w.pcs[p] == Holding(me) && w.lock == Some(Dir(Some(me), claim)) && |tokens| == 3
    ensures At(w, p, tokens, 2, Some(Dir(None, claim)), RemoveOwn)
  {
    var mine := Some(Dir(Some(me), claim));
    assert tokens[..0] == [] && w.pcs == w.pcs[p := Holding(me)];
    Next(w, p, tokens, 0, mine, Holding(me), mine, UnlinkOwn(me));
    Next(w, p, tokens, 1, mine, UnlinkOwn(me), Some(Dir(None, claim)), RemoveOwn);
  }

  lemma ReleaseAlone(w: World, p: Pid, tokens: seq<nat>, me: Owner, claim: Option<Claim>, free: Option<Dir>)
    requires p in w.pcs && w.pcs[p] == Holding(me) && w.lock == Some(Dir(Some(me), claim)) && |tokens| == 3
    requires free == if claim.None? then None else Some(Dir(None, claim))
    ensures Alone(w, p, tokens) == Goto(w.(lock := free), p, Idle)
  {
    UnlinkOwnFile(w, p, tokens, me, claim);
    Next(w, p, tokens, 2, Some(Dir(None, claim)), RemoveOwn, free, Idle);
    assert tokens[..3] == tokens;
  }

  /** The next process then takes it with two operations. */
  lemma ReleasedIsTaken(actions: seq<Action>, w: World, p: Pid, q: Pid, tokens: seq<nat>, more: seq<nat>)
    requires ReachesBy(Undisturbed, actions, w) && p in w.alive && p in w.pcs && w.pcs[p].Holding? && |tokens| == 3
    requires q in w.alive && q in w.pcs && q != p && w.pcs[q] == Idle && |more| == 2
    ensures w.lock.Some? && q in Alone(w, p, tokens).pcs
    ensures w.lock.value.claim.None? ==>
              var taken := Alone(Alone(w, p, tokens), q, more);
              && Holds(taken, q) && !Holds(taken, p)
              && taken.lock == Some(Dir(Some(Owner(q, more[0])), None))
  {
    ReleaseFrees(actions, w, p, tokens);
    if w.lock.value.claim.None? {
      var free := Alone(w, p, tokens);
      assert more[..0] == [] && more[..2] == more && free.pcs == free.pcs[q := Idle];
      TakeFree(free, q, more, 0, None);
    }
  }

  // ---------------------------------------------------------------- an attempt ends and cleans up

  /** How many operations an attempt, or a release, still takes at most. */
  function Rank(pc: Pc): (r: nat) {
    match pc
    case Idle => 0
    case Rename(_) => 15
    case Examine => 14
    case ReadOwner => 13
    case CreateClaim(_, retried) => if retried then 8 else 12
    case ReadClaim(_) => 11
    case DropClaim(_, _) => 10
    case FillClaim(_, _) => 7
    case VerifyOwner(_, _) => 6
    case UnlinkOwner(_, _) => 5
    case DropOwnClaim(_) => 4
    case UndoClaim(_) => 2
    case RemoveDirectory => 1
    case ListDirectory => 5
    case ReadLoneClaim => 4
    case DropLoneClaim(_) => 3
    case RemoveIncomplete => 1
    case Holding(_) => 3
    case UnlinkOwn(_) => 2
    case RemoveOwn => 1
    case Matched(_, next) => if next.RemoveDirectory? then 3 else 1 + Rank(next)
  }

  /** Whatever the other processes do, each operation of an attempt brings it nearer its end, holding the lock or not,
      whether it succeeds or fails; so it takes at most fifteen. */
  lemma AttemptEnds(w: World, p: Pid, token: nat, unlink: bool)
    requires p in w.pcs && w.pcs[p] != Idle
    ensures Rank(Advance(w, p, token).pcs[p]) < Rank(w.pcs[p])
    ensures !w.pcs[p].Holding? ==> Rank(Fail(w, p, unlink).pcs[p]) < Rank(w.pcs[p])
  {
    AdvanceLowers(w, p, token);
    if !w.pcs[p].Holding? {
      FailLowers(w, p, unlink);
    }
  }

  lemma AdvanceLowers(w: World, p: Pid, token: nat)
    requires p in w.pcs && w.pcs[p] != Idle
    ensures Rank(Advance(w, p, token).pcs[p]) < Rank(w.pcs[p])
  {
  }

  lemma FailLowers(w: World, p: Pid, unlink: bool)
    requires p in w.pcs && w.pcs[p] != Idle && !w.pcs[p].Holding?
    ensures Rank(Fail(w, p, unlink).pcs[p]) < Rank(w.pcs[p])
  {
  }

  /** No I/O error, and no unlink of a claim other than the one compared. */
  predicate Smooth(w: World, a: Action) {
    !a.IoError? && Undisturbed(w, a)
  }

  /** A live process whose claim is there has not finished with it. */
  ghost predicate ClaimsTended(w: World) {
    w.lock.Some? && w.lock.value.claim.Some? ==>
      var p := w.lock.value.claim.value.claimant.pid;
      p in w.alive && p in w.pcs ==> Tends(w.pcs[p], w.lock.value.claim.value)
  }

  /** The process is between the creation and the removal of this claim of its own. */
  predicate Tends(pc: Pc, mine: Claim) {
    match pc
    case FillClaim(_, me) => mine == Torn(me)
    case VerifyOwner(_, me) => mine == Written(me)
    case UnlinkOwner(_, me) => mine == Written(me)
    case DropOwnClaim(me) => mine == Written(me)
    case UndoClaim(me) => mine == Written(me)
    case Matched(expected, next) => mine == Written(expected) && (next.RemoveDirectory? || next.Idle?)
    case _ => false
  }

  lemma TendedStep(w: World, a: Action)
    requires Inv(w) && ClaimsTended(w) && Enabled(w, a) && Smooth(w, a)
    ensures ClaimsTended(Do(w, a))
  {
    if a.Run? {
      assert Relies(w, a.p, w.pcs[a.p]);
    }
  }

  /** In every such run a process that is not in an attempt has no claim in the directory. */
  lemma {:induction false} NoClaimLeft(actions: seq<Action>, w: World)
    requires ReachesBy(Smooth, actions, w)
    ensures Inv(w) && ClaimsTended(w)
    ensures forall p :: p in w.alive && p in w.pcs && w.pcs[p] == Idle && w.lock.Some? && w.lock.value.claim.Some? ==>
              w.lock.value.claim.value.claimant.pid != p
    decreases |actions|
  {
    if actions != [] {
      var a := actions[|actions| - 1];
      var before :| && ReachesBy(Smooth, actions[..|actions| - 1], before)
                    && Enabled(before, a) && Smooth(before, a) && w == Do(before, a);
      NoClaimLeft(actions[..|actions| - 1], before);
      TendedStep(before, a);
      StepKeepsInv(before, a);
    }
  }

  // ---------------------------------------------------------------- when no unlink is disturbed

  /** No two live processes are between the comparison and the unlink of the same claim. */
  predicate OneAtATime(w: World, a: Action) {
    forall p, q | p in w.alive && q in w.alive && p in w.pcs && q in w.pcs ::
      w.pcs[p].Matched? && w.pcs[q].Matched? && w.pcs[p].expected == w.pcs[q].expected ==> p == q
  }

  /** What was compared is still there. */
  ghost predicate ClaimsStay(w: World) {
    forall p :: p in w.alive && p in w.pcs && w.pcs[p].Matched? ==> IsClaim(w, w.pcs[p].expected)
  }

  lemma OneAtATimeStep(w: World, a: Action)
    requires Inv(w) && Enabled(w, a) && OneAtATime(w, a) && ClaimsStay(w)
    ensures Undisturbed(w, a) && ClaimsStay(Do(w, a))
  {
    var w' := Do(w, a);
    if a.Run? || a.IoError? {
      assert Relies(w, a.p, w.pcs[a.p]);
    }
    forall p | p in w'.alive && p in w'.pcs && w'.pcs[p].Matched? ensures IsClaim(w', w'.pcs[p].expected) {
      if p in w.alive && p in w.pcs && w'.pcs[p] == w.pcs[p] {
        assert IsClaim(w, w.pcs[p].expected);
      }
    }
  }

  lemma {:induction false} OneAtATimeRuns(actions: seq<Action>, w: World)
    requires ReachesBy(OneAtATime, actions, w)
    ensures ReachesBy(Undisturbed, actions, w) && Inv(w) && ClaimsStay(w)
    decreases |actions|
  {
    if actions != [] {
      var a := actions[|actions| - 1];
      var before :| && ReachesBy(OneAtATime, actions[..|actions| - 1], before)
                    && Enabled(before, a) && OneAtATime(before, a) && w == Do(before, a);
      OneAtATimeRuns(actions[..|actions| - 1], before);
      OneAtATimeStep(before, a);
      StepKeepsInv(before, a);
    }
  }

  /** Only two processes that take the same claim away at once can break the lock: in every run in which no two live
      processes are between the comparison and the unlink of one claim, at most one holds it. */
  lemma ExclusionOneAtATime(actions: seq<Action>, w: World)
    requires ReachesBy(OneAtATime, actions, w)
    ensures forall p, q :: Holds(w, p) && Holds(w, q) ==> p == q
  {
    OneAtATimeRuns(actions, w);
    MutualExclusion(actions, w);
  }

  // ---------------------------------------------------------------- recovery by a lone process

  /** Process `p` runs on its own, one operation per token. */
  function Alone(w: World, p: Pid, tokens: seq<nat>): (w': World)
    requires p in w.pcs
    ensures p in w'.pcs && w'.alive == w.alive
  {
    if tokens == [] then w else Advance(Alone(w, p, tokens[..|tokens| - 1]), p, tokens[|tokens| - 1])
  }

  /** The lock is free, or whatever earlier processes left there can be read and belongs to none that is alive. */
  predicate Recoverable(w: World) {
    w.lock.Some? ==>
      && (w.lock.value.owner.Some? ==> w.lock.value.owner.value.pid !in w.alive)
      && (w.lock.value.claim.Some? ==>
          w.lock.value.claim.value.Written? && w.lock.value.claim.value.claimant.pid !in w.alive)
  }

  lemma AloneNext(w: World, p: Pid, tokens: seq<nat>, i: nat)
    requires p in w.pcs && i < |tokens|
    ensures Alone(w, p, tokens[..i + 1]) == Advance(Alone(w, p, tokens[..i]), p, tokens[i])
  {
    assert tokens[..i + 1][..i] == tokens[..i];
  }

  ghost predicate At(w0: World, p: Pid, tokens: seq<nat>, i: nat, lock: Option<Dir>, pc: Pc)
    requires p in w0.pcs && i <= |tokens|
  {
    Alone(w0, p, tokens[..i]) == Goto(w0.(lock := lock), p, pc)
  }

  /** One operation, from a known place to a known place. */
  lemma Next(w0: World, p: Pid, tokens: seq<nat>, i: nat, lock: Option<Dir>, pc: Pc, lock': Option<Dir>, pc': Pc)
    requires p in w0.pcs && i < |tokens| && At(w0, p, tokens, i, lock, pc)
    requires var w := Goto(w0.(lock := lock), p, pc);
             Advance(w, p, tokens[i]) == Goto(w.(lock := lock'), p, pc')
    ensures At(w0, p, tokens, i + 1, lock', pc')
  {
    AloneNext(w0, p, tokens, i);
  }

  /** From a free or empty lock path two operations suffice. */
  lemma TakeFree(w0: World, p: Pid, tokens: seq<nat>, i: nat, lock: Option<Dir>)
    requires p in w0.pcs && i + 2 <= |tokens| && At(w0, p, tokens, i, lock, Idle)
             && (lock == None || lock == Some(EMPTY))
    ensures At(w0, p, tokens, i + 2, Some(Dir(Some(Owner(p, tokens[i])), None)), Holding(Owner(p, tokens[i])))
  {
    var me := Owner(p, tokens[i]);
    Next(w0, p, tokens, i, lock, Idle, lock, Rename(me));
    Next(w0, p, tokens, i + 1, lock, Rename(me), Some(Dir(Some(me), None)), Holding(me));
  }

  lemma RefusedRename(w0: World, p: Pid, tokens: seq<nat>, dir: Dir)
    requires p in w0.pcs && 3 <= |tokens| && w0.lock == Some(dir) && dir != EMPTY && w0.pcs[p] == Idle
    ensures At(w0, p, tokens, 3, Some(dir), ReadOwner)
  {
    assert tokens[..0] == [] && w0.pcs == w0.pcs[p := Idle];
    var me := Owner(p, tokens[0]);
    Next(w0, p, tokens, 0, Some(dir), Idle, Some(dir), Rename(me));
    Next(w0, p, tokens, 1, Some(dir), Rename(me), Some(dir), Examine);
    Next(w0, p, tokens, 2, Some(dir), Examine, Some(dir), ReadOwner);
  }

  /** A lone process claims a stale lock. */
  lemma ClaimFrom(w0: World, p: Pid, tokens: seq<nat>, i: nat, seen: Owner, retried: bool)
    requires p in w0.pcs && p in w0.alive && seen.pid !in w0.alive && i + 3 <= |tokens|
    requires At(w0, p, tokens, i, Some(Dir(Some(seen), None)), CreateClaim(seen, retried))
    ensures var me := Owner(p, tokens[i]);
            At(w0, p, tokens, i + 3, Some(Dir(Some(seen), Some(Written(me)))), UnlinkOwner(seen, me))
  {
    var me := Owner(p, tokens[i]);
    var torn, full := Some(Dir(Some(seen), Some(Torn(me)))), Some(Dir(Some(seen), Some(Written(me))));
    Next(w0, p, tokens, i, Some(Dir(Some(seen), None)), CreateClaim(seen, retried), torn, FillClaim(seen, me));
    Next(w0, p, tokens, i + 1, torn, FillClaim(seen, me), full, VerifyOwner(seen, me));
    Next(w0, p, tokens, i + 2, full, VerifyOwner(seen, me), full, UnlinkOwner(seen, me));
  }

  /** With its claim in place, it unlinks the dead owner, its claim and the directory. */
  lemma UnlinkFrom(w0: World, p: Pid, tokens: seq<nat>, i: nat, seen: Owner, me: Owner)
    requires p in w0.pcs && i + 4 <= |tokens|
    requires At(w0, p, tokens, i, Some(Dir(Some(seen), Some(Written(me)))), UnlinkOwner(seen, me))
    ensures At(w0, p, tokens, i + 4, None, Idle)
  {
    var full, alone := Some(Dir(Some(seen), Some(Written(me)))), Some(Dir(None, Some(Written(me))));
    Next(w0, p, tokens, i, full, UnlinkOwner(seen, me), alone, DropOwnClaim(me));
    Next(w0, p, tokens, i + 1, alone, DropOwnClaim(me), alone, Matched(me, RemoveDirectory));
    Unlink(w0, p, tokens, i + 2, None, me, RemoveDirectory);
    Next(w0, p, tokens, i + 3, Some(EMPTY), RemoveDirectory, None, Idle);
  }

  /** A dead claimant's file found beside the owner file is replaced. */
  lemma ReplaceClaim(w: World, p: Pid, tokens: seq<nat>, seen: Owner, other: Owner)
    requires p in w.pcs && other.pid !in w.alive && |tokens| >= 8
    requires w.lock == Some(Dir(Some(seen), Some(Written(other))))
             && At(w, p, tokens, 4, w.lock, CreateClaim(seen, false))
    ensures At(w, p, tokens, 8, Some(Dir(Some(seen), None)), CreateClaim(seen, true))
  {
    Next(w, p, tokens, 4, w.lock, CreateClaim(seen, false), w.lock, ReadClaim(seen));
    Next(w, p, tokens, 5, w.lock, ReadClaim(seen), w.lock, DropClaim(seen, other));
    Next(w, p, tokens, 6, w.lock, DropClaim(seen, other), w.lock, Matched(other, CreateClaim(seen, true)));
    Unlink(w, p, tokens, 7, Some(seen), other, CreateClaim(seen, true));
  }

  /** The unlink after a comparison that succeeded. */
  lemma Unlink(w: World, p: Pid, tokens: seq<nat>, i: nat, owner: Option<Owner>, claimant: Owner, next: Pc)
    requires p in w.pcs && i < |tokens|
    requires At(w, p, tokens, i, Some(Dir(owner, Some(Written(claimant)))), Matched(claimant, next))
    ensures At(w, p, tokens, i + 1, Some(Dir(owner, None)), next)
  {
    Next(w, p, tokens, i, Some(Dir(owner, Some(Written(claimant)))), Matched(claimant, next), Some(Dir(owner, None)),
         next);
  }

  lemma RecoverStaleOwner(w: World, p: Pid, tokens: seq<nat>, seen: Owner, claim: Option<Claim>) returns (n: nat)
    requires w.alive == {p} && p in w.pcs && Recoverable(w) && |tokens| >= 17
    requires w.lock == Some(Dir(Some(seen), claim)) && At(w, p, tokens, 3, w.lock, ReadOwner)
    ensures n <= 15 && At(w, p, tokens, n, None, Idle)
  {
    Next(w, p, tokens, 3, w.lock, ReadOwner, w.lock, CreateClaim(seen, false));
    n := 4;
    if claim.Some? {
      ReplaceClaim(w, p, tokens, seen, claim.value.claimant);
      n := 8;
    }
    ClaimFrom(w, p, tokens, n, seen, claim.Some?);
    UnlinkFrom(w, p, tokens, n + 3, seen, Owner(p, tokens[n]));
    n := n + 7;
  }

  lemma FindLoneClaim(w: World, p: Pid, tokens: seq<nat>, other: Owner)
    requires p in w.pcs && other.pid !in w.alive && |tokens| >= 9
    requires w.lock == Some(Dir(None, Some(Written(other)))) && At(w, p, tokens, 3, w.lock, ReadOwner)
    ensures At(w, p, tokens, 6, w.lock, DropLoneClaim(other))
  {
    Next(w, p, tokens, 3, w.lock, ReadOwner, w.lock, ListDirectory);
    Next(w, p, tokens, 4, w.lock, ListDirectory, w.lock, ReadLoneClaim);
    Next(w, p, tokens, 5, w.lock, ReadLoneClaim, w.lock, DropLoneClaim(other));
  }

  lemma ClearLoneClaim(w: World, p: Pid, tokens: seq<nat>, other: Owner)
    requires p in w.pcs && |tokens| >= 9
    requires w.lock == Some(Dir(None, Some(Written(other)))) && At(w, p, tokens, 6, w.lock, DropLoneClaim(other))
    ensures At(w, p, tokens, 9, None, Idle)
  {
    Next(w, p, tokens, 6, w.lock, DropLoneClaim(other), w.lock, Matched(other, RemoveIncomplete));
    Unlink(w, p, tokens, 7, None, other, RemoveIncomplete);
    Next(w, p, tokens, 8, Some(EMPTY), RemoveIncomplete, None, Idle);
  }

  /** Whatever crashed processes left behind, a lone process acquires the lock within seventeen operations,
      in its second attempt at the latest. */
  lemma LoneProcessRecovers(w: World, p: Pid, tokens: seq<nat>) returns (n: nat)
    requires w.alive == {p} && p in w.pcs && w.pcs[p] == Idle && Recoverable(w) && |tokens| >= 17
    ensures n <= 17 && Holds(Alone(w, p, tokens[..n]), p)
  {
    n := 0;
    var lock := w.lock;
    assert tokens[..0] == [] && w.pcs == w.pcs[p := Idle];
    if w.lock.Some? && w.lock.value != EMPTY {
      var dir := w.lock.value;
      RefusedRename(w, p, tokens, dir);
      if dir.owner.Some? {
        n := RecoverStaleOwner(w, p, tokens, dir.owner.value, dir.claim);
      } else {
        FindLoneClaim(w, p, tokens, dir.claim.value.claimant);
        ClearLoneClaim(w, p, tokens, dir.claim.value.claimant);
        n := 9;
      }
      lock := None;
    }
    TakeFree(w, p, tokens, n, lock);
    n := n + 2;
  }

  /** A lone process that has not got past what it cannot recover. */
  predicate Stuck(w: World, p: Pid) {
    && w.alive == {p} && p in w.pcs && !Recoverable(w)
    && match w.pcs[p] {
         case Idle => true
         case Rename(_) => true
         case Examine => true
         case ReadOwner => true
         case ListDirectory => w.lock.value.owner.None?
         case CreateClaim(_, retried) => !retried && w.lock.value.claim.Some? && w.lock.value.owner.Some?
         case ReadClaim(_) => w.lock.value.claim.Some?
         case ReadLoneClaim => w.lock.value.claim.Some?
         case _ => false
       }
    && (w.lock.value.owner.Some? && w.lock.value.owner.value.pid in w.alive ==>
          w.pcs[p].Idle? || w.pcs[p].Rename? || w.pcs[p].Examine? || w.pcs[p].ReadOwner?)
  }

  /** Recoverability is exact: without it a lone process never acquires the lock, however long it tries. */
  lemma {:induction false} LoneProcessStuck(w: World, p: Pid, tokens: seq<nat>)
    requires w.alive == {p} && p in w.pcs && w.pcs[p] == Idle && !Recoverable(w)
    ensures Stuck(Alone(w, p, tokens), p) && !Holds(Alone(w, p, tokens), p)
    decreases |tokens|
  {
    if tokens != [] {
      LoneProcessStuck(w, p, tokens[..|tokens| - 1]);
    }
  }
}
