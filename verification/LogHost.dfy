/** The temporary PuTTY LogHost value (src/test-ui/accessclient-session.ts): a marker is linked into place before
    the registry is changed, and whoever finds the marker restores the value. One service instance at a time;
    every operation may fail, with or without having taken effect, and the service may crash between any two. */
module LogHost {
  import opened Basics

  type Value = Option<string>

  datatype Marker = Marker(temporary: string, previous: Value)

  /** On whose behalf a marker is restored. */
  datatype Reason = Recovering | Undoing | Finishing

  /** The next operation of the service. */
  datatype Pc =
    | Down
    | ReadMarker
    | Broken                                      // initialize() failed; nothing works until a restart
    | Ready
    | ReadValue(temporary: string)
    | WriteMarker(temporary: string, previous: Value)
    | WriteTemporary(marker: Marker)
    | Armed(marker: Marker)
    | Compare(reason: Reason, marker: Marker)
    | Rewrite(reason: Reason, marker: Marker)
    | RemoveMarker(reason: Reason, marker: Marker)

  datatype World = World(registry: Value, marker: Option<Marker>, pc: Pc, closed: bool)

  datatype Outcome = Succeeds | Fails(effect: bool)

  datatype Action =
    | Boot
    | Crash
    | Prepare(temporary: string)
    | Finish                       // verified, rejected, cancelled, timed out, or close()
    | Close
    | Operate(outcome: Outcome)
    | External(value: Value)       // another program changes LogHost

  predicate Enabled(w: World, a: Action) {
    match a
    case Boot => w.pc.Down?
    case Crash => !w.pc.Down?
    case Prepare(_) => w.pc.Ready? && !w.closed
    case Finish => w.pc.Armed?
    case Close => !w.pc.Down?
    case Operate(_) => !w.pc.Down? && !w.pc.Broken? && !w.pc.Ready? && !w.pc.Armed?
    case External(_) => true
  }

  /** Where a failed restore leaves the service. */
  function GiveUp(w: World, reason: Reason): (r: World) {
    match reason
    case Recovering => w.(pc := Broken)
    case Undoing => w.(pc := Ready, closed := true)
    case Finishing => w.(pc := Ready)
  }

  function Operation(w: World, outcome: Outcome): (r: World)
    requires Enabled(w, Operate(outcome))
  {
    var ok := outcome.Succeeds?;
    var effective := ok || outcome.effect;
    match w.pc
    case ReadMarker =>
      if !ok then w.(pc := Broken)
      else if w.marker.None? then w.(pc := Ready)
      else w.(pc := Compare(Recovering, w.marker.value))
    case ReadValue(temporary) => w.(pc := if ok then WriteMarker(temporary, w.registry) else Ready)
    case WriteMarker(temporary, previous) =>
      // link(2) refuses an existing marker
      var marker := Marker(temporary, previous);
      if w.marker.Some? then w.(pc := Ready)
      else w.(marker := if effective then Some(marker) else None, pc := if ok then WriteTemporary(marker) else Ready)
    case WriteTemporary(marker) =>
      w.(registry := if effective then Some(marker.temporary) else w.registry,
         pc := if ok then Armed(marker) else Compare(Undoing, marker))
    case Compare(reason, marker) =>
      if !ok then GiveUp(w, reason)
      else w.(pc := if w.registry == Some(marker.temporary) then Rewrite(reason, marker)
              else RemoveMarker(reason, marker))
    case Rewrite(reason, marker) =>
      var w' := if effective then w.(registry := marker.previous) else w;
      if ok then w'.(pc := RemoveMarker(reason, marker)) else GiveUp(w', reason)
    case RemoveMarker(reason, marker) =>
      var w' := if effective then w.(marker := None) else w;
      if ok then w'.(pc := Ready) else GiveUp(w', reason)
  }

  function Do(w: World, a: Action): (r: World)
    requires Enabled(w, a)
  {
    match a
    case Boot => w.(pc := ReadMarker, closed := false)
    case Crash => w.(pc := Down)
    case Prepare(temporary) => w.(pc := ReadValue(temporary))
    case Finish => w.(pc := Compare(Finishing, w.pc.marker))
    case Close => w.(closed := true)
    case Operate(outcome) => Operation(w, outcome)
    case External(value) => w.(registry := value)
  }

  /** `to` is reached from `from` by the given actions. */
  ghost predicate Runs(from: World, actions: seq<Action>, to: World) {
    if actions == [] then to == from
    else
      var a := actions[|actions| - 1];
      exists before :: Runs(from, actions[..|actions| - 1], before) && Enabled(before, a) && to == Do(before, a)
  }

  ghost predicate Undisturbed(actions: seq<Action>) {
    forall i :: 0 <= i < |actions| ==> !actions[i].External?
  }

  function Installed(original: Value): World {
    World(original, None, Down, false)
  }

  // ---------------------------------------------------------------- the invariant

  /** The service works on the marker that is really there. */
  predicate Shape(w: World) {
    w.pc.WriteTemporary? || w.pc.Armed? || w.pc.Compare? || w.pc.Rewrite? || w.pc.RemoveMarker? ==>
      w.marker == Some(w.pc.marker)
  }

  /** The value that a restore of the present marker leaves behind. */
  function Restored(w: World): Value {
    if w.marker.Some? && w.registry == Some(w.marker.value.temporary) then w.marker.value.previous else w.registry
  }

  /** The service is past its look at the registry and will not look again before it changes it. */
  predicate Committed(w: World) {
    (w.pc.WriteMarker? && w.marker.None?) || w.pc.WriteTemporary? || w.pc.Rewrite?
  }

  function Pending(pc: Pc): Value
    requires pc.WriteMarker? || pc.WriteTemporary? || pc.Rewrite?
  {
    if pc.WriteMarker? then pc.previous else pc.marker.previous
  }

  /** Whatever happens to the service from here, the value it owes is `value`. */
  predicate Owes(w: World, value: Value) {
    && Shape(w) && Restored(w) == value
    && (Committed(w) ==> Pending(w.pc) == value)
    && (w.pc.RemoveMarker? ==> w.registry == value)
  }

  lemma StepOwes(w: World, a: Action, value: Value)
    requires Owes(w, value) && Enabled(w, a) && !a.External?
    ensures Owes(Do(w, a), value)
  {
  }

  lemma {:induction false} RunOwes(from: World, actions: seq<Action>, to: World, value: Value)
    requires Owes(from, value) && Runs(from, actions, to) && Undisturbed(actions)
    ensures Owes(to, value)
    decreases |actions|
  {
    if actions != [] {
      var a := actions[|actions| - 1];
      var before :| Runs(from, actions[..|actions| - 1], before) && Enabled(before, a) && to == Do(before, a);
      RunOwes(from, actions[..|actions| - 1], before, value);
      assert a == actions[|actions| - 1];
      StepOwes(before, a, value);
    }
  }

  lemma StepShape(w: World, a: Action)
    requires Shape(w) && Enabled(w, a)
    ensures Shape(Do(w, a))
  {
  }

  lemma {:induction false} RunShape(from: World, actions: seq<Action>, to: World)
    requires Shape(from) && Runs(from, actions, to)
    ensures Shape(to)
    decreases |actions|
  {
    if actions != [] {
      var a := actions[|actions| - 1];
      var before :| Runs(from, actions[..|actions| - 1], before) && Enabled(before, a) && to == Do(before, a);
      RunShape(from, actions[..|actions| - 1], before);
      StepShape(before, a);
    }
  }

  // ---------------------------------------------------------------- recovery

  function Restoring(w: World, marker: Marker): (actions: seq<Action>) {
    if w.registry == Some(marker.temporary) then [Operate(Succeeds)] + [Operate(Succeeds)] + [Operate(Succeeds)]
    else [Operate(Succeeds)] + [Operate(Succeeds)]
  }

  /** A restart whose operations succeed: at most five steps. */
  function Recovery(w: World): (actions: seq<Action>) {
    [Boot] + [Operate(Succeeds)] + if w.marker.None? then [] else Restoring(w, w.marker.value)
  }

  lemma Extend(from: World, actions: seq<Action>, w: World, a: Action)
    requires Runs(from, actions, w) && Enabled(w, a)
    ensures Runs(from, actions + [a], Do(w, a))
  {
    var all := actions + [a];
    assert all[..|all| - 1] == actions && all[|all| - 1] == a;
  }

  lemma RecoveryRestores(w: World)
    requires w.pc.Down?
    ensures Runs(w, Recovery(w), World(Restored(w), None, Ready, false))
  {
    var go := Operate(Succeeds);
    Extend(w, [], w, Boot);
    var w1 := Do(w, Boot);
    assert [] + [Boot] == [Boot];
    Extend(w, [Boot], w1, go);
    var w2 := Do(w1, go);
    if w.marker.Some? {
      RestoreRuns(w2);
      Joined(w, [Boot] + [go], w2, Restoring(w2, w.marker.value), World(Restored(w), None, Ready, false));
    } else {
      assert [Boot] + [go] + [] == [Boot] + [go];
    }
  }

  lemma RestoreRuns(w: World)
    requires w.pc.Compare? && Shape(w)
    ensures Runs(w, Restoring(w, w.pc.marker), World(Restored(w), None, Ready, w.closed))
  {
    var go := Operate(Succeeds);
    var reason, marker := w.pc.reason, w.pc.marker;
    var rewrite, remove := w.(pc := Rewrite(reason, marker)),
      World(Restored(w), w.marker, RemoveMarker(reason, marker), w.closed);
    Extend(w, [], w, go);
    assert [] + [go] == [go];
    if w.registry == Some(marker.temporary) {
      assert Do(w, go) == rewrite;
      Extend(w, [go], rewrite, go);
      assert Do(rewrite, go) == remove;
      RemoveRuns(w, [go] + [go], remove);
    } else {
      assert Do(w, go) == remove;
      RemoveRuns(w, [go], remove);
    }
  }

  lemma RemoveRuns(from: World, actions: seq<Action>, w: World)
    requires Runs(from, actions, w) && w.pc.RemoveMarker?
    ensures Runs(from, actions + [Operate(Succeeds)], World(w.registry, None, Ready, w.closed))
  {
    Extend(from, actions, w, Operate(Succeeds));
  }

  /** Crash safety: wherever the service stops, after any failures, crashes and restarts, a recovery whose
      operations succeed puts the registry back to its value before arming and leaves no marker. */
  lemma CrashSafe(original: Value, actions: seq<Action>, w: World)
    requires Runs(Installed(original), actions, w) && Undisturbed(actions)
    ensures var down := w.(pc := Down);
            Runs(down, Recovery(down), World(original, None, Ready, false))
    ensures w.marker.None? ==> w.registry == original
  {
    RunOwes(Installed(original), actions, w, original);
    RecoveryRestores(w.(pc := Down));
  }

  // ---------------------------------------------------------------- a failed restore

  /** Idle or trying to arm, with a marker left by a restore that failed. */
  predicate Stranded(w: World) {
    w.marker.Some? && (w.pc.Ready? || w.pc.ReadValue? || w.pc.WriteMarker? || w.pc.Broken?)
  }

  /** Until a restart, a failed restore blocks every later arming: marker and registry stay as they are. */
  lemma {:induction false} FailedRestoreBlocks(from: World, actions: seq<Action>, to: World)
    requires Stranded(from) && Runs(from, actions, to) && Undisturbed(actions) && Crash !in actions
    ensures Stranded(to) && to.marker == from.marker && to.registry == from.registry
    decreases |actions|
  {
    if actions != [] {
      var a := actions[|actions| - 1];
      var before :| Runs(from, actions[..|actions| - 1], before) && Enabled(before, a) && to == Do(before, a);
      FailedRestoreBlocks(from, actions[..|actions| - 1], before);
      assert a == actions[|actions| - 1];
    }
  }

  // ---------------------------------------------------------------- arming

  /** In every undisturbed run an armed service has the temporary value in the registry and the original in its
      marker. */
  lemma ArmedIsSet(original: Value, actions: seq<Action>, w: World)
    requires Runs(Installed(original), actions, w) && Undisturbed(actions) && w.pc.Armed?
    ensures w.registry == Some(w.pc.marker.temporary) && w.marker == Some(w.pc.marker)
    ensures w.pc.marker.temporary == LastPrepared(actions)
    ensures original != w.registry ==> w.pc.marker.previous == original
  {
    RunOwes(Installed(original), actions, w, original);
    RunArms(Installed(original), actions, w);
  }

  /** The temporary value of the latest arming. */
  function LastPrepared(actions: seq<Action>): (r: string) {
    if actions == [] then ""
    else
      var a := actions[|actions| - 1];
      if a.Prepare? then a.temporary else LastPrepared(actions[..|actions| - 1])
  }

  /** An arming works with its own value, and is done once that is in the registry. */
  predicate Arms(w: World, temporary: string) {
    match w.pc
    case ReadValue(t) => t == temporary
    case WriteMarker(t, _) => t == temporary
    case WriteTemporary(marker) => marker.temporary == temporary
    case Armed(marker) => marker.temporary == temporary && w.registry == Some(temporary)
    case _ => true
  }

  lemma {:induction false} RunArms(from: World, actions: seq<Action>, to: World)
    requires from.pc.Down? && Runs(from, actions, to) && Undisturbed(actions)
    ensures Arms(to, LastPrepared(actions))
    decreases |actions|
  {
    if actions != [] {
      var a := actions[|actions| - 1];
      var before :| Runs(from, actions[..|actions| - 1], before) && Enabled(before, a) && to == Do(before, a);
      RunArms(from, actions[..|actions| - 1], before);
      assert a == actions[|actions| - 1];
    }
  }

  /** An arming that finds no marker and whose three operations succeed is armed. */
  lemma ArmingArms(w: World, temporary: string)
    requires Enabled(w, Prepare(temporary)) && w.marker.None?
    ensures var go := Operate(Succeeds);
            var marker := Marker(temporary, w.registry);
            Runs(w, [Prepare(temporary)] + [go] + [go] + [go],
                 World(Some(temporary), Some(marker), Armed(marker), w.closed))
  {
    var go, marker := Operate(Succeeds), Marker(temporary, w.registry);
    Extend(w, [], w, Prepare(temporary));
    assert [] + [Prepare(temporary)] == [Prepare(temporary)];
    Extend(w, [Prepare(temporary)], w.(pc := ReadValue(temporary)), go);
    Extend(w, [Prepare(temporary)] + [go], w.(pc := WriteMarker(temporary, w.registry)), go);
    Extend(w, [Prepare(temporary)] + [go] + [go], w.(marker := Some(marker), pc := WriteTemporary(marker)), go);
  }

  predicate Uncrashed(actions: seq<Action>) {
    forall i :: 0 <= i < |actions| ==> !actions[i].Crash?
  }

  predicate NothingPrepared(actions: seq<Action>) {
    forall i :: 0 <= i < |actions| ==> !actions[i].Prepare?
  }

  lemma ClosedStep(w: World, a: Action)
    requires w.closed && !w.pc.Down? && Enabled(w, a) && !a.Crash?
    ensures !a.Prepare? && Do(w, a).closed && !Do(w, a).pc.Down?
  {
  }

  /** A service that is closed stays closed until it is restarted, and no arming begins. */
  lemma {:induction false} ClosedArmsNoMore(from: World, actions: seq<Action>, to: World)
    requires from.closed && !from.pc.Down? && Runs(from, actions, to) && Uncrashed(actions)
    ensures to.closed && !to.pc.Down? && NothingPrepared(actions)
    decreases |actions|
  {
    if actions != [] {
      var front, a := actions[..|actions| - 1], actions[|actions| - 1];
      var before :| Runs(from, front, before) && Enabled(before, a) && to == Do(before, a);
      assert forall i :: 0 <= i < |front| ==> front[i] == actions[i];
      ClosedArmsNoMore(from, front, before);
      ClosedStep(before, a);
    }
  }

  /** close() closes it, and so does an arming that failed and could not be undone. */
  lemma WhatCloses(w: World, effect: bool)
    ensures Enabled(w, Close) ==> Do(w, Close).closed
    ensures (w.pc.Compare? || w.pc.Rewrite? || w.pc.RemoveMarker?) && w.pc.reason == Undoing ==>
              Enabled(w, Operate(Fails(effect))) && Do(w, Operate(Fails(effect))).closed
  {
  }

  /** Finishing an armed service, if its operations succeed, puts the original back and removes the marker. */
  lemma FinishRestores(original: Value, actions: seq<Action>, w: World)
    requires Runs(Installed(original), actions, w) && Undisturbed(actions) && w.pc.Armed?
    ensures Runs(w, [Finish] + Restoring(w, w.pc.marker), World(original, None, Ready, w.closed))
  {
    RunOwes(Installed(original), actions, w, original);
    var finishing := w.(pc := Compare(Finishing, w.pc.marker));
    Extend(w, [], w, Finish);
    assert [] + [Finish] == [Finish];
    RestoreRuns(finishing);
    Joined(w, [Finish], finishing, Restoring(w, w.pc.marker), World(original, None, Ready, w.closed));
  }

  /** An arming that finds a marker gives up at once and leaves everything as it is. */
  lemma MarkerRefusesArming(w: World, outcome: Outcome)
    requires w.pc.WriteMarker? && w.marker.Some?
    ensures Do(w, Operate(outcome)) == w.(pc := Ready)
  {
  }

  /** A service that could not read or restore the marker at its start is broken, and stays so until it is restarted. */
  lemma {:induction false} BrokenUntilRestart(w: World, actions: seq<Action>, to: World)
    requires (w.pc.ReadMarker? || w.pc.Compare? || w.pc.Rewrite? || w.pc.RemoveMarker?)
             && (!w.pc.ReadMarker? ==> w.pc.reason == Recovering)
    requires Runs(Do(w, Operate(Fails(false))), actions, to) && Undisturbed(actions) && Crash !in actions
    ensures to.pc.Broken? && to.marker == w.marker && to.registry == w.registry
    decreases |actions|
  {
    if actions != [] {
      var a, failed := actions[|actions| - 1], Do(w, Operate(Fails(false)));
      var before :| Runs(failed, actions[..|actions| - 1], before) && Enabled(before, a) && to == Do(before, a);
      assert a in actions && a == actions[|actions| - 1] && Crash !in actions[..|actions| - 1];
      BrokenUntilRestart(w, actions[..|actions| - 1], before);
    }
  }

  // ---------------------------------------------------------------- a third party's value

  /** Another program's value survives: the service is not between its look at the registry and its own write
      (or the value is the one it will write), and the value is not mistaken for the temporary one. */
  predicate Spared(w: World, value: Value) {
    && (Committed(w) ==> value == Pending(w.pc))
    && (w.marker.Some? && value == Some(w.marker.value.temporary) ==> w.marker.value.previous == value)
  }

  ghost predicate AlwaysKept(w: World, value: Value) {
    forall actions, to :: Runs(w, actions, to) && Undisturbed(actions) && to.marker.None? && to.pc.Ready? ==>
      to.registry == value
  }

  /** In every state that any run can reach, a value another program writes is left alone by everything the
      service does afterwards exactly if it is spared. */
  lemma ThirdPartyValue(original: Value, actions: seq<Action>, w: World, value: Value)
    requires Runs(Installed(original), actions, w)
    ensures AlwaysKept(Do(w, External(value)), value) <==> Spared(w, value)
  {
    RunShape(Installed(original), actions, w);
    var w' := Do(w, External(value));
    if Spared(w, value) {
      forall later, to | Runs(w', later, to) && Undisturbed(later) && to.marker.None? && to.pc.Ready?
        ensures to.registry == value {
        RunOwes(w', later, to, value);
      }
    } else {
      var later, to := LosingRun(w', value);
    }
  }

  /** A run of the service alone that ends without the value. */
  lemma LosingRun(w: World, value: Value) returns (actions: seq<Action>, to: World)
    requires Shape(w) && w.registry == value && !Spared(w, value)
    ensures Runs(w, actions, to) && Undisturbed(actions) && to.marker.None? && to.pc.Ready? && to.registry != value
  {
    if !Committed(w) {
      var down := w.(pc := Down);
      if w.pc.Down? {
        actions, to := Recovery(w), World(Restored(w), None, Ready, false);
        RecoveryRestores(w);
      } else {
        Extend(w, [], w, Crash);
        actions, to := RecoverAfter(w, [] + [Crash], down);
      }
    } else {
      var go := Operate(Succeeds);
      Extend(w, [], w, go);
      var w1 := Do(w, go);
      if w.pc.Rewrite? {
        Extend(w, [] + [go], w1, go);
        actions, to := [] + [go] + [go], Do(w1, go);
      } else {
        actions, to := LoseWhileArming(w, [] + [go], w1, value);
      }
    }
  }

  lemma LoseWhileArming(w: World, before: seq<Action>, w1: World, value: Value)
    returns (actions: seq<Action>, to: World)
    requires Runs(w, before, w1) && Undisturbed(before) && Shape(w1) && (w1.pc.WriteTemporary? || w1.pc.Armed?)
    requires w1.pc.marker.previous != value && (w1.pc.Armed? ==> w1.registry == Some(w1.pc.marker.temporary))
    ensures Runs(w, actions, to) && Undisturbed(actions) && to.marker.None? && to.pc.Ready? && to.registry != value
  {
    var armed, w2 := before, w1;
    if w1.pc.WriteTemporary? {
      Extend(w, before, w1, Operate(Succeeds));
      armed, w2 := before + [Operate(Succeeds)], Do(w1, Operate(Succeeds));
    }
    Extend(w, armed, w2, Crash);
    actions, to := RecoverAfter(w, armed + [Crash], Do(w2, Crash));
  }

  lemma RecoverAfter(from: World, before: seq<Action>, down: World) returns (actions: seq<Action>, to: World)
    requires Runs(from, before, down) && down.pc.Down? && Undisturbed(before)
    ensures Runs(from, actions, to) && Undisturbed(actions) && to == World(Restored(down), None, Ready, false)
  {
    RecoveryRestores(down);
    actions, to := before + Recovery(down), World(Restored(down), None, Ready, false);
    Joined(from, before, down, Recovery(down), to);
  }

  lemma {:induction false} Joined(from: World, first: seq<Action>, middle: World, second: seq<Action>, to: World)
    requires Runs(from, first, middle) && Runs(middle, second, to)
    ensures Runs(from, first + second, to)
    decreases |second|
  {
    if second == [] {
      assert first + second == first;
    } else {
      var a := second[|second| - 1];
      var before :| Runs(middle, second[..|second| - 1], before) && Enabled(before, a) && to == Do(before, a);
      Joined(from, first, middle, second[..|second| - 1], before);
      Extend(from, first + second[..|second| - 1], before, a);
      assert first + second[..|second| - 1] + [a] == first + second;
    }
  }
}
