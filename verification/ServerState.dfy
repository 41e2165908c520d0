/**
 One cluster of the query server: the pull loop rebuilds the indexes step by step
 while readers look at them. Each step below is one critical section or one call
 whose failure is a choice of the environment; readers may run between any two.
 */
module ServerState {
  import opened Wrappers

  /** Where the cluster's goroutine is. */
  datatype Phase =
    | MakeDir            // creating the first work directory
    | FirstClone
    | FirstSetGit
    | BuildResources     // rebuildIndexes: the resource index
    | ReadGit            // rebuildIndexes: reading the git client
    | BuildCommits
    | BuildChanges
    | SwapIndexes        // rebuildIndexes: publishing both git indexes
    | RecordPull(failed: bool)
    | Idle
    | Pull
    | MakeNewDir
    | Reclone
    | SetGit
    | Stopped            // the goroutine returned
    | Crashed            // Pull on a nil client

  /**
   Indexes are known by the number of the rebuild that made them; `rebuild` counts
   the rebuilds begun. `client` is the goroutine's own variable, the rest is shared.
   */
  datatype State = State(
    phase: Phase,
    rebuild: nat,
    client: Option<nat>,
    gc: Option<nat>,
    resources: nat,
    commitIdx: Option<nat>,
    changeIdx: Option<nat>,
    pulledOnce: bool,
    pullFailed: bool,
    countedAt: Option<nat>
  )

  const INITIAL := State(MakeDir, 0, None, None, 0, None, None, false, false, None)

  /** Starting rebuildIndexes. */
  function Begin(s: State): State {
    s.(phase := BuildResources, rebuild := s.rebuild + 1)
  }

  /** The goroutine's next step; `ok` is whether the call in it succeeds, and at rest whether a tick comes. */
  function Step(s: State, ok: bool): State {
    match s.phase
    case MakeDir => s.(phase := if ok then FirstClone else Stopped)
    case FirstClone => if ok then s.(phase := FirstSetGit, client := Some(0)) else s.(phase := Stopped)
    case FirstSetGit => Begin(s.(gc := s.client))
    case BuildResources => if ok then s.(phase := ReadGit, resources := s.rebuild) else s.(phase := RecordPull(true))
    case ReadGit => s.(phase := if s.gc.Some? then BuildCommits else RecordPull(true))
    case BuildCommits => s.(phase := if ok then BuildChanges else RecordPull(true))
    case BuildChanges => s.(phase := if ok then SwapIndexes else RecordPull(true))
    case SwapIndexes => s.(phase := RecordPull(false), commitIdx := Some(s.rebuild), changeIdx := Some(s.rebuild))
    case RecordPull(failed) =>
      s.(phase := Idle, pulledOnce := true, pullFailed := failed,
         countedAt := if failed then s.countedAt else Some(s.resources))
    case Idle => s.(phase := if ok then Pull else Stopped)
    case Pull => if s.client.None? then s.(phase := Crashed) else if ok then Begin(s) else s.(phase := MakeNewDir)
    case MakeNewDir => s.(phase := if ok then Reclone else RecordPull(true))
    case Reclone =>
      if ok then s.(phase := SetGit, client := Some(s.rebuild + 1)) else s.(phase := RecordPull(true), client := None)
    case SetGit => Begin(s.(gc := s.client))
    case Stopped => s
    case Crashed => s
  }

  /** The goroutine takes a step, or readers run. */
  predicate Next(s: State, s': State) {
    s' == s || s' == Step(s, true) || s' == Step(s, false)
  }

  predicate Linked(states: seq<State>, i: nat)
    requires i + 1 < |states|
  {
    Next(states[i], states[i + 1])
  }

  ghost predicate Run(states: seq<State>) {
    && states != [] && states[0] == INITIAL
    && forall i :: 0 <= i < |states| - 1 ==> Linked(states, i)
  }

  predicate Ready(s: State) {
    s.pulledOnce && !s.pullFailed
  }

  /** Inside rebuildIndexes, or about to record its outcome. */
  predicate Rebuilding(s: State) {
    s.phase in {BuildResources, ReadGit, BuildCommits, BuildChanges, SwapIndexes, RecordPull(true), RecordPull(false)}
  }

  // ----- Safety over every run -----

  /** What every reachable state satisfies. */
  predicate Inv(s: State) {
    && s.commitIdx == s.changeIdx
    && s.resources <= s.rebuild
    && (s.commitIdx.Some? ==> 1 <= s.commitIdx.value <= s.resources)
    && (s.phase in {ReadGit, BuildCommits, BuildChanges, SwapIndexes, RecordPull(false)} ==> s.resources == s.rebuild)
    && (s.phase == RecordPull(false) ==> s.commitIdx == Some(s.rebuild))
    && (s.phase in {BuildResources, ReadGit, BuildCommits, BuildChanges, SwapIndexes} ==>
          s.commitIdx.Some? ==> s.commitIdx.value < s.rebuild)
    && (s.phase !in {MakeDir, FirstClone, FirstSetGit, Stopped} ==> s.rebuild >= 1)
    && (Ready(s) ==>
          s.commitIdx.Some? && s.countedAt.Some?
          && (if s.phase == RecordPull(false) then s.countedAt.value <= s.rebuild else s.countedAt == s.commitIdx)
          && (s.resources != s.commitIdx.value ==> Rebuilding(s) && s.resources == s.rebuild))
    && (s.phase == Crashed ==> s.client.None?)
    && (s.client.None? ==> s.phase in {MakeDir, FirstClone, RecordPull(true), Idle, Pull, Stopped, Crashed})
    && (s.client.None? && s.phase in {Idle, Pull, Crashed} ==> !Ready(s))
    && (s.client.Some? && s.phase !in {FirstSetGit, SetGit} ==> s.gc == s.client)
  }

  lemma StartKeepsInv(s: State, ok: bool)
    requires Inv(s) && s.phase in {MakeDir, FirstClone, FirstSetGit, Stopped, Crashed}
    ensures Inv(Step(s, ok))
  {
  }

  lemma RebuildKeepsInv(s: State, ok: bool)
    requires Inv(s) && s.phase in {BuildResources, ReadGit, BuildCommits, BuildChanges, SwapIndexes}
    ensures Inv(Step(s, ok))
  {
  }

  lemma RecordKeepsInv(s: State, ok: bool)
    requires Inv(s) && (s.phase.RecordPull? || s.phase == Idle)
    ensures Inv(Step(s, ok))
  {
  }

  lemma PullKeepsInv(s: State, ok: bool)
    requires Inv(s) && s.phase in {Pull, MakeNewDir, Reclone, SetGit}
    ensures Inv(Step(s, ok))
  {
  }

  lemma StepKeepsInv(s: State, ok: bool)
    requires Inv(s)
    ensures Inv(Step(s, ok))
  {
    if s.phase in {MakeDir, FirstClone, FirstSetGit, Stopped, Crashed} {
      StartKeepsInv(s, ok);
    } else if s.phase in {BuildResources, ReadGit, BuildCommits, BuildChanges, SwapIndexes} {
      RebuildKeepsInv(s, ok);
    } else if s.phase.RecordPull? || s.phase == Idle {
      RecordKeepsInv(s, ok);
    } else {
      PullKeepsInv(s, ok);
    }
  }

  lemma {:induction false} RunKeepsInv(states: seq<State>, i: nat)
    requires Run(states) && i < |states|
    ensures Inv(states[i])
  {
    if i > 0 {
      RunKeepsInv(states, i - 1);
      assert Linked(states, i - 1);
      StepKeepsInv(states[i - 1], true);
      StepKeepsInv(states[i - 1], false);
    }
  }

  /**
   At every moment of every run the two git indexes are both unset or from one
   rebuild. While the server reports ready they are set, and the resource index is
   from that rebuild or from the one in progress.
   */
  lemma ReadyMeansIndexed(states: seq<State>, i: nat)
    requires Run(states) && i < |states|
    ensures states[i].commitIdx == states[i].changeIdx
    ensures Ready(states[i]) ==>
      && states[i].commitIdx.Some?
      && (states[i].resources == states[i].commitIdx.value
          || (Rebuilding(states[i]) && states[i].resources == states[i].rebuild))
  {
    RunKeepsInv(states, i);
  }

  /** A published index is never taken back, and never replaced by an older one. */
  lemma {:induction false} IndexesOnlyAdvance(states: seq<State>, i: nat, j: nat)
    requires Run(states) && i <= j < |states|
    ensures states[i].resources <= states[j].resources
    ensures states[i].commitIdx.Some? ==>
      states[j].commitIdx.Some? && states[i].commitIdx.value <= states[j].commitIdx.value
  {
    if i < j {
      IndexesOnlyAdvance(states, i, j - 1);
      RunKeepsInv(states, j - 1);
      assert Linked(states, j - 1);
    }
  }

  /** The state after calls with these outcomes, one after the other. */
  function After(s: State, outcomes: seq<bool>): State {
    if outcomes == [] then s else Step(After(s, outcomes[..|outcomes| - 1]), outcomes[|outcomes| - 1])
  }

  /** All three indexes are from one rebuild, the resource count too, and the server reports ready. */
  predicate UpToDate(s: State, rebuild: nat) {
    && s.phase == Idle && Ready(s) && s.rebuild == rebuild && s.resources == rebuild
    && s.commitIdx == s.changeIdx == s.countedAt == Some(rebuild)
  }

  lemma {:induction false} AfterOne(s: State, outcomes: seq<bool>, ok: bool)
    ensures After(s, outcomes + [ok]) == Step(After(s, outcomes), ok)
  {
    assert (outcomes + [ok])[..|outcomes|] == outcomes;
  }

  /** From a rebuild just begun, six calls that succeed and the record of the outcome. */
  lemma {:induction false} RebuildSucceeds(s: State, outcomes: seq<bool>)
    requires After(s, outcomes).phase == BuildResources && After(s, outcomes).gc.Some?
    ensures
      var t, u := After(s, outcomes), After(s, outcomes + [true, true, true, true, true, true]);
      UpToDate(u, t.rebuild) && u.client == t.client && u.gc == t.gc
  {
    var o1, o2, o3 := outcomes + [true], outcomes + [true, true], outcomes + [true, true, true];
    var o4, o5 := outcomes + [true, true, true, true], outcomes + [true, true, true, true, true];
    AfterOne(s, outcomes, true);
    AfterOne(s, o1, true);
    assert o1 + [true] == o2;
    AfterOne(s, o2, true);
    assert o2 + [true] == o3;
    AfterOne(s, o3, true);
    assert o3 + [true] == o4;
    AfterOne(s, o4, true);
    assert o4 + [true] == o5;
    AfterOne(s, o5, true);
    assert o5 + [true] == outcomes + [true, true, true, true, true, true];
  }

  /** A call that fails on the way to new indexes ends the tick: no index changes, and the server stops reporting ready. */
  lemma {:induction false} FailureKeepsIndexes(s: State)
    requires s.phase in {BuildResources, BuildCommits, BuildChanges, MakeNewDir, Reclone}
    ensures
      var u := After(s, [false, true]);
      && u.phase == Idle && !Ready(u) && u.pulledOnce && u.pullFailed
      && (u.commitIdx, u.changeIdx, u.resources, u.countedAt) == (s.commitIdx, s.changeIdx, s.resources, s.countedAt)
      && u.client == (if s.phase == Reclone then None else s.client) && u.gc == s.gc
  {
    assert [] + [false] == [false] && [false] + [true] == [false, true];
    AfterOne(s, [], false);
    AfterOne(s, [false], true);
  }

  /** Without a first work directory or clone the goroutine ends, and the cluster is never ready. */
  lemma {:induction false} NoFirstClone(outcomes: seq<bool>)
    requires outcomes != [] && (!outcomes[0] || (|outcomes| > 1 && !outcomes[1]))
    ensures After(INITIAL, outcomes).phase == Stopped && !Ready(After(INITIAL, outcomes))
    decreases |outcomes|
  {
    var n := |outcomes| - 1;
    if n == 0 {
      assert outcomes[..n] == [];
    } else if n == 1 && outcomes[0] {
      assert outcomes == [true] + [false] && [] + [true] == [true];
      AfterOne(INITIAL, [], true);
      AfterOne(INITIAL, [true], false);
    } else {
      NoFirstClone(outcomes[..n]);
    }
  }

  lemma {:induction false} PullBegins(s: State)
    requires s.phase == Idle && s.client.Some?
    ensures After(s, [true, true]) == Begin(s.(phase := Pull))
  {
    var one := [true];
    assert [] + [true] == one && one + [true] == [true, true];
    AfterOne(s, [], true);
    AfterOne(s, one, true);
  }

  lemma {:induction false} RecloneBegins(s: State)
    requires s.phase == Idle && s.client.Some?
    ensures
      var clone := Some(s.rebuild + 1);
      After(s, [true, false, true, true, true]) == Begin(s.(phase := SetGit, client := clone, gc := clone))
  {
    var o1, o2, o3, o4 := [true], [true, false], [true, false, true], [true, false, true, true];
    assert [] + [true] == o1 && o1 + [false] == o2;
    AfterOne(s, [], true);
    AfterOne(s, o1, false);
    assert After(s, o2) == s.(phase := MakeNewDir);
    assert o2 + [true] == o3 && o3 + [true] == o4;
    AfterOne(s, o2, true);
    AfterOne(s, o3, true);
    assert o4 + [true] == [true, false, true, true, true];
    AfterOne(s, o4, true);
  }

  /** A tick whose pull succeeds brings every index to a new rebuild of the same clone. */
  lemma PullBringsUpToDate(states: seq<State>, i: nat)
    requires Run(states) && i < |states| && states[i].phase == Idle && states[i].client.Some?
    ensures
      var s, u := states[i], After(states[i], [true, true] + [true, true, true, true, true, true]);
      UpToDate(u, s.rebuild + 1) && u.client == u.gc == s.client
  {
    RunKeepsInv(states, i);
    PullBegins(states[i]);
    RebuildSucceeds(states[i], [true, true]);
  }

  /** A tick whose pull fails and whose re-clone succeeds does so for the new clone, which readers are given. */
  lemma {:induction false} RecloneBringsUpToDate(s: State)
    requires s.phase == Idle && s.client.Some?
    ensures
      var u := After(s, [true, false, true, true, true] + [true, true, true, true, true, true]);
      UpToDate(u, s.rebuild + 1) && u.client == u.gc == Some(s.rebuild + 1)
  {
    RecloneBegins(s);
    RebuildSucceeds(s, [true, false, true, true, true]);
  }

  predicate Publishes(s: State, s': State) {
    s.phase == SwapIndexes && s' != s
  }

  lemma PublishedIsNewer(states: seq<State>, i: nat)
    requires Run(states) && i + 1 < |states|
    ensures
      var s, s' := states[i], states[i + 1];
      if Publishes(s, s') then s'.commitIdx == Some(s.rebuild) && (s.commitIdx.Some? ==> s.commitIdx.value < s.rebuild)
      else s'.commitIdx == s.commitIdx
    ensures states[i].commitIdx == states[i].changeIdx && states[i + 1].commitIdx == states[i + 1].changeIdx
  {
    RunKeepsInv(states, i);
    RunKeepsInv(states, i + 1);
    assert Linked(states, i);
  }

  /**
   A reader that fetches the commit index and later the change index gets the two
   from one rebuild exactly when none was published in between.
   */
  lemma {:induction false} TornReadIff(states: seq<State>, i: nat, j: nat)
    requires Run(states) && i <= j < |states|
    ensures states[i].commitIdx == states[j].changeIdx <==>
      forall k :: i <= k < j ==> !Publishes(states[k], states[k + 1])
  {
    if i < j {
      TornReadIff(states, i, j - 1);
      IndexesOnlyAdvance(states, i, j - 1);
      PublishedIsNewer(states, j - 1);
    } else {
      RunKeepsInv(states, i);
    }
  }

  /** The goroutine makes its move between these two states. */
  predicate Moves(states: seq<State>, k: nat)
    requires k + 1 < |states|
  {
    states[k + 1] != states[k]
  }

  /** Its move on a tick: the pull. */
  predicate Pulls(states: seq<State>, k: nat)
    requires k + 1 < |states|
  {
    states[k].phase == Pull && Moves(states, k)
  }

  /** Without a client a pull can only crash, and a crashed process does nothing more. */
  lemma PullWithoutClientCrashes(s: State, ok: bool, ok': bool)
    requires s.phase == Pull && s.client.None?
    ensures Step(s, ok).phase == Crashed && Step(Step(s, ok), ok') == Step(s, ok)
  {
  }

  /**
   After a failed re-clone the cluster is never ready again, and the process has ended
   exactly when the goroutine has acted on a tick since: its next pull is its last move.
   */
  lemma {:induction false} FailedRecloneEndsInCrash(states: seq<State>, i: nat, j: nat)
    requires Run(states) && i <= j < |states|
    requires states[i].phase == Idle && states[i].client.None?
    ensures states[j].phase in {Idle, Pull, Stopped, Crashed} && states[j].client.None?
    ensures !Ready(states[j])
    ensures states[j].phase == Crashed <==> exists k :: i <= k < j && Pulls(states, k)
    ensures forall k :: i <= k < j && Pulls(states, k) ==> states[j] == states[k + 1]
  {
    RunKeepsInv(states, i);
    if i < j {
      FailedRecloneEndsInCrash(states, i, j - 1);
      assert Linked(states, j - 1);
      if states[j].phase == Crashed && states[j - 1].phase != Crashed {
        assert Pulls(states, j - 1);
      }
    }
  }

  // ----- Two runs -----

  /** The state after `n` moves where those numbered in `failures` fail. */
  function Course(failures: set<nat>, n: nat): State {
    if n == 0 then INITIAL else Step(Course(failures, n - 1), n !in failures)
  }

  function CourseOf(failures: set<nat>, n: nat): (states: seq<State>)
    ensures |states| == n + 1 && forall i :: 0 <= i <= n ==> states[i] == Course(failures, i)
  {
    seq(n + 1, i requires 0 <= i => Course(failures, i))
  }

  lemma CourseIsRun(failures: set<nat>, n: nat)
    ensures Run(CourseOf(failures, n))
  {
    var states := CourseOf(failures, n);
    forall i | 0 <= i < n ensures Linked(states, i) {
      assert states[i + 1] == Step(states[i], i + 1 !in failures);
    }
  }

  /** The first rebuild, up to the first tick. */
  lemma {:induction false} FirstRebuild(failures: set<nat>)
    requires forall n :: n in failures ==> n > 10
    ensures Course(failures, 10) == State(Pull, 1, Some(0), Some(0), 1, Some(1), Some(1), true, false, Some(1))
  {
    assert Course(failures, 1) == State(FirstClone, 0, None, None, 0, None, None, false, false, None);
    assert Course(failures, 2) == State(FirstSetGit, 0, Some(0), None, 0, None, None, false, false, None);
    assert Course(failures, 3) == State(BuildResources, 1, Some(0), Some(0), 0, None, None, false, false, None);
    assert Course(failures, 4) == State(ReadGit, 1, Some(0), Some(0), 1, None, None, false, false, None);
    assert Course(failures, 5) == State(BuildCommits, 1, Some(0), Some(0), 1, None, None, false, false, None);
    assert Course(failures, 6) == State(BuildChanges, 1, Some(0), Some(0), 1, None, None, false, false, None);
    assert Course(failures, 7) == State(SwapIndexes, 1, Some(0), Some(0), 1, None, None, false, false, None);
    assert Course(failures, 8) == State(RecordPull(false), 1, Some(0), Some(0), 1, Some(1), Some(1), false, false, None);
    assert Course(failures, 9) == State(Idle, 1, Some(0), Some(0), 1, Some(1), Some(1), true, false, Some(1));
  }

  lemma {:induction false} SecondRebuild(failures: set<nat>)
    requires failures == {}
    ensures Course(failures, 15).commitIdx == Some(1) && Course(failures, 16).changeIdx == Some(2)
  {
    FirstRebuild(failures);
    assert Course(failures, 11) == State(BuildResources, 2, Some(0), Some(0), 1, Some(1), Some(1), true, false, Some(1));
    assert Course(failures, 12) == State(ReadGit, 2, Some(0), Some(0), 2, Some(1), Some(1), true, false, Some(1));
    assert Course(failures, 13) == State(BuildCommits, 2, Some(0), Some(0), 2, Some(1), Some(1), true, false, Some(1));
    assert Course(failures, 14) == State(BuildChanges, 2, Some(0), Some(0), 2, Some(1), Some(1), true, false, Some(1));
    assert Course(failures, 15) == State(SwapIndexes, 2, Some(0), Some(0), 2, Some(1), Some(1), true, false, Some(1));
  }

  /** Reads on both sides of the second publication give indexes of different rebuilds. */
  lemma TornReadHappens()
    ensures
      var states := CourseOf({}, 16);
      Run(states) && states[15].commitIdx == Some(1) && states[16].changeIdx == Some(2)
  {
    var failures: set<nat> := {};
    CourseIsRun(failures, 16);
    SecondRebuild(failures);
  }

  lemma {:induction false} SecondFailure(failures: set<nat>)
    requires failures == {11, 13}
    ensures Ready(Course(failures, 10))
    ensures Course(failures, 14).phase == Idle && Course(failures, 14).client.None? && Course(failures, 16).phase == Crashed
  {
    FirstRebuild(failures);
    assert Course(failures, 11) == State(MakeNewDir, 1, Some(0), Some(0), 1, Some(1), Some(1), true, false, Some(1));
    assert Course(failures, 12) == State(Reclone, 1, Some(0), Some(0), 1, Some(1), Some(1), true, false, Some(1));
    assert Course(failures, 13) == State(RecordPull(true), 1, None, Some(0), 1, Some(1), Some(1), true, false, Some(1));
    assert Course(failures, 14) == State(Idle, 1, None, Some(0), 1, Some(1), Some(1), true, true, Some(1));
    assert Course(failures, 15) == State(Pull, 1, None, Some(0), 1, Some(1), Some(1), true, true, Some(1));
  }

  /** A failed pull and a failed re-clone, and the crash at the next tick. */
  lemma FailedRecloneHappens()
    ensures
      var states := CourseOf({11, 13}, 16);
      && Run(states) && Ready(states[10])
      && states[14].phase == Idle && states[14].client.None? && states[16].phase == Crashed
  {
    var failures: set<nat> := {11, 13};
    CourseIsRun(failures, 16);
    SecondFailure(failures);
  }
}
