/** One run of the ClusterObjectSet controller with definite inputs: a rollout of two phases, an internal
    error after it, and the recovery.  It shows that the assumptions about boxcutter and the server can be
    met together, and what an internal error does to the completion times. */
module CosWitness {
  import opened Api
  import opened Boxcutter
  import opened RevisionEngine
  import opened EngineProofs
  import opened CosStatus
  import opened Resolver
  import opened CosController
  import opened CosRuns
  import opened CosRollout
  import opened CosStored

  const MANIFEST: Bytes := [0x7b, 0x7d]

  const PHASES: seq<Phase> := [Phase("a", [Inline(MANIFEST)]), Phase("b", [Inline(MANIFEST)])]

  const CONFIG: Config := Config(PHASES, 1, (b: Bytes) => "digest", (b: Bytes) => b == MANIFEST)

  const START: World :=
    World(CONFIG, [Snapshot(Meta(false, false, false, false), EMPTY_STATUS)], false, 0, NO_HISTORY)

  function Walked(second: bool): seq<PhaseResult> {
    [PhaseResult("a", true, [ObjectResult("a", false, Idle, true)], None),
     PhaseResult("b", second, [ObjectResult("b", false, Idle, second)], None)]
  }

  /** A pass at a time that finds the second phase complete or not, with access to the cluster or not. */
  function Env(now: Time, second: bool, accessFails: bool): PassEnv {
    PassEnv(
      now, false, false, Sources(map[], (b: Bytes) => None), accessFails,
      Answers(
        GatedOutcome(Walked(second), Some(RevisionResult(Walked(second), None, false, second)), false),
        (name: string, paused: bool) => PhaseOutcome(None, true)),
      false, TeardownOutcome(None, true), (o: PhaseObject) => None, false, false, false, false)
  }

  lemma {:induction false} EnvIsOk(w: World, now: Time, second: bool, accessFails: bool)
    requires w.Valid() && w.config == CONFIG
    ensures EnvOk(w, Env(now, second, accessFails)) && Answered(Env(now, second, accessFails))
  {
  }

  lemma {:induction false} ManifestsResolve(now: Time, second: bool)
    ensures Resolves(CONFIG, Env(now, second, false), [MANIFEST, MANIFEST])
  {
    var src, manifest := Env(now, second, false).sources, Inline(MANIFEST);
    ObjectsOfTwo(PHASES[0], PHASES[1]);
    assert PHASES == [PHASES[0], PHASES[1]];
    ContentsOfTwo(src, manifest, manifest);
  }

  lemma {:induction false} ObjectsOfTwo(p: Phase, q: Phase)
    ensures AllObjects([p, q]) == p.objects + q.objects
  {
    assert [p, q][..1] == [p] && [p][..0] == [];
    assert AllObjects([p]) == AllObjects([]) + p.objects == p.objects;
  }

  lemma {:induction false} ContentsOfTwo(src: Sources, a: PhaseObject, b: PhaseObject)
    requires a.Inline? && a.raw == MANIFEST && b.Inline? && b.raw == MANIFEST
    ensures Contents(src, CONFIG.parses, [a, b]) == Some([MANIFEST, MANIFEST])
  {
    assert [] + [MANIFEST] == [MANIFEST] && [MANIFEST] + [MANIFEST] == [MANIFEST, MANIFEST];
    assert [a, b][..1] == [a] && [a][..0] == [];
    assert Contents(src, CONFIG.parses, []) == Some([]);
    assert Contents(src, CONFIG.parses, [a]) == Some([MANIFEST]);
  }

  /** The finalizer is stored, the cache is current, and nobody retired the object. */
  ghost predicate Calm(w: World) {
    && w.Valid() && w.config == CONFIG && !w.gone && w.seen == |w.versions| - 1
    && w.Current().meta == Meta(true, false, false, false)
    && w.Current().status.hash in {"", "digest"}
  }

  /** A first pass stores the finalizer. */
  lemma {:induction false} FirstRound() returns (steps: seq<Step>, w: World)
    ensures Reached(START, steps, w) && Calm(w) && w.Current().status == EMPTY_STATUS
  {
    hide AttemptOf, AfterAttempt;
    var e := Env(1, false, false);
    EnvIsOk(START, 1, false, false);
    var w1 := Next(START, Pass(e));
    w := Next(w1, CatchUp(1));
    steps := [Pass(e), CatchUp(1)];
    assert Reached(START, [], START);
    assert [] + [Pass(e)] == [Pass(e)] && [Pass(e)] + [CatchUp(1)] == steps;
    ReachedNext(START, [], START, Pass(e));
    ReachedNext(START, [Pass(e)], w1, CatchUp(1));
  }

  /** A pass, after which the cache catches up. */
  lemma {:induction false} Round(steps: seq<Step>, w: World, now: Time, second: bool, accessFails: bool)
    returns (more: seq<Step>, w': World)
    requires Reached(START, steps, w) && Calm(w)
    ensures Reached(START, more, w') && steps <= more && w.versions <= w'.versions && Calm(w')
    ensures var e := Env(now, second, accessFails);
            && Answered(e) && Writes(w, e)
            && w'.Current().status == PassOf(w, e).Current().status == PassStatus(w, e)
  {
    hide Reached, PassStatus, PassOf, EnvOk;
    var e := Env(now, second, accessFails);
    EnvIsOk(w, now, second, accessFails);
    CurrentAfterPass(w, e);
    CalmPass(w, now, second, accessFails);
    hide Env;
    var w1 := Next(w, Pass(e));
    ReachedNext(START, steps, w, Pass(e));
    more, w' := CaughtUp(steps + [Pass(e)], w1);
  }

  lemma {:induction false} CaughtUp(steps: seq<Step>, w: World) returns (more: seq<Step>, w': World)
    requires Reached(START, steps, w) && w.Valid()
    ensures Reached(START, more, w') && steps <= more && w' == w.(seen := |w.versions| - 1)
  {
    hide Reached;
    var s := CatchUp(|w.versions| - 1);
    w' := Next(w, s);
    ReachedNext(START, steps, w, s);
    more := steps + [s];
  }

  lemma {:induction false} CalmPass(w: World, now: Time, second: bool, accessFails: bool)
    requires Calm(w) && Answered(Env(now, second, accessFails))
    ensures var w' := PassOf(w, Env(now, second, accessFails));
            && w'.config == CONFIG && !w'.gone && w'.seen == w.seen && w'.Current().meta == w.Current().meta
            && w'.Current().status.hash == "digest" && w.versions <= w'.versions
  {
    hide Reconciled, ReconcileUpdate, Concat, Written, PassStatus;
    var e := Env(now, second, accessFails);
    ManifestsResolve(now, second);
    SameContents(now, second, accessFails);
    AttemptHasResult(w.config, w.View().status, e);
  }

  lemma {:induction false} SameContents(now: Time, second: bool, accessFails: bool)
    ensures Contents(Env(now, second, accessFails).sources, CONFIG.parses, AllObjects(PHASES)) == Some([MANIFEST, MANIFEST])
  {
    ManifestsResolve(now, second);
    assert Env(now, second, accessFails).sources == Env(now, second, false).sources;
  }

  lemma {:induction false} WalkIsErrorFree(now: Time, second: bool, existing: seq<ObservedPhase>)
    ensures var a := Env(now, second, false).answers;
            && ErrorFree(PHASES, existing, a)
            && Reconciled(PHASES, existing, a).calls == [Call("a", false, true), Call("b", false, second)]
  {
    var a := Env(now, second, false).answers;
    assert GatedCalls(a.gated.reached) == [Call("a", false, true), Call("b", false, second)];
    RestIsSuffix(PHASES, a);
    assert PHASES[2..] == [];
  }

  ghost predicate Times(s: Status, a: Option<Time>, b: Option<Time>) {
    |s.phases| == 2 && s.phases[0].completedAt == a && s.phases[1].completedAt == b
  }

  lemma {:induction false} RoundOverNothing(steps: seq<Step>, w: World, now: Time, second: bool)
    returns (more: seq<Step>, w': World)
    requires Reached(START, steps, w) && Calm(w) && w.Current().status.phases == []
    ensures Reached(START, more, w') && steps <= more && w.versions <= w'.versions && Calm(w')
    ensures Times(w'.Current().status, Some(now), if second then Some(now) else None)
  {
    hide Reached, PassStatus, PassOf, Contract, TeardownContract, Concat, Contents, ErrorFree, Reconciled, Writes;
    more, w' := Round(steps, w, now, second, false);
    EnvIsOk(w, now, second, false);
    ManifestsResolve(now, second);
    WalkIsErrorFree(now, second, []);
    FirstTimes(w, Env(now, second, false), [MANIFEST, MANIFEST]);
  }

  lemma {:induction false} CompleteRound(steps: seq<Step>, w: World, now: Time) returns (more: seq<Step>, w': World)
    requires Reached(START, steps, w) && Calm(w)
    ensures Reached(START, more, w') && steps <= more && w.versions <= w'.versions && Calm(w')
    ensures ConditionTrue(w'.Current().status)
    ensures w.Current().status.phases == [] ==> Times(w'.Current().status, Some(now), Some(now))
  {
    hide Reached, PassStatus, PassOf, Contract, TeardownContract, Concat, Contents, ErrorFree, Reconciled, Writes;
    more, w' := Round(steps, w, now, true, false);
    EnvIsOk(w, now, true, false);
    ManifestsResolve(now, true);
    CompletePassIsAvailable(w, Env(now, true, false), [MANIFEST, MANIFEST]);
    if w.Current().status.phases == [] {
      WalkIsErrorFree(now, true, []);
      FirstTimes(w, Env(now, true, false), [MANIFEST, MANIFEST]);
    }
  }

  lemma {:induction false} LostRound(steps: seq<Step>, w: World, now: Time) returns (more: seq<Step>, w': World)
    requires Reached(START, steps, w) && Calm(w) && w.Current().status.phases != []
    ensures Reached(START, more, w') && steps <= more && w.versions <= w'.versions && Calm(w')
    ensures w'.Current().status.phases == []
  {
    hide Reached, PassStatus, PassOf, Contents, Concat, Writes;
    more, w' := Round(steps, w, now, true, true);
    SameContents(now, true, true);
    PhasesEmptiedIff(w, Env(now, true, true));
  }

  /** A run that rolls out both phases, one pass after the other, until the object is Available; and goes
      on to an internal error, which empties the phase list, and a recovery, which leaves the object
      Available with another completion time for its first phase. */
  lemma {:induction false} RolloutAndRecovery()
    returns (s1: seq<Step>, half: World, s2: seq<Step>, done: World,
             s3: seq<Step>, wiped: World, s4: seq<Step>, again: World)
    ensures s1 <= s2 <= s3 <= s4
    ensures Reached(START, s1, half) && Reached(START, s2, done) && Reached(START, s3, wiped) && Reached(START, s4, again)
    ensures half.Valid() && done.Valid() && wiped.Valid() && again.Valid()
    ensures half.versions <= done.versions <= wiped.versions <= again.versions
    ensures Times(half.Current().status, Some(3), None)
    ensures done.Current().meta.finalizer && ConditionTrue(done.Current().status)
    ensures wiped.Current().status.phases == []
    ensures ConditionTrue(again.Current().status) && Times(again.Current().status, Some(7), Some(7))
  {
    hide Reached, Times;
    var s0, w0 := FirstRound();
    s1, half := RoundOverNothing(s0, w0, 3, false);
    s2, done := CompleteRound(s1, half, 5);
    AvailableLists(s2, done);
    s3, wiped := LostRound(s2, done, 6);
    s4, again := CompleteRound(s3, wiped, 7);
  }

  lemma {:induction false} AvailableLists(steps: seq<Step>, w: World)
    requires Reached(START, steps, w) && Calm(w) && ConditionTrue(w.Current().status)
    ensures w.Current().status.phases != []
  {
    hide Reached, RolledOut;
    AvailableIsSound(START, steps, w, |w.versions| - 1);
  }

  /** So a phase's completion time can change from one stored version to another, although every single
      change on the way is one that the CRD allows. */
  lemma {:induction false} WipedTimeIsSetAnew() returns (steps: seq<Step>, w: World, i: nat, j: nat)
    ensures Reached(START, steps, w) && i < j < |w.versions|
    ensures var a, b := w.versions[i].status.phases, w.versions[j].status.phases;
            a != [] && b != [] && a[0].completedAt == Some(3) && b[0].completedAt == Some(7)
    ensures forall v :: 0 < v < |w.versions| ==> AdmissibleChange(w.versions[v - 1].status, w.versions[v].status)
  {
    hide Reached, AdmissibleChange, ConditionTrue;
    var s1, half, s2, done, s3, wiped, s4, again := RolloutAndRecovery();
    steps, w, i, j := s4, again, |half.versions| - 1, |again.versions| - 1;
    forall v | 0 < v < |w.versions| ensures AdmissibleChange(w.versions[v - 1].status, w.versions[v].status) {
      EveryStatusIsAdmissible(START, steps, w, v);
    }
  }
}
