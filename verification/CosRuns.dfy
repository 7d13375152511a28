/** Runs of the ClusterObjectSet controller against a changing API server, and the finalizer's part in
    them. */
module CosRuns {
  import opened Api
  import opened Boxcutter
  import opened RevisionEngine
  import opened EngineProofs
  import opened CosStatus
  import opened CosController

  /** A user archives, deletes or otherwise touches the object, adds or removes the orphan finalizer;
      the server removes the object; the cache follows; or the controller makes a pass. */
  datatype Step =
    | Archive
    | Delete
    | AddOrphan
    | RemoveOrphan
    | Touch
    | Vanish
    | CatchUp(to: nat)
    | Pass(env: PassEnv)

  /** The server accepts no change of a removed object, no new finalizer on one that is being deleted,
      and (by an admission policy) no removal of the orphan finalizer before the controller's own.
      The cache never goes back. */
  ghost predicate StepOk(w: World, s: Step)
    requires w.Valid()
  {
    var m := w.Current().meta;
    match s
    case Archive => !w.gone
    case Delete => !w.gone
    case AddOrphan => !w.gone && !m.deleting
    case RemoveOrphan => !w.gone && !m.finalizer
    case Touch => !w.gone
    case Vanish => !w.gone && m.deleting && !m.finalizer && !m.orphan
    case CatchUp(to) => w.seen <= to < |w.versions|
    case Pass(e) => EnvOk(w, e)
  }

  ghost function Marked(w: World, m: Meta): World
    requires w.Valid()
  {
    w.Push(w.Current().(meta := m))
  }

  ghost function Next(w: World, s: Step): (w': World)
    requires w.Valid() && StepOk(w, s)
    ensures w.ContinuedBy(w')
  {
    var m := w.Current().meta;
    match s
    case Archive => Marked(w, m.(archived := true))
    case Delete => Marked(w, m.(deleting := true))
    case AddOrphan => Marked(w, m.(orphan := true))
    case RemoveOrphan => Marked(w, m.(orphan := false))
    case Touch => Marked(w, m)
    case Vanish => w.(gone := true)
    case CatchUp(to) => w.(seen := to)
    case Pass(e) => PassOf(w, e)
  }

  /** A new object: one version without a status, and nothing done yet. */
  ghost predicate Initial(w: World) {
    && |w.versions| == 1 && w.seen == 0 && !w.gone
    && w.versions[0].status == EMPTY_STATUS
    && w.log == NO_HISTORY
    && w.config.phases != [] && Distinct(w.config.phases)
    && (forall b :: w.config.digest(b) != "")
  }

  ghost predicate RunOk(w: World, steps: seq<Step>)
    requires w.Valid()
    decreases |steps|
  {
    steps != [] ==> StepOk(w, steps[0]) && RunOk(Next(w, steps[0]), steps[1..])
  }

  ghost function RunOf(w: World, steps: seq<Step>): (w': World)
    requires w.Valid() && RunOk(w, steps)
    ensures w'.Valid() && w'.config == w.config
    decreases |steps|
  {
    if steps == [] then w else RunOf(Next(w, steps[0]), steps[1..])
  }

  /** `w` is where a run of a new object got to. */
  ghost predicate Reached(first: World, steps: seq<Step>, w: World) {
    Initial(first) && RunOk(first, steps) && w == RunOf(first, steps)
  }

  lemma {:induction false} RunSnoc(w: World, steps: seq<Step>, s: Step)
    requires w.Valid() && RunOk(w, steps) && StepOk(RunOf(w, steps), s)
    ensures RunOk(w, steps + [s]) && RunOf(w, steps + [s]) == Next(RunOf(w, steps), s)
    decreases |steps|
  {
    hide StepOk, Next;
    if steps == [] {
      assert [s][1..] == [] && [] + [s] == [s];
      assert RunOk(Next(w, s), []) && RunOf(Next(w, s), []) == Next(w, s);
    } else {
      assert (steps + [s])[1..] == steps[1..] + [s];
      RunSnoc(Next(w, steps[0]), steps[1..], s);
    }
  }

  lemma {:induction false} ReachedNext(first: World, steps: seq<Step>, w: World, s: Step)
    requires Reached(first, steps, w) && w.Valid() && StepOk(w, s)
    ensures Reached(first, steps + [s], Next(w, s))
  {
    hide StepOk, Next;
    RunSnoc(first, steps, s);
  }

  // ---------- How the object's marks evolve ----------

  ghost predicate Lasting(earlier: Meta, later: Meta) {
    (earlier.deleting ==> later.deleting) && (earlier.archived ==> later.archived)
  }

  ghost predicate MarksOk(w: World) {
    && w.Valid()
    && (forall i, j :: 0 <= i <= j < |w.versions| ==>
          && Lasting(w.versions[i].meta, w.versions[j].meta)
          && (w.versions[i].meta.finalizer && !w.versions[j].meta.finalizer ==> w.log.released))
    && (w.log.retired ==> Retired(w.View().meta))
    && (w.log.released ==> w.log.retired && !w.Current().meta.finalizer)
    && (w.log.orphaned ==> w.log.released && w.Current().meta.deleting)
    && (w.gone ==> w.Current().meta.deleting && !w.Current().meta.finalizer)
  }

  /** What the controller wrote and has not torn down is protected by the stored finalizer, unless it
      let the objects go with an orphan delete. */
  ghost predicate Protected(w: World)
    requires w.Valid()
  {
    && w.log.live <= NameSet(w.config.phases)
    && (w.log.live != {} && !w.log.orphaned ==> w.Current().meta.finalizer && !w.gone)
  }

  lemma {:induction false} PushMarks(w: World, s: Snapshot, released: bool)
    requires MarksOk(w) && Lasting(w.Current().meta, s.meta)
    requires released ==> w.log.retired
    requires w.log.released ==> released
    requires w.Current().meta.finalizer && !s.meta.finalizer ==> released
    requires w.gone || released ==> !s.meta.finalizer
    ensures MarksOk(w.Push(s).(log := w.log.(released := released)))
  {
    var w' := w.Push(s);
    forall i, j | 0 <= i <= j < |w'.versions|
      ensures Lasting(w'.versions[i].meta, w'.versions[j].meta)
      ensures w'.versions[i].meta.finalizer && !w'.versions[j].meta.finalizer ==> released
    {
      if j == |w.versions| && i < j {
        assert Lasting(w.versions[i].meta, w.Current().meta);
      }
    }
  }

  lemma {:induction false} MetaStep(w: World, s: Step)
    requires MarksOk(w) && Protected(w) && StepOk(w, s) && !s.Pass?
    ensures MarksOk(Next(w, s)) && Protected(Next(w, s))
  {
    var m := w.Current().meta;
    match s
    case Archive => PushMarks(w, w.Current().(meta := m.(archived := true)), w.log.released);
    case Delete => PushMarks(w, w.Current().(meta := m.(deleting := true)), w.log.released);
    case AddOrphan => PushMarks(w, w.Current().(meta := m.(orphan := true)), w.log.released);
    case RemoveOrphan => PushMarks(w, w.Current().(meta := m.(orphan := false)), w.log.released);
    case Touch => PushMarks(w, w.Current(), w.log.released);
    case Vanish =>
    case CatchUp(to) =>
  }

  /** The same object, with the same marks but for the finalizer. */
  ghost predicate MarksKept(w: World, w': World)
    requires w.Valid() && w'.Valid()
  {
    w'.gone == w.gone && w'.Current().meta == w.Current().meta.(finalizer := w'.Current().meta.finalizer)
  }

  lemma {:induction false} ReleaseKeepsMarks(w: World, basis: nat, orphan: bool, e: PassEnv)
    requires w.Valid()
    ensures MarksKept(w, Release(w, basis, orphan, e))
  {
  }

  lemma {:induction false} TeardownKeepsMarks(w: World, e: PassEnv)
    requires w.Valid()
    ensures MarksKept(w, TeardownPass(w, e))
  {
    hide Release, TeardownAttemptOf, AfterTeardown, AfterTornDown;
    var t, w0 := TeardownAttemptOf(w.config, e), w.(log := w.log.(retired := true));
    ReleaseKeepsMarks(w0, w.seen, true, e);
    TornDownKeepsMarks(w0, t, AfterTeardown(w.config, w.View().status, t, e.now), e);
  }

  lemma {:induction false} TornDownKeepsMarks(w: World, t: TeardownAttempt, next: Status, e: PassEnv)
    requires w.Valid()
    ensures MarksKept(w, AfterTornDown(w, t, next, e))
  {
    hide Release, Gone, Accepted;
    var w1 := w.(log := w.log.(live := w.log.live - Gone(t)));
    if next == w.View().status {
      ReleaseKeepsMarks(w1, w.seen, false, e);
    } else {
      ReleaseKeepsMarks(StatusWritten(w1, w.seen, next), |w.versions|, false, e);
    }
  }

  lemma {:induction false} ActiveKeepsMarks(w: World, e: PassEnv)
    requires w.Valid() && Answered(e)
    ensures MarksKept(w, ActivePass(w, e))
  {
    hide AttemptOf, AfterAttempt, Written;
    AttemptHasResult(w.config, w.View().status, e);
  }

  /** A pass changes no mark but the finalizer. */
  lemma {:induction false} PassKeepsMarks(w: World, e: PassEnv)
    requires w.Valid() && Answered(e)
    ensures MarksKept(w, PassOf(w, e))
  {
    hide TeardownPass, ActivePass, MarksKept;
    if Retired(w.View().meta) {
      TeardownKeepsMarks(w, e);
    } else {
      ActiveKeepsMarks(w, e);
    }
  }

  /** A view that is neither archived nor deleting and shows the finalizer: then nothing was released,
      so the finalizer is still stored. */
  lemma {:induction false} ActiveViewIsProtected(w: World)
    requires MarksOk(w) && !Retired(w.View().meta) && w.View().meta.finalizer
    ensures w.Current().meta.finalizer && !w.gone
  {
    assert w.versions[w.seen].meta.finalizer && !w.Current().meta.finalizer ==> w.log.released;
  }

  lemma {:induction false} WrittenInSpec(w: World, s: Status, e: PassEnv)
    requires Distinct(w.config.phases) && EnvOk(w, e)
    ensures Written(AttemptOf(w.config, s, e).Calls()) <= NameSet(w.config.phases)
  {
    var ps, a := w.config.phases, AttemptOf(w.config, s, e);
    PassShape(ps, s.phases, e.answers, Written(w.log.calls));
    forall name | name in Written(a.Calls()) ensures name in NameSet(ps) {
      var k :| 0 <= k < |a.Calls()| && a.Calls()[k].phase == name;
      assert ps[k] in ps && ps[k].name == name;
    }
  }

  lemma {:induction false} ActiveMarks(w: World, e: PassEnv)
    requires Distinct(w.config.phases) && EnvOk(w, e)
    requires MarksOk(w) && Protected(w) && !Retired(w.View().meta)
    ensures MarksOk(ActivePass(w, e)) && Protected(ActivePass(w, e))
  {
    var w' := ActivePass(w, e);
    var m := w.Current().meta;
    if !e.siblingsFail {
      hide AttemptOf, AfterAttempt, Written, EnvOk;
      if !w.View().meta.finalizer && !w.gone {
        PushMarks(w, w.Current().(meta := m.(finalizer := true)), w.log.released);
      } else if w.View().meta.finalizer {
        ActiveViewIsProtected(w);
        var a := AttemptOf(w.config, w.View().status, e);
        WrittenInSpec(w, w.View().status, e);
        PushMarks(w, Snapshot(m, AfterAttempt(w.config, w.View().status, a, e.now)), w.log.released);
      }
    }
  }

  /** A complete teardown reported every phase of the spec as gone. */
  lemma {:induction false} CompleteTeardownIsAll(c: Config, e: PassEnv)
    requires TeardownContract(c.phases, e.teardown)
    ensures var t := TeardownAttemptOf(c, e);
            t.failure.NoFailure? && !(t.result.Some? && !t.result.value.complete) ==> NameSet(c.phases) <= Gone(t)
  {
    var t, ps := TeardownAttemptOf(c, e), c.phases;
    if t.failure.NoFailure? && t.result.Some? && t.result.value.complete {
      var r := e.teardown.result.value;
      assert r.waiting == [];
      forall name | name in NameSet(ps) ensures name in Gone(t) {
        var k :| 0 <= k < |ps| && ps[k].name == name;
        assert r.phases[|ps| - 1 - k] in r.phases;
      }
    }
  }

  lemma {:induction false} ReleaseMarks(w: World, basis: nat, orphan: bool, e: PassEnv)
    requires MarksOk(w) && w.log.retired && Retired(w.Current().meta)
    requires w.log.live <= NameSet(w.config.phases)
    requires orphan ==> basis == |w.versions| - 1 ==> w.Current().meta.deleting
    requires !orphan ==> w.log.live == {}
    requires w.log.live != {} && !w.log.orphaned ==> w.Current().meta.finalizer && !w.gone
    ensures MarksOk(Release(w, basis, orphan, e)) && Protected(Release(w, basis, orphan, e))
  {
    var m := w.Current().meta;
    PushMarks(w, w.Current().(meta := m.(finalizer := false)), true);
  }

  lemma {:induction false} TeardownMarks(w: World, e: PassEnv)
    requires EnvOk(w, e) && MarksOk(w) && Protected(w) && Retired(w.View().meta)
    ensures MarksOk(TeardownPass(w, e)) && Protected(TeardownPass(w, e))
  {
    hide EnvOk, TeardownAttemptOf, AfterTeardown, Gone, Release;
    var v, w0 := w.View(), w.(log := w.log.(retired := true));
    assert Lasting(v.meta, w.Current().meta);
    assert MarksOk(w0);
    if v.meta.finalizer {
      if v.meta.deleting && v.meta.orphan {
        ReleaseMarks(w0, w.seen, true, e);
      } else {
        CompleteTeardown(w, e);
        var t := TeardownAttemptOf(w.config, e);
        TornDownMarks(w0, t, AfterTeardown(w.config, v.status, t, e.now), e);
      }
    }
  }

  lemma {:induction false} CompleteTeardown(w: World, e: PassEnv)
    requires EnvOk(w, e) && w.log.live <= NameSet(w.config.phases)
    ensures var t := TeardownAttemptOf(w.config, e);
            t.failure.NoFailure? && !(t.result.Some? && !t.result.value.complete) ==> w.log.live - Gone(t) == {}
  {
    CompleteTeardownIsAll(w.config, e);
  }

  lemma {:induction false} TornDownMarks(w: World, t: TeardownAttempt, next: Status, e: PassEnv)
    requires MarksOk(w) && Protected(w) && w.log.retired && Retired(w.Current().meta)
    requires t.failure.NoFailure? && !(t.result.Some? && !t.result.value.complete) ==> w.log.live - Gone(t) == {}
    ensures MarksOk(AfterTornDown(w, t, next, e)) && Protected(AfterTornDown(w, t, next, e))
  {
    hide Gone, Release;
    var w1 := w.(log := w.log.(live := w.log.live - Gone(t)));
    assert MarksOk(w1) && Protected(w1);
    if next != w.View().status && Accepted(w, w.seen, e.statusFails) {
      PushMarks(w1, Snapshot(w.Current().meta, next), w1.log.released);
      if w1.log.live == {} {
        ReleaseMarks(StatusWritten(w1, w.seen, next), |w1.versions|, false, e);
      }
    } else if next == w.View().status && w1.log.live == {} {
      ReleaseMarks(w1, w.seen, false, e);
    }
  }

  ghost predicate Safe(w: World) {
    w.Valid() && Distinct(w.config.phases) && MarksOk(w) && Protected(w)
  }

  lemma {:induction false} SafeStep(w: World, s: Step)
    requires Safe(w) && StepOk(w, s)
    ensures Safe(Next(w, s))
  {
    hide EnvOk, ActivePass, TeardownPass;
    if !s.Pass? {
      MetaStep(w, s);
    } else if Retired(w.View().meta) {
      hide MarksOk, Protected;
      TeardownMarks(w, s.env);
    } else {
      hide MarksOk, Protected;
      ActiveMarks(w, s.env);
    }
  }

  lemma {:induction false} SafeRun(w: World, steps: seq<Step>)
    requires Safe(w) && RunOk(w, steps)
    ensures Safe(RunOf(w, steps))
    decreases |steps|
  {
    if steps == [] {
    } else {
      SafeStep(w, steps[0]);
      hide Safe, Next;
      SafeRun(Next(w, steps[0]), steps[1..]);
    }
  }

  lemma {:induction false} InitialIsSafe(w: World)
    requires Initial(w)
    ensures Safe(w)
  {
  }

  /** In every run, whatever the cache shows and whichever calls fail: while objects that were written
      are not torn down, the finalizer is still stored and the object still exists, unless the object
      was deleted as an orphan; and the finalizer is only ever removed after a complete teardown left
      nothing of this revision, or by an orphan delete. */
  lemma {:induction false} FinalizerProtectsObjects(first: World, steps: seq<Step>, w: World)
    requires Reached(first, steps, w)
    ensures w.Valid()
    ensures w.log.live != {} ==> (w.Current().meta.finalizer && !w.gone) || (w.log.orphaned && w.Current().meta.deleting)
    ensures w.log.released ==> w.log.live == {} || w.log.orphaned
  {
    ReachedIsSafe(first, steps, w);
    assert w.log.live != {} && !w.log.orphaned ==> w.Current().meta.finalizer;
  }

  lemma {:induction false} ReachedIsSafe(first: World, steps: seq<Step>, w: World)
    requires Reached(first, steps, w)
    ensures Safe(w)
  {
    InitialIsSafe(first);
    SafeRun(first, steps);
    hide Safe, Initial, RunOk;
  }

  /** Once a pass acted on an archived or deleting version, no phase is reconciled again and the engine
      does not run again. */
  lemma {:induction false} NothingWrittenAfterRetiring(first: World, before: seq<Step>, w: World, after: seq<Step>)
    requires Reached(first, before, w) && w.Valid() && w.log.retired && RunOk(w, after)
    ensures var w' := RunOf(w, after);
            w'.log.calls == w.log.calls && w'.log.runs == w.log.runs && w'.log.live <= w.log.live
  {
    ReachedIsSafe(first, before, w);
    hide Reached, Safe;
    RetiredRun(w, after);
  }

  lemma {:induction false} RetiredRun(w: World, steps: seq<Step>)
    requires Safe(w) && RunOk(w, steps) && w.log.retired
    ensures var w' := RunOf(w, steps);
            w'.log.calls == w.log.calls && w'.log.runs == w.log.runs && w'.log.live <= w.log.live
    decreases |steps|
  {
    if steps == [] {
    } else {
      RetiredStep(w, steps[0]);
      SafeStep(w, steps[0]);
      hide Safe, Next;
      RetiredRun(Next(w, steps[0]), steps[1..]);
    }
  }

  lemma {:induction false} RetiredStep(w: World, s: Step)
    requires Safe(w) && StepOk(w, s) && w.log.retired
    ensures var w' := Next(w, s);
            w'.log.retired && w'.log.calls == w.log.calls && w'.log.runs == w.log.runs && w'.log.live <= w.log.live
  {
    assert Retired(w.View().meta);
    hide Safe, EnvOk;
    if s.Pass? {
      TeardownWritesNothing(w, s.env);
      hide TeardownPass;
    }
  }

  lemma {:induction false} TeardownWritesNothing(w: World, e: PassEnv)
    requires w.Valid()
    ensures var w' := TeardownPass(w, e);
            w'.log.retired && w'.log.calls == w.log.calls && w'.log.runs == w.log.runs && w'.log.live <= w.log.live
  {
    hide TeardownAttemptOf, AfterTeardown, Gone, Accepted, Release;
    ReleaseKeepsLog(w.(log := w.log.(retired := true)), w.seen, true, e);
    var t := TeardownAttemptOf(w.config, e);
    var next := AfterTeardown(w.config, w.View().status, t, e.now);
    var w1 := w.(log := w.log.(retired := true, live := w.log.live - Gone(t)));
    ReleaseKeepsLog(w1, w.seen, false, e);
    ReleaseKeepsLog(StatusWritten(w1, w.seen, next), |StatusWritten(w1, w.seen, next).versions| - 1, false, e);
  }

  lemma {:induction false} ReleaseKeepsLog(w: World, basis: nat, orphan: bool, e: PassEnv)
    requires w.Valid()
    ensures var w' := Release(w, basis, orphan, e);
            w'.log == w.log.(released := w'.log.released, orphaned := w'.log.orphaned)
  {
  }
}
