/** What holds of the stored versions of a ClusterObjectSet in every run: the CRD's rules, the
    completion times, the meaning of Available, and the pinned content. */
module CosStored {
  import opened Api
  import opened Boxcutter
  import opened RevisionEngine
  import opened EngineProofs
  import opened CosStatus
  import opened CosStatusProofs
  import opened Resolver
  import opened ContentPinning
  import opened CosController
  import opened CosRuns
  import opened CosRollout
  import opened Progress

  // ---------- The CRD's rules ----------

  ghost predicate Admitted(ps: seq<Phase>, s: Status) {
    AdmissibleStatus(s) && Listed(ps, s.phases)
  }

  ghost predicate VersionsAdmissible(w: World) {
    && (forall v :: 0 <= v < |w.versions| ==> Admitted(w.config.phases, w.versions[v].status))
    && (forall v :: 0 < v < |w.versions| ==> AdmissibleChange(w.versions[v - 1].status, w.versions[v].status))
  }

  lemma {:induction false} SameStatusAdmissible(s: Status)
    requires AdmissibleStatus(s)
    ensures AdmissibleChange(s, s)
  {
  }

  lemma {:induction false} PassStatusAdmissible(w: World, e: PassEnv)
    requires w.Valid() && Distinct(w.config.phases) && Answered(e) && Admitted(w.config.phases, w.View().status)
    ensures Admitted(w.config.phases, PassStatus(w, e)) && AdmissibleChange(w.View().status, PassStatus(w, e))
  {
    var c, s := w.config, w.View().status;
    if Retired(w.View().meta) {
      var t := TeardownAttemptOf(c, e);
      TeardownUpdateFolds(s, c.phases, t.result, t.failure, e.now);
      hide AdmissibleStatus, AdmissibleChange, Listed, Distinct, TeardownAttemptOf, TeardownUpdate, FoldedOver;
      UpdateIsAdmissible(s, s.hash, c.generation, c.phases, TeardownUpdate(s, c.phases, t.result, t.failure, e.now));
      assert s.(hash := s.hash) == s;
    } else {
      var a := AttemptOf(c, s, e);
      AttemptHasResult(c, s, e);
      assert s.hash != "" ==> a.hash == s.hash;
      var before := s.(hash := a.hash);
      ReconcileUpdateFolds(before, c.phases, a.result, a.failure, e.now);
      hide AdmissibleStatus, AdmissibleChange, Listed, Distinct, AttemptOf, ReconcileUpdate;
      UpdateIsAdmissible(s, a.hash, c.generation, c.phases, ReconcileUpdate(before, c.phases, a.result, a.failure, e.now));
    }
  }

  /** `w'` keeps the versions of `w`, and its further ones all carry `s`. */
  ghost predicate ExtendedWith(w: World, w': World, s: Status) {
    && w'.config == w.config && 0 < |w.versions| <= |w'.versions|
    && (forall v :: 0 <= v < |w.versions| ==> w'.versions[v] == w.versions[v])
    && (forall v :: |w.versions| <= v < |w'.versions| ==> w'.versions[v].status == s)
  }

  lemma {:induction false} AdmissibleExtension(w: World, w': World, s: Status)
    requires VersionsAdmissible(w) && ExtendedWith(w, w', s) && Admitted(w.config.phases, s)
    requires AdmissibleChange(w.versions[|w.versions| - 1].status, s)
    ensures VersionsAdmissible(w')
  {
    SameStatusAdmissible(s);
    hide AdmissibleChange, Admitted;
    forall v | 0 < v < |w'.versions| ensures AdmissibleChange(w'.versions[v - 1].status, w'.versions[v].status) {
      if v < |w.versions| {
        assert AdmissibleChange(w.versions[v - 1].status, w.versions[v].status);
      }
    }
  }

  lemma {:induction false} StepExtends(w: World, s: Step)
    requires w.Valid() && StepOk(w, s)
    ensures ExtendedWith(w, Next(w, s), w.Current().status)
            || (s.Pass? && w.seen == |w.versions| - 1 && Acts(w, s.env) && ExtendedWith(w, Next(w, s), PassStatus(w, s.env)))
  {
    if s.Pass? {
      PassVersions(w, s.env);
      hide PassOf, PassStatus, EnvOk, Acts;
    }
  }

  lemma {:induction false} AdmissibleStep(w: World, s: Step)
    requires w.Valid() && Distinct(w.config.phases) && VersionsAdmissible(w) && StepOk(w, s)
    ensures VersionsAdmissible(Next(w, s))
  {
    hide Next, VersionsAdmissible, Distinct, Contract, TeardownContract, ExtendedWith, PassStatus, Acts;
    StepExtends(w, s);
    if ExtendedWith(w, Next(w, s), w.Current().status) {
      UnchangedIsAdmissible(w, Next(w, s));
    } else {
      EnvAnswers(w, s.env);
      WrittenIsAdmissible(w, s.env, Next(w, s));
    }
  }

  lemma {:induction false} UnchangedIsAdmissible(w: World, w': World)
    requires w.Valid() && VersionsAdmissible(w) && ExtendedWith(w, w', w.Current().status)
    ensures VersionsAdmissible(w')
  {
    hide AdmissibleChange, AdmissibleStatus, Listed;
    assert Admitted(w.config.phases, w.Current().status);
    SameStatusAdmissible(w.Current().status);
    hide ExtendedWith, VersionsAdmissible;
    AdmissibleExtension(w, w', w.Current().status);
  }

  lemma {:induction false} WrittenIsAdmissible(w: World, e: PassEnv, w': World)
    requires w.Valid() && Distinct(w.config.phases) && VersionsAdmissible(w) && Answered(e)
    requires w.seen == |w.versions| - 1 && ExtendedWith(w, w', PassStatus(w, e))
    ensures VersionsAdmissible(w')
  {
    hide AdmissibleChange, Admitted, Distinct, PassStatus;
    assert Admitted(w.config.phases, w.View().status);
    hide ExtendedWith, VersionsAdmissible;
    PassStatusAdmissible(w, e);
    AdmissibleExtension(w, w', PassStatus(w, e));
  }

  lemma {:induction false} AdmissibleRun(w: World, steps: seq<Step>)
    requires w.Valid() && Distinct(w.config.phases) && VersionsAdmissible(w) && RunOk(w, steps)
    ensures VersionsAdmissible(RunOf(w, steps))
    decreases |steps|
  {
    if steps == [] {
    } else {
      AdmissibleStep(w, steps[0]);
      hide VersionsAdmissible, Next;
      AdmissibleRun(Next(w, steps[0]), steps[1..]);
    }
  }

  /** In every run, every stored status, and every change from one to the next, meets the CRD's CEL rules,
      and its phase list is keyed by name as the CRD demands. */
  lemma {:induction false} EveryStatusIsAdmissible(first: World, steps: seq<Step>, w: World, v: nat)
    requires Reached(first, steps, w) && v < |w.versions|
    ensures var vs := w.versions;
            && AdmissibleStatus(vs[v].status)
            && Listed(w.config.phases, vs[v].status.phases)
            && (v > 0 ==> AdmissibleChange(vs[v - 1].status, vs[v].status))
  {
    ReachedAdmissible(first, steps, w);
    hide Reached;
  }

  lemma {:induction false} ReachedAdmissible(first: World, steps: seq<Step>, w: World)
    requires Reached(first, steps, w)
    ensures VersionsAdmissible(w)
  {
    AdmissibleRun(first, steps);
  }

  lemma {:induction false} SetOnceBetween(w: World, i: nat, j: nat)
    requires VersionsAdmissible(w) && i <= j < |w.versions|
    ensures var a, b := w.versions[i].status, w.versions[j].status;
            && (a.completedAt.Some? ==> b.completedAt == a.completedAt)
            && (a.hash != "" ==> b.hash == a.hash)
    decreases j - i
  {
    if i < j {
      SetOnceBetween(w, i, j - 1);
      assert AdmissibleChange(w.versions[j - 1].status, w.versions[j].status);
    }
  }

  /** In every run: between any two stored versions, the completion time and the pinned hash of the
      object never change once they are set. */
  lemma {:induction false} SetOnce(first: World, steps: seq<Step>, w: World, i: nat, j: nat)
    requires Reached(first, steps, w) && i <= j < |w.versions|
    ensures var a, b := w.versions[i].status, w.versions[j].status;
            && (a.completedAt.Some? ==> b.completedAt == a.completedAt)
            && (a.hash != "" ==> b.hash == a.hash)
  {
    ReachedAdmissible(first, steps, w);
    hide VersionsAdmissible, Reached;
    SetOnceBetween(w, i, j);
  }

  ghost predicate PhasesListed(vs: seq<Snapshot>, i: nat, j: nat)
    requires i <= j < |vs|
  {
    forall v :: i <= v <= j ==> vs[v].status.phases != []
  }

  lemma {:induction false} TimesBetween(w: World, i: nat, j: nat, k: nat)
    requires VersionsAdmissible(w) && i <= j < |w.versions| && PhasesListed(w.versions, i, j)
    requires k < |w.versions[i].status.phases| && w.versions[i].status.phases[k].completedAt.Some?
    ensures var a, b := w.versions[i].status.phases, w.versions[j].status.phases;
            |b| == |a| && b[k].name == a[k].name && b[k].completedAt == a[k].completedAt
    decreases j - i
  {
    assert Admitted(w.config.phases, w.versions[i].status);
    if i < j {
      TimesBetween(w, i, j - 1, k);
      assert Admitted(w.config.phases, w.versions[j].status);
      assert AdmissibleChange(w.versions[j - 1].status, w.versions[j].status);
    }
  }

  /** In every run: a phase's completion time survives from any version to any later one, as long as no
      version in between has an empty phase list. */
  lemma {:induction false} PhaseTimesSurvive(first: World, steps: seq<Step>, w: World, i: nat, j: nat, k: nat)
    requires Reached(first, steps, w) && i <= j < |w.versions| && PhasesListed(w.versions, i, j)
    requires k < |w.versions[i].status.phases| && w.versions[i].status.phases[k].completedAt.Some?
    ensures var a, b := w.versions[i].status.phases, w.versions[j].status.phases;
            |b| == |a| && b[k].name == a[k].name && b[k].completedAt == a[k].completedAt
  {
    ReachedAdmissible(first, steps, w);
    hide VersionsAdmissible, Reached, PhasesListed;
    TimesBetween(w, i, j, k);
  }

  /** What a pass must meet to empty the phase list, and with it forget the completion times: no access to
      the cluster, or no result at all, once the revision's objects were resolved. */
  ghost predicate LosesPhases(w: World, e: PassEnv)
    requires w.Valid()
  {
    if Retired(w.View().meta) then !e.identitiesFail && (e.accessFails || e.teardown.result.None?)
    else Pinned(w.config, w.View().status, e.sources).Some? && (e.accessFails || e.answers.gated.result.None?)
  }

  lemma {:induction false} PhasesEmptiedIff(w: World, e: PassEnv)
    requires w.Valid() && Answered(e) && w.config.phases != [] && w.View().status.phases != []
    ensures PassStatus(w, e).phases == [] <==> LosesPhases(w, e)
  {
    hide Pinned, Except, SweepOf, DriftPhases, ReadOnlyPhases, ReadOnlyTeardowns, ObserveAll;
    var c, s := w.config, w.View().status;
    if Retired(w.View().meta) {
      var t := TeardownAttemptOf(c, e);
      assert t.result.Some? ==> |ObservedFromTeardown(c.phases, t.result)| == |c.phases| by {
        TeardownLength(c.phases, t.result);
      }
    } else {
      var a := AttemptOf(c, s, e);
      AttemptHasResult(c, s, e);
      ReconcileLists(c.phases, a.result);
    }
  }

  lemma {:induction false} TeardownLength(ps: seq<Phase>, result: Option<TeardownResult>)
    ensures result.Some? ==> |ObservedFromTeardown(ps, result)| == |ps|
  {
  }

  /** A pass gets as far as reporting a status, and the server takes it. */
  ghost predicate Writes(w: World, e: PassEnv)
    requires w.Valid()
  {
    var m := w.View().meta;
    m.finalizer && (if Retired(m) then !(m.deleting && m.orphan) else !e.siblingsFail) && Accepted(w, w.seen, e.statusFails)
  }

  lemma {:induction false} CurrentAfterPass(w: World, e: PassEnv)
    requires w.Valid() && Answered(e)
    ensures PassOf(w, e).Current().status == if Writes(w, e) then PassStatus(w, e) else w.Current().status
  {
    hide AttemptOf, AfterAttempt, TeardownAttemptOf, AfterTeardown, Gone, Written, Release;
    AttemptHasResult(w.config, w.View().status, e);
    if Retired(w.View().meta) {
      TornDownCurrent(w, e);
    }
  }

  lemma {:induction false} TornDownCurrent(w: World, e: PassEnv)
    requires w.Valid() && Answered(e) && Retired(w.View().meta)
    ensures TeardownPass(w, e).Current().status == if Writes(w, e) then PassStatus(w, e) else w.Current().status
  {
    hide TeardownAttemptOf, AfterTeardown, Gone, Release;
    var w0, t := w.(log := w.log.(retired := true)), TeardownAttemptOf(w.config, e);
    var next := PassStatus(w, e);
    ReleaseKeepsStatus(w0, w.seen, true, e);
    var w1 := w0.(log := w0.log.(live := w0.log.live - Gone(t)));
    ReleaseKeepsStatus(w1, w.seen, false, e);
    ReleaseKeepsStatus(StatusWritten(w1, w.seen, next), |w.versions|, false, e);
  }

  lemma {:induction false} ReleaseKeepsStatus(w: World, basis: nat, orphan: bool, e: PassEnv)
    requires w.Valid()
    ensures Release(w, basis, orphan, e).Current().status == w.Current().status
  {
  }

  /** In every run, a stored phase list goes from filled to empty exactly in a pass on the current version
      that loses the list and whose status is written. */
  lemma {:induction false} ListEmptiedIff(w: World, s: Step)
    requires w.Valid() && StepOk(w, s) && w.config.phases != [] && w.Current().status.phases != []
    ensures Next(w, s).Current().status.phases == [] <==> s.Pass? && Writes(w, s.env) && LosesPhases(w, s.env)
  {
    hide PassOf, PassStatus, LosesPhases, Retired, Contract, TeardownContract;
    if s.Pass? {
      EnvAnswers(w, s.env);
      CurrentAfterPass(w, s.env);
      if Writes(w, s.env) {
        PhasesEmptiedIff(w, s.env);
      }
    }
  }

  // ---------- What Available means in a stored status ----------

  /** The calls of a pass that wrote every phase of the spec, in order, and found each one complete. */
  ghost predicate AllComplete(ps: seq<Phase>, calls: seq<Call>) {
    |calls| == |ps| && forall k :: 0 <= k < |ps| ==> calls[k] == Call(ps[k].name, false, true)
  }

  /** One single pass found all phases complete, and could write its status. */
  ghost predicate RolledOut(ps: seq<Phase>, runs: seq<EngineRun>) {
    exists k :: 0 <= k < |runs| && runs[k].recorded && AllComplete(ps, runs[k].calls)
  }

  /** What a stored status that says Available=True must show. */
  ghost predicate ShowsAvailable(ps: seq<Phase>, s: Status) {
    ConditionTrue(s) ==>
      && FullyAvailable(ps, s.phases)
      && s.completedAt.Some?
      && s.counts == Some(ObjectCounts(ObjectTotal(ps), ObjectTotal(ps), ObjectTotal(ps), ObjectTotal(ps)))
  }

  ghost predicate AvailableOk(ps: seq<Phase>, s: Status, runs: seq<EngineRun>) {
    ConditionTrue(s) ==> ShowsAvailable(ps, s) && RolledOut(ps, runs)
  }

  ghost predicate VersionsAvailableOk(w: World) {
    forall v :: 0 <= v < |w.versions| ==> AvailableOk(w.config.phases, w.versions[v].status, w.log.runs)
  }

  lemma {:induction false} RolledOutGrows(ps: seq<Phase>, before: seq<EngineRun>, runs: seq<EngineRun>)
    requires RolledOut(ps, before) && before <= runs
    ensures RolledOut(ps, runs)
  {
    var k :| 0 <= k < |before| && before[k].recorded && AllComplete(ps, before[k].calls);
    assert runs[k] == before[k];
  }

  lemma {:induction false} AvailableGrows(ps: seq<Phase>, s: Status, before: seq<EngineRun>, runs: seq<EngineRun>)
    requires AvailableOk(ps, s, before) && before <= runs
    ensures AvailableOk(ps, s, runs)
  {
    hide RolledOut, ShowsAvailable;
    if ConditionTrue(s) {
      RolledOutGrows(ps, before, runs);
    }
  }

  /** A result is complete only if the gated walk alone found every phase complete. */
  lemma {:induction false} CompleteResultCalls(
      ps: seq<Phase>, existing: seq<ObservedPhase>, a: Answers, written: set<string>)
    requires Distinct(ps) && Contract(ps, written, a)
    ensures var o := Reconciled(ps, existing, a);
            !o.failed && o.result.Some? && Ordinary(o.result.value.gated) && o.result.value.IsComplete() ==>
              AllComplete(ps, o.calls)
  {
    var o := Reconciled(ps, existing, a);
    if !o.failed && o.result.Some? && Ordinary(o.result.value.gated) && o.result.value.IsComplete() {
      assert a.gated.result.Some? && o.result.value.gated == a.gated.result.value;
      RestIsSuffix(ps, a);
      assert ps[|ps|..] == [];
      assert o.calls == GatedCalls(a.gated.reached);
    }
  }

  lemma {:induction false} AttemptAvailableOk(w: World, s: Status, e: PassEnv)
    requires Distinct(w.config.phases) && w.config.phases != [] && EnvOk(w, e)
    requires !Reconciled(w.config.phases, s.phases, e.answers).failed
    ensures var o := Reconciled(w.config.phases, s.phases, e.answers);
            && o.result.Some?
            && var u := ReconcileUpdate(s, w.config.phases, o.result, NoFailure, e.now);
               && ShowsAvailable(w.config.phases, Applied(s, w.config.generation, u))
               && (u.status == CondTrue ==> AllComplete(w.config.phases, o.calls))
  {
    hide Reconciled, FullyAvailable, Contract, Distinct, Written, AllComplete;
    var ps, written := w.config.phases, Written(w.log.calls);
    var o := Reconciled(ps, s.phases, e.answers);
    AvailableIsExact(ps, s, e.answers, written, e.now);
    CompleteResultCalls(ps, s.phases, e.answers, written);
    var u := ReconcileUpdate(s, ps, o.result, NoFailure, e.now);
    if u.status == CondTrue {
      FullSums(ps, u.phases.value);
    }
  }

  /** What a pass that reports Available=True adds to the log, if it can write its status. */
  lemma {:induction false} AvailableAttempt(w: World, e: PassEnv)
    requires w.Valid() && Distinct(w.config.phases) && w.config.phases != [] && EnvOk(w, e)
    requires !Retired(w.View().meta) && ConditionTrue(PassStatus(w, e))
    ensures var a := AttemptOf(w.config, w.View().status, e);
            && ShowsAvailable(w.config.phases, PassStatus(w, e))
            && a.run.Some? && AllComplete(w.config.phases, a.run.value.calls)
  {
    hide Reconciled, Distinct, ShowsAvailable, AllComplete, Contract, TeardownContract;
    var c, s := w.config, w.View().status;
    var a := AttemptOf(c, s, e);
    EnvAnswers(w, e);
    AttemptHasResult(c, s, e);
    AttemptAvailableOk(w, s.(hash := a.hash), e);
  }

  lemma {:induction false} TeardownIsNotAvailable(w: World, e: PassEnv)
    requires w.Valid() && Answered(e) && Retired(w.View().meta)
    ensures !ConditionTrue(PassStatus(w, e))
  {
    hide TeardownAttemptOf;
  }

  /** The runs of a pass whose status was written are marked so. */
  lemma {:induction false} PassAddsRuns(w: World, e: PassEnv)
    requires w.Valid() && Answered(e)
    ensures var runs, w' := PassOf(w, e).log.runs, PassOf(w, e);
            var a := AttemptOf(w.config, w.View().status, e);
            if Retired(w.View().meta) || !Acts(w, e) || a.run.None? then runs == w.log.runs
            else
              && runs == w.log.runs + [a.run.value.(recorded := |w'.versions| > |w.versions|)]
              && (|w'.versions| > |w.versions| ==> w'.Current().status == PassStatus(w, e))
  {
    hide AttemptOf, AfterAttempt, TeardownAttemptOf, AfterTeardown, Gone, Written;
    AttemptHasResult(w.config, w.View().status, e);
  }

  lemma {:induction false} PassKeepsRuns(w: World, e: PassEnv)
    requires w.Valid() && Answered(e)
    ensures w.log.runs <= PassOf(w, e).log.runs
  {
    hide PassOf, AttemptOf, Acts;
    PassAddsRuns(w, e);
  }

  lemma {:induction false} StepKeepsRuns(w: World, s: Step)
    requires w.Valid() && StepOk(w, s)
    ensures Next(w, s).config == w.config && w.log.runs <= Next(w, s).log.runs
  {
    hide PassOf;
    if s.Pass? {
      EnvAnswers(w, s.env);
      PassKeepsRuns(w, s.env);
    }
  }

  /** The status a pass computed is accounted for by the time it is stored. */
  lemma {:induction false} PassStatusAvailableOk(w: World, e: PassEnv)
    requires w.Valid() && Distinct(w.config.phases) && w.config.phases != [] && EnvOk(w, e) && Acts(w, e)
    requires |PassOf(w, e).versions| > |w.versions|
    ensures AvailableOk(w.config.phases, PassStatus(w, e), PassOf(w, e).log.runs)
  {
    hide PassOf, PassStatus, AttemptOf, Acts, Distinct, AllComplete, ShowsAvailable, Contract, TeardownContract;
    EnvAnswers(w, e);
    if ConditionTrue(PassStatus(w, e)) {
      if Retired(w.View().meta) {
        TeardownIsNotAvailable(w, e);
      } else {
        AvailableAttempt(w, e);
        PassAddsRuns(w, e);
        var runs := PassOf(w, e).log.runs;
        assert runs[|runs| - 1].recorded;
      }
    }
  }

  lemma {:induction false} EnvAnswers(w: World, e: PassEnv)
    requires EnvOk(w, e)
    ensures Answered(e)
  {
  }

  lemma {:induction false} AvailablePassKept(w: World, e: PassEnv)
    requires w.Valid() && Distinct(w.config.phases) && w.config.phases != [] && VersionsAvailableOk(w) && EnvOk(w, e)
    ensures VersionsAvailableOk(PassOf(w, e))
  {
    hide PassOf, PassStatus, Acts, Distinct, AvailableOk, Contract, TeardownContract, EnvOk;
    EnvAnswers(w, e);
    var ps, w' := w.config.phases, PassOf(w, e);
    PassVersions(w, e);
    PassKeepsRuns(w, e);
    if Acts(w, e) && |w'.versions| > |w.versions| {
      PassStatusAvailableOk(w, e);
    }
    AvailableGrows(ps, w.Current().status, w.log.runs, w'.log.runs);
    forall v | 0 <= v < |w'.versions| ensures AvailableOk(ps, w'.versions[v].status, w'.log.runs) {
      if v < |w.versions| {
        AvailableGrows(ps, w.versions[v].status, w.log.runs, w'.log.runs);
      }
    }
  }

  lemma {:induction false} AvailableStep(w: World, s: Step)
    requires w.Valid() && Distinct(w.config.phases) && w.config.phases != [] && VersionsAvailableOk(w) && StepOk(w, s)
    ensures VersionsAvailableOk(Next(w, s))
  {
    hide AvailableOk, Distinct, PassOf;
    if s.Pass? {
      AvailablePassKept(w, s.env);
    }
  }

  lemma {:induction false} AvailableRun(w: World, steps: seq<Step>)
    requires w.Valid() && Distinct(w.config.phases) && w.config.phases != [] && VersionsAvailableOk(w) && RunOk(w, steps)
    ensures VersionsAvailableOk(RunOf(w, steps))
    decreases |steps|
  {
    if steps == [] {
    } else {
      AvailableStep(w, steps[0]);
      hide VersionsAvailableOk, Next;
      AvailableRun(Next(w, steps[0]), steps[1..]);
    }
  }

  /** In every run, a stored Available=True means: every phase is shown Available with a completion
      time, the object has one, all four counts are the number of objects in the spec, and one single
      pass wrote every phase in order and found each complete. */
  lemma {:induction false} AvailableIsSound(first: World, steps: seq<Step>, w: World, v: nat)
    requires Reached(first, steps, w) && v < |w.versions| && ConditionTrue(w.versions[v].status)
    ensures var s, n := w.versions[v].status, ObjectTotal(w.config.phases);
            && FullyAvailable(w.config.phases, s.phases)
            && s.completedAt.Some? && s.counts == Some(ObjectCounts(n, n, n, n))
    ensures RolledOut(w.config.phases, w.log.runs)
  {
    AvailableRun(first, steps);
    hide FullyAvailable, RolledOut;
  }

  // ---------- A pass that meets no obstacle ----------

  /** The objects of the spec resolve to these contents. */
  ghost predicate Resolves(c: Config, e: PassEnv, contents: seq<Bytes>) {
    && Answered(e) && !e.siblingsFail && !e.accessFails
    && Contents(e.sources, c.parses, AllObjects(c.phases)) == Some(contents)
  }

  /** A pass gets through to the engine with contents that the stored hash, if there is one, allows, and
      its status will be written. */
  ghost predicate Unobstructed(w: World, e: PassEnv, contents: seq<Bytes>)
    requires w.Valid()
  {
    && Distinct(w.config.phases) && EnvOk(w, e) && Resolves(w.config, e, contents)
    && !Retired(w.View().meta) && Writes(w, e)
    && (w.View().status.hash == "" || w.View().status.hash == w.config.digest(Concat(contents)))
  }

  lemma {:induction false} UnobstructedAttempt(w: World, e: PassEnv, contents: seq<Bytes>)
    requires w.Valid() && Unobstructed(w, e, contents)
    ensures var s := w.View().status;
            var o := Reconciled(w.config.phases, s.phases, e.answers);
            var before := s.(hash := w.config.digest(Concat(contents)));
            && Answered(e)
            && (!o.failed && o.result.Some? ==>
                  var u := ReconcileUpdate(before, w.config.phases, o.result, NoFailure, e.now);
                  PassStatus(w, e) == Applied(before, w.config.generation, u))
  {
    hide Reconciled, ReconcileUpdate, Contents, Concat, Distinct, EnvOk;
    AttemptHasResult(w.config, w.View().status, e);
  }

  /** The gated pass finds every phase complete. */
  ghost predicate CompleteWalk(a: Answers) {
    !a.gated.failed && a.gated.result.Some? && Ordinary(a.gated.result.value) && a.gated.result.value.complete
  }

  lemma {:induction false} CompleteWalkIsAvailable(c: Config, s: Status, a: Answers, written: set<string>, now: Time)
    requires Distinct(c.phases) && Contract(c.phases, written, a)
    requires CompleteWalk(a)
    ensures var o := Reconciled(c.phases, s.phases, a);
            && o.result.Some? && !o.failed
            && ReconcileUpdate(s, c.phases, o.result, NoFailure, now).status == CondTrue
  {
    hide ObservedFromReconcile, Preserved, PhaseContract;
    RestIsSuffix(c.phases, a);
    assert c.phases[|a.gated.reached|..] == [];
  }

  /** From any history: a pass that meets no obstacle and whose gated walk finds every phase complete
      leaves the object Available. */
  lemma {:induction false} CompletePassIsAvailable(w: World, e: PassEnv, contents: seq<Bytes>)
    requires w.Valid() && Unobstructed(w, e, contents) && CompleteWalk(e.answers)
    ensures Answered(e) && ConditionTrue(PassOf(w, e).Current().status)
  {
    hide Reconciled, ReconcileUpdate, PassOf, PassStatus, CompleteWalk, Concat, Contract, TeardownContract, Writes, Retired;
    var s := w.View().status;
    UnobstructedAttempt(w, e, contents);
    var before := s.(hash := w.config.digest(Concat(contents)));
    CompleteWalkIsAvailable(w.config, before, e.answers, Written(w.log.calls), e.now);
    CurrentAfterPass(w, e);
  }

  /** A pass without errors over an empty phase list gives its own time to exactly the phases it found
      complete. */
  lemma {:induction false} FirstTimes(w: World, e: PassEnv, contents: seq<Bytes>)
    requires w.Valid() && Unobstructed(w, e, contents) && w.View().status.phases == []
    requires ErrorFree(w.config.phases, [], e.answers)
    ensures var o := Reconciled(w.config.phases, [], e.answers);
            var ops := PassOf(w, e).Current().status.phases;
            && |ops| == |w.config.phases| == |o.calls|
            && forall i :: 0 <= i < |ops| ==>
                 && ops[i].name == w.config.phases[i].name
                 && ops[i].completedAt == if o.calls[i].complete then Some(e.now) else None
  {
    hide Reconciled, PassOf, PassStatus, Concat, Writes, Retired, TeardownContract, ErrorFree, Contract, ObservedFromReconcile,
      Ordinary;
    var ps, s := w.config.phases, w.View().status;
    UnobstructedAttempt(w, e, contents);
    ErrorFreeIsOrdinary(ps, [], e.answers, Written(w.log.calls));
    PassShape(ps, [], e.answers, Written(w.log.calls));
    var o := Reconciled(ps, [], e.answers);
    OrdinaryShows(ps, o.result.value, o.calls);
    ReconcileShowsNoTimes(ps, o.result);
    CurrentAfterPass(w, e);
    assert forall n :: StoredTime([], n) == None;
  }

  // ---------- Pinned content ----------

  /** The contents of a run parsed, and if its copy showed a hash, they have that hash. */
  ghost predicate RunIsPinned(c: Config, r: EngineRun) {
    && (forall k :: 0 <= k < |r.contents| ==> c.parses(r.contents[k]))
    && (r.pinned != "" ==> c.digest(Concat(r.contents)) == r.pinned)
  }

  /** A run that the stored hash answers for: its copy showed the hash, or it stored it. */
  ghost predicate Bound(r: EngineRun) {
    r.pinned != "" || r.recorded
  }

  ghost predicate HashStored(w: World, hash: string) {
    exists v :: 0 <= v < |w.versions| && w.versions[v].status.hash == hash
  }

  ghost predicate ContentsOk(w: World, r: EngineRun) {
    RunIsPinned(w.config, r) && (Bound(r) ==> HashStored(w, w.config.digest(Concat(r.contents))))
  }

  ghost predicate RunsPinned(w: World) {
    forall k :: 0 <= k < |w.log.runs| ==> ContentsOk(w, w.log.runs[k])
  }

  lemma {:induction false} ContentsParse(src: Sources, parses: Bytes -> bool, objects: seq<PhaseObject>)
    ensures var c := Contents(src, parses, objects);
            c.Some? ==> |c.value| == |objects| && forall k :: 0 <= k < |c.value| ==> parses(c.value[k])
  {
    if objects == [] {
    } else {
      ContentsParse(src, parses, objects[..|objects| - 1]);
    }
  }

  lemma {:induction false} AttemptIsPinned(w: World, s: Status, e: PassEnv)
    requires Answered(e)
    ensures var a := AttemptOf(w.config, s, e);
            && (a.failure.NoFailure? ==> a.result.Some?)
            && AfterAttempt(w.config, s, a, e.now).hash == a.hash
            && (a.run.Some? ==>
                  && a.run.value.pinned == s.hash && RunIsPinned(w.config, a.run.value)
                  && a.hash == w.config.digest(Concat(a.run.value.contents)))
  {
    hide Reconciled, ReconcileUpdate, Concat;
    AttemptHasResult(w.config, s, e);
    ContentsParse(e.sources, w.config.parses, AllObjects(w.config.phases));
  }

  lemma {:induction false} RunStaysOk(w: World, w': World, r: EngineRun)
    requires ContentsOk(w, r) && w'.config == w.config && w.versions <= w'.versions
    ensures ContentsOk(w', r)
  {
    hide RunIsPinned, Concat;
    if Bound(r) {
      var v :| 0 <= v < |w.versions| && w.versions[v].status.hash == w.config.digest(Concat(r.contents));
      assert w'.versions[v] == w.versions[v];
    }
  }

  /** The run of a pass whose copy showed the hash, or whose status was written, is of stored contents. */
  lemma {:induction false} NewRunOk(w: World, e: PassEnv)
    requires w.Valid() && Answered(e) && !Retired(w.View().meta) && Acts(w, e)
    requires AttemptOf(w.config, w.View().status, e).run.Some?
    ensures var w' := PassOf(w, e);
            ContentsOk(w', AttemptOf(w.config, w.View().status, e).run.value.(recorded := |w'.versions| > |w.versions|))
  {
    hide PassOf, AttemptOf, AfterAttempt, RunIsPinned, Concat, Acts;
    var w' := PassOf(w, e);
    var r := AttemptOf(w.config, w.View().status, e).run.value.(recorded := |w'.versions| > |w.versions|);
    AttemptIsPinned(w, w.View().status, e);
    PassAddsRuns(w, e);
    PinnedIsSame(w.config, AttemptOf(w.config, w.View().status, e).run.value, r);
    if r.recorded {
      assert w'.versions[|w'.versions| - 1].status.hash == w.config.digest(Concat(r.contents));
    } else if r.pinned != "" {
      PinnedHash(w.config, r);
      assert w'.versions[w.seen] == w.versions[w.seen];
      assert w'.versions[w.seen].status.hash == w.config.digest(Concat(r.contents));
    }
  }

  lemma {:induction false} PinnedHash(c: Config, r: EngineRun)
    requires RunIsPinned(c, r) && r.pinned != ""
    ensures c.digest(Concat(r.contents)) == r.pinned
  {
  }

  lemma {:induction false} PinnedIsSame(c: Config, a: EngineRun, b: EngineRun)
    requires RunIsPinned(c, a) && a.pinned == b.pinned && a.contents == b.contents
    ensures RunIsPinned(c, b)
  {
  }

  lemma {:induction false} PassKeepsPinned(w: World, e: PassEnv)
    requires w.Valid() && RunsPinned(w) && Answered(e)
    ensures RunsPinned(PassOf(w, e))
  {
    hide PassOf, AttemptOf, ContentsOk, Acts;
    var w' := PassOf(w, e);
    PassAddsRuns(w, e);
    if !Retired(w.View().meta) && Acts(w, e) && AttemptOf(w.config, w.View().status, e).run.Some? {
      NewRunOk(w, e);
    }
    forall k | 0 <= k < |w'.log.runs| ensures ContentsOk(w', w'.log.runs[k]) {
      if k < |w.log.runs| {
        RunStaysOk(w, w', w.log.runs[k]);
      }
    }
  }

  lemma {:induction false} PinnedStep(w: World, s: Step)
    requires w.Valid() && RunsPinned(w) && StepOk(w, s)
    ensures RunsPinned(Next(w, s))
  {
    hide PassOf, ContentsOk;
    if s.Pass? {
      EnvAnswers(w, s.env);
      PassKeepsPinned(w, s.env);
    } else {
      var w' := Next(w, s);
      forall k | 0 <= k < |w'.log.runs| ensures ContentsOk(w', w'.log.runs[k]) {
        RunStaysOk(w, w', w.log.runs[k]);
      }
    }
  }

  lemma {:induction false} PinnedRun(w: World, steps: seq<Step>)
    requires w.Valid() && RunsPinned(w) && RunOk(w, steps)
    ensures RunsPinned(RunOf(w, steps))
    decreases |steps|
  {
    if steps == [] {
    } else {
      PinnedStep(w, steps[0]);
      hide RunsPinned, Next;
      PinnedRun(Next(w, steps[0]), steps[1..]);
    }
  }

  lemma {:induction false} OneHash(w: World, i: nat, j: nat)
    requires VersionsAdmissible(w) && i < |w.versions| && j < |w.versions|
    requires w.versions[i].status.hash != "" && w.versions[j].status.hash != ""
    ensures w.versions[i].status.hash == w.versions[j].status.hash
  {
    if i <= j {
      SetOnceBetween(w, i, j);
    } else {
      SetOnceBetween(w, j, i);
    }
  }

  /** SHA-256 tells the two inputs apart. */
  ghost predicate NoCollision(digest: Bytes -> string, a: Bytes, b: Bytes) {
    digest(a) == digest(b) ==> a == b
  }

  /** In every run: a stored hash is that of the contents of every engine run, of the one that stored it
      as well as of those that saw it, unless the run's copy showed no hash and its status write was
      refused. */
  lemma {:induction false} HashBindsRuns(first: World, steps: seq<Step>, w: World, r: EngineRun, v: nat)
    requires Reached(first, steps, w) && r in w.log.runs && v < |w.versions| && w.versions[v].status.hash != ""
    ensures w.config.digest(Concat(r.contents)) == w.versions[v].status.hash || (r.pinned == "" && !r.recorded)
  {
    hide VersionsAdmissible, RunsPinned, RunIsPinned, Concat, Reached;
    ReachedAdmissible(first, steps, w);
    ReachedPinned(first, steps, w);
    RunIn(w, r);
    HashIsNeverEmpty(first, steps, w, r.contents);
    if Bound(r) {
      var u :| 0 <= u < |w.versions| && w.versions[u].status.hash == w.config.digest(Concat(r.contents));
      OneHash(w, u, v);
    }
  }

  lemma {:induction false} RunIn(w: World, r: EngineRun)
    requires RunsPinned(w) && r in w.log.runs
    ensures ContentsOk(w, r)
  {
  }

  /** In every run: any two engine runs that stored the hash, or whose copies showed it, used the same
      object texts, one by one, provided the decoder accepts only JSON objects and SHA-256 does not
      collide on the two inputs. */
  lemma {:induction false} ContentIsPinned(first: World, steps: seq<Step>, w: World, a: EngineRun, b: EngineRun)
    requires Reached(first, steps, w) && a in w.log.runs && b in w.log.runs && Bound(a) && Bound(b)
    requires NoCollision(w.config.digest, Concat(a.contents), Concat(b.contents))
    requires forall raw :: w.config.parses(raw) ==> JsonObject(raw)
    ensures AllContents(a.contents) && AllContents(b.contents) && Cores(a.contents) == Cores(b.contents)
  {
    hide RunsPinned, Concat, Content, Reached, HashStored;
    ReachedPinned(first, steps, w);
    RunIn(w, a);
    RunIn(w, b);
    BoundAlike(first, steps, w, a, b);
    ParsedAreContents(w.config, a);
    ParsedAreContents(w.config, b);
    SameHashSameObjects(a.contents, b.contents, w.config.digest);
  }

  lemma {:induction false} ParsedAreContents(c: Config, r: EngineRun)
    requires RunIsPinned(c, r) && forall raw :: c.parses(raw) ==> JsonObject(raw)
    ensures AllContents(r.contents)
  {
    hide JsonObject, Content, Concat;
    forall k | 0 <= k < |r.contents| ensures Content(r.contents[k]) {
      JsonObjectIsContent(r.contents[k]);
    }
  }

  lemma {:induction false} BoundAlike(first: World, steps: seq<Step>, w: World, a: EngineRun, b: EngineRun)
    requires Reached(first, steps, w) && a in w.log.runs && b in w.log.runs && Bound(a) && Bound(b)
    ensures w.config.digest(Concat(a.contents)) == w.config.digest(Concat(b.contents))
  {
    hide RunsPinned, Concat, Reached, RunIsPinned;
    ReachedPinned(first, steps, w);
    RunIn(w, a);
    var v :| 0 <= v < |w.versions| && w.versions[v].status.hash == w.config.digest(Concat(a.contents));
    HashIsNeverEmpty(first, steps, w, a.contents);
    HashBindsRuns(first, steps, w, b, v);
  }

  lemma {:induction false} HashIsNeverEmpty(first: World, steps: seq<Step>, w: World, contents: seq<Bytes>)
    requires Reached(first, steps, w)
    ensures w.config.digest(Concat(contents)) != ""
  {
  }

  lemma {:induction false} ReachedPinned(first: World, steps: seq<Step>, w: World)
    requires Reached(first, steps, w)
    ensures RunsPinned(w)
  {
    PinnedRun(first, steps);
  }

  /** Why the other runs are not bound: a second pass on a copy that does not show the hash yet runs the
      engine on whatever it resolves.  Its status write is refused, so what is stored is the hash of the
      first. */
  lemma {:induction false} StaleCopyIsNotPinned(w: World, e: PassEnv, f: PassEnv, a: seq<Bytes>, b: seq<Bytes>)
    requires w.Valid() && w.seen == |w.versions| - 1 && !w.gone
    requires !Retired(w.View().meta) && w.View().meta.finalizer && w.View().status.hash == ""
    requires Resolves(w.config, e, a) && !e.statusFails && Resolves(w.config, f, b)
    requires w.config.digest(Concat(a)) != ""
    ensures var w' := PassOf(PassOf(w, e), f);
            var n := |w.log.runs|;
            && |w'.log.runs| == n + 2 && w'.log.runs[n].contents == a && w'.log.runs[n + 1].contents == b
            && Bound(w'.log.runs[n]) && !Bound(w'.log.runs[n + 1])
            && w'.Current().status.hash == w.config.digest(Concat(a))
  {
    hide PassOf, Contents;
    PassOnCopy(w, e, a);
    PassOnCopy(PassOf(w, e), f, b);
  }

  /** The engine run of a pass on a copy without a hash. */
  lemma {:induction false} PassOnCopy(w: World, e: PassEnv, contents: seq<Bytes>)
    requires w.Valid() && Resolves(w.config, e, contents)
    requires !Retired(w.View().meta) && w.View().meta.finalizer && w.View().status.hash == ""
    ensures var w' := PassOf(w, e);
            var stored := w.seen == |w.versions| - 1 && !w.gone && !e.statusFails;
            && w'.log.runs[..|w'.log.runs| - 1] == w.log.runs && |w'.log.runs| == |w.log.runs| + 1
            && w'.config == w.config && w'.View() == w.View() && w'.gone == w.gone && w'.seen == w.seen
            && var r := w'.log.runs[|w.log.runs|];
               && r.pinned == "" && r.contents == contents
               && (!stored ==> w'.versions == w.versions && !r.recorded)
               && (stored && w.config.digest(Concat(contents)) != "" ==>
                     && |w'.versions| == |w.versions| + 1 && r.recorded
                     && w'.Current().status.hash == w.config.digest(Concat(contents)))
  {
    hide Contents, Concat, Written, Reconciled, AfterAttempt;
    var s := w.View().status;
    AttemptIsPinned(w, s, e);
    var a := AttemptOf(w.config, s, e);
    assert a.run.Some? && a.run.value.contents == contents && a.run.value.pinned == "";
    hide AttemptOf;
  }

  // ---------- Progress ----------

  /** In every run: while no phase list is emptied, the last milestone that the deadline counts from
      never moves to an earlier time. */
  lemma {:induction false} MilestoneNeverEarlier(
      first: World, steps: seq<Step>, w: World, i: nat, j: nat, created: Time)
    requires Reached(first, steps, w) && i <= j < |w.versions| && PhasesListed(w.versions, i, j)
    ensures LastMilestone(created, w.versions[i].status.phases) <= LastMilestone(created, w.versions[j].status.phases)
  {
    ReachedAdmissible(first, steps, w);
    hide VersionsAdmissible, Reached, PhasesListed;
    MilestoneBetween(w, i, j, created);
  }

  lemma {:induction false} MilestoneBetween(w: World, i: nat, j: nat, created: Time)
    requires VersionsAdmissible(w) && i <= j < |w.versions| && PhasesListed(w.versions, i, j)
    ensures LastMilestone(created, w.versions[i].status.phases) <= LastMilestone(created, w.versions[j].status.phases)
  {
    var a, b := w.versions[i].status.phases, w.versions[j].status.phases;
    MilestoneIsLatest(created, a);
    MilestoneIsLatest(created, b);
    if k :| 0 <= k < |a| && a[k].completedAt == Some(LastMilestone(created, a)) {
      TimesBetween(w, i, j, k);
      assert b[k].completedAt == a[k].completedAt;
    }
  }
}
