/** What holds of the rollout and of the stored status in every run of the ClusterObjectSet
    controller. */
module CosRollout {
  import opened Api
  import opened Boxcutter
  import opened RevisionEngine
  import opened EngineProofs
  import opened CosStatus
  import opened CosStatusProofs
  import opened CosController
  import opened CosRuns

  // ---------- Phases roll out in order ----------

  /** The phases that some call found complete. */
  ghost function Done(calls: seq<Call>): set<string> {
    set c | c in calls && c.complete :: c.phase
  }

  ghost predicate EarlierDone(ps: seq<Phase>, i: int, done: set<string>) {
    forall j :: 0 <= j < i && j < |ps| ==> ps[j].name in done
  }

  /** A call is of some phase of the spec, and if it wrote, all earlier phases were done before. */
  ghost predicate CallOk(ps: seq<Phase>, done: set<string>, c: Call) {
    exists i :: 0 <= i < |ps| && ps[i].name == c.phase && (c.paused || EarlierDone(ps, i, done))
  }

  ghost predicate Ordered(ps: seq<Phase>, calls: seq<Call>) {
    forall k :: 0 <= k < |calls| ==> CallOk(ps, Done(calls[..k]), calls[k])
  }

  /** Every phase with a stored completion time, and every phase before it, was found complete. */
  ghost predicate StoredDone(ps: seq<Phase>, s: Status, done: set<string>) {
    forall i, k :: 0 <= i < |ps| && 0 <= k < |s.phases|
      && s.phases[k].name == ps[i].name && s.phases[k].completedAt.Some?
      ==> EarlierDone(ps, i + 1, done)
  }

  ghost predicate RolloutOk(w: World) {
    && Ordered(w.config.phases, w.log.calls)
    && forall v :: 0 <= v < |w.versions| ==> StoredDone(w.config.phases, w.versions[v].status, Done(w.log.calls))
  }

  lemma {:induction false} DoneGrows(a: seq<Call>, b: seq<Call>)
    ensures Done(a) <= Done(a + b)
  {
    forall name | name in Done(a) ensures name in Done(a + b) {
      var c :| c in a && c.complete && c.phase == name;
      assert c in a + b;
    }
  }

  lemma {:induction false} DonePrefix(calls: seq<Call>, n: nat)
    requires n <= |calls|
    ensures Done(calls[..n]) <= Done(calls)
  {
    forall name | name in Done(calls[..n]) ensures name in Done(calls) {
      var c :| c in calls[..n] && c.complete && c.phase == name;
      assert c in calls;
    }
  }

  lemma {:induction false} DoneAt(calls: seq<Call>, k: nat, j: nat)
    requires j < k <= |calls| && calls[j].complete
    ensures calls[j].phase in Done(calls[..k])
  {
    assert calls[..k][j] in calls[..k];
  }

  /** The calls of one pass extend an ordered log to an ordered log. */
  lemma {:induction false} CallsStayOrdered(ps: seq<Phase>, s: Status, before: seq<Call>, calls: seq<Call>)
    requires Ordered(ps, before) && StoredDone(ps, s, Done(before))
    requires CallsInOrder(ps, s.phases, calls)
    ensures Ordered(ps, before + calls)
  {
    var all := before + calls;
    forall k | 0 <= k < |all| ensures CallOk(ps, Done(all[..k]), all[k]) {
      if k < |before| {
        assert all[..k] == before[..k];
      } else {
        var i := k - |before|;
        if !calls[i].paused {
          forall j | 0 <= j < i ensures ps[j].name in Done(all[..k]) {
            EarlierCallDone(ps, s, before, calls, j, i);
          }
        }
        assert ps[i].name == all[k].phase && (all[k].paused || EarlierDone(ps, i, Done(all[..k])));
      }
    }
  }

  lemma {:induction false} EarlierCallDone(
      ps: seq<Phase>, s: Status, before: seq<Call>, calls: seq<Call>, j: nat, i: nat)
    requires StoredDone(ps, s, Done(before)) && CallsInOrder(ps, s.phases, calls)
    requires j < i < |calls| && !calls[i].paused
    ensures ps[j].name in Done((before + calls)[..|before| + i])
  {
    var all := before + calls;
    if calls[j].complete {
      assert all[|before| + j] == calls[j];
      DoneAt(all, |before| + i, |before| + j);
    } else {
      var m :| j <= m < |ps| && ps[m].name in CompletedNames(s.phases);
      var k :| 0 <= k < |s.phases| && s.phases[k].completedAt.Some? && s.phases[k].name == ps[m].name;
      assert EarlierDone(ps, m + 1, Done(before));
      assert all[..|before| + i] == before + calls[..i];
      DoneGrows(before, calls[..i]);
    }
  }

  /** A phase that a pass found complete has only finished phases before it. */
  lemma {:induction false} CompleteCallDone(ps: seq<Phase>, s: Status, before: seq<Call>, calls: seq<Call>, i: nat)
    requires Distinct(ps) && Ordered(ps, before) && StoredDone(ps, s, Done(before))
    requires CallsInOrder(ps, s.phases, calls)
    requires forall c :: c in calls && c.paused && c.complete ==> c.phase in Written(before)
    requires i < |calls| && calls[i].complete
    ensures EarlierDone(ps, i + 1, Done(before + calls))
  {
    var all := before + calls;
    assert calls[i] in calls && all[|before| + i] == calls[i];
    assert ps[i].name in Done(all) by {
      assert calls[i] in all;
    }
    hide Done;
    if calls[i].paused {
      WrittenMeansEarlierDone(ps, before, i);
      DoneGrows(before, calls);
    } else {
      forall j | 0 <= j < i ensures ps[j].name in Done(all) {
        EarlierCallDone(ps, s, before, calls, j, i);
        DonePrefix(all, |before| + i);
      }
    }
  }

  lemma {:induction false} WrittenMeansEarlierDone(ps: seq<Phase>, calls: seq<Call>, i: nat)
    requires Distinct(ps) && Ordered(ps, calls) && i < |ps| && ps[i].name in Written(calls)
    ensures EarlierDone(ps, i, Done(calls))
  {
    var k :| 0 <= k < |calls| && !calls[k].paused && calls[k].phase == ps[i].name;
    assert CallOk(ps, Done(calls[..k]), calls[k]);
    var m :| 0 <= m < |ps| && ps[m].name == calls[k].phase && EarlierDone(ps, m, Done(calls[..k]));
    assert m == i;
    DonePrefix(calls, k);
  }

  lemma {:induction false} StoredTimeFrom(existing: seq<ObservedPhase>, name: string)
    requires StoredTime(existing, name).Some?
    ensures exists k :: 0 <= k < |existing| && existing[k].name == name && existing[k].completedAt.Some?
  {
    var last := existing[|existing| - 1];
    if !(last.name == name && last.completedAt.Some?) {
      StoredTimeFrom(existing[..|existing| - 1], name);
      var init := existing[..|existing| - 1];
      var k :| 0 <= k < |init| && init[k].name == name && init[k].completedAt.Some?;
      assert existing[k].name == name;
    }
  }

  /** Carrying completion times over keeps the link, if the phases newly shown as Available are done. */
  lemma {:induction false} CarriedTimesDone(
      ps: seq<Phase>, s: Status, observed: seq<ObservedPhase>, now: Time, done: set<string>, next: Status)
    requires Distinct(ps) && StoredDone(ps, s, done) && Listed(ps, observed)
    requires forall k :: 0 <= k < |observed| && observed[k].status == Available ==> EarlierDone(ps, k + 1, done)
    requires forall k :: 0 <= k < |observed| ==> observed[k].completedAt == None
    requires next.phases == Preserved(s.phases, observed, now)
    ensures StoredDone(ps, next, done)
  {
    forall i, k | 0 <= i < |ps| && 0 <= k < |next.phases|
                  && next.phases[k].name == ps[i].name && next.phases[k].completedAt.Some?
      ensures EarlierDone(ps, i + 1, done)
    {
      assert observed[k].name == ps[k].name && i == k;
      if StoredTime(s.phases, ps[i].name).Some? {
        StoredTimeFrom(s.phases, ps[i].name);
      } else {
        assert observed[k].status == Available;
      }
    }
  }

  lemma {:induction false} ReconcileShowsNoTimes(ps: seq<Phase>, result: Option<EngineResult>)
    ensures var observed := ObservedFromReconcile(ps, result);
            forall k :: 0 <= k < |observed| ==> observed[k].completedAt == None
  {
  }

  /** A phase is shown as Available only if this pass found it complete. */
  lemma {:induction false} AvailableWasCalled(ps: seq<Phase>, result: Option<EngineResult>, calls: seq<Call>)
    requires Distinct(ps) && (result.Some? ==> ReportsCalls(ps, result.value.GetPhases(), calls))
    ensures var observed := ObservedFromReconcile(ps, result);
            forall k :: 0 <= k < |observed| && observed[k].status == Available ==> k < |calls| && calls[k].complete
  {
    if result.Some? && Ordinary(result.value.gated) {
      OrdinaryShows(ps, result.value, calls);
    }
  }

  lemma {:induction false} TeardownShowsNoneAvailable(ps: seq<Phase>, result: Option<TeardownResult>)
    ensures var observed := ObservedFromTeardown(ps, result);
            forall k :: 0 <= k < |observed| ==> observed[k].status != Available && observed[k].completedAt == None
  {
  }

  // ---------- The status a pass computes ----------

  ghost function PassStatus(w: World, e: PassEnv): Status
    requires w.Valid() && Answered(e)
  {
    var s := w.View().status;
    if Retired(w.View().meta) then AfterTeardown(w.config, s, TeardownAttemptOf(w.config, e), e.now)
    else
      AttemptHasResult(w.config, s, e);
      AfterAttempt(w.config, s, AttemptOf(w.config, s, e), e.now)
  }

  /** Whether a pass gets as far as computing a status. */
  ghost predicate Acts(w: World, e: PassEnv)
    requires w.Valid()
  {
    Retired(w.View().meta) || (!e.siblingsFail && w.View().meta.finalizer)
  }

  /** The versions a pass adds all carry the current status, or, when its view was current, all carry
      the status it computed. */
  lemma {:induction false} PassVersions(w: World, e: PassEnv)
    requires w.Valid() && Answered(e)
    ensures var w' := PassOf(w, e);
            && (forall v :: 0 <= v < |w.versions| ==> w'.versions[v] == w.versions[v])
            && ((forall v :: |w.versions| <= v < |w'.versions| ==> w'.versions[v].status == w.Current().status)
                || (w.seen == |w.versions| - 1 && Acts(w, e)
                    && forall v :: |w.versions| <= v < |w'.versions| ==> w'.versions[v].status == PassStatus(w, e)))
  {
    hide AttemptOf, AfterAttempt, TeardownAttemptOf, AfterTeardown, Gone, Written;
    AttemptHasResult(w.config, w.View().status, e);
  }

  /** What a pass adds to the log of calls. */
  ghost function PassCalls(w: World, e: PassEnv): seq<Call>
    requires w.Valid() && Answered(e)
  {
    if Retired(w.View().meta) || !Acts(w, e) then []
    else AttemptOf(w.config, w.View().status, e).Calls()
  }

  lemma {:induction false} PassAddsCalls(w: World, e: PassEnv)
    requires w.Valid() && Answered(e)
    ensures PassOf(w, e).log.calls == w.log.calls + PassCalls(w, e)
  {
    hide AttemptOf, AfterAttempt, TeardownAttemptOf, AfterTeardown, Gone, Written;
    AttemptHasResult(w.config, w.View().status, e);
  }

  // ---------- The rollout invariant is kept ----------

  lemma {:induction false} ReconcileKeepsRollout(w: World, s: Status, e: PassEnv)
    requires Distinct(w.config.phases) && EnvOk(w, e)
    requires Ordered(w.config.phases, w.log.calls) && StoredDone(w.config.phases, s, Done(w.log.calls))
    ensures var a := AttemptOf(w.config, s, e);
            var calls := w.log.calls + a.Calls();
            && (a.failure.NoFailure? ==> a.result.Some?)
            && Ordered(w.config.phases, calls)
            && StoredDone(w.config.phases, AfterAttempt(w.config, s, a, e.now), Done(calls))
  {
    var ps, a := w.config.phases, AttemptOf(w.config, s, e);
    var before, calls := w.log.calls, w.log.calls + a.Calls();
    AttemptHasResult(w.config, s, e);
    var observed := ObservedFromReconcile(ps, a.result);
    PassShape(ps, s.phases, e.answers, Written(before));
    assert CallsInOrder(ps, s.phases, a.Calls());
    assert a.result.Some? ==> ReportsCalls(ps, a.result.value.GetPhases(), a.Calls());
    assert forall c :: c in a.Calls() && c.paused && c.complete ==> c.phase in Written(before);
    hide AttemptOf, EnvOk, ReportsCalls, Written;
    CallsStayOrdered(ps, s, before, a.Calls());
    AvailableWasCalled(ps, a.result, a.Calls());
    forall k | 0 <= k < |observed| && observed[k].status == Available ensures EarlierDone(ps, k + 1, Done(calls)) {
      CompleteCallDone(ps, s, before, a.Calls(), k);
    }
    StoredDoneGrows(ps, s, before, a.Calls());
    ReconcileLists(ps, a.result);
    ReconcileShowsNoTimes(ps, a.result);
    AfterAttemptDone(w.config, s, a, e.now, Done(calls));
  }

  lemma {:induction false} StoredDoneGrows(ps: seq<Phase>, s: Status, before: seq<Call>, calls: seq<Call>)
    requires StoredDone(ps, s, Done(before))
    ensures StoredDone(ps, s, Done(before + calls))
  {
    DoneGrows(before, calls);
  }

  lemma {:induction false} AfterAttemptDone(c: Config, s: Status, a: Attempt, now: Time, done: set<string>)
    requires a.failure.NoFailure? ==> a.result.Some?
    requires Distinct(c.phases) && StoredDone(c.phases, s, done)
    requires var observed := ObservedFromReconcile(c.phases, a.result);
             && Listed(c.phases, observed)
             && (forall k :: 0 <= k < |observed| && observed[k].status == Available ==> EarlierDone(c.phases, k + 1, done))
             && (forall k :: 0 <= k < |observed| ==> observed[k].completedAt == None)
    ensures StoredDone(c.phases, AfterAttempt(c, s, a, now), done)
  {
    var next := AfterAttempt(c, s, a, now);
    if a.failure.NoFailure? || a.failure.OtherError? {
      CarriedTimesDone(c.phases, s, ObservedFromReconcile(c.phases, a.result), now, done, next);
    }
  }

  lemma {:induction false} TeardownKeepsRollout(c: Config, s: Status, t: TeardownAttempt, now: Time, done: set<string>)
    requires Distinct(c.phases) && StoredDone(c.phases, s, done)
    ensures StoredDone(c.phases, AfterTeardown(c, s, t, now), done)
  {
    var next := AfterTeardown(c, s, t, now);
    TeardownLists(c.phases, t.result);
    TeardownShowsNoneAvailable(c.phases, t.result);
    if t.failure.NoFailure? || t.failure.OtherError? {
      CarriedTimesDone(c.phases, s, ObservedFromTeardown(c.phases, t.result), now, done, next);
    }
  }

  lemma {:induction false} PassStatusDone(w: World, e: PassEnv)
    requires w.Valid() && Distinct(w.config.phases) && RolloutOk(w) && EnvOk(w, e)
    ensures var calls := w.log.calls + PassCalls(w, e);
            && Ordered(w.config.phases, calls)
            && (Acts(w, e) ==> StoredDone(w.config.phases, PassStatus(w, e), Done(calls)))
  {
    var s := w.View().status;
    assert StoredDone(w.config.phases, s, Done(w.log.calls));
    assert w.log.calls + [] == w.log.calls;
    hide Ordered, StoredDone, EnvOk, AfterAttempt, AfterTeardown, AttemptOf;
    if Retired(w.View().meta) {
      TeardownKeepsRollout(w.config, s, TeardownAttemptOf(w.config, e), e.now, Done(w.log.calls));
    } else if Acts(w, e) {
      ReconcileKeepsRollout(w, s, e);
    }
  }

  lemma {:induction false} RolloutStep(w: World, s: Step)
    requires w.Valid() && Distinct(w.config.phases) && RolloutOk(w) && StepOk(w, s)
    ensures RolloutOk(Next(w, s))
  {
    var ps, w' := w.config.phases, Next(w, s);
    if s.Pass? {
      PassVersions(w, s.env);
      PassAddsCalls(w, s.env);
      PassStatusDone(w, s.env);
      hide Ordered, StoredDone, EnvOk, PassOf, PassStatus, PassCalls;
      var calls := PassCalls(w, s.env);
      forall v | 0 <= v < |w'.versions| ensures StoredDone(ps, w'.versions[v].status, Done(w'.log.calls)) {
        if v < |w.versions| {
          StoredDoneGrows(ps, w.versions[v].status, w.log.calls, calls);
        } else {
          StoredDoneGrows(ps, w.Current().status, w.log.calls, calls);
        }
      }
    } else {
      hide Ordered, StoredDone;
      forall v | 0 <= v < |w'.versions| ensures StoredDone(ps, w'.versions[v].status, Done(w'.log.calls)) {
        assert w'.versions[v].status == if v < |w.versions| then w.versions[v].status else w.Current().status;
      }
    }
  }

  lemma {:induction false} RolloutRun(w: World, steps: seq<Step>)
    requires w.Valid() && Distinct(w.config.phases) && RolloutOk(w) && RunOk(w, steps)
    ensures RolloutOk(RunOf(w, steps))
    decreases |steps|
  {
    if steps == [] {
    } else {
      RolloutStep(w, steps[0]);
      hide RolloutOk, Next;
      RolloutRun(Next(w, steps[0]), steps[1..]);
    }
  }

  /** One of the calls before number k found the phase complete. */
  ghost predicate CompletedBefore(calls: seq<Call>, k: nat, phase: string)
    requires k <= |calls|
  {
    exists m :: 0 <= m < k && calls[m].complete && calls[m].phase == phase
  }

  /** In every run, with regressions, errors, lost status writes, wiped phase lists and stale views: a
      phase is written only after each earlier phase of the spec was found complete. */
  lemma {:induction false} PhasesRollOutInOrder(first: World, steps: seq<Step>, w: World, k: nat)
    requires Reached(first, steps, w) && k < |w.log.calls| && !w.log.calls[k].paused
    ensures var calls, ps := w.log.calls, w.config.phases;
            exists i :: 0 <= i < |ps| && ps[i].name == calls[k].phase
              && forall j :: 0 <= j < i ==> CompletedBefore(calls, k, ps[j].name)
  {
    var calls, ps := w.log.calls, w.config.phases;
    ReachedInOrder(first, steps, w);
    assert CallOk(ps, Done(calls[..k]), calls[k]);
    hide RolloutOk, Reached;
    var i :| 0 <= i < |ps| && ps[i].name == calls[k].phase && EarlierDone(ps, i, Done(calls[..k]));
    EarlierCompleted(ps, calls, k, i);
  }

  lemma {:induction false} ReachedInOrder(first: World, steps: seq<Step>, w: World)
    requires Reached(first, steps, w)
    ensures RolloutOk(w)
  {
    RolloutRun(first, steps);
  }

  lemma {:induction false} EarlierCompleted(ps: seq<Phase>, calls: seq<Call>, k: nat, i: nat)
    requires k < |calls| && i <= |ps| && EarlierDone(ps, i, Done(calls[..k]))
    ensures forall j :: 0 <= j < i ==> CompletedBefore(calls, k, ps[j].name)
  {
    forall j | 0 <= j < i ensures CompletedBefore(calls, k, ps[j].name) {
      var c :| c in calls[..k] && c.complete && c.phase == ps[j].name;
      var m :| 0 <= m < k && calls[..k][m] == c;
      assert calls[m] == c;
    }
  }
}
