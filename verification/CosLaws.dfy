/** Exactly when one pass of the ClusterObjectSet controller adds and removes the finalizer, and exactly
    which condition it reports, told from the world and the environment it meets. */
module CosLaws {
  import opened Api
  import opened Boxcutter
  import opened RevisionEngine
  import opened EngineProofs
  import opened EngineCalls
  import opened PhaseLaws
  import opened CosStatus
  import opened Resolver
  import opened CosController
  import opened CosRollout
  import opened CosStored

  // ---------- The finalizer ----------

  /** Teardown met no error and left nothing. */
  predicate TearsDown(e: PassEnv) {
    && !e.identitiesFail && !e.accessFails && !e.teardown.failed
    && (e.teardown.result.Some? ==> e.teardown.result.value.complete)
  }

  /** The object was deleted with the orphan finalizer set. */
  predicate OrphanDelete(m: Meta) {
    m.deleting && m.orphan
  }

  /** All that it takes for the finalizer to go: a retired version that is the current one, calls that go
      through, and an orphan delete or a finished teardown that is reported or need not be. */
  ghost predicate LetsGo(w: World, e: PassEnv)
    requires w.Valid() && Answered(e)
  {
    var v := w.View();
    && Retired(v.meta) && v.meta.finalizer
    && w.seen == |w.versions| - 1 && !w.gone && !e.freeFails && !e.patchFails
    && (OrphanDelete(v.meta) || (TearsDown(e) && (PassStatus(w, e) == v.status || !e.statusFails)))
  }

  lemma {:induction false} ReleaseIff(w: World, basis: nat, orphan: bool, e: PassEnv)
    requires w.Valid() && w.Current().meta.finalizer
    ensures !Release(w, basis, orphan, e).Current().meta.finalizer
            <==> basis == |w.versions| - 1 && !w.gone && !e.freeFails && !e.patchFails
    ensures var w' := Release(w, basis, orphan, e);
            w'.seen == if !w'.Current().meta.finalizer && !e.syncFails then |w'.versions| - 1 else w.seen
  {
  }

  lemma {:induction false} TearsDownIff(c: Config, e: PassEnv)
    ensures var t := TeardownAttemptOf(c, e);
            TearsDown(e) <==> t.failure.NoFailure? && (t.result.Some? ==> t.result.value.complete)
  {
    hide ReadOnlyTeardowns;
  }

  lemma {:induction false} TornDownGoesIff(w: World, t: TeardownAttempt, next: Status, e: PassEnv)
    requires w.Valid() && w.Current().meta.finalizer
    ensures !AfterTornDown(w, t, next, e).Current().meta.finalizer
            <==> && w.seen == |w.versions| - 1 && !w.gone && !e.freeFails && !e.patchFails
                 && t.failure.NoFailure? && (t.result.Some? ==> t.result.value.complete)
                 && (next == w.View().status || !e.statusFails)
    ensures var w' := AfterTornDown(w, t, next, e);
            w'.seen == if !w'.Current().meta.finalizer && !e.syncFails then |w'.versions| - 1 else w.seen
  {
    hide Release, Gone;
    var w1 := w.(log := w.log.(live := w.log.live - Gone(t)));
    if next == w.View().status {
      ReleaseIff(w1, w.seen, false, e);
    } else {
      ReleaseIff(StatusWritten(w1, w.seen, next), |w.versions|, false, e);
    }
  }

  /** From any world whose current version shows the finalizer, one pass leaves it without exactly when
      all of that holds; and then the cache shows the version without it, unless waiting for that fails. */
  lemma {:induction false} FinalizerGoesIff(w: World, e: PassEnv)
    requires w.Valid() && Answered(e) && w.Current().meta.finalizer
    ensures !PassOf(w, e).Current().meta.finalizer <==> LetsGo(w, e)
    ensures PassOf(w, e).seen == if LetsGo(w, e) && !e.syncFails then |PassOf(w, e).versions| - 1 else w.seen
  {
    if Retired(w.View().meta) {
      RetiredGoesIff(w, e);
    } else {
      ActiveKeepsFinalizer(w, e);
    }
  }

  lemma {:induction false} RetiredGoesIff(w: World, e: PassEnv)
    requires w.Valid() && Answered(e) && w.Current().meta.finalizer && Retired(w.View().meta)
    ensures var w' := TeardownPass(w, e);
            && (!w'.Current().meta.finalizer <==> LetsGo(w, e))
            && w'.seen == if LetsGo(w, e) && !e.syncFails then |w'.versions| - 1 else w.seen
  {
    hide Release, AfterTornDown, TearsDown, AfterTeardown, TeardownAttemptOf;
    var t, w0 := TeardownAttemptOf(w.config, e), w.(log := w.log.(retired := true));
    TearsDownIff(w.config, e);
    ReleaseIff(w0, w.seen, true, e);
    TornDownGoesIff(w0, t, AfterTeardown(w.config, w.View().status, t, e.now), e);
  }

  lemma {:induction false} ActiveKeepsFinalizer(w: World, e: PassEnv)
    requires w.Valid() && Answered(e) && w.Current().meta.finalizer
    ensures ActivePass(w, e).Current().meta.finalizer && ActivePass(w, e).seen == w.seen
  {
    hide AttemptOf, AfterAttempt, Written;
    AttemptHasResult(w.config, w.View().status, e);
  }

  /** From any world whose current version shows no finalizer, one pass adds it exactly when its view is
      not retired and shows none, the siblings could be listed, the apply goes through, and the object is
      there and not being deleted. */
  lemma {:induction false} FinalizerComesIff(w: World, e: PassEnv)
    requires w.Valid() && Answered(e) && !w.Current().meta.finalizer
    ensures PassOf(w, e).Current().meta.finalizer
            <==> && !Retired(w.View().meta) && !w.View().meta.finalizer && !e.siblingsFail
                 && !e.finalizerFails && !w.gone && !w.Current().meta.deleting
  {
    hide AttemptOf, AfterAttempt, Written, TeardownPass;
    if Retired(w.View().meta) {
      RetiredAddsNone(w, e);
    } else {
      AttemptHasResult(w.config, w.View().status, e);
    }
  }

  lemma {:induction false} RetiredAddsNone(w: World, e: PassEnv)
    requires w.Valid() && !w.Current().meta.finalizer
    ensures !TeardownPass(w, e).Current().meta.finalizer
  {
    hide TeardownAttemptOf, AfterTeardown, Gone;
  }

  // ---------- What is left of the objects ----------

  /** Boxcutter's teardown was asked, met no error, and reported the phase complete. */
  ghost predicate ReportedGone(e: PassEnv, name: string) {
    && !e.identitiesFail && !e.accessFails && !e.teardown.failed && e.teardown.result.Some?
    && exists p :: p in e.teardown.result.value.phases && p.complete && p.name == name
  }

  lemma {:induction false} WaitingAreIncomplete(
      ps: seq<Phase>, waiting: set<string>, read: PhaseObject -> Option<string>)
    ensures forall p :: p in ReadOnlyTeardowns(ps, waiting, read) ==> !p.complete
  {
    if ps == [] {
    } else {
      WaitingAreIncomplete(ps[1..], waiting, read);
    }
  }

  lemma {:induction false} GoneIff(c: Config, e: PassEnv, name: string)
    ensures name in Gone(TeardownAttemptOf(c, e)) <==> ReportedGone(e, name)
  {
    var t := TeardownAttemptOf(c, e);
    if e.teardown.result.Some? {
      var r := e.teardown.result.value;
      WaitingAreIncomplete(c.phases, (set n | n in r.waiting), e.read);
      hide ReadOnlyTeardowns;
      if ReportedGone(e, name) {
        var p :| p in r.phases && p.complete && p.name == name;
        assert p in t.result.value.phases;
      }
      if name in Gone(t) {
        var p :| p in t.result.value.phases && p.complete && p.name == name;
        assert p in r.phases;
      }
    }
  }

  lemma {:induction false} TornDownLive(w: World, t: TeardownAttempt, next: Status, e: PassEnv)
    requires w.Valid()
    ensures var w' := AfterTornDown(w, t, next, e);
            w'.log.live == w.log.live - Gone(t) && w'.log.calls == w.log.calls
  {
    hide Gone;
  }

  /** The calls that a pass adds to the log write the phase. */
  ghost predicate WritesPhase(before: seq<Call>, after: seq<Call>, name: string) {
    exists k :: |before| <= k < |after| && after[k].phase == name && !after[k].paused
  }

  /** What counts as live after a pass: what the pass wrote, and what was live before and was not taken
      down.  A phase is taken down exactly if the view is retired, shows the finalizer and is no orphan
      delete, and a teardown without error reported the phase complete; so an orphan delete lets go of
      everything that was written. */
  lemma {:induction false} LiveExactly(w: World, e: PassEnv, name: string)
    requires w.Valid() && Answered(e)
    ensures var w' := PassOf(w, e);
            && w.log.calls <= w'.log.calls
            && (name in w'.log.live <==>
                  || WritesPhase(w.log.calls, w'.log.calls, name)
                  || (name in w.log.live
                      && !(Retired(w.View().meta) && w.View().meta.finalizer && !OrphanDelete(w.View().meta)
                           && ReportedGone(e, name))))
  {
    if Retired(w.View().meta) {
      RetiredLive(w, e, name);
    } else {
      ActiveLive(w, e, name);
    }
  }

  lemma {:induction false} RetiredLive(w: World, e: PassEnv, name: string)
    requires w.Valid()
    ensures var w' := TeardownPass(w, e);
            && w'.log.calls == w.log.calls
            && (name in w'.log.live <==>
                  name in w.log.live
                  && !(w.View().meta.finalizer && !OrphanDelete(w.View().meta) && ReportedGone(e, name)))
  {
    hide TeardownAttemptOf, AfterTeardown, AfterTornDown, Gone, ReportedGone;
    var t, w0 := TeardownAttemptOf(w.config, e), w.(log := w.log.(retired := true));
    GoneIff(w.config, e, name);
    TornDownLive(w0, t, AfterTeardown(w.config, w.View().status, t, e.now), e);
  }

  lemma {:induction false} ActiveLive(w: World, e: PassEnv, name: string)
    requires w.Valid() && Answered(e)
    ensures var w' := ActivePass(w, e);
            && w.log.calls <= w'.log.calls
            && (name in w'.log.live <==> name in w.log.live || WritesPhase(w.log.calls, w'.log.calls, name))
  {
    hide AttemptOf, AfterAttempt, Written;
    var a := AttemptOf(w.config, w.View().status, e);
    AttemptHasResult(w.config, w.View().status, e);
    WritesIff(w.log.calls, a.Calls(), name);
  }

  lemma {:induction false} WritesIff(before: seq<Call>, calls: seq<Call>, name: string)
    ensures WritesPhase(before, before + calls, name) <==> name in Written(calls)
  {
    var all := before + calls;
    if name in Written(calls) {
      var k :| 0 <= k < |calls| && calls[k].phase == name && !calls[k].paused;
      assert all[|before| + k] == calls[k];
    }
  }

  /** The marks a pass leaves in its history: that it acted on a retired version, and that it let go of the
      object, and whether by an orphan delete. */
  lemma {:induction false} MarksExactly(w: World, e: PassEnv)
    requires w.Valid() && Answered(e)
    ensures var m, h, h' := w.View().meta, w.log, PassOf(w, e).log;
            && (h'.retired <==> h.retired || Retired(m))
            && (h'.released <==> h.released || LetsGo(w, e))
            && (h'.orphaned <==> h.orphaned || (LetsGo(w, e) && OrphanDelete(m)))
  {
    if Retired(w.View().meta) {
      RetiredMarks(w, e);
    } else {
      hide AttemptOf, AfterAttempt, Written;
      AttemptHasResult(w.config, w.View().status, e);
    }
  }

  lemma {:induction false} RetiredMarks(w: World, e: PassEnv)
    requires w.Valid() && Answered(e) && Retired(w.View().meta)
    ensures var m, h, h' := w.View().meta, w.log, TeardownPass(w, e).log;
            && h'.retired
            && (h'.released <==> h.released || LetsGo(w, e))
            && (h'.orphaned <==> h.orphaned || (LetsGo(w, e) && OrphanDelete(m)))
  {
    hide AfterTornDown, TearsDown, AfterTeardown, TeardownAttemptOf;
    var t, w0 := TeardownAttemptOf(w.config, e), w.(log := w.log.(retired := true));
    TearsDownIff(w.config, e);
    TornDownMarks(w0, t, AfterTeardown(w.config, w.View().status, t, e.now), e);
  }

  lemma {:induction false} TornDownMarks(w: World, t: TeardownAttempt, next: Status, e: PassEnv)
    requires w.Valid()
    ensures var h, h' := w.log, AfterTornDown(w, t, next, e).log;
            && h'.retired == h.retired && h'.orphaned == h.orphaned
            && (h'.released <==>
                  || h.released
                  || (w.seen == |w.versions| - 1 && !w.gone && !e.freeFails && !e.patchFails
                      && t.failure.NoFailure? && (t.result.Some? ==> t.result.value.complete)
                      && (next == w.View().status || !e.statusFails)))
  {
    hide Gone;
  }

  // ---------- The reported condition ----------

  /** The objects of the spec resolve to these contents, and the stored hash, if there is one, is theirs. */
  ghost predicate Usable(c: Config, s: Status, src: Sources, contents: seq<Bytes>) {
    && Contents(src, c.parses, AllObjects(c.phases)) == Some(contents)
    && (s.hash == "" || s.hash == c.digest(Concat(contents)))
  }

  ghost predicate HasUsable(c: Config, s: Status, src: Sources) {
    exists contents :: Usable(c, s, src, contents)
  }

  /** boxcutter's gated reconcile failed, or its reconcile of a phase that still had to be written did. */
  ghost predicate WriteFails(ps: seq<Phase>, existing: seq<ObservedPhase>, a: Answers) {
    var g := |a.gated.reached|;
    || a.gated.failed
    || (GoesOn(a)
        && exists i :: g <= i < |ps| && StillWrites(ps, existing, g, i) && a.phase(ps[i].name, false).failed)
  }

  lemma {:induction false} FailsIff(ps: seq<Phase>, existing: seq<ObservedPhase>, a: Answers, written: set<string>)
    requires Distinct(ps) && Contract(ps, written, a)
    ensures Reconciled(ps, existing, a).failed <==> WriteFails(ps, existing, a)
  {
    hide HasTime, Reconciled, Distinct, Contract;
    PassExactly(ps, existing, a, written);
    var g, n := |a.gated.reached|, |Reconciled(ps, existing, a).calls|;
    if GoesOn(a) {
      if i :| g <= i < |ps| && StillWrites(ps, existing, g, i) && a.phase(ps[i].name, false).failed {
        assert AnswerAt(ps, existing, a, g, i).failed;
        assert i >= n - 1 && StillWrites(ps, existing, g, n - 1);
      }
      if Reconciled(ps, existing, a).failed {
        assert a.phase(ps[n - 1].name, false).failed;
      }
    }
  }

  /** The condition of an active pass, from what it meets. */
  ghost predicate ReportsReconcile(c: Config, s: Status, e: PassEnv, status: ConditionStatus, reason: Reason)
    requires Answered(e)
  {
    if !HasUsable(c, s, e.sources) then
      status == (if s.hash == "" then CondFalse else CondUnknown) && reason == InvalidRevision
    else if e.accessFails then status == CondUnknown && reason == InternalFailure
    else if WriteFails(c.phases, s.phases, e.answers) then status == CondUnknown && reason == ReconcileFailure
    else
      var r := e.answers.gated.result.value;
      if r.invalid.Some? then status == CondFalse && reason == InvalidRevision
      else if r.progressed then status == CondFalse && reason == IsSuperseded
      else if r.complete then status == CondTrue && reason == IsAvailable
      else status == CondFalse && reason == IsUnavailable
  }

  lemma {:induction false} PinnedIff(c: Config, s: Status, src: Sources, contents: seq<Bytes>)
    ensures Usable(c, s, src, contents) <==> Pinned(c, s, src) == Some((c.digest(Concat(contents)), contents))
    ensures Pinned(c, s, src).Some? ==> Usable(c, s, src, Pinned(c, s, src).value.1)
    ensures HasUsable(c, s, src) <==> Pinned(c, s, src).Some?
  {
    hide Contents, AllObjects, Concat;
    var p := Pinned(c, s, src);
    if p.Some? {
      assert Usable(c, s, src, p.value.1);
    }
  }

  /** An ordinary result is complete exactly when the gated one is: then no phase was left for the other
      sweeps. */
  lemma {:induction false} CompleteIff(ps: seq<Phase>, existing: seq<ObservedPhase>, a: Answers, written: set<string>)
    requires Distinct(ps) && Contract(ps, written, a) && GoesOn(a)
    ensures var o := Reconciled(ps, existing, a);
            && o.result.Some? && o.result.value.gated == a.gated.result.value
            && (o.result.value.IsComplete() <==> a.gated.result.value.complete)
  {
    hide Distinct, Ordinary;
    if a.gated.result.value.complete {
      RestIsSuffix(ps, a);
      assert ps[|a.gated.reached|..] == [];
    }
  }

  /** An active pass that gets through to boxcutter. */
  ghost predicate GetsThrough(w: World, e: PassEnv)
    requires w.Valid()
  {
    !Retired(w.View().meta) && HasUsable(w.config, w.View().status, e.sources) && !e.accessFails
  }

  ghost predicate ReportsTeardown(s: Status, e: PassEnv, status: ConditionStatus, reason: Reason) {
    if e.identitiesFail then
      status == (if s.hash == "" then CondFalse else CondUnknown) && reason == InvalidRevision
    else if e.accessFails then status == CondUnknown && reason == InternalFailure
    else if e.teardown.failed then status == CondUnknown && reason == TeardownFailure
    else status == CondFalse && reason == IsArchived
  }

  /** The condition, the hash and the completion time that a pass computes, exactly, from the copy it works
      on and what it meets.  Without usable contents, or identities to tear down, the phases stay as they
      are; without access to the cluster they are emptied. */
  lemma {:induction false} ReportedExactly(w: World, e: PassEnv)
    requires w.Valid() && Answered(e) && Distinct(w.config.phases) && EnvOk(w, e)
    ensures var c, s, next := w.config, w.View().status, PassStatus(w, e);
            && next.available.Some? && next.available.value.generation == c.generation
            && var cond := next.available.value;
            && (if Retired(w.View().meta) then ReportsTeardown(s, e, cond.status, cond.reason)
                else ReportsReconcile(c, s, e, cond.status, cond.reason))
            && (s.completedAt.Some? ==> next.completedAt == s.completedAt)
            && (s.completedAt.None? ==> next.completedAt == if cond.status == CondTrue then Some(e.now) else None)
            && (Retired(w.View().meta) || !HasUsable(c, s, e.sources) ==> next.hash == s.hash)
            && (!Retired(w.View().meta) ==>
                  forall contents :: Usable(c, s, e.sources, contents) ==> next.hash == c.digest(Concat(contents)))
            && (cond.reason == InvalidRevision && !GetsThrough(w, e) ==> next.phases == s.phases)
            && (cond.reason == InternalFailure ==> next.phases == [])
  {
    if Retired(w.View().meta) {
      TeardownReported(w, e);
    } else {
      ReconcileReported(w, e);
    }
  }

  lemma {:induction false} TeardownReported(w: World, e: PassEnv)
    requires w.Valid() && Answered(e) && Retired(w.View().meta)
    ensures var s, next := w.View().status, PassStatus(w, e);
            && next.available.Some? && next.available.value.generation == w.config.generation
            && ReportsTeardown(s, e, next.available.value.status, next.available.value.reason)
            && next.completedAt == s.completedAt && next.hash == s.hash
            && next.available.value.status != CondTrue
            && (next.available.value.reason == InvalidRevision ==> next.phases == s.phases)
            && (next.available.value.reason == InternalFailure ==> next.phases == [])
  {
    hide Preserved, ObservedFromTeardown, ReadOnlyTeardowns, Aggregate;
  }

  lemma {:induction false} ReconcileReported(w: World, e: PassEnv)
    requires w.Valid() && Answered(e) && !Retired(w.View().meta) && Distinct(w.config.phases) && EnvOk(w, e)
    ensures var c, s, next := w.config, w.View().status, PassStatus(w, e);
            && next.available.Some? && next.available.value.generation == c.generation
            && var cond := next.available.value;
            && ReportsReconcile(c, s, e, cond.status, cond.reason)
            && (s.completedAt.Some? ==> next.completedAt == s.completedAt)
            && (s.completedAt.None? ==> next.completedAt == if cond.status == CondTrue then Some(e.now) else None)
            && (!HasUsable(c, s, e.sources) ==> next.hash == s.hash)
            && (forall contents :: Usable(c, s, e.sources, contents) ==> next.hash == c.digest(Concat(contents)))
            && (cond.reason == InvalidRevision && !GetsThrough(w, e) ==> next.phases == s.phases)
            && (cond.reason == InternalFailure ==> next.phases == [])
  {
    hide Preserved, ObservedFromReconcile, Aggregate, Contents, AllObjects, Concat, Pinned, Usable, HasUsable,
      WriteFails, Distinct, GatedContract, PhaseContract, Except, SweepOf, DriftPhases, ReadOnlyPhases;
    var c, s, a, written := w.config, w.View().status, e.answers, Written(w.log.calls);
    FailsIff(c.phases, s.phases, a, written);
    if GoesOn(a) {
      CompleteIff(c.phases, s.phases, a, written);
    }
    PinnedIff(c, s, e.sources, []);
    forall contents | Usable(c, s, e.sources, contents)
      ensures Pinned(c, s, e.sources) == Some((c.digest(Concat(contents)), contents))
    {
      PinnedIff(c, s, e.sources, contents);
    }
  }

  /** A pass runs the engine exactly if its view is active and shows the finalizer, the siblings could be
      listed, the contents are usable and the cluster can be reached; then once, over those contents, and
      the run counts as recorded exactly if a changed status was written. */
  lemma {:induction false} EngineRunsIff(w: World, e: PassEnv)
    requires w.Valid() && Answered(e)
    ensures var c, s, runs, done := w.config, w.View().status, PassOf(w, e).log.runs, PassOf(w, e).log.calls;
            if !Retired(w.View().meta) && w.View().meta.finalizer && !e.siblingsFail && HasUsable(c, s, e.sources)
               && !e.accessFails
            then
              var calls := Reconciled(c.phases, s.phases, e.answers).calls;
              var recorded := Writes(w, e) && PassStatus(w, e) != s;
              && done == w.log.calls + calls
              && exists contents ::
                   Usable(c, s, e.sources, contents)
                   && runs == w.log.runs + [EngineRun(s.hash, contents, calls, recorded)]
            else runs == w.log.runs && done == w.log.calls
  {
    hide AfterAttempt, AfterTeardown, TeardownAttemptOf, Gone, Pinned, Usable, HasUsable, Reconciled, Written, Release;
    var c, s := w.config, w.View().status;
    PinnedIff(c, s, e.sources, []);
    AttemptHasResult(c, s, e);
    if Retired(w.View().meta) {
      RetiredKeepsRuns(w, e);
    }
  }

  lemma {:induction false} RetiredKeepsRuns(w: World, e: PassEnv)
    requires w.Valid()
    ensures TeardownPass(w, e).log.runs == w.log.runs && TeardownPass(w, e).log.calls == w.log.calls
  {
    hide AfterTeardown, TeardownAttemptOf, Gone;
  }

  // ---------- The reported phases ----------

  /** The entry's completion time is the last one stored for its name; without one it is the time of now
      exactly if the entry shows Available. */
  ghost predicate CarriesTime(existing: seq<ObservedPhase>, op: ObservedPhase, now: Time) {
    && (forall t :: LastTime(existing, op.name, t) ==> op.completedAt == Some(t))
    && ((forall k :: 0 <= k < |existing| && existing[k].name == op.name ==> existing[k].completedAt == None) ==>
          op.completedAt == if op.status == Available then Some(now) else None)
  }

  lemma {:induction false} PassPhases(w: World, e: PassEnv)
    requires w.Valid() && Answered(e) && GetsThrough(w, e)
    ensures var ps, existing := w.config.phases, w.View().status.phases;
            PassStatus(w, e).phases
            == Preserved(existing, ObservedFromReconcile(ps, Reconciled(ps, existing, e.answers).result), e.now)
  {
    hide Contents, AllObjects, Concat, Pinned, HasUsable, Reconciled, Preserved, ObservedFromReconcile, Aggregate;
    PinnedIff(w.config, w.View().status, e.sources, []);
  }

  lemma {:induction false} ShownOf(
      ps: seq<Phase>, existing: seq<ObservedPhase>, a: Answers, written: set<string>, i: nat)
    requires Distinct(ps) && Contract(ps, written, a) && GoesOn(a) && i < |ps|
    ensures var ops := ObservedFromReconcile(ps, Reconciled(ps, existing, a).result);
            |ops| == |ps| && ShownExactly(ps[i], ResultAt(ps, existing, a, i), ops[i]) && ops[i].completedAt == None
  {
    hide Distinct, ObservedFromReconcile, ShownExactly, ResultAt, Contract, CallsInOrder, ReportsCalls, Except, SweepOf,
      DriftPhases, ReadOnlyPhases;
    PassShape(ps, existing, a, written);
    ReportIsResult(ps, existing, a, written, i);
    var o := Reconciled(ps, existing, a);
    OrdinaryExactly(ps, o.result.value, o.calls, i);
    ShownHasNoTime(ps[i], ResultAt(ps, existing, a, i), ObservedFromReconcile(ps, o.result)[i]);
  }

  /** Phase by phase, what an active pass that gets through to boxcutter shows when the revision is neither
      invalid nor superseded: what boxcutter found of the phase, even if a later call failed. */
  lemma {:induction false} PhasesExactly(w: World, e: PassEnv, i: nat)
    requires w.Valid() && Answered(e) && Distinct(w.config.phases) && EnvOk(w, e)
    requires GetsThrough(w, e) && GoesOn(e.answers) && i < |w.config.phases|
    ensures var ps, existing, ops := w.config.phases, w.View().status.phases, PassStatus(w, e).phases;
            && |ops| == |ps|
            && ShownExactly(ps[i], ResultAt(ps, existing, e.answers, i), ops[i].(completedAt := None))
            && CarriesTime(existing, ops[i], e.now)
  {
    hide Reconciled, ObservedFromReconcile, Contract, Distinct, LastTime, ResultAt, GoesOn, PassStatus,
      IncompleteExactly, PreserveOne, GetsThrough;
    var ps, existing := w.config.phases, w.View().status.phases;
    PassPhases(w, e);
    ShownOf(ps, existing, e.answers, Written(w.log.calls), i);
    TimesExactly(existing, ObservedFromReconcile(ps, Reconciled(ps, existing, e.answers).result), e.now, i);
  }

  /** And what it shows when the revision failed its validation or was superseded. */
  lemma {:induction false} RejectedExactly(w: World, e: PassEnv, i: nat)
    requires w.Valid() && Answered(e) && GetsThrough(w, e) && e.answers.gated.result.Some? && i < |w.config.phases|
    ensures var ps, existing, ops := w.config.phases, w.View().status.phases, PassStatus(w, e).phases;
            var sp, r := ps[i], e.answers.gated.result.value;
            && (r.invalid.Some? ==>
                  |ops| == |ps| && CarriesTime(existing, ops[i], e.now) && ShowsError(sp, r.invalid.value, ops[i]))
            && (r.invalid.None? && r.progressed ==>
                  && |ops| == |ps| && CarriesTime(existing, ops[i], e.now)
                  && ops[i].(completedAt := None)
                     == ObservedPhase(sp.name, Superseded, None, ObjectCounts(|sp.objects|, 0, 0, 0), []))
  {
    hide PassStatus, LastTime, GetsThrough, PreserveOne, InvalidOne, Except, SweepOf, DriftPhases, ReadOnlyPhases;
    var ps, existing, r := w.config.phases, w.View().status.phases, e.answers.gated.result.value;
    PassPhases(w, e);
    var o := Reconciled(ps, existing, e.answers);
    if r.invalid.Some? {
      InvalidExactly(ps, o.result.value, i);
      TimesExactly(existing, ObservedFromReconcile(ps, o.result), e.now, i);
    } else if r.progressed {
      SupersededExactly(ps, o.result.value, i);
      TimesExactly(existing, ObservedFromReconcile(ps, o.result), e.now, i);
    }
  }

  /** And phase by phase, what a teardown pass without errors shows. */
  lemma {:induction false} TornDownExactly(w: World, e: PassEnv, i: nat)
    requires w.Valid() && Answered(e) && Distinct(w.config.phases) && EnvOk(w, e)
    requires Retired(w.View().meta) && !e.identitiesFail && !e.accessFails && !e.teardown.failed
    requires i < |w.config.phases|
    ensures var ps, existing, ops := w.config.phases, w.View().status.phases, PassStatus(w, e).phases;
            && |ops| == |ps|
            && ShowsTeardown(ps, e.teardown.result.value, e.read, i, ops[i])
            && CarriesTime(existing, ops[i], e.now)
  {
    hide PassStatus, WithReadOnly, ObservedFromTeardown, ListsLeft, Contract, Distinct, ReverseOrder, PreserveOne,
      LastTime;
    var ps, existing := w.config.phases, w.View().status.phases;
    TeardownPhases(w, e);
    TeardownExactly(ps, e.teardown, e.read, i);
    TimesExactly(existing, ObservedFromTeardown(ps, WithReadOnly(ps, e.teardown, e.read).result), e.now, i);
  }

  lemma {:induction false} TeardownPhases(w: World, e: PassEnv)
    requires w.Valid() && Answered(e) && Retired(w.View().meta) && !e.identitiesFail && !e.accessFails
    ensures var ps, existing := w.config.phases, w.View().status.phases;
            PassStatus(w, e).phases
            == Preserved(existing, ObservedFromTeardown(ps, WithReadOnly(ps, e.teardown, e.read).result), e.now)
  {
    hide WithReadOnly, ObservedFromTeardown, Preserved, Aggregate;
  }
}
