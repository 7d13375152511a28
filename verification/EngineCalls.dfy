/** What one pass of the engine calls and reports, call by call, told from the stored phase list and from
    boxcutter's answers alone. */
module EngineCalls {
  import opened Api
  import opened Boxcutter
  import opened RevisionEngine
  import opened EngineProofs
  import opened Sequences

  /** The stored list holds a completion time for the phase, whatever else it says of it. */
  ghost predicate HasTime(existing: seq<ObservedPhase>, name: string) {
    exists e :: e in existing && e.name == name && e.completedAt.Some?
  }

  /** After a gated walk over the first `g` phases, phase number `i` is still written: the first phase not
      walked over, and all between that one and `i`, have a stored time. */
  ghost predicate StillWrites(ps: seq<Phase>, existing: seq<ObservedPhase>, g: nat, i: nat) {
    g < |ps| && HasTime(existing, ps[g].name) && forall k :: g <= k < i && k < |ps| ==> HasTime(existing, ps[k].name)
  }

  /** What boxcutter answers for phase number `i`, written or paused as that demands. */
  ghost function AnswerAt(ps: seq<Phase>, existing: seq<ObservedPhase>, a: Answers, g: nat, i: nat): PhaseOutcome
    requires i < |ps|
  {
    a.phase(ps[i].name, !StillWrites(ps, existing, g, i))
  }

  lemma {:induction false} HasTimeIsNamed(existing: seq<ObservedPhase>, name: string)
    ensures HasTime(existing, name) <==> name in CompletedNames(existing)
  {
  }

  lemma {:induction false} DriftIsStill(ps: seq<Phase>, existing: seq<ObservedPhase>, g: nat, i: nat)
    requires g <= i < |ps|
    ensures StillWrites(ps, existing, g, i) <==> i < g + DriftLength(ps[g..], CompletedNames(existing))
  {
    hide HasTime, CompletedRun;
    var rest, completed := ps[g..], CompletedNames(existing);
    var run := CompletedRun(rest, completed);
    CompletedPrefix(rest, completed);
    forall k | g <= k < |ps| ensures HasTime(existing, ps[k].name) <==> rest[k - g].name in completed {
      HasTimeIsNamed(existing, ps[k].name);
    }
    if run < |rest| {
      assert !HasTime(existing, ps[g + run].name);
    }
    if i - g <= run && 0 < run {
      forall k | g <= k < i ensures HasTime(existing, ps[k].name) {
        assert rest[k - g].name in completed;
      }
      assert HasTime(existing, ps[g].name);
    }
  }

  // ---------- One sweep ----------

  /** The sweep over the phases from `lo` to `hi` calls one after the other up to the first call that
      fails, and keeps what they return. */
  ghost predicate Follows(
      ps: seq<Phase>, lo: nat, hi: nat, paused: bool, answer: (string, bool) -> PhaseOutcome, s: Sweep)
    requires lo <= hi <= |ps|
  {
    var n := lo + |s.calls|;
    && n <= hi
    && (forall k :: lo <= k < n ==> s.calls[k - lo] == CallOf(ps[k].name, paused, answer(ps[k].name, paused)))
    && (forall k :: lo <= k < n - 1 ==> !answer(ps[k].name, paused).failed)
    && (s.failed <==> lo < n && answer(ps[n - 1].name, paused).failed)
    && (!s.failed ==> n == hi)
    && n - 1 <= lo + |s.results| <= n
    && (!s.failed ==> lo + |s.results| == n)
    && (forall k :: lo <= k < lo + |s.results| ==> answer(ps[k].name, paused).result == Some(s.results[k - lo]))
    && (lo + |s.results| < n ==> answer(ps[n - 1].name, paused).result == None)
  }

  lemma {:induction false} SweepFollows(
      ps: seq<Phase>, lo: nat, hi: nat, paused: bool, answer: (string, bool) -> PhaseOutcome, written: set<string>)
    requires lo <= hi <= |ps| && PhaseContract(written, answer)
    ensures Follows(ps, lo, hi, paused, answer, SweepOf(ps[lo..hi], paused, answer))
    decreases hi - lo
  {
    hide Follows, PhaseContract;
    if lo == hi {
      assert ps[lo..hi] == [];
      FollowsNone(ps, lo, paused, answer);
    } else {
      SweepFollows(ps, lo + 1, hi, paused, answer, written);
      assert ps[lo..hi][0] == ps[lo] && ps[lo..hi][1..] == ps[lo + 1..hi];
      Answers(written, answer, ps[lo].name, paused);
      FollowsCons(ps, lo, hi, paused, answer, SweepOf(ps[lo + 1..hi], paused, answer));
    }
  }

  lemma {:induction false} Answers(
      written: set<string>, answer: (string, bool) -> PhaseOutcome, name: string, paused: bool)
    requires PhaseContract(written, answer)
    ensures !answer(name, paused).failed ==> answer(name, paused).result.Some?
  {
  }

  lemma {:induction false} FollowsNone(ps: seq<Phase>, lo: nat, paused: bool, answer: (string, bool) -> PhaseOutcome)
    requires lo <= |ps|
    ensures Follows(ps, lo, lo, paused, answer, Sweep([], [], false))
  {
  }

  lemma {:induction false} FollowsCons(
      ps: seq<Phase>, lo: nat, hi: nat, paused: bool, answer: (string, bool) -> PhaseOutcome, rest: Sweep)
    requires lo < hi <= |ps| && (answer(ps[lo].name, paused).failed || answer(ps[lo].name, paused).result.Some?)
    requires Follows(ps, lo + 1, hi, paused, answer, rest)
    ensures var o := answer(ps[lo].name, paused);
            var results, call := if o.result.Some? then [o.result.value] else [], CallOf(ps[lo].name, paused, o);
            Follows(ps, lo, hi, paused, answer,
                    if o.failed then Sweep(results, [call], true)
                    else Sweep(results + rest.results, [call] + rest.calls, rest.failed))
  {
    hide CallOf;
    var o := answer(ps[lo].name, paused);
    var results, call := if o.result.Some? then [o.result.value] else [], CallOf(ps[lo].name, paused, o);
    if !o.failed {
      var s := Sweep(results + rest.results, [call] + rest.calls, rest.failed);
      forall k | lo < k < lo + |s.calls|
        ensures s.calls[k - lo] == CallOf(ps[k].name, paused, answer(ps[k].name, paused))
      {
        assert s.calls[k - lo] == rest.calls[k - (lo + 1)];
      }
      forall k | lo < k < lo + |s.results| ensures answer(ps[k].name, paused).result == Some(s.results[k - lo]) {
        assert s.results[k - lo] == rest.results[k - (lo + 1)];
      }
    }
  }

  // ---------- The whole pass ----------

  /** The calls from number `g` on: each is paused or not as `StillWrites` says, and they go on until one
      fails; the engine reports an error exactly if that one was to write. */
  ghost predicate CallsFrom(ps: seq<Phase>, existing: seq<ObservedPhase>, a: Answers, g: nat, o: EngineOutcome) {
    var n := |o.calls|;
    && g <= n <= |ps|
    && (forall i :: g <= i < n ==>
          o.calls[i] == CallOf(ps[i].name, !StillWrites(ps, existing, g, i), AnswerAt(ps, existing, a, g, i)))
    && (forall i :: g <= i < n - 1 ==> !AnswerAt(ps, existing, a, g, i).failed)
    && (n < |ps| ==> g < n && AnswerAt(ps, existing, a, g, n - 1).failed)
    && (o.failed <==>
          g < n && StillWrites(ps, existing, g, n - 1) && AnswerAt(ps, existing, a, g, n - 1).failed)
  }

  /** One result for each call from number `g` on, but for a last one that failed without a result. */
  ghost predicate ResultsFrom(
      ps: seq<Phase>, existing: seq<ObservedPhase>, a: Answers, g: nat, n: nat, rs: seq<PhaseResult>)
    requires n <= |ps|
  {
    && n - 1 <= |rs| <= n
    && (forall i :: g <= i < |rs| ==> AnswerAt(ps, existing, a, g, i).result == Some(rs[i]))
    && (|rs| < n ==> g < n && AnswerAt(ps, existing, a, g, n - 1).result == None)
  }

  lemma {:induction false} JoinedCalls(
      ps: seq<Phase>, existing: seq<ObservedPhase>, a: Answers, g: nat, m: nat, drift: Sweep, readOnly: Sweep,
      o: EngineOutcome)
    requires g == |a.gated.reached| <= m <= |ps|
    requires forall i :: g <= i < |ps| ==> (StillWrites(ps, existing, g, i) <==> i < m)
    requires Follows(ps, g, m, false, a.phase, drift)
    requires if drift.failed then readOnly == Sweep([], [], false) else Follows(ps, m, |ps|, true, a.phase, readOnly)
    requires o.calls == GatedCalls(a.gated.reached) + drift.calls + readOnly.calls && o.failed == drift.failed
    ensures CallsFrom(ps, existing, a, g, o)
  {
    hide StillWrites, CallOf;
    forall i | g <= i < |o.calls|
      ensures o.calls[i] == CallOf(ps[i].name, !StillWrites(ps, existing, g, i), AnswerAt(ps, existing, a, g, i))
    {
      assert o.calls[i] == if i < g + |drift.calls| then drift.calls[i - g] else readOnly.calls[i - m];
    }
  }

  lemma {:induction false} JoinedResults(
      ps: seq<Phase>, existing: seq<ObservedPhase>, a: Answers, g: nat, m: nat, drift: Sweep, readOnly: Sweep)
    requires g == |a.gated.reached| <= m <= |ps|
    requires forall i :: g <= i < |ps| ==> (StillWrites(ps, existing, g, i) <==> i < m)
    requires Follows(ps, g, m, false, a.phase, drift)
    requires if drift.failed then readOnly == Sweep([], [], false) else Follows(ps, m, |ps|, true, a.phase, readOnly)
    ensures var n := g + |drift.calls| + |readOnly.calls|;
            n <= |ps| && ResultsFrom(ps, existing, a, g, n, a.gated.reached + drift.results + readOnly.results)
  {
    hide StillWrites, CallOf;
    var rs := a.gated.reached + drift.results + readOnly.results;
    forall i | g <= i < |rs| ensures AnswerAt(ps, existing, a, g, i).result == Some(rs[i]) {
      assert rs[i] == if i < g + |drift.results| then drift.results[i - g] else readOnly.results[i - m];
    }
  }

  /** boxcutter's gated reconcile returned an ordinary result, so the engine goes on to the other phases. */
  predicate GoesOn(a: Answers) {
    !a.gated.failed && a.gated.result.Some? && Ordinary(a.gated.result.value)
  }

  /** Every pass, call by call.  After the gated walk the phases it did not reach are called in order until
      one call fails.  Such a call writes exactly if the first phase not reached, and every one from there
      up to just before this one, has a stored completion time, whatever else is stored of it.  The pass
      fails if boxcutter's walk did, or a call that was to write; a failed read-only call only ends it.
      What it reports are the answers, in order.  A pass that does not go on calls nothing more. */
  lemma {:induction false} PassExactly(
      ps: seq<Phase>, existing: seq<ObservedPhase>, a: Answers, written: set<string>)
    requires Distinct(ps) && Contract(ps, written, a)
    ensures var o, g := Reconciled(ps, existing, a), |a.gated.reached|;
            && |o.calls| >= g && o.calls[..g] == GatedCalls(a.gated.reached)
            && (GoesOn(a) ==> CallsFrom(ps, existing, a, g, o))
            && (GoesOn(a) ==>
                  && o.result.Some? && o.result.value.GetPhases()[..g] == a.gated.reached
                  && ResultsFrom(ps, existing, a, g, |o.calls|, o.result.value.GetPhases()))
            && (!GoesOn(a) ==> |o.calls| == g && o.failed == a.gated.failed)
            && (!GoesOn(a) ==>
                  if a.gated.result.None? then o.result.None? else o.result == Some(Bare(a.gated.result.value)))
  {
    var g := |a.gated.reached|;
    var o := Reconciled(ps, existing, a);
    if GoesOn(a) {
      assert a.gated.result.value.phases == a.gated.reached;
      GoesOnExactly(ps, existing, a, written);
    } else {
      Whole(o.calls);
    }
  }

  lemma {:induction false} GoesOnExactly(
      ps: seq<Phase>, existing: seq<ObservedPhase>, a: Answers, written: set<string>)
    requires Distinct(ps) && PhaseContract(written, a.phase) && GatedWalk(ps, a.gated.reached)
    requires GoesOn(a) && a.gated.result.value.phases == a.gated.reached
    ensures var o, g := Reconciled(ps, existing, a), |a.gated.reached|;
            && |o.calls| >= g && o.calls[..g] == GatedCalls(a.gated.reached)
            && CallsFrom(ps, existing, a, g, o)
            && o.result.Some? && |o.result.value.GetPhases()| >= g && o.result.value.GetPhases()[..g] == a.gated.reached
            && ResultsFrom(ps, existing, a, g, |o.calls|, o.result.value.GetPhases())
  {
    hide Follows, StillWrites, PhaseContract, Reconciled, CallsFrom, ResultsFrom, DriftLength, SweepOf;
    var g := |a.gated.reached|;
    var d := DriftLength(ps[g..], CompletedNames(existing));
    var drift, readOnly := DriftSweep(ps, g, d, a), ReadOnlySweep(ps, g, d, a);
    ReconciledIsPassOver(ps, existing, a, g, d);
    forall i | g <= i < |ps| ensures StillWrites(ps, existing, g, i) <==> i < g + d {
      DriftIsStill(ps, existing, g, i);
    }
    SweepFollows(ps, g, g + d, false, a.phase, written);
    SweepFollows(ps, g + d, |ps|, true, a.phase, written);
    JoinedCalls(ps, existing, a, g, g + d, drift, readOnly, Reconciled(ps, existing, a));
    JoinedResults(ps, existing, a, g, g + d, drift, readOnly);
  }

  /** What boxcutter found of phase number `i` in a pass that goes on: None once a call before it failed. */
  ghost function ResultAt(ps: seq<Phase>, existing: seq<ObservedPhase>, a: Answers, i: nat): Option<PhaseResult>
    requires i < |ps|
  {
    var g := |a.gated.reached|;
    if i < g then Some(a.gated.reached[i])
    else if exists k :: g <= k < i && AnswerAt(ps, existing, a, g, k).failed then None
    else AnswerAt(ps, existing, a, g, i).result
  }

  /** A pass that goes on reports on phase number `i` exactly what boxcutter found of it. */
  lemma {:induction false} ReportIsResult(
      ps: seq<Phase>, existing: seq<ObservedPhase>, a: Answers, written: set<string>, i: nat)
    requires Distinct(ps) && Contract(ps, written, a) && GoesOn(a) && i < |ps|
    ensures var o := Reconciled(ps, existing, a);
            && o.result.Some?
            && var rs := o.result.value.GetPhases();
               (if i < |rs| then Some(rs[i]) else None) == ResultAt(ps, existing, a, i)
  {
    hide Reconciled, StillWrites, Distinct, Contract;
    PassExactly(ps, existing, a, written);
    var o, g := Reconciled(ps, existing, a), |a.gated.reached|;
    var n, rs := |o.calls|, o.result.value.GetPhases();
    if i < g {
      assert rs[i] == rs[..g][i];
    } else if i >= n {
      assert AnswerAt(ps, existing, a, g, n - 1).failed;
    }
  }

  /** For any phase list, and whatever boxcutter's gated walk returned: a pass that goes on without an error
      is complete exactly if that walk was and every phase it still had to write was found complete. */
  lemma {:induction false} CompleteIsAllWritten(
      ps: seq<Phase>, existing: seq<ObservedPhase>, a: Answers, written: set<string>)
    requires PhaseContract(written, a.phase) && GoesOn(a) && !Reconciled(ps, existing, a).failed
    ensures var o, g := Reconciled(ps, existing, a), |a.gated.reached|;
            && o.result.Some? && g <= |o.calls|
            && (o.result.value.IsComplete()
                <==> a.gated.result.value.complete && forall c :: c in o.calls[g..] && !c.paused ==> c.complete)
  {
    hide SweepOf, Except, DriftPhases, ReadOnlyPhases, PhaseContract;
    var rest := Except(ps, ResultNames(a.gated.result.value.phases));
    var driftPhases, readOnlyPhases :=
      DriftPhases(rest, CompletedNames(existing)), ReadOnlyPhases(rest, CompletedNames(existing));
    var drift, readOnly := SweepOf(driftPhases, false, a.phase), SweepOf(readOnlyPhases, true, a.phase);
    SweepShape(driftPhases, false, a.phase, written);
    SweepShape(readOnlyPhases, true, a.phase, written);
    var o, g := Reconciled(ps, existing, a), |a.gated.reached|;
    assert o.calls[g..] == drift.calls + readOnly.calls;
    WrittenComplete(drift.calls, readOnly.calls);
    AllAlike(drift.results, drift.calls);
  }

  lemma {:induction false} WrittenComplete(drift: seq<Call>, readOnly: seq<Call>)
    requires forall k :: 0 <= k < |drift| ==> !drift[k].paused
    requires forall k :: 0 <= k < |readOnly| ==> readOnly[k].paused
    ensures (forall c :: c in drift + readOnly && !c.paused ==> c.complete)
            <==> forall k :: 0 <= k < |drift| ==> drift[k].complete
  {
    assert forall k :: 0 <= k < |drift| ==> drift[k] in drift + readOnly;
  }

  lemma {:induction false} AllAlike(rs: seq<PhaseResult>, calls: seq<Call>)
    requires |rs| == |calls| && forall k :: 0 <= k < |rs| ==> rs[k].complete == calls[k].complete
    ensures (forall r :: r in rs ==> r.complete) <==> forall k :: 0 <= k < |calls| ==> calls[k].complete
  {
    assert forall k :: 0 <= k < |rs| ==> rs[k] in rs;
  }
}
