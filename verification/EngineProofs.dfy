/** What one reconcile or one teardown of a revision does, whatever boxcutter answers within its
    contract. */
module EngineProofs {
  import opened Api
  import opened Boxcutter
  import opened RevisionEngine
  import opened Sequences

  /** A sweep calls a prefix of the phases in order, and reports on the calls it made; only the last
      call can lack a report, when it failed. */
  lemma {:induction false} SweepShape(
      ps: seq<Phase>, paused: bool, answer: (string, bool) -> PhaseOutcome, written: set<string>)
    requires PhaseContract(written, answer)
    ensures var s := SweepOf(ps, paused, answer);
            && |s.results| <= |s.calls| <= |ps|
            && (!s.failed ==> |s.results| == |ps|)
            && (forall k :: 0 <= k < |s.calls| ==>
                  && s.calls[k].phase == ps[k].name
                  && s.calls[k].paused == paused
                  && (paused && s.calls[k].complete ==> ps[k].name in written))
            && (forall k :: 0 <= k < |s.results| ==>
                  s.results[k].name == ps[k].name && s.results[k].complete == s.calls[k].complete)
  {
    if ps == [] {
    } else {
      var o := answer(ps[0].name, paused);
      SweepShape(ps[1..], paused, answer, written);
    }
  }

  /** A sweep over the phases from `lo` to `hi`, told by their positions in `ps`. */
  ghost predicate SweepAt(ps: seq<Phase>, lo: nat, hi: nat, paused: bool, written: set<string>, s: Sweep)
    requires lo <= hi <= |ps|
  {
    && |s.results| <= |s.calls| <= hi - lo
    && (!s.failed ==> |s.results| == hi - lo)
    && (forall k :: 0 <= k < |s.calls| ==> s.calls[k].phase == ps[lo + k].name && s.calls[k].paused == paused)
    && (forall k :: 0 <= k < |s.calls| && paused && s.calls[k].complete ==> s.calls[k].phase in written)
    && (forall k :: 0 <= k < |s.results| ==>
          s.results[k].name == s.calls[k].phase && s.results[k].complete == s.calls[k].complete)
  }

  lemma {:induction false} SliceSweep(
      ps: seq<Phase>, lo: nat, hi: nat, paused: bool, answer: (string, bool) -> PhaseOutcome, written: set<string>)
    requires lo <= hi <= |ps| && PhaseContract(written, answer)
    ensures SweepAt(ps, lo, hi, paused, written, SweepOf(ps[lo..hi], paused, answer))
  {
    SweepShape(ps[lo..hi], paused, answer, written);
    assert forall k :: 0 <= k < hi - lo ==> ps[lo..hi][k] == ps[lo + k];
  }

  /** The phases a pass did not find complete itself but may still build on: those that lie at or
      before a phase with a stored completion time. */
  ghost predicate StoredAtOrAfter(ps: seq<Phase>, existing: seq<ObservedPhase>, j: int)
    requires 0 <= j
  {
    exists i :: j <= i < |ps| && ps[i].name in CompletedNames(existing)
  }

  ghost predicate CallsInOrder(ps: seq<Phase>, existing: seq<ObservedPhase>, calls: seq<Call>) {
    && |calls| <= |ps|
    && (forall k :: 0 <= k < |calls| ==> calls[k].phase == ps[k].name)
    && (forall j, k :: 0 <= j < k < |calls| && !calls[k].paused ==>
          calls[j].complete || StoredAtOrAfter(ps, existing, j))
  }

  ghost predicate ReportsCalls(ps: seq<Phase>, rs: seq<PhaseResult>, calls: seq<Call>) {
    && |rs| <= |calls| <= |ps|
    && (forall k :: 0 <= k < |rs| ==> rs[k].name == ps[k].name && rs[k].complete == calls[k].complete)
  }

  /** Nothing that the pass called failed, and the revision was neither invalid nor superseded. */
  ghost predicate ErrorFree(ps: seq<Phase>, existing: seq<ObservedPhase>, a: Answers) {
    && !a.gated.failed && a.gated.result.Some? && Ordinary(a.gated.result.value)
    && var rest := Except(ps, ResultNames(a.gated.result.value.phases));
       && !SweepOf(DriftPhases(rest, CompletedNames(existing)), false, a.phase).failed
       && !SweepOf(ReadOnlyPhases(rest, CompletedNames(existing)), true, a.phase).failed
  }

  lemma {:induction false} RestIsSuffix(ps: seq<Phase>, a: Answers)
    requires Distinct(ps) && GatedWalk(ps, a.gated.reached)
    requires a.gated.result.Some? && a.gated.result.value.phases == a.gated.reached
    ensures Except(ps, ResultNames(a.gated.result.value.phases)) == ps[|a.gated.reached|..]
  {
    var g := |a.gated.reached|;
    var rs := a.gated.result.value.phases;
    assert ResultNames(rs) == NameSet(ps[..g]) by {
      forall name | name in ResultNames(rs) ensures name in NameSet(ps[..g]) {
        var k :| 0 <= k < |rs| && rs[k].name == name;
        assert ps[..g][k] in ps[..g];
      }
      forall name | name in NameSet(ps[..g]) ensures name in ResultNames(rs) {
        var k :| 0 <= k < g && ps[..g][k].name == name;
        assert rs[k] in rs;
      }
    }
    ExceptPrefix(ps, g);
  }

  ghost function DriftSweep(ps: seq<Phase>, g: nat, d: nat, a: Answers): Sweep
    requires g + d <= |ps|
  {
    SweepOf(ps[g..g + d], false, a.phase)
  }

  ghost function ReadOnlySweep(ps: seq<Phase>, g: nat, d: nat, a: Answers): Sweep
    requires g + d <= |ps|
  {
    if DriftSweep(ps, g, d, a).failed then Sweep([], [], false) else SweepOf(ps[g + d..|ps|], true, a.phase)
  }

  /** The pass over a revision whose phases split at `g` and `g + d`. */
  ghost function PassOver(ps: seq<Phase>, g: nat, d: nat, a: Answers): EngineOutcome
    requires g + d <= |ps| && a.gated.result.Some?
  {
    var drift, readOnly := DriftSweep(ps, g, d, a), ReadOnlySweep(ps, g, d, a);
    EngineOutcome(
      Some(Wrapped(a.gated.result.value, drift.results, readOnly.results)),
      drift.failed,
      GatedCalls(a.gated.reached) + drift.calls + readOnly.calls)
  }

  lemma {:induction false} SuffixSplit(ps: seq<Phase>, g: nat, completed: set<string>)
    requires g <= |ps| && Distinct(ps)
    ensures var d := DriftLength(ps[g..], completed);
            && DriftPhases(ps[g..], completed) == ps[g..g + d]
            && ReadOnlyPhases(ps[g..], completed) == ps[g + d..|ps|]
  {
    SplitIsACut(ps[g..], completed);
    var d := DriftLength(ps[g..], completed);
    assert ps[g..][..d] == ps[g..g + d] && ps[g..][d..] == ps[g + d..|ps|];
  }

  lemma {:induction false} ReconciledIsPassOver(
      ps: seq<Phase>, existing: seq<ObservedPhase>, a: Answers, g: nat, d: nat)
    requires Distinct(ps) && GatedWalk(ps, a.gated.reached) && g == |a.gated.reached|
    requires d == DriftLength(ps[g..], CompletedNames(existing))
    requires !a.gated.failed && a.gated.result.Some? && Ordinary(a.gated.result.value)
    requires a.gated.result.value.phases == a.gated.reached
    ensures Reconciled(ps, existing, a) == PassOver(ps, g, d, a)
    ensures ErrorFree(ps, existing, a) ==> !DriftSweep(ps, g, d, a).failed && !ReadOnlySweep(ps, g, d, a).failed
  {
    hide SweepOf, Except, DriftLength;
    RestIsSuffix(ps, a);
    SuffixSplit(ps, g, CompletedNames(existing));
  }

  ghost predicate Orderly(ps: seq<Phase>, existing: seq<ObservedPhase>, written: set<string>, o: EngineOutcome) {
    && CallsInOrder(ps, existing, o.calls)
    && (forall c :: c in o.calls && c.paused && c.complete ==> c.phase in written)
    && (o.result.Some? ==> ReportsCalls(ps, o.result.value.GetPhases(), o.calls))
  }

  lemma {:induction false} PassOverIsOrderly(
      ps: seq<Phase>, existing: seq<ObservedPhase>, g: nat, d: nat, a: Answers, written: set<string>)
    requires GatedWalk(ps, a.gated.reached) && PhaseContract(written, a.phase)
    requires a.gated.result.Some? && a.gated.result.value.phases == a.gated.reached
    requires g == |a.gated.reached| && d == DriftLength(ps[g..], CompletedNames(existing))
    ensures Orderly(ps, existing, written, PassOver(ps, g, d, a))
  {
    assert g + d <= |ps|;
    BothSweeps(ps, g, d, a, written);
    hide GatedWalk, CallsInOrder, ReportsCalls, PhaseContract, DriftSweep, ReadOnlySweep, DriftLength, TwoSweeps;
    var drift, readOnly := DriftSweep(ps, g, d, a), ReadOnlySweep(ps, g, d, a);
    InOrder(ps, existing, g, d, a.gated.reached, drift, readOnly, written);
    Reports(ps, g, d, a.gated.reached, drift, readOnly, written);
    PausedWritten(ps, g, d, a.gated.reached, drift, readOnly, written);
  }

  lemma {:induction false} AllReported(ps: seq<Phase>, g: nat, d: nat, a: Answers, written: set<string>)
    requires g + d <= |ps| && PhaseContract(written, a.phase)
    requires a.gated.result.Some? && a.gated.result.value.phases == a.gated.reached && g == |a.gated.reached|
    requires !DriftSweep(ps, g, d, a).failed && !ReadOnlySweep(ps, g, d, a).failed
    ensures |PassOver(ps, g, d, a).result.value.GetPhases()| == |ps|
  {
    BothSweeps(ps, g, d, a, written);
    hide PhaseContract, DriftSweep, ReadOnlySweep;
  }

  lemma {:induction false} BothSweeps(ps: seq<Phase>, g: nat, d: nat, a: Answers, written: set<string>)
    requires g + d <= |ps| && PhaseContract(written, a.phase)
    ensures TwoSweeps(ps, g, d, written, DriftSweep(ps, g, d, a), ReadOnlySweep(ps, g, d, a))
  {
    hide SweepOf, PhaseContract;
    SliceSweep(ps, g, g + d, false, a.phase, written);
    SliceSweep(ps, g + d, |ps|, true, a.phase, written);
  }

  /** Whatever boxcutter answers, one pass calls the phases in spec order, each at most once; it
      writes a phase only when every earlier one was found complete just before, or lies at or
      before one with a stored completion time; and it reports on the first phases of the spec, in
      order.  An error-free pass reports on all of them. */
  lemma {:induction false} PassShape(ps: seq<Phase>, existing: seq<ObservedPhase>, a: Answers, written: set<string>)
    requires Distinct(ps) && Contract(ps, written, a)
    ensures var o := Reconciled(ps, existing, a);
            && Orderly(ps, existing, written, o)
            && (ErrorFree(ps, existing, a) ==> o.result.Some? && !o.failed && |o.result.value.GetPhases()| == |ps|)
  {
    var g := |a.gated.reached|;
    if !a.gated.failed && Ordinary(a.gated.result.value) {
      var d := DriftLength(ps[g..], CompletedNames(existing));
      ReconciledIsPassOver(ps, existing, a, g, d);
      PassOverIsOrderly(ps, existing, g, d, a, written);
      if ErrorFree(ps, existing, a) {
        AllReported(ps, g, d, a, written);
      }
    }
  }

  /** The drift sweep over the phases from `g` to `g + d`, and the read-only sweep over the later
      ones, which is left out when the first one failed. */
  ghost predicate TwoSweeps(ps: seq<Phase>, g: nat, d: nat, written: set<string>, drift: Sweep, readOnly: Sweep)
    requires g + d <= |ps|
  {
    && SweepAt(ps, g, g + d, false, written, drift)
    && SweepAt(ps, g + d, |ps|, true, written, if drift.failed then Sweep([], [], true) else readOnly)
    && (drift.failed ==> readOnly == Sweep([], [], false))
  }

  lemma {:induction false} PausedWritten(
      ps: seq<Phase>, g: nat, d: nat, reached: seq<PhaseResult>, drift: Sweep, readOnly: Sweep, written: set<string>)
    requires g + d <= |ps| && TwoSweeps(ps, g, d, written, drift, readOnly)
    ensures forall c :: c in GatedCalls(reached) + drift.calls + readOnly.calls && c.paused && c.complete ==> c.phase in written
  {
    assert forall k :: 0 <= k < |drift.calls| ==> !drift.calls[k].paused;
    assert forall k :: 0 <= k < |readOnly.calls| && readOnly.calls[k].complete ==> readOnly.calls[k].phase in written;
  }

  lemma {:induction false} InOrder(ps: seq<Phase>, existing: seq<ObservedPhase>, g: nat, d: nat,
                reached: seq<PhaseResult>, drift: Sweep, readOnly: Sweep, written: set<string>)
    requires GatedWalk(ps, reached) && |reached| == g
    requires d == DriftLength(ps[g..], CompletedNames(existing))
    requires TwoSweeps(ps, g, d, written, drift, readOnly)
    ensures CallsInOrder(ps, existing, GatedCalls(reached) + drift.calls + readOnly.calls)
  {
    hide DriftLength, CompletedRun, CompletedNames;
    var gated := GatedCalls(reached);
    var calls := gated + drift.calls + readOnly.calls;
    forall j, k | 0 <= j < k < |calls| && !calls[k].paused
      ensures calls[j].complete || StoredAtOrAfter(ps, existing, j)
    {
      if j < g - 1 {
        assert calls[j] == gated[j];
      } else {
        assert k < g + |drift.calls|;
        DriftIsStored(ps, existing, g, j, k);
      }
    }
    forall k | 0 <= k < |calls| ensures calls[k].phase == ps[k].name {
      assert calls[k] == if k < g then gated[k]
                         else if k < g + |drift.calls| then drift.calls[k - g]
                         else readOnly.calls[k - g - d];
    }
  }

  lemma {:induction false} DriftIsStored(ps: seq<Phase>, existing: seq<ObservedPhase>, g: nat, j: nat, k: nat)
    requires g <= |ps| && g <= k < g + DriftLength(ps[g..], CompletedNames(existing)) && g - 1 <= j < k
    ensures StoredAtOrAfter(ps, existing, j)
  {
    CompletedPrefix(ps[g..], CompletedNames(existing));
    var i := if j < g then g else j;
    assert ps[g..][i - g] == ps[i];
  }

  lemma {:induction false} Reports(
      ps: seq<Phase>, g: nat, d: nat, reached: seq<PhaseResult>, drift: Sweep, readOnly: Sweep, written: set<string>)
    requires GatedWalk(ps, reached) && |reached| == g <= g + d <= |ps|
    requires TwoSweeps(ps, g, d, written, drift, readOnly)
    ensures ReportsCalls(ps, reached + drift.results + readOnly.results,
                         GatedCalls(reached) + drift.calls + readOnly.calls)
  {
    var rs := reached + drift.results + readOnly.results;
    var calls := GatedCalls(reached) + drift.calls + readOnly.calls;
    forall k | 0 <= k < |rs| ensures rs[k].name == ps[k].name && rs[k].complete == calls[k].complete {
      if k < g {
        assert rs[k] == reached[k] && calls[k] == GatedCalls(reached)[k];
      } else if k < g + |drift.results| {
        assert rs[k] == drift.results[k - g] && calls[k] == drift.calls[k - g];
      } else {
        assert rs[k] == readOnly.results[k - g - d] && calls[k] == readOnly.calls[k - g - d];
      }
    }
  }

  /** The completed run is the longest prefix of completed phases. */
  lemma {:induction false} CompletedPrefix(rest: seq<Phase>, completed: set<string>)
    ensures forall i :: 0 <= i < CompletedRun(rest, completed) ==> rest[i].name in completed
    ensures CompletedRun(rest, completed) < |rest| ==> rest[CompletedRun(rest, completed)].name !in completed
  {
    if rest == [] {
    } else {
      CompletedPrefix(rest[1..], completed);
    }
  }
}
