/** What the reported status of a ClusterObjectSet means. */
module CosStatusProofs {
  import opened Api
  import opened Boxcutter
  import opened RevisionEngine
  import opened EngineProofs
  import opened CosStatus
  import opened Sequences

  // ---------- Lookups by name ----------

  lemma {:induction false} LookupConcat<T>(a: seq<T>, b: seq<T>, name: T -> string, n: string)
    ensures Lookup(a + b, name, n) == if Lookup(b, name, n).Some? then Lookup(b, name, n) else Lookup(a, name, n)
  {
    if b == [] {
      assert a + b == a;
    } else {
      LookupConcat(a, b[..|b| - 1], name, n);
      assert (a + b)[..|a + b| - 1] == a + b[..|b| - 1];
    }
  }

  lemma {:induction false} LookupAbsent<T>(rs: seq<T>, name: T -> string, n: string)
    requires forall k :: 0 <= k < |rs| ==> name(rs[k]) != n
    ensures Lookup(rs, name, n) == None
  {
    if rs == [] {
    } else {
      LookupAbsent(rs[..|rs| - 1], name, n);
    }
  }

  lemma {:induction false} LookupOnly<T>(rs: seq<T>, name: T -> string, k: nat)
    requires k < |rs|
    requires forall j :: 0 <= j < |rs| && name(rs[j]) == name(rs[k]) ==> j == k
    ensures Lookup(rs, name, name(rs[k])) == Some(rs[k])
  {
    if k < |rs| - 1 {
      LookupOnly(rs[..|rs| - 1], name, k);
    }
  }

  lemma {:induction false} LookupFinds<T>(rs: seq<T>, name: T -> string, n: string)
    ensures Lookup(rs, name, n).Some? ==> name(Lookup(rs, name, n).value) == n
  {
    if rs == [] {
    } else {
      LookupFinds(rs[..|rs| - 1], name, n);
    }
  }

  // ---------- Every status is admissible ----------

  /** The phase list is empty or lists the phases of the spec in order. */
  ghost predicate Listed(spec: seq<Phase>, ops: seq<ObservedPhase>) {
    ops != [] ==> |ops| == |spec| && forall i :: 0 <= i < |ops| ==> ops[i].name == spec[i].name
  }

  lemma {:induction false} ReconcileLists(spec: seq<Phase>, result: Option<EngineResult>)
    ensures Listed(spec, ObservedFromReconcile(spec, result))
    ensures result.Some? ==> |ObservedFromReconcile(spec, result)| == |spec|
  {
    if result.Some? {
      forall i | 0 <= i < |spec| ensures ObservedFromReconcile(spec, result)[i].name == spec[i].name {
        LookupFinds(result.value.GetPhases(), RECONCILE_OBSERVER.name, spec[i].name);
      }
    }
  }

  lemma {:induction false} TeardownLists(spec: seq<Phase>, result: Option<TeardownResult>)
    ensures Listed(spec, ObservedFromTeardown(spec, result))
  {
    if result.Some? {
      forall i | 0 <= i < |spec| ensures ObservedFromTeardown(spec, result)[i].name == spec[i].name {
        LookupFinds(result.value.phases, TeardownObserver(result.value.active).name, spec[i].name);
      }
    }
  }

  lemma {:induction false} StoredTimeAt(existing: seq<ObservedPhase>, i: nat)
    requires i < |existing| && existing[i].completedAt.Some?
    requires forall j :: 0 <= j < |existing| && existing[j].name == existing[i].name ==> j == i
    ensures StoredTime(existing, existing[i].name) == existing[i].completedAt
  {
    if i < |existing| - 1 {
      StoredTimeAt(existing[..|existing| - 1], i);
    }
  }

  /** An update whose phase list, if it has one, is empty or a carried-over list of the spec's phases. */
  ghost predicate FoldedOver(s: Status, spec: seq<Phase>, u: Update) {
    u.phases.Some? && u.phases.value != [] ==>
      exists observed: seq<ObservedPhase>, now: Time ::
        Listed(spec, observed) && u.phases.value == Preserved(s.phases, observed, now)
  }

  lemma {:induction false} CarriedOver(existing: seq<ObservedPhase>, current: seq<ObservedPhase>, now: Time)
    requires KeyedByName(existing)
    ensures PhaseTimesKept(existing, Preserved(existing, current, now))
  {
    var next := Preserved(existing, current, now);
    forall i, j | 0 <= i < |existing| && 0 <= j < |next|
                  && existing[i].name == next[j].name && existing[i].completedAt.Some?
      ensures next[j].completedAt == existing[i].completedAt
    {
      StoredTimeAt(existing, i);
    }
  }

  lemma {:induction false} ListedIsKeyed(spec: seq<Phase>, ops: seq<ObservedPhase>)
    requires Distinct(spec) && Listed(spec, ops)
    ensures KeyedByName(ops)
  {
  }

  /** For any reconcile or teardown outcome, the status written in place of an admissible one, with a
      hash pinned now or before, meets every rule of the CRD, and again lists the spec's phases. */
  lemma {:induction false} UpdateIsAdmissible(s: Status, hash: string, generation: int, spec: seq<Phase>, u: Update)
    requires Distinct(spec) && AdmissibleStatus(s) && Listed(spec, s.phases)
    requires s.hash != "" ==> hash == s.hash
    requires FoldedOver(s, spec, u)
    ensures var next := Applied(s.(hash := hash), generation, u);
            AdmissibleStatus(next) && AdmissibleChange(s, next) && Listed(spec, next.phases)
  {
    var next := Applied(s.(hash := hash), generation, u);
    assert Listed(spec, next.phases) && PhaseTimesKept(s.phases, next.phases) by {
      if u.phases.Some? && u.phases.value != [] {
        var observed: seq<ObservedPhase>, now: Time :|
          Listed(spec, observed) && u.phases.value == Preserved(s.phases, observed, now);
        CarriedOver(s.phases, observed, now);
      }
    }
    ListedIsKeyed(spec, next.phases);
    hide KeyedByName, Listed, PhaseTimesKept;
  }

  lemma {:induction false} ReconcileUpdateFolds(
      s: Status, spec: seq<Phase>, result: Option<EngineResult>, failure: Failure, now: Time)
    requires failure.NoFailure? ==> result.Some?
    ensures FoldedOver(s, spec, ReconcileUpdate(s, spec, result, failure, now))
  {
    ReconcileLists(spec, result);
  }

  lemma {:induction false} TeardownUpdateFolds(
      s: Status, spec: seq<Phase>, result: Option<TeardownResult>, failure: Failure, now: Time)
    ensures FoldedOver(s, spec, TeardownUpdate(s, spec, result, failure, now))
  {
    TeardownLists(spec, result);
  }

  // ---------- What Available means ----------

  lemma {:induction false} ReportedAt(ps: seq<Phase>, rs: seq<PhaseResult>, i: nat)
    requires Distinct(ps) && i < |ps| && |rs| <= |ps|
    requires forall k :: 0 <= k < |rs| ==> rs[k].name == ps[k].name
    ensures Lookup(rs, RECONCILE_OBSERVER.name, ps[i].name) == if i < |rs| then Some(rs[i]) else None
  {
    if i < |rs| {
      LookupOnly(rs, RECONCILE_OBSERVER.name, i);
    } else {
      LookupAbsent(rs, RECONCILE_OBSERVER.name, ps[i].name);
    }
  }

  /** How one ordinary pass shows a phase: Available exactly when it was reported complete, and
      unevaluated exactly when it was not reported on. */
  lemma {:induction false} ShownAs(ps: seq<Phase>, r: EngineResult, i: nat)
    requires Distinct(ps) && i < |ps| && Ordinary(r.gated)
    requires var rs := r.GetPhases();
             |rs| <= |ps| && forall k :: 0 <= k < |rs| ==> rs[k].name == ps[k].name
    ensures var op, rs, n := ObservedFromReconcile(ps, Some(r))[i], r.GetPhases(), |ps[i].objects|;
            && op.name == ps[i].name
            && (op.status == Available <==> i < |rs| && rs[i].complete)
            && (op.status == Unevaluated <==> i >= |rs|)
            && (op.status == Available ==> op.counts == ObjectCounts(n, n, n, n) && op.details == [])
  {
    ReportedAt(ps, r.GetPhases(), i);
  }

  function ObjectTotal(ps: seq<Phase>): nat {
    if ps == [] then 0 else ObjectTotal(ps[..|ps| - 1]) + |ps[|ps| - 1].objects|
  }

  ghost predicate FullyAvailable(ps: seq<Phase>, ops: seq<ObservedPhase>) {
    && |ops| == |ps|
    && forall i :: 0 <= i < |ops| ==>
         var n := |ps[i].objects|;
         && ops[i].name == ps[i].name
         && ops[i].status == Available
         && ops[i].completedAt.Some?
         && ops[i].counts == ObjectCounts(n, n, n, n)
  }

  lemma {:induction false} FullSums(ps: seq<Phase>, ops: seq<ObservedPhase>)
    requires FullyAvailable(ps, ops)
    ensures Sum(Totals(ops)) == Sum(Presents(ops)) == Sum(Synceds(ops)) == Sum(Availables(ops)) == ObjectTotal(ps)
  {
    if ops == [] {
    } else {
      var k := |ops| - 1;
      FullSums(ps[..k], ops[..k]);
      SumStep(ops, k);
      Whole(ops);
    }
  }

  predicate AllAvailable(ops: seq<ObservedPhase>) {
    forall i :: 0 <= i < |ops| ==> ops[i].status == Available
  }

  /** Each phase of the spec is shown, and as Available exactly when it was reported complete. */
  ghost predicate Shows(ps: seq<Phase>, rs: seq<PhaseResult>, ops: seq<ObservedPhase>) {
    && |rs| <= |ops| == |ps|
    && forall i :: 0 <= i < |ops| ==>
         var n := |ps[i].objects|;
         && ops[i].name == ps[i].name
         && (ops[i].status == Available <==> i < |rs| && rs[i].complete)
         && (ops[i].status == Unevaluated <==> i >= |rs|)
         && (ops[i].status == Available ==> ops[i].counts == ObjectCounts(n, n, n, n))
  }

  lemma {:induction false} OrdinaryShows(ps: seq<Phase>, r: EngineResult, calls: seq<Call>)
    requires Distinct(ps) && Ordinary(r.gated) && ReportsCalls(ps, r.GetPhases(), calls)
    ensures Shows(ps, r.GetPhases(), ObservedFromReconcile(ps, Some(r)))
  {
    var ops, rs := ObservedFromReconcile(ps, Some(r)), r.GetPhases();
    forall i | 0 <= i < |ps|
      ensures var n := |ps[i].objects|;
              && ops[i].name == ps[i].name
              && (ops[i].status == Available <==> i < |rs| && rs[i].complete)
              && (ops[i].status == Unevaluated <==> i >= |rs|)
              && (ops[i].status == Available ==> ops[i].counts == ObjectCounts(n, n, n, n))
    {
      ShownAs(ps, r, i);
    }
  }

  lemma {:induction false} PreservedShows(
      ps: seq<Phase>, rs: seq<PhaseResult>, existing: seq<ObservedPhase>, ops: seq<ObservedPhase>, now: Time)
    requires Shows(ps, rs, ops)
    ensures Shows(ps, rs, Preserved(existing, ops, now))
    ensures AllAvailable(ops) ==> FullyAvailable(ps, Preserved(existing, ops, now))
  {
  }

  /** An ordinary result is complete exactly when it reports every phase complete. */
  lemma {:induction false} CompleteMeansAll(ps: seq<Phase>, r: EngineResult, g: GatedOutcome, calls: seq<Call>)
    requires GatedContract(ps, g) && !g.failed && Ordinary(g.result.value) && r.gated == g.result.value
    requires ReportsCalls(ps, r.GetPhases(), calls)
    ensures r.IsComplete() <==> |r.GetPhases()| == |ps| && forall i :: 0 <= i < |ps| ==> r.GetPhases()[i].complete
  {
    var rs := r.GetPhases();
    assert rs[..|g.reached|] == g.reached;
    if r.gated.complete {
      assert r.Wrapped? ==> r.drift == [];
      assert rs == g.reached;
    } else {
      assert !rs[|g.reached| - 1].complete;
    }
  }

  /** A pass that did not end in an error sets Available to True exactly when it shows every phase as
      Available; and then every phase has a completion time and all four counts are the number of
      objects in the spec. */
  lemma {:induction false} AvailableIsExact(ps: seq<Phase>, s: Status, a: Answers, written: set<string>, now: Time)
    requires ps != [] && Distinct(ps) && Contract(ps, written, a)
    requires !Reconciled(ps, s.phases, a).failed
    ensures Reconciled(ps, s.phases, a).result.Some?
    ensures var u := ReconcileUpdate(s, ps, Reconciled(ps, s.phases, a).result, NoFailure, now);
            && u.phases.Some?
            && (u.status == CondTrue <==> AllAvailable(u.phases.value))
            && (u.status == CondTrue ==> u.completedAt.Some? && FullyAvailable(ps, u.phases.value))
  {
    PassShape(ps, s.phases, a, written);
    var o := Reconciled(ps, s.phases, a);
    assert a.gated.result.Some? && o.result.Some? && o.result.value.gated == a.gated.result.value;
    var r := o.result.value;
    if Ordinary(r.gated) {
      OrdinaryAvailable(ps, s, r, a.gated, o.calls, now);
    } else {
      NotOrdinary(ps, s, r, now);
    }
  }

  lemma {:induction false} NotOrdinary(ps: seq<Phase>, s: Status, r: EngineResult, now: Time)
    requires ps != [] && !Ordinary(r.gated)
    ensures var u := ReconcileUpdate(s, ps, Some(r), NoFailure, now);
            u.status == CondFalse && u.phases.Some? && !AllAvailable(u.phases.value)
  {
    var u := ReconcileUpdate(s, ps, Some(r), NoFailure, now);
    assert |u.phases.value| == |ps| && u.phases.value[0].status != Available;
  }

  lemma {:induction false} OrdinaryAvailable(
      ps: seq<Phase>, s: Status, r: EngineResult, g: GatedOutcome, calls: seq<Call>, now: Time)
    requires Distinct(ps) && GatedContract(ps, g) && !g.failed && Ordinary(g.result.value) && r.gated == g.result.value
    requires ReportsCalls(ps, r.GetPhases(), calls)
    ensures var u := ReconcileUpdate(s, ps, Some(r), NoFailure, now);
            && u.phases.Some?
            && (u.status == CondTrue <==> AllAvailable(u.phases.value))
            && (u.status == CondTrue ==> u.completedAt.Some? && FullyAvailable(ps, u.phases.value))
  {
    var ops := ObservedFromReconcile(ps, Some(r));
    OrdinaryShows(ps, r, calls);
    PreservedShows(ps, r.GetPhases(), s.phases, ops, now);
    CompleteMeansAll(ps, r, g, calls);
    ShowsAll(ps, r.GetPhases(), ops);
    ShowsAll(ps, r.GetPhases(), Preserved(s.phases, ops, now));
  }

  lemma {:induction false} ShowsAll(ps: seq<Phase>, rs: seq<PhaseResult>, ops: seq<ObservedPhase>)
    requires Shows(ps, rs, ops)
    ensures AllAvailable(ops) <==> |rs| == |ps| && forall i :: 0 <= i < |ps| ==> rs[i].complete
  {
    if |rs| < |ps| {
      assert ops[|rs|].status != Available;
    }
  }

  /** An error-free pass shows every phase of the spec once, in spec order, and none of them as
      unevaluated. */
  lemma {:induction false} ErrorFreeShowsAll(
      ps: seq<Phase>, existing: seq<ObservedPhase>, a: Answers, written: set<string>)
    requires Distinct(ps) && Contract(ps, written, a) && ErrorFree(ps, existing, a)
    ensures var ops := ObservedFromReconcile(ps, Reconciled(ps, existing, a).result);
            && ObservedNames(ops) == Names(ps)
            && forall i :: 0 <= i < |ops| ==> ops[i].status != Unevaluated
  {
    ErrorFreeIsOrdinary(ps, existing, a, written);
    hide Contract, Reconciled, ErrorFree, Ordinary, ReportsCalls;
    AllShown(ps, Reconciled(ps, existing, a).result.value, Reconciled(ps, existing, a).calls);
  }

  lemma {:induction false} ErrorFreeIsOrdinary(
      ps: seq<Phase>, existing: seq<ObservedPhase>, a: Answers, written: set<string>)
    requires Distinct(ps) && Contract(ps, written, a) && ErrorFree(ps, existing, a)
    ensures var o := Reconciled(ps, existing, a);
            && o.result.Some? && |o.result.value.GetPhases()| == |ps|
            && Ordinary(o.result.value.gated) && ReportsCalls(ps, o.result.value.GetPhases(), o.calls)
  {
    PassShape(ps, existing, a, written);
    var o := Reconciled(ps, existing, a);
    assert a.gated.result.Some? && o.result.Some? && o.result.value.gated == a.gated.result.value;
  }

  lemma {:induction false} AllShown(ps: seq<Phase>, r: EngineResult, calls: seq<Call>)
    requires Distinct(ps) && Ordinary(r.gated) && ReportsCalls(ps, r.GetPhases(), calls) && |r.GetPhases()| == |ps|
    ensures var ops := ObservedFromReconcile(ps, Some(r));
            && ObservedNames(ops) == Names(ps)
            && forall i :: 0 <= i < |ops| ==> ops[i].status != Unevaluated
  {
    OrdinaryShows(ps, r, calls);
  }

  predicate TotalsExact(spec: seq<Phase>, ops: seq<ObservedPhase>) {
    forall i :: 0 <= i < |ops| && i < |spec| ==> ops[i].counts.total == |spec[i].objects|
  }

  /** Each phase's total is its number of objects, except that a revision which failed its validation
      shows zeros: so exactly if it did not, or has no objects at all. */
  lemma {:induction false} TotalsExactIff(spec: seq<Phase>, r: EngineResult)
    ensures TotalsExact(spec, ObservedFromReconcile(spec, Some(r)))
            <==> r.Invalid().None? || forall i :: 0 <= i < |spec| ==> spec[i].objects == []
  {
    var ops := ObservedFromReconcile(spec, Some(r));
    if r.Invalid().Some? {
      assert forall i :: 0 <= i < |spec| ==> ops[i] == InvalidOne(spec[i], r.Invalid().value) && ops[i].counts.total == 0;
    } else if !r.HasProgressed() {
      forall i | 0 <= i < |spec| ensures ops[i].counts.total == |spec[i].objects| {
        assert ops[i] == ObserveOne(spec[i], r.GetPhases(), RECONCILE_OBSERVER);
      }
    }
  }

  // ---------- Counts of an incomplete phase ----------

  lemma {:induction false} CountAll(os: seq<ObjectResult>, p: ObjectResult -> bool)
    ensures Count(os, p) <= |os|
    ensures Count(os, p) == |os| <==> forall k :: 0 <= k < |os| ==> p(os[k])
  {
    if os == [] {
    } else {
      CountAll(os[..|os| - 1], p);
    }
  }

  lemma {:induction false} CountImplies(os: seq<ObjectResult>, p: ObjectResult -> bool, q: ObjectResult -> bool)
    requires forall o: ObjectResult :: p(o) ==> q(o)
    ensures Count(os, p) <= Count(os, q)
  {
    if os == [] {
    } else {
      CountImplies(os[..|os| - 1], p, q);
    }
  }

  lemma {:induction false} CompleteOrListed(os: seq<ObjectResult>)
    ensures Count(os, Complete) + |IncompleteIds(os)| == |os|
  {
    if os == [] {
    } else {
      CompleteOrListed(os[..|os| - 1]);
    }
  }

  /** For any list of object results: what is synced is present, what is present was evaluated, and
      every evaluated object is either counted available or listed.  A phase that waits for assertions
      has every object of the spec synced, and nothing paused. */
  lemma {:induction false} IncompleteCounts(sp: Phase, pr: PhaseResult)
    requires pr.invalid.None?
    ensures var op := IncompletePhase(sp, pr);
            && op.counts.synced <= op.counts.present <= |pr.objects|
            && op.counts.available + |op.details| == |pr.objects|
            && (|pr.objects| <= |sp.objects| ==>
                  (op.status == WaitingForAssertions <==>
                     && |pr.objects| == |sp.objects|
                     && forall k :: 0 <= k < |pr.objects| ==> !pr.objects[k].paused && Synced(pr.objects[k])))
  {
    CountImplies(pr.objects, Synced, Counted);
    CountAll(pr.objects, Counted);
    CountAll(pr.objects, Synced);
    CompleteOrListed(pr.objects);
  }

  // ---------- The shape of a teardown status ----------

  lemma {:induction false} WaitingFound(
      ps: seq<Phase>, waiting: set<string>, read: PhaseObject -> Option<string>, active: string, i: nat)
    requires Distinct(ps) && i < |ps|
    ensures var found := Lookup(ReadOnlyTeardowns(ps, waiting, read), TeardownObserver(active).name, ps[i].name);
            found == if ps[i].name in waiting then Some(PhaseTeardown(ps[i].name, false, Present(ps[i].objects, read))) else None
  {
    var name := TeardownObserver(active).name;
    var head := if ps[0].name in waiting then [PhaseTeardown(ps[0].name, false, Present(ps[0].objects, read))] else [];
    var tail := ReadOnlyTeardowns(ps[1..], waiting, read);
    assert ReadOnlyTeardowns(ps, waiting, read) == head + tail;
    LookupConcat(head, tail, name, ps[i].name);
    if i > 0 {
      WaitingFound(ps[1..], waiting, read, active, i - 1);
      LookupAbsent(head, name, ps[i].name);
    } else {
      WaitingAbsent(ps[1..], waiting, read, active, ps[0].name);
      if head != [] {
        LookupOnly(head, name, 0);
      }
    }
  }

  lemma {:induction false} WaitingAbsent(
      ps: seq<Phase>, waiting: set<string>, read: PhaseObject -> Option<string>, active: string, n: string)
    requires forall k :: 0 <= k < |ps| ==> ps[k].name != n
    ensures Lookup(ReadOnlyTeardowns(ps, waiting, read), TeardownObserver(active).name, n) == None
  {
    if ps == [] {
    } else {
      var head := if ps[0].name in waiting then [PhaseTeardown(ps[0].name, false, Present(ps[0].objects, read))] else [];
      WaitingAbsent(ps[1..], waiting, read, active, n);
      LookupConcat(head, ReadOnlyTeardowns(ps[1..], waiting, read), TeardownObserver(active).name, n);
      LookupAbsent(head, TeardownObserver(active).name, n);
    }
  }

  lemma {:induction false} ReachedFound(ps: seq<Phase>, r: TeardownResult, i: nat)
    requires Distinct(ps) && ReverseOrder(ps, r) && i < |ps|
    ensures var found := Lookup(r.phases, TeardownObserver(r.active).name, ps[i].name);
            found == if i < |ps| - |r.phases| then None else Some(r.phases[|ps| - 1 - i])
  {
    if i < |ps| - |r.phases| {
      LookupAbsent(r.phases, TeardownObserver(r.active).name, ps[i].name);
    } else {
      LookupOnly(r.phases, TeardownObserver(r.active).name, |ps| - 1 - i);
    }
  }

  /** In spec order, the phases below `k` wait for the later ones, the phase at `k` is being torn down
      unless the whole teardown is complete, and the phases above are done. */
  ghost predicate TornDownFrom(ps: seq<Phase>, ops: seq<ObservedPhase>, k: nat, complete: bool) {
    && k < |ps| == |ops|
    && (complete ==> k == 0)
    && forall i :: 0 <= i < |ps| ==>
         && ops[i].name == ps[i].name
         && ops[i].counts.present <= ops[i].counts.total == |ps[i].objects|
         && ops[i].counts.synced == ops[i].counts.available == 0
         && ops[i].status == (if i < k then Pending else if i == k && !complete then TearingDown else TeardownComplete)
         && (ops[i].status == TeardownComplete ==> ops[i].counts.present == 0 && ops[i].details == [])
         && (ops[i].status != TeardownComplete ==> ops[i].counts.present == |ops[i].details|)
  }

  /** A teardown that did not fail always shows that shape, with every phase of the spec in it. */
  lemma {:induction false} TeardownShape(ps: seq<Phase>, o: TeardownOutcome, read: PhaseObject -> Option<string>)
    requires ps != [] && Distinct(ps) && TeardownContract(ps, o) && !o.failed
    ensures var r := WithReadOnly(ps, o, read).result;
            && r.Some? && r.value.complete == o.result.value.complete
            && exists k :: TornDownFrom(ps, ObservedFromTeardown(ps, r), k, r.value.complete)
  {
    var before, r := o.result.value, WithReadOnly(ps, o, read).result.value;
    var ops := ObservedFromTeardown(ps, Some(r));
    var k := |ps| - |before.phases|;
    forall i | 0 <= i < |ps|
      ensures ops[i] ==
                if i < k then TearingDownPhase(ps[i], PhaseTeardown(ps[i].name, false, Present(ps[i].objects, read)), false)
                else if i == k && !r.complete then TearingDownPhase(ps[i], before.phases[|ps| - 1 - i], true)
                else ObservedPhase(ps[i].name, TeardownComplete, None, ObjectCounts(|ps[i].objects|, 0, 0, 0), [])
    {
      TornDownAt(ps, o, read, i);
    }
    assert TornDownFrom(ps, ops, k, r.complete);
  }

  lemma {:induction false} TornDownAt(ps: seq<Phase>, o: TeardownOutcome, read: PhaseObject -> Option<string>, i: nat)
    requires Distinct(ps) && TeardownContract(ps, o) && !o.failed && i < |ps|
    ensures var before, r := o.result.value, WithReadOnly(ps, o, read).result;
            var k := |ps| - |before.phases|;
            && r.Some?
            && ObservedFromTeardown(ps, r)[i] ==
               if i < k then TearingDownPhase(ps[i], PhaseTeardown(ps[i].name, false, Present(ps[i].objects, read)), false)
               else if i == k && !before.complete then TearingDownPhase(ps[i], before.phases[|ps| - 1 - i], true)
               else ObservedPhase(ps[i].name, TeardownComplete, None, ObjectCounts(|ps[i].objects|, 0, 0, 0), [])
  {
    hide Distinct, Lookup, ReadOnlyTeardowns, Present, TearingDownPhase, WithReadOnly;
    FoundAt(ps, o, read, i);
  }

  /** What the map of results holds for phase number i: its read-only result while it waits, and
      boxcutter's once it is reached. */
  lemma {:induction false} FoundAt(ps: seq<Phase>, o: TeardownOutcome, read: PhaseObject -> Option<string>, i: nat)
    requires Distinct(ps) && TeardownContract(ps, o) && !o.failed && i < |ps|
    ensures var before, r := o.result.value, WithReadOnly(ps, o, read).result;
            && r.Some? && r.value.active == before.active
            && (i >= |ps| - |before.phases| ==> before.phases[|ps| - 1 - i].name == ps[i].name)
            && (i > |ps| - |before.phases| || before.complete ==> before.phases[|ps| - 1 - i].complete)
            && (i == |ps| - |before.phases| && !before.complete ==>
                  before.active == ps[i].name && !before.phases[|ps| - 1 - i].complete)
            && (i < |ps| - |before.phases| ==> before.active != ps[i].name)
            && Lookup(r.value.phases, TeardownObserver(r.value.active).name, ps[i].name) == Some(
                 if i < |ps| - |before.phases| then PhaseTeardown(ps[i].name, false, Present(ps[i].objects, read))
                 else before.phases[|ps| - 1 - i])
  {
    var r := o.result.value;
    var k := |ps| - |r.phases|;
    var name := TeardownObserver(r.active).name;
    var waiting := set n | n in r.waiting;
    var readOnly := if r.waiting == [] then [] else ReadOnlyTeardowns(ps, waiting, read);
    assert WithReadOnly(ps, o, read).result.value.phases == r.phases + readOnly;
    WaitingExactly(ps, r, i);
    ReachedFound(ps, r, i);
    hide Distinct, Lookup, ReadOnlyTeardowns, Present, ReverseOrder;
    LookupConcat(r.phases, readOnly, name, ps[i].name);
    if r.waiting != [] {
      WaitingFound(ps, waiting, read, r.active, i);
    }
  }

  lemma {:induction false} WaitingExactly(ps: seq<Phase>, r: TeardownResult, i: nat)
    requires Distinct(ps) && ReverseOrder(ps, r) && i < |ps|
    ensures ps[i].name in r.waiting <==> i < |ps| - |r.phases|
  {
    var k := |ps| - |r.phases|;
    assert i < k ==> ps[..k][i] in ps[..k];
    assert forall p :: p in ps[..k] ==> exists j :: 0 <= j < k && ps[j] == p;
  }
}
