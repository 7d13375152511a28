/** What the status shows of each phase, object by object. */
module PhaseLaws {
  import opened Api
  import opened Boxcutter
  import opened RevisionEngine
  import opened EngineProofs
  import opened CosStatus
  import opened CosStatusProofs
  import opened Sequences

  // ---------- An incomplete phase ----------

  /** The objects that exist, as far as the result tells: all but those that a paused reconcile would have
      created. */
  ghost function Existing(os: seq<ObjectResult>): set<int> {
    set k | 0 <= k < |os| && !(os[k].paused && os[k].action == Created)
  }

  /** The objects that are as the spec has them: found so, or, if not paused, made so. */
  ghost function InSync(os: seq<ObjectResult>): set<int> {
    set k | 0 <= k < |os| && (os[k].action == Idle || (!os[k].paused && os[k].action in {Updated, Created, Recovered}))
  }

  ghost function Finished(os: seq<ObjectResult>): set<int> {
    set k | 0 <= k < |os| && os[k].complete
  }

  ghost function Unfinished(os: seq<ObjectResult>): set<int> {
    set k | 0 <= k < |os| && !os[k].complete
  }

  /** `ids` are the identities of the objects at the positions `ks`. */
  ghost predicate IdsAt(os: seq<ObjectResult>, ids: seq<string>, ks: seq<int>) {
    |ids| == |ks| && forall j :: 0 <= j < |ks| ==> 0 <= ks[j] < |os| && ids[j] == os[ks[j]].id
  }

  /** `ids` are the identities of the unfinished objects, in order. */
  ghost predicate ListsUnfinished(os: seq<ObjectResult>, ids: seq<string>) {
    exists ks: seq<int> :: Enumerates(ks, Unfinished(os)) && IdsAt(os, ids, ks)
  }

  /** `op` is what the status has to show of a phase that was evaluated and is not complete. */
  ghost predicate IncompleteExactly(sp: Phase, pr: PhaseResult, op: ObservedPhase) {
    var os, total := pr.objects, |sp.objects|;
    && op.name == pr.name && op.completedAt == None && op.counts.total == total
    && if pr.invalid.Some? then
         op.status == Invalid && op.counts == ObjectCounts(total, 0, 0, 0) && op.details == pr.invalid.value.objects
       else
         && op.counts.present == |Existing(os)|
         && op.counts.synced == |InSync(os)|
         && op.counts.available == |Finished(os)|
         && ListsUnfinished(os, op.details)
         && op.status == if exists k :: 0 <= k < |os| && os[k].paused then Pending
                         else if |InSync(os)| == total then WaitingForAssertions
                         else Reconciling
  }

  lemma {:induction false} SetsSnoc(os: seq<ObjectResult>, n: nat)
    requires |os| == n + 1
    ensures Existing(os) == Existing(os[..n]) + if os[n].paused && os[n].action == Created then {} else {n}
    ensures InSync(os) == if Synced(os[n]) then InSync(os[..n]) + {n} else InSync(os[..n])
    ensures Finished(os) == if os[n].complete then Finished(os[..n]) + {n} else Finished(os[..n])
    ensures Unfinished(os) == if os[n].complete then Unfinished(os[..n]) else Unfinished(os[..n]) + {n}
  {
  }

  lemma {:induction false} CountsAreNumbers(os: seq<ObjectResult>)
    ensures Count(os, Counted) == |Existing(os)|
    ensures Count(os, Synced) == |InSync(os)|
    ensures Count(os, Complete) == |Finished(os)|
  {
    if os == [] {
    } else {
      var n := |os| - 1;
      CountsAreNumbers(os[..n]);
      SetsSnoc(os, n);
    }
  }

  lemma {:induction false} IncompleteIdsListed(os: seq<ObjectResult>)
    ensures ListsUnfinished(os, IncompleteIds(os))
  {
    if os == [] {
      assert Enumerates([], Unfinished(os)) && IdsAt(os, [], []);
    } else {
      hide ListsUnfinished, Unfinished;
      IncompleteIdsListed(os[..|os| - 1]);
      UnfinishedSnoc(os, |os| - 1, IncompleteIds(os[..|os| - 1]));
    }
  }

  lemma {:induction false} UnfinishedSnoc(os: seq<ObjectResult>, n: nat, ids: seq<string>)
    requires |os| == n + 1 && ListsUnfinished(os[..n], ids)
    ensures ListsUnfinished(os, ids + if os[n].complete then [] else [os[n].id])
  {
    hide Enumerates, Existing, InSync, Finished;
    SetsSnoc(os, n);
    var ks: seq<int> :| Enumerates(ks, Unfinished(os[..n])) && IdsAt(os[..n], ids, ks);
    if os[n].complete {
      assert IdsAt(os, ids + [], ks);
    } else {
      EnumeratesSnoc(ks, Unfinished(os[..n]), n);
      assert IdsAt(os, ids + [os[n].id], ks + [n]);
    }
  }

  lemma {:induction false} IncompletePhaseExactly(sp: Phase, pr: PhaseResult)
    ensures IncompleteExactly(sp, pr, IncompletePhase(sp, pr))
  {
    hide ListsUnfinished, Existing, InSync, Finished;
    CountsAreNumbers(pr.objects);
    IncompleteIdsListed(pr.objects);
  }

  // ---------- The phases of a pass ----------

  /** What an ordinary pass shows of a phase, given its result if it has one. */
  ghost predicate ShownExactly(sp: Phase, result: Option<PhaseResult>, op: ObservedPhase) {
    var n := |sp.objects|;
    match result
    case None => op == ObservedPhase(sp.name, Unevaluated, None, ObjectCounts(n, 0, 0, 0), [])
    case Some(pr) =>
      if pr.complete then op == ObservedPhase(sp.name, Available, None, ObjectCounts(n, n, n, n), [])
      else op.name == sp.name && IncompleteExactly(sp, pr, op)
  }

  lemma {:induction false} ShownHasNoTime(sp: Phase, result: Option<PhaseResult>, op: ObservedPhase)
    requires ShownExactly(sp, result, op)
    ensures op.completedAt == None
  {
  }

  /** The results of an ordinary pass, which cover a prefix of the spec, are shown in order, and every
      later phase as unevaluated. */
  lemma {:induction false} OrdinaryExactly(ps: seq<Phase>, r: EngineResult, calls: seq<Call>, i: nat)
    requires Distinct(ps) && Ordinary(r.gated) && ReportsCalls(ps, r.GetPhases(), calls) && i < |ps|
    ensures var ops, rs := ObservedFromReconcile(ps, Some(r)), r.GetPhases();
            |ops| == |ps| && ShownExactly(ps[i], if i < |rs| then Some(rs[i]) else None, ops[i])
  {
    hide IncompletePhase, IncompleteExactly, Lookup, Distinct;
    ReportedAt(ps, r.GetPhases(), i);
    if i < |r.GetPhases()| {
      IncompletePhaseExactly(ps[i], r.GetPhases()[i]);
      SameName(ps[i], r.GetPhases()[i]);
    }
  }

  lemma {:induction false} SameName(sp: Phase, pr: PhaseResult)
    ensures IncompletePhase(sp, pr).name == pr.name
  {
  }

  /** The last validation error for the phase is number `k`. */
  ghost predicate LastErrorAt(errors: seq<PhaseValidation>, name: string, k: int) {
    0 <= k < |errors| && errors[k].phase == name && forall j :: k < j < |errors| ==> errors[j].phase != name
  }

  ghost predicate LastAt<T>(rs: seq<T>, name: T -> string, n: string, k: int) {
    0 <= k < |rs| && name(rs[k]) == n && forall j :: k < j < |rs| ==> name(rs[j]) != n
  }

  lemma {:induction false} LookupIsLast<T>(rs: seq<T>, name: T -> string, n: string)
    ensures var found := Lookup(rs, name, n);
            if found.Some? then exists k :: LastAt(rs, name, n, k) && rs[k] == found.value
            else forall k :: 0 <= k < |rs| ==> name(rs[k]) != n
  {
    if rs == [] {
    } else {
      var last := |rs| - 1;
      LookupIsLast(rs[..last], name, n);
      if name(rs[last]) == n {
        assert LastAt(rs, name, n, last);
      } else if Lookup(rs[..last], name, n).Some? {
        var k :| LastAt(rs[..last], name, n, k) && rs[..last][k] == Lookup(rs[..last], name, n).value;
        assert LastAt(rs, name, n, k);
      }
    }
  }

  /** A phase of a revision that failed its validation is shown as Invalid, with the objects of the last
      error for it, and as unevaluated if there is none. */
  ghost predicate ShowsError(sp: Phase, errors: seq<PhaseValidation>, op: ObservedPhase) {
    && op.name == sp.name && op.counts == ObjectCounts(0, 0, 0, 0)
    && if op.status == Invalid then exists k :: LastErrorAt(errors, sp.name, k) && errors[k].objects == op.details
       else op.status == Unevaluated && op.details == [] && forall k :: 0 <= k < |errors| ==> errors[k].phase != sp.name
  }

  lemma {:induction false} InvalidExactly(ps: seq<Phase>, r: EngineResult, i: nat)
    requires r.Invalid().Some? && i < |ps|
    ensures var ops, errors := ObservedFromReconcile(ps, Some(r)), r.Invalid().value;
            |ops| == |ps| && ops[i].completedAt == None && ShowsError(ps[i], errors, ops[i])
  {
    var errors, name := r.Invalid().value, (e: PhaseValidation) => e.phase;
    LookupIsLast(errors, name, ps[i].name);
    var op := ObservedFromReconcile(ps, Some(r))[i];
    assert op == InvalidOne(ps[i], errors);
    if op.status == Invalid {
      var k :| LastAt(errors, name, ps[i].name, k) && errors[k].objects == op.details;
      assert LastErrorAt(errors, ps[i].name, k);
    }
  }

  /** A superseded revision shows every phase as such, and nothing of its objects. */
  lemma {:induction false} SupersededExactly(ps: seq<Phase>, r: EngineResult, i: nat)
    requires r.Invalid().None? && r.HasProgressed() && i < |ps|
    ensures var ops := ObservedFromReconcile(ps, Some(r));
            |ops| == |ps|
            && ops[i] == ObservedPhase(ps[i].name, Superseded, None, ObjectCounts(|ps[i].objects|, 0, 0, 0), [])
  {
  }

  // ---------- Completion times ----------

  /** The last entry of that name with a completion time has this one. */
  ghost predicate LastTime(existing: seq<ObservedPhase>, name: string, t: Time) {
    exists k :: TimeAt(existing, name, t, k)
  }

  ghost predicate TimeAt(existing: seq<ObservedPhase>, name: string, t: Time, k: nat) {
    && k < |existing| && existing[k].name == name && existing[k].completedAt == Some(t)
    && forall j :: k < j < |existing| && existing[j].name == name ==> existing[j].completedAt == None
  }

  lemma {:induction false} StoredTimeIsLast(existing: seq<ObservedPhase>, name: string)
    ensures var found := StoredTime(existing, name);
            if found.Some? then LastTime(existing, name, found.value)
            else forall k :: 0 <= k < |existing| && existing[k].name == name ==> existing[k].completedAt == None
  {
    if existing == [] {
    } else {
      var last := |existing| - 1;
      StoredTimeIsLast(existing[..last], name);
      var found := StoredTime(existing, name);
      if found.Some? {
        if existing[last].name == name && existing[last].completedAt.Some? {
          assert TimeAt(existing, name, found.value, last);
        } else {
          var k :| TimeAt(existing[..last], name, found.value, k);
          assert TimeAt(existing, name, found.value, k);
        }
      }
    }
  }

  /** Carrying times over changes nothing else.  An entry keeps the time stored last for its name; without
      one it gets the time of now exactly if it shows Available. */
  lemma {:induction false} TimesExactly(existing: seq<ObservedPhase>, current: seq<ObservedPhase>, now: Time, i: nat)
    requires i < |current| && current[i].completedAt == None
    ensures var op := Preserved(existing, current, now)[i];
            && op == current[i].(completedAt := op.completedAt)
            && (forall t :: LastTime(existing, op.name, t) ==> op.completedAt == Some(t))
            && ((forall k :: 0 <= k < |existing| && existing[k].name == op.name ==> existing[k].completedAt == None) ==>
                  op.completedAt == if op.status == Available then Some(now) else None)
  {
    StoredTimeIsLast(existing, current[i].name);
  }

  // ---------- Teardown ----------

  /** The positions of the objects that the reader still finds. */
  ghost function Left(objects: seq<PhaseObject>, read: PhaseObject -> Option<string>): set<int> {
    set k | 0 <= k < |objects| && read(objects[k]).Some?
  }

  ghost predicate FoundAt(
      objects: seq<PhaseObject>, read: PhaseObject -> Option<string>, ids: seq<string>, ks: seq<int>) {
    |ids| == |ks| && forall j :: 0 <= j < |ks| ==> 0 <= ks[j] < |objects| && read(objects[ks[j]]) == Some(ids[j])
  }

  /** `ids` are what the reader finds of the objects, in order. */
  ghost predicate ListsLeft(objects: seq<PhaseObject>, read: PhaseObject -> Option<string>, ids: seq<string>) {
    exists ks: seq<int> :: Enumerates(ks, Left(objects, read)) && FoundAt(objects, read, ids, ks)
  }

  lemma {:induction false} PresentConcat(a: seq<PhaseObject>, b: seq<PhaseObject>, read: PhaseObject -> Option<string>)
    ensures Present(a + b, read) == Present(a, read) + Present(b, read)
  {
    if a == [] {
      assert a + b == b;
    } else {
      assert (a + b)[0] == a[0] && (a + b)[1..] == a[1..] + b;
      PresentConcat(a[1..], b, read);
      var head := if read(a[0]).Some? then [read(a[0]).value] else [];
      Associates(head, Present(a[1..], read), Present(b, read));
    }
  }

  lemma {:induction false} PresentExactly(objects: seq<PhaseObject>, read: PhaseObject -> Option<string>)
    ensures ListsLeft(objects, read, Present(objects, read))
    decreases |objects|
  {
    if objects == [] {
      assert Enumerates([], Left(objects, read)) && FoundAt(objects, read, [], []);
    } else {
      var n := |objects| - 1;
      var init, last := objects[..n], objects[n];
      PresentExactly(init, read);
      PresentConcat(init, [last], read);
      assert init + [last] == objects;
      var ks: seq<int> :| Enumerates(ks, Left(init, read)) && FoundAt(init, read, Present(init, read), ks);
      LeftSnoc(objects, n, read);
      if read(last).Some? {
        EnumeratesSnoc(ks, Left(init, read), n);
        assert FoundAt(objects, read, Present(objects, read), ks + [n]);
      } else {
        assert FoundAt(objects, read, Present(objects, read), ks);
      }
    }
  }

  lemma {:induction false} LeftSnoc(objects: seq<PhaseObject>, n: nat, read: PhaseObject -> Option<string>)
    requires |objects| == n + 1
    ensures Left(objects, read) == Left(objects[..n], read) + if read(objects[n]).Some? then {n} else {}
    ensures Present([objects[n]], read) == if read(objects[n]).Some? then [read(objects[n]).value] else []
  {
    assert [objects[n]][1..] == [];
  }

  /** `op` is what a teardown that reported `r` shows of phase number `i`.  The phases that were not reached
      wait, with the objects still found by reading; then comes the one being torn down, with what boxcutter
      waits for; the later ones are done. */
  ghost predicate ShowsTeardown(
      ps: seq<Phase>, r: TeardownResult, read: PhaseObject -> Option<string>, i: nat, op: ObservedPhase)
    requires i < |ps|
  {
    var k, n := |ps| - |r.phases|, |ps[i].objects|;
    && op.name == ps[i].name && op.counts == ObjectCounts(n, |op.details|, 0, 0)
    && if i < k then op.status == Pending && ListsLeft(ps[i].objects, read, op.details)
       else if i > k || r.complete then op.status == TeardownComplete && op.details == []
       else op.status == TearingDown && r.phases != [] && op.details == r.phases[|r.phases| - 1].waiting
  }

  lemma {:induction false} TeardownExactly(
      ps: seq<Phase>, o: TeardownOutcome, read: PhaseObject -> Option<string>, i: nat)
    requires Distinct(ps) && TeardownContract(ps, o) && !o.failed && i < |ps|
    ensures var ops := ObservedFromTeardown(ps, WithReadOnly(ps, o, read).result);
            |ops| == |ps| && ops[i].completedAt == None && ShowsTeardown(ps, o.result.value, read, i, ops[i])
  {
    hide Distinct, ReverseOrder, ObserveOne, ReadOnlyTeardowns, ListsLeft, Present;
    TornDownAt(ps, o, read, i);
    PresentExactly(ps[i].objects, read);
    FoundNames(ps, o, i);
  }

  lemma {:induction false} FoundNames(ps: seq<Phase>, o: TeardownOutcome, i: nat)
    requires Distinct(ps) && TeardownContract(ps, o) && !o.failed && i < |ps|
    ensures var before := o.result.value;
            && |before.phases| <= |ps|
            && (i >= |ps| - |before.phases| ==> before.phases[|ps| - 1 - i].name == ps[i].name)
            && (before.complete ==> |before.phases| == |ps|)
  {
  }

  ghost predicate LastTeardownAt(rs: seq<PhaseTeardown>, name: string, k: int) {
    0 <= k < |rs| && rs[k].name == name && forall j :: k < j < |rs| ==> rs[j].name != name
  }

  /** A phase with this teardown result. */
  ghost predicate ShowsResult(sp: Phase, p: PhaseTeardown, active: string, op: ObservedPhase) {
    && op.name == sp.name && op.completedAt == None
    && if p.complete then
         op.status == TeardownComplete && op.details == [] && op.counts == ObjectCounts(|sp.objects|, 0, 0, 0)
       else
         && op.status == (if p.name == active then TearingDown else Pending)
         && op.details == p.waiting && op.counts == ObjectCounts(|sp.objects|, |p.waiting|, 0, 0)
  }

  /** A teardown that failed shows what boxcutter returned nevertheless, whatever that is: the last result of
      each phase, and phases without one as unevaluated, even those that wait. */
  lemma {:induction false} FailedTeardownExactly(
      ps: seq<Phase>, o: TeardownOutcome, read: PhaseObject -> Option<string>, i: nat)
    requires o.failed && i < |ps|
    ensures var ops := ObservedFromTeardown(ps, WithReadOnly(ps, o, read).result);
            && (o.result == None ==> ops == [])
            && (o.result.Some? ==>
                  var rs, n := o.result.value.phases, ps[i].name;
                  && |ops| == |ps|
                  && (forall k :: LastTeardownAt(rs, n, k) ==> ShowsResult(ps[i], rs[k], o.result.value.active, ops[i]))
                  && ((forall k :: 0 <= k < |rs| ==> rs[k].name != n) ==>
                        ops[i] == ObservedPhase(n, Unevaluated, None, ObjectCounts(|ps[i].objects|, 0, 0, 0), [])))
  {
    if o.result.Some? {
      var rs, name := o.result.value.phases, TeardownObserver(o.result.value.active).name;
      LookupIsLast(rs, name, ps[i].name);
    }
  }
}
