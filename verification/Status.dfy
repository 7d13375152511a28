/** internal/status/cos/status.go: folds the outcome of a reconcile or a teardown into the status of
    a ClusterObjectSet. */
module CosStatus {
  import opened Api
  import opened Boxcutter
  import opened RevisionEngine
  import opened Sequences

  /** The error a pass ended with, as far as the status code tells errors apart. */
  datatype Failure = NoFailure | ResolutionError | InternalError | OtherError

  /** The finalizers and lifecycle marks of a stored ClusterObjectSet. */
  datatype Meta = Meta(finalizer: bool, orphan: bool, deleting: bool, archived: bool)

  /** The controller's own copy of a ClusterObjectSet, which it changes before it writes it back. */
  class ClusterObjectSet {
    const phases: seq<Phase>
    const generation: int
    const meta: Meta
    var version: nat
    var status: Status

    constructor (phases: seq<Phase>, generation: int, meta: Meta, version: nat, status: Status)
      ensures this.phases == phases && this.generation == generation && this.meta == meta
      ensures this.version == version && this.status == status
    {
      this.phases, this.generation, this.meta := phases, generation, meta;
      this.version, this.status := version, status;
    }
  }

  datatype Update = Update(
    status: ConditionStatus,
    reason: Reason,
    phases: Option<seq<ObservedPhase>>,
    completedAt: Option<Time>)

  // ---------- Apply ----------

  function Aggregate(ops: seq<ObservedPhase>): Option<ObjectCounts> {
    if ops == [] then None
    else Some(ObjectCounts(Sum(Totals(ops)), Sum(Presents(ops)), Sum(Synceds(ops)), Sum(Availables(ops))))
  }

  function Applied(s: Status, generation: int, u: Update): Status {
    var phases := if u.phases.Some? then u.phases.value else s.phases;
    Status(
      Some(Condition(u.status, u.reason, generation)),
      s.hash,
      if s.completedAt.Some? then s.completedAt else u.completedAt,
      Aggregate(phases),
      phases)
  }

  method SumObjectCounts(ops: seq<ObservedPhase>) returns (c: Option<ObjectCounts>)
    ensures c.Some? <==> ops != []
    ensures c.Some? ==> CountsMatch(c.value, ops)
    ensures c == Aggregate(ops)
  {
    if |ops| == 0 {
      return None;
    }
    var counts := ObjectCounts(0, 0, 0, 0);
    for i := 0 to |ops|
      invariant CountsMatch(counts, ops[..i])
    {
      SumStep(ops, i);
      var c := ops[i].counts;
      counts := ObjectCounts(
        counts.total + c.total, counts.present + c.present, counts.synced + c.synced, counts.available + c.available);
    }
    Whole(ops);
    return Some(counts);
  }

  lemma {:induction false} SumStep(ops: seq<ObservedPhase>, i: nat)
    requires i < |ops|
    ensures Sum(Totals(ops[..i + 1])) == Sum(Totals(ops[..i])) + ops[i].counts.total
    ensures Sum(Presents(ops[..i + 1])) == Sum(Presents(ops[..i])) + ops[i].counts.present
    ensures Sum(Synceds(ops[..i + 1])) == Sum(Synceds(ops[..i])) + ops[i].counts.synced
    ensures Sum(Availables(ops[..i + 1])) == Sum(Availables(ops[..i])) + ops[i].counts.available
  {
    assert Totals(ops[..i + 1])[..i] == Totals(ops[..i]);
    assert Presents(ops[..i + 1])[..i] == Presents(ops[..i]);
    assert Synceds(ops[..i + 1])[..i] == Synceds(ops[..i]);
    assert Availables(ops[..i + 1])[..i] == Availables(ops[..i]);
  }

  method Apply(cos: ClusterObjectSet, u: Update)
    modifies cos`status
    ensures cos.status == Applied(old(cos.status), cos.generation, u)
  {
    cos.status := cos.status.(available := Some(Condition(u.status, u.reason, cos.generation)));
    if u.phases.Some? {
      cos.status := cos.status.(phases := u.phases.value);
    }
    var counts := SumObjectCounts(cos.status.phases);
    cos.status := cos.status.(counts := counts);
    if u.completedAt.Some? && cos.status.completedAt.None? {
      cos.status := cos.status.(completedAt := u.completedAt);
    }
  }

  // ---------- The phase list ----------

  /** How results of type T are read, and what is made of them. */
  datatype Observer<!T> = Observer(
    name: T -> string,
    complete: T -> bool,
    completeStatus: PhaseStatus,
    completeCounts: nat -> ObjectCounts,
    incomplete: (Phase, T) -> ObservedPhase)

  /** The last result with the given name. */
  function Lookup<T>(rs: seq<T>, name: T -> string, n: string): Option<T> {
    if rs == [] then None
    else if name(rs[|rs| - 1]) == n then Some(rs[|rs| - 1])
    else Lookup(rs[..|rs| - 1], name, n)
  }

  function ObserveOne<T>(sp: Phase, rs: seq<T>, ob: Observer<T>): ObservedPhase {
    match Lookup(rs, ob.name, sp.name)
    case None => ObservedPhase(sp.name, Unevaluated, None, ObjectCounts(|sp.objects|, 0, 0, 0), [])
    case Some(r) =>
      if ob.complete(r) then ObservedPhase(sp.name, ob.completeStatus, None, ob.completeCounts(|sp.objects|), [])
      else ob.incomplete(sp, r)
  }

  function ObserveAll<T>(spec: seq<Phase>, rs: seq<T>, ob: Observer<T>): seq<ObservedPhase> {
    seq(|spec|, i requires 0 <= i < |spec| => ObserveOne(spec[i], rs, ob))
  }

  method MapSpecPhases<T>(spec: seq<Phase>, rs: seq<T>, ob: Observer<T>) returns (observed: seq<ObservedPhase>)
    ensures observed == ObserveAll(spec, rs, ob)
  {
    var byName: map<string, T> := map[];
    for i := 0 to |rs|
      invariant forall n :: n in byName <==> Lookup(rs[..i], ob.name, n).Some?
      invariant forall n :: n in byName ==> Lookup(rs[..i], ob.name, n) == Some(byName[n])
    {
      byName := byName[ob.name(rs[i]) := rs[i]];
      assert rs[..i + 1][..i] == rs[..i];
    }
    Whole(rs);

    observed := [];
    for i := 0 to |spec|
      invariant |observed| == i
      invariant forall k :: 0 <= k < i ==> observed[k] == ObserveOne(spec[k], rs, ob)
    {
      var sp := spec[i];
      var total := |sp.objects|;
      if sp.name !in byName {
        observed := observed + [ObservedPhase(sp.name, Unevaluated, None, ObjectCounts(total, 0, 0, 0), [])];
        continue;
      }
      var r := byName[sp.name];
      if ob.complete(r) {
        observed := observed + [ObservedPhase(sp.name, ob.completeStatus, None, ob.completeCounts(total), [])];
        continue;
      }
      observed := observed + [ob.incomplete(sp, r)];
    }
  }

  // ---------- An incomplete phase of a reconcile ----------

  predicate Counted(o: ObjectResult) {
    !o.paused || o.action != Created
  }

  predicate Synced(o: ObjectResult) {
    if o.paused then o.action == Idle else o.action in {Idle, Updated, Created, Recovered}
  }

  predicate Complete(o: ObjectResult) {
    o.complete
  }

  function Count(os: seq<ObjectResult>, p: ObjectResult -> bool): nat {
    if os == [] then 0 else Count(os[..|os| - 1], p) + if p(os[|os| - 1]) then 1 else 0
  }

  function IncompleteIds(os: seq<ObjectResult>): seq<string> {
    if os == [] then []
    else IncompleteIds(os[..|os| - 1]) + if os[|os| - 1].complete then [] else [os[|os| - 1].id]
  }

  predicate AnyPaused(os: seq<ObjectResult>) {
    exists k :: 0 <= k < |os| && os[k].paused
  }

  function IncompletePhase(sp: Phase, pr: PhaseResult): ObservedPhase {
    var total := |sp.objects|;
    if pr.invalid.Some? then
      ObservedPhase(pr.name, Invalid, None, ObjectCounts(total, 0, 0, 0), pr.invalid.value.objects)
    else
      var synced := Count(pr.objects, Synced);
      ObservedPhase(
        pr.name,
        if AnyPaused(pr.objects) then Pending else if synced == total then WaitingForAssertions else Reconciling,
        None,
        ObjectCounts(total, Count(pr.objects, Counted), synced, Count(pr.objects, Complete)),
        IncompleteIds(pr.objects))
  }

  /** One object more. */
  lemma {:induction false} CountedSnoc(os: seq<ObjectResult>, i: nat)
    requires i < |os|
    ensures Count(os[..i + 1], Counted) == Count(os[..i], Counted) + if Counted(os[i]) then 1 else 0
    ensures Count(os[..i + 1], Synced) == Count(os[..i], Synced) + if Synced(os[i]) then 1 else 0
    ensures Count(os[..i + 1], Complete) == Count(os[..i], Complete) + if Complete(os[i]) then 1 else 0
    ensures IncompleteIds(os[..i + 1]) == IncompleteIds(os[..i]) + if os[i].complete then [] else [os[i].id]
    ensures AnyPaused(os[..i + 1]) <==> AnyPaused(os[..i]) || os[i].paused
  {
    assert os[..i + 1][..i] == os[..i];
    assert os[..i + 1][i] == os[i];
  }

  /** incompletePhase. */
  method BuildIncompletePhase(sp: Phase, pr: PhaseResult) returns (op: ObservedPhase)
    ensures op == IncompletePhase(sp, pr)
  {
    var counts := ObjectCounts(|sp.objects|, 0, 0, 0);
    if pr.invalid.Some? {
      return ObservedPhase(pr.name, Invalid, None, counts, pr.invalid.value.objects);
    }
    var paused, details := false, [];
    for i := 0 to |pr.objects|
      invariant counts == ObjectCounts(|sp.objects|, Count(pr.objects[..i], Counted),
                                       Count(pr.objects[..i], Synced), Count(pr.objects[..i], Complete))
      invariant paused == AnyPaused(pr.objects[..i])
      invariant details == IncompleteIds(pr.objects[..i])
    {
      var o := pr.objects[i];
      CountedSnoc(pr.objects, i);
      if !o.paused || o.action != Created {
        counts := counts.(present := counts.present + 1);
      }
      if o.paused {
        paused := true;
        if o.action == Idle {
          counts := counts.(synced := counts.synced + 1);
        }
      } else {
        if o.action in {Idle, Updated, Created, Recovered} {
          counts := counts.(synced := counts.synced + 1);
        }
      }
      if o.complete {
        counts := counts.(available := counts.available + 1);
        continue;
      }
      details := details + [o.id];
    }
    Whole(pr.objects);
    var status :=
      if paused then Pending else if counts.synced == counts.total then WaitingForAssertions else Reconciling;
    return ObservedPhase(pr.name, status, None, counts, details);
  }

  const RECONCILE_OBSERVER: Observer<PhaseResult> := Observer(
    (r: PhaseResult) => r.name,
    (r: PhaseResult) => r.complete,
    Available,
    (total: nat) => ObjectCounts(total, total, total, total),
    (sp: Phase, r: PhaseResult) => IncompletePhase(sp, r))

  // ---------- FromReconcile ----------

  function InvalidOne(sp: Phase, errors: seq<PhaseValidation>): ObservedPhase {
    match Lookup(errors, (e: PhaseValidation) => e.phase, sp.name)
    case Some(e) => ObservedPhase(sp.name, Invalid, None, ObjectCounts(0, 0, 0, 0), e.objects)
    case None => ObservedPhase(sp.name, Unevaluated, None, ObjectCounts(0, 0, 0, 0), [])
  }

  function ObservedFromReconcile(spec: seq<Phase>, result: Option<EngineResult>): seq<ObservedPhase> {
    match result
    case None => []
    case Some(r) =>
      if r.Invalid().Some? then
        seq(|spec|, i requires 0 <= i < |spec| => InvalidOne(spec[i], r.Invalid().value))
      else if r.HasProgressed() then
        seq(|spec|, i requires 0 <= i < |spec| =>
          ObservedPhase(spec[i].name, Superseded, None, ObjectCounts(|spec[i].objects|, 0, 0, 0), []))
      else
        ObserveAll(spec, r.GetPhases(), RECONCILE_OBSERVER)
  }

  method InvalidPhases(spec: seq<Phase>, errors: seq<PhaseValidation>) returns (observed: seq<ObservedPhase>)
    ensures observed == seq(|spec|, i requires 0 <= i < |spec| => InvalidOne(spec[i], errors))
  {
    var name := (e: PhaseValidation) => e.phase;
    var byName: map<string, PhaseValidation> := map[];
    for i := 0 to |errors|
      invariant forall n :: n in byName <==> Lookup(errors[..i], name, n).Some?
      invariant forall n :: n in byName ==> Lookup(errors[..i], name, n) == Some(byName[n])
    {
      byName := byName[errors[i].phase := errors[i]];
      assert errors[..i + 1][..i] == errors[..i];
    }
    Whole(errors);
    observed := [];
    for i := 0 to |spec|
      invariant |observed| == i
      invariant forall k :: 0 <= k < i ==> observed[k] == InvalidOne(spec[k], errors)
    {
      if spec[i].name in byName {
        var e := byName[spec[i].name];
        observed := observed + [ObservedPhase(spec[i].name, Invalid, None, ObjectCounts(0, 0, 0, 0), e.objects)];
      } else {
        observed := observed + [ObservedPhase(spec[i].name, Unevaluated, None, ObjectCounts(0, 0, 0, 0), [])];
      }
    }
  }

  method ObservedPhasesFromReconcileResult(spec: seq<Phase>, result: Option<EngineResult>)
    returns (observed: seq<ObservedPhase>)
    ensures observed == ObservedFromReconcile(spec, result)
  {
    if result.None? {
      return [];
    }
    var r := result.value;
    if r.Invalid().Some? {
      observed := InvalidPhases(spec, r.Invalid().value);
    } else if r.HasProgressed() {
      observed := seq(|spec|, i requires 0 <= i < |spec| =>
        ObservedPhase(spec[i].name, Superseded, None, ObjectCounts(|spec[i].objects|, 0, 0, 0), []));
    } else {
      observed := MapSpecPhases(spec, r.GetPhases(), RECONCILE_OBSERVER);
    }
  }

  /** The completion time recorded last for a phase of that name. */
  function StoredTime(existing: seq<ObservedPhase>, name: string): Option<Time> {
    if existing == [] then None
    else
      var op := existing[|existing| - 1];
      if op.name == name && op.completedAt.Some? then op.completedAt
      else StoredTime(existing[..|existing| - 1], name)
  }

  function PreserveOne(existing: seq<ObservedPhase>, op: ObservedPhase, now: Time): ObservedPhase {
    var t := StoredTime(existing, op.name);
    if t.Some? then op.(completedAt := t)
    else if op.status == Available then op.(completedAt := Some(now))
    else op
  }

  function Preserved(existing: seq<ObservedPhase>, current: seq<ObservedPhase>, now: Time): seq<ObservedPhase> {
    seq(|current|, i requires 0 <= i < |current| => PreserveOne(existing, current[i], now))
  }

  method PreserveCompletionTimes(existing: seq<ObservedPhase>, current: array<ObservedPhase>, now: Time)
    modifies current
    ensures current[..] == Preserved(existing, old(current[..]), now)
  {
    var completedAt: map<string, Time> := map[];
    for i := 0 to |existing|
      invariant forall n :: n in completedAt <==> StoredTime(existing[..i], n).Some?
      invariant forall n :: n in completedAt ==> StoredTime(existing[..i], n) == Some(completedAt[n])
    {
      assert existing[..i + 1][..i] == existing[..i];
      if existing[i].completedAt.Some? {
        completedAt := completedAt[existing[i].name := existing[i].completedAt.value];
      }
    }
    Whole(existing);
    for i := 0 to current.Length
      invariant forall k :: 0 <= k < i ==> current[k] == PreserveOne(existing, old(current[k]), now)
      invariant forall k :: i <= k < current.Length ==> current[k] == old(current[k])
    {
      if current[i].name in completedAt {
        current[i] := current[i].(completedAt := Some(completedAt[current[i].name]));
      } else if current[i].status == Available {
        current[i] := current[i].(completedAt := Some(now));
      }
    }
  }

  function ReconcileUpdate(
      s: Status, spec: seq<Phase>, result: Option<EngineResult>, failure: Failure, now: Time): Update
    requires failure.NoFailure? ==> result.Some?
  {
    match failure
    case ResolutionError =>
      Update(if s.hash != "" then CondUnknown else CondFalse, InvalidRevision, None, None)
    case InternalError =>
      Update(CondUnknown, InternalFailure, Some([]), None)
    case OtherError =>
      Update(CondUnknown, ReconcileFailure, Some(Preserved(s.phases, ObservedFromReconcile(spec, result), now)), None)
    case NoFailure =>
      var phases := Some(Preserved(s.phases, ObservedFromReconcile(spec, result), now));
      var r := result.value;
      if r.Invalid().Some? then Update(CondFalse, InvalidRevision, phases, None)
      else if r.HasProgressed() then Update(CondFalse, IsSuperseded, phases, None)
      else if r.IsComplete() then Update(CondTrue, IsAvailable, phases, Some(now))
      else Update(CondFalse, IsUnavailable, phases, None)
  }

  method PreservedPhases(existing: seq<ObservedPhase>, observed: seq<ObservedPhase>, now: Time)
    returns (phases: seq<ObservedPhase>)
    ensures phases == Preserved(existing, observed, now)
  {
    var current := new ObservedPhase[|observed|](i requires 0 <= i < |observed| => observed[i]);
    assert current[..] == observed;
    PreserveCompletionTimes(existing, current, now);
    phases := current[..];
  }

  method FromReconcile(
      cos: ClusterObjectSet, result: Option<EngineResult>, failure: Failure, now: Time) returns (u: Update)
    requires failure.NoFailure? ==> result.Some?
    ensures u == ReconcileUpdate(cos.status, cos.phases, result, failure, now)
  {
    if failure.ResolutionError? {
      return Update(if cos.status.hash != "" then CondUnknown else CondFalse, InvalidRevision, None, None);
    }
    if failure.InternalError? {
      return Update(CondUnknown, InternalFailure, Some([]), None);
    }
    var observed := ObservedPhasesFromReconcileResult(cos.phases, result);
    var phases := PreservedPhases(cos.status.phases, observed, now);
    if failure.OtherError? {
      return Update(CondUnknown, ReconcileFailure, Some(phases), None);
    }
    var r := result.value;
    if r.Invalid().Some? {
      return Update(CondFalse, InvalidRevision, Some(phases), None);
    }
    if r.HasProgressed() {
      return Update(CondFalse, IsSuperseded, Some(phases), None);
    }
    if r.IsComplete() {
      return Update(CondTrue, IsAvailable, Some(phases), Some(now));
    }
    return Update(CondFalse, IsUnavailable, Some(phases), None);
  }

  // ---------- FromTeardown ----------

  function TearingDownPhase(sp: Phase, pr: PhaseTeardown, active: bool): ObservedPhase {
    ObservedPhase(
      pr.name,
      if active then TearingDown else Pending,
      None,
      ObjectCounts(|sp.objects|, |pr.waiting|, 0, 0),
      pr.waiting)
  }

  function TeardownObserver(active: string): Observer<PhaseTeardown> {
    Observer(
      (r: PhaseTeardown) => r.name,
      (r: PhaseTeardown) => r.complete,
      TeardownComplete,
      (total: nat) => ObjectCounts(total, 0, 0, 0),
      (sp: Phase, r: PhaseTeardown) => TearingDownPhase(sp, r, r.name == active))
  }

  function ObservedFromTeardown(spec: seq<Phase>, result: Option<TeardownResult>): seq<ObservedPhase> {
    match result
    case None => []
    case Some(r) => ObserveAll(spec, r.phases, TeardownObserver(r.active))
  }

  function TeardownUpdate(
      s: Status, spec: seq<Phase>, result: Option<TeardownResult>, failure: Failure, now: Time): Update {
    match failure
    case ResolutionError =>
      Update(if s.hash != "" then CondUnknown else CondFalse, InvalidRevision, None, None)
    case InternalError =>
      Update(CondUnknown, InternalFailure, Some([]), None)
    case OtherError =>
      Update(CondUnknown, TeardownFailure, Some(Preserved(s.phases, ObservedFromTeardown(spec, result), now)), None)
    case NoFailure =>
      Update(CondFalse, IsArchived, Some(Preserved(s.phases, ObservedFromTeardown(spec, result), now)), None)
  }

  method FromTeardown(
      cos: ClusterObjectSet, result: Option<TeardownResult>, failure: Failure, now: Time) returns (u: Update)
    ensures u == TeardownUpdate(cos.status, cos.phases, result, failure, now)
  {
    if failure.ResolutionError? {
      return Update(if cos.status.hash != "" then CondUnknown else CondFalse, InvalidRevision, None, None);
    }
    if failure.InternalError? {
      return Update(CondUnknown, InternalFailure, Some([]), None);
    }
    var observed := [];
    if result.Some? {
      observed := MapSpecPhases(cos.phases, result.value.phases, TeardownObserver(result.value.active));
    }
    var phases := PreservedPhases(cos.status.phases, observed, now);
    if failure.OtherError? {
      return Update(CondUnknown, TeardownFailure, Some(phases), None);
    }
    return Update(CondFalse, IsArchived, Some(phases), None);
  }
}
