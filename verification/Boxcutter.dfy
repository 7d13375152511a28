/** What the controllers rely on from boxcutter, the library that applies and deletes the objects
    of one phase or one revision.  Its code is not part of this model: its answers are inputs, and
    the predicates below say which answers it may give. */
module Boxcutter {
  import opened Api

  datatype Action = Created | Updated | Recovered | Progressed | Idle | Collision

  datatype ObjectResult = ObjectResult(id: string, paused: bool, action: Action, complete: bool)

  datatype PhaseValidation = PhaseValidation(phase: string, objects: seq<string>)

  datatype PhaseResult = PhaseResult(
    name: string,
    complete: bool,
    objects: seq<ObjectResult>,
    invalid: Option<PhaseValidation>)

  datatype RevisionResult = RevisionResult(
    phases: seq<PhaseResult>,
    invalid: Option<seq<PhaseValidation>>,
    progressed: bool,
    complete: bool)

  /** One reconcile of one phase; `paused` means that nothing was written. */
  datatype Call = Call(phase: string, paused: bool, complete: bool)

  /** The answer of one phase reconcile. */
  datatype PhaseOutcome = PhaseOutcome(result: Option<PhaseResult>, failed: bool)

  /** The answer of one gated revision reconcile.  `reached` lists the phases it reconciled, in
      order and unpaused, whether or not they made it into the result it returned. */
  datatype GatedOutcome = GatedOutcome(
    reached: seq<PhaseResult>,
    result: Option<RevisionResult>,
    failed: bool)

  /** Everything boxcutter answers during one reconcile of one revision. */
  datatype Answers = Answers(gated: GatedOutcome, phase: (string, bool) -> PhaseOutcome)

  function CallOf(name: string, paused: bool, o: PhaseOutcome): Call {
    Call(name, paused, o.result.Some? && o.result.value.complete)
  }

  function GatedCalls(reached: seq<PhaseResult>): seq<Call> {
    seq(|reached|, i requires 0 <= i < |reached| => Call(reached[i].name, false, reached[i].complete))
  }

  /** No validation error, and not everything handed over to a newer revision. */
  predicate Ordinary(r: RevisionResult) {
    r.invalid.None? && !r.progressed
  }

  /** A walk over the phases in order that went on only from complete ones. */
  ghost predicate GatedWalk(ps: seq<Phase>, reached: seq<PhaseResult>) {
    && |reached| <= |ps|
    && (forall i :: 0 <= i < |reached| ==> reached[i].name == ps[i].name)
    && (forall i :: 0 <= i < |reached| - 1 ==> reached[i].complete)
  }

  /** The gated rollout walks the phases in order and stops at the first incomplete one. */
  ghost predicate GatedContract(ps: seq<Phase>, g: GatedOutcome) {
    && GatedWalk(ps, g.reached)
    && (!g.failed ==> g.result.Some?)
    && (g.result.Some? ==> g.result.value.phases <= g.reached)
    && (!g.failed && Ordinary(g.result.value) ==>
          && g.result.value.phases == g.reached
          && (g.result.value.complete ==>
                |g.reached| == |ps| && forall r <- g.reached :: r.complete)
          && (!g.result.value.complete ==>
                g.reached != [] && !g.reached[|g.reached| - 1].complete))
  }

  /** A phase reconcile answers for the phase it was asked about, and has a result unless it
      failed.  A paused one can only find a phase complete that this revision wrote before:
      objects of other writers do not count as complete. */
  ghost predicate PhaseContract(written: set<string>, answer: (string, bool) -> PhaseOutcome) {
    forall name, paused ::
      var o := answer(name, paused);
      && (!o.failed ==> o.result.Some?)
      && (o.result.Some? ==> o.result.value.name == name)
      && (paused && o.result.Some? && o.result.value.complete ==> name in written)
  }

  ghost predicate Contract(ps: seq<Phase>, written: set<string>, a: Answers) {
    GatedContract(ps, a.gated) && PhaseContract(written, a.phase)
  }

  // ---------- Teardown ----------

  datatype PhaseTeardown = PhaseTeardown(name: string, complete: bool, waiting: seq<string>)

  /** `active` is "" when there is no active phase. */
  datatype TeardownResult = TeardownResult(
    phases: seq<PhaseTeardown>,
    active: string,
    waiting: seq<string>,
    complete: bool)

  datatype TeardownOutcome = TeardownOutcome(result: Option<TeardownResult>, failed: bool)

  /** Teardown walks the phases from the last to the first and stops at the first one whose objects
      are not all gone; the phases it did not reach are the waiting ones. */
  ghost predicate ReverseOrder(ps: seq<Phase>, r: TeardownResult) {
    var n, m := |ps|, |r.phases|;
    && m <= n
    && (forall k :: 0 <= k < m ==> r.phases[k].name == ps[n - 1 - k].name)
    && (forall k :: 0 <= k < m ==> |r.phases[k].waiting| <= |ps[n - 1 - k].objects|)
    && (forall k :: 0 <= k < m - 1 ==> r.phases[k].complete)
    && (r.complete ==> m == n && forall p <- r.phases :: p.complete)
    && (!r.complete ==> m > 0 && !r.phases[m - 1].complete && r.active == r.phases[m - 1].name)
    && |r.waiting| == n - m && (forall name :: name in r.waiting <==> name in NameSet(ps[..n - m]))
  }

  ghost predicate TeardownContract(ps: seq<Phase>, o: TeardownOutcome) {
    && (!o.failed ==> o.result.Some? && ReverseOrder(ps, o.result.value))
  }
}
