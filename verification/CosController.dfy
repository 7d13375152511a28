/** internal/controller/cos/controller.go: one reconcile of one ClusterObjectSet against the API
    server, reading through a cache that may lag. */
module CosController {
  import opened Api
  import opened Boxcutter
  import opened RevisionEngine
  import opened CosStatus
  import opened Resolver

  /** One stored version of the object. */
  datatype Snapshot = Snapshot(meta: Meta, status: Status)

  /** A run of the engine on resolved contents: the hash the controller's copy showed before it, the
      phases it reconciled, and whether the status write of its pass was accepted. */
  datatype EngineRun = EngineRun(pinned: string, contents: seq<Bytes>, calls: seq<Call>, recorded: bool)

  /** What never changes for one ClusterObjectSet: its immutable spec, SHA-256 and the JSON decoder. */
  datatype Config = Config(
    phases: seq<Phase>,
    generation: int,
    digest: Bytes -> string,
    parses: Bytes -> bool)

  /** What the controller has done so far:
      - `calls`: the phases reconciled, in order
      - `live`: phases of which objects were written and not reported torn down since
      - `runs`: the runs of the engine
      - `retired`: an archived or deleting version was acted on
      - `released`, `orphaned`: the finalizer was removed, and removed without a teardown */
  datatype History = History(
    calls: seq<Call>,
    live: set<string>,
    runs: seq<EngineRun>,
    retired: bool,
    released: bool,
    orphaned: bool)

  const NO_HISTORY := History([], {}, [], false, false, false)

  /** The API server's versions of the object, of which the last is current and `gone` when it was
      removed; the version the cache shows; and the history. */
  datatype World = World(
    config: Config,
    versions: seq<Snapshot>,
    gone: bool,
    seen: nat,
    log: History)
  {
    ghost predicate Valid() {
      seen < |versions|
    }

    ghost function View(): Snapshot
      requires Valid()
    {
      versions[seen]
    }

    ghost function Current(): Snapshot
      requires Valid()
    {
      versions[|versions| - 1]
    }

    /** The fixed part is the same, and no stored version is lost. */
    ghost predicate ContinuedBy(w': World) {
      w'.Valid() && w'.config == config && versions <= w'.versions
    }

    ghost function Push(s: Snapshot): World {
      this.(versions := versions + [s])
    }
  }

  /** Everything a pass meets outside: the clock, which calls fail, the slices, boxcutter's answers and
      the objects that still exist. */
  datatype PassEnv = PassEnv(
    now: Time,
    siblingsFail: bool,
    finalizerFails: bool,
    sources: Sources,
    accessFails: bool,
    answers: Answers,
    identitiesFail: bool,
    teardown: TeardownOutcome,
    read: PhaseObject -> Option<string>,
    statusFails: bool,
    freeFails: bool,
    patchFails: bool,
    syncFails: bool)

  predicate Retired(m: Meta) {
    m.deleting || m.archived
  }

  function Written(calls: seq<Call>): set<string> {
    set c | c in calls && !c.paused :: c.phase
  }

  /** A gated reconcile that did not fail returned a result. */
  predicate Answered(e: PassEnv) {
    !e.answers.gated.failed ==> e.answers.gated.result.Some?
  }

  ghost predicate EnvOk(w: World, e: PassEnv) {
    && Contract(w.config.phases, Written(w.log.calls), e.answers)
    && TeardownContract(w.config.phases, e.teardown)
  }

  // ---------- The steps of a pass ----------

  /** What doReconcile returns, the hash it leaves in the controller's copy, and what it did. */
  datatype Attempt = Attempt(
    hash: string,
    result: Option<EngineResult>,
    failure: Failure,
    run: Option<EngineRun>)
  {
    function Calls(): seq<Call> {
      if run.Some? then run.value.calls else []
    }
  }

  /** The contents a pass resolves and their hash; None when an object cannot be resolved, or when the
      hash differs from the one pinned before. */
  function Pinned(c: Config, s: Status, src: Sources): Option<(string, seq<Bytes>)> {
    var contents := Contents(src, c.parses, AllObjects(c.phases));
    if contents.None? then None
    else
      var hash := c.digest(Concat(contents.value));
      if s.hash != "" && s.hash != hash then None else Some((hash, contents.value))
  }

  function AttemptOf(c: Config, s: Status, e: PassEnv): Attempt {
    var p := Pinned(c, s, e.sources);
    if p.None? then Attempt(s.hash, None, ResolutionError, None)
    else if e.accessFails then Attempt(p.value.0, None, InternalError, None)
    else
      var o := Reconciled(c.phases, s.phases, e.answers);
      var run := EngineRun(s.hash, p.value.1, o.calls, false);
      Attempt(p.value.0, o.result, if o.failed then OtherError else NoFailure, Some(run))
  }

  lemma {:induction false} AttemptHasResult(c: Config, s: Status, e: PassEnv)
    requires Answered(e)
    ensures var a := AttemptOf(c, s, e); a.failure.NoFailure? ==> a.result.Some?
  {
  }

  ghost function Acted(w: World, a: Attempt, recorded: bool): World {
    var h, runs := w.log, if a.run.Some? then [a.run.value.(recorded := recorded)] else [];
    w.(log := h.(calls := h.calls + a.Calls(), live := h.live + Written(a.Calls()), runs := h.runs + runs))
  }

  /** A status write succeeds only on the current version. */
  ghost predicate Accepted(w: World, basis: nat, fails: bool) {
    !fails && !w.gone && basis == |w.versions| - 1
  }

  ghost function StatusWritten(w: World, basis: nat, s: Status): World
    requires w.Valid()
  {
    w.Push(Snapshot(w.Current().meta, s))
  }

  ghost function FinalizerAdded(w: World, e: PassEnv): (w': World)
    requires w.Valid()
    ensures w.ContinuedBy(w')
  {
    var m := w.Current().meta;
    if e.finalizerFails || w.gone || m.deleting || m.finalizer then w
    else w.Push(w.Current().(meta := m.(finalizer := true)))
  }

  ghost function AfterAttempt(c: Config, s: Status, a: Attempt, now: Time): Status
    requires a.failure.NoFailure? ==> a.result.Some?
  {
    Applied(s.(hash := a.hash), c.generation, ReconcileUpdate(s.(hash := a.hash), c.phases, a.result, a.failure, now))
  }

  ghost function ActivePass(w: World, e: PassEnv): (w': World)
    requires w.Valid() && Answered(e)
    ensures w.ContinuedBy(w')
  {
    var s := w.View().status;
    if e.siblingsFail then w
    else if !w.View().meta.finalizer then FinalizerAdded(w, e)
    else
      var a := AttemptOf(w.config, s, e);
      AttemptHasResult(w.config, s, e);
      var next := AfterAttempt(w.config, s, a, e.now);
      if next != s && Accepted(w, w.seen, e.statusFails) then StatusWritten(Acted(w, a, true), w.seen, next)
      else Acted(w, a, false)
  }

  /** release: the patch that drops the finalizer is guarded by the version it is based on; when it
      goes through, the controller waits until the cache shows it. */
  ghost function Release(w: World, basis: nat, orphan: bool, e: PassEnv): (w': World)
    requires w.Valid()
    ensures w.ContinuedBy(w')
  {
    if e.freeFails || !Accepted(w, basis, e.patchFails) then w
    else
      var cur := w.Current();
      w.Push(cur.(meta := cur.meta.(finalizer := false))).(
        log := w.log.(released := true, orphaned := w.log.orphaned || orphan),
        seen := if e.syncFails then w.seen else |w.versions|)
  }

  datatype TeardownAttempt = TeardownAttempt(result: Option<TeardownResult>, failure: Failure)

  function TeardownAttemptOf(c: Config, e: PassEnv): TeardownAttempt {
    if e.identitiesFail then TeardownAttempt(None, ResolutionError)
    else if e.accessFails then TeardownAttempt(None, InternalError)
    else
      var o := WithReadOnly(c.phases, e.teardown, e.read);
      TeardownAttempt(o.result, if o.failed then OtherError else NoFailure)
  }

  /** The phases an error-free teardown reported complete. */
  function Gone(t: TeardownAttempt): set<string> {
    if t.failure.NoFailure? && t.result.Some? then set p | p in t.result.value.phases && p.complete :: p.name else {}
  }

  ghost function AfterTeardown(c: Config, s: Status, t: TeardownAttempt, now: Time): Status {
    Applied(s, c.generation, TeardownUpdate(s, c.phases, t.result, t.failure, now))
  }

  /** What follows the teardown itself: its outcome is reported, and if that worked and nothing is
      left, the finalizer goes. */
  ghost function AfterTornDown(w: World, t: TeardownAttempt, next: Status, e: PassEnv): (w': World)
    requires w.Valid()
    ensures w.ContinuedBy(w')
  {
    var w1 := w.(log := w.log.(live := w.log.live - Gone(t)));
    if next != w.View().status && !Accepted(w, w.seen, e.statusFails) then w1
    else
      var w2 := if next != w.View().status then StatusWritten(w1, w.seen, next) else w1;
      var basis := if next != w.View().status then |w2.versions| - 1 else w.seen;
      if !t.failure.NoFailure? || (t.result.Some? && !t.result.value.complete) then w2
      else Release(w2, basis, false, e)
  }

  ghost function TeardownPass(w: World, e: PassEnv): (w': World)
    requires w.Valid()
    ensures w.ContinuedBy(w')
  {
    var v, w0 := w.View(), w.(log := w.log.(retired := true));
    if !v.meta.finalizer then w0
    else if v.meta.deleting && v.meta.orphan then Release(w0, w.seen, true, e)
    else
      var t := TeardownAttemptOf(w.config, e);
      AfterTornDown(w0, t, AfterTeardown(w.config, v.status, t, e.now), e)
  }

  ghost function PassOf(w: World, e: PassEnv): (w': World)
    requires w.Valid() && Answered(e)
    ensures w.ContinuedBy(w')
  {
    if Retired(w.View().meta) then TeardownPass(w, e) else ActivePass(w, e)
  }

  // ---------- The controller ----------

  class Reconciler {
    const config: Config
    var versions: seq<Snapshot>
    var gone: bool
    var seen: nat
    ghost var log: History

    ghost function State(): World
      reads this
    {
      World(config, versions, gone, seen, log)
    }

    constructor (config: Config, first: Snapshot)
      ensures State() == World(config, [first], false, 0, NO_HISTORY)
    {
      this.config := config;
      versions, gone, seen := [first], false, 0;
      log := NO_HISTORY;
    }

    /** Reconcile: reads the cached object and acts on it. */
    method Reconcile(e: PassEnv)
      requires State().Valid() && Answered(e)
      modifies this
      ensures State() == PassOf(old(State()), e)
    {
      var cos := new ClusterObjectSet(config.phases, config.generation, versions[seen].meta, seen, versions[seen].status);
      if cos.meta.deleting || cos.meta.archived {
        Teardown(cos, e);
      } else {
        ReconcileActive(cos, e);
      }
    }

    ghost predicate Holds(cos: ClusterObjectSet)
      reads this, cos
    {
      && State().Valid() && cos.version == seen
      && cos.phases == config.phases && cos.generation == config.generation
      && cos.meta == versions[seen].meta && cos.status == versions[seen].status
    }

    method ReconcileActive(cos: ClusterObjectSet, e: PassEnv)
      requires Holds(cos) && Answered(e)
      modifies this, cos
      ensures State() == ActivePass(old(State()), e)
    {
      hide AttemptOf, Applied, ReconcileUpdate, FinalizerAdded;
      if e.siblingsFail {
        return;
      }
      if !cos.meta.finalizer {
        EnsureFinalizer(e);
        return;
      }
      var before := cos.status;
      ghost var runs := log.runs;
      AttemptHasResult(config, cos.status, e);
      var result, failure := DoReconcile(cos, e);
      var u := FromReconcile(cos, result, failure, e.now);
      Apply(cos, u);
      if before != cos.status {
        var ok := UpdateStatus(cos, e);
        if ok && |log.runs| > |runs| {
          log := log.(runs := runs + [log.runs[|runs|].(recorded := true)]);
        }
      }
    }

    /** doReconcile: resolves the contents, checks or pins their hash, and runs the engine. */
    method DoReconcile(cos: ClusterObjectSet, e: PassEnv) returns (result: Option<EngineResult>, failure: Failure)
      requires Holds(cos) && Answered(e)
      modifies cos`status, this`log
      ensures var a := AttemptOf(config, old(cos.status), e);
              && result == a.result && failure == a.failure
              && cos.status == old(cos.status).(hash := a.hash)
              && State() == Acted(old(State()), a, false)
    {
      hide Reconciled, Pinned;
      ghost var before := cos.status;
      var contents := ResolveAndVerify(cos, e.sources);
      if contents.None? {
        return None, ResolutionError;
      }
      if e.accessFails {
        return None, InternalError;
      }
      var failed;
      result, failed := RunEngine(cos.status.phases, e.answers, before.hash, contents.value);
      failure := if failed then OtherError else NoFailure;
    }

    method RunEngine(existing: seq<ObservedPhase>, answers: Answers, ghost pinned: string, ghost contents: seq<Bytes>)
      returns (result: Option<EngineResult>, failed: bool)
      modifies this`log
      ensures var o := Reconciled(config.phases, existing, answers);
              && result == o.result && failed == o.failed
              && log == old(log).(
                   calls := old(log.calls) + o.calls,
                   live := old(log.live) + Written(o.calls),
                   runs := old(log.runs) + [EngineRun(pinned, contents, o.calls, false)])
    {
      hide Reconciled;
      var machinery := new Machinery(answers);
      var engine := new Engine(existing, machinery);
      result, failed := engine.Reconcile(config.phases);
      assert machinery.calls == Reconciled(config.phases, existing, answers).calls;
      log := log.(
        calls := log.calls + machinery.calls,
        live := log.live + Written(machinery.calls),
        runs := log.runs + [EngineRun(pinned, contents, machinery.calls, false)]);
    }

    /** The resolve step: verifies the hash of the contents, or pins it if none was pinned. */
    method ResolveAndVerify(cos: ClusterObjectSet, src: Sources) returns (contents: Option<seq<Bytes>>)
      requires cos.phases == config.phases
      modifies cos`status
      ensures var p := Pinned(config, old(cos.status), src);
              if p.Some? then contents == Some(p.value.1) && cos.status == old(cos.status).(hash := p.value.0)
              else contents == None && cos.status == old(cos.status)
    {
      var resolved, hashed := Resolve(src, config.parses, config.phases);
      if resolved.None? {
        return None;
      }
      var hash := config.digest(hashed);
      if cos.status.hash != "" && cos.status.hash != hash {
        return None;
      }
      if cos.status.hash == "" {
        cos.status := cos.status.(hash := hash);
      }
      return resolved;
    }

    method EnsureFinalizer(e: PassEnv)
      requires State().Valid()
      modifies this`versions
      ensures State() == FinalizerAdded(old(State()), e)
    {
      var current := versions[|versions| - 1];
      if e.finalizerFails || gone || current.meta.deleting || current.meta.finalizer {
        return;
      }
      versions := versions + [current.(meta := current.meta.(finalizer := true))];
    }

    /** Status().Update: the server rejects a stale copy; on success the copy is the new version. */
    method UpdateStatus(cos: ClusterObjectSet, e: PassEnv) returns (ok: bool)
      requires State().Valid()
      modifies this`versions, cos`version
      ensures ok <==> old(Accepted(State(), cos.version, e.statusFails))
      ensures State() == if ok then old(StatusWritten(State(), cos.version, cos.status)) else old(State())
      ensures cos.version == if ok then |versions| - 1 else old(cos.version)
    {
      if e.statusFails || gone || cos.version != |versions| - 1 {
        return false;
      }
      versions := versions + [Snapshot(versions[|versions| - 1].meta, cos.status)];
      cos.version := |versions| - 1;
      return true;
    }

    method Teardown(cos: ClusterObjectSet, e: PassEnv)
      requires Holds(cos)
      modifies this, cos
      ensures State() == TeardownPass(old(State()), e)
    {
      hide TeardownAttemptOf, Applied, TeardownUpdate, Release, Gone;
      log := log.(retired := true);
      if !cos.meta.finalizer {
        return;
      }
      if cos.meta.deleting && cos.meta.orphan {
        ReleaseFinalizer(cos, true, e);
        return;
      }
      var before := cos.status;
      var result, failure := DoTeardown(e);
      var u := FromTeardown(cos, result, failure, e.now);
      Apply(cos, u);
      if before != cos.status {
        var ok := UpdateStatus(cos, e);
        if !ok {
          return;
        }
      }
      if !failure.NoFailure? {
        return;
      }
      if result.Some? && !result.value.complete {
        return;
      }
      ReleaseFinalizer(cos, false, e);
    }

    method DoTeardown(e: PassEnv) returns (result: Option<TeardownResult>, failure: Failure)
      modifies this`log
      ensures var t := TeardownAttemptOf(config, e);
              && result == t.result && failure == t.failure
              && log == old(log).(live := old(log.live) - Gone(t))
    {
      if e.identitiesFail {
        return None, ResolutionError;
      }
      if e.accessFails {
        return None, InternalError;
      }
      var o := RevisionEngine.Teardown(config.phases, e.teardown, e.read);
      result, failure := o.result, if o.failed then OtherError else NoFailure;
      log := log.(live := log.live - Gone(TeardownAttempt(result, failure)));
    }

    method ReleaseFinalizer(cos: ClusterObjectSet, orphan: bool, e: PassEnv)
      requires State().Valid()
      modifies this
      ensures State() == Release(old(State()), old(cos.version), orphan, e)
    {
      if e.freeFails {
        return;
      }
      if e.patchFails || gone || cos.version != |versions| - 1 {
        return;
      }
      var current := versions[|versions| - 1];
      versions := versions + [current.(meta := current.meta.(finalizer := false))];
      log := log.(released := true, orphaned := log.orphaned || orphan);
      if !e.syncFails {
        seen := |versions| - 1;
      }
    }
  }
}
