/** internal/revision/engine.go: the three-pass reconcile of one revision (gated, drift, read-only)
    and the teardown of one revision. */
module RevisionEngine {
  import opened Api
  import opened Boxcutter
  import opened Sequences

  // ---------- The split of the phases the gated pass did not reach ----------

  /** The phases of `ps`, in order, whose names are not in `names`. */
  function Except(ps: seq<Phase>, names: set<string>): seq<Phase> {
    if ps == [] then []
    else (if ps[0].name in names then [] else [ps[0]]) + Except(ps[1..], names)
  }

  /** The length of the longest prefix of `ps` that is all in `completed`. */
  function CompletedRun(ps: seq<Phase>, completed: set<string>): (r: nat)
    ensures r <= |ps|
  {
    if ps != [] && ps[0].name in completed then 1 + CompletedRun(ps[1..], completed) else 0
  }

  /** How many of the remaining phases are written: the completed run and one phase more, but none
      when the run is empty. */
  function DriftLength(rest: seq<Phase>, completed: set<string>): (d: nat)
    ensures d <= |rest|
  {
    var run := CompletedRun(rest, completed);
    if 0 < run < |rest| then run + 1 else run
  }

  function DriftPhases(rest: seq<Phase>, completed: set<string>): seq<Phase> {
    rest[..DriftLength(rest, completed)]
  }

  /** What the code reports as read-only: everything after the written phases, less any later phase
      that repeats the name of the phase at which the completed run ends. */
  function ReadOnlyPhases(rest: seq<Phase>, completed: set<string>): seq<Phase> {
    var run := CompletedRun(rest, completed);
    if run == |rest| then []
    else (if run == 0 then [rest[0]] else []) + Except(rest[run + 1..], {rest[run].name})
  }

  function After(ps: seq<Phase>, gated: set<string>, name: string): seq<Phase> {
    if ps == [] then []
    else if ps[0].name == name then Except(ps[1..], gated + {name})
    else After(ps[1..], gated, name)
  }

  lemma {:induction false} ExceptConcat(a: seq<Phase>, b: seq<Phase>, names: set<string>)
    ensures Except(a + b, names) == Except(a, names) + Except(b, names)
  {
    if a == [] {
      assert a + b == b;
    } else {
      var first := if a[0].name in names then [] else [a[0]];
      assert (a + b)[0] == a[0] && (a + b)[1..] == a[1..] + b;
      calc {
        Except(a + b, names);
        first + Except(a[1..] + b, names);
        { ExceptConcat(a[1..], b, names); }
        first + (Except(a[1..], names) + Except(b, names));
        { Associates(first, Except(a[1..], names), Except(b, names)); }
        Except(a, names) + Except(b, names);
      }
    }
  }

  lemma {:induction false} ExceptTwice(ps: seq<Phase>, a: set<string>, b: set<string>)
    ensures Except(Except(ps, a), b) == Except(ps, a + b)
  {
    if ps == [] {
    } else {
      ExceptTwice(ps[1..], a, b);
      var first := if ps[0].name in a then [] else [ps[0]];
      ExceptConcat(first, Except(ps[1..], a), b);
      assert Except(first, b) == if ps[0].name in a + b then [] else [ps[0]] by {
        if first != [] {
          assert first[1..] == [];
        }
      }
    }
  }

  lemma {:induction false} ExceptNothing(ps: seq<Phase>, names: set<string>)
    requires forall k :: 0 <= k < |ps| ==> ps[k].name !in names
    ensures Except(ps, names) == ps
  {
    if ps == [] {
    } else {
      ExceptNothing(ps[1..], names);
    }
  }

  lemma {:induction false} AfterAtFirst(ps: seq<Phase>, gated: set<string>, f: nat)
    requires f < |ps|
    requires forall i :: 0 <= i < f ==> ps[i].name != ps[f].name
    ensures After(ps, gated, ps[f].name) == Except(ps[f + 1..], gated + {ps[f].name})
  {
    if f == 0 {
    } else {
      AfterAtFirst(ps[1..], gated, f - 1);
      assert ps[1..][f..] == ps[f + 1..];
    }
  }

  lemma {:induction false} CompletedRunAt(a: seq<Phase>, b: seq<Phase>, completed: set<string>)
    requires forall k :: 0 <= k < |a| ==> a[k].name in completed
    requires b != [] ==> b[0].name !in completed
    ensures CompletedRun(a + b, completed) == |a|
  {
    if a == [] {
      assert a + b == b;
    } else {
      assert (a + b)[1..] == a[1..] + b;
      CompletedRunAt(a[1..], b, completed);
    }
  }

  /** phasesAfter. */
  method PhasesAfter(ps: seq<Phase>, gated: set<string>, afterName: string) returns (result: seq<Phase>)
    ensures result == After(ps, gated, afterName)
  {
    result := [];
    var found := false;
    var i := 0;
    while i < |ps|
      invariant i <= |ps|
      invariant After(ps, gated, afterName) ==
                if found then result + Except(ps[i..], gated + {afterName})
                else After(ps[i..], gated, afterName)
      invariant !found ==> result == []
    {
      var phase := ps[i];
      assert ps[i..][1..] == ps[i + 1..];
      i := i + 1;
      if phase.name == afterName {
        found := true;
        continue;
      }
      if !found {
        continue;
      }
      if phase.name in gated {
        continue;
      }
      result := result + [phase];
    }
  }

  lemma {:induction false} ExceptStep(ps: seq<Phase>, i: nat, names: set<string>)
    requires i < |ps|
    ensures Except(ps[i..], names) == (if ps[i].name in names then [] else [ps[i]]) + Except(ps[i + 1..], names)
  {
    Cons(ps, i);
  }

  /** What splitPhases knows before position `i`: `drift` holds the phases seen so far that the gated
      pass did not reach, and all of them were completed before. */
  ghost predicate AllDriftSoFar(ps: seq<Phase>, gated: set<string>, completed: set<string>, i: nat, drift: seq<Phase>)
    requires i <= |ps|
  {
    && Except(ps, gated) == drift + Except(ps[i..], gated)
    && (forall k :: 0 <= k < |drift| ==> drift[k].name in completed)
    && (forall k :: 0 <= k < i ==> ps[k].name in gated || ps[k].name in completed)
  }

  lemma {:induction false} DriftStart(ps: seq<Phase>, gated: set<string>, completed: set<string>)
    ensures AllDriftSoFar(ps, gated, completed, 0, [])
  {
    assert ps[0..] == ps;
  }

  lemma {:induction false} DriftStep(
      ps: seq<Phase>, gated: set<string>, completed: set<string>, i: nat, drift: seq<Phase>)
    requires i < |ps| && AllDriftSoFar(ps, gated, completed, i, drift)
    ensures ps[i].name in gated ==> AllDriftSoFar(ps, gated, completed, i + 1, drift)
    ensures ps[i].name !in gated && ps[i].name in completed ==>
              AllDriftSoFar(ps, gated, completed, i + 1, drift + [ps[i]])
  {
    ExceptStep(ps, i, gated);
    Associates(drift, [ps[i]], Except(ps[i + 1..], gated));
  }

  /** The first phase that is neither gated nor completed is where the completed run ends, and the
      phases after its name are those after its position. */
  lemma {:induction false} CutAt(ps: seq<Phase>, gated: set<string>, completed: set<string>, i: nat, drift: seq<Phase>)
    requires i < |ps| && ps[i].name !in gated && ps[i].name !in completed
    requires AllDriftSoFar(ps, gated, completed, i, drift)
    ensures var rest := Except(ps, gated);
            && DriftPhases(rest, completed) == (if drift == [] then [] else drift + [ps[i]])
            && ReadOnlyPhases(rest, completed)
               == (if drift == [] then [ps[i]] else []) + After(ps, gated, ps[i].name)
  {
    var rest := Except(ps, gated);
    var tail := Except(ps[i + 1..], gated);
    ExceptStep(ps, i, gated);
    CompletedRunAt(drift, [ps[i]] + tail, completed);
    assert rest[|drift| + 1..] == tail;
    assert rest[..|drift| + 1] == drift + [ps[i]];
    ExceptTwice(ps[i + 1..], gated, {ps[i].name});
    AfterAtFirst(ps, gated, i);
  }

  lemma {:induction false} NoCut(ps: seq<Phase>, gated: set<string>, completed: set<string>, drift: seq<Phase>)
    requires AllDriftSoFar(ps, gated, completed, |ps|, drift)
    ensures DriftPhases(Except(ps, gated), completed) == drift
    ensures ReadOnlyPhases(Except(ps, gated), completed) == []
  {
    CompletedRunAt(drift, [], completed);
    assert drift + [] == drift;
  }

  /** splitPhases, for any phase list, even one that repeats names. */
  method SplitPhases(ps: seq<Phase>, gated: set<string>, completed: set<string>)
    returns (drift: seq<Phase>, readOnly: seq<Phase>)
    ensures drift == DriftPhases(Except(ps, gated), completed)
    ensures readOnly == ReadOnlyPhases(Except(ps, gated), completed)
  {
    hide AllDriftSoFar, DriftPhases, ReadOnlyPhases, After, Except;
    drift, readOnly := [], [];
    var sawCompleted := false;
    DriftStart(ps, gated, completed);
    for i := 0 to |ps|
      invariant readOnly == []
      invariant sawCompleted <==> drift != []
      invariant AllDriftSoFar(ps, gated, completed, i, drift)
    {
      var phase := ps[i];
      DriftStep(ps, gated, completed, i, drift);
      if phase.name in gated {
        continue;
      }
      var isCompleted := phase.name in completed;
      if !isCompleted {
        CutAt(ps, gated, completed, i, drift);
      }
      if !isCompleted && !sawCompleted {
        readOnly := readOnly + [phase];
        var later := PhasesAfter(ps, gated, phase.name);
        readOnly := readOnly + later;
        return;
      }
      sawCompleted := true;
      drift := drift + [phase];
      if !isCompleted {
        var later := PhasesAfter(ps, gated, phase.name);
        readOnly := readOnly + later;
        return;
      }
    }
    NoCut(ps, gated, completed, drift);
  }

  lemma {:induction false} ReadOnlyAt(rest: seq<Phase>, completed: set<string>)
    requires CompletedRun(rest, completed) < |rest|
    ensures var run, d := CompletedRun(rest, completed), DriftLength(rest, completed);
            && d <= run + 1
            && ReadOnlyPhases(rest, completed)
               == rest[d..run + 1] + Except(rest[run + 1..], {rest[run].name})
  {
    hide CompletedRun, Except;
    if CompletedRun(rest, completed) == 0 {
      assert rest[0..1] == [rest[0]];
    }
  }

  predicate NoneNamed(ps: seq<Phase>, names: set<string>) {
    forall k :: 0 <= k < |ps| ==> ps[k].name !in names
  }

  /** For any phase list: nothing is lost exactly when the phase that ends the completed run shares
      its name with no later phase. */
  lemma {:induction false} SplitLosesNothingIff(rest: seq<Phase>, completed: set<string>)
    ensures var run := CompletedRun(rest, completed);
            DriftPhases(rest, completed) + ReadOnlyPhases(rest, completed) == rest
            <==> (run < |rest| ==> NoneNamed(rest[run + 1..], {rest[run].name}))
  {
    hide CompletedRun, Except, NoneNamed;
    var run := CompletedRun(rest, completed);
    if run < |rest| {
      var d, cut := DriftLength(rest, completed), {rest[run].name};
      ReadOnlyAt(rest, completed);
      Regroup(rest, d, run + 1, Except(rest[run + 1..], cut));
      ExceptAllIff(rest[run + 1..], cut);
    } else {
      Whole(rest);
      assert rest + [] == rest;
    }
  }

  /** With distinct names the two groups are exactly the remaining phases, cut in two. */
  lemma {:induction false} SplitIsACut(rest: seq<Phase>, completed: set<string>)
    requires Distinct(rest)
    ensures ReadOnlyPhases(rest, completed) == rest[DriftLength(rest, completed)..]
    ensures DriftPhases(rest, completed) + ReadOnlyPhases(rest, completed) == rest
  {
    hide CompletedRun, Except;
    var run, d := CompletedRun(rest, completed), DriftLength(rest, completed);
    if run < |rest| {
      ExceptAllIff(rest[run + 1..], {rest[run].name});
    }
    SplitLosesNothingIff(rest, completed);
    ConcatInjective(rest[..d], ReadOnlyPhases(rest, completed), rest[d..]);
    TakeDrop(rest, d);
  }

  lemma {:induction false} Regroup<T>(s: seq<T>, i: nat, j: nat, tail: seq<T>)
    requires i <= j <= |s|
    ensures s[..i] + (s[i..j] + tail) == s <==> tail == s[j..]
  {
    Associates(s[..i], s[i..j], tail);
    assert s[..i] + s[i..j] == s[..j];
    TakeDrop(s, j);
    ConcatInjective(s[..j], tail, s[j..]);
  }

  lemma {:induction false} ConcatInjective<T>(a: seq<T>, b: seq<T>, c: seq<T>)
    ensures a + b == a + c <==> b == c
  {
    if a + b == a + c {
      assert b == (a + b)[|a|..] == (a + c)[|a|..] == c;
    }
  }

  lemma {:induction false} ExceptAllIff(ps: seq<Phase>, names: set<string>)
    ensures |Except(ps, names)| <= |ps|
    ensures Except(ps, names) == ps <==> NoneNamed(ps, names)
  {
    if ps == [] {
    } else {
      ExceptAllIff(ps[1..], names);
      Cons(ps, 0);
      if ps[0].name !in names {
        ConcatInjective([ps[0]], Except(ps[1..], names), ps[1..]);
        assert NoneNamed(ps, names) <==> NoneNamed(ps[1..], names);
      }
    }
  }

  /** The input that shows it: three phases of which the first and the last share a name, whatever their
      objects. */
  lemma {:induction false} SplitLosesRepeatedPhase(a: seq<PhaseObject>, b: seq<PhaseObject>, c: seq<PhaseObject>)
    ensures var rest := [Phase("a", a), Phase("b", b), Phase("a", c)];
            DriftPhases(rest, {}) + ReadOnlyPhases(rest, {}) != rest
  {
    var rest := [Phase("a", a), Phase("b", b), Phase("a", c)];
    SplitLosesNothingIff(rest, {});
    assert CompletedRun(rest, {}) == 0 && rest[1..][1].name == rest[0].name;
  }

  /** When the gated pass reached a prefix, the remaining phases are the suffix. */
  lemma {:induction false} ExceptPrefix(ps: seq<Phase>, g: nat)
    requires g <= |ps| && Distinct(ps)
    ensures Except(ps, NameSet(ps[..g])) == ps[g..]
  {
    var names := NameSet(ps[..g]);
    TakeDrop(ps, g);
    ExceptConcat(ps[..g], ps[g..], names);
    forall k | 0 <= k < |ps[g..]| ensures ps[g..][k].name !in names {
      assert forall p :: p in ps[..g] ==> exists i :: 0 <= i < g && ps[i] == p;
    }
    ExceptNothing(ps[g..], names);
    forall k | 0 <= k < g ensures ps[..g][k].name in names {
      assert ps[..g][k] in ps[..g];
    }
    ExceptAll(ps[..g], names);
  }

  lemma {:induction false} ExceptAll(ps: seq<Phase>, names: set<string>)
    requires forall k :: 0 <= k < |ps| ==> ps[k].name in names
    ensures Except(ps, names) == []
  {
    if ps == [] {
    } else {
      ExceptAll(ps[1..], names);
    }
  }

  // ---------- Reconcile ----------

  /** The drift or read-only loop: reconcile the phases one by one until a call fails. */
  datatype Sweep = Sweep(results: seq<PhaseResult>, calls: seq<Call>, failed: bool)

  function SweepOf(ps: seq<Phase>, paused: bool, answer: (string, bool) -> PhaseOutcome): Sweep {
    if ps == [] then Sweep([], [], false)
    else
      var o := answer(ps[0].name, paused);
      var results := if o.result.Some? then [o.result.value] else [];
      var call := CallOf(ps[0].name, paused, o);
      if o.failed then Sweep(results, [call], true)
      else
        var s := SweepOf(ps[1..], paused, answer);
        Sweep(results + s.results, [call] + s.calls, s.failed)
  }

  /** The calls made before position `i` returned `results` and none of them failed. */
  ghost predicate SweptSoFar(ps: seq<Phase>, paused: bool, answer: (string, bool) -> PhaseOutcome, i: nat,
                             results: seq<PhaseResult>, calls: seq<Call>)
    requires i <= |ps|
  {
    var all, rest := SweepOf(ps, paused, answer), SweepOf(ps[i..], paused, answer);
    all.results == results + rest.results && all.calls == calls + rest.calls && all.failed == rest.failed
  }

  lemma {:induction false} SweepStep(ps: seq<Phase>, paused: bool, answer: (string, bool) -> PhaseOutcome, i: nat,
                  results: seq<PhaseResult>, calls: seq<Call>)
    requires i < |ps| && SweptSoFar(ps, paused, answer, i, results, calls)
    ensures var o := answer(ps[i].name, paused);
            var results' := if o.result.Some? then results + [o.result.value] else results;
            var calls' := calls + [CallOf(ps[i].name, paused, o)];
            if o.failed then SweepOf(ps, paused, answer) == Sweep(results', calls', true)
            else SweptSoFar(ps, paused, answer, i + 1, results', calls')
  {
    Cons(ps, i);
    var o := answer(ps[i].name, paused);
    var got := if o.result.Some? then [o.result.value] else [];
    var rest := SweepOf(ps[i + 1..], paused, answer);
    Associates(results, got, rest.results);
    Associates(calls, [CallOf(ps[i].name, paused, o)], rest.calls);
  }

  /** What Engine.Reconcile returns: boxcutter's own result, or the Result that wraps it. */
  datatype EngineResult =
    | Bare(gated: RevisionResult)
    | Wrapped(gated: RevisionResult, drift: seq<PhaseResult>, readOnly: seq<PhaseResult>)
  {
    function GetPhases(): seq<PhaseResult> {
      match this
      case Bare(g) => g.phases
      case Wrapped(g, d, r) => g.phases + d + r
    }

    predicate IsComplete() {
      gated.complete && (Wrapped? ==> forall r <- drift :: r.complete)
    }

    predicate HasProgressed() {
      gated.progressed
    }

    function Invalid(): Option<seq<PhaseValidation>> {
      gated.invalid
    }
  }

  datatype EngineOutcome = EngineOutcome(result: Option<EngineResult>, failed: bool, calls: seq<Call>)

  function CompletedNames(ops: seq<ObservedPhase>): set<string> {
    set op | op in ops && op.completedAt.Some? :: op.name
  }

  function ResultNames(rs: seq<PhaseResult>): set<string> {
    set r | r in rs :: r.name
  }

  function Reconciled(ps: seq<Phase>, existing: seq<ObservedPhase>, a: Answers): EngineOutcome {
    var g := a.gated;
    var calls := GatedCalls(g.reached);
    if g.failed || g.result.None? then
      EngineOutcome(if g.result.Some? then Some(Bare(g.result.value)) else None, g.failed, calls)
    else if !Ordinary(g.result.value) then
      EngineOutcome(Some(Bare(g.result.value)), false, calls)
    else
      var rest := Except(ps, ResultNames(g.result.value.phases));
      var drift := SweepOf(DriftPhases(rest, CompletedNames(existing)), false, a.phase);
      var readOnly :=
        if drift.failed then Sweep([], [], false)
        else SweepOf(ReadOnlyPhases(rest, CompletedNames(existing)), true, a.phase);
      EngineOutcome(
        Some(Wrapped(g.result.value, drift.results, readOnly.results)),
        drift.failed,
        calls + drift.calls + readOnly.calls)
  }

  /** boxcutter as this engine calls it: it answers and keeps a log of the phases it reconciled. */
  class Machinery {
    const answers: Answers
    var calls: seq<Call>

    constructor (answers: Answers)
      ensures this.answers == answers && calls == []
    {
      this.answers := answers;
      calls := [];
    }

    method ReconcileRevision() returns (result: Option<RevisionResult>, failed: bool)
      modifies this`calls
      ensures result == answers.gated.result && failed == answers.gated.failed
      ensures calls == old(calls) + GatedCalls(answers.gated.reached)
    {
      calls := calls + GatedCalls(answers.gated.reached);
      result, failed := answers.gated.result, answers.gated.failed;
    }

    method ReconcilePhase(phase: Phase, paused: bool) returns (o: PhaseOutcome)
      modifies this`calls
      ensures o == answers.phase(phase.name, paused)
      ensures calls == old(calls) + [CallOf(phase.name, paused, o)]
    {
      o := answers.phase(phase.name, paused);
      calls := calls + [CallOf(phase.name, paused, o)];
    }
  }

  class Engine {
    const existing: seq<ObservedPhase>
    const machinery: Machinery

    constructor (existing: seq<ObservedPhase>, machinery: Machinery)
      ensures this.existing == existing && this.machinery == machinery
    {
      this.existing := existing;
      this.machinery := machinery;
    }

    method CompletedPhaseNames() returns (m: set<string>)
      ensures m == CompletedNames(existing)
    {
      m := {};
      for i := 0 to |existing|
        invariant m == CompletedNames(existing[..i])
      {
        if existing[i].completedAt.Some? {
          m := m + {existing[i].name};
        }
        assert existing[..i + 1] == existing[..i] + [existing[i]];
      }
      assert existing[..|existing|] == existing;
    }

    method ReconcileEach(ps: seq<Phase>, paused: bool) returns (results: seq<PhaseResult>, failed: bool)
      modifies machinery`calls
      ensures var s := SweepOf(ps, paused, machinery.answers.phase);
              results == s.results && failed == s.failed && machinery.calls == old(machinery.calls) + s.calls
    {
      results, failed := [], false;
      ghost var answer, before, done := machinery.answers.phase, machinery.calls, [];
      for i := 0 to |ps|
        invariant !failed
        invariant machinery.calls == before + done
        invariant SweptSoFar(ps, paused, answer, i, results, done)
      {
        SweepStep(ps, paused, answer, i, results, done);
        Associates(before, done, [CallOf(ps[i].name, paused, answer(ps[i].name, paused))]);
        var o := machinery.ReconcilePhase(ps[i], paused);
        if o.result.Some? {
          results := results + [o.result.value];
        }
        done := done + [CallOf(ps[i].name, paused, o)];
        if o.failed {
          failed := true;
          return;
        }
      }
      assert ps[|ps|..] == [];
    }

    static method GatedPhaseNames(rs: seq<PhaseResult>) returns (names: set<string>)
      ensures names == ResultNames(rs)
    {
      names := {};
      for i := 0 to |rs|
        invariant names == ResultNames(rs[..i])
      {
        names := names + {rs[i].name};
        Snoc(rs, i);
      }
      Whole(rs);
    }

    /** Engine.Reconcile. */
    method Reconcile(ps: seq<Phase>) returns (result: Option<EngineResult>, failed: bool)
      modifies machinery`calls
      ensures var o := Reconciled(ps, existing, machinery.answers);
              result == o.result && failed == o.failed && machinery.calls == old(machinery.calls) + o.calls
    {
      var gated, gatedFailed := machinery.ReconcileRevision();
      if gatedFailed || gated.None? {
        return (if gated.Some? then Some(Bare(gated.value)) else None), gatedFailed;
      }
      if gated.value.invalid.Some? || gated.value.progressed {
        return Some(Bare(gated.value)), false;
      }

      var gatedNames := GatedPhaseNames(gated.value.phases);
      var completed := CompletedPhaseNames();
      var driftPhases, readOnlyPhases := SplitPhases(ps, gatedNames, completed);
      ghost var driftSweep := SweepOf(driftPhases, false, machinery.answers.phase);
      ghost var readOnlySweep := SweepOf(readOnlyPhases, true, machinery.answers.phase);
      Joined(old(machinery.calls), GatedCalls(machinery.answers.gated.reached), driftSweep.calls, readOnlySweep.calls);
      var drift, driftFailed := ReconcileEach(driftPhases, false);
      var readOnly := [];
      if !driftFailed {
        var readOnlyFailed;
        readOnly, readOnlyFailed := ReconcileEach(readOnlyPhases, true);
      }
      return Some(Wrapped(gated.value, drift, readOnly)), driftFailed;
    }
  }

  // ---------- Teardown ----------

  /** What the reader still finds of a phase's objects. */
  function Present(objects: seq<PhaseObject>, read: PhaseObject -> Option<string>): (r: seq<string>)
    ensures |r| <= |objects|
  {
    if objects == [] then []
    else (var o := read(objects[0]); if o.Some? then [o.value] else []) + Present(objects[1..], read)
  }

  function ReadOnlyTeardowns(
      ps: seq<Phase>, waiting: set<string>, read: PhaseObject -> Option<string>): seq<PhaseTeardown> {
    if ps == [] then []
    else
      (if ps[0].name in waiting then [PhaseTeardown(ps[0].name, false, Present(ps[0].objects, read))] else [])
      + ReadOnlyTeardowns(ps[1..], waiting, read)
  }

  function WithReadOnly(ps: seq<Phase>, o: TeardownOutcome, read: PhaseObject -> Option<string>): TeardownOutcome {
    if o.failed || o.result.None? || o.result.value.waiting == [] then o
    else
      var r := o.result.value;
      var waiting := set name | name in r.waiting;
      o.(result := Some(r.(phases := r.phases + ReadOnlyTeardowns(ps, waiting, read), waiting := [])))
  }

  /** Engine.Teardown, given what boxcutter's teardown returned. */
  method Teardown(ps: seq<Phase>, o: TeardownOutcome, read: PhaseObject -> Option<string>) returns (r: TeardownOutcome)
    ensures r == WithReadOnly(ps, o, read)
  {
    if o.failed || o.result.None? || |o.result.value.waiting| == 0 {
      return o;
    }
    var names := o.result.value.waiting;
    var waitingNames := {};
    for i := 0 to |names|
      invariant waitingNames == set name | name in names[..i]
    {
      waitingNames := waitingNames + {names[i]};
      Snoc(names, i);
    }
    Whole(names);

    var readOnly := [];
    for i := 0 to |ps|
      invariant ReadOnlyTeardowns(ps, waitingNames, read) == readOnly + ReadOnlyTeardowns(ps[i..], waitingNames, read)
    {
      Cons(ps, i);
      if ps[i].name !in waitingNames {
        continue;
      }
      var present := PresentObjects(ps[i].objects, read);
      var entry := PhaseTeardown(ps[i].name, false, present);
      Associates(readOnly, [entry], ReadOnlyTeardowns(ps[i + 1..], waitingNames, read));
      readOnly := readOnly + [entry];
    }
    assert ps[|ps|..] == [];
    assert readOnly + [] == readOnly;
    var result := o.result.value;
    return o.(result := Some(result.(phases := result.phases + readOnly, waiting := [])));
  }

  method PresentObjects(objects: seq<PhaseObject>, read: PhaseObject -> Option<string>) returns (present: seq<string>)
    ensures present == Present(objects, read)
  {
    present := [];
    for i := 0 to |objects|
      invariant Present(objects, read) == present + Present(objects[i..], read)
    {
      Cons(objects, i);
      var o := read(objects[i]);
      if o.Some? {
        Associates(present, [o.value], Present(objects[i + 1..], read));
        present := present + [o.value];
      }
    }
    assert objects[|objects|..] == [];
  }
}
