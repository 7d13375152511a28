/** All runs of both controllers on one group that starts empty: the revisions' numbers, which of them are
    archived and removed, what their own controllers did before, and where it all comes to rest. */
module CodRuns {
  import opened Api
  import opened Revisions
  import opened CodController
  import opened CodListing
  import opened CodEffects
  import opened CodConvergence
  import opened CodGroup
  import CosController
  import CosRuns
  import CosStatus
  import CosStored

  // ---------- A revision and its object ----------

  /** The object of a revision is where some run of its own controller got to, and the group's store shows
      its marks and its status. */
  ghost predicate LinkOk(w: Group, store: Store, n: nat) {
    && n in w.objects && w.objects[n].Valid()
    && (exists steps :: CosRuns.Reached(w.newborn(n), steps, w.objects[n]))
    && (n in store <==> !w.objects[n].gone)
    && (n in store ==> Shown(store[n], w.objects[n].Current()))
    && (w.objects[n].Current().meta.deleting ==> w.objects[n].Current().meta.archived)
  }

  predicate Shown(r: Revision, o: CosController.Snapshot) {
    r.status == o.status && r.archived == o.meta.archived && r.deleting == o.meta.deleting
  }

  ghost predicate Linked(w: Group)
    requires w.Valid()
  {
    && (forall n :: n in w.objects <==> 1 <= n <= |w.creations|)
    && (forall n :: n in w.objects ==> LinkOk(w, w.Current().store, n))
  }

  ghost predicate NewbornOk(w: Group) {
    forall n :: CosRuns.Initial(w.newborn(n))
      && w.newborn(n).versions[0].meta == CosStatus.Meta(false, false, false, false)
  }

  /** Nothing changed but what concerns one number, which is linked still. */
  lemma {:induction false} LinkedChange(w: Group, w': Group, n: nat)
    requires w.Valid() && Linked(w) && w'.Valid() && w'.newborn == w.newborn
    requires LinkOk(w', w'.Current().store, n)
    requires forall m :: m in w'.objects <==> 1 <= m <= |w'.creations|
    requires w'.objects - {n} == w.objects - {n} && w'.Current().store - {n} == w.Current().store - {n}
    ensures Linked(w')
  {
    forall m | m in w'.objects ensures LinkOk(w', w'.Current().store, m) {
      if m != n {
        OtherLink(w, w', n, m);
      }
    }
  }

  lemma {:induction false} OtherLink(w: Group, w': Group, n: nat, m: nat)
    requires w.Valid() && w'.Valid() && w'.newborn == w.newborn && m != n && m in w'.objects
    requires w'.objects - {n} == w.objects - {n} && w'.Current().store - {n} == w.Current().store - {n}
    requires m in w.objects ==> LinkOk(w, w.Current().store, m)
    ensures LinkOk(w', w'.Current().store, m)
  {
    hide CosRuns.Reached, Shown;
    assert m in w'.objects - {n} && (w'.objects - {n})[m] == (w.objects - {n})[m];
    assert w'.objects[m] == w.objects[m];
    assert m in w'.Current().store <==> m in w'.Current().store - {n};
    assert m in w.Current().store <==> m in w.Current().store - {n};
    assert m in w.Current().store ==> (w'.Current().store - {n})[m] == (w.Current().store - {n})[m];
  }

  /** One more step of an object. */
  lemma {:induction false} ObjectStep(first: CosController.World, o: CosController.World, s: CosRuns.Step)
    requires exists steps :: CosRuns.Reached(first, steps, o)
    requires o.Valid() && CosRuns.StepOk(o, s)
    ensures exists steps :: CosRuns.Reached(first, steps, CosRuns.Next(o, s))
  {
    hide CosRuns.Reached, CosRuns.Next, CosRuns.StepOk;
    var steps :| CosRuns.Reached(first, steps, o);
    CosRuns.ReachedNext(first, steps, o, s);
  }

  /** A step that is not the deployment's keeps the marks that the deployment sets. */
  lemma {:induction false} StepKeepsMarks(o: CosController.World, s: CosRuns.Step)
    requires o.Valid() && CosRuns.StepOk(o, s) && !s.Archive? && !s.Delete? && !s.Vanish?
    ensures var o' := CosRuns.Next(o, s);
            && o'.gone == o.gone
            && o'.Current().meta.archived == o.Current().meta.archived
            && o'.Current().meta.deleting == o.Current().meta.deleting
  {
    hide CosController.PassOf;
    if s.Pass? {
      CosRuns.PassKeepsMarks(o, s.env);
    }
  }

  lemma {:induction false} SteppedLinked(w: Group, n: nat, s: CosRuns.Step, store: Store)
    requires w.Valid() && Linked(w) && n in w.Current().store && n in w.objects && (s.Archive? || s.Delete?)
    requires s.Delete? ==> w.Current().store[n].archived
    requires var r := w.Current().store[n];
             store == w.Current().store[n := if s.Archive? then r.(archived := true) else r.(deleting := true)]
    ensures Linked(Stepped(w, n, s).Became(store))
  {
    hide CosRuns.Reached;
    var o, w' := w.objects[n], Stepped(w, n, s).Became(store);
    assert LinkOk(w, w.Current().store, n);
    ObjectStep(w.newborn(n), o, s);
    assert LinkOk(w', store, n);
    hide LinkOk;
    LinkedChange(w, w', n);
  }

  lemma {:induction false} NewLinked(w: Group, op: Op)
    requires w.Valid() && Linked(w) && NewbornOk(w) && op.r.number == |w.creations| + 1
    requires op.r.number !in w.Current().store && Active(op.r) && op.r.status == EMPTY_STATUS
    ensures Linked(Called(w, op, w.Current().store[op.r.number := op.r]))
  {
    var n := op.r.number;
    var w' := Called(w, op, w.Current().store[n := op.r]);
    assert CosRuns.Reached(w.newborn(n), [], w.newborn(n));
    assert LinkOk(w', w'.Current().store, n);
    hide LinkOk, NewbornOk;
    LinkedChange(w, w', n);
  }

  lemma {:induction false} SameLinked(w: Group, w': Group)
    requires w.Valid() && Linked(w) && w'.Valid() && w'.newborn == w.newborn && w'.objects == w.objects
    requires |w'.creations| == |w.creations| && w'.Current().store == w.Current().store
    ensures Linked(w')
  {
    hide CosRuns.Reached, Shown;
    forall n | n in w'.objects ensures LinkOk(w', w'.Current().store, n) {
      assert LinkOk(w, w.Current().store, n);
    }
  }

  lemma {:induction false} ObjectLinked(w: Group, n: nat, s: CosRuns.Step)
    requires w.Valid() && Linked(w) && StepOk(w, Object(n, s))
    ensures Linked(Next(w, Object(n, s)))
  {
    hide CosRuns.Reached, CosRuns.Next, CosRuns.StepOk;
    var o, w' := w.objects[n], Next(w, Object(n, s));
    assert LinkOk(w, w.Current().store, n);
    ObjectStep(w.newborn(n), o, s);
    StepKeepsMarks(o, s);
    assert LinkOk(w', w'.Current().store, n);
    hide LinkOk;
    LinkedChange(w, w', n);
  }

  lemma {:induction false} VanishLinked(w: Group, n: nat)
    requires w.Valid() && Linked(w) && StepOk(w, Vanish(n))
    ensures Linked(Next(w, Vanish(n)))
  {
    hide CosRuns.Reached;
    var o, w' := w.objects[n], Next(w, Vanish(n));
    assert LinkOk(w, w.Current().store, n);
    ObjectStep(w.newborn(n), o, CosRuns.Vanish);
    assert LinkOk(w', w'.Current().store, n);
    hide LinkOk;
    LinkedChange(w, w', n);
  }

  /** A status that shows Available is backed by a pass of the object's own controller. */
  lemma {:induction false} ReportedIsRolledOut(w: Group, n: nat, s: CosRuns.Step)
    requires w.Valid() && Linked(w) && StepOk(w, Object(n, s))
    ensures var w1 := Stepped(w, n, s);
            && n in w1.objects && w1.objects[n].Valid()
            && (ConditionTrue(w1.objects[n].Current().status) ==> RolledOutAt(w1, n))
  {
    hide CosRuns.Reached, CosRuns.Next, CosRuns.StepOk, CosStored.RolledOut, ConditionTrue;
    assert LinkOk(w, w.Current().store, n);
    ObjectStep(w.newborn(n), w.objects[n], s);
    var o := CosRuns.Next(w.objects[n], s);
    var steps :| CosRuns.Reached(w.newborn(n), steps, o);
    if ConditionTrue(o.Current().status) {
      CosStored.AvailableIsSound(w.newborn(n), steps, o, |o.versions| - 1);
    }
  }

  // ---------- What is kept of the history ----------

  /** The archived revisions that are not being deleted. */
  ghost function KeptArchived(store: Store): set<nat> {
    set m | m in store && store[m].archived && !store[m].deleting
  }

  ghost predicate Removed(store: Store, n: nat) {
    n !in store || store[n].deleting
  }

  /** Above every revision that was removed there are as many archived ones as the limit. */
  ghost predicate RetainedIn(limit: nat, store: Store, created: nat) {
    forall n: nat :: 1 <= n <= created && Removed(store, n) ==> |Above(KeptArchived(store), n)| >= limit
  }

  ghost predicate Retained(w: Group)
    requires w.Valid()
  {
    RetainedIn(Limit(w.cod), w.Current().store, |w.creations|)
  }

  /** A change that removes nothing and gives up nothing. */
  lemma {:induction false} RetainedGrows(limit: nat, before: Store, after: Store, created: nat, more: nat)
    requires RetainedIn(limit, before, created)
    requires forall n: nat :: 1 <= n <= more && Removed(after, n) ==> n <= created && Removed(before, n)
    requires KeptArchived(before) <= KeptArchived(after)
    ensures RetainedIn(limit, after, more)
  {
    hide KeptArchived, Removed, Above;
    forall n: nat | 1 <= n <= more && Removed(after, n) ensures |Above(KeptArchived(after), n)| >= limit {
      AboveIsMonotone(KeptArchived(before), KeptArchived(after), n);
    }
  }

  /** The archived revisions above `n` that a view showed are still there, unless one of them was removed,
      and then there are enough above that one. */
  lemma {:induction false} EnoughAbove(w: Group, n: nat)
    requires w.Valid() && Inv(w) && Retained(w)
    requires n in Beyond(ArchivedMine(w.cod, w.View().store), Limit(w.cod))
    ensures |Above(KeptArchived(w.Current().store), n)| >= Limit(w.cod)
  {
    hide Inv, RolledOutAt, Limit;
    var shown, kept := Above(ArchivedMine(w.cod, w.View().store), n), KeptArchived(w.Current().store);
    if r :| r in shown && Removed(w.Current().store, r) {
      ShownAreCreated(w, r);
      assert Above(kept, r) <= Above(kept, n);
      SmallerSet(Above(kept, r), Above(kept, n));
    } else {
      forall r | r in shown ensures r in Above(kept, n) {
        ShownStayArchived(w, r);
      }
      SmallerSet(shown, Above(kept, n));
    }
  }

  lemma {:induction false} ShownAreCreated(w: Group, r: nat)
    requires w.Valid() && Inv(w) && r in w.View().store
    ensures 1 <= r <= w.View().created <= |w.creations|
  {
    hide Inv, RolledOutAt;
    InvStates(w);
  }

  lemma {:induction false} ShownStayArchived(w: Group, r: nat)
    requires w.Valid() && Inv(w) && r in w.View().store && w.View().store[r].archived
    ensures r in w.Current().store ==> w.Current().store[r].archived
  {
    hide Inv, RolledOutAt;
    InvStates(w);
    assert Settled(w.View(), r) && Settled(w.Current(), r);
  }

  lemma {:induction false} RemovedRetained(limit: nat, before: Store, n: nat, created: nat)
    requires RetainedIn(limit, before, created) && n in before && |Above(KeptArchived(before), n)| >= limit
    ensures RetainedIn(limit, before[n := before[n].(deleting := true)], created)
  {
    var after := before[n := before[n].(deleting := true)];
    assert KeptArchived(after) == KeptArchived(before) - {n};
    assert Above(KeptArchived(after), n) == Above(KeptArchived(before), n);
    forall m: nat | 1 <= m <= created && Removed(after, m) ensures |Above(KeptArchived(after), m)| >= limit {
      if m < n {
        SmallerSet(Above(KeptArchived(after), n), Above(KeptArchived(after), m));
      } else if m > n {
        assert Above(KeptArchived(after), m) == Above(KeptArchived(before), m);
      }
    }
  }

  // ---------- Every step keeps it all ----------

  ghost predicate Whole(w: Group) {
    w.Valid() && Inv(w) && Linked(w) && Retained(w) && NewbornOk(w)
  }

  lemma {:induction false} CalledKeepsWhole(w: Group, op: Op)
    requires Whole(w) && OpOk(w, op) && Served(w.cod, w.Current().store, op).Some?
    ensures Whole(Called(w, op, Served(w.cod, w.Current().store, op).value))
  {
    hide Inv, Linked, Retained, NewbornOk, OpOk, Called;
    var store := Served(w.cod, w.Current().store, op).value;
    CallKeepsInv(w, op);
    CalledGrows(w, op, store);
    match op
    case Adopt(_) => NoAdoption(w, op);
    case Create(r) =>
      CreateIsNew(w, r);
      NewKeepsWhole(w, op);
    case Claim(r) =>
      if r.number in w.Current().store {
        ClaimIsUnchanged(w, op);
        UnchangedKeepsWhole(w, op);
      } else {
        ClaimIsNew(w, r);
        NewIsAnew(w, r);
        NewKeepsWhole(w, op);
      }
    case Archive(_) => ArchiveKeepsWhole(w, op, store);
    case Remove(_) => RemoveKeepsWhole(w, op, store);
  }

  lemma {:induction false} NoAdoption(w: Group, op: Op)
    requires w.Valid() && OpOk(w, op)
    ensures !op.Adopt?
  {
  }

  lemma {:induction false} CreateIsNew(w: Group, r: Revision)
    requires w.Valid() && OpOk(w, Create(r))
    ensures NewRevisionOk(w, r)
  {
  }

  lemma {:induction false} ClaimIsNew(w: Group, r: Revision)
    requires w.Valid() && Inv(w) && OpOk(w, Claim(r)) && r.number !in w.Current().store
    ensures NewRevisionOk(w, r)
  {
    hide Inv, NewRevisionOk, RolledOutAt;
    UnsettledIsStored(w, r.number);
  }

  lemma {:induction false} NewKeepsWhole(w: Group, op: Op)
    requires Whole(w) && NewRevisionOk(w, op.r) && op.r.number != 0 && op.r.number !in w.Current().store
    requires Inv(Called(w, op, w.Current().store[op.r.number := op.r]))
    ensures Whole(Called(w, op, w.Current().store[op.r.number := op.r]))
  {
    hide Inv, Linked, NewRevisionOk, LinkOk, Limit, Stepped;
    var store := w.Current().store;
    NewNumberIsNext(w, op.r);
    NewIsStamped(w, op.r);
    NewLinked(w, op);
    RetainedGrows(Limit(w.cod), store, store[op.r.number := op.r], |w.creations|, |w.creations| + 1);
  }

  lemma {:induction false} UnchangedKeepsWhole(w: Group, op: Op)
    requires Whole(w)
    ensures var w' := w.Became(w.Current().store); Inv(w') ==> Whole(w')
  {
    hide Inv, Linked, Limit;
    SameLinked(w, w.Became(w.Current().store));
  }

  lemma {:induction false} ArchiveKeepsWhole(w: Group, op: Op, after: Store)
    requires Whole(w) && op.Archive? && OpOk(w, op)
    requires Served(w.cod, w.Current().store, op) == Some(after) && Inv(Called(w, op, after))
    ensures Whole(Called(w, op, after))
  {
    hide Inv, Linked, Limit, Stepped, RolledOutAt;
    var n, store := op.r.number, w.Current().store;
    NotSettledInView(w, n);
    UnsettledIsStored(w, n);
    HasObject(w, n);
    SteppedGrows(w, n, CosRuns.Archive);
    SteppedLinked(w, n, CosRuns.Archive, store[n := store[n].(archived := true)]);
    RetainedGrows(Limit(w.cod), store, store[n := store[n].(archived := true)], |w.creations|, |w.creations|);
  }

  lemma {:induction false} HasObject(w: Group, n: nat)
    requires w.Valid() && Linked(w) && 1 <= n <= |w.creations|
    ensures n in w.objects && LinkOk(w, w.Current().store, n)
  {
    hide LinkOk;
  }

  lemma {:induction false} RemoveKeepsWhole(w: Group, op: Op, after: Store)
    requires Whole(w) && op.Remove? && OpOk(w, op)
    requires Served(w.cod, w.Current().store, op) == Some(after) && Inv(Called(w, op, after))
    ensures Whole(Called(w, op, after))
  {
    hide Inv, Linked, Limit, Stepped, RolledOutAt, Beyond, ArchivedMine;
    var n, store := op.r.number, w.Current().store;
    ShownAreCreated(w, n);
    ShownStayArchived(w, n);
    HasObject(w, n);
    SteppedGrows(w, n, CosRuns.Delete);
    SteppedLinked(w, n, CosRuns.Delete, store[n := store[n].(deleting := true)]);
    EnoughAbove(w, n);
    RemovedRetained(Limit(w.cod), store, n, |w.creations|);
  }

  lemma {:induction false} CallsKeepWhole(w: Group, ops: seq<Op>, left: nat)
    requires Whole(w) && forall op :: op in ops ==> OpOk(w, op)
    ensures Whole(Calls(w, ops, left))
    decreases |ops|
  {
    hide Inv, Linked, Retained, NewbornOk, OpOk, Served, Called;
    if ops == [] || left == 0 {
    } else {
      var s := Served(w.cod, w.Current().store, ops[0]);
      if s.Some? {
        CalledKeepsWhole(w, ops[0]);
        var w' := Called(w, ops[0], s.value);
        forall op | op in ops[1..] ensures OpOk(w', op) {
          assert op in ops;
          StillOk(w, ops[0], s.value, op);
        }
        CallsKeepWhole(w', ops[1..], left - 1);
      }
    }
  }

  lemma {:induction false} QuietKeepsWhole(w: Group, w': Group)
    requires Whole(w) && w'.Valid() && w' == w.(templates := w'.templates, seen := w'.seen, templateSeen := w'.templateSeen)
    requires w.templates <= w'.templates && w.seen <= w'.seen && w.templateSeen <= w'.templateSeen
    ensures Whole(w')
  {
    hide Inv, Linked, Limit, CosStored.RolledOut;
    GrowthKeepsInv(w, w');
    SameLinked(w, w');
  }

  lemma {:induction false} ObjectKeepsWhole(w: Group, n: nat, s: CosRuns.Step)
    requires Whole(w) && StepOk(w, Object(n, s))
    ensures Whole(Next(w, Object(n, s)))
  {
    hide Inv, Linked, Limit, RolledOutAt, Stepped, CosRuns.StepOk, RetainedIn;
    var w1, store := Stepped(w, n, s), w.Current().store;
    SteppedGrows(w, n, s);
    SteppedKeepsInv(w, n, s);
    ReportedIsRolledOut(w, n, s);
    ObjectLinked(w, n, s);
    if n in store {
      var status := w1.objects[n].Current().status;
      StatusKeepsInv(w1, n, status);
      StatusRetained(Limit(w.cod), store, n, status, |w.creations|);
    }
  }

  lemma {:induction false} StatusRetained(limit: nat, store: Store, n: nat, status: Status, created: nat)
    requires RetainedIn(limit, store, created) && n in store
    ensures RetainedIn(limit, store[n := store[n].(status := status)], created)
  {
    RetainedGrows(limit, store, store[n := store[n].(status := status)], created, created);
  }

  lemma {:induction false} VanishKeepsWhole(w: Group, n: nat)
    requires Whole(w) && StepOk(w, Vanish(n))
    ensures Whole(Next(w, Vanish(n)))
  {
    hide Inv, Linked, Limit, RolledOutAt, Stepped, CosRuns.StepOk;
    var store := w.Current().store;
    SteppedGrows(w, n, CosRuns.Vanish);
    SteppedKeepsInv(w, n, CosRuns.Vanish);
    VanishKeepsInv(Stepped(w, n, CosRuns.Vanish), n);
    VanishLinked(w, n);
    RetainedGrows(Limit(w.cod), store, store - {n}, |w.creations|, |w.creations|);
  }

  lemma {:induction false} StepKeepsWhole(w: Group, s: GroupStep)
    requires Whole(w) && StepOk(w, s)
    ensures Whole(Next(w, s))
  {
    hide Inv, Linked, Retained, NewbornOk, Planned, OpOk, Stepped, CosRuns.StepOk;
    match s
    case ChangeTemplate(_) => QuietKeepsWhole(w, Next(w, s));
    case Object(n, step) => ObjectKeepsWhole(w, n, step);
    case Vanish(n) => VanishKeepsWhole(w, n);
    case CatchUp(_) => QuietKeepsWhole(w, Next(w, s));
    case TemplateCatchUp(_) => QuietKeepsWhole(w, Next(w, s));
    case Pass(drifted, left, now) =>
      PlannedOk(w, drifted, now);
      CallsKeepWhole(w, Planned(w, drifted, now), left);
  }

  lemma {:induction false} RunKeepsWhole(w: Group, steps: seq<GroupStep>)
    requires Whole(w) && RunOk(w, steps)
    ensures Whole(RunOf(w, steps))
    decreases |steps|
  {
    hide Inv, Linked, Retained, NewbornOk, Next, StepOk;
    if steps == [] {
    } else {
      StepKeepsWhole(w, steps[0]);
      RunKeepsWhole(Next(w, steps[0]), steps[1..]);
    }
  }

  lemma {:induction false} InitialIsWhole(w: Group)
    requires Initial(w)
    ensures Whole(w)
  {
  }

  lemma {:induction false} ReachedIsWhole(first: Group, steps: seq<GroupStep>, w: Group)
    requires Reached(first, steps, w)
    ensures Whole(w)
  {
    hide Whole, Initial, RunOk;
    InitialIsWhole(first);
    RunKeepsWhole(first, steps);
  }

  // ---------- What holds in every run ----------

  /** In every run, whatever the caches show and whichever calls fail: the revisions are numbered 1, 2,
      3 and so on as they are created, no number is ever handed out twice, and there are no more of
      them than one and the changes of the template. */
  lemma {:induction false} NumbersNeverReused(first: Group, steps: seq<GroupStep>, w: Group)
    requires Reached(first, steps, w)
    ensures forall k :: 0 <= k < |w.creations| ==> w.creations[k].number == k + 1
    ensures |w.creations| <= |w.templates|
  {
    hide Reached, Linked, Retained, NewbornOk, StateOk, ArchivedOk, Later, DeletedSettled;
    ReachedIsWhole(first, steps, w);
    if |w.creations| > 0 {
      IndexAtLeast(w, |w.creations| - 1);
    }
  }

  /** In every run, once a revision was created the newest one is always stored and active. */
  lemma {:induction false} NewestSurvives(first: Group, steps: seq<GroupStep>, w: Group)
    requires Reached(first, steps, w)
    ensures var n := |w.creations|;
            n > 0 ==> w.Valid() && n in w.Current().store && Active(w.Current().store[n])
  {
    hide Reached, Inv, Linked, Retained, NewbornOk;
    ReachedIsWhole(first, steps, w);
    InvStates(w);
  }

  /** In every run, an archived revision is below one for which one single pass of its own controller wrote
      every phase and found each complete. */
  lemma {:induction false} ArchivedOnlyBelowRolledOut(first: Group, steps: seq<GroupStep>, w: Group, n: nat)
    requires Reached(first, steps, w) && w.Valid() && n in w.Current().store && w.Current().store[n].archived
    ensures exists m: nat :: n < m <= |w.creations| && m in w.objects
              && CosStored.RolledOut(w.objects[m].config.phases, w.objects[m].log.runs)
  {
    hide Reached, Inv, Linked, Retained, NewbornOk, CosStored.RolledOut;
    ReachedIsWhole(first, steps, w);
    InvStates(w);
    var m: nat :| n < m <= w.Current().created && RolledOutAt(w, m);
    assert m in w.objects;
  }

  /** In every run, each created revision carries a run of its own controller; so all that holds of those
      runs holds of it.  In particular, when it is gone then it is archived, and its teardown left nothing of
      what it had written, unless it was deleted as an orphan. */
  lemma {:induction false} GoneIsTornDown(first: Group, steps: seq<GroupStep>, w: Group, n: nat)
    requires Reached(first, steps, w) && 1 <= n <= |w.creations|
    ensures n in w.objects && (exists own :: CosRuns.Reached(w.newborn(n), own, w.objects[n]))
    ensures var o := w.objects[n];
            o.gone ==> && w.Valid() && n !in w.Current().store && o.Valid() && o.Current().meta.archived
                       && (o.log.live == {} || o.log.orphaned)
  {
    hide Reached, Inv, Linked, Retained, NewbornOk, CosRuns.Reached, CosRuns.Protected;
    ReachedIsWhole(first, steps, w);
    HasObject(w, n);
    var own :| CosRuns.Reached(w.newborn(n), own, w.objects[n]);
    CosRuns.FinalizerProtectsObjects(w.newborn(n), own, w.objects[n]);
    CosRuns.ReachedIsSafe(w.newborn(n), own, w.objects[n]);
  }

  /** In every run, above each revision that was deleted, or is being deleted, at least as many archived
      ones as the limit are left; so the controller never removes any of the newest archived ones. */
  lemma {:induction false} HistoryIsKept(first: Group, steps: seq<GroupStep>, w: Group, n: nat)
    requires Reached(first, steps, w) && 1 <= n <= |w.creations|
    ensures w.Valid()
    ensures Removed(w.Current().store, n) ==> |Above(KeptArchived(w.Current().store), n)| >= Limit(w.cod)
  {
    hide Reached, Inv, Linked, NewbornOk;
    ReachedIsWhole(first, steps, w);
  }

  /** In every run, what is being deleted is in excess of the history limit. */
  lemma {:induction false} ReachedDeletionsInExcess(first: Group, steps: seq<GroupStep>, w: Group)
    requires Reached(first, steps, w) && |w.creations| > 0
    ensures w.Valid() && DeletionsInExcess(w.cod, w.Current().store, |w.creations|)
  {
    hide Reached, Inv, Linked, NewbornOk, Limit, RolledOutAt;
    ReachedIsWhole(first, steps, w);
    InvStates(w);
    var n, store := |w.creations|, w.Current().store;
    CurrentCreated(w);
    var others := OthersOf(w.cod, store, n);
    forall m | m in others && store[m].deleting ensures m in Beyond(others, Limit(w.cod)) {
      KeptAreOthers(w.cod, store, n);
      AboveIsMonotone(KeptArchived(store), others, m);
    }
  }

  lemma {:induction false} KeptAreOthers(cod: Cod, store: Store, n: nat)
    requires n in store && Active(store[n]) && forall m :: m in store ==> store[m].owner == Some(OwnerRef(cod))
    ensures KeptArchived(store) <= OthersOf(cod, store, n)
  {
  }

  /** So from wherever a run got to, once the newest revision is available and of the current template, two
      passes on fresh views keep exactly the highest of the others within the limit, and a third changes
      nothing. */
  lemma {:induction false} EveryRunConverges(
      first: Group, steps: seq<GroupStep>, w: Group, hash: string, p: PassInput, q: PassInput, r: PassInput)
    requires Reached(first, steps, w) && w.Valid() && |w.creations| > 0
    requires var store, n := w.Current().store, |w.creations|;
             n in store ==> ConditionTrue(store[n].status) && store[n].templateHash == hash
    requires var store := w.Current().store;
             && GoesThrough(w.cod, store, hash, p)
             && GoesThrough(w.cod, AfterPass(w.cod, store, hash, p), hash, q)
             && GoesThrough(w.cod, AfterPass(w.cod, AfterPass(w.cod, store, hash, p), hash, q), hash, r)
    ensures var store, n := w.Current().store, |w.creations|;
            var rest := AfterPass(w.cod, AfterPass(w.cod, store, hash, p), hash, q);
            && AtRest(w.cod, store, n, rest, Kept(OthersOf(w.cod, store, n), Limit(w.cod)))
            && Final(rest, RunOfPass(w.cod, rest, hash, r)) == rest
  {
    hide Reached, GoesThrough, AfterPass, AtRest, Kept, OthersOf, Limit, DeletionsInExcess, Ready, KeptByTwo;
    var store, n := w.Current().store, |w.creations|;
    ReachedIsReady(first, steps, w, hash);
    ReachedDeletionsInExcess(first, steps, w);
    Converges(w.cod, store, hash, n, p, q, r);
  }

  lemma {:induction false} ReachedIsReady(first: Group, steps: seq<GroupStep>, w: Group, hash: string)
    requires Reached(first, steps, w) && w.Valid() && |w.creations| > 0
    requires var store, n := w.Current().store, |w.creations|;
             n in store ==> ConditionTrue(store[n].status) && store[n].templateHash == hash
    ensures Ready(w.cod, w.Current().store, hash, |w.creations|)
  {
    hide Reached, Inv, Linked, Retained, NewbornOk, RolledOutAt;
    ReachedIsWhole(first, steps, w);
    InvStates(w);
    CurrentCreated(w);
  }

  lemma {:induction false} IndexAtLeast(w: Group, k: nat)
    requires CreationsOk(w) && k < |w.creations|
    ensures w.creations[k].templateIndex >= k
  {
    if k == 0 {
    } else {
      IndexAtLeast(w, k - 1);
    }
  }
}
