/** A group of revisions in which both controllers work: the deployment's controller creates, archives and
    deletes revisions, each revision is an object with a ClusterObjectSet controller of its own, the
    template changes, and all caches lag.  What each step keeps. */
module CodGroup {
  import opened Api
  import opened Revisions
  import opened RevisionChain
  import opened Sequences
  import opened CodController
  import opened CodListing
  import opened CodEffects
  import CosController
  import CosRuns
  import CosStatus
  import CosStored

  /** A stored state of the group, and how many revisions had been created by then. */
  datatype GroupState = GroupState(store: Store, created: nat)

  /** A created revision: its number, and the template the controller saw. */
  datatype Creation = Creation(number: nat, templateIndex: nat)

  /** - `history`: the states of the group, of which the last is current; `seen` is the cached one
      - `templates`: the hashes of the deployment's templates; `templateSeen` is the cached one
      - `creations`: what was created, in order
      - `objects`: each created revision as its own controller meets it, `newborn` at its creation */
  datatype Group = Group(
    cod: Cod,
    history: seq<GroupState>,
    seen: nat,
    templates: seq<string>,
    templateSeen: nat,
    creations: seq<Creation>,
    newborn: nat -> CosController.World,
    objects: map<nat, CosController.World>)
  {
    ghost predicate Valid() {
      seen < |history| && templateSeen < |templates|
    }

    ghost function View(): GroupState
      requires Valid()
    {
      history[seen]
    }

    ghost function Current(): GroupState
      requires Valid()
    {
      history[|history| - 1]
    }

    /** The state changes without a creation. */
    ghost function Became(store: Store): Group
      requires Valid()
    {
      this.(history := history + [GroupState(store, Current().created)])
    }
  }

  /** A step of the object of a revision. */
  ghost function Stepped(w: Group, n: nat, s: CosRuns.Step): Group {
    if n in w.objects && w.objects[n].Valid() && CosRuns.StepOk(w.objects[n], s)
    then w.(objects := w.objects[n := CosRuns.Next(w.objects[n], s)])
    else w
  }

  /** What a call changes: the stored state; the log, when a number appears that was not stored; and the
      object. */
  ghost function Called(w: Group, op: Op, store: Store): Group
    requires w.Valid()
  {
    var n := op.r.number;
    if n !in w.Current().store then
      w.(history := w.history + [GroupState(store, w.Current().created + 1)],
         creations := w.creations + [Creation(n, w.templateSeen)],
         objects := if n in w.objects then w.objects else w.objects[n := w.newborn(n)])
    else
      var marked :=
        match op
        case Archive(_) => Stepped(w, n, CosRuns.Archive)
        case Remove(_) => Stepped(w, n, CosRuns.Delete)
        case _ => w;
      marked.Became(store)
  }

  /** The calls of a pass, made in order until one fails. */
  ghost function Calls(w: Group, ops: seq<Op>, left: nat): (w': Group)
    requires w.Valid()
    ensures w'.Valid()
    decreases |ops|
  {
    if ops == [] || left == 0 then w
    else
      var s := Served(w.cod, w.Current().store, ops[0]);
      if s.None? then w else Calls(Called(w, ops[0], s.value), ops[1..], left - 1)
  }

  lemma {:induction false} CalledStore(w: Group, op: Op, store: Store)
    requires w.Valid()
    ensures Called(w, op, store).Valid() && Called(w, op, store).cod == w.cod && Called(w, op, store).Current().store == store
  {
  }

  /** The calls change the stored state as the controller's do. */
  lemma {:induction false} CallsAreExecuted(w: Group, ops: seq<Op>, left: nat)
    requires w.Valid()
    ensures Calls(w, ops, left).Current().store == Final(w.Current().store, Execute(w.cod, w.Current().store, ops, left))
    decreases |ops|
  {
    hide Served, Stepped;
    if ops != [] && left > 0 {
      var s := Served(w.cod, w.Current().store, ops[0]);
      if s.Some? {
        CalledStore(w, ops[0], s.value);
        CallsAreExecuted(Called(w, ops[0], s.value), ops[1..], left - 1);
      }
    }
  }

  /** The template changes; something happens to the object of a revision, such as a pass of its own
      controller; an object that was released goes away; a cache catches up; or the deployment's
      controller makes a pass. */
  datatype GroupStep =
    | ChangeTemplate(hash: string)
    | Object(number: nat, step: CosRuns.Step)
    | Vanish(number: nat)
    | CatchUp(to: nat)
    | TemplateCatchUp(to: nat)
    | Pass(drifted: bool, left: nat, now: Time)

  ghost predicate StepOk(w: Group, s: GroupStep)
    requires w.Valid()
  {
    match s
    case ChangeTemplate(_) => true
    case Object(n, step) =>
      && n in w.objects && w.objects[n].Valid() && CosRuns.StepOk(w.objects[n], step)
      && !step.Archive? && !step.Delete? && !step.Vanish?
    case Vanish(n) =>
      && n in w.Current().store && w.Current().store[n].deleting
      && n in w.objects && w.objects[n].Valid() && CosRuns.StepOk(w.objects[n], CosRuns.Vanish)
    case CatchUp(to) => w.seen <= to < |w.history|
    case TemplateCatchUp(to) => w.templateSeen <= to < |w.templates|
    case Pass(_, _, _) => true
  }

  ghost function Planned(w: Group, drifted: bool, now: Time): seq<Op>
    requires w.Valid()
  {
    Plan(w.cod, Listing(w.View().store), w.templates[w.templateSeen], drifted, now)
  }

  ghost function Next(w: Group, s: GroupStep): (w': Group)
    requires w.Valid() && StepOk(w, s)
    ensures w'.Valid()
  {
    match s
    case ChangeTemplate(hash) => w.(templates := w.templates + [hash])
    case Object(n, step) =>
      var w1, store := Stepped(w, n, step), w.Current().store;
      if n in store then w1.Became(store[n := store[n].(status := w1.objects[n].Current().status)]) else w1
    case Vanish(n) => Stepped(w, n, CosRuns.Vanish).Became(w.Current().store - {n})
    case CatchUp(to) => w.(seen := to)
    case TemplateCatchUp(to) => w.(templateSeen := to)
    case Pass(drifted, left, now) => Calls(w, Planned(w, drifted, now), left)
  }

  ghost predicate Initial(w: Group) {
    && w.history == [GroupState(map[], 0)] && w.seen == 0
    && |w.templates| == 1 && w.templateSeen == 0
    && w.creations == [] && w.objects == map[]
    && forall n :: CosRuns.Initial(w.newborn(n)) && w.newborn(n).versions[0].meta == CosStatus.Meta(false, false, false, false)
  }

  ghost predicate RunOk(w: Group, steps: seq<GroupStep>)
    requires w.Valid()
    decreases |steps|
  {
    steps != [] ==> StepOk(w, steps[0]) && RunOk(Next(w, steps[0]), steps[1..])
  }

  ghost function RunOf(w: Group, steps: seq<GroupStep>): (w': Group)
    requires w.Valid() && RunOk(w, steps)
    ensures w'.Valid()
    decreases |steps|
  {
    if steps == [] then w else RunOf(Next(w, steps[0]), steps[1..])
  }

  /** `w` is where a run of a new group got to. */
  ghost predicate Reached(first: Group, steps: seq<GroupStep>, w: Group) {
    first.Valid() && Initial(first) && RunOk(first, steps) && w == RunOf(first, steps)
  }

  // ---------- The invariant ----------

  /** One pass of its own controller found every phase of the revision complete, and recorded it. */
  ghost predicate RolledOutAt(w: Group, n: nat) {
    n in w.objects && CosStored.RolledOut(w.objects[n].config.phases, w.objects[n].log.runs)
  }

  /** The numbers handed out by then that are archived or gone. */
  ghost predicate Settled(s: GroupState, n: nat) {
    1 <= n <= s.created && (n !in s.store || s.store[n].archived)
  }

  /** One state: it holds only created revisions of this deployment; the newest one is there and
      active. */
  ghost predicate StateOk(w: Group, s: GroupState) {
    && s.created <= |w.creations| && s.created < UINT32
    && (forall n :: n in s.store ==>
          && 1 <= n <= s.created
          && s.store[n].number == n
          && s.store[n].owner == Some(OwnerRef(w.cod))
          && w.creations[n - 1].templateIndex < |w.templates|
          && s.store[n].templateHash == w.templates[w.creations[n - 1].templateIndex])
    && (s.created > 0 ==> s.created in s.store && Active(s.store[s.created]))
  }

  /** An available revision was rolled out, and an archived one is below one that was. */
  ghost predicate ArchivedOk(w: Group, s: GroupState) {
    forall n :: n in s.store ==>
      && (ConditionTrue(s.store[n].status) ==> RolledOutAt(w, n))
      && (s.store[n].archived ==> BelowRolledOut(w, n, s.created))
  }

  ghost predicate BelowRolledOut(w: Group, n: nat, created: nat) {
    exists m: nat :: n < m <= created && RolledOutAt(w, m)
  }

  ghost predicate CreationsOk(w: Group) {
    && (forall k :: 0 <= k < |w.creations| ==> w.creations[k].number == k + 1 && w.creations[k].templateIndex <= w.templateSeen)
    && (forall j, k :: 0 <= j < k < |w.creations| ==> w.creations[j].templateIndex < w.creations[k].templateIndex)
  }

  ghost predicate Inv(w: Group) {
    && w.Valid()
    && CreationsOk(w) && w.Current().created == |w.creations|
    && (forall t :: 0 <= t < |w.history| ==> StateOk(w, w.history[t]) && ArchivedOk(w, w.history[t]))
    && (forall t, u :: 0 <= t <= u < |w.history| ==> Later(w.history[t], w.history[u]))
    && DeletedSettled(w, w.Current().store)
  }

  /** What was archived or gone stays so. */
  ghost predicate Later(s: GroupState, t: GroupState) {
    s.created <= t.created && forall n :: Settled(s, n) ==> Settled(t, n)
  }

  /** A revision that the plan would create now. */
  ghost predicate NewRevisionOk(w: Group, r: Revision)
    requires w.Valid()
  {
    var v := w.View();
    && r.number == (v.created + 1) % UINT32
    && r.owner == Some(OwnerRef(w.cod)) && Active(r) && r.status == EMPTY_STATUS
    && r.templateHash == w.templates[w.templateSeen]
    && (v.created > 0 ==> v.created in v.store && v.store[v.created].templateHash != r.templateHash)
  }

  /** The calls a pass may plan, told by the cached state alone. */
  ghost predicate OpOk(w: Group, op: Op)
    requires w.Valid()
  {
    var v, n := w.View(), op.r.number;
    match op
    case Adopt(_) => false
    case Create(r) => NewRevisionOk(w, r)
    case Claim(r) => NewRevisionOk(w, r) || (1 <= n <= |w.creations| && !Settled(v, n))
    case Archive(_) => n in v.store && !v.store[n].archived && n < v.created && RolledOutAt(w, v.created)
    case Remove(_) => n in v.store && v.store[n].archived && n in Beyond(ArchivedMine(w.cod, v.store), Limit(w.cod))
  }

  lemma {:induction false} BecameKeepsInv(w: Group, store: Store)
    requires w.Valid() && Inv(w)
    requires var s := GroupState(store, w.Current().created); StateOk(w, s) && ArchivedOk(w, s) && Later(w.Current(), s)
    requires DeletedSettled(w, store)
    ensures Inv(w.Became(store))
  {
    var w', s := w.Became(store), GroupState(store, w.Current().created);
    StateCarries(w, w', s);
    hide StateOk, ArchivedOk, Settled, Later;
    SameCreations(w, w');
    ExtendedInv(w, w', s);
  }

  lemma {:induction false} LaterReflexive(s: GroupState)
    ensures Later(s, s)
  {
  }

  lemma {:induction false} LaterTransitive(r: GroupState, s: GroupState, t: GroupState)
    requires Later(r, s) && Later(s, t)
    ensures Later(r, t)
  {
  }

  lemma {:induction false} SameCreations(w: Group, w': Group)
    requires w'.creations == w.creations && w'.templateSeen == w.templateSeen
    ensures CreationsOk(w) == CreationsOk(w')
  {
  }

  /** A number that is not settled in the view is stored now, and not being deleted. */
  lemma {:induction false} UnsettledIsStored(w: Group, n: nat)
    requires w.Valid() && Inv(w)
    ensures 1 <= n <= |w.creations| && !Settled(w.View(), n) ==> n in w.Current().store && !w.Current().store[n].deleting
  {
  }

  lemma {:induction false} InvStates(w: Group)
    requires w.Valid() && Inv(w)
    ensures StateOk(w, w.View()) && ArchivedOk(w, w.View()) && StateOk(w, w.Current()) && ArchivedOk(w, w.Current())
    ensures w.View().created <= w.Current().created == |w.creations| < UINT32
    ensures Later(w.View(), w.Current())
  {
  }

  lemma {:induction false} ArchivedSnapshot(w: Group, s: GroupState, n: nat, m: nat)
    requires StateOk(w, s) && ArchivedOk(w, s) && n in s.store && n < m <= s.created && RolledOutAt(w, m)
    ensures var s' := GroupState(s.store[n := s.store[n].(archived := true)], s.created);
            StateOk(w, s') && ArchivedOk(w, s') && Later(s, s')
  {
  }

  lemma {:induction false} RemovedSnapshot(w: Group, s: GroupState, n: nat)
    requires StateOk(w, s) && ArchivedOk(w, s) && n in s.store && n < s.created
    ensures var s' := GroupState(s.store[n := s.store[n].(deleting := true)], s.created);
            StateOk(w, s') && ArchivedOk(w, s') && Later(s, s')
  {
  }

  /** Deletions that the invariant accounts for. */
  ghost predicate DeletedSettled(w: Group, store: Store)
    requires w.Valid()
  {
    forall n :: 1 <= n <= |w.creations| && (n !in store || store[n].deleting) ==> Settled(w.View(), n)
  }

  lemma {:induction false} InvDeleted(w: Group)
    requires w.Valid() && Inv(w)
    ensures DeletedSettled(w, w.Current().store)
  {
  }

  /** A step of an object keeps what it recorded. */
  lemma {:induction false} SteppedGrows(w: Group, n: nat, s: CosRuns.Step)
    ensures var w' := Stepped(w, n, s); Grows(w, w') && w' == w.(objects := w'.objects)
  {
    hide CosRuns.Next, CosRuns.StepOk, CosStored.RolledOut;
    if n in w.objects && w.objects[n].Valid() && CosRuns.StepOk(w.objects[n], s) {
      var o := w.objects[n];
      CosStored.StepKeepsRuns(o, s);
      if CosStored.RolledOut(o.config.phases, o.log.runs) {
        CosStored.RolledOutGrows(o.config.phases, o.log.runs, CosRuns.Next(o, s).log.runs);
      }
    }
  }

  lemma {:induction false} CalledGrows(w: Group, op: Op, store: Store)
    requires w.Valid()
    ensures var w' := Called(w, op, store);
            && Grows(w, w') && w'.Valid() && w'.View() == w.View()
            && w'.seen == w.seen && w'.templates == w.templates && w'.templateSeen == w.templateSeen
  {
    hide CosRuns.Next, CosRuns.StepOk, CosStored.RolledOut;
    SteppedGrows(w, op.r.number, CosRuns.Archive);
    SteppedGrows(w, op.r.number, CosRuns.Delete);
    var w', k := Called(w, op, store), op.r.number;
    forall n | RolledOutAt(w, n) ensures RolledOutAt(w', n) {
      if k !in w.Current().store {
        assert w'.objects[n] == w.objects[n];
      } else if op.Archive? {
        assert RolledOutAt(Stepped(w, k, CosRuns.Archive), n);
      } else if op.Remove? {
        assert RolledOutAt(Stepped(w, k, CosRuns.Delete), n);
      }
    }
  }

  lemma {:induction false} SteppedKeepsInv(w: Group, n: nat, s: CosRuns.Step)
    requires w.Valid() && Inv(w)
    ensures Stepped(w, n, s).Valid() && Inv(Stepped(w, n, s))
  {
    hide Inv, Stepped, Grows;
    SteppedGrows(w, n, s);
    GrowthKeepsInv(w, Stepped(w, n, s));
  }

  lemma {:induction false} ArchivedBecame(w: Group, n: nat)
    requires w.Valid() && Inv(w) && n in w.View().store && !w.View().store[n].archived && n < w.View().created
    requires RolledOutAt(w, w.View().created) && n in w.Current().store
    ensures Inv(w.Became(w.Current().store[n := w.Current().store[n].(archived := true)]))
  {
    hide Inv, StateOk, ArchivedOk, Settled, RolledOutAt, DeletedSettled, Later;
    var cur := w.Current();
    InvStates(w);
    InvDeleted(w);
    ArchivedSnapshot(w, cur, n, w.View().created);
    ArchivedDeleted(w, cur.store, n);
    LaterCreated(w);
    BecameKeepsInv(w, cur.store[n := cur.store[n].(archived := true)]);
  }

  lemma {:induction false} ArchivedDeleted(w: Group, store: Store, n: nat)
    requires w.Valid() && DeletedSettled(w, store) && n in store
    ensures DeletedSettled(w, store[n := store[n].(archived := true)])
  {
    hide Settled;
  }

  lemma {:induction false} LaterCreated(w: Group)
    requires w.Valid() && Inv(w)
    ensures w.View().created <= w.Current().created
  {
  }

  lemma {:induction false} ArchiveKeepsInv(w: Group, r: Revision)
    requires w.Valid() && Inv(w) && OpOk(w, Archive(r))
    ensures Inv(Called(w, Archive(r), Served(w.cod, w.Current().store, Archive(r)).value))
  {
    hide Inv, RolledOutAt, Stepped, CosRuns.Next, CosRuns.StepOk, Grows;
    var n := r.number;
    NotSettledInView(w, n);
    UnsettledIsStored(w, n);
    SteppedGrows(w, n, CosRuns.Archive);
    GrowsRolledOut(w, Stepped(w, n, CosRuns.Archive), w.View().created);
    SteppedKeepsInv(w, n, CosRuns.Archive);
    ArchivedBecame(Stepped(w, n, CosRuns.Archive), n);
  }

  lemma {:induction false} GrowsRolledOut(w: Group, w': Group, n: nat)
    requires Grows(w, w') && RolledOutAt(w, n)
    ensures RolledOutAt(w', n)
  {
    hide RolledOutAt;
  }

  lemma {:induction false} NotSettledInView(w: Group, n: nat)
    requires w.Valid() && Inv(w) && n in w.View().store && !w.View().store[n].archived
    ensures 1 <= n <= |w.creations| && !Settled(w.View(), n)
  {
    hide Inv;
    InvStates(w);
  }

  lemma {:induction false} RemovedBecame(w: Group, n: nat)
    requires w.Valid() && Inv(w) && n in w.View().store && w.View().store[n].archived && n in w.Current().store
    ensures Inv(w.Became(w.Current().store[n := w.Current().store[n].(deleting := true)]))
  {
    hide Inv, RolledOutAt;
    var cur := w.Current();
    InvStates(w);
    InvDeleted(w);
    assert 1 <= n < w.View().created && Settled(w.View(), n);
    hide StateOk, ArchivedOk, Settled;
    RemovedSnapshot(w, cur, n);
    hide Later;
    BecameKeepsInv(w, cur.store[n := cur.store[n].(deleting := true)]);
  }

  lemma {:induction false} RemoveKeepsInv(w: Group, r: Revision)
    requires w.Valid() && Inv(w) && OpOk(w, Remove(r)) && r.number in w.Current().store
    ensures Inv(Called(w, Remove(r), Served(w.cod, w.Current().store, Remove(r)).value))
  {
    hide Inv, RolledOutAt, Stepped, CosRuns.Next, CosRuns.StepOk, Beyond, ArchivedMine, Grows;
    SteppedGrows(w, r.number, CosRuns.Delete);
    SteppedKeepsInv(w, r.number, CosRuns.Delete);
    RemovedBecame(Stepped(w, r.number, CosRuns.Delete), r.number);
  }

  lemma {:induction false} UnchangedKeepsInv(w: Group)
    requires w.Valid() && Inv(w)
    ensures Inv(w.Became(w.Current().store))
  {
    InvStates(w);
    InvDeleted(w);
    LaterReflexive(w.Current());
    BecameKeepsInv(w, w.Current().store);
  }

  /** A new number is the next one: any other was handed out after the view was taken, and is stored. */
  lemma {:induction false} NewNumberIsNext(w: Group, r: Revision)
    requires w.Valid() && Inv(w) && NewRevisionOk(w, r) && r.number != 0 && r.number !in w.Current().store
    ensures r.number == |w.creations| + 1 == w.View().created + 1
  {
    InvStates(w);
    UnsettledIsStored(w, r.number);
    assert r.number == w.View().created + 1 && !Settled(w.View(), r.number);
  }

  /** Its template is newer than that of every revision before. */
  lemma {:induction false} NewTemplateIsNewer(w: Group, r: Revision, k: nat)
    requires w.Valid() && Inv(w) && NewRevisionOk(w, r) && r.number != 0 && r.number !in w.Current().store
    requires k < |w.creations|
    ensures w.creations[k].templateIndex < w.templateSeen
  {
    NewNumberIsNext(w, r);
    InvStates(w);
    var last := |w.creations| - 1;
    assert w.View().store[last + 1].templateHash == w.templates[w.creations[last].templateIndex];
    assert w.creations[last].templateIndex < w.templateSeen;
  }

  lemma {:induction false} CreationKeepsInv(w: Group, op: Op)
    requires w.Valid() && Inv(w) && NewRevisionOk(w, op.r) && op.r.number != 0 && op.r.number !in w.Current().store
    ensures Inv(Called(w, op, w.Current().store[op.r.number := op.r]))
  {
    hide Inv, Settled, StateOk, ArchivedOk, Later, CreationsOk, RolledOutAt, Grows, NewRevisionOk, DeletedSettled;
    var n, r, cur := op.r.number, op.r, w.Current();
    var store := cur.store[n := r];
    var w', s := Called(w, op, store), GroupState(store, n);
    NewNumberIsNext(w, r);
    NewIsStamped(w, r);
    InvStates(w);
    NewCreations(w, op, w');
    CreatedDeleted(w, w', n, r);
    CalledGrows(w, op, store);
    StateCarries(w, w', cur);
    CurrentCreated(w);
    CreatedSnapshot(w', cur, r);
    ExtendedInv(w, w', s);
  }

  lemma {:induction false} NewIsStamped(w: Group, r: Revision)
    requires w.Valid() && NewRevisionOk(w, r)
    ensures r.owner == Some(OwnerRef(w.cod)) && Active(r) && r.status == EMPTY_STATUS
    ensures r.templateHash == w.templates[w.templateSeen] && r.number < UINT32
  {
  }

  lemma {:induction false} CurrentCreated(w: Group)
    requires w.Valid() && Inv(w)
    ensures w.Current().created == |w.creations|
  {
  }

  lemma {:induction false} CreatedDeleted(w: Group, w': Group, n: nat, r: Revision)
    requires w.Valid() && Inv(w) && w'.Valid() && w'.View() == w.View()
    requires |w'.creations| == |w.creations| + 1 == n && !r.deleting
    ensures DeletedSettled(w', w.Current().store[n := r])
  {
    hide Inv, Settled;
    InvDeleted(w);
  }

  lemma {:induction false} CreatedSnapshot(w: Group, s: GroupState, r: Revision)
    requires StateOk(w, s) && ArchivedOk(w, s)
    requires r.number == s.created + 1 == |w.creations| < UINT32 && r.number !in s.store
    requires r.owner == Some(OwnerRef(w.cod)) && Active(r) && r.status == EMPTY_STATUS
    requires w.creations[s.created].templateIndex < |w.templates|
    requires r.templateHash == w.templates[w.creations[s.created].templateIndex]
    ensures var s' := GroupState(s.store[r.number := r], r.number);
            StateOk(w, s') && ArchivedOk(w, s') && Later(s, s')
  {
  }

  lemma {:induction false} ExtendedInv(w: Group, w': Group, s: GroupState)
    requires w.Valid() && Inv(w) && w'.Valid() && w'.history == w.history + [s]
    requires Grows(w, w')
    requires CreationsOk(w') && s.created == |w'.creations|
    requires StateOk(w', s) && ArchivedOk(w', s) && Later(w.Current(), s) && DeletedSettled(w', s.store)
    ensures Inv(w')
  {
    LaterReflexive(s);
    hide StateOk, ArchivedOk, Settled, CreationsOk, Later, DeletedSettled;
    forall t | 0 <= t < |w'.history| ensures StateOk(w', w'.history[t]) && ArchivedOk(w', w'.history[t]) {
      if t < |w.history| {
        StateCarries(w, w', w.history[t]);
      }
    }
    forall t, u | 0 <= t <= u < |w'.history| ensures Later(w'.history[t], w'.history[u]) {
      if u == |w.history| && t < u {
        LaterTransitive(w.history[t], w.Current(), s);
      }
    }
  }

  lemma {:induction false} NewCreations(w: Group, op: Op, w': Group)
    requires w.Valid() && Inv(w) && NewRevisionOk(w, op.r) && op.r.number != 0 && op.r.number !in w.Current().store
    requires w'.creations == w.creations + [Creation(op.r.number, w.templateSeen)] && w'.templateSeen == w.templateSeen
    ensures CreationsOk(w')
  {
    NewNumberIsNext(w, op.r);
    forall k | 0 <= k < |w.creations| ensures w.creations[k].templateIndex < w.templateSeen {
      NewTemplateIsNewer(w, op.r, k);
    }
  }

  /** What is known of a state stays known as the logs grow. */
  ghost predicate Grows(w: Group, w': Group) {
    && w'.cod == w.cod && w.creations <= w'.creations && w.templates <= w'.templates
    && forall n {:trigger RolledOutAt(w', n)} :: RolledOutAt(w, n) ==> RolledOutAt(w', n)
  }

  lemma {:induction false} StateCarries(w: Group, w': Group, s: GroupState)
    requires Grows(w, w')
    ensures StateOk(w, s) ==> StateOk(w', s)
    ensures ArchivedOk(w, s) ==> ArchivedOk(w', s)
  {
    hide RolledOutAt;
    forall n: nat | BelowRolledOut(w, n, s.created) ensures BelowRolledOut(w', n, s.created) {
      var m: nat :| n < m <= s.created && RolledOutAt(w, m);
      assert RolledOutAt(w', m);
    }
    hide BelowRolledOut;
  }

  lemma {:induction false} DeletedStaysSettled(w: Group, w': Group)
    requires w.Valid() && Inv(w) && w'.Valid()
    requires w'.history == w.history && w'.creations == w.creations && w.seen <= w'.seen
    ensures DeletedSettled(w', w'.Current().store)
  {
    InvDeleted(w);
    assert Later(w.View(), w'.View());
    hide Inv, Settled;
  }

  lemma {:induction false} StatesCarry(w: Group, w': Group)
    requires w.Valid() && Inv(w) && Grows(w, w') && w'.history == w.history
    ensures forall t :: 0 <= t < |w'.history| ==> StateOk(w', w'.history[t]) && ArchivedOk(w', w'.history[t])
    ensures forall t, u :: 0 <= t <= u < |w'.history| ==> Later(w'.history[t], w'.history[u])
  {
    hide StateOk, ArchivedOk, Later, DeletedSettled, CreationsOk, Grows;
    forall t | 0 <= t < |w'.history| ensures StateOk(w', w'.history[t]) && ArchivedOk(w', w'.history[t]) {
      StateCarries(w, w', w.history[t]);
    }
  }

  lemma {:induction false} CreationsCarry(w: Group, w': Group)
    requires w.Valid() && Inv(w) && w'.creations == w.creations && w.templateSeen <= w'.templateSeen
    ensures CreationsOk(w') && w.Current().created == |w'.creations|
  {
    hide StateOk, ArchivedOk, Later, DeletedSettled;
  }

  lemma {:induction false} GrowthKeepsInv(w: Group, w': Group)
    requires w.Valid() && Inv(w) && w'.Valid() && Grows(w, w')
    requires w'.history == w.history && w'.creations == w.creations
    requires w.seen <= w'.seen && w.templateSeen <= w'.templateSeen
    ensures Inv(w')
  {
    hide StateOk, ArchivedOk, Later, DeletedSettled, CreationsOk, Grows;
    DeletedStaysSettled(w, w');
    StatesCarry(w, w');
    CreationsCarry(w, w');
  }

  lemma {:induction false} NewIsAnew(w: Group, r: Revision)
    requires w.Valid() && NewRevisionOk(w, r)
    ensures Anew(r) == r
  {
  }

  lemma {:induction false} ClaimIsUnchanged(w: Group, op: Op)
    requires w.Valid() && op.Claim? && op.r.number in w.Current().store
    ensures Called(w, op, w.Current().store) == w.Became(w.Current().store)
  {
  }

  /** Whatever the planned call finds on the server. */
  lemma {:induction false} CallKeepsInv(w: Group, op: Op)
    requires w.Valid() && Inv(w) && OpOk(w, op)
    ensures var s := Served(w.cod, w.Current().store, op); s.Some? ==> Inv(Called(w, op, s.value))
  {
    hide Inv, NewRevisionOk, Settled, Called, RolledOutAt, Beyond, ArchivedMine;
    if Served(w.cod, w.Current().store, op).Some? {
      match op
      case Adopt(_) =>
      case Create(r) =>
        CreationKeepsInv(w, op);
      case Claim(r) =>
        if r.number in w.Current().store {
          ClaimIsUnchanged(w, op);
          UnchangedKeepsInv(w);
        } else if NewRevisionOk(w, r) {
          NewIsAnew(w, r);
          CreationKeepsInv(w, op);
        } else {
          UnsettledIsStored(w, r.number);
        }
      case Archive(r) =>
        ArchiveKeepsInv(w, r);
      case Remove(r) =>
        RemoveKeepsInv(w, r);
    }
  }

  lemma {:induction false} StillOk(w: Group, op: Op, store: Store, later: Op)
    requires w.Valid() && OpOk(w, later)
    ensures Called(w, op, store).Valid() && OpOk(Called(w, op, store), later)
  {
    hide Called, RolledOutAt, Beyond, ArchivedMine, Settled;
    CalledGrows(w, op, store);
  }

  // ---------- What a pass plans ----------

  lemma {:induction false} AllOwned(cod: Cod, rs: seq<Revision>)
    requires forall k :: 0 <= k < |rs| ==> rs[k].owner == Some(OwnerRef(cod))
    ensures OwnedOf(cod, rs) == rs && AdoptOps(rs) == []
  {
    if rs == [] {
    } else {
      AllOwned(cod, rs[1..]);
    }
  }

  lemma {:induction false} ArchiveOpsAre(rs: seq<Revision>)
    ensures forall op :: op in ArchiveOps(rs) ==> op.Archive? && op.r in rs && !op.r.archived
  {
    if rs == [] {
    } else {
      ArchiveOpsAre(rs[1..]);
      assert forall r :: r in rs[1..] ==> r in rs;
    }
  }

  lemma {:induction false} RemoveOpsAre(rs: seq<Revision>)
    ensures forall op :: op in RemoveOps(rs) ==> op.Remove? && op.r in rs
  {
    if rs == [] {
    } else {
      RemoveOpsAre(rs[1..]);
      assert forall r :: r in rs[1..] ==> r in rs;
    }
  }

  lemma {:induction false} ArchivedOfAre(rs: seq<Revision>)
    ensures forall r :: r in ArchivedOf(rs) <==> r in rs && r.archived
  {
    if rs == [] {
    } else {
      ArchivedOfAre(rs[1..]);
      assert rs == [rs[0]] + rs[1..];
    }
  }

  /** The cached list: empty, or ending in the newest revision, which is active. */
  ghost predicate ViewListed(w: Group, rs: seq<Revision>)
    requires w.Valid()
  {
    var v := w.View();
    && ListedBelow(v.store, UINT32, rs)
    && (rs == [] <==> v.created == 0)
    && (rs != [] ==> rs[|rs| - 1].number == v.created && Active(rs[|rs| - 1]))
  }

  lemma {:induction false} ViewIsListed(w: Group)
    requires w.Valid() && Inv(w)
    ensures ViewListed(w, Listing(w.View().store))
    ensures OwnedOf(w.cod, Listing(w.View().store)) == Listing(w.View().store) && AdoptOps(Listing(w.View().store)) == []
  {
    hide Inv, ListBelow, OwnedOf, AdoptOps, ArchivedOk, Later, ViewListed;
    var v, rs := w.View(), Listing(w.View().store);
    InvStates(w);
    ListingIsExact(v.store, UINT32);
    StateListed(w, rs);
    AllOwned(w.cod, rs);
  }

  lemma {:induction false} StateListed(w: Group, rs: seq<Revision>)
    requires w.Valid() && StateOk(w, w.View()) && ListedBelow(w.View().store, UINT32, rs)
    ensures ViewListed(w, rs)
  {
    var v := w.View();
    if v.created > 0 {
      var k :| 0 <= k < |rs| && rs[k] == v.store[v.created];
      assert rs[k].number <= rs[|rs| - 1].number;
    }
    assert rs != [] ==> rs[0].number in v.store;
  }

  lemma {:induction false} ViewNewest(w: Group, rs: seq<Revision>)
    requires w.Valid() && ViewListed(w, rs)
    ensures MaxNumber(rs) == w.View().created
    ensures LastActive(rs) == if rs == [] then None else Some(rs[|rs| - 1])
    ensures rs != [] ==>
              var v := w.View(); v.created in v.store && rs[|rs| - 1] == v.store[v.created] && Active(rs[|rs| - 1])
  {
    MaxIsLast(rs);
  }

  lemma {:induction false} LatestIsUnsettled(w: Group, rs: seq<Revision>)
    requires w.Valid() && Inv(w) && ViewListed(w, rs) && rs != []
    ensures OpOk(w, Claim(rs[|rs| - 1]))
  {
    hide Inv, RolledOutAt, ListedBelow, NewRevisionOk;
    ViewNewest(w, rs);
    InvStates(w);
  }

  lemma {:induction false} NewOpsOk(w: Group, r: Revision)
    requires w.Valid() && NewRevisionOk(w, r)
    ensures OpOk(w, Create(r)) && OpOk(w, Claim(r))
  {
  }

  lemma {:induction false} SyncOpsOk(w: Group, rs: seq<Revision>, drifted: bool, now: Time)
    requires w.Valid() && Inv(w) && ViewListed(w, rs)
    ensures var ops := SyncOps(w.cod, rs, rs, w.templates[w.templateSeen], drifted, now);
            forall op :: op in ops ==> OpOk(w, op)
  {
    hide Inv, OpOk, NewRevisionOk, LastActive, MaxNumber, NextNumber, Stamped, ListedBelow;
    ViewNewest(w, rs);
    if rs == [] || rs[|rs| - 1].templateHash != w.templates[w.templateSeen] {
      StampedIsNew(w, rs, now);
      NewOpsOk(w, Stamped(w.cod, NextNumber(rs), w.templates[w.templateSeen], now));
    } else {
      LatestIsUnsettled(w, rs);
    }
  }

  lemma {:induction false} StampedIsNew(w: Group, rs: seq<Revision>, now: Time)
    requires w.Valid() && MaxNumber(rs) == w.View().created
    requires var v := w.View();
             v.created > 0 ==> v.created in v.store && v.store[v.created].templateHash != w.templates[w.templateSeen]
    ensures NewRevisionOk(w, Stamped(w.cod, NextNumber(rs), w.templates[w.templateSeen], now))
  {
  }

  lemma {:induction false} OthersAreOlder(w: Group, rs: seq<Revision>)
    requires w.Valid() && ViewListed(w, rs) && rs != []
    ensures var v := w.View();
            && v.created in v.store && v.store[v.created] == rs[|rs| - 1]
            && forall r :: r in rs[..|rs| - 1] ==> r.number in v.store && v.store[r.number] == r && r.number < v.created
  {
    forall r | r in rs[..|rs| - 1] ensures r.number < w.View().created && r in rs {
      var j :| 0 <= j < |rs| - 1 && rs[j] == r;
    }
  }

  lemma {:induction false} SupersedeOpsOk(w: Group, rs: seq<Revision>)
    requires w.Valid() && Inv(w) && ViewListed(w, rs)
    ensures forall op :: op in SupersedeOps(rs) ==> OpOk(w, op)
  {
    if |rs| >= 2 && ConditionTrue(rs[|rs| - 1].status) {
      OthersAreOlder(w, rs);
      ArchiveOpsAre(rs[..|rs| - 1]);
      assert RolledOutAt(w, w.View().created) by {
        InvStates(w);
      }
      hide Inv, ArchiveOps, ViewListed;
    }
  }

  lemma {:induction false} PruneOpsOk(w: Group)
    requires w.Valid() && Keyed(w.View().store)
    ensures forall op :: op in PruneOps(w.cod, OwnedOf(w.cod, Listing(w.View().store))) ==> OpOk(w, op)
  {
    hide Listing, OwnedOf, ArchivedOf, RemoveOps, PruneOps, Lists, Limit, Keyed, Beyond;
    var store, archived := w.View().store, ArchivedOf(OwnedOf(w.cod, Listing(w.View().store)));
    ArchivedLists(w.cod, store);
    ExcessLists(store, archived, ArchivedMine(w.cod, store), Limit(w.cod));
    ListsGathers(store, archived, ArchivedMine(w.cod, store));
    PrunedAre(w.cod, OwnedOf(w.cod, Listing(store)));
    var oldest := archived[..Excess(archived, Limit(w.cod))];
    ListsGathers(store, oldest, Beyond(ArchivedMine(w.cod, store), Limit(w.cod)));
    RemoveOpsAre(oldest);
    BeyondIsSubset(ArchivedMine(w.cod, store), Limit(w.cod));
  }

  lemma {:induction false} ViewIsKeyed(w: Group)
    requires w.Valid() && Inv(w)
    ensures Keyed(w.View().store)
  {
    hide Inv, RolledOutAt;
    InvStates(w);
  }

  lemma {:induction false} PlannedOk(w: Group, drifted: bool, now: Time)
    requires w.Valid() && Inv(w)
    ensures forall op :: op in Planned(w, drifted, now) ==> OpOk(w, op)
  {
    hide Inv, ViewListed, OpOk, Listing, SyncOps, SupersedeOps, PruneOps, OwnedOf, AdoptOps, Keyed;
    var rs := Listing(w.View().store);
    ViewIsListed(w);
    ViewIsKeyed(w);
    SyncOpsOk(w, rs, drifted, now);
    SupersedeOpsOk(w, rs);
    PruneOpsOk(w);
  }

  // ---------- The invariant holds in every run ----------

  lemma {:induction false} StatusKeepsInv(w: Group, n: nat, status: Status)
    requires w.Valid() && Inv(w) && n in w.Current().store && (ConditionTrue(status) ==> RolledOutAt(w, n))
    ensures Inv(w.Became(w.Current().store[n := w.Current().store[n].(status := status)]))
  {
    hide Inv, StateOk, ArchivedOk, DeletedSettled, ConditionTrue, Settled, Later, RolledOutAt;
    var cur := w.Current();
    InvStates(w);
    InvDeleted(w);
    ReportedSnapshot(w, cur, n, status);
    BecameKeepsInv(w, cur.store[n := cur.store[n].(status := status)]);
  }

  lemma {:induction false} ReportedSnapshot(w: Group, s: GroupState, n: nat, status: Status)
    requires StateOk(w, s) && ArchivedOk(w, s) && n in s.store && (ConditionTrue(status) ==> RolledOutAt(w, n))
    ensures var s' := GroupState(s.store[n := s.store[n].(status := status)], s.created);
            StateOk(w, s') && ArchivedOk(w, s') && Later(s, s')
    ensures w.Valid() && DeletedSettled(w, s.store) ==> DeletedSettled(w, s.store[n := s.store[n].(status := status)])
  {
  }

  lemma {:induction false} VanishKeepsInv(w: Group, n: nat)
    requires w.Valid() && Inv(w) && n in w.Current().store && w.Current().store[n].deleting
    ensures Inv(w.Became(w.Current().store - {n}))
  {
    var cur := w.Current();
    InvStates(w);
    InvDeleted(w);
    hide Inv;
    VanishedSnapshot(w, cur, n);
    hide StateOk, ArchivedOk, Settled, Later;
    BecameKeepsInv(w, cur.store - {n});
  }

  lemma {:induction false} VanishedSnapshot(w: Group, s: GroupState, n: nat)
    requires StateOk(w, s) && ArchivedOk(w, s) && n in s.store && s.store[n].deleting
    ensures var s' := GroupState(s.store - {n}, s.created);
            StateOk(w, s') && ArchivedOk(w, s') && Later(s, s')
    ensures w.Valid() && s.created <= |w.creations| && DeletedSettled(w, s.store) ==> DeletedSettled(w, s.store - {n})
  {
  }
}
