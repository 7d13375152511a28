/** Where the ClusterObjectDeployment controller comes to rest: from any history of the group, once the
    newest revision matches the template and is available. */
module CodConvergence {
  import opened Api
  import opened Revisions
  import opened RevisionChain
  import opened CodController
  import opened CodListing
  import opened CodEffects
  import opened Naming
  import opened Progress

  /** The newest revision of the deployment is `n`; it is active and available and has the current
      template.  Others may be in any state, some of them waiting for a teardown. */
  ghost predicate Ready(cod: Cod, store: Store, hash: string, n: nat) {
    && Keyed(store)
    && n in store && Mine(cod, store[n]) && Active(store[n])
    && store[n].templateHash == hash && ConditionTrue(store[n].status)
    && (forall m :: m in store && Mine(cod, store[m]) ==> m <= n)
  }

  ghost function OthersOf(cod: Cod, store: Store, n: nat): set<nat> {
    set m | m in store && Mine(cod, store[m]) && m != n
  }

  /** What a pass that goes through changes, revision by revision. */
  ghost function Effect(cod: Cod, store: Store, n: nat): Store {
    map m | m in store ::
      var r := store[m];
      r.(owner := if r.owner.None? then Some(OwnerRef(cod)) else r.owner,
         archived := r.archived || (Mine(cod, r) && m != n),
         deleting := r.deleting || m in Beyond(ArchivedMine(cod, store), Limit(cod)))
  }

  /** A pass goes through exactly when the server cuts none of its calls off, and then has the effect
      described. */
  lemma {:induction false} PassHasEffect(
      cod: Cod, store: Store, hash: string, n: nat, drifted: bool, now: Time, left: nat)
    requires Ready(cod, store, hash, n)
    ensures var ops := Plan(cod, Listing(store), hash, drifted, now);
            var run := Execute(cod, store, ops, left);
            && (run.ok <==> left >= |ops|)
            && (run.ok ==> Final(store, run) == Effect(cod, store, n))
  {
    PassOutcome(cod, store, hash, drifted, now, left);
    assert !NeedsNew(cod, store, hash) by {
      assert Newest(ActiveMine(cod, store), n);
    }
    hide Plan, Listing, Execute, NeedsNew, Outcome;
    var after := Final(store, Execute(cod, store, Plan(cod, Listing(store), hash, drifted, now), left));
    if Outcome(cod, store, hash, now, after) {
      EffectOfOutcome(cod, store, hash, n, now, after);
    }
  }

  lemma {:induction false} EffectOfOutcome(cod: Cod, store: Store, hash: string, n: nat, now: Time, after: Store)
    requires Ready(cod, store, hash, n) && !NeedsNew(cod, store, hash) && Outcome(cod, store, hash, now, after)
    ensures after == Effect(cod, store, n)
  {
    assert Newest(MineOf(cod, store), n);
    SupersededExactly(cod, store, n);
    hide Beyond, ArchivedMine, Limit, NeedsNew, SupersededMine;
    forall m | m in store ensures after[m] == Effect(cod, store, n)[m] {
    }
  }

  // ---------- The numbers kept ----------

  /** The highest `limit` of the numbers. */
  ghost function Kept(ns: set<nat>, limit: nat): set<nat> {
    ns - Beyond(ns, limit)
  }

  lemma {:induction false} SmallerSet(a: set<nat>, b: set<nat>)
    requires a <= b
    ensures |a| <= |b|
  {
    if a == {} {
    } else {
      var x :| x in a;
      SmallerSet(a - {x}, b - {x});
    }
  }

  lemma {:induction false} AboveIsMonotone(a: set<nat>, b: set<nat>, m: nat)
    requires a <= b
    ensures |Above(a, m)| <= |Above(b, m)|
  {
    SmallerSet(Above(a, m), Above(b, m));
  }

  lemma {:induction false} LowestOf(ns: set<nat>) returns (x: nat)
    requires ns != {}
    ensures x in ns && forall y :: y in ns ==> x <= y
    decreases |ns|
  {
    var z :| z in ns;
    x := z;
    var rest := ns - {z};
    if rest != {} {
      var y := LowestOf(rest);
      x := if y < z then y else z;
    }
    forall y | y in ns ensures x <= y {
      assert y == z || y in rest;
    }
  }

  /** The lowest number has all the others above it, and none of them has it above. */
  lemma {:induction false} WithoutLowest(ns: set<nat>, x: nat, limit: nat)
    requires x in ns && forall y :: y in ns ==> x <= y
    ensures Above(ns, x) == ns - {x}
    ensures Kept(ns, limit) == Kept(ns - {x}, limit) + if |ns| <= limit then {x} else {}
  {
    var rest := ns - {x};
    assert Above(ns, x) == rest;
    forall m | m in rest ensures Above(ns, m) == Above(rest, m) {
    }
    assert |ns| == |rest| + 1;
    assert x in Beyond(ns, limit) <==> |rest| >= limit;
    forall m | m in rest ensures m in Beyond(ns, limit) <==> m in Beyond(rest, limit) {
    }
  }

  lemma {:induction false} KeptCount(ns: set<nat>, limit: nat)
    ensures |Kept(ns, limit)| == if |ns| <= limit then |ns| else limit
    decreases |ns|
  {
    if ns == {} {
    } else {
      var x := LowestOf(ns);
      WithoutLowest(ns, x, limit);
      KeptCount(ns - {x}, limit);
      assert x !in Kept(ns - {x}, limit);
      hide Kept;
    }
  }

  /** Nothing is in excess exactly when there are at most `limit` numbers. */
  lemma {:induction false} NoneBeyondIff(ns: set<nat>, limit: nat)
    ensures Beyond(ns, limit) == {} <==> |ns| <= limit
  {
    KeptCount(ns, limit);
    if Beyond(ns, limit) == {} {
      assert Kept(ns, limit) == ns;
    }
    if |ns| <= limit {
      forall m | m in ns ensures |Above(ns, m)| < limit {
        SmallerSet(Above(ns, m), ns - {m});
      }
    }
  }

  lemma {:induction false} TopSurvives(all: set<nat>, part: set<nat>, limit: nat, r: nat)
    requires Kept(all, limit) <= part && |Above(all, r)| >= limit
    ensures |Above(part, r)| >= limit
  {
    var higher := Above(all, r);
    var top := Kept(higher, limit);
    KeptCount(higher, limit);
    forall x | x in top ensures x in Above(part, r) {
      assert Above(higher, x) == Above(all, x);
    }
    SmallerSet(top, Above(part, r));
  }

  lemma {:induction false} KeptIsSubset(ns: set<nat>, limit: nat)
    ensures Kept(ns, limit) <= ns
  {
  }

  // ---------- Convergence ----------

  /** Revisions that are being deleted have gone. */
  ghost function Swept(store: Store): Store {
    map m | m in store && !store[m].deleting :: store[m]
  }

  /** What a pass depends on besides the store: whether field ownership has drifted, the time, and how
      many calls the server lets through. */
  datatype PassInput = PassInput(drifted: bool, now: Time, left: nat)

  ghost function RunOfPass(cod: Cod, store: Store, hash: string, p: PassInput): Run {
    Execute(cod, store, Plan(cod, Listing(store), hash, p.drifted, p.now), p.left)
  }

  /** The store after a pass, once its deletions have taken effect. */
  ghost function AfterPass(cod: Cod, store: Store, hash: string, p: PassInput): Store {
    Swept(Final(store, RunOfPass(cod, store, hash, p)))
  }

  /** A pass that goes through. */
  ghost predicate GoesThrough(cod: Cod, store: Store, hash: string, p: PassInput) {
    RunOfPass(cod, store, hash, p).ok
  }

  /** All revisions but the newest are owned and archived. */
  ghost predicate OthersArchived(cod: Cod, store: Store, n: nat) {
    forall m :: m in store && Mine(cod, store[m]) ==> store[m].owner.Some? && (m != n ==> store[m].archived)
  }

  lemma {:induction false} AfterReadyPass(cod: Cod, store: Store, hash: string, n: nat, p: PassInput)
    requires Ready(cod, store, hash, n) && GoesThrough(cod, store, hash, p)
    ensures AfterPass(cod, store, hash, p) == Swept(Effect(cod, store, n))
  {
    PassHasEffect(cod, store, hash, n, p.drifted, p.now, p.left);
  }

  /** The revisions that are being deleted. */
  ghost function Deleting(store: Store): set<nat> {
    set m | m in store && store[m].deleting
  }

  /** What a pass, with the deletions taking effect, removes. */
  ghost function GoneAfter(cod: Cod, store: Store): set<nat> {
    Deleting(store) + Beyond(ArchivedMine(cod, store), Limit(cod))
  }

  /** All but the numbers in `gone` are carried over, other owners' revisions as they are. */
  ghost predicate PassedOn(cod: Cod, store: Store, n: nat, next: Store, gone: set<nat>) {
    && (forall m :: m in next <==> m in store && m !in gone)
    && (forall m :: m in next ==> (Mine(cod, next[m]) <==> Mine(cod, store[m])))
    && (forall m :: m in next && !Mine(cod, store[m]) ==> next[m] == store[m])
    && (OthersArchived(cod, store, n) ==> forall m :: m in next ==> next[m] == store[m])
  }

  /** Revision by revision, what a pass with deletions taking effect leaves. */
  ghost predicate Left(cod: Cod, store: Store, n: nat, next: Store, gone: set<nat>) {
    && (forall m :: m in next <==> m in store && m !in gone)
    && (forall m :: m in next ==>
          next[m] == store[m].(owner := if store[m].owner.None? then Some(OwnerRef(cod)) else store[m].owner,
                               archived := store[m].archived || (Mine(cod, store[m]) && m != n)))
  }

  lemma {:induction false} SweptEffect(cod: Cod, store: Store, hash: string, n: nat)
    requires Ready(cod, store, hash, n)
    ensures var next := Swept(Effect(cod, store, n));
            && Ready(cod, next, hash, n) && OthersArchived(cod, next, n) && Deleting(next) == {}
            && PassedOn(cod, store, n, next, GoneAfter(cod, store))
  {
    hide Ready, PassedOn, OthersArchived, Left, Keyed;
    SweptIsLeft(cod, store, n);
    NewestStays(cod, store, hash, n);
    LeftIsReady(cod, store, hash, n, Swept(Effect(cod, store, n)), GoneAfter(cod, store));
  }

  lemma {:induction false} SweptIsLeft(cod: Cod, store: Store, n: nat)
    ensures Left(cod, store, n, Swept(Effect(cod, store, n)), GoneAfter(cod, store))
    ensures Deleting(Swept(Effect(cod, store, n))) == {}
  {
    hide Beyond, ArchivedMine, Limit;
  }

  lemma {:induction false} NewestStays(cod: Cod, store: Store, hash: string, n: nat)
    requires Ready(cod, store, hash, n)
    ensures n in store && Active(store[n]) && n !in GoneAfter(cod, store)
  {
    BeyondIsSubset(ArchivedMine(cod, store), Limit(cod));
  }

  lemma {:induction false} LeftIsReady(cod: Cod, store: Store, hash: string, n: nat, next: Store, gone: set<nat>)
    requires Ready(cod, store, hash, n) && n !in gone && Left(cod, store, n, next, gone)
    ensures Ready(cod, next, hash, n) && OthersArchived(cod, next, n) && PassedOn(cod, store, n, next, gone)
  {
  }

  /** Removing them leaves, of the others, the rest. */
  lemma {:induction false} OthersLeft(cod: Cod, store: Store, hash: string, n: nat)
    requires Ready(cod, store, hash, n)
    ensures ArchivedMine(cod, store) <= OthersOf(cod, store, n)
    ensures OthersArchived(cod, store, n) ==> ArchivedMine(cod, store) == OthersOf(cod, store, n)
    ensures OthersOf(cod, Swept(Effect(cod, store, n)), n) == OthersOf(cod, store, n) - GoneAfter(cod, store)
  {
    hide Effect, Swept, Beyond, Ready, Keyed, Limit, GoneAfter;
    SweptEffect(cod, store, hash, n);
    NewestStays(cod, store, hash, n);
  }

  // ---------- The state of rest ----------

  /** The newest revision is the only active one, the others are those in `kept`, archived, and revisions
      of other owners are as they were, unless they were being deleted. */
  ghost predicate AtRest(cod: Cod, before: Store, n: nat, after: Store, kept: set<nat>) {
    var others := OthersOf(cod, before, n);
    && n in after
    && (forall m :: m in after && m in others ==> m in kept)
    && (forall m :: m in kept ==> m in others && m in after)
    && (forall m :: m in before && m !in others && m != n ==> (m in after <==> !before[m].deleting))
    && (forall m :: m in after ==> m in before)
    && (forall m :: m in after && Mine(cod, before[m]) ==>
          && after[m].owner.Some? && after[m].owner.value.uid == cod.uid
          && !after[m].deleting && (after[m].archived <==> m != n))
    && (forall m :: m in after && !Mine(cod, before[m]) ==> after[m] == before[m])
  }

  /** What two passes keep of the others: the highest within the limit, of those that the first one did not
      remove. */
  ghost function KeptByTwo(cod: Cod, store: Store, n: nat): set<nat> {
    Kept(OthersOf(cod, store, n) - GoneAfter(cod, store), Limit(cod))
  }

  /** The revisions of the deployment that are being deleted already have at least the limit of higher ones,
      not counting the newest. */
  ghost predicate DeletionsInExcess(cod: Cod, store: Store, n: nat) {
    forall m :: m in OthersOf(cod, store, n) && store[m].deleting ==> m in Beyond(OthersOf(cod, store, n), Limit(cod))
  }

  /** From any history, whatever is being deleted: two passes that go through leave the newest revision the
      only active one, and a third changes nothing.  The others left are exactly the highest ones within
      the limit if and only if none of these was being deleted at the start. */
  lemma {:induction false} Converges(
      cod: Cod, store: Store, hash: string, n: nat, p: PassInput, q: PassInput, r: PassInput)
    requires Ready(cod, store, hash, n) && GoesThrough(cod, store, hash, p)
    requires GoesThrough(cod, AfterPass(cod, store, hash, p), hash, q)
    requires GoesThrough(cod, AfterPass(cod, AfterPass(cod, store, hash, p), hash, q), hash, r)
    ensures var rest := AfterPass(cod, AfterPass(cod, store, hash, p), hash, q);
            && AtRest(cod, store, n, rest, KeptByTwo(cod, store, n))
            && (KeptByTwo(cod, store, n) == Kept(OthersOf(cod, store, n), Limit(cod)) <==> DeletionsInExcess(cod, store, n))
            && OthersOf(cod, rest, n) == KeptByTwo(cod, store, n)
            && Ready(cod, rest, hash, n) && OthersArchived(cod, rest, n)
            && Final(rest, RunOfPass(cod, rest, hash, r)) == rest
  {
    hide Ready, OthersArchived, Swept, Effect, AfterPass, OthersOf, ArchivedMine, Beyond, Kept, KeptByTwo, AtRest,
      DeletionsInExcess, PassedOn, GoneAfter, Deleting, Limit, GoesThrough;
    AfterReadyPass(cod, store, hash, n, p);
    var first := Swept(Effect(cod, store, n));
    SweptEffect(cod, store, hash, n);
    AfterReadyPass(cod, first, hash, n, q);
    var rest := Swept(Effect(cod, first, n));
    SweptEffect(cod, first, hash, n);
    RestReached(cod, store, hash, n, first, rest);
    DeletionsCount(cod, store, hash, n);
    NothingLeftToDo(cod, store, hash, n, first, rest);
    PassHasEffect(cod, rest, hash, n, r.drifted, r.now, r.left);
    ThirdPass(cod, rest, hash, r);
  }

  lemma {:induction false} ThirdPass(cod: Cod, store: Store, hash: string, p: PassInput)
    ensures GoesThrough(cod, store, hash, p) ==>
              Execute(cod, store, Plan(cod, Listing(store), hash, p.drifted, p.now), p.left).ok
  {
  }

  lemma {:induction false} RestReached(cod: Cod, store: Store, hash: string, n: nat, first: Store, rest: Store)
    requires Ready(cod, store, hash, n) && first == Swept(Effect(cod, store, n)) && rest == Swept(Effect(cod, first, n))
    ensures OthersOf(cod, rest, n) == KeptByTwo(cod, store, n)
    ensures AtRest(cod, store, n, rest, KeptByTwo(cod, store, n))
  {
    hide Ready, Swept, Effect, OthersArchived, PassedOn, Beyond, Limit, ArchivedMine, OthersOf, AtRest, Deleting, Kept, KeptByTwo;
    SweptEffect(cod, store, hash, n);
    SweptEffect(cod, first, hash, n);
    OthersLeft(cod, store, hash, n);
    OthersLeft(cod, first, hash, n);
    RestNumbers(cod, store, n, first, rest);
    RestFrom(cod, store, hash, n, first, rest, GoneAfter(cod, store), GoneAfter(cod, first));
  }

  lemma {:induction false} RestNumbers(cod: Cod, store: Store, n: nat, first: Store, rest: Store)
    requires OthersOf(cod, first, n) == OthersOf(cod, store, n) - GoneAfter(cod, store) && Deleting(first) == {}
    requires ArchivedMine(cod, first) == OthersOf(cod, first, n)
    requires OthersOf(cod, rest, n) == OthersOf(cod, first, n) - GoneAfter(cod, first)
    ensures OthersOf(cod, rest, n) == KeptByTwo(cod, store, n)
    ensures GoneAfter(cod, first) <= OthersOf(cod, first, n)
  {
    hide OthersOf, ArchivedMine, Beyond, Limit;
    BeyondIsSubset(OthersOf(cod, first, n), Limit(cod));
    assert GoneAfter(cod, first) == Beyond(OthersOf(cod, first, n), Limit(cod));
  }

  lemma {:induction false} RestFrom(
      cod: Cod, store: Store, hash: string, n: nat, first: Store, rest: Store, gone: set<nat>, goneNext: set<nat>)
    requires Ready(cod, store, hash, n) && Ready(cod, rest, hash, n) && OthersArchived(cod, rest, n)
    requires OthersArchived(cod, first, n) && Deleting(rest) == {}
    requires PassedOn(cod, store, n, first, gone) && PassedOn(cod, first, n, rest, goneNext)
    requires gone == GoneAfter(cod, store) && goneNext <= OthersOf(cod, first, n)
    ensures AtRest(cod, store, n, rest, OthersOf(cod, rest, n))
  {
    hide Keyed, Beyond, ConditionTrue, Limit, Deleting, ArchivedMine, GoneAfter;
    OthersLeft(cod, store, hash, n);
    GoneExactly(cod, store, n);
    NoneDeleting(rest);
    assert forall m :: m in rest ==> (Mine(cod, rest[m]) <==> Mine(cod, store[m]));
  }

  lemma {:induction false} GoneExactly(cod: Cod, store: Store, n: nat)
    requires ArchivedMine(cod, store) <= OthersOf(cod, store, n)
    ensures forall m :: m in store && m !in OthersOf(cod, store, n) ==> (m in GoneAfter(cod, store) <==> store[m].deleting)
  {
    hide ArchivedMine, Beyond, Limit;
    BeyondIsSubset(ArchivedMine(cod, store), Limit(cod));
  }

  /** What two passes keep is what the limit allows exactly when the deletions are in excess of it. */
  lemma {:induction false} DeletionsCount(cod: Cod, store: Store, hash: string, n: nat)
    requires Ready(cod, store, hash, n)
    ensures KeptByTwo(cod, store, n) == Kept(OthersOf(cod, store, n), Limit(cod)) <==> DeletionsInExcess(cod, store, n)
  {
    hide Ready, Limit, Beyond, ArchivedMine;
    var all, archived, limit := OthersOf(cod, store, n), ArchivedMine(cod, store), Limit(cod);
    OthersLeft(cod, store, hash, n);
    var deleting := Deleting(store) * all;
    RoundsAgreeIff(all, archived, deleting, limit);
    assert all - GoneAfter(cod, store) == all - Beyond(archived, limit) - deleting;
    assert DeletionsInExcess(cod, store, n) <==> deleting <= Beyond(all, limit);
  }

  /** Removing some of the excess and any others first, and the excess of what is left then, keeps what the
      limit allows exactly when the others were in excess. */
  lemma {:induction false} RoundsAgreeIff(all: set<nat>, some: set<nat>, lost: set<nat>, limit: nat)
    requires some <= all && lost <= all
    ensures Kept(all - Beyond(some, limit) - lost, limit) == Kept(all, limit) <==> lost <= Beyond(all, limit)
  {
    var rest := all - Beyond(some, limit) - lost;
    hide Beyond;
    KeptIsSubset(rest, limit);
    KeptIsRest(all, limit);
    if lost <= Beyond(all, limit) {
      SomeExcess(all, some, limit);
      KeptFromPart(all, rest, limit);
    } else {
      var m :| m in lost && m !in Beyond(all, limit);
      assert m in Kept(all, limit) && m !in Kept(rest, limit);
    }
  }

  lemma {:induction false} KeptIsRest(ns: set<nat>, limit: nat)
    ensures forall m :: m in Kept(ns, limit) <==> m in ns && m !in Beyond(ns, limit)
  {
  }

  /** The excess of some is in excess of all. */
  lemma {:induction false} SomeExcess(all: set<nat>, some: set<nat>, limit: nat)
    requires some <= all
    ensures Beyond(some, limit) <= Beyond(all, limit)
  {
    forall m | m in Beyond(some, limit) ensures m in Beyond(all, limit) {
      AboveIsMonotone(some, all, m);
    }
  }

  /** Any part that holds the highest ones has the same highest ones. */
  lemma {:induction false} KeptFromPart(all: set<nat>, part: set<nat>, limit: nat)
    requires Kept(all, limit) <= part <= all
    ensures Kept(part, limit) == Kept(all, limit)
  {
    forall r | r in part ensures r in Kept(part, limit) <==> r in Kept(all, limit) {
      AboveIsMonotone(part, all, r);
      if r !in Kept(all, limit) {
        TopSurvives(all, part, limit, r);
      }
    }
  }

  lemma {:induction false} NothingLeftToDo(cod: Cod, store: Store, hash: string, n: nat, first: Store, rest: Store)
    requires Ready(cod, store, hash, n) && first == Swept(Effect(cod, store, n)) && rest == Swept(Effect(cod, first, n))
    requires Ready(cod, rest, hash, n) && OthersArchived(cod, rest, n) && Deleting(rest) == {}
    ensures Effect(cod, rest, n) == rest
  {
    hide Ready, OthersArchived, Swept, Effect, OthersOf, Beyond, Limit, Kept, Deleting, AtRest, GoneAfter;
    RestReached(cod, store, hash, n, first, rest);
    KeptCount(OthersOf(cod, store, n) - GoneAfter(cod, store), Limit(cod));
    StillIff(cod, rest, hash, n);
  }

  /** Two archived revisions, of which the higher one was deleted by hand, and the newest. */
  ghost function HigherDeletedByHand(cod: Cod, hash: string, archived: Status, available: Status): Store {
    map[1 := Stamped(cod, 1, "a", 0).(archived := true, status := archived),
        2 := Stamped(cod, 2, "b", 0).(archived := true, deleting := true, status := archived),
        3 := Stamped(cod, 3, hash, 0).(status := available)]
  }

  /** The input that shows it: with a limit of one, revision 1 is removed while revision 2 is still counted,
      and none is left. */
  lemma {:induction false} HandDeletionLeavesFewer(
      cod: Cod, hash: string, archived: Status, available: Status, p: PassInput, q: PassInput)
    requires cod.historyLimit == Some(1) && ConditionTrue(available)
    requires var store := HigherDeletedByHand(cod, hash, archived, available);
             GoesThrough(cod, store, hash, p) && GoesThrough(cod, AfterPass(cod, store, hash, p), hash, q)
    ensures var store := HigherDeletedByHand(cod, hash, archived, available);
            var rest := AfterPass(cod, AfterPass(cod, store, hash, p), hash, q);
            && Ready(cod, store, hash, 3) && !DeletionsInExcess(cod, store, 3)
            && |OthersOf(cod, store, 3)| == 2 && OthersOf(cod, rest, 3) == {}
  {
    hide Swept, Effect, AfterPass, GoesThrough, KeptByTwo, NameOf, AtRest, PassedOn;
    var store := HigherDeletedByHand(cod, hash, archived, available);
    ByHandNumbers(cod, hash, archived, available);
    AfterReadyPass(cod, store, hash, 3, p);
    var first := Swept(Effect(cod, store, 3));
    SweptEffect(cod, store, hash, 3);
    AfterReadyPass(cod, first, hash, 3, q);
    RestReached(cod, store, hash, 3, first, Swept(Effect(cod, first, 3)));
  }

  lemma {:induction false} ByHandNumbers(cod: Cod, hash: string, archived: Status, available: Status)
    requires cod.historyLimit == Some(1) && ConditionTrue(available)
    ensures var store := HigherDeletedByHand(cod, hash, archived, available);
            && Ready(cod, store, hash, 3) && !DeletionsInExcess(cod, store, 3)
            && OthersOf(cod, store, 3) == {1, 2} && KeptByTwo(cod, store, 3) == {}
  {
    hide NameOf, Beyond, Above, Kept;
    var store := HigherDeletedByHand(cod, hash, archived, available);
    BeyondTwo();
    ByHandIsReady(cod, hash, archived, available);
    assert OthersOf(cod, store, 3) == {1, 2} == ArchivedMine(cod, store);
    assert Deleting(store) == {2};
    assert GoneAfter(cod, store) == {1, 2};
    assert OthersOf(cod, store, 3) - GoneAfter(cod, store) == {};
    KeptIsSubset({}, 1);
  }

  lemma {:induction false} BeyondTwo()
    ensures Beyond({1, 2}, 1) == {1}
  {
    assert Above({1, 2}, 1) == {2} && Above({1, 2}, 2) == {};
  }

  lemma {:induction false} ByHandIsReady(cod: Cod, hash: string, archived: Status, available: Status)
    requires ConditionTrue(available)
    ensures Ready(cod, HigherDeletedByHand(cod, hash, archived, available), hash, 3)
  {
    hide NameOf;
  }

  lemma {:induction false} NoActiveOnes(rs: seq<Revision>)
    requires forall k :: 0 <= k < |rs| ==> !Active(rs[k])
    ensures ActiveOnes(rs) == []
  {
    if rs == [] {
    } else {
      NoActiveOnes(rs[..|rs| - 1]);
    }
  }

  /** At rest, the deployment reports exactly the newest revision, as available, with its counts and, once
      that revision completed, as progressed. */
  lemma {:induction false} RestIsReported(cod: Cod, store: Store, hash: string, n: nat, now: Time)
    requires Ready(cod, store, hash, n) && OthersArchived(cod, store, n)
    ensures var s := StatusOf(cod, OwnedOf(cod, Listing(store)), now);
            && s.active == [store[n].name] && s.availability == ActiveAvailable && s.counts == store[n].status.counts
            && (store[n].status.completedAt.Some? ==> s.progress == Verdict(CondTrue, Progressed, 0))
  {
    hide Listing, OwnedOf, Lists;
    var owned := OwnedOf(cod, Listing(store));
    OwnedLists(cod, store);
    LastOwned(cod, store, hash, n, owned);
    var rest := owned[..|owned| - 1];
    NoActiveOnes(rest);
    assert ActiveOnes(owned) == [store[n]];
  }

  lemma {:induction false} LastOwned(cod: Cod, store: Store, hash: string, n: nat, owned: seq<Revision>)
    requires Ready(cod, store, hash, n) && OthersArchived(cod, store, n) && Lists(store, owned, MineOf(cod, store))
    ensures owned != [] && owned[|owned| - 1] == store[n] && Active(store[n]) && ConditionTrue(store[n].status)
    ensures forall k :: 0 <= k < |owned| - 1 ==> !Active(owned[k])
  {
    hide Strict;
    assert store[n] in owned;
    NewestIsLast(cod, store, owned);
    var last := owned[|owned| - 1].number;
    assert last == n;
    var rest := owned[..|owned| - 1];
    forall k | 0 <= k < |owned| - 1 ensures !Active(owned[k]) {
      assert rest[k] == owned[k] && owned[k].number in MineOf(cod, store) - {n};
    }
  }

  /** Once the others are archived and no deletion is pending, a pass changes nothing exactly when they are
      within the limit. */
  lemma {:induction false} StillIff(cod: Cod, store: Store, hash: string, n: nat)
    requires Ready(cod, store, hash, n) && OthersArchived(cod, store, n) && Deleting(store) == {}
    ensures Effect(cod, store, n) == store <==> |OthersOf(cod, store, n)| <= Limit(cod)
  {
    hide Ready, Beyond, Limit;
    OthersLeft(cod, store, hash, n);
    var beyond := Beyond(ArchivedMine(cod, store), Limit(cod));
    NoneBeyondIff(ArchivedMine(cod, store), Limit(cod));
    BeyondIsSubset(ArchivedMine(cod, store), Limit(cod));
    NoneDeleting(store);
    if m :| m in beyond {
      assert Effect(cod, store, n)[m].deleting && !store[m].deleting;
    }
  }

  lemma {:induction false} NoneDeleting(store: Store)
    requires Deleting(store) == {}
    ensures forall m :: m in store ==> !store[m].deleting
  {
    forall m | m in store ensures !store[m].deleting {
      assert m !in Deleting(store);
    }
  }

  /** One pass is enough exactly when those it leaves are within the limit: all but the ones being deleted
      already and the ones it can remove, which were archived when it listed them. */
  lemma {:induction false} OnePassIsEnoughIff(cod: Cod, store: Store, hash: string, n: nat, p: PassInput, q: PassInput)
    requires Ready(cod, store, hash, n) && GoesThrough(cod, store, hash, p)
    requires GoesThrough(cod, AfterPass(cod, store, hash, p), hash, q)
    ensures var first := AfterPass(cod, store, hash, p);
            Final(first, RunOfPass(cod, first, hash, q)) == first
            <==> |OthersOf(cod, store, n) - GoneAfter(cod, store)| <= Limit(cod)
  {
    hide Swept, Effect, Ready, OthersArchived, OthersOf, ArchivedMine, Beyond, Limit, Deleting, GoneAfter, PassedOn;
    AfterReadyPass(cod, store, hash, n, p);
    var first := Swept(Effect(cod, store, n));
    SweptEffect(cod, store, hash, n);
    OthersLeft(cod, store, hash, n);
    StillIff(cod, first, hash, n);
    PassHasEffect(cod, first, hash, n, q.drifted, q.now, q.left);
  }
}
