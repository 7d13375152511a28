/** What one pass of the ClusterObjectDeployment controller reports, and what it keeps, told from the store
    alone. */
module CodLaws {
  import opened Api
  import opened Revisions
  import opened RevisionChain
  import opened CodController
  import opened CodListing
  import opened CodEffects
  import opened CodConvergence
  import opened Naming
  import opened Progress

  // ---------- The active revisions ----------

  lemma {:induction false} ActiveOnesStrict(rs: seq<Revision>)
    requires Strict(rs)
    ensures Strict(ActiveOnes(rs))
  {
    if rs == [] {
    } else {
      var init, last := rs[..|rs| - 1], rs[|rs| - 1];
      ActiveOnesStrict(init);
      ActiveOnesMembers(init);
      var active := ActiveOnes(init);
      forall k | 0 <= k < |active| ensures active[k].number < last.number {
        assert active[k] in init;
      }
    }
  }

  /** The deployment's active revisions, oldest first. */
  ghost function ActiveList(cod: Cod, store: Store): seq<Revision> {
    ActiveOnes(OwnedOf(cod, Listing(store)))
  }

  lemma {:induction false} ActiveLists(cod: Cod, store: Store)
    requires Keyed(store)
    ensures Lists(store, ActiveList(cod, store), ActiveMine(cod, store))
  {
    var owned := OwnedOf(cod, Listing(store));
    OwnedLists(cod, store);
    ListsGathers(store, owned, MineOf(cod, store));
    hide Listing, Lists, OwnedOf, ActiveOnes, Strict;
    ActiveOnesMembers(owned);
    ActiveOnesStrict(owned);
    ListsGathered(store, ActiveOnes(owned), ActiveMine(cod, store));
  }

  /** A list of the revisions with the numbers `ns`, in ascending order, has as many entries, and ends in
      the newest. */
  lemma {:induction false} ListEnds(store: Store, rs: seq<Revision>, ns: set<nat>)
    requires Keyed(store) && Lists(store, rs, ns)
    ensures |rs| == |ns|
    ensures rs != [] ==> Newest(ns, rs[|rs| - 1].number) && rs[|rs| - 1] == store[rs[|rs| - 1].number]
  {
    if rs == [] {
      assert ns == {};
    } else {
      var k, low := |rs| - 1, rs[0].number;
      AboveCount(store, rs, ns, 0);
      forall m | m in ns ensures low <= m <= rs[k].number {
        assert store[m] in rs;
        var j :| 0 <= j < |rs| && rs[j] == store[m];
      }
      assert ns == Above(ns, low) + {low};
    }
  }

  // ---------- The reported status ----------

  ghost function Reported(cod: Cod, store: Store, now: Time): CodStatus {
    StatusOf(cod, OwnedOf(cod, Listing(store)), now)
  }

  /** For every group: the counts and the deadline are those of the newest active revision, whatever older
      ones say; availability counts the active revisions, and goes by the condition of the only one; and
      without an active revision there is nothing to report. */
  lemma {:induction false} ReportedExactly(cod: Cod, store: Store, now: Time)
    requires Keyed(store)
    ensures var ns, s := ActiveMine(cod, store), Reported(cod, store, now);
            && |s.active| == |ns|
            && (forall n :: Newest(ns, n) ==>
                  var r := store[n];
                  var latest := Progress.Latest.Latest(r.created, r.status.completedAt, r.status.phases);
                  && s.counts == r.status.counts
                  && s.progress == VerdictOf(cod.deadlineMinutes, Some(latest), now, cod.deadlineUnit))
            && (s.availability == NoneActive <==> |ns| == 0)
            && (s.availability == InTransition <==> |ns| >= 2)
            && (s.availability == ActiveAvailable <==>
                  |ns| == 1 && forall n :: n in ns ==> ConditionTrue(store[n].status))
            && (s.availability == ActiveUnavailable <==>
                  |ns| == 1 && forall n :: n in ns ==> !ConditionTrue(store[n].status))
            && (ns == {} ==> s.counts == None && s.progress == Verdict(CondFalse, NoActiveRevisions, 0))
  {
    var ns, active := ActiveMine(cod, store), ActiveList(cod, store);
    ActiveLists(cod, store);
    ListEnds(store, active, ns);
    hide Listing, OwnedOf, ActiveOnes, Lists, ActiveMine, Keyed;
    if |ns| == 1 {
      var n := active[0].number;
      assert ns == {n} by {
        OnlyOne(ns, n);
      }
    }
  }

  lemma {:induction false} OnlyOne(ns: set<nat>, n: nat)
    requires |ns| == 1 && n in ns
    ensures ns == {n}
  {
    assert |ns - {n}| == 0;
  }

  /** `names` are those of the active revisions, oldest first, each once. */
  ghost predicate NamesInOrder(cod: Cod, store: Store, names: seq<string>, numbers: seq<nat>) {
    && |names| == |numbers| == |ActiveMine(cod, store)|
    && (forall i, j :: 0 <= i < j < |numbers| ==> numbers[i] < numbers[j])
    && (forall k :: 0 <= k < |numbers| ==> numbers[k] in ActiveMine(cod, store) && names[k] == store[numbers[k]].name)
  }

  lemma {:induction false} ReportedInOrder(cod: Cod, store: Store, now: Time)
    requires Keyed(store)
    ensures exists numbers :: NamesInOrder(cod, store, Reported(cod, store, now).active, numbers)
  {
    var active := ActiveList(cod, store);
    ActiveLists(cod, store);
    ListEnds(store, active, ActiveMine(cod, store));
    hide Listing, OwnedOf, ActiveOnes, ActiveMine, Keyed;
    var numbers := seq(|active|, k requires 0 <= k < |active| => active[k].number);
    assert NamesInOrder(cod, store, Reported(cod, store, now).active, numbers);
  }

  // ---------- What is kept ----------

  /** After a pass that goes through over a group of which no archived revision is being deleted, as many
      of those archived before are kept as the deployment says: five if it says nothing, none if it says 0,
      and all if there are fewer. */
  lemma {:induction false} HistoryLeft(cod: Cod, store: Store, hash: string, drifted: bool, now: Time, left: nat)
    requires Keyed(store) && forall m :: m in ArchivedMine(cod, store) ==> !store[m].deleting
    ensures var run := Execute(cod, store, Plan(cod, Listing(store), hash, drifted, now), left);
            var after, archived := Final(store, run), ArchivedMine(cod, store);
            var limit := if cod.historyLimit == None then 5 else cod.historyLimit.value;
            run.ok ==> |set m | m in archived && m in after && !after[m].deleting|
                       == if |archived| <= limit then |archived| else limit
  {
    hide Execute, Plan, Listing, NeedsNew, SupersededMine, Final, Keyed;
    PassOutcome(cod, store, hash, drifted, now, left);
    var run := Execute(cod, store, Plan(cod, Listing(store), hash, drifted, now), left);
    if run.ok {
      KeptByPass(cod, store, hash, now, Final(store, run));
      KeptCount(ArchivedMine(cod, store), Limit(cod));
    }
  }

  lemma {:induction false} KeptByPass(cod: Cod, store: Store, hash: string, now: Time, after: Store)
    requires Outcome(cod, store, hash, now, after) && forall m :: m in ArchivedMine(cod, store) ==> !store[m].deleting
    ensures (set m | m in ArchivedMine(cod, store) && m in after && !after[m].deleting)
            == Kept(ArchivedMine(cod, store), Limit(cod))
  {
    hide NeedsNew, SupersededMine, Limit;
  }

  /** Every revision that a pass which goes through adds to a group is current and active, owned by the
      deployment, named after its number, created now, and has no status yet. */
  lemma {:induction false} AddedExactly(
      cod: Cod, store: Store, hash: string, drifted: bool, now: Time, left: nat, m: nat)
    requires Keyed(store) && m !in store
    ensures var run := Execute(cod, store, Plan(cod, Listing(store), hash, drifted, now), left);
            var after := Final(store, run);
            run.ok && m in after ==>
              && NeedsNew(cod, store, hash) && NextOf(store, m)
              && var r := after[m];
                 && r.number == m && r.name == NameOf(cod.name, m) && r.created == now && r.templateHash == hash
                 && r.owner == Some(Owner("ClusterObjectDeployment", cod.name, cod.uid))
                 && !r.archived && !r.deleting && r.status == EMPTY_STATUS
  {
    hide Execute, Plan, Listing, NeedsNew, NextOf, Treated, Keyed, NameOf, Final;
    PassOutcome(cod, store, hash, drifted, now, left);
  }

  // ---------- The calls of a pass, one by one ----------

  /** The calls come in groups, and in each group the lowest number comes first. */
  function Rank(op: Op): int {
    match op
    case Adopt(_) => 0
    case Create(_) => 1
    case Claim(_) => 2
    case Archive(_) => 3
    case Remove(_) => 4
  }

  predicate Before(a: Op, b: Op) {
    Rank(a) < Rank(b) || (Rank(a) == Rank(b) && a.r.number < b.r.number)
  }

  ghost predicate InTurn(ops: seq<Op>) {
    forall i, j :: 0 <= i < j < |ops| ==> Before(ops[i], ops[j])
  }

  /** The revision a pass creates: of the current template, with the next number; after the highest 32-bit
      number that is 0. */
  ghost predicate IsNew(cod: Cod, store: Store, hash: string, now: Time, r: Revision) {
    && NeedsNew(cod, store, hash)
    && (if UINT32 - 1 in store then r.number == 0 else NextOf(store, r.number))
    && r == Stamped(cod, r.number, hash, now)
  }

  ghost predicate Stored(store: Store, r: Revision) {
    r.number in store && store[r.number] == r
  }

  /** The call is due. */
  ghost predicate Due(cod: Cod, store: Store, hash: string, drifted: bool, now: Time, op: Op) {
    match op
    case Adopt(r) => Stored(store, r) && r.owner == None
    case Create(r) => IsNew(cod, store, hash, now, r)
    case Claim(r) =>
      IsNew(cod, store, hash, now, r)
      || (drifted && Stored(store, r) && Newest(ActiveMine(cod, store), r.number) && r.templateHash == hash)
    case Archive(r) => Stored(store, r) && r.number in SupersededMine(cod, store) && !r.archived
    case Remove(r) => Stored(store, r) && r.number in Beyond(ArchivedMine(cod, store), Limit(cod))
  }

  lemma {:induction false} InTurnCons(op: Op, ops: seq<Op>)
    requires InTurn(ops) && forall x :: x in ops ==> Before(op, x)
    ensures InTurn([op] + ops)
  {
    assert forall k :: 0 <= k < |ops| ==> ops[k] in ops;
  }

  lemma {:induction false} InTurnConcat(a: seq<Op>, b: seq<Op>)
    requires InTurn(a) && InTurn(b) && forall x, y :: x in a && y in b ==> Before(x, y)
    ensures InTurn(a + b)
  {
    assert forall k :: 0 <= k < |a| ==> a[k] in a;
    assert forall k :: 0 <= k < |b| ==> b[k] in b;
  }

  lemma {:induction false} AdoptOpsAre(rs: seq<Revision>)
    requires Strict(rs)
    ensures InTurn(AdoptOps(rs)) && forall op :: op in AdoptOps(rs) <==> op.Adopt? && op.r in rs && op.r.owner == None
  {
    if rs == [] {
    } else {
      StrictTail(rs);
      AdoptOpsAre(rs[1..]);
      assert rs == [rs[0]] + rs[1..];
      hide InTurn, Strict, AdoptOps;
      AdoptFirst(rs);
      if rs[0].owner == None {
        InTurnCons(Adopt(rs[0]), AdoptOps(rs[1..]));
      }
    }
  }

  lemma {:induction false} AdoptFirst(rs: seq<Revision>)
    requires rs != []
    ensures AdoptOps(rs) == if rs[0].owner == None then [Adopt(rs[0])] + AdoptOps(rs[1..]) else AdoptOps(rs[1..])
  {
  }

  lemma {:induction false} ArchiveOpsAre(rs: seq<Revision>)
    requires Strict(rs)
    ensures InTurn(ArchiveOps(rs)) && forall op :: op in ArchiveOps(rs) <==> op.Archive? && op.r in rs && !op.r.archived
  {
    if rs == [] {
    } else {
      StrictTail(rs);
      ArchiveOpsAre(rs[1..]);
      assert rs == [rs[0]] + rs[1..];
      hide InTurn, Strict, ArchiveOps;
      ArchiveFirst(rs);
      if !rs[0].archived {
        InTurnCons(Archive(rs[0]), ArchiveOps(rs[1..]));
      }
    }
  }

  lemma {:induction false} ArchiveFirst(rs: seq<Revision>)
    requires rs != []
    ensures ArchiveOps(rs) == if rs[0].archived then ArchiveOps(rs[1..]) else [Archive(rs[0])] + ArchiveOps(rs[1..])
  {
  }

  lemma {:induction false} RemoveOpsAre(rs: seq<Revision>)
    requires Strict(rs)
    ensures InTurn(RemoveOps(rs)) && forall op :: op in RemoveOps(rs) <==> op.Remove? && op.r in rs
  {
    if rs == [] {
    } else {
      StrictTail(rs);
      RemoveOpsAre(rs[1..]);
      assert rs == [rs[0]] + rs[1..];
      InTurnCons(Remove(rs[0]), RemoveOps(rs[1..]));
    }
  }

  /** These are the due calls of some ranks, in turn. */
  ghost predicate DueIn(
      cod: Cod, store: Store, hash: string, drifted: bool, now: Time, ops: seq<Op>, low: int, high: int)
  {
    InTurn(ops) && forall op :: op in ops <==> low <= Rank(op) <= high && Due(cod, store, hash, drifted, now, op)
  }

  lemma {:induction false} DueConcat(
      cod: Cod, store: Store, hash: string, drifted: bool, now: Time, a: seq<Op>, b: seq<Op>, i: int, j: int, k: int)
    requires i <= j < k
    requires DueIn(cod, store, hash, drifted, now, a, i, j) && DueIn(cod, store, hash, drifted, now, b, j + 1, k)
    ensures DueIn(cod, store, hash, drifted, now, a + b, i, k)
  {
    hide Due, InTurn;
    InTurnConcat(a, b);
  }

  lemma {:induction false} AdoptsDue(cod: Cod, store: Store, hash: string, drifted: bool, now: Time)
    requires Keyed(store)
    ensures DueIn(cod, store, hash, drifted, now, AdoptOps(Listing(store)), 0, 0)
  {
    hide Listing, Lists, Strict, InTurn, AdoptOps, Keyed;
    ListingLists(store);
    ListsGathers(store, Listing(store), store.Keys);
    AdoptOpsAre(Listing(store));
  }

  lemma {:induction false} ArchivesDue(cod: Cod, store: Store, hash: string, drifted: bool, now: Time)
    requires Keyed(store)
    ensures DueIn(cod, store, hash, drifted, now, SupersedeOps(OwnedOf(cod, Listing(store))), 3, 3)
  {
    hide Listing, OwnedOf, Lists, Strict, InTurn, ArchiveOps, Keyed, Newest, MineOf, NeedsNew, Beyond;
    var owned := OwnedOf(cod, Listing(store));
    OwnedLists(cod, store);
    NothingInTurn();
    if owned == [] {
      NoneMine(cod, store);
    } else {
      var n := owned[|owned| - 1].number;
      NewestIsLast(cod, store, owned);
      SupersededExactly(cod, store, n);
      if ConditionTrue(owned[|owned| - 1].status) {
        SupersededAre(owned);
        var others := owned[..|owned| - 1];
        ListsGathers(store, others, MineOf(cod, store) - {n});
        ArchiveOpsAre(others);
      }
    }
  }

  lemma {:induction false} NoneMine(cod: Cod, store: Store)
    requires Lists(store, [], MineOf(cod, store))
    ensures SupersededMine(cod, store) == {}
  {
    assert MineOf(cod, store) == {};
  }

  lemma {:induction false} NothingInTurn()
    ensures InTurn([])
  {
  }

  lemma {:induction false} RemovesDue(cod: Cod, store: Store, hash: string, drifted: bool, now: Time)
    requires Keyed(store)
    ensures DueIn(cod, store, hash, drifted, now, PruneOps(cod, OwnedOf(cod, Listing(store))), 4, 4)
  {
    hide Listing, OwnedOf, Lists, Strict, InTurn, RemoveOps, PruneOps, Keyed, Beyond, ArchivedMine, Limit, NeedsNew,
      ArchivedOf;
    var owned := OwnedOf(cod, Listing(store));
    ArchivedLists(cod, store);
    var archived := ArchivedOf(owned);
    ListsGathers(store, archived, ArchivedMine(cod, store));
    PrunedAre(cod, owned);
    ExcessLists(store, archived, ArchivedMine(cod, store), Limit(cod));
    var oldest := archived[..Excess(archived, Limit(cod))];
    ListsGathers(store, oldest, Beyond(ArchivedMine(cod, store), Limit(cod)));
    RemoveOpsAre(oldest);
  }

  lemma {:induction false} OneNext(store: Store, m: nat, n: nat)
    requires NextOf(store, m) && NextOf(store, n)
    ensures m == n
  {
  }

  /** The scan of the owned list finds the newest active revision. */
  lemma {:induction false} ScanFindsNewest(cod: Cod, store: Store)
    requires Keyed(store)
    ensures var latest := LastActive(OwnedOf(cod, Listing(store)));
            && (latest.None? ==> ActiveMine(cod, store) == {})
            && (latest.Some? ==> Stored(store, latest.value) && Newest(ActiveMine(cod, store), latest.value.number))
  {
    var active := ActiveList(cod, store);
    FilterThenLast(OwnedOf(cod, Listing(store)));
    ActiveLists(cod, store);
    ListEnds(store, active, ActiveMine(cod, store));
  }

  lemma {:induction false} NewIsNext(cod: Cod, store: Store, hash: string, now: Time, r: Revision)
    requires Keyed(store) && NeedsNew(cod, store, hash)
    ensures IsNew(cod, store, hash, now, r) <==> r == Stamped(cod, NextNumber(Listing(store)), hash, now)
  {
    hide Listing, NextNumber, Keyed, NeedsNew, NextOf;
    NumberIsNext(store);
    if IsNew(cod, store, hash, now, r) && UINT32 - 1 !in store {
      OneNext(store, r.number, NextNumber(Listing(store)));
    }
  }

  lemma {:induction false} CreatesDue(cod: Cod, store: Store, hash: string, drifted: bool, now: Time, r: Revision)
    requires NeedsNew(cod, store, hash) && forall x :: IsNew(cod, store, hash, now, x) <==> x == r
    ensures DueIn(cod, store, hash, drifted, now, [Create(r), Claim(r)], 1, 2)
  {
    hide IsNew, ActiveMine, SupersededMine, Beyond;
  }

  lemma {:induction false} ClaimsDue(cod: Cod, store: Store, hash: string, drifted: bool, now: Time, r: Revision)
    requires !NeedsNew(cod, store, hash) && Stored(store, r) && r.templateHash == hash
    requires Newest(ActiveMine(cod, store), r.number)
    ensures DueIn(cod, store, hash, drifted, now, if drifted then [Claim(r)] else [], 1, 2)
  {
    hide NeedsNew, ActiveMine, SupersededMine, Beyond;
  }

  lemma {:induction false} SyncsDue(cod: Cod, store: Store, hash: string, drifted: bool, now: Time)
    requires Keyed(store)
    ensures DueIn(cod, store, hash, drifted, now,
                  SyncOps(cod, Listing(store), OwnedOf(cod, Listing(store)), hash, drifted, now), 1, 2)
  {
    hide Listing, OwnedOf, LastActive, NextNumber, Keyed, NeedsNew, DueIn, ActiveMine, Stamped, IsNew, Newest;
    ScanDecides(cod, store, hash);
    ScanFindsNewest(cod, store);
    if NeedsNew(cod, store, hash) {
      var r := Stamped(cod, NextNumber(Listing(store)), hash, now);
      forall x ensures IsNew(cod, store, hash, now, x) <==> x == r {
        NewIsNext(cod, store, hash, now, x);
      }
      CreatesDue(cod, store, hash, drifted, now, r);
    } else {
      ClaimsDue(cod, store, hash, drifted, now, LastActive(OwnedOf(cod, Listing(store))).value);
    }
  }

  /** For every group: a pass plans exactly the calls that are due, each once, in turn. */
  lemma {:induction false} PlanExactly(cod: Cod, store: Store, hash: string, drifted: bool, now: Time)
    requires Keyed(store)
    ensures var ops := Plan(cod, Listing(store), hash, drifted, now);
            && InTurn(ops)
            && forall op :: op in ops <==> Due(cod, store, hash, drifted, now, op)
  {
    hide Listing, OwnedOf, AdoptOps, SyncOps, SupersedeOps, PruneOps, Due, InTurn, Keyed;
    var all := Listing(store);
    var owned := OwnedOf(cod, all);
    var a, b := AdoptOps(all), SyncOps(cod, all, owned, hash, drifted, now);
    var c, d := SupersedeOps(owned), PruneOps(cod, owned);
    AdoptsDue(cod, store, hash, drifted, now);
    SyncsDue(cod, store, hash, drifted, now);
    ArchivesDue(cod, store, hash, drifted, now);
    RemovesDue(cod, store, hash, drifted, now);
    DueConcat(cod, store, hash, drifted, now, a, b, 0, 0, 2);
    DueConcat(cod, store, hash, drifted, now, a + b, c, 0, 2, 3);
    DueConcat(cod, store, hash, drifted, now, a + b + c, d, 0, 3, 4);
  }
}
