/** One pass of the ClusterObjectDeployment controller on a fresh view: what it comes to, whatever the
    group holds. */
module CodEffects {
  import opened Api
  import opened Revisions
  import opened RevisionChain
  import opened CodController
  import opened CodListing
  import opened Naming
  import opened Sequences

  /** Owned by the deployment, or an orphan that it adopts. */
  predicate Mine(cod: Cod, r: Revision) {
    r.owner.None? || r.owner.value.uid == cod.uid
  }

  ghost function Above(ns: set<nat>, m: nat): set<nat> {
    set x | x in ns && x > m
  }

  ghost function MineOf(cod: Cod, store: Store): set<nat> {
    set m | m in store && Mine(cod, store[m])
  }

  ghost function ArchivedMine(cod: Cod, store: Store): set<nat> {
    set m | m in store && Mine(cod, store[m]) && store[m].archived
  }

  /** The numbers in `ns` that have at least `limit` higher ones. */
  ghost function Beyond(ns: set<nat>, limit: nat): set<nat> {
    set m | m in ns && |Above(ns, m)| >= limit
  }

  /** The highest of the numbers. */
  ghost predicate Newest(ns: set<nat>, n: nat) {
    n in ns && forall m :: m in ns ==> m <= n
  }

  /** No revision of the deployment is the newest active one and carries the current template. */
  ghost predicate NeedsNew(cod: Cod, store: Store, hash: string) {
    forall n :: n in ActiveMine(cod, store) && store[n].templateHash == hash ==> !Newest(ActiveMine(cod, store), n)
  }

  ghost function ActiveMine(cod: Cod, store: Store): set<nat> {
    set m | m in store && Mine(cod, store[m]) && Active(store[m])
  }

  /** All but the newest, if that one is available. */
  ghost function SupersededMine(cod: Cod, store: Store): set<nat> {
    set m, n | m in MineOf(cod, store) && n in MineOf(cod, store)
               && Newest(MineOf(cod, store), n) && m != n && ConditionTrue(store[n].status) :: m
  }

  /** The number of a new revision: one above all others of the group. */
  ghost predicate NextOf(store: Store, n: nat) {
    && (forall m :: m in store ==> m < n)
    && if store == map[] then n == 1 else n - 1 in store
  }

  ghost function Treated(cod: Cod, store: Store, m: nat): Revision
    requires m in store
  {
    var r := store[m];
    r.(owner := if r.owner.None? then Some(OwnerRef(cod)) else r.owner,
       archived := r.archived || m in SupersededMine(cod, store),
       deleting := r.deleting || m in Beyond(ArchivedMine(cod, store), Limit(cod)))
  }

  /** What a pass that goes through makes of a store. */
  ghost predicate Outcome(cod: Cod, store: Store, hash: string, now: Time, after: Store) {
    && (forall m :: m in store ==> m in after && after[m] == Treated(cod, store, m))
    && (forall m :: m in after && m !in store ==>
          NeedsNew(cod, store, hash) && NextOf(store, m) && after[m] == Stamped(cod, m, hash, now))
    && (NeedsNew(cod, store, hash) ==> exists m :: m in after && m !in store)
  }

  // ---------- The calls of one kind, on a store that has all they need ----------

  ghost predicate Strict(rs: seq<Revision>) {
    forall j, k :: 0 <= j < k < |rs| ==> rs[j].number < rs[k].number
  }

  ghost predicate Among(rs: seq<Revision>, m: nat, p: Revision -> bool) {
    exists k :: 0 <= k < |rs| && rs[k].number == m && p(rs[k])
  }

  /** A list of calls went through, changed exactly the entries in `hit`, each by `f`. */
  ghost predicate Changed(
      cod: Cod, store: Store, ops: seq<Op>, left: nat, rs: seq<Revision>, p: Revision -> bool,
      f: Revision -> Revision) {
    var run := Execute(cod, store, ops, left);
    && run.ok && run.left == left - |ops|
    && Final(store, run).Keys == store.Keys
    && forall m :: m in store ==> Final(store, run)[m] == if Among(rs, m, p) then f(store[m]) else store[m]
  }

  lemma {:induction false} ChangedFirst(
      cod: Cod, store: Store, op: Op, ops: seq<Op>, left: nat, rs: seq<Revision>, p: Revision -> bool,
      f: Revision -> Revision)
    requires rs != [] && Strict(rs) && p(rs[0]) && rs[0].number in store && left > 0
    requires Served(cod, store, op) == Some(store[rs[0].number := f(store[rs[0].number])])
    requires Changed(cod, store[rs[0].number := f(store[rs[0].number])], ops, left - 1, rs[1..], p, f)
    ensures Changed(cod, store, [op] + ops, left, rs, p, f)
  {
    var n := rs[0].number;
    var s := store[n := f(store[n])];
    ExecuteFirst(cod, store, op, ops, left);
    AmongTail(rs, p);
    hide Execute, Served, Among;
  }

  lemma {:induction false} ChangedSkip(
      cod: Cod, store: Store, ops: seq<Op>, left: nat, rs: seq<Revision>, p: Revision -> bool, f: Revision -> Revision)
    requires rs != [] && !p(rs[0])
    requires Changed(cod, store, ops, left, rs[1..], p, f)
    ensures Changed(cod, store, ops, left, rs, p, f)
  {
    AmongSkip(rs, p);
    hide Among, Execute;
  }

  lemma {:induction false} AmongSkip(rs: seq<Revision>, p: Revision -> bool)
    requires rs != [] && !p(rs[0])
    ensures forall m :: Among(rs, m, p) <==> Among(rs[1..], m, p)
  {
    forall m ensures Among(rs, m, p) <==> Among(rs[1..], m, p) {
      if k :| 0 <= k < |rs| && rs[k].number == m && p(rs[k]) {
        assert rs[1..][k - 1] == rs[k];
      }
      if k :| 0 <= k < |rs[1..]| && rs[1..][k].number == m && p(rs[1..][k]) {
        assert rs[k + 1] == rs[1..][k];
      }
    }
  }

  lemma {:induction false} AmongTail(rs: seq<Revision>, p: Revision -> bool)
    requires rs != [] && Strict(rs) && p(rs[0])
    ensures Among(rs, rs[0].number, p) && !Among(rs[1..], rs[0].number, p)
    ensures forall m :: m != rs[0].number ==> (Among(rs, m, p) <==> Among(rs[1..], m, p))
  {
    forall m | m != rs[0].number ensures Among(rs, m, p) <==> Among(rs[1..], m, p) {
      if k :| 0 <= k < |rs| && rs[k].number == m && p(rs[k]) {
        assert rs[1..][k - 1] == rs[k];
      }
      if k :| 0 <= k < |rs[1..]| && rs[1..][k].number == m && p(rs[1..][k]) {
        assert rs[k + 1] == rs[1..][k];
      }
    }
  }

  const IS_ORPHAN: Revision -> bool := (r: Revision) => r.owner.None?
  const NOT_ARCHIVED: Revision -> bool := (r: Revision) => !r.archived
  const ANY: Revision -> bool := (r: Revision) => true

  lemma {:induction false} StrictTail(rs: seq<Revision>)
    requires rs != [] && Strict(rs)
    ensures Strict(rs[1..]) && forall r :: r in rs[1..] ==> rs[0].number < r.number
  {
  }

  lemma {:induction false} ChangedNone(cod: Cod, store: Store, left: nat, p: Revision -> bool, f: Revision -> Revision)
    ensures Changed(cod, store, [], left, [], p, f)
  {
  }

  lemma {:induction false} AdoptChanges(cod: Cod, store: Store, rs: seq<Revision>, left: nat)
    requires Strict(rs) && left >= |AdoptOps(rs)|
    requires forall k :: 0 <= k < |rs| ==> rs[k].number in store && store[rs[k].number].owner == rs[k].owner
    ensures Changed(cod, store, AdoptOps(rs), left, rs, IS_ORPHAN, (r: Revision) => r.(owner := Some(OwnerRef(cod))))
    decreases |rs|
  {
    hide Changed, Strict;
    var f := (r: Revision) => r.(owner := Some(OwnerRef(cod)));
    if rs == [] {
      ChangedNone(cod, store, left, IS_ORPHAN, f);
    } else {
      StrictTail(rs);
      if rs[0].owner.None? {
        var n := rs[0].number;
        AdoptChanges(cod, store[n := f(store[n])], rs[1..], left - 1);
        ChangedFirst(cod, store, Adopt(rs[0]), AdoptOps(rs[1..]), left, rs, IS_ORPHAN, f);
      } else {
        AdoptChanges(cod, store, rs[1..], left);
        ChangedSkip(cod, store, AdoptOps(rs[1..]), left, rs, IS_ORPHAN, f);
        assert [] + AdoptOps(rs[1..]) == AdoptOps(rs[1..]);
      }
    }
  }

  lemma {:induction false} ArchiveChanges(cod: Cod, store: Store, rs: seq<Revision>, left: nat)
    requires Strict(rs) && left >= |ArchiveOps(rs)|
    requires forall k :: 0 <= k < |rs| ==> rs[k].number in store
    ensures Changed(cod, store, ArchiveOps(rs), left, rs, NOT_ARCHIVED, (r: Revision) => r.(archived := true))
    decreases |rs|
  {
    hide Changed, Strict;
    var f := (r: Revision) => r.(archived := true);
    if rs == [] {
      ChangedNone(cod, store, left, NOT_ARCHIVED, f);
    } else {
      StrictTail(rs);
      if rs[0].archived {
        ArchiveChanges(cod, store, rs[1..], left);
        ChangedSkip(cod, store, ArchiveOps(rs[1..]), left, rs, NOT_ARCHIVED, f);
        assert [] + ArchiveOps(rs[1..]) == ArchiveOps(rs[1..]);
      } else {
        var n := rs[0].number;
        ArchiveChanges(cod, store[n := f(store[n])], rs[1..], left - 1);
        ChangedFirst(cod, store, Archive(rs[0]), ArchiveOps(rs[1..]), left, rs, NOT_ARCHIVED, f);
      }
    }
  }

  lemma {:induction false} RemoveChanges(cod: Cod, store: Store, rs: seq<Revision>, left: nat)
    requires Strict(rs) && left >= |RemoveOps(rs)|
    requires forall k :: 0 <= k < |rs| ==> rs[k].number in store
    ensures Changed(cod, store, RemoveOps(rs), left, rs, ANY, (r: Revision) => r.(deleting := true))
    decreases |rs|
  {
    hide Changed, Strict;
    var f := (r: Revision) => r.(deleting := true);
    if rs == [] {
      ChangedNone(cod, store, left, ANY, f);
    } else {
      StrictTail(rs);
      var n := rs[0].number;
      RemoveChanges(cod, store[n := f(store[n])], rs[1..], left - 1);
      ChangedFirst(cod, store, Remove(rs[0]), RemoveOps(rs[1..]), left, rs, ANY, f);
    }
  }

  // ---------- What the listed groups are ----------

  /** The revisions of `rs` are those of the store whose numbers are in `ns`, oldest first. */
  ghost predicate Lists(store: Store, rs: seq<Revision>, ns: set<nat>) {
    && Strict(rs)
    && (forall k :: 0 <= k < |rs| ==> rs[k].number in ns && rs[k].number in store && rs[k] == store[rs[k].number])
    && (forall m :: m in ns ==> m in store && store[m] in rs)
  }

  lemma {:induction false} StrictCons(r: Revision, rs: seq<Revision>)
    requires Strict(rs) && forall x :: x in rs ==> r.number < x.number
    ensures Strict([r] + rs)
  {
    var all := [r] + rs;
    forall j, k | 0 <= j < k < |all| ensures all[j].number < all[k].number {
      assert all[k] == rs[k - 1] && rs[k - 1] in rs;
    }
  }

  lemma {:induction false} OwnedMembers(cod: Cod, rs: seq<Revision>)
    requires Strict(rs)
    ensures forall r :: r in OwnedOf(cod, rs) <==> r in rs && Mine(cod, r)
    ensures Strict(OwnedOf(cod, rs))
    decreases |rs|
  {
    if rs == [] {
    } else {
      StrictTail(rs);
      OwnedMembers(cod, rs[1..]);
      assert rs == [rs[0]] + rs[1..];
      StrictCons(rs[0], OwnedOf(cod, rs[1..]));
      assert [] + OwnedOf(cod, rs[1..]) == OwnedOf(cod, rs[1..]);
      hide Strict;
    }
  }

  lemma {:induction false} ArchivedMembers(rs: seq<Revision>)
    requires Strict(rs)
    ensures forall r :: r in ArchivedOf(rs) <==> r in rs && r.archived
    ensures Strict(ArchivedOf(rs))
    decreases |rs|
  {
    if rs == [] {
    } else {
      StrictTail(rs);
      ArchivedMembers(rs[1..]);
      assert rs == [rs[0]] + rs[1..];
      StrictCons(rs[0], ArchivedOf(rs[1..]));
      assert [] + ArchivedOf(rs[1..]) == ArchivedOf(rs[1..]);
      hide Strict;
    }
  }

  ghost predicate Gathers(store: Store, rs: seq<Revision>, ns: set<nat>) {
    forall r :: r in rs <==> r.number in ns && r.number in store && r == store[r.number]
  }

  lemma {:induction false} ListsGathered(store: Store, rs: seq<Revision>, ns: set<nat>)
    requires Keyed(store) && Strict(rs) && Gathers(store, rs, ns) && forall m :: m in ns ==> m in store
    ensures Lists(store, rs, ns)
  {
    hide Strict;
    forall k | 0 <= k < |rs| ensures rs[k].number in ns && rs[k].number in store && rs[k] == store[rs[k].number] {
      assert rs[k] in rs;
    }
  }

  lemma {:induction false} ListsGathers(store: Store, rs: seq<Revision>, ns: set<nat>)
    requires Keyed(store) && Lists(store, rs, ns)
    ensures Strict(rs) && Gathers(store, rs, ns) && forall m :: m in ns ==> m in store
  {
    assert Strict(rs);
    hide Strict;
    forall r ensures r in rs <==> r.number in ns && r.number in store && r == store[r.number] {
    }
  }

  lemma {:induction false} ListingLists(store: Store)
    requires Keyed(store)
    ensures Lists(store, Listing(store), store.Keys)
  {
    ListingIsExact(store, UINT32);
    hide ListBelow;
  }

  lemma {:induction false} OwnedLists(cod: Cod, store: Store)
    requires Keyed(store)
    ensures Lists(store, OwnedOf(cod, Listing(store)), MineOf(cod, store))
  {
    var all := Listing(store);
    ListingLists(store);
    ListsGathers(store, all, store.Keys);
    hide Listing, Lists, OwnedOf, Strict;
    OwnedMembers(cod, all);
    ListsGathered(store, OwnedOf(cod, all), MineOf(cod, store));
  }

  lemma {:induction false} ArchivedLists(cod: Cod, store: Store)
    requires Keyed(store)
    ensures Lists(store, ArchivedOf(OwnedOf(cod, Listing(store))), ArchivedMine(cod, store))
  {
    var owned := OwnedOf(cod, Listing(store));
    OwnedLists(cod, store);
    ListsGathers(store, owned, MineOf(cod, store));
    hide Listing, Lists, OwnedOf, ArchivedOf, Strict;
    ArchivedMembers(owned);
    ListsGathered(store, ArchivedOf(owned), ArchivedMine(cod, store));
  }

  /** The newest is the last one owned; the others are those before it. */
  lemma {:induction false} NewestIsLast(cod: Cod, store: Store, rs: seq<Revision>)
    requires Keyed(store) && Lists(store, rs, MineOf(cod, store)) && rs != []
    ensures var n := rs[|rs| - 1].number;
            && Newest(MineOf(cod, store), n) && rs[|rs| - 1] == store[n]
            && Lists(store, rs[..|rs| - 1], MineOf(cod, store) - {n})
  {
    var k := |rs| - 1;
    var n := rs[k].number;
    ListsGathers(store, rs, MineOf(cod, store));
    forall m | m in MineOf(cod, store) ensures m <= n {
      var j :| 0 <= j < |rs| && rs[j] == store[m];
    }
    var rest := rs[..k];
    assert Strict(rest);
    var ns := MineOf(cod, store) - {n};
    hide MineOf, Newest;
    forall r ensures r in rest <==> r.number in ns && r.number in store && r == store[r.number] {
      if r in rest {
        assert r in rs && r.number < n;
      }
      if r.number in ns && r.number in store && r == store[r.number] {
        assert r in rs && r != rs[k];
      }
    }
    ListsGathered(store, rest, ns);
  }

  /** Of the listed revisions, the one at position k has exactly the later ones above it. */
  lemma {:induction false} AboveCount(store: Store, rs: seq<Revision>, ns: set<nat>, k: nat)
    requires Lists(store, rs, ns) && Keyed(store) && k < |rs|
    ensures |Above(ns, rs[k].number)| == |rs| - 1 - k
    decreases |rs| - k
  {
    AboveNext(store, rs, ns, k);
    hide Lists, Keyed, Above;
    if k < |rs| - 1 {
      AboveCount(store, rs, ns, k + 1);
      AboveSelf(ns, rs[k + 1].number);
    }
  }

  lemma {:induction false} AboveSelf(ns: set<nat>, m: nat)
    ensures m !in Above(ns, m)
  {
  }

  lemma {:induction false} AboveNext(store: Store, rs: seq<Revision>, ns: set<nat>, k: nat)
    requires Lists(store, rs, ns) && Keyed(store) && k < |rs|
    ensures k == |rs| - 1 ==> Above(ns, rs[k].number) == {}
    ensures k < |rs| - 1 ==> Above(ns, rs[k].number) == Above(ns, rs[k + 1].number) + {rs[k + 1].number}
  {
    forall m | m in ns && m > rs[k].number ensures k < |rs| - 1 && m >= rs[k + 1].number {
      var j :| 0 <= j < |rs| && rs[j] == store[m];
      assert store[m].number == m;
      assert j > k;
    }
  }

  function Excess(rs: seq<Revision>, limit: nat): nat {
    if |rs| <= limit then 0 else |rs| - limit
  }

  lemma {:induction false} ExcessExactly(store: Store, rs: seq<Revision>, ns: set<nat>, limit: nat, k: nat)
    requires Keyed(store) && Lists(store, rs, ns) && k < |rs|
    ensures rs[k].number in Beyond(ns, limit) <==> k < Excess(rs, limit)
  {
    AboveCount(store, rs, ns, k);
    hide Above, Keyed;
  }

  lemma {:induction false} StrictPrefix(rs: seq<Revision>, k: nat)
    requires Strict(rs) && k <= |rs|
    ensures Strict(rs[..k])
  {
  }

  /** The oldest ones in excess of the limit are those with that many above them. */
  lemma {:induction false} ExcessLists(store: Store, rs: seq<Revision>, ns: set<nat>, limit: nat)
    requires Keyed(store) && Lists(store, rs, ns)
    ensures Lists(store, rs[..Excess(rs, limit)], Beyond(ns, limit))
  {
    hide Strict, Lists, Keyed, Beyond;
    BeyondIsSubset(ns, limit);
    ListsGathers(store, rs, ns);
    var oldest := rs[..Excess(rs, limit)];
    StrictPrefix(rs, |oldest|);
    forall r ensures r in oldest <==> r.number in Beyond(ns, limit) && r.number in store && r == store[r.number] {
      if r in rs {
        var k :| 0 <= k < |rs| && rs[k] == r;
        ExcessExactly(store, rs, ns, limit, k);
        assert k < |oldest| ==> oldest[k] == r;
      }
      if r in oldest {
        var k :| 0 <= k < |oldest| && oldest[k] == r;
        ExcessExactly(store, rs, ns, limit, k);
      }
    }
    ListsGathered(store, oldest, Beyond(ns, limit));
  }

  lemma {:induction false} AmongListed(store: Store, rs: seq<Revision>, ns: set<nat>, p: Revision -> bool)
    requires Keyed(store) && Lists(store, rs, ns)
    ensures forall m :: Among(rs, m, p) <==> m in ns && m in store && p(store[m])
  {
    assert forall m :: m in ns ==> m in store && store[m].number == m && store[m] in rs;
    hide Strict;
  }

  // ---------- One pass ----------

  /** Where the server stands once the calls are made. */
  ghost function Led(cod: Cod, before: Server, ops: seq<Op>): Server {
    var run := Execute(cod, before.store, ops, before.left);
    Server(Final(before.store, run), before.stores + run.stores, run.left)
  }

  /** All calls got through, and left the store as described. */
  ghost predicate Through(cod: Cod, before: Server, ops: seq<Op>, after: Server) {
    Ran(cod, before, ops, after, true) && after.left == before.left - |ops|
  }

  lemma {:induction false} ThenThrough(cod: Cod, before: Server, a: seq<Op>, middle: Server, b: seq<Op>, after: Server)
    requires Through(cod, before, a, middle) && Through(cod, middle, b, after)
    ensures Through(cod, before, a + b, after)
  {
    RanThen(cod, before, a, middle, true, b, after, true);
    hide Ran;
  }

  lemma {:induction false} ChangedThrough(
      cod: Cod, before: Server, ops: seq<Op>, rs: seq<Revision>, p: Revision -> bool, f: Revision -> Revision)
    requires Changed(cod, before.store, ops, before.left, rs, p, f)
    ensures Through(cod, before, ops, Led(cod, before, ops))
    ensures Led(cod, before, ops).store.Keys == before.store.Keys
    ensures forall m :: m in before.store ==>
            Led(cod, before, ops).store[m] == if Among(rs, m, p) then f(before.store[m]) else before.store[m]
  {
    hide Execute, Among;
  }

  /** A list of calls cut off by the server does not go through. */
  lemma {:induction false} OkIsEnough(cod: Cod, store: Store, ops: seq<Op>, left: nat)
    ensures Execute(cod, store, ops, left).ok ==> left >= |ops|
    decreases |ops|
  {
    hide Served;
    if ops != [] && left > 0 && Served(cod, store, ops[0]).Some? {
      OkIsEnough(cod, Served(cod, store, ops[0]).value, ops[1..], left - 1);
    }
  }

  ghost predicate Adopted(cod: Cod, store: Store, after: Store) {
    && after.Keys == store.Keys
    && forall m :: m in store ==>
         after[m] == if store[m].owner.None? then store[m].(owner := Some(OwnerRef(cod))) else store[m]
  }

  lemma {:induction false} AdoptPart(cod: Cod, before: Server)
    requires Keyed(before.store) && before.left >= |AdoptOps(Listing(before.store))|
    ensures var ops := AdoptOps(Listing(before.store));
            var after := Led(cod, before, ops);
            Through(cod, before, ops, after) && Adopted(cod, before.store, after.store)
  {
    var all := Listing(before.store);
    ListingLists(before.store);
    AmongListed(before.store, all, before.store.Keys, IS_ORPHAN);
    AdoptChanges(cod, before.store, all, before.left);
    hide Listing, AdoptOps, Lists, Changed, Through, Led, Among;
    ChangedThrough(cod, before, AdoptOps(all), all, IS_ORPHAN, (r: Revision) => r.(owner := Some(OwnerRef(cod))));
  }

  lemma {:induction false} SupersededAre(owned: seq<Revision>)
    requires owned != [] && ConditionTrue(owned[|owned| - 1].status)
    ensures SupersedeOps(owned) == ArchiveOps(owned[..|owned| - 1])
  {
    if |owned| == 1 {
      assert owned[..0] == [];
    }
  }

  /** A pass deletes the revisions in `ns`. */
  ghost predicate Prunes(cod: Cod, before: Server, ops: seq<Op>, after: Server, ns: set<nat>) {
    && Through(cod, before, ops, after)
    && after.store.Keys == before.store.Keys
    && forall m :: m in before.store ==>
         after.store[m] == if m in ns then before.store[m].(deleting := true) else before.store[m]
  }

  lemma {:induction false} PrunesListed(cod: Cod, store: Store, before: Server, oldest: seq<Revision>, ns: set<nat>)
    requires Keyed(store) && store.Keys <= before.store.Keys && Lists(store, oldest, ns)
    requires before.left >= |RemoveOps(oldest)|
    ensures Prunes(cod, before, RemoveOps(oldest), Led(cod, before, RemoveOps(oldest)), ns)
  {
    hide RemoveOps, Changed, Through, Led, Among;
    AmongListed(store, oldest, ns, ANY);
    RemoveChanges(cod, before.store, oldest, before.left);
    ChangedThrough(cod, before, RemoveOps(oldest), oldest, ANY, (r: Revision) => r.(deleting := true));
  }

  lemma {:induction false} PrunePart(cod: Cod, store: Store, before: Server)
    requires Keyed(store) && store.Keys <= before.store.Keys
    requires before.left >= |PruneOps(cod, OwnedOf(cod, Listing(store)))|
    ensures var ops := PruneOps(cod, OwnedOf(cod, Listing(store)));
            Prunes(cod, before, ops, Led(cod, before, ops), Beyond(ArchivedMine(cod, store), Limit(cod)))
  {
    hide Listing, OwnedOf, RemoveOps, PruneOps, Prunes, Led, ArchivedOf, Beyond, ArchivedMine, Limit, Keyed;
    var owned := OwnedOf(cod, Listing(store));
    var prunable := ArchivedOf(owned);
    ArchivedLists(cod, store);
    ExcessLists(store, prunable, ArchivedMine(cod, store), Limit(cod));
    PrunedAre(cod, owned);
    var oldest := prunable[..Excess(prunable, Limit(cod))];
    PrunesListed(cod, store, before, oldest, Beyond(ArchivedMine(cod, store), Limit(cod)));
  }

  lemma {:induction false} PrunedAre(cod: Cod, owned: seq<Revision>)
    requires Strict(ArchivedOf(owned))
    ensures PruneOps(cod, owned) == RemoveOps(ArchivedOf(owned)[..Excess(ArchivedOf(owned), Limit(cod))])
  {
    hide ArchivedOf, Sorted;
    var prunable := ArchivedOf(owned);
    StrictAscends(prunable);
    SortedIsStable(prunable);
    hide Strict, Ascending;
    assert prunable[..0] == [];
  }

  lemma {:induction false} StrictAscends(rs: seq<Revision>)
    requires Strict(rs)
    ensures Ascending(rs)
  {
  }

  lemma {:induction false} SupersededExactly(cod: Cod, store: Store, n: nat)
    requires Newest(MineOf(cod, store), n)
    ensures SupersededMine(cod, store) == if ConditionTrue(store[n].status) then MineOf(cod, store) - {n} else {}
  {
  }

  /** A pass archives the revisions in `ns`. */
  ghost predicate Archives(cod: Cod, store: Store, before: Server, ops: seq<Op>, after: Server, ns: set<nat>) {
    && Through(cod, before, ops, after)
    && after.store.Keys == before.store.Keys
    && (forall m :: m in ns ==> m in store)
    && (forall m :: m in before.store ==>
          after.store[m] == if m in ns && !store[m].archived then before.store[m].(archived := true) else before.store[m])
  }

  lemma {:induction false} ArchivesNone(cod: Cod, store: Store, before: Server)
    ensures Archives(cod, store, before, [], Led(cod, before, []), {})
  {
    assert before.stores + [] == before.stores;
  }

  lemma {:induction false} ArchivesListed(cod: Cod, store: Store, before: Server, rest: seq<Revision>, ns: set<nat>)
    requires Keyed(store) && store.Keys <= before.store.Keys && Lists(store, rest, ns)
    requires before.left >= |ArchiveOps(rest)|
    ensures Archives(cod, store, before, ArchiveOps(rest), Led(cod, before, ArchiveOps(rest)), ns)
  {
    hide ArchiveOps, Changed, Through, Led, Among;
    AmongListed(store, rest, ns, NOT_ARCHIVED);
    ArchiveChanges(cod, before.store, rest, before.left);
    ChangedThrough(cod, before, ArchiveOps(rest), rest, NOT_ARCHIVED, (r: Revision) => r.(archived := true));
  }

  lemma {:induction false} ArchivePart(cod: Cod, store: Store, before: Server)
    requires Keyed(store) && store.Keys <= before.store.Keys
    requires before.left >= |SupersedeOps(OwnedOf(cod, Listing(store)))|
    ensures var ops := SupersedeOps(OwnedOf(cod, Listing(store)));
            Archives(cod, store, before, ops, Led(cod, before, ops), SupersededMine(cod, store))
  {
    var owned := OwnedOf(cod, Listing(store));
    OwnedLists(cod, store);
    hide Listing, OwnedOf, Archives, ArchiveOps, Led;
    if owned == [] {
      assert SupersededMine(cod, store) == {};
      ArchivesNone(cod, store, before);
    } else {
      NewestIsLast(cod, store, owned);
      SupersededExactly(cod, store, owned[|owned| - 1].number);
      hide Lists, Newest, MineOf, SupersededMine, Keyed;
      if ConditionTrue(owned[|owned| - 1].status) {
        SupersededAre(owned);
        ArchivesListed(cod, store, before, owned[..|owned| - 1], SupersededMine(cod, store));
      } else {
        ArchivesNone(cod, store, before);
      }
    }
  }

  /** The backward scan for the newest active revision decides whether a new one is needed. */
  lemma {:induction false} ScanDecides(cod: Cod, store: Store, hash: string)
    requires Keyed(store)
    ensures var latest := LastActive(OwnedOf(cod, Listing(store)));
            && (NeedsNew(cod, store, hash) <==> latest.None? || latest.value.templateHash != hash)
            && (latest.Some? ==> var n := latest.value.number; n in store && latest.value == store[n] && Active(store[n]))
  {
    var owned := OwnedOf(cod, Listing(store));
    OwnedLists(cod, store);
    ListsGathers(store, owned, MineOf(cod, store));
    StrictAscends(owned);
    LastActiveIsLatest(owned);
    hide Listing, OwnedOf, LastActive, Lists, Ascending, Strict;
    var latest := LastActive(owned);
    if latest.Some? {
      assert Newest(ActiveMine(cod, store), latest.value.number);
    } else {
      forall m | m in MineOf(cod, store) ensures !Active(store[m]) {
        assert store[m] in owned;
      }
    }
  }

  /** The new number is one above all others, as long as 32 bits can hold it. */
  lemma {:induction false} NumberIsNext(store: Store)
    requires Keyed(store)
    ensures var n := NextNumber(Listing(store));
            if UINT32 - 1 in store then n == 0 else n > 0 && n !in store && NextOf(store, n)
  {
    hide Listing, Keyed, Lists, NextOf;
    ListingLists(store);
    NumberAfter(store, Listing(store));
  }

  lemma {:induction false} NumberAfter(store: Store, all: seq<Revision>)
    requires Keyed(store) && Lists(store, all, store.Keys)
    ensures var n := NextNumber(all);
            if UINT32 - 1 in store then n == 0 else n > 0 && n !in store && NextOf(store, n)
  {
    HighestIsLast(store, all);
    assert Strict(all);
    MaxIsLast(all);
    hide MaxNumber, Strict, Lists;
    if all != [] {
      var last := all[|all| - 1].number;
      assert Newest(store.Keys, last) && last < UINT32;
      hide Keyed;
      if last == UINT32 - 1 {
        assert NextNumber(all) == 0;
      } else {
        assert NextNumber(all) == last + 1;
        assert UINT32 - 1 !in store;
      }
    }
  }

  lemma {:induction false} HighestIsLast(store: Store, all: seq<Revision>)
    requires Keyed(store) && Lists(store, all, store.Keys)
    ensures if all == [] then store == map[] else Newest(store.Keys, all[|all| - 1].number)
  {
    forall m | m in store ensures all != [] && m <= all[|all| - 1].number {
      var k :| 0 <= k < |all| && all[k] == store[m];
      StrictAt(all, k);
    }
  }

  lemma {:induction false} StrictAt(rs: seq<Revision>, k: nat)
    requires Strict(rs) && k < |rs|
    ensures k < |rs| - 1 ==> rs[k].number < rs[|rs| - 1].number
  {
  }

  /** What syncRevision makes of the store it meets. */
  ghost predicate Synced(cod: Cod, store: Store, hash: string, now: Time, before: Store, after: Store) {
    if NeedsNew(cod, store, hash) then
      var n := NextNumber(Listing(store)); after == before[n := Stamped(cod, n, hash, now)]
    else after == before
  }

  lemma {:induction false} SyncPart(cod: Cod, store: Store, hash: string, drifted: bool, now: Time, before: Server)
    requires Keyed(store) && Adopted(cod, store, before.store)
    ensures var ops := SyncOps(cod, Listing(store), OwnedOf(cod, Listing(store)), hash, drifted, now);
            var after := Led(cod, before, ops);
            if NeedsNew(cod, store, hash) && UINT32 - 1 in store then Ran(cod, before, ops, after, false)
            else before.left >= |ops| ==>
              Through(cod, before, ops, after) && Synced(cod, store, hash, now, before.store, after.store)
  {
    ScanDecides(cod, store, hash);
    NumberIsNext(store);
    var n := NextNumber(Listing(store));
    hide Listing, OwnedOf, LastActive, NeedsNew, NextNumber, Keyed;
    var latest := LastActive(OwnedOf(cod, Listing(store)));
    if NeedsNew(cod, store, hash) {
      CreateAndClaim(cod, before, Stamped(cod, n, hash, now));
    } else if drifted {
      ClaimOnly(cod, before, latest.value);
    }
  }

  lemma {:induction false} ClaimOnly(cod: Cod, before: Server, r: Revision)
    requires r.number in before.store && !before.store[r.number].archived
    ensures before.left >= 1 ==>
              && Through(cod, before, [Claim(r)], Led(cod, before, [Claim(r)]))
              && Led(cod, before, [Claim(r)]).store == before.store
  {
    ExecuteFirst(cod, before.store, Claim(r), [], before.left);
    assert [Claim(r)] + [] == [Claim(r)];
  }

  lemma {:induction false} CreateAndClaim(cod: Cod, before: Server, r: Revision)
    requires r.number == 0 || r.number !in before.store
    requires !r.archived
    ensures var ops := [Create(r), Claim(r)];
            var after := Led(cod, before, ops);
            if r.number == 0 then Ran(cod, before, ops, after, false)
            else before.left >= 2 ==> Through(cod, before, ops, after) && after.store == before.store[r.number := r]
  {
    ExecuteFirst(cod, before.store, Create(r), [Claim(r)], before.left);
    assert [Create(r)] + [Claim(r)] == [Create(r), Claim(r)];
    if before.left >= 2 && r.number != 0 {
      var next := before.store[r.number := r];
      ClaimOnly(cod, Server(next, [], before.left - 1), r);
      ExecuteFirst(cod, next, Claim(r), [], before.left - 1);
      assert [Claim(r)] + [] == [Claim(r)];
    }
  }

  /** For every group, seen fresh: a pass goes through exactly when the server cuts no call off and the
      numbers are not used up; and then the outcome is as specified, revision by revision. */
  lemma {:induction false} PassOutcome(cod: Cod, store: Store, hash: string, drifted: bool, now: Time, left: nat)
    requires Keyed(store)
    ensures var ops := Plan(cod, Listing(store), hash, drifted, now);
            var run := Execute(cod, store, ops, left);
            && (run.ok <==> left >= |ops| && !(NeedsNew(cod, store, hash) && UINT32 - 1 in store))
            && (run.ok ==> Outcome(cod, store, hash, now, Final(store, run)))
  {
    hide Listing, AdoptOps, SyncOps, SupersedeOps, PruneOps, OwnedOf, Through, Led, Keyed, NeedsNew, Synced, Adopted,
      Outcome, Ran;
    var all := Listing(store);
    var owned := OwnedOf(cod, all);
    var a, b := AdoptOps(all), SyncOps(cod, all, owned, hash, drifted, now);
    var c, d := SupersedeOps(owned), PruneOps(cod, owned);
    assert Plan(cod, all, hash, drifted, now) == a + b + c + d;
    OkIsEnough(cod, store, a + b + c + d, left);
    if left >= |a| + |b| + |c| + |d| {
      var s0 := Server(store, [], left);
      var s1 := Led(cod, s0, a);
      var s2 := Led(cod, s1, b);
      AdoptPart(cod, s0);
      ThroughLeft(cod, s0, a, s1);
      SyncPart(cod, store, hash, drifted, now, s1);
      if NeedsNew(cod, store, hash) && UINT32 - 1 in store {
        StoppedShort(cod, s0, a, s1, b, s2, c + d);
        Associates(a + b, c, d);
      } else {
        ThroughLeft(cod, s1, b, s2);
        ThenThrough(cod, s0, a, s1, b, s2);
        RestOfPass(cod, store, hash, now, s0, a + b, s1.store, s2);
      }
    }
  }

  lemma {:induction false} ThroughLeft(cod: Cod, before: Server, ops: seq<Op>, after: Server)
    requires Through(cod, before, ops, after)
    ensures after.left == before.left - |ops|
  {
  }

  /** What follows the sync. */
  lemma {:induction false} RestOfPass(
      cod: Cod, store: Store, hash: string, now: Time, s0: Server, done: seq<Op>, adopted: Store, s2: Server)
    requires Keyed(store) && !(NeedsNew(cod, store, hash) && UINT32 - 1 in store)
    requires s0.store == store && Through(cod, s0, done, s2)
    requires Adopted(cod, store, adopted) && Synced(cod, store, hash, now, adopted, s2.store)
    requires var owned := OwnedOf(cod, Listing(store)); s2.left >= |SupersedeOps(owned)| + |PruneOps(cod, owned)|
    ensures var owned := OwnedOf(cod, Listing(store));
            var run := Execute(cod, store, done + SupersedeOps(owned) + PruneOps(cod, owned), s0.left);
            run.ok && Outcome(cod, store, hash, now, Final(store, run))
  {
    hide Listing, SupersedeOps, PruneOps, OwnedOf, Through, Led, Keyed, NeedsNew, Synced, Outcome, Adopted, Archives, Prunes,
      SupersededMine, Beyond, ArchivedMine, Limit, PartsOk, Execute;
    var owned := OwnedOf(cod, Listing(store));
    var c, d := SupersedeOps(owned), PruneOps(cod, owned);
    var s3 := Led(cod, s2, c);
    var s4 := Led(cod, s3, d);
    NoneLost(cod, store, hash, now, adopted, s2.store);
    ArchivePart(cod, store, s2);
    ArchivesThrough(cod, store, s2, c, s3, SupersededMine(cod, store));
    PrunePart(cod, store, s3);
    AllParts(cod, store, adopted, s2, c, s3, d, s4);
    ThenThrough(cod, s0, done, s2, c, s3);
    ThenThrough(cod, s0, done + c, s3, d, s4);
    ThroughIsRun(cod, s0, done + c + d, s4);
    OutcomeOfParts(cod, store, hash, now, Parts(adopted, s2.store, s3.store, s4.store));
  }

  lemma {:induction false} ArchivesThrough(
      cod: Cod, store: Store, before: Server, ops: seq<Op>, after: Server, ns: set<nat>)
    requires Archives(cod, store, before, ops, after, ns)
    ensures Through(cod, before, ops, after) && after.store.Keys == before.store.Keys && after.left == before.left - |ops|
  {
  }

  lemma {:induction false} AllParts(
      cod: Cod, store: Store, adopted: Store, s2: Server, c: seq<Op>, s3: Server, d: seq<Op>, s4: Server)
    requires Adopted(cod, store, adopted) && store.Keys <= s2.store.Keys
    requires Archives(cod, store, s2, c, s3, SupersededMine(cod, store))
    requires Prunes(cod, s3, d, s4, Beyond(ArchivedMine(cod, store), Limit(cod)))
    ensures PartsOk(cod, store, Parts(adopted, s2.store, s3.store, s4.store)) && Through(cod, s3, d, s4)
  {
    hide Through, SupersededMine, Beyond, ArchivedMine, Limit;
  }

  lemma {:induction false} StoppedShort(
      cod: Cod, before: Server, a: seq<Op>, middle: Server, b: seq<Op>, after: Server, rest: seq<Op>)
    requires Through(cod, before, a, middle) && Ran(cod, middle, b, after, false)
    ensures !Execute(cod, before.store, a + b + rest, before.left).ok
  {
    hide Execute;
    RanThen(cod, before, a, middle, true, b, after, false);
    RanThen(cod, before, a + b, after, false, rest, after, false);
  }

  lemma {:induction false} ThroughIsRun(cod: Cod, before: Server, ops: seq<Op>, after: Server)
    requires Through(cod, before, ops, after)
    ensures var run := Execute(cod, before.store, ops, before.left);
            run.ok && Final(before.store, run) == after.store
  {
    hide Execute;
  }

  lemma {:induction false} NoneLost(cod: Cod, store: Store, hash: string, now: Time, adopted: Store, synced: Store)
    requires Adopted(cod, store, adopted) && Synced(cod, store, hash, now, adopted, synced)
    ensures store.Keys <= synced.Keys
  {
    hide NeedsNew, NextNumber, Listing;
  }

  /** The store after each part of a pass: adopting, syncing, archiving and pruning. */
  datatype Parts = Parts(adopted: Store, synced: Store, archived: Store, pruned: Store)

  ghost predicate PartsOk(cod: Cod, store: Store, p: Parts) {
    && Adopted(cod, store, p.adopted) && store.Keys <= p.synced.Keys == p.archived.Keys == p.pruned.Keys
    && (forall m :: m in SupersededMine(cod, store) ==> m in store)
    && (forall m :: m in p.synced ==>
          p.archived[m] == if m in SupersededMine(cod, store) && !store[m].archived
                           then p.synced[m].(archived := true) else p.synced[m])
    && (forall m :: m in p.synced ==>
          p.pruned[m] == if m in Beyond(ArchivedMine(cod, store), Limit(cod))
                         then p.archived[m].(deleting := true) else p.archived[m])
  }

  lemma {:induction false} PartsAt(cod: Cod, store: Store, p: Parts, m: nat)
    requires PartsOk(cod, store, p) && m in p.synced
    ensures m in p.pruned
    ensures m in store && p.synced[m] == p.adopted[m] ==> p.pruned[m] == Treated(cod, store, m)
    ensures m !in store ==> p.pruned[m] == p.synced[m]
  {
    BeyondIsSubset(ArchivedMine(cod, store), Limit(cod));
    ArchivedAreStored(cod, store);
    hide Beyond, ArchivedMine, Limit, SupersededMine;
  }

  lemma {:induction false} PartsKeys(cod: Cod, store: Store, p: Parts)
    requires PartsOk(cod, store, p)
    ensures p.adopted.Keys == store.Keys && p.pruned.Keys == p.synced.Keys
  {
    hide SupersededMine, Beyond, ArchivedMine;
  }

  lemma {:induction false} OutcomeOfParts(cod: Cod, store: Store, hash: string, now: Time, p: Parts)
    requires Keyed(store) && !(NeedsNew(cod, store, hash) && UINT32 - 1 in store)
    requires PartsOk(cod, store, p) && Synced(cod, store, hash, now, p.adopted, p.synced)
    ensures Outcome(cod, store, hash, now, p.pruned)
  {
    hide Listing, NextNumber, NeedsNew, Outcome, Treated, NextOf, Stamped, PartsOk, Keyed;
    NumberIsNext(store);
    if NeedsNew(cod, store, hash) {
      OutcomeWithNew(cod, store, hash, now, p, NextNumber(Listing(store)));
    } else {
      OutcomeWithoutNew(cod, store, hash, now, p);
    }
  }

  lemma {:induction false} OutcomeWithoutNew(cod: Cod, store: Store, hash: string, now: Time, p: Parts)
    requires !NeedsNew(cod, store, hash) && PartsOk(cod, store, p) && p.synced == p.adopted
    ensures Outcome(cod, store, hash, now, p.pruned)
  {
    hide NeedsNew, Treated, PartsOk;
    PartsKeys(cod, store, p);
    forall m | m in store ensures p.pruned[m] == Treated(cod, store, m) {
      PartsAt(cod, store, p, m);
    }
  }

  lemma {:induction false} OutcomeWithNew(cod: Cod, store: Store, hash: string, now: Time, p: Parts, n: nat)
    requires NeedsNew(cod, store, hash) && PartsOk(cod, store, p)
    requires n !in store && NextOf(store, n) && p.synced == p.adopted[n := Stamped(cod, n, hash, now)]
    ensures Outcome(cod, store, hash, now, p.pruned)
  {
    hide NeedsNew, Treated, PartsOk, NextOf, Stamped;
    PartsKeys(cod, store, p);
    PartsAt(cod, store, p, n);
    forall m | m in store ensures p.pruned[m] == Treated(cod, store, m) {
      PartsAt(cod, store, p, m);
    }
    assert n in p.pruned && p.pruned[n] == Stamped(cod, n, hash, now);
  }

  lemma {:induction false} ArchivedAreStored(cod: Cod, store: Store)
    ensures forall m :: m in ArchivedMine(cod, store) ==> m in store
  {
  }

  lemma {:induction false} BeyondIsSubset(ns: set<nat>, limit: nat)
    ensures Beyond(ns, limit) <= ns
  {
  }

  /** What the controller's Reconcile does on a fresh list, in whatever order the cache yields it. */
  lemma {:induction false} ReconcileHasOutcome(
      cod: Cod, before: Server, listed: seq<Revision>, hash: string, drifted: bool, now: Time, after: Server, ok: bool)
    requires Keyed(before.store) && multiset(listed) == multiset(Listing(before.store))
    requires Ran(cod, before, Plan(cod, Sorted(listed), hash, drifted, now), after, ok)
    ensures ok ==> Outcome(cod, before.store, hash, now, after.store)
    ensures !ok ==> before.left < |Plan(cod, Sorted(listed), hash, drifted, now)|
                    || (NeedsNew(cod, before.store, hash) && UINT32 - 1 in before.store)
  {
    hide Plan, Listing, Sorted, Outcome, NeedsNew, Execute;
    AnyOrderIsListing(before.store, listed);
    PassOutcome(cod, before.store, hash, drifted, now, before.left);
  }

  // ---------- Does a pass leave an active revision? ----------

  /** Some revision of the deployment is active. */
  ghost predicate SomeActive(cod: Cod, store: Store) {
    ActiveMine(cod, store) != {}
  }

  /** For every group: a pass leaves an active revision exactly when it creates one, or the newest
      revision is active or not available.  So a revision that was deleted or archived by hand while it
      was the newest and available takes all others out of service. */
  lemma {:induction false} SomeActiveLeftIff(cod: Cod, store: Store, hash: string, now: Time, after: Store)
    requires Outcome(cod, store, hash, now, after)
    ensures SomeActive(cod, after)
            <==> || NeedsNew(cod, store, hash)
                 || forall n :: Newest(MineOf(cod, store), n) ==> Active(store[n]) || !ConditionTrue(store[n].status)
  {
    if NeedsNew(cod, store, hash) {
      NewOneIsActive(cod, store, hash, now, after);
    } else if n :| Newest(MineOf(cod, store), n) && !Active(store[n]) && ConditionTrue(store[n].status) {
      NoneActive(cod, store, hash, now, after, n);
    } else {
      var k :| k in ActiveMine(cod, store);
      if k in SupersededMine(cod, store) {
        var n :| n in MineOf(cod, store) && Newest(MineOf(cod, store), n) && ConditionTrue(store[n].status);
        SupersededExactly(cod, store, n);
        StaysActive(cod, store, hash, now, after, n);
      } else {
        StaysActive(cod, store, hash, now, after, k);
      }
    }
  }

  lemma {:induction false} NewOneIsActive(cod: Cod, store: Store, hash: string, now: Time, after: Store)
    requires Outcome(cod, store, hash, now, after) && NeedsNew(cod, store, hash)
    ensures SomeActive(cod, after)
  {
    hide NeedsNew, NextOf, Treated;
    var m :| m in after && m !in store;
    assert m in ActiveMine(cod, after);
  }

  lemma {:induction false} NoneActive(cod: Cod, store: Store, hash: string, now: Time, after: Store, n: nat)
    requires Outcome(cod, store, hash, now, after) && !NeedsNew(cod, store, hash)
    requires Newest(MineOf(cod, store), n) && !Active(store[n]) && ConditionTrue(store[n].status)
    ensures !SomeActive(cod, after)
  {
    hide NeedsNew, NextOf, Beyond, ArchivedMine, SupersededMine, Limit;
    SupersededExactly(cod, store, n);
    forall m | m in after && Mine(cod, after[m]) ensures !Active(after[m]) {
      assert after[m] == Treated(cod, store, m);
    }
  }

  lemma {:induction false} StaysActive(cod: Cod, store: Store, hash: string, now: Time, after: Store, m: nat)
    requires Outcome(cod, store, hash, now, after) && m in ActiveMine(cod, store) && m !in SupersededMine(cod, store)
    ensures SomeActive(cod, after)
  {
    hide NeedsNew, NextOf, SupersededMine, Limit;
    BeyondIsSubset(ArchivedMine(cod, store), Limit(cod));
    assert m !in ArchivedMine(cod, store);
    hide Beyond;
    assert m in after && after[m] == Treated(cod, store, m);
    assert m in ActiveMine(cod, after);
  }

  /** Revision 1, and revision 2, deleted by hand, with the given status. */
  ghost function NewestDeletedByHand(cod: Cod, available: Status): Store {
    map[1 := Stamped(cod, 1, "a", 0),
        2 := Stamped(cod, 2, "b", 0).(deleting := true, status := available)]
  }

  /** It does happen: revision 2 was deleted by hand, still shows Available, with whatever else its status
      says, and waits for its teardown, and the template is back at that of revision 1. */
  lemma {:induction false} HandDeletionTakesAllDown(cod: Cod, available: Status, drifted: bool, now: Time, left: nat)
    requires ConditionTrue(available)
    requires left >= |Plan(cod, Listing(NewestDeletedByHand(cod, available)), "a", drifted, now)|
    ensures var store := NewestDeletedByHand(cod, available);
            var run := Execute(cod, store, Plan(cod, Listing(store), "a", drifted, now), left);
            run.ok && SomeActive(cod, store) && !SomeActive(cod, Final(store, run))
  {
    hide Outcome, NameOf, Plan, Listing, Execute, Final;
    var store := NewestDeletedByHand(cod, available);
    PassOutcome(cod, store, "a", drifted, now, left);
    var after := Final(store, Execute(cod, store, Plan(cod, Listing(store), "a", drifted, now), left));
    assert MineOf(cod, store) == {1, 2} && ActiveMine(cod, store) == {1};
    assert !NeedsNew(cod, store, "a") by {
      assert Newest(ActiveMine(cod, store), 1);
    }
    assert Newest(MineOf(cod, store), 2);
    NoneActive(cod, store, "a", now, after, 2);
  }

  // ---------- Does the status name what is active? ----------

  /** The revisions carry the names that the controller stamps. */
  ghost predicate Named(cod: Cod, store: Store) {
    forall m :: m in store ==> store[m].name == NameOf(cod.name, m)
  }

  ghost function ReportedBy(cod: Cod, store: Store, now: Time): seq<string> {
    StatusOf(cod, OwnedOf(cod, Listing(store)), now).active
  }

  lemma {:induction false} ActiveOnesMembers(rs: seq<Revision>)
    ensures forall r :: r in ActiveOnes(rs) <==> r in rs && Active(r)
  {
    if rs == [] {
    } else {
      ActiveOnesMembers(rs[..|rs| - 1]);
      assert rs == rs[..|rs| - 1] + [rs[|rs| - 1]];
    }
  }

  /** The status names exactly the revisions that were active before the pass. */
  lemma {:induction false} ReportsActive(cod: Cod, store: Store, now: Time, name: string)
    requires Keyed(store)
    ensures name in ReportedBy(cod, store, now) <==> exists m :: m in ActiveMine(cod, store) && store[m].name == name
  {
    hide Listing, OwnedOf, ActiveOnes, Lists;
    var owned := OwnedOf(cod, Listing(store));
    OwnedLists(cod, store);
    ListsGathers(store, owned, MineOf(cod, store));
    ActiveOnesMembers(owned);
    var active := ActiveOnes(owned);
    if name in ReportedBy(cod, store, now) {
      var k :| 0 <= k < |active| && active[k].name == name;
      assert active[k] in owned && active[k].number in ActiveMine(cod, store);
    }
    if m :| m in ActiveMine(cod, store) && store[m].name == name {
      assert store[m] in active;
      var k :| 0 <= k < |active| && active[k] == store[m];
      assert NamesOf(active)[k] == name;
    }
  }

  /** After a pass that goes through, the status it reports names every active revision if and only if it
      did not have to create one. */
  lemma {:induction false} AllReportedIff(cod: Cod, store: Store, hash: string, drifted: bool, now: Time, left: nat)
    requires Keyed(store) && Named(cod, store)
    requires Execute(cod, store, Plan(cod, Listing(store), hash, drifted, now), left).ok
    ensures var after := Final(store, Execute(cod, store, Plan(cod, Listing(store), hash, drifted, now), left));
            (forall m :: m in ActiveMine(cod, after) ==> after[m].name in ReportedBy(cod, store, now))
            <==> !NeedsNew(cod, store, hash)
  {
    hide Plan, Listing, Execute, NeedsNew, ReportedBy, Outcome, NameOf;
    PassOutcome(cod, store, hash, drifted, now, left);
    var after := Final(store, Execute(cod, store, Plan(cod, Listing(store), hash, drifted, now), left));
    if NeedsNew(cod, store, hash) {
      var m := NewIsNotReported(cod, store, hash, now, after);
    } else {
      forall m | m in ActiveMine(cod, after) ensures after[m].name in ReportedBy(cod, store, now) {
        KeptWasActive(cod, store, hash, now, after, m);
        ReportsActive(cod, store, now, after[m].name);
      }
    }
  }

  lemma {:induction false} KeptWasActive(cod: Cod, store: Store, hash: string, now: Time, after: Store, m: nat)
    requires Outcome(cod, store, hash, now, after) && !NeedsNew(cod, store, hash) && m in ActiveMine(cod, after)
    ensures m in ActiveMine(cod, store) && after[m].name == store[m].name
  {
    hide NeedsNew, NextOf, Beyond, ArchivedMine, SupersededMine, Limit;
  }

  lemma {:induction false} NewIsNotReported(
      cod: Cod, store: Store, hash: string, now: Time, after: Store) returns (m: nat)
    requires Keyed(store) && Named(cod, store) && Outcome(cod, store, hash, now, after) && NeedsNew(cod, store, hash)
    ensures m in ActiveMine(cod, after) && after[m].name !in ReportedBy(cod, store, now)
  {
    hide NeedsNew, NextOf, Treated, ReportedBy, NameOf;
    m :| m in after && m !in store;
    ReportsActive(cod, store, now, after[m].name);
    forall k | k in store ensures store[k].name != after[m].name {
      NamesIdentify(cod.name, k, cod.name, m);
    }
  }

  /** The input that shows it: the first pass on an empty group creates revision 1 and names none. */
  lemma {:induction false} FirstRevisionIsNotReported(cod: Cod, hash: string, drifted: bool, now: Time, left: nat)
    requires left >= |Plan(cod, Listing(map[]), hash, drifted, now)|
    ensures var run := Execute(cod, map[], Plan(cod, Listing(map[]), hash, drifted, now), left);
            run.ok && SomeActive(cod, Final(map[], run)) && ReportedBy(cod, map[], now) == []
  {
    hide Plan, Listing, Execute, ReportedBy, Outcome, Final, NeedsNew;
    var store: Store := map[];
    PassOutcome(cod, store, hash, drifted, now, left);
    var after := Final(store, Execute(cod, store, Plan(cod, Listing(store), hash, drifted, now), left));
    EmptyNeedsNew(cod, hash);
    NewOneIsActive(cod, store, hash, now, after);
    if ReportedBy(cod, store, now) != [] {
      ReportsActive(cod, store, now, ReportedBy(cod, store, now)[0]);
    }
  }

  lemma {:induction false} EmptyNeedsNew(cod: Cod, hash: string)
    ensures NeedsNew(cod, map[], hash)
  {
  }
}
