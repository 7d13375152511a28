/** internal/controller/cod/controller.go: one reconcile of a ClusterObjectDeployment, which stamps
    out, archives and prunes the revisions of its group.  It lists them through a cache that may lag
    behind the API server. */
module CodController {
  import opened Api
  import opened Revisions
  import opened RevisionChain
  import opened Naming
  import opened Progress
  import opened Sequences

  const UINT32: nat := 0x1_0000_0000

  const DEFAULT_HISTORY_LIMIT: nat := 5

  datatype Cod = Cod(
    name: string,
    uid: nat,
    historyLimit: Option<nat>,
    deadlineMinutes: Option<int>,
    deadlineUnit: Time)

  /** The revisions of the group as stored, by revision number: an admission policy makes the name of
      each one the group's name and its number. */
  type Store = map<nat, Revision>

  function ListBelow(store: Store, n: nat): seq<Revision> {
    if n == 0 then [] else ListBelow(store, n - 1) + if n - 1 in store then [store[n - 1]] else []
  }

  /** All revisions of a store, oldest first. */
  function Listing(store: Store): seq<Revision> {
    ListBelow(store, UINT32)
  }

  function OwnerRef(cod: Cod): Owner {
    Owner("ClusterObjectDeployment", cod.name, cod.uid)
  }

  // ---------- API calls ----------

  datatype Op =
    | Adopt(r: Revision)
    | Create(r: Revision)
    | Claim(r: Revision)
    | Archive(r: Revision)
    | Remove(r: Revision)

  /** A revision that a server-side apply creates anew: an apply carries no status, and nothing new is
      being deleted. */
  function Anew(r: Revision): Revision {
    r.(status := EMPTY_STATUS, deleting := false)
  }

  /** What the server does with a call; None is an error.  A server-side apply creates what it does not
      find, from the fields of the copy the controller holds. */
  function Served(cod: Cod, store: Store, op: Op): Option<Store> {
    var n := op.r.number;
    match op
    case Adopt(r) =>
      if n !in store then Some(store[n := Anew(r).(owner := Some(OwnerRef(cod)))])
      else if store[n].owner.Some? && store[n].owner != Some(OwnerRef(cod)) then None
      else Some(store[n := store[n].(owner := Some(OwnerRef(cod)))])
    case Create(r) =>
      if n == 0 || n in store then None else Some(store[n := r])
    case Claim(r) =>
      if n !in store then if n == 0 then None else Some(store[n := Anew(r)])
      else if store[n].archived then None
      else Some(store)
    case Archive(r) =>
      if n !in store then Some(store[n := Anew(r).(archived := true)])
      else Some(store[n := store[n].(archived := true)])
    case Remove(r) =>
      if n !in store then None else Some(store[n := store[n].(deleting := true)])
  }

  /** The stores the server went through. */
  datatype Run = Run(stores: seq<Store>, left: nat, ok: bool)

  /** Makes the calls in order until one fails; call number `left` fails whatever the server says. */
  function Execute(cod: Cod, store: Store, ops: seq<Op>, left: nat): Run
    decreases |ops|
  {
    if ops == [] then Run([], left, true)
    else if left == 0 then Run([], 0, false)
    else
      var s := Served(cod, store, ops[0]);
      if s.None? then Run([], left - 1, false)
      else
        var rest := Execute(cod, s.value, ops[1..], left - 1);
        rest.(stores := [s.value] + rest.stores)
  }

  function Final(store: Store, run: Run): Store {
    if run.stores == [] then store else run.stores[|run.stores| - 1]
  }

  // ---------- What a pass calls, given what it listed ----------

  function OwnedOf(cod: Cod, rs: seq<Revision>): seq<Revision> {
    if rs == [] then []
    else (if rs[0].owner.None? || rs[0].owner.value.uid == cod.uid then [rs[0]] else []) + OwnedOf(cod, rs[1..])
  }

  function AdoptOps(rs: seq<Revision>): seq<Op> {
    if rs == [] then [] else (if rs[0].owner.None? then [Adopt(rs[0])] else []) + AdoptOps(rs[1..])
  }

  function MaxNumber(rs: seq<Revision>): nat {
    if rs == [] then 0
    else
      var m := MaxNumber(rs[..|rs| - 1]);
      if rs[|rs| - 1].number > m then rs[|rs| - 1].number else m
  }

  /** nextRevisionNumber, in 32 bits. */
  function NextNumber(rs: seq<Revision>): nat {
    (MaxNumber(rs) + 1) % UINT32
  }

  /** BuildCOS. */
  function Stamped(cod: Cod, n: nat, hash: string, now: Time): Revision {
    Revision(NameOf(cod.name, n), n, Some(OwnerRef(cod)), false, false, hash, now, EMPTY_STATUS)
  }

  function SyncOps(
      cod: Cod, all: seq<Revision>, owned: seq<Revision>, hash: string, drifted: bool, now: Time): seq<Op> {
    var latest := LastActive(owned);
    if latest.None? || latest.value.templateHash != hash then
      var r := Stamped(cod, NextNumber(all), hash, now);
      [Create(r), Claim(r)]
    else if drifted then [Claim(latest.value)]
    else []
  }

  function ArchiveOps(rs: seq<Revision>): seq<Op> {
    if rs == [] then [] else (if rs[0].archived then [] else [Archive(rs[0])]) + ArchiveOps(rs[1..])
  }

  function SupersedeOps(owned: seq<Revision>): seq<Op> {
    if |owned| < 2 || !ConditionTrue(owned[|owned| - 1].status) then [] else ArchiveOps(owned[..|owned| - 1])
  }

  function ArchivedOf(rs: seq<Revision>): seq<Revision> {
    if rs == [] then [] else (if rs[0].archived then [rs[0]] else []) + ArchivedOf(rs[1..])
  }

  function RemoveOps(rs: seq<Revision>): seq<Op> {
    if rs == [] then [] else [Remove(rs[0])] + RemoveOps(rs[1..])
  }

  function Limit(cod: Cod): nat {
    if cod.historyLimit.Some? then cod.historyLimit.value else DEFAULT_HISTORY_LIMIT
  }

  function PruneOps(cod: Cod, owned: seq<Revision>): seq<Op> {
    var prunable := Sorted(ArchivedOf(owned));
    if |prunable| <= Limit(cod) then [] else RemoveOps(prunable[..|prunable| - Limit(cod)])
  }

  function Plan(cod: Cod, all: seq<Revision>, hash: string, drifted: bool, now: Time): seq<Op> {
    var owned := OwnedOf(cod, all);
    AdoptOps(all) + SyncOps(cod, all, owned, hash, drifted, now) + SupersedeOps(owned) + PruneOps(cod, owned)
  }

  // ---------- The status of the deployment ----------

  datatype Availability = NoneActive | ActiveAvailable | ActiveUnavailable | InTransition

  datatype CodStatus = CodStatus(
    active: seq<string>,
    availability: Availability,
    counts: Option<ObjectCounts>,
    progress: Verdict)

  function AvailabilityOf(active: seq<Revision>): Availability {
    if |active| == 0 then NoneActive
    else if |active| == 1 then if ConditionTrue(active[0].status) then ActiveAvailable else ActiveUnavailable
    else InTransition
  }

  function NamesOf(rs: seq<Revision>): seq<string> {
    seq(|rs|, i requires 0 <= i < |rs| => rs[i].name)
  }

  function LatestOf(active: seq<Revision>): Option<Latest> {
    if active == [] then None
    else
      var r := active[|active| - 1];
      Some(Progress.Latest.Latest(r.created, r.status.completedAt, r.status.phases))
  }

  function StatusOf(cod: Cod, owned: seq<Revision>, now: Time): CodStatus {
    var active := ActiveOnes(owned);
    CodStatus(
      NamesOf(active),
      AvailabilityOf(active),
      if active == [] then None else active[|active| - 1].status.counts,
      VerdictOf(cod.deadlineMinutes, LatestOf(active), now, cod.deadlineUnit))
  }

  // ---------- The controller ----------

  /** Where the server stands: its store, the stores it went through, and how many calls will still get
      through to it. */
  datatype Server = Server(store: Store, stores: seq<Store>, left: nat)

  /** The calls `ops`, made in order from `before`, led to `after`; `ok` if none of them failed. */
  ghost predicate Ran(cod: Cod, before: Server, ops: seq<Op>, after: Server, ok: bool) {
    var run := Execute(cod, before.store, ops, before.left);
    && ok == run.ok
    && after == Server(Final(before.store, run), before.stores + run.stores, run.left)
  }

  lemma {:induction false} RanNothing(cod: Cod, before: Server)
    ensures Ran(cod, before, [], before, true)
  {
  }

  lemma {:induction false} ExecuteFirst(cod: Cod, store: Store, op: Op, ops: seq<Op>, left: nat)
    ensures Execute(cod, store, [op] + ops, left) ==
            if left == 0 then Run([], 0, false)
            else if Served(cod, store, op).None? then Run([], left - 1, false)
            else
              var rest := Execute(cod, Served(cod, store, op).value, ops, left - 1);
              rest.(stores := [Served(cod, store, op).value] + rest.stores)
  {
    assert ([op] + ops)[1..] == ops;
  }

  /** Calls made after calls that all went through; and calls not made because an earlier one failed. */
  lemma {:induction false} RanThen(
      cod: Cod, before: Server, a: seq<Op>, middle: Server, okA: bool, b: seq<Op>, after: Server, okB: bool)
    requires Ran(cod, before, a, middle, okA)
    requires if okA then Ran(cod, middle, b, after, okB) else after == middle && !okB
    ensures Ran(cod, before, a + b, after, okB)
    decreases |a|
  {
    hide Served;
    if a == [] {
      assert a + b == b && before.stores + [] == before.stores;
    } else {
      assert a + b == [a[0]] + (a[1..] + b) && a == [a[0]] + a[1..];
      ExecuteFirst(cod, before.store, a[0], a[1..] + b, before.left);
      ExecuteFirst(cod, before.store, a[0], a[1..], before.left);
      var s := Served(cod, before.store, a[0]);
      if before.left > 0 && s.Some? {
        var next := Server(s.value, before.stores + [s.value], before.left - 1);
        RanTail(cod, before, a[0], a[1..], middle, okA);
        RanThen(cod, next, a[1..], middle, okA, b, after, okB);
        RanTail(cod, before, a[0], a[1..] + b, after, okB);
      }
    }
  }

  lemma {:induction false} RanTail(cod: Cod, before: Server, op: Op, ops: seq<Op>, after: Server, ok: bool)
    requires before.left > 0 && Served(cod, before.store, op).Some?
    ensures var s := Served(cod, before.store, op).value;
            Ran(cod, before, [op] + ops, after, ok)
            <==> Ran(cod, Server(s, before.stores + [s], before.left - 1), ops, after, ok)
  {
    var s := Served(cod, before.store, op).value;
    ExecuteFirst(cod, before.store, op, ops, before.left);
    hide Execute, Served;
    var rest := Execute(cod, s, ops, before.left - 1);
    Associates(before.stores, [s], rest.stores);
    assert Final(before.store, rest.(stores := [s] + rest.stores)) == Final(s, rest);
  }

  class Reconciler {
    const cod: Cod
    var store: Store
    ghost var stores: seq<Store>
    var left: nat
    var status: CodStatus

    constructor (cod: Cod, store: Store, left: nat, status: CodStatus)
      ensures this.cod == cod && At() == Server(store, [], left) && this.status == status
    {
      this.cod, this.store, this.stores, this.left, this.status := cod, store, [], left, status;
    }

    ghost function At(): Server
      reads this
    {
      Server(store, stores, left)
    }

    /** One API call. */
    method Call(op: Op) returns (ok: bool)
      modifies this`store, this`stores, this`left
      ensures Ran(cod, old(At()), [op], At(), ok)
    {
      ExecuteFirst(cod, store, op, [], left);
      assert [op] + [] == [op];
      if left == 0 {
        return false;
      }
      left := left - 1;
      var s := Served(cod, store, op);
      if s.None? {
        return false;
      }
      store, stores := s.value, stores + [s.value];
      return true;
    }

    /** adoptOrphans: the revisions of the group that this deployment owns, or takes over. */
    method AdoptOrphans(all: seq<Revision>) returns (owned: seq<Revision>, ok: bool)
      modifies this`store, this`stores, this`left
      ensures Ran(cod, old(At()), AdoptOps(all), At(), ok)
      ensures ok ==> owned == OwnedOf(cod, all)
    {
      hide Ran, Served, AdoptOps, OwnedOf;
      owned, ok := [], true;
      ghost var start, done := At(), [];
      RanNothing(cod, start);
      for i := 0 to |all|
        invariant Ran(cod, start, done, At(), true)
        invariant AdoptOps(all) == done + AdoptOps(all[i..])
        invariant OwnedOf(cod, all) == owned + OwnedOf(cod, all[i..])
      {
        var cos := all[i];
        AdoptStep(cod, all, i, done, owned);
        if cos.owner.Some? {
          if cos.owner.value.uid == cod.uid {
            owned := owned + [cos];
          }
          continue;
        }
        ghost var before := At();
        ok := Call(Adopt(cos));
        RanThen(cod, start, done, before, true, [Adopt(cos)], At(), ok);
        done := done + [Adopt(cos)];
        if !ok {
          RanThen(cod, start, done, At(), false, AdoptOps(all[i + 1..]), At(), false);
          return;
        }
        owned := owned + [cos];
      }
      NoneLeft(cod, all, done, owned);
      ok := true;
    }

    /** syncRevision: a new revision when there is no active one with the current template. */
    method SyncRevision(
        all: seq<Revision>, owned: seq<Revision>, hash: string, drifted: bool, now: Time) returns (ok: bool)
      modifies this`store, this`stores, this`left
      ensures Ran(cod, old(At()), SyncOps(cod, all, owned, hash, drifted, now), At(), ok)
    {
      hide Ran, Served;
      var latest: Option<Revision> := None;
      Whole(owned);
      var i := |owned|;
      while i > 0
        invariant 0 <= i <= |owned|
        invariant latest.None?
        invariant LastActive(owned) == LastActive(owned[..i])
      {
        i := i - 1;
        assert owned[..i + 1][..i] == owned[..i];
        if !owned[i].deleting && !owned[i].archived {
          latest := Some(owned[i]);
          break;
        }
      }
      assert latest == LastActive(owned);
      if latest.None? || latest.value.templateHash != hash {
        ok := CreateRevision(all, hash, now);
      } else if drifted {
        ok := Call(Claim(latest.value));
      } else {
        RanNothing(cod, At());
        ok := true;
      }
    }

    method CreateRevision(all: seq<Revision>, hash: string, now: Time) returns (ok: bool)
      modifies this`store, this`stores, this`left
      ensures var r := Stamped(cod, NextNumber(all), hash, now);
              Ran(cod, old(At()), [Create(r), Claim(r)], At(), ok)
    {
      hide Ran, Served;
      var maxRevision := 0;
      for i := 0 to |all|
        invariant maxRevision == MaxNumber(all[..i])
      {
        assert all[..i + 1][..i] == all[..i];
        if all[i].number > maxRevision {
          maxRevision := all[i].number;
        }
      }
      Whole(all);
      var r := Stamped(cod, (maxRevision + 1) % UINT32, hash, now);
      ghost var start := At();
      ok := Call(Create(r));
      assert [Create(r)] + [Claim(r)] == [Create(r), Claim(r)];
      ghost var middle := At();
      if !ok {
        RanThen(cod, start, [Create(r)], middle, false, [Claim(r)], middle, false);
        return;
      }
      ok := Call(Claim(r));
      RanThen(cod, start, [Create(r)], middle, true, [Claim(r)], At(), ok);
    }

    /** updateStatus. */
    method UpdateStatus(owned: seq<Revision>, now: Time)
      modifies this`status
      ensures status == StatusOf(cod, owned, now)
    {
      var active: seq<Revision> := [];
      for i := 0 to |owned|
        invariant active == ActiveOnes(owned[..i])
      {
        assert owned[..i + 1][..i] == owned[..i];
        if !owned[i].archived && !owned[i].deleting {
          active := active + [owned[i]];
        }
      }
      Whole(owned);
      var latest := if |active| > 0 then Some(active[|active| - 1]) else None;
      var progress := EvaluateDeadline(cod.deadlineMinutes, LatestOf(active), now, cod.deadlineUnit);
      status := CodStatus(
        NamesOf(active), AvailabilityOf(active), if latest.Some? then latest.value.status.counts else None, progress);
    }

    /** archiveSuperseded: once the newest owned revision is available, all others are archived. */
    method ArchiveSuperseded(owned: seq<Revision>) returns (ok: bool)
      modifies this`store, this`stores, this`left
      ensures Ran(cod, old(At()), SupersedeOps(owned), At(), ok)
    {
      hide Ran, Served, ArchiveOps;
      ghost var start, done: seq<Op> := At(), [];
      RanNothing(cod, start);
      if |owned| < 2 {
        return true;
      }
      if !ConditionTrue(owned[|owned| - 1].status) {
        return true;
      }
      var others := owned[..|owned| - 1];
      for i := 0 to |others|
        invariant Ran(cod, start, done, At(), true)
        invariant ArchiveOps(others) == done + ArchiveOps(others[i..])
      {
        ArchiveStep(others, i, done);
        if others[i].archived {
          continue;
        }
        ghost var before := At();
        ok := Call(Archive(others[i]));
        RanThen(cod, start, done, before, true, [Archive(others[i])], At(), ok);
        done := done + [Archive(others[i])];
        if !ok {
          RanThen(cod, start, done, At(), false, ArchiveOps(others[i + 1..]), At(), false);
          return;
        }
      }
      NoneToArchive(others, done);
      return true;
    }

    /** pruneArchived: of the archived revisions beyond the limit, the oldest are deleted. */
    method PruneArchived(owned: seq<Revision>) returns (ok: bool)
      modifies this`store, this`stores, this`left
      ensures Ran(cod, old(At()), PruneOps(cod, owned), At(), ok)
    {
      hide Ran, Served, RemoveOps, ArchivedOf, Sorted;
      var prunable := FilterArchived(owned);
      prunable := Sorted(prunable);
      ghost var start, done: seq<Op> := At(), [];
      RanNothing(cod, start);
      var excess := |prunable| - Limit(cod);
      if excess <= 0 {
        return true;
      }
      ghost var removed := prunable[..excess];
      for i := 0 to excess
        invariant Ran(cod, start, done, At(), true)
        invariant RemoveOps(removed) == done + RemoveOps(removed[i..])
      {
        RemoveStep(removed, i, done);
        ghost var before := At();
        ok := Call(Remove(prunable[i]));
        RanThen(cod, start, done, before, true, [Remove(prunable[i])], At(), ok);
        done := done + [Remove(prunable[i])];
        if !ok {
          RanThen(cod, start, done, At(), false, RemoveOps(removed[i + 1..]), At(), false);
          return;
        }
      }
      NoneToRemove(removed, done);
      return true;
    }

    method FilterArchived(owned: seq<Revision>) returns (prunable: seq<Revision>)
      ensures prunable == ArchivedOf(owned)
    {
      prunable := [];
      for i := 0 to |owned|
        invariant ArchivedOf(owned) == prunable + ArchivedOf(owned[i..])
      {
        Cons(owned, i);
        if owned[i].archived {
          Associates(prunable, [owned[i]], ArchivedOf(owned[i + 1..]));
          prunable := prunable + [owned[i]];
        }
      }
      assert owned[|owned|..] == [];
    }

    /** reconcile: lists the group in any order the cache yields, and stops at the first error. */
    method Reconcile(listed: seq<Revision>, hash: string, drifted: bool, now: Time) returns (ok: bool)
      modifies this`store, this`stores, this`left, this`status
      ensures Ran(cod, old(At()), Plan(cod, Sorted(listed), hash, drifted, now), At(), ok)
      ensures status == old(status) || status == StatusOf(cod, OwnedOf(cod, Sorted(listed)), now)
      ensures ok ==> status == StatusOf(cod, OwnedOf(cod, Sorted(listed)), now)
    {
      hide Ran, AdoptOps, SyncOps, SupersedeOps, PruneOps, OwnedOf, Sorted, StatusOf;
      var all := Sorted(listed);
      ghost var o := OwnedOf(cod, all);
      ghost var a, b, c, d := AdoptOps(all), SyncOps(cod, all, o, hash, drifted, now), SupersedeOps(o), PruneOps(cod, o);
      ghost var s0 := At();
      var owned;
      owned, ok := AdoptOrphans(all);
      ghost var s1 := At();
      if !ok {
        StopsAfter(cod, s0, a, b + c + d, s1);
        Joined(a, b, c, d);
        return;
      }
      ok := SyncRevision(all, owned, hash, drifted, now);
      ghost var s2 := At();
      RanThen(cod, s0, a, s1, true, b, s2, ok);
      if !ok {
        StopsAfter(cod, s0, a + b, c + d, s2);
        Associates(a + b, c, d);
        return;
      }
      UpdateStatus(owned, now);
      ok := ArchiveSuperseded(owned);
      ghost var s3 := At();
      RanThen(cod, s0, a + b, s2, true, c, s3, ok);
      if !ok {
        StopsAfter(cod, s0, a + b + c, d, s3);
        return;
      }
      ok := PruneArchived(owned);
      RanThen(cod, s0, a + b + c, s3, true, d, At(), ok);
    }
  }

  lemma {:induction false} StopsAfter(cod: Cod, before: Server, a: seq<Op>, b: seq<Op>, after: Server)
    requires Ran(cod, before, a, after, false)
    ensures Ran(cod, before, a + b, after, false)
  {
    RanThen(cod, before, a, after, false, b, after, false);
  }

  lemma {:induction false} AdoptStep(cod: Cod, all: seq<Revision>, i: nat, done: seq<Op>, owned: seq<Revision>)
    requires i < |all|
    requires AdoptOps(all) == done + AdoptOps(all[i..])
    requires OwnedOf(cod, all) == owned + OwnedOf(cod, all[i..])
    ensures var cos := all[i];
            && AdoptOps(all) == (if cos.owner.None? then done + [Adopt(cos)] else done) + AdoptOps(all[i + 1..])
            && OwnedOf(cod, all)
               == (if cos.owner.None? || cos.owner.value.uid == cod.uid then owned + [cos] else owned) + OwnedOf(cod, all[i + 1..])
  {
    Cons(all, i);
    Associates(done, [Adopt(all[i])], AdoptOps(all[i + 1..]));
    Associates(owned, [all[i]], OwnedOf(cod, all[i + 1..]));
  }

  lemma {:induction false} NoneLeft(cod: Cod, all: seq<Revision>, done: seq<Op>, owned: seq<Revision>)
    requires AdoptOps(all) == done + AdoptOps(all[|all|..]) && OwnedOf(cod, all) == owned + OwnedOf(cod, all[|all|..])
    ensures AdoptOps(all) == done && OwnedOf(cod, all) == owned
  {
    assert all[|all|..] == [];
  }

  lemma {:induction false} ArchiveStep(rs: seq<Revision>, i: nat, done: seq<Op>)
    requires i < |rs| && ArchiveOps(rs) == done + ArchiveOps(rs[i..])
    ensures ArchiveOps(rs) == (if rs[i].archived then done else done + [Archive(rs[i])]) + ArchiveOps(rs[i + 1..])
  {
    Cons(rs, i);
    Associates(done, [Archive(rs[i])], ArchiveOps(rs[i + 1..]));
  }

  lemma {:induction false} NoneToArchive(rs: seq<Revision>, done: seq<Op>)
    requires ArchiveOps(rs) == done + ArchiveOps(rs[|rs|..])
    ensures ArchiveOps(rs) == done
  {
    assert rs[|rs|..] == [];
  }

  lemma {:induction false} RemoveStep(rs: seq<Revision>, i: nat, done: seq<Op>)
    requires i < |rs| && RemoveOps(rs) == done + RemoveOps(rs[i..])
    ensures RemoveOps(rs) == done + [Remove(rs[i])] + RemoveOps(rs[i + 1..])
  {
    Cons(rs, i);
    Associates(done, [Remove(rs[i])], RemoveOps(rs[i + 1..]));
  }

  lemma {:induction false} NoneToRemove(rs: seq<Revision>, done: seq<Op>)
    requires RemoveOps(rs) == done + RemoveOps(rs[|rs|..])
    ensures RemoveOps(rs) == done
  {
    assert rs[|rs|..] == [];
  }
}
