/** The list of revisions that a pass of the ClusterObjectDeployment controller works on: what it holds,
    and that it does not depend on the order in which the cache yields it. */
module CodListing {
  import opened Api
  import opened Revisions
  import opened CodController
  import opened Sequences

  /** A store whose revisions are stored under their own numbers. */
  ghost predicate Keyed(store: Store) {
    forall n :: n in store ==> n < UINT32 && store[n].number == n
  }

  ghost predicate ListedBelow(store: Store, n: nat, rs: seq<Revision>) {
    && (forall k :: 0 <= k < |rs| ==> rs[k].number < n && rs[k].number in store && store[rs[k].number] == rs[k])
    && (forall m :: m in store && m < n ==> store[m] in rs)
    && (forall j, k :: 0 <= j < k < |rs| ==> rs[j].number < rs[k].number)
  }

  lemma {:induction false} ListingIsExact(store: Store, n: nat)
    requires Keyed(store)
    ensures ListedBelow(store, n, ListBelow(store, n))
  {
    if n == 0 {
    } else {
      hide Keyed, ListedBelow;
      ListingIsExact(store, n - 1);
      ListedNext(store, n, ListBelow(store, n - 1));
    }
  }

  lemma {:induction false} ListedNext(store: Store, n: nat, rs: seq<Revision>)
    requires Keyed(store) && n > 0 && ListedBelow(store, n - 1, rs)
    ensures ListedBelow(store, n, rs + if n - 1 in store then [store[n - 1]] else [])
  {
    var all := rs + if n - 1 in store then [store[n - 1]] else [];
    assert forall k :: 0 <= k < |all| ==> all[k] == if k < |rs| then rs[k] else store[n - 1];
    forall m | m in store && m < n ensures store[m] in all {
      if m < n - 1 {
        assert store[m] in rs;
      } else {
        assert all[|rs|] == store[m];
      }
    }
  }

  lemma {:induction false} MaxIsLast(rs: seq<Revision>)
    requires forall j, k :: 0 <= j < k < |rs| ==> rs[j].number < rs[k].number
    ensures MaxNumber(rs) == if rs == [] then 0 else rs[|rs| - 1].number
  {
    if rs == [] {
    } else {
      MaxIsLast(rs[..|rs| - 1]);
    }
  }

  // ---------- The order of the cache's list does not matter ----------

  lemma {:induction false} FirstsEqual(a: seq<Revision>, b: seq<Revision>)
    requires a != [] && b != [] && multiset(a) == multiset(b)
    requires Ascending(a) && forall j, k :: 0 <= j < k < |b| ==> b[j].number < b[k].number
    ensures a[0] == b[0]
  {
    assert a[0] in multiset(a) && b[0] in multiset(b);
    var i :| 0 <= i < |b| && b[i] == a[0];
    var j :| 0 <= j < |a| && a[j] == b[0];
    assert a[0].number <= a[j].number;
  }

  lemma {:induction false} RestMembers(a: seq<Revision>)
    requires a != []
    ensures multiset(a[1..]) == multiset(a) - multiset{a[0]}
  {
    assert a == [a[0]] + a[1..];
  }

  lemma {:induction false} SameLength(a: seq<Revision>, b: seq<Revision>)
    requires multiset(a) == multiset(b)
    ensures |a| == |b|
  {
    assert |multiset(a)| == |a| && |multiset(b)| == |b|;
  }

  lemma {:induction false} SortedByMembers(a: seq<Revision>, b: seq<Revision>)
    requires multiset(a) == multiset(b)
    requires Ascending(a) && forall j, k :: 0 <= j < k < |b| ==> b[j].number < b[k].number
    ensures a == b
  {
    SameLength(a, b);
    if b == [] {
    } else {
      FirstsEqual(a, b);
      RestMembers(a);
      RestMembers(b);
      SortedByMembers(a[1..], b[1..]);
      Cons(a, 0);
      Cons(b, 0);
    }
  }

  /** However the cache orders the group, sorting it gives the listing that the plan is made from. */
  lemma {:induction false} AnyOrderIsListing(store: Store, listed: seq<Revision>)
    requires Keyed(store) && multiset(listed) == multiset(Listing(store))
    ensures Sorted(listed) == Listing(store)
  {
    SortedSorts(listed);
    ListingIsExact(store, UINT32);
    SortedByMembers(Sorted(listed), Listing(store));
  }
}
