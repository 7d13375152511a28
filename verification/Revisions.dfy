/** A ClusterObjectSet as a deployment and its siblings see it, and lists of them in order of their
    revision number. */
module Revisions {
  import opened Api

  /** The controller reference of an object. */
  datatype Owner = Owner(kind: string, name: string, uid: nat)

  datatype Revision = Revision(
    name: string,
    number: nat,
    owner: Option<Owner>,
    archived: bool,
    deleting: bool,
    templateHash: string,
    created: Time,
    status: Status)

  predicate Active(r: Revision) {
    !r.deleting && !r.archived
  }

  predicate Ascending(rs: seq<Revision>) {
    forall i, j :: 0 <= i < j < |rs| ==> rs[i].number <= rs[j].number
  }

  // ---------- Sorting, in place of the library's ----------

  function Insert(r: Revision, rs: seq<Revision>): seq<Revision> {
    if rs == [] || r.number <= rs[0].number then [r] + rs else [rs[0]] + Insert(r, rs[1..])
  }

  function Sorted(rs: seq<Revision>): seq<Revision> {
    if rs == [] then [] else Insert(rs[0], Sorted(rs[1..]))
  }

  function Reverse(rs: seq<Revision>): seq<Revision> {
    seq(|rs|, i requires 0 <= i < |rs| => rs[|rs| - 1 - i])
  }

  lemma {:induction false} InsertAdds(r: Revision, rs: seq<Revision>)
    ensures multiset(Insert(r, rs)) == multiset(rs) + multiset{r}
    ensures |Insert(r, rs)| == |rs| + 1
    ensures forall x :: x in Insert(r, rs) <==> x == r || x in rs
  {
    if rs == [] || r.number <= rs[0].number {
    } else {
      InsertAdds(r, rs[1..]);
      assert rs == [rs[0]] + rs[1..];
    }
  }

  lemma {:induction false} InsertSorts(r: Revision, rs: seq<Revision>)
    requires Ascending(rs)
    ensures Ascending(Insert(r, rs))
  {
    if rs == [] || r.number <= rs[0].number {
    } else {
      InsertSorts(r, rs[1..]);
      InsertAdds(r, rs[1..]);
      assert rs == [rs[0]] + rs[1..];
      var tail := Insert(r, rs[1..]);
      forall k | 0 <= k < |tail| ensures rs[0].number <= tail[k].number {
        assert tail[k] in tail;
      }
    }
  }

  lemma {:induction false} SortedSorts(rs: seq<Revision>)
    ensures Ascending(Sorted(rs)) && multiset(Sorted(rs)) == multiset(rs) && |Sorted(rs)| == |rs|
    ensures forall x :: x in Sorted(rs) <==> x in rs
  {
    if rs == [] {
    } else {
      SortedSorts(rs[1..]);
      InsertSorts(rs[0], Sorted(rs[1..]));
      InsertAdds(rs[0], Sorted(rs[1..]));
      assert rs == [rs[0]] + rs[1..];
      hide Insert, Ascending;
    }
  }

  /** A sorted list is left as it is. */
  lemma {:induction false} SortedIsStable(rs: seq<Revision>)
    requires Ascending(rs)
    ensures Sorted(rs) == rs
  {
    if rs == [] {
    } else {
      SortedIsStable(rs[1..]);
      assert rs == [rs[0]] + rs[1..];
    }
  }
}
