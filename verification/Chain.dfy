/** internal/revision/chain.go: the chain of revisions of one group, and the siblings of a revision. */
module RevisionChain {
  import opened Api
  import opened Revisions
  import opened Sequences

  datatype Chain = Chain(
    latestActive: Option<Revision>,
    predecessors: seq<Revision>,
    archived: seq<Revision>,
    deleted: seq<Revision>)

  function Extend(ch: Chain, m: Revision): Chain {
    if m.deleting then ch.(deleted := ch.deleted + [m])
    else if m.archived then ch.(archived := ch.archived + [m])
    else if ch.latestActive.None? then ch.(latestActive := Some(m))
    else ch.(predecessors := ch.predecessors + [m])
  }

  function Classified(ms: seq<Revision>): Chain {
    if ms == [] then Chain(None, [], [], []) else Extend(Classified(ms[..|ms| - 1]), ms[|ms| - 1])
  }

  function ChainOf(ms: seq<Revision>): Chain {
    Classified(Reverse(Sorted(ms)))
  }

  /** BuildChain sorts the caller's list, the newest revision first, and sorts it into the chain. */
  method BuildChain(members: array<Revision>) returns (ch: Chain)
    modifies members
    ensures members[..] == Reverse(Sorted(old(members[..])))
    ensures ch == ChainOf(old(members[..]))
  {
    ghost var before := members[..];
    var sorted := Reverse(Sorted(members[..]));
    SortedSorts(members[..]);
    forall i | 0 <= i < members.Length {
      members[i] := sorted[i];
    }
    assert members[..] == sorted;
    ch := Chain(None, [], [], []);
    for i := 0 to members.Length
      invariant members[..] == sorted
      invariant ch == Classified(sorted[..i])
    {
      var m := members[i];
      assert sorted[..i + 1][..i] == sorted[..i] && sorted[..i + 1][i] == m;
      if m.deleting {
        ch := ch.(deleted := ch.deleted + [m]);
      } else if m.archived {
        ch := ch.(archived := ch.archived + [m]);
      } else if ch.latestActive.None? {
        ch := ch.(latestActive := Some(m));
      } else {
        ch := ch.(predecessors := ch.predecessors + [m]);
      }
    }
    Whole(sorted);
  }

  function OtherThan(rs: seq<Revision>, name: string): seq<Revision> {
    if rs == [] then []
    else OtherThan(rs[..|rs| - 1], name) + if rs[|rs| - 1].name != name then [rs[|rs| - 1]] else []
  }

  function Latest(ch: Chain): seq<Revision> {
    if ch.latestActive.Some? then [ch.latestActive.value] else []
  }

  /** SiblingsOf. */
  method SiblingsOf(ch: Chain, cos: Revision) returns (siblings: seq<Revision>)
    ensures siblings == OtherThan(Latest(ch) + ch.predecessors, cos.name)
  {
    siblings := [];
    if ch.latestActive.Some? && ch.latestActive.value.name != cos.name {
      siblings := siblings + [ch.latestActive.value];
    }
    assert Latest(ch) != [] ==> Latest(ch)[..0] == [];
    assert Latest(ch) + [] == Latest(ch);
    for i := 0 to |ch.predecessors|
      invariant siblings == OtherThan(Latest(ch) + ch.predecessors[..i], cos.name)
    {
      var p := ch.predecessors[i];
      OtherThanSnoc(Latest(ch) + ch.predecessors[..i], p, cos.name);
      assert Latest(ch) + ch.predecessors[..i + 1] == Latest(ch) + ch.predecessors[..i] + [p];
      if p.name != cos.name {
        siblings := siblings + [p];
      }
    }
    Whole(ch.predecessors);
  }

  lemma {:induction false} OtherThanSnoc(rs: seq<Revision>, r: Revision, name: string)
    ensures OtherThan(rs + [r], name) == OtherThan(rs, name) + if r.name != name then [r] else []
  {
    assert (rs + [r])[..|rs|] == rs;
  }

  function OwnerKey(r: Revision): (string, string) {
    if r.owner.None? then ("", "") else (r.owner.value.kind, r.owner.value.name)
  }

  function SameOwner(ms: seq<Revision>, key: (string, string)): seq<Revision> {
    if ms == [] then []
    else SameOwner(ms[..|ms| - 1], key) + if OwnerKey(ms[|ms| - 1]) == key then [ms[|ms| - 1]] else []
  }

  method FilterByOwner(ms: seq<Revision>, cos: Revision) returns (result: seq<Revision>)
    ensures result == SameOwner(ms, OwnerKey(cos))
  {
    result := [];
    for i := 0 to |ms|
      invariant result == SameOwner(ms[..i], OwnerKey(cos))
    {
      assert ms[..i + 1][..i] == ms[..i];
      if OwnerKey(ms[i]) == OwnerKey(cos) {
        result := result + [ms[i]];
      }
    }
    Whole(ms);
  }

  // ---------- The chain is a partition, and its head the newest active revision ----------

  ghost function Parts(ch: Chain): multiset<Revision> {
    multiset(Latest(ch)) + multiset(ch.predecessors) + multiset(ch.archived) + multiset(ch.deleted)
  }

  /** Deleted and archived members are told apart from the active ones, the newest active one first. */
  ghost predicate Sorts(ch: Chain) {
    && (forall r :: r in ch.deleted ==> r.deleting)
    && (forall r :: r in ch.archived ==> r.archived && !r.deleting)
    && (forall r :: r in ch.predecessors ==> Active(r))
    && (ch.latestActive.Some? ==> Active(ch.latestActive.value))
    && (ch.latestActive.None? ==> ch.predecessors == [])
  }

  lemma {:induction false} ExtendSorts(ch: Chain, m: Revision)
    requires Sorts(ch)
    ensures Sorts(Extend(ch, m)) && Parts(Extend(ch, m)) == Parts(ch) + multiset{m}
  {
    hide Parts;
    ExtendAddsOne(ch, m);
  }

  lemma {:induction false} ExtendAddsOne(ch: Chain, m: Revision)
    requires ch.latestActive.None? ==> ch.predecessors == []
    ensures Parts(Extend(ch, m)) == Parts(ch) + multiset{m}
  {
    var l, p, a, d := multiset(Latest(ch)), multiset(ch.predecessors), multiset(ch.archived), multiset(ch.deleted);
    SnocAddsOne(ch.deleted, m);
    SnocAddsOne(ch.archived, m);
    SnocAddsOne(ch.predecessors, m);
    AddedOnce(l, p, a, d, multiset{m});
  }

  lemma {:induction false} AddedOnce<T>(a: multiset<T>, b: multiset<T>, c: multiset<T>, d: multiset<T>, x: multiset<T>)
    ensures (a + x) + b + c + d == a + b + c + d + x
    ensures a + (b + x) + c + d == a + b + c + d + x
    ensures a + b + (c + x) + d == a + b + c + d + x
    ensures a + b + c + (d + x) == a + b + c + d + x
    ensures multiset{} + x == x
  {
  }

  lemma {:induction false} SnocAddsOne(rs: seq<Revision>, r: Revision)
    ensures multiset(rs + [r]) == multiset(rs) + multiset{r}
  {
  }

  /** Every member is in exactly one part of the chain. */
  lemma {:induction false} ClassifiedPartitions(ms: seq<Revision>)
    ensures Sorts(Classified(ms)) && Parts(Classified(ms)) == multiset(ms)
  {
    if ms == [] {
    } else {
      ClassifiedPartitions(ms[..|ms| - 1]);
      ExtendSorts(Classified(ms[..|ms| - 1]), ms[|ms| - 1]);
      assert ms == ms[..|ms| - 1] + [ms[|ms| - 1]];
    }
  }

  lemma {:induction false} ActivePart(ms: seq<Revision>)
    ensures var ch := Classified(ms); forall r :: r in Latest(ch) + ch.predecessors <==> r in ms && Active(r)
  {
    var ch := Classified(ms);
    ClassifiedPartitions(ms);
    forall r ensures r in Latest(ch) + ch.predecessors <==> r in ms && Active(r) {
      assert r in ms <==> r in Parts(ch);
    }
  }

  ghost predicate Descending(rs: seq<Revision>) {
    forall i, j :: 0 <= i < j < |rs| ==> rs[i].number >= rs[j].number
  }

  lemma {:induction false} DescendingSnoc(rs: seq<Revision>, r: Revision)
    requires Descending(rs) && forall x :: x in rs ==> x.number >= r.number
    ensures Descending(rs + [r])
  {
    assert forall i :: 0 <= i < |rs| ==> rs[i] in rs;
  }

  /** Each part of the chain of a descending list is in descending order itself. */
  lemma {:induction false} ClassifiedDescends(ms: seq<Revision>)
    requires Descending(ms)
    ensures var ch := Classified(ms);
            Descending(Latest(ch) + ch.predecessors) && Descending(ch.archived) && Descending(ch.deleted)
  {
    if ms == [] {
    } else {
      var init, last := ms[..|ms| - 1], ms[|ms| - 1];
      var ch := Classified(init);
      ClassifiedDescends(init);
      ClassifiedPartitions(init);
      PartsAbove(init, ch, last);
      hide Classified, Parts;
      DescendingSnoc(Latest(ch) + ch.predecessors, last);
      DescendingSnoc(ch.archived, last);
      DescendingSnoc(ch.deleted, last);
      ExtendParts(ch, last);
    }
  }

  lemma {:induction false} ExtendParts(ch: Chain, m: Revision)
    requires Sorts(ch)
    ensures var next := Extend(ch, m);
            && (next.deleted == ch.deleted || next.deleted == ch.deleted + [m])
            && (next.archived == ch.archived || next.archived == ch.archived + [m])
            && (Latest(next) + next.predecessors == Latest(ch) + ch.predecessors
                || Latest(next) + next.predecessors == Latest(ch) + ch.predecessors + [m])
  {
    assert [m] + [] == [] + [] + [m];
    Associates(Latest(ch), ch.predecessors, [m]);
  }

  lemma {:induction false} PartsAbove(ms: seq<Revision>, ch: Chain, m: Revision)
    requires multiset(ms) == Parts(ch) && forall k :: 0 <= k < |ms| ==> ms[k].number >= m.number
    ensures forall r :: r in Latest(ch) + ch.predecessors ==> r.number >= m.number
    ensures forall r :: r in ch.archived || r in ch.deleted ==> r.number >= m.number
  {
    forall r | r in Latest(ch) + ch.predecessors || r in ch.archived || r in ch.deleted ensures r.number >= m.number {
      assert r in Parts(ch);
      assert r in ms;
    }
  }

  /** The chain runs from the newest revision to the oldest, in each of its parts, and so do the siblings. */
  lemma {:induction false} ChainDescends(ms: seq<Revision>, name: string)
    ensures var ch := ChainOf(ms);
            && Descending(Latest(ch) + ch.predecessors) && Descending(ch.archived) && Descending(ch.deleted)
            && Descending(OtherThan(Latest(ch) + ch.predecessors, name))
  {
    hide Classified, Sorted;
    SortedSorts(ms);
    ClassifiedDescends(Reverse(Sorted(ms)));
    OtherThanDescends(Latest(ChainOf(ms)) + ChainOf(ms).predecessors, name);
  }

  lemma {:induction false} OtherThanDescends(rs: seq<Revision>, name: string)
    requires Descending(rs)
    ensures Descending(OtherThan(rs, name))
    ensures forall r :: r in OtherThan(rs, name) ==> r in rs
  {
    if rs == [] {
    } else {
      var init, last := rs[..|rs| - 1], rs[|rs| - 1];
      OtherThanDescends(init, name);
      assert forall r :: r in init ==> r in rs && r.number >= last.number;
      DescendingSnoc(OtherThan(init, name), last);
    }
  }

  /** The newest of the revisions that are neither archived nor being deleted. */
  ghost predicate IsLatestActive(rs: seq<Revision>, r: Revision) {
    r in rs && Active(r) && forall x :: x in rs && Active(x) ==> x.number <= r.number
  }

  /** The backward scan of syncRevision. */
  function LastActive(rs: seq<Revision>): Option<Revision> {
    if rs == [] then None
    else if Active(rs[|rs| - 1]) then Some(rs[|rs| - 1])
    else LastActive(rs[..|rs| - 1])
  }

  /** The filter of updateStatus. */
  function ActiveOnes(rs: seq<Revision>): seq<Revision> {
    if rs == [] then []
    else ActiveOnes(rs[..|rs| - 1]) + if Active(rs[|rs| - 1]) then [rs[|rs| - 1]] else []
  }

  function FirstActive(rs: seq<Revision>): Option<Revision> {
    if rs == [] then None else if Active(rs[0]) then Some(rs[0]) else FirstActive(rs[1..])
  }

  lemma {:induction false} LastActiveIsLatest(rs: seq<Revision>)
    requires Ascending(rs)
    ensures LastActive(rs).None? ==> forall x :: x in rs ==> !Active(x)
    ensures LastActive(rs).Some? ==> IsLatestActive(rs, LastActive(rs).value)
  {
    if rs == [] {
    } else {
      LastActiveIsLatest(rs[..|rs| - 1]);
      assert rs == rs[..|rs| - 1] + [rs[|rs| - 1]];
    }
  }

  lemma {:induction false} FilterThenLast(rs: seq<Revision>)
    ensures LastActive(rs) == if ActiveOnes(rs) == [] then None else Some(ActiveOnes(rs)[|ActiveOnes(rs)| - 1])
  {
    if rs == [] {
    } else {
      FilterThenLast(rs[..|rs| - 1]);
    }
  }

  lemma {:induction false} ChainHeadIsFirst(ms: seq<Revision>)
    ensures Classified(ms).latestActive == FirstActive(ms)
  {
    if ms == [] {
    } else {
      var init, last := ms[..|ms| - 1], ms[|ms| - 1];
      ChainHeadIsFirst(init);
      FirstActiveSnoc(init, last);
      assert ms == init + [last];
    }
  }

  lemma {:induction false} FirstActiveSnoc(ms: seq<Revision>, m: Revision)
    ensures FirstActive(ms + [m]) == if FirstActive(ms).Some? then FirstActive(ms) else if Active(m) then Some(m) else None
  {
    if ms == [] {
      assert FirstActive([m][1..]) == None;
    } else {
      assert (ms + [m])[1..] == ms[1..] + [m];
      FirstActiveSnoc(ms[1..], m);
    }
  }

  lemma {:induction false} FirstOfReverse(rs: seq<Revision>)
    ensures FirstActive(Reverse(rs)) == LastActive(rs)
  {
    if rs == [] {
    } else {
      FirstOfReverse(rs[..|rs| - 1]);
      assert Reverse(rs)[1..] == Reverse(rs[..|rs| - 1]);
    }
  }

  /** The three places that look for the newest active revision agree: the head of the chain, the
      backward scan over the ascending list, and the last of the ascending list's active revisions;
      and what they find is it. */
  lemma {:induction false} OneNotionOfLatest(ms: seq<Revision>)
    ensures var asc := Sorted(ms);
            var found := LastActive(asc);
            && ChainOf(ms).latestActive == found
            && found == (if ActiveOnes(asc) == [] then None else Some(ActiveOnes(asc)[|ActiveOnes(asc)| - 1]))
            && (found.None? <==> forall x :: x in ms ==> !Active(x))
            && (found.Some? ==> IsLatestActive(ms, found.value))
  {
    var asc := Sorted(ms);
    SortedSorts(ms);
    ChainHeadIsFirst(Reverse(asc));
    FirstOfReverse(asc);
    LastActiveIsLatest(asc);
    FilterThenLast(asc);
  }

  // ---------- Siblings ----------

  /** The siblings the controller of `cos` passes to boxcutter. */
  function Siblings(ms: seq<Revision>, cos: Revision): seq<Revision> {
    var ch := ChainOf(SameOwner(ms, OwnerKey(cos)));
    OtherThan(Latest(ch) + ch.predecessors, cos.name)
  }

  lemma {:induction false} OtherThanMembers(rs: seq<Revision>, name: string)
    ensures forall r :: r in OtherThan(rs, name) <==> r in rs && r.name != name
  {
    if rs == [] {
    } else {
      OtherThanMembers(rs[..|rs| - 1], name);
      assert rs == rs[..|rs| - 1] + [rs[|rs| - 1]];
    }
  }

  lemma {:induction false} SameOwnerMembers(ms: seq<Revision>, key: (string, string))
    ensures forall r :: r in SameOwner(ms, key) <==> r in ms && OwnerKey(r) == key
  {
    if ms == [] {
    } else {
      SameOwnerMembers(ms[..|ms| - 1], key);
      assert ms == ms[..|ms| - 1] + [ms[|ms| - 1]];
    }
  }

  lemma {:induction false} ReverseMembers(rs: seq<Revision>)
    ensures forall r :: r in Reverse(rs) <==> r in rs
  {
    forall r | r in rs ensures r in Reverse(rs) {
      var i :| 0 <= i < |rs| && rs[i] == r;
      assert Reverse(rs)[|rs| - 1 - i] == r;
    }
  }

  /** Both revisions have no controller, or one of the same kind and name; and having none counts as having
      one with neither. */
  ghost predicate OwnedAlike(a: Revision, b: Revision) {
    match (a.owner, b.owner)
    case (None, None) => true
    case (Some(x), None) => x.kind == "" && x.name == ""
    case (None, Some(y)) => y.kind == "" && y.name == ""
    case (Some(x), Some(y)) => x.kind == y.kind && x.name == y.name
  }

  /** The siblings of a revision are exactly the other active revisions of the same owner.  So no
      archived or deleted revision is one, none is its own, and of two active members each is a
      sibling of the other or neither is. */
  lemma {:induction false} SiblingsExactly(ms: seq<Revision>, x: Revision, y: Revision)
    ensures y in Siblings(ms, x) <==> y in ms && Active(y) && OwnedAlike(x, y) && y.name != x.name
    ensures x in ms && y in ms && Active(x) && Active(y) ==> (y in Siblings(ms, x) <==> x in Siblings(ms, y))
  {
    SiblingsOfOne(ms, x, y);
    SiblingsOfOne(ms, y, x);
  }

  lemma {:induction false} SiblingsOfOne(ms: seq<Revision>, x: Revision, y: Revision)
    ensures y in Siblings(ms, x) <==> y in ms && Active(y) && OwnerKey(y) == OwnerKey(x) && y.name != x.name
  {
    var same := SameOwner(ms, OwnerKey(x));
    var desc := Reverse(Sorted(same));
    SameOwnerMembers(ms, OwnerKey(x));
    SortedSorts(same);
    ReverseMembers(Sorted(same));
    ActivePart(desc);
    OtherThanMembers(Latest(ChainOf(same)) + ChainOf(same).predecessors, x.name);
  }
}
