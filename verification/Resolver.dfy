/** internal/object/resolver.go and internal/object/transform.go: finding the content of the objects
    of a spec, the in-memory index of a slice, and the hash that pins what was found. */
module Resolver {
  import opened Api
  import opened Sequences

  datatype SliceObject = SliceObject(key: ObjectKey, content: Bytes)

  /** A ClusterObjectSlice as a reader hands it out. */
  datatype Slice = Slice(objects: seq<SliceObject>, index: Option<map<ObjectKey, Bytes>>)

  /** The slice as the informer cache holds it; the cache's transform changes it in place. */
  class ClusterObjectSlice {
    var objects: seq<SliceObject>
    var index: Option<map<ObjectKey, Bytes>>

    function Value(): Slice
      reads this
    {
      Slice(objects, index)
    }

    constructor (objects: seq<SliceObject>)
      ensures Value() == Slice(objects, None)
    {
      this.objects, index := objects, None;
    }

    /** TransformClusterObjectSlice. */
    method Transform()
      modifies this
      ensures Value() == Transformed(old(Value()))
    {
      var m: map<ObjectKey, Bytes> := map[];
      for i := 0 to |objects|
        invariant unchanged(this)
        invariant m == IndexOf(objects[..i])
      {
        m := m[objects[i].key := objects[i].content];
        assert objects[..i + 1][..i] == objects[..i];
      }
      Whole(objects);
      index := Some(m);
      objects := [];
    }
  }

  function IndexOf(objects: seq<SliceObject>): map<ObjectKey, Bytes> {
    if objects == [] then map[]
    else
      var last := objects[|objects| - 1];
      IndexOf(objects[..|objects| - 1])[last.key := last.content]
  }

  function Transformed(s: Slice): Slice {
    Slice([], Some(IndexOf(s.objects)))
  }

  function FirstWith(objects: seq<SliceObject>, key: ObjectKey): Option<Bytes> {
    if objects == [] then None
    else if objects[0].key == key then Some(objects[0].content)
    else FirstWith(objects[1..], key)
  }

  function LastWith(objects: seq<SliceObject>, key: ObjectKey): Option<Bytes> {
    if objects == [] then None
    else if objects[|objects| - 1].key == key then Some(objects[|objects| - 1].content)
    else LastWith(objects[..|objects| - 1], key)
  }

  function Found(s: Slice, key: ObjectKey): Option<Bytes> {
    if s.index.Some? then (if key in s.index.value then Some(s.index.value[key]) else None)
    else FirstWith(s.objects, key)
  }

  method LookupInSlice(s: Slice, key: ObjectKey) returns (content: Option<Bytes>)
    ensures content == Found(s, key)
  {
    if s.index.Some? {
      return if key in s.index.value then Some(s.index.value[key]) else None;
    }
    for i := 0 to |s.objects|
      invariant FirstWith(s.objects, key) == FirstWith(s.objects[i..], key)
    {
      Cons(s.objects, i);
      if s.objects[i].key == key {
        return Some(s.objects[i].content);
      }
    }
    assert s.objects[|s.objects|..] == [];
    return None;
  }

  // ---------- The index agrees with the scan ----------

  lemma {:induction false} IndexIsLast(objects: seq<SliceObject>, key: ObjectKey)
    ensures LastWith(objects, key) == if key in IndexOf(objects) then Some(IndexOf(objects)[key]) else None
  {
    if objects == [] {
    } else {
      IndexIsLast(objects[..|objects| - 1], key);
    }
  }

  predicate DistinctKeys(objects: seq<SliceObject>) {
    forall i, j :: 0 <= i < j < |objects| ==> objects[i].key != objects[j].key
  }

  lemma {:induction false} FirstConcat(a: seq<SliceObject>, b: seq<SliceObject>, key: ObjectKey)
    ensures FirstWith(a + b, key) == if FirstWith(a, key).Some? then FirstWith(a, key) else FirstWith(b, key)
  {
    if a == [] {
      assert a + b == b;
    } else {
      assert (a + b)[1..] == a[1..] + b;
      FirstConcat(a[1..], b, key);
    }
  }

  lemma {:induction false} FirstFound(objects: seq<SliceObject>, key: ObjectKey)
    ensures FirstWith(objects, key).Some? <==> exists i :: 0 <= i < |objects| && objects[i].key == key
  {
    if objects == [] {
    } else {
      FirstFound(objects[1..], key);
      if i: nat :| 0 < i < |objects| && objects[i].key == key {
        assert objects[1..][i - 1].key == key;
      }
    }
  }

  lemma {:induction false} FirstIsLast(objects: seq<SliceObject>, key: ObjectKey)
    requires DistinctKeys(objects)
    ensures FirstWith(objects, key) == LastWith(objects, key)
  {
    if objects == [] {
    } else {
      var init, last := objects[..|objects| - 1], objects[|objects| - 1];
      FirstIsLast(init, key);
      assert objects == init + [last];
      FirstConcat(init, [last], key);
      FirstFound(init, key);
    }
  }

  /** A slice admitted by the API server, whose keys are distinct, answers every lookup the same with
      and without the index. */
  lemma {:induction false} IndexAgreesWithScan(objects: seq<SliceObject>, key: ObjectKey)
    requires DistinctKeys(objects)
    ensures Found(Transformed(Slice(objects, None)), key) == Found(Slice(objects, None), key)
  {
    IndexIsLast(objects, key);
    FirstIsLast(objects, key);
  }

  /** For any list: the two agree on a key exactly when its first and last entries have the same
      content. */
  lemma {:induction false} IndexAgreesIff(objects: seq<SliceObject>, key: ObjectKey)
    ensures Found(Transformed(Slice(objects, None)), key) == Found(Slice(objects, None), key)
            <==> FirstWith(objects, key) == LastWith(objects, key)
  {
    IndexIsLast(objects, key);
  }

  /** Transforming a second time loses every entry. */
  lemma {:induction false} TransformTwiceIsEmpty(s: Slice, key: ObjectKey)
    ensures Found(Transformed(Transformed(s)), key) == None
  {
  }

  // ---------- Resolve ----------

  /** What resolving depends on outside the spec: the slices the reader knows, and gzip. */
  datatype Sources = Sources(slices: map<string, Slice>, gunzip: Bytes -> Option<Bytes>)

  predicate IsGzip(content: Bytes) {
    |content| >= 2 && content[0] == 0x1f && content[1] == 0x8b
  }

  function RawOf(src: Sources, po: PhaseObject): Option<Bytes> {
    match po
    case Inline(raw) => Some(raw)
    case Ref(name, key) =>
      if name !in src.slices then None
      else
        var content := Found(src.slices[name], key);
        if content.Some? && IsGzip(content.value) then src.gunzip(content.value) else content
  }

  method ResolveRaw(src: Sources, po: PhaseObject) returns (raw: Option<Bytes>)
    ensures raw == RawOf(src, po)
  {
    if po.Inline? {
      return Some(po.raw);
    }
    if po.sliceName !in src.slices {
      return None;
    }
    var content := LookupInSlice(src.slices[po.sliceName], po.key);
    if content.None? {
      return None;
    }
    if |content.value| >= 2 && content.value[0] == 0x1f && content.value[1] == 0x8b {
      return src.gunzip(content.value);
    }
    return content;
  }

  /** All objects of a spec, phase by phase. */
  function AllObjects(ps: seq<Phase>): seq<PhaseObject> {
    if ps == [] then [] else AllObjects(ps[..|ps| - 1]) + ps[|ps| - 1].objects
  }

  /** The contents of a list of objects; None as soon as one cannot be resolved or is not a JSON
      object. */
  function Contents(src: Sources, parses: Bytes -> bool, objects: seq<PhaseObject>): Option<seq<Bytes>> {
    if objects == [] then Some([])
    else
      var init := Contents(src, parses, objects[..|objects| - 1]);
      var raw := RawOf(src, objects[|objects| - 1]);
      if init.Some? && raw.Some? && parses(raw.value) then Some(init.value + [raw.value]) else None
  }

  /** The bytes the hash is taken over: the contents with nothing between them. */
  function Concat(raws: seq<Bytes>): Bytes {
    if raws == [] then [] else Concat(raws[..|raws| - 1]) + raws[|raws| - 1]
  }

  /** Resolve: the contents in order, and the bytes written to the hash. */
  method Resolve(src: Sources, parses: Bytes -> bool, ps: seq<Phase>)
    returns (contents: Option<seq<Bytes>>, hashed: Bytes)
    ensures contents == Contents(src, parses, AllObjects(ps))
    ensures contents.Some? ==> hashed == Concat(contents.value)
  {
    hide Contents, Concat;
    var raws: seq<Bytes> := [];
    hashed := [];
    NothingYet(src, parses, ps);
    for i := 0 to |ps|
      invariant Contents(src, parses, AllObjects(ps[..i])) == Some(raws)
      invariant hashed == Concat(raws)
    {
      ghost var before := AllObjects(ps[..i]);
      var objects := ps[i].objects;
      assert before + objects[..0] == before;
      for k := 0 to |objects|
        invariant Contents(src, parses, before + objects[..k]) == Some(raws)
        invariant hashed == Concat(raws)
      {
        OneMore(src, parses, before + objects[..k], objects[k], raws);
        assert before + objects[..k] + [objects[k]] == before + objects[..k + 1];
        var raw := ResolveRaw(src, objects[k]);
        if raw.None? || !parses(raw.value) {
          UnresolvedPrefix(src, parses, ps, i, k);
          return None, [];
        }
        raws := raws + [raw.value];
        hashed := hashed + raw.value;
      }
      assert ps[..i + 1][..i] == ps[..i];
      Whole(objects);
    }
    Whole(ps);
    return Some(raws), hashed;
  }

  lemma {:induction false} NothingYet(src: Sources, parses: Bytes -> bool, ps: seq<Phase>)
    ensures Contents(src, parses, AllObjects(ps[..0])) == Some([]) && Concat([]) == []
  {
  }

  lemma {:induction false} OneMore(
      src: Sources, parses: Bytes -> bool, done: seq<PhaseObject>, po: PhaseObject, raws: seq<Bytes>)
    requires Contents(src, parses, done) == Some(raws)
    ensures var raw := RawOf(src, po);
            if raw.Some? && parses(raw.value) then
              && Contents(src, parses, done + [po]) == Some(raws + [raw.value])
              && Concat(raws + [raw.value]) == Concat(raws) + raw.value
            else Contents(src, parses, done + [po]) == None
  {
    assert (done + [po])[..|done|] == done;
    var raw := RawOf(src, po);
    if raw.Some? {
      assert (raws + [raw.value])[..|raws|] == raws;
    }
  }

  lemma {:induction false} ObjectsPrefix(ps: seq<Phase>, i: nat, k: nat)
    requires i < |ps| && k <= |ps[i].objects|
    ensures AllObjects(ps[..i]) + ps[i].objects[..k] <= AllObjects(ps)
    decreases |ps|
  {
    if i < |ps| - 1 {
      ObjectsPrefix(ps[..|ps| - 1], i, k);
      assert ps[..|ps| - 1][..i] == ps[..i];
    }
  }

  lemma {:induction false} UnresolvedPrefix(src: Sources, parses: Bytes -> bool, ps: seq<Phase>, i: nat, k: nat)
    requires i < |ps| && k < |ps[i].objects|
    requires Contents(src, parses, AllObjects(ps[..i]) + ps[i].objects[..k + 1]) == None
    ensures Contents(src, parses, AllObjects(ps)) == None
  {
    var prefix := AllObjects(ps[..i]) + ps[i].objects[..k + 1];
    ObjectsPrefix(ps, i, k + 1);
    LongerUnresolved(src, parses, AllObjects(ps), |prefix|);
    assert AllObjects(ps)[..|prefix|] == prefix;
  }

  lemma {:induction false} LongerUnresolved(src: Sources, parses: Bytes -> bool, objects: seq<PhaseObject>, n: nat)
    requires n <= |objects|
    ensures Contents(src, parses, objects[..n]) == None ==> Contents(src, parses, objects) == None
  {
    if n == |objects| {
      Whole(objects);
    } else {
      assert objects[..|objects| - 1][..n] == objects[..n];
      LongerUnresolved(src, parses, objects[..|objects| - 1], n);
    }
  }

  // ---------- What an object of the spec stands for ----------

  /** All objects of two lists of phases, one after the other, are those of the first and those of the
      second; and those of a single phase are its own. */
  lemma {:induction false} ObjectsInOrder(a: seq<Phase>, b: seq<Phase>, p: Phase)
    ensures AllObjects(a + b) == AllObjects(a) + AllObjects(b)
    ensures AllObjects([p]) == p.objects
    decreases |b|
  {
    assert AllObjects([p]) == AllObjects([p][..0]) + p.objects;
    if b == [] {
      assert a + b == a;
    } else {
      var init := b[..|b| - 1];
      ObjectsInOrder(a, init, p);
      assert (a + b)[..|a + b| - 1] == a + init;
      Associates(AllObjects(a), AllObjects(init), b[|b| - 1].objects);
    }
  }

  /** The objects resolve to these contents exactly if each one does to its own, and each content parses;
      the list of contents is as long as that of the objects. */
  lemma {:induction false} ContentsIff(
      src: Sources, parses: Bytes -> bool, objects: seq<PhaseObject>, contents: seq<Bytes>)
    ensures Contents(src, parses, objects) == Some(contents)
            <==> && |contents| == |objects|
                 && forall k :: 0 <= k < |objects| ==>
                      RawOf(src, objects[k]) == Some(contents[k]) && parses(contents[k])
  {
    if objects == [] {
    } else {
      hide RawOf;
      var n := |objects| - 1;
      if |contents| == |objects| {
        ContentsIff(src, parses, objects[..n], contents[..n]);
        Snoc(contents, n);
        Whole(contents);
      }
      if Contents(src, parses, objects) == Some(contents) {
        var init := Contents(src, parses, objects[..n]).value;
        ContentsIff(src, parses, objects[..n], init);
      }
    }
  }

  /** However an object is given, inline, or by reference to a slice that holds it as it is or compressed,
      it stands for the same content, if the compressed form starts with gzip's magic number and unzips to
      it.  The plain form in a slice must not be taken for a compressed one: that works exactly if it does
      not start like one, or unzips to itself. */
  lemma {:induction false} StorageIsTransparent(
      src: Sources, content: Bytes, zipped: Bytes, plain: PhaseObject, packed: PhaseObject)
    requires plain.Ref? && plain.sliceName in src.slices
    requires Found(src.slices[plain.sliceName], plain.key) == Some(content)
    requires packed.Ref? && packed.sliceName in src.slices
    requires Found(src.slices[packed.sliceName], packed.key) == Some(zipped)
    requires [0x1f, 0x8b] <= zipped && src.gunzip(zipped) == Some(content)
    ensures RawOf(src, Inline(content)) == RawOf(src, packed) == Some(content)
    ensures RawOf(src, plain) == Some(content) <==> !([0x1f, 0x8b] <= content) || src.gunzip(content) == Some(content)
  {
    assert IsGzip(content) ==> [content[0], content[1]] <= content;
  }

  /** A reference that leads nowhere stands for nothing. */
  lemma {:induction false} DanglingIsMissing(src: Sources, po: PhaseObject)
    requires po.Ref?
    requires po.sliceName in src.slices ==> Found(src.slices[po.sliceName], po.key) == None
    ensures RawOf(src, po) == None
  {
  }
}
