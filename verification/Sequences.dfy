/** Facts about sequences that the other modules use. */
module Sequences {

  lemma Associates<T>(a: seq<T>, b: seq<T>, c: seq<T>)
    ensures a + b + c == a + (b + c)
  {
  }

  lemma Joined<T>(a: seq<T>, b: seq<T>, c: seq<T>, d: seq<T>)
    ensures a + b + c + d == a + (b + c + d)
    ensures a + b + c == a + (b + c + [])
  {
  }

  lemma TakeDrop<T>(s: seq<T>, k: nat)
    requires k <= |s|
    ensures s[..k] + s[k..] == s
  {
  }

  lemma Whole<T>(s: seq<T>)
    ensures s[..|s|] == s
  {
  }

  lemma Snoc<T>(s: seq<T>, k: nat)
    requires k < |s|
    ensures s[..k + 1] == s[..k] + [s[k]]
  {
  }

  lemma Cons<T>(s: seq<T>, k: nat)
    requires k < |s|
    ensures s[k..] == [s[k]] + s[k + 1..] && s[k..][1..] == s[k + 1..]
  {
  }

  // ---------- Positions in order ----------

  /** `ks` lists the members of `s` in ascending order, each once. */
  ghost predicate Enumerates(ks: seq<int>, s: set<int>) {
    && (forall i, j :: 0 <= i < j < |ks| ==> ks[i] < ks[j])
    && (forall k :: k in ks <==> k in s)
  }

  lemma {:induction false} EnumeratesSnoc(ks: seq<int>, s: set<int>, n: int)
    requires Enumerates(ks, s) && forall k :: k in s ==> k < n
    ensures Enumerates(ks + [n], s + {n})
  {
    assert forall k :: 0 <= k < |ks| ==> ks[k] in ks;
  }
}
