/** Inserting into and deleting from a sequence at a slot, and sequences without repetition. */
module Seqs {

  // s with x at slot k, and s without its slot k
  function Spliced<X>(s: seq<X>, k: nat, x: X): seq<X>
    requires k <= |s|
  {
    seq(|s| + 1, i requires 0 <= i <= |s| => if i < k then s[i] else if i == k then x else s[i - 1])
  }

  function Without<X>(s: seq<X>, k: nat): seq<X>
    requires k < |s|
  {
    seq(|s| - 1, i requires 0 <= i < |s| - 1 => if i < k then s[i] else s[i + 1])
  }

  ghost predicate Differ<X>(s: seq<X>, i: nat, j: nat)
    requires i < |s| && j < |s|
  {
    s[i] != s[j]
  }

  ghost predicate Distinct<X>(s: seq<X>) {
    forall i, j {:trigger Differ(s, i, j)} :: 0 <= i < j < |s| ==> Differ(s, i, j)
  }

  lemma OneSlotEach<X>(s: seq<X>, i: nat, j: nat)
    requires Distinct(s) && i < |s| && j < |s|
    ensures s[i] == s[j] <==> i == j
  {
    assert i < j ==> Differ(s, i, j);
    assert j < i ==> Differ(s, j, i);
  }

  lemma SplicedIsDistinct<X>(s: seq<X>, k: nat, x: X)
    requires k <= |s| && Distinct(s) && x !in s
    ensures Distinct(Spliced(s, k, x))
  {
    var t := Spliced(s, k, x);
    forall i, j | 0 <= i < j < |t|
      ensures Differ(t, i, j)
    {
      if i != k && j != k {
        OneSlotEach(s, if i < k then i else i - 1, if j < k then j else j - 1);
      }
    }
  }

  lemma WithoutIsDistinct<X>(s: seq<X>, k: nat)
    requires k < |s| && Distinct(s)
    ensures Distinct(Without(s, k))
    ensures s[k] !in Without(s, k)
  {
    var t := Without(s, k);
    forall i, j | 0 <= i < j < |t|
      ensures Differ(t, i, j)
    {
      OneSlotEach(s, if i < k then i else i + 1, if j < k then j else j + 1);
    }
    forall i | 0 <= i < |t|
      ensures t[i] != s[k]
    {
      OneSlotEach(s, if i < k then i else i + 1, k);
    }
  }

  lemma AppendedIsDistinct<X>(s: seq<X>, x: X)
    requires Distinct(s) && x !in s
    ensures Distinct(s + [x])
  {
    var t := s + [x];
    forall i, j | 0 <= i < j < |t|
      ensures Differ(t, i, j)
    {
      if j < |s| {
        OneSlotEach(s, i, j);
      }
    }
  }
}
