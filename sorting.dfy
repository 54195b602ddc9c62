/** Ascending sort of a sequence of depths, as `torch.sort` does for the fine depth grid at line 62 of `extra/coarse_fine_sampling.py`. */
module Sorting {

  predicate Sorted(s: seq<real>) {
    forall i, j :: 0 <= i < j < |s| ==> s[i] <= s[j]
  }

  /** Places `x` into an already sorted sequence. */
  function Insert(x: real, s: seq<real>): (r: seq<real>)
    requires Sorted(s)
    ensures Sorted(r)
    ensures multiset(r) == multiset(s) + multiset{x}
    ensures |r| == |s| + 1
    ensures r[0] == x || (s != [] && r[0] == s[0])
  {
    if s == [] || x <= s[0] then
      [x] + s
    else
      var rest := Insert(x, s[1..]);
      assert s == [s[0]] + s[1..];
      assert s[0] <= rest[0];
      [s[0]] + rest
  }

  /** Insertion sort: the values `torch.sort` returns, an ascending permutation of `s`. */
  function Sort(s: seq<real>): (r: seq<real>)
    ensures Sorted(r)
    ensures multiset(r) == multiset(s)
    ensures |r| == |s|
  {
    if s == [] then
      []
    else
      assert s == [s[0]] + s[1..];
      Insert(s[0], Sort(s[1..]))
  }

  /** The head of a non-empty ascending sequence is at most each of its values. */
  lemma HeadIsLeast(a: seq<real>, y: real)
    requires Sorted(a) && a != []
    requires y in multiset(a)
    ensures a[0] <= y
  {
    assert y in a;
  }

  lemma SplitHead(a: seq<real>)
    requires a != []
    ensures multiset(a[1..]) == multiset(a) - multiset{a[0]}
    ensures Sorted(a) ==> Sorted(a[1..])
  {
    assert a == [a[0]] + a[1..];
  }

  lemma SameLength(a: seq<real>, b: seq<real>)
    requires multiset(a) == multiset(b)
    ensures |a| == |b|
  {
    assert |multiset(a)| == |a| && |multiset(b)| == |b|;
  }

  /** Two ascending sequences holding the same values are equal, so any correct sort yields `Sort(s)`. */
  lemma {:induction false} SortedPermutationUnique(a: seq<real>, b: seq<real>)
    requires Sorted(a) && Sorted(b)
    requires multiset(a) == multiset(b)
    ensures a == b
    decreases |a|
  {
    SameLength(a, b);
    if |a| > 0 {
      assert a[0] == b[0] by {
        assert a[0] in multiset(a) && b[0] in multiset(b);
        HeadIsLeast(a, b[0]);
        HeadIsLeast(b, a[0]);
      }
      assert a[1..] == b[1..] by {
        SplitHead(a);
        SplitHead(b);
        SortedPermutationUnique(a[1..], b[1..]);
      }
      assert a == [a[0]] + a[1..] && b == [b[0]] + b[1..];
    }
  }

  /** Every value of the input survives the sort. */
  lemma {:induction false} SortKeeps(s: seq<real>, i: nat)
    requires i < |s|
    ensures s[i] in Sort(s)
  {
    assert s[i] in multiset(s);
    assert s[i] in multiset(Sort(s));
  }

  /** Every value of the sorted sequence comes from the input. */
  lemma {:induction false} SortDrawsFrom(s: seq<real>, k: nat)
    requires k < |s|
    ensures exists i :: 0 <= i < |s| && Sort(s)[k] == s[i]
  {
    var r := Sort(s);
    assert r[k] in multiset(r);
    assert r[k] in multiset(s);
  }
}
