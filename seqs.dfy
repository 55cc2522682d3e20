/** Sequence operations that stand for Python list behaviour used across the
    source: `list.remove` (first occurrence only), filtering out a value, and
    the "no duplicates" property of keys and directory listings. */
module Seqs {

  ghost predicate Distinct<T>(s: seq<T>) {
    forall i, j :: 0 <= i < j < |s| ==> s[i] != s[j]
  }

  /** Index of the first occurrence of `x` in `s`. */
  function IndexOf<T(==)>(s: seq<T>, x: T): (r: nat)
    requires x in s
    ensures r < |s| && s[r] == x
    ensures forall j :: 0 <= j < r ==> s[j] != x
  {
    if s[0] == x then 0 else 1 + IndexOf(s[1..], x)
  }

  /** Python's `list.remove(x)` on a list that contains `x`, and the list
      itself otherwise (the source guards every call with `x in list`). */
  function RemoveFirst<T(==)>(s: seq<T>, x: T): (r: seq<T>)
    ensures x !in s ==> r == s
    ensures x in s ==> r == s[..IndexOf(s, x)] + s[IndexOf(s, x) + 1..]
    ensures x in s ==> |r| == |s| - 1 && multiset(r) == multiset(s) - multiset{x}
  {
    if x !in s then s
    else
      var i := IndexOf(s, x);
      assert s == s[..i] + [x] + s[i + 1..];
      s[..i] + s[i + 1..]
  }

  /** `s` with every occurrence of `x` dropped, order kept. */
  function Without<T(==)>(s: seq<T>, x: T): (r: seq<T>)
    ensures x !in r
    ensures forall i :: 0 <= i < |r| ==> r[i] in s && r[i] != x
    ensures forall i :: 0 <= i < |s| && s[i] != x ==> s[i] in r
    ensures |r| <= |s|
  {
    if s == [] then []
    else if s[0] == x then Without(s[1..], x)
    else [s[0]] + Without(s[1..], x)
  }

  /** The tail of a sequence without duplicates has none either, and lacks
      the head. */
  lemma DistinctTail<T>(s: seq<T>)
    requires Distinct(s) && s != []
    ensures Distinct(s[1..]) && s[0] !in s[1..]
  {
    var t := s[1..];
    forall a, b | 0 <= a < b < |t| ensures t[a] != t[b] {
      assert t[a] == s[a + 1] && t[b] == s[b + 1];
    }
    forall k | 0 <= k < |t| ensures t[k] != s[0] {
      assert t[k] == s[k + 1];
    }
  }

  /** In a sequence without duplicates, dropping a value removes exactly the
      one position that holds it. */
  lemma {:induction false} WithoutAt<T>(s: seq<T>, i: nat)
    requires Distinct(s) && i < |s|
    ensures Without(s, s[i]) == s[..i] + s[i + 1..]
  {
    DistinctTail(s);
    var t := s[1..];
    if i == 0 {
      WithoutAbsent(t, s[0]);
      assert s[..0] + s[1..] == t;
    } else {
      assert t[i - 1] == s[i] && s[0] != s[i];
      WithoutAt(t, i - 1);
      ConsSlices(s, i);
    }
  }

  /** Putting the head back in front of the tail with one position cut out. */
  lemma ConsSlices<T>(s: seq<T>, i: nat)
    requires 0 < i < |s|
    ensures [s[0]] + (s[1..][..i - 1] + s[1..][i..]) == s[..i] + s[i + 1..]
  {
    assert s[..i] == [s[0]] + s[1..][..i - 1];
    assert s[1..][i..] == s[i + 1..];
  }

  /** Dropping a value keeps a sequence free of duplicates. */
  lemma {:induction false} WithoutDistinct<T>(s: seq<T>, x: T)
    requires Distinct(s)
    ensures Distinct(Without(s, x))
  {
    if s != [] {
      var t := s[1..];
      DistinctTail(s);
      WithoutDistinct(t, x);
      if s[0] != x {
        var w := Without(t, x);
        forall a, b | 0 <= a < b < |w| + 1 ensures ([s[0]] + w)[a] != ([s[0]] + w)[b] {
          if a == 0 { assert ([s[0]] + w)[b] == w[b - 1]; }
        }
      }
    }
  }

  lemma {:induction false} WithoutAbsent<T>(s: seq<T>, x: T)
    requires x !in s
    ensures Without(s, x) == s
  {
    if s != [] {
      WithoutAbsent(s[1..], x);
    }
  }

  /** A sequence without duplicates has as many elements as its set. */
  lemma {:induction false} DistinctCard<T>(s: seq<T>)
    requires Distinct(s)
    ensures |set x | x in s| == |s|
  {
    if s != [] {
      var t := s[1..];
      DistinctTail(s);
      DistinctCard(t);
      assert (set x | x in s) == (set x | x in t) + {s[0]} by {
        forall y ensures y in s <==> y in t || y == s[0] {
          assert s == [s[0]] + t;
        }
      }
    }
  }
}
