/** Totals of a weight over a list. */
module Sums {
  import opened Ordering

  function Sum<T>(weight: T -> int, s: seq<T>): int {
    if s == [] then 0 else Sum(weight, s[..|s| - 1]) + weight(s[|s| - 1])
  }

  lemma {:induction false} SumConcat<T>(weight: T -> int, a: seq<T>, b: seq<T>)
    ensures Sum(weight, a + b) == Sum(weight, a) + Sum(weight, b)
  {
    if b == [] {
      assert a + b == a;
    } else {
      assert (a + b)[..|a + b| - 1] == a + b[..|b| - 1];
      SumConcat(weight, a, b[..|b| - 1]);
    }
  }

  lemma SumRemove<T>(weight: T -> int, s: seq<T>, i: nat)
    requires i < |s|
    ensures Sum(weight, s) == Sum(weight, s[..i] + s[i + 1..]) + weight(s[i])
  {
    assert s == s[..i] + [s[i]] + s[i + 1..];
    assert [s[i]][..0] == [];
    SumConcat(weight, s[..i] + [s[i]], s[i + 1..]);
    SumConcat(weight, s[..i], [s[i]]);
    SumConcat(weight, s[..i], s[i + 1..]);
  }

  lemma RemoveAt<T>(s: seq<T>, i: nat)
    requires i < |s|
    ensures multiset(s[..i] + s[i + 1..]) == multiset(s) - multiset{s[i]}
  {
    assert s == s[..i] + [s[i]] + s[i + 1..];
  }

  /** Weights that are not negative add up to no more on part of a list than on the whole. */
  lemma {:induction false} SumPart<T(!new)>(weight: T -> int, part: seq<T>, whole: seq<T>)
    requires multiset(part) <= multiset(whole)
    requires forall x | x in whole :: weight(x) >= 0
    ensures 0 <= Sum(weight, part) <= Sum(weight, whole)
    decreases |whole|
  {
    if whole == [] {
      assert |multiset(part)| == 0;
      assert part == [];
    } else {
      var n := |whole| - 1;
      var last, front := whole[n], whole[..n];
      DropLast(whole);
      if last in part {
        var i :| 0 <= i < |part| && part[i] == last;
        RemoveAt(part, i);
        SumRemove(weight, part, i);
        SumPart(weight, part[..i] + part[i + 1..], front);
      } else {
        assert multiset(part) <= multiset(front) by {
          assert multiset(part)[last] == 0;
        }
        SumPart(weight, part, front);
      }
      assert last in whole;
    }
  }

  /** A list without repeats, drawn from another, is part of it. */
  lemma {:induction false} DistinctPart<T(!new)>(part: seq<T>, whole: seq<T>)
    requires forall i, j | 0 <= i < j < |part| :: part[i] != part[j]
    requires forall x | x in part :: x in whole
    ensures multiset(part) <= multiset(whole)
  {
    forall x ensures multiset(part)[x] <= multiset(whole)[x] {
      if x in part {
        DistinctCount(part, x);
        assert x in multiset(whole);
      }
    }
  }

  lemma {:induction false} DistinctCount<T(!new)>(s: seq<T>, x: T)
    requires forall i, j | 0 <= i < j < |s| :: s[i] != s[j]
    ensures multiset(s)[x] <= 1
  {
    if s != [] {
      DropLast(s);
      DistinctCount(s[..|s| - 1], x);
      if x == s[|s| - 1] { assert x !in s[..|s| - 1]; }
    }
  }
}
