/** The orders the replays sort by: the stable sort the runtime performs on a
    comparator, and the code-unit order of strings. */
module Ordering {

  /** What a comparator must satisfy for sorting to make sense: `not greater` is transitive. */
  ghost predicate WeakOrder<T(!new)>(less: (T, T) -> bool) {
    && (forall a, b :: less(a, b) ==> !less(b, a))
    && (forall a, b, c :: !less(b, a) && !less(c, b) ==> !less(c, a))
  }

  /** No two different elements tie. */
  ghost predicate NoTies<T(!new)>(less: (T, T) -> bool, s: seq<T>) {
    forall a, b | a in s && b in s && a != b :: less(a, b) || less(b, a)
  }

  ghost predicate Sorted<T(!new)>(less: (T, T) -> bool, s: seq<T>) {
    forall i, j | 0 <= i < j < |s| :: !less(s[j], s[i])
  }

  /** Puts x after every element that is not greater, so equal elements keep their order. */
  function Insert<T(!new)>(less: (T, T) -> bool, s: seq<T>, x: T): (r: seq<T>)
    ensures |r| == |s| + 1
  {
    if s == [] || !less(x, s[|s| - 1]) then s + [x]
    else Insert(less, s[..|s| - 1], x) + [s[|s| - 1]]
  }

  lemma TakeNext<T(!new)>(s: seq<T>, i: nat)
    requires i < |s|
    ensures s[..i + 1] == s[..i] + [s[i]] && s[..i + 1][..i] == s[..i]
  {
  }

  /** The stable sort of s by less. */
  function Sort<T(!new)>(less: (T, T) -> bool, s: seq<T>): (r: seq<T>)
    ensures |r| == |s|
  {
    if s == [] then [] else Insert(less, Sort(less, s[..|s| - 1]), s[|s| - 1])
  }

  lemma {:induction false} InsertElements<T(!new)>(less: (T, T) -> bool, s: seq<T>, x: T)
    ensures multiset(Insert(less, s, x)) == multiset(s) + multiset{x}
  {
    if s != [] && less(x, s[|s| - 1]) {
      InsertElements(less, s[..|s| - 1], x);
      assert s == s[..|s| - 1] + [s[|s| - 1]];
    }
  }

  lemma {:induction false} SortMultiset<T(!new)>(less: (T, T) -> bool, s: seq<T>)
    ensures multiset(Sort(less, s)) == multiset(s)
  {
    if s != [] {
      SortMultiset(less, s[..|s| - 1]);
      InsertElements(less, Sort(less, s[..|s| - 1]), s[|s| - 1]);
      assert s == s[..|s| - 1] + [s[|s| - 1]];
    }
  }

  lemma SameElements<T(!new)>(a: seq<T>, b: seq<T>)
    requires multiset(a) == multiset(b)
    ensures |a| == |b|
    ensures forall x :: x in a <==> x in b
  {
    assert |multiset(a)| == |multiset(b)|;
    forall x ensures x in a <==> x in b {
      assert x in a <==> x in multiset(a);
      assert x in b <==> x in multiset(b);
    }
  }

  lemma SortElements<T(!new)>(less: (T, T) -> bool, s: seq<T>)
    ensures forall x :: x in Sort(less, s) <==> x in s
  {
    SortMultiset(less, s);
    SameElements(Sort(less, s), s);
  }

  lemma LessAsymmetric<T(!new)>(less: (T, T) -> bool, a: T, b: T)
    requires WeakOrder(less) && less(a, b)
    ensures !less(b, a)
  {
  }

  lemma {:induction false} InsertSorted<T(!new)>(less: (T, T) -> bool, s: seq<T>, x: T)
    requires WeakOrder(less)
    requires Sorted(less, s)
    ensures Sorted(less, Insert(less, s, x))
  {
    if s == [] || !less(x, s[|s| - 1]) {
      PrecedesNone(less, s, x);
    } else {
      var front, last := s[..|s| - 1], s[|s| - 1];
      InsertSorted(less, front, x);
      InsertElements(less, front, x);
      var r := Insert(less, front, x);
      forall i | 0 <= i < |r| ensures !less(last, r[i]) {
        assert r[i] in multiset(r);
        assert r[i] in front || r[i] == x;
        if r[i] == x { LessAsymmetric(less, x, last); } else { LastIsGreatest(less, s, r[i]); }
      }
    }
  }

  lemma {:induction false} SortSorted<T(!new)>(less: (T, T) -> bool, s: seq<T>)
    requires WeakOrder(less)
    ensures Sorted(less, Sort(less, s))
  {
    if s != [] {
      var front, last := s[..|s| - 1], s[|s| - 1];
      SortSorted(less, front);
      InsertSorted(less, Sort(less, front), last);
    }
  }

  lemma LastIsGreatest<T(!new)>(less: (T, T) -> bool, s: seq<T>, y: T)
    requires Sorted(less, s) && y in s
    ensures y == s[|s| - 1] || !less(s[|s| - 1], y)
  {
    var i :| 0 <= i < |s| && s[i] == y;
  }

  lemma DropLast<T(!new)>(s: seq<T>)
    requires s != []
    ensures s == s[..|s| - 1] + [s[|s| - 1]]
    ensures multiset(s) == multiset(s[..|s| - 1]) + multiset{s[|s| - 1]}
    ensures forall y | y in s[..|s| - 1] :: y in s
  {
    assert s == s[..|s| - 1] + [s[|s| - 1]];
  }

  lemma NoTiesFront<T(!new)>(less: (T, T) -> bool, s: seq<T>)
    requires s != [] && NoTies(less, s)
    ensures NoTies(less, s[..|s| - 1])
  {
    DropLast(s);
  }

  lemma DropSameLast<T(!new)>(a: seq<T>, b: seq<T>)
    requires a != [] && b != [] && a[|a| - 1] == b[|b| - 1]
    requires multiset(a) == multiset(b)
    ensures multiset(a[..|a| - 1]) == multiset(b[..|b| - 1])
  {
    DropLast(a);
    DropLast(b);
    var x := multiset{a[|a| - 1]};
    assert multiset(a[..|a| - 1]) == multiset(a) - x && multiset(b[..|b| - 1]) == multiset(b) - x;
  }

  lemma SameLast<T(!new)>(less: (T, T) -> bool, a: seq<T>, b: seq<T>)
    requires multiset(a) == multiset(b)
    requires Sorted(less, a) && Sorted(less, b)
    requires NoTies(less, a)
    requires a != [] && b != []
    ensures a[|a| - 1] == b[|b| - 1]
  {
    var x, y := a[|a| - 1], b[|b| - 1];
    assert x in multiset(a) && y in multiset(b);
    assert x in b && y in a;
    LastIsGreatest(less, a, y);
    LastIsGreatest(less, b, x);
  }

  /** Without ties a multiset has one sorted arrangement. */
  lemma {:induction false} SortedUnique<T(!new)>(less: (T, T) -> bool, a: seq<T>, b: seq<T>)
    requires multiset(a) == multiset(b)
    requires Sorted(less, a) && Sorted(less, b)
    requires NoTies(less, a)
    ensures a == b
  {
    assert |a| == |b| by { SameElements(a, b); }
    if a != [] {
      var x, y := a[|a| - 1], b[|b| - 1];
      SameLast(less, a, b);
      DropSameLast(a, b);
      NoTiesFront(less, a);
      SortedUnique(less, a[..|a| - 1], b[..|b| - 1]);
      assert a == a[..|a| - 1] + [x] && b == b[..|b| - 1] + [y];
    }
  }

  /** The sort forgets the order its input arrived in. */
  lemma SortPermutation<T(!new)>(less: (T, T) -> bool, a: seq<T>, b: seq<T>)
    requires multiset(a) == multiset(b)
    requires WeakOrder(less) && NoTies(less, a)
    ensures Sort(less, a) == Sort(less, b)
  {
    SameElements(a, b);
    SortElements(less, a);
    SortMultiset(less, a);
    SortMultiset(less, b);
    SortSorted(less, a);
    SortSorted(less, b);
    SortedUnique(less, Sort(less, a), Sort(less, b));
  }

  lemma {:induction false} InsertAfter<T(!new)>(less: (T, T) -> bool, a: seq<T>, b: seq<T>, x: T)
    requires forall y | y in a :: !less(x, y)
    ensures Insert(less, a + b, x) == a + Insert(less, b, x)
  {
    if b == [] {
      assert a + b == a;
      if a != [] { assert a[|a| - 1] in a; }
    } else if less(x, b[|b| - 1]) {
      assert (a + b)[..|a + b| - 1] == a + b[..|b| - 1];
      InsertAfter(less, a, b[..|b| - 1], x);
      assert Insert(less, a + b, x) == Insert(less, a + b[..|b| - 1], x) + [b[|b| - 1]];
    } else {
      assert a + b + [x] == a + (b + [x]);
    }
  }

  /** Elements that belong after everything present are sorted on their own and appended. */
  lemma {:induction false} SortAppend<T(!new)>(less: (T, T) -> bool, a: seq<T>, b: seq<T>)
    requires forall x, y | x in a && y in b :: !less(y, x)
    ensures Sort(less, a + b) == Sort(less, a) + Sort(less, b)
  {
    if b == [] {
      assert a + b == a;
    } else {
      var front, last := b[..|b| - 1], b[|b| - 1];
      assert (a + b)[..|a + b| - 1] == a + front;
      assert forall y | y in front :: y in b;
      SortAppend(less, a, front);
      SortElements(less, a);
      assert last in b;
      var t := Sort(less, a);
      forall y | y in t ensures !less(last, y) { assert y in a; }
      InsertAfter(less, t, Sort(less, front), last);
    }
  }

  function Kept<T(!new)>(keep: T -> bool, x: T): seq<T> {
    if keep(x) then [x] else []
  }

  function Filter<T(!new)>(keep: T -> bool, s: seq<T>): (r: seq<T>)
    ensures |r| <= |s|
  {
    if s == [] then [] else Filter(keep, s[..|s| - 1]) + Kept(keep, s[|s| - 1])
  }

  lemma {:induction false} FilterElements<T(!new)>(keep: T -> bool, s: seq<T>)
    ensures forall x :: x in Filter(keep, s) <==> x in s && keep(x)
  {
    if s != [] {
      FilterElements(keep, s[..|s| - 1]);
      assert s == s[..|s| - 1] + [s[|s| - 1]];
    }
  }

  lemma {:induction false} FilterConcat<T(!new)>(keep: T -> bool, a: seq<T>, b: seq<T>)
    ensures Filter(keep, a + b) == Filter(keep, a) + Filter(keep, b)
  {
    if b == [] {
      assert a + b == a;
    } else {
      assert (a + b)[..|a + b| - 1] == a + b[..|b| - 1];
      FilterConcat(keep, a, b[..|b| - 1]);
    }
  }

  lemma FilterLast<T(!new)>(keep: T -> bool, s: seq<T>, x: T)
    ensures Filter(keep, s + [x]) == Filter(keep, s) + Kept(keep, x)
  {
    assert (s + [x])[..|s|] == s;
  }

  /** Filtering keeps the multiplicity of what it keeps. */
  lemma {:induction false} FilterCount<T(!new)>(keep: T -> bool, s: seq<T>, x: T)
    ensures multiset(Filter(keep, s))[x] == if keep(x) then multiset(s)[x] else 0
  {
    if s != [] {
      DropLast(s);
      FilterCount(keep, s[..|s| - 1], x);
    }
  }

  lemma InsertLast<T(!new)>(less: (T, T) -> bool, s: seq<T>, last: T, x: T)
    requires less(x, last)
    ensures Insert(less, s + [last], x) == Insert(less, s, x) + [last]
  {
    assert (s + [last])[..|s|] == s;
  }

  lemma SortLast<T(!new)>(less: (T, T) -> bool, s: seq<T>, last: T)
    ensures Sort(less, s + [last]) == Insert(less, Sort(less, s), last)
  {
    assert (s + [last])[..|s|] == s;
  }

  /** If x does not precede the last element of a sorted s, it precedes none. */
  lemma PrecedesNone<T(!new)>(less: (T, T) -> bool, s: seq<T>, x: T)
    requires WeakOrder(less)
    requires Sorted(less, s)
    requires s == [] || !less(x, s[|s| - 1])
    ensures forall y | y in s :: !less(x, y)
  {
    forall y | y in s ensures !less(x, y) {
      LastIsGreatest(less, s, y);
      var last := s[|s| - 1];
      assert y in s + [x] && last in s + [x] && x in s + [x];
    }
  }

  lemma FilterInsertLast<T(!new)>(less: (T, T) -> bool, keep: T -> bool, s: seq<T>, x: T)
    requires forall y | y in s :: !less(x, y)
    ensures Filter(keep, s + [x]) == if keep(x) then Insert(less, Filter(keep, s), x) else Filter(keep, s)
  {
    var f := Filter(keep, s);
    FilterLast(keep, s, x);
    assert forall y | y in f :: !less(x, y) by { FilterElements(keep, s); }
    InsertAfter(less, f, [], x);
    assert f + [] == f;
  }

  lemma FilterInsertBefore<T(!new)>(less: (T, T) -> bool, keep: T -> bool, f: seq<T>, last: T, x: T)
    requires less(x, last)
    ensures (if keep(x) then Insert(less, f, x) else f) + Kept(keep, last)
            == if keep(x) then Insert(less, f + Kept(keep, last), x) else f + Kept(keep, last)
  {
    if keep(last) { InsertLast(less, f, last, x); } else { assert f + [] == f; }
  }

  lemma {:induction false} FilterInsert<T(!new)>(less: (T, T) -> bool, keep: T -> bool, s: seq<T>, x: T)
    requires WeakOrder(less)
    requires Sorted(less, s)
    ensures Filter(keep, Insert(less, s, x))
            == if keep(x) then Insert(less, Filter(keep, s), x) else Filter(keep, s)
  {
    if s == [] || !less(x, s[|s| - 1]) {
      PrecedesNone(less, s, x);
      FilterInsertLast(less, keep, s, x);
    } else {
      var front, last := s[..|s| - 1], s[|s| - 1];
      FilterInsert(less, keep, front, x);
      FilterLast(keep, Insert(less, front, x), last);
      FilterInsertBefore(less, keep, Filter(keep, front), last, x);
    }
  }

  /** Selecting and sorting commute. */
  lemma {:induction false} SortFilter<T(!new)>(less: (T, T) -> bool, keep: T -> bool, s: seq<T>)
    requires WeakOrder(less)
    ensures Sort(less, Filter(keep, s)) == Filter(keep, Sort(less, s))
  {
    if s != [] {
      var front, last := s[..|s| - 1], s[|s| - 1];
      SortFilter(less, keep, front);
      SortSorted(less, front);
      FilterInsert(less, keep, Sort(less, front), last);
      SortLast(less, Filter(keep, front), last);
      assert Filter(keep, front) + [] == Filter(keep, front);
    }
  }

  /** `a < b` on strings: code unit by code unit, a proper prefix first. */
  predicate StringLess(a: string, b: string) {
    b != "" && (a == "" || a[0] < b[0] || (a[0] == b[0] && StringLess(a[1..], b[1..])))
  }

  lemma {:induction false} StringLessIrreflexive(a: string)
    ensures !StringLess(a, a)
  {
    if a != "" { StringLessIrreflexive(a[1..]); }
  }

  lemma {:induction false} StringLessTotal(a: string, b: string)
    ensures a == b || StringLess(a, b) || StringLess(b, a)
  {
    if a != "" && b != "" && a[0] == b[0] {
      StringLessTotal(a[1..], b[1..]);
      assert a == [a[0]] + a[1..] && b == [b[0]] + b[1..];
    }
  }

  lemma {:induction false} StringLessTransitive(a: string, b: string, c: string)
    requires StringLess(a, b) && StringLess(b, c)
    ensures StringLess(a, c)
  {
    if a != "" && a[0] == b[0] == c[0] {
      StringLessTransitive(a[1..], b[1..], c[1..]);
    }
  }

  lemma StringOrder(a: string, b: string)
    ensures StringLess(a, b) ==> !StringLess(b, a)
    ensures a != b ==> StringLess(a, b) || StringLess(b, a)
    ensures !StringLess(a, a)
  {
    StringLessTotal(a, b);
    StringLessIrreflexive(a);
    if StringLess(a, b) && StringLess(b, a) { StringLessTransitive(a, b, a); }
  }

  /** a ends, or has the smaller code unit, where the two first differ. */
  predicate DiffersFirst(a: string, b: string, k: nat) {
    k <= |a| && k < |b| && a[..k] == b[..k] && (k == |a| || a[k] < b[k])
  }

  lemma SameFirst(a: string, b: string, k: nat)
    requires DiffersFirst(a, b, k) && k > 0
    ensures a[0] == b[0]
  {
    assert a[..k][0] == a[0] && b[..k][0] == b[0];
  }

  /** The order looks at the first place where two strings differ and at nothing else. */
  lemma {:induction false} StringLessIff(a: string, b: string)
    ensures StringLess(a, b) <==> exists k: nat :: DiffersFirst(a, b, k)
  {
    if a != "" && b != "" && a[0] == b[0] {
      StringLessIff(a[1..], b[1..]);
      if k: nat :| DiffersFirst(a[1..], b[1..], k) {
        assert a[..k + 1] == [a[0]] + a[1..][..k] && b[..k + 1] == [b[0]] + b[1..][..k];
        assert DiffersFirst(a, b, k + 1);
      }
      if k: nat :| DiffersFirst(a, b, k) {
        assert k > 0;
        assert a[1..][..k - 1] == a[..k][1..] && b[1..][..k - 1] == b[..k][1..];
        assert DiffersFirst(a[1..], b[1..], k - 1);
      }
    } else {
      if StringLess(a, b) { assert DiffersFirst(a, b, 0); }
      if k: nat :| DiffersFirst(a, b, k) {
        if k > 0 { SameFirst(a, b, k); }
      }
    }
  }
}
