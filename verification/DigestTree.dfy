/** Trees of personalized hashes, and when equal root digests force equal trees. */
module DigestTree {
  import opened Bytes

  /** `blake2b256(personal, data)`. */
  type Hash = (Bytes, Bytes) -> Digest

  /** A node hashes its head, then its children's digests, then its tail. */
  datatype Tree =
    | Leaf(personal: Bytes, data: Bytes)
    | Node(personal: Bytes, head: Bytes, children: Forest, tail: Bytes)

  datatype Forest = Empty | More(first: Tree, rest: Forest)

  function Count(f: Forest): nat {
    match f
    case Empty => 0
    case More(_, rest) => 1 + Count(rest)
  }

  function Input(h: Hash, t: Tree): Bytes
    decreases t, 0
  {
    match t
    case Leaf(_, data) => data
    case Node(_, head, children, tail) => head + (Digests(h, children) + tail)
  }

  function DigestOf(h: Hash, t: Tree): Digest
    decreases t, 1
  {
    h(t.personal, Input(h, t))
  }

  function Digests(h: Hash, f: Forest): (d: Bytes)
    ensures |d| == 32 * Count(f)
  {
    match f
    case Empty => []
    case More(t, rest) => DigestOf(h, t) + Digests(h, rest)
  }

  lemma Digests2(h: Hash, a: Tree, b: Tree)
    ensures Digests(h, More(a, More(b, Empty))) == DigestOf(h, a) + DigestOf(h, b)
  {
    assert Digests(h, More(b, Empty)) == DigestOf(h, b) + Digests(h, Empty);
  }

  lemma Digests3(h: Hash, a: Tree, b: Tree, c: Tree)
    ensures Digests(h, More(a, More(b, More(c, Empty)))) == DigestOf(h, a) + DigestOf(h, b) + DigestOf(h, c)
  {
    Digests2(h, b, c);
  }

  lemma Digests4(h: Hash, a: Tree, b: Tree, c: Tree, d: Tree)
    ensures Digests(h, More(a, More(b, More(c, More(d, Empty)))))
            == DigestOf(h, a) + DigestOf(h, b) + DigestOf(h, c) + DigestOf(h, d)
  {
    Digests3(h, b, c, d);
  }

  /** Every (personalization, input) pair hashed on the way to the root. */
  function Queries(h: Hash, t: Tree): set<(Bytes, Bytes)> {
    {(t.personal, Input(h, t))} + if t.Leaf? then {} else ForestQueries(h, t.children)
  }

  function ForestQueries(h: Hash, f: Forest): set<(Bytes, Bytes)> {
    match f
    case Empty => {}
    case More(t, rest) => Queries(h, t) + ForestQueries(h, rest)
  }

  /** The hash tells the given queries apart. A 32-byte hash cannot do so for all queries. */
  ghost predicate NoCollision(h: Hash, queries: set<(Bytes, Bytes)>) {
    forall a, b | a in queries && b in queries && h(a.0, a.1) == h(b.0, b.1) :: a == b
  }

  function InputLength(t: Tree): nat {
    match t
    case Leaf(_, data) => |data|
    case Node(_, head, children, tail) => |head| + 32 * Count(children) + |tail|
  }

  /** Wherever the hashed inputs could coincide, the two trees split them at the same places. */
  predicate Compatible(a: Tree, b: Tree) {
    || a.personal != b.personal
    || InputLength(a) != InputLength(b)
    || (a.Leaf? && b.Leaf?)
    || (a.Node? && b.Node? && |a.head| == |b.head| && Count(a.children) == Count(b.children)
        && CompatibleAll(a.children, b.children))
  }

  predicate CompatibleAll(a: Forest, b: Forest) {
    match (a, b)
    case (More(x, xs), More(y, ys)) => Compatible(x, y) && CompatibleAll(xs, ys)
    case (_, _) => true
  }

  predicate Leaves(f: Forest) {
    match f
    case Empty => true
    case More(t, rest) => t.Leaf? && Leaves(rest)
  }

  lemma ThreeLeaves(f: Forest)
    requires f.More? && f.rest.More? && f.rest.rest.More? && f.rest.rest.rest == Empty
    requires f.first.Leaf? && f.rest.first.Leaf? && f.rest.rest.first.Leaf?
    ensures Leaves(f) && Count(f) == 3
  {
    var g := f.rest.rest;
    assert Leaves(g.rest) && Count(g.rest) == 0;
    assert Leaves(g) && Count(g) == 1;
    assert Leaves(f.rest) && Count(f.rest) == 2;
  }

  lemma {:induction false} LeavesCompatible(a: Forest, b: Forest)
    requires Leaves(a) && Leaves(b)
    ensures CompatibleAll(a, b)
  {
    if a.More? && b.More? {
      LeavesCompatible(a.rest, b.rest);
    }
  }

  /** Equal roots, equal trees. */
  lemma {:induction false} TreeBinding(h: Hash, queries: set<(Bytes, Bytes)>, a: Tree, b: Tree)
    requires Queries(h, a) <= queries && Queries(h, b) <= queries && NoCollision(h, queries)
    requires Compatible(a, b) && DigestOf(h, a) == DigestOf(h, b)
    ensures a == b
    decreases a
  {
    var x := (a.personal, Input(h, a));
    var y := (b.personal, Input(h, b));
    assert x in queries && y in queries && h(x.0, x.1) == h(y.0, y.1);
    assert a.personal == b.personal && Input(h, a) == Input(h, b);
    assert |Input(h, a)| == InputLength(a) && |Input(h, b)| == InputLength(b);
    if a.Node? && b.Node? {
      var i := Input(h, a);
      var n := |a.head|;
      var m := n + 32 * Count(a.children);
      assert i[..n] == a.head && i[n..m] == Digests(h, a.children) && i[m..] == a.tail;
      assert i[..n] == b.head && i[n..m] == Digests(h, b.children) && i[m..] == b.tail;
      ForestBinding(h, queries, a.children, b.children);
    }
  }

  lemma {:induction false} ForestBinding(h: Hash, queries: set<(Bytes, Bytes)>, a: Forest, b: Forest)
    requires ForestQueries(h, a) <= queries && ForestQueries(h, b) <= queries && NoCollision(h, queries)
    requires Count(a) == Count(b) && CompatibleAll(a, b) && Digests(h, a) == Digests(h, b)
    ensures a == b
    decreases a
  {
    if a.More? && b.More? {
      var i := Digests(h, a);
      assert i[..32] == DigestOf(h, a.first) && i[32..] == Digests(h, a.rest);
      assert i[..32] == DigestOf(h, b.first) && i[32..] == Digests(h, b.rest);
      TreeBinding(h, queries, a.first, b.first);
      ForestBinding(h, queries, a.rest, b.rest);
    }
  }

  /** Over the queries two trees make, the root digest decides whether they are the same tree. */
  lemma RootDecides(h: Hash, a: Tree, b: Tree)
    requires NoCollision(h, Queries(h, a) + Queries(h, b)) && Compatible(a, b)
    ensures DigestOf(h, a) == DigestOf(h, b) <==> a == b
  {
    if DigestOf(h, a) == DigestOf(h, b) {
      TreeBinding(h, Queries(h, a) + Queries(h, b), a, b);
    }
  }
}
