/** Byte strings and their lexicographic order, the key order of the database engine. */
module ByteStrings {
  import opened OrderedSets

  type Byte = b: int | 0 <= b < 256

  type Bytes = seq<Byte>

  /** `a` comes strictly before `b`: a proper prefix does, and otherwise the first difference decides. */
  predicate Below(a: Bytes, b: Bytes) {
    if b == [] then false
    else if a == [] then true
    else a[0] < b[0] || (a[0] == b[0] && Below(a[1..], b[1..]))
  }

  lemma {:induction false} BelowIrreflexive(a: Bytes)
    ensures !Below(a, a)
  {
    if a != [] { BelowIrreflexive(a[1..]); }
  }

  lemma {:induction false} BelowTransitive(a: Bytes, b: Bytes, c: Bytes)
    requires Below(a, b) && Below(b, c)
    ensures Below(a, c)
  {
    if a != [] && a[0] == b[0] == c[0] { BelowTransitive(a[1..], b[1..], c[1..]); }
  }

  lemma {:induction false} BelowTotal(a: Bytes, b: Bytes)
    ensures a == b || Below(a, b) || Below(b, a)
  {
    if a != [] && b != [] && a[0] == b[0] {
      BelowTotal(a[1..], b[1..]);
      if a[1..] == b[1..] {
        assert a == [a[0]] + a[1..] == [b[0]] + b[1..] == b;
      }
    }
  }

  lemma BelowAsymmetric(a: Bytes, b: Bytes)
    ensures !(Below(a, b) && Below(b, a)) && !Below(a, a)
  {
    BelowIrreflexive(a);
    if Below(a, b) && Below(b, a) { BelowTransitive(a, b, a); }
  }

  lemma BelowIsOrder()
    ensures StrictTotalOrder(Below)
  {
    forall a: Bytes { BelowIrreflexive(a); }
    forall a: Bytes, b: Bytes, c: Bytes | Below(a, b) && Below(b, c) { BelowTransitive(a, b, c); }
    forall a: Bytes, b: Bytes { BelowTotal(a, b); }
  }

  /** A set of byte strings in the order the database delivers them. */
  function InOrder(s: set<Bytes>): (q: seq<Bytes>)
    ensures forall i, j :: 0 <= i < j < |q| ==> Below(q[i], q[j])
    ensures forall x :: x in q <==> x in s
    ensures |q| == |s|
  {
    BelowIsOrder();
    Ascending(s, Below)
  }

  lemma InOrderUnique(q: seq<Bytes>, s: set<Bytes>)
    requires forall i, j :: 0 <= i < j < |q| ==> Below(q[i], q[j])
    requires forall x :: x in q <==> x in s
    ensures q == InOrder(s)
  {
    BelowIsOrder();
    AscendingUnique(q, InOrder(s), Below);
  }

  function Backward<T>(q: seq<T>): (r: seq<T>)
    ensures |r| == |q|
    ensures forall i :: 0 <= i < |q| ==> r[i] == q[|q| - 1 - i]
  {
    if q == [] then [] else Backward(q[1..]) + [q[0]]
  }

  lemma BackwardStep<T>(q: seq<T>, x: T)
    ensures Backward(q + [x]) == [x] + Backward(q)
  {
  }

  // ---------- ranges ----------

  datatype Bound = Included(key: Bytes) | Excluded(key: Bytes) | Unbounded

  predicate Within(k: Bytes, lo: Bound, hi: Bound) {
    && (match lo case Included(l) => k == l || Below(l, k) case Excluded(l) => Below(l, k) case Unbounded => true)
    && (match hi case Included(h) => k == h || Below(k, h) case Excluded(h) => Below(k, h) case Unbounded => true)
  }

  lemma WithinBoth(k: Bytes, lo: Bytes, hi: Bytes)
    ensures Within(k, Included(lo), Excluded(hi)) ==> Within(k, Included(lo), Unbounded) && Below(k, hi)
    ensures Within(k, Excluded(lo), Included(hi)) ==> Within(k, Unbounded, Included(hi)) && Below(lo, k)
  {
  }
}
