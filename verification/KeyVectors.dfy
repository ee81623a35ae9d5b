/** Keys of several parts, in lexicographic order of their parts. */
module KeyVectors {
  import opened ByteStrings
  import opened OrderedSets

  type Keys = seq<Bytes>

  predicate VectorBelow(a: Keys, b: Keys) {
    if b == [] then false
    else if a == [] then true
    else Below(a[0], b[0]) || (a[0] == b[0] && VectorBelow(a[1..], b[1..]))
  }

  lemma {:induction false} VectorBelowIrreflexive(a: Keys)
    ensures !VectorBelow(a, a)
  {
    if a != [] {
      BelowIrreflexive(a[0]);
      VectorBelowIrreflexive(a[1..]);
    }
  }

  lemma {:induction false} VectorBelowTransitive(a: Keys, b: Keys, c: Keys)
    requires VectorBelow(a, b) && VectorBelow(b, c)
    ensures VectorBelow(a, c)
  {
    if a != [] {
      if Below(a[0], b[0]) && Below(b[0], c[0]) { BelowTransitive(a[0], b[0], c[0]); }
      if a[0] == b[0] == c[0] && VectorBelow(a[1..], b[1..]) && VectorBelow(b[1..], c[1..]) {
        VectorBelowTransitive(a[1..], b[1..], c[1..]);
      }
    }
  }

  lemma {:induction false} VectorBelowTotal(a: Keys, b: Keys)
    ensures a == b || VectorBelow(a, b) || VectorBelow(b, a)
  {
    if a != [] && b != [] {
      BelowTotal(a[0], b[0]);
      if a[0] == b[0] {
        VectorBelowTotal(a[1..], b[1..]);
        if a[1..] == b[1..] {
          assert a == [a[0]] + a[1..] == [b[0]] + b[1..] == b;
        }
      }
    }
  }

  lemma VectorBelowIsOrder()
    ensures StrictTotalOrder(VectorBelow)
  {
    forall a: Keys { VectorBelowIrreflexive(a); }
    forall a: Keys, b: Keys, c: Keys | VectorBelow(a, b) && VectorBelow(b, c) { VectorBelowTransitive(a, b, c); }
    forall a: Keys, b: Keys { VectorBelowTotal(a, b); }
  }

  /** A set of key vectors in lexicographic order. */
  function Listed(s: set<Keys>): (q: seq<Keys>)
    ensures forall i, j :: 0 <= i < j < |q| ==> VectorBelow(q[i], q[j])
    ensures forall x :: x in q <==> x in s
    ensures |q| == |s|
  {
    VectorBelowIsOrder();
    Ascending(s, VectorBelow)
  }

  lemma ListedUnique(q: seq<Keys>, s: set<Keys>)
    requires forall i, j :: 0 <= i < j < |q| ==> VectorBelow(q[i], q[j])
    requires forall x :: x in q <==> x in s
    ensures q == Listed(s)
  {
    VectorBelowIsOrder();
    AscendingUnique(q, Listed(s), VectorBelow);
  }

  /** A set that lies entirely below another is listed before it. */
  lemma ListedUnion(s: set<Keys>, t: set<Keys>)
    requires forall a, b :: a in s && b in t ==> VectorBelow(a, b)
    ensures Listed(s + t) == Listed(s) + Listed(t)
  {
    hide VectorBelow, Listed;
    var p, r := Listed(s), Listed(t);
    var q := p + r;
    forall i, j | 0 <= i < j < |q|
      ensures VectorBelow(q[i], q[j])
    {
      if j < |p| {
        assert q[i] == p[i] && q[j] == p[j];
      } else if i < |p| {
        assert q[i] == p[i] && q[j] == r[j - |p|];
        assert p[i] in p && r[j - |p|] in r;
      } else {
        assert q[i] == r[i - |p|] && q[j] == r[j - |p|];
      }
    }
    assert forall x :: x in q <==> x in p || x in r;
    ListedUnique(q, s + t);
  }

  lemma ListedOne(k: Keys)
    ensures Listed({k}) == [k]
  {
    ListedUnique([k], {k});
  }

  /** Behind a common beginning, the next part decides unless it is equal too. */
  lemma {:induction false} NextPartDecides(p: Keys, a: Keys, b: Keys)
    requires p <= a && p <= b && |p| < |a| && |p| < |b| && Below(a[|p|], b[|p|])
    ensures VectorBelow(a, b)
  {
    if p != [] {
      assert a[0] == p[0] == b[0];
      NextPartDecides(p[1..], a[1..], b[1..]);
    }
  }
}
