/** Finite sets listed in ascending order: what the iterators of an ordered byte map deliver. */
module OrderedSets {

  ghost predicate StrictTotalOrder<T(!new)>(lt: (T, T) -> bool) {
    && (forall x :: !lt(x, x))
    && (forall x, y, z :: lt(x, y) && lt(y, z) ==> lt(x, z))
    && (forall x, y :: x == y || lt(x, y) || lt(y, x))
  }

  ghost predicate StrictlyAscending<T>(q: seq<T>, lt: (T, T) -> bool) {
    forall i, j :: 0 <= i < j < |q| ==> lt(q[i], q[j])
  }

  predicate IsLeast<T>(m: T, s: set<T>, lt: (T, T) -> bool) {
    m in s && forall x :: x in s ==> x == m || lt(m, x)
  }

  lemma {:induction false} LeastExists<T(!new)>(s: set<T>, lt: (T, T) -> bool)
    requires StrictTotalOrder(lt) && s != {}
    ensures exists m :: IsLeast(m, s, lt)
  {
    var e :| e in s;
    if s == {e} {
      assert IsLeast(e, s, lt);
    } else {
      LeastExists(s - {e}, lt);
      var m :| IsLeast(m, s - {e}, lt);
      assert forall x :: x in s ==> x == e || x in s - {e};
      assert IsLeast(if lt(e, m) then e else m, s, lt);
    }
  }

  /** The elements of `s` in ascending order. */
  function Ascending<T(==, !new)>(s: set<T>, lt: (T, T) -> bool): (q: seq<T>)
    requires StrictTotalOrder(lt)
    ensures StrictlyAscending(q, lt)
    ensures forall x :: x in q <==> x in s
    ensures |q| == |s|
  {
    if s == {} then []
    else
      LeastExists(s, lt);
      var m :| IsLeast(m, s, lt);
      [m] + Ascending(s - {m}, lt)
  }

  lemma EmptyOrInhabited<T>(q: seq<T>)
    ensures q == [] || exists x :: x in q
  {
    if q != [] { assert q[0] in q; }
  }

  /** A set has only one ascending listing. */
  lemma {:induction false} AscendingUnique<T(!new)>(q: seq<T>, p: seq<T>, lt: (T, T) -> bool)
    requires StrictTotalOrder(lt)
    requires StrictlyAscending(q, lt) && StrictlyAscending(p, lt)
    requires forall x :: x in q <==> x in p
    ensures q == p
  {
    if q != [] && p != [] {
      assert q[0] in p;
      assert p[0] in q;
      assert q[0] == p[0];
      forall x
        ensures x in q[1..] <==> x in p[1..]
      {
        if x in q[1..] { assert x in p; }
        if x in p[1..] { assert x in q; }
      }
      AscendingUnique(q[1..], p[1..], lt);
    } else {
      EmptyOrInhabited(q);
      EmptyOrInhabited(p);
    }
  }

  ghost predicate IsLargest(m: nat, s: set<nat>) {
    m in s && forall x :: x in s ==> x <= m
  }

  lemma {:induction false} LargestExists(s: set<nat>)
    requires s != {}
    ensures exists m :: IsLargest(m, s)
  {
    var e :| e in s;
    if s == {e} {
      assert IsLargest(e, s);
    } else {
      LargestExists(s - {e});
      var m :| IsLargest(m, s - {e});
      assert forall x :: x in s ==> x == e || x in s - {e};
      assert IsLargest(if m < e then e else m, s);
    }
  }

  /** The largest element of a set of numbers. */
  ghost function Max(s: set<nat>): (m: nat)
    requires s != {}
    ensures m in s
    ensures forall x :: x in s ==> x <= m
  {
    LargestExists(s);
    var m :| IsLargest(m, s);
    m
  }

  /** A set of numbers as an ascending list. */
  function Ids(s: set<nat>): (q: seq<nat>)
    ensures forall i, j :: 0 <= i < j < |q| ==> q[i] < q[j]
    ensures forall x :: x in q <==> x in s
    ensures |q| == |s|
  {
    Ascending(s, (a: nat, b: nat) => a < b)
  }

  lemma IdsUnique(q: seq<nat>, p: seq<nat>)
    requires forall i, j :: 0 <= i < j < |q| ==> q[i] < q[j]
    requires forall i, j :: 0 <= i < j < |p| ==> p[i] < p[j]
    requires forall x :: x in q <==> x in p
    ensures q == p
  {
    AscendingUnique(q, p, (a: nat, b: nat) => a < b);
  }
}
