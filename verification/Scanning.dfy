/** What a scan over the keys of a branch at a version yields, and what its two ends mean. */
module Scanning {
  import opened Basics
  import opened ByteStrings
  import opened VersionState

  /** The keys of a scan that have a value, with their values, in the order of the scan. */
  ghost function Yields(s: State, b: BrId, v: VerId, keys: seq<Key>): (r: seq<(Key, Value)>)
    ensures b == NULL_ID || v == NULL_ID ==> r == []
  {
    if keys == [] || b == NULL_ID || v == NULL_ID then []
    else (match Read(s, b, v, keys[0]) case Some(x) => [(keys[0], x)] case None => []) + Yields(s, b, v, keys[1..])
  }

  lemma {:induction false} YieldsConcat(s: State, b: BrId, v: VerId, p: seq<Key>, q: seq<Key>)
    ensures Yields(s, b, v, p + q) == Yields(s, b, v, p) + Yields(s, b, v, q)
  {
    if p == [] {
      assert p + q == q;
    } else {
      assert (p + q)[1..] == p[1..] + q;
      YieldsConcat(s, b, v, p[1..], q);
    }
  }

  lemma YieldsLast(s: State, b: BrId, v: VerId, keys: seq<Key>)
    requires keys != [] && b != NULL_ID && v != NULL_ID
    ensures var k := keys[|keys| - 1];
      Yields(s, b, v, keys) ==
        Yields(s, b, v, keys[..|keys| - 1]) + if Read(s, b, v, k).Some? then [(k, Read(s, b, v, k).value)] else []
  {
    var k := keys[|keys| - 1];
    assert keys == keys[..|keys| - 1] + [k];
    YieldsConcat(s, b, v, keys[..|keys| - 1], [k]);
    hide Read;
    var none: seq<Key> := [];
    assert [k][1..] == none && Yields(s, b, v, none) == [];
    assert Yields(s, b, v, [k]) == if Read(s, b, v, k).Some? then [(k, Read(s, b, v, k).value)] else [];
  }

  lemma {:induction false} YieldsNothing(s: State, b: BrId, v: VerId, keys: seq<Key>)
    requires forall k :: k in keys ==> Read(s, b, v, k) == None
    ensures Yields(s, b, v, keys) == []
  {
    if keys != [] { YieldsNothing(s, b, v, keys[1..]); }
  }

  /** What an iteration yields is ascending, and it is exactly the keys that a point read finds, with its values. */
  lemma {:induction false} YieldsAgreesWithReads(s: State, b: BrId, v: VerId, keys: seq<Key>)
    requires b != NULL_ID && v != NULL_ID
    requires forall i, j :: 0 <= i < j < |keys| ==> Below(keys[i], keys[j])
    ensures var r := Yields(s, b, v, keys);
      && (forall i, j :: 0 <= i < j < |r| ==> Below(r[i].0, r[j].0))
      && (forall k, x :: (k, x) in r <==> k in keys && Read(s, b, v, k) == Some(x))
  {
    if keys != [] {
      var rest := Yields(s, b, v, keys[1..]);
      YieldsAgreesWithReads(s, b, v, keys[1..]);
      var r := Yields(s, b, v, keys);
      forall i | 0 <= i < |rest|
        ensures Below(keys[0], rest[i].0)
      {
        assert (rest[i].0, rest[i].1) in rest;
        assert rest[i].0 in keys[1..];
      }
      forall k, x
        ensures (k, x) in r <==> k in keys && Read(s, b, v, k) == Some(x)
      {
        assert k in keys <==> k == keys[0] || k in keys[1..];
        BelowIrreflexive(keys[0]);
        assert keys[0] !in keys[1..];
      }
    }
  }

  ghost predicate AgreesWithReads(s: State, b: BrId, v: VerId, keys: seq<Key>) {
    forall k, x :: (k, x) in Yields(s, b, v, keys) <==> k in keys && Read(s, b, v, k) == Some(x)
  }

  /** Where there is something to read, iterating agrees with the point reads exactly if neither id is the sentinel. */
  lemma NullIdAgreesExactly(s: State, b: BrId, v: VerId, keys: seq<Key>, k: Key)
    requires forall i, j :: 0 <= i < j < |keys| ==> Below(keys[i], keys[j])
    requires k in keys && Read(s, b, v, k).Some?
    ensures AgreesWithReads(s, b, v, keys) <==> b != NULL_ID && v != NULL_ID
  {
    hide Yields, Read;
    if b != NULL_ID && v != NULL_ID {
      YieldsAgreesWithReads(s, b, v, keys);
    } else {
      assert Yields(s, b, v, keys) == [];
      assert (k, Read(s, b, v, k).value) !in Yields(s, b, v, keys);
    }
  }

  // ---------- the two cursors ----------

  /** No key is delivered twice. */
  ghost predicate NoneTwice(q: seq<(Key, Value)>) {
    forall i, j :: 0 <= i < j < |q| ==> q[i].0 != q[j].0
  }

  /** A scan has each key once. */
  lemma YieldsOnce(s: State, b: BrId, v: VerId, keys: seq<Key>)
    requires forall i, j :: 0 <= i < j < |keys| ==> Below(keys[i], keys[j])
    ensures NoneTwice(Yields(s, b, v, keys))
  {
    hide Yields, Read, Below;
    var r := Yields(s, b, v, keys);
    if b != NULL_ID && v != NULL_ID { YieldsAgreesWithReads(s, b, v, keys); }
    forall i, j | 0 <= i < j < |r|
      ensures r[i].0 != r[j].0
    {
      BelowAsymmetric(r[i].0, r[j].0);
    }
  }

  /** Where in the scan the `n`-th item comes from, of `i` going forward and then some going backward. */
  function CameFrom(size: nat, i: nat, n: nat): int {
    if n < i then n else size - 1 - (n - i)
  }

  lemma Delivered(r: seq<(Key, Value)>, i: nat, j: nat, n: nat)
    requires i <= |r| && j <= |r| && n < i + j
    ensures 0 <= CameFrom(|r|, i, n) < |r|
    ensures |r[..i] + Backward(r)[..j]| == i + j && (r[..i] + Backward(r)[..j])[n] == r[CameFrom(|r|, i, n)]
  {
  }

  lemma OverlapByOrigin(r: seq<(Key, Value)>, q: seq<(Key, Value)>, i: nat, j: nat)
    requires i <= |r| && j <= |r| && NoneTwice(r) && |q| == i + j
    requires forall n: nat :: n < |q| ==> 0 <= CameFrom(|r|, i, n) < |r| && q[n] == r[CameFrom(|r|, i, n)]
    ensures NoneTwice(q) <==> i + j <= |r|
  {
    if i + j <= |r| {
      forall x: nat, y: nat | x < y < |q|
        ensures q[x].0 != q[y].0
      {
        assert CameFrom(|r|, i, x) != CameFrom(|r|, i, y);
      }
    } else {
      // The last item going forward comes going backward too.
      assert CameFrom(|r|, i, i - 1) == CameFrom(|r|, i, |r|);
      assert q[i - 1] == q[|r|];
    }
  }

  /** Of a scan's items, the first `i` going forward and the last `j` going backward contain no key twice
      exactly if they are no more than there are. */
  lemma CursorsOverlapExactly(r: seq<(Key, Value)>, i: nat, j: nat)
    requires i <= |r| && j <= |r| && NoneTwice(r)
    ensures NoneTwice(r[..i] + Backward(r)[..j]) <==> i + j <= |r|
  {
    var q := r[..i] + Backward(r)[..j];
    forall n: nat | n < |q|
      ensures 0 <= CameFrom(|r|, i, n) < |r| && q[n] == r[CameFrom(|r|, i, n)]
    {
      Delivered(r, i, j, n);
    }
    hide NoneTwice, Backward;
    OverlapByOrigin(r, q, i, j);
  }

  ghost predicate IsLeastFrom(s: State, b: BrId, v: VerId, from: Key, r: Option<(Key, Value)>) {
    && (r.None? ==> forall k :: Within(k, Included(from), Unbounded) ==> Read(s, b, v, k) == None)
    && (r.Some? ==>
          && Within(r.value.0, Included(from), Unbounded) && Read(s, b, v, r.value.0) == Some(r.value.1)
          && forall k :: Within(k, Included(from), Excluded(r.value.0)) ==> Read(s, b, v, k) == None)
  }

  ghost predicate IsGreatestTo(s: State, b: BrId, v: VerId, to: Key, r: Option<(Key, Value)>) {
    && (r.None? ==> forall k :: Within(k, Unbounded, Included(to)) ==> Read(s, b, v, k) == None)
    && (r.Some? ==>
          && Within(r.value.0, Unbounded, Included(to)) && Read(s, b, v, r.value.0) == Some(r.value.1)
          && forall k :: Within(k, Excluded(r.value.0), Included(to)) ==> Read(s, b, v, k) == None)
  }

  /** A scan over a range of keys yields exactly the reads in the range, in ascending order. */
  lemma RangeYields(s: State, b: BrId, v: VerId, lo: Bound, hi: Bound, keys: seq<Key>)
    requires b != NULL_ID && v != NULL_ID
    requires keys == InOrder(set k | k in s.kv && Within(k, lo, hi))
    ensures var r := Yields(s, b, v, keys);
      && (forall i, j :: 0 <= i < j < |r| ==> Below(r[i].0, r[j].0))
      && (forall k, x :: (k, x) in r <==> Within(k, lo, hi) && Read(s, b, v, k) == Some(x))
      && (forall k :: Within(k, lo, hi) && Read(s, b, v, k).Some? ==> (k, Read(s, b, v, k).value) in r)
  {
    hide Yields, Within;
    YieldsAgreesWithReads(s, b, v, keys);
    assert forall k :: k !in s.kv ==> Read(s, b, v, k) == None;
  }

  lemma NothingOutside(r: seq<(Key, Value)>)
    requires r != [] && forall i, j :: 0 <= i < j < |r| ==> Below(r[i].0, r[j].0)
    ensures forall k, x :: (k, x) in r ==> !Below(k, r[0].0) && !Below(r[|r| - 1].0, k)
  {
    hide Below;
    forall k, x | (k, x) in r
      ensures !Below(k, r[0].0) && !Below(r[|r| - 1].0, k)
    {
      var i :| 0 <= i < |r| && r[i] == (k, x);
      BelowAsymmetric(k, r[0].0);
      BelowAsymmetric(k, r[|r| - 1].0);
    }
  }

  /** The first of a scan from `from` on is the least key with a value there. */
  lemma FirstIsLeast(s: State, b: BrId, v: VerId, from: Key, keys: seq<Key>)
    requires b != NULL_ID && v != NULL_ID
    requires keys == InOrder(set k | k in s.kv && Within(k, Included(from), Unbounded))
    ensures var r := Yields(s, b, v, keys); IsLeastFrom(s, b, v, from, if r == [] then None else Some(r[0]))
  {
    RangeYields(s, b, v, Included(from), Unbounded, keys);
    hide Yields, VersionState.Read, Below, Within, InOrder;
    var r := Yields(s, b, v, keys);
    if r == [] {
      assert forall k :: Within(k, Included(from), Unbounded) ==> Read(s, b, v, k) == None;
    } else {
      assert (r[0].0, r[0].1) in r;
      NothingOutside(r);
      forall k | Within(k, Included(from), Excluded(r[0].0))
        ensures Read(s, b, v, k) == None
      {
        WithinBoth(k, from, r[0].0);
      }
    }
  }

  /** The last of a scan up to `to` is the greatest key with a value there. */
  lemma LastIsGreatest(s: State, b: BrId, v: VerId, to: Key, keys: seq<Key>)
    requires b != NULL_ID && v != NULL_ID
    requires keys == InOrder(set k | k in s.kv && Within(k, Unbounded, Included(to)))
    ensures var r := Yields(s, b, v, keys); IsGreatestTo(s, b, v, to, if r == [] then None else Some(r[|r| - 1]))
  {
    RangeYields(s, b, v, Unbounded, Included(to), keys);
    hide Yields, VersionState.Read, Below, Within, InOrder;
    var r := Yields(s, b, v, keys);
    if r == [] {
      assert forall k :: Within(k, Unbounded, Included(to)) ==> Read(s, b, v, k) == None;
    } else {
      var last := r[|r| - 1];
      assert (last.0, last.1) in r;
      NothingOutside(r);
      forall k | Within(k, Excluded(last.0), Included(to))
        ensures Read(s, b, v, k) == None
      {
        WithinBoth(k, last.0, to);
      }
    }
  }
}
