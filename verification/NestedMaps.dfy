/** Maps nested to a fixed depth, linked by handle, that hold one flat map from key vectors to values. */
module NestedMaps {
  import opened Basics
  import opened ByteStrings
  import opened KeyVectors

  /** A value at the last level, or the handle of a map at the next. */
  datatype Slot = Data(value: Bytes) | Link(child: Handle)

  type Node = map<Bytes, Slot>

  /** All maps in the database, by handle. */
  type Pool = map<Handle, Node>

  type Flat = map<Keys, Bytes>

  /** Which map lies at the end of which path from the root. */
  type Paths = map<Keys, Handle>

  function Parent(p: Keys): Keys
    requires p != []
  {
    p[..|p| - 1]
  }

  function Last(p: Keys): Bytes
    requires p != []
  {
    p[|p| - 1]
  }

  lemma Extend(p: Keys, k: Bytes)
    ensures Parent(p + [k]) == p && Last(p + [k]) == k
  {
  }

  lemma SplitLast(p: Keys)
    requires p != []
    ensures Parent(p) + [Last(p)] == p
  {
  }

  /** All slots of the tree, by the path that leads to them. */
  type Slots = map<Keys, Slot>

  /** The slots are those of the maps at the ends of the paths. */
  ghost predicate Mirrors(pool: Pool, paths: Paths, slots: Slots) {
    && (forall p :: p in paths ==> paths[p] in pool)
    && (forall p, k :: p in paths ==>
          (p + [k] in slots <==> k in pool[paths[p]]) && (p + [k] in slots ==> slots[p + [k]] == pool[paths[p]][k]))
    && (forall key :: key in slots ==> key != [] && Parent(key) in paths)
  }

  /** A tree of depth `n`: slots above the last level lead on, slots at the last level hold values. */
  ghost predicate Shaped(root: Handle, n: nat, paths: Paths, slots: Slots) {
    && 0 < n && [] in paths && paths[[]] == root
    && (forall p :: p in paths && p != [] ==> p in slots && |p| < n && slots[p] == Link(paths[p]))
    && (forall key :: key in slots ==>
          |key| <= n && if |key| == n then slots[key].Data? else key in paths && slots[key] == Link(paths[key]))
  }

  /** The flat map. */
  ghost function Values(slots: Slots, n: nat): Flat {
    map key | key in slots && |key| == n && slots[key].Data? :: slots[key].value
  }

  /** The pool holds the tree; no two slots of it lead to the same map. */
  ghost predicate Represents(pool: Pool, root: Handle, next: Handle, n: nat, paths: Paths, slots: Slots) {
    && Mirrors(pool, paths, slots) && Distinct(paths) && Shaped(root, n, paths, slots)
    && forall h :: h in pool ==> h < next
  }

  // ---------- following a key ----------

  /** Every beginning of a key among the slots is a path. */
  lemma {:induction false} Ancestors(pool: Pool, root: Handle, n: nat, paths: Paths, slots: Slots, key: Keys, i: nat)
    requires Mirrors(pool, paths, slots) && Shaped(root, n, paths, slots) && key in slots && i < |key|
    ensures key[..i] in paths && key[..i + 1] in slots
    decreases |key| - i
  {
    if i + 1 < |key| {
      Ancestors(pool, root, n, paths, slots, key, i + 1);
      assert Parent(key[..i + 1]) == key[..i];
    } else {
      assert key[..i + 1] == key;
    }
  }

  /** The slot that the next part of a key finds. */
  lemma Follow(pool: Pool, root: Handle, n: nat, paths: Paths, slots: Slots, key: Keys, i: nat)
    requires Mirrors(pool, paths, slots) && Shaped(root, n, paths, slots) && i < |key| && key[..i] in paths
    ensures paths[key[..i]] in pool && |key[..i]| < n
    ensures key[i] in pool[paths[key[..i]]] <==> key[..i + 1] in slots
    ensures key[..i + 1] in slots ==>
      && pool[paths[key[..i]]][key[i]] == slots[key[..i + 1]]
      && (i + 1 == n ==> slots[key[..i + 1]].Data?)
      && (i + 1 < n ==> key[..i + 1] in paths && slots[key[..i + 1]] == Link(paths[key[..i + 1]]))
  {
    assert key[..i] + [key[i]] == key[..i + 1];
  }

  /** The keys of the flat map that begin with `p`. */
  ghost function Under(flat: Flat, p: Keys): (s: set<Keys>)
    ensures forall key :: key in s ==> key in flat
  {
    set key | key in flat && p <= key
  }

  ghost function Without(flat: Flat, p: Keys): Flat {
    flat - Under(flat, p)
  }

  /** What removing a key makes of the flat map: an empty key removes nothing. */
  ghost function Removed(flat: Flat, key: Keys): Flat {
    if key == [] then flat else Without(flat, key)
  }

  /** A key removes exactly the entries whose keys begin with it, except that the empty key keeps them all. */
  lemma RemovesExtensionsExactly(flat: Flat, key: Keys)
    ensures Removed(flat, key) == Without(flat, key) <==> key != [] || flat == map[]
  {
    if key == [] && flat != map[] {
      var k :| k in flat;
      assert k !in Without(flat, key);
    }
  }

  /** Where a part is missing, the flat map has no key that begins so. */
  lemma DeadEnd(pool: Pool, root: Handle, n: nat, paths: Paths, slots: Slots, key: Keys, i: nat)
    requires Mirrors(pool, paths, slots) && Shaped(root, n, paths, slots)
    requires i < |key| && key[..i + 1] !in slots
    ensures Under(Values(slots, n), key) == {} && key !in Values(slots, n)
      && Without(Values(slots, n), key) == Values(slots, n)
  {
    hide Mirrors, Shaped;
    forall k | k in slots
      ensures key <= k ==> key[..i + 1] in slots
    {
      if key <= k {
        assert k[..i + 1] == key[..i + 1];
        Ancestors(pool, root, n, paths, slots, k, i);
      }
    }
    assert Under(Values(slots, n), key) == {};
  }

  lemma FullKey(slots: Slots, key: Keys, v: Bytes)
    requires key in slots && slots[key] == Data(v)
    ensures key in Values(slots, |key|) && Values(slots, |key|)[key] == v
    ensures Under(Values(slots, |key|), key) == {key}
  {
    assert forall k :: key <= k && |k| == |key| ==> k == key;
  }

  // ---------- changes ----------

  lemma NewTree(root: Handle, n: nat)
    requires 0 < n
    ensures Represents(map[root := map[]], root, root + 1, n, map[[] := root], map[])
    ensures Values(map[], n) == map[]
  {
  }

  lemma SameEnd(p: Keys, k: Bytes, q: Keys, j: Bytes)
    ensures p + [k] == q + [j] <==> p == q && k == j
  {
    Extend(p, k);
    Extend(q, j);
  }

  /** Changing one slot of one map changes that slot of the tree only: no other path ends there. */
  lemma PutSlot(pool: Pool, paths: Paths, slots: Slots, p: Keys, k: Bytes, slot: Slot)
    requires Mirrors(pool, paths, slots) && Distinct(paths) && p in paths
    ensures Mirrors(pool[paths[p] := pool[paths[p]][k := slot]], paths, slots[p + [k] := slot])
  {
    var pool1, slots1 := pool[paths[p] := pool[paths[p]][k := slot]], slots[p + [k] := slot];
    forall q, j | q in paths
      ensures (q + [j] in slots1 <==> j in pool1[paths[q]])
        && (q + [j] in slots1 ==> slots1[q + [j]] == pool1[paths[q]][j])
    {
      SameEnd(p, k, q, j);
    }
    Extend(p, k);
  }

  /** A new path to an empty map. */
  lemma AddPath(pool: Pool, paths: Paths, slots: Slots, next: Handle, key: Keys)
    requires Mirrors(pool, paths, slots) && next !in pool && key !in paths
    requires forall k :: key + [k] !in slots
    ensures Mirrors(pool[next := map[]], paths[key := next], slots)
  {
  }

  lemma GrowShape(root: Handle, n: nat, paths: Paths, slots: Slots, key: Keys, next: Handle)
    requires Shaped(root, n, paths, slots) && Distinct(paths) && key != [] && |key| < n && key !in slots
    requires forall p :: p in paths ==> paths[p] != next
    ensures Shaped(root, n, paths[key := next], slots[key := Link(next)]) && Distinct(paths[key := next])
    ensures Values(slots[key := Link(next)], n) == Values(slots, n)
  {
  }

  lemma GrowSlots(pool: Pool, paths: Paths, slots: Slots, next: Handle, p: Keys, k: Bytes)
    requires Mirrors(pool, paths, slots) && Distinct(paths) && p in paths && p + [k] !in paths
    requires forall h :: h in pool ==> h < next
    ensures Mirrors(pool[next := map[]][paths[p] := pool[paths[p]][k := Link(next)]],
                    paths[p + [k] := next], slots[p + [k] := Link(next)])
  {
    var slots1 := slots[p + [k] := Link(next)];
    PutSlot(pool, paths, slots, p, k, Link(next));
    forall j
      ensures p + [k] + [j] !in slots1
    {
      Extend(p + [k], j);
    }
    var pool1 := pool[paths[p] := pool[paths[p]][k := Link(next)]];
    assert next !in pool1;
    AddPath(pool1, paths, slots1, next, p + [k]);
    assert pool1[next := map[]] == pool[next := map[]][paths[p] := pool[paths[p]][k := Link(next)]];
  }

  lemma PathsAreSlots(pool: Pool, root: Handle, next: Handle, n: nat, paths: Paths, slots: Slots, p: Keys)
    requires Represents(pool, root, next, n, paths, slots) && p in paths
    ensures paths[p] in pool && |p| < n && (p != [] ==> p in slots)
    ensures forall q :: q in paths ==> paths[q] != next
  {
  }

  /** Links a new, empty map; the flat map stays the same. */
  lemma Grow(pool: Pool, root: Handle, next: Handle, n: nat, paths: Paths, slots: Slots, p: Keys, k: Bytes)
    requires Represents(pool, root, next, n, paths, slots)
    requires p in paths && |p| + 1 < n && p + [k] !in slots
    ensures paths[p] in pool
    ensures Represents(pool[next := map[]][paths[p] := pool[paths[p]][k := Link(next)]], root, next + 1, n,
                       paths[p + [k] := next], slots[p + [k] := Link(next)])
    ensures Values(slots[p + [k] := Link(next)], n) == Values(slots, n)
  {
    hide Mirrors, Shaped, Distinct, Values;
    PathsAreSlots(pool, root, next, n, paths, slots, p);
    if p + [k] in paths { PathsAreSlots(pool, root, next, n, paths, slots, p + [k]); }
    GrowShape(root, n, paths, slots, p + [k], next);
    GrowSlots(pool, paths, slots, next, p, k);
  }

  lemma PutShape(root: Handle, n: nat, paths: Paths, slots: Slots, key: Keys, v: Bytes)
    requires Shaped(root, n, paths, slots) && |key| == n
    ensures Shaped(root, n, paths, slots[key := Data(v)])
    ensures Values(slots[key := Data(v)], n) == Values(slots, n)[key := v]
  {
  }

  /** Puts a value at the last level. */
  lemma PutValue(pool: Pool, root: Handle, next: Handle, n: nat, paths: Paths, slots: Slots, p: Keys, k: Bytes,
                 v: Bytes)
    requires Represents(pool, root, next, n, paths, slots) && p in paths && |p| + 1 == n
    ensures paths[p] in pool
    ensures Represents(pool[paths[p] := pool[paths[p]][k := Data(v)]], root, next, n, paths, slots[p + [k] := Data(v)])
    ensures Values(slots[p + [k] := Data(v)], n) == Values(slots, n)[p + [k] := v]
  {
    hide Mirrors, Shaped, Distinct, Values;
    PathsAreSlots(pool, root, next, n, paths, slots, p);
    PutShape(root, n, paths, slots, p + [k], v);
    PutSlot(pool, paths, slots, p, k, Data(v));
  }

  function Outside<T>(m: map<Keys, T>, p: Keys): map<Keys, T> {
    map q | q in m && !(p <= q) :: m[q]
  }

  lemma PrefixOfExtension(p: Keys, q: Keys, j: Bytes)
    ensures p <= q + [j] <==> p <= q || p == q + [j]
  {
    if p <= q + [j] && |p| <= |q| {
      assert (q + [j])[..|p|] == q[..|p|];
    }
  }

  /** Removing a slot that leads to a subtree: the paths and slots beyond it go, and no others. */
  lemma DropSlot(pool: Pool, paths: Paths, slots: Slots, p: Keys, k: Bytes)
    requires Mirrors(pool, paths, slots) && Distinct(paths) && p in paths
    ensures Mirrors(pool[paths[p] := pool[paths[p]] - {k}], Outside(paths, p + [k]), Outside(slots, p + [k]))
  {
    var pool1 := pool[paths[p] := pool[paths[p]] - {k}];
    var paths1, slots1 := Outside(paths, p + [k]), Outside(slots, p + [k]);
    forall q, j | q in paths1
      ensures (q + [j] in slots1 <==> j in pool1[paths1[q]])
        && (q + [j] in slots1 ==> slots1[q + [j]] == pool1[paths1[q]][j])
    {
      SameEnd(p, k, q, j);
      PrefixOfExtension(p + [k], q, j);
    }
    forall key | key in slots1
      ensures key != [] && Parent(key) in paths1
    {
      SplitLast(key);
      PrefixOfExtension(p + [k], Parent(key), Last(key));
    }
  }

  lemma CutShape(root: Handle, n: nat, paths: Paths, slots: Slots, key: Keys)
    requires Shaped(root, n, paths, slots) && Distinct(paths) && key != []
    ensures Shaped(root, n, Outside(paths, key), Outside(slots, key)) && Distinct(Outside(paths, key))
    ensures Values(Outside(slots, key), n) == Without(Values(slots, n), key)
  {
  }

  /** Takes a part out of a map: the flat map loses what lies behind it, and nothing else. */
  lemma Cut(pool: Pool, root: Handle, next: Handle, n: nat, paths: Paths, slots: Slots, p: Keys, k: Bytes)
    requires Represents(pool, root, next, n, paths, slots) && p in paths
    ensures paths[p] in pool
    ensures Represents(pool[paths[p] := pool[paths[p]] - {k}], root, next, n,
                       Outside(paths, p + [k]), Outside(slots, p + [k]))
    ensures Values(Outside(slots, p + [k]), n) == Without(Values(slots, n), p + [k])
  {
    hide Mirrors, Shaped, Distinct, Values, Outside, Without;
    PathsAreSlots(pool, root, next, n, paths, slots, p);
    CutShape(root, n, paths, slots, p + [k]);
    DropSlot(pool, paths, slots, p, k);
  }

  /** Emptying the root takes everything. */
  lemma CutAll(pool: Pool, root: Handle, next: Handle, n: nat, paths: Paths, slots: Slots)
    requires Represents(pool, root, next, n, paths, slots)
    ensures root in pool
    ensures Represents(pool[root := map[]], root, next, n, map[[] := root], map[]) && Values(map[], n) == map[]
  {
  }

  // ---------- visiting ----------

  /** Applies an operation to one entry after the other, until it fails. */
  ghost function Visit<S>(op: (S, Keys, Bytes) -> (S, bool), s: S, q: seq<Keys>, flat: Flat): (S, bool)
    requires forall key :: key in q ==> key in flat
    decreases |q|
  {
    if q == [] then (s, true)
    else
      var r := op(s, q[0], flat[q[0]]);
      if r.1 then Visit(op, r.0, q[1..], flat) else r
  }

  lemma {:induction false} VisitConcat<S>(op: (S, Keys, Bytes) -> (S, bool), s: S, p: seq<Keys>, q: seq<Keys>,
                                          flat: Flat)
    requires (forall key :: key in p ==> key in flat) && (forall key :: key in q ==> key in flat)
    ensures var r := Visit(op, s, p, flat);
      Visit(op, s, p + q, flat) == if r.1 then Visit(op, r.0, q, flat) else r
    decreases |p|
  {
    if p == [] {
      assert p + q == q;
    } else {
      assert (p + q)[1..] == p[1..] + q;
      VisitConcat(op, op(s, p[0], flat[p[0]]).0, p[1..], q, flat);
    }
  }

  /** The keys under `p` whose next part is one of `parts`. */
  ghost function Reached(flat: Flat, p: Keys, parts: seq<Bytes>): (s: set<Keys>)
    ensures forall key :: key in s ==> key in flat
  {
    set key | key in flat && p <= key && |p| < |key| && key[|p|] in parts
  }

  lemma ReachedNone(flat: Flat, p: Keys)
    ensures Reached(flat, p, []) == {}
  {
  }

  /** Visiting what lies behind the next part, after all before it. */
  lemma ReachedStep(flat: Flat, p: Keys, parts: seq<Bytes>, i: nat)
    requires i < |parts| && forall a, b :: 0 <= a < b < |parts| ==> Below(parts[a], parts[b])
    ensures Listed(Reached(flat, p, parts[..i + 1]))
         == Listed(Reached(flat, p, parts[..i])) + Listed(Under(flat, p + [parts[i]]))
  {
    var s, t := Reached(flat, p, parts[..i]), Under(flat, p + [parts[i]]);
    assert parts[..i + 1] == parts[..i] + [parts[i]];
    forall key | key in flat
      ensures p + [parts[i]] <= key <==> p <= key && |p| < |key| && key[|p|] == parts[i]
    {
      if p <= key && |p| < |key| && key[|p|] == parts[i] { assert key[..|p| + 1] == p + [parts[i]]; }
    }
    assert Reached(flat, p, parts[..i + 1]) == s + t;
    forall a, b | a in s && b in t
      ensures VectorBelow(a, b)
    {
      var j :| 0 <= j < i && parts[..i][j] == a[|p|];
      NextPartDecides(p, a, b);
    }
    ListedUnion(s, t);
  }

  ghost function VisitReached<S>(op: (S, Keys, Bytes) -> (S, bool), s: S, flat: Flat, p: Keys,
                                 parts: seq<Bytes>): (S, bool)
  {
    Visit(op, s, Listed(Reached(flat, p, parts)), flat)
  }

  ghost function VisitUnder<S>(op: (S, Keys, Bytes) -> (S, bool), s: S, flat: Flat, p: Keys): (S, bool) {
    Visit(op, s, Listed(Under(flat, p)), flat)
  }

  lemma VisitSame<S>(op: (S, Keys, Bytes) -> (S, bool), s: S, flat: Flat, p: Keys, parts: seq<Bytes>)
    requires Reached(flat, p, parts) == Under(flat, p)
    ensures VisitReached(op, s, flat, p, parts) == VisitUnder(op, s, flat, p)
  {
  }

  lemma VisitNext<S>(op: (S, Keys, Bytes) -> (S, bool), s: S, flat: Flat, p: Keys, parts: seq<Bytes>, i: nat)
    requires i < |parts| && forall a, b :: 0 <= a < b < |parts| ==> Below(parts[a], parts[b])
    ensures var r := VisitReached(op, s, flat, p, parts[..i]);
      VisitReached(op, s, flat, p, parts[..i + 1]) == if r.1 then VisitUnder(op, r.0, flat, p + [parts[i]]) else r
  {
    ReachedStep(flat, p, parts, i);
    VisitConcat(op, s, Listed(Reached(flat, p, parts[..i])), Listed(Under(flat, p + [parts[i]])), flat);
  }

  /** After a failure nothing more is visited. */
  lemma {:induction false} VisitStops<S>(op: (S, Keys, Bytes) -> (S, bool), s: S, flat: Flat, p: Keys,
                                         parts: seq<Bytes>, i: nat)
    requires i <= |parts| && forall a, b :: 0 <= a < b < |parts| ==> Below(parts[a], parts[b])
    requires !VisitReached(op, s, flat, p, parts[..i]).1
    ensures VisitReached(op, s, flat, p, parts) == VisitReached(op, s, flat, p, parts[..i])
    decreases |parts| - i
  {
    if i < |parts| {
      VisitNext(op, s, flat, p, parts, i);
      VisitStops(op, s, flat, p, parts, i + 1);
    } else {
      assert parts[..i] == parts;
    }
  }

  lemma VisitNothing<S>(op: (S, Keys, Bytes) -> (S, bool), s: S, flat: Flat, p: Keys)
    ensures VisitReached(op, s, flat, p, []) == (s, true)
    ensures Under(flat, p) == {} ==> VisitUnder(op, s, flat, p) == (s, true)
  {
    ReachedNone(flat, p);
    assert Listed({}) == [];
  }

  lemma VisitOne<S>(op: (S, Keys, Bytes) -> (S, bool), s: S, flat: Flat, key: Keys)
    requires key in flat && forall k :: k in flat ==> |k| == |key|
    ensures VisitUnder(op, s, flat, key) == op(s, key, flat[key])
  {
    assert forall k :: key <= k && |k| == |key| ==> k == key;
    assert Under(flat, key) == {key};
    ListedOne(key);
    var r := op(s, key, flat[key]);
    assert [key][1..] == [] && Visit(op, r.0, [], flat) == (r.0, true);
    assert Visit(op, s, [key], flat) == r;
  }

  /** All parts in the map at the end of `p` reach everything under `p`. */
  lemma ReachedAll(pool: Pool, root: Handle, n: nat, paths: Paths, slots: Slots, p: Keys, parts: seq<Bytes>)
    requires Mirrors(pool, paths, slots) && Shaped(root, n, paths, slots)
    requires p in paths && forall k :: k in parts <==> k in pool[paths[p]]
    ensures Reached(Values(slots, n), p, parts) == Under(Values(slots, n), p)
  {
    forall key | key in Values(slots, n) && p <= key
      ensures |p| < |key| && key[|p|] in parts
    {
      Ancestors(pool, root, n, paths, slots, key, |p|);
      Follow(pool, root, n, paths, slots, key, |p|);
      assert key[..|p|] == p;
    }
  }

  function TakeDown(taken: seq<(Keys, Bytes)>, key: Keys, v: Bytes): (seq<(Keys, Bytes)>, bool) {
    (taken + [(key, v)], true)
  }

  ghost function Paired(q: seq<Keys>, flat: Flat): seq<(Keys, Bytes)>
    requires forall key :: key in q ==> key in flat
    decreases |q|
  {
    if q == [] then [] else [(q[0], flat[q[0]])] + Paired(q[1..], flat)
  }

  /** An operation that takes down each entry ends up with every key and its value, once and in order. */
  lemma {:induction false} VisitTakesAll(taken: seq<(Keys, Bytes)>, q: seq<Keys>, flat: Flat)
    requires forall key :: key in q ==> key in flat
    ensures Visit(TakeDown, taken, q, flat) == (taken + Paired(q, flat), true)
    decreases |q|
  {
    if q != [] {
      var x := (q[0], flat[q[0]]);
      VisitTakesAll(taken + [x], q[1..], flat);
      assert taken + Paired(q, flat) == taken + [x] + Paired(q[1..], flat);
    } else {
      assert taken + Paired(q, flat) == taken;
    }
  }
}
