/** The database engine with its one key space, and the maps that share it. */
module FlatStore {
  import opened Basics
  import opened ByteStrings
  import opened OrderedEncoding
  import opened KeySpace

  lemma FindBehind(db: Content, p: Bytes, k: Bytes)
    ensures Find(Slice(db, p), k) == Find(db, p + k)
  {
  }

  /** A scan, with a cursor for each direction. */
  class EngineIter {
    var inner: seq<(Bytes, Bytes)>
    var innerRev: seq<(Bytes, Bytes)>

    constructor (inner: seq<(Bytes, Bytes)>, innerRev: seq<(Bytes, Bytes)>)
      ensures this.inner == inner && this.innerRev == innerRev
    {
      this.inner, this.innerRev := inner, innerRev;
    }

    method Next() returns (r: Option<(Bytes, Bytes)>)
      modifies this`inner
      ensures r.None? ==> old(inner) == inner == []
      ensures r.Some? ==> old(inner) == [r.value] + inner
    {
      if inner == [] { return None; }
      r := Some(inner[0]);
      inner := inner[1..];
    }
  }

  lemma NoPairs()
    ensures Pairs([]) == map[]
  {
  }

  class Engine {
    // the flat key space, and the table of lengths and of the prefix allocator
    var db: Content
    var meta: Content
    // the length of the longest key, without its prefix
    var maxKeyLen: nat

    // the next prefix
    ghost var next: nat

    ghost predicate Valid()
      reads this
    {
      Sound(db, meta, next, maxKeyLen)
    }

    /** The maps that the key space holds. */
    ghost function Maps(): Family
      reads this
      requires Valid()
    {
      FamilyOf(db, next)
    }

    constructor ()
      ensures Valid() && Maps() == map[] && next == 4096_0000
    {
      db, maxKeyLen, next := map[], 0, RESERVED_ID_CNT;
      meta := map[META_KEY_PREFIX_ALLOCATOR := PrefixOf(RESERVED_ID_CNT)];
    }

    method AllocPrefix() returns (i: nat)
      requires Allocates(meta, next) && next + 1 < TWO_64
      modifies this`meta, this`next
      ensures i == old(next) && next == i + 1
      ensures meta == old(meta)[META_KEY_PREFIX_ALLOCATOR := PrefixOf(i + 1)]
    {
      PrefixIs(next);
      i := FromBigEndian(meta[META_KEY_PREFIX_ALLOCATOR]);
      meta := meta[META_KEY_PREFIX_ALLOCATOR := PrefixOf(1 + i)];
      next := next + 1;
    }

    method Get(p: Bytes, k: Bytes) returns (r: Option<Bytes>)
      ensures r == Find(db, p + k)
    {
      r := if p + k in db then Some(db[p + k]) else None;
    }

    method Insert(p: Bytes, k: Bytes, v: Bytes) returns (oldV: Option<Bytes>)
      modifies this`db, this`maxKeyLen
      ensures db == old(db)[p + k := v] && maxKeyLen == Longer(old(maxKeyLen), k)
      ensures oldV == Find(old(db), p + k)
    {
      if |k| > maxKeyLen { maxKeyLen := |k|; }
      oldV := Get(p, k);
      db := db[p + k := v];
    }

    method Remove(p: Bytes, k: Bytes) returns (oldV: Option<Bytes>)
      modifies this`db
      ensures db == old(db) - {p + k} && oldV == Find(old(db), p + k)
    {
      oldV := Get(p, k);
      db := db - {p + k};
    }

    method GetInstanceLen(p: Bytes) returns (l: nat)
      requires p in meta && |meta[p]| == PREFIX_SIZE
      ensures l < TWO_64 && meta[p] == PrefixOf(l)
    {
      PrefixOfBytes(meta[p]);
      l := FromBigEndian(meta[p]);
    }

    method SetInstanceLen(p: Bytes, l: nat)
      requires l < TWO_64
      modifies this`meta
      ensures meta == old(meta)[p := PrefixOf(l)]
    {
      meta := meta[p := PrefixOf(l)];
    }

    method IncreaseInstanceLen(p: Bytes, ghost n: nat)
      requires n + 1 < TWO_64 && p in meta && meta[p] == PrefixOf(n)
      modifies this`meta
      ensures meta == old(meta)[p := PrefixOf(n + 1)]
    {
      var l := GetInstanceLen(p);
      PrefixIs(n);
      PrefixIs(l);
      SetInstanceLen(p, l + 1);
    }

    /** The length must not be zero: the subtraction is unsigned. */
    method DecreaseInstanceLen(p: Bytes, ghost n: nat)
      requires 0 < n < TWO_64 && p in meta && meta[p] == PrefixOf(n)
      modifies this`meta
      ensures meta == old(meta)[p := PrefixOf(n - 1)]
    {
      var l := GetInstanceLen(p);
      PrefixIs(n);
      PrefixIs(l);
      SetInstanceLen(p, l - 1);
    }

    /** All pairs with a prefix: forward from the prefix on, backward from the greatest key that could have it. */
    method Iter(p: Bytes) returns (it: EngineIter)
      requires |p| == PREFIX_SIZE && Owned(db, next, maxKeyLen)
      ensures fresh(it) && it.inner == Entries(Slice(db, p)) && it.innerRev == Backward(it.inner)
    {
      PrefixScanDelivers(db, next, maxKeyLen, p);
      it := new EngineIter(Deliver(db, p, set f | f in db && p <= f),
                           Backward(Deliver(db, p, Scanned(db, p, Unbounded, Unbounded, maxKeyLen))));
    }

    method Range(p: Bytes, lo: Bound, hi: Bound) returns (it: EngineIter)
      requires |p| == PREFIX_SIZE && Owned(db, next, maxKeyLen)
      ensures fresh(it) && it.inner == Entries(Restrict(Slice(db, p), lo, hi)) && it.innerRev == Backward(it.inner)
    {
      ScanDelivers(db, next, maxKeyLen, p, lo, hi);
      var pairs := Deliver(db, p, Scanned(db, p, lo, hi, maxKeyLen));
      it := new EngineIter(pairs, Backward(pairs));
    }
  }

  /** Compares as many pairs as both have, in order. */
  method SamePairs(p: seq<(Bytes, Bytes)>, q: seq<(Bytes, Bytes)>) returns (same: bool)
    requires |p| == |q|
    ensures same <==> p == q
  {
    for i := 0 to |p|
      invariant p[..i] == q[..i]
    {
      if p[i] != q[i] { return false; }
    }
    same := true;
  }

  /** One of the maps: its prefix is all there is to it. */
  class Mapx {
    const engine: Engine
    const prefix: Bytes

    ghost predicate Valid()
      reads engine
    {
      engine.Valid() && prefix in engine.Maps()
    }

    ghost function Contents(): Content
      reads engine
      requires Valid()
    {
      engine.Maps()[prefix]
    }

    /** What holds of the map in terms of the key space. */
    lemma Unfold()
      requires Valid()
      ensures IsPrefix(prefix, engine.next) && |prefix| == PREFIX_SIZE
      ensures Contents() == Slice(engine.db, prefix)
      ensures prefix in engine.meta && |Contents()| < TWO_64 && engine.meta[prefix] == PrefixOf(|Contents()|)
      ensures Owned(engine.db, engine.next, engine.maxKeyLen)
    {
    }

    /** A new map gets a prefix that no other has, and is empty: nothing stored begins with it. */
    constructor (engine: Engine)
      requires engine.Valid() && engine.next + 1 < TWO_64
      modifies engine
      ensures Valid() && this.engine == engine && engine.next == old(engine.next) + 1
      ensures prefix !in old(engine.Maps()) && engine.Maps() == old(engine.Maps())[prefix := map[]]
    {
      hide Sound, FamilyOf, Slice, PrefixOf, IsPrefix, Owned, Longer;
      SoundParts(engine.db, engine.meta, engine.next, engine.maxKeyLen);
      AllocateSound(engine.db, engine.meta, engine.next, engine.maxKeyLen);
      FreshIsEmpty(engine.db, engine.next, engine.maxKeyLen);
      NextIsNoMap(engine.db, engine.next);
      OwnedStill(engine.db, engine.next, engine.maxKeyLen);
      var i := engine.AllocPrefix();
      var p := PrefixOf(i);
      var it := engine.Iter(p);
      assert it.inner == [];
      engine.SetInstanceLen(p, 0);
      this.engine, prefix := engine, p;
    }

    method Get(k: Bytes) returns (r: Option<Bytes>)
      requires Valid()
      ensures r == Find(Contents(), k)
    {
      r := engine.Get(prefix, k);
    }

    method Len() returns (n: nat)
      requires Valid()
      ensures n == |Contents()|
    {
      hide Sound, FamilyOf, Slice, PrefixOf, IsPrefix, Entries;
      Unfold();
      n := engine.GetInstanceLen(prefix);
      PrefixIs(n);
      PrefixIs(|Contents()|);
    }

    method IsEmpty() returns (empty: bool)
      requires Valid()
      ensures empty <==> Contents() == map[]
    {
      hide Sound, FamilyOf, Slice, PrefixOf, IsPrefix, Entries;
      var n := Len();
      empty := 0 == n;
    }

    method Insert(k: Bytes, v: Bytes) returns (ret: Option<Bytes>)
      requires Valid() && |Contents()| + 1 < TWO_64
      modifies engine
      ensures Valid() && engine.next == old(engine.next)
      ensures engine.Maps() == old(engine.Maps())[prefix := old(Contents())[k := v]]
      ensures ret == Find(old(Contents()), k)
    {
      hide Sound, FamilyOf, Slice, PrefixOf, IsPrefix, Owned, Longer;
      Unfold();
      FindBehind(engine.db, prefix, k);
      InsertSound(engine.db, engine.meta, engine.next, engine.maxKeyLen, prefix, k, v);
      ghost var n := |Contents()|;
      ret := engine.Insert(prefix, k, v);
      if ret.None? { engine.IncreaseInstanceLen(prefix, n); }
    }

    method Remove(k: Bytes) returns (ret: Option<Bytes>)
      requires Valid()
      modifies engine
      ensures Valid() && engine.next == old(engine.next)
      ensures engine.Maps() == old(engine.Maps())[prefix := old(Contents()) - {k}]
      ensures ret == Find(old(Contents()), k)
    {
      hide Sound, FamilyOf, Slice, PrefixOf, IsPrefix, Owned, Longer;
      Unfold();
      FindBehind(engine.db, prefix, k);
      RemoveSound(engine.db, engine.meta, engine.next, engine.maxKeyLen, prefix, k);
      ghost var n := |Contents()|;
      ret := engine.Remove(prefix, k);
      if ret.Some? { engine.DecreaseInstanceLen(prefix, n); }
    }

    /** All pairs in key order, and backward. */
    method Iter() returns (it: EngineIter)
      requires Valid()
      ensures fresh(it) && it.inner == Entries(Contents()) && it.innerRev == Backward(it.inner)
    {
      hide Sound, FamilyOf, Slice, PrefixOf, IsPrefix, Entries;
      Unfold();
      it := engine.Iter(prefix);
    }

    method Range(lo: Bound, hi: Bound) returns (it: EngineIter)
      requires Valid()
      ensures fresh(it) && it.inner == Entries(Restrict(Contents(), lo, hi)) && it.innerRev == Backward(it.inner)
    {
      hide Sound, FamilyOf, Slice, PrefixOf, IsPrefix, Entries;
      Unfold();
      it := engine.Range(prefix, lo, hi);
    }

    method Clear()
      requires Valid()
      modifies engine
      ensures Valid() && engine.next == old(engine.next)
      ensures engine.Maps() == old(engine.Maps())[prefix := map[]]
    {
      hide Sound, FamilyOf, Slice, PrefixOf, IsPrefix, Owned, Entries, KeysIn, Pairs, WithPrefix;
      Unfold();
      ClearSound(engine.db, engine.meta, engine.next, engine.maxKeyLen, prefix);
      EntriesRebuild(Contents());
      var it := Iter();
      RemoveAll(it.inner);
      engine.SetInstanceLen(prefix, 0);
    }

    /** Removes keys one by one, leaving the stored length as it is. */
    method RemoveAll(e: seq<(Bytes, Bytes)>)
      modifies engine`db
      ensures engine.db == old(engine.db) - WithPrefix(prefix, KeysIn(e))
    {
      hide KeysIn, WithPrefix;
      ghost var db := engine.db;
      NothingPrefixed(prefix);
      assert e[..0] == [];
      for i := 0 to |e|
        invariant engine.db == db - WithPrefix(prefix, KeysIn(e[..i]))
      {
        OneMorePair(e, i);
        OneMorePrefixed(prefix, KeysIn(e[..i]), e[i].0);
        var _ := engine.Remove(prefix, e[i].0);
      }
      assert e[..|e|] == e;
    }

    method InsertAll(e: seq<(Bytes, Bytes)>)
      requires Valid() && Contents() == map[] && |e| < TWO_64
      modifies engine
      ensures Valid() && engine.Maps() == old(engine.Maps())[prefix := Pairs(e)]
    {
      hide Sound, FamilyOf, Pairs;
      assert e[..0] == [] && Pairs([]) == map[] by { NoPairs(); }
      assert engine.Maps() == engine.Maps()[prefix := map[]];
      for i := 0 to |e|
        invariant Valid() && engine.Maps() == old(engine.Maps())[prefix := Pairs(e[..i])]
      {
        OneMorePair(e, i);
        var _ := Insert(e[i].0, e[i].1);
      }
      assert e[..|e|] == e;
    }

    /** A new map with the same contents; no other map changes. */
    method Clone() returns (copy: Mapx)
      requires Valid() && engine.next + 1 < TWO_64
      modifies engine
      ensures fresh(copy) && copy.engine == engine && copy.Valid() && copy.prefix !in old(engine.Maps())
      ensures engine.Maps() == old(engine.Maps())[copy.prefix := old(Contents())]
    {
      hide Sound, FamilyOf, Slice, PrefixOf, IsPrefix, Owned, Entries, Pairs;
      copy := new Mapx(engine);
      Unfold();
      EntriesRebuild(Contents());
      var it := Iter();
      copy.InsertAll(it.inner);
    }

    /** Compares lengths, and then the pairs one by one in order. */
    method Equals(other: Mapx) returns (same: bool)
      requires Valid() && other.Valid() && engine == other.engine
      ensures same <==> Contents() == other.Contents()
    {
      hide Sound, FamilyOf, Slice, PrefixOf, IsPrefix, Owned, Entries, KeysIn, Pairs, WithPrefix;
      EntriesDecide(Contents(), other.Contents());
      var n := Len();
      var m := other.Len();
      if n != m { return false; }
      var a := Iter();
      var b := other.Iter();
      same := SamePairs(a.inner, b.inner);
    }
  }
}
