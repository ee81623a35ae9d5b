/** One flat key space that holds many maps: each owns the keys that begin with its prefix. */
module KeySpace {
  import opened Basics
  import opened ByteStrings
  import opened OrderedEncoding

  /** What the database stores, and what one map holds. */
  type Content = map<Bytes, Bytes>

  const PREFIX_SIZE: nat := 8

  /** Where the bookkeeping table keeps the next prefix. */
  const META_KEY_PREFIX_ALLOCATOR: Bytes := [0]

  lemma U64Width()
    ensures Pow256(PREFIX_SIZE) == TWO_64
  {
  }

  // ---------- one map ----------

  /** The keys behind a prefix. */
  ghost function Tails(db: Content, p: Bytes): (t: set<Bytes>)
    ensures forall k :: k in t <==> p + k in db
  {
    assert forall k :: (p + k)[|p|..] == k && p <= p + k;
    assert forall f :: f in db && p <= f ==> p + f[|p|..] == f;
    set f | f in db && p <= f :: f[|p|..]
  }

  ghost function Slice(db: Content, p: Bytes): Content {
    map k | k in Tails(db, p) :: db[p + k]
  }

  lemma SameSplit(p: Bytes, k: Bytes, q: Bytes, j: Bytes)
    requires |p| == |q|
    ensures p + k == q + j <==> p == q && k == j
  {
    if p + k == q + j {
      assert (p + k)[..|p|] == p && (q + j)[..|p|] == q;
      assert (p + k)[|p|..] == k && (q + j)[|p|..] == j;
    }
  }

  lemma SliceInsert(db: Content, p: Bytes, k: Bytes, v: Bytes, q: Bytes)
    requires |p| == |q|
    ensures Slice(db[p + k := v], q) == if q == p then Slice(db, q)[k := v] else Slice(db, q)
  {
    forall j ensures p + k == q + j <==> p == q && k == j { SameSplit(p, k, q, j); }
  }

  lemma SliceRemove(db: Content, p: Bytes, k: Bytes, q: Bytes)
    requires |p| == |q|
    ensures Slice(db - {p + k}, q) == if q == p then Slice(db, q) - {k} else Slice(db, q)
  {
    forall j ensures p + k == q + j <==> p == q && k == j { SameSplit(p, k, q, j); }
  }

  // ---------- the family of maps ----------

  ghost predicate IsPrefix(p: Bytes, next: nat) {
    |p| == PREFIX_SIZE && RESERVED_ID_CNT <= FromBigEndian(p) < next
  }

  function PrefixOf(i: nat): (p: Bytes)
    requires i < TWO_64
    ensures |p| == PREFIX_SIZE
  {
    U64Width();
    ToBytes(i, PREFIX_SIZE)
  }

  lemma PrefixIs(i: nat)
    requires i < TWO_64
    ensures FromBigEndian(PrefixOf(i)) == i
  {
    U64Width();
    IntRoundTrip(i, PREFIX_SIZE);
  }

  lemma PrefixOfBytes(p: Bytes)
    requires |p| == PREFIX_SIZE
    ensures FromBigEndian(p) < TWO_64 && PrefixOf(FromBigEndian(p)) == p
  {
    U64Width();
    BytesRoundTrip(p);
  }

  /** The prefixes given out so far. */
  ghost function Prefixes(next: nat): (ps: set<Bytes>)
    requires next <= TWO_64
    ensures forall p :: p in ps <==> IsPrefix(p, next)
  {
    assert forall i :: RESERVED_ID_CNT <= i < next ==> IsPrefix(PrefixOf(i), next) by {
      forall i: nat | i < next ensures FromBigEndian(PrefixOf(i)) == i { PrefixIs(i); }
    }
    assert forall p :: IsPrefix(p, next) ==> PrefixOf(FromBigEndian(p)) == p by {
      forall p: Bytes | IsPrefix(p, next) ensures PrefixOf(FromBigEndian(p)) == p { PrefixOfBytes(p); }
    }
    set i: nat | RESERVED_ID_CNT <= i < next :: PrefixOf(i)
  }

  /** The maps by their prefixes. */
  type Family = map<Bytes, Content>

  ghost function FamilyOf(db: Content, next: nat): Family
    requires next <= TWO_64
  {
    map p | p in Prefixes(next) :: Slice(db, p)
  }

  /** Every stored key belongs to a map, and is no longer than the longest. */
  ghost predicate Owned(db: Content, next: nat, maxKeyLen: nat) {
    forall f :: f in db ==> PREFIX_SIZE <= |f| <= PREFIX_SIZE + maxKeyLen && IsPrefix(f[..PREFIX_SIZE], next)
  }

  /** The bookkeeping table holds each map's number of keys. */
  ghost predicate Counted(db: Content, meta: Content, next: nat) {
    forall p :: IsPrefix(p, next) ==>
      p in meta && |Slice(db, p)| < TWO_64 && meta[p] == PrefixOf(|Slice(db, p)|)
  }

  ghost predicate Allocates(meta: Content, next: nat) {
    && RESERVED_ID_CNT <= next < TWO_64
    && META_KEY_PREFIX_ALLOCATOR in meta && meta[META_KEY_PREFIX_ALLOCATOR] == PrefixOf(next)
  }

  ghost predicate Sound(db: Content, meta: Content, next: nat, maxKeyLen: nat) {
    Allocates(meta, next) && Owned(db, next, maxKeyLen) && Counted(db, meta, next)
  }

  lemma SoundParts(db: Content, meta: Content, next: nat, maxKeyLen: nat)
    requires Sound(db, meta, next, maxKeyLen)
    ensures Allocates(meta, next) && Owned(db, next, maxKeyLen)
  {
  }

  function Longer(m: nat, k: Bytes): nat {
    if |k| > m then |k| else m
  }

  /** Only the map at `p` differs, and it now holds `c`. */
  ghost predicate OnlyAt(db: Content, db1: Content, next: nat, p: Bytes, c: Content) {
    forall q :: IsPrefix(q, next) ==> Slice(db1, q) == if q == p then c else Slice(db, q)
  }

  lemma OneMapInFamily(db: Content, db1: Content, next: nat, p: Bytes, c: Content)
    requires next <= TWO_64 && IsPrefix(p, next) && OnlyAt(db, db1, next, p, c)
    ensures FamilyOf(db1, next) == FamilyOf(db, next)[p := c]
  {
    hide Slice, IsPrefix;
  }

  /** Changing one map is sound when its length is written down, and in the family only that map changes. */
  lemma OneMapChanged(db: Content, db1: Content, meta: Content, next: nat, m: nat, m1: nat, p: Bytes, c: Content)
    requires Sound(db, meta, next, m) && IsPrefix(p, next)
    requires OnlyAt(db, db1, next, p, c) && Owned(db1, next, m1) && |c| < TWO_64
    ensures Sound(db1, meta[p := PrefixOf(|c|)], next, m1)
    ensures FamilyOf(db1, next) == FamilyOf(db, next)[p := c]
  {
    hide Slice, FromBigEndian, PrefixOf, Owned;
    OneMapInFamily(db, db1, next, p, c);
    hide FamilyOf;
    assert |p| != |META_KEY_PREFIX_ALLOCATOR|;
  }

  lemma LengthsOf(c: Content, k: Bytes, v: Bytes)
    ensures |c[k := v]| == |c| + if k in c then 0 else 1
    ensures |c - {k}| == |c| - if k in c then 1 else 0
  {
    assert c[k := v].Keys == c.Keys + {k} && (c - {k}).Keys == c.Keys - {k};
    assert |c| == |c.Keys| && |c[k := v]| == |c[k := v].Keys| && |c - {k}| == |(c - {k}).Keys|;
  }

  /** The length that is written down. */
  lemma LengthKept(db: Content, meta: Content, next: nat, m: nat, p: Bytes)
    requires Sound(db, meta, next, m) && IsPrefix(p, next)
    ensures |p| == PREFIX_SIZE && |Slice(db, p)| < TWO_64
    ensures p in meta && meta[p] == PrefixOf(|Slice(db, p)|) && meta[p := PrefixOf(|Slice(db, p)|)] == meta
  {
    assert meta[p := meta[p]] == meta;
  }

  lemma InsertedAt(db: Content, next: nat, m: nat, p: Bytes, k: Bytes, v: Bytes)
    requires Owned(db, next, m) && IsPrefix(p, next)
    ensures OnlyAt(db, db[p + k := v], next, p, Slice(db, p)[k := v])
    ensures p + k in db <==> k in Slice(db, p)
    ensures Owned(db[p + k := v], next, Longer(m, k))
  {
    forall q | IsPrefix(q, next)
      ensures Slice(db[p + k := v], q) == if q == p then Slice(db, q)[k := v] else Slice(db, q)
    {
      SliceInsert(db, p, k, v, q);
    }
    assert (p + k)[..PREFIX_SIZE] == p;
  }

  lemma RemovedAt(db: Content, next: nat, m: nat, p: Bytes, k: Bytes)
    requires Owned(db, next, m) && IsPrefix(p, next)
    ensures OnlyAt(db, db - {p + k}, next, p, Slice(db, p) - {k})
    ensures p + k in db <==> k in Slice(db, p)
    ensures Owned(db - {p + k}, next, m)
  {
    forall q | IsPrefix(q, next)
      ensures Slice(db - {p + k}, q) == if q == p then Slice(db, q) - {k} else Slice(db, q)
    {
      SliceRemove(db, p, k, q);
    }
  }

  /** Inserting into one map: the others keep their contents, and the lengths stay right. */
  lemma InsertSound(db: Content, meta: Content, next: nat, m: nat, p: Bytes, k: Bytes, v: Bytes)
    requires Sound(db, meta, next, m) && IsPrefix(p, next)
    requires |Slice(db, p)| + 1 < TWO_64
    ensures p + k in db <==> k in Slice(db, p)
    ensures p + k in db ==> Sound(db[p + k := v], meta, next, Longer(m, k))
    ensures p + k !in db ==> Sound(db[p + k := v], meta[p := PrefixOf(|Slice(db, p)| + 1)], next, Longer(m, k))
    ensures FamilyOf(db[p + k := v], next) == FamilyOf(db, next)[p := Slice(db, p)[k := v]]
  {
    hide Slice, PrefixOf, IsPrefix, OnlyAt, Owned, Counted, Allocates, FamilyOf, Longer;
    InsertedAt(db, next, m, p, k, v);
    LengthsOf(Slice(db, p), k, v);
    LengthKept(db, meta, next, m, p);
    OneMapChanged(db, db[p + k := v], meta, next, m, Longer(m, k), p, Slice(db, p)[k := v]);
  }

  /** Removing from one map: the others keep their contents, the lengths stay right, and no length falls below zero. */
  lemma RemoveSound(db: Content, meta: Content, next: nat, m: nat, p: Bytes, k: Bytes)
    requires Sound(db, meta, next, m) && IsPrefix(p, next)
    ensures p + k in db <==> k in Slice(db, p)
    ensures p + k !in db ==> Sound(db - {p + k}, meta, next, m)
    ensures p + k in db ==>
      0 < |Slice(db, p)| && Sound(db - {p + k}, meta[p := PrefixOf(|Slice(db, p)| - 1)], next, m)
    ensures FamilyOf(db - {p + k}, next) == FamilyOf(db, next)[p := Slice(db, p) - {k}]
  {
    hide Slice, PrefixOf, IsPrefix, OnlyAt, Owned, Counted, Allocates, FamilyOf;
    RemovedAt(db, next, m, p, k);
    LengthsOf(Slice(db, p), k, []);
    LengthKept(db, meta, next, m, p);
    OneMapChanged(db, db - {p + k}, meta, next, m, m, p, Slice(db, p) - {k});
  }

  /** No stored key begins with the next prefix, so the map of a new prefix starts out empty. */
  lemma FreshIsEmpty(db: Content, next: nat, m: nat)
    requires next < TWO_64 && Owned(db, next, m)
    ensures Slice(db, PrefixOf(next)) == map[] && !IsPrefix(PrefixOf(next), next)
  {
    var p := PrefixOf(next);
    PrefixIs(next);
    forall k
      ensures p + k !in db
    {
      assert (p + k)[..PREFIX_SIZE] == p;
    }
    assert Tails(db, p) == {};
  }

  lemma OnePrefixMore(p: Bytes, next: nat)
    requires RESERVED_ID_CNT <= next < TWO_64
    ensures IsPrefix(p, next + 1) <==> p == PrefixOf(next) || IsPrefix(p, next)
  {
    PrefixIs(next);
    if |p| == PREFIX_SIZE { PrefixOfBytes(p); }
  }

  lemma PrefixesGrow(next: nat)
    requires RESERVED_ID_CNT <= next < TWO_64
    ensures Prefixes(next + 1) == Prefixes(next) + {PrefixOf(next)}
  {
    forall q ensures IsPrefix(q, next + 1) <==> q == PrefixOf(next) || IsPrefix(q, next) { OnePrefixMore(q, next); }
    hide PrefixOf, IsPrefix;
  }

  lemma FamilyGrows(db: Content, next: nat)
    requires RESERVED_ID_CNT <= next < TWO_64
    ensures FamilyOf(db, next + 1) == FamilyOf(db, next)[PrefixOf(next) := Slice(db, PrefixOf(next))]
  {
    PrefixesGrow(next);
    hide Slice, PrefixOf, IsPrefix, Prefixes;
  }

  lemma OwnedStill(db: Content, next: nat, m: nat)
    requires Owned(db, next, m)
    ensures Owned(db, next + 1, m)
  {
  }

  lemma CountedNew(db: Content, meta: Content, next: nat, p: Bytes, x: Bytes)
    requires Counted(db, meta, next) && RESERVED_ID_CNT <= next < TWO_64
    requires p == PrefixOf(next) && Slice(db, p) == map[]
    ensures Counted(db, meta[META_KEY_PREFIX_ALLOCATOR := x][p := PrefixOf(0)], next + 1)
  {
    var meta1 := meta[META_KEY_PREFIX_ALLOCATOR := x][p := PrefixOf(0)];
    forall q | IsPrefix(q, next + 1)
      ensures q in meta1 && |Slice(db, q)| < TWO_64 && meta1[q] == PrefixOf(|Slice(db, q)|)
    {
      OnePrefixMore(q, next);
      hide Slice, FromBigEndian, PrefixOf;
      assert |q| != |META_KEY_PREFIX_ALLOCATOR|;
    }
  }

  lemma NextIsNoMap(db: Content, next: nat)
    requires next < TWO_64
    ensures PrefixOf(next) !in FamilyOf(db, next)
  {
    PrefixIs(next);
  }

  /** A new prefix adds an empty map to the family. */
  lemma AllocateSound(db: Content, meta: Content, next: nat, m: nat)
    requires Sound(db, meta, next, m) && next + 1 < TWO_64
    ensures Sound(db, meta[META_KEY_PREFIX_ALLOCATOR := PrefixOf(next + 1)][PrefixOf(next) := PrefixOf(0)], next + 1, m)
    ensures FamilyOf(db, next + 1) == FamilyOf(db, next)[PrefixOf(next) := map[]]
  {
    hide Slice, PrefixOf, IsPrefix, Owned, Counted, FamilyOf, FromBigEndian;
    FreshIsEmpty(db, next, m);
    OwnedStill(db, next, m);
    CountedNew(db, meta, next, PrefixOf(next), PrefixOf(next + 1));
    FamilyGrows(db, next);
    assert |PrefixOf(next)| != |META_KEY_PREFIX_ALLOCATOR|;
  }

  // ---------- clearing ----------

  ghost function WithPrefix(p: Bytes, ks: set<Bytes>): set<Bytes> {
    set k | k in ks :: p + k
  }

  lemma SliceRemoveAll(db: Content, p: Bytes, ks: set<Bytes>, q: Bytes)
    requires |p| == |q|
    ensures Slice(db - WithPrefix(p, ks), q) == if q == p then Slice(db, q) - ks else Slice(db, q)
  {
    forall k, j ensures p + k == q + j <==> p == q && k == j { SameSplit(p, k, q, j); }
    forall j
      ensures q + j in WithPrefix(p, ks) <==> p == q && j in ks
    {
      if p == q && j in ks { assert p + j == q + j; }
    }
  }

  lemma NothingPrefixed(p: Bytes)
    ensures WithPrefix(p, {}) == {} && KeysIn([]) == {}
  {
  }

  lemma OneMorePrefixed(p: Bytes, ks: set<Bytes>, k: Bytes)
    ensures WithPrefix(p, ks + {k}) == WithPrefix(p, ks) + {p + k}
  {
  }

  lemma ClearedAt(db: Content, next: nat, m: nat, p: Bytes)
    requires Owned(db, next, m) && IsPrefix(p, next)
    ensures var db1 := db - WithPrefix(p, Slice(db, p).Keys); OnlyAt(db, db1, next, p, map[]) && Owned(db1, next, m)
  {
    var ks := Slice(db, p).Keys;
    var db1 := db - WithPrefix(p, ks);
    assert Slice(db, p) - ks == map[];
    forall q | IsPrefix(q, next)
      ensures Slice(db1, q) == if q == p then map[] else Slice(db, q)
    {
      SliceRemoveAll(db, p, ks, q);
    }
  }

  lemma ClearSound(db: Content, meta: Content, next: nat, m: nat, p: Bytes)
    requires Sound(db, meta, next, m) && IsPrefix(p, next)
    ensures var db1 := db - WithPrefix(p, Slice(db, p).Keys);
      Sound(db1, meta[p := PrefixOf(0)], next, m) && FamilyOf(db1, next) == FamilyOf(db, next)[p := map[]]
  {
    hide Slice, PrefixOf, IsPrefix, OnlyAt, Owned, Counted, Allocates, FamilyOf, WithPrefix;
    ClearedAt(db, next, m, p);
    OneMapChanged(db, db - WithPrefix(p, Slice(db, p).Keys), meta, next, m, m, p, map[]);
  }

  // ---------- scanning ----------

  /** The pairs of a map in key order. */
  ghost function Entries(m: Content): (e: seq<(Bytes, Bytes)>)
    ensures |e| == |m|
    ensures forall i :: 0 <= i < |e| ==> e[i].0 in m && e[i].1 == m[e[i].0]
    ensures forall k :: k in m ==> (k, m[k]) in e
  {
    var q := InOrder(m.Keys);
    assert |m| == |m.Keys|;
    var e := seq(|q|, i requires 0 <= i < |q| => assert q[i] in m; (q[i], m[q[i]]));
    assert forall k :: k in m ==> (k, m[k]) in e by {
      forall k | k in m
        ensures (k, m[k]) in e
      {
        var i :| 0 <= i < |q| && q[i] == k;
        assert e[i] == (k, m[k]);
      }
    }
    e
  }

  /** The pairs come with their keys ascending. */
  lemma EntriesAscend(m: Content, i: nat, j: nat)
    requires i < j < |m|
    ensures Below(Entries(m)[i].0, Entries(m)[j].0)
  {
  }

  /** Equal pairs in order, and as many of them, are equal maps. */
  lemma EntriesDecide(m: Content, n: Content)
    ensures Entries(m) == Entries(n) <==> m == n
  {
    hide Entries;
    if Entries(m) == Entries(n) {
      forall k
        ensures k in m <==> k in n
        ensures k in m ==> m[k] == n[k]
      {
        if k in m {
          var i :| 0 <= i < |Entries(m)| && Entries(m)[i] == (k, m[k]);
        }
        if k in n {
          var i :| 0 <= i < |Entries(n)| && Entries(n)[i] == (k, n[k]);
        }
      }
    }
  }

  ghost function KeysIn(e: seq<(Bytes, Bytes)>): set<Bytes> {
    set i | 0 <= i < |e| :: e[i].0
  }

  /** The map that results from inserting pairs one after the other. */
  ghost function Pairs(e: seq<(Bytes, Bytes)>): (m: Content)
    ensures |m| <= |e|
  {
    if e == [] then map[]
    else
      var m, last := Pairs(e[..|e| - 1]), e[|e| - 1];
      LengthsOf(m, last.0, last.1);
      m[last.0 := last.1]
  }

  lemma {:induction false} PairsOf(e: seq<(Bytes, Bytes)>, m: Content)
    requires forall i :: 0 <= i < |e| ==> e[i].0 in m && e[i].1 == m[e[i].0]
    ensures Pairs(e) == map k | k in m && k in KeysIn(e) :: m[k]
  {
    if e != [] {
      var init := e[..|e| - 1];
      PairsOf(init, m);
      OneMorePair(e, |e| - 1);
      assert e[..|e|] == e;
      hide KeysIn;
    }
  }

  /** The pairs of a map have its keys, and inserting them gives the map again. */
  lemma EntriesRebuild(m: Content)
    ensures KeysIn(Entries(m)) == m.Keys && Pairs(Entries(m)) == m
  {
    hide Entries;
    var e := Entries(m);
    forall k | k in m
      ensures k in KeysIn(e)
    {
      var i :| 0 <= i < |e| && e[i] == (k, m[k]);
      assert e[i].0 == k;
    }
    PairsOf(e, m);
  }

  lemma OneMorePair(e: seq<(Bytes, Bytes)>, i: nat)
    requires i < |e|
    ensures KeysIn(e[..i + 1]) == KeysIn(e[..i]) + {e[i].0}
    ensures Pairs(e[..i + 1]) == Pairs(e[..i])[e[i].0 := e[i].1]
  {
    var p := e[..i + 1];
    assert p[..i] == e[..i] && p[i] == e[i];
    assert forall j :: 0 <= j < i ==> p[j] == e[..i][j];
    assert forall k :: k in KeysIn(p) ==> k in KeysIn(e[..i]) + {e[i].0};
    forall k | k in KeysIn(e[..i]) + {e[i].0}
      ensures k in KeysIn(p)
    {
      if k in KeysIn(e[..i]) {
        var j :| 0 <= j < i && e[..i][j].0 == k;
        assert p[j].0 == k;
      } else {
        assert p[i].0 == k;
      }
    }
  }

  function Strip(p: Bytes, fs: seq<Bytes>): (ks: seq<Bytes>)
    requires forall f :: f in fs ==> p <= f
    ensures |ks| == |fs| && forall i :: 0 <= i < |fs| ==> fs[i] == p + ks[i]
  {
    assert forall i :: 0 <= i < |fs| ==> fs[i] in fs;
    assert forall f :: f in fs ==> p + f[|p|..] == f;
    seq(|fs|, i requires 0 <= i < |fs| => fs[i][|p|..])
  }

  /** Behind a common prefix the order is that of the rest. */
  lemma BelowBehind(p: Bytes, k: Bytes, j: Bytes)
    ensures Below(p + k, p + j) <==> Below(k, j)
  {
    BelowInParts(p, p, k, j);
    BelowIrreflexive(p);
  }

  /** The stored keys with a prefix, in their order, are the map's keys in theirs. */
  lemma StripInOrder(p: Bytes, fs: set<Bytes>, ks: set<Bytes>)
    requires (forall f :: f in fs ==> p <= f) && forall k :: p + k in fs <==> k in ks
    ensures Strip(p, InOrder(fs)) == InOrder(ks)
  {
    var q := Strip(p, InOrder(fs));
    forall i, j | 0 <= i < j < |q|
      ensures Below(q[i], q[j])
    {
      BelowBehind(p, q[i], q[j]);
    }
    forall k
      ensures k in q <==> k in ks
    {
      if k in ks {
        assert p + k in InOrder(fs);
        var i :| 0 <= i < |q| && InOrder(fs)[i] == p + k;
        SameSplit(p, q[i], p, k);
      }
      if k in q {
        var i :| 0 <= i < |q| && q[i] == k;
        assert InOrder(fs)[i] in fs;
      }
    }
    InOrderUnique(q, ks);
  }

  /** The stored keys `fs` with their values, in order, as pairs of a map with prefix `p`. */
  function Deliver(db: Content, p: Bytes, fs: set<Bytes>): (e: seq<(Bytes, Bytes)>)
    requires forall f :: f in fs ==> p <= f && f in db
  {
    var q := InOrder(fs);
    assert forall i :: 0 <= i < |q| ==> q[i] in q;
    var ks := Strip(p, q);
    seq(|q|, i requires 0 <= i < |q| => (ks[i], db[q[i]]))
  }

  lemma DeliversEntries(db: Content, p: Bytes, fs: set<Bytes>, m: Content)
    requires forall f :: f in fs ==> p <= f && f in db
    requires forall k :: (k in m <==> p + k in fs) && (k in m ==> m[k] == db[p + k])
    ensures Deliver(db, p, fs) == Entries(m)
  {
    StripInOrder(p, fs, m.Keys);
  }

  // ---------- the bounds of a scan ----------

  /** The key right after `k`. */
  function After(k: Bytes): Bytes {
    k + [0]
  }

  /** No key lies between `k` and the one right after it. */
  lemma {:induction false} AfterIsNext(x: Bytes, k: Bytes)
    ensures Below(x, k) <==> After(x) == k || Below(After(x), k)
  {
    if x == [] {
      assert k != [] ==> (Below([0], k) <==> 0 < k[0] || (k[0] == 0 && Below([], k[1..])));
      assert k != [] && k[0] == 0 && k[1..] == [] ==> k == [0];
    } else if k != [] {
      AfterIsNext(x[1..], k[1..]);
      assert After(x)[1..] == After(x[1..]);
      assert After(x) == [x[0]] + After(x[1..]);
      assert k == [k[0]] + k[1..];
    }
  }

  function Ones(n: nat): (b: Bytes)
    ensures |b| == n
  {
    seq(n, _ => 255)
  }

  lemma {:induction false} OnesAbove(k: Bytes, n: nat)
    requires |k| <= n
    ensures k == Ones(n) || Below(k, Ones(n))
  {
    if k != [] {
      OnesAbove(k[1..], n - 1);
      assert Ones(n)[1..] == Ones(n - 1);
      assert k == [k[0]] + k[1..] && Ones(n) == [255] + Ones(n - 1);
    }
  }

  /** The stored keys that a scan may deliver: from `lo` on, below `hi`, and with `past` up to `hi` itself. */
  predicate InScan(f: Bytes, lo: Bytes, hi: Bytes, past: bool) {
    (f == lo || Below(lo, f)) && (Below(f, hi) || (past && f == hi))
  }

  function ScanStart(p: Bytes, lo: Bound): Bytes {
    match lo case Included(l) => p + l case Excluded(l) => p + After(l) case Unbounded => p
  }

  /** Without an upper bound, a scan ends at the prefix followed by as many bytes 255 as the longest key has. */
  function ScanEnd(p: Bytes, hi: Bound, maxKeyLen: nat): Bytes {
    match hi case Included(h) => p + After(h) case Excluded(h) => p + h case Unbounded => p + Ones(maxKeyLen)
  }

  lemma StartIsLowerBound(p: Bytes, k: Bytes, lo: Bound)
    ensures Within(k, lo, Unbounded) <==> p + k == ScanStart(p, lo) || Below(ScanStart(p, lo), p + k)
  {
    match lo
    case Included(l) =>
      BelowBehind(p, l, k);
      SameSplit(p, l, p, k);
    case Excluded(l) =>
      AfterIsNext(l, k);
      BelowBehind(p, After(l), k);
      SameSplit(p, After(l), p, k);
    case Unbounded =>
      assert p == p + [];
      BelowBehind(p, [], k);
      SameSplit(p, [], p, k);
  }

  lemma EndIsUpperBound(p: Bytes, k: Bytes, hi: Bound, m: nat)
    requires |k| <= m
    ensures Within(k, Unbounded, hi) <==>
      Below(p + k, ScanEnd(p, hi, m)) || (hi.Unbounded? && p + k == ScanEnd(p, hi, m))
  {
    match hi
    case Included(h) =>
      AfterIsNext(h, k);
      BelowBehind(p, k, After(h));
      BelowAsymmetric(h, k);
      BelowTotal(h, k);
      BelowAsymmetric(k, After(h));
      BelowTotal(k, After(h));
      BelowAsymmetric(After(h), k);
    case Excluded(h) =>
      BelowBehind(p, k, h);
    case Unbounded =>
      OnesAbove(k, m);
      BelowBehind(p, k, Ones(m));
      SameSplit(p, k, p, Ones(m));
  }

  /** A bounded scan delivers exactly the map's keys within the bounds: none is missed beyond its last possible key. */
  lemma ScanIsExact(p: Bytes, k: Bytes, lo: Bound, hi: Bound, m: nat)
    requires |k| <= m
    ensures InScan(p + k, ScanStart(p, lo), ScanEnd(p, hi, m), hi.Unbounded?) <==> Within(k, lo, hi)
  {
    StartIsLowerBound(p, k, lo);
    EndIsUpperBound(p, k, hi, m);
    assert Within(k, lo, hi) <==> Within(k, lo, Unbounded) && Within(k, Unbounded, hi);
  }

  ghost function Restrict(m: Content, lo: Bound, hi: Bound): Content {
    map k | k in m && Within(k, lo, hi) :: m[k]
  }

  /** The stored keys with prefix `p` that a bounded scan delivers. */
  function Scanned(db: Content, p: Bytes, lo: Bound, hi: Bound, m: nat): set<Bytes> {
    set f | f in db && p <= f && InScan(f, ScanStart(p, lo), ScanEnd(p, hi, m), hi.Unbounded?)
  }

  /** A scan delivers the map's pairs within its bounds. */
  lemma ScanDelivers(db: Content, next: nat, m: nat, p: Bytes, lo: Bound, hi: Bound)
    requires Owned(db, next, m) && |p| == PREFIX_SIZE
    ensures Deliver(db, p, Scanned(db, p, lo, hi, m)) == Entries(Restrict(Slice(db, p), lo, hi))
  {
    hide Within, InScan, ScanStart, ScanEnd;
    forall k
      ensures p + k in Scanned(db, p, lo, hi, m) <==> k in Restrict(Slice(db, p), lo, hi)
    {
      assert p <= p + k;
      if p + k in db {
        ScanIsExact(p, k, lo, hi, m);
      }
    }
    DeliversEntries(db, p, Scanned(db, p, lo, hi, m), Restrict(Slice(db, p), lo, hi));
  }

  lemma OwnedLengths(db: Content, next: nat, m: nat)
    requires Owned(db, next, m)
    ensures forall f :: f in db ==> |f| <= PREFIX_SIZE + m
  {
  }

  /** Without bounds that is the whole map, also going backward from the end of the scan. */
  lemma PrefixScanDelivers(db: Content, next: nat, m: nat, p: Bytes)
    requires Owned(db, next, m) && |p| == PREFIX_SIZE
    ensures Scanned(db, p, Unbounded, Unbounded, m) == set f | f in db && p <= f
    ensures Deliver(db, p, set f | f in db && p <= f) == Entries(Slice(db, p))
  {
    hide Slice, Deliver, Entries, ScanStart, ScanEnd, InScan, Owned;
    OwnedLengths(db, next, m);
    forall f | f in db && p <= f
      ensures f in Scanned(db, p, Unbounded, Unbounded, m)
    {
      var k := f[|p|..];
      assert f == p + k;
      ScanIsExact(p, k, Unbounded, Unbounded, m);
    }
    ScanDelivers(db, next, m, p, Unbounded, Unbounded);
    assert Restrict(Slice(db, p), Unbounded, Unbounded) == Slice(db, p);
  }
}
