/** A map whose keys have a fixed number of parts, kept as maps nested to that depth. */
module MultiKeyMap {
  import opened Basics
  import opened ByteStrings
  import opened KeyVectors
  import opened NestedMaps

  datatype Result<+T> = Ok(value: T) | IncorrectKeySize

  /** How a walk over the entries ends. */
  datatype Walk = Completed | OpFailed | InvalidKeySize

  class MapxRawMk {
    const keySize: nat
    const inner: Handle

    // the database: the nested maps and the next handle
    var pool: Pool
    var next: Handle

    // the tree that the pool holds
    ghost var paths: Paths
    ghost var slots: Slots

    ghost predicate Valid()
      reads this
    {
      Represents(pool, inner, next, keySize, paths, slots)
    }

    ghost function Contents(): Flat
      reads this
    {
      Values(slots, keySize)
    }

    constructor (keySize: nat, inner: Handle)
      requires 0 < keySize
      ensures Valid() && Contents() == map[] && this.keySize == keySize
    {
      this.keySize, this.inner := keySize, inner;
      pool, next, paths, slots := map[inner := map[]], inner + 1, map[[] := inner], map[];
      new;
      NewTree(inner, keySize);
    }

    /** What lies behind the next part of a key, and what that says about the flat map. */
    method Step(key: Keys, i: nat, hdr: Handle) returns (slot: Option<Slot>)
      requires Valid() && i < |key| <= keySize && key[..i] in paths && hdr == paths[key[..i]]
      ensures hdr in pool && slot == if key[i] in pool[hdr] then Some(pool[hdr][key[i]]) else None
      ensures slot.Some? <==> key[..i + 1] in slots
      ensures slot.Some? && i + 1 == keySize ==> slot.value.Data? && Find(Contents(), key) == Some(slot.value.value)
      ensures slot.Some? && i + 1 < keySize ==>
        slot.value.Link? && key[..i + 1] in paths && slot.value.child == paths[key[..i + 1]]
      ensures slot.None? ==>
        key !in Contents() && Under(Contents(), key) == {} && Without(Contents(), key) == Contents()
    {
      hide Values, Under, Without, Mirrors, Shaped, Distinct;
      Follow(pool, inner, keySize, paths, slots, key, i);
      if key[..i + 1] !in slots { DeadEnd(pool, inner, keySize, paths, slots, key, i); }
      if key[..i + 1] in slots && i + 1 == keySize {
        assert key[..i + 1] == key;
        FullKey(slots, key, slots[key].value);
      }
      slot := if key[i] in pool[hdr] then Some(pool[hdr][key[i]]) else None;
    }

    lemma RootIsPath()
      requires Valid()
      ensures [] in paths && paths[[]] == inner && 0 < keySize
      ensures forall key :: key in Contents() ==> |key| == keySize
      ensures next !in pool
    {
    }

    method Get(key: Keys) returns (r: Option<Bytes>)
      requires Valid()
      ensures r == Find(Contents(), key)
    {
      hide Represents, Values, Under, Without;
      RootIsPath();
      if |key| != keySize { return None; }
      var hdr := inner;
      var idx := 0;
      while true
        invariant idx < keySize && key[..idx] in paths && hdr == paths[key[..idx]]
        decreases keySize - idx
      {
        var slot := Step(key, idx, hdr);
        if slot.None? { return None; }
        if 1 + idx == keySize {
          return Some(slot.value.value);
        }
        hdr, idx := slot.value.child, idx + 1;
      }
    }

    /** The map behind the next part of a key; a missing one is created and linked. */
    method Descend(key: Keys, i: nat, hdr: Handle) returns (child: Handle)
      requires Valid() && i + 1 < keySize && i < |key| <= keySize && key[..i] in paths && hdr == paths[key[..i]]
      modifies this`pool, this`next, this`paths, this`slots
      ensures Valid() && Contents() == old(Contents())
      ensures key[..i + 1] in paths && child == paths[key[..i + 1]]
    {
      hide Represents, Values;
      var slot := Step(key, i, hdr);
      if slot.Some? { return slot.value.child; }
      RootIsPath();
      assert key[..i] + [key[i]] == key[..i + 1];
      Grow(pool, inner, next, keySize, paths, slots, key[..i], key[i]);
      child := next;
      // The new map first, and then the slot that links it.
      pool := pool[child := map[]];
      pool := pool[hdr := pool[hdr][key[i] := Link(child)]];
      next := next + 1;
      paths, slots := paths[key[..i + 1] := child], slots[key[..i + 1] := Link(child)];
    }

    method Insert(key: Keys, value: Bytes) returns (r: Result<Option<Bytes>>)
      requires Valid()
      modifies this`pool, this`next, this`paths, this`slots
      ensures Valid()
      ensures |key| != keySize ==> r == IncorrectKeySize && Contents() == old(Contents())
      ensures |key| == keySize ==> r == Ok(Find(old(Contents()), key)) && Contents() == old(Contents())[key := value]
    {
      hide Represents, Values, Under, Without;
      if |key| != keySize { return IncorrectKeySize; }
      RootIsPath();
      var hdr := inner;
      var idx := 0;
      while 1 + idx < keySize
        invariant Valid() && Contents() == old(Contents())
        invariant idx < keySize && key[..idx] in paths && hdr == paths[key[..idx]]
      {
        hdr := Descend(key, idx, hdr);
        idx := idx + 1;
      }
      var slot := Step(key, idx, hdr);
      PutValue(pool, inner, next, keySize, paths, slots, key[..idx], key[idx], value);
      assert key[..idx] + [key[idx]] == key;
      pool := pool[hdr := pool[hdr][key[idx] := Data(value)]];
      slots := slots[key := Data(value)];
      r := Ok(if slot.Some? then Some(slot.value.value) else None);
    }

    /** Removes an entry, or with a shorter key all entries whose keys begin so. */
    method Remove(key: Keys) returns (r: Result<Option<Bytes>>)
      requires Valid()
      modifies this`pool, this`paths, this`slots
      ensures Valid()
      ensures |key| > keySize ==> r == IncorrectKeySize && Contents() == old(Contents())
      ensures |key| <= keySize ==> Contents() == Removed(old(Contents()), key)
      ensures |key| <= keySize ==> r == Ok(if |key| == keySize then Find(old(Contents()), key) else None)
    {
      hide Represents, Values, Under, Without;
      if |key| > keySize { return IncorrectKeySize; }
      RootIsPath();
      var hdr := inner;
      var idx := 0;
      while idx < |key|
        invariant Valid() && Contents() == old(Contents())
        invariant idx <= |key| && (idx < |key| || key == []) && key[..idx] in paths && hdr == paths[key[..idx]]
      {
        var slot := Step(key, idx, hdr);
        if slot.None? { return Ok(None); }
        if 1 + idx == |key| {
          r := if |key| == keySize then Ok(Some(slot.value.value)) else Ok(None);
          TakeOut(key, idx, hdr);
          return;
        }
        hdr, idx := slot.value.child, idx + 1;
      }
      return Ok(None);
    }

    method TakeOut(key: Keys, idx: nat, hdr: Handle)
      requires Valid() && |key| == idx + 1 && key[..idx] in paths && hdr == paths[key[..idx]]
      modifies this`pool, this`paths, this`slots
      ensures Valid() && Contents() == Without(old(Contents()), key)
    {
      hide Represents, Values, Without, Outside;
      Cut(pool, inner, next, keySize, paths, slots, key[..idx], key[idx]);
      assert key[..idx] + [key[idx]] == key;
      pool := pool[hdr := pool[hdr] - {key[idx]}];
      paths, slots := Outside(paths, key), Outside(slots, key);
    }

    method Clear()
      requires Valid()
      modifies this`pool, this`paths, this`slots
      ensures Valid() && Contents() == map[]
    {
      CutAll(pool, inner, next, keySize, paths, slots);
      pool := pool[inner := map[]];
      paths, slots := map[[] := inner], map[];
    }

    /** Applies an operation to all entries whose keys begin with a prefix, in order, until it fails. */
    method IterOpWithKeyPrefix<S>(op: (S, Keys, Bytes) -> (S, bool), start: S, keyPrefix: Keys) returns (s: S, w: Walk)
      requires Valid()
      ensures w == InvalidKeySize <==> keySize < |keyPrefix|
      ensures w == InvalidKeySize ==> s == start
      ensures w != InvalidKeySize ==> (s, w == Completed) == VisitUnder(op, start, Contents(), keyPrefix)
    {
      hide Represents, Values, Under, Without, VisitUnder;
      RootIsPath();
      s, w := start, Completed;
      if keySize < |keyPrefix| { return start, InvalidKeySize; }
      var keyBuf := new Bytes[keySize](_ => []);
      var hdr := inner;
      var depth := keySize;
      var idx := 0;
      while idx < |keyPrefix|
        invariant idx <= |keyPrefix| && depth == keySize - idx && 0 < depth
        invariant keyBuf[..idx] == keyPrefix[..idx] && keyPrefix[..idx] in paths && hdr == paths[keyPrefix[..idx]]
      {
        var slot := Step(keyPrefix, idx, hdr);
        if slot.None? {
          VisitNothing(op, start, Contents(), keyPrefix);
          return;
        }
        keyBuf[idx] := keyPrefix[idx];
        assert keyBuf[..idx + 1] == keyPrefix[..idx + 1];
        if 1 + idx == keySize {
          assert keyBuf[..] == keyPrefix;
          VisitOne(op, start, Contents(), keyPrefix);
          var r := op(start, keyBuf[..], slot.value.value);
          s, w := r.0, if r.1 then Completed else OpFailed;
          return;
        }
        hdr, depth, idx := slot.value.child, depth - 1, idx + 1;
      }
      assert keyPrefix[..idx] == keyPrefix;
      var ok;
      s, ok := RecursiveWalk(op, start, hdr, keyBuf, depth);
      w := if ok then Completed else OpFailed;
    }

    /** Walks the maps from `hdr` down, `depth` levels; the buffer holds the parts of the key above. */
    method RecursiveWalk<S>(op: (S, Keys, Bytes) -> (S, bool), start: S, hdr: Handle, keyBuf: array<Bytes>, depth: nat)
        returns (s: S, ok: bool)
      requires Valid() && keyBuf.Length == keySize && 0 < depth <= keySize
      requires keyBuf[..keySize - depth] in paths && hdr == paths[keyBuf[..keySize - depth]]
      modifies keyBuf
      ensures keyBuf[..keySize - depth] == old(keyBuf[..keySize - depth])
      ensures (s, ok) == VisitUnder(op, start, Contents(), old(keyBuf[..keySize - depth]))
      decreases depth, 1
    {
      hide Represents, Values, Under, Without, Visit, Reached, VisitUnder, VisitReached;
      var idx := keySize - depth;
      ghost var p := keyBuf[..idx];
      ghost var flat := Contents();
      var ks := PartsAt(p, hdr);
      s, ok := start, true;
      VisitNothing(op, start, flat, p);
      VisitSame(op, start, flat, p, ks);
      assert ks[..0] == [];
      for i := 0 to |ks|
        invariant keyBuf[..idx] == p && (s, true) == VisitReached(op, start, flat, p, ks[..i])
      {
        keyBuf[idx] := ks[i];
        ghost var q := keyBuf[..idx + 1];
        assert q == p + [ks[i]] && keyBuf[..idx] == p;
        VisitNext(op, start, flat, p, ks, i);
        s, ok := WalkSlot(op, s, hdr, keyBuf, depth);
        assert keyBuf[..idx] == q[..idx] == p;
        if !ok {
          VisitStops(op, start, flat, p, ks, i + 1);
          return;
        }
      }
      assert ks[..|ks|] == ks;
    }

    /** The parts in a map, in order: together they reach everything below it. */
    method PartsAt(ghost p: Keys, hdr: Handle) returns (ks: seq<Bytes>)
      requires Valid() && p in paths && hdr == paths[p]
      ensures hdr in pool && forall k :: k in ks <==> k in pool[hdr]
      ensures forall i, j :: 0 <= i < j < |ks| ==> Below(ks[i], ks[j])
      ensures Reached(Contents(), p, ks) == Under(Contents(), p)
    {
      ks := InOrder(pool[hdr].Keys);
      ReachedAll(pool, inner, keySize, paths, slots, p, ks);
    }

    /** Walks what lies behind the last part in the buffer. */
    method WalkSlot<S>(op: (S, Keys, Bytes) -> (S, bool), start: S, hdr: Handle, keyBuf: array<Bytes>, depth: nat)
        returns (s: S, ok: bool)
      requires Valid() && keyBuf.Length == keySize && 0 < depth <= keySize
      requires keyBuf[..keySize - depth] in paths && hdr == paths[keyBuf[..keySize - depth]]
      requires hdr in pool && keyBuf[keySize - depth] in pool[hdr]
      modifies keyBuf
      ensures keyBuf[..keySize - depth + 1] == old(keyBuf[..keySize - depth + 1])
      ensures (s, ok) == VisitUnder(op, start, Contents(), old(keyBuf[..keySize - depth + 1]))
      decreases depth, 0
    {
      hide Represents, Values, Under, Without, VisitUnder;
      var idx := keySize - depth;
      var slot := Step(keyBuf[..], idx, hdr);
      assert keyBuf[..][..idx + 1] == keyBuf[..idx + 1];
      if 1 == depth {
        RootIsPath();
        assert keyBuf[..idx + 1] == keyBuf[..];
        VisitOne(op, start, Contents(), keyBuf[..]);
        var r := op(start, keyBuf[..], slot.value.value);
        s, ok := r.0, r.1;
      } else {
        s, ok := RecursiveWalk(op, start, slot.value.child, keyBuf, depth - 1);
      }
    }
  }
}
