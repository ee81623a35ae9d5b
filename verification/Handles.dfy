/** Nested maps held by handle: slots that hold different handles change independently. */
module Handles {
  import opened Basics
  import opened VersionState

  type Instances = map<Handle, Layer>

  // ---------- one table of handles ----------

  /** The nested maps that a table leads to. */
  ghost function Behind<S>(slots: map<S, Handle>, inst: Instances): map<S, Layer>
    requires slots.Values <= inst.Keys
  {
    map s | s in slots :: inst[slots[s]]
  }

  lemma UpdateOwn<S(!new)>(slots: map<S, Handle>, inst: Instances, s: S, m: Layer)
    requires Distinct(slots) && slots.Values <= inst.Keys && s in slots
    ensures slots[s] in slots.Values
    ensures Behind(slots, inst[slots[s] := m]) == Behind(slots, inst)[s := m]
  {
  }

  lemma UpdateForeign<S(!new)>(slots: map<S, Handle>, inst: Instances, h: Handle, m: Layer)
    requires slots.Values <= inst.Keys && h !in slots.Values
    ensures Behind(slots, inst[h := m]) == Behind(slots, inst)
  {
  }

  lemma Attach<S(!new)>(slots: map<S, Handle>, inst: Instances, s: S, h: Handle)
    requires Distinct(slots) && slots.Values <= inst.Keys && s !in slots && h !in slots.Values && h in inst
    ensures Distinct(slots[s := h]) && slots[s := h].Values == slots.Values + {h}
    ensures Behind(slots[s := h], inst) == Behind(slots, inst)[s := inst[h]]
  {
    assert slots[s := h][s] == h;
    forall g | g in slots.Values
      ensures g in slots[s := h].Values
    {
      var t :| t in slots && slots[t] == g;
      assert slots[s := h][t] == g;
    }
  }

  lemma Detach<S(!new)>(slots: map<S, Handle>, inst: Instances, s: S)
    requires Distinct(slots) && slots.Values <= inst.Keys
    ensures Distinct(slots - {s}) && (slots - {s}).Values <= slots.Values
    ensures Behind(slots - {s}, inst) == Behind(slots, inst) - {s}
    ensures s in slots ==> slots[s] in slots.Values && slots[s] !in (slots - {s}).Values
  {
  }

  // ---------- the tables of a versioned map ----------

  /** A version list for each branch and a layer for each key. */
  datatype Contents = Contents(histories: Histories, layers: map<Key, Layer>)

  /** Of a version list's entries only the keys matter. */
  ghost function KeySets(m: map<BrId, Layer>): Histories {
    map b | b in m :: m[b].Keys
  }

  /** The tables hold these contents, and each handle in them leads to a nested map of its own. */
  ghost predicate Represents(brs: map<BrId, Handle>, kvs: map<Key, Handle>, inst: Instances, next: Handle,
                             c: Contents)
  {
    && Distinct(brs) && Distinct(kvs) && brs.Values !! kvs.Values
    && brs.Values <= inst.Keys && kvs.Values <= inst.Keys
    && (forall h :: h in inst ==> h < next)
    && c == Contents(KeySets(Behind(brs, inst)), Behind(kvs, inst))
  }

  lemma InitialContents(b: BrId, h: Handle)
    ensures Represents(map[b := h], map[], map[h := map[]], h + 1, Contents(map[b := {}], map[]))
  {
    var none: Layer := map[];
    assert none.Keys == {};
    var brs: map<BrId, Handle> := map[b := h];
    var inst: Instances := map[h := none];
    assert brs.Values == {h} by { assert brs[b] == h; }
    assert Behind(brs, inst) == map[b := none];
  }

  lemma UpdateHistory(brs: map<BrId, Handle>, kvs: map<Key, Handle>, inst: Instances, next: Handle, c: Contents,
                      b: BrId, m: Layer)
    requires Represents(brs, kvs, inst, next, c) && b in brs
    ensures Represents(brs, kvs, inst[brs[b] := m], next, c.(histories := c.histories[b := m.Keys]))
  {
    UpdateOwn(brs, inst, b, m);
    UpdateForeign(kvs, inst, brs[b], m);
    assert KeySets(Behind(brs, inst)[b := m]) == c.histories[b := m.Keys];
  }

  lemma UpdateLayer(brs: map<BrId, Handle>, kvs: map<Key, Handle>, inst: Instances, next: Handle, c: Contents,
                    k: Key, m: Layer)
    requires Represents(brs, kvs, inst, next, c) && k in kvs
    ensures Represents(brs, kvs, inst[kvs[k] := m], next, c.(layers := c.layers[k := m]))
  {
    UpdateOwn(kvs, inst, k, m);
    UpdateForeign(brs, inst, kvs[k], m);
  }

  lemma Lookups(brs: map<BrId, Handle>, kvs: map<Key, Handle>, inst: Instances, next: Handle, c: Contents)
    requires Represents(brs, kvs, inst, next, c)
    ensures brs.Keys == c.histories.Keys && kvs.Keys == c.layers.Keys
    ensures forall b :: b in brs ==> brs[b] in inst && inst[brs[b]].Keys == c.histories[b]
    ensures forall k :: k in kvs ==> kvs[k] in inst && inst[kvs[k]] == c.layers[k]
  {
    assert forall b :: b in brs ==> brs[b] in brs.Values;
    assert forall k :: k in kvs ==> kvs[k] in kvs.Values;
  }

  /** The next handle is free, and no slot holds it. */
  lemma FreshHandle(brs: map<BrId, Handle>, kvs: map<Key, Handle>, inst: Instances, next: Handle, c: Contents, m: Layer)
    requires Represents(brs, kvs, inst, next, c)
    ensures next !in inst && next !in brs.Values && next !in kvs.Values
    ensures Represents(brs, kvs, inst[next := m], next + 1, c)
  {
    UpdateForeign(brs, inst, next, m);
    UpdateForeign(kvs, inst, next, m);
  }

  /** Changing a nested map that no slot holds goes unnoticed. */
  lemma UpdateDetached(brs: map<BrId, Handle>, kvs: map<Key, Handle>, inst: Instances, next: Handle, c: Contents,
                       h: Handle, m: Layer)
    requires Represents(brs, kvs, inst, next, c) && h in inst && h !in brs.Values && h !in kvs.Values
    ensures Represents(brs, kvs, inst[h := m], next, c)
  {
    UpdateForeign(brs, inst, h, m);
    UpdateForeign(kvs, inst, h, m);
  }

  lemma AttachLayer(brs: map<BrId, Handle>, kvs: map<Key, Handle>, inst: Instances, next: Handle, c: Contents,
                    k: Key, h: Handle)
    requires Represents(brs, kvs, inst, next, c)
    requires h in inst && h !in brs.Values && h !in kvs.Values && k !in kvs
    ensures Represents(brs, kvs[k := h], inst, next, c.(layers := c.layers[k := inst[h]]))
  {
    Attach(kvs, inst, k, h);
  }

  lemma AttachHistory(brs: map<BrId, Handle>, kvs: map<Key, Handle>, inst: Instances, next: Handle, c: Contents,
                      b: BrId, h: Handle)
    requires Represents(brs, kvs, inst, next, c)
    requires h in inst && h !in brs.Values && h !in kvs.Values && b !in brs
    ensures Represents(brs[b := h], kvs, inst, next, c.(histories := c.histories[b := inst[h].Keys]))
  {
    Attach(brs, inst, b, h);
    assert KeySets(Behind(brs, inst)[b := inst[h]]) == c.histories[b := inst[h].Keys];
  }

  lemma DetachLayer(brs: map<BrId, Handle>, kvs: map<Key, Handle>, inst: Instances, next: Handle, c: Contents, k: Key)
    requires Represents(brs, kvs, inst, next, c)
    ensures Represents(brs, kvs - {k}, inst, next, c.(layers := c.layers - {k}))
  {
    Detach(kvs, inst, k);
  }

  lemma DetachHistory(brs: map<BrId, Handle>, kvs: map<Key, Handle>, inst: Instances, next: Handle, c: Contents,
                      b: BrId)
    requires Represents(brs, kvs, inst, next, c) && b in brs
    ensures Represents(brs - {b}, kvs, inst, next, c.(histories := c.histories - {b}))
    ensures brs[b] in inst && brs[b] !in (brs - {b}).Values && brs[b] !in kvs.Values
  {
    Detach(brs, inst, b);
    assert KeySets(Behind(brs, inst) - {b}) == c.histories - {b};
  }
}
