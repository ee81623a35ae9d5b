/** What the loops of the versioned map have done part-way, and what one more round adds. */
module Steps {
  import opened Basics
  import opened OrderedSets
  import opened VersionState
  import opened VersionInvariants

  /** Scanning a layer downwards from `v`, the first version on the branch is the newest visible one. */
  lemma ScanFinds(m: Layer, on: set<VerId>, v: VerId, q: seq<VerId>, i: nat)
    requires q == Ids(set u | u in m && u <= v) && i < |q|
    requires q[i] in on && forall j :: i < j < |q| ==> q[j] !in on
    ensures q[i] in m && Lookup(m, on, v) == Present(m[q[i]])
  {
    assert q[i] in q;
    assert q[i] in Visible(m, on, v);
    forall u | u in Visible(m, on, v)
      ensures u <= q[i]
    {
      assert u in q;
      var j :| 0 <= j < |q| && q[j] == u;
      assert j <= i;
    }
  }

  lemma ScanMisses(m: Layer, on: set<VerId>, v: VerId, q: seq<VerId>)
    requires q == Ids(set u | u in m && u <= v) && forall j :: 0 <= j < |q| ==> q[j] !in on
    ensures Lookup(m, on, v) == None
  {
    assert forall u :: u in Visible(m, on, v) ==> u in q;
    assert Visible(m, on, v) == {};
  }

  lemma LastIsMax(q: seq<nat>, s: set<nat>)
    requires q == Ids(s) && q != []
    ensures s != {} && q[|q| - 1] == Max(s)
  {
    assert q[|q| - 1] in q;
    assert Max(s) in q;
  }

  function AsSet(q: seq<VerId>): set<VerId> {
    set v | v in q
  }

  /** The change sets with more keys for `v`, which is expected to have one. */
  function AddKeys(chg: map<VerId, set<Key>>, v: VerId, ks: set<Key>): map<VerId, set<Key>> {
    if v in chg then chg[v := chg[v] + ks] else chg
  }

  // ---------- merging the changes of a version into another ----------

  /** The entry at `from` moved to `to`, replacing what was there. */
  function Moved(m: Layer, from: VerId, to: VerId): Layer
    requires from in m
  {
    (m - {from})[to := m[from]]
  }

  ghost function CollapseAll(kv: map<Key, Layer>, d: set<VerId>, r: VerId): map<Key, Layer> {
    map k | k in kv :: Collapse(kv[k], d, r)
  }

  /** `d` merged everywhere, and `v` too for the keys `done`. */
  ghost function PartlyCollapsed(kv: map<Key, Layer>, d: set<VerId>, v: VerId, done: set<Key>, r: VerId)
      : map<Key, Layer>
  {
    map k | k in kv :: Collapse(kv[k], if k in done then d + {v} else d, r)
  }

  lemma CollapseStep(m: Layer, d: set<VerId>, v: VerId, r: VerId)
    requires r !in d && v != r && forall u :: u in d ==> u < v
    ensures v in m ==> v in Collapse(m, d, r) && Collapse(m, d, r)[v] == m[v]
    ensures v in m ==> Collapse(m, d + {v}, r) == Moved(Collapse(m, d, r), v, r)
    ensures v !in m ==> Collapse(m, d + {v}, r) == Collapse(m, d, r)
  {
    CollapseFacts(m, d, r);
    CollapseFacts(m, d + {v}, r);
    if v in m {
      assert v in m.Keys * (d + {v});
      assert Max(m.Keys * (d + {v})) == v;
    } else {
      assert m.Keys * (d + {v}) == m.Keys * d;
      assert m - (d + {v}) == m - d;
    }
  }

  lemma PartlyCollapsedStep(kv: map<Key, Layer>, d: set<VerId>, v: VerId, done: set<Key>, r: VerId, k: Key)
    requires r !in d && v != r && (forall u :: u in d ==> u < v)
    requires k in kv && v in kv[k] && k !in done
    ensures var part := PartlyCollapsed(kv, d, v, done, r);
      && k in part && v in part[k]
      && PartlyCollapsed(kv, d, v, done + {k}, r) == part[k := Moved(part[k], v, r)]
  {
    CollapseStep(kv[k], d, v, r);
  }

  lemma PartlyCollapsedAll(kv: map<Key, Layer>, d: set<VerId>, v: VerId, ks: set<Key>, r: VerId)
    requires r !in d && v != r && (forall u :: u in d ==> u < v)
    requires ks == set k | k in kv && v in kv[k]
    ensures PartlyCollapsed(kv, d, v, {}, r) == CollapseAll(kv, d, r)
    ensures PartlyCollapsed(kv, d, v, ks, r) == CollapseAll(kv, d + {v}, r)
  {
    forall k | k in kv && k !in ks
      ensures Collapse(kv[k], d + {v}, r) == Collapse(kv[k], d, r)
    {
      CollapseStep(kv[k], d, v, r);
    }
  }

  lemma CollapseNothing(s: State, r: VerId)
    ensures CollapseAll(s.kv, {}, r) == s.kv
    ensures ChangedBy(s, {}) == {}
  {
  }

  /** The keys a version changed, read off the index. */
  lemma IndexedChanges(s: State, v: VerId)
    requires IndexAgrees(s) && v in s.chg
    ensures s.chg[v] == set k | k in s.kv && v in s.kv[k]
  {
  }

  lemma ChangedByStep(s: State, d: set<VerId>, v: VerId)
    requires IndexAgrees(s) && v in s.chg
    ensures ChangedBy(s, d + {v}) == ChangedBy(s, d) + s.chg[v]
  {
    forall k
      ensures k in ChangedBy(s, d + {v}) <==> k in ChangedBy(s, d) + s.chg[v]
    {
      if k in s.kv {
        assert s.kv[k].Keys * (d + {v}) == s.kv[k].Keys * d + (if v in s.kv[k] then {v} else {});
      }
    }
  }

  lemma FreeNameStep(names: map<Name, VerId>, ids: map<VerId, Name>, d: set<VerId>, v: VerId)
    requires MutuallyInverse(names, ids) && v in ids && v !in d
    ensures ids[v] in WithoutIds(names, d)
    ensures WithoutIds(names, d + {v}) == WithoutIds(names, d) - {ids[v]}
    ensures ids - (d + {v}) == ids - d - {v}
  {
    assert names[ids[v]] == v;
    forall a | a in names && names[a] == v
      ensures a == ids[v]
    {
    }
  }

  lemma FreeNothing(s: State)
    ensures WithoutIds(s.verNameToId, {}) == s.verNameToId && s.verIdToName - {} == s.verIdToName
  {
  }

  lemma RebaseNothing(s: State, base: VerId, b: BrId)
    requires Inv(s) && b in s.brVers && base in s.brVers[b]
    ensures RebaseOnto(s, base, b, {}) == s
  {
    var t := RebaseOnto(s, base, b, {});
    CollapseNothing(s, base);
    FreeNothing(s);
    assert s.chg[base] + {} == s.chg[base];
    assert s.brVers[b] - {} == s.brVers[b];
    assert t.kv == s.kv;
    assert t.chg == s.chg;
    assert t.brVers == s.brVers;
  }

  /** One more version rebased, table by table. */
  lemma RebaseStep(s: State, base: VerId, b: BrId, d: set<VerId>, v: VerId)
    requires Inv(s) && b in s.brVers && base in s.brVers[b] && v in s.brVers[b]
    requires base !in d && base != v && v !in d
    ensures var t := RebaseOnto(s, base, b, d);
      && b in t.brVers && v in t.brVers[b] && base in t.chg && v in t.chg && v in t.verIdToName
      && t.verIdToName[v] in t.verNameToId
      && t.chg[v] == (set k | k in s.kv && v in s.kv[k])
      && t.kv == CollapseAll(s.kv, d, base)
      && RebaseOnto(s, base, b, d + {v}) ==
         t.(brVers := t.brVers[b := t.brVers[b] - {v}],
            kv := CollapseAll(s.kv, d + {v}, base),
            chg := (t.chg - {v})[base := t.chg[base] + t.chg[v]],
            verIdToName := t.verIdToName - {v},
            verNameToId := t.verNameToId - {t.verIdToName[v]})
  {
    RebaseStepTables(s, base, b, d, v);
    assert v in s.chg && v in s.verIdToName;
    FreeNameStep(s.verNameToId, s.verIdToName, d, v);
    IndexedChanges(s, v);
  }

  lemma RebaseStepTables(s: State, base: VerId, b: BrId, d: set<VerId>, v: VerId)
    requires Inv(s) && b in s.brVers && base in s.brVers[b] && v in s.brVers[b]
    requires base !in d && base != v && v !in d
    ensures var t := RebaseOnto(s, base, b, d); var u := RebaseOnto(s, base, b, d + {v});
      && base in t.chg && v in t.chg && t.chg[v] == s.chg[v]
      && u.chg == (t.chg - {v})[base := t.chg[base] + s.chg[v]]
      && u.brVers == t.brVers[b := t.brVers[b] - {v}]
  {
    assert v in s.chg && base in s.chg;
    ChangedByStep(s, d, v);
    assert s.chg[base] + (ChangedBy(s, d) + s.chg[v]) == s.chg[base] + ChangedBy(s, d) + s.chg[v];
    assert s.brVers[b] - (d + {v}) == s.brVers[b] - d - {v};
  }

  /** Of the versions from the base on, the base must come first; the rest are those to be merged. */
  lemma RestIsAfter(s: State, b: BrId, base: VerId, q: seq<VerId>)
    requires b in s.brVers && q == Ids(set u | u in s.brVers[b] && base <= u)
    ensures base in s.brVers[b] <==> q != [] && q[0] == base
    ensures q != [] && q[0] == base ==>
      AsSet(q[1..]) == After(s, b, base) && base !in q[1..] && forall v :: v in q[1..] ==> v in s.brVers[b]
  {
    assert q != [] ==> q[0] in q;
    if base in s.brVers[b] {
      assert base in q;
      forall v
        ensures v in q[1..] <==> v in After(s, b, base)
      {
        if v in After(s, b, base) { assert v in q; }
        if v in q[1..] { assert v in q; }
      }
    }
  }

  // ---------- erasing a version ----------

  ghost function PartlyErased(kv: map<Key, Layer>, v: VerId, done: set<Key>): map<Key, Layer> {
    map k | k in kv :: if k in done then kv[k] - {v} else kv[k]
  }

  lemma PartlyErasedAll(kv: map<Key, Layer>, v: VerId, ks: set<Key>)
    requires ks == set k | k in kv && v in kv[k]
    ensures PartlyErased(kv, v, {}) == kv
    ensures PartlyErased(kv, v, ks) == map k | k in kv :: kv[k] - {v}
  {
    forall k | k in kv && k !in ks
      ensures kv[k] - {v} == kv[k]
    {
    }
  }

  ghost function WithoutOn(h: Histories, d: set<VerId>, bs: set<BrId>): Histories {
    map b | b in h :: if b in bs then h[b] - d else h[b]
  }

  lemma WithoutOnStep(h: Histories, d: set<VerId>, bs: set<BrId>, b: BrId)
    requires b in h && b !in bs
    ensures var g := WithoutOn(h, d, bs);
      b in g && g[b] == h[b] && WithoutOn(h, d, bs + {b}) == g[b := g[b] - d]
  {
  }

  lemma WithoutOnNone(h: Histories, d: set<VerId>)
    ensures WithoutOn(h, d, {}) == h
  {
  }

  // ---------- purging dead versions ----------

  /** An entry removed, and its layer with it if that was the last. */
  ghost function RemoveEntry(kv: map<Key, Layer>, k: Key, v: VerId): map<Key, Layer>
    requires k in kv
  {
    if kv[k] - {v} == map[] then kv - {k} else kv[k := kv[k] - {v}]
  }

  /** `d` purged everywhere, and `v` too for the keys `done`. */
  ghost function PartlyPurged(kv: map<Key, Layer>, d: set<VerId>, v: VerId, done: set<Key>): map<Key, Layer> {
    map k | k in kv && Kept(kv[k], if k in done then d + {v} else d) :: kv[k] - (if k in done then d + {v} else d)
  }

  lemma PartlyPurgedStep(kv: map<Key, Layer>, d: set<VerId>, v: VerId, done: set<Key>, k: Key)
    requires k in kv && v in kv[k] && k !in done && v !in d
    ensures var part := PartlyPurged(kv, d, v, done);
      && k in part && v in part[k]
      && PartlyPurged(kv, d, v, done + {k}) == RemoveEntry(part, k, v)
  {
    var part := PartlyPurged(kv, d, v, done);
    assert v in kv[k].Keys;
    assert kv[k] - (d + {v}) == part[k] - {v};
    assert Kept(kv[k], d + {v}) <==> part[k] - {v} != map[] by {
      assert kv[k].Keys <= d + {v} <==> (kv[k] - (d + {v})).Keys == {};
    }
  }

  lemma PartlyPurgedAll(kv: map<Key, Layer>, d: set<VerId>, v: VerId, ks: set<Key>)
    requires ks == set k | k in kv && v in kv[k]
    ensures PartlyPurged(kv, d, v, {}) == PurgeLayers(kv, d)
    ensures PartlyPurged(kv, d, v, ks) == PurgeLayers(kv, d + {v})
  {
    forall k | k in kv && k !in ks
      ensures kv[k] - (d + {v}) == kv[k] - d
      ensures Kept(kv[k], d + {v}) <==> Kept(kv[k], d)
    {
      assert v !in kv[k].Keys;
    }
  }

  lemma PurgeNoLayers(kv: map<Key, Layer>)
    ensures PurgeLayers(kv, {}) == kv
  {
    assert forall k :: k in kv ==> Kept(kv[k], {}) && kv[k] - {} == kv[k];
  }

  /** The state with the versions `d` freed from the index and the names, layers aside. */
  ghost function Freed(s: State, d: set<VerId>): State {
    s.(chg := s.chg - d, verIdToName := s.verIdToName - d, verNameToId := WithoutIds(s.verNameToId, d))
  }

  lemma FreedStep(s: State, d: set<VerId>, v: VerId)
    requires Inv(s) && v in s.chg && v !in d
    ensures var t := Freed(s, d);
      && v in t.chg && v in t.verIdToName && t.verIdToName[v] in t.verNameToId
      && Freed(s, d + {v}) == t.(chg := t.chg - {v}, verIdToName := t.verIdToName - {v},
                                 verNameToId := t.verNameToId - {t.verIdToName[v]})
    ensures Freed(s, {}) == s
  {
    FreeNameStep(s.verNameToId, s.verIdToName, d, v);
    assert s.chg - (d + {v}) == s.chg - d - {v};
    FreedNothing(s);
  }

  lemma FreedNothing(s: State)
    ensures Freed(s, {}) == s
  {
    FreeNothing(s);
    assert s.chg - {} == s.chg;
  }

  /** Reverting, table by table. */
  lemma RevertFacts(s: State, v: VerId)
    requires Inv(s)
    ensures Inv(Revert(s, v).state)
    ensures v !in s.chg ==> Revert(s, v) == Outcome(s, Fail(VersionNotFound))
    ensures v in s.chg ==>
      && s.chg[v] == (set k | k in s.kv && v in s.kv[k])
      && v in s.verIdToName && s.verIdToName[v] in s.verNameToId
      && Revert(s, v) ==
         Outcome(s.(kv := PartlyErased(s.kv, v, s.chg[v]),
                    chg := s.chg - {v},
                    brVers := WithoutOn(s.brVers, {v}, s.brVers.Keys),
                    verIdToName := s.verIdToName - {v},
                    verNameToId := s.verNameToId - {s.verIdToName[v]}),
                 Done)
  {
    RevertInv(s, v);
    if v in s.chg {
      PartlyErasedAll(s.kv, v, s.chg[v]);
      FreeNameStep(s.verNameToId, s.verIdToName, {}, v);
      FreeNothing(s);
      assert {} + {v} == {v};
    }
  }

  // ---------- compacting ----------

  /** The tombstones among the merged entries of the keys `done` dropped, the empty layers still in place. */
  ghost function PartlyDropped(kv: map<Key, Layer>, d: set<VerId>, r: VerId, done: set<Key>): map<Key, Layer> {
    map k | k in kv :: if k in done then CompactLayer(kv[k], d, r) else Collapse(kv[k], d, r)
  }

  /** A tombstone at the bottom dropped. */
  function Dropped(m: Layer, r: VerId): Layer {
    if r in m && m[r] == NULL then m - {r} else m
  }

  lemma PartlyDroppedStep(s: State, d: set<VerId>, r: VerId, done: set<Key>, k: Key)
    requires r !in d && k in ChangedBy(s, d) && k !in done
    ensures var part := PartlyDropped(s.kv, d, r, done);
      && k in part && r in part[k]
      && (part[k][r] == NULL <==> k in Tombs(s, d))
      && PartlyDropped(s.kv, d, r, done + {k}) == part[k := Dropped(part[k], r)]
  {
    CollapseFacts(s.kv[k], d, r);
  }

  lemma CompactIsDropped(s: State, d: set<VerId>, r: VerId, kvs: map<Key, Layer>, empties: set<Key>)
    requires kvs == PartlyDropped(s.kv, d, r, ChangedBy(s, d))
    requires empties == EmptyLayers(kvs, ChangedBy(s, d))
    ensures kvs - empties == Compact(s, d, r).kv
  {
    forall k | k in s.kv && k !in ChangedBy(s, d)
      ensures CompactLayer(s.kv[k], d, r) == Collapse(s.kv[k], d, r)
    {
    }
  }

  lemma OrphansAreDead(s: State, orphans: seq<VerId>)
    requires orphans == Ids(s.chg.Keys - Live(s))
    ensures AsSet(orphans) == Dead(s) && forall v :: v in orphans ==> v in s.chg
  {
  }

  lemma CleanUpFacts(s: State)
    requires Inv(s)
    ensures Inv(CleanUp(s))
    ensures CleanUp(s) == Freed(s, Dead(s)).(kv := PurgeLayers(s.kv, Dead(s)))
  {
    CleanUpInv(s);
  }

  // ---------- pruning ----------

  lemma EmptyBranchesShareNothing(s: State)
    requires forall b :: b in s.brVers ==> s.brVers[b] == {}
    ensures Common(s) == {}
  {
    assert Live(s) == {};
  }

  lemma OutdatedSlice(s: State, reserved: nat, p: seq<VerId>)
    requires p == Ids(Common(s)) && 0 < reserved < |p|
    ensures reserved < |Common(s)| && AsSet(p[1..|p| - reserved + 1]) == Outdated(s, reserved)
  {
    var q := p[1..|p| - reserved + 1];
    forall v
      ensures v in AsSet(q) <==> v in Outdated(s, reserved)
    {
      if v in q {
        var i :| 0 <= i < |q| && q[i] == v;
        assert p[i + 1] == v;
      }
      if v in Outdated(s, reserved) {
        var i :| 1 <= i <= |p| - reserved && p[i] == v;
        assert q[i - 1] == v;
      }
    }
  }

  lemma OutdatedIsShared(s: State, reserved: nat, v: VerId)
    requires Inv(s) && 0 < reserved < |Common(s)| && v in Outdated(s, reserved)
    ensures v in s.chg && Ids(Common(s))[0] < v && Ids(Common(s))[0] in s.chg
    ensures forall b :: b in s.brVers && s.brVers[b] != {} ==> v in s.brVers[b]
  {
    OutdatedFacts(s, reserved);
    assert InCommon(s, v) && v in Live(s);
    LiveInChangeSets(s, v);
    LiveInChangeSets(s, Ids(Common(s))[0]);
  }

  lemma LiveInChangeSets(s: State, v: VerId)
    requires Inv(s) && v in Live(s)
    ensures v in s.chg
  {
  }

  /** What merging relies on: the merged versions come after the oldest and lie on every non-empty branch. */
  lemma OutdatedReady(s: State, reserved: nat, p: seq<VerId>)
    requires Inv(s) && p == Ids(Common(s)) && 0 < reserved < |p|
    ensures var q := p[1..|p| - reserved + 1];
      && p[0] in s.chg
      && (forall v :: v in q ==> v in s.chg && p[0] < v)
      && (forall b, v :: b in s.brVers && s.brVers[b] != {} && v in q ==> v in s.brVers[b])
  {
    hide Inv, Common, Outdated;
    OutdatedSlice(s, reserved, p);
    var q := p[1..|p| - reserved + 1];
    assert q[0] in AsSet(q);
    forall v | v in q
      ensures v in s.chg && p[0] < v && p[0] in s.chg
      ensures forall b :: b in s.brVers && s.brVers[b] != {} ==> v in s.brVers[b]
    {
      assert v in AsSet(q);
      OutdatedIsShared(s, reserved, v);
    }
    assert q[0] in q;
  }

  lemma WithoutOnNonEmpty(h: Histories, d: set<VerId>, bs: set<BrId>)
    requires bs == set b | b in h && h[b] != {}
    ensures WithoutOn(h, d, bs) == map b | b in h :: h[b] - d
  {
    assert forall b :: b in h && b !in bs ==> h[b] - d == h[b];
  }

  lemma DropNothing(s: State, d: set<VerId>, r: VerId)
    ensures PartlyDropped(s.kv, d, r, {}) == CollapseAll(s.kv, d, r)
  {
  }

  lemma TombsAreChanged(s: State, d: set<VerId>)
    ensures Tombs(s, d) <= ChangedBy(s, d)
  {
  }

  function RemoveKey(chg: map<VerId, set<Key>>, v: VerId, k: Key): map<VerId, set<Key>> {
    if v in chg then chg[v := chg[v] - {k}] else chg
  }

  function EmptyLayers(kv: map<Key, Layer>, ks: set<Key>): set<Key> {
    set k | k in ks && k in kv && kv[k] == map[]
  }

  lemma EmptyLayersStep(kv: map<Key, Layer>, ks: set<Key>, k: Key, m: Layer)
    requires k !in ks
    ensures EmptyLayers(kv[k := m], ks + {k}) == EmptyLayers(kv, ks) + (if m == map[] then {k} else {})
  {
  }

  /** Compacting, table by table. */
  lemma CompactFacts(s: State, d: set<VerId>, r: VerId, bs: set<BrId>)
    requires r in s.chg && r !in d && bs == set b | b in s.brVers && s.brVers[b] != {}
    ensures var ks := ChangedBy(s, d); var kvs := PartlyDropped(s.kv, d, r, ks);
      Compact(s, d, r) ==
        s.(brVers := WithoutOn(s.brVers, d, bs),
           kv := kvs - EmptyLayers(kvs, ks),
           chg := (s.chg - d)[r := s.chg[r] + ks - Tombs(s, d)])
  {
    var ks := ChangedBy(s, d);
    var kvs := PartlyDropped(s.kv, d, r, ks);
    CompactIsDropped(s, d, r, kvs, EmptyLayers(kvs, ks));
    WithoutOnNonEmpty(s.brVers, d, bs);
    assert Compact(s, d, r).chg == (s.chg - d)[r := s.chg[r] + ks - Tombs(s, d)];
  }

  // ---------- branches ----------

  /** Removing a branch, table by table. */
  lemma RemoveBranchFacts(s: State, b: BrId)
    requires Inv(s)
    ensures Inv(RemoveBranch(s, b).state)
    ensures b !in s.brVers ==> RemoveBranch(s, b) == Outcome(s, Fail(BranchNotFound))
    ensures b in s.brVers ==>
      && b in s.brIdToName && s.brIdToName[b] in s.brNameToId
      && RemoveBranch(s, b) ==
         Outcome(s.(brVers := s.brVers - {b}, brIdToName := s.brIdToName - {b},
                    brNameToId := s.brNameToId - {s.brIdToName[b]}),
                 Done)
  {
    RemoveBranchInv(s, b);
    if b in s.brVers {
      assert WithoutIds(s.brNameToId, {b}) == s.brNameToId - {s.brIdToName[b]};
    }
  }

  lemma NamedBranchExists(s: State, n: Name)
    requires Inv(s) && n in s.brNameToId
    ensures s.brNameToId[n] in s.brVers && s.brNameToId[n] in s.brIdToName
  {
  }

  lemma BranchesAreNamed(s: State)
    requires Inv(s)
    ensures s.brIdToName.Keys == s.brVers.Keys
  {
  }

  lemma RemoveNoBranches(s: State)
    ensures RemoveBranches(s, {}) == s
  {
    assert s.brVers - {} == s.brVers && s.brIdToName - {} == s.brIdToName;
    assert WithoutIds(s.brNameToId, {}) == s.brNameToId;
  }

  lemma RemoveBranchesStep(s: State, d: set<BrId>, b: BrId)
    requires b in s.brVers && b !in d
    ensures RemoveBranch(RemoveBranches(s, d), b) == Outcome(RemoveBranches(s, d + {b}), Done)
  {
    assert s.brVers - (d + {b}) == s.brVers - d - {b};
    assert s.brIdToName - (d + {b}) == s.brIdToName - d - {b};
    assert WithoutIds(s.brNameToId, d + {b}) == WithoutIds(WithoutIds(s.brNameToId, d), {b});
  }

  lemma VacatedFacts(s: State, brName: Name, force: bool)
    requires Inv(s)
    ensures Vacated(s, brName, force).nextVer == s.nextVer
    ensures forall b :: b in Vacated(s, brName, force).brVers ==>
      b in s.brVers && Vacated(s, brName, force).brVers[b] == s.brVers[b]
  {
  }

  /** Creating a branch, case by case. */
  lemma CreateBranchFacts(s: State, brName: Name, verName: Option<Name>, base: BrId, from: ForkPoint, force: bool)
    requires Inv(s) && (verName.Some? ==> s.nextVer < VER_ID_MAX)
    ensures var o := CreateBranch(s, brName, verName, base, from, force); var t := Vacated(s, brName, force);
      && Inv(o.state)
      && (verName.Some? && verName.value in s.verNameToId ==> o == Outcome(s, Fail(VersionExists)))
      && (!(verName.Some? && verName.value in s.verNameToId) ==>
           && (from.Head? && base !in s.brVers ==> o == Outcome(s, Fail(BaseBranchNotFound)))
           && (!(from.Head? && base !in s.brVers) ==>
                && (brName in t.brNameToId ==> o == Outcome(t, Fail(BranchExists)))
                && (brName !in t.brNameToId && base !in t.brVers ==> o == Outcome(t, Fail(BaseBranchNotFound)))
                && (brName !in t.brNameToId && base in t.brVers ==> o == Fork(t, brName, verName, base, from))))
  {
    CreateBranchInv(s, brName, verName, base, from, force);
  }

  lemma ForkedVersionsAre(s: State, base: BrId, from: ForkPoint, vs: set<VerId>)
    requires base in s.brVers
    requires from.At? ==> vs == UpTo(s.brVers[base], from.ver)
    requires from.Head? ==> vs == if s.brVers[base] == {} then {} else UpTo(s.brVers[base], Max(s.brVers[base]))
    ensures vs == ForkedVersions(s, base, from)
  {
  }

  lemma ForkInv(s: State, brName: Name, vs: set<VerId>, base: BrId)
    requires Inv(s) && brName !in s.brNameToId && base in s.brVers && vs <= s.brVers[base]
    ensures Inv(AddBranch(s, brName, vs)) && s.nextBr !in s.brVers && AddBranch(s, brName, vs).nextVer == s.nextVer
  {
    assert vs <= s.chg.Keys;
    AddBranchInv(s, brName, vs);
  }

  // ---------- merging version lists ----------

  /** The versions of the source after the fork point are all that the target lacks. */
  lemma RestCompletes(q: seq<VerId>, t: seq<VerId>, i: nat)
    requires i <= |q| && i <= |t| && q[..i] == t[..i]
    ensures AsSet(t) + AsSet(q[i..]) == AsSet(t) + AsSet(q)
  {
    forall v | v in q
      ensures v in t || v in q[i..]
    {
      var j :| 0 <= j < |q| && q[j] == v;
      if j < i { assert t[..i][j] == v; } else { assert q[i..][j - i] == v; }
    }
  }

  /** One list is a beginning of the other; the last versions tell which. */
  lemma LastDecides(q: seq<VerId>, t: seq<VerId>, i: nat)
    requires q != [] && t != [] && i <= |q| && i <= |t| && q[..i] == t[..i] && (i == |q| || i == |t|)
    requires (forall j, k :: 0 <= j < k < |q| ==> q[j] < q[k]) && (forall j, k :: 0 <= j < k < |t| ==> t[j] < t[k])
    ensures q[|q| - 1] > t[|t| - 1] ==> i == |t|
    ensures q[|q| - 1] <= t[|t| - 1] ==> AsSet(t) + AsSet(q) == AsSet(t)
  {
    assert i == |q| ==> q[|q| - 1] == t[|q| - 1];
    assert i == |t| ==> t[|t| - 1] == q[|t| - 1];
    if q[|q| - 1] <= t[|t| - 1] {
      assert i == |q|;
      RestCompletes(q, t, i);
      assert AsSet(t) + AsSet([]) == AsSet(t);
    }
  }

  /** Past the target's last version, the source has all that the target lacks. */
  lemma NewerCompletes(q: seq<VerId>, t: seq<VerId>, last: VerId, newer: set<VerId>)
    requires q != [] && t != [] && |t| <= |q| && q[..|t|] == t && last == t[|t| - 1]
    requires forall j, k :: 0 <= j < k < |q| ==> q[j] < q[k]
    requires newer == set u | u in q && last < u
    ensures AsSet(t) + AsSet(Ids(newer)) == AsSet(t) + AsSet(q)
  {
    forall v | v in q
      ensures v in t || v in newer
    {
      var j :| 0 <= j < |q| && q[j] == v;
      if j < |t| { assert t[j] == v; } else { assert q[|t| - 1] == last; }
    }
  }

  lemma SameListUnchanged(h: Histories, target: BrId, t: seq<VerId>, q: seq<VerId>)
    requires target in h && AsSet(t) == h[target]
    ensures q == [] || AsSet(t) + AsSet(q) == AsSet(t) ==> h[target := AsSet(t) + AsSet(q)] == h
  {
    assert q == [] ==> AsSet(t) + AsSet(q) == AsSet(t);
  }

  lemma MergeFacts(s: State, b: BrId, target: BrId, force: bool)
    requires Inv(s)
    ensures Inv(Merge(s, b, target, force).state)
    ensures b !in s.brVers ==> Merge(s, b, target, force) == Outcome(s, Fail(BranchNotFound))
    ensures b in s.brVers && target !in s.brVers ==>
      Merge(s, b, target, force) == Outcome(s, Fail(TargetBranchNotFound))
    ensures b in s.brVers && target in s.brVers ==>
      Merge(s, b, target, force) ==
        if !force && s.brVers[target] != {} && Max(s.brVers[target]) !in s.brVers[b] then
          Outcome(s, Fail(UnableToMergeSafely))
        else Outcome(s.(brVers := s.brVers[target := s.brVers[target] + s.brVers[b]]), Done)
  {
    MergeInv(s, b, target, force);
  }

  // ---------- copying ----------

  lemma NothingCopied(q: seq<VerId>)
    ensures var none: Layer := map[]; none.Keys == AsSet(q[..0])
  {
    var none: Layer := map[];
    assert none.Keys == {};
  }

  lemma OneMoreCopied(m: Layer, q: seq<VerId>, i: nat)
    requires i < |q| && m.Keys == AsSet(q[..i])
    ensures m[q[i] := NULL].Keys == AsSet(q[..i + 1])
  {
    assert q[..i + 1] == q[..i] + [q[i]];
  }

  lemma AllCopied(q: seq<VerId>, vs: set<VerId>, v: VerId)
    requires forall u :: u in q <==> u in vs && u <= v
    ensures AsSet(q[..|q|]) == UpTo(vs, v)
  {
    assert q[..|q|] == q;
  }
}
