/** Dropping the derived tables and rebuilding them from what is stored. */
module Reloading {
  import opened VersionState
  import opened VersionInvariants
  import opened Compaction

  lemma InverseIs<A(!new), B(!new)>(f: map<A, B>, g: map<B, A>)
    requires MutuallyInverse(f, g)
    ensures Inverse(f) == g
  {
    forall b | b in g
      ensures b in f.Values
    {
      assert f[g[b]] == b;
    }
  }

  ghost function Orphans(s: State): set<VerId> {
    set v | v in Dead(s) && s.chg[v] == {}
  }

  lemma RebuiltIsExceptOrphans(s: State)
    requires Inv(s)
    ensures RebuiltChangeSets(s) == s.chg - Orphans(s)
  {
    var c := RebuiltChangeSets(s);
    LiveIsIndexed(s);
    forall v
      ensures v in c <==> v in s.chg && v !in Orphans(s)
    {
      if v in s.chg && s.chg[v] != {} {
        var k :| k in s.chg[v];
        assert k in s.kv && v in s.kv[k];
      }
    }
    forall v | v in c
      ensures c[v] == s.chg[v]
    {
      assert forall k :: k in c[v] <==> k in s.chg[v];
    }
  }

  /** Reloading recovers everything except the dead versions that changed no key. */
  lemma ReloadRoundTrip(s: State)
    requires Inv(s)
    ensures Reload(s) == s.(chg := s.chg - Orphans(s))
    ensures Inv(Reload(s))
  {
    InverseIs(s.brNameToId, s.brIdToName);
    InverseIs(s.verNameToId, s.verIdToName);
    RebuiltIsExceptOrphans(s);
    var t := s.(chg := s.chg - Orphans(s));
    forall b, v | b in t.brVers && v in t.brVers[b]
      ensures v in t.chg
    {
      assert v in s.chg && v in Live(s);
    }
  }

  /** After a clean-up there is nothing to lose. */
  lemma ReloadAfterCleanUpIsExact(s: State)
    requires Inv(s)
    ensures Reload(CleanUp(s)) == CleanUp(s)
  {
    CleanUpInv(s);
    LiveIsIndexed(s);
    ReloadRoundTrip(CleanUp(s));
    assert Orphans(CleanUp(s)) == {};
    assert CleanUp(s).chg - {} == CleanUp(s).chg;
  }

  /** What is lost matters to clean-up only: the names of forgotten versions are never freed. Cleaning up
      after a reload gives the same state as cleaning up before it exactly when nothing was forgotten. */
  lemma ReloadLosesNamesExactly(s: State)
    requires Inv(s)
    ensures CleanUp(Reload(s)) == CleanUp(s) <==> Orphans(s) == {}
  {
    ReloadRoundTrip(s);
    if v :| v in Orphans(s) {
      assert v in s.verIdToName;
      assert v in CleanUp(Reload(s)).verIdToName;
      assert v !in CleanUp(s).verIdToName;
    } else {
      assert Reload(s).chg == s.chg;
    }
  }

  // ---------- the rebuilding loops ----------

  /** The change sets found so far: `live` versions have one, and the keys `ks` are entered, as is `k` at `vs`. */
  ghost function PartlyRebuilt(live: set<VerId>, kv: map<Key, Layer>, ks: set<Key>, k: Key, vs: set<VerId>)
      : map<VerId, set<Key>>
  {
    map v | v in live + EntryVersions(kv, ks) + vs
      :: KeysAt(kv, ks, v) + (if v in vs then {k} else {})
  }

  ghost function KeysAt(kv: map<Key, Layer>, ks: set<Key>, v: VerId): set<Key> {
    set l | l in ks && l in kv && v in kv[l]
  }

  ghost function EntryVersions(kv: map<Key, Layer>, ks: set<Key>): set<VerId> {
    set k, v | k in ks && k in kv && v in kv[k] :: v
  }

  /** Enters a key at a version, which gets a change set if it has none. */
  function Enter(chg: map<VerId, set<Key>>, v: VerId, k: Key): map<VerId, set<Key>> {
    chg[v := (if v in chg then chg[v] else {}) + {k}]
  }

  lemma EnterStep(live: set<VerId>, kv: map<Key, Layer>, ks: set<Key>, k: Key, vs: set<VerId>, v: VerId)
    requires v !in vs
    ensures PartlyRebuilt(live, kv, ks, k, vs + {v}) == Enter(PartlyRebuilt(live, kv, ks, k, vs), v, k)
  {
    var c := PartlyRebuilt(live, kv, ks, k, vs);
    var d := PartlyRebuilt(live, kv, ks, k, vs + {v});
    var t := KeysAt(kv, ks, v);
    assert v !in c ==> t == {} by {
      if l :| l in t { assert v in EntryVersions(kv, ks); }
    }
    assert d[v] == t + {k} && (v in c ==> c[v] == t);
    assert d.Keys == c.Keys + {v};
    assert forall u :: u in c && u != v ==> d[u] == c[u];
  }

  lemma OneKeyMore(kv: map<Key, Layer>, ks: set<Key>, k: Key, v: VerId)
    requires k in kv
    ensures KeysAt(kv, ks + {k}, v) == KeysAt(kv, ks, v) + (if v in kv[k] then {k} else {})
    ensures EntryVersions(kv, ks + {k}) == EntryVersions(kv, ks) + kv[k].Keys
  {
  }

  lemma KeyRebuilt(live: set<VerId>, kv: map<Key, Layer>, ks: set<Key>, k: Key)
    requires k in kv && k !in ks
    ensures PartlyRebuilt(live, kv, ks, k, kv[k].Keys) == PartlyRebuilt(live, kv, ks + {k}, k, {})
  {
    hide EntryVersions, KeysAt;
    var c := PartlyRebuilt(live, kv, ks, k, kv[k].Keys);
    var d := PartlyRebuilt(live, kv, ks + {k}, k, {});
    OneKeyMore(kv, ks, k, 0);
    assert c.Keys == d.Keys;
    forall v | v in c
      ensures c[v] == d[v]
    {
      OneKeyMore(kv, ks, k, v);
    }
  }

  /** Which key is being entered does not matter when it is at no version yet. */
  lemma NextKey(live: set<VerId>, kv: map<Key, Layer>, ks: set<Key>, k: Key, l: Key)
    ensures PartlyRebuilt(live, kv, ks, k, {}) == PartlyRebuilt(live, kv, ks, l, {})
  {
  }

  lemma NothingRebuilt(live: set<VerId>, kv: map<Key, Layer>, k: Key)
    ensures PartlyRebuilt(live, kv, {}, k, {}) == map v | v in live :: {}
  {
    var c := PartlyRebuilt(live, kv, {}, k, {});
    assert EntryVersions(kv, {}) == {};
    assert c.Keys == live;
    assert forall v :: v in c ==> c[v] == {};
  }

  lemma AllRebuilt(s: State, k: Key)
    ensures PartlyRebuilt(Live(s), s.kv, s.kv.Keys, k, {}) == RebuiltChangeSets(s)
  {
    assert EntryVersions(s.kv, s.kv.Keys) == set k, v | k in s.kv && v in s.kv[k] :: v;
    forall v | v in Recorded(s)
      ensures PartlyRebuilt(Live(s), s.kv, s.kv.Keys, k, {})[v] == RebuiltChangeSets(s)[v]
    {
    }
  }

  /** Turns a table of ids by name into one of names by id. */
  method Invert(m: map<Name, nat>, ghost g: map<nat, Name>) returns (r: map<nat, Name>)
    requires MutuallyInverse(m, g)
    ensures r == g == Inverse(m)
  {
    InverseIs(m, g);
    r := map[];
    var todo := m.Keys;
    while todo != {}
      invariant todo <= m.Keys
      invariant forall n :: n in m && n !in todo ==> m[n] in r
      invariant forall i :: i in r ==> i in g && r[i] == g[i]
    {
      var n :| n in todo;
      r := r[m[n] := n];
      todo := todo - {n};
    }
    assert forall i :: i in g ==> g[i] in m && m[g[i]] == i;
    assert r.Keys == g.Keys;
  }

  /** Enters one key at all its versions. */
  method EnterKey(chg: map<VerId, set<Key>>, k: Key, kv: map<Key, Layer>, ghost live: set<VerId>, ghost ks: set<Key>)
      returns (r: map<VerId, set<Key>>)
    requires k in kv && k !in ks && chg == PartlyRebuilt(live, kv, ks, k, {})
    ensures r == PartlyRebuilt(live, kv, ks + {k}, k, {})
  {
    hide PartlyRebuilt;
    r := chg;
    var todo := kv[k].Keys;
    assert kv[k].Keys - todo == {};
    while todo != {}
      invariant todo <= kv[k].Keys
      invariant r == PartlyRebuilt(live, kv, ks, k, kv[k].Keys - todo)
    {
      var v :| v in todo;
      EnterStep(live, kv, ks, k, kv[k].Keys - todo, v);
      assert kv[k].Keys - (todo - {v}) == kv[k].Keys - todo + {v};
      todo := todo - {v};
      r := Enter(r, v, k);
    }
    assert kv[k].Keys - todo == kv[k].Keys;
    KeyRebuilt(live, kv, ks, k);
  }

  /** Rebuilds the change sets from the version lists and the layers. */
  method RebuildChangeSets(histories: Histories, kv: map<Key, Layer>, ghost s: State)
      returns (chg: map<VerId, set<Key>>)
    requires histories == s.brVers && kv == s.kv
    ensures chg == RebuiltChangeSets(s)
  {
    hide RebuiltChangeSets, PartlyRebuilt, Live;
    var live := LiveVersions(histories, s);
    chg := map v | v in live :: {};
    ghost var k0: Key := [];
    NothingRebuilt(live, kv, k0);
    var todo := kv.Keys;
    assert kv.Keys - todo == {};
    while todo != {}
      invariant todo <= kv.Keys
      invariant chg == PartlyRebuilt(live, kv, kv.Keys - todo, k0, {})
    {
      var k :| k in todo;
      NextKey(live, kv, kv.Keys - todo, k0, k);
      chg := EnterKey(chg, k, kv, live, kv.Keys - todo);
      assert kv.Keys - (todo - {k}) == kv.Keys - todo + {k};
      todo := todo - {k};
      NextKey(live, kv, kv.Keys - todo, k, k0);
    }
    assert kv.Keys - todo == kv.Keys;
    AllRebuilt(s, k0);
  }

  method LiveVersions(histories: Histories, ghost s: State) returns (live: set<VerId>)
    requires histories == s.brVers
    ensures live == Live(s)
  {
    live := {};
    var todo := histories.Keys;
    while todo != {}
      invariant todo <= histories.Keys
      invariant live == set b, v | b in histories.Keys - todo && v in histories[b] :: v
    {
      var b :| b in todo;
      live := live + histories[b];
      todo := todo - {b};
    }
    assert histories.Keys - todo == histories.Keys;
  }
}
