/** What every operation keeps, and hence what holds in every state a run can reach. */
module VersionInvariants {
  import opened Basics
  import opened OrderedSets
  import opened VersionState

  lemma CollapseFacts(m: Layer, d: set<VerId>, r: VerId)
    requires r !in d
    ensures m.Keys * d == {} ==> Collapse(m, d, r) == m
    ensures m.Keys * d != {} ==> Collapse(m, d, r).Keys == m.Keys - d + {r}
    ensures m.Keys * d != {} ==> Collapse(m, d, r)[r] == m[Max(m.Keys * d)]
    ensures forall v :: v in m && v !in d && v != r ==> v in Collapse(m, d, r) && Collapse(m, d, r)[v] == m[v]
  {
  }

  lemma InvParts(s: State)
    requires Inv(s)
    ensures IndexAgrees(s) && VersionsKnown(s) && NamesAgree(s) && IdsAllocated(s)
  {
  }

  lemma InitInv(nextBr: BrId, nextVer: VerId)
    requires INITIAL_BRANCH_ID < nextBr && nextVer <= VER_ID_MAX
    ensures Inv(Init(nextBr, nextVer)) && Coherent(Init(nextBr, nextVer).brVers)
  {
  }

  lemma WriteInv(s: State, b: BrId, k: Key, value: Option<Value>)
    requires Inv(s)
    ensures Inv(Write(s, b, k, value).state)
  {
  }

  lemma CreateVersionInv(s: State, name: Name, b: BrId)
    requires Inv(s) && s.nextVer < VER_ID_MAX
    ensures Inv(CreateVersion(s, name, b).state)
  {
    var t := CreateVersion(s, name, b).state;
    forall k, v | k in t.kv && v in t.kv[k]
      ensures v in t.chg && k in t.chg[v]
    {
      assert v in s.chg && k in s.chg[v] && v < s.nextVer;
    }
  }

  lemma PopInv(s: State, b: BrId)
    requires Inv(s)
    ensures Inv(PopVersion(s, b).state)
  {
  }

  lemma RebaseInv(s: State, base: VerId, b: BrId)
    requires Inv(s) && MergedUnshared(s, base, b)
    ensures Inv(Rebase(s, base, b).state)
  {
    if b in s.brVers && base in s.brVers[b] {
      var d := After(s, b, base);
      var t := RebaseOnto(s, base, b, d);
      assert base in s.chg && base !in d;
      forall k, v | k in t.kv && v in t.kv[k]
        ensures v in t.chg && k in t.chg[v]
      {
        assert v in s.kv[k] && v in d ==> v in s.kv[k].Keys * d;
        CollapseFacts(s.kv[k], d, base);
      }
      forall v, k | v in t.chg && k in t.chg[v]
        ensures k in t.kv && v in t.kv[k]
      {
        CollapseFacts(s.kv[k], d, base);
      }
    }
  }

  /** A rebase keeps the tables in agreement exactly if the versions it merges are on no other branch. */
  lemma RebaseKeepsInvExactly(s: State, base: VerId, b: BrId)
    requires Inv(s) && b in s.brVers && base in s.brVers[b]
    ensures Inv(Rebase(s, base, b).state) <==> MergedUnshared(s, base, b)
  {
    if MergedUnshared(s, base, b) {
      RebaseInv(s, base, b);
    } else {
      var t := Rebase(s, base, b).state;
      var c, v :| c in s.brVers && c != b && v in s.brVers[c] && base < v && v in s.brVers[b];
      assert v in t.brVers[c] && v !in t.chg;
    }
  }

  lemma RevertInv(s: State, v: VerId)
    requires Inv(s)
    ensures Inv(Revert(s, v).state)
  {
  }

  lemma PurgeInv(s: State, d: set<VerId>)
    requires Inv(s) && d !! Live(s)
    ensures Inv(Purge(s, d))
  {
    var t := Purge(s, d);
    forall v, k | v in t.chg && k in t.chg[v]
      ensures k in t.kv && v in t.kv[k]
    {
      assert v in s.kv[k] && v !in d;
    }
    forall b, v | b in t.brVers && v in t.brVers[b]
      ensures v in t.chg
    {
      assert v in Live(s);
    }
  }

  lemma CompactIndexAgrees(s: State, d: set<VerId>, r: VerId, k: Key, v: VerId)
    requires Inv(s) && r !in d && r in s.chg
    ensures (k in Compact(s, d, r).kv && v in Compact(s, d, r).kv[k])
       <==> (v in Compact(s, d, r).chg && k in Compact(s, d, r).chg[v])
  {
    var t := Compact(s, d, r);
    if k in s.kv {
      var m := s.kv[k];
      CollapseFacts(m, d, r);
      assert v in m && v in d ==> v in m.Keys * d;
      if m.Keys * d != {} {
        assert k in ChangedBy(s, d);
        assert k in Tombs(s, d) <==> Collapse(m, d, r)[r] == NULL;
        assert v in CompactLayer(m, d, r) ==> CompactLayer(m, d, r) != map[];
        assert k in t.kv && v in t.kv[k] <==> v in CompactLayer(m, d, r);
      } else {
        assert k !in ChangedBy(s, d) && k !in Tombs(s, d);
        assert k in t.kv && t.kv[k] == m;
      }
    }
  }

  lemma CompactKnown(s: State, d: set<VerId>, r: VerId)
    requires Inv(s)
    ensures var t := Compact(s, d, r); VersionsKnown(t) && NamesAgree(t) && IdsAllocated(t)
  {
    assert Compact(s, d, r).chg.Keys == s.chg.Keys - d;
  }

  lemma CompactInv(s: State, d: set<VerId>, r: VerId)
    requires Inv(s) && r !in d && r in s.chg
    ensures Inv(Compact(s, d, r))
  {
    hide Compact;
    CompactKnown(s, d, r);
    var t := Compact(s, d, r);
    forall k, v
      ensures (k in t.kv && v in t.kv[k]) <==> (v in t.chg && k in t.chg[v])
    {
      CompactIndexAgrees(s, d, r, k, v);
    }
  }

  /** Everything the non-empty branches have in common comes before everything else on each of them. */
  lemma CommonIsPrefix(s: State, v: VerId, b: BrId, u: VerId)
    requires v in Common(s) && b in s.brVers && u in s.brVers[b] && u <= v
    ensures u in Common(s)
  {
    forall c, e | c in s.brVers && e in s.brVers && s.brVers[c] != {} && s.brVers[e] != {}
      ensures u in s.brVers[c] && UpTo(s.brVers[c], u) == UpTo(s.brVers[e], u)
    {
      assert UpTo(s.brVers[c], v) == UpTo(s.brVers[b], v);
      assert UpTo(s.brVers[e], v) == UpTo(s.brVers[b], v);
      assert u in UpTo(s.brVers[b], v);
      assert UpTo(s.brVers[c], u) == UpTo(UpTo(s.brVers[c], v), u);
      assert UpTo(s.brVers[e], u) == UpTo(UpTo(s.brVers[e], v), u);
    }
    assert u in Live(s);
  }

  /** What is merged, and onto what: the oldest common version is the oldest of every non-empty branch. */
  lemma OutdatedFacts(s: State, reserved: nat)
    requires 0 < reserved < |Common(s)|
    ensures var r := Ids(Common(s))[0]; var d := Outdated(s, reserved);
      && r in Live(s)
      && (forall u :: u in d ==> r < u && u in Common(s))
      && (forall b, u :: b in s.brVers && u in s.brVers[b] ==> r in s.brVers[b] && r <= u)
  {
    var q := Ids(Common(s));
    var r := q[0];
    assert r in q;
    forall b, u | b in s.brVers && u in s.brVers[b]
      ensures r in s.brVers[b] && r <= u
    {
      if u < r {
        CommonIsPrefix(s, r, b, u);
      }
    }
    forall u | u in Outdated(s, reserved)
      ensures r < u && u in Common(s)
    {
      assert u in q;
    }
  }

  lemma CleanUpInv(s: State)
    requires Inv(s)
    ensures Inv(CleanUp(s))
  {
    PurgeInv(s, Dead(s));
  }

  lemma MergeOutdatedInv(s: State, reserved: nat)
    requires Inv(s) && 0 < reserved < |Common(s)|
    ensures Inv(MergeOutdated(s, reserved))
  {
    OutdatedFacts(s, reserved);
    assert VersionsKnown(s);
    CompactInv(s, Outdated(s, reserved), Ids(Common(s))[0]);
  }

  lemma PruneInv(s: State, n: Option<nat>)
    requires Inv(s)
    ensures Inv(Prune(s, n).state)
  {
    CleanUpInv(s);
    if 0 < Reserved(n) < |Common(CleanUp(s))| { MergeOutdatedInv(CleanUp(s), Reserved(n)); }
  }

  lemma TruncateInv(s: State, b: BrId)
    requires Inv(s)
    ensures Inv(TruncateBranch(s, b).state)
  {
  }

  lemma TruncateToInv(s: State, b: BrId, last: VerId)
    requires Inv(s)
    ensures Inv(TruncateBranchTo(s, b, last).state)
  {
  }

  lemma SetDefaultInv(s: State, b: BrId)
    requires Inv(s)
    ensures Inv(SetDefault(s, b).state)
  {
  }

  lemma RemoveBranchInv(s: State, b: BrId)
    requires Inv(s)
    ensures Inv(RemoveBranch(s, b).state)
  {
  }

  lemma AddBranchInv(s: State, brName: Name, vs: set<VerId>)
    requires Inv(s) && brName !in s.brNameToId && vs <= s.chg.Keys
    ensures Inv(AddBranch(s, brName, vs))
  {
    assert s.nextBr !in s.brIdToName;
  }

  lemma VacatedKeeps(s: State, brName: Name, force: bool)
    requires Inv(s)
    ensures Inv(Vacated(s, brName, force))
    ensures Coherent(s.brVers) ==> Coherent(Vacated(s, brName, force).brVers)
  {
    if force && brName in s.brNameToId { RemoveBranchInv(s, s.brNameToId[brName]); }
  }

  lemma CreateBranchInv(s: State, brName: Name, verName: Option<Name>, base: BrId, from: ForkPoint, force: bool)
    requires Inv(s) && (verName.Some? ==> s.nextVer < VER_ID_MAX)
    ensures Inv(CreateBranch(s, brName, verName, base, from, force).state)
  {
    VacatedKeeps(s, brName, force);
    var t := Vacated(s, brName, force);
    if CanFork(t, brName, base, from) {
      var vs := ForkedVersions(t, base, from);
      assert vs <= t.brVers[base];
      AddBranchInv(t, brName, vs);
      if verName.Some? { CreateVersionInv(AddBranch(t, brName, vs), verName.value, t.nextBr); }
    }
  }

  lemma SwapInv(s: State, n1: Name, n2: Name)
    requires Inv(s)
    ensures Inv(Swap(s, n1, n2).state)
  {
  }

  lemma MergeInv(s: State, b: BrId, target: BrId, force: bool)
    requires Inv(s)
    ensures Inv(Merge(s, b, target, force).state)
  {
  }

  // ---------- prefix coherence ----------

  /** `w` is the beginning of `vs`. */
  ghost predicate IsBeginning(w: set<VerId>, vs: set<VerId>) {
    w <= vs && forall u, x :: u in vs && x in w && u <= x ==> u in w
  }

  /** A branch may be given, or cut back to, the beginning of any branch. */
  lemma CoherentBeginning(h: Histories, b: BrId, c: BrId, w: set<VerId>)
    requires Coherent(h) && c in h && IsBeginning(w, h[c])
    ensures Coherent(h[b := w])
  {
    var g := h[b := w];
    forall x, y, v | x in g && y in g && v in g[x] && v in g[y]
      ensures UpTo(g[x], v) == UpTo(g[y], v)
    {
      assert v in w ==> UpTo(w, v) == UpTo(h[c], v);
      var x' := if x == b then c else x;
      var y' := if y == b then c else y;
      assert UpTo(h[x'], v) == UpTo(h[y'], v);
    }
  }

  lemma UpToWithout(vs: set<VerId>, d: set<VerId>, v: VerId)
    ensures UpTo(vs - d, v) == UpTo(vs, v) - d
  {
  }

  lemma CoherentWithout(h: Histories, d: set<VerId>)
    requires Coherent(h)
    ensures Coherent(map b | b in h :: h[b] - d)
  {
    var g := map b | b in h :: h[b] - d;
    forall b, c, v | b in g && c in g && v in g[b] && v in g[c]
      ensures UpTo(g[b], v) == UpTo(g[c], v)
    {
      assert v in h[b] && v in h[c];
      assert UpTo(h[b], v) == UpTo(h[c], v);
      UpToWithout(h[b], d, v);
      UpToWithout(h[c], d, v);
    }
    assert Coherent(g);
  }

  lemma CoherentNewest(h: Histories, b: BrId, v: VerId)
    requires Coherent(h) && b in h
    requires forall c, u :: c in h && u in h[c] ==> u < v
    ensures Coherent(h[b := h[b] + {v}])
  {
    var g := h[b := h[b] + {v}];
    forall x, y, u | x in g && y in g && u in g[x] && u in g[y]
      ensures UpTo(g[x], u) == UpTo(g[y], u)
    {
      if u != v {
        assert u in h[x] && u in h[y];
        assert UpTo(h[x], u) == UpTo(h[y], u);
        assert UpTo(g[x], u) == UpTo(h[x], u);
        assert UpTo(g[y], u) == UpTo(h[y], u);
      }
    }
  }

  lemma VersionsAllocated(s: State)
    requires Inv(s)
    ensures forall c, u :: c in s.brVers && u in s.brVers[c] ==> u < s.nextVer
    ensures s.nextVer <= VER_ID_MAX
  {
    forall c, u | c in s.brVers && u in s.brVers[c]
      ensures u < s.nextVer
    {
      assert u in s.chg;
    }
  }

  /** A safe merge that succeeds makes the target's version list the source's. */
  lemma SafeMergeAdoptsSource(s: State, b: BrId, target: BrId)
    requires Coherent(s.brVers) && Merge(s, b, target, false).reply == Done
    ensures IsBeginning(s.brVers[target], s.brVers[b])
    ensures Merge(s, b, target, false).state.brVers == s.brVers[target := s.brVers[b]]
  {
    if s.brVers[target] != {} {
      var m := Max(s.brVers[target]);
      assert UpTo(s.brVers[target], m) == s.brVers[target];
      assert UpTo(s.brVers[b], m) == s.brVers[target];
    }
    assert s.brVers[target] + s.brVers[b] == s.brVers[b];
  }

  lemma CreateVersionCoherent(s: State, name: Name, b: BrId)
    requires Inv(s) && Coherent(s.brVers)
    ensures Coherent(CreateVersion(s, name, b).state.brVers)
  {
    VersionsAllocated(s);
    if b in s.brVers { CoherentNewest(s.brVers, b, s.nextVer); }
  }

  lemma CreateBranchCoherent(s: State, brName: Name, verName: Option<Name>, base: BrId, from: ForkPoint, force: bool)
    requires Inv(s) && Coherent(s.brVers)
    ensures Coherent(CreateBranch(s, brName, verName, base, from, force).state.brVers)
  {
    VacatedKeeps(s, brName, force);
    var t := Vacated(s, brName, force);
    if CanFork(t, brName, base, from) {
      var vs := ForkedVersions(t, base, from);
      AddBranchInv(t, brName, vs);
      CoherentBeginning(t.brVers, t.nextBr, base, vs);
      if verName.Some? { CreateVersionCoherent(AddBranch(t, brName, vs), verName.value, t.nextBr); }
    }
  }

  lemma PruneCoherent(s: State, n: Option<nat>)
    requires Coherent(s.brVers)
    ensures Coherent(Prune(s, n).state.brVers)
  {
    var c := CleanUp(s);
    if 0 < Reserved(n) < |Common(c)| { CoherentWithout(s.brVers, Outdated(c, Reserved(n))); }
  }

  lemma MergeCoherent(s: State, b: BrId, target: BrId)
    requires Coherent(s.brVers)
    ensures Coherent(Merge(s, b, target, false).state.brVers)
  {
    if Merge(s, b, target, false).reply == Done {
      SafeMergeAdoptsSource(s, b, target);
      CoherentBeginning(s.brVers, target, b, s.brVers[b]);
    }
  }

  /** No other branch has a version of one of the two that follows a version only the other has. */
  ghost predicate MergesCoherently(h: Histories, b: BrId, target: BrId) {
    b in h && target in h && b != target ==>
      forall c, v :: c in h && c != target && v in h[c] ==>
        && (v in h[target] ==> UpTo(h[b], v) <= h[target])
        && (v in h[b] ==> UpTo(h[target], v) <= h[b])
  }

  lemma JointHistory(vs: set<VerId>, ws: set<VerId>, v: VerId)
    ensures UpTo(vs + ws, v) == UpTo(vs, v) + UpTo(ws, v)
  {
  }

  lemma UnionCoherent(h: Histories, b: BrId, target: BrId)
    requires Coherent(h) && b in h && target in h && b != target && MergesCoherently(h, b, target)
    ensures Coherent(h[target := h[target] + h[b]])
  {
    var g := h[target := h[target] + h[b]];
    forall c, v | c in h && c != target && v in h[c] && v in g[target]
      ensures UpTo(g[target], v) == UpTo(h[c], v)
    {
      JointHistory(h[target], h[b], v);
      if v in h[target] {
        assert UpTo(h[c], v) == UpTo(h[target], v);
        assert UpTo(h[b], v) <= UpTo(h[target], v);
      } else {
        assert UpTo(h[c], v) == UpTo(h[b], v);
        assert UpTo(h[target], v) <= UpTo(h[b], v);
      }
    }
    forall x, y, v | x in g && y in g && v in g[x] && v in g[y]
      ensures UpTo(g[x], v) == UpTo(g[y], v)
    {
      if x != target && y != target { assert UpTo(h[x], v) == UpTo(h[y], v); }
    }
  }

  /** Exactly when taking the union keeps the histories coherent, read off the lists before. */
  lemma UnionCoherentExactly(h: Histories, b: BrId, target: BrId)
    requires Coherent(h) && b in h && target in h
    ensures Coherent(h[target := h[target] + h[b]]) <==> MergesCoherently(h, b, target)
  {
    var g := h[target := h[target] + h[b]];
    if b == target {
      assert h[target] + h[b] == h[target] && g == h;
    } else if MergesCoherently(h, b, target) {
      UnionCoherent(h, b, target);
    } else {
      var c, v :| c in h && c != target && v in h[c]
        && !((v in h[target] ==> UpTo(h[b], v) <= h[target]) && (v in h[b] ==> UpTo(h[target], v) <= h[b]));
      JointHistory(h[target], h[b], v);
      if v in h[target] && !(UpTo(h[b], v) <= h[target]) {
        var u :| u in UpTo(h[b], v) && u !in h[target];
        assert UpTo(h[c], v) == UpTo(h[target], v);
        assert u in UpTo(g[target], v) && u !in UpTo(g[c], v);
      } else {
        var u :| u in UpTo(h[target], v) && u !in h[b];
        assert UpTo(h[c], v) == UpTo(h[b], v);
        assert u in UpTo(g[target], v) && u !in UpTo(g[c], v);
      }
    }
  }
}
