/** Clean-up, pruning, rebasing and reverting move or drop entries; what that does to every read. */
module Compaction {
  import opened Basics
  import opened OrderedSets
  import opened VersionState
  import opened VersionInvariants

  /** A lookup is decided by the newest visible entry. */
  lemma LookupNewest(m: Layer, on: set<VerId>, v: VerId, u: VerId)
    requires IsLargest(u, Visible(m, on, v))
    ensures Lookup(m, on, v) == Present(m[u])
  {
  }

  /** Lookups agree when the same versions are visible with the same values. */
  lemma LookupSame(m: Layer, on: set<VerId>, v: VerId, m': Layer, on': set<VerId>, v': VerId)
    requires Visible(m, on, v) == Visible(m', on', v')
    requires forall u :: u in Visible(m, on, v) ==> m[u] == m'[u]
    ensures Lookup(m, on, v) == Lookup(m', on', v')
  {
  }

  lemma ReadSame(s: State, t: State, b: BrId, c: BrId, v: VerId, w: VerId, k: Key)
    requires b in s.brVers && c in t.brVers
    requires Visible(LayerOf(s, k), s.brVers[b], v) == Visible(LayerOf(t, k), t.brVers[c], w)
    requires forall u :: u in Visible(LayerOf(s, k), s.brVers[b], v) ==> LayerOf(s, k)[u] == LayerOf(t, k)[u]
    ensures Read(s, b, v, k) == Read(t, c, w, k)
  {
    LookupSame(LayerOf(s, k), s.brVers[b], v, LayerOf(t, k), t.brVers[c], w);
  }

  // ---------- clean-up ----------

  lemma PurgedLayer(s: State, d: set<VerId>, k: Key)
    ensures LayerOf(Purge(s, d), k) == LayerOf(s, k) - d
  {
  }

  /** No read on any branch changes. */
  lemma CleanUpKeepsReads(s: State, b: BrId)
    ensures SameReadsOn(s, CleanUp(s), b)
  {
    var t := CleanUp(s);
    if b in s.brVers {
      forall v, k
        ensures Read(s, b, v, k) == Read(t, b, v, k)
      {
        PurgedLayer(s, Dead(s), k);
        assert forall u :: u in s.brVers[b] ==> u in Live(s) && u !in Dead(s);
        assert Visible(LayerOf(s, k), s.brVers[b], v) == Visible(LayerOf(t, k), t.brVers[b], v);
        ReadSame(s, t, b, b, v, v, k);
      }
    }
  }

  lemma LiveIsIndexed(s: State)
    requires Inv(s)
    ensures Live(s) <= s.chg.Keys && CleanUp(s).chg.Keys == Live(s) && Live(CleanUp(s)) == Live(s)
  {
    assert Live(CleanUp(s)) == Live(s);
    forall v | v in Live(s)
      ensures v in s.chg
    {
      var b :| b in s.brVers && v in s.brVers[b];
    }
  }

  /** Everything dead is gone, everything live is untouched, and of the names only those of dead versions are freed. */
  lemma CleanUpIsComplete(s: State)
    requires Inv(s)
    ensures var t := CleanUp(s);
      && t.brVers == s.brVers
      && t.chg.Keys == Live(s)
      && (forall k, v :: k in t.kv && v in t.kv[k] <==> v in Live(s) && k in s.kv && v in s.kv[k])
      && t.verIdToName.Keys == s.verIdToName.Keys - Dead(s)
      && t.verNameToId.Keys == (set a | a in s.verNameToId && s.verNameToId[a] !in Dead(s))
  {
    var t := CleanUp(s);
    LiveIsIndexed(s);
    forall k, v
      ensures k in t.kv && v in t.kv[k] <==> v in Live(s) && k in s.kv && v in s.kv[k]
    {
      PurgedLayer(s, Dead(s), k);
      assert k in t.kv && v in t.kv[k] <==> v in LayerOf(t, k);
      assert k in s.kv && v in s.kv[k] <==> v in LayerOf(s, k);
      assert v in LayerOf(s, k) ==> v in s.chg;
    }
  }

  lemma RemoveBranchesInv(s: State, d: set<BrId>)
    requires Inv(s)
    ensures Inv(RemoveBranches(s, d))
  {
  }

  lemma KeepOnlyInv(s: State, ids: set<BrId>)
    requires Inv(s)
    ensures Inv(KeepOnly(s, ids))
  {
    RemoveBranchesInv(s, s.brVers.Keys - ids);
    CleanUpInv(RemoveBranches(s, s.brVers.Keys - ids));
  }

  lemma RemainingBranches(s: State, ids: set<BrId>, b: BrId)
    ensures var r := RemoveBranches(s, s.brVers.Keys - ids);
      && r.brVers.Keys == s.brVers.Keys * ids
      && (b in ids ==> SameReadsOn(s, r, b))
      && Live(r) == set c, v | c in s.brVers && c in ids && v in s.brVers[c] :: v
  {
    var r := RemoveBranches(s, s.brVers.Keys - ids);
    assert forall c :: c in r.brVers <==> c in s.brVers && c in ids;
    var live := set c, v | c in s.brVers && c in ids && v in s.brVers[c] :: v;
    forall v
      ensures v in Live(r) <==> v in live
    {
      if v in Live(r) {
        var c :| c in r.brVers && v in r.brVers[c];
        assert c in ids;
      }
      if v in live {
        var c :| c in s.brVers && c in ids && v in s.brVers[c];
        assert v in r.brVers[c];
      }
    }
  }

  /** Keeping only some branches: those keep their versions and all their reads, and of the data only
      what they refer to stays. */
  lemma KeepOnlyKeepsReads(s: State, ids: set<BrId>, b: BrId)
    requires Inv(s)
    ensures var t := KeepOnly(s, ids);
      && t.brVers.Keys == s.brVers.Keys * ids
      && (b in ids ==> SameReadsOn(s, t, b))
      && t.chg.Keys == (set c, v | c in s.brVers && c in ids && v in s.brVers[c] :: v)
  {
    var d := s.brVers.Keys - ids;
    var r := RemoveBranches(s, d);
    RemoveBranchesInv(s, d);
    CleanUpKeepsReads(r, b);
    CleanUpIsComplete(r);
    RemainingBranches(s, ids, b);
  }

  /** Cleaning up twice is cleaning up once. */
  lemma CleanUpIdempotent(s: State)
    requires Inv(s)
    ensures CleanUp(CleanUp(s)) == CleanUp(s)
  {
    var t := CleanUp(s);
    LiveIsIndexed(s);
    assert Dead(t) == {};
    PurgeNothing(t);
  }

  lemma PurgeNothing(s: State)
    ensures Purge(s, {}) == s
  {
    var t := Purge(s, {});
    assert t.kv == s.kv by {
      assert forall k :: k in s.kv ==> Kept(s.kv[k], {}) && s.kv[k] - {} == s.kv[k];
    }
    assert t.chg == s.chg;
    assert t.verIdToName == s.verIdToName;
    assert t.verNameToId == s.verNameToId;
  }

  // ---------- pruning ----------

  /** `d` directly follows `r` on every non-empty branch, and `r` is the oldest version there. */
  ghost predicate FollowsOldest(s: State, d: set<VerId>, r: VerId) {
    && d != {} && (forall u :: u in d ==> r < u)
    && (forall b :: b in s.brVers && s.brVers[b] != {} ==> r in s.brVers[b] && d <= s.brVers[b])
    && (forall b, u :: b in s.brVers && u in s.brVers[b] ==> r <= u && (u <= Max(d) ==> u == r || u in d))
  }

  lemma CompactedLayer(s: State, d: set<VerId>, r: VerId, k: Key)
    ensures LayerOf(Compact(s, d, r), k) == CompactLayer(LayerOf(s, k), d, r)
  {
    var m := LayerOf(s, k);
    if k !in s.kv {
      assert m.Keys * d == {};
    } else {
      assert k in ChangedBy(s, d) <==> m.Keys * d != {};
    }
  }

  /** The layer-level heart of pruning: from `r` on, a lookup sees what it saw with all of `d` visible. */
  lemma CompactLookup(m: Layer, on: set<VerId>, d: set<VerId>, r: VerId, v: VerId)
    requires d != {} && d <= on && r in on && r <= v && (forall u :: u in d ==> r < u)
    requires forall u :: u in on ==> r <= u && (u <= Max(d) ==> u == r || u in d)
    ensures Lookup(CompactLayer(m, d, r), on - d, v) == Lookup(m, on, if v < Max(d) then Max(d) else v)
  {
    var w := if v < Max(d) then Max(d) else v;
    var m' := CompactLayer(m, d, r);
    CollapseFacts(m, d, r);
    var seen := Visible(m, on, w);
    if m.Keys * d == {} {
      assert forall u :: u in m && u in d ==> u in m.Keys * d;
      assert Visible(m', on - d, v) == seen;
      LookupSame(m, on, w, m', on - d, v);
    } else {
      var x := Max(m.Keys * d);
      assert x in seen;
      var n := Max(seen);
      if Max(d) < n {
        assert n in Visible(m', on - d, v);
        forall u | u in Visible(m', on - d, v)
          ensures u <= n
        {
          if u != r { assert u in seen; }
        }
        LookupNewest(m', on - d, v, n);
      } else {
        assert n in d && n in m.Keys * d;
        assert n == x;
        assert Lookup(m, on, w) == Present(m[x]);
        forall u | u in Visible(m', on - d, v)
          ensures u == r || u in seen
        {
        }
        if m[x] == NULL {
          assert Visible(m', on - d, v) == {};
        } else {
          assert r in m' && m'[r] == m[x];
          assert r in Visible(m', on - d, v);
          LookupNewest(m', on - d, v, r);
        }
      }
    }
  }

  lemma CompactReads(s: State, d: set<VerId>, r: VerId, b: BrId, v: VerId, k: Key)
    requires FollowsOldest(s, d, r) && b in s.brVers && s.brVers[b] != {}
    ensures Read(Compact(s, d, r), b, v, k)
         == if v < r then None else Read(s, b, if v < Max(d) then Max(d) else v, k)
  {
    CompactedLayer(s, d, r, k);
    if v < r {
      assert Visible(LayerOf(Compact(s, d, r), k), s.brVers[b] - d, v) == {};
    } else {
      var on := s.brVers[b];
      forall u | u in on
        ensures r <= u && (u <= Max(d) ==> u == r || u in d)
      {
        assert u in s.brVers[b];
      }
      CompactLookup(LayerOf(s, k), on, d, r, v);
    }
  }

  lemma SegmentOfAscending(q: seq<nat>, hi: nat, d: set<nat>, u: nat)
    requires 1 <= hi < |q| && (forall i, j :: 0 <= i < j < |q| ==> q[i] < q[j])
    requires d == set i | 1 <= i <= hi :: q[i]
    ensures d != {} && (forall x :: x in d ==> x in q)
    ensures u in q && u <= Max(d) ==> u == q[0] || u in d
  {
    assert q[1] in d;
    if u in q && u <= Max(d) {
      var i :| 0 <= i < |q| && q[i] == u;
      var j :| 1 <= j <= hi && q[j] == Max(d);
      assert i <= j;
    }
  }

  /** The outdated versions are an initial segment of the common ones, less the oldest. */
  lemma OutdatedIsSegment(s: State, reserved: nat, u: VerId)
    requires 0 < reserved < |Common(s)|
    ensures Outdated(s, reserved) != {} && Outdated(s, reserved) <= Common(s)
    ensures u in Common(s) && u <= Max(Outdated(s, reserved)) ==> u == Ids(Common(s))[0] || u in Outdated(s, reserved)
  {
    var q := Ids(Common(s));
    SegmentOfAscending(q, |q| - reserved, Outdated(s, reserved), u);
  }

  lemma OutdatedFollowsOldest(s: State, reserved: nat)
    requires 0 < reserved < |Common(s)|
    ensures FollowsOldest(s, Outdated(s, reserved), Ids(Common(s))[0])
  {
    OutdatedFacts(s, reserved);
    var d := Outdated(s, reserved);
    OutdatedIsSegment(s, reserved, 0);
    forall b, u | b in s.brVers && u in s.brVers[b] && u <= Max(d)
      ensures u == Ids(Common(s))[0] || u in d
    {
      CommonIsPrefix(s, Max(d), b, u);
      OutdatedIsSegment(s, reserved, u);
    }
    forall b | b in s.brVers && s.brVers[b] != {}
      ensures d <= s.brVers[b] && Ids(Common(s))[0] in s.brVers[b]
    {
      assert forall u :: u in d ==> InCommon(s, u);
    }
  }

  ghost predicate Merges(s: State, n: Option<nat>) {
    0 < Reserved(n) < |Common(CleanUp(s))|
  }

  /** The version that receives the data, the oldest of every branch. */
  ghost function Oldest(s: State): VerId
    requires Common(CleanUp(s)) != {}
  {
    Ids(Common(CleanUp(s)))[0]
  }

  /** The newest of the versions that pruning merges away. */
  ghost function LastMerged(s: State, n: Option<nat>): VerId
    requires Merges(s, n)
    ensures LastMerged(s, n) in Outdated(CleanUp(s), Reserved(n))
  {
    OutdatedFollowsOldest(CleanUp(s), Reserved(n));
    Max(Outdated(CleanUp(s), Reserved(n)))
  }

  /** Pruning, read by read: nothing at or after the last merged version changes, and the oldest
      version, like every merged one, now reads as the last merged version did. */
  lemma PruneReads(s: State, n: Option<nat>, b: BrId, v: VerId, k: Key)
    requires b in s.brVers
    ensures !Merges(s, n) || s.brVers[b] == {} ==> Read(Prune(s, n).state, b, v, k) == Read(s, b, v, k)
    ensures Merges(s, n) && s.brVers[b] != {} ==>
      Read(Prune(s, n).state, b, v, k) ==
        if v < Oldest(s) then None
        else Read(s, b, if v < LastMerged(s, n) then LastMerged(s, n) else v, k)
  {
    var t := CleanUp(s);
    CleanUpKeepsReads(s, b);
    assert forall v :: Read(s, b, v, k) == Read(t, b, v, k);
    if Merges(s, n) {
      var d := Outdated(t, Reserved(n));
      if s.brVers[b] != {} {
        OutdatedFollowsOldest(t, Reserved(n));
        CompactReads(t, d, Oldest(s), b, v, k);
      } else {
        assert Visible(LayerOf(Prune(s, n).state, k), {} - d, v) == {};
        assert Visible(LayerOf(s, k), {}, v) == {};
      }
    }
  }

  /** The head of a branch moves only if it is merged away, and then to the oldest version. */
  lemma CompactHead(s: State, d: set<VerId>, r: VerId, b: BrId)
    requires FollowsOldest(s, d, r) && b in s.brVers && s.brVers[b] != {}
    ensures r in s.brVers[b] - d
    ensures var head := Max(s.brVers[b]);
      Max(s.brVers[b] - d) == if head in d then r else head
    ensures Max(d) <= Max(s.brVers[b])
    ensures forall v :: v in s.brVers[b] - d && v != r ==> Max(d) < v
  {
    var head := Max(s.brVers[b]);
    assert Max(d) in s.brVers[b];
    assert r in s.brVers[b] - d;
    if head in d {
      assert head == Max(d);
      assert forall u :: u in s.brVers[b] - d ==> u == r;
    } else {
      assert head in s.brVers[b] - d;
    }
  }

  lemma HeadReadByReads(s: State, t: State, b: BrId, r: VerId, last: VerId, k: Key)
    requires b in s.brVers && b in t.brVers && r in t.brVers[b] && s.brVers[b] != {}
    requires r <= last <= Max(s.brVers[b])
    requires forall v :: v in t.brVers[b] && v != r ==> last < v
    requires Max(t.brVers[b]) == if Max(s.brVers[b]) <= last then r else Max(s.brVers[b])
    requires forall v: VerId :: Read(t, b, v, k) == if v < r then None else Read(s, b, if v < last then last else v, k)
    ensures HeadRead(t, b, k) == HeadRead(s, b, k)
    ensures forall v :: v in t.brVers[b] && v != r ==> Read(t, b, v, k) == Read(s, b, v, k)
    ensures Read(t, b, r, k) == Read(s, b, last, k)
  {
  }

  lemma PrunedHistory(s: State, n: Option<nat>, b: BrId)
    requires b in s.brVers && Merges(s, n)
    ensures CleanUp(s).brVers == s.brVers && b in Prune(s, n).state.brVers
    ensures Prune(s, n).state.brVers[b] == s.brVers[b] - Outdated(CleanUp(s), Reserved(n))
  {
  }

  lemma PrunedHead(s: State, n: Option<nat>, b: BrId)
    requires b in s.brVers && s.brVers[b] != {} && Merges(s, n)
    ensures var t := Prune(s, n).state; var r := Oldest(s); var last := LastMerged(s, n);
      && b in t.brVers && r in t.brVers[b] && r <= last <= Max(s.brVers[b])
      && (forall v :: v in t.brVers[b] && v != r ==> last < v)
      && Max(t.brVers[b]) == if Max(s.brVers[b]) <= last then r else Max(s.brVers[b])
  {
    PrunedHistory(s, n, b);
    hide Prune, CleanUp, Common, Outdated, Reserved;
    OutdatedFollowsOldest(CleanUp(s), Reserved(n));
    CompactHead(CleanUp(s), Outdated(CleanUp(s), Reserved(n)), Oldest(s), b);
  }

  lemma MergingPreservesMeaning(s: State, n: Option<nat>, b: BrId, k: Key)
    requires b in s.brVers && s.brVers[b] != {} && Merges(s, n)
    ensures var t := Prune(s, n).state;
      && HeadRead(t, b, k) == HeadRead(s, b, k)
      && (forall v :: v in t.brVers[b] && v != Oldest(s) ==> Read(t, b, v, k) == Read(s, b, v, k))
      && Read(t, b, Oldest(s), k) == Read(s, b, LastMerged(s, n), k)
  {
    hide Read, Prune, HeadRead, Common, CleanUp, Reserved;
    var t := Prune(s, n).state;
    forall v: VerId
      ensures Read(t, b, v, k) == if v < Oldest(s) then None
                                  else Read(s, b, if v < LastMerged(s, n) then LastMerged(s, n) else v, k)
    {
      PruneReads(s, n, b, v, k);
    }
    PrunedHead(s, n, b);
    HeadReadByReads(s, t, b, Oldest(s), LastMerged(s, n), k);
  }

  /** Pruning preserves meaning: whatever the reserve count, no head read changes, and reads at
      surviving versions change only at the oldest, which reads as the last merged version did. */
  lemma PrunePreservesMeaning(s: State, n: Option<nat>, b: BrId, k: Key)
    requires b in s.brVers
    ensures var t := Prune(s, n).state;
      && HeadRead(t, b, k) == HeadRead(s, b, k)
      && (forall v :: v in t.brVers[b] && (Merges(s, n) ==> v != Oldest(s)) ==> Read(t, b, v, k) == Read(s, b, v, k))
      && (Merges(s, n) && s.brVers[b] != {} ==> Read(t, b, Oldest(s), k) == Read(s, b, LastMerged(s, n), k))
  {
    if Merges(s, n) && s.brVers[b] != {} {
      MergingPreservesMeaning(s, n, b, k);
    } else {
      var t := Prune(s, n).state;
      assert t.brVers[b] == s.brVers[b];
      forall v: VerId
        ensures Read(t, b, v, k) == Read(s, b, v, k)
      {
        PruneReads(s, n, b, v, k);
      }
    }
  }

  // ---------- what pruning leaves ----------

  /** With a reserve count that a 64-bit `usize` can hold, pruning fails exactly for the largest, and then
      it has cleaned up. */
  lemma PruneFailsExactly(s: State, n: Option<nat>)
    requires n.Some? ==> n.value < TWO_64
    ensures Prune(s, n).reply.Fail? <==> n == Some(TWO_64 - 1)
    ensures Prune(s, n).reply.Fail? ==> Prune(s, n) == Outcome(CleanUp(s), Fail(ReservedNumberIsZero))
  {
  }

  /** The versions that have a name and no change set: their names are never freed. */
  ghost function Unindexed(s: State): set<VerId> {
    s.verIdToName.Keys - s.chg.Keys
  }

  lemma OutdatedIsIndexed(s: State, reserved: nat)
    requires Inv(s) && 0 < reserved < |Common(s)|
    ensures Outdated(s, reserved) <= s.chg.Keys && Outdated(s, reserved) <= s.verIdToName.Keys
  {
    assert Live(s) <= s.chg.Keys <= s.verIdToName.Keys by { LiveIsIndexed(s); }
    assert Common(s) <= Live(s);
    OutdatedIsSegment(s, reserved, 0);
    hide Outdated, Common, Live, Inv;
  }

  lemma PurgedNames(s: State)
    requires Inv(s)
    ensures Unindexed(CleanUp(s)) == Unindexed(s)
  {
    assert Dead(s) <= s.chg.Keys;
    hide Inv, Live, Dead;
  }

  lemma MergedNames(s: State, d: set<VerId>, r: VerId)
    requires d <= s.chg.Keys && d <= s.verIdToName.Keys
    ensures Unindexed(Compact(s, d, r)) == Unindexed(s) + d
  {
    assert Compact(s, d, r).chg.Keys == s.chg.Keys - d;
  }

  /** Pruning adds to them exactly the versions that it merges away. */
  lemma PruneKeepsNames(s: State, n: Option<nat>)
    requires Inv(s)
    ensures Unindexed(Prune(s, n).state)
         == Unindexed(s) + if Merges(s, n) then Outdated(CleanUp(s), Reserved(n)) else {}
  {
    hide Inv, CleanUp, Outdated, Common, Compact, Unindexed;
    var t := CleanUp(s);
    CleanUpInv(s);
    PurgedNames(s);
    if Merges(s, n) {
      OutdatedIsIndexed(t, Reserved(n));
      MergedNames(t, Outdated(t, Reserved(n)), Ids(Common(t))[0]);
    }
  }

  lemma SegmentSize(q: seq<nat>, hi: nat, d: set<nat>)
    requires hi < |q| && forall i, j :: 0 <= i < j < |q| ==> q[i] < q[j]
    requires d == set i | 1 <= i <= hi :: q[i]
    ensures |d| == hi
    decreases hi
  {
    if hi == 0 {
      assert d == {};
    } else {
      var c := set i | 1 <= i <= hi - 1 :: q[i];
      SegmentSize(q, hi - 1, c);
      forall x
        ensures x in d <==> x in c || x == q[hi]
      {
        if x in d { var i :| 1 <= i <= hi && x == q[i]; }
      }
      assert d == c + {q[hi]} && q[hi] !in c;
    }
  }

  /** Taking a part of the common history away leaves the rest of it in common. */
  lemma CommonWithout(s: State, d: set<VerId>, r: VerId)
    requires d <= Common(s) && r in Common(s) && r !in d
    ensures Common(Compact(s, d, r)) == Common(s) - d
  {
    var t := Compact(s, d, r);
    forall v
      ensures v in Common(t) <==> v in Common(s) && v !in d
    {
      CommonStays(s, d, r, v);
      CommonWas(s, d, r, v);
    }
  }

  lemma CommonStays(s: State, d: set<VerId>, r: VerId, v: VerId)
    requires d <= Common(s) && r in Common(s) && r !in d
    ensures v in Common(s) && v !in d ==> v in Common(Compact(s, d, r))
  {
    var t := Compact(s, d, r);
    if v in Common(s) && v !in d {
      var e :| e in s.brVers && v in s.brVers[e];
      assert v in t.brVers[e] && v in Live(t);
      forall b, c | b in t.brVers && c in t.brVers && t.brVers[b] != {} && t.brVers[c] != {}
        ensures v in t.brVers[b] && UpTo(t.brVers[b], v) == UpTo(t.brVers[c], v)
      {
        assert UpTo(s.brVers[b], v) == UpTo(s.brVers[c], v);
        assert UpTo(t.brVers[b], v) == UpTo(s.brVers[b], v) - d;
        assert UpTo(t.brVers[c], v) == UpTo(s.brVers[c], v) - d;
      }
    }
  }

  lemma SameWith(vs: set<VerId>, ws: set<VerId>, d: set<VerId>, v: VerId)
    requires d <= vs && d <= ws && UpTo(vs - d, v) == UpTo(ws - d, v)
    ensures UpTo(vs, v) == UpTo(ws, v)
  {
    forall u
      ensures u in UpTo(vs, v) <==> u in UpTo(ws, v)
    {
      assert u !in d ==> (u in UpTo(vs - d, v) <==> u in UpTo(ws - d, v));
    }
  }

  lemma CommonWas(s: State, d: set<VerId>, r: VerId, v: VerId)
    requires d <= Common(s) && r in Common(s) && r !in d
    ensures v in Common(Compact(s, d, r)) ==> v in Common(s) && v !in d
  {
    var t := Compact(s, d, r);
    if v in Common(t) {
      var e :| e in t.brVers && v in t.brVers[e];
      assert v in s.brVers[e] && v in Live(s) && v !in d;
      forall b | b in s.brVers && s.brVers[b] != {}
        ensures d <= s.brVers[b] && t.brVers[b] == s.brVers[b] - d && r in t.brVers[b]
      {
        assert forall u :: u in d ==> InCommon(s, u);
      }
      assert InCommon(t, v);
      forall b, c | b in s.brVers && c in s.brVers && s.brVers[b] != {} && s.brVers[c] != {}
        ensures v in s.brVers[b] && UpTo(s.brVers[b], v) == UpTo(s.brVers[c], v)
      {
        assert t.brVers[b] != {} && t.brVers[c] != {};
        SameWith(s.brVers[b], s.brVers[c], d, v);
      }
    }
  }

  /** Pruning honours its reserve count: exactly that many versions stay in common. */
  lemma PruneReserves(s: State, reserved: nat)
    requires 0 < reserved < |Common(s)|
    ensures Common(MergeOutdated(s, reserved)) == Common(s) - Outdated(s, reserved)
    ensures |Common(MergeOutdated(s, reserved))| == reserved
  {
    hide Common, Compact, Live;
    var q, d := Ids(Common(s)), Outdated(s, reserved);
    OutdatedFacts(s, reserved);
    OutdatedIsSegment(s, reserved, 0);
    assert q[0] in q && q[0] !in d;
    CommonWithout(s, d, q[0]);
    SegmentSize(q, |q| - reserved, d);
    assert |Common(s) - d| == |Common(s)| - |d|;
  }
}
