/** Rebasing merges the newest versions of a branch into a base version; reverting erases one version. */
module Rebasing {
  import opened OrderedSets
  import opened VersionState
  import opened VersionInvariants
  import opened Compaction

  lemma RebasedLayer(s: State, base: VerId, b: BrId, d: set<VerId>, k: Key)
    requires b in s.brVers
    ensures LayerOf(RebaseOnto(s, base, b, d), k) == Collapse(LayerOf(s, k), d, base)
  {
  }

  /** On the rebased branch, reads before the base are unchanged and from the base on they are the old head read. */
  lemma RebasePreservesMeaning(s: State, base: VerId, b: BrId, v: VerId, k: Key)
    requires b in s.brVers && base in s.brVers[b]
    ensures Read(Rebase(s, base, b).state, b, v, k) == if v < base then Read(s, b, v, k) else HeadRead(s, b, k)
  {
    var d := After(s, b, base);
    RebasedLayer(s, base, b, d, k);
    var m, on := LayerOf(s, k), s.brVers[b];
    var m' := Collapse(m, d, base);
    CollapseFacts(m, d, base);
    var head := Max(on);
    if v < base {
      assert Visible(m', on - d, v) == Visible(m, on, v);
      LookupSame(m, on, v, m', on - d, v);
    } else if m.Keys * d == {} {
      forall u | u in Visible(m, on, head)
        ensures u <= base
      {
        assert u !in m.Keys * d;
      }
      assert Visible(m', on - d, v) == Visible(m, on, head);
      LookupSame(m, on, head, m', on - d, v);
    } else {
      var x := Max(m.Keys * d);
      assert x in Visible(m, on, head);
      forall u | u in Visible(m, on, head)
        ensures u <= x
      {
        if base < u { assert u in m.Keys * d; }
      }
      LookupNewest(m, on, head, x);
      assert base in Visible(m', on - d, v);
      LookupNewest(m', on - d, v, base);
    }
  }

  /** The base becomes the head, and reads as the old head. */
  lemma RebaseKeepsHead(s: State, base: VerId, b: BrId, k: Key)
    requires b in s.brVers && base in s.brVers[b]
    ensures HeadRead(Rebase(s, base, b).state, b, k) == HeadRead(s, b, k)
  {
    var t := Rebase(s, base, b).state;
    assert base in t.brVers[b];
    assert Max(t.brVers[b]) == base;
    RebasePreservesMeaning(s, base, b, base, k);
  }

  /** A branch that has neither the base nor a merged version reads as before. */
  lemma RebaseKeepsOthers(s: State, base: VerId, b: BrId, c: BrId)
    requires b in s.brVers && base in s.brVers[b] && MergedUnshared(s, base, b)
    requires c in s.brVers && c != b && base !in s.brVers[c]
    ensures SameReadsOn(s, Rebase(s, base, b).state, c)
  {
    var d := After(s, b, base);
    var t := Rebase(s, base, b).state;
    forall v: VerId, k
      ensures Read(s, c, v, k) == Read(t, c, v, k)
    {
      RebasedLayer(s, base, b, d, k);
      CollapseFacts(LayerOf(s, k), d, base);
      assert forall u :: u in s.brVers[c] ==> u !in d;
      assert Visible(LayerOf(s, k), s.brVers[c], v) == Visible(LayerOf(t, k), t.brVers[c], v);
      ReadSame(s, t, c, c, v, v, k);
    }
  }

  /** Branches with the same history up to `v` read the same at `v`. */
  lemma SharedHistoryReads(s: State, b: BrId, c: BrId, v: VerId, k: Key)
    requires b in s.brVers && c in s.brVers && UpTo(s.brVers[b], v) == UpTo(s.brVers[c], v)
    ensures Read(s, b, v, k) == Read(s, c, v, k)
  {
    var m := LayerOf(s, k);
    forall u
      ensures u in Visible(m, s.brVers[b], v) <==> u in Visible(m, s.brVers[c], v)
    {
      assert u in UpTo(s.brVers[b], v) <==> u in UpTo(s.brVers[c], v);
    }
    assert Visible(m, s.brVers[b], v) == Visible(m, s.brVers[c], v);
  }

  /** The merged versions change nothing that a reader of the head would notice. */
  ghost predicate NoNetEffect(s: State, base: VerId, b: BrId) {
    forall k :: HeadRead(s, b, k) == Read(s, b, base, k)
  }

  /** On a branch that shares the base, a read from the base on either finds a newer entry of that
      branch's own, which rebasing leaves alone, or it is the read at the base. */
  lemma RebaseSharedBaseRead(s: State, base: VerId, b: BrId, c: BrId, v: VerId, k: Key)
    requires b in s.brVers && base in s.brVers[b] && MergedUnshared(s, base, b)
    requires c in s.brVers && c != b && base in s.brVers[c]
    ensures var t := Rebase(s, base, b).state;
      || Read(t, c, v, k) == Read(s, c, v, k)
      || (Read(t, c, v, k) == Read(t, c, base, k) && Read(s, c, v, k) == Read(s, c, base, k))
  {
    var d := After(s, b, base);
    var t := Rebase(s, base, b).state;
    RebasedLayer(s, base, b, d, k);
    var m, m', on := LayerOf(s, k), LayerOf(t, k), s.brVers[c];
    CollapseFacts(m, d, base);
    assert forall u :: u in on ==> u !in d;
    if v < base {
      assert Visible(m, on, v) == Visible(m', on, v);
      ReadSame(s, t, c, c, v, v, k);
    } else if newer :| newer in Visible(m, on, v) && base < newer {
      var n := Max(Visible(m, on, v));
      assert n in Visible(m', on, v);
      forall u | u in Visible(m', on, v)
        ensures u <= n
      {
        assert u == base || u in Visible(m, on, v);
      }
      LookupNewest(m', on, v, n);
    } else {
      forall u
        ensures u in Visible(m, on, v) <==> u in Visible(m, on, base)
        ensures u in Visible(m', on, v) <==> u in Visible(m', on, base)
      {
        assert u in m' && u != base && u !in d ==> u in m;
        assert u in m && u in on && u <= v ==> u in Visible(m, on, v);
      }
      assert Visible(m, on, v) == Visible(m, on, base);
      assert Visible(m', on, v) == Visible(m', on, base);
    }
  }

  /** On a branch that shares the base, the read at the base becomes the old head read of the rebased
      branch for every key that a merged version changed, and stays for the others. */
  lemma ReadAtSharedBase(s: State, base: VerId, b: BrId, c: BrId, k: Key)
    requires b in s.brVers && base in s.brVers[b] && MergedUnshared(s, base, b)
    requires c in s.brVers && c != b && base in s.brVers[c]
    ensures Read(Rebase(s, base, b).state, c, base, k)
         == if k in ChangedBy(s, After(s, b, base)) then HeadRead(s, b, k) else Read(s, c, base, k)
  {
    var d := After(s, b, base);
    var t := Rebase(s, base, b).state;
    RebasedLayer(s, base, b, d, k);
    var m := LayerOf(s, k);
    CollapseFacts(m, d, base);
    if k in ChangedBy(s, d) {
      RebasePreservesMeaning(s, base, b, base, k);
      assert base in Visible(LayerOf(t, k), t.brVers[c], base);
      assert base in Visible(LayerOf(t, k), t.brVers[b], base);
      LookupNewest(LayerOf(t, k), t.brVers[c], base, base);
      LookupNewest(LayerOf(t, k), t.brVers[b], base, base);
    } else {
      assert m.Keys * d == {};
      ReadSame(s, t, c, c, base, base, k);
    }
  }

  /** For every key that the merged versions changed, the other branch reads at the base what the rebased
      branch reads at its head. */
  ghost predicate HeadShowsAtBase(s: State, base: VerId, b: BrId, c: BrId)
    requires b in s.brVers
  {
    forall k :: k in ChangedBy(s, After(s, b, base)) ==> HeadRead(s, b, k) == Read(s, c, base, k)
  }

  /** Exactly when a branch that shares the base keeps its reads, on any state. */
  lemma RebaseSharedBase(s: State, base: VerId, b: BrId, c: BrId)
    requires b in s.brVers && base in s.brVers[b] && MergedUnshared(s, base, b)
    requires c in s.brVers && c != b && base in s.brVers[c]
    ensures SameReadsOn(s, Rebase(s, base, b).state, c) <==> HeadShowsAtBase(s, base, b, c)
  {
    hide Rebase, Read, HeadRead, ChangedBy;
    var t := Rebase(s, base, b).state;
    forall k
      ensures Read(t, c, base, k)
           == if k in ChangedBy(s, After(s, b, base)) then HeadRead(s, b, k) else Read(s, c, base, k)
    {
      ReadAtSharedBase(s, base, b, c, k);
    }
    if HeadShowsAtBase(s, base, b, c) {
      forall v: VerId, k
        ensures Read(s, c, v, k) == Read(t, c, v, k)
      {
        RebaseSharedBaseRead(s, base, b, c, v, k);
      }
    }
  }

  /** The documented contract of rebasing speaks of the merged versions only. With those unshared,
      every other branch keeps all its reads exactly when those that share the base read there, for every
      key concerned, what the rebased branch reads at its head. */
  lemma RebaseSafeExactly(s: State, base: VerId, b: BrId)
    requires b in s.brVers && base in s.brVers[b] && MergedUnshared(s, base, b)
    ensures (forall c :: c in s.brVers && c != b ==> SameReadsOn(s, Rebase(s, base, b).state, c))
       <==> (forall c :: c in s.brVers && c != b && base in s.brVers[c] ==> HeadShowsAtBase(s, base, b, c))
  {
    hide SameReadsOn, HeadShowsAtBase;
    forall c | c in s.brVers && c != b
      ensures base in s.brVers[c] ==>
        (SameReadsOn(s, Rebase(s, base, b).state, c) <==> HeadShowsAtBase(s, base, b, c))
      ensures base !in s.brVers[c] ==> SameReadsOn(s, Rebase(s, base, b).state, c)
    {
      if base in s.brVers[c] { RebaseSharedBase(s, base, b, c); } else { RebaseKeepsOthers(s, base, b, c); }
    }
  }

  lemma UnchangedAtHead(s: State, base: VerId, b: BrId, k: Key)
    requires b in s.brVers && base in s.brVers[b] && k !in ChangedBy(s, After(s, b, base))
    ensures HeadRead(s, b, k) == Read(s, b, base, k)
  {
    var m, on, d := LayerOf(s, k), s.brVers[b], After(s, b, base);
    assert forall u :: u in m.Keys * d ==> k in ChangedBy(s, d);
    assert forall u :: u in m && u in d ==> u in m.Keys * d;
    assert Visible(m, on, Max(on)) == Visible(m, on, base);
  }

  /** On coherent histories it does not matter which branch shares the base: all keep their reads exactly
      when the base is on no other branch or the merged versions have no net effect. */
  lemma RebaseSafeOnCoherent(s: State, base: VerId, b: BrId)
    requires Coherent(s.brVers)
    requires b in s.brVers && base in s.brVers[b] && MergedUnshared(s, base, b)
    ensures (forall c :: c in s.brVers && c != b ==> SameReadsOn(s, Rebase(s, base, b).state, c))
       <==> (forall c :: c in s.brVers && c != b ==> base !in s.brVers[c]) || NoNetEffect(s, base, b)
  {
    RebaseSafeExactly(s, base, b);
    hide Read, HeadRead, ChangedBy, SameReadsOn;
    forall c | c in s.brVers && c != b && base in s.brVers[c]
      ensures HeadShowsAtBase(s, base, b, c) <==> NoNetEffect(s, base, b)
    {
      forall k
        ensures Read(s, c, base, k) == Read(s, b, base, k)
      {
        SharedHistoryReads(s, b, c, base, k);
      }
      forall k
        ensures HeadRead(s, b, k) == Read(s, b, base, k) || k in ChangedBy(s, After(s, b, base))
      {
        if k !in ChangedBy(s, After(s, b, base)) { UnchangedAtHead(s, base, b, k); }
      }
    }
  }

  /** Reverting a version makes every branch read as if that version had never been on it. */
  lemma RevertErases(s: State, v: VerId, b: BrId, w: VerId, k: Key)
    requires v in s.chg && b in s.brVers
    ensures Read(Revert(s, v).state, b, w, k) == Lookup(LayerOf(s, k), s.brVers[b] - {v}, w)
  {
    var t := Revert(s, v).state;
    assert LayerOf(t, k) == LayerOf(s, k) - {v};
    LookupSame(LayerOf(s, k), s.brVers[b] - {v}, w, LayerOf(t, k), t.brVers[b], w);
  }
}
