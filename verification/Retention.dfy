/** How many versions, and which, are left of the common history when pruning is asked to keep some. */
module Retention {
  import opened Basics
  import opened OrderedSets
  import opened VersionState
  import opened VersionInvariants
  import opened Compaction
  import opened Replies
  import opened Effects

  /** The number of newest versions to keep besides the oldest: ten when no number is given. */
  ghost function Asked(n: Option<nat>): nat {
    if n.None? then 10 else n.value
  }

  ghost predicate OldestCommon(s: State, v: VerId) {
    v in Common(s) && forall u :: u in Common(s) ==> v <= u
  }

  ghost function NewerCommon(s: State, v: VerId): set<VerId> {
    set u | u in Common(s) && v < u
  }

  /** Of the common history the oldest version and as many of the newest as asked for stay; other versions stay. */
  ghost predicate Stays(s: State, n: Option<nat>, v: VerId) {
    v in Common(s) ==> OldestCommon(s, v) || |NewerCommon(s, v)| < Asked(n)
  }

  lemma SameListsSameCommon(s: State, t: State)
    requires s.brVers == t.brVers
    ensures Common(s) == Common(t)
  {
    assert Live(s) == Live(t);
    forall v
      ensures InCommon(s, v) <==> InCommon(t, v)
    {
    }
  }

  lemma RestSize(q: seq<nat>, i: nat, d: set<nat>)
    requires i < |q| && forall j, k :: 0 <= j < k < |q| ==> q[j] < q[k]
    requires forall x :: x in d <==> x in q && q[i] < x
    ensures |d| == |q| - 1 - i
    decreases |q| - i
  {
    if i + 1 == |q| {
      assert d == {};
    } else {
      assert q[i + 1] in d;
      RestSize(q, i + 1, d - {q[i + 1]});
    }
  }

  /** The place of a version in the common history, counted from either end. */
  lemma PlaceInCommon(s: State, v: VerId) returns (i: nat)
    requires v in Common(s)
    ensures i < |Common(s)| && Ids(Common(s))[i] == v
    ensures OldestCommon(s, v) <==> i == 0
    ensures |NewerCommon(s, v)| == |Common(s)| - 1 - i
  {
    hide Common;
    var q := Ids(Common(s));
    assert v in q;
    i :| 0 <= i < |q| && q[i] == v;
    RestSize(q, i, NewerCommon(s, v));
    assert q[0] in q;
  }

  lemma StaysUnlessOutdated(s: State, n: Option<nat>, v: VerId)
    requires v in Common(s)
    ensures |Common(s)| <= Asked(n) + 1 ==> Stays(s, n, v)
    ensures |Common(s)| > Asked(n) + 1 ==> (Stays(s, n, v) <==> v !in Outdated(s, Asked(n) + 1))
  {
    hide Common, OldestCommon, NewerCommon;
    var i := PlaceInCommon(s, v);
    if |Common(s)| > Asked(n) + 1 {
      var q := Ids(Common(s));
      assert v in Outdated(s, Asked(n) + 1) <==> 1 <= i <= |q| - (Asked(n) + 1) by {
        if v in Outdated(s, Asked(n) + 1) {
          var j :| 1 <= j <= |q| - (Asked(n) + 1) && q[j] == v;
          assert i == j;
        }
      }
    }
  }

  lemma SameOutdated(s: State, t: State, reserved: nat)
    requires Common(s) == Common(t) && 0 < reserved < |Common(s)|
    ensures Outdated(s, reserved) == Outdated(t, reserved)
  {
    hide Common;
  }

  lemma ReservesAsked(n: Option<nat>)
    requires Asked(n) + 1 < 0x1_0000_0000_0000_0000
    ensures Reserved(n) == Asked(n) + 1
  {
  }

  /** The state that pruning ends in, in terms of the state before. */
  lemma PruneEndsIn(s: State, n: Option<nat>)
    requires Asked(n) + 1 < 0x1_0000_0000_0000_0000
    ensures CleanUp(s).brVers == s.brVers && Common(CleanUp(s)) == Common(s)
    ensures Prune(s, n) == Outcome(
      if |Common(s)| <= Asked(n) + 1 then CleanUp(s)
      else Compact(CleanUp(s), Outdated(s, Asked(n) + 1), Ids(Common(s))[0]), Done)
  {
    hide Prune, CleanUp, Common, Compact, Outdated, Reserved, Asked;
    CleanedCommon(s);
    ReservesAsked(n);
    PruneUnfolds(s, n);
    if |Common(s)| > Asked(n) + 1 { SameOutdated(s, CleanUp(s), Asked(n) + 1); }
  }

  lemma CleanedCommon(s: State)
    ensures CleanUp(s).brVers == s.brVers && Common(CleanUp(s)) == Common(s)
  {
    hide Common;
    SameListsSameCommon(s, CleanUp(s));
  }

  lemma PruneUnfolds(s: State, n: Option<nat>)
    requires 0 < Reserved(n)
    ensures Prune(s, n) == Outcome(
      if |Common(CleanUp(s))| <= Reserved(n) then CleanUp(s)
      else Compact(CleanUp(s), Outdated(CleanUp(s), Reserved(n)), Ids(Common(CleanUp(s)))[0]), Done)
  {
    hide CleanUp, Common, Compact, Outdated, Reserved;
  }

  lemma PruneTakes(s: State, n: Option<nat>)
    requires Asked(n) + 1 < 0x1_0000_0000_0000_0000
    ensures var t := Prune(s, n).state;
      && Prune(s, n).reply == Done
      && t.brVers.Keys == s.brVers.Keys
      && (|Common(s)| <= Asked(n) + 1 ==> t.brVers == s.brVers)
      && (|Common(s)| > Asked(n) + 1 ==>
            forall b :: b in s.brVers ==> t.brVers[b] == s.brVers[b] - Outdated(s, Asked(n) + 1))
  {
    hide Prune, CleanUp, Common, Outdated, Asked;
    PruneEndsIn(s, n);
    if |Common(s)| > Asked(n) + 1 {
      CompactTakes(CleanUp(s), Outdated(s, Asked(n) + 1), Ids(Common(s))[0]);
    }
    hide Compact;
  }

  lemma CompactTakes(s: State, d: set<VerId>, r: VerId)
    ensures Compact(s, d, r).brVers == map b | b in s.brVers :: s.brVers[b] - d
  {
  }

  /** After pruning, a branch has exactly those of its versions that stay. */
  lemma PruneSurvivors(s: State, n: Option<nat>, b: BrId, v: VerId)
    requires Asked(n) + 1 < 0x1_0000_0000_0000_0000
    ensures var t := Prune(s, n).state;
      && Prune(s, n).reply == Done
      && t.brVers.Keys == s.brVers.Keys
      && (On(t, b, v) <==> On(s, b, v) && Stays(s, n, v))
  {
    hide Prune, CleanUp, Common, Outdated, OldestCommon, NewerCommon, Asked;
    PruneTakes(s, n);
    if v in Common(s) {
      StaysUnlessOutdated(s, n, v);
    } else if |Common(s)| > Asked(n) + 1 {
      OutdatedIsSegment(s, Asked(n) + 1, v);
    }
  }

  /** And that many versions are then left in common: as many as asked for and one, if there were more. */
  lemma PruneKeepsCount(s: State, n: Option<nat>)
    requires Asked(n) + 1 < 0x1_0000_0000_0000_0000
    ensures |Common(Prune(s, n).state)| == if |Common(s)| <= Asked(n) + 1 then |Common(s)| else Asked(n) + 1
  {
    hide Prune, CleanUp, Common, Compact, Outdated, Asked;
    PruneEndsIn(s, n);
    if |Common(s)| > Asked(n) + 1 {
      SameOutdated(s, CleanUp(s), Asked(n) + 1);
      PruneReserves(CleanUp(s), Asked(n) + 1);
    }
  }

  /** Names of dead versions are freed and no others, and neither branches' names nor the default change. */
  lemma PruneFreesDead(s: State, n: Option<nat>, a: Name)
    requires Inv(s)
    ensures var t := Prune(s, n).state;
      && Find(t.verNameToId, a) == FreedOf(s.verNameToId, a, (id: nat) => id in s.chg && !OnAny(s, id))
      && t == s.(brVers := t.brVers, kv := t.kv, chg := t.chg,
                 verNameToId := t.verNameToId, verIdToName := t.verIdToName)
  {
    CleanUpForgetsDead(s, [], 0, a);
    hide CleanUp, Common, Outdated, OnAny;
  }

  lemma CompactedEntries(s: State, d: set<VerId>, r: VerId, k: Key, v: VerId)
    requires r !in d
    ensures v in d ==> Entry(Compact(s, d, r), k, v) == None
    ensures v !in d && v != r ==> Entry(Compact(s, d, r), k, v) == Entry(s, k, v)
    ensures (exists u: VerId :: u in d && Entry(s, k, u).Some?) ==> Entry(Compact(s, d, r), k, r) != Some([])
    ensures (forall u: VerId :: u in d ==> Entry(s, k, u).None?) ==> Entry(Compact(s, d, r), k, r) == Entry(s, k, r)
    ensures k in Compact(s, d, r).kv && Compact(s, d, r).kv[k] == map[] ==> k in s.kv && s.kv[k] == map[]
  {
    CompactedLayer(s, d, r, k);
    var m := LayerOf(s, k);
    CollapseFacts(m, d, r);
    assert forall u: VerId :: u in m.Keys * d <==> u in d && Entry(s, k, u).Some?;
    if k in s.kv && k !in ChangedBy(s, d) { assert m.Keys * d == {}; }
  }

  /** Data at versions that stay, other than the oldest common one, is left as it is; nothing is left at those
      that go. What gathers at the oldest is no tombstone, and no key is left without entries that had some. */
  lemma PruneEntries(s: State, n: Option<nat>, k: Key, v: VerId)
    requires Inv(s) && Asked(n) + 1 < 0x1_0000_0000_0000_0000
    ensures var t := Prune(s, n).state;
      && (OnAny(s, v) && !Stays(s, n, v) ==> Entry(t, k, v) == None)
      && (OnAny(s, v) && Stays(s, n, v) && !OldestCommon(s, v) ==> Entry(t, k, v) == Entry(s, k, v))
      && (OldestCommon(s, v) && (exists u: VerId :: u in Common(s) && !Stays(s, n, u) && Entry(s, k, u).Some?) ==>
            Entry(t, k, v) != Some([]))
      && (OldestCommon(s, v) && (forall u: VerId :: u in Common(s) && !Stays(s, n, u) ==> Entry(s, k, u).None?) ==>
            Entry(t, k, v) == Entry(s, k, v))
      && (k in t.kv && t.kv[k] == map[] ==> k in s.kv && s.kv[k] == map[])
  {
    hide Prune, CleanUp, Common, Compact, Outdated, Asked, Inv, Entry, OnAny, Stays, OldestCommon;
    PruneEndsIn(s, n);
    forall u: VerId
      ensures OnAny(s, u) ==> Entry(CleanUp(s), k, u) == Entry(s, k, u)
      ensures u in Common(s) ==> OnAny(s, u)
    {
      CleanUpForgetsDead(s, k, u, []);
      CommonIsOnAny(s, u);
    }
    NoKeyEmptied(s, k);
    forall u: VerId | u in Common(s)
      ensures |Common(s)| <= Asked(n) + 1 ==> Stays(s, n, u)
      ensures |Common(s)| > Asked(n) + 1 ==> (Stays(s, n, u) <==> u !in Outdated(s, Asked(n) + 1))
    {
      StaysUnlessOutdated(s, n, u);
    }
    OthersStay(s, n, v);
    if |Common(s)| > Asked(n) + 1 {
      OldestReceives(s, n, k, v);
    }
  }

  lemma CommonIsOnAny(s: State, v: VerId)
    ensures v in Common(s) ==> OnAny(s, v)
  {
    LiveIsOnAny(s, v);
  }

  lemma NoKeyEmptied(s: State, k: Key)
    requires Inv(s)
    ensures k in CleanUp(s).kv && CleanUp(s).kv[k] == map[] ==> k in s.kv && s.kv[k] == map[]
  {
    CleanUpForgetsDead(s, k, 0, []);
    hide CleanUp;
  }

  lemma OthersStay(s: State, n: Option<nat>, v: VerId)
    ensures v !in Common(s) ==> Stays(s, n, v) && !OldestCommon(s, v)
    ensures OldestCommon(s, v) ==> v in Common(s)
  {
  }

  lemma OldestIsFirst(s: State, v: VerId)
    requires Common(s) != {}
    ensures OldestCommon(s, v) <==> v == Ids(Common(s))[0]
  {
    hide Common;
    var q := Ids(Common(s));
    assert q[0] in q;
    if v in Common(s) { var i := PlaceInCommon(s, v); }
  }

  lemma OldestReceives(s: State, n: Option<nat>, k: Key, v: VerId)
    requires 0 < Asked(n) + 1 < |Common(s)|
    ensures var c, d := CleanUp(s), Outdated(s, Asked(n) + 1); var r := Ids(Common(s))[0];
      && r !in d && d <= Common(s)
      && (OldestCommon(s, v) <==> v == r)
      && (v in d ==> Entry(Compact(c, d, r), k, v) == None)
      && (v !in d && v != r ==> Entry(Compact(c, d, r), k, v) == Entry(c, k, v))
      && ((exists u: VerId :: u in d && Entry(c, k, u).Some?) ==> Entry(Compact(c, d, r), k, r) != Some([]))
      && ((forall u: VerId :: u in d ==> Entry(c, k, u).None?) ==> Entry(Compact(c, d, r), k, r) == Entry(c, k, r))
      && (k in Compact(c, d, r).kv && Compact(c, d, r).kv[k] == map[] ==> k in c.kv && c.kv[k] == map[])
  {
    hide CleanUp, Common, Compact, Entry, Outdated, Asked, OldestCommon;
    var d, r := Outdated(s, Asked(n) + 1), Ids(Common(s))[0];
    OutdatedFacts(s, Asked(n) + 1);
    OutdatedIsSegment(s, Asked(n) + 1, v);
    OldestIsFirst(s, v);
    CompactedEntries(CleanUp(s), d, r, k, v);
  }
}
