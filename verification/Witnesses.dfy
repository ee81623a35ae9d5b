/** Runs of a fresh map that lead to states where an operation does not do what one would hope. */
module Witnesses {
  import opened Basics
  import opened ByteStrings
  import opened OrderedSets
  import opened VersionState
  import opened VersionInvariants
  import opened Compaction
  import opened Rebasing
  import opened Reloading
  import opened Scanning
  import opened Runs

  const MASTER: Name := INITIAL_BRANCH_NAME
  const KEY: Key := [107]
  const VALUE: Value := [120]

  /** The database's allocators start at branch 1 and version 0. */
  ghost function Fresh(): State {
    Init(1, 0)
  }

  // ---------- a shared base ----------

  /** Branch 0 has version 0. */
  ghost function Started(): State {
    Step(Fresh(), OpCreateVersion([1], 0)).state
  }

  /** Branch 1 is forked from there, with version 1 of its own. */
  ghost function Forked(): State {
    Step(Started(), OpCreateBranch([7], Some([2]), 0, Head, false)).state
  }

  /** Branch 0 goes on with version 2. */
  ghost function WentOn(): State {
    Step(Forked(), OpCreateVersion([3], 0)).state
  }

  /** A key is written there. */
  ghost function WroteKey(): State {
    Step(WentOn(), OpWrite(0, KEY, Some(VALUE))).state
  }

  lemma StartedIs()
    ensures Reachable(Fresh()) && Reachable(Started())
    ensures Started() == Fresh().(brVers := map[0 := {0}], verNameToId := map[[1] := 0], verIdToName := map[0 := [1]],
                                  chg := map[0 := {}], nextVer := 1)
  {
    ReachInit(1, 0);
    ReachStep(Fresh(), OpCreateVersion([1], 0));
    assert {} + {0} == {0};
  }

  lemma ForkedIs()
    ensures Reachable(Forked())
    ensures var t := Forked();
      && t.brVers == map[0 := {0}, 1 := {0, 1}]
      && t.brNameToId == map[MASTER := 0, [7] := 1] && t.brIdToName == map[0 := MASTER, 1 := [7]]
      && t.verNameToId == map[[1] := 0, [2] := 1] && t.verIdToName == map[0 := [1], 1 := [2]]
      && t.chg == map[0 := {}, 1 := {}] && t.kv == map[] && t.nextBr == 2 && t.nextVer == 2 && t.defaultBranch == 0
  {
    hide Reachable, Started;
    StartedIs();
    ReachStep(Started(), OpCreateBranch([7], Some([2]), 0, Head, false));
    var s := Started();
    assert [7] !in s.brNameToId && [2] !in s.verNameToId;
    assert Vacated(s, [7], false) == s;
    assert Forked() == CreateVersion(AddBranch(s, [7], {0}), [2], 1).state;
    hide Forked, CreateVersion;
    FirstOf(AddBranch(s, [7], {0}), [2]);
  }

  /** A first version on branch 1. */
  lemma FirstOf(s: State, name: Name)
    requires s.brVers == map[0 := {0}, 1 := {0}] && s.nextVer == 1 && name !in s.verNameToId
    ensures var t := CreateVersion(s, name, 1).state;
      && t == s.(brVers := map[0 := {0}, 1 := {0, 1}], verNameToId := s.verNameToId[name := 1],
                 verIdToName := s.verIdToName[1 := name], chg := s.chg[1 := {}], nextVer := 2)
  {
    assert {0} + {1} == {0, 1};
  }

  lemma WentOnIs()
    ensures Reachable(WentOn())
    ensures var t := WentOn();
      && t.brVers == map[0 := {0, 2}, 1 := {0, 1}]
      && t.brNameToId == map[MASTER := 0, [7] := 1] && t.brIdToName == map[0 := MASTER, 1 := [7]]
      && t.chg == map[0 := {}, 1 := {}, 2 := {}] && t.kv == map[] && t.nextBr == 2 && t.nextVer == 3
        && t.defaultBranch == 0
  {
    hide Reachable, Forked;
    ForkedIs();
    ReachStep(Forked(), OpCreateVersion([3], 0));
    assert [3] !in Forked().verNameToId;
    assert {0} + {2} == {0, 2};
  }

  lemma WroteKeyIs()
    ensures Reachable(WroteKey())
    ensures var t := WroteKey();
      && t.brVers == map[0 := {0, 2}, 1 := {0, 1}] && t.kv == map[KEY := map[2 := VALUE]]
  {
    hide Reachable, WentOn;
    WentOnIs();
    ReachStep(WentOn(), OpWrite(0, KEY, Some(VALUE)));
    assert 2 in {0, 2};
    assert Max({0, 2}) == 2;
    var m: Layer := map[];
    assert m[2 := VALUE] == map[2 := VALUE];
  }

  lemma ReadsWere()
    ensures HeadRead(WroteKey(), 0, KEY) == Some(VALUE)
    ensures HeadRead(WroteKey(), 1, KEY) == None && Read(WroteKey(), 1, 0, KEY) == None
  {
    hide Reachable, WroteKey;
    WroteKeyIs();
    var m: Layer := map[2 := VALUE];
    assert 2 in {0, 2} && 1 in {0, 1};
    assert Max({0, 2}) == 2 && Max({0, 1}) == 1;
    assert 2 in Visible(m, {0, 2}, 2);
    LookupNewest(m, {0, 2}, 2, 2);
    assert Visible(m, {0, 1}, 1) == {} && Visible(m, {0, 1}, 0) == {};
  }

  /** A reachable state with a base that its branch created itself, shared by a later fork, and merged
      versions on no other branch: rebasing changes what the other branch reads at its head. */
  lemma RebaseDisturbsFork()
    ensures Reachable(WroteKey()) && Legal(WroteKey(), OpRebase(0, 0))
    ensures Rebase(WroteKey(), 0, 0).reply == Done
    ensures HeadRead(WroteKey(), 1, KEY) == None
    ensures HeadRead(Rebase(WroteKey(), 0, 0).state, 1, KEY) == Some(VALUE)
  {
    hide Reachable, WroteKey, HeadRead;
    WroteKeyIs();
    ReadsWere();
    RebasedHead(WroteKey());
  }

  lemma RebasedHead(s: State)
    requires s.brVers == map[0 := {0, 2}, 1 := {0, 1}] && s.kv == map[KEY := map[2 := VALUE]]
    requires HeadRead(s, 0, KEY) == Some(VALUE)
    ensures MergedUnshared(s, 0, 0) && Rebase(s, 0, 0).reply == Done
    ensures HeadRead(Rebase(s, 0, 0).state, 1, KEY) == Some(VALUE)
  {
    var t, d := Rebase(s, 0, 0).state, After(s, 0, 0);
    assert d == {2} && 2 in s.kv[KEY].Keys * d;
    ReadAtSharedBase(s, 0, 0, 1, KEY);
    RebasedLayer(s, 0, 0, d, KEY);
    CollapseFacts(s.kv[KEY], d, 0);
    var m := LayerOf(t, KEY);
    hide Rebase, Collapse, ChangedBy;
    assert t.brVers[1] == {0, 1} && 1 in {0, 1};
    assert Max({0, 1}) == 1;
    assert Visible(m, {0, 1}, 1) == Visible(m, {0, 1}, 0);
  }

  // ---------- a forced merge of interleaved lists ----------

  /** Branch 2 shares what branch 0 has. */
  ghost function SharedTwice(): State {
    Step(WentOn(), OpCreateBranch([8], None, 0, Head, false)).state
  }

  lemma SharedTwiceIs()
    ensures Reachable(SharedTwice()) && SharedTwice().brVers == map[0 := {0, 2}, 1 := {0, 1}, 2 := {0, 2}]
  {
    hide Reachable, WentOn;
    WentOnIs();
    ReachStep(WentOn(), OpCreateBranch([8], None, 0, Head, false));
    assert Vacated(WentOn(), [8], false) == WentOn();
  }

  /** A reachable coherent state and a forced merge after which two branches share a version but not what
      precedes it. */
  lemma ForcedMergeBreaksCoherence()
    ensures Reachable(SharedTwice()) && Coherent(SharedTwice().brVers)
    ensures Legal(SharedTwice(), OpMerge(1, 0, true)) && Merge(SharedTwice(), 1, 0, true).reply == Done
    ensures !Coherent(Merge(SharedTwice(), 1, 0, true).state.brVers)
  {
    hide Reachable, SharedTwice;
    SharedTwiceIs();
    InterleavedMerge(SharedTwice().brVers);
  }

  lemma InterleavedMerge(h: Histories)
    requires h == map[0 := {0, 2}, 1 := {0, 1}, 2 := {0, 2}]
    ensures Coherent(h) && !Coherent(h[0 := h[0] + h[1]])
  {
    assert UpTo({0, 2}, 0) == {0} && UpTo({0, 1}, 0) == {0};
    assert Coherent(h);
    var g := h[0 := h[0] + h[1]];
    assert 2 in g[0] && 2 in g[2];
    assert 1 in UpTo(g[0], 2) && 1 !in UpTo(g[2], 2);
  }

  // ---------- a forced creation over its own base, and the lost default branch ----------

  /** Creating a branch under the name of the branch it is to be based on removes that branch, the default
      one, and then fails: no branch is left. */
  lemma ForcedCreationLosesDefault()
    ensures Reachable(Fresh()) && DefaultIsNamed(Fresh())
    ensures var o := CreateBranch(Fresh(), MASTER, None, 0, Head, true);
      && o.reply == Fail(BaseBranchNotFound) && o.state.brVers == map[] && !DefaultIsNamed(o.state)
  {
    ReachInit(1, 0);
    var t := Vacated(Fresh(), MASTER, true);
    assert t == RemoveBranch(Fresh(), 0).state;
    assert t.brVers == map[] && MASTER !in t.brNameToId;
  }

  /** Removing the default branch succeeds and leaves the default without a name. */
  lemma DefaultBranchCanGo()
    ensures Reachable(Fresh()) && DefaultIsNamed(Fresh())
    ensures RemoveBranch(Fresh(), 0).reply == Done && !DefaultIsNamed(RemoveBranch(Fresh(), 0).state)
  {
    ReachInit(1, 0);
  }

  // ---------- a name that reloading loses ----------

  /** A version is created and popped again. */
  ghost function Popped(): State {
    Step(Started(), OpPop(0)).state
  }

  /** Cleaning up frees the popped version's name; after a reload it does not, and the name stays taken. */
  lemma ReloadLosesName()
    ensures Reachable(Popped())
    ensures [1] !in CleanUp(Popped()).verNameToId
    ensures [1] in CleanUp(Reload(Popped())).verNameToId
    ensures CreateVersion(CleanUp(Reload(Popped())), [1], 0).reply == Fail(VersionExists)
  {
    hide Reachable, Started;
    StartedIs();
    ReachStep(Started(), OpPop(0));
    assert 0 in {0};
    assert Max({0}) == 0;
    var s := Popped();
    assert Started().brVers[0] == {0} && s.brVers[0] == {};
    assert s.brVers == map[0 := {}] && s.chg == map[0 := {}] && s.verNameToId == map[[1] := 0];
    ReachableInv(s);
    hide Popped;
    ForgottenVersion(s);
  }

  lemma ForgottenVersion(s: State)
    requires Inv(s) && s.brVers == map[0 := {}] && s.chg == map[0 := {}] && s.verNameToId == map[[1] := 0]
    ensures [1] !in CleanUp(s).verNameToId && [1] in CleanUp(Reload(s)).verNameToId
  {
    ReloadRoundTrip(s);
    hide Reload, Inv;
    assert Live(s) == {};
    assert 0 in Dead(s) && 0 in Orphans(s);
    assert 0 !in Reload(s).chg;
  }

  // ---------- the sentinel as a version id ----------

  /** A map created when the next version id is the sentinel, with its first version and a key. */
  ghost function AtSentinel(): State {
    Step(Step(Init(1, NULL_ID), OpCreateVersion([1], 0)).state, OpWrite(0, KEY, Some(VALUE))).state
  }

  lemma AtSentinelIs()
    ensures Reachable(AtSentinel())
    ensures AtSentinel().brVers == map[0 := {NULL_ID}] && AtSentinel().kv == map[KEY := map[NULL_ID := VALUE]]
  {
    ReachInit(1, NULL_ID);
    var s := Step(Init(1, NULL_ID), OpCreateVersion([1], 0)).state;
    ReachStep(Init(1, NULL_ID), OpCreateVersion([1], 0));
    ReachStep(s, OpWrite(0, KEY, Some(VALUE)));
    assert {} + {NULL_ID} == {NULL_ID};
    assert s.brVers == map[0 := {NULL_ID}] && NULL_ID in {NULL_ID};
    assert Max({NULL_ID}) == NULL_ID;
    var m: Layer := map[];
    assert m[NULL_ID := VALUE] == map[NULL_ID := VALUE];
  }

  /** Once the sentinel has been given out as an id, what is written there can be read but not iterated. */
  lemma SentinelHidesData()
    ensures Reachable(AtSentinel())
    ensures HeadRead(AtSentinel(), 0, KEY) == Some(VALUE)
    ensures NULL_ID == 4095_9999
    ensures Max(AtSentinel().brVers[0]) == NULL_ID && Yields(AtSentinel(), 0, NULL_ID, InOrder({KEY})) == []
    ensures !AgreesWithReads(AtSentinel(), 0, NULL_ID, InOrder({KEY}))
  {
    AtSentinelIs();
    var s := AtSentinel();
    assert NULL_ID in {NULL_ID};
    assert Max({NULL_ID}) == NULL_ID;
    var m: Layer := map[NULL_ID := VALUE];
    assert NULL_ID in Visible(m, {NULL_ID}, NULL_ID);
    LookupNewest(m, {NULL_ID}, NULL_ID, NULL_ID);
    NullIdAgreesExactly(s, 0, NULL_ID, InOrder({KEY}), KEY);
  }

  // ---------- a key delivered twice ----------

  /** A scan of a single item, taken once forward and once backward, delivers it twice. */
  lemma DeliveredTwice()
    ensures Reachable(WroteKey())
    ensures var r := Yields(WroteKey(), 0, 2, [KEY]);
      r == [(KEY, VALUE)] && NoneTwice(r) && !NoneTwice(r[..1] + Backward(r)[..1])
  {
    WroteKeyIs();
    ReadsWere();
    var s := WroteKey();
    assert 2 in {0, 2};
    assert Max({0, 2}) == 2;
    var r := Yields(s, 0, 2, [KEY]);
    assert [KEY][1..] == [] && Yields(s, 0, 2, []) == [];
    assert r == [(KEY, VALUE)];
    CursorsOverlapExactly(r, 1, 1);
  }
}
