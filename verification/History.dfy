/** Reading, writing and moving along the history of branches. */
module History {
  import opened Basics
  import opened OrderedSets
  import opened VersionState
  import opened VersionInvariants
  import opened Compaction

  // ---------- a read is a replay ----------

  /** The effect of one version's changes on a plain map, where an empty value deletes. */
  ghost function Apply(s: State, acc: map<Key, Value>, v: VerId): map<Key, Value>
    requires IndexAgrees(s) && v in s.chg
  {
    map k | k in acc.Keys + s.chg[v] && (k in s.chg[v] ==> s.kv[k][v] != NULL)
      :: if k in s.chg[v] then s.kv[k][v] else acc[k]
  }

  /** The map built by applying the changes of the given versions in turn. */
  ghost function Replay(s: State, q: seq<VerId>): map<Key, Value>
    requires IndexAgrees(s) && forall v :: v in q ==> v in s.chg
  {
    if q == [] then map[] else Apply(s, Replay(s, q[..|q| - 1]), q[|q| - 1])
  }

  lemma {:induction false} ReplayLookup(s: State, q: seq<VerId>, on: set<VerId>, k: Key, v: VerId)
    requires IndexAgrees(s) && (forall u :: u in q ==> u in s.chg)
    requires forall i, j :: 0 <= i < j < |q| ==> q[i] < q[j]
    requires forall u :: u in q <==> u in on && u <= v
    ensures Find(Replay(s, q), k) == Lookup(LayerOf(s, k), on, v)
  {
    var m := LayerOf(s, k);
    if q == [] {
      assert Visible(m, on, v) == {};
    } else {
      var init, last := q[..|q| - 1], q[|q| - 1];
      assert q == init + [last];
      assert last in q;
      forall u
        ensures u in init <==> u in on && u <= v && u != last
      {
        assert u in q <==> u in init || u == last;
      }
      ReplayLookup(s, init, on - {last}, k, v);
      assert k in s.chg[last] <==> last in m;
      if last in m {
        assert last in Visible(m, on, v);
        LookupNewest(m, on, v, last);
      } else {
        assert Visible(m, on - {last}, v) == Visible(m, on, v);
      }
    }
  }

  /** Reading a key at a version is looking it up in the map that replaying the branch up to there builds. */
  lemma ReadIsReplay(s: State, b: BrId, v: VerId, k: Key)
    requires Inv(s) && b in s.brVers
    ensures forall u :: u in Ids(UpTo(s.brVers[b], v)) ==> u in s.chg
    ensures Read(s, b, v, k) == Find(Replay(s, Ids(UpTo(s.brVers[b], v))), k)
  {
    forall u | u in Ids(UpTo(s.brVers[b], v))
      ensures u in s.chg
    {
      assert u in s.brVers[b];
    }
    ReplayLookup(s, Ids(UpTo(s.brVers[b], v)), s.brVers[b], k, v);
  }

  // ---------- what a write reaches ----------

  /** A read on some branch that would find the entry written at `h`. */
  ghost predicate Reaches(s: State, h: VerId, b: BrId, v: VerId, k: Key) {
    && b in s.brVers && h in s.brVers[b] && h <= v
    && forall u :: u in LayerOf(s, k) && u in s.brVers[b] && u <= v ==> u <= h
  }

  ghost predicate TakesEffect(s: State, b: BrId, k: Key, value: Option<Value>) {
    b in s.brVers && s.brVers[b] != {} && (value.None? ==> HeadRead(s, b, k).Some?)
  }

  ghost function Written(value: Option<Value>): Option<Value> {
    if value.None? then None else Present(value.value)
  }

  /** Exactly which reads see a write that takes effect; all others are unchanged. */
  lemma WriteFrame(s: State, b: BrId, k: Key, value: Option<Value>, c: BrId, v: VerId, k': Key)
    requires TakesEffect(s, b, k, value)
    ensures Read(Write(s, b, k, value).state, c, v, k')
         == if k' == k && Reaches(s, Max(s.brVers[b]), c, v, k) then Written(value) else Read(s, c, v, k')
  {
    var h := Max(s.brVers[b]);
    var t := Write(s, b, k, value).state;
    if c in s.brVers && k' == k {
      var m, m', on := LayerOf(s, k), LayerOf(t, k), s.brVers[c];
      if Reaches(s, h, c, v, k) {
        assert h in Visible(m', on, v);
        LookupNewest(m', on, v, h);
      } else if h in on && h <= v {
        var u :| u in m && u in on && u <= v && !(u <= h);
        assert u in Visible(m, on, v);
        var n := Max(Visible(m, on, v));
        assert n in Visible(m', on, v);
        forall w | w in Visible(m', on, v)
          ensures w <= n
        {
          assert w == h || w in Visible(m, on, v);
        }
        LookupNewest(m', on, v, n);
      } else {
        assert Visible(m', on, v) == Visible(m, on, v);
        ReadSame(s, t, c, c, v, v, k);
      }
    }
  }

  /** A write answers with the old value and shows at the head; one that takes no effect changes nothing. */
  lemma WriteAtHead(s: State, b: BrId, k: Key, value: Option<Value>)
    ensures var o := Write(s, b, k, value);
      && (b !in s.brVers ==> o == Outcome(s, Fail(BranchNotFound)))
      && (b in s.brVers && s.brVers[b] == {} ==> o == Outcome(s, Fail(NoVersionOnBranch)))
      && (b in s.brVers && s.brVers[b] != {} ==>
            && o.reply == Old(HeadRead(s, b, k))
            && HeadRead(o.state, b, k) == Written(value)
            && (!TakesEffect(s, b, k, value) ==> o.state == s))
  {
    if TakesEffect(s, b, k, value) {
      WriteFrame(s, b, k, value, b, Max(s.brVers[b]), k);
    }
  }

  // ---------- rolling back ----------

  ghost predicate AllWritesOn(ops: seq<Op>, b: BrId) {
    forall i :: 0 <= i < |ops| ==> ops[i].OpWrite? && ops[i].b == b
  }

  /** `t` is `s` with a newest version `h` on `b` and entries at `h` only. */
  ghost predicate DiffersOnlyAt(s: State, t: State, b: BrId, h: VerId) {
    && b in s.brVers
    && t.brVers == s.brVers[b := s.brVers[b] + {h}]
    && (forall c, u :: c in s.brVers && u in s.brVers[c] ==> u < h)
    && (forall k :: LayerOf(t, k) - {h} == LayerOf(s, k))
  }

  lemma WrittenLayers(s: State, b: BrId, h: VerId, k: Key, value: Option<Value>, k': Key)
    requires b in s.brVers && s.brVers[b] != {} && Max(s.brVers[b]) == h
    ensures var t := Write(s, b, k, value).state;
      t.brVers == s.brVers && LayerOf(t, k') - {h} == LayerOf(s, k') - {h}
  {
    hide Read;
  }

  lemma WriteStaysAtHead(s: State, t: State, b: BrId, h: VerId, k: Key, value: Option<Value>)
    requires DiffersOnlyAt(s, t, b, h)
    ensures DiffersOnlyAt(s, Write(t, b, k, value).state, b, h)
  {
    var u := Write(t, b, k, value).state;
    assert h in t.brVers[b];
    assert Max(t.brVers[b]) == h;
    forall k'
      ensures LayerOf(u, k') - {h} == LayerOf(t, k') - {h} && u.brVers == t.brVers
    {
      WrittenLayers(t, b, h, k, value, k');
    }
    hide Write, LayerOf;
  }

  lemma {:induction false} WritesStayAtHead(s: State, t: State, b: BrId, h: VerId, ops: seq<Op>)
    requires DiffersOnlyAt(s, t, b, h) && AllWritesOn(ops, b)
    ensures DiffersOnlyAt(s, Run(t, ops), b, h)
    decreases |ops|
  {
    if ops != [] {
      WriteStaysAtHead(s, t, b, h, ops[0].k, ops[0].value);
      WritesStayAtHead(s, Step(t, ops[0]).state, b, h, ops[1..]);
    }
  }

  /** Creating a version, writing to it at will and popping it restores every read of the whole store. */
  lemma RollbackRestores(s: State, name: Name, b: BrId, ops: seq<Op>, c: BrId)
    requires Inv(s) && CreateVersion(s, name, b).reply == Done && AllWritesOn(ops, b)
    ensures var t := PopVersion(Run(CreateVersion(s, name, b).state, ops), b).state;
      t.brVers == s.brVers && SameReadsOn(s, t, c)
  {
    var h := s.nextVer;
    var t0 := CreateVersion(s, name, b).state;
    VersionsAllocated(s);
    forall k
      ensures LayerOf(t0, k) - {h} == LayerOf(s, k)
    {
      assert forall u :: u in LayerOf(s, k) ==> u in s.chg;
    }
    WritesStayAtHead(s, t0, b, h, ops);
    var t1 := Run(t0, ops);
    assert h in t1.brVers[b];
    assert Max(t1.brVers[b]) == h;
    var t := PopVersion(t1, b).state;
    assert t.brVers[b] == s.brVers[b];
    assert t.brVers == s.brVers;
    if c in s.brVers {
      forall v: VerId, k
        ensures Read(s, c, v, k) == Read(t, c, v, k)
      {
        assert LayerOf(t, k) - {h} == LayerOf(s, k);
        assert Visible(LayerOf(s, k), s.brVers[c], v) == Visible(LayerOf(t, k), t.brVers[c], v);
        ReadSame(s, t, c, c, v, v, k);
      }
    }
  }

  // ---------- going back, and forking from the past ----------

  lemma HeadOfHistory(s: State, t: State, b: BrId, c: BrId, v: VerId, k: Key)
    requires b in s.brVers && c in t.brVers
    requires t.brVers[c] == UpTo(s.brVers[b], v) && LayerOf(t, k) == LayerOf(s, k)
    ensures HeadRead(t, c, k) == Read(s, b, v, k)
  {
    var m := LayerOf(s, k);
    assert forall u :: u in s.brVers[b] && u <= v ==> u in UpTo(s.brVers[b], v);
    if t.brVers[c] == {} {
      assert Visible(m, s.brVers[b], v) == {};
    } else {
      var h := Max(t.brVers[c]);
      forall u
        ensures u in Visible(m, t.brVers[c], h) <==> u in Visible(m, s.brVers[b], v)
      {
        assert u in t.brVers[c] <==> u in s.brVers[b] && u <= v;
      }
      assert Visible(m, t.brVers[c], h) == Visible(m, s.brVers[b], v);
      ReadSame(s, t, b, c, v, h, k);
    }
  }

  /** Truncating to `last` keeps exactly the versions up to it, unless `last + 1` wraps around and takes
      everything; then the head reads what was read at `last`, and no other branch notices. */
  lemma TruncateToIsTimeTravel(s: State, b: BrId, last: VerId)
    requires Inv(s) && b in s.brVers && last <= VER_ID_MAX
    ensures var t := TruncateBranchTo(s, b, last).state;
      && (t.brVers[b] == UpTo(s.brVers[b], last) <==> last != VER_ID_MAX || s.brVers[b] == {})
      && ((forall k :: HeadRead(t, b, k) == Read(s, b, last, k))
            <==> last != VER_ID_MAX || (forall k :: HeadRead(s, b, k) == None))
      && (forall c :: c != b ==> SameReadsOn(s, t, c))
  {
    var t := TruncateBranchTo(s, b, last).state;
    VersionsAllocated(s);
    if last != VER_ID_MAX {
      assert t.brVers[b] == UpTo(s.brVers[b], last);
      forall k
        ensures HeadRead(t, b, k) == Read(s, b, last, k)
      {
        HeadOfHistory(s, t, b, b, last, k);
      }
    } else {
      assert t.brVers[b] == {};
      assert UpTo(s.brVers[b], last) == s.brVers[b];
      forall k
        ensures HeadRead(s, b, k) == Read(s, b, last, k)
      {
        HeadOfHistory(s, s, b, b, last, k);
      }
    }
  }

  /** Named versions lie below the largest id, so truncating to one of them always goes back to it. */
  lemma TruncateToNamed(s: State, b: BrId, name: Name, k: Key)
    requires Inv(s) && b in s.brVers && name in s.verNameToId
    ensures var last := s.verNameToId[name]; var t := TruncateBranchTo(s, b, last).state;
      && t.brVers[b] == UpTo(s.brVers[b], last)
      && HeadRead(t, b, k) == Read(s, b, last, k)
  {
    assert s.verNameToId[name] in s.verIdToName;
    TruncateToIsTimeTravel(s, b, s.verNameToId[name]);
  }

  lemma CreatedBranchReads(s: State, brName: Name, vs: set<VerId>, c: BrId)
    requires c in s.brVers && s.nextBr !in s.brVers
    ensures SameReadsOn(s, AddBranch(s, brName, vs), c)
  {
  }

  /** A fresh version on top of a branch shows nothing yet. */
  lemma FreshVersionShowsNothing(s: State, name: Name, b: BrId, c: BrId, k: Key)
    requires Inv(s) && CreateVersion(s, name, b).reply == Done
    ensures HeadRead(CreateVersion(s, name, b).state, b, k) == HeadRead(s, b, k)
    ensures SameReadsOn(s, CreateVersion(s, name, b).state, c)
  {
    var t := CreateVersion(s, name, b).state;
    var h := s.nextVer;
    VersionsAllocated(s);
    forall k
      ensures h !in LayerOf(s, k)
    {
      assert forall u :: u in LayerOf(s, k) ==> u in s.chg;
    }
    if c in s.brVers {
      forall v: VerId, k
        ensures Read(s, c, v, k) == Read(t, c, v, k)
      {
        assert Visible(LayerOf(s, k), s.brVers[c], v) == Visible(LayerOf(t, k), t.brVers[c], v);
        ReadSame(s, t, c, c, v, v, k);
      }
    }
    assert h in t.brVers[b];
    assert Max(t.brVers[b]) == h;
    if s.brVers[b] == {} {
      assert t.brVers[b] == {h} && LayerOf(t, k) == LayerOf(s, k);
      assert Visible(LayerOf(t, k), t.brVers[b], h) == {};
    } else {
      var g := Max(s.brVers[b]);
      assert Visible(LayerOf(t, k), t.brVers[b], h) == Visible(LayerOf(s, k), s.brVers[b], g);
      ReadSame(s, t, b, b, g, h, k);
    }
  }

  /** The version of the base that a fork starts from. */
  ghost function ForkVersion(s: State, base: BrId, from: ForkPoint): VerId {
    if from.At? then from.ver else if base in s.brVers && s.brVers[base] != {} then Max(s.brVers[base]) else 0
  }

  lemma AddedBranchReads(s: State, brName: Name, base: BrId, from: ForkPoint, k: Key)
    requires CanFork(s, brName, base, from) && s.nextBr !in s.brVers
    ensures HeadRead(AddBranch(s, brName, ForkedVersions(s, base, from)), s.nextBr, k)
         == Read(s, base, ForkVersion(s, base, from), k)
  {
    var u := AddBranch(s, brName, ForkedVersions(s, base, from));
    assert u.brVers[s.nextBr] == UpTo(s.brVers[base], ForkVersion(s, base, from));
    HeadOfHistory(s, u, base, s.nextBr, ForkVersion(s, base, from), k);
  }

  lemma ForkKeepsBase(s: State, brName: Name, base: BrId, from: ForkPoint, force: bool, c: BrId, k: Key)
    requires var t := Vacated(s, brName, force); CanFork(t, brName, base, from)
    ensures var t := Vacated(s, brName, force);
      && t.nextBr == s.nextBr
      && ForkVersion(t, base, from) == ForkVersion(s, base, from)
      && Read(t, base, ForkVersion(s, base, from), k) == Read(s, base, ForkVersion(s, base, from), k)
      && (c in s.brVers && !(brName in s.brNameToId && c == s.brNameToId[brName]) ==>
            c in t.brVers && SameReadsOn(s, t, c))
  {
  }

  /** A new branch reads at its head what its base read at the fork point, and every other branch that
      remains reads as before. */
  lemma ForkIsTimeTravel(s: State, brName: Name, verName: Option<Name>, base: BrId, from: ForkPoint, force: bool,
                         c: BrId, k: Key)
    requires Inv(s) && CreateBranch(s, brName, verName, base, from, force).reply == Done
    ensures var t := CreateBranch(s, brName, verName, base, from, force).state;
      && brName in t.brNameToId && t.brNameToId[brName] == s.nextBr
      && HeadRead(t, s.nextBr, k) == Read(s, base, ForkVersion(s, base, from), k)
      && (c in s.brVers && !(brName in s.brNameToId && c == s.brNameToId[brName]) ==> SameReadsOn(s, t, c))
  {
    var t := Vacated(s, brName, force);
    VacatedKeeps(s, brName, force);
    ForkKeepsBase(s, brName, base, from, force, c, k);
    AddedBranchReads(t, brName, base, from, k);
    var u := AddBranch(t, brName, ForkedVersions(t, base, from));
    AddBranchInv(t, brName, ForkedVersions(t, base, from));
    if c in t.brVers { CreatedBranchReads(t, brName, ForkedVersions(t, base, from), c); }
    if verName.Some? { FreshVersionShowsNothing(u, verName.value, t.nextBr, c, k); }
  }

  /** A forced creation whose name is taken removes the old branch even when it then fails: exactly when
      the old branch is the base itself, or the version is not on the base. */
  lemma ForcedCreationFailsLate(s: State, brName: Name, verName: Option<Name>, base: BrId, from: ForkPoint)
    requires Inv(s) && brName in s.brNameToId && base in s.brVers
    requires verName.Some? ==> verName.value !in s.verNameToId
    ensures var o := CreateBranch(s, brName, verName, base, from, true);
      && s.brNameToId[brName] !in o.state.brVers
      && (o.reply.Fail? <==> s.brNameToId[brName] == base || (from.At? && from.ver !in s.brVers[base]))
      && (o.reply.Fail? ==> brName !in o.state.brNameToId)
  {
    VacatedKeeps(s, brName, true);
  }

  // ---------- merging ----------

  /** A safe merge makes the target read as the source, and keeps every read at a version the target had. */
  lemma SafeMergeReads(s: State, b: BrId, target: BrId, v: VerId, k: Key)
    requires Coherent(s.brVers) && Merge(s, b, target, false).reply == Done
    ensures var t := Merge(s, b, target, false).state;
      && Read(t, target, v, k) == Read(s, b, v, k)
      && HeadRead(t, target, k) == HeadRead(s, b, k)
      && (v in s.brVers[target] ==> Read(t, target, v, k) == Read(s, target, v, k))
  {
    var t := Merge(s, b, target, false).state;
    SafeMergeAdoptsSource(s, b, target);
    if v in s.brVers[target] {
      assert UpTo(s.brVers[target], v) == UpTo(s.brVers[b], v);
      var m := LayerOf(s, k);
      assert forall u :: u in Visible(m, s.brVers[target], v) ==> u in UpTo(s.brVers[target], v);
      assert forall u :: u in Visible(m, s.brVers[b], v) ==> u in UpTo(s.brVers[b], v);
      assert Visible(m, s.brVers[target], v) == Visible(m, s.brVers[b], v);
    }
  }

  /** Whether the newest entry visible on `b` is newer than any visible on `c`. */
  ghost predicate NewerOn(s: State, b: BrId, c: BrId, v: VerId, k: Key)
    requires b in s.brVers && c in s.brVers
  {
    exists u :: u in Visible(LayerOf(s, k), s.brVers[b], v)
      && forall w :: w in Visible(LayerOf(s, k), s.brVers[c], v) ==> w < u
  }

  lemma JointVisible(m: Layer, on: set<VerId>, also: set<VerId>, v: VerId)
    ensures Visible(m, on + also, v) == Visible(m, on, v) + Visible(m, also, v)
  {
  }

  lemma JointLookup(m: Layer, on: set<VerId>, also: set<VerId>, v: VerId)
    ensures Lookup(m, on + also, v) ==
      if exists u :: u in Visible(m, also, v) && forall w :: w in Visible(m, on, v) ==> w < u
      then Lookup(m, also, v) else Lookup(m, on, v)
  {
    JointVisible(m, on, also, v);
    var p, q := Visible(m, on, v), Visible(m, also, v);
    if u :| u in q && forall w :: w in p ==> w < u {
      assert Max(q) in p + q && u <= Max(q);
      LookupNewest(m, on + also, v, Max(q));
    } else if q == {} {
      assert p + q == p;
      LookupSame(m, on + also, v, m, on, v);
    } else {
      assert Max(q) in q;
      var w :| w in p && Max(q) <= w;
      assert Max(p) in p + q && w <= Max(p);
      LookupNewest(m, on + also, v, Max(p));
    }
  }

  /** A forced merge moves no data: branches other than the target keep every read, and the target now
      reads as whichever of the two branches has the newer visible entry. */
  lemma ForcedMergeReads(s: State, b: BrId, target: BrId, c: BrId, v: VerId, k: Key)
    requires b in s.brVers && target in s.brVers
    ensures var t := Merge(s, b, target, true).state;
      && (c != target ==> Read(t, c, v, k) == Read(s, c, v, k))
      && Read(t, target, v, k) == if NewerOn(s, b, target, v, k) then Read(s, b, v, k) else Read(s, target, v, k)
  {
    JointLookup(LayerOf(s, k), s.brVers[target], s.brVers[b], v);
  }

  // ---------- swapping names ----------

  ghost function ReadByName(s: State, n: Name, k: Key): Option<Value> {
    if n in s.brNameToId then HeadRead(s, s.brNameToId[n], k) else None
  }

  /** Swapping exchanges what two names read, touches no other name, and leaves the default branch its name. */
  lemma SwapExchanges(s: State, n1: Name, n2: Name, n: Name, k: Key)
    requires Inv(s) && n1 in s.brNameToId && n2 in s.brNameToId
    ensures var t := Swap(s, n1, n2).state;
      && ReadByName(t, n1, k) == ReadByName(s, n2, k)
      && ReadByName(t, n2, k) == ReadByName(s, n1, k)
      && (n != n1 && n != n2 ==> ReadByName(t, n, k) == ReadByName(s, n, k))
      && Find(t.brIdToName, t.defaultBranch) == Find(s.brIdToName, s.defaultBranch)
  {
  }

  /** Swapping again undoes a swap. */
  lemma SwapIsInvolution(s: State, n1: Name, n2: Name)
    requires Inv(s) && n1 in s.brNameToId && n2 in s.brNameToId
    ensures Swap(Swap(s, n1, n2).state, n1, n2).state == s
  {
    var u := Swap(Swap(s, n1, n2).state, n1, n2).state;
    assert u.brNameToId == s.brNameToId;
    assert u.brIdToName == s.brIdToName;
  }
}
