/**
 What each operation does, told by what can be observed: which versions are on which branches, what names
 stand for, which entries there are and what is read. Every law is pointwise and speaks of all branches,
 names and keys, so that nothing an operation does or omits escapes it.
 */
module Effects {
  import opened Basics
  import opened OrderedSets
  import opened VersionState
  import opened VersionInvariants
  import opened Compaction
  import opened Rebasing
  import opened History
  import opened Replies

  ghost function Entry(s: State, k: Key, v: VerId): Option<Value> {
    Find(LayerOf(s, k), v)
  }

  ghost predicate OnAny(s: State, v: VerId) {
    exists b: BrId :: On(s, b, v)
  }

  /** A new map has the one branch "master" and nothing else. */
  lemma FreshMap(nextBr: BrId, nextVer: VerId, b: BrId, v: VerId, k: Key)
    ensures var t := Init(nextBr, nextVer);
      && t.brVers.Keys == {0} && !On(t, b, v) && Entry(t, k, v) == None && Read(t, b, v, k) == None
      && t.brNameToId == map[[109, 97, 115, 116, 101, 114] := 0] && t.defaultBranch == 0 && t.verNameToId == map[]
  {
    assert Visible(map[], {}, v) == {};
  }

  /** What goes ahead is answered with `Done`; only writes answer with a value. */
  lemma SuccessIsDone(s: State, op: Op)
    requires Inv(s) && Countable(op) && Accepts(s, op)
    ensures if op.OpWrite? then Step(s, op).reply == Old(HeadRead(s, op.b, op.k)) else Step(s, op).reply == Done
  {
    AcceptsExactly(s, op);
    match op
    case OpWrite(b, k, value) => WriteAtHead(s, b, k, value);
    case OpCreateBranch(brName, verName, base, from, force) =>
      hide Vacated;
    case _ =>
  }

  // ---------- writing ----------

  /** A write that takes effect sets the one entry at the newest version of its branch, and one that does not
      changes nothing at all. */
  lemma WriteSetsOneEntry(s: State, b: BrId, k: Key, value: Option<Value>, h: VerId, k': Key, v: VerId)
    requires NewestOn(s, b, h)
    ensures var t := Write(s, b, k, value).state;
      && t == s.(kv := t.kv, chg := t.chg)
      && (value == None && HeadRead(s, b, k) == None ==> t == s)
      && (value.Some? || HeadRead(s, b, k).Some? ==>
            Entry(t, k', v) ==
              if k' == k && v == h then Some(if value.Some? then value.value else []) else Entry(s, k', v))
  {
    NewestIsMax(s, b, h);
    hide Read;
  }

  // ---------- versions ----------

  /** A new version goes on top of its branch under its name. */
  lemma CreationAddsVersion(s: State, name: Name, b: BrId, c: BrId, v: VerId)
    requires CreateVersion(s, name, b).reply == Done
    ensures var t := CreateVersion(s, name, b).state;
      && (On(t, c, v) <==> On(s, c, v) || (c == b && v == s.nextVer))
      && t.brVers.Keys == s.brVers.Keys
      && t.verNameToId == s.verNameToId[name := s.nextVer] && t.verIdToName == s.verIdToName[s.nextVer := name]
      && t.chg == s.chg[s.nextVer := {}] && t.nextVer == s.nextVer + 1
      && t == s.(brVers := t.brVers, verNameToId := t.verNameToId, verIdToName := t.verIdToName, chg := t.chg,
                 nextVer := t.nextVer)
  {
  }

  /** Popping takes the newest version off the branch, whichever it is, and nothing else. */
  lemma PopRemovesNewest(s: State, b: BrId, c: BrId, v: VerId)
    requires b in s.brVers
    ensures var t := PopVersion(s, b).state;
      && PopVersion(s, b).reply == Done
      && (On(t, c, v) <==> On(s, c, v) && !(c == b && NewestOn(s, b, v)))
      && t.brVers.Keys == s.brVers.Keys && t == s.(brVers := t.brVers)
  {
    if s.brVers[b] != {} { NewestIsMax(s, b, v); }
  }

  /** The head then reads what was read at any version between the others and the popped one, or nothing if
      there are no others; other branches keep their reads. */
  lemma PopGoesBack(s: State, b: BrId, h: VerId, c: BrId, k: Key)
    requires NewestOn(s, b, h)
    ensures var t := PopVersion(s, b).state;
      && (forall g: VerId :: g < h && (forall u: VerId :: On(s, b, u) && u != h ==> u <= g) ==>
            HeadRead(t, b, k) == Read(s, b, g, k))
      && ((forall u: VerId :: On(s, b, u) ==> u == h) ==> HeadRead(t, b, k) == None)
      && (c != b ==> SameReadsOn(s, t, c))
  {
    NewestIsMax(s, b, h);
    var t := PopVersion(s, b).state;
    assert t.brVers[b] == s.brVers[b] - {h};
    forall g: VerId | g < h && (forall u: VerId :: On(s, b, u) && u != h ==> u <= g)
      ensures HeadRead(t, b, k) == Read(s, b, g, k)
    {
      assert forall u :: u in s.brVers[b] ==> On(s, b, u);
      assert t.brVers[b] == UpTo(s.brVers[b], g);
      HeadOfHistory(s, t, b, b, g, k);
    }
    if forall u: VerId :: On(s, b, u) ==> u == h {
      assert forall u :: u in s.brVers[b] ==> On(s, b, u);
      assert t.brVers[b] == {};
    }
  }

  /** A rebase takes the versions above the base off the branch and frees their names; other branches keep
      their lists and other versions their names. */
  lemma RebaseDropsVersions(s: State, base: VerId, b: BrId, c: BrId, v: VerId, n: Name)
    requires On(s, b, base)
    ensures var t := Rebase(s, base, b).state;
      && Rebase(s, base, b).reply == Done
      && (On(t, c, v) <==> On(s, c, v) && !(c == b && base < v))
      && t.brVers.Keys == s.brVers.Keys
      && Find(t.verNameToId, n) == FreedOf(s.verNameToId, n, (id: nat) => On(s, b, id) && base < id)
      && t == s.(brVers := t.brVers, kv := t.kv, chg := t.chg,
                 verNameToId := t.verNameToId, verIdToName := t.verIdToName)
  {
  }

  /** Entries at the versions that a rebase merges go, the newest of them for a key becomes the base's, and
      entries at all other versions stay, whether a branch has them or not. */
  lemma RebaseMovesEntries(s: State, base: VerId, b: BrId, k: Key, v: VerId)
    requires On(s, b, base)
    ensures var t := Rebase(s, base, b).state;
      && (On(s, b, v) && base < v ==> Entry(t, k, v) == None)
      && (!(On(s, b, v) && base < v) && v != base ==> Entry(t, k, v) == Entry(s, k, v))
      && (On(s, b, v) && base <= v && Entry(s, k, v).Some?
          && (forall u: VerId :: On(s, b, u) && Entry(s, k, u).Some? ==> u <= v) ==>
            Entry(t, k, base) == Entry(s, k, v))
      && ((forall u: VerId :: On(s, b, u) && base < u ==> Entry(s, k, u) == None) ==>
            Entry(t, k, base) == Entry(s, k, base))
  {
    var m, d := LayerOf(s, k), After(s, b, base);
    RebasedLayer(s, base, b, d, k);
    CollapseFacts(m, d, base);
    assert forall u: VerId :: u in m.Keys * d <==> On(s, b, u) && base < u && Entry(s, k, u).Some?;
    assert m.Keys * d != {} ==> Max(m.Keys * d) in m.Keys * d;
  }

  /** What a name stands for once the names of some ids are free. */
  ghost function FreedOf(names: map<Name, nat>, n: Name, freed: nat -> bool): Option<nat> {
    if n in names && !freed(names[n]) then Some(names[n]) else None
  }

  /** Reverting takes a version off every branch, with all its entries and its name. */
  lemma RevertForgetsVersion(s: State, w: VerId, c: BrId, v: VerId, k: Key, n: Name)
    requires w in s.chg
    ensures var t := Revert(s, w).state;
      && Revert(s, w).reply == Done
      && (On(t, c, v) <==> On(s, c, v) && v != w)
      && t.brVers.Keys == s.brVers.Keys
      && Entry(t, k, v) == (if v == w then None else Entry(s, k, v))
      && Find(t.verNameToId, n) == FreedOf(s.verNameToId, n, (id: nat) => id == w)
      && t == s.(brVers := t.brVers, kv := t.kv, chg := t.chg,
                 verNameToId := t.verNameToId, verIdToName := t.verIdToName)
  {
  }

  // ---------- clean-up ----------

  lemma LiveIsOnAny(s: State, v: VerId)
    ensures v in Live(s) <==> OnAny(s, v)
  {
    if v in Live(s) {
      var b :| b in s.brVers && v in s.brVers[b];
      assert On(s, b, v);
    }
  }

  /** Cleaning up keeps the entries and names of exactly the versions on some branch, and no key whose last
      entry went. */
  lemma CleanUpForgetsDead(s: State, k: Key, v: VerId, n: Name)
    requires Inv(s)
    ensures var t := CleanUp(s);
      && t == s.(kv := t.kv, chg := t.chg, verNameToId := t.verNameToId, verIdToName := t.verIdToName)
      && Entry(t, k, v) == (if OnAny(s, v) then Entry(s, k, v) else None)
      && (k in t.kv <==> k in s.kv && (s.kv[k] == map[] || exists w: VerId :: Entry(t, k, w).Some?))
      && Find(t.verNameToId, n) == FreedOf(s.verNameToId, n, (id: nat) => id in s.chg && !OnAny(s, id))
  {
    var t := CleanUp(s);
    PurgedLayer(s, Dead(s), k);
    LiveIsOnAny(s, v);
    if n in s.verNameToId { LiveIsOnAny(s, s.verNameToId[n]); }
    assert v in LayerOf(s, k) ==> v in s.chg;
    PurgedKeys(s, Dead(s), k);
  }

  lemma PurgedKeys(s: State, d: set<VerId>, k: Key)
    ensures var t := Purge(s, d);
      k in t.kv <==> k in s.kv && (s.kv[k] == map[] || exists w: VerId :: Entry(t, k, w).Some?)
  {
    var t := Purge(s, d);
    PurgedLayer(s, d, k);
    if k in s.kv && !(s.kv[k].Keys <= d) {
      var w :| w in s.kv[k] && w !in d;
      assert Entry(t, k, w).Some?;
    }
  }

  /** Keeping only some branches: those keep their lists and names, and entries and version names stay for
      what is on them. */
  lemma KeepOnlyForgetsOthers(s: State, ids: set<BrId>, c: BrId, v: VerId, k: Key, n: Name)
    requires Inv(s)
    ensures var t := KeepOnly(s, ids); var kept := exists b: BrId :: b in ids && On(s, b, v);
      && (On(t, c, v) <==> On(s, c, v) && c in ids)
      && t.brVers.Keys == s.brVers.Keys * ids
      && Find(t.brNameToId, n) == FreedOf(s.brNameToId, n, (id: nat) => id !in ids)
      && Entry(t, k, v) == (if kept then Entry(s, k, v) else None)
      && Find(t.verNameToId, n) ==
           FreedOf(s.verNameToId, n, (id: nat) => id in s.chg && !(exists b: BrId :: b in ids && On(s, b, id)))
      && t.defaultBranch == s.defaultBranch && t.nextBr == s.nextBr && t.nextVer == s.nextVer
  {
    hide CleanUp, Inv, OnAny;
    var r := RemoveBranches(s, s.brVers.Keys - ids);
    RemoveBranchesInv(s, s.brVers.Keys - ids);
    CleanUpForgetsDead(r, k, v, n);
    RemainsOnAny(s, ids, v);
    if n in s.verNameToId { RemainsOnAny(s, ids, s.verNameToId[n]); }
    RemainingNames(s, ids, n);
  }

  lemma RemainsOnAny(s: State, ids: set<BrId>, u: VerId)
    ensures OnAny(RemoveBranches(s, s.brVers.Keys - ids), u) <==> exists b: BrId :: b in ids && On(s, b, u)
  {
    var r := RemoveBranches(s, s.brVers.Keys - ids);
    assert forall b: BrId :: On(r, b, u) <==> b in ids && On(s, b, u);
  }

  lemma RemainingNames(s: State, ids: set<BrId>, n: Name)
    requires Inv(s)
    ensures Find(RemoveBranches(s, s.brVers.Keys - ids).brNameToId, n)
         == FreedOf(s.brNameToId, n, (id: nat) => id !in ids)
  {
    assert n in s.brNameToId ==> s.brNameToId[n] in s.brVers;
  }

  // ---------- branches ----------

  /** Truncating empties the branch, whose head then reads nothing, and touches no other. */
  lemma TruncateEmpties(s: State, b: BrId, c: BrId, v: VerId, k: Key)
    requires b in s.brVers
    ensures var t := TruncateBranch(s, b).state;
      && TruncateBranch(s, b).reply == Done
      && (On(t, c, v) <==> On(s, c, v) && c != b)
      && t.brVers.Keys == s.brVers.Keys && t == s.(brVers := t.brVers)
      && HeadRead(t, b, k) == None && Read(t, b, v, k) == None
      && (c != b ==> SameReadsOn(s, t, c) && HeadRead(t, c, k) == HeadRead(s, c, k))
  {
    assert Visible(LayerOf(s, k), {}, v) == {};
  }

  /** Truncating to a version below the largest id keeps exactly what is at or below it. */
  lemma TruncateToKeepsUpTo(s: State, b: BrId, last: VerId, c: BrId, v: VerId)
    requires b in s.brVers && last < 0xFFFF_FFFF_FFFF_FFFF
    ensures var t := TruncateBranchTo(s, b, last).state;
      && TruncateBranchTo(s, b, last).reply == Done
      && (On(t, c, v) <==> On(s, c, v) && (c == b ==> v <= last))
      && t.brVers.Keys == s.brVers.Keys && t == s.(brVers := t.brVers)
  {
  }

  /** Removing a branch takes it, its name and nothing else. */
  lemma RemoveTakesBranch(s: State, b: BrId, c: BrId, v: VerId, n: Name)
    requires Inv(s) && b in s.brVers
    ensures var t := RemoveBranch(s, b).state;
      && RemoveBranch(s, b).reply == Done
      && (On(t, c, v) <==> On(s, c, v) && c != b)
      && t.brVers.Keys == s.brVers.Keys - {b}
      && Find(t.brNameToId, n) == FreedOf(s.brNameToId, n, (id: nat) => id == b)
      && (c != b ==> SameReadsOn(s, t, c))
      && t == s.(brVers := t.brVers, brNameToId := t.brNameToId, brIdToName := t.brIdToName)
  {
  }

  /** The branch that a forced creation replaces. */
  ghost predicate Replaced(s: State, brName: Name, force: bool, c: BrId) {
    force && Find(s.brNameToId, brName) == Some(c)
  }

  lemma VacatedLists(s: State, brName: Name, force: bool, c: BrId, v: VerId)
    requires Inv(s)
    ensures var t := Vacated(s, brName, force);
      && Inv(t) && t.nextBr == s.nextBr && t.nextVer == s.nextVer
      && (On(t, c, v) <==> On(s, c, v) && !Replaced(s, brName, force, c))
      && (c in t.brVers <==> c in s.brVers && !Replaced(s, brName, force, c))
  {
    VacatedKeeps(s, brName, force);
    hide Inv;
  }

  lemma ForkLists(s: State, brName: Name, verName: Option<Name>, base: BrId, from: ForkPoint, c: BrId, v: VerId)
    requires Inv(s) && base in s.brVers && Fork(s, brName, verName, base, from).reply == Done
    ensures var t := Fork(s, brName, verName, base, from).state;
      && (On(t, s.nextBr, v) <==> (On(s, base, v) && (from.At? ==> v <= from.ver)) || (verName.Some? && v == s.nextVer))
      && (c != s.nextBr ==> (On(t, c, v) <==> On(s, c, v)))
      && (c in t.brVers <==> c == s.nextBr || c in s.brVers)
  {
    assert s.nextBr !in s.brVers;
    hide Inv;
    var u := AddBranch(s, brName, ForkedVersions(s, base, from));
    assert On(u, s.nextBr, v) <==> On(s, base, v) && (from.At? ==> v <= from.ver);
  }

  /** A new branch has the versions of its base up to the fork point and, if one is named, a fresh version
      of that name; every branch that it does not replace keeps its list. */
  lemma CreationForks(s: State, brName: Name, verName: Option<Name>, base: BrId, from: ForkPoint, force: bool,
                      c: BrId, v: VerId)
    requires Inv(s) && CreateBranch(s, brName, verName, base, from, force).reply == Done
    ensures var t := CreateBranch(s, brName, verName, base, from, force).state;
      && (On(t, s.nextBr, v) <==> (On(s, base, v) && (from.At? ==> v <= from.ver)) || (verName.Some? && v == s.nextVer))
      && (c != s.nextBr ==> (On(t, c, v) <==> On(s, c, v) && !Replaced(s, brName, force, c)))
      && (c in t.brVers <==> c == s.nextBr || (c in s.brVers && !Replaced(s, brName, force, c)))
  {
    VacatedLists(s, brName, force, c, v);
    VacatedLists(s, brName, force, base, v);
    hide Vacated, Inv, Fork, On;
    var u := Vacated(s, brName, force);
    assert base in u.brVers;
    assert CreateBranch(s, brName, verName, base, from, force) == Fork(u, brName, verName, base, from);
    ForkLists(u, brName, verName, base, from, c, v);
  }

  /** Of the names, the new branch has its own, and so has its first version; data and default stay. */
  lemma CreationNames(s: State, brName: Name, verName: Option<Name>, base: BrId, from: ForkPoint, force: bool)
    requires Inv(s) && CreateBranch(s, brName, verName, base, from, force).reply == Done
    ensures var t := CreateBranch(s, brName, verName, base, from, force).state;
      && t.brNameToId == s.brNameToId[brName := s.nextBr]
      && t.verNameToId == (if verName.Some? then s.verNameToId[verName.value := s.nextVer] else s.verNameToId)
      && t.kv == s.kv && t.defaultBranch == s.defaultBranch && t.nextBr == s.nextBr + 1
      && t.nextVer == s.nextVer + (if verName.Some? then 1 else 0)
      && t.chg == if verName.Some? then s.chg[s.nextVer := {}] else s.chg
  {
    VacatedKeeps(s, brName, force);
    assert brName in s.brNameToId ==> s.brNameToId - {brName} == WithoutIds(s.brNameToId, {s.brNameToId[brName]});
    hide IndexAgrees, VersionsKnown, IdsAllocated;
  }

  /** What is then written on the new branch's own version shows on no other branch. */
  lemma OwnVersionIsPrivate(s: State, brName: Name, name: Name, base: BrId, from: ForkPoint, force: bool,
                            k: Key, value: Option<Value>, c: BrId)
    requires Inv(s) && s.nextVer < VER_ID_MAX && c != s.nextBr
    requires CreateBranch(s, brName, Some(name), base, from, force).reply == Done
    ensures var t := CreateBranch(s, brName, Some(name), base, from, force).state;
      && NewestOn(t, s.nextBr, s.nextVer)
      && SameReadsOn(t, Write(t, s.nextBr, k, value).state, c)
  {
    var t := CreateBranch(s, brName, Some(name), base, from, force).state;
    VersionsAllocated(s);
    forall b: BrId, v: VerId
      ensures On(t, b, v) ==> v <= s.nextVer && (v == s.nextVer ==> b == s.nextBr)
      ensures On(t, s.nextBr, s.nextVer)
    {
      CreationForks(s, brName, Some(name), base, from, force, b, v);
      CreationForks(s, brName, Some(name), base, from, force, s.nextBr, s.nextVer);
      CreationForks(s, brName, Some(name), base, from, force, s.nextBr, v);
    }
    hide CreateBranch;
    NewestIsMax(t, s.nextBr, s.nextVer);
    var u := Write(t, s.nextBr, k, value).state;
    forall v: VerId, k'
      ensures Read(t, c, v, k') == Read(u, c, v, k')
    {
      assert !On(t, c, s.nextVer);
      if TakesEffect(t, s.nextBr, k, value) {
        WriteFrame(t, s.nextBr, k, value, c, v, k');
      } else {
        WriteAtHead(t, s.nextBr, k, value);
      }
    }
  }

  /** A merge gives the target what the other branch has, and changes nothing else. */
  lemma MergeJoins(s: State, b: BrId, target: BrId, forced: bool, c: BrId, v: VerId)
    requires Merge(s, b, target, forced).reply == Done
    ensures var t := Merge(s, b, target, forced).state;
      && (On(t, c, v) <==> On(s, c, v) || (c == target && On(s, b, v)))
      && t.brVers.Keys == s.brVers.Keys && t == s.(brVers := t.brVers)
  {
  }

  /** On coherent histories a safe merge goes ahead exactly if the target has nothing but a beginning of
      what the other branch has. */
  lemma SafeMergeExactly(s: State, b: BrId, target: BrId)
    requires Coherent(s.brVers) && b in s.brVers && target in s.brVers
    ensures Merge(s, b, target, false).reply == Done <==> IsBeginning(s.brVers[target], s.brVers[b])
  {
    if Merge(s, b, target, false).reply == Done {
      SafeMergeAdoptsSource(s, b, target);
    } else {
      assert Max(s.brVers[target]) in s.brVers[target] && Max(s.brVers[target]) !in s.brVers[b];
    }
  }

  /** Setting the default branch does only that. */
  lemma DefaultIsSet(s: State, b: BrId)
    requires Inv(s) && b in s.brVers
    ensures SetDefault(s, b).reply == Done
    ensures SetDefault(s, b).state.defaultBranch == b
    ensures SetDefault(s, b).state == s.(defaultBranch := SetDefault(s, b).state.defaultBranch)
  {
  }

  /** Swapping exchanges what two names stand for; the default stays the branch of its name, and lists and
      data stay. */
  lemma SwapExchangesNames(s: State, n1: Name, n2: Name, n: Name)
    requires Inv(s) && n1 in s.brNameToId && n2 in s.brNameToId
    ensures var t := Swap(s, n1, n2).state;
      && Swap(s, n1, n2).reply == Done
      && Find(t.brNameToId, n) == Find(s.brNameToId, if n == n1 then n2 else if n == n2 then n1 else n)
      && (Find(s.brNameToId, n) == Some(s.defaultBranch) ==> Find(t.brNameToId, n) == Some(t.defaultBranch))
      && t == s.(brNameToId := t.brNameToId, brIdToName := t.brIdToName, defaultBranch := t.defaultBranch)
      && (s.defaultBranch !in s.brIdToName ==> t.defaultBranch == s.defaultBranch)
  {
    hide IndexAgrees, VersionsKnown, IdsAllocated;
  }
}
