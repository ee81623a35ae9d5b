/** The versioned map itself: tables that hold nested maps by handle, updated in place. */
module VersionedMap {
  import opened Basics
  import opened OrderedSets
  import opened VersionState
  import opened VersionInvariants
  import opened Handles
  import opened Steps
  import opened CommonPrefix
  import opened Reloading

  class MapxRawVs {
    var defaultBranch: BrId
    var brNameToId: map<Name, BrId>
    var verNameToId: map<Name, VerId>
    var brToItsVers: map<BrId, Handle>
    var layeredKv: map<Key, Handle>

    // derived tables
    var brIdToName: map<BrId, Name>
    var verIdToName: map<VerId, Name>
    var verToChangeSet: map<VerId, set<Key>>

    // the database: the nested maps and the id allocators
    var instances: Instances
    var nextHandle: Handle
    var nextBr: BrId
    var nextVer: VerId

    // what the tables of handles represent
    ghost var contents: Contents

    ghost predicate Formed()
      reads this`brToItsVers, this`layeredKv, this`instances, this`nextHandle, this`contents
    {
      Represents(brToItsVers, layeredKv, instances, nextHandle, contents)
    }

    ghost function Abs(): State
      reads this
    {
      State(defaultBranch, brNameToId, brIdToName, verNameToId, verIdToName,
            contents.histories, contents.layers, verToChangeSet, nextBr, nextVer)
    }

    ghost predicate Valid()
      reads this
    {
      Formed() && Inv(Abs())
    }

    // ---------- steps on the nested maps ----------

    /** A nested map that no slot refers to yet. */
    method NewInstance() returns (h: Handle)
      requires Formed()
      modifies this`instances, this`nextHandle
      ensures Formed()
      ensures h in instances && instances[h] == map[] && h !in brToItsVers.Values && h !in layeredKv.Values
    {
      hide Represents;
      h := nextHandle;
      FreshHandle(brToItsVers, layeredKv, instances, h, contents, map[]);
      instances, nextHandle := instances[h := map[]], h + 1;
    }

    method SetVersions(b: BrId, m: Layer)
      requires Formed() && b in brToItsVers
      modifies this`instances, this`contents
      ensures Formed() && contents == old(contents).(histories := old(contents).histories[b := m.Keys])
    {
      hide Represents;
      UpdateHistory(brToItsVers, layeredKv, instances, nextHandle, contents, b, m);
      instances, contents := instances[brToItsVers[b] := m], contents.(histories := contents.histories[b := m.Keys]);
    }

    /** The version list of a branch, as the nested map behind its handle. */
    method Versions(b: BrId) returns (r: Option<Layer>)
      requires Formed()
      ensures r.Some? <==> b in contents.histories
      ensures r.Some? ==> b in brToItsVers && r.value.Keys == contents.histories[b]
    {
      hide Represents;
      Lookups(brToItsVers, layeredKv, instances, nextHandle, contents);
      r := if b in brToItsVers then Some(instances[brToItsVers[b]]) else None;
    }

    method Keys() returns (ks: set<Key>)
      requires Formed()
      ensures ks == contents.layers.Keys
    {
      hide Represents;
      Lookups(brToItsVers, layeredKv, instances, nextHandle, contents);
      ks := layeredKv.Keys;
    }

    method LayerAt(k: Key) returns (r: Option<Layer>)
      requires Formed()
      ensures r == if k in contents.layers then Some(contents.layers[k]) else None
      ensures r.Some? ==> k in layeredKv
    {
      hide Represents;
      Lookups(brToItsVers, layeredKv, instances, nextHandle, contents);
      r := if k in layeredKv then Some(instances[layeredKv[k]]) else None;
    }

    method SetLayer(k: Key, m: Layer)
      requires Formed() && k in layeredKv
      modifies this`instances, this`contents
      ensures Formed() && contents == old(contents).(layers := old(contents).layers[k := m])
    {
      hide Represents;
      UpdateLayer(brToItsVers, layeredKv, instances, nextHandle, contents, k, m);
      instances, contents := instances[layeredKv[k] := m], contents.(layers := contents.layers[k := m]);
    }

    method InsertVersion(b: BrId, v: VerId)
      requires Formed() && b in contents.histories
      modifies this`instances, this`contents
      ensures Formed()
      ensures contents == old(contents).(histories := old(contents).histories[b := old(contents).histories[b] + {v}])
    {
      hide Formed;
      var r := Versions(b);
      var m: Layer := r.value;
      m := m[v := NULL];
      assert m.Keys == contents.histories[b] + {v};
      SetVersions(b, m);
    }

    method RemoveVersion(b: BrId, v: VerId) returns (found: bool)
      requires Formed() && b in contents.histories
      modifies this`instances, this`contents
      ensures Formed() && found == (v in old(contents).histories[b])
      ensures contents == old(contents).(histories := old(contents).histories[b := old(contents).histories[b] - {v}])
    {
      hide Formed;
      var r := Versions(b);
      found := v in r.value;
      var m := r.value - {v};
      assert m.Keys == contents.histories[b] - {v};
      SetVersions(b, m);
    }

    method EnsureLayer(k: Key)
      requires Formed()
      modifies this`instances, this`layeredKv, this`nextHandle, this`contents
      ensures Formed() && k in layeredKv
      ensures contents == old(contents).(layers := old(contents).layers[k := LayerOf(old(Abs()), k)])
    {
      hide Represents;
      var r := LayerAt(k);
      if r.None? {
        Lookups(brToItsVers, layeredKv, instances, nextHandle, contents);
        var h := NewInstance();
        AttachLayer(brToItsVers, layeredKv, instances, nextHandle, contents, k, h);
        layeredKv, contents := layeredKv[k := h], contents.(layers := contents.layers[k := map[]]);
      } else {
        assert contents.layers == contents.layers[k := contents.layers[k]];
      }
    }

    method PutEntry(k: Key, v: VerId, x: Value)
      requires Formed()
      modifies this`instances, this`layeredKv, this`nextHandle, this`contents
      ensures Formed()
      ensures contents == old(contents).(layers := old(contents).layers[k := LayerOf(old(Abs()), k)[v := x]])
    {
      hide Formed;
      ghost var c := contents;
      EnsureLayer(k);
      var r := LayerAt(k);
      var m: Layer := r.value;
      m := m[v := x];
      SetLayer(k, m);
      assert contents.layers == c.layers[k := m];
    }

    /** Removes an entry, answering its value if it was there. */
    method TakeEntry(k: Key, v: VerId) returns (x: Option<Value>)
      requires Formed()
      modifies this`instances, this`contents
      ensures Formed()
      ensures x == if v in LayerOf(old(Abs()), k) then Some(LayerOf(old(Abs()), k)[v]) else None
      ensures contents == if k in old(contents).layers
                          then old(contents).(layers := old(contents).layers[k := old(contents).layers[k] - {v}])
                          else old(contents)
    {
      hide Formed;
      var r := LayerAt(k);
      if r.None? { return None; }
      x := if v in r.value then Some(r.value[v]) else None;
      SetLayer(k, r.value - {v});
    }

    /** Moves an entry of a key to another version, if it is there. */
    method MoveEntry(k: Key, from: VerId, to: VerId) returns (found: bool)
      requires Formed()
      modifies this`instances, this`contents
      ensures Formed() && found == (from in LayerOf(old(Abs()), k))
      ensures contents ==
        if found then old(contents).(layers := old(contents).layers[k := Moved(LayerOf(old(Abs()), k), from, to)])
        else old(contents)
    {
      hide Formed;
      var r := LayerAt(k);
      if r.None? || from !in r.value { return false; }
      SetLayer(k, Moved(r.value, from, to));
      found := true;
    }

    method DropLayer(k: Key)
      requires Formed()
      modifies this`layeredKv, this`contents
      ensures Formed() && contents == old(contents).(layers := old(contents).layers - {k})
    {
      hide Represents;
      DetachLayer(brToItsVers, layeredKv, instances, nextHandle, contents, k);
      layeredKv, contents := layeredKv - {k}, contents.(layers := contents.layers - {k});
    }

    /** The version name tables without `v`, and whether `v` was in both. */
    function WithoutVersion(v: VerId): (bool, map<VerId, Name>, map<Name, VerId>)
      reads this`verIdToName, this`verNameToId
    {
      if v in verIdToName then
        (verIdToName[v] in verNameToId, verIdToName - {v}, verNameToId - {verIdToName[v]})
      else
        (false, verIdToName, verNameToId)
    }

    // ---------- data ----------

    method GetByBranchVersion(k: Key, b: BrId, v: VerId) returns (r: Option<Value>)
      requires Formed()
      ensures r == Read(Abs(), b, v, k)
    {
      hide Formed;
      var vers := Versions(b);
      if vers.None? { return None; }
      var layer := LayerAt(k);
      if layer.None? { return None; }
      var q := Ids(set u | u in layer.value && u <= v);
      var i := |q|;
      while 0 < i
        invariant 0 <= i <= |q|
        invariant forall j :: i <= j < |q| ==> q[j] !in vers.value
      {
        i := i - 1;
        if q[i] in vers.value {
          ScanFinds(layer.value, vers.value.Keys, v, q, i);
          return Present(layer.value[q[i]]);
        }
      }
      ScanMisses(layer.value, vers.value.Keys, v, q);
      return None;
    }

    /** The newest version of a branch. */
    method LastVersion(b: BrId) returns (r: Option<VerId>)
      requires Formed() && b in contents.histories
      ensures r == if contents.histories[b] == {} then None else Some(Max(contents.histories[b]))
    {
      hide Formed;
      var vers := Versions(b);
      var q := Ids(vers.value.Keys);
      if |q| == 0 { return None; }
      LastIsMax(q, vers.value.Keys);
      r := Some(q[|q| - 1]);
    }

    method GetByBranch(k: Key, b: BrId) returns (r: Option<Value>)
      requires Formed()
      ensures r == HeadRead(Abs(), b, k)
    {
      hide Formed;
      var vers := Versions(b);
      if vers.Some? {
        var v := LastVersion(b);
        if v.Some? {
          r := GetByBranchVersion(k, b, v.value);
          return;
        }
      }
      return None;
    }

    /** `value == None` removes. */
    method WriteByBranchVersion(k: Key, value: Option<Value>, b: BrId, v: VerId) returns (reply: Reply)
      requires Formed() && v in verToChangeSet
      modifies this
      ensures Formed()
      ensures Outcome(Abs(), reply) == WriteAt(old(Abs()), b, v, k, value)
    {
      hide Formed;
      var ret := GetByBranchVersion(k, b, v);
      if value.None? && ret.None? {
        return Old(None);
      }
      PutEntry(k, v, if value.None? then NULL else value.value);
      var missing := v !in verToChangeSet;
      verToChangeSet := AddKeys(verToChangeSet, v, {k});
      reply := if missing then Fail(MissingEntry) else Old(ret);
    }

    /** Inserts, or with `None` removes, at the newest version of a branch. */
    method WriteByBranch(k: Key, value: Option<Value>, b: BrId) returns (reply: Reply)
      requires Valid()
      modifies this
      ensures Valid()
      ensures Outcome(Abs(), reply) == Write(old(Abs()), b, k, value)
    {
      hide Formed;
      var vers := Versions(b);
      if vers.None? { return Fail(BranchNotFound); }
      var v := LastVersion(b);
      if v.None? { return Fail(NoVersionOnBranch); }
      WriteInv(Abs(), b, k, value);
      reply := WriteByBranchVersion(k, value, b, v.value);
    }

    // ---------- versions ----------

    constructor (nextHandle: Handle, nextBr: BrId, nextVer: VerId)
      requires INITIAL_BRANCH_ID < nextBr && nextVer <= VER_ID_MAX
      ensures Valid() && Abs() == Init(nextBr, nextVer)
    {
      defaultBranch := INITIAL_BRANCH_ID;
      brNameToId := map[INITIAL_BRANCH_NAME := INITIAL_BRANCH_ID];
      brIdToName := map[INITIAL_BRANCH_ID := INITIAL_BRANCH_NAME];
      verNameToId, verIdToName, verToChangeSet, layeredKv := map[], map[], map[], map[];
      brToItsVers := map[INITIAL_BRANCH_ID := nextHandle];
      instances := map[nextHandle := map[]];
      this.nextHandle, this.nextBr, this.nextVer := nextHandle + 1, nextBr, nextVer;
      contents := Contents(map[INITIAL_BRANCH_ID := {}], map[]);
      new;
      hide Represents, Inv;
      InitialContents(INITIAL_BRANCH_ID, nextHandle);
      InitInv(nextBr, nextVer);
    }

    method AddVersion(name: Name, b: BrId)
      requires Formed() && name !in verNameToId && b in contents.histories
      modifies this
      ensures Formed() && Outcome(Abs(), Done) == CreateVersion(old(Abs()), name, b)
    {
      hide Formed;
      ghost var s := Abs();
      var v := nextVer;
      InsertVersion(b, v);
      nextVer := nextVer + 1;
      verNameToId := verNameToId[name := v];
      verIdToName := verIdToName[v := name];
      verToChangeSet := verToChangeSet[v := {}];
      assert Abs().brVers == s.brVers[b := s.brVers[b] + {v}];
    }

    method VersionCreateByBranch(name: Name, b: BrId) returns (reply: Reply)
      requires Valid() && nextVer < VER_ID_MAX
      modifies this
      ensures Valid()
      ensures Outcome(Abs(), reply) == CreateVersion(old(Abs()), name, b)
    {
      hide Formed;
      if name in verNameToId { return Fail(VersionExists); }
      var vers := Versions(b);
      if vers.None? { return Fail(BranchNotFound); }
      CreateVersionInv(Abs(), name, b);
      AddVersion(name, b);
      reply := Done;
    }

    method VersionPopByBranch(b: BrId) returns (reply: Reply)
      requires Valid()
      modifies this
      ensures Valid()
      ensures Outcome(Abs(), reply) == PopVersion(old(Abs()), b)
    {
      hide Formed;
      var vers := Versions(b);
      if vers.None? { return Fail(BranchNotFound); }
      PopInv(Abs(), b);
      var missing := false;
      var v := LastVersion(b);
      if v.Some? {
        var found := RemoveVersion(b, v.value);
        missing := !found;
      }
      reply := if missing then Fail(MissingEntry) else Done;
    }

    /** Moves the entries of `v` to `r`, for every key that `v` changed. */
    method MergeChanges(ks: set<Key>, v: VerId, r: VerId, ghost kv: map<Key, Layer>, ghost d: set<VerId>)
        returns (missing: bool)
      requires Formed() && r !in d && v != r && (forall u :: u in d ==> u < v)
      requires ks == set k | k in kv && v in kv[k]
      requires contents.layers == CollapseAll(kv, d, r)
      modifies this`instances, this`contents
      ensures Formed() && !missing
      ensures contents == old(contents).(layers := CollapseAll(kv, d + {v}, r))
    {
      hide Formed;
      ghost var c := contents;
      missing := false;
      var todo := ks;
      PartlyCollapsedAll(kv, d, v, ks, r);
      assert ks - todo == {};
      while todo != {}
        invariant Formed() && !missing && todo <= ks
        invariant contents == c.(layers := PartlyCollapsed(kv, d, v, ks - todo, r))
      {
        var k :| k in todo;
        PartlyCollapsedStep(kv, d, v, ks - todo, r, k);
        assert ks - (todo - {k}) == ks - todo + {k};
        todo := todo - {k};
        var found := MoveEntry(k, v, r);
        missing := missing || !found;
      }
      assert ks - todo == ks;
    }

    /** One round of rebasing: the changes of `v` go to the base, and `v` goes from the branch and the tables. */
    method RebaseOne(v: VerId, base: VerId, b: BrId, ghost s: State, ghost d: set<VerId>) returns (missing: bool)
      requires Formed() && Inv(s) && b in s.brVers && base in s.brVers[b] && v in s.brVers[b]
      requires base !in d && base != v && (forall u :: u in d ==> u < v)
      requires Abs() == RebaseOnto(s, base, b, d)
      modifies this
      ensures Formed() && !missing && Abs() == RebaseOnto(s, base, b, d + {v})
    {
      hide Formed, Inv, RebaseOnto;
      RebaseStep(s, base, b, d, v);
      var ks := if v in verToChangeSet then verToChangeSet[v] else {};
      var chg := verToChangeSet - {v};
      var (named, ids, names) := WithoutVersion(v);
      missing := v !in verToChangeSet || base !in chg || !named;
      verToChangeSet, verIdToName, verNameToId := AddKeys(chg, base, ks), ids, names;
      var lost := MergeChanges(ks, v, base, s.kv, d);
      var found := RemoveVersion(b, v);
      missing := missing || lost || !found;
    }

    method RebaseAll(q: seq<VerId>, base: VerId, b: BrId, ghost s: State) returns (missing: bool)
      requires Formed() && Inv(s) && Abs() == s && b in s.brVers && base in s.brVers[b]
      requires base !in q && forall i, j :: 0 <= i < j < |q| ==> q[i] < q[j]
      requires forall v :: v in q ==> v in s.brVers[b]
      modifies this
      ensures Formed() && !missing && Abs() == RebaseOnto(s, base, b, AsSet(q))
    {
      hide Formed, RebaseOnto, Inv;
      RebaseNothing(s, base, b);
      missing := false;
      ghost var d: set<VerId> := {};
      for i := 0 to |q|
        invariant Formed() && !missing
        invariant d == AsSet(q[..i])
        invariant Abs() == RebaseOnto(s, base, b, d)
      {
        assert q[i] in q && q[..i + 1] == q[..i] + [q[i]];
        assert forall u :: u in q[..i] ==> u in q;
        var lost := RebaseOne(q[i], base, b, s, d);
        missing := missing || lost;
        d := d + {q[i]};
      }
      assert q[..|q|] == q;
    }

    method VersionRebaseByBranch(base: VerId, b: BrId) returns (reply: Reply)
      requires Valid() && MergedUnshared(Abs(), base, b)
      modifies this
      ensures Valid()
      ensures Outcome(Abs(), reply) == Rebase(old(Abs()), base, b)
    {
      hide Formed, RebaseOnto, Inv, MergedUnshared, After;
      var vers := Versions(b);
      if vers.None? { return Fail(BranchNotFound); }
      ghost var s := Abs();
      var q := Ids(set u | u in vers.value && base <= u);
      RestIsAfter(s, b, base, q);
      if |q| == 0 || q[0] != base {
        return Fail(VersionNotOnBranch);
      }
      RebaseInv(s, base, b);
      var missing := RebaseAll(q[1..], base, b, s);
      reply := if missing then Fail(MissingEntry) else Done;
    }

    /** Removes a version from every branch that has it. */
    method RemoveEverywhere(v: VerId)
      requires Formed()
      modifies this`instances, this`contents
      ensures Formed()
      ensures contents == old(contents).(histories :=
        WithoutOn(old(contents).histories, {v}, old(contents).histories.Keys))
    {
      hide Formed;
      var bs := Branches();
      var todo := bs;
      ghost var c := contents;
      assert bs - todo == {};
      WithoutOnNone(c.histories, {v});
      while todo != {}
        invariant Formed() && todo <= bs
        invariant contents == c.(histories := WithoutOn(c.histories, {v}, bs - todo))
      {
        var b :| b in todo;
        WithoutOnStep(c.histories, {v}, bs - todo, b);
        assert bs - (todo - {b}) == bs - todo + {b};
        todo := todo - {b};
        var _ := RemoveVersion(b, v);
      }
      assert bs - todo == bs;
    }

    method Branches() returns (bs: set<BrId>)
      requires Formed()
      ensures bs == contents.histories.Keys
    {
      hide Represents;
      Lookups(brToItsVers, layeredKv, instances, nextHandle, contents);
      bs := brToItsVers.Keys;
    }

    /** Removes the entries of `v` for every key that `v` changed; an emptied layer stays. */
    method EraseChanges(ks: set<Key>, v: VerId) returns (missing: bool)
      requires Formed() && ks == set k | k in contents.layers && v in contents.layers[k]
      modifies this`instances, this`contents
      ensures Formed() && !missing
      ensures contents == old(contents).(layers := PartlyErased(old(contents).layers, v, ks))
    {
      hide Formed;
      ghost var c := contents;
      missing := false;
      var todo := ks;
      PartlyErasedAll(c.layers, v, ks);
      assert ks - todo == {};
      while todo != {}
        invariant Formed() && !missing && todo <= ks
        invariant contents == c.(layers := PartlyErased(c.layers, v, ks - todo))
      {
        var k :| k in todo;
        assert ks - (todo - {k}) == ks - todo + {k};
        todo := todo - {k};
        var x := TakeEntry(k, v);
        missing := missing || x.None?;
        assert contents.layers == PartlyErased(c.layers, v, ks - todo);
      }
      assert ks - todo == ks;
    }

    method VersionRevertGlobally(v: VerId) returns (reply: Reply)
      requires Valid()
      modifies this
      ensures Valid()
      ensures Outcome(Abs(), reply) == Revert(old(Abs()), v)
    {
      hide Formed, Inv, Revert, Freed;
      ghost var s := Abs();
      RevertFacts(s, v);
      if v !in verToChangeSet { return Fail(VersionNotFound); }
      var ks := verToChangeSet[v];
      var (named, ids, names) := WithoutVersion(v);
      verToChangeSet, verIdToName, verNameToId := verToChangeSet - {v}, ids, names;
      var lost := EraseChanges(ks, v);
      RemoveEverywhere(v);
      reply := if lost || !named then Fail(MissingEntry) else Done;
    }

    // ---------- clean-up and pruning ----------

    /** The versions that some branch has. */
    method CollectLive() returns (live: set<VerId>)
      requires Formed()
      ensures live == Live(Abs())
    {
      hide Formed;
      live := {};
      var todo := Branches();
      while todo != {}
        invariant todo <= contents.histories.Keys
        invariant live == set b, v | b in contents.histories.Keys - todo && v in contents.histories[b] :: v
      {
        var b :| b in todo;
        var vers := Versions(b);
        live := live + vers.value.Keys;
        todo := todo - {b};
      }
      assert contents.histories.Keys - todo == contents.histories.Keys;
    }

    /** Removes an entry, and its layer with it if that was the last. */
    method PurgeEntry(k: Key, v: VerId) returns (found: bool)
      requires Formed() && k in contents.layers
      modifies this`instances, this`layeredKv, this`contents
      ensures Formed() && found == (v in old(contents).layers[k])
      ensures contents == old(contents).(layers := RemoveEntry(old(contents).layers, k, v))
    {
      hide Formed;
      ghost var c := contents;
      var x := TakeEntry(k, v);
      found := x.Some?;
      var layer := LayerAt(k);
      if layer.value == map[] {
        DropLayer(k);
        assert c.layers[k := c.layers[k] - {v}] - {k} == c.layers - {k};
      }
    }

    method PurgeChanges(ks: set<Key>, v: VerId, ghost kv: map<Key, Layer>, ghost d: set<VerId>) returns (missing: bool)
      requires Formed() && v !in d
      requires ks == set k | k in kv && v in kv[k]
      requires contents.layers == PurgeLayers(kv, d)
      modifies this`instances, this`layeredKv, this`contents
      ensures Formed() && !missing
      ensures contents == old(contents).(layers := PurgeLayers(kv, d + {v}))
    {
      hide Formed, PurgeLayers, RemoveEntry;
      ghost var c := contents;
      missing := false;
      var todo := ks;
      PartlyPurgedAll(kv, d, v, ks);
      assert ks - todo == {};
      while todo != {}
        invariant Formed() && !missing && todo <= ks
        invariant contents == c.(layers := PartlyPurged(kv, d, v, ks - todo))
      {
        var k :| k in todo;
        PartlyPurgedStep(kv, d, v, ks - todo, k);
        assert ks - (todo - {k}) == ks - todo + {k};
        todo := todo - {k};
        var found := PurgeEntry(k, v);
        missing := missing || !found;
      }
      assert ks - todo == ks;
    }

    method PurgeAll(q: seq<VerId>, ghost s: State) returns (missing: bool)
      requires Formed() && Inv(s) && Abs() == s && forall v :: v in q ==> v in s.chg
      requires forall i, j :: 0 <= i < j < |q| ==> q[i] < q[j]
      modifies this`instances, this`layeredKv, this`contents
      ensures Formed() && !missing
      ensures contents == old(contents).(layers := PurgeLayers(s.kv, AsSet(q)))
    {
      hide Formed, PurgeLayers, Inv;
      ghost var c := contents;
      missing := false;
      PurgeNoLayers(s.kv);
      assert AsSet([]) == {};
      for i := 0 to |q|
        invariant Formed() && !missing
        invariant contents == c.(layers := PurgeLayers(s.kv, AsSet(q[..i])))
      {
        assert q[i] in q;
        InvParts(s);
        IndexedChanges(s, q[i]);
        assert AsSet(q[..i + 1]) == AsSet(q[..i]) + {q[i]};
        var ks := if q[i] in verToChangeSet then verToChangeSet[q[i]] else {};
        var lost := PurgeChanges(ks, q[i], s.kv, AsSet(q[..i]));
        missing := missing || lost;
      }
      assert q[..|q|] == q;
    }

    method FreeAll(q: seq<VerId>, ghost s: State) returns (missing: bool)
      requires Inv(s) && Abs().(kv := s.kv) == s && forall v :: v in q ==> v in s.chg
      requires forall i, j :: 0 <= i < j < |q| ==> q[i] < q[j]
      modifies this`verToChangeSet, this`verIdToName, this`verNameToId
      ensures !missing && Abs().(kv := s.kv) == Freed(s, AsSet(q))
    {
      hide Inv, Freed;
      missing := false;
      FreedNothing(s);
      assert AsSet([]) == {};
      for i := 0 to |q|
        invariant !missing && Abs().(kv := s.kv) == Freed(s, AsSet(q[..i]))
      {
        assert q[i] in q;
        FreedStep(s, AsSet(q[..i]), q[i]);
        assert AsSet(q[..i + 1]) == AsSet(q[..i]) + {q[i]};
        var (named, ids, names) := WithoutVersion(q[i]);
        missing := missing || q[i] !in verToChangeSet || !named;
        verToChangeSet, verIdToName, verNameToId := verToChangeSet - {q[i]}, ids, names;
      }
      assert q[..|q|] == q;
    }

    method VersionCleanUpGlobally() returns (reply: Reply)
      requires Valid()
      modifies this
      ensures Valid()
      ensures Outcome(Abs(), reply) == Outcome(CleanUp(old(Abs())), Done)
    {
      hide Formed, Inv, PurgeLayers, Freed, Live, Dead, CleanUp, AsSet;
      ghost var s := Abs();
      CleanUpFacts(s);
      var live := CollectLive();
      var orphans := Ids(verToChangeSet.Keys - live);
      OrphansAreDead(s, orphans);
      var lost := PurgeAll(orphans, s);
      var unnamed := FreeAll(orphans, s);
      reply := if lost || unnamed then Fail(MissingEntry) else Done;
    }

    /** The versions of a branch, ascending. */
    method VersionList(b: BrId) returns (q: seq<VerId>)
      requires Formed() && b in contents.histories
      ensures q == Ids(contents.histories[b]) && (q == [] <==> contents.histories[b] == {})
    {
      hide Formed;
      var vers := Versions(b);
      q := Ids(vers.value.Keys);
    }

    /** The non-empty branches and their version lists. */
    method NonEmptyLists() returns (bs: seq<BrId>, lists: seq<seq<VerId>>)
      requires Formed()
      ensures ListsOf(Abs(), bs, lists)
      ensures forall i, j :: 0 <= i < j < |bs| ==> bs[i] < bs[j]
    {
      hide Formed, ListsAmong, ListsOf, Represents, Ids;
      var all := Branches();
      var q := Ids(all);
      bs, lists := [], [];
      ListsAmongNone(contents.histories);
      for i := 0 to |q|
        invariant ListsAmong(contents.histories, q[..i], bs, lists)
      {
        OneMoreListed(q, i);
        ListsAmongStep(contents.histories, q[..i], q[i], bs, lists);
        var list := VersionList(q[i]);
        if list != [] {
          bs, lists := bs + [q[i]], lists + [list];
        }
      }
      assert q[..|q|] == q;
      ListsAmongAll(Abs(), q, bs, lists);
    }

    method RemoveVersions(b: BrId, q: seq<VerId>) returns (missing: bool)
      requires Formed() && b in contents.histories
      requires (forall i, j :: 0 <= i < j < |q| ==> q[i] < q[j]) && forall v :: v in q ==> v in contents.histories[b]
      modifies this`instances, this`contents
      ensures Formed() && !missing
      ensures contents == old(contents).(histories :=
        old(contents).histories[b := old(contents).histories[b] - AsSet(q)])
    {
      hide Formed;
      ghost var c := contents;
      missing := false;
      assert AsSet([]) == {} && c.histories[b] - {} == c.histories[b];
      for i := 0 to |q|
        invariant Formed() && !missing
        invariant contents == c.(histories := c.histories[b := c.histories[b] - AsSet(q[..i])])
      {
        assert q[i] in q;
        assert c.histories[b] - AsSet(q[..i + 1]) == c.histories[b] - AsSet(q[..i]) - {q[i]};
        var found := RemoveVersion(b, q[i]);
        missing := missing || !found;
      }
      assert q[..|q|] == q;
    }

    method RemoveFromAll(bs: seq<BrId>, q: seq<VerId>) returns (missing: bool)
      requires Formed()
      requires (forall i, j :: 0 <= i < j < |bs| ==> bs[i] < bs[j]) && forall b :: b in bs ==> b in contents.histories
      requires forall i, j :: 0 <= i < j < |q| ==> q[i] < q[j]
      requires forall b, v :: b in bs && v in q ==> b in contents.histories && v in contents.histories[b]
      modifies this`instances, this`contents
      ensures Formed() && !missing
      ensures contents == old(contents).(histories := WithoutOn(old(contents).histories, AsSet(q), AsSet(bs)))
    {
      hide Formed;
      ghost var c := contents;
      missing := false;
      WithoutOnNone(c.histories, AsSet(q));
      assert AsSet([]) == {};
      for i := 0 to |bs|
        invariant Formed() && !missing
        invariant contents == c.(histories := WithoutOn(c.histories, AsSet(q), AsSet(bs[..i])))
      {
        assert bs[i] in bs && bs[i] !in bs[..i];
        WithoutOnStep(c.histories, AsSet(q), AsSet(bs[..i]), bs[i]);
        assert AsSet(bs[..i + 1]) == AsSet(bs[..i]) + {bs[i]};
        var lost := RemoveVersions(bs[i], q);
        missing := missing || lost;
      }
      assert bs[..|bs|] == bs;
    }

    /** Moves all changes of the versions `q` to `r`, and reports the keys concerned. */
    method MergeAll(q: seq<VerId>, r: VerId, ghost s: State) returns (missing: bool, changed: set<Key>)
      requires Formed() && Inv(s) && contents.layers == s.kv && verToChangeSet == s.chg
      requires (forall i, j :: 0 <= i < j < |q| ==> q[i] < q[j]) && forall v :: v in q ==> v in s.chg && r < v
      modifies this`verToChangeSet, this`instances, this`contents
      ensures Formed() && !missing && changed == ChangedBy(s, AsSet(q))
      ensures verToChangeSet == s.chg - AsSet(q)
      ensures contents == old(contents).(layers := CollapseAll(s.kv, AsSet(q), r))
    {
      hide Formed, Inv, CollapseAll, ChangedBy;
      ghost var c := contents;
      missing, changed := false, {};
      CollapseNothing(s, r);
      assert AsSet([]) == {} && s.chg - {} == s.chg;
      for i := 0 to |q|
        invariant Formed() && !missing && changed == ChangedBy(s, AsSet(q[..i]))
        invariant verToChangeSet == s.chg - AsSet(q[..i])
        invariant contents == c.(layers := CollapseAll(s.kv, AsSet(q[..i]), r))
      {
        assert q[i] in q;
        InvParts(s);
        IndexedChanges(s, q[i]);
        ChangedByStep(s, AsSet(q[..i]), q[i]);
        assert AsSet(q[..i + 1]) == AsSet(q[..i]) + {q[i]};
        assert s.chg - AsSet(q[..i + 1]) == s.chg - AsSet(q[..i]) - {q[i]};
        assert r !in AsSet(q[..i]) by { assert forall v :: v in q[..i] ==> v in q; }
        var ks := if q[i] in verToChangeSet then verToChangeSet[q[i]] else {};
        missing := missing || q[i] !in verToChangeSet;
        verToChangeSet := verToChangeSet - {q[i]};
        var lost := MergeChanges(ks, q[i], r, s.kv, AsSet(q[..i]));
        missing, changed := missing || lost, changed + ks;
      }
      assert q[..|q|] == q;
    }

    /** Drops the tombstone of a key if it is at the bottom, and reports whether that leaves the layer empty. */
    method DropTombstone(k: Key, r: VerId) returns (missing: bool, empty: bool)
      requires Formed() && k in contents.layers && r in contents.layers[k] && r in verToChangeSet
      modifies this`verToChangeSet, this`instances, this`contents
      ensures Formed() && !missing
      ensures contents == old(contents).(layers := old(contents).layers[k := Dropped(old(contents).layers[k], r)])
      ensures verToChangeSet == if old(contents).layers[k][r] == NULL
                                then old(verToChangeSet)[r := old(verToChangeSet)[r] - {k}] else old(verToChangeSet)
      ensures empty <==> contents.layers[k] == map[]
    {
      hide Formed;
      var layer := LayerAt(k);
      missing := layer.None? || r !in layer.value;
      if layer.value[r] == NULL {
        var _ := TakeEntry(k, r);
        verToChangeSet := RemoveKey(verToChangeSet, r, k);
      } else {
        assert contents.layers == contents.layers[k := contents.layers[k]];
      }
      layer := LayerAt(k);
      empty := layer.value == map[];
    }

    /** Drops the tombstones that are now at the bottom, and reports the layers left empty. */
    method DropTombstones(ks: set<Key>, r: VerId, ghost s: State, ghost d: set<VerId>)
        returns (missing: bool, empties: set<Key>)
      requires Formed() && r !in d && ks == ChangedBy(s, d) && r in verToChangeSet
      requires contents.layers == CollapseAll(s.kv, d, r)
      modifies this`verToChangeSet, this`instances, this`contents
      ensures Formed() && !missing
      ensures contents == old(contents).(layers := PartlyDropped(s.kv, d, r, ks))
      ensures verToChangeSet == old(verToChangeSet)[r := old(verToChangeSet)[r] - Tombs(s, d)]
      ensures empties == EmptyLayers(contents.layers, ks)
    {
      hide Formed, CollapseAll, ChangedBy, Tombs, Dropped;
      ghost var c, chg := contents, verToChangeSet;
      missing, empties := false, {};
      var todo := ks;
      DropNothing(s, d, r);
      assert ks - todo == {} && chg[r] - {} * Tombs(s, d) == chg[r] && chg == chg[r := chg[r]];
      while todo != {}
        invariant Formed() && !missing && todo <= ks
        invariant contents == c.(layers := PartlyDropped(s.kv, d, r, ks - todo))
        invariant verToChangeSet == chg[r := chg[r] - (ks - todo) * Tombs(s, d)]
        invariant empties == EmptyLayers(contents.layers, ks - todo)
      {
        hide PartlyDropped;
        var k :| k in todo;
        PartlyDroppedStep(s, d, r, ks - todo, k);
        assert ks - (todo - {k}) == ks - todo + {k};
        assert chg[r] - (ks - (todo - {k})) * Tombs(s, d)
            == if k in Tombs(s, d) then chg[r] - (ks - todo) * Tombs(s, d) - {k}
              else chg[r] - (ks - todo) * Tombs(s, d);
        EmptyLayersStep(contents.layers, ks - todo, k, Dropped(contents.layers[k], r));
        todo := todo - {k};
        var lost, empty := DropTombstone(k, r);
        missing := missing || lost;
        if empty { empties := empties + {k}; }
      }
      assert ks - todo == ks && ks * Tombs(s, d) == Tombs(s, d) by { TombsAreChanged(s, d); }
    }

    method DropLayers(ks: set<Key>)
      requires Formed()
      modifies this`layeredKv, this`contents
      ensures Formed() && contents == old(contents).(layers := old(contents).layers - ks)
    {
      hide Formed;
      ghost var c := contents;
      var todo := ks;
      assert ks - todo == {} && c.layers - {} == c.layers;
      while todo != {}
        invariant Formed() && todo <= ks
        invariant contents == c.(layers := c.layers - (ks - todo))
      {
        var k :| k in todo;
        assert c.layers - (ks - (todo - {k})) == c.layers - (ks - todo) - {k};
        todo := todo - {k};
        DropLayer(k);
      }
      assert ks - todo == ks;
    }

    /** Merges the versions `q`, which all non-empty branches have, into `r`. */
    method CompactInto(bs: seq<BrId>, q: seq<VerId>, r: VerId) returns (missing: bool)
      requires Valid() && (forall i, j :: 0 <= i < j < |bs| ==> bs[i] < bs[j])
      requires AsSet(bs) == set b | b in contents.histories && contents.histories[b] != {}
      requires (forall i, j :: 0 <= i < j < |q| ==> q[i] < q[j])
      requires forall v :: v in q ==> v in verToChangeSet && r < v
      requires forall b, v :: b in bs && v in q ==> b in contents.histories && v in contents.histories[b]
      requires r in verToChangeSet
      modifies this
      ensures Formed() && !missing && Abs() == Compact(old(Abs()), AsSet(q), r)
    {
      hide Formed, Inv, CollapseAll, ChangedBy, PartlyDropped, Tombs, EmptyLayers, WithoutOn;
      ghost var s, d := Abs(), AsSet(q);
      assert forall b :: b in bs ==> b in AsSet(bs);
      var lost := RemoveFromAll(bs, q);
      missing := lost;
      var changed;
      lost, changed := MergeAll(q, r, s);
      missing := missing || lost || r !in verToChangeSet;
      verToChangeSet := AddKeys(verToChangeSet, r, changed);
      var empties;
      lost, empties := DropTombstones(changed, r, s, d);
      missing := missing || lost;
      DropLayers(empties);
      CompactFacts(s, d, r, AsSet(bs));
    }

    /** Merges the outdated part of the branches' common history. */
    method MergeCommon(reserved: nat) returns (missing: bool)
      requires Valid() && 0 < reserved
      modifies this
      ensures Formed() && !missing
      ensures Abs() == if |Common(old(Abs()))| <= reserved then old(Abs()) else MergeOutdated(old(Abs()), reserved)
    {
      hide Formed, Inv, Compact, Common, Outdated;
      ghost var s := Abs();
      missing := false;
      var bs, lists := NonEmptyLists();
      if |bs| == 0 {
        EmptyBranchesShareNothing(s);
        return;
      }
      ListedVersionsBounded(s, bs, lists);
      var common := LongestCommonPrefix(lists);
      CollectsCommonHistory(s, bs, lists, common);
      if |common| <= reserved { return; }
      OutdatedReady(s, reserved, common);
      OutdatedSlice(s, reserved, common);
      ListedBranches(s, bs, lists);
      assert AsSet(bs) == set b | b in contents.histories && contents.histories[b] != {};
      assert forall b :: b in bs ==> b in AsSet(bs);
      missing := CompactInto(bs, common[1..|common| - reserved + 1], common[0]);
    }

    method Prune(n: Option<nat>) returns (reply: Reply)
      requires Valid()
      modifies this
      ensures Valid()
      ensures Outcome(Abs(), reply) == VersionState.Prune(old(Abs()), n)
    {
      hide Formed, Inv, MergeOutdated, CleanUp, Common;
      PruneInv(Abs(), n);
      reply := VersionCleanUpGlobally();
      // One more for the oldest version, which is never pruned; the sum wraps around.
      var reserved := Reserved(n);
      if reserved == 0 { return Fail(ReservedNumberIsZero); }
      var missing := MergeCommon(reserved);
      if missing { reply := Fail(MissingEntry); }
    }

    // ---------- branches ----------

    method BranchTruncate(b: BrId) returns (reply: Reply)
      requires Valid()
      modifies this
      ensures Valid()
      ensures Outcome(Abs(), reply) == TruncateBranch(old(Abs()), b)
    {
      hide Formed, Inv;
      TruncateInv(Abs(), b);
      var vers := Versions(b);
      if vers.None? { return Fail(BranchNotFound); }
      ClearVersions(b);
      reply := Done;
    }

    method ClearVersions(b: BrId)
      requires Formed() && b in contents.histories
      modifies this`instances, this`contents
      ensures Formed() && contents == old(contents).(histories := old(contents).histories[b := {}])
    {
      hide Formed;
      var _ := Versions(b);
      var none: Layer := map[];
      assert none.Keys == {};
      SetVersions(b, none);
    }

    /** Removes the versions `q`, the newest first. */
    method RemoveDescending(b: BrId, q: seq<VerId>) returns (missing: bool)
      requires Formed() && b in contents.histories
      requires (forall i, j :: 0 <= i < j < |q| ==> q[i] < q[j]) && forall v :: v in q ==> v in contents.histories[b]
      modifies this`instances, this`contents
      ensures Formed() && !missing
      ensures contents == old(contents).(histories :=
        old(contents).histories[b := old(contents).histories[b] - AsSet(q)])
    {
      hide Formed;
      ghost var c := contents;
      missing := false;
      assert q[|q|..] == [] && AsSet([]) == {} && c.histories[b] - {} == c.histories[b];
      for i := |q| downto 0
        invariant Formed() && !missing
        invariant contents == c.(histories := c.histories[b := c.histories[b] - AsSet(q[i..])])
      {
        assert q[i] in q && q[i] !in q[i + 1..];
        assert c.histories[b] - AsSet(q[i..]) == c.histories[b] - AsSet(q[i + 1..]) - {q[i]};
        var found := RemoveVersion(b, q[i]);
        missing := missing || !found;
      }
      assert q[0..] == q;
    }

    /** Removes the versions after `last`. */
    method BranchTruncateTo(b: BrId, last: VerId) returns (reply: Reply)
      requires Valid()
      modifies this
      ensures Valid()
      ensures Outcome(Abs(), reply) == TruncateBranchTo(old(Abs()), b, last)
    {
      hide Formed, Inv;
      TruncateToInv(Abs(), b, last);
      var vers := Versions(b);
      if vers.None? { return Fail(BranchNotFound); }
      var q := Ids(set u | u in vers.value && (last + 1) % TWO_64 <= u);
      assert contents.histories[b] - AsSet(q) == set u | u in contents.histories[b] && u < (last + 1) % TWO_64;
      var missing := RemoveDescending(b, q);
      reply := if missing then Fail(MissingEntry) else Done;
    }

    /** Takes a branch out of the table, answering the handle of its version list. */
    method DropHistory(b: BrId) returns (h: Handle)
      requires Formed() && b in contents.histories
      modifies this`brToItsVers, this`contents
      ensures Formed() && contents == old(contents).(histories := old(contents).histories - {b})
      ensures h in instances && h !in brToItsVers.Values && h !in layeredKv.Values
    {
      hide Represents;
      Lookups(brToItsVers, layeredKv, instances, nextHandle, contents);
      DetachHistory(brToItsVers, layeredKv, instances, nextHandle, contents, b);
      h := brToItsVers[b];
      brToItsVers, contents := brToItsVers - {b}, contents.(histories := contents.histories - {b});
    }

    /** Takes a branch and its version list away. */
    method DetachBranch(b: BrId)
      requires Formed() && b in contents.histories
      modifies this`instances, this`brToItsVers, this`contents
      ensures Formed() && contents == old(contents).(histories := old(contents).histories - {b})
    {
      hide Formed;
      ghost var c := contents;
      ClearVersions(b);
      var h := DropHistory(b);
      assert c.histories[b := {}] - {b} == c.histories - {b};
      // The cleaning that the source leaves to a background thread.
      SetDetached(h, map[]);
    }

    method BranchRemove(b: BrId) returns (reply: Reply)
      requires Valid()
      modifies this
      ensures Valid()
      ensures Outcome(Abs(), reply) == RemoveBranch(old(Abs()), b)
    {
      hide Formed, Inv, RemoveBranch;
      RemoveBranchFacts(Abs(), b);
      var vers := Versions(b);
      if vers.None? { return Fail(BranchNotFound); }
      var missing := b !in brIdToName || brIdToName[b] !in brNameToId;
      brIdToName, brNameToId :=
        brIdToName - {b}, if b in brIdToName then brNameToId - {brIdToName[b]} else brNameToId;
      DetachBranch(b);
      reply := if missing then Fail(MissingEntry) else Done;
    }

    method AddVersions(target: BrId, q: seq<VerId>)
      requires Formed() && target in contents.histories
      modifies this`instances, this`contents
      ensures Formed()
      ensures contents == old(contents).(histories :=
        old(contents).histories[target := old(contents).histories[target] + AsSet(q)])
    {
      hide Formed;
      ghost var c := contents;
      assert AsSet([]) == {} && c.histories[target] + {} == c.histories[target];
      for i := 0 to |q|
        invariant Formed()
        invariant contents == c.(histories := c.histories[target := c.histories[target] + AsSet(q[..i])])
      {
        assert c.histories[target] + AsSet(q[..i + 1]) == c.histories[target] + AsSet(q[..i]) + {q[i]};
        InsertVersion(target, q[i]);
      }
      assert q[..|q|] == q;
    }

    /** Walks both version lists to the fork point and copies what follows it on the source; without a fork
        point, copies what the target lacks at its end. */
    method CopyMissing(q: seq<VerId>, t: seq<VerId>, target: BrId, ghost vers: set<VerId>)
      requires Formed() && target in contents.histories && AsSet(t) == contents.histories[target] && AsSet(q) == vers
      requires (forall j, k :: 0 <= j < k < |q| ==> q[j] < q[k]) && (forall j, k :: 0 <= j < k < |t| ==> t[j] < t[k])
      requires forall v :: v in t ==> v < VER_ID_MAX
      modifies this`instances, this`contents
      ensures Formed()
      ensures contents == old(contents).(histories :=
        old(contents).histories[target := old(contents).histories[target] + vers])
    {
      hide Formed, AsSet;
      var i := 0;
      while i < |q| && i < |t| && q[i] == t[i]
        invariant 0 <= i <= |q| && i <= |t| && q[..i] == t[..i]
      {
        i := i + 1;
      }
      SameListUnchanged(contents.histories, target, t, q);
      if i < |q| && i < |t| {
        RestCompletes(q, t, i);
        AddVersions(target, q[i..]);
      } else if |q| != 0 {
        if |t| != 0 {
          var latest, targetLatest := q[|q| - 1], t[|t| - 1];
          LastDecides(q, t, i);
          if latest > targetLatest {
            assert targetLatest in t;
            assert (targetLatest + 1) % TWO_64 == targetLatest + 1;
            var newer := set u | u in q && (targetLatest + 1) % TWO_64 <= u;
            NewerCompletes(q, t, targetLatest, newer);
            AddVersions(target, Ids(newer));
          }
        } else {
          AddVersions(target, q);
        }
      }
    }

    /** Whether the target has gone on with versions that the source does not have. */
    method HasOwnVersions(target: BrId, vers: Layer) returns (own: bool)
      requires Formed() && target in contents.histories
      ensures own <==> contents.histories[target] != {} && Max(contents.histories[target]) !in vers
    {
      hide Formed;
      var last := LastVersion(target);
      own := last.Some? && last.value !in vers;
    }

    /** Gives the target the versions of another branch that it lacks. */
    method CopyVersions(vers: Layer, targetVers: Layer, target: BrId)
      requires Formed() && target in contents.histories && targetVers.Keys == contents.histories[target]
      requires forall v :: v in vers || v in targetVers ==> v < VER_ID_MAX
      modifies this`instances, this`contents
      ensures Formed()
      ensures contents == old(contents).(histories :=
        old(contents).histories[target := old(contents).histories[target] + vers.Keys])
    {
      hide Formed;
      var q, t := Ids(vers.Keys), Ids(targetVers.Keys);
      assert AsSet(q) == vers.Keys && AsSet(t) == targetVers.Keys;
      CopyMissing(q, t, target, vers.Keys);
    }

    method DoBranchMergeTo(b: BrId, target: BrId, force: bool) returns (reply: Reply)
      requires Valid()
      modifies this
      ensures Valid()
      ensures Outcome(Abs(), reply) == Merge(old(Abs()), b, target, force)
    {
      hide Formed, Inv, Merge;
      MergeFacts(Abs(), b, target, force);
      VersionsAllocated(Abs());
      var vers := Versions(b);
      if vers.None? { return Fail(BranchNotFound); }
      var targetVers := Versions(target);
      if targetVers.None? { return Fail(TargetBranchNotFound); }
      var own := HasOwnVersions(target, vers.value);
      if !force && own { return Fail(UnableToMergeSafely); }
      CopyVersions(vers.value, targetVers.value, target);
      reply := Done;
    }

    method SetDetached(h: Handle, m: Layer)
      requires Formed() && h in instances && h !in brToItsVers.Values && h !in layeredKv.Values
      modifies this`instances
      ensures Formed() && h in instances && instances[h] == m
    {
      hide Represents;
      UpdateDetached(brToItsVers, layeredKv, instances, nextHandle, contents, h, m);
      instances := instances[h := m];
    }

    /** Copies the versions up to `v` into a nested map of their own. */
    method CopyUpTo(vers: Layer, v: VerId) returns (h: Handle)
      requires Formed()
      modifies this`instances, this`nextHandle
      ensures Formed() && h in instances && instances[h].Keys == UpTo(vers.Keys, v)
      ensures h !in brToItsVers.Values && h !in layeredKv.Values
    {
      hide Formed, AsSet;
      h := NewInstance();
      var q := Ids(set u | u in vers && u <= v);
      NothingCopied(q);
      for i := 0 to |q|
        invariant Formed() && h in instances && instances[h].Keys == AsSet(q[..i])
      {
        var m := instances[h];
        OneMoreCopied(m, q, i);
        m := m[q[i] := NULL];
        SetDetached(h, m);
      }
      AllCopied(q, vers.Keys, v);
    }

    /** Registers a new branch whose version list is behind `h`. */
    method AttachBranch(brName: Name, h: Handle, ghost vs: set<VerId>)
      requires Formed() && h in instances && instances[h].Keys == vs
      requires h !in brToItsVers.Values && h !in layeredKv.Values && nextBr !in contents.histories
      modifies this`brNameToId, this`brIdToName, this`nextBr, this`brToItsVers, this`contents
      ensures Formed() && Abs() == AddBranch(old(Abs()), brName, vs)
    {
      hide Represents;
      Lookups(brToItsVers, layeredKv, instances, nextHandle, contents);
      AttachHistory(brToItsVers, layeredKv, instances, nextHandle, contents, nextBr, h);
      brNameToId, brIdToName, nextBr, brToItsVers, contents :=
        brNameToId[brName := nextBr], brIdToName[nextBr := brName], nextBr + 1,
        brToItsVers[nextBr := h], contents.(histories := contents.histories[nextBr := vs]);
    }

    /** With `force`, first removes the branch that has the name. */
    method Vacate(brName: Name, force: bool) returns (missing: bool)
      requires Valid()
      modifies this
      ensures Valid() && !missing && Abs() == Vacated(old(Abs()), brName, force)
    {
      hide Formed, Inv, RemoveBranch;
      missing := false;
      if force && brName in brNameToId {
        NamedBranchExists(Abs(), brName);
        RemoveBranchFacts(Abs(), brNameToId[brName]);
        var reply := BranchRemove(brNameToId[brName]);
        missing := reply != Done;
      }
    }

    /** Creates a branch that starts at a version of another, with a first version of its own if one is named. */
    method BranchCreate(brName: Name, verName: Option<Name>, base: BrId, from: ForkPoint, force: bool)
        returns (reply: Reply)
      requires Valid() && (verName.Some? ==> nextVer < VER_ID_MAX)
      modifies this
      ensures Valid()
      ensures Outcome(Abs(), reply) == CreateBranch(old(Abs()), brName, verName, base, from, force)
    {
      hide Formed, Inv, Vacated, Fork, CreateBranch;
      ghost var s := Abs();
      CreateBranchFacts(s, brName, verName, base, from, force);
      if verName.Some? && verName.value in verNameToId { return Fail(VersionExists); }
      var baseVer := None;
      if from.At? {
        baseVer := Some(from.ver);
      } else {
        var vers := Versions(base);
        if vers.None? { return Fail(BaseBranchNotFound); }
        baseVer := LastVersion(base);
      }
      VacatedFacts(s, brName, force);
      var missing := Vacate(brName, force);
      if brName in brNameToId { return Fail(BranchExists); }
      var vers := Versions(base);
      if vers.None? { return Fail(BaseBranchNotFound); }
      reply := ForkFrom(brName, verName, base, from, vers.value, baseVer);
      if missing { reply := Fail(MissingEntry); }
    }

    method ForkFrom(brName: Name, verName: Option<Name>, base: BrId, from: ForkPoint, vers: Layer,
                    baseVer: Option<VerId>)
        returns (reply: Reply)
      requires Valid() && (verName.Some? ==> nextVer < VER_ID_MAX) && brName !in brNameToId
      requires base in contents.histories && contents.histories[base] == vers.Keys
      requires from.At? ==> baseVer == Some(from.ver)
      requires from.Head? ==> baseVer == if vers.Keys == {} then None else Some(Max(vers.Keys))
      modifies this
      ensures Valid()
      ensures Outcome(Abs(), reply) == Fork(old(Abs()), brName, verName, base, from)
    {
      hide Formed, Inv, AddBranch, CreateVersion;
      ghost var s := Abs();
      if baseVer.Some? && baseVer.value !in vers { return Fail(VersionNotOnBranch); }
      var h;
      if baseVer.Some? { h := CopyUpTo(vers, baseVer.value); } else { h := NewInstance(); }
      var b := nextBr;
      ghost var vs := instances[h].Keys;
      ForkedVersionsAre(s, base, from, vs);
      ForkInv(s, brName, vs, base);
      AttachBranch(brName, h, vs);
      if verName.Some? {
        reply := VersionCreateByBranch(verName.value, b);
      } else {
        reply := Done;
      }
    }

    method BranchSetDefault(b: BrId) returns (reply: Reply)
      requires Valid()
      modifies this
      ensures Valid()
      ensures Outcome(Abs(), reply) == SetDefault(old(Abs()), b)
    {
      hide Formed, Inv;
      SetDefaultInv(Abs(), b);
      if b !in brIdToName { return Fail(BranchNotFound); }
      defaultBranch := b;
      reply := Done;
    }

    method BranchSwap(n1: Name, n2: Name) returns (reply: Reply)
      requires Valid()
      modifies this
      ensures Valid()
      ensures Outcome(Abs(), reply) == Swap(old(Abs()), n1, n2)
    {
      hide Formed, Inv;
      SwapInv(Abs(), n1, n2);
      if n1 !in brNameToId || n2 !in brNameToId { return Fail(BranchNotFound); }
      NamedBranchExists(Abs(), n1);
      NamedBranchExists(Abs(), n2);
      var b1, b2 := brNameToId[n1], brNameToId[n2];
      var missing := b1 !in brIdToName || b2 !in brIdToName;
      brNameToId, brIdToName, defaultBranch :=
        brNameToId[n1 := b2][n2 := b1], brIdToName[b1 := n2][b2 := n1],
        if defaultBranch == b1 then b2 else if defaultBranch == b2 then b1 else defaultBranch;
      reply := if missing then Fail(MissingEntry) else Done;
    }

    /** Removes all other branches and cleans up after them. */
    method BranchKeepOnly(ids: set<BrId>) returns (reply: Reply)
      requires Valid()
      modifies this
      ensures Valid()
      ensures Outcome(Abs(), reply) == Outcome(KeepOnly(old(Abs()), ids), Done)
    {
      hide Formed, Inv, RemoveBranches, RemoveBranch, CleanUp;
      ghost var s := Abs();
      BranchesAreNamed(s);
      var others := brIdToName.Keys - ids;
      var todo := others;
      var missing := false;
      assert others - todo == {};
      RemoveNoBranches(s);
      while todo != {}
        invariant Valid() && !missing && todo <= others
        invariant Abs() == RemoveBranches(s, others - todo)
      {
        var b :| b in todo;
        RemoveBranchesStep(s, others - todo, b);
        assert others - (todo - {b}) == others - todo + {b};
        todo := todo - {b};
        var r := BranchRemove(b);
        missing := missing || r != Done;
      }
      assert others - todo == others;
      reply := VersionCleanUpGlobally();
      if missing { reply := Fail(MissingEntry); }
    }

    // ---------- reloading ----------

    /** Takes over the nested maps of another map. */
    method CopyNested(from: MapxRawVs)
      requires from.Formed() && from != this
      modifies this`brToItsVers, this`layeredKv, this`instances, this`nextHandle, this`contents
      ensures Formed() && contents == from.contents
    {
      hide Represents;
      brToItsVers, layeredKv, instances, nextHandle, contents :=
        from.brToItsVers, from.layeredKv, from.instances, from.nextHandle, from.contents;
    }

    /** Takes over the stored tables and the allocators, and empties the derived tables. */
    method CopyTables(from: MapxRawVs)
      requires from != this
      modifies this`defaultBranch, this`brNameToId, this`verNameToId, this`nextBr, this`nextVer,
               this`brIdToName, this`verIdToName, this`verToChangeSet
      ensures defaultBranch == from.defaultBranch && brNameToId == from.brNameToId && verNameToId == from.verNameToId
      ensures nextBr == from.nextBr && nextVer == from.nextVer
      ensures brIdToName == map[] && verIdToName == map[] && verToChangeSet == map[]
    {
      defaultBranch, brNameToId, verNameToId, nextBr, nextVer :=
        from.defaultBranch, from.brNameToId, from.verNameToId, from.nextBr, from.nextVer;
      brIdToName, verIdToName, verToChangeSet := map[], map[], map[];
    }

    /** Takes over what is stored of a map, and nothing else. */
    method CopyStored(from: MapxRawVs)
      requires from.Formed() && from != this
      modifies this
      ensures Formed() && Abs() == from.Abs().(brIdToName := map[], verIdToName := map[], chg := map[])
    {
      hide Formed;
      CopyTables(from);
      CopyNested(from);
    }

    /** The version lists and the layers, read through their handles. */
    method ReadStored() returns (histories: Histories, layers: map<Key, Layer>)
      requires Formed()
      ensures histories == contents.histories && layers == contents.layers
    {
      hide Represents;
      Lookups(brToItsVers, layeredKv, instances, nextHandle, contents);
      histories := map b | b in brToItsVers :: instances[brToItsVers[b]].Keys;
      layers := map k | k in layeredKv :: instances[layeredKv[k]];
    }

    method RebuildDerived(ghost s: State)
      requires Formed() && NamesAgree(s)
      requires Abs() == s.(brIdToName := map[], verIdToName := map[], chg := map[])
      modifies this`brIdToName, this`verIdToName, this`verToChangeSet
      ensures Abs() == VersionState.Reload(s)
    {
      hide Formed, RebuiltChangeSets, MutuallyInverse, Inverse;
      var histories, layers := ReadStored();
      var chg := RebuildChangeSets(histories, layers, s);
      var brs := Invert(brNameToId, s.brIdToName);
      var vers := Invert(verNameToId, s.verIdToName);
      brIdToName, verIdToName, verToChangeSet := brs, vers, chg;
    }

    /** The map loaded again from its stored tables, with the derived ones rebuilt. */
    constructor Reload(from: MapxRawVs)
      requires from.Valid()
      ensures Valid() && Abs() == VersionState.Reload(from.Abs())
    {
      new;
      hide Represents, VersionState.Reload, Inv;
      InvParts(from.Abs());
      ReloadRoundTrip(from.Abs());
      CopyStored(from);
      RebuildDerived(from.Abs());
    }
  }
}
