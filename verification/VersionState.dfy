/**
 The state of a versioned map and what each of its operations does to it.

 A branch is a set of version ids, and every key has a layer: the values written to it, by version.
 An empty value is a tombstone. All branches share the layers, so an operation on one branch may
 show through on another; the other modules say exactly when.
 */
module VersionState {
  import opened Basics
  import opened ByteStrings
  import opened OrderedSets

  type Key = Bytes
  type Value = Bytes
  type Name = Bytes
  type VerId = nat
  type BrId = nat
  type Layer = map<VerId, Value>

  const VER_ID_MAX: VerId := TWO_64 - 1
  const NULL: Value := []
  const INITIAL_BRANCH_ID: BrId := 0
  const INITIAL_BRANCH_NAME: Name := [109, 97, 115, 116, 101, 114]  // "master"
  const RESERVED_VERSION_NUM_DEFAULT: nat := 10

  datatype Error =
    | BranchNotFound
    | BaseBranchNotFound
    | TargetBranchNotFound
    | BranchExists
    | NoVersionOnBranch
    | VersionExists
    | VersionNotFound
    | VersionNotOnBranch
    | UnableToMergeSafely
    | ReservedNumberIsZero
    | MissingEntry  // an internal table lacks an entry it should have

  datatype Reply = Done | Old(value: Option<Value>) | Fail(error: Error)

  datatype State = State(
    defaultBranch: BrId,
    brNameToId: map<Name, BrId>,
    brIdToName: map<BrId, Name>,
    verNameToId: map<Name, VerId>,
    verIdToName: map<VerId, Name>,
    brVers: Histories,
    kv: map<Key, Layer>,
    chg: map<VerId, set<Key>>,
    // the database's id allocators
    nextBr: BrId,
    nextVer: VerId)

  datatype Outcome = Outcome(state: State, reply: Reply)

  ghost function Init(nextBr: BrId, nextVer: VerId): State {
    State(INITIAL_BRANCH_ID,
          map[INITIAL_BRANCH_NAME := INITIAL_BRANCH_ID], map[INITIAL_BRANCH_ID := INITIAL_BRANCH_NAME],
          map[], map[], map[INITIAL_BRANCH_ID := {}], map[], map[], nextBr, nextVer)
  }

  // ---------- reading ----------

  ghost function LayerOf(s: State, k: Key): Layer {
    if k in s.kv then s.kv[k] else map[]
  }

  /** The versions up to `v` that lie on a branch and hold an entry. */
  ghost function Visible(m: Layer, on: set<VerId>, v: VerId): set<VerId> {
    set u | u in m && u in on && u <= v
  }

  function Present(x: Value): Option<Value> {
    if x == NULL then None else Some(x)
  }

  /** The newest visible entry, where a tombstone reads as absent. */
  ghost function Lookup(m: Layer, on: set<VerId>, v: VerId): Option<Value> {
    var c := Visible(m, on, v);
    if c == {} then None else Present(m[Max(c)])
  }

  ghost function Read(s: State, b: BrId, v: VerId, k: Key): Option<Value> {
    if b in s.brVers then Lookup(LayerOf(s, k), s.brVers[b], v) else None
  }

  ghost function HeadRead(s: State, b: BrId, k: Key): Option<Value> {
    if b in s.brVers && s.brVers[b] != {} then Read(s, b, Max(s.brVers[b]), k) else None
  }

  ghost predicate SameReadsOn(s: State, t: State, b: BrId) {
    forall v, k :: Read(s, b, v, k) == Read(t, b, v, k)
  }

  // ---------- the invariant ----------

  /** The change sets index the layers exactly. */
  ghost predicate IndexAgrees(s: State) {
    && (forall k, v :: k in s.kv && v in s.kv[k] ==> v in s.chg && k in s.chg[v])
    && (forall v, k :: v in s.chg && k in s.chg[v] ==> k in s.kv && v in s.kv[k])
  }

  ghost predicate VersionsKnown(s: State) {
    && (forall b, v :: b in s.brVers && v in s.brVers[b] ==> v in s.chg)
    && (forall v :: v in s.chg ==> v in s.verIdToName)
  }

  ghost predicate MutuallyInverse<A(!new), B(!new)>(f: map<A, B>, g: map<B, A>) {
    && (forall a :: a in f ==> f[a] in g && g[f[a]] == a)
    && (forall b :: b in g ==> g[b] in f && f[g[b]] == b)
  }

  ghost predicate NamesAgree(s: State) {
    && MutuallyInverse(s.verNameToId, s.verIdToName)
    && MutuallyInverse(s.brNameToId, s.brIdToName)
    && s.brIdToName.Keys == s.brVers.Keys
  }

  ghost predicate IdsAllocated(s: State) {
    && (forall v :: v in s.verIdToName ==> v < s.nextVer)
    && (forall b :: b in s.brVers ==> b < s.nextBr)
    && s.nextVer <= VER_ID_MAX
  }

  ghost predicate Inv(s: State) {
    IndexAgrees(s) && VersionsKnown(s) && NamesAgree(s) && IdsAllocated(s)
  }

  ghost function UpTo(vs: set<VerId>, v: VerId): set<VerId> {
    set u | u in vs && u <= v
  }

  type Histories = map<BrId, set<VerId>>

  /** Branches that share a version share everything before it. */
  ghost predicate Coherent(h: Histories) {
    forall b, c, v :: b in h && c in h && v in h[b] && v in h[c] ==> UpTo(h[b], v) == UpTo(h[c], v)
  }

  // ---------- data operations ----------

  /** `value == None` is a removal: it leaves a tombstone, and does nothing to an absent key. */
  ghost function WriteAt(s: State, b: BrId, v: VerId, k: Key, value: Option<Value>): Outcome {
    var prev := Read(s, b, v, k);
    if value.None? && prev.None? then Outcome(s, Old(None))
    else
      var x := if value.None? then NULL else value.value;
      Outcome(s.(kv := s.kv[k := LayerOf(s, k)[v := x]],
                 chg := if v in s.chg then s.chg[v := s.chg[v] + {k}] else s.chg),
              Old(prev))
  }

  ghost function Write(s: State, b: BrId, k: Key, value: Option<Value>): Outcome {
    if b !in s.brVers then Outcome(s, Fail(BranchNotFound))
    else if s.brVers[b] == {} then Outcome(s, Fail(NoVersionOnBranch))
    else WriteAt(s, b, Max(s.brVers[b]), k, value)
  }

  // ---------- version operations ----------

  ghost function CreateVersion(s: State, name: Name, b: BrId): Outcome {
    if name in s.verNameToId then Outcome(s, Fail(VersionExists))
    else if b !in s.brVers then Outcome(s, Fail(BranchNotFound))
    else
      var v := s.nextVer;
      Outcome(s.(brVers := s.brVers[b := s.brVers[b] + {v}],
                 verNameToId := s.verNameToId[name := v],
                 verIdToName := s.verIdToName[v := name],
                 chg := s.chg[v := {}],
                 nextVer := v + 1),
              Done)
  }

  ghost function PopVersion(s: State, b: BrId): Outcome {
    if b !in s.brVers then Outcome(s, Fail(BranchNotFound))
    else if s.brVers[b] == {} then Outcome(s, Done)
    else Outcome(s.(brVers := s.brVers[b := s.brVers[b] - {Max(s.brVers[b])}]), Done)
  }

  /** The entries of `m` at the versions `d` become one entry at `r`, holding the newest of them. */
  ghost function Collapse(m: Layer, d: set<VerId>, r: VerId): Layer {
    if m.Keys * d == {} then m else (m - d)[r := m[Max(m.Keys * d)]]
  }

  ghost function ChangedBy(s: State, d: set<VerId>): set<Key> {
    set k | k in s.kv && s.kv[k].Keys * d != {}
  }

  function WithoutIds<A, B(==)>(m: map<A, B>, ids: set<B>): map<A, B> {
    map a | a in m && m[a] !in ids :: m[a]
  }

  ghost function After(s: State, b: BrId, v: VerId): set<VerId>
    requires b in s.brVers
  {
    set u | u in s.brVers[b] && v < u
  }

  ghost function Rebase(s: State, base: VerId, b: BrId): Outcome {
    if b !in s.brVers then Outcome(s, Fail(BranchNotFound))
    else if base !in s.brVers[b] then Outcome(s, Fail(VersionNotOnBranch))
    else Outcome(RebaseOnto(s, base, b, After(s, b, base)), Done)
  }

  ghost function RebaseOnto(s: State, base: VerId, b: BrId, d: set<VerId>): State
    requires b in s.brVers
  {
    s.(brVers := s.brVers[b := s.brVers[b] - d],
       kv := map k | k in s.kv :: Collapse(s.kv[k], d, base),
       chg := map v | v in s.chg && v !in d :: if v == base then s.chg[v] + ChangedBy(s, d) else s.chg[v],
       verIdToName := s.verIdToName - d,
       verNameToId := WithoutIds(s.verNameToId, d))
  }

  ghost function Revert(s: State, v: VerId): Outcome {
    if v !in s.chg then Outcome(s, Fail(VersionNotFound))
    else
      Outcome(s.(kv := map k | k in s.kv :: s.kv[k] - {v},
                 chg := s.chg - {v},
                 brVers := map b | b in s.brVers :: s.brVers[b] - {v},
                 verIdToName := s.verIdToName - {v},
                 verNameToId := WithoutIds(s.verNameToId, {v})),
              Done)
  }

  ghost function Live(s: State): set<VerId> {
    set b, v | b in s.brVers && v in s.brVers[b] :: v
  }

  ghost function Dead(s: State): set<VerId> {
    s.chg.Keys - Live(s)
  }

  /** A layer is dropped when purging `d` empties it, but not when it was empty before. */
  predicate Kept(m: Layer, d: set<VerId>) {
    m.Keys == {} || !(m.Keys <= d)
  }

  ghost function PurgeLayers(kv: map<Key, Layer>, d: set<VerId>): map<Key, Layer> {
    map k | k in kv && Kept(kv[k], d) :: kv[k] - d
  }

  ghost function Purge(s: State, d: set<VerId>): State {
    s.(kv := PurgeLayers(s.kv, d),
       chg := s.chg - d,
       verIdToName := s.verIdToName - d,
       verNameToId := WithoutIds(s.verNameToId, d))
  }

  ghost function CleanUp(s: State): State {
    Purge(s, Dead(s))
  }

  /** `v` is in the history that all non-empty branches have in common. */
  ghost predicate InCommon(s: State, v: VerId) {
    && v in Live(s)
    && (forall b, c :: b in s.brVers && c in s.brVers && s.brVers[b] != {} && s.brVers[c] != {} ==>
          v in s.brVers[b] && UpTo(s.brVers[b], v) == UpTo(s.brVers[c], v))
  }

  ghost function Common(s: State): set<VerId> {
    set v | v in Live(s) && InCommon(s, v)
  }

  /** Collapse onto the oldest version, where a tombstone says no more than no entry. */
  ghost function CompactLayer(m: Layer, d: set<VerId>, r: VerId): Layer {
    var c := Collapse(m, d, r);
    if m.Keys * d != {} && c[r] == NULL then c - {r} else c
  }

  ghost function Tombs(s: State, d: set<VerId>): set<Key> {
    set k | k in ChangedBy(s, d) && s.kv[k][Max(s.kv[k].Keys * d)] == NULL
  }

  ghost function Compact(s: State, d: set<VerId>, r: VerId): State {
    s.(brVers := map b | b in s.brVers :: s.brVers[b] - d,
       kv := map k | k in s.kv && (k in ChangedBy(s, d) ==> CompactLayer(s.kv[k], d, r) != map[])
               :: CompactLayer(s.kv[k], d, r),
       chg := map v | v in s.chg && v !in d ::
                if v == r then s.chg[v] + ChangedBy(s, d) - Tombs(s, d) else s.chg[v])
  }

  /** One more than the requested number of versions is kept, in the arithmetic of a 64-bit `usize`. */
  function Reserved(n: Option<nat>): nat {
    (1 + (if n.None? then RESERVED_VERSION_NUM_DEFAULT else n.value)) % TWO_64
  }

  /** The common versions to merge: all but the oldest and the newest `reserved - 1`. */
  ghost function Outdated(s: State, reserved: nat): set<VerId>
    requires 0 < reserved < |Common(s)|
  {
    var q := Ids(Common(s));
    set i | 1 <= i <= |q| - reserved :: q[i]
  }

  ghost function MergeOutdated(s: State, reserved: nat): State
    requires 0 < reserved < |Common(s)|
  {
    Compact(s, Outdated(s, reserved), Ids(Common(s))[0])
  }

  ghost function Prune(s: State, n: Option<nat>): Outcome {
    var t := CleanUp(s);
    var reserved := Reserved(n);
    if reserved == 0 then Outcome(t, Fail(ReservedNumberIsZero))
    else if |Common(t)| <= reserved then Outcome(t, Done)
    else Outcome(MergeOutdated(t, reserved), Done)
  }

  // ---------- branch operations ----------

  ghost function TruncateBranch(s: State, b: BrId): Outcome {
    if b !in s.brVers then Outcome(s, Fail(BranchNotFound))
    else Outcome(s.(brVers := s.brVers[b := {}]), Done)
  }

  /** The first version removed is `last + 1` in 64-bit arithmetic. */
  ghost function TruncateBranchTo(s: State, b: BrId, last: VerId): Outcome {
    if b !in s.brVers then Outcome(s, Fail(BranchNotFound))
    else Outcome(s.(brVers := s.brVers[b := set u | u in s.brVers[b] && u < (last + 1) % TWO_64]), Done)
  }

  ghost function RemoveBranch(s: State, b: BrId): Outcome {
    if b !in s.brVers then Outcome(s, Fail(BranchNotFound))
    else Outcome(s.(brVers := s.brVers - {b},
                    brIdToName := s.brIdToName - {b},
                    brNameToId := WithoutIds(s.brNameToId, {b})),
                 Done)
  }

  ghost function RemoveBranches(s: State, d: set<BrId>): State {
    s.(brVers := s.brVers - d, brIdToName := s.brIdToName - d, brNameToId := WithoutIds(s.brNameToId, d))
  }

  /** Only the given branches stay, and then everything dead goes. */
  ghost function KeepOnly(s: State, ids: set<BrId>): State {
    CleanUp(RemoveBranches(s, s.brVers.Keys - ids))
  }

  /** Where a new branch starts: at the head of its base or at a chosen version. */
  datatype ForkPoint = Head | At(ver: VerId)

  /** A forced creation first removes the branch that has the name. */
  ghost function Vacated(s: State, brName: Name, force: bool): State {
    if force && brName in s.brNameToId then RemoveBranch(s, s.brNameToId[brName]).state else s
  }

  ghost function AddBranch(s: State, brName: Name, vs: set<VerId>): State {
    s.(brNameToId := s.brNameToId[brName := s.nextBr],
       brIdToName := s.brIdToName[s.nextBr := brName],
       brVers := s.brVers[s.nextBr := vs],
       nextBr := s.nextBr + 1)
  }

  ghost predicate CanFork(s: State, brName: Name, base: BrId, from: ForkPoint) {
    brName !in s.brNameToId && base in s.brVers && (from.At? ==> from.ver in s.brVers[base])
  }

  ghost function ForkedVersions(s: State, base: BrId, from: ForkPoint): set<VerId>
    requires base in s.brVers
  {
    if from.At? then UpTo(s.brVers[base], from.ver) else s.brVers[base]
  }

  ghost function CreateBranch(s: State, brName: Name, verName: Option<Name>, base: BrId, from: ForkPoint,
                              force: bool): Outcome
  {
    if verName.Some? && verName.value in s.verNameToId then Outcome(s, Fail(VersionExists))
    else if from.Head? && base !in s.brVers then Outcome(s, Fail(BaseBranchNotFound))
    else
      var t := Vacated(s, brName, force);
      if brName in t.brNameToId then Outcome(t, Fail(BranchExists))
      else if base !in t.brVers then Outcome(t, Fail(BaseBranchNotFound))
      else Fork(t, brName, verName, base, from)
  }

  ghost function Fork(s: State, brName: Name, verName: Option<Name>, base: BrId, from: ForkPoint): Outcome
    requires base in s.brVers
  {
    if !CanFork(s, brName, base, from) then Outcome(s, Fail(VersionNotOnBranch))
    else
      var t := AddBranch(s, brName, ForkedVersions(s, base, from));
      if verName.Some? then CreateVersion(t, verName.value, s.nextBr) else Outcome(t, Done)
  }

  ghost function Merge(s: State, b: BrId, target: BrId, force: bool): Outcome {
    if b !in s.brVers then Outcome(s, Fail(BranchNotFound))
    else if target !in s.brVers then Outcome(s, Fail(TargetBranchNotFound))
    else if !force && s.brVers[target] != {} && Max(s.brVers[target]) !in s.brVers[b] then
      Outcome(s, Fail(UnableToMergeSafely))
    else Outcome(s.(brVers := s.brVers[target := s.brVers[target] + s.brVers[b]]), Done)
  }

  ghost function SetDefault(s: State, b: BrId): Outcome {
    if b !in s.brIdToName then Outcome(s, Fail(BranchNotFound)) else Outcome(s.(defaultBranch := b), Done)
  }

  ghost function Swap(s: State, n1: Name, n2: Name): Outcome {
    if n1 !in s.brNameToId || n2 !in s.brNameToId then Outcome(s, Fail(BranchNotFound))
    else
      var b1, b2 := s.brNameToId[n1], s.brNameToId[n2];
      Outcome(s.(brNameToId := s.brNameToId[n1 := b2][n2 := b1],
                 brIdToName := s.brIdToName[b1 := n2][b2 := n1],
                 defaultBranch := if s.defaultBranch == b1 then b2
                                  else if s.defaultBranch == b2 then b1 else s.defaultBranch),
              Done)
  }

  // ---------- reloading ----------

  /** A table turned around; the choice among names of the same id does not matter when there is only one. */
  ghost function Inverse<A(!new), B>(f: map<A, B>): map<B, A> {
    map b | b in f.Values :: var a :| a in f && f[a] == b; a
  }

  /** Every version that is on a branch or has an entry. */
  ghost function Recorded(s: State): set<VerId> {
    Live(s) + set k, v | k in s.kv && v in s.kv[k] :: v
  }

  ghost function RebuiltChangeSets(s: State): map<VerId, set<Key>> {
    map v | v in Recorded(s) :: set k | k in s.kv && v in s.kv[k]
  }

  /** Dropping the derived tables and rebuilding them from the stored ones. */
  ghost function Reload(s: State): State {
    s.(brIdToName := Inverse(s.brNameToId), verIdToName := Inverse(s.verNameToId), chg := RebuiltChangeSets(s))
  }

  // ---------- runs ----------

  datatype Op =
    | OpWrite(b: BrId, k: Key, value: Option<Value>)
    | OpCreateVersion(name: Name, b: BrId)
    | OpPop(b: BrId)
    | OpRebase(base: VerId, b: BrId)
    | OpRevert(v: VerId)
    | OpCleanUp
    | OpPrune(n: Option<nat>)
    | OpTruncate(b: BrId)
    | OpTruncateTo(b: BrId, last: VerId)
    | OpRemoveBranch(b: BrId)
    | OpCreateBranch(brName: Name, verName: Option<Name>, base: BrId, from: ForkPoint, force: bool)
    | OpMerge(b: BrId, target: BrId, forced: bool)
    | OpSetDefault(b: BrId)
    | OpSwap(n1: Name, n2: Name)
    | OpKeepOnly(ids: set<BrId>)
    | OpReload

  ghost function Step(s: State, op: Op): Outcome {
    match op
    case OpWrite(b, k, value) => Write(s, b, k, value)
    case OpCreateVersion(name, b) => CreateVersion(s, name, b)
    case OpPop(b) => PopVersion(s, b)
    case OpRebase(base, b) => Rebase(s, base, b)
    case OpRevert(v) => Revert(s, v)
    case OpCleanUp => Outcome(CleanUp(s), Done)
    case OpPrune(n) => Prune(s, n)
    case OpTruncate(b) => TruncateBranch(s, b)
    case OpTruncateTo(b, last) => TruncateBranchTo(s, b, last)
    case OpRemoveBranch(b) => RemoveBranch(s, b)
    case OpCreateBranch(brName, verName, base, from, force) => CreateBranch(s, brName, verName, base, from, force)
    case OpMerge(b, target, forced) => Merge(s, b, target, forced)
    case OpSetDefault(b) => SetDefault(s, b)
    case OpSwap(n1, n2) => Swap(s, n1, n2)
    case OpKeepOnly(ids) => Outcome(KeepOnly(s, ids), Done)
    case OpReload => Outcome(Reload(s), Done)
  }

  /** Part of the documented contract of rebasing: the versions to merge are on no other branch. */
  ghost predicate MergedUnshared(s: State, base: VerId, b: BrId) {
    b in s.brVers ==>
      forall c, v :: c in s.brVers && c != b && v in s.brVers[c] ==> v <= base || v !in s.brVers[b]
  }

  /** What a caller must see to: rebase within its contract, and version ids not used up. */
  ghost predicate Legal(s: State, op: Op) {
    match op
    case OpRebase(base, b) => MergedUnshared(s, base, b)
    case OpCreateVersion(_, _) => s.nextVer < VER_ID_MAX
    case OpCreateBranch(_, verName, _, _, _) => verName.Some? ==> s.nextVer < VER_ID_MAX
    case _ => true
  }

  ghost predicate LegalRun(s: State, ops: seq<Op>)
    decreases |ops|
  {
    ops == [] || (Legal(s, ops[0]) && LegalRun(Step(s, ops[0]).state, ops[1..]))
  }

  ghost function Run(s: State, ops: seq<Op>): State
    decreases |ops|
  {
    if ops == [] then s else Run(Step(s, ops[0]).state, ops[1..])
  }
}
