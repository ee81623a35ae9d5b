/** Steps and runs: what holds in every state a run can reach. */
module Runs {
  import opened Basics
  import opened VersionState
  import opened VersionInvariants
  import opened Compaction
  import opened Reloading

  lemma StepInv(s: State, op: Op)
    requires Inv(s) && Legal(s, op)
    ensures Inv(Step(s, op).state)
  {
    match op
    case OpWrite(b, k, value) => WriteInv(s, b, k, value);
    case OpCreateVersion(name, b) => CreateVersionInv(s, name, b);
    case OpPop(b) => PopInv(s, b);
    case OpRebase(base, b) => RebaseInv(s, base, b);
    case OpRevert(v) => RevertInv(s, v);
    case OpCleanUp => CleanUpInv(s);
    case OpPrune(n) => PruneInv(s, n);
    case OpTruncate(b) => TruncateInv(s, b);
    case OpTruncateTo(b, last) => TruncateToInv(s, b, last);
    case OpRemoveBranch(b) => RemoveBranchInv(s, b);
    case OpCreateBranch(brName, verName, base, from, force) => CreateBranchInv(s, brName, verName, base, from, force);
    case OpMerge(b, target, forced) => MergeInv(s, b, target, forced);
    case OpSetDefault(b) => SetDefaultInv(s, b);
    case OpSwap(n1, n2) => SwapInv(s, n1, n2);
    case OpKeepOnly(ids) => KeepOnlyInv(s, ids);
    case OpReload => ReloadRoundTrip(s);
  }

  /** Every state of every legal run keeps the index, the names and the allocators in agreement. */
  lemma {:induction false} RunInv(s: State, ops: seq<Op>)
    requires Inv(s) && LegalRun(s, ops)
    ensures Inv(Run(s, ops))
    decreases |ops|
  {
    if ops != [] {
      StepInv(s, ops[0]);
      RunInv(Step(s, ops[0]).state, ops[1..]);
    }
  }

  /** The states of the runs of a map created over a database. */
  ghost predicate Reachable(s: State) {
    exists nextBr: BrId, nextVer: VerId, ops ::
      INITIAL_BRANCH_ID < nextBr && nextVer <= VER_ID_MAX && RunsTo(Init(nextBr, nextVer), ops, s)
  }

  ghost predicate RunsTo(s: State, ops: seq<Op>, t: State) {
    LegalRun(s, ops) && Run(s, ops) == t
  }

  lemma {:induction false} RunOn(s: State, ops: seq<Op>, op: Op)
    requires LegalRun(s, ops) && Legal(Run(s, ops), op)
    ensures LegalRun(s, ops + [op]) && Run(s, ops + [op]) == Step(Run(s, ops), op).state
    decreases |ops|
  {
    var t := Step(s, (ops + [op])[0]).state;
    if ops != [] {
      RunOn(t, ops[1..], op);
      assert (ops + [op])[1..] == ops[1..] + [op];
    } else {
      assert (ops + [op])[1..] == [] && LegalRun(t, []) && Run(t, []) == t;
    }
  }

  lemma ReachInit(nextBr: BrId, nextVer: VerId)
    requires INITIAL_BRANCH_ID < nextBr && nextVer <= VER_ID_MAX
    ensures Reachable(Init(nextBr, nextVer))
  {
    assert RunsTo(Init(nextBr, nextVer), [], Init(nextBr, nextVer));
  }

  lemma ReachStep(s: State, op: Op)
    requires Reachable(s) && Legal(s, op)
    ensures Reachable(Step(s, op).state)
  {
    var nextBr: BrId, nextVer: VerId, ops :|
      INITIAL_BRANCH_ID < nextBr && nextVer <= VER_ID_MAX && RunsTo(Init(nextBr, nextVer), ops, s);
    RunOn(Init(nextBr, nextVer), ops, op);
    assert RunsTo(Init(nextBr, nextVer), ops + [op], Step(s, op).state);
  }

  /** In every reachable state the tables agree. */
  lemma ReachableInv(s: State)
    requires Reachable(s)
    ensures Inv(s)
  {
    var nextBr: BrId, nextVer: VerId, ops :|
      INITIAL_BRANCH_ID < nextBr && nextVer <= VER_ID_MAX && RunsTo(Init(nextBr, nextVer), ops, s);
    InitInv(nextBr, nextVer);
    RunInv(Init(nextBr, nextVer), ops);
  }

  // ---------- the default branch ----------

  ghost predicate DefaultIsNamed(s: State) {
    s.defaultBranch in s.brIdToName
  }

  /** The operations that take the default branch away: removing it, keeping others only, and a forced
      creation under its name. */
  ghost predicate TakesDefault(s: State, op: Op) {
    match op
    case OpRemoveBranch(b) => b == s.defaultBranch
    case OpCreateBranch(brName, verName, base, from, force) =>
      && force && brName in s.brNameToId && s.brNameToId[brName] == s.defaultBranch
      && !(verName.Some? && verName.value in s.verNameToId) && (from.Head? ==> base in s.brVers)
    case OpKeepOnly(ids) => s.defaultBranch !in ids
    case _ => false
  }

  lemma VacatedDefault(s: State, brName: Name, force: bool)
    requires Inv(s) && DefaultIsNamed(s)
    ensures DefaultIsNamed(Vacated(s, brName, force)) <==>
      !(force && brName in s.brNameToId && s.brNameToId[brName] == s.defaultBranch)
    ensures Vacated(s, brName, force).defaultBranch == s.defaultBranch && Vacated(s, brName, force).nextBr == s.nextBr
  {
  }

  lemma CreateBranchDefault(s: State, brName: Name, verName: Option<Name>, base: BrId, from: ForkPoint, force: bool)
    requires Inv(s) && DefaultIsNamed(s)
    ensures DefaultIsNamed(CreateBranch(s, brName, verName, base, from, force).state) <==>
      !TakesDefault(s, OpCreateBranch(brName, verName, base, from, force))
  {
    VacatedDefault(s, brName, force);
    assert s.defaultBranch < s.nextBr;
    hide Vacated, Inv;
  }

  /** The default branch keeps its name in a step exactly unless the step takes the branch away. */
  lemma DefaultStaysExactly(s: State, op: Op)
    requires Inv(s) && DefaultIsNamed(s)
    ensures DefaultIsNamed(Step(s, op).state) <==> !TakesDefault(s, op)
  {
    hide CreateBranch, Prune, Reload, CleanUp, RebaseOnto;
    if op.OpCreateBranch? {
      CreateBranchDefault(s, op.brName, op.verName, op.base, op.from, op.force);
    } else if op.OpSwap? {
      SwapDefault(s, op.n1, op.n2);
    } else {
      OtherDefault(s, op);
    }
  }

  lemma SwapDefault(s: State, n1: Name, n2: Name)
    requires Inv(s) && DefaultIsNamed(s)
    ensures DefaultIsNamed(Swap(s, n1, n2).state)
  {
  }

  lemma OtherDefault(s: State, op: Op)
    requires Inv(s) && DefaultIsNamed(s) && !op.OpCreateBranch? && !op.OpSwap?
    ensures DefaultIsNamed(Step(s, op).state) <==> !TakesDefault(s, op)
  {
    hide Prune, Reload, IndexAgrees, VersionsKnown, IdsAllocated;
    if op.OpPrune? { PruneNames(s, op.n); }
    if op.OpReload? { ReloadRoundTrip(s); }
  }

  lemma PruneNames(s: State, n: Option<nat>)
    ensures var t := Prune(s, n).state; t.brIdToName == s.brIdToName && t.defaultBranch == s.defaultBranch
  {
  }

  // ---------- prefix coherence ----------

  lemma CutBackCoherent(s: State, op: Op)
    requires Coherent(s.brVers)
    requires op.OpPop? || op.OpRebase? || op.OpTruncate? || op.OpTruncateTo?
    ensures Coherent(Step(s, op).state.brVers)
  {
    if op.b in s.brVers {
      var t := Step(s, op).state;
      CoherentBeginning(s.brVers, op.b, op.b, t.brVers[op.b]);
      assert t.brVers == s.brVers || t.brVers == s.brVers[op.b := t.brVers[op.b]];
    }
  }

  /** Only a forced merge can break coherence. */
  ghost predicate KeepsCoherence(s: State, op: Op) {
    op.OpMerge? && op.forced ==> MergesCoherently(s.brVers, op.b, op.target)
  }

  lemma KeepOnlyCoherent(s: State, ids: set<BrId>)
    requires Coherent(s.brVers)
    ensures Coherent(KeepOnly(s, ids).brVers)
  {
  }

  lemma StepCoherent(s: State, op: Op)
    requires Inv(s) && Coherent(s.brVers) && !(op.OpMerge? && op.forced)
    ensures Coherent(Step(s, op).state.brVers)
  {
    match op
    case OpCreateVersion(name, b) => CreateVersionCoherent(s, name, b);
    case OpPop(_) => CutBackCoherent(s, op);
    case OpRebase(_, _) => CutBackCoherent(s, op);
    case OpTruncate(_) => CutBackCoherent(s, op);
    case OpTruncateTo(_, _) => CutBackCoherent(s, op);
    case OpRevert(v) => CoherentWithout(s.brVers, {v});
    case OpPrune(n) => PruneCoherent(s, n);
    case OpCreateBranch(brName, verName, base, from, force) =>
      CreateBranchCoherent(s, brName, verName, base, from, force);
    case OpMerge(b, target, _) => MergeCoherent(s, b, target);
    case OpKeepOnly(ids) => KeepOnlyCoherent(s, ids);
    case OpWrite(_, _, _) =>
    case OpCleanUp =>
    case OpRemoveBranch(_) =>
    case OpSetDefault(_) =>
    case OpSwap(_, _) =>
    case OpReload =>
  }

  /** A step keeps histories coherent exactly unless it is a forced merge of interleaved lists. */
  lemma StepCoherentExactly(s: State, op: Op)
    requires Inv(s) && Coherent(s.brVers)
    ensures Coherent(Step(s, op).state.brVers) <==> KeepsCoherence(s, op)
  {
    if op.OpMerge? && op.forced {
      if op.b in s.brVers && op.target in s.brVers { UnionCoherentExactly(s.brVers, op.b, op.target); }
    } else {
      StepCoherent(s, op);
    }
  }

  ghost predicate CoherentThroughout(s: State, ops: seq<Op>)
    decreases |ops|
  {
    Coherent(s.brVers) && (ops == [] || CoherentThroughout(Step(s, ops[0]).state, ops[1..]))
  }

  ghost predicate MergesCoherentlyThroughout(s: State, ops: seq<Op>)
    decreases |ops|
  {
    ops == [] || (KeepsCoherence(s, ops[0]) && MergesCoherentlyThroughout(Step(s, ops[0]).state, ops[1..]))
  }

  /** Branches that share a version share its whole history, in all states of a run, exactly if every
      forced merge on the way was of lists that do not interleave. */
  lemma {:induction false} RunCoherentExactly(s: State, ops: seq<Op>)
    requires Inv(s) && Coherent(s.brVers) && LegalRun(s, ops)
    ensures CoherentThroughout(s, ops) <==> MergesCoherentlyThroughout(s, ops)
    decreases |ops|
  {
    if ops != [] {
      StepInv(s, ops[0]);
      StepCoherentExactly(s, ops[0]);
      if KeepsCoherence(s, ops[0]) { RunCoherentExactly(Step(s, ops[0]).state, ops[1..]); }
    }
  }
}
