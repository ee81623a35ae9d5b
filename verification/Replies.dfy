/** When an operation is refused, with what answer, and that a refusal changes nothing. */
module Replies {
  import opened Basics
  import opened OrderedSets
  import opened VersionState
  import opened VersionInvariants
  import opened Compaction

  /** A version is on a branch. */
  ghost predicate On(s: State, b: BrId, v: VerId) {
    b in s.brVers && v in s.brVers[b]
  }

  ghost predicate NewestOn(s: State, b: BrId, v: VerId) {
    On(s, b, v) && forall u: VerId :: On(s, b, u) ==> u <= v
  }

  /** What a caller must name for an operation to go ahead. */
  ghost predicate Accepts(s: State, op: Op) {
    match op
    case OpWrite(b, _, _) => exists v: VerId :: On(s, b, v)
    case OpCreateVersion(name, b) => name !in s.verNameToId && b in s.brVers
    case OpPop(b) => b in s.brVers
    case OpRebase(base, b) => On(s, b, base)
    case OpRevert(v) => v in s.chg
    case OpCleanUp => true
    case OpPrune(n) => n != Some(0xFFFF_FFFF_FFFF_FFFF)
    case OpTruncate(b) => b in s.brVers
    case OpTruncateTo(b, _) => b in s.brVers
    case OpRemoveBranch(b) => b in s.brVers
    case OpCreateBranch(brName, verName, base, from, force) =>
      && (verName.Some? ==> verName.value !in s.verNameToId)
      && base in s.brVers && (from.At? ==> On(s, base, from.ver))
      && (brName in s.brNameToId ==> force && s.brNameToId[brName] != base)
    case OpMerge(b, target, forced) =>
      && b in s.brVers && target in s.brVers
      && (forced || (forall v: VerId :: NewestOn(s, target, v) ==> On(s, b, v)))
    case OpSetDefault(b) => b in s.brVers
    case OpSwap(n1, n2) => n1 in s.brNameToId && n2 in s.brNameToId
    case OpKeepOnly(_) => true
    case OpReload => true
  }

  /** The counts that a 64-bit `usize` can hold. */
  ghost predicate Countable(op: Op) {
    op.OpPrune? && op.n.Some? ==> op.n.value <= 0xFFFF_FFFF_FFFF_FFFF
  }

  lemma NewestIsMax(s: State, b: BrId, v: VerId)
    requires b in s.brVers && s.brVers[b] != {}
    ensures NewestOn(s, b, v) <==> v == Max(s.brVers[b])
  {
    assert On(s, b, Max(s.brVers[b]));
  }

  /** What the checks of a creation see once a branch of the name is gone. */
  lemma VacatedFor(s: State, brName: Name, force: bool, base: BrId)
    requires Inv(s)
    ensures var t := Vacated(s, brName, force);
      && (brName in t.brNameToId <==> brName in s.brNameToId && !force)
      && (base in t.brVers <==> base in s.brVers && !(force && brName in s.brNameToId && s.brNameToId[brName] == base))
      && (base in t.brVers ==> t.brVers[base] == s.brVers[base])
      && t.verNameToId == s.verNameToId && t.nextBr == s.nextBr && t.nextBr !in t.brVers
  {
    VacatedKeeps(s, brName, force);
    hide IndexAgrees, VersionsKnown;
  }

  lemma CreateBranchAccepts(s: State, brName: Name, verName: Option<Name>, base: BrId, from: ForkPoint, force: bool)
    requires Inv(s)
    ensures !CreateBranch(s, brName, verName, base, from, force).reply.Fail?
       <==> Accepts(s, OpCreateBranch(brName, verName, base, from, force))
  {
    hide Vacated, Inv;
    VacatedFor(s, brName, force, base);
  }

  lemma MergeAccepts(s: State, b: BrId, target: BrId, forced: bool)
    ensures !Merge(s, b, target, forced).reply.Fail? <==> Accepts(s, OpMerge(b, target, forced))
  {
    if b in s.brVers && target in s.brVers && s.brVers[target] != {} {
      forall v: VerId
        ensures NewestOn(s, target, v) <==> v == Max(s.brVers[target])
      {
        NewestIsMax(s, target, v);
      }
      assert NewestOn(s, target, Max(s.brVers[target]));
    }
  }

  /** Every operation answers with a failure exactly if it is given something it cannot accept. */
  lemma AcceptsExactly(s: State, op: Op)
    requires Inv(s) && Countable(op)
    ensures !Step(s, op).reply.Fail? <==> Accepts(s, op)
  {
    match op
    case OpWrite(b, _, _) => assert b in s.brVers && s.brVers[b] != {} ==> On(s, b, Max(s.brVers[b]));
    case OpCreateBranch(brName, verName, base, from, force) =>
      CreateBranchAccepts(s, brName, verName, base, from, force);
    case OpMerge(b, target, forced) => MergeAccepts(s, b, target, forced);
    case OpPrune(n) => PruneFailsExactly(s, n);
    case _ =>
  }

  /** What each failure says of the operation's arguments. */
  ghost predicate Reason(s: State, op: Op, e: Error) {
    match e
    case BranchNotFound =>
      (match op
       case OpWrite(b, _, _) => b !in s.brVers
       case OpCreateVersion(_, b) => b !in s.brVers
       case OpPop(b) => b !in s.brVers
       case OpRebase(_, b) => b !in s.brVers
       case OpTruncate(b) => b !in s.brVers
       case OpTruncateTo(b, _) => b !in s.brVers
       case OpRemoveBranch(b) => b !in s.brVers
       case OpMerge(b, _, _) => b !in s.brVers
       case OpSetDefault(b) => b !in s.brVers
       case OpSwap(n1, n2) => n1 !in s.brNameToId || n2 !in s.brNameToId
       case _ => false)
    case BaseBranchNotFound =>
      op.OpCreateBranch? && (op.base !in s.brVers || Find(s.brNameToId, op.brName) == Some(op.base))
    case TargetBranchNotFound => op.OpMerge? && op.target !in s.brVers
    case BranchExists => op.OpCreateBranch? && op.brName in s.brNameToId && !op.force
    case NoVersionOnBranch => op.OpWrite? && forall v: VerId :: !On(s, op.b, v)
    case VersionExists =>
      || (op.OpCreateVersion? && op.name in s.verNameToId)
      || (op.OpCreateBranch? && op.verName.Some? && op.verName.value in s.verNameToId)
    case VersionNotFound => op.OpRevert? && op.v !in s.chg
    case VersionNotOnBranch =>
      || (op.OpRebase? && !On(s, op.b, op.base))
      || (op.OpCreateBranch? && op.from.At? && !On(s, op.base, op.from.ver))
    case UnableToMergeSafely =>
      op.OpMerge? && !op.forced && exists v: VerId :: NewestOn(s, op.target, v) && !On(s, op.b, v)
    case ReservedNumberIsZero => op.OpPrune? && op.n == Some(0xFFFF_FFFF_FFFF_FFFF)
    case MissingEntry => false
  }

  lemma CreateBranchReason(s: State, brName: Name, verName: Option<Name>, base: BrId, from: ForkPoint, force: bool)
    requires Inv(s)
    ensures var r := CreateBranch(s, brName, verName, base, from, force).reply;
      r.Fail? ==> Reason(s, OpCreateBranch(brName, verName, base, from, force), r.error)
  {
    hide Vacated, Inv;
    VacatedFor(s, brName, force, base);
  }

  lemma MergeReason(s: State, b: BrId, target: BrId, forced: bool)
    ensures var r := Merge(s, b, target, forced).reply; r.Fail? ==> Reason(s, OpMerge(b, target, forced), r.error)
  {
    if b in s.brVers && target in s.brVers && s.brVers[target] != {} {
      NewestIsMax(s, target, Max(s.brVers[target]));
    }
  }

  /** Every failure tells the truth, and none is of a missing internal entry. */
  lemma FailuresAreTrue(s: State, op: Op)
    requires Inv(s) && Countable(op)
    ensures Step(s, op).reply.Fail? ==> Reason(s, op, Step(s, op).reply.error)
  {
    match op
    case OpCreateBranch(brName, verName, base, from, force) =>
      CreateBranchReason(s, brName, verName, base, from, force);
    case OpMerge(b, target, forced) => MergeReason(s, b, target, forced);
    case OpPrune(n) => PruneFailsExactly(s, n);
    case _ =>
  }

  /** A forced creation that gets past its first two checks, and so removes the branch of the name. */
  ghost predicate Removes(s: State, op: Op) {
    && op.OpCreateBranch? && op.force && op.brName in s.brNameToId
    && (op.verName.Some? ==> op.verName.value !in s.verNameToId)
    && (op.from.Head? ==> op.base in s.brVers)
  }

  lemma CreateBranchFailure(s: State, brName: Name, verName: Option<Name>, base: BrId, from: ForkPoint, force: bool)
    requires Inv(s) && CreateBranch(s, brName, verName, base, from, force).reply.Fail?
    ensures var t := CreateBranch(s, brName, verName, base, from, force).state;
      if Removes(s, OpCreateBranch(brName, verName, base, from, force))
      then t == RemoveBranch(s, s.brNameToId[brName]).state else t == s
  {
    VacatedKeeps(s, brName, force);
    hide IndexAgrees, VersionsKnown, IdsAllocated;
  }

  /** A failure leaves the state as it was, except that pruning with the largest reserve count has cleaned
      up, and that a forced creation past its first checks has removed the branch of the name. */
  lemma FailureChangesNothing(s: State, op: Op)
    requires Inv(s) && Countable(op) && Step(s, op).reply.Fail?
    ensures Step(s, op).state ==
      if op.OpPrune? then CleanUp(s)
      else if Removes(s, op) then RemoveBranch(s, s.brNameToId[op.brName]).state
      else s
  {
    hide CleanUp;
    match op
    case OpCreateBranch(brName, verName, base, from, force) =>
      CreateBranchFailure(s, brName, verName, base, from, force);
    case OpPrune(n) => PruneFailsExactly(s, n);
    case _ =>
  }
}
