/**
  The LINEAGE_REPLACE commit: the authorization chain gates an ordered storage transaction of
  five steps, and a restart classifies whatever record the storage was left with.
*/
module VerifiedCommit {
  import opened Bytes
  import opened LineageAuthorization
  import AuthV3
  import IotCore

  // ---- Steps, records and recovery ----

  datatype Step = PersistPending | ActivateSuccessor | RetirePredecessor | InvalidateDependentState | ClearPending

  const ORDER: seq<Step> := [PersistPending, ActivateSuccessor, RetirePredecessor, InvalidateDependentState, ClearPending]

  /** The normalized facts a restart reads back. */
  datatype Record = Record(
    intact: bool, predecessorActive: bool, pending: bool, successorActive: bool, predecessorRetired: bool, invalidated: bool)

  datatype Lineage = ActivePredecessor | ActiveSuccessorPredecessorRetired | ContinuityBroken

  function Recover(r: Record): Lineage {
    if !r.intact then ContinuityBroken
    else if r.predecessorActive && !r.pending && !r.successorActive && !r.predecessorRetired && !r.invalidated then ActivePredecessor
    else if !r.predecessorActive && !r.pending && r.successorActive && r.predecessorRetired && r.invalidated then ActiveSuccessorPredecessorRetired
    else ContinuityBroken
  }

  const CLEAN: Record := Record(true, true, false, false, false, false)

  /** What a step leaves in the record once it is durable. */
  function Durable(r: Record, step: Step): Record {
    match step
    case PersistPending => r.(pending := true)
    case ActivateSuccessor => r.(successorActive := true)
    case RetirePredecessor => r.(predecessorActive := false, predecessorRetired := true)
    case InvalidateDependentState => r.(invalidated := true)
    case ClearPending => r.(pending := false)
  }

  /** The write-cut table: the facts when the first n steps are durable. */
  function AtCut(n: nat): Record
    requires n <= 5
  {
    Record(true, n < 3, 1 <= n < 5, 2 <= n, 3 <= n, 4 <= n)
  }

  // ---- The storage adapter ----

  /** What one invocation does: what it reports, and whether the step is durable afterwards. */
  datatype Behaviour = Behaviour(reported: bool, durable: bool)

  type Script = nat -> Behaviour

  /** A success report means durable; a failure report means nothing. */
  ghost predicate Honest(script: Script) {
    forall n: nat :: script(n).reported ==> script(n).durable
  }

  /** The steps invoked so far, and the record they have left. */
  datatype Storage = Storage(calls: seq<Step>, record: Record)

  function Invoke(s: Storage, script: Script, step: Step): Storage {
    Storage(s.calls + [step], if script(|s.calls|).durable then Durable(s.record, step) else s.record)
  }

  /** The storage once the first k steps of a transaction have been invoked. */
  function After(s: Storage, script: Script, k: nat): Storage
    requires k <= |ORDER|
  {
    if k == 0 then s else Invoke(After(s, script, k - 1), script, ORDER[k - 1])
  }

  lemma AfterCalls(s: Storage, script: Script, k: nat)
    requires k <= |ORDER|
    ensures After(s, script, k).calls == s.calls + ORDER[..k]
  {
    if k > 0 {
      AfterCalls(s, script, k - 1);
      assert ORDER[..k] == ORDER[..k - 1] + [ORDER[k - 1]];
    }
  }

  /** An arbitrary adapter: its n-th invocation behaves as the script says. */
  class Adapter {
    const script: Script
    var calls: seq<Step>
    var record: Record

    ghost function State(): Storage
      reads this
    {
      Storage(calls, record)
    }

    constructor (script: Script, record: Record)
      ensures this.script == script && calls == [] && this.record == record
    {
      this.script := script;
      calls, this.record := [], record;
    }

    method Apply(step: Step) returns (ok: bool)
      modifies this
      ensures State() == Invoke(old(State()), script, step) && ok == script(|old(calls)|).reported
    {
      var b := script(|calls|);
      calls := calls + [step];
      if b.durable { record := Durable(record, step); }
      ok := b.reported;
    }
  }

  // ---- The executor ----

  datatype Plan = Plan(
    retirePredecessor: bool, activateSuccessor: bool, invalidateSessionKeys: bool, invalidateResumption: bool,
    invalidateAuthorizationCache: bool, invalidateAttributionCache: bool, invalidateChannelBinding: bool, invalidateReplayState: bool)

  predicate Complete(p: Plan) {
    && p.retirePredecessor && p.activateSuccessor && p.invalidateSessionKeys && p.invalidateResumption
    && p.invalidateAuthorizationCache && p.invalidateAttributionCache && p.invalidateChannelBinding && p.invalidateReplayState
  }

  function PlanFor(d: Decision): Option<Plan> {
    if d != AcceptSuccessor then None else Some(Plan(true, true, true, true, true, true, true, true))
  }

  datatype StorageResult =
    Committed | RejectPlan | FailPending | FailSuccessor | FailPredecessor | FailInvalidations | FailClear

  function FailureOf(step: Step): StorageResult {
    match step
    case PersistPending => FailPending
    case ActivateSuccessor => FailSuccessor
    case RetirePredecessor => FailPredecessor
    case InvalidateDependentState => FailInvalidations
    case ClearPending => FailClear
  }

  predicate Reports(script: Script, base: nat, i: nat) {
    script(base + i).reported
  }

  /** How many steps a transaction invokes from step n on: up to and including the first failure. */
  function Invoked(script: Script, base: nat, n: nat): (k: nat)
    requires n < |ORDER|
    ensures n < k <= |ORDER|
    ensures forall j: nat | n <= j < k - 1 :: Reports(script, base, j)
    ensures k < |ORDER| ==> !Reports(script, base, k - 1)
    decreases |ORDER| - n
  {
    if n + 1 == |ORDER| || !Reports(script, base, n) then n + 1 else Invoked(script, base, n + 1)
  }

  /**
    For every adapter, from every state of it: a complete plan invokes the steps in the fixed
    order up to the first that reports failure, whose error is the result. Nothing is retried,
    compensated or skipped.
  */
  method ExecuteTransaction(plan: Option<Plan>, adapter: Adapter) returns (r: StorageResult)
    modifies adapter
    ensures plan.None? || !Complete(plan.value) ==> r == RejectPlan && adapter.State() == old(adapter.State())
    ensures plan.Some? && Complete(plan.value) ==>
      var base := |old(adapter.calls)|;
      var k := Invoked(adapter.script, base, 0);
      && adapter.State() == After(old(adapter.State()), adapter.script, k)
      && r == if Reports(adapter.script, base, k - 1) then Committed else FailureOf(ORDER[k - 1])
  {
    hide Complete, After, Invoked, Reports;
    if plan.None? { return RejectPlan; }
    if !Complete(plan.value) { return RejectPlan; }
    ghost var start := adapter.State();
    NoneInvoked(start, adapter.script);
    var ok := ApplyNext(adapter, PersistPending, start, 0);
    if !ok { return FailPending; }
    ok := ApplyNext(adapter, ActivateSuccessor, start, 1);
    if !ok { return FailSuccessor; }
    ok := ApplyNext(adapter, RetirePredecessor, start, 2);
    if !ok { return FailPredecessor; }
    ok := ApplyNext(adapter, InvalidateDependentState, start, 3);
    if !ok { return FailInvalidations; }
    ok := ApplyNext(adapter, ClearPending, start, 4);
    if !ok { return FailClear; }
    return Committed;
  }

  lemma NoneInvoked(s: Storage, script: Script)
    ensures After(s, script, 0) == s
  {
  }

  method ApplyNext(adapter: Adapter, step: Step, ghost start: Storage, ghost n: nat) returns (ok: bool)
    requires n < |ORDER| && step == ORDER[n] && adapter.State() == After(start, adapter.script, n)
    modifies adapter
    ensures adapter.State() == After(start, adapter.script, n + 1)
    ensures ok == Reports(adapter.script, |start.calls|, n)
    ensures Invoked(adapter.script, |start.calls|, n)
         == if n + 1 == |ORDER| || !ok then n + 1 else Invoked(adapter.script, |start.calls|, n + 1)
  {
    AfterCalls(start, adapter.script, n);
    ok := adapter.Apply(step);
  }

  // ---- Recovery after any outcome ----

  /** Step i was among the k invoked and is durable. */
  predicate Kept(script: Script, base: nat, k: nat, i: nat) {
    i < k && script(base + i).durable
  }

  /** The record after k invocations over a clean predecessor record, whatever the adapter did. */
  function RecordAfter(script: Script, calls: seq<Step>, k: nat): Record
    requires k <= |ORDER|
  {
    After(Storage(calls, CLEAN), script, k).record
  }

  lemma RecordFields(script: Script, calls: seq<Step>, k: nat)
    requires k <= |ORDER|
    ensures var b := |calls|;
            RecordAfter(script, calls, k)
            == Record(true, !Kept(script, b, k, 2), Kept(script, b, k, 0) && !Kept(script, b, k, 4),
                      Kept(script, b, k, 1), Kept(script, b, k, 2), Kept(script, b, k, 3))
  {
    if k > 0 {
      RecordFields(script, calls, k - 1);
      AfterCalls(Storage(calls, CLEAN), script, k - 1);
    }
  }

  /** With the first n steps durable and no more, the record is the write-cut table's. */
  lemma CutTable(script: Script, calls: seq<Step>, n: nat)
    requires n <= |ORDER| && forall i: nat | i < n :: Kept(script, |calls|, n, i)
    ensures RecordAfter(script, calls, n) == AtCut(n)
  {
    RecordFields(script, calls, n);
  }

  /**
    For every adapter, honest or not, and after every number of invocations, so for a crash
    anywhere: what a restart reads. The marker counts as gone if it was never kept or was
    cleared again.
  */
  lemma RecoveryForAnyAdapter(script: Script, calls: seq<Step>, k: nat)
    requires k <= |ORDER|
    ensures var b := |calls|;
            var unmarked := Kept(script, b, k, 0) ==> Kept(script, b, k, 4);
            var r := Recover(RecordAfter(script, calls, k));
            && (r == ActiveSuccessorPredecessorRetired <==>
                  Kept(script, b, k, 1) && Kept(script, b, k, 2) && Kept(script, b, k, 3) && unmarked)
            && (r == ActivePredecessor <==>
                  !Kept(script, b, k, 1) && !Kept(script, b, k, 2) && !Kept(script, b, k, 3) && unmarked)
  {
    hide Kept;
    RecordFields(script, calls, k);
  }

  /** The successor is reported only when all five steps are durable, the predecessor only when none is. */
  predicate RecoverySound(script: Script, calls: seq<Step>, k: nat)
    requires k <= |ORDER|
  {
    var r := Recover(RecordAfter(script, calls, k));
    && (r == ActiveSuccessorPredecessorRetired ==> forall i | 0 <= i < |ORDER| :: Kept(script, |calls|, k, i))
    && (r == ActivePredecessor ==> forall i | 0 <= i < |ORDER| :: !Kept(script, |calls|, k, i))
  }

  /**
    Recovery is sound exactly when neither of two lies occurred: the middle steps all kept
    without the marker, or the marker cleared while none of the middle steps was kept.
  */
  lemma RecoverySoundExactly(script: Script, calls: seq<Step>, k: nat)
    requires k <= |ORDER|
    ensures var b := |calls|;
            RecoverySound(script, calls, k) <==>
            (&& !(Kept(script, b, k, 1) && Kept(script, b, k, 2) && Kept(script, b, k, 3) && !Kept(script, b, k, 0))
             && !(!Kept(script, b, k, 1) && !Kept(script, b, k, 2) && !Kept(script, b, k, 3) && Kept(script, b, k, 4)))
  {
    hide Kept, RecordAfter;
    RecoveryForAnyAdapter(script, calls, k);
    var b := |calls|;
    assert (forall i | 0 <= i < |ORDER| :: Kept(script, b, k, i))
      <==> Kept(script, b, k, 0) && Kept(script, b, k, 1) && Kept(script, b, k, 2) && Kept(script, b, k, 3) && Kept(script, b, k, 4);
    assert (forall i | 0 <= i < |ORDER| :: !Kept(script, b, k, i))
      <==> !Kept(script, b, k, 0) && !Kept(script, b, k, 1) && !Kept(script, b, k, 2) && !Kept(script, b, k, 3) && !Kept(script, b, k, 4);
  }

  /** How many of the k invoked steps are durable, for an honest adapter: all, or all but the last. */
  function KeptCount(script: Script, base: nat, k: nat): (d: nat)
    ensures d <= k
  {
    if k == 0 || script(base + k - 1).durable then k else k - 1
  }

  /**
    With an honest adapter, at any moment of a transaction over a clean record: the durable
    steps are the first d of the order, the record is the write-cut table's for d, and recovery
    reports the successor only for all five, the predecessor only for none, and otherwise a
    broken continuity, even if a step reported as failed did become durable.
  */
  lemma HonestRecovery(script: Script, calls: seq<Step>, k: nat)
    requires Honest(script) && k <= Invoked(script, |calls|, 0)
    ensures var d := KeptCount(script, |calls|, k);
            && (forall i: nat :: Kept(script, |calls|, k, i) <==> i < d)
            && RecordAfter(script, calls, k) == AtCut(d)
            && RecoverySound(script, calls, k)
            && Recover(RecordAfter(script, calls, k))
               == if d == 5 then ActiveSuccessorPredecessorRetired else if d == 0 then ActivePredecessor else ContinuityBroken
  {
    var b, d := |calls|, KeptCount(script, |calls|, k);
    forall i: nat ensures Kept(script, b, k, i) <==> i < d {
      if i < k - 1 { assert Reports(script, b, i); }
    }
    hide Kept, RecordAfter, Invoked, RecoverySound;
    RecordFields(script, calls, k);
    RecoverySoundExactly(script, calls, k);
  }

  // ---- The composition ----

  datatype Phase = RejectAuthorization | RejectDecision | RejectPlanPhase | RejectStorageAdapter | StorageCommitted | StorageFailed

  datatype CommitResult = CommitResult(phase: Phase, authorization: Authorization, decision: Decision, storage: StorageResult)

  /** Every gate in front of the storage. */
  predicate Permitted(authContext: Option<AuthV3.Context>, expectation: Option<Expectation>, context: Option<IotCore.Authz>,
                      attribution: Option<IotCore.Attribution>, evidence: Option<Evidence>, facts: Option<LifecycleFacts>)
  {
    Authorized(authContext, expectation, context, attribution, evidence) && facts.Some? && LifecycleClear(facts.value)
  }

  /**
    The verified commit, for every adapter in any state. The adapter is invoked exactly when
    every gate accepts, in the fixed order up to the first failure; the result names the first
    gate or step that stopped it.
  */
  method ExecuteVerifiedCommit(authContext: Option<AuthV3.Context>, expectation: Option<Expectation>, context: Option<IotCore.Authz>,
                               attribution: Option<IotCore.Attribution>, evidence: Option<Evidence>, facts: Option<LifecycleFacts>,
                               adapter: Adapter?) returns (r: CommitResult)
    modifies adapter
    ensures r.authorization == Authorize(authContext, expectation, context, attribution, evidence)
    ensures var authorized := Authorized(authContext, expectation, context, attribution, evidence);
            var clear := facts.Some? && LifecycleClear(facts.value);
            && (r.phase == RejectAuthorization <==> !authorized)
            && (r.phase == RejectDecision <==> authorized && !clear)
            && (r.phase == RejectStorageAdapter <==> authorized && clear && adapter == null)
            && (r.phase in {StorageCommitted, StorageFailed} <==> authorized && clear && adapter != null)
    ensures r.phase == RejectAuthorization ==> r.decision == RejectAuthority
    ensures r.phase == RejectDecision && facts.None? ==> r.decision == RejectStorage
    ensures r.phase !in {StorageCommitted, StorageFailed} ==> r.storage == RejectPlan
    ensures adapter != null && !Permitted(authContext, expectation, context, attribution, evidence, facts) ==>
      adapter.State() == old(adapter.State())
    ensures adapter != null && Permitted(authContext, expectation, context, attribution, evidence, facts) ==>
      var base := |old(adapter.calls)|;
      var k := Invoked(adapter.script, base, 0);
      && adapter.State() == After(old(adapter.State()), adapter.script, k)
      && (r.phase == StorageCommitted <==> Reports(adapter.script, base, k - 1))
      && r.storage == if r.phase == StorageCommitted then Committed else FailureOf(ORDER[k - 1])
  {
    hide Authorize, Authorized, LifecycleClear, EvaluateAuthorized, After, Invoked;
    AuthorizedExactly(authContext, expectation, context, attribution, evidence);
    var authorization := Authorize(authContext, expectation, context, attribution, evidence);
    if authorization != AuthorizedReplacement {
      return CommitResult(RejectAuthorization, authorization, RejectAuthority, RejectPlan);
    }
    if facts.Some? { AuthorityIsDerived(authorization, facts.value); }
    var decision := if facts.None? then RejectStorage else EvaluateAuthorized(authorization, facts.value);
    if decision != AcceptSuccessor {
      return CommitResult(RejectDecision, authorization, decision, RejectPlan);
    }
    var plan := PlanFor(decision);
    if adapter == null {
      return CommitResult(RejectStorageAdapter, authorization, decision, RejectPlan);
    }
    var storage := ExecuteTransaction(plan, adapter);
    return CommitResult(if storage == Committed then StorageCommitted else StorageFailed, authorization, decision, storage);
  }
}
