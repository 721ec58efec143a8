/**
  Who may replace a credential lineage: two possession proofs, the binding to the authenticated
  session, the iot-core context with its attribution record, and the lifecycle facts.
*/
module LineageAuthorization {
  import opened Bytes
  import AuthV3
  import IotCore

  datatype Authorization =
    | AuthorizedReplacement
    | RejectCurrentCredentialControl
    | RejectSuccessorKeyControl
    | RejectSessionAuthentication
    | RejectSessionAuthorization
    | RejectContextBinding
    | RejectPredecessorBinding
    | RejectPrivilegeExpansion

  // ---- Possession ----

  datatype PossessionProof = PossessionProof(valid: bool, sessionId: seq<byte>, subject: seq<byte>)

  datatype PossessionDecision = CurrentRefused | SuccessorRefused | Verified

  function ClassifyPossession(current: Option<PossessionProof>, successor: Option<PossessionProof>,
                              sessionId: seq<byte>, predecessorRef: seq<byte>, successorRef: seq<byte>): PossessionDecision {
    if current.None? then CurrentRefused
    else if !current.value.valid || current.value.sessionId != sessionId || current.value.subject != predecessorRef then CurrentRefused
    else if successor.None? then SuccessorRefused
    else if !successor.value.valid || successor.value.sessionId != sessionId || successor.value.subject != successorRef then SuccessorRefused
    else Verified
  }

  // ---- Session binding ----

  datatype Expectation = Expectation(
    completed: bool, version: byte, suiteId: nat, profileId: nat, sessionId: seq<byte>, authzHash: seq<byte>, channelHash: seq<byte>)

  datatype Binding =
    Bound | RejectCompletion | RejectVersion | RejectSuite | RejectProfile | RejectSessionId | RejectAuthzContext | RejectChannelBinding

  function ClassifyBinding(context: Option<AuthV3.Context>, expectation: Option<Expectation>): Binding {
    if context.None? || expectation.None? then RejectCompletion
    else
      var c, e := context.value, expectation.value;
      if !e.completed then RejectCompletion
      else if c.protocolVersion != e.version then RejectVersion
      else if c.suiteId != e.suiteId then RejectSuite
      else if c.profileId != e.profileId then RejectProfile
      else if c.sessionId != e.sessionId then RejectSessionId
      else if c.authzHash != e.authzHash then RejectAuthzContext
      else if c.channelHash != e.channelHash then RejectChannelBinding
      else Bound
  }

  // ---- Authorization facts ----

  datatype Facts = Facts(
    currentControl: bool, successorControl: bool, authenticated: bool, authorized: bool, contextBound: bool,
    predecessorCurrent: bool, scopeWithin: bool)

  function ClassifyFacts(f: Facts): Authorization {
    if !f.currentControl then RejectCurrentCredentialControl
    else if !f.successorControl then RejectSuccessorKeyControl
    else if !f.authenticated then RejectSessionAuthentication
    else if !f.authorized then RejectSessionAuthorization
    else if !f.contextBound then RejectContextBinding
    else if !f.predecessorCurrent then RejectPredecessorBinding
    else if !f.scopeWithin then RejectPrivilegeExpansion
    else AuthorizedReplacement
  }

  datatype Evidence = Evidence(
    current: PossessionProof, successor: PossessionProof, successorRef: seq<byte>, expectedPeer: seq<byte>,
    predecessorRef: seq<byte>, requestedScope: bv64)

  /** The requested bits are some of the granted ones, and there are any. */
  predicate ScopeWithin(requested: bv64, granted: bv64) {
    requested != 0 && requested & !granted == 0
  }

  predicate ContextShapeValid(c: IotCore.Authz) {
    && !IotCore.AllZero(c.holder) && !IotCore.AllZero(c.audience) && c.rolePolicy != 0
    && c.scope == IotCore.SCOPE_SECURE_ASSOCIATION
    && c.generation != 0 && c.policyEpoch != 0 && c.revocationEpoch != 0
  }

  function FromIotCore(context: Option<IotCore.Authz>, attribution: Option<IotCore.Attribution>, e: Evidence, bound: bool): Authorization {
    var blank := Facts(true, true, bound, false, false, false, false);
    if context.None? || attribution.None? then ClassifyFacts(blank)
    else if !ContextShapeValid(context.value) then ClassifyFacts(blank)
    else
      var c, a := context.value, attribution.value;
      var match' := a.authz.holder == c.holder && a.authz.audience == c.audience && a.authz.rolePolicy == c.rolePolicy
        && a.authz.scope == c.scope && a.authz.generation == c.generation && a.authz.policyEpoch == c.policyEpoch
        && a.authz.revocationEpoch == c.revocationEpoch;
      ClassifyFacts(blank.(
        authorized := match',
        contextBound := match' && a.peer == e.expectedPeer,
        predecessorCurrent := a.reference == e.predecessorRef && a.authz.generation == c.generation,
        scopeWithin := ScopeWithin(e.requestedScope, c.scope as bv64)))
  }

  /** The chain: possession first, then the session, then context and attribution. */
  function Authorize(authContext: Option<AuthV3.Context>, expectation: Option<Expectation>, context: Option<IotCore.Authz>,
                     attribution: Option<IotCore.Attribution>, evidence: Option<Evidence>): Authorization
  {
    if evidence.None? then RejectCurrentCredentialControl
    else if expectation.None? then RejectSessionAuthentication
    else
      var e := evidence.value;
      match ClassifyPossession(Some(e.current), Some(e.successor), expectation.value.sessionId, e.predecessorRef, e.successorRef)
      case CurrentRefused => RejectCurrentCredentialControl
      case SuccessorRefused => RejectSuccessorKeyControl
      case Verified => FromIotCore(context, attribution, e, ClassifyBinding(authContext, expectation).Bound?)
  }

  // ---- The decision on the lifecycle facts ----

  datatype Trigger = Lifecycle | Restart | TransportChange | Auth

  datatype LifecycleFacts = LifecycleFacts(
    trigger: Trigger, authority: bool, predecessor: bool, successor: bool, context: bool, freshness: bool, replayFree: bool,
    concurrentFree: bool, rollbackClear: bool, storageSafe: bool, dependentSafe: bool)

  datatype Decision =
    | AcceptSuccessor | RejectAuthority | RejectPredecessor | RejectSuccessor | RejectContext | RejectFreshness
    | RejectReplay | RejectConcurrent | RejectRollback | RejectStorage

  function Evaluate(f: LifecycleFacts): Decision {
    if f.trigger != Lifecycle || !f.authority then RejectAuthority
    else if !f.predecessor then RejectPredecessor
    else if !f.successor then RejectSuccessor
    else if !f.context || !f.dependentSafe then RejectContext
    else if !f.freshness then RejectFreshness
    else if !f.replayFree then RejectReplay
    else if !f.concurrentFree then RejectConcurrent
    else if !f.rollbackClear then RejectRollback
    else if !f.storageSafe then RejectStorage
    else AcceptSuccessor
  }

  /** The caller's authority bit is overwritten by the authorization actually derived. */
  function EvaluateAuthorized(authorization: Authorization, f: LifecycleFacts): Decision {
    Evaluate(f.(authority := authorization.AuthorizedReplacement?))
  }

  // ---- What acceptance amounts to ----

  /** A proof of possession made in the session whose id is given, for the given subject. */
  predicate ProvesIn(p: PossessionProof, sessionId: seq<byte>, subject: seq<byte>) {
    p.valid && p.sessionId == sessionId && p.subject == subject
  }

  /** Every gate, stated outright. */
  predicate Authorized(authContext: Option<AuthV3.Context>, expectation: Option<Expectation>, context: Option<IotCore.Authz>,
                       attribution: Option<IotCore.Attribution>, evidence: Option<Evidence>)
  {
    && authContext.Some? && expectation.Some? && context.Some? && attribution.Some? && evidence.Some?
    && var (s, x, c, a, e) := (authContext.value, expectation.value, context.value, attribution.value, evidence.value);
       // both possession proofs were made in the authenticated session
       && ProvesIn(e.current, s.sessionId, e.predecessorRef) && ProvesIn(e.successor, s.sessionId, e.successorRef)
       && x == Expectation(true, s.protocolVersion, s.suiteId, s.profileId, s.sessionId, s.authzHash, s.channelHash)
       // the attribution record is for this very context, peer and predecessor
       && IotCore.Validate(c) == None && a == IotCore.Attribution(e.predecessorRef, e.expectedPeer, c)
       // nothing beyond the one scope there is was asked for
       && e.requestedScope == 1
  }

  lemma OnlyScope(requested: bv64)
    ensures ScopeWithin(requested, 1) <==> requested == 1
  {
  }

  lemma ShapeIsValidity(c: IotCore.Authz)
    ensures ContextShapeValid(c) <==> IotCore.Validate(c) == None
  {
  }

  /** The chain of classifiers authorizes exactly when every gate is met. */
  lemma AuthorizedExactly(authContext: Option<AuthV3.Context>, expectation: Option<Expectation>, context: Option<IotCore.Authz>,
                          attribution: Option<IotCore.Attribution>, evidence: Option<Evidence>)
    ensures Authorize(authContext, expectation, context, attribution, evidence).AuthorizedReplacement?
       <==> Authorized(authContext, expectation, context, attribution, evidence)
  {
    hide IotCore.AllZero, ScopeWithin, ContextShapeValid, IotCore.Validate;
    if evidence.Some? { OnlyScope(evidence.value.requestedScope); }
    if context.Some? {
      ShapeIsValidity(context.value);
      ScopeIsOne(context.value);
    }
  }

  lemma ScopeIsOne(c: IotCore.Authz)
    ensures ContextShapeValid(c) ==> c.scope == 1 && c.scope as bv64 == 1
  {
  }

  // ---- Which refusal ----

  /** The gates in the order in which they are reported, each stated by itself. */
  function Gates(authContext: Option<AuthV3.Context>, x: Expectation, context: Option<IotCore.Authz>,
                 attribution: Option<IotCore.Attribution>, e: Evidence): (r: seq<(bool, Authorization)>)
    ensures |r| == 7
  {
    var present := context.Some? && attribution.Some? && IotCore.Validate(context.value) == None;
    [ (ProvesIn(e.current, x.sessionId, e.predecessorRef), RejectCurrentCredentialControl),
      (ProvesIn(e.successor, x.sessionId, e.successorRef), RejectSuccessorKeyControl),
      (authContext.Some? && x == Expectation(true, authContext.value.protocolVersion, authContext.value.suiteId,
         authContext.value.profileId, authContext.value.sessionId, authContext.value.authzHash, authContext.value.channelHash),
       RejectSessionAuthentication),
      (present && attribution.value.authz == context.value, RejectSessionAuthorization),
      (present && attribution.value.peer == e.expectedPeer, RejectContextBinding),
      (present && attribution.value.reference == e.predecessorRef, RejectPredecessorBinding),
      (e.requestedScope == 1, RejectPrivilegeExpansion) ]
  }

  /** The refusal of the first gate that is closed. */
  function FirstClosed(gates: seq<(bool, Authorization)>): Authorization {
    if gates == [] then AuthorizedReplacement
    else if gates[0].0 then FirstClosed(gates[1..])
    else gates[0].1
  }

  lemma FirstClosedOfSeven(g: seq<(bool, Authorization)>)
    requires |g| == 7
    ensures FirstClosed(g) == if !g[0].0 then g[0].1 else if !g[1].0 then g[1].1 else if !g[2].0 then g[2].1
      else if !g[3].0 then g[3].1 else if !g[4].0 then g[4].1 else if !g[5].0 then g[5].1
      else if !g[6].0 then g[6].1 else AuthorizedReplacement
  {
    assert g[1..][1..] == g[2..] && g[2..][1..] == g[3..] && g[3..][1..] == g[4..];
    assert g[4..][1..] == g[5..] && g[5..][1..] == g[6..] && g[6..][1..] == [];
    assert FirstClosed(g[6..]) == if g[6].0 then AuthorizedReplacement else g[6].1;
    assert FirstClosed(g[5..]) == if g[5].0 then FirstClosed(g[6..]) else g[5].1;
    assert FirstClosed(g[4..]) == if g[4].0 then FirstClosed(g[5..]) else g[4].1;
    assert FirstClosed(g[3..]) == if g[3].0 then FirstClosed(g[4..]) else g[3].1;
    assert FirstClosed(g[2..]) == if g[2].0 then FirstClosed(g[3..]) else g[2].1;
    assert FirstClosed(g[1..]) == if g[1].0 then FirstClosed(g[2..]) else g[1].1;
  }

  /** The reported refusal is always that of the first closed gate; missing inputs come before. */
  lemma RefusalIsFirstClosed(authContext: Option<AuthV3.Context>, expectation: Option<Expectation>, context: Option<IotCore.Authz>,
                             attribution: Option<IotCore.Attribution>, evidence: Option<Evidence>)
    ensures Authorize(authContext, expectation, context, attribution, evidence)
         == if evidence.None? then RejectCurrentCredentialControl
            else if expectation.None? then RejectSessionAuthentication
            else FirstClosed(Gates(authContext, expectation.value, context, attribution, evidence.value))
  {
    hide IotCore.AllZero, ScopeWithin, ContextShapeValid, IotCore.Validate, FirstClosed;
    if evidence.Some? && expectation.Some? {
      FirstClosedOfSeven(Gates(authContext, expectation.value, context, attribution, evidence.value));
      OnlyScope(evidence.value.requestedScope);
      if context.Some? {
        ShapeIsValidity(context.value);
        ScopeIsOne(context.value);
      }
    }
  }

  /** The caller's facts without the authority bit. */
  predicate LifecycleClear(f: LifecycleFacts) {
    && f.trigger == Lifecycle && f.predecessor && f.successor && f.context && f.dependentSafe && f.freshness
    && f.replayFree && f.concurrentFree && f.rollbackClear && f.storageSafe
  }

  /** A forged authority bit neither helps nor hurts. */
  lemma AuthorityIsDerived(authorization: Authorization, f: LifecycleFacts)
    ensures EvaluateAuthorized(authorization, f).AcceptSuccessor? <==> authorization.AuthorizedReplacement? && LifecycleClear(f)
    ensures forall bit: bool :: EvaluateAuthorized(authorization, f.(authority := bit)) == EvaluateAuthorized(authorization, f)
  {
  }

  /** The lifecycle gates in the order in which they are reported. */
  function LifecycleGates(f: LifecycleFacts): (r: seq<(bool, Decision)>)
    ensures |r| == 9
  {
    [ (f.trigger == Lifecycle && f.authority, RejectAuthority), (f.predecessor, RejectPredecessor), (f.successor, RejectSuccessor),
      (f.context && f.dependentSafe, RejectContext), (f.freshness, RejectFreshness), (f.replayFree, RejectReplay),
      (f.concurrentFree, RejectConcurrent), (f.rollbackClear, RejectRollback), (f.storageSafe, RejectStorage) ]
  }

  /** The decision is the refusal of the first closed gate, or acceptance when all are open. */
  lemma DecisionIsFirstClosed(f: LifecycleFacts) returns (i: nat)
    ensures i <= 9 && forall j | 0 <= j < i :: LifecycleGates(f)[j].0
    ensures i < 9 ==> !LifecycleGates(f)[i].0 && Evaluate(f) == LifecycleGates(f)[i].1
    ensures i == 9 ==> Evaluate(f) == AcceptSuccessor
  {
    hide Evaluate, LifecycleGates;
    var g := LifecycleGates(f);
    i := 0;
    while i < 9 && g[i].0
      invariant i <= 9 && forall j | 0 <= j < i :: g[j].0
    {
      i := i + 1;
    }
    assert forall j | 0 <= j < i :: g[j].0;
    OpenUpTo(f, i);
  }

  lemma OpenUpTo(f: LifecycleFacts, i: nat)
    requires i <= 9 && (forall j | 0 <= j < i :: LifecycleGates(f)[j].0) && (i < 9 ==> !LifecycleGates(f)[i].0)
    ensures Evaluate(f) == if i == 9 then AcceptSuccessor else LifecycleGates(f)[i].1
  {
    var g := LifecycleGates(f);
    assert (i > 0 ==> g[0].0) && (i > 1 ==> g[1].0) && (i > 2 ==> g[2].0) && (i > 3 ==> g[3].0) && (i > 4 ==> g[4].0);
    assert (i > 5 ==> g[5].0) && (i > 6 ==> g[6].0) && (i > 7 ==> g[7].0) && (i > 8 ==> g[8].0);
  }

  /** What the session binding compares, in order. */
  function BindingGates(c: AuthV3.Context, e: Expectation): (r: seq<(bool, Binding)>)
    ensures |r| == 7
  {
    [ (e.completed, RejectCompletion), (c.protocolVersion == e.version, RejectVersion), (c.suiteId == e.suiteId, RejectSuite),
      (c.profileId == e.profileId, RejectProfile), (c.sessionId == e.sessionId, RejectSessionId),
      (c.authzHash == e.authzHash, RejectAuthzContext), (c.channelHash == e.channelHash, RejectChannelBinding) ]
  }

  /** The binding is refused for the first mismatch, and bound when there is none. */
  lemma BindingIsFirstMismatch(c: AuthV3.Context, e: Expectation, i: nat)
    requires i <= 7 && (forall j | 0 <= j < i :: BindingGates(c, e)[j].0) && (i < 7 ==> !BindingGates(c, e)[i].0)
    ensures ClassifyBinding(Some(c), Some(e)) == if i == 7 then Bound else BindingGates(c, e)[i].1
  {
    var g := BindingGates(c, e);
    assert (i > 0 ==> g[0].0) && (i > 1 ==> g[1].0) && (i > 2 ==> g[2].0) && (i > 3 ==> g[3].0) && (i > 4 ==> g[4].0);
    assert (i > 5 ==> g[5].0) && (i > 6 ==> g[6].0);
  }
}
