/**
  The C lane finds the device behind an AUTH_1 by trying every entry's proofs, the Rust lane by
  recomputing pids. On messages both lanes decode they select the same device. Also: what the
  atomic guard gives when the calls of several scans interleave.
*/
module LookupAgreement {
  import opened Bytes
  import opened Errors
  import opened PrimeField
  import opened Suite
  import opened Payloads
  import opened AuthCrypto
  import opened ReplayCache
  import opened AuthExchange
  import opened GuardedScan
  import TypedPayloads
  import RoleSet
  import RoleSetLanes

  // ---- The C view of a message Rust accepts ----

  lemma ScalarReadsBack(S: Suite, s: nat)
    requires Valid(S) && s < S.q
    ensures ScalarOf(S, TypedPayloads.ScalarBytes(s)) == s
  {
    hide Pow256, LE, FromLE, Prime;
    LERoundTrip(s, 32);
  }

  lemma BranchReadsBack(S: Suite, b: RoleSet.Branch)
    requires Valid(S) && TypedPayloads.WireBranch(S, b)
    ensures ViewBranch(S, TypedPayloads.RawOfBranch(S, b)) == BranchC(Some(b.a), b.c, b.s)
  {
    hide ScalarOf, TypedPayloads.ScalarBytes;
    ScalarReadsBack(S, b.c);
    ScalarReadsBack(S, b.s);
  }

  lemma MessageReadsBack(S: Suite, m: TypedPayloads.Auth1)
    requires Valid(S) && TypedPayloads.Sendable(S, m)
    ensures AllPoints(ViewC(S, TypedPayloads.RawOf(S, m))) && Filled(ViewC(S, TypedPayloads.RawOf(S, m))) == m
  {
    hide ScalarOf, TypedPayloads.ScalarBytes, ViewBranch, TypedPayloads.RawOfBranch;
    ScalarReadsBack(S, m.clientProof.s);
    ScalarReadsBack(S, m.rerandProof.s);
    forall i | 0 <= i < |m.branches|
      ensures ViewC(S, TypedPayloads.RawOf(S, m)).branches[i] == BranchC(Some(m.branches[i].a), m.branches[i].c, m.branches[i].s)
    {
      BranchReadsBack(S, m.branches[i]);
    }
    assert Filled(ViewC(S, TypedPayloads.RawOf(S, m))).branches == m.branches;
  }

  // ---- The two verdicts on one entry ----

  /** No multiplication of the C verifiers meets the identity, and the role list fits C. */
  predicate NoIdentityPath(S: Suite, server: Server, d: Device, m: TypedPayloads.Auth1)
    requires S.q > 0
  {
    && d.pub != 0 && m.clientProof.s != 0
    && ClientChallenge(S, d.pub, m.clientProof.a, m.pid, m.nonceC, m.ephC) != 0
    && Sub(S.q, m.cPrime, d.commitment) != 0 && m.rerandProof.s != 0
    && RerandChallenge(S, m.pid, m.nonceC, m.ephC, d.commitment, m.cPrime, m.rerandProof.a) != 0
    && 0 < |server.allowed| <= RoleSet.MAX_ROLES
    && (forall i | 0 <= i < |server.allowed| :: server.allowed[i] != 0)
    && (forall i | 0 <= i < |m.branches| && i < |server.allowed| ::
          RoleSetLanes.NoIdentityBranch(S, BindingOf(server, m), m.branches, i))
  }

  /** Every point the proofs of the message need can be read. */
  predicate ProofPoints(v: MsgC) {
    v.clientA.Some? && v.rerandA.Some? && forall i | 0 <= i < |v.branches| :: v.branches[i].a.Some?
  }

  /**
    For any raw message, C accepts an entry exactly when all its points can be read, the pid and
    the three proofs are right by the Rust verdict, and no multiplication fails.
  */
  lemma EntryOkExactly(S: Suite, server: Server, d: Device, v: MsgC)
    requires S.q > 0
    ensures EntryError(S, server, d, v) == Ok
       <==> && ProofPoints(v) && MatchesPid(S, ServerPub(S, server), d, Filled(v))
            && CheckProofs(S, server, d, Filled(v)) == Ok && NoIdentityPath(S, server, d, Filled(v))
  {
    hide Mul, Add, Sub, ClientChallenge, RerandChallenge, MatchesPid, Filled, RoleSet.Accepts, RoleSetLanes.NoIdentityBranch;
    FilledLength(v);
    AcceptsLengths(S, BindingOf(server, Filled(v)), Filled(v).branches);
  }

  /**
    The guarded call accepts a payload for an entry exactly when it decodes, its key is not in
    the window, its points are points and its ephemeral key is not the identity, the device's
    pid and proofs are right, and no multiplication on either path gives the identity.
  */
  lemma GuardAcceptsExactly(S: Suite, server: Server, d: Device, payload: seq<byte>, w: seq<Key>, draw: ServerDraw)
    requires Valid(S)
    ensures GuardError(S, server, d, payload, w, draw) == Ok
       <==> && DecodeRaw(payload, MAX_BRANCHES_C).Accept? && RawKey(S, DecodeRaw(payload, MAX_BRANCHES_C).value) !in w
            && var v := ViewC(S, DecodeRaw(payload, MAX_BRANCHES_C).value);
               && AllPoints(v) && Filled(v).ephC != 0
               && MatchesPid(S, ServerPub(S, server), d, Filled(v)) && CheckProofs(S, server, d, Filled(v)) == Ok
               && NoIdentityPath(S, server, d, Filled(v)) && ReplyPossible(S, server, draw)
  {
    hide DecodeRaw, ViewC, Filled, EntryError, MatchesPid, CheckProofs, NoIdentityPath, ReplyPossible, RawKey, Valid;
    if DecodeRaw(payload, MAX_BRANCHES_C).Accept? {
      var v := ViewC(S, DecodeRaw(payload, MAX_BRANCHES_C).value);
      EntryOkExactly(S, server, d, v);
      if v.ephC.Some? && v.cPrime.Some? { FilledEph(v); }
    }
  }

  lemma FilledEph(v: MsgC)
    requires v.ephC.Some?
    ensures Filled(v).ephC == v.ephC.value
  {
  }

  /** C accepts an entry exactly when Rust does and no multiplication fails. */
  lemma EntryVerdicts(S: Suite, server: Server, d: Device, m: TypedPayloads.Auth1)
    requires Valid(S) && TypedPayloads.Sendable(S, m)
    ensures EntryError(S, server, d, ViewC(S, TypedPayloads.RawOf(S, m))) == Ok
       <==> && MatchesPid(S, ServerPub(S, server), d, m) && CheckProofs(S, server, d, m) == Ok
            && NoIdentityPath(S, server, d, m)
  {
    hide EntryError, MatchesPid, CheckProofs, NoIdentityPath, ViewC, TypedPayloads.RawOf, Filled, Valid;
    MessageReadsBack(S, m);
    EntryOkExactly(S, server, d, ViewC(S, TypedPayloads.RawOf(S, m)));
  }

  lemma FilledLength(v: MsgC)
    ensures |Filled(v).branches| == |v.branches|
  {
  }

  lemma AcceptsLengths(S: Suite, B: RoleSet.Binding, bs: seq<RoleSet.Branch>)
    requires S.q > 0
    ensures RoleSet.Accepts(S, B, bs) ==> |bs| == |B.roles|
  {
  }

  // ---- The two lookups ----

  /** Distinct keys, and a pid hash that does not collide on them. */
  predicate PidsDistinct(S: Suite, server: Server, reg: seq<Device>, m: TypedPayloads.Auth1)
    requires S.q > 0
  {
    forall i, j | 0 <= i < j < |reg| ::
      Pid(S, reg[i].pub, m.nonceC, m.ephC, ServerPub(S, server)) != Pid(S, reg[j].pub, m.nonceC, m.ephC, ServerPub(S, server))
  }

  /** Unless the hash collides on two of the inputs, distinct device keys have distinct pids. */
  lemma DistinctKeysDistinctPids(S: Suite, server: Server, reg: seq<Device>, m: TypedPayloads.Auth1)
    requires Valid(S) && forall i | 0 <= i < |reg| :: reg[i].pub < S.q
    requires forall i, j | 0 <= i < j < |reg| :: reg[i].pub != reg[j].pub
    requires forall i, j | 0 <= i < |reg| && 0 <= j < |reg| ::
      var x, y := PidInput(S, reg[i].pub, m.nonceC, m.ephC, ServerPub(S, server)), PidInput(S, reg[j].pub, m.nonceC, m.ephC, ServerPub(S, server));
      S.sha256(x) == S.sha256(y) ==> x == y
    ensures PidsDistinct(S, server, reg, m)
  {
    hide PidInput, Mul;
    forall i, j | 0 <= i < j < |reg|
      ensures Pid(S, reg[i].pub, m.nonceC, m.ephC, ServerPub(S, server)) != Pid(S, reg[j].pub, m.nonceC, m.ephC, ServerPub(S, server))
    {
      if PidInput(S, reg[i].pub, m.nonceC, m.ephC, ServerPub(S, server)) == PidInput(S, reg[j].pub, m.nonceC, m.ephC, ServerPub(S, server)) {
        PidBindsKey(S, reg[i].pub, reg[j].pub, m.nonceC, m.ephC, ServerPub(S, server));
      }
    }
  }

  lemma KeysAgree(S: Suite, payload: seq<byte>, m: TypedPayloads.Auth1)
    requires Valid(S) && DecodeRaw(payload, MAX_BRANCHES_C) == Accept(TypedPayloads.RawOf(S, m))
    ensures PayloadKey(S, payload) == KeyOf(S, m)
  {
    hide DecodeRaw;
  }

  lemma CommonAgrees(S: Suite, payload: seq<byte>, m: TypedPayloads.Auth1, w: seq<Key>)
    requires Valid(S) && TypedPayloads.Sendable(S, m)
    requires DecodeRaw(payload, MAX_BRANCHES_C) == Accept(TypedPayloads.RawOf(S, m))
    ensures CommonError(S, payload, w) == if KeyOf(S, m) in w then ReplayDetected else Ok
  {
    hide DecodeRaw, ViewC, TypedPayloads.RawOf, Filled, RawKey, KeyOf;
    KeysAgree(S, payload, m);
    MessageReadsBack(S, m);
    FilledPoints(ViewC(S, TypedPayloads.RawOf(S, m)));
  }

  lemma FilledPoints(v: MsgC)
    requires AllPoints(v)
    ensures v.ephC == Some(Filled(v).ephC) && v.cPrime == Some(Filled(v).cPrime)
  {
  }

  /** The registry a scan has seen, entry by entry. */
  function Devices(visits: seq<Visit>): (r: seq<Device>)
    ensures |r| == |visits|
  {
    seq(|visits|, j requires 0 <= j < |visits| => visits[j].d)
  }

  /** Rust authenticates entry i, the key was never cached on the way, and C can compute all of it. */
  predicate BothSelect(S: Suite, server: Server, visits: seq<Visit>, draw: ServerDraw, m: TypedPayloads.Auth1, i: nat)
    requires S.q > 0
  {
    && i == FindDevice(S, ServerPub(S, server), Devices(visits), m) < |visits|
    && (forall j | 0 <= j <= i :: KeyOf(S, m) !in visits[j].w)
    && Authenticate(S, server, Devices(visits), m) == Accept(visits[i].d)
    && NoIdentityPath(S, server, visits[i].d, m) && ReplyPossible(S, server, draw)
  }

  /**
    The C scan accepts entry i exactly when Rust authenticates that same entry, the key was in
    none of the windows up to it, and no C multiplication on the verification or reply path
    gives the identity.
  */
  lemma LookupsAgree(S: Suite, server: Server, visits: seq<Visit>, draw: ServerDraw, payload: seq<byte>, i: nat)
    requires Valid(S) && TypedPayloads.DecodeAuth1(S, payload).Accept?
    requires var m := TypedPayloads.DecodeAuth1(S, payload).value;
             |m.branches| <= MAX_BRANCHES_C && PidsDistinct(S, server, Devices(visits), m)
    ensures Scan(S, server, visits, payload, draw, UnknownDevice) == (Ok, i)
       <==> BothSelect(S, server, visits, draw, TypedPayloads.DecodeAuth1(S, payload).value, i)
  {
    hide TypedPayloads.DecodeAuth1, Scan, CommonError, EntryError, CheckProofs, NoIdentityPath, ReplyPossible, KeyOf,
         DecodeRaw, ViewC, TypedPayloads.RawOf, Mul, PidInput, TypedPayloads.Sendable, Passes, MatchesPid;
    var m := TypedPayloads.DecodeAuth1(S, payload).value;
    TypedPayloads.DecodeAuth1Exact(S, payload, m);
    TypedPayloads.LanesReadAlike(S, payload);
    forall j | 0 <= j < |visits|
      ensures CommonError(S, payload, visits[j].w) == if KeyOf(S, m) in visits[j].w then ReplayDetected else Ok
      ensures Passes(S, server, visits[j].d, payload)
         <==> MatchesPid(S, ServerPub(S, server), visits[j].d, m) && CheckProofs(S, server, visits[j].d, m) == Ok
              && NoIdentityPath(S, server, visits[j].d, m)
    {
      CommonAgrees(S, payload, m, visits[j].w);
      PassesExactly(S, server, visits[j].d, payload, m);
    }
    ScanExact(S, server, visits, payload, draw, UnknownDevice, i);
    var reg := Devices(visits);
    OnlyMatch(S, server, reg, m, i);
    assert forall j | 0 <= j < |visits| :: reg[j] == visits[j].d;
    if i < |visits| && MatchesPid(S, ServerPub(S, server), visits[i].d, m) {
      assert forall j | 0 <= j < i :: !MatchesPid(S, ServerPub(S, server), visits[j].d, m);
    }
  }

  lemma PassesExactly(S: Suite, server: Server, d: Device, payload: seq<byte>, m: TypedPayloads.Auth1)
    requires Valid(S) && TypedPayloads.Sendable(S, m)
    requires DecodeRaw(payload, MAX_BRANCHES_C) == Accept(TypedPayloads.RawOf(S, m))
    ensures Passes(S, server, d, payload)
       <==> MatchesPid(S, ServerPub(S, server), d, m) && CheckProofs(S, server, d, m) == Ok && NoIdentityPath(S, server, d, m)
  {
    hide DecodeRaw, EntryError, ViewC, TypedPayloads.RawOf, MatchesPid, CheckProofs, NoIdentityPath, TypedPayloads.Sendable;
    EntryVerdicts(S, server, d, m);
  }

  /** With distinct pids, an entry that matches is the first that does. */
  lemma OnlyMatch(S: Suite, server: Server, reg: seq<Device>, m: TypedPayloads.Auth1, i: nat)
    requires S.q > 0 && PidsDistinct(S, server, reg, m)
    ensures i < |reg| && MatchesPid(S, ServerPub(S, server), reg[i], m)
       <==> i == FindDevice(S, ServerPub(S, server), reg, m) < |reg|
    ensures i < |reg| && MatchesPid(S, ServerPub(S, server), reg[i], m) ==>
            forall j | 0 <= j < |reg| && j != i :: !MatchesPid(S, ServerPub(S, server), reg[j], m)
  {
    hide PidInput, Mul;
  }

  // ---- Interleaved guarded calls ----

  /** One atomic guarded call, whichever scan it belongs to. */
  datatype GuardCall = GuardCall(server: Server, d: Device, payload: seq<byte>, draw: ServerDraw)

  function AfterCall(S: Suite, w: seq<Key>, cap: nat, c: GuardCall): seq<Key>
    requires S.q > 0
  {
    if GuardError(S, c.server, c.d, c.payload, w, c.draw) == Ok then Push(w, cap, PayloadKey(S, c.payload)).0 else w
  }

  /** The keys of the calls that are accepted, in order. */
  function AcceptedKeys(S: Suite, w: seq<Key>, cap: nat, calls: seq<GuardCall>): seq<Key>
    requires S.q > 0
    decreases calls
  {
    if calls == [] then []
    else
      var c := calls[0];
      (if GuardError(S, c.server, c.d, c.payload, w, c.draw) == Ok then [PayloadKey(S, c.payload)] else [])
      + AcceptedKeys(S, AfterCall(S, w, cap, c), cap, calls[1..])
  }

  lemma AcceptedIsFresh(S: Suite, w: seq<Key>, cap: nat, c: GuardCall)
    requires S.q > 0 && GuardError(S, c.server, c.d, c.payload, w, c.draw) == Ok
    ensures PayloadKey(S, c.payload) !in w && Push(w, cap, PayloadKey(S, c.payload)).1
  {
    hide EntryError, RawKey;
  }

  /** Every key a guard accepts is one the cache accepts: the guard's own insert never fails. */
  lemma {:induction false} GuardsInsert(S: Suite, w: seq<Key>, cap: nat, calls: seq<GuardCall>)
    requires S.q > 0
    ensures Accepted(w, cap, AcceptedKeys(S, w, cap, calls)) == AcceptedKeys(S, w, cap, calls)
    decreases calls
  {
    hide GuardError, PayloadKey, Push;
    if calls != [] {
      var c, v := calls[0], AfterCall(S, w, cap, calls[0]);
      GuardsInsert(S, v, cap, calls[1..]);
      if GuardError(S, c.server, c.d, c.payload, w, c.draw) == Ok {
        AcceptedIsFresh(S, w, cap, c);
        var ks := AcceptedKeys(S, v, cap, calls[1..]);
        assert ([PayloadKey(S, c.payload)] + ks)[1..] == ks;
      } else {
        assert [] + AcceptedKeys(S, v, cap, calls[1..]) == AcceptedKeys(S, v, cap, calls[1..]);
      }
    }
  }

  /**
    However the guarded calls of concurrent deliveries interleave, a key is accepted a second
    time only after at least N other acceptances.
  */
  lemma NoDoubleAcceptance(S: Suite, cap: nat, calls: seq<GuardCall>, i: nat, j: nat)
    requires S.q > 0 && cap > 0
    requires i < j < |AcceptedKeys(S, [], cap, calls)| && AcceptedKeys(S, [], cap, calls)[i] == AcceptedKeys(S, [], cap, calls)[j]
    ensures j - i - 1 >= cap
  {
    GuardsInsert(S, [], cap, calls);
    ReacceptanceNeedsCapOthers(cap, AcceptedKeys(S, [], cap, calls), i, j);
  }
}
