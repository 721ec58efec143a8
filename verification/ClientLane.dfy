/**
  The C device's AUTH flow over its context structure. Given the same randomness it sends the
  very bytes the Rust device sends, so honest runs also cross the two lanes.
*/
module ClientLane {
  import opened Bytes
  import opened Errors
  import opened PrimeField
  import opened Suite
  import opened Payloads
  import opened Packets
  import opened AuthCrypto
  import opened AuthExchange
  import Primitives = Suite
  import TypedPayloads
  import RoleSet
  import RoleSetLanes
  import GuardedScan
  import LookupAgreement
  import ReplayCache

  /** Everything AUTH_1 draws; `wide` is the role-set prover's block. */
  datatype Draw = Draw(nonceC: seq<byte>, ephSecret: nat, delta: nat, rClient: nat, rRerand: nat, wide: seq<byte>)

  datatype Role = Role(code: nat, blind: nat, commitment: nat)

  predicate Consistent(S: Suite, role: Role)
    requires S.q > 0
  {
    role.code < 0x1_0000_0000_0000_0000 && role.commitment == Commit(S, role.code, role.blind)
  }

  predicate DrawShaped(d: Draw, n: nat) {
    |d.nonceC| == 32 && (n > 0 ==> |d.wide| == RoleSetLanes.RequiredBytes(n))
  }

  /** The same draw as the Rust device would hold it, for the prover index k. */
  function AsClientDraw(S: Suite, d: Draw, n: nat, k: nat): ClientDraw
    requires S.q > 0 && k < n && |d.wide| >= RoleSetLanes.RequiredBytes(n)
  {
    ClientDraw(d.nonceC, d.ephSecret, d.rClient, d.delta, d.rRerand, RoleSetLanes.WideCoins(S.q, d.wide, n, k))
  }

  function CredentialOf(x: nat, role: Role, serverPub: nat, allowed: seq<nat>): Credential {
    Credential(x, role.code, role.blind, role.commitment, serverPub, allowed)
  }

  /** Multiplications of AUTH_1 outside the role-set prover. */
  predicate Possible(S: Suite, x: nat, d: Draw)
    requires S.q > 0
  {
    && Mul(S.q, 1, d.ephSecret) != 0 && Mul(S.q, S.eta, d.delta) != 0
    && Mul(S.q, 1, d.rClient) != 0 && Mul(S.q, 1, x) != 0 && Mul(S.q, S.eta, d.rRerand) != 0
  }

  function BindingFor(S: Suite, x: nat, role: Role, serverPub: nat, allowed: seq<nat>, d: Draw): RoleSet.Binding
    requires S.q > 0
  {
    var ephC := Mul(S.q, 1, d.ephSecret);
    RoleSet.Binding(allowed, Add(S.q, role.commitment, Mul(S.q, S.eta, d.delta)),
                    Pid(S, Mul(S.q, 1, x), d.nonceC, ephC, serverPub), d.nonceC, ephC)
  }

  /** What building AUTH_1 reports, in the order of its checks. */
  function BuildError(S: Suite, x: nat, pinned: Option<nat>, role: Option<Role>, allowed: seq<nat>, d: Draw): Err
    requires S.q > 0
  {
    if pinned.None? then DeviceNotEnrolled
    else if role.None? then RoleNotPermitted
    else if |allowed| == 0 || |allowed| > RoleSet.MAX_ROLES then InvalidArgument
    else if !Possible(S, x, d) then InvalidPoint
    else RoleSetLanes.ProveError(S, BindingFor(S, x, role.value, pinned.value, allowed, d), d.wide, role.value.code)
  }

  /** AUTH_1 is built exactly for a pinned server, an allowed role and arithmetic without identities. */
  lemma BuildsExactly(S: Suite, x: nat, pinned: Option<nat>, role: Option<Role>, allowed: seq<nat>, d: Draw)
    requires S.q > 0
    ensures BuildError(S, x, pinned, role, allowed, d) == Ok
       <==> && pinned.Some? && role.Some? && 0 < |allowed| <= RoleSet.MAX_ROLES && role.value.code in allowed
            && Possible(S, x, d) && |d.wide| >= RoleSetLanes.RequiredBytes(|allowed|)
            && var B, k := BindingFor(S, x, role.value, pinned.value, allowed, d), RoleSet.FirstIndex(allowed, role.value.code);
               k < |allowed| && RoleSetLanes.NoIdentity(S, B, k, RoleSetLanes.WideCoins(S.q, d.wide, |allowed|, k))
  {
    hide Possible, RoleSetLanes.NoIdentity, RoleSetLanes.WideCoins, RoleSetLanes.ProveError, BindingFor;
    if pinned.Some? && role.Some? {
      var B := BindingFor(S, x, role.value, pinned.value, allowed, d);
      BindsRoles(S, x, role.value, pinned.value, allowed, d);
      RoleSetLanes.ProvesExactly(S, B, d.wide, role.value.code);
      FirstIndexInside(allowed, role.value.code);
    }
  }

  lemma BindsRoles(S: Suite, x: nat, role: Role, serverPub: nat, allowed: seq<nat>, d: Draw)
    requires S.q > 0
    ensures BindingFor(S, x, role, serverPub, allowed, d).roles == allowed
  {
  }

  lemma FirstIndexInside(roles: seq<nat>, role: nat)
    ensures RoleSet.FirstIndex(roles, role) < |roles| <==> role in roles
  {
  }

  /** The refusals that come before any proof is made. */
  lemma EarlyErrors(S: Suite, x: nat, pinned: Option<nat>, role: Option<Role>, allowed: seq<nat>, d: Draw)
    requires S.q > 0
    ensures pinned.None? ==> BuildError(S, x, pinned, role, allowed, d) == DeviceNotEnrolled
    ensures pinned.Some? && role.None? ==> BuildError(S, x, pinned, role, allowed, d) == RoleNotPermitted
    ensures pinned.Some? && role.Some? && (|allowed| == 0 || |allowed| > RoleSet.MAX_ROLES) ==>
      BuildError(S, x, pinned, role, allowed, d) == InvalidArgument
    ensures pinned.Some? && role.Some? && 0 < |allowed| <= RoleSet.MAX_ROLES && Mul(S.q, 1, d.ephSecret) == 0 ==>
      BuildError(S, x, pinned, role, allowed, d) == InvalidPoint
  {
    hide Mul, RoleSetLanes.ProveError;
  }

  class Device {
    const S: Suite
    const x: nat
    var pinned: Option<nat>
    var role: Option<Role>
    const sid: seq<byte>
    var seqNo: nat
    var nonceC: seq<byte>
    var ephSecret: nat
    var ephC: nat
    var sent: Proof
    var sessionKey: seq<byte>
    var th: seq<byte>
    var tagC: seq<byte>

    ghost predicate Valid()
      reads this
    {
      && Primitives.Valid(S)
      && (pinned.Some? ==> pinned.value < S.q)
      && (role.Some? ==> Consistent(S, role.value))
    }

    /** The transient fields are those of an AUTH_1 built with this credential and draw. */
    ghost predicate InSession(cred: Credential, d: ClientDraw)
      reads this
    {
      && Primitives.Valid(S) && Enrolled(S, cred) && Drawn(S, cred, d)
      && x == cred.x && pinned == Some(cred.serverPub) && cred.serverPub < S.q
      && nonceC == d.nonceC && ephSecret == d.ephSecret && ephC == Mul(S.q, 1, d.ephSecret) != 0
      && sent == ClientAuth1(S, cred, d).clientProof
    }

    constructor (S: Suite, x: nat, pinned: Option<nat>, role: Option<Role>, sid: seq<byte>)
      requires Primitives.Valid(S) && (pinned.Some? ==> pinned.value < S.q)
      requires role.Some? ==> Consistent(S, role.value)
      ensures Valid() && this.S == S && this.x == x && this.pinned == pinned && this.role == role && seqNo == 0
    {
      this.S, this.x, this.pinned, this.role, this.sid := S, x, pinned, role, sid;
      seqNo, nonceC, ephSecret, ephC, sent := 0, [], 0, 0, Proof(0, 0);
      sessionKey, th, tagC := [], [], [];
    }

    /**
      On success the packet carries exactly the payload of the Rust device with the same
      credential and draw, and the context is left in that session.
    */
    method BuildAuth1(allowed: seq<nat>, d: Draw) returns (err: Err, out: Option<Packet>)
      requires Valid() && DrawShaped(d, |allowed|)
      requires forall i | 0 <= i < |allowed| :: allowed[i] < 0x1_0000_0000_0000_0000
      modifies this
      ensures Valid() && pinned == old(pinned) && role == old(role)
      ensures err == BuildError(S, x, pinned, role, allowed, d)
      ensures err != Ok ==> out == None && seqNo == old(seqNo)
      ensures err == Ok ==>
        (&& seqNo == old(seqNo) + 1 && role.value.code in allowed
        && var cred, k := CredentialOf(x, role.value, pinned.value, allowed), RoleSet.FirstIndex(allowed, role.value.code);
           && k < |allowed| && InSession(cred, AsClientDraw(S, d, |allowed|, k))
           && out == Some(Packet(PKT_AUTH_1, sid, seqNo,
                TypedPayloads.EncodeAuth1(S, ClientAuth1(S, cred, AsClientDraw(S, d, |allowed|, k))))))
    {
      hide Mul, Commit, TypedPayloads.EncodeAuth1, RoleSetLanes.WideCoins, ClientAuth1, Enrolled, Drawn, BuildError,
           Consistent, Primitives.Valid;
      EarlyErrors(S, x, pinned, role, allowed, d);
      if pinned.None? { return DeviceNotEnrolled, None; }
      if role.None? { return RoleNotPermitted, None; }
      if |allowed| == 0 || |allowed| > RoleSet.MAX_ROLES { return InvalidArgument, None; }
      nonceC, ephSecret := d.nonceC, d.ephSecret;
      var e := RoleSetLanes.ScalarMult(S.q, ephSecret, 1);
      if e.None? { return InvalidPoint, None; }
      ephC := e.value;
      var a1: Option<TypedPayloads.Auth1>;
      err, a1 := ProveAll(allowed, d);
      if err != Ok { return err, None; }
      sent := a1.value.clientProof;
      seqNo := seqNo + 1;
      out := Some(Packet(PKT_AUTH_1, sid, seqNo, TypedPayloads.EncodeAuth1(S, a1.value)));
    }

    /** The three proofs over the pid of this session. */
    method ProveAll(allowed: seq<nat>, d: Draw) returns (err: Err, a1: Option<TypedPayloads.Auth1>)
      requires Valid() && DrawShaped(d, |allowed|) && 0 < |allowed| <= RoleSet.MAX_ROLES && pinned.Some? && role.Some?
      requires forall i | 0 <= i < |allowed| :: allowed[i] < 0x1_0000_0000_0000_0000
      requires ephC == Mul(S.q, 1, d.ephSecret) != 0 && nonceC == d.nonceC
      ensures err == BuildError(S, x, pinned, role, allowed, d)
      ensures err == Ok ==>
        && role.value.code in allowed
        && var cred, k := CredentialOf(x, role.value, pinned.value, allowed), RoleSet.FirstIndex(allowed, role.value.code);
           && k < |allowed| && Enrolled(S, cred) && Drawn(S, cred, AsClientDraw(S, d, |allowed|, k))
           && a1 == Some(ClientAuth1(S, cred, AsClientDraw(S, d, |allowed|, k)))
    {
      hide Mul, Add, Commit, PidInput, RoleSetLanes.ProveError, RoleSet.Prove, ClientChallenge, RerandChallenge,
           RoleSetLanes.WideCoins;
      var pid := Pid(S, Mul(S.q, 1, x), nonceC, ephC, pinned.value);
      var hd := RoleSetLanes.ScalarMult(S.q, d.delta, S.eta);
      if hd.None? { return InvalidPoint, None; }
      var cPrime, blind := Add(S.q, role.value.commitment, hd.value), Add(S.q, role.value.blind, d.delta);
      var a := RoleSetLanes.ScalarMult(S.q, d.rClient, 1);
      if a.None? { return InvalidPoint, None; }
      var pub := RoleSetLanes.ScalarMult(S.q, x, 1);
      if pub.None? { return InvalidPoint, None; }
      var client := Respond(S.q, 1, x, d.rClient, ClientChallenge(S, pub.value, a.value, pid, nonceC, ephC));
      var ra := RoleSetLanes.ScalarMult(S.q, d.rRerand, S.eta);
      if ra.None? { return InvalidPoint, None; }
      var rerand := Respond(S.q, S.eta, d.delta, d.rRerand,
        RerandChallenge(S, pid, nonceC, ephC, role.value.commitment, cPrime, ra.value));
      var branches := new RoleSet.Branch[RoleSet.MAX_ROLES](_ => RoleSet.Branch(0, 0, 0));
      var B := RoleSet.Binding(allowed, cPrime, pid, nonceC, ephC);
      var n, used: nat;
      err, n, used := RoleSetLanes.ProveC(S, branches, d.wide, B, role.value.code, blind);
      if err != Ok { return err, None; }
      ProvedMeansAllowed(S, B, d.wide, role.value.code);
      a1 := Some(TypedPayloads.Auth1(pid, client, nonceC, ephC, cPrime, rerand, branches[..n]));
    }

    /**
      AUTH_2. The context takes the new key and hash as soon as they are derived, that is also
      when only the final tag is wrong.
    */
    method HandleAuth2(payload: seq<byte>, ghost cred: Credential, ghost d: ClientDraw) returns (err: Err)
      requires Valid() && InSession(cred, d)
      modifies this`sessionKey, this`th, this`tagC
      ensures Valid() && InSession(cred, d)
      ensures err == CheckAuth2(S, cred, d, payload)
      ensures err == Ok || err == KeyConfirm ==>
        DecodeRaw2(payload).Accept? && var a2 := View2(S, DecodeRaw2(payload).value);
        && sessionKey == ClientSession(S, cred, d, a2)
        && th == KcHash(S, ClientParts(S, cred, d, a2)) && tagC == Confirm(S, sessionKey, th).tagC
      ensures err != Ok && err != KeyConfirm ==>
        sessionKey == old(sessionKey) && th == old(th) && tagC == old(tagC)
    {
      hide Prime, Mul, SessionKey, KcHash, Confirm, Pid, ReplyChecks, ClientAuth1, ClientParts, ClientSession, View2;
      var decoded := DecodeRaw2(payload);
      if decoded.Reject? { return decoded.error; }
      var r := decoded.value;
      err := CheckReply(r);
      if err != Ok { return; }
      CheckedPoints(S, cred.serverPub, r);
      var tagS := Derive(View2(S, r), cred, d);
      return if tagS != r.tag then KeyConfirm else Ok;
    }

    /** Session key, transcript hash and the device's own tag go into the context. */
    method Derive(a2: TypedPayloads.Auth2, ghost cred: Credential, ghost d: ClientDraw) returns (tagS: seq<byte>)
      requires Valid() && InSession(cred, d) && 0 < a2.ephS < S.q
      modifies this`sessionKey, this`th, this`tagC
      ensures Valid() && InSession(cred, d)
      ensures sessionKey == ClientSession(S, cred, d, a2) && th == KcHash(S, ClientParts(S, cred, d, a2))
      ensures Confirm(S, sessionKey, th) == Confirmation(tagS, tagC)
    {
      hide Prime, Mul, SessionKey, KcHash, Confirm, Pid, ClientAuth1, ClientParts, ClientSession, Enrolled, Drawn;
      DerivedFrom(S, cred, d, a2);
      var pid := Pid(S, Mul(S.q, 1, x), nonceC, ephC, pinned.value);
      GuardedScan.SharedNonZero(S.q, ephSecret, a2.ephS);
      var shared := RoleSetLanes.ScalarMult(S.q, ephSecret, a2.ephS);
      sessionKey := SessionKey(S, shared.value, nonceC, a2.nonceS, pid, ephC, a2.ephS);
      th := KcHash(S, Parts(pid, sent, nonceC, ephC, a2.serverPub, a2.serverProof, a2.nonceS, a2.ephS));
      var tags := Confirm(S, sessionKey, th);
      tagS, tagC := tags.tagS, tags.tagC;
    }

    /** The checks on a decoded AUTH_2 that need no key. */
    method CheckReply(r: Raw2) returns (err: Err)
      requires Valid() && pinned.Some?
      ensures err == ReplyChecks(S, pinned.value, r)
    {
      hide Mul, ServerChallenge, GuardedScan.ChecksC, Prime;
      var pub, ephS, a := S.decode(r.serverPub), S.decode(r.ephS), S.decode(r.a);
      if pub.None? { return InvalidPoint; }
      if pub.value == 0 { return IdentityPoint; }
      if ephS.None? { return InvalidPoint; }
      if ephS.value == 0 { return IdentityPoint; }
      if r.serverPub != S.encode(pinned.value) { return PeerKeyMismatch; }
      if a.None? { return ProofVerify; }
      var proof := Proof(a.value, FromLE(r.s) % S.q);
      var ok := GuardedScan.CheckEquationC(S, 1, pub.value, ServerChallenge(S, pub.value, a.value, r.nonceS, ephS.value), proof);
      return if ok then Ok else ProofVerify;
    }

    /** AUTH_3 carries the device's finished tag; nothing here asks whether AUTH_2 was accepted. */
    method BuildAuth3() returns (out: Packet)
      modifies this`seqNo
      ensures seqNo == old(seqNo) + 1 && out == Packet(PKT_AUTH_3, sid, seqNo, tagC)
    {
      seqNo := seqNo + 1;
      out := Packet(PKT_AUTH_3, sid, seqNo, tagC);
    }
  }

  /** A prover that reported success had an allowed role, at its first index. */
  lemma ProvedMeansAllowed(S: Suite, B: RoleSet.Binding, wide: seq<byte>, role: nat)
    requires S.q > 0 && RoleSetLanes.ProveError(S, B, wide, role) == Ok
    ensures role in B.roles && RoleSet.FirstIndex(B.roles, role) < |B.roles|
  {
  }

  // ---- AUTH_2 as the C device reads it ----

  datatype Raw2 = Raw2(serverPub: seq<byte>, a: seq<byte>, s: seq<byte>, nonceS: seq<byte>, ephS: seq<byte>, tag: seq<byte>)

  function DecodeRaw2(b: seq<byte>): (r: Outcome<Raw2>)
    ensures r.Reject? ==> r.error == PayloadTooShort || r.error == MalformedPacket
  {
    if |b| < 192 then Reject(PayloadTooShort)
    else if |b| > 192 then Reject(MalformedPacket)
    else Accept(Raw2(b[..32], b[32..64], b[64..96], b[96..128], b[128..160], b[160..]))
  }

  function View2(S: Suite, r: Raw2): TypedPayloads.Auth2
    requires S.q > 0
  {
    TypedPayloads.Auth2(GuardedScan.Known(S.decode(r.serverPub)), Proof(GuardedScan.Known(S.decode(r.a)), FromLE(r.s) % S.q),
                        r.nonceS, GuardedScan.Known(S.decode(r.ephS)), r.tag)
  }

  function ReplyChecks(S: Suite, pinned: nat, r: Raw2): (e: Err)
    requires S.q > 0
    ensures e != KeyConfirm
  {
    var pub, ephS := S.decode(r.serverPub), S.decode(r.ephS);
    if pub.None? then InvalidPoint
    else if pub.value == 0 then IdentityPoint
    else if ephS.None? then InvalidPoint
    else if ephS.value == 0 then IdentityPoint
    else if r.serverPub != S.encode(pinned) then PeerKeyMismatch
    else if S.decode(r.a).None? || !ServerOk(S, View2(S, r)) then ProofVerify
    else Ok
  }

  lemma CheckedPoints(S: Suite, pinned: nat, r: Raw2)
    requires Valid(S) && ReplyChecks(S, pinned, r) == Ok
    ensures 0 < View2(S, r).ephS < S.q
  {
    hide ServerOk, Prime;
  }

  /** The inputs of the two derivations, field by field. */
  lemma DerivedFrom(S: Suite, cred: Credential, d: ClientDraw, a2: TypedPayloads.Auth2)
    requires Valid(S) && Enrolled(S, cred) && Drawn(S, cred, d)
    ensures var ephC, pid := Mul(S.q, 1, d.ephSecret), ClientPid(S, cred, d);
            && ClientSession(S, cred, d, a2) == SessionKey(S, Mul(S.q, a2.ephS, d.ephSecret), d.nonceC, a2.nonceS, pid, ephC, a2.ephS)
            && ClientParts(S, cred, d, a2) == Parts(pid, ClientAuth1(S, cred, d).clientProof, d.nonceC, ephC,
                                                    a2.serverPub, a2.serverProof, a2.nonceS, a2.ephS)
  {
    hide Mul, SessionKey, Pid, RoleSet.Prove, ProveClient, ProveRerand;
  }

  function CheckAuth2(S: Suite, cred: Credential, d: ClientDraw, b: seq<byte>): Err
    requires Valid(S) && Enrolled(S, cred) && Drawn(S, cred, d)
  {
    match DecodeRaw2(b)
    case Reject(e) => e
    case Accept(r) =>
      var e, a2 := ReplyChecks(S, cred.serverPub, r), View2(S, r);
      if e != Ok then e
      else if Confirm(S, ClientSession(S, cred, d, a2), KcHash(S, ClientParts(S, cred, d, a2))).tagS != r.tag then KeyConfirm
      else Ok
  }

  predicate ServerOk(S: Suite, a2: TypedPayloads.Auth2)
    requires S.q > 0
  {
    GuardedScan.ChecksC(S, 1, a2.serverPub, ServerChallenge(S, a2.serverPub, a2.serverProof.a, a2.nonceS, a2.ephS), a2.serverProof)
  }

  /** The response and the challenge of the server's proof are nonzero. */
  predicate ServerNonZero(S: Suite, a2: TypedPayloads.Auth2)
    requires S.q > 0
  {
    a2.serverProof.s != 0 && ServerChallenge(S, a2.serverPub, a2.serverProof.a, a2.nonceS, a2.ephS) != 0
  }

  lemma Auth2ReadsBack(S: Suite, m: TypedPayloads.Auth2)
    requires Valid(S) && TypedPayloads.Sendable2(S, m)
    ensures var r := DecodeRaw2(TypedPayloads.EncodeAuth2(S, m));
            && r.Accept? && View2(S, r.value) == m
            && r.value.serverPub == S.encode(m.serverPub) && r.value.ephS == S.encode(m.ephS)
            && r.value.a == S.encode(m.serverProof.a) && r.value.tag == m.tagS
  {
    hide TypedPayloads.ScalarBytes, Prime, FromLE;
    var sBytes := TypedPayloads.ScalarBytes(m.serverProof.s);
    LookupAgreement.ScalarReadsBack(S, m.serverProof.s);
    SixFields(S.encode(m.serverPub), S.encode(m.serverProof.a), sBytes, m.nonceS, S.encode(m.ephS), m.tagS);
  }

  lemma SixFields(a: seq<byte>, b: seq<byte>, c: seq<byte>, d: seq<byte>, e: seq<byte>, f: seq<byte>)
    requires |a| == |b| == |c| == |d| == |e| == |f| == 32
    ensures DecodeRaw2(a + ((b + c) + (d + (e + f)))) == Accept(Raw2(a, b, c, d, e, f))
  {
    var all := a + ((b + c) + (d + (e + f)));
    assert all[..32] == a && all[32..64] == b && all[64..96] == c;
    assert all[96..128] == d && all[128..160] == e && all[160..] == f;
  }

  /**
    On an AUTH_2 the Rust device can decode, the C device succeeds exactly when the Rust one
    does and the server's response and challenge are nonzero.
  */
  lemma DevicesAgree(S: Suite, cred: Credential, d: ClientDraw, payload: seq<byte>)
    requires Valid(S) && Enrolled(S, cred) && Drawn(S, cred, d) && TypedPayloads.DecodeAuth2(S, payload).Accept?
    ensures CheckAuth2(S, cred, d, payload) == Ok
       <==> ClientFinish(S, cred, d, payload).Accept? && ServerNonZero(S, TypedPayloads.DecodeAuth2(S, payload).value)
  {
    hide TypedPayloads.DecodeAuth2, TypedPayloads.EncodeAuth2, DecodeRaw2, View2, Confirm, ClientSession, KcHash, ClientParts,
         ServerChallenge, Mul, Add, Prime;
    var a2 := TypedPayloads.DecodeAuth2(S, payload).value;
    TypedPayloads.DecodeAuth2Exact(S, payload, a2);
    Auth2ReadsBack(S, a2);
  }

  // ---- Honest runs across the lanes ----

  /**
    The C server accepts the honest device, as that device, exactly when its arithmetic can be
    carried out, provided no other scan has inserted the key on the way.
  */
  lemma HonestScan(S: Suite, server: Server, cred: Credential, d: ClientDraw, draw: ServerDraw,
                   visits: seq<GuardedScan.Visit>, i: nat, w: seq<ReplayCache.Key>)
    requires Honest(S, server, cred, d, draw, LookupAgreement.Devices(visits), i, w) && |cred.allowed| <= RoleSet.MAX_ROLES
    requires LookupAgreement.PidsDistinct(S, server, LookupAgreement.Devices(visits), ClientAuth1(S, cred, d))
    requires forall j | 0 <= j <= i :: KeyOf(S, ClientAuth1(S, cred, d)) !in visits[j].w
    ensures GuardedScan.Scan(S, server, visits, TypedPayloads.EncodeAuth1(S, ClientAuth1(S, cred, d)), draw, UnknownDevice) == (Ok, i)
       <==> LookupAgreement.NoIdentityPath(S, server, visits[i].d, ClientAuth1(S, cred, d))
  {
    hide TypedPayloads.DecodeAuth1, TypedPayloads.EncodeAuth1, ClientAuth1, GuardedScan.Scan, LookupAgreement.NoIdentityPath,
         Authenticate, KeyOf, LookupAgreement.PidsDistinct, FindDevice, Mul, Enrolled, Drawn;
    var m, reg := ClientAuth1(S, cred, d), LookupAgreement.Devices(visits);
    var payload := TypedPayloads.EncodeAuth1(S, m);
    ClientMessageSendable(S, server, cred, d, draw, reg, i, w);
    ServerFindsDevice(S, server, cred, d, draw, reg, i, w);
    BranchPerRole(S, cred, d);
    LookupAgreement.LookupsAgree(S, server, visits, draw, payload, i);
    FoundAt(S, server, cred, d, draw, reg, i, w);
  }

  lemma FoundAt(S: Suite, server: Server, cred: Credential, d: ClientDraw, draw: ServerDraw,
                reg: seq<AuthExchange.Device>, i: nat, w: seq<ReplayCache.Key>)
    requires Honest(S, server, cred, d, draw, reg, i, w)
    ensures FindDevice(S, ServerPub(S, server), reg, ClientAuth1(S, cred, d)) == i
    ensures GuardedScan.ReplyPossible(S, server, draw)
  {
    hide Mul, PidInput, RoleSet.Prove, ProveClient, ProveRerand;
    var m := ClientAuth1(S, cred, d);
    assert MatchesPid(S, ServerPub(S, server), reg[i], m);
  }

  /**
    A C device against a Rust server: the server accepts its AUTH_1; the device accepts the
    AUTH_2 if and only if the server's response and challenge are nonzero; both sides then hold
    the same session key and transcript hash, and the server accepts the device's AUTH_3.
  */
  lemma HonestDeviceC(S: Suite, server: Server, cred: Credential, d: ClientDraw, draw: ServerDraw,
                      reg: seq<AuthExchange.Device>, i: nat, w: seq<ReplayCache.Key>, cap: nat, sid: seq<byte>)
    requires Honest(S, server, cred, d, draw, reg, i, w)
    ensures var m := ClientAuth1(S, cred, d);
            var a2 := ReplyTo(S, server, draw, m);
            var (r, _) := HandleAuth1(S, server, reg, w, cap, draw, sid, 1, TypedPayloads.EncodeAuth1(S, m));
            && r.Accept? && r.value.deviceId == reg[i].id
            && (CheckAuth2(S, cred, d, r.value.response.payload) == Ok <==> ServerNonZero(S, a2))
            && ClientSession(S, cred, d, a2) == ServerSession(S, server, draw, m)
            && KcHash(S, ClientParts(S, cred, d, a2)) == KcHash(S, ServerParts(S, server, draw, m))
            && var tag := Confirm(S, ClientSession(S, cred, d, a2), KcHash(S, ClientParts(S, cred, d, a2))).tagC;
               HandleAuth3(r.value, sid, 2, tag) == Accept(Packet(PKT_AUTH_ACK, sid, 2, [1]))
  {
    hide TypedPayloads.DecodeAuth2, TypedPayloads.EncodeAuth2, TypedPayloads.EncodeAuth1, ClientAuth1, HandleAuth1, CheckAuth2,
         ClientFinish, ServerParts, ClientParts, Mul, KeyOf, ServerSession, ClientSession, KcHash, Confirm, ServerNonZero;
    var m := ClientAuth1(S, cred, d);
    ServerAccepts(S, server, cred, d, draw, reg, i, w, cap, sid, 1);
    ClientAccepts(S, server, cred, d, draw);
    ReplySendable(S, server, draw, m);
    SidesAgree(S, server, cred, d, draw);
    ConfirmLength(S, server, draw, m);
    DevicesAgree(S, cred, d, TypedPayloads.EncodeAuth2(S, ReplyTo(S, server, draw, m)));
  }
}
