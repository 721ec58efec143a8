/**
  The AUTH exchange of the Rust lane: the client flow, the server's two handlers, and what an
  honest run of them ends with.
*/
module AuthExchange {
  import opened Bytes
  import opened Errors
  import opened Packets
  import opened PrimeField
  import opened Suite
  import opened Payloads
  import opened TypedPayloads
  import opened AuthCrypto
  import opened ReplayCache
  import RoleSet

  datatype Device = Device(id: seq<byte>, pub: nat, commitment: nat)

  /** What the server draws once a message has verified. */
  datatype ServerDraw = ServerDraw(nonceS: seq<byte>, ephSecret: nat, r: nat)

  datatype PendingAuth = PendingAuth(
    sid: seq<byte>, pid: seq<byte>, deviceId: seq<byte>, expectedTagC: seq<byte>, response: Packet)

  datatype Server = Server(sk: nat, allowed: seq<nat>)

  function ServerPub(S: Suite, server: Server): (p: nat)
    requires S.q > 0
    ensures p < S.q
  {
    Mul(S.q, 1, server.sk)
  }

  function BindingOf(server: Server, m: Auth1): RoleSet.Binding {
    RoleSet.Binding(server.allowed, m.cPrime, m.pid, m.nonceC, m.ephC)
  }

  // ---- The server, step by step ----

  predicate MatchesPid(S: Suite, serverPub: nat, d: Device, m: Auth1) {
    Pid(S, d.pub, m.nonceC, m.ephC, serverPub) == m.pid
  }

  /** The first record, in iteration order, whose key explains the pid. */
  function FindDevice(S: Suite, serverPub: nat, reg: seq<Device>, m: Auth1): (i: nat)
    ensures i <= |reg|
    ensures i < |reg| ==> MatchesPid(S, serverPub, reg[i], m)
    ensures forall j | 0 <= j < i :: !MatchesPid(S, serverPub, reg[j], m)
  {
    if reg == [] then 0
    else if MatchesPid(S, serverPub, reg[0], m) then 0
    else 1 + FindDevice(S, serverPub, reg[1..], m)
  }

  function CheckProofs(S: Suite, server: Server, d: Device, m: Auth1): Err
    requires S.q > 0
  {
    if !VerifyClient(S, d.pub, m.pid, m.nonceC, m.ephC, m.clientProof) then ProofVerify
    else if !VerifyRerand(S, d.commitment, m.cPrime, m.pid, m.nonceC, m.ephC, m.rerandProof) then ProofVerify
    else if !RoleSet.Accepts(S, BindingOf(server, m), m.branches) then RoleNotPermitted
    else Ok
  }

  /** Which device a decoded AUTH_1 authenticates, if any. */
  function Authenticate(S: Suite, server: Server, reg: seq<Device>, m: Auth1): (r: Outcome<Device>)
    requires S.q > 0
  {
    var i := FindDevice(S, ServerPub(S, server), reg, m);
    if i == |reg| then Reject(UnknownDevice)
    else
      var err := CheckProofs(S, server, reg[i], m);
      if err == Ok then Accept(reg[i]) else Reject(err)
  }

  function ServerParts(S: Suite, server: Server, draw: ServerDraw, m: Auth1): Parts
    requires S.q > 0
  {
    var ephS := Mul(S.q, 1, draw.ephSecret);
    Parts(m.pid, m.clientProof, m.nonceC, m.ephC, ServerPub(S, server),
          ProveServer(S, server.sk, draw.r, draw.nonceS, ephS), draw.nonceS, ephS)
  }

  function ServerSession(S: Suite, server: Server, draw: ServerDraw, m: Auth1): seq<byte>
    requires Valid(S)
  {
    SessionKey(S, Mul(S.q, m.ephC, draw.ephSecret), m.nonceC, draw.nonceS, m.pid, m.ephC, Mul(S.q, 1, draw.ephSecret))
  }

  function ServerConfirm(S: Suite, server: Server, draw: ServerDraw, m: Auth1): Confirmation
    requires Valid(S)
  {
    Confirm(S, ServerSession(S, server, draw, m), KcHash(S, ServerParts(S, server, draw, m)))
  }

  function ReplyTo(S: Suite, server: Server, draw: ServerDraw, m: Auth1): Auth2
    requires Valid(S)
  {
    var p := ServerParts(S, server, draw, m);
    Auth2(p.serverPub, p.sp, p.nonceS, p.ephS, ServerConfirm(S, server, draw, m).tagS)
  }

  function Pending(S: Suite, server: Server, draw: ServerDraw, sid: seq<byte>, seqNo: nat, m: Auth1, d: Device): PendingAuth
    requires Valid(S)
  {
    PendingAuth(sid, m.pid, d.id, ServerConfirm(S, server, draw, m).tagC,
                Packet(PKT_AUTH_2, sid, seqNo, EncodeAuth2(S, ReplyTo(S, server, draw, m))))
  }

  function KeyOf(S: Suite, m: Auth1): seq<byte> {
    ReplayKey(S, m.pid, m.nonceC, m.ephC)
  }

  /** The reply, and the replay window afterwards: a key enters it only with an acceptance. */
  function HandleAuth1(S: Suite, server: Server, reg: seq<Device>, w: seq<Key>, cap: nat, draw: ServerDraw,
                       sid: seq<byte>, seqNo: nat, payload: seq<byte>): (r: (Outcome<PendingAuth>, seq<Key>))
    requires Valid(S)
  {
    match DecodeAuth1(S, payload)
    case Reject(e) => (Reject(e), w)
    case Accept(m) =>
      if KeyOf(S, m) in w then (Reject(ReplayDetected), w)
      else
        match Authenticate(S, server, reg, m)
        case Reject(e) => (Reject(e), w)
        case Accept(d) => (Accept(Pending(S, server, draw, sid, seqNo, m, d)), Push(w, cap, KeyOf(S, m)).0)
  }

  /** Record i is the first that explains the pid. */
  predicate FirstMatch(S: Suite, server: Server, reg: seq<Device>, m: Auth1, i: nat)
    requires S.q > 0
  {
    && i < |reg| && MatchesPid(S, ServerPub(S, server), reg[i], m)
    && forall j | 0 <= j < i :: !MatchesPid(S, ServerPub(S, server), reg[j], m)
  }

  /** The three proofs of a message against one record. */
  datatype Proofs = Proofs(client: bool, rerand: bool, role: bool)

  function ProofsOf(S: Suite, server: Server, d: Device, m: Auth1): Proofs
    requires S.q > 0
  {
    Proofs(VerifyClient(S, d.pub, m.pid, m.nonceC, m.ephC, m.clientProof),
           VerifyRerand(S, d.commitment, m.cPrime, m.pid, m.nonceC, m.ephC, m.rerandProof),
           RoleSet.Accepts(S, BindingOf(server, m), m.branches))
  }

  /**
    Whom an AUTH_1 authenticates: nobody known when no record explains its pid, and otherwise
    the first record that does, if all three proofs verify; the first that fails decides.
  */
  lemma Auth1Verdict(S: Suite, server: Server, reg: seq<Device>, m: Auth1, i: nat)
    requires S.q > 0
    ensures Authenticate(S, server, reg, m) == Reject(UnknownDevice)
       <==> forall j | 0 <= j < |reg| :: !MatchesPid(S, ServerPub(S, server), reg[j], m)
    ensures FirstMatch(S, server, reg, m, i) ==>
      var p := ProofsOf(S, server, reg[i], m);
      Authenticate(S, server, reg, m)
      == if p.client && p.rerand && p.role then Accept(reg[i])
         else if p.client && p.rerand then Reject(RoleNotPermitted)
         else Reject(ProofVerify)
  {
    hide MatchesPid, VerifyClient, VerifyRerand, RoleSet.Accepts, ServerPub;
    var k := FindDevice(S, ServerPub(S, server), reg, m);
    if k < |reg| { assert MatchesPid(S, ServerPub(S, server), reg[k], m); }
    if FirstMatch(S, server, reg, m, i) { assert i == k; }
  }

  /** The answer to a decoded AUTH_1 with a new key is that verdict; only acceptance touches the window. */
  lemma Auth1Answer(S: Suite, server: Server, reg: seq<Device>, w: seq<Key>, cap: nat, draw: ServerDraw,
                    sid: seq<byte>, seqNo: nat, payload: seq<byte>)
    requires Valid(S) && DecodeAuth1(S, payload).Accept? && KeyOf(S, DecodeAuth1(S, payload).value) !in w
    ensures var m := DecodeAuth1(S, payload).value;
            var v, r := Authenticate(S, server, reg, m), HandleAuth1(S, server, reg, w, cap, draw, sid, seqNo, payload);
            && (v.Reject? ==> r == (Reject(v.error), w))
            && (v.Accept? ==> r.0.Accept? && r.0.value.deviceId == v.value.id && r.1 == Push(w, cap, KeyOf(S, m)).0)
  {
    hide DecodeAuth1, Authenticate, KeyOf, ServerConfirm, ReplyTo, EncodeAuth2, Push, Prime;
  }

  function HandleAuth3(pending: PendingAuth, sid: seq<byte>, seqNo: nat, payload: seq<byte>): Outcome<Packet> {
    var tag :- DecodeAuth3(payload);
    if tag != pending.expectedTagC then Reject(KeyConfirm) else Accept(Packet(PKT_AUTH_ACK, sid, seqNo, [1]))
  }

  /** The imperative handler: a lookup loop over the registry, then the checks, then the insert. */
  method ServeAuth1(S: Suite, server: Server, reg: seq<Device>, replay: SetCache, draw: ServerDraw,
                    sid: seq<byte>, seqNo: nat, payload: seq<byte>) returns (r: Outcome<PendingAuth>)
    requires Valid(S) && replay.Valid()
    modifies replay`members, replay`order
    ensures replay.Valid()
    ensures (r, replay.order) == HandleAuth1(S, server, reg, old(replay.order), replay.cap, draw, sid, seqNo, payload)
  {
    hide CheckProofs, Pending, KeyOf, MatchesPid, DecodeAuth1, Push;
    var decoded := DecodeAuth1(S, payload);
    if decoded.Reject? { return Reject(decoded.error); }
    var m := decoded.value;
    var rkey := KeyOf(S, m);
    var seen := replay.Contains(rkey);
    if seen { return Reject(ReplayDetected); }
    var found := LookUp(S, ServerPub(S, server), reg, m);
    if found == |reg| { return Reject(UnknownDevice); }
    var err := CheckProofs(S, server, reg[found], m);
    if err != Ok { return Reject(err); }
    r := Accept(Pending(S, server, draw, sid, seqNo, m, reg[found]));
    var inserted := replay.Insert(rkey);
  }

  method LookUp(S: Suite, serverPub: nat, reg: seq<Device>, m: Auth1) returns (found: nat)
    ensures found == FindDevice(S, serverPub, reg, m)
  {
    hide MatchesPid;
    found := 0;
    while found < |reg|
      invariant found <= |reg|
      invariant FindDevice(S, serverPub, reg, m) == found + FindDevice(S, serverPub, reg[found..], m)
    {
      if MatchesPid(S, serverPub, reg[found], m) { return; }
      assert reg[found..][1..] == reg[found + 1..];
      found := found + 1;
    }
  }

  // ---- The client ----

  datatype Credential = Credential(x: nat, role: nat, blind: nat, commitment: nat, serverPub: nat, allowed: seq<nat>)

  datatype ClientDraw = ClientDraw(nonceC: seq<byte>, ephSecret: nat, rClient: nat, delta: nat, rRerand: nat, coins: RoleSet.Coins)

  /** The stored credential is consistent and its role is one of the allowed ones. */
  ghost predicate Enrolled(S: Suite, cred: Credential) {
    && S.q > 0 && cred.commitment == Commit(S, cred.role, cred.blind)
    && cred.role in cred.allowed
    && (forall i | 0 <= i < |cred.allowed| :: cred.allowed[i] < 0x1_0000_0000_0000_0000)
  }

  predicate Drawn(S: Suite, cred: Credential, d: ClientDraw) {
    && |d.nonceC| == 32 && RoleSet.CoinsShaped(S.q, |cred.allowed|, d.coins)
  }

  function ClientCPrime(S: Suite, cred: Credential, d: ClientDraw): (c: nat)
    requires S.q > 0
    ensures c < S.q
  {
    Add(S.q, cred.commitment, Mul(S.q, S.eta, d.delta))
  }

  function ClientPid(S: Suite, cred: Credential, d: ClientDraw): seq<byte>
    requires S.q > 0
  {
    Pid(S, Mul(S.q, 1, cred.x), d.nonceC, Mul(S.q, 1, d.ephSecret), cred.serverPub)
  }

  function ClientBinding(S: Suite, cred: Credential, d: ClientDraw): RoleSet.Binding
    requires S.q > 0
  {
    RoleSet.Binding(cred.allowed, ClientCPrime(S, cred, d), ClientPid(S, cred, d), d.nonceC, Mul(S.q, 1, d.ephSecret))
  }

  function ClientAuth1(S: Suite, cred: Credential, d: ClientDraw): Auth1
    requires Enrolled(S, cred) && Drawn(S, cred, d)
  {
    var ephC, pid, cPrime := Mul(S.q, 1, d.ephSecret), ClientPid(S, cred, d), ClientCPrime(S, cred, d);
    Auth1(pid, ProveClient(S, cred.x, d.rClient, pid, d.nonceC, ephC), d.nonceC, ephC, cPrime,
          ProveRerand(S, cred.commitment, cPrime, d.delta, d.rRerand, pid, d.nonceC, ephC),
          RoleSet.Prove(S, ClientBinding(S, cred, d), RoleSet.FirstIndex(cred.allowed, cred.role),
                        Add(S.q, cred.blind, d.delta), d.coins))
  }

  /** The client refuses to start with an identity device key. */
  function ClientStart(S: Suite, cred: Credential, d: ClientDraw): Outcome<Auth1>
    requires Enrolled(S, cred) && Drawn(S, cred, d)
  {
    if Mul(S.q, 1, cred.x) == 0 then Reject(IdentityPoint) else Accept(ClientAuth1(S, cred, d))
  }

  /** The AUTH_1 datagram, unless the client refuses to start or its payload is over the limit. */
  function ClientSend(S: Suite, cred: Credential, d: ClientDraw, sid: seq<byte>): Option<seq<byte>>
    requires Enrolled(S, cred) && Drawn(S, cred, d)
  {
    match ClientStart(S, cred, d)
    case Reject(_) => None
    case Accept(m) => Build(Packet(PKT_AUTH_1, sid, 0, EncodeAuth1(S, m)))
  }

  datatype ClientEnd = ClientEnd(sessionKey: seq<byte>, th: seq<byte>, tagC: seq<byte>)

  function ClientParts(S: Suite, cred: Credential, d: ClientDraw, a2: Auth2): Parts
    requires Enrolled(S, cred) && Drawn(S, cred, d)
  {
    var m := ClientAuth1(S, cred, d);
    Parts(m.pid, m.clientProof, m.nonceC, m.ephC, a2.serverPub, a2.serverProof, a2.nonceS, a2.ephS)
  }

  function ClientSession(S: Suite, cred: Credential, d: ClientDraw, a2: Auth2): seq<byte>
    requires Valid(S)
  {
    SessionKey(S, Mul(S.q, a2.ephS, d.ephSecret), d.nonceC, a2.nonceS, ClientPid(S, cred, d), Mul(S.q, 1, d.ephSecret), a2.ephS)
  }

  /** The client's reaction to AUTH_2. The pin is compared on compressed keys. */
  function ClientFinish(S: Suite, cred: Credential, d: ClientDraw, payload: seq<byte>): Outcome<ClientEnd>
    requires Valid(S) && Enrolled(S, cred) && Drawn(S, cred, d)
  {
    var a2 :- DecodeAuth2(S, payload);
    if S.encode(a2.serverPub) != S.encode(cred.serverPub) then Reject(PeerKeyMismatch)
    else if !VerifyServer(S, a2.serverPub, a2.nonceS, a2.ephS, a2.serverProof) then Reject(ProofVerify)
    else
      var key, th := ClientSession(S, cred, d, a2), KcHash(S, ClientParts(S, cred, d, a2));
      var tags := Confirm(S, key, th);
      if tags.tagS != a2.tagS then Reject(KeyConfirm) else Accept(ClientEnd(key, th, tags.tagC))
  }

  // ---- The honest run ----

  /** Neither the device key nor any point the client or the server sends is the identity. */
  ghost predicate NoIdentitySent(S: Suite, server: Server, cred: Credential, d: ClientDraw, draw: ServerDraw)
    requires Enrolled(S, cred) && Drawn(S, cred, d)
  {
    var m := ClientAuth1(S, cred, d);
    && Mul(S.q, 1, cred.x) != 0
    && m.clientProof.a != 0 && m.rerandProof.a != 0 && m.ephC != 0 && m.cPrime != 0
    && (forall i | 0 <= i < |m.branches| :: m.branches[i].a != 0)
    && ServerPub(S, server) != 0 && Mul(S.q, 1, draw.ephSecret) != 0 && Mul(S.q, 1, draw.r) != 0
  }

  /** Everything the honest run assumes about the two sides and the stored state. */
  ghost predicate Honest(S: Suite, server: Server, cred: Credential, d: ClientDraw, draw: ServerDraw,
                         reg: seq<Device>, i: nat, w: seq<Key>)
  {
    && Valid(S) && Enrolled(S, cred) && Drawn(S, cred, d) && |draw.nonceS| == 32
    && |cred.allowed| < 0x1_0000 && server.allowed == cred.allowed && cred.serverPub == ServerPub(S, server)
    && i < |reg| && reg[i].pub == Mul(S.q, 1, cred.x) && reg[i].commitment == cred.commitment
    // no pid collision with another enrolled device
    && (forall j | 0 <= j < |reg| && j != i ::
          Pid(S, reg[j].pub, d.nonceC, Mul(S.q, 1, d.ephSecret), cred.serverPub) != ClientPid(S, cred, d))
    && KeyOf(S, ClientAuth1(S, cred, d)) !in w
    && NoIdentitySent(S, server, cred, d, draw)
  }

  lemma ClientMessageSendable(S: Suite, server: Server, cred: Credential, d: ClientDraw, draw: ServerDraw,
                              reg: seq<Device>, i: nat, w: seq<Key>)
    requires Honest(S, server, cred, d, draw, reg, i, w)
    ensures Sendable(S, ClientAuth1(S, cred, d))
    ensures DecodeAuth1(S, EncodeAuth1(S, ClientAuth1(S, cred, d))) == Accept(ClientAuth1(S, cred, d))
  {
    hide Mul, Add, Sub, EncodeAuth1, DecodeAuth1, RoleSet.MasterChallenge, PidInput, RoleSet.Statement;
    var m := ClientAuth1(S, cred, d);
    forall j | 0 <= j < |m.branches| ensures WireBranch(S, m.branches[j]) {
      BranchResidues(S, ClientBinding(S, cred, d), RoleSet.FirstIndex(cred.allowed, cred.role),
                     Add(S.q, cred.blind, d.delta), d.coins, j);
    }
    DecodeAuth1Exact(S, EncodeAuth1(S, m), m);
  }

  lemma BranchResidues(S: Suite, B: RoleSet.Binding, k: nat, blind: nat, coins: RoleSet.Coins, i: nat)
    requires S.q > 0 && k < |B.roles| && i < |B.roles| && RoleSet.CoinsShaped(S.q, |B.roles|, coins)
    ensures var b := RoleSet.Prove(S, B, k, blind, coins)[i];
            b.a < S.q && b.c < S.q && b.s < S.q
  {
  }

  lemma ClientProofsVerify(S: Suite, server: Server, cred: Credential, d: ClientDraw, dev: Device)
    requires Valid(S) && Enrolled(S, cred) && Drawn(S, cred, d)
    requires server.allowed == cred.allowed
    requires dev.pub == Mul(S.q, 1, cred.x) && dev.commitment == cred.commitment
    ensures CheckProofs(S, server, dev, ClientAuth1(S, cred, d)) == Ok
  {
    hide Mul, Add, Sub, PidInput, RoleSet.MasterChallenge, RoleSet.Prove, VerifyClient, VerifyRerand, RoleSet.Accepts;
    var m := ClientAuth1(S, cred, d);
    ClientComplete(S, cred.x, d.rClient, m.pid, m.nonceC, m.ephC);
    RerandComplete(S, cred.commitment, d.delta, d.rRerand, m.pid, m.nonceC, m.ephC);
    RerandomizeKeepsRole(S, cred.role, cred.blind, d.delta);
    var B, k := ClientBinding(S, cred, d), RoleSet.FirstIndex(cred.allowed, cred.role);
    assert BindingOf(server, m) == B && B.roles[k] == cred.role;
    RoleSet.RoleSetComplete(S, B, k, Add(S.q, cred.blind, d.delta), d.coins);
  }

  /** The server picks the device whose pid it is. */
  lemma ServerFindsDevice(S: Suite, server: Server, cred: Credential, d: ClientDraw, draw: ServerDraw,
                          reg: seq<Device>, i: nat, w: seq<Key>)
    requires Honest(S, server, cred, d, draw, reg, i, w)
    ensures Authenticate(S, server, reg, ClientAuth1(S, cred, d)) == Accept(reg[i])
  {
    hide CheckProofs, Mul, Add, Sub, PidInput, RoleSet.Prove, ProveClient, ProveRerand;
    var m := ClientAuth1(S, cred, d);
    ClientProofsVerify(S, server, cred, d, reg[i]);
    var k := FindDevice(S, ServerPub(S, server), reg, m);
    assert MatchesPid(S, ServerPub(S, server), reg[i], m);
    assert forall j | 0 <= j < |reg| && j != i :: !MatchesPid(S, ServerPub(S, server), reg[j], m);
    assert k == i;
  }

  /** The two sides reach the same session key, transcript hash and tags. */
  lemma SidesAgree(S: Suite, server: Server, cred: Credential, d: ClientDraw, draw: ServerDraw)
    requires Valid(S) && Enrolled(S, cred) && Drawn(S, cred, d) && cred.serverPub == ServerPub(S, server)
    ensures var m := ClientAuth1(S, cred, d);
            var a2 := ReplyTo(S, server, draw, m);
            && ClientSession(S, cred, d, a2) == ServerSession(S, server, draw, m)
            && ClientParts(S, cred, d, a2) == ServerParts(S, server, draw, m)
  {
    hide Mul, Add, PidInput, SessionKey, Confirm, KcHash, RoleSet.Prove, ProveClient, ProveRerand, ProveServer;
    SharedAgrees(S.q, d.ephSecret, draw.ephSecret);
  }

  lemma ReplySendable(S: Suite, server: Server, draw: ServerDraw, m: Auth1)
    requires Valid(S) && |draw.nonceS| == 32
    requires ServerPub(S, server) != 0 && Mul(S.q, 1, draw.ephSecret) != 0 && Mul(S.q, 1, draw.r) != 0
    ensures DecodeAuth2(S, EncodeAuth2(S, ReplyTo(S, server, draw, m))) == Accept(ReplyTo(S, server, draw, m))
  {
    hide DecodeAuth2, EncodeAuth2, Mul, Confirm, SessionKey;
    DecodeAuth2Exact(S, EncodeAuth2(S, ReplyTo(S, server, draw, m)), ReplyTo(S, server, draw, m));
  }

  lemma ClientAccepts(S: Suite, server: Server, cred: Credential, d: ClientDraw, draw: ServerDraw)
    requires Valid(S) && Enrolled(S, cred) && Drawn(S, cred, d) && cred.serverPub == ServerPub(S, server)
    requires |draw.nonceS| == 32
    requires ServerPub(S, server) != 0 && Mul(S.q, 1, draw.ephSecret) != 0 && Mul(S.q, 1, draw.r) != 0
    ensures var m := ClientAuth1(S, cred, d);
            ClientFinish(S, cred, d, EncodeAuth2(S, ReplyTo(S, server, draw, m)))
            == Accept(ClientEnd(ServerSession(S, server, draw, m), KcHash(S, ServerParts(S, server, draw, m)),
                                ServerConfirm(S, server, draw, m).tagC))
  {
    hide DecodeAuth2, EncodeAuth2, ClientSession, ServerSession, ClientParts, Confirm, KcHash, VerifyServer, ProveServer, ClientAuth1, Mul;
    var m := ClientAuth1(S, cred, d);
    ReplySendable(S, server, draw, m);
    SidesAgree(S, server, cred, d, draw);
    ServerComplete(S, server.sk, draw.r, draw.nonceS, Mul(S.q, 1, draw.ephSecret));
  }

  lemma ServerAccepts(S: Suite, server: Server, cred: Credential, d: ClientDraw, draw: ServerDraw,
                      reg: seq<Device>, i: nat, w: seq<Key>, cap: nat, sid: seq<byte>, seqNo: nat)
    requires Honest(S, server, cred, d, draw, reg, i, w)
    ensures var m := ClientAuth1(S, cred, d);
            HandleAuth1(S, server, reg, w, cap, draw, sid, seqNo, EncodeAuth1(S, m))
            == (Accept(Pending(S, server, draw, sid, seqNo, m, reg[i])), Push(w, cap, KeyOf(S, m)).0)
  {
    hide DecodeAuth1, EncodeAuth1, ClientAuth1, Authenticate, Pending, Mul, KeyOf, Push;
    ClientMessageSendable(S, server, cred, d, draw, reg, i, w);
    ServerFindsDevice(S, server, cred, d, draw, reg, i, w);
  }

  /** An AUTH_1 over n roles takes 258 + 96*n bytes, so the largest list that can be sent has 18. */
  lemma Auth1Length(S: Suite, m: Auth1)
    requires Valid(S) && Sendable(S, m)
    ensures |EncodeAuth1(S, m)| == 258 + 96 * |m.branches|
    ensures |EncodeAuth1(S, m)| <= MAX_PAYLOAD <==> |m.branches| <= 18
  {
    hide EncodeBranches, RawBranches, Prime;
    ShapedRaw(S, m.branches);
    EncodeBranchesLength(RawBranches(S, m.branches));
  }

  lemma Auth2Length(S: Suite, m: Auth2)
    requires Valid(S) && Sendable2(S, m)
    ensures |EncodeAuth2(S, m)| == 192
  {
    hide Prime;
  }

  /** What the client can send: its AUTH_1, if and only if there are at most 18 allowed roles. */
  lemma ClientCanSend(S: Suite, server: Server, cred: Credential, d: ClientDraw, draw: ServerDraw,
                      reg: seq<Device>, i: nat, w: seq<Key>, sid: seq<byte>)
    requires Honest(S, server, cred, d, draw, reg, i, w) && |sid| == 16
    ensures var sent := ClientSend(S, cred, d, sid);
            && (sent.Some? <==> |cred.allowed| <= 18)
            && (sent.Some? ==> Parse(sent.value) == Payloads.Accept(Packet(PKT_AUTH_1, sid, 0, EncodeAuth1(S, ClientAuth1(S, cred, d)))))
  {
    hide ClientAuth1, EncodeAuth1, Build, Parse, Mul;
    var m := ClientAuth1(S, cred, d);
    ClientMessageSendable(S, server, cred, d, draw, reg, i, w);
    BranchPerRole(S, cred, d);
    Auth1Length(S, m);
    PacketRoundTrip(Packet(PKT_AUTH_1, sid, 0, EncodeAuth1(S, m)));
  }

  lemma BranchPerRole(S: Suite, cred: Credential, d: ClientDraw)
    requires Enrolled(S, cred) && Drawn(S, cred, d)
    ensures |ClientAuth1(S, cred, d).branches| == |cred.allowed|
  {
  }

  /** The server's answer always fits a packet. */
  lemma ReplyCanBeSent(S: Suite, server: Server, draw: ServerDraw, m: Auth1, sid: seq<byte>, seqNo: nat)
    requires Valid(S) && |draw.nonceS| == 32 && |sid| == 16 && seqNo < 0x1_0000_0000
    requires ServerPub(S, server) != 0 && Mul(S.q, 1, draw.ephSecret) != 0 && Mul(S.q, 1, draw.r) != 0
    ensures var p := Packet(PKT_AUTH_2, sid, seqNo, EncodeAuth2(S, ReplyTo(S, server, draw, m)));
            Build(p).Some? && Parse(Build(p).value) == Payloads.Accept(p)
  {
    hide EncodeAuth2, ReplyTo, DecodeAuth2, Mul, Parse;
    var a2 := ReplyTo(S, server, draw, m);
    ReplySendable(S, server, draw, m);
    DecodeAuth2Exact(S, EncodeAuth2(S, a2), a2);
    Auth2Length(S, a2);
    PacketRoundTrip(Packet(PKT_AUTH_2, sid, seqNo, EncodeAuth2(S, a2)));
  }

  /**
    The honest run. The client can send its AUTH_1 if and only if at most 18 roles are allowed.
    Then the server parses it, accepts it as the enrolled device and remembers its key; its
    answer can be sent and parses; the client accepts it; the server accepts AUTH_3; and both
    sides hold the same session key and transcript hash.
  */
  lemma HonestRun(S: Suite, server: Server, cred: Credential, d: ClientDraw, draw: ServerDraw,
                  reg: seq<Device>, i: nat, w: seq<Key>, cap: nat, sid: seq<byte>)
    requires Honest(S, server, cred, d, draw, reg, i, w) && |sid| == 16
    ensures ClientSend(S, cred, d, sid).Some? <==> |cred.allowed| <= 18
    ensures |cred.allowed| <= 18 ==>
      var m := ClientAuth1(S, cred, d);
      var p := Parse(ClientSend(S, cred, d, sid).value);
      && p.Accept? && p.value.kind == PKT_AUTH_1
      && var (r, w') := HandleAuth1(S, server, reg, w, cap, draw, p.value.sid, p.value.seqNo, p.value.payload);
         && r.Accept? && r.value.deviceId == reg[i].id && (cap > 0 ==> KeyOf(S, m) in w')
         && Build(r.value.response).Some? && Parse(Build(r.value.response).value) == Payloads.Accept(r.value.response)
         && var end := ClientFinish(S, cred, d, r.value.response.payload);
            && end.Accept?
            && end.value.sessionKey == ServerSession(S, server, draw, m)
            && end.value.th == KcHash(S, ServerParts(S, server, draw, m))
            && HandleAuth3(r.value, sid, 1, end.value.tagC) == Accept(Packet(PKT_AUTH_ACK, sid, 1, [1]))
  {
    hide DecodeAuth1, EncodeAuth1, ClientAuth1, ClientSend, ClientFinish, EncodeAuth2, ReplyTo, ServerSession, KcHash, Mul, KeyOf,
         ServerParts, HandleAuth1, ServerConfirm, Push, Build, Parse;
    var m := ClientAuth1(S, cred, d);
    ClientCanSend(S, server, cred, d, draw, reg, i, w, sid);
    ServerAccepts(S, server, cred, d, draw, reg, i, w, cap, sid, 0);
    ReplyCanBeSent(S, server, draw, m, sid, 0);
    ClientAccepts(S, server, cred, d, draw);
    ConfirmLength(S, server, draw, m);
    if cap > 0 { KeyEnters(w, cap, KeyOf(S, m)); }
  }

  lemma ConfirmLength(S: Suite, server: Server, draw: ServerDraw, m: Auth1)
    requires Valid(S)
    ensures |ServerConfirm(S, server, draw, m).tagC| == 32
  {
  }

  lemma KeyEnters(w: seq<Key>, cap: nat, key: Key)
    requires cap > 0
    ensures key in Push(w, cap, key).0
  {
    var v := Push(w, cap, key).0;
    if key !in w { assert v[|v| - 1] == key; }
  }

  /** While its key is in the window, an AUTH_1 is a replay, whatever else has changed. */
  lemma ReplayRefused(S: Suite, server: Server, reg: seq<Device>, w: seq<Key>, cap: nat, draw: ServerDraw,
                      sid: seq<byte>, seqNo: nat, payload: seq<byte>)
    requires Valid(S) && DecodeAuth1(S, payload).Accept? && KeyOf(S, DecodeAuth1(S, payload).value) in w
    ensures HandleAuth1(S, server, reg, w, cap, draw, sid, seqNo, payload) == (Reject(ReplayDetected), w)
  {
    hide DecodeAuth1, Authenticate, Pending, KeyOf;
  }

  /**
    An accepted AUTH_1 delivered again is refused as a replay for as long as fewer than N other
    keys have been accepted since, in any session, against any registry.
  */
  lemma ReplayRefusedForN(S: Suite, server: Server, reg: seq<Device>, w: seq<Key>, cap: nat, draw: ServerDraw,
                          sid: seq<byte>, seqNo: nat, payload: seq<byte>, since: seq<Key>,
                          reg2: seq<Device>, draw2: ServerDraw, sid2: seq<byte>, seqNo2: nat)
    requires Valid(S) && |w| <= cap && cap > 0
    requires HandleAuth1(S, server, reg, w, cap, draw, sid, seqNo, payload).0.Accept?
    requires |Accepted(HandleAuth1(S, server, reg, w, cap, draw, sid, seqNo, payload).1, cap, since)| < cap
    ensures var w' := After(HandleAuth1(S, server, reg, w, cap, draw, sid, seqNo, payload).1, cap, since);
            HandleAuth1(S, server, reg2, w', cap, draw2, sid2, seqNo2, payload) == (Reject(ReplayDetected), w')
  {
    hide DecodeAuth1, Authenticate, Pending, KeyOf, Push, Accepted, After;
    var key := KeyOf(S, DecodeAuth1(S, payload).value);
    StaysInWindow(w, cap, key, since);
    ReplayRefused(S, server, reg2, After(Push(w, cap, key).0, cap, since), cap, draw2, sid2, seqNo2, payload);
  }

  /**
    Key confirmation binds the run: if client and server hashed frames that do not collide
    under SHA-256 and got the same transcript hash, they agree on every negotiated value, and
    then on the session key.
  */
  lemma SameTranscriptSameKey(S: Suite, server: Server, cred: Credential, d: ClientDraw, a2: Auth2,
                              draw: ServerDraw, m: Auth1)
    requires Valid(S) && Enrolled(S, cred) && Drawn(S, cred, d) && Sendable(S, m) && Sendable2(S, a2)
    requires |draw.nonceS| == 32
    requires var cf, sf := KcFrame(S, ClientParts(S, cred, d, a2)), KcFrame(S, ServerParts(S, server, draw, m));
             S.sha256(cf) == S.sha256(sf) ==> cf == sf
    requires KcHash(S, ClientParts(S, cred, d, a2)) == KcHash(S, ServerParts(S, server, draw, m))
    ensures var mine, theirs := ClientAuth1(S, cred, d), ReplyTo(S, server, draw, m);
            && m.pid == mine.pid && m.nonceC == mine.nonceC && m.ephC == mine.ephC && m.clientProof == mine.clientProof
            && a2.serverPub == theirs.serverPub && a2.nonceS == theirs.nonceS && a2.ephS == theirs.ephS
            && a2.serverProof == theirs.serverProof
    ensures ClientSession(S, cred, d, a2) == ServerSession(S, server, draw, m)
  {
    hide KcFrame, Mul, ProveClient, ProveServer, ProveRerand, RoleSet.Prove, PidInput, SessionKey;
    KcFrameBinds(S, ClientParts(S, cred, d, a2), ServerParts(S, server, draw, m));
    SharedAgrees(S.q, d.ephSecret, draw.ephSecret);
  }
}
