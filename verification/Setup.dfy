/** Enrollment in the Rust lane: SETUP_1 opens a pending record, SETUP_3 proves the device key. */
module Setup {
  import opened Bytes
  import opened Errors
  import opened PrimeField
  import opened Transcript
  import opened Suite
  import opened Payloads
  import opened Packets
  import TypedPayloads

  /** What both setup proofs are bound to. */
  datatype Binding = Binding(
    deviceId: seq<byte>, devicePub: nat, serverPub: nat, clientNonce: seq<byte>, serverNonce: seq<byte>, challenge: seq<byte>)

  function SetupFields(S: Suite, role: string, b: Binding, a: nat): seq<Field> {
    [ Field(Ascii("role"), Ascii(role)), Field(Ascii("device_id"), b.deviceId), PointField(S, "device_pub", b.devicePub),
      PointField(S, "server_pub", b.serverPub), PointField(S, "a", a), Field(Ascii("client_nonce"), b.clientNonce),
      Field(Ascii("server_nonce"), b.serverNonce), Field(Ascii("setup_challenge"), b.challenge) ]
  }

  function ClientSetupChallenge(S: Suite, b: Binding, a: nat): (c: nat)
    requires S.q > 0
    ensures c < S.q
  {
    Challenge(S, Ascii("setup_client_schnorr_v1"), SetupFields(S, "client", b, a))
  }

  function ServerSetupChallenge(S: Suite, b: Binding, a: nat): (c: nat)
    requires S.q > 0
    ensures c < S.q
  {
    Challenge(S, Ascii("setup_server_schnorr_v1"), SetupFields(S, "server", b, a))
  }

  function ProveSetupClient(S: Suite, x: nat, r: nat, b: Binding): Proof
    requires S.q > 0
  {
    Respond(S.q, 1, x, r, ClientSetupChallenge(S, b, Mul(S.q, 1, r)))
  }

  predicate VerifySetupClient(S: Suite, b: Binding, p: Proof)
    requires S.q > 0
  {
    Checks(S.q, 1, b.devicePub, ClientSetupChallenge(S, b, p.a), p)
  }

  function ProveSetupServer(S: Suite, sk: nat, r: nat, b: Binding): Proof
    requires S.q > 0
  {
    Respond(S.q, 1, sk, r, ServerSetupChallenge(S, b, Mul(S.q, 1, r)))
  }

  predicate VerifySetupServer(S: Suite, b: Binding, p: Proof)
    requires S.q > 0
  {
    Checks(S.q, 1, b.serverPub, ServerSetupChallenge(S, b, p.a), p)
  }

  /** Both sides of an honest enrollment convince each other. */
  lemma SetupComplete(S: Suite, b: Binding, x: nat, r: nat, sk: nat, t: nat)
    requires S.q > 0 && b.devicePub == Mul(S.q, 1, x) && b.serverPub == Mul(S.q, 1, sk)
    ensures VerifySetupClient(S, b, ProveSetupClient(S, x, r, b))
    ensures VerifySetupServer(S, b, ProveSetupServer(S, sk, t, b))
  {
    SchnorrComplete(S.q, 1, x, r, ClientSetupChallenge(S, b, Mul(S.q, 1, r)));
    SchnorrComplete(S.q, 1, sk, t, ServerSetupChallenge(S, b, Mul(S.q, 1, t)));
  }

  // ---- SETUP_1 ----

  datatype Setup1 = Setup1(token: seq<byte>, deviceId: seq<byte>, devicePub: nat, clientNonce: seq<byte>, commitment: nat)

  function DecodeSetup1(S: Suite, b: seq<byte>): Outcome<Setup1> {
    if b == [] then Reject(PayloadTooShort)
    else if b[0] > 128 then Reject(MalformedPacket)
    else
      var (token, r1) :- TypedPayloads.TakeFixed(b[1..], b[0]);
      var (deviceId, r2) :- TypedPayloads.TakeFixed(r1, 32);
      var (devicePub, r3) :- TypedPayloads.TakePoint(S, r2);
      var (clientNonce, r4) :- TypedPayloads.TakeFixed(r3, 32);
      var (commitment, r5) :- TypedPayloads.TakePoint(S, r4);
      if r5 != [] then Reject(MalformedPacket)
      else Accept(Setup1(token, deviceId, devicePub, clientNonce, commitment))
  }

  predicate SendableSetup1(S: Suite, m: Setup1) {
    && |m.token| <= 128 && |m.deviceId| == |m.clientNonce| == 32
    && TypedPayloads.WirePoint(S, m.devicePub) && TypedPayloads.WirePoint(S, m.commitment)
  }

  function EncodeSetup1(S: Suite, m: Setup1): seq<byte> {
    [|m.token| % 256] + (m.token + (m.deviceId + (S.encode(m.devicePub) + (m.clientNonce + S.encode(m.commitment)))))
  }

  lemma Setup1Encoded(S: Suite, m: Setup1)
    requires Valid(S) && SendableSetup1(S, m)
    ensures DecodeSetup1(S, EncodeSetup1(S, m)) == Accept(m)
  {
    hide TypedPayloads.TakePoint, TypedPayloads.TakeFixed, Prime;
    var b4 := m.clientNonce + S.encode(m.commitment);
    var b3 := S.encode(m.devicePub) + b4;
    var b2 := m.deviceId + b3;
    var b1 := m.token + b2;
    var b := EncodeSetup1(S, m);
    assert b[0] == |m.token| && b[1..] == b1;
    TypedPayloads.TakeFixedExact(b1, |m.token|, m.token, b2);
    TypedPayloads.TakeFixedExact(b2, 32, m.deviceId, b3);
    TypedPayloads.TakePointExact(S, b3, m.devicePub, b4);
    TypedPayloads.TakeFixedExact(b4, 32, m.clientNonce, S.encode(m.commitment));
    TypedPayloads.TakePointExact(S, S.encode(m.commitment), m.commitment, []);
    assert S.encode(m.commitment) + [] == S.encode(m.commitment);
  }

  lemma Setup1Decoded(S: Suite, b: seq<byte>)
    requires Valid(S) && DecodeSetup1(S, b).Accept?
    ensures SendableSetup1(S, DecodeSetup1(S, b).value) && b == EncodeSetup1(S, DecodeSetup1(S, b).value)
  {
    hide TypedPayloads.TakePoint, TypedPayloads.TakeFixed, Prime;
    var m := DecodeSetup1(S, b).value;
    TypedPayloads.TakeFixedDecoded(b[1..], b[0]);
    var r1 := TypedPayloads.TakeFixed(b[1..], b[0]).value.1;
    TypedPayloads.TakeFixedDecoded(r1, 32);
    var r2 := TypedPayloads.TakeFixed(r1, 32).value.1;
    TypedPayloads.TakePointDecoded(S, r2);
    var r3 := TypedPayloads.TakePoint(S, r2).value.1;
    TypedPayloads.TakeFixedDecoded(r3, 32);
    var r4 := TypedPayloads.TakeFixed(r3, 32).value.1;
    TypedPayloads.TakePointDecoded(S, r4);
    assert S.encode(m.commitment) + [] == S.encode(m.commitment);
    assert b == [b[0]] + b[1..];
  }

  /** The SETUP_1 decoder accepts exactly the encodings of sendable messages. */
  lemma DecodeSetup1Exact(S: Suite, b: seq<byte>, m: Setup1)
    requires Valid(S)
    ensures DecodeSetup1(S, b) == Accept(m) <==> SendableSetup1(S, m) && b == EncodeSetup1(S, m)
  {
    hide DecodeSetup1, EncodeSetup1, SendableSetup1, Prime;
    if DecodeSetup1(S, b) == Accept(m) { Setup1Decoded(S, b); }
    if SendableSetup1(S, m) { Setup1Encoded(S, m); }
  }

  // ---- SETUP_2 ----

  datatype Setup2 = Setup2(serverNonce: seq<byte>, challenge: seq<byte>, serverPub: nat, proof: Proof)

  predicate SendableSetup2(S: Suite, m: Setup2) {
    && |m.serverNonce| == 32 && |m.challenge| == 16
    && TypedPayloads.WirePoint(S, m.serverPub) && TypedPayloads.WireProof(S, m.proof)
  }

  function EncodeSetup2(S: Suite, m: Setup2): seq<byte> {
    m.serverNonce + (m.challenge + (S.encode(m.serverPub) + TypedPayloads.ProofBytes(S, m.proof)))
  }

  function DecodeSetup2(S: Suite, b: seq<byte>): Outcome<Setup2> {
    var (serverNonce, r1) :- TypedPayloads.TakeFixed(b, 32);
    var (challenge, r2) :- TypedPayloads.TakeFixed(r1, 16);
    var (serverPub, r3) :- TypedPayloads.TakePoint(S, r2);
    var (proof, r4) :- TypedPayloads.TakeProof(S, r3);
    if r4 != [] then Reject(MalformedPacket) else Accept(Setup2(serverNonce, challenge, serverPub, proof))
  }

  /** The SETUP_2 decoder accepts exactly the encodings of sendable messages. */
  lemma DecodeSetup2Exact(S: Suite, b: seq<byte>, m: Setup2)
    requires Valid(S)
    ensures DecodeSetup2(S, b) == Accept(m) <==> SendableSetup2(S, m) && b == EncodeSetup2(S, m)
  {
    hide TypedPayloads.TakePoint, TypedPayloads.TakeFixed, TypedPayloads.TakeProof, TypedPayloads.ProofBytes,
         TypedPayloads.WireProof, Prime;
    if SendableSetup2(S, m) && b == EncodeSetup2(S, m) {
      var b3 := TypedPayloads.ProofBytes(S, m.proof);
      var b2 := S.encode(m.serverPub) + b3;
      var b1 := m.challenge + b2;
      TypedPayloads.TakeFixedExact(b, 32, m.serverNonce, b1);
      TypedPayloads.TakeFixedExact(b1, 16, m.challenge, b2);
      TypedPayloads.TakePointExact(S, b2, m.serverPub, b3);
      TypedPayloads.TakeProofExact(S, b3, m.proof, []);
      assert b3 + [] == b3;
    }
    if DecodeSetup2(S, b) == Accept(m) {
      TypedPayloads.TakeFixedDecoded(b, 32);
      var r1 := TypedPayloads.TakeFixed(b, 32).value.1;
      TypedPayloads.TakeFixedDecoded(r1, 16);
      var r2 := TypedPayloads.TakeFixed(r1, 16).value.1;
      TypedPayloads.TakePointDecoded(S, r2);
      var r3 := TypedPayloads.TakePoint(S, r2).value.1;
      TypedPayloads.TakeProofDecoded(S, r3);
      assert TypedPayloads.ProofBytes(S, m.proof) + [] == TypedPayloads.ProofBytes(S, m.proof);
    }
  }

  datatype SetupDraw = SetupDraw(serverNonce: seq<byte>, challenge: seq<byte>, r: nat)

  datatype PendingSetup = PendingSetup(
    sid: seq<byte>, deviceId: seq<byte>, devicePub: nat, clientNonce: seq<byte>, serverNonce: seq<byte>,
    challenge: seq<byte>, commitment: nat, response: Packet)

  function BindingFor(p: PendingSetup, serverPub: nat): Binding {
    Binding(p.deviceId, p.devicePub, serverPub, p.clientNonce, p.serverNonce, p.challenge)
  }

  /** No token configured, or the one provided is the configured one. */
  predicate TokenOk(required: Option<seq<byte>>, provided: seq<byte>) {
    required.Some? ==> provided == required.value
  }

  function HandleSetup1(S: Suite, sk: nat, required: Option<seq<byte>>, draw: SetupDraw, sid: seq<byte>, seqNo: nat,
                        payload: seq<byte>): Outcome<PendingSetup>
    requires S.q > 0
  {
    var s1 :- DecodeSetup1(S, payload);
    if !TokenOk(required, s1.token) then Reject(PairingTokenInvalid)
    else
      var pub := Mul(S.q, 1, sk);
      var b := Binding(s1.deviceId, s1.devicePub, pub, s1.clientNonce, draw.serverNonce, draw.challenge);
      var proof := ProveSetupServer(S, sk, draw.r, b);
      Accept(PendingSetup(sid, s1.deviceId, s1.devicePub, s1.clientNonce, draw.serverNonce, draw.challenge, s1.commitment,
        Packet(PKT_SETUP_2, sid, seqNo, EncodeSetup2(S, Setup2(draw.serverNonce, draw.challenge, pub, proof)))))
  }

  /**
    SETUP_1 is accepted exactly for the encodings of sendable messages that carry the configured
    pairing token, if one is configured; a wrong token is refused as such.
  */
  lemma Setup1AcceptedExactly(S: Suite, sk: nat, required: Option<seq<byte>>, draw: SetupDraw, sid: seq<byte>, seqNo: nat,
                              payload: seq<byte>)
    requires Valid(S)
    ensures var r := HandleSetup1(S, sk, required, draw, sid, seqNo, payload);
            && (r.Accept? <==> exists m: Setup1 :: Admits(S, required, payload, m))
            && (forall m: Setup1 | SendableSetup1(S, m) && payload == EncodeSetup1(S, m) && required.Some? && m.token != required.value ::
                  r == Reject(PairingTokenInvalid))
  {
    hide DecodeSetup1, EncodeSetup1, SendableSetup1, ProveSetupServer, EncodeSetup2, Prime;
    forall m: Setup1
      ensures DecodeSetup1(S, payload) == Accept(m) <==> SendableSetup1(S, m) && payload == EncodeSetup1(S, m)
    {
      DecodeSetup1Exact(S, payload, m);
    }
    var r := HandleSetup1(S, sk, required, draw, sid, seqNo, payload);
    if r.Accept? { assert Admits(S, required, payload, DecodeSetup1(S, payload).value); }
  }

  ghost predicate Admits(S: Suite, required: Option<seq<byte>>, payload: seq<byte>, m: Setup1) {
    SendableSetup1(S, m) && payload == EncodeSetup1(S, m) && (required.None? || m.token == required.value)
  }

  // ---- SETUP_3 ----

  function DecodeSetup3(S: Suite, b: seq<byte>): Outcome<Proof> {
    var (p, rest) :- TypedPayloads.TakeProof(S, b);
    if rest != [] then Reject(MalformedPacket) else Accept(p)
  }

  /** The SETUP_3 decoder accepts exactly the encodings of proofs the wire can carry. */
  lemma DecodeSetup3Exact(S: Suite, b: seq<byte>, p: Proof)
    requires Valid(S)
    ensures DecodeSetup3(S, b) == Accept(p) <==> TypedPayloads.WireProof(S, p) && b == TypedPayloads.ProofBytes(S, p)
  {
    hide TypedPayloads.TakeProof, TypedPayloads.ProofBytes, TypedPayloads.WireProof, Prime;
    assert TypedPayloads.ProofBytes(S, p) + [] == TypedPayloads.ProofBytes(S, p);
    TypedPayloads.TakeProofExact(S, b, p, []);
    if DecodeSetup3(S, b) == Accept(p) { TypedPayloads.TakeProofDecoded(S, b); }
  }

  /** What SETUP_3 is judged by: decoding, then the proof against the pending record. */
  function CheckSetup3(S: Suite, pending: PendingSetup, serverPub: nat, payload: seq<byte>): Outcome<Proof>
    requires S.q > 0
  {
    var p :- DecodeSetup3(S, payload);
    if VerifySetupClient(S, BindingFor(pending, serverPub), p) then Accept(p) else Reject(ProofVerify)
  }

  // ---- The client ----

  datatype Enrollee = Enrollee(x: nat, deviceId: seq<byte>, commitment: nat, token: seq<byte>, pinned: Option<nat>, allowTofu: bool)

  datatype EnrolleeDraw = EnrolleeDraw(clientNonce: seq<byte>, r: nat)

  /** The pin policy is enforced before anything is sent. */
  function SetupStart(S: Suite, c: Enrollee, d: EnrolleeDraw): Outcome<Setup1>
    requires S.q > 0
  {
    if Mul(S.q, 1, c.x) == 0 then Reject(IdentityPoint)
    else if c.pinned.None? && !c.allowTofu then Reject(CredentialMissing)
    else Accept(Setup1(c.token, c.deviceId, Mul(S.q, 1, c.x), d.clientNonce, c.commitment))
  }

  datatype SetupEnd = SetupEnd(proof: Proof, serverPub: nat)

  function ClientBindingOf(S: Suite, c: Enrollee, d: EnrolleeDraw, m: Setup2): Binding
    requires S.q > 0
  {
    Binding(c.deviceId, Mul(S.q, 1, c.x), m.serverPub, d.clientNonce, m.serverNonce, m.challenge)
  }

  /** The reaction to SETUP_2: the pin, the server's proof, and then the client's own. */
  function SetupFinish(S: Suite, c: Enrollee, d: EnrolleeDraw, payload: seq<byte>): Outcome<SetupEnd>
    requires S.q > 0
  {
    var m :- DecodeSetup2(S, payload);
    if c.pinned.Some? && S.encode(c.pinned.value) != S.encode(m.serverPub) then Reject(PeerKeyMismatch)
    else if !VerifySetupServer(S, ClientBindingOf(S, c, d, m), m.proof) then Reject(ProofVerify)
    else Accept(SetupEnd(ProveSetupClient(S, c.x, d.r, ClientBindingOf(S, c, d, m)), m.serverPub))
  }

  /** A consistent client and server, none of whose points on the wire is the identity. */
  ghost predicate HonestSetup(S: Suite, sk: nat, required: Option<seq<byte>>, c: Enrollee, d: EnrolleeDraw, draw: SetupDraw) {
    && Valid(S) && |c.token| <= 128 && |c.deviceId| == |d.clientNonce| == |draw.serverNonce| == 32 && |draw.challenge| == 16
    && Mul(S.q, 1, c.x) != 0 && 0 < c.commitment < S.q && Mul(S.q, 1, d.r) != 0
    && Mul(S.q, 1, sk) != 0 && Mul(S.q, 1, draw.r) != 0
    && (if c.pinned.Some? then c.pinned.value == Mul(S.q, 1, sk) else c.allowTofu)
    && (required.Some? ==> c.token == required.value)
  }

  /**
    The honest enrollment, message by message: SETUP_1 is admitted, SETUP_2 convinces the
    client, and SETUP_3 confirms the pending record, which holds the client's own values.
  */
  lemma HonestEnrollment(S: Suite, sk: nat, required: Option<seq<byte>>, c: Enrollee, d: EnrolleeDraw, draw: SetupDraw,
                         sid: seq<byte>, seqNo: nat)
    requires HonestSetup(S, sk, required, c, d, draw)
    ensures SetupStart(S, c, d).Accept?
    ensures var r := HandleSetup1(S, sk, required, draw, sid, seqNo, EncodeSetup1(S, SetupStart(S, c, d).value));
            && r.Accept? && r.value.response.kind == PKT_SETUP_2
            && r.value.deviceId == c.deviceId && r.value.devicePub == Mul(S.q, 1, c.x) && r.value.commitment == c.commitment
            && |r.value.response.payload| == 144
            && var end := SetupFinish(S, c, d, r.value.response.payload);
               && end.Accept? && end.value.serverPub == Mul(S.q, 1, sk) && TypedPayloads.WireProof(S, end.value.proof)
               && CheckSetup3(S, r.value, Mul(S.q, 1, sk), TypedPayloads.ProofBytes(S, end.value.proof)) == Accept(end.value.proof)
  {
    hide DecodeSetup1, EncodeSetup1, DecodeSetup2, EncodeSetup2, DecodeSetup3, Mul, Prime, VerifySetupClient, VerifySetupServer,
         TypedPayloads.ProofBytes, ClientSetupChallenge, ServerSetupChallenge;
    var m1 := SetupStart(S, c, d).value;
    DecodeSetup1Exact(S, EncodeSetup1(S, m1), m1);
    var pub := Mul(S.q, 1, sk);
    var b := Binding(c.deviceId, Mul(S.q, 1, c.x), pub, d.clientNonce, draw.serverNonce, draw.challenge);
    var m2 := Setup2(draw.serverNonce, draw.challenge, pub, ProveSetupServer(S, sk, draw.r, b));
    DecodeSetup2Exact(S, EncodeSetup2(S, m2), m2);
    Setup2Length(S, m2);
    SetupComplete(S, b, c.x, d.r, sk, draw.r);
    DecodeSetup3Exact(S, TypedPayloads.ProofBytes(S, ProveSetupClient(S, c.x, d.r, b)), ProveSetupClient(S, c.x, d.r, b));
  }

  lemma Setup2Length(S: Suite, m: Setup2)
    requires Valid(S) && SendableSetup2(S, m)
    ensures |EncodeSetup2(S, m)| == 144
  {
    hide Prime;
  }

  lemma Setup1Length(S: Suite, m: Setup1)
    requires Valid(S) && SendableSetup1(S, m)
    ensures |EncodeSetup1(S, m)| <= 257
  {
    hide Prime;
  }

  lemma Setup3Length(S: Suite, p: Proof)
    requires Valid(S) && TypedPayloads.WireProof(S, p)
    ensures |TypedPayloads.ProofBytes(S, p)| == 64
  {
    hide Prime;
  }
}
