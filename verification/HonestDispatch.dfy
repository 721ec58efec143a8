/**
  The Rust server answers: honest enrollments and authentications go through its dispatcher,
  datagram by datagram, from any state in which nothing stands in their way.
*/
module HonestDispatch {
  import opened Bytes
  import opened PrimeField
  import opened Suite
  import opened Payloads
  import opened Packets
  import opened AuthCrypto
  import opened AuthExchange
  import opened Setup
  import opened ServerRuns
  import TypedPayloads
  import ReplayCache
  import ServerHistory

  /** A datagram whose packet has no cached answer for this peer goes to its handler. */
  lemma Dispatched(cfg: Config, st: State, env: Env, p: Packet)
    requires Valid(cfg.S) && Framable(p) && Build(p).Some? && !HasCached(st, env, p)
    ensures var d, e := Dispatch(cfg, st, env, Build(p).value), Handle(cfg, st, env, p);
            && d.response == Some(match e.result case Accept(q) => Sent(q) case Reject(err) => Failed(p.sid, p.seqNo, err))
            && d.state.registry == e.state.registry && d.state.setup == e.state.setup && d.state.auth == e.state.auth
            && d.state.window == e.state.window
            && (forall k | k in d.state.responses :: k in st.responses || k == (p.sid, p.seqNo))
  {
    hide Handle, Build, Parse, Valid;
    PacketRoundTrip(p);
    ServerHistory.HandleAddressed(cfg, st, env, p);
  }

  // ---- Authentication ----

  /** The server's configuration is the one the honest run is about, and its registry holds the device. */
  ghost predicate ReadyFor(cfg: Config, st: State, env: Env, cred: Credential, d: ClientDraw, i: nat, sid: Sid) {
    && Honest(cfg.S, cfg.server, cred, d, env.authDraw, env.order, i, st.window)
    && Enumerates(env.order, st.registry) && |sid| == 16 && |cred.allowed| <= 18
  }

  /**
    The first half: the client's datagram is answered with an AUTH_2, in its own session, that
    the client accepts, and the session is open afterwards.
  */
  lemma HonestAuth1(cfg: Config, st: State, env: Env, cred: Credential, d: ClientDraw, i: nat, sid: Sid)
    requires ReadyFor(cfg, st, env, cred, d, i, sid)
    requires !HasCached(st, env, Packet(PKT_AUTH_1, sid, 0, TypedPayloads.EncodeAuth1(cfg.S, ClientAuth1(cfg.S, cred, d))))
    ensures ClientSend(cfg.S, cred, d, sid).Some?
    ensures var del := Dispatch(cfg, st, env, ClientSend(cfg.S, cred, d, sid).value);
            && del.response.Some? && del.response.value.Sent?
            && var p := del.response.value.packet;
               && p.kind == PKT_AUTH_2 && p.sid == sid && p.seqNo == 0 && Build(p).Some?
               && sid in del.state.auth && del.state.registry == st.registry
               && var end := ClientFinish(cfg.S, cred, d, p.payload);
                  && end.Accept? && end.value.tagC == del.state.auth[sid].expectedTagC
                  && end.value.sessionKey == ServerSession(cfg.S, cfg.server, env.authDraw, ClientAuth1(cfg.S, cred, d))
  {
    hide TypedPayloads.EncodeAuth1, TypedPayloads.EncodeAuth2, ClientAuth1, ClientFinish, HandleAuth1, ServerSession, KcHash,
         ServerParts, ServerConfirm, ReplyTo, Build, Parse, KeyOf, Mul, HasCached, Prime, ClientStart, Dispatch;
    var S, m := cfg.S, ClientAuth1(cfg.S, cred, d);
    var p := Packet(PKT_AUTH_1, sid, 0, TypedPayloads.EncodeAuth1(S, m));
    ClientCanSend(S, cfg.server, cred, d, env.authDraw, env.order, i, st.window, sid);
    StartsHonestly(S, cfg.server, cred, d, env.authDraw, env.order, i, st.window);
    Dispatched(cfg, st, env, p);
    ServerAccepts(S, cfg.server, cred, d, env.authDraw, env.order, i, st.window, cfg.replayCap, sid, 0);
    ReplyCanBeSent(S, cfg.server, env.authDraw, m, sid, 0);
    ClientAccepts(S, cfg.server, cred, d, env.authDraw);
    RoutesAuth1(cfg, st, env, p);
  }

  lemma StartsHonestly(S: Suite, server: Server, cred: Credential, d: ClientDraw, draw: ServerDraw,
                       reg: seq<Device>, i: nat, w: seq<ReplayCache.Key>)
    requires Honest(S, server, cred, d, draw, reg, i, w)
    ensures ClientStart(S, cred, d) == Accept(ClientAuth1(S, cred, d))
  {
    hide ClientAuth1, Mul;
  }

  lemma RoutesAuth1(cfg: Config, st: State, env: Env, p: Packet)
    requires Valid(cfg.S) && p.kind == PKT_AUTH_1
    requires HandleAuth1(cfg.S, cfg.server, env.order, st.window, cfg.replayCap, env.authDraw, p.sid, p.seqNo, p.payload).0.Accept?
    ensures var session := HandleAuth1(cfg.S, cfg.server, env.order, st.window, cfg.replayCap, env.authDraw, p.sid, p.seqNo, p.payload).0.value;
            var e := Handle(cfg, st, env, p);
            && e.result == Accept(session.response) && p.sid in e.state.auth && e.state.auth[p.sid] == session
            && e.state.registry == st.registry
  {
    hide HandleAuth1, Valid;
  }

  /**
    The second half, at any later state in which the session is still open: the client's AUTH_3
    is acknowledged, and the session is closed.
  */
  lemma HonestAuth3(cfg: Config, st: State, env: Env, sid: Sid, seqNo: nat, tag: seq<byte>)
    requires Valid(cfg.S) && |sid| == 16 && seqNo < 0x1_0000_0000 && |tag| == 32
    requires sid in st.auth && st.auth[sid].expectedTagC == tag && !HasCached(st, env, Packet(PKT_AUTH_3, sid, seqNo, tag))
    ensures Build(Packet(PKT_AUTH_3, sid, seqNo, tag)).Some?
    ensures var del := Dispatch(cfg, st, env, Build(Packet(PKT_AUTH_3, sid, seqNo, tag)).value);
            && del.response == Some(Sent(Packet(PKT_AUTH_ACK, sid, seqNo, [1])))
            && sid !in del.state.auth && del.state.registry == st.registry
  {
    hide Valid, Dispatch, HasCached;
    Dispatched(cfg, st, env, Packet(PKT_AUTH_3, sid, seqNo, tag));
  }

  // ---- Enrollment ----

  /** The first half: SETUP_1 is answered with a SETUP_2 the client accepts, and a record is pending. */
  lemma HonestSetup1(cfg: Config, st: State, env: Env, c: Enrollee, d: EnrolleeDraw, sid: Sid)
    requires HonestSetup(cfg.S, cfg.server.sk, cfg.token, c, d, env.setupDraw) && |sid| == 16
    requires SetupStart(cfg.S, c, d).Accept? ==>
      !HasCached(st, env, Packet(PKT_SETUP_1, sid, 0, EncodeSetup1(cfg.S, SetupStart(cfg.S, c, d).value)))
    ensures SetupStart(cfg.S, c, d).Accept?
    ensures var p := Packet(PKT_SETUP_1, sid, 0, EncodeSetup1(cfg.S, SetupStart(cfg.S, c, d).value));
            && Build(p).Some?
            && var del := Dispatch(cfg, st, env, Build(p).value);
               && del.response.Some? && del.response.value.Sent? && sid in del.state.setup
               && var q, pending := del.response.value.packet, del.state.setup[sid];
                  && q.kind == PKT_SETUP_2 && q.sid == sid && q.seqNo == 0 && Build(q).Some?
                  && del.state.registry == st.registry && del.state.window == st.window
                  && SetupFinish(cfg.S, c, d, q.payload).Accept?
                  && SetupFinish(cfg.S, c, d, q.payload).value.serverPub == ServerPub(cfg.S, cfg.server)
                  && TypedPayloads.WireProof(cfg.S, SetupFinish(cfg.S, c, d, q.payload).value.proof)
                  && ConfirmedBy(cfg, c, pending, SetupFinish(cfg.S, c, d, q.payload).value.proof)
  {
    hide EncodeSetup1, SetupFinish, CheckSetup3, TypedPayloads.ProofBytes, Mul, Prime, HandleSetup1, Dispatch, HasCached;
    HonestEnrollment(cfg.S, cfg.server.sk, cfg.token, c, d, env.setupDraw, sid, 0);
    var m := SetupStart(cfg.S, c, d).value;
    SendsSetup1(cfg.S, cfg.server.sk, cfg.token, c, d, env.setupDraw);
    var p := Packet(PKT_SETUP_1, sid, 0, EncodeSetup1(cfg.S, m));
    Dispatched(cfg, st, env, p);
    RoutesSetup1(cfg, st, env, p);
  }

  /** The pending record holds the client's own values, and this proof confirms it. */
  ghost predicate ConfirmedBy(cfg: Config, c: Enrollee, pending: PendingSetup, proof: Proof)
    requires cfg.S.q > 0
  {
    && pending.deviceId == c.deviceId && pending.devicePub == Mul(cfg.S.q, 1, c.x) && pending.commitment == c.commitment
    && CheckSetup3(cfg.S, pending, ServerPub(cfg.S, cfg.server), TypedPayloads.ProofBytes(cfg.S, proof)) == Accept(proof)
  }

  lemma SendsSetup1(S: Suite, sk: nat, required: Option<seq<byte>>, c: Enrollee, d: EnrolleeDraw, draw: SetupDraw)
    requires HonestSetup(S, sk, required, c, d, draw) && SetupStart(S, c, d).Accept?
    ensures |EncodeSetup1(S, SetupStart(S, c, d).value)| <= MAX_PAYLOAD
  {
    hide Mul, EncodeSetup1, Prime;
    Setup1Length(S, SetupStart(S, c, d).value);
  }

  lemma RoutesSetup1(cfg: Config, st: State, env: Env, p: Packet)
    requires Valid(cfg.S) && p.kind == PKT_SETUP_1
    requires HandleSetup1(cfg.S, cfg.server.sk, cfg.token, env.setupDraw, p.sid, p.seqNo, p.payload).Accept?
    ensures var pending := HandleSetup1(cfg.S, cfg.server.sk, cfg.token, env.setupDraw, p.sid, p.seqNo, p.payload).value;
            var e := Handle(cfg, st, env, p);
            && e.result == Accept(pending.response) && p.sid in e.state.setup && e.state.setup[p.sid] == pending
            && e.state.registry == st.registry && e.state.window == st.window
            && pending.response.sid == p.sid && pending.response.seqNo == p.seqNo
  {
    hide DecodeSetup1, Valid, ProveSetupServer, EncodeSetup2;
  }

  /**
    The second half, at any later state in which the record is still pending: SETUP_3 is
    acknowledged, and the registry holds the device's own key and commitment.
  */
  lemma HonestSetup3(cfg: Config, st: State, env: Env, c: Enrollee, sid: Sid, seqNo: nat, proof: Proof)
    requires Valid(cfg.S) && |sid| == 16 && seqNo < 0x1_0000_0000 && env.flushOk && TypedPayloads.WireProof(cfg.S, proof)
    requires sid in st.setup && ConfirmedBy(cfg, c, st.setup[sid], proof)
    requires !HasCached(st, env, Packet(PKT_SETUP_3, sid, seqNo, TypedPayloads.ProofBytes(cfg.S, proof)))
    ensures var p := Packet(PKT_SETUP_3, sid, seqNo, TypedPayloads.ProofBytes(cfg.S, proof));
            && Build(p).Some?
            && var del := Dispatch(cfg, st, env, Build(p).value);
               && del.response == Some(Sent(Packet(PKT_SETUP_ACK, sid, seqNo, [1])))
               && del.state.registry == st.registry[c.deviceId := Record(Mul(cfg.S.q, 1, c.x), c.commitment)]
               && sid !in del.state.setup && del.state.window == st.window
  {
    hide CheckSetup3, TypedPayloads.ProofBytes, Mul, Prime, Dispatch, HasCached;
    Setup3Length(cfg.S, proof);
    Dispatched(cfg, st, env, Packet(PKT_SETUP_3, sid, seqNo, TypedPayloads.ProofBytes(cfg.S, proof)));
  }

  // ---- Answers to others ----

  /** A cached answer is for the peer it was sent to: any other peer's packet is handled afresh. */
  lemma CacheIsPerPeer(cfg: Config, st: State, env: Env, p: Packet)
    requires Valid(cfg.S) && Framable(p) && Build(p).Some?
    requires (p.sid, p.seqNo) in st.responses && st.responses[(p.sid, p.seqNo)].peer != env.peer
    ensures Dispatch(cfg, st, env, Build(p).value).response == Dispatch(cfg, st.(responses := map[]), env, Build(p).value).response
  {
    hide Build, Parse, Valid, HandleSetup1, HandleAuth1, HandleAuth3, CheckSetup3;
    PacketRoundTrip(p);
  }

  // ---- From an empty server to a session key ----

  /** One party's view of enrollment and authentication fits the other's, with fresh ids. */
  ghost predicate WholeStory(cfg: Config, c: Enrollee, sd: EnrolleeDraw, cred: Credential, d: ClientDraw,
                             e1: Env, e2: Env, e3: Env, sid1: Sid, sid2: Sid)
  {
    && HonestSetup(cfg.S, cfg.server.sk, cfg.token, c, sd, e1.setupDraw) && e2.flushOk
    && Enrolled(cfg.S, cred) && Drawn(cfg.S, cred, d) && cred.x == c.x && cred.commitment == c.commitment
    && cfg.server.allowed == cred.allowed && |cred.allowed| <= 18 && cred.serverPub == ServerPub(cfg.S, cfg.server)
    && |e3.authDraw.nonceS| == 32 && NoIdentitySent(cfg.S, cfg.server, cred, d, e3.authDraw)
    && Enumerates(e3.order, map[c.deviceId := Record(Mul(cfg.S.q, 1, c.x), c.commitment)])
    && |sid1| == |sid2| == 16 && sid1 != sid2
  }

  lemma OnlyOne(order: seq<Device>, id: seq<byte>, rec: Record)
    requires Enumerates(order, map[id := rec])
    ensures order == [Device(id, rec.pub, rec.commitment)]
  {
    assert id in map[id := rec];
    var i :| 0 <= i < |order| && order[i].id == id;
    var last := |order| - 1;
    assert order[0].id == order[last].id;
  }

  /**
    Starting with an empty server, a device enrolls and then authenticates: four datagrams, four
    answers that each side accepts, and in the end one session key on both sides.
  */
  lemma EnrollThenAuthenticate(cfg: Config, c: Enrollee, sd: EnrolleeDraw, cred: Credential, d: ClientDraw,
                               e1: Env, e2: Env, e3: Env, e4: Env, sid1: Sid, sid2: Sid)
    returns (d1: Delivery, d2: Delivery, d3: Delivery, d4: Delivery, setupEnd: SetupEnd, end: ClientEnd)
    requires WholeStory(cfg, c, sd, cred, d, e1, e2, e3, sid1, sid2)
    ensures SetupStart(cfg.S, c, sd).Accept? && ClientSend(cfg.S, cred, d, sid2).Some?
    ensures var p1 := Packet(PKT_SETUP_1, sid1, 0, EncodeSetup1(cfg.S, SetupStart(cfg.S, c, sd).value));
            && Build(p1).Some? && d1 == Dispatch(cfg, Exec(cfg, map[], []).state, e1, Build(p1).value)
            && d1.response.Some? && d1.response.value.Sent?
            && SetupFinish(cfg.S, c, sd, d1.response.value.packet.payload) == Accept(setupEnd)
    ensures var p2 := Packet(PKT_SETUP_3, sid1, 1, TypedPayloads.ProofBytes(cfg.S, setupEnd.proof));
            && Build(p2).Some? && d2 == Dispatch(cfg, d1.state, e2, Build(p2).value)
            && d2.response == Some(Sent(Packet(PKT_SETUP_ACK, sid1, 1, [1])))
    ensures d3 == Dispatch(cfg, d2.state, e3, ClientSend(cfg.S, cred, d, sid2).value)
            && d3.response.Some? && d3.response.value.Sent?
            && ClientFinish(cfg.S, cred, d, d3.response.value.packet.payload) == Accept(end)
    ensures var p4 := Packet(PKT_AUTH_3, sid2, 1, end.tagC);
            && Build(p4).Some? && d4 == Dispatch(cfg, d3.state, e4, Build(p4).value)
            && d4.response == Some(Sent(Packet(PKT_AUTH_ACK, sid2, 1, [1])))
            && end.sessionKey == ServerSession(cfg.S, cfg.server, e3.authDraw, ClientAuth1(cfg.S, cred, d))
  {
    hide EncodeSetup1, SetupFinish, TypedPayloads.ProofBytes, TypedPayloads.EncodeAuth1, ClientAuth1, ClientFinish, ServerSession,
         Build, Parse, Mul, Prime, Dispatch, ClientSend, SetupStart, Handle, ConfirmedBy, KeyOf, NoIdentitySent, ClientPid, Pid;
    var S := cfg.S;
    var s0 := Exec(cfg, map[], []).state;
    HonestSetup1(cfg, s0, e1, c, sd, sid1);
    var p1 := Packet(PKT_SETUP_1, sid1, 0, EncodeSetup1(S, SetupStart(S, c, sd).value));
    Dispatched(cfg, s0, e1, p1);
    d1 := Dispatch(cfg, s0, e1, Build(p1).value);
    setupEnd := SetupFinish(S, c, sd, d1.response.value.packet.payload).value;
    HonestSetup3(cfg, d1.state, e2, c, sid1, 1, setupEnd.proof);
    var p2 := Packet(PKT_SETUP_3, sid1, 1, TypedPayloads.ProofBytes(S, setupEnd.proof));
    Dispatched(cfg, d1.state, e2, p2);
    d2 := Dispatch(cfg, d1.state, e2, Build(p2).value);
    assert d2.state.registry == map[c.deviceId := Record(Mul(S.q, 1, c.x), c.commitment)];
    OnlyOne(e3.order, c.deviceId, Record(Mul(S.q, 1, c.x), c.commitment));
    HonestAuth1(cfg, d2.state, e3, cred, d, 0, sid2);
    SendsAuth1(S, cred, d, sid2);
    var p3 := Packet(PKT_AUTH_1, sid2, 0, TypedPayloads.EncodeAuth1(S, ClientAuth1(S, cred, d)));
    Dispatched(cfg, d2.state, e3, p3);
    d3 := Dispatch(cfg, d2.state, e3, ClientSend(S, cred, d, sid2).value);
    end := ClientFinish(S, cred, d, d3.response.value.packet.payload).value;
    TagLength(S, cred, d, d3.response.value.packet.payload);
    HonestAuth3(cfg, d3.state, e4, sid2, 1, end.tagC);
    d4 := Dispatch(cfg, d3.state, e4, Build(Packet(PKT_AUTH_3, sid2, 1, end.tagC)).value);
  }

  lemma SendsAuth1(S: Suite, cred: Credential, d: ClientDraw, sid: Sid)
    requires Enrolled(S, cred) && Drawn(S, cred, d) && ClientSend(S, cred, d, sid).Some?
    ensures ClientSend(S, cred, d, sid)
         == Build(Packet(PKT_AUTH_1, sid, 0, TypedPayloads.EncodeAuth1(S, ClientAuth1(S, cred, d))))
  {
    hide ClientAuth1, Mul;
  }

  lemma TagLength(S: Suite, cred: Credential, d: ClientDraw, payload: seq<byte>)
    requires Valid(S) && Enrolled(S, cred) && Drawn(S, cred, d) && ClientFinish(S, cred, d, payload).Accept?
    ensures |ClientFinish(S, cred, d, payload).value.tagC| == 32
  {
    hide ClientSession, KcHash, ClientParts, VerifyServer, TypedPayloads.DecodeAuth2, Prime;
  }
}
