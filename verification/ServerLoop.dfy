/** The shared state of the Rust server, and its two operations: dispatch a packet, collect garbage. */
module ServerLoop {
  import opened Bytes
  import opened Errors
  import opened Payloads
  import opened Packets
  import opened Setup
  import opened ReplayCache
  import opened AuthExchange
  import opened ServerRuns
  import Primitives = Suite

  /** Clock ticks are milliseconds. */
  const GC_INTERVAL: nat := 5000

  function Min(a: nat, b: nat): nat {
    if a <= b then a else b
  }

  class ServerState {
    const cfg: Config
    const replay: SetCache
    var registry: map<seq<byte>, Record>
    var setup: map<Sid, PendingSetup>
    var auth: map<Sid, PendingAuth>
    var responses: map<(Sid, nat), Cached>
    var lastGc: nat

    ghost predicate Valid()
      reads this, replay
    {
      Primitives.Valid(cfg.S) && replay.Valid() && replay.cap == cfg.replayCap
    }

    ghost function Abs(): State
      reads this, replay
    {
      State(registry, setup, auth, responses, replay.order)
    }

    constructor (cfg: Config, registry: map<seq<byte>, Record>)
      requires Primitives.Valid(cfg.S)
      ensures Valid() && fresh(replay) && this.cfg == cfg && Abs() == Exec(cfg, registry, []).state
    {
      this.cfg, this.registry := cfg, registry;
      setup, auth, responses, lastGc := map[], map[], map[], 0;
      replay := new SetCache(cfg.replayCap);
    }

    /** One packet, from whichever transport. */
    method DispatchPacket(env: Env, bytes: seq<byte>) returns (r: Option<Response>)
      requires Valid()
      modifies this, replay`members, replay`order
      ensures Valid() && lastGc == old(lastGc)
      ensures var d := Dispatch(cfg, old(Abs()), env, bytes);
              Abs() == d.state && r == d.response
    {
      hide Handle, Parse;
      var parsed := Parse(bytes);
      if parsed.Reject? { return None; }
      var p := parsed.value;
      if (p.sid, p.seqNo) in responses && responses[(p.sid, p.seqNo)].peer == env.peer {
        return Some(responses[(p.sid, p.seqNo)].response);
      }
      var result := Route(env, p);
      var response := ResponseOf(p, result);
      responses := responses[(p.sid, p.seqNo) := Cached(env.peer, response, env.now)];
      r := Some(response);
    }

    method Route(env: Env, p: Packet) returns (r: Outcome<Packet>)
      requires Valid()
      modifies this`registry, this`setup, this`auth, replay`members, replay`order
      ensures Valid()
      ensures var e := Handle(cfg, old(Abs()), env, p);
              Abs() == e.state && r == e.result
    {
      hide HandleAuth1, HandleSetup1, CheckSetup3, HandleAuth3;
      if p.kind == PKT_SETUP_1 {
        var pending := HandleSetup1(cfg.S, cfg.server.sk, cfg.token, env.setupDraw, p.sid, p.seqNo, p.payload);
        if pending.Reject? { return Reject(pending.error); }
        setup := setup[p.sid := pending.value];
        return Accept(pending.value.response);
      } else if p.kind == PKT_SETUP_3 {
        r := FinishSetup(env, p);
      } else if p.kind == PKT_AUTH_1 {
        var pending := ServeAuth1(cfg.S, cfg.server, env.order, replay, env.authDraw, p.sid, p.seqNo, p.payload);
        if pending.Reject? { return Reject(pending.error); }
        auth := auth[p.sid := pending.value];
        return Accept(pending.value.response);
      } else if p.kind == PKT_AUTH_3 {
        if p.sid !in auth { return Reject(UnknownSession); }
        r := HandleAuth3(auth[p.sid], p.sid, p.seqNo, p.payload);
        if r.Accept? { auth := auth - {p.sid}; }
      } else {
        r := Reject(UnknownPacketType);
      }
    }

    /** SETUP_3: the only writer of the registry. */
    method FinishSetup(env: Env, p: Packet) returns (r: Outcome<Packet>)
      requires Valid()
      modifies this`registry, this`setup
      ensures Valid()
      ensures var e := OnSetup3(cfg, old(Abs()), env, p);
              Abs() == e.state && r == e.result
    {
      hide CheckSetup3;
      if p.sid !in setup { return Reject(UnknownSession); }
      var pending := setup[p.sid];
      var checked := CheckSetup3(cfg.S, pending, ServerPub(cfg.S, cfg.server), p.payload);
      if checked.Reject? { return Reject(checked.error); }
      registry := registry[pending.deviceId := Record(pending.devicePub, pending.commitment)];
      if !env.flushOk { return Reject(StorageFailure); }
      setup := setup - {p.sid};
      return Accept(Packet(PKT_SETUP_ACK, p.sid, p.seqNo, [1]));
    }

    /**
      At most every five seconds: expired responses go, and either session map is cut down to
      the cap, which ones survive being left to the hash map.
    */
    method GcIfDue(now: nat) returns (ran: bool, ghost keepSetup: set<Sid>, ghost keepAuth: set<Sid>)
      requires Valid()
      modifies this`responses, this`setup, this`auth, this`lastGc
      ensures Valid()
      ensures ran == (now - old(lastGc) >= GC_INTERVAL)
      ensures !ran ==> Abs() == old(Abs()) && lastGc == old(lastGc)
      ensures ran ==> lastGc == now && Abs() == Collect(cfg, old(Abs()), now, keepSetup, keepAuth)
      ensures ran ==> forall k :: k in responses <==> k in old(responses) && now - old(responses)[k].at <= cfg.ttl
      ensures ran ==> forall k | k in responses :: responses[k] == old(responses)[k]
      ensures ran ==> |setup| == Min(|old(setup)|, cfg.maxSessions) && |auth| == Min(|old(auth)|, cfg.maxSessions)
    {
      hide Primitives.Valid;
      if now - lastGc < GC_INTERVAL { return false, {}, {}; }
      lastGc := now;
      responses := map k | k in responses && now - responses[k].at <= cfg.ttl :: responses[k];
      setup := Trim(setup, cfg.maxSessions);
      auth := Trim(auth, cfg.maxSessions);
      return true, setup.Keys, auth.Keys;
    }
  }

  /** Removes arbitrary entries until at most `cap` are left. */
  method Trim<V>(m: map<Sid, V>, cap: nat) returns (r: map<Sid, V>)
    ensures r == Restrict(m, r.Keys) && |r| == Min(|m|, cap)
  {
    r := m;
    while |r| > cap
      invariant r.Keys <= m.Keys && (forall k | k in r :: r[k] == m[k])
      invariant |r| >= Min(|m|, cap) && |r| <= |m|
      decreases |r|
    {
      var k :| k in r;
      assert r.Keys == (r - {k}).Keys + {k};
      assert |r| == |r.Keys| && |r - {k}| == |(r - {k}).Keys|;
      r := r - {k};
    }
  }
}
