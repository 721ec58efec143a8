/**
  The Rust server as a state machine. One mutex covers a packet, so a run is a sequence of
  deliveries and garbage collections; hash-map iteration order, the clock, random draws and
  the outcome of the registry flush are inputs.
*/
module ServerRuns {
  import opened Bytes
  import opened Errors
  import opened Suite
  import opened Payloads
  import opened Packets
  import opened Setup
  import opened ReplayCache
  import opened AuthExchange
  import TypedPayloads

  datatype Config = Config(S: Suite, server: Server, token: Option<seq<byte>>, replayCap: nat, maxSessions: nat, ttl: nat)

  datatype Record = Record(pub: nat, commitment: nat)

  datatype Response = Sent(packet: Packet) | Failed(sid: seq<byte>, seqNo: nat, err: Err)

  datatype Cached = Cached(peer: nat, response: Response, at: nat)

  type Sid = seq<byte>

  datatype State = State(
    registry: map<seq<byte>, Record>,
    setup: map<Sid, PendingSetup>,
    auth: map<Sid, PendingAuth>,
    responses: map<(Sid, nat), Cached>,
    window: seq<Key>)

  /** Everything a delivery depends on besides the state and the bytes. */
  datatype Env = Env(peer: nat, now: nat, setupDraw: SetupDraw, authDraw: ServerDraw, order: seq<Device>, flushOk: bool)

  /** The iteration order lists exactly the registry, each device once. */
  ghost predicate Enumerates(order: seq<Device>, registry: map<seq<byte>, Record>) {
    && (forall i, j | 0 <= i < j < |order| :: order[i].id != order[j].id)
    && (forall i | 0 <= i < |order| ::
          order[i].id in registry && registry[order[i].id] == Record(order[i].pub, order[i].commitment))
    && (forall id | id in registry :: exists i :: 0 <= i < |order| && order[i].id == id)
  }

  /** What a step did that the history should remember. */
  datatype Event =
    | Quiet
    | SetupOpened(sid: Sid, pending: PendingSetup, token: seq<byte>)
    | DeviceEnrolled(sid: Sid, pending: PendingSetup, proof: Proof, acked: bool)
    | AuthAccepted(sid: Sid, seqNo: nat, device: Device, msg: TypedPayloads.Auth1, draw: ServerDraw, session: PendingAuth)
    | AuthAcked(sid: Sid, session: PendingAuth, tag: seq<byte>)

  datatype Effect = Effect(state: State, result: Outcome<Packet>, event: Event)

  // ---- Handlers ----

  function OnSetup1(cfg: Config, st: State, env: Env, p: Packet): Effect
    requires Valid(cfg.S)
  {
    match HandleSetup1(cfg.S, cfg.server.sk, cfg.token, env.setupDraw, p.sid, p.seqNo, p.payload)
    case Reject(e) => Effect(st, Reject(e), Quiet)
    case Accept(pending) =>
      Effect(st.(setup := st.setup[p.sid := pending]), Accept(pending.response),
             SetupOpened(p.sid, pending, DecodeSetup1(cfg.S, p.payload).value.token))
  }

  function OnSetup3(cfg: Config, st: State, env: Env, p: Packet): Effect
    requires Valid(cfg.S)
  {
    if p.sid !in st.setup then Effect(st, Reject(UnknownSession), Quiet)
    else
      var pending := st.setup[p.sid];
      match CheckSetup3(cfg.S, pending, ServerPub(cfg.S, cfg.server), p.payload)
      case Reject(e) => Effect(st, Reject(e), Quiet)
      case Accept(proof) =>
        // the in-memory registry is updated before the flush that may fail
        var saved := st.(registry := st.registry[pending.deviceId := Record(pending.devicePub, pending.commitment)]);
        if env.flushOk then
          Effect(saved.(setup := saved.setup - {p.sid}), Accept(Packet(PKT_SETUP_ACK, p.sid, p.seqNo, [1])),
                 DeviceEnrolled(p.sid, pending, proof, true))
        else
          Effect(saved, Reject(StorageFailure), DeviceEnrolled(p.sid, pending, proof, false))
  }

  function OnAuth1(cfg: Config, st: State, env: Env, p: Packet): Effect
    requires Valid(cfg.S)
  {
    var (r, w) := HandleAuth1(cfg.S, cfg.server, env.order, st.window, cfg.replayCap, env.authDraw, p.sid, p.seqNo, p.payload);
    match r
    case Reject(e) => Effect(st.(window := w), Reject(e), Quiet)
    case Accept(pending) =>
      var m := DecodedAuth1(cfg.S, p.payload);
      Effect(st.(auth := st.auth[p.sid := pending], window := w), Accept(pending.response),
             AuthAccepted(p.sid, p.seqNo, Authenticated(cfg, env.order, m), m, env.authDraw, pending))
  }

  function DecodedAuth1(S: Suite, payload: seq<byte>): TypedPayloads.Auth1 {
    match TypedPayloads.DecodeAuth1(S, payload)
    case Accept(m) => m
    case Reject(_) => TypedPayloads.Auth1([], Proof(0, 0), [], 0, 0, Proof(0, 0), [])
  }

  function Authenticated(cfg: Config, order: seq<Device>, m: TypedPayloads.Auth1): Device
    requires Valid(cfg.S)
  {
    match Authenticate(cfg.S, cfg.server, order, m)
    case Accept(d) => d
    case Reject(_) => Device([], 0, 0)
  }

  function OnAuth3(cfg: Config, st: State, p: Packet): Effect {
    if p.sid !in st.auth then Effect(st, Reject(UnknownSession), Quiet)
    else
      var session := st.auth[p.sid];
      match HandleAuth3(session, p.sid, p.seqNo, p.payload)
      case Reject(e) => Effect(st, Reject(e), Quiet)
      case Accept(ack) => Effect(st.(auth := st.auth - {p.sid}), Accept(ack), AuthAcked(p.sid, session, p.payload))
  }

  function Handle(cfg: Config, st: State, env: Env, p: Packet): Effect
    requires Valid(cfg.S)
  {
    if p.kind == PKT_SETUP_1 then OnSetup1(cfg, st, env, p)
    else if p.kind == PKT_SETUP_3 then OnSetup3(cfg, st, env, p)
    else if p.kind == PKT_AUTH_1 then OnAuth1(cfg, st, env, p)
    else if p.kind == PKT_AUTH_3 then OnAuth3(cfg, st, p)
    else Effect(st, Reject(UnknownPacketType), Quiet)
  }

  function ResponseOf(p: Packet, r: Outcome<Packet>): Response {
    match r
    case Accept(packet) => Sent(packet)
    case Reject(e) => Failed(p.sid, p.seqNo, e)
  }

  datatype Delivery = Delivery(state: State, response: Option<Response>, event: Event)

  predicate HasCached(st: State, env: Env, p: Packet) {
    (p.sid, p.seqNo) in st.responses && st.responses[(p.sid, p.seqNo)].peer == env.peer
  }

  function Dispatch(cfg: Config, st: State, env: Env, bytes: seq<byte>): Delivery
    requires Valid(cfg.S)
  {
    match Parse(bytes)
    case Reject(_) => Delivery(st, None, Quiet)
    case Accept(p) =>
      if HasCached(st, env, p) then Delivery(st, Some(st.responses[(p.sid, p.seqNo)].response), Quiet)
      else
        var e := Handle(cfg, st, env, p);
        var r := ResponseOf(p, e.result);
        Delivery(e.state.(responses := e.state.responses[(p.sid, p.seqNo) := Cached(env.peer, r, env.now)]), Some(r), e.event)
  }

  // ---- Garbage collection ----

  function Restrict<K, V>(m: map<K, V>, keep: set<K>): (r: map<K, V>)
    ensures r.Keys <= m.Keys && forall k | k in r :: r[k] == m[k]
  {
    map k | k in m && k in keep :: m[k]
  }

  function LiveResponses(m: map<(Sid, nat), Cached>, now: nat, ttl: nat): map<(Sid, nat), Cached> {
    map k | k in m && now - m[k].at <= ttl :: m[k]
  }

  /** Which sessions are dropped is up to hash-map order: any choice of survivors may happen. */
  function Collect(cfg: Config, st: State, now: nat, keepSetup: set<Sid>, keepAuth: set<Sid>): State {
    st.(responses := LiveResponses(st.responses, now, cfg.ttl),
        setup := Restrict(st.setup, keepSetup), auth := Restrict(st.auth, keepAuth))
  }

  // ---- Runs ----

  datatype Input = Deliver(env: Env, bytes: seq<byte>) | Gc(now: nat, keepSetup: set<Sid>, keepAuth: set<Sid>)

  datatype Run = Run(state: State, events: seq<Event>)

  function Next(cfg: Config, st: State, input: Input): (State, Event)
    requires Valid(cfg.S)
  {
    match input
    case Deliver(env, bytes) => var d := Dispatch(cfg, st, env, bytes); (d.state, d.event)
    case Gc(now, keepSetup, keepAuth) => (Collect(cfg, st, now, keepSetup, keepAuth), Quiet)
  }

  function Exec(cfg: Config, registry: map<seq<byte>, Record>, inputs: seq<Input>): Run
    requires Valid(cfg.S)
  {
    if inputs == [] then Run(State(registry, map[], map[], map[], []), [])
    else
      var before := Exec(cfg, registry, inputs[..|inputs| - 1]);
      var (st, e) := Next(cfg, before.state, inputs[|inputs| - 1]);
      Run(st, before.events + [e])
  }

  /** At every delivery the iteration order is one of the registry as it then is. */
  ghost predicate Admissible(cfg: Config, registry: map<seq<byte>, Record>, inputs: seq<Input>)
    requires Valid(cfg.S)
  {
    inputs != [] ==>
      var init, last := inputs[..|inputs| - 1], inputs[|inputs| - 1];
      && Admissible(cfg, registry, init)
      && (last.Deliver? ==> Enumerates(last.env.order, Exec(cfg, registry, init).state.registry))
  }
}
