/** What holds of every run of the Rust server, as facts about its state and its history. */
module ServerHistory {
  import opened Bytes
  import opened Errors
  import opened Suite
  import opened Packets
  import opened Setup
  import opened ReplayCache
  import opened AuthExchange
  import opened ServerRuns
  import TypedPayloads

  // ---- One step ----

  /** The check behind each event really was passed. */
  predicate Genuine(cfg: Config, e: Event)
    requires Valid(cfg.S)
  {
    match e
    case SetupOpened(_, _, token) => TokenOk(cfg.token, token)
    case DeviceEnrolled(_, pending, proof, _) => VerifySetupClient(cfg.S, BindingFor(pending, ServerPub(cfg.S, cfg.server)), proof)
    case AuthAccepted(sid, seqNo, d, m, draw, session) =>
      && MatchesPid(cfg.S, ServerPub(cfg.S, cfg.server), d, m) && CheckProofs(cfg.S, cfg.server, d, m) == Ok
      && session == Pending(cfg.S, cfg.server, draw, sid, seqNo, m, d)
    case AuthAcked(_, session, tag) => tag == session.expectedTagC
    case _ => true
  }

  predicate SetupFrom(st: State, st': State, e: Event) {
    forall sid | sid in st'.setup ::
      (sid in st.setup && st.setup[sid] == st'.setup[sid])
      || (e.SetupOpened? && e.sid == sid && e.pending == st'.setup[sid])
  }

  /** What an event does to the registry: an enrolment writes its own record, nothing else writes. */
  function Enroll(registry: map<seq<byte>, Record>, e: Event): map<seq<byte>, Record> {
    if e.DeviceEnrolled? then registry[e.pending.deviceId := Record(e.pending.devicePub, e.pending.commitment)] else registry
  }

  predicate RegistryFrom(st: State, st': State, e: Event) {
    st'.registry == Enroll(st.registry, e)
  }

  predicate AuthFrom(st: State, st': State, e: Event) {
    forall sid | sid in st'.auth ::
      (sid in st.auth && st.auth[sid] == st'.auth[sid])
      || (e.AuthAccepted? && e.sid == sid && e.session == st'.auth[sid])
  }

  /** The device is enrolled under this very key and commitment. */
  predicate HoldsDevice(registry: map<seq<byte>, Record>, d: Device) {
    d.id in registry && registry[d.id] == Record(d.pub, d.commitment)
  }

  predicate Grounded(st: State, st': State, e: Event) {
    && (e.DeviceEnrolled? ==> e.sid in st.setup && st.setup[e.sid] == e.pending)
    && (e.AuthAcked? ==> e.sid in st.auth && st.auth[e.sid] == e.session && e.sid !in st'.auth)
    && (e.AuthAccepted? ==> HoldsDevice(st.registry, e.device))
  }

  predicate WindowFrom(cfg: Config, st: State, st': State, e: Event) {
    if e.AuthAccepted? then
      KeyOf(cfg.S, e.msg) !in st.window && st'.window == Push(st.window, cfg.replayCap, KeyOf(cfg.S, e.msg)).0
    else st'.window == st.window
  }

  /** Everything a step guarantees about the states around it. */
  predicate StepOk(cfg: Config, st: State, st': State, e: Event)
    requires Valid(cfg.S)
  {
    Genuine(cfg, e) && SetupFrom(st, st', e) && RegistryFrom(st, st', e) && AuthFrom(st, st', e)
    && Grounded(st, st', e) && WindowFrom(cfg, st, st', e)
  }

  lemma Setup1Ok(cfg: Config, st: State, env: Env, p: Packet)
    requires Valid(cfg.S)
    ensures StepOk(cfg, st, OnSetup1(cfg, st, env, p).state, OnSetup1(cfg, st, env, p).event)
  {
    hide DecodeSetup1, Valid, ProveSetupServer;
  }

  lemma Setup3Ok(cfg: Config, st: State, env: Env, p: Packet)
    requires Valid(cfg.S)
    ensures StepOk(cfg, st, OnSetup3(cfg, st, env, p).state, OnSetup3(cfg, st, env, p).event)
  {
    hide DecodeSetup3, Valid, VerifySetupClient;
  }

  lemma Auth3Ok(cfg: Config, st: State, p: Packet)
    requires Valid(cfg.S)
    ensures StepOk(cfg, st, OnAuth3(cfg, st, p).state, OnAuth3(cfg, st, p).event)
  {
    hide Valid;
  }

  lemma Auth1Ok(cfg: Config, st: State, env: Env, p: Packet)
    requires Valid(cfg.S) && Enumerates(env.order, st.registry)
    ensures StepOk(cfg, st, OnAuth1(cfg, st, env, p).state, OnAuth1(cfg, st, env, p).event)
  {
    hide TypedPayloads.DecodeAuth1, CheckProofs, MatchesPid, Pending, KeyOf, Push, Valid;
  }

  lemma HandleOk(cfg: Config, st: State, env: Env, p: Packet)
    requires Valid(cfg.S) && Enumerates(env.order, st.registry)
    ensures StepOk(cfg, st, Handle(cfg, st, env, p).state, Handle(cfg, st, env, p).event)
  {
    hide StepOk, OnSetup1, OnSetup3, OnAuth1, OnAuth3, Valid;
    Setup1Ok(cfg, st, env, p);
    Setup3Ok(cfg, st, env, p);
    Auth1Ok(cfg, st, env, p);
    Auth3Ok(cfg, st, p);
    QuietOk(cfg, st, st);
  }

  lemma QuietOk(cfg: Config, st: State, st': State)
    requires Valid(cfg.S) && st'.registry == st.registry && st'.window == st.window
    requires st'.setup.Keys <= st.setup.Keys && forall k | k in st'.setup :: st'.setup[k] == st.setup[k]
    requires st'.auth.Keys <= st.auth.Keys && forall k | k in st'.auth :: st'.auth[k] == st.auth[k]
    ensures StepOk(cfg, st, st', Quiet)
  {
  }

  lemma NextOk(cfg: Config, st: State, input: Input)
    requires Valid(cfg.S) && (input.Deliver? ==> Enumerates(input.env.order, st.registry))
    ensures StepOk(cfg, st, Next(cfg, st, input).0, Next(cfg, st, input).1)
  {
    hide Handle, Valid, Genuine, Parse;
    if input.Deliver? && Parse(input.bytes).Accept? {
      HandleOk(cfg, st, input.env, Parse(input.bytes).value);
      QuietOk(cfg, st, st);
    } else {
      QuietOk(cfg, st, Next(cfg, st, input).0);
    }
  }

  // ---- The history ----

  predicate OpenedIn(events: seq<Event>, sid: Sid, pending: PendingSetup) {
    exists i :: 0 <= i < |events| && events[i].SetupOpened? && events[i].sid == sid && events[i].pending == pending
  }

  predicate EnrolledIn(events: seq<Event>, id: seq<byte>, rec: Record) {
    exists i :: 0 <= i < |events| && events[i].DeviceEnrolled? && events[i].pending.deviceId == id
      && rec == Record(events[i].pending.devicePub, events[i].pending.commitment)
  }

  predicate AcceptedIn(events: seq<Event>, sid: Sid, session: PendingAuth) {
    exists i :: 0 <= i < |events| && events[i].AuthAccepted? && events[i].sid == sid && events[i].session == session
  }

  /** The registry a history leaves: the last enrolment of a device counts. */
  function RegistryAfter(registry: map<seq<byte>, Record>, events: seq<Event>): map<seq<byte>, Record> {
    if events == [] then registry else Enroll(RegistryAfter(registry, events[..|events| - 1]), events[|events| - 1])
  }

  /**
    An event rests on earlier ones: enrolments on opened setups, acknowledgements on accepted
    AUTH_1s, and acceptances on the device's enrolment as it then stood.
  */
  predicate Rests(registry: map<seq<byte>, Record>, earlier: seq<Event>, e: Event) {
    && (e.DeviceEnrolled? ==> OpenedIn(earlier, e.sid, e.pending))
    && (e.AuthAcked? ==> AcceptedIn(earlier, e.sid, e.session))
    && (e.AuthAccepted? ==> HoldsDevice(RegistryAfter(registry, earlier), e.device))
  }

  predicate Explained(cfg: Config, registry: map<seq<byte>, Record>, run: Run)
    requires Valid(cfg.S)
  {
    && (forall i | 0 <= i < |run.events| :: Genuine(cfg, run.events[i]) && Rests(registry, run.events[..i], run.events[i]))
    && (forall sid | sid in run.state.setup :: OpenedIn(run.events, sid, run.state.setup[sid]))
    && (forall sid | sid in run.state.auth :: AcceptedIn(run.events, sid, run.state.auth[sid]))
    && run.state.registry == RegistryAfter(registry, run.events)
  }

  lemma Grows(events: seq<Event>, e: Event)
    ensures forall sid: Sid, p: PendingSetup :: OpenedIn(events, sid, p) ==> OpenedIn(events + [e], sid, p)
    ensures forall sid: Sid, p: PendingAuth :: AcceptedIn(events, sid, p) ==> AcceptedIn(events + [e], sid, p)
    ensures e.SetupOpened? ==> OpenedIn(events + [e], e.sid, e.pending)
    ensures e.AuthAccepted? ==> AcceptedIn(events + [e], e.sid, e.session)
  {
    var all := events + [e];
    assert all[|events|] == e && forall i | 0 <= i < |events| :: all[i] == events[i];
    forall sid: Sid, p: PendingSetup | OpenedIn(events, sid, p) ensures OpenedIn(all, sid, p) {
      var i :| 0 <= i < |events| && events[i].SetupOpened? && events[i].sid == sid && events[i].pending == p;
      assert all[i] == events[i];
    }
    forall sid: Sid, p: PendingAuth | AcceptedIn(events, sid, p) ensures AcceptedIn(all, sid, p) {
      var i :| 0 <= i < |events| && events[i].AuthAccepted? && events[i].sid == sid && events[i].session == p;
      assert all[i] == events[i];
    }
  }

  lemma ExplainedStep(cfg: Config, registry: map<seq<byte>, Record>, run: Run, st': State, e: Event)
    requires Valid(cfg.S) && Explained(cfg, registry, run) && StepOk(cfg, run.state, st', e)
    ensures Explained(cfg, registry, Run(st', run.events + [e]))
  {
    hide OpenedIn, AcceptedIn, Genuine, Valid, HoldsDevice;
    var all := run.events + [e];
    Grows(run.events, e);
    assert all[..|run.events|] == run.events;
    forall i | 0 <= i < |all| ensures Genuine(cfg, all[i]) && Rests(registry, all[..i], all[i]) {
      if i < |run.events| {
        assert all[..i] == run.events[..i] && all[i] == run.events[i];
      } else {
        assert all[..i] == run.events && all[i] == e;
      }
    }
  }

  /**
    Every run is explained by its history. The registry is the initial one with the enrolments
    of the run written over it, each from a SETUP_3 whose client proof verified against a
    pending record that an earlier SETUP_1 opened with a valid pairing token. Each session, and
    each AUTH_3 acknowledged with its tag, comes from an earlier AUTH_1 whose three proofs
    verified against the key and commitment its device was enrolled with at that moment.
  */
  lemma {:induction false} RunsAreExplained(cfg: Config, registry: map<seq<byte>, Record>, inputs: seq<Input>)
    requires Valid(cfg.S) && Admissible(cfg, registry, inputs)
    ensures Explained(cfg, registry, Exec(cfg, registry, inputs))
  {
    hide StepOk, Next, Valid;
    if inputs != [] {
      var init, last := inputs[..|inputs| - 1], inputs[|inputs| - 1];
      RunsAreExplained(cfg, registry, init);
      var before := Exec(cfg, registry, init);
      NextOk(cfg, before.state, last);
      ExplainedStep(cfg, registry, before, Next(cfg, before.state, last).0, Next(cfg, before.state, last).1);
    }
  }

  /** An entry of the registry is an initial one or was enrolled during the run. */
  lemma {:induction false} EntriesHaveOrigin(registry: map<seq<byte>, Record>, events: seq<Event>, id: seq<byte>)
    requires id in RegistryAfter(registry, events)
    ensures var rec := RegistryAfter(registry, events)[id];
            (id in registry && registry[id] == rec) || EnrolledIn(events, id, rec)
  {
    if events != [] {
      var n := |events| - 1;
      var rec := RegistryAfter(registry, events)[id];
      if events[n].DeviceEnrolled? && events[n].pending.deviceId == id {
        assert EnrolledIn(events, id, rec);
      } else {
        EntriesHaveOrigin(registry, events[..n], id);
        if EnrolledIn(events[..n], id, rec) {
          var i :| 0 <= i < n && events[..n][i].DeviceEnrolled? && events[..n][i].pending.deviceId == id
            && rec == Record(events[..n][i].pending.devicePub, events[..n][i].pending.commitment);
          assert events[i] == events[..n][i];
        }
      }
    }
  }

  /** Whoever is accepted proved a key that is an initial one or was itself enrolled by proof. */
  lemma AcceptedKeysAreEnrolled(cfg: Config, registry: map<seq<byte>, Record>, inputs: seq<Input>, i: nat)
    requires Valid(cfg.S) && Admissible(cfg, registry, inputs)
    requires i < |Exec(cfg, registry, inputs).events| && Exec(cfg, registry, inputs).events[i].AuthAccepted?
    ensures var events := Exec(cfg, registry, inputs).events;
            var d := events[i].device;
            && CheckProofs(cfg.S, cfg.server, d, events[i].msg) == Ok
            && ((d.id in registry && registry[d.id] == Record(d.pub, d.commitment))
                || EnrolledIn(events[..i], d.id, Record(d.pub, d.commitment)))
  {
    hide Exec, CheckProofs, MatchesPid, Pending, EnrolledIn, Valid;
    RunsAreExplained(cfg, registry, inputs);
    var run := Exec(cfg, registry, inputs);
    assert Genuine(cfg, run.events[i]) && Rests(registry, run.events[..i], run.events[i]);
    EntriesHaveOrigin(registry, run.events[..i], run.events[i].device.id);
  }

  // ---- Budgets ----

  datatype Filter = AnyAccept | AnyAck | AcceptOf(sid: Sid) | AckOf(sid: Sid)

  predicate Matches(f: Filter, e: Event) {
    match f
    case AnyAccept => e.AuthAccepted?
    case AnyAck => e.AuthAcked?
    case AcceptOf(sid) => e.AuthAccepted? && e.sid == sid
    case AckOf(sid) => e.AuthAcked? && e.sid == sid
  }

  function Tally(events: seq<Event>, f: Filter): nat {
    if events == [] then 0
    else Tally(events[..|events| - 1], f) + if Matches(f, events[|events| - 1]) then 1 else 0
  }

  lemma TallySnoc(events: seq<Event>, e: Event, f: Filter)
    ensures Tally(events + [e], f) == Tally(events, f) + if Matches(f, e) then 1 else 0
  {
    assert (events + [e])[..|events|] == events;
  }

  lemma Subset<T>(a: set<T>, b: set<T>)
    requires a <= b
    ensures |a| <= |b|
  {
    assert b == a + (b - a);
  }

  lemma AtMostOneMore<T>(a: set<T>, b: set<T>, x: T)
    requires a <= b + {x}
    ensures |a| <= |b| + 1
  {
    Subset(a - {x}, b);
    if x in a { assert a == (a - {x}) + {x}; } else { assert a == a - {x}; }
  }

  lemma AtLeastOneLess<T>(a: set<T>, b: set<T>, x: T)
    requires a <= b - {x} && x in b
    ensures |a| + 1 <= |b|
  {
    Subset(a, b - {x});
    assert b == (b - {x}) + {x};
  }

  lemma SessionsStep(cfg: Config, st: State, st': State, e: Event)
    requires Valid(cfg.S) && StepOk(cfg, st, st', e)
    ensures |st'.auth| + (if e.AuthAcked? then 1 else 0) <= |st.auth| + if e.AuthAccepted? then 1 else 0
  {
    hide Valid, Genuine, WindowFrom, RegistryFrom, SetupFrom;
    assert |st.auth| == |st.auth.Keys| && |st'.auth| == |st'.auth.Keys|;
    if e.AuthAccepted? {
      AtMostOneMore(st'.auth.Keys, st.auth.Keys, e.sid);
    } else if e.AuthAcked? {
      AtLeastOneLess(st'.auth.Keys, st.auth.Keys, e.sid);
    } else {
      Subset(st'.auth.Keys, st.auth.Keys);
    }
  }

  /** At every state, open sessions plus fresh AUTH_ACKs number at most the accepted AUTH_1s. */
  lemma {:induction false} SessionBudget(cfg: Config, registry: map<seq<byte>, Record>, inputs: seq<Input>)
    requires Valid(cfg.S) && Admissible(cfg, registry, inputs)
    ensures var run := Exec(cfg, registry, inputs);
            |run.state.auth| + Tally(run.events, AnyAck) <= Tally(run.events, AnyAccept)
  {
    hide StepOk, Next, Valid;
    if inputs != [] {
      var init, last := inputs[..|inputs| - 1], inputs[|inputs| - 1];
      SessionBudget(cfg, registry, init);
      var before := Exec(cfg, registry, init);
      NextOk(cfg, before.state, last);
      var (st, e) := Next(cfg, before.state, last);
      SessionsStep(cfg, before.state, st, e);
      TallySnoc(before.events, e, AnyAck);
      TallySnoc(before.events, e, AnyAccept);
    }
  }

  /** The same for each session id: nobody gets two acknowledgements out of one acceptance. */
  lemma {:induction false} SessionBudgetPerId(cfg: Config, registry: map<seq<byte>, Record>, inputs: seq<Input>, sid: Sid)
    requires Valid(cfg.S) && Admissible(cfg, registry, inputs)
    ensures var run := Exec(cfg, registry, inputs);
            (if sid in run.state.auth then 1 else 0) + Tally(run.events, AckOf(sid)) <= Tally(run.events, AcceptOf(sid))
  {
    hide Genuine, WindowFrom, RegistryFrom, SetupFrom, Next, Valid;
    if inputs != [] {
      var init, last := inputs[..|inputs| - 1], inputs[|inputs| - 1];
      SessionBudgetPerId(cfg, registry, init, sid);
      var before := Exec(cfg, registry, init);
      NextOk(cfg, before.state, last);
      var (st, e) := Next(cfg, before.state, last);
      TallySnoc(before.events, e, AckOf(sid));
      TallySnoc(before.events, e, AcceptOf(sid));
    }
  }

  // ---- Registry isolation ----

  /** Only SETUP_3 packets ever change the registry; in particular AUTH packets do not. */
  lemma RegistryOnlyBySetup3(cfg: Config, st: State, env: Env, bytes: seq<byte>)
    requires Valid(cfg.S) && Enumerates(env.order, st.registry)
    ensures Dispatch(cfg, st, env, bytes).state.registry != st.registry ==>
      Parse(bytes).Accept? && Parse(bytes).value.kind == PKT_SETUP_3 && Dispatch(cfg, st, env, bytes).event.DeviceEnrolled?
  {
    hide Valid, HandleSetup1, HandleAuth1, HandleAuth3, CheckSetup3, Parse;
  }

  // ---- Replays over a run ----

  /** The replay keys of the accepted AUTH_1s, in order. */
  function AcceptedKeys(S: Suite, events: seq<Event>): seq<Key> {
    if events == [] then []
    else
      var e := events[|events| - 1];
      AcceptedKeys(S, events[..|events| - 1]) + if e.AuthAccepted? then [KeyOf(S, e.msg)] else []
  }

  lemma {:induction false} AcceptedSnoc(w: seq<Key>, cap: nat, keys: seq<Key>, key: Key)
    ensures After(w, cap, keys + [key]) == Push(After(w, cap, keys), cap, key).0
    ensures Accepted(w, cap, keys + [key])
         == Accepted(w, cap, keys) + if Push(After(w, cap, keys), cap, key).1 then [key] else []
    decreases keys
  {
    hide Push;
    if keys == [] {
      assert [key][1..] == [];
      assert After(Push(w, cap, key).0, cap, []) == Push(w, cap, key).0;
      assert Accepted(Push(w, cap, key).0, cap, []) == [];
      assert keys + [key] == [key];
    } else {
      assert (keys + [key])[1..] == keys[1..] + [key];
      AcceptedSnoc(Push(w, cap, keys[0]).0, cap, keys[1..], key);
    }
  }

  lemma {:induction false} WindowTracksHistory(cfg: Config, registry: map<seq<byte>, Record>, inputs: seq<Input>)
    requires Valid(cfg.S) && Admissible(cfg, registry, inputs)
    ensures var run := Exec(cfg, registry, inputs);
            var keys := AcceptedKeys(cfg.S, run.events);
            run.state.window == After([], cfg.replayCap, keys) && Accepted([], cfg.replayCap, keys) == keys
  {
    hide Genuine, RegistryFrom, SetupFrom, AuthFrom, Grounded, Next, Valid, KeyOf;
    if inputs != [] {
      var init, last := inputs[..|inputs| - 1], inputs[|inputs| - 1];
      WindowTracksHistory(cfg, registry, init);
      var before := Exec(cfg, registry, init);
      NextOk(cfg, before.state, last);
      var (st, e) := Next(cfg, before.state, last);
      assert (before.events + [e])[..|before.events|] == before.events;
      if e.AuthAccepted? {
        AcceptedSnoc([], cfg.replayCap, AcceptedKeys(cfg.S, before.events), KeyOf(cfg.S, e.msg));
      } else {
        assert AcceptedKeys(cfg.S, before.events) + [] == AcceptedKeys(cfg.S, before.events);
      }
    }
  }

  /** Over a whole run, one replay key is accepted twice only N acceptances apart. */
  lemma RunsRefuseReplays(cfg: Config, registry: map<seq<byte>, Record>, inputs: seq<Input>, i: nat, j: nat)
    requires Valid(cfg.S) && Admissible(cfg, registry, inputs) && cfg.replayCap > 0
    requires i < j < |AcceptedKeys(cfg.S, Exec(cfg, registry, inputs).events)|
    requires AcceptedKeys(cfg.S, Exec(cfg, registry, inputs).events)[i] == AcceptedKeys(cfg.S, Exec(cfg, registry, inputs).events)[j]
    ensures j - i - 1 >= cfg.replayCap
  {
    WindowTracksHistory(cfg, registry, inputs);
    ReacceptanceNeedsCapOthers(cfg.replayCap, AcceptedKeys(cfg.S, Exec(cfg, registry, inputs).events), i, j);
  }

  // ---- Retransmission ----

  /** Repeating a packet from the same peer repeats the answer and changes nothing. */
  lemma RetransmitIdempotent(cfg: Config, st: State, env: Env, env2: Env, bytes: seq<byte>)
    requires Valid(cfg.S) && env.peer == env2.peer
    ensures var d := Dispatch(cfg, st, env, bytes);
            Dispatch(cfg, d.state, env2, bytes) == Delivery(d.state, d.response, Quiet)
  {
    hide Handle, Parse, Valid;
  }

  /** Every answer carries the session id and sequence number of the packet it answers. */
  predicate Addressed(r: Response, sid: Sid, seqNo: nat) {
    match r
    case Sent(p) => p.sid == sid && p.seqNo == seqNo
    case Failed(s, n, _) => s == sid && n == seqNo
  }

  lemma {:induction false} CacheIsAddressed(cfg: Config, registry: map<seq<byte>, Record>, inputs: seq<Input>, key: (Sid, nat))
    requires Valid(cfg.S) && key in Exec(cfg, registry, inputs).state.responses
    ensures Addressed(Exec(cfg, registry, inputs).state.responses[key].response, key.0, key.1)
  {
    hide Handle, Parse, Valid;
    if inputs != [] {
      var init, last := inputs[..|inputs| - 1], inputs[|inputs| - 1];
      var before := Exec(cfg, registry, init);
      if key in before.state.responses { CacheIsAddressed(cfg, registry, init, key); }
      if last.Deliver? && Parse(last.bytes).Accept? {
        HandleAddressed(cfg, before.state, last.env, Parse(last.bytes).value);
      }
    }
  }

  lemma HandleAddressed(cfg: Config, st: State, env: Env, p: Packet)
    requires Valid(cfg.S)
    ensures Addressed(ResponseOf(p, Handle(cfg, st, env, p).result), p.sid, p.seqNo)
    ensures Handle(cfg, st, env, p).state.responses == st.responses
  {
    hide Valid, DecodeSetup1, TypedPayloads.DecodeAuth1, Authenticate, CheckSetup3, TypedPayloads.DecodeAuth3, KeyOf, ServerConfirm,
         ProveSetupServer, TypedPayloads.EncodeAuth2, EncodeSetup2;
  }
}
