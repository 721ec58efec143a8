/**
  The C server's AUTH_1 path: a slot is reserved, then every registry entry in turn is put
  through the replay guard (decode, look the key up, verify, insert), until one is accepted or
  a failure ends the scan.
*/
module GuardedScan {
  import opened Bytes
  import opened Errors
  import opened PrimeField
  import opened Suite
  import Primitives = Suite
  import opened Payloads
  import opened AuthCrypto
  import opened ReplayCache
  import opened SessionTable
  import opened AuthExchange
  import TypedPayloads
  import RoleSet
  import RoleSetLanes
  import SlotOwnership

  // ---- What the C lane reads out of a raw message ----

  datatype BranchC = BranchC(a: Option<nat>, c: nat, s: nat)

  /** Points that fail to decompress stay None until an operation on them fails. */
  datatype MsgC = MsgC(
    pid: seq<byte>, clientA: Option<nat>, clientS: nat, nonceC: seq<byte>, ephC: Option<nat>, cPrime: Option<nat>,
    rerandA: Option<nat>, rerandS: nat, branches: seq<BranchC>)

  function ScalarOf(S: Suite, b: seq<byte>): (s: nat)
    requires S.q > 0
    ensures s < S.q
  {
    FromLE(b) % S.q
  }

  function ViewBranch(S: Suite, b: RawBranch): BranchC
    requires S.q > 0
  {
    BranchC(S.decode(b.a), ScalarOf(S, b.c), ScalarOf(S, b.s))
  }

  function ViewC(S: Suite, m: RawAuth1): (v: MsgC)
    requires S.q > 0
    ensures |v.branches| == |m.branches|
  {
    MsgC(m.pid, S.decode(m.ac), ScalarOf(S, m.sc), m.nonceC, S.decode(m.ephC), S.decode(m.cPrime),
         S.decode(m.ra), ScalarOf(S, m.rs),
         seq(|m.branches|, i requires 0 <= i < |m.branches| => ViewBranch(S, m.branches[i])))
  }

  predicate AllPoints(v: MsgC) {
    && v.clientA.Some? && v.ephC.Some? && v.cPrime.Some? && v.rerandA.Some?
    && forall i | 0 <= i < |v.branches| :: v.branches[i].a.Some?
  }

  function Known(o: Option<nat>): nat {
    if o.Some? then o.value else 0
  }

  /** The message with unreadable points replaced by 0. */
  function Filled(v: MsgC): TypedPayloads.Auth1 {
    TypedPayloads.Auth1(v.pid, Proof(Known(v.clientA), v.clientS), v.nonceC, Known(v.ephC), Known(v.cPrime),
      Proof(Known(v.rerandA), v.rerandS),
      seq(|v.branches|, i requires 0 <= i < |v.branches| =>
        RoleSet.Branch(Known(v.branches[i].a), v.branches[i].c, v.branches[i].s)))
  }

  ghost predicate Readable(S: Suite, v: MsgC) {
    && |v.pid| == 32 && |v.nonceC| == 32
    && Residues(S.q, Filled(v).clientProof) && Residues(S.q, Filled(v).rerandProof)
    && Filled(v).ephC < S.q && Filled(v).cPrime < S.q
    && RoleSet.AreResidues(S.q, Filled(v).branches)
  }

  lemma ViewReadable(S: Suite, m: RawAuth1)
    requires Valid(S) && Shaped(m)
    ensures Readable(S, ViewC(S, m))
  {
  }

  // ---- Verification of one registry entry ----

  /** The C verifier of base*s == a + X*c fails when a multiplication gives the identity. */
  predicate ChecksC(S: Suite, base: nat, X: nat, c: nat, p: Proof)
    requires S.q > 0
  {
    Checks(S.q, base, X, c, p) && p.s != 0 && X != 0 && c != 0
  }

  method CheckEquationC(S: Suite, base: nat, X: nat, c: nat, p: Proof) returns (ok: bool)
    requires Valid(S) && 0 < base < S.q && X < S.q && c < S.q && Residues(S.q, p)
    ensures ok == ChecksC(S, base, X, c, p)
  {
    hide Mul, Add;
    RoleSetLanes.ScalarMultFails(S.q, p.s, base);
    RoleSetLanes.ScalarMultFails(S.q, c, X);
    var gs := RoleSetLanes.ScalarMult(S.q, p.s, base);
    if gs.None? { return false; }
    var pc := RoleSetLanes.ScalarMult(S.q, c, X);
    if pc.None? { return false; }
    return gs.value == Add(S.q, p.a, pc.value);
  }

  predicate ClientOk(S: Suite, d: Device, m: TypedPayloads.Auth1)
    requires S.q > 0
  {
    ChecksC(S, 1, d.pub, ClientChallenge(S, d.pub, m.clientProof.a, m.pid, m.nonceC, m.ephC), m.clientProof)
  }

  predicate RerandOk(S: Suite, d: Device, m: TypedPayloads.Auth1)
    requires S.q > 0
  {
    ChecksC(S, S.eta, Sub(S.q, m.cPrime, d.commitment),
            RerandChallenge(S, m.pid, m.nonceC, m.ephC, d.commitment, m.cPrime, m.rerandProof.a), m.rerandProof)
  }

  /** The first three checks end in PROOF_VERIFY, the last in ROLE_NOT_PERMITTED. */
  function EntryError(S: Suite, server: Server, d: Device, v: MsgC): Err
    requires S.q > 0
  {
    var m := Filled(v);
    if v.clientA.None? || !ClientOk(S, d, m) then ProofVerify
    else if !MatchesPid(S, ServerPub(S, server), d, m) then ProofVerify
    else if v.rerandA.None? || !RerandOk(S, d, m) then ProofVerify
    else if (exists i | 0 <= i < |v.branches| :: v.branches[i].a.None?)
         || !RoleSetLanes.AcceptsC(S, BindingOf(server, m), m.branches) then RoleNotPermitted
    else Ok
  }

  method VerifyEntryC(S: Suite, server: Server, d: Device, v: MsgC) returns (err: Err)
    requires Valid(S) && Readable(S, v) && d.pub < S.q && d.commitment < S.q && RolesU64(server)
    ensures err == EntryError(S, server, d, v)
  {
    hide Mul, Add, Sub, ClientChallenge, RerandChallenge, MatchesPid, ChecksC, RoleSetLanes.AcceptsC;
    var m := Filled(v);
    if v.clientA.None? { return ProofVerify; }
    var ok := CheckEquationC(S, 1, d.pub, ClientChallenge(S, d.pub, m.clientProof.a, m.pid, m.nonceC, m.ephC), m.clientProof);
    if !ok { return ProofVerify; }
    if !MatchesPid(S, ServerPub(S, server), d, m) { return ProofVerify; }
    if v.rerandA.None? { return ProofVerify; }
    var diff := Sub(S.q, m.cPrime, d.commitment);
    var c := RerandChallenge(S, m.pid, m.nonceC, m.ephC, d.commitment, m.cPrime, m.rerandProof.a);
    ok := CheckEquationC(S, S.eta, diff, c, m.rerandProof);
    if !ok { return ProofVerify; }
    if exists i | 0 <= i < |v.branches| :: v.branches[i].a.None? { return RoleNotPermitted; }
    ok := RoleSetLanes.VerifyC(S, BindingOf(server, m), m.branches);
    return if ok then Ok else RoleNotPermitted;
  }

  predicate RolesU64(server: Server) {
    forall i | 0 <= i < |server.allowed| :: server.allowed[i] < 0x1_0000_0000_0000_0000
  }

  // ---- The reply ----

  /** No multiplication on the reply path gives the identity. */
  predicate ReplyPossible(S: Suite, server: Server, draw: ServerDraw)
    requires S.q > 0
  {
    Mul(S.q, 1, draw.ephSecret) != 0 && Mul(S.q, 1, draw.r) != 0 && ServerPub(S, server) != 0
  }

  datatype PendingC = PendingC(
    devicePub: nat, pid: seq<byte>, nonceC: seq<byte>, nonceS: seq<byte>, ephC: nat, ephS: nat,
    sessionKey: seq<byte>, th: seq<byte>, tagC: seq<byte>)

  function PendingFor(S: Suite, server: Server, draw: ServerDraw, d: Device, m: TypedPayloads.Auth1): PendingC
    requires Valid(S)
  {
    PendingC(d.pub, m.pid, m.nonceC, draw.nonceS, m.ephC, Mul(S.q, 1, draw.ephSecret),
             ServerSession(S, server, draw, m), KcHash(S, ServerParts(S, server, draw, m)),
             ServerConfirm(S, server, draw, m).tagC)
  }

  /** Ephemeral key, server proof, shared secret: any identity result is an INVALID_POINT. */
  method ReplyC(S: Suite, server: Server, draw: ServerDraw, d: Device, m: TypedPayloads.Auth1)
    returns (err: Err, pending: Option<PendingC>, reply: Option<TypedPayloads.Auth2>)
    requires Valid(S) && 0 < m.ephC < S.q
    ensures err == if ReplyPossible(S, server, draw) then Ok else InvalidPoint
    ensures err == Ok ==> pending == Some(PendingFor(S, server, draw, d, m)) && reply == Some(ReplyTo(S, server, draw, m))
  {
    hide Mul, Add, SessionKey, KcHash, Confirm, ServerChallenge;
    pending, reply := None, None;
    var ephS := RoleSetLanes.ScalarMult(S.q, draw.ephSecret, 1);
    if ephS.None? { return InvalidPoint, None, None; }
    var a := RoleSetLanes.ScalarMult(S.q, draw.r, 1);
    if a.None? { return InvalidPoint, None, None; }
    var pub := RoleSetLanes.ScalarMult(S.q, server.sk, 1);
    if pub.None? { return InvalidPoint, None, None; }
    var proof := Respond(S.q, 1, server.sk, draw.r, ServerChallenge(S, pub.value, a.value, draw.nonceS, ephS.value));
    SharedNonZero(S.q, draw.ephSecret, m.ephC);
    var shared := RoleSetLanes.ScalarMult(S.q, draw.ephSecret, m.ephC);
    var key := SessionKey(S, shared.value, m.nonceC, draw.nonceS, m.pid, m.ephC, ephS.value);
    var th := KcHash(S, Parts(m.pid, m.clientProof, m.nonceC, m.ephC, pub.value, proof, draw.nonceS, ephS.value));
    var tags := Confirm(S, key, th);
    err := Ok;
    pending := Some(PendingC(d.pub, m.pid, m.nonceC, draw.nonceS, m.ephC, ephS.value, key, th, tags.tagC));
    reply := Some(TypedPayloads.Auth2(pub.value, proof, draw.nonceS, ephS.value, tags.tagS));
  }

  /** A nonzero secret times a point other than the identity is not the identity. */
  lemma SharedNonZero(q: nat, x: nat, p: nat)
    requires Prime(q) && 0 < p < q && Mul(q, 1, x) != 0
    ensures Mul(q, p, x) != 0
  {
    var y := Mul(q, 1, x);
    NoZeroDivisors(q, p, y);
    MulAssoc(q, p, 1, x);
    MulOne(q, p);
    MulComm(q, p, 1);
  }

  // ---- The guard ----

  function RawKey(S: Suite, m: RawAuth1): seq<byte> {
    S.sha256(Transcript.Ascii("iot-auth/replay-key/v2") + m.pid + m.nonceC + m.ephC)
  }

  /** Errors found before any registry entry matters: they are the same for every entry. */
  function CommonError(S: Suite, payload: seq<byte>, w: seq<Key>): Err
    requires S.q > 0
  {
    match DecodeRaw(payload, MAX_BRANCHES_C)
    case Reject(e) => e
    case Accept(raw) =>
      var v := ViewC(S, raw);
      if RawKey(S, raw) in w then ReplayDetected
      else if v.ephC.None? then InvalidPoint
      else if v.ephC.value == 0 then IdentityPoint
      else if v.cPrime.None? then InvalidPoint
      else Ok
  }

  predicate Continues(e: Err) {
    e == ProofVerify || e == RoleNotPermitted
  }

  function GuardError(S: Suite, server: Server, d: Device, payload: seq<byte>, w: seq<Key>, draw: ServerDraw): Err
    requires S.q > 0
  {
    var e := CommonError(S, payload, w);
    if e != Ok then e
    else
      var f := EntryError(S, server, d, ViewC(S, DecodeRaw(payload, MAX_BRANCHES_C).value));
      if f != Ok then f else if ReplyPossible(S, server, draw) then Ok else InvalidPoint
  }

  /** The key a payload would be remembered under. */
  function PayloadKey(S: Suite, payload: seq<byte>): Key {
    match DecodeRaw(payload, MAX_BRANCHES_C)
    case Accept(raw) => RawKey(S, raw)
    case Reject(_) => []
  }

  function PayloadMsg(S: Suite, payload: seq<byte>): TypedPayloads.Auth1
    requires S.q > 0
  {
    match DecodeRaw(payload, MAX_BRANCHES_C)
    case Accept(raw) => Filled(ViewC(S, raw))
    case Reject(_) => TypedPayloads.Auth1([], Proof(0, 0), [], 0, 0, Proof(0, 0), [])
  }

  /**
    One guarded call. It accepts exactly when `GuardError` is Ok, and only then does the key
    enter the window; the insert after verification never finds the key already there.
  */
  method Guarded(S: Suite, server: Server, ring: RingCache, d: Device, payload: seq<byte>, draw: ServerDraw)
    returns (err: Err, pending: Option<PendingC>, reply: Option<TypedPayloads.Auth2>)
    requires Valid(S) && ring.Valid() && d.pub < S.q && d.commitment < S.q && RolesU64(server)
    modifies ring`n, ring`nextEvict, ring.keys
    ensures ring.Valid()
    ensures err == GuardError(S, server, d, payload, old(ring.Window()), draw)
    ensures err != Ok ==> ring.Window() == old(ring.Window())
    ensures err == Ok ==>
      && PayloadKey(S, payload) !in old(ring.Window())
      && (ring.Window(), true) == Push(old(ring.Window()), ring.keys.Length, PayloadKey(S, payload))
      && pending == Some(PendingFor(S, server, draw, d, PayloadMsg(S, payload)))
      && reply == Some(ReplyTo(S, server, draw, PayloadMsg(S, payload)))
  {
    hide EntryError, DecodeRaw, RawKey, ViewC, ReplyPossible, PendingFor, ReplyTo, Distinct;
    var decoded := DecodeAuth1C(payload);
    if decoded.Reject? { return decoded.error, None, None; }
    DecodedEncodes(payload, MAX_BRANCHES_C);
    var v, key := ViewC(S, decoded.value), RawKey(S, decoded.value);
    ViewReadable(S, decoded.value);
    var seen := ring.Contains(key);
    if seen { return ReplayDetected, None, None; }
    if v.ephC.None? { return InvalidPoint, None, None; }
    if v.ephC.value == 0 { return IdentityPoint, None, None; }
    if v.cPrime.None? { return InvalidPoint, None, None; }
    err := VerifyEntryC(S, server, d, v);
    if err != Ok { return err, None, None; }
    err, pending, reply := ReplyC(S, server, draw, d, Filled(v));
    if err != Ok { return err, None, None; }
    var inserted := ring.Insert(key);
    if !inserted { return ReplayDetected, None, None; }
  }

  // ---- The scan ----

  /**
    What one guarded call of a scan finds: the registry entry it reads and the replay window.
    The locks are free between the calls, so either may have changed since the call before.
  */
  datatype Visit = Visit(d: Device, w: seq<Key>)

  function VisitError(S: Suite, server: Server, v: Visit, payload: seq<byte>, draw: ServerDraw): Err
    requires S.q > 0
  {
    GuardError(S, server, v.d, payload, v.w, draw)
  }

  /** Error and position with which a scan ends. */
  function Scan(S: Suite, server: Server, visits: seq<Visit>, payload: seq<byte>, draw: ServerDraw, last: Err): (r: (Err, nat))
    requires S.q > 0
    decreases visits
  {
    if visits == [] then (last, 0)
    else
      var e := VisitError(S, server, visits[0], payload, draw);
      if e == Ok || !Continues(e) then (e, 0)
      else
        var (f, i) := Scan(S, server, visits[1..], payload, draw, e);
        (f, i + 1)
  }

  /** The entry passes every verification of the message. */
  predicate Passes(S: Suite, server: Server, d: Device, payload: seq<byte>)
    requires S.q > 0
  {
    var r := DecodeRaw(payload, MAX_BRANCHES_C);
    r.Accept? && EntryError(S, server, d, ViewC(S, r.value)) == Ok
  }

  /** A scan ends at the first visit that does not let it continue, or with the last one's error. */
  lemma {:induction false} ScanEnds(S: Suite, server: Server, visits: seq<Visit>, payload: seq<byte>, draw: ServerDraw, last: Err)
    requires S.q > 0
    ensures var (e, i) := Scan(S, server, visits, payload, draw, last);
            && i <= |visits|
            && (forall j | 0 <= j < i :: Continues(VisitError(S, server, visits[j], payload, draw)))
            && (i < |visits| ==> e == VisitError(S, server, visits[i], payload, draw) && !Continues(e))
            && (i == |visits| ==>
                  e == if i == 0 then last else VisitError(S, server, visits[i - 1], payload, draw))
    decreases visits
  {
    hide VisitError;
    if visits != [] {
      var e := VisitError(S, server, visits[0], payload, draw);
      if Continues(e) {
        var rest := visits[1..];
        ScanEnds(S, server, rest, payload, draw, e);
        var i := Scan(S, server, rest, payload, draw, e).1;
        forall j | 0 <= j < i + 1 ensures Continues(VisitError(S, server, visits[j], payload, draw)) {
          if j > 0 { assert visits[j] == rest[j - 1]; }
        }
      }
    }
  }

  /** The position is the only one with that property. */
  lemma ScanEndsOnlyAt(S: Suite, server: Server, visits: seq<Visit>, payload: seq<byte>, draw: ServerDraw, last: Err, i: nat)
    requires S.q > 0 && i < |visits| && !Continues(VisitError(S, server, visits[i], payload, draw))
    requires forall j | 0 <= j < i :: Continues(VisitError(S, server, visits[j], payload, draw))
    ensures Scan(S, server, visits, payload, draw, last) == (VisitError(S, server, visits[i], payload, draw), i)
  {
    hide VisitError, Scan;
    ScanEnds(S, server, visits, payload, draw, last);
    var k := Scan(S, server, visits, payload, draw, last).1;
    assert k == i;
  }

  /** One visit's outcome in terms of the message, the window and the entry. */
  lemma VisitOutcome(S: Suite, server: Server, v: Visit, payload: seq<byte>, draw: ServerDraw)
    requires S.q > 0
    ensures var e := VisitError(S, server, v, payload, draw);
            var clean := CommonError(S, payload, v.w) == Ok;
            && (Continues(e) <==> clean && !Passes(S, server, v.d, payload))
            && (e == Ok <==> clean && Passes(S, server, v.d, payload) && ReplyPossible(S, server, draw))
            && (e == ReplayDetected <==> CommonError(S, payload, v.w) == ReplayDetected)
  {
    hide ReplyPossible, ViewC;
  }

  /**
    The scan accepts entry i exactly when the reply can be computed, i is the first entry that
    passes, and at every visit up to it the message was in order and its key not in the window
    of that moment.
  */
  lemma ScanExact(S: Suite, server: Server, visits: seq<Visit>, payload: seq<byte>, draw: ServerDraw, last: Err, i: nat)
    requires S.q > 0 && last != Ok
    ensures Scan(S, server, visits, payload, draw, last) == (Ok, i)
       <==> && i < |visits| && ReplyPossible(S, server, draw)
            && (forall j | 0 <= j <= i :: CommonError(S, payload, visits[j].w) == Ok)
            && Passes(S, server, visits[i].d, payload)
            && (forall j | 0 <= j < i :: !Passes(S, server, visits[j].d, payload))
  {
    hide CommonError, ReplyPossible, Passes, VisitError, Scan;
    ScanEnds(S, server, visits, payload, draw, last);
    forall j | 0 <= j < |visits|
      ensures Continues(VisitError(S, server, visits[j], payload, draw))
         <==> CommonError(S, payload, visits[j].w) == Ok && !Passes(S, server, visits[j].d, payload)
    {
      VisitOutcome(S, server, visits[j], payload, draw);
    }
    if i < |visits| {
      VisitOutcome(S, server, visits[i], payload, draw);
      if VisitError(S, server, visits[i], payload, draw) == Ok
        && forall j | 0 <= j < i :: Continues(VisitError(S, server, visits[j], payload, draw))
      {
        ScanEndsOnlyAt(S, server, visits, payload, draw, last, i);
      }
    }
  }

  /**
    The scan ends at entry i as a replay exactly when the key is in the window of that visit,
    was in none of the windows before, and no earlier entry passed. So a scan that another one
    overtakes half-way is refused as a replay.
  */
  lemma OvertakenIsReplay(S: Suite, server: Server, visits: seq<Visit>, payload: seq<byte>, draw: ServerDraw, last: Err, i: nat)
    requires S.q > 0 && i < |visits|
    ensures Scan(S, server, visits, payload, draw, last) == (ReplayDetected, i)
       <==> && DecodeRaw(payload, MAX_BRANCHES_C).Accept? && PayloadKey(S, payload) in visits[i].w
            && (forall j | 0 <= j < i :: CommonError(S, payload, visits[j].w) == Ok && !Passes(S, server, visits[j].d, payload))
  {
    hide CommonError, ReplyPossible, Passes, VisitError, Scan, PayloadKey, DecodeRaw;
    ScanEnds(S, server, visits, payload, draw, last);
    ReplayMeansCached(S, payload, visits[i].w);
    forall j | 0 <= j <= i
      ensures Continues(VisitError(S, server, visits[j], payload, draw))
         <==> CommonError(S, payload, visits[j].w) == Ok && !Passes(S, server, visits[j].d, payload)
    {
      VisitOutcome(S, server, visits[j], payload, draw);
    }
    VisitOutcome(S, server, visits[i], payload, draw);
    if VisitError(S, server, visits[i], payload, draw) == ReplayDetected
      && forall j | 0 <= j < i :: Continues(VisitError(S, server, visits[j], payload, draw))
    {
      ScanEndsOnlyAt(S, server, visits, payload, draw, last, i);
    }
  }

  lemma ReplayMeansCached(S: Suite, payload: seq<byte>, w: seq<Key>)
    requires S.q > 0
    ensures CommonError(S, payload, w) == ReplayDetected
       <==> DecodeRaw(payload, MAX_BRANCHES_C).Accept? && PayloadKey(S, payload) in w
  {
    hide ViewC, RawKey;
  }

  // ---- Other handlers in between ----

  /**
    What other handlers do before a guarded call: the keys their accepted AUTH_1s insert, and
    the registry as their SETUP_3s leave it.
  */
  datatype Meanwhile = Meanwhile(keys: seq<Key>, registry: seq<Device>)

  ghost predicate GoodRegistry(S: Suite, reg: seq<Device>, n: nat) {
    |reg| >= n && forall i | 0 <= i < |reg| :: reg[i].pub < S.q && reg[i].commitment < S.q
  }

  /** The registry never shrinks below the size the scan has read. */
  ghost predicate GoodMeanwhile(S: Suite, others: seq<Meanwhile>) {
    forall j | 0 <= j < |others| :: GoodRegistry(S, others[j].registry, |others|)
  }

  function WindowAt(w: seq<Key>, cap: nat, others: seq<Meanwhile>, j: nat): seq<Key>
    requires j < |others|
  {
    After(if j == 0 then w else WindowAt(w, cap, others, j - 1), cap, others[j].keys)
  }

  /** The visits a scan makes while others are at work. */
  function Visits(w: seq<Key>, cap: nat, others: seq<Meanwhile>): (r: seq<Visit>)
    requires forall j | 0 <= j < |others| :: |others[j].registry| > j
    ensures |r| == |others|
  {
    seq(|others|, j requires 0 <= j < |others| => Visit(others[j].registry[j], WindowAt(w, cap, others, j)))
  }

  lemma VisitAt(w: seq<Key>, cap: nat, others: seq<Meanwhile>, n: nat)
    requires n < |others| && forall j | 0 <= j < |others| :: |others[j].registry| > j
    ensures var visits := Visits(w, cap, others);
            visits[n] == Visit(others[n].registry[n], After(if n == 0 then w else visits[n - 1].w, cap, others[n].keys))
  {
    hide After;
  }

  /**
    While the one-finisher rule is kept, the third outcome does not arise: a slot reserved by a
    worker is still reserved after any run of the other workers.
  */
  lemma ReservationSurvives(s: SlotOwnership.State, steps: seq<SlotOwnership.Step>, v: SlotOwnership.Worker)
    requires SlotOwnership.Inv(s) && SlotOwnership.Disciplined(s, steps)
    requires v in s.jobs && s.jobs[v].Verifying? && forall i | 0 <= i < |steps| :: steps[i].w != v
    ensures s.jobs[v].slot < CAPACITY && SlotOwnership.Run(s, steps).slots[s.jobs[v].slot].Reserved?
  {
    SlotOwnership.UntouchedByOthers(s, steps, v);
    assert SlotOwnership.Owned(s, v);
  }

  class Scanner {
    const S: Suite
    const server: Server
    const ring: RingCache
    const table: Table<seq<byte>, PendingC>
    var registry: seq<Device>

    ghost predicate Valid()
      reads this, ring, ring.keys, table
    {
      && Primitives.Valid(S) && RolesU64(server) && ring.Valid() && table.Valid()
      && GoodRegistry(S, registry, 0)
    }

    constructor (S: Suite, server: Server, ring: RingCache, registry: seq<Device>)
      requires Primitives.Valid(S) && RolesU64(server) && ring.Valid() && GoodRegistry(S, registry, 0)
      ensures Valid() && this.S == S && this.server == server && this.ring == ring && this.registry == registry
      ensures forall i | 0 <= i < CAPACITY :: table.slots[i].Free?
    {
      this.S, this.server, this.ring, this.registry := S, server, ring, registry;
      table := new Table<seq<byte>, PendingC>();
    }

    /**
      One AUTH_1 packet, with other handlers at work between its critical sections: `others`
      before each guarded call, and on the table, which they leave as `meanwhile`. Without a
      free slot nothing is looked at. Otherwise the outcome is that of the scan. On any refusal
      the slot is free again and the window is as the others left it. On acceptance the key is
      in the window; if the slot is still reserved it then holds the session, and if it is not,
      the accepted message is lost: activation is refused, the slot is freed, the key stays.
    */
    method TryHandleAuth1(sid: seq<byte>, payload: seq<byte>, draw: ServerDraw, others: seq<Meanwhile>,
                          meanwhile: seq<Slot<seq<byte>, PendingC>>)
      returns (slot: int, err: Err, reply: Option<TypedPayloads.Auth2>)
      requires Valid() && |others| == |registry| && GoodMeanwhile(S, others) && |meanwhile| == CAPACITY
      modifies this`registry, table.slots, ring`n, ring`nextEvict, ring.keys
      ensures Valid()
      ensures var before, w, m := old(table.slots[..]), old(ring.Window()), PayloadMsg(S, payload);
              var visits, k := Visits(w, ring.keys.Length, others), FirstFree(before);
              var (e, i) := Scan(S, server, visits, payload, draw, UnknownDevice);
              if k == CAPACITY then
                slot == -1 && err == TooManyActive && table.slots[..] == before && ring.Window() == w && reply.None?
              else if e != Ok then
                && slot == -1 && err == e && reply.None? && table.slots[..] == meanwhile[k := Free]
                && ring.Window() == LastSeen(w, visits, i)
              else
                && i < |visits| && PayloadKey(S, payload) !in visits[i].w
                && ring.Window() == Push(visits[i].w, ring.keys.Length, PayloadKey(S, payload)).0
                && if meanwhile[k].Reserved? then
                     && slot == k && err == Ok && reply == Some(ReplyTo(S, server, draw, m))
                     && table.slots[..] == meanwhile[k := Auth(sid, PendingFor(S, server, draw, visits[i].d, m))]
                   else
                     slot == -1 && err == InvalidArgument && reply.None? && table.slots[..] == meanwhile[k := Free]
    {
      hide Scan, PendingFor, ReplyTo, PayloadMsg, PayloadKey, Push, Distinct, Visits, RingView;
      slot := table.Reserve();
      if slot < 0 { return -1, TooManyActive, None; }
      var pending: Option<PendingC>;
      err, pending, reply := ScanRegistry(payload, draw, others);
      OthersOnTable(meanwhile);
      if err == Ok {
        err := table.Activate(slot, Auth(sid, pending.value));
        if err == Ok { return; }
      }
      var released := table.Release(slot);
      slot, reply := -1, None;
    }

    /** The scan loop: guarded calls in registry order, up to the first that does not let it go on. */
    method ScanRegistry(payload: seq<byte>, draw: ServerDraw, others: seq<Meanwhile>)
      returns (err: Err, pending: Option<PendingC>, reply: Option<TypedPayloads.Auth2>)
      requires Valid() && |others| == |registry| && GoodMeanwhile(S, others)
      modifies this`registry, ring`n, ring`nextEvict, ring.keys
      ensures Valid()
      ensures var w, m := old(ring.Window()), PayloadMsg(S, payload);
              var visits := Visits(w, ring.keys.Length, others);
              var (e, i) := Scan(S, server, visits, payload, draw, UnknownDevice);
              && err == e
              && (e != Ok ==> ring.Window() == LastSeen(w, visits, i))
              && (e == Ok ==>
                && i < |visits| && PayloadKey(S, payload) !in visits[i].w
                && pending == Some(PendingFor(S, server, draw, visits[i].d, m))
                && ring.Window() == Push(visits[i].w, ring.keys.Length, PayloadKey(S, payload)).0
                && reply == Some(ReplyTo(S, server, draw, m)))
    {
      hide VisitError, PendingFor, ReplyTo, PayloadMsg, PayloadKey, Push, Distinct, Scan, RingView, After, Primitives.Valid, Visits;
      ghost var w, cap := ring.Window(), ring.keys.Length;
      ghost var visits := Visits(w, cap, others);
      assert visits[0..] == visits;
      var regN, n := |registry|, 0;
      err, pending, reply := UnknownDevice, None, None;
      while n < regN
        invariant n <= regN == |others| && err != Ok && Valid() && ring.keys.Length == cap
        invariant ring.Window() == if n == 0 then w else visits[n - 1].w
        invariant Scan(S, server, visits, payload, draw, UnknownDevice)
               == Shift(Scan(S, server, visits[n..], payload, draw, err), n)
      {
        VisitAt(w, cap, others, n);
        ScanStep(S, server, visits, payload, draw, err, n);
        err, pending, reply := GuardedVisit(others[n], n, payload, draw, visits[n]);
        if err == Ok || !Continues(err) { return; }
        n := n + 1;
      }
      ScanEnd(S, server, visits, payload, draw, err);
    }

    /** Others act, entry n is read, and the guarded call runs under the replay lock. */
    method GuardedVisit(m: Meanwhile, n: nat, payload: seq<byte>, draw: ServerDraw, ghost v: Visit)
      returns (err: Err, pending: Option<PendingC>, reply: Option<TypedPayloads.Auth2>)
      requires Valid() && GoodRegistry(S, m.registry, n + 1)
      requires v == Visit(m.registry[n], After(ring.Window(), ring.keys.Length, m.keys))
      modifies this`registry, ring`n, ring`nextEvict, ring.keys
      ensures Valid() && err == VisitError(S, server, v, payload, draw)
      ensures err != Ok ==> ring.Window() == v.w
      ensures err == Ok ==>
        && PayloadKey(S, payload) !in v.w
        && ring.Window() == Push(v.w, ring.keys.Length, PayloadKey(S, payload)).0
        && pending == Some(PendingFor(S, server, draw, v.d, PayloadMsg(S, payload)))
        && reply == Some(ReplyTo(S, server, draw, PayloadMsg(S, payload)))
    {
      hide GuardError, PendingFor, ReplyTo, PayloadMsg, PayloadKey, Push, Distinct, RingView, After;
      Interfere(m);
      err, pending, reply := Guarded(S, server, ring, registry[n], payload, draw);
    }

    /** Other handlers insert their accepted keys and change the registry. */
    method Interfere(m: Meanwhile)
      requires Valid() && GoodRegistry(S, m.registry, 0)
      modifies this`registry, ring`n, ring`nextEvict, ring.keys
      ensures Valid() && registry == m.registry
      ensures ring.Window() == After(old(ring.Window()), ring.keys.Length, m.keys)
    {
      hide Push, Distinct, RingView;
      ghost var w := ring.Window();
      var i := 0;
      while i < |m.keys|
        invariant i <= |m.keys| && Valid()
        invariant After(w, ring.keys.Length, m.keys) == After(ring.Window(), ring.keys.Length, m.keys[i..])
      {
        assert m.keys[i..][1..] == m.keys[i + 1..];
        var accepted := ring.Insert(m.keys[i]);
        i := i + 1;
      }
      registry := m.registry;
    }

    /** Other handlers reserve, fill and release slots of their own. */
    method OthersOnTable(meanwhile: seq<Slot<seq<byte>, PendingC>>)
      requires table.Valid() && |meanwhile| == CAPACITY
      modifies table.slots
      ensures table.slots[..] == meanwhile
    {
      forall i | 0 <= i < CAPACITY { table.slots[i] := meanwhile[i]; }
    }
  }

  /** The window of the last visit made, when the scan ends at position i. */
  function LastSeen(w: seq<Key>, visits: seq<Visit>, i: nat): seq<Key> {
    if visits == [] then w else if i < |visits| then visits[i].w else visits[|visits| - 1].w
  }

  lemma ScanStep(S: Suite, server: Server, visits: seq<Visit>, payload: seq<byte>, draw: ServerDraw, last: Err, n: nat)
    requires S.q > 0 && n < |visits|
    ensures var e := VisitError(S, server, visits[n], payload, draw);
            Shift(Scan(S, server, visits[n..], payload, draw, last), n)
            == if e == Ok || !Continues(e) then (e, n) else Shift(Scan(S, server, visits[n + 1..], payload, draw, e), n + 1)
  {
    hide VisitError;
    assert visits[n..][1..] == visits[n + 1..] && visits[n..][0] == visits[n];
  }

  lemma ScanEnd(S: Suite, server: Server, visits: seq<Visit>, payload: seq<byte>, draw: ServerDraw, last: Err)
    requires S.q > 0
    ensures Scan(S, server, visits[|visits|..], payload, draw, last) == (last, 0)
  {
  }

  function Shift(r: (Err, nat), n: nat): (Err, nat) {
    (r.0, r.1 + n)
  }

  /** When no other scan is accepted meanwhile, every visit sees the window the scan began with. */
  lemma UndisturbedWindow(w: seq<Key>, cap: nat, others: seq<Meanwhile>, i: nat)
    requires forall j | 0 <= j < |others| :: others[j].keys == [] && |others[j].registry| > j
    ensures forall j | 0 <= j < |others| :: Visits(w, cap, others)[j].w == w
    ensures LastSeen(w, Visits(w, cap, others), i) == w
  {
    forall j | 0 <= j < |others| ensures WindowAt(w, cap, others, j) == w {
      QuietWindow(w, cap, others, j);
    }
  }

  lemma {:induction false} QuietWindow(w: seq<Key>, cap: nat, others: seq<Meanwhile>, j: nat)
    requires j < |others| && forall i | 0 <= i < |others| :: others[i].keys == []
    ensures WindowAt(w, cap, others, j) == w
  {
    if j > 0 { QuietWindow(w, cap, others, j - 1); }
  }
}
