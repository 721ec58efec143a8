/**
  The transcripts, proofs and key derivations of the AUTH exchange, common to both lanes. Each
  Schnorr proof is `Respond` under its own Fiat-Shamir transcript.
*/
module AuthCrypto {
  import opened Bytes
  import opened PrimeField
  import opened Transcript
  import opened Suite
  import Hkdf
  import RoleSet

  // ---- Transcripts ----

  function ClientFields(S: Suite, pub: nat, a: nat, pid: seq<byte>, nonceC: seq<byte>, ephC: nat): seq<Field> {
    [ Field(Ascii("pid"), pid), PointField(S, "pubkey", pub), PointField(S, "a", a),
      Field(Ascii("nonce_c"), nonceC), PointField(S, "eph_c", ephC) ]
  }

  function ServerFields(S: Suite, pub: nat, a: nat, nonceS: seq<byte>, ephS: nat): seq<Field> {
    [ PointField(S, "pubkey", pub), PointField(S, "a", a), Field(Ascii("nonce_s"), nonceS), PointField(S, "eph_s", ephS) ]
  }

  function RerandFields(S: Suite, pid: seq<byte>, nonceC: seq<byte>, ephC: nat, storedC: nat, cPrime: nat, a: nat): seq<Field> {
    [ Field(Ascii("pid"), pid), Field(Ascii("nonce_c"), nonceC), PointField(S, "eph_c", ephC),
      PointField(S, "stored_c", storedC), PointField(S, "c_prime", cPrime), PointField(S, "a", a) ]
  }

  function ClientChallenge(S: Suite, pub: nat, a: nat, pid: seq<byte>, nonceC: seq<byte>, ephC: nat): (c: nat)
    requires S.q > 0
    ensures c < S.q
  {
    Challenge(S, Ascii("client_schnorr_v2"), ClientFields(S, pub, a, pid, nonceC, ephC))
  }

  function ServerChallenge(S: Suite, pub: nat, a: nat, nonceS: seq<byte>, ephS: nat): (c: nat)
    requires S.q > 0
    ensures c < S.q
  {
    Challenge(S, Ascii("server_schnorr_v1"), ServerFields(S, pub, a, nonceS, ephS))
  }

  function RerandChallenge(S: Suite, pid: seq<byte>, nonceC: seq<byte>, ephC: nat, storedC: nat, cPrime: nat, a: nat): (c: nat)
    requires S.q > 0
    ensures c < S.q
  {
    Challenge(S, Ascii("client_role_rerand_v1"), RerandFields(S, pid, nonceC, ephC, storedC, cPrime, a))
  }

  // ---- Proofs and their verifiers ----

  function ProveClient(S: Suite, x: nat, r: nat, pid: seq<byte>, nonceC: seq<byte>, ephC: nat): (p: Proof)
    requires S.q > 0
    ensures Residues(S.q, p) && p.a == Mul(S.q, 1, r)
  {
    Respond(S.q, 1, x, r, ClientChallenge(S, Mul(S.q, 1, x), Mul(S.q, 1, r), pid, nonceC, ephC))
  }

  predicate VerifyClient(S: Suite, pub: nat, pid: seq<byte>, nonceC: seq<byte>, ephC: nat, p: Proof)
    requires S.q > 0
  {
    Checks(S.q, 1, pub, ClientChallenge(S, pub, p.a, pid, nonceC, ephC), p)
  }

  function ProveServer(S: Suite, sk: nat, r: nat, nonceS: seq<byte>, ephS: nat): (p: Proof)
    requires S.q > 0
    ensures Residues(S.q, p) && p.a == Mul(S.q, 1, r)
  {
    Respond(S.q, 1, sk, r, ServerChallenge(S, Mul(S.q, 1, sk), Mul(S.q, 1, r), nonceS, ephS))
  }

  predicate VerifyServer(S: Suite, pub: nat, nonceS: seq<byte>, ephS: nat, p: Proof)
    requires S.q > 0
  {
    Checks(S.q, 1, pub, ServerChallenge(S, pub, p.a, nonceS, ephS), p)
  }

  function ProveRerand(S: Suite, storedC: nat, cPrime: nat, delta: nat, r: nat, pid: seq<byte>, nonceC: seq<byte>, ephC: nat): (p: Proof)
    requires S.q > 0
    ensures Residues(S.q, p) && p.a == Mul(S.q, S.eta, r)
  {
    Respond(S.q, S.eta, delta, r, RerandChallenge(S, pid, nonceC, ephC, storedC, cPrime, Mul(S.q, S.eta, r)))
  }

  predicate VerifyRerand(S: Suite, storedC: nat, cPrime: nat, pid: seq<byte>, nonceC: seq<byte>, ephC: nat, p: Proof)
    requires S.q > 0
  {
    RoleSet.RerandHolds(S, storedC, cPrime, RerandChallenge(S, pid, nonceC, ephC, storedC, cPrime, p.a), p)
  }

  lemma ClientComplete(S: Suite, x: nat, r: nat, pid: seq<byte>, nonceC: seq<byte>, ephC: nat)
    requires S.q > 0
    ensures VerifyClient(S, Mul(S.q, 1, x), pid, nonceC, ephC, ProveClient(S, x, r, pid, nonceC, ephC))
  {
    SchnorrComplete(S.q, 1, x, r, ClientChallenge(S, Mul(S.q, 1, x), Mul(S.q, 1, r), pid, nonceC, ephC));
  }

  lemma ServerComplete(S: Suite, sk: nat, r: nat, nonceS: seq<byte>, ephS: nat)
    requires S.q > 0
    ensures VerifyServer(S, Mul(S.q, 1, sk), nonceS, ephS, ProveServer(S, sk, r, nonceS, ephS))
  {
    SchnorrComplete(S.q, 1, sk, r, ServerChallenge(S, Mul(S.q, 1, sk), Mul(S.q, 1, r), nonceS, ephS));
  }

  /** C' = C + h*delta is proved with the delta that made it. */
  lemma RerandComplete(S: Suite, storedC: nat, delta: nat, r: nat, pid: seq<byte>, nonceC: seq<byte>, ephC: nat)
    requires S.q > 0 && storedC < S.q
    ensures var cPrime := Add(S.q, storedC, Mul(S.q, S.eta, delta));
            VerifyRerand(S, storedC, cPrime, pid, nonceC, ephC, ProveRerand(S, storedC, cPrime, delta, r, pid, nonceC, ephC))
  {
    var hd := Mul(S.q, S.eta, delta);
    var cPrime := Add(S.q, storedC, hd);
    AddComm(S.q, storedC, hd);
    SubIff(S.q, hd, cPrime, storedC);
    SchnorrComplete(S.q, S.eta, delta, r, RerandChallenge(S, pid, nonceC, ephC, storedC, cPrime, Mul(S.q, S.eta, r)));
  }

  // ---- Commitments ----

  function Commit(S: Suite, role: nat, blind: nat): (c: nat)
    requires S.q > 0
    ensures c < S.q
  {
    Add(S.q, Mul(S.q, 1, role), Mul(S.q, S.eta, blind))
  }

  /** Rerandomizing a commitment commits to the same role under the shifted blinding. */
  lemma RerandomizeKeepsRole(S: Suite, role: nat, blind: nat, delta: nat)
    requires S.q > 0
    ensures Add(S.q, Commit(S, role, blind), Mul(S.q, S.eta, delta)) == Commit(S, role, Add(S.q, blind, delta))
  {
    Distribute(S.q, S.eta, blind, delta);
    AddAssoc(S.q, Mul(S.q, 1, role), Mul(S.q, S.eta, blind), Mul(S.q, S.eta, delta));
  }

  // ---- Identifiers and keys ----

  function PidInput(S: Suite, devicePub: nat, nonceC: seq<byte>, ephC: nat, serverPub: nat): seq<byte> {
    LE(15, 4) + Ascii("iot-auth/pid/v1") + (S.encode(devicePub) + (nonceC + S.encode(ephC) + S.encode(serverPub)))
  }

  function Pid(S: Suite, devicePub: nat, nonceC: seq<byte>, ephC: nat, serverPub: nat): seq<byte> {
    S.sha256(PidInput(S, devicePub, nonceC, ephC, serverPub))
  }

  function ReplayKey(S: Suite, pid: seq<byte>, nonceC: seq<byte>, ephC: nat): seq<byte> {
    S.sha256(Ascii("iot-auth/replay-key/v2") + pid + nonceC + S.encode(ephC))
  }

  function SessionKey(S: Suite, shared: nat, nonceC: seq<byte>, nonceS: seq<byte>, pid: seq<byte>, ephC: nat, ephS: nat): (k: seq<byte>)
    requires Valid(S)
    ensures |k| == 32
  {
    Hkdf.Expand(S.hmac, Hkdf.Extract(S.hmac, nonceC + nonceS, S.encode(shared)),
                Ascii("session key v2") + pid + S.encode(ephC) + S.encode(ephS), 32)
  }

  /** What both sides hash for key confirmation. */
  datatype Parts = Parts(pid: seq<byte>, cp: Proof, nonceC: seq<byte>, ephC: nat,
                         serverPub: nat, sp: Proof, nonceS: seq<byte>, ephS: nat)

  function KcFields(S: Suite, p: Parts): seq<Field> {
    [ Field(Ascii("pid"), p.pid), PointField(S, "a_c", p.cp.a), Field(Ascii("s_c"), LE(p.cp.s, 32)),
      Field(Ascii("nonce_c"), p.nonceC), PointField(S, "eph_c", p.ephC),
      PointField(S, "server_pub", p.serverPub), PointField(S, "a_s", p.sp.a), Field(Ascii("s_s"), LE(p.sp.s, 32)),
      Field(Ascii("nonce_s"), p.nonceS), PointField(S, "eph_s", p.ephS) ]
  }

  function KcFrame(S: Suite, p: Parts): seq<byte> {
    Frame(Ascii("kc_v2"), KcFields(S, p))
  }

  function KcHash(S: Suite, p: Parts): seq<byte> {
    S.sha256(KcFrame(S, p))
  }

  predicate ShapedParts(S: Suite, p: Parts) {
    && |p.pid| == |p.nonceC| == |p.nonceS| == 32
    && Residues(S.q, p.cp) && Residues(S.q, p.sp)
    && p.ephC < S.q && p.ephS < S.q && p.serverPub < S.q
  }

  /** The key-confirmation frame determines everything both sides negotiated. */
  lemma KcFrameBinds(S: Suite, p: Parts, r: Parts)
    requires Valid(S) && ShapedParts(S, p) && ShapedParts(S, r) && KcFrame(S, p) == KcFrame(S, r)
    ensures p == r
  {
    hide Frame, LE, Ascii, Prime, Pow256;
    var f, g := KcFields(S, p), KcFields(S, r);
    FramingInjective(Ascii("kc_v2"), f, Ascii("kc_v2"), g);
    SameMessages(S, p, r);
    EncodeInjective(S, p.cp.a, r.cp.a);
    EncodeInjective(S, p.ephC, r.ephC);
    EncodeInjective(S, p.serverPub, r.serverPub);
    EncodeInjective(S, p.sp.a, r.sp.a);
    EncodeInjective(S, p.ephS, r.ephS);
    LEInjective(p.cp.s, r.cp.s, 32);
    LEInjective(p.sp.s, r.sp.s, 32);
  }

  lemma SameMessages(S: Suite, p: Parts, r: Parts)
    requires KcFields(S, p) == KcFields(S, r)
    ensures p.pid == r.pid && S.encode(p.cp.a) == S.encode(r.cp.a) && LE(p.cp.s, 32) == LE(r.cp.s, 32)
    ensures p.nonceC == r.nonceC && S.encode(p.ephC) == S.encode(r.ephC)
    ensures S.encode(p.serverPub) == S.encode(r.serverPub) && S.encode(p.sp.a) == S.encode(r.sp.a)
    ensures LE(p.sp.s, 32) == LE(r.sp.s, 32) && p.nonceS == r.nonceS && S.encode(p.ephS) == S.encode(r.ephS)
  {
    hide LE, Ascii;
    var f, g := KcFields(S, p), KcFields(S, r);
    assert f[0].msg == g[0].msg && f[1].msg == g[1].msg && f[2].msg == g[2].msg && f[3].msg == g[3].msg;
    assert f[4].msg == g[4].msg && f[5].msg == g[5].msg && f[6].msg == g[6].msg && f[7].msg == g[7].msg;
    assert f[8].msg == g[8].msg && f[9].msg == g[9].msg;
  }

  datatype Confirmation = Confirmation(tagS: seq<byte>, tagC: seq<byte>)

  function KcKey(S: Suite, sessionKey: seq<byte>, th: seq<byte>, keyLabel: string): (k: seq<byte>)
    requires Valid(S)
  {
    Hkdf.Expand(S.hmac, Hkdf.Extract(S.hmac, th, sessionKey), Ascii(keyLabel), 32)
  }

  /** The two finished tags, each under its own direction's key. */
  function Confirm(S: Suite, sessionKey: seq<byte>, th: seq<byte>): (c: Confirmation)
    requires Valid(S)
    ensures |c.tagS| == 32 && |c.tagC| == 32
  {
    Confirmation(S.hmac(KcKey(S, sessionKey, th, "kc s2c"), Ascii("server finished") + th),
                 S.hmac(KcKey(S, sessionKey, th, "kc c2s"), Ascii("client finished") + th))
  }

  /** Diffie-Hellman in the exponent: both sides reach the same shared point. */
  lemma SharedAgrees(q: nat, x: nat, y: nat)
    requires q > 0
    ensures Mul(q, Mul(q, 1, y), x) == Mul(q, Mul(q, 1, x), y)
  {
    MulAssoc(q, 1, y, x);
    MulAssoc(q, 1, x, y);
    MulComm(q, x, y);
  }

  // ---- What pid binds ----

  /** Unless SHA-256 collides on the two inputs, equal pids mean equal device keys. */
  lemma PidBindsKey(S: Suite, p: nat, r: nat, nonceC: seq<byte>, ephC: nat, serverPub: nat)
    requires Valid(S) && p < S.q && r < S.q
    requires PidInput(S, p, nonceC, ephC, serverPub) == PidInput(S, r, nonceC, ephC, serverPub)
    ensures p == r
  {
    hide LE, Ascii;
    var head, tail := LE(15, 4) + Ascii("iot-auth/pid/v1"), nonceC + S.encode(ephC) + S.encode(serverPub);
    ConcatInjective(head, S.encode(p) + tail, head, S.encode(r) + tail);
    ConcatInjective(S.encode(p), tail, S.encode(r), tail);
    EncodeInjective(S, p, r);
  }
}
