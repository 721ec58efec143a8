/**
  Soundness of the remaining proofs, under a reprogrammed hash: whoever answers two different
  challenges for one commitment knows the secret key behind the statement.
*/
module Soundness {
  import opened Bytes
  import opened Errors
  import opened PrimeField
  import opened Suite
  import opened AuthCrypto
  import opened AuthExchange
  import opened Setup
  import TypedPayloads
  import ClientLane

  /** The suite with another Fiat-Shamir hash. */
  function Rehash(S: Suite, hash: seq<byte> -> nat): (T: Suite)
    ensures T.q == S.q && T.eta == S.eta && T.encode == S.encode && T.decode == S.decode
    ensures Valid(S) ==> Valid(T)
  {
    S.(wideHash := hash)
  }

  /** Two server identity proofs for one session give away the server's secret key. */
  lemma ServerExtracts(S: Suite, hash: seq<byte> -> nat, pub: nat, nonceS: seq<byte>, ephS: nat, p: Proof, r: Proof)
    returns (sk: nat)
    requires Valid(S) && pub < S.q && Residues(S.q, p) && Residues(S.q, r) && p.a == r.a
    requires VerifyServer(S, pub, nonceS, ephS, p) && VerifyServer(Rehash(S, hash), pub, nonceS, ephS, r)
    requires ServerChallenge(S, pub, p.a, nonceS, ephS) != ServerChallenge(Rehash(S, hash), pub, p.a, nonceS, ephS)
    ensures pub == Mul(S.q, 1, sk)
  {
    hide Mul, Add, ServerChallenge;
    var c, e := ServerChallenge(S, pub, p.a, nonceS, ephS), ServerChallenge(Rehash(S, hash), pub, p.a, nonceS, ephS);
    sk := Extract(S.q, c, p.s, e, r.s);
    SchnorrExtract(S.q, 1, pub, c, p, e, r);
  }

  /** What a device that accepts AUTH_2 has checked, whatever it was sent. */
  lemma AcceptedAuth2(S: Suite, cred: Credential, d: ClientDraw, payload: seq<byte>)
    requires Valid(S) && Enrolled(S, cred) && Drawn(S, cred, d) && cred.serverPub < S.q
    requires ClientFinish(S, cred, d, payload).Accept?
    ensures TypedPayloads.DecodeAuth2(S, payload).Accept?
    ensures var a2 := TypedPayloads.DecodeAuth2(S, payload).value;
            && TypedPayloads.Sendable2(S, a2) && a2.serverPub == cred.serverPub
            && VerifyServer(S, cred.serverPub, a2.nonceS, a2.ephS, a2.serverProof)
            && a2.tagS == Confirm(S, ClientSession(S, cred, d, a2), KcHash(S, ClientParts(S, cred, d, a2))).tagS
  {
    hide TypedPayloads.DecodeAuth2, TypedPayloads.EncodeAuth2, Confirm, ClientSession, KcHash, ClientParts, VerifyServer, Prime;
    var a2 := TypedPayloads.DecodeAuth2(S, payload).value;
    TypedPayloads.DecodeAuth2Exact(S, payload, a2);
    EncodeInjective(S, a2.serverPub, cred.serverPub);
  }

  /**
    Soundness of AUTH_2: whoever makes a device accept for one commitment, nonce and ephemeral
    under two different challenges knows the secret behind the server key the device has pinned.
  */
  lemma Auth2Extracts(S: Suite, hash: seq<byte> -> nat, cred: Credential, d: ClientDraw, one: seq<byte>, two: seq<byte>)
    returns (sk: nat)
    requires Valid(S) && Enrolled(S, cred) && Drawn(S, cred, d) && cred.serverPub < S.q
    requires ClientFinish(S, cred, d, one).Accept? && ClientFinish(Rehash(S, hash), cred, d, two).Accept?
    requires TypedPayloads.DecodeAuth2(S, one).Accept? && TypedPayloads.DecodeAuth2(S, two).Accept? ==>
      Forked2(S, hash, cred.serverPub, TypedPayloads.DecodeAuth2(S, one).value, TypedPayloads.DecodeAuth2(S, two).value)
    ensures cred.serverPub == Mul(S.q, 1, sk)
  {
    hide ClientFinish, TypedPayloads.DecodeAuth2, VerifyServer, ServerChallenge, Mul, Prime, Confirm, KcHash, ClientSession, ClientParts;
    var T := Rehash(S, hash);
    AcceptedAuth2(S, cred, d, one);
    AcceptedAuth2(T, cred, d, two);
    SameDecoding(S, T, two);
    var a, b := TypedPayloads.DecodeAuth2(S, one).value, TypedPayloads.DecodeAuth2(S, two).value;
    sk := ServerExtracts(S, hash, cred.serverPub, a.nonceS, a.ephS, a.serverProof, b.serverProof);
  }

  /** The same commitment, nonce and ephemeral, and two different challenges for them. */
  ghost predicate Forked2(S: Suite, hash: seq<byte> -> nat, pub: nat, a: TypedPayloads.Auth2, b: TypedPayloads.Auth2)
    requires S.q > 0
  {
    && a.serverProof.a == b.serverProof.a && a.nonceS == b.nonceS && a.ephS == b.ephS
    && ServerChallenge(S, pub, a.serverProof.a, a.nonceS, a.ephS)
       != ServerChallenge(Rehash(S, hash), pub, a.serverProof.a, a.nonceS, a.ephS)
  }

  /** Decoding does not use the hash. */
  lemma SameDecoding(S: Suite, T: Suite, b: seq<byte>)
    requires T.q == S.q && T.decode == S.decode
    ensures TypedPayloads.DecodeAuth2(S, b) == TypedPayloads.DecodeAuth2(T, b)
  {
    hide TypedPayloads.TakePoint, TypedPayloads.TakeProof;
    SamePoint(S, T, b);
    if TypedPayloads.TakePoint(S, b).Accept? {
      var r1 := TypedPayloads.TakePoint(S, b).value.1;
      SameProof(S, T, r1);
      if TypedPayloads.TakeProof(S, r1).Accept? {
        var r2 := TypedPayloads.TakeProof(S, r1).value.1;
        if |r2| >= 32 { SamePoint(S, T, r2[32..]); }
      }
    }
  }

  lemma SamePoint(S: Suite, T: Suite, w: seq<byte>)
    requires T.q == S.q && T.decode == S.decode
    ensures TypedPayloads.TakePoint(S, w) == TypedPayloads.TakePoint(T, w)
  {
  }

  lemma SameProof(S: Suite, T: Suite, w: seq<byte>)
    requires T.q == S.q && T.decode == S.decode
    ensures TypedPayloads.TakeProof(S, w) == TypedPayloads.TakeProof(T, w)
  {
  }

  /** The C device checks the same: the pinned key, the server's proof and the tag. */
  lemma AcceptedAuth2InC(S: Suite, cred: Credential, d: ClientDraw, payload: seq<byte>)
    requires Valid(S) && Enrolled(S, cred) && Drawn(S, cred, d) && cred.serverPub < S.q
    requires ClientLane.CheckAuth2(S, cred, d, payload) == Ok
    ensures ClientLane.DecodeRaw2(payload).Accept?
    ensures var a2 := ClientLane.View2(S, ClientLane.DecodeRaw2(payload).value);
            && a2.serverPub == cred.serverPub && 0 < a2.ephS < S.q && Residues(S.q, a2.serverProof)
            && VerifyServer(S, cred.serverPub, a2.nonceS, a2.ephS, a2.serverProof)
            && a2.tagS == Confirm(S, ClientSession(S, cred, d, a2), KcHash(S, ClientParts(S, cred, d, a2))).tagS
  {
    hide Confirm, ClientSession, KcHash, ClientParts, ServerChallenge, Mul, Add, Prime;
    var r := ClientLane.DecodeRaw2(payload).value;
    assert S.decode(S.encode(cred.serverPub)) == Some(cred.serverPub);
  }

  // ---- Enrollment ----

  /** Two SETUP_3 proofs for one binding give away the device's secret key. */
  lemma SetupClientExtracts(S: Suite, hash: seq<byte> -> nat, b: Binding, p: Proof, r: Proof) returns (x: nat)
    requires Valid(S) && b.devicePub < S.q && Residues(S.q, p) && Residues(S.q, r) && p.a == r.a
    requires VerifySetupClient(S, b, p) && VerifySetupClient(Rehash(S, hash), b, r)
    requires ClientSetupChallenge(S, b, p.a) != ClientSetupChallenge(Rehash(S, hash), b, p.a)
    ensures b.devicePub == Mul(S.q, 1, x)
  {
    hide Mul, Add, ClientSetupChallenge;
    var c, e := ClientSetupChallenge(S, b, p.a), ClientSetupChallenge(Rehash(S, hash), b, p.a);
    x := Extract(S.q, c, p.s, e, r.s);
    SchnorrExtract(S.q, 1, b.devicePub, c, p, e, r);
  }

  lemma SetupServerExtracts(S: Suite, hash: seq<byte> -> nat, b: Binding, p: Proof, r: Proof) returns (sk: nat)
    requires Valid(S) && b.serverPub < S.q && Residues(S.q, p) && Residues(S.q, r) && p.a == r.a
    requires VerifySetupServer(S, b, p) && VerifySetupServer(Rehash(S, hash), b, r)
    requires ServerSetupChallenge(S, b, p.a) != ServerSetupChallenge(Rehash(S, hash), b, p.a)
    ensures b.serverPub == Mul(S.q, 1, sk)
  {
    hide Mul, Add, ServerSetupChallenge;
    var c, e := ServerSetupChallenge(S, b, p.a), ServerSetupChallenge(Rehash(S, hash), b, p.a);
    sk := Extract(S.q, c, p.s, e, r.s);
    SchnorrExtract(S.q, 1, b.serverPub, c, p, e, r);
  }

  /**
    Soundness of enrollment: whoever gets a pending record confirmed twice for one commitment,
    under different challenges, knows the secret of the key that is enrolled.
  */
  lemma EnrolledKeyIsKnown(S: Suite, hash: seq<byte> -> nat, pending: PendingSetup, serverPub: nat, one: seq<byte>, two: seq<byte>)
    returns (x: nat)
    requires Valid(S) && pending.devicePub < S.q
    requires CheckSetup3(S, pending, serverPub, one).Accept? && CheckSetup3(Rehash(S, hash), pending, serverPub, two).Accept?
    requires var p, r := CheckSetup3(S, pending, serverPub, one).value, CheckSetup3(Rehash(S, hash), pending, serverPub, two).value;
             var b := BindingFor(pending, serverPub);
             p.a == r.a && ClientSetupChallenge(S, b, p.a) != ClientSetupChallenge(Rehash(S, hash), b, p.a)
    ensures pending.devicePub == Mul(S.q, 1, x)
  {
    hide VerifySetupClient, ClientSetupChallenge, Mul, TypedPayloads.TakePoint, TypedPayloads.TakeScalar;
    var T := Rehash(S, hash);
    CheckedIsResidues(S, pending, serverPub, one);
    CheckedIsResidues(T, pending, serverPub, two);
    x := SetupClientExtracts(S, hash, BindingFor(pending, serverPub),
      CheckSetup3(S, pending, serverPub, one).value, CheckSetup3(T, pending, serverPub, two).value);
  }

  lemma CheckedIsResidues(S: Suite, pending: PendingSetup, serverPub: nat, b: seq<byte>)
    requires Valid(S) && CheckSetup3(S, pending, serverPub, b).Accept?
    ensures Residues(S.q, CheckSetup3(S, pending, serverPub, b).value)
    ensures VerifySetupClient(S, BindingFor(pending, serverPub), CheckSetup3(S, pending, serverPub, b).value)
  {
    hide VerifySetupClient, TypedPayloads.TakeProof, Prime;
    TypedPayloads.TakeProofDecoded(S, b);
  }

  /** What an enrolling client has checked when it goes on to SETUP_3. */
  lemma AcceptedSetup2(S: Suite, c: Enrollee, d: EnrolleeDraw, payload: seq<byte>)
    requires Valid(S) && SetupFinish(S, c, d, payload).Accept? && (c.pinned.Some? ==> c.pinned.value < S.q)
    ensures DecodeSetup2(S, payload).Accept?
    ensures var m, end := DecodeSetup2(S, payload).value, SetupFinish(S, c, d, payload).value;
            && SendableSetup2(S, m) && end.serverPub == m.serverPub && (c.pinned.Some? ==> m.serverPub == c.pinned.value)
            && VerifySetupServer(S, ClientBindingOf(S, c, d, m), m.proof)
            && VerifySetupClient(S, ClientBindingOf(S, c, d, m), end.proof)
  {
    hide DecodeSetup2, EncodeSetup2, VerifySetupServer, VerifySetupClient, ClientSetupChallenge, Mul, Prime;
    var m := DecodeSetup2(S, payload).value;
    DecodeSetup2Exact(S, payload, m);
    if c.pinned.Some? { EncodeInjective(S, c.pinned.value, m.serverPub); }
    ProvesOwnKey(S, c.x, d.r, ClientBindingOf(S, c, d, m));
  }

  lemma ProvesOwnKey(S: Suite, x: nat, r: nat, b: Binding)
    requires S.q > 0 && b.devicePub == Mul(S.q, 1, x)
    ensures VerifySetupClient(S, b, ProveSetupClient(S, x, r, b))
  {
    SchnorrComplete(S.q, 1, x, r, ClientSetupChallenge(S, b, Mul(S.q, 1, r)));
  }
}
