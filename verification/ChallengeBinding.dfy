/**
  What the Fiat-Shamir transcripts commit to: each frame determines the statement and the
  commitments it was built from, and frames of different proofs never coincide. Also the
  soundness of an accepted AUTH_1 as a whole.
*/
module ChallengeBinding {
  import opened Bytes
  import opened Errors
  import opened PrimeField
  import opened Transcript
  import opened Suite
  import opened AuthCrypto
  import opened AuthExchange
  import TypedPayloads
  import RoleSet

  // ---- The frames ----

  function ClientFrame(S: Suite, pub: nat, a: nat, pid: seq<byte>, nonceC: seq<byte>, ephC: nat): seq<byte> {
    Frame(Ascii("client_schnorr_v2"), ClientFields(S, pub, a, pid, nonceC, ephC))
  }

  function RerandFrame(S: Suite, pid: seq<byte>, nonceC: seq<byte>, ephC: nat, storedC: nat, cPrime: nat, a: nat): seq<byte> {
    Frame(Ascii("client_role_rerand_v1"), RerandFields(S, pid, nonceC, ephC, storedC, cPrime, a))
  }

  function RoleSetFrame(S: Suite, B: RoleSet.Binding, As: seq<nat>): seq<byte> {
    Frame(RoleSet.RoleDomain(), RoleSet.RoleFields(S, B, As))
  }

  /** A client challenge is computed from exactly one (key, commitment, pid, nonce, ephemeral). */
  lemma ClientFrameBinds(S: Suite, pub: nat, a: nat, pid: seq<byte>, nonceC: seq<byte>, ephC: nat,
                         pub': nat, a': nat, pid': seq<byte>, nonceC': seq<byte>, ephC': nat)
    requires Valid(S) && pub < S.q && a < S.q && ephC < S.q && pub' < S.q && a' < S.q && ephC' < S.q
    requires |pid| == |nonceC| == |pid'| == |nonceC'| == 32
    requires ClientFrame(S, pub, a, pid, nonceC, ephC) == ClientFrame(S, pub', a', pid', nonceC', ephC')
    ensures (pub, a, pid, nonceC, ephC) == (pub', a', pid', nonceC', ephC')
  {
    hide Frame, Ascii, Prime;
    var f, g := ClientFields(S, pub, a, pid, nonceC, ephC), ClientFields(S, pub', a', pid', nonceC', ephC');
    FramingInjective(Ascii("client_schnorr_v2"), f, Ascii("client_schnorr_v2"), g);
    assert f[0].msg == g[0].msg && f[1].msg == g[1].msg && f[2].msg == g[2].msg && f[3].msg == g[3].msg && f[4].msg == g[4].msg;
    EncodeInjective(S, pub, pub');
    EncodeInjective(S, a, a');
    EncodeInjective(S, ephC, ephC');
  }

  /** A rerandomization challenge is computed from exactly one pair of commitments and session. */
  lemma RerandFrameBinds(S: Suite, pid: seq<byte>, nonceC: seq<byte>, ephC: nat, storedC: nat, cPrime: nat, a: nat,
                         pid': seq<byte>, nonceC': seq<byte>, ephC': nat, storedC': nat, cPrime': nat, a': nat)
    requires Valid(S) && ephC < S.q && storedC < S.q && cPrime < S.q && a < S.q
    requires ephC' < S.q && storedC' < S.q && cPrime' < S.q && a' < S.q
    requires |pid| == |nonceC| == |pid'| == |nonceC'| == 32
    requires RerandFrame(S, pid, nonceC, ephC, storedC, cPrime, a) == RerandFrame(S, pid', nonceC', ephC', storedC', cPrime', a')
    ensures (pid, nonceC, ephC, storedC, cPrime, a) == (pid', nonceC', ephC', storedC', cPrime', a')
  {
    hide Frame, Ascii, Prime;
    var f, g := RerandFields(S, pid, nonceC, ephC, storedC, cPrime, a), RerandFields(S, pid', nonceC', ephC', storedC', cPrime', a');
    FramingInjective(Ascii("client_role_rerand_v1"), f, Ascii("client_role_rerand_v1"), g);
    assert f[0].msg == g[0].msg && f[1].msg == g[1].msg && f[2].msg == g[2].msg;
    assert f[3].msg == g[3].msg && f[4].msg == g[4].msg && f[5].msg == g[5].msg;
    EncodeInjective(S, ephC, ephC');
    EncodeInjective(S, storedC, storedC');
    EncodeInjective(S, cPrime, cPrime');
    EncodeInjective(S, a, a');
  }

  // ---- The role-set frame ----

  lemma DecimalShort(i: nat)
    requires i < 0x1_0000
    ensures |RoleSet.Decimal(i)| <= 5
  {
    var d1, d2, d3 := i / 10, i / 100, i / 1000;
    assert d1 / 10 == d2 && d2 / 10 == d3 && d3 / 10 == i / 10000 < 10;
    assert |RoleSet.Decimal(d3 / 10)| == 1;
    assert |RoleSet.Decimal(d3)| <= 2 && |RoleSet.Decimal(d2)| <= 3 && |RoleSet.Decimal(d1)| <= 4;
  }

  ghost predicate Framed(S: Suite, B: RoleSet.Binding, As: seq<nat>) {
    && RoleSet.Shaped(S, B) && |B.roles| == |As| < 0x1_0000
    && forall i | 0 <= i < |As| :: As[i] < S.q
  }

  lemma RoleFieldsEncodable(S: Suite, B: RoleSet.Binding, As: seq<nat>)
    requires Valid(S) && Framed(S, B, As)
    ensures AllEncodable(RoleSet.RoleFields(S, B, As))
  {
    hide Ascii, LE, RoleSet.Decimal, Prime;
    var fields := RoleSet.RoleFields(S, B, As);
    forall i | 0 <= i < |fields| ensures Encodable(fields[i]) {
      if i >= 4 {
        var k := if i < 4 + |B.roles| then i - 4 else i - 4 - |B.roles|;
        DecimalShort(k);
      }
    }
  }

  lemma RoleFieldsAt(S: Suite, B: RoleSet.Binding, As: seq<nat>, i: nat)
    requires Framed(S, B, As) && i < |As|
    ensures |RoleSet.RoleFields(S, B, As)| == 4 + 2 * |As|
    ensures RoleSet.RoleFields(S, B, As)[4 + i].msg == LE(B.roles[i], 8)
    ensures RoleSet.RoleFields(S, B, As)[4 + |As| + i].msg == S.encode(As[i])
  {
  }

  lemma RoleHeadAt(S: Suite, B: RoleSet.Binding, As: seq<nat>)
    ensures var f := RoleSet.RoleFields(S, B, As);
            && |f| == 4 + |B.roles| + |As| && f[0].msg == B.pid && f[1].msg == B.nonceC
            && f[2].msg == S.encode(B.ephC) && f[3].msg == S.encode(B.cPrime)
  {
  }

  /** A master challenge is computed from exactly one role list, session, C' and list of A_i. */
  lemma RoleSetFrameBinds(S: Suite, B: RoleSet.Binding, As: seq<nat>, B': RoleSet.Binding, As': seq<nat>)
    requires Valid(S) && Framed(S, B, As) && Framed(S, B', As')
    requires RoleSetFrame(S, B, As) == RoleSetFrame(S, B', As')
    ensures B == B' && As == As'
  {
    hide Frame, Ascii, RoleSet.RoleFields, LE, Prime;
    RoleFieldsEncodable(S, B, As);
    RoleFieldsEncodable(S, B', As');
    FramingInjective(RoleSet.RoleDomain(), RoleSet.RoleFields(S, B, As), RoleSet.RoleDomain(), RoleSet.RoleFields(S, B', As'));
    RoleHeadAt(S, B, As);
    RoleHeadAt(S, B', As');
    EncodeInjective(S, B.ephC, B'.ephC);
    EncodeInjective(S, B.cPrime, B'.cPrime);
    forall i | 0 <= i < |As| ensures B.roles[i] == B'.roles[i] && As[i] == As'[i] {
      RoleFieldsAt(S, B, As, i);
      RoleFieldsAt(S, B', As', i);
      Pow256Values();
      LEInjective(B.roles[i], B'.roles[i], 8);
      EncodeInjective(S, As[i], As'[i]);
    }
    assert B.roles == B'.roles;
  }

  // ---- Domain separation ----

  function Domains(): (r: seq<string>)
    ensures |r| == 7
  {
    ["setup_client_schnorr_v1", "setup_server_schnorr_v1", "server_schnorr_v1", "client_schnorr_v2",
     "client_role_set_v1", "client_role_rerand_v1", "kc_v2"]
  }

  lemma DomainsDistinct(i: nat, j: nat)
    requires i < j < 7
    ensures |Domains()[i]| <= 255 && |Domains()[j]| <= 255
    ensures Ascii(Domains()[i]) != Ascii(Domains()[j])
  {
    var a, b := Ascii(Domains()[i]), Ascii(Domains()[j]);
    if |a| == |b| {
      assert a[0] != b[0] || a[6] != b[6];
    }
  }

  /** No transcript of one proof is ever a transcript of another. */
  lemma DomainsSeparate(i: nat, f: seq<Field>, j: nat, g: seq<Field>)
    requires i < j < 7 && AllEncodable(f) && AllEncodable(g)
    ensures Frame(Ascii(Domains()[i]), f) != Frame(Ascii(Domains()[j]), g)
  {
    hide Frame, Ascii, Domains;
    DomainsDistinct(i, j);
    if Frame(Ascii(Domains()[i]), f) == Frame(Ascii(Domains()[j]), g) {
      FramingInjective(Ascii(Domains()[i]), f, Ascii(Domains()[j]), g);
    }
  }

  // ---- Soundness of an accepted AUTH_1 ----

  /** The two messages agree in everything but the responses and the split of the challenge. */
  predicate SameCommitments(m: TypedPayloads.Auth1, n: TypedPayloads.Auth1) {
    && m.pid == n.pid && m.nonceC == n.nonceC && m.ephC == n.ephC && m.cPrime == n.cPrime
    && m.clientProof.a == n.clientProof.a && m.rerandProof.a == n.rerandProof.a
    && RoleSet.Commitments(m.branches) == RoleSet.Commitments(n.branches)
  }

  /** The two hash functions give different challenges on each of the message's transcripts. */
  ghost predicate Forked(S: Suite, S2: Suite, server: Server, d: Device, m: TypedPayloads.Auth1)
    requires S.q > 0 && S2.q > 0
  {
    var As := RoleSet.Commitments(m.branches);
    && ClientChallenge(S, d.pub, m.clientProof.a, m.pid, m.nonceC, m.ephC)
       != ClientChallenge(S2, d.pub, m.clientProof.a, m.pid, m.nonceC, m.ephC)
    && RerandChallenge(S, m.pid, m.nonceC, m.ephC, d.commitment, m.cPrime, m.rerandProof.a)
       != RerandChallenge(S2, m.pid, m.nonceC, m.ephC, d.commitment, m.cPrime, m.rerandProof.a)
    && RoleSet.MasterChallenge(S, BindingOf(server, m), As) != RoleSet.MasterChallenge(S2, BindingOf(server, m), As)
  }

  /**
    Special soundness of AUTH_1 under a reprogrammed hash: a device that answers two different
    challenges for the same commitments gives away its secret key and an opening of its
    enrolled role commitment to one of the allowed roles. So whoever is accepted knows both.
  */
  lemma AcceptedExtracts(S: Suite, hash2: seq<byte> -> nat, server: Server, d: Device,
                         m: TypedPayloads.Auth1, n: TypedPayloads.Auth1)
    returns (x: nat, role: nat, blind: nat)
    requires Valid(S) && d.pub < S.q && d.commitment < S.q
    requires TypedPayloads.Sendable(S, m) && TypedPayloads.Sendable(S, n) && SameCommitments(m, n)
    requires CheckProofs(S, server, d, m) == Ok && CheckProofs(S.(wideHash := hash2), server, d, n) == Ok
    requires Forked(S, S.(wideHash := hash2), server, d, m)
    ensures d.pub == Mul(S.q, 1, x)
    ensures role in server.allowed && blind < S.q && d.commitment == Commit(S, role, blind)
  {
    hide Challenge, ClientChallenge, RerandChallenge, RoleSet.MasterChallenge, Mul, Add, Sub;
    var S2, B, As := S.(wideHash := hash2), BindingOf(server, m), RoleSet.Commitments(m.branches);
    assert BindingOf(server, n) == B;
    var c1 := ClientChallenge(S, d.pub, m.clientProof.a, m.pid, m.nonceC, m.ephC);
    var c2 := ClientChallenge(S2, d.pub, m.clientProof.a, m.pid, m.nonceC, m.ephC);
    x := Extract(S.q, c1, m.clientProof.s, c2, n.clientProof.s);
    SchnorrExtract(S.q, 1, d.pub, c1, m.clientProof, c2, n.clientProof);
    var m1, m2 := RoleSet.MasterChallenge(S, B, As), RoleSet.MasterChallenge(S2, B, As);
    HashFree(S, S2, B, n.branches, m2);
    role, blind := RoleSet.ExtractStoredRole(S, B, d.commitment, m.branches, m1, n.branches, m2,
      RerandChallenge(S, m.pid, m.nonceC, m.ephC, d.commitment, m.cPrime, m.rerandProof.a), m.rerandProof,
      RerandChallenge(S2, m.pid, m.nonceC, m.ephC, d.commitment, m.cPrime, m.rerandProof.a), n.rerandProof);
  }

  /** Given the master challenge, acceptance of the branches does not depend on the hash. */
  lemma HashFree(S: Suite, S2: Suite, B: RoleSet.Binding, bs: seq<RoleSet.Branch>, master: nat)
    requires S.q > 0 && S2.q == S.q && S2.eta == S.eta
    ensures RoleSet.AcceptsUnder(S2, B, bs, master) ==> RoleSet.AcceptsUnder(S, B, bs, master)
  {
    hide Mul, Add, Sub;
    if RoleSet.AcceptsUnder(S2, B, bs, master) {
      forall i | 0 <= i < |bs| ensures RoleSet.BranchHolds(S, B, bs, i) {
        assert RoleSet.BranchHolds(S2, B, bs, i);
      }
    }
  }
}
