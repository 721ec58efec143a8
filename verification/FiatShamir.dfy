/**
  The six Fiat-Shamir challenges as one family. Each is computed from a frame that determines
  the proof it belongs to, its statement and its commitments, so no two of them are tied.
*/
module FiatShamir {
  import opened Bytes
  import opened PrimeField
  import opened Transcript
  import opened Suite
  import opened AuthCrypto
  import ChallengeBinding
  import RoleSet
  import Setup

  /** A proof's public statement together with the commitments its challenge must cover. */
  datatype Statement =
    | Client(pub: nat, a: nat, pid: seq<byte>, nonceC: seq<byte>, ephC: nat)
    | Server(pub: nat, a: nat, nonceS: seq<byte>, ephS: nat)
    | Rerand(pid: seq<byte>, nonceC: seq<byte>, ephC: nat, storedC: nat, cPrime: nat, a: nat)
    | RoleSetOf(B: RoleSet.Binding, As: seq<nat>)
    | SetupClient(b: Setup.Binding, a: nat)
    | SetupServer(b: Setup.Binding, a: nat)

  predicate ShapedSetup(S: Suite, b: Setup.Binding) {
    && |b.deviceId| == |b.clientNonce| == |b.serverNonce| == 32 && |b.challenge| == 16
    && b.devicePub < S.q && b.serverPub < S.q
  }

  ghost predicate Shaped(S: Suite, s: Statement) {
    match s
    case Client(pub, a, pid, nonceC, ephC) => pub < S.q && a < S.q && ephC < S.q && |pid| == |nonceC| == 32
    case Server(pub, a, nonceS, ephS) => pub < S.q && a < S.q && ephS < S.q && |nonceS| == 32
    case Rerand(pid, nonceC, ephC, storedC, cPrime, a) =>
      ephC < S.q && storedC < S.q && cPrime < S.q && a < S.q && |pid| == |nonceC| == 32
    case RoleSetOf(B, As) => ChallengeBinding.Framed(S, B, As)
    case SetupClient(b, a) => ShapedSetup(S, b) && a < S.q
    case SetupServer(b, a) => ShapedSetup(S, b) && a < S.q
  }

  /** The challenge the provers and verifiers use. */
  function ChallengeOf(S: Suite, s: Statement): (c: nat)
    requires S.q > 0
    ensures c < S.q
  {
    match s
    case Client(pub, a, pid, nonceC, ephC) => ClientChallenge(S, pub, a, pid, nonceC, ephC)
    case Server(pub, a, nonceS, ephS) => ServerChallenge(S, pub, a, nonceS, ephS)
    case Rerand(pid, nonceC, ephC, storedC, cPrime, a) => RerandChallenge(S, pid, nonceC, ephC, storedC, cPrime, a)
    case RoleSetOf(B, As) => RoleSet.MasterChallenge(S, B, As)
    case SetupClient(b, a) => Setup.ClientSetupChallenge(S, b, a)
    case SetupServer(b, a) => Setup.ServerSetupChallenge(S, b, a)
  }

  // ---- The frames ----

  function DomainOf(s: Statement): (i: nat)
    ensures i < 6
  {
    match s
    case SetupClient(_, _) => 0
    case SetupServer(_, _) => 1
    case Server(_, _, _, _) => 2
    case Client(_, _, _, _, _) => 3
    case RoleSetOf(_, _) => 4
    case Rerand(_, _, _, _, _, _) => 5
  }

  function FieldsOf(S: Suite, s: Statement): seq<Field> {
    match s
    case Client(pub, a, pid, nonceC, ephC) => ClientFields(S, pub, a, pid, nonceC, ephC)
    case Server(pub, a, nonceS, ephS) => ServerFields(S, pub, a, nonceS, ephS)
    case Rerand(pid, nonceC, ephC, storedC, cPrime, a) => RerandFields(S, pid, nonceC, ephC, storedC, cPrime, a)
    case RoleSetOf(B, As) => RoleSet.RoleFields(S, B, As)
    case SetupClient(b, a) => Setup.SetupFields(S, "client", b, a)
    case SetupServer(b, a) => Setup.SetupFields(S, "server", b, a)
  }

  function FrameOf(S: Suite, s: Statement): seq<byte> {
    Frame(Ascii(ChallengeBinding.Domains()[DomainOf(s)]), FieldsOf(S, s))
  }

  /** The challenge hashes that frame, and the frame does not depend on the hash. */
  lemma ChallengeHashesFrame(S: Suite, s: Statement, h: seq<byte> -> nat)
    requires S.q > 0
    ensures ChallengeOf(S.(wideHash := h), s) == h(FrameOf(S, s)) % S.q
  {
    hide Frame, Ascii;
    var T := S.(wideHash := h);
    if s.RoleSetOf? {
      assert RoleSet.CommitmentList(T, s.As) == RoleSet.CommitmentList(S, s.As);
    }
    assert FieldsOf(T, s) == FieldsOf(S, s);
  }

  lemma FieldsEncodable(S: Suite, s: Statement)
    requires Valid(S) && Shaped(S, s)
    ensures AllEncodable(FieldsOf(S, s))
  {
    hide Ascii, Prime, RoleSet.RoleFields, ClientFields, ServerFields, RerandFields, Setup.SetupFields, Encodable;
    match s
    case Client(pub, a, pid, nonceC, ephC) => ClientEncodable(S, pub, a, pid, nonceC, ephC);
    case Server(pub, a, nonceS, ephS) => ServerEncodable(S, pub, a, nonceS, ephS);
    case Rerand(pid, nonceC, ephC, storedC, cPrime, a) => RerandEncodable(S, pid, nonceC, ephC, storedC, cPrime, a);
    case RoleSetOf(B, As) => ChallengeBinding.RoleFieldsEncodable(S, B, As);
    case SetupClient(b, a) => SetupEncodable(S, "client", b, a);
    case SetupServer(b, a) => SetupEncodable(S, "server", b, a);
  }

  lemma ClientEncodable(S: Suite, pub: nat, a: nat, pid: seq<byte>, nonceC: seq<byte>, ephC: nat)
    requires Valid(S) && Shaped(S, Client(pub, a, pid, nonceC, ephC))
    ensures AllEncodable(ClientFields(S, pub, a, pid, nonceC, ephC))
  {
    hide Ascii, Prime;
  }

  lemma ServerEncodable(S: Suite, pub: nat, a: nat, nonceS: seq<byte>, ephS: nat)
    requires Valid(S) && Shaped(S, Server(pub, a, nonceS, ephS))
    ensures AllEncodable(ServerFields(S, pub, a, nonceS, ephS))
  {
    hide Ascii, Prime;
  }

  lemma RerandEncodable(S: Suite, pid: seq<byte>, nonceC: seq<byte>, ephC: nat, storedC: nat, cPrime: nat, a: nat)
    requires Valid(S) && Shaped(S, Rerand(pid, nonceC, ephC, storedC, cPrime, a))
    ensures AllEncodable(RerandFields(S, pid, nonceC, ephC, storedC, cPrime, a))
  {
    hide Ascii, Prime;
  }

  lemma SetupEncodable(S: Suite, role: string, b: Setup.Binding, a: nat)
    requires Valid(S) && ShapedSetup(S, b) && a < S.q && |role| < 100
    ensures AllEncodable(Setup.SetupFields(S, role, b, a))
  {
    hide Ascii, Prime;
  }

  /** Equal frames: the same kind of proof, the same statement, the same commitments. */
  lemma FrameOfInjective(S: Suite, s: Statement, t: Statement)
    requires Valid(S) && Shaped(S, s) && Shaped(S, t) && FrameOf(S, s) == FrameOf(S, t)
    ensures s == t
  {
    hide Frame, FieldsOf, Ascii, Prime, ChallengeBinding.Domains, Shaped;
    FieldsEncodable(S, s);
    FieldsEncodable(S, t);
    var i, j := DomainOf(s), DomainOf(t);
    if i < j {
      ChallengeBinding.DomainsSeparate(i, FieldsOf(S, s), j, FieldsOf(S, t));
    } else if j < i {
      ChallengeBinding.DomainsSeparate(j, FieldsOf(S, t), i, FieldsOf(S, s));
    } else {
      DomainFits(i);
      FramingInjective(Ascii(ChallengeBinding.Domains()[i]), FieldsOf(S, s), Ascii(ChallengeBinding.Domains()[i]), FieldsOf(S, t));
      FieldsInjective(S, s, t);
    }
  }

  lemma DomainFits(i: nat)
    requires i < 7
    ensures |Ascii(ChallengeBinding.Domains()[i])| <= 255
  {
  }

  lemma FieldsInjective(S: Suite, s: Statement, t: Statement)
    requires Valid(S) && Shaped(S, s) && Shaped(S, t) && DomainOf(s) == DomainOf(t) && FieldsOf(S, s) == FieldsOf(S, t)
    ensures s == t
  {
    hide Frame, Ascii, Prime, RoleSet.RoleFields;
    match s
    case Client(pub, a, pid, nonceC, ephC) =>
      ChallengeBinding.ClientFrameBinds(S, pub, a, pid, nonceC, ephC, t.pub, t.a, t.pid, t.nonceC, t.ephC);
    case Rerand(pid, nonceC, ephC, storedC, cPrime, a) =>
      ChallengeBinding.RerandFrameBinds(S, pid, nonceC, ephC, storedC, cPrime, a, t.pid, t.nonceC, t.ephC, t.storedC, t.cPrime, t.a);
    case RoleSetOf(B, As) =>
      ChallengeBinding.RoleSetFrameBinds(S, B, As, t.B, t.As);
    case Server(pub, a, nonceS, ephS) =>
      var f, g := FieldsOf(S, s), FieldsOf(S, t);
      assert f[0].msg == g[0].msg && f[1].msg == g[1].msg && f[2].msg == g[2].msg && f[3].msg == g[3].msg;
      EncodeInjective(S, pub, t.pub);
      EncodeInjective(S, a, t.a);
      EncodeInjective(S, ephS, t.ephS);
    case SetupClient(b, a) => SetupFieldsBind(S, "client", b, a, t.b, t.a);
    case SetupServer(b, a) => SetupFieldsBind(S, "server", b, a, t.b, t.a);
  }

  lemma SetupFieldsBind(S: Suite, role: string, b: Setup.Binding, a: nat, b': Setup.Binding, a': nat)
    requires Valid(S) && ShapedSetup(S, b) && ShapedSetup(S, b') && a < S.q && a' < S.q
    requires Setup.SetupFields(S, role, b, a) == Setup.SetupFields(S, role, b', a')
    ensures b == b' && a == a'
  {
    hide Ascii, Prime;
    var f, g := Setup.SetupFields(S, role, b, a), Setup.SetupFields(S, role, b', a');
    assert f[1].msg == g[1].msg && f[2].msg == g[2].msg && f[3].msg == g[3].msg && f[4].msg == g[4].msg;
    assert f[5].msg == g[5].msg && f[6].msg == g[6].msg && f[7].msg == g[7].msg;
    EncodeInjective(S, b.devicePub, b'.devicePub);
    EncodeInjective(S, b.serverPub, b'.serverPub);
    EncodeInjective(S, a, a');
  }

  // ---- Separation ----

  /**
    No two challenges are tied. For any two different statements, of the same proof or of
    different ones, differing in a key, a commitment, a nonce or anything else, there is a hash
    under which their challenges differ: every challenge covers all of its statement.
  */
  lemma ChallengesSeparate(S: Suite, s: Statement, t: Statement) returns (h: seq<byte> -> nat)
    requires Valid(S) && Shaped(S, s) && Shaped(S, t) && s != t
    ensures ChallengeOf(S.(wideHash := h), s) != ChallengeOf(S.(wideHash := h), t)
  {
    var f, g, q := FrameOf(S, s), FrameOf(S, t), S.q;
    h := Telling(f);
    hide FrameOf, ChallengeOf, Shaped, Valid;
    if f == g { FrameOfInjective(S, s, t); }
    ChallengeHashesFrame(S, s, h);
    ChallengeHashesFrame(S, t, h);
    ZeroAndOne(q);
  }

  /** The hash that tells one frame from every other. */
  function Telling(f: seq<byte>): (h: seq<byte> -> nat)
    ensures h(f) == 0 && forall g: seq<byte> | g != f :: h(g) == 1
  {
    (b: seq<byte>) => if b == f then 0 else 1
  }

  lemma ZeroAndOne(q: nat)
    requires q > 1
    ensures 0 % q == 0 && 1 % q == 1
  {
  }
}
