/**
  AUTH_1 as a whole hides the role: whatever message the server accepts for a device, every
  allowed role has exactly one credential for the same enrolled key and commitment, and exactly
  one choice of randomness, with which the client sends that very message.
*/
module RoleHiding {
  import opened Errors
  import opened PrimeField
  import opened Suite
  import opened AuthCrypto
  import opened AuthExchange
  import TypedPayloads
  import RoleSet

  // ---- Inverting one Schnorr answer ----

  /** The randomness behind an accepted answer of a prover who knows x. */
  function Nonce(q: nat, x: nat, c: nat, p: Proof): (r: nat)
    requires q > 0
    ensures r < q
  {
    Sub(q, p.s, Mul(q, c, x))
  }

  lemma RespondInverts(q: nat, base: nat, x: nat, c: nat, p: Proof)
    requires q > 0 && Residues(q, p) && Checks(q, base, Mul(q, base, x), c, p)
    ensures var r := Nonce(q, x, c, p);
            Mul(q, base, r) == p.a && Respond(q, base, x, r, c) == p
  {
    var X, cx, r := Mul(q, base, x), Mul(q, c, x), Nonce(q, x, c, p);
    DistributeSub(q, base, p.s, cx);
    MulComm(q, c, x);
    MulAssoc(q, base, x, c);
    SubIff(q, p.a, Mul(q, base, p.s), Mul(q, X, c));
    SubAdd(q, p.s, cx);
  }

  // ---- The credential and the draw for role k ----

  predicate FirstAt(allowed: seq<nat>, k: nat) {
    k < |allowed| && RoleSet.FirstIndex(allowed, allowed[k]) == k
  }

  /** What the server has accepted: a message that verifies against an enrolled device. */
  ghost predicate AcceptedFor(S: Suite, server: Server, d: Device, m: TypedPayloads.Auth1) {
    && Valid(S) && d.pub < S.q && d.commitment < S.q && TypedPayloads.Sendable(S, m)
    && (forall i | 0 <= i < |server.allowed| :: server.allowed[i] < 0x1_0000_0000_0000_0000)
    && MatchesPid(S, ServerPub(S, server), d, m) && CheckProofs(S, server, d, m) == Ok
  }

  function Delta(S: Suite, d: Device, m: TypedPayloads.Auth1): (x: nat)
    requires S.q > 0
    ensures x < S.q
  {
    Div(S.q, Sub(S.q, m.cPrime, d.commitment), S.eta)
  }

  function NewBlind(S: Suite, server: Server, m: TypedPayloads.Auth1, k: nat): (b: nat)
    requires S.q > 0 && k < |server.allowed|
    ensures b < S.q
  {
    RoleSet.BlindFor(S, BindingOf(server, m), k)
  }

  function CredFor(S: Suite, server: Server, d: Device, m: TypedPayloads.Auth1, k: nat): Credential
    requires S.q > 0 && k < |server.allowed|
  {
    Credential(d.pub, server.allowed[k], Sub(S.q, NewBlind(S, server, m, k), Delta(S, d, m)), d.commitment,
               ServerPub(S, server), server.allowed)
  }

  function ClientC(S: Suite, d: Device, m: TypedPayloads.Auth1): (c: nat)
    requires S.q > 0
    ensures c < S.q
  {
    ClientChallenge(S, d.pub, m.clientProof.a, m.pid, m.nonceC, m.ephC)
  }

  function RerandC(S: Suite, d: Device, m: TypedPayloads.Auth1): (c: nat)
    requires S.q > 0
    ensures c < S.q
  {
    RerandChallenge(S, m.pid, m.nonceC, m.ephC, d.commitment, m.cPrime, m.rerandProof.a)
  }

  function DrawFor(S: Suite, server: Server, d: Device, m: TypedPayloads.Auth1, k: nat): ClientDraw
    requires S.q > 0 && k < |server.allowed| && k < |m.branches|
  {
    ClientDraw(m.nonceC, m.ephC, Nonce(S.q, d.pub, ClientC(S, d, m), m.clientProof), Delta(S, d, m),
               Nonce(S.q, Delta(S, d, m), RerandC(S, d, m), m.rerandProof),
               RoleSet.CoinsFor(S, m.branches, k, NewBlind(S, server, m, k)))
  }

  // ---- Existence ----

  /** C' - C = h*delta, and C' = C + h*delta. */
  lemma DeltaShifts(S: Suite, d: Device, m: TypedPayloads.Auth1)
    requires Valid(S) && d.commitment < S.q && m.cPrime < S.q
    ensures Sub(S.q, m.cPrime, d.commitment) == Mul(S.q, S.eta, Delta(S, d, m))
    ensures Add(S.q, d.commitment, Mul(S.q, S.eta, Delta(S, d, m))) == m.cPrime
  {
    DivIsQuotient(S.q, Sub(S.q, m.cPrime, d.commitment), S.eta);
    SubAdd(S.q, m.cPrime, d.commitment);
    AddComm(S.q, d.commitment, Sub(S.q, m.cPrime, d.commitment));
  }

  /** The two Schnorr proofs of the message are the ones the constructed client makes. */
  lemma SameProofs(S: Suite, server: Server, d: Device, m: TypedPayloads.Auth1, k: nat)
    requires AcceptedFor(S, server, d, m) && k < |server.allowed| && k < |m.branches|
    ensures var w := DrawFor(S, server, d, m, k);
            && ProveClient(S, d.pub, w.rClient, m.pid, m.nonceC, m.ephC) == m.clientProof
            && ProveRerand(S, d.commitment, m.cPrime, w.delta, w.rRerand, m.pid, m.nonceC, m.ephC) == m.rerandProof
  {
    hide ClientChallenge, RerandChallenge, RoleSet.Accepts, Mul, Add, Sub, RoleSet.CoinsFor, NewBlind, MatchesPid, Delta;
    MulOne(S.q, d.pub);
    MulComm(S.q, d.pub, 1);
    DeltaShifts(S, d, m);
    RespondInverts(S.q, 1, d.pub, ClientC(S, d, m), m.clientProof);
    RespondInverts(S.q, S.eta, Delta(S, d, m), RerandC(S, d, m), m.rerandProof);
  }

  /** The credential opens the enrolled commitment to role k, and its branches are the message's. */
  lemma SameBranches(S: Suite, server: Server, d: Device, m: TypedPayloads.Auth1, k: nat)
    requires AcceptedFor(S, server, d, m) && FirstAt(server.allowed, k)
    ensures |m.branches| == |server.allowed|
    ensures var cred, w := CredFor(S, server, d, m, k), DrawFor(S, server, d, m, k);
            && Enrolled(S, cred) && Drawn(S, cred, w)
            && Add(S.q, cred.blind, w.delta) == NewBlind(S, server, m, k)
            && RoleSet.Prove(S, BindingOf(server, m), k, NewBlind(S, server, m, k), w.coins) == m.branches
  {
    hide Mul, Add, Sub, RoleSet.MasterChallenge, RoleSet.Prove, VerifyClient, VerifyRerand, MatchesPid, Nonce, Delta, NewBlind,
         RoleSet.BranchHolds, RoleSet.Statement;
    var B, b := BindingOf(server, m), NewBlind(S, server, m, k);
    RoleSet.AcceptsLength(S, B, m.branches);
    IndependentAt(S, server, m, k);
    DeltaShifts(S, d, m);
    SubAdd(S.q, b, Delta(S, d, m));
    RoleSet.OpenStored(S, d.commitment, m.cPrime, server.allowed[k], b, Delta(S, d, m));
  }

  lemma IndependentAt(S: Suite, server: Server, m: TypedPayloads.Auth1, k: nat)
    requires Valid(S) && TypedPayloads.Sendable(S, m) && RoleSet.Accepts(S, BindingOf(server, m), m.branches)
    requires k < |server.allowed| == |m.branches|
    ensures var B, b := BindingOf(server, m), NewBlind(S, server, m, k);
            && RoleSet.Statement(S, B.cPrime, B.roles[k]) == Mul(S.q, S.eta, b)
            && RoleSet.CoinsShaped(S.q, |m.branches|, RoleSet.CoinsFor(S, m.branches, k, b))
            && RoleSet.Prove(S, B, k, b, RoleSet.CoinsFor(S, m.branches, k, b)) == m.branches
  {
    hide RoleSet.Accepts, RoleSet.Prove, RoleSet.Statement, RoleSet.CoinsFor, Mul, Prime;
    RoleSet.WitnessIndependence(S, BindingOf(server, m), m.branches, k);
  }

  /** A client with role k and this randomness sends this very message. */
  lemma ClientCouldHaveSent(S: Suite, server: Server, d: Device, m: TypedPayloads.Auth1, k: nat)
    requires AcceptedFor(S, server, d, m) && FirstAt(server.allowed, k)
    ensures |m.branches| == |server.allowed|
    ensures var cred, w := CredFor(S, server, d, m, k), DrawFor(S, server, d, m, k);
            Enrolled(S, cred) && Drawn(S, cred, w) && ClientAuth1(S, cred, w) == m
  {
    hide Mul, Add, Sub, PidInput, RoleSet.Prove, ProveClient, ProveRerand, CheckProofs, Nonce, Delta, NewBlind, RoleSet.CoinsFor,
         Prime;
    SameBranches(S, server, d, m, k);
    SameProofs(S, server, d, m, k);
    DeltaShifts(S, d, m);
    MulOne(S.q, d.pub);
    MulComm(S.q, d.pub, 1);
    MulOne(S.q, m.ephC);
    MulComm(S.q, m.ephC, 1);
  }

  // ---- Uniqueness ----

  /** A consistent client of the given device, with canonical scalars. */
  ghost predicate ClientOf(S: Suite, server: Server, d: Device, k: nat, cred: Credential, w: ClientDraw) {
    && Enrolled(S, cred) && Drawn(S, cred, w) && FirstAt(server.allowed, k)
    && cred.allowed == server.allowed && cred.role == server.allowed[k] && cred.serverPub == ServerPub(S, server)
    && cred.commitment == d.commitment && Mul(S.q, 1, cred.x) == d.pub
    && cred.x < S.q && cred.blind < S.q
    && w.ephSecret < S.q && w.rClient < S.q && w.delta < S.q && w.rRerand < S.q
  }

  /** Multiplication by a nonzero base determines the scalar. */
  lemma SameScalar(q: nat, base: nat, x: nat, y: nat)
    requires Prime(q) && 0 < base < q && x < q && y < q && Mul(q, base, x) == Mul(q, base, y)
    ensures x == y
  {
    MulCancel(q, base, x, y);
  }

  /** Two clients of one device and role that send the same message are the same client. */
  lemma SenderUnique(S: Suite, server: Server, d: Device, k: nat, cred: Credential, w: ClientDraw, cred': Credential, w': ClientDraw)
    requires Valid(S) && ClientOf(S, server, d, k, cred, w) && ClientOf(S, server, d, k, cred', w')
    requires ClientAuth1(S, cred, w) == ClientAuth1(S, cred', w')
    ensures cred == cred' && w == w'
  {
    hide Mul, Add, Sub, PidInput, RoleSet.Prove, ClientChallenge, RerandChallenge;
    var q, m := S.q, ClientAuth1(S, cred, w);
    SameScalar(q, 1, cred.x, cred'.x);
    SameScalar(q, 1, w.ephSecret, w'.ephSecret);
    SameScalar(q, 1, w.rClient, w'.rClient);
    SameScalar(q, S.eta, w.rRerand, w'.rRerand);
    SameSummand(q, d.commitment, Mul(q, S.eta, w.delta), Mul(q, S.eta, w'.delta));
    SameScalar(q, S.eta, w.delta, w'.delta);
    SameSummand(q, Mul(q, 1, cred.role), Mul(q, S.eta, cred.blind), Mul(q, S.eta, cred'.blind));
    SameScalar(q, S.eta, cred.blind, cred'.blind);
    SameCoins(S, ClientBinding(S, cred, w), k, Add(q, cred.blind, w.delta), w.coins, w'.coins, m.branches);
  }

  lemma SameSummand(q: nat, a: nat, x: nat, y: nat)
    requires q > 0 && x < q && y < q && Add(q, a, x) == Add(q, a, y)
    ensures x == y
  {
    AddComm(q, a, x);
    AddComm(q, a, y);
    AddCancel(q, x, y, a);
  }

  lemma SameCoins(S: Suite, B: RoleSet.Binding, k: nat, b: nat, coins: RoleSet.Coins, coins': RoleSet.Coins, bs: seq<RoleSet.Branch>)
    requires S.q > 0 && k < |B.roles| == |bs| && RoleSet.CoinsShaped(S.q, |bs|, coins) && RoleSet.CoinsShaped(S.q, |bs|, coins')
    requires RoleSet.Prove(S, B, k, b, coins) == bs && RoleSet.Prove(S, B, k, b, coins') == bs
    ensures coins == coins'
  {
    hide RoleSet.Prove;
    RoleSet.CoinsForUnique(S, B, bs, k, b, coins);
    RoleSet.CoinsForUnique(S, B, bs, k, b, coins');
  }

  lemma ConstructedClient(S: Suite, server: Server, d: Device, m: TypedPayloads.Auth1, k: nat)
    requires AcceptedFor(S, server, d, m) && FirstAt(server.allowed, k)
    ensures |m.branches| == |server.allowed|
    ensures ClientOf(S, server, d, k, CredFor(S, server, d, m, k), DrawFor(S, server, d, m, k))
  {
    hide Mul, Add, Sub, CheckProofs, MatchesPid, Nonce, Delta, NewBlind, RoleSet.CoinsFor, RoleSet.Prove, Prime, Enrolled, Drawn;
    SameBranches(S, server, d, m, k);
    MulOne(S.q, d.pub);
    MulComm(S.q, d.pub, 1);
  }

  /**
    The role is hidden: for every accepted message and every allowed role (at its first index
    k), there is exactly one client of this device with that role, credential and randomness,
    that sends the message. So the whole of AUTH_1 says nothing about which role it is.
  */
  lemma Auth1HidesRole(S: Suite, server: Server, d: Device, m: TypedPayloads.Auth1, k: nat)
    requires AcceptedFor(S, server, d, m) && FirstAt(server.allowed, k)
    ensures |m.branches| == |server.allowed|
    ensures var cred, w := CredFor(S, server, d, m, k), DrawFor(S, server, d, m, k);
            && ClientOf(S, server, d, k, cred, w) && ClientAuth1(S, cred, w) == m
            && (forall cred', w' | ClientOf(S, server, d, k, cred', w') && ClientAuth1(S, cred', w') == m ::
                  cred' == cred && w' == w)
  {
    AcceptedIsValid(S, server, d, m);
    hide AcceptedFor, CredFor, DrawFor, ClientAuth1, ServerPub;
    ClientCouldHaveSent(S, server, d, m, k);
    ConstructedClient(S, server, d, m, k);
    var cred, w := CredFor(S, server, d, m, k), DrawFor(S, server, d, m, k);
    forall cred', w' | ClientOf(S, server, d, k, cred', w') && ClientAuth1(S, cred', w') == m
      ensures cred' == cred && w' == w
    {
      SenderUnique(S, server, d, k, cred', w', cred, w);
    }
  }

  lemma AcceptedIsValid(S: Suite, server: Server, d: Device, m: TypedPayloads.Auth1)
    requires AcceptedFor(S, server, d, m)
    ensures Valid(S)
  {
  }
}
