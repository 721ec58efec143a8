/**
  The CDS-OR proof that a commitment C' hides one of the allowed roles. For each role r_i the
  statement is Y_i = C' - g*r_i; the prover knows b with Y_k = h*b for one index k, simulates
  the other branches, and splits the Fiat-Shamir challenge so that the branch challenges add up.
*/
module RoleSet {
  import opened Bytes
  import opened PrimeField
  import opened Transcript
  import opened Suite

  const MAX_ROLES: nat := 8

  datatype Branch = Branch(a: nat, c: nat, s: nat)

  datatype Binding = Binding(roles: seq<nat>, cPrime: nat, pid: seq<byte>, nonceC: seq<byte>, ephC: nat)

  ghost predicate Shaped(S: Suite, B: Binding) {
    && (forall i | 0 <= i < |B.roles| :: B.roles[i] < 0x1_0000_0000_0000_0000)
    && B.cPrime < S.q && B.ephC < S.q
    && |B.pid| == 32 && |B.nonceC| == 32
  }

  predicate AreResidues(q: nat, bs: seq<Branch>) {
    forall i | 0 <= i < |bs| :: bs[i].a < q && bs[i].c < q && bs[i].s < q
  }

  // ---- Statements, transcript and challenge ----

  function Statement(S: Suite, cPrime: nat, role: nat): (y: nat)
    requires S.q > 0
    ensures y < S.q
  {
    Sub(S.q, cPrime, Mul(S.q, 1, role))
  }

  function Decimal(i: nat): seq<byte> {
    if i < 10 then [48 + i] else Decimal(i / 10) + [48 + i % 10]
  }

  function RoleDomain(): seq<byte> {
    Ascii("client_role_set_v1")
  }

  function RoleField(roles: seq<nat>, i: nat): Field
    requires i < |roles|
  {
    Field(Ascii("r_") + Decimal(i), LE(roles[i], 8))
  }

  function CommitmentField(S: Suite, As: seq<nat>, i: nat): Field
    requires i < |As|
  {
    Field(Ascii("A_") + Decimal(i), S.encode(As[i]))
  }

  function HeadFields(S: Suite, B: Binding): (r: seq<Field>)
    ensures |r| == 4
  {
    [ Field(Ascii("pid"), B.pid), Field(Ascii("nonce_c"), B.nonceC),
      PointField(S, "eph_c", B.ephC), PointField(S, "c_prime", B.cPrime) ]
  }

  function RoleList(roles: seq<nat>): (r: seq<Field>)
    ensures |r| == |roles| && forall i | 0 <= i < |r| :: r[i] == RoleField(roles, i)
  {
    seq(|roles|, i requires 0 <= i < |roles| => RoleField(roles, i))
  }

  function CommitmentList(S: Suite, As: seq<nat>): (r: seq<Field>)
    ensures |r| == |As| && forall i | 0 <= i < |r| :: r[i] == CommitmentField(S, As, i)
  {
    seq(|As|, i requires 0 <= i < |As| => CommitmentField(S, As, i))
  }

  function RoleFields(S: Suite, B: Binding, As: seq<nat>): seq<Field> {
    HeadFields(S, B) + RoleList(B.roles) + CommitmentList(S, As)
  }

  function MasterChallenge(S: Suite, B: Binding, As: seq<nat>): (c: nat)
    requires S.q > 0
    ensures c < S.q
  {
    Challenge(S, RoleDomain(), RoleFields(S, B, As))
  }

  function Commitments(bs: seq<Branch>): (r: seq<nat>)
    ensures |r| == |bs|
  {
    seq(|bs|, i requires 0 <= i < |bs| => bs[i].a)
  }

  function Challenges(bs: seq<Branch>): (r: seq<nat>)
    ensures |r| == |bs|
  {
    seq(|bs|, i requires 0 <= i < |bs| => bs[i].c)
  }

  function SumMod(q: nat, cs: seq<nat>): (r: nat)
    requires q > 0
    ensures r < q
  {
    if cs == [] then 0 else Add(q, SumMod(q, cs[..|cs| - 1]), cs[|cs| - 1])
  }

  // ---- The verifier ----

  predicate BranchHolds(S: Suite, B: Binding, bs: seq<Branch>, i: nat)
    requires S.q > 0 && i < |bs| && i < |B.roles|
  {
    Checks(S.q, S.eta, Statement(S, B.cPrime, B.roles[i]), bs[i].c, Proof(bs[i].a, bs[i].s))
  }

  /** Acceptance against a given master challenge. */
  predicate AcceptsUnder(S: Suite, B: Binding, bs: seq<Branch>, master: nat)
    requires S.q > 0
  {
    && |bs| == |B.roles|
    && SumMod(S.q, Challenges(bs)) == master
    && forall i | 0 <= i < |bs| :: BranchHolds(S, B, bs, i)
  }

  predicate Accepts(S: Suite, B: Binding, bs: seq<Branch>)
    requires S.q > 0
  {
    AcceptsUnder(S, B, bs, MasterChallenge(S, B, Commitments(bs)))
  }

  // ---- The prover, as a function of its index, its blinding and its coins ----

  /** w for the true branch, and (c_j, s_j) for the others in index order. */
  datatype Coins = Coins(w: nat, sim: seq<(nat, nat)>)

  predicate CoinsShaped(q: nat, n: nat, coins: Coins) {
    && n > 0 && |coins.sim| == n - 1 && coins.w < q
    && forall j | 0 <= j < |coins.sim| :: coins.sim[j].0 < q && coins.sim[j].1 < q
  }

  /** Position of branch i among the simulated branches. */
  function Other(i: nat, k: nat): nat
    requires i != k
  {
    if i < k then i else i - 1
  }

  function ProverA(S: Suite, B: Binding, k: nat, coins: Coins, i: nat): (a: nat)
    requires S.q > 0 && k < |B.roles| && i < |B.roles| && |coins.sim| == |B.roles| - 1
    ensures a < S.q
  {
    if i == k then Mul(S.q, S.eta, coins.w)
    else
      var (c, s) := coins.sim[Other(i, k)];
      Sub(S.q, Mul(S.q, S.eta, s), Mul(S.q, Statement(S, B.cPrime, B.roles[i]), c))
  }

  function ProverAs(S: Suite, B: Binding, k: nat, coins: Coins): (r: seq<nat>)
    requires S.q > 0 && k < |B.roles| && |coins.sim| == |B.roles| - 1
    ensures |r| == |B.roles|
  {
    seq(|B.roles|, i requires 0 <= i < |B.roles| => ProverA(S, B, k, coins, i))
  }

  /** The simulated challenges, with 0 in the true position. */
  function SimulatedCs(n: nat, k: nat, coins: Coins): (r: seq<nat>)
    requires k < n && |coins.sim| == n - 1
    ensures |r| == n
  {
    seq(n, i requires 0 <= i < n => if i == k then 0 else coins.sim[Other(i, k)].0)
  }

  function TrueC(S: Suite, B: Binding, k: nat, coins: Coins): (c: nat)
    requires S.q > 0 && k < |B.roles| && |coins.sim| == |B.roles| - 1
    ensures c < S.q
  {
    Sub(S.q, MasterChallenge(S, B, ProverAs(S, B, k, coins)), SumMod(S.q, SimulatedCs(|B.roles|, k, coins)))
  }

  function ProverBranch(S: Suite, B: Binding, k: nat, blind: nat, coins: Coins, i: nat): Branch
    requires S.q > 0 && k < |B.roles| && i < |B.roles| && |coins.sim| == |B.roles| - 1
  {
    var a := ProverA(S, B, k, coins, i);
    if i == k then
      var c := TrueC(S, B, k, coins);
      Branch(a, c, Add(S.q, coins.w, Mul(S.q, c, blind)))
    else
      Branch(a, coins.sim[Other(i, k)].0, coins.sim[Other(i, k)].1)
  }

  function Prove(S: Suite, B: Binding, k: nat, blind: nat, coins: Coins): (r: seq<Branch>)
    requires S.q > 0 && k < |B.roles| && |coins.sim| == |B.roles| - 1
    ensures |r| == |B.roles|
  {
    seq(|B.roles|, i requires 0 <= i < |B.roles| => ProverBranch(S, B, k, blind, coins, i))
  }

  /** The prover looks its role up and uses the first index that carries it. */
  function FirstIndex(roles: seq<nat>, role: nat): (k: nat)
    ensures k <= |roles|
    ensures k < |roles| ==> roles[k] == role
    ensures forall i | 0 <= i < k :: roles[i] != role
  {
    if roles == [] then 0
    else if roles[0] == role then 0
    else 1 + FirstIndex(roles[1..], role)
  }

  // ---- Sums of challenges ----

  /** Replacing a zero summand by x adds x to the sum. */
  lemma {:induction false} SumUpdate(q: nat, cs: seq<nat>, k: nat, x: nat)
    requires q > 0 && k < |cs| && cs[k] == 0 && x < q
    ensures SumMod(q, cs[k := x]) == Add(q, SumMod(q, cs), x)
  {
    var m := |cs| - 1;
    var init, ds := cs[..m], cs[k := x];
    if k == m {
      assert ds[..m] == init;
      AddZero(q, SumMod(q, init));
    } else {
      SumUpdate(q, init, k, x);
      assert ds[..m] == init[k := x];
      AddAssoc(q, SumMod(q, init), x, cs[m]);
      AddComm(q, x, cs[m]);
      AddAssoc(q, SumMod(q, init), cs[m], x);
    }
  }

  lemma {:induction false} SumDiffers(q: nat, cs: seq<nat>, ds: seq<nat>)
    requires q > 0 && |cs| == |ds| && SumMod(q, cs) != SumMod(q, ds)
    ensures exists i :: 0 <= i < |cs| && cs[i] != ds[i]
  {
    if cs == ds {
      assert false;
    }
  }

  // ---- Completeness ----

  lemma ProverSumsToMaster(S: Suite, B: Binding, k: nat, blind: nat, coins: Coins)
    requires S.q > 0 && k < |B.roles| && CoinsShaped(S.q, |B.roles|, coins)
    ensures var bs := Prove(S, B, k, blind, coins);
            SumMod(S.q, Challenges(bs)) == MasterChallenge(S, B, Commitments(bs))
  {
    var bs, cs := Prove(S, B, k, blind, coins), SimulatedCs(|B.roles|, k, coins);
    var c, m := TrueC(S, B, k, coins), MasterChallenge(S, B, ProverAs(S, B, k, coins));
    assert Commitments(bs) == ProverAs(S, B, k, coins);
    assert Challenges(bs) == cs[k := c];
    SumUpdate(S.q, cs, k, c);
    AddComm(S.q, SumMod(S.q, cs), c);
    SubAdd(S.q, m, SumMod(S.q, cs));
  }

  lemma SimulatedBranchHolds(S: Suite, B: Binding, k: nat, blind: nat, coins: Coins, i: nat)
    requires S.q > 0 && k < |B.roles| && |coins.sim| == |B.roles| - 1 && i < |B.roles| && i != k
    ensures BranchHolds(S, B, Prove(S, B, k, blind, coins), i)
  {
    var (c, s) := coins.sim[Other(i, k)];
    SubAdd(S.q, Mul(S.q, S.eta, s), Mul(S.q, Statement(S, B.cPrime, B.roles[i]), c));
  }

  /**
    The verifier accepts the prover's branches exactly when the blinding opens the true
    statement, or the true branch happened to receive challenge zero.
  */
  lemma ProverAcceptedExactly(S: Suite, B: Binding, k: nat, blind: nat, coins: Coins)
    requires Prime(S.q) && k < |B.roles| && CoinsShaped(S.q, |B.roles|, coins)
    ensures Accepts(S, B, Prove(S, B, k, blind, coins))
       <==> Statement(S, B.cPrime, B.roles[k]) == Mul(S.q, S.eta, blind) || TrueC(S, B, k, coins) == 0
  {
    var bs, y, c := Prove(S, B, k, blind, coins), Statement(S, B.cPrime, B.roles[k]), TrueC(S, B, k, coins);
    ProverSumsToMaster(S, B, k, blind, coins);
    forall i | 0 <= i < |bs| && i != k ensures BranchHolds(S, B, bs, i) {
      SimulatedBranchHolds(S, B, k, blind, coins, i);
    }
    SchnorrExact(S.q, S.eta, blind, y, coins.w, c);
    assert BranchHolds(S, B, bs, k) <==> Checks(S.q, S.eta, y, c, Respond(S.q, S.eta, blind, coins.w, c));
  }

  /** An honest commitment g*role + h*blind opens the statement of its own role. */
  lemma HonestStatement(S: Suite, role: nat, blind: nat)
    requires S.q > 0
    ensures Statement(S, Add(S.q, Mul(S.q, 1, role), Mul(S.q, S.eta, blind)), role) == Mul(S.q, S.eta, blind)
  {
    AddComm(S.q, Mul(S.q, 1, role), Mul(S.q, S.eta, blind));
    SubAdd(S.q, Mul(S.q, S.eta, blind), Mul(S.q, 1, role));
  }

  /** Completeness, for every role list, index and choice of coins. */
  lemma RoleSetComplete(S: Suite, B: Binding, k: nat, blind: nat, coins: Coins)
    requires Prime(S.q) && k < |B.roles| && CoinsShaped(S.q, |B.roles|, coins)
    requires B.cPrime == Add(S.q, Mul(S.q, 1, B.roles[k]), Mul(S.q, S.eta, blind))
    ensures Accepts(S, B, Prove(S, B, k, blind, coins))
  {
    HonestStatement(S, B.roles[k], blind);
    ProverAcceptedExactly(S, B, k, blind, coins);
  }

  // ---- Witness independence ----

  /** The blinding that would open branch k: the discrete logarithm of Y_k to base h. */
  function BlindFor(S: Suite, B: Binding, k: nat): (b: nat)
    requires S.q > 0 && k < |B.roles|
    ensures b < S.q
  {
    Div(S.q, Statement(S, B.cPrime, B.roles[k]), S.eta)
  }

  lemma BlindForOpens(S: Suite, B: Binding, k: nat, b: nat)
    requires Prime(S.q) && 0 < S.eta < S.q && k < |B.roles| && b < S.q
    ensures Statement(S, B.cPrime, B.roles[k]) == Mul(S.q, S.eta, b) <==> b == BlindFor(S, B, k)
  {
    var y := Statement(S, B.cPrime, B.roles[k]);
    DivIsQuotient(S.q, y, S.eta);
    if Mul(S.q, S.eta, b) == y {
      MulCancel(S.q, S.eta, b, BlindFor(S, B, k));
    }
  }

  /** The coins with which a prover at index k produces the given branches. */
  function CoinsFor(S: Suite, bs: seq<Branch>, k: nat, b: nat): (coins: Coins)
    requires S.q > 0 && k < |bs|
    ensures |coins.sim| == |bs| - 1
  {
    Coins(Sub(S.q, bs[k].s, Mul(S.q, bs[k].c, b)),
          seq(|bs| - 1, j requires 0 <= j < |bs| - 1 =>
            if j < k then (bs[j].c, bs[j].s) else (bs[j + 1].c, bs[j + 1].s)))
  }

  lemma CoinsForA(S: Suite, B: Binding, bs: seq<Branch>, k: nat, b: nat, i: nat)
    requires Prime(S.q) && |bs| == |B.roles| && k < |bs| && i < |bs| && AreResidues(S.q, bs)
    requires BranchHolds(S, B, bs, i)
    requires Statement(S, B.cPrime, B.roles[k]) == Mul(S.q, S.eta, b)
    ensures ProverA(S, B, k, CoinsFor(S, bs, k, b), i) == bs[i].a
  {
    var q, y := S.q, Statement(S, B.cPrime, B.roles[i]);
    SubIff(q, bs[i].a, Mul(q, S.eta, bs[i].s), Mul(q, y, bs[i].c));
    if i == k {
      var w, cb := Sub(q, bs[k].s, Mul(q, bs[k].c, b)), Mul(q, bs[k].c, b);
      DistributeSub(q, S.eta, bs[k].s, cb);
      MulComm(q, bs[k].c, b);
      MulAssoc(q, S.eta, b, bs[k].c);
    }
  }

  lemma CoinsForAs(S: Suite, B: Binding, bs: seq<Branch>, k: nat, b: nat)
    requires Prime(S.q) && k < |bs| && AreResidues(S.q, bs) && Accepts(S, B, bs)
    requires Statement(S, B.cPrime, B.roles[k]) == Mul(S.q, S.eta, b)
    ensures ProverAs(S, B, k, CoinsFor(S, bs, k, b)) == Commitments(bs)
  {
    forall i | 0 <= i < |bs| ensures ProverA(S, B, k, CoinsFor(S, bs, k, b), i) == bs[i].a {
      assert BranchHolds(S, B, bs, i);
      CoinsForA(S, B, bs, k, b, i);
    }
  }

  lemma CoinsForC(S: Suite, B: Binding, bs: seq<Branch>, k: nat, b: nat)
    requires Prime(S.q) && k < |bs| && AreResidues(S.q, bs) && Accepts(S, B, bs)
    requires Statement(S, B.cPrime, B.roles[k]) == Mul(S.q, S.eta, b)
    ensures TrueC(S, B, k, CoinsFor(S, bs, k, b)) == bs[k].c
  {
    CoinsForAs(S, B, bs, k, b);
    var cs := SimulatedCs(|bs|, k, CoinsFor(S, bs, k, b));
    assert Challenges(bs) == cs[k := bs[k].c];
    SumUpdate(S.q, cs, k, bs[k].c);
    AddComm(S.q, SumMod(S.q, cs), bs[k].c);
    SubIff(S.q, bs[k].c, MasterChallenge(S, B, Commitments(bs)), SumMod(S.q, cs));
  }

  lemma AcceptsLength(S: Suite, B: Binding, bs: seq<Branch>)
    requires S.q > 0 && Accepts(S, B, bs)
    ensures |bs| == |B.roles|
  {
  }

  lemma CoinsForBranch(S: Suite, B: Binding, bs: seq<Branch>, k: nat, b: nat, i: nat)
    requires S.q > 0 && k < |bs| == |B.roles| && i < |bs| && AreResidues(S.q, bs)
    requires ProverA(S, B, k, CoinsFor(S, bs, k, b), i) == bs[i].a
    requires TrueC(S, B, k, CoinsFor(S, bs, k, b)) == bs[k].c
    ensures ProverBranch(S, B, k, b, CoinsFor(S, bs, k, b), i) == bs[i]
  {
    hide Mul, Add, Sub, ProverA, TrueC;
    SubAdd(S.q, bs[k].s, Mul(S.q, bs[k].c, b));
  }

  lemma CoinsForProduces(S: Suite, B: Binding, bs: seq<Branch>, k: nat, b: nat)
    requires Prime(S.q) && k < |bs| && AreResidues(S.q, bs) && Accepts(S, B, bs)
    requires Statement(S, B.cPrime, B.roles[k]) == Mul(S.q, S.eta, b)
    ensures CoinsShaped(S.q, |bs|, CoinsFor(S, bs, k, b))
    ensures Prove(S, B, k, b, CoinsFor(S, bs, k, b)) == bs
  {
    hide Mul, Add, Sub, Statement, ProverA, TrueC, MasterChallenge, ProverBranch, Accepts;
    var coins := CoinsFor(S, bs, k, b);
    AcceptsLength(S, B, bs);
    CoinsForAs(S, B, bs, k, b);
    CoinsForC(S, B, bs, k, b);
    forall i | 0 <= i < |bs| ensures ProverBranch(S, B, k, b, coins, i) == bs[i] {
      assert ProverA(S, B, k, coins, i) == ProverAs(S, B, k, coins)[i] == Commitments(bs)[i];
      CoinsForBranch(S, B, bs, k, b, i);
    }
  }

  lemma CoinsForUnique(S: Suite, B: Binding, bs: seq<Branch>, k: nat, b: nat, coins: Coins)
    requires S.q > 0 && k < |bs| == |B.roles| && CoinsShaped(S.q, |bs|, coins)
    requires Prove(S, B, k, b, coins) == bs
    ensures coins == CoinsFor(S, bs, k, b)
  {
    SubAdd(S.q, coins.w, Mul(S.q, bs[k].c, b));
    assert bs[k] == ProverBranch(S, B, k, b, coins, k);
    forall j | 0 <= j < |bs| - 1 ensures coins.sim[j] == CoinsFor(S, bs, k, b).sim[j] {
      var i := if j < k then j else j + 1;
      assert bs[i] == ProverBranch(S, B, k, b, coins, i);
    }
  }

  /**
    Witness independence: take any accepting proof and any index k. The blinding b_k with
    Y_k = h*b_k exists and is unique, and exactly one choice of coins makes the prover with
    true index k output this very proof. So the proof says nothing about which role is true.
  */
  lemma WitnessIndependence(S: Suite, B: Binding, bs: seq<Branch>, k: nat)
    requires Prime(S.q) && 0 < S.eta < S.q && AreResidues(S.q, bs) && Accepts(S, B, bs) && k < |bs|
    ensures var b := BlindFor(S, B, k);
            var coins := CoinsFor(S, bs, k, b);
            && (forall x: nat | x < S.q :: Statement(S, B.cPrime, B.roles[k]) == Mul(S.q, S.eta, x) <==> x == b)
            && CoinsShaped(S.q, |bs|, coins)
            && Prove(S, B, k, b, coins) == bs
            && (forall other: Coins | CoinsShaped(S.q, |bs|, other) && Prove(S, B, k, b, other) == bs ::
                  other == coins)
  {
    var b := BlindFor(S, B, k);
    forall x: nat | x < S.q
      ensures Statement(S, B.cPrime, B.roles[k]) == Mul(S.q, S.eta, x) <==> x == b
    {
      BlindForOpens(S, B, k, x);
    }
    CoinsForProduces(S, B, bs, k, b);
    forall other: Coins | CoinsShaped(S.q, |bs|, other) && Prove(S, B, k, b, other) == bs
      ensures other == CoinsFor(S, bs, k, b)
    {
      CoinsForUnique(S, B, bs, k, b, other);
    }
  }

  // ---- Extraction ----

  /** Two accepting answers for the same commitments disagree on some branch, which opens. */
  lemma RoleSetExtract(S: Suite, B: Binding, bs: seq<Branch>, m1: nat, ds: seq<Branch>, m2: nat)
    returns (i: nat, b: nat)
    requires Prime(S.q) && AreResidues(S.q, bs) && AreResidues(S.q, ds)
    requires Commitments(bs) == Commitments(ds) && m1 != m2
    requires AcceptsUnder(S, B, bs, m1) && AcceptsUnder(S, B, ds, m2)
    ensures i < |B.roles| && b < S.q && bs[i].c != ds[i].c
    ensures b == Extract(S.q, bs[i].c, bs[i].s, ds[i].c, ds[i].s)
    ensures Statement(S, B.cPrime, B.roles[i]) == Mul(S.q, S.eta, b)
  {
    SumDiffers(S.q, Challenges(bs), Challenges(ds));
    i :| 0 <= i < |bs| && Challenges(bs)[i] != Challenges(ds)[i];
    b := Extract(S.q, bs[i].c, bs[i].s, ds[i].c, ds[i].s);
    assert bs[i].a == Commitments(bs)[i] == Commitments(ds)[i] == ds[i].a;
    assert BranchHolds(S, B, bs, i) && BranchHolds(S, B, ds, i);
    SchnorrExtract(S.q, S.eta, Statement(S, B.cPrime, B.roles[i]),
                   bs[i].c, Proof(bs[i].a, bs[i].s), ds[i].c, Proof(ds[i].a, ds[i].s));
  }

  /** The rerandomization check h*s = a + (C' - C)*c, for a given challenge. */
  predicate RerandHolds(S: Suite, storedC: nat, cPrime: nat, c: nat, p: Proof)
    requires S.q > 0
  {
    Checks(S.q, S.eta, Sub(S.q, cPrime, storedC), c, p)
  }

  /** C' - g*r = h*b and C' - C = h*d give C = g*r + h*(b - d). */
  lemma OpenStored(S: Suite, storedC: nat, cPrime: nat, role: nat, b: nat, d: nat)
    requires S.q > 0 && storedC < S.q && cPrime < S.q && b < S.q
    requires Statement(S, cPrime, role) == Mul(S.q, S.eta, b)
    requires Sub(S.q, cPrime, storedC) == Mul(S.q, S.eta, d)
    ensures storedC == Add(S.q, Mul(S.q, 1, role), Mul(S.q, S.eta, Sub(S.q, b, d)))
  {
    var q, gr, hb, hd := S.q, Mul(S.q, 1, role), Mul(S.q, S.eta, b), Mul(S.q, S.eta, d);
    DistributeSub(q, S.eta, b, d);
    var hx := Sub(q, hb, hd);
    SubAdd(q, cPrime, gr);       // hb + gr == cPrime
    SubAdd(q, cPrime, storedC);  // hd + storedC == cPrime
    SubAdd(q, hb, hd);           // hx + hd == hb
    AddComm(q, hd, storedC);
    AddComm(q, hb, gr);
    AddAssoc(q, gr, hx, hd);
    AddCancel(q, storedC, Add(q, gr, hx), hd);
  }

  /**
    Extraction: two accepting role-set proofs with the same A_i under different master
    challenges, and two accepting rerandomization proofs with the same commitment under
    different challenges, yield an opening of the stored commitment to an allowed role.
  */
  lemma ExtractStoredRole(S: Suite, B: Binding, storedC: nat,
                          bs: seq<Branch>, m1: nat, ds: seq<Branch>, m2: nat,
                          e1: nat, p1: Proof, e2: nat, p2: Proof)
    returns (role: nat, blind: nat)
    requires Prime(S.q) && storedC < S.q && B.cPrime < S.q
    requires AreResidues(S.q, bs) && AreResidues(S.q, ds) && Residues(S.q, p1) && Residues(S.q, p2)
    requires Commitments(bs) == Commitments(ds) && m1 != m2
    requires AcceptsUnder(S, B, bs, m1) && AcceptsUnder(S, B, ds, m2)
    requires p1.a == p2.a && e1 < S.q && e2 < S.q && e1 != e2
    requires RerandHolds(S, storedC, B.cPrime, e1, p1) && RerandHolds(S, storedC, B.cPrime, e2, p2)
    ensures role in B.roles && blind < S.q
    ensures storedC == Add(S.q, Mul(S.q, 1, role), Mul(S.q, S.eta, blind))
  {
    var i, b := RoleSetExtract(S, B, bs, m1, ds, m2);
    var d := Extract(S.q, e1, p1.s, e2, p2.s);
    SchnorrExtract(S.q, S.eta, Sub(S.q, B.cPrime, storedC), e1, p1, e2, p2);
    OpenStored(S, storedC, B.cPrime, B.roles[i], b, d);
    role, blind := B.roles[i], Sub(S.q, b, d);
  }

  /** Binding: opening one commitment to two different roles computes log_g(h). */
  lemma TwoOpeningsGiveLog(S: Suite, commitment: nat, r1: nat, b1: nat, r2: nat, b2: nat)
    requires Prime(S.q) && S.q > 0x1_0000_0000_0000_0000 && S.eta < S.q
    requires r1 < 0x1_0000_0000_0000_0000 && r2 < 0x1_0000_0000_0000_0000 && r1 != r2
    requires b1 < S.q && b2 < S.q
    requires commitment == Add(S.q, Mul(S.q, 1, r1), Mul(S.q, S.eta, b1))
    requires commitment == Add(S.q, Mul(S.q, 1, r2), Mul(S.q, S.eta, b2))
    ensures b1 != b2
    ensures S.eta == Div(S.q, Sub(S.q, r1, r2), Sub(S.q, b2, b1))
  {
    var q := S.q;
    var h1, h2 := Mul(q, S.eta, b1), Mul(q, S.eta, b2);
    MulOne(q, r1);
    MulOne(q, r2);
    if b1 == b2 {
      AddCancel(q, r1, r2, h1);
    }
    // r1 - r2 == h2 - h1 == eta*(b2 - b1)
    SubIff(q, Sub(q, h2, h1), r1, r2);
    SubAdd(q, h2, h1);
    AddComm(q, Sub(q, h2, h1), h1);
    AddComm(q, Sub(q, h2, h1), r2);
    AddAssoc(q, r2, Sub(q, h2, h1), h1);
    AddCancel(q, r1, Add(q, r2, Sub(q, h2, h1)), h1);
    DistributeSub(q, S.eta, b2, b1);
    var dr, db := Sub(q, r1, r2), Sub(q, b2, b1);
    assert dr == Mul(q, S.eta, db);
    SubNonZero(q, b2, b1);
    DivIsQuotient(q, dr, db);
    MulComm(q, S.eta, db);
    MulCancel(q, db, S.eta, Div(q, dr, db));
  }
}
