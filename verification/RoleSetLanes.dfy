/**
  The role-set prover and verifier as the two lanes run them: the C lane over caller arrays and
  a block of pre-drawn random bytes, with scalar multiplications that fail on an identity
  result, and the Rust lane over vectors and an RNG stream.
*/
module RoleSetLanes {
  import opened Bytes
  import opened Errors
  import opened PrimeField
  import opened Transcript
  import opened Suite
  import opened RoleSet

  // ---- C: group operations that can fail ----

  /** libsodium refuses an identity result. */
  function ScalarMult(q: nat, s: nat, p: nat): (r: Option<nat>)
    requires q > 0
    ensures r.Some? ==> r.value == Mul(q, p, s) != 0
    ensures r.None? ==> Mul(q, p, s) == 0
  {
    if Mul(q, p, s) == 0 then None else Some(Mul(q, p, s))
  }

  lemma ScalarMultFails(q: nat, s: nat, p: nat)
    requires Prime(q) && s < q && p < q
    ensures ScalarMult(q, s, p).None? <==> s == 0 || p == 0
  {
    NoZeroDivisors(q, p, s);
  }

  // ---- C: the randomness layout ----

  /** Where the bytes of branch i start: 128 per simulated branch, 64 for the true one. */
  function WideOffset(i: nat, k: nat): nat {
    if i <= k then 128 * i else 128 * i - 64
  }

  function RequiredBytes(n: nat): nat
    requires n > 0
  {
    64 + 2 * 64 * (n - 1)
  }

  lemma WideOffsetInside(i: nat, k: nat, n: nat)
    requires i < n && k < n
    ensures WideOffset(i, k) + (if i == k then 64 else 128) == WideOffset(i + 1, k) <= RequiredBytes(n)
    ensures WideOffset(n, k) == RequiredBytes(n)
  {
  }

  function WideScalar(q: nat, wide: seq<byte>, off: nat): (r: nat)
    requires q > 0 && off + 64 <= |wide|
    ensures r < q
  {
    FromWide(q, wide[off..off + 64])
  }

  function WidePair(q: nat, wide: seq<byte>, off: nat): (r: (nat, nat))
    requires q > 0 && off + 128 <= |wide|
    ensures r.0 < q && r.1 < q
  {
    (WideScalar(q, wide, off), WideScalar(q, wide, off + 64))
  }

  /** The branch whose bytes the j-th simulated pair is read from. */
  function SimBranch(j: nat, k: nat): (i: nat)
    ensures i != k
  {
    if j < k then j else j + 1
  }

  lemma SimInside(wide: seq<byte>, n: nat, k: nat, j: nat)
    requires k < n && j < n - 1 && |wide| >= RequiredBytes(n)
    ensures WideOffset(SimBranch(j, k), k) + 128 <= |wide|
  {
    WideOffsetInside(SimBranch(j, k), k, n);
  }

  function SimPair(q: nat, wide: seq<byte>, n: nat, k: nat, j: nat): (r: (nat, nat))
    requires q > 0 && k < n && j < n - 1 && |wide| >= RequiredBytes(n)
    ensures r.0 < q && r.1 < q
  {
    SimInside(wide, n, k, j);
    WidePair(q, wide, WideOffset(SimBranch(j, k), k))
  }

  /** The coins that a block of random bytes stands for. */
  function WideCoins(q: nat, wide: seq<byte>, n: nat, k: nat): (coins: Coins)
    requires q > 0 && k < n && |wide| >= RequiredBytes(n)
    ensures CoinsShaped(q, n, coins)
  {
    WideOffsetInside(k, k, n);
    Coins(WideScalar(q, wide, WideOffset(k, k)), seq(n - 1, j requires 0 <= j < n - 1 => SimPair(q, wide, n, k, j)))
  }

  /** The block a given choice of coins is read from: branch by branch, 64 bytes a scalar. */
  function BranchBytes(coins: Coins, k: nat, i: nat): (b: seq<byte>)
    requires i == k || Other(i, k) < |coins.sim|
    ensures |b| == if i == k then 64 else 128
  {
    if i == k then LE(coins.w, 64) else LE(coins.sim[Other(i, k)].0, 64) + LE(coins.sim[Other(i, k)].1, 64)
  }

  function BlockFor(coins: Coins, n: nat, k: nat): (b: seq<byte>)
    requires |coins.sim| + 1 >= n && k <= |coins.sim|
    ensures |b| == WideOffset(n, k)
  {
    if n == 0 then [] else BlockFor(coins, n - 1, k) + BranchBytes(coins, k, n - 1)
  }

  lemma {:induction false} BlockAt(coins: Coins, n: nat, k: nat, i: nat)
    requires |coins.sim| + 1 >= n && k <= |coins.sim| && i < n
    ensures WideOffset(i, k) <= WideOffset(i + 1, k) <= WideOffset(n, k)
    ensures BlockFor(coins, n, k)[WideOffset(i, k)..WideOffset(i + 1, k)] == BranchBytes(coins, k, i)
  {
    hide LE, BranchBytes;
    var rest, last := BlockFor(coins, n - 1, k), BranchBytes(coins, k, n - 1);
    if i < n - 1 {
      BlockAt(coins, n - 1, k, i);
      SliceOfPrefix(rest, last, WideOffset(i, k), WideOffset(i + 1, k));
    } else {
      SplitConcat(rest, last);
      assert (rest + last)[|rest|..|rest| + |last|] == (rest + last)[|rest|..];
    }
  }

  lemma SliceOfPrefix(a: seq<byte>, b: seq<byte>, i: nat, j: nat)
    requires i <= j <= |a|
    ensures (a + b)[i..j] == a[i..j]
  {
  }

  lemma ScalarFromBlock(S: Suite, s: nat)
    requires Valid(S) && s < S.q
    ensures FromWide(S.q, LE(s, 64)) == s
  {
    hide Prime, LE, FromLE, Pow256;
    Pow256Grows(32, 64);
    LERoundTrip(s, 64);
  }

  lemma {:induction false} Pow256Grows(m: nat, n: nat)
    requires m <= n
    ensures Pow256(m) <= Pow256(n)
    decreases n
  {
    if m < n {
      Pow256Grows(m, n - 1);
      assert Pow256(n) == 256 * Pow256(n - 1);
    }
  }

  lemma SliceOfSlice(b: seq<byte>, from: nat, to: nat, i: nat, j: nat)
    requires from <= to <= |b| && i <= j <= to - from
    ensures b[from..to][i..j] == b[from + i..from + j]
  {
    var w, l, r := b[from..to], b[from..to][i..j], b[from + i..from + j];
    assert |l| == |r|;
    forall t | 0 <= t < |l| ensures l[t] == r[t] {
      assert l[t] == w[i + t] == b[from + i + t];
    }
  }

  /**
    Every choice of coins can be drawn: no byte of the block is used twice, so the simulated
    challenges and responses and the true nonce are independent of each other.
  */
  lemma WideCoinsOnto(S: Suite, coins: Coins, n: nat, k: nat)
    requires Valid(S) && CoinsShaped(S.q, n, coins) && k < n
    ensures |BlockFor(coins, n, k)| == RequiredBytes(n)
    ensures WideCoins(S.q, BlockFor(coins, n, k), n, k) == coins
  {
    hide BlockFor, FromWide, Prime, Valid, LE;
    var wide := BlockFor(coins, n, k);
    WideOffsetInside(k, k, n);
    BlockAt(coins, n, k, k);
    ScalarFromBlock(S, coins.w);
    var got := WideCoins(S.q, wide, n, k);
    assert got.w == coins.w;
    forall j | 0 <= j < n - 1 ensures got.sim[j] == coins.sim[j] {
      PairFromBlock(S, coins, n, k, j);
    }
    assert got.sim == coins.sim;
  }

  lemma PairFromBlock(S: Suite, coins: Coins, n: nat, k: nat, j: nat)
    requires Valid(S) && CoinsShaped(S.q, n, coins) && k < n && j < n - 1
    ensures |BlockFor(coins, n, k)| == RequiredBytes(n) && SimPair(S.q, BlockFor(coins, n, k), n, k, j) == coins.sim[j]
  {
    hide BlockFor, FromWide, Prime, Valid, LE;
    var wide, i := BlockFor(coins, n, k), SimBranch(j, k);
    var off := WideOffset(i, k);
    WideOffsetInside(i, k, n);
    BlockAt(coins, n, k, i);
    var (c, s) := coins.sim[j];
    var bytes := wide[off..off + 128];
    assert bytes == LE(c, 64) + LE(s, 64);
    SplitConcat(LE(c, 64), LE(s, 64));
    SliceOfSlice(wide, off, off + 128, 0, 64);
    SliceOfSlice(wide, off, off + 128, 64, 128);
    assert bytes[0..64] == LE(c, 64) && bytes[64..128] == LE(s, 64);
    ScalarFromBlock(S, c);
    ScalarFromBlock(S, s);
  }

  // ---- C: the transcript fits its buffer ----

  lemma {:induction false} SmallFieldsFit(fields: seq<Field>)
    requires forall i | 0 <= i < |fields| :: |fields[i].tag| <= 16 && |fields[i].msg| <= 32
    ensures |FrameFields(fields)| <= 53 * |fields|
  {
    if fields != [] {
      SmallFieldsFit(fields[..|fields| - 1]);
    }
  }

  predicate Small(f: Field) {
    |f.tag| <= 16 && |f.msg| <= 32
  }

  method AppendSmall(t: CTranscript, f: Field)
    requires t.Valid() && Small(f) && |t.fields| < 20 && |t.domain| <= 18
    requires forall i | 0 <= i < |t.fields| :: Small(t.fields[i])
    modifies t, t.buf
    ensures t.Valid() && t.domain == old(t.domain) && t.fields == old(t.fields) + [f]
  {
    var r := t.Append(f.tag, f.msg);
    SmallFieldsFit(t.fields);
  }

  ghost predicate SmallTranscript(t: CTranscript)
    reads t, t.buf
  {
    && t.Valid() && t.domain == RoleDomain()
    && forall i | 0 <= i < |t.fields| :: Small(t.fields[i])
  }

  method AppendHead(t: CTranscript, S: Suite, B: Binding)
    requires Valid(S) && RoleSet.Shaped(S, B) && SmallTranscript(t) && t.fields == []
    modifies t, t.buf
    ensures SmallTranscript(t) && t.fields == HeadFields(S, B)
  {
    hide Frame, Ascii;
    AppendSmall(t, Field(Ascii("pid"), B.pid));
    AppendSmall(t, Field(Ascii("nonce_c"), B.nonceC));
    AppendSmall(t, PointField(S, "eph_c", B.ephC));
    AppendSmall(t, PointField(S, "c_prime", B.cPrime));
  }

  /** One labelled role code per role. */
  method AppendRoles(t: CTranscript, roles: seq<nat>)
    requires SmallTranscript(t) && |t.fields| == 4 && |roles| <= MAX_ROLES
    modifies t, t.buf
    ensures SmallTranscript(t)
    ensures t.fields == old(t.fields) + RoleList(roles)
  {
    hide Frame, Ascii, RoleList;
    ghost var rs := RoleList(roles);
    var i := 0;
    while i < |roles|
      invariant i <= |roles| && SmallTranscript(t)
      invariant t.fields == old(t.fields) + rs[..i]
    {
      AppendSmall(t, RoleField(roles, i));
      assert rs[..i + 1] == rs[..i] + [rs[i]];
      i := i + 1;
    }
    assert rs[..|roles|] == rs;
  }

  /** One labelled commitment per branch. */
  method AppendCommitments(t: CTranscript, S: Suite, As: seq<nat>)
    requires Valid(S) && SmallTranscript(t) && |As| <= MAX_ROLES && |t.fields| == 4 + |As|
    requires forall i | 0 <= i < |As| :: As[i] < S.q
    modifies t, t.buf
    ensures SmallTranscript(t)
    ensures t.fields == old(t.fields) + CommitmentList(S, As)
  {
    hide Frame, Ascii, CommitmentList;
    ghost var ks := CommitmentList(S, As);
    var i := 0;
    while i < |As|
      invariant i <= |As| && SmallTranscript(t)
      invariant t.fields == old(t.fields) + ks[..i]
    {
      AppendSmall(t, CommitmentField(S, As, i));
      assert ks[..i + 1] == ks[..i] + [ks[i]];
      i := i + 1;
    }
    assert ks[..|As|] == ks;
  }

  /** Within the role bound the C transcript never overflows, and gives the Rust challenge. */
  method MasterChallengeC(S: Suite, B: Binding, As: seq<nat>) returns (c: Option<nat>)
    requires Valid(S) && RoleSet.Shaped(S, B) && |As| == |B.roles| <= MAX_ROLES
    requires forall i | 0 <= i < |As| :: As[i] < S.q
    ensures c == Some(MasterChallenge(S, B, As))
  {
    hide Ascii, HeadFields, RoleList, CommitmentList, Prime, Frame;
    var t := new CTranscript(RoleDomain());
    AppendHead(t, S, B);
    AppendRoles(t, B.roles);
    AppendCommitments(t, S, As);
    SmallFits(t);
    c := t.Digest((b: seq<byte>) => S.wideHash(b) % S.q);
  }

  lemma SmallFits(t: CTranscript)
    requires SmallTranscript(t) && |t.fields| <= 20
    ensures |Frame(t.domain, t.fields)| <= TRANSCRIPT_CAP
  {
    SmallFieldsFit(t.fields);
  }

  // ---- C: the prover ----

  /** No scalar multiplication on the prover's path has an identity result. */
  predicate NoIdentityAt(S: Suite, B: Binding, k: nat, coins: Coins, i: nat)
    requires S.q > 0 && k < |B.roles| && i < |B.roles| && |coins.sim| == |B.roles| - 1
  {
    if i == k then coins.w != 0
    else
      var (c, s) := coins.sim[Other(i, k)];
      s != 0 && c != 0 && Statement(S, B.cPrime, B.roles[i]) != 0
  }

  predicate NoIdentity(S: Suite, B: Binding, k: nat, coins: Coins)
    requires S.q > 0 && k < |B.roles| && |coins.sim| == |B.roles| - 1
  {
    && (forall i | 0 <= i < |B.roles| :: B.roles[i] != 0)
    && (forall i | 0 <= i < |B.roles| :: NoIdentityAt(S, B, k, coins, i))
  }

  function ProveError(S: Suite, B: Binding, wide: seq<byte>, role: nat): Err
    requires S.q > 0
  {
    var n, k := |B.roles|, FirstIndex(B.roles, role);
    if n == 0 || n > MAX_ROLES then InvalidArgument
    else if k == n then RoleNotPermitted
    else if |wide| < RequiredBytes(n) then InvalidArgument
    else if !NoIdentity(S, B, k, WideCoins(S.q, wide, n, k)) then InvalidPoint
    else Ok
  }

  /** The prover succeeds, and refuses a role, in exactly these cases; all else is its arguments or an identity. */
  lemma ProvesExactly(S: Suite, B: Binding, wide: seq<byte>, role: nat)
    requires S.q > 0
    ensures ProveError(S, B, wide, role) == RoleNotPermitted <==> 0 < |B.roles| <= MAX_ROLES && role !in B.roles
    ensures ProveError(S, B, wide, role) == Ok
       <==> && 0 < |B.roles| <= MAX_ROLES && role in B.roles && |wide| >= RequiredBytes(|B.roles|)
            && forall k | 0 <= k < |B.roles| && k == FirstIndex(B.roles, role) ::
                 NoIdentity(S, B, k, WideCoins(S.q, wide, |B.roles|, k))
  {
    hide NoIdentity, WideCoins;
  }

  /** Y_i for every role; fails at the first role whose g*r_i is the identity. */
  method StatementsC(S: Suite, B: Binding) returns (ok: bool, Y: array<nat>)
    requires Valid(S) && RoleSet.Shaped(S, B)
    ensures fresh(Y) && Y.Length == |B.roles|
    ensures ok <==> forall i | 0 <= i < |B.roles| :: B.roles[i] != 0
    ensures ok ==> forall i | 0 <= i < |B.roles| :: Y[i] == Statement(S, B.cPrime, B.roles[i])
  {
    Y := new nat[|B.roles|];
    var i := 0;
    while i < |B.roles|
      invariant i <= |B.roles|
      invariant forall j | 0 <= j < i :: B.roles[j] != 0 && Y[j] == Statement(S, B.cPrime, B.roles[j])
    {
      var gr := ScalarMult(S.q, B.roles[i], 1);
      ScalarMultFails(S.q, B.roles[i], 1);
      if gr.None? { return false, Y; }
      Y[i] := Sub(S.q, B.cPrime, gr.value);
      i := i + 1;
    }
    return true, Y;
  }

  method FindRole(roles: seq<nat>, role: nat) returns (k: nat)
    ensures k == FirstIndex(roles, role)
  {
    k := 0;
    while k < |roles|
      invariant k <= |roles|
      invariant FirstIndex(roles, role) == k + FirstIndex(roles[k..], role)
    {
      if roles[k] == role { return; }
      assert roles[k..][1..] == roles[k + 1..];
      k := k + 1;
    }
  }

  lemma WideCoinsAt(q: nat, wide: seq<byte>, n: nat, k: nat, i: nat)
    requires q > 0 && k < n && i < n && i != k && |wide| >= RequiredBytes(n)
    ensures WideOffset(i, k) + 128 <= |wide|
    ensures WideCoins(q, wide, n, k).sim[Other(i, k)]
         == (WideScalar(q, wide, WideOffset(i, k)), WideScalar(q, wide, WideOffset(i, k) + 64))
  {
    hide FromWide, WideOffset, CoinsShaped;
    var j := Other(i, k);
    assert SimBranch(j, k) == i;
    SimInside(wide, n, k, j);
    assert WideCoins(q, wide, n, k).sim[j] == SimPair(q, wide, n, k, j);
  }

  /** One pass of the commitment loop: the simulated branch i. */
  method SimulateC(S: Suite, wide: seq<byte>, consumed: nat, y: nat) returns (ok: bool, br: Branch)
    requires Valid(S) && y < S.q && consumed + 128 <= |wide|
    ensures var c, s := WideScalar(S.q, wide, consumed), WideScalar(S.q, wide, consumed + 64);
            && (ok <==> s != 0 && c != 0 && y != 0)
            && (ok ==> br == Branch(Sub(S.q, Mul(S.q, S.eta, s), Mul(S.q, y, c)), c, s))
  {
    br := Branch(0, 0, 0);
    var c, s := WideScalar(S.q, wide, consumed), WideScalar(S.q, wide, consumed + 64);
    ScalarMultFails(S.q, s, S.eta);
    ScalarMultFails(S.q, c, y);
    var hs := ScalarMult(S.q, s, S.eta);
    if hs.None? { return false, br; }
    var yc := ScalarMult(S.q, c, y);
    if yc.None? { return false, br; }
    return true, Branch(Sub(S.q, hs.value, yc.value), c, s);
  }

  /** Sum of the simulated challenges, skipping the true index. */
  method SumSimulated(q: nat, branches: array<Branch>, n: nat, k: nat, ghost cs: seq<nat>) returns (sum: nat)
    requires q > 0 && n <= branches.Length && k < n == |cs| && cs[k] == 0
    requires forall i | 0 <= i < n && i != k :: branches[i].c == cs[i]
    ensures sum == SumMod(q, cs)
  {
    sum := 0;
    var i := 0;
    while i < n
      invariant i <= n && sum == SumMod(q, cs[..i])
    {
      assert cs[..i + 1][..i] == cs[..i];
      AddZero(q, sum);
      if i != k { sum := Add(q, sum, branches[i].c); }
      i := i + 1;
    }
    assert cs[..n] == cs;
  }

  /** What the commitment loop has established for the branches below i. */
  ghost predicate Committed(S: Suite, B: Binding, k: nat, coins: Coins, bs: seq<Branch>, i: nat)
    requires S.q > 0 && k < |B.roles| && |coins.sim| == |B.roles| - 1
  {
    && i <= |bs| && i <= |B.roles|
    && (forall j | 0 <= j < i :: NoIdentityAt(S, B, k, coins, j) && bs[j].a == ProverA(S, B, k, coins, j))
    && (forall j | 0 <= j < i && j != k ::
          bs[j].c == coins.sim[Other(j, k)].0 && bs[j].s == coins.sim[Other(j, k)].1)
  }

  /** One pass of the commitment loop, for the true branch or a simulated one. */
  method CommitBranchC(S: Suite, branches: array<Branch>, wide: seq<byte>, B: Binding, k: nat, y: nat, i: nat, w: nat)
    returns (ok: bool, w': nat, consumed: nat)
    requires Valid(S) && k < |B.roles| <= branches.Length && i < |B.roles| && |wide| >= RequiredBytes(|B.roles|)
    requires y == Statement(S, B.cPrime, B.roles[i])
    modifies branches
    ensures ok ==> consumed == WideOffset(i + 1, k)
    ensures consumed <= RequiredBytes(|B.roles|)
    ensures var coins := WideCoins(S.q, wide, |B.roles|, k);
            && (ok <==> NoIdentityAt(S, B, k, coins, i))
            && w' == (if i == k then coins.w else w)
            && (ok ==> branches[i].a == ProverA(S, B, k, coins, i))
            && (ok && i != k ==> branches[i].c == coins.sim[Other(i, k)].0 && branches[i].s == coins.sim[Other(i, k)].1)
    ensures forall j | 0 <= j < branches.Length && j != i :: branches[j] == old(branches[j])
  {
    hide FromWide, Mul, Add, Sub, Statement;
    w', consumed := w, WideOffset(i, k);
    WideOffsetInside(i, k, |B.roles|);
    if i == k {
      w' := WideScalar(S.q, wide, consumed);
      consumed := consumed + 64;
      ScalarMultFails(S.q, w', S.eta);
      var a := ScalarMult(S.q, w', S.eta);
      if a.None? { return false, w', consumed; }
      branches[i] := branches[i].(a := a.value);
      ok := true;
    } else {
      WideCoinsAt(S.q, wide, |B.roles|, k, i);
      var br: Branch;
      ok, br := SimulateC(S, wide, consumed, y);
      consumed := consumed + 128;
      if ok { branches[i] := br; }
    }
  }

  lemma CommittedStart(S: Suite, B: Binding, k: nat, coins: Coins, bs: seq<Branch>)
    requires S.q > 0 && k < |B.roles| && |coins.sim| == |B.roles| - 1
    ensures Committed(S, B, k, coins, bs, 0)
  {
  }

  lemma CommittedStep(S: Suite, B: Binding, k: nat, coins: Coins, before: seq<Branch>, after: seq<Branch>, i: nat)
    requires S.q > 0 && k < |B.roles| && |coins.sim| == |B.roles| - 1
    requires Committed(S, B, k, coins, before, i) && i < |B.roles| <= |before| == |after|
    requires NoIdentityAt(S, B, k, coins, i) && after[i].a == ProverA(S, B, k, coins, i)
    requires i != k ==> after[i].c == coins.sim[Other(i, k)].0 && after[i].s == coins.sim[Other(i, k)].1
    requires forall j | 0 <= j < |before| && j != i :: after[j] == before[j]
    ensures Committed(S, B, k, coins, after, i + 1)
  {
    hide ProverA, NoIdentityAt;
  }

  /** The commitment loop: fills the branches in order and stops at the first identity. */
  method CommitC(S: Suite, branches: array<Branch>, wide: seq<byte>, B: Binding, k: nat, Y: array<nat>)
    returns (ok: bool, w: nat, consumed: nat)
    requires Valid(S) && k < |B.roles| <= branches.Length && |wide| >= RequiredBytes(|B.roles|)
    requires Y.Length == |B.roles|
    requires forall i | 0 <= i < |B.roles| :: Y[i] == Statement(S, B.cPrime, B.roles[i])
    modifies branches
    ensures consumed <= RequiredBytes(|B.roles|)
    ensures branches[|B.roles|..] == old(branches[|B.roles|..])
    ensures var coins := WideCoins(S.q, wide, |B.roles|, k);
            && (ok <==> forall i | 0 <= i < |B.roles| :: NoIdentityAt(S, B, k, coins, i))
            && (ok ==> Committed(S, B, k, coins, branches[..], |B.roles|) && w == coins.w)
    ensures ok ==> consumed == RequiredBytes(|B.roles|)
  {
    hide FromWide, Mul, Add, Sub, Statement, NoIdentityAt, ProverA, Committed, WideCoins;
    var n := |B.roles|;
    ghost var coins := WideCoins(S.q, wide, n, k);
    w, consumed := 0, 0;
    CommittedStart(S, B, k, coins, branches[..]);
    var i := 0;
    while i < n
      invariant i <= n && consumed == WideOffset(i, k) <= RequiredBytes(n)
      invariant forall j | 0 <= j < n :: Y[j] == Statement(S, B.cPrime, B.roles[j])
      invariant k < i ==> w == coins.w
      invariant Committed(S, B, k, coins, branches[..], i)
      invariant forall j | 0 <= j < i :: NoIdentityAt(S, B, k, coins, j)
      invariant branches[n..] == old(branches[n..])
    {
      WideOffsetInside(i, k, n);
      ghost var before := branches[..];
      ok, w, consumed := CommitBranchC(S, branches, wide, B, k, Y[i], i, w);
      assert branches[n..] == before[n..];
      if !ok {
        assert !NoIdentityAt(S, B, k, coins, i);
        return;
      }
      CommittedStep(S, B, k, coins, before, branches[..], i);
      i := i + 1;
    }
    ok := true;
  }

  /** Splits the master challenge and answers the true branch. */
  method AnswerC(S: Suite, branches: array<Branch>, B: Binding, k: nat, w: nat, blind: nat, ghost coins: Coins)
    requires Valid(S) && RoleSet.Shaped(S, B) && k < |B.roles| <= branches.Length && |B.roles| <= MAX_ROLES
    requires CoinsShaped(S.q, |B.roles|, coins) && w == coins.w
    requires Committed(S, B, k, coins, branches[..], |B.roles|)
    modifies branches
    ensures branches[..|B.roles|] == Prove(S, B, k, blind, coins)
    ensures branches[|B.roles|..] == old(branches[|B.roles|..])
  {
    hide MasterChallenge, Mul, Add, Sub, ProverA;
    var n := |B.roles|;
    var As := Commitments(branches[..n]);
    assert As == ProverAs(S, B, k, coins);
    var master := MasterChallengeC(S, B, As);
    var sum := SumSimulated(S.q, branches, n, k, SimulatedCs(n, k, coins));
    var c := Sub(S.q, master.value, sum);
    assert c == TrueC(S, B, k, coins);
    branches[k] := Branch(branches[k].a, c, Add(S.q, w, Mul(S.q, c, blind)));
    forall i | 0 <= i < n ensures branches[i] == ProverBranch(S, B, k, blind, coins, i) {
    }
  }

  /**
    The C prover. It reports exactly the error of `ProveError`; on success it has consumed
    exactly 64 + 128*(n-1) bytes, filled the first n branches with the proof and left the rest
    of the caller's array alone.
  */
  method ProveC(S: Suite, branches: array<Branch>, wide: seq<byte>, B: Binding, role: nat, blind: nat)
    returns (err: Err, n: nat, consumed: nat)
    requires Valid(S) && RoleSet.Shaped(S, B) && blind < S.q
    requires |B.roles| <= MAX_ROLES ==> |B.roles| <= branches.Length
    modifies branches
    ensures err == ProveError(S, B, wide, role)
    ensures consumed <= |wide|
    ensures err == Ok ==> n == |B.roles| <= branches.Length && consumed == RequiredBytes(n)
    ensures err == Ok ==>
      var k := FirstIndex(B.roles, role);
      branches[..n] == Prove(S, B, k, blind, WideCoins(S.q, wide, n, k))
    ensures forall j | |B.roles| <= j < branches.Length :: branches[j] == old(branches[j])
  {
    hide Mul, Add, Sub, Statement, FromWide, Prove, Committed;
    n, consumed := |B.roles|, 0;
    if n == 0 || n > MAX_ROLES { return InvalidArgument, 0, 0; }
    var k := FindRole(B.roles, role);
    if k == n { return RoleNotPermitted, 0, 0; }
    if |wide| < RequiredBytes(n) { return InvalidArgument, 0, 0; }
    var ok, Y := StatementsC(S, B);
    if !ok { return InvalidPoint, 0, 0; }
    var w: nat;
    ok, w, consumed := CommitC(S, branches, wide, B, k, Y);
    if !ok { return InvalidPoint, 0, consumed; }
    AnswerC(S, branches, B, k, w, blind, WideCoins(S.q, wide, n, k));
    err := Ok;
  }

  // ---- C: the verifier ----

  /** The multiplications g*r_i, h*s_i and Y_i*c_i all have to avoid the identity. */
  predicate NoIdentityBranch(S: Suite, B: Binding, bs: seq<Branch>, i: nat)
    requires S.q > 0 && i < |bs| && i < |B.roles|
  {
    bs[i].s != 0 && bs[i].c != 0 && Statement(S, B.cPrime, B.roles[i]) != 0
  }

  predicate AcceptsC(S: Suite, B: Binding, bs: seq<Branch>)
    requires S.q > 0
  {
    && 0 < |B.roles| <= MAX_ROLES
    && Accepts(S, B, bs)
    && forall i | 0 <= i < |bs| :: B.roles[i] != 0 && NoIdentityBranch(S, B, bs, i)
  }

  method SumChallenges(q: nat, bs: seq<Branch>) returns (sum: nat)
    requires q > 0
    ensures sum == SumMod(q, Challenges(bs))
  {
    sum := 0;
    ghost var cs := Challenges(bs);
    var i := 0;
    while i < |bs|
      invariant i <= |bs| && sum == SumMod(q, cs[..i])
    {
      assert cs[..i + 1][..i] == cs[..i];
      sum := Add(q, sum, bs[i].c);
      i := i + 1;
    }
    assert cs[..|bs|] == cs;
  }

  method VerifyC(S: Suite, B: Binding, bs: seq<Branch>) returns (accepted: bool)
    requires Valid(S) && RoleSet.Shaped(S, B) && AreResidues(S.q, bs)
    ensures accepted == AcceptsC(S, B, bs)
  {
    hide MasterChallenge, Mul, Add, Sub;
    if |bs| != |B.roles| || |B.roles| == 0 || |B.roles| > MAX_ROLES { return false; }
    var ok, Y := StatementsC(S, B);
    if !ok { return false; }
    var As := Commitments(bs);
    var master := MasterChallengeC(S, B, As);
    var sum := SumChallenges(S.q, bs);
    if sum != master.value { return false; }
    var i := 0;
    while i < |bs|
      invariant i <= |bs|
      invariant forall j | 0 <= j < |bs| :: Y[j] == Statement(S, B.cPrime, B.roles[j])
      invariant forall j | 0 <= j < i :: BranchHolds(S, B, bs, j) && NoIdentityBranch(S, B, bs, j)
    {
      ScalarMultFails(S.q, bs[i].s, S.eta);
      ScalarMultFails(S.q, bs[i].c, Y[i]);
      var hs := ScalarMult(S.q, bs[i].s, S.eta);
      if hs.None? { return false; }
      var yc := ScalarMult(S.q, bs[i].c, Y[i]);
      if yc.None? { return false; }
      if hs.value != Add(S.q, bs[i].a, yc.value) {
        assert !BranchHolds(S, B, bs, i);
        return false;
      }
      i := i + 1;
    }
    return true;
  }

  /**
    C completeness: when no multiplication on the prover's path meets the identity, the C
    verifier accepts the honest proof exactly when blinding, challenge and response of the true
    branch are nonzero, which are the multiplications only the verifier performs.
  */
  lemma CompleteInC(S: Suite, B: Binding, k: nat, blind: nat, coins: Coins)
    requires Valid(S) && k < |B.roles| <= MAX_ROLES && CoinsShaped(S.q, |B.roles|, coins) && blind < S.q
    requires B.cPrime == Add(S.q, Mul(S.q, 1, B.roles[k]), Mul(S.q, S.eta, blind))
    requires NoIdentity(S, B, k, coins)
    ensures AcceptsC(S, B, Prove(S, B, k, blind, coins))
       <==> blind != 0 && Prove(S, B, k, blind, coins)[k].c != 0 && Prove(S, B, k, blind, coins)[k].s != 0
  {
    hide MasterChallenge, Mul, Add, Sub, Prime;
    RoleSetComplete(S, B, k, blind, coins);
    HonestStatement(S, B.roles[k], blind);
    NoZeroDivisors(S.q, S.eta, blind);
    var bs := Prove(S, B, k, blind, coins);
    forall i | 0 <= i < |bs| && i != k ensures NoIdentityBranch(S, B, bs, i) {
      assert NoIdentityAt(S, B, k, coins, i);
    }
    assert NoIdentityBranch(S, B, bs, k) <==> blind != 0 && bs[k].c != 0 && bs[k].s != 0;
  }

  /** An allowed role list that contains role 0 works in Rust and never in C: g*0 is the identity. */
  lemma RoleZeroDiverges(S: Suite, B: Binding, k: nat, blind: nat, coins: Coins)
    requires Valid(S) && k < |B.roles| && CoinsShaped(S.q, |B.roles|, coins)
    requires B.cPrime == Add(S.q, Mul(S.q, 1, B.roles[k]), Mul(S.q, S.eta, blind))
    requires 0 in B.roles
    ensures Accepts(S, B, Prove(S, B, k, blind, coins))
    ensures forall bs: seq<Branch> :: !AcceptsC(S, B, bs)
  {
    RoleSetComplete(S, B, k, blind, coins);
    var z :| 0 <= z < |B.roles| && B.roles[z] == 0;
  }

  // ---- Rust ----

  /** Draws per branch: two for a simulated one, one for the true one. */
  function DrawOffset(i: nat, k: nat): nat {
    if i <= k then 2 * i else 2 * i - 1
  }

  function StreamCoins(q: nat, stream: seq<nat>, n: nat, k: nat): (coins: Coins)
    requires q > 0 && k < n && |stream| >= 2 * n - 1
    requires forall i | 0 <= i < |stream| :: stream[i] < q
    ensures CoinsShaped(q, n, coins)
    ensures forall j | 0 <= j < n - 1 :: coins.sim[j] == StreamPair(stream, if j < k then j else j + 1, k)
  {
    var sim := seq(n - 1, j requires 0 <= j < n - 1 => StreamPair(stream, if j < k then j else j + 1, k));
    assert forall j | 0 <= j < n - 1 :: sim[j] == StreamPair(stream, if j < k then j else j + 1, k);
    Coins(stream[2 * k], sim)
  }

  function StreamPair(stream: seq<nat>, i: nat, k: nat): (nat, nat)
    requires i != k && DrawOffset(i, k) + 1 < |stream|
  {
    (stream[DrawOffset(i, k)], stream[DrawOffset(i, k) + 1])
  }

  lemma StreamCoinsAt(q: nat, stream: seq<nat>, n: nat, k: nat, i: nat)
    requires q > 0 && k < n && i < n && i != k && |stream| >= 2 * n - 1
    requires forall j | 0 <= j < |stream| :: stream[j] < q
    ensures DrawOffset(i, k) + 1 < |stream|
    ensures StreamCoins(q, stream, n, k).sim[Other(i, k)]
         == (stream[DrawOffset(i, k)], stream[DrawOffset(i, k) + 1])
  {
    var j := Other(i, k);
    assert (if j < k then j else j + 1) == i;
  }

  /** The stream a given choice of coins is drawn from. */
  function StreamFor(coins: Coins, n: nat, k: nat): (r: seq<nat>)
    requires |coins.sim| + 1 >= n && k <= |coins.sim|
    ensures |r| == DrawOffset(n, k)
  {
    if n == 0 then []
    else
      StreamFor(coins, n - 1, k)
      + if n - 1 == k then [coins.w] else [coins.sim[Other(n - 1, k)].0, coins.sim[Other(n - 1, k)].1]
  }

  lemma {:induction false} StreamAt(coins: Coins, n: nat, k: nat, i: nat)
    requires |coins.sim| + 1 >= n && k <= |coins.sim| && i < n
    ensures DrawOffset(i, k) + (if i == k then 1 else 2) <= DrawOffset(n, k)
    ensures var s, off := StreamFor(coins, n, k), DrawOffset(i, k);
            if i == k then s[off] == coins.w else (s[off], s[off + 1]) == coins.sim[Other(i, k)]
  {
    if i < n - 1 { StreamAt(coins, n - 1, k, i); }
  }

  /** Every choice of coins can be drawn from the stream, each scalar used once. */
  lemma StreamCoinsOnto(q: nat, coins: Coins, n: nat, k: nat)
    requires q > 0 && CoinsShaped(q, n, coins) && k < n
    ensures |StreamFor(coins, n, k)| == 2 * n - 1 && forall i | 0 <= i < 2 * n - 1 :: StreamFor(coins, n, k)[i] < q
    ensures StreamCoins(q, StreamFor(coins, n, k), n, k) == coins
  {
    hide StreamFor;
    StreamInRange(q, coins, n, k);
    var s := StreamFor(coins, n, k);
    var got := StreamCoins(q, s, n, k);
    StreamAt(coins, n, k, k);
    forall j | 0 <= j < n - 1 ensures got.sim[j] == coins.sim[j] {
      StreamAt(coins, n, k, if j < k then j else j + 1);
    }
    assert got.sim == coins.sim;
  }

  lemma {:induction false} StreamInRange(q: nat, coins: Coins, n: nat, k: nat)
    requires |coins.sim| + 1 >= n && k <= |coins.sim| && coins.w < q
    requires forall j | 0 <= j < |coins.sim| :: coins.sim[j].0 < q && coins.sim[j].1 < q
    ensures forall i | 0 <= i < DrawOffset(n, k) :: StreamFor(coins, n, k)[i] < q
  {
    if n > 0 { StreamInRange(q, coins, n - 1, k); }
  }

  method VerifyRust(S: Suite, B: Binding, bs: seq<Branch>) returns (accepted: bool)
    requires S.q > 0
    ensures accepted == Accepts(S, B, bs)
  {
    hide MasterChallenge, Mul, Add, Sub;
    if |bs| != |B.roles| { return false; }
    var sum := SumChallenges(S.q, bs);
    if sum != MasterChallenge(S, B, Commitments(bs)) { return false; }
    var i := 0;
    while i < |bs|
      invariant i <= |bs|
      invariant forall j | 0 <= j < i :: BranchHolds(S, B, bs, j)
    {
      var y := Statement(S, B.cPrime, B.roles[i]);
      if Mul(S.q, S.eta, bs[i].s) != Add(S.q, bs[i].a, Mul(S.q, y, bs[i].c)) {
        assert !BranchHolds(S, B, bs, i);
        return false;
      }
      i := i + 1;
    }
    return true;
  }

  /** What the prover's commitment to branch i is, given the draws that make its coins. */
  lemma DrawnA(S: Suite, stream: seq<nat>, B: Binding, k: nat, i: nat)
    requires Valid(S) && k < |B.roles| && i < |B.roles|
    requires |stream| >= 2 * |B.roles| - 1 && forall j | 0 <= j < |stream| :: stream[j] < S.q
    ensures var coins, off := StreamCoins(S.q, stream, |B.roles|, k), DrawOffset(i, k);
            if i == k then coins.w == stream[off] && ProverA(S, B, k, coins, i) == Mul(S.q, S.eta, stream[off])
            else
              && coins.sim[Other(i, k)] == (stream[off], stream[off + 1])
              && ProverA(S, B, k, coins, i)
                 == Sub(S.q, Mul(S.q, S.eta, stream[off + 1]), Mul(S.q, Statement(S, B.cPrime, B.roles[i]), stream[off]))
  {
    hide Mul, Sub, Statement, Prime;
    if i != k { StreamCoinsAt(S.q, stream, |B.roles|, k, i); }
  }

  /** What the commitment loop has established for the branches below i. */
  ghost predicate Drafted(S: Suite, B: Binding, k: nat, coins: Coins, As: seq<nat>, cs: seq<nat>, ss: seq<nat>, i: nat)
    requires S.q > 0 && k < |B.roles| && |coins.sim| == |B.roles| - 1
  {
    && |As| == |cs| == |ss| == |B.roles| && i <= |B.roles| && cs[k] == 0
    && (forall j | 0 <= j < i :: As[j] == ProverA(S, B, k, coins, j))
    && (forall j | 0 <= j < i && j != k :: cs[j] == coins.sim[Other(j, k)].0 && ss[j] == coins.sim[Other(j, k)].1)
  }

  lemma DraftedStep(S: Suite, B: Binding, k: nat, coins: Coins, As: seq<nat>, cs: seq<nat>, ss: seq<nat>, i: nat,
                    a: nat, c: nat, s: nat)
    requires S.q > 0 && k < |B.roles| && |coins.sim| == |B.roles| - 1
    requires Drafted(S, B, k, coins, As, cs, ss, i) && i < |B.roles| && a == ProverA(S, B, k, coins, i)
    requires if i == k then c == cs[k] && s == ss[k] else (c, s) == coins.sim[Other(i, k)]
    ensures Drafted(S, B, k, coins, As[i := a], cs[i := c], ss[i := s], i + 1)
  {
    hide ProverA;
  }

  lemma DraftedAll(S: Suite, B: Binding, k: nat, coins: Coins, As: seq<nat>, cs: seq<nat>, ss: seq<nat>)
    requires S.q > 0 && k < |B.roles| && |coins.sim| == |B.roles| - 1
    requires Drafted(S, B, k, coins, As, cs, ss, |B.roles|)
    ensures As == ProverAs(S, B, k, coins) && cs == SimulatedCs(|B.roles|, k, coins)
    ensures forall j | 0 <= j < |B.roles| && j != k :: ss[j] == coins.sim[Other(j, k)].1
  {
    hide ProverA;
  }

  /** The commitment loop of the Rust prover, over the three zero-initialised vectors. */
  method CommitRust(S: Suite, stream: seq<nat>, B: Binding, k: nat, As: array<nat>, cs: array<nat>, ss: array<nat>)
    returns (w: nat, drawn: nat)
    requires Valid(S) && k < |B.roles|
    requires |stream| >= 2 * |B.roles| - 1 && forall i | 0 <= i < |stream| :: stream[i] < S.q
    requires As != cs && As != ss && cs != ss && As.Length == cs.Length == ss.Length == |B.roles|
    requires cs[k] == 0
    modifies As, cs, ss
    ensures drawn == 2 * |B.roles| - 1
    ensures var coins := StreamCoins(S.q, stream, |B.roles|, k);
            && w == coins.w
            && As[..] == ProverAs(S, B, k, coins)
            && cs[..] == SimulatedCs(|B.roles|, k, coins)
            && forall j | 0 <= j < |B.roles| && j != k :: ss[j] == coins.sim[Other(j, k)].1
  {
    hide Mul, Add, Sub, Statement, ProverA, StreamCoins, Prime, ProverAs, SimulatedCs;
    var n := |B.roles|;
    ghost var coins := StreamCoins(S.q, stream, n, k);
    w, drawn := 0, 0;
    var i := 0;
    assert Drafted(S, B, k, coins, As[..], cs[..], ss[..], 0);
    while i < n
      invariant i <= n && drawn == DrawOffset(i, k)
      invariant k < i ==> w == coins.w
      invariant Drafted(S, B, k, coins, As[..], cs[..], ss[..], i)
    {
      hide Drafted;
      DrawnA(S, stream, B, k, i);
      ghost var as0, cs0, ss0 := As[..], cs[..], ss[..];
      if i == k {
        w := stream[drawn];
        drawn := drawn + 1;
        As[i] := Mul(S.q, S.eta, w);
      } else {
        var c, s := stream[drawn], stream[drawn + 1];
        drawn := drawn + 2;
        As[i] := Sub(S.q, Mul(S.q, S.eta, s), Mul(S.q, Statement(S, B.cPrime, B.roles[i]), c));
        cs[i], ss[i] := c, s;
      }
      DraftedStep(S, B, k, coins, as0, cs0, ss0, i, As[i], cs[i], ss[i]);
      assert As[..] == as0[i := As[i]] && cs[..] == cs0[i := cs[i]] && ss[..] == ss0[i := ss[i]];
      i := i + 1;
    }
    DraftedAll(S, B, k, coins, As[..], cs[..], ss[..]);
  }

  /** The Rust prover panics on a role outside the list, so the caller must supply an allowed one. */
  method ProveRust(S: Suite, stream: seq<nat>, B: Binding, role: nat, blind: nat)
    returns (bs: seq<Branch>, drawn: nat)
    requires Valid(S) && role in B.roles
    requires |stream| >= 2 * |B.roles| - 1 && forall i | 0 <= i < |stream| :: stream[i] < S.q
    ensures drawn == 2 * |B.roles| - 1
    ensures var k := FirstIndex(B.roles, role);
            k < |B.roles| && bs == Prove(S, B, k, blind, StreamCoins(S.q, stream, |B.roles|, k))
  {
    hide MasterChallenge, Mul, Add, Sub, ProverA, StreamCoins;
    var n := |B.roles|;
    var k := FindRole(B.roles, role);
    ghost var coins := StreamCoins(S.q, stream, n, k);
    var As, cs, ss := new nat[n], new nat[n](_ => 0), new nat[n](_ => 0);
    var w: nat;
    w, drawn := CommitRust(S, stream, B, k, As, cs, ss);
    var master := MasterChallenge(S, B, As[..]);
    var sum := SumExcept(S.q, cs[..], k);
    var cTrue := Sub(S.q, master, sum);
    assert cTrue == TrueC(S, B, k, coins);
    cs[k], ss[k] := cTrue, Add(S.q, w, Mul(S.q, cTrue, blind));
    bs := Zip(As[..], cs[..], ss[..]);
    forall i | 0 <= i < n ensures bs[i] == ProverBranch(S, B, k, blind, coins, i) {
      assert As[i] == ProverAs(S, B, k, coins)[i];
      if i != k { assert cs[i] == SimulatedCs(n, k, coins)[i]; }
    }
  }

  function Zip(As: seq<nat>, cs: seq<nat>, ss: seq<nat>): (bs: seq<Branch>)
    requires |As| == |cs| == |ss|
    ensures |bs| == |As| && forall i | 0 <= i < |As| :: bs[i] == Branch(As[i], cs[i], ss[i])
  {
    seq(|As|, i requires 0 <= i < |As| => Branch(As[i], cs[i], ss[i]))
  }

  /** The filtered sum of the Rust prover. */
  method SumExcept(q: nat, cs: seq<nat>, k: nat) returns (sum: nat)
    requires q > 0 && k < |cs| && cs[k] == 0
    ensures sum == SumMod(q, cs)
  {
    sum := 0;
    var i := 0;
    while i < |cs|
      invariant i <= |cs| && sum == SumMod(q, cs[..i])
    {
      assert cs[..i + 1][..i] == cs[..i];
      AddZero(q, sum);
      if i != k { sum := Add(q, sum, cs[i]); }
      i := i + 1;
    }
    assert cs[..|cs|] == cs;
  }
}
