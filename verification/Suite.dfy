/**
  The primitives the protocol is parameterised by. The group has prime order q and generator
  g, so a point is written as its multiple of g: g itself is 1, and the blinding generator h
  is some nonzero eta. Hashes, MACs and encodings are uninterpreted functions.
*/
module Suite {
  import opened Bytes
  import opened PrimeField
  import opened Transcript

  datatype Suite = Suite(
    q: nat,
    eta: nat,
    wideHash: seq<byte> -> nat,                  // SHA-512, read as an integer
    sha256: seq<byte> -> seq<byte>,
    hmac: (seq<byte>, seq<byte>) -> seq<byte>,   // key, message
    encode: nat -> seq<byte>,                    // compressed point
    decode: seq<byte> -> Option<nat>)

  ghost predicate Valid(S: Suite): (v: bool)
    ensures v ==> S.q > 1
  {
    && Prime(S.q) && 0x1_0000_0000_0000_0000 < S.q < Pow256(32)
    && 0 < S.eta < S.q
    && (forall p: nat | p < S.q :: |S.encode(p)| == 32 && S.decode(S.encode(p)) == Some(p))
    && (forall b: seq<byte> | S.decode(b).Some? :: S.decode(b).value < S.q && S.encode(S.decode(b).value) == b)
    && (forall b: seq<byte> :: |S.sha256(b)| == 32)
    && (forall k: seq<byte>, m: seq<byte> :: |S.hmac(k, m)| == 32)
  }

  /** The requirements are consistent: every prime of the right size has a suite. */
  lemma Realizable(q: nat)
    requires Prime(q) && 0x1_0000_0000_0000_0000 < q < Pow256(32)
    ensures exists S: Suite :: Valid(S) && S.q == q
  {
    hide LE, FromLE, Pow256, Prime;
    var zeros: seq<byte> := LE(0, 32);
    var S := Suite(q, 1, (b: seq<byte>) => 0, (b: seq<byte>) => zeros, (k: seq<byte>, m: seq<byte>) => zeros,
                   (p: nat) => LE(p, 32),
                   (b: seq<byte>) => if |b| == 32 && FromLE(b) < q then Some(FromLE(b)) else None);
    forall p: nat | p < q ensures S.decode(S.encode(p)) == Some(p) {
      LERoundTrip(p, 32);
    }
    forall b: seq<byte> | S.decode(b).Some? ensures S.encode(S.decode(b).value) == b {
      FromLERoundTrip(b);
    }
    assert Valid(S);
  }

  lemma EncodeInjective(S: Suite, p: nat, r: nat)
    requires Valid(S) && p < S.q && r < S.q && S.encode(p) == S.encode(r)
    ensures p == r
  {
    assert S.decode(S.encode(p)) == Some(p);
  }

  /** The Fiat-Shamir challenge: the wide hash of the framed transcript, reduced mod q. */
  function Challenge(S: Suite, domain: seq<byte>, fields: seq<Field>): (c: nat)
    requires S.q > 0
    ensures c < S.q
  {
    S.wideHash(Frame(domain, fields)) % S.q
  }

  function PointField(S: Suite, tag: string, p: nat): Field {
    Field(Ascii(tag), S.encode(p))
  }

  /** 64 uniform bytes reduced to a scalar. */
  function FromWide(q: nat, b: seq<byte>): (r: nat)
    requires q > 0
    ensures r < q
  {
    FromLE(b) % q
  }

  // ---- Schnorr proofs over an arbitrary base ----

  datatype Proof = Proof(a: nat, s: nat)

  predicate Residues(q: nat, p: Proof) {
    p.a < q && p.s < q
  }

  /** Commitment base*r and response r + c*x. */
  function Respond(q: nat, base: nat, x: nat, r: nat, c: nat): (p: Proof)
    requires q > 0
    ensures Residues(q, p)
  {
    Proof(Mul(q, base, r), Add(q, r, Mul(q, c, x)))
  }

  /** The verification equation base*s == a + X*c. */
  predicate Checks(q: nat, base: nat, X: nat, c: nat, p: Proof)
    requires q > 0
  {
    Mul(q, base, p.s) == Add(q, p.a, Mul(q, X, c))
  }

  /** base*(u + c*x) = base*u + (base*x)*c. */
  lemma LinearResponse(q: nat, base: nat, x: nat, u: nat, c: nat)
    requires q > 0
    ensures Mul(q, base, Add(q, u, Mul(q, c, x))) == Add(q, Mul(q, base, u), Mul(q, Mul(q, base, x), c))
  {
    Distribute(q, base, u, Mul(q, c, x));
    MulComm(q, c, x);
    MulAssoc(q, base, x, c);
  }

  /** The response of a prover who knows x for X = base*x satisfies the verifier. */
  lemma SchnorrComplete(q: nat, base: nat, x: nat, r: nat, c: nat)
    requires q > 0
    ensures Checks(q, base, Mul(q, base, x), c, Respond(q, base, x, r, c))
  {
    LinearResponse(q, base, x, r, c);
  }

  /**
    A response computed for x is accepted against X only if X really is base*x, unless the
    challenge is zero.
  */
  lemma SchnorrExact(q: nat, base: nat, x: nat, X: nat, r: nat, c: nat)
    requires Prime(q) && X < q && c < q
    ensures Checks(q, base, X, c, Respond(q, base, x, r, c)) <==> c == 0 || X == Mul(q, base, x)
  {
    LinearResponse(q, base, x, r, c);
    var a, good := Mul(q, base, r), Mul(q, base, x);
    if Add(q, a, Mul(q, X, c)) == Add(q, a, Mul(q, good, c)) {
      AddComm(q, a, Mul(q, X, c));
      AddComm(q, a, Mul(q, good, c));
      AddCancel(q, Mul(q, X, c), Mul(q, good, c), a);
      if c != 0 {
        MulComm(q, X, c);
        MulComm(q, good, c);
        MulCancel(q, c, X, good);
      }
    }
    MulZero(q, X);
    MulZero(q, good);
  }

  /** The witness two accepting answers to one commitment give away. */
  function Extract(q: nat, c1: nat, s1: nat, c2: nat, s2: nat): (x: nat)
    requires q > 0
    ensures x < q
  {
    Div(q, Sub(q, s1, s2), Sub(q, c1, c2))
  }

  /** Special soundness: two challenges answered for one commitment yield log_base(X). */
  lemma SchnorrExtract(q: nat, base: nat, X: nat, c1: nat, p1: Proof, c2: nat, p2: Proof)
    requires Prime(q) && X < q && c1 < q && c2 < q && Residues(q, p1) && Residues(q, p2)
    requires p1.a == p2.a && c1 != c2
    requires Checks(q, base, X, c1, p1) && Checks(q, base, X, c2, p2)
    ensures X == Mul(q, base, Extract(q, c1, p1.s, c2, p2.s))
  {
    var ds, dc := Sub(q, p1.s, p2.s), Sub(q, c1, c2);
    var x := Extract(q, c1, p1.s, c2, p2.s);
    DistributeSub(q, base, p1.s, p2.s);
    SubOfSums(q, p1.a, Mul(q, X, c1), Mul(q, X, c2));
    DistributeSub(q, X, c1, c2);
    assert Mul(q, base, ds) == Mul(q, X, dc);
    SubNonZero(q, c1, c2);
    DivIsQuotient(q, ds, dc);
    calc {
      Mul(q, dc, Mul(q, base, x));
      { MulComm(q, dc, Mul(q, base, x)); MulAssoc(q, base, x, dc); MulComm(q, x, dc); }
      Mul(q, base, ds);
      { MulComm(q, X, dc); }
      Mul(q, dc, X);
    }
    MulCancel(q, dc, Mul(q, base, x), X);
  }
}
