/**
  The Rust AUTH_1, AUTH_2 and AUTH_3 payloads: the raw layouts with every point decompressed
  (the identity refused) and every scalar checked to be canonical, in reading order.
*/
module TypedPayloads {
  import opened Bytes
  import opened Errors
  import opened Suite
  import opened Payloads
  import RoleSet

  // ---- Field readers ----

  function TakeFixed(b: seq<byte>, n: nat): Outcome<(seq<byte>, seq<byte>)> {
    if |b| < n then Reject(PayloadTooShort) else Accept((b[..n], b[n..]))
  }

  function TakePoint(S: Suite, b: seq<byte>): Outcome<(nat, seq<byte>)> {
    var (w, rest) :- TakeFixed(b, 32);
    match S.decode(w)
    case None => Reject(InvalidPoint)
    case Some(p) => if p == 0 then Reject(IdentityPoint) else Accept((p, rest))
  }

  function TakeScalar(S: Suite, b: seq<byte>): Outcome<(nat, seq<byte>)> {
    var (w, rest) :- TakeFixed(b, 32);
    if FromLE(w) >= S.q then Reject(NonCanonicalScalar) else Accept((FromLE(w), rest))
  }

  function ScalarBytes(s: nat): (r: seq<byte>)
    ensures |r| == 32
  {
    LE(s, 32)
  }

  /** A point field reads back exactly from its compressed form, unless it is the identity. */
  lemma TakePointExact(S: Suite, b: seq<byte>, p: nat, rest: seq<byte>)
    requires Valid(S)
    ensures TakePoint(S, b) == Accept((p, rest)) <==> 0 < p < S.q && b == S.encode(p) + rest
  {
    if 0 < p < S.q && b == S.encode(p) + rest {
      SplitConcat(S.encode(p), rest);
    }
    if TakePoint(S, b) == Accept((p, rest)) {
      assert b == b[..32] + b[32..];
    }
  }

  /** Each refusal of a point field says what is wrong with its bytes. */
  lemma TakePointRefuses(S: Suite, b: seq<byte>)
    requires Valid(S)
    ensures TakePoint(S, b) == Reject(PayloadTooShort) <==> |b| < 32
    ensures TakePoint(S, b) == Reject(IdentityPoint) <==> |b| >= 32 && b[..32] == S.encode(0)
    ensures TakePoint(S, b) == Reject(InvalidPoint)
       <==> |b| >= 32 && forall p: nat | p < S.q :: S.encode(p) != b[..32]
  {
    if |b| >= 32 {
      assert S.decode(S.encode(0)) == Some(0);
      if S.decode(b[..32]).Some? { assert S.encode(S.decode(b[..32]).value) == b[..32]; }
      if p: nat :| p < S.q && S.encode(p) == b[..32] { assert S.decode(S.encode(p)) == Some(p); }
    }
  }

  lemma TakeScalarExact(S: Suite, b: seq<byte>, s: nat, rest: seq<byte>)
    requires Valid(S)
    ensures TakeScalar(S, b) == Accept((s, rest)) <==> s < S.q && b == ScalarBytes(s) + rest
  {
    if s < S.q && b == ScalarBytes(s) + rest {
      SplitConcat(ScalarBytes(s), rest);
      LERoundTrip(s, 32);
    }
    if TakeScalar(S, b) == Accept((s, rest)) {
      FromLERoundTrip(b[..32]);
      assert b == b[..32] + b[32..];
    }
  }

  lemma TakeFixedExact(b: seq<byte>, n: nat, w: seq<byte>, rest: seq<byte>)
    ensures TakeFixed(b, n) == Accept((w, rest)) <==> |w| == n && b == w + rest
  {
    if |b| >= n { assert b == b[..n] + b[n..]; }
    if |w| == n && b == w + rest { SplitConcat(w, rest); }
  }

  // ---- AUTH_1 ----

  datatype Auth1 = Auth1(
    pid: seq<byte>, clientProof: Proof, nonceC: seq<byte>, ephC: nat, cPrime: nat, rerandProof: Proof,
    branches: seq<RoleSet.Branch>)

  predicate WirePoint(S: Suite, p: nat) {
    0 < p < S.q
  }

  predicate WireProof(S: Suite, p: Proof) {
    WirePoint(S, p.a) && p.s < S.q
  }

  predicate WireBranch(S: Suite, b: RoleSet.Branch) {
    WirePoint(S, b.a) && b.c < S.q && b.s < S.q
  }

  /** What the wire can carry: no identity points, canonical scalars, a 16-bit branch count. */
  predicate Sendable(S: Suite, m: Auth1) {
    && |m.pid| == 32 && |m.nonceC| == 32
    && WireProof(S, m.clientProof) && WireProof(S, m.rerandProof)
    && WirePoint(S, m.ephC) && WirePoint(S, m.cPrime)
    && |m.branches| < 0x1_0000
    && forall i | 0 <= i < |m.branches| :: WireBranch(S, m.branches[i])
  }

  function RawOfBranch(S: Suite, b: RoleSet.Branch): RawBranch {
    RawBranch(S.encode(b.a), ScalarBytes(b.c), ScalarBytes(b.s))
  }

  function RawBranches(S: Suite, bs: seq<RoleSet.Branch>): (r: seq<RawBranch>)
    ensures |r| == |bs|
  {
    seq(|bs|, i requires 0 <= i < |bs| => RawOfBranch(S, bs[i]))
  }

  function RawOf(S: Suite, m: Auth1): RawAuth1 {
    RawAuth1(m.pid, S.encode(m.clientProof.a), ScalarBytes(m.clientProof.s), m.nonceC, S.encode(m.ephC),
             S.encode(m.cPrime), S.encode(m.rerandProof.a), ScalarBytes(m.rerandProof.s), RawBranches(S, m.branches))
  }

  function EncodeAuth1(S: Suite, m: Auth1): seq<byte> {
    EncodeRaw(RawOf(S, m))
  }

  function TakeProof(S: Suite, b: seq<byte>): Outcome<(Proof, seq<byte>)> {
    var (a, r1) :- TakePoint(S, b);
    var (s, r2) :- TakeScalar(S, r1);
    Accept((Proof(a, s), r2))
  }

  function TakeBranch(S: Suite, b: seq<byte>): Outcome<(RoleSet.Branch, seq<byte>)> {
    var (a, r1) :- TakePoint(S, b);
    var (c, r2) :- TakeScalar(S, r1);
    var (s, r3) :- TakeScalar(S, r2);
    Accept((RoleSet.Branch(a, c, s), r3))
  }

  function TakeBranches(S: Suite, b: seq<byte>, n: nat): Outcome<(seq<RoleSet.Branch>, seq<byte>)>
    decreases n
  {
    if n == 0 then Accept(([], b))
    else
      var (x, r1) :- TakeBranch(S, b);
      var (xs, r2) :- TakeBranches(S, r1, n - 1);
      Accept(([x] + xs, r2))
  }

  datatype Head = Head(pid: seq<byte>, cp: Proof, nonceC: seq<byte>, ephC: nat, cPrime: nat, rp: Proof)

  function TakeHead(S: Suite, b: seq<byte>): Outcome<(Head, seq<byte>)> {
    var (pid, r1) :- TakeFixed(b, 32);
    var (cp, r2) :- TakeProof(S, r1);
    var (nonceC, r3) :- TakeFixed(r2, 32);
    var (ephC, r4) :- TakePoint(S, r3);
    var (cPrime, r5) :- TakePoint(S, r4);
    var (rp, r6) :- TakeProof(S, r5);
    Accept((Head(pid, cp, nonceC, ephC, cPrime, rp), r6))
  }

  function DecodeTail(S: Suite, h: Head, b: seq<byte>): Outcome<Auth1> {
    if |b| < 2 then Reject(PayloadTooShort)
    else
      var n := LoadU16(b, 0);
      if |b| - 2 < 96 * n then Reject(PayloadTooShort)
      else
        var (branches, rest) :- TakeBranches(S, b[2..], n);
        if rest != [] then Reject(MalformedPacket)
        else Accept(Auth1(h.pid, h.cp, h.nonceC, h.ephC, h.cPrime, h.rp, branches))
  }

  function DecodeAuth1(S: Suite, b: seq<byte>): Outcome<Auth1> {
    var (h, rest) :- TakeHead(S, b);
    DecodeTail(S, h, rest)
  }

  // ---- Exactness, piece by piece ----

  function ProofBytes(S: Suite, p: Proof): seq<byte> {
    S.encode(p.a) + ScalarBytes(p.s)
  }

  lemma TakeProofExact(S: Suite, b: seq<byte>, p: Proof, rest: seq<byte>)
    requires Valid(S)
    ensures TakeProof(S, b) == Accept((p, rest)) <==> WireProof(S, p) && b == ProofBytes(S, p) + rest
  {
      hide ScalarBytes, Valid;
    var mid := ScalarBytes(p.s) + rest;
    ConcatAssoc(S.encode(p.a), ScalarBytes(p.s), rest);
    TakePointExact(S, b, p.a, mid);
    TakeScalarExact(S, mid, p.s, rest);
    if TakeProof(S, b) == Accept((p, rest)) {
      var r1 := TakePoint(S, b).value.1;
      TakePointExact(S, b, p.a, r1);
      TakeScalarExact(S, r1, p.s, rest);
    }
  }

  lemma TakeProofDecoded(S: Suite, b: seq<byte>)
    requires Valid(S) && TakeProof(S, b).Accept?
    ensures var (p, rest) := TakeProof(S, b).value;
            WireProof(S, p) && b == ProofBytes(S, p) + rest
  {
    TakeProofExact(S, b, TakeProof(S, b).value.0, TakeProof(S, b).value.1);
  }

  lemma TakePointDecoded(S: Suite, b: seq<byte>)
    requires Valid(S) && TakePoint(S, b).Accept?
    ensures var (p, rest) := TakePoint(S, b).value;
            WirePoint(S, p) && b == S.encode(p) + rest
  {
    TakePointExact(S, b, TakePoint(S, b).value.0, TakePoint(S, b).value.1);
  }

  lemma TakeFixedDecoded(b: seq<byte>, n: nat)
    requires TakeFixed(b, n).Accept?
    ensures var (w, rest) := TakeFixed(b, n).value;
            |w| == n && b == w + rest
  {
  }

  lemma TakeBranchExact(S: Suite, b: seq<byte>, x: RoleSet.Branch, rest: seq<byte>)
    requires Valid(S)
    ensures TakeBranch(S, b) == Accept((x, rest))
       <==> WireBranch(S, x) && b == EncodeBranch(RawOfBranch(S, x)) + rest
  {
      hide ScalarBytes, Valid;
    var m2 := ScalarBytes(x.s) + rest;
    var m1 := ScalarBytes(x.c) + m2;
    assert EncodeBranch(RawOfBranch(S, x)) + rest == S.encode(x.a) + m1;
    TakePointExact(S, b, x.a, m1);
    TakeScalarExact(S, m1, x.c, m2);
    TakeScalarExact(S, m2, x.s, rest);
    if TakeBranch(S, b) == Accept((x, rest)) {
      var r1 := TakePoint(S, b).value.1;
      var r2 := TakeScalar(S, r1).value.1;
      TakePointExact(S, b, x.a, r1);
      TakeScalarExact(S, r1, x.c, r2);
      TakeScalarExact(S, r2, x.s, rest);
    }
  }

  lemma RawBranchesCons(S: Suite, x: RoleSet.Branch, xs: seq<RoleSet.Branch>)
    ensures RawBranches(S, [x] + xs) == [RawOfBranch(S, x)] + RawBranches(S, xs)
  {
  }

  lemma {:induction false} TakeBranchesExact(S: Suite, b: seq<byte>, n: nat, xs: seq<RoleSet.Branch>, rest: seq<byte>)
    requires Valid(S)
    ensures TakeBranches(S, b, n) == Accept((xs, rest))
       <==> && |xs| == n && (forall i | 0 <= i < n :: WireBranch(S, xs[i]))
            && b == EncodeBranches(RawBranches(S, xs)) + rest
    decreases n
  {
    hide TakeBranch, EncodeBranch, WireBranch, RawOfBranch, Valid;
    if n == 0 {
      assert xs == [] ==> EncodeBranches(RawBranches(S, xs)) + rest == rest;
    } else {
      if |xs| == n {
        var x, tail := xs[0], EncodeBranches(RawBranches(S, xs[1..])) + rest;
        assert xs == [x] + xs[1..];
        RawBranchesCons(S, x, xs[1..]);
        assert RawBranches(S, xs)[1..] == RawBranches(S, xs[1..]);
        ConcatAssoc(EncodeBranch(RawOfBranch(S, x)), EncodeBranches(RawBranches(S, xs[1..])), rest);
        TakeBranchExact(S, b, x, tail);
        TakeBranchesExact(S, tail, n - 1, xs[1..], rest);
        if TakeBranches(S, b, n) == Accept((xs, rest)) {
          var (x', r1) := TakeBranch(S, b).value;
          var (xs', r2) := TakeBranches(S, r1, n - 1).value;
          assert ([x'] + xs')[1..] == xs';
          TakeBranchExact(S, b, x, r1);
          TakeBranchesExact(S, r1, n - 1, xs[1..], rest);
        }
      } else if TakeBranches(S, b, n).Accept? {
        var (x', r1) := TakeBranch(S, b).value;
        var (xs', r2) := TakeBranches(S, r1, n - 1).value;
        TakeBranchesExact(S, r1, n - 1, xs', r2);
      }
    }
  }

  predicate WireHead(S: Suite, h: Head) {
    && |h.pid| == 32 && |h.nonceC| == 32 && WireProof(S, h.cp) && WireProof(S, h.rp)
    && WirePoint(S, h.ephC) && WirePoint(S, h.cPrime)
  }

  function HeadBytes(S: Suite, h: Head): seq<byte> {
    h.pid + (ProofBytes(S, h.cp) + (h.nonceC + (S.encode(h.ephC) + (S.encode(h.cPrime) + ProofBytes(S, h.rp)))))
  }

  lemma TakeHeadEncoded(S: Suite, h: Head, rest: seq<byte>)
    requires Valid(S) && WireHead(S, h)
    ensures TakeHead(S, HeadBytes(S, h) + rest) == Accept((h, rest))
  {
    hide TakePoint, TakeFixed, TakeProof, ProofBytes, WireProof, Valid;
    var b6 := ProofBytes(S, h.rp) + rest;
    var b5 := S.encode(h.cPrime) + b6;
    var b4 := S.encode(h.ephC) + b5;
    var b3 := h.nonceC + b4;
    var b2 := ProofBytes(S, h.cp) + b3;
    assert HeadBytes(S, h) + rest == h.pid + b2;
    TakeFixedExact(h.pid + b2, 32, h.pid, b2);
    TakeProofExact(S, b2, h.cp, b3);
    TakeFixedExact(b3, 32, h.nonceC, b4);
    TakePointExact(S, b4, h.ephC, b5);
    TakePointExact(S, b5, h.cPrime, b6);
    TakeProofExact(S, b6, h.rp, rest);
  }

  lemma TakeHeadDecoded(S: Suite, b: seq<byte>)
    requires Valid(S) && TakeHead(S, b).Accept?
    ensures var (h, rest) := TakeHead(S, b).value;
            WireHead(S, h) && b == HeadBytes(S, h) + rest
  {
    hide TakePoint, TakeFixed, TakeProof, ProofBytes, WireProof, Valid;
    var h := TakeHead(S, b).value.0;
    TakeFixedDecoded(b, 32);
    var r1 := TakeFixed(b, 32).value.1;
    TakeProofDecoded(S, r1);
    var r2 := TakeProof(S, r1).value.1;
    TakeFixedDecoded(r2, 32);
    var r3 := TakeFixed(r2, 32).value.1;
    TakePointDecoded(S, r3);
    var r4 := TakePoint(S, r3).value.1;
    TakePointDecoded(S, r4);
    var r5 := TakePoint(S, r4).value.1;
    TakeProofDecoded(S, r5);
    var r6 := TakeProof(S, r5).value.1;
    assert HeadBytes(S, h) + r6 == h.pid + (ProofBytes(S, h.cp)
      + (h.nonceC + (S.encode(h.ephC) + (S.encode(h.cPrime) + (ProofBytes(S, h.rp) + r6)))));
  }

  function HeadOf(m: Auth1): Head {
    Head(m.pid, m.clientProof, m.nonceC, m.ephC, m.cPrime, m.rerandProof)
  }

  lemma EncodeAuth1Split(S: Suite, m: Auth1)
    ensures EncodeAuth1(S, m)
         == HeadBytes(S, HeadOf(m)) + (U16(|m.branches|) + EncodeBranches(RawBranches(S, m.branches)))
  {
    hide EncodeBranches, RawBranches, ScalarBytes;
    var tail := U16(|m.branches|) + EncodeBranches(RawBranches(S, m.branches));
    assert EncodeHead(RawOf(S, m)) == HeadBytes(S, HeadOf(m));
  }

  lemma TailEncoded(S: Suite, m: Auth1)
    requires Valid(S) && Sendable(S, m)
    ensures DecodeTail(S, HeadOf(m), U16(|m.branches|) + EncodeBranches(RawBranches(S, m.branches))) == Accept(m)
  {
    hide TakeBranches, EncodeBranches, Valid;
    var n, body := |m.branches|, EncodeBranches(RawBranches(S, m.branches));
    var b := U16(n) + body;
    assert b[0..2] == U16(n) && b[2..] == body;
    U16RoundTrip(n, b, 0);
    ShapedRaw(S, m.branches);
    EncodeBranchesLength(RawBranches(S, m.branches));
    TakeBranchesExact(S, body, n, m.branches, []);
    assert body + [] == body;
  }

  lemma ShapedRaw(S: Suite, bs: seq<RoleSet.Branch>)
    requires Valid(S) && forall i | 0 <= i < |bs| :: WireBranch(S, bs[i])
    ensures forall i | 0 <= i < |bs| :: ShapedBranch(RawBranches(S, bs)[i])
  {
  }

  lemma TakeBranchesDecoded(S: Suite, b: seq<byte>, n: nat)
    requires Valid(S) && TakeBranches(S, b, n).Accept?
    ensures var (xs, rest) := TakeBranches(S, b, n).value;
            && |xs| == n && (forall i | 0 <= i < n :: WireBranch(S, xs[i]))
            && b == EncodeBranches(RawBranches(S, xs)) + rest
  {
    hide EncodeBranches, WireBranch, Valid;
    TakeBranchesExact(S, b, n, TakeBranches(S, b, n).value.0, TakeBranches(S, b, n).value.1);
  }

  lemma TailDecoded(S: Suite, h: Head, b: seq<byte>)
    requires Valid(S) && DecodeTail(S, h, b).Accept?
    ensures var m := DecodeTail(S, h, b).value;
            && HeadOf(m) == h && |m.branches| < 0x1_0000
            && (forall i | 0 <= i < |m.branches| :: WireBranch(S, m.branches[i]))
            && b == U16(|m.branches|) + EncodeBranches(RawBranches(S, m.branches))
  {
    hide TakeBranches, EncodeBranches, Valid, WireBranch;
    var n, m := LoadU16(b, 0), DecodeTail(S, h, b).value;
    TakeBranchesDecoded(S, b[2..], n);
    LoadU16IsFromLE(b, 0);
    var body := EncodeBranches(RawBranches(S, m.branches));
    assert body + [] == body;
    assert b == b[0..2] + b[2..];
  }

  /**
    The Rust decoder accepts exactly the encodings of sendable messages: it inverts the
    encoder for every branch count, and rejects trailing or missing bytes, identity points and
    non-canonical scalars.
  */
  lemma DecodeAuth1Exact(S: Suite, b: seq<byte>, m: Auth1)
    requires Valid(S)
    ensures DecodeAuth1(S, b) == Accept(m) <==> Sendable(S, m) && b == EncodeAuth1(S, m)
  {
    hide TakeHead, DecodeTail, EncodeAuth1, Valid, HeadBytes;
    EncodeAuth1Split(S, m);
    var tail := U16(|m.branches|) + EncodeBranches(RawBranches(S, m.branches));
    if Sendable(S, m) {
      TakeHeadEncoded(S, HeadOf(m), tail);
      TailEncoded(S, m);
    }
    if DecodeAuth1(S, b) == Accept(m) {
      TakeHeadDecoded(S, b);
      TailDecoded(S, TakeHead(S, b).value.0, TakeHead(S, b).value.1);
    }
  }

  /** A message Rust accepts with at most eight branches is read by C as its raw form. */
  lemma LanesReadAlike(S: Suite, b: seq<byte>)
    requires Valid(S) && DecodeAuth1(S, b).Accept? && |DecodeAuth1(S, b).value.branches| <= MAX_BRANCHES_C
    ensures DecodeRaw(b, MAX_BRANCHES_C) == Accept(RawOf(S, DecodeAuth1(S, b).value))
  {
    hide DecodeAuth1, EncodeRaw, DecodeRaw;
    var m := DecodeAuth1(S, b).value;
    DecodeAuth1Exact(S, b, m);
    ShapedRaw(S, m.branches);
    DecodeRawExact(b, MAX_BRANCHES_C, RawOf(S, m));
  }

  // ---- The Rust decoder ----

  lemma TakeBranchesStep(S: Suite, b: seq<byte>, n: nat, done: seq<RoleSet.Branch>)
    requires n > 0 && TakeBranch(S, b).Accept?
    ensures var (x, r1) := TakeBranch(S, b).value;
            AddFront(done, TakeBranches(S, b, n)) == AddFront(done + [x], TakeBranches(S, r1, n - 1))
  {
    var (x, r1) := TakeBranch(S, b).value;
    var r := TakeBranches(S, r1, n - 1);
    if r.Accept? { ConcatAssoc(done, [x], r.value.0); }
  }

  function AddFront(done: seq<RoleSet.Branch>, r: Outcome<(seq<RoleSet.Branch>, seq<byte>)>):
    Outcome<(seq<RoleSet.Branch>, seq<byte>)>
  {
    match r
    case Accept((xs, rest)) => Accept((done + xs, rest))
    case Reject(e) => Reject(e)
  }

  /** The imperative decoder: the branch loop pushes onto a vector. */
  method ReadAuth1(S: Suite, buf: seq<byte>) returns (r: Outcome<Auth1>)
    ensures r == DecodeAuth1(S, buf)
  {
    hide TakeBranch, TakeHead;
    var head := TakeHead(S, buf);
    if head.Reject? { return Reject(head.error); }
    var (h, rest) := head.value;
    if |rest| < 2 { return Reject(PayloadTooShort); }
    var n := LoadU16(rest, 0);
    rest := rest[2..];
    if |rest| < 96 * n { return Reject(PayloadTooShort); }
    ghost var whole := TakeBranches(S, rest, n);
    var branches: seq<RoleSet.Branch> := [];
    assert whole.Accept? ==> [] + whole.value.0 == whole.value.0;
    for i := 0 to n
      invariant whole == AddFront(branches, TakeBranches(S, rest, n - i))
    {
      var x := TakeBranch(S, rest);
      if x.Reject? { return Reject(x.error); }
      TakeBranchesStep(S, rest, n - i, branches);
      branches, rest := branches + [x.value.0], x.value.1;
    }
    assert branches + [] == branches;
    if rest != [] { return Reject(MalformedPacket); }
    return Accept(Auth1(h.pid, h.cp, h.nonceC, h.ephC, h.cPrime, h.rp, branches));
  }

  // ---- AUTH_2 and AUTH_3 ----

  datatype Auth2 = Auth2(serverPub: nat, serverProof: Proof, nonceS: seq<byte>, ephS: nat, tagS: seq<byte>)

  predicate Sendable2(S: Suite, m: Auth2) {
    && WirePoint(S, m.serverPub) && WireProof(S, m.serverProof) && |m.nonceS| == 32
    && WirePoint(S, m.ephS) && |m.tagS| == 32
  }

  function EncodeAuth2(S: Suite, m: Auth2): seq<byte> {
    S.encode(m.serverPub) + (ProofBytes(S, m.serverProof) + (m.nonceS + (S.encode(m.ephS) + m.tagS)))
  }

  function DecodeAuth2(S: Suite, b: seq<byte>): Outcome<Auth2> {
    var (serverPub, r1) :- TakePoint(S, b);
    var (proof, r2) :- TakeProof(S, r1);
    var (nonceS, r3) :- TakeFixed(r2, 32);
    var (ephS, r4) :- TakePoint(S, r3);
    var (tagS, r5) :- TakeFixed(r4, 32);
    if r5 != [] then Reject(MalformedPacket)
    else Accept(Auth2(serverPub, proof, nonceS, ephS, tagS))
  }

  lemma Auth2Decoded(S: Suite, b: seq<byte>)
    requires Valid(S) && DecodeAuth2(S, b).Accept?
    ensures Sendable2(S, DecodeAuth2(S, b).value) && b == EncodeAuth2(S, DecodeAuth2(S, b).value)
  {
    hide TakePoint, TakeFixed, TakeProof, ProofBytes, WireProof, Valid;
    TakePointDecoded(S, b);
    var r1 := TakePoint(S, b).value.1;
    TakeProofDecoded(S, r1);
    var r2 := TakeProof(S, r1).value.1;
    TakeFixedDecoded(r2, 32);
    var r3 := TakeFixed(r2, 32).value.1;
    TakePointDecoded(S, r3);
    var r4 := TakePoint(S, r3).value.1;
    TakeFixedDecoded(r4, 32);
    var tag := TakeFixed(r4, 32).value.0;
    assert tag + [] == tag;
  }

  /** The AUTH_2 decoder, too, accepts exactly the encodings of sendable messages. */
  lemma DecodeAuth2Exact(S: Suite, b: seq<byte>, m: Auth2)
    requires Valid(S)
    ensures DecodeAuth2(S, b) == Accept(m) <==> Sendable2(S, m) && b == EncodeAuth2(S, m)
  {
    hide Valid, ProofBytes, TakeProof, TakePoint;
    if DecodeAuth2(S, b) == Accept(m) { Auth2Decoded(S, b); }
    if Sendable2(S, m) && b == EncodeAuth2(S, m) {
      var b4 := S.encode(m.ephS) + m.tagS;
      var b3 := m.nonceS + b4;
      var b2 := ProofBytes(S, m.serverProof) + b3;
      TakePointExact(S, b, m.serverPub, b2);
      TakeProofExact(S, b2, m.serverProof, b3);
      TakeFixedExact(b3, 32, m.nonceS, b4);
      TakePointExact(S, b4, m.ephS, m.tagS);
      assert m.tagS + [] == m.tagS;
    }
  }

  /** AUTH_3 is the 32-byte tag alone. */
  function DecodeAuth3(b: seq<byte>): Outcome<seq<byte>> {
    if |b| < 32 then Reject(PayloadTooShort)
    else if |b| > 32 then Reject(MalformedPacket)
    else Accept(b)
  }
}
