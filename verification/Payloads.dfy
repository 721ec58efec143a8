/**
  The AUTH_1 payload: eight 32-byte fields, a 16-bit branch count and three 32-byte fields per
  branch. The C lane codes it over raw bytes; the Rust lane also validates points and scalars.
*/
module Payloads {
  import opened Bytes
  import opened Errors
  import opened Buffers

  /** A decoding result that composes with `:-`. */
  datatype Outcome<+T> = Accept(value: T) | Reject(error: Err) {
    predicate IsFailure() { Reject? }

    function PropagateFailure<U>(): Outcome<U>
      requires Reject?
    {
      Reject(error)
    }

    function Extract(): T
      requires Accept?
    {
      value
    }
  }

  const MAX_BRANCHES_C: nat := 8
  const HEAD_LEN: nat := 256

  // ---- The raw layout ----

  datatype RawBranch = RawBranch(a: seq<byte>, c: seq<byte>, s: seq<byte>)

  datatype RawAuth1 = RawAuth1(
    pid: seq<byte>, ac: seq<byte>, sc: seq<byte>, nonceC: seq<byte>, ephC: seq<byte>, cPrime: seq<byte>,
    ra: seq<byte>, rs: seq<byte>, branches: seq<RawBranch>)

  predicate ShapedBranch(b: RawBranch) {
    |b.a| == |b.c| == |b.s| == 32
  }

  predicate Shaped(m: RawAuth1) {
    && |m.pid| == |m.ac| == |m.sc| == |m.nonceC| == |m.ephC| == |m.cPrime| == |m.ra| == |m.rs| == 32
    && forall i | 0 <= i < |m.branches| :: ShapedBranch(m.branches[i])
  }

  function EncodeBranch(b: RawBranch): seq<byte> {
    b.a + b.c + b.s
  }

  function EncodeBranches(bs: seq<RawBranch>): seq<byte>
    decreases bs
  {
    if bs == [] then [] else EncodeBranch(bs[0]) + EncodeBranches(bs[1..])
  }

  function EncodeHead(m: RawAuth1): seq<byte> {
    m.pid + m.ac + m.sc + m.nonceC + m.ephC + m.cPrime + m.ra + m.rs
  }

  function EncodeRaw(m: RawAuth1): seq<byte> {
    EncodeHead(m) + (U16(|m.branches|) + EncodeBranches(m.branches))
  }

  lemma {:induction false} EncodeBranchesLength(bs: seq<RawBranch>)
    requires forall i | 0 <= i < |bs| :: ShapedBranch(bs[i])
    ensures |EncodeBranches(bs)| == 96 * |bs|
    decreases bs
  {
    if bs != [] { EncodeBranchesLength(bs[1..]); }
  }

  lemma {:induction false} EncodeBranchesSnoc(bs: seq<RawBranch>, b: RawBranch)
    ensures EncodeBranches(bs + [b]) == EncodeBranches(bs) + EncodeBranch(b)
    decreases bs
  {
    hide EncodeBranch;
    if bs == [] {
      assert EncodeBranches([b]) == EncodeBranch(b) + EncodeBranches([]);
    } else {
      assert (bs + [b])[1..] == bs[1..] + [b];
      EncodeBranchesSnoc(bs[1..], b);
      ConcatAssoc(EncodeBranch(bs[0]), EncodeBranches(bs[1..]), EncodeBranch(b));
    }
  }

  // ---- Decoding raw bytes ----

  function BranchAt(b: seq<byte>, off: nat): RawBranch
    requires off + 96 <= |b|
  {
    RawBranch(b[off..off + 32], b[off + 32..off + 64], b[off + 64..off + 96])
  }

  function BranchesFrom(b: seq<byte>, off: nat, n: nat): (r: seq<RawBranch>)
    requires off + 96 * n <= |b|
    ensures |r| == n
    ensures forall i | 0 <= i < n :: ShapedBranch(r[i])
    decreases n
  {
    if n == 0 then [] else [BranchAt(b, off)] + BranchesFrom(b, off + 96, n - 1)
  }

  function HeadFrom(b: seq<byte>, branches: seq<RawBranch>): RawAuth1
    requires |b| >= HEAD_LEN
  {
    RawAuth1(b[0..32], b[32..64], b[64..96], b[96..128], b[128..160], b[160..192], b[192..224], b[224..256], branches)
  }

  /** The raw decoder, with the largest branch count it will read. */
  function DecodeRaw(b: seq<byte>, maxBranches: nat): (r: Outcome<RawAuth1>)
    ensures r.Reject? ==> r.error == PayloadTooShort || r.error == MalformedPacket
  {
    if |b| < HEAD_LEN + 2 then Reject(PayloadTooShort)
    else
      var n := LoadU16(b, HEAD_LEN);
      if n > maxBranches then Reject(MalformedPacket)
      else if |b| - (HEAD_LEN + 2) < 96 * n then Reject(PayloadTooShort)
      else if |b| != HEAD_LEN + 2 + 96 * n then Reject(MalformedPacket)
      else Accept(HeadFrom(b, BranchesFrom(b, HEAD_LEN + 2, n)))
  }

  lemma {:induction false} BranchesEncodeBack(b: seq<byte>, off: nat, n: nat)
    requires off + 96 * n <= |b|
    ensures EncodeBranches(BranchesFrom(b, off, n)) == b[off..off + 96 * n]
    decreases n
  {
    if n > 0 {
      BranchesEncodeBack(b, off + 96, n - 1);
      assert EncodeBranch(BranchAt(b, off)) == b[off..off + 96];
      assert BranchesFrom(b, off, n)[1..] == BranchesFrom(b, off + 96, n - 1);
      assert b[off..off + 96 * n] == b[off..off + 96] + b[off + 96..off + 96 * n];
    }
  }

  lemma {:induction false} BranchesDecodeBack(pre: seq<byte>, bs: seq<RawBranch>)
    requires forall i | 0 <= i < |bs| :: ShapedBranch(bs[i])
    ensures |EncodeBranches(bs)| == 96 * |bs|
    ensures BranchesFrom(pre + EncodeBranches(bs), |pre|, |bs|) == bs
    decreases bs
  {
    EncodeBranchesLength(bs);
    if bs != [] {
      var b := pre + EncodeBranches(bs);
      var head, tail := EncodeBranch(bs[0]), EncodeBranches(bs[1..]);
      EncodeBranchesLength(bs[1..]);
      ConcatAssoc(pre, head, tail);
      BranchesDecodeBack(pre + head, bs[1..]);
      assert b[|pre|..|pre| + 96] == head;
      assert BranchAt(b, |pre|) == bs[0] by {
        assert head[0..32] == bs[0].a && head[32..64] == bs[0].c && head[64..96] == bs[0].s;
        assert b[|pre|..|pre| + 32] == head[0..32];
        assert b[|pre| + 32..|pre| + 64] == head[32..64];
        assert b[|pre| + 64..|pre| + 96] == head[64..96];
      }
    }
  }

  lemma HeadDecodesBack(m: RawAuth1, rest: seq<byte>)
    requires Shaped(m)
    ensures |EncodeHead(m)| == HEAD_LEN
    ensures HeadFrom(EncodeHead(m) + rest, m.branches) == m
  {
  }

  lemma HeadEncodesBack(b: seq<byte>, bs: seq<RawBranch>)
    requires |b| >= HEAD_LEN
    ensures EncodeHead(HeadFrom(b, bs)) == b[..HEAD_LEN]
  {
  }

  /** Decoding inverts encoding for every branch count within the bound... */
  lemma EncodedDecodes(m: RawAuth1, maxBranches: nat)
    requires Shaped(m) && |m.branches| <= maxBranches < 0x1_0000
    ensures DecodeRaw(EncodeRaw(m), maxBranches) == Accept(m)
  {
    hide EncodeHead, HeadFrom, EncodeBranch;
    var n, b := |m.branches|, EncodeRaw(m);
    var tail := U16(n) + EncodeBranches(m.branches);
    HeadDecodesBack(m, tail);
    var pre := EncodeHead(m) + U16(n);
    ConcatAssoc(EncodeHead(m), U16(n), EncodeBranches(m.branches));
    BranchesDecodeBack(pre, m.branches);
    assert b == pre + EncodeBranches(m.branches);
    assert b[HEAD_LEN..HEAD_LEN + 2] == U16(n);
    U16RoundTrip(n, b, HEAD_LEN);
  }

  /** ...and accepted bytes are the encoding of what they decode to: nothing trails. */
  lemma DecodedEncodes(b: seq<byte>, maxBranches: nat)
    requires DecodeRaw(b, maxBranches).Accept?
    ensures var m := DecodeRaw(b, maxBranches).value;
            Shaped(m) && |m.branches| <= maxBranches && EncodeRaw(m) == b
  {
    hide EncodeHead, EncodeBranch;
    var m, n := DecodeRaw(b, maxBranches).value, LoadU16(b, HEAD_LEN);
    HeadEncodesBack(b, m.branches);
    BranchesEncodeBack(b, HEAD_LEN + 2, n);
    LoadU16IsFromLE(b, HEAD_LEN);
    assert b == b[..HEAD_LEN] + (b[HEAD_LEN..HEAD_LEN + 2] + b[HEAD_LEN + 2..HEAD_LEN + 2 + 96 * n]);
  }

  lemma DecodeRawExact(b: seq<byte>, maxBranches: nat, m: RawAuth1)
    requires maxBranches < 0x1_0000
    ensures DecodeRaw(b, maxBranches) == Accept(m)
       <==> Shaped(m) && |m.branches| <= maxBranches && b == EncodeRaw(m)
  {
    hide DecodeRaw, EncodeRaw, Shaped;
    if DecodeRaw(b, maxBranches) == Accept(m) { DecodedEncodes(b, maxBranches); }
    if Shaped(m) && |m.branches| <= maxBranches { EncodedDecodes(m, maxBranches); }
  }

  /** A message cut short anywhere is too short, and one with anything behind it malformed. */
  lemma TruncatedOrExtended(m: RawAuth1, maxBranches: nat, k: nat, extra: seq<byte>)
    requires Shaped(m) && |m.branches| <= maxBranches < 0x1_0000
    ensures k < |EncodeRaw(m)| ==> DecodeRaw(EncodeRaw(m)[..k], maxBranches) == Reject(PayloadTooShort)
    ensures extra != [] ==> DecodeRaw(EncodeRaw(m) + extra, maxBranches) == Reject(MalformedPacket)
  {
    hide EncodeRaw, BranchesFrom, HeadFrom;
    var b := EncodeRaw(m);
    EncodedDecodes(m, maxBranches);
    if k < |b| && HEAD_LEN + 2 <= k {
      assert b[..k][HEAD_LEN] == b[HEAD_LEN] && b[..k][HEAD_LEN + 1] == b[HEAD_LEN + 1];
    }
    assert (b + extra)[HEAD_LEN] == b[HEAD_LEN] && (b + extra)[HEAD_LEN + 1] == b[HEAD_LEN + 1];
  }

  lemma {:induction false} BranchesAt(b: seq<byte>, off: nat, n: nat, i: nat)
    requires off + 96 * n <= |b| && i < n
    ensures off + 96 * i + 96 <= |b| && BranchesFrom(b, off, n)[i] == BranchAt(b, off + 96 * i)
    decreases n
  {
    if i > 0 { BranchesAt(b, off + 96, n - 1, i - 1); }
  }

  /** Where every field of the payload lies. */
  lemma Auth1Layout(m: RawAuth1, i: nat)
    requires Shaped(m) && |m.branches| < 0x1_0000
    ensures var b := EncodeRaw(m);
            && |b| == 258 + 96 * |m.branches|
            && b[0..32] == m.pid && b[32..64] == m.ac && b[64..96] == m.sc && b[96..128] == m.nonceC
            && b[128..160] == m.ephC && b[160..192] == m.cPrime && b[192..224] == m.ra && b[224..256] == m.rs
            && b[256] == |m.branches| % 256 && b[257] == |m.branches| / 256
            && (i < |m.branches| ==>
                  var o := 258 + 96 * i;
                  b[o..o + 32] == m.branches[i].a && b[o + 32..o + 64] == m.branches[i].c && b[o + 64..o + 96] == m.branches[i].s)
  {
    hide EncodeRaw, BranchesFrom;
    var b, n := EncodeRaw(m), |m.branches|;
    EncodedDecodes(m, n);
    assert b[256] as nat + 256 * b[257] as nat == n;
    if i < n { BranchesAt(b, 258, n, i); }
  }

  // ---- The C codec ----

  method Take(buf: seq<byte>, off: nat) returns (err: Err, value: seq<byte>, next: nat)
    requires off <= |buf|
    ensures err == if off + 32 <= |buf| then Ok else PayloadTooShort
    ensures err == Ok ==> value == buf[off..off + 32] && next == off + 32
  {
    if off + 32 > |buf| { return PayloadTooShort, [], off; }
    return Ok, buf[off..off + 32], off + 32;
  }

  method DecodeAuth1C(buf: seq<byte>) returns (r: Outcome<RawAuth1>)
    ensures r == DecodeRaw(buf, MAX_BRANCHES_C)
  {
    var err, pid, off := Take(buf, 0);
    if err != Ok { return Reject(err); }
    var ac, sc, nonceC, ephC, cPrime, ra, rs: seq<byte>;
    err, ac, off := Take(buf, off);
    if err != Ok { return Reject(err); }
    err, sc, off := Take(buf, off);
    if err != Ok { return Reject(err); }
    err, nonceC, off := Take(buf, off);
    if err != Ok { return Reject(err); }
    err, ephC, off := Take(buf, off);
    if err != Ok { return Reject(err); }
    err, cPrime, off := Take(buf, off);
    if err != Ok { return Reject(err); }
    err, ra, off := Take(buf, off);
    if err != Ok { return Reject(err); }
    err, rs, off := Take(buf, off);
    if err != Ok { return Reject(err); }
    if |buf| - off < 2 { return Reject(PayloadTooShort); }
    var n := LoadU16(buf, off);
    off := off + 2;
    if n > MAX_BRANCHES_C { return Reject(MalformedPacket); }
    if |buf| - off < n * 96 { return Reject(PayloadTooShort); }
    var branches: seq<RawBranch>;
    err, branches, off := TakeBranches(buf, off, n);
    if off != |buf| { return Reject(MalformedPacket); }
    return Accept(RawAuth1(pid, ac, sc, nonceC, ephC, cPrime, ra, rs, branches));
  }

  lemma NextBranch(buf: seq<byte>, off: nat, n: nat, done: seq<RawBranch>)
    requires n > 0 && off + 96 * n <= |buf|
    ensures var b := RawBranch(buf[off..off + 32], buf[off + 32..off + 64], buf[off + 64..off + 96]);
            done + BranchesFrom(buf, off, n) == (done + [b]) + BranchesFrom(buf, off + 96, n - 1)
  {
    ConcatAssoc(done, [BranchAt(buf, off)], BranchesFrom(buf, off + 96, n - 1));
  }

  lemma NoBranches(buf: seq<byte>, off: nat, done: seq<RawBranch>)
    requires off <= |buf|
    ensures done + BranchesFrom(buf, off, 0) == done && [] + done == done
  {
  }

  /** The branch loop; the caller has already checked that the bytes are there. */
  method TakeBranches(buf: seq<byte>, start: nat, n: nat) returns (err: Err, branches: seq<RawBranch>, off: nat)
    requires start + 96 * n <= |buf|
    ensures err == Ok && off == start + 96 * n && branches == BranchesFrom(buf, start, n)
  {
    hide *;
    branches, off, err := [], start, Ok;
    for i := 0 to n
      invariant off == start + 96 * i && |branches| == i
      invariant BranchesFrom(buf, start, n) == branches + BranchesFrom(buf, off, n - i)
    {
      var a, c, s: seq<byte>;
      NextBranch(buf, off, n - i, branches);
      err, a, off := Take(buf, off);
      err, c, off := Take(buf, off);
      err, s, off := Take(buf, off);
      branches := branches + [RawBranch(a, c, s)];
    }
    NoBranches(buf, off, branches);
    err := Ok;
  }

  method EncodeAuth1C(m: RawAuth1, buf: array<byte>) returns (err: Err, written: nat)
    requires Shaped(m)
    modifies buf
    ensures err == if |m.branches| > MAX_BRANCHES_C then InvalidArgument
                   else if buf.Length < HEAD_LEN + 2 + 96 * |m.branches| then BufferTooSmall
                   else Ok
    ensures err == Ok ==> written == |EncodeRaw(m)| <= buf.Length && buf[..written] == EncodeRaw(m)
  {
    hide EncodeHead, EncodeBranches;
    var n := |m.branches|;
    if n > MAX_BRANCHES_C { return InvalidArgument, 0; }
    if buf.Length < HEAD_LEN + 2 + 96 * n { return BufferTooSmall, 0; }
    var off := PutHead(buf, m);
    U16Bytes(n);
    off := Copy(buf, off, [n % 256, n / 256 % 256]);
    ConcatAssoc(EncodeHead(m), U16(n), EncodeBranches(m.branches));
    off := PutBranches(buf, off, m.branches);
    return Ok, off;
  }

  method PutBranches(buf: array<byte>, start: nat, bs: seq<RawBranch>) returns (off: nat)
    requires forall i | 0 <= i < |bs| :: ShapedBranch(bs[i])
    requires start + 96 * |bs| <= buf.Length
    modifies buf
    ensures off == start + 96 * |bs| && buf[..off] == old(buf[..start]) + EncodeBranches(bs)
  {
    hide EncodeBranch;
    ghost var pre := buf[..start];
    off := start;
    for i := 0 to |bs|
      invariant off == start + 96 * i
      invariant buf[..off] == pre + EncodeBranches(bs[..i])
    {
      assert bs[..i + 1] == bs[..i] + [bs[i]];
      EncodeBranchesSnoc(bs[..i], bs[i]);
      ConcatAssoc(pre, EncodeBranches(bs[..i]), EncodeBranch(bs[i]));
      off := PutBranch(buf, off, bs[i]);
    }
    assert bs[..|bs|] == bs;
  }

  method PutBranch(buf: array<byte>, start: nat, br: RawBranch) returns (off: nat)
    requires ShapedBranch(br) && start + 96 <= buf.Length
    modifies buf
    ensures off == start + 96 && buf[..off] == old(buf[..start]) + EncodeBranch(br)
  {
    off := Copy(buf, start, br.a);
    off := Copy(buf, off, br.c);
    off := Copy(buf, off, br.s);
  }

  method PutHead(buf: array<byte>, m: RawAuth1) returns (off: nat)
    requires Shaped(m) && buf.Length >= HEAD_LEN
    modifies buf
    ensures off == HEAD_LEN && buf[..off] == EncodeHead(m)
  {
    off := Copy(buf, 0, m.pid);
    off := Copy(buf, off, m.ac);
    off := Copy(buf, off, m.sc);
    off := Copy(buf, off, m.nonceC);
    off := Copy(buf, off, m.ephC);
    off := Copy(buf, off, m.cPrime);
    off := Copy(buf, off, m.ra);
    off := Copy(buf, off, m.rs);
  }
}
