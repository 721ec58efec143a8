/**
  HKDF with SHA-256, sections 2.2 and 2.3 of RFC 5869, as the C lane composes it from HMAC:
  one output loop over a 32-byte block and a one-byte counter.
*/
module Hkdf {
  import opened Bytes
  import opened Errors
  import opened Buffers

  type Hmac = (seq<byte>, seq<byte>) -> seq<byte>

  const HASH_LEN: nat := 32
  const MAX_OKM: nat := 255 * HASH_LEN

  ghost predicate Digests(hmac: Hmac) {
    forall k: seq<byte>, m: seq<byte> :: |hmac(k, m)| == HASH_LEN
  }

  function Zeros(n: nat): (r: seq<byte>)
    ensures |r| == n
  {
    seq(n, i => 0)
  }

  // ---- RFC 5869 ----

  function Extract(hmac: Hmac, salt: seq<byte>, ikm: seq<byte>): seq<byte> {
    hmac(if salt == [] then Zeros(HASH_LEN) else salt, ikm)
  }

  function T(hmac: Hmac, prk: seq<byte>, info: seq<byte>, i: nat): seq<byte>
    requires i <= 255
  {
    if i == 0 then [] else hmac(prk, T(hmac, prk, info, i - 1) + info + [i])
  }

  /** T(1) || T(2) || ... || T(n). */
  function Blocks(hmac: Hmac, prk: seq<byte>, info: seq<byte>, n: nat): seq<byte>
    requires n <= 255
  {
    if n == 0 then [] else Blocks(hmac, prk, info, n - 1) + T(hmac, prk, info, n)
  }

  lemma {:induction false} BlocksLength(hmac: Hmac, prk: seq<byte>, info: seq<byte>, n: nat)
    requires n <= 255 && Digests(hmac)
    ensures |Blocks(hmac, prk, info, n)| == HASH_LEN * n
  {
    if n > 0 {
      BlocksLength(hmac, prk, info, n - 1);
    }
  }

  function BlocksFor(len: nat): (n: nat)
    requires len <= MAX_OKM
    ensures n <= 255 && len <= HASH_LEN * n
  {
    (len + HASH_LEN - 1) / HASH_LEN
  }

  function Expand(hmac: Hmac, prk: seq<byte>, info: seq<byte>, len: nat): (okm: seq<byte>)
    requires len <= MAX_OKM && Digests(hmac)
    ensures |okm| == len
  {
    BlocksLength(hmac, prk, info, BlocksFor(len));
    Blocks(hmac, prk, info, BlocksFor(len))[..len]
  }

  lemma {:induction false} BlocksPrefix(hmac: Hmac, prk: seq<byte>, info: seq<byte>, m: nat, n: nat)
    requires m <= n <= 255 && Digests(hmac)
    ensures |Blocks(hmac, prk, info, m)| == HASH_LEN * m <= |Blocks(hmac, prk, info, n)|
    ensures Blocks(hmac, prk, info, n)[..HASH_LEN * m] == Blocks(hmac, prk, info, m)
    decreases n
  {
    BlocksLength(hmac, prk, info, m);
    BlocksLength(hmac, prk, info, n);
    if m < n {
      BlocksPrefix(hmac, prk, info, m, n - 1);
    }
  }

  /** Byte i of the output is byte i mod 32 of T(i/32 + 1). */
  lemma ExpandByte(hmac: Hmac, prk: seq<byte>, info: seq<byte>, len: nat, i: nat)
    requires i < len <= MAX_OKM && Digests(hmac)
    ensures i / HASH_LEN + 1 <= 255
    ensures |T(hmac, prk, info, i / HASH_LEN + 1)| == HASH_LEN
    ensures Expand(hmac, prk, info, len)[i] == T(hmac, prk, info, i / HASH_LEN + 1)[i % HASH_LEN]
  {
    var b := i / HASH_LEN;
    BlocksPrefix(hmac, prk, info, b + 1, BlocksFor(len));
    BlocksPrefix(hmac, prk, info, b, b + 1);
    assert Blocks(hmac, prk, info, BlocksFor(len))[i] == Blocks(hmac, prk, info, b + 1)[i];
  }

  /** A shorter output is a prefix of a longer one. */
  lemma ExpandPrefix(hmac: Hmac, prk: seq<byte>, info: seq<byte>, m: nat, n: nat)
    requires m <= n <= MAX_OKM && Digests(hmac)
    ensures Expand(hmac, prk, info, m) == Expand(hmac, prk, info, n)[..m]
  {
    forall i | 0 <= i < m
      ensures Expand(hmac, prk, info, m)[i] == Expand(hmac, prk, info, n)[i]
    {
      ExpandByte(hmac, prk, info, m, i);
      ExpandByte(hmac, prk, info, n, i);
    }
  }

  // ---- The C loop ----

  lemma NextBlock(hmac: Hmac, prk: seq<byte>, info: seq<byte>, n: nat)
    requires n < 255 && Digests(hmac)
    ensures T(hmac, prk, info, n + 1) == hmac(prk, T(hmac, prk, info, n) + info + [n + 1])
    ensures |Blocks(hmac, prk, info, n + 1)| == HASH_LEN * n + HASH_LEN && |T(hmac, prk, info, n + 1)| == HASH_LEN
    ensures Blocks(hmac, prk, info, n + 1) == Blocks(hmac, prk, info, n) + T(hmac, prk, info, n + 1)
  {
    BlocksLength(hmac, prk, info, n + 1);
  }

  /**
    Fills the whole output buffer, or rejects an empty or over-long one. The counter is one
    byte and wraps after block 255, which is never followed by another block.
  */
  method HkdfC(hmac: Hmac, okm: array<byte>, salt: seq<byte>, ikm: seq<byte>, info: seq<byte>) returns (err: Err)
    requires Digests(hmac)
    modifies okm
    ensures err == Ok <==> 0 < okm.Length <= MAX_OKM
    ensures err == Ok ==> okm[..] == Expand(hmac, Extract(hmac, salt, ikm), info, okm.Length)
    ensures err != Ok ==> err == InvalidArgument && okm[..] == old(okm[..])
  {
    var len := okm.Length;
    if len == 0 || len > MAX_OKM { return InvalidArgument; }
    var prk := Extract(hmac, salt, ikm);
    var t: seq<byte>, written: nat, counter: byte := [], 0, 1;
    ghost var n := 0;
    BlocksLength(hmac, prk, info, 0);
    assert T(hmac, prk, info, 0) == [];
    hide T, Blocks, Digests;
    while written < len
      invariant n <= 255 && written <= len && t == T(hmac, prk, info, n)
      invariant counter == (n + 1) % 256
      invariant written == if HASH_LEN * n <= len then HASH_LEN * n else len
      invariant HASH_LEN * n < len + HASH_LEN
      invariant |Blocks(hmac, prk, info, n)| == HASH_LEN * n
      invariant okm[..written] == Blocks(hmac, prk, info, n)[..written]
    {
      NextBlock(hmac, prk, info, n);
      t := hmac(prk, t + info + [counter]);
      n := n + 1;
      var toCopy := if len - written < HASH_LEN then len - written else HASH_LEN;
      written := Copy(okm, written, t[..toCopy]);
      counter := (counter + 1) % 256;
    }
    assert n == BlocksFor(len);
    assert okm[..] == okm[..written];
    return Ok;
  }
}
