/** Bytes and the little-endian integer encodings every wire format here is built from. */
module Bytes {

  type byte = x: nat | x < 256

  datatype Option<+T> = None | Some(value: T)

  function Pow256(n: nat): (r: nat)
    ensures r > 0
  {
    if n == 0 then 1 else 256 * Pow256(n - 1)
  }

  lemma Pow256Values()
    ensures Pow256(1) == 0x100 && Pow256(2) == 0x1_0000 && Pow256(4) == 0x1_0000_0000
    ensures Pow256(8) == 0x1_0000_0000_0000_0000
  {
    assert Pow256(2) == 256 * Pow256(1);
    assert Pow256(4) == 256 * Pow256(3) && Pow256(3) == 256 * Pow256(2);
    assert Pow256(6) == 256 * Pow256(5) && Pow256(5) == 256 * Pow256(4);
    assert Pow256(8) == 256 * Pow256(7) && Pow256(7) == 256 * Pow256(6);
  }

  /** The `n` low-order bytes of `v`, least significant first. */
  function LE(v: nat, n: nat): (r: seq<byte>)
    ensures |r| == n
  {
    if n == 0 then [] else [v % 256] + LE(v / 256, n - 1)
  }

  function FromLE(b: seq<byte>): (r: nat)
    ensures r < Pow256(|b|)
  {
    if b == [] then 0 else b[0] + 256 * FromLE(b[1..])
  }

  lemma {:induction false} LERoundTrip(v: nat, n: nat)
    requires v < Pow256(n)
    ensures FromLE(LE(v, n)) == v
  {
    if n > 0 {
      LERoundTrip(v / 256, n - 1);
      assert LE(v, n)[1..] == LE(v / 256, n - 1);
    }
  }

  lemma {:induction false} FromLERoundTrip(b: seq<byte>)
    ensures LE(FromLE(b), |b|) == b
  {
    if b != [] {
      FromLERoundTrip(b[1..]);
      assert FromLE(b) % 256 == b[0] && FromLE(b) / 256 == FromLE(b[1..]);
      assert b == [b[0]] + b[1..];
    }
  }

  lemma LEInjective(v: nat, w: nat, n: nat)
    requires v < Pow256(n) && w < Pow256(n) && LE(v, n) == LE(w, n)
    ensures v == w
  {
    LERoundTrip(v, n);
    LERoundTrip(w, n);
  }

  // ---- The widths in use ----

  function U16(v: nat): (r: seq<byte>)
    ensures |r| == 2
  {
    LE(v, 2)
  }

  /** A two-byte load, as both lanes write it: low byte plus high byte times 256. */
  function LoadU16(b: seq<byte>, off: nat): (r: nat)
    requires off + 2 <= |b|
    ensures r < 0x1_0000
  {
    (b[off] as nat) + 256 * (b[off + 1] as nat)
  }

  lemma LoadU16IsFromLE(b: seq<byte>, off: nat)
    requires off + 2 <= |b|
    ensures LoadU16(b, off) == FromLE(b[off..off + 2])
    ensures U16(LoadU16(b, off)) == b[off..off + 2]
  {
    var w := b[off..off + 2];
    assert w[1..][1..] == [];
    assert FromLE(w) == w[0] + 256 * FromLE(w[1..]);
    assert FromLE(w[1..]) == w[1] + 256 * FromLE(w[1..][1..]);
    FromLERoundTrip(w);
  }

  lemma U16RoundTrip(v: nat, b: seq<byte>, off: nat)
    requires v < 0x1_0000 && off + 2 <= |b| && b[off..off + 2] == U16(v)
    ensures LoadU16(b, off) == v
  {
    Pow256Values();
    LERoundTrip(v, 2);
    LoadU16IsFromLE(b, off);
  }

  lemma U16Bytes(v: nat)
    ensures U16(v) == [v % 256, v / 256 % 256]
  {
    assert LE(v / 256, 1) == [v / 256 % 256] + LE(v / 256 / 256, 0);
  }

  // ---- Slices ----

  lemma SplitConcat<T>(a: seq<T>, b: seq<T>)
    ensures (a + b)[..|a|] == a && (a + b)[|a|..] == b
  {
  }

  lemma ConcatAssoc<T>(a: seq<T>, b: seq<T>, c: seq<T>)
    ensures (a + b) + c == a + (b + c)
  {
  }

  /** Concatenations with equally long heads agree only when heads and tails do. */
  lemma ConcatInjective<T>(a: seq<T>, b: seq<T>, a': seq<T>, b': seq<T>)
    requires |a| == |a'| && a + b == a' + b'
    ensures a == a' && b == b'
  {
    SplitConcat(a, b);
    SplitConcat(a', b');
  }
}
