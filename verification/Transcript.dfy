/**
  The length-prefixed transcript: the unbounded framing of the Rust lane as a function, and
  the C lane's fixed 4096-byte buffer with its overflow latch as a class that refines it.
*/
module Transcript {
  import opened Bytes
  import opened Errors

  datatype Field = Field(tag: seq<byte>, msg: seq<byte>)

  const TRANSCRIPT_CAP: nat := 4096

  function Ascii(s: string): (r: seq<byte>)
    ensures |r| == |s|
  {
    seq(|s|, i requires 0 <= i < |s| => (s[i] as int) % 256)
  }

  predicate Encodable(f: Field) {
    |f.tag| <= 255 && |f.msg| < 0x1_0000_0000
  }

  predicate AllEncodable(fields: seq<Field>) {
    forall i | 0 <= i < |fields| :: Encodable(fields[i])
  }

  function FrameHead(tag: seq<byte>): (r: seq<byte>)
    ensures |r| == 1 + |tag|
  {
    [|tag| % 256] + tag
  }

  function FrameField(f: Field): (r: seq<byte>)
    ensures |r| == 5 + |f.tag| + |f.msg|
  {
    FrameHead(f.tag) + LE(|f.msg|, 4) + f.msg
  }

  function FrameFields(fields: seq<Field>): seq<byte> {
    if fields == [] then [] else FrameFields(fields[..|fields| - 1]) + FrameField(fields[|fields| - 1])
  }

  function Frame(domain: seq<byte>, fields: seq<Field>): seq<byte> {
    FrameHead(domain) + FrameFields(fields)
  }

  lemma FrameAppend(domain: seq<byte>, fields: seq<Field>, f: Field)
    ensures Frame(domain, fields + [f]) == Frame(domain, fields) + FrameField(f)
  {
    assert (fields + [f])[..|fields|] == fields;
  }

  lemma {:induction false} FrameFieldsConcat(a: seq<Field>, b: seq<Field>)
    ensures FrameFields(a + b) == FrameFields(a) + FrameFields(b)
  {
    hide FrameField;
    if b == [] {
      assert a + b == a;
    } else {
      var b' := b[..|b| - 1];
      FrameFieldsConcat(a, b');
      assert (a + b)[..|a + b| - 1] == a + b';
      ConcatAssoc(FrameFields(a), FrameFields(b'), FrameField(b[|b| - 1]));
    }
  }

  lemma FrameFieldsCons(fields: seq<Field>)
    requires fields != []
    ensures FrameFields(fields) == FrameField(fields[0]) + FrameFields(fields[1..])
  {
    FrameFieldsConcat([fields[0]], fields[1..]);
    assert [fields[0]] + fields[1..] == fields;
    assert FrameFields([fields[0]]) == FrameFields([]) + FrameField(fields[0]);
  }

  // ---- The framing is injective ----

  lemma HeadInjective(a: seq<byte>, x: seq<byte>, b: seq<byte>, y: seq<byte>)
    requires |a| <= 255 && |b| <= 255 && FrameHead(a) + x == FrameHead(b) + y
    ensures a == b && x == y
  {
    assert (FrameHead(a) + x)[0] == |a| && (FrameHead(b) + y)[0] == |b|;
    ConcatInjective(FrameHead(a), x, FrameHead(b), y);
    assert FrameHead(a)[1..] == a && FrameHead(b)[1..] == b;
  }

  lemma FieldInjective(f: Field, x: seq<byte>, g: Field, y: seq<byte>)
    requires Encodable(f) && Encodable(g) && FrameField(f) + x == FrameField(g) + y
    ensures f == g && x == y
  {
    var lf, lg := LE(|f.msg|, 4), LE(|g.msg|, 4);
    assert FrameField(f) + x == FrameHead(f.tag) + (lf + (f.msg + x));
    assert FrameField(g) + y == FrameHead(g.tag) + (lg + (g.msg + y));
    HeadInjective(f.tag, lf + (f.msg + x), g.tag, lg + (g.msg + y));
    ConcatInjective(lf, f.msg + x, lg, g.msg + y);
    Pow256Values();
    LEInjective(|f.msg|, |g.msg|, 4);
    ConcatInjective(f.msg, x, g.msg, y);
  }

  lemma {:induction false} FieldsInjective(a: seq<Field>, b: seq<Field>)
    requires AllEncodable(a) && AllEncodable(b) && FrameFields(a) == FrameFields(b)
    ensures a == b
  {
    if a == [] || b == [] {
      if a != [] { FrameFieldsCons(a); }
      if b != [] { FrameFieldsCons(b); }
    } else {
      FrameFieldsCons(a);
      FrameFieldsCons(b);
      FieldInjective(a[0], FrameFields(a[1..]), b[0], FrameFields(b[1..]));
      FieldsInjective(a[1..], b[1..]);
      assert a == [a[0]] + a[1..] && b == [b[0]] + b[1..];
    }
  }

  /** Two transcripts with the same bytes have the same domain and the same fields. */
  lemma FramingInjective(d: seq<byte>, a: seq<Field>, e: seq<byte>, b: seq<Field>)
    requires |d| <= 255 && |e| <= 255 && AllEncodable(a) && AllEncodable(b)
    requires Frame(d, a) == Frame(e, b)
    ensures d == e && a == b
  {
    HeadInjective(d, FrameFields(a), e, FrameFields(b));
    FieldsInjective(a, b);
  }

  /**
    Without the 2^32 bound (which the Rust lane does not check) the framing is ambiguous: the
    length field keeps only the low 32 bits, so a message of exactly 2^32 bytes that is itself
    a framed field reads as an empty message followed by that field.
  */
  lemma OverlongMessageCollides(h: Field)
    requires |h.tag| <= 255 && |FrameField(h)| == 0x1_0000_0000
    ensures var f := Field([], FrameField(h));
            FrameFields([f]) == FrameFields([Field([], []), h]) && !Encodable(f)
  {
    var body := FrameField(h);
    var f, g := Field([], body), Field([], []);
    LEWraps(|body|, 4);
    Pow256Values();
    assert FrameFields([f]) == FrameFields([]) + FrameField(f);
    assert FrameFields([g]) == FrameFields([]) + FrameField(g);
    assert [g, h][..1] == [g];
    assert FrameFields([g, h]) == FrameFields([g]) + body;
    assert FrameField(f) == FrameField(g) + body;
  }

  predicate Bounded(domain: seq<byte>, fields: seq<Field>, n: nat) {
    |domain| <= 255 && forall i | 0 <= i < |fields| :: |fields[i].tag| <= 255 && |fields[i].msg| < n
  }

  /** Framing is injective on labels up to 255 bytes and messages shorter than n. */
  ghost predicate InjectiveBelow(n: nat) {
    forall d: seq<byte>, a: seq<Field>, e: seq<byte>, b: seq<Field> ::
      Bounded(d, a, n) && Bounded(e, b, n) && Frame(d, a) == Frame(e, b) ==> d == e && a == b
  }

  /** The exact bound on message lengths under which the framing is injective: 2^32. */
  lemma InjectiveBelowExactly(n: nat)
    ensures InjectiveBelow(n) <==> n <= 0x1_0000_0000
  {
    hide Frame, FrameField;
    if n <= 0x1_0000_0000 {
      forall d: seq<byte>, a: seq<Field>, e: seq<byte>, b: seq<Field> |
        Bounded(d, a, n) && Bounded(e, b, n) && Frame(d, a) == Frame(e, b)
        ensures d == e && a == b
      {
        FramingInjective(d, a, e, b);
      }
    } else {
      var h := Field([], seq(0x1_0000_0000 - 5, _ => 0));
      var f, g := [Field([], FrameField(h))], [Field([], []), h];
      OverlongMessageCollides(h);
      SameBodySameFrame([], f, g);
      assert Bounded([], f, n) && Bounded([], g, n) && |f| != |g|;
    }
  }

  lemma SameBodySameFrame(domain: seq<byte>, a: seq<Field>, b: seq<Field>)
    requires FrameFields(a) == FrameFields(b)
    ensures Frame(domain, a) == Frame(domain, b)
  {
  }

  lemma {:induction false} LEWraps(v: nat, n: nat)
    requires v == Pow256(n)
    ensures LE(v, n) == LE(0, n)
  {
    if n > 0 {
      LEWraps(v / 256, n - 1);
    }
  }

  // ---- The C lane: a fixed buffer and an overflow latch ----

  class CTranscript {
    const buf: array<byte>
    var len: nat
    var overflow: bool
    // The framing the caller asked for: the domain, and every field whose arguments were legal.
    ghost var domain: seq<byte>
    ghost var fields: seq<Field>

    ghost predicate Valid()
      reads this, buf
    {
      && buf.Length == TRANSCRIPT_CAP
      && len <= buf.Length
      && |domain| <= 255
      && (overflow <==> |Frame(domain, fields)| > TRANSCRIPT_CAP)
      && (!overflow ==> buf[..len] == Frame(domain, fields))
    }

    constructor (dom: seq<byte>)
      requires |dom| <= 255
      ensures Valid() && fresh(buf) && domain == dom && fields == []
    {
      buf := new byte[TRANSCRIPT_CAP];
      len, overflow := 0, false;
      domain, fields := dom, [];
      new;
      var ok := AppendBytes([|dom|]);
      ok := AppendBytes(dom);
      assert buf[..len] == FrameHead(dom) == Frame(dom, []);
    }

    method AppendBytes(b: seq<byte>) returns (ok: bool)
      requires buf.Length == TRANSCRIPT_CAP && len <= buf.Length
      modifies this`len, this`overflow, buf
      ensures len <= buf.Length
      ensures ok == (!old(overflow) && old(len) + |b| <= TRANSCRIPT_CAP)
      ensures overflow == !ok
      ensures ok ==> len == old(len) + |b| && buf[..len] == old(buf[..len]) + b
      ensures !ok ==> len == old(len) && buf[..] == old(buf[..])
    {
      if overflow { return false; }
      if len + |b| > buf.Length {
        overflow := true;
        return false;
      }
      forall i | 0 <= i < |b| { buf[len + i] := b[i]; }
      len := len + |b|;
      return true;
    }

    /** One labelled message. Illegal arguments change nothing; an overflow latches. */
    method Append(tag: seq<byte>, msg: seq<byte>) returns (r: Err)
      requires Valid()
      modifies this, buf
      ensures Valid() && domain == old(domain)
      ensures r == InvalidArgument <==> !Encodable(Field(tag, msg))
      ensures r == InvalidArgument ==> fields == old(fields) && overflow == old(overflow)
      ensures r != InvalidArgument ==> fields == old(fields) + [Field(tag, msg)]
      ensures r != InvalidArgument ==> (r == Ok <==> !overflow)
    {
      hide Frame, LE;
      if |tag| > 255 || |msg| > 0xFFFF_FFFF { return InvalidArgument; }
      FrameAppend(domain, fields, Field(tag, msg));
      ghost var before := Frame(domain, fields);
      fields := fields + [Field(tag, msg)];
      var n := |msg|;
      LE4(n);
      ghost var len4 := LE(n, 4);
      var ok := AppendBytes([|tag|]);
      if !ok { return BufferTooSmall; }
      ok := AppendBytes(tag);
      if !ok { return BufferTooSmall; }
      ok := AppendBytes([n % 256, n / 256 % 256, n / 0x1_0000 % 256, n / 0x100_0000 % 256]);
      if !ok { return BufferTooSmall; }
      ok := AppendBytes(msg);
      if !ok { return BufferTooSmall; }
      FourParts(before, [|tag|], tag, len4, msg);
      return Ok;
    }

    /**
      A digest comes out exactly when everything appended fitted, and it is then the digest
      of the unbounded framing. `hash` stands for SHA-512 with wide reduction, or SHA-256.
    */
    method Digest<D>(hash: seq<byte> -> D) returns (r: Option<D>)
      requires Valid()
      ensures r.Some? <==> |Frame(domain, fields)| <= TRANSCRIPT_CAP
      ensures r.Some? ==> r.value == hash(Frame(domain, fields))
    {
      if overflow { return None; }
      return Some(hash(buf[..len]));
    }
  }

  lemma FourParts(x: seq<byte>, a: seq<byte>, b: seq<byte>, c: seq<byte>, d: seq<byte>)
    ensures x + a + b + c + d == x + (a + b + c + d)
  {
  }

  lemma LE4(n: nat)
    ensures LE(n, 4) == [n % 256, n / 256 % 256, n / 0x1_0000 % 256, n / 0x100_0000 % 256]
  {
    var a := n / 256;
    assert a / 256 == n / 0x1_0000 && a / 256 / 256 == n / 0x100_0000;
    assert LE(n, 4) == [n % 256] + LE(a, 3);
    assert LE(a, 3) == [a % 256] + LE(a / 256, 2);
    assert LE(a / 256, 2) == [a / 256 % 256] + LE(a / 256 / 256, 1);
    assert LE(a / 256 / 256, 1) == [a / 256 / 256 % 256] + LE(a / 256 / 256 / 256, 0);
  }
}
