/**
  The HELLO payload: a fixed head followed by tag-length-value extensions. The TLV walk is
  exact, so a decoded HELLO is what its head and the last value of each known tag say, and
  unknown extensions change nothing. The lanes differ in three capacities only.
*/
module Hello {
  import opened Bytes
  import opened Errors
  import opened Buffers
  import opened Payloads

  const MIN_VERSION: nat := 0x0001
  const MTU_HINT: nat := 0x0004
  const VENDOR_ID: nat := 0x0100
  const DEVICE_MODEL: nat := 0x0101

  datatype Hello = Hello(
    version: byte, minVersion: byte, suites: seq<nat>, caps: nat,
    mtu: Option<nat>, vendor: Option<seq<byte>>, model: Option<seq<byte>>)

  /** How many suites a lane reads, and the longest vendor and model it keeps. */
  datatype Lane = Lane(maxSuites: nat, maxVendor: nat, maxModel: nat)

  const RUST: Lane := Lane(0xFFFF, 0xFFFF, 0xFFFF)
  const C: Lane := Lane(8, 16, 64)

  predicate Shaped(h: Hello) {
    && |h.suites| <= 0xFFFF && (forall i | 0 <= i < |h.suites| :: h.suites[i] < 0x1_0000)
    && h.caps < 0x1_0000_0000_0000_0000
    && (h.mtu.Some? ==> h.mtu.value < 0x1_0000)
    && (h.vendor.Some? ==> |h.vendor.value| <= 0xFFFF)
    && (h.model.Some? ==> |h.model.value| <= 0xFFFF)
  }

  predicate Fits(lane: Lane, h: Hello) {
    && Shaped(h) && |h.suites| <= lane.maxSuites
    && (h.vendor.Some? ==> |h.vendor.value| <= lane.maxVendor)
    && (h.model.Some? ==> |h.model.value| <= lane.maxModel)
  }

  // ---- TLVs ----

  datatype Tlv = Tlv(tag: nat, value: seq<byte>)

  predicate WellFormed(t: Tlv) {
    t.tag < 0x1_0000 && |t.value| < 0x1_0000
  }

  predicate AllWellFormed(ts: seq<Tlv>) {
    forall i | 0 <= i < |ts| :: WellFormed(ts[i])
  }

  function EncodeTlv(t: Tlv): (r: seq<byte>)
    ensures |r| == 4 + |t.value|
  {
    U16(t.tag) + (U16(|t.value|) + t.value)
  }

  function EncodeTlvs(ts: seq<Tlv>): seq<byte>
    decreases ts
  {
    if ts == [] then [] else EncodeTlv(ts[0]) + EncodeTlvs(ts[1..])
  }

  /** One step of the walk, on bytes that are left: it takes at least four of them or fails. */
  function ReadTlv(b: seq<byte>): (r: Outcome<(Tlv, seq<byte>)>)
    ensures r.Accept? ==> |r.value.1| + 4 <= |b|
    ensures r.Reject? ==> r.error == MalformedPacket
  {
    if |b| < 4 then Reject(MalformedPacket)
    else
      var n := LoadU16(b, 2);
      if |b| < 4 + n then Reject(MalformedPacket)
      else Accept((Tlv(LoadU16(b, 0), b[4..4 + n]), b[4 + n..]))
  }

  function Walk(b: seq<byte>): Outcome<seq<Tlv>>
    decreases |b|
  {
    if b == [] then Accept([])
    else
      var (t, rest) :- ReadTlv(b);
      var ts :- Walk(rest);
      Accept([t] + ts)
  }

  lemma ReadTlvEncoded(t: Tlv, rest: seq<byte>)
    requires WellFormed(t)
    ensures ReadTlv(EncodeTlv(t) + rest) == Accept((t, rest))
  {
    var b := EncodeTlv(t) + rest;
    assert b[0..2] == U16(t.tag) && b[2..4] == U16(|t.value|);
    U16RoundTrip(t.tag, b, 0);
    U16RoundTrip(|t.value|, b, 2);
    assert b[4..4 + |t.value|] == t.value && b[4 + |t.value|..] == rest;
  }

  lemma ReadTlvDecoded(b: seq<byte>)
    requires ReadTlv(b).Accept?
    ensures var (t, rest) := ReadTlv(b).value;
            WellFormed(t) && b == EncodeTlv(t) + rest
  {
    LoadU16IsFromLE(b, 0);
    LoadU16IsFromLE(b, 2);
    var n := LoadU16(b, 2);
    assert b == b[0..2] + (b[2..4] + b[4..4 + n]) + b[4 + n..];
  }

  /** The walk reads exactly the concatenations of well-formed TLVs, each in one way. */
  lemma {:induction false} WalkExact(b: seq<byte>, ts: seq<Tlv>)
    ensures Walk(b) == Accept(ts) <==> AllWellFormed(ts) && b == EncodeTlvs(ts)
    decreases |ts|
  {
    if AllWellFormed(ts) && b == EncodeTlvs(ts) && ts != [] {
      ReadTlvEncoded(ts[0], EncodeTlvs(ts[1..]));
      WalkExact(EncodeTlvs(ts[1..]), ts[1..]);
      assert [ts[0]] + ts[1..] == ts;
    }
    if Walk(b) == Accept(ts) && b != [] {
      ReadTlvDecoded(b);
      var (t, rest) := ReadTlv(b).value;
      assert ts[1..] == Walk(rest).value;
      WalkExact(rest, ts[1..]);
      assert ts == [t] + ts[1..];
    }
  }

  /** How many TLVs the walk tries to read, the one it fails on included. */
  function Reads(b: seq<byte>): nat
    decreases |b|
  {
    if b == [] then 0
    else
      match ReadTlv(b)
      case Accept((_, rest)) => 1 + Reads(rest)
      case Reject(_) => 1
  }

  /**
    The walk ends on every input: it makes at most one read for every four bytes begun, and a
    walk that succeeds makes one read for each TLV it returns.
  */
  lemma {:induction false} ReadsBounded(b: seq<byte>)
    ensures 4 * Reads(b) <= |b| + 3
    ensures Walk(b).Accept? ==> Reads(b) == |Walk(b).value| && 4 * Reads(b) <= |b|
    decreases |b|
  {
    if b != [] && ReadTlv(b).Accept? {
      ReadsBounded(ReadTlv(b).value.1);
    }
  }

  // ---- Applying extensions ----

  predicate TlvOk(t: Tlv) {
    (t.tag == MIN_VERSION ==> |t.value| == 1) && (t.tag == MTU_HINT ==> |t.value| == 2)
  }

  function Apply(lane: Lane, h: Hello, t: Tlv): Outcome<Hello> {
    if t.tag == MIN_VERSION then
      if |t.value| != 1 then Reject(MalformedPacket) else Accept(h.(minVersion := t.value[0]))
    else if t.tag == MTU_HINT then
      if |t.value| != 2 then Reject(MalformedPacket) else Accept(h.(mtu := Some(LoadU16(t.value, 0))))
    else if t.tag == VENDOR_ID then
      Accept(if |t.value| > lane.maxVendor then h else h.(vendor := Some(t.value)))
    else if t.tag == DEVICE_MODEL then
      Accept(if |t.value| > lane.maxModel then h else h.(model := Some(t.value)))
    else Accept(h)
  }

  /** The decoders' loop: read one TLV, apply it, go on with the rest. */
  function Absorb(lane: Lane, h: Hello, b: seq<byte>): Outcome<Hello>
    decreases |b|
  {
    if b == [] then Accept(h)
    else
      var (t, rest) :- ReadTlv(b);
      var h' :- Apply(lane, h, t);
      Absorb(lane, h', rest)
  }

  /** The last value of a tag that is short enough to be kept. */
  function LastValue(ts: seq<Tlv>, tag: nat, max: nat): (r: Option<seq<byte>>)
    ensures r.Some? ==> |r.value| <= max && Tlv(tag, r.value) in ts
    ensures r.None? ==> forall i | 0 <= i < |ts| :: ts[i].tag == tag ==> |ts[i].value| > max
    decreases ts
  {
    if ts == [] then None
    else
      var later := LastValue(ts[1..], tag, max);
      if later.Some? then later
      else if ts[0].tag == tag && |ts[0].value| <= max then Some(ts[0].value)
      else None
  }

  function Or<T>(a: Option<T>, b: Option<T>): Option<T> {
    if a.Some? then a else b
  }

  predicate AllOk(ts: seq<Tlv>) {
    forall i | 0 <= i < |ts| :: TlvOk(ts[i])
  }

  function Merged(lane: Lane, h: Hello, ts: seq<Tlv>): Hello
    requires AllOk(ts)
  {
    var mv, mtu := LastValue(ts, MIN_VERSION, 0xFFFF), LastValue(ts, MTU_HINT, 0xFFFF);
    h.(minVersion := if mv.Some? then mv.value[0] else h.minVersion,
       mtu := if mtu.Some? then Some(LoadU16(mtu.value, 0)) else h.mtu,
       vendor := Or(LastValue(ts, VENDOR_ID, lane.maxVendor), h.vendor),
       model := Or(LastValue(ts, DEVICE_MODEL, lane.maxModel), h.model))
  }

  /**
    Absorbing TLVs fails exactly when a MIN_VERSION or MTU_HINT among them has the wrong
    length, and otherwise the last usable value of each tag wins.
  */
  lemma {:induction false} AbsorbMerges(lane: Lane, h: Hello, ts: seq<Tlv>)
    requires AllWellFormed(ts)
    ensures Absorb(lane, h, EncodeTlvs(ts)) == if AllOk(ts) then Accept(Merged(lane, h, ts)) else Reject(MalformedPacket)
    decreases |ts|
  {
    if ts != [] {
      var t, rest := ts[0], ts[1..];
      ReadTlvEncoded(t, EncodeTlvs(rest));
      assert AllOk(ts) <==> TlvOk(t) && AllOk(rest) by {
        assert forall i | 0 < i < |ts| :: ts[i] == rest[i - 1];
      }
      if TlvOk(t) {
        AbsorbMerges(lane, Apply(lane, h, t).value, rest);
      }
    }
  }

  // ---- The whole payload ----

  function EncodeSuites(ss: seq<nat>): (r: seq<byte>)
    ensures |r| == 2 * |ss|
    decreases ss
  {
    if ss == [] then [] else U16(ss[0]) + EncodeSuites(ss[1..])
  }

  function SuitesFrom(b: seq<byte>, off: nat, n: nat): (r: seq<nat>)
    requires off + 2 * n <= |b|
    ensures |r| == n
    ensures forall i | 0 <= i < n :: r[i] == LoadU16(b, off + 2 * i)
    decreases n
  {
    if n == 0 then [] else [LoadU16(b, off)] + SuitesFrom(b, off + 2, n - 1)
  }

  function HeadBytes(h: Hello): (r: seq<byte>)
    ensures |r| == 3 + 2 * |h.suites| + 8
  {
    [h.version] + (U16(|h.suites|) + (EncodeSuites(h.suites) + LE(h.caps, 8)))
  }

  function Extensions(h: Hello): seq<Tlv> {
    Opt(true, Tlv(MIN_VERSION, [h.minVersion]))
    + Opt(h.mtu.Some?, Tlv(MTU_HINT, MtuBytes(h.mtu)))
    + Opt(h.vendor.Some?, Tlv(VENDOR_ID, OrEmpty(h.vendor)))
    + Opt(h.model.Some?, Tlv(DEVICE_MODEL, OrEmpty(h.model)))
  }

  function Opt(present: bool, t: Tlv): seq<Tlv> {
    if present then [t] else []
  }

  function MtuBytes(mtu: Option<nat>): (r: seq<byte>)
    ensures |r| <= 2
  {
    if mtu.Some? then U16(mtu.value) else []
  }

  function OrEmpty(o: Option<seq<byte>>): seq<byte> {
    if o.Some? then o.value else []
  }

  function Encode(h: Hello): seq<byte> {
    HeadBytes(h) + EncodeTlvs(Extensions(h))
  }

  /** What the head alone says: the minimum version defaults to the version. */
  function Bare(version: byte, suites: seq<nat>, caps: nat): Hello {
    Hello(version, version, suites, caps, None, None, None)
  }

  function DecodeHead(lane: Lane, b: seq<byte>): (r: Outcome<(Hello, seq<byte>)>)
  {
    if |b| < 3 then Reject(PayloadTooShort)
    else
      var n := LoadU16(b, 1);
      if n > lane.maxSuites then Reject(MalformedPacket)
      else if |b| < 3 + 2 * n + 8 then Reject(PayloadTooShort)
      else
        var e := 3 + 2 * n;
        Accept((Bare(b[0], SuitesFrom(b, 3, n), FromLE(b[e..e + 8])), b[e + 8..]))
  }

  function Decode(lane: Lane, b: seq<byte>): Outcome<Hello> {
    var (h, rest) :- DecodeHead(lane, b);
    Absorb(lane, h, rest)
  }

  lemma {:induction false} SuitesDecodeBack(pre: seq<byte>, ss: seq<nat>, post: seq<byte>)
    requires forall i | 0 <= i < |ss| :: ss[i] < 0x1_0000
    ensures SuitesFrom(pre + (EncodeSuites(ss) + post), |pre|, |ss|) == ss
    decreases ss
  {
    if ss != [] {
      var b, tail := pre + (EncodeSuites(ss) + post), EncodeSuites(ss[1..]) + post;
      ConcatAssoc(U16(ss[0]), EncodeSuites(ss[1..]), post);
      ConcatAssoc(pre, U16(ss[0]), tail);
      assert b[|pre|..|pre| + 2] == U16(ss[0]);
      U16RoundTrip(ss[0], b, |pre|);
      SuitesDecodeBack(pre + U16(ss[0]), ss[1..], post);
    }
  }

  lemma {:induction false} SuitesEncodeBack(b: seq<byte>, off: nat, n: nat)
    requires off + 2 * n <= |b|
    ensures EncodeSuites(SuitesFrom(b, off, n)) == b[off..off + 2 * n]
    decreases n
  {
    if n > 0 {
      SuitesEncodeBack(b, off + 2, n - 1);
      LoadU16IsFromLE(b, off);
      assert SuitesFrom(b, off, n)[1..] == SuitesFrom(b, off + 2, n - 1);
      assert b[off..off + 2 * n] == b[off..off + 2] + b[off + 2..off + 2 * n];
    }
  }

  lemma HeadEncoded(lane: Lane, h: Hello, rest: seq<byte>)
    requires Shaped(h) && |h.suites| <= lane.maxSuites
    ensures DecodeHead(lane, HeadBytes(h) + rest) == Accept((Bare(h.version, h.suites, h.caps), rest))
  {
    hide LE, EncodeSuites, FromLE;
    var n, b := |h.suites|, HeadBytes(h) + rest;
    var caps := LE(h.caps, 8);
    var pre := [h.version] + U16(n);
    assert b[1..3] == U16(n);
    U16RoundTrip(n, b, 1);
    assert b == pre + (EncodeSuites(h.suites) + (caps + rest));
    SuitesDecodeBack(pre, h.suites, caps + rest);
    assert b[3 + 2 * n..3 + 2 * n + 8] == caps;
    Pow256Values();
    LERoundTrip(h.caps, 8);
    assert b[3 + 2 * n + 8..] == rest;
  }

  lemma HeadDecoded(lane: Lane, b: seq<byte>)
    requires DecodeHead(lane, b).Accept?
    ensures var (h, rest) := DecodeHead(lane, b).value;
            && Fits(lane.(maxSuites := 0xFFFF), h) && |h.suites| <= lane.maxSuites
            && h == Bare(h.version, h.suites, h.caps) && b == HeadBytes(h) + rest
  {
    hide LE, EncodeSuites, FromLE;
    var n := LoadU16(b, 1);
    var e := 3 + 2 * n;
    LoadU16IsFromLE(b, 1);
    SuitesEncodeBack(b, 3, n);
    Pow256Values();
    FromLERoundTrip(b[e..e + 8]);
    assert b == [b[0]] + (b[1..3] + (b[3..e] + b[e..e + 8])) + b[e + 8..];
  }

  lemma ExtensionsOk(h: Hello)
    requires Shaped(h)
    ensures AllOk(Extensions(h)) && AllWellFormed(Extensions(h))
  {
    hide U16;
  }

  lemma ExtensionsMerge(lane: Lane, h: Hello, extra: seq<Tlv>)
    requires Fits(lane, h) && AllWellFormed(extra) && forall i | 0 <= i < |extra| :: Unknown(extra[i])
    ensures AllOk(Extensions(h) + extra) && AllWellFormed(Extensions(h) + extra)
    ensures Merged(lane, Bare(h.version, h.suites, h.caps), Extensions(h) + extra) == h
  {
    hide LastValue, Extensions;
    var ts := Extensions(h);
    ExtensionsOk(h);
    assert AllOk(ts + extra) && AllWellFormed(ts + extra);
    LastOfConcat(ts, extra, MIN_VERSION, 0xFFFF);
    LastOfConcat(ts, extra, MTU_HINT, 0xFFFF);
    LastOfConcat(ts, extra, VENDOR_ID, lane.maxVendor);
    LastOfConcat(ts, extra, DEVICE_MODEL, lane.maxModel);
    OwnValues(lane, h);
  }

  lemma OptLast(present: bool, t: Tlv, tag: nat, max: nat)
    ensures LastValue(Opt(present, t), tag, max)
         == if present && t.tag == tag && |t.value| <= max then Some(t.value) else None
  {
  }

  /** Among its own extensions a HELLO has one value a tag. */
  lemma OwnValues(lane: Lane, h: Hello)
    requires Fits(lane, h)
    ensures LastValue(Extensions(h), MIN_VERSION, 0xFFFF) == Some([h.minVersion])
    ensures var mtu := LastValue(Extensions(h), MTU_HINT, 0xFFFF);
            if h.mtu.None? then mtu.None? else mtu.Some? && |mtu.value| == 2 && LoadU16(mtu.value, 0) == h.mtu.value
    ensures LastValue(Extensions(h), VENDOR_ID, lane.maxVendor) == h.vendor
    ensures LastValue(Extensions(h), DEVICE_MODEL, lane.maxModel) == h.model
  {
    hide LastValue, U16;
    if h.mtu.Some? {
      assert U16(h.mtu.value)[0..2] == U16(h.mtu.value);
      U16RoundTrip(h.mtu.value, U16(h.mtu.value), 0);
    }
    OwnValue(h, MIN_VERSION, 0xFFFF);
    OwnValue(h, MTU_HINT, 0xFFFF);
    OwnValue(h, VENDOR_ID, lane.maxVendor);
    OwnValue(h, DEVICE_MODEL, lane.maxModel);
  }

  lemma OwnValue(h: Hello, tag: nat, max: nat)
    ensures LastValue(Extensions(h), tag, max)
         == if tag == MIN_VERSION && 1 <= max then Some([h.minVersion])
            else if tag == MTU_HINT && h.mtu.Some? && |MtuBytes(h.mtu)| <= max then Some(MtuBytes(h.mtu))
            else if tag == VENDOR_ID && h.vendor.Some? && |h.vendor.value| <= max then h.vendor
            else if tag == DEVICE_MODEL && h.model.Some? && |h.model.value| <= max then h.model
            else None
  {
    hide LastValue, Opt, MtuBytes;
    var t1, t2 := Tlv(MIN_VERSION, [h.minVersion]), Tlv(MTU_HINT, MtuBytes(h.mtu));
    var t3, t4 := Tlv(VENDOR_ID, OrEmpty(h.vendor)), Tlv(DEVICE_MODEL, OrEmpty(h.model));
    OptLast(true, t1, tag, max);
    OptLast(h.mtu.Some?, t2, tag, max);
    OptLast(h.vendor.Some?, t3, tag, max);
    OptLast(h.model.Some?, t4, tag, max);
    OfFour(Opt(true, t1), Opt(h.mtu.Some?, t2), Opt(h.vendor.Some?, t3), Opt(h.model.Some?, t4), tag, max);
  }

  lemma OfFour(a: seq<Tlv>, b: seq<Tlv>, c: seq<Tlv>, d: seq<Tlv>, tag: nat, max: nat)
    ensures LastValue(a + b + c + d, tag, max)
         == Or(LastValue(d, tag, max), Or(LastValue(c, tag, max), Or(LastValue(b, tag, max), LastValue(a, tag, max))))
  {
    LastOfConcat(a, b, tag, max);
    LastOfConcat(a + b, c, tag, max);
    LastOfConcat(a + b + c, d, tag, max);
  }

  predicate Unknown(t: Tlv) {
    t.tag != MIN_VERSION && t.tag != MTU_HINT && t.tag != VENDOR_ID && t.tag != DEVICE_MODEL
  }

  lemma {:induction false} LastOfConcat(a: seq<Tlv>, b: seq<Tlv>, tag: nat, max: nat)
    ensures LastValue(a + b, tag, max) == Or(LastValue(b, tag, max), LastValue(a, tag, max))
    decreases a
  {
    if a == [] {
      assert a + b == b;
    } else {
      assert (a + b)[1..] == a[1..] + b;
      LastOfConcat(a[1..], b, tag, max);
    }
  }

  lemma {:induction false} EncodeTlvsConcat(a: seq<Tlv>, b: seq<Tlv>)
    ensures EncodeTlvs(a + b) == EncodeTlvs(a) + EncodeTlvs(b)
    decreases a
  {
    if a == [] {
      assert a + b == b;
    } else {
      assert (a + b)[1..] == a[1..] + b;
      EncodeTlvsConcat(a[1..], b);
      ConcatAssoc(EncodeTlv(a[0]), EncodeTlvs(a[1..]), EncodeTlvs(b));
    }
  }

  /** A HELLO within the lane's capacities survives, whatever unknown extensions follow it. */
  lemma RoundTrip(lane: Lane, h: Hello, extra: seq<Tlv>)
    requires Fits(lane, h) && AllWellFormed(extra) && forall i | 0 <= i < |extra| :: Unknown(extra[i])
    ensures Decode(lane, Encode(h) + EncodeTlvs(extra)) == Accept(h)
  {
    hide HeadBytes, DecodeHead, Extensions, Absorb, Merged;
    var ts := Extensions(h) + extra;
    EncodeTlvsConcat(Extensions(h), extra);
    ConcatAssoc(HeadBytes(h), EncodeTlvs(Extensions(h)), EncodeTlvs(extra));
    HeadEncoded(lane, h, EncodeTlvs(ts));
    ExtensionsMerge(lane, h, extra);
    AbsorbMerges(lane, Bare(h.version, h.suites, h.caps), ts);
  }

  /**
    Everything a decoder accepts is a head followed by well-formed TLVs whose MIN_VERSION and
    MTU_HINT have the right length, and means that head with the last usable values merged in.
  */
  lemma DecodeExact(lane: Lane, b: seq<byte>, h: Hello)
    ensures Decode(lane, b) == Accept(h)
       <==> exists bare: Hello, ts: seq<Tlv> :: Explains(lane, b, h, bare, ts)
  {
    hide HeadBytes, DecodeHead, Absorb, Merged, Walk;
    if Decode(lane, b) == Accept(h) {
      HeadDecoded(lane, b);
      var (bare, rest) := DecodeHead(lane, b).value;
      AbsorbWalks(lane, bare, rest);
      var ts := Walk(rest).value;
      WalkExact(rest, ts);
      AbsorbMerges(lane, bare, ts);
      assert Explains(lane, b, h, bare, ts);
    }
    if bare: Hello, ts: seq<Tlv> :| Explains(lane, b, h, bare, ts) {
      HeadEncoded(lane, bare, EncodeTlvs(ts));
      AbsorbMerges(lane, bare, ts);
    }
  }

  ghost predicate Explains(lane: Lane, b: seq<byte>, h: Hello, bare: Hello, ts: seq<Tlv>) {
    && Shaped(bare) && |bare.suites| <= lane.maxSuites
    && bare == Bare(bare.version, bare.suites, bare.caps)
    && AllWellFormed(ts) && AllOk(ts)
    && b == HeadBytes(bare) + EncodeTlvs(ts) && h == Merged(lane, bare, ts)
  }

  lemma {:induction false} AbsorbWalks(lane: Lane, h: Hello, b: seq<byte>)
    requires Absorb(lane, h, b).Accept?
    ensures Walk(b).Accept?
    decreases |b|
  {
    if b != [] {
      var (t, rest) := ReadTlv(b).value;
      AbsorbWalks(lane, Apply(lane, h, t).value, rest);
    }
  }

  /** What the C capacities can hold of a HELLO that Rust decoded. */
  predicate KeptByC(h: Hello) {
    && |h.suites| <= C.maxSuites
    && (h.vendor.Some? ==> |h.vendor.value| <= C.maxVendor)
    && (h.model.Some? ==> |h.model.value| <= C.maxModel)
  }

  /**
    On every input C accepts exactly what Rust accepts with at most eight suites, and the two
    decode the same HELLO exactly when Rust's fits the C capacities.
  */
  lemma LanesAgree(b: seq<byte>)
    ensures Decode(C, b).Accept? <==> Decode(RUST, b).Accept? && |Decode(RUST, b).value.suites| <= C.maxSuites
    ensures Decode(RUST, b).Accept? ==> (Decode(C, b) == Decode(RUST, b) <==> KeptByC(Decode(RUST, b).value))
  {
    hide HeadBytes, Decode, Merged;
    if Decode(C, b).Accept? {
      var h := Decode(C, b).value;
      DecodeExact(C, b, h);
      var bare: Hello, ts: seq<Tlv> :| Explains(C, b, h, bare, ts);
      InBothLanes(b, bare, ts);
    }
    if Decode(RUST, b).Accept? {
      var h := Decode(RUST, b).value;
      DecodeExact(RUST, b, h);
      var bare: Hello, ts: seq<Tlv> :| Explains(RUST, b, h, bare, ts);
      InBothLanes(b, bare, ts);
    }
  }

  /** Both lanes' results for one decomposition of the input. */
  lemma InBothLanes(b: seq<byte>, bare: Hello, ts: seq<Tlv>)
    requires Shaped(bare) && bare == Bare(bare.version, bare.suites, bare.caps)
    requires AllWellFormed(ts) && AllOk(ts) && b == HeadBytes(bare) + EncodeTlvs(ts)
    ensures Decode(RUST, b) == Accept(Merged(RUST, bare, ts)) && Merged(RUST, bare, ts).suites == bare.suites
    ensures |bare.suites| <= C.maxSuites ==> Decode(C, b) == Accept(Merged(C, bare, ts))
    ensures Merged(C, bare, ts) == Merged(RUST, bare, ts) && |bare.suites| <= C.maxSuites
       <==> KeptByC(Merged(RUST, bare, ts))
  {
    hide HeadBytes, Decode;
    DecodeExact(RUST, b, Merged(RUST, bare, ts));
    assert Explains(RUST, b, Merged(RUST, bare, ts), bare, ts);
    if |bare.suites| <= C.maxSuites {
      DecodeExact(C, b, Merged(C, bare, ts));
      assert Explains(C, b, Merged(C, bare, ts), bare, ts);
    }
    SameLast(ts, VENDOR_ID, C.maxVendor, RUST.maxVendor);
    SameLast(ts, DEVICE_MODEL, C.maxModel, RUST.maxModel);
  }

  /** A smaller capacity sees the same last value exactly when that value fits it. */
  lemma {:induction false} SameLast(ts: seq<Tlv>, tag: nat, small: nat, large: nat)
    requires small <= large
    ensures var last := LastValue(ts, tag, large);
            LastValue(ts, tag, small) == last <==> (last.Some? ==> |last.value| <= small)
    decreases ts
  {
    if ts != [] { SameLast(ts[1..], tag, small, large); }
  }

  // ---- The decoders ----

  /** The Rust decoder: a vector of suites, then an iterator that shrinks its slice. */
  method DecodeRust(bytes: seq<byte>) returns (r: Outcome<Hello>)
    ensures r == Decode(RUST, bytes)
  {
    hide Apply, ReadTlv;
    if |bytes| < 3 { return Reject(PayloadTooShort); }
    var n := LoadU16(bytes, 1);
    var suitesEnd := 3 + 2 * n;
    if |bytes| < suitesEnd + 8 { return Reject(PayloadTooShort); }
    var suites: seq<nat> := [];
    for i := 0 to n
      invariant suites == SuitesFrom(bytes, 3, n)[..i]
    {
      suites := suites + [LoadU16(bytes, 3 + 2 * i)];
    }
    assert suites == SuitesFrom(bytes, 3, n);
    var h := Bare(bytes[0], suites, FromLE(bytes[suitesEnd..suitesEnd + 8]));
    var buf := bytes[suitesEnd + 8..];
    while buf != []
      invariant Decode(RUST, bytes) == Absorb(RUST, h, buf)
      decreases |buf|
    {
      var t := ReadTlv(buf);
      if t.Reject? { return Reject(t.error); }
      buf := t.value.1;
      var next := Apply(RUST, h, t.value.0);
      if next.Reject? { return Reject(next.error); }
      h := next.value;
    }
    return Accept(h);
  }

  /** The C structure has no options for vendor and model: a zero length means absent. */
  datatype HelloC = HelloC(
    version: byte, minVersion: byte, suites: seq<nat>, caps: nat, mtu: Option<nat>, vendor: seq<byte>, model: seq<byte>)

  function NonEmpty(b: seq<byte>): Option<seq<byte>> {
    if b == [] then None else Some(b)
  }

  function InC(h: Hello): HelloC {
    HelloC(h.version, h.minVersion, h.suites, h.caps, h.mtu, OrEmpty(h.vendor), OrEmpty(h.model))
  }

  function FromC(h: HelloC): Hello {
    Hello(h.version, h.minVersion, h.suites, h.caps, h.mtu, NonEmpty(h.vendor), NonEmpty(h.model))
  }

  function ViewC(r: Outcome<Hello>): Outcome<HelloC> {
    match r
    case Accept(h) => Accept(InC(h))
    case Reject(e) => Reject(e)
  }

  method DecodeC(buf: seq<byte>) returns (r: Outcome<HelloC>)
    ensures r == ViewC(Decode(C, buf))
  {
    if |buf| < 3 { return Reject(PayloadTooShort); }
    var nsu := LoadU16(buf, 1);
    if nsu > C.maxSuites { return Reject(MalformedPacket); }
    if |buf| - 3 < nsu * 2 + 8 { return Reject(PayloadTooShort); }
    var suites := SuitesFrom(buf, 3, nsu);
    var off := 3 + 2 * nsu;
    var caps := FromLE(buf[off..off + 8]);
    r := AbsorbC(HelloC(buf[0], buf[0], suites, caps, None, [], []), buf, off + 8, Bare(buf[0], suites, caps));
  }

  /** The extension loop, advancing an offset. */
  method AbsorbC(start: HelloC, buf: seq<byte>, from: nat, ghost bare: Hello) returns (r: Outcome<HelloC>)
    requires from <= |buf| && start == InC(bare)
    ensures r == ViewC(Absorb(C, bare, buf[from..]))
  {
    hide ReadTlv;
    var h, off := start, from;
    ghost var seen := bare;
    while off < |buf|
      invariant off <= |buf| && h == InC(seen)
      invariant Absorb(C, bare, buf[from..]) == Absorb(C, seen, buf[off..])
    {
      var err, t, next := ReadTlvC(buf, off);
      if err != Ok { return Reject(err); }
      off := next;
      ghost var applied := Apply(C, seen, t);
      if t.tag == MIN_VERSION {
        if |t.value| != 1 { return Reject(MalformedPacket); }
        h := h.(minVersion := t.value[0]);
      } else if t.tag == MTU_HINT {
        if |t.value| != 2 { return Reject(MalformedPacket); }
        h := h.(mtu := Some(LoadU16(t.value, 0)));
      } else if t.tag == VENDOR_ID {
        if |t.value| <= 16 { h := h.(vendor := t.value); }
      } else if t.tag == DEVICE_MODEL {
        if |t.value| <= 64 { h := h.(model := t.value); }
      }
      seen := applied.value;
    }
    r := Accept(h);
  }

  method ReadTlvC(buf: seq<byte>, off: nat) returns (err: Err, t: Tlv, next: nat)
    requires off < |buf|
    ensures err == Ok <==> ReadTlv(buf[off..]).Accept?
    ensures err == Ok ==> off + 4 <= next <= |buf| && ReadTlv(buf[off..]) == Accept((t, buf[next..]))
    ensures err != Ok ==> ReadTlv(buf[off..]) == Reject(err)
  {
    t, next := Tlv(0, []), off;
    if |buf| - off < 4 { return MalformedPacket, t, off; }
    var tag, len := LoadU16(buf, off), LoadU16(buf, off + 2);
    assert LoadU16(buf[off..], 0) == tag && LoadU16(buf[off..], 2) == len;
    if 4 + len > |buf| - off { return MalformedPacket, t, off; }
    next := off + 4 + len;
    t := Tlv(tag, buf[off + 4..next]);
    TailSlices(buf, off, 4, 4 + len);
    err := Ok;
  }

  lemma TailSlices(b: seq<byte>, off: nat, i: nat, j: nat)
    requires i <= j && off + j <= |b|
    ensures b[off..][i..j] == b[off + i..off + j] && b[off..][j..] == b[off + j..]
  {
  }

  // ---- The C encoder ----

  predicate ShapedC(h: HelloC) {
    && (forall i | 0 <= i < |h.suites| :: h.suites[i] < 0x1_0000) && h.caps < 0x1_0000_0000_0000_0000
    && (h.mtu.Some? ==> h.mtu.value < 0x1_0000) && |h.vendor| <= 16 && |h.model| <= 64
  }

  method WriteTlv(buf: array<byte>, off: nat, t: Tlv) returns (err: Err, next: nat)
    requires off <= buf.Length
    modifies buf
    ensures err == if |t.value| > 0xFFFF then PayloadTooLarge
                   else if off + 4 + |t.value| > buf.Length then BufferTooSmall else Ok
    ensures next == if err == Ok then off + 4 + |t.value| else off
    ensures buf[..next] == old(buf[..off]) + if err == Ok then EncodeTlv(t) else []
  {
    ghost var before := buf[..off];
    var len := |t.value|;
    if len > 0xFFFF { return PayloadTooLarge, off; }
    if off + 4 + len > buf.Length { return BufferTooSmall, off; }
    next := PutByte(buf, off, t.tag % 256);
    next := PutByte(buf, next, t.tag / 256 % 256);
    next := PutByte(buf, next, len % 256);
    next := PutByte(buf, next, len / 256 % 256);
    next := Copy(buf, next, t.value);
    TlvBytes(before, t);
    err := Ok;
  }

  lemma TlvBytes(before: seq<byte>, t: Tlv)
    ensures before + [t.tag % 256] + [t.tag / 256 % 256] + [|t.value| % 256] + [|t.value| / 256 % 256] + t.value
         == before + EncodeTlv(t)
  {
    hide LE;
    U16Bytes(t.tag);
    U16Bytes(|t.value|);
    var a, b := [t.tag % 256] + [t.tag / 256 % 256], [|t.value| % 256] + [|t.value| / 256 % 256];
    assert a == U16(t.tag) && b == U16(|t.value|);
    assert before + [t.tag % 256] + [t.tag / 256 % 256] == before + a;
    assert before + a + [|t.value| % 256] + [|t.value| / 256 % 256] == before + a + b;
    assert before + a + b + t.value == before + (a + (b + t.value));
  }

  /** Appends one optional extension after the ones already written. */
  method WriteNext(buf: array<byte>, off: nat, present: bool, t: Tlv, ghost head: seq<byte>, ghost ts: seq<Tlv>)
    returns (err: Err, next: nat)
    requires off <= buf.Length && |t.value| <= 0xFFFF && buf[..off] == head + EncodeTlvs(ts)
    modifies buf
    ensures next <= buf.Length
    ensures var all := ts + if present then [t] else [];
            && (err == if |head + EncodeTlvs(all)| <= buf.Length then Ok else BufferTooSmall)
            && (err == Ok ==> next == |head + EncodeTlvs(all)| && buf[..next] == head + EncodeTlvs(all))
  {
    hide EncodeTlv;
    assert off == |head + EncodeTlvs(ts)|;
    if present {
      EncodeTlvsConcat(ts, [t]);
      assert EncodeTlvs([t]) == EncodeTlv(t) + EncodeTlvs([]) == EncodeTlv(t);
      ConcatAssoc(head, EncodeTlvs(ts), EncodeTlv(t));
      err, next := WriteTlv(buf, off, t);
    } else {
      assert ts + [] == ts;
      err, next := Ok, off;
    }
  }

  method WriteHead(buf: array<byte>, h: Hello) returns (off: nat)
    requires |HeadBytes(h)| <= buf.Length && |h.suites| <= 8
    modifies buf
    ensures off == |HeadBytes(h)| && buf[..off] == HeadBytes(h)
  {
    hide LE;
    U16Bytes(|h.suites|);
    off := Copy(buf, 0, [h.version]);
    off := Copy(buf, off, [|h.suites| % 256, |h.suites| / 256 % 256]);
    ghost var pre := buf[..off];
    for i := 0 to |h.suites|
      invariant off == 3 + 2 * i && buf[..off] + EncodeSuites(h.suites[i..]) == pre + EncodeSuites(h.suites)
    {
      var s := h.suites[i];
      U16Bytes(s);
      assert h.suites[i..][1..] == h.suites[i + 1..];
      ConcatAssoc(buf[..off], U16(s), EncodeSuites(h.suites[i + 1..]));
      off := Copy(buf, off, [s % 256, s / 256 % 256]);
    }
    assert EncodeSuites(h.suites[|h.suites|..]) == [];
    assert buf[..off] == pre + EncodeSuites(h.suites);
    off := Copy(buf, off, LE(h.caps, 8));
    assert HeadBytes(h) == [h.version] + U16(|h.suites|) + EncodeSuites(h.suites) + LE(h.caps, 8);
  }

  /** On success the buffer holds the common encoding, with empty vendor and model left out. */
  method EncodeC(h: HelloC, buf: array<byte>) returns (err: Err, written: nat)
    requires ShapedC(h)
    modifies buf
    ensures err == if |h.suites| > 8 then InvalidArgument
                   else if |Encode(FromC(h))| > buf.Length then BufferTooSmall else Ok
    ensures err == Ok ==> written == |Encode(FromC(h))| <= buf.Length && buf[..written] == Encode(FromC(h))
  {
    hide HeadBytes, LE;
    written := 0;
    if |h.suites| > 8 { return InvalidArgument, 0; }
    ghost var head := HeadBytes(FromC(h));
    var g := FromC(h);
    var t1 := Tlv(MIN_VERSION, [g.minVersion]);
    var t2 := Tlv(MTU_HINT, MtuBytes(h.mtu));
    var t3, t4 := Tlv(VENDOR_ID, h.vendor), Tlv(DEVICE_MODEL, h.model);
    ghost var e1 := [] + [t1];
    ghost var e2 := e1 + if h.mtu.Some? then [t2] else [];
    ghost var e3 := e2 + if h.vendor != [] then [t3] else [];
    ghost var e4 := e3 + if h.model != [] then [t4] else [];
    assert e4 == Extensions(g);
    Grows(e1, if h.mtu.Some? then [t2] else []);
    Grows(e2, if h.vendor != [] then [t3] else []);
    Grows(e3, if h.model != [] then [t4] else []);
    if buf.Length < 1 + 2 + 2 * |h.suites| + 8 { return BufferTooSmall, 0; }
    var off := WriteHead(buf, g);
    assert head + EncodeTlvs([]) == head;
    err, off := WriteNext(buf, off, true, t1, head, []);
    if err != Ok { return err, 0; }
    err, off := WriteNext(buf, off, h.mtu.Some?, t2, head, e1);
    if err != Ok { return err, 0; }
    err, off := WriteNext(buf, off, h.vendor != [], t3, head, e2);
    if err != Ok { return err, 0; }
    err, off := WriteNext(buf, off, h.model != [], t4, head, e3);
    if err != Ok { return err, 0; }
    written := off;
  }

  lemma Grows(a: seq<Tlv>, b: seq<Tlv>)
    ensures |EncodeTlvs(a)| <= |EncodeTlvs(a + b)|
  {
    EncodeTlvsConcat(a, b);
  }

  /** So the C codec round-trips its own structure, unknown extensions or not. */
  lemma RoundTripC(h: HelloC, extra: seq<Tlv>)
    requires ShapedC(h) && |h.suites| <= 8
    requires AllWellFormed(extra) && forall i | 0 <= i < |extra| :: Unknown(extra[i])
    ensures ViewC(Decode(C, Encode(FromC(h)) + EncodeTlvs(extra))) == Accept(h)
  {
    hide Decode, Encode, EncodeTlvs;
    RoundTrip(C, FromC(h), extra);
    assert InC(FromC(h)) == h;
  }
}
