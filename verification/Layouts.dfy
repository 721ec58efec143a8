/** The published byte layouts: where every field of a message lies, and the published vectors. */
module Layouts {
  import opened Bytes
  import opened Transcript
  import opened Suite
  import Context
  import Hello
  import IotCore
  import Packets
  import Setup
  import TypedPayloads

  function Two(v: nat): seq<byte> {
    [v % 256, v / 256 % 256]
  }

  function Four(v: nat): seq<byte> {
    [v % 256, v / 256 % 256, v / 0x1_0000 % 256, v / 0x100_0000 % 256]
  }

  // ---- Packets ----

  /** version, type, two flag bytes, session id, sequence number, payload. */
  lemma PacketLayout(p: Packets.Packet)
    requires Packets.Framable(p)
    ensures Packets.PacketBytes(p) == [2, p.kind, 0, 0] + p.sid + Four(p.seqNo) + p.payload
  {
    LE4(p.seqNo);
  }

  // ---- Transcripts ----

  /** A label with its length in one byte, a message with its length in four. */
  lemma FieldLayout(f: Field)
    requires Encodable(f)
    ensures FrameField(f) == [|f.tag|] + f.tag + Four(|f.msg|) + f.msg
  {
    LE4(|f.msg|);
  }

  /** The domain with its length in one byte, then the fields one after the other. */
  lemma FrameLayout(domain: seq<byte>, f: Field, g: Field)
    requires |domain| <= 255
    ensures Frame(domain, [f, g]) == [|domain|] + domain + FrameField(f) + FrameField(g)
  {
    hide FrameField;
    assert [f, g][..1] == [f];
    assert FrameFields([f]) == FrameFields([]) + FrameField(f) == FrameField(f);
    assert FrameFields([f, g]) == FrameFields([f]) + FrameField(g);
  }

  lemma TranscriptVector()
    ensures Frame(Ascii("test-domain"), [Field(Ascii("a"), Ascii("hello")), Field(Ascii("b"), [0x11, 0x22, 0x33, 0x44])])
         == [0x0b] + Ascii("test-domain") + ([0x01, 0x61, 0x05, 0, 0, 0, 0x68, 0x65, 0x6c, 0x6c, 0x6f]
            + [0x01, 0x62, 0x04, 0, 0, 0, 0x11, 0x22, 0x33, 0x44])
  {
    var f, g := Field(Ascii("a"), Ascii("hello")), Field(Ascii("b"), [0x11, 0x22, 0x33, 0x44]);
    FrameLayout(Ascii("test-domain"), f, g);
    FieldLayout(f);
    FieldLayout(g);
    assert f.tag == [0x61] && g.tag == [0x62] && f.msg == [0x68, 0x65, 0x6c, 0x6c, 0x6f];
    assert FrameField(f) == [0x01, 0x61, 0x05, 0, 0, 0, 0x68, 0x65, 0x6c, 0x6c, 0x6f];
    assert FrameField(g) == [0x01, 0x62, 0x04, 0, 0, 0, 0x11, 0x22, 0x33, 0x44];
  }

  // ---- ZKCTX ----

  /** Magic, version, kind, count. */
  lemma ContextHeaderLayout(kind: Context.Kind, count: nat)
    ensures Context.Header(kind, count) == [0x5a, 0x4b, 0x43, 0x54, 0x58, 1, Context.KindByte(kind)] + Two(count)
  {
    U16Bytes(count);
  }

  /** Id, a zero flag byte, length, value. */
  lemma ContextEntryLayout(e: Context.Entry)
    ensures Context.EncodeEntry(e) == Two(e.id) + [0] + Two(|e.value|) + e.value
  {
    U16Bytes(e.id);
    U16Bytes(|e.value|);
  }

  lemma EmptyContextVectors()
    ensures Context.Encode(Context.Authorization, []) == [0x5a, 0x4b, 0x43, 0x54, 0x58, 1, 1, 0, 0]
    ensures Context.Encode(Context.CriticalExtensions, []) == [0x5a, 0x4b, 0x43, 0x54, 0x58, 1, 2, 0, 0]
    ensures Context.Encode(Context.ChannelBinding, []) == [0x5a, 0x4b, 0x43, 0x54, 0x58, 1, 3, 0, 0]
  {
    ContextHeaderLayout(Context.Authorization, 0);
    ContextHeaderLayout(Context.CriticalExtensions, 0);
    ContextHeaderLayout(Context.ChannelBinding, 0);
  }

  lemma CriticalContextVector()
    ensures Context.Encode(Context.CriticalExtensions, [Context.Entry(0x8001, [0xaa, 0xbb]), Context.Entry(0x8004, [1, 2, 3])])
         == [0x5a, 0x4b, 0x43, 0x54, 0x58, 1, 2, 2, 0] + ([0x01, 0x80, 0, 2, 0, 0xaa, 0xbb] + [0x04, 0x80, 0, 3, 0, 1, 2, 3])
  {
    hide Context.EncodeEntry, Context.Header;
    var es := [Context.Entry(0x8001, [0xaa, 0xbb]), Context.Entry(0x8004, [1, 2, 3])];
    ContextHeaderLayout(Context.CriticalExtensions, 2);
    FirstExampleEntry();
    SecondExampleEntry();
    NextEntry(es, 0);
    NextEntry(es, 1);
    assert es[0..] == es && Context.EncodeEntries(es[2..]) == [];
  }

  lemma FirstExampleEntry()
    ensures Context.EncodeEntry(Context.Entry(0x8001, [0xaa, 0xbb])) == [0x01, 0x80, 0, 2, 0, 0xaa, 0xbb]
  {
    hide Context.EncodeEntry;
    ContextEntryLayout(Context.Entry(0x8001, [0xaa, 0xbb]));
    assert Two(0x8001) == [0x01, 0x80] && Two(2) == [2, 0];
  }

  lemma SecondExampleEntry()
    ensures Context.EncodeEntry(Context.Entry(0x8004, [1, 2, 3])) == [0x04, 0x80, 0, 3, 0, 1, 2, 3]
  {
    hide Context.EncodeEntry;
    ContextEntryLayout(Context.Entry(0x8004, [1, 2, 3]));
    assert Two(0x8004) == [0x04, 0x80] && Two(3) == [3, 0];
  }

  lemma SmallLE8(v: nat)
    requires v < 256
    ensures LE(v, 8) == [v, 0, 0, 0, 0, 0, 0, 0]
  {
    assert LE(0, 7) == [0, 0, 0, 0, 0, 0, 0] by {
      assert LE(0, 3) == [0] + LE(0, 2) && LE(0, 2) == [0] + LE(0, 1) && LE(0, 1) == [0] + LE(0, 0);
      assert LE(0, 7) == [0] + LE(0, 6) && LE(0, 6) == [0] + LE(0, 5) && LE(0, 5) == [0] + LE(0, 4) && LE(0, 4) == [0] + LE(0, 3);
    }
    assert v / 256 == 0 && v % 256 == v;
  }

  /** The published iot-core vector: which field is entry 1 to 7, and how each is encoded. */
  lemma IotCoreVector(holder: seq<byte>, audience: seq<byte>)
    requires |holder| == |audience| == 32
    ensures var c := IotCore.Authz(holder, audience, 1, 1, 7, 11, 13);
            Context.Encode(Context.Authorization, IotCore.Entries(c))
            == [0x5a, 0x4b, 0x43, 0x54, 0x58, 1, 1, 7, 0]
               + (([1, 0, 0, 0x20, 0] + holder)
               + (([2, 0, 0, 0x20, 0] + audience)
               + ([3, 0, 0, 8, 0, 1, 0, 0, 0, 0, 0, 0, 0]
               + ([4, 0, 0, 8, 0, 1, 0, 0, 0, 0, 0, 0, 0]
               + ([5, 0, 0, 8, 0, 7, 0, 0, 0, 0, 0, 0, 0]
               + ([6, 0, 0, 8, 0, 11, 0, 0, 0, 0, 0, 0, 0]
               + [7, 0, 0, 8, 0, 13, 0, 0, 0, 0, 0, 0, 0]))))))
  {
    hide LE, Context.EncodeEntry, Context.Header;
    var c := IotCore.Authz(holder, audience, 1, 1, 7, 11, 13);
    var es := IotCore.Entries(c);
    ContextHeaderLayout(Context.Authorization, 7);
    SmallLE8(1);
    SmallLE8(7);
    SmallLE8(11);
    SmallLE8(13);
    assert Context.EncodeEntries(es[7..]) == [];
    NumberEntry(es, 6, 7, 13);
    NumberEntry(es, 5, 6, 11);
    NumberEntry(es, 4, 5, 7);
    NumberEntry(es, 3, 4, 1);
    NumberEntry(es, 2, 3, 1);
    NextEntry(es, 1);
    NextEntry(es, 0);
    ContextEntryLayout(es[1]);
    ContextEntryLayout(es[0]);
    assert es[0..] == es;
    assert Two(1) + [0] + Two(32) == [1, 0, 0, 0x20, 0] && Two(2) + [0] + Two(32) == [2, 0, 0, 0x20, 0];
    assert [7, 0, 0, 8, 0, 13, 0, 0, 0, 0, 0, 0, 0] + [] == [7, 0, 0, 8, 0, 13, 0, 0, 0, 0, 0, 0, 0];
  }

  lemma NextEntry(es: seq<Context.Entry>, i: nat)
    requires i < |es|
    ensures Context.EncodeEntries(es[i..]) == Context.EncodeEntry(es[i]) + Context.EncodeEntries(es[i + 1..])
  {
    assert es[i..][0] == es[i] && es[i..][1..] == es[i + 1..];
  }

  lemma NumberEntry(es: seq<Context.Entry>, i: nat, id: nat, v: nat)
    requires i < |es| && id < 256 && v < 256 && es[i] == Context.Entry(id, LE(v, 8))
    ensures Context.EncodeEntries(es[i..])
         == [id, 0, 0, 8, 0, v, 0, 0, 0, 0, 0, 0, 0] + Context.EncodeEntries(es[i + 1..])
  {
    hide LE, Context.EncodeEntry;
    NextEntry(es, i);
    ContextEntryLayout(es[i]);
    SmallLE8(v);
    assert Two(id) == [id, 0] && Two(8) == [8, 0];
    assert [id, 0] + [0] + [8, 0] + [v, 0, 0, 0, 0, 0, 0, 0] == [id, 0, 0, 8, 0, v, 0, 0, 0, 0, 0, 0, 0];
  }

  // ---- HELLO ----

  lemma TlvLayout(t: Hello.Tlv)
    ensures Hello.EncodeTlv(t) == Two(t.tag) + Two(|t.value|) + t.value
  {
    U16Bytes(t.tag);
    U16Bytes(|t.value|);
  }

  /** Version, suite count, suites, capabilities; then MIN_VERSION always comes first. */
  lemma HelloLayout(h: Hello.Hello, i: nat)
    requires Hello.Shaped(h)
    ensures var b := Hello.HeadBytes(h);
            && |b| == 3 + 2 * |h.suites| + 8 && b[0] == h.version && b[1..3] == Two(|h.suites|)
            && (i < |h.suites| ==> b[3 + 2 * i..5 + 2 * i] == Two(h.suites[i]))
            && b[3 + 2 * |h.suites|..] == LE(h.caps, 8)
    ensures Hello.Extensions(h) != [] && Hello.Extensions(h)[0] == Hello.Tlv(0x0001, [h.minVersion])
  {
    hide LE, Hello.EncodeSuites;
    var b := Hello.HeadBytes(h);
    U16Bytes(|h.suites|);
    if i < |h.suites| {
      U16Bytes(h.suites[i]);
      SuiteAt(h.suites, i);
      var es := Hello.EncodeSuites(h.suites);
      assert b == ([h.version] + U16(|h.suites|)) + es + LE(h.caps, 8);
      assert b[3 + 2 * i..5 + 2 * i] == es[2 * i..2 * i + 2];
    }
  }

  lemma {:induction false} SuiteAt(ss: seq<nat>, i: nat)
    requires i < |ss|
    ensures 2 * i + 2 <= |Hello.EncodeSuites(ss)| && Hello.EncodeSuites(ss)[2 * i..2 * i + 2] == U16(ss[i])
    decreases ss
  {
    hide LE;
    if i > 0 {
      SuiteAt(ss[1..], i - 1);
      assert Hello.EncodeSuites(ss)[2 * i..2 * i + 2] == Hello.EncodeSuites(ss[1..])[2 * (i - 1)..2 * (i - 1) + 2];
    }
  }

  // ---- AUTH_2 and SETUP ----

  lemma Auth2Layout(S: Suite, m: TypedPayloads.Auth2)
    requires Valid(S) && TypedPayloads.Sendable2(S, m)
    ensures var b := TypedPayloads.EncodeAuth2(S, m);
            && |b| == 192 && b[0..32] == S.encode(m.serverPub) && b[32..64] == S.encode(m.serverProof.a)
            && b[64..96] == LE(m.serverProof.s, 32) && b[96..128] == m.nonceS && b[128..160] == S.encode(m.ephS)
            && b[160..192] == m.tagS
  {
    hide LE;
    var b := TypedPayloads.EncodeAuth2(S, m);
    var s := LE(m.serverProof.s, 32);
    assert b == S.encode(m.serverPub) + S.encode(m.serverProof.a) + s + m.nonceS + S.encode(m.ephS) + m.tagS;
  }

  lemma Setup1Layout(S: Suite, m: Setup.Setup1)
    requires Valid(S) && Setup.SendableSetup1(S, m)
    ensures var b, t := Setup.EncodeSetup1(S, m), 1 + |m.token|;
            && |b| == t + 128 && b[0] == |m.token| && b[1..t] == m.token && b[t..t + 32] == m.deviceId
            && b[t + 32..t + 64] == S.encode(m.devicePub) && b[t + 64..t + 96] == m.clientNonce
            && b[t + 96..t + 128] == S.encode(m.commitment)
  {
    var b := Setup.EncodeSetup1(S, m);
    assert b == [|m.token|] + m.token + m.deviceId + S.encode(m.devicePub) + m.clientNonce + S.encode(m.commitment);
  }

  lemma Setup2Layout(S: Suite, m: Setup.Setup2)
    requires Valid(S) && Setup.SendableSetup2(S, m)
    ensures var b := Setup.EncodeSetup2(S, m);
            && |b| == 144 && b[0..32] == m.serverNonce && b[32..48] == m.challenge && b[48..80] == S.encode(m.serverPub)
            && b[80..112] == S.encode(m.proof.a) && b[112..144] == LE(m.proof.s, 32)
  {
    hide LE;
    var b := Setup.EncodeSetup2(S, m);
    assert b == m.serverNonce + m.challenge + S.encode(m.serverPub) + S.encode(m.proof.a) + LE(m.proof.s, 32);
  }
}
