/** The AUTH v3 key-confirmation transcript, built into a caller's bounded buffer. */
module AuthV3 {
  import opened Bytes
  import opened Errors
  import opened Transcript
  import opened Buffers

  const KC_TRANSCRIPT_LEN: nat := 726
  const KC_TRANSCRIPT_MAX: nat := 768

  datatype Context = Context(
    protocolVersion: byte, suiteId: nat, profileId: nat, capabilities: nat, sessionId: seq<byte>,
    authzHash: seq<byte>, extensionsHash: seq<byte>, channelHash: seq<byte>)

  datatype Parts = Parts(
    context: Context, pid: seq<byte>, aC: seq<byte>, sC: seq<byte>, nonceC: seq<byte>, ephC: seq<byte>,
    serverPub: seq<byte>, aS: seq<byte>, sS: seq<byte>, nonceS: seq<byte>, ephS: seq<byte>)

  /** The array sizes of the C structures. */
  predicate Shaped(p: Parts) {
    && p.context.suiteId < 0x1_0000 && p.context.profileId < 0x1_0000
    && p.context.capabilities < 0x1_0000_0000_0000_0000
    && |p.context.sessionId| == 16
    && |p.context.authzHash| == |p.context.extensionsHash| == |p.context.channelHash| == 32
    && |p.pid| == |p.aC| == |p.sC| == |p.nonceC| == |p.ephC| == 32
    && |p.serverPub| == |p.aS| == |p.sS| == |p.nonceS| == |p.ephS| == 32
  }

  function KcDomain(): seq<byte> {
    Ascii("zk-arche/kc/v3")
  }

  function ContextFields(c: Context): seq<Field> {
    [ Field(Ascii("protocol_version"), [c.protocolVersion]),
      Field(Ascii("suite_id"), LE(c.suiteId, 2)),
      Field(Ascii("profile_id"), LE(c.profileId, 2)),
      Field(Ascii("selected_capabilities"), LE(c.capabilities, 8)),
      Field(Ascii("session_id"), c.sessionId),
      Field(Ascii("authz_context_hash"), c.authzHash),
      Field(Ascii("critical_extensions_hash"), c.extensionsHash),
      Field(Ascii("channel_binding_hash"), c.channelHash) ]
  }

  function ClientFields(p: Parts): seq<Field> {
    [ Field(Ascii("pid"), p.pid), Field(Ascii("a_c"), p.aC), Field(Ascii("s_c"), p.sC),
      Field(Ascii("nonce_c"), p.nonceC), Field(Ascii("eph_c"), p.ephC) ]
  }

  function ServerFields(p: Parts): seq<Field> {
    [ Field(Ascii("server_pub"), p.serverPub), Field(Ascii("a_s"), p.aS), Field(Ascii("s_s"), p.sS),
      Field(Ascii("nonce_s"), p.nonceS), Field(Ascii("eph_s"), p.ephS) ]
  }

  function KcFields(p: Parts): seq<Field> {
    ContextFields(p.context) + ClientFields(p) + ServerFields(p)
  }

  lemma PrefixLength(fields: seq<Field>, k: nat, n: nat)
    requires k < |fields| && |FrameFields(fields[..k])| == n
    ensures |FrameFields(fields[..k + 1])| == n + 5 + |fields[k].tag| + |fields[k].msg|
  {
    assert fields[..k + 1][..k] == fields[..k];
  }

  lemma ContextFieldsLength(p: Parts)
    requires Shaped(p)
    ensures |FrameFields(ContextFields(p.context))| == 292
  {
    hide Ascii, LE, FrameField;
    var f := ContextFields(p.context);
    PrefixLength(f, 0, 0);
    PrefixLength(f, 1, 22);
    PrefixLength(f, 2, 37);
    PrefixLength(f, 3, 54);
    PrefixLength(f, 4, 88);
    PrefixLength(f, 5, 119);
    PrefixLength(f, 6, 174);
    PrefixLength(f, 7, 235);
    assert f[..8] == f;
  }

  lemma ClientFieldsLength(p: Parts)
    requires Shaped(p)
    ensures |FrameFields(ClientFields(p))| == 206
  {
    var f := ClientFields(p);
    PrefixLength(f, 0, 0);
    PrefixLength(f, 1, 40);
    PrefixLength(f, 2, 80);
    PrefixLength(f, 3, 120);
    PrefixLength(f, 4, 164);
    assert f[..5] == f;
  }

  lemma ServerFieldsLength(p: Parts)
    requires Shaped(p)
    ensures |FrameFields(ServerFields(p))| == 213
  {
    var f := ServerFields(p);
    PrefixLength(f, 0, 0);
    PrefixLength(f, 1, 47);
    PrefixLength(f, 2, 87);
    PrefixLength(f, 3, 127);
    PrefixLength(f, 4, 171);
    assert f[..5] == f;
  }

  /** The transcript is 726 bytes whatever the values, so a 768-byte buffer always holds it. */
  lemma KcTranscriptLength(p: Parts)
    requires Shaped(p)
    ensures |Frame(KcDomain(), KcFields(p))| == KC_TRANSCRIPT_LEN < KC_TRANSCRIPT_MAX
  {
    FrameFieldsConcat(ContextFields(p.context) + ClientFields(p), ServerFields(p));
    FrameFieldsConcat(ContextFields(p.context), ClientFields(p));
    ContextFieldsLength(p);
    ClientFieldsLength(p);
    ServerFieldsLength(p);
  }

  /** The transcript binds every input: equal bytes mean equal contexts and equal parts. */
  lemma KcTranscriptBinds(p: Parts, r: Parts)
    requires Shaped(p) && Shaped(r)
    requires Frame(KcDomain(), KcFields(p)) == Frame(KcDomain(), KcFields(r))
    ensures p == r
  {
    var f, g := KcFields(p), KcFields(r);
    FramingInjective(KcDomain(), f, KcDomain(), g);
    ConcatInjective(ContextFields(p.context) + ClientFields(p), ServerFields(p),
                    ContextFields(r.context) + ClientFields(r), ServerFields(r));
    ConcatInjective(ContextFields(p.context), ClientFields(p), ContextFields(r.context), ClientFields(r));
    ContextBinds(p.context, r.context);
    ProofBinds(p, r);
  }

  lemma ContextBinds(c: Context, d: Context)
    requires c.suiteId < 0x1_0000 && c.profileId < 0x1_0000 && c.capabilities < 0x1_0000_0000_0000_0000
    requires d.suiteId < 0x1_0000 && d.profileId < 0x1_0000 && d.capabilities < 0x1_0000_0000_0000_0000
    requires ContextFields(c) == ContextFields(d)
    ensures c == d
  {
    var f, g := ContextFields(c), ContextFields(d);
    assert f[0].msg == g[0].msg && f[1].msg == g[1].msg && f[2].msg == g[2].msg && f[3].msg == g[3].msg;
    assert f[4].msg == g[4].msg && f[5].msg == g[5].msg && f[6].msg == g[6].msg && f[7].msg == g[7].msg;
    Pow256Values();
    LEInjective(c.suiteId, d.suiteId, 2);
    LEInjective(c.profileId, d.profileId, 2);
    LEInjective(c.capabilities, d.capabilities, 8);
  }

  lemma ProofBinds(p: Parts, r: Parts)
    requires p.context == r.context
    requires ClientFields(p) == ClientFields(r) && ServerFields(p) == ServerFields(r)
    ensures p == r
  {
    var f, g := ClientFields(p), ClientFields(r);
    assert f[0].msg == g[0].msg && f[1].msg == g[1].msg && f[2].msg == g[2].msg && f[3].msg == g[3].msg;
    assert f[4].msg == g[4].msg;
    var k, l := ServerFields(p), ServerFields(r);
    assert k[0].msg == l[0].msg && k[1].msg == l[1].msg && k[2].msg == l[2].msg && k[3].msg == l[3].msg;
    assert k[4].msg == l[4].msg;
  }

  // ---- The bounded-buffer builder ----

  /** On success the buffer holds one more of the fields in `all`. */
  method AppendField(out: array<byte>, offset: nat, ghost all: seq<Field>, ghost k: nat, tag: seq<byte>, msg: seq<byte>)
    returns (err: Err, next: nat)
    requires k < |all| && all[k] == Field(tag, msg) && Encodable(all[k])
    requires offset <= out.Length && out[..offset] == Frame(KcDomain(), all[..k])
    modifies out
    ensures err == Ok <==> offset + 5 + |tag| + |msg| <= out.Length
    ensures err == Ok ==> next == offset + 5 + |tag| + |msg|
    ensures err == Ok ==> out[..next] == Frame(KcDomain(), all[..k + 1])
  {
    hide Frame, LE;
    ghost var before, len4 := out[..offset], LE(|msg|, 4);
    FrameAppend(KcDomain(), all[..k], all[k]);
    assert all[..k + 1] == all[..k] + [all[k]];
    LE4(|msg|);
    var n := |msg|;
    err, next := Put(out, offset, [|tag|]);
    if err != Ok { return; }
    err, next := Put(out, next, tag);
    if err != Ok { return; }
    err, next := Put(out, next, [n % 256, n / 256 % 256, n / 0x1_0000 % 256, n / 0x100_0000 % 256]);
    if err != Ok { return; }
    err, next := Put(out, next, msg);
    if err != Ok { return; }
    FourParts(before, [|tag|], tag, len4, msg);
  }

  /** The negotiated parameters, after the domain. */
  method AppendSelection(out: array<byte>, start: nat, c: Context, ghost p: Parts)
    returns (err: Err, next: nat)
    requires Shaped(p) && p.context == c
    requires start == 15 <= out.Length && out[..start] == Frame(KcDomain(), [])
    modifies out
    ensures err == Ok <==> 103 <= out.Length
    ensures err == Ok ==> next == 103 && out[..next] == Frame(KcDomain(), KcFields(p)[..4])
  {
    hide Frame, LE, Ascii;
    ghost var all := KcFields(p);
    assert all[..0] == [];
    err, next := AppendField(out, start, all, 0, Ascii("protocol_version"), [c.protocolVersion]);
    if err != Ok { return; }
    err, next := AppendField(out, next, all, 1, Ascii("suite_id"), LE(c.suiteId, 2));
    if err != Ok { return; }
    err, next := AppendField(out, next, all, 2, Ascii("profile_id"), LE(c.profileId, 2));
    if err != Ok { return; }
    err, next := AppendField(out, next, all, 3, Ascii("selected_capabilities"), LE(c.capabilities, 8));
  }

  /** The session and the three context hashes. */
  method AppendBindings(out: array<byte>, start: nat, c: Context, ghost p: Parts)
    returns (err: Err, next: nat)
    requires Shaped(p) && p.context == c
    requires start == 103 <= out.Length && out[..start] == Frame(KcDomain(), KcFields(p)[..4])
    modifies out
    ensures err == Ok <==> 307 <= out.Length
    ensures err == Ok ==> next == 307 && out[..next] == Frame(KcDomain(), KcFields(p)[..8])
  {
    hide Frame, LE, Ascii;
    ghost var all := KcFields(p);
    err, next := AppendField(out, start, all, 4, Ascii("session_id"), c.sessionId);
    if err != Ok { return; }
    err, next := AppendField(out, next, all, 5, Ascii("authz_context_hash"), c.authzHash);
    if err != Ok { return; }
    err, next := AppendField(out, next, all, 6, Ascii("critical_extensions_hash"), c.extensionsHash);
    if err != Ok { return; }
    err, next := AppendField(out, next, all, 7, Ascii("channel_binding_hash"), c.channelHash);
  }

  method AppendClient(out: array<byte>, start: nat, p: Parts) returns (err: Err, next: nat)
    requires Shaped(p)
    requires start == 307 <= out.Length && out[..start] == Frame(KcDomain(), KcFields(p)[..8])
    modifies out
    ensures err == Ok <==> 513 <= out.Length
    ensures err == Ok ==> next == 513 && out[..next] == Frame(KcDomain(), KcFields(p)[..13])
  {
    hide Frame, LE, Ascii;
    ghost var all := KcFields(p);
    err, next := AppendField(out, start, all, 8, Ascii("pid"), p.pid);
    if err != Ok { return; }
    err, next := AppendField(out, next, all, 9, Ascii("a_c"), p.aC);
    if err != Ok { return; }
    err, next := AppendField(out, next, all, 10, Ascii("s_c"), p.sC);
    if err != Ok { return; }
    err, next := AppendField(out, next, all, 11, Ascii("nonce_c"), p.nonceC);
    if err != Ok { return; }
    err, next := AppendField(out, next, all, 12, Ascii("eph_c"), p.ephC);
  }

  method AppendServer(out: array<byte>, start: nat, p: Parts) returns (err: Err, next: nat)
    requires Shaped(p)
    requires start == 513 <= out.Length && out[..start] == Frame(KcDomain(), KcFields(p)[..13])
    modifies out
    ensures err == Ok <==> KC_TRANSCRIPT_LEN <= out.Length
    ensures err == Ok ==> next == KC_TRANSCRIPT_LEN && out[..next] == Frame(KcDomain(), KcFields(p))
  {
    hide Frame, LE, Ascii;
    ghost var all := KcFields(p);
    err, next := AppendField(out, start, all, 13, Ascii("server_pub"), p.serverPub);
    if err != Ok { return; }
    err, next := AppendField(out, next, all, 14, Ascii("a_s"), p.aS);
    if err != Ok { return; }
    err, next := AppendField(out, next, all, 15, Ascii("s_s"), p.sS);
    if err != Ok { return; }
    err, next := AppendField(out, next, all, 16, Ascii("nonce_s"), p.nonceS);
    if err != Ok { return; }
    err, next := AppendField(out, next, all, 17, Ascii("eph_s"), p.ephS);
    assert all[..18] == all;
  }

  /** Fails exactly when the buffer is shorter than 726 bytes; otherwise writes the framing. */
  method BuildKcTranscript(out: array<byte>, p: Parts) returns (err: Err, outLen: nat)
    requires Shaped(p)
    modifies out
    ensures err == Ok <==> KC_TRANSCRIPT_LEN <= out.Length
    ensures err == Ok ==> outLen == KC_TRANSCRIPT_LEN && out[..outLen] == Frame(KcDomain(), KcFields(p))
  {
    outLen := 0;
    var offset: nat;
    err, offset := Put(out, 0, [14]);
    if err != Ok { return; }
    err, offset := Put(out, offset, KcDomain());
    if err != Ok { return; }
    assert out[..offset] == Frame(KcDomain(), []);
    err, offset := AppendSelection(out, offset, p.context, p);
    if err != Ok { return; }
    err, offset := AppendBindings(out, offset, p.context, p);
    if err != Ok { return; }
    err, offset := AppendClient(out, offset, p);
    if err != Ok { return; }
    err, outLen := AppendServer(out, offset, p);
  }
}
