/** The 24-byte packet header both lanes put in front of every payload. */
module Packets {
  import opened Bytes
  import opened Errors
  import opened Payloads

  const PKT_SETUP_1: byte := 0x11
  const PKT_SETUP_2: byte := 0x12
  const PKT_SETUP_3: byte := 0x13
  const PKT_SETUP_ACK: byte := 0x14
  const PKT_AUTH_1: byte := 0x21
  const PKT_AUTH_2: byte := 0x22
  const PKT_AUTH_3: byte := 0x23
  const PKT_AUTH_ACK: byte := 0x24

  const PROTOCOL_VERSION: byte := 2
  const MIN_SUPPORTED_VERSION: byte := 2
  const HEADER_LEN: nat := 24
  const MAX_PAYLOAD: nat := 2024

  datatype Packet = Packet(kind: byte, sid: seq<byte>, seqNo: nat, payload: seq<byte>)

  predicate Framable(p: Packet) {
    |p.sid| == 16 && p.seqNo < 0x1_0000_0000
  }

  function PacketBytes(p: Packet): seq<byte> {
    [PROTOCOL_VERSION, p.kind, 0, 0] + (p.sid + (LE(p.seqNo, 4) + p.payload))
  }

  /** Nothing is built over the payload limit: Rust panics there, C reports an error. */
  function Build(p: Packet): Option<seq<byte>> {
    if |p.payload| > MAX_PAYLOAD then None else Some(PacketBytes(p))
  }

  /** The header's version is only bounded below, and its flags are ignored. */
  function Parse(b: seq<byte>): Outcome<Packet> {
    if |b| < HEADER_LEN then Reject(PayloadTooShort)
    else if b[0] < MIN_SUPPORTED_VERSION then Reject(UnsupportedVersion)
    else Accept(Packet(b[1], b[4..20], FromLE(b[20..24]), b[24..]))
  }

  /** A packet is built exactly within the payload limit, and then parses back to itself. */
  lemma PacketRoundTrip(p: Packet)
    requires Framable(p)
    ensures Build(p).Some? <==> |p.payload| <= MAX_PAYLOAD
    ensures Build(p).Some? ==> Parse(Build(p).value) == Accept(p) && |Build(p).value| <= 2048
  {
    hide LE, FromLE;
    var b := PacketBytes(p);
    Pow256Values();
    LERoundTrip(p.seqNo, 4);
    assert b[4..20] == p.sid && b[20..24] == LE(p.seqNo, 4) && b[24..] == p.payload;
  }
}
