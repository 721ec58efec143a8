/** The writers the C encoders use: copy at an offset, or refuse when the bytes do not fit. */
module Buffers {
  import opened Bytes
  import opened Errors

  method Copy(out: array<byte>, offset: nat, value: seq<byte>) returns (next: nat)
    requires offset + |value| <= out.Length
    modifies out
    ensures next == offset + |value|
    ensures out[..next] == old(out[..offset]) + value
  {
    forall i | 0 <= i < |value| { out[offset + i] := value[i]; }
    return offset + |value|;
  }

  method PutByte(out: array<byte>, offset: nat, b: byte) returns (next: nat)
    requires offset < out.Length
    modifies out
    ensures next == offset + 1
    ensures out[..next] == old(out[..offset]) + [b]
  {
    out[offset] := b;
    next := offset + 1;
  }

  method Put(out: array<byte>, offset: nat, value: seq<byte>) returns (err: Err, next: nat)
    requires offset <= out.Length
    modifies out
    ensures err == Ok || err == BufferTooSmall
    ensures err == Ok <==> offset + |value| <= out.Length
    ensures next == (if err == Ok then offset + |value| else offset)
    ensures out[..next] == old(out[..offset]) + (if err == Ok then value else [])
  {
    if |value| > out.Length - offset { return BufferTooSmall, offset; }
    next := Copy(out, offset, value);
    err := Ok;
  }
}
