/**
  The ZKCTX loops of both lanes: parsing with an advancing offset, encoding into a buffer or a
  vector, and the C lane's incremental hash.
*/
module ContextLanes {
  import opened Bytes
  import opened Buffers
  import opened Context

  // ---- Parsing ----

  /** The C parser's per-entry step at an offset, on success with the offset behind the value. */
  method ParseEntryAt(input: seq<byte>, offset: nat, kind: Kind, index: nat, previousId: nat)
    returns (r: Result<(Entry, nat)>)
    requires offset <= |input| && (index > 0 <==> previousId > 0)
    ensures r == ParseEntry(kind, previousId, input[offset..])
  {
    ghost var b := input[offset..];
    if |input| - offset < 5 { return Failure(Truncated); }
    var id, flags, len := LoadU16(input, offset), input[offset + 2], LoadU16(input, offset + 3);
    assert LoadU16(b, 0) == id && b[2] == flags && LoadU16(b, 3) == len;
    if id == 0 { return Failure(InvalidId); }
    if index > 0 && id <= previousId { return Failure(NonCanonicalOrder); }
    if kind == CriticalExtensions && (id < 0x8000 || id % 0x8000 == 0) { return Failure(InvalidCriticalId); }
    if flags != 0 { return Failure(NonZeroFlags); }
    if len > |input| - (offset + 5) { return Failure(Truncated); }
    assert b[5..5 + len] == input[offset + 5..offset + 5 + len];
    return Success((Entry(id, input[offset + 5..offset + 5 + len]), 5 + len));
  }

  lemma ParseStep(kind: Kind, prev: nat, count: nat, b: seq<byte>, done: seq<Entry>)
    requires count > 0 && ParseEntry(kind, prev, b).Success?
    ensures var (e, used) := ParseEntry(kind, prev, b).value;
            Prepend(done, ParseEntries(kind, prev, count, b))
            == Prepend(done + [e], ParseEntries(kind, e.id, count - 1, b[used..]))
  {
    hide ParseEntry;
    var (e, used) := ParseEntry(kind, prev, b).value;
    PrependPrepend(done, [e], ParseEntries(kind, e.id, count - 1, b[used..]));
  }

  lemma ParsedIdPositive(kind: Kind, prev: nat, b: seq<byte>)
    requires ParseEntry(kind, prev, b).Success?
    ensures ParseEntry(kind, prev, b).value.0.id > 0
  {
  }

  /**
    The C parser. With `capture` it fills the caller's entry array, whose length is the limit;
    without, it only validates.
  */
  method ParseImplC(input: seq<byte>, entriesOut: array<Entry>, capture: bool) returns (r: Result<(Kind, nat)>)
    modifies entriesOut
    ensures var spec := ParseC(input, if capture then Some(entriesOut.Length) else None);
            && (spec.Failure? ==> r == Failure(spec.error))
            && (spec.Success? ==> r == Success((spec.value.0, |spec.value.1|)))
            && (spec.Success? && capture ==>
                  |spec.value.1| <= entriesOut.Length && entriesOut[..|spec.value.1|] == spec.value.1)
    ensures !capture ==> entriesOut[..] == old(entriesOut[..])
  {
    hide ParsePreamble, ParseEntry;
    var p := ParsePreamble(input);
    if p.Failure? { return Failure(p.error); }
    var kind, count := p.value.kind, p.value.count;
    if count > (|input| - 9) / 5 { return Failure(Truncated); }
    if capture && count > entriesOut.Length { return Failure(EntryLimit); }
    var offset, previousId := 9, 0;
    ghost var es: seq<Entry> := [];
    ghost var whole := ParseEntries(kind, 0, count, input[9..]);
    assert whole.Success? ==> [] + whole.value == whole.value;
    var i := 0;
    while i < count
      invariant i <= count && |es| == i && offset <= |input| && (i > 0 <==> previousId > 0)
      invariant whole == Prepend(es, ParseEntries(kind, previousId, count - i, input[offset..]))
      invariant capture ==> entriesOut[..i] == es
      invariant !capture ==> entriesOut[..] == old(entriesOut[..])
    {
      var step := ParseEntryAt(input, offset, kind, i, previousId);
      if step.Failure? { return Failure(step.error); }
      var (e, used) := step.value;
      ParseStep(kind, previousId, count - i, input[offset..], es);
      ParsedIdPositive(kind, previousId, input[offset..]);
      assert input[offset..][used..] == input[offset + used..];
      if capture { entriesOut[i] := e; }
      es := es + [e];
      offset, previousId, i := offset + used, e.id, i + 1;
    }
    if offset != |input| { return Failure(TrailingBytes); }
    assert es + [] == es;
    return Success((kind, count));
  }

  /** The Rust parser pushes entries onto a vector. */
  method ParseImplRust(input: seq<byte>, maxEntries: Option<nat>) returns (r: Result<Parsed>)
    ensures r == ParseRust(input, maxEntries)
  {
    hide ParsePreamble, ParseEntry;
    var p := ParsePreamble(input);
    if p.Failure? { return Failure(p.error); }
    var kind, count := p.value.kind, p.value.count;
    if maxEntries.Some? && count > maxEntries.value { return Failure(EntryLimit); }
    if count > (|input| - 9) / 5 { return Failure(Truncated); }
    var entries: seq<Entry>, offset, previousId := [], 9, 0;
    ghost var whole := ParseEntries(kind, 0, count, input[9..]);
    assert whole.Success? ==> [] + whole.value == whole.value;
    for index := 0 to count
      invariant |entries| == index && offset <= |input| && (index > 0 <==> previousId > 0)
      invariant whole == Prepend(entries, ParseEntries(kind, previousId, count - index, input[offset..]))
    {
      var step := ParseEntryAt(input, offset, kind, index, previousId);
      if step.Failure? { return Failure(step.error); }
      var (e, used) := step.value;
      ParseStep(kind, previousId, count - index, input[offset..], entries);
      ParsedIdPositive(kind, previousId, input[offset..]);
      assert input[offset..][used..] == input[offset + used..];
      entries := entries + [e];
      offset, previousId := offset + used, e.id;
    }
    if offset != |input| { return Failure(TrailingBytes); }
    assert entries + [] == entries;
    return Success((kind, entries));
  }

  // ---- Encoding ----

  /** The first complaint about the entries, if any; Rust also has to check value lengths. */
  function FirstFault(kind: Kind, prev: nat, es: seq<Entry>): Option<ContextErr>
    decreases es
  {
    if es == [] then None
    else
      var fault := IdCheck(kind, prev, es[0].id, 0);
      if fault.Some? then fault
      else if |es[0].value| > 0xFFFF then Some(ValueTooLong)
      else FirstFault(kind, es[0].id, es[1..])
  }

  /** There is no complaint exactly when the entries are canonical. */
  lemma {:induction false} NoFaultIsCanonical(kind: Kind, prev: nat, es: seq<Entry>)
    requires forall i | 0 <= i < |es| :: es[i].id < 0x1_0000
    ensures FirstFault(kind, prev, es) == None <==> Canonical(kind, prev, es)
    decreases es
  {
    if es != [] {
      NoFaultIsCanonical(kind, es[0].id, es[1..]);
    }
  }

  method Validate(kind: Kind, es: seq<Entry>) returns (fault: Option<ContextErr>, total: nat)
    requires forall i | 0 <= i < |es| :: es[i].id < 0x1_0000
    ensures fault == if |es| > 0xFFFF then Some(TooManyEntries) else FirstFault(kind, 0, es)
    ensures fault == None ==> Encodable(kind, es) && total == |Encode(kind, es)|
  {
    total := 9;
    if |es| > 0xFFFF { return Some(TooManyEntries), total; }
    NoFaultIsCanonical(kind, 0, es);
    var previous := 0;
    for i := 0 to |es|
      invariant i > 0 <==> previous > 0
      invariant FirstFault(kind, 0, es) == FirstFault(kind, previous, es[i..])
      invariant total == 9 + |EncodeEntries(es[..i])|
    {
      var e := es[i];
      assert es[i..][1..] == es[i + 1..];
      assert es[..i + 1] == es[..i] + [e];
      EncodeEntriesSnoc(es[..i], e);
      if e.id == 0 { return Some(InvalidId), total; }
      if i > 0 && e.id <= previous { return Some(NonCanonicalOrder), total; }
      if kind == CriticalExtensions && (e.id < 0x8000 || e.id % 0x8000 == 0) {
        return Some(InvalidCriticalId), total;
      }
      if |e.value| > 0xFFFF { return Some(ValueTooLong), total; }
      total := total + 5 + |e.value|;
      previous := e.id;
    }
    assert es[..|es|] == es;
    fault := None;
  }

  method EncodeRust(kind: Kind, es: seq<Entry>) returns (r: Result<seq<byte>>)
    requires forall i | 0 <= i < |es| :: es[i].id < 0x1_0000
    ensures r.Success? <==> Encodable(kind, es)
    ensures r.Success? ==> r.value == Encode(kind, es)
    ensures |es| <= 0xFFFF && r.Failure? ==> FirstFault(kind, 0, es) == Some(r.error)
  {
    NoFaultIsCanonical(kind, 0, es);
    var fault, total := Validate(kind, es);
    if fault.Some? { return Failure(fault.value); }
    var out := Magic() + [VERSION] + [KindByte(kind)] + U16(|es|);
    assert out == Header(kind, |es|);
    for i := 0 to |es|
      invariant out == Header(kind, |es|) + EncodeEntries(es[..i])
    {
      var e := es[i];
      ghost var before := out;
      out := out + U16(e.id) + [0] + U16(|e.value|) + e.value;
      assert out == before + EncodeEntry(e);
      assert es[..i + 1] == es[..i] + [e];
      EncodeEntriesSnoc(es[..i], e);
      ConcatAssoc(Header(kind, |es|), EncodeEntries(es[..i]), EncodeEntry(e));
    }
    assert es[..|es|] == es;
    return Success(out);
  }

  /** Writes one entry at `offset`, byte by byte and then the value. */
  method WriteEntry(out: array<byte>, offset: nat, e: Entry) returns (next: nat)
    requires offset + 5 + |e.value| <= out.Length && e.id < 0x1_0000 && |e.value| < 0x1_0000
    modifies out
    ensures next == offset + 5 + |e.value|
    ensures out[..next] == old(out[..offset]) + EncodeEntry(e)
  {
    ghost var before := out[..offset];
    next := PutByte(out, offset, e.id % 256);
    next := PutByte(out, next, e.id / 256 % 256);
    next := PutByte(out, next, 0);
    next := PutByte(out, next, |e.value| % 256);
    next := PutByte(out, next, |e.value| / 256 % 256);
    next := Copy(out, next, e.value);
    EntryBytes(before, e);
  }

  lemma EntryBytes(before: seq<byte>, e: Entry)
    requires e.id < 0x1_0000 && |e.value| < 0x1_0000
    ensures before + [e.id % 256] + [e.id / 256 % 256] + [0] + [|e.value| % 256] + [|e.value| / 256 % 256] + e.value
         == before + EncodeEntry(e)
  {
    hide LE;
    U16Bytes(e.id);
    U16Bytes(|e.value|);
    var a, b := [e.id % 256] + [e.id / 256 % 256], [|e.value| % 256] + [|e.value| / 256 % 256];
    assert a == U16(e.id) && b == U16(|e.value|);
    assert before + [e.id % 256] + [e.id / 256 % 256] == before + a;
    assert before + a + [0] + [|e.value| % 256] + [|e.value| / 256 % 256] == before + a + [0] + b;
    assert before + a + [0] + b + e.value == before + (a + [0] + b + e.value);
  }

  method WriteHeader(out: array<byte>, kind: Kind, count: nat)
    requires out.Length >= 9 && count < 0x1_0000
    modifies out
    ensures out[..9] == Header(kind, count)
  {
    U16Bytes(count);
    var magic := Magic();
    forall i | 0 <= i < 5 { out[i] := magic[i]; }
    out[5] := VERSION;
    out[6] := KindByte(kind);
    out[7] := count % 256;
    out[8] := count / 256 % 256;
    assert out[..9] == out[..5] + [out[5], out[6]] + [out[7], out[8]];
  }

  /** The C encoder. Its entries carry 16-bit lengths, so only ids and order can be wrong. */
  method EncodeC(kind: Kind, es: seq<Entry>, out: array<byte>) returns (err: Option<ContextErr>, small: bool, outLen: nat)
    requires forall i | 0 <= i < |es| :: es[i].id < 0x1_0000 && |es[i].value| < 0x1_0000
    modifies out
    ensures err == None <==> Encodable(kind, es)
    ensures err == None ==> small == (out.Length < |Encode(kind, es)|)
    ensures err == None && !small ==>
      outLen == |Encode(kind, es)| <= out.Length && out[..outLen] == Encode(kind, es)
  {
    NoFaultIsCanonical(kind, 0, es);
    var needed: nat;
    small, outLen := false, 0;
    err, needed := Validate(kind, es);
    if err.Some? { return; }
    if out.Length < needed { small := true; return; }
    WriteHeader(out, kind, |es|);
    var offset := 9;
    for i := 0 to |es|
      invariant offset == 9 + |EncodeEntries(es[..i])|
      invariant offset <= out.Length
      invariant out[..offset] == Header(kind, |es|) + EncodeEntries(es[..i])
    {
      hide Header, EncodeEntry;
      assert es[..i + 1] == es[..i] + [es[i]];
      EncodeEntriesSnoc(es[..i], es[i]);
      RoomForEntry(kind, es, i);
      ConcatAssoc(Header(kind, |es|), EncodeEntries(es[..i]), EncodeEntry(es[i]));
      offset := WriteEntry(out, offset, es[i]);
    }
    assert es[..|es|] == es;
    outLen := offset;
  }

  lemma {:induction false} EncodeEntriesConcat(a: seq<Entry>, b: seq<Entry>)
    ensures EncodeEntries(a + b) == EncodeEntries(a) + EncodeEntries(b)
  {
    hide EncodeEntry;
    if a == [] {
      assert a + b == b;
    } else {
      assert (a + b)[1..] == a[1..] + b;
      EncodeEntriesConcat(a[1..], b);
      ConcatAssoc(EncodeEntry(a[0]), EncodeEntries(a[1..]), EncodeEntries(b));
    }
  }

  lemma RoomForEntry(kind: Kind, es: seq<Entry>, i: nat)
    requires i < |es|
    ensures 9 + |EncodeEntries(es[..i])| + 5 + |es[i].value| <= |Encode(kind, es)|
  {
    assert es == es[..i + 1] + es[i + 1..] && es[..i + 1] == es[..i] + [es[i]];
    EncodeEntriesConcat(es[..i + 1], es[i + 1..]);
    EncodeEntriesSnoc(es[..i], es[i]);
  }

  // ---- Hashing ----

  /**
    The incremental C hash absorbs the header and then each entry header and value. What it
    has absorbed at the end is the canonical encoding, so it equals the one-shot hash of the
    raw bytes.
  */
  method HashC(sha256: seq<byte> -> seq<byte>, kind: Kind, es: seq<Entry>) returns (err: Option<ContextErr>, hash: seq<byte>)
    requires forall i | 0 <= i < |es| :: es[i].id < 0x1_0000 && |es[i].value| < 0x1_0000
    ensures err == None <==> Encodable(kind, es)
    ensures err == None ==> hash == sha256(Encode(kind, es))
  {
    NoFaultIsCanonical(kind, 0, es);
    var total: nat;
    hash := [];
    err, total := Validate(kind, es);
    if err.Some? { return; }
    var absorbed := Header(kind, |es|);
    for i := 0 to |es|
      invariant absorbed == Header(kind, |es|) + EncodeEntries(es[..i])
    {
      hide Header;
      ghost var before := absorbed;
      absorbed := absorbed + (U16(es[i].id) + [0] + U16(|es[i].value|));
      if |es[i].value| > 0 { absorbed := absorbed + es[i].value; }
      assert absorbed == before + EncodeEntry(es[i]);
      assert es[..i + 1] == es[..i] + [es[i]];
      EncodeEntriesSnoc(es[..i], es[i]);
      ConcatAssoc(Header(kind, |es|), EncodeEntries(es[..i]), EncodeEntry(es[i]));
    }
    assert es[..|es|] == es;
    hash := sha256(absorbed);
  }
}
