/**
  The iot-core authorization context: a fixed 148-byte ZKCTX value with seven entries, and the
  resolver that ties a credential reference to one attribution record.
*/
module IotCore {
  import opened Bytes
  import opened Context
  import opened ContextLanes

  const CANONICAL_LEN: nat := 148
  const ENTRY_COUNT: nat := 7
  const SCOPE_SECURE_ASSOCIATION: nat := 1

  datatype Authz = Authz(
    holder: seq<byte>, audience: seq<byte>, rolePolicy: nat, scope: nat, generation: nat,
    policyEpoch: nat, revocationEpoch: nat)

  datatype AuthzErr =
    | InvalidHolder | InvalidAudience | InvalidRolePolicy | InvalidScope | InvalidGeneration
    | InvalidPolicyEpoch | InvalidRevocationEpoch | InvalidEncodingLength | InvalidContextKind
    | InvalidEntrySchema | Parsing(ContextErr)       // Rust
    | EntryLimitExceeded | InvalidEncoding           // C

  datatype Outcome<+T> = Accept(value: T) | Reject(error: AuthzErr)

  predicate U64(v: nat) {
    v < 0x1_0000_0000_0000_0000
  }

  /** The field widths of the structure. */
  predicate Shaped(c: Authz) {
    && |c.holder| == 32 && |c.audience| == 32
    && U64(c.rolePolicy) && U64(c.scope) && U64(c.generation) && U64(c.policyEpoch) && U64(c.revocationEpoch)
  }

  predicate AllZero(b: seq<byte>) {
    forall i | 0 <= i < |b| :: b[i] == 0
  }

  function Validate(c: Authz): Option<AuthzErr> {
    if AllZero(c.holder) then Some(InvalidHolder)
    else if AllZero(c.audience) then Some(InvalidAudience)
    else if c.rolePolicy == 0 then Some(InvalidRolePolicy)
    else if c.scope != SCOPE_SECURE_ASSOCIATION then Some(InvalidScope)
    else if c.generation == 0 then Some(InvalidGeneration)
    else if c.policyEpoch == 0 then Some(InvalidPolicyEpoch)
    else if c.revocationEpoch == 0 then Some(InvalidRevocationEpoch)
    else None
  }

  /** Shaped and without a fault. */
  predicate Legal(c: Authz) {
    Shaped(c) && Validate(c) == None
  }

  /** The OR-accumulating zero test of the C lane: the OR of bytes is zero only if all are. */
  method AllZeroC(value: seq<byte>) returns (zero: bool)
    ensures zero == AllZero(value)
  {
    var acc: bv8 := 0;
    for i := 0 to |value|
      invariant acc == 0 <==> AllZero(value[..i])
    {
      var b := value[i] as bv8;
      OrZero(acc, b);
      acc := acc | b;
      assert value[..i + 1] == value[..i] + [value[i]];
    }
    assert value[..|value|] == value;
    zero := acc == 0;
  }

  lemma OrZero(a: bv8, b: bv8)
    ensures a | b == 0 <==> a == 0 && b == 0
  {
  }

  // ---- Entries ----

  function Entries(c: Authz): (es: seq<Entry>)
    ensures |es| == ENTRY_COUNT
  {
    [ Entry(1, c.holder), Entry(2, c.audience), Entry(3, LE(c.rolePolicy, 8)), Entry(4, LE(c.scope, 8)),
      Entry(5, LE(c.generation, 8)), Entry(6, LE(c.policyEpoch, 8)), Entry(7, LE(c.revocationEpoch, 8)) ]
  }

  function ExpectedLength(i: nat): nat {
    if i < 2 then 32 else 8
  }

  predicate Schema(es: seq<Entry>) {
    && |es| == ENTRY_COUNT
    && forall i | 0 <= i < ENTRY_COUNT :: es[i].id == i + 1 && |es[i].value| == ExpectedLength(i)
  }

  function FromEntries(es: seq<Entry>): (c: Authz)
    requires Schema(es)
  {
    Authz(es[0].value, es[1].value, FromLE(es[2].value), FromLE(es[3].value),
                  FromLE(es[4].value), FromLE(es[5].value), FromLE(es[6].value))
  }

  lemma EntriesRoundTrip(c: Authz)
    requires Shaped(c)
    ensures Schema(Entries(c)) && FromEntries(Entries(c)) == c
  {
    hide LE, FromLE;
    Pow256Values();
    LERoundTrip(c.rolePolicy, 8);
    LERoundTrip(c.scope, 8);
    LERoundTrip(c.generation, 8);
    LERoundTrip(c.policyEpoch, 8);
    LERoundTrip(c.revocationEpoch, 8);
  }

  lemma FromEntriesRoundTrip(es: seq<Entry>)
    requires Schema(es)
    ensures Shaped(FromEntries(es)) && Entries(FromEntries(es)) == es
  {
    Pow256Values();
    FromLERoundTrip(es[2].value);
    FromLERoundTrip(es[3].value);
    FromLERoundTrip(es[4].value);
    FromLERoundTrip(es[5].value);
    FromLERoundTrip(es[6].value);
    assert forall i | 0 <= i < ENTRY_COUNT :: Entries(FromEntries(es))[i] == es[i];
  }

  lemma SchemaIsEncodable(es: seq<Entry>)
    requires Schema(es)
    ensures Encodable(Kind.Authorization, es)
  {
    CanonicalMeaning(Kind.Authorization, 0, es);
  }

  lemma SchemaLength(es: seq<Entry>)
    requires Schema(es)
    ensures |Encode(Kind.Authorization, es)| == CANONICAL_LEN
  {
    hide EncodeEntry, Header;
    assert es[6..][1..] == [] && es[5..][1..] == es[6..] && es[4..][1..] == es[5..];
    assert |EncodeEntries(es[6..])| == 13 && |EncodeEntries(es[5..])| == 26 && |EncodeEntries(es[4..])| == 39;
    assert es[3..][1..] == es[4..] && es[2..][1..] == es[3..] && es[1..][1..] == es[2..];
    assert |EncodeEntries(es[3..])| == 52 && |EncodeEntries(es[2..])| == 65 && |EncodeEntries(es[1..])| == 102;
    assert |EncodeEntries(es)| == 139;
  }

  // ---- Encode and decode ----

  function EncodeContext(c: Authz): (r: Outcome<seq<byte>>) {
    if Validate(c).Some? then Reject(Validate(c).value)
    else Accept(Encode(Kind.Authorization, Entries(c)))
  }

  function DecodeContext(input: seq<byte>): (r: Outcome<Authz>) {
    if |input| != CANONICAL_LEN then Reject(InvalidEncodingLength)
    else
      match ParseRust(input, Some(ENTRY_COUNT))
      case Failure(e) => Reject(Parsing(e))
      case Success((kind, es)) =>
        if kind != Kind.Authorization then Reject(InvalidContextKind)
        else if !Schema(es) then Reject(InvalidEntrySchema)
        else if Validate(FromEntries(es)).Some? then Reject(Validate(FromEntries(es)).value)
        else Accept(FromEntries(es))
  }

  lemma EncodingDecodes(c: Authz)
    requires Legal(c)
    ensures EncodeContext(c).Accept? && |EncodeContext(c).value| == CANONICAL_LEN
    ensures DecodeContext(EncodeContext(c).value) == Accept(c)
  {
    hide Encode, ParseRust, Entries, Schema, FromEntries, Encodable;
    var es := Entries(c);
    EntriesRoundTrip(c);
    SchemaIsEncodable(es);
    SchemaLength(es);
    ParserExact(Encode(Kind.Authorization, es), Some(ENTRY_COUNT), Kind.Authorization, es);
  }

  lemma DecodedEncodes(input: seq<byte>)
    requires DecodeContext(input).Accept?
    ensures Legal(DecodeContext(input).value)
    ensures EncodeContext(DecodeContext(input).value) == Accept(input)
  {
    hide Encode, ParseRust, Entries, Schema, FromEntries, Encodable;
    var (kind, es) := ParseRust(input, Some(ENTRY_COUNT)).value;
    ParserExact(input, Some(ENTRY_COUNT), kind, es);
    FromEntriesRoundTrip(es);
  }

  /**
    Encoding and decoding are mutually inverse: a byte string decodes to c exactly when c is
    legal and the bytes are its encoding.
  */
  lemma DecodeExact(input: seq<byte>, c: Authz)
    ensures DecodeContext(input) == Accept(c) <==> Legal(c) && EncodeContext(c) == Accept(input)
    ensures DecodeContext(input) == Accept(c) ==> |input| == CANONICAL_LEN
  {
    hide DecodeContext, EncodeContext, Legal;
    if Legal(c) { EncodingDecodes(c); }
    if DecodeContext(input) == Accept(c) { DecodedEncodes(input); EncodingDecodes(c); }
  }

  /** How C reports a parse failure: an over-full entry array apart, everything else as one. */
  function ParseErrorC(e: ContextErr): AuthzErr {
    if e == EntryLimit then EntryLimitExceeded else InvalidEncoding
  }

  /**
    The C decoder accepts what Rust accepts, with the same context, and apart from how it
    names parse failures it reports the same errors.
  */
  method DecodeC(input: seq<byte>) returns (r: Outcome<Authz>)
    ensures r.Accept? <==> DecodeContext(input).Accept?
    ensures |input| == CANONICAL_LEN && ParseC(input, Some(ENTRY_COUNT)).Failure? ==>
      r == Reject(ParseErrorC(ParseC(input, Some(ENTRY_COUNT)).error))
    ensures |input| != CANONICAL_LEN || ParseC(input, Some(ENTRY_COUNT)).Success? ==> r == DecodeContext(input)
  {
    if |input| != CANONICAL_LEN { return Reject(InvalidEncodingLength); }
    hide ParseC, ParseRust, FromEntries;
    LanesAgree(input, Some(ENTRY_COUNT));
    var slots := new Entry[ENTRY_COUNT](_ => Entry(0, []));
    var p := ParseImplC(input, slots, true);
    if p.Failure? { return Reject(ParseErrorC(p.error)); }
    var (kind, count) := p.value;
    if kind != Kind.Authorization { return Reject(InvalidContextKind); }
    if count != ENTRY_COUNT { return Reject(InvalidEntrySchema); }
    var es := slots[..];
    assert es == slots[..count];
    for i := 0 to ENTRY_COUNT
      invariant forall j | 0 <= j < i :: es[j].id == j + 1 && |es[j].value| == ExpectedLength(j)
    {
      if es[i].id != i + 1 || |es[i].value| != ExpectedLength(i) { return Reject(InvalidEntrySchema); }
    }
    var c := FromEntries(es);
    var fault := Validate(c);
    return if fault.Some? then Reject(fault.value) else Accept(c);
  }

  /** Hashing the context's entries incrementally equals hashing its encoding as raw bytes. */
  method HashBoth(sha256: seq<byte> -> seq<byte>, c: Authz) returns (fromEntries: seq<byte>, fromBytes: seq<byte>)
    requires Legal(c)
    ensures fromEntries == fromBytes == sha256(EncodeContext(c).value)
  {
    hide Encode, Schema, FromEntries, Encodable;
    EntriesRoundTrip(c);
    SchemaIsEncodable(Entries(c));
    EncodingDecodes(c);
    Pow256Values();
    var err, h := HashC(sha256, Kind.Authorization, Entries(c));
    var raw := EncodeContext(c).value;
    var d := DecodeC(raw);
    fromEntries, fromBytes := h, if d.Accept? then sha256(raw) else [];
  }

  // ---- Attribution ----

  datatype Attribution = Attribution(reference: seq<byte>, peer: seq<byte>, authz: Authz)

  datatype Resolution = Resolved(index: nat) | MissingReference | AmbiguousReference | IdentityMismatch | AuthorizationMismatch

  predicate Refers(records: seq<Attribution>, reference: seq<byte>, i: nat) {
    i < |records| && records[i].reference == reference
  }

  predicate UniqueReference(records: seq<Attribution>, reference: seq<byte>, i: nat) {
    Refers(records, reference, i) && forall j | 0 <= j < |records| && j != i :: !Refers(records, reference, j)
  }

  /**
    The resolver yields record i exactly when i is the only record with that reference and it
    carries the expected peer and the very authorization in use; every refusal says which of
    these failed.
  */
  method Resolve(records: seq<Attribution>, reference: seq<byte>, peer: seq<byte>, c: Authz)
    returns (r: Resolution)
    ensures r.Resolved? ==>
      UniqueReference(records, reference, r.index) && records[r.index] == Attribution(reference, peer, c)
    ensures forall i | 0 <= i < |records| && UniqueReference(records, reference, i) ::
      r == if records[i].peer != peer then IdentityMismatch
           else if records[i].authz != c then AuthorizationMismatch
           else Resolved(i)
    ensures r == MissingReference <==> forall i | 0 <= i < |records| :: !Refers(records, reference, i)
    ensures r == AmbiguousReference <==>
      exists i, j :: 0 <= i < j < |records| && Refers(records, reference, i) && Refers(records, reference, j)
  {
    var found: Option<nat> := None;
    for i := 0 to |records|
      invariant found.Some? ==> found.value < i && Refers(records, reference, found.value)
      invariant forall j | 0 <= j < i && Refers(records, reference, j) :: found == Some(j)
    {
      if records[i].reference == reference {
        assert Refers(records, reference, i);
        if found.Some? { return AmbiguousReference; }
        found := Some(i);
      }
    }
    if found.None? { return MissingReference; }
    var m := found.value;
    if records[m].peer != peer { return IdentityMismatch; }
    if records[m].authz != c { return AuthorizationMismatch; }
    return Resolved(m);
  }
}
