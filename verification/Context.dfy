/**
  The canonical ZKCTX v1 subcontext: what an encoding is, when a byte string is one, and the
  strict parser as a function of the remaining bytes.
*/
module Context {
  import opened Bytes

  datatype Kind = Authorization | CriticalExtensions | ChannelBinding

  datatype Entry = Entry(id: nat, value: seq<byte>)

  datatype ContextErr =
    | Truncated | InvalidMagic | UnsupportedVersion | UnknownKind | InvalidId | NonCanonicalOrder
    | InvalidCriticalId | NonZeroFlags | TrailingBytes | EntryLimit | TooManyEntries | ValueTooLong

  datatype Result<+T> = Success(value: T) | Failure(error: ContextErr)

  const HEADER_LEN: nat := 9
  const VERSION: byte := 1

  function Magic(): (r: seq<byte>)
    ensures |r| == 5
  {
    [0x5a, 0x4b, 0x43, 0x54, 0x58]
  }

  function KindByte(kind: Kind): (b: byte)
    ensures 1 <= b <= 3
  {
    match kind
    case Authorization => 1
    case CriticalExtensions => 2
    case ChannelBinding => 3
  }

  function KindOf(b: byte): (r: Option<Kind>)
    ensures r.Some? ==> KindByte(r.value) == b
    ensures r.None? <==> b < 1 || b > 3
  {
    if b == 1 then Some(Authorization)
    else if b == 2 then Some(CriticalExtensions)
    else if b == 3 then Some(ChannelBinding)
    else None
  }

  // ---- What may be encoded ----

  /** The id has the critical bit and some other bit. */
  predicate CriticalId(id: nat) {
    id >= 0x8000 && id % 0x8000 != 0
  }

  predicate LegalId(kind: Kind, id: nat) {
    0 < id < 0x1_0000 && (kind == CriticalExtensions ==> CriticalId(id))
  }

  predicate LegalEntry(kind: Kind, e: Entry) {
    LegalId(kind, e.id) && |e.value| < 0x1_0000
  }

  /** Legal entries whose ids rise strictly, starting above `prev`. */
  predicate Canonical(kind: Kind, prev: nat, es: seq<Entry>)
    decreases es
  {
    es == [] || (es[0].id > prev && LegalEntry(kind, es[0]) && Canonical(kind, es[0].id, es[1..]))
  }

  predicate Encodable(kind: Kind, es: seq<Entry>) {
    |es| < 0x1_0000 && Canonical(kind, 0, es)
  }

  lemma {:induction false} CanonicalMeaning(kind: Kind, prev: nat, es: seq<Entry>)
    ensures Canonical(kind, prev, es) <==>
      && (forall i | 0 <= i < |es| :: LegalEntry(kind, es[i]) && es[i].id > prev)
      && (forall i, j | 0 <= i < j < |es| :: es[i].id < es[j].id)
    decreases es
  {
    if es != [] {
      var rest := es[1..];
      CanonicalMeaning(kind, es[0].id, rest);
      if Canonical(kind, prev, es) {
        forall i, j | 0 <= i < j < |es| ensures es[i].id < es[j].id {
          if i == 0 { assert rest[j - 1].id > es[0].id; } else { assert rest[i - 1].id < rest[j - 1].id; }
        }
        forall i | 0 <= i < |es| ensures LegalEntry(kind, es[i]) && es[i].id > prev {
          if i > 0 { assert LegalEntry(kind, rest[i - 1]) && rest[i - 1].id > es[0].id; }
        }
      }
    }
  }

  // ---- The encoding ----

  function EncodeEntry(e: Entry): (r: seq<byte>)
    ensures |r| == 5 + |e.value|
  {
    U16(e.id) + [0] + U16(|e.value|) + e.value
  }

  function EncodeEntries(es: seq<Entry>): seq<byte> {
    if es == [] then [] else EncodeEntry(es[0]) + EncodeEntries(es[1..])
  }

  function Header(kind: Kind, count: nat): (r: seq<byte>)
    ensures |r| == HEADER_LEN
  {
    Magic() + [VERSION, KindByte(kind)] + U16(count)
  }

  function Encode(kind: Kind, es: seq<Entry>): seq<byte> {
    Header(kind, |es|) + EncodeEntries(es)
  }

  lemma {:induction false} EncodeEntriesSnoc(es: seq<Entry>, e: Entry)
    ensures EncodeEntries(es + [e]) == EncodeEntries(es) + EncodeEntry(e)
  {
    hide EncodeEntry;
    if es == [] {
      assert EncodeEntries([e]) == EncodeEntry(e) + EncodeEntries([]);
    } else {
      assert (es + [e])[1..] == es[1..] + [e];
      EncodeEntriesSnoc(es[1..], e);
      ConcatAssoc(EncodeEntry(es[0]), EncodeEntries(es[1..]), EncodeEntry(e));
    }
  }

  lemma {:induction false} EncodeEntriesAtLeast(es: seq<Entry>)
    ensures |EncodeEntries(es)| >= 5 * |es|
  {
    if es != [] {
      EncodeEntriesAtLeast(es[1..]);
    }
  }

  // ---- The parser ----

  function IdCheck(kind: Kind, prev: nat, id: nat, flags: byte): Option<ContextErr> {
    if id == 0 then Some(InvalidId)
    else if prev > 0 && id <= prev then Some(NonCanonicalOrder)
    else if kind == CriticalExtensions && !CriticalId(id) then Some(InvalidCriticalId)
    else if flags != 0 then Some(NonZeroFlags)
    else None
  }

  /** One entry off the front of b: the entry, and how many bytes it took. */
  function ParseEntry(kind: Kind, prev: nat, b: seq<byte>): (r: Result<(Entry, nat)>)
    ensures r.Success? ==> 5 <= r.value.1 <= |b|
  {
    if |b| < 5 then Failure(Truncated)
    else
      var id, len := LoadU16(b, 0), LoadU16(b, 3);
      var fault := IdCheck(kind, prev, id, b[2]);
      if fault.Some? then Failure(fault.value)
      else if len > |b| - 5 then Failure(Truncated)
      else Success((Entry(id, b[5..5 + len]), 5 + len))
  }

  /** `count` entries that use up b exactly; `prev` is the id before them, 0 at the start. */
  function ParseEntries(kind: Kind, prev: nat, count: nat, b: seq<byte>): Result<seq<Entry>>
    decreases count
  {
    if count == 0 then
      if b == [] then Success([]) else Failure(TrailingBytes)
    else
      var first := ParseEntry(kind, prev, b);
      if first.Failure? then Failure(first.error)
      else Prepend([first.value.0], ParseEntries(kind, first.value.0.id, count - 1, b[first.value.1..]))
  }

  function Prepend(es: seq<Entry>, r: Result<seq<Entry>>): Result<seq<Entry>> {
    match r
    case Success(v) => Success(es + v)
    case Failure(e) => Failure(e)
  }

  lemma PrependPrepend(a: seq<Entry>, b: seq<Entry>, r: Result<seq<Entry>>)
    ensures Prepend(a, Prepend(b, r)) == Prepend(a + b, r)
  {
    if r.Success? { ConcatAssoc(a, b, r.value); }
  }

  datatype Preamble = Preamble(kind: Kind, count: nat)

  /** The nine header bytes. */
  function ParsePreamble(input: seq<byte>): (r: Result<Preamble>)
    ensures r.Success? ==> |input| >= HEADER_LEN && r.value.count < 0x1_0000
  {
    if |input| < HEADER_LEN then Failure(Truncated)
    else if input[..5] != Magic() then Failure(InvalidMagic)
    else if input[5] != VERSION then Failure(UnsupportedVersion)
    else if KindOf(input[6]).None? then Failure(UnknownKind)
    else Success(Preamble(KindOf(input[6]).value, LoadU16(input, 7)))
  }

  predicate CountFits(input: seq<byte>, count: nat)
    requires |input| >= HEADER_LEN
  {
    count <= (|input| - HEADER_LEN) / 5
  }

  type Parsed = (Kind, seq<Entry>)

  function ParseBody(p: Preamble, input: seq<byte>): Result<Parsed>
    requires |input| >= HEADER_LEN
  {
    match ParseEntries(p.kind, 0, p.count, input[HEADER_LEN..])
    case Success(es) => Success((p.kind, es))
    case Failure(e) => Failure(e)
  }

  predicate OverLimit(limit: Option<nat>, count: nat) {
    limit.Some? && count > limit.value
  }

  /** C checks that the count fits the input before it checks the caller's entry capacity. */
  function ParseC(input: seq<byte>, limit: Option<nat>): Result<Parsed> {
    var p := ParsePreamble(input);
    if p.Failure? then Failure(p.error)
    else if !CountFits(input, p.value.count) then Failure(Truncated)
    else if OverLimit(limit, p.value.count) then Failure(EntryLimit)
    else ParseBody(p.value, input)
  }

  /** Rust checks the limit first. */
  function ParseRust(input: seq<byte>, limit: Option<nat>): Result<Parsed> {
    var p := ParsePreamble(input);
    if p.Failure? then Failure(p.error)
    else if OverLimit(limit, p.value.count) then Failure(EntryLimit)
    else if !CountFits(input, p.value.count) then Failure(Truncated)
    else ParseBody(p.value, input)
  }

  // ---- The parser accepts exactly the canonical encodings ----

  lemma EntryLayout(e: Entry, rest: seq<byte>)
    ensures var b := EncodeEntry(e) + rest;
            && b[0..2] == U16(e.id) && b[2] == 0 && b[3..5] == U16(|e.value|)
            && b[5..5 + |e.value|] == e.value && b[5 + |e.value|..] == rest
  {
  }

  /** Parsing the front entry undoes encoding it... */
  lemma ParseEncodedEntry(kind: Kind, prev: nat, e: Entry, rest: seq<byte>)
    requires LegalEntry(kind, e) && e.id > prev
    ensures ParseEntry(kind, prev, EncodeEntry(e) + rest) == Success((e, 5 + |e.value|))
  {
    var b := EncodeEntry(e) + rest;
    EntryLayout(e, rest);
    U16RoundTrip(e.id, b, 0);
    U16RoundTrip(|e.value|, b, 3);
  }

  /** ...and whatever parses is the encoding of a legal entry above `prev`. */
  lemma ParsedEntryIsEncoded(kind: Kind, prev: nat, b: seq<byte>)
    requires ParseEntry(kind, prev, b).Success?
    ensures var (e, used) := ParseEntry(kind, prev, b).value;
            LegalEntry(kind, e) && e.id > prev && used == 5 + |e.value| && b == EncodeEntry(e) + b[used..]
  {
    var (e, used) := ParseEntry(kind, prev, b).value;
    LoadU16IsFromLE(b, 0);
    LoadU16IsFromLE(b, 3);
    assert b[0..2] + [b[2]] + b[3..5] + b[5..used] == b[..used];
    assert b == b[..used] + b[used..];
  }

  lemma {:induction false} ParseEncodedEntries(kind: Kind, prev: nat, es: seq<Entry>)
    requires Canonical(kind, prev, es)
    ensures ParseEntries(kind, prev, |es|, EncodeEntries(es)) == Success(es)
    decreases es
  {
    hide ParseEntry, EncodeEntry, LegalEntry;
    if es != [] {
      var tail := EncodeEntries(es[1..]);
      ParseEncodedEntry(kind, prev, es[0], tail);
      SplitConcat(EncodeEntry(es[0]), tail);
      ParseEncodedEntries(kind, es[0].id, es[1..]);
      assert [es[0]] + es[1..] == es;
    }
  }

  lemma {:induction false} ParsedEntriesAreEncoded(kind: Kind, prev: nat, count: nat, b: seq<byte>)
    requires ParseEntries(kind, prev, count, b).Success?
    ensures var es := ParseEntries(kind, prev, count, b).value;
            |es| == count && Canonical(kind, prev, es) && b == EncodeEntries(es)
    decreases count
  {
    hide ParseEntry, EncodeEntry, LegalEntry;
    if count > 0 {
      var (e, used) := ParseEntry(kind, prev, b).value;
      ParsedEntryIsEncoded(kind, prev, b);
      ParsedEntriesAreEncoded(kind, e.id, count - 1, b[used..]);
      var rest := ParseEntries(kind, e.id, count - 1, b[used..]).value;
      assert ([e] + rest)[1..] == rest;
    }
  }

  lemma PreambleLayout(kind: Kind, count: nat, body: seq<byte>)
    requires count < 0x1_0000
    ensures ParsePreamble(Header(kind, count) + body) == Success(Preamble(kind, count))
    ensures (Header(kind, count) + body)[HEADER_LEN..] == body
  {
    var input := Header(kind, count) + body;
    assert input[..5] == Magic() && input[5] == VERSION && input[6] == KindByte(kind);
    assert input[7..9] == U16(count);
    U16RoundTrip(count, input, 7);
  }

  lemma ParsedPreambleIsHeader(input: seq<byte>)
    requires ParsePreamble(input).Success?
    ensures var p := ParsePreamble(input).value;
            input == Header(p.kind, p.count) + input[HEADER_LEN..]
  {
    LoadU16IsFromLE(input, 7);
    assert input == input[..5] + [input[5], input[6]] + input[7..9] + input[9..];
  }

  lemma EncodingParses(kind: Kind, es: seq<Entry>)
    requires Encodable(kind, es)
    ensures ParsePreamble(Encode(kind, es)) == Success(Preamble(kind, |es|))
    ensures CountFits(Encode(kind, es), |es|)
    ensures ParseBody(Preamble(kind, |es|), Encode(kind, es)) == Success((kind, es))
  {
    hide ParseEntries, ParsePreamble, Header;
    PreambleLayout(kind, |es|, EncodeEntries(es));
    EncodeEntriesAtLeast(es);
    ParseEncodedEntries(kind, 0, es);
  }

  lemma ParsedIsEncoding(input: seq<byte>, kind: Kind, es: seq<Entry>)
    requires ParsePreamble(input).Success?
    requires ParseBody(ParsePreamble(input).value, input) == Success((kind, es))
    ensures Encodable(kind, es) && input == Encode(kind, es)
  {
    hide ParseEntries, ParsePreamble, Header;
    var p := ParsePreamble(input).value;
    ParsedPreambleIsHeader(input);
    ParsedEntriesAreEncoded(p.kind, 0, p.count, input[HEADER_LEN..]);
  }

  /**
    The strict parser accepts a byte string exactly when it is the encoding of some legal
    value within the limit, and then returns that value.
  */
  lemma ParserExact(input: seq<byte>, limit: Option<nat>, kind: Kind, es: seq<Entry>)
    ensures ParseC(input, limit) == Success((kind, es))
       <==> Encodable(kind, es) && !OverLimit(limit, |es|) && input == Encode(kind, es)
    ensures ParseRust(input, limit) == Success((kind, es))
       <==> Encodable(kind, es) && !OverLimit(limit, |es|) && input == Encode(kind, es)
  {
    hide ParseBody, ParsePreamble, Encode, CountFits;
    if Encodable(kind, es) && input == Encode(kind, es) {
      EncodingParses(kind, es);
    }
    if ParsePreamble(input).Success? && ParseBody(ParsePreamble(input).value, input) == Success((kind, es)) {
      ParsedIsEncoding(input, kind, es);
      EncodingParses(kind, es);
    }
  }

  lemma EncodingInjective(k1: Kind, e1: seq<Entry>, k2: Kind, e2: seq<Entry>)
    requires Encodable(k1, e1) && Encodable(k2, e2) && Encode(k1, e1) == Encode(k2, e2)
    ensures k1 == k2 && e1 == e2
  {
    hide Encode, ParseC;
    ParserExact(Encode(k1, e1), None, k1, e1);
    ParserExact(Encode(k2, e2), None, k2, e2);
  }

  /** Accepted bytes re-encode to themselves. */
  lemma AcceptedReencodes(input: seq<byte>, limit: Option<nat>)
    requires ParseC(input, limit).Success?
    ensures var (kind, es) := ParseC(input, limit).value;
            Encodable(kind, es) && Encode(kind, es) == input
  {
    hide Encode, ParseC;
    var (kind, es) := ParseC(input, limit).value;
    ParserExact(input, limit, kind, es);
  }

  // ---- The two lanes ----

  /**
    Under equal limits the lanes accept the same inputs with the same entries. They report
    different first errors exactly when the count is both over the limit and too large for the
    input, which needs a limit in force.
  */
  lemma LanesAgree(input: seq<byte>, limit: Option<nat>)
    ensures ParseC(input, limit).Success? <==> ParseRust(input, limit).Success?
    ensures ParseC(input, limit).Success? ==> ParseC(input, limit) == ParseRust(input, limit)
    ensures ParseC(input, limit) != ParseRust(input, limit) <==>
      var p := ParsePreamble(input);
      p.Success? && OverLimit(limit, p.value.count) && !CountFits(input, p.value.count)
    ensures limit == None ==> ParseC(input, limit) == ParseRust(input, limit)
  {
  }

  /** The smallest disagreement: a bare header that announces one entry, under limit zero. */
  lemma LanesDisagreeExample()
    ensures var input := Header(Authorization, 1);
            ParseC(input, Some(0)) == Failure(Truncated) && ParseRust(input, Some(0)) == Failure(EntryLimit)
  {
    var input := Header(Authorization, 1);
    PreambleLayout(Authorization, 1, []);
    assert input + [] == input;
  }
}
