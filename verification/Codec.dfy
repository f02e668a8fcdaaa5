/** The on-disk record format of codec.rs. Floats are opaque bit patterns. */
module Codec {
  import opened Wrappers
  import opened Crc32
  import opened Bytes

  const MAGIC: seq<Byte> := [0xFF, 0xFE, 0x48, 0x44]
  const RECORD_VERSION: Byte := 1
  const HEADER_LEN: nat := 16

  const KIND_LOCATION: Byte := 1
  const KIND_DOCUMENT: Byte := 2
  const KIND_PLAIN_LOCATION: Byte := 3
  const KIND_DOCUMENT_REF: Byte := 4

  datatype Precision = F64 | F32

  /** A hard location, its floats as 64-bit patterns. */
  datatype Location = Location(id: nat, address: seq<nat>, counter: seq<nat>, writeCount: nat, surprise: nat,
                               neighbors: seq<nat>)

  datatype DocVector = Inline(vector: seq<nat>) | AtLocation(id: nat)

  datatype Document = Document(vector: DocVector, metadata: seq<Byte>)

  /** What a stored value decodes to: legacy values are another format's. */
  datatype Decoded<+T> = Legacy | Value(value: T)

  /** The casts between f64 and f32 patterns. */
  datatype Casts = Casts(narrow: nat -> nat, widen: nat -> nat)

  /** Casts stay in range, and what was narrowed once narrows to itself. */
  ghost predicate Sound(c: Casts) {
    && (forall x: nat :: c.narrow(x) < Power256(4))
    && (forall y: nat :: c.widen(y) < Power256(8))
    && (forall x: nat :: c.narrow(c.widen(c.narrow(x))) == c.narrow(x))
  }

  // ----- float comparison

  const SIGN: nat := 0x8000_0000_0000_0000
  const INFINITY: nat := 0x7FF0_0000_0000_0000

  predicate IsNaN(x: nat) {
    x % SIGN > INFINITY
  }

  predicate IsZero(x: nat) {
    x % SIGN == 0
  }

  /** Float `==`: NaN equals nothing, the two zeros are equal. */
  predicate FloatEq(a: nat, b: nat) {
    !IsNaN(a) && !IsNaN(b) && (a == b || (IsZero(a) && IsZero(b)))
  }

  predicate AllFloatEq(a: seq<nat>, b: seq<nat>) {
    |a| == |b| && forall i | 0 <= i < |a| :: FloatEq(a[i], b[i])
  }

  /** A plain location: its counter equals its address. */
  predicate Plain(loc: Location) {
    AllFloatEq(loc.counter, loc.address)
  }

  // ----- layouts

  function Width(p: Precision): nat {
    if p.F64? then 8 else 4
  }

  function PrecisionByte(p: Precision): Byte {
    if p.F64? then 0 else 1
  }

  function PrecisionFrom(b: Byte): Result<Precision, Error> {
    if b == 0 then Success(F64) else if b == 1 then Success(F32) else Failure(UnknownPrecision)
  }

  function Narrowed(v: seq<nat>, c: Casts): (r: seq<nat>)
    ensures |r| == |v|
  {
    seq<nat>(|v|, i requires 0 <= i < |v| => c.narrow(v[i]))
  }

  function Widened(v: seq<nat>, c: Casts): (r: seq<nat>)
    ensures |r| == |v|
  {
    seq<nat>(|v|, i requires 0 <= i < |v| => c.widen(v[i]))
  }

  /** The patterns stored for a vector. */
  function Stored(v: seq<nat>, p: Precision, c: Casts): (r: seq<nat>)
    ensures |r| == |v|
  {
    if p.F64? then v else Narrowed(v, c)
  }

  /** The vector a reader gets back from stored patterns. */
  function Restored(v: seq<nat>, p: Precision, c: Casts): (r: seq<nat>)
    ensures |r| == |v|
  {
    if p.F64? then v else Widened(v, c)
  }

  function VectorBytes(v: seq<nat>, p: Precision, c: Casts): seq<Byte> {
    Numbers(Stored(v, p, c), Width(p))
  }

  function LocationPayload(loc: Location, plain: bool, p: Precision, c: Casts): seq<Byte> {
    Le(loc.id, 8)
    + (Le(|loc.address|, 4)
    + (VectorBytes(loc.address, p, c)
    + ((if plain then [] else VectorBytes(loc.counter, p, c))
    + (Le(loc.writeCount, 8)
    + (Le(loc.surprise, 8)
    + (Le(|loc.neighbors|, 4)
    + Numbers(loc.neighbors, 8)))))))
  }

  function DocumentPayload(doc: Document, p: Precision, c: Casts): seq<Byte> {
    match doc.vector
    case Inline(v) => Le(|v|, 4) + (VectorBytes(v, p, c) + (Le(|doc.metadata|, 4) + doc.metadata))
    case AtLocation(id) => Le(id, 8) + (Le(|doc.metadata|, 4) + doc.metadata)
  }

  /** A checksum as four little-endian bytes. */
  function CrcBytes(crc: bv32): (r: seq<Byte>)
    ensures |r| == 4
  {
    [Octet(crc, 0), Octet(crc, 1), Octet(crc, 2), Octet(crc, 3)]
  }

  function Octet(crc: bv32, i: nat): Byte
    requires i < 4
  {
    match i
    case 0 => (crc & 0xFF) as Byte
    case 1 => ((crc >> 8) & 0xFF) as Byte
    case 2 => ((crc >> 16) & 0xFF) as Byte
    case _ => (crc >> 24) as Byte
  }

  function Header(kind: Byte, p: Precision, payload: seq<Byte>): (r: seq<Byte>)
    ensures |r| == HEADER_LEN
  {
    MAGIC + [RECORD_VERSION, kind, PrecisionByte(p), 0] + Le(|payload|, 4) + CrcBytes(Crc(payload))
  }

  /** `envelope`. */
  function Envelope(kind: Byte, p: Precision, payload: seq<Byte>): seq<Byte> {
    Header(kind, p, payload) + payload
  }

  function LocationKind(plain: bool): Byte {
    if plain then KIND_PLAIN_LOCATION else KIND_LOCATION
  }

  function DocumentKind(doc: Document): Byte {
    if doc.vector.AtLocation? then KIND_DOCUMENT_REF else KIND_DOCUMENT
  }

  /** `encode_location`. */
  function EncodedLocation(loc: Location, p: Precision, c: Casts): seq<Byte> {
    Envelope(LocationKind(Plain(loc)), p, LocationPayload(loc, Plain(loc), p, c))
  }

  /** `encode_document` and `encode_document_ref`. */
  function EncodedDocument(doc: Document, p: Precision, c: Casts): seq<Byte> {
    Envelope(DocumentKind(doc), p, DocumentPayload(doc, p, c))
  }

  // ----- reading

  /** `format`: true for an envelope, false for a legacy value. */
  function IsEnveloped(bytes: seq<Byte>): Result<bool, Error> {
    if |bytes| < 4 || bytes[..4] != MAGIC then Success(false)
    else if |bytes| < HEADER_LEN then Failure(TruncatedHeader)
    else
      var _ :- PrecisionFrom(bytes[6]);
      Success(true)
  }

  datatype Opened = Opened(kind: Byte, precision: Precision, payload: seq<Byte>)

  /** `open`: the checks of the envelope, in the order they are made. */
  function Open(bytes: seq<Byte>, kind0: Byte, kind1: Byte): Result<Opened, Error>
    requires |bytes| >= HEADER_LEN
  {
    if bytes[4] == 0 || bytes[4] > RECORD_VERSION then Failure(UnsupportedVersion)
    else if bytes[5] != kind0 && bytes[5] != kind1 then Failure(WrongKind)
    else
      var p :- PrecisionFrom(bytes[6]);
      var payload := bytes[HEADER_LEN..];
      if |payload| != FromLe(bytes[8..12]) then Failure(LengthMismatch)
      else if CrcBytes(Crc(payload)) != bytes[12..16] then Failure(ChecksumMismatch)
      else Success(Opened(bytes[5], p, payload))
  }

  function ReadVector(bytes: seq<Byte>, d: nat, p: Precision, c: Casts): Result<(seq<nat>, seq<Byte>), Error> {
    var (v, rest) :- ReadNumbers(bytes, d, Width(p));
    Success((Restored(v, p, c), rest))
  }

  function Finish<T>(value: T, rest: seq<Byte>): Result<T, Error> {
    if rest == [] then Success(value) else Failure(TrailingBytes)
  }

  function ParseLocation(plain: bool, p: Precision, bytes: seq<Byte>, c: Casts): Result<Location, Error> {
    var (id, b1) :- ReadNumber(bytes, 8);
    var (d, b2) :- ReadNumber(b1, 4);
    var (address, b3) :- ReadVector(b2, d, p, c);
    var (counter, b4) :- ReadCounter(plain, address, b3, d, p, c);
    ParseLocationTail(id, address, counter, b4)
  }

  function ReadCounter(plain: bool, address: seq<nat>, bytes: seq<Byte>, d: nat, p: Precision, c: Casts):
    Result<(seq<nat>, seq<Byte>), Error>
  {
    if plain then Success((address, bytes)) else ReadVector(bytes, d, p, c)
  }

  function ParseLocationTail(id: nat, address: seq<nat>, counter: seq<nat>, bytes: seq<Byte>): Result<Location, Error> {
    var (writeCount, b1) :- ReadNumber(bytes, 8);
    var (surprise, b2) :- ReadNumber(b1, 8);
    var (n, b3) :- ReadNumber(b2, 4);
    var (neighbors, b4) :- ReadNumbers(b3, n, 8);
    Finish(Location(id, address, counter, writeCount, surprise, neighbors), b4)
  }

  /** `decode_location`. */
  function DecodedLocation(bytes: seq<Byte>, c: Casts): Result<Decoded<Location>, Error> {
    var enveloped :- IsEnveloped(bytes);
    if !enveloped then Success(Legacy)
    else
      var o :- Open(bytes, KIND_LOCATION, KIND_PLAIN_LOCATION);
      var loc :- ParseLocation(o.kind == KIND_PLAIN_LOCATION, o.precision, o.payload, c);
      Success(Value(loc))
  }

  function ReadDocVector(byRef: bool, p: Precision, bytes: seq<Byte>, c: Casts): Result<(DocVector, seq<Byte>), Error> {
    if byRef then
      var (id, rest) :- ReadNumber(bytes, 8);
      Success((AtLocation(id), rest))
    else
      var (d, b1) :- ReadNumber(bytes, 4);
      var (v, rest) :- ReadVector(b1, d, p, c);
      Success((Inline(v), rest))
  }

  function ParseDocument(byRef: bool, p: Precision, bytes: seq<Byte>, c: Casts): Result<Document, Error> {
    var (vector, b1) :- ReadDocVector(byRef, p, bytes, c);
    var (m, b2) :- ReadNumber(b1, 4);
    var (metadata, b3) :- Split(b2, m);
    Finish(Document(vector, metadata), b3)
  }

  /** `decode_document_parts`. */
  function DecodedDocument(bytes: seq<Byte>, c: Casts): Result<Decoded<Document>, Error> {
    var enveloped :- IsEnveloped(bytes);
    if !enveloped then Success(Legacy)
    else
      var o :- Open(bytes, KIND_DOCUMENT, KIND_DOCUMENT_REF);
      var doc :- ParseDocument(o.kind == KIND_DOCUMENT_REF, o.precision, o.payload, c);
      Success(Value(doc))
  }

  // ----- the envelope opens to what it holds

  lemma EnvelopeAt(kind: Byte, p: Precision, payload: seq<Byte>)
    ensures var e := Envelope(kind, p, payload);
      && |e| == HEADER_LEN + |payload| && e[..4] == MAGIC
      && e[4] == RECORD_VERSION && e[5] == kind && e[6] == PrecisionByte(p)
      && e[8..12] == Le(|payload|, 4) && e[12..16] == CrcBytes(Crc(payload)) && e[HEADER_LEN..] == payload
  {
    hide Le, CrcBytes, Crc;
    var e := Envelope(kind, p, payload);
    var head := MAGIC + [RECORD_VERSION, kind, PrecisionByte(p), 0];
    var length, crc := Le(|payload|, 4), CrcBytes(Crc(payload));
    assert e == head + length + crc + payload;
    assert e[..4] == MAGIC;
    assert e[8..12] == length;
    assert e[12..16] == crc;
    assert e[16..] == payload;
  }

  lemma PrecisionRoundTrip(p: Precision)
    ensures PrecisionFrom(PrecisionByte(p)) == Success(p)
  {
  }

  lemma EnvelopeOpens(kind: Byte, p: Precision, payload: seq<Byte>, kind0: Byte, kind1: Byte)
    requires kind == kind0 || kind == kind1
    requires |payload| < Power256(4)
    ensures |Envelope(kind, p, payload)| >= HEADER_LEN
    ensures IsEnveloped(Envelope(kind, p, payload)) == Success(true)
    ensures Open(Envelope(kind, p, payload), kind0, kind1) == Success(Opened(kind, p, payload))
  {
    hide Envelope, Le, FromLe, CrcBytes, Crc, Power256, PrecisionByte, PrecisionFrom;
    EnvelopeAt(kind, p, payload);
    PrecisionRoundTrip(p);
    FromLeOfLe(|payload|, 4);
  }

  // ----- round trips

  /** What the types and the length checks ask of a location to be encoded:
      64-bit numbers, one length for both vectors, lengths that fit in 32 bits. */
  ghost predicate Encodable(loc: Location, p: Precision, c: Casts) {
    && WellFormed(loc)
    && |LocationPayload(loc, Plain(loc), p, c)| < Power256(4)
  }

  ghost predicate WellFormed(loc: Location) {
    && loc.id < Power256(8) && loc.writeCount < Power256(8) && loc.surprise < Power256(8)
    && Fit(loc.address, 8) && Fit(loc.counter, 8) && Fit(loc.neighbors, 8)
    && |loc.counter| == |loc.address| < Power256(4) && |loc.neighbors| < Power256(4)
  }

  ghost predicate WellFormedDocument(doc: Document) {
    && (match doc.vector
        case Inline(v) => Fit(v, 8) && |v| < Power256(4)
        case AtLocation(id) => id < Power256(8))
    && |doc.metadata| < Power256(4)
  }

  ghost predicate EncodableDocument(doc: Document, p: Precision, c: Casts) {
    && WellFormedDocument(doc)
    && |DocumentPayload(doc, p, c)| < Power256(4)
  }

  /** A vector written and read back. */
  function AtRest(v: seq<nat>, p: Precision, c: Casts): (r: seq<nat>)
    ensures |r| == |v|
    ensures p.F64? ==> r == v
  {
    Restored(Stored(v, p, c), p, c)
  }

  lemma ReadVectorOfBytes(v: seq<nat>, p: Precision, c: Casts, rest: seq<Byte>)
    requires Fit(v, 8) && Sound(c)
    ensures ReadVector(VectorBytes(v, p, c) + rest, |v|, p, c) == Success((AtRest(v, p, c), rest))
  {
    hide Numbers, FromNumbers, Power256, ReadNumbers;
    assert Fit(Stored(v, p, c), Width(p));
    ReadNumbersOfNumbers(Stored(v, p, c), Width(p), rest);
  }

  /** The location that a record of this layout decodes to. */
  function LocationAtRest(loc: Location, plain: bool, p: Precision, c: Casts): Location {
    var address := AtRest(loc.address, p, c);
    loc.(address := address, counter := if plain then address else AtRest(loc.counter, p, c))
  }

  lemma ParseTailOfBytes(loc: Location, address: seq<nat>, counter: seq<nat>)
    requires loc.writeCount < Power256(8) && loc.surprise < Power256(8)
    requires Fit(loc.neighbors, 8) && |loc.neighbors| < Power256(4)
    ensures ParseLocationTail(loc.id, address, counter,
              Le(loc.writeCount, 8) + (Le(loc.surprise, 8) + (Le(|loc.neighbors|, 4) + Numbers(loc.neighbors, 8))))
            == Success(loc.(address := address, counter := counter))
  {
    hide Le, Numbers, ReadNumber, ReadNumbers, Power256;
    var n := Numbers(loc.neighbors, 8);
    assert n + [] == n;
    ReadNumbersOfNumbers(loc.neighbors, 8, []);
    ReadNumberOfLe(|loc.neighbors|, 4, n);
    ReadNumberOfLe(loc.surprise, 8, Le(|loc.neighbors|, 4) + n);
    ReadNumberOfLe(loc.writeCount, 8, Le(loc.surprise, 8) + (Le(|loc.neighbors|, 4) + n));
  }

  lemma ParseOfLocationPayload(loc: Location, plain: bool, p: Precision, c: Casts)
    requires WellFormed(loc) && Sound(c)
    ensures ParseLocation(plain, p, LocationPayload(loc, plain, p, c), c) == Success(LocationAtRest(loc, plain, p, c))
  {
    hide Le, Numbers, ReadNumber, ReadNumbers, Power256, ReadVector, VectorBytes, ParseLocationTail, AtRest, Sound;
    var tail := Le(loc.writeCount, 8) + (Le(loc.surprise, 8) + (Le(|loc.neighbors|, 4) + Numbers(loc.neighbors, 8)));
    var counter: seq<Byte> := if plain then [] else VectorBytes(loc.counter, p, c);
    var b3 := counter + tail;
    var b2 := VectorBytes(loc.address, p, c) + b3;
    ReadNumberOfLe(loc.id, 8, Le(|loc.address|, 4) + b2);
    ReadNumberOfLe(|loc.address|, 4, b2);
    ReadVectorOfBytes(loc.address, p, c, b3);
    if plain {
      assert b3 == tail;
    } else {
      ReadVectorOfBytes(loc.counter, p, c, tail);
    }
    var rest := LocationAtRest(loc, plain, p, c);
    ParseTailOfBytes(loc, rest.address, rest.counter);
  }

  /** A location written and read back: the same, but for a plain location's
      counter, which reads back as its address. */
  lemma LocationRoundTrip(loc: Location, p: Precision, c: Casts)
    requires Encodable(loc, p, c) && Sound(c)
    ensures DecodedLocation(EncodedLocation(loc, p, c), c)
            == Success(Value(LocationAtRest(loc, Plain(loc), p, c)))
  {
    hide Envelope, LocationPayload, ParseLocation, IsEnveloped, Open, Plain, Sound, Power256, LocationAtRest;
    var plain := Plain(loc);
    EnvelopeOpens(LocationKind(plain), p, LocationPayload(loc, plain, p, c), KIND_LOCATION, KIND_PLAIN_LOCATION);
    ParseOfLocationPayload(loc, plain, p, c);
  }

  /** At f64 the round trip is exact, the counter of a plain location up to
      float equality. */
  lemma ExactRoundTrip(loc: Location, c: Casts)
    requires Encodable(loc, F64, c) && Sound(c)
    ensures var r := DecodedLocation(EncodedLocation(loc, F64, c), c);
      && r.Success? && r.value.Value?
      && r.value.value == loc.(counter := r.value.value.counter)
      && (r.value.value.counter == loc.counter || AllFloatEq(loc.counter, r.value.value.counter))
      && (!Plain(loc) ==> r.value.value == loc)
  {
    LocationRoundTrip(loc, F64, c);
  }

  lemma ParseOfDocumentPayload(doc: Document, p: Precision, c: Casts)
    requires EncodableDocument(doc, p, c) && Sound(c)
    ensures ParseDocument(doc.vector.AtLocation?, p, DocumentPayload(doc, p, c), c) == Success(DocumentAtRest(doc, p, c))
  {
    hide Le, ReadNumber, Power256, ReadVector, VectorBytes, AtRest, Sound;
    var m := Le(|doc.metadata|, 4) + doc.metadata;
    ReadNumberOfLe(|doc.metadata|, 4, doc.metadata);
    assert doc.metadata[..|doc.metadata|] == doc.metadata && doc.metadata[|doc.metadata|..] == [];
    match doc.vector
    case Inline(v) =>
      ReadNumberOfLe(|v|, 4, VectorBytes(v, p, c) + m);
      ReadVectorOfBytes(v, p, c, m);
    case AtLocation(id) =>
      ReadNumberOfLe(id, 8, m);
      assert doc == Document(AtLocation(id), doc.metadata);
  }

  function DocumentAtRest(doc: Document, p: Precision, c: Casts): Document {
    match doc.vector
    case Inline(v) => doc.(vector := Inline(AtRest(v, p, c)))
    case AtLocation(_) => doc
  }

  /** A document written and read back, inline or by reference. */
  lemma DocumentRoundTrip(doc: Document, p: Precision, c: Casts)
    requires EncodableDocument(doc, p, c) && Sound(c)
    ensures DecodedDocument(EncodedDocument(doc, p, c), c) == Success(Value(DocumentAtRest(doc, p, c)))
    ensures p.F64? ==> DocumentAtRest(doc, p, c) == doc
  {
    hide Envelope, DocumentPayload, ParseDocument, IsEnveloped, Open, Sound, Power256;
    EnvelopeOpens(DocumentKind(doc), p, DocumentPayload(doc, p, c), KIND_DOCUMENT, KIND_DOCUMENT_REF);
    ParseOfDocumentPayload(doc, p, c);
  }

  // ----- the reader accepts only what the writer writes

  /** An f32 that is not a NaN widens to a number that narrows back to it. */
  ghost predicate Exact(c: Casts) {
    forall y: nat | y < Power256(4) :: IsNaN(c.widen(y)) || c.narrow(c.widen(y)) == y
  }

  /** What reading at this precision loses nothing by; f64 patterns are not cast. */
  ghost predicate Faithful(p: Precision, c: Casts) {
    p.F64? || (Sound(c) && Exact(c))
  }

  /** Nothing in it that a cast may change: NaNs are kept by f64 alone. */
  predicate Kept(v: seq<nat>, p: Precision) {
    p.F64? || forall i | 0 <= i < |v| :: !IsNaN(v[i])
  }

  lemma BytesOfReadVector(bytes: seq<Byte>, d: nat, p: Precision, c: Casts)
    requires Faithful(p, c)
    ensures var r := ReadVector(bytes, d, p, c);
      r.Success? ==>
        var (v, rest) := (r.value.0, r.value.1);
        |v| == d && Fit(v, 8) && (Kept(v, p) ==> AtRest(v, p, c) == v && bytes == VectorBytes(v, p, c) + rest)
  {
    hide Numbers, ReadNumbers, Power256;
    NumbersOfReadNumbers(bytes, d, Width(p));
    var r := ReadNumbers(bytes, d, Width(p));
    if r.Success? && p.F32? && Kept(Widened(r.value.0, c), p) {
      var (ys, v) := (r.value.0, Widened(r.value.0, c));
      forall i | 0 <= i < |ys| ensures Narrowed(v, c)[i] == ys[i] {
        assert !IsNaN(v[i]);
      }
      assert Narrowed(v, c) == ys;
    }
  }

  lemma BytesOfParseTail(id: nat, address: seq<nat>, counter: seq<nat>, bytes: seq<Byte>)
    ensures var r := ParseLocationTail(id, address, counter, bytes);
      r.Success? ==>
        var loc := r.value;
        && loc.id == id && loc.address == address && loc.counter == counter
        && loc.writeCount < Power256(8) && loc.surprise < Power256(8)
        && Fit(loc.neighbors, 8) && |loc.neighbors| < Power256(4)
        && bytes == Le(loc.writeCount, 8)
                    + (Le(loc.surprise, 8) + (Le(|loc.neighbors|, 4) + Numbers(loc.neighbors, 8)))
  {
    hide Le, Numbers, ReadNumber, ReadNumbers, Power256, Fit;
    var r := ParseLocationTail(id, address, counter, bytes);
    if r.Success? {
      LeOfReadNumber(bytes, 8);
      var b1 := ReadNumber(bytes, 8).value.1;
      LeOfReadNumber(b1, 8);
      var b2 := ReadNumber(b1, 8).value.1;
      LeOfReadNumber(b2, 4);
      var n, b3 := ReadNumber(b2, 4).value.0, ReadNumber(b2, 4).value.1;
      NumbersOfReadNumbers(b3, n, 8);
      assert Numbers(r.value.neighbors, 8) + [] == Numbers(r.value.neighbors, 8);
    }
  }

  /** Both vectors are kept. */
  predicate AllKept(loc: Location, p: Precision) {
    Kept(loc.address, p) && Kept(loc.counter, p)
  }

  /** A location payload that parses is exactly the one its location is written as:
      every byte is used, and the record is well formed. An f32 payload may hold NaNs,
      which the casts need not keep. */
  lemma OnlyPrintedParses(plain: bool, p: Precision, bytes: seq<Byte>, c: Casts)
    requires Faithful(p, c)
    ensures var r := ParseLocation(plain, p, bytes, c);
      r.Success? ==>
        && WellFormed(r.value) && (plain ==> r.value.counter == r.value.address)
        && (AllKept(r.value, p) ==> bytes == LocationPayload(r.value, plain, p, c))
        && (AllKept(r.value, p) ==> AtRest(r.value.address, p, c) == r.value.address
                                    && AtRest(r.value.counter, p, c) == r.value.counter)
  {
    hide Le, Numbers, ReadNumber, ReadNumbers, Power256, Fit, ReadVector, VectorBytes, ParseLocationTail, Kept, AtRest, Faithful;
    var r := ParseLocation(plain, p, bytes, c);
    if r.Success? {
      LeOfReadNumber(bytes, 8);
      var id, b1 := ReadNumber(bytes, 8).value.0, ReadNumber(bytes, 8).value.1;
      LeOfReadNumber(b1, 4);
      var d, b2 := ReadNumber(b1, 4).value.0, ReadNumber(b1, 4).value.1;
      BytesOfReadVector(b2, d, p, c);
      var address, b3 := ReadVector(b2, d, p, c).value.0, ReadVector(b2, d, p, c).value.1;
      BytesOfReadVector(b3, d, p, c);
      var rc := ReadCounter(plain, address, b3, d, p, c);
      BytesOfParseTail(id, address, rc.value.0, rc.value.1);
    }
  }

  lemma BytesOfReadDocVector(byRef: bool, p: Precision, bytes: seq<Byte>, c: Casts)
    requires Faithful(p, c)
    ensures var r := ReadDocVector(byRef, p, bytes, c);
      r.Success? ==>
        var (v, rest) := (r.value.0, r.value.1);
        if byRef then v.AtLocation? && v.id < Power256(8) && bytes == Le(v.id, 8) + rest
        else v.Inline? && Fit(v.vector, 8) && |v.vector| < Power256(4)
             && (Kept(v.vector, p) ==>
                   AtRest(v.vector, p, c) == v.vector
                   && bytes == Le(|v.vector|, 4) + (VectorBytes(v.vector, p, c) + rest))
  {
    hide Le, ReadNumber, Power256, ReadVector, VectorBytes, Kept, AtRest, Faithful;
    if byRef {
      LeOfReadNumber(bytes, 8);
    } else {
      LeOfReadNumber(bytes, 4);
      if ReadNumber(bytes, 4).Success? {
        BytesOfReadVector(ReadNumber(bytes, 4).value.1, ReadNumber(bytes, 4).value.0, p, c);
      }
    }
  }

  predicate DocumentKept(doc: Document, p: Precision) {
    doc.vector.Inline? ==> Kept(doc.vector.vector, p)
  }

  /** So is a document payload. */
  lemma OnlyPrintedDocument(byRef: bool, p: Precision, bytes: seq<Byte>, c: Casts)
    requires Faithful(p, c)
    ensures var r := ParseDocument(byRef, p, bytes, c);
      r.Success? ==>
        && WellFormedDocument(r.value) && r.value.vector.AtLocation? == byRef
        && (DocumentKept(r.value, p) ==> bytes == DocumentPayload(r.value, p, c) && DocumentAtRest(r.value, p, c) == r.value)
  {
    hide Le, ReadNumber, Power256, ReadDocVector, VectorBytes, Kept, AtRest, Faithful, Fit;
    var r := ParseDocument(byRef, p, bytes, c);
    if r.Success? {
      BytesOfReadDocVector(byRef, p, bytes, c);
      var b1 := ReadDocVector(byRef, p, bytes, c).value.1;
      LeOfReadNumber(b1, 4);
      var m, b2 := ReadNumber(b1, 4).value.0, ReadNumber(b1, 4).value.1;
      assert b2 == b2[..m] + b2[m..];
      assert r.value.metadata == b2;
    }
  }

  /** An envelope that opens is written as `envelope` writes it, but for its
      reserved byte, which nothing checks. */
  lemma OpenedBytes(bytes: seq<Byte>, kind0: Byte, kind1: Byte)
    requires IsEnveloped(bytes) == Success(true) && |bytes| >= HEADER_LEN && Open(bytes, kind0, kind1).Success?
    ensures var o := Open(bytes, kind0, kind1).value;
      && |o.payload| < Power256(4)
      && bytes == Envelope(o.kind, o.precision, o.payload)[7 := bytes[7]]
  {
    hide Le, FromLe, CrcBytes, Crc, Power256, Envelope;
    var o := Open(bytes, kind0, kind1).value;
    var e := Envelope(o.kind, o.precision, o.payload);
    EnvelopeAt(o.kind, o.precision, o.payload);
    LeOfFromLe(bytes[8..12]);
    PrecisionByteFrom(bytes[6]);
    VersionOne(bytes[4]);
    assert forall i | 0 <= i < 4 :: bytes[i] == bytes[..4][i] == e[..4][i] == e[i];
    assert forall i | 8 <= i < 12 :: bytes[i] == bytes[8..12][i - 8] == e[8..12][i - 8] == e[i];
    assert forall i | 12 <= i < 16 :: bytes[i] == bytes[12..16][i - 12] == e[12..16][i - 12] == e[i];
    assert forall i | 16 <= i < |bytes| :: bytes[i] == bytes[16..][i - 16] == e[16..][i - 16] == e[i];
  }

  lemma PrecisionByteFrom(b: Byte)
    ensures PrecisionFrom(b).Success? ==> PrecisionByte(PrecisionFrom(b).value) == b
  {
  }

  lemma VersionOne(b: Byte)
    ensures b == 0 || b > RECORD_VERSION || b == RECORD_VERSION
  {
  }

  /** A location that decodes is well formed, whatever its bytes. */
  lemma DecodedIsWellFormed(plain: bool, p: Precision, bytes: seq<Byte>, c: Casts)
    requires Sound(c)
    ensures var r := ParseLocation(plain, p, bytes, c); r.Success? ==> WellFormed(r.value)
  {
    hide Le, Numbers, ReadNumber, ReadNumbers, Power256, Fit, ReadVector, VectorBytes, ParseLocationTail, Sound;
    var r := ParseLocation(plain, p, bytes, c);
    if r.Success? {
      LeOfReadNumber(bytes, 8);
      var id, b1 := ReadNumber(bytes, 8).value.0, ReadNumber(bytes, 8).value.1;
      LeOfReadNumber(b1, 4);
      var d, b2 := ReadNumber(b1, 4).value.0, ReadNumber(b1, 4).value.1;
      VectorsFit(b2, d, p, c);
      var address, b3 := ReadVector(b2, d, p, c).value.0, ReadVector(b2, d, p, c).value.1;
      VectorsFit(b3, d, p, c);
      var rc := ReadCounter(plain, address, b3, d, p, c);
      BytesOfParseTail(id, address, rc.value.0, rc.value.1);
    }
  }

  lemma VectorsFit(bytes: seq<Byte>, d: nat, p: Precision, c: Casts)
    requires Sound(c)
    ensures var r := ReadVector(bytes, d, p, c); r.Success? ==> |r.value.0| == d && Fit(r.value.0, 8)
  {
    hide Numbers, ReadNumbers, Power256;
    NumbersOfReadNumbers(bytes, d, Width(p));
  }

  /** The record's precision byte says p. */
  predicate At(bytes: seq<Byte>, p: Precision)
    requires |bytes| >= HEADER_LEN
  {
    PrecisionFrom(bytes[6]) == Success(p)
  }

  /** What a decoded record is made of. */
  lemma DecodedParts(bytes: seq<Byte>, p: Precision, c: Casts)
    requires |bytes| >= HEADER_LEN && At(bytes, p) && Faithful(p, c)
    requires DecodedLocation(bytes, c).Success? && DecodedLocation(bytes, c).value.Value?
    ensures var loc := DecodedLocation(bytes, c).value.value;
      var plain := bytes[5] == KIND_PLAIN_LOCATION;
      && WellFormed(loc) && bytes[5] == LocationKind(plain) && (plain ==> loc.counter == loc.address)
      && (AllKept(loc, p) ==>
            && AtRest(loc.address, p, c) == loc.address && AtRest(loc.counter, p, c) == loc.counter
            && |LocationPayload(loc, plain, p, c)| < Power256(4)
            && bytes == Envelope(bytes[5], p, LocationPayload(loc, plain, p, c))[7 := bytes[7]])
  {
    hide Le, Power256, IsEnveloped, Open, ParseLocation, LocationPayload, Envelope, WellFormed, AtRest, Kept, Faithful;
    var o := Open(bytes, KIND_LOCATION, KIND_PLAIN_LOCATION).value;
    OpenedBytes(bytes, KIND_LOCATION, KIND_PLAIN_LOCATION);
    OpenKinds(bytes, KIND_LOCATION, KIND_PLAIN_LOCATION);
    OnlyPrintedParses(o.kind == KIND_PLAIN_LOCATION, p, o.payload, c);
  }

  /** What decodes can be encoded again at its precision (unless it is a plain record
      with a NaN, whose counter no longer equals its address), and is then the same
      bytes exactly when it was stored as the kind its content calls for and with its
      reserved byte zero. */
  lemma CanonicalBytes(bytes: seq<Byte>, p: Precision, c: Casts)
    requires |bytes| >= HEADER_LEN && At(bytes, p) && Faithful(p, c)
    requires DecodedLocation(bytes, c).Success? && DecodedLocation(bytes, c).value.Value?
    requires AllKept(DecodedLocation(bytes, c).value.value, p)
    ensures var loc := DecodedLocation(bytes, c).value.value;
      && (Plain(loc) || bytes[5] == KIND_LOCATION ==> Encodable(loc, p, c))
      && (EncodedLocation(loc, p, c) == bytes <==> bytes[5] == LocationKind(Plain(loc)) && bytes[7] == 0)
  {
    hide Le, Power256, DecodedLocation, LocationPayload, Envelope, Plain, AtRest, Kept, Faithful, At;
    var loc := DecodedLocation(bytes, c).value.value;
    var plain := bytes[5] == KIND_PLAIN_LOCATION;
    DecodedParts(bytes, p, c);
    var e := Envelope(bytes[5], p, LocationPayload(loc, plain, p, c));
    EnvelopeAt(bytes[5], p, LocationPayload(loc, plain, p, c));
    PlainIsShorter(loc, plain, p, c);
    EnvelopeAt(LocationKind(Plain(loc)), p, LocationPayload(loc, Plain(loc), p, c));
    ReservedIsZero(bytes[5], p, LocationPayload(loc, plain, p, c));
    SameBut7(e, bytes);
  }

  /** A document has one kind: what decodes encodes to its own bytes exactly when the
      reserved byte is zero, and decodes to the same again. */
  lemma CanonicalDocument(bytes: seq<Byte>, p: Precision, c: Casts)
    requires |bytes| >= HEADER_LEN && At(bytes, p) && Faithful(p, c)
    requires DecodedDocument(bytes, c).Success? && DecodedDocument(bytes, c).value.Value?
    requires DocumentKept(DecodedDocument(bytes, c).value.value, p)
    ensures var doc := DecodedDocument(bytes, c).value.value;
      && EncodableDocument(doc, p, c) && DocumentAtRest(doc, p, c) == doc
      && (EncodedDocument(doc, p, c) == bytes <==> bytes[7] == 0)
      && (Sound(c) ==> DecodedDocument(EncodedDocument(doc, p, c), c) == Success(Value(doc)))
  {
    hide Le, Power256, IsEnveloped, Open, ParseDocument, DocumentPayload, Envelope, WellFormedDocument, DocumentAtRest, Kept,
      Faithful;
    var o := Open(bytes, KIND_DOCUMENT, KIND_DOCUMENT_REF).value;
    OpenedBytes(bytes, KIND_DOCUMENT, KIND_DOCUMENT_REF);
    OpenKinds(bytes, KIND_DOCUMENT, KIND_DOCUMENT_REF);
    OnlyPrintedDocument(o.kind == KIND_DOCUMENT_REF, p, o.payload, c);
    EnvelopeAt(o.kind, p, o.payload);
    ReservedIsZero(o.kind, p, o.payload);
    SameBut7(Envelope(o.kind, p, o.payload), bytes);
    if Sound(c) {
      DocumentRoundTrip(DecodedDocument(bytes, c).value.value, p, c);
    }
  }

  lemma ReservedIsZero(kind: Byte, p: Precision, payload: seq<Byte>)
    ensures var e := Envelope(kind, p, payload); |e| >= HEADER_LEN && e[7] == 0
  {
    hide Le, CrcBytes, Crc;
    assert Header(kind, p, payload)[7] == 0;
  }

  lemma OpenKinds(bytes: seq<Byte>, kind0: Byte, kind1: Byte)
    requires |bytes| >= HEADER_LEN && Open(bytes, kind0, kind1).Success?
    ensures var o := Open(bytes, kind0, kind1).value;
      o.kind == bytes[5] && (o.kind == kind0 || o.kind == kind1) && Success(o.precision) == PrecisionFrom(bytes[6])
  {
  }

  lemma SameBut7(e: seq<Byte>, bytes: seq<Byte>)
    requires |e| == |bytes| >= HEADER_LEN && bytes == e[7 := bytes[7]]
    ensures e == bytes <==> bytes[7] == e[7]
  {
  }

  /** A location read from the plain layout is plain unless it holds a NaN, and
      dropping the counter only shortens a payload. */
  lemma PlainIsShorter(loc: Location, plain: bool, p: Precision, c: Casts)
    requires |loc.counter| == |loc.address|
    ensures |LocationPayload(loc, true, p, c)| <= |LocationPayload(loc, plain, p, c)|
  {
    hide Le, Numbers;
  }

  /** A decoded record, of either precision, encoded at f64 decodes to the same
      location, the counter of a plain one up to float equality. The one thing
      asked is that the f64 payload fits its length field. */
  lemma ReencodeIsStable(bytes: seq<Byte>, c: Casts)
    requires Sound(c)
    requires DecodedLocation(bytes, c).Success? && DecodedLocation(bytes, c).value.Value?
    ensures WellFormed(DecodedLocation(bytes, c).value.value)
    ensures var loc := DecodedLocation(bytes, c).value.value;
      |LocationPayload(loc, Plain(loc), F64, c)| < Power256(4) ==> SameAgain(loc, F64, c)
  {
    var loc := DecodedLocation(bytes, c).value.value;
    var o := Open(bytes, KIND_LOCATION, KIND_PLAIN_LOCATION).value;
    DecodedIsWellFormed(o.kind == KIND_PLAIN_LOCATION, o.precision, o.payload, c);
    hide DecodedLocation, EncodedLocation, LocationPayload, WellFormed, Sound, ParseLocation, Open;
    if |LocationPayload(loc, Plain(loc), F64, c)| < Power256(4) {
      ExactRoundTrip(loc, c);
    }
  }

  /** Encoded and decoded, the location is the same, a plain one's counter as floats. */
  ghost predicate SameAgain(loc: Location, p: Precision, c: Casts) {
    var again := DecodedLocation(EncodedLocation(loc, p, c), c);
    && again.Success? && again.value.Value?
    && again.value.value == loc.(counter := again.value.value.counter)
    && (again.value.value.counter == loc.counter || AllFloatEq(loc.counter, again.value.value.counter))
  }

  /** Encoded at the precision it was stored with, as a store does, it also decodes to
      the same, and always fits: but for the NaNs of an f32 record. */
  lemma ReencodeKeepsPrecision(bytes: seq<Byte>, p: Precision, c: Casts)
    requires |bytes| >= HEADER_LEN && At(bytes, p) && Sound(c) && Faithful(p, c)
    requires DecodedLocation(bytes, c).Success? && DecodedLocation(bytes, c).value.Value?
    ensures var loc := DecodedLocation(bytes, c).value.value;
      AllKept(loc, p) && (Plain(loc) || bytes[5] == KIND_LOCATION) ==> Encodable(loc, p, c) && SameAgain(loc, p, c)
  {
    hide DecodedLocation, EncodedLocation, LocationPayload, WellFormed, Sound, AtRest, Plain, Faithful, AllKept, At;
    var loc := DecodedLocation(bytes, c).value.value;
    DecodedParts(bytes, p, c);
    if AllKept(loc, p) && (Plain(loc) || bytes[5] == KIND_LOCATION) {
      CanonicalBytes(bytes, p, c);
      LocationRoundTrip(loc, p, c);
      PlainCounters(loc);
    }
  }

  lemma PlainCounters(loc: Location)
    ensures Plain(loc) ==> AllFloatEq(loc.counter, loc.address)
  {
  }

  // ----- f32 stores

  /** Storing and reloading a location at one precision. */
  function Reload(loc: Location, p: Precision, c: Casts): Location {
    LocationAtRest(loc, Plain(loc), p, c)
  }

  lemma AtRestTwice(v: seq<nat>, p: Precision, c: Casts)
    requires Sound(c)
    ensures AtRest(AtRest(v, p, c), p, c) == AtRest(v, p, c)
  {
  }

  lemma FloatEqReflexive(a: seq<nat>, b: seq<nat>)
    requires AllFloatEq(a, b)
    ensures AllFloatEq(b, b) && AllFloatEq(b, a)
  {
    assert forall i | 0 <= i < |b| :: FloatEq(a[i], b[i]);
  }

  /** One reload reaches a fixed point, except that rounding may have turned the
      location plain: then the next reload replaces the counter by the address,
      equal to it as floats, and two reloads reach the fixed point exactly. */
  lemma ReloadSettles(loc: Location, p: Precision, c: Casts)
    requires Sound(c) && |loc.counter| == |loc.address|
    ensures var once := Reload(loc, p, c);
      var twice := Reload(once, p, c);
      && twice == once.(counter := twice.counter)
      && (twice.counter == once.counter || AllFloatEq(once.counter, twice.counter))
      && (twice == once <==> (Plain(once) ==> once.counter == once.address))
      && Reload(twice, p, c) == twice
  {
    hide AtRest, Sound, AllFloatEq;
    var once := Reload(loc, p, c);
    var twice := Reload(once, p, c);
    AtRestTwice(loc.address, p, c);
    AtRestTwice(loc.counter, p, c);
    if Plain(once) {
      FloatEqReflexive(once.counter, once.address);
    }
  }

  /** A location whose counter rounds to the other zero than its address is not
      a fixed point of one reload, bit for bit. */
  lemma SignedZeroMoves(c: Casts, tiny: nat)
    requires Sound(c) && c.narrow(0) == 0 && c.widen(0) == 0
    requires c.narrow(tiny) == 0x8000_0000 && c.widen(0x8000_0000) == SIGN && !FloatEq(tiny, 0)
    ensures var loc := Location(7, [0], [tiny], 0, 0, []);
      Reload(Reload(loc, F32, c), F32, c) != Reload(loc, F32, c)
  {
    var loc := Location(7, [0], [tiny], 0, 0, []);
    var once := Reload(loc, F32, c);
    assert loc.counter[0] == tiny;
    assert !Plain(loc) by {
      assert !FloatEq(loc.counter[0], loc.address[0]);
    }
    assert once.address == [0] && once.counter == [SIGN];
    assert Plain(once);
  }

  // ----- corruption

  /** Checksums that are equal as bytes are equal. */
  lemma CrcBytesInjective(a: bv32, b: bv32)
    requires CrcBytes(a) == CrcBytes(b)
    ensures a == b
  {
    hide Octet;
    assert CrcBytes(a)[0] == CrcBytes(b)[0];
    assert CrcBytes(a)[1] == CrcBytes(b)[1];
    assert CrcBytes(a)[2] == CrcBytes(b)[2];
    assert CrcBytes(a)[3] == CrcBytes(b)[3];
    OctetsDetermine(a, b);
  }

  lemma OctetsDetermine(a: bv32, b: bv32)
    requires Octet(a, 0) == Octet(b, 0) && Octet(a, 1) == Octet(b, 1)
    requires Octet(a, 2) == Octet(b, 2) && Octet(a, 3) == Octet(b, 3)
    ensures a == b
  {
  }

  /** An envelope with up to four consecutive payload bytes changed to anything
      else does not open. */
  lemma BurstIsRefused(kind: Byte, p: Precision, before: seq<Byte>, v: seq<Byte>, w: seq<Byte>, after: seq<Byte>,
                       kind0: Byte, kind1: Byte)
    requires kind == kind0 || kind == kind1
    requires |v| == |w| <= 4 && v != w && |before + v + after| < Power256(4)
    ensures var bytes := Header(kind, p, before + v + after) + (before + w + after);
      && IsEnveloped(bytes) == Success(true)
      && Open(bytes, kind0, kind1) == Failure(ChecksumMismatch)
  {
    hide Le, FromLe, CrcBytes, Crc, Power256, Envelope, PrecisionByte, PrecisionFrom;
    var old_, new_ := before + v + after, before + w + after;
    var bytes := Header(kind, p, old_) + new_;
    HeaderAt(kind, p, old_, new_);
    PrecisionRoundTrip(p);
    FromLeOfLe(|old_|, 4);
    BurstChangesCrc(before, v, w, after);
    if CrcBytes(Crc(new_)) == CrcBytes(Crc(old_)) {
      CrcBytesInjective(Crc(new_), Crc(old_));
    }
  }

  lemma HeaderAt(kind: Byte, p: Precision, payload: seq<Byte>, other: seq<Byte>)
    ensures var e := Header(kind, p, payload) + other;
      && |e| == HEADER_LEN + |other| && e[..4] == MAGIC
      && e[4] == RECORD_VERSION && e[5] == kind && e[6] == PrecisionByte(p)
      && e[8..12] == Le(|payload|, 4) && e[12..16] == CrcBytes(Crc(payload)) && e[HEADER_LEN..] == other
  {
    hide Le, CrcBytes, Crc;
    var head := MAGIC + [RECORD_VERSION, kind, PrecisionByte(p), 0];
    var length, crc := Le(|payload|, 4), CrcBytes(Crc(payload));
    var e := Header(kind, p, payload) + other;
    assert e == head + length + crc + other;
    assert e[..4] == MAGIC;
    assert e[8..12] == length;
    assert e[12..16] == crc;
    assert e[16..] == other;
  }

  /** So a stored location damaged within four consecutive payload bytes is
      refused, whatever the bytes become. */
  lemma DamagedLocationRefused(loc: Location, p: Precision, c: Casts, before: seq<Byte>, v: seq<Byte>, w: seq<Byte>,
                               after: seq<Byte>)
    requires Encodable(loc, p, c)
    requires LocationPayload(loc, Plain(loc), p, c) == before + v + after
    requires |v| == |w| <= 4 && v != w
    ensures DecodedLocation(EncodedLocation(loc, p, c)[..HEADER_LEN] + (before + w + after), c)
            == Failure(ChecksumMismatch)
  {
    hide Header, LocationPayload, Open, IsEnveloped, Plain, Power256;
    var kind := LocationKind(Plain(loc));
    BurstIsRefused(kind, p, before, v, w, after, KIND_LOCATION, KIND_PLAIN_LOCATION);
    assert EncodedLocation(loc, p, c)[..HEADER_LEN] == Header(kind, p, before + v + after);
  }

  /** And so is a stored document. */
  lemma DamagedDocumentRefused(doc: Document, p: Precision, c: Casts, before: seq<Byte>, v: seq<Byte>, w: seq<Byte>,
                               after: seq<Byte>)
    requires EncodableDocument(doc, p, c)
    requires DocumentPayload(doc, p, c) == before + v + after
    requires |v| == |w| <= 4 && v != w
    ensures DecodedDocument(EncodedDocument(doc, p, c)[..HEADER_LEN] + (before + w + after), c)
            == Failure(ChecksumMismatch)
  {
    hide Header, DocumentPayload, Open, IsEnveloped, Power256, WellFormedDocument;
    var kind := DocumentKind(doc);
    BurstIsRefused(kind, p, before, v, w, after, KIND_DOCUMENT, KIND_DOCUMENT_REF);
    assert EncodedDocument(doc, p, c)[..HEADER_LEN] == Header(kind, p, before + v + after);
  }
}
