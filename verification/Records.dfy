/** The encoder and decoder of codec.rs as they run: a buffer that grows and a
    reader that advances. They compute exactly the functions of Codec. */
module Records {
  import opened Wrappers
  import opened Crc32
  import opened Bytes
  import opened Codec

  /** `put_floats`: appends a vector's patterns at a precision. */
  method PutFloats(out: seq<Byte>, v: seq<nat>, p: Precision, c: Casts) returns (r: seq<Byte>)
    ensures r == out + VectorBytes(v, p, c)
  {
    hide Le;
    r := out;
    ghost var stored := Stored(v, p, c);
    for i := 0 to |v|
      invariant r == out + Numbers(stored[..i], Width(p))
    {
      r := r + (if p.F64? then Le(v[i], 8) else Le(c.narrow(v[i]), 4));
      NumbersSnoc(stored, i, Width(p));
    }
    assert stored[..|v|] == stored;
  }

  lemma {:induction false} NumbersSnoc(v: seq<nat>, i: nat, width: nat)
    requires i < |v|
    ensures Numbers(v[..i + 1], width) == Numbers(v[..i], width) + Le(v[i], width)
    decreases |v|
  {
    hide Le;
    if i > 0 {
      NumbersSnoc(v[1..], i - 1, width);
      assert v[..i + 1][1..] == v[1..][..i] && v[..i][1..] == v[1..][..i - 1];
    }
  }

  /** `encode_location`. */
  method EncodeLocation(loc: Location, p: Precision, c: Casts) returns (out: seq<Byte>)
    ensures out == EncodedLocation(loc, p, c)
  {
    hide Le, Header, VectorBytes;
    var plain := Plain(loc);
    out := Le(loc.id, 8) + Le(|loc.address|, 4);
    out := PutFloats(out, loc.address, p, c);
    if !plain {
      out := PutFloats(out, loc.counter, p, c);
    }
    out := out + Le(loc.writeCount, 8) + Le(loc.surprise, 8) + Le(|loc.neighbors|, 4);
    ghost var before := out;
    for i := 0 to |loc.neighbors|
      invariant out == before + Numbers(loc.neighbors[..i], 8)
    {
      NumbersSnoc(loc.neighbors, i, 8);
      out := out + Le(loc.neighbors[i], 8);
    }
    assert loc.neighbors[..|loc.neighbors|] == loc.neighbors;
    LocationBytesAssociate(loc, plain, p, c);
    out := Envelope(LocationKind(plain), p, out);
  }

  /** Appending field by field writes the layout of a location. */
  lemma LocationBytesAssociate(loc: Location, plain: bool, p: Precision, c: Casts)
    ensures (if plain then Le(loc.id, 8) + Le(|loc.address|, 4) + VectorBytes(loc.address, p, c)
             else Le(loc.id, 8) + Le(|loc.address|, 4) + VectorBytes(loc.address, p, c) + VectorBytes(loc.counter, p, c))
            + Le(loc.writeCount, 8) + Le(loc.surprise, 8) + Le(|loc.neighbors|, 4) + Numbers(loc.neighbors, 8)
            == LocationPayload(loc, plain, p, c)
  {
    hide Le, VectorBytes, Numbers;
  }

  /** `encode_document` and `encode_document_ref`. */
  method EncodeDocument(doc: Document, p: Precision, c: Casts) returns (out: seq<Byte>)
    ensures out == EncodedDocument(doc, p, c)
  {
    hide Le, Header, VectorBytes;
    match doc.vector
    case Inline(v) =>
      out := PutFloats(Le(|v|, 4), v, p, c);
      out := out + Le(|doc.metadata|, 4) + doc.metadata;
      assert out == DocumentPayload(doc, p, c);
      out := Envelope(KIND_DOCUMENT, p, out);
    case AtLocation(id) =>
      out := Le(id, 8) + Le(|doc.metadata|, 4) + doc.metadata;
      assert out == DocumentPayload(doc, p, c);
      out := Envelope(KIND_DOCUMENT_REF, p, out);
  }

  /** `Reader`: bounds-checked reads over a payload. A failed read leaves the
      reader where it was. */
  class Reader {
    var bytes: seq<Byte>

    constructor (payload: seq<Byte>)
      ensures bytes == payload
    {
      bytes := payload;
    }

    method Take(n: nat) returns (r: Result<seq<Byte>, Error>)
      modifies this
      ensures var s := Split(old(bytes), n);
        if s.Success? then r == Success(s.value.0) && bytes == s.value.1
        else r == Failure(s.error) && bytes == old(bytes)
    {
      if n > |bytes| {
        return Failure(TruncatedPayload);
      }
      r := Success(bytes[..n]);
      bytes := bytes[n..];
    }

    method Number(width: nat) returns (r: Result<nat, Error>)
      modifies this
      ensures var s := ReadNumber(old(bytes), width);
        if s.Success? then r == Success(s.value.0) && bytes == s.value.1
        else r == Failure(s.error) && bytes == old(bytes)
    {
      var head :- Take(width);
      r := Success(FromLe(head));
    }

    method U64s(n: nat) returns (r: Result<seq<nat>, Error>)
      modifies this
      ensures var s := ReadNumbers(old(bytes), n, 8);
        if s.Success? then r == Success(s.value.0) && bytes == s.value.1
        else r == Failure(s.error) && bytes == old(bytes)
    {
      var raw :- Take(n * 8);
      r := Success(FromNumbers(raw, n, 8));
    }

    method Floats(n: nat, p: Precision, c: Casts) returns (r: Result<seq<nat>, Error>)
      modifies this
      ensures var s := ReadVector(old(bytes), n, p, c);
        if s.Success? then r == Success(s.value.0) && bytes == s.value.1
        else r == Failure(s.error) && bytes == old(bytes)
    {
      var raw :- Take(n * Width(p));
      var patterns := FromNumbers(raw, n, Width(p));
      r := Success(if p.F64? then patterns else Widened(patterns, c));
    }
  }

  /** `decode_location`. */
  method DecodeLocation(bytes: seq<Byte>, c: Casts) returns (r: Result<Decoded<Location>, Error>)
    ensures r == DecodedLocation(bytes, c)
  {
    hide ReadNumber, ReadNumbers, ReadVector, Open;
    var enveloped :- IsEnveloped(bytes);
    if !enveloped {
      return Success(Legacy);
    }
    var o :- Open(bytes, KIND_LOCATION, KIND_PLAIN_LOCATION);
    var reader := new Reader(o.payload);
    var id :- reader.Number(8);
    var d :- reader.Number(4);
    var address :- reader.Floats(d, o.precision, c);
    var counter := address;
    if o.kind != KIND_PLAIN_LOCATION {
      counter :- reader.Floats(d, o.precision, c);
    }
    var writeCount :- reader.Number(8);
    var surprise :- reader.Number(8);
    var n :- reader.Number(4);
    var neighbors :- reader.U64s(n);
    if reader.bytes != [] {
      return Failure(TrailingBytes);
    }
    r := Success(Value(Location(id, address, counter, writeCount, surprise, neighbors)));
  }

  /** `decode_document_parts`. */
  method DecodeDocument(bytes: seq<Byte>, c: Casts) returns (r: Result<Decoded<Document>, Error>)
    ensures r == DecodedDocument(bytes, c)
  {
    hide ReadNumber, ReadNumbers, ReadVector, Open;
    var enveloped :- IsEnveloped(bytes);
    if !enveloped {
      return Success(Legacy);
    }
    var o :- Open(bytes, KIND_DOCUMENT, KIND_DOCUMENT_REF);
    var reader := new Reader(o.payload);
    var vector: DocVector;
    if o.kind == KIND_DOCUMENT_REF {
      var id :- reader.Number(8);
      vector := AtLocation(id);
    } else {
      var d :- reader.Number(4);
      var v :- reader.Floats(d, o.precision, c);
      vector := Inline(v);
    }
    var m :- reader.Number(4);
    var metadata :- reader.Take(m);
    if reader.bytes != [] {
      return Failure(TrailingBytes);
    }
    r := Success(Value(Document(vector, metadata)));
  }
}
