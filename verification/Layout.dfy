/** Where the bytes of a record are: the offsets, the byte order and the checksum that
    another reader of the format relies on. */
module Layout {
  import opened Wrappers
  import opened Crc32
  import opened Bytes
  import opened Codec

  // ----- numbers

  /** Byte i of a little-endian number is its i-th digit to base 256. */
  lemma {:induction false} LeDigit(n: nat, width: nat, i: nat)
    requires i < width
    ensures Bytes.Value(Le(n, width)[i]) == n / Power256(i) % 256
  {
    hide ByteOf, Bytes.Value;
    ByteOfNumber(n % 256);
    if i > 0 {
      LeDigit(n / 256, width - 1, i - 1);
      DividedTwice(n, Power256(i - 1));
    }
  }

  lemma DividedTwice(n: nat, p: nat)
    requires p > 0
    ensures n / 256 / p == n / (256 * p)
  {
    var (q, r) := (n / 256, n % 256);
    var (s, t) := (q / p, q % p);
    assert n == 256 * q + r && q == p * s + t;
    assert 256 * (p * s) == 256 * p * s;
    assert n == 256 * p * s + (256 * t + r);
    assert 256 * t + r < 256 * p by { assert t <= p - 1; }
    QuotientIs(n, 256 * p, s, 256 * t + r);
  }

  lemma QuotientIs(n: nat, d: nat, q: nat, r: nat)
    requires 0 < d && n == d * q + r && r < d
    ensures n / d == q
  {
    var q', r' := n / d, n % d;
    SameMultiple(d, q, r, q', r');
  }

  lemma SameMultiple(d: nat, q: nat, r: nat, q': nat, r': nat)
    requires d * q + r == d * q' + r' && r < d && r' < d
    ensures q == q'
  {
    if q > q' {
      OneMoreAtLeast(d, q, q', q - q');
    } else if q < q' {
      OneMoreAtLeast(d, q', q, q' - q);
    }
  }

  lemma OneMoreAtLeast(d: nat, q: nat, q': nat, k: nat)
    requires q == q' + k && k >= 1
    ensures d * q >= d * q' + d
  {
    Distributes(d, q', k);
    AtLeastItself(d, k);
  }

  lemma Distributes(d: nat, x: nat, y: nat)
    ensures d * (x + y) == d * x + d * y
  {
  }

  lemma AtLeastItself(d: nat, k: nat)
    requires k >= 1
    ensures d * k >= d
  {
  }

  /** The i-th of a run of numbers. */
  lemma {:induction false} NumberAt(v: seq<nat>, width: nat, i: nat)
    requires i < |v|
    ensures width * i + width <= |Numbers(v, width)|
    ensures Numbers(v, width)[width * i..width * i + width] == Le(v[i], width)
  {
    hide Le;
    var (first, rest) := (Le(v[0], width), Numbers(v[1..], width));
    if i == 0 {
      assert width * 0 == 0;
      assert (first + rest)[..width] == first;
    } else {
      NumberAt(v[1..], width, i - 1);
      assert width * i == width + width * (i - 1);
      Beyond(first, rest, width * (i - 1), width * (i - 1) + width);
    }
  }

  lemma Beyond<T>(a: seq<T>, b: seq<T>, i: nat, j: nat)
    requires i <= j <= |b|
    ensures (a + b)[|a| + i..|a| + j] == b[i..j]
  {
  }

  // ----- one field after another

  /** The location payload: id, dimension, address, counter unless plain, write count,
      surprise, number of neighbours, neighbours. */
  lemma PayloadLayout(loc: Location, plain: bool, p: Precision, c: Casts)
    requires |loc.counter| == |loc.address|
    ensures var (b, n) := (LocationPayload(loc, plain, p, c), |VectorBytes(loc.address, p, c)|);
      var t := 12 + n + if plain then 0 else n;
      && |b| == t + 20 + |Numbers(loc.neighbors, 8)|
      && b[0..8] == Le(loc.id, 8) && b[8..12] == Le(|loc.address|, 4)
      && b[12..12 + n] == VectorBytes(loc.address, p, c)
      && (!plain ==> b[12 + n..t] == VectorBytes(loc.counter, p, c))
      && b[t..t + 8] == Le(loc.writeCount, 8) && b[t + 8..t + 16] == Le(loc.surprise, 8)
      && b[t + 16..t + 20] == Le(|loc.neighbors|, 4) && b[t + 20..] == Numbers(loc.neighbors, 8)
  {
    hide Le, Numbers, VectorBytes;
    VectorSize(loc.address, p, c);
    VectorSize(loc.counter, p, c);
    var counter: seq<Byte> := if plain then [] else VectorBytes(loc.counter, p, c);
    SevenFields(Le(loc.id, 8), Le(|loc.address|, 4), VectorBytes(loc.address, p, c), counter, Le(loc.writeCount, 8),
                Le(loc.surprise, 8), Le(|loc.neighbors|, 4), Numbers(loc.neighbors, 8));
  }

  lemma VectorSize(v: seq<nat>, p: Precision, c: Casts)
    ensures |VectorBytes(v, p, c)| == |v| * if p.F64? then 8 else 4
  {
    hide Numbers;
  }

  lemma SevenFields(a: seq<Byte>, b: seq<Byte>, c: seq<Byte>, d: seq<Byte>, e: seq<Byte>, f: seq<Byte>, g: seq<Byte>, h: seq<Byte>)
    requires |a| == 8 && |b| == 4 && |e| == 8 && |f| == 8 && |g| == 4
    ensures var s := a + (b + (c + (d + (e + (f + (g + h))))));
      var t := 12 + |c| + |d|;
      && |s| == t + 20 + |h| && s[0..8] == a && s[8..12] == b && s[12..12 + |c|] == c && s[12 + |c|..t] == d
      && s[t..t + 8] == e && s[t + 8..t + 16] == f && s[t + 16..t + 20] == g && s[t + 20..] == h
  {
    var tail := e + (f + (g + h));
    TailFields(e, f, g, h);
    var s := a + (b + (c + (d + tail)));
    var head := a + b + c + d;
    assert s == head + tail;
    assert s[12 + |c| + |d|..] == tail;
  }

  lemma TailFields(e: seq<Byte>, f: seq<Byte>, g: seq<Byte>, h: seq<Byte>)
    requires |e| == 8 && |f| == 8 && |g| == 4
    ensures var s := e + (f + (g + h));
      |s| == 20 + |h| && s[..8] == e && s[8..16] == f && s[16..20] == g && s[20..] == h
  {
  }

  /** The header: magic, version, kind, precision, a zero, the payload's length, its
      checksum; then the payload. */
  lemma HeaderLayout(kind: Byte, p: Precision, payload: seq<Byte>)
    ensures var e := Envelope(kind, p, payload);
      && e[0..4] == [0xFF, 0xFE, 0x48, 0x44] && e[4] == 1 && e[5] == kind && e[6] == (if p.F64? then 0 else 1) && e[7] == 0
      && e[8..12] == Le(|payload|, 4) && e[16..] == payload
      && LittleEndian(e[12], e[13], e[14], e[15]) == Crc(payload)
  {
    hide Le, Crc, Octet;
    EnvelopeAt(kind, p, payload);
    ReservedIsZero(kind, p, payload);
    var e := Envelope(kind, p, payload);
    assert e[12..16] == CrcBytes(Crc(payload));
    assert e[12] == e[12..16][0] && e[13] == e[12..16][1] && e[14] == e[12..16][2] && e[15] == e[12..16][3];
    CrcDigits(Crc(payload));
  }

  /** Byte 5 says what a record holds: a location with two vectors or with one, a document
      with its vector or with a reference. */
  lemma RecordKinds(loc: Location, doc: Document, p: Precision, c: Casts)
    ensures |EncodedLocation(loc, p, c)| > 5 && |EncodedDocument(doc, p, c)| > 5
    ensures EncodedLocation(loc, p, c)[5] == if Plain(loc) then 3 else 1
    ensures EncodedDocument(doc, p, c)[5] == if doc.vector.Inline? then 2 else 4
  {
    hide Envelope, LocationPayload, DocumentPayload, Plain;
    EnvelopeAt(LocationKind(Plain(loc)), p, LocationPayload(loc, Plain(loc), p, c));
    EnvelopeAt(DocumentKind(doc), p, DocumentPayload(doc, p, c));
  }

  /** The 32-bit word of four bytes, the lowest first. */
  function LittleEndian(a: Byte, b: Byte, c: Byte, d: Byte): bv32 {
    (a as bv32) | ((b as bv32) << 8) | ((c as bv32) << 16) | ((d as bv32) << 24)
  }

  lemma CrcDigits(crc: bv32)
    ensures LittleEndian(Octet(crc, 0), Octet(crc, 1), Octet(crc, 2), Octet(crc, 3)) == crc
  {
  }

  // ----- what a value is told by

  /** A value that starts with the magic is an envelope: cut short it is refused, never taken
      for a legacy value. Any other is. */
  lemma MagicTells(bytes: seq<Byte>)
    ensures (|bytes| < 4 || bytes[0..4] != [0xFF, 0xFE, 0x48, 0x44]) ==> IsEnveloped(bytes) == Success(false)
    ensures 4 <= |bytes| < 16 && bytes[0..4] == [0xFF, 0xFE, 0x48, 0x44] ==> IsEnveloped(bytes) == Failure(TruncatedHeader)
    ensures |bytes| >= 16 && bytes[0..4] == [0xFF, 0xFE, 0x48, 0x44] ==>
              IsEnveloped(bytes) == if bytes[6] == 0 || bytes[6] == 1 then Success(true) else Failure(UnknownPrecision)
  {
  }

  /** The patterns of not-a-number in section 3.4 of IEEE 754-2019: the exponent all ones,
      the fraction not zero. */
  lemma NaNPatterns(sign: nat, exponent: nat, fraction: nat)
    requires sign < 2 && exponent < 0x800 && fraction < 0x10_0000_0000_0000
    ensures var x := sign * 0x8000_0000_0000_0000 + exponent * 0x10_0000_0000_0000 + fraction;
      && (IsNaN(x) <==> exponent == 0x7FF && fraction != 0)
      && (IsZero(x) <==> exponent == 0 && fraction == 0)
  {
    var low := exponent * 0x10_0000_0000_0000 + fraction;
    var x := sign * 0x8000_0000_0000_0000 + low;
    assert x % 0x8000_0000_0000_0000 == low;
  }

  // ----- worked values

  /** One more byte. */
  lemma NextByte(data: seq<Byte>, n: nat, b: Byte, c: bv32, d: bv32)
    requires n < |data| && data[n] == b && Register(0xFFFFFFFF, data[..n]) == c && ByteStep(c, b) == d
    ensures Register(0xFFFFFFFF, data[..n + 1]) == d
  {
    hide ByteStep;
    assert data[..n + 1][..n] == data[..n];
  }

  lemma NoByte(data: seq<Byte>)
    ensures Register(0xFFFFFFFF, data[..0]) == 0xFFFFFFFF
  {
  }

  const DIGITS: seq<Byte> := [0x31, 0x32, 0x33, 0x34, 0x35, 0x36, 0x37, 0x38, 0x39]

  lemma Digits2()
    requires Register(0xFFFFFFFF, DIGITS[..0]) == 0xFFFFFFFF
    ensures Register(0xFFFFFFFF, DIGITS[..2]) == 0xB0ACBB32
  {
    hide Register;
    NextByte(DIGITS, 0, 0x31, 0xFFFFFFFF, 0x7C231048);
    NextByte(DIGITS, 1, 0x32, 0x7C231048, 0xB0ACBB32);
  }

  lemma Digits4()
    requires Register(0xFFFFFFFF, DIGITS[..2]) == 0xB0ACBB32
    ensures Register(0xFFFFFFFF, DIGITS[..4]) == 0x641C1F5C
  {
    hide Register;
    NextByte(DIGITS, 2, 0x33, 0xB0ACBB32, 0x77B79C2D);
    NextByte(DIGITS, 3, 0x34, 0x77B79C2D, 0x641C1F5C);
  }

  lemma Digits6()
    requires Register(0xFFFFFFFF, DIGITS[..4]) == 0x641C1F5C
    ensures Register(0xFFFFFFFF, DIGITS[..6]) == 0xF68D2C9E
  {
    hide Register;
    NextByte(DIGITS, 4, 0x35, 0x641C1F5C, 0x340AC5E3);
    NextByte(DIGITS, 5, 0x36, 0x340AC5E3, 0xF68D2C9E);
  }

  lemma Digits8()
    requires Register(0xFFFFFFFF, DIGITS[..6]) == 0xF68D2C9E
    ensures Register(0xFFFFFFFF, DIGITS[..8]) == 0x651F2550
  {
    hide Register;
    NextByte(DIGITS, 6, 0x37, 0xF68D2C9E, 0xAFFC9660);
    NextByte(DIGITS, 7, 0x38, 0xAFFC9660, 0x651F2550);
  }

  lemma Digits9()
    requires Register(0xFFFFFFFF, DIGITS[..8]) == 0x651F2550
    ensures Register(0xFFFFFFFF, DIGITS[..9]) == 0x340BC6D9
  {
    hide Register;
    NextByte(DIGITS, 8, 0x39, 0x651F2550, 0x340BC6D9);
  }

  /** The check value of this CRC: of the digits 1 to 9. */
  lemma CheckValue()
    ensures Crc(DIGITS) == 0xCBF43926
  {
    hide Register;
    NoByte(DIGITS);
    Digits2();
    Digits4();
    Digits6();
    Digits8();
    Digits9();
    assert DIGITS[..9] == DIGITS;
  }

  // The record of a document that refers to location 42, its metadata {"i":1}.

  const METADATA: seq<Byte> := [0x7B, 0x22, 0x69, 0x22, 0x3A, 0x31, 0x7D]
  const REFERENCE: Document := Document(AtLocation(42), METADATA)
  const REFERRING: seq<Byte> := [
    0x2A, 0x00, 0x00, 0x00, 0x00, 0x00, 0x00, 0x00, 0x07, 0x00, 0x00, 0x00, 0x7B, 0x22, 0x69, 0x22,
    0x3A, 0x31, 0x7D]

  lemma Referring2()
    requires Register(0xFFFFFFFF, REFERRING[..0]) == 0xFFFFFFFF
    ensures Register(0xFFFFFFFF, REFERRING[..2]) == 0xD14D2128
  {
    hide Register;
    NextByte(REFERRING, 0, 0x2A, 0xFFFFFFFF, 0xF646D9A4);
    NextByte(REFERRING, 1, 0x00, 0xF646D9A4, 0xD14D2128);
  }

  lemma Referring4()
    requires Register(0xFFFFFFFF, REFERRING[..2]) == 0xD14D2128
    ensures Register(0xFFFFFFFF, REFERRING[..4]) == 0x11346FB9
  {
    hide Register;
    NextByte(REFERRING, 2, 0x00, 0xD14D2128, 0x3564E5DB);
    NextByte(REFERRING, 3, 0x00, 0x3564E5DB, 0x11346FB9);
  }

  lemma Referring6()
    requires Register(0xFFFFFFFF, REFERRING[..4]) == 0x11346FB9
    ensures Register(0xFFFFFFFF, REFERRING[..6]) == 0xE80A780C
  {
    hide Register;
    NextByte(REFERRING, 4, 0x00, 0x11346FB9, 0xB2AC3F47);
    NextByte(REFERRING, 5, 0x00, 0xB2AC3F47, 0xE80A780C);
  }

  lemma Referring8()
    requires Register(0xFFFFFFFF, REFERRING[..6]) == 0xE80A780C
    ensures Register(0xFFFFFFFF, REFERRING[..8]) == 0xF26B5E08
  {
    hide Register;
    NextByte(REFERRING, 6, 0x00, 0xE80A780C, 0x095E4653);
    NextByte(REFERRING, 7, 0x00, 0x095E4653, 0xF26B5E08);
  }

  lemma Referring10()
    requires Register(0xFFFFFFFF, REFERRING[..8]) == 0xF26B5E08
    ensures Register(0xFFFFFFFF, REFERRING[..10]) == 0x0B4B9257
  {
    hide Register;
    NextByte(REFERRING, 8, 0x07, 0xF26B5E08, 0x904D76CF);
    NextByte(REFERRING, 9, 0x00, 0x904D76CF, 0x0B4B9257);
  }

  lemma Referring12()
    requires Register(0xFFFFFFFF, REFERRING[..10]) == 0x0B4B9257
    ensures Register(0xFFFFFFFF, REFERRING[..12]) == 0xEBFB32B0
  {
    hide Register;
    NextByte(REFERRING, 10, 0x00, 0x0B4B9257, 0xF5048FC5);
    NextByte(REFERRING, 11, 0x00, 0xF5048FC5, 0xEBFB32B0);
  }

  lemma Referring14()
    requires Register(0xFFFFFFFF, REFERRING[..12]) == 0xEBFB32B0
    ensures Register(0xFFFFFFFF, REFERRING[..14]) == 0x35B9F51A
  {
    hide Register;
    NextByte(REFERRING, 12, 0x7B, 0xEBFB32B0, 0x0C5DE00A);
    NextByte(REFERRING, 13, 0x22, 0x0C5DE00A, 0x35B9F51A);
  }

  lemma Referring16()
    requires Register(0xFFFFFFFF, REFERRING[..14]) == 0x35B9F51A
    ensures Register(0xFFFFFFFF, REFERRING[..16]) == 0x1CA558FB
  {
    hide Register;
    NextByte(REFERRING, 14, 0x69, 0x35B9F51A, 0xC9399973);
    NextByte(REFERRING, 15, 0x22, 0xC9399973, 0x1CA558FB);
  }

  lemma Referring18()
    requires Register(0xFFFFFFFF, REFERRING[..16]) == 0x1CA558FB
    ensures Register(0xFFFFFFFF, REFERRING[..18]) == 0xE68F2356
  {
    hide Register;
    NextByte(REFERRING, 16, 0x3A, 0x1CA558FB, 0xEC7F577E);
    NextByte(REFERRING, 17, 0x31, 0xEC7F577E, 0xE68F2356);
  }

  lemma Referring19()
    requires Register(0xFFFFFFFF, REFERRING[..18]) == 0xE68F2356
    ensures Register(0xFFFFFFFF, REFERRING[..19]) == 0xAC5A7663
  {
    hide Register;
    NextByte(REFERRING, 18, 0x7D, 0xE68F2356, 0xAC5A7663);
  }

  lemma ReferringCrc()
    ensures Crc(REFERRING) == 0x53A5899C
  {
    hide Register;
    NoByte(REFERRING);
    Referring2();
    Referring4();
    Referring6();
    Referring8();
    Referring10();
    Referring12();
    Referring14();
    Referring16();
    Referring18();
    Referring19();
    assert REFERRING[..19] == REFERRING;
  }

  /** Every byte of that record, as other programs write and read it. */
  lemma ReferenceRecord(c: Casts)
    ensures EncodedDocument(REFERENCE, F64, c) ==
      [0xFF, 0xFE, 0x48, 0x44, 0x01, 0x04, 0x00, 0x00, 0x13, 0x00, 0x00, 0x00, 0x9C, 0x89, 0xA5, 0x53]
      + REFERRING
  {
    hide Header, DocumentPayload;
    ReferringPayload(F64, c);
    ReferringHeader();
  }

  lemma ReferringHeader()
    ensures Header(KIND_DOCUMENT_REF, F64, REFERRING) ==
      [0xFF, 0xFE, 0x48, 0x44, 0x01, 0x04, 0x00, 0x00, 0x13, 0x00, 0x00, 0x00, 0x9C, 0x89, 0xA5, 0x53]
  {
    hide Crc, Le, CrcBytes;
    ReferringCrc();
    ReferringCrcBytes();
    Smallest(|REFERRING|);
  }

  lemma ReferringCrcBytes()
    ensures CrcBytes(0x53A5899C) == [0x9C, 0x89, 0xA5, 0x53]
  {
  }

  lemma ReferringPayload(p: Precision, c: Casts)
    ensures DocumentPayload(REFERENCE, p, c) == REFERRING
  {
    FortyTwo();
    Seven();
    hide Le;
  }

  lemma FortyTwo()
    ensures Le(42, 8) == [42, 0, 0, 0, 0, 0, 0, 0]
  {
    assert Le(0, 4) == [0, 0, 0, 0];
    assert Le(0, 7) == [0, 0, 0] + Le(0, 4);
  }

  lemma Seven()
    ensures Le(7, 4) == [7, 0, 0, 0]
  {
    assert Le(0, 3) == [0, 0, 0];
  }

  lemma Smallest(n: nat)
    requires n == 19
    ensures Le(n, 4) == [19, 0, 0, 0]
  {
    assert n % 256 == 19 && n / 256 == 0;
    assert Le(0, 3) == [0, 0, 0];
  }
}
