/** A number below 256 survives the trip through an octet. */
module Octets {

  lemma NumberThroughByte(n: nat)
    requires n < 256
    ensures (n as bv8) as nat == n
  {
    assert n % 256 == n;
  }
}

/** Little-endian numbers as byte strings, and reads that split a string. */
module Bytes {
  import opened Wrappers
  import opened Crc32
  import Octets

  /** What a value can be refused for. */
  datatype Error =
    | TruncatedHeader
    | UnknownPrecision
    | UnsupportedVersion
    | WrongKind
    | LengthMismatch
    | ChecksumMismatch
    | TruncatedPayload
    | TrailingBytes

  function Power256(n: nat): (p: nat)
    ensures p > 0
  {
    if n == 0 then 1 else 256 * Power256(n - 1)
  }

  function Value(b: Byte): (n: nat)
    ensures n < 256
  {
    NumberOfByte(b);
    b as nat
  }

  function ByteOf(n: nat): Byte
    requires n < 256
  {
    n as Byte
  }

  /** `to_le_bytes` of a width-byte number. */
  function Le(n: nat, width: nat): (r: seq<Byte>)
    ensures |r| == width
  {
    if width == 0 then [] else [ByteOf(n % 256)] + Le(n / 256, width - 1)
  }

  /** `from_le_bytes`. */
  function FromLe(bytes: seq<Byte>): nat {
    if bytes == [] then 0 else Value(bytes[0]) + 256 * FromLe(bytes[1..])
  }

  lemma ByteOfNumber(n: nat)
    requires n < 256
    ensures Value(ByteOf(n)) == n
  {
    Octets.NumberThroughByte(n);
  }

  lemma NumberOfByte(b: Byte)
    ensures b as nat < 256 && (b as nat) as Byte == b
  {
  }

  lemma ValueOfByte(b: Byte)
    ensures ByteOf(Value(b)) == b
  {
    NumberOfByte(b);
  }

  lemma LowByte(b: nat, m: nat)
    requires b < 256
    ensures (b + 256 * m) % 256 == b && (b + 256 * m) / 256 == m
  {
  }

  lemma {:induction false} FromLeOfLe(n: nat, width: nat)
    requires n < Power256(width)
    ensures FromLe(Le(n, width)) == n
  {
    hide ByteOf, Value;
    if width > 0 {
      ByteOfNumber(n % 256);
      FromLeOfLe(n / 256, width - 1);
    }
  }

  lemma {:induction false} LeOfFromLe(bytes: seq<Byte>)
    ensures FromLe(bytes) < Power256(|bytes|)
    ensures Le(FromLe(bytes), |bytes|) == bytes
  {
    hide ByteOf, Value;
    if bytes != [] {
      ValueOfByte(bytes[0]);
      LeOfFromLe(bytes[1..]);
      LowByte(Value(bytes[0]), FromLe(bytes[1..]));
      assert bytes == [bytes[0]] + bytes[1..];
    }
  }

  /** `Reader::bytes`: the next n bytes and the rest. */
  function Split(bytes: seq<Byte>, n: nat): Result<(seq<Byte>, seq<Byte>), Error> {
    if n > |bytes| then Failure(TruncatedPayload) else Success((bytes[..n], bytes[n..]))
  }

  /** A width-byte number and the rest. */
  function ReadNumber(bytes: seq<Byte>, width: nat): Result<(nat, seq<Byte>), Error> {
    var (head, rest) :- Split(bytes, width);
    Success((FromLe(head), rest))
  }

  /** n numbers of one width, one after another. */
  function Numbers(v: seq<nat>, width: nat): (r: seq<Byte>)
    ensures |r| == |v| * width
  {
    if v == [] then [] else Le(v[0], width) + Numbers(v[1..], width)
  }

  lemma OneMore(n: nat, width: nat)
    requires n > 0
    ensures n * width == width + (n - 1) * width
  {
  }

  function FromNumbers(bytes: seq<Byte>, n: nat, width: nat): (v: seq<nat>)
    requires |bytes| == n * width
    ensures |v| == n
    decreases n
  {
    if n == 0 then []
    else
      OneMore(n, width);
      [FromLe(bytes[..width])] + FromNumbers(bytes[width..], n - 1, width)
  }

  function ReadNumbers(bytes: seq<Byte>, n: nat, width: nat): Result<(seq<nat>, seq<Byte>), Error>
  {
    var (head, rest) :- Split(bytes, n * width);
    Success((FromNumbers(head, n, width), rest))
  }

  ghost predicate Fit(v: seq<nat>, width: nat) {
    forall i | 0 <= i < |v| :: v[i] < Power256(width)
  }

  // ----- reads undo writes

  lemma ReadNumberOfLe(n: nat, width: nat, rest: seq<Byte>)
    requires n < Power256(width)
    ensures ReadNumber(Le(n, width) + rest, width) == Success((n, rest))
  {
    hide Le, FromLe, Power256;
    FromLeOfLe(n, width);
    assert (Le(n, width) + rest)[..width] == Le(n, width);
    assert (Le(n, width) + rest)[width..] == rest;
  }

  lemma {:induction false} FromNumbersOfNumbers(v: seq<nat>, width: nat)
    requires Fit(v, width)
    ensures FromNumbers(Numbers(v, width), |v|, width) == v
  {
    hide Le, FromLe, Power256;
    if v != [] {
      var bytes := Numbers(v, width);
      FromNumbersOfNumbers(v[1..], width);
      FromLeOfLe(v[0], width);
      assert bytes[..width] == Le(v[0], width) && bytes[width..] == Numbers(v[1..], width);
    }
  }

  lemma ReadNumbersOfNumbers(v: seq<nat>, width: nat, rest: seq<Byte>)
    requires Fit(v, width)
    ensures ReadNumbers(Numbers(v, width) + rest, |v|, width) == Success((v, rest))
  {
    hide Numbers, FromNumbers, Fit;
    var bytes := Numbers(v, width) + rest;
    FromNumbersOfNumbers(v, width);
    assert bytes[..|v| * width] == Numbers(v, width) && bytes[|v| * width..] == rest;
  }

  // ----- writes undo reads

  lemma LeOfReadNumber(bytes: seq<Byte>, width: nat)
    ensures var r := ReadNumber(bytes, width);
      if r.Success? then r.value.0 < Power256(width) && bytes == Le(r.value.0, width) + r.value.1
      else r.error == TruncatedPayload && |bytes| < width
  {
    hide Le, FromLe, Power256;
    if width <= |bytes| {
      LeOfFromLe(bytes[..width]);
    }
  }

  lemma {:induction false} NumbersOfFromNumbers(bytes: seq<Byte>, n: nat, width: nat)
    requires |bytes| == n * width
    ensures var v := FromNumbers(bytes, n, width); Fit(v, width) && Numbers(v, width) == bytes
    decreases n
  {
    hide Le, FromLe, Power256;
    if n > 0 {
      OneMore(n, width);
      LeOfFromLe(bytes[..width]);
      NumbersOfFromNumbers(bytes[width..], n - 1, width);
      assert bytes == bytes[..width] + bytes[width..];
    }
  }

  lemma NumbersOfReadNumbers(bytes: seq<Byte>, n: nat, width: nat)
    ensures var r := ReadNumbers(bytes, n, width);
      if r.Success? then
        |r.value.0| == n && Fit(r.value.0, width) && bytes == Numbers(r.value.0, width) + r.value.1
      else r.error == TruncatedPayload && |bytes| < n * width
  {
    hide Numbers, FromNumbers, Fit;
    if n * width <= |bytes| {
      NumbersOfFromNumbers(bytes[..n * width], n, width);
    }
  }
}
