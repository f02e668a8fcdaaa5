/** The checksum of the record envelope: CRC-32 as in section 8 of RFC 1952,
    one bit at a time. */
module Crc32 {

  type Byte = bv8

  const POLYNOMIAL: bv32 := 0xEDB88320

  /** Exclusive or, by name: the proofs below use only its laws. */
  function Xor(a: bv32, b: bv32): bv32 {
    a ^ b
  }

  /** What the low bit feeds back. */
  function Feedback(c: bv32): bv32 {
    if c & 1 == 1 then POLYNOMIAL else 0
  }

  function Half(c: bv32): bv32 {
    c >> 1
  }

  /** One step of the reflected shift register. */
  function BitStep(c: bv32): bv32 {
    Xor(Half(c), Feedback(c))
  }

  function Steps(c: bv32, n: nat): bv32 {
    if n == 0 then c else BitStep(Steps(c, n - 1))
  }

  function Bits(b: Byte): bv32 {
    b as bv32
  }

  /** One byte into the register. */
  function ByteStep(c: bv32, b: Byte): bv32 {
    Steps(Xor(c, Bits(b)), 8)
  }

  function Register(c: bv32, bytes: seq<Byte>): bv32 {
    if bytes == [] then c else ByteStep(Register(c, bytes[..|bytes| - 1]), bytes[|bytes| - 1])
  }

  function Crc(bytes: seq<Byte>): bv32 {
    Xor(Register(0xFFFFFFFF, bytes), 0xFFFFFFFF)
  }

  // ----- the laws of exclusive or

  lemma XorCancels(x: bv32, y: bv32, b: bv32)
    ensures Xor(x, b) == Xor(y, b) ==> x == y
    ensures Xor(b, x) == Xor(b, y) ==> x == y
  {
  }

  lemma XorZero(c: bv32)
    ensures Xor(c, 0) == c && Xor(0, c) == c && Xor(c, c) == 0
  {
  }

  lemma XorAssociates(a: bv32, b: bv32, c: bv32)
    ensures Xor(Xor(a, b), c) == Xor(a, Xor(b, c))
  {
  }

  lemma XorCommutes(a: bv32, b: bv32)
    ensures Xor(a, b) == Xor(b, a)
  {
  }

  lemma XorRearranges(a: bv32, b: bv32, p: bv32, q: bv32)
    ensures Xor(Xor(a, b), Xor(p, q)) == Xor(Xor(a, p), Xor(b, q))
  {
    hide Xor;
    XorAssociates(a, b, Xor(p, q));
    XorAssociates(b, p, q);
    XorCommutes(b, p);
    XorAssociates(p, b, q);
    XorAssociates(a, p, Xor(b, q));
  }

  // ----- the register loses nothing and is linear

  lemma BitStepInjective(c: bv32, d: bv32)
    requires BitStep(c) == BitStep(d)
    ensures c == d
  {
  }

  lemma {:induction false} StepsInjective(c: bv32, d: bv32, n: nat)
    requires Steps(c, n) == Steps(d, n)
    ensures c == d
  {
    if n > 0 {
      hide BitStep;
      BitStepInjective(Steps(c, n - 1), Steps(d, n - 1));
      StepsInjective(c, d, n - 1);
    }
  }

  lemma {:induction false} RegisterInjective(c: bv32, d: bv32, bytes: seq<Byte>)
    requires Register(c, bytes) == Register(d, bytes)
    ensures c == d
  {
    if bytes != [] {
      hide Steps, Xor, Bits;
      var b := bytes[|bytes| - 1];
      var x, y := Register(c, bytes[..|bytes| - 1]), Register(d, bytes[..|bytes| - 1]);
      StepsInjective(Xor(x, Bits(b)), Xor(y, Bits(b)), 8);
      XorCancels(x, y, Bits(b));
      RegisterInjective(c, d, bytes[..|bytes| - 1]);
    }
  }

  lemma ShiftsApart(c: bv32, d: bv32)
    ensures (c ^ d) >> 1 == (c >> 1) ^ (d >> 1)
  {
  }

  lemma HalfLinear(c: bv32, d: bv32)
    ensures Half(Xor(c, d)) == Xor(Half(c), Half(d))
  {
    ShiftsApart(c, d);
  }

  lemma LowBitLinear(c: bv32, d: bv32)
    ensures (Xor(c, d) & 1 == 1) <==> ((c & 1 == 1) != (d & 1 == 1))
  {
  }

  lemma FeedbackLinear(c: bv32, d: bv32)
    ensures Feedback(Xor(c, d)) == Xor(Feedback(c), Feedback(d))
  {
    hide Xor;
    LowBitLinear(c, d);
    XorZero(POLYNOMIAL);
    XorZero(0);
  }

  lemma BitStepLinear(c: bv32, d: bv32)
    ensures BitStep(Xor(c, d)) == Xor(BitStep(c), BitStep(d))
  {
    hide Xor, Feedback, Half;
    HalfLinear(c, d);
    FeedbackLinear(c, d);
    XorRearranges(Half(c), Half(d), Feedback(c), Feedback(d));
  }

  lemma {:induction false} StepsLinear(c: bv32, d: bv32, n: nat)
    ensures Steps(Xor(c, d), n) == Xor(Steps(c, n), Steps(d, n))
  {
    if n > 0 {
      hide BitStep, Xor;
      StepsLinear(c, d, n - 1);
      BitStepLinear(Steps(c, n - 1), Steps(d, n - 1));
    }
  }

  lemma {:induction false} StepsAdd(c: bv32, n: nat, m: nat)
    ensures Steps(c, n + m) == Steps(Steps(c, n), m)
  {
    if m > 0 {
      hide BitStep;
      StepsAdd(c, n, m - 1);
    }
  }

  lemma {:induction false} RegisterAppend(c: bv32, a: seq<Byte>, b: seq<Byte>)
    ensures Register(c, a + b) == Register(Register(c, a), b)
  {
    if b == [] {
      assert a + b == a;
    } else {
      hide ByteStep;
      assert (a + b)[..|a + b| - 1] == a + b[..|b| - 1];
      RegisterAppend(c, a, b[..|b| - 1]);
    }
  }

  // ----- four bytes at once

  /** Byte number i of a little-endian word. */
  function Placed(b: Byte, i: nat): bv32
    requires i < 4
  {
    if i == 0 then Bits(b) else Placed(b, i - 1) << 8
  }

  /** At most four bytes as a little-endian word. */
  function Word(w: seq<Byte>): bv32
    requires |w| <= 4
  {
    if w == [] then 0 else Xor(Word(w[..|w| - 1]), Placed(w[|w| - 1], |w| - 1))
  }

  /** A step on an even register only halves it. */
  lemma EvenStep(y: bv32)
    requires y & 1 == 0
    ensures BitStep(y) == Half(y)
  {
    hide Xor, Half;
    XorZero(Half(y));
  }

  /** The low n bits of y are zero. */
  predicate Clear(y: bv32, n: nat)
    requires n <= 8
  {
    match n
    case 0 => true
    case 1 => y & 0x01 == 0
    case 2 => y & 0x03 == 0
    case 3 => y & 0x07 == 0
    case 4 => y & 0x0F == 0
    case 5 => y & 0x1F == 0
    case 6 => y & 0x3F == 0
    case 7 => y & 0x7F == 0
    case _ => y & 0xFF == 0
  }

  lemma HalfClear(y: bv32, n: nat)
    requires 0 < n <= 8 && Clear(y, n)
    ensures y & 1 == 0 && Clear(Half(y), n - 1)
  {
  }

  function HalfTimes(y: bv32, n: nat): bv32 {
    if n == 0 then y else HalfTimes(Half(y), n - 1)
  }

  /** n steps on a register with its low n bits clear only shift it. */
  lemma {:induction false} ClearSteps(y: bv32, n: nat)
    requires n <= 8 && Clear(y, n)
    ensures Steps(y, n) == HalfTimes(y, n)
  {
    if n == 0 {
      NoSteps(y);
    } else {
      hide Half, BitStep, Xor;
      HalfClear(y, n);
      EvenStep(y);
      ClearSteps(Half(y), n - 1);
      StepsAdd(y, 1, n - 1);
      OneStep(y);
    }
  }

  lemma OneStep(y: bv32)
    ensures Steps(y, 1) == BitStep(y)
  {
    hide BitStep;
    NoSteps(y);
  }

  lemma EightHalves(y: bv32)
    ensures HalfTimes(y, 8) == y >> 8
  {
    hide Half;
    var a := Half(y);
    var b := Half(a);
    var c := Half(b);
    var d := Half(c);
    var e := Half(d);
    var f := Half(e);
    var g := Half(f);
    var h := Half(g);
    assert HalfTimes(h, 0) == h;
    assert HalfTimes(g, 1) == h;
    assert HalfTimes(f, 2) == h;
    assert HalfTimes(e, 3) == h;
    assert HalfTimes(d, 4) == h;
    assert HalfTimes(c, 5) == h;
    assert HalfTimes(b, 6) == h;
    assert HalfTimes(a, 7) == h;
    ShiftByHalves(y, a, b, c, d, e, f, g, h);
  }

  lemma ShiftByHalves(y: bv32, a: bv32, b: bv32, c: bv32, d: bv32, e: bv32, f: bv32, g: bv32, h: bv32)
    requires a == Half(y) && b == Half(a) && c == Half(b) && d == Half(c)
    requires e == Half(d) && f == Half(e) && g == Half(f) && h == Half(g)
    ensures h == y >> 8
  {
  }

  /** Eight steps on a register with nothing in its low byte only shift it. */
  lemma EightShifts(y: bv32)
    requires y & 0xFF == 0
    ensures Steps(y, 8) == y >> 8
  {
    hide Steps, HalfTimes;
    ClearSteps(y, 8);
    EightHalves(y);
  }

  lemma NoSteps(y: bv32)
    ensures Steps(y, 0) == y
  {
  }

  lemma ShiftedDown(x: bv32)
    ensures (x << 8) & 0xFF == 0
    ensures x & 0xFF000000 == 0 ==> (x << 8) >> 8 == x
  {
  }

  lemma PlacedSmall(b: Byte, i: nat)
    requires i < 3
    ensures Placed(b, i) & 0xFF000000 == 0
  {
    assert i == 2 ==> Placed(b, 2) == (Bits(b) << 8) << 8;
    assert i == 1 ==> Placed(b, 1) == Bits(b) << 8;
  }

  /** A placed byte reaches the low byte just when its turn comes. */
  lemma {:induction false} PlacedArrives(b: Byte, i: nat)
    requires i < 4
    ensures Steps(Placed(b, i), 8 * i) == Bits(b)
  {
    if i == 0 {
      NoSteps(Bits(b));
    } else {
      PlacedArrives(b, i - 1);
      PlacedStep(b, i);
      StepsAdd(Placed(b, i), 8, 8 * (i - 1));
    }
  }

  lemma PlacedStep(b: Byte, i: nat)
    requires 0 < i < 4
    ensures Steps(Placed(b, i), 8) == Placed(b, i - 1)
  {
    hide Steps, Bits;
    PlacedSmall(b, i - 1);
    ShiftedDown(Placed(b, i - 1));
    EightShifts(Placed(b, i));
  }

  /** Up to four bytes act on the register as one word. */
  lemma {:induction false} RegisterWord(c: bv32, w: seq<Byte>)
    requires |w| <= 4
    ensures Register(c, w) == Steps(Xor(c, Word(w)), 8 * |w|)
  {
    hide BitStep, Placed, Xor, Bits, Steps;
    if w == [] {
      XorZero(c);
      NoSteps(c);
    } else {
      var init, b, n := w[..|w| - 1], w[|w| - 1], |w| - 1;
      RegisterWord(c, init);
      PlacedArrives(b, n);
      StepsLinear(Xor(c, Word(init)), Placed(b, n), 8 * n);
      StepsAdd(Xor(Xor(c, Word(init)), Placed(b, n)), 8 * n, 8);
      XorAssociates(c, Word(init), Placed(b, n));
      assert 8 * n + 8 == 8 * |w|;
    }
  }

  /** x has nothing above its first n bytes. */
  predicate Fits(x: bv32, n: nat) {
    match n
    case 0 => x == 0
    case 1 => x & 0xFFFFFF00 == 0
    case 2 => x & 0xFFFF0000 == 0
    case 3 => x & 0xFF000000 == 0
    case _ => true
  }

  lemma PlacedIs0(b: Byte)
    ensures Placed(b, 0) == (b as bv32)
  {
  }

  lemma PlacedIs1(b: Byte)
    ensures Placed(b, 1) == (b as bv32) << 8
  {
    PlacedIs0(b);
  }

  lemma ShiftsAdd2(x: bv32)
    ensures (x << 8) << 8 == x << 16
  {
  }

  lemma PlacedIs2(b: Byte)
    ensures Placed(b, 2) == (b as bv32) << 16
  {
    PlacedIs1(b);
    ShiftsAdd2(b as bv32);
  }

  lemma ShiftsAdd3(x: bv32)
    ensures (x << 16) << 8 == x << 24
  {
  }

  lemma PlacedIs3(b: Byte)
    ensures Placed(b, 3) == (b as bv32) << 24
  {
    PlacedIs2(b);
    ShiftsAdd3(b as bv32);
  }

  lemma BitsFit0(x: bv32, b: bv8)
    requires Fits(x, 0)
    ensures Fits(Xor(x, (b as bv32)), 1)
  {
  }

  lemma PlacedFits0(x: bv32, b: Byte)
    requires Fits(x, 0)
    ensures Fits(Xor(x, Placed(b, 0)), 1)
  {
    hide Placed, Xor, Fits;
    PlacedIs0(b);
    BitsFit0(x, b);
  }

  lemma BitsFit1(x: bv32, b: bv8)
    requires Fits(x, 1)
    ensures Fits(Xor(x, (b as bv32) << 8), 2)
  {
  }

  lemma PlacedFits1(x: bv32, b: Byte)
    requires Fits(x, 1)
    ensures Fits(Xor(x, Placed(b, 1)), 2)
  {
    hide Placed, Xor, Fits;
    PlacedIs1(b);
    BitsFit1(x, b);
  }

  lemma BitsFit2(x: bv32, b: bv8)
    requires Fits(x, 2)
    ensures Fits(Xor(x, (b as bv32) << 16), 3)
  {
  }

  lemma PlacedFits2(x: bv32, b: Byte)
    requires Fits(x, 2)
    ensures Fits(Xor(x, Placed(b, 2)), 3)
  {
    hide Placed, Xor, Fits;
    PlacedIs2(b);
    BitsFit2(x, b);
  }

  lemma BitsAgree0(x: bv32, y: bv32, b: bv8, d: bv8)
    requires Fits(x, 0) && Fits(y, 0) && Xor(x, (b as bv32)) == Xor(y, (d as bv32))
    ensures x == y && b == d
  {
  }

  lemma WordsAgree0(x: bv32, y: bv32, b: Byte, d: Byte)
    requires Fits(x, 0) && Fits(y, 0) && Xor(x, Placed(b, 0)) == Xor(y, Placed(d, 0))
    ensures x == y && b == d
  {
    hide Placed, Xor, Fits;
    PlacedIs0(b);
    PlacedIs0(d);
    BitsAgree0(x, y, b, d);
  }

  lemma BitsAgree1(x: bv32, y: bv32, b: bv8, d: bv8)
    requires Fits(x, 1) && Fits(y, 1) && Xor(x, (b as bv32) << 8) == Xor(y, (d as bv32) << 8)
    ensures x == y && b == d
  {
  }

  lemma WordsAgree1(x: bv32, y: bv32, b: Byte, d: Byte)
    requires Fits(x, 1) && Fits(y, 1) && Xor(x, Placed(b, 1)) == Xor(y, Placed(d, 1))
    ensures x == y && b == d
  {
    hide Placed, Xor, Fits;
    PlacedIs1(b);
    PlacedIs1(d);
    BitsAgree1(x, y, b, d);
  }

  lemma BitsAgree2(x: bv32, y: bv32, b: bv8, d: bv8)
    requires Fits(x, 2) && Fits(y, 2) && Xor(x, (b as bv32) << 16) == Xor(y, (d as bv32) << 16)
    ensures x == y && b == d
  {
  }

  lemma WordsAgree2(x: bv32, y: bv32, b: Byte, d: Byte)
    requires Fits(x, 2) && Fits(y, 2) && Xor(x, Placed(b, 2)) == Xor(y, Placed(d, 2))
    ensures x == y && b == d
  {
    hide Placed, Xor, Fits;
    PlacedIs2(b);
    PlacedIs2(d);
    BitsAgree2(x, y, b, d);
  }

  lemma BitsAgree3(x: bv32, y: bv32, b: bv8, d: bv8)
    requires Fits(x, 3) && Fits(y, 3) && Xor(x, (b as bv32) << 24) == Xor(y, (d as bv32) << 24)
    ensures x == y && b == d
  {
  }

  lemma WordsAgree3(x: bv32, y: bv32, b: Byte, d: Byte)
    requires Fits(x, 3) && Fits(y, 3) && Xor(x, Placed(b, 3)) == Xor(y, Placed(d, 3))
    ensures x == y && b == d
  {
    hide Placed, Xor, Fits;
    PlacedIs3(b);
    PlacedIs3(d);
    BitsAgree3(x, y, b, d);
  }

  /** The last byte of a word, and the word before it, can be read off it. */
  lemma WordsAgree(x: bv32, y: bv32, b: Byte, d: Byte, i: nat)
    requires i < 4 && Fits(x, i) && Fits(y, i)
    requires Xor(x, Placed(b, i)) == Xor(y, Placed(d, i))
    ensures x == y && b == d
  {
    hide Xor, Placed, Fits;
    match i
    case 0 => WordsAgree0(x, y, b, d);
    case 1 => WordsAgree1(x, y, b, d);
    case 2 => WordsAgree2(x, y, b, d);
    case _ => WordsAgree3(x, y, b, d);
  }

  lemma PlacedFits(x: bv32, b: Byte, i: nat)
    requires i < 4 && Fits(x, i)
    ensures Fits(Xor(x, Placed(b, i)), i + 1)
  {
    if i == 3 {
      return;
    }
    hide Xor, Placed, Fits;
    match i
    case 0 => PlacedFits0(x, b);
    case 1 => PlacedFits1(x, b);
    case _ => PlacedFits2(x, b);
  }

  lemma {:induction false} WordFits(w: seq<Byte>)
    requires |w| <= 4
    ensures Fits(Word(w), |w|)
  {
    hide Placed, Xor, Bits, Fits;
    if w == [] {
      NothingFits();
    } else {
      WordFits(w[..|w| - 1]);
      PlacedFits(Word(w[..|w| - 1]), w[|w| - 1], |w| - 1);
    }
  }

  lemma NothingFits()
    ensures Fits(0, 0)
  {
  }

  lemma LastBytesAgree(v: seq<Byte>, w: seq<Byte>, n: nat)
    requires |v| == |w| == n + 1 <= 4 && Word(v) == Word(w)
    ensures Word(v[..n]) == Word(w[..n]) && v[n] == w[n]
  {
    hide Xor, Placed, Bits, Fits;
    WordFits(v[..n]);
    WordFits(w[..n]);
    WordsAgree(Word(v[..n]), Word(w[..n]), v[n], w[n], n);
  }

  /** Different words of the same length differ as bit patterns. */
  lemma {:induction false} WordInjective(v: seq<Byte>, w: seq<Byte>)
    requires |v| == |w| <= 4 && Word(v) == Word(w)
    ensures v == w
  {
    hide Xor, Placed, Bits, Word;
    if v != [] {
      var n := |v| - 1;
      LastBytesAgree(v, w, n);
      WordInjective(v[..n], w[..n]);
      assert v == v[..n] + [v[n]] && w == w[..n] + [w[n]];
    }
  }

  /** The checksum sees every change confined to four consecutive bytes: the
      register difference it makes survives all later bytes. */
  lemma BurstChangesCrc(before: seq<Byte>, v: seq<Byte>, w: seq<Byte>, after: seq<Byte>)
    requires |v| == |w| <= 4 && v != w
    ensures Crc(before + v + after) != Crc(before + w + after)
  {
    hide Register, Xor, Steps, Word;
    var c := Register(0xFFFFFFFF, before);
    RegisterAppend(0xFFFFFFFF, before + v, after);
    RegisterAppend(0xFFFFFFFF, before, v);
    RegisterAppend(0xFFFFFFFF, before + w, after);
    RegisterAppend(0xFFFFFFFF, before, w);
    RegisterSees(c, v, w, after);
    XorCancels(Register(0xFFFFFFFF, before + v + after), Register(0xFFFFFFFF, before + w + after), 0xFFFFFFFF);
  }

  lemma RegisterSees(c: bv32, v: seq<Byte>, w: seq<Byte>, after: seq<Byte>)
    requires |v| == |w| <= 4 && v != w
    ensures Register(Register(c, v), after) != Register(Register(c, w), after)
  {
    hide Register, Xor, Steps, Word;
    if Register(Register(c, v), after) == Register(Register(c, w), after) {
      RegisterInjective(Register(c, v), Register(c, w), after);
      RegisterWord(c, v);
      RegisterWord(c, w);
      StepsInjective(Xor(c, Word(v)), Xor(c, Word(w)), 8 * |v|);
      XorCancels(Word(v), Word(w), c);
      WordInjective(v, w);
      assert false;
    }
  }
}
