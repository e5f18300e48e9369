/**
 The CRC-32 checksum that fork identifiers use (binascii.crc32 in trinity/protocol/eth/forkid.py):
 the shift register, and what it computes, the remainder of a polynomial division over two elements.
 */
module Crc {
  import opened ByteStreams
  import opened Bits

  type Checksum = x: nat | x < 0x1_0000_0000

  /** The generator without its highest power; the lowest bit stands for x^31. */
  const POLYNOMIAL: Checksum := 0xEDB8_8320
  const ALL_ONES: Checksum := 0xFFFF_FFFF

  // -------------------------------------------------------------------------------------------
  // The register
  // -------------------------------------------------------------------------------------------

  lemma Pow2Of32()
    ensures Pow2(32) == 0x1_0000_0000
  {
    assert Pow2(8) == 256;
    assert Pow2(16) == 0x1_0000;
    assert Pow2(24) == 0x100_0000;
  }

  function Mask(a: Checksum, b: Checksum): Checksum
  {
    Pow2Of32();
    XorBelow(a, b, 32);
    Xor(a, b)
  }

  function BitStep(c: Checksum): Checksum
  {
    if c % 2 == 1 then Mask(c / 2, POLYNOMIAL) else c / 2
  }

  function BitSteps(c: Checksum, n: nat): Checksum
    decreases n
  {
    if n == 0 then c else BitSteps(BitStep(c), n - 1)
  }

  function Absorb(c: Checksum, data: Bytes): Checksum
    decreases |data|
  {
    if data == [] then c else Absorb(BitSteps(Mask(c, data[0]), 8), data[1..])
  }

  /** binascii.crc32 with its optional starting value. */
  function Crc32(data: Bytes, start: Checksum): Checksum
  {
    Mask(Absorb(Mask(start, ALL_ONES), data), ALL_ONES)
  }

  lemma {:induction false} AbsorbConcat(c: Checksum, a: Bytes, b: Bytes)
    ensures Absorb(c, a + b) == Absorb(Absorb(c, a), b)
    decreases |a|
  {
    hide BitSteps, Mask;
    if a == [] {
      assert a + b == b;
    } else {
      assert (a + b)[1..] == a[1..] + b;
      AbsorbConcat(BitSteps(Mask(c, a[0]), 8), a[1..], b);
    }
  }

  /** Chaining checksums gives the checksum of the concatenation. */
  lemma CrcChain(a: Bytes, b: Bytes, start: Checksum)
    ensures Crc32(b, Crc32(a, start)) == Crc32(a + b, start)
  {
    hide Absorb;
    XorCancels(Absorb(Mask(start, ALL_ONES), a), ALL_ONES);
    AbsorbConcat(Mask(start, ALL_ONES), a, b);
  }

  // -------------------------------------------------------------------------------------------
  // Polynomials over two elements
  // -------------------------------------------------------------------------------------------

  /** The coefficients of a polynomial, the one of the highest power first. */
  type Poly = seq<bool>

  ghost function Zeros(n: nat): Poly
  {
    seq(n, _ => false)
  }

  /** a with b added to its leading coefficients. */
  ghost function AddFront(a: Poly, b: Poly): (s: Poly)
    requires |b| <= |a|
    ensures |s| == |a|
  {
    seq(|a|, i requires 0 <= i < |a| => if i < |b| then a[i] != b[i] else a[i])
  }

  /** The powers in the generator of CRC-32. */
  ghost predicate InGenerator(power: nat)
  {
    power in {32, 26, 23, 22, 16, 12, 11, 10, 8, 7, 5, 4, 2, 1, 0}
  }

  ghost function Generator(): (g: Poly)
    ensures |g| == 33 && g[0]
  {
    seq(33, i requires 0 <= i < 33 => InGenerator(32 - i))
  }

  /** The product of a polynomial with the generator. */
  ghost function Times(q: Poly): (p: Poly)
    ensures |p| == |q| + 32
  {
    if q == [] then Zeros(32)
    else AddFront([false] + Times(q[1..]), if q[0] then Generator() else [])
  }

  /** p divided by the generator has the quotient q and the remainder r. */
  ghost predicate Divides(p: Poly, q: Poly, r: Poly)
  {
    |r| == 32 && |p| == |q| + 32 && p == AddFront(Times(q), Zeros(|q|) + r)
  }

  /** One step of the long division: the leading coefficient is cleared and dropped. */
  ghost function Reduce(p: Poly): (p': Poly)
    requires |p| > 32
    ensures |p'| == |p| - 1
  {
    AddFront(p, if p[0] then Generator() else [])[1..]
  }

  ghost function Remainder(p: Poly): (r: Poly)
    requires |p| >= 32
    ensures |r| == 32
    decreases |p|
  {
    if |p| == 32 then p else Remainder(Reduce(p))
  }

  ghost function Quotient(p: Poly): (q: Poly)
    requires |p| >= 32
    ensures |q| == |p| - 32
    decreases |p|
  {
    if |p| == 32 then [] else [p[0]] + Quotient(Reduce(p))
  }

  /** Times by its coefficients: the generator at the front, and the rest one place further on. */
  lemma TimesAt(q: Poly, i: nat)
    requires q != [] && i < |q| + 32
    ensures var g := if q[0] then Generator() else [];
            Times(q)[i] == ((i > 0 && Times(q[1..])[i - 1]) != (i < |g| && g[i]))
  {
    hide Generator;
  }

  /** Dividing on after one step of the long division is dividing from the start. */
  lemma DivisionStep(p: Poly, q: Poly, r: Poly)
    requires |p| > 32 && q != [] && p[0] == q[0] && |r| == 32
    ensures Divides(p, q, r) <==> Divides(Reduce(p), q[1..], r)
  {
    hide Generator, Times;
    if |p| == |q| + 32 {
      var q', p' := q[1..], Reduce(p);
      var left, left' := AddFront(Times(q), Zeros(|q|) + r), AddFront(Times(q'), Zeros(|q'|) + r);
      var g := if p[0] then Generator() else [];
      forall i | 0 <= i < |p'|
        ensures p[i + 1] == left[i + 1] <==> p'[i] == left'[i]
      {
        TimesAt(q, i + 1);
        assert (Zeros(|q|) + r)[i + 1] == (Zeros(|q'|) + r)[i];
        assert p'[i] == (p[i + 1] != (i + 1 < |g| && g[i + 1]));
      }
      TimesAt(q, 0);
      assert left[0] == p[0];
      SameTail(p, left, p', left');
    }
  }

  lemma SameTail(p: Poly, a: Poly, p': Poly, a': Poly)
    requires |p| == |a| == |p'| + 1 == |a'| + 1 && p[0] == a[0]
    requires forall i :: 0 <= i < |p'| ==> (p[i + 1] == a[i + 1] <==> p'[i] == a'[i])
    ensures p == a <==> p' == a'
  {
    if p == a {
      forall i | 0 <= i < |p'|
        ensures p'[i] == a'[i]
      {
        assert p[i + 1] == a[i + 1];
      }
    }
    if p' == a' {
      forall i | 0 <= i < |p|
        ensures p[i] == a[i]
      {
        assert i > 0 ==> p'[i - 1] == a'[i - 1];
      }
    }
  }

  lemma {:induction false} LongDivision(p: Poly)
    requires |p| >= 32
    ensures Divides(p, Quotient(p), Remainder(p))
    decreases |p|
  {
    hide Generator, Reduce, Times;
    if |p| > 32 {
      LongDivision(Reduce(p));
      var q := Quotient(p);
      assert q[1..] == Quotient(Reduce(p));
      DivisionStep(p, q, Remainder(p));
    } else {
      NoQuotient(p, p);
    }
  }

  lemma NoQuotient(p: Poly, r: Poly)
    requires |r| == 32
    ensures Divides(p, [], r) <==> p == r
  {
    assert AddFront(Zeros(32), Zeros(0) + r) == r;
  }

  /** Quotient and remainder are determined. */
  lemma {:induction false} DivisionUnique(p: Poly, q: Poly, r: Poly)
    requires Divides(p, q, r)
    ensures q == Quotient(p) && r == Remainder(p)
    decreases |q|
  {
    hide Generator, Reduce;
    if q == [] {
      NoQuotient(p, r);
    } else {
      TimesAt(q, 0);
      assert p[0] == Times(q)[0] == q[0];
      DivisionStep(p, q, r);
      DivisionUnique(Reduce(p), q[1..], r);
      assert q == [q[0]] + q[1..];
    }
  }

  // -------------------------------------------------------------------------------------------
  // The register computes the remainder
  // -------------------------------------------------------------------------------------------

  /** The lowest n bits, the lowest first. */
  ghost function Digits(c: nat, n: nat): (p: Poly)
    ensures |p| == n
    decreases n
  {
    if n == 0 then [] else [c % 2 == 1] + Digits(c / 2, n - 1)
  }

  /** The bits of a message in the order they are sent: the lowest of each byte first. */
  ghost function MessageBits(data: Bytes): (p: Poly)
    ensures |p| == 8 * |data|
  {
    if data == [] then [] else Digits(data[0], 8) + MessageBits(data[1..])
  }

  lemma {:induction false} DigitsOfXor(a: nat, b: nat, n: nat)
    ensures Digits(Xor(a, b), n) == AddFront(Digits(a, n), Digits(b, n))
    decreases n
  {
    if n > 0 {
      XorHalves(a, b);
      DigitsOfXor(a / 2, b / 2, n - 1);
    }
  }

  /** A number is determined by its bits. */
  lemma {:induction false} DigitsDetermine(a: nat, b: nat, n: nat)
    requires a < Pow2(n) && b < Pow2(n) && Digits(a, n) == Digits(b, n)
    ensures a == b
    decreases n
  {
    if n > 0 {
      assert Digits(a, n)[1..] == Digits(a / 2, n - 1) && Digits(b, n)[1..] == Digits(b / 2, n - 1);
      assert Digits(a, n)[0] == Digits(b, n)[0];
      DigitsDetermine(a / 2, b / 2, n - 1);
    }
  }

  lemma {:induction false} DigitsOfZero(n: nat)
    ensures Digits(0, n) == Zeros(n)
  {
    if n > 0 {
      DigitsOfZero(n - 1);
    }
  }

  lemma {:induction false} DigitsSplit(c: nat, n: nat, m: nat)
    requires c < Pow2(n)
    ensures Digits(c, n + m) == Digits(c, n) + Zeros(m)
    decreases n
  {
    if n == 0 {
      DigitsOfZero(m);
    } else {
      DigitsSplit(c / 2, n - 1, m);
    }
  }

  lemma {:induction false} DigitsMore(c: nat, n: nat)
    requires n > 0 && c < Pow2(n)
    ensures Digits(c, n)[1..] + [false] == Digits(c / 2, n)
  {
    DigitsSplit(c / 2, n - 1, 1);
  }

  lemma TwoDigits(c: nat, n: nat)
    ensures Digits(c, n + 2) == [c % 2 == 1, c / 2 % 2 == 1] + Digits(c / 4, n)
  {
    assert c / 2 / 2 == c / 4;
    assert Digits(c / 2, n + 1) == [c / 2 % 2 == 1] + Digits(c / 4, n);
  }

  lemma HexDigit(c: nat, n: nat)
    ensures Digits(c, n + 4)
            == [c % 2 == 1, c / 2 % 2 == 1, c / 4 % 2 == 1, c / 8 % 2 == 1] + Digits(c / 16, n)
  {
    hide Digits;
    TwoDigits(c, n + 2);
    TwoDigits(c / 4, n);
    assert c / 4 / 2 == c / 8 && c / 4 / 4 == c / 16;
  }

  lemma LowDigits()
    ensures Digits(POLYNOMIAL, 32) == Generator()[1..17] + Digits(0xEDB8, 16)
  {
    hide Digits;
    HexDigit(0xEDB88, 16);
    HexDigit(0xEDB883, 20);
    HexDigit(0xEDB8832, 24);
    HexDigit(0xEDB88320, 28);
  }

  lemma HighDigits()
    ensures Digits(0xEDB8, 16) == Generator()[17..]
  {
    hide Digits;
    HexDigit(0xE, 0);
    HexDigit(0xED, 4);
    HexDigit(0xEDB, 8);
    HexDigit(0xEDB8, 12);
  }

  /** The constant of the register is the generator. */
  lemma GeneratorDigits()
    ensures Digits(POLYNOMIAL, 32) == Generator()[1..]
  {
    hide Digits, Generator;
    LowDigits();
    HighDigits();
  }

  /** One step of the register is one step of the long division. */
  lemma StepReduces(c: Checksum, tail: Poly)
    requires |tail| >= 32
    ensures Reduce(AddFront([false] + tail, Digits(c, 32))) == AddFront(tail, Digits(BitStep(c), 32))
  {
    hide Digits, Generator, AddFront, Reduce;
    Pow2Of32();
    DigitsMore(c, 32);
    DigitsOfXor(c / 2, POLYNOMIAL, 32);
    GeneratorDigits();
    FirstDigit(c);
    ReduceFront(tail, Digits(c, 32));
  }

  lemma FirstDigit(c: nat)
    ensures Digits(c, 32)[0] == (c % 2 == 1)
  {
  }

  lemma ReduceFront(tail: Poly, d: Poly)
    requires |tail| >= 32 && |d| == 32
    ensures var shifted := d[1..] + [false];
            Reduce(AddFront([false] + tail, d))
            == AddFront(tail, if d[0] then AddFront(shifted, Generator()[1..]) else shifted)
  {
    hide Generator;
  }

  lemma {:induction false} StepsReduce(c: Checksum, n: nat, tail: Poly)
    requires |tail| >= 32
    ensures Remainder(AddFront(Zeros(n) + tail, Digits(c, 32)))
            == Remainder(AddFront(tail, Digits(BitSteps(c, n), 32)))
    decreases n
  {
    hide BitStep, Digits, AddFront, Reduce;
    if n == 0 {
      assert Zeros(n) + tail == tail;
    } else {
      var rest := Zeros(n - 1) + tail;
      assert Zeros(n) + tail == [false] + rest;
      StepReduces(c, rest);
      StepsReduce(BitStep(c), n - 1, tail);
    }
  }

  lemma MoveFront(d: Poly, tail: Poly, e: Poly)
    requires |d| == 8 && |e| == 32 && |tail| >= 32
    ensures AddFront(d + tail, e) == AddFront(Zeros(8) + tail, AddFront(e, d + Zeros(24)))
  {
  }

  lemma ByteReduces(c: Checksum, b: Byte, tail: Poly)
    requires |tail| >= 32
    ensures Remainder(AddFront(Digits(b, 8) + tail, Digits(c, 32)))
            == Remainder(AddFront(tail, Digits(BitSteps(Mask(c, b), 8), 32)))
  {
    hide Remainder, BitSteps, Digits, AddFront;
    assert Pow2(8) == 256;
    DigitsSplit(b, 8, 24);
    DigitsOfXor(c, b, 32);
    MoveFront(Digits(b, 8), tail, Digits(c, 32));
    StepsReduce(Mask(c, b), 8, tail);
  }

  /** The register is the remainder of the message times x^32, with its start added in front. */
  lemma {:induction false} AbsorbIsRemainder(c: Checksum, data: Bytes)
    ensures Digits(Absorb(c, data), 32) == Remainder(AddFront(MessageBits(data) + Zeros(32), Digits(c, 32)))
    decreases |data|
  {
    hide Digits, BitSteps, Mask;
    if data == [] {
      assert MessageBits(data) + Zeros(32) == Zeros(32);
      assert AddFront(Zeros(32), Digits(c, 32)) == Digits(c, 32);
    } else {
      var tail := MessageBits(data[1..]) + Zeros(32);
      assert MessageBits(data) + Zeros(32) == Digits(data[0], 8) + tail;
      ByteReduces(c, data[0], tail);
      AbsorbIsRemainder(BitSteps(Mask(c, data[0]), 8), data[1..]);
    }
  }

  /**
   The checksum of a message: with the first 32 of its bits inverted, the message times x^32 divided
   by the generator leaves the inverted checksum.
   */
  lemma CrcIsRemainder(data: Bytes, q: Poly, r: Poly)
    requires Divides(AddFront(MessageBits(data) + Zeros(32), seq(32, _ => true)), q, r)
    ensures Digits(Crc32(data, 0), 32) == seq(32, i requires 0 <= i < 32 => !r[i])
  {
    hide Absorb, Remainder, Quotient, Times, Digits, AddFront;
    var ones := Digits(ALL_ONES, 32);
    AllOnes();
    DivisionUnique(AddFront(MessageBits(data) + Zeros(32), ones), q, r);
    XorZero(ALL_ONES);
    AbsorbIsRemainder(ALL_ONES, data);
    DigitsOfXor(Absorb(ALL_ONES, data), ALL_ONES, 32);
    Inverted(r);
  }

  lemma Inverted(r: Poly)
    requires |r| == 32
    ensures AddFront(r, seq(32, _ => true)) == seq(32, i requires 0 <= i < 32 => !r[i])
  {
  }

  lemma AllOnes()
    ensures Digits(ALL_ONES, 32) == seq(32, _ => true)
  {
    hide Digits;
    HexDigit(0xF, 0);
    HexDigit(0xFF, 4);
    HexDigit(0xFFF, 8);
    HexDigit(0xFFFF, 12);
    HexDigit(0xFFFFF, 16);
    HexDigit(0xFFFFFF, 20);
    HexDigit(0xFFFFFFF, 24);
    HexDigit(0xFFFFFFFF, 28);
  }
}
