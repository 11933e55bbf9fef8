/** The bit operations of ConvertUTF.cc, digit by digit, and what they do to the numbers that the converters compute
    with. Shifts by n are multiplication and division by the nth power of two, as the C standard defines them for
    unsigned words. */
module BitFacts {
  /** a | b */
  function Or(a: nat, b: nat): nat {
    if a == 0 && b == 0 then 0 else 2 * Or(a / 2, b / 2) + (if a % 2 == 1 || b % 2 == 1 then 1 else 0)
  }

  /** a & b */
  function And(a: nat, b: nat): nat {
    if a == 0 && b == 0 then 0 else 2 * And(a / 2, b / 2) + (if a % 2 == 1 && b % 2 == 1 then 1 else 0)
  }

  lemma {:induction false} OrZero(a: nat)
    ensures Or(a, 0) == a
  {
    if a > 0 { OrZero(a / 2); }
  }

  lemma {:induction false} AndZero(a: nat)
    ensures And(a, 0) == 0
  {
    if a > 0 { AndZero(a / 2); }
  }

  function Digit(x: bool): nat {
    if x then 1 else 0
  }

  lemma OrDigit(a: nat, b: nat, x: bool, y: bool)
    ensures Or(2 * a + Digit(x), 2 * b + Digit(y)) == 2 * Or(a, b) + Digit(x || y)
  {
  }

  lemma AndDigit(a: nat, b: nat, x: bool, y: bool)
    ensures And(2 * a + Digit(x), 2 * b + Digit(y)) == 2 * And(a, b) + Digit(x && y)
  {
  }

  lemma Halved(a: nat)
    ensures a == 2 * (a / 2) + Digit(a % 2 == 1)
  {
  }

  function Power(k: nat): nat {
    if k == 0 then 1 else 2 * Power(k - 1)
  }

  /** The k lowest digits of a word. */
  function Low(k: nat, a: nat): nat {
    if k == 0 then 0 else 2 * Low(k - 1, a / 2) + Digit(a % 2 == 1)
  }

  /** A mask of k ones keeps the k lowest digits. */
  lemma {:induction false} AndOnes(k: nat, ones: nat, a: nat)
    requires ones + 1 == Power(k)
    ensures And(a, ones) == Low(k, a)
  {
    if k == 0 {
      AndZero(a);
    } else {
      Halved(a);
      Halved(ones);
      AndOnes(k - 1, ones / 2, a / 2);
      AndDigit(a / 2, ones / 2, a % 2 == 1, true);
    }
  }

  /** Behind a one and a zero, a mask of k ones keeps the k lowest digits of a word, and a one set above them. */
  lemma {:induction false} MarkedOnes(k: nat, mark: nat, mask: nat, a: nat)
    requires mark == 2 * Power(k) && mask == mark + Power(k) - 1
    ensures And(Or(a, mark), mask) == mark + Low(k, a)
  {
    Halved(a);
    if k == 0 {
      TopDigits(a);
    } else {
      MarkedOnes(k - 1, mark / 2, mask / 2, a / 2);
      OrDigit(a / 2, mark / 2, a % 2 == 1, false);
      AndDigit(Or(a / 2, mark / 2), mask / 2, a % 2 == 1, true);
    }
  }

  /** The digit above is cleared, and the one above that is set. */
  lemma TopDigits(a: nat)
    ensures And(Or(a, 2), 2) == 2
  {
    var b := a / 2;
    Halved(a);
    Halved(b);
    OrDigit(b, 1, a % 2 == 1, false);
    OrDigit(b / 2, 0, b % 2 == 1, true);
    AndDigit(Or(b, 1), 1, a % 2 == 1, false);
    AndDigit(Or(b / 2, 0), 0, true, true);
    AndZero(Or(b / 2, 0));
  }

  function High(k: nat, a: nat): nat {
    if k == 0 then a else High(k - 1, a / 2)
  }

  lemma {:induction false} HighAndLow(k: nat, a: nat)
    ensures a == Power(k) * High(k, a) + Low(k, a) && Low(k, a) < Power(k)
  {
    if k > 0 {
      HighAndLow(k - 1, a / 2);
      Twice(Power(k - 1), High(k - 1, a / 2));
      Halved(a);
    }
  }

  lemma Twice(p: nat, h: nat)
    ensures 2 * p * h == 2 * (p * h)
  {
  }

  lemma Remainder(d: nat, h: nat, low: nat)
    requires low < d && (d == 0x40 || d == 0x400)
    ensures (d * h + low) % d == low && (d * h + low) / d == h
  {
  }

  lemma Powers()
    ensures Power(6) == 0x40 && Power(10) == 0x400
  {
    assert Power(3) == 8 && Power(5) == 32 && Power(7) == 128 && Power(9) == 512;
  }

  /** (ch | byteMark) & byteMask is a trailing byte with the six lowest digits of ch. */
  lemma MarkLowBits(ch: nat)
    ensures And(Or(ch, 0x80), 0xBF) == 0x80 + ch % 0x40
  {
    Powers();
    MarkedOnes(6, 0x80, 0xBF, ch);
    HighAndLow(6, ch);
    Remainder(0x40, High(6, ch), Low(6, ch));
  }

  /** ch & halfMask is the ten lowest digits. */
  lemma LowHalf(ch: nat)
    ensures And(ch, 0x3FF) == ch % 0x400
  {
    Powers();
    AndOnes(10, 0x3FF, ch);
    HighAndLow(10, ch);
    Remainder(0x400, High(10, ch), Low(10, ch));
  }

  /** Setting digits that are all above those of a word adds them. */
  lemma {:induction false} OrAbove(k: nat, a: nat, h: nat, mark: nat)
    requires a < Power(k) && mark == Power(k) * h
    ensures Or(a, mark) == a + mark
  {
    if k == 0 {
      OrZeroLeft(mark);
    } else {
      Twice(Power(k - 1), h);
      OrHalves(a, mark, Power(k - 1) * h);
      OrAbove(k - 1, a / 2, h, Power(k - 1) * h);
    }
  }

  lemma OrHalves(a: nat, mark: nat, m: nat)
    requires mark == 2 * m
    ensures Or(a, mark) == 2 * Or(a / 2, m) + a % 2
  {
    Halved(a);
    OrDigit(a / 2, m, a % 2 == 1, false);
  }

  lemma {:induction false} OrZeroLeft(a: nat)
    ensures Or(0, a) == a
  {
    if a > 0 { OrZeroLeft(a / 2); }
  }

  /** ch | firstByteMark, where ch is what is left for the first byte of n. */
  lemma MarkFirst(ch: nat, n: nat, mark: nat)
    requires (n == 1 && mark == 0) || (n == 2 && ch < 0x20 && mark == 0xC0) || (n == 3 && ch < 0x10 && mark == 0xE0)
      || (n == 4 && ch < 8 && mark == 0xF0)
    ensures Or(ch, mark) == ch + mark
  {
    assert Power(3) == 8 && Power(4) == 16 && Power(5) == 32;
    if n == 1 {
      OrZero(ch);
    } else if n == 2 {
      OrAbove(5, ch, 6, mark);
    } else if n == 3 {
      OrAbove(4, ch, 14, mark);
    } else {
      OrAbove(3, ch, 30, mark);
    }
  }
}
