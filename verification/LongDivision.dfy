/** The portable long divisions of libdivide: two machine words by one, and two
    by two. A machine word has 2 * h bits (h = 32 in the source), so the digit
    base is 2^h; every addition, product and shift that the source computes in
    64 bits is taken modulo the word size. */
module LongDivision {
  import opened Arith

  function Word(h: nat): (p: nat)
    ensures p > 0
  {
    Pow2(2 * h)
  }

  lemma WordIsSquare(h: nat)
    ensures Word(h) == Pow2(h) * Pow2(h)
  {
    Pow2Add(h, h);
  }

  // The C shift operators on words below p.
  function Shl(x: nat, k: nat, p: nat): (r: nat)
    requires p > 0
    ensures r < p
  {
    (x * Pow2(k)) % p
  }

  function Shr(x: nat, k: nat): (r: nat)
    ensures r <= x
  {
    DivNonNeg(x, Pow2(k));
    x / Pow2(k)
  }

  function Low(x: nat, k: nat): (r: nat)
    ensures r < Pow2(k)
  {
    x % Pow2(k)
  }

  // The number written with the two digits hi and lo.
  function Pair(hi: nat, lo: nat, base: nat): nat {
    hi * base + lo
  }

  function Prod(x: nat, y: nat): nat {
    MulNonNeg(x, y);
    x * y
  }

  // A number shifted left without losing bits.
  function Scale(x: nat, k: nat): nat {
    x * Pow2(k)
  }

  // A count of leading zeros is only taken of nonzero words.
  function CountLeadingZeros(h: nat, v: nat): (s: nat)
    requires 0 < v < Word(h)
    ensures s < 2 * h
    ensures Word(h) <= 2 * Scale(v, s) && Scale(v, s) < Word(h)
  {
    FloorLog2Bound(v, 2 * h);
    var l := FloorLog2(v);
    var s := 2 * h - 1 - l;
    Pow2Add(l, s);
    MulLe(Pow2(l), v, Pow2(s));
    MulLt(v, 2 * Pow2(l), Pow2(s));
    MulAssoc(2, Pow2(l), Pow2(s));
    s
  }

  // ----- one quotient digit -----

  // What the digit correction keeps: q never drops below the true digit.
  ghost predicate DigitAbove(b: nat, un: nat, next: nat, v: nat, q: nat)
    requires v > 0
  {
    Pair(un, next, b) / v <= q
  }

  lemma DigitUpperBound(b: nat, un: nat, next: nat, v: nat)
    requires b > 0 && un < v && next < b
    ensures Pair(un, next, b) / v < b
  {
    MulLe(un, v - 1, b);
    MulSub(v, 1, b);
    DivUpper(un * b + next, v, b);
  }

  // The estimate from the leading digit of a normalised divisor is at most
  // two too large ...
  lemma EstimateNotFarAbove(b: nat, un: nat, vn1: nat, vn0: nat)
    requires b <= 2 * vn1 && vn0 < b && un < Pair(vn1, vn0, b)
    ensures vn1 > 0 && un / vn1 <= b + 1
  {
    MulAdd(b, 2, vn1);
    DivUpper(un, vn1, b + 2);
  }

  // ... and never too small.
  lemma EstimateNotBelow(b: nat, un: nat, next: nat, vn1: nat, vn0: nat)
    requires vn1 > 0 && next < b
    ensures Pair(vn1, vn0, b) > 0
    ensures DigitAbove(b, un, next, Pair(vn1, vn0, b), un / vn1)
  {
    MulPos(vn1, b);
    var q := un / vn1;
    DivMod(un, vn1);
    DivNonNeg(un, vn1);
    MulAdd(q, 1, vn1);
    ScaledBound(un, next, q + 1, vn1, vn0, b);
    DivUpper(Pair(un, next, b), Pair(vn1, vn0, b), q + 1);
  }

  lemma ScaledBound(un: nat, next: nat, m: nat, vn1: nat, vn0: nat, b: nat)
    requires un < m * vn1 && next < b
    ensures Pair(un, next, b) < m * Pair(vn1, vn0, b)
  {
    MulLe(un + 1, m * vn1, b);
    MulAdd(un, 1, b);
    MulAssoc(m, vn1, b);
    MulLe(vn1 * b, vn1 * b + vn0, m);
  }

  // The test that rejects an estimate is exact once the estimate is a digit.
  lemma RejectMeansTooLarge(b: nat, un: nat, next: nat, vn1: nat, vn0: nat, q: nat, rhat: int)
    requires vn1 > 0 && un == q * vn1 + rhat
    ensures q * vn0 > b * rhat + next <==> q * Pair(vn1, vn0, b) > Pair(un, next, b)
  {
    MulAdd(q * vn1, rhat, b);
    MulAssoc(q, vn1, b);
    assert q * (vn1 * b + vn0) == q * (vn1 * b) + q * vn0;
  }

  // The loop test, with both products taken modulo the word b * b.
  predicate Rejects(b: nat, q: nat, vn0: nat, rhat: nat, next: nat)
    requires b > 0
  {
    MulPos(b, b);
    q >= b || (q * vn0) % (b * b) > (b * rhat + next) % (b * b)
  }

  // The state of the correction loop.
  ghost predicate Correcting(b: nat, un: nat, next: nat, vn1: nat, vn0: nat, q: nat, rhat: int) {
    && 0 < vn1 < b && vn0 < b && next < b && un < Pair(vn1, vn0, b)
    && un == q * vn1 + rhat && q <= b + 1 && rhat >= 0
    && DigitAbove(b, un, next, Pair(vn1, vn0, b), q)
  }

  lemma StepDown(b: nat, un: nat, next: nat, vn1: nat, vn0: nat, q: nat, rhat: nat)
    requires Correcting(b, un, next, vn1, vn0, q, rhat) && rhat < b
    requires Rejects(b, q, vn0, rhat, next)
    ensures q > 0 && Correcting(b, un, next, vn1, vn0, q - 1, rhat + vn1)
    ensures q - 1 <= b
  {
    var x, v := un * b + next, vn1 * b + vn0;
    DigitUpperBound(b, un, next, v);
    NoWrap(b, q, vn0, rhat, next);
    RejectMeansTooLarge(b, un, next, vn1, vn0, q, rhat);
    if q < b {
      DivUpper(x, v, q);
    }
    assert x / v < q;
    DivNonNeg(x, v);
    MulSub(q, 1, vn1);
  }

  lemma AcceptBelow(b: nat, un: nat, next: nat, vn1: nat, vn0: nat, q: nat, rhat: nat)
    requires Correcting(b, un, next, vn1, vn0, q, rhat) && rhat < b
    requires !Rejects(b, q, vn0, rhat, next)
    ensures q == Pair(un, next, b) / Pair(vn1, vn0, b)
  {
    NoWrap(b, q, vn0, rhat, next);
    RejectMeansTooLarge(b, un, next, vn1, vn0, q, rhat);
    DivLower(Pair(un, next, b), Pair(vn1, vn0, b), q);
  }

  lemma AcceptAtBreak(b: nat, un: nat, next: nat, vn1: nat, vn0: nat, q: nat, rhat: nat)
    requires Correcting(b, un, next, vn1, vn0, q, rhat) && b <= rhat && q <= b
    ensures q == Pair(un, next, b) / Pair(vn1, vn0, b)
  {
    RejectMeansTooLarge(b, un, next, vn1, vn0, q, rhat);
    BreakMeansFits(b, q, vn0, rhat, next);
    DivLower(Pair(un, next, b), Pair(vn1, vn0, b), q);
  }

  lemma EstimateIsCorrecting(b: nat, un: nat, next: nat, vn1: nat, vn0: nat)
    requires b >= 2 && b <= 2 * vn1 && vn1 < b && vn0 < b && next < b
    requires un < Pair(vn1, vn0, b)
    ensures Correcting(b, un, next, vn1, vn0, un / vn1, un - (un / vn1) * vn1)
    ensures un - (un / vn1) * vn1 < b
  {
    EstimateNotFarAbove(b, un, vn1, vn0);
    EstimateNotBelow(b, un, next, vn1, vn0);
    DivMod(un, vn1);
    DivNonNeg(un, vn1);
  }

  // One digit of the quotient: estimate, then correct downwards.
  method QuotientDigit(h: nat, un: nat, next: nat, vn1: nat, vn0: nat) returns (q: nat)
    requires h > 0 && Pow2(h) <= 2 * vn1 && vn1 < Pow2(h) && vn0 < Pow2(h)
    requires next < Pow2(h) && un < Pair(vn1, vn0, Pow2(h))
    ensures q == Pair(un, next, Pow2(h)) / Pair(vn1, vn0, Pow2(h))
    ensures q < Pow2(h)
  {
    hide *;
    var b := Pow2(h);
    DigitUpperBound(b, un, next, Pair(vn1, vn0, b));
    EstimateIsCorrecting(b, un, next, vn1, vn0);
    q := un / vn1;
    var rhat: nat := un - q * vn1;
    while Rejects(b, q, vn0, rhat, next)
      invariant Correcting(b, un, next, vn1, vn0, q, rhat) && rhat < b
      decreases q
    {
      StepDown(b, un, next, vn1, vn0, q, rhat);
      q := q - 1;
      rhat := rhat + vn1;
      if rhat >= b {
        AcceptAtBreak(b, un, next, vn1, vn0, q, rhat);
        return;
      }
    }
    AcceptBelow(b, un, next, vn1, vn0, q, rhat);
  }

  // Once the remainder estimate leaves the digit range the digit is final.
  lemma BreakMeansFits(b: nat, q: nat, vn0: nat, rhat: nat, next: nat)
    requires q <= b && vn0 < b <= rhat
    ensures q * vn0 <= b * rhat + next
  {
    MulLe(q, b, vn0);
    MulLe(vn0, rhat, b);
  }

  // The products of the rejection test stay below the word size.
  lemma NoWrap(b: nat, q: nat, vn0: nat, rhat: nat, next: nat)
    requires vn0 < b && rhat < b && next < b
    ensures b * b > 0
    ensures q < b ==> (q * vn0) % (b * b) == q * vn0
    ensures (b * rhat + next) % (b * b) == b * rhat + next
  {
    MulPos(b, b);
    MulLe(rhat, b - 1, b);
    MulSub(b, 1, b);
    MulNonNeg(b, rhat);
    SmallDivMod(b * rhat + next, b * b);
    if q < b {
      MulLe(q, b - 1, vn0);
      MulLe(vn0, b, b - 1);
      MulNonNeg(q, vn0);
      SmallDivMod(q * vn0, b * b);
    }
  }

  // ----- two words by one -----

  // Shifting the dividend {u1, u0} left by s bits, with k == 2^s and c == 2^(w - s).
  lemma ShiftPair(u1: nat, u0: nat, k: nat, c: nat)
    requires k > 0 && c > 0
    ensures c * k > 0
    ensures (u1 * (c * k) + u0) * k == (u1 * k + u0 / c) * (c * k) + (u0 * k) % (c * k)
  {
    var p := c * k;
    DivScale(u0, c, k);
    DivMod(u0 * k, p);
    var hi, lo := u0 / c, (u0 * k) % p;
    assert u0 * k == hi * p + lo;
    ShiftPairSum(u1, u0, k, p, hi, lo);
  }

  lemma ShiftPairSum(u1: nat, u0: nat, k: nat, p: nat, hi: nat, lo: nat)
    requires u0 * k == hi * p + lo
    ensures (u1 * p + u0) * k == (u1 * k + hi) * p + lo
  {
    MulAdd(u1 * p, u0, k);
    MulAssoc(u1, p, k);
    MulAssoc(u1, k, p);
    MulAdd(u1 * k, hi, p);
  }

  // What both branches of the normalisation produce.
  lemma Normalise(h: nat, u1: nat, u0: nat, v: nat, s: nat)
    requires s < 2 * h && u0 < Word(h) && u1 < v && Scale(v, s) < Word(h)
    ensures var p := Word(h);
            var un64 := Or(Shl(u1, s, p), Shr(u0, 2 * h - s));
            && Shl(v, s, p) == Scale(v, s)
            && Scale(Pair(u1, u0, p), s) == Pair(un64, Shl(u0, s, p), p)
            && un64 < Scale(v, s)
            && (s == 0 ==> Scale(v, s) == v && un64 == u1 && Shl(u0, s, p) == u0)
  {
    NormaliseShifts(h, u1, u0, v, s);
    hide *;
    OrScaled(u1, Shr(u0, 2 * h - s), s);
    if s == 0 {
      ShiftByZero(v, u1, u0, Word(h));
    }
  }

  lemma OrScaled(a: nat, b: nat, s: nat)
    requires b < Pow2(s)
    ensures Or(Scale(a, s), b) == Scale(a, s) + b
  {
    OrDisjoint(a, b, s);
  }

  lemma ShiftByZero(v: nat, u1: nat, u0: nat, p: nat)
    requires u0 < p
    ensures Scale(v, 0) == v && Scale(u1, 0) == u1 && Shl(u0, 0, p) == u0
    ensures forall k: nat :: u0 < Pow2(k) ==> Shr(u0, k) == 0
  {
    SmallDivMod(u0, p);
    forall k: nat | u0 < Pow2(k)
      ensures Shr(u0, k) == 0
    {
      SmallDivMod(u0, Pow2(k));
    }
  }

  lemma NormaliseShifts(h: nat, u1: nat, u0: nat, v: nat, s: nat)
    requires s < 2 * h && u0 < Word(h) && u1 < v && Scale(v, s) < Word(h)
    ensures Shl(v, s, Word(h)) == Scale(v, s)
    ensures Shl(u1, s, Word(h)) == Scale(u1, s)
    ensures Shr(u0, 2 * h - s) < Pow2(s)
    ensures Scale(Pair(u1, u0, Word(h)), s)
            == Pair(Scale(u1, s) + Shr(u0, 2 * h - s), Shl(u0, s, Word(h)), Word(h))
    ensures Scale(u1, s) + Shr(u0, 2 * h - s) < Scale(v, s)
  {
    hide Pow2;
    var p, k, c := Word(h), Pow2(s), Pow2(2 * h - s);
    Pow2Split(2 * h, s);
    MulNonNeg(v, k);
    SmallDivMod(v * k, p);
    MulLt(u1, v, k);
    MulNonNeg(u1, k);
    SmallDivMod(u1 * k, p);
    DivUpper(u0, c, k);
    ShiftPair(u1, u0, k, c);
    MulLe(u1 + 1, v, k);
    MulAdd(u1, 1, k);
  }

  // The subtraction of the first digit's product, computed modulo the word.
  lemma SubtractModulo(a: nat, c: nat, d: nat, p: nat, r: nat)
    requires p > 0 && a + d == c + r && r < p
    ensures (a % p + d - c % p) % p == r
  {
    DivMod(a, p);
    DivMod(c, p);
    var k := c / p - a / p;
    MulSub(c / p, a / p, p);
    assert a % p + d - c % p == r + k * p;
    AddMulDiv(r, k, p);
    SmallDivMod(r, p);
  }

  // Two digits in turn divide a three-digit and then a four-digit number.
  lemma TwoDigits(b: nat, un64: nat, un1: nat, un0: nat, v: nat, q1: nat, un21: nat, q0: nat)
    requires v > 0 && b > 0
    requires q1 == Pair(un64, un1, b) / v && un21 == Pair(un64, un1, b) % v
    requires q0 == Pair(un21, un0, b) / v
    ensures var x := Pair(un64, Pair(un1, un0, b), b * b);
            x / v == Pair(q1, q0, b) && x % v == Pair(un21, un0, b) % v
  {
    var x1, x := un64 * b + un1, un64 * (b * b) + (un1 * b + un0);
    DivMod(x1, v);
    MulAdd(un64 * b, un1, b);
    MulAssoc(un64, b, b);
    assert x == x1 * b + un0;
    MulAdd(q1 * v, un21, b);
    MulAssoc(q1, v, b);
    MulAssoc(q1, b, v);
    assert v * b == b * v;
    assert x == (q1 * b) * v + (un21 * b + un0);
    AddMulDiv(un21 * b + un0, q1 * b, v);
  }

  // The two digits of a quotient by a normalised divisor.
  method DivNormalised(h: nat, un64: nat, un10: nat, vn: nat) returns (q: nat, rem: nat)
    requires h > 0 && Word(h) <= 2 * vn && vn < Word(h) && un64 < vn && un10 < Word(h)
    ensures q == Pair(un64, un10, Word(h)) / vn && q < Word(h)
    ensures rem == Pair(un64, un10, Word(h)) % vn
  {
    hide *;
    var b := Pow2(h);
    var vn1, vn0 := Shr(vn, h), Low(vn, h);
    var un1, un0 := Shr(un10, h), Low(un10, h);
    SplitWord(h, vn);
    SplitWord(h, un10);
    NormalisedDigit(h, vn);
    var q1 := QuotientDigit(h, un64, un1, vn1, vn0);
    var un21 := MultiplyAndSubtract(h, un64, un1, q1, vn);
    var q0 := QuotientDigit(h, un21, un0, vn1, vn0);
    rem := MultiplyAndSubtract(h, un21, un0, q0, vn);
    q := Pair(q1, q0, b) % Word(h);
    PairBelowWord(h, q1, q0);
    WordIsSquare(h);
    TwoDigits(b, un64, un1, un0, vn, q1, un21, q0);
  }

  // Divides {u1, u0} by v. When the quotient does not fit a word the result
  // is all ones, as the source documents.
  method Div128By64(h: nat, u1: nat, u0: nat, v: nat) returns (q: nat, r: nat)
    requires h > 0 && u1 < Word(h) && u0 < Word(h) && 0 < v < Word(h)
    ensures u1 < v ==> q == Pair(u1, u0, Word(h)) / v && r == Pair(u1, u0, Word(h)) % v && q < Word(h)
    ensures u1 >= v ==> q == Word(h) - 1 && r == Word(h) - 1
  {
    hide *;
    var p := Word(h);
    if u1 >= v {
      return p - 1, p - 1;
    }
    var s := CountLeadingZeros(h, v);
    var vn, un64, un10;
    if s > 0 {
      vn := Shl(v, s, p);
      un64 := Or(Shl(u1, s, p), Shr(u0, 2 * h - s));
      un10 := Shl(u0, s, p);
    } else {
      vn, un64, un10 := v, u1, u0;
    }
    Normalise(h, u1, u0, v, s);
    q, r := DivNormalised(h, un64, un10, vn);
    Denormalise(Pair(u1, u0, p), v, s);
    r := Shr(r, s);
  }

  // The remainder that a quotient digit leaves, computed modulo the word.
  method MultiplyAndSubtract(h: nat, un: nat, next: nat, q: nat, v: nat) returns (r: nat)
    requires 0 < v < Word(h) && q == Pair(un, next, Pow2(h)) / v
    ensures r == Pair(un, next, Pow2(h)) % v
  {
    hide Pow2;
    var b, p := Pow2(h), Word(h);
    r := ((un * b) % p + next - (q * v) % p) % p;
    DivMod(un * b + next, v);
    SubtractModulo(un * b, q * v, next, p, (un * b + next) % v);
  }

  lemma PairBelowWord(h: nat, hi: nat, lo: nat)
    requires hi < Pow2(h) && lo < Pow2(h)
    ensures Pair(hi, lo, Pow2(h)) % Word(h) == Pair(hi, lo, Pow2(h)) < Word(h)
  {
    hide Pow2;
    var b := Pow2(h);
    WordIsSquare(h);
    MulLe(hi, b - 1, b);
    MulSub(b, 1, b);
    MulNonNeg(hi, b);
    SmallDivMod(hi * b + lo, Word(h));
  }

  // Quotient and remainder of the normalised dividend give back the original ones.
  lemma Denormalise(x: nat, v: nat, s: nat)
    requires v > 0
    ensures Scale(v, s) > 0
    ensures Scale(x, s) / Scale(v, s) == x / v
    ensures Shr(Scale(x, s) % Scale(v, s), s) == x % v
  {
    var k := Pow2(s);
    DivScale(x, v, k);
    DivModUnique((x % v) * k, k, x % v, 0);
  }

  // A word is the pair of its digits.
  lemma SplitWord(h: nat, x: nat)
    requires x < Word(h)
    ensures Shr(x, h) < Pow2(h) && x == Pair(Shr(x, h), Low(x, h), Pow2(h))
  {
    var b := Pow2(h);
    WordIsSquare(h);
    DivMod(x, b);
    DivUpper(x, b, b);
  }

  lemma NormalisedDigit(h: nat, vn: nat)
    requires h > 0 && Word(h) <= 2 * vn
    ensures Pow2(h) <= 2 * Shr(vn, h)
  {
    Pow2Even(h);
    WordIsSquare(h);
    var b := Pow2(h);
    var c := b / 2;
    assert b == 2 * c;
    MulAssoc(2, c, b);
    DivLower(vn, b, c);
  }
}
