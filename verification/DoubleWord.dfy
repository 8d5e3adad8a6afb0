/** Double-word arithmetic of libdivide: the high half of a product, in-place
    shifts of a double word, and the two-by-two division built on the
    two-by-one one. A double word {hi, lo} stands for Pair(hi, lo, Word(h)). */
module DoubleWord {
  import opened Arith
  import opened LongDivision

  // ----- the high word of a product -----

  lemma ProductOfPairs(x1: nat, x0: nat, y1: nat, y0: nat, b: nat)
    ensures Prod(Pair(x1, x0, b), Pair(y1, y0, b))
            == Pair(Prod(x1, y1), Pair(Prod(x1, y0) + Prod(x0, y1), Prod(x0, y0), b), b * b)
  {
    MulAdd(x1 * b, x0, y1 * b + y0);
    SquareTerm(x1, y1, b);
    MulAssoc(x1, b, y0);
    MulAssoc(x1, y0, b);
    MulAssoc(x0, y1, b);
    MulAdd(x1 * y0, x0 * y1, b);
  }

  lemma SquareTerm(x: nat, y: nat, b: nat)
    ensures (x * b) * (y * b) == (x * y) * (b * b)
  {
    MulAssoc(x, b, y * b);
    MulAssoc(b, y, b);
    MulAssoc(y, b, b);
    assert b * y == y * b;
    MulAssoc(x, y, b * b);
  }

  // Dividing by the square of the base drops the low digit first.
  lemma HighOfSum(a: nat, m: nat, l: nat, h: nat)
    ensures Pair(a, Pair(m, l, Pow2(h)), Word(h)) / Word(h) == a + Shr(m + Shr(l, h), h)
  {
    hide Pow2;
    var b := Pow2(h);
    WordIsSquare(h);
    var x := m * b + l;
    DivDiv(x, b, b);
    AddMulDiv(l, m, b);
    AddMulDiv(x, a, b * b);
  }

  // The arithmetic operators of the source on words below p.
  function MulW(x: nat, y: nat, p: nat): (r: nat)
    requires p > 0
    ensures r < p
  {
    MulNonNeg(x, y);
    (x * y) % p
  }

  function AddW(x: nat, y: nat, p: nat): (r: nat)
    requires p > 0
    ensures r < p
    ensures x + y < p ==> r == x + y
  {
    if x + y < p then SmallDivMod(x + y, p); x + y else (x + y) % p
  }

  // The middle sum is split so that no partial sum leaves the word.
  lemma MiddleSum(t: nat, x0y1: nat, h: nat)
    ensures Shr(t + x0y1, h) == Shr(t, h) + Shr(Low(t, h) + x0y1, h)
  {
    var b := Pow2(h);
    DivMod(t, b);
    AddMulDiv(t % b + x0y1, t / b, b);
  }

  lemma DigitSquare(x: int, y: int, b: int)
    requires 0 <= x < b && 0 <= y < b
    ensures x * y + 2 * b <= b * b + 1
  {
    MulLe(x, b - 1, y);
    MulLe(y, b - 1, b - 1);
    MulSub(b, 1, b - 1);
    MulSub(b, 1, b);
  }

  // A product of two digits leaves room for another digit and its carry.
  lemma DigitProduct(h: nat, x: nat, y: nat)
    requires x < Pow2(h) && y < Pow2(h)
    ensures Prod(x, y) + 2 * Pow2(h) <= Word(h) + 1
    ensures MulW(x, y, Word(h)) == Prod(x, y)
    ensures Shr(Prod(x, y), h) < Pow2(h)
  {
    var b := Pow2(h);
    DigitSquare(x, y, b);
    hide Pow2;
    WordIsSquare(h);
    MulNonNeg(x, y);
    DivUpper(x * y, b, b);
    SmallDivMod(x * y, b * b);
  }

  // The high word in terms of the four digit products.
  lemma HighFromDigits(h: nat, x1: nat, x0: nat, y1: nat, y0: nat)
    ensures Prod(Pair(x1, x0, Pow2(h)), Pair(y1, y0, Pow2(h))) / Word(h)
            == Prod(x1, y1) + Shr(Prod(x1, y0) + Prod(x0, y1) + Shr(Prod(x0, y0), h), h)
  {
    hide *;
    WordIsSquare(h);
    ProductOfPairs(x1, x0, y1, y0, Pow2(h));
    HighOfSum(Prod(x1, y1), Prod(x1, y0) + Prod(x0, y1), Prod(x0, y0), h);
  }

  lemma HighFits(x: nat, y: nat, p: nat)
    requires x < p && y < p
    ensures Prod(x, y) / p < p
  {
    MulLe(x, p - 1, y);
    MulLe(y, p, p - 1);
    MulSub(p, 1, p);
    DivUpper(x * y, p, p);
  }

  // The portable high word: four digit products, all sums below the word size.
  method MulHigh(h: nat, x: nat, y: nat) returns (r: nat)
    requires x < Word(h) && y < Word(h)
    ensures r == Prod(x, y) / Word(h)
  {
    hide *;
    var p := Word(h);
    var x0, x1, y0, y1 := Low(x, h), Shr(x, h), Low(y, h), Shr(y, h);
    var x0y0hi := Shr(MulW(x0, y0, p), h);
    var x0y1, x1y0, x1y1 := MulW(x0, y1, p), MulW(x1, y0, p), MulW(x1, y1, p);
    var temp := AddW(x1y0, x0y0hi, p);
    SplitWord(h, x);
    SplitWord(h, y);
    DigitProduct(h, x0, y0);
    DigitProduct(h, x0, y1);
    DigitProduct(h, x1, y0);
    DigitProduct(h, x1, y1);
    HighFromDigits(h, x1, x0, y1, y0);
    MiddleSum(temp, x0y1, h);
    HighFits(x, y, p);
    r := AddW(AddW(x1y1, Shr(temp, h), p), Shr(AddW(Low(temp, h), x0y1, p), h), p);
  }

  // ----- double words -----

  datatype u128 = U128(hi: nat, lo: nat)

  function Value(u: u128, h: nat): nat {
    Pair(u.hi, u.lo, Word(h))
  }

  ghost predicate IsDouble(u: u128, h: nat) {
    u.hi < Word(h) && u.lo < Word(h)
  }

  // Or with the low operand first.
  lemma OrLowFirst(b: nat, a: nat, k: nat)
    requires b < Pow2(k)
    ensures Or(b, Scale(a, k)) == Scale(a, k) + b
  {
    OrCommutes(b, a * Pow2(k));
    OrDisjoint(a, b, k);
  }

  lemma ShiftLeftParts(h: nat, u: u128, s: nat)
    requires IsDouble(u, h) && s < 2 * h && Scale(u.hi, s) < Word(h)
    ensures Shl(u.hi, s, Word(h)) == Scale(u.hi, s)
    ensures Shr(u.lo, 2 * h - s) < Pow2(s)
    ensures Scale(u.hi, s) + Shr(u.lo, 2 * h - s) < Word(h)
    ensures Pair(Scale(u.hi, s) + Shr(u.lo, 2 * h - s), Shl(u.lo, s, Word(h)), Word(h))
            == Scale(Value(u, h), s)
  {
    hide Pow2;
    var p, k, c := Word(h), Pow2(s), Pow2(2 * h - s);
    Pow2Split(2 * h, s);
    MulNonNeg(u.hi, k);
    SmallDivMod(u.hi * k, p);
    DivUpper(u.lo, c, k);
    ShiftPair(u.hi, u.lo, k, c);
    MulCancelLt(u.hi, c, k);
    MulLe(u.hi + 1, c, k);
    MulAdd(u.hi, 1, k);
  }

  lemma ShiftRightParts(h: nat, u: u128, s: nat)
    requires IsDouble(u, h) && s < 2 * h
    ensures Shr(u.lo, s) < Pow2(2 * h - s)
    ensures Shl(u.hi, 2 * h - s, Word(h)) == Scale(Low(u.hi, s), 2 * h - s)
    ensures Scale(Low(u.hi, s), 2 * h - s) + Shr(u.lo, s) < Word(h)
    ensures Pair(Shr(u.hi, s), Scale(Low(u.hi, s), 2 * h - s) + Shr(u.lo, s), Word(h))
            == Shr(Value(u, h), s)
  {
    hide Pow2;
    var p, k, c := Word(h), Pow2(s), Pow2(2 * h - s);
    Pow2Split(2 * h, s);
    DivUpper(u.lo, k, c);
    DivScale(u.hi, k, c);
    var m, l := u.hi / k, u.hi % k;
    DivMod(u.hi, k);
    MulLe(l, k - 1, c);
    MulSub(k, 1, c);
    ShiftRightSum(m, l, u.lo, k, c);
  }

  lemma ShiftRightSum(m: nat, l: nat, lo: nat, k: nat, c: nat)
    requires k > 0
    ensures ((m * k + l) * (k * c) + lo) / k == m * (k * c) + (l * c + lo / k)
  {
    var x := m * k + l;
    MulAssoc(x, c, k);
    assert c * k == k * c;
    AddMulDiv(lo, x * c, k);
    MulAdd(m * k, l, c);
    MulAssoc(m, k, c);
  }

  // Shifts a double word, left for a positive amount and right for a negative one.
  method Shift128(h: nat, u: u128, amount: int) returns (r: u128)
    requires IsDouble(u, h) && -2 * h < amount < 2 * h
    requires amount > 0 ==> Scale(u.hi, amount) < Word(h)
    ensures IsDouble(r, h)
    ensures amount >= 0 ==> Value(r, h) == Scale(Value(u, h), amount)
    ensures amount <= 0 ==> Value(r, h) == Shr(Value(u, h), -amount)
  {
    hide *;
    var p := Word(h);
    if amount > 0 {
      ShiftLeftParts(h, u, amount);
      OrScaled(u.hi, Shr(u.lo, 2 * h - amount), amount);
      r := U128(Or(Shl(u.hi, amount, p), Shr(u.lo, 2 * h - amount)), Shl(u.lo, amount, p));
      ValueOf(r, h);
    } else if amount < 0 {
      var s := -amount;
      ShiftRightParts(h, u, s);
      OrLowFirst(Shr(u.lo, s), Low(u.hi, s), 2 * h - s);
      r := U128(Shr(u.hi, s), Or(Shr(u.lo, s), Shl(u.hi, 2 * h - s, p)));
      ValueOf(r, h);
      IsDoubleOf(r, h);
    } else {
      r := u;
      ShiftNothing(Value(u, h));
    }
    IsDoubleOf(u, h);
    IsDoubleOf(r, h);
  }

  lemma ValueOf(u: u128, h: nat)
    ensures Value(u, h) == Pair(u.hi, u.lo, Word(h))
  {
  }

  lemma IsDoubleOf(u: u128, h: nat)
    ensures IsDouble(u, h) <==> u.hi < Word(h) && u.lo < Word(h)
  {
  }

  lemma ShiftNothing(x: nat)
    ensures Scale(x, 0) == x && Shr(x, 0) == x
  {
  }

  // Comparing high words first compares the double words.
  predicate AtLeast(a: u128, b: u128) {
    a.hi > b.hi || (a.hi == b.hi && a.lo >= b.lo)
  }

  lemma AtLeastOrders(h: nat, a: u128, b: u128)
    requires IsDouble(a, h) && IsDouble(b, h)
    ensures AtLeast(a, b) <==> Value(a, h) >= Value(b, h)
  {
    var p := Word(h);
    if a.hi > b.hi {
      MulLe(b.hi + 1, a.hi, p);
      MulAdd(b.hi, 1, p);
    } else if a.hi < b.hi {
      MulLe(a.hi + 1, b.hi, p);
      MulAdd(a.hi, 1, p);
    }
  }

  // Subtraction with a borrow from the high word.
  function Subtract(a: u128, b: u128, p: nat): u128
    requires p > 0
  {
    U128((a.hi - (b.hi + if a.lo < b.lo then 1 else 0)) % p, (a.lo - b.lo) % p)
  }

  lemma SubtractExact(h: nat, a: u128, b: u128)
    requires IsDouble(a, h) && IsDouble(b, h) && AtLeast(a, b)
    ensures IsDouble(Subtract(a, b, Word(h)), h)
    ensures Value(Subtract(a, b, Word(h)), h) == Value(a, h) - Value(b, h)
  {
    hide Word;
    var p := Word(h);
    var borrow: int := if a.lo < b.lo then 1 else 0;
    var hi := a.hi - (b.hi + borrow);
    SmallDivMod(hi, p);
    DivModUnique(a.lo - b.lo, p, -borrow, a.lo - b.lo + borrow * p);
    MulSub(a.hi, b.hi + borrow, p);
    MulAdd(b.hi, borrow, p);
  }

  // Addition of one with a carry into the high word.
  function Increment(a: u128, p: nat): u128
    requires p > 0
  {
    var lo := (a.lo + 1) % p;
    U128((a.hi + if lo == 0 then 1 else 0) % p, lo)
  }

  lemma IncrementExact(h: nat, a: u128)
    requires IsDouble(a, h) && (a.hi + 1 < Word(h) || a.lo + 1 < Word(h))
    ensures IsDouble(Increment(a, Word(h)), h)
    ensures Value(Increment(a, Word(h)), h) == Value(a, h) + 1
  {
    var p := Word(h);
    if a.lo + 1 < p {
      SmallDivMod(a.lo + 1, p);
      SmallDivMod(a.hi, p);
    } else {
      DivModUnique(a.lo + 1, p, 1, 0);
      SmallDivMod(a.hi + 1, p);
      MulAdd(a.hi, 1, p);
    }
  }

  // Subtraction of one with a borrow from the high word.
  function Decrement(a: u128, p: nat): u128
    requires p > 0
  {
    U128((a.hi - if a.lo == 0 then 1 else 0) % p, (a.lo - 1) % p)
  }

  lemma DecrementExact(h: nat, a: u128)
    requires IsDouble(a, h) && !(a.hi == 0 && a.lo == 0)
    ensures IsDouble(Decrement(a, Word(h)), h)
    ensures Value(Decrement(a, Word(h)), h) == Value(a, h) - 1
  {
    var p := Word(h);
    if a.lo == 0 {
      SmallDivMod(a.hi - 1, p);
      DivModUnique(-1, p, -1, p - 1);
      MulSub(a.hi, 1, p);
    } else {
      SmallDivMod(a.lo - 1, p);
      SmallDivMod(a.hi, p);
    }
  }

  // The low double word of a product; the high half is dropped.
  method Multiply(h: nat, q: u128, v: u128) returns (r: u128)
    requires IsDouble(q, h) && IsDouble(v, h)
    requires Prod(Value(q, h), Value(v, h)) < Prod(Word(h), Word(h))
    ensures IsDouble(r, h) && Value(r, h) == Prod(Value(q, h), Value(v, h))
  {
    hide *;
    var p := Word(h);
    IsDoubleOf(q, h);
    IsDoubleOf(v, h);
    var high := MulHigh(h, q.lo, v.lo);
    r := U128(AddW(AddW(MulW(q.hi, v.lo, p), MulW(q.lo, v.hi, p), p), high, p), MulW(q.lo, v.lo, p));
    ValueOf(q, h);
    ValueOf(v, h);
    LowProduct(q.hi, q.lo, v.hi, v.lo, high, p);
    ValueOf(r, h);
    IsDoubleOf(r, h);
  }

  lemma LowProduct(qh: nat, ql: nat, vh: nat, vl: nat, high: nat, p: nat)
    requires p > 0 && Prod(Pair(qh, ql, p), Pair(vh, vl, p)) < Prod(p, p) && high == Prod(ql, vl) / p
    ensures AddW(AddW(MulW(qh, vl, p), MulW(ql, vh, p), p), high, p) == Prod(qh, vl) + Prod(ql, vh) + high < p
    ensures Pair(Prod(qh, vl) + Prod(ql, vh) + high, MulW(ql, vl, p), p) == Prod(Pair(qh, ql, p), Pair(vh, vl, p))
  {
    ProductOfPairs(qh, ql, vh, vl, p);
    var mid, low := Prod(qh, vl) + Prod(ql, vh), Prod(ql, vl);
    NoHighHalf(Prod(qh, vh), Pair(mid, low, p), Prod(p, p));
    assert Pair(mid, low, p) < Prod(p, p);
    MiddleBelowWord(mid, low, p);
    MulWSmall(qh, vl, p);
    MulWSmall(ql, vh, p);
  }

  lemma MulWSmall(x: nat, y: nat, p: nat)
    requires p > 0 && Prod(x, y) < p
    ensures MulW(x, y, p) == Prod(x, y)
  {
    SmallDivMod(x * y, p);
  }

  lemma NoHighHalf(a: nat, rest: nat, pp: nat)
    requires pp > 0 && a * pp + rest < pp
    ensures a == 0
  {
    if a >= 1 {
      MulLe(1, a, pp);
    }
  }

  lemma MiddleBelowWord(mid: nat, low: nat, p: nat)
    requires p > 0 && mid * p + low < p * p
    ensures low / p >= 0 && mid + low / p < p
    ensures (mid + low / p) * p + low % p == mid * p + low
  {
    DivMod(low, p);
    DivNonNeg(low, p);
    MulAdd(mid, low / p, p);
    if mid + low / p >= p {
      MulLe(p, mid + low / p, p);
    }
  }

  // ----- two words by two -----

  // The double-word shape of a right shift by one stays below half the word.
  lemma HalvedHigh(h: nat, u: u128, half: u128)
    requires h > 0 && IsDouble(u, h) && IsDouble(half, h) && Value(half, h) == Shr(Value(u, h), 1)
    ensures 2 * half.hi < Word(h)
  {
    var p := Word(h);
    DivMod(Value(u, h), 2);
    assert Pow2(1) == 2;
    Pow2Even(2 * h);
    MulLe(u.hi, p - 1, p);
    MulSub(p, 1, p);
    if 2 * half.hi >= p {
      MulLe(p, 2 * half.hi, p);
      MulAssoc(2, half.hi, p);
    }
  }

  // The leading word of the normalised divisor is the divisor without its low bits.
  lemma LeadingWord(h: nat, v: nat, n: nat, v1: nat, low: nat)
    requires n < 2 * h && low < Word(h) && Pair(v1, low, Word(h)) == Scale(v, n)
    ensures v1 == Shr(v, 2 * h - n)
  {
    var p, k, c := Word(h), Pow2(n), Pow2(2 * h - n);
    Pow2Split(2 * h, n);
    DivModUnique(Scale(v, n), p, v1, low);
    assert p == c * k;
    DivScale(v, c, k);
  }

  // Halving, dividing by the leading word and undoing both shifts divides by
  // the leading word put back in place.
  lemma NestedFloor(h: nat, u: nat, v1: nat, n: nat)
    requires h > 0 && n < 2 * h && v1 > 0
    ensures Scale(v1, 2 * h - n) > 0
    ensures Shr(Scale(Shr(u, 1) / v1, n), 2 * h - 1) == u / Scale(v1, 2 * h - n)
  {
    var k, c := Pow2(n), Pow2(2 * h - 1 - n);
    var q1 := (u / 2) / v1;
    assert Pow2(1) == 2;
    DivDiv(u, 2, v1);
    DivNonNeg(u, 2);
    DivNonNeg(u / 2, v1);
    Pow2Split(2 * h - 1, n);
    assert Pow2(2 * h - 1) == c * k;
    DivScale(q1, c, k);
    DivDiv(u, 2 * v1, c);
    assert Pow2(2 * h - n) == 2 * c;
    assert (2 * v1) * c == v1 * (2 * c) by {
      MulAssoc(2, v1, c);
      MulAssoc(v1, 2, c);
    }
  }

  // Truncating the divisor raises the quotient by at most one.
  lemma EstimateWithinOne(u: nat, v: nat, d: nat)
    requires 0 < d <= v && Prod(u / v + 1, v - d) <= d
    ensures u / v <= u / d <= u / v + 1
  {
    EstimateNotBelowQuotient(u, v, d);
    var q := u / v;
    DivMod(u, v);
    DivNonNeg(u, v);
    MulAdd(q, 1, v);
    NextMultiple(u, v, d, q + 1);
    DivUpper(u, d, q + 2);
  }

  lemma EstimateNotBelowQuotient(u: nat, v: nat, d: nat)
    requires 0 < d <= v
    ensures u / v <= u / d
  {
    DivMod(u, v);
    DivNonNeg(u, v);
    MulLe(d, v, u / v);
    DivLower(u, d, u / v);
  }

  lemma NextMultiple(u: nat, v: nat, d: nat, m: nat)
    requires d <= v && u < m * v && Prod(m, v - d) <= d
    ensures u < (m + 1) * d
  {
    assert m * v == m * (v - d) + m * d;
    MulAdd(m, 1, d);
  }

  // The truncated part is small enough for that, because the quotient is small
  // when the divisor is large.
  lemma TruncationIsSmall(h: nat, u: nat, v: nat, n: nat)
    requires h > 0 && n < 2 * h && u < Pow2(4 * h) && Pow2(4 * h - 1 - n) <= v
    ensures var d := Scale(Shr(v, 2 * h - n), 2 * h - n);
            0 < d <= v && Prod(u / v + 1, v - d) <= d
  {
    hide Pow2;
    var e := 2 * h - n;
    DivMod(v, Pow2(e));
    LeadingBit(h, v, n);
    DivNonNeg(u, v);
    Pow2Split(4 * h, n + 1);
    QuotientBelow(u, v, Pow2(n + 1), Pow2(4 * h - 1 - n));
    TruncationPower(h, n);
    ProdMono(u / v + 1, Pow2(n + 1), v - Scale(Shr(v, e), e), Pow2(e) - 1);
  }

  lemma ProdMono(a: nat, b: nat, c: nat, d: nat)
    requires a <= b && c <= d
    ensures Prod(a, c) <= Prod(b, d)
  {
    MulLe(a, b, c);
    MulLe(c, d, b);
  }

  lemma TruncationPower(h: nat, n: nat)
    requires h > 0 && n < 2 * h
    ensures Prod(Pow2(n + 1), Pow2(2 * h - n) - 1) <= Pow2(4 * h - 1 - n)
  {
    var k, c := Pow2(n + 1), Pow2(2 * h - n);
    MulSub(c, 1, k);
    Pow2Add(n + 1, 2 * h - n);
    assert n + 1 + (2 * h - n) == 2 * h + 1;
    if n == 2 * h - 1 {
      assert Pow2(2 * h + 1) == 2 * Pow2(2 * h);
    } else {
      Pow2Mono(2 * h + 1, 4 * h - 1 - n);
    }
  }

  lemma QuotientBelow(u: nat, v: nat, k: nat, m: nat)
    requires 0 < m <= v && u < k * m
    ensures u / v < k
  {
    MulLe(m, v, k);
    DivUpper(u, v, k);
  }

  lemma LeadingBit(h: nat, v: nat, n: nat)
    requires h > 0 && n < 2 * h && Pow2(4 * h - 1 - n) <= v
    ensures Scale(Shr(v, 2 * h - n), 2 * h - n) >= Pow2(4 * h - 1 - n)
  {
    var c := Pow2(2 * h - n);
    Pow2Add(2 * h - 1, 2 * h - n);
    assert 2 * h - 1 + (2 * h - n) == 4 * h - 1 - n;
    DivLower(v, c, Pow2(2 * h - 1));
    MulLe(Pow2(2 * h - 1), v / c, c);
  }

  // Divides {u.hi, u.lo} by {v.hi, v.lo} when the quotient fits one word.
  method Div128By128(h: nat, u: u128, v: u128) returns (q: nat, r: u128)
    requires h > 0 && IsDouble(u, h) && IsDouble(v, h) && Value(v, h) > 0
    requires v.hi == 0 ==> u.hi < v.lo
    ensures q == Value(u, h) / Value(v, h) && q < Word(h)
    ensures IsDouble(r, h) && Value(r, h) == Value(u, h) % Value(v, h)
  {
    hide *;
    var p := Word(h);
    IsDoubleOf(u, h);
    IsDoubleOf(v, h);
    ValueOf(u, h);
    ValueOf(v, h);
    if v.hi == 0 {
      ZeroHigh(v.lo, p);
      var lo;
      q, lo := Div128By64(h, u.hi, u.lo, v.lo);
      r := U128(0, lo);
      ZeroHigh(lo, p);
      ValueOf(r, h);
      RemainderIsWord(Value(u, h), v.lo);
      IsDoubleOf(r, h);
      return;
    }
    var n := CountLeadingZeros(h, v.hi);
    var v1t := Shift128(h, v, n);
    var u1 := Shift128(h, u, -1);
    NormalisedTop(h, v, v1t, n);
    HalvedHigh(h, u, u1);
    IsDoubleOf(v1t, h);
    IsDoubleOf(u1, h);
    ValueOf(u1, h);
    ValueOf(v1t, h);
    var q1, ignored := Div128By64(h, u1.hi, u1.lo, v1t.hi);
    var q0 := U128(0, q1);
    ValueOf(q0, h);
    ZeroHigh(q1, p);
    ZeroShift(n, p);
    IsDoubleOf(q0, h);
    q0 := Shift128(h, q0, n);
    q0 := Shift128(h, q0, -(2 * h - 1));
    LeadingWord(h, Value(v, h), n, v1t.hi, v1t.lo);
    NestedFloor(h, Value(u, h), v1t.hi, n);
    DivisorIsLarge(h, v, n);
    DoubleBound(h, u);
    TruncationIsSmall(h, Value(u, h), Value(v, h), n);
    EstimateWithinOne(Value(u, h), Value(v, h), Scale(v1t.hi, 2 * h - n));
    ValueOf(q0, h);
    IsZeroDouble(q0, h);
    if q0.hi != 0 || q0.lo != 0 {
      DecrementExact(h, q0);
      q0 := Decrement(q0, p);
    }
    q, r := CorrectQuotient(h, u, v, q0);
  }

  // With a quotient that is exact or one too small: multiply back, subtract,
  // and correct once.
  method CorrectQuotient(h: nat, u: u128, v: u128, estimate: u128) returns (q: nat, r: u128)
    requires h > 0 && IsDouble(u, h) && IsDouble(v, h) && IsDouble(estimate, h)
    requires 0 < v.hi && Value(v, h) > 0
    requires Value(estimate, h) <= Value(u, h) / Value(v, h) <= Value(estimate, h) + 1
    ensures q == Value(u, h) / Value(v, h) && q < Word(h)
    ensures IsDouble(r, h) && Value(r, h) == Value(u, h) % Value(v, h)
  {
    hide *;
    var p := Word(h);
    QuotientIsWord(h, u, v);
    BackProduct(Value(u, h), Value(v, h), Value(estimate, h));
    DoubleBelowSquare(h, u);
    var qv := Multiply(h, estimate, v);
    AtLeastOrders(h, u, qv);
    SubtractExact(h, u, qv);
    r := Subtract(u, qv, p);
    var q0 := estimate;
    WordAsDouble(h, q0);
    AtLeastOrders(h, r, v);
    if AtLeast(r, v) {
      IncrementExact(h, q0);
      q0 := Increment(q0, p);
      SubtractExact(h, r, v);
      r := Subtract(r, v, p);
      WordAsDouble(h, q0);
    }
    q := q0.lo;
  }

  lemma ZeroHigh(lo: nat, p: nat)
    ensures Pair(0, lo, p) == lo
  {
  }

  lemma ZeroShift(n: nat, p: nat)
    requires p > 0
    ensures Scale(0, n) < p
  {
  }

  lemma RemainderIsWord(x: nat, d: nat)
    requires d > 0
    ensures x % d < d
  {
  }

  lemma IsZeroDouble(q: u128, h: nat)
    ensures q.hi == 0 && q.lo == 0 <==> Value(q, h) == 0
  {
    MulNonNeg(q.hi, Word(h));
    if q.hi > 0 {
      MulLe(1, q.hi, Word(h));
    }
  }

  lemma NormalisedTop(h: nat, v: u128, v1t: u128, n: nat)
    requires n < 2 * h && IsDouble(v, h) && IsDouble(v1t, h) && Value(v1t, h) == Scale(Value(v, h), n)
    requires Word(h) <= 2 * Scale(v.hi, n)
    ensures Word(h) <= 2 * v1t.hi
  {
    hide Pow2;
    var p, k := Word(h), Pow2(n);
    MulAdd(v.hi * p, v.lo, k);
    MulAssoc(v.hi, p, k);
    MulAssoc(v.hi, k, p);
    assert p * k == k * p;
    MulNonNeg(v.lo, k);
    assert (v.hi * k) * p <= v1t.hi * p + v1t.lo;
    if v1t.hi < v.hi * k {
      MulLe(v1t.hi + 1, v.hi * k, p);
      MulAdd(v1t.hi, 1, p);
    }
  }

  lemma DivisorIsLarge(h: nat, v: u128, n: nat)
    requires h > 0 && n < 2 * h && Word(h) <= 2 * Scale(v.hi, n)
    ensures Pow2(4 * h - 1 - n) <= Value(v, h)
  {
    var k := Pow2(n);
    var m := Pow2(2 * h - 1 - n);
    Pow2Split(2 * h - 1, n);
    assert Pow2(2 * h) == 2 * Pow2(2 * h - 1);
    assert m * k <= v.hi * k;
    MulCancelLe(m, v.hi, k);
    MulLe(m, v.hi, Word(h));
    Pow2Add(2 * h - 1 - n, 2 * h);
  }

  lemma DoubleBelowSquare(h: nat, u: u128)
    requires IsDouble(u, h)
    ensures Value(u, h) < Prod(Word(h), Word(h))
  {
    var p := Word(h);
    MulLe(u.hi, p - 1, p);
    MulSub(p, 1, p);
  }

  lemma DoubleBound(h: nat, u: u128)
    requires IsDouble(u, h)
    ensures Value(u, h) < Pow2(4 * h)
  {
    DoubleBelowSquare(h, u);
    Pow2Add(2 * h, 2 * h);
  }

  lemma QuotientIsWord(h: nat, u: u128, v: u128)
    requires IsDouble(u, h) && 0 < v.hi && Value(v, h) > 0
    ensures Value(u, h) / Value(v, h) < Word(h)
  {
    var p := Word(h);
    DoubleBelowSquare(h, u);
    MulLe(1, v.hi, p);
    QuotientBelow(Value(u, h), Value(v, h), p, p);
  }

  // What is left after subtracting the estimate's product.
  lemma BackProduct(u: nat, v: nat, e: nat)
    requires v > 0 && e <= u / v <= e + 1
    ensures Prod(e, v) <= u
    ensures u - Prod(e, v) >= v ==> u / v == e + 1 && u % v == u - Prod(e, v) - v
    ensures u - Prod(e, v) < v ==> u / v == e && u % v == u - Prod(e, v)
  {
    DivMod(u, v);
    MulLe(e, u / v, v);
    MulAdd(e, 1, v);
    if u - e * v < v {
      DivModUnique(u, v, e, u - e * v);
    } else if u / v == e {
      assert false;
    }
  }

  // A double word below one word has no high word.
  lemma WordAsDouble(h: nat, q: u128)
    requires IsDouble(q, h) && Value(q, h) < Word(h)
    ensures q.hi == 0 && Value(q, h) == q.lo
    ensures Value(q, h) + 1 < Word(h) ==> q.lo + 1 < Word(h)
  {
    NoHighHalf(q.hi, q.lo, Word(h));
  }
}
