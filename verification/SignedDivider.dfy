/** Signed dividers of libdivide. A signed word is an integer in [-2^(w-1), 2^(w-1))
    with w = 2 * h; casts between signed and unsigned words are explicit. */
module SignedDivider {
  import opened Arith
  import opened LongDivision
  import opened DoubleWord
  import opened UnsignedDivider

  function Half(h: nat): (r: nat)
    requires h > 0
    ensures r > 0 && Word(h) == 2 * r
  {
    Pow2(2 * h - 1)
  }

  predicate IsSigned(x: int, h: nat)
    requires h > 0
  {
    -(Half(h) as int) <= x < Half(h)
  }

  // The value of the two's complement word that holds x modulo 2^w.
  function ToSigned(x: int, h: nat): (r: int)
    requires h > 0
    ensures IsSigned(r, h)
    ensures IsSigned(x, h) ==> r == x
  {
    assert IsSigned(x, h) ==> x % Word(h) == (if x < 0 then x + Word(h) else x) by {
      if IsSigned(x, h) { WordOfSigned(x, h); }
    }
    var u := x % Word(h);
    if u >= Half(h) then u - Word(h) else u
  }

  lemma WordOfSigned(x: int, h: nat)
    requires h > 0 && IsSigned(x, h)
    ensures x % Word(h) == if x < 0 then x + Word(h) else x
  {
    if x >= 0 { SmallDivMod(x, Word(h)); } else { DivModUnique(x, Word(h), -1, x + Word(h)); }
  }

  function Abs(x: int): nat {
    if x < 0 then -x else x
  }

  // Division rounding towards zero.
  function TruncDiv(n: int, d: int): int
    requires d != 0
  {
    if (n >= 0) == (d > 0) then Abs(n) / Abs(d) else -(Abs(n) / Abs(d))
  }

  function MulHiSigned(h: nat, x: int, y: int): int {
    (x * y) / Word(h)
  }

  // Arithmetic right shift.
  function Sar(x: int, k: nat): int {
    x / Pow2(k)
  }

  datatype SignedDivider = SignedDivider(magic: int, more: nat)

  // The shape of more: shift, add marker, negative flag.
  function More(l: nat, add: bool, negative: bool): nat {
    l + (if add then ADD_MARKER else 0) + (if negative then NEGATIVE_DIVISOR else 0)
  }

  function SGen(h: nat, d: int, branchfree: bool): SignedDivider
    requires h > 0 && d != 0 && IsSigned(d, h)
  {
    var p, a := Word(h), Abs(d);
    var l := FloorLog2(a);
    if And(a, a - 1) == 0 then SignedDivider(0, More(l, false, d < 0))
    else
      AndPredIsZero(a);
      assert l > 0;
      var m, rem := FirstQuotient(h, l - 1, a), FirstRemainder(h, l - 1, a);
      var plain := !branchfree && a - rem < Pow2(l);
      var proposed := AddW(if plain then m else DoubledQuotient(m, rem, a, p), 1, p);
      var magic := ToSigned(proposed, h);
      SignedDivider(
        if d < 0 && !branchfree then ToSigned(-magic, h) else magic,
        if plain then More(l - 1, false, d < 0) else More(l, true, d < 0))
  }

  function NegateIf(x: int, negative: bool): int {
    if negative then -x else x
  }

  // x or its negation in word arithmetic, as (x ^ sign) - sign computes it.
  function ApplySign(x: int, negative: bool, h: nat): int
    requires h > 0
  {
    ToSigned(if negative then -x else x, h)
  }

  // The bias that makes an arithmetic shift round towards zero.
  function Bias(x: int, mask: int): int {
    if x < 0 then mask else 0
  }

  function SDo(h: nat, n: int, dv: SignedDivider): int
    requires h > 0
  {
    var shift := Shift(dv.more, h);
    if dv.magic == 0 then
      var q := Sar(ToSigned(n + Bias(n, Pow2(shift) - 1), h), shift);
      ApplySign(q, HasNegativeDivisor(dv.more), h)
    else
      var uq := MulHiSigned(h, dv.magic, n);
      var sum := if HasAddMarker(dv.more) then uq + (if HasNegativeDivisor(dv.more) then -n else n) else uq;
      var q := Sar(ToSigned(sum, h), shift);
      q + if q < 0 then 1 else 0
  }

  function BranchfreeSDo(h: nat, n: int, dv: SignedDivider): int
    requires h > 0
  {
    var shift := Shift(dv.more, h);
    var q := ToSigned(MulHiSigned(h, dv.magic, n) + n, h);
    var biased := ToSigned(q + Bias(q, Pow2(shift) - if dv.magic == 0 then 1 else 0), h);
    ApplySign(Sar(biased, shift), HasNegativeDivisor(dv.more), h)
  }

  // ----- the theory for signed numerators -----

  // With a rounded-up multiplier the floor of the product is the truncated
  // quotient, one lower for negative numerators.
  lemma SignedMagicQuotient(m: nat, t: nat, a: nat, e: nat, n: int)
    requires a > 0 && m > 0 && e > 0 && Prod(m, a) == t + e && Prod(e, Abs(n)) < t
    ensures n >= 0 ==> (m * n) / t == n / a
    ensures n < 0 ==> (m * n) / t == -(-n / a) - 1
  {
    MagicQuotient(m, t, a, e, Abs(n));
    if n < 0 {
      var x := m * (-n);
      assert m * n == -x;
      DivMod(x, t);
      DivModUnique(-x, t, -(x / t) - 1, t - x % t);
    }
  }

  // A shifted floor is the floor by the combined divisor.
  lemma SarOfHigh(h: nat, x: int, l: nat)
    ensures Sar(x / Word(h), l) == x / Unit(h, l)
  {
    DivDiv(x, Word(h), Pow2(l));
    assert Word(h) * Pow2(l) == Pow2(l) * Word(h);
  }

  // ----- what gen produces -----

  // The plain path: the multiplier is below half the word.
  ghost predicate SPlainMagic(h: nat, a: nat, m: nat)
    requires h > 0
  {
    a > 0 && var l := FloorLog2(a);
    && l > 0 && 0 < m < Half(h)
    && Unit(h, l - 1) < Prod(m, a) < Unit(h, l - 1) + Pow2(l)
  }

  // The add path: the multiplier has its top bit set.
  ghost predicate SAddMagic(h: nat, a: nat, m: nat)
    requires h > 0
  {
    a > 0 && var l := FloorLog2(a);
    && Half(h) < m < Word(h)
    && Unit(h, l) < Prod(m, a) <= Unit(h, l) + a
  }

  lemma NotPowerBound(h: nat, a: nat)
    requires h > 0 && 0 < a <= Half(h) && !IsPowerOfTwo(a)
    ensures a < Half(h) && 0 < FloorLog2(a) <= 2 * h - 2
    ensures 2 * Pow2(FloorLog2(a)) <= Half(h)
  {
    var l := FloorLog2(a);
    if a == Half(h) {
      FloorLog2Unique(a, 2 * h - 1);
    }
    if l > 2 * h - 2 {
      Pow2Mono(2 * h - 1, l);
    }
    Pow2StrictMono(l, 2 * h - 1);
  }

  lemma UnitByHalf(h: nat, l: nat)
    requires h > 0
    ensures Unit(h, l) == 2 * Prod(Pow2(l), Half(h))
    ensures l > 0 ==> Unit(h, l - 1) == Prod(Pow2(l), Half(h))
  {
    MulAssoc(2, Half(h), Pow2(l));
    if l > 0 {
      MulAssoc(Pow2(l - 1), 2, Half(h));
    }
  }

  lemma SPlainIsMagic(h: nat, a: nat)
    requires h > 0 && 0 < a <= Half(h) && !IsPowerOfTwo(a)
    requires FloorLog2(a) > 0 && a - FirstRemainder(h, FloorLog2(a) - 1, a) < Pow2(FloorLog2(a))
    ensures SPlainMagic(h, a, FirstQuotient(h, FloorLog2(a) - 1, a) + 1)
  {
    var l := FloorLog2(a);
    NotPowerBound(h, a);
    RoundUp(Unit(h, l - 1), a);
    RemainderNonZero(h, l - 1, a);
    UnitByHalf(h, l);
    var m := FirstQuotient(h, l - 1, a) + 1;
    PlainBelowWord(m, a, Pow2(l), Half(h));
  }

  lemma SAddIsMagic(h: nat, a: nat)
    requires h > 0 && 0 < a <= Half(h) && !IsPowerOfTwo(a) && FloorLog2(a) > 0
    ensures var l := FloorLog2(a); var p := Word(h);
            var q := DoubledQuotient(FirstQuotient(h, l - 1, a), FirstRemainder(h, l - 1, a), a, p);
            q + 1 < p && SAddMagic(h, a, q + 1)
  {
    var l, p := FloorLog2(a), Word(h);
    NotPowerBound(h, a);
    var m0, rem := FirstQuotient(h, l - 1, a), FirstRemainder(h, l - 1, a);
    UnitDoubles(h, l - 1);
    DoubleDivision(Unit(h, l - 1), a);
    RoundUp(Unit(h, l), a);
    UnitByHalf(h, l);
    var big := Unit(h, l) / a;
    DoubledRange(big + 1, a, Pow2(l), Half(h), Unit(h, l));
    assert DoubledQuotient(m0, rem, a, p) == big;
  }

  // ----- the shapes of a signed divider -----

  lemma SGenPowerOfTwo(h: nat, d: int, branchfree: bool)
    requires h > 0 && d != 0 && IsSigned(d, h) && IsPowerOfTwo(Abs(d))
    ensures SGen(h, d, branchfree) == SignedDivider(0, More(FloorLog2(Abs(d)), false, d < 0))
  {
    AndPredIsZero(Abs(d));
    hide FloorLog2, And;
  }

  lemma SGenPlain(h: nat, d: int)
    requires h > 0 && d != 0 && IsSigned(d, h) && !IsPowerOfTwo(Abs(d)) && FloorLog2(Abs(d)) > 0
    requires Abs(d) - FirstRemainder(h, FloorLog2(Abs(d)) - 1, Abs(d)) < Pow2(FloorLog2(Abs(d)))
    ensures var m := FirstQuotient(h, FloorLog2(Abs(d)) - 1, Abs(d)) + 1;
            && SPlainMagic(h, Abs(d), m)
            && SGen(h, d, false) == SignedDivider(if d < 0 then -m else m, More(FloorLog2(Abs(d)) - 1, false, d < 0))
  {
    var a := Abs(d);
    var l := FloorLog2(a);
    AndPredIsZero(a);
    SPlainIsMagic(h, a);
    var m := FirstQuotient(h, l - 1, a) + 1;
    assert 0 < m < Half(h);
    hide FloorLog2, And, Pow2, Unit, FirstQuotient, FirstRemainder, Half, DoubledQuotient;
  }

  // The magic number of the add path, as a signed word.
  function SAddStored(h: nat, m: int, negated: bool): int {
    if negated then Word(h) - m else m - Word(h)
  }

  lemma SGenAdd(h: nat, d: int, branchfree: bool)
    requires h > 0 && d != 0 && IsSigned(d, h) && !IsPowerOfTwo(Abs(d)) && FloorLog2(Abs(d)) > 0
    requires branchfree || Abs(d) - FirstRemainder(h, FloorLog2(Abs(d)) - 1, Abs(d)) >= Pow2(FloorLog2(Abs(d)))
    ensures var a := Abs(d); var l := FloorLog2(a);
            var m := DoubledQuotient(FirstQuotient(h, l - 1, a), FirstRemainder(h, l - 1, a), a, Word(h)) + 1;
            && SAddMagic(h, a, m)
            && SGen(h, d, branchfree)
               == SignedDivider(SAddStored(h, m, d < 0 && !branchfree), More(l, true, d < 0))
  {
    var a := Abs(d);
    var l := FloorLog2(a);
    AndPredIsZero(a);
    SAddIsMagic(h, a);
    var m := DoubledQuotient(FirstQuotient(h, l - 1, a), FirstRemainder(h, l - 1, a), a, Word(h)) + 1;
    assert Half(h) < m < Word(h);
    SmallDivMod(m, Word(h));
    hide FloorLog2, And, Pow2, Unit, FirstQuotient, FirstRemainder, Half, DoubledQuotient;
  }

  // ----- exactness -----

  // Floor of the product, corrected upwards for negative values.
  function Corrected(q: int): int {
    q + if q < 0 then 1 else 0
  }

  // x / a rounded towards zero, for a positive divisor.
  function TruncBy(x: int, a: nat): int
    requires a > 0
  {
    if x >= 0 then x / a else -(-x / a)
  }

  lemma TruncDivBySign(n: int, d: int)
    requires d != 0
    ensures TruncDiv(n, d) == TruncBy(if d < 0 then -n else n, Abs(d))
  {
    if n == 0 {
      SmallDivMod(0, Abs(d));
    }
  }

  // Absolute values of signed words, and of their negations, reach the half word.
  lemma SignedAbs(n: int, negated: bool, h: nat)
    requires h > 0 && IsSigned(n, h)
    ensures Abs(n) <= Half(h) && Abs(if negated then -n else n) <= Half(h)
  {
  }

  lemma AbsPositive(d: int)
    requires d != 0
    ensures Abs(d) > 0
  {
  }

  lemma LogBelowWidth(h: nat, a: nat)
    requires h > 0 && 0 < a <= Half(h)
    ensures FloorLog2(a) < 2 * h
  {
    FloorLog2Bound(a, 2 * h);
  }

  lemma AbsBound(n: int, h: nat)
    requires h > 0 && -(Half(h) as int) <= n <= Half(h)
    ensures Abs(n) <= Half(h)
  {
  }

  // The error stays below the unit for signed numerators.
  lemma SErrorSmall(e: nat, n: nat, k: nat, half: nat)
    requires 0 < k && e < k && n <= half && 0 < half
    ensures Prod(e, n) < Prod(k, half)
  {
    MulLe(n, half, e);
    MulLt(e, k, half);
  }

  lemma SPlainQuotient(h: nat, a: nat, m: nat, x: int)
    requires h > 0 && SPlainMagic(h, a, m) && Abs(x) <= Half(h)
    ensures Corrected(Sar(MulHiSigned(h, m, x), FloorLog2(a) - 1)) == TruncBy(x, a)
  {
    var l := FloorLog2(a);
    var e := Prod(m, a) - Unit(h, l - 1);
    UnitByHalf(h, l);
    SErrorSmall(e, Abs(x), Pow2(l), Half(h));
    SignedMagicQuotient(m, Unit(h, l - 1), a, e, x);
    SarOfHigh(h, m * x, l - 1);
    hide Unit, Pow2, FloorLog2, Half, Sar;
    CorrectedIsTrunc(x, a, (m * x) / Unit(h, l - 1));
  }

  lemma SAddQuotient(h: nat, a: nat, m: nat, x: int)
    requires h > 0 && SAddMagic(h, a, m) && Abs(x) <= Half(h)
    ensures Corrected(Sar(MulHiSigned(h, m, x), FloorLog2(a))) == TruncBy(x, a)
  {
    var l := FloorLog2(a);
    var e := Prod(m, a) - Unit(h, l);
    UnitByHalf(h, l);
    MulAssoc(2, Pow2(l), Half(h));
    SErrorSmall(e, Abs(x), 2 * Pow2(l), Half(h));
    SignedMagicQuotient(m, Unit(h, l), a, e, x);
    SarOfHigh(h, m * x, l);
    hide Unit, Pow2, FloorLog2, Half, Sar;
    CorrectedIsTrunc(x, a, (m * x) / Unit(h, l));
  }

  lemma CorrectedIsTrunc(x: int, a: nat, q: int)
    requires a > 0
    requires x >= 0 ==> q == x / a
    requires x < 0 ==> q == -(-x / a) - 1
    ensures Corrected(q) == TruncBy(x, a)
    ensures x >= 0 ==> q >= 0
    ensures x < 0 ==> q < 0
  {
    DivNonNeg(Abs(x), a);
  }

  // A product with a multiplier below the word has a signed high word.
  lemma HighIsSigned(h: nat, m: nat, x: int)
    requires h > 0 && m < Word(h) && Abs(x) <= Half(h)
    ensures IsSigned(MulHiSigned(h, m, x), h)
  {
    HighBetween(m, x, Half(h), Word(h));
    hide Half, Word;
  }

  lemma HighBetween(m: int, x: int, half: int, p: int)
    requires 0 <= m < p && -half <= x <= half && p == 2 * half
    ensures -half <= (m * x) / p < half
  {
    if x >= 0 {
      ProductBetween(m, x, half, p);
      MulNonNeg(m, x);
      DivUpper(m * x, p, half);
      DivNonNeg(m * x, p);
    } else {
      ProductBetween(m, -x, half, p);
      NegatedProduct(m, x);
      MulSub(0, half, p);
      MulNonNeg(m, -x);
      DivLower(m * x, p, -half);
      DivUpper(m * x, p, half);
    }
  }

  lemma ProductBetween(m: int, y: int, half: int, p: int)
    requires 0 <= m < p && 0 <= y <= half && p == 2 * half
    ensures m * y < half * p
  {
    MulLe(y, half, m);
    MulLt(m, p, half);
  }

  lemma NegatedProduct(m: int, n: int)
    ensures (-m) * n == m * (-n)
  {
  }

  lemma StoredProduct(h: nat, m: nat, n: int, negative: bool)
    ensures MulHiSigned(h, SAddStored(h, m, negative), n) + (if negative then -n else n)
            == MulHiSigned(h, m, if negative then -n else n)
  {
    var p := Word(h);
    var x := if negative then -n else n;
    assert SAddStored(h, m, negative) * n == (m - p) * x;
    MulSub(m, p, x);
    assert p * x == x * p;
    AddMulDiv((m - p) * x, x, p);
  }

  // The byte of a signed divider decodes to what was packed.
  lemma MoreDecodes(h: nat, l: nat, add: bool, negative: bool)
    requires WordSize(h) && l < 2 * h
    ensures h > 0
    ensures Shift(More(l, add, negative), h) == l
    ensures HasAddMarker(More(l, add, negative)) == add
    ensures HasNegativeDivisor(More(l, add, negative)) == negative
  {
    MoreFields(h, l, add, negative);
  }

  // Truncating division by a power of two with a biased arithmetic shift.
  lemma BiasedShift(h: nat, x: int, l: nat)
    requires h > 0 && IsSigned(x, h) && l < 2 * h
    ensures IsSigned(x + Bias(x, Pow2(l) - 1), h)
    ensures Sar(x + Bias(x, Pow2(l) - 1), l) == TruncBy(x, Pow2(l))
    ensures IsSigned(TruncBy(x, Pow2(l)), h)
  {
    var k := Pow2(l);
    Pow2Mono(l, 2 * h - 1);
    DivNonNeg(Abs(x), k);
    if x < 0 {
      DivMod(-x, k);
      MulSub(0, -x / k, k);
      DivModUnique(x + k - 1, k, -(-x / k), k - 1 - -x % k);
    }
  }

  // The paths of the signed division.
  lemma SDoPaths(h: nat, n: int, dv: SignedDivider)
    requires h > 0
    ensures dv.magic == 0 ==>
              SDo(h, n, dv)
              == ApplySign(Sar(ToSigned(n + Bias(n, Pow2(Shift(dv.more, h)) - 1), h), Shift(dv.more, h)),
                           HasNegativeDivisor(dv.more), h)
    ensures dv.magic != 0 && !HasAddMarker(dv.more) ==>
              SDo(h, n, dv) == Corrected(Sar(ToSigned(MulHiSigned(h, dv.magic, n), h), Shift(dv.more, h)))
    ensures dv.magic != 0 && HasAddMarker(dv.more) ==>
              SDo(h, n, dv)
              == Corrected(Sar(ToSigned(MulHiSigned(h, dv.magic, n)
                                        + (if HasNegativeDivisor(dv.more) then -n else n), h),
                               Shift(dv.more, h)))
  {
    hide Pow2, Shift, HasAddMarker, HasNegativeDivisor, ToSigned, Sar, MulHiSigned, ApplySign, Bias;
  }

  // Division through the signed divider truncates towards zero; the only
  // quotient that does not fit wraps.
  lemma SDividesExactly(h: nat, d: int, n: int)
    requires WordSize(h) && h > 0 && d != 0 && IsSigned(d, h) && IsSigned(n, h)
    ensures SDo(h, n, SGen(h, d, false)) == ToSigned(TruncDiv(n, d), h)
  {
    var a := Abs(d);
    AbsBound(d, h);
    AbsBound(n, h);
    TruncDivBySign(n, d);
    if IsPowerOfTwo(a) {
      SDividesByPower(h, d, n);
    } else {
      NotPowerBound(h, a);
      if a - FirstRemainder(h, FloorLog2(a) - 1, a) < Pow2(FloorLog2(a)) {
        SDividesPlain(h, d, n);
      } else {
        SDividesAdd(h, d, n);
      }
      hide *;
      TruncFits(n, d, h);
    }
  }

  // A divisor of at least two keeps the quotient in range.
  lemma TruncFits(n: int, d: int, h: nat)
    requires h > 0 && IsSigned(n, h) && Abs(d) > 1
    ensures IsSigned(TruncDiv(n, d), h)
  {
    DivNonNeg(Abs(n), Abs(d));
    DivMod(Abs(n), Abs(d));
    var q := Abs(n) / Abs(d);
    MulLe(2, Abs(d), q);
    assert 2 * q <= Abs(n);
  }

  lemma SDividesByPower(h: nat, d: int, n: int)
    requires WordSize(h) && h > 0 && d != 0 && IsSigned(d, h) && IsSigned(n, h) && IsPowerOfTwo(Abs(d))
    ensures SDo(h, n, SGen(h, d, false)) == ToSigned(TruncDiv(n, d), h)
  {
    hide *;
    AbsPositive(d);
    var l := FloorLog2(Abs(d));
    SignedAbs(d, false, h);
    LogBelowWidth(h, Abs(d));
    SGenPowerOfTwo(h, d, false);
    MoreDecodes(h, l, false, d < 0);
    SDoPaths(h, n, SGen(h, d, false));
    BiasedShift(h, n, l);
    PowerValue(Abs(d));
    SignedTrunc(n, d, h);
  }

  lemma SignedTrunc(n: int, d: int, h: nat)
    requires h > 0 && d != 0
    ensures ApplySign(TruncBy(n, Abs(d)), d < 0, h) == ToSigned(TruncDiv(n, d), h)
  {
    TruncDivBySign(n, d);
    DivNonNeg(Abs(n), Abs(d));
    hide ToSigned;
  }

  lemma SDividesPlain(h: nat, d: int, n: int)
    requires WordSize(h) && h > 0 && d != 0 && IsSigned(d, h) && IsSigned(n, h) && !IsPowerOfTwo(Abs(d))
    requires FloorLog2(Abs(d)) > 0
    requires Abs(d) - FirstRemainder(h, FloorLog2(Abs(d)) - 1, Abs(d)) < Pow2(FloorLog2(Abs(d)))
    ensures SDo(h, n, SGen(h, d, false)) == TruncDiv(n, d)
    ensures Abs(d) > 1
  {
    hide *;
    AbsPositive(d);
    var a := Abs(d);
    var l := FloorLog2(a);
    var m := FirstQuotient(h, l - 1, a) + 1;
    var x := if d < 0 then -n else n;
    SignedAbs(d, false, h);
    SignedAbs(n, d < 0, h);
    NotPowerBound(h, a);
    PowerAboveOne(a);
    SGenPlain(h, d);
    MagicRange(h, a, m);
    MoreDecodes(h, l - 1, false, d < 0);
    SDoPaths(h, n, SGen(h, d, false));
    NegatedProduct(m, n);
    SignedHigh(h, if d < 0 then -m else m, n, m, x);
    HighIsSigned(h, m, x);
    SPlainQuotient(h, a, m, x);
    TruncDivBySign(n, d);
  }

  lemma SignedHigh(h: nat, m1: int, n1: int, m2: int, n2: int)
    requires m1 * n1 == m2 * n2
    ensures MulHiSigned(h, m1, n1) == MulHiSigned(h, m2, n2)
  {
  }

  lemma MagicRange(h: nat, a: nat, m: nat)
    requires h > 0
    ensures SPlainMagic(h, a, m) ==> 0 < m < Word(h)
    ensures SAddMagic(h, a, m) ==> 0 < m < Word(h) && SAddStored(h, m, true) != 0 && SAddStored(h, m, false) != 0
  {
  }

  lemma PowerAboveOne(a: nat)
    requires a > 0 && FloorLog2(a) > 0
    ensures a > 1
  {
  }

  lemma SDividesAdd(h: nat, d: int, n: int)
    requires WordSize(h) && h > 0 && d != 0 && IsSigned(d, h) && IsSigned(n, h) && !IsPowerOfTwo(Abs(d))
    requires FloorLog2(Abs(d)) > 0
    requires Abs(d) - FirstRemainder(h, FloorLog2(Abs(d)) - 1, Abs(d)) >= Pow2(FloorLog2(Abs(d)))
    ensures SDo(h, n, SGen(h, d, false)) == TruncDiv(n, d)
    ensures Abs(d) > 1
  {
    hide *;
    AbsPositive(d);
    var a := Abs(d);
    var l := FloorLog2(a);
    var m := DoubledQuotient(FirstQuotient(h, l - 1, a), FirstRemainder(h, l - 1, a), a, Word(h)) + 1;
    var x := if d < 0 then -n else n;
    SignedAbs(d, false, h);
    SignedAbs(n, d < 0, h);
    NotPowerBound(h, a);
    PowerAboveOne(a);
    SGenAdd(h, d, false);
    MagicRange(h, a, m);
    MoreDecodes(h, l, true, d < 0);
    SDoPaths(h, n, SGen(h, d, false));
    StoredProduct(h, m, n, d < 0);
    HighIsSigned(h, m, x);
    SAddQuotient(h, a, m, x);
    TruncDivBySign(n, d);
  }

  // ----- the branchfree form -----

  // Adding 2^l before the shift adds one after it.
  lemma BiasedFull(h: nat, q: int, l: nat)
    requires h > 0 && IsSigned(q, h) && Pow2(l) <= Half(h)
    ensures IsSigned(q + Bias(q, Pow2(l)), h)
    ensures Sar(q + Bias(q, Pow2(l)), l) == Corrected(Sar(q, l))
  {
    var k := Pow2(l);
    AddMulDiv(q, 1, k);
    if q >= 0 {
      DivNonNeg(q, k);
    } else {
      DivUpper(q, k, 0);
    }
  }

  lemma BranchfreeParts(h: nat, n: int, dv: SignedDivider)
    requires h > 0
    ensures var shift := Shift(dv.more, h);
            var q := ToSigned(MulHiSigned(h, dv.magic, n) + n, h);
            BranchfreeSDo(h, n, dv)
            == ApplySign(Sar(ToSigned(q + Bias(q, Pow2(shift) - if dv.magic == 0 then 1 else 0), h), shift),
                         HasNegativeDivisor(dv.more), h)
  {
    hide Pow2, Shift, HasNegativeDivisor, ToSigned, Sar, MulHiSigned, ApplySign, Bias;
  }

  lemma ZeroHighProduct(h: nat, n: int)
    ensures MulHiSigned(h, 0, n) == 0
  {
    SmallDivMod(0, Word(h));
  }

  lemma BranchfreeSDividesExactly(h: nat, d: int, n: int)
    requires WordSize(h) && h > 0 && d != 0 && IsSigned(d, h) && IsSigned(n, h)
    ensures BranchfreeSDo(h, n, SGen(h, d, true)) == ToSigned(TruncDiv(n, d), h)
  {
    hide *;
    AbsPositive(d);
    var a, dv := Abs(d), SGen(h, d, true);
    var l := FloorLog2(a);
    SignedAbs(d, false, h);
    SignedAbs(n, false, h);
    LogBelowWidth(h, a);
    BranchfreeParts(h, n, dv);
    if IsPowerOfTwo(a) {
      SGenPowerOfTwo(h, d, true);
      MoreDecodes(h, l, false, d < 0);
      ZeroHighProduct(h, n);
      BiasedShift(h, n, l);
      PowerValue(a);
    } else {
      NotPowerBound(h, a);
      SGenAdd(h, d, true);
      var m := DoubledQuotient(FirstQuotient(h, l - 1, a), FirstRemainder(h, l - 1, a), a, Word(h)) + 1;
      MagicRange(h, a, m);
      MoreDecodes(h, l, true, d < 0);
      StoredProduct(h, m, n, false);
      HighIsSigned(h, m, n);
      BiasedFull(h, MulHiSigned(h, m, n), l);
      SAddQuotient(h, a, m, n);
    }
    SignedTrunc(n, d, h);
  }

  // ----- recovering the divisor -----

  function SRecover(h: nat, dv: SignedDivider): int
    requires h > 0
  {
    var shift, p := Shift(dv.more, h), Word(h);
    if dv.magic == 0 then
      ApplySign(Pow2(shift), HasNegativeDivisor(dv.more), h)
    else
      var negated := if HasAddMarker(dv.more) then dv.magic > 0 else dv.magic < 0;
      var m := (if negated then -dv.magic else dv.magic) % p;
      if m == 0 then 0
      else ApplySign(ToSigned(Pair(Pow2(shift), 0, p) / m + 1, h), HasNegativeDivisor(dv.more), h)
  }

  lemma SRecoverParts(h: nat, dv: SignedDivider, m: nat)
    requires h > 0 && m > 0
    requires dv.magic != 0
             && m == (if (if HasAddMarker(dv.more) then dv.magic > 0 else dv.magic < 0)
                      then -dv.magic else dv.magic) % Word(h)
    ensures SRecover(h, dv)
            == ApplySign(ToSigned(Pair(Pow2(Shift(dv.more, h)), 0, Word(h)) / m + 1, h),
                         HasNegativeDivisor(dv.more), h)
  {
    hide Pow2, Shift, HasAddMarker, HasNegativeDivisor, ToSigned, ApplySign, Pair, Word;
  }

  lemma SRecoverShift(h: nat, dv: SignedDivider)
    requires h > 0 && dv.magic == 0
    ensures SRecover(h, dv) == ApplySign(Pow2(Shift(dv.more, h)), HasNegativeDivisor(dv.more), h)
  {
    hide Pow2, Shift, HasNegativeDivisor, ToSigned, ApplySign;
  }

  lemma SPlainRecovers(h: nat, a: nat, m: nat)
    requires h > 0 && SPlainMagic(h, a, m) && 2 * Pow2(FloorLog2(a)) <= Half(h)
    ensures Pair(Pow2(FloorLog2(a) - 1), 0, Word(h)) / m + 1 == a
  {
    var l := FloorLog2(a);
    UnitByHalf(h, l);
    PlainMagicIsLarge(m, a, Pow2(l), Half(h));
    QuotientOfMagic(m, Unit(h, l - 1), a);
  }

  lemma SAddRecovers(h: nat, a: nat, m: nat)
    requires h > 0 && SAddMagic(h, a, m) && a <= Half(h)
    ensures Pair(Pow2(FloorLog2(a)), 0, Word(h)) / m + 1 == a
  {
    QuotientOfMagic(m, Unit(h, FloorLog2(a)), a);
  }

  lemma NegateIs(x: int, negative: bool)
    ensures NegateIf(x, negative) == if negative then -x else x
  {
  }

  // The multiplier read back from the stored magic number.
  lemma StoredMagic(h: nat, m: nat, stored: int, add: bool, negated: bool)
    requires h > 0 && 0 < m < Word(h)
    requires stored == if add then SAddStored(h, m, negated) else NegateIf(m, negated)
    requires stored != 0
    ensures m == (if (if add then stored > 0 else stored < 0) then -stored else stored) % Word(h)
  {
    var p := Word(h);
    SmallDivMod(m, p);
    if add {
      DivModUnique(m - p, p, -1, m);
    }
  }

  lemma ApplySignToAbs(h: nat, d: int)
    requires h > 0 && d != 0 && IsSigned(d, h)
    ensures ApplySign(Abs(d), d < 0, h) == d
    ensures Abs(d) < Half(h) ==> ApplySign(ToSigned(Abs(d), h), d < 0, h) == d
  {
  }

  // Recovery inverts generation for both forms and every divisor.
  lemma SRecoverInvertsGen(h: nat, d: int, branchfree: bool)
    requires WordSize(h) && h > 0 && d != 0 && IsSigned(d, h)
    ensures SRecover(h, SGen(h, d, branchfree)) == d
  {
    hide *;
    AbsPositive(d);
    var a, dv := Abs(d), SGen(h, d, branchfree);
    var l := FloorLog2(a);
    SignedAbs(d, false, h);
    LogBelowWidth(h, a);
    ApplySignToAbs(h, d);
    if IsPowerOfTwo(a) {
      SGenPowerOfTwo(h, d, branchfree);
      MoreDecodes(h, l, false, d < 0);
      PowerValue(a);
      SRecoverShift(h, dv);
    } else {
      NotPowerBound(h, a);
      if !branchfree && a - FirstRemainder(h, l - 1, a) < Pow2(l) {
        SGenPlain(h, d);
        var m := FirstQuotient(h, l - 1, a) + 1;
        MagicRange(h, a, m);
        MoreDecodes(h, l - 1, false, d < 0);
        assert dv.magic == NegateIf(m, d < 0) by { NegateIs(m, d < 0); }
        StoredMagic(h, m, dv.magic, false, d < 0);
        SRecoverParts(h, dv, m);
        SPlainRecovers(h, a, m);
      } else {
        SGenAdd(h, d, branchfree);
        var m := DoubledQuotient(FirstQuotient(h, l - 1, a), FirstRemainder(h, l - 1, a), a, Word(h)) + 1;
        MagicRange(h, a, m);
        MoreDecodes(h, l, true, d < 0);
        StoredMagic(h, m, dv.magic, true, d < 0 && !branchfree);
        SRecoverParts(h, dv, m);
        SAddRecovers(h, a, m);
      }
    }
  }

  // ----- gen as the source computes it -----

  method InternalSGen(h: nat, d: int, branchfree: bool) returns (result: SignedDivider)
    requires WordSize(h) && h > 0 && d != 0 && IsSigned(d, h)
    ensures result == SGen(h, d, branchfree)
  {
    hide *;
    AbsPositive(d);
    SignedAbs(d, false, h);
    var p, a := Word(h), Abs(d);
    var l := FloorLog2(a);
    SGenCases(h, d, branchfree);
    if And(a, a - 1) == 0 {
      result := SignedDivider(0, More(l, false, d < 0));
    } else {
      LogDigits(h, a);
      WordIsTwiceHalf(h);
      var proposed, rem := DivideWords(h, Pow2(l - 1), 0, a);
      FirstDivision(h, l - 1, a);
      var e := a - rem;
      var add := branchfree || e >= Pow2(l);
      if add {
        DoubledQuotientIs(proposed, rem, a, p);
        var doubled := AddW(proposed, proposed, p);
        var twice := AddW(rem, rem, p);
        proposed := if twice >= a || twice < rem then AddW(doubled, 1, p) else doubled;
      }
      proposed := AddW(proposed, 1, p);
      var magic := ToSigned(proposed, h);
      if d < 0 && !branchfree {
        magic := ToSigned(-magic, h);
      }
      result := SignedDivider(magic, More(if add then l else l - 1, add, d < 0));
    }
  }

  lemma FirstDivision(h: nat, l: nat, a: nat)
    requires a > 0
    ensures FirstQuotient(h, l, a) == Pair(Pow2(l), 0, Word(h)) / a
    ensures FirstRemainder(h, l, a) == Pair(Pow2(l), 0, Word(h)) % a
  {
  }

  lemma DoubledQuotientIs(q: nat, rem: nat, d: nat, p: nat)
    requires p > 0
    ensures var twice := AddW(rem, rem, p);
            DoubledQuotient(q, rem, d, p)
            == if twice >= d || twice < rem then AddW(AddW(q, q, p), 1, p) else AddW(q, q, p)
  {
  }

  lemma LogDigits(h: nat, a: nat)
    requires h > 0 && 0 < a <= Half(h) && FloorLog2(a) > 0
    ensures Pow2(FloorLog2(a) - 1) < a
  {
  }

  lemma SGenCases(h: nat, d: int, branchfree: bool)
    requires h > 0 && d != 0 && IsSigned(d, h) && Abs(d) > 0
    ensures var a := Abs(d); var l := FloorLog2(a);
            if And(a, a - 1) == 0 then SGen(h, d, branchfree) == SignedDivider(0, More(l, false, d < 0))
            else
              l > 0 &&
              var m, rem := FirstQuotient(h, l - 1, a), FirstRemainder(h, l - 1, a);
              var plain := !branchfree && a - rem < Pow2(l);
              var magic := ToSigned(AddW(if plain then m else DoubledQuotient(m, rem, a, Word(h)), 1, Word(h)), h);
              SGen(h, d, branchfree)
              == SignedDivider(if d < 0 && !branchfree then ToSigned(-magic, h) else magic,
                               More(if plain then l - 1 else l, !plain, d < 0))
  {
    hide *;
    LogPositive(Abs(d));
    if And(Abs(d), Abs(d) - 1) == 0 {
      SGenPower(h, d, branchfree);
    } else {
      SGenMagic(h, d, branchfree);
    }
  }

  lemma LogPositive(a: nat)
    requires a > 0
    ensures And(a, a - 1) != 0 ==> FloorLog2(a) > 0
  {
    AndPredIsZero(a);
    if FloorLog2(a) == 0 {
      Pow2Zero();
    }
    hide FloorLog2, And, Pow2;
  }

  lemma SGenPower(h: nat, d: int, branchfree: bool)
    requires h > 0 && d != 0 && IsSigned(d, h) && Abs(d) > 0 && And(Abs(d), Abs(d) - 1) == 0
    ensures SGen(h, d, branchfree) == SignedDivider(0, More(FloorLog2(Abs(d)), false, d < 0))
  {
    hide FloorLog2, And, Word, Pow2, ToSigned, FirstQuotient, FirstRemainder, DoubledQuotient, More, AddW, IsSigned;
  }

  lemma SGenMagic(h: nat, d: int, branchfree: bool)
    requires h > 0 && d != 0 && IsSigned(d, h) && Abs(d) > 0 && And(Abs(d), Abs(d) - 1) != 0
    requires FloorLog2(Abs(d)) > 0
    ensures var a := Abs(d); var l := FloorLog2(a);
            var m, rem := FirstQuotient(h, l - 1, a), FirstRemainder(h, l - 1, a);
            var plain := !branchfree && a - rem < Pow2(l);
            var magic := ToSigned(AddW(if plain then m else DoubledQuotient(m, rem, a, Word(h)), 1, Word(h)), h);
            SGen(h, d, branchfree)
            == SignedDivider(if d < 0 && !branchfree then ToSigned(-magic, h) else magic,
                             More(if plain then l - 1 else l, !plain, d < 0))
  {
    hide FloorLog2, And, Word, Pow2, ToSigned, FirstQuotient, FirstRemainder, DoubledQuotient, More, AddW, IsSigned;
  }

  lemma WordIsTwiceHalf(h: nat)
    requires h > 0
    ensures Word(h) == 2 * Half(h)
  {
  }
}
