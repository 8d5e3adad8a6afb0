/** Unsigned dividers of libdivide: division by an invariant divisor through a
    precomputed magic number. Words have 2 * h bits; the source instantiates
    h = 16 (u32) and h = 32 (u64). */
module UnsignedDivider {
  import opened Arith
  import opened LongDivision
  import opened DoubleWord

  // The byte `more` packs a shift with two flags.
  const ADD_MARKER := 0x40
  const NEGATIVE_DIVISOR := 0x80

  ghost predicate WordSize(h: nat) {
    h == 16 || h == 32
  }

  function Shift(more: nat, h: nat): nat
    requires h > 0
  {
    more % (2 * h)
  }

  predicate HasAddMarker(more: nat) {
    (more / ADD_MARKER) % 2 == 1
  }

  predicate HasNegativeDivisor(more: nat) {
    (more / NEGATIVE_DIVISOR) % 2 == 1
  }

  datatype Divider = Divider(magic: nat, more: nat)

  // {2^l, 0} / d, the first guess for the magic number, and its remainder.
  function FirstQuotient(h: nat, l: nat, d: nat): nat
    requires d > 0
  {
    DivNonNeg(Pair(Pow2(l), 0, Word(h)), d);
    Pair(Pow2(l), 0, Word(h)) / d
  }

  function FirstRemainder(h: nat, l: nat, d: nat): (r: nat)
    requires d > 0
    ensures r < d
  {
    Pair(Pow2(l), 0, Word(h)) % d
  }

  // Quotient doubled with the remainder's carry, in word arithmetic.
  function DoubledQuotient(q: nat, rem: nat, d: nat, p: nat): (r: nat)
    requires p > 0
    ensures r < p
  {
    var twice := AddW(rem, rem, p);
    var doubled := AddW(q, q, p);
    if twice >= d || twice < rem then AddW(doubled, 1, p) else doubled
  }

  // The divider that gen computes for d, in the branchfull and branchfree forms.
  function Gen(h: nat, d: nat, branchfree: bool): Divider
    requires 0 < d < Word(h) && (branchfree ==> d != 1)
  {
    var p, l := Word(h), FloorLog2(d);
    if And(d, d - 1) == 0 then
      AndPredIsZero(d);
      assert branchfree ==> l > 0;
      Divider(0, if branchfree then l - 1 else l)
    else
      var m, rem := FirstQuotient(h, l, d), FirstRemainder(h, l, d);
      if !branchfree && d - rem < Pow2(l) then
        Divider(AddW(1, m, p), l)
      else
        Divider(AddW(1, DoubledQuotient(m, rem, d, p), p), l + ADD_MARKER)
  }

  function MulHi(h: nat, x: nat, y: nat): nat {
    DivNonNeg(Prod(x, y), Word(h));
    Prod(x, y) / Word(h)
  }

  // The halved sum (n + q) / 2 without the carry that n + q would need.
  function HalfSum(n: nat, q: nat, p: nat): nat
    requires p > 0
  {
    AddW(Shr((n - q) % p, 1), q, p)
  }

  function Do(h: nat, n: nat, dv: Divider): nat
    requires h > 0
  {
    if dv.magic == 0 then Shr(n, dv.more)
    else
      var q := MulHi(h, dv.magic, n);
      if HasAddMarker(dv.more) then Shr(HalfSum(n, q, Word(h)), Shift(dv.more, h))
      else Shr(q, dv.more)
  }

  function BranchfreeGen(h: nat, d: nat): Divider
    requires h > 0 && 1 < d < Word(h)
  {
    var t := Gen(h, d, true);
    Divider(t.magic, Shift(t.more, h))
  }

  function BranchfreeDo(h: nat, n: nat, dv: Divider): nat {
    Shr(HalfSum(n, MulHi(h, dv.magic, n), Word(h)), dv.more)
  }

  // ----- the packed byte -----

  lemma MoreFields(h: nat, l: nat, add: bool, negative: bool)
    requires WordSize(h) && l < 2 * h
    ensures var more := l + (if add then ADD_MARKER else 0) + (if negative then NEGATIVE_DIVISOR else 0);
            Shift(more, h) == l && HasAddMarker(more) == add && HasNegativeDivisor(more) == negative
  {
  }

  // ----- the theory of magic numbers -----

  // A multiplier m with m * d == t + e divides exactly as long as the error
  // term e * n stays below t.
  lemma MagicQuotient(m: nat, t: nat, d: nat, e: nat, n: nat)
    requires d > 0 && Prod(m, d) == t + e && Prod(e, n) < t
    ensures Prod(m, n) / t == n / d
    ensures n > 0 && e > 0 && m > 0 ==> Prod(m, n) % t > 0
  {
    var q, r := n / d, n % d;
    DivMod(n, d);
    DivNonNeg(n, d);
    MulNonNeg(q, e);
    MulNonNeg(m, r);
    var s := q * e + m * r;
    MagicSum(m, t, d, e, n, q, r);
    MagicRemainder(m, t, d, e, n, q, r);
    DivModUnique(m * n, t, q, s);
    if n > 0 && e > 0 && m > 0 {
      if q > 0 {
        MulPos(q, e);
      } else {
        assert r == n;
        MulPos(m, r);
      }
    }
  }

  lemma MagicSum(m: nat, t: nat, d: nat, e: nat, n: nat, q: nat, r: nat)
    requires Prod(m, d) == t + e && n == q * d + r
    ensures m * n == q * t + (q * e + m * r)
  {
    assert m * n == m * (q * d) + m * r;
    assert m * (q * d) == q * (m * d) by {
      MulAssoc(m, q, d);
      MulAssoc(q, m, d);
    }
    assert q * (t + e) == q * t + q * e;
  }

  lemma MagicRemainder(m: nat, t: nat, d: nat, e: nat, n: nat, q: nat, r: nat)
    requires d > 0 && Prod(m, d) == t + e && n == q * d + r && r < d && Prod(e, n) < t
    ensures q * e + m * r < t
  {
    var s := q * e + m * r;
    assert s * d == e * n + r * t by {
      MulAdd(q * e, m * r, d);
      assert (q * e) * d == e * (q * d) by {
        MulAssoc(e, q, d);
      }
      assert (m * r) * d == r * (m * d) by {
        MulAssoc(r, m, d);
      }
      assert r * (t + e) == r * t + r * e;
      assert e * (q * d + r) == e * (q * d) + e * r;
    }
    MulAdd(r, 1, t);
    MulLe(r + 1, d, t);
    assert s * d < t * d;
    MulCancelLt(s, t, d);
  }

  // Doubling a quotient.
  lemma DoubleDivision(x: nat, d: nat)
    requires d > 0
    ensures (2 * x) / d == 2 * (x / d) + (if 2 * (x % d) >= d then 1 else 0)
    ensures (2 * x) % d == 2 * (x % d) - (if 2 * (x % d) >= d then d else 0)
  {
    var q, r := x / d, x % d;
    DivMod(x, d);
    MulAssoc(2, q, d);
    if 2 * r >= d {
      MulAdd(2 * q, 1, d);
      DivModUnique(2 * x, d, 2 * q + 1, 2 * r - d);
    } else {
      DivModUnique(2 * x, d, 2 * q, 2 * r);
    }
  }

  // ----- what gen produces -----

  // The scaled unit 2^l * p that a magic number approximates.
  function Unit(h: nat, l: nat): (t: nat)
    ensures t > 0
  {
    MulPos(Pow2(l), Word(h));
    Pair(Pow2(l), 0, Word(h))
  }

  lemma UnitDoubles(h: nat, l: nat)
    ensures Unit(h, l + 1) == 2 * Unit(h, l)
  {
    MulAssoc(2, Pow2(l), Word(h));
  }

  // Rounding the quotient up: (x / d + 1) * d overshoots x by d - x % d.
  lemma RoundUp(x: nat, d: nat)
    requires d > 0
    ensures x / d >= 0 && Prod(x / d + 1, d) == x + (d - x % d)
  {
    DivMod(x, d);
    DivNonNeg(x, d);
    MulAdd(x / d, 1, d);
  }

  // Only powers of two divide a power of two, so gen's remainder is nonzero.
  lemma {:induction false} DivisorOfPower(d: nat, c: nat, k: nat)
    requires d > 0 && d * c == Pow2(k)
    ensures IsPowerOfTwo(d)
    decreases k
  {
    if k == 0 {
      if d > 1 {
        assert c != 0;
        MulLe(1, c, d);
        assert false;
      }
    } else if d % 2 == 0 {
      assert d == 2 * (d / 2);
      MulAssoc(2, d / 2, c);
      DivisorOfPower(d / 2, c, k - 1);
    } else {
      OddTimes(d, c, Pow2(k - 1));
      DivisorOfPower(d, c / 2, k - 1);
    }
  }

  lemma OddTimes(d: nat, c: nat, x: nat)
    requires d % 2 == 1 && d * c == 2 * x
    ensures d * (c / 2) == x
  {
    var a, b := d / 2, c / 2;
    assert d == 2 * a + 1;
    MulAdd(2 * a, 1, c);
    MulAssoc(2, a, c);
    assert c == 2 * (x - a * c);
    assert c == 2 * b;
    MulAssoc(d, 2, b);
    assert d * c == 2 * (d * b);
  }

  lemma RemainderNonZero(h: nat, l: nat, d: nat)
    requires d > 0 && !IsPowerOfTwo(d)
    ensures 0 < FirstRemainder(h, l, d) < d
  {
    var x := Pair(Pow2(l), 0, Word(h));
    if x % d == 0 {
      DivMod(x, d);
      DivNonNeg(x, d);
      Pow2Add(l, 2 * h);
      DivisorOfPower(d, x / d, l + 2 * h);
    }
  }

  // The plain path: the rounded-up first quotient is a word.
  ghost predicate PlainMagic(h: nat, d: nat, m: nat) {
    d > 0 && var l := FloorLog2(d);
    && 0 < m < Word(h)
    && Unit(h, l) < Prod(m, d) < Unit(h, l) + Pow2(l)
  }

  lemma PlainIsMagic(h: nat, d: nat)
    requires h > 0 && 0 < d < Word(h) && !IsPowerOfTwo(d)
    requires d - FirstRemainder(h, FloorLog2(d), d) < Pow2(FloorLog2(d))
    ensures FirstQuotient(h, FloorLog2(d), d) + 1 < Word(h)
    ensures PlainMagic(h, d, FirstQuotient(h, FloorLog2(d), d) + 1)
  {
    var l := FloorLog2(d);
    RoundUp(Unit(h, l), d);
    RemainderNonZero(h, l, d);
    FloorLog2Bound(d, 2 * h);
    var m := FirstQuotient(h, l, d) + 1;
    assert Unit(h, l) < Prod(m, d) < Unit(h, l) + Pow2(l);
    PlainBelowWord(m, d, Pow2(l), Word(h));
  }

  lemma PlainBelowWord(m: nat, d: nat, k: nat, p: nat)
    requires k < d && Prod(m, d) < k * p + k && k <= p
    ensures m < p
  {
    if p <= m {
      MulLe(p, m, d);
      MulLe(k + 1, d, p);
      MulAdd(k, 1, p);
    }
  }

  // The add path: the rounded-up doubled quotient has one bit more than a word,
  // and the stored magic number is its low word.
  ghost predicate AddMagic(h: nat, d: nat, m: nat) {
    d > 0 && var l := FloorLog2(d);
    && 0 < m < Word(h)
    && Unit(h, l + 1) < Prod(Word(h) + m, d) <= Unit(h, l + 1) + d
  }

  lemma AddIsMagic(h: nat, d: nat)
    requires h > 0 && 0 < d < Word(h) && !IsPowerOfTwo(d)
    ensures var l := FloorLog2(d); var p := Word(h);
            var q := DoubledQuotient(FirstQuotient(h, l, d), FirstRemainder(h, l, d), d, p);
            q + 1 < p && AddMagic(h, d, q + 1)
  {
    var l, p := FloorLog2(d), Word(h);
    var m0, rem := FirstQuotient(h, l, d), FirstRemainder(h, l, d);
    UnitDoubles(h, l);
    DoubleDivision(Unit(h, l), d);
    RoundUp(Unit(h, l + 1), d);
    var big := Unit(h, l + 1) / d;
    assert big == 2 * m0 + (if 2 * rem >= d then 1 else 0);
    DoubledRange(big + 1, d, Pow2(l), p, Unit(h, l + 1));
    DoubledWraps(m0, rem, d, p, big);
  }

  // The 33rd or 65th bit of the magic number is set and no higher one is.
  lemma DoubledRange(m: nat, d: nat, k: nat, p: nat, t: nat)
    requires k < d < 2 * k && d < p && t == 2 * (k * p) && t < Prod(m, d) <= t + d
    ensures p < m < 2 * p
  {
    MulAssoc(2, k, p);
    if m <= p {
      MulLe(m, p, d);
      MulLe(d, 2 * k, p);
      assert false;
    }
    if 2 * p <= m {
      MulLe(2 * p, m, d);
      MulAssoc(2, p, d);
      MulLe(k + 1, d, p);
      MulAdd(k, 1, p);
      assert false;
    }
  }

  lemma DoubledWraps(q: nat, rem: nat, d: nat, p: nat, big: nat)
    requires rem < d < p && p <= big < 2 * p - 1
    requires big == 2 * q + (if 2 * rem >= d then 1 else 0)
    ensures DoubledQuotient(q, rem, d, p) == big - p
  {
    WrapOnce(2 * q, p);
    if 2 * rem >= p {
      WrapOnce(2 * rem, p);
    }
    if 2 * q < p {
      assert 2 * q + 1 == p;
      DivModUnique(p, p, 1, 0);
    }
  }

  lemma WrapOnce(x: nat, p: nat)
    requires 0 < p && x < 2 * p
    ensures x % p == if x < p then x else x - p
  {
    if x < p { SmallDivMod(x, p); } else { DivModUnique(x, p, 1, x - p); }
  }

  // ----- exactness of division -----

  lemma ErrorSmall(e: nat, n: nat, k: nat, p: nat)
    requires e <= k && n < p && 0 < k
    ensures Prod(e, n) < k * p
  {
    MulLe(e, k, n);
    MulLt(n, p, k);
  }

  lemma PlainDivides(h: nat, d: nat, m: nat, n: nat)
    requires PlainMagic(h, d, m) && n < Word(h)
    ensures Shr(MulHi(h, m, n), FloorLog2(d)) == n / d
  {
    var l, p := FloorLog2(d), Word(h);
    var e := Prod(m, d) - Unit(h, l);
    ErrorSmall(e, n, Pow2(l), p);
    MagicQuotient(m, Unit(h, l), d, e, n);
    DivDiv(Prod(m, n), p, Pow2(l));
  }

  lemma AddDivides(h: nat, d: nat, m: nat, n: nat)
    requires AddMagic(h, d, m) && n < Word(h)
    ensures Shr(HalfSum(n, MulHi(h, m, n), Word(h)), FloorLog2(d)) == n / d
  {
    var l, p := FloorLog2(d), Word(h);
    var big := p + m;
    var e := Prod(big, d) - Unit(h, l + 1);
    ErrorSmall(e, n, Pow2(l + 1), p);
    MagicQuotient(big, Unit(h, l + 1), d, e, n);
    var q := MulHi(h, m, n);
    HighBelow(m, n, p);
    HalfSumExact(n, q, p);
    SumIsProduct(m, n, p);
    DivDiv(Prod(big, n), p, 2);
    DivDiv(Prod(big, n), p * 2, Pow2(l));
    assert (p * 2) * Pow2(l) == Unit(h, l + 1) by { MulAssoc(p, 2, Pow2(l)); }
    assert Pow2(1) == 2;
  }

  lemma HighBelow(m: nat, n: nat, p: nat)
    requires m < p && 0 < p
    ensures 0 <= Prod(m, n) / p <= n
  {
    MulLe(m, p, n);
    DivMono(m * n, n * p, p);
    DivModUnique(n * p, p, n, 0);
    DivNonNeg(m * n, p);
  }

  lemma HalfSumExact(n: nat, q: nat, p: nat)
    requires q <= n < p
    ensures HalfSum(n, q, p) == (n + q) / 2
  {
    SmallDivMod(n - q, p);
    assert Pow2(1) == 2;
  }

  lemma SumIsProduct(m: nat, n: nat, p: nat)
    requires p > 0
    ensures n + Prod(m, n) / p == Prod(p + m, n) / p
  {
    MulAdd(p, m, n);
    AddMulDiv(m * n, n, p);
  }

  // The three shapes of a divider.
  lemma GenPowerOfTwo(h: nat, d: nat, branchfree: bool)
    requires 0 < d < Word(h) && (branchfree ==> d != 1) && IsPowerOfTwo(d)
    ensures branchfree ==> FloorLog2(d) > 0
    ensures Gen(h, d, branchfree) == Divider(0, FloorLog2(d) - if branchfree then 1 else 0)
  {
    AndPredIsZero(d);
  }

  lemma GenPlain(h: nat, d: nat)
    requires h > 0 && 0 < d < Word(h) && !IsPowerOfTwo(d)
    requires d - FirstRemainder(h, FloorLog2(d), d) < Pow2(FloorLog2(d))
    ensures PlainMagic(h, d, Gen(h, d, false).magic) && Gen(h, d, false).more == FloorLog2(d)
  {
    AndPredIsZero(d);
    PlainIsMagic(h, d);
  }

  lemma GenAdd(h: nat, d: nat, branchfree: bool)
    requires h > 0 && 0 < d < Word(h) && !IsPowerOfTwo(d) && (branchfree ==> d != 1)
    requires branchfree || d - FirstRemainder(h, FloorLog2(d), d) >= Pow2(FloorLog2(d))
    ensures AddMagic(h, d, Gen(h, d, branchfree).magic)
    ensures Gen(h, d, branchfree).more == FloorLog2(d) + ADD_MARKER
  {
    AndPredIsZero(d);
    AddIsMagic(h, d);
    hide Pow2, Unit, FirstQuotient, FirstRemainder, DoubledQuotient, Word, FloorLog2;
  }

  // The paths of the division, by the shape of the divider.
  lemma DoPaths(h: nat, n: nat, dv: Divider)
    requires h > 0
    ensures dv.magic == 0 ==> Do(h, n, dv) == Shr(n, dv.more)
    ensures dv.magic != 0 && !HasAddMarker(dv.more) ==> Do(h, n, dv) == Shr(MulHi(h, dv.magic, n), dv.more)
    ensures dv.magic != 0 && HasAddMarker(dv.more) ==>
              Do(h, n, dv) == Shr(HalfSum(n, MulHi(h, dv.magic, n), Word(h)), Shift(dv.more, h))
  {
    hide Pow2, Word, Shr, MulHi, HalfSum, Shift, HasAddMarker;
  }

  lemma BranchfreePath(h: nat, n: nat, d: nat, magic: nat, l: nat, add: bool)
    requires WordSize(h) && 1 < d < Word(h) && l < 2 * h
    requires Gen(h, d, true) == Divider(magic, l + if add then ADD_MARKER else 0)
    ensures BranchfreeDo(h, n, BranchfreeGen(h, d)) == Shr(HalfSum(n, MulHi(h, magic, n), Word(h)), l)
  {
    MoreFields(h, l, add, false);
    hide Pow2, Word, FloorLog2, HalfSum, MulHi, Shr, Gen, Shift;
  }

  lemma MagicNonZero(h: nat, d: nat, m: nat)
    requires PlainMagic(h, d, m) || AddMagic(h, d, m)
    ensures m != 0 && d > 0
  {
  }

  lemma ShiftPath(h: nat, d: nat, n: nat)
    requires d > 0 && IsPowerOfTwo(d)
    ensures Shr(n, FloorLog2(d)) == n / d
  {
  }

  // For every nonzero divisor and every numerator the branchfull divider
  // gives the quotient, on the shift, plain and add paths alike.
  lemma DividesExactly(h: nat, d: nat, n: nat)
    requires WordSize(h) && 0 < d < Word(h) && n < Word(h)
    ensures Do(h, n, Gen(h, d, false)) == n / d
  {
    assert h > 0;
    hide *;
    var dv, l := Gen(h, d, false), FloorLog2(d);
    FloorLog2Bound(d, 2 * h);
    DoPaths(h, n, dv);
    if IsPowerOfTwo(d) {
      GenPowerOfTwo(h, d, false);
      ShiftPath(h, d, n);
    } else if d - FirstRemainder(h, l, d) < Pow2(l) {
      GenPlain(h, d);
      PlainDivides(h, d, dv.magic, n);
      MoreFields(h, l, false, false);
      MagicNonZero(h, d, dv.magic);
    } else {
      GenAdd(h, d, false);
      AddDivides(h, d, dv.magic, n);
      MoreFields(h, l, true, false);
      MagicNonZero(h, d, dv.magic);
    }
  }

  // The branchfree divider gives the same for every divisor above one.
  lemma BranchfreeDividesExactly(h: nat, d: nat, n: nat)
    requires WordSize(h) && 1 < d < Word(h) && n < Word(h)
    ensures BranchfreeDo(h, n, BranchfreeGen(h, d)) == n / d
  {
    assert h > 0;
    hide *;
    var dv, l := Gen(h, d, true), FloorLog2(d);
    FloorLog2Bound(d, 2 * h);
    if IsPowerOfTwo(d) {
      GenPowerOfTwo(h, d, true);
      BranchfreePath(h, n, d, 0, l - 1, false);
      ShiftByHalves(h, n, l);
      ShiftPath(h, d, n);
    } else {
      GenAdd(h, d, true);
      BranchfreePath(h, n, d, dv.magic, l, true);
      AddDivides(h, d, dv.magic, n);
    }
  }

  lemma ShiftByHalves(h: nat, n: nat, l: nat)
    requires l > 0 && n < Word(h)
    ensures Shr(HalfSum(n, MulHi(h, 0, n), Word(h)), l - 1) == Shr(n, l)
  {
    SmallDivMod(0, Word(h));
    HalfSumExact(n, 0, Word(h));
    DivDiv(n, 2, Pow2(l - 1));
  }

  // ----- gen as the source computes it -----

  // The 32-bit build divides natively, the 64-bit build by long division.
  method DivideWords(h: nat, u1: nat, u0: nat, v: nat) returns (q: nat, r: nat)
    requires WordSize(h) && u1 < v < Word(h) && u0 < Word(h)
    ensures q == Pair(u1, u0, Word(h)) / v && r == Pair(u1, u0, Word(h)) % v && q < Word(h)
  {
    if h == 16 {
      var n := Pair(u1, u0, Word(h));
      QuotientFitsWord(u1, u0, v, Word(h));
      q := n / v;
      r := n - q * v;
      DivMod(n, v);
    } else {
      q, r := Div128By64(h, u1, u0, v);
    }
  }

  lemma QuotientFitsWord(u1: nat, u0: nat, v: nat, p: nat)
    requires u1 < v && u0 < p
    ensures 0 <= Pair(u1, u0, p) / v < p
  {
    MulLe(u1 + 1, v, p);
    MulAdd(u1, 1, p);
    DivUpper(u1 * p + u0, v, p);
    DivNonNeg(u1 * p + u0, v);
  }

  method InternalGen(h: nat, d: nat, branchfree: bool) returns (result: Divider)
    requires WordSize(h) && 0 < d < Word(h) && (branchfree ==> d != 1)
    ensures result == Gen(h, d, branchfree)
  {
    hide FloorLog2, And, Word, Pow2;
    var p, l := Word(h), FloorLog2(d);
    if And(d, d - 1) == 0 {
      AndPredIsZero(d);
      assert branchfree ==> l > 0 by { if l == 0 { Pow2Zero(); } }
      result := Divider(0, if branchfree then l - 1 else l);
    } else {
      AndPredIsZero(d);
      var proposed, rem := DivideWords(h, Pow2(l), 0, d);
      var e := d - rem;
      var more;
      if !branchfree && e < Pow2(l) {
        more := l;
      } else {
        var doubled := AddW(proposed, proposed, p);
        var twice := AddW(rem, rem, p);
        proposed := if twice >= d || twice < rem then AddW(doubled, 1, p) else doubled;
        more := l + ADD_MARKER;
      }
      result := Divider(AddW(1, proposed, p), more);
    }
  }

  // ----- recovering the divisor -----

  function RecoverPlain(h: nat, shift: nat, magic: nat): nat
    requires magic > 0
  {
    AddW(1, (Pair(Pow2(shift), 0, Word(h)) / magic) % Word(h), Word(h))
  }

  function RecoverAdd(h: nat, shift: nat, magic: nat): nat {
    var p := Word(h);
    var half, d := Pair(Pow2(shift), 0, p), p + magic;
    var halfQ := (half / d) % p;
    AddW(AddW(AddW(halfQ, halfQ, p), if 2 * (half % d) >= d then 1 else 0, p), 1, p)
  }

  function Recover(h: nat, dv: Divider): nat
    requires h > 0
  {
    var shift := Shift(dv.more, h);
    if dv.magic == 0 then Pow2(shift)
    else if !HasAddMarker(dv.more) then RecoverPlain(h, shift, dv.magic)
    else RecoverAdd(h, shift, dv.magic)
  }

  function BranchfreeRecover(h: nat, dv: Divider): nat
    requires h > 0
  {
    var shift := Shift(dv.more, h);
    if dv.magic == 0 then Pow2(shift + 1) else RecoverAdd(h, shift, dv.magic)
  }

  // Dividing t by a rounded-up quotient gives one less than the divisor.
  lemma QuotientOfMagic(m: nat, t: nat, d: nat)
    requires d > 0 && t < Prod(m, d) <= t + m
    ensures m > 0 && t / m == d - 1
  {
    MulSub(d, 1, m);
    DivModUnique(t, m, d - 1, t - (d - 1) * m);
  }

  lemma PlainMagicIsLarge(m: nat, d: nat, k: nat, p: nat)
    requires d < 2 * k && k * p < Prod(m, d) && 2 * k <= p
    ensures k < m
  {
    if m <= k {
      MulLe(m, k, d);
      MulLe(d, p, k);
    }
  }

  lemma PlainRecovers(h: nat, d: nat, m: nat)
    requires PlainMagic(h, d, m) && d < Word(h)
    ensures m > 0 && RecoverPlain(h, FloorLog2(d), m) == d
    ensures Pow2(FloorLog2(d)) < m
  {
    var l, p := FloorLog2(d), Word(h);
    FloorLog2Bound(d, 2 * h);
    Pow2StrictMono(l, 2 * h);
    PlainMagicIsLarge(m, d, Pow2(l), p);
    QuotientOfMagic(m, Unit(h, l), d);
    SmallDivMod(d - 1, p);
  }

  lemma AddRecovers(h: nat, d: nat, m: nat)
    requires AddMagic(h, d, m) && d < Word(h)
    ensures RecoverAdd(h, FloorLog2(d), m) == d
  {
    var l, p := FloorLog2(d), Word(h);
    UnitDoubles(h, l);
    QuotientOfMagic(p + m, Unit(h, l + 1), d);
    DoubleDivision(Unit(h, l), p + m);
    DivNonNeg(Unit(h, l), p + m);
    SmallDivMod(Unit(h, l) / (p + m), p);
  }

  // Recovery inverts generation for every divisor.
  lemma RecoverInvertsGen(h: nat, d: nat)
    requires WordSize(h) && 0 < d < Word(h)
    ensures Recover(h, Gen(h, d, false)) == d
  {
    assert h > 0;
    var dv, l := Gen(h, d, false), FloorLog2(d);
    FloorLog2Bound(d, 2 * h);
    hide *;
    RecoverPaths(h, dv);
    if IsPowerOfTwo(d) {
      GenPowerOfTwo(h, d, false);
      MoreFields(h, l, false, false);
      PowerValue(d);
    } else if d - FirstRemainder(h, l, d) < Pow2(l) {
      GenPlain(h, d);
      MagicNonZero(h, d, dv.magic);
      MoreFields(h, l, false, false);
      PlainRecovers(h, d, dv.magic);
    } else {
      GenAdd(h, d, false);
      MagicNonZero(h, d, dv.magic);
      MoreFields(h, l, true, false);
      AddRecovers(h, d, dv.magic);
    }
  }

  lemma RecoverPaths(h: nat, dv: Divider)
    requires h > 0
    ensures dv.magic == 0 ==> Recover(h, dv) == Pow2(Shift(dv.more, h))
    ensures dv.magic != 0 && !HasAddMarker(dv.more) ==>
              Recover(h, dv) == RecoverPlain(h, Shift(dv.more, h), dv.magic)
    ensures dv.magic != 0 && HasAddMarker(dv.more) ==>
              Recover(h, dv) == RecoverAdd(h, Shift(dv.more, h), dv.magic)
  {
    hide RecoverPlain, RecoverAdd, Shift, HasAddMarker, Pow2;
  }

  lemma PowerValue(d: nat)
    requires d > 0 && IsPowerOfTwo(d)
    ensures Pow2(FloorLog2(d)) == d
  {
  }

  lemma BranchfreeRecoverInvertsGen(h: nat, d: nat)
    requires WordSize(h) && 1 < d < Word(h)
    ensures BranchfreeRecover(h, BranchfreeGen(h, d)) == d
  {
    assert h > 0;
    var l := FloorLog2(d);
    FloorLog2Bound(d, 2 * h);
    if IsPowerOfTwo(d) {
      hide *;
      GenPowerOfTwo(h, d, true);
      BranchfreeRecoverPath(h, d, 0, l - 1, false);
      PowerValue(d);
    } else {
      hide *;
      GenAdd(h, d, true);
      MagicNonZero(h, d, Gen(h, d, true).magic);
      BranchfreeRecoverPath(h, d, Gen(h, d, true).magic, l, true);
      AddRecovers(h, d, Gen(h, d, true).magic);
    }
  }

  lemma BranchfreeRecoverPath(h: nat, d: nat, magic: nat, l: nat, add: bool)
    requires WordSize(h) && 1 < d < Word(h) && l < 2 * h
    requires Gen(h, d, true) == Divider(magic, l + if add then ADD_MARKER else 0)
    ensures BranchfreeRecover(h, BranchfreeGen(h, d))
            == if magic == 0 then Pow2(l + 1) else RecoverAdd(h, l, magic)
  {
    MoreFields(h, l, add, false);
    SmallDivMod(l, 2 * h);
    hide Pow2, Word, FloorLog2, RecoverAdd, Gen;
  }

  // The 64-bit recovery, with the portable double-word division.
  method U64Recover(dv: Divider, ghost d: nat) returns (r: nat)
    requires 0 < d < Word(32) && dv == Gen(32, d, false)
    ensures r == d
  {
    var shift := Shift(dv.more, 32);
    RecoverFits(32, d);
    RecoverInvertsGen(32, d);
    RecoverPaths(32, dv);
    hide Pow2, Word, Gen, Recover, RecoverPlain, FloorLog2;
    var p := Word(32);
    if dv.magic == 0 {
      r := Pow2(shift);
    } else if !HasAddMarker(dv.more) {
      var q, ignored := Div128By64(32, Pow2(shift), 0, dv.magic);
      r := AddW(1, q, p);
      RecoverPlainIs(32, shift, dv.magic);
    } else {
      r := RecoverBig(32, shift, dv.magic);
    }
  }

  lemma RecoverPlainIs(h: nat, shift: nat, magic: nat)
    requires 0 < magic && Pow2(shift) < magic < Word(h)
    ensures RecoverPlain(h, shift, magic) == AddW(1, Pair(Pow2(shift), 0, Word(h)) / magic, Word(h))
  {
    QuotientFitsWord(Pow2(shift), 0, magic, Word(h));
    SmallDivMod(Pair(Pow2(shift), 0, Word(h)) / magic, Word(h));
  }

  // The magic number of a generated divider is a word above the shifted unit.
  lemma RecoverFits(h: nat, d: nat)
    requires WordSize(h) && 0 < d < Word(h)
    ensures var dv := Gen(h, d, false);
            && dv.magic < Word(h) && Pow2(Shift(dv.more, h)) < Word(h)
            && (dv.magic != 0 && !HasAddMarker(dv.more) ==> Pow2(Shift(dv.more, h)) < dv.magic)
  {
    assert h > 0;
    var dv, l := Gen(h, d, false), FloorLog2(d);
    FloorLog2Bound(d, 2 * h);
    Pow2StrictMono(l, 2 * h);
    if IsPowerOfTwo(d) {
      hide *;
      GenPowerOfTwo(h, d, false);
      MoreFields(h, l, false, false);
    } else if d - FirstRemainder(h, l, d) < Pow2(l) {
      hide *;
      GenPlain(h, d);
      MoreFields(h, l, false, false);
      PlainRecovers(h, d, dv.magic);
      MagicIsWord(h, d, dv.magic);
    } else {
      hide *;
      GenAdd(h, d, false);
      MoreFields(h, l, true, false);
      MagicIsWord(h, d, dv.magic);
    }
  }

  lemma MagicIsWord(h: nat, d: nat, m: nat)
    requires PlainMagic(h, d, m) || AddMagic(h, d, m)
    ensures m < Word(h)
  {
  }

  // Twice a double word with the carry between the halves.
  method RecoverBig(h: nat, shift: nat, magic: nat) returns (r: nat)
    requires h > 0 && Pow2(shift) < Word(h) && magic < Word(h)
    ensures r == RecoverAdd(h, shift, magic)
  {
    hide *;
    var p := Word(h);
    var u, v := U128(Pow2(shift), 0), U128(1, magic);
    IsDoubleOf(u, h);
    IsDoubleOf(v, h);
    ValueOf(u, h);
    ValueOf(v, h);
    OnePair(magic, p);
    WordAtLeastFour(h);
    var halfQ, rem := Div128By128(h, u, v);
    var drLo := AddW(rem.lo, rem.lo, p);
    var drHi := AddW(AddW(rem.hi, rem.hi, p), if drLo < rem.lo then 1 else 0, p);
    ValueOf(rem, h);
    IsDoubleOf(rem, h);
    RemainderIsWord(Value(u, h), Value(v, h));
    DoubledRemainder(rem.hi, rem.lo, magic, p);
    var exceeds := drHi > 1 || (drHi == 1 && drLo >= magic);
    r := AddW(AddW(AddW(halfQ, halfQ, p), if exceeds then 1 else 0, p), 1, p);
    RecoverAddIs(h, shift, magic);
  }

  lemma WordAtLeastFour(h: nat)
    requires h > 0
    ensures Word(h) >= 4
  {
    Pow2Mono(2, 2 * h);
    assert Pow2(2) == 4;
  }

  lemma OnePair(lo: nat, p: nat)
    ensures Pair(1, lo, p) == p + lo
  {
  }

  lemma RecoverAddIs(h: nat, shift: nat, magic: nat)
    requires Pair(Pow2(shift), 0, Word(h)) / (Word(h) + magic) < Word(h)
    ensures var p := Word(h); var half, d := Pair(Pow2(shift), 0, p), p + magic;
            RecoverAdd(h, shift, magic)
            == AddW(AddW(AddW(half / d, half / d, p), if 2 * (half % d) >= d then 1 else 0, p), 1, p)
  {
    DivNonNeg(Pair(Pow2(shift), 0, Word(h)), Word(h) + magic);
    SmallDivMod(Pair(Pow2(shift), 0, Word(h)) / (Word(h) + magic), Word(h));
  }

  lemma DoubledRemainder(hi: nat, lo: nat, magic: nat, p: nat)
    requires 4 <= p && lo < p && magic < p && Pair(hi, lo, p) < p + magic
    ensures var drLo := AddW(lo, lo, p);
            var drHi := AddW(AddW(hi, hi, p), if drLo < lo then 1 else 0, p);
            (drHi > 1 || (drHi == 1 && drLo >= magic)) <==> 2 * Pair(hi, lo, p) >= p + magic
  {
    if hi >= 2 { MulLe(2, hi, p); }
    WrapOnce(2 * lo, p);
  }
}
