/** Integer arithmetic shared by the models: powers of two, quotients and
    remainders, and the bitwise operators of the source on natural numbers. */
module Arith {

  // ----- products -----

  lemma MulLe(a: int, b: int, c: int)
    requires a <= b && c >= 0
    ensures a * c <= b * c
  {
  }

  lemma MulLt(a: int, b: int, c: int)
    requires a < b && c > 0
    ensures a * c < b * c
  {
  }

  lemma MulPos(a: int, b: int)
    requires a > 0 && b > 0
    ensures a * b > 0
  {
  }

  lemma MulNonNeg(a: int, b: int)
    requires a >= 0 && b >= 0
    ensures a * b >= 0
  {
  }

  lemma MulAdd(a: int, b: int, c: int)
    ensures (a + b) * c == a * c + b * c
  {
  }

  lemma MulSub(a: int, b: int, c: int)
    ensures (a - b) * c == a * c - b * c
  {
  }

  lemma MulAssoc(a: int, b: int, c: int)
    ensures (a * b) * c == a * (b * c)
  {
  }

  // A product below a product with the same positive factor.
  lemma MulCancelLt(a: int, b: int, c: int)
    requires c > 0 && a * c < b * c
    ensures a < b
  {
    if a >= b {
      MulLe(b, a, c);
    }
  }

  lemma MulCancelLe(a: int, b: int, c: int)
    requires c > 0 && a * c <= b * c
    ensures a <= b
  {
    if a > b {
      MulLt(b, a, c);
    }
  }

  // ----- quotients and remainders -----

  lemma DivMod(x: int, d: int)
    requires d > 0
    ensures x == (x / d) * d + x % d && 0 <= x % d < d
  {
  }

  lemma DivModUnique(x: int, d: int, q: int, r: int)
    requires d > 0 && 0 <= r < d && x == q * d + r
    ensures x / d == q && x % d == r
  {
    var q2, r2 := x / d, x % d;
    DivMod(x, d);
    var e := q2 - q;
    MulSub(q2, q, d);
    assert e * d == r - r2;
    if e >= 1 { MulLe(1, e, d); assert false; }
    if e <= -1 { MulLe(e, -1, d); assert false; }
  }

  lemma DivNonNeg(x: int, d: int)
    requires x >= 0 && d > 0
    ensures 0 <= x / d <= x
  {
    DivMod(x, d);
    var q := x / d;
    if q <= -1 { MulLe(q, -1, d); }
    if q > x { MulLe(x + 1, q, d); MulLe(1, d, x + 1); }
  }

  // The quotient is the largest multiplier that stays at or below x.
  lemma DivLower(x: int, d: int, q: int)
    requires d > 0 && q * d <= x
    ensures q <= x / d
  {
    DivMod(x, d);
    if x / d < q {
      MulLe(x / d + 1, q, d);
      MulAdd(x / d, 1, d);
    }
  }

  lemma DivUpper(x: int, d: int, q: int)
    requires d > 0 && x < q * d
    ensures x / d < q
  {
    DivMod(x, d);
    if q <= x / d {
      MulLe(q, x / d, d);
    }
  }

  lemma DivMono(x: int, y: int, d: int)
    requires d > 0 && x <= y
    ensures x / d <= y / d
  {
    DivMod(x, d);
    DivLower(y, d, x / d);
  }

  lemma DivDiv(x: int, a: int, b: int)
    requires a > 0 && b > 0
    ensures a * b > 0 && (x / a) / b == x / (a * b)
    ensures x % (a * b) == ((x / a) % b) * a + x % a
  {
    MulPos(a, b);
    var q, r := x / a, x % a;
    var q2, r2 := q / b, q % b;
    DivMod(x, a);
    DivMod(q, b);
    MulAdd(q2 * b, r2, a);
    MulAssoc(q2, b, a);
    assert b * a == a * b;
    assert x == q2 * (a * b) + (r2 * a + r);
    MulLe(r2, b - 1, a);
    MulSub(b, 1, a);
    MulNonNeg(r2, a);
    DivModUnique(x, a * b, q2, r2 * a + r);
  }

  lemma AddMulDiv(x: int, k: int, d: int)
    requires d > 0
    ensures (x + k * d) / d == x / d + k
    ensures (x + k * d) % d == x % d
  {
    DivMod(x, d);
    MulAdd(x / d, k, d);
    DivModUnique(x + k * d, d, x / d + k, x % d);
  }

  lemma SmallDivMod(x: int, d: int)
    requires 0 <= x < d
    ensures x / d == 0 && x % d == x
  {
    DivModUnique(x, d, 0, x);
  }

  lemma ModAddMod(x: int, y: int, d: int)
    requires d > 0
    ensures (x + y) % d == (x % d + y) % d
  {
    DivMod(x, d);
    AddMulDiv(x % d + y, x / d, d);
    assert x + y == x % d + y + (x / d) * d;
  }

  // Scaling numerator and divisor by the same factor.
  lemma DivScale(x: int, d: int, k: int)
    requires d > 0 && k > 0
    ensures d * k > 0
    ensures (x * k) / (d * k) == x / d
    ensures (x * k) % (d * k) == (x % d) * k
  {
    MulPos(d, k);
    DivMod(x, d);
    var q, r := x / d, x % d;
    MulAdd(q * d, r, k);
    MulAssoc(q, d, k);
    MulLe(r, d - 1, k);
    MulSub(d, 1, k);
    MulNonNeg(r, k);
    DivModUnique(x * k, d * k, q, r * k);
  }

  lemma ModOfMod(x: nat, a: nat, b: nat)
    requires a > 0 && b > 0
    ensures a * b > 0 && (x % (a * b)) % a == x % a
  {
    DivDiv(x, a, b);
    AddMulDiv(x % a, (x / a) % b, a);
    DivMod(x, a);
    SmallDivMod(x % a, a);
  }

  // ----- powers of two -----

  function Pow2(n: nat): (r: nat)
    ensures r > 0
  {
    if n == 0 then 1 else 2 * Pow2(n - 1)
  }

  lemma Pow2Zero()
    ensures Pow2(0) == 1
  {
  }

  lemma Pow2Even(n: nat)
    requires n > 0
    ensures Pow2(n) % 2 == 0
  {
  }

  lemma {:induction false} Pow2Add(a: nat, b: nat)
    ensures Pow2(a + b) == Pow2(a) * Pow2(b)
  {
    if b != 0 {
      Pow2Add(a, b - 1);
      assert Pow2(a + b) == 2 * Pow2(a + (b - 1));
      MulAssoc(2, Pow2(b - 1), Pow2(a));
    }
  }

  // 2^n split at k.
  lemma Pow2Split(n: nat, k: nat)
    requires k <= n
    ensures Pow2(n) == Pow2(k) * Pow2(n - k)
  {
    Pow2Add(k, n - k);
  }

  lemma {:induction false} Pow2Mono(a: nat, b: nat)
    requires a <= b
    ensures Pow2(a) <= Pow2(b)
  {
    if a < b {
      Pow2Mono(a, b - 1);
    }
  }

  lemma Pow2StrictMono(a: nat, b: nat)
    requires a < b
    ensures 2 * Pow2(a) <= Pow2(b)
  {
    Pow2Mono(a + 1, b);
  }

  lemma {:induction false} Pow2Exceeds(n: nat)
    ensures n < Pow2(n)
  {
    if n > 0 {
      Pow2Exceeds(n - 1);
    }
  }

  lemma PowerOf32()
    ensures Pow2(32) == 0x1_0000_0000
  {
    assert Pow2(8) == 0x100;
    hide Pow2;
    Pow2Add(8, 8);
    Pow2Add(16, 16);
  }

  ghost predicate IsPower(n: nat) {
    exists k: nat :: n == Pow2(k)
  }

  // Position of the highest set bit.
  function FloorLog2(d: nat): (l: nat)
    requires d > 0
    ensures Pow2(l) <= d < 2 * Pow2(l)
  {
    if d == 1 then 0 else 1 + FloorLog2(d / 2)
  }

  predicate IsPowerOfTwo(d: nat)
    requires d > 0
  {
    d == Pow2(FloorLog2(d))
  }

  lemma FloorLog2Unique(d: nat, l: nat)
    requires Pow2(l) <= d < 2 * Pow2(l)
    ensures FloorLog2(d) == l
  {
    var k := FloorLog2(d);
    if k < l { Pow2StrictMono(k, l); assert false; }
    if l < k { Pow2StrictMono(l, k); assert false; }
  }

  lemma FloorLog2Bound(d: nat, w: nat)
    requires 0 < d < Pow2(w)
    ensures FloorLog2(d) < w
  {
    if w <= FloorLog2(d) {
      Pow2Mono(w, FloorLog2(d));
    }
  }

  // The test by the highest set bit finds the powers of two.
  lemma IsPowerOfTwoMeans(d: nat)
    requires d > 0
    ensures IsPowerOfTwo(d) <==> IsPower(d)
  {
    if IsPower(d) {
      var k: nat :| d == Pow2(k);
      FloorLog2Unique(d, k);
    }
    hide Pow2;
  }

  // ----- bitwise operators -----

  function And(a: nat, b: nat): (r: nat)
    decreases a
  {
    if a == 0 then 0 else 2 * And(a / 2, b / 2) + (a % 2) * (b % 2)
  }

  function Or(a: nat, b: nat): (r: nat)
    decreases a + b
  {
    if a == 0 && b == 0 then 0
    else 2 * Or(a / 2, b / 2) + (if a % 2 == 1 || b % 2 == 1 then 1 else 0)
  }

  function Xor(a: nat, b: nat): (r: nat)
    decreases a + b
  {
    if a == 0 && b == 0 then 0
    else 2 * Xor(a / 2, b / 2) + (if a % 2 != b % 2 then 1 else 0)
  }

  // Masking with k low ones keeps the remainder modulo 2^k.
  lemma {:induction false} AndMask(a: nat, k: nat)
    ensures And(a, Pow2(k) - 1) == a % Pow2(k)
    decreases a
  {
    if a == 0 {
      SmallDivMod(0, Pow2(k));
    } else if k == 0 {
      AndZero(a);
    } else {
      AndMask(a / 2, k - 1);
      var p := Pow2(k - 1);
      assert (Pow2(k) - 1) / 2 == p - 1 && (Pow2(k) - 1) % 2 == 1;
      DivDiv(a, 2, p);
    }
  }

  lemma {:induction false} AndZero(a: nat)
    ensures And(a, 0) == 0
    decreases a
  {
    if a != 0 {
      AndZero(a / 2);
    }
  }

  // The power-of-two test on which all divider generators branch.
  lemma {:induction false} AndPredIsZero(d: nat)
    requires d > 0
    ensures And(d, d - 1) == 0 <==> d == Pow2(FloorLog2(d))
    decreases d
  {
    if d > 1 {
      var h := d / 2;
      AndPredHalves(d, h);
      assert FloorLog2(d) == 1 + FloorLog2(h) && Pow2(FloorLog2(d)) == 2 * Pow2(FloorLog2(h));
      hide And, Pow2, FloorLog2;
      if d % 2 == 0 {
        AndPredIsZero(h);
      } else {
        AndSelf(h);
      }
    }
  }

  lemma AndPredHalves(d: nat, h: nat)
    requires d > 1 && h == d / 2
    ensures d % 2 == 0 ==> And(d, d - 1) == 2 * And(h, h - 1)
    ensures d % 2 == 1 ==> And(d, d - 1) == 2 * And(h, h)
  {
    if d % 2 == 0 {
      assert (d - 1) / 2 == h - 1;
    } else {
      assert (d - 1) / 2 == h;
    }
  }

  lemma {:induction false} AndSelf(a: nat)
    ensures And(a, a) == a
    decreases a
  {
    if a != 0 {
      AndSelf(a / 2);
      assert (a % 2) * (a % 2) == a % 2;
    }
  }

  // Or of operands without common bits is their sum.
  lemma {:induction false} OrDisjoint(a: nat, b: nat, k: nat)
    requires b < Pow2(k)
    ensures Or(a * Pow2(k), b) == a * Pow2(k) + b
    decreases k
  {
    if k == 0 {
      OrZero(a);
    } else {
      var p := Pow2(k - 1);
      MulAssoc(a, 2, p);
      assert a * Pow2(k) == 2 * (a * p);
      var x := a * p;
      assert (2 * x) / 2 == x && (2 * x) % 2 == 0;
      OrDisjoint(a, b / 2, k - 1);
      if 2 * x == 0 && b == 0 {
      } else {
        assert Or(2 * x, b) == 2 * Or(x, b / 2) + b % 2;
      }
    }
  }

  lemma {:induction false} OrZero(a: nat)
    ensures Or(a, 0) == a
    decreases a
  {
    if a != 0 {
      OrZero(a / 2);
    }
  }

  lemma {:induction false} OrCommutes(a: nat, b: nat)
    ensures Or(a, b) == Or(b, a)
    decreases a + b
  {
    if a != 0 || b != 0 {
      OrCommutes(a / 2, b / 2);
    }
  }

  lemma {:induction false} XorTwice(a: nat, b: nat)
    ensures Xor(Xor(a, b), b) == a
    decreases a + b
  {
    if a != 0 || b != 0 {
      XorTwice(a / 2, b / 2);
      var x := Xor(a / 2, b / 2);
      var y := Xor(a, b);
      assert y / 2 == x;
    }
  }

  // Xor acts on low bits and high bits separately.
  lemma {:induction false} XorLow(a: nat, b: nat, k: nat)
    ensures Xor(a, b) % Pow2(k) == Xor(a % Pow2(k), b % Pow2(k))
    decreases k
  {
    if k == 0 {
    } else {
      var p := Pow2(k - 1);
      XorLow(a / 2, b / 2, k - 1);
      DivDiv(a, 2, p);
      DivDiv(b, 2, p);
      DivDiv(Xor(a, b), 2, p);
      var a2, b2 := a % Pow2(k), b % Pow2(k);
      assert a2 == ((a / 2) % p) * 2 + a % 2;
      assert b2 == ((b / 2) % p) * 2 + b % 2;
      assert a2 / 2 == (a / 2) % p && b2 / 2 == (b / 2) % p;
      if a != 0 || b != 0 {
        assert Xor(a, b) / 2 == Xor(a / 2, b / 2);
      }
    }
  }

  lemma {:induction false} XorHigh(a: nat, b: nat, k: nat)
    requires b < Pow2(k)
    ensures Xor(a, b) / Pow2(k) == a / Pow2(k)
    decreases k
  {
    if k == 0 {
      XorZero(a);
    } else {
      var p := Pow2(k - 1);
      XorHigh(a / 2, b / 2, k - 1);
      DivDiv(a, 2, p);
      DivDiv(Xor(a, b), 2, p);
      if a != 0 || b != 0 {
        assert Xor(a, b) / 2 == Xor(a / 2, b / 2);
      }
    }
  }

  lemma {:induction false} XorZero(a: nat)
    ensures Xor(a, 0) == a
    decreases a
  {
    if a != 0 {
      XorZero(a / 2);
    }
  }

  lemma {:induction false} XorCommutes(a: nat, b: nat)
    ensures Xor(a, b) == Xor(b, a)
    decreases a + b
  {
    if a != 0 || b != 0 {
      XorCommutes(a / 2, b / 2);
    }
  }

  lemma {:induction false} XorBound(a: nat, b: nat, k: nat)
    requires a < Pow2(k) && b < Pow2(k)
    ensures Xor(a, b) < Pow2(k)
    decreases k
  {
    if k != 0 {
      XorBound(a / 2, b / 2, k - 1);
    }
  }
}
