/** Prefix sums of packed counters. The population-count reduction and the masked
    tree reduction both compute the serial prefix sum of the counters. */
module Reductions {
  import opened Arith
  import opened BlockStore
  import opened Lanes
  import opened MortonTable

  // ----- population counts -----

  function PopCount(b: seq<bool>): nat {
    if b == [] then 0 else PopCount(b[..|b| - 1]) + if b[|b| - 1] then 1 else 0
  }

  // One in every width-th bit, from bit i on.
  function PopMask(size: nat, width: nat, i: nat): (m: Atom)
    requires width > 0
    ensures |m| == size
  {
    seq(size, g => g >= i && (g - i) % width == 0)
  }

  // Shifting the mask up by one moves on to the next bit of all counters.
  lemma PopMaskShift(size: nat, width: nat, i: nat)
    requires width > 0
    ensures ShiftLeft(PopMask(size, width, i), 1) == PopMask(size, width, i + 1)
  {
    var a, b := ShiftLeft(PopMask(size, width, i), 1), PopMask(size, width, i + 1);
    forall g: nat | g < size
      ensures a[g] == b[g]
    {
      if g >= 1 {
        assert PopMask(size, width, i)[g - 1] == (g - 1 >= i && (g - 1 - i) % width == 0);
      }
    }
    assert a == b;
  }

  // The counters below index, and one bit position of each.
  function Selected(word: Atom, width: nat, index: nat, i: nat): Atom
    requires width > 0
  {
    MulNonNeg(width, index);
    BitAnd(BitAnd(word, LowMask(|word|, width * index)), PopMask(|word|, width, i))
  }

  function Counter(word: Atom, width: nat, k: nat): seq<bool>
    requires (k + 1) * width <= |word|
  {
    MulAdd(k, 1, width);
    MulNonNeg(k, width);
    word[k * width..k * width + width]
  }

  function Bit(b: bool): nat {
    if b then 1 else 0
  }

  lemma SelectedAt(word: Atom, width: nat, index: nat, i: nat, g: nat)
    requires width > 0 && g < |word|
    ensures |Selected(word, width, index, i)| == |word|
    ensures Selected(word, width, index, i)[g]
            == (word[g] && g < width * index && g >= i && (g - i) % width == 0)
  {
  }

  // Which bit of which counter the masks let through.
  lemma MaskPosition(width: nat, index: nat, i: nat, k: nat, t: nat)
    requires i < width && t < width
    ensures k * width + t < width * index <==> k < index
    ensures k * width + t >= i && (k * width + t - i) % width == 0 <==> t == i
  {
    MulNonNeg(k, width);
    if k < index {
      MulLe(k + 1, index, width);
      MulAdd(k, 1, width);
    } else {
      MulLe(index, k, width);
    }
    if t >= i {
      DivModUnique(k * width + t - i, width, k, t - i);
    } else if k > 0 {
      MulSub(k, 1, width);
      DivModUnique(k * width + t - i, width, k - 1, width + t - i);
    }
  }

  // Within one counter the mask selects exactly one bit.
  lemma SelectedBit(word: Atom, width: nat, index: nat, i: nat, k: nat, t: nat)
    requires width > 0 && i < width && t < width && (k + 1) * width <= |word|
    ensures 0 <= k * width + t < |word| && |Selected(word, width, index, i)| == |word|
    ensures Selected(word, width, index, i)[k * width + t] == (k < index && t == i && word[k * width + t])
  {
    hide *;
    MulAdd(k, 1, width);
    MulNonNeg(k, width);
    SelectedAt(word, width, index, i, k * width + t);
    MaskPosition(width, index, i, k, t);
  }

  lemma {:induction false} PopCountStep(b: seq<bool>, g: nat)
    requires g < |b|
    ensures PopCount(b[..g + 1]) == PopCount(b[..g]) + Bit(b[g])
  {
    assert b[..g + 1][..g] == b[..g];
  }

  // Counting up to the middle of counter k.
  lemma {:induction false} PopCountInside(word: Atom, width: nat, index: nat, i: nat, k: nat, t: nat)
    requires width > 0 && i < width && t <= width && (k + 1) * width <= |word|
    ensures 0 <= k * width && k * width + t <= |word| && k * width + width == (k + 1) * width
    ensures |Selected(word, width, index, i)| == |word|
    ensures PopCount(Selected(word, width, index, i)[..k * width + t])
            == PopCount(Selected(word, width, index, i)[..k * width])
               + if k < index && t > i then Bit(word[k * width + i]) else 0
  {
    hide PopCount, Selected;
    MulAdd(k, 1, width);
    MulNonNeg(k, width);
    SelectedBit(word, width, index, i, k, i);
    if t > 0 {
      PopCountInside(word, width, index, i, k, t - 1);
      SelectedBit(word, width, index, i, k, t - 1);
      PopCountStep(Selected(word, width, index, i), k * width + t - 1);
    }
  }

  // The number of ones at bit position i of the counters below m.
  function Ones(word: Atom, width: nat, i: nat, m: nat): nat
    requires i < width && m * width <= |word|
  {
    if m == 0 then 0
    else
      MulAdd(m - 1, 1, width);
      MulNonNeg(m - 1, width);
      Ones(word, width, i, m - 1) + Bit(word[(m - 1) * width + i])
  }

  lemma {:induction false} PopCountIsOnes(word: Atom, width: nat, index: nat, i: nat, m: nat)
    requires width > 0 && i < width && m * width <= |word| && m <= index
    ensures 0 <= m * width && |Selected(word, width, index, i)| == |word|
    ensures PopCount(Selected(word, width, index, i)[..m * width]) == Ones(word, width, i, m)
  {
    hide Selected;
    MulNonNeg(m, width);
    if m > 0 {
      MulAdd(m - 1, 1, width);
      PopCountIsOnes(word, width, index, i, m - 1);
      PopCountInside(word, width, index, i, m - 1, width);
    } else {
      SelectedLength(word, width, index, i);
    }
  }

  lemma SelectedLength(word: Atom, width: nat, index: nat, i: nat)
    requires width > 0
    ensures |Selected(word, width, index, i)| == |word|
  {
  }

  // Nothing is selected behind the counters below index.
  lemma {:induction false} PopCountRest(word: Atom, width: nat, index: nat, i: nat, g: nat)
    requires width > 0 && 0 <= width * index <= g <= |word|
    ensures |Selected(word, width, index, i)| == |word|
    ensures PopCount(Selected(word, width, index, i)[..g]) == PopCount(Selected(word, width, index, i)[..width * index])
  {
    SelectedLength(word, width, index, i);
    if g > width * index {
      PopCountRest(word, width, index, i, g - 1);
      PopCountStep(Selected(word, width, index, i), g - 1);
    }
    hide PopCount;
  }

  lemma {:induction false} PopCountSelected(word: Atom, width: nat, index: nat, i: nat)
    requires width > 0 && i < width && index * width <= |word|
    ensures PopCount(Selected(word, width, index, i)) == Ones(word, width, i, index)
  {
    hide *;
    SelectedLength(word, width, index, i);
    PopCountIsOnes(word, width, index, i, index);
    PopCountRest(word, width, index, i, |word|);
    var s := Selected(word, width, index, i);
    assert s[..|word|] == s;
  }

  // The weighted ones of the lowest j bit positions.
  function Weighted(word: Atom, width: nat, j: nat, m: nat): nat
    requires j <= width && m * width <= |word|
  {
    if j == 0 then 0
    else
      MulNonNeg(Ones(word, width, j - 1, m), Pow2(j - 1));
      Weighted(word, width, j - 1, m) + Ones(word, width, j - 1, m) * Pow2(j - 1)
  }

  // The counters as numbers.
  function Counters(word: Atom, width: nat, m: nat): (c: seq<nat>)
    requires m * width <= |word|
    ensures |c| == m
  {
    if m == 0 then []
    else
      MulAdd(m - 1, 1, width);
      MulNonNeg(m - 1, width);
      Counters(word, width, m - 1) + [Num(Counter(word, width, m - 1))]
  }

  lemma {:induction false} WeightedStep(word: Atom, width: nat, j: nat, m: nat)
    requires j <= width && (m + 1) * width <= |word|
    ensures 0 <= m * width <= |word| && |Counter(word, width, m)| == width
    ensures Weighted(word, width, j, m + 1) == Weighted(word, width, j, m) + Num(Counter(word, width, m)[..j])
  {
    MulAdd(m, 1, width);
    MulNonNeg(m, width);
    if j > 0 {
      WeightedStep(word, width, j - 1, m);
      var f := Counter(word, width, m);
      assert f[..j][..j - 1] == f[..j - 1];
      MulAdd(Ones(word, width, j - 1, m), Bit(f[j - 1]), Pow2(j - 1));
      hide Pow2, Weighted;
    }
  }

  lemma {:induction false} WeightedNone(word: Atom, width: nat, j: nat)
    requires j <= width
    ensures Weighted(word, width, j, 0) == 0
  {
    if j > 0 {
      WeightedNone(word, width, j - 1);
    }
  }

  // Exchanging the sums: by bit positions or by counters.
  lemma {:induction false} WeightedIsSum(word: Atom, width: nat, m: nat)
    requires m * width <= |word|
    ensures Weighted(word, width, width, m) == Start(Counters(word, width, m), m)
  {
    hide Weighted, Num, Counter;
    if m == 0 {
      WeightedNone(word, width, width);
    } else {
      MulAdd(m - 1, 1, width);
      MulNonNeg(m - 1, width);
      WeightedIsSum(word, width, m - 1);
      WeightedStep(word, width, width, m - 1);
      var f := Counter(word, width, m - 1);
      assert f[..width] == f;
      var c := Counters(word, width, m);
      assert c[..m - 1] == Counters(word, width, m - 1);
      StartPrefix(Counters(word, width, m - 1), [c[m - 1]], m - 1);
    }
  }

  lemma {:induction false} StartPrefix(a: seq<nat>, b: seq<nat>, m: nat)
    requires m <= |a|
    ensures Start(a + b, m) == Start(a, m)
  {
    if m > 0 {
      StartPrefix(a, b, m - 1);
    }
  }

  lemma {:induction false} PopCountAppend(a: seq<bool>, b: seq<bool>)
    ensures PopCount(a + b) == PopCount(a) + PopCount(b)
  {
    if b == [] {
      assert a + b == a;
    } else {
      PopCountAppend(a, b[..|b| - 1]);
      assert (a + b)[..|a + b| - 1] == a + b[..|b| - 1];
    }
  }

  // The 8-bit sum after one more bit position.
  lemma SumStep(sum: nat, word: Atom, width: nat, i: nat, index: nat, ones: nat)
    requires i < width && index * width <= |word|
    requires sum == Weighted(word, width, i, index) % 256 && ones == Ones(word, width, i, index)
    ensures (sum + ones * Pow2(i)) % 256 == Weighted(word, width, i + 1, index) % 256
  {
    hide Pow2, Ones;
    ModAddMod(Weighted(word, width, i, index), ones * Pow2(i), 256);
  }

  // Counters in one word: one population count per bit position of a counter,
  // summed up in 8 bits.
  method ExclusiveReduceWithPopcount64(word: Atom, width: nat, index: nat) returns (sum: nat)
    requires width > 0 && index * width <= |word|
    ensures sum == Start(Counters(word, width, index), index) % 256
  {
    hide PopCount, PopMask, BitAnd, LowMask, Weighted, Ones, Pow2, ShiftLeft;
    MulNonNeg(width, index);
    var counters := BitAnd(word, LowMask(|word|, width * index));
    var popcountMask := PopMask(|word|, width, 0);
    sum := 0;
    WeightedZero(word, width, index);
    for i := 0 to width
      invariant popcountMask == PopMask(|word|, width, i)
      invariant sum == Weighted(word, width, i, index) % 256
    {
      PopCountSelected(word, width, index, i);
      SumStep(sum, word, width, i, index, PopCount(BitAnd(counters, popcountMask)));
      MulNonNeg(PopCount(BitAnd(counters, popcountMask)), Pow2(i));
      sum := (sum + PopCount(BitAnd(counters, popcountMask)) * Pow2(i)) % 256;
      PopMaskShift(|word|, width, i);
      popcountMask := ShiftLeft(popcountMask, 1);
    }
    WeightedIsSum(word, width, index);
  }

  lemma WeightedZero(word: Atom, width: nat, m: nat)
    requires m * width <= |word|
    ensures Weighted(word, width, 0, m) == 0
  {
  }

  // Counters in a double word: the two halves are counted separately.
  method ExclusiveReduceWithPopcount128(word: Atom, half: nat, width: nat, index: nat) returns (sum: nat)
    requires width > 0 && index * width <= |word| == 2 * half
    ensures sum == Start(Counters(word, width, index), index) % 256
  {
    hide PopCount, PopMask, BitAnd, LowMask, Weighted, Ones, Pow2, ShiftLeft;
    MulNonNeg(width, index);
    var counters := BitAnd(word, LowMask(|word|, width * index));
    var popcountMask := PopMask(|word|, width, 0);
    sum := 0;
    WeightedZero(word, width, index);
    for i := 0 to width
      invariant popcountMask == PopMask(|word|, width, i)
      invariant sum == Weighted(word, width, i, index) % 256
    {
      var mask1, mask2 := popcountMask[..half], popcountMask[half..];
      var ones1 := PopCount(BitAnd(counters[..half], mask1));
      var ones2 := PopCount(BitAnd(counters[half..], mask2));
      HalvesAdd(counters, popcountMask, half);
      PopCountSelected(word, width, index, i);
      SumStep(sum, word, width, i, index, ones1 + ones2);
      TwoSteps(sum, ones1, ones2, Pow2(i));
      MulNonNeg(ones1, Pow2(i));
      MulNonNeg(ones2, Pow2(i));
      sum := (sum + ones1 * Pow2(i)) % 256;
      sum := (sum + ones2 * Pow2(i)) % 256;
      PopMaskShift(|word|, width, i);
      popcountMask := ShiftLeft(popcountMask, 1);
    }
    WeightedIsSum(word, width, index);
  }

  lemma HalvesAdd(a: Atom, m: Atom, half: nat)
    requires |a| == |m| && half <= |a|
    ensures PopCount(BitAnd(a, m)) == PopCount(BitAnd(a[..half], m[..half])) + PopCount(BitAnd(a[half..], m[half..]))
  {
    assert BitAnd(a, m) == BitAnd(a[..half], m[..half]) + BitAnd(a[half..], m[half..]);
    PopCountAppend(BitAnd(a[..half], m[..half]), BitAnd(a[half..], m[half..]));
    hide PopCount;
  }

  lemma TwoSteps(sum: nat, x: nat, y: nat, p: nat)
    ensures ((sum + x * p) % 256 + y * p) % 256 == (sum + (x + y) * p) % 256
  {
    MulAdd(x, y, p);
    ModAddMod(sum + x * p, y * p, 256);
  }

  // ----- the tree reduction -----

  function Total(lanes: seq<nat>): nat {
    if lanes == [] then 0 else lanes[0] + Total(lanes[1..])
  }

  lemma {:induction false} TotalAppend(a: seq<nat>, b: seq<nat>)
    ensures Total(a + b) == Total(a) + Total(b)
  {
    if a == [] {
      assert a + b == b;
    } else {
      TotalAppend(a[1..], b);
      assert (a + b)[1..] == a[1..] + b;
    }
  }

  lemma {:induction false} TotalIsStart(c: seq<nat>, m: nat)
    requires m <= |c|
    ensures Total(c[..m]) == Start(c, m)
  {
    if m > 0 {
      TotalIsStart(c, m - 1);
      assert c[..m] == c[..m - 1] + [c[m - 1]];
      TotalAppend(c[..m - 1], [c[m - 1]]);
      assert [c[m - 1]][1..] == [];
    }
  }

  // Lanes of twice the width.
  function Paired(lanes: seq<nat>): (r: seq<nat>)
    ensures |r| == (|lanes| + 1) / 2
  {
    if |lanes| == 0 then []
    else if |lanes| == 1 then [lanes[0]]
    else [lanes[0] + lanes[1]] + Paired(lanes[2..])
  }

  lemma {:induction false} PairedTotal(lanes: seq<nat>)
    ensures Total(Paired(lanes)) == Total(lanes)
  {
    if |lanes| >= 2 {
      PairedTotal(lanes[2..]);
      assert lanes[1..][1..] == lanes[2..];
      assert Paired(lanes)[1..] == Paired(lanes[2..]);
    }
  }

  // The sum of two lanes fits a lane of twice the width.
  lemma {:induction false} PairedFit(lanes: seq<nat>, width: nat)
    requires LanesFit(lanes, width) && width > 0
    ensures LanesFit(Paired(lanes), 2 * width)
  {
    Pow2StrictMono(width, 2 * width);
    if |lanes| >= 2 {
      PairedFit(lanes[2..], width);
      assert Paired(lanes)[1..] == Paired(lanes[2..]);
      forall k | 0 <= k < |Paired(lanes)|
        ensures Paired(lanes)[k] < Pow2(2 * width)
      {
        if k > 0 {
          assert Paired(lanes)[k] == Paired(lanes[2..])[k - 1];
        }
      }
    }
    hide Pow2;
  }

  // Every second lane, kept in place by the mask.
  function Evens(lanes: seq<nat>): seq<nat> {
    if |lanes| <= 1 then lanes else [lanes[0]] + Evens(lanes[2..])
  }

  // The reduction mask: ones in every second lane, for the given number of lanes.
  function EvenMask(width: nat, n: nat): nat {
    if n == 0 then 0
    else
      MulNonNeg(Pow2(2 * width), EvenMask(width, n - 1));
      Pow2(width) - 1 + Pow2(2 * width) * EvenMask(width, n - 1)
  }

  // And acts on low and high parts separately.
  lemma {:induction false} AndParts(x: nat, y: nat, a: nat, b: nat, k: nat)
    requires x < Pow2(k) && a < Pow2(k)
    ensures 0 <= x + Pow2(k) * y && 0 <= a + Pow2(k) * b
    ensures And(x + Pow2(k) * y, a + Pow2(k) * b) == And(x, a) + Pow2(k) * And(y, b)
    decreases k
  {
    if k == 0 {
      Pow2Zero();
      hide Pow2;
      assert And(0, 0) == 0;
    } else {
      var p := Pow2(k - 1);
      assert Pow2(k) == 2 * p;
      hide *;
      MulNonNeg(p, y);
      MulNonNeg(p, b);
      AndParts(x / 2, y, a / 2, b, k - 1);
      AndPartsStep(x, y, a, b, p, Pow2(k));
    }
  }

  lemma AndPartsStep(x: nat, y: nat, a: nat, b: nat, p: nat, q: nat)
    requires p > 0 && q == 2 * p && 0 <= x / 2 + p * y && 0 <= a / 2 + p * b
    requires And(x / 2 + p * y, a / 2 + p * b) == And(x / 2, a / 2) + p * And(y, b)
    ensures 0 <= x + q * y && 0 <= a + q * b
    ensures And(x + q * y, a + q * b) == And(x, a) + q * And(y, b)
  {
    hide And;
    AndHalf(x, y, p);
    AndHalf(a, b, p);
    MulAssoc(2, p, And(y, b));
    AndUnfold(x + q * y, a + q * b);
    AndUnfold(x, a);
  }

  lemma AndUnfold(a: nat, b: nat)
    ensures And(a, b) == 2 * And(a / 2, b / 2) + (a % 2) * (b % 2)
  {
  }

  lemma AndHalf(x: nat, y: nat, p: nat)
    requires p > 0
    ensures 0 <= x + 2 * p * y && (x + 2 * p * y) / 2 == x / 2 + p * y && (x + 2 * p * y) % 2 == x % 2
  {
    MulAssoc(2, p, y);
    MulNonNeg(p, y);
    AddMulDiv(x, p * y, 2);
  }

  // The two lowest lanes and the rest.
  lemma JoinTwo(lanes: seq<nat>, width: nat)
    requires |lanes| >= 2
    ensures 0 <= lanes[0] + Pow2(width) * lanes[1]
    ensures 0 <= Pow2(2 * width) * Join(lanes[2..], width)
    ensures Join(lanes, width) == lanes[0] + Pow2(width) * lanes[1] + Pow2(2 * width) * Join(lanes[2..], width)
  {
    hide Join, Pow2;
    JoinStep(lanes, width);
    JoinStep(lanes[1..], width);
    assert lanes[1..][1..] == lanes[2..];
    var p, j := Pow2(width), Join(lanes[2..], width);
    Pow2Add(width, width);
    MulNonNeg(p, lanes[1]);
    MulNonNeg(Pow2(2 * width), j);
    MulAssoc(p, p, j);
    Distribute(p, lanes[1], p * j);
  }

  lemma TwoLanesFit(a: nat, b: nat, width: nat)
    requires a < Pow2(width) && b < Pow2(width)
    ensures 0 <= a + Pow2(width) * b < Pow2(2 * width)
    ensures (a + Pow2(width) * b) % Pow2(width) == a && Pow2(width) - 1 < Pow2(2 * width)
  {
    hide Pow2;
    var p := Pow2(width);
    Pow2Add(width, width);
    MulNonNeg(p, b);
    MulLe(b, p - 1, p);
    MulSub(p, 1, p);
    DivModUnique(a + p * b, p, b, a);
    MulLe(1, p, p);
  }

  // The mask keeps every second lane.
  lemma {:induction false} MaskKeepsEvens(lanes: seq<nat>, width: nat, n: nat)
    requires LanesFit(lanes, width) && |lanes| <= 2 * n
    ensures And(Join(lanes, width), EvenMask(width, n)) == Join(Evens(lanes), 2 * width)
  {
    hide Join, And, Pow2, EvenMask;
    if |lanes| == 0 {
      JoinNone(width);
      JoinNone(2 * width);
      AndNothing(EvenMask(width, n));
    } else if |lanes| == 1 {
      JoinStep(lanes, width);
      JoinNone(width);
      JoinStep(Evens(lanes), 2 * width);
      JoinNone(2 * width);
      assert lanes[1..] == [];
      MaskKeepsLane(lanes[0], 0, 0, width, n);
      AndNothing(EvenMask(width, n - 1));
    } else {
      JoinTwo(lanes, width);
      MaskKeepsEvens(lanes[2..], width, n - 1);
      JoinStep(Evens(lanes), 2 * width);
      assert Evens(lanes)[1..] == Evens(lanes[2..]);
      MaskKeepsLane(lanes[0], lanes[1], Join(lanes[2..], width), width, n);
    }
  }

  lemma AndNothing(b: nat)
    ensures And(0, b) == 0
  {
  }

  lemma MaskKeepsLane(a: nat, b: nat, rest: nat, width: nat, n: nat)
    requires a < Pow2(width) && b < Pow2(width) && n > 0
    ensures 0 <= a + Pow2(width) * b + Pow2(2 * width) * rest
    ensures And(a + Pow2(width) * b + Pow2(2 * width) * rest, EvenMask(width, n))
            == a + Pow2(2 * width) * And(rest, EvenMask(width, n - 1))
  {
    TwoLanesFit(a, b, width);
    MulNonNeg(Pow2(2 * width), rest);
    AndParts(a + Pow2(width) * b, rest, Pow2(width) - 1, EvenMask(width, n - 1), 2 * width);
    AndMask(a + Pow2(width) * b, width);
    hide Pow2, And;
  }

  // Adding numbers lane by lane; the second may have fewer lanes.
  function AddLanes(a: seq<nat>, b: seq<nat>): (r: seq<nat>)
    requires |b| <= |a|
    ensures |r| == |a|
    ensures forall k | 0 <= k < |a| :: r[k] == a[k] + if k < |b| then b[k] else 0
  {
    if b == [] then a else [a[0] + b[0]] + AddLanes(a[1..], b[1..])
  }

  lemma {:induction false} JoinAdd(a: seq<nat>, b: seq<nat>, width: nat)
    requires |b| <= |a|
    ensures Join(a, width) + Join(b, width) == Join(AddLanes(a, b), width)
  {
    hide Join, Pow2;
    if b == [] {
      JoinNone(width);
    } else {
      JoinAdd(a[1..], b[1..], width);
      var r := AddLanes(a, b);
      assert r[1..] == AddLanes(a[1..], b[1..]);
      JoinStep(a, width);
      JoinStep(b, width);
      JoinStep(r, width);
      Distribute(Pow2(width), Join(a[1..], width), Join(b[1..], width));
    }
  }

  lemma {:induction false} EvensAndOdds(lanes: seq<nat>)
    requires lanes != []
    ensures |Evens(lanes[1..])| <= |Evens(lanes)| && AddLanes(Evens(lanes), Evens(lanes[1..])) == Paired(lanes)
  {
    if |lanes| == 1 {
      assert lanes[1..] == [];
    } else if |lanes| == 2 {
      assert lanes[2..] == [] && Evens(lanes) == [lanes[0]] + Evens(lanes[2..]);
      assert Evens(lanes) == [lanes[0]];
      assert lanes[1..] == [lanes[1]];
      assert Paired(lanes) == [lanes[0] + lanes[1]];
    } else {
      EvensAndOdds(lanes[2..]);
      EvensStep(lanes);
      EvensStep(lanes[1..]);
      assert lanes[1..][2..] == lanes[2..][1..];
      assert lanes[1..][0] == lanes[1];
      AddLanesStep(Evens(lanes), Evens(lanes[1..]));
      hide Evens, AddLanes;
    }
  }

  lemma EvensStep(lanes: seq<nat>)
    requires |lanes| >= 2
    ensures Evens(lanes) != [] && Evens(lanes)[0] == lanes[0] && Evens(lanes)[1..] == Evens(lanes[2..])
  {
  }

  lemma AddLanesStep(a: seq<nat>, b: seq<nat>)
    requires 0 < |b| <= |a|
    ensures AddLanes(a, b) == [a[0] + b[0]] + AddLanes(a[1..], b[1..])
  {
  }

  // A masked pass adds up neighbouring lanes without overflow.
  lemma MaskedPass(lanes: seq<nat>, width: nat, n: nat)
    requires LanesFit(lanes, width) && lanes != [] && |lanes| <= 2 * n
    ensures 0 <= Join(lanes, width) / Pow2(width)
    ensures And(Join(lanes, width), EvenMask(width, n)) + And(Join(lanes, width) / Pow2(width), EvenMask(width, n))
            == Join(Paired(lanes), 2 * width)
  {
    hide Join, Pow2, And, EvenMask, Evens, AddLanes, Paired;
    DivNonNeg(Join(lanes, width), Pow2(width));
    MaskKeepsEvens(lanes, width, n);
    ShiftDropsLanes(lanes, width, 1);
    MaskKeepsEvens(lanes[1..], width, n);
    EvensAndOdds(lanes);
    JoinAdd(Evens(lanes), Evens(lanes[1..]), 2 * width);
  }

  // An unmasked pass adds to every lane the one s further up.
  lemma UnmaskedPass(lanes: seq<nat>, width: nat, s: nat)
    requires LanesFit(lanes, width)
    ensures 0 <= Join(lanes, width) / Pow2(s * width)
    ensures var up := if s <= |lanes| then lanes[s..] else [];
            Join(lanes, width) + Join(lanes, width) / Pow2(s * width) == Join(AddLanes(lanes, up), width)
  {
    hide Join, Pow2, AddLanes;
    DivNonNeg(Join(lanes, width), Pow2(s * width));
    ShiftDropsLanes(lanes, width, s);
    JoinAdd(lanes, if s <= |lanes| then lanes[s..] else [], width);
  }

  // ----- no wrap-around -----

  // The top lane starts inside the word.
  ghost predicate InWord(lanes: seq<nat>, width: nat, size: nat) {
    && lanes != [] && LanesFit(lanes, width) && (|lanes| - 1) * width < size
    && Join(lanes, width) < Pow2(size)
  }

  lemma {:induction false} PairedSmaller(lanes: seq<nat>, width: nat)
    ensures Join(Paired(lanes), 2 * width) <= Join(lanes, width)
  {
    hide Join, Pow2;
    if |lanes| == 0 {
      JoinNone(width);
      JoinNone(2 * width);
    } else if |lanes| == 1 {
      JoinStep(lanes, width);
      JoinStep(Paired(lanes), 2 * width);
      assert lanes[1..] == [] && Paired(lanes)[1..] == [];
      JoinNone(width);
      JoinNone(2 * width);
    } else {
      PairedSmaller(lanes[2..], width);
      JoinTwo(lanes, width);
      JoinStep(Paired(lanes), 2 * width);
      assert Paired(lanes)[1..] == Paired(lanes[2..]);
      PairStep(lanes[0], lanes[1], Join(Paired(lanes[2..]), 2 * width), Join(lanes[2..], width), width);
    }
  }

  lemma PairStep(a: nat, b: nat, x: nat, y: nat, width: nat)
    requires x <= y
    ensures a + b + Pow2(2 * width) * x <= a + Pow2(width) * b + Pow2(2 * width) * y
  {
    hide Pow2;
    MulLe(x, y, Pow2(2 * width));
    MulLe(1, Pow2(width), b);
  }

  lemma PairedInWord(lanes: seq<nat>, width: nat, size: nat)
    requires InWord(lanes, width, size) && width > 0
    ensures InWord(Paired(lanes), 2 * width, size)
  {
    hide Join, Pow2, Paired;
    PairedFit(lanes, width);
    PairedSmaller(lanes, width);
    var k := |Paired(lanes)| - 1;
    MulLe(2 * k, |lanes| - 1, width);
    MulAssoc(2, k, width);
    MulAssoc(k, 2, width);
  }

  // Lanes that fit, with the same top lane, stay in the word.
  lemma SameTopInWord(lanes: seq<nat>, more: seq<nat>, width: nat, size: nat)
    requires InWord(lanes, width, size) && |more| == |lanes| && LanesFit(more, width)
    requires more[|more| - 1] == lanes[|lanes| - 1]
    ensures InWord(more, width, size)
  {
    hide Join, Pow2;
    var k := |lanes| - 1;
    JoinTop(lanes, width);
    JoinTop(more, width);
    MulNonNeg(k, width);
    var e := Pow2(size - k * width);
    Pow2Split(size, k * width);
    assert Pow2(size) == e * Pow2(k * width);
    MulCancelLt(lanes[k], e, Pow2(k * width));
    MulLe(lanes[k] + 1, e, Pow2(k * width));
  }

  // ----- sums of windows -----

  function Least(a: nat, b: nat): nat {
    if a <= b then a else b
  }

  // A lane with the s - 1 lanes above it.
  function Window(lanes: seq<nat>, k: nat, s: nat): nat
    requires k < |lanes|
  {
    Total(lanes[k..Least(k + s, |lanes|)])
  }

  function Windows(lanes: seq<nat>, s: nat): (r: seq<nat>)
    requires s > 0
    ensures |r| == |lanes|
    ensures forall k: nat | k < |lanes| :: r[k] == Window(lanes, k, s)
  {
    seq(|lanes|, k requires 0 <= k < |lanes| => Window(lanes, k, s))
  }

  lemma WindowsOne(lanes: seq<nat>)
    ensures Windows(lanes, 1) == lanes
  {
    forall k: nat | k < |lanes|
      ensures Windows(lanes, 1)[k] == lanes[k]
    {
      assert lanes[k..k + 1] == [lanes[k]];
      OneTotal(lanes[k]);
    }
    assert Windows(lanes, 1) == lanes;
  }

  lemma WindowDouble(lanes: seq<nat>, k: nat, s: nat)
    requires k < |lanes| && s > 0
    ensures Window(lanes, k, 2 * s) == Window(lanes, k, s) + if k + s < |lanes| then Window(lanes, k + s, s) else 0
  {
    if k + s < |lanes| {
      var m := Least(k + 2 * s, |lanes|);
      assert lanes[k..m] == lanes[k..k + s] + lanes[k + s..m];
      TotalAppend(lanes[k..k + s], lanes[k + s..m]);
    }
    hide Total;
  }

  lemma WindowsDouble(lanes: seq<nat>, s: nat)
    requires s > 0
    ensures var w := Windows(lanes, s);
            AddLanes(w, if s <= |lanes| then w[s..] else []) == Windows(lanes, 2 * s)
  {
    hide AddLanes, Windows, Window;
    var w := Windows(lanes, s);
    var r, e := AddLanes(w, if s <= |lanes| then w[s..] else []), Windows(lanes, 2 * s);
    forall k: nat | k < |lanes|
      ensures r[k] == e[k]
    {
      WindowDouble(lanes, k, s);
    }
    assert r == e;
  }

  lemma {:induction false} WindowAtMost(lanes: seq<nat>, lo: nat, hi: nat)
    requires lo <= hi <= |lanes|
    ensures Total(lanes[lo..hi]) <= Total(lanes)
  {
    assert lanes == lanes[..lo] + (lanes[lo..hi] + lanes[hi..]);
    TotalAppend(lanes[..lo], lanes[lo..hi] + lanes[hi..]);
    TotalAppend(lanes[lo..hi], lanes[hi..]);
    hide Total;
  }

  // An unmasked pass in the word.
  lemma WindowsInWord(lanes: seq<nat>, width: nat, size: nat, s: nat)
    requires InWord(lanes, width, size) && Total(lanes) < Pow2(width) && s > 0
    ensures InWord(Windows(lanes, s), width, size)
  {
    hide Join, Pow2, Windows;
    var w, n := Windows(lanes, s), |lanes|;
    forall k: nat | k < n
      ensures w[k] < Pow2(width)
    {
      WindowAtMost(lanes, k, Least(k + s, n));
    }
    assert lanes[n - 1..n] == [lanes[n - 1]];
    OneTotal(lanes[n - 1]);
    assert w[n - 1] == Window(lanes, n - 1, s);
    SameTopInWord(lanes, w, width, size);
  }

  lemma OneTotal(x: nat)
    ensures Total([x]) == x
  {
    assert [x][1..] == [];
  }

  // ----- the masks -----

  // Second lanes in a word.
  function MaskLanes(size: nat, width: nat): nat
    requires width > 0
  {
    DivNonNeg(size + 2 * width - 1, 2 * width);
    (size + 2 * width - 1) / (2 * width)
  }

  lemma MaskLanesEnough(size: nat, width: nat, n: nat)
    requires width > 0 && n > 0 && (n - 1) * width < size
    ensures n <= 2 * MaskLanes(size, width)
  {
    var m := MaskLanes(size, width);
    DivMod(size + 2 * width - 1, 2 * width);
    MulAssoc(m, 2, width);
    if 2 * m < n {
      MulLe(m * 2, n - 1, width);
    }
  }

  lemma {:induction false} EvenMaskNext(width: nat, k: nat)
    ensures EvenMask(width, k + 1) == EvenMask(width, k) + (Pow2(width) - 1) * Pow2(2 * width * k)
  {
    hide Pow2;
    if k == 0 {
      Pow2Zero();
    } else {
      EvenMaskNext(width, k - 1);
      var q, p := Pow2(2 * width), Pow2(2 * width * (k - 1));
      MulAdd(k - 1, 1, 2 * width);
      Pow2Add(2 * width * (k - 1), 2 * width);
      MaskShift(q, EvenMask(width, k - 1), Pow2(width) - 1, p);
    }
  }

  lemma MaskShift(q: nat, e: nat, m: nat, p: nat)
    ensures q * (e + m * p) == q * e + m * (p * q)
  {
    Distribute(q, e, m * p);
    MulAssoc(m, p, q);
  }

  // One mask: the lanes are added one by one, cut off at the end of the word.
  method GenerateReductionMask(size: nat, width: nat) returns (mask: nat)
    requires width > 0
    ensures mask == EvenMask(width, MaskLanes(size, width)) % Pow2(size)
  {
    hide Pow2, EvenMask, MaskLanes;
    mask := 0;
    var j := 0;
    ghost var k := 0;
    MaskStart(size, width);
    while j < size
      invariant j == 2 * width * k && k <= MaskLanes(size, width)
      invariant mask == EvenMask(width, k) % Pow2(size)
      invariant j >= size ==> k == MaskLanes(size, width)
      decreases size - j
    {
      var lane := (Pow2(width) - 1) * Pow2(j);
      EvenMaskNext(width, k);
      ModAddMod(EvenMask(width, k), lane, Pow2(size));
      MulNonNeg(Pow2(width) - 1, Pow2(j));
      mask := (mask + lane) % Pow2(size);
      LaneCount(size, width, k);
      j := j + 2 * width;
      k := k + 1;
    }
  }

  lemma MaskStart(size: nat, width: nat)
    requires width > 0
    ensures EvenMask(width, 0) % Pow2(size) == 0
    ensures size == 0 ==> MaskLanes(size, width) == 0
  {
    SmallDivMod(0, Pow2(size));
    if size == 0 {
      SmallDivMod(2 * width - 1, 2 * width);
    }
  }

  lemma LaneCount(size: nat, width: nat, k: nat)
    requires width > 0 && 2 * width * k < size
    ensures k + 1 <= MaskLanes(size, width)
    ensures 2 * width * (k + 1) == 2 * width * k + 2 * width
    ensures 2 * width * (k + 1) >= size ==> k + 1 == MaskLanes(size, width)
  {
    MulAdd(k, 1, 2 * width);
    DivLower(size + 2 * width - 1, 2 * width, k + 1);
    if 2 * width * (k + 1) >= size {
      MulAdd(k + 1, 1, 2 * width);
      DivUpper(size + 2 * width - 1, 2 * width, k + 2);
    }
  }

  // A mask cut off at the word size acts like the whole mask.
  lemma AndCutOff(x: nat, m: nat, size: nat)
    requires x < Pow2(size)
    ensures And(x, m % Pow2(size)) == And(x, m)
  {
    hide And, Pow2;
    var p := Pow2(size);
    var lo, hi := m % p, m / p;
    DivMod(m, p);
    DivNonNeg(m, p);
    AndParts(x, 0, lo, hi, size);
    AndNothing(hi);
    assert m == lo + p * hi && x == x + p * 0;
  }

  // ----- the tree reduction -----

  // One pass with mask.
  lemma MaskedStep(lanes: seq<nat>, width: nat, size: nat, mask: nat)
    requires width > 0 && InWord(lanes, width, size)
    requires mask == EvenMask(width, MaskLanes(size, width)) % Pow2(size)
    ensures var sum := Join(lanes, width);
            && 0 <= sum / Pow2(width)
            && (And(sum, mask) + And(sum / Pow2(width), mask)) % Pow2(size) == Join(Paired(lanes), 2 * width)
    ensures InWord(Paired(lanes), 2 * width, size) && Total(Paired(lanes)) == Total(lanes)
  {
    hide Join, Pow2, And, EvenMask, MaskLanes, Paired, Total;
    var sum, m := Join(lanes, width), EvenMask(width, MaskLanes(size, width));
    DivNonNeg(sum, Pow2(width));
    MaskLanesEnough(size, width, |lanes|);
    MaskedPass(lanes, width, MaskLanes(size, width));
    AndCutOff(sum, m, size);
    AndCutOff(sum / Pow2(width), m, size);
    PairedInWord(lanes, width, size);
    SmallDivMod(Join(Paired(lanes), 2 * width), Pow2(size));
    PairedTotal(lanes);
  }

  // One pass without mask.
  lemma UnmaskedStep(base: seq<nat>, width: nat, size: nat, s: nat)
    requires InWord(base, width, size) && Total(base) < Pow2(width) && s > 0
    ensures var sum := Join(Windows(base, s), width);
            && 0 <= sum / Pow2(s * width)
            && (sum + sum / Pow2(s * width)) % Pow2(size) == Join(Windows(base, 2 * s), width)
  {
    hide Join, Pow2, Total, Windows, AddLanes;
    WindowsInWord(base, width, size, s);
    WindowsInWord(base, width, size, 2 * s);
    UnmaskedPass(Windows(base, s), width, s);
    WindowsDouble(base, s);
    SmallDivMod(Join(Windows(base, 2 * s), width), Pow2(size));
  }

  // The lowest lane is the whole sum once the window covers all lanes.
  lemma LowestWindow(base: seq<nat>, width: nat, s: nat, low: nat)
    requires base != [] && |base| <= s && low <= width && Total(base) < Pow2(low)
    ensures And(Join(Windows(base, s), width), Pow2(low) - 1) == Total(base)
  {
    hide Join, Pow2, Windows, Total, And;
    var w := Windows(base, s);
    assert base[0..|base|] == base;
    assert w[0] == Window(base, 0, s) == Total(base);
    JoinStep(w, width);
    AndMask(Join(w, width), low);
    Pow2Split(width, low);
    var rest := Join(w[1..], width);
    MulAssoc(Pow2(low), Pow2(width - low), rest);
    AddMulDiv(w[0], Pow2(width - low) * rest, Pow2(low));
    assert Pow2(width) * rest == Pow2(width - low) * rest * Pow2(low);
    SmallDivMod(w[0], Pow2(low));
  }

  // The counters below the index as lanes; one empty lane if there are none.
  function FirstLanes(c: seq<nat>, index: nat): (r: seq<nat>)
    requires index <= |c|
    ensures |r| == if index == 0 then 1 else index
  {
    if index == 0 then [0] else c[..index]
  }

  // What the first passes start from.
  lemma FirstLanesInWord(c: seq<nat>, width: nat, size: nat, word: nat, index: nat)
    requires width > 0 && size > 0 && LanesFit(c, width) && index <= |c| && |c| * width <= size
    requires word < Pow2(size) && word % Pow2(|c| * width) == Join(c, width)
    ensures 0 <= width * index && And(word, Pow2(width * index) - 1) == Join(FirstLanes(c, index), width)
    ensures InWord(FirstLanes(c, index), width, size)
    ensures Total(FirstLanes(c, index)) == Start(c, index)
  {
    hide Join, Pow2, And, Total, Start;
    MulNonNeg(width, index);
    assert width * index == index * width;
    MulLe(index, |c|, width);
    AndMask(word, index * width);
    ModOfMod(word, Pow2(index * width), Pow2(|c| * width - index * width));
    Pow2Split(|c| * width, index * width);
    JoinPrefix(c, width, |c|);
    JoinPrefix(c, width, index);
    assert c[..|c|] == c;
    TotalIsStart(c, index);
    Pow2Mono(index * width, size);
    var f := FirstLanes(c, index);
    if index == 0 {
      assert c[..0] == [];
      JoinNone(width);
      JoinStep(f, width);
      assert f[1..] == [];
      OneTotal(0);
      EmptyTotal();
    } else {
      MulAdd(index - 1, 1, width);
    }
  }

  lemma EmptyTotal()
    ensures Total([]) == 0
  {
  }

  // The masks of all passes.
  ghost predicate MasksAre(masks: seq<nat>, size: nat, width: nat)
    requires width > 0
  {
    forall i: nat | i < |masks| :: IsMask(masks[i], size, width, i)
  }

  ghost predicate IsMask(mask: nat, size: nat, width: nat, i: nat)
    requires width > 0
  {
    MulPos(width, Pow2(i));
    mask == EvenMask(width * Pow2(i), MaskLanes(size, width * Pow2(i))) % Pow2(size)
  }

  lemma DoubleWidth(width: nat, i: nat)
    requires width > 0
    ensures width * Pow2(i) > 0 && width * Pow2(i + 1) == 2 * (width * Pow2(i))
  {
    MulPos(width, Pow2(i));
    MulAssoc(width, 2, Pow2(i));
    MulAssoc(2, width, Pow2(i));
  }

  // Halving the number of lanes often enough leaves one.
  lemma LanesLeft(n: nat, done: nat, passes: nat)
    requires done < passes && n <= Pow2(passes - done)
    ensures (n + 1) / 2 <= Pow2(passes - done - 1)
  {
  }

  // The passes with mask.
  method MaskedPasses(start: nat, size: nat, width: nat, masks: seq<nat>, count: nat, passes: nat, ghost first: seq<nat>)
    returns (sum: nat, shift: nat, ghost lanes: seq<nat>)
    requires width > 0 && size > 0 && InWord(first, width, size) && start == Join(first, width)
    requires count <= passes && count <= |masks| && MasksAre(masks, size, width) && |first| <= Pow2(passes)
    ensures shift == width * Pow2(count) && InWord(lanes, shift, size) && sum == Join(lanes, shift)
    ensures Total(lanes) == Total(first) && |lanes| <= Pow2(passes - count)
  {
    hide *;
    sum, shift, lanes := start, width, first;
    Pow2Zero();
    for i := 0 to count
      invariant shift == width * Pow2(i) && shift > 0
      invariant InWord(lanes, shift, size) && sum == Join(lanes, shift) && Total(lanes) == Total(first)
      invariant |lanes| <= Pow2(passes - i)
    {
      InWordMeans(lanes, shift, size);
      MaskAt(masks, size, width, i);
      MaskedStep(lanes, shift, size, masks[i]);
      DoubleWidth(width, i);
      LanesLeft(|lanes|, i, passes);
      sum := (And(sum, masks[i]) + And(sum / Pow2(shift), masks[i])) % Pow2(size);
      lanes := Paired(lanes);
      shift := 2 * shift;
    }
  }

  // The passes without mask.
  method UnmaskedPasses(start: nat, size: nat, laneWidth: nat, count: nat, ghost base: seq<nat>) returns (sum: nat)
    requires InWord(base, laneWidth, size) && start == Join(base, laneWidth) && Total(base) < Pow2(laneWidth)
    ensures sum == Join(Windows(base, Pow2(count)), laneWidth)
  {
    hide *;
    var shift := laneWidth;
    sum := start;
    Pow2Zero();
    WindowsOne(base);
    for i := 0 to count
      invariant shift == Pow2(i) * laneWidth
      invariant sum == Join(Windows(base, Pow2(i)), laneWidth)
    {
      UnmaskedStep(base, laneWidth, size, Pow2(i));
      DoubleShift(laneWidth, i);
      sum := (sum + sum / Pow2(shift)) % Pow2(size);
      shift := 2 * shift;
    }
  }

  // The tree reduction over a word whose low bits hold the counters c, each
  // of the given width. Masked passes widen the lanes until they can hold the
  // sum of all counters below the index; the others need no mask.
  method ExclusiveReduceWithParallelSum(word: nat, size: nat, width: nat, index: nat, masks: seq<nat>,
                                        maskedCount: nat, numPasses: nat, ghost c: seq<nat>) returns (sum: nat)
    requires width > 0 && size > 0 && LanesFit(c, width) && index <= |c| && |c| * width <= size
    requires word < Pow2(size) && word % Pow2(|c| * width) == Join(c, width)
    requires maskedCount <= numPasses <= |masks| && MasksAre(masks, size, width) && |c| <= Pow2(numPasses)
    requires Start(c, index) < Pow2(width * (maskedCount + 1))
    ensures sum == Start(c, index)
  {
    hide *;
    FirstLanesInWord(c, width, size, word, index);
    var shift;
    ghost var lanes;
    sum, shift, lanes := MaskedPasses(And(word, Pow2(width * index) - 1), size, width, masks, maskedCount, numPasses,
                                      FirstLanes(c, index));
    WideEnough(width, maskedCount);
    Pow2Mono(width * (maskedCount + 1), shift);
    sum := UnmaskedPasses(sum, size, shift, numPasses - maskedCount, lanes);
    InWordMeans(lanes, shift, size);
    LowestWindow(lanes, shift, Pow2(numPasses - maskedCount), width * (maskedCount + 1));
    sum := And(sum, Pow2(width * (maskedCount + 1)) - 1);
  }

  lemma InWordMeans(lanes: seq<nat>, width: nat, size: nat)
    requires InWord(lanes, width, size)
    ensures lanes != []
  {
  }

  lemma MaskAt(masks: seq<nat>, size: nat, width: nat, i: nat)
    requires width > 0 && i < |masks| && MasksAre(masks, size, width)
    ensures width * Pow2(i) > 0
    ensures masks[i] == EvenMask(width * Pow2(i), MaskLanes(size, width * Pow2(i))) % Pow2(size)
  {
    MulPos(width, Pow2(i));
    assert IsMask(masks[i], size, width, i);
    hide EvenMask, MaskLanes, Pow2;
  }

  // After m doublings a lane is at least m + 1 counters wide.
  lemma WideEnough(width: nat, m: nat)
    ensures 0 <= width * (m + 1) <= width * Pow2(m)
  {
    Pow2Exceeds(m);
    MulLe(m + 1, Pow2(m), width);
    MulNonNeg(width, m + 1);
  }

  lemma DoubleShift(width: nat, i: nat)
    ensures Pow2(i + 1) == 2 * Pow2(i)
    ensures Pow2(i) * width >= 0 && Pow2(i + 1) * width == 2 * (Pow2(i) * width)
  {
    MulNonNeg(Pow2(i), width);
    MulAssoc(2, Pow2(i), width);
  }
}
