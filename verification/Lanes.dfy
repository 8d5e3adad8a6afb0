/** Numbers as sequences of digits of a fixed width: the lanes of a word and the
    words of an array. */
module Lanes {
  import opened Arith

  // The number with the given lanes, the lowest first.
  function Join(lanes: seq<nat>, width: nat): nat {
    if lanes == [] then 0
    else
      MulNonNeg(Pow2(width), Join(lanes[1..], width));
      lanes[0] + Pow2(width) * Join(lanes[1..], width)
  }

  ghost predicate LanesFit(lanes: seq<nat>, width: nat) {
    forall k | 0 <= k < |lanes| :: lanes[k] < Pow2(width)
  }

  lemma JoinStep(lanes: seq<nat>, width: nat)
    requires lanes != []
    ensures 0 <= Pow2(width) * Join(lanes[1..], width)
    ensures Join(lanes, width) == lanes[0] + Pow2(width) * Join(lanes[1..], width)
  {
    MulNonNeg(Pow2(width), Join(lanes[1..], width));
  }

  lemma JoinNone(width: nat)
    ensures Join([], width) == 0
  {
  }

  lemma Distribute(p: nat, a: int, b: int)
    ensures p * (a + b) == p * a + p * b
  {
  }

  // Shifting by whole lanes drops them.
  lemma {:induction false} ShiftDropsLanes(lanes: seq<nat>, width: nat, s: nat)
    requires LanesFit(lanes, width)
    ensures Join(lanes, width) / Pow2(s * width) == Join(if s <= |lanes| then lanes[s..] else [], width)
  {
    hide Join, Pow2;
    if s == 0 {
      Pow2Zero();
      assert lanes[0..] == lanes;
    } else if lanes == [] {
      JoinNone(width);
      SmallDivMod(0, Pow2(s * width));
    } else {
      JoinStep(lanes, width);
      ShiftDropsLanes(lanes[1..], width, s - 1);
      var p := Pow2(width);
      DivModUnique(Join(lanes, width), p, Join(lanes[1..], width), lanes[0]);
      Pow2Add(width, (s - 1) * width);
      MulAdd(s - 1, 1, width);
      DivDiv(Join(lanes, width), p, Pow2((s - 1) * width));
      if s <= |lanes| {
        assert lanes[1..][s - 1..] == lanes[s..];
      }
    }
  }

  lemma {:induction false} JoinPrefix(c: seq<nat>, width: nat, m: nat)
    requires LanesFit(c, width) && m <= |c|
    ensures Join(c, width) % Pow2(m * width) == Join(c[..m], width) < Pow2(m * width)
  {
    hide Join, Pow2;
    if m == 0 {
      Pow2Zero();
      JoinNone(width);
      assert c[..0] == [];
    } else {
      JoinPrefix(c[1..], width, m - 1);
      JoinStep(c, width);
      JoinStep(c[..m], width);
      assert c[..m][1..] == c[1..][..m - 1];
      MulAdd(m - 1, 1, width);
      Pow2Add(width, (m - 1) * width);
      PrefixStep(c[0], Join(c[1..], width), Pow2(width), Pow2((m - 1) * width));
    }
  }

  lemma PrefixStep(low: nat, j: nat, p: nat, q: nat)
    requires low < p && q > 0
    ensures 0 <= low + p * j && p * q > 0
    ensures (low + p * j) % (p * q) == low + p * (j % q) < p * q
  {
    MulNonNeg(p, j);
    DivModUnique(low + p * j, p, j, low);
    DivDiv(low + p * j, p, q);
    MulLe(j % q + 1, q, p);
    MulAdd(j % q, 1, p);
  }

  // The lanes below the top one stay below it.
  lemma {:induction false} JoinTop(lanes: seq<nat>, width: nat)
    requires lanes != [] && LanesFit(lanes, width)
    ensures var k := |lanes| - 1;
            lanes[k] * Pow2(k * width) <= Join(lanes, width) < (lanes[k] + 1) * Pow2(k * width)
  {
    hide Join, Pow2;
    var k := |lanes| - 1;
    JoinStep(lanes, width);
    if k == 0 {
      assert lanes[1..] == [];
      JoinNone(width);
      Pow2Zero();
    } else {
      JoinTop(lanes[1..], width);
      var p, q, j, top := Pow2(width), Pow2((k - 1) * width), Join(lanes[1..], width), lanes[k];
      MulAdd(k - 1, 1, width);
      Pow2Add((k - 1) * width, width);
      TopStep(lanes[0], top, p, q, j);
    }
  }

  lemma TopStep(low: nat, top: nat, p: nat, q: nat, j: nat)
    requires low < p && top * q <= j < (top + 1) * q
    ensures top * (q * p) <= low + p * j < (top + 1) * (q * p)
  {
    MulLe(top * q, j, p);
    MulLe(j + 1, (top + 1) * q, p);
    MulAdd(j, 1, p);
    MulAssoc(top, q, p);
    MulAssoc(top + 1, q, p);
    assert p * j == j * p;
  }
}
