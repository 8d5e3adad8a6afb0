/** Loads and stores of several neighbouring digits at once, and bit fields inside
    what was loaded: a field read or changed in a window is that field of the
    whole number. */
module Windows {
  import opened Arith
  import opened BitFields
  import opened Lanes

  // A field of a field.
  lemma NestedExtract(x: nat, start: nat, len: nat, o: nat, l: nat)
    requires o + l <= len
    ensures Extract(Extract(x, start, len), o, l) == Extract(x, start + o, l)
  {
    hide Pow2;
    DivNonNeg(x, Pow2(start));
    ExtractLow(x / Pow2(start), o, l, len);
    ExtractHigh(x, start + o, l, start);
  }

  // The bits of a field below a point and above it, in terms of the field.
  lemma AroundField(x: nat, start: nat, len: nat, o: nat, hi: nat)
    requires o <= hi <= len
    ensures x % Pow2(start + o) == (Extract(x, start, len) % Pow2(o)) * Pow2(start) + x % Pow2(start)
    ensures 0 <= x / Pow2(start + len) && x / Pow2(start + hi)
              == Extract(x, start, len) / Pow2(hi) + (x / Pow2(start + len)) * Pow2(len - hi)
  {
    hide Pow2, Extract;
    Pow2Add(start, o);
    Pow2Add(start, hi);
    DivDiv(x, Pow2(start), Pow2(o));
    DivDiv(x, Pow2(start), Pow2(hi));
    Pieces(x, start, len);
    ExtractBound(x, start, len);
    var f, rest := Extract(x, start, len), x / Pow2(start + len);
    LowOfWord(f, rest, len, o);
    ShiftedWord(f, rest, len, hi);
  }

  // A field of a field replaced.
  lemma NestedDeposit(x: nat, start: nat, len: nat, o: nat, l: nat, v: nat)
    requires o + l <= len && v < Pow2(l)
    ensures Deposit(Extract(x, start, len), o, l, v) < Pow2(len)
    ensures Deposit(x, start, len, Deposit(Extract(x, start, len), o, l, v)) == Deposit(x, start + o, l, v)
  {
    hide Pow2, Extract, Deposit, OneWord;
    var f := Extract(x, start, len);
    ExtractBound(x, start, len);
    OneWordParts(f, len, o, l, v);
    var g := Deposit(f, o, l, v);
    DepositParts(x, start, len, g);
    var y := Deposit(x, start, len, g);
    AroundField(x, start, len, o, o + l);
    AroundField(y, start, len, o, o + l);
    NestedExtract(y, start, len, o, l);
    DepositUnique(x, y, start + o, l, v);
  }

  // ----- loads -----

  // Neighbouring digits as one number.
  function Load(digits: seq<nat>, width: nat, p: nat, count: nat): nat
    requires p + count <= |digits|
  {
    Join(digits[p..p + count], width)
  }

  lemma LoadIsExtract(digits: seq<nat>, width: nat, p: nat, count: nat)
    requires p + count <= |digits| && LanesFit(digits, width)
    ensures 0 <= p * width && 0 <= count * width
    ensures Load(digits, width, p, count) == Extract(Value(digits, width), p * width, count * width)
  {
    hide Join, Pow2, Value;
    MulNonNeg(p, width);
    MulNonNeg(count, width);
    SuffixValue(digits, width, p);
    JoinPrefix(digits[p..], width, count);
    assert digits[p..][..count] == digits[p..p + count];
    ValueIs(digits[p..], width);
  }

  lemma ValueIs(digits: seq<nat>, width: nat)
    ensures Value(digits, width) == Join(digits, width)
  {
    hide Join;
  }

  // ----- stores -----

  function Digits(v: nat, width: nat, count: nat): (r: seq<nat>)
    ensures |r| == count
  {
    if count == 0 then []
    else
      DivNonNeg(v, Pow2(width));
      [v % Pow2(width)] + Digits(v / Pow2(width), width, count - 1)
  }

  lemma {:induction false} JoinDigits(v: nat, width: nat, count: nat)
    requires 0 <= count * width && v < Pow2(count * width)
    ensures LanesFit(Digits(v, width, count), width) && Join(Digits(v, width, count), width) == v
  {
    hide Pow2, Join;
    if count == 0 {
      Pow2Zero();
      JoinNone(width);
    } else {
      var p := Pow2(width);
      MulNonNeg(count - 1, width);
      MulAdd(count - 1, 1, width);
      Pow2Add((count - 1) * width, width);
      DivNonNeg(v, p);
      DivUpper(v, p, Pow2((count - 1) * width));
      JoinDigits(v / p, width, count - 1);
      var r := Digits(v, width, count);
      assert r[1..] == Digits(v / p, width, count - 1);
      JoinStep(r, width);
      DivMod(v, p);
    }
  }

  // The digits after a store.
  function Store(digits: seq<nat>, width: nat, p: nat, count: nat, v: nat): (r: seq<nat>)
    requires p + count <= |digits|
    ensures |r| == |digits|
  {
    digits[..p] + Digits(v, width, count) + digits[p + count..]
  }

  lemma StoreIsDeposit(digits: seq<nat>, width: nat, p: nat, count: nat, v: nat)
    requires p + count <= |digits| && LanesFit(digits, width)
    requires 0 <= count * width && v < Pow2(count * width)
    ensures 0 <= p * width && LanesFit(Store(digits, width, p, count, v), width)
    ensures Value(Store(digits, width, p, count, v), width)
            == Deposit(Value(digits, width), p * width, count * width, v)
  {
    hide Join, Pow2, Value, Digits, Deposit, Extract;
    MulNonNeg(p, width);
    JoinDigits(v, width, count);
    StoreFits(digits, width, p, count, v);
    var r := Store(digits, width, p, count, v);
    assert r[..p] == digits[..p] && r[p + count..] == digits[p + count..];
    assert r[p..p + count] == Digits(v, width, count);
    LoadIsExtract(r, width, p, count);
    LoadIs(r, width, p, count);
    SuffixValue(digits, width, p);
    SuffixValue(r, width, p);
    MulNonNeg(p + count, width);
    MulAdd(p, count, width);
    SuffixValue(digits, width, p + count);
    SuffixValue(r, width, p + count);
    DepositUnique(Value(digits, width), Value(r, width), p * width, count * width, v);
  }

  lemma LoadIs(digits: seq<nat>, width: nat, p: nat, count: nat)
    requires p + count <= |digits|
    ensures Load(digits, width, p, count) == Join(digits[p..p + count], width)
  {
    hide Join;
  }

  lemma StoreFits(digits: seq<nat>, width: nat, p: nat, count: nat, v: nat)
    requires p + count <= |digits| && LanesFit(digits, width) && LanesFit(Digits(v, width, count), width)
    ensures LanesFit(Store(digits, width, p, count, v), width)
  {
    hide Pow2, Digits;
  }

  // Changing a field of a window in place.
  lemma WindowDeposit(digits: seq<nat>, width: nat, p: nat, count: nat, o: nat, l: nat, v: nat)
    requires p + count <= |digits| && LanesFit(digits, width) && v < Pow2(l)
    requires o + l <= count * width
    ensures 0 <= p * width && 0 <= count * width
    ensures var u := Deposit(Load(digits, width, p, count), o, l, v);
            && u < Pow2(count * width) && LanesFit(Store(digits, width, p, count, u), width)
            && Value(Store(digits, width, p, count, u), width) == Deposit(Value(digits, width), p * width + o, l, v)
  {
    hide Join, Pow2, Value, Deposit, Extract, Store, Load;
    MulNonNeg(p, width);
    LoadIsExtract(digits, width, p, count);
    NestedDeposit(Value(digits, width), p * width, count * width, o, l, v);
    StoreIsDeposit(digits, width, p, count, Deposit(Load(digits, width, p, count), o, l, v));
  }

  // Reading a field of a window.
  lemma WindowExtract(digits: seq<nat>, width: nat, p: nat, count: nat, o: nat, l: nat)
    requires p + count <= |digits| && LanesFit(digits, width) && o + l <= count * width
    ensures 0 <= p * width
    ensures Extract(Load(digits, width, p, count), o, l) == Extract(Value(digits, width), p * width + o, l)
  {
    hide Join, Pow2, Value, Extract, Load;
    MulNonNeg(p, width);
    LoadIsExtract(digits, width, p, count);
    NestedExtract(Value(digits, width), p * width, count * width, o, l);
  }

  // Stores the digits one by one.
  method StoreDigits(a: array<nat>, width: nat, p: nat, count: nat, v: nat)
    requires p + count <= a.Length
    modifies a
    ensures a[..] == Store(old(a[..]), width, p, count, v)
  {
    hide *;
    var rest: nat := v;
    ghost var was, all := a[..], Digits(v, width, count);
    for k := 0 to count
      invariant all[k..] == Digits(rest, width, count - k)
      invariant forall m | 0 <= m < a.Length :: a[m] == if p <= m < p + k then all[m - p] else was[m]
    {
      DigitsStep(rest, width, count - k);
      a[p + k] := rest % Pow2(width);
      rest := rest / Pow2(width);
      assert all[k + 1..] == all[k..][1..];
    }
    StoreIs(was, width, p, count, v);
  }

  lemma DigitsStep(v: nat, width: nat, count: nat)
    requires count > 0
    ensures 0 <= v / Pow2(width) && Digits(v, width, count)[0] == v % Pow2(width)
    ensures Digits(v, width, count)[1..] == Digits(v / Pow2(width), width, count - 1)
  {
    DivNonNeg(v, Pow2(width));
    hide Pow2;
  }

  lemma StoreIs(digits: seq<nat>, width: nat, p: nat, count: nat, v: nat)
    requires p + count <= |digits|
    ensures Store(digits, width, p, count, v) == digits[..p] + Digits(v, width, count) + digits[p + count..]
  {
    hide Digits;
  }
}
