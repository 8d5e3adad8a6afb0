/** Fixed-width bit fields in byte memory: the three ways of reading and writing one
    all act on the same array of numbers. */
module FieldAccess {
  import opened Arith
  import opened BitFields
  import opened Lanes
  import opened Windows

  const BYTE: nat := 8

  // The number that the memory stands for.
  function Memory(bytes: seq<nat>): nat {
    Value(bytes, BYTE)
  }

  function WordBits(size: nat): nat {
    size * BYTE
  }

  // Word number k of the given size in bytes.
  function Word(bytes: seq<nat>, size: nat, k: nat): nat
    requires k * size + size <= |bytes|
  {
    MulNonNeg(k, size);
    Load(bytes, BYTE, k * size, size)
  }

  // A bit address as a word and a position in it.
  ghost predicate At(address: nat, size: nat, k: nat, shift: nat) {
    0 < size && shift < WordBits(size) && 0 <= k * WordBits(size) && address == k * WordBits(size) + shift
  }

  lemma WordOf(address: nat, size: nat)
    requires 0 < size
    ensures WordBits(size) > 0 && 0 <= address / WordBits(size)
    ensures At(address, size, address / WordBits(size), address % WordBits(size))
  {
    DivMod(address, WordBits(size));
    DivNonNeg(address, WordBits(size));
    MulNonNeg(address / WordBits(size), WordBits(size));
  }

  lemma WordIsField(bytes: seq<nat>, size: nat, k: nat)
    requires LanesFit(bytes, BYTE) && k * size + size <= |bytes|
    ensures 0 <= k * WordBits(size)
    ensures Word(bytes, size, k) == Extract(Memory(bytes), k * WordBits(size), WordBits(size)) < Pow2(WordBits(size))
  {
    hide Extract, Pow2, Value, Load;
    MulNonNeg(k, size);
    MulAssoc(k, size, BYTE);
    LoadIsExtract(bytes, BYTE, k * size, size);
    ExtractBound(Memory(bytes), k * WordBits(size), WordBits(size));
  }

  // ----- reading -----

  // Fields that never cross a word.
  function AlignedGather(bytes: seq<nat>, size: nat, n: nat, address: nat): nat
    requires 0 < size && address / WordBits(size) * size + size <= |bytes|
  {
    WordOf(address, size);
    Extract(Word(bytes, size, address / WordBits(size)), address % WordBits(size), n)
  }

  // A load from the byte where the field starts.
  function ByteGather(bytes: seq<nat>, size: nat, n: nat, address: nat): nat
    requires address / BYTE + size <= |bytes|
  {
    Extract(Load(bytes, BYTE, address / BYTE, size), address % BYTE, n)
  }

  // Shifts in a word drop what leaves it.
  function ShiftLeft(x: nat, s: nat, w: nat): nat {
    MulNonNeg(x, Pow2(s));
    x * Pow2(s) % Pow2(w)
  }

  function ShiftRight(x: nat, s: nat): nat {
    DivNonNeg(x, Pow2(s));
    x / Pow2(s)
  }

  // The end of one word and the start of the next. The left shift is done in
  // two parts because it can be as long as the word.
  function WordGather(bytes: seq<nat>, size: nat, n: nat, address: nat): nat
    requires 0 < size && address / WordBits(size) * size + 2 * size <= |bytes|
  {
    WordOf(address, size);
    var w, k, right := WordBits(size), address / WordBits(size), address % WordBits(size);
    MulAdd(k, 1, size);
    var value1 := ShiftRight(Word(bytes, size, k), right);
    var value2 := ShiftLeft(ShiftLeft(Word(bytes, size, k + 1), 1, w), w - 1 - right, w);
    Or(value1, value2) % Pow2(n)
  }

  // A field whose width divides that of the word and its own address stays
  // inside a word.
  lemma AlignedStaysInside(address: nat, w: nat, n: nat)
    requires 0 < n && 0 < w && w % n == 0 && address % n == 0
    ensures address % w + n <= w
  {
    DivMod(address, w);
    DivMod(w, n);
    DivMod(address, n);
    var q, m, k := address / w, w / n, address / n;
    MulAssoc(q, m, n);
    MulSub(k, q * m, n);
    var r := k - q * m;
    assert address % w == r * n;
    if r >= m {
      MulLe(m, r, n);
    }
    MulLe(r + 1, m, n);
    MulAdd(r, 1, n);
  }

  lemma AlignedGatherIs(bytes: seq<nat>, size: nat, n: nat, address: nat)
    requires LanesFit(bytes, BYTE) && 0 < size && address / WordBits(size) * size + size <= |bytes|
    requires 0 < n && WordBits(size) % n == 0 && address % n == 0
    ensures AlignedGather(bytes, size, n, address) == Extract(Memory(bytes), address, n)
  {
    hide Extract, Pow2, Value, Load, Word, Memory;
    WordOf(address, size);
    AlignedStaysInside(address, WordBits(size), n);
    WordIsField(bytes, size, address / WordBits(size));
    NestedExtract(Memory(bytes), address / WordBits(size) * WordBits(size), WordBits(size), address % WordBits(size), n);
  }

  lemma ByteGatherIs(bytes: seq<nat>, size: nat, n: nat, address: nat)
    requires LanesFit(bytes, BYTE) && address / BYTE + size <= |bytes| && BYTE + n <= WordBits(size)
    ensures ByteGather(bytes, size, n, address) == Extract(Memory(bytes), address, n)
  {
    hide Extract, Pow2, Value, Load;
    WindowExtract(bytes, BYTE, address / BYTE, size, address % BYTE, n);
  }

  // The shift in two parts is one shift, and what it adds lies above what the
  // other word left.
  lemma TwoPartShift(u: nat, w: nat, right: nat)
    requires right < w
    ensures ShiftLeft(ShiftLeft(u, 1, w), w - 1 - right, w) == u % Pow2(right) * Pow2(w - right)
  {
    assert Pow2(1) == 2;
    hide Pow2;
    var p := Pow2(w - right);
    Pow2Split(w, w - right);
    Pow2Split(w, 1);
    Pow2Add(1, w - 1 - right);
    var h := Pow2(w - 1 - right);
    Pow2Split(w - 1, w - 1 - right);
    DoubleShift(u, h, Pow2(right));
  }

  // Doubling, then scaling by h, both modulo 2 h q.
  lemma DoubleShift(u: nat, h: nat, q: nat)
    requires h > 0 && q > 0
    ensures 2 * (h * q) > 0 && 0 <= u * 2 % (2 * (h * q)) * h
    ensures u * 2 % (2 * (h * q)) * h % (2 * (h * q)) == u % q * (2 * h)
  {
    MulPos(h, q);
    DivScale(u, h * q, 2);
    assert (h * q) * 2 == 2 * (h * q);
    var r := u % (h * q);
    assert u * 2 % (2 * (h * q)) == r * 2;
    MulAssoc(r, 2, h);
    assert r * 2 * h == r * (2 * h);
    DivScale(r, q, 2 * h);
    assert q * (2 * h) == 2 * (h * q);
    ModOfMod(u, q, h);
    assert q * h == h * q;
  }

  // A word at any position in a pair of words.
  lemma PairShift(u: nat, u2: nat, w: nat, right: nat)
    requires u < Pow2(w) && u2 < Pow2(w) && right < w
    ensures 0 <= u + Pow2(w) * u2
    ensures Or(ShiftRight(u, right), ShiftLeft(ShiftLeft(u2, 1, w), w - 1 - right, w))
            == Extract(u + Pow2(w) * u2, right, w)
  {
    hide Pow2, Or, ShiftLeft;
    TwoPartShift(u2, w, right);
    ShiftedWord(u, u2, w, right);
    var a, b, p := u2 % Pow2(right), ShiftRight(u, right), Pow2(w - right);
    MulNonNeg(a, p);
    OrDisjoint(a, b, w - right);
    OrCommutes(b, a * p);
    Pow2Split(w, w - right);
    AddMulDiv(b, u2, p);
    SmallDivMod(b, p);
    DivDiv(b + u2 * p, p, Pow2(right));
  }

  // Two neighbouring fields.
  lemma ExtractSplit(x: nat, a: nat, l1: nat, l2: nat)
    ensures 0 <= Pow2(l1) * Extract(x, a + l1, l2)
    ensures Extract(x, a, l1 + l2) == Extract(x, a, l1) + Pow2(l1) * Extract(x, a + l1, l2)
  {
    hide Pow2;
    DivNonNeg(x, Pow2(a));
    Pow2Add(l1, l2);
    Pow2Add(a, l1);
    DivDiv(x / Pow2(a), Pow2(l1), Pow2(l2));
    DivDiv(x, Pow2(a), Pow2(l1));
    MulNonNeg(Pow2(l1), Extract(x, a + l1, l2));
  }

  lemma LowExtract(x: nat, n: nat)
    ensures Extract(x, 0, n) == x % Pow2(n)
  {
    Pow2Zero();
    hide Pow2;
    DivModUnique(x, 1, x, 0);
  }

  lemma WordGatherIs(bytes: seq<nat>, size: nat, n: nat, address: nat)
    requires LanesFit(bytes, BYTE) && 0 < size && address / WordBits(size) * size + 2 * size <= |bytes|
    requires n <= WordBits(size)
    ensures WordGather(bytes, size, n, address) == Extract(Memory(bytes), address, n)
  {
    hide Extract, Pow2, Value, Load, Word, Memory, Or, ShiftLeft, ShiftRight;
    WordOf(address, size);
    var w, k, right := WordBits(size), address / WordBits(size), address % WordBits(size);
    MulAdd(k, 1, size);
    MulAdd(k, 1, w);
    WordIsField(bytes, size, k);
    WordIsField(bytes, size, k + 1);
    var x := Memory(bytes);
    ExtractSplit(x, k * w, w, w);
    PairShift(Word(bytes, size, k), Word(bytes, size, k + 1), w, right);
    NestedExtract(x, k * w, w + w, right, w);
    NestedExtract(x, address, w, 0, n);
    LowExtract(Extract(x, address, w), n);
  }

  // ----- writing -----

  lemma DepositNothing(x: nat, start: nat)
    ensures Deposit(x, start, 0, 0) == x
  {
    Pow2Zero();
    hide Pow2;
    DivMod(x, Pow2(start));
  }

  // A field written in two parts.
  lemma DepositSplit(x: nat, a: nat, l1: nat, l2: nat, v: nat)
    requires v < Pow2(l1 + l2)
    ensures 0 <= v / Pow2(l1) < Pow2(l2)
    ensures Deposit(Deposit(x, a, l1, v % Pow2(l1)), a + l1, l2, v / Pow2(l1)) == Deposit(x, a, l1 + l2, v)
  {
    hide Pow2, Extract, Deposit;
    Pow2Add(l1, l2);
    DivNonNeg(v, Pow2(l1));
    DivUpper(v, Pow2(l1), Pow2(l2));
    DivMod(v, Pow2(l1));
    var low, high := v % Pow2(l1), v / Pow2(l1);
    var y := Deposit(x, a, l1, low);
    var z := Deposit(y, a + l1, l2, high);
    DepositParts(x, a, l1, low);
    DepositParts(y, a + l1, l2, high);
    LowerAgree(z, y, a, l1);
    ExtractSplit(z, a, l1, l2);
    UpperAgree(y, x, a + l1, l2);
    DepositUnique(x, z, a, l1 + l2, v);
  }

  // Numbers that agree below a point agree below and in any field under it.
  lemma LowerAgree(x: nat, y: nat, a: nat, l: nat)
    requires x % Pow2(a + l) == y % Pow2(a + l)
    ensures x % Pow2(a) == y % Pow2(a) && Extract(x, a, l) == Extract(y, a, l)
  {
    hide Pow2, Extract;
    Pow2Add(a, l);
    ModOfMod(x, Pow2(a), Pow2(l));
    ModOfMod(y, Pow2(a), Pow2(l));
    ExtractLow(x, a, l, a + l);
    ExtractLow(y, a, l, a + l);
  }

  lemma UpperAgree(x: nat, y: nat, b: nat, l: nat)
    requires x / Pow2(b) == y / Pow2(b)
    ensures x / Pow2(b + l) == y / Pow2(b + l)
  {
    hide Pow2;
    Pow2Add(b, l);
    DivDiv(x, Pow2(b), Pow2(l));
    DivDiv(y, Pow2(b), Pow2(l));
  }

  // Replaces the bits of a word between two positions.
  lemma WordReplaced(bytes: seq<nat>, p: nat, size: nat, o: nat, l: nat, v: nat)
    requires LanesFit(bytes, BYTE) && p + size <= |bytes| && o + l <= WordBits(size) && v < Pow2(l)
    ensures 0 <= p * BYTE
    ensures var r := Store(bytes, BYTE, p, size, OneWord(Load(bytes, BYTE, p, size), o, o + l, v));
            LanesFit(r, BYTE) && Memory(r) == Deposit(Memory(bytes), p * BYTE + o, l, v)
  {
    hide Pow2, Extract, Deposit, OneWord, Store, Load, Value;
    MulNonNeg(p, BYTE);
    LoadIsExtract(bytes, BYTE, p, size);
    ExtractBound(Value(bytes, BYTE), p * BYTE, size * BYTE);
    OneWordParts(Load(bytes, BYTE, p, size), WordBits(size), o, l, v);
    WindowDeposit(bytes, BYTE, p, size, o, l, v);
  }

  method ReplaceInWord(a: array<nat>, p: nat, size: nat, o: nat, l: nat, v: nat)
    requires LanesFit(a[..], BYTE) && p + size <= a.Length && o + l <= WordBits(size) && v < Pow2(l)
    modifies a
    ensures LanesFit(a[..], BYTE)
    ensures 0 <= p * BYTE && Memory(a[..]) == Deposit(old(Memory(a[..])), p * BYTE + o, l, v)
  {
    hide *;
    WordReplaced(a[..], p, size, o, l, v);
    var oldValue := Load(a[..], BYTE, p, size);
    var merged := OneWord(oldValue, o, o + l, v);
    StoreDigits(a, BYTE, p, size, merged);
  }

  lemma WordAt(address: nat, size: nat)
    requires 0 < size
    ensures var k, shift := address / WordBits(size), address % WordBits(size);
            0 <= k * size && k * size * BYTE + shift == address && 0 <= shift < WordBits(size)
            && 0 <= (k + 1) * size && (k + 1) * size == k * size + size
            && (k + 1) * size * BYTE == address - shift + WordBits(size)
  {
    WordOf(address, size);
    var k := address / WordBits(size);
    MulNonNeg(k, size);
    MulAssoc(k, size, BYTE);
    MulAdd(k, 1, size);
  }

  lemma MaskedFits(value: nat, n: nat)
    ensures 0 <= value % Pow2(n) < Pow2(n)
  {
    hide Pow2;
    DivMod(value, Pow2(n));
  }

  method AlignedScatter(a: array<nat>, size: nat, n: nat, address: nat, value: nat)
    requires LanesFit(a[..], BYTE) && 0 < size && address / WordBits(size) * size + size <= a.Length
    requires 0 < n && WordBits(size) % n == 0 && address % n == 0
    modifies a
    ensures LanesFit(a[..], BYTE)
    ensures Memory(a[..]) == Deposit(old(Memory(a[..])), address, n, value % Pow2(n))
  {
    hide *;
    WordAt(address, size);
    AlignedStaysInside(address, WordBits(size), n);
    MaskedFits(value, n);
    var k := address / WordBits(size);
    ReplaceInWord(a, k * size, size, address % WordBits(size), n, value % Pow2(n));
  }

  method ByteScatter(a: array<nat>, size: nat, n: nat, address: nat, value: nat)
    requires LanesFit(a[..], BYTE) && address / BYTE + size <= a.Length && BYTE + n <= WordBits(size)
    modifies a
    ensures LanesFit(a[..], BYTE)
    ensures Memory(a[..]) == Deposit(old(Memory(a[..])), address, n, value % Pow2(n))
  {
    hide Pow2, Deposit, Value, LanesFit;
    MaskedFits(value, n);
    ReplaceInWord(a, address / BYTE, size, address % BYTE, n, value % Pow2(n));
  }

  // The part of the value that fits the first word, then the rest. The second
  // word is written back even when the field ends in the first.
  method WordScatter(a: array<nat>, size: nat, n: nat, address: nat, value: nat)
    requires LanesFit(a[..], BYTE) && 0 < size && address / WordBits(size) * size + 2 * size <= a.Length
    requires n <= WordBits(size)
    modifies a
    ensures LanesFit(a[..], BYTE)
    ensures Memory(a[..]) == Deposit(old(Memory(a[..])), address, n, value % Pow2(n))
  {
    hide *;
    WordAt(address, size);
    MaskedFits(value, n);
    var w, k, left := WordBits(size), address / WordBits(size), address % WordBits(size);
    var masked := value % Pow2(n);
    var first := if left + n <= w then n else w - left;
    DepositSplit(Memory(a[..]), address, first, n - first, masked);
    MaskedFits(masked, first);
    ReplaceInWord(a, k * size, size, left, first, masked % Pow2(first));
    ReplaceInWord(a, (k + 1) * size, size, 0, n - first, masked / Pow2(first));
    if first == n {
      SmallDivMod(masked, Pow2(n));
      DepositNothing(old(Memory(a[..])), address + n);
      DepositNothing(Deposit(old(Memory(a[..])), address, n, masked), (k + 1) * size * BYTE + 0);
    }
  }

  // ----- the array of numbers -----

  function Field(bytes: seq<nat>, n: nat, j: nat): nat {
    MulNonNeg(j, n);
    Extract(Memory(bytes), j * n, n)
  }

  // After a write, the number reads back masked and every other one is the same.
  lemma FieldsAfterWrite(before: seq<nat>, after: seq<nat>, n: nat, j: nat, value: nat)
    requires 0 <= j * n && Memory(after) == Deposit(Memory(before), j * n, n, value % Pow2(n))
    ensures Field(after, n, j) == value % Pow2(n)
    ensures forall i: nat | i != j :: Field(after, n, i) == Field(before, n, i)
  {
    hide Pow2, Extract, Deposit, Memory;
    MaskedFits(value, n);
    ExtractDeposit(Memory(before), j * n, n, value % Pow2(n), 0, 0);
    forall i: nat | i != j
      ensures Field(after, n, i) == Field(before, n, i)
    {
      MulNonNeg(i, n);
      if i < j {
        MulLe(i + 1, j, n);
        MulAdd(i, 1, n);
      } else {
        MulLe(j + 1, i, n);
        MulAdd(j, 1, n);
      }
      ExtractDeposit(Memory(before), j * n, n, value % Pow2(n), i * n, n);
    }
  }

  // Wherever two strategies apply they read the same.
  lemma GathersAgree(bytes: seq<nat>, size: nat, n: nat, j: nat)
    requires LanesFit(bytes, BYTE) && 0 < size && 0 < n <= WordBits(size)
    requires 0 <= j * n && j * n / WordBits(size) * size + 2 * size <= |bytes|
    ensures WordGather(bytes, size, n, j * n) == Field(bytes, n, j)
    ensures WordBits(size) % n == 0 ==>
              j * n / WordBits(size) * size + size <= |bytes| && AlignedGather(bytes, size, n, j * n) == Field(bytes, n, j)
    ensures BYTE + n <= WordBits(size) && j * n / BYTE + size <= |bytes| ==>
              ByteGather(bytes, size, n, j * n) == Field(bytes, n, j)
  {
    hide Pow2, Extract, Memory, WordGather, AlignedGather, ByteGather;
    DivModUnique(j * n, n, j, 0);
    WordGatherIs(bytes, size, n, j * n);
    if WordBits(size) % n == 0 {
      AlignedGatherIs(bytes, size, n, j * n);
    }
    if BYTE + n <= WordBits(size) && j * n / BYTE + size <= |bytes| {
      ByteGatherIs(bytes, size, n, j * n);
    }
  }
}
