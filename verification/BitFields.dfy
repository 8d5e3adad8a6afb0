/** Bit fields of a number, and how an array of words holds such a number: reading
    and writing a field that may cross from one word into the next. */
module BitFields {
  import opened Arith
  import opened Lanes

  function Extract(x: nat, start: nat, len: nat): nat {
    DivNonNeg(x, Pow2(start));
    (x / Pow2(start)) % Pow2(len)
  }

  // The number with one field replaced.
  function Deposit(x: nat, start: nat, len: nat, v: nat): nat {
    DivNonNeg(x, Pow2(start + len));
    MulNonNeg(Pow2(len), x / Pow2(start + len));
    MulNonNeg(Pow2(start), v + Pow2(len) * (x / Pow2(start + len)));
    x % Pow2(start) + Pow2(start) * (v + Pow2(len) * (x / Pow2(start + len)))
  }

  // ----- laws of fields -----

  lemma Pieces(x: nat, start: nat, len: nat)
    ensures 0 <= x / Pow2(start + len) && 0 <= x / Pow2(start)
    ensures x / Pow2(start) == Extract(x, start, len) + Pow2(len) * (x / Pow2(start + len))
    ensures x == x % Pow2(start) + Pow2(start) * (x / Pow2(start))
  {
    hide Pow2;
    var p, q := Pow2(start), Pow2(len);
    DivNonNeg(x, p);
    DivNonNeg(x, Pow2(start + len));
    DivMod(x, p);
    Pow2Add(start, len);
    DivDiv(x, p, q);
    DivMod(x / p, q);
  }

  // A number is determined by a field and what lies below and above it.
  lemma DepositUnique(x: nat, y: nat, start: nat, len: nat, v: nat)
    requires y % Pow2(start) == x % Pow2(start) && Extract(y, start, len) == v
    requires y / Pow2(start + len) == x / Pow2(start + len)
    ensures y == Deposit(x, start, len, v)
  {
    hide Pow2, Extract;
    Pieces(y, start, len);
  }

  // The parts of a number after a field has been replaced.
  lemma DepositParts(x: nat, start: nat, len: nat, v: nat)
    requires v < Pow2(len)
    ensures Deposit(x, start, len, v) % Pow2(start) == x % Pow2(start)
    ensures Extract(Deposit(x, start, len, v), start, len) == v
    ensures Deposit(x, start, len, v) / Pow2(start + len) == x / Pow2(start + len)
  {
    hide Pow2;
    var p, q, r := Pow2(start), Pow2(len), x / Pow2(start + len);
    DivNonNeg(x, Pow2(start + len));
    MulNonNeg(q, r);
    var y := Deposit(x, start, len, v);
    DivMod(x, p);
    DivModUnique(y, p, v + q * r, x % p);
    DivModUnique(v + q * r, q, r, v);
    Pow2Add(start, len);
    DivDiv(y, p, q);
  }

  // Only the bits below hi matter for a field that ends there.
  lemma ExtractLow(x: nat, start: nat, len: nat, hi: nat)
    requires start + len <= hi
    ensures Extract(x % Pow2(hi), start, len) == Extract(x, start, len)
  {
    hide Pow2;
    var p, q, rest := Pow2(start), Pow2(len), Pow2(hi - start - len);
    Pow2Split(hi, start);
    Pow2Split(hi - start, len);
    ModDivMod(x, p, q, rest);
  }

  lemma ModDivMod(x: nat, p: nat, q: nat, rest: nat)
    requires p > 0 && q > 0 && rest > 0
    ensures p * (q * rest) > 0
    ensures (x % (p * (q * rest))) / p % q == x / p % q
  {
    MulPos(q, rest);
    var n := q * rest;
    DivDiv(x, p, n);
    DivModUnique(x % (p * n), p, (x / p) % n, x % p);
    ModOfMod(x / p, q, rest);
  }

  // A product with its factors in another order.
  lemma Regroup(s: nat, h: nat, k: nat, rest: nat)
    requires s == h * k
    ensures s * rest == (rest * k) * h
  {
    MulAssoc(rest, k, h);
    MulAssoc(h, k, rest);
    assert h * (k * rest) == (rest * k) * h;
  }

  lemma ExtractHigh(x: nat, start: nat, len: nat, lo: nat)
    requires lo <= start
    ensures 0 <= x / Pow2(lo) && Extract(x, start, len) == Extract(x / Pow2(lo), start - lo, len)
  {
    hide Pow2;
    DivNonNeg(x, Pow2(lo));
    Pow2Split(start, lo);
    DivDiv(x, Pow2(lo), Pow2(start - lo));
  }

  // Writing a field and reading it back; all other fields stay.
  lemma ExtractDeposit(x: nat, start: nat, len: nat, v: nat, start2: nat, len2: nat)
    requires v < Pow2(len)
    ensures Extract(Deposit(x, start, len, v), start, len) == v
    ensures start2 + len2 <= start || start + len <= start2 ==>
              Extract(Deposit(x, start, len, v), start2, len2) == Extract(x, start2, len2)
  {
    hide Pow2, Extract, Deposit;
    DepositParts(x, start, len, v);
    if start2 + len2 <= start {
      ExtractLow(x, start2, len2, start);
      ExtractLow(Deposit(x, start, len, v), start2, len2, start);
    } else if start + len <= start2 {
      ExtractHigh(x, start2, len2, start + len);
      ExtractHigh(Deposit(x, start, len, v), start2, len2, start + len);
    }
  }

  lemma ExtractBound(x: nat, start: nat, len: nat)
    ensures Extract(x, start, len) < Pow2(len)
  {
  }

  // A lane read out of the number.
  lemma {:induction false} LaneIsField(lanes: seq<nat>, width: nat, k: nat)
    requires LanesFit(lanes, width) && k < |lanes|
    ensures 0 <= k * width && Extract(Join(lanes, width), k * width, width) == lanes[k]
  {
    hide Join, Pow2;
    MulNonNeg(k, width);
    ShiftDropsLanes(lanes, width, k);
    JoinStep(lanes[k..], width);
    assert lanes[k..][0] == lanes[k];
    DivModUnique(Join(lanes[k..], width), Pow2(width), Join(lanes[k..][1..], width), lanes[k]);
  }

  // ----- fields in words -----

  // The number that an array of words stands for.
  function Value(words: seq<nat>, size: nat): nat {
    Join(words, size)
  }

  ghost predicate InWords(words: seq<nat>, size: nat, start: nat, len: nat) {
    && 1 < size && 0 < len <= size && LanesFit(words, size)
    && start + len <= |words| * size
  }

  // Reads a field from one word, or from the end of one and the start of the next.
  function ReadField(words: seq<nat>, size: nat, start: nat, len: nat): nat
    requires InWords(words, size, start, len)
  {
    FieldPosition(|words|, size, start, len);
    var w, lo := start / size, start % size;
    var hi := (start + len - 1) % size;
    if start / size == (start + len - 1) / size then
      DivNonNeg(words[w] % Pow2(hi + 1), Pow2(lo));
      (words[w] % Pow2(hi + 1)) / Pow2(lo)
    else
      DivNonNeg(words[w], Pow2(lo));
      MulNonNeg(words[w + 1] % Pow2(hi + 1), Pow2(size - lo));
      words[w] / Pow2(lo) + (words[w + 1] % Pow2(hi + 1)) * Pow2(size - lo)
  }

  lemma FieldPosition(n: nat, size: nat, start: nat, len: nat)
    requires 1 < size && 0 < len <= size && start + len <= n * size
    ensures var w, lo := start / size, start % size;
            && 0 <= w < n && start == w * size + lo
            && (if lo + len <= size
                then (start + len - 1) / size == w && (start + len - 1) % size == lo + len - 1
                else (start + len - 1) / size == w + 1 < n && (start + len - 1) % size == lo + len - 1 - size)
  {
    DivMod(start, size);
    DivNonNeg(start, size);
    DivUpper(start, size, n);
    var w, lo := start / size, start % size;
    MulAdd(w, 1, size);
    if lo + len <= size {
      DivModUnique(start + len - 1, size, w, lo + len - 1);
    } else {
      DivModUnique(start + len - 1, size, w + 1, lo + len - 1 - size);
      DivUpper(start + len - 1, size, n);
    }
  }

  // The words from w on.
  lemma SuffixValue(words: seq<nat>, size: nat, w: nat)
    requires LanesFit(words, size) && w <= |words|
    ensures Value(words, size) / Pow2(w * size) == Value(words[w..], size)
    ensures Value(words, size) % Pow2(w * size) == Value(words[..w], size)
  {
    ShiftDropsLanes(words, size, w);
    JoinPrefix(words, size, w);
    hide Join, Pow2;
  }

  lemma OneWordExtract(u: nat, rest: nat, size: nat, lo: nat, len: nat)
    requires u < Pow2(size) && lo + len <= size
    ensures 0 <= u + Pow2(size) * rest
    ensures Extract(u + Pow2(size) * rest, lo, len) == (u % Pow2(lo + len)) / Pow2(lo)
  {
    hide Pow2;
    MulNonNeg(Pow2(size), rest);
    DivModUnique(u + Pow2(size) * rest, Pow2(size), rest, u);
    ExtractLow(u + Pow2(size) * rest, lo, len, size);
    Pow2Add(lo, len);
    DivDiv(u, Pow2(lo), Pow2(len));
    DivModUnique(u % (Pow2(lo) * Pow2(len)), Pow2(lo), (u / Pow2(lo)) % Pow2(len), u % Pow2(lo));
  }

  // The low bits of a word with others above it.
  lemma LowOfWord(u: nat, rest: nat, size: nat, h: nat)
    requires h <= size
    ensures 0 <= u + Pow2(size) * rest && (u + Pow2(size) * rest) % Pow2(h) == u % Pow2(h)
  {
    hide Pow2;
    MulNonNeg(Pow2(size), rest);
    Pow2Split(size, h);
    var k := Pow2(size - h);
    Regroup(Pow2(size), Pow2(h), k, rest);
    AddMulDiv(u, rest * k, Pow2(h));
  }

  // A word shifted down with others above it.
  lemma ShiftedWord(u: nat, tail: nat, size: nat, lo: nat)
    requires u < Pow2(size) && lo <= size
    ensures 0 <= u + Pow2(size) * tail && 0 <= u / Pow2(lo) < Pow2(size - lo)
    ensures (u + Pow2(size) * tail) / Pow2(lo) == u / Pow2(lo) + tail * Pow2(size - lo)
  {
    hide Pow2;
    var p, q := Pow2(lo), Pow2(size - lo);
    MulNonNeg(Pow2(size), tail);
    Pow2Split(size, lo);
    Regroup(Pow2(size), p, q, tail);
    AddMulDiv(u, tail * q, p);
    DivNonNeg(u, p);
    DivUpper(u, p, q);
  }

  lemma TwoWordExtract(u: nat, u2: nat, rest: nat, size: nat, lo: nat, len: nat)
    requires u < Pow2(size) && u2 < Pow2(size) && lo < size < lo + len && len <= size
    ensures 0 <= u2 + Pow2(size) * rest && 0 <= u + Pow2(size) * (u2 + Pow2(size) * rest)
    ensures Extract(u + Pow2(size) * (u2 + Pow2(size) * rest), lo, len)
            == u / Pow2(lo) + (u2 % Pow2(lo + len - size)) * Pow2(size - lo)
  {
    hide Pow2;
    var q, h := Pow2(size - lo), Pow2(lo + len - size);
    MulNonNeg(Pow2(size), rest);
    var tail := u2 + Pow2(size) * rest;
    ShiftedWord(u, tail, size, lo);
    Pow2Add(size - lo, lo + len - size);
    DivModUnique(u / Pow2(lo) + tail * q, q, tail, u / Pow2(lo));
    DivDiv(u / Pow2(lo) + tail * q, q, h);
    LowOfWord(u2, rest, size, lo + len - size);
  }

  // Reading from the words is reading from the number.
  lemma ReadFieldIsExtract(words: seq<nat>, size: nat, start: nat, len: nat)
    requires InWords(words, size, start, len)
    ensures ReadField(words, size, start, len) == Extract(Value(words, size), start, len)
  {
    hide Pow2, Extract, Join, Value;
    FieldPosition(|words|, size, start, len);
    var w, lo := start / size, start % size;
    MulNonNeg(w, size);
    SuffixValue(words, size, w);
    ExtractHigh(Value(words, size), start, len, w * size);
    ValueStep(words[w..], size);
    assert words[w..][1..] == words[w + 1..];
    if lo + len <= size {
      OneWordExtract(words[w], Value(words[w + 1..], size), size, lo, len);
    } else {
      ValueStep(words[w + 1..], size);
      assert words[w + 1..][1..] == words[w + 2..];
      TwoWordExtract(words[w], words[w + 1], Value(words[w + 2..], size), size, lo, len);
    }
  }

  lemma ValueStep(words: seq<nat>, size: nat)
    requires words != []
    ensures 0 <= Pow2(size) * Value(words[1..], size)
    ensures Value(words, size) == words[0] + Pow2(size) * Value(words[1..], size)
  {
    JoinStep(words, size);
    hide Join, Pow2;
  }

  // ----- writing -----

  // The words after a field has been written.
  function WriteField(words: seq<nat>, size: nat, start: nat, len: nat, v: nat): (r: seq<nat>)
    requires InWords(words, size, start, len) && v < Pow2(len)
    ensures |r| == |words|
  {
    FieldPosition(|words|, size, start, len);
    var w, lo := start / size, start % size;
    var hi := (start + len - 1) % size;
    if start / size == (start + len - 1) / size then
      words[w := OneWord(words[w], lo, hi + 1, v)]
    else
      words[w := LowerWord(words[w], size, lo, v)][w + 1 := UpperWord(words[w + 1], size, lo, hi + 1, v)]
  }

  // The bits below lo and from hi on are kept.
  function OneWord(u: nat, lo: nat, hi: nat, v: nat): nat {
    DivNonNeg(u, Pow2(hi));
    MulNonNeg(u / Pow2(hi), Pow2(hi));
    MulNonNeg(v, Pow2(lo));
    u % Pow2(lo) + u / Pow2(hi) * Pow2(hi) + v * Pow2(lo)
  }

  function LowerWord(u: nat, size: nat, lo: nat, v: nat): nat
    requires lo <= size
  {
    MulNonNeg(v % Pow2(size - lo), Pow2(lo));
    u % Pow2(lo) + (v % Pow2(size - lo)) * Pow2(lo)
  }

  function UpperWord(u: nat, size: nat, lo: nat, hi: nat, v: nat): nat
    requires lo <= size
  {
    DivNonNeg(u, Pow2(hi));
    MulNonNeg(u / Pow2(hi), Pow2(hi));
    DivNonNeg(v, Pow2(size - lo));
    u / Pow2(hi) * Pow2(hi) + v / Pow2(size - lo)
  }

  // In one word.
  lemma OneWordDeposit(u: nat, rest: nat, size: nat, lo: nat, len: nat, v: nat)
    requires u < Pow2(size) && lo + len <= size && v < Pow2(len)
    ensures OneWord(u, lo, lo + len, v) < Pow2(size)
    ensures 0 <= Pow2(size) * rest
    ensures OneWord(u, lo, lo + len, v) + Pow2(size) * rest == Deposit(u + Pow2(size) * rest, lo, len, v)
  {
    hide Pow2, Deposit, Extract, OneWord;
    MulNonNeg(Pow2(size), rest);
    OneWordParts(u, size, lo, len, v);
    var y := OneWord(u, lo, lo + len, v);
    LowOfWord(u, rest, size, lo);
    LowOfWord(y, rest, size, lo);
    ShiftedWord(u, rest, size, lo + len);
    ShiftedWord(y, rest, size, lo + len);
    OneWordExtract(y, rest, size, lo, len);
    OneWordExtract(y, 0, size, lo, len);
    assert y + Pow2(size) * 0 == y;
    DepositUnique(u + Pow2(size) * rest, y + Pow2(size) * rest, lo, len, v);
  }

  lemma OneWordParts(u: nat, size: nat, lo: nat, len: nat, v: nat)
    requires u < Pow2(size) && lo + len <= size && v < Pow2(len)
    ensures var y := OneWord(u, lo, lo + len, v);
            && y == Deposit(u, lo, len, v) && y < Pow2(size)
            && y % Pow2(lo) == u % Pow2(lo) && y / Pow2(lo + len) == u / Pow2(lo + len)
            && Extract(y, lo, len) == v
  {
    hide Pow2, Extract;
    var p, q, r := Pow2(lo), Pow2(len), u / Pow2(lo + len);
    DivNonNeg(u, Pow2(lo + len));
    Pow2Add(lo, len);
    Regroup(p * q, p, q, r);
    MulAssoc(p, q, r);
    Distribute(p, v, q * r);
    DepositParts(u, lo, len, v);
    var y := OneWord(u, lo, lo + len, v);
    // below the word size
    DivMod(y, Pow2(lo + len));
    Pow2Split(size, lo + len);
    DivUpper(u, Pow2(lo + len), Pow2(size - lo - len));
    BelowProduct(y, Pow2(lo + len), Pow2(size - lo - len), r);
  }

  lemma BelowProduct(y: nat, d: nat, e: nat, r: nat)
    requires d > 0 && y / d == r < e
    ensures y < d * e
  {
    DivMod(y, d);
    MulLe(r + 1, e, d);
    MulAdd(r, 1, d);
  }

  lemma LowerWordParts(u: nat, size: nat, lo: nat, v: nat)
    requires lo < size
    ensures var y := LowerWord(u, size, lo, v);
            y < Pow2(size) && y % Pow2(lo) == u % Pow2(lo) && y / Pow2(lo) == v % Pow2(size - lo)
  {
    hide Pow2;
    var p, q := Pow2(lo), Pow2(size - lo);
    MulNonNeg(v % q, p);
    Pow2Split(size, lo);
    var y := LowerWord(u, size, lo, v);
    DivModUnique(y, p, v % q, u % p);
    BelowProduct(y, p, q, v % q);
  }

  lemma UpperWordParts(u: nat, size: nat, lo: nat, h: nat, v: nat)
    requires u < Pow2(size) && 0 < lo < size && h <= size && v < Pow2(size - lo + h)
    ensures var y := UpperWord(u, size, lo, h, v);
            y < Pow2(size) && y % Pow2(h) == v / Pow2(size - lo) && y / Pow2(h) == u / Pow2(h)
  {
    hide Pow2;
    var p, q := Pow2(h), Pow2(size - lo);
    DivNonNeg(u, p);
    MulNonNeg(u / p, p);
    DivNonNeg(v, q);
    Pow2Add(size - lo, h);
    DivUpper(v, q, p);
    var y := UpperWord(u, size, lo, h, v);
    DivModUnique(y, p, u / p, v / q);
    Pow2Split(size, h);
    DivUpper(u, p, Pow2(size - h));
    BelowProduct(y, p, Pow2(size - h), u / p);
  }

  // Across two words.
  lemma TwoWordDeposit(u: nat, u2: nat, rest: nat, size: nat, lo: nat, len: nat, v: nat)
    requires u < Pow2(size) && u2 < Pow2(size) && lo < size < lo + len && len <= size && v < Pow2(len)
    ensures LowerWord(u, size, lo, v) < Pow2(size) && UpperWord(u2, size, lo, lo + len - size, v) < Pow2(size)
    ensures 0 <= u2 + Pow2(size) * rest && 0 <= u + Pow2(size) * (u2 + Pow2(size) * rest)
    ensures LowerWord(u, size, lo, v) + Pow2(size) * (UpperWord(u2, size, lo, lo + len - size, v) + Pow2(size) * rest)
            == Deposit(u + Pow2(size) * (u2 + Pow2(size) * rest), lo, len, v)
  {
    hide Pow2, Deposit, Extract, LowerWord, UpperWord;
    var h, s := lo + len - size, Pow2(size);
    LowerWordParts(u, size, lo, v);
    UpperWordParts(u2, size, lo, h, v);
    var y1, y2 := LowerWord(u, size, lo, v), UpperWord(u2, size, lo, h, v);
    MulNonNeg(s, rest);
    var tail, tail2 := u2 + s * rest, y2 + s * rest;
    MulNonNeg(s, tail);
    MulNonNeg(s, tail2);
    var x, y := u + s * tail, y1 + s * tail2;
    LowOfWord(u, tail, size, lo);
    LowOfWord(y1, tail2, size, lo);
    TwoWordExtract(y1, y2, rest, size, lo, len);
    DivMod(v, Pow2(size - lo));
    Pow2Add(size, h);
    DivModUnique(x, s, tail, u);
    DivModUnique(y, s, tail2, y1);
    DivDiv(x, s, Pow2(h));
    DivDiv(y, s, Pow2(h));
    ShiftedWord(u2, rest, size, h);
    ShiftedWord(y2, rest, size, h);
    DepositUnique(x, y, lo, len, v);
  }

  // A deposit above a prefix.
  lemma DepositShift(prefix: nat, rest: nat, k: nat, lo: nat, len: nat, v: nat)
    requires prefix < Pow2(k) && v < Pow2(len)
    ensures 0 <= prefix + Pow2(k) * rest
    ensures Deposit(prefix + Pow2(k) * rest, k + lo, len, v) == prefix + Pow2(k) * Deposit(rest, lo, len, v)
  {
    hide Pow2, Deposit, Extract;
    var p := Pow2(k);
    MulNonNeg(p, rest);
    var d := Deposit(rest, lo, len, v);
    MulNonNeg(p, d);
    DepositParts(rest, lo, len, v);
    Above(prefix, rest, k, lo);
    Above(prefix, d, k, lo);
    Above(prefix, rest, k, lo + len);
    Above(prefix, d, k, lo + len);
    ExtractHigh(prefix + p * d, k + lo, len, k);
    DivModUnique(prefix + p * d, p, d, prefix);
    DepositUnique(prefix + p * rest, prefix + p * d, k + lo, len, v);
  }

  lemma Above(prefix: nat, rest: nat, k: nat, n: nat)
    requires prefix < Pow2(k)
    ensures 0 <= prefix + Pow2(k) * rest
    ensures (prefix + Pow2(k) * rest) / Pow2(k + n) == rest / Pow2(n)
    ensures (prefix + Pow2(k) * rest) % Pow2(k + n) == rest % Pow2(n) * Pow2(k) + prefix
  {
    hide Pow2;
    MulNonNeg(Pow2(k), rest);
    Pow2Add(k, n);
    DivModUnique(prefix + Pow2(k) * rest, Pow2(k), rest, prefix);
    DivDiv(prefix + Pow2(k) * rest, Pow2(k), Pow2(n));
  }

  lemma WrittenFit(words: seq<nat>, size: nat, start: nat, len: nat, v: nat)
    requires InWords(words, size, start, len) && v < Pow2(len)
    ensures LanesFit(WriteField(words, size, start, len, v), size)
  {
    hide Pow2, OneWord, LowerWord, UpperWord;
    FieldPosition(|words|, size, start, len);
    var w, lo := start / size, start % size;
    if lo + len <= size {
      OneWordDeposit(words[w], 0, size, lo, len, v);
    } else {
      TwoWordDeposit(words[w], words[w + 1], 0, size, lo, len, v);
    }
  }

  // Writing to the words is writing to the number.
  lemma WriteFieldIsDeposit(words: seq<nat>, size: nat, start: nat, len: nat, v: nat)
    requires InWords(words, size, start, len) && v < Pow2(len)
    ensures LanesFit(WriteField(words, size, start, len, v), size)
    ensures Value(WriteField(words, size, start, len, v), size) == Deposit(Value(words, size), start, len, v)
  {
    hide Pow2, Deposit, Extract, Join, Value, OneWord, LowerWord, UpperWord;
    WrittenFit(words, size, start, len, v);
    FieldPosition(|words|, size, start, len);
    var r := WriteField(words, size, start, len, v);
    var w, lo := start / size, start % size;
    MulNonNeg(w, size);
    assert r[..w] == words[..w];
    SuffixSplit(words, size, w);
    SuffixSplit(r, size, w);
    DepositShift(Value(words[..w], size), Value(words[w..], size), w * size, lo, len, v);
    ValueStep(words[w..], size);
    ValueStep(r[w..], size);
    assert words[w..][1..] == words[w + 1..] && r[w..][1..] == r[w + 1..];
    if lo + len <= size {
      assert r[w + 1..] == words[w + 1..];
      OneWordDeposit(words[w], Value(words[w + 1..], size), size, lo, len, v);
    } else {
      ValueStep(words[w + 1..], size);
      ValueStep(r[w + 1..], size);
      assert words[w + 1..][1..] == words[w + 2..] && r[w + 1..][1..] == r[w + 2..];
      assert r[w + 2..] == words[w + 2..];
      TwoWordDeposit(words[w], words[w + 1], Value(words[w + 2..], size), size, lo, len, v);
    }
  }

  lemma SuffixSplit(words: seq<nat>, size: nat, w: nat)
    requires LanesFit(words, size) && w <= |words|
    ensures 0 <= w * size && Value(words[..w], size) < Pow2(w * size)
    ensures 0 <= Pow2(w * size) * Value(words[w..], size)
    ensures Value(words, size) == Value(words[..w], size) + Pow2(w * size) * Value(words[w..], size)
  {
    hide Join, Pow2, Value;
    MulNonNeg(w, size);
    SuffixValue(words, size, w);
    DivMod(Value(words, size), Pow2(w * size));
    MulNonNeg(Pow2(w * size), Value(words[w..], size));
  }

  // ----- zero -----

  lemma {:induction false} ZeroValue(words: seq<nat>, size: nat)
    requires forall k | 0 <= k < |words| :: words[k] == 0
    ensures Value(words, size) == 0
  {
    if words == [] {
      JoinNone(size);
    } else {
      ZeroValue(words[1..], size);
      ValueStep(words, size);
    }
    hide Join, Pow2;
  }

  lemma ZeroExtract(start: nat, len: nat)
    ensures Extract(0, start, len) == 0
  {
    hide Pow2;
    SmallDivMod(0, Pow2(start));
    SmallDivMod(0, Pow2(len));
  }
}
