/** One bucket of the vacuum filter: four fingerprints in descending order, their
    high nibbles coded in twelve bits and their low bits side by side. */
module VacuumBucket {
  import opened Arith
  import opened BitFields
  import opened Lanes
  import opened VacuumCode

  // ----- sorting -----

  // The larger one first.
  function SortPair(s: seq<nat>, i: nat, j: nat): (r: seq<nat>)
    requires i < j < |s|
    ensures |r| == |s|
  {
    if s[i] < s[j] then s[i := s[j]][j := s[i]] else s
  }

  function SortStore(s: seq<nat>): (r: seq<nat>)
    requires |s| == 4
    ensures |r| == 4
  {
    SortPair(SortPair(SortPair(SortPair(SortPair(s, 0, 2), 1, 3), 0, 1), 2, 3), 1, 2)
  }

  predicate Sorted(s: seq<nat>) {
    |s| == 4 && s[3] <= s[2] <= s[1] <= s[0]
  }

  lemma SortPairKeeps(s: seq<nat>, i: nat, j: nat)
    requires i < j < |s|
    ensures multiset(SortPair(s, i, j)) == multiset(s)
  {
    if s[i] < s[j] {
      var r := s[i := s[j]];
      assert multiset(r) == multiset(s) - multiset{s[i]} + multiset{s[j]};
      assert multiset(r[j := s[i]]) == multiset(r) - multiset{r[j]} + multiset{s[i]};
    }
  }

  lemma SortPairOrders(s: seq<nat>, i: nat, j: nat)
    requires i < j < |s|
    ensures var r := SortPair(s, i, j);
            && r[j] <= r[i] && (r[i] == s[i] || r[i] == s[j]) && r[i] + r[j] == s[i] + s[j]
            && forall k | 0 <= k < |s| && k != i && k != j :: r[k] == s[k]
  {
  }

  // The five comparisons sort any four values.
  lemma SortStoreSorts(s: seq<nat>)
    requires |s| == 4
    ensures Sorted(SortStore(s)) && multiset(SortStore(s)) == multiset(s)
  {
    hide SortPair;
    var a := SortPair(s, 0, 2);
    var b := SortPair(a, 1, 3);
    var c := SortPair(b, 0, 1);
    var d := SortPair(c, 2, 3);
    SortPairKeeps(s, 0, 2);
    SortPairKeeps(a, 1, 3);
    SortPairKeeps(b, 0, 1);
    SortPairKeeps(c, 2, 3);
    SortPairKeeps(d, 1, 2);
    SortPairOrders(s, 0, 2);
    SortPairOrders(a, 1, 3);
    SortPairOrders(b, 0, 1);
    SortPairOrders(c, 2, 3);
    SortPairOrders(d, 1, 2);
  }

  // ----- the code -----

  // Fingerprints of 5 to 16 bits; all but the high nibble is stored as it is.
  ghost predicate IsStore(s: seq<nat>, bits: nat) {
    |s| == 4 && 5 <= bits <= 16 && forall i | 0 <= i < 4 :: s[i] < Pow2(bits)
  }

  function High(x: nat, low: nat): nat {
    DivNonNeg(x, Pow2(low));
    x / Pow2(low)
  }

  function HighQuad(s: seq<nat>, low: nat): Quad
    requires |s| == 4
  {
    Quad(High(s[0], low), High(s[1], low), High(s[2], low), High(s[3], low))
  }

  // The low bits, the last fingerprint lowest.
  function LowLanes(s: seq<nat>, low: nat): (r: seq<nat>)
    requires |s| == 4
    ensures |r| == 4
  {
    [s[3] % Pow2(low), s[2] % Pow2(low), s[1] % Pow2(low), s[0] % Pow2(low)]
  }

  function Encode(s: seq<nat>, low: nat, encode: seq<nat>): nat
    requires |s| == 4 && Plain(HighQuad(s, low)) < |encode|
  {
    MulNonNeg(encode[Plain(HighQuad(s, low))], Pow2(4 * low));
    encode[Plain(HighQuad(s, low))] * Pow2(4 * low) + Join(LowLanes(s, low), low)
  }

  // One fingerprint from its low bits and its nibble.
  function Assemble(result: nat, low: nat, at: nat, nibble: nat): nat {
    MulNonNeg(nibble, Pow2(low));
    Extract(result, at * low, low) + nibble * Pow2(low)
  }

  function Decode(result: nat, low: nat, decode: seq<nat>): (s: seq<nat>)
    requires High(result, 4 * low) < |decode|
    ensures |s| == 4
  {
    var d := decode[High(result, 4 * low)];
    [Assemble(result, low, 3, d / 4096 % 16), Assemble(result, low, 2, d / 256 % 16),
     Assemble(result, low, 1, d / 16 % 16), Assemble(result, low, 0, d % 16)]
  }

  lemma PowerOf4()
    ensures Pow2(4) == 16 && Pow2(12) == 4096
  {
  }

  // The high nibbles of a sorted bucket are sorted.
  lemma HighsDescend(s: seq<nat>, bits: nat)
    requires IsStore(s, bits) && Sorted(s)
    ensures Descending(HighQuad(s, bits - 4))
  {
    hide Pow2;
    PowerOf4();
    var p := Pow2(bits - 4);
    Pow2Split(bits, bits - 4);
    DivUpper(s[0], p, 16);
    DivMono(s[1], s[0], p);
    DivMono(s[2], s[1], p);
    DivMono(s[3], s[2], p);
  }

  lemma PlainNibbles(q: Quad)
    requires Descending(q)
    ensures Plain(q) / 4096 % 16 == q.a && Plain(q) / 256 % 16 == q.b
    ensures Plain(q) / 16 % 16 == q.c && Plain(q) % 16 == q.d
  {
    assert Plain(q) / 16 == q.a * 256 + q.b * 16 + q.c;
    assert Plain(q) / 256 == q.a * 16 + q.b;
    assert Plain(q) / 4096 == q.a;
  }

  // The parts of the coded bucket.
  lemma EncodeParts(s: seq<nat>, bits: nat, encode: seq<nat>, decode: seq<nat>)
    requires IsStore(s, bits) && Sorted(s) && Filled(encode, decode, ENTRIES)
    ensures var low := bits - 4; var q := HighQuad(s, low);
            && Descending(q) && Plain(q) < |encode| && encode[Plain(q)] < ENTRIES
            && decode[encode[Plain(q)]] == Plain(q)
            && Encode(s, low, encode) < Pow2(12 + 4 * low)
            && High(Encode(s, low, encode), 4 * low) == encode[Plain(q)]
            && Encode(s, low, encode) % Pow2(4 * low) == Join(LowLanes(s, low), low)
            && LanesFit(LowLanes(s, low), low)
  {
    hide Pow2, Join, Filled, Plain, High;
    var low := bits - 4;
    HighsDescend(s, bits);
    TablesInverse(encode, decode);
    FilledLength(encode, decode);
    var q := HighQuad(s, low);
    var code, lanes := encode[Plain(q)], LowLanes(s, low);
    JoinPrefix(lanes, low, 4);
    assert lanes[..4] == lanes;
    EncodeNumber(code, Join(lanes, low), 4 * low);
    HighIs(Encode(s, low, encode), 4 * low);
  }

  lemma FilledLength(encode: seq<nat>, decode: seq<nat>)
    requires Filled(encode, decode, ENTRIES)
    ensures |encode| == PLAIN_CODES && |decode| == PLAIN_CODES
  {
  }

  lemma HighIs(x: nat, low: nat)
    ensures High(x, low) == x / Pow2(low)
  {
    hide Pow2;
  }

  lemma EncodeNumber(code: nat, lanes: nat, k: nat)
    requires code < ENTRIES && lanes < Pow2(k)
    ensures var x := code * Pow2(k) + lanes;
            0 <= x < Pow2(12 + k) && x / Pow2(k) == code && x % Pow2(k) == lanes
  {
    PowerOf4();
    hide Pow2;
    var p := Pow2(k);
    MulNonNeg(code, p);
    DivModUnique(code * p + lanes, p, code, lanes);
    Pow2Add(12, k);
    MulLe(code + 1, 4096, p);
    MulAdd(code, 1, p);
  }

  // One fingerprint comes back.
  lemma AssembleBack(x: nat, low: nat, lanes: seq<nat>, result: nat, at: nat)
    requires at < 4 == |lanes| && LanesFit(lanes, low) && lanes[at] == x % Pow2(low)
    requires result % Pow2(4 * low) == Join(lanes, low)
    ensures Assemble(result, low, at, High(x, low)) == x
  {
    hide Pow2, Join, Extract;
    MulNonNeg(at, low);
    MulAdd(at, 1, low);
    MulLe(at + 1, 4, low);
    LaneIsField(lanes, low, at);
    ExtractLow(result, at * low, low, 4 * low);
    DivMod(x, Pow2(low));
    MulNonNeg(High(x, low), Pow2(low));
  }

  // Decoding gives back the sorted fingerprints.
  lemma DecodeEncode(s: seq<nat>, bits: nat, encode: seq<nat>, decode: seq<nat>)
    requires IsStore(s, bits) && Sorted(s) && Filled(encode, decode, ENTRIES)
    ensures Plain(HighQuad(s, bits - 4)) < |encode|
    ensures Encode(s, bits - 4, encode) < Pow2(12 + 4 * (bits - 4))
    ensures High(Encode(s, bits - 4, encode), 4 * (bits - 4)) < ENTRIES <= |decode|
    ensures Decode(Encode(s, bits - 4, encode), bits - 4, decode) == s
  {
    hide Pow2, Join, Filled, Plain, High, Assemble, Encode, Extract;
    FilledLength(encode, decode);
    EncodeParts(s, bits, encode, decode);
    var low := bits - 4;
    var q, lanes, result := HighQuad(s, low), LowLanes(s, low), Encode(s, low, encode);
    PlainNibbles(q);
    AssembleBack(s[3], low, lanes, result, 0);
    AssembleBack(s[2], low, lanes, result, 1);
    AssembleBack(s[1], low, lanes, result, 2);
    AssembleBack(s[0], low, lanes, result, 3);
  }
}
