/** One bucket of the packed cuckoo table: four tags sorted by their low nibbles, the
    nibbles coded in twelve bits and the direct bits side by side above them. */
module PackedBucket {
  import opened Arith
  import opened BitFields
  import opened Lanes
  import opened PermCode
  import opened VacuumCode

  // ----- sorting -----

  function Low(tag: nat): nat {
    tag % 16
  }

  function Direct(tag: nat): nat {
    tag / 16
  }

  // The smaller low nibble first.
  function SortPair(s: seq<nat>, i: nat, j: nat): (r: seq<nat>)
    requires i < j < |s|
    ensures |r| == |s|
  {
    if Low(s[i]) > Low(s[j]) then s[i := s[j]][j := s[i]] else s
  }

  function SortTags(s: seq<nat>): (r: seq<nat>)
    requires |s| == 4
    ensures |r| == 4
  {
    SortPair(SortPair(SortPair(SortPair(SortPair(s, 0, 2), 1, 3), 0, 1), 2, 3), 1, 2)
  }

  predicate Sorted(s: seq<nat>) {
    |s| == 4 && Low(s[0]) <= Low(s[1]) <= Low(s[2]) <= Low(s[3])
  }

  lemma SortPairKeeps(s: seq<nat>, i: nat, j: nat)
    requires i < j < |s|
    ensures multiset(SortPair(s, i, j)) == multiset(s)
  {
    if Low(s[i]) > Low(s[j]) {
      var r := s[i := s[j]];
      assert multiset(r) == multiset(s) - multiset{s[i]} + multiset{s[j]};
      assert multiset(r[j := s[i]]) == multiset(r) - multiset{r[j]} + multiset{s[i]};
    }
  }

  lemma SortPairOrders(s: seq<nat>, i: nat, j: nat)
    requires i < j < |s|
    ensures var r := SortPair(s, i, j);
            && Low(r[i]) <= Low(r[j]) && (r == s || (r[i] == s[j] && r[j] == s[i]))
            && forall k | 0 <= k < |s| && k != i && k != j :: r[k] == s[k]
  {
  }

  // The five comparisons sort any four tags.
  lemma SortTagsSorts(s: seq<nat>)
    requires |s| == 4
    ensures Sorted(SortTags(s)) && multiset(SortTags(s)) == multiset(s)
  {
    hide SortPair, Low;
    var a := SortPair(s, 0, 2);
    var b := SortPair(a, 1, 3);
    var c := SortPair(b, 0, 1);
    var d := SortPair(c, 2, 3);
    SortPairKeeps(s, 0, 2);
    SortPairKeeps(a, 1, 3);
    SortPairKeeps(b, 0, 1);
    SortPairKeeps(c, 2, 3);
    SortPairKeeps(d, 1, 2);
    SortPairOrders(s, 0, 2);
    SortPairOrders(a, 1, 3);
    SortPairOrders(b, 0, 1);
    SortPairOrders(c, 2, 3);
    SortPairOrders(d, 1, 2);
  }

  // ----- the code -----

  const CODE_BITS: nat := 12
  const CODES: nat := 4096

  // Tags of a low nibble and d direct bits.
  ghost predicate Tags(s: seq<nat>, d: nat) {
    |s| == 4 && forall k | 0 <= k < 4 :: s[k] < 16 * Pow2(d)
  }

  function LowQuad(s: seq<nat>): Quad
    requires |s| == 4
  {
    Quad(Low(s[0]), Low(s[1]), Low(s[2]), Low(s[3]))
  }

  function Directs(s: seq<nat>): (r: seq<nat>)
    requires |s| == 4
    ensures |r| == 4
  {
    [Direct(s[0]), Direct(s[1]), Direct(s[2]), Direct(s[3])]
  }

  // The two parts of a packed bucket.
  function CodePart(x: nat): nat {
    x % CODES
  }

  function DirectPart(x: nat): nat {
    x / CODES
  }

  // The code in the lowest bits, the direct bits of the tags above it.
  function Packed(s: seq<nat>, d: nat, enc: seq<nat>): nat
    requires |s| == 4 && Pack(LowQuad(s)) < |enc|
  {
    enc[Pack(LowQuad(s))] + CODES * Join(Directs(s), d)
  }

  function OneTag(x: nat, d: nat, k: nat, nibble: nat): nat {
    16 * Extract(x, CODE_BITS + k * d, d) + nibble
  }

  function Unpacked(x: nat, d: nat, dec: seq<nat>): (s: seq<nat>)
    requires CodePart(x) < |dec|
    ensures |s| == 4
  {
    var q := Unpack(dec[CodePart(x)]);
    [OneTag(x, d, 0, q.a), OneTag(x, d, 1, q.b), OneTag(x, d, 2, q.c), OneTag(x, d, 3, q.d)]
  }

  lemma CodePower()
    ensures Pow2(CODE_BITS) == CODES && Pow2(4) == 16
  {
  }

  lemma TagParts(tag: nat, d: nat)
    requires tag < 16 * Pow2(d)
    ensures tag == 16 * Direct(tag) + Low(tag) && Low(tag) < 16 && Direct(tag) < Pow2(d)
  {
    hide Pow2;
  }

  lemma DirectsFit(s: seq<nat>, d: nat)
    requires Tags(s, d)
    ensures LanesFit(Directs(s), d)
  {
    TagParts(s[0], d);
    TagParts(s[1], d);
    TagParts(s[2], d);
    TagParts(s[3], d);
    hide Direct, Pow2;
  }

  // The code of a sorted bucket.
  lemma CodeOf(s: seq<nat>, enc: seq<nat>, dec: seq<nat>)
    requires Sorted(s) && PermCode.Filled(enc, dec, ENTRIES)
    ensures Pack(LowQuad(s)) < |enc| && |dec| == ENTRIES && enc[Pack(LowQuad(s))] < ENTRIES
    ensures dec[enc[Pack(LowQuad(s))]] == Pack(LowQuad(s))
  {
    hide Pack, Low;
    PermCode.TablesInverse(enc, dec);
    LowsAscend(s);
  }

  lemma DirectsBound(s: seq<nat>, d: nat)
    requires Tags(s, d)
    ensures Join(Directs(s), d) < Pow2(4 * d)
  {
    hide Pow2, Join, Direct;
    DirectsFit(s, d);
    JoinPrefix(Directs(s), d, 4);
    assert Directs(s)[..4] == Directs(s);
  }

  lemma PackedIs(s: seq<nat>, d: nat, enc: seq<nat>)
    requires |s| == 4 && Pack(LowQuad(s)) < |enc|
    ensures Packed(s, d, enc) == enc[Pack(LowQuad(s))] + CODES * Join(Directs(s), d)
  {
    hide Pack, Join;
  }

  // The parts of a packed bucket.
  lemma PackedParts(s: seq<nat>, d: nat, enc: seq<nat>, dec: seq<nat>)
    requires Tags(s, d) && Sorted(s) && PermCode.Filled(enc, dec, ENTRIES)
    ensures |s| == 4 && Pack(LowQuad(s)) < |enc| && |dec| == ENTRIES && enc[Pack(LowQuad(s))] < ENTRIES
    ensures dec[enc[Pack(LowQuad(s))]] == Pack(LowQuad(s))
    ensures Packed(s, d, enc) < Pow2(CODE_BITS + 4 * d)
    ensures CodePart(Packed(s, d, enc)) == enc[Pack(LowQuad(s))]
    ensures DirectPart(Packed(s, d, enc)) == Join(Directs(s), d)
  {
    hide *;
    SortedIs(s);
    CodeOf(s, enc, dec);
    DirectsBound(s, d);
    PackedIs(s, d, enc);
    CodeNumber(enc[Pack(LowQuad(s))], Join(Directs(s), d), 4 * d);
  }

  lemma SortedIs(s: seq<nat>)
    requires Sorted(s)
    ensures |s| == 4
  {
  }

  lemma CodeNumber(code: nat, j: nat, k: nat)
    requires code < ENTRIES && j < Pow2(k)
    ensures var x := code + CODES * j;
            x < Pow2(CODE_BITS + k) && CodePart(x) == code && DirectPart(x) == j
  {
    CodePower();
    Pow2Add(CODE_BITS, k);
    hide Pow2;
    DivModUnique(code + CODES * j, CODES, j, code);
    assert CODES * (j + 1) <= CODES * Pow2(k);
  }

  lemma LowsAscend(s: seq<nat>)
    requires Sorted(s)
    ensures Ascending(LowQuad(s))
  {
  }

  // One tag comes back.
  lemma OneTagBack(x: nat, d: nat, directs: seq<nat>, k: nat, tag: nat)
    requires |directs| == 4 && LanesFit(directs, d) && k < 4 && tag < 16 * Pow2(d)
    requires DirectPart(x) == Join(directs, d) && directs[k] == Direct(tag)
    ensures OneTag(x, d, k, Low(tag)) == tag
  {
    hide Pow2, Join, Extract, Direct, Low;
    CodePower();
    MulNonNeg(k, d);
    ExtractHigh(x, CODE_BITS + k * d, d, CODE_BITS);
    LaneIsField(directs, d, k);
    TagParts(tag, d);
  }

  // Unpacking gives back the sorted tags.
  lemma UnpackedPacked(s: seq<nat>, d: nat, enc: seq<nat>, dec: seq<nat>)
    requires Tags(s, d) && Sorted(s) && PermCode.Filled(enc, dec, ENTRIES)
    ensures Pack(LowQuad(s)) < |enc| && |dec| == ENTRIES
    ensures Packed(s, d, enc) < Pow2(CODE_BITS + 4 * d) && CodePart(Packed(s, d, enc)) < ENTRIES
    ensures Unpacked(Packed(s, d, enc), d, dec) == s
  {
    hide Pow2, Join, Pack, Unpack, Low, Direct, Packed, OneTag;
    PackedParts(s, d, enc, dec);
    DirectsFit(s, d);
    var x := Packed(s, d, enc);
    TagParts(s[0], d);
    TagParts(s[1], d);
    TagParts(s[2], d);
    TagParts(s[3], d);
    UnpackPack(LowQuad(s));
    OneTagBack(x, d, Directs(s), 0, s[0]);
    OneTagBack(x, d, Directs(s), 1, s[1]);
    OneTagBack(x, d, Directs(s), 2, s[2]);
    OneTagBack(x, d, Directs(s), 3, s[3]);
  }

  // Whatever has a valid code unpacks to sorted tags.
  lemma UnpackedIsSorted(x: nat, d: nat, enc: seq<nat>, dec: seq<nat>)
    requires PermCode.Filled(enc, dec, ENTRIES) && CodePart(x) < ENTRIES
    ensures |dec| == ENTRIES && Tags(Unpacked(x, d, dec), d) && Sorted(Unpacked(x, d, dec))
  {
    hide *;
    PermCode.TablesInverse(enc, dec);
    TablesFit(enc, dec);
    var q := Unpack(dec[CodePart(x)]);
    AscendingMeans(q);
    OneTagParts(x, d, 0, q.a);
    OneTagParts(x, d, 1, q.b);
    OneTagParts(x, d, 2, q.c);
    OneTagParts(x, d, 3, q.d);
    UnpackedTags(x, d, dec);
    FourTags(Unpacked(x, d, dec), d);
  }

  lemma TablesFit(enc: seq<nat>, dec: seq<nat>)
    requires PermCode.Filled(enc, dec, ENTRIES)
    ensures |dec| == ENTRIES
  {
  }

  lemma AscendingMeans(q: Quad)
    ensures Ascending(q) <==> q.a <= q.b <= q.c <= q.d < 16
  {
  }

  lemma UnpackedTags(x: nat, d: nat, dec: seq<nat>)
    requires CodePart(x) < |dec|
    ensures var q := Unpack(dec[CodePart(x)]);
            Unpacked(x, d, dec)
            == [OneTag(x, d, 0, q.a), OneTag(x, d, 1, q.b), OneTag(x, d, 2, q.c), OneTag(x, d, 3, q.d)]
  {
    hide OneTag, Unpack, CodePart;
  }

  lemma FourTags(s: seq<nat>, d: nat)
    requires |s| == 4 && forall k | 0 <= k < 4 :: s[k] < 16 * Pow2(d)
    requires Low(s[0]) <= Low(s[1]) <= Low(s[2]) <= Low(s[3])
    ensures Tags(s, d) && Sorted(s)
  {
    hide Low, Pow2;
  }

  lemma OneTagParts(x: nat, d: nat, k: nat, nibble: nat)
    requires nibble < 16
    ensures Low(OneTag(x, d, k, nibble)) == nibble && OneTag(x, d, k, nibble) < 16 * Pow2(d)
  {
    hide Pow2, Extract;
    MulNonNeg(k, d);
    ExtractBound(x, CODE_BITS + k * d, d);
  }
}
