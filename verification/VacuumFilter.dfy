/** The vacuum filter: two candidate buckets inside one segment, sorted buckets, and a
    kick chain that looks one step ahead. A successful insertion adds exactly one
    fingerprint, a failed one loses exactly one, and lookups are exact. */
module VacuumFilter {
  import opened Arith
  import opened BitFields
  import opened MagicAddressing
  import opened Occupancy
  import opened Runs
  import opened VacuumAddressing
  import opened VacuumBucket
  import opened VacuumTable
  import VacuumCode

  // A fingerprint with the smaller of its two buckets.
  type Entry = (nat, nat)

  // ----- addresses -----

  // One mask for each value of the two lowest bits of a fingerprint.
  ghost predicate Segments(n: nat, len: seq<nat>) {
    |len| == 4 && forall k | 0 <= k < 4 :: InChunks(n, len[k])
  }

  function Alternate(len: seq<nat>, pos: nat, fp: nat): nat
    requires |len| == 4
  {
    ChunkAlternate(pos, SignatureHash(fp), len[fp % 4])
  }

  lemma AlternateInvolution(n: nat, len: seq<nat>, pos: nat, fp: nat)
    requires Segments(n, len) && pos < n
    ensures Alternate(len, pos, fp) < n && Alternate(len, Alternate(len, pos, fp), fp) == pos
  {
    hide ChunkAlternate, SignatureHash, Chunked;
    var a: nat :| Chunked(n, len[fp % 4], a);
    ChunkInvolution(pos, SignatureHash(fp), len[fp % 4], n, a);
  }

  // The two buckets differ by the spread fingerprint, under the mask that its two
  // lowest bits choose.
  lemma AlternateIsXor(len: seq<nat>, pos: nat, fp: nat)
    requires |len| == 4
    ensures Xor(pos, Alternate(len, pos, fp)) == And((fp * 0x5bd1e995) % 0x1_0000_0000, len[fp % 4])
  {
    SignatureHashIs(fp);
    hide ChunkAlternate, SignatureHash, Xor, And;
    VacuumAddressing.AlternateIsXor(pos, SignatureHash(fp), len[fp % 4]);
  }

  function Canon(len: seq<nat>, pos: nat, fp: nat): Entry
    requires |len| == 4
  {
    var a := Alternate(len, pos, fp);
    (if pos <= a then pos else a, fp)
  }

  // Two places with the same entry are the two buckets of one fingerprint.
  lemma CanonSame(n: nat, len: seq<nat>, i: nat, j: nat, fp: nat, other: nat)
    requires Segments(n, len) && i < n && j < n
    ensures Canon(len, i, fp) == Canon(len, j, other) <==> fp == other && (j == i || j == Alternate(len, i, fp))
  {
    AlternateInvolution(n, len, i, fp);
    AlternateInvolution(n, len, j, fp);
    hide Alternate, Segments;
  }

  lemma CanonAlternate(n: nat, len: seq<nat>, i: nat, fp: nat)
    requires Segments(n, len) && i < n
    ensures Alternate(len, i, fp) < n && Canon(len, Alternate(len, i, fp), fp) == Canon(len, i, fp)
  {
    AlternateInvolution(n, len, i, fp);
    hide Alternate, Segments;
  }

  // ----- segments -----

  function RoundUp(x: nat, p: nat): nat
    requires p > 0
  {
    DivMod(x + p - 1, p);
    (x + p - 1) - (x + p - 1) % p
  }

  lemma RoundUpLaws(x: nat, p: nat)
    requires p > 0
    ensures x <= RoundUp(x, p) < x + p && RoundUp(x, p) % p == 0
  {
    DivMod(x + p - 1, p);
    DivModUnique(RoundUp(x, p), p, (x + p - 1) / p, 0);
  }

  // The smallest power of two that is not below x.
  method UpperPower2(x: nat) returns (ret: nat)
    ensures IsPower(ret) && ret > 0 && x <= ret && (ret == 1 || ret < 2 * x)
  {
    hide Pow2;
    Pow2Zero();
    ret := 1;
    ghost var k := 0;
    while ret < x
      invariant ret == Pow2(k) && (ret == 1 || ret < 2 * x)
      decreases x - ret
    {
      DoublePower(k);
      ret, k := 2 * ret, k + 1;
    }
  }

  lemma DoublePower(k: nat)
    ensures Pow2(k + 1) == 2 * Pow2(k)
  {
  }

  // The smallest power of two that is not below x.
  ghost predicate LeastPower(x: nat, p: nat) {
    IsPower(p) && x <= p && forall q: nat | IsPower(q) && x <= q :: p <= q
  }

  lemma LeastPowerIs(x: nat, p: nat)
    requires IsPower(p) && p > 0 && x <= p && (p == 1 || p < 2 * x)
    ensures LeastPower(x, p)
  {
    hide IsPower;
    forall q: nat | IsPower(q) && x <= q
      ensures p <= q
    {
      if q < p {
        PowerGap(q, p);
      }
      PowerPositive(q);
    }
  }

  lemma PowerPositive(q: nat)
    requires IsPower(q)
    ensures q > 0
  {
  }

  // One length for all kinds of fingerprints: the power of two at or above the
  // request or, from 256 on, a quarter of it; and as few segments as cover it.
  ghost predicate SmallChoice(request: nat, size: nat, len: seq<nat>) {
    |len| == 4 && len[0] == len[1] == len[2] == len[3]
    && LeastPower(if request < 256 then request else request / 4, len[0] + 1)
    && request <= size < request + len[0] + 1 && size % (len[0] + 1) == 0
  }

  // The size and the masks for a small table: one segment length for all.
  method SmallSegments(request: nat) returns (size: nat, len: seq<nat>)
    requires request < SMALL
    ensures request <= size && Segments(size, len)
    ensures SmallChoice(request, size, len)
  {
    var bigSeg;
    if request < 256 {
      bigSeg := UpperPower2(request);
    } else {
      bigSeg := UpperPower2(request / 4);
    }
    hide *;
    LeastPowerIs(if request < 256 then request else request / 4, bigSeg);
    RoundUpLaws(request, bigSeg);
    size := RoundUp(request, bigSeg);
    len := [bigSeg - 1, bigSeg - 1, bigSeg - 1, bigSeg - 1];
    OneLength(size, bigSeg, len);
    MakeSmallChoice(request, size, len, bigSeg);
  }

  lemma MakeSmallChoice(request: nat, size: nat, len: seq<nat>, p: nat)
    requires LeastPower(if request < 256 then request else request / 4, p) && p > 0
    requires request <= size < request + p && size % p == 0 && len == [p - 1, p - 1, p - 1, p - 1]
    ensures SmallChoice(request, size, len)
  {
    hide LeastPower;
    assert len[0] + 1 == p;
  }

  lemma OneLength(size: nat, p: nat, len: seq<nat>)
    requires IsPower(p) && p > 0 && size % p == 0 && len == [p - 1, p - 1, p - 1, p - 1]
    ensures Segments(size, len)
  {
    var k := PowerOf(p);
    hide Pow2, InChunks;
    OnesMaskMeans(size, k);
  }

  const SMALL: nat := 10000

  // The load test of a segment length, a floating-point estimate: for a number
  // of buckets, one of the four kinds of fingerprints, and a length.
  type Estimate = (nat, nat, nat) -> bool

  // The first length from r on, doubling, that passes the test or covers the table.
  function AltRange(passes: Estimate, buckets: nat, kind: nat, r: nat): nat
    requires r > 0
    decreases buckets - r
  {
    if r >= buckets || passes(buckets, kind, r) then r else AltRange(passes, buckets, kind, 2 * r)
  }

  method ProperAltRange(passes: Estimate, buckets: nat, kind: nat) returns (r: nat)
    ensures r == AltRange(passes, buckets, kind, 8)
  {
    r := 8;
    while r < buckets
      invariant r > 0 && AltRange(passes, buckets, kind, r) == AltRange(passes, buckets, kind, 8)
      decreases buckets - r
    {
      if passes(buckets, kind, r) {
        return;
      }
      r := 2 * r;
    }
  }

  lemma DoubleIsPower(p: nat)
    requires IsPower(p)
    ensures IsPower(2 * p)
  {
    var k := PowerOf(p);
    DoublePower(k);
    hide Pow2;
  }

  // Of two powers of two the smaller is at most half the larger.
  lemma PowerGap(p: nat, q: nat)
    requires IsPower(p) && IsPower(q) && p < q
    ensures 2 * p <= q
  {
    var k := PowerOf(p);
    var l := PowerOf(q);
    hide Pow2;
    if l <= k {
      Pow2Mono(l, k);
    } else {
      Pow2StrictMono(k, l);
    }
  }

  lemma {:induction false} AltRangeIsPower(passes: Estimate, buckets: nat, kind: nat, r: nat)
    requires r > 0 && IsPower(r)
    ensures IsPower(AltRange(passes, buckets, kind, r)) && r <= AltRange(passes, buckets, kind, r)
    decreases buckets - r
  {
    if r < buckets && !passes(buckets, kind, r) {
      DoubleIsPower(r);
      AltRangeIsPower(passes, buckets, kind, 2 * r);
    }
    hide IsPower;
  }

  // The search goes no further than a length that passes.
  lemma {:induction false} AltRangeStops(passes: Estimate, buckets: nat, kind: nat, r: nat, q: nat)
    requires 0 < r <= q && IsPower(r) && IsPower(q) && passes(buckets, kind, q)
    ensures AltRange(passes, buckets, kind, r) <= q
    decreases buckets - r
  {
    if r < buckets && !passes(buckets, kind, r) {
      PowerGap(r, q);
      DoubleIsPower(r);
      AltRangeStops(passes, buckets, kind, 2 * r, q);
    }
    hide IsPower;
  }

  // So the search ends with the least power of two from eight on that passes the
  // test or covers the table.
  lemma {:induction false} AltRangeIsLeast(passes: Estimate, buckets: nat, kind: nat, r: nat)
    requires r > 0 && IsPower(r)
    ensures var found := AltRange(passes, buckets, kind, r);
            && IsPower(found) && r <= found && (found >= buckets || passes(buckets, kind, found))
            && forall q: nat | IsPower(q) && r <= q < found :: q < buckets && !passes(buckets, kind, q)
    decreases buckets - r
  {
    if r < buckets && !passes(buckets, kind, r) {
      DoubleIsPower(r);
      AltRangeIsLeast(passes, buckets, kind, 2 * r);
      forall q: nat | IsPower(q) && r <= q < 2 * r
        ensures q == r
      {
        if r < q {
          PowerGap(r, q);
        }
      }
    }
    hide IsPower;
  }

  // Four segment lengths for a table of at least 10000 buckets: the first one
  // determines the size, the others are chosen for that size.
  function FirstRange(passes: Estimate, request: nat): nat {
    AltRange(passes, request, 0, 8)
  }

  // What is assumed of the estimate: the first length is above 1024, and a
  // length that is enough for all fingerprints is enough for the second and
  // third kind, and half of it for the last.
  ghost predicate Sensible(passes: Estimate, request: nat) {
    var r := FirstRange(passes, request);
    && r > 1024
    && var size := RoundUp(request, r);
       passes(size, 1, r) && passes(size, 2, r) && passes(size, 3, r / 2)
  }

  ghost predicate Ranges(range: seq<nat>) {
    |range| == 4 && forall i | 0 <= i < 4 :: range[i] >= 8 && IsPower(range[i])
  }

  lemma EightIsPower()
    ensures IsPower(8)
  {
    assert Pow2(3) == 8;
  }

  // The first length is found for the request, the others for the size, which is
  // the fewest segments of the first length that cover the request.
  ghost predicate LargeChoice(passes: Estimate, request: nat, size: nat, len: seq<nat>, range: seq<nat>) {
    && Ranges(range) && len == LargeMasks(range)
    && range[0] == AltRange(passes, request, 0, 8)
    && request <= size < request + range[0] && size % range[0] == 0
    && forall kind: nat | 1 <= kind < 4 :: range[kind] == AltRange(passes, size, kind, 8)
  }

  lemma MakeLargeChoice(passes: Estimate, request: nat, size: nat, len: seq<nat>, range: seq<nat>)
    requires Ranges(range) && |range| == 4 && (forall i | 0 <= i < 4 :: range[i] >= 8) && len == LargeMasks(range)
    requires range[0] == AltRange(passes, request, 0, 8)
    requires request <= size < request + range[0] && size % range[0] == 0
    requires range[1] == AltRange(passes, size, 1, 8) && range[2] == AltRange(passes, size, 2, 8)
    requires range[3] == AltRange(passes, size, 3, 8)
    ensures LargeChoice(passes, request, size, len, range)
  {
    hide AltRange, Ranges, LargeMasks;
  }

  // The size and the masks for a large table.
  method LargeSegments(request: nat, passes: Estimate) returns (size: nat, len: seq<nat>, ghost range: seq<nat>)
    ensures LargeChoice(passes, request, size, len, range)
    ensures Ranges(range) && range[0] == FirstRange(passes, request)
    ensures request <= size < request + range[0] && size % range[0] == 0 && len == LargeMasks(range)
    ensures Sensible(passes, request) ==> Segments(size, len)
  {
    hide *;
    EightIsPower();
    var r0 := ProperAltRange(passes, request, 0);
    AltRangeIsPower(passes, request, 0, 8);
    RoundUpLaws(request, r0);
    size := RoundUp(request, r0);
    var bigSeg := r0 - 1;
    var r1 := ProperAltRange(passes, size, 1);
    var r2 := ProperAltRange(passes, size, 2);
    var r3 := ProperAltRange(passes, size, 3);
    AltRangeIsPower(passes, size, 1, 8);
    AltRangeIsPower(passes, size, 2, 8);
    AltRangeIsPower(passes, size, 3, 8);
    len := [if bigSeg > 1024 then bigSeg else 1024, r1 - 1, r2 - 1, r3 * 2 - 1];
    range := [r0, r1, r2, r3];
    RangesAre(passes, request, range);
    MakeLargeChoice(passes, request, size, len, range);
    if Sensible(passes, request) {
      SensibleIsOrdered(passes, request, r0, r1, r2, r3);
      OrderedSegments(size, range);
    }
  }

  lemma RangesAre(passes: Estimate, request: nat, range: seq<nat>)
    requires |range| == 4 && forall i | 0 <= i < 4 :: range[i] >= 8 && IsPower(range[i])
    ensures Ranges(range) && FirstRange(passes, request) == AltRange(passes, request, 0, 8)
    ensures LargeMasks(range)
            == [if range[0] - 1 > 1024 then range[0] - 1 else 1024, range[1] - 1, range[2] - 1, range[3] * 2 - 1]
  {
    hide IsPower, AltRange;
  }

  lemma SensibleIsOrdered(passes: Estimate, request: nat, r0: nat, r1: nat, r2: nat, r3: nat)
    requires Sensible(passes, request) && r0 == AltRange(passes, request, 0, 8) && IsPower(r0)
    requires r0 > 0 && r1 == AltRange(passes, RoundUp(request, r0), 1, 8)
    requires r2 == AltRange(passes, RoundUp(request, r0), 2, 8) && r3 == AltRange(passes, RoundUp(request, r0), 3, 8)
    ensures r0 > 1024 && r1 <= r0 && r2 <= r0 && 2 * r3 <= r0
  {
    EightIsPower();
    hide RoundUp, AltRange, IsPower;
    var size := RoundUp(request, r0);
    AltRangeStops(passes, size, 1, 8, r0);
    AltRangeStops(passes, size, 2, 8, r0);
    HalfIsPower(r0);
    AltRangeStops(passes, size, 3, 8, r0 / 2);
  }

  lemma HalfIsPower(p: nat)
    requires IsPower(p) && p > 1
    ensures p % 2 == 0 && IsPower(p / 2)
  {
    var k := PowerOf(p);
    if k == 0 {
      Pow2Zero();
    } else {
      DoublePower(k - 1);
    }
    hide Pow2;
  }

  // Lengths in order divide one another, and so the size.
  lemma OrderedSegments(size: nat, range: seq<nat>)
    requires Ranges(range) && size % range[0] == 0
    requires range[0] > 1024 && range[1] <= range[0] && range[2] <= range[0] && 2 * range[3] <= range[0]
    ensures Segments(size, LargeMasks(range))
  {
    hide IsPower, LargeMasks, Segments;
    DoubleIsPower(range[3]);
    SmallerDivides(size, range[1], range[0]);
    SmallerDivides(size, range[2], range[0]);
    SmallerDivides(size, 2 * range[3], range[0]);
    LargeSegmentsExactly(size, range);
  }

  lemma SmallerDivides(size: nat, p: nat, q: nat)
    requires IsPower(p) && IsPower(q) && 0 < p <= q && size % q == 0
    ensures size % p == 0
  {
    var k := PowerOf(p);
    var l := PowerOf(q);
    hide Pow2;
    if l < k {
      Pow2StrictMono(l, k);
    } else {
      DividesDown(size, k, l);
    }
  }

  function LargeMasks(range: seq<nat>): seq<nat>
    requires |range| == 4 && forall i | 0 <= i < 4 :: range[i] >= 8
  {
    [if range[0] - 1 > 1024 then range[0] - 1 else 1024, range[1] - 1, range[2] - 1, range[3] * 2 - 1]
  }

  lemma PowersOf1024()
    ensures 1024 == Pow2(10) && 2048 == Pow2(11)
  {
  }

  // A first segment that is too short is masked with the single bit 1024.
  lemma FirstMask(n: nat, k: nat)
    requires n % Pow2(k) == 0
    ensures InChunks(n, if Pow2(k) - 1 > 1024 then Pow2(k) - 1 else 1024) <==> Pow2(k) > 1024 || n % 2048 == 0
  {
    PowersOf1024();
    hide Pow2, InChunks;
    OnesMaskMeans(n, k);
    BitMaskMeans(n, 10);
    if Pow2(k) == 1025 {
      NotOdd(k);
    }
  }

  lemma NotOdd(k: nat)
    ensures Pow2(k) != 1025
  {
    if k > 0 {
      assert Pow2(k) % 2 == 0;
    }
  }

  lemma LengthMask(n: nat, p: nat)
    requires IsPower(p) && p > 0
    ensures InChunks(n, p - 1) <==> n % p == 0
  {
    var k := PowerOf(p);
    OnesMaskMeans(n, k);
    hide Pow2, InChunks;
  }

  // Alternate addresses stay in a large table exactly when the other segment
  // lengths divide its size, and 2048 does if the first length is at most 1024.
  lemma LargeSegmentsExactly(n: nat, range: seq<nat>)
    requires Ranges(range) && n % range[0] == 0
    ensures Segments(n, LargeMasks(range))
            <==> (range[0] > 1024 || n % 2048 == 0) && n % range[1] == 0
                 && n % range[2] == 0 && n % (2 * range[3]) == 0
  {
    hide InChunks, IsPower, Pow2;
    var k := PowerOf(range[0]);
    FirstMask(n, k);
    LengthMask(n, range[1]);
    LengthMask(n, range[2]);
    DoubleIsPower(range[3]);
    LengthMask(n, 2 * range[3]);
    var masks := LargeMasks(range);
    assert Segments(n, masks)
        <==> InChunks(n, masks[0]) && InChunks(n, masks[1]) && InChunks(n, masks[2]) && InChunks(n, masks[3]);
  }

  ghost predicate Choice(passes: Estimate, request: nat, size: nat, len: seq<nat>) {
    if request < SMALL then SmallChoice(request, size, len)
    else exists range: seq<nat> :: LargeChoice(passes, request, size, len, range)
  }

  // The size and the masks of a table for the requested number of buckets.
  method ChooseSegments(request: nat, passes: Estimate) returns (size: nat, len: seq<nat>)
    requires request >= SMALL ==> Sensible(passes, request)
    ensures request <= size && Segments(size, len)
    ensures Choice(passes, request, size, len)
  {
    hide SmallChoice, LargeChoice, Segments, Sensible;
    if request < SMALL {
      size, len := SmallSegments(request);
    } else {
      ghost var range;
      size, len, range := LargeSegments(request, passes);
    }
  }

  // ----- hashed keys -----

  // Uninterpreted hash values of a key.
  datatype Hashed = Hashed(position: int, finger: nat)

  // The remainder of the source's signed division.
  function SignedRemainder(x: int, n: nat): int
    requires n > 0
  {
    if x >= 0 then x % n else -((-x) % n)
  }

  function PositionHash(x: int, n: nat): int
    requires n > 0
  {
    (SignedRemainder(x, n) + n) % n
  }

  lemma PositionInRange(x: int, n: nat)
    requires n > 0
    ensures PositionHash(x, n) == x % n && 0 <= x % n < n
  {
    DivMod(x, n);
    if x >= 0 {
      AddMulDiv(x % n, 1, n);
      SmallDivMod(x % n, n);
    } else {
      var q, r := (-x) / n, (-x) % n;
      DivMod(-x, n);
      assert x == (-q) * n - r;
      AddMulDiv(n - r, -q - 1, n);
      MulAdd(-q - 1, 1, n);
    }
  }

  // Never zero, which stands for an empty slot.
  function Fingerprint(raw: nat, bits: nat): nat
    requires bits > 0
  {
    assert Pow2(bits) == 2 * Pow2(bits - 1);
    raw % (Pow2(bits) - 1) + 1
  }

  lemma FingerprintFits(raw: nat, bits: nat)
    requires bits > 0
    ensures 0 < Fingerprint(raw, bits) < Pow2(bits)
  {
    assert Pow2(bits) == 2 * Pow2(bits - 1);
    DivMod(raw, Pow2(bits) - 1);
  }

  // Two hash values give one fingerprint when they agree modulo one less than the
  // number of fingerprints.
  lemma SameFingerprintExactly(raw: nat, other: nat, bits: nat)
    requires bits > 0
    ensures Pow2(bits) > 1
    ensures Fingerprint(raw, bits) == Fingerprint(other, bits) <==> (raw - other) % (Pow2(bits) - 1) == 0
    ensures (Fingerprint(raw, bits) - 1 - raw) % (Pow2(bits) - 1) == 0
  {
    assert Pow2(bits) == 2 * Pow2(bits - 1);
    SameRemainder(raw, other, Pow2(bits) - 1);
    DivMod(raw, Pow2(bits) - 1);
    SmallDivMod(raw % (Pow2(bits) - 1), Pow2(bits) - 1);
    SameRemainder(raw % (Pow2(bits) - 1), raw, Pow2(bits) - 1);
    hide Pow2;
  }

  lemma SameRemainder(x: nat, y: nat, m: nat)
    requires m > 0
    ensures x % m == y % m <==> (x - y) % m == 0
  {
    DivMod(x, m);
    DivMod(y, m);
    DivMod(x - y, m);
    var q := x / m - y / m;
    MulSub(x / m, y / m, m);
    if x % m == y % m {
      DivModUnique(x - y, m, q, 0);
    }
    if (x - y) % m == 0 {
      MulAdd(y / m, (x - y) / m, m);
      DivModUnique(x, m, y / m + (x - y) / m, y % m);
    }
  }

  // ----- entries -----

  ghost function RuleOf(len: seq<nat>): Rule<nat, Entry>
    requires |len| == 4
  {
    Rule((i: nat, fp: nat) => Canon(len, i, fp), 0)
  }

  ghost function Entries(len: seq<nat>, t: seq<seq<nat>>): multiset<Entry>
    requires |len| == 4
  {
    TableEntries(RuleOf(len), t)
  }

  ghost function OneEntry(len: seq<nat>, i: nat, fp: nat): multiset<Entry>
    requires |len| == 4
  {
    if fp == 0 then multiset{} else multiset{Canon(len, i, fp)}
  }

  lemma RuleMeans(len: seq<nat>, i: nat, fp: nat)
    requires |len| == 4
    ensures RuleOf(len).entry(i, fp) == Canon(len, i, fp) && RuleOf(len).empty == 0
    ensures SlotEntries(RuleOf(len), i, fp) == OneEntry(len, i, fp)
  {
    hide Canon;
  }

  lemma EntriesAre(len: seq<nat>, t: seq<seq<nat>>)
    requires |len| == 4
    ensures Entries(len, t) == TableEntries(RuleOf(len), t)
  {
    hide TableEntries;
  }

  lemma OneEntryIs(len: seq<nat>, i: nat, fp: nat)
    requires |len| == 4
    ensures OneEntry(len, i, fp) == if fp == 0 then multiset{} else multiset{Canon(len, i, fp)}
    ensures |OneEntry(len, i, fp)| == if fp == 0 then 0 else 1
  {
    hide Canon;
  }

  // A fingerprint put into a slot comes in, the one that was there goes out.
  lemma PutLaws(n: nat, bits: nat, len: seq<nat>, t: seq<seq<nat>>, i: nat, j: nat, x: nat)
    requires Sane(t, bits) && |t| == n && Segments(n, len) && i < n && j < 4 && x < Pow2(bits)
    ensures |len| == 4 && |t[i]| == 4 && Sane(Put(t, i, j, x), bits)
    ensures Entries(len, Put(t, i, j, x)) + OneEntry(len, i, t[i][j]) == Entries(len, t) + OneEntry(len, i, x)
    ensures |Entries(len, Put(t, i, j, x))| + (if t[i][j] == 0 then 0 else 1)
            == |Entries(len, t)| + if x == 0 then 0 else 1
  {
    hide *;
    SegmentsMeans(n, len);
    PutIsSane(t, bits, i, j, x);
    PutEntries(RuleOf(len), t, i, j, x);
    EntriesAre(len, t);
    EntriesAre(len, Put(t, i, j, x));
    RuleMeans(len, i, x);
    RuleMeans(len, i, t[i][j]);
    OneEntryIs(len, i, x);
    OneEntryIs(len, i, t[i][j]);
    SizesAdd(Entries(len, Put(t, i, j, x)), OneEntry(len, i, t[i][j]), Entries(len, t), OneEntry(len, i, x));
  }

  lemma SegmentsMeans(n: nat, len: seq<nat>)
    requires Segments(n, len)
    ensures |len| == 4
  {
  }

  lemma SaneMeans(t: seq<seq<nat>>, bits: nat, i: nat)
    requires Sane(t, bits) && i < |t|
    ensures |t[i]| == 4 && Sorted(t[i]) && IsStore(t[i], bits) && forall j | 0 <= j < 4 :: t[i][j] < Pow2(bits)
  {
    hide Pow2, Sorted;
  }

  lemma StoreLaws(s: seq<nat>, bits: nat, j: nat, x: nat)
    requires IsStore(s, bits) && |s| == 4 && j < 4 && x < Pow2(bits)
    ensures IsStore(s[j := x], bits)
  {
    hide Pow2;
  }

  // A full bucket is not one with room.
  lemma FullIsNotRoomy(t: seq<seq<nat>>, i: nat, j: nat)
    requires i < |t| && j < |t| && |t[j]| == 4 && 0 !in t[i] && t[j][3] == 0
    ensures i != j
  {
  }

  lemma ZeroFits(bits: nat)
    ensures 0 < Pow2(bits)
  {
  }

  // A table holds the entry of a fingerprint if and only if one of its two
  // buckets holds the fingerprint.
  lemma LookupIsExact(n: nat, bits: nat, len: seq<nat>, t: seq<seq<nat>>, i: nat, fp: nat)
    requires Sane(t, bits) && |t| == n && Segments(n, len) && i < n && fp != 0
    ensures |len| == 4 && Alternate(len, i, fp) < n
    ensures Canon(len, i, fp) in Entries(len, t) <==> fp in t[i] || fp in t[Alternate(len, i, fp)]
  {
    hide *;
    SegmentsMeans(n, len);
    AlternateInvolution(n, len, i, fp);
    EntriesAre(len, t);
    RuleMeans(len, i, fp);
    if Canon(len, i, fp) in Entries(len, t) {
      var x, y := InTable(RuleOf(len), t, Canon(len, i, fp));
      RuleMeans(len, x, t[x][y]);
      CanonSame(n, len, i, x, fp, t[x][y]);
      assert t[x][y] in t[x];
    }
    if fp in t[i] {
      FoundIn(n, len, t, i, i, fp);
    }
    if fp in t[Alternate(len, i, fp)] {
      FoundIn(n, len, t, i, Alternate(len, i, fp), fp);
    }
  }

  lemma FoundIn(n: nat, len: seq<nat>, t: seq<seq<nat>>, i: nat, b: nat, fp: nat)
    requires Segments(n, len) && |len| == 4 && |t| == n && i < n && b < n && fp != 0 && fp in t[b]
    requires b == i || b == Alternate(len, i, fp)
    ensures Canon(len, i, fp) in Entries(len, t)
  {
    hide *;
    EntriesAre(len, t);
    CanonAlternate(n, len, i, fp);
    RuleMeans(len, b, fp);
    var j :| 0 <= j < |t[b]| && t[b][j] == fp;
    SlotInTable(RuleOf(len), t, b, j);
  }

  // ----- the empty filter -----

  // Bits for all buckets, rounded up to bytes, with sixteen bytes to spare.
  function MemoryWords(n: nat, bits: nat): nat {
    var needed := n * BucketBits(bits);
    (RoundUp(needed + 64, 8) / 8 + 8) / 8
  }

  lemma MemoryCovers(n: nat, bits: nat)
    ensures 0 <= n * BucketBits(bits) <= MemoryWords(n, bits) * WORD_BITS
  {
    hide BucketBits;
    MulNonNeg(n, BucketBits(bits));
    var needed := n * BucketBits(bits);
    RoundUpLaws(needed + 64, 8);
  }

  lemma EmptyShape(words: seq<nat>, n: nat, bits: nat, encode: seq<nat>, decode: seq<nat>)
    requires |words| == MemoryWords(n, bits) && (forall k | 0 <= k < |words| :: words[k] == 0) && 5 <= bits <= 16
    requires VacuumCode.Filled(encode, decode, VacuumCode.ENTRIES)
    ensures Room(words, n, bits) && Tables(encode, decode)
    ensures |encode| == |decode| == VacuumCode.PLAIN_CODES
    ensures forall i | 0 <= i < n :: Table(words, n, bits, decode)[i] == [0, 0, 0, 0]
    ensures Sane(Table(words, n, bits, decode), bits)
  {
    hide MemoryWords, VacuumCode.Filled, Pow2, Table, Sane;
    MemoryCovers(n, bits);
    TablesAre(encode, decode);
    TablesLength(encode, decode);
    EmptyWords(words, n, bits, encode, decode);
  }

  lemma EmptyEntries(len: seq<nat>, t: seq<seq<nat>>)
    requires |len| == 4 && forall i | 0 <= i < |t| :: t[i] == [0, 0, 0, 0]
    ensures Entries(len, t) == multiset{} && |Entries(len, t)| == 0
  {
    hide RuleOf, TableEntries, Canon;
    RuleMeans(len, 0, 0);
    EmptyTable(RuleOf(len), t);
  }

  // ----- where an insertion puts a fingerprint -----

  ghost predicate Bucketed(t: seq<seq<nat>>, i: nat) {
    i < |t| && |t[i]| == 4
  }

  ghost predicate HasRoom(t: seq<seq<nat>>, i: nat) {
    Bucketed(t, i) && 0 in t[i]
  }

  // The fingerprint goes into the last slot, and the bucket is sorted.
  ghost predicate Settled(t: seq<seq<nat>>, i: nat, fp: nat, u: seq<seq<nat>>) {
    Bucketed(t, i) && u == Put(t, i, 3, fp)
  }

  // The other bucket of the fingerprint in slot j.
  ghost function OtherBucket(len: seq<nat>, t: seq<seq<nat>>, i: nat, j: nat): nat
    requires |len| == 4 && Bucketed(t, i) && j < 4
  {
    Alternate(len, i, t[i][j])
  }

  ghost predicate RoomAhead(len: seq<nat>, t: seq<seq<nat>>, i: nat, j: nat)
    requires |len| == 4
  {
    Bucketed(t, i) && j < 4 && HasRoom(t, OtherBucket(len, t, i, j))
  }

  // The first fingerprint with room in its other bucket goes there, and the one
  // in hand takes its slot.
  ghost predicate MovedAhead(len: seq<nat>, t: seq<seq<nat>>, i: nat, hand: nat, j: nat, u: seq<seq<nat>>)
    requires |len| == 4
  {
    && RoomAhead(len, t, i, j) && (forall k: nat | k < j :: !RoomAhead(len, t, i, k))
    && var v := Put(t, OtherBucket(len, t, i, j), 3, t[i][j]);
       Bucketed(v, i) && u == Put(v, i, j, hand)
  }

  // The table before a round, and the fingerprint in hand.
  datatype Round = Round(table: seq<seq<nat>>, pos: nat, hand: nat)

  // The fingerprint takes the slot of another, which is then in hand.
  ghost predicate Takes(len: seq<nat>, r: Round, next: Round, slot: nat)
    requires |len| == 4
  {
    && Bucketed(r.table, r.pos) && slot < 4
    && next == Round(Put(r.table, r.pos, slot, r.hand), OtherBucket(len, r.table, r.pos, slot), r.table[r.pos][slot])
  }

  ghost predicate Swaps(len: seq<nat>, r: Round, next: Round)
    requires |len| == 4
  {
    exists slot: nat :: Takes(len, r, next, slot)
  }

  // Neither the bucket has room nor any other bucket of its fingerprints.
  ghost predicate Stuck(len: seq<nat>, t: seq<seq<nat>>, i: nat)
    requires |len| == 4
  {
    !HasRoom(t, i) && forall j: nat :: !RoomAhead(len, t, i, j)
  }

  ghost predicate Ends(len: seq<nat>, r: Round, u: seq<seq<nat>>)
    requires |len| == 4
  {
    if HasRoom(r.table, r.pos) then Settled(r.table, r.pos, r.hand, u)
    else exists j: nat :: MovedAhead(len, r.table, r.pos, r.hand, j, u)
  }

  ghost predicate Chain(len: seq<nat>, rounds: seq<Round>)
    requires |len| == 4
  {
    forall k: nat | k + 1 < |rounds| ::
      Stuck(len, rounds[k].table, rounds[k].pos) && Swaps(len, rounds[k], rounds[k + 1])
  }

  // A chain that ends with room, or gives up after all its rounds.
  ghost predicate Kicked(len: seq<nat>, steps: nat, rounds: seq<Round>, u: seq<seq<nat>>, ok: bool)
    requires |len| == 4
  {
    && rounds != [] && Chain(len, rounds)
    && var last := rounds[|rounds| - 1];
       if ok then |rounds| <= steps && Ends(len, last, u) else |rounds| == steps + 1 && u == last.table
  }

  ghost predicate Fuller(t: seq<seq<nat>>, p: nat, a: nat) {
    Bucketed(t, p) && Bucketed(t, a) && Count(t[p]) > Count(t[a])
  }

  // The emptier bucket, the primary one if they are equal, or with both full the
  // chain from a slot of either.
  ghost predicate Inserted(len: seq<nat>, steps: nat, t: seq<seq<nat>>, p: nat, a: nat, fp: nat,
                           rounds: seq<Round>, u: seq<seq<nat>>, ok: bool)
    requires |len| == 4
  {
    if HasRoom(t, p) || HasRoom(t, a) then
      ok && Settled(t, if Fuller(t, p, a) then a else p, fp, u)
    else
      && rounds != [] && (Swaps(len, Round(t, p, fp), rounds[0]) || Swaps(len, Round(t, a, fp), rounds[0]))
      && Kicked(len, steps, rounds, u, ok)
  }

  // An insertion fails only when both buckets are full and every round of the
  // chain is stuck.
  lemma FailsOnly(len: seq<nat>, steps: nat, t: seq<seq<nat>>, p: nat, a: nat, fp: nat,
                  rounds: seq<Round>, u: seq<seq<nat>>, ok: bool)
    requires |len| == 4 && Inserted(len, steps, t, p, a, fp, rounds, u, ok) && !ok
    ensures !HasRoom(t, p) && !HasRoom(t, a) && |rounds| == steps + 1
    ensures forall k: nat | k < steps :: Stuck(len, rounds[k].table, rounds[k].pos)
  {
    hide HasRoom, Stuck, Swaps;
  }

  lemma ChainOfOne(len: seq<nat>, r: Round)
    requires |len| == 4
    ensures Chain(len, [r])
  {
  }

  lemma ChainGrows(len: seq<nat>, rounds: seq<Round>, next: Round)
    requires |len| == 4 && rounds != [] && Chain(len, rounds)
    requires var last := rounds[|rounds| - 1]; Stuck(len, last.table, last.pos) && Swaps(len, last, next)
    ensures Chain(len, rounds + [next])
  {
    hide Stuck, Swaps;
    var more := rounds + [next];
    forall k: nat | k + 1 < |more|
      ensures Stuck(len, more[k].table, more[k].pos) && Swaps(len, more[k], more[k + 1])
    {
      if k + 1 < |rounds| {
        assert Stuck(len, rounds[k].table, rounds[k].pos) && Swaps(len, rounds[k], rounds[k + 1]);
      }
    }
  }

  lemma KickedIs(len: seq<nat>, steps: nat, rounds: seq<Round>, u: seq<seq<nat>>, ok: bool)
    requires |len| == 4 && rounds != [] && Chain(len, rounds)
    requires ok ==> |rounds| <= steps && Ends(len, rounds[|rounds| - 1], u)
    requires !ok ==> |rounds| == steps + 1 && u == rounds[|rounds| - 1].table
    ensures Kicked(len, steps, rounds, u, ok)
  {
    hide Chain, Ends;
  }

  lemma MakeInserted(len: seq<nat>, steps: nat, t: seq<seq<nat>>, p: nat, a: nat, fp: nat, cur: nat,
                     rounds: seq<Round>, u: seq<seq<nat>>, ok: bool)
    requires |len| == 4 && !HasRoom(t, p) && !HasRoom(t, a) && (cur == p || cur == a)
    requires rounds != [] && Swaps(len, Round(t, cur, fp), rounds[0]) && Kicked(len, steps, rounds, u, ok)
    ensures Inserted(len, steps, t, p, a, fp, rounds, u, ok)
  {
    hide HasRoom, Swaps, Kicked;
  }

  lemma MakeSettled(len: seq<nat>, steps: nat, t: seq<seq<nat>>, p: nat, a: nat, fp: nat, u: seq<seq<nat>>)
    requires |len| == 4 && (HasRoom(t, p) || HasRoom(t, a))
    requires Settled(t, if Fuller(t, p, a) then a else p, fp, u)
    ensures Inserted(len, steps, t, p, a, fp, [], u, true)
  {
    hide HasRoom, Fuller, Settled;
  }

  // A fingerprint into the last slot of one bucket, another into a slot of a second.
  ghost predicate PutTwice(t: seq<seq<nat>>, nex: nat, moving: nat, i: nat, j: nat, hand: nat, u: seq<seq<nat>>) {
    && Bucketed(t, nex) && Bucketed(Put(t, nex, 3, moving), i) && j < 4
    && u == Put(Put(t, nex, 3, moving), i, j, hand)
  }

  lemma PutTwiceIs(t: seq<seq<nat>>, nex: nat, moving: nat, i: nat, j: nat, hand: nat)
    requires nex < |t| && |t[nex]| == 4 && i < |t| && |Put(t, nex, 3, moving)[i]| == 4 && j < 4
    ensures PutTwice(t, nex, moving, i, j, hand, Put(Put(t, nex, 3, moving), i, j, hand))
  {
    hide Put;
  }

  lemma MovedAheadIs(len: seq<nat>, t: seq<seq<nat>>, i: nat, hand: nat, j: nat, u: seq<seq<nat>>)
    requires |len| == 4 && i < |t| && |t[i]| == 4 && j < 4 && RoomAhead(len, t, i, j)
    requires forall k: nat | k < j :: !RoomAhead(len, t, i, k)
    requires PutTwice(t, Alternate(len, i, t[i][j]), t[i][j], i, j, hand, u)
    ensures MovedAhead(len, t, i, hand, j, u)
  {
    hide Put, Alternate;
  }

  lemma RoomAheadIs(len: seq<nat>, t: seq<seq<nat>>, i: nat, j: nat)
    requires |len| == 4 && i < |t| && |t[i]| == 4
    ensures RoomAhead(len, t, i, j) ==> j < 4
    ensures j < 4 ==> (RoomAhead(len, t, i, j) <==> HasRoom(t, Alternate(len, i, t[i][j])))
  {
    hide Alternate, HasRoom;
  }

  lemma SwapsIs(len: seq<nat>, t: seq<seq<nat>>, i: nat, fp: nat, slot: nat)
    requires |len| == 4 && i < |t| && |t[i]| == 4 && slot < 4
    ensures Swaps(len, Round(t, i, fp), Round(Put(t, i, slot, fp), Alternate(len, i, t[i][slot]), t[i][slot]))
  {
    hide Put, Alternate;
    assert Takes(len, Round(t, i, fp), Round(Put(t, i, slot, fp), Alternate(len, i, t[i][slot]), t[i][slot]), slot);
  }

  lemma SettledIs(t: seq<seq<nat>>, i: nat, fp: nat)
    requires i < |t| && |t[i]| == 4
    ensures Settled(t, i, fp, Put(t, i, 3, fp))
  {
    hide Put;
  }

  lemma EndsIs(len: seq<nat>, t: seq<seq<nat>>, i: nat, hand: nat, u: seq<seq<nat>>)
    requires |len| == 4
    requires HasRoom(t, i) ==> Settled(t, i, hand, u)
    requires !HasRoom(t, i) ==> exists j: nat :: MovedAhead(len, t, i, hand, j, u)
    ensures Ends(len, Round(t, i, hand), u)
  {
    hide HasRoom, Settled, MovedAhead;
  }

  lemma StuckIs(len: seq<nat>, t: seq<seq<nat>>, i: nat)
    requires |len| == 4
    ensures Stuck(len, t, i) <==> !HasRoom(t, i) && !exists j: nat :: RoomAhead(len, t, i, j)
  {
    hide HasRoom, RoomAhead;
  }

  lemma FullerIs(t: seq<seq<nat>>, p: nat, a: nat)
    requires p < |t| && a < |t| && |t[p]| == 4 && |t[a]| == 4
    ensures Fuller(t, p, a) <==> Count(t[p]) > Count(t[a])
  {
    hide Count;
  }

  // ----- deletion -----

  // The first slot of the bucket that holds the fingerprint is emptied.
  ghost predicate Emptied(t: seq<seq<nat>>, i: nat, fp: nat, u: seq<seq<nat>>) {
    && Bucketed(t, i) && fp in t[i]
    && exists j: nat | j < 4 :: t[i][j] == fp && (forall k: nat | k < j :: t[i][k] != fp) && u == Put(t, i, j, 0)
  }

  ghost predicate HoldsPrint(t: seq<seq<nat>>, i: nat, fp: nat) {
    Bucketed(t, i) && fp in t[i]
  }

  // From the primary bucket, else from the other one.
  ghost predicate Deleted(t: seq<seq<nat>>, p: nat, a: nat, fp: nat, u: seq<seq<nat>>, ok: bool) {
    if HoldsPrint(t, p, fp) then ok && Emptied(t, p, fp, u)
    else if HoldsPrint(t, a, fp) then ok && Emptied(t, a, fp, u)
    else !ok && u == t
  }

  lemma DeletedIs(t: seq<seq<nat>>, p: nat, a: nat, fp: nat, u: seq<seq<nat>>, ok: bool)
    requires HoldsPrint(t, p, fp) ==> ok && Emptied(t, p, fp, u)
    requires !HoldsPrint(t, p, fp) && HoldsPrint(t, a, fp) ==> ok && Emptied(t, a, fp, u)
    requires !HoldsPrint(t, p, fp) && !HoldsPrint(t, a, fp) ==> !ok && u == t
    ensures Deleted(t, p, a, fp, u, ok)
  {
    hide HoldsPrint, Emptied;
  }

  lemma EmptiedIs(t: seq<seq<nat>>, i: nat, fp: nat, j: nat)
    requires Bucketed(t, i) && i < |t| && |t[i]| == 4 && j < 4 && t[i][j] == fp && forall k: nat | k < j :: t[i][k] != fp
    ensures Emptied(t, i, fp, Put(t, i, j, 0))
  {
    hide Put;
  }

  lemma BucketedIs(t: seq<seq<nat>>, i: nat)
    ensures Bucketed(t, i) <==> i < |t| && |t[i]| == 4
    ensures HasRoom(t, i) <==> Bucketed(t, i) && 0 in t[i]
  {
  }

  lemma HoldsPrintIs(t: seq<seq<nat>>, i: nat, fp: nat)
    requires i < |t| && |t[i]| == 4
    ensures HoldsPrint(t, i, fp) <==> fp in t[i]
  {
  }

  // ----- the filter -----

  class VacuumFilter {
    const n: nat
    const bits: nat
    const len: seq<nat>
    const maxKickSteps: nat
    const hash: nat -> Hashed
    const words: array<nat>
    const encodeTable: array<nat>
    const decodeTable: array<nat>
    var filledCell: nat

    // The memory of the filter and its tables.
    ghost predicate Shape()
      reads words, encodeTable, decodeTable
    {
      && n > 0 && Room(words[..], n, bits) && Tables(encodeTable[..], decodeTable[..]) && Segments(n, len)
      && encodeTable.Length == decodeTable.Length == VacuumCode.PLAIN_CODES
      && words != encodeTable && words != decodeTable
    }

    ghost function Buckets(): (t: seq<seq<nat>>)
      requires Shape()
      reads words, encodeTable, decodeTable
      ensures |t| == n
    {
      Table(words[..], n, bits, decodeTable[..])
    }

    ghost predicate Ready()
      reads words, encodeTable, decodeTable
    {
      Shape() && Sane(Buckets(), bits)
    }

    // What the filter holds: every fingerprint with its pair of buckets.
    ghost function Content(): multiset<Entry>
      requires Shape()
      reads words, encodeTable, decodeTable
    {
      Entries(len, Buckets())
    }

    // The number of filled cells is that of the fingerprints.
    ghost predicate Valid()
      reads this, words, encodeTable, decodeTable
    {
      Ready() && filledCell == |Content()|
    }

    // An empty filter for at least the requested number of buckets.
    constructor (request: nat, bits: nat, maxKickSteps: nat, passes: Estimate, hash: nat -> Hashed)
      requires request > 0 && 5 <= bits <= 16 && (request >= SMALL ==> Sensible(passes, request))
      ensures Valid() && Content() == multiset{} && fresh(words) && request <= n
      ensures Choice(passes, request, n, len)
      ensures this.bits == bits && this.maxKickSteps == maxKickSteps && this.hash == hash
    {
      var size, masks := ChooseSegments(request, passes);
      n, len := size, masks;
      this.bits, this.maxKickSteps, this.hash := bits, maxKickSteps, hash;
      words := new nat[MemoryWords(size, bits)](_ => 0);
      var encode, decode := VacuumCode.FillTables();
      encodeTable, decodeTable := encode, decode;
      filledCell := 0;
      new;
      hide *;
      EmptyShape(words[..], n, bits, encodeTable[..], decodeTable[..]);
      SegmentsMeans(n, len);
      IsShape();
      ShapeMeans();
      EmptyEntries(len, Buckets());
      ReadyMeans();
    }

    lemma ShapeMeans()
      requires Shape()
      ensures n > 0 && Room(words[..], n, bits) && Tables(encodeTable[..], decodeTable[..]) && Segments(n, len)
      ensures encodeTable.Length == decodeTable.Length == VacuumCode.PLAIN_CODES
      ensures words != encodeTable && words != decodeTable && |len| == 4 && 5 <= bits <= 16
      ensures Buckets() == Table(words[..], n, bits, decodeTable[..]) && Content() == Entries(len, Buckets())
    {
      SegmentsMeans(n, len);
      hide Table, Segments, Tables, Entries;
    }

    lemma IsShape()
      requires n > 0 && Room(words[..], n, bits) && Tables(encodeTable[..], decodeTable[..]) && Segments(n, len)
      requires encodeTable.Length == decodeTable.Length == VacuumCode.PLAIN_CODES
      requires words != encodeTable && words != decodeTable
      ensures Shape()
    {
      hide Room, Tables, Segments;
    }

    // ----- buckets -----

    // Writes a field into one word, or into the end of one and the start of
    // the next.
    method WriteWords(start: nat, width: nat, v: nat)
      requires InWords(words[..], WORD_BITS, start, width) && v < Pow2(width)
      modifies words
      ensures words[..] == WriteField(old(words[..]), WORD_BITS, start, width, v)
    {
      hide Pow2, OneWord, LowerWord, UpperWord;
      FieldPosition(words.Length, WORD_BITS, start, width);
      var w, lo := start / WORD_BITS, start % WORD_BITS;
      var hi := (start + width - 1) % WORD_BITS;
      if start / WORD_BITS == (start + width - 1) / WORD_BITS {
        words[w] := OneWord(words[w], lo, hi + 1, v);
      } else {
        words[w], words[w + 1] := LowerWord(words[w], WORD_BITS, lo, v), UpperWord(words[w + 1], WORD_BITS, lo, hi + 1, v);
      }
    }

    ghost predicate Apart(store: array<nat>) {
      store.Length >= 5 && store != words && store != encodeTable && store != decodeTable
    }

    // The four fingerprints of a bucket and their number.
    method GetBucket(pos: nat, store: array<nat>)
      requires Shape() && pos < n && Apart(store)
      modifies store
      ensures store[..4] == Buckets()[pos] && |store[..4]| == 4 && store[4] == Count(store[..4])
    {
      hide *;
      ShapeMeans();
      ApartMeans(store);
      BucketRead(words[..], n, bits, decodeTable[..], pos);
      var result := ReadField(words[..], WORD_BITS, BucketStart(bits, pos), BucketBits(bits));
      var s := Decode(result, bits - 4, decodeTable[..]);
      store[0], store[1], store[2], store[3] := s[0], s[1], s[2], s[3];
      assert store[..4] == s;
      store[4] := Count(s);
      assert store[..4] == s;
    }

    lemma ApartMeans(store: array<nat>)
      ensures Apart(store)
              <==> store.Length >= 5 && store != words && store != encodeTable && store != decodeTable
    {
    }

    // Sorts the fingerprints and writes their code.
    method SetBucket(pos: nat, store: array<nat>)
      requires Shape() && pos < n && Apart(store) && IsStore(store[..4], bits)
      modifies words, store
      ensures Shape() && Buckets() == old(Buckets())[pos := SortStore(old(store[..4]))]
    {
      hide *;
      ShapeMeans();
      ApartMeans(store);
      ghost var s := store[..4];
      SortPairAt(store, 0, 2);
      SortPairAt(store, 1, 3);
      SortPairAt(store, 0, 1);
      SortPairAt(store, 2, 3);
      SortPairAt(store, 1, 2);
      SortStoreIs(s);
      SortKeepsStore(s, bits);
      BucketWritten(words[..], n, bits, encodeTable[..], decodeTable[..], pos, store[..4]);
      var code := Encode(store[..4], bits - 4, encodeTable[..]);
      WriteWords(BucketStart(bits, pos), BucketBits(bits), code);
      IsShape();
      ShapeMeans();
    }

    method SortPairAt(store: array<nat>, i: nat, j: nat)
      requires i < j < 4 <= store.Length
      modifies store
      ensures store[..4] == SortPair(old(store[..4]), i, j) && store[4..] == old(store[4..])
    {
      if store[i] < store[j] {
        store[i], store[j] := store[j], store[i];
      }
    }

    // ----- keys -----

    // The primary bucket and the fingerprint of a key.
    function Position(key: nat): nat
      requires n > 0
    {
      PositionInRange(hash(key).position, n);
      PositionHash(hash(key).position, n)
    }

    function FingerprintOf(key: nat): nat
      requires bits > 0
    {
      Fingerprint(hash(key).finger, bits)
    }

    // The other bucket of a key.
    function OtherPosition(key: nat): nat
      requires n > 0 && bits > 0 && |len| == 4
    {
      Alternate(len, Position(key), FingerprintOf(key))
    }

    // The entry that a key stands for.
    ghost function EntryOf(key: nat): Entry
      requires n > 0 && bits > 0 && |len| == 4
    {
      Canon(len, Position(key), FingerprintOf(key))
    }

    lemma KeyLaws(key: nat)
      requires n > 0 && bits > 0 && |len| == 4
      ensures Position(key) == hash(key).position % n && Position(key) < n
      ensures 0 < FingerprintOf(key) < Pow2(bits)
      ensures EntryOf(key) == Canon(len, Position(key), FingerprintOf(key))
    {
      PositionInRange(hash(key).position, n);
      FingerprintFits(hash(key).finger, bits);
      hide PositionHash, Fingerprint, Pow2, Canon;
    }

    lemma OtherPositionIs(key: nat)
      requires n > 0 && bits > 0 && |len| == 4
      ensures OtherPosition(key) == Alternate(len, Position(key), FingerprintOf(key))
    {
      hide Alternate, Position, FingerprintOf;
    }

    lemma BucketLaws(pos: nat)
      requires Ready() && pos < n
      ensures Sane(Buckets(), bits) && |Buckets()[pos]| == 4 && Sorted(Buckets()[pos])
      ensures IsStore(Buckets()[pos], bits) && forall j | 0 <= j < 4 :: Buckets()[pos][j] < Pow2(bits)
    {
      SaneMeans(Buckets(), bits, pos);
      hide Sane, Sorted, IsStore, Table, Pow2, Shape;
    }

    lemma ReadyMeans()
      ensures Ready() <==> Shape() && Sane(Buckets(), bits)
      ensures Valid() <==> Ready() && filledCell == |Content()|
    {
      hide Shape, Sane, Table, Content;
    }

    // ----- lookup -----

    method LookupInBucket(pos: nat, fp: nat) returns (r: nat)
      requires Ready() && pos < n
      ensures r == if fp in Buckets()[pos] then 1 else if 0 !in Buckets()[pos] then 2 else 3
    {
      hide *;
      ReadyMeans();
      FourSlots();
      var store := new nat[8](_ => 0);
      ApartMeans(store);
      GetBucket(pos, store);
      ghost var s := Buckets()[pos];
      var isFull := true;
      for i := 0 to SLOTS
        invariant Ready() && store[..4] == s == Buckets()[pos] && |s| == 4
        invariant fp !in s[..i] && (isFull <==> 0 !in s[..i])
      {
        var t := store[i];
        assert s[..i + 1] == s[..i] + [t];
        if t == fp {
          return 1;
        }
        isFull := isFull && t != 0;
      }
      assert s[..4] == s;
      r := if isFull then 2 else 3;
    }

    lemma FourSlots()
      ensures SLOTS == 4
    {
    }

    // A key is found if and only if an entry like its own is in the filter.
    method Lookup(key: nat) returns (found: bool)
      requires Ready()
      ensures |len| == 4 && bits > 0 && n > 0 && (found <==> EntryOf(key) in Content())
    {
      hide *;
      ReadyMeans();
      ShapeMeans();
      KeyLaws(key);
      var fp := FingerprintOf(key);
      var pos1 := Position(key);
      LookupIsExact(n, bits, len, Buckets(), pos1, fp);
      var ok1 := LookupInBucket(pos1, fp);
      if ok1 == 1 {
        return true;
      }
      var pos2 := Alternate(len, pos1, fp);
      var ok2 := LookupInBucket(pos2, fp);
      found := ok2 == 1;
    }

    // ----- writing one slot -----

    // Writes back a bucket in which one slot was changed.
    method Change(pos: nat, store: array<nat>, ghost j: nat, ghost x: nat)
      requires Ready() && pos < n && Apart(store) && |Buckets()[pos]| == 4 && |len| == 4
      requires j < 4 && x < Pow2(bits) && store[..4] == Buckets()[pos][j := x]
      modifies words, store
      ensures Ready() && Buckets() == Put(old(Buckets()), pos, j, x)
      ensures Content() + OneEntry(len, pos, old(Buckets())[pos][j]) == old(Content()) + OneEntry(len, pos, x)
      ensures |Content()| + (if old(Buckets())[pos][j] == 0 then 0 else 1)
              == |old(Content())| + if x == 0 then 0 else 1
    {
      hide *;
      ReadyMeans();
      ShapeMeans();
      BucketLaws(pos);
      ghost var t: seq<seq<nat>> := Buckets();
      StoreLaws(t[pos], bits, j, x);
      PutLaws(n, bits, len, t, pos, j, x);
      PutIs(t, pos, j, x);
      SetBucket(pos, store);
      ShapeMeans();
      ReadyMeans();
    }

    // ----- deletion -----

    method DelInBucket(pos: nat, fp: nat) returns (r: nat)
      requires Valid() && pos < n && fp != 0 && |len| == 4
      modifies this`filledCell, words
      ensures Valid()
      ensures r == if fp in old(Buckets())[pos] then 1 else 0
      ensures r == 0 ==> Buckets() == old(Buckets()) && Content() == old(Content())
      ensures r == 1 ==> Content() + multiset{Canon(len, pos, fp)} == old(Content())
      ensures r == 1 <==> HoldsPrint(old(Buckets()), pos, fp)
      ensures r == 1 ==> Emptied(old(Buckets()), pos, fp, Buckets())
    {
      hide *;
      ReadyMeans();
      FourSlots();
      ZeroFits(bits);
      var store := new nat[8](_ => 0);
      ApartMeans(store);
      GetBucket(pos, store);
      ghost var s := Buckets()[pos];
      BucketedIs(Buckets(), pos);
      HoldsPrintIs(Buckets(), pos, fp);
      ghost var before := Buckets();
      for i := 0 to SLOTS
        invariant Valid() && Ready() && Buckets() == old(Buckets()) && Content() == old(Content())
        invariant store[..4] == s == Buckets()[pos] && |s| == 4 && fp !in s[..i]
      {
        var t := store[i];
        assert s[..i + 1] == s[..i] + [t];
        if t == fp {
          store[i] := 0;
          assert store[..4] == s[i := 0];
          OneEntryIs(len, pos, fp);
          OneEntryIs(len, pos, 0);
          Change(pos, store, i, 0);
          filledCell := filledCell - 1;
          EmptiedIs(before, pos, fp, i);
          ReadyMeans();
          return 1;
        }
      }
      assert s[..4] == s;
      r := 0;
    }

    // Deleting a key takes away one entry of its kind, if there is one.
    method Del(key: nat) returns (ok: bool)
      requires Valid()
      modifies this`filledCell, words
      ensures Valid() && |len| == 4 && bits > 0 && n > 0
      ensures ok <==> EntryOf(key) in old(Content())
      ensures Content() == if ok then old(Content()) - multiset{EntryOf(key)} else old(Content())
      ensures Deleted(old(Buckets()), Position(key), OtherPosition(key), FingerprintOf(key), Buckets(), ok)
    {
      hide *;
      ReadyMeans();
      ShapeMeans();
      KeyLaws(key);
      var fp := FingerprintOf(key);
      var pos1 := Position(key);
      LookupIsExact(n, bits, len, Buckets(), pos1, fp);
      CanonAlternate(n, len, pos1, fp);
      OtherPositionIs(key);
      ghost var t := Buckets();
      BucketLaws(pos1);
      BucketLaws(Alternate(len, pos1, fp));
      HoldsPrintIs(t, pos1, fp);
      HoldsPrintIs(t, Alternate(len, pos1, fp), fp);
      var ok1 := DelInBucket(pos1, fp);
      if ok1 == 1 {
        ReadyMeans();
        DeletedIs(t, pos1, Alternate(len, pos1, fp), fp, Buckets(), true);
        return true;
      }
      var pos2 := Alternate(len, pos1, fp);
      var ok2 := DelInBucket(pos2, fp);
      ok := ok2 == 1;
      ReadyMeans();
      DeletedIs(t, pos1, pos2, fp, Buckets(), ok);
    }

    // ----- insertion -----

    // Five for a full bucket; otherwise the fingerprint goes into the last
    // slot, which is empty because the bucket is sorted.
    method InsertToBucket(store: array<nat>, fp: nat) returns (r: nat)
      requires store.Length >= 5
      modifies store
      ensures r == if old(store[4]) == SLOTS then 5 else 0
      ensures store[..4] == if r == 0 then old(store[..4])[3 := fp] else old(store[..4])
    {
      if store[4] == SLOTS {
        return 5;
      }
      store[3] := fp;
      r := 0;
    }

    // Writes back a bucket whose empty last slot was filled.
    method Settle(pos: nat, store: array<nat>, ghost fp: nat)
      requires Valid() && pos < n && Apart(store) && |Buckets()[pos]| == 4 && |len| == 4
      requires 0 < fp < Pow2(bits) && Buckets()[pos][3] == 0 && store[..4] == Buckets()[pos][3 := fp]
      modifies this`filledCell, words, store
      ensures Valid() && Content() == old(Content()) + multiset{Canon(len, pos, fp)}
      ensures Buckets() == Put(old(Buckets()), pos, 3, fp)
    {
      hide *;
      ReadyMeans();
      OneEntryIs(len, pos, fp);
      OneEntryIs(len, pos, 0);
      filledCell := filledCell + 1;
      ReadyMeans();
      Change(pos, store, 3, fp);
      ReadyMeans();
    }

    // Writes back a bucket in which a fingerprint was replaced by another.
    method Replace(pos: nat, store: array<nat>, ghost j: nat, ghost fp: nat)
      requires Valid() && pos < n && Apart(store) && |Buckets()[pos]| == 4 && |len| == 4 && j < 4
      requires 0 < fp < Pow2(bits) && Buckets()[pos][j] != 0 && store[..4] == Buckets()[pos][j := fp]
      modifies words, store
      ensures Valid() && Buckets() == Put(old(Buckets()), pos, j, fp)
      ensures Content() + multiset{Canon(len, pos, old(Buckets())[pos][j])}
              == old(Content()) + multiset{Canon(len, pos, fp)}
    {
      hide *;
      ReadyMeans();
      OneEntryIs(len, pos, fp);
      OneEntryIs(len, pos, Buckets()[pos][j]);
      Change(pos, store, j, fp);
      ReadyMeans();
    }

    // The fingerprint in hand is one of this filter's, for one of its buckets.
    ghost predicate InHand(pos: nat, fp: nat) {
      |len| == 4 && pos < n && 0 < fp < Pow2(bits)
    }

    lemma InHandMeans(pos: nat, fp: nat)
      ensures InHand(pos, fp) <==> |len| == 4 && pos < n && 0 < fp < Pow2(bits)
    {
      hide Pow2;
    }

    // Moves a fingerprint of a full bucket into its other bucket, which has
    // room, and puts the one in hand into its slot.
    method MoveOver(alt: nat, nex: nat, j: nat, hand: nat, store1: array<nat>, store2: array<nat>)
      requires Valid() && InHand(alt, hand) && |len| == 4 && j < 4
      requires Apart(store1) && Apart(store2) && store1 != store2
      requires store1[..4] == Buckets()[alt] && 0 !in Buckets()[alt]
      requires nex < n && store2[..4] == Buckets()[nex] && |Buckets()[nex]| == 4 && Buckets()[nex][3] == 0
      requires Canon(len, nex, store1[j]) == Canon(len, alt, store1[j])
      modifies this`filledCell, words, store1, store2
      ensures Valid() && Content() == old(Content()) + multiset{Canon(len, alt, hand)}
      ensures PutTwice(old(Buckets()), nex, old(Buckets())[alt][j], alt, j, hand, Buckets())
    {
      hide *;
      ReadyMeans();
      InHandMeans(alt, hand);
      ApartMeans(store1);
      ApartMeans(store2);
      BucketLaws(alt);
      ghost var t: seq<seq<nat>>, moving: nat := Buckets(), store1[j];
      assert moving == t[alt][j] && moving in t[alt];
      FullIsNotRoomy(t, alt, nex);
      ghost var total := Content() + multiset{Canon(len, alt, hand)};
      store2[3] := store1[j];
      ghost var filled: seq<nat> := t[nex][3 := moving];
      assert store2[..4] == filled;
      store1[j] := hand;
      ghost var changed: seq<nat> := t[alt][j := hand];
      assert store1[..4] == changed;
      Settle(nex, store2, moving);
      PutIs(t, nex, 3, moving);
      ReadyMeans();
      assert Buckets()[alt] == t[alt];
      Replace(alt, store1, j, hand);
      ReadyMeans();
      PutTwiceIs(t, nex, moving, alt, j, hand);
      Cancel(Content(), total, multiset{Canon(len, alt, moving)});
    }

    // One step ahead: moves a fingerprint of a full bucket into its other
    // bucket, if one of them has room there, and takes its slot.
    method TryNeighbours(alt: nat, hand: nat, store1: array<nat>, store2: array<nat>) returns (ok: bool)
      requires Valid() && InHand(alt, hand) && |len| == 4
      requires Apart(store1) && Apart(store2) && store1 != store2
      requires store1[..4] == Buckets()[alt] && 0 !in Buckets()[alt]
      modifies this`filledCell, words, store1, store2
      ensures Valid()
      ensures ok ==> Content() == old(Content()) + multiset{Canon(len, alt, hand)}
      ensures !ok ==> Buckets() == old(Buckets()) && Content() == old(Content()) && store1[..4] == Buckets()[alt]
      ensures ok <==> exists j: nat :: RoomAhead(len, old(Buckets()), alt, j)
      ensures ok ==> exists j: nat :: MovedAhead(len, old(Buckets()), alt, hand, j, Buckets())
    {
      hide *;
      ReadyMeans();
      ShapeMeans();
      InHandMeans(alt, hand);
      ApartMeans(store1);
      ApartMeans(store2);
      FourSlots();
      ghost var t: seq<seq<nat>> := Buckets();
      BucketLaws(alt);
      for j := 0 to SLOTS
        invariant Shape() && Ready() && Valid() && Buckets() == t && Content() == old(Content())
        invariant store1[..4] == t[alt]
        invariant forall k: nat | k < j :: !RoomAhead(len, t, alt, k)
      {
        RoomAheadIs(len, t, alt, j);
        ghost var moving := t[alt][j];
        assert store1[j] == moving && moving in t[alt];
        CanonAlternate(n, len, alt, moving);
        var nex := Alternate(len, alt, store1[j]);
        GetBucket(nex, store2);
        BucketLaws(nex);
        LastSlot(t[nex]);
        BucketedIs(t, nex);
        if store2[4] < SLOTS {
          MoveOver(alt, nex, j, hand, store1, store2);
          ReadyMeans();
          MovedAheadIs(len, t, alt, hand, j, Buckets());
          return true;
        }
      }
      forall j: nat
        ensures !RoomAhead(len, t, alt, j)
      {
        RoomAheadIs(len, t, alt, j);
      }
      ok := false;
    }

    // Takes the slot of a fingerprint of a full bucket, which is then in hand
    // for its other bucket.
    method TakeSlot(cur: nat, fp: nat, store: array<nat>, rk: nat) returns (alt: nat, hand: nat)
      requires Valid() && InHand(cur, fp) && |len| == 4 && rk < 4 && Apart(store)
      requires store[..4] == Buckets()[cur] && 0 !in Buckets()[cur]
      modifies words, store
      ensures Valid() && InHand(alt, hand)
      ensures Content() + multiset{Canon(len, alt, hand)} == old(Content()) + multiset{Canon(len, cur, fp)}
      ensures Swaps(len, Round(old(Buckets()), cur, fp), Round(Buckets(), alt, hand))
    {
      hide *;
      ReadyMeans();
      ShapeMeans();
      InHandMeans(cur, fp);
      BucketLaws(cur);
      ApartMeans(store);
      ghost var t: seq<seq<nat>> := Buckets();
      hand := store[rk];
      assert hand == t[cur][rk] && hand in t[cur];
      store[rk] := fp;
      ghost var changed: seq<nat> := t[cur][rk := fp];
      assert store[..4] == changed;
      Replace(cur, store, rk, fp);
      SwapsIs(len, t, cur, fp, rk);
      CanonAlternate(n, len, cur, hand);
      alt := Alternate(len, cur, hand);
      InHandMeans(alt, hand);
    }

    // One round of the kick chain: room in the bucket, room one step ahead, or
    // another fingerprint in hand.
    method KickStep(alt: nat, hand: nat, store1: array<nat>, store2: array<nat>)
      returns (ok: bool, alt': nat, hand': nat)
      requires Valid() && InHand(alt, hand) && |len| == 4
      requires Apart(store1) && Apart(store2) && store1 != store2
      modifies this`filledCell, words, store1, store2
      ensures Valid()
      ensures ok ==> Content() == old(Content()) + multiset{Canon(len, alt, hand)}
      ensures !ok ==> InHand(alt', hand')
                      && Content() + multiset{Canon(len, alt', hand')} == old(Content()) + multiset{Canon(len, alt, hand)}
      ensures ok <==> !Stuck(len, old(Buckets()), alt)
      ensures ok <==> HasRoom(old(Buckets()), alt) || exists j: nat :: RoomAhead(len, old(Buckets()), alt, j)
      ensures ok ==> Ends(len, Round(old(Buckets()), alt, hand), Buckets())
      ensures !ok ==> Swaps(len, Round(old(Buckets()), alt, hand), Round(Buckets(), alt', hand'))
    {
      hide *;
      ReadyMeans();
      InHandMeans(alt, hand);
      ApartMeans(store1);
      FourSlots();
      alt', hand' := alt, hand;
      GetBucket(alt, store1);
      BucketLaws(alt);
      LastSlot(Buckets()[alt]);
      ghost var t := Buckets();
      BucketedIs(t, alt);
      StuckIs(len, t, alt);
      if store1[4] == SLOTS {
        ok := TryNeighbours(alt, hand, store1, store2);
        if !ok {
          var rk: nat :| rk < SLOTS;
          alt', hand' := TakeSlot(alt, hand, store1, rk);
        } else {
          ReadyMeans();
          EndsIs(len, t, alt, hand, Buckets());
        }
      } else {
        store1[3] := hand;
        ghost var changed: seq<nat> := Buckets()[alt][3 := hand];
        assert store1[..4] == changed;
        Settle(alt, store1, hand);
        ok := true;
        ReadyMeans();
        SettledIs(t, alt, hand);
        EndsIs(len, t, alt, hand, Buckets());
      }
    }

    // The kick chain. What the filter holds and the fingerprint in hand stay
    // the same together.
    method Kick(start: nat, first: nat, store1: array<nat>, store2: array<nat>)
      returns (ok: bool, ghost lost: Entry, ghost rounds: seq<Round>)
      requires Valid() && InHand(start, first) && |len| == 4
      requires Apart(store1) && Apart(store2) && store1 != store2
      modifies this`filledCell, words, store1, store2
      ensures Valid()
      ensures ok ==> Content() == old(Content()) + multiset{Canon(len, start, first)}
      ensures !ok ==> Content() + multiset{lost} == old(Content()) + multiset{Canon(len, start, first)}
      ensures Kicked(len, maxKickSteps, rounds, Buckets(), ok) && |rounds| > 0
      ensures rounds[0] == Round(old(Buckets()), start, first)
      ensures !ok ==> lost == Canon(len, rounds[|rounds| - 1].pos, rounds[|rounds| - 1].hand)
    {
      hide *;
      ReadyMeans();
      var alt: nat, hand: nat := start, first;
      ghost var total := Content() + multiset{Canon(len, start, first)};
      ok, lost := false, Canon(len, start, first);
      rounds := [Round(Buckets(), start, first)];
      ChainOfOne(len, rounds[0]);
      for i := 0 to maxKickSteps
        invariant Shape() && Ready() && Valid() && InHand(alt, hand) && !ok && lost == Canon(len, alt, hand)
        invariant Content() + multiset{Canon(len, alt, hand)} == total
        invariant |rounds| == i + 1 && Chain(len, rounds) && rounds[0] == Round(old(Buckets()), start, first)
        invariant rounds[i] == Round(Buckets(), alt, hand)
      {
        ok, alt, hand := KickStep(alt, hand, store1, store2);
        ReadyMeans();
        if ok {
          KickedIs(len, maxKickSteps, rounds, Buckets(), true);
          return;
        }
        ChainGrows(len, rounds, Round(Buckets(), alt, hand));
        rounds := rounds + [Round(Buckets(), alt, hand)];
        lost := Canon(len, alt, hand);
      }
      KickedIs(len, maxKickSteps, rounds, Buckets(), false);
    }

    // Into the emptier of the two buckets, unless it is full.
    method TryBoth(cur1: nat, cur2: nat, fp: nat, store1: array<nat>, store2: array<nat>) returns (done: bool)
      requires Valid() && InHand(cur1, fp) && InHand(cur2, fp) && |len| == 4
      requires Canon(len, cur1, fp) == Canon(len, cur2, fp)
      requires Apart(store1) && Apart(store2) && store1 != store2
      modifies this`filledCell, words, store1, store2
      ensures Valid()
      ensures done ==> Content() == old(Content()) + multiset{Canon(len, cur1, fp)}
      ensures !done ==> Buckets() == old(Buckets()) && Content() == old(Content())
                        && 0 !in Buckets()[cur1] && 0 !in Buckets()[cur2]
                        && store1[..4] == Buckets()[cur1] && store2[..4] == Buckets()[cur2]
      ensures done <==> HasRoom(old(Buckets()), cur1) || HasRoom(old(Buckets()), cur2)
      ensures done ==> Settled(old(Buckets()), if Fuller(old(Buckets()), cur1, cur2) then cur2 else cur1, fp, Buckets())
    {
      hide *;
      ReadyMeans();
      InHandMeans(cur1, fp);
      InHandMeans(cur2, fp);
      ApartMeans(store1);
      ApartMeans(store2);
      GetBucket(cur1, store1);
      GetBucket(cur2, store2);
      BucketLaws(cur1);
      BucketLaws(cur2);
      LastSlot(Buckets()[cur1]);
      LastSlot(Buckets()[cur2]);
      FourSlots();
      ghost var t := Buckets();
      BucketedIs(t, cur1);
      BucketedIs(t, cur2);
      FullerIs(t, cur1, cur2);
      if store1[4] <= store2[4] {
        var r := InsertToBucket(store1, fp);
        if r == 0 {
          Settle(cur1, store1, fp);
          SettledIs(t, cur1, fp);
          return true;
        }
      } else {
        var r := InsertToBucket(store2, fp);
        if r == 0 {
          Settle(cur2, store2, fp);
          SettledIs(t, cur2, fp);
          return true;
        }
      }
      done := false;
    }

    // With both buckets full, the fingerprint takes a slot of either, and what was
    // there goes on its way.
    method InsertFull(cur1: nat, cur2: nat, fp: nat, store1: array<nat>, store2: array<nat>)
      returns (ok: bool, ghost lost: Entry, ghost rounds: seq<Round>)
      requires Valid() && InHand(cur1, fp) && InHand(cur2, fp) && |len| == 4
      requires Canon(len, cur1, fp) == Canon(len, cur2, fp)
      requires Apart(store1) && Apart(store2) && store1 != store2
      requires cur1 < n && cur2 < n && 0 !in Buckets()[cur1] && 0 !in Buckets()[cur2]
      requires store1[..4] == Buckets()[cur1] && store2[..4] == Buckets()[cur2]
      requires !HasRoom(Buckets(), cur1) && !HasRoom(Buckets(), cur2)
      modifies this`filledCell, words, store1, store2
      ensures Valid()
      ensures ok ==> Content() == old(Content()) + multiset{Canon(len, cur1, fp)}
      ensures !ok ==> Content() + multiset{lost} == old(Content()) + multiset{Canon(len, cur1, fp)}
      ensures Inserted(len, maxKickSteps, old(Buckets()), cur1, cur2, fp, rounds, Buckets(), ok)
      ensures !ok ==> |rounds| > 0 && lost == Canon(len, rounds[|rounds| - 1].pos, rounds[|rounds| - 1].hand)
    {
      hide *;
      ReadyMeans();
      ghost var t := Buckets();
      var rk: nat :| rk < 4;
      var alt: nat, hand: nat;
      var first: bool :| true;
      if first {
        alt, hand := TakeSlot(cur1, fp, store1, rk);
      } else {
        alt, hand := TakeSlot(cur2, fp, store2, rk);
      }
      ok, lost, rounds := Kick(alt, hand, store1, store2);
      ReadyMeans();
      MakeInserted(len, maxKickSteps, t, cur1, cur2, fp, if first then cur1 else cur2, rounds, Buckets(), ok);
    }

    // A successful insertion adds the entry of the key; a failed one also
    // loses one entry, that of some key or of the new one.
    method Insert(key: nat) returns (ok: bool, ghost lost: Entry, ghost rounds: seq<Round>)
      requires Valid()
      modifies this`filledCell, words
      ensures Valid() && |len| == 4 && bits > 0 && n > 0
      ensures ok ==> Content() == old(Content()) + multiset{EntryOf(key)}
      ensures !ok ==> Content() + multiset{lost} == old(Content()) + multiset{EntryOf(key)}
      ensures HasRoom(old(Buckets()), Position(key)) || HasRoom(old(Buckets()), OtherPosition(key)) ==> ok
      ensures Inserted(len, maxKickSteps, old(Buckets()), Position(key), OtherPosition(key), FingerprintOf(key),
                       rounds, Buckets(), ok)
      ensures !ok ==> |rounds| > 0 && lost == Canon(len, rounds[|rounds| - 1].pos, rounds[|rounds| - 1].hand)
    {
      hide *;
      ReadyMeans();
      ShapeMeans();
      KeyLaws(key);
      OtherPositionIs(key);
      ghost var t := Buckets();
      var fp := FingerprintOf(key);
      var cur1 := Position(key);
      CanonAlternate(n, len, cur1, fp);
      var cur2 := Alternate(len, cur1, fp);
      lost, rounds := EntryOf(key), [];
      var store1 := new nat[8](_ => 0);
      var store2 := new nat[8](_ => 0);
      ApartMeans(store1);
      ApartMeans(store2);
      InHandMeans(cur1, fp);
      InHandMeans(cur2, fp);
      ok := TryBoth(cur1, cur2, fp, store1, store2);
      ReadyMeans();
      if ok {
        MakeSettled(len, maxKickSteps, t, cur1, cur2, fp, Buckets());
      } else {
        ok, lost, rounds := InsertFull(cur1, cur2, fp, store1, store2);
      }
    }

    // ----- runs -----

    // The entry of every key.
    ghost function EntryMap(): nat -> Entry
      requires |len| == 4 && bits > 0 && n > 0
    {
      (key: nat) => EntryOf(key)
    }

    lemma EntryMapIs(key: nat)
      requires |len| == 4 && bits > 0 && n > 0
      ensures EntryMap()(key) == EntryOf(key)
    {
      hide EntryOf;
    }

    // What one operation does to the buckets.
    ghost predicate Applied(t: seq<seq<nat>>, op: Operation, u: seq<seq<nat>>, ok: bool)
      requires |len| == 4 && bits > 0 && n > 0
    {
      var p, a, fp := Position(op.key), OtherPosition(op.key), FingerprintOf(op.key);
      match op
      case InsertKey(_) => exists rounds: seq<Round> :: Inserted(len, maxKickSteps, t, p, a, fp, rounds, u, ok)
      case DeleteKey(_) => Deleted(t, p, a, fp, u, ok)
    }

    // The buckets during a run, one operation after the other.
    ghost predicate IsRun(ops: seq<Operation>, tables: seq<seq<seq<nat>>>, oks: seq<bool>)
      requires |len| == 4 && bits > 0 && n > 0
    {
      && |tables| == |ops| + 1 && |oks| == |ops|
      && forall k: nat | k < |ops| :: Applied(tables[k], ops[k], tables[k + 1], oks[k])
    }

    lemma RunOfNone(t: seq<seq<nat>>)
      requires |len| == 4 && bits > 0 && n > 0
      ensures IsRun([], [t], [])
    {
    }

    lemma RunGrows(ops: seq<Operation>, i: nat, tables: seq<seq<seq<nat>>>, oks: seq<bool>, u: seq<seq<nat>>, ok: bool)
      requires |len| == 4 && bits > 0 && n > 0
      requires i < |ops| && IsRun(ops[..i], tables, oks) && |tables| == i + 1 && Applied(tables[i], ops[i], u, ok)
      ensures IsRun(ops[..i + 1], tables + [u], oks + [ok])
    {
      hide Applied;
      var more, all := tables + [u], oks + [ok];
      forall k: nat | k < i + 1
        ensures Applied(more[k], ops[..i + 1][k], more[k + 1], all[k])
      {
        if k < i {
          assert Applied(tables[k], ops[..i][k], tables[k + 1], oks[k]);
        }
      }
    }

    lemma AppliedIs(t: seq<seq<nat>>, op: Operation, rounds: seq<Round>, u: seq<seq<nat>>, ok: bool)
      requires |len| == 4 && bits > 0 && n > 0
      requires op.InsertKey? ==> Inserted(len, maxKickSteps, t, Position(op.key), OtherPosition(op.key),
                                          FingerprintOf(op.key), rounds, u, ok)
      requires op.DeleteKey? ==> Deleted(t, Position(op.key), OtherPosition(op.key), FingerprintOf(op.key), u, ok)
      ensures Applied(t, op, u, ok)
    {
      hide Inserted, Deleted, Position, OtherPosition, FingerprintOf;
    }

    // One operation; an insertion that fails loses one entry.
    method Apply(op: Operation) returns (ok: bool, ghost lost: Entry)
      requires Valid()
      modifies this`filledCell, words
      ensures Valid() && |len| == 4 && bits > 0 && n > 0
      ensures ok || op.DeleteKey? ==> Content() == After(EntryMap(), old(Content()), op)
      ensures !ok && op.InsertKey? ==> Content() + multiset{lost} == After(EntryMap(), old(Content()), op)
      ensures Applied(old(Buckets()), op, Buckets(), ok)
    {
      hide *;
      ReadyMeans();
      ShapeMeans();
      KeyLaws(op.key);
      AfterIs(EntryMap(), Content(), op);
      EntryMapIs(op.key);
      ghost var t := Buckets();
      ghost var rounds: seq<Round> := [];
      match op {
        case InsertKey(key) =>
          ok, lost, rounds := Insert(key);
        case DeleteKey(key) =>
          ok := Del(key);
          lost := EntryOf(key);
          DeletedOrAbsent(old(Content()), EntryOf(key));
      }
      ReadyMeans();
      AppliedIs(t, op, rounds, Buckets(), ok);
    }

    lemma DeletedOrAbsent(before: multiset<Entry>, e: Entry)
      ensures e !in before ==> before - multiset{e} == before
    {
    }

    // Runs operations until an insertion fails. Up to there the content is that
    // of the keys inserted and not deleted.
    method Perform(ops: seq<Operation>)
      returns (done: nat, ghost lost: Entry, ghost tables: seq<seq<seq<nat>>>, ghost oks: seq<bool>)
      requires Valid()
      modifies this`filledCell, words
      ensures Valid() && |len| == 4 && bits > 0 && n > 0 && done <= |ops|
      ensures done == |ops| ==> Content() == LiveAfter(EntryMap(), old(Content()), ops)
      ensures done < |ops| ==>
                ops[done].InsertKey?
                && Content() + multiset{lost} == LiveAfter(EntryMap(), old(Content()), ops[..done + 1])
      ensures var ran := if done < |ops| then done + 1 else done;
              && IsRun(ops[..ran], tables, oks) && |tables| == ran + 1 && |oks| == ran
              && tables[0] == old(Buckets()) && tables[ran] == Buckets()
      ensures forall k: nat | k < done && ops[k].InsertKey? :: oks[k]
      ensures done < |ops| ==> !oks[done]
    {
      hide *;
      ReadyMeans();
      ShapeMeans();
      KeyLaws(0);
      done, lost := 0, EntryOf(0);
      ghost var start := Content();
      tables, oks := [Buckets()], [];
      RunOfNone(Buckets());
      LiveAfterNone(EntryMap(), start);
      assert ops[..0] == [];
      while done < |ops|
        invariant done <= |ops| && Valid() && Ready() && Shape()
        invariant Content() == LiveAfter(EntryMap(), start, ops[..done])
        invariant IsRun(ops[..done], tables, oks) && |tables| == done + 1 && |oks| == done
        invariant tables[0] == old(Buckets()) && tables[done] == Buckets()
        invariant forall k: nat | k < done && ops[k].InsertKey? :: oks[k]
      {
        LiveAfterStep(EntryMap(), start, ops, done);
        var ok;
        ok, lost := Apply(ops[done]);
        ReadyMeans();
        RunGrows(ops, done, tables, oks, Buckets(), ok);
        tables, oks := tables + [Buckets()], oks + [ok];
        if !ok && ops[done].InsertKey? {
          return;
        }
        done := done + 1;
      }
      assert ops[..done] == ops;
    }

    // After a run from an empty filter that deletes only present keys, every
    // key that is present has its entry, so that a lookup finds it.
    lemma PresentIsHeld(ops: seq<Operation>, key: nat)
      requires Shape() && |len| == 4 && bits > 0 && n > 0 && Content() == LiveAfter(EntryMap(), multiset{}, ops)
      requires DeletesPresent(ops) && key in Present(ops)
      ensures EntryOf(key) in Content()
    {
      hide *;
      PresentIsLive(EntryMap(), ops, key);
      EntryMapIs(key);
    }

    // Two keys have one entry when their fingerprints and their buckets agree.
    lemma SameEntry(key: nat, other: nat)
      requires Shape() && |len| == 4 && bits > 0 && n > 0 && Pow2(bits) > 1
      ensures EntryOf(key) == EntryOf(other) <==>
              && (hash(key).finger - hash(other).finger) % (Pow2(bits) - 1) == 0
              && (Position(other) == Position(key) || Position(other) == OtherPosition(key))
    {
      hide *;
      ShapeMeans();
      KeyLaws(key);
      KeyLaws(other);
      OtherPositionIs(key);
      FingerprintOfIs(key);
      FingerprintOfIs(other);
      SameFingerprintExactly(hash(key).finger, hash(other).finger, bits);
      CanonSame(n, len, Position(key), Position(other), FingerprintOf(key), FingerprintOf(other));
    }

    lemma FingerprintOfIs(key: nat)
      requires bits > 0
      ensures FingerprintOf(key) == Fingerprint(hash(key).finger, bits)
    {
      hide Fingerprint;
    }

    // After such a run a key is found exactly when its fingerprint hash and its pair
    // of buckets agree with those of a present key.
    lemma FoundExactly(ops: seq<Operation>, key: nat)
      requires Shape() && |len| == 4 && bits > 0 && n > 0 && Pow2(bits) > 1
      requires Content() == LiveAfter(EntryMap(), multiset{}, ops) && DeletesPresent(ops)
      ensures EntryOf(key) in Content() <==>
              exists other: nat | other in Present(ops) ::
                && (hash(key).finger - hash(other).finger) % (Pow2(bits) - 1) == 0
                && (Position(other) == Position(key) || Position(other) == OtherPosition(key))
    {
      hide *;
      LiveArePresent(EntryMap(), ops);
      if EntryOf(key) in Content() {
        var other := EntryHasKey(EntryMap(), Present(ops), EntryOf(key));
        EntryMapIs(other);
        SameEntry(key, other);
      }
      forall other: nat | other in Present(ops) && (hash(key).finger - hash(other).finger) % (Pow2(bits) - 1) == 0
                          && (Position(other) == Position(key) || Position(other) == OtherPosition(key))
        ensures EntryOf(key) in Content()
      {
        KeyHasEntry(EntryMap(), Present(ops), other);
        EntryMapIs(other);
        SameEntry(key, other);
      }
    }
  }
}
