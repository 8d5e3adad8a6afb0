/** Addresses in a Morton filter: fingerprints, primary and alternate buckets, and
    overflow-tracking bits, before and after the filter has been resized. */
module MortonGeometry {
  import opened Arith

  datatype AlternateMethod = TableBasedOffset | FunctionBasedOffset
  datatype OtaMethod = LemireFingerprintMultiply | RawBucketHash | ClusteredBucketHash

  type Hash64 = h: nat | h < 0x1_0000_0000_0000_0000

  // The compile-time parameters of the filter and its hash function.
  datatype Config = Config(
    slotsPerBucket: nat,
    bucketsPerBlock: nat,
    maxFingerprints: nat,
    otaBits: nat,
    fingerprintBits: nat,
    alternateMethod: AlternateMethod,
    otaMethod: OtaMethod,
    resizingEnabled: bool,
    hash: nat -> Hash64)

  // The parameters together with the current size.
  datatype Geometry = Geometry(cfg: Config, totalBuckets: nat, resizeCount: nat)

  const HASH_BITS: nat := 64

  lemma HashFits(h: Hash64)
    ensures h < Pow2(HASH_BITS)
  {
    PowerOf32();
    hide Pow2;
    Pow2Add(32, 32);
  }

  const OFFSETS: seq<nat> := [83, 149, 211, 277, 337, 397, 457, 521, 587, 653, 719, 787, 853, 919, 983, 1051,
    1117, 1181, 1249, 1319, 1399, 1459, 1511, 1571, 1637, 1699, 1759, 1823, 1889, 1951, 2017, 1579]

  // Total buckets before any resizing.
  function OriginalTotal(g: Geometry): nat {
    DivNonNeg(g.totalBuckets, Pow2(g.resizeCount));
    g.totalBuckets / Pow2(g.resizeCount)
  }

  // No offset between the two candidate buckets is larger than this.
  function MaxOffset(cfg: Config): nat {
    match cfg.alternateMethod
    case TableBasedOffset => 2017
    case FunctionBasedOffset => 0x2000 + cfg.bucketsPerBlock
  }

  ghost predicate SoundConfig(cfg: Config) {
    && 0 < cfg.slotsPerBucket && 0 < cfg.bucketsPerBlock && 0 < cfg.maxFingerprints < 256 && 0 < cfg.otaBits
    && 0 < cfg.fingerprintBits < HASH_BITS
    && (cfg.alternateMethod == TableBasedOffset ==> cfg.bucketsPerBlock <= 83)
  }

  // Whole blocks and an even number of buckets, enough for every offset.
  ghost predicate Aligned(g: Geometry) {
    && SoundConfig(g.cfg)
    && g.resizeCount <= g.cfg.fingerprintBits
    && (!g.cfg.resizingEnabled ==> g.resizeCount == 0)
    && g.totalBuckets == OriginalTotal(g) * Pow2(g.resizeCount)
    && OriginalTotal(g) % 2 == 0
    && OriginalTotal(g) % g.cfg.bucketsPerBlock == 0
    && MaxOffset(g.cfg) <= OriginalTotal(g)
  }

  // Large enough for the two candidate buckets to be in different blocks always.
  ghost predicate Sound(g: Geometry) {
    Aligned(g) && MaxOffset(g.cfg) + g.cfg.bucketsPerBlock <= OriginalTotal(g)
  }

  // ----- fingerprints and buckets of a hash -----

  ghost predicate IsFingerprint(cfg: Config, f: nat) {
    f < Pow2(cfg.fingerprintBits)
  }

  function Fingerprint(cfg: Config, raw: nat): nat
    requires cfg.fingerprintBits <= HASH_BITS
  {
    DivNonNeg(raw, Pow2(HASH_BITS - cfg.fingerprintBits));
    raw / Pow2(HASH_BITS - cfg.fingerprintBits)
  }

  lemma FingerprintFits(cfg: Config, raw: nat)
    requires cfg.fingerprintBits <= HASH_BITS && raw < Pow2(HASH_BITS)
    ensures IsFingerprint(cfg, Fingerprint(cfg, raw))
  {
    hide Pow2;
    Pow2Split(HASH_BITS, cfg.fingerprintBits);
    DivUpper(raw, Pow2(HASH_BITS - cfg.fingerprintBits), Pow2(cfg.fingerprintBits));
  }

  // Two hashes agree in all bits above those that choose the bucket.
  ghost predicate SameHigh(cfg: Config, x: nat, y: nat)
    requires cfg.fingerprintBits <= HASH_BITS
  {
    x - x % Pow2(HASH_BITS - cfg.fingerprintBits) == y - y % Pow2(HASH_BITS - cfg.fingerprintBits)
  }

  // A fingerprint is the high bits of its hash: two hashes share one exactly when
  // they agree in those.
  lemma SameFingerprintExactly(cfg: Config, x: nat, y: nat)
    requires cfg.fingerprintBits <= HASH_BITS
    ensures Fingerprint(cfg, x) * Pow2(HASH_BITS - cfg.fingerprintBits) + x % Pow2(HASH_BITS - cfg.fingerprintBits) == x
    ensures Fingerprint(cfg, x) == Fingerprint(cfg, y)
            <==> SameHigh(cfg, x, y)
  {
    var low := Pow2(HASH_BITS - cfg.fingerprintBits);
    DivMod(x, low);
    DivMod(y, low);
    hide Pow2;
    if x - x % low == y - y % low {
      DivModUnique(x, low, y / low, x % low);
    }
  }

  // The multiplicative stand-in for a remainder.
  function FastMod(x: nat, modulus: nat, bits: nat): nat {
    MulNonNeg(x, modulus);
    DivNonNeg(x * modulus, Pow2(bits));
    (x * modulus) / Pow2(bits)
  }

  lemma FastModInRange(x: nat, modulus: nat, bits: nat)
    requires x < Pow2(bits) && 0 < modulus
    ensures FastMod(x, modulus, bits) < modulus
  {
    MulLt(x, Pow2(bits), modulus);
    DivUpper(x * modulus, Pow2(bits), modulus);
  }

  // It is the share of the modulus that x takes of all numbers of its width,
  // rounded down.
  lemma FastModIsFloor(x: nat, modulus: nat, bits: nat)
    ensures FastMod(x, modulus, bits) * Pow2(bits) <= x * modulus < (FastMod(x, modulus, bits) + 1) * Pow2(bits)
  {
    MulNonNeg(x, modulus);
    DivMod(x * modulus, Pow2(bits));
    MulAdd(FastMod(x, modulus, bits), 1, Pow2(bits));
  }

  // The top resizeCount bits of a fingerprint name the child of a split block.
  function Child(g: Geometry, f: nat): (r: nat)
    requires g.resizeCount <= g.cfg.fingerprintBits
    ensures r < Pow2(g.resizeCount)
  {
    DivNonNeg(f, Pow2(g.cfg.fingerprintBits - g.resizeCount));
    (f / Pow2(g.cfg.fingerprintBits - g.resizeCount)) % Pow2(g.resizeCount)
  }

  lemma ChildIsTopBits(g: Geometry, f: nat)
    requires g.resizeCount <= g.cfg.fingerprintBits && IsFingerprint(g.cfg, f)
    ensures Child(g, f) * Pow2(g.cfg.fingerprintBits - g.resizeCount) <= f
            < (Child(g, f) + 1) * Pow2(g.cfg.fingerprintBits - g.resizeCount)
  {
    var low := Pow2(g.cfg.fingerprintBits - g.resizeCount);
    hide Pow2;
    Pow2Split(g.cfg.fingerprintBits, g.resizeCount);
    DivNonNeg(f, low);
    DivMod(f, low);
    DivUpper(f, low, Pow2(g.resizeCount));
    SmallDivMod(f / low, Pow2(g.resizeCount));
    MulAdd(f / low, 1, low);
  }

  // A bucket of the original filter at its place in the resized one.
  function ToCurrent(g: Geometry, original: nat, f: nat): nat
    requires g.resizeCount <= g.cfg.fingerprintBits && g.cfg.bucketsPerBlock > 0
  {
    var b := g.cfg.bucketsPerBlock;
    DivNonNeg(original, b);
    Or(original / b * Pow2(g.resizeCount), Child(g, f)) * b + original % b
  }

  function ToOriginal(g: Geometry, bucket: nat): nat
    requires g.cfg.bucketsPerBlock > 0
  {
    var b := g.cfg.bucketsPerBlock;
    DivNonNeg(bucket, b);
    DivNonNeg(bucket / b, Pow2(g.resizeCount));
    bucket / b / Pow2(g.resizeCount) * b + bucket % b
  }

  function MapToBucket(g: Geometry, raw: nat): nat
    requires SoundConfig(g.cfg) && g.resizeCount <= g.cfg.fingerprintBits
  {
    var shift := HASH_BITS - g.cfg.fingerprintBits;
    var low := raw % Pow2(shift);
    if g.cfg.resizingEnabled then
      ToCurrent(g, FastMod(low, OriginalTotal(g), shift), Fingerprint(g.cfg, raw))
    else
      FastMod(low, g.totalBuckets, shift)
  }

  // ----- the alternate bucket -----

  function Offset(cfg: Config, f: nat): nat {
    match cfg.alternateMethod
    case TableBasedOffset => OFFSETS[f % |OFFSETS|]
    case FunctionBasedOffset => Or(cfg.hash(f) % 0x2000 + cfg.bucketsPerBlock, 1)
  }

  // Odd buckets move up and even ones down, wrapping at the end of the table.
  function Step(bucket: nat, offset: nat, total: nat): int {
    var moved := if bucket % 2 == 1 then bucket + offset else bucket - offset;
    var raised := if moved < 0 then moved + total else moved;
    if raised >= total then raised - total else raised
  }

  lemma OrOne(x: nat)
    ensures Or(x, 1) == if x % 2 == 1 then x else x + 1
  {
    OrZero(x / 2);
  }

  lemma OffsetTable(i: nat)
    requires i < |OFFSETS|
    ensures OFFSETS[i] % 2 == 1 && 83 <= OFFSETS[i] <= 2017
  {
  }

  lemma OffsetRange(cfg: Config, f: nat)
    requires SoundConfig(cfg)
    ensures Offset(cfg, f) % 2 == 1
    ensures cfg.bucketsPerBlock <= Offset(cfg, f) <= MaxOffset(cfg)
  {
    match cfg.alternateMethod
    case TableBasedOffset =>
      OffsetTable(f % |OFFSETS|);
    case FunctionBasedOffset =>
      OrOne(cfg.hash(f) % 0x2000 + cfg.bucketsPerBlock);
  }

  // The computed offset is thirteen bits of the hash and the size of a block, made
  // odd; two fingerprints share a tabulated one exactly when their low five bits agree.
  lemma OffsetIs(cfg: Config, f: nat, f2: nat)
    ensures cfg.alternateMethod == FunctionBasedOffset
            ==> Offset(cfg, f) % 2 == 1 && 0 <= Offset(cfg, f) - cfg.hash(f) % 0x2000 - cfg.bucketsPerBlock <= 1
    ensures cfg.alternateMethod == TableBasedOffset
            ==> Offset(cfg, f) in OFFSETS && (Offset(cfg, f) == Offset(cfg, f2) <==> f % 32 == f2 % 32)
  {
    if cfg.alternateMethod == FunctionBasedOffset {
      OrOne(cfg.hash(f) % 0x2000 + cfg.bucketsPerBlock);
      hide Or;
    } else {
      OffsetsDiffer(f % 32, f2 % 32);
      hide OFFSETS;
    }
  }

  // The tabulated offsets grow with the fingerprint, but for the last one.
  lemma OffsetsDiffer(i: nat, j: nat)
    requires i < 32 && j < 32
    ensures |OFFSETS| == 32
    ensures OFFSETS[i] == OFFSETS[j] <==> i == j
  {
    OffsetIndex(i);
    OffsetIndex(j);
    hide OFFSETS;
    if i < j < 31 {
      OffsetsGrow(i, j);
    } else if j < i < 31 {
      OffsetsGrow(j, i);
    }
  }

  lemma OffsetIndex(i: nat)
    requires i < 32
    ensures |OFFSETS| == 32
    ensures OFFSETS[i] == 1579 <==> i == 31
    ensures i < 30 ==> OFFSETS[i] < OFFSETS[i + 1]
  {
  }

  lemma {:induction false} OffsetsGrow(i: nat, j: nat)
    requires i < j < 31 && |OFFSETS| == 32
    ensures OFFSETS[i] < OFFSETS[j]
  {
    hide OFFSETS;
    OffsetIndex(j - 1);
    if i < j - 1 {
      OffsetsGrow(i, j - 1);
    }
  }

  // The step is up or down by the offset modulo the size of the table.
  lemma StepIs(bucket: nat, offset: nat, total: nat)
    requires bucket < total && offset <= total
    ensures 0 <= Step(bucket, offset, total) < total
    ensures Step(bucket, offset, total) == (if bucket % 2 == 1 then bucket + offset else bucket - offset) % total
  {
    var moved := if bucket % 2 == 1 then bucket + offset else bucket - offset;
    var k := if moved < 0 then -1 else if moved >= total then 1 else 0;
    DivModUnique(moved, total, k, Step(bucket, offset, total));
  }

  // With an even total and an odd offset the step stays in the table, changes
  // the parity, and is its own inverse.
  lemma StepInvolution(bucket: nat, offset: nat, total: nat)
    requires bucket < total && total % 2 == 0 && offset % 2 == 1 && offset <= total
    ensures 0 <= Step(bucket, offset, total) < total
    ensures Step(Step(bucket, offset, total), offset, total) == bucket
  {
  }

  // Far enough from both ends of the offset range, the two buckets are a block apart.
  lemma StepDistance(bucket: nat, offset: nat, total: nat, b: nat)
    requires bucket < total && b <= offset <= total - b
    ensures Step(bucket, offset, total) >= bucket + b || Step(bucket, offset, total) <= bucket - b
  {
  }

  lemma FarMeansOtherBlock(x: nat, y: nat, b: nat)
    requires b > 0 && x + b <= y
    ensures x / b < y / b
  {
    DivMono(x + b, y, b);
    AddMulDiv(x, 1, b);
  }

  function AlternateStep(g: Geometry, original: nat, f: nat): (r: nat)
    requires Aligned(g) && original < OriginalTotal(g)
    ensures r < OriginalTotal(g)
  {
    OffsetRange(g.cfg, f);
    StepInvolution(original, Offset(g.cfg, f), OriginalTotal(g));
    Step(original, Offset(g.cfg, f), OriginalTotal(g))
  }

  // ----- original and current buckets -----

  ghost predicate Legal(g: Geometry, bucket: nat, f: nat)
    requires Aligned(g)
  {
    && bucket < g.totalBuckets
    && IsFingerprint(g.cfg, f)
    && (bucket / g.cfg.bucketsPerBlock) % Pow2(g.resizeCount) == Child(g, f)
  }

  lemma ToOriginalInRange(g: Geometry, bucket: nat)
    requires Aligned(g) && bucket < g.totalBuckets
    ensures ToOriginal(g, bucket) < OriginalTotal(g)
    ensures ToOriginal(g, bucket) / g.cfg.bucketsPerBlock == bucket / g.cfg.bucketsPerBlock / Pow2(g.resizeCount)
    ensures ToOriginal(g, bucket) % g.cfg.bucketsPerBlock == bucket % g.cfg.bucketsPerBlock
  {
    var b, k, t := g.cfg.bucketsPerBlock, Pow2(g.resizeCount), OriginalTotal(g);
    var n := t / b;
    DivMod(t, b);
    var blk := bucket / b;
    DivNonNeg(bucket, b);
    DivNonNeg(blk, k);
    // bucket < t * k == (n * k) * b
    MulAssoc(n, b, k);
    MulAssoc(n, k, b);
    assert b * k == k * b;
    DivUpper(bucket, b, n * k);
    DivUpper(blk, k, n);
    DivMod(bucket, b);
    AddMulDiv(bucket % b, blk / k, b);
    SmallDivMod(bucket % b, b);
    MulLe(blk / k, n - 1, b);
    MulSub(n, 1, b);
  }

  lemma ToCurrentInRange(g: Geometry, original: nat, f: nat)
    requires Aligned(g) && original < OriginalTotal(g) && IsFingerprint(g.cfg, f)
    ensures Legal(g, ToCurrent(g, original, f), f)
    ensures ToOriginal(g, ToCurrent(g, original, f)) == original
    ensures ToCurrent(g, original, f) / g.cfg.bucketsPerBlock / Pow2(g.resizeCount) == original / g.cfg.bucketsPerBlock
  {
    var b, k, t, c := g.cfg.bucketsPerBlock, Pow2(g.resizeCount), OriginalTotal(g), Child(g, f);
    var n := t / b;
    var ob, lbi := original / b, original % b;
    DivMod(original, b);
    DivNonNeg(original, b);
    DivMod(t, b);
    OrDisjoint(ob, c, g.resizeCount);
    var blk := ob * k + c;
    var cur := ToCurrent(g, original, f);
    DivModUnique(cur, b, blk, lbi);
    DivModUnique(blk, k, ob, c);
    DivUpper(original, b, n);
    CurrentBelow(ob, c, k, lbi, b, n);
  }

  lemma CurrentBelow(ob: nat, c: nat, k: nat, lbi: nat, b: nat, n: nat)
    requires ob < n && c < k && lbi < b
    ensures (ob * k + c) * b + lbi < (n * b) * k
  {
    MulLe(ob + 1, n, k);
    MulAdd(ob, 1, k);
    MulLe(ob * k + c + 1, n * k, b);
    MulAdd(ob * k + c, 1, b);
    MulAssoc(n, k, b);
    MulAssoc(n, b, k);
    assert k * b == b * k;
  }

  lemma ToCurrentInverse(g: Geometry, bucket: nat, f: nat)
    requires Aligned(g) && Legal(g, bucket, f)
    ensures ToCurrent(g, ToOriginal(g, bucket), f) == bucket
  {
    var b, k := g.cfg.bucketsPerBlock, Pow2(g.resizeCount);
    var blk := bucket / b;
    DivMod(bucket, b);
    DivNonNeg(bucket, b);
    DivMod(blk, k);
    DivNonNeg(blk, k);
    DivModUnique(ToOriginal(g, bucket), b, blk / k, bucket % b);
    OrDisjoint(blk / k, Child(g, f), g.resizeCount);
  }

  // Without resizing the two numberings coincide.
  lemma UnresizedIsOriginal(g: Geometry, bucket: nat, f: nat)
    requires Aligned(g) && g.resizeCount == 0
    ensures OriginalTotal(g) == g.totalBuckets
    ensures ToOriginal(g, bucket) == bucket
    ensures ToCurrent(g, bucket, f) == bucket
  {
    var b := g.cfg.bucketsPerBlock;
    DivMod(bucket, b);
    DivNonNeg(bucket, b);
    OrZero(bucket / b);
  }

  function Alternate(g: Geometry, bucket: nat, f: nat): nat
    requires Aligned(g) && bucket < g.totalBuckets
  {
    ToOriginalInRange(g, bucket);
    if !g.cfg.resizingEnabled then
      UnresizedIsOriginal(g, bucket, f);
      AlternateStep(g, bucket, f)
    else
      ToCurrent(g, AlternateStep(g, ToOriginal(g, bucket), f), f)
  }

  // ----- overflow tracking -----

  // Block number before resizing.
  function OldBlock(g: Geometry, bucket: nat): nat
    requires g.cfg.bucketsPerBlock > 0
  {
    DivNonNeg(bucket, g.cfg.bucketsPerBlock);
    DivNonNeg(bucket / g.cfg.bucketsPerBlock, Pow2(g.resizeCount));
    bucket / g.cfg.bucketsPerBlock / Pow2(g.resizeCount)
  }

  lemma OldBlockIs(g: Geometry, bucket: nat)
    requires g.cfg.bucketsPerBlock > 0
    ensures var size := g.cfg.bucketsPerBlock * Pow2(g.resizeCount);
            OldBlock(g, bucket) * size <= bucket < (OldBlock(g, bucket) + 1) * size
  {
    var b, k := g.cfg.bucketsPerBlock, Pow2(g.resizeCount);
    hide Pow2;
    DivDiv(bucket, b, k);
    DivMod(bucket, b * k);
    MulAdd(OldBlock(g, bucket), 1, b * k);
  }

  function Clustered(id: nat, b: nat, bits: nat): nat
    requires b > 0 && bits > 0
  {
    CeilingCovers(b, bits);
    DivNonNeg(id % b, (b + bits - 1) / bits);
    (id % b) / ((b + bits - 1) / bits)
  }

  // Whether the block before resizing takes the place of the bucket.
  predicate TakesOldBlock(cfg: Config)
    requires cfg.bucketsPerBlock > 0
  {
    cfg.resizingEnabled && cfg.otaMethod != LemireFingerprintMultiply && !IsPowerOfTwo(cfg.bucketsPerBlock)
  }

  function OtaIndex(g: Geometry, bucket: nat, f: nat): nat
    requires SoundConfig(g.cfg)
  {
    var cfg := g.cfg;
    var b := cfg.bucketsPerBlock;
    // the source takes the local index of the block number here
    var id := if TakesOldBlock(cfg) then OldBlock(g, bucket) * b + OldBlock(g, bucket) % b else bucket;
    match cfg.otaMethod
    case LemireFingerprintMultiply => FastMod(f, cfg.otaBits, cfg.fingerprintBits)
    case RawBucketHash => id % cfg.otaBits
    case ClusteredBucketHash => Clustered(id, b, cfg.otaBits)
  }

  lemma OtaIndexInRange(g: Geometry, bucket: nat, f: nat)
    requires SoundConfig(g.cfg) && IsFingerprint(g.cfg, f)
    ensures OtaIndex(g, bucket, f) < g.cfg.otaBits
  {
    var cfg, b := g.cfg, g.cfg.bucketsPerBlock;
    var id := if TakesOldBlock(cfg) then OldBlock(g, bucket) * b + OldBlock(g, bucket) % b else bucket;
    FastModInRange(f, cfg.otaBits, cfg.fingerprintBits);
    ClusteredInRange(id, b, cfg.otaBits);
    hide FastMod, Clustered, OldBlock, TakesOldBlock;
  }

  // A multiplied fingerprint indexes by its share of all fingerprints; a raw bucket
  // by its remainder; a clustered one by the group of neighbouring buckets it is
  // in, the smallest groups for which the bits suffice. Where a block is no power
  // of two, a filter that can grow takes the old block for the bucket.
  lemma OtaIndexIs(g: Geometry, bucket: nat, f: nat)
    requires SoundConfig(g.cfg)
    ensures g.cfg.otaMethod == LemireFingerprintMultiply
            ==> OtaIndex(g, bucket, f) * Pow2(g.cfg.fingerprintBits) <= f * g.cfg.otaBits
                < (OtaIndex(g, bucket, f) + 1) * Pow2(g.cfg.fingerprintBits)
    ensures g.cfg.otaMethod == RawBucketHash && !TakesOldBlock(g.cfg)
            ==> OtaIndex(g, bucket, f) < g.cfg.otaBits && (bucket - OtaIndex(g, bucket, f)) % g.cfg.otaBits == 0
    ensures g.cfg.otaMethod == RawBucketHash && TakesOldBlock(g.cfg)
            ==> OtaIndex(g, bucket, f) < g.cfg.otaBits
                && (OldBlock(g, bucket) * g.cfg.bucketsPerBlock + OldBlock(g, bucket) % g.cfg.bucketsPerBlock
                    - OtaIndex(g, bucket, f)) % g.cfg.otaBits == 0
    ensures g.cfg.otaMethod == ClusteredBucketHash
            ==> exists group: nat ::
                  && GroupsSuffice(group, g.cfg) && (group > 0 ==> !GroupsSuffice(group - 1, g.cfg))
                  && OtaIndex(g, bucket, f) * group
                     <= (if TakesOldBlock(g.cfg) then OldBlock(g, bucket) else bucket) % g.cfg.bucketsPerBlock
                     < (OtaIndex(g, bucket, f) + 1) * group
  {
    var cfg, b := g.cfg, g.cfg.bucketsPerBlock;
    var id := if TakesOldBlock(cfg) then OldBlock(g, bucket) * b + OldBlock(g, bucket) % b else bucket;
    match cfg.otaMethod
    case LemireFingerprintMultiply =>
      FastModIsFloor(f, cfg.otaBits, cfg.fingerprintBits);
    case RawBucketHash =>
      DivMod(id, cfg.otaBits);
      AddMulDiv(0, id / cfg.otaBits, cfg.otaBits);
    case ClusteredBucketHash =>
      SmallestGroup(cfg);
      if TakesOldBlock(cfg) {
        OldBlockRemainder(OldBlock(g, bucket), b);
      }
      DivMod(id % b, (b + cfg.otaBits - 1) / cfg.otaBits);
      MulAdd(Clustered(id, b, cfg.otaBits), 1, (b + cfg.otaBits - 1) / cfg.otaBits);
      hide OldBlock, TakesOldBlock, GroupsSuffice, Pow2;
  }

  // As many groups of the given size as there are bits hold the buckets of a block.
  ghost predicate GroupsSuffice(group: nat, cfg: Config) {
    cfg.bucketsPerBlock <= group * cfg.otaBits
  }

  lemma SmallestGroup(cfg: Config)
    requires SoundConfig(cfg)
    ensures (cfg.bucketsPerBlock + cfg.otaBits - 1) / cfg.otaBits > 0
    ensures GroupsSuffice((cfg.bucketsPerBlock + cfg.otaBits - 1) / cfg.otaBits, cfg)
    ensures !GroupsSuffice((cfg.bucketsPerBlock + cfg.otaBits - 1) / cfg.otaBits - 1, cfg)
  {
    var b, n := cfg.bucketsPerBlock, cfg.otaBits;
    CeilingCovers(b, n);
    DivMod(b + n - 1, n);
    MulSub((b + n - 1) / n, 1, n);
  }

  lemma OldBlockRemainder(block: nat, b: nat)
    requires b > 0
    ensures (block * b + block % b) % b == block % b
  {
    DivMod(block, b);
    AddMulDiv(block % b, block, b);
    SmallDivMod(block % b, b);
  }

  lemma ClusteredInRange(id: nat, b: nat, bits: nat)
    requires b > 0 && bits > 0
    ensures Clustered(id, b, bits) < bits
  {
    CeilingCovers(b, bits);
    DivUpper(id % b, (b + bits - 1) / bits, bits);
  }

  // The clustered divisor spreads all buckets of a block over the array.
  lemma CeilingCovers(b: nat, n: nat)
    requires 0 < b && 0 < n
    ensures (b + n - 1) / n > 0
    ensures b <= n * ((b + n - 1) / n)
  {
    DivMod(b + n - 1, n);
    DivLower(b + n - 1, n, 1);
  }

  // ----- the laws of the alternate bucket -----

  lemma AlternateForm(g: Geometry, bucket: nat, f: nat)
    requires Aligned(g) && bucket < g.totalBuckets
    ensures ToOriginal(g, bucket) < OriginalTotal(g)
    ensures Alternate(g, bucket, f) == ToCurrent(g, AlternateStep(g, ToOriginal(g, bucket), f), f)
  {
    ToOriginalInRange(g, bucket);
    if !g.cfg.resizingEnabled {
      UnresizedIsOriginal(g, bucket, f);
      UnresizedIsOriginal(g, AlternateStep(g, bucket, f), f);
    }
    hide ToOriginal, ToCurrent, AlternateStep, OriginalTotal, Pow2;
  }

  // The alternate bucket is in the table, suits the fingerprint, and leads
  // back; resizing does not disturb this.
  lemma AlternateInvolution(g: Geometry, bucket: nat, f: nat)
    requires Aligned(g) && Legal(g, bucket, f)
    ensures Legal(g, Alternate(g, bucket, f), f)
    ensures Alternate(g, Alternate(g, bucket, f), f) == bucket
  {
    var o := ToOriginal(g, bucket);
    AlternateForm(g, bucket, f);
    var o2 := AlternateStep(g, o, f);
    var alt := Alternate(g, bucket, f);
    ToCurrentInRange(g, o2, f);
    AlternateForm(g, alt, f);
    OffsetRange(g.cfg, f);
    StepInvolution(o, Offset(g.cfg, f), OriginalTotal(g));
    ToCurrentInverse(g, bucket, f);
    hide ToOriginal, ToCurrent, OriginalTotal, Pow2, Offset, Alternate, Step, Child;
  }

  // In the numbering before resizing it is the bucket moved up or down by the
  // offset of the fingerprint, modulo the original size.
  lemma AlternateIs(g: Geometry, bucket: nat, f: nat)
    requires Aligned(g) && Legal(g, bucket, f)
    ensures ToOriginal(g, bucket) < OriginalTotal(g) && ToOriginal(g, Alternate(g, bucket, f)) < OriginalTotal(g)
    ensures ToOriginal(g, Alternate(g, bucket, f))
            == (if ToOriginal(g, bucket) % 2 == 1 then ToOriginal(g, bucket) + Offset(g.cfg, f)
                else ToOriginal(g, bucket) - Offset(g.cfg, f)) % OriginalTotal(g)
  {
    var o := ToOriginal(g, bucket);
    AlternateForm(g, bucket, f);
    ToCurrentInRange(g, AlternateStep(g, o, f), f);
    OffsetRange(g.cfg, f);
    StepIs(o, Offset(g.cfg, f), OriginalTotal(g));
    hide ToOriginal, ToCurrent, OriginalTotal, Pow2, Offset, Alternate, Step, Child;
  }

  // In a table of safe size the two candidate buckets are in different blocks.
  lemma AlternateOtherBlock(g: Geometry, bucket: nat, f: nat)
    requires Sound(g) && Legal(g, bucket, f)
    ensures Alternate(g, bucket, f) / g.cfg.bucketsPerBlock != bucket / g.cfg.bucketsPerBlock
  {
    var b := g.cfg.bucketsPerBlock;
    var o := ToOriginal(g, bucket);
    AlternateForm(g, bucket, f);
    var o2 := AlternateStep(g, o, f);
    OffsetRange(g.cfg, f);
    StepDistance(o, Offset(g.cfg, f), OriginalTotal(g), b);
    ToOriginalInRange(g, bucket);
    ToCurrentInRange(g, o2, f);
    if o2 >= o + b {
      FarMeansOtherBlock(o, o2, b);
    } else {
      FarMeansOtherBlock(o2, o, b);
    }
    hide ToOriginal, ToCurrent, OriginalTotal, Pow2, Offset, Alternate, Step, Child;
  }

  // The primary bucket of every hash suits its fingerprint.
  lemma MapToBucketLegal(g: Geometry, raw: nat)
    requires Aligned(g) && raw < Pow2(HASH_BITS)
    ensures Legal(g, MapToBucket(g, raw), Fingerprint(g.cfg, raw))
  {
    var shift := HASH_BITS - g.cfg.fingerprintBits;
    var low := raw % Pow2(shift);
    FingerprintFits(g.cfg, raw);
    FastModInRange(low, OriginalTotal(g), shift);
    var o := FastMod(low, OriginalTotal(g), shift);
    var f := Fingerprint(g.cfg, raw);
    ToCurrentInRange(g, o, f);
    if !g.cfg.resizingEnabled {
      UnresizedIsOriginal(g, o, f);
    }
    hide ToOriginal, ToCurrent, Pow2, FastMod, OriginalTotal, Fingerprint, Legal;
  }

  // Its place before resizing is the share of the original buckets that the low
  // bits of the hash take of all numbers of their width.
  lemma MapToBucketIs(g: Geometry, raw: nat)
    requires Aligned(g) && raw < Pow2(HASH_BITS)
    ensures var low := Pow2(HASH_BITS - g.cfg.fingerprintBits);
            var o := ToOriginal(g, MapToBucket(g, raw));
            o * low <= raw % low * OriginalTotal(g) < (o + 1) * low
  {
    var shift := HASH_BITS - g.cfg.fingerprintBits;
    var low := raw % Pow2(shift);
    FingerprintFits(g.cfg, raw);
    FastModInRange(low, OriginalTotal(g), shift);
    FastModIsFloor(low, OriginalTotal(g), shift);
    var o := FastMod(low, OriginalTotal(g), shift);
    ToCurrentInRange(g, o, Fingerprint(g.cfg, raw));
    if !g.cfg.resizingEnabled {
      UnresizedIsOriginal(g, o, Fingerprint(g.cfg, raw));
    }
    hide ToOriginal, ToCurrent, Pow2, FastMod, OriginalTotal, Fingerprint, Legal;
  }
}
