/** Growing a Morton filter by a power of two: every block is split into children
    by the next bits of its fingerprints. Buckets keep their order, fingerprints
    end up where lookups will look for them, and live keys stay live. */
module MortonResize {
  import opened Arith
  import opened MortonGeometry
  import opened MortonTable
  import opened MortonInvariant

  // ----- choosing the child -----

  function Grown(g: Geometry, k: nat): Geometry {
    Geometry(g.cfg, g.totalBuckets * Pow2(k), g.resizeCount + k)
  }

  // The filter can be split into this many more levels.
  ghost predicate CanGrow(g: Geometry, k: nat) {
    g.cfg.resizingEnabled && g.resizeCount + k <= g.cfg.fingerprintBits
  }

  // The next k fingerprint bits choose the child of a block.
  function ChildIndex(g: Geometry, k: nat, f: nat): (r: nat)
    requires g.resizeCount + k <= g.cfg.fingerprintBits
    ensures r < Pow2(k)
  {
    DivNonNeg(f, Pow2(g.cfg.fingerprintBits - g.resizeCount - k));
    (f / Pow2(g.cfg.fingerprintBits - g.resizeCount - k)) % Pow2(k)
  }

  // ----- splitting one block -----

  // The fingerprints that belong to child c, in order.
  function Inherited(g: Geometry, k: nat, c: nat, q: seq<nat>): (r: seq<nat>)
    requires g.resizeCount + k <= g.cfg.fingerprintBits
  {
    if q == [] then []
    else
      var n := |q| - 1;
      Inherited(g, k, c, q[..n]) + if ChildIndex(g, k, q[n]) == c then [q[n]] else []
  }

  lemma {:induction false} InheritedAppend(g: Geometry, k: nat, c: nat, a: seq<nat>, b: seq<nat>)
    requires g.resizeCount + k <= g.cfg.fingerprintBits
    ensures Inherited(g, k, c, a + b) == Inherited(g, k, c, a) + Inherited(g, k, c, b)
  {
    hide ChildIndex;
    if b == [] {
      assert a + b == a;
    } else {
      var n := |b| - 1;
      InheritedAppend(g, k, c, a, b[..n]);
      assert (a + b)[..|a + b| - 1] == a + b[..n];
    }
  }

  // The child keeps every copy of its own fingerprints and nothing else.
  lemma {:induction false} InheritedCount(g: Geometry, k: nat, c: nat, q: seq<nat>, f: nat)
    requires g.resizeCount + k <= g.cfg.fingerprintBits
    ensures multiset(Inherited(g, k, c, q))[f] == if ChildIndex(g, k, f) == c then multiset(q)[f] else 0
  {
    hide ChildIndex;
    if q != [] {
      var n := |q| - 1;
      InheritedCount(g, k, c, q[..n], f);
      OneMoreElement(q);
      if ChildIndex(g, k, q[n]) == c {
        assert multiset(Inherited(g, k, c, q)) == multiset(Inherited(g, k, c, q[..n])) + multiset{q[n]};
      } else {
        assert Inherited(g, k, c, q) == Inherited(g, k, c, q[..n]);
      }
    }
  }

  lemma OneMoreElement(q: seq<nat>)
    requires q != []
    ensures multiset(q) == multiset(q[..|q| - 1]) + multiset{q[|q| - 1]}
  {
    assert q == q[..|q| - 1] + [q[|q| - 1]];
  }

  lemma {:induction false} InheritedShorter(g: Geometry, k: nat, c: nat, q: seq<nat>)
    requires g.resizeCount + k <= g.cfg.fingerprintBits
    ensures |Inherited(g, k, c, q)| <= |q|
  {
    hide ChildIndex;
    if q != [] {
      InheritedShorter(g, k, c, q[..|q| - 1]);
    }
  }

  function Min(a: nat, b: nat): nat {
    if a <= b then a else b
  }

  // The part of bucket i among the first n fingerprints.
  function BucketPart(b: Block, i: nat, n: nat): seq<nat>
    requires i < |b.counters| && Start(b.counters, |b.counters|) == |b.fps| && n <= |b.fps|
  {
    BucketInside(b, i);
    b.fps[Min(Start(b.counters, i), n)..Min(Start(b.counters, i + 1), n)]
  }

  // Child c after the first n fingerprints of the block have been handed out.
  function ChildAfter(g: Geometry, k: nat, c: nat, b: Block, n: nat): (r: Block)
    requires g.resizeCount + k <= g.cfg.fingerprintBits
    requires Start(b.counters, |b.counters|) == |b.fps| && n <= |b.fps|
    ensures |r.counters| == |b.counters|
  {
    Block(seq(|b.counters|, i requires 0 <= i < |b.counters| => |Inherited(g, k, c, BucketPart(b, i, n))|),
          b.ota,
          Inherited(g, k, c, b.fps[..n]))
  }

  // The whole child.
  function ChildBlock(g: Geometry, k: nat, c: nat, b: Block): Block
    requires g.resizeCount + k <= g.cfg.fingerprintBits
    requires Start(b.counters, |b.counters|) == |b.fps|
  {
    ChildAfter(g, k, c, b, |b.fps|)
  }

  // Writes a fingerprint behind the used ones and counts it for a bucket.
  function Append(b: Block, i: nat, f: nat): Block
    requires i < |b.counters|
  {
    SetCounter(WriteLeftDisplace(b, |b.fps|, f), i, b.counters[i] + 1)
  }

  // A block of freshly cleared storage.
  function EmptyBlock(cfg: Config): Block {
    Block(seq(cfg.bucketsPerBlock, i => 0), seq(cfg.otaBits, i => false), [])
  }

  lemma {:induction false} NothingHandedOut(g: Geometry, k: nat, c: nat, b: Block)
    requires g.resizeCount + k <= g.cfg.fingerprintBits
    requires Start(b.counters, |b.counters|) == |b.fps|
    ensures ChildAfter(g, k, c, b, 0) == Block(seq(|b.counters|, i => 0), b.ota, [])
  {
    hide Start, ChildIndex;
  }

  lemma {:induction false} PartGrows(b: Block, i: nat, n: nat, j: nat)
    requires i < |b.counters| && j < |b.counters| && Start(b.counters, |b.counters|) == |b.fps|
    requires n < |b.fps| && Start(b.counters, i) <= n < Start(b.counters, i + 1)
    ensures BucketPart(b, j, n + 1) == if j == i then BucketPart(b, j, n) + [b.fps[n]] else BucketPart(b, j, n)
  {
    BucketInside(b, i);
    BucketInside(b, j);
    BucketsApart(b, i, j);
    hide Start;
  }

  // Handing out the next fingerprint appends it to one child.
  lemma {:induction false} HandOut(g: Geometry, k: nat, c: nat, b: Block, i: nat, n: nat)
    requires g.resizeCount + k <= g.cfg.fingerprintBits
    requires i < |b.counters| && Start(b.counters, |b.counters|) == |b.fps|
    requires n < |b.fps| && Start(b.counters, i) <= n < Start(b.counters, i + 1)
    ensures ChildAfter(g, k, c, b, n + 1)
            == if ChildIndex(g, k, b.fps[n]) == c then Append(ChildAfter(g, k, c, b, n), i, b.fps[n])
               else ChildAfter(g, k, c, b, n)
  {
    hide ChildIndex;
    var x, y := ChildAfter(g, k, c, b, n), ChildAfter(g, k, c, b, n + 1);
    var hit := ChildIndex(g, k, b.fps[n]) == c;
    assert b.fps[..n + 1][..n] == b.fps[..n];
    forall j | 0 <= j < |b.counters|
      ensures y.counters[j] == x.counters[j] + if j == i && hit then 1 else 0
    {
      PartGrows(b, i, n, j);
      InheritedLast(g, k, c, BucketPart(b, j, n), b.fps[n]);
      hide BucketPart, Inherited, ChildIndex, Start;
    }
    hide Start, ChildIndex, BucketPart;
  }

  lemma {:induction false} InheritedLast(g: Geometry, k: nat, c: nat, q: seq<nat>, f: nat)
    requires g.resizeCount + k <= g.cfg.fingerprintBits
    ensures Inherited(g, k, c, q + [f]) == Inherited(g, k, c, q) + if ChildIndex(g, k, f) == c then [f] else []
  {
    assert (q + [f])[..|q|] == q;
    hide ChildIndex;
  }

  // ----- the buckets of a child -----

  lemma {:induction false} InheritedSplit(g: Geometry, k: nat, c: nat, q: seq<nat>, s: nat, e: nat)
    requires g.resizeCount + k <= g.cfg.fingerprintBits && s <= e <= |q|
    ensures Inherited(g, k, c, q[..e]) == Inherited(g, k, c, q[..s]) + Inherited(g, k, c, q[s..e])
  {
    assert q[..e] == q[..s] + q[s..e];
    InheritedAppend(g, k, c, q[..s], q[s..e]);
    hide Inherited, ChildIndex;
  }

  lemma {:induction false} ChildCounter(g: Geometry, k: nat, c: nat, b: Block, i: nat)
    requires g.resizeCount + k <= g.cfg.fingerprintBits
    requires Start(b.counters, |b.counters|) == |b.fps| && i < |b.counters|
    ensures Start(b.counters, i) <= Start(b.counters, i + 1) <= |b.fps|
    ensures |ChildBlock(g, k, c, b).counters| == |b.counters|
    ensures ChildBlock(g, k, c, b).counters[i]
            == |Inherited(g, k, c, b.fps[Start(b.counters, i)..Start(b.counters, i + 1)])|
  {
    BucketInside(b, i);
    assert BucketPart(b, i, |b.fps|) == b.fps[Start(b.counters, i)..Start(b.counters, i + 1)];
    hide Inherited, ChildIndex, Start;
  }

  lemma {:induction false} ChildFields(g: Geometry, k: nat, c: nat, b: Block)
    requires g.resizeCount + k <= g.cfg.fingerprintBits
    requires Start(b.counters, |b.counters|) == |b.fps|
    ensures var d := ChildBlock(g, k, c, b);
            d.fps == Inherited(g, k, c, b.fps) && d.ota == b.ota && |d.counters| == |b.counters|
  {
    assert b.fps[..|b.fps|] == b.fps;
    hide Inherited, ChildIndex, Start, BucketPart;
  }

  // Where a bucket of the child starts.
  lemma {:induction false} ChildStart(g: Geometry, k: nat, c: nat, b: Block, i: nat)
    requires g.resizeCount + k <= g.cfg.fingerprintBits
    requires Start(b.counters, |b.counters|) == |b.fps| && i <= |b.counters|
    ensures |ChildBlock(g, k, c, b).counters| == |b.counters| && Start(b.counters, i) <= |b.fps|
    ensures Start(ChildBlock(g, k, c, b).counters, i) == |Inherited(g, k, c, b.fps[..Start(b.counters, i)])|
  {
    hide *;
    StartMono(b.counters, i, |b.counters|);
    StartStep(b.counters, i);
    ChildFields(g, k, c, b);
    StartStep(ChildBlock(g, k, c, b).counters, i);
    if i > 0 {
      ChildStart(g, k, c, b, i - 1);
      ChildCounter(g, k, c, b, i - 1);
      InheritedSplit(g, k, c, b.fps, Start(b.counters, i - 1), Start(b.counters, i));
    } else {
      InheritedNone(g, k, c);
    }
  }

  lemma {:induction false} StartStep(counters: seq<nat>, i: nat)
    requires i <= |counters|
    ensures Start(counters, i) == if i == 0 then 0 else Start(counters, i - 1) + counters[i - 1]
  {
  }

  lemma {:induction false} InheritedNone(g: Geometry, k: nat, c: nat)
    requires g.resizeCount + k <= g.cfg.fingerprintBits
    ensures Inherited(g, k, c, []) == []
  {
  }

  // A bucket of the child holds exactly its fingerprints of the parent's
  // bucket, in order.
  lemma {:induction false} ChildBucket(g: Geometry, k: nat, c: nat, b: Block, i: nat)
    requires g.resizeCount + k <= g.cfg.fingerprintBits
    requires Start(b.counters, |b.counters|) == |b.fps| && i < |b.counters|
    ensures var d := ChildBlock(g, k, c, b);
            && Start(d.counters, |d.counters|) == |d.fps| && |d.counters| == |b.counters|
            && Bucket(d, i) == Inherited(g, k, c, Bucket(b, i))
  {
    hide *;
    var d := ChildBlock(g, k, c, b);
    var s, e := Start(b.counters, i), Start(b.counters, i + 1);
    ChildFields(g, k, c, b);
    ChildStart(g, k, c, b, |b.counters|);
    assert b.fps[..|b.fps|] == b.fps;
    ChildStart(g, k, c, b, i);
    ChildCounter(g, k, c, b, i);
    BucketIs(b, i);
    BucketInside(b, i);
    BucketIs(d, i);
    InheritedSplit(g, k, c, b.fps, s, e);
    InheritedSplit(g, k, c, b.fps, e, |b.fps|);
    Middle(Inherited(g, k, c, b.fps[..s]), Inherited(g, k, c, b.fps[s..e]), Inherited(g, k, c, b.fps[e..|b.fps|]));
  }

  lemma {:induction false} Middle(a: seq<nat>, m: seq<nat>, z: seq<nat>)
    ensures (a + m + z)[|a|..|a| + |m|] == m
  {
  }

  lemma {:induction false} ChildValid(g: Geometry, k: nat, c: nat, b: Block, slots: nat, capacity: nat)
    requires g.resizeCount + k <= g.cfg.fingerprintBits
    requires ValidBlock(b, slots, capacity)
    ensures ValidBlock(ChildBlock(g, k, c, b), slots, capacity)
  {
    var d := ChildBlock(g, k, c, b);
    forall i | 0 <= i < |d.counters|
      ensures d.counters[i] <= slots
    {
      InheritedShorter(g, k, c, BucketPart(b, i, |b.fps|));
      BucketInside(b, i);
      hide Start, Inherited, ChildIndex;
    }
    ChildStart(g, k, c, b, |b.counters|);
    InheritedShorter(g, k, c, b.fps);
    assert b.fps[..|b.fps|] == b.fps;
    hide Start, Inherited, ChildIndex;
  }

  // ----- addresses before and after -----

  lemma {:induction false} GrownSound(g: Geometry, k: nat)
    requires Aligned(g) && CanGrow(g, k)
    ensures Aligned(Grown(g, k)) && OriginalTotal(Grown(g, k)) == OriginalTotal(g)
    ensures Sound(g) ==> Sound(Grown(g, k))
  {
    var o := OriginalTotal(g);
    Pow2Add(g.resizeCount, k);
    MulAssoc(o, Pow2(g.resizeCount), Pow2(k));
    DivModUnique(o * Pow2(g.resizeCount + k), Pow2(g.resizeCount + k), o, 0);
    hide Pow2;
  }

  // The child number of the grown filter extends the current one.
  lemma {:induction false} ChildExtends(g: Geometry, k: nat, f: nat)
    requires g.resizeCount + k <= g.cfg.fingerprintBits && IsFingerprint(g.cfg, f)
    ensures Child(Grown(g, k), f) == Child(g, f) * Pow2(k) + ChildIndex(g, k, f)
  {
    hide Pow2;
    var bits := g.cfg.fingerprintBits;
    var low := bits - g.resizeCount - k;
    var y := f / Pow2(low);
    Pow2Split(bits, g.resizeCount + k);
    DivUpper(f, Pow2(low), Pow2(g.resizeCount + k));
    DivNonNeg(f, Pow2(low));
    SmallDivMod(y, Pow2(g.resizeCount + k));
    Pow2Add(low, k);
    DivDiv(f, Pow2(low), Pow2(k));
    Pow2Split(bits, g.resizeCount);
    DivUpper(f, Pow2(bits - g.resizeCount), Pow2(g.resizeCount));
    DivNonNeg(f, Pow2(bits - g.resizeCount));
    SmallDivMod(f / Pow2(bits - g.resizeCount), Pow2(g.resizeCount));
    DivMod(y, Pow2(k));
  }

  // The bucket of a fingerprint in the grown filter.
  function Moved(g: Geometry, k: nat, b: nat, f: nat): nat
    requires Aligned(g) && CanGrow(g, k)
  {
    ToCurrent(Grown(g, k), ToOriginal(g, b), f)
  }

  // And back.
  function Unmoved(g: Geometry, k: nat, b: nat, f: nat): nat
    requires Aligned(g) && CanGrow(g, k)
  {
    ToCurrent(g, ToOriginal(Grown(g, k), b), f)
  }

  lemma {:induction false} ExtendBlock(g: Geometry, k: nat, ob: nat, c: nat)
    ensures ob * Pow2(g.resizeCount + k) + c * Pow2(k) == (ob * Pow2(g.resizeCount) + c) * Pow2(k)
  {
    hide Pow2;
    Pow2Add(g.resizeCount, k);
    MulAssoc(ob, Pow2(g.resizeCount), Pow2(k));
    MulAdd(ob * Pow2(g.resizeCount), c, Pow2(k));
  }

  // Moving keeps the index in the block and goes to the child that splitting
  // chooses.
  lemma {:induction false} MovedBlock(g: Geometry, k: nat, b: nat, f: nat)
    requires Aligned(g) && CanGrow(g, k) && Legal(g, b, f)
    ensures Moved(g, k, b, f) / g.cfg.bucketsPerBlock
            == b / g.cfg.bucketsPerBlock * Pow2(k) + ChildIndex(g, k, f)
    ensures Moved(g, k, b, f) % g.cfg.bucketsPerBlock == b % g.cfg.bucketsPerBlock
  {
    hide Pow2, Child, ChildIndex, OriginalTotal;
    var n := g.cfg.bucketsPerBlock;
    var blk, lbi := b / n, b % n;
    var r := Pow2(g.resizeCount);
    DivNonNeg(b, n);
    DivNonNeg(blk, r);
    var ob := blk / r;
    DivModUnique(ob * n + lbi, n, ob, lbi);
    ChildExtends(g, k, f);
    OrDisjoint(ob, Child(Grown(g, k), f), g.resizeCount + k);
    DivMod(blk, r);
    ExtendBlock(g, k, ob, Child(g, f));
    DivModUnique(Moved(g, k, b, f), n, blk * Pow2(k) + ChildIndex(g, k, f), lbi);
  }

  lemma {:induction false} MovedLegal(g: Geometry, k: nat, b: nat, f: nat)
    requires Aligned(g) && CanGrow(g, k) && Legal(g, b, f)
    ensures Aligned(Grown(g, k)) && Legal(Grown(g, k), Moved(g, k, b, f), f)
    ensures Unmoved(g, k, Moved(g, k, b, f), f) == b
  {
    GrownSound(g, k);
    ToOriginalInRange(g, b);
    ToCurrentInRange(Grown(g, k), ToOriginal(g, b), f);
    ToCurrentInverse(g, b, f);
    hide ToCurrent, ToOriginal, OriginalTotal, Pow2, Child;
  }

  lemma {:induction false} UnmovedLegal(g: Geometry, k: nat, b: nat, f: nat)
    requires Aligned(g) && CanGrow(g, k) && Aligned(Grown(g, k)) && Legal(Grown(g, k), b, f)
    ensures Legal(g, Unmoved(g, k, b, f), f)
    ensures Moved(g, k, Unmoved(g, k, b, f), f) == b
  {
    GrownSound(g, k);
    ToOriginalInRange(Grown(g, k), b);
    ToCurrentInRange(g, ToOriginal(Grown(g, k), b), f);
    ToCurrentInverse(Grown(g, k), b, f);
    hide ToCurrent, ToOriginal, OriginalTotal, Pow2, Child;
  }

  // Growing commutes with taking the alternate bucket.
  lemma {:induction false} MovedAlternate(g: Geometry, k: nat, b: nat, f: nat)
    requires Aligned(g) && CanGrow(g, k) && Legal(g, b, f)
    ensures Aligned(Grown(g, k)) && Moved(g, k, b, f) < Grown(g, k).totalBuckets && b < g.totalBuckets
    ensures Alternate(Grown(g, k), Moved(g, k, b, f), f) == Moved(g, k, Alternate(g, b, f), f)
  {
    GrownSound(g, k);
    MovedLegal(g, k, b, f);
    ToOriginalInRange(g, b);
    ToCurrentInRange(Grown(g, k), ToOriginal(g, b), f);
    AlternateForm(g, b, f);
    AlternateForm(Grown(g, k), Moved(g, k, b, f), f);
    ToCurrentInRange(g, AlternateStep(g, ToOriginal(g, b), f), f);
    hide ToCurrent, ToOriginal, OriginalTotal, Pow2, Child, Alternate, Offset, Step, SoundConfig;
  }

  // A key hashes to the place its fingerprint has moved to.
  lemma {:induction false} MovedPrimary(g: Geometry, k: nat, raw: nat)
    requires Aligned(g) && CanGrow(g, k) && raw < Pow2(HASH_BITS)
    ensures Aligned(Grown(g, k))
    ensures MapToBucket(Grown(g, k), raw) == Moved(g, k, MapToBucket(g, raw), Fingerprint(g.cfg, raw))
  {
    GrownSound(g, k);
    var shift := HASH_BITS - g.cfg.fingerprintBits;
    FingerprintFits(g.cfg, raw);
    FastModInRange(raw % Pow2(shift), OriginalTotal(g), shift);
    ToCurrentInRange(g, FastMod(raw % Pow2(shift), OriginalTotal(g), shift), Fingerprint(g.cfg, raw));
    hide ToCurrent, ToOriginal, OriginalTotal, Pow2, FastMod, Fingerprint, Child;
  }

  // ----- the split table -----

  ghost predicate Splittable(g: Geometry, k: nat, t: seq<Block>) {
    && CanGrow(g, k)
    && forall i | 0 <= i < |t| :: Start(t[i].counters, |t[i].counters|) == |t[i].fps|
  }

  function Parent(i: nat, k: nat): nat {
    DivNonNeg(i, Pow2(k));
    i / Pow2(k)
  }

  ghost function Split(g: Geometry, k: nat, t: seq<Block>): (u: seq<Block>)
    requires Splittable(g, k, t)
  {
    MulNonNeg(|t|, Pow2(k));
    seq(|t| * Pow2(k), i requires 0 <= i < |t| * Pow2(k) => SplitAt(g, k, t, i))
  }

  ghost function SplitAt(g: Geometry, k: nat, t: seq<Block>, i: nat): Block
    requires Splittable(g, k, t) && i < |t| * Pow2(k)
  {
    DivUpper(i, Pow2(k), |t|);
    ChildBlock(g, k, i % Pow2(k), t[Parent(i, k)])
  }

  lemma {:induction false} SplitIs(g: Geometry, k: nat, t: seq<Block>, i: nat)
    requires Splittable(g, k, t) && i < |t| * Pow2(k)
    ensures |Split(g, k, t)| == |t| * Pow2(k)
    ensures Parent(i, k) < |t| && Start(t[Parent(i, k)].counters, |t[Parent(i, k)].counters|) == |t[Parent(i, k)].fps|
    ensures Split(g, k, t)[i] == ChildBlock(g, k, i % Pow2(k), t[Parent(i, k)])
  {
    MulNonNeg(|t|, Pow2(k));
    DivUpper(i, Pow2(k), |t|);
    hide Start, ChildBlock;
  }

  lemma {:induction false} SplitLength(g: Geometry, k: nat, t: seq<Block>)
    requires Splittable(g, k, t)
    ensures |Split(g, k, t)| == |t| * Pow2(k)
  {
    MulNonNeg(|t|, Pow2(k));
    hide Start, SplitAt;
  }

  lemma {:induction false} SplitValid(g: Geometry, k: nat, t: seq<Block>, s: Shape)
    requires CanGrow(g, k) && ValidTable(t, s)
    ensures Splittable(g, k, t) && ValidTable(Split(g, k, t), s)
  {
    hide ChildIndex, Pow2, Start, ValidBlock, ChildBlock, Split;
    assert Splittable(g, k, t) by {
      forall i | 0 <= i < |t|
        ensures Start(t[i].counters, |t[i].counters|) == |t[i].fps|
      {
        ValidStart(t[i], s.slots, s.capacity);
      }
    }
    SplitLength(g, k, t);
    forall i | 0 <= i < |Split(g, k, t)|
      ensures ValidBlock(Split(g, k, t)[i], s.slots, s.capacity)
              && |Split(g, k, t)[i].counters| == s.bucketsPerBlock && |Split(g, k, t)[i].ota| == s.otaBits
    {
      SplitIs(g, k, t, i);
      ChildValid(g, k, i % Pow2(k), t[Parent(i, k)], s.slots, s.capacity);
      ChildFields(g, k, i % Pow2(k), t[Parent(i, k)]);
    }
  }

  lemma {:induction false} ValidStart(b: Block, slots: nat, capacity: nat)
    requires ValidBlock(b, slots, capacity)
    ensures Start(b.counters, |b.counters|) == |b.fps|
  {
    hide Start;
  }

  // The bucket of the parent block with the same index.
  function ParentBucket(b: nat, k: nat, s: Shape): nat
    requires s.bucketsPerBlock > 0
  {
    Parent(BlockOf(b, s), k) * s.bucketsPerBlock + IndexOf(b, s)
  }

  // Every bucket of a child holds its own share of the parent's bucket.
  lemma {:induction false} SplitCopies(g: Geometry, k: nat, t: seq<Block>, s: Shape, b: nat, f: nat)
    requires CanGrow(g, k) && ValidTable(t, s) && Splittable(g, k, t)
    requires ValidTable(Split(g, k, t), s) && InTable(Split(g, k, t), s, b)
    ensures InTable(t, s, ParentBucket(b, k, s))
    ensures BlockOf(ParentBucket(b, k, s), s) == Parent(BlockOf(b, s), k)
    ensures IndexOf(ParentBucket(b, k, s), s) == IndexOf(b, s)
    ensures Copies(Split(g, k, t), s, b, f)
            == if ChildIndex(g, k, f) == BlockOf(b, s) % Pow2(k) then Copies(t, s, ParentBucket(b, k, s), f) else 0
  {
    hide ChildIndex, Pow2, Start, ValidBlock, ChildBlock, Split, Bucket, Inherited;
    SplitLength(g, k, t);
    var i := BlockOf(b, s);
    SplitIs(g, k, t, i);
    var p := Parent(i, k);
    DivModUnique(ParentBucket(b, k, s), s.bucketsPerBlock, p, IndexOf(b, s));
    ChildBucket(g, k, i % Pow2(k), t[p], IndexOf(b, s));
    InheritedCount(g, k, i % Pow2(k), Bucket(t[p], IndexOf(b, s)), f);
  }

  lemma {:induction false} MovedParent(g: Geometry, k: nat, b: nat, f: nat, s: Shape)
    requires Aligned(g) && CanGrow(g, k) && Legal(g, b, f) && s.bucketsPerBlock == g.cfg.bucketsPerBlock
    ensures s.bucketsPerBlock > 0 && ParentBucket(Moved(g, k, b, f), k, s) == b
    ensures Parent(BlockOf(Moved(g, k, b, f), s), k) == BlockOf(b, s)
    ensures BlockOf(Moved(g, k, b, f), s) % Pow2(k) == ChildIndex(g, k, f)
  {
    MovedBlock(g, k, b, f);
    DivModUnique(BlockOf(Moved(g, k, b, f), s), Pow2(k), BlockOf(b, s), ChildIndex(g, k, f));
    DivMod(b, s.bucketsPerBlock);
    hide Pow2, Moved, ChildIndex, Aligned, Legal;
  }

  // A child bucket that holds a fingerprint is where that fingerprint moved to.
  lemma {:induction false} HeldIsMoved(g: Geometry, k: nat, t: seq<Block>, b: nat, f: nat)
    requires WellFormed(g, t) && Aligned(g) && CanGrow(g, k) && Splittable(g, k, t)
    requires ValidTable(t, ShapeOf(g)) && ValidTable(Split(g, k, t), ShapeOf(g)) && InTable(Split(g, k, t), ShapeOf(g), b)
    requires Copies(Split(g, k, t), ShapeOf(g), b, f) > 0
    ensures Aligned(Grown(g, k)) && Legal(Grown(g, k), b, f)
  {
    var s := ShapeOf(g);
    SplitCopies(g, k, t, s, b, f);
    var p := ParentBucket(b, k, s);
    assert Legal(g, p, f);
    MovedBlock(g, k, p, f);
    DivMod(BlockOf(b, s), Pow2(k));
    DivMod(b, s.bucketsPerBlock);
    DivMod(Moved(g, k, p, f), s.bucketsPerBlock);
    assert Moved(g, k, p, f) == b;
    MovedLegal(g, k, p, f);
    hide Pow2, Moved, ChildIndex, Aligned, Legal, Copies, ValidTable, Splittable, Split, ParentBucket, Sound;
  }

  lemma {:induction false} SplitWellFormed(g: Geometry, k: nat, t: seq<Block>)
    requires WellFormed(g, t) && Aligned(g) && CanGrow(g, k)
    ensures Splittable(g, k, t) && WellFormed(Grown(g, k), Split(g, k, t))
  {
    var s, u := ShapeOf(g), Split(g, k, t);
    SplitValid(g, k, t, s);
    GrownSound(g, k);
    SplitLength(g, k, t);
    MulAssoc(|t|, Pow2(k), g.cfg.bucketsPerBlock);
    MulAssoc(|t|, g.cfg.bucketsPerBlock, Pow2(k));
    assert Pow2(k) * g.cfg.bucketsPerBlock == g.cfg.bucketsPerBlock * Pow2(k);
    forall b: nat, f: nat | InTable(u, s, b) && Copies(u, s, b, f) > 0
      ensures Legal(Grown(g, k), b, f)
    {
      HeldIsMoved(g, k, t, b, f);
    }
    hide Pow2, Moved, ChildIndex, Aligned, Legal, Copies, ValidTable, Splittable, Split, Sound;
  }

  // Searching the bucket a fingerprint moved to finds what was found before.
  lemma {:induction false} MovedCopies(g: Geometry, k: nat, t: seq<Block>, b: nat, f: nat)
    requires WellFormed(g, t) && Aligned(g) && CanGrow(g, k) && Splittable(g, k, t) && Legal(g, b, f)
    requires WellFormed(Grown(g, k), Split(g, k, t))
    ensures ValidTable(t, ShapeOf(g)) && InTable(t, ShapeOf(g), b)
    ensures var u, b2 := Split(g, k, t), Moved(g, k, b, f);
            && ValidTable(u, ShapeOf(g)) && InTable(u, ShapeOf(g), b2)
            && Copies(u, ShapeOf(g), b2, f) == Copies(t, ShapeOf(g), b, f)
  {
    var u, b2 := Split(g, k, t), Moved(g, k, b, f);
    GrownSound(g, k);
    MovedLegal(g, k, b, f);
    InTableIsLegal(g, t, b);
    InTableIsLegal(Grown(g, k), u, b2);
    MovedParent(g, k, b, f, ShapeOf(g));
    SplitCopies(g, k, t, ShapeOf(g), b2, f);
    hide Pow2, Moved, ChildIndex, Aligned, Copies, ValidTable, Splittable, Split, Sound, ParentBucket;
  }

  // ----- overflow bits -----

  // The overflow index of a bucket does not depend on how often the filter has grown.
  predicate OtaSurvives(cfg: Config)
    requires cfg.bucketsPerBlock > 0 && cfg.otaBits > 0
  {
    || cfg.otaMethod != RawBucketHash
    || !IsPowerOfTwo(cfg.bucketsPerBlock)
    || cfg.bucketsPerBlock % cfg.otaBits == 0
  }

  lemma {:induction false} ModOfMultiple(x: nat, b: nat, d: nat)
    requires b > 0 && d > 0 && b % d == 0
    ensures x % d == (x % b) % d
  {
    DivMod(b, d);
    DivMod(x, b);
    MulAssoc(x / b, b / d, d);
    AddMulDiv(x % b, (x / b) * (b / d), d);
  }

  lemma {:induction false} MovedOldBlock(g: Geometry, k: nat, b: nat, f: nat)
    requires Aligned(g) && CanGrow(g, k) && Legal(g, b, f)
    ensures OldBlock(Grown(g, k), Moved(g, k, b, f)) == OldBlock(g, b)
  {
    GrownSound(g, k);
    ToOriginalInRange(g, b);
    ToCurrentInRange(Grown(g, k), ToOriginal(g, b), f);
    hide Pow2, OriginalTotal, ToCurrent, ToOriginal, Child, Sound, MaxOffset;
  }

  lemma {:induction false} OtaIndexMoved(g: Geometry, k: nat, b: nat, f: nat)
    requires Aligned(g) && CanGrow(g, k) && Legal(g, b, f) && OtaSurvives(g.cfg)
    ensures OtaIndex(Grown(g, k), Moved(g, k, b, f), f) == OtaIndex(g, b, f)
  {
    MovedOldBlock(g, k, b, f);
    MovedBlock(g, k, b, f);
    var n := g.cfg.bucketsPerBlock;
    if n % g.cfg.otaBits == 0 {
      ModOfMultiple(b, n, g.cfg.otaBits);
      ModOfMultiple(Moved(g, k, b, f), n, g.cfg.otaBits);
    }
    hide Pow2, Moved, FastMod, OldBlock, IsPowerOfTwo, ChildIndex, OriginalTotal, Legal;
  }

  // The fingerprint whose bits send it to child 1 of block 0.
  lemma {:induction false} FirstMover(g: Geometry, k: nat)
    requires Aligned(g) && CanGrow(g, k) && k > 0
    ensures var f := Pow2(g.cfg.fingerprintBits - g.resizeCount - k);
            Legal(g, 0, f) && Moved(g, k, 0, f) == g.cfg.bucketsPerBlock
  {
    var low, n := g.cfg.fingerprintBits - g.resizeCount - k, g.cfg.bucketsPerBlock;
    var f := Pow2(low);
    Pow2StrictMono(low, low + k);
    Pow2Mono(low + k, g.cfg.fingerprintBits);
    SmallDivMod(f, Pow2(low + k));
    SmallDivMod(0, Pow2(g.resizeCount));
    SmallDivMod(0, n);
    DivModUnique(f, f, 1, 0);
    Pow2StrictMono(0, k);
    SmallDivMod(1, Pow2(k));
    MulPos(OriginalTotal(g), Pow2(g.resizeCount));
    assert Legal(g, 0, f) by { hide Pow2, OriginalTotal; }
    MovedBlock(g, k, 0, f);
    DivMod(Moved(g, k, 0, f), n);
    hide Pow2, Moved, OriginalTotal;
  }

  // Exactly when overflow indices survive growing: not with raw bucket hashing
  // over blocks of a power-of-two number of buckets that the overflow array
  // does not divide.
  lemma {:induction false} OtaSurvivesExactly(g: Geometry, k: nat)
    requires Aligned(g) && CanGrow(g, k) && k > 0
    ensures OtaSurvives(g.cfg) <==>
            forall b: nat, f: nat | Legal(g, b, f) ::
              OtaIndex(Grown(g, k), Moved(g, k, b, f), f) == OtaIndex(g, b, f)
  {
    hide Pow2, Moved, OriginalTotal, OldBlock, FastMod, IsPowerOfTwo, MaxOffset;
    if OtaSurvives(g.cfg) {
      forall b: nat, f: nat | Legal(g, b, f)
        ensures OtaIndex(Grown(g, k), Moved(g, k, b, f), f) == OtaIndex(g, b, f)
      {
        hide OtaIndex, Legal;
        OtaIndexMoved(g, k, b, f);
      }
    } else {
      var f := IndexMoves(g, k);
    }
  }

  lemma {:induction false} IndexMoves(g: Geometry, k: nat) returns (f: nat)
    requires Aligned(g) && CanGrow(g, k) && k > 0 && !OtaSurvives(g.cfg)
    ensures SoundConfig(g.cfg) && Legal(g, 0, f) && OtaIndex(Grown(g, k), Moved(g, k, 0, f), f) != OtaIndex(g, 0, f)
  {
    hide Pow2, Moved, OriginalTotal, OldBlock, FastMod, IsPowerOfTwo, MaxOffset, Legal;
    FirstMover(g, k);
    SmallDivMod(0, g.cfg.otaBits);
    f := Pow2(g.cfg.fingerprintBits - g.resizeCount - k);
  }

  // The children of a block carry its overflow bits.
  lemma {:induction false} MovedBits(g: Geometry, k: nat, t: seq<Block>, b: nat, f: nat)
    requires WellFormed(g, t) && Aligned(g) && CanGrow(g, k) && Splittable(g, k, t) && Legal(g, b, f)
    requires WellFormed(Grown(g, k), Split(g, k, t))
    ensures ValidTable(t, ShapeOf(g)) && InTable(t, ShapeOf(g), b)
    ensures var u, b2 := Split(g, k, t), Moved(g, k, b, f);
            && ValidTable(u, ShapeOf(g)) && InTable(u, ShapeOf(g), b2)
            && u[BlockOf(b2, ShapeOf(g))].ota == t[BlockOf(b, ShapeOf(g))].ota
  {
    var b2 := Moved(g, k, b, f);
    MovedCopies(g, k, t, b, f);
    MovedParent(g, k, b, f, ShapeOf(g));
    var i := BlockOf(b2, ShapeOf(g));
    SplitLength(g, k, t);
    SplitIs(g, k, t, i);
    ChildFields(g, k, i % Pow2(k), t[Parent(i, k)]);
    hide Pow2, Moved, ChildIndex, ChildBlock, Aligned, Copies, Splittable, Split, OtaIndex, Inherited, Start;
  }

  lemma {:induction false} OverflowMoved(g: Geometry, k: nat, t: seq<Block>, b: nat, f: nat)
    requires WellFormed(g, t) && Aligned(g) && CanGrow(g, k) && Splittable(g, k, t) && Legal(g, b, f)
    requires WellFormed(Grown(g, k), Split(g, k, t)) && OtaSurvives(g.cfg)
    ensures Sound(g) && Sound(Grown(g, k)) && IsFingerprint(g.cfg, f)
    ensures ValidTable(t, ShapeOf(g)) && InTable(t, ShapeOf(g), b)
    ensures var u, b2 := Split(g, k, t), Moved(g, k, b, f);
            && ValidTable(u, ShapeOf(g)) && InTable(u, ShapeOf(g), b2)
            && OverflowSet(Grown(g, k), u, b2, f) == OverflowSet(g, t, b, f)
  {
    var u, b2 := Split(g, k, t), Moved(g, k, b, f);
    MovedBits(g, k, t, b, f);
    OtaIndexMoved(g, k, b, f);
    OtaIndexInRange(g, b, f);
    OtaIndexInRange(Grown(g, k), b2, f);
    hide Pow2, Moved, Aligned, Copies, Splittable, Split, OtaIndex, Start, Legal;
  }

  // ----- live keys -----

  // Every live key at the place it has moved to.
  ghost function MovedKeys(g: Geometry, k: nat, live: multiset<Entry>): multiset<Entry>
    requires Aligned(g) && CanGrow(g, k)
    decreases |live|
  {
    if live == multiset{} then multiset{}
    else
      var e :| e in live;
      MovedKeys(g, k, live - multiset{e}) + multiset{(Moved(g, k, e.0, e.1), e.1)}
  }

  ghost predicate AllLegal(g: Geometry, live: multiset<Entry>)
    requires Aligned(g)
  {
    forall e | e in live :: Legal(g, e.0, e.1)
  }

  lemma {:induction false} MovedKeysStep(g: Geometry, k: nat, live: multiset<Entry>) returns (e: Entry)
    requires Aligned(g) && CanGrow(g, k) && live != multiset{}
    ensures e in live && |live - multiset{e}| < |live|
    ensures MovedKeys(g, k, live) == MovedKeys(g, k, live - multiset{e}) + multiset{(Moved(g, k, e.0, e.1), e.1)}
  {
    e :| e in live && MovedKeys(g, k, live)
                      == MovedKeys(g, k, live - multiset{e}) + multiset{(Moved(g, k, e.0, e.1), e.1)};
  }

  lemma {:induction false} MovedKeysNone(g: Geometry, k: nat)
    requires Aligned(g) && CanGrow(g, k)
    ensures MovedKeys(g, k, multiset{}) == multiset{}
  {
  }

  lemma {:induction false} AllLegalLess(g: Geometry, live: multiset<Entry>, e: Entry)
    requires Aligned(g) && AllLegal(g, live) && e in live
    ensures Legal(g, e.0, e.1) && AllLegal(g, live - multiset{e})
  {
    hide Legal;
  }

  lemma {:induction false} AllLegalMore(g: Geometry, live: multiset<Entry>, e: Entry)
    requires Aligned(g) && AllLegal(g, live) && Legal(g, e.0, e.1)
    ensures AllLegal(g, live + multiset{e})
  {
    hide Legal;
  }

  lemma {:induction false} MovedKeysCount(g: Geometry, k: nat, live: multiset<Entry>, b: nat, f: nat)
    requires Aligned(g) && CanGrow(g, k) && AllLegal(g, live) && Legal(g, b, f)
    ensures MovedKeys(g, k, live)[(Moved(g, k, b, f), f)] == live[(b, f)]
    decreases |live|
  {
    hide *;
    if live == multiset{} {
      MovedKeysNone(g, k);
    } else {
      var e := MovedKeysStep(g, k, live);
      AllLegalLess(g, live, e);
      MovedKeysCount(g, k, live - multiset{e}, b, f);
      MovedLegal(g, k, b, f);
      MovedLegal(g, k, e.0, e.1);
      OneMore(live, e, (b, f));
      OneMore(MovedKeys(g, k, live - multiset{e}), (Moved(g, k, e.0, e.1), e.1), (Moved(g, k, b, f), f));
    }
  }

  lemma {:induction false} MovedKeysLegal(g: Geometry, k: nat, live: multiset<Entry>)
    requires Aligned(g) && CanGrow(g, k) && AllLegal(g, live)
    ensures Aligned(Grown(g, k)) && AllLegal(Grown(g, k), MovedKeys(g, k, live))
    decreases |live|
  {
    hide *;
    GrownSound(g, k);
    if live == multiset{} {
      MovedKeysNone(g, k);
      AllLegalNone(Grown(g, k));
    } else {
      var e := MovedKeysStep(g, k, live);
      AllLegalLess(g, live, e);
      MovedKeysLegal(g, k, live - multiset{e});
      MovedLegal(g, k, e.0, e.1);
      AllLegalMore(Grown(g, k), MovedKeys(g, k, live - multiset{e}), (Moved(g, k, e.0, e.1), e.1));
    }
  }

  lemma {:induction false} AllLegalNone(g: Geometry)
    requires Aligned(g)
    ensures AllLegal(g, multiset{})
  {
    hide Legal;
  }

  lemma {:induction false} TracksLegal(g: Geometry, t: seq<Block>, hand: Hand, live: multiset<Entry>)
    requires Tracks(g, t, hand, live)
    ensures WellFormed(g, t) && Aligned(g) && AllLegal(g, live)
  {
    hide Balanced, Legal, Copies, ValidTable;
  }

  // Growing keeps the bookkeeping of every live key.
  lemma {:induction false} SplitBalanced(g: Geometry, k: nat, t: seq<Block>, live: multiset<Entry>, b: nat, f: nat)
    requires Tracks(g, t, Empty, live) && Aligned(g) && CanGrow(g, k) && OtaSurvives(g.cfg)
    requires Splittable(g, k, t) && WellFormed(Grown(g, k), Split(g, k, t)) && Aligned(Grown(g, k))
    requires Legal(Grown(g, k), b, f)
    ensures Balanced(Grown(g, k), Split(g, k, t), Empty, MovedKeys(g, k, live), b, f)
  {
    hide *;
    var g2, u, less := Grown(g, k), Split(g, k, t), MovedKeys(g, k, live);
    TracksLegal(g, t, Empty, live);
    UnmovedLegal(g, k, b, f);
    var o := Unmoved(g, k, b, f);
    TracksAt(g, t, Empty, live, o, f);
    BalancedMeans(g, t, Empty, live, o, f);
    BalancedMeans(g2, u, Empty, less, b, f);
    var oa := Alternate(g, o, f);
    ShapeGrown(g, k);
    MovedAlternate(g, k, o, f);
    MovedCopies(g, k, t, o, f);
    MovedCopies(g, k, t, oa, f);
    HeldIs(g, t, Empty, o, f);
    HeldIs(g, t, Empty, oa, f);
    HeldIs(g2, u, Empty, b, f);
    HeldIs(g2, u, Empty, Alternate(g2, b, f), f);
    MovedKeysCount(g, k, live, o, f);
    MovedKeysCount(g, k, live, oa, f);
    OverflowMoved(g, k, t, o, f);
  }

  lemma {:induction false} ShapeGrown(g: Geometry, k: nat)
    ensures ShapeOf(Grown(g, k)) == ShapeOf(g) && Grown(g, k).cfg == g.cfg
  {
    hide Pow2;
  }

  lemma {:induction false} SplitTracks(g: Geometry, k: nat, t: seq<Block>, live: multiset<Entry>)
    requires Tracks(g, t, Empty, live) && Aligned(g) && CanGrow(g, k) && OtaSurvives(g.cfg)
    ensures Splittable(g, k, t) && Tracks(Grown(g, k), Split(g, k, t), Empty, MovedKeys(g, k, live))
  {
    hide *;
    TracksLegal(g, t, Empty, live);
    SplitWellFormed(g, k, t);
    var g2, u, less := Grown(g, k), Split(g, k, t), MovedKeys(g, k, live);
    GrownSound(g, k);
    MovedKeysLegal(g, k, live);
    forall b: nat, f: nat | Legal(g2, b, f)
      ensures Balanced(g2, u, Empty, less, b, f)
    {
      SplitBalanced(g, k, t, live, b, f);
    }
    MakeTracks(g2, u, less);
  }

  lemma {:induction false} MakeTracks(g: Geometry, t: seq<Block>, live: multiset<Entry>)
    requires WellFormed(g, t) && Aligned(g) && AllLegal(g, live)
    requires forall b: nat, f: nat | Legal(g, b, f) :: Balanced(g, t, Empty, live, b, f)
    ensures Tracks(g, t, Empty, live)
  {
    hide WellFormed, Aligned, Legal, Balanced;
  }

  // A key is live afterwards exactly when it was before.
  lemma {:induction false} StaysLive(g: Geometry, k: nat, live: multiset<Entry>, raw: nat)
    requires Aligned(g) && CanGrow(g, k) && AllLegal(g, live) && raw < Pow2(HASH_BITS)
    requires SoundConfig(g.cfg) && g.resizeCount <= g.cfg.fingerprintBits <= HASH_BITS
    ensures SoundConfig(Grown(g, k).cfg) && Grown(g, k).resizeCount <= g.cfg.fingerprintBits
    ensures (MapToBucket(Grown(g, k), raw), Fingerprint(g.cfg, raw)) in MovedKeys(g, k, live)
            <==> (MapToBucket(g, raw), Fingerprint(g.cfg, raw)) in live
  {
    hide *;
    ShapeGrown(g, k);
    GrownCount(g, k);
    MapToBucketLegal(g, raw);
    MovedPrimary(g, k, raw);
    MovedKeysCount(g, k, live, MapToBucket(g, raw), Fingerprint(g.cfg, raw));
  }

  lemma {:induction false} GrownCount(g: Geometry, k: nat)
    requires CanGrow(g, k)
    ensures Grown(g, k).resizeCount == g.resizeCount + k <= g.cfg.fingerprintBits
  {
    hide Pow2;
  }

  // ----- the loops of resize, for one block -----

  // The child under construction; its overflow bits are still clear.
  ghost function Building(g: Geometry, k: nat, c: nat, b: Block, n: nat): Block
    requires g.resizeCount + k <= g.cfg.fingerprintBits
    requires Start(b.counters, |b.counters|) == |b.fps| && n <= |b.fps|
  {
    ChildAfter(g, k, c, b, n).(ota := EmptyBlock(g.cfg).ota)
  }

  lemma {:induction false} BuildingStarts(g: Geometry, k: nat, c: nat, b: Block)
    requires g.resizeCount + k <= g.cfg.fingerprintBits
    requires Start(b.counters, |b.counters|) == |b.fps| && |b.counters| == g.cfg.bucketsPerBlock
    ensures Building(g, k, c, b, 0) == EmptyBlock(g.cfg)
  {
    NothingHandedOut(g, k, c, b);
    hide ChildAfter, Start;
  }

  lemma {:induction false} BuildingStep(g: Geometry, k: nat, c: nat, b: Block, i: nat, slot: nat)
    requires g.resizeCount + k <= g.cfg.fingerprintBits
    requires i < |b.counters| && Start(b.counters, |b.counters|) == |b.fps| && slot < b.counters[i]
    ensures Start(b.counters, i) + slot < |b.fps|
    ensures var n := Start(b.counters, i) + slot;
            && |Building(g, k, c, b, n).counters| == |b.counters|
            && Building(g, k, c, b, n + 1)
               == if ChildIndex(g, k, b.fps[n]) == c then Append(Building(g, k, c, b, n), i, b.fps[n])
                  else Building(g, k, c, b, n)
  {
    BucketInside(b, i);
    HandOut(g, k, c, b, i, Start(b.counters, i) + slot);
    hide ChildAfter, Start, ChildIndex;
  }

  lemma {:induction false} BuildingDone(g: Geometry, k: nat, c: nat, b: Block)
    requires g.resizeCount + k <= g.cfg.fingerprintBits
    requires Start(b.counters, |b.counters|) == |b.fps|
    ensures Building(g, k, c, b, |b.fps|).(ota := b.ota) == ChildBlock(g, k, c, b)
  {
    hide Start, Inherited, BucketPart;
  }

  // The children under construction, n fingerprints into the block.
  ghost predicate UnderWay(g: Geometry, k: nat, b: Block, children: seq<Block>, base: nat, pointers: seq<nat>, n: nat)
    requires g.resizeCount + k <= g.cfg.fingerprintBits
    requires Start(b.counters, |b.counters|) == |b.fps| && n <= |b.fps|
  {
    && |pointers| == Pow2(k) && base + Pow2(k) <= |children|
    && (forall i | base <= i < base + Pow2(k) :: children[i] == Building(g, k, i - base, b, n))
    && forall c: nat | c < Pow2(k) :: pointers[c] == |Building(g, k, c, b, n).fps|
  }

  // Appends the next fingerprint to the child that it chooses.
  method HandOutOne(g: Geometry, k: nat, b: Block, children: array<Block>, base: nat, pointers: array<nat>,
                    counterIndex: nat, slotId: nat, fsaIndex: nat)
    requires g.resizeCount + k <= g.cfg.fingerprintBits && (children as object) != pointers
    requires Start(b.counters, |b.counters|) == |b.fps| && counterIndex < |b.counters|
    requires slotId < b.counters[counterIndex] && fsaIndex == Start(b.counters, counterIndex) + slotId < |b.fps|
    requires UnderWay(g, k, b, children[..], base, pointers[..], fsaIndex)
    modifies children, pointers
    ensures UnderWay(g, k, b, children[..], base, pointers[..], fsaIndex + 1)
    ensures forall i | 0 <= i < base || base + Pow2(k) <= i < children.Length :: children[i] == old(children[i])
  {
    hide *;
    UnderWayMeans(g, k, b, children[..], base, pointers[..], fsaIndex);
    var f := b.fps[fsaIndex];
    var p := ChildIndex(g, k, f);
    var child := children[base + p];
    BuildingStep(g, k, p, b, counterIndex, slotId);
    AppendIs(child, counterIndex, f);
    child := WriteLeftDisplace(child, pointers[p], f);
    children[base + p] := SetCounter(child, counterIndex, child.counters[counterIndex] + 1);
    pointers[p] := pointers[p] + 1;
    forall c: nat | c < Pow2(k) && c != p
      ensures Building(g, k, c, b, fsaIndex + 1) == Building(g, k, c, b, fsaIndex)
    {
      BuildingStep(g, k, c, b, counterIndex, slotId);
    }
    UnderWayMeans(g, k, b, children[..], base, pointers[..], fsaIndex + 1);
  }

  lemma UnderWayMeans(g: Geometry, k: nat, b: Block, children: seq<Block>, base: nat, pointers: seq<nat>, n: nat)
    requires g.resizeCount + k <= g.cfg.fingerprintBits
    requires Start(b.counters, |b.counters|) == |b.fps| && n <= |b.fps|
    ensures UnderWay(g, k, b, children, base, pointers, n)
            <==> && |pointers| == Pow2(k) && base + Pow2(k) <= |children|
                 && (forall i | base <= i < base + Pow2(k) :: children[i] == Building(g, k, i - base, b, n))
                 && forall c: nat | c < Pow2(k) :: pointers[c] == |Building(g, k, c, b, n).fps|
  {
    hide Building, Start, Pow2;
  }

  // Hands the fingerprints of one block out to its children, in order, and
  // copies the overflow bits to each of them.
  method SplitBlock(g: Geometry, k: nat, b: Block, children: array<Block>, base: nat)
    requires g.resizeCount + k <= g.cfg.fingerprintBits
    requires Start(b.counters, |b.counters|) == |b.fps| && |b.counters| == g.cfg.bucketsPerBlock
    requires base + Pow2(k) <= children.Length
    requires forall i | base <= i < base + Pow2(k) :: children[i] == EmptyBlock(g.cfg)
    modifies children
    ensures forall i | base <= i < base + Pow2(k) :: children[i] == ChildBlock(g, k, i - base, b)
    ensures forall i | 0 <= i < base || base + Pow2(k) <= i < children.Length :: children[i] == old(children[i])
  {
    hide *;
    var factor := Pow2(k);
    var pointers := new nat[factor](i => 0);
    var fsaIndex := 0;
    EmptyUsed(g.cfg);
    StartStep(b.counters, 0);
    forall c: nat | c < factor
      ensures Building(g, k, c, b, 0) == EmptyBlock(g.cfg)
    {
      BuildingStarts(g, k, c, b);
    }
    UnderWayMeans(g, k, b, children[..], base, pointers[..], 0);
    for counterIndex := 0 to g.cfg.bucketsPerBlock
      invariant fsaIndex == Start(b.counters, counterIndex) <= |b.fps|
      invariant UnderWay(g, k, b, children[..], base, pointers[..], fsaIndex)
      invariant forall i | 0 <= i < base || base + factor <= i < children.Length :: children[i] == old(children[i])
    {
      var fullnessCounter := b.counters[counterIndex];
      BucketInside(b, counterIndex);
      for slotId := 0 to fullnessCounter
        invariant fsaIndex == Start(b.counters, counterIndex) + slotId <= |b.fps|
        invariant UnderWay(g, k, b, children[..], base, pointers[..], fsaIndex)
        invariant forall i | 0 <= i < base || base + factor <= i < children.Length :: children[i] == old(children[i])
      {
        HandOutOne(g, k, b, children, base, pointers, counterIndex, slotId, fsaIndex);
        fsaIndex := fsaIndex + 1;
      }
    }
    UnderWayMeans(g, k, b, children[..], base, pointers[..], fsaIndex);
    for c := 0 to factor
      invariant forall i | base <= i < base + c :: children[i] == ChildBlock(g, k, i - base, b)
      invariant forall i | base + c <= i < base + factor :: children[i] == Building(g, k, i - base, b, |b.fps|)
      invariant forall i | 0 <= i < base || base + factor <= i < children.Length :: children[i] == old(children[i])
    {
      BuildingDone(g, k, c, b);
      children[base + c] := children[base + c].(ota := b.ota);
    }
  }

  lemma {:induction false} EmptyUsed(cfg: Config)
    ensures EmptyBlock(cfg).fps == []
  {
  }

  lemma {:induction false} AppendIs(b: Block, i: nat, f: nat)
    requires i < |b.counters|
    ensures |WriteLeftDisplace(b, |b.fps|, f).counters| == |b.counters|
    ensures Append(b, i, f)
            == SetCounter(WriteLeftDisplace(b, |b.fps|, f), i,
                          WriteLeftDisplace(b, |b.fps|, f).counters[i] + 1)
    ensures |Append(b, i, f).fps| == |b.fps| + 1
  {
  }

  lemma {:induction false} NextGroup(g: Geometry, t: seq<Block>, i: nat, factor: nat)
    requires WellFormed(g, t) && i < |t| && factor > 0
    ensures (i + 1) * factor == i * factor + factor <= |t| * factor
    ensures Start(t[i].counters, |t[i].counters|) == |t[i].fps| && |t[i].counters| == g.cfg.bucketsPerBlock
  {
    MulAdd(i, 1, factor);
    MulLe(i + 1, |t|, factor);
    hide Start, Sound, Legal, Copies;
  }

  lemma {:induction false} SplitGroup(g: Geometry, k: nat, t: seq<Block>, i: nat)
    requires Splittable(g, k, t) && i < |t|
    ensures (i + 1) * Pow2(k) == i * Pow2(k) + Pow2(k) <= |t| * Pow2(k) == |Split(g, k, t)|
    ensures Start(t[i].counters, |t[i].counters|) == |t[i].fps|
    ensures forall j: nat | i * Pow2(k) <= j < (i + 1) * Pow2(k) ::
              Split(g, k, t)[j] == ChildBlock(g, k, j - i * Pow2(k), t[i])
  {
    hide Pow2, Start, ChildBlock, Split;
    MulAdd(i, 1, Pow2(k));
    MulLe(i + 1, |t|, Pow2(k));
    SplitLength(g, k, t);
    forall j: nat | i * Pow2(k) <= j < (i + 1) * Pow2(k)
      ensures Split(g, k, t)[j] == ChildBlock(g, k, j - i * Pow2(k), t[i])
    {
      SplitIs(g, k, t, j);
      DivModUnique(j, Pow2(k), i, j - i * Pow2(k));
    }
  }

  // Splits every block into freshly allocated storage.
  method SplitTable(g: Geometry, k: nat, storage: array<Block>) returns (children: array<Block>)
    requires WellFormed(g, storage[..]) && CanGrow(g, k) && Splittable(g, k, storage[..])
    requires g.resizeCount + k <= g.cfg.fingerprintBits
    ensures children[..] == Split(g, k, storage[..]) && fresh(children)
  {
    hide *;
    ghost var t := storage[..];
    SplitLength(g, k, t);
    var factor := Pow2(k);
    MulNonNeg(storage.Length, factor);
    children := new Block[storage.Length * factor](i => EmptyBlock(g.cfg));
    var base := 0;
    for blockId := 0 to storage.Length
      invariant storage[..] == t
      invariant base == blockId * factor <= children.Length
      invariant forall i: nat | i < base :: children[i] == Split(g, k, t)[i]
      invariant forall i: nat | base <= i < children.Length :: children[i] == EmptyBlock(g.cfg)
    {
      NextGroup(g, t, blockId, factor);
      SplitGroup(g, k, t, blockId);
      SplitBlock(g, k, storage[blockId], children, base);
      base := base + factor;
    }
  }
}
