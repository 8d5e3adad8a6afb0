/** What growing does to a Morton filter whose overflow indices do not survive it:
    a table that loses a key, so that the condition for growing safely is exact. */
module MortonLoss {
  import opened Arith
  import opened MortonGeometry
  import opened MortonTable
  import opened MortonInvariant
  import opened MortonSteps
  import opened MortonResize
  import opened MortonFilter

  // An empty table of any size, however often the filter has grown.
  lemma EmptyTable(g: Geometry) returns (t: seq<Block>)
    requires Sound(g)
    ensures |t| * g.cfg.bucketsPerBlock == g.totalBuckets
    ensures forall k | 0 <= k < |t| :: t[k] == EmptyBlock(g.cfg)
    ensures Tracks(g, t, Empty, multiset{})
  {
    WholeBlocks(g);
    DivMod(g.totalBuckets, g.cfg.bucketsPerBlock);
    DivNonNeg(g.totalBuckets, g.cfg.bucketsPerBlock);
    hide Sound, EmptyBlock, Tracks;
    t := seq(g.totalBuckets / g.cfg.bucketsPerBlock, _ => EmptyBlock(g.cfg));
    NothingTracks(g, t);
  }

  lemma WholeBlocks(g: Geometry)
    requires Sound(g)
    ensures g.cfg.bucketsPerBlock > 0 && g.totalBuckets % g.cfg.bucketsPerBlock == 0
  {
    var n, o, r := g.cfg.bucketsPerBlock, OriginalTotal(g), Pow2(g.resizeCount);
    DivMod(o, n);
    MulAssoc(o / n, n, r);
    MulAssoc(o / n, r, n);
    assert n * r == r * n;
    DivModUnique(o * r, n, o / n * r, 0);
    hide OriginalTotal, Pow2, MaxOffset;
  }

  // One key whose fingerprint went to its alternate bucket: its primary bucket
  // is empty and, in its block, only its own overflow bit is set.
  lemma OverflowedTable(g: Geometry, p: nat, f: nat) returns (t: seq<Block>)
    requires Sound(g) && Legal(g, p, f)
    ensures Tracks(g, t, Empty, multiset{(p, f)})
    ensures ValidTable(t, ShapeOf(g)) && InTable(t, ShapeOf(g), p) && Copies(t, ShapeOf(g), p, f) == 0
    ensures forall i | 0 <= i < |t[BlockOf(p, ShapeOf(g))].ota| ::
              t[BlockOf(p, ShapeOf(g))].ota[i] ==> i == OtaIndex(g, p, f)
  {
    hide *;
    var empty := EmptyTable(g);
    EmptyHas(g, empty, p, f);
    var a := Alternate(g, p, f);
    BucketOfTable(g, empty, a);
    var u := Stored(empty, ShapeOf(g), a, f);
    StoreFlows(g, empty, a, f);
    StoredHas(g, empty, a, p, f);
    ViaSecondary(g, empty, u, p, f, []);
    t := Marked(g, u, p, f);
    MarkedHas(g, u, p, f);
    Admit(g, empty, multiset{}, p, f);
    var none: multiset<Entry>, one: multiset<Entry> := multiset{}, multiset{(p, f)};
    assert none + one == one;
    var flows: seq<Entry> := [];
    assert [(p, f)] + flows == [(p, f)];
    FlowTracks(g, empty, Carrying(p, f), t, Empty, [(p, f)], one);
  }

  lemma EmptyHas(g: Geometry, t: seq<Block>, p: nat, f: nat)
    requires Sound(g) && Legal(g, p, f) && Tracks(g, t, Empty, multiset{})
    requires forall k | 0 <= k < |t| :: t[k] == EmptyBlock(g.cfg)
    ensures Aligned(g) && p < g.totalBuckets && IsFingerprint(g.cfg, f)
    ensures WellFormed(g, t) && ValidTable(t, ShapeOf(g))
    ensures InTable(t, ShapeOf(g), p) && Copies(t, ShapeOf(g), p, f) == 0
    ensures var a := Alternate(g, p, f);
            && Legal(g, a, f) && InTable(t, ShapeOf(g), a) && HasRoom(t, ShapeOf(g), a)
            && Alternate(g, a, f) == p && BlockOf(a, ShapeOf(g)) != BlockOf(p, ShapeOf(g))
    ensures forall i | 0 <= i < |t[BlockOf(p, ShapeOf(g))].ota| :: !t[BlockOf(p, ShapeOf(g))].ota[i]
  {
    InTableIsLegal(g, t, p);
    AlternateInvolution(g, p, f);
    AlternateOtherBlock(g, p, f);
    InTableIsLegal(g, t, Alternate(g, p, f));
    EmptyCopies(g, t, p, f);
    hide Alternate, Tracks, Copies, OriginalTotal, Pow2, MaxOffset, Start;
  }

  lemma StoredHas(g: Geometry, t: seq<Block>, a: nat, p: nat, f: nat)
    requires ValidTable(t, ShapeOf(g)) && InTable(t, ShapeOf(g), a) && InTable(t, ShapeOf(g), p)
    requires HasRoom(t, ShapeOf(g), a) && BlockOf(a, ShapeOf(g)) != BlockOf(p, ShapeOf(g))
    ensures var u := Stored(t, ShapeOf(g), a, f);
            && ValidTable(u, ShapeOf(g)) && InTable(u, ShapeOf(g), p)
            && u[BlockOf(p, ShapeOf(g))] == t[BlockOf(p, ShapeOf(g))]
            && Copies(u, ShapeOf(g), p, f) == Copies(t, ShapeOf(g), p, f)
  {
    var u := Stored(t, ShapeOf(g), a, f);
    StoredDelta(t, ShapeOf(g), a, f);
    DeltaAt(t, u, ShapeOf(g), multiset{(a, f)}, multiset{}, p, f);
    hide Copies, Delta, Store, ValidTable;
  }

  lemma MarkedHas(g: Geometry, u: seq<Block>, p: nat, f: nat)
    requires Sound(g) && ValidTable(u, ShapeOf(g)) && InTable(u, ShapeOf(g), p) && IsFingerprint(g.cfg, f)
    requires forall i | 0 <= i < |u[BlockOf(p, ShapeOf(g))].ota| :: !u[BlockOf(p, ShapeOf(g))].ota[i]
    ensures var t := Marked(g, u, p, f);
            && ValidTable(t, ShapeOf(g)) && InTable(t, ShapeOf(g), p)
            && Copies(t, ShapeOf(g), p, f) == Copies(u, ShapeOf(g), p, f)
            && forall i | 0 <= i < |t[BlockOf(p, ShapeOf(g))].ota| ::
                 t[BlockOf(p, ShapeOf(g))].ota[i] ==> i == OtaIndex(g, p, f)
  {
    MarkedDelta(g, u, p, f);
    DeltaAt(u, Marked(g, u, p, f), ShapeOf(g), multiset{}, multiset{}, p, f);
    hide Copies, Delta, ValidTable, OtaIndex, Sound;
  }

  // When overflow indices do not survive, there is a table with one live key
  // that a lookup in the grown table does not find.
  lemma LosesKey(g: Geometry, k: nat) returns (t: seq<Block>, f: nat)
    requires Sound(g) && Aligned(g) && CanGrow(g, k) && k > 0 && !OtaSurvives(g.cfg)
    ensures Legal(g, 0, f) && Tracks(g, t, Empty, multiset{(0, f)}) && Splittable(g, k, t)
    ensures Sound(Grown(g, k)) && IsFingerprint(g.cfg, f)
    ensures var u, b := Split(g, k, t), Moved(g, k, 0, f);
            && ValidTable(u, ShapeOf(g)) && InTable(u, ShapeOf(g), b)
            && Copies(u, ShapeOf(g), b, f) == 0 && !OverflowSet(Grown(g, k), u, b, f)
  {
    hide *;
    f := IndexMoves(g, k);
    t := OverflowedTable(g, 0, f);
    TracksAt(g, t, Empty, multiset{(0, f)}, 0, f);
    BalancedMeans(g, t, Empty, multiset{(0, f)}, 0, f);
    SplitWellFormed(g, k, t);
    GrownSound(g, k);
    ShapeGrown(g, k);
    MovedCopies(g, k, t, 0, f);
    MovedBits(g, k, t, 0, f);
    OtherBitClear(g, k, Split(g, k, t), Moved(g, k, 0, f), f, OtaIndex(g, 0, f));
  }

  lemma OtherBitClear(g: Geometry, k: nat, u: seq<Block>, b: nat, f: nat, index: nat)
    requires Sound(Grown(g, k)) && ValidTable(u, ShapeOf(g)) && InTable(u, ShapeOf(g), b) && IsFingerprint(g.cfg, f)
    requires forall i | 0 <= i < |u[BlockOf(b, ShapeOf(g))].ota| :: u[BlockOf(b, ShapeOf(g))].ota[i] ==> i == index
    requires OtaIndex(Grown(g, k), b, f) != index
    ensures !OverflowSet(Grown(g, k), u, b, f)
  {
    OtaIndexInRange(Grown(g, k), b, f);
    hide OtaIndex, Pow2, OriginalTotal, MaxOffset, Start;
  }

  ghost predicate GrowsSafely(g: Geometry, k: nat, t: seq<Block>, live: multiset<Entry>)
    requires Aligned(g) && CanGrow(g, k)
  {
    Splittable(g, k, t) && Tracks(Grown(g, k), Split(g, k, t), Empty, MovedKeys(g, k, live))
  }

  // Growing keeps every key of every table findable if and only if overflow
  // indices survive.
  lemma GrowsSafelyExactly(g: Geometry, k: nat)
    requires Sound(g) && Aligned(g) && CanGrow(g, k) && k > 0
    ensures SoundConfig(g.cfg)
    ensures OtaSurvives(g.cfg)
            <==> forall t: seq<Block>, live: multiset<Entry> | Tracks(g, t, Empty, live) :: GrowsSafely(g, k, t, live)
  {
    assert SoundConfig(g.cfg);
    if OtaSurvives(g.cfg) {
      hide *;
      forall t: seq<Block>, live: multiset<Entry> | Tracks(g, t, Empty, live)
        ensures GrowsSafely(g, k, t, live)
      {
        SafeIf(g, k, t, live);
      }
    } else {
      hide *;
      var t, f := LosesKey(g, k);
      NotSafe(g, k, t, f);
    }
  }

  lemma SafeIf(g: Geometry, k: nat, t: seq<Block>, live: multiset<Entry>)
    requires Tracks(g, t, Empty, live) && Aligned(g) && CanGrow(g, k) && OtaSurvives(g.cfg)
    ensures GrowsSafely(g, k, t, live)
  {
    hide Tracks, Aligned, Splittable, Split, MovedKeys, OtaSurvives;
    SplitTracks(g, k, t, live);
  }

  lemma NotSafe(g: Geometry, k: nat, t: seq<Block>, f: nat)
    requires Sound(g) && Aligned(g) && CanGrow(g, k) && Legal(g, 0, f) && Splittable(g, k, t)
    requires Tracks(g, t, Empty, multiset{(0, f)})
    requires Sound(Grown(g, k)) && IsFingerprint(g.cfg, f)
    requires var u, b := Split(g, k, t), Moved(g, k, 0, f);
             && ValidTable(u, ShapeOf(g)) && InTable(u, ShapeOf(g), b)
             && Copies(u, ShapeOf(g), b, f) == 0 && !OverflowSet(Grown(g, k), u, b, f)
    ensures !GrowsSafely(g, k, t, multiset{(0, f)})
  {
    var u, b, live := Split(g, k, t), Moved(g, k, 0, f), multiset{(0, f)};
    ShapeGrown(g, k);
    TracksLegal(g, t, Empty, live);
    MovedKeysCount(g, k, live, 0, f);
    if GrowsSafely(g, k, t, live) {
      assert Tracks(Grown(g, k), u, Empty, MovedKeys(g, k, live));
      hide *;
      LiveIsFound(Grown(g, k), u, MovedKeys(g, k, live), b, f);
      assert false;
    }
  }
}
