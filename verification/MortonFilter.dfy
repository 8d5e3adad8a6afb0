/** The Morton filter: insertion with relocation and kick-out, lookup that visits
    the alternate bucket only when an overflow bit asks for it, and deletion. */
module MortonFilter {
  import opened Arith
  import opened MortonGeometry
  import opened MortonTable
  import opened MortonInvariant
  import opened MortonSteps
  import opened MortonPlacement
  import opened MortonResize
  import opened Runs

  // What a first-level store finds out about its bucket.
  datatype StoreParams = StoreParams(blockId: nat, counterIndex: nat, bucketStart: nat, elements: nat,
                                     counterValue: nat)

  function ParamsOf(s: Shape, t: seq<Block>, bucket: nat): StoreParams
    requires s.bucketsPerBlock > 0 && BlockOf(bucket, s) < |t|
    requires IndexOf(bucket, s) < |t[BlockOf(bucket, s)].counters|
  {
    var k, i := BlockOf(bucket, s), IndexOf(bucket, s);
    StoreParams(k, i, Start(t[k].counters, i), |t[k].fps|, t[k].counters[i])
  }

  lemma {:induction false} BucketOfTable(g: Geometry, t: seq<Block>, bucket: nat)
    requires WellFormed(g, t) && InTable(t, ShapeOf(g), bucket)
    ensures var s := ShapeOf(g); var k := BlockOf(bucket, s); var i := IndexOf(bucket, s);
            && s.bucketsPerBlock > 0 && k < |t| && i < |t[k].counters| == g.cfg.bucketsPerBlock
            && ValidBlock(t[k], g.cfg.slotsPerBucket, g.cfg.maxFingerprints)
            && Start(t[k].counters, |t[k].counters|) == |t[k].fps|
            && Start(t[k].counters, i) + t[k].counters[i] <= |t[k].fps|
            && |t[k].fps| < 256
            && |t[k].ota| == g.cfg.otaBits
            && ValidTable(t, s)
  {
    BucketInside(t[BlockOf(bucket, ShapeOf(g))], IndexOf(bucket, ShapeOf(g)));
    hide Start;
  }

  // The bucket's counter exists.
  predicate TableHasBucket(t: seq<Block>, s: Shape, bucket: nat) {
    s.bucketsPerBlock > 0 && BlockOf(bucket, s) < |t| && IndexOf(bucket, s) < |t[BlockOf(bucket, s)].counters|
  }

  // Whole blocks for the requested slots, one more if the number of buckets would be odd.
  function TotalBuckets(slots: nat, totalSlots: nat, b: nat): nat
    requires slots > 0 && b > 0
  {
    MulPos(slots, b);
    DivNonNeg(totalSlots + slots * b - 1, slots * b);
    MulNonNeg((totalSlots + slots * b - 1) / (slots * b), b);
    var total := (totalSlots + slots * b - 1) / (slots * b) * b;
    if total % 2 == 1 then total + b else total
  }

  lemma {:induction false} TotalBucketsLaws(slots: nat, totalSlots: nat, b: nat)
    requires slots > 0 && b > 0
    ensures var total := TotalBuckets(slots, totalSlots, b);
            && total % 2 == 0 && total % b == 0
            && totalSlots <= total * slots
            && total / b * b == total
  {
    MulPos(slots, b);
    var blocks := (totalSlots + slots * b - 1) / (slots * b);
    DivNonNeg(totalSlots + slots * b - 1, slots * b);
    MulNonNeg(blocks, b);
    var total := TotalBuckets(slots, totalSlots, b);
    DivMod(totalSlots + slots * b - 1, slots * b);
    RoundedUp(blocks, b, slots, total);
  }

  // No smaller even number of buckets in whole blocks has room for the slots.
  lemma {:induction false} TotalBucketsIsLeast(slots: nat, totalSlots: nat, b: nat, blocks: nat)
    requires slots > 0 && b > 0 && (blocks * b) % 2 == 0 && totalSlots <= blocks * b * slots
    ensures TotalBuckets(slots, totalSlots, b) <= blocks * b
  {
    MulPos(slots, b);
    DivNonNeg(totalSlots + slots * b - 1, slots * b);
    var needed := (totalSlots + slots * b - 1) / (slots * b);
    MulAssoc(blocks, b, slots);
    assert b * slots == slots * b;
    MulAdd(blocks, 1, slots * b);
    DivUpper(totalSlots + slots * b - 1, slots * b, blocks + 1);
    MulLe(needed, blocks, b);
    if needed < blocks {
      MulLe(needed + 1, blocks, b);
      MulAdd(needed, 1, b);
    }
  }

  lemma {:induction false} RoundedUp(blocks: nat, b: nat, slots: nat, total: nat)
    requires slots > 0 && b > 0
    requires total == if (blocks * b) % 2 == 1 then blocks * b + b else blocks * b
    ensures total % 2 == 0 && total % b == 0 && total / b * b == total
    ensures blocks * (slots * b) <= total * slots
  {
    var n := if (blocks * b) % 2 == 1 then blocks + 1 else blocks;
    MulAdd(blocks, 1, b);
    assert total == n * b;
    DivModUnique(total, b, n, 0);
    if (blocks * b) % 2 == 1 {
      OddProduct(blocks, b);
    }
    MulAssoc(blocks, b, slots);
    assert b * slots == slots * b;
    MulLe(blocks * b, total, slots);
  }

  lemma {:induction false} OddProduct(x: int, y: int)
    requires x >= 0 && y >= 0 && (x * y) % 2 == 1
    ensures y % 2 == 1
  {
    if y % 2 == 0 {
      var h := y / 2;
      MulAssoc(x, h, 2);
    }
  }

  class MortonFilter {
    var geo: Geometry
    var storage: array<Block>
    ghost var live: multiset<Entry>

    ghost predicate Valid()
      reads this, storage
    {
      Tracks(geo, storage[..], Empty, live)
    }

    // An empty filter: whole blocks, an even number of buckets, room for the
    // requested number of logical slots.
    constructor (cfg: Config, totalSlots: nat)
      requires SoundConfig(cfg)
      requires MaxOffset(cfg) + cfg.bucketsPerBlock <= TotalBuckets(cfg.slotsPerBucket, totalSlots, cfg.bucketsPerBlock)
      ensures Valid() && live == multiset{}
      ensures geo == Geometry(cfg, TotalBuckets(cfg.slotsPerBucket, totalSlots, cfg.bucketsPerBlock), 0)
      ensures totalSlots <= geo.totalBuckets * cfg.slotsPerBucket
      ensures forall k: nat | k < storage.Length :: IsClear(storage[k])
      ensures fresh(storage)
    {
      hide *;
      SoundMeans(cfg);
      var total := TotalBuckets(cfg.slotsPerBucket, totalSlots, cfg.bucketsPerBlock);
      TotalBucketsLaws(cfg.slotsPerBucket, totalSlots, cfg.bucketsPerBlock);
      DivNonNeg(total, cfg.bucketsPerBlock);
      geo := Geometry(cfg, total, 0);
      storage := new Block[total / cfg.bucketsPerBlock](i => EmptyBlock(cfg));
      live := multiset{};
      new;
      EmptyTracks(geo, storage[..]);
      EmptyIsClear(cfg);
      ValidMeans();
    }

    // Grows the filter by a factor of 2^k. Live keys stay live if overflow
    // indices survive.
    method Resize(k: nat)
      requires Valid() && CanGrow(geo, k)
      requires SoundConfig(geo.cfg) && geo.resizeCount <= geo.cfg.fingerprintBits
      modifies this
      ensures geo == Grown(old(geo), k) && SoundConfig(geo.cfg) && geo.resizeCount <= geo.cfg.fingerprintBits
      ensures Splittable(old(geo), k, old(storage[..])) && storage[..] == Split(old(geo), k, old(storage[..]))
      ensures OtaSurvives(geo.cfg) ==> Valid()
      ensures forall key: nat :: IsLive(key) <==> old(IsLive(key))
      ensures fresh(storage)
    {
      hide *;
      ValidMeans();
      ghost var g, t, keys := geo, storage[..], live;
      TracksSound(g, t, Empty, live);
      TracksLegal(g, t, Empty, live);
      SplitWellFormed(g, k, t);
      SplitLength(g, k, t);
      SoundMeans(g.cfg);
      GrownCount(g, k);
      storage := SplitTable(geo, k, storage);
      geo := Grown(geo, k);
      live := MovedKeys(g, k, keys);
      ShapeGrown(g, k);
      if OtaSurvives(geo.cfg) {
        SplitTracks(g, k, t, keys);
      }
      ValidMeans();
      forall key: nat
        ensures IsLive(key) <==> old(IsLive(key))
      {
        HashFits(g.cfg.hash(key));
        StaysLive(g, k, keys, g.cfg.hash(key));
        EntryIs(key);
        IsLiveMeans(key);
        OldIsLive(key);
      }
    }

    // The serial exclusive reduction, accumulated in an 8-bit counter.
    method ReduceUpToIndex(b: Block, index: nat) returns (sum: nat)
      requires index <= |b.counters| && Start(b.counters, |b.counters|) < 256
      ensures sum == Start(b.counters, index)
    {
      sum := 0;
      for i := 0 to index
        invariant sum == Start(b.counters, i)
      {
        StartMono(b.counters, i + 1, |b.counters|);
        sum := (sum + b.counters[i]) % 256;
      }
    }

    // Shifts the fingerprint in at the given position and counts it.
    method InsertFingerprint(bucket: nat, position: nat, f: nat)
      requires TableHasBucket(storage[..], ShapeOf(geo), bucket)
      requires ValidTable(storage[..], ShapeOf(geo)) && InTable(storage[..], ShapeOf(geo), bucket)
      requires position == ParamsOf(ShapeOf(geo), storage[..], bucket).bucketStart
      modifies storage
      ensures storage[..] == Stored(old(storage[..]), ShapeOf(geo), bucket, f)
    {
      var k, i := BlockOf(bucket, ShapeOf(geo)), IndexOf(bucket, ShapeOf(geo));
      ghost var t := storage[..];
      StoreIs(t[k], i, f);
      hide Start, Store;
      storage[k] := WriteLeftDisplace(storage[k], position, f);
      storage[k] := SetCounter(storage[k], i, storage[k].counters[i] + 1);
      assert storage[..] == t[k := storage[k]];
    }

    // Shifts a fingerprint out and counts it down from the known fullness.
    method DeleteFingerprint(bucket: nat, slot: nat, position: nat, occupied: nat)
      requires TableHasBucket(storage[..], ShapeOf(geo), bucket)
      requires ValidTable(storage[..], ShapeOf(geo)) && InTable(storage[..], ShapeOf(geo), bucket)
      requires SlotUsed(storage[..], ShapeOf(geo), bucket, slot)
      requires var p := ParamsOf(ShapeOf(geo), storage[..], bucket);
               position == p.bucketStart + slot && occupied == p.counterValue
      modifies storage
      ensures storage[..] == Deleted(old(storage[..]), ShapeOf(geo), bucket, slot)
    {
      var k, i := BlockOf(bucket, ShapeOf(geo)), IndexOf(bucket, ShapeOf(geo));
      ghost var t := storage[..];
      BucketInside(t[k], i);
      hide Start;
      storage[k] := DeleteRightDisplace(storage[k], position);
      storage[k] := SetCounter(storage[k], i, occupied - 1);
      assert storage[..] == t[k := storage[k]];
    }

    // Overwrites the fingerprint in a used slot.
    method OverwriteFingerprint(bucket: nat, slot: nat, position: nat, f: nat)
      requires TableHasBucket(storage[..], ShapeOf(geo), bucket)
      requires ValidTable(storage[..], ShapeOf(geo)) && InTable(storage[..], ShapeOf(geo), bucket)
      requires SlotUsed(storage[..], ShapeOf(geo), bucket, slot)
      requires position == ParamsOf(ShapeOf(geo), storage[..], bucket).bucketStart + slot
      modifies storage
      ensures storage[..] == Replaced(old(storage[..]), ShapeOf(geo), bucket, slot, f)
    {
      var k, i := BlockOf(bucket, ShapeOf(geo)), IndexOf(bucket, ShapeOf(geo));
      ghost var t := storage[..];
      BucketInside(t[k], i);
      hide Start;
      storage[k] := WriteFingerprint(storage[k], position, f);
      assert storage[..] == t[k := storage[k]];
    }

    // Sets the overflow bit of a fingerprint leaving a bucket.
    method SetOverflowStatus(bucket: nat, f: nat)
      requires Sound(geo) && IsFingerprint(geo.cfg, f)
      requires ValidTable(storage[..], ShapeOf(geo)) && InTable(storage[..], ShapeOf(geo), bucket)
      modifies storage
      ensures storage[..] == Marked(geo, old(storage[..]), bucket, f)
    {
      ghost var t := storage[..];
      OtaIndexInRange(geo, bucket, f);
      hide OtaIndex;
      var k := BlockOf(bucket, ShapeOf(geo));
      storage[k] := SetOverflow(storage[k], OtaIndex(geo, bucket, f));
      assert storage[..] == t[k := storage[k]];
    }

    // Stores in the bucket if both the bucket and its block have room.
    method FirstLevelStore(bucket: nat, f: nat) returns (ok: bool, sp: StoreParams)
      requires WellFormed(geo, storage[..]) && InTable(storage[..], ShapeOf(geo), bucket)
      modifies storage
      ensures TableHasBucket(old(storage[..]), ShapeOf(geo), bucket)
      ensures ValidTable(old(storage[..]), ShapeOf(geo))
      ensures sp == ParamsOf(ShapeOf(geo), old(storage[..]), bucket)
      ensures ok <==> HasRoom(old(storage[..]), ShapeOf(geo), bucket)
      ensures storage[..] == if ok then Stored(old(storage[..]), ShapeOf(geo), bucket, f) else old(storage[..])
    {
      ghost var t := storage[..];
      BucketOfTable(geo, t, bucket);
      RoomIs(geo, t, bucket);
      hide WellFormed, ValidTable, ValidBlock, Start, HasRoom, Store;
      var k, i := BlockOf(bucket, ShapeOf(geo)), IndexOf(bucket, ShapeOf(geo));
      var start := ReduceUpToIndex(storage[k], i);
      var elements := ReduceUpToIndex(storage[k], geo.cfg.bucketsPerBlock);
      sp := StoreParams(k, i, start, elements, storage[k].counters[i]);
      if elements == geo.cfg.maxFingerprints || sp.counterValue == geo.cfg.slotsPerBucket {
        return false, sp;
      }
      InsertFingerprint(bucket, start, f);
      return true, sp;
    }

    // Relocation on bucket overflow: the first fingerprint of the bucket that its
    // alternate bucket has room for moves there and leaves its slot to the new one.
    method TryRelocation(bucket: nat, f: nat, sp: StoreParams) returns (ok: bool, ghost slot: nat)
      requires WellFormed(geo, storage[..]) && InTable(storage[..], ShapeOf(geo), bucket)
      requires TableHasBucket(storage[..], ShapeOf(geo), bucket)
      requires sp == ParamsOf(ShapeOf(geo), storage[..], bucket)
      modifies storage
      ensures ok <==> BucketGives(geo, old(storage[..]), bucket)
      ensures ok <==> exists j: nat :: Movable(geo, old(storage[..]), bucket, j)
      ensures !ok ==> storage[..] == old(storage[..])
      ensures ok ==> MovedInBucket(geo, old(storage[..]), bucket, slot, f, storage[..])
    {
      hide *;
      ghost var t := storage[..];
      TableHas(geo, t, bucket);
      GivesIs(geo, t, bucket);
      slot := 0;
      for j := 0 to sp.counterValue
        invariant storage[..] == t
        invariant forall i: nat | i < j :: !Movable(geo, t, bucket, i)
      {
        SlotRead(geo, t, bucket, j);
        SlotLegal(geo, t, bucket, j);
        MovableIs(geo, t, bucket, j);
        var c := storage[sp.blockId].fps[sp.bucketStart + j];
        var a := Alternate(geo, bucket, c);
        var stored, ignored := FirstLevelStore(a, c);
        if stored {
          RelocatedInBucketIs(geo, t, bucket, j, f);
          OverwriteFingerprint(bucket, j, sp.bucketStart + j, f);
          SetOverflowStatus(bucket, c);
          MakeFirstInBucket(geo, t, bucket, j);
          MovedInBucketIs(geo, t, bucket, j, f);
          return true, j;
        }
      }
      forall i: nat
        ensures !Movable(geo, t, bucket, i)
      {
        MovableIs(geo, t, bucket, i);
        UsedIs(geo, t, bucket, i);
      }
      NoneInBucket(geo, t, bucket);
      return false, 0;
    }

    // Relocation on block overflow: the first fingerprint of the block that its
    // alternate bucket has room for moves there, and the new one is inserted into
    // its own bucket.
    method TryRelocationOnBlockOverflow(bucket: nat, f: nat, sp: StoreParams)
      returns (ok: bool, ghost from: nat, ghost slot: nat)
      requires WellFormed(geo, storage[..]) && InTable(storage[..], ShapeOf(geo), bucket)
      requires TableHasBucket(storage[..], ShapeOf(geo), bucket)
      requires sp == ParamsOf(ShapeOf(geo), storage[..], bucket)
      requires sp.counterValue != geo.cfg.slotsPerBucket
      modifies storage
      ensures ok <==> BlockGives(geo, old(storage[..]), bucket)
      ensures ok <==> exists e: nat, j: nat :: SameBlock(geo, bucket, e) && Movable(geo, old(storage[..]), e, j)
      ensures !ok ==> storage[..] == old(storage[..])
      ensures ok ==> MovedInBlock(geo, old(storage[..]), bucket, from, slot, f, storage[..])
    {
      hide *;
      ghost var t := storage[..];
      from, slot := bucket, 0;
      BlocksNotEmpty(geo, t);
      GivesIs(geo, t, bucket);
      var first := FirstBucket(bucket, geo.cfg.bucketsPerBlock);
      FirstBucketMeans(bucket, geo.cfg.bucketsPerBlock);
      forall x: nat | x < first
        ensures !SameBlock(geo, bucket, x)
      {
        SameBlockIs(geo, bucket, first, x);
      }
      for counterIndex := 0 to geo.cfg.bucketsPerBlock
        invariant storage[..] == t
        invariant forall x: nat, j: nat | x < first + counterIndex && SameBlock(geo, bucket, x) :: !Movable(geo, t, x, j)
      {
        var e := first + counterIndex;
        SiblingBucket(geo, t, bucket, counterIndex);
        var start := ReduceUpToIndex(storage[sp.blockId], counterIndex);
        var occupied := storage[sp.blockId].counters[counterIndex];
        for j := 0 to occupied
          invariant storage[..] == t
          invariant forall i: nat | i < j :: !Movable(geo, t, e, i)
        {
          SlotRead(geo, t, e, j);
          SlotLegal(geo, t, e, j);
          MovableIs(geo, t, e, j);
          var c := storage[sp.blockId].fps[start + j];
          var a := Alternate(geo, e, c);
          var stored, ignored := FirstLevelStore(a, c);
          if stored {
            RelocatedInBlockIs(geo, t, bucket, e, j, f);
            DeleteFingerprint(e, j, start + j, occupied);
            var newStart := if counterIndex < sp.counterIndex then sp.bucketStart - 1 else sp.bucketStart;
            InsertFingerprint(bucket, newStart, f);
            SetOverflowStatus(e, c);
            SameBlockIs(geo, bucket, first, e);
            MakeFirstInBlock(geo, t, bucket, e, j);
            MovedInBlockIs(geo, t, bucket, e, j, f);
            return true, e, j;
          }
        }
        NoneBefore(geo, t, bucket, first, e, occupied);
      }
      forall x: nat, j: nat | SameBlock(geo, bucket, x)
        ensures !Movable(geo, t, x, j)
      {
        SameBlockIs(geo, bucket, first, x);
      }
      NoneInBlock(geo, t, bucket);
      return false, bucket, 0;
    }

    // The kick-out loop: a chain of rounds that ends in a bucket with room, or
    // gives up the fingerprint in hand after the last of 300.
    method RandomKickoutCuckoo(start: nat, item: nat, ghost keys: multiset<Entry>)
      returns (ok: bool, ghost hand: Hand, ghost rounds: seq<Round>)
      requires Tracks(geo, storage[..], Carrying(start, item), keys)
      modifies storage
      ensures ok <==> hand == Empty
      ensures Tracks(geo, storage[..], hand, keys)
      ensures Kicked(geo, old(storage[..]), start, item, rounds, storage[..], hand)
    {
      hide *;
      var bucket, f := start, item;
      var maxCount, count := ROUNDS, 1;
      rounds := [Round(storage[..], start, item)];
      ChainOfOne(geo, rounds);
      while count <= maxCount
        invariant Tracks(geo, storage[..], Carrying(bucket, f), keys)
        invariant 1 <= count <= maxCount + 1 && |rounds| == count && Chain(geo, rounds)
        invariant rounds[0] == Round(old(storage[..]), start, item)
        invariant rounds[count - 1] == Round(storage[..], bucket, f)
      {
        ghost var t := storage[..];
        ghost var s := ShapeOf(geo);
        CarryingIsLegal(geo, t, bucket, f, keys);
        BucketOfTable(geo, t, bucket);
        RoomIs(geo, t, bucket);
        TableHas(geo, t, bucket);
        BucketFullIs(geo, t, bucket);
        var k, i := BlockOf(bucket, ShapeOf(geo)), IndexOf(bucket, ShapeOf(geo));
        var fullSlots := storage[k].counters[i];
        ValidBlockMeans(t[k], geo.cfg.slotsPerBucket, geo.cfg.maxFingerprints);
        var bucketStart := ReduceUpToIndex(storage[k], i);
        var load := ReduceUpToIndex(storage[k], geo.cfg.bucketsPerBlock);
        if fullSlots < geo.cfg.slotsPerBucket && load < geo.cfg.maxFingerprints {
          InsertFingerprint(bucket, bucketStart, f);
          StoreFlows(geo, t, bucket, f);
          FlowTracks(geo, t, Carrying(bucket, f), storage[..], Empty, [], keys);
          StoredInIs(geo, t, bucket, f, storage[..]);
          KickedStores(geo, rounds, storage[..]);
          return true, Empty, rounds;
        } else if fullSlots == geo.cfg.slotsPerBucket {
          var slot := geo.cfg.slotsPerBucket - 1;
          SlotRead(geo, t, bucket, slot);
          var f2 := storage[k].fps[bucketStart + slot];
          KickedFromBucketIs(geo, t, bucket, slot, f);
          KickFromBucketFlows(geo, t, bucket, slot, f);
          SetOverflowStatus(bucket, f2);
          OverwriteFingerprint(bucket, slot, bucketStart + slot, f);
          FlowTracks(geo, t, Carrying(bucket, f), storage[..], Carrying(Alternate(geo, bucket, f2), f2),
                     [(bucket, f2)], keys);
          KicksFull(geo, t, bucket, f, storage[..], f2);
          ChainGrows(geo, rounds, Round(storage[..], Alternate(geo, bucket, f2), f2));
          rounds := rounds + [Round(storage[..], Alternate(geo, bucket, f2), f2)];
          bucket := Alternate(geo, bucket, f2);
          f := f2;
        } else {
          SomeBucketFilled(t[k].counters, geo.cfg.bucketsPerBlock);
          var evict: nat :| evict < geo.cfg.bucketsPerBlock && storage[k].counters[evict] != 0;
          var evictCount := storage[k].counters[evict];
          var slot: nat :| slot < evictCount;
          var e := k * geo.cfg.bucketsPerBlock + evict;
          SiblingBucket(geo, t, bucket, evict);
          FirstBucketIs(bucket, geo.cfg.bucketsPerBlock, ShapeOf(geo));
          var evictStart := ReduceUpToIndex(storage[k], evict);
          SlotRead(geo, t, e, slot);
          var f3 := storage[k].fps[evictStart + slot];
          KickedFromBlockIs(geo, t, bucket, e, slot, f);
          KickFromBlockFlows(geo, t, bucket, e, slot, f);
          DeleteFingerprint(e, slot, evictStart + slot, evictCount);
          SetOverflowStatus(e, f3);
          bucketStart := if evict < i then bucketStart - 1 else bucketStart;
          InsertFingerprint(bucket, bucketStart, f);
          FlowTracks(geo, t, Carrying(bucket, f), storage[..], Carrying(Alternate(geo, e, f3), f3), [(e, f3)], keys);
          KicksOther(geo, t, bucket, f, e, slot, storage[..], f3);
          ChainGrows(geo, rounds, Round(storage[..], Alternate(geo, e, f3), f3));
          rounds := rounds + [Round(storage[..], Alternate(geo, e, f3), f3)];
          bucket := Alternate(geo, e, f3);
          f := f3;
        }
        count := count + 1;
      }
      KickedGivesUp(geo, rounds);
      return false, Carrying(bucket, f), rounds;
    }

    // Relocation in the primary block and bucket, then in the secondary ones,
    // then the kick-out loop from the primary bucket.
    method ResolveCollision(bucket: nat, secondary: nat, f: nat, c1: StoreParams, c2: StoreParams,
                            ghost keys: multiset<Entry>)
      returns (status: InsertStatus, ghost hand: Hand, ghost flows: seq<Entry>, ghost how: Placement)
      requires Tracks(geo, storage[..], Carrying(bucket, f), keys)
      requires Aligned(geo) && bucket < geo.totalBuckets && secondary == Alternate(geo, bucket, f)
      requires TableHasBucket(storage[..], ShapeOf(geo), bucket) && TableHasBucket(storage[..], ShapeOf(geo), secondary)
      requires c1 == ParamsOf(ShapeOf(geo), storage[..], bucket)
      requires c2 == ParamsOf(ShapeOf(geo), storage[..], secondary)
      modifies storage
      ensures status == PlacedInPrimaryBucket ==> Tracks(geo, storage[..], Empty, keys)
      ensures status == PlacedInSecondaryBucket ==>
                Flowed(geo, old(storage[..]), Carrying(secondary, f), storage[..], Empty, flows)
      ensures status == FailedToInsert ==> hand.Carrying? && Tracks(geo, storage[..], hand, keys)
      ensures Resolved(geo, old(storage[..]), bucket, secondary, f, how, status, storage[..], hand)
    {
      hide *;
      ghost var t := storage[..];
      hand, flows := Empty, [];
      CarryingIsLegal(geo, t, bucket, f, keys);
      LegalAlternate(geo, t, bucket, f);
      FullIs(geo, t, bucket, c1);
      FullIs(geo, t, secondary, c2);
      var ok;
      ghost var from, slot;
      if c1.counterValue != geo.cfg.slotsPerBucket {
        ok, from, slot := TryRelocationOnBlockOverflow(bucket, f, c1);
        if ok {
          MovedInBlockMeans(geo, t, bucket, from, slot, f, storage[..]);
          RelocateInBlockFlows(geo, t, bucket, from, slot, f);
          flows := [(from, SlotAt(t, ShapeOf(geo), from, slot))];
          FlowTracks(geo, t, Carrying(bucket, f), storage[..], Empty, flows, keys);
          how := BlockMove(false, from, slot);
          ByBlock(geo, t, bucket, secondary, false, from, slot, f, storage[..]);
          return PlacedInPrimaryBucket, hand, flows, how;
        }
      }
      ok, slot := TryRelocation(bucket, f, c1);
      if ok {
        MovedInBucketMeans(geo, t, bucket, slot, f, storage[..]);
        RelocateInBucketFlows(geo, t, bucket, slot, f);
        flows := [(bucket, SlotAt(t, ShapeOf(geo), bucket, slot))];
        FlowTracks(geo, t, Carrying(bucket, f), storage[..], Empty, flows, keys);
        how := BucketMove(false, slot);
        ByBucket(geo, t, bucket, secondary, false, slot, f, storage[..]);
        return PlacedInPrimaryBucket, hand, flows, how;
      }
      NothingMovesIs(geo, t, bucket);
      if c2.counterValue != geo.cfg.slotsPerBucket {
        ok, from, slot := TryRelocationOnBlockOverflow(secondary, f, c2);
        if ok {
          MovedInBlockMeans(geo, t, secondary, from, slot, f, storage[..]);
          RelocateInBlockFlows(geo, t, secondary, from, slot, f);
          flows := [(from, SlotAt(t, ShapeOf(geo), from, slot))];
          how := BlockMove(true, from, slot);
          ByBlock(geo, t, bucket, secondary, true, from, slot, f, storage[..]);
          return PlacedInSecondaryBucket, hand, flows, how;
        }
      }
      ok, slot := TryRelocation(secondary, f, c2);
      if ok {
        MovedInBucketMeans(geo, t, secondary, slot, f, storage[..]);
        RelocateInBucketFlows(geo, t, secondary, slot, f);
        flows := [(secondary, SlotAt(t, ShapeOf(geo), secondary, slot))];
        how := BucketMove(true, slot);
        ByBucket(geo, t, bucket, secondary, true, slot, f, storage[..]);
        return PlacedInSecondaryBucket, hand, flows, how;
      }
      NothingMovesIs(geo, t, secondary);
      ghost var rounds;
      ok, hand, rounds := RandomKickoutCuckoo(bucket, f, keys);
      how := KickOut(rounds);
      status := if ok then PlacedInPrimaryBucket else FailedToInsert;
      ByKicks(geo, t, bucket, secondary, f, rounds, status, storage[..], hand);
    }

    // First fit in the primary bucket, then in the secondary one, then
    // collision resolution; an entry placed by way of its secondary bucket is
    // recorded at its primary one.
    method TableStore(bucket: nat, f: nat, ghost keys: multiset<Entry>)
      returns (ok: bool, ghost hand: Hand, ghost how: Placement)
      requires Tracks(geo, storage[..], Carrying(bucket, f), keys)
      modifies storage
      ensures ok <==> hand == Empty
      ensures Tracks(geo, storage[..], hand, keys)
      ensures Aligned(geo) && bucket < geo.totalBuckets
      ensures Outcome(geo, old(storage[..]), bucket, Alternate(geo, bucket, f), f, how, storage[..], hand)
      ensures Roomy(geo, old(storage[..]), bucket) ==> ok && StoredIn(geo, old(storage[..]), bucket, f, storage[..])
      ensures !Roomy(geo, old(storage[..]), bucket) && Roomy(geo, old(storage[..]), Alternate(geo, bucket, f)) ==>
                ok && StoredVia(geo, old(storage[..]), Alternate(geo, bucket, f), bucket, f, storage[..])
    {
      hide *;
      ghost var t := storage[..];
      CarryingIsLegal(geo, t, bucket, f, keys);
      ghost var a := Alternate(geo, bucket, f);
      LegalAlternate(geo, t, bucket, f);
      RoomyMeans(geo, t, bucket);
      RoomyMeans(geo, t, a);
      BucketOfTable(geo, t, bucket);
      BucketOfTable(geo, t, a);
      var status1, c1 := FirstLevelStore(bucket, f);
      if status1 {
        StoreFlows(geo, t, bucket, f);
        FlowTracks(geo, t, Carrying(bucket, f), storage[..], Empty, [], keys);
        StoredInIs(geo, t, bucket, f, storage[..]);
        InPrimaryOutcome(geo, t, bucket, a, f, storage[..]);
        return true, Empty, InPrimary;
      }
      var secondary := Alternate(geo, bucket, f);
      var status2, c2 := FirstLevelStore(secondary, f);
      var status3 := FailedToInsert;
      ghost var flows: seq<Entry> := [];
      hand, how := Empty, InSecondary;
      if status2 {
        StoreFlows(geo, t, secondary, f);
        StoredInIs(geo, t, secondary, f, storage[..]);
      } else {
        status3, hand, flows, how := ResolveCollision(bucket, secondary, f, c1, c2, keys);
      }
      if status2 || status3 == PlacedInSecondaryBucket {
        ghost var u := storage[..];
        FlowedTables(geo, t, Carrying(secondary, f), u, Empty, flows, bucket);
        SetOverflowStatus(bucket, f);
        ViaSecondary(geo, t, u, bucket, f, flows);
        FlowTracks(geo, t, Carrying(bucket, f), storage[..], Empty, [(bucket, f)] + flows, keys);
        MarkedInIs(geo, u, bucket, f, storage[..]);
        if status2 {
          InSecondaryOutcome(geo, t, bucket, secondary, f, u, storage[..]);
        } else {
          ViaSecondaryOutcome(geo, t, bucket, secondary, f, how, u, hand, storage[..]);
        }
        return true, Empty, how;
      }
      PrimaryOutcome(geo, t, bucket, secondary, f, how, status3, storage[..], hand);
      ok := status3 != FailedToInsert;
    }

    // ----- keys -----

    // The primary bucket and the fingerprint of a key.
    function EntryOf(key: nat): Entry
      requires SoundConfig(geo.cfg) && geo.resizeCount <= geo.cfg.fingerprintBits
      reads this`geo
    {
      (MapToBucket(geo, geo.cfg.hash(key)), Fingerprint(geo.cfg, geo.cfg.hash(key)))
    }

    ghost predicate IsLive(key: nat)
      requires SoundConfig(geo.cfg) && geo.resizeCount <= geo.cfg.fingerprintBits
      reads this
    {
      EntryOf(key) in live
    }

    // Inserting makes the key live, and succeeds whenever a candidate bucket has
    // room; when the insertion fails, exactly one entry (of this or another key)
    // is lost.
    method Insert(key: nat) returns (ok: bool, ghost how: Placement, ghost hand: Hand)
      requires Valid() && SoundConfig(geo.cfg) && geo.resizeCount <= geo.cfg.fingerprintBits
      modifies this`live, storage
      ensures Valid()
      ensures ok ==> live == old(live) + multiset{EntryOf(key)}
      ensures !ok ==> exists lost | lost in old(live) + multiset{EntryOf(key)} ::
                live == old(live) + multiset{EntryOf(key)} - multiset{lost}
      ensures Aligned(geo) && EntryOf(key).0 < geo.totalBuckets && (ok <==> hand == Empty)
      ensures !ok ==> hand.Carrying? && hand.bucket < geo.totalBuckets
                      && live == old(live) + multiset{EntryOf(key)}
                                 - multiset{Charged(geo, old(live) + multiset{EntryOf(key)}, hand.bucket, hand.f)}
      ensures Outcome(geo, old(storage[..]), EntryOf(key).0, Twin(geo, EntryOf(key)).0, EntryOf(key).1,
                      how, storage[..], hand)
      ensures Roomy(geo, old(storage[..]), EntryOf(key).0) || Roomy(geo, old(storage[..]), Twin(geo, EntryOf(key)).0) ==> ok
    {
      hide *;
      ValidMeans();
      TracksSound(geo, storage[..], Empty, live);
      var raw := geo.cfg.hash(key);
      var f := Fingerprint(geo.cfg, raw);
      var primary := MapToBucket(geo, raw);
      EntryIs(key);
      HashFits(raw);
      MapToBucketLegal(geo, raw);
      Admit(geo, storage[..], live, primary, f);
      ghost var keys := live + multiset{(primary, f)};
      ok, hand, how := TableStore(primary, f, keys);
      TwinIs(geo, primary, f);
      if ok {
        live := keys;
      } else {
        CarryingIsLegal(geo, storage[..], hand.bucket, hand.f, keys);
        Drop(geo, storage[..], keys, hand.bucket, hand.f);
        live := keys - multiset{Charged(geo, keys, hand.bucket, hand.f)};
      }
      ValidMeans();
      EntryIs(key);
    }

    // Liveness before a step, for proofs that keep the definitions closed.
    twostate lemma OldIsLive(key: nat)
      requires old(SoundConfig(geo.cfg) && geo.resizeCount <= geo.cfg.fingerprintBits)
      ensures old(IsLive(key)) <==>
              (MapToBucket(old(geo), old(geo.cfg).hash(key)), Fingerprint(old(geo.cfg), old(geo.cfg).hash(key))) in old(live)
    {
      hide MapToBucket, Fingerprint;
    }

    lemma ValidMeans()
      ensures Valid() <==> Tracks(geo, storage[..], Empty, live)
    {
    }

    lemma EntryIs(key: nat)
      requires SoundConfig(geo.cfg) && geo.resizeCount <= geo.cfg.fingerprintBits
      ensures EntryOf(key) == (MapToBucket(geo, geo.cfg.hash(key)), Fingerprint(geo.cfg, geo.cfg.hash(key)))
    {
      hide MapToBucket, Fingerprint;
    }

    // The last matching slot of the bucket, or the number of slots per bucket.
    method ReturnSlotIdOnMatch(bucket: nat, bucketStart: nat, fullSlots: nat, f: nat) returns (match_: nat)
      requires WellFormed(geo, storage[..]) && InTable(storage[..], ShapeOf(geo), bucket)
      requires TableHasBucket(storage[..], ShapeOf(geo), bucket) && ValidTable(storage[..], ShapeOf(geo))
      requires var p := ParamsOf(ShapeOf(geo), storage[..], bucket);
               bucketStart == p.bucketStart && fullSlots == p.counterValue <= geo.cfg.slotsPerBucket
      ensures match_ == geo.cfg.slotsPerBucket || match_ < fullSlots
      ensures match_ != geo.cfg.slotsPerBucket <==> Copies(storage[..], ShapeOf(geo), bucket, f) > 0
      ensures match_ != geo.cfg.slotsPerBucket ==>
                && SlotUsed(storage[..], ShapeOf(geo), bucket, match_)
                && SlotAt(storage[..], ShapeOf(geo), bucket, match_) == f
                && forall j: nat | match_ < j < fullSlots && SlotUsed(storage[..], ShapeOf(geo), bucket, j) ::
                     SlotAt(storage[..], ShapeOf(geo), bucket, j) != f
    {
      hide *;
      ghost var t := storage[..];
      TableHas(geo, t, bucket);
      var k := BlockOf(bucket, ShapeOf(geo));
      match_ := geo.cfg.slotsPerBucket;
      for i := 0 to fullSlots
        invariant match_ == geo.cfg.slotsPerBucket || match_ < i
        invariant match_ != geo.cfg.slotsPerBucket ==> Copies(t, ShapeOf(geo), bucket, f) > 0
        invariant match_ != geo.cfg.slotsPerBucket ==>
                    && SlotUsed(t, ShapeOf(geo), bucket, match_) && SlotAt(t, ShapeOf(geo), bucket, match_) == f
                    && forall j: nat | match_ < j < i && SlotUsed(t, ShapeOf(geo), bucket, j) ::
                         SlotAt(t, ShapeOf(geo), bucket, j) != f
        invariant match_ == geo.cfg.slotsPerBucket ==>
                    forall j: nat | j < i && SlotUsed(t, ShapeOf(geo), bucket, j) :: SlotAt(t, ShapeOf(geo), bucket, j) != f
      {
        SlotRead(geo, t, bucket, i);
        if f == storage[k].fps[bucketStart + i] {
          SlotIsCopy(t, ShapeOf(geo), bucket, i);
          match_ := i;
        }
      }
      if match_ == geo.cfg.slotsPerBucket {
        NoSlotNoCopy(t, ShapeOf(geo), bucket, f);
      }
    }

    // A lookup in one bucket.
    method TableReadAndCompare(bucket: nat, f: nat) returns (found: bool)
      requires WellFormed(geo, storage[..]) && InTable(storage[..], ShapeOf(geo), bucket)
      ensures ValidTable(storage[..], ShapeOf(geo))
      ensures found <==> Copies(storage[..], ShapeOf(geo), bucket, f) > 0
    {
      hide *;
      ghost var t := storage[..];
      TableHas(geo, t, bucket);
      BucketOfTable(geo, t, bucket);
      BlocksNotEmpty(geo, t);
      var k, i := BlockOf(bucket, ShapeOf(geo)), IndexOf(bucket, ShapeOf(geo));
      ValidBlockMeans(t[k], geo.cfg.slotsPerBucket, geo.cfg.maxFingerprints);
      var start := ReduceUpToIndex(storage[k], i);
      var slot := ReturnSlotIdOnMatch(bucket, start, storage[k].counters[i], f);
      found := slot != geo.cfg.slotsPerBucket;
    }

    // Lookup: the alternate bucket is only read when the overflow bit is set.
    // No live key is ever missed.
    method LikelyContains(key: nat) returns (found: bool)
      requires Valid() && SoundConfig(geo.cfg) && geo.resizeCount <= geo.cfg.fingerprintBits
      ensures Aligned(geo) && EntryOf(key).0 < geo.totalBuckets
      ensures found <==> Contains(geo, storage[..], EntryOf(key).0, EntryOf(key).1)
                         || (Overflowed(geo, storage[..], EntryOf(key).0, EntryOf(key).1)
                             && Contains(geo, storage[..], Twin(geo, EntryOf(key)).0, EntryOf(key).1))
      ensures IsLive(key) ==> found
      ensures found ==> IsLive(key) || TwinIsLive(key)
    {
      hide *;
      ValidMeans();
      ghost var t := storage[..];
      TracksSound(geo, t, Empty, live);
      var raw := geo.cfg.hash(key);
      var f := Fingerprint(geo.cfg, raw);
      var primary := MapToBucket(geo, raw);
      EntryIs(key);
      IsLiveMeans(key);
      HashFits(raw);
      MapToBucketLegal(geo, raw);
      LegalIsInTable(geo, t, primary, f);
      LegalAlternate(geo, t, primary, f);
      TableHas(geo, t, primary);
      OtaIndexInRange(geo, primary, f);
      OverflowIs(geo, t, primary, f);
      OverflowedIs(geo, t, primary, f);
      ContainsIs(geo, t, primary, f);
      ContainsIs(geo, t, Alternate(geo, primary, f), f);
      var status1 := TableReadAndCompare(primary, f);
      var status2 := false;
      if storage[BlockOf(primary, ShapeOf(geo))].ota[OtaIndex(geo, primary, f)] {
        status2 := TableReadAndCompare(Alternate(geo, primary, f), f);
      }
      found := status1 || status2;
      if (primary, f) in live {
        LiveIsFound(geo, t, live, primary, f);
      }
      TwinIsLiveMeans(key);
      TwinIs(geo, primary, f);
      StoredExactly(geo, t, live, primary, f);
    }

    lemma IsLiveMeans(key: nat)
      requires SoundConfig(geo.cfg) && geo.resizeCount <= geo.cfg.fingerprintBits
      ensures IsLive(key) <==> EntryOf(key) in live
    {
      hide EntryOf;
    }

    // Deletes the first matching slot of the bucket.
    method TableDeleteItem(bucket: nat, f: nat) returns (ok: bool, ghost slot: nat)
      requires WellFormed(geo, storage[..]) && InTable(storage[..], ShapeOf(geo), bucket)
      modifies storage
      ensures ValidTable(old(storage[..]), ShapeOf(geo))
      ensures ok <==> Copies(old(storage[..]), ShapeOf(geo), bucket, f) > 0
      ensures !ok ==> storage[..] == old(storage[..])
      ensures ok ==> SlotUsed(old(storage[..]), ShapeOf(geo), bucket, slot)
                     && SlotAt(old(storage[..]), ShapeOf(geo), bucket, slot) == f
                     && storage[..] == Deleted(old(storage[..]), ShapeOf(geo), bucket, slot)
      ensures forall j: nat | j < slot && SlotUsed(old(storage[..]), ShapeOf(geo), bucket, j) ::
                SlotAt(old(storage[..]), ShapeOf(geo), bucket, j) != f
    {
      hide *;
      ghost var t := storage[..];
      TableHas(geo, t, bucket);
      BucketOfTable(geo, t, bucket);
      BlocksNotEmpty(geo, t);
      var k, i := BlockOf(bucket, ShapeOf(geo)), IndexOf(bucket, ShapeOf(geo));
      var fullSlots := storage[k].counters[i];
      slot := 0;
      if fullSlots == 0 {
        NoSlotNoCopy(t, ShapeOf(geo), bucket, f);
        return false, 0;
      }
      var bucketStart := ReduceUpToIndex(storage[k], i);
      var j := 0;
      while true
        invariant j < fullSlots && storage[..] == t
        invariant forall i: nat | i < j && SlotUsed(t, ShapeOf(geo), bucket, i) :: SlotAt(t, ShapeOf(geo), bucket, i) != f
        decreases fullSlots - j
      {
        SlotRead(geo, t, bucket, j);
        if f == storage[k].fps[bucketStart + j] {
          SlotIsCopy(t, ShapeOf(geo), bucket, j);
          DeleteFingerprint(bucket, j, bucketStart + j, fullSlots);
          return true, j;
        }
        j := j + 1;
        if j == fullSlots {
          break;
        }
      }
      NoSlotNoCopy(t, ShapeOf(geo), bucket, f);
      return false, 0;
    }

    // A key with the same fingerprint and swapped candidate buckets is live.
    ghost predicate TwinIsLive(key: nat)
      requires Valid() && SoundConfig(geo.cfg) && geo.resizeCount <= geo.cfg.fingerprintBits
      reads this, storage
    {
      HashFits(geo.cfg.hash(key));
      MapToBucketLegal(geo, geo.cfg.hash(key));
      Twin(geo, EntryOf(key)) in live
    }

    lemma TwinIsLiveMeans(key: nat)
      requires Valid() && SoundConfig(geo.cfg) && geo.resizeCount <= geo.cfg.fingerprintBits
      ensures Aligned(geo) && EntryOf(key).0 < geo.totalBuckets
      ensures TwinIsLive(key) <==> Twin(geo, EntryOf(key)) in live
    {
      HashFits(geo.cfg.hash(key));
      MapToBucketLegal(geo, geo.cfg.hash(key));
      TracksSound(geo, storage[..], Empty, live);
      hide Twin, Aligned, Tracks, MapToBucket, Fingerprint;
    }

    // Deletion. A live key ends, and nothing else changes. A key that is not
    // live is deleted exactly when its twin is live, and takes that away.
    method DeleteItem(key: nat) returns (ok: bool)
      requires Valid() && SoundConfig(geo.cfg) && geo.resizeCount <= geo.cfg.fingerprintBits
      modifies this`live, storage
      ensures Valid()
      ensures ok <==> old(IsLive(key)) || old(TwinIsLive(key))
      ensures old(IsLive(key)) ==> live == old(live) - multiset{EntryOf(key)}
      ensures ok && !old(IsLive(key)) ==>
                Aligned(geo) && EntryOf(key).0 < geo.totalBuckets && live == old(live) - multiset{Twin(geo, EntryOf(key))}
      ensures !ok ==> live == old(live) && storage[..] == old(storage[..])
      ensures Aligned(geo) && EntryOf(key).0 < geo.totalBuckets
      ensures Removal(geo, old(storage[..]), EntryOf(key).0, Twin(geo, EntryOf(key)).0, EntryOf(key).1, storage[..], ok)
    {
      hide *;
      ValidMeans();
      TwinIsLiveMeans(key);
      ghost var t := storage[..];
      TracksSound(geo, t, Empty, live);
      var raw := geo.cfg.hash(key);
      var f := Fingerprint(geo.cfg, raw);
      var primary := MapToBucket(geo, raw);
      EntryIs(key);
      IsLiveMeans(key);
      HashFits(raw);
      MapToBucketLegal(geo, raw);
      LegalIsInTable(geo, t, primary, f);
      LegalAlternate(geo, t, primary, f);
      var alternate := Alternate(geo, primary, f);
      TwinIs(geo, primary, f);
      StoredExactly(geo, t, live, primary, f);
      ContainsIs(geo, t, primary, f);
      ContainsIs(geo, t, alternate, f);
      ghost var slot;
      ghost var from := primary;
      ok, slot := TableDeleteItem(primary, f);
      if !ok {
        from := alternate;
        ok, slot := TableDeleteItem(alternate, f);
      }
      if ok {
        RemovedFromIs(geo, t, from, f, slot);
        DeletedTable(geo, t, from, slot);
        live := DeletionTracks(geo, t, storage[..], live, primary, f, from);
      }
      RemovalIs(geo, t, primary, alternate, f, storage[..], ok);
      ValidMeans();
      EntryIs(key);
    }

    // The entry of every key.
    ghost function EntryMap(): nat -> Entry
      requires SoundConfig(geo.cfg) && geo.resizeCount <= geo.cfg.fingerprintBits
      reads this`geo
    {
      Entries(geo)
    }

    lemma EntryMapIs(key: nat)
      requires SoundConfig(geo.cfg) && geo.resizeCount <= geo.cfg.fingerprintBits
      ensures EntryMap()(key) == EntryOf(key)
    {
      hide MapToBucket, Fingerprint;
    }

    method Apply(op: Operation) returns (ok: bool)
      requires Valid() && SoundConfig(geo.cfg) && geo.resizeCount <= geo.cfg.fingerprintBits
      modifies this`live, storage
      ensures Valid()
      ensures op.InsertKey? && ok ==> live == old(live) + multiset{EntryMap()(op.key)}
      ensures op.DeleteKey? && DeletesLive(EntryMap(), old(live), op) ==> live == After(EntryMap(), old(live), op)
      ensures |live| <= |old(live)| + 1
      ensures Applied(geo, EntryMap(), old(storage[..]), op, storage[..], ok)
    {
      hide *;
      ValidMeans();
      TracksSound(geo, storage[..], Empty, live);
      AfterIs(EntryMap(), live, op);
      DeletesLiveIs(EntryMap(), live, op);
      EntryMapIs(op.key);
      ghost var t := storage[..];
      match op
      case InsertKey(key) =>
        ghost var how, hand;
        ok, how, hand := Insert(key);
        InsertionIs(geo, t, EntryOf(key).0, Twin(geo, EntryOf(key)).0, EntryOf(key).1, storage[..], ok, how, hand);
        AppliedInsert(geo, EntryMap(), t, key, storage[..], ok);
      case DeleteKey(key) =>
        IsLiveMeans(key);
        ok := DeleteItem(key);
        AppliedDelete(geo, EntryMap(), t, key, storage[..], ok);
    }

    // Any run of insertions and of deletions of live keys: as long as every
    // insertion succeeds, exactly the expected keys are live, hence found.
    method Perform(ops: seq<Operation>) returns (ok: bool, ghost tables: seq<seq<Block>>, ghost oks: seq<bool>)
      requires Valid() && SoundConfig(geo.cfg) && geo.resizeCount <= geo.cfg.fingerprintBits
      modifies this`live, storage
      ensures Valid()
      ensures ok && DeletesOnlyLive(EntryMap(), old(live), ops) ==> live == LiveAfter(EntryMap(), old(live), ops)
      ensures |live| <= |old(live)| + |ops|
      ensures IsRun(geo, EntryMap(), ops, tables, oks)
      ensures tables[0] == old(storage[..]) && tables[|ops|] == storage[..]
      ensures ok <==> forall k: nat | k < |ops| && ops[k].InsertKey? :: oks[k]
    {
      hide *;
      ok := true;
      ghost var start := live;
      tables, oks := [storage[..]], [];
      RunOfNone(geo, EntryMap(), tables);
      LiveAfterNone(EntryMap(), start);
      DeletesNone(EntryMap(), start);
      assert ops[..0] == [];
      for i := 0 to |ops|
        invariant Valid()
        invariant ok && DeletesOnlyLive(EntryMap(), start, ops[..i]) ==> live == LiveAfter(EntryMap(), start, ops[..i])
        invariant |live| <= |start| + i
        invariant IsRun(geo, EntryMap(), ops[..i], tables, oks)
        invariant |tables| == i + 1 && |oks| == i && tables[0] == old(storage[..]) && tables[i] == storage[..]
        invariant ok <==> forall k: nat | k < i && ops[k].InsertKey? :: oks[k]
      {
        LiveAfterStep(EntryMap(), start, ops, i);
        DeletesStep(EntryMap(), start, ops, i);
        AfterIs(EntryMap(), live, ops[i]);
        var applied := Apply(ops[i]);
        RunGrows(geo, EntryMap(), ops, i, tables, oks, storage[..], applied);
        tables, oks := tables + [storage[..]], oks + [applied];
        ok := ok && (ops[i].DeleteKey? || applied);
      }
      assert ops[..|ops|] == ops;
      RunMeans(geo, EntryMap(), ops, tables, oks);
    }

    // After a run from an empty filter that deletes only present keys, every
    // key that is present is live, so that a lookup reports it.
    lemma PresentIsReported(ops: seq<Operation>, key: nat)
      requires SoundConfig(geo.cfg) && geo.resizeCount <= geo.cfg.fingerprintBits
      requires DeletesOnlyLive(EntryMap(), multiset{}, ops) ==> live == LiveAfter(EntryMap(), multiset{}, ops)
      requires DeletesPresent(ops) && key in Present(ops)
      ensures IsLive(key)
    {
      hide *;
      PresentDeletesLive(EntryMap(), ops);
      PresentIsLive(EntryMap(), ops, key);
      EntryMapIs(key);
      IsLiveMeans(key);
    }

    // After such a run a key or its twin is live, so that a lookup can report the
    // key, exactly when its hash agrees with that of a present key in the high bits
    // and in one of the two buckets.
    lemma LiveExactly(ops: seq<Operation>, key: nat)
      requires Valid() && SoundConfig(geo.cfg) && geo.resizeCount <= geo.cfg.fingerprintBits
      requires DeletesOnlyLive(EntryMap(), multiset{}, ops) ==> live == LiveAfter(EntryMap(), multiset{}, ops)
      requires DeletesPresent(ops)
      ensures Aligned(geo) && EntryOf(key).0 < geo.totalBuckets
      ensures IsLive(key) || TwinIsLive(key) <==>
              exists other: nat | other in Present(ops) ::
                && SameHigh(geo.cfg, geo.cfg.hash(key), geo.cfg.hash(other))
                && (EntryOf(other).0 == EntryOf(key).0 || EntryOf(other).0 == Twin(geo, EntryOf(key)).0)
    {
      hide *;
      SoundMeans(geo.cfg);
      PresentDeletesLive(EntryMap(), ops);
      LiveArePresent(EntryMap(), ops);
      IsLiveMeans(key);
      TwinIsLiveMeans(key);
      if EntryOf(key) in live || Twin(geo, EntryOf(key)) in live {
        var e := if EntryOf(key) in live then EntryOf(key) else Twin(geo, EntryOf(key));
        var other := EntryHasKey(EntryMap(), Present(ops), e);
        EntryMapIs(other);
        EntryAgrees(key, other);
      }
      forall other: nat | other in Present(ops) && SameHigh(geo.cfg, geo.cfg.hash(key), geo.cfg.hash(other))
                          && (EntryOf(other).0 == EntryOf(key).0 || EntryOf(other).0 == Twin(geo, EntryOf(key)).0)
        ensures EntryOf(key) in live || Twin(geo, EntryOf(key)) in live
      {
        KeyHasEntry(EntryMap(), Present(ops), other);
        EntryMapIs(other);
        EntryAgrees(key, other);
      }
    }

    lemma EntryAgrees(key: nat, other: nat)
      requires SoundConfig(geo.cfg) && geo.resizeCount <= geo.cfg.fingerprintBits
      requires Aligned(geo) && EntryOf(key).0 < geo.totalBuckets
      ensures EntryOf(other) == EntryOf(key) || EntryOf(other) == Twin(geo, EntryOf(key)) <==>
              && SameHigh(geo.cfg, geo.cfg.hash(key), geo.cfg.hash(other))
              && (EntryOf(other).0 == EntryOf(key).0 || EntryOf(other).0 == Twin(geo, EntryOf(key)).0)
    {
      SameFingerprintExactly(geo.cfg, geo.cfg.hash(key), geo.cfg.hash(other));
      EntryIs(key);
      EntryIs(other);
      TwinIs(geo, EntryOf(key).0, EntryOf(key).1);
      hide Twin, Alternate, Aligned, MapToBucket, Fingerprint, EntryOf, Pow2;
    }
  }

  // What one operation does to the table.
  ghost predicate Applied(g: Geometry, entry: nat -> Entry, t: seq<Block>, op: Operation, u: seq<Block>, ok: bool) {
    && Aligned(g) && entry(op.key).0 < g.totalBuckets
    && var (b, f) := entry(op.key);
       match op
       case InsertKey(_) => Insertion(g, t, b, Alternate(g, b, f), f, u, ok)
       case DeleteKey(_) => Removal(g, t, b, Alternate(g, b, f), f, u, ok)
  }

  // The tables of a run, one operation after the other.
  ghost predicate IsRun(g: Geometry, entry: nat -> Entry, ops: seq<Operation>, tables: seq<seq<Block>>, oks: seq<bool>) {
    && |tables| == |ops| + 1 && |oks| == |ops|
    && forall k: nat | k < |ops| :: Applied(g, entry, tables[k], ops[k], tables[k + 1], oks[k])
  }

  lemma {:induction false} AppliedInsert(g: Geometry, entry: nat -> Entry, t: seq<Block>, key: nat, u: seq<Block>, ok: bool)
    requires Aligned(g) && entry(key).0 < g.totalBuckets
    requires Insertion(g, t, entry(key).0, Twin(g, entry(key)).0, entry(key).1, u, ok)
    ensures Applied(g, entry, t, InsertKey(key), u, ok)
  {
    hide Insertion, Aligned, Alternate;
  }

  lemma {:induction false} AppliedDelete(g: Geometry, entry: nat -> Entry, t: seq<Block>, key: nat, u: seq<Block>, ok: bool)
    requires Aligned(g) && entry(key).0 < g.totalBuckets
    requires Removal(g, t, entry(key).0, Twin(g, entry(key)).0, entry(key).1, u, ok)
    ensures Applied(g, entry, t, DeleteKey(key), u, ok)
  {
    hide Removal, Aligned, Alternate;
  }

  lemma {:induction false} RunOfNone(g: Geometry, entry: nat -> Entry, tables: seq<seq<Block>>)
    requires |tables| == 1
    ensures IsRun(g, entry, [], tables, [])
  {
  }

  lemma {:induction false} RunMeans(g: Geometry, entry: nat -> Entry, ops: seq<Operation>, tables: seq<seq<Block>>,
                                    oks: seq<bool>)
    requires IsRun(g, entry, ops, tables, oks)
    ensures |tables| == |ops| + 1 && |oks| == |ops|
  {
    hide Applied;
  }

  lemma {:induction false} RunGrows(g: Geometry, entry: nat -> Entry, ops: seq<Operation>, i: nat,
                                    tables: seq<seq<Block>>, oks: seq<bool>, u: seq<Block>, ok: bool)
    requires i < |ops| && IsRun(g, entry, ops[..i], tables, oks) && |tables| == i + 1
    requires Applied(g, entry, tables[i], ops[i], u, ok)
    ensures IsRun(g, entry, ops[..i + 1], tables + [u], oks + [ok])
  {
    hide Applied;
    var more, all := tables + [u], oks + [ok];
    forall k: nat | k < i + 1
      ensures Applied(g, entry, more[k], ops[..i + 1][k], more[k + 1], all[k])
    {
      if k < i {
        assert Applied(g, entry, tables[k], ops[..i][k], tables[k + 1], oks[k]);
      }
    }
  }

  ghost function Entries(g: Geometry): nat -> Entry
    requires SoundConfig(g.cfg) && g.resizeCount <= g.cfg.fingerprintBits
  {
    (key: nat) => (MapToBucket(g, g.cfg.hash(key)), Fingerprint(g.cfg, g.cfg.hash(key)))
  }

  lemma {:induction false} SoundMeans(cfg: Config)
    requires SoundConfig(cfg)
    ensures cfg.slotsPerBucket > 0 && cfg.bucketsPerBlock > 0 && cfg.otaBits > 0
    ensures cfg.fingerprintBits <= HASH_BITS
  {
  }

  // No fingerprint is stored, no bucket counts one, and no overflow is recorded.
  ghost predicate IsClear(b: Block) {
    && b.fps == []
    && (forall i: nat | i < |b.counters| :: b.counters[i] == 0)
    && (forall i: nat | i < |b.ota| :: !b.ota[i])
  }

  lemma EmptyIsClear(cfg: Config)
    ensures IsClear(EmptyBlock(cfg))
  {
  }

  // An empty table tracks no keys.
  lemma {:induction false} EmptyTracks(g: Geometry, t: seq<Block>)
    requires SoundConfig(g.cfg) && g.resizeCount == 0 && g.totalBuckets % 2 == 0
    requires |t| * g.cfg.bucketsPerBlock == g.totalBuckets && g.totalBuckets % g.cfg.bucketsPerBlock == 0
    requires MaxOffset(g.cfg) + g.cfg.bucketsPerBlock <= g.totalBuckets
    requires forall k | 0 <= k < |t| :: t[k] == EmptyBlock(g.cfg)
    ensures Tracks(g, t, Empty, multiset{})
  {
    UnresizedIsOriginal0(g);
    hide Start, Alternate, OtaIndex, Copies, MaxOffset, Tracks, EmptyBlock;
    NothingTracks(g, t);
  }

  lemma {:induction false} NothingTracks(g: Geometry, t: seq<Block>)
    requires Sound(g) && |t| * g.cfg.bucketsPerBlock == g.totalBuckets
    requires forall k | 0 <= k < |t| :: t[k] == EmptyBlock(g.cfg)
    ensures Tracks(g, t, Empty, multiset{})
  {
    hide Start, Alternate, OtaIndex, Copies, MaxOffset;
    var s := ShapeOf(g);
    EmptyStart(g.cfg, g.cfg.bucketsPerBlock);
    assert ValidTable(t, s);
    forall b: nat, f: nat | InTable(t, s, b)
      ensures Copies(t, s, b, f) == 0
    {
      EmptyCopies(g, t, b, f);
    }
    assert WellFormed(g, t);
    forall b: nat, f: nat | Legal(g, b, f)
      ensures Balanced(g, t, Empty, multiset{}, b, f)
    {
      EmptyBalanced(g, t, b, f);
    }
  }

  lemma {:induction false} UnresizedIsOriginal0(g: Geometry)
    requires g.resizeCount == 0
    ensures OriginalTotal(g) == g.totalBuckets && Pow2(g.resizeCount) == 1
  {
  }

  lemma {:induction false} EmptyStart(cfg: Config, i: nat)
    requires i <= cfg.bucketsPerBlock
    ensures Start(EmptyBlock(cfg).counters, i) == 0
  {
    if i > 0 {
      EmptyStart(cfg, i - 1);
    }
  }

  lemma {:induction false} EmptyCopies(g: Geometry, t: seq<Block>, b: nat, f: nat)
    requires ValidTable(t, ShapeOf(g)) && InTable(t, ShapeOf(g), b)
    requires forall k | 0 <= k < |t| :: t[k] == EmptyBlock(g.cfg)
    ensures Copies(t, ShapeOf(g), b, f) == 0
  {
    hide Start;
    assert Bucket(t[BlockOf(b, ShapeOf(g))], IndexOf(b, ShapeOf(g))) == [];
  }

  lemma {:induction false} EmptyBalanced(g: Geometry, t: seq<Block>, b: nat, f: nat)
    requires WellFormed(g, t) && Aligned(g) && Legal(g, b, f)
    requires forall k | 0 <= k < |t| :: t[k] == EmptyBlock(g.cfg)
    ensures Balanced(g, t, Empty, multiset{}, b, f)
  {
    hide *;
    BalancedMeans(g, t, Empty, multiset{}, b, f);
    HeldIs(g, t, Empty, b, f);
    HeldIs(g, t, Empty, Alternate(g, b, f), f);
    EmptyCopies(g, t, b, f);
    EmptyCopies(g, t, Alternate(g, b, f), f);
  }

  lemma {:induction false} GivesIs(g: Geometry, t: seq<Block>, b: nat)
    ensures BucketGives(g, t, b) <==> exists j: nat :: Movable(g, t, b, j)
    ensures BlockGives(g, t, b) <==> exists e: nat, j: nat :: SameBlock(g, b, e) && Movable(g, t, e, j)
  {
    hide Movable, SameBlock;
  }

  lemma {:induction false} MovedInBucketIs(g: Geometry, t: seq<Block>, b: nat, slot: nat, f: nat)
    requires FirstInBucket(g, t, b, slot)
    ensures Movable(g, t, b, slot) && MovedInBucket(g, t, b, slot, f, RelocatedInBucket(g, t, b, slot, f))
  {
    hide Movable, RelocatedInBucket;
  }

  lemma {:induction false} MovedInBlockIs(g: Geometry, t: seq<Block>, b: nat, e: nat, slot: nat, f: nat)
    requires FirstInBlock(g, t, b, e, slot) && ValidTable(t, ShapeOf(g)) && SharesBlock(g, t, b, e)
    ensures Movable(g, t, e, slot) && MovedInBlock(g, t, b, e, slot, f, RelocatedInBlock(g, t, b, e, slot, f))
  {
    hide Movable, RelocatedInBlock, ValidTable, SharesBlock, SameBlock;
  }

  // One more bucket of the block has been searched in vain.
  lemma {:induction false} NoneBefore(g: Geometry, t: seq<Block>, b: nat, first: nat, e: nat, occupied: nat)
    requires WellFormed(g, t) && ValidTable(t, ShapeOf(g)) && InTable(t, ShapeOf(g), e) && TableHasBucket(t, ShapeOf(g), e)
    requires occupied == ParamsOf(ShapeOf(g), t, e).counterValue
    requires forall x: nat, j: nat | x < e && SameBlock(g, b, x) :: !Movable(g, t, x, j)
    requires forall i: nat | i < occupied :: !Movable(g, t, e, i)
    ensures forall x: nat, j: nat | x < e + 1 && SameBlock(g, b, x) :: !Movable(g, t, x, j)
  {
    hide *;
    TableHas(g, t, e);
    forall j: nat
      ensures !Movable(g, t, e, j)
    {
      MovableIs(g, t, e, j);
      UsedIs(g, t, e, j);
    }
  }

  lemma {:induction false} FirstBucketMeans(bucket: nat, b: nat)
    requires b > 0
    ensures FirstBucket(bucket, b) == bucket - bucket % b
  {
  }

  lemma {:induction false} FullIs(g: Geometry, t: seq<Block>, b: nat, p: StoreParams)
    requires WellFormed(g, t) && InTable(t, ShapeOf(g), b) && TableHasBucket(t, ShapeOf(g), b)
    requires p == ParamsOf(ShapeOf(g), t, b)
    ensures BucketFull(g, t, b) <==> p.counterValue == g.cfg.slotsPerBucket
  {
    hide *;
    TableHas(g, t, b);
    BucketFullIs(g, t, b);
  }

  // The first bucket of the block of a bucket.
  function FirstBucket(bucket: nat, b: nat): nat
    requires b > 0
  {
    DivMod(bucket, b);
    DivNonNeg(bucket, b);
    MulNonNeg(bucket / b, b);
    bucket - bucket % b
  }

  lemma {:induction false} BlocksNotEmpty(g: Geometry, t: seq<Block>)
    requires WellFormed(g, t)
    ensures Sound(g) && Aligned(g) && SoundConfig(g.cfg) && g.cfg.bucketsPerBlock > 0 && g.cfg.slotsPerBucket > 0
  {
  }

  // Every bucket of the block shares it with the given one.
  lemma {:induction false} SiblingBucket(g: Geometry, t: seq<Block>, bucket: nat, i: nat)
    requires WellFormed(g, t) && InTable(t, ShapeOf(g), bucket) && TableHasBucket(t, ShapeOf(g), bucket)
    requires i < g.cfg.bucketsPerBlock
    ensures var s := ShapeOf(g); var e := FirstBucket(bucket, g.cfg.bucketsPerBlock) + i;
            && TableHasBucket(t, s, e) && InTable(t, s, e)
            && BlockOf(e, s) == BlockOf(bucket, s) && IndexOf(e, s) == i
            && ParamsOf(s, t, bucket).blockId < |t|
            && ParamsOf(s, t, bucket).counterIndex == IndexOf(bucket, s)
            && i < |t[ParamsOf(s, t, bucket).blockId].counters| == g.cfg.bucketsPerBlock
            && Start(t[ParamsOf(s, t, bucket).blockId].counters, g.cfg.bucketsPerBlock) < 256
            && ParamsOf(s, t, e).blockId == ParamsOf(s, t, bucket).blockId
            && ParamsOf(s, t, e).bucketStart == Start(t[ParamsOf(s, t, bucket).blockId].counters, i)
            && ParamsOf(s, t, e).counterValue == t[ParamsOf(s, t, bucket).blockId].counters[i]
            && (ParamsOf(s, t, bucket).counterValue != g.cfg.slotsPerBucket ==>
                  ValidTable(t, s) && SharesBlock(g, t, bucket, e))
  {
    var b := g.cfg.bucketsPerBlock;
    var e := FirstBucket(bucket, b) + i;
    DivMod(bucket, b);
    DivModUnique(e, b, bucket / b, i);
    BucketOfTable(g, t, bucket);
    hide Start, WellFormed;
  }

  lemma {:induction false} RoomIs(g: Geometry, t: seq<Block>, bucket: nat)
    requires WellFormed(g, t) && InTable(t, ShapeOf(g), bucket)
    ensures var s := ShapeOf(g); var k := BlockOf(bucket, s); var i := IndexOf(bucket, s);
            ValidTable(t, s) && k < |t| && i < |t[k].counters|
            && (HasRoom(t, s, bucket) <==> |t[k].fps| != g.cfg.maxFingerprints
                                           && t[k].counters[i] != g.cfg.slotsPerBucket)
  {
    BucketOfTable(g, t, bucket);
    hide Start, WellFormed;
  }

  // Reading a slot by its position in the fingerprint array.
  lemma {:induction false} SlotRead(g: Geometry, t: seq<Block>, bucket: nat, slot: nat)
    requires WellFormed(g, t) && InTable(t, ShapeOf(g), bucket) && TableHasBucket(t, ShapeOf(g), bucket)
    requires slot < ParamsOf(ShapeOf(g), t, bucket).counterValue
    ensures var s := ShapeOf(g); var p := ParamsOf(s, t, bucket);
            && p.blockId < |t| && p.bucketStart + slot < |t[p.blockId].fps|
            && ValidTable(t, s) && SlotUsed(t, s, bucket, slot)
            && SlotAt(t, s, bucket, slot) == t[p.blockId].fps[p.bucketStart + slot]
  {
    BucketOfTable(g, t, bucket);
    BucketIs(t[BlockOf(bucket, ShapeOf(g))], IndexOf(bucket, ShapeOf(g)));
    hide Start, WellFormed, ValidTable;
  }

  // The relocated table step by step, with the positions used by the writes.
  lemma {:induction false} RelocatedInBucketIs(g: Geometry, t: seq<Block>, b: nat, slot: nat, f: nat)
    requires WellFormed(g, t) && Sound(g) && ValidTable(t, ShapeOf(g)) && InTable(t, ShapeOf(g), b)
    requires SlotUsed(t, ShapeOf(g), b, slot) && b < g.totalBuckets && TableHasBucket(t, ShapeOf(g), b)
    requires InTable(t, ShapeOf(g), Alternate(g, b, SlotAt(t, ShapeOf(g), b, slot)))
    requires HasRoom(t, ShapeOf(g), Alternate(g, b, SlotAt(t, ShapeOf(g), b, slot)))
    ensures Movable(g, t, b, slot)
    ensures var s := ShapeOf(g); var c := SlotAt(t, s, b, slot);
            var t1 := Stored(t, s, Alternate(g, b, c), c);
            && IsFingerprint(g.cfg, c)
            && TableHasBucket(t1, s, b) && ValidTable(t1, s) && InTable(t1, s, b) && SlotUsed(t1, s, b, slot)
            && ParamsOf(s, t1, b) == ParamsOf(s, t, b)
            && var t2 := Replaced(t1, s, b, slot, f);
            && ValidTable(t2, s) && InTable(t2, s, b)
            && RelocatedInBucket(g, t, b, slot, f) == Marked(g, t2, b, c)
  {
    var s := ShapeOf(g);
    SlotLegal(g, t, b, slot);
    var c := SlotAt(t, s, b, slot);
    StoredElsewhere(g, t, Alternate(g, b, c), c, b, slot);
    ReplacedDelta(Stored(t, s, Alternate(g, b, c), c), s, b, slot, f);
    hide Start, WellFormed, ValidTable, Alternate, Bucket, HasRoom, Sound, Store, Replace, Marked, SlotAt;
  }

  lemma {:induction false} RelocatedInBlockIs(g: Geometry, t: seq<Block>, b: nat, e: nat, slot: nat, f: nat)
    requires WellFormed(g, t) && Sound(g) && ValidTable(t, ShapeOf(g)) && SharesBlock(g, t, b, e)
    requires InTable(t, ShapeOf(g), e)
    requires SlotUsed(t, ShapeOf(g), e, slot) && e < g.totalBuckets
    requires TableHasBucket(t, ShapeOf(g), e) && TableHasBucket(t, ShapeOf(g), b)
    requires InTable(t, ShapeOf(g), Alternate(g, e, SlotAt(t, ShapeOf(g), e, slot)))
    requires HasRoom(t, ShapeOf(g), Alternate(g, e, SlotAt(t, ShapeOf(g), e, slot)))
    ensures Movable(g, t, e, slot)
    ensures var s := ShapeOf(g); var c := SlotAt(t, s, e, slot);
            var t1 := Stored(t, s, Alternate(g, e, c), c);
            && IsFingerprint(g.cfg, c)
            && TableHasBucket(t1, s, e) && ValidTable(t1, s) && InTable(t1, s, e) && SlotUsed(t1, s, e, slot)
            && ParamsOf(s, t1, e) == ParamsOf(s, t, e)
            && var t2 := Deleted(t1, s, e, slot);
            && TableHasBucket(t2, s, b) && ValidTable(t2, s) && InTable(t2, s, b)
            && (if IndexOf(e, s) < IndexOf(b, s) then ParamsOf(s, t, b).bucketStart > 0 else true)
            && ParamsOf(s, t2, b).bucketStart
               == ParamsOf(s, t, b).bucketStart - (if IndexOf(e, s) < IndexOf(b, s) then 1 else 0)
            && var t3 := Stored(t2, s, b, f);
            && ValidTable(t3, s) && InTable(t3, s, e)
            && RelocatedInBlock(g, t, b, e, slot, f) == Marked(g, t3, e, c)
  {
    var s := ShapeOf(g);
    SlotLegal(g, t, e, slot);
    var c := SlotAt(t, s, e, slot);
    var a := Alternate(g, e, c);
    StoredElsewhere(g, t, a, c, e, slot);
    CounterKept(g, t, a, c, b);
    var t1 := Stored(t, s, a, c);
    RoomAfterDelete(g, t1, e, slot, b);
    var t2 := Deleted(t1, s, e, slot);
    StoredDelta(t2, s, b, f);
    DeltaInTable(t2, Stored(t2, s, b, f), s, multiset{(b, f)}, multiset{}, e);
    StartAfterDelete(t1[BlockOf(e, s)], IndexOf(e, s), slot, IndexOf(b, s));
    hide Start, WellFormed, ValidTable, Alternate, Bucket, HasRoom, Sound, Store, Delete, Marked, SlotAt, Delta;
  }

  lemma {:induction false} StartAfterDelete(b: Block, e: nat, slot: nat, i: nat)
    requires e < |b.counters| && i < |b.counters| && Start(b.counters, |b.counters|) == |b.fps|
    requires slot < b.counters[e]
    ensures |Delete(b, e, slot).counters| == |b.counters|
    ensures Start(Delete(b, e, slot).counters, i) == Start(b.counters, i) - if e < i then 1 else 0
    ensures e < i ==> Start(b.counters, i) > 0
  {
    DeleteFields(b, e, slot);
    StartUpdate(b.counters, e, b.counters[e] - 1, i);
    hide Start, Delete;
  }

  // ----- facts used by the kick-out loop -----

  lemma {:induction false} CarryingIsLegal(g: Geometry, t: seq<Block>, b: nat, f: nat, keys: multiset<Entry>)
    requires Tracks(g, t, Carrying(b, f), keys)
    ensures WellFormed(g, t) && Sound(g) && Aligned(g) && SoundConfig(g.cfg) && Legal(g, b, f)
    ensures b < g.totalBuckets && IsFingerprint(g.cfg, f) && InTable(t, ShapeOf(g), b)
    ensures g.cfg.slotsPerBucket > 0 && g.cfg.maxFingerprints > 0 && g.cfg.bucketsPerBlock > 0
    ensures ShapeOf(g).bucketsPerBlock == g.cfg.bucketsPerBlock
  {
    InTableIsLegal(g, t, b);
    hide ValidTable, OriginalTotal, Pow2, Copies, Balanced;
  }

  lemma {:induction false} TableHas(g: Geometry, t: seq<Block>, bucket: nat)
    requires WellFormed(g, t) && InTable(t, ShapeOf(g), bucket)
    ensures var s := ShapeOf(g);
            && TableHasBucket(t, s, bucket) && ValidTable(t, s)
            && ParamsOf(s, t, bucket)
               == StoreParams(BlockOf(bucket, s), IndexOf(bucket, s),
                              Start(t[BlockOf(bucket, s)].counters, IndexOf(bucket, s)),
                              |t[BlockOf(bucket, s)].fps|,
                              t[BlockOf(bucket, s)].counters[IndexOf(bucket, s)])
  {
    BucketOfTable(g, t, bucket);
    hide Start, WellFormed, ValidTable;
  }

  lemma {:induction false} ValidBlockMeans(b: Block, slots: nat, capacity: nat)
    requires ValidBlock(b, slots, capacity)
    ensures forall i | 0 <= i < |b.counters| :: b.counters[i] <= slots
    ensures Start(b.counters, |b.counters|) == |b.fps| <= capacity
  {
    hide Start;
  }

  lemma {:induction false} SomeBucketFilled(counters: seq<nat>, n: nat)
    requires n <= |counters| && Start(counters, n) > 0
    ensures exists i: nat | i < n :: counters[i] != 0
  {
    if counters[n - 1] == 0 {
      SomeBucketFilled(counters, n - 1);
      var i: nat :| i < n - 1 && counters[i] != 0;
    }
  }

  lemma {:induction false} FirstBucketIs(bucket: nat, b: nat, s: Shape)
    requires b > 0 && s.bucketsPerBlock == b
    ensures FirstBucket(bucket, b) == BlockOf(bucket, s) * b
  {
    DivMod(bucket, b);
  }

  lemma {:induction false} KickedFromBucketIs(g: Geometry, t: seq<Block>, b: nat, slot: nat, f: nat)
    requires WellFormed(g, t) && InTable(t, ShapeOf(g), b) && ValidTable(t, ShapeOf(g))
    requires SlotUsed(t, ShapeOf(g), b, slot) && TableHasBucket(t, ShapeOf(g), b)
    ensures Sound(g) && Aligned(g) && b < g.totalBuckets
    ensures var s := ShapeOf(g); var c := SlotAt(t, s, b, slot);
            && IsFingerprint(g.cfg, c)
            && var t1 := Marked(g, t, b, c);
            && TableHasBucket(t1, s, b) && ValidTable(t1, s) && InTable(t1, s, b) && SlotUsed(t1, s, b, slot)
            && ParamsOf(s, t1, b) == ParamsOf(s, t, b)
            && KickedFromBucket(g, t, b, slot, f) == Replaced(t1, s, b, slot, f)
  {
    var s := ShapeOf(g);
    SlotLegal(g, t, b, slot);
    var c := SlotAt(t, s, b, slot);
    MarkedKeepsSlots(g, t, b, c, b, slot);
    hide Start, WellFormed, ValidTable, Alternate, Bucket, Sound, Replace, OtaIndex, SlotAt;
  }

  lemma {:induction false} KickedFromBlockIs(g: Geometry, t: seq<Block>, b: nat, e: nat, slot: nat, f: nat)
    requires WellFormed(g, t) && ValidTable(t, ShapeOf(g)) && SharesBlock(g, t, b, e)
    requires InTable(t, ShapeOf(g), e) && SlotUsed(t, ShapeOf(g), e, slot)
    requires TableHasBucket(t, ShapeOf(g), e) && TableHasBucket(t, ShapeOf(g), b)
    ensures Sound(g) && Aligned(g) && e < g.totalBuckets
    ensures var s := ShapeOf(g); var c := SlotAt(t, s, e, slot);
            && IsFingerprint(g.cfg, c)
            && var t1 := Deleted(t, s, e, slot);
            && ValidTable(t1, s) && InTable(t1, s, e)
            && var t2 := Marked(g, t1, e, c);
            && TableHasBucket(t2, s, b) && ValidTable(t2, s) && InTable(t2, s, b)
            && (IndexOf(e, s) < IndexOf(b, s) ==> ParamsOf(s, t, b).bucketStart > 0)
            && ParamsOf(s, t2, b).bucketStart
               == ParamsOf(s, t, b).bucketStart - (if IndexOf(e, s) < IndexOf(b, s) then 1 else 0)
            && KickedFromBlock(g, t, b, e, slot, f) == Stored(t2, s, b, f)
  {
    var s := ShapeOf(g);
    SlotLegal(g, t, e, slot);
    var c := SlotAt(t, s, e, slot);
    RoomAfterDelete(g, t, e, slot, b);
    var t1 := Deleted(t, s, e, slot);
    MarkedKeepsRoom(g, t1, e, c, b);
    StartAfterDelete(t[BlockOf(e, s)], IndexOf(e, s), slot, IndexOf(b, s));
    hide Start, WellFormed, ValidTable, Alternate, Bucket, HasRoom, Sound, Store, Delete, SlotAt, Delta, OtaIndex;
  }

  lemma {:induction false} LegalAlternate(g: Geometry, t: seq<Block>, b: nat, f: nat)
    requires WellFormed(g, t) && Aligned(g) && Legal(g, b, f) && b < g.totalBuckets
    ensures Legal(g, Alternate(g, b, f), f) && InTable(t, ShapeOf(g), Alternate(g, b, f))
    ensures Alternate(g, b, f) < g.totalBuckets
  {
    AlternateInvolution(g, b, f);
    InTableIsLegal(g, t, Alternate(g, b, f));
    hide Alternate, ValidTable, Copies;
  }

  lemma {:induction false} FlowedTables(g: Geometry, t: seq<Block>, hand: Hand, u: seq<Block>, hand2: Hand,
                                        flows: seq<Entry>, b: nat)
    requires Aligned(g) && Flowed(g, t, hand, u, hand2, flows) && b < g.totalBuckets
    ensures WellFormed(g, u) && ValidTable(u, ShapeOf(g)) && InTable(u, ShapeOf(g), b)
  {
    InTableIsLegal(g, u, b);
    hide Legal, ValidTable, Copies, OtaKept, HeldFlows;
  }

  // ----- facts used by lookup and deletion -----

  // The entry with the same fingerprint and swapped candidate buckets.
  ghost function Twin(g: Geometry, e: Entry): Entry
    requires Aligned(g) && e.0 < g.totalBuckets
  {
    (Alternate(g, e.0, e.1), e.1)
  }

  lemma {:induction false} TwinIs(g: Geometry, b: nat, f: nat)
    requires Aligned(g) && b < g.totalBuckets
    ensures Twin(g, (b, f)) == (Alternate(g, b, f), f)
  {
    hide Alternate;
  }

  lemma {:induction false} DeletedTable(g: Geometry, t: seq<Block>, b: nat, slot: nat)
    requires WellFormed(g, t) && ValidTable(t, ShapeOf(g)) && InTable(t, ShapeOf(g), b) && SlotUsed(t, ShapeOf(g), b, slot)
    ensures var u := Deleted(t, ShapeOf(g), b, slot);
            && WellFormed(g, u) && ValidTable(u, ShapeOf(g)) && |t| == |u| && OtaKept(t, u)
            && CopiesChanged(t, u, ShapeOf(g), b, SlotAt(t, ShapeOf(g), b, slot), -1)
  {
    DeletedDelta(t, ShapeOf(g), b, slot);
    StaysWellFormed(g, t, Deleted(t, ShapeOf(g), b, slot), multiset{}, multiset{(b, SlotAt(t, ShapeOf(g), b, slot))});
    DeleteInTable(t, ShapeOf(g), b, slot);
    hide Start, Copies, Delete, Bucket, Legal, Sound, ValidBlock, BitsKept, CopiesChanged;
  }

  // What a deletion from one of the candidate buckets does to the live keys.
  ghost method DeletionTracks(g: Geometry, t: seq<Block>, u: seq<Block>, live: multiset<Entry>,
                              b: nat, f: nat, from: nat) returns (less: multiset<Entry>)
    requires Tracks(g, t, Empty, live) && Aligned(g) && Legal(g, b, f) && b < g.totalBuckets
    requires WellFormed(g, u) && OtaKept(t, u) && |t| == |u|
    requires ValidTable(t, ShapeOf(g)) && ValidTable(u, ShapeOf(g)) && InTable(t, ShapeOf(g), b)
    requires CopiesChanged(t, u, ShapeOf(g), from, f, -1)
    requires from == b || (from == Alternate(g, b, f) && Copies(t, ShapeOf(g), b, f) == 0)
    ensures Tracks(g, u, Empty, less)
    ensures (b, f) in live ==> less == live - multiset{(b, f)}
    ensures (b, f) !in live ==> Twin(g, (b, f)) in live && less == live - multiset{Twin(g, (b, f))}
  {
    hide *;
    if (b, f) in live {
      RemoveLive(g, t, u, live, b, f, from);
      less := live - multiset{(b, f)};
    } else {
      TracksSound(g, t, Empty, live);
      LegalAlternate(g, t, b, f);
      AlternateInvolution(g, b, f);
      PickUp(g, t, u, live, from, f);
      Drop(g, u, live, from, f);
      ChargedIs(g, live, from, f);
      less := live - multiset{Charged(g, live, from, f)};
      TwinIs(g, b, f);
    }
  }

  lemma {:induction false} LegalIsInTable(g: Geometry, t: seq<Block>, b: nat, f: nat)
    requires WellFormed(g, t) && Aligned(g) && Legal(g, b, f)
    ensures Sound(g) && ValidTable(t, ShapeOf(g)) && InTable(t, ShapeOf(g), b)
    ensures b < g.totalBuckets && IsFingerprint(g.cfg, f)
  {
    InTableIsLegal(g, t, b);
    hide ValidTable, Copies;
  }

  lemma {:induction false} TracksSound(g: Geometry, t: seq<Block>, hand: Hand, keys: multiset<Entry>)
    requires Tracks(g, t, hand, keys)
    ensures WellFormed(g, t) && Sound(g) && Aligned(g) && SoundConfig(g.cfg)
    ensures g.resizeCount <= g.cfg.fingerprintBits <= HASH_BITS
  {
    hide ValidTable, Copies, Legal, Balanced;
  }

  lemma {:induction false} OverflowIs(g: Geometry, t: seq<Block>, b: nat, f: nat)
    requires Sound(g) && ValidTable(t, ShapeOf(g)) && InTable(t, ShapeOf(g), b) && IsFingerprint(g.cfg, f)
    ensures BlockOf(b, ShapeOf(g)) < |t| && OtaIndex(g, b, f) < |t[BlockOf(b, ShapeOf(g))].ota|
    ensures OverflowSet(g, t, b, f) == t[BlockOf(b, ShapeOf(g))].ota[OtaIndex(g, b, f)]
  {
    OtaIndexInRange(g, b, f);
    hide OtaIndex;
  }

  lemma {:induction false} NoSlotNoCopy(t: seq<Block>, s: Shape, bucket: nat, f: nat)
    requires ValidTable(t, s) && InTable(t, s, bucket)
    requires forall j: nat | j < t[BlockOf(bucket, s)].counters[IndexOf(bucket, s)] && SlotUsed(t, s, bucket, j) ::
               SlotAt(t, s, bucket, j) != f
    ensures Copies(t, s, bucket, f) == 0
  {
    var q := Bucket(t[BlockOf(bucket, s)], IndexOf(bucket, s));
    forall j: nat | j < |q|
      ensures q[j] != f
    {
      assert SlotUsed(t, s, bucket, j);
      assert SlotAt(t, s, bucket, j) == q[j];
    }
    assert f !in q;
  }
}
