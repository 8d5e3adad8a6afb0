/** Where an insertion into a Morton filter puts a fingerprint: in its primary or
    its secondary bucket if one has room, else by the first relocation that the
    searches find, else by a chain of kick-outs. Together with the random choices
    of the chain this fixes the table that an insertion leaves. */
module MortonPlacement {
  import opened Arith
  import opened MortonGeometry
  import opened MortonTable
  import opened MortonInvariant
  import opened MortonSteps

  // ----- room -----

  ghost predicate Roomy(g: Geometry, t: seq<Block>, b: nat) {
    ValidTable(t, ShapeOf(g)) && InTable(t, ShapeOf(g), b) && HasRoom(t, ShapeOf(g), b)
  }

  // All logical slots of the bucket are used.
  ghost predicate BucketFull(g: Geometry, t: seq<Block>, b: nat) {
    && ValidTable(t, ShapeOf(g)) && InTable(t, ShapeOf(g), b)
    && t[BlockOf(b, ShapeOf(g))].counters[IndexOf(b, ShapeOf(g))] == g.cfg.slotsPerBucket
  }

  ghost predicate StoredIn(g: Geometry, t: seq<Block>, b: nat, f: nat, u: seq<Block>) {
    Roomy(g, t, b) && u == Stored(t, ShapeOf(g), b, f)
  }

  ghost predicate MarkedIn(g: Geometry, t: seq<Block>, b: nat, f: nat, u: seq<Block>) {
    && Sound(g) && ValidTable(t, ShapeOf(g)) && InTable(t, ShapeOf(g), b) && IsFingerprint(g.cfg, f)
    && u == Marked(g, t, b, f)
  }

  // ----- relocation -----

  // Some fingerprint of the bucket has room in its alternate bucket.
  ghost predicate BucketGives(g: Geometry, t: seq<Block>, b: nat) {
    exists slot: nat :: Movable(g, t, b, slot)
  }

  // The search of a bucket ends at its first such fingerprint.
  ghost predicate FirstInBucket(g: Geometry, t: seq<Block>, b: nat, slot: nat) {
    Movable(g, t, b, slot) && forall j: nat | j < slot :: !Movable(g, t, b, j)
  }

  ghost predicate SameBlock(g: Geometry, b: nat, e: nat) {
    g.cfg.bucketsPerBlock > 0 && BlockOf(b, ShapeOf(g)) == BlockOf(e, ShapeOf(g))
  }

  // Some fingerprint of the block has room in its alternate bucket.
  ghost predicate BlockGives(g: Geometry, t: seq<Block>, b: nat) {
    exists e: nat, slot: nat :: SameBlock(g, b, e) && Movable(g, t, e, slot)
  }

  // The search of a block ends at its first such fingerprint, bucket by bucket.
  ghost predicate FirstInBlock(g: Geometry, t: seq<Block>, b: nat, e: nat, slot: nat) {
    && SameBlock(g, b, e) && Movable(g, t, e, slot)
    && (forall x: nat, j: nat | x < e && SameBlock(g, b, x) :: !Movable(g, t, x, j))
    && forall j: nat | j < slot :: !Movable(g, t, e, j)
  }

  ghost predicate MovedInBucket(g: Geometry, t: seq<Block>, b: nat, slot: nat, f: nat, u: seq<Block>) {
    FirstInBucket(g, t, b, slot) && u == RelocatedInBucket(g, t, b, slot, f)
  }

  ghost predicate MovedInBlock(g: Geometry, t: seq<Block>, b: nat, e: nat, slot: nat, f: nat, u: seq<Block>) {
    && FirstInBlock(g, t, b, e, slot) && ValidTable(t, ShapeOf(g)) && SharesBlock(g, t, b, e)
    && u == RelocatedInBlock(g, t, b, e, slot, f)
  }

  // Neither search by way of this bucket finds anything. The block is searched
  // only if the bucket itself is not full.
  ghost predicate NothingMoves(g: Geometry, t: seq<Block>, b: nat) {
    (BucketFull(g, t, b) || !BlockGives(g, t, b)) && !BucketGives(g, t, b)
  }

  // ----- kick-outs -----

  const ROUNDS: nat := 300

  // The table at the start of a round of the chain and the fingerprint in hand.
  datatype Round = Round(table: seq<Block>, bucket: nat, f: nat)

  // The last slot of a full bucket is kicked out.
  ghost predicate KicksFromBucket(g: Geometry, r: Round, next: Round) {
    && WellFormed(g, r.table) && BucketFull(g, r.table, r.bucket)
    && g.cfg.slotsPerBucket > 0 && r.bucket < g.totalBuckets && Aligned(g)
    && SlotUsed(r.table, ShapeOf(g), r.bucket, g.cfg.slotsPerBucket - 1)
    && next.f == SlotAt(r.table, ShapeOf(g), r.bucket, g.cfg.slotsPerBucket - 1)
    && next.bucket == Alternate(g, r.bucket, next.f)
    && next.table == KickedFromBucket(g, r.table, r.bucket, g.cfg.slotsPerBucket - 1, r.f)
  }

  // The bucket is not full but its block is: some slot of the block is.
  ghost predicate KicksFromBlock(g: Geometry, r: Round, next: Round, e: nat, slot: nat) {
    && WellFormed(g, r.table) && ValidTable(r.table, ShapeOf(g)) && InTable(r.table, ShapeOf(g), r.bucket)
    && !HasRoom(r.table, ShapeOf(g), r.bucket) && !BucketFull(g, r.table, r.bucket)
    && SharesBlock(g, r.table, r.bucket, e) && SlotUsed(r.table, ShapeOf(g), e, slot)
    && e < g.totalBuckets && Aligned(g)
    && next.f == SlotAt(r.table, ShapeOf(g), e, slot)
    && next.bucket == Alternate(g, e, next.f)
    && next.table == KickedFromBlock(g, r.table, r.bucket, e, slot, r.f)
  }

  ghost predicate Kicks(g: Geometry, r: Round, next: Round) {
    KicksFromBucket(g, r, next) || exists e: nat, slot: nat :: KicksFromBlock(g, r, next, e, slot)
  }

  // Each round finds no room and kicks out the fingerprint of the next one.
  ghost predicate Chain(g: Geometry, rounds: seq<Round>) {
    forall k: nat | k + 1 < |rounds| :: Kicks(g, rounds[k], rounds[k + 1])
  }

  // A chain from the given start: it ends with a store into a bucket with room,
  // or gives up the fingerprint in hand after all rounds.
  ghost predicate Kicked(g: Geometry, t: seq<Block>, b: nat, f: nat, rounds: seq<Round>, u: seq<Block>, hand: Hand) {
    && rounds != [] && rounds[0] == Round(t, b, f) && Chain(g, rounds)
    && var last := rounds[|rounds| - 1];
       if hand == Empty then |rounds| <= ROUNDS && StoredIn(g, last.table, last.bucket, last.f, u)
       else |rounds| == ROUNDS + 1 && u == last.table && hand == Carrying(last.bucket, last.f)
  }

  lemma ChainGrows(g: Geometry, rounds: seq<Round>, next: Round)
    requires rounds != [] && Chain(g, rounds) && Kicks(g, rounds[|rounds| - 1], next)
    ensures Chain(g, rounds + [next])
  {
    hide Kicks;
    var more := rounds + [next];
    forall k: nat | k + 1 < |more|
      ensures Kicks(g, more[k], more[k + 1])
    {
      if k + 1 < |rounds| {
        assert Kicks(g, rounds[k], rounds[k + 1]);
      }
    }
  }

  // No round of a chain but the last finds room.
  lemma ChainFindsNoRoom(g: Geometry, rounds: seq<Round>, k: nat)
    requires Chain(g, rounds) && k + 1 < |rounds|
    ensures !Roomy(g, rounds[k].table, rounds[k].bucket)
  {
    assert Kicks(g, rounds[k], rounds[k + 1]);
    hide KickedFromBucket, KickedFromBlock, Alternate, SlotAt, WellFormed, Aligned, Start;
  }

  lemma KicksFull(g: Geometry, t: seq<Block>, b: nat, f: nat, u: seq<Block>, f2: nat)
    requires WellFormed(g, t) && BucketFull(g, t, b) && ValidTable(t, ShapeOf(g)) && InTable(t, ShapeOf(g), b)
    requires g.cfg.slotsPerBucket > 0 && b < g.totalBuckets && Aligned(g)
    requires SlotUsed(t, ShapeOf(g), b, g.cfg.slotsPerBucket - 1)
    requires f2 == SlotAt(t, ShapeOf(g), b, g.cfg.slotsPerBucket - 1)
    requires u == KickedFromBucket(g, t, b, g.cfg.slotsPerBucket - 1, f)
    ensures Kicks(g, Round(t, b, f), Round(u, Alternate(g, b, f2), f2))
  {
    hide WellFormed, BucketFull, ValidTable, Aligned, SlotUsed, SlotAt, KickedFromBucket, Alternate, KicksFromBlock;
  }

  lemma KicksOther(g: Geometry, t: seq<Block>, b: nat, f: nat, e: nat, slot: nat, u: seq<Block>, f3: nat)
    requires WellFormed(g, t) && ValidTable(t, ShapeOf(g)) && InTable(t, ShapeOf(g), b)
    requires !HasRoom(t, ShapeOf(g), b) && !BucketFull(g, t, b)
    requires SharesBlock(g, t, b, e) && InTable(t, ShapeOf(g), e) && SlotUsed(t, ShapeOf(g), e, slot)
    requires e < g.totalBuckets && Aligned(g)
    requires f3 == SlotAt(t, ShapeOf(g), e, slot) && u == KickedFromBlock(g, t, b, e, slot, f)
    ensures Kicks(g, Round(t, b, f), Round(u, Alternate(g, e, f3), f3))
  {
    hide WellFormed, BucketFull, ValidTable, Aligned, SlotUsed, SlotAt, KickedFromBlock, Alternate, HasRoom,
      SharesBlock, KicksFromBucket;
    assert KicksFromBlock(g, Round(t, b, f), Round(u, Alternate(g, e, f3), f3), e, slot);
  }

  // ----- what the searches find out slot by slot -----

  lemma MovableIs(g: Geometry, t: seq<Block>, e: nat, slot: nat)
    requires WellFormed(g, t) && ValidTable(t, ShapeOf(g)) && InTable(t, ShapeOf(g), e)
    ensures Movable(g, t, e, slot) ==> SlotUsed(t, ShapeOf(g), e, slot)
    ensures SlotUsed(t, ShapeOf(g), e, slot) ==>
              && Sound(g) && Aligned(g) && e < g.totalBuckets
              && InTable(t, ShapeOf(g), Alternate(g, e, SlotAt(t, ShapeOf(g), e, slot)))
              && (Movable(g, t, e, slot) <==> HasRoom(t, ShapeOf(g), Alternate(g, e, SlotAt(t, ShapeOf(g), e, slot))))
  {
    if SlotUsed(t, ShapeOf(g), e, slot) {
      SlotLegal(g, t, e, slot);
    }
    hide WellFormed, ValidTable, Alternate, HasRoom, SlotAt, Sound, Legal, IsFingerprint;
  }

  lemma UsedIs(g: Geometry, t: seq<Block>, e: nat, slot: nat)
    requires ValidTable(t, ShapeOf(g)) && InTable(t, ShapeOf(g), e)
    ensures BlockOf(e, ShapeOf(g)) < |t| && IndexOf(e, ShapeOf(g)) < |t[BlockOf(e, ShapeOf(g))].counters|
    ensures SlotUsed(t, ShapeOf(g), e, slot) <==> slot < t[BlockOf(e, ShapeOf(g))].counters[IndexOf(e, ShapeOf(g))]
  {
    hide ValidBlock;
  }

  // The buckets of a block are consecutive.
  lemma SameBlockIs(g: Geometry, b: nat, first: nat, x: nat)
    requires g.cfg.bucketsPerBlock > 0 && first == b - b % g.cfg.bucketsPerBlock
    ensures SameBlock(g, b, x) <==> first <= x < first + g.cfg.bucketsPerBlock
  {
    var n := g.cfg.bucketsPerBlock;
    DivMod(b, n);
    DivMod(x, n);
    if first <= x < first + n {
      DivModUnique(x, n, b / n, x - first);
    }
  }

  lemma MakeFirstInBlock(g: Geometry, t: seq<Block>, b: nat, e: nat, slot: nat)
    requires SameBlock(g, b, e) && Movable(g, t, e, slot)
    requires forall x: nat, j: nat | x < e && SameBlock(g, b, x) :: !Movable(g, t, x, j)
    requires forall j: nat | j < slot :: !Movable(g, t, e, j)
    ensures FirstInBlock(g, t, b, e, slot) && BlockGives(g, t, b)
  {
    hide Movable, SameBlock;
  }

  lemma MakeFirstInBucket(g: Geometry, t: seq<Block>, b: nat, slot: nat)
    requires Movable(g, t, b, slot) && forall j: nat | j < slot :: !Movable(g, t, b, j)
    ensures FirstInBucket(g, t, b, slot) && BucketGives(g, t, b)
  {
    hide Movable;
  }

  lemma NoneInBucket(g: Geometry, t: seq<Block>, b: nat)
    requires forall j: nat :: !Movable(g, t, b, j)
    ensures !BucketGives(g, t, b)
  {
    hide Movable;
  }

  lemma NoneInBlock(g: Geometry, t: seq<Block>, b: nat)
    requires forall x: nat, j: nat | SameBlock(g, b, x) :: !Movable(g, t, x, j)
    ensures !BlockGives(g, t, b)
  {
    hide Movable, SameBlock;
  }

  lemma BucketFullIs(g: Geometry, t: seq<Block>, b: nat)
    requires ValidTable(t, ShapeOf(g)) && InTable(t, ShapeOf(g), b)
    ensures BlockOf(b, ShapeOf(g)) < |t| && IndexOf(b, ShapeOf(g)) < |t[BlockOf(b, ShapeOf(g))].counters|
    ensures BucketFull(g, t, b)
            <==> t[BlockOf(b, ShapeOf(g))].counters[IndexOf(b, ShapeOf(g))] == g.cfg.slotsPerBucket
  {
    hide ValidBlock;
  }

  lemma StoredInIs(g: Geometry, t: seq<Block>, b: nat, f: nat, u: seq<Block>)
    requires ValidTable(t, ShapeOf(g)) && InTable(t, ShapeOf(g), b) && HasRoom(t, ShapeOf(g), b)
    requires BlockOf(b, ShapeOf(g)) < |t| && IndexOf(b, ShapeOf(g)) < |t[BlockOf(b, ShapeOf(g))].counters|
    requires Start(t[BlockOf(b, ShapeOf(g))].counters, |t[BlockOf(b, ShapeOf(g))].counters|) == |t[BlockOf(b, ShapeOf(g))].fps|
    requires u == Stored(t, ShapeOf(g), b, f)
    ensures StoredIn(g, t, b, f, u)
  {
    hide ValidTable, HasRoom, Start, Store;
  }

  // ----- the outcome of an insertion -----

  datatype Placement =
    | InPrimary
    | InSecondary
    | BlockMove(secondary: bool, from: nat, slot: nat)
    | BucketMove(secondary: bool, slot: nat)
    | KickOut(rounds: seq<Round>)

  ghost predicate Crowded(g: Geometry, t: seq<Block>, b: nat, a: nat) {
    !Roomy(g, t, b) && !Roomy(g, t, a)
  }

  // From table t, with bucket b and alternate bucket a, to table u.
  ghost predicate Outcome(g: Geometry, t: seq<Block>, b: nat, a: nat, f: nat,
                          how: Placement, u: seq<Block>, hand: Hand)
  {
    match how
    case InPrimary => hand == Empty && StoredIn(g, t, b, f, u)
    case InSecondary => hand == Empty && !Roomy(g, t, b) && StoredVia(g, t, a, b, f, u)
    case BlockMove(false, from, slot) =>
      && hand == Empty && Crowded(g, t, b, a) && !BucketFull(g, t, b)
      && MovedInBlock(g, t, b, from, slot, f, u)
    case BucketMove(false, slot) =>
      && hand == Empty && Crowded(g, t, b, a) && (BucketFull(g, t, b) || !BlockGives(g, t, b))
      && MovedInBucket(g, t, b, slot, f, u)
    case BlockMove(true, from, slot) =>
      && hand == Empty && Crowded(g, t, b, a) && NothingMoves(g, t, b) && !BucketFull(g, t, a)
      && FirstInBlock(g, t, a, from, slot) && ValidTable(t, ShapeOf(g)) && SharesBlock(g, t, a, from)
      && MarkedIn(g, RelocatedInBlock(g, t, a, from, slot, f), b, f, u)
    case BucketMove(true, slot) =>
      && hand == Empty && Crowded(g, t, b, a) && NothingMoves(g, t, b)
      && (BucketFull(g, t, a) || !BlockGives(g, t, a))
      && FirstInBucket(g, t, a, slot)
      && MarkedIn(g, RelocatedInBucket(g, t, a, slot, f), b, f, u)
    case KickOut(rounds) =>
      && Crowded(g, t, b, a) && NothingMoves(g, t, b) && NothingMoves(g, t, a)
      && Kicked(g, t, b, f, rounds, u, hand)
  }

  // Stored in the secondary bucket and recorded at the primary one.
  ghost predicate StoredVia(g: Geometry, t: seq<Block>, a: nat, b: nat, f: nat, u: seq<Block>) {
    Roomy(g, t, a) && MarkedIn(g, Stored(t, ShapeOf(g), a, f), b, f, u)
  }

  // An insertion fails only when neither bucket has room, no relocation is
  // possible, and all rounds of the chain have found no room.
  lemma FailsOnly(g: Geometry, t: seq<Block>, b: nat, a: nat, f: nat, how: Placement, u: seq<Block>, hand: Hand)
    requires Outcome(g, t, b, a, f, how, u, hand) && hand != Empty
    ensures Crowded(g, t, b, a) && NothingMoves(g, t, b) && NothingMoves(g, t, a)
    ensures how.KickOut? && |how.rounds| == ROUNDS + 1
    ensures forall k: nat | k < ROUNDS :: !Roomy(g, how.rounds[k].table, how.rounds[k].bucket)
  {
    hide Crowded, NothingMoves, Chain, Roomy;
    if how.KickOut? {
      forall k: nat | k < ROUNDS
        ensures !Roomy(g, how.rounds[k].table, how.rounds[k].bucket)
      {
        ChainFindsNoRoom(g, how.rounds, k);
      }
    }
  }

  // With room, or with a fingerprint to move, an insertion succeeds.
  lemma Succeeds(g: Geometry, t: seq<Block>, b: nat, a: nat, f: nat, how: Placement, u: seq<Block>, hand: Hand)
    requires Outcome(g, t, b, a, f, how, u, hand)
    ensures Roomy(g, t, b) || Roomy(g, t, a) ==> hand == Empty
    ensures BucketGives(g, t, b) || BucketGives(g, t, a) ==> hand == Empty
    ensures Roomy(g, t, b) ==> how == InPrimary && StoredIn(g, t, b, f, u)
    ensures !Roomy(g, t, b) && Roomy(g, t, a) ==> how == InSecondary && StoredVia(g, t, a, b, f, u)
  {
    hide BlockGives, BucketGives, Roomy, Kicked, FirstInBlock, FirstInBucket, SharesBlock, MarkedIn, BucketFull,
      MovedInBlock, MovedInBucket, Stored;
  }

  // ----- between collision resolution and the outcome -----

  datatype InsertStatus = FailedToInsert | PlacedInPrimaryBucket | PlacedInSecondaryBucket

  // What collision resolution leaves, before an overflow is recorded for a
  // fingerprint placed by way of its secondary bucket.
  ghost predicate Resolved(g: Geometry, t: seq<Block>, b: nat, a: nat, f: nat, how: Placement, status: InsertStatus,
                           u: seq<Block>, hand: Hand)
  {
    match how
    case BlockMove(false, from, slot) =>
      && status == PlacedInPrimaryBucket && hand == Empty
      && !BucketFull(g, t, b) && MovedInBlock(g, t, b, from, slot, f, u)
    case BucketMove(false, slot) =>
      && status == PlacedInPrimaryBucket && hand == Empty
      && (BucketFull(g, t, b) || !BlockGives(g, t, b)) && MovedInBucket(g, t, b, slot, f, u)
    case BlockMove(true, from, slot) =>
      && status == PlacedInSecondaryBucket && hand == Empty && NothingMoves(g, t, b)
      && !BucketFull(g, t, a) && MovedInBlock(g, t, a, from, slot, f, u)
    case BucketMove(true, slot) =>
      && status == PlacedInSecondaryBucket && hand == Empty && NothingMoves(g, t, b)
      && (BucketFull(g, t, a) || !BlockGives(g, t, a)) && MovedInBucket(g, t, a, slot, f, u)
    case KickOut(rounds) =>
      && status == (if hand == Empty then PlacedInPrimaryBucket else FailedToInsert)
      && NothingMoves(g, t, b) && NothingMoves(g, t, a) && Kicked(g, t, b, f, rounds, u, hand)
    case _ => false
  }

  lemma ByBlock(g: Geometry, t: seq<Block>, b: nat, a: nat, secondary: bool, from: nat, slot: nat, f: nat, u: seq<Block>)
    requires !BucketFull(g, t, if secondary then a else b)
    requires MovedInBlock(g, t, if secondary then a else b, from, slot, f, u)
    requires secondary ==> NothingMoves(g, t, b)
    ensures Resolved(g, t, b, a, f, BlockMove(secondary, from, slot),
                     if secondary then PlacedInSecondaryBucket else PlacedInPrimaryBucket, u, Empty)
  {
    hide MovedInBlock, BucketFull, NothingMoves;
  }

  lemma ByBucket(g: Geometry, t: seq<Block>, b: nat, a: nat, secondary: bool, slot: nat, f: nat, u: seq<Block>)
    requires BucketFull(g, t, if secondary then a else b) || !BlockGives(g, t, if secondary then a else b)
    requires MovedInBucket(g, t, if secondary then a else b, slot, f, u)
    requires secondary ==> NothingMoves(g, t, b)
    ensures Resolved(g, t, b, a, f, BucketMove(secondary, slot),
                     if secondary then PlacedInSecondaryBucket else PlacedInPrimaryBucket, u, Empty)
  {
    hide MovedInBucket, BucketFull, NothingMoves, BlockGives;
  }

  lemma ByKicks(g: Geometry, t: seq<Block>, b: nat, a: nat, f: nat, rounds: seq<Round>, status: InsertStatus,
                u: seq<Block>, hand: Hand)
    requires status == (if hand == Empty then PlacedInPrimaryBucket else FailedToInsert)
    requires NothingMoves(g, t, b) && NothingMoves(g, t, a) && Kicked(g, t, b, f, rounds, u, hand)
    ensures Resolved(g, t, b, a, f, KickOut(rounds), status, u, hand)
  {
    hide Kicked, NothingMoves;
  }

  lemma NothingMovesIs(g: Geometry, t: seq<Block>, b: nat)
    ensures NothingMoves(g, t, b) <==> (BucketFull(g, t, b) || !BlockGives(g, t, b)) && !BucketGives(g, t, b)
  {
    hide BucketFull, BlockGives, BucketGives;
  }

  lemma InPrimaryOutcome(g: Geometry, t: seq<Block>, b: nat, a: nat, f: nat, u: seq<Block>)
    requires StoredIn(g, t, b, f, u)
    ensures Outcome(g, t, b, a, f, InPrimary, u, Empty)
  {
    hide StoredIn;
  }

  lemma InSecondaryOutcome(g: Geometry, t: seq<Block>, b: nat, a: nat, f: nat, u: seq<Block>, w: seq<Block>)
    requires !Roomy(g, t, b) && Roomy(g, t, a) && StoredIn(g, t, a, f, u) && MarkedIn(g, u, b, f, w)
    ensures Outcome(g, t, b, a, f, InSecondary, w, Empty) && StoredVia(g, t, a, b, f, w)
  {
    hide Roomy, MarkedIn, Stored;
  }

  lemma ViaSecondaryOutcome(g: Geometry, t: seq<Block>, b: nat, a: nat, f: nat, how: Placement,
                            u: seq<Block>, hand: Hand, w: seq<Block>)
    requires !Roomy(g, t, b) && !Roomy(g, t, a) && MarkedIn(g, u, b, f, w)
    requires Resolved(g, t, b, a, f, how, PlacedInSecondaryBucket, u, hand)
    ensures Outcome(g, t, b, a, f, how, w, Empty)
  {
    hide Roomy, MarkedIn, BucketFull, NothingMoves, BlockGives, FirstInBlock, FirstInBucket, ValidTable, SharesBlock,
      RelocatedInBlock, RelocatedInBucket;
  }

  lemma PrimaryOutcome(g: Geometry, t: seq<Block>, b: nat, a: nat, f: nat, how: Placement, status: InsertStatus,
                       u: seq<Block>, hand: Hand)
    requires !Roomy(g, t, b) && !Roomy(g, t, a) && status != PlacedInSecondaryBucket
    requires Resolved(g, t, b, a, f, how, status, u, hand)
    ensures Outcome(g, t, b, a, f, how, u, hand)
    ensures status == FailedToInsert <==> hand != Empty
  {
    hide Roomy, BucketFull, NothingMoves, BlockGives, MovedInBlock, MovedInBucket, Kicked;
  }

  lemma MarkedInIs(g: Geometry, t: seq<Block>, b: nat, f: nat, u: seq<Block>)
    requires Sound(g) && ValidTable(t, ShapeOf(g)) && InTable(t, ShapeOf(g), b) && IsFingerprint(g.cfg, f)
    requires u == Marked(g, t, b, f)
    ensures MarkedIn(g, t, b, f, u)
  {
    hide Marked, Sound, ValidTable;
  }

  lemma MovedInBlockMeans(g: Geometry, t: seq<Block>, b: nat, e: nat, slot: nat, f: nat, u: seq<Block>)
    requires MovedInBlock(g, t, b, e, slot, f, u)
    ensures Movable(g, t, e, slot) && ValidTable(t, ShapeOf(g)) && SharesBlock(g, t, b, e)
    ensures InTable(t, ShapeOf(g), e) && SlotUsed(t, ShapeOf(g), e, slot)
    ensures u == RelocatedInBlock(g, t, b, e, slot, f)
  {
    MovableRoom(g, t, e, slot);
    hide Movable, ValidTable, SharesBlock, RelocatedInBlock, SlotUsed;
  }

  lemma MovedInBucketMeans(g: Geometry, t: seq<Block>, b: nat, slot: nat, f: nat, u: seq<Block>)
    requires MovedInBucket(g, t, b, slot, f, u)
    ensures Movable(g, t, b, slot) && ValidTable(t, ShapeOf(g))
    ensures InTable(t, ShapeOf(g), b) && SlotUsed(t, ShapeOf(g), b, slot)
    ensures u == RelocatedInBucket(g, t, b, slot, f)
  {
    MovableRoom(g, t, b, slot);
    hide Movable, ValidTable, RelocatedInBucket, SlotUsed;
  }

  lemma ChainOfOne(g: Geometry, rounds: seq<Round>)
    requires |rounds| == 1
    ensures Chain(g, rounds)
  {
  }

  lemma KickedStores(g: Geometry, rounds: seq<Round>, u: seq<Block>)
    requires rounds != [] && Chain(g, rounds) && |rounds| <= ROUNDS
    requires var last := rounds[|rounds| - 1]; StoredIn(g, last.table, last.bucket, last.f, u)
    ensures Kicked(g, rounds[0].table, rounds[0].bucket, rounds[0].f, rounds, u, Empty)
  {
    hide Chain, StoredIn;
  }

  lemma KickedGivesUp(g: Geometry, rounds: seq<Round>)
    requires Chain(g, rounds) && |rounds| == ROUNDS + 1
    ensures var last := rounds[|rounds| - 1];
            Kicked(g, rounds[0].table, rounds[0].bucket, rounds[0].f, rounds, last.table, Carrying(last.bucket, last.f))
  {
    hide Chain;
  }

  lemma RoomyMeans(g: Geometry, t: seq<Block>, b: nat)
    ensures Roomy(g, t, b) <==> ValidTable(t, ShapeOf(g)) && InTable(t, ShapeOf(g), b) && HasRoom(t, ShapeOf(g), b)
  {
    hide HasRoom, ValidTable, InTable;
  }

  // ----- lookup and deletion -----

  ghost predicate Contains(g: Geometry, t: seq<Block>, b: nat, f: nat) {
    ValidTable(t, ShapeOf(g)) && InTable(t, ShapeOf(g), b) && Copies(t, ShapeOf(g), b, f) > 0
  }

  ghost predicate Overflowed(g: Geometry, t: seq<Block>, b: nat, f: nat) {
    && Sound(g) && ValidTable(t, ShapeOf(g)) && InTable(t, ShapeOf(g), b) && IsFingerprint(g.cfg, f)
    && OverflowSet(g, t, b, f)
  }

  // The first slot of the bucket that holds the fingerprint is deleted.
  ghost predicate FirstRemoved(g: Geometry, t: seq<Block>, b: nat, f: nat, slot: nat, u: seq<Block>) {
    && ValidTable(t, ShapeOf(g)) && InTable(t, ShapeOf(g), b)
    && SlotUsed(t, ShapeOf(g), b, slot) && SlotAt(t, ShapeOf(g), b, slot) == f
    && (forall j: nat | j < slot && SlotUsed(t, ShapeOf(g), b, j) :: SlotAt(t, ShapeOf(g), b, j) != f)
    && u == Deleted(t, ShapeOf(g), b, slot)
  }

  ghost predicate RemovedFrom(g: Geometry, t: seq<Block>, b: nat, f: nat, u: seq<Block>) {
    exists slot: nat :: FirstRemoved(g, t, b, f, slot, u)
  }

  // The secondary bucket is searched only if the primary one does not hold the
  // fingerprint.
  ghost predicate Removal(g: Geometry, t: seq<Block>, b: nat, a: nat, f: nat, u: seq<Block>, ok: bool) {
    if Contains(g, t, b, f) then ok && RemovedFrom(g, t, b, f, u)
    else if Contains(g, t, a, f) then ok && RemovedFrom(g, t, a, f, u)
    else !ok && u == t
  }

  ghost predicate Insertion(g: Geometry, t: seq<Block>, b: nat, a: nat, f: nat, u: seq<Block>, ok: bool) {
    exists how: Placement, hand: Hand :: Outcome(g, t, b, a, f, how, u, hand) && (ok <==> hand == Empty)
  }

  lemma InsertionIs(g: Geometry, t: seq<Block>, b: nat, a: nat, f: nat, u: seq<Block>, ok: bool,
                    how: Placement, hand: Hand)
    requires Outcome(g, t, b, a, f, how, u, hand) && (ok <==> hand == Empty)
    ensures Insertion(g, t, b, a, f, u, ok)
  {
    hide Outcome;
  }

  lemma ContainsIs(g: Geometry, t: seq<Block>, b: nat, f: nat)
    requires ValidTable(t, ShapeOf(g)) && InTable(t, ShapeOf(g), b)
    ensures Contains(g, t, b, f) <==> Copies(t, ShapeOf(g), b, f) > 0
  {
    hide ValidTable, Copies;
  }

  lemma OverflowedIs(g: Geometry, t: seq<Block>, b: nat, f: nat)
    requires Sound(g) && ValidTable(t, ShapeOf(g)) && InTable(t, ShapeOf(g), b) && IsFingerprint(g.cfg, f)
    ensures Overflowed(g, t, b, f) <==> OverflowSet(g, t, b, f)
  {
    hide OverflowSet, Sound, ValidTable;
  }

  lemma RemovedFromIs(g: Geometry, t: seq<Block>, b: nat, f: nat, slot: nat)
    requires ValidTable(t, ShapeOf(g)) && InTable(t, ShapeOf(g), b)
    requires SlotUsed(t, ShapeOf(g), b, slot) && SlotAt(t, ShapeOf(g), b, slot) == f
    requires forall j: nat | j < slot && SlotUsed(t, ShapeOf(g), b, j) :: SlotAt(t, ShapeOf(g), b, j) != f
    ensures RemovedFrom(g, t, b, f, Deleted(t, ShapeOf(g), b, slot))
  {
    hide ValidTable, SlotUsed, SlotAt, Deleted;
    assert FirstRemoved(g, t, b, f, slot, Deleted(t, ShapeOf(g), b, slot));
  }

  lemma RemovalIs(g: Geometry, t: seq<Block>, b: nat, a: nat, f: nat, u: seq<Block>, ok: bool)
    requires Contains(g, t, b, f) ==> ok && RemovedFrom(g, t, b, f, u)
    requires !Contains(g, t, b, f) && Contains(g, t, a, f) ==> ok && RemovedFrom(g, t, a, f, u)
    requires !Contains(g, t, b, f) && !Contains(g, t, a, f) ==> !ok && u == t
    ensures Removal(g, t, b, a, f, u, ok)
  {
    hide Contains, RemovedFrom;
  }
}
