/** The table that each operation of a Morton filter leaves behind, and the proof
    that each operation is a recorded flow: a first-level store, the relocation
    searches on bucket and block overflow, and the two kinds of kick-out. */
module MortonSteps {
  import opened Arith
  import opened MortonGeometry
  import opened MortonTable
  import opened MortonInvariant

  // Copies gained and lost by a step, for every bucket and fingerprint.
  ghost predicate Delta(t: seq<Block>, u: seq<Block>, s: Shape, plus: multiset<Entry>, minus: multiset<Entry>) {
    && ValidTable(t, s) && ValidTable(u, s) && OtaKept(t, u)
    && forall b: nat, x: nat | InTable(t, s, b) ::
         Copies(u, s, b, x) == Copies(t, s, b, x) + plus[(b, x)] - minus[(b, x)]
  }

  lemma DeltaAt(t: seq<Block>, u: seq<Block>, s: Shape, plus: multiset<Entry>, minus: multiset<Entry>,
                b: nat, x: nat)
    requires Delta(t, u, s, plus, minus) && InTable(t, s, b)
    ensures ValidTable(t, s) && ValidTable(u, s) && InTable(u, s, b)
    ensures Copies(u, s, b, x) == Copies(t, s, b, x) + plus[(b, x)] - minus[(b, x)]
  {
    hide Copies, ValidTable;
  }

  lemma DeltaTrans(t: seq<Block>, u: seq<Block>, w: seq<Block>, s: Shape,
                   p1: multiset<Entry>, m1: multiset<Entry>, p2: multiset<Entry>, m2: multiset<Entry>)
    requires Delta(t, u, s, p1, m1) && Delta(u, w, s, p2, m2)
    ensures Delta(t, w, s, p1 + p2, m1 + m2)
  {
    OtaKeptTrans(t, u, w);
    hide Copies, ValidTable, OtaKept;
  }

  lemma OtaKeptTrans(t: seq<Block>, u: seq<Block>, w: seq<Block>)
    requires OtaKept(t, u) && OtaKept(u, w)
    ensures OtaKept(t, w)
  {
    forall k | 0 <= k < |t|
      ensures BitsKept(t[k].ota, w[k].ota)
    {
      assert BitsKept(t[k].ota, u[k].ota) && BitsKept(u[k].ota, w[k].ota);
    }
  }

  // ----- tables after the primitive steps -----

  function Stored(t: seq<Block>, s: Shape, bucket: nat, f: nat): seq<Block>
    requires s.bucketsPerBlock > 0 && BlockOf(bucket, s) < |t|
    requires IndexOf(bucket, s) < |t[BlockOf(bucket, s)].counters|
    requires Start(t[BlockOf(bucket, s)].counters, |t[BlockOf(bucket, s)].counters|) == |t[BlockOf(bucket, s)].fps|
  {
    var k := BlockOf(bucket, s);
    t[k := Store(t[k], IndexOf(bucket, s), f)]
  }

  ghost predicate HasRoom(t: seq<Block>, s: Shape, bucket: nat)
    requires ValidTable(t, s) && InTable(t, s, bucket)
  {
    var k := BlockOf(bucket, s);
    t[k].counters[IndexOf(bucket, s)] < s.slots && |t[k].fps| < s.capacity
  }

  lemma StoredDelta(t: seq<Block>, s: Shape, bucket: nat, f: nat)
    requires ValidTable(t, s) && InTable(t, s, bucket) && HasRoom(t, s, bucket)
    ensures Delta(t, Stored(t, s, bucket, f), s, multiset{(bucket, f)}, multiset{})
  {
    StoreInTable(t, s, bucket, f);
    hide Copies, ValidTable, OtaKept, Store;
  }

  ghost predicate SlotUsed(t: seq<Block>, s: Shape, bucket: nat, slot: nat)
    requires ValidTable(t, s) && InTable(t, s, bucket)
  {
    slot < t[BlockOf(bucket, s)].counters[IndexOf(bucket, s)]
  }

  ghost function SlotAt(t: seq<Block>, s: Shape, bucket: nat, slot: nat): nat
    requires ValidTable(t, s) && InTable(t, s, bucket) && SlotUsed(t, s, bucket, slot)
  {
    Bucket(t[BlockOf(bucket, s)], IndexOf(bucket, s))[slot]
  }

  lemma SlotIsCopy(t: seq<Block>, s: Shape, bucket: nat, slot: nat)
    requires ValidTable(t, s) && InTable(t, s, bucket) && SlotUsed(t, s, bucket, slot)
    ensures Copies(t, s, bucket, SlotAt(t, s, bucket, slot)) > 0
  {
    var q := Bucket(t[BlockOf(bucket, s)], IndexOf(bucket, s));
    assert q[slot] in multiset(q);
  }

  ghost function Deleted(t: seq<Block>, s: Shape, bucket: nat, slot: nat): seq<Block>
    requires ValidTable(t, s) && InTable(t, s, bucket) && SlotUsed(t, s, bucket, slot)
  {
    var k := BlockOf(bucket, s);
    t[k := Delete(t[k], IndexOf(bucket, s), slot)]
  }

  lemma DeletedDelta(t: seq<Block>, s: Shape, bucket: nat, slot: nat)
    requires ValidTable(t, s) && InTable(t, s, bucket) && SlotUsed(t, s, bucket, slot)
    ensures Delta(t, Deleted(t, s, bucket, slot), s, multiset{}, multiset{(bucket, SlotAt(t, s, bucket, slot))})
  {
    DeleteInTable(t, s, bucket, slot);
    hide Copies, ValidTable, OtaKept, Delete, Bucket;
  }

  ghost function Replaced(t: seq<Block>, s: Shape, bucket: nat, slot: nat, f: nat): seq<Block>
    requires ValidTable(t, s) && InTable(t, s, bucket) && SlotUsed(t, s, bucket, slot)
  {
    var k := BlockOf(bucket, s);
    t[k := Replace(t[k], IndexOf(bucket, s), slot, f)]
  }

  lemma ReplacedDelta(t: seq<Block>, s: Shape, bucket: nat, slot: nat, f: nat)
    requires ValidTable(t, s) && InTable(t, s, bucket) && SlotUsed(t, s, bucket, slot)
    ensures Delta(t, Replaced(t, s, bucket, slot, f), s,
                  multiset{(bucket, f)}, multiset{(bucket, SlotAt(t, s, bucket, slot))})
  {
    ReplaceInTable(t, s, bucket, slot, f);
    hide Copies, ValidTable, OtaKept, Replace, Bucket;
  }

  ghost function Marked(g: Geometry, t: seq<Block>, bucket: nat, f: nat): seq<Block>
    requires Sound(g) && ValidTable(t, ShapeOf(g)) && InTable(t, ShapeOf(g), bucket) && IsFingerprint(g.cfg, f)
  {
    OtaIndexInRange(g, bucket, f);
    var k := BlockOf(bucket, ShapeOf(g));
    t[k := SetOverflow(t[k], OtaIndex(g, bucket, f))]
  }

  lemma MarkedDelta(g: Geometry, t: seq<Block>, bucket: nat, f: nat)
    requires Sound(g) && ValidTable(t, ShapeOf(g)) && InTable(t, ShapeOf(g), bucket) && IsFingerprint(g.cfg, f)
    ensures Delta(t, Marked(g, t, bucket, f), ShapeOf(g), multiset{}, multiset{})
    ensures InTable(Marked(g, t, bucket, f), ShapeOf(g), bucket)
    ensures OverflowSet(g, Marked(g, t, bucket, f), bucket, f)
  {
    OtaIndexInRange(g, bucket, f);
    SetOverflowInTable(t, ShapeOf(g), BlockOf(bucket, ShapeOf(g)), OtaIndex(g, bucket, f));
    hide Copies, OtaKept, SetOverflow, OtaIndex;
  }

  // ----- from deltas to flows -----

  // Nothing unsuitable gets into the table when only legal entries are added.
  lemma StaysWellFormed(g: Geometry, t: seq<Block>, u: seq<Block>, plus: multiset<Entry>, minus: multiset<Entry>)
    requires WellFormed(g, t) && Delta(t, u, ShapeOf(g), plus, minus)
    requires forall e | e in plus :: Legal(g, e.0, e.1)
    ensures WellFormed(g, u)
  {
    forall b: nat, f: nat | InTable(u, ShapeOf(g), b) && Copies(u, ShapeOf(g), b, f) > 0
      ensures Legal(g, b, f)
    {
      DeltaAt(t, u, ShapeOf(g), plus, minus, b, f);
      if plus[(b, f)] > 0 {
        assert (b, f) in plus;
      }
    }
  }

  // A hand (or none) as a multiset of entries.
  function InHand(hand: Hand): multiset<Entry> {
    match hand
    case Empty => multiset{}
    case Carrying(b, f) => multiset{(b, f)}
  }

  lemma OneFlowLegal(g: Geometry, e: nat, c: nat)
    requires Aligned(g) && Legal(g, e, c)
    ensures LegalFlows(g, [(e, c)]) && e < g.totalBuckets
  {
    hide Aligned;
  }

  // One flow: out of (e, c) and into its alternate bucket.
  lemma NetOne(g: Geometry, e: nat, c: nat, flows: seq<Entry>, b: nat, f: nat)
    requires Aligned(g) && e < g.totalBuckets && flows == [(e, c)] && LegalFlows(g, flows)
    ensures Net(g, flows, b, f) + multiset{(e, c)}[(b, f)] == multiset{(Alternate(g, e, c), c)}[(b, f)]
  {
    assert flows[1..] == [];
    hide Alternate, Legal, Aligned;
  }

  // The step conserves fingerprints: what the hands and the table gain and
  // lose is exactly one flow out of (e, c).
  lemma FlowOne(g: Geometry, t: seq<Block>, hand: Hand, u: seq<Block>, hand2: Hand,
                plus: multiset<Entry>, minus: multiset<Entry>, e: nat, c: nat)
    requires Aligned(g) && Legal(g, e, c) && WellFormed(g, t) && WellFormed(g, u)
    requires Delta(t, u, ShapeOf(g), plus, minus) && (hand2.Carrying? ==> Legal(g, hand2.bucket, hand2.f))
    requires Recorded(g, u, (e, c))
    requires InHand(hand2) + plus + multiset{(e, c)} == InHand(hand) + minus + multiset{(Alternate(g, e, c), c)}
    ensures Flowed(g, t, hand, u, hand2, [(e, c)])
  {
    OneFlowLegal(g, e, c);
    forall b: nat, f: nat | Legal(g, b, f)
      ensures HeldFlows(g, t, hand, u, hand2, [(e, c)], b, f)
    {
      FlowOneAt(g, t, hand, u, hand2, plus, minus, e, c, b, f);
    }
    hide WellFormed, Legal, Recorded, HeldFlows, Alternate;
  }

  lemma FlowOneAt(g: Geometry, t: seq<Block>, hand: Hand, u: seq<Block>, hand2: Hand,
                  plus: multiset<Entry>, minus: multiset<Entry>, e: nat, c: nat, b: nat, f: nat)
    requires Aligned(g) && Legal(g, e, c) && WellFormed(g, t) && WellFormed(g, u) && Legal(g, b, f)
    requires Delta(t, u, ShapeOf(g), plus, minus)
    requires InHand(hand2) + plus + multiset{(e, c)} == InHand(hand) + minus + multiset{(Alternate(g, e, c), c)}
    ensures LegalFlows(g, [(e, c)])
    ensures HeldFlows(g, t, hand, u, hand2, [(e, c)], b, f)
  {
    OneFlowLegal(g, e, c);
    NetOne(g, e, c, [(e, c)], b, f);
    InTableIsLegal(g, t, b);
    DeltaAt(t, u, ShapeOf(g), plus, minus, b, f);
    HandCount(hand, b, f);
    HandCount(hand2, b, f);
    assert (InHand(hand2) + plus + multiset{(e, c)})[(b, f)]
        == (InHand(hand) + minus + multiset{(Alternate(g, e, c), c)})[(b, f)];
    hide Legal, Alternate, Net, Copies, LegalFlows, Sound, InHand;
  }

  lemma HandCount(hand: Hand, b: nat, f: nat)
    ensures InHand(hand)[(b, f)] == if hand == Carrying(b, f) then 1 else 0
  {
  }

  lemma FlowNone(g: Geometry, t: seq<Block>, hand: Hand, u: seq<Block>, hand2: Hand,
                 plus: multiset<Entry>, minus: multiset<Entry>)
    requires WellFormed(g, t) && WellFormed(g, u)
    requires Delta(t, u, ShapeOf(g), plus, minus) && (hand2.Carrying? ==> Legal(g, hand2.bucket, hand2.f))
    requires InHand(hand2) + plus == InHand(hand) + minus
    ensures Flowed(g, t, hand, u, hand2, [])
  {
    forall b: nat, f: nat | Legal(g, b, f)
      ensures HeldFlows(g, t, hand, u, hand2, [], b, f)
    {
      InTableIsLegal(g, t, b);
      DeltaAt(t, u, ShapeOf(g), plus, minus, b, f);
      HandCount(hand, b, f);
      HandCount(hand2, b, f);
      assert (InHand(hand2) + plus)[(b, f)] == (InHand(hand) + minus)[(b, f)];
      hide Legal, Copies, InHand;
    }
  }

  // ----- the operations as flows -----

  // The fingerprint in a used slot suits its bucket, and its alternate bucket
  // is in the table but in another block.
  lemma SlotLegal(g: Geometry, t: seq<Block>, e: nat, slot: nat)
    requires WellFormed(g, t) && InTable(t, ShapeOf(g), e) && SlotUsed(t, ShapeOf(g), e, slot)
    ensures Sound(g) && Aligned(g) && ValidTable(t, ShapeOf(g))
    ensures var c := SlotAt(t, ShapeOf(g), e, slot);
            && Legal(g, e, c) && e < g.totalBuckets && IsFingerprint(g.cfg, c)
            && Legal(g, Alternate(g, e, c), c)
            && InTable(t, ShapeOf(g), Alternate(g, e, c))
            && BlockOf(Alternate(g, e, c), ShapeOf(g)) != BlockOf(e, ShapeOf(g))
  {
    var c := SlotAt(t, ShapeOf(g), e, slot);
    SlotIsCopy(t, ShapeOf(g), e, slot);
    assert Legal(g, e, c);
    AlternateInvolution(g, e, c);
    AlternateOtherBlock(g, e, c);
    InTableIsLegal(g, t, Alternate(g, e, c));
    hide Alternate, Sound, ValidTable, SlotAt, Copies;
  }

  // Storing into a bucket with room.
  lemma StoreFlows(g: Geometry, t: seq<Block>, b: nat, f: nat)
    requires WellFormed(g, t) && Legal(g, b, f) && InTable(t, ShapeOf(g), b) && HasRoom(t, ShapeOf(g), b)
    ensures Flowed(g, t, Carrying(b, f), Stored(t, ShapeOf(g), b, f), Empty, [])
  {
    var u := Stored(t, ShapeOf(g), b, f);
    StoredDelta(t, ShapeOf(g), b, f);
    assert Sound(g);
    StaysWellFormed(g, t, u, multiset{(b, f)}, multiset{});
    FlowNone(g, t, Carrying(b, f), u, Empty, multiset{(b, f)}, multiset{});
    hide WellFormed, Legal, Delta, Stored;
  }

  // Moving the fingerprint in a slot to its alternate bucket and taking over
  // its slot.
  ghost predicate Movable(g: Geometry, t: seq<Block>, e: nat, slot: nat) {
    && WellFormed(g, t) && InTable(t, ShapeOf(g), e) && SlotUsed(t, ShapeOf(g), e, slot)
    && (SlotLegal(g, t, e, slot);
        HasRoom(t, ShapeOf(g), Alternate(g, e, SlotAt(t, ShapeOf(g), e, slot))))
  }

  // The alternate bucket's block changes, the others do not.
  lemma StoredElsewhere(g: Geometry, t: seq<Block>, a: nat, c: nat, e: nat, slot: nat)
    requires WellFormed(g, t) && InTable(t, ShapeOf(g), a) && HasRoom(t, ShapeOf(g), a)
    requires InTable(t, ShapeOf(g), e) && SlotUsed(t, ShapeOf(g), e, slot)
    requires BlockOf(a, ShapeOf(g)) != BlockOf(e, ShapeOf(g))
    ensures var s := ShapeOf(g); var u := Stored(t, s, a, c);
            && Delta(t, u, s, multiset{(a, c)}, multiset{})
            && ValidTable(u, s) && InTable(u, s, e) && u[BlockOf(e, s)] == t[BlockOf(e, s)]
            && SlotUsed(u, s, e, slot) && SlotAt(u, s, e, slot) == SlotAt(t, s, e, slot)
  {
    StoredDelta(t, ShapeOf(g), a, c);
    hide Delta, Store, Bucket;
  }

  ghost function RelocatedInBucket(g: Geometry, t: seq<Block>, b: nat, slot: nat, f: nat): seq<Block>
    requires Movable(g, t, b, slot)
  {
    var s := ShapeOf(g);
    SlotLegal(g, t, b, slot);
    var c := SlotAt(t, s, b, slot);
    var a := Alternate(g, b, c);
    StoredElsewhere(g, t, a, c, b, slot);
    var t1 := Stored(t, s, a, c);
    ReplacedDelta(t1, s, b, slot, f);
    var t2 := Replaced(t1, s, b, slot, f);
    Marked(g, t2, b, c)
  }

  lemma RelocateInBucketFlows(g: Geometry, t: seq<Block>, b: nat, slot: nat, f: nat)
    requires Movable(g, t, b, slot) && Legal(g, b, f)
    ensures Flowed(g, t, Carrying(b, f), RelocatedInBucket(g, t, b, slot, f), Empty,
                   [(b, SlotAt(t, ShapeOf(g), b, slot))])
  {
    var s := ShapeOf(g);
    SlotLegal(g, t, b, slot);
    var c := SlotAt(t, s, b, slot);
    var a := Alternate(g, b, c);
    MovableRoom(g, t, b, slot);
    StoredElsewhere(g, t, a, c, b, slot);
    var t1 := Stored(t, s, a, c);
    ReplacedDelta(t1, s, b, slot, f);
    var t2 := Replaced(t1, s, b, slot, f);
    DeltaInTable(t1, t2, s, multiset{(b, f)}, multiset{(b, c)}, b);
    MarkedDelta(g, t2, b, c);
    var t3 := Marked(g, t2, b, c);
    assert t3 == RelocatedInBucket(g, t, b, slot, f);
    RelocationFlows(g, t, t1, t2, t3, b, f, b, c);
  }

  lemma MovableRoom(g: Geometry, t: seq<Block>, e: nat, slot: nat)
    requires Movable(g, t, e, slot)
    ensures WellFormed(g, t) && Sound(g) && ValidTable(t, ShapeOf(g))
    ensures InTable(t, ShapeOf(g), e) && SlotUsed(t, ShapeOf(g), e, slot) && e < g.totalBuckets
    ensures InTable(t, ShapeOf(g), Alternate(g, e, SlotAt(t, ShapeOf(g), e, slot)))
    ensures HasRoom(t, ShapeOf(g), Alternate(g, e, SlotAt(t, ShapeOf(g), e, slot)))
  {
    SlotLegal(g, t, e, slot);
    hide Alternate, WellFormed, SlotAt, HasRoom, Sound, ValidTable, Legal;
  }

  lemma DeltaInTable(t: seq<Block>, u: seq<Block>, s: Shape, plus: multiset<Entry>, minus: multiset<Entry>, b: nat)
    requires Delta(t, u, s, plus, minus) && InTable(t, s, b)
    ensures ValidTable(t, s) && ValidTable(u, s) && InTable(u, s, b)
  {
  }

  // A store at the alternate bucket, an exchange of (e, c) for (b, f), and the
  // overflow bit of (e, c) make one flow.
  lemma RelocationFlows(g: Geometry, t: seq<Block>, t1: seq<Block>, t2: seq<Block>, t3: seq<Block>,
                        b: nat, f: nat, e: nat, c: nat)
    requires WellFormed(g, t) && Sound(g) && Legal(g, b, f) && Legal(g, e, c)
    requires e < g.totalBuckets && Legal(g, Alternate(g, e, c), c)
    requires Delta(t, t1, ShapeOf(g), multiset{(Alternate(g, e, c), c)}, multiset{})
    requires Delta(t1, t2, ShapeOf(g), multiset{(b, f)}, multiset{(e, c)})
    requires Delta(t2, t3, ShapeOf(g), multiset{}, multiset{})
    requires ValidTable(t3, ShapeOf(g)) && InTable(t3, ShapeOf(g), e)
    requires IsFingerprint(g.cfg, c) && OverflowSet(g, t3, e, c)
    ensures Flowed(g, t, Carrying(b, f), t3, Empty, [(e, c)])
  {
    hide *;
    SoundIsAligned(g);
    var s, x := ShapeOf(g), (Alternate(g, e, c), c);
    DeltaTrans(t, t1, t2, s, multiset{x}, multiset{}, multiset{(b, f)}, multiset{(e, c)});
    var plus, minus := multiset{x} + multiset{(b, f)}, multiset{} + multiset{(e, c)};
    DeltaTrans(t, t2, t3, s, plus, minus, multiset{}, multiset{});
    assert plus + multiset{} == plus && minus + multiset{} == minus;
    StaysWellFormed(g, t, t3, plus, minus);
    RecordedIs(g, t3, e, c);
    InHandIs(b, f);
    FlowOne(g, t, Carrying(b, f), t3, Empty, plus, minus, e, c);
  }

  lemma SoundIsAligned(g: Geometry)
    requires Sound(g)
    ensures Aligned(g)
  {
  }

  lemma RecordedIs(g: Geometry, u: seq<Block>, e: nat, c: nat)
    requires WellFormed(g, u) && Aligned(g) && Legal(g, e, c)
    requires Sound(g) && ValidTable(u, ShapeOf(g)) && InTable(u, ShapeOf(g), e) && IsFingerprint(g.cfg, c)
    ensures OverflowSet(g, u, e, c) <==> Recorded(g, u, (e, c))
  {
    hide OverflowSet, WellFormed, Legal, Sound, ValidTable;
  }

  lemma InHandIs(b: nat, f: nat)
    ensures InHand(Empty) == multiset{} && InHand(Carrying(b, f)) == multiset{(b, f)}
  {
  }

  // After a deletion in a full block any bucket of the block with a free
  // logical slot has room.
  lemma RoomAfterDelete(g: Geometry, t: seq<Block>, e: nat, slot: nat, b: nat)
    requires ValidTable(t, ShapeOf(g)) && InTable(t, ShapeOf(g), e) && SlotUsed(t, ShapeOf(g), e, slot)
    requires InTable(t, ShapeOf(g), b) && BlockOf(b, ShapeOf(g)) == BlockOf(e, ShapeOf(g))
    requires t[BlockOf(b, ShapeOf(g))].counters[IndexOf(b, ShapeOf(g))] < g.cfg.slotsPerBucket
    ensures var s := ShapeOf(g); var u := Deleted(t, s, e, slot);
            && Delta(t, u, s, multiset{}, multiset{(e, SlotAt(t, s, e, slot))})
            && ValidTable(u, s) && InTable(u, s, b) && InTable(u, s, e) && HasRoom(u, s, b)
  {
    DeletedDelta(t, ShapeOf(g), e, slot);
    hide Delta, Bucket;
  }

  lemma CounterKept(g: Geometry, t: seq<Block>, a: nat, c: nat, b: nat)
    requires ValidTable(t, ShapeOf(g)) && InTable(t, ShapeOf(g), a) && HasRoom(t, ShapeOf(g), a)
    requires InTable(t, ShapeOf(g), b) && BlockOf(a, ShapeOf(g)) != BlockOf(b, ShapeOf(g))
    ensures |Stored(t, ShapeOf(g), a, c)| == |t|
    ensures Stored(t, ShapeOf(g), a, c)[BlockOf(b, ShapeOf(g))] == t[BlockOf(b, ShapeOf(g))]
  {
    hide Store;
  }

  // The bucket that a relocation in a block frees space for: it shares the
  // block with e and has a free logical slot.
  ghost predicate SharesBlock(g: Geometry, t: seq<Block>, b: nat, e: nat)
    requires ValidTable(t, ShapeOf(g))
  {
    && InTable(t, ShapeOf(g), b) && InTable(t, ShapeOf(g), e) && BlockOf(b, ShapeOf(g)) == BlockOf(e, ShapeOf(g))
    && t[BlockOf(b, ShapeOf(g))].counters[IndexOf(b, ShapeOf(g))] < g.cfg.slotsPerBucket
  }

  ghost function RelocatedInBlock(g: Geometry, t: seq<Block>, b: nat, e: nat, slot: nat, f: nat): seq<Block>
    requires Movable(g, t, e, slot) && SharesBlock(g, t, b, e)
  {
    var s := ShapeOf(g);
    SlotLegal(g, t, e, slot);
    var c := SlotAt(t, s, e, slot);
    var a := Alternate(g, e, c);
    StoredElsewhere(g, t, a, c, e, slot);
    CounterKept(g, t, a, c, b);
    var t1 := Stored(t, s, a, c);
    RoomAfterDelete(g, t1, e, slot, b);
    var t2 := Deleted(t1, s, e, slot);
    StoredDelta(t2, s, b, f);
    var t3 := Stored(t2, s, b, f);
    Marked(g, t3, e, c)
  }

  lemma RelocateInBlockFlows(g: Geometry, t: seq<Block>, b: nat, e: nat, slot: nat, f: nat)
    requires Movable(g, t, e, slot) && SharesBlock(g, t, b, e) && Legal(g, b, f)
    ensures Flowed(g, t, Carrying(b, f), RelocatedInBlock(g, t, b, e, slot, f), Empty,
                   [(e, SlotAt(t, ShapeOf(g), e, slot))])
  {
    var s := ShapeOf(g);
    SlotLegal(g, t, e, slot);
    var c := SlotAt(t, s, e, slot);
    var a := Alternate(g, e, c);
    MovableRoom(g, t, e, slot);
    StoredElsewhere(g, t, a, c, e, slot);
    CounterKept(g, t, a, c, b);
    var t1 := Stored(t, s, a, c);
    RoomAfterDelete(g, t1, e, slot, b);
    var t2 := Deleted(t1, s, e, slot);
    StoredDelta(t2, s, b, f);
    var t3 := Stored(t2, s, b, f);
    DeltaInTable(t2, t3, s, multiset{(b, f)}, multiset{}, e);
    MarkedDelta(g, t3, e, c);
    var t4 := Marked(g, t3, e, c);
    assert t4 == RelocatedInBlock(g, t, b, e, slot, f);
    DeltaTrans(t1, t2, t3, s, multiset{}, multiset{(e, c)}, multiset{(b, f)}, multiset{});
    assert multiset{} + multiset{(b, f)} == multiset{(b, f)} && multiset{(e, c)} + multiset{} == multiset{(e, c)};
    RelocationFlows(g, t, t1, t3, t4, b, f, e, c);
  }

  // ----- kick-outs -----

  // An exchange of (e, c) for (b, f) that records the overflow of (e, c)
  // carries c on to its alternate bucket.
  lemma KickFlows(g: Geometry, t: seq<Block>, u: seq<Block>, b: nat, f: nat, e: nat, c: nat)
    requires WellFormed(g, t) && Sound(g) && Legal(g, b, f) && Legal(g, e, c)
    requires e < g.totalBuckets && Legal(g, Alternate(g, e, c), c)
    requires Delta(t, u, ShapeOf(g), multiset{(b, f)}, multiset{(e, c)})
    requires ValidTable(u, ShapeOf(g)) && InTable(u, ShapeOf(g), e)
    requires IsFingerprint(g.cfg, c) && OverflowSet(g, u, e, c)
    ensures Flowed(g, t, Carrying(b, f), u, Carrying(Alternate(g, e, c), c), [(e, c)])
  {
    hide *;
    SoundIsAligned(g);
    var a := Alternate(g, e, c);
    StaysWellFormed(g, t, u, multiset{(b, f)}, multiset{(e, c)});
    RecordedIs(g, u, e, c);
    InHandIs(b, f);
    InHandIs(a, c);
    assert multiset{(a, c)} + multiset{(b, f)} + multiset{(e, c)}
        == multiset{(b, f)} + multiset{(e, c)} + multiset{(a, c)};
    FlowOne(g, t, Carrying(b, f), u, Carrying(a, c), multiset{(b, f)}, multiset{(e, c)}, e, c);
  }

  // The fingerprint in a slot of bucket b is replaced and kicked out.
  ghost function KickedFromBucket(g: Geometry, t: seq<Block>, b: nat, slot: nat, f: nat): seq<Block>
    requires WellFormed(g, t) && InTable(t, ShapeOf(g), b) && SlotUsed(t, ShapeOf(g), b, slot)
  {
    var s := ShapeOf(g);
    SlotLegal(g, t, b, slot);
    var c := SlotAt(t, s, b, slot);
    MarkedKeepsSlots(g, t, b, c, b, slot);
    Replaced(Marked(g, t, b, c), s, b, slot, f)
  }

  lemma MarkedKeepsSlots(g: Geometry, t: seq<Block>, b: nat, c: nat, e: nat, slot: nat)
    requires Sound(g) && ValidTable(t, ShapeOf(g)) && InTable(t, ShapeOf(g), b) && IsFingerprint(g.cfg, c)
    requires InTable(t, ShapeOf(g), e) && SlotUsed(t, ShapeOf(g), e, slot)
    ensures var s := ShapeOf(g); var u := Marked(g, t, b, c);
            && Delta(t, u, s, multiset{}, multiset{})
            && ValidTable(u, s) && InTable(u, s, b) && OverflowSet(g, u, b, c)
            && InTable(u, s, e) && SlotUsed(u, s, e, slot) && SlotAt(u, s, e, slot) == SlotAt(t, s, e, slot)
  {
    MarkedDelta(g, t, b, c);
    hide Delta, OtaIndex, Sound;
  }

  lemma OverflowStays(g: Geometry, t: seq<Block>, u: seq<Block>, plus: multiset<Entry>, minus: multiset<Entry>,
                      b: nat, c: nat)
    requires Sound(g) && Delta(t, u, ShapeOf(g), plus, minus) && IsFingerprint(g.cfg, c)
    requires ValidTable(t, ShapeOf(g)) && InTable(t, ShapeOf(g), b) && OverflowSet(g, t, b, c)
    ensures ValidTable(u, ShapeOf(g)) && InTable(u, ShapeOf(g), b) && OverflowSet(g, u, b, c)
  {
    OtaIndexInRange(g, b, c);
    assert BitsKept(t[BlockOf(b, ShapeOf(g))].ota, u[BlockOf(b, ShapeOf(g))].ota);
    hide OtaIndex, Sound;
  }

  lemma KickFromBucketFlows(g: Geometry, t: seq<Block>, b: nat, slot: nat, f: nat)
    requires WellFormed(g, t) && InTable(t, ShapeOf(g), b) && SlotUsed(t, ShapeOf(g), b, slot) && Legal(g, b, f)
    ensures Sound(g) && b < g.totalBuckets
    ensures var c := SlotAt(t, ShapeOf(g), b, slot);
            Flowed(g, t, Carrying(b, f), KickedFromBucket(g, t, b, slot, f),
                   Carrying(Alternate(g, b, c), c), [(b, c)])
  {
    var s := ShapeOf(g);
    SlotLegal(g, t, b, slot);
    var c := SlotAt(t, s, b, slot);
    MarkedKeepsSlots(g, t, b, c, b, slot);
    var t1 := Marked(g, t, b, c);
    ReplacedDelta(t1, s, b, slot, f);
    var t2 := Replaced(t1, s, b, slot, f);
    assert t2 == KickedFromBucket(g, t, b, slot, f);
    DeltaTrans(t, t1, t2, s, multiset{}, multiset{}, multiset{(b, f)}, multiset{(b, c)});
    assert multiset{} + multiset{(b, f)} == multiset{(b, f)} && multiset{} + multiset{(b, c)} == multiset{(b, c)};
    OverflowStays(g, t1, t2, multiset{(b, f)}, multiset{(b, c)}, b, c);
    KickFlows(g, t, t2, b, f, b, c);
  }

  // A fingerprint of bucket e is deleted and kicked out to make room for one
  // in bucket b of the same block.
  ghost function KickedFromBlock(g: Geometry, t: seq<Block>, b: nat, e: nat, slot: nat, f: nat): seq<Block>
    requires WellFormed(g, t) && SharesBlock(g, t, b, e) && SlotUsed(t, ShapeOf(g), e, slot)
  {
    var s := ShapeOf(g);
    SlotLegal(g, t, e, slot);
    var c := SlotAt(t, s, e, slot);
    RoomAfterDelete(g, t, e, slot, b);
    var t1 := Deleted(t, s, e, slot);
    MarkedKeepsRoom(g, t1, e, c, b);
    var t2 := Marked(g, t1, e, c);
    Stored(t2, s, b, f)
  }

  lemma MarkedKeepsRoom(g: Geometry, t: seq<Block>, e: nat, c: nat, b: nat)
    requires Sound(g) && ValidTable(t, ShapeOf(g)) && InTable(t, ShapeOf(g), e) && IsFingerprint(g.cfg, c)
    requires InTable(t, ShapeOf(g), b) && HasRoom(t, ShapeOf(g), b)
    ensures var s := ShapeOf(g); var u := Marked(g, t, e, c);
            && Delta(t, u, s, multiset{}, multiset{})
            && ValidTable(u, s) && InTable(u, s, e) && OverflowSet(g, u, e, c)
            && InTable(u, s, b) && HasRoom(u, s, b)
  {
    MarkedDelta(g, t, e, c);
    hide Delta, OtaIndex, Sound;
  }

  lemma NothingAdded(m: multiset<Entry>)
    ensures m + multiset{} == m
  {
  }

  lemma KickFromBlockFlows(g: Geometry, t: seq<Block>, b: nat, e: nat, slot: nat, f: nat)
    requires WellFormed(g, t) && SharesBlock(g, t, b, e) && SlotUsed(t, ShapeOf(g), e, slot) && Legal(g, b, f)
    ensures Sound(g) && e < g.totalBuckets
    ensures var c := SlotAt(t, ShapeOf(g), e, slot);
            Flowed(g, t, Carrying(b, f), KickedFromBlock(g, t, b, e, slot, f),
                   Carrying(Alternate(g, e, c), c), [(e, c)])
  {
    var s := ShapeOf(g);
    SlotLegal(g, t, e, slot);
    var c := SlotAt(t, s, e, slot);
    RoomAfterDelete(g, t, e, slot, b);
    var t1 := Deleted(t, s, e, slot);
    MarkedKeepsRoom(g, t1, e, c, b);
    var t2 := Marked(g, t1, e, c);
    StoredDelta(t2, s, b, f);
    var t3 := Stored(t2, s, b, f);
    assert t3 == KickedFromBlock(g, t, b, e, slot, f);
    DeltaTrans(t, t1, t2, s, multiset{}, multiset{(e, c)}, multiset{}, multiset{});
    NothingAdded(multiset{});
    NothingAdded(multiset{(e, c)});
    DeltaTrans(t, t2, t3, s, multiset{}, multiset{(e, c)}, multiset{(b, f)}, multiset{});
    assert multiset{} + multiset{(b, f)} == multiset{(b, f)};
    OverflowStays(g, t2, t3, multiset{(b, f)}, multiset{}, e, c);
    KickFlows(g, t, t3, b, f, e, c);
  }

  // ----- insertion through the secondary bucket -----

  // A key placed by way of its alternate bucket is recorded at its primary one.
  lemma ViaSecondary(g: Geometry, t: seq<Block>, u: seq<Block>, p: nat, f: nat, flows: seq<Entry>)
    requires Sound(g) && Legal(g, p, f) && p < g.totalBuckets
    requires Flowed(g, t, Carrying(Alternate(g, p, f), f), u, Empty, flows)
    requires ValidTable(u, ShapeOf(g)) && InTable(u, ShapeOf(g), p) && IsFingerprint(g.cfg, f)
    ensures Flowed(g, t, Carrying(p, f), Marked(g, u, p, f), Empty, [(p, f)] + flows)
  {
    var w := Marked(g, u, p, f);
    MarkedDelta(g, u, p, f);
    StaysWellFormed(g, u, w, multiset{}, multiset{});
    OtaKeptTrans(t, u, w);
    var all := [(p, f)] + flows;
    assert all[1..] == flows;
    forall i | 0 <= i < |all|
      ensures Legal(g, all[i].0, all[i].1)
    {
      if i > 0 { assert all[i] == flows[i - 1]; }
    }
    forall i | 0 <= i < |all|
      ensures Recorded(g, w, all[i])
    {
      if i > 0 {
        assert all[i] == flows[i - 1];
        assert Recorded(g, u, flows[i - 1]);
        RecordedStays(g, u, w, flows[i - 1].0, flows[i - 1].1);
      } else {
        RecordedIs(g, w, p, f);
      }
    }
    forall b: nat, x: nat | Legal(g, b, x)
      ensures HeldFlows(g, t, Carrying(p, f), w, Empty, all, b, x)
    {
      ViaSecondaryAt(g, t, u, p, f, flows, b, x);
    }
    hide WellFormed, Legal, HeldFlows, Delta, Marked, Alternate;
  }

  lemma RecordedStays(g: Geometry, u: seq<Block>, w: seq<Block>, e: nat, c: nat)
    requires WellFormed(g, u) && WellFormed(g, w) && Legal(g, e, c) && OtaKept(u, w) && Recorded(g, u, (e, c))
    ensures Recorded(g, w, (e, c))
  {
    OverflowKept(g, u, w, e, c);
    hide OverflowSet, WellFormed, OtaKept;
  }

  lemma ViaSecondaryAt(g: Geometry, t: seq<Block>, u: seq<Block>, p: nat, f: nat, flows: seq<Entry>, b: nat, x: nat)
    requires Sound(g) && Legal(g, p, f) && p < g.totalBuckets && Legal(g, b, x)
    requires Flowed(g, t, Carrying(Alternate(g, p, f), f), u, Empty, flows)
    requires ValidTable(u, ShapeOf(g)) && InTable(u, ShapeOf(g), p) && IsFingerprint(g.cfg, f)
    requires WellFormed(g, Marked(g, u, p, f)) && LegalFlows(g, [(p, f)] + flows)
    ensures HeldFlows(g, t, Carrying(p, f), Marked(g, u, p, f), Empty, [(p, f)] + flows, b, x)
  {
    var w := Marked(g, u, p, f);
    var all := [(p, f)] + flows;
    assert all[1..] == flows;
    MarkedDelta(g, u, p, f);
    InTableIsLegal(g, u, b);
    DeltaAt(u, w, ShapeOf(g), multiset{}, multiset{}, b, x);
    SoundIsAligned(g);
    FlowedAt(g, t, Carrying(Alternate(g, p, f), f), u, Empty, flows, b, x);
    hide WellFormed, Legal, Delta, Marked, Alternate, Flowed, Copies, Sound;
  }
}
