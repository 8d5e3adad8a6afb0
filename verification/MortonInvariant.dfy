/** The bookkeeping that keeps every key of a Morton filter findable. Live keys
    are counted by primary bucket and fingerprint. Together the two candidate
    buckets of a fingerprint hold as many copies as there are live keys, and a
    bucket whose overflow bit is clear holds all copies of its own keys. */
module MortonInvariant {
  import opened Arith
  import opened MortonGeometry
  import opened MortonTable

  type Entry = (nat, nat)

  // A fingerprint that has been taken out of the table and is on its way into a bucket.
  datatype Hand = Empty | Carrying(bucket: nat, f: nat)

  function One(hit: bool): nat {
    if hit then 1 else 0
  }

  function ShapeOf(g: Geometry): Shape {
    Shape(g.cfg.bucketsPerBlock, g.cfg.slotsPerBucket, g.cfg.maxFingerprints, g.cfg.otaBits)
  }

  // The packed layout holds in every block and every stored fingerprint is in
  // a bucket that suits it.
  ghost predicate WellFormed(g: Geometry, t: seq<Block>) {
    && Sound(g)
    && ValidTable(t, ShapeOf(g))
    && |t| * g.cfg.bucketsPerBlock == g.totalBuckets
    && forall b: nat, f: nat | InTable(t, ShapeOf(g), b) && Copies(t, ShapeOf(g), b, f) > 0 :: Legal(g, b, f)
  }

  lemma InTableIsLegal(g: Geometry, t: seq<Block>, b: nat)
    requires Sound(g) && |t| * g.cfg.bucketsPerBlock == g.totalBuckets
    ensures InTable(t, ShapeOf(g), b) <==> b < g.totalBuckets
  {
    var n := g.cfg.bucketsPerBlock;
    if b < g.totalBuckets {
      DivUpper(b, n, |t|);
      DivNonNeg(b, n);
    } else {
      DivLower(b, n, |t|);
    }
  }

  ghost function Held(g: Geometry, t: seq<Block>, hand: Hand, b: nat, f: nat): nat
    requires ValidTable(t, ShapeOf(g)) && InTable(t, ShapeOf(g), b)
  {
    Copies(t, ShapeOf(g), b, f) + if hand == Carrying(b, f) then 1 else 0
  }

  ghost predicate OverflowSet(g: Geometry, t: seq<Block>, b: nat, f: nat)
    requires Sound(g) && ValidTable(t, ShapeOf(g)) && InTable(t, ShapeOf(g), b) && IsFingerprint(g.cfg, f)
  {
    OtaIndexInRange(g, b, f);
    t[BlockOf(b, ShapeOf(g))].ota[OtaIndex(g, b, f)]
  }

  // What is true of one fingerprint and one of its candidate buckets.
  ghost predicate Balanced(g: Geometry, t: seq<Block>, hand: Hand, live: multiset<Entry>, b: nat, f: nat)
    requires WellFormed(g, t) && Legal(g, b, f)
  {
    InTableIsLegal(g, t, b);
    AlternateInvolution(g, b, f);
    InTableIsLegal(g, t, Alternate(g, b, f));
    var a := Alternate(g, b, f);
    && Held(g, t, hand, b, f) + Held(g, t, hand, a, f) == live[(b, f)] + live[(a, f)]
    && (!OverflowSet(g, t, b, f) ==> live[(b, f)] <= Held(g, t, hand, b, f))
  }

  ghost predicate Tracks(g: Geometry, t: seq<Block>, hand: Hand, live: multiset<Entry>) {
    && WellFormed(g, t)
    && (hand.Carrying? ==> Legal(g, hand.bucket, hand.f))
    && (forall e | e in live :: Legal(g, e.0, e.1))
    && forall b: nat, f: nat | Legal(g, b, f) :: Balanced(g, t, hand, live, b, f)
  }

  // A live key is found: its fingerprint is in the primary bucket, or it is in
  // the alternate bucket and the primary's overflow bit says so.
  lemma LiveIsFound(g: Geometry, t: seq<Block>, live: multiset<Entry>, b: nat, f: nat)
    requires Tracks(g, t, Empty, live) && (b, f) in live
    ensures Legal(g, b, f) && Alternate(g, b, f) < g.totalBuckets
    ensures InTable(t, ShapeOf(g), b) && InTable(t, ShapeOf(g), Alternate(g, b, f))
    ensures Copies(t, ShapeOf(g), b, f) > 0
            || (OverflowSet(g, t, b, f) && Copies(t, ShapeOf(g), Alternate(g, b, f), f) > 0)
  {
    InTableIsLegal(g, t, b);
    assert Balanced(g, t, Empty, live, b, f);
    AlternateInvolution(g, b, f);
    InTableIsLegal(g, t, Alternate(g, b, f));
    hide WellFormed, Legal, Alternate, Copies, OverflowSet, ValidTable;
  }

  // The parts of the definitions, for proofs that keep them closed.
  lemma BalancedMeans(g: Geometry, t: seq<Block>, hand: Hand, live: multiset<Entry>, b: nat, f: nat)
    requires WellFormed(g, t) && Legal(g, b, f)
    ensures b < g.totalBuckets && Sound(g) && ValidTable(t, ShapeOf(g)) && IsFingerprint(g.cfg, f)
    ensures InTable(t, ShapeOf(g), b)
    ensures var a := Alternate(g, b, f);
            && a < g.totalBuckets && Legal(g, a, f) && Alternate(g, a, f) == b && InTable(t, ShapeOf(g), a)
            && (Balanced(g, t, hand, live, b, f) <==>
                  && Held(g, t, hand, b, f) + Held(g, t, hand, a, f) == live[(b, f)] + live[(a, f)]
                  && (!OverflowSet(g, t, b, f) ==> live[(b, f)] <= Held(g, t, hand, b, f)))
  {
    InTableIsLegal(g, t, b);
    AlternateInvolution(g, b, f);
    InTableIsLegal(g, t, Alternate(g, b, f));
    hide Alternate, OverflowSet, Held, Sound, IsFingerprint;
  }

  // A fingerprint is stored in one of its two buckets exactly when a key with
  // it is live in one of them.
  lemma StoredExactly(g: Geometry, t: seq<Block>, live: multiset<Entry>, b: nat, f: nat)
    requires Tracks(g, t, Empty, live) && Legal(g, b, f)
    ensures b < g.totalBuckets && Alternate(g, b, f) < g.totalBuckets && ValidTable(t, ShapeOf(g))
    ensures InTable(t, ShapeOf(g), b) && InTable(t, ShapeOf(g), Alternate(g, b, f))
    ensures Copies(t, ShapeOf(g), b, f) > 0 || Copies(t, ShapeOf(g), Alternate(g, b, f), f) > 0
            <==> (b, f) in live || (Alternate(g, b, f), f) in live
  {
    var a := Alternate(g, b, f);
    hide *;
    TracksAt(g, t, Empty, live, b, f);
    BalancedMeans(g, t, Empty, live, b, f);
    HeldIs(g, t, Empty, b, f);
    HeldIs(g, t, Empty, a, f);
  }

  lemma HeldIs(g: Geometry, t: seq<Block>, hand: Hand, b: nat, f: nat)
    requires ValidTable(t, ShapeOf(g)) && InTable(t, ShapeOf(g), b)
    ensures Held(g, t, hand, b, f) == Copies(t, ShapeOf(g), b, f) + if hand == Carrying(b, f) then 1 else 0
  {
    hide Copies;
  }

  lemma TracksAt(g: Geometry, t: seq<Block>, hand: Hand, live: multiset<Entry>, b: nat, f: nat)
    requires Tracks(g, t, hand, live) && Legal(g, b, f)
    ensures WellFormed(g, t) && Balanced(g, t, hand, live, b, f)
  {
    hide WellFormed, Balanced, Legal;
  }

  lemma CopiesAt(t: seq<Block>, u: seq<Block>, s: Shape, bucket: nat, f: nat, delta: int, b: nat, x: nat)
    requires ValidTable(t, s) && ValidTable(u, s) && |t| == |u| && CopiesChanged(t, u, s, bucket, f, delta)
    requires InTable(t, s, b)
    ensures InTable(u, s, b)
    ensures Copies(u, s, b, x) == Copies(t, s, b, x) + if b == bucket && x == f then delta else 0
  {
    hide Copies, ValidTable;
  }

  // ----- flows -----

  // A flow moves one fingerprint from a bucket to its alternate bucket.
  ghost predicate LegalFlows(g: Geometry, flows: seq<Entry>)
    requires Aligned(g)
  {
    forall i | 0 <= i < |flows| :: Legal(g, flows[i].0, flows[i].1)
  }

  ghost function Net(g: Geometry, flows: seq<Entry>, b: nat, f: nat): int
    requires Aligned(g) && LegalFlows(g, flows)
  {
    if flows == [] then 0
    else
      var (x, c) := flows[0];
      assert Legal(g, x, c);
      Net(g, flows[1..], b, f) + One(b == Alternate(g, x, c) && f == c) - One(b == x && f == c)
  }

  // Flows stay within a pair of candidate buckets and leave only their sources.
  lemma {:induction false} NetLaws(g: Geometry, flows: seq<Entry>, b: nat, f: nat)
    requires Aligned(g) && LegalFlows(g, flows) && Legal(g, b, f)
    ensures Alternate(g, b, f) < g.totalBuckets
    ensures Net(g, flows, b, f) + Net(g, flows, Alternate(g, b, f), f) == 0
    ensures Net(g, flows, b, f) < 0 ==> (b, f) in flows
  {
    AlternateInvolution(g, b, f);
    if flows != [] {
      var (x, c) := flows[0];
      assert Legal(g, x, c);
      NetLaws(g, flows[1..], b, f);
      AlternateInvolution(g, x, c);
      hide Alternate, Legal;
    }
  }

  // The table and the hand before and after, up to the listed flows, each of
  // which has set its overflow bit.
  ghost predicate Flowed(g: Geometry, t: seq<Block>, hand: Hand, u: seq<Block>, hand2: Hand, flows: seq<Entry>) {
    && WellFormed(g, t) && WellFormed(g, u)
    && LegalFlows(g, flows)
    && (hand2.Carrying? ==> Legal(g, hand2.bucket, hand2.f))
    && OtaKept(t, u)
    && (forall b: nat, f: nat | Legal(g, b, f) :: HeldFlows(g, t, hand, u, hand2, flows, b, f))
    && forall i | 0 <= i < |flows| :: Recorded(g, u, flows[i])
  }

  ghost predicate HeldFlows(g: Geometry, t: seq<Block>, hand: Hand, u: seq<Block>, hand2: Hand,
                            flows: seq<Entry>, b: nat, f: nat)
    requires WellFormed(g, t) && WellFormed(g, u) && LegalFlows(g, flows) && Legal(g, b, f)
  {
    InTableIsLegal(g, t, b);
    InTableIsLegal(g, u, b);
    Held(g, u, hand2, b, f) == Held(g, t, hand, b, f) + Net(g, flows, b, f)
  }

  ghost predicate Recorded(g: Geometry, u: seq<Block>, e: Entry)
    requires WellFormed(g, u) && Legal(g, e.0, e.1)
  {
    InTableIsLegal(g, u, e.0);
    OverflowSet(g, u, e.0, e.1)
  }

  lemma OverflowKept(g: Geometry, t: seq<Block>, u: seq<Block>, b: nat, f: nat)
    requires WellFormed(g, t) && WellFormed(g, u) && Legal(g, b, f) && OtaKept(t, u)
    ensures InTable(t, ShapeOf(g), b) && InTable(u, ShapeOf(g), b)
    ensures OverflowSet(g, t, b, f) ==> OverflowSet(g, u, b, f)
  {
    InTableIsLegal(g, t, b);
    InTableIsLegal(g, u, b);
    OtaIndexInRange(g, b, f);
    assert BitsKept(t[BlockOf(b, ShapeOf(g))].ota, u[BlockOf(b, ShapeOf(g))].ota);
    hide OtaIndex;
  }

  // Recorded flows preserve the bookkeeping: this is why no kick-out loses a key.
  lemma FlowTracks(g: Geometry, t: seq<Block>, hand: Hand, u: seq<Block>, hand2: Hand,
                   flows: seq<Entry>, live: multiset<Entry>)
    requires Tracks(g, t, hand, live) && Flowed(g, t, hand, u, hand2, flows)
    ensures Tracks(g, u, hand2, live)
  {
    forall b: nat, f: nat | Legal(g, b, f)
      ensures Balanced(g, u, hand2, live, b, f)
    {
      FlowBalanced(g, t, hand, u, hand2, flows, live, b, f);
    }
  }

  lemma FlowBalanced(g: Geometry, t: seq<Block>, hand: Hand, u: seq<Block>, hand2: Hand,
                     flows: seq<Entry>, live: multiset<Entry>, b: nat, f: nat)
    requires Aligned(g) && Tracks(g, t, hand, live) && Flowed(g, t, hand, u, hand2, flows) && Legal(g, b, f)
    ensures Balanced(g, u, hand2, live, b, f)
  {
    hide *;
    TracksAt(g, t, hand, live, b, f);
    FlowedAt(g, t, hand, u, hand2, flows, b, f);
    BalancedMeans(g, t, hand, live, b, f);
    BalancedMeans(g, u, hand2, live, b, f);
    FlowedAt(g, t, hand, u, hand2, flows, Alternate(g, b, f), f);
    NetLaws(g, flows, b, f);
    OverflowKept(g, t, u, b, f);
  }

  lemma FlowedAt(g: Geometry, t: seq<Block>, hand: Hand, u: seq<Block>, hand2: Hand, flows: seq<Entry>,
                 b: nat, f: nat)
    requires Aligned(g) && Flowed(g, t, hand, u, hand2, flows) && Legal(g, b, f)
    ensures WellFormed(g, t) && WellFormed(g, u) && Sound(g) && LegalFlows(g, flows) && OtaKept(t, u)
    ensures ValidTable(t, ShapeOf(g)) && InTable(t, ShapeOf(g), b)
    ensures ValidTable(u, ShapeOf(g)) && InTable(u, ShapeOf(g), b)
    ensures b < g.totalBuckets && IsFingerprint(g.cfg, f)
    ensures Held(g, u, hand2, b, f) == Held(g, t, hand, b, f) + Net(g, flows, b, f)
    ensures (b, f) in flows ==> OverflowSet(g, u, b, f)
  {
    hide *;
    FlowedMeans(g, t, hand, u, hand2, flows);
    LegalInside(g, t, b, f);
    LegalInside(g, u, b, f);
    HeldFlowsAt(g, t, hand, u, hand2, flows, b, f);
    if (b, f) in flows {
      RecordedAt(g, t, hand, u, hand2, flows, b, f);
    }
  }

  lemma FlowedMeans(g: Geometry, t: seq<Block>, hand: Hand, u: seq<Block>, hand2: Hand, flows: seq<Entry>)
    requires Flowed(g, t, hand, u, hand2, flows)
    ensures WellFormed(g, t) && WellFormed(g, u) && Sound(g) && Aligned(g) && LegalFlows(g, flows) && OtaKept(t, u)
  {
    hide ValidTable, Copies, LegalFlows, OtaKept, HeldFlows, Recorded, Legal;
  }

  // A legal bucket is in the table.
  lemma LegalInside(g: Geometry, t: seq<Block>, b: nat, f: nat)
    requires WellFormed(g, t) && Legal(g, b, f)
    ensures Sound(g) && ValidTable(t, ShapeOf(g)) && InTable(t, ShapeOf(g), b)
    ensures b < g.totalBuckets && IsFingerprint(g.cfg, f)
  {
    InTableIsLegal(g, t, b);
    hide ValidTable, Copies, IsFingerprint, Child;
  }

  lemma HeldFlowsAt(g: Geometry, t: seq<Block>, hand: Hand, u: seq<Block>, hand2: Hand, flows: seq<Entry>,
                    b: nat, f: nat)
    requires Flowed(g, t, hand, u, hand2, flows) && Legal(g, b, f) && LegalFlows(g, flows)
    requires ValidTable(t, ShapeOf(g)) && InTable(t, ShapeOf(g), b)
    requires ValidTable(u, ShapeOf(g)) && InTable(u, ShapeOf(g), b)
    ensures Held(g, u, hand2, b, f) == Held(g, t, hand, b, f) + Net(g, flows, b, f)
  {
    hide WellFormed, LegalFlows, OtaKept, Recorded, Legal, Held, Net;
    assert HeldFlows(g, t, hand, u, hand2, flows, b, f);
  }

  lemma RecordedAt(g: Geometry, t: seq<Block>, hand: Hand, u: seq<Block>, hand2: Hand, flows: seq<Entry>,
                   b: nat, f: nat)
    requires Flowed(g, t, hand, u, hand2, flows) && (b, f) in flows && Sound(g) && Legal(g, b, f)
    requires ValidTable(u, ShapeOf(g)) && InTable(u, ShapeOf(g), b) && IsFingerprint(g.cfg, f)
    ensures OverflowSet(g, u, b, f)
  {
    hide WellFormed, LegalFlows, OtaKept, HeldFlows, Legal, OverflowSet;
    var i :| 0 <= i < |flows| && flows[i] == (b, f);
    assert Recorded(g, u, flows[i]);
  }

  // ----- admitting, dropping and removing -----

  // A new key is live as soon as its fingerprint is carried to its primary bucket.
  lemma Admit(g: Geometry, t: seq<Block>, live: multiset<Entry>, b: nat, f: nat)
    requires Tracks(g, t, Empty, live) && Legal(g, b, f)
    ensures Tracks(g, t, Carrying(b, f), live + multiset{(b, f)})
  {
    hide *;
    TracksMeans(g, t, Empty, live);
    forall x: nat, c: nat | Legal(g, x, c)
      ensures Balanced(g, t, Carrying(b, f), live + multiset{(b, f)}, x, c)
    {
      AdmitBalanced(g, t, live, b, f, x, c);
    }
    MakeTracks(g, t, Carrying(b, f), live + multiset{(b, f)});
  }

  lemma TracksMeans(g: Geometry, t: seq<Block>, hand: Hand, live: multiset<Entry>)
    requires Tracks(g, t, hand, live)
    ensures WellFormed(g, t) && Aligned(g) && forall e | e in live :: Legal(g, e.0, e.1)
  {
    hide ValidTable, Copies, Legal, Balanced;
  }

  lemma MakeTracks(g: Geometry, t: seq<Block>, hand: Hand, live: multiset<Entry>)
    requires WellFormed(g, t) && Aligned(g)
    requires (hand.Carrying? ==> Legal(g, hand.bucket, hand.f)) && forall e | e in live :: Legal(g, e.0, e.1)
    requires forall b: nat, f: nat | Legal(g, b, f) :: Balanced(g, t, hand, live, b, f)
    ensures Tracks(g, t, hand, live)
  {
    hide WellFormed, Aligned, Legal, Balanced;
  }

  lemma AdmitBalanced(g: Geometry, t: seq<Block>, live: multiset<Entry>, b: nat, f: nat, x: nat, c: nat)
    requires Aligned(g) && Tracks(g, t, Empty, live) && Legal(g, b, f) && Legal(g, x, c)
    ensures WellFormed(g, t) && Balanced(g, t, Carrying(b, f), live + multiset{(b, f)}, x, c)
  {
    hide *;
    var more := live + multiset{(b, f)};
    TracksAt(g, t, Empty, live, x, c);
    BalancedMeans(g, t, Empty, live, x, c);
    BalancedMeans(g, t, Carrying(b, f), more, x, c);
    var a := Alternate(g, x, c);
    HeldIs(g, t, Empty, x, c);
    HeldIs(g, t, Empty, a, c);
    HeldIs(g, t, Carrying(b, f), x, c);
    HeldIs(g, t, Carrying(b, f), a, c);
    OneMore(live, (b, f), (x, c));
    OneMore(live, (b, f), (a, c));
  }

  lemma OneMore(live: multiset<Entry>, e: Entry, x: Entry)
    ensures (live + multiset{e})[x] == live[x] + if x == e then 1 else 0
    ensures e in live ==> (live - multiset{e})[x] == live[x] - if x == e then 1 else 0
  {
  }

  // The live key that a lost copy of f in bucket b is charged to.
  ghost function Charged(g: Geometry, live: multiset<Entry>, b: nat, f: nat): Entry
    requires Aligned(g) && b < g.totalBuckets
  {
    if (b, f) in live then (b, f) else (Alternate(g, b, f), f)
  }

  // A fingerprint that is given up costs exactly one live key.
  lemma Drop(g: Geometry, t: seq<Block>, live: multiset<Entry>, b: nat, f: nat)
    requires Tracks(g, t, Carrying(b, f), live)
    ensures b < g.totalBuckets && Charged(g, live, b, f) in live
    ensures Tracks(g, t, Empty, live - multiset{Charged(g, live, b, f)})
  {
    AlternateInvolution(g, b, f);
    InTableIsLegal(g, t, b);
    var lost := Charged(g, live, b, f);
    assert Balanced(g, t, Carrying(b, f), live, b, f);
    assert Held(g, t, Carrying(b, f), b, f) >= 1;
    assert lost in live by { hide Alternate, Legal, WellFormed, Copies, OverflowSet; }
    forall x: nat, c: nat | Legal(g, x, c)
      ensures Balanced(g, t, Empty, live - multiset{lost}, x, c)
    {
      DropBalanced(g, t, live, b, f, x, c);
    }
  }

  lemma DropBalanced(g: Geometry, t: seq<Block>, live: multiset<Entry>, b: nat, f: nat, x: nat, c: nat)
    requires Aligned(g) && Tracks(g, t, Carrying(b, f), live) && Legal(g, x, c) && Legal(g, b, f)
    requires b < g.totalBuckets && Charged(g, live, b, f) in live
    ensures WellFormed(g, t) && Balanced(g, t, Empty, live - multiset{Charged(g, live, b, f)}, x, c)
  {
    hide *;
    var lost := Charged(g, live, b, f);
    var less := live - multiset{lost};
    ChargedIs(g, live, b, f);
    TracksAt(g, t, Carrying(b, f), live, x, c);
    TracksAt(g, t, Carrying(b, f), live, b, f);
    BalancedMeans(g, t, Carrying(b, f), live, x, c);
    BalancedMeans(g, t, Carrying(b, f), live, b, f);
    BalancedMeans(g, t, Empty, less, x, c);
    var a := Alternate(g, x, c);
    HeldIs(g, t, Empty, x, c);
    HeldIs(g, t, Empty, a, c);
    HeldIs(g, t, Carrying(b, f), x, c);
    HeldIs(g, t, Carrying(b, f), a, c);
    OneMore(live, lost, (x, c));
    OneMore(live, lost, (a, c));
  }

  lemma ChargedIs(g: Geometry, live: multiset<Entry>, b: nat, f: nat)
    requires Aligned(g) && b < g.totalBuckets
    ensures Charged(g, live, b, f) == if (b, f) in live then (b, f) else (Alternate(g, b, f), f)
  {
    hide Alternate;
  }

  // Taking a copy out of the table is carrying it.
  lemma PickUp(g: Geometry, t: seq<Block>, u: seq<Block>, live: multiset<Entry>, b: nat, f: nat)
    requires Tracks(g, t, Empty, live) && WellFormed(g, u) && Legal(g, b, f) && OtaKept(t, u)
    requires CopiesChanged(t, u, ShapeOf(g), b, f, -1)
    ensures Tracks(g, u, Carrying(b, f), live)
  {
    hide *;
    PickUpFlows(g, t, u, live, b, f);
    FlowTracks(g, t, Empty, u, Carrying(b, f), [], live);
  }

  lemma PickUpFlows(g: Geometry, t: seq<Block>, u: seq<Block>, live: multiset<Entry>, b: nat, f: nat)
    requires Tracks(g, t, Empty, live) && WellFormed(g, u) && Legal(g, b, f) && OtaKept(t, u)
    requires CopiesChanged(t, u, ShapeOf(g), b, f, -1)
    ensures Flowed(g, t, Empty, u, Carrying(b, f), [])
  {
    hide *;
    TracksMeans(g, t, Empty, live);
    OtaKeptLength(t, u);
    NoFlows(g);
    forall x: nat, c: nat | Legal(g, x, c)
      ensures HeldFlows(g, t, Empty, u, Carrying(b, f), [], x, c)
    {
      PickUpHeld(g, t, u, b, f, x, c);
    }
    MakePickedUp(g, t, u, b, f);
  }

  lemma OtaKeptLength(t: seq<Block>, u: seq<Block>)
    requires OtaKept(t, u)
    ensures |t| == |u|
  {
  }

  lemma NoFlows(g: Geometry)
    requires Aligned(g)
    ensures LegalFlows(g, [])
  {
  }

  lemma MakePickedUp(g: Geometry, t: seq<Block>, u: seq<Block>, b: nat, f: nat)
    requires WellFormed(g, t) && WellFormed(g, u) && Aligned(g) && Legal(g, b, f) && OtaKept(t, u) && LegalFlows(g, [])
    requires forall x: nat, c: nat | Legal(g, x, c) :: HeldFlows(g, t, Empty, u, Carrying(b, f), [], x, c)
    ensures Flowed(g, t, Empty, u, Carrying(b, f), [])
  {
    hide WellFormed, Aligned, Legal, OtaKept, LegalFlows, HeldFlows;
  }

  lemma PickUpHeld(g: Geometry, t: seq<Block>, u: seq<Block>, b: nat, f: nat, x: nat, c: nat)
    requires WellFormed(g, t) && WellFormed(g, u) && Legal(g, b, f) && |t| == |u| && Legal(g, x, c)
    requires CopiesChanged(t, u, ShapeOf(g), b, f, -1)
    ensures HeldFlows(g, t, Empty, u, Carrying(b, f), [], x, c)
  {
    InTableIsLegal(g, t, x);
    hide WellFormed, Legal, Copies, Sound;
  }

  // Deleting a live key from its primary bucket, or from its alternate bucket
  // when the primary holds no copy, ends exactly that key.
  lemma RemoveLive(g: Geometry, t: seq<Block>, u: seq<Block>, live: multiset<Entry>, b: nat, f: nat, from: nat)
    requires Tracks(g, t, Empty, live) && (b, f) in live && Legal(g, b, f)
    requires WellFormed(g, u) && OtaKept(t, u) && CopiesChanged(t, u, ShapeOf(g), from, f, -1)
    requires InTable(t, ShapeOf(g), b)
    requires from == b || (from == Alternate(g, b, f) && Copies(t, ShapeOf(g), b, f) == 0)
    ensures Tracks(g, u, Empty, live - multiset{(b, f)})
  {
    AlternateInvolution(g, b, f);
    if from == b {
      PickUp(g, t, u, live, b, f);
      Drop(g, u, live, b, f);
    } else {
      forall x: nat, c: nat | Legal(g, x, c)
        ensures Balanced(g, u, Empty, live - multiset{(b, f)}, x, c)
      {
        RemoveFromAlternate(g, t, u, live, b, f, x, c);
      }
    }
  }

  lemma RemoveFromAlternate(g: Geometry, t: seq<Block>, u: seq<Block>, live: multiset<Entry>, b: nat, f: nat,
                            x: nat, c: nat)
    requires Aligned(g) && Tracks(g, t, Empty, live) && (b, f) in live && Legal(g, b, f) && Legal(g, x, c)
    requires WellFormed(g, u) && ValidTable(t, ShapeOf(g)) && ValidTable(u, ShapeOf(g)) && |t| == |u| && OtaKept(t, u)
    requires b < g.totalBuckets && CopiesChanged(t, u, ShapeOf(g), Alternate(g, b, f), f, -1)
    requires InTable(t, ShapeOf(g), b) && Copies(t, ShapeOf(g), b, f) == 0
    ensures Balanced(g, u, Empty, live - multiset{(b, f)}, x, c)
  {
    hide *;
    var less := live - multiset{(b, f)};
    TracksAt(g, t, Empty, live, x, c);
    TracksAt(g, t, Empty, live, b, f);
    BalancedMeans(g, t, Empty, live, x, c);
    BalancedMeans(g, t, Empty, live, b, f);
    BalancedMeans(g, u, Empty, less, x, c);
    var a, from := Alternate(g, x, c), Alternate(g, b, f);
    OverflowKept(g, t, u, x, c);
    HeldIs(g, t, Empty, x, c);
    HeldIs(g, t, Empty, a, c);
    HeldIs(g, u, Empty, x, c);
    HeldIs(g, u, Empty, a, c);
    HeldIs(g, t, Empty, b, f);
    CopiesAt(t, u, ShapeOf(g), from, f, -1, x, c);
    CopiesAt(t, u, ShapeOf(g), from, f, -1, a, c);
    OneMore(live, (b, f), (x, c));
    OneMore(live, (b, f), (a, c));
  }
}
