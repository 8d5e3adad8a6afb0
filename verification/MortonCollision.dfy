/** Two keys of a Morton filter that share a fingerprint and have swapped candidate
    buckets: deleting the one that was never inserted removes the other. */
module MortonCollision {
  import opened Arith
  import opened MortonGeometry
  import opened MortonTable
  import opened MortonInvariant
  import opened MortonSteps
  import opened MortonResize
  import opened MortonFilter

  const STRANGER: nat := 0
  const RESIDENT: nat := 1

  // A table of 4096 buckets in blocks of 64. The high eight bits of a hash are
  // the fingerprint, the next twelve the bucket.
  function Example(): Geometry {
    Geometry(Config(3, 64, 46, 16, 8, TableBasedOffset, LemireFingerprintMultiply, false,
                    (key: nat) => if key == STRANGER then 0 else 4013 * 0x1000_0000_0000), 4096, 0)
  }

  lemma Powers()
    ensures Pow2(0) == 1 && Pow2(44) == 0x1000_0000_0000 && Pow2(56) == 0x100_0000_0000_0000
  {
    assert Pow2(12) == 0x1000;
    hide Pow2;
    PowerOf32();
    Pow2Add(32, 12);
    Pow2Add(44, 12);
    Pow2Zero();
  }

  lemma ExampleIsSound()
    ensures Sound(Example()) && OriginalTotal(Example()) == 4096
  {
    Powers();
    hide Pow2;
  }

  // Both keys have fingerprint 0; one belongs to bucket 0, the other to 4013.
  lemma ExampleKeys()
    ensures Sound(Example())
    ensures var g := Example();
            && MapToBucket(g, g.cfg.hash(STRANGER)) == 0 && Fingerprint(g.cfg, g.cfg.hash(STRANGER)) == 0
            && MapToBucket(g, g.cfg.hash(RESIDENT)) == 4013 && Fingerprint(g.cfg, g.cfg.hash(RESIDENT)) == 0
            && Alternate(g, 0, 0) == 4013
  {
    ExampleIsSound();
    Powers();
    hide Pow2;
    assert OFFSETS[0] == 83;
  }

  ghost function EmptyTable(): seq<Block> {
    seq(64, _ => EmptyBlock(Example().cfg))
  }

  lemma EmptyTableTracks()
    ensures Tracks(Example(), EmptyTable(), Empty, multiset{})
  {
    ExampleIsSound();
    hide Tracks, Pow2;
    EmptyTracks(Example(), EmptyTable());
  }

  lemma ResidentIsLegal()
    ensures Aligned(Example()) && Legal(Example(), 4013, 0)
  {
    ExampleKeys();
    var raw := Example().cfg.hash(RESIDENT);
    HashFits(raw);
    hide Legal, MapToBucket, Fingerprint;
    MapToBucketLegal(Example(), raw);
  }

  // A table that holds just the resident's fingerprint.
  lemma ResidentTable() returns (t: seq<Block>)
    ensures Tracks(Example(), t, Empty, multiset{(4013, 0)})
  {
    hide Tracks, Legal, EmptyTable, Example, ValidTable, WellFormed, Flowed, Delta, Aligned;
    var g, empty := Example(), EmptyTable();
    EmptyTableTracks();
    ResidentIsLegal();
    RoomInEmpty(g, empty);
    BucketOfTable(g, empty, 4013);
    t := Stored(empty, ShapeOf(g), 4013, 0);
    hide *;
    Admit(g, empty, multiset{}, 4013, 0);
    StoreFlows(g, empty, 4013, 0);
    var none: multiset<Entry>, one: multiset<Entry> := multiset{}, multiset{(4013, 0)};
    assert none + one == one;
    FlowTracks(g, empty, Carrying(4013, 0), t, Empty, [], one);
  }

  lemma RoomInEmpty(g: Geometry, t: seq<Block>)
    requires Tracks(g, t, Empty, multiset{}) && g == Example() && t == EmptyTable()
    ensures WellFormed(g, t) && ValidTable(t, ShapeOf(g)) && InTable(t, ShapeOf(g), 4013)
    ensures HasRoom(t, ShapeOf(g), 4013)
  {
    InTableIsLegal(g, t, 4013);
    BucketOfTable(g, t, 4013);
  }

  // Deleting the stranger empties the filter.
  method DeleteStranger(filter: MortonFilter)
    requires filter.Valid() && filter.geo == Example() && filter.live == multiset{(4013, 0)}
    modifies filter`live, filter.storage
    ensures filter.Valid() && filter.live == multiset{}
  {
    ExampleKeys();
    hide *;
    filter.ValidMeans();
    TracksSound(filter.geo, filter.storage[..], Empty, filter.live);
    filter.EntryIs(STRANGER);
    filter.IsLiveMeans(STRANGER);
    filter.TwinIsLiveMeans(STRANGER);
    TwinIs(filter.geo, 0, 0);
    var ok := filter.DeleteItem(STRANGER);
  }
}
