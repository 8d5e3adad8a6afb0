/** The packed cuckoo table: buckets of sorted tags in a byte array, where a bucket may
    start in the middle of a byte. Writing a bucket and reading it back gives the
    tags sorted, and no neighbour changes. */
module PackedTable {
  import opened Arith
  import opened BitFields
  import opened Lanes
  import opened PackedBucket
  import opened Windows
  import PermCode
  import opened VacuumCode

  const BYTE: nat := 8

  // The widths of the direct bits for which the table is laid out.
  predicate Supported(d: nat) {
    d == 1 || d == 2 || d == 3 || d == 4 || d == 5 || d == 9 || d == 13
  }

  function BucketBits(d: nat): nat {
    CODE_BITS + 4 * d
  }

  // Bytes that are loaded and stored at once.
  function WindowBytes(d: nat): nat {
    if d == 1 then 2 else if d <= 5 then 4 else 8
  }

  function FirstByte(d: nat, i: nat): nat {
    MulNonNeg(BucketBits(d), i);
    DivNonNeg(BucketBits(d) * i, 8);
    BucketBits(d) * i / 8
  }

  // Every other bucket of 20 or 28 bits starts in the middle of a byte.
  function InByte(d: nat, i: nat): nat {
    if d == 2 || d == 4 then i % 2 * 4 else 0
  }

  // Whole bytes for every bucket and seven more, as eight are loaded at once.
  function TableBytes(d: nat, n: nat): nat {
    (BucketBits(d) + 7) / 8 * n + 7
  }

  lemma WholeBytes(k: nat, n: nat, i: nat, w: nat)
    requires i < n && w <= k + 7
    ensures (8 * k) * i / 8 == k * i && (8 * k) * i == k * i * 8 && k * i + w <= k * n + 7
  {
    MulAssoc(8, k, i);
    DivModUnique((8 * k) * i, 8, k * i, 0);
    MulLe(i + 1, n, k);
  }

  lemma HalfBytes(k: nat, n: nat, i: nat)
    requires i < n
    ensures (8 * k + 4) * i / 8 == k * i + i / 2 && (8 * k + 4) * i == (k * i + i / 2) * 8 + i % 2 * 4
    ensures k * i + i / 2 + 4 <= (k + 1) * n + 7
  {
    MulAdd(8 * k, 4, i);
    MulAssoc(8, k, i);
    DivModUnique((8 * k + 4) * i, 8, k * i + i / 2, i % 2 * 4);
    MulLe(i, n, k);
    MulAdd(k, 1, n);
  }

  lemma WindowFits(d: nat, n: nat, i: nat)
    requires Supported(d) && i < n
    ensures FirstByte(d, i) * BYTE + InByte(d, i) == BucketBits(d) * i
    ensures InByte(d, i) + BucketBits(d) <= WindowBytes(d) * BYTE && InByte(d, i) + CODE_BITS <= 2 * BYTE
    ensures FirstByte(d, i) + WindowBytes(d) <= TableBytes(d, n) && 2 <= WindowBytes(d)
  {
    if d % 2 == 1 {
      var k := (d + 3) / 2;
      assert BucketBits(d) == 8 * k && (BucketBits(d) + 7) / 8 == k;
      WholeBytes(k, n, i, WindowBytes(d));
    } else {
      var k := (d + 2) / 2;
      assert BucketBits(d) == 8 * k + 4 && (BucketBits(d) + 7) / 8 == k + 1;
      HalfBytes(k, n, i);
    }
  }

  // The bits of one bucket.
  function Code(bytes: seq<nat>, d: nat, i: nat): nat {
    MulNonNeg(BucketBits(d), i);
    Extract(Value(bytes, BYTE), BucketBits(d) * i, BucketBits(d))
  }

  // Two buckets do not overlap.
  lemma BucketsApart(d: nat, i: nat, j: nat)
    requires i < j
    ensures 0 <= BucketBits(d) * i && BucketBits(d) * i + BucketBits(d) <= BucketBits(d) * j
  {
    MulNonNeg(BucketBits(d), i);
    MulLe(i + 1, j, BucketBits(d));
    MulAdd(i, 1, BucketBits(d));
  }

  // One bucket changed among others.
  lemma CodeWritten(x: nat, y: nat, d: nat, n: nat, i: nat, v: nat)
    requires i < n && v < Pow2(BucketBits(d)) && 0 <= BucketBits(d) * i
    requires y == Deposit(x, BucketBits(d) * i, BucketBits(d), v)
    ensures Extract(y, BucketBits(d) * i, BucketBits(d)) == v
    ensures forall j: nat | j < n && j != i ::
              0 <= BucketBits(d) * j
              && Extract(y, BucketBits(d) * j, BucketBits(d)) == Extract(x, BucketBits(d) * j, BucketBits(d))
  {
    hide Pow2, Extract, Deposit, BucketBits;
    var b := BucketBits(d);
    ExtractDeposit(x, b * i, b, v, 0, 0);
    forall j: nat | j < n && j != i
      ensures 0 <= b * j && Extract(y, b * j, b) == Extract(x, b * j, b)
    {
      MulNonNeg(b, j);
      if j < i {
        BucketsApart(d, j, i);
      } else {
        BucketsApart(d, i, j);
      }
      ExtractDeposit(x, b * i, b, v, b * j, b);
    }
  }

  // The codes after a bucket has been written through its window.
  lemma WriteLaws(bytes: seq<nat>, d: nat, n: nat, i: nat, v: nat)
    requires Supported(d) && i < n && |bytes| == TableBytes(d, n) && LanesFit(bytes, BYTE) && v < Pow2(BucketBits(d))
    ensures FirstByte(d, i) + WindowBytes(d) <= |bytes|
    ensures var u := Deposit(Load(bytes, BYTE, FirstByte(d, i), WindowBytes(d)), InByte(d, i), BucketBits(d), v);
            var r := Store(bytes, BYTE, FirstByte(d, i), WindowBytes(d), u);
            && LanesFit(r, BYTE) && Code(r, d, i) == v
            && forall j: nat | j < n && j != i :: Code(r, d, j) == Code(bytes, d, j)
  {
    hide Pow2, Extract, Deposit, Load, Store, Value, WindowBytes, FirstByte, InByte, BucketBits, TableBytes;
    WindowFits(d, n, i);
    var p, o, w, b := FirstByte(d, i), InByte(d, i), WindowBytes(d), BucketBits(d);
    WindowDeposit(bytes, BYTE, p, w, o, b, v);
    var u := Deposit(Load(bytes, BYTE, p, w), o, b, v);
    var r := Store(bytes, BYTE, p, w, u);
    CodeWritten(Value(bytes, BYTE), Value(r, BYTE), d, n, i, v);
  }

  // Reading the parts of a bucket from its window.
  lemma ReadLaws(bytes: seq<nat>, d: nat, n: nat, i: nat)
    requires Supported(d) && i < n && |bytes| == TableBytes(d, n) && LanesFit(bytes, BYTE)
    ensures FirstByte(d, i) + WindowBytes(d) <= |bytes| && FirstByte(d, i) + 2 <= |bytes|
    ensures Extract(Load(bytes, BYTE, FirstByte(d, i), 2), InByte(d, i), CODE_BITS) == CodePart(Code(bytes, d, i))
    ensures forall k: nat | k < 4 ::
              Extract(Load(bytes, BYTE, FirstByte(d, i), WindowBytes(d)), InByte(d, i) + (CODE_BITS + k * d), d)
              == Extract(Code(bytes, d, i), CODE_BITS + k * d, d)
  {
    hide Pow2, Extract, Load, Value, FirstByte, InByte, TableBytes, CodePart, Code;
    WindowFits(d, n, i);
    CodeIs(bytes, d, i);
    var p, o, w, b := FirstByte(d, i), InByte(d, i), WindowBytes(d), BucketBits(d);
    MulNonNeg(b, i);
    var x := Value(bytes, BYTE);
    WindowExtract(bytes, BYTE, p, 2, o, CODE_BITS);
    NestedExtract(x, b * i, b, 0, CODE_BITS);
    CodePartIs(Extract(x, b * i, b));
    forall k: nat | k < 4
      ensures Extract(Load(bytes, BYTE, p, w), o + (CODE_BITS + k * d), d)
              == Extract(Code(bytes, d, i), CODE_BITS + k * d, d)
    {
      MulLe(k + 1, 4, d);
      MulAdd(k, 1, d);
      MulNonNeg(k, d);
      WindowExtract(bytes, BYTE, p, w, o + (CODE_BITS + k * d), d);
      NestedExtract(x, b * i, b, CODE_BITS + k * d, d);
    }
  }

  lemma CodeIs(bytes: seq<nat>, d: nat, i: nat)
    ensures 0 <= BucketBits(d) * i
    ensures Code(bytes, d, i) == Extract(Value(bytes, BYTE), BucketBits(d) * i, BucketBits(d))
  {
    MulNonNeg(BucketBits(d), i);
    hide Extract, Value;
  }

  lemma CodePartIs(x: nat)
    ensures CodePart(x) == Extract(x, 0, CODE_BITS)
  {
    CodePower();
    Pow2Zero();
    hide Pow2;
    DivModUnique(x, 1, x, 0);
  }

  // ----- the buckets of the table -----

  // Every bucket holds one of the codes.
  ghost predicate Coded(bytes: seq<nat>, d: nat, n: nat) {
    forall i: nat | i < n :: CodePart(Code(bytes, d, i)) < ENTRIES
  }

  ghost function TableOf(bytes: seq<nat>, d: nat, n: nat, dec: seq<nat>): (t: seq<seq<nat>>)
    requires Coded(bytes, d, n) && |dec| == ENTRIES
    ensures |t| == n
  {
    seq(n, i requires 0 <= i < n => Unpacked(Code(bytes, d, i), d, dec))
  }

  lemma TableWritten(bytes: seq<nat>, r: seq<nat>, d: nat, n: nat, dec: seq<nat>, i: nat, s: seq<nat>)
    requires Coded(bytes, d, n) && |dec| == ENTRIES && i < n
    requires CodePart(Code(r, d, i)) < ENTRIES && Unpacked(Code(r, d, i), d, dec) == s
    requires forall j: nat | j < n && j != i :: Code(r, d, j) == Code(bytes, d, j)
    ensures Coded(r, d, n) && TableOf(r, d, n, dec) == TableOf(bytes, d, n, dec)[i := s]
  {
    hide Code, CodePart, Unpacked;
  }

  lemma TableAt(bytes: seq<nat>, d: nat, n: nat, dec: seq<nat>, i: nat)
    requires Coded(bytes, d, n) && |dec| == ENTRIES && i < n
    ensures CodePart(Code(bytes, d, i)) < ENTRIES
    ensures TableOf(bytes, d, n, dec)[i] == Unpacked(Code(bytes, d, i), d, dec)
  {
    hide Code, CodePart, Unpacked;
  }

  // ----- the empty table -----

  // The first quadruple has the first code.
  lemma ZeroIsCoded(enc: seq<nat>, dec: seq<nat>)
    requires PermCode.Filled(enc, dec, ENTRIES)
    ensures |dec| == ENTRIES && PermCode.Unpack(dec[0]) == Quad(0, 0, 0, 0)
  {
    hide *;
    var q := Quad(0, 0, 0, 0);
    FirstPosition(q);
    EntryAt(enc, dec, q);
    PermCode.UnpackPack(q);
  }

  lemma EntryAt(enc: seq<nat>, dec: seq<nat>, q: Quad)
    requires PermCode.Filled(enc, dec, ENTRIES) && PermCode.Ascending(q)
    ensures |dec| == ENTRIES && dec[PermCode.Position(q)] == PermCode.Pack(q)
  {
    hide PermCode.Position, PermCode.Pack;
    assert PermCode.Entry(enc, dec, q);
  }

  lemma FirstPosition(q: Quad)
    requires q == Quad(0, 0, 0, 0)
    ensures PermCode.Ascending(q) && PermCode.Position(q) == 0
  {
    hide Quads, Triples, Pairs;
    RankIs(PermCode.Mirror(q));
    AllQuads();
    OneMore(15);
    OneMore(14);
  }

  lemma EmptyTable(bytes: seq<nat>, d: nat, n: nat, enc: seq<nat>, dec: seq<nat>)
    requires PermCode.Filled(enc, dec, ENTRIES) && forall k | 0 <= k < |bytes| :: bytes[k] == 0
    ensures |dec| == ENTRIES && Coded(bytes, d, n)
    ensures forall i | 0 <= i < n :: TableOf(bytes, d, n, dec)[i] == [0, 0, 0, 0]
  {
    hide Pow2, Extract, Value, BucketBits, PermCode.Unpack, PermCode.Filled;
    ZeroValue(bytes, BYTE);
    ZeroIsCoded(enc, dec);
    forall i: nat | i < n
      ensures Code(bytes, d, i) == 0
    {
      CodeIs(bytes, d, i);
      ZeroExtract(BucketBits(d) * i, BucketBits(d));
    }
    ZeroUnpacks(d, dec);
  }

  lemma ZeroUnpacks(d: nat, dec: seq<nat>)
    requires |dec| > 0 && PermCode.Unpack(dec[0]) == Quad(0, 0, 0, 0)
    ensures CodePart(0) == 0 && Unpacked(0, d, dec) == [0, 0, 0, 0]
  {
    hide Extract, PermCode.Unpack;
    MulNonNeg(1, d);
    MulNonNeg(2, d);
    MulNonNeg(3, d);
    ZeroExtract(CODE_BITS, d);
    ZeroExtract(CODE_BITS + 1 * d, d);
    ZeroExtract(CODE_BITS + 2 * d, d);
    ZeroExtract(CODE_BITS + 3 * d, d);
  }

  // ----- the table object -----

  class PackedTable {
    const d: nat
    const n: nat
    const bytes: array<nat>
    const encTable: array<nat>
    const decTable: array<nat>

    ghost predicate Valid()
      reads bytes, encTable, decTable
    {
      && Supported(d) && bytes.Length == TableBytes(d, n) && LanesFit(bytes[..], BYTE)
      && PermCode.Filled(encTable[..], decTable[..], ENTRIES) && decTable.Length == ENTRIES
      && bytes != encTable && bytes != decTable && Coded(bytes[..], d, n)
    }

    ghost function Contents(): (t: seq<seq<nat>>)
      requires Valid()
      reads bytes, encTable, decTable
      ensures |t| == n
    {
      TableOf(bytes[..], d, n, decTable[..])
    }

    lemma ValidMeans()
      ensures Valid() <==>
              && Supported(d) && bytes.Length == TableBytes(d, n) && LanesFit(bytes[..], BYTE)
              && PermCode.Filled(encTable[..], decTable[..], ENTRIES) && decTable.Length == ENTRIES
              && bytes != encTable && bytes != decTable && Coded(bytes[..], d, n)
      ensures Valid() ==> Contents() == TableOf(bytes[..], d, n, decTable[..])
    {
      hide Supported, TableBytes, LanesFit, PermCode.Filled, Coded, TableOf;
    }

    constructor (d: nat, n: nat)
      requires Supported(d)
      ensures Valid() && this.d == d && this.n == n && fresh(bytes)
      ensures forall i | 0 <= i < n :: Contents()[i] == [0, 0, 0, 0]
    {
      this.d, this.n := d, n;
      bytes := new nat[TableBytes(d, n)](_ => 0);
      var enc, dec := PermCode.MakeTables();
      encTable, decTable := enc, dec;
      new;
      hide *;
      ZeroBytes(bytes[..]);
      EmptyTable(bytes[..], d, n, encTable[..], decTable[..]);
      ValidMeans();
    }

    // Every bucket is sorted and its tags fit their width.
    lemma BucketLaws(i: nat)
      requires Valid() && i < n
      ensures |Contents()[i]| == 4 && Tags(Contents()[i], d) && Sorted(Contents()[i])
    {
      hide *;
      ValidMeans();
      TableAt(bytes[..], d, n, decTable[..], i);
      UnpackedIsSorted(Code(bytes[..], d, i), d, encTable[..], decTable[..]);
      SortedIs(Contents()[i]);
    }

    ghost predicate Apart(tags: array<nat>) {
      tags.Length == 4 && tags != bytes && tags != encTable && tags != decTable
    }

    lemma ApartMeans(tags: array<nat>)
      ensures Apart(tags) <==> tags.Length == 4 && tags != bytes && tags != encTable && tags != decTable
    {
    }

    method ReadBucket(i: nat, tags: array<nat>)
      requires Valid() && i < n && Apart(tags)
      modifies tags
      ensures tags[..] == Contents()[i]
    {
      hide *;
      ValidMeans();
      ApartMeans(tags);
      ReadLaws(bytes[..], d, n, i);
      TableAt(bytes[..], d, n, decTable[..], i);
      ghost var x := Code(bytes[..], d, i);
      var p, o := FirstByte(d, i), InByte(d, i);
      var bucketBits := Load(bytes[..], BYTE, p, WindowBytes(d));
      var codeword := Extract(Load(bytes[..], BYTE, p, 2), o, CODE_BITS);
      var q := PermCode.Unpack(decTable[codeword]);
      UnpackedIs(x, d, decTable[..]);
      tags[0] := 16 * Extract(bucketBits, o + (CODE_BITS + 0 * d), d) + q.a;
      tags[1] := 16 * Extract(bucketBits, o + (CODE_BITS + 1 * d), d) + q.b;
      tags[2] := 16 * Extract(bucketBits, o + (CODE_BITS + 2 * d), d) + q.c;
      tags[3] := 16 * Extract(bucketBits, o + (CODE_BITS + 3 * d), d) + q.d;
      assert tags[..] == Unpacked(x, d, decTable[..]);
    }

    // Sorts the tags, unless the caller has, and writes their code and their
    // direct bits.
    method WriteBucket(i: nat, tags: array<nat>, sort: bool := true)
      requires Valid() && i < n && Apart(tags) && Tags(tags[..], d) && (sort || Sorted(tags[..]))
      modifies bytes, tags
      ensures Valid() && Contents() == old(Contents())[i := if sort then SortTags(old(tags[..])) else old(tags[..])]
    {
      hide *;
      ValidMeans();
      ApartMeans(tags);
      if sort {
        SortTagsInPlace(tags);
      }
      UnpackedPacked(tags[..], d, encTable[..], decTable[..]);
      BucketBitsAre(d);
      WriteLaws(bytes[..], d, n, i, Packed(tags[..], d, encTable[..]));
      var v := Packed(tags[..], d, encTable[..]);
      var p := FirstByte(d, i);
      var u := Deposit(Load(bytes[..], BYTE, p, WindowBytes(d)), InByte(d, i), BucketBits(d), v);
      StoreDigits(bytes, BYTE, p, WindowBytes(d), u);
      TableWritten(old(bytes[..]), bytes[..], d, n, decTable[..], i, tags[..]);
      ValidMeans();
    }

    // The network of five comparisons.
    method SortTagsInPlace(tags: array<nat>)
      requires Tags(tags[..], d) && Apart(tags)
      modifies tags
      ensures tags[..] == SortTags(old(tags[..])) && Tags(tags[..], d) && Sorted(tags[..])
    {
      hide *;
      ApartMeans(tags);
      ghost var s := tags[..];
      SortPairAt(tags, 0, 2);
      SortPairAt(tags, 1, 3);
      SortPairAt(tags, 0, 1);
      SortPairAt(tags, 2, 3);
      SortPairAt(tags, 1, 2);
      SortTagsLaws(s, d);
    }

    method SortPairAt(tags: array<nat>, i: nat, j: nat)
      requires i < j < tags.Length
      modifies tags
      ensures tags[..] == SortPair(old(tags[..]), i, j)
    {
      hide Low;
      if Low(tags[i]) > Low(tags[j]) {
        tags[i], tags[j] := tags[j], tags[i];
      }
    }

    method FindTagInBucket(i: nat, tag: nat) returns (found: bool)
      requires Valid() && i < n
      ensures found <==> tag in Contents()[i]
    {
      hide *;
      var tags := new nat[4](_ => 0);
      ApartMeans(tags);
      ReadBucket(i, tags);
      found := tags[0] == tag || tags[1] == tag || tags[2] == tag || tags[3] == tag;
      assert tags[..] == [tags[0], tags[1], tags[2], tags[3]];
    }

    // Both buckets at once. Eight bytes are loaded for each whatever the width, and
    // the shifts are those of tags with nine direct bits.
    method FindTagInBuckets(i1: nat, i2: nat, tag: nat) returns (found: bool)
      requires Valid() && i1 < n && i2 < n && d == 9
      ensures found <==> tag in Contents()[i1] || tag in Contents()[i2]
    {
      hide *;
      NineLoads(i1);
      NineLoads(i2);
      var bucketBits1 := Load(bytes[..], BYTE, FirstByte(d, i1), 8);
      var bucketBits2 := Load(bytes[..], BYTE, FirstByte(d, i2), 8);
      var tags1 := NineSpaced(bucketBits1, d, decTable[..]);
      var tags2 := NineSpaced(bucketBits2, d, decTable[..]);
      found := tags1[0] == tag || tags1[1] == tag || tags1[2] == tag || tags1[3] == tag
               || tags2[0] == tag || tags2[1] == tag || tags2[2] == tag || tags2[3] == tag;
    }

    lemma NineLoads(i: nat)
      requires Valid() && i < n && d == 9
      ensures FirstByte(d, i) + 8 <= bytes.Length
      ensures var y := Load(bytes[..], BYTE, FirstByte(d, i), 8);
              CodePart(y) < decTable.Length && NineSpaced(y, d, decTable[..]) == Contents()[i]
    {
      hide *;
      ValidMeans();
      ReadLaws(bytes[..], d, n, i);
      TableAt(bytes[..], d, n, decTable[..], i);
      NineWindow(d, i);
      var y := Load(bytes[..], BYTE, FirstByte(d, i), 8);
      LoadedCode(bytes[..], FirstByte(d, i));
      NineReads(y, Code(bytes[..], d, i), d, decTable[..]);
    }

    method DeleteTagFromBucket(i: nat, tag: nat) returns (ok: bool, ghost slot: nat)
      requires Valid() && i < n
      modifies bytes
      ensures Valid() && (ok <==> tag in old(Contents())[i])
      ensures !ok ==> Contents() == old(Contents())
      ensures ok ==> slot < |old(Contents())[i]| == 4 && old(Contents())[i][slot] == tag
                     && Contents() == old(Contents())[i := SortTags(old(Contents())[i][slot := 0])]
    {
      hide *;
      ghost var t: seq<seq<nat>> := Contents();
      BucketLaws(i);
      slot := 0;
      var tags := new nat[4](_ => 0);
      ApartMeans(tags);
      ReadBucket(i, tags);
      for j := 0 to 4
        invariant Valid() && Contents() == t && Apart(tags) && tags[..] == t[i] && tag !in t[i][..j]
      {
        assert t[i][..j + 1] == t[i][..j] + [tags[j]];
        if tags[j] == tag {
          tags[j] := 0;
          ghost var changed: seq<nat> := t[i][j := 0];
          assert tags[..] == changed;
          TagsUpdate(t[i], d, j, 0);
          WriteBucket(i, tags);
          return true, j;
        }
      }
      assert t[i][..4] == t[i];
      ok := false;
    }

    // Into an empty slot; without one, when kicking out, in place of any tag.
    method InsertTagToBucket(i: nat, tag: nat, kickout: bool) returns (ok: bool, oldtag: nat, ghost slot: nat)
      requires Valid() && i < n && tag < 16 * Pow2(d)
      modifies bytes
      ensures Valid() && (ok <==> 0 in old(Contents())[i]) && slot < |old(Contents())[i]| == 4
      ensures ok || kickout ==> Contents() == old(Contents())[i := SortTags(old(Contents())[i][slot := tag])]
      ensures ok ==> old(Contents())[i][slot] == 0
      ensures !ok && kickout ==> oldtag == old(Contents())[i][slot]
      ensures !ok && !kickout ==> Contents() == old(Contents())
    {
      hide *;
      ghost var t: seq<seq<nat>> := Contents();
      BucketLaws(i);
      oldtag, slot := 0, 0;
      var tags := new nat[4](_ => 0);
      ApartMeans(tags);
      ReadBucket(i, tags);
      for j := 0 to 4
        invariant Valid() && Contents() == t && Apart(tags) && tags[..] == t[i] && 0 !in t[i][..j]
      {
        assert t[i][..j + 1] == t[i][..j] + [tags[j]];
        if tags[j] == 0 {
          tags[j] := tag;
          ghost var changed: seq<nat> := t[i][j := tag];
          assert tags[..] == changed;
          TagsUpdate(t[i], d, j, tag);
          WriteBucket(i, tags);
          return true, oldtag, j;
        }
      }
      assert t[i][..4] == t[i];
      ok := false;
      if kickout {
        var r: nat :| r < 4;
        oldtag := tags[r];
        tags[r] := tag;
        ghost var changed: seq<nat> := t[i][r := tag];
        assert tags[..] == changed;
        TagsUpdate(t[i], d, r, tag);
        WriteBucket(i, tags);
        slot := r;
      }
    }
  }

  // ----- the search of both buckets -----

  // The tags as the search reads them from the loaded bytes: the direct bits are
  // nine bits apart.
  function NineSpaced(y: nat, d: nat, dec: seq<nat>): (s: seq<nat>)
    requires CodePart(y) < |dec|
    ensures |s| == 4
  {
    var q := PermCode.Unpack(dec[CodePart(y)]);
    [16 * Extract(y, 12, d) + q.a, 16 * Extract(y, 21, d) + q.b,
     16 * Extract(y, 30, d) + q.c, 16 * Extract(y, 39, d) + q.d]
  }

  lemma NineWindow(d: nat, i: nat)
    requires d == 9
    ensures InByte(d, i) == 0 && WindowBytes(d) == 8
    ensures CODE_BITS + 0 * d == 12 && CODE_BITS + 1 * d == 21 && CODE_BITS + 2 * d == 30 && CODE_BITS + 3 * d == 39
  {
  }

  // The code is in the first two of the eight bytes.
  lemma LoadedCode(bytes: seq<nat>, p: nat)
    requires p + 8 <= |bytes| && LanesFit(bytes, BYTE)
    ensures CodePart(Load(bytes, BYTE, p, 8)) == Extract(Load(bytes, BYTE, p, 2), 0, CODE_BITS)
  {
    hide Pow2, Load, Extract, CodePart;
    WindowExtract(bytes, BYTE, p, 8, 0, CODE_BITS);
    WindowExtract(bytes, BYTE, p, 2, 0, CODE_BITS);
    CodePartIs(Load(bytes, BYTE, p, 8));
  }

  lemma NineReads(y: nat, x: nat, d: nat, dec: seq<nat>)
    requires d == 9 && CodePart(y) == CodePart(x) < |dec|
    requires forall k: nat | k < 4 :: Extract(y, 0 + (CODE_BITS + k * d), d) == Extract(x, CODE_BITS + k * d, d)
    ensures NineSpaced(y, d, dec) == Unpacked(x, d, dec)
  {
    hide Extract, PermCode.Unpack, CodePart;
    assert Extract(y, 0 + (CODE_BITS + 0 * d), d) == Extract(x, CODE_BITS + 0 * d, d);
    assert Extract(y, 0 + (CODE_BITS + 1 * d), d) == Extract(x, CODE_BITS + 1 * d, d);
    assert Extract(y, 0 + (CODE_BITS + 2 * d), d) == Extract(x, CODE_BITS + 2 * d, d);
    assert Extract(y, 0 + (CODE_BITS + 3 * d), d) == Extract(x, CODE_BITS + 3 * d, d);
  }

  // One field of a single bit.
  lemma BitExtract(b: nat, start: nat, len: nat)
    ensures Extract(Pow2(b), start, len) == if start <= b < start + len then Pow2(b - start) else 0
  {
    hide Pow2;
    if b < start {
      Pow2StrictMono(b, start);
      SmallDivMod(Pow2(b), Pow2(start));
      SmallDivMod(0, Pow2(len));
    } else {
      Pow2Split(b, start);
      DivModUnique(Pow2(b), Pow2(start), Pow2(b - start), 0);
      if b < start + len {
        Pow2StrictMono(b - start, len);
        SmallDivMod(Pow2(b - start), Pow2(len));
      } else {
        Pow2Split(b - start, len);
        DivModUnique(Pow2(b - start), Pow2(len), Pow2(b - start - len), 0);
      }
    }
  }

  // A bucket with the tags 0, 16, 0 and 0: unless the direct bits are nine apart,
  // the search does not see the 16.
  lemma OneTagMissed(d: nat, dec: seq<nat>)
    requires Supported(d) && d != 9 && |dec| > 0 && PermCode.Unpack(dec[0]) == Quad(0, 0, 0, 0)
    ensures CodePart(Pow2(CODE_BITS + d)) == 0
    ensures 16 in Unpacked(Pow2(CODE_BITS + d), d, dec) && 16 !in NineSpaced(Pow2(CODE_BITS + d), d, dec)
  {
    hide *;
    var x := Pow2(CODE_BITS + d);
    CodePartIs(x);
    BitExtract(CODE_BITS + d, 0, CODE_BITS);
    SecondTag(d);
    ReadElsewhere(d);
    UnpackedIs(x, d, dec);
    assert Unpacked(x, d, dec)[1] == 16;
    NineSpacedIs(x, d, dec);
  }

  lemma SecondTag(d: nat)
    requires Supported(d)
    ensures d > 0 && Extract(Pow2(CODE_BITS + d), CODE_BITS + 1 * d, d) == 1
  {
    BitExtract(CODE_BITS + d, CODE_BITS + 1 * d, d);
    Pow2Zero();
    hide Extract, Pow2;
  }

  // Nine bits apart the bit is seen nowhere, or as another one.
  lemma ReadElsewhere(d: nat)
    requires Supported(d) && d != 9
    ensures Extract(Pow2(CODE_BITS + d), 12, d) == 0 && Extract(Pow2(CODE_BITS + d), 21, d) != 1
    ensures Extract(Pow2(CODE_BITS + d), 30, d) == 0 && Extract(Pow2(CODE_BITS + d), 39, d) == 0
  {
    BitExtract(CODE_BITS + d, 12, d);
    BitExtract(CODE_BITS + d, 21, d);
    BitExtract(CODE_BITS + d, 30, d);
    BitExtract(CODE_BITS + d, 39, d);
    assert Pow2(4) == 16;
    hide Extract, Pow2;
  }

  lemma NineSpacedIs(y: nat, d: nat, dec: seq<nat>)
    requires CodePart(y) < |dec|
    ensures var q := PermCode.Unpack(dec[CodePart(y)]);
            NineSpaced(y, d, dec) == [16 * Extract(y, 12, d) + q.a, 16 * Extract(y, 21, d) + q.b,
                                      16 * Extract(y, 30, d) + q.c, 16 * Extract(y, 39, d) + q.d]
  {
    hide Extract, PermCode.Unpack, CodePart;
  }

  // The search reads the tags of every bucket if and only if they have nine direct bits.
  lemma NineSpacedExactly(d: nat, enc: seq<nat>, dec: seq<nat>)
    requires Supported(d) && PermCode.Filled(enc, dec, ENTRIES)
    ensures |dec| == ENTRIES
    ensures d == 9 <==> forall x: nat | CodePart(x) < ENTRIES :: NineSpaced(x, d, dec) == Unpacked(x, d, dec)
  {
    ZeroIsCoded(enc, dec);
    hide PermCode.Filled, PermCode.Unpack, CodePart, Extract, Pow2, Unpacked, NineSpaced;
    if d == 9 {
      forall x: nat | CodePart(x) < ENTRIES
        ensures NineSpaced(x, d, dec) == Unpacked(x, d, dec)
      {
        NineReads(x, x, d, dec);
      }
    } else {
      OneTagMissed(d, dec);
    }
  }

  // A table in which the search does not find a tag that its first bucket holds.
  lemma TagMissed(d: nat, n: nat, enc: seq<nat>, dec: seq<nat>) returns (bytes: seq<nat>)
    requires Supported(d) && d != 9 && n > 0 && PermCode.Filled(enc, dec, ENTRIES)
    ensures |bytes| == TableBytes(d, n) && 8 <= |bytes| && LanesFit(bytes, BYTE) && |dec| == ENTRIES
    ensures Coded(bytes, d, n) && 16 in TableOf(bytes, d, n, dec)[0]
    ensures CodePart(Load(bytes, BYTE, 0, 8)) < ENTRIES && 16 !in NineSpaced(Load(bytes, BYTE, 0, 8), d, dec)
  {
    ZeroIsCoded(enc, dec);
    var x := Pow2(CODE_BITS + d);
    OneTagMissed(d, dec);
    EnoughBytes(d, n);
    hide *;
    bytes := Digits(x, BYTE, TableBytes(d, n));
    JoinDigits(x, BYTE, TableBytes(d, n));
    ValueIs(bytes, BYTE);
    LoadIsExtract(bytes, BYTE, 0, 8);
    WordOfOneBit(d);
    forall i: nat | i < n
      ensures Code(bytes, d, i) == if i == 0 then x else 0
    {
      CodeIs(bytes, d, i);
      BitExtract(CODE_BITS + d, BucketBits(d) * i, BucketBits(d));
      InFirstBucket(d, i);
    }
    OneBitCoded(bytes, d, n, x);
    TableAt(bytes, d, n, dec, 0);
  }

  lemma EnoughBytes(d: nat, n: nat)
    requires Supported(d) && n > 0
    ensures TableBytes(d, n) >= 8 && Pow2(CODE_BITS + d) < Pow2(TableBytes(d, n) * BYTE)
  {
    MulLe(1, n, (BucketBits(d) + 7) / 8);
    Pow2StrictMono(CODE_BITS + d, TableBytes(d, n) * BYTE);
    hide Pow2;
  }

  lemma WordOfOneBit(d: nat)
    requires Supported(d)
    ensures Extract(Pow2(CODE_BITS + d), 0 * BYTE, 8 * BYTE) == Pow2(CODE_BITS + d)
  {
    BitExtract(CODE_BITS + d, 0, 64);
    hide Extract, Pow2;
  }

  lemma InFirstBucket(d: nat, i: nat)
    requires Supported(d)
    ensures 0 <= BucketBits(d) * i
    ensures i == 0 ==> BucketBits(d) * i == 0 && CODE_BITS + d < BucketBits(d)
    ensures i > 0 ==> CODE_BITS + d < BucketBits(d) * i
  {
    MulNonNeg(BucketBits(d), i);
    if i > 0 {
      MulLe(1, i, BucketBits(d));
    }
  }

  lemma OneBitCoded(bytes: seq<nat>, d: nat, n: nat, x: nat)
    requires forall i: nat | i < n :: Code(bytes, d, i) == if i == 0 then x else 0
    requires CodePart(x) == 0
    ensures Coded(bytes, d, n)
  {
    hide Code;
  }

  lemma BucketBitsAre(d: nat)
    ensures BucketBits(d) == CODE_BITS + 4 * d
  {
  }

  lemma TagsUpdate(s: seq<nat>, d: nat, j: nat, tag: nat)
    requires Tags(s, d) && |s| == 4 && j < 4 && (tag == 0 || tag < 16 * Pow2(d))
    ensures Tags(s[j := tag], d)
  {
    hide Pow2;
  }

  lemma ZeroBytes(bytes: seq<nat>)
    requires forall k | 0 <= k < |bytes| :: bytes[k] == 0
    ensures LanesFit(bytes, BYTE)
  {
    hide Pow2;
  }

  lemma SortTagsLaws(s: seq<nat>, d: nat)
    requires Tags(s, d)
    ensures |s| == 4
    ensures SortTags(s) == SortPair(SortPair(SortPair(SortPair(SortPair(s, 0, 2), 1, 3), 0, 1), 2, 3), 1, 2)
    ensures Sorted(SortTags(s)) && Tags(SortTags(s), d)
  {
    hide SortPair, Pow2, Low;
    SortTagsSorts(s);
    var r := SortTags(s);
    hide SortTags, Sorted;
    forall k | 0 <= k < 4
      ensures r[k] < 16 * Pow2(d)
    {
      assert r[k] in multiset(r);
      assert r[k] in s;
    }
  }

  lemma UnpackedIs(x: nat, d: nat, dec: seq<nat>)
    requires CodePart(x) < |dec|
    ensures var q := PermCode.Unpack(dec[CodePart(x)]);
            Unpacked(x, d, dec) == [16 * Extract(x, CODE_BITS + 0 * d, d) + q.a,
                                    16 * Extract(x, CODE_BITS + 1 * d, d) + q.b,
                                    16 * Extract(x, CODE_BITS + 2 * d, d) + q.c,
                                    16 * Extract(x, CODE_BITS + 3 * d, d) + q.d]
  {
    hide Extract, PermCode.Unpack, CodePart;
  }
}
