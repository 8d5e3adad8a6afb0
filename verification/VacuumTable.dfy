/** The buckets of the vacuum filter packed side by side into 64-bit words: writing
    one bucket sorts it and leaves every other bucket as it was. */
module VacuumTable {
  import opened Arith
  import opened BitFields
  import opened Lanes
  import opened Occupancy
  import opened VacuumBucket
  import VacuumCode

  const WORD_BITS: nat := 64
  const SLOTS: nat := 4

  // Twelve code bits and the low bits of four fingerprints.
  function BucketBits(bits: nat): nat {
    if bits == 0 then 0 else (bits - 1) * SLOTS
  }

  function BucketStart(bits: nat, i: nat): nat {
    MulNonNeg(i, BucketBits(bits));
    i * BucketBits(bits)
  }

  // n buckets have room in the words.
  ghost predicate Room(words: seq<nat>, n: nat, bits: nat) {
    5 <= bits <= 16 && LanesFit(words, WORD_BITS) && n * BucketBits(bits) <= |words| * WORD_BITS
  }

  lemma RoomForBucket(words: seq<nat>, n: nat, bits: nat, i: nat)
    requires Room(words, n, bits) && i < n
    ensures InWords(words, WORD_BITS, BucketStart(bits, i), BucketBits(bits))
    ensures BucketBits(bits) == 12 + 4 * (bits - 4) && 5 <= bits <= 16
  {
    hide LanesFit;
    MulLe(i + 1, n, BucketBits(bits));
    MulAdd(i, 1, BucketBits(bits));
  }

  // Two buckets do not overlap.
  lemma BucketsApart(bits: nat, i: nat, j: nat)
    requires i < j
    ensures BucketStart(bits, i) + BucketBits(bits) <= BucketStart(bits, j)
  {
    hide BucketBits;
    MulLe(i + 1, j, BucketBits(bits));
    MulAdd(i, 1, BucketBits(bits));
  }

  // The coded bucket in the number that the words stand for.
  function Code(words: seq<nat>, bits: nat, i: nat): nat {
    Extract(Value(words, WORD_BITS), BucketStart(bits, i), BucketBits(bits))
  }

  lemma CodeInTable(words: seq<nat>, bits: nat, i: nat)
    requires 5 <= bits <= 16
    ensures High(Code(words, bits, i), 4 * (bits - 4)) < VacuumCode.PLAIN_CODES
  {
    var x, k := Code(words, bits, i), 4 * (bits - 4);
    ExtractBound(Value(words, WORD_BITS), BucketStart(bits, i), BucketBits(bits));
    assert BucketBits(bits) == 12 + k;
    PowerOf4();
    hide Pow2, Code, Extract, Join;
    Pow2Add(12, k);
    DivUpper(x, Pow2(k), 4096);
    HighIs(x, k);
  }

  ghost predicate Tables(encode: seq<nat>, decode: seq<nat>) {
    VacuumCode.Filled(encode, decode, VacuumCode.ENTRIES)
  }

  lemma TablesLength(encode: seq<nat>, decode: seq<nat>)
    requires Tables(encode, decode)
    ensures |encode| == VacuumCode.PLAIN_CODES && |decode| == VacuumCode.PLAIN_CODES
  {
    FilledLength(encode, decode);
  }

  // The four fingerprints of a bucket.
  function BucketAt(words: seq<nat>, bits: nat, decode: seq<nat>, i: nat): (s: seq<nat>)
    requires 5 <= bits <= 16 && |decode| == VacuumCode.PLAIN_CODES
    ensures |s| == 4
  {
    CodeInTable(words, bits, i);
    Decode(Code(words, bits, i), bits - 4, decode)
  }

  ghost function Table(words: seq<nat>, n: nat, bits: nat, decode: seq<nat>): (t: seq<seq<nat>>)
    requires 5 <= bits <= 16 && |decode| == VacuumCode.PLAIN_CODES
    ensures |t| == n
  {
    seq(n, i requires 0 <= i < n => BucketAt(words, bits, decode, i))
  }

  // Writing the code of a sorted bucket.
  lemma CodeWritten(words: seq<nat>, n: nat, bits: nat, i: nat, x: nat, words2: seq<nat>)
    requires Room(words, n, bits) && i < n && x < Pow2(BucketBits(bits))
    requires InWords(words, WORD_BITS, BucketStart(bits, i), BucketBits(bits))
    requires words2 == WriteField(words, WORD_BITS, BucketStart(bits, i), BucketBits(bits), x)
    ensures Room(words2, n, bits) && Code(words2, bits, i) == x
    ensures forall j: nat | j < n && j != i :: Code(words2, bits, j) == Code(words, bits, j)
  {
    hide Pow2, Extract, Deposit, Join, Value, BucketStart, BucketBits, WriteField;
    WriteFieldIsDeposit(words, WORD_BITS, BucketStart(bits, i), BucketBits(bits), x);
    ExtractDeposit(Value(words, WORD_BITS), BucketStart(bits, i), BucketBits(bits), x, 0, 0);
    forall j: nat | j < n && j != i
      ensures Code(words2, bits, j) == Code(words, bits, j)
    {
      if j < i {
        BucketsApart(bits, j, i);
      } else {
        BucketsApart(bits, i, j);
      }
      ExtractDeposit(Value(words, WORD_BITS), BucketStart(bits, i), BucketBits(bits), x,
                     BucketStart(bits, j), BucketBits(bits));
    }
  }

  // A bucket written and read back, with all others unchanged.
  lemma BucketWritten(words: seq<nat>, n: nat, bits: nat, encode: seq<nat>, decode: seq<nat>, i: nat, s: seq<nat>)
    requires Room(words, n, bits) && Tables(encode, decode) && i < n && IsStore(s, bits) && Sorted(s)
    ensures |decode| == VacuumCode.PLAIN_CODES
    ensures VacuumCode.Plain(HighQuad(s, bits - 4)) < |encode|
    ensures Encode(s, bits - 4, encode) < Pow2(BucketBits(bits))
    ensures InWords(words, WORD_BITS, BucketStart(bits, i), BucketBits(bits))
    ensures var words2 := WriteField(words, WORD_BITS, BucketStart(bits, i), BucketBits(bits), Encode(s, bits - 4, encode));
            Room(words2, n, bits) && Table(words2, n, bits, decode) == Table(words, n, bits, decode)[i := s]
  {
    hide *;
    TablesAre(encode, decode);
    TablesLength(encode, decode);
    DecodeEncode(s, bits, encode, decode);
    RoomForBucket(words, n, bits, i);
    var x := Encode(s, bits - 4, encode);
    var words2 := WriteField(words, WORD_BITS, BucketStart(bits, i), BucketBits(bits), x);
    CodeWritten(words, n, bits, i, x, words2);
    TableWritten(words, words2, n, bits, decode, i, s);
  }

  lemma TablesAre(encode: seq<nat>, decode: seq<nat>)
    ensures Tables(encode, decode) == VacuumCode.Filled(encode, decode, VacuumCode.ENTRIES)
  {
  }

  lemma TableWritten(words: seq<nat>, words2: seq<nat>, n: nat, bits: nat, decode: seq<nat>, i: nat, s: seq<nat>)
    requires 5 <= bits <= 16 && |decode| == VacuumCode.PLAIN_CODES && i < n
    requires High(Code(words2, bits, i), 4 * (bits - 4)) < |decode|
    requires Decode(Code(words2, bits, i), bits - 4, decode) == s
    requires forall j: nat | j < n && j != i :: Code(words2, bits, j) == Code(words, bits, j)
    ensures Table(words2, n, bits, decode) == Table(words, n, bits, decode)[i := s]
  {
    hide Code, Decode, High;
  }

  // Reading the bucket from the words.
  lemma BucketRead(words: seq<nat>, n: nat, bits: nat, decode: seq<nat>, i: nat)
    requires Room(words, n, bits) && |decode| == VacuumCode.PLAIN_CODES && i < n
    ensures InWords(words, WORD_BITS, BucketStart(bits, i), BucketBits(bits)) && 5 <= bits <= 16
    ensures var x := ReadField(words, WORD_BITS, BucketStart(bits, i), BucketBits(bits));
            && High(x, 4 * (bits - 4)) < |decode|
            && Decode(x, bits - 4, decode) == Table(words, n, bits, decode)[i]
  {
    hide Extract, Join, Value, BucketStart, BucketBits, Decode, High, ReadField, LanesFit;
    RoomForBucket(words, n, bits, i);
    ReadFieldIsExtract(words, WORD_BITS, BucketStart(bits, i), BucketBits(bits));
    CodeInTable(words, bits, i);
  }

  // ----- sorted buckets -----

  // Fingerprints in a bucket.
  function Count(s: seq<nat>): nat
    requires |s| == 4
  {
    (if s[0] == 0 then 0 else 1) + (if s[1] == 0 then 0 else 1)
    + (if s[2] == 0 then 0 else 1) + (if s[3] == 0 then 0 else 1)
  }

  // In a sorted bucket the empty slots are the last ones.
  lemma LastSlot(s: seq<nat>)
    requires Sorted(s)
    ensures Count(s) <= SLOTS
    ensures Count(s) < SLOTS <==> s[3] == 0
    ensures Count(s) == SLOTS <==> 0 !in s
  {
  }

  // Every bucket is sorted and holds fingerprints of the right width.
  ghost predicate Sane(t: seq<seq<nat>>, bits: nat) {
    forall i | 0 <= i < |t| :: IsStore(t[i], bits) && Sorted(t[i])
  }

  // The table after one slot was written and the bucket sorted.
  function Put(t: seq<seq<nat>>, i: nat, j: nat, x: nat): (u: seq<seq<nat>>)
    requires i < |t| && |t[i]| == 4 && j < 4
    ensures |u| == |t|
  {
    var s: seq<nat> := t[i][j := x];
    t[i := SortStore(s)]
  }

  lemma SortStoreIs(s: seq<nat>)
    requires |s| == 4
    ensures SortStore(s)
            == SortPair(SortPair(SortPair(SortPair(SortPair(s, 0, 2), 1, 3), 0, 1), 2, 3), 1, 2)
  {
    hide SortPair;
  }

  lemma SortKeepsStore(s: seq<nat>, bits: nat)
    requires IsStore(s, bits)
    ensures IsStore(SortStore(s), bits) && Sorted(SortStore(s))
  {
    hide SortStore, Pow2;
    SortStoreSorts(s);
    forall j | 0 <= j < 4
      ensures SortStore(s)[j] < Pow2(bits)
    {
      assert SortStore(s)[j] in multiset(SortStore(s));
      assert SortStore(s)[j] in s;
    }
  }

  lemma PutIsSane(t: seq<seq<nat>>, bits: nat, i: nat, j: nat, x: nat)
    requires Sane(t, bits) && i < |t| && j < 4 && x < Pow2(bits)
    ensures |t[i]| == 4 && Sane(Put(t, i, j, x), bits)
  {
    hide SortStore, Pow2, Sorted;
    SortKeepsStore(t[i][j := x], bits);
  }

  // ----- entries -----

  lemma SortPairEntries<E>(rule: Rule<nat, E>, i: nat, s: seq<nat>, j: nat, k: nat)
    requires j < k < |s|
    ensures BucketEntries(rule, i, SortPair(s, j, k)) == BucketEntries(rule, i, s)
  {
    SwapInBucket(rule, i, s, j, k);
    hide BucketEntries;
  }

  lemma SortStoreEntries<E>(rule: Rule<nat, E>, i: nat, s: seq<nat>)
    requires |s| == 4
    ensures BucketEntries(rule, i, SortStore(s)) == BucketEntries(rule, i, s)
  {
    hide SortPair, BucketEntries;
    var a := SortPair(s, 0, 2);
    var b := SortPair(a, 1, 3);
    var c := SortPair(b, 0, 1);
    var d := SortPair(c, 2, 3);
    SortPairEntries(rule, i, s, 0, 2);
    SortPairEntries(rule, i, a, 1, 3);
    SortPairEntries(rule, i, b, 0, 1);
    SortPairEntries(rule, i, c, 2, 3);
    SortPairEntries(rule, i, d, 1, 2);
  }

  // Writing a slot exchanges one entry; sorting changes none.
  lemma PutEntries<E>(rule: Rule<nat, E>, t: seq<seq<nat>>, i: nat, j: nat, x: nat)
    requires i < |t| && |t[i]| == 4 && j < 4
    ensures TableEntries(rule, Put(t, i, j, x)) + SlotEntries(rule, i, t[i][j])
            == TableEntries(rule, t) + SlotEntries(rule, i, x)
  {
    hide *;
    PutIs(t, i, j, x);
    var s: seq<nat> := t[i][j := x];
    SortStoreEntries(rule, i, s);
    BucketUpdate(rule, i, t[i], j, x);
    BucketReplaced(rule, t, i, SortStore(s));
    Exchange(TableEntries(rule, Put(t, i, j, x)), BucketEntries(rule, i, t[i]), TableEntries(rule, t),
             BucketEntries(rule, i, s), SlotEntries(rule, i, t[i][j]), SlotEntries(rule, i, x));
  }

  lemma PutIs(t: seq<seq<nat>>, i: nat, j: nat, x: nat)
    requires i < |t| && |t[i]| == 4 && j < 4
    ensures Put(t, i, j, x) == t[i := SortStore(t[i][j := x])]
  {
    hide SortStore;
  }

  // ----- the empty table -----

  lemma ZeroDecodes(encode: seq<nat>, decode: seq<nat>, low: nat)
    requires Tables(encode, decode)
    ensures High(0, 4 * low) < |decode| && Decode(0, low, decode) == [0, 0, 0, 0]
  {
    TablesLength(encode, decode);
    NoneFirst(encode, decode);
    hide Pow2, Tables, Extract;
    SmallDivMod(0, Pow2(4 * low));
    ZeroExtract(0, low);
    ZeroExtract(low, low);
    ZeroExtract(2 * low, low);
    ZeroExtract(3 * low, low);
  }

  lemma NoneFirst(encode: seq<nat>, decode: seq<nat>)
    requires Tables(encode, decode) && |decode| == VacuumCode.PLAIN_CODES
    ensures decode[0] == 0
  {
    ZeroQuad();
    hide VacuumCode.Rank, VacuumCode.Plain;
    var q := VacuumCode.Quad(0, 0, 0, 0);
    assert VacuumCode.Rank(q) < VacuumCode.ENTRIES;
    assert VacuumCode.Entry(encode, decode, q);
  }

  lemma ZeroQuad()
    ensures var q := VacuumCode.Quad(0, 0, 0, 0);
            VacuumCode.Descending(q) && VacuumCode.Rank(q) == 0 && VacuumCode.Plain(q) == 0
  {
  }

  // Cleared words hold empty buckets.
  lemma EmptyWords(words: seq<nat>, n: nat, bits: nat, encode: seq<nat>, decode: seq<nat>)
    requires Tables(encode, decode) && 5 <= bits <= 16 && |decode| == VacuumCode.PLAIN_CODES
    requires forall k | 0 <= k < |words| :: words[k] == 0
    ensures forall i | 0 <= i < n :: Table(words, n, bits, decode)[i] == [0, 0, 0, 0]
    ensures Sane(Table(words, n, bits, decode), bits)
  {
    hide Value, Decode, Extract, Pow2, BucketStart, BucketBits, Tables, High;
    ZeroValue(words, WORD_BITS);
    ZeroDecodes(encode, decode, bits - 4);
    forall i | 0 <= i < n
      ensures Table(words, n, bits, decode)[i] == [0, 0, 0, 0]
    {
      ZeroExtract(BucketStart(bits, i), BucketBits(bits));
    }
  }
}
