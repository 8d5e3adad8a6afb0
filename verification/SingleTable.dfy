/** The plain table of a cuckoo filter: four tags per bucket, packed into bytes.
    Reading and writing tags of each supported width, and the word-parallel
    search for a tag, against a bucket seen as four numbers. */
module SingleTable {
  import Arith

  type Byte = bv8
  type Tag = bv32

  const TAGS_PER_BUCKET: nat := 4

  // Tag widths with their own access code.
  predicate Supported(w: nat) {
    w == 4 || w == 8 || w == 12 || w == 16 || w == 32
  }

  function BytesPerBucket(w: nat): nat {
    (w * TAGS_PER_BUCKET + 7) / 8
  }

  // Extra buckets so that a 64-bit read of the last bucket stays inside.
  function PaddingBuckets(w: nat): nat
    requires Supported(w)
  {
    ((BytesPerBucket(w) + 7) / 8 * 8 - 1) / BytesPerBucket(w)
  }

  function TagMask(w: nat): Tag
    requires Supported(w)
  {
    if w == 4 then 0xf else if w == 8 then 0xff else if w == 12 then 0xfff else if w == 16 then 0xffff else 0xffff_ffff
  }

  // A tag cut down to its width.
  function Masked(w: nat, t: Tag): Tag
    requires Supported(w)
  {
    t & TagMask(w)
  }

  // ----- little-endian words -----

  function Load16(lo: Byte, hi: Byte): bv16 {
    ((hi as bv16) << 8) | (lo as bv16)
  }

  function Low8(x: bv16): Byte {
    (x & 0xff) as bv8
  }

  function High8(x: bv16): Byte {
    (x >> 8) as bv8
  }

  // ----- the tag inside the word that holds it -----

  // Half a byte: the low half for an even tag, the high half for an odd one.
  function Extract4(b: Byte, odd: bool): Tag {
    ((b as bv32) >> (if odd then 4 else 0)) & 0xf
  }

  function Insert4(b: Byte, odd: bool, t: Tag): Byte {
    if odd then (b & 0x0f) | (((t & 0xf) << 4) as bv8) else (b & 0xf0) | ((t & 0xf) as bv8)
  }

  function Extract8(b: Byte): Tag {
    b as bv32
  }

  function Insert8(t: Tag): Byte {
    (t & 0xff) as bv8
  }

  // Twelve bits of a 16-bit word.
  function Extract12(lo: Byte, hi: Byte, odd: bool): Tag {
    ((Load16(lo, hi) as bv32) >> (if odd then 4 else 0)) & 0xfff
  }

  function Insert12(lo: Byte, hi: Byte, odd: bool, t: Tag): bv16 {
    if odd then (Load16(lo, hi) & 0x000f) | (((t & 0xfff) << 4) as bv16)
    else (Load16(lo, hi) & 0xf000) | ((t & 0xfff) as bv16)
  }

  function Extract16(lo: Byte, hi: Byte): Tag {
    (Load16(lo, hi) as bv32) & 0xffff
  }

  function Insert16(t: Tag): bv16 {
    (t & 0xffff) as bv16
  }

  function Extract32(b0: Byte, b1: Byte, b2: Byte, b3: Byte): Tag {
    ((b3 as bv32) << 24) | ((b2 as bv32) << 16) | ((b1 as bv32) << 8) | (b0 as bv32)
  }

  function Byte0(t: Tag): Byte { (t & 0xff) as bv8 }
  function Byte1(t: Tag): Byte { ((t >> 8) & 0xff) as bv8 }
  function Byte2(t: Tag): Byte { ((t >> 16) & 0xff) as bv8 }
  function Byte3(t: Tag): Byte { (t >> 24) as bv8 }

  lemma ExtractInsert4(b: Byte, odd: bool, t: Tag)
    ensures Extract4(Insert4(b, odd, t), odd) == Masked(4, t)
    ensures Extract4(Insert4(b, odd, t), !odd) == Extract4(b, !odd)
  {
  }

  lemma ExtractInsert8(t: Tag)
    ensures Extract8(Insert8(t)) == Masked(8, t)
  {
  }

  lemma Reassemble16(x: bv16)
    ensures (((((x >> 8) as bv8)) as bv16) << 8) | (((x & 0xff) as bv8) as bv16) == x
  {
  }

  lemma Word16(x: bv16)
    ensures Load16(Low8(x), High8(x)) == x
  {
    Reassemble16(x);
  }

  lemma Even12(word: bv16, t: Tag)
    ensures (((word & 0xf000) | ((t & 0xfff) as bv16)) as bv32) & 0xfff == t & 0xfff
  {
  }

  lemma Odd12(word: bv16, t: Tag)
    ensures ((((word & 0x000f) | (((t & 0xfff) << 4) as bv16)) as bv32) >> 4) & 0xfff == t & 0xfff
  {
  }

  lemma ShiftZero(x: bv32)
    ensures x >> 0 == x
  {
  }

  lemma ExtractInsert12(lo: Byte, hi: Byte, odd: bool, t: Tag)
    ensures var x := Insert12(lo, hi, odd, t); Extract12(Low8(x), High8(x), odd) == Masked(12, t)
  {
    var x := Insert12(lo, hi, odd, t);
    Word16(x);
    var word := Load16(lo, hi);
    hide Load16, Low8, High8;
    if odd {
      Odd12(word, t);
    } else {
      Even12(word, t);
      ShiftZero(x as bv32);
    }
  }

  // An even tag shares its second byte with the next tag, an odd one its
  // first byte with the tag before.
  lemma Neighbour12(lo: Byte, hi: Byte, t: Tag, other: Byte)
    ensures Extract12(High8(Insert12(lo, hi, false, t)), other, true) == Extract12(hi, other, true)
    ensures Extract12(other, Low8(Insert12(lo, hi, true, t)), false) == Extract12(other, lo, false)
  {
  }

  lemma ExtractInsert16(t: Tag)
    ensures Extract16(Low8(Insert16(t)), High8(Insert16(t))) == Masked(16, t)
  {
  }

  lemma Reassemble32(t: Tag, b0: Byte, b1: Byte, b2: Byte, b3: Byte)
    requires b0 == (t & 0xff) as bv8 && b1 == ((t >> 8) & 0xff) as bv8
    requires b2 == ((t >> 16) & 0xff) as bv8 && b3 == (t >> 24) as bv8
    ensures ((b3 as bv32) << 24) | ((b2 as bv32) << 16) | ((b1 as bv32) << 8) | (b0 as bv32) == t
  {
  }

  lemma Word32(t: Tag, b0: Byte, b1: Byte, b2: Byte, b3: Byte)
    requires b0 == Byte0(t) && b1 == Byte1(t) && b2 == Byte2(t) && b3 == Byte3(t)
    ensures Extract32(b0, b1, b2, b3) == t
  {
    Reassemble32(t, b0, b1, b2, b3);
  }

  lemma AllOnes(t: Tag)
    ensures Masked(32, t) == t
  {
  }

  lemma ExtractInsert32(t: Tag)
    ensures Extract32(Byte0(t), Byte1(t), Byte2(t), Byte3(t)) == Masked(32, t)
  {
    hide *;
    Word32(t, Byte0(t), Byte1(t), Byte2(t), Byte3(t));
    AllOnes(t);
  }

  // ----- one bucket -----

  predicate IsBucket(w: nat, b: seq<Byte>) {
    Supported(w) && |b| == BytesPerBucket(w)
  }

  function ReadTag(w: nat, b: seq<Byte>, j: nat): Tag
    requires IsBucket(w, b) && j < TAGS_PER_BUCKET
  {
    if w == 4 then Extract4(b[j / 2], j % 2 == 1)
    else if w == 8 then Extract8(b[j])
    else if w == 12 then Extract12(b[j + j / 2], b[j + j / 2 + 1], j % 2 == 1)
    else if w == 16 then Extract16(b[2 * j], b[2 * j + 1])
    else Extract32(b[4 * j], b[4 * j + 1], b[4 * j + 2], b[4 * j + 3])
  }

  function WriteTag(w: nat, b: seq<Byte>, j: nat, t: Tag): (r: seq<Byte>)
    requires IsBucket(w, b) && j < TAGS_PER_BUCKET
    ensures IsBucket(w, r)
  {
    if w == 4 then b[j / 2 := Insert4(b[j / 2], j % 2 == 1, t)]
    else if w == 8 then b[j := Insert8(t)]
    else if w == 12 then
      var p := j + j / 2;
      var word := Insert12(b[p], b[p + 1], j % 2 == 1, t);
      b[p := Low8(word)][p + 1 := High8(word)]
    else if w == 16 then b[2 * j := Low8(Insert16(t))][2 * j + 1 := High8(Insert16(t))]
    else b[4 * j := Byte0(t)][4 * j + 1 := Byte1(t)][4 * j + 2 := Byte2(t)][4 * j + 3 := Byte3(t)]
  }

  lemma ReadAfterWrite4(b: seq<Byte>, j: nat, t: Tag, k: nat)
    requires IsBucket(4, b) && j < TAGS_PER_BUCKET && k < TAGS_PER_BUCKET
    ensures ReadTag(4, WriteTag(4, b, j, t), k) == if k == j then Masked(4, t) else ReadTag(4, b, k)
  {
    hide Masked, TagMask, Load16, Low8, High8, Extract4, Insert4, Extract8, Insert8, Extract12, Insert12,
      Extract16, Insert16, Extract32, Byte0, Byte1, Byte2, Byte3;
    ExtractInsert4(b[j / 2], j % 2 == 1, t);
  }

  lemma ReadAfterWrite8(b: seq<Byte>, j: nat, t: Tag, k: nat)
    requires IsBucket(8, b) && j < TAGS_PER_BUCKET && k < TAGS_PER_BUCKET
    ensures ReadTag(8, WriteTag(8, b, j, t), k) == if k == j then Masked(8, t) else ReadTag(8, b, k)
  {
    hide Masked, TagMask, Load16, Low8, High8, Extract4, Insert4, Extract8, Insert8, Extract12, Insert12,
      Extract16, Insert16, Extract32, Byte0, Byte1, Byte2, Byte3;
    ExtractInsert8(t);
  }

  lemma ReadAfterWrite12(b: seq<Byte>, j: nat, t: Tag, k: nat)
    requires IsBucket(12, b) && j < TAGS_PER_BUCKET && k < TAGS_PER_BUCKET
    ensures ReadTag(12, WriteTag(12, b, j, t), k) == if k == j then Masked(12, t) else ReadTag(12, b, k)
  {
    hide Masked, TagMask, Load16, Low8, High8, Extract4, Insert4, Extract8, Insert8, Extract12, Insert12,
      Extract16, Insert16, Extract32, Byte0, Byte1, Byte2, Byte3;
    var p := j + j / 2;
    ExtractInsert12(b[p], b[p + 1], j % 2 == 1, t);
    if j % 2 == 0 {
      Neighbour12(b[p], b[p + 1], t, b[p + 2]);
    } else {
      Neighbour12(b[p], b[p + 1], t, b[p - 1]);
    }
  }

  lemma ReadAfterWrite16(b: seq<Byte>, j: nat, t: Tag, k: nat)
    requires IsBucket(16, b) && j < TAGS_PER_BUCKET && k < TAGS_PER_BUCKET
    ensures ReadTag(16, WriteTag(16, b, j, t), k) == if k == j then Masked(16, t) else ReadTag(16, b, k)
  {
    hide Masked, TagMask, Load16, Low8, High8, Extract4, Insert4, Extract8, Insert8, Extract12, Insert12,
      Extract16, Insert16, Extract32, Byte0, Byte1, Byte2, Byte3;
    ExtractInsert16(t);
  }

  lemma ReadAfterWrite32(b: seq<Byte>, j: nat, t: Tag, k: nat)
    requires IsBucket(32, b) && j < TAGS_PER_BUCKET && k < TAGS_PER_BUCKET
    ensures ReadTag(32, WriteTag(32, b, j, t), k) == if k == j then Masked(32, t) else ReadTag(32, b, k)
  {
    hide Masked, TagMask, Load16, Low8, High8, Extract4, Insert4, Extract8, Insert8, Extract12, Insert12,
      Extract16, Insert16, Extract32, Byte0, Byte1, Byte2, Byte3;
    ExtractInsert32(t);
  }

  // Reading back gives the tag that was written; the other tags of the bucket
  // are as before, also when they share a byte.
  lemma ReadAfterWrite(w: nat, b: seq<Byte>, j: nat, t: Tag, k: nat)
    requires IsBucket(w, b) && j < TAGS_PER_BUCKET && k < TAGS_PER_BUCKET
    ensures ReadTag(w, WriteTag(w, b, j, t), k) == if k == j then Masked(w, t) else ReadTag(w, b, k)
  {
    hide ReadTag, WriteTag, Masked, TagMask;
    if w == 4 {
      ReadAfterWrite4(b, j, t, k);
    } else if w == 8 {
      ReadAfterWrite8(b, j, t, k);
    } else if w == 12 {
      ReadAfterWrite12(b, j, t, k);
    } else if w == 16 {
      ReadAfterWrite16(b, j, t, k);
    } else {
      ReadAfterWrite32(b, j, t, k);
    }
  }

  // ----- word-parallel search -----

  function Load64(b0: Byte, b1: Byte, b2: Byte, b3: Byte, b4: Byte, b5: Byte, b6: Byte, b7: Byte): bv64 {
    ((b7 as bv64) << 56) | ((b6 as bv64) << 48) | ((b5 as bv64) << 40) | ((b4 as bv64) << 32)
    | ((b3 as bv64) << 24) | ((b2 as bv64) << 16) | ((b1 as bv64) << 8) | (b0 as bv64)
  }

  function HasValue4(v: bv64, n: bv64): bool {
    var x := v ^ (0x1111 * n);
    (x - 0x1111) & !x & 0x8888 != 0
  }

  function HasValue8(v: bv64, n: bv64): bool {
    var x := v ^ (0x0101_0101 * n);
    (x - 0x0101_0101) & !x & 0x8080_8080 != 0
  }

  function HasValue12(v: bv64, n: bv64): bool {
    var x := v ^ (0x0010_0100_1001 * n);
    (x - 0x0010_0100_1001) & !x & 0x8008_0080_0800 != 0
  }

  function HasValue16(v: bv64, n: bv64): bool {
    var x := v ^ (0x0001_0001_0001_0001 * n);
    (x - 0x0001_0001_0001_0001) & !x & 0x8000_8000_8000_8000 != 0
  }

  lemma ZeroLane4(x: bv64)
    ensures (x - 0x1111) & !x & 0x8888 != 0
            <==> x & 0xf == 0 || (x >> 4) & 0xf == 0 || (x >> 8) & 0xf == 0 || (x >> 12) & 0xf == 0
  {
  }

  lemma EqualLane4(v: bv64, n: bv64, x: bv64)
    requires n <= 0xf && x == v ^ (0x1111 * n)
    ensures x & 0xf == 0 <==> v & 0xf == n
    ensures (x >> 4) & 0xf == 0 <==> (v >> 4) & 0xf == n
    ensures (x >> 8) & 0xf == 0 <==> (v >> 8) & 0xf == n
    ensures (x >> 12) & 0xf == 0 <==> (v >> 12) & 0xf == n
  {
  }

  // The search finds a tag if and only if one of the four lanes holds it.
  lemma SearchLanes4(v: bv64, n: bv64, l0: bv64, l1: bv64, l2: bv64, l3: bv64)
    requires n <= 0xf
    requires l0 == v & 0xf && l1 == (v >> 4) & 0xf && l2 == (v >> 8) & 0xf && l3 == (v >> 12) & 0xf
    ensures HasValue4(v, n) <==> l0 == n || l1 == n || l2 == n || l3 == n
  {
    var x := v ^ (0x1111 * n);
    ZeroLane4(x);
    EqualLane4(v, n, x);
  }

  lemma ZeroLane8(x: bv64)
    ensures (x - 0x0101_0101) & !x & 0x8080_8080 != 0
            <==> x & 0xff == 0 || (x >> 8) & 0xff == 0 || (x >> 16) & 0xff == 0 || (x >> 24) & 0xff == 0
  {
  }

  lemma FirstLane8(v: bv64, n: bv64, x: bv64)
    requires n <= 0xff && x == v ^ (0x0101_0101 * n)
    ensures x & 0xff == 0 <==> v & 0xff == n
  {
  }

  lemma SecondLane8(v: bv64, n: bv64, x: bv64)
    requires n <= 0xff && x == v ^ (0x0101_0101 * n)
    ensures (x >> 8) & 0xff == 0 <==> (v >> 8) & 0xff == n
  {
  }

  lemma ThirdLane8(v: bv64, n: bv64, x: bv64)
    requires n <= 0xff && x == v ^ (0x0101_0101 * n)
    ensures (x >> 16) & 0xff == 0 <==> (v >> 16) & 0xff == n
  {
  }

  lemma FourthLane8(v: bv64, n: bv64, x: bv64)
    requires n <= 0xff && x == v ^ (0x0101_0101 * n)
    ensures (x >> 24) & 0xff == 0 <==> (v >> 24) & 0xff == n
  {
  }

  lemma HasValueIs8(v: bv64, n: bv64, x: bv64)
    requires x == v ^ (0x0101_0101 * n)
    ensures HasValue8(v, n) <==> (x - 0x0101_0101) & !x & 0x8080_8080 != 0
  {
  }

  // The search finds a tag if and only if one of the four lanes holds it.
  lemma SearchLanes8(v: bv64, n: bv64, l0: bv64, l1: bv64, l2: bv64, l3: bv64)
    requires n <= 0xff
    requires l0 == v & 0xff && l1 == (v >> 8) & 0xff && l2 == (v >> 16) & 0xff && l3 == (v >> 24) & 0xff
    ensures HasValue8(v, n) <==> l0 == n || l1 == n || l2 == n || l3 == n
  {
    hide HasValue8;
    var x := v ^ (0x0101_0101 * n);
    HasValueIs8(v, n, x);
    ZeroLane8(x);
    FirstLane8(v, n, x);
    SecondLane8(v, n, x);
    ThirdLane8(v, n, x);
    FourthLane8(v, n, x);
  }

  lemma ZeroLane12(x: bv64)
    ensures (x - 0x0010_0100_1001) & !x & 0x8008_0080_0800 != 0
            <==> x & 0xfff == 0 || (x >> 12) & 0xfff == 0 || (x >> 24) & 0xfff == 0 || (x >> 36) & 0xfff == 0
  {
  }

  lemma FirstLane12(v: bv64, n: bv64, x: bv64)
    requires n <= 0xfff && x == v ^ (0x0010_0100_1001 * n)
    ensures x & 0xfff == 0 <==> v & 0xfff == n
  {
  }

  lemma SecondLane12(v: bv64, n: bv64, x: bv64)
    requires n <= 0xfff && x == v ^ (0x0010_0100_1001 * n)
    ensures (x >> 12) & 0xfff == 0 <==> (v >> 12) & 0xfff == n
  {
  }

  lemma ThirdLane12(v: bv64, n: bv64, x: bv64)
    requires n <= 0xfff && x == v ^ (0x0010_0100_1001 * n)
    ensures (x >> 24) & 0xfff == 0 <==> (v >> 24) & 0xfff == n
  {
  }

  lemma FourthLane12(v: bv64, n: bv64, x: bv64)
    requires n <= 0xfff && x == v ^ (0x0010_0100_1001 * n)
    ensures (x >> 36) & 0xfff == 0 <==> (v >> 36) & 0xfff == n
  {
  }

  lemma HasValueIs12(v: bv64, n: bv64, x: bv64)
    requires x == v ^ (0x0010_0100_1001 * n)
    ensures HasValue12(v, n) <==> (x - 0x0010_0100_1001) & !x & 0x8008_0080_0800 != 0
  {
  }

  // The search finds a tag if and only if one of the four lanes holds it.
  lemma SearchLanes12(v: bv64, n: bv64, l0: bv64, l1: bv64, l2: bv64, l3: bv64)
    requires n <= 0xfff
    requires l0 == v & 0xfff && l1 == (v >> 12) & 0xfff && l2 == (v >> 24) & 0xfff && l3 == (v >> 36) & 0xfff
    ensures HasValue12(v, n) <==> l0 == n || l1 == n || l2 == n || l3 == n
  {
    hide HasValue12;
    var x := v ^ (0x0010_0100_1001 * n);
    HasValueIs12(v, n, x);
    ZeroLane12(x);
    FirstLane12(v, n, x);
    SecondLane12(v, n, x);
    ThirdLane12(v, n, x);
    FourthLane12(v, n, x);
  }

  lemma ZeroLane16(x: bv64)
    ensures (x - 0x0001_0001_0001_0001) & !x & 0x8000_8000_8000_8000 != 0
            <==> x & 0xffff == 0 || (x >> 16) & 0xffff == 0 || (x >> 32) & 0xffff == 0 || (x >> 48) & 0xffff == 0
  {
  }

  lemma FirstLane16(v: bv64, n: bv64, x: bv64)
    requires n <= 0xffff && x == v ^ (0x0001_0001_0001_0001 * n)
    ensures x & 0xffff == 0 <==> v & 0xffff == n
  {
  }

  lemma SecondLane16(v: bv64, n: bv64, x: bv64)
    requires n <= 0xffff && x == v ^ (0x0001_0001_0001_0001 * n)
    ensures (x >> 16) & 0xffff == 0 <==> (v >> 16) & 0xffff == n
  {
  }

  lemma ThirdLane16(v: bv64, n: bv64, x: bv64)
    requires n <= 0xffff && x == v ^ (0x0001_0001_0001_0001 * n)
    ensures (x >> 32) & 0xffff == 0 <==> (v >> 32) & 0xffff == n
  {
  }

  lemma FourthLane16(v: bv64, n: bv64, x: bv64)
    requires n <= 0xffff && x == v ^ (0x0001_0001_0001_0001 * n)
    ensures (x >> 48) & 0xffff == 0 <==> (v >> 48) & 0xffff == n
  {
  }

  lemma HasValueIs16(v: bv64, n: bv64, x: bv64)
    requires x == v ^ (0x0001_0001_0001_0001 * n)
    ensures HasValue16(v, n) <==> (x - 0x0001_0001_0001_0001) & !x & 0x8000_8000_8000_8000 != 0
  {
  }

  // The search finds a tag if and only if one of the four lanes holds it.
  lemma SearchLanes16(v: bv64, n: bv64, l0: bv64, l1: bv64, l2: bv64, l3: bv64)
    requires n <= 0xffff
    requires l0 == v & 0xffff && l1 == (v >> 16) & 0xffff && l2 == (v >> 32) & 0xffff && l3 == (v >> 48) & 0xffff
    ensures HasValue16(v, n) <==> l0 == n || l1 == n || l2 == n || l3 == n
  {
    hide HasValue16;
    var x := v ^ (0x0001_0001_0001_0001 * n);
    HasValueIs16(v, n, x);
    ZeroLane16(x);
    FirstLane16(v, n, x);
    SecondLane16(v, n, x);
    ThirdLane16(v, n, x);
    FourthLane16(v, n, x);
  }

  function Wide(t: Tag): bv64 {
    t as bv64
  }

  lemma WideInjective(t: Tag, n: Tag)
    ensures Wide(t) == Wide(n) <==> t == n
  {
  }

  lemma WordLane12At0(b0: Byte, b1: Byte, b2: Byte, b3: Byte, b4: Byte, b5: Byte, b6: Byte, b7: Byte, v: bv64, h: bv16)
    requires v == ((b7 as bv64) << 56) | ((b6 as bv64) << 48) | ((b5 as bv64) << 40) | ((b4 as bv64) << 32)
                  | ((b3 as bv64) << 24) | ((b2 as bv64) << 16) | ((b1 as bv64) << 8) | (b0 as bv64)
    requires h == ((b1 as bv16) << 8) | (b0 as bv16)
    ensures v & 0xfff == (((h as bv32) >> 0) & 0xfff) as bv64
  {
  }

  lemma LoadedLane12At0(b0: Byte, b1: Byte, b2: Byte, b3: Byte, b4: Byte, b5: Byte, b6: Byte, b7: Byte)
    ensures Load64(b0, b1, b2, b3, b4, b5, b6, b7) & 0xfff == Wide(Extract12(b0, b1, false))
  {
    WordLane12At0(b0, b1, b2, b3, b4, b5, b6, b7, Load64(b0, b1, b2, b3, b4, b5, b6, b7), Load16(b0, b1));
  }

  lemma WordLane12At1(b0: Byte, b1: Byte, b2: Byte, b3: Byte, b4: Byte, b5: Byte, b6: Byte, b7: Byte, v: bv64, h: bv16)
    requires v == ((b7 as bv64) << 56) | ((b6 as bv64) << 48) | ((b5 as bv64) << 40) | ((b4 as bv64) << 32)
                  | ((b3 as bv64) << 24) | ((b2 as bv64) << 16) | ((b1 as bv64) << 8) | (b0 as bv64)
    requires h == ((b2 as bv16) << 8) | (b1 as bv16)
    ensures (v >> 12) & 0xfff == (((h as bv32) >> 4) & 0xfff) as bv64
  {
  }

  lemma LoadedLane12At1(b0: Byte, b1: Byte, b2: Byte, b3: Byte, b4: Byte, b5: Byte, b6: Byte, b7: Byte)
    ensures (Load64(b0, b1, b2, b3, b4, b5, b6, b7) >> 12) & 0xfff == Wide(Extract12(b1, b2, true))
  {
    WordLane12At1(b0, b1, b2, b3, b4, b5, b6, b7, Load64(b0, b1, b2, b3, b4, b5, b6, b7), Load16(b1, b2));
  }

  lemma WordLane12At2(b0: Byte, b1: Byte, b2: Byte, b3: Byte, b4: Byte, b5: Byte, b6: Byte, b7: Byte, v: bv64, h: bv16)
    requires v == ((b7 as bv64) << 56) | ((b6 as bv64) << 48) | ((b5 as bv64) << 40) | ((b4 as bv64) << 32)
                  | ((b3 as bv64) << 24) | ((b2 as bv64) << 16) | ((b1 as bv64) << 8) | (b0 as bv64)
    requires h == ((b4 as bv16) << 8) | (b3 as bv16)
    ensures (v >> 24) & 0xfff == (((h as bv32) >> 0) & 0xfff) as bv64
  {
  }

  lemma LoadedLane12At2(b0: Byte, b1: Byte, b2: Byte, b3: Byte, b4: Byte, b5: Byte, b6: Byte, b7: Byte)
    ensures (Load64(b0, b1, b2, b3, b4, b5, b6, b7) >> 24) & 0xfff == Wide(Extract12(b3, b4, false))
  {
    WordLane12At2(b0, b1, b2, b3, b4, b5, b6, b7, Load64(b0, b1, b2, b3, b4, b5, b6, b7), Load16(b3, b4));
  }

  lemma WordLane12At3(b0: Byte, b1: Byte, b2: Byte, b3: Byte, b4: Byte, b5: Byte, b6: Byte, b7: Byte, v: bv64, h: bv16)
    requires v == ((b7 as bv64) << 56) | ((b6 as bv64) << 48) | ((b5 as bv64) << 40) | ((b4 as bv64) << 32)
                  | ((b3 as bv64) << 24) | ((b2 as bv64) << 16) | ((b1 as bv64) << 8) | (b0 as bv64)
    requires h == ((b5 as bv16) << 8) | (b4 as bv16)
    ensures (v >> 36) & 0xfff == (((h as bv32) >> 4) & 0xfff) as bv64
  {
  }

  lemma LoadedLane12At3(b0: Byte, b1: Byte, b2: Byte, b3: Byte, b4: Byte, b5: Byte, b6: Byte, b7: Byte)
    ensures (Load64(b0, b1, b2, b3, b4, b5, b6, b7) >> 36) & 0xfff == Wide(Extract12(b4, b5, true))
  {
    WordLane12At3(b0, b1, b2, b3, b4, b5, b6, b7, Load64(b0, b1, b2, b3, b4, b5, b6, b7), Load16(b4, b5));
  }

  lemma Load64Is(b0: Byte, b1: Byte, b2: Byte, b3: Byte, b4: Byte, b5: Byte, b6: Byte, b7: Byte, v: bv64)
    requires v == Load64(b0, b1, b2, b3, b4, b5, b6, b7)
    ensures v == ((b7 as bv64) << 56) | ((b6 as bv64) << 48) | ((b5 as bv64) << 40) | ((b4 as bv64) << 32)
                 | ((b3 as bv64) << 24) | ((b2 as bv64) << 16) | ((b1 as bv64) << 8) | (b0 as bv64)
  {
  }

  function WideWord(h: bv16): bv64 {
    h as bv64
  }

  lemma WideLoad(lo: Byte, hi: Byte)
    ensures WideWord(Load16(lo, hi)) == ((((hi as bv16) << 8) | (lo as bv16)) as bv32) as bv64
  {
  }

  lemma WidenTwice(h: bv16)
    ensures ((h as bv32) & 0xffff) as bv64 == h as bv64
  {
  }

  lemma WideExtract16(lo: Byte, hi: Byte)
    ensures Wide(Extract16(lo, hi)) == WideWord(Load16(lo, hi))
  {
    hide Load16;
    WidenTwice(Load16(lo, hi));
  }

  lemma WordLanes16(b0: Byte, b1: Byte, b2: Byte, b3: Byte, b4: Byte, b5: Byte, b6: Byte, b7: Byte, v: bv64)
    requires v == ((b7 as bv64) << 56) | ((b6 as bv64) << 48) | ((b5 as bv64) << 40) | ((b4 as bv64) << 32)
                  | ((b3 as bv64) << 24) | ((b2 as bv64) << 16) | ((b1 as bv64) << 8) | (b0 as bv64)
    ensures v & 0xffff == (((((b1 as bv16) << 8) | (b0 as bv16)) as bv32) as bv64)
    ensures (v >> 16) & 0xffff == (((((b3 as bv16) << 8) | (b2 as bv16)) as bv32) as bv64)
    ensures (v >> 32) & 0xffff == (((((b5 as bv16) << 8) | (b4 as bv16)) as bv32) as bv64)
    ensures (v >> 48) & 0xffff == (((((b7 as bv16) << 8) | (b6 as bv16)) as bv32) as bv64)
  {
  }

  // The lanes of a word are the tags of the bucket it was loaded from.
  lemma LoadedLanes4(b0: Byte, b1: Byte, b2: Byte, b3: Byte, b4: Byte, b5: Byte, b6: Byte, b7: Byte)
    ensures var v := Load64(b0, b1, b2, b3, b4, b5, b6, b7);
            && v & 0xf == Wide(Extract4(b0, false))
            && (v >> 4) & 0xf == Wide(Extract4(b0, true))
            && (v >> 8) & 0xf == Wide(Extract4(b1, false))
            && (v >> 12) & 0xf == Wide(Extract4(b1, true))
  {
  }

  lemma Found4(b0: Byte, b1: Byte, b2: Byte, b3: Byte, b4: Byte, b5: Byte, b6: Byte, b7: Byte, n: Tag)
    requires Wide(n) <= 0xf
    ensures HasValue4(Load64(b0, b1, b2, b3, b4, b5, b6, b7), Wide(n))
            <==> n in [Extract4(b0, false), Extract4(b0, true), Extract4(b1, false), Extract4(b1, true)]
  {
    hide *;
    LoadedLanes4(b0, b1, b2, b3, b4, b5, b6, b7);
    SearchLanes4(Load64(b0, b1, b2, b3, b4, b5, b6, b7), Wide(n),
                Wide(Extract4(b0, false)), Wide(Extract4(b0, true)), Wide(Extract4(b1, false)), Wide(Extract4(b1, true)));
    WideInjective(Extract4(b0, false), n);
    WideInjective(Extract4(b0, true), n);
    WideInjective(Extract4(b1, false), n);
    WideInjective(Extract4(b1, true), n);
  }

  lemma LoadedLanes8(b0: Byte, b1: Byte, b2: Byte, b3: Byte, b4: Byte, b5: Byte, b6: Byte, b7: Byte)
    ensures var v := Load64(b0, b1, b2, b3, b4, b5, b6, b7);
            && v & 0xff == Wide(Extract8(b0))
            && (v >> 8) & 0xff == Wide(Extract8(b1))
            && (v >> 16) & 0xff == Wide(Extract8(b2))
            && (v >> 24) & 0xff == Wide(Extract8(b3))
  {
  }

  lemma Found8(b0: Byte, b1: Byte, b2: Byte, b3: Byte, b4: Byte, b5: Byte, b6: Byte, b7: Byte, n: Tag)
    requires Wide(n) <= 0xff
    ensures HasValue8(Load64(b0, b1, b2, b3, b4, b5, b6, b7), Wide(n))
            <==> n in [Extract8(b0), Extract8(b1), Extract8(b2), Extract8(b3)]
  {
    hide *;
    LoadedLanes8(b0, b1, b2, b3, b4, b5, b6, b7);
    SearchLanes8(Load64(b0, b1, b2, b3, b4, b5, b6, b7), Wide(n),
                Wide(Extract8(b0)), Wide(Extract8(b1)), Wide(Extract8(b2)), Wide(Extract8(b3)));
    WideInjective(Extract8(b0), n);
    WideInjective(Extract8(b1), n);
    WideInjective(Extract8(b2), n);
    WideInjective(Extract8(b3), n);
  }

  lemma LoadedLanes12(b0: Byte, b1: Byte, b2: Byte, b3: Byte, b4: Byte, b5: Byte, b6: Byte, b7: Byte)
    ensures var v := Load64(b0, b1, b2, b3, b4, b5, b6, b7);
            && v & 0xfff == Wide(Extract12(b0, b1, false))
            && (v >> 12) & 0xfff == Wide(Extract12(b1, b2, true))
            && (v >> 24) & 0xfff == Wide(Extract12(b3, b4, false))
            && (v >> 36) & 0xfff == Wide(Extract12(b4, b5, true))
  {
    hide *;
    LoadedLane12At0(b0, b1, b2, b3, b4, b5, b6, b7);
    LoadedLane12At1(b0, b1, b2, b3, b4, b5, b6, b7);
    LoadedLane12At2(b0, b1, b2, b3, b4, b5, b6, b7);
    LoadedLane12At3(b0, b1, b2, b3, b4, b5, b6, b7);
  }

  lemma Found12(b0: Byte, b1: Byte, b2: Byte, b3: Byte, b4: Byte, b5: Byte, b6: Byte, b7: Byte, n: Tag)
    requires Wide(n) <= 0xfff
    ensures HasValue12(Load64(b0, b1, b2, b3, b4, b5, b6, b7), Wide(n))
            <==> n in [Extract12(b0, b1, false), Extract12(b1, b2, true), Extract12(b3, b4, false), Extract12(b4, b5, true)]
  {
    hide *;
    LoadedLanes12(b0, b1, b2, b3, b4, b5, b6, b7);
    SearchLanes12(Load64(b0, b1, b2, b3, b4, b5, b6, b7), Wide(n),
                Wide(Extract12(b0, b1, false)), Wide(Extract12(b1, b2, true)), Wide(Extract12(b3, b4, false)), Wide(Extract12(b4, b5, true)));
    WideInjective(Extract12(b0, b1, false), n);
    WideInjective(Extract12(b1, b2, true), n);
    WideInjective(Extract12(b3, b4, false), n);
    WideInjective(Extract12(b4, b5, true), n);
  }

  lemma LoadedLanes16(b0: Byte, b1: Byte, b2: Byte, b3: Byte, b4: Byte, b5: Byte, b6: Byte, b7: Byte)
    ensures var v := Load64(b0, b1, b2, b3, b4, b5, b6, b7);
            && v & 0xffff == Wide(Extract16(b0, b1))
            && (v >> 16) & 0xffff == Wide(Extract16(b2, b3))
            && (v >> 32) & 0xffff == Wide(Extract16(b4, b5))
            && (v >> 48) & 0xffff == Wide(Extract16(b6, b7))
  {
    hide *;
    Load64Is(b0, b1, b2, b3, b4, b5, b6, b7, Load64(b0, b1, b2, b3, b4, b5, b6, b7));
    WordLanes16(b0, b1, b2, b3, b4, b5, b6, b7, Load64(b0, b1, b2, b3, b4, b5, b6, b7));
    WideLoad(b0, b1);
    WideExtract16(b0, b1);
    WideLoad(b2, b3);
    WideExtract16(b2, b3);
    WideLoad(b4, b5);
    WideExtract16(b4, b5);
    WideLoad(b6, b7);
    WideExtract16(b6, b7);
  }

  lemma Found16(b0: Byte, b1: Byte, b2: Byte, b3: Byte, b4: Byte, b5: Byte, b6: Byte, b7: Byte, n: Tag)
    requires Wide(n) <= 0xffff
    ensures HasValue16(Load64(b0, b1, b2, b3, b4, b5, b6, b7), Wide(n))
            <==> n in [Extract16(b0, b1), Extract16(b2, b3), Extract16(b4, b5), Extract16(b6, b7)]
  {
    hide *;
    LoadedLanes16(b0, b1, b2, b3, b4, b5, b6, b7);
    SearchLanes16(Load64(b0, b1, b2, b3, b4, b5, b6, b7), Wide(n),
                Wide(Extract16(b0, b1)), Wide(Extract16(b2, b3)), Wide(Extract16(b4, b5)), Wide(Extract16(b6, b7)));
    WideInjective(Extract16(b0, b1), n);
    WideInjective(Extract16(b2, b3), n);
    WideInjective(Extract16(b4, b5), n);
    WideInjective(Extract16(b6, b7), n);
  }

  // ----- buckets as tags -----

  // The four tags of a bucket.
  function Tags(w: nat, b: seq<Byte>): (q: seq<Tag>)
    requires IsBucket(w, b)
    ensures |q| == TAGS_PER_BUCKET
  {
    [ReadTag(w, b, 0), ReadTag(w, b, 1), ReadTag(w, b, 2), ReadTag(w, b, 3)]
  }

  lemma TagsAt(w: nat, b: seq<Byte>, j: nat)
    requires IsBucket(w, b) && j < TAGS_PER_BUCKET
    ensures Tags(w, b)[j] == ReadTag(w, b, j)
  {
    hide ReadTag, IsBucket;
  }

  lemma WriteIsUpdate(w: nat, b: seq<Byte>, j: nat, t: Tag)
    requires IsBucket(w, b) && j < TAGS_PER_BUCKET && Masked(w, t) == t
    ensures Tags(w, WriteTag(w, b, j, t)) == Tags(w, b)[j := t]
  {
    hide ReadTag, WriteTag, Masked, IsBucket;
    ReadAfterWrite(w, b, j, t, 0);
    ReadAfterWrite(w, b, j, t, 1);
    ReadAfterWrite(w, b, j, t, 2);
    ReadAfterWrite(w, b, j, t, 3);
  }

  function ZeroBucket(w: nat): (b: seq<Byte>)
    requires Supported(w)
    ensures IsBucket(w, b)
  {
    seq(BytesPerBucket(w), k => 0)
  }

  lemma ZeroTags(w: nat)
    requires Supported(w)
    ensures Tags(w, ZeroBucket(w)) == [0, 0, 0, 0]
  {
    ZeroTag(w, 0);
    ZeroTag(w, 1);
    ZeroTag(w, 2);
    ZeroTag(w, 3);
    hide ReadTag, ZeroBucket;
  }

  lemma ZeroExtracts()
    ensures Extract4(0, false) == 0 && Extract4(0, true) == 0 && Extract8(0) == 0
    ensures Extract12(0, 0, false) == 0 && Extract12(0, 0, true) == 0
    ensures Extract16(0, 0) == 0 && Extract32(0, 0, 0, 0) == 0
  {
  }

  lemma ZeroTag(w: nat, j: nat)
    requires Supported(w) && j < TAGS_PER_BUCKET
    ensures ReadTag(w, ZeroBucket(w), j) == 0
  {
    ZeroExtracts();
    hide Extract4, Extract8, Extract12, Extract16, Extract32;
  }

  // The search in the word read from a bucket, whatever bytes follow the bucket.
  function HasValue(w: nat, v: bv64, n: bv64): bool {
    if w == 4 then HasValue4(v, n) else if w == 8 then HasValue8(v, n)
    else if w == 12 then HasValue12(v, n) else HasValue16(v, n)
  }

  lemma FoundInBucket(w: nat, b: seq<Byte>, word: seq<Byte>, n: Tag)
    requires IsBucket(w, b) && w != 32 && |word| == 8 && Masked(w, n) == n
    requires forall k | 0 <= k < 8 && k < |b| :: word[k] == b[k]
    ensures HasValue(w, Load64(word[0], word[1], word[2], word[3], word[4], word[5], word[6], word[7]), Wide(n))
            <==> n in Tags(w, b)
  {
    MaskedWide(w, n);
    hide Extract4, Extract8, Extract12, Extract16, Extract32, Wide, HasValue4, HasValue8, HasValue12, HasValue16,
      Load64, Masked, TagMask;
    if w == 4 {
      Found4(word[0], word[1], word[2], word[3], word[4], word[5], word[6], word[7], n);
    } else if w == 8 {
      Found8(word[0], word[1], word[2], word[3], word[4], word[5], word[6], word[7], n);
    } else if w == 12 {
      Found12(word[0], word[1], word[2], word[3], word[4], word[5], word[6], word[7], n);
    } else {
      Found16(word[0], word[1], word[2], word[3], word[4], word[5], word[6], word[7], n);
    }
  }

  lemma MaskedWide(w: nat, n: Tag)
    requires Supported(w) && Masked(w, n) == n
    ensures w == 4 ==> Wide(n) <= 0xf
    ensures w == 8 ==> Wide(n) <= 0xff
    ensures w == 12 ==> Wide(n) <= 0xfff
    ensures w == 16 ==> Wide(n) <= 0xffff
  {
  }

  // The first slot that holds t, or the number of slots.
  function FirstSlot(q: seq<Tag>, t: Tag): (j: nat)
    ensures j <= |q|
    ensures j < |q| ==> q[j] == t
    ensures forall k | 0 <= k < j :: q[k] != t
  {
    if q == [] then 0
    else if q[0] == t then 0
    else 1 + FirstSlot(q[1..], t)
  }

  lemma FirstSlotIs(q: seq<Tag>, t: Tag, j: nat)
    requires j <= |q| && (j < |q| ==> q[j] == t) && forall k | 0 <= k < j :: q[k] != t
    ensures FirstSlot(q, t) == j
    ensures t in q <==> j < |q|
  {
  }

  class SingleTable {
    const w: nat
    const numBuckets: nat
    var buckets: array<seq<Byte>>

    ghost predicate Valid()
      reads this, buckets
    {
      && Supported(w) && buckets.Length == numBuckets + PaddingBuckets(w)
      && forall i | 0 <= i < buckets.Length :: IsBucket(w, buckets[i])
    }

    // The table as four tags per bucket.
    ghost function Contents(): (t: seq<seq<Tag>>)
      requires Valid()
      reads this, buckets
      ensures |t| == numBuckets
    {
      seq(numBuckets, i requires 0 <= i < numBuckets && Valid() reads this, buckets => Tags(w, buckets[i]))
    }

    constructor (width: nat, num: nat)
      requires Supported(width)
      ensures Valid() && w == width && numBuckets == num && fresh(buckets)
      ensures forall i | 0 <= i < num :: Contents()[i] == [0, 0, 0, 0]
    {
      w, numBuckets := width, num;
      buckets := new seq<Byte>[num + PaddingBuckets(width)](i => ZeroBucket(width));
      new;
      ZeroTags(w);
      hide Tags, ZeroBucket;
    }

    // The 64-bit word that starts at a bucket; it may reach into the next ones.
    method ReadWord(i: nat) returns (word: seq<Byte>)
      requires Valid() && i < numBuckets
      ensures |word| == 8
      ensures forall k | 0 <= k < 8 && k < |buckets[i]| :: word[k] == buckets[i][k]
    {
      var n := BytesPerBucket(w);
      word := [];
      for k := 0 to 8
        invariant |word| == k
        invariant forall j | 0 <= j < k && j < n :: word[j] == buckets[i][j]
      {
        WordInside(w, k);
        word := word + [buckets[i + k / n][k % n]];
      }
    }

    // Whether one of two buckets holds the tag.
    method FindTagInBuckets(i1: nat, i2: nat, tag: Tag) returns (found: bool)
      requires Valid() && i1 < numBuckets && i2 < numBuckets && Masked(w, tag) == tag
      ensures found <==> tag in Contents()[i1] || tag in Contents()[i2]
    {
      hide Tags, Masked, HasValue, Load64, ReadTag;
      var word1 := ReadWord(i1);
      var word2 := ReadWord(i2);
      if w != 32 {
        FoundInBucket(w, buckets[i1], word1, tag);
        FoundInBucket(w, buckets[i2], word2, tag);
        return HasValue(w, Load64(word1[0], word1[1], word1[2], word1[3], word1[4], word1[5], word1[6], word1[7]), Wide(tag))
            || HasValue(w, Load64(word2[0], word2[1], word2[2], word2[3], word2[4], word2[5], word2[6], word2[7]), Wide(tag));
      }
      for j := 0 to TAGS_PER_BUCKET
        invariant forall k | 0 <= k < j :: Contents()[i1][k] != tag && Contents()[i2][k] != tag
      {
        TagsAt(w, buckets[i1], j);
        TagsAt(w, buckets[i2], j);
        if ReadTag(w, buckets[i1], j) == tag || ReadTag(w, buckets[i2], j) == tag {
          return true;
        }
      }
      return false;
    }

    // Clears the first slot of the bucket that holds the tag.
    method DeleteTagFromBucket(i: nat, tag: Tag) returns (ok: bool)
      requires Valid() && i < numBuckets
      modifies buckets
      ensures Valid()
      ensures ok <==> tag in old(Contents())[i]
      ensures !ok ==> Contents() == old(Contents())
      ensures ok ==> FirstSlot(old(Contents())[i], tag) < TAGS_PER_BUCKET
                     && Contents() == Updated(old(Contents()), i, FirstSlot(old(Contents())[i], tag), 0)
    {
      hide Tags, Masked, ReadTag, WriteTag, FirstSlot;
      ghost var q := Contents()[i];
      for j := 0 to TAGS_PER_BUCKET
        invariant buckets[..] == old(buckets[..])
        invariant forall k | 0 <= k < j :: q[k] != tag
      {
        TagsAt(w, buckets[i], j);
        if ReadTag(w, buckets[i], j) == tag {
          FirstSlotIs(q, tag, j);
          MaskedZero(w);
          WriteIsUpdate(w, buckets[i], j, 0);
          buckets[i] := WriteTag(w, buckets[i], j, 0);
          assert Contents() == Updated(old(Contents()), i, j, 0);
          return true;
        }
      }
      return false;
    }

    // Writes the tag into the first empty slot; if there is none and kicking
    // out is allowed, into any slot, whose tag is handed back.
    method InsertTagToBucket(i: nat, tag: Tag, kickout: bool) returns (ok: bool, oldtag: Tag, ghost slot: nat)
      requires Valid() && i < numBuckets && Masked(w, tag) == tag
      modifies buckets
      ensures Valid()
      ensures ok <==> 0 in old(Contents())[i]
      ensures slot < TAGS_PER_BUCKET
      ensures ok ==> slot == FirstSlot(old(Contents())[i], 0) && Contents() == Updated(old(Contents()), i, slot, tag)
      ensures !ok && kickout ==> oldtag == old(Contents())[i][slot] && Contents() == Updated(old(Contents()), i, slot, tag)
      ensures !ok && !kickout ==> oldtag == 0 && Contents() == old(Contents())
    {
      hide Tags, Masked, ReadTag, WriteTag, FirstSlot;
      ghost var q := Contents()[i];
      oldtag, slot := 0, 0;
      for j := 0 to TAGS_PER_BUCKET
        invariant buckets[..] == old(buckets[..])
        invariant forall k | 0 <= k < j :: q[k] != 0
      {
        TagsAt(w, buckets[i], j);
        if ReadTag(w, buckets[i], j) == 0 {
          FirstSlotIs(q, 0, j);
          WriteIsUpdate(w, buckets[i], j, tag);
          buckets[i] := WriteTag(w, buckets[i], j, tag);
          assert Contents() == Updated(old(Contents()), i, j, tag);
          return true, 0, j;
        }
      }
      if kickout {
        var r: nat :| r < TAGS_PER_BUCKET;
        TagsAt(w, buckets[i], r);
        oldtag := ReadTag(w, buckets[i], r);
        WriteIsUpdate(w, buckets[i], r, tag);
        buckets[i] := WriteTag(w, buckets[i], r, tag);
        assert Contents() == Updated(old(Contents()), i, r, tag);
        slot := r;
      }
      return false, oldtag, slot;
    }
  }

  // The table with one slot changed.
  function Updated(t: seq<seq<Tag>>, i: nat, j: nat, tag: Tag): (u: seq<seq<Tag>>)
    requires i < |t| && j < |t[i]|
    ensures |u| == |t|
  {
    var q: seq<Tag> := t[i][j := tag];
    t[i := q]
  }

  lemma MaskedZero(w: nat)
    requires Supported(w)
    ensures Masked(w, 0) == 0
  {
  }

  lemma WordInside(w: nat, k: nat)
    requires Supported(w) && k < 8
    ensures BytesPerBucket(w) > 0 && k / BytesPerBucket(w) <= PaddingBuckets(w) && k % BytesPerBucket(w) < BytesPerBucket(w)
    ensures k < BytesPerBucket(w) ==> k / BytesPerBucket(w) == 0 && k % BytesPerBucket(w) == k
  {
    BucketWidths(w);
    hide *;
    var bytes, padding := BytesPerBucket(w), PaddingBuckets(w);
    Arith.DivUpper(k, bytes, padding + 1);
    Arith.DivMod(k, bytes);
    if k < bytes {
      Arith.SmallDivMod(k, bytes);
    }
  }

  // Eight bytes from any bucket stay inside the padding.
  lemma BucketWidths(w: nat)
    requires Supported(w)
    ensures BytesPerBucket(w) > 0 && 8 <= (PaddingBuckets(w) + 1) * BytesPerBucket(w)
  {
    if w == 4 {
      assert BytesPerBucket(w) == 2 && PaddingBuckets(w) == 3;
    } else if w == 8 {
      assert BytesPerBucket(w) == 4 && PaddingBuckets(w) == 1;
    } else if w == 12 {
      assert BytesPerBucket(w) == 6 && PaddingBuckets(w) == 1;
    } else if w == 16 {
      assert BytesPerBucket(w) == 8 && PaddingBuckets(w) == 0;
    } else {
      assert BytesPerBucket(w) == 16 && PaddingBuckets(w) == 0;
    }
  }
}
