/** Store and delete on a packed block of a Morton filter, as sequences of word
    operations: a block of bits that represents a block of the table model comes to
    represent the block after the operation. */
module PackedStore {
  import opened Arith
  import opened BlockStore
  import opened Lanes
  import opened MortonTable
  import opened PackedMorton
  import Reductions

  // The packed block represents the block of the table model.
  ghost predicate Holds(block: PackedBlock, l: Layout, b: Block)
    reads block.storage
  {
    && block.Valid() && 0 < l.counterBits < block.size && 0 < l.fingerprintBits < block.size && l.capacity < 256
    && Represents(l, block.Content(), b) && Start(b.counters, |b.counters|) == |b.fps|
  }

  lemma HoldsMeans(block: PackedBlock, l: Layout, b: Block)
    requires Holds(block, l, b)
    ensures block.Valid() && 0 < l.counterBits < block.size && 0 < l.fingerprintBits < block.size && l.capacity < 256
    ensures Represents(l, block.Content(), b) && Start(b.counters, |b.counters|) == |b.fps|
    ensures |b.counters| == l.buckets && |b.fps| <= l.capacity && FitsBlock(l, block.Content())
  {
    hide Start, CounterIs, OtaBitIs, FingerprintIs, FitsBlock;
  }

  lemma MakeHolds(block: PackedBlock, l: Layout, b: Block)
    requires block.Valid() && 0 < l.counterBits < block.size && 0 < l.fingerprintBits < block.size && l.capacity < 256
    requires Represents(l, block.Content(), b) && Start(b.counters, |b.counters|) == |b.fps|
    ensures Holds(block, l, b)
  {
  }

  // ----- reading -----

  lemma {:induction false} NumPadded(b: seq<bool>, k: nat)
    ensures Num(b + seq(k, i => false)) == Num(b)
  {
    if k == 0 {
      assert b + seq(0, i => false) == b;
    } else {
      var x := b + seq(k, i => false);
      assert x[..|x| - 1] == b + seq(k - 1, i => false);
      NumPadded(b, k - 1);
      hide Pow2;
    }
  }

  // A field read from the words is the number in the field.
  lemma ReadIsField(atoms: seq<Atom>, size: nat, n: nat, start: nat, width: nat)
    requires IsStorage(atoms, size) && |atoms| == n + 1 && 0 < width < size && start + width <= n * size
    ensures IsStorage(atoms[..n], size) && start + width < |atoms| * size
    ensures Num(ReadCross(atoms, size, start, width)) == Num(Bits(atoms[..n], size)[start..start + width])
  {
    MulAdd(n, 1, size);
    BitsPrefix(atoms, size, n);
    ReadCrossIsSlice(atoms, size, start, width);
    hide Bits, Num, ReadCross;
    var f := Bits(atoms, size)[start..start + width];
    NumPadded(f, size - width);
    assert f == Bits(atoms[..n], size)[start..start + width];
  }

  method ReadField(block: PackedBlock, start: nat, width: nat) returns (v: nat)
    requires block.Valid() && 0 < width < block.size && start + width <= |block.Content()|
    ensures v == Num(block.Content()[start..start + width])
  {
    hide Num, ReadCross, Bits;
    ReadIsField(block.storage[..], block.size, block.atomsPerBlock, start, width);
    v := Num(ReadCross(block.storage[..], block.size, start, width));
  }

  method ReadCounter(block: PackedBlock, l: Layout, i: nat, ghost b: Block) returns (v: nat)
    requires Holds(block, l, b) && i < l.buckets
    ensures |b.counters| == l.buckets && v == b.counters[i]
  {
    hide *;
    HoldsMeans(block, l, b);
    CounterInside(l, block.Content(), i);
    CounterAt(l, block.Content(), b, i);
    v := ReadField(block, FieldStart(0, l.counterBits, i), l.counterBits);
  }

  lemma CounterAt(l: Layout, bits: seq<bool>, b: Block, i: nat)
    requires Represents(l, bits, b) && i < l.buckets
    requires FieldStart(0, l.counterBits, i) + l.counterBits <= |bits|
    ensures |b.counters| == l.buckets
    ensures Num(bits[FieldStart(0, l.counterBits, i)..FieldStart(0, l.counterBits, i) + l.counterBits]) == b.counters[i]
  {
    assert CounterIs(l, bits, i, b.counters[i]);
    hide Num, FieldStart;
  }

  method ReadFingerprint(block: PackedBlock, l: Layout, j: nat, ghost b: Block) returns (f: nat)
    requires Holds(block, l, b) && j < |b.fps|
    ensures f == b.fps[j]
  {
    hide *;
    HoldsMeans(block, l, b);
    FingerprintInside(l, block.Content(), j);
    FingerprintAt(l, block.Content(), b, j);
    f := ReadField(block, FieldStart(FingerprintOffset(l), l.fingerprintBits, j), l.fingerprintBits);
  }

  lemma FingerprintAt(l: Layout, bits: seq<bool>, b: Block, j: nat)
    requires Represents(l, bits, b) && j < |b.fps|
    requires FieldStart(FingerprintOffset(l), l.fingerprintBits, j) + l.fingerprintBits <= |bits|
    ensures var s := FieldStart(FingerprintOffset(l), l.fingerprintBits, j);
            Num(bits[s..s + l.fingerprintBits]) == b.fps[j]
  {
    assert FingerprintIs(l, bits, j, b.fps[j]);
    hide Num, FieldStart;
  }

  // The serial sum of the counters below an index, in eight bits.
  method ReduceUpToIndex(block: PackedBlock, l: Layout, index: nat, ghost b: Block) returns (sum: nat)
    requires Holds(block, l, b) && index <= l.buckets
    ensures |b.counters| == l.buckets && sum == Start(b.counters, index)
  {
    hide *;
    HoldsMeans(block, l, b);
    sum := 0;
    StartNone(b.counters);
    for i := 0 to index
      invariant sum == Start(b.counters, i)
    {
      var v := ReadCounter(block, l, i, b);
      StartNext(b.counters, i);
      StartMono(b.counters, i + 1, |b.counters|);
      SmallDivMod(sum + v, 256);
      sum := (sum + v) % 256;
    }
  }

  lemma StartNone(counters: seq<nat>)
    ensures Start(counters, 0) == 0
  {
  }

  lemma StartNext(counters: seq<nat>, i: nat)
    requires i < |counters|
    ensures Start(counters, i + 1) == Start(counters, i) + counters[i]
  {
  }

  // ----- store -----

  // A field that is not all ones has a zero.
  lemma {:induction false} SomeZero(b: seq<bool>) returns (j: nat)
    requires Num(b) + 1 < Pow2(|b|)
    ensures j < |b| && !b[j]
  {
    j := |b| - 1;
    if b[j] {
      j := SomeZero(b[..j]);
    }
  }

  method FirstLevelStore(block: PackedBlock, l: Layout, i: nat, slots: nat, item: Atom, ghost b: Block)
    returns (ok: bool)
    requires Holds(block, l, b) && i < l.buckets && |item| == block.size && Fits(item, l.fingerprintBits)
    requires slots < Pow2(l.counterBits) && i < |b.counters| && b.counters[i] <= slots
    modifies block.storage
    ensures ok <==> |b.fps| < l.capacity && b.counters[i] < slots
    ensures ok ==> Start(b.counters, |b.counters|) == |b.fps| && l.fingerprintBits <= |item|
                   && Holds(block, l, Store(b, i, Num(item[..l.fingerprintBits])))
    ensures !ok ==> block.storage[..] == old(block.storage[..])
  {
    hide *;
    HoldsMeans(block, l, b);
    var bucketStart := ReduceUpToIndex(block, l, i, b);
    var elements := ReduceUpToIndex(block, l, l.buckets, b);
    var counter := ReadCounter(block, l, i, b);
    if elements == l.capacity || counter == slots {
      return false;
    }
    StartMono(b.counters, i, |b.counters|);
    ghost var f := Num(item[..l.fingerprintBits]);
    LeftDisplaceRefines(l, block.Content(), b, bucketStart, item);
    ContentLength(block);
    block.AddCrossLeftDisplace(FieldStart(FingerprintOffset(l), l.fingerprintBits, bucketStart), l.fingerprintBits, item);
    ghost var shifted := WriteLeftDisplace(b, bucketStart, f);
    StoreParts(b, i, f);
    Increment(block, l, i, shifted, slots);
    MakeHolds(block, l, Store(b, i, f));
    return true;
  }

  lemma ContentLength(block: PackedBlock)
    requires block.Valid()
    ensures |block.Content()| == block.atomsPerBlock * block.size
  {
  }

  lemma StoreParts(b: Block, i: nat, f: nat)
    requires i < |b.counters| && Start(b.counters, |b.counters|) == |b.fps|
    ensures Start(b.counters, i) <= |b.fps|
    ensures WriteLeftDisplace(b, Start(b.counters, i), f).counters == b.counters
    ensures Store(b, i, f) == SetCounter(WriteLeftDisplace(b, Start(b.counters, i), f), i, b.counters[i] + 1)
    ensures |Store(b, i, f).counters| == |b.counters|
    ensures Start(Store(b, i, f).counters, |b.counters|) == |Store(b, i, f).fps|
  {
    hide *;
    StoreIs(b, i, f);
    ShiftKeepsCounters(b, Start(b.counters, i), f);
  }

  lemma ShiftKeepsCounters(b: Block, at: nat, f: nat)
    requires at <= |b.fps|
    ensures WriteLeftDisplace(b, at, f).counters == b.counters
  {
  }

  // Raises one counter.
  method Increment(block: PackedBlock, l: Layout, i: nat, ghost b: Block, ghost slots: nat)
    requires block.Valid() && 0 < l.counterBits < block.size && Represents(l, block.Content(), b)
    requires i < l.buckets && i < |b.counters| && b.counters[i] < slots < Pow2(l.counterBits)
    modifies block.storage
    ensures block.Valid() && Represents(l, block.Content(), SetCounter(b, i, b.counters[i] + 1))
  {
    hide *;
    RepresentsFits(l, block.Content(), b);
    CounterInside(l, block.Content(), i);
    var start := FieldStart(0, l.counterBits, i);
    CounterAt(l, block.Content(), b, i);
    ghost var before := block.Content();
    ghost var field := before[start..start + l.counterBits];
    ghost var j := SomeZero(field);
    assert !before[start + j];
    ContentLength(block);
    block.IncCross(start, l.counterBits);
    ghost var after := before[..start] + Ripple(field, 0) + before[start + l.counterBits..];
    assert after[start..start + l.counterBits] == Ripple(field, 0);
    IncrementRefines(l, before, b, i);
  }

  lemma RepresentsFits(l: Layout, bits: seq<bool>, b: Block)
    requires Represents(l, bits, b)
    ensures FitsBlock(l, bits) && |b.counters| == l.buckets && |b.fps| <= l.capacity
  {
    hide CounterIs, OtaBitIs, FingerprintIs, FitsBlock;
  }

  // ----- delete -----

  // A number as bits, the lowest first.
  function ToBits(v: nat, size: nat): (a: Atom)
    ensures |a| == size
  {
    if size == 0 then [] else [v % 2 == 1] + ToBits(v / 2, size - 1)
  }

  lemma {:induction false} NumHead(b: seq<bool>)
    requires b != []
    ensures Num(b) == (if b[0] then 1 else 0) + 2 * Num(b[1..])
  {
    var n := |b| - 1;
    if n == 0 {
      assert b[..0] == [] && b[1..] == [];
    } else {
      NumHead(b[..n]);
      assert b[..n][1..] == b[1..][..n - 1];
    }
  }

  lemma {:induction false} ToBitsNum(v: nat, width: nat, size: nat)
    requires width <= size && v < Pow2(width)
    ensures Num(ToBits(v, size)[..width]) == v && Fits(ToBits(v, size), width)
  {
    var a := ToBits(v, size);
    if width == 0 {
      ZeroBits(size);
    } else {
      ToBitsNum(v / 2, width - 1, size - 1);
      NumHead(a[..width]);
      assert a[..width][1..] == ToBits(v / 2, size - 1)[..width - 1];
      forall i | width <= i < size
        ensures !a[i]
      {
        assert a[i] == ToBits(v / 2, size - 1)[i - 1];
      }
    }
    hide Num;
  }

  lemma {:induction false} ZeroBits(size: nat)
    ensures forall i | 0 <= i < size :: !ToBits(0, size)[i]
  {
    if size > 0 {
      ZeroBits(size - 1);
    }
  }

  // Overwrites one counter.
  method SetFullnessCounter(block: PackedBlock, l: Layout, i: nat, v: nat, ghost b: Block)
    requires block.Valid() && 0 < l.counterBits < block.size && Represents(l, block.Content(), b)
    requires i < l.buckets && i < |b.counters| && v < Pow2(l.counterBits)
    modifies block.storage
    ensures block.Valid() && Represents(l, block.Content(), SetCounter(b, i, v))
  {
    hide *;
    RepresentsFits(l, block.Content(), b);
    CounterInside(l, block.Content(), i);
    ToBitsNum(v, l.counterBits, block.size);
    var item := ToBits(v, block.size);
    SetCounterRefines(l, block.Content(), b, i, item);
    ContentLength(block);
    block.AddCross(FieldStart(0, l.counterBits, i), l.counterBits, item);
  }

  // Deletes the first match of a bucket.
  method TableDeleteItem(block: PackedBlock, l: Layout, i: nat, f: nat, ghost b: Block)
    returns (ok: bool, ghost slot: nat)
    requires Holds(block, l, b) && i < l.buckets
    modifies block.storage
    ensures i < |b.counters| && Start(b.counters, |b.counters|) == |b.fps|
    ensures ok <==> f in Bucket(b, i)
    ensures !ok ==> block.storage[..] == old(block.storage[..])
    ensures ok ==> slot < b.counters[i] && Bucket(b, i)[slot] == f && f !in Bucket(b, i)[..slot]
                   && Holds(block, l, Delete(b, i, slot))
  {
    hide *;
    HoldsMeans(block, l, b);
    BucketIs(b, i);
    slot := 0;
    var fullSlots := ReadCounter(block, l, i, b);
    if fullSlots == 0 {
      return false, 0;
    }
    var bucketStart := ReduceUpToIndex(block, l, i, b);
    ghost var q := Bucket(b, i);
    var j := 0;
    while j < fullSlots
      invariant Holds(block, l, b) && j <= fullSlots && f !in q[..j]
      invariant block.storage[..] == old(block.storage[..])
    {
      SlotAt(b, i, j);
      var g := ReadFingerprint(block, l, bucketStart + j, b);
      assert q[..j + 1] == q[..j] + [q[j]];
      if f == g {
        RemoveSlot(block, l, i, j, bucketStart + j, fullSlots, b);
        return true, j;
      }
      j := j + 1;
    }
    assert q[..fullSlots] == q;
    return false, 0;
  }

  lemma SlotAt(b: Block, i: nat, j: nat)
    requires i < |b.counters| && Start(b.counters, |b.counters|) == |b.fps| && j < b.counters[i]
    ensures Start(b.counters, i) + j < |b.fps| && Bucket(b, i)[j] == b.fps[Start(b.counters, i) + j]
  {
    hide *;
    BucketIs(b, i);
    assert b.fps[Start(b.counters, i)..Start(b.counters, i) + b.counters[i]][j] == b.fps[Start(b.counters, i) + j];
  }

  // Shifts the fingerprint out and lowers the counter of its bucket.
  method RemoveSlot(block: PackedBlock, l: Layout, i: nat, slot: nat, position: nat, occupied: nat, ghost b: Block)
    requires Holds(block, l, b) && i < l.buckets && i < |b.counters| && slot < b.counters[i] == occupied
    requires Start(b.counters, |b.counters|) == |b.fps| && position == Start(b.counters, i) + slot < |b.fps|
    modifies block.storage
    ensures Holds(block, l, Delete(b, i, slot))
  {
    hide *;
    HoldsMeans(block, l, b);
    RightDisplaceRefines(l, block.Content(), b, position);
    CounterInside(l, block.Content(), i);
    CounterAt(l, block.Content(), b, i);
    NumBound(block.Content()[FieldStart(0, l.counterBits, i)..FieldStart(0, l.counterBits, i) + l.counterBits]);
    ContentLength(block);
    DeleteParts(b, i, slot);
    block.DelCrossRightDisplace(FieldStart(FingerprintOffset(l), l.fingerprintBits, position), l.fingerprintBits);
    SetFullnessCounter(block, l, i, occupied - 1, DeleteRightDisplace(b, position));
    MakeHolds(block, l, Delete(b, i, slot));
  }

  lemma DeleteParts(b: Block, i: nat, slot: nat)
    requires i < |b.counters| && Start(b.counters, |b.counters|) == |b.fps| && slot < b.counters[i]
    ensures Start(b.counters, i) + slot < |b.fps|
    ensures DeleteRightDisplace(b, Start(b.counters, i) + slot).counters == b.counters
    ensures Delete(b, i, slot)
            == SetCounter(DeleteRightDisplace(b, Start(b.counters, i) + slot), i, b.counters[i] - 1)
    ensures Start(Delete(b, i, slot).counters, |Delete(b, i, slot).counters|) == |Delete(b, i, slot).fps|
  {
    hide *;
    DeleteIs(b, i, slot);
    ShiftOutKeepsCounters(b, Start(b.counters, i) + slot);
  }

  lemma DeleteIs(b: Block, i: nat, slot: nat)
    requires i < |b.counters| && Start(b.counters, |b.counters|) == |b.fps| && slot < b.counters[i]
    ensures Start(b.counters, i) + slot < |b.fps|
    ensures Delete(b, i, slot)
            == SetCounter(DeleteRightDisplace(b, Start(b.counters, i) + slot), i, b.counters[i] - 1)
  {
    hide Start;
    BucketInside(b, i);
  }

  lemma ShiftOutKeepsCounters(b: Block, at: nat)
    requires at < |b.fps|
    ensures DeleteRightDisplace(b, at).counters == b.counters
  {
  }

  // ----- the fast reductions on the counters of a block -----

  // The counters, read as lanes of the low bits of the block.
  lemma {:induction false} CountersAre(l: Layout, bits: seq<bool>, b: Block, word: Atom, m: nat)
    requires Represents(l, bits, b) && m <= l.buckets && |word| <= |bits| && word == bits[..|word|]
    requires m * l.counterBits <= |word|
    ensures |b.counters| == l.buckets
    ensures Reductions.Counters(word, l.counterBits, m) == b.counters[..m]
  {
    hide *;
    RepresentsFits(l, bits, b);
    if m > 0 {
      var w := l.counterBits;
      MulAdd(m - 1, 1, w);
      MulNonNeg(m - 1, w);
      CountersAre(l, bits, b, word, m - 1);
      FieldStartIs(w, m - 1);
      CounterAt(l, bits, b, m - 1);
      NextCounter(word, w, m);
      assert b.counters[..m] == b.counters[..m - 1] + [b.counters[m - 1]];
      assert word[(m - 1) * w..(m - 1) * w + w] == bits[(m - 1) * w..(m - 1) * w + w];
    } else {
      NoCounters(word, l.counterBits);
      assert b.counters[..0] == [];
    }
  }

  lemma NextCounter(word: Atom, width: nat, m: nat)
    requires m > 0 && m * width <= |word| && 0 <= (m - 1) * width && (m - 1) * width + width == m * width
    ensures Reductions.Counters(word, width, m)
            == Reductions.Counters(word, width, m - 1) + [Num(word[(m - 1) * width..(m - 1) * width + width])]
  {
    hide Num;
  }

  lemma NoCounters(word: Atom, width: nat)
    ensures Reductions.Counters(word, width, 0) == []
  {
  }

  lemma FirstAtom(atoms: seq<Atom>, size: nat, n: nat)
    requires IsStorage(atoms, size) && 0 < n <= |atoms|
    ensures IsStorage(atoms[..n], size) && size <= |Bits(atoms[..n], size)|
    ensures atoms[0] == Bits(atoms[..n], size)[..size]
  {
    MulLe(1, n, size);
    forall i | 0 <= i < size
      ensures atoms[0][i] == Bits(atoms[..n], size)[i]
    {
      BitOfAtom(atoms[..n], size, 0, i);
    }
    hide Bits;
  }

  // Population counts give the same start of a bucket, when the counters are
  // in the first word.
  method ReduceWithPopcount(block: PackedBlock, l: Layout, index: nat, ghost b: Block) returns (sum: nat)
    requires Holds(block, l, b) && index <= l.buckets && index * l.counterBits <= block.size && block.atomsPerBlock > 0
    ensures |b.counters| == l.buckets && sum == Start(b.counters, index)
  {
    hide *;
    HoldsMeans(block, l, b);
    StorageIs(block);
    FirstAtom(block.storage[..], block.size, block.atomsPerBlock);
    CountersAre(l, block.Content(), b, block.storage[0], index);
    PrefixStart(b.counters, index);
    StartMono(b.counters, index, |b.counters|);
    SmallDivMod(Start(b.counters, index), 256);
    sum := Reductions.ExclusiveReduceWithPopcount64(block.storage[0], l.counterBits, index);
  }

  lemma StorageIs(block: PackedBlock)
    requires block.Valid()
    ensures IsStorage(block.storage[..], block.size) && block.storage.Length == block.atomsPerBlock + 1
    ensures block.Content() == Bits(block.storage[..block.atomsPerBlock], block.size)
    ensures block.storage[..][..block.atomsPerBlock] == block.storage[..block.atomsPerBlock]
  {
    hide Bits;
  }

  lemma PrefixStart(counters: seq<nat>, m: nat)
    requires m <= |counters|
    ensures Start(counters[..m], m) == Start(counters, m)
  {
    Reductions.StartPrefix(counters[..m], counters[m..], m);
    assert counters[..m] + counters[m..] == counters;
    hide Start;
  }

  // ----- the tree reduction -----

  lemma {:induction false} NumAppend(a: seq<bool>, b: seq<bool>)
    ensures 0 <= Pow2(|a|) * Num(b) && Num(a + b) == Num(a) + Pow2(|a|) * Num(b)
  {
    MulNonNeg(Pow2(|a|), Num(b));
    if b == [] {
      assert a + b == a;
    } else {
      var n := |b| - 1;
      NumAppend(a, b[..n]);
      assert (a + b)[..|a + b| - 1] == a + b[..n];
      Pow2Add(|a|, n);
      Distribute(Pow2(|a|), Num(b[..n]), if b[n] then Pow2(n) else 0);
    }
    hide Pow2;
  }

  // The counters are the lanes of the low bits.
  lemma {:induction false} CountersJoin(l: Layout, bits: seq<bool>, b: Block, k: nat)
    requires Represents(l, bits, b) && k <= l.buckets && 0 <= k * l.counterBits <= l.buckets * l.counterBits <= |bits|
    ensures |b.counters| == l.buckets
    ensures Num(bits[k * l.counterBits..l.buckets * l.counterBits]) == Join(b.counters[k..], l.counterBits)
    ensures LanesFit(b.counters[k..], l.counterBits)
    decreases l.buckets - k
  {
    hide Num, Represents, Join, FieldStart, Pow2;
    RepresentsFits(l, bits, b);
    var w := l.counterBits;
    if k == l.buckets {
      JoinNone(w);
      NoBits();
      assert bits[k * w..k * w] == [] && b.counters[k..] == [];
    } else {
      MulAdd(k, 1, w);
      MulLe(k + 1, l.buckets, w);
      CountersJoin(l, bits, b, k + 1);
      FieldStartIs(w, k);
      CounterAt(l, bits, b, k);
      var field := bits[k * w..(k + 1) * w];
      NumBound(field);
      assert bits[k * w..l.buckets * w] == field + bits[(k + 1) * w..l.buckets * w];
      NumAppend(field, bits[(k + 1) * w..l.buckets * w]);
      JoinStep(b.counters[k..], w);
      assert b.counters[k..][1..] == b.counters[k + 1..] && b.counters[k..][0] == b.counters[k];
    }
  }

  lemma NoBits()
    ensures Num([]) == 0
  {
  }

  lemma FieldStartIs(width: nat, k: nat)
    ensures 0 <= k * width && FieldStart(0, width, k) == k * width
  {
    MulNonNeg(k, width);
  }

  // The tree reduction gives the same start of a bucket, when the counters
  // are in the first word and their sum has room in the widened lanes.
  method ReduceWithParallelSum(block: PackedBlock, l: Layout, index: nat, masks: seq<nat>, maskedCount: nat,
                               numPasses: nat, ghost b: Block) returns (sum: nat)
    requires Holds(block, l, b) && index <= l.buckets && l.buckets * l.counterBits <= block.size
    requires block.atomsPerBlock > 0 && maskedCount <= numPasses <= |masks|
    requires Reductions.MasksAre(masks, block.size, l.counterBits) && l.buckets <= Pow2(numPasses)
    requires index <= |b.counters| && Start(b.counters, index) < Pow2(l.counterBits * (maskedCount + 1))
    ensures sum == Start(b.counters, index)
  {
    hide *;
    HoldsMeans(block, l, b);
    StorageIs(block);
    FirstAtom(block.storage[..], block.size, block.atomsPerBlock);
    WordOfCounters(l, block.Content(), b, block.storage[0], block.size);
    sum := Reductions.ExclusiveReduceWithParallelSum(Num(block.storage[0]), block.size, l.counterBits, index, masks,
                                                     maskedCount, numPasses, b.counters);
  }

  lemma WordOfCounters(l: Layout, bits: seq<bool>, b: Block, word: Atom, size: nat)
    requires Represents(l, bits, b) && l.buckets * l.counterBits <= size <= |bits| && word == bits[..size]
    ensures |b.counters| == l.buckets && LanesFit(b.counters, l.counterBits) && Num(word) < Pow2(size)
    ensures 0 <= l.buckets * l.counterBits
    ensures Num(word) % Pow2(l.buckets * l.counterBits) == Join(b.counters, l.counterBits)
  {
    hide *;
    var m := l.buckets * l.counterBits;
    MulNonNeg(l.buckets, l.counterBits);
    CountersJoin(l, bits, b, 0);
    assert b.counters[0..] == b.counters;
    NumBound(word);
    assert word == bits[0..m] + word[m..];
    NumAppend(bits[0..m], word[m..]);
    NumBound(bits[0..m]);
    DivModUnique(Num(word), Pow2(m), Num(word[m..]), Num(bits[0..m]));
  }
}
