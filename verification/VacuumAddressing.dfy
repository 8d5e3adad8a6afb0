/** Addressing by exclusive or inside a chunk, as in the vacuum filter: how large
    the table and the chunks are, and when the alternate address stays in the table. */
module VacuumAddressing {
  import opened Arith
  import opened MagicAddressing
  import opened LongDivision

  // ----- the alternate address -----

  function ChunkAlternate(address: nat, hash: nat, mask: nat): nat {
    Xor(address, And(hash, mask))
  }

  // The table is a whole number of chunks that the mask stays inside.
  ghost predicate InChunks(size: nat, mask: nat) {
    exists a: nat :: Chunked(size, mask, a)
  }

  ghost predicate Chunked(size: nat, mask: nat, a: nat) {
    mask < Pow2(a) && size % Pow2(a) == 0
  }

  // The two addresses differ by the masked hash.
  lemma AlternateIsXor(address: nat, hash: nat, mask: nat)
    ensures Xor(address, ChunkAlternate(address, hash, mask)) == And(hash, mask)
  {
    hide Xor, And;
    var s := And(hash, mask);
    XorTwice(s, address);
    XorCommutes(address, s);
    XorCommutes(address, Xor(address, s));
  }

  lemma {:induction false} AndBound(a: nat, b: nat)
    ensures And(a, b) <= b
    decreases a
  {
    if a != 0 {
      AndBound(a / 2, b / 2);
      assert (a % 2) * (b % 2) <= b % 2;
    }
  }

  // The alternate address is in the same chunk and leads back.
  lemma ChunkInvolution(address: nat, hash: nat, mask: nat, size: nat, a: nat)
    requires address < size && Chunked(size, mask, a)
    ensures ChunkAlternate(address, hash, mask) / Pow2(a) == address / Pow2(a)
    ensures ChunkAlternate(address, hash, mask) < size
    ensures ChunkAlternate(ChunkAlternate(address, hash, mask), hash, mask) == address
  {
    hide Pow2, Xor, And;
    AndBound(hash, mask);
    var s := And(hash, mask);
    XorHigh(address, s, a);
    XorTwice(address, s);
    SameChunk(address, Xor(address, s), size, Pow2(a));
  }

  lemma SameChunk(x: nat, y: nat, size: nat, p: nat)
    requires p > 0 && x < size && size % p == 0 && y / p == x / p
    ensures y < size
  {
    DivMod(size, p);
    DivUpper(x, p, size / p);
    DivMod(y, p);
    MulLe(y / p + 1, size / p, p);
    MulAdd(y / p, 1, p);
  }

  // ----- exactly when it stays in the table -----

  lemma {:induction false} AndTop(mask: nat)
    requires mask > 0
    ensures And(Pow2(FloorLog2(mask)), mask) == Pow2(FloorLog2(mask))
    decreases mask
  {
    if mask > 1 {
      AndTop(mask / 2);
    } else {
      assert And(1, 1) == 2 * And(0, 0) + 1;
    }
  }

  // Setting a bit that is clear.
  lemma {:induction false} XorSets(x: nat, t: nat)
    requires x % Pow2(t + 1) < Pow2(t)
    ensures Xor(x, Pow2(t)) == x + Pow2(t)
    decreases t
  {
    var p := Pow2(t);
    DivDiv(x, 2, p);
    if t == 0 {
      XorZero(x / 2);
    } else {
      XorSets(x / 2, t - 1);
      assert p / 2 == Pow2(t - 1) && p % 2 == 0;
    }
  }

  // An address from which the highest bit of the mask leads out.
  function Leaving(size: nat, p: nat): int
    requires p > 0
  {
    var r := size % (2 * p);
    if r <= p then size - r else size - p
  }

  lemma LeavingLeaves(size: nat, p: nat)
    requires p > 0 && size % (2 * p) != 0
    ensures 0 <= Leaving(size, p) < size <= Leaving(size, p) + p
    ensures Leaving(size, p) % (2 * p) < p
  {
    var q, r := size / (2 * p), size % (2 * p);
    DivMod(size, 2 * p);
    DivNonNeg(size, 2 * p);
    MulNonNeg(q, 2 * p);
    if r <= p {
      DivModUnique(size - r, 2 * p, q, 0);
    } else {
      DivModUnique(size - p, 2 * p, q, r - p);
    }
  }

  // Every alternate address of every hash is in the table if and only if the
  // table consists of whole chunks.
  lemma StaysInRangeExactly(size: nat, mask: nat)
    ensures InChunks(size, mask)
            <==> forall address: nat, hash: nat | address < size :: ChunkAlternate(address, hash, mask) < size
  {
    hide Pow2, ChunkAlternate, FloorLog2;
    NoMask(size);
    if InChunks(size, mask) {
      var a: nat :| Chunked(size, mask, a);
      forall address: nat, hash: nat | address < size
        ensures ChunkAlternate(address, hash, mask) < size
      {
        ChunkInvolution(address, hash, mask, size, a);
      }
    } else {
      var t := FloorLog2(mask);
      LeavesAt(size, mask, t);
    }
  }

  lemma NoMask(size: nat)
    ensures InChunks(size, 0)
  {
    Pow2Zero();
    assert Chunked(size, 0, 0);
  }

  lemma LeavesAt(size: nat, mask: nat, t: nat)
    requires mask > 0 && t == FloorLog2(mask) && !InChunks(size, mask)
    ensures 0 <= Leaving(size, Pow2(t)) < size <= ChunkAlternate(Leaving(size, Pow2(t)), Pow2(t), mask)
  {
    assert mask < Pow2(t + 1) == 2 * Pow2(t);
    assert !Chunked(size, mask, t + 1);
    hide Pow2, FloorLog2, Leaving;
    LeavingLeaves(size, Pow2(t));
    AndTop(mask);
    XorSets(Leaving(size, Pow2(t)), t);
  }

  // ----- which sizes suit a mask -----

  lemma DividesDown(size: nat, a: nat, b: nat)
    requires a <= b && size % Pow2(b) == 0
    ensures size % Pow2(a) == 0
  {
    hide Pow2;
    Pow2Split(b, a);
    ModOfMod(size, Pow2(a), Pow2(b - a));
    SmallDivMod(0, Pow2(a));
  }

  // A multiple of the power above the highest bit of the mask.
  lemma MaskMeans(size: nat, mask: nat)
    requires mask > 0
    ensures InChunks(size, mask) <==> size % Pow2(FloorLog2(mask) + 1) == 0
  {
    var t := FloorLog2(mask);
    assert mask < Pow2(t + 1) == 2 * Pow2(t);
    hide Pow2, FloorLog2;
    if size % Pow2(t + 1) == 0 {
      assert Chunked(size, mask, t + 1);
    }
    if InChunks(size, mask) {
      var a: nat :| Chunked(size, mask, a);
      if a <= t {
        Pow2Mono(a, t);
        assert false;
      }
      DividesDown(size, t + 1, a);
    }
  }

  // For a mask of k ones, and for a single bit.
  lemma OnesMaskMeans(size: nat, k: nat)
    ensures InChunks(size, Pow2(k) - 1) <==> size % Pow2(k) == 0
  {
    if k == 0 {
      NoMask(size);
    } else {
      var p := Pow2(k - 1);
      assert Pow2(k) == 2 * p;
      FloorLog2Unique(Pow2(k) - 1, k - 1);
      MaskMeans(size, Pow2(k) - 1);
    }
    hide Pow2, InChunks;
  }

  lemma BitMaskMeans(size: nat, k: nat)
    ensures InChunks(size, Pow2(k)) <==> size % Pow2(k + 1) == 0
  {
    hide Pow2, InChunks;
    FloorLog2Unique(Pow2(k), k);
    MaskMeans(size, Pow2(k));
  }

  // ----- sizes -----

  // In words of w bits: the shift drops the power that does not fit.
  function NextPowerOfTwo(v: nat, w: nat): nat {
    if v <= 1 then v else Pow2(FloorLog2(v - 1) + 1) % Pow2(w)
  }

  lemma NextPowerCovers(v: nat, w: nat)
    requires 0 < v <= Pow2(w)
    ensures v == 1 || NextPowerOfTwo(v, w) == Pow2(FloorLog2(v - 1) + 1) % Pow2(w)
    ensures 2 * v <= Pow2(w) ==> IsPower(NextPowerOfTwo(v, w)) && v <= NextPowerOfTwo(v, w) < 2 * v
    ensures 2 * v > Pow2(w) && v > 1 ==> NextPowerOfTwo(v, w) == 0
  {
    if v > 1 {
      var l := FloorLog2(v - 1);
      assert Pow2(l + 1) == 2 * Pow2(l);
      hide Pow2, FloorLog2;
      FloorLog2Bound(v - 1, w);
      if 2 * v <= Pow2(w) {
        assert 2 * Pow2(l) <= 2 * (v - 1) < Pow2(w);
        SmallDivMod(Pow2(l + 1), Pow2(w));
      } else {
        WordFull(l, w, v);
      }
    } else {
      Pow2Zero();
    }
  }

  lemma WordFull(l: nat, w: nat, v: nat)
    requires 1 < v <= Pow2(w) < 2 * v && Pow2(l) <= v - 1 < 2 * Pow2(l)
    ensures Pow2(l + 1) % Pow2(w) == 0
  {
    assert Pow2(l + 1) == 2 * Pow2(l);
    hide Pow2;
    if l + 1 < w {
      Pow2StrictMono(l + 1, w);
      assert false;
    } else if l >= w {
      Pow2Mono(w, l);
      assert false;
    }
    DivModUnique(Pow2(w), Pow2(w), 1, 0);
  }

  const CHUNKS: nat := 16
  const SMALLEST_CHUNK: nat := 256

  function ChunkSize(request: nat, w: nat): nat {
    NextPowerOfTwo(request, w) / CHUNKS
  }

  // At most sixteen chunks of at least 256 entries, or one chunk.
  function SizeFor(request: nat, w: nat): nat {
    var chunk := ChunkSize(request, w);
    if chunk >= SMALLEST_CHUNK then
      DivNonNeg(request + chunk - 1, chunk);
      MulNonNeg((request + chunk - 1) / chunk, chunk);
      (request + chunk - 1) / chunk * chunk
    else NextPowerOfTwo(request, w)
  }

  // The mask wraps to all ones when the size does not fit the word.
  function MaskFor(request: nat, w: nat): nat {
    var chunk := ChunkSize(request, w);
    if chunk >= SMALLEST_CHUNK then chunk - 1 else (SizeFor(request, w) - 1) % Pow2(w)
  }

  // A large power of two splits into whole chunks.
  lemma {:induction false} ChunkIsPower(k: nat)
    requires Pow2(k) / CHUNKS >= SMALLEST_CHUNK
    ensures 4 <= k && Pow2(k) / CHUNKS == Pow2(k - 4) && Pow2(k) == CHUNKS * Pow2(k - 4)
  {
    assert Pow2(4) == 16;
    hide Pow2;
    if k < 4 {
      Pow2Mono(k, 4);
    } else {
      Pow2Split(k, 4);
    }
  }

  lemma RoundedUp(request: nat, chunk: nat)
    requires chunk > 0 && 0 < request <= CHUNKS * chunk
    ensures 0 <= (request + chunk - 1) / chunk <= CHUNKS
    ensures request <= (request + chunk - 1) / chunk * chunk <= CHUNKS * chunk
    ensures ((request + chunk - 1) / chunk * chunk) % chunk == 0
  {
    var q := (request + chunk - 1) / chunk;
    DivMod(request + chunk - 1, chunk);
    DivNonNeg(request + chunk - 1, chunk);
    DivUpper(request + chunk - 1, chunk, CHUNKS + 1);
    MulLe(q, CHUNKS, chunk);
    DivModUnique(q * chunk, chunk, q, 0);
  }

  // What the layout of one table promises.
  ghost predicate Fits(request: nat, size: nat, mask: nat, w: nat) {
    request <= size < Pow2(w) && InChunks(size, mask)
  }

  lemma SizeIs(request: nat, w: nat)
    ensures ChunkSize(request, w) == NextPowerOfTwo(request, w) / CHUNKS
    ensures ChunkSize(request, w) >= SMALLEST_CHUNK ==>
              var chunk := ChunkSize(request, w);
              && SizeFor(request, w) == (request + chunk - 1) / chunk * chunk
              && MaskFor(request, w) == chunk - 1
    ensures ChunkSize(request, w) < SMALLEST_CHUNK ==>
              && SizeFor(request, w) == NextPowerOfTwo(request, w)
              && MaskFor(request, w) == (SizeFor(request, w) - 1) % Pow2(w)
    ensures NextPowerOfTwo(request, w) == 0 ==> SizeFor(request, w) == 0
  {
    hide NextPowerOfTwo, Pow2;
  }

  // Requests of up to half the word are met by whole chunks.
  lemma SizeFits(request: nat, w: nat)
    requires 2 * request <= Pow2(w)
    ensures Fits(request, SizeFor(request, w), MaskFor(request, w), w)
    ensures SizeFor(request, w) <= 2 * request
  {
    hide *;
    SizeIs(request, w);
    if request == 0 {
      NothingFits(w);
    } else {
      NextPowerCovers(request, w);
      var p := NextPowerOfTwo(request, w);
      var k := PowerOf(p);
      if ChunkSize(request, w) >= SMALLEST_CHUNK {
        ChunkIsPower(k);
        RoundedUp(request, Pow2(k - 4));
        FitsBy(request, SizeFor(request, w), MaskFor(request, w), w, k - 4);
      } else {
        SmallDivMod(p - 1, Pow2(w));
        DivModUnique(p, Pow2(k), 1, 0);
        FitsBy(request, SizeFor(request, w), MaskFor(request, w), w, k);
      }
    }
  }

  // No entries, no table: the mask wraps to all ones.
  lemma NothingFits(w: nat)
    ensures SizeFor(0, w) == 0 && MaskFor(0, w) == Pow2(w) - 1
    ensures Fits(0, SizeFor(0, w), MaskFor(0, w), w)
  {
    SizeIs(0, w);
    assert NextPowerOfTwo(0, w) == 0;
    hide *;
    DivModUnique(-1, Pow2(w), -1, Pow2(w) - 1);
    SmallDivMod(0, Pow2(w));
    FitsBy(0, 0, Pow2(w) - 1, w, w);
  }

  // Nine to sixteen chunks of at least 256 entries, the fewest that cover the
  // request, or one chunk that is the next power of two.
  ghost predicate Chunking(request: nat, size: nat, mask: nat, k: nat) {
    && mask == Pow2(k) - 1 && request <= size && size % Pow2(k) == 0
    && (|| (SMALLEST_CHUNK <= Pow2(k) && 8 * Pow2(k) < request <= CHUNKS * Pow2(k) && size < request + Pow2(k))
        || (size == Pow2(k) < CHUNKS * SMALLEST_CHUNK && size < 2 * request))
  }

  lemma SizeChunks(request: nat, w: nat) returns (k: nat)
    requires 0 < request && 2 * request <= Pow2(w)
    ensures Chunking(request, SizeFor(request, w), MaskFor(request, w), k)
  {
    hide *;
    SizeIs(request, w);
    NextPowerCovers(request, w);
    var p := NextPowerOfTwo(request, w);
    k := PowerOf(p);
    if ChunkSize(request, w) >= SMALLEST_CHUNK {
      ChunkIsPower(k);
      k := k - 4;
      RoundedUp(request, Pow2(k));
      RoundedLess(request, Pow2(k));
      ManyChunks(request, SizeFor(request, w), MaskFor(request, w), k);
    } else {
      SmallDivMod(p - 1, Pow2(w));
      DivModUnique(p, Pow2(k), 1, 0);
      OneChunk(request, p, MaskFor(request, w), k);
    }
  }

  lemma RoundedLess(request: nat, chunk: nat)
    requires chunk > 0
    ensures (request + chunk - 1) / chunk * chunk < request + chunk
  {
    DivMod(request + chunk - 1, chunk);
  }

  lemma ManyChunks(request: nat, size: nat, mask: nat, k: nat)
    requires mask == Pow2(k) - 1 && size % Pow2(k) == 0 && request <= size < request + Pow2(k)
    requires SMALLEST_CHUNK <= Pow2(k) && request <= CHUNKS * Pow2(k) < 2 * request
    ensures Chunking(request, size, mask, k)
  {
    hide Pow2;
  }

  lemma OneChunk(request: nat, size: nat, mask: nat, k: nat)
    requires mask == size - 1 && size == Pow2(k) && size % Pow2(k) == 0 && request <= size < 2 * request
    requires size / CHUNKS < SMALLEST_CHUNK
    ensures Chunking(request, size, mask, k)
  {
    hide Pow2;
  }

  lemma PowerOf(p: nat) returns (k: nat)
    requires IsPower(p)
    ensures p == Pow2(k)
  {
    k :| p == Pow2(k);
  }

  lemma FitsBy(request: nat, size: nat, mask: nat, w: nat, a: nat)
    requires request <= size < Pow2(w) && mask < Pow2(a) && size % Pow2(a) == 0
    ensures Fits(request, size, mask, w)
  {
    hide Pow2;
    assert Chunked(size, mask, a);
  }

  // The layout is right exactly for the requests up to half the word; above, the
  // power of two is lost and the table is empty.
  lemma SizeFitsExactly(request: nat, w: nat)
    requires request < Pow2(w)
    ensures Fits(request, SizeFor(request, w), MaskFor(request, w), w) <==> 2 * request <= Pow2(w)
    ensures 2 * request > Pow2(w) && request > 1 ==> SizeFor(request, w) == 0
  {
    if 2 * request > Pow2(w) {
      HalfOfOne(request, w);
    }
    hide *;
    if 2 * request <= Pow2(w) {
      SizeFits(request, w);
    } else {
      NextPowerCovers(request, w);
      SizeIs(request, w);
      FitsCovers(request, SizeFor(request, w), MaskFor(request, w), w);
    }
  }

  lemma HalfOfOne(request: nat, w: nat)
    requires request < Pow2(w) < 2 * request
    ensures request > 1
  {
    if w > 0 {
      assert Pow2(w) == 2 * Pow2(w - 1);
    }
  }

  // Two to the thirty-first and one gets no table at all.
  lemma LostRequest()
    ensures SizeFor(0x8000_0001, BITS) == 0
    ensures !Fits(0x8000_0001, SizeFor(0x8000_0001, BITS), MaskFor(0x8000_0001, BITS), BITS)
  {
    PowerOf32();
    hide Pow2, Fits, SizeFor, MaskFor;
    SizeFitsExactly(0x8000_0001, BITS);
  }

  lemma FitsCovers(request: nat, size: nat, mask: nat, w: nat)
    ensures Fits(request, size, mask, w) ==> request <= size
  {
  }

  // ----- the addresser object -----

  const BITS: nat := 32

  // What the object keeps for one table, for every request that is a word: whole
  // chunks that cover the request, or nothing when the power of two was lost.
  ghost predicate Laid(request: nat, size: nat, mask: nat) {
    if 2 * request <= Pow2(BITS) then
      && Fits(request, size, mask, BITS) && size <= 2 * request
      && (request > 0 ==> exists k: nat :: Chunking(request, size, mask, k))
    else size == 0
  }

  lemma RequestIsLaid(request: nat)
    requires request < Pow2(BITS)
    ensures Laid(request, SizeFor(request, BITS), MaskFor(request, BITS))
  {
    PowerOf32();
    hide Pow2, Fits, SizeFor, MaskFor, Chunking;
    SizeFitsExactly(request, BITS);
    if 2 * request <= Pow2(BITS) {
      SizeFits(request, BITS);
      if request > 0 {
        var k := SizeChunks(request, BITS);
      }
    }
  }

  class VacuumAddresser {
    const sizes: array<nat>
    const masks: array<nat>

    ghost predicate Valid(histogram: seq<nat>)
      reads sizes, masks
    {
      && sizes != masks && sizes.Length == masks.Length == |histogram|
      && forall i | 0 <= i < |histogram| :: Laid(histogram[i], sizes[i], masks[i])
    }

    constructor (histogram: seq<nat>)
      requires forall i | 0 <= i < |histogram| :: histogram[i] < Pow2(BITS)
      ensures Valid(histogram) && fresh(sizes) && fresh(masks)
    {
      var length := |histogram|;
      sizes := new nat[length];
      masks := new nat[length];
      new;
      hide *;
      for i := 0 to length
        invariant fresh(sizes) && fresh(masks) && sizes != masks && sizes.Length == masks.Length == |histogram|
        invariant LaidUpTo(histogram, i)
      {
        LayOne(histogram, i);
      }
      Establish(histogram);
    }

    // The first n tables.
    ghost predicate LaidUpTo(histogram: seq<nat>, n: nat)
      requires n <= |histogram| == sizes.Length == masks.Length
      reads sizes, masks
    {
      forall j | 0 <= j < n :: Laid(histogram[j], sizes[j], masks[j])
    }

    lemma Establish(histogram: seq<nat>)
      requires sizes != masks && sizes.Length == masks.Length == |histogram|
      requires LaidUpTo(histogram, |histogram|)
      ensures Valid(histogram)
    {
      hide Laid;
    }

    method LayOne(histogram: seq<nat>, i: nat)
      requires sizes != masks && i < |histogram| == sizes.Length == masks.Length
      requires histogram[i] < Pow2(BITS) && LaidUpTo(histogram, i)
      modifies sizes, masks
      ensures sizes[i] == SizeFor(histogram[i], BITS) && masks[i] == MaskFor(histogram[i], BITS)
      ensures LaidUpTo(histogram, i + 1)
    {
      hide Laid, SizeFor, MaskFor, Pow2;
      RequestIsLaid(histogram[i]);
      sizes[i], masks[i] := SizeFor(histogram[i], BITS), MaskFor(histogram[i], BITS);
    }

    function ComputeAddress(index: nat, n: nat): nat
      requires index < sizes.Length
      reads sizes
    {
      MultiplyHigh(n, sizes[index])
    }

    function ComputeAlternative(index: nat, address: nat, signature: nat): nat
      requires index < masks.Length
      reads masks
    {
      ChunkAlternate(address, SignatureHash(signature), masks[index])
    }

    // Addresses are in the table, and alternate addresses lead back.
    lemma AlternativeInvolution(histogram: seq<nat>, index: nat, n: nat, address: nat, signature: nat)
      requires Valid(histogram) && index < |histogram| && 2 * histogram[index] <= Pow2(BITS) && n < Word(HALF)
      ensures histogram[index] <= sizes[index] <= 2 * histogram[index]
      ensures histogram[index] > 0 ==> ComputeAddress(index, n) < sizes[index]
      ensures address < sizes[index] ==>
                && ComputeAlternative(index, address, signature) < sizes[index]
                && ComputeAlternative(index, ComputeAlternative(index, address, signature), signature) == address
    {
      hide Word, Pow2, ChunkAlternate, MultiplyHigh, SignatureHash, Chunked;
      if sizes[index] > 0 {
        MultiplyHighInRange(n, sizes[index]);
      }
      var a: nat :| Chunked(sizes[index], masks[index], a);
      if address < sizes[index] {
        ChunkInvolution(address, SignatureHash(signature), masks[index], sizes[index], a);
      }
    }

    // The address is the hash times the size, divided by two to the thirty-second
    // and rounded down; the two addresses differ by the remainder of the hashed
    // signature by the size of a chunk.
    lemma AlternativeIsXor(histogram: seq<nat>, index: nat, n: nat, address: nat, signature: nat)
      requires Valid(histogram) && index < |histogram| && 0 < 2 * histogram[index] <= Pow2(BITS)
      ensures ComputeAddress(index, n) * 0x1_0000_0000 <= n * sizes[index] < (ComputeAddress(index, n) + 1) * 0x1_0000_0000
      ensures Xor(address, ComputeAlternative(index, address, signature))
              == ((signature * 0x5bd1e995) % 0x1_0000_0000) % (masks[index] + 1)
    {
      hide Pow2, ChunkAlternate, MultiplyHigh, SignatureHash, Xor, And, Fits;
      MultiplyHighIsFloor(n, sizes[index]);
      SignatureHashIs(signature);
      var k: nat :| Chunking(histogram[index], sizes[index], masks[index], k);
      AlternateIsXor(address, SignatureHash(signature), masks[index]);
      AndMask(SignatureHash(signature), k);
    }
  }
}
