/** Table sizing and addressing through cheap 32-bit dividers
    (src/address/addresser_magic.hpp), and the reflected alternate address that
    it shares with multiply-high addressing (src/address/addresser_lemire.hpp). */
module MagicAddressing {
  import opened Arith
  import opened LongDivision
  import opened DoubleWord
  import opened UnsignedDivider

  // Half the word width of the 32-bit dividers.
  const HALF: nat := 16

  // A divider without shift path and without add step.
  predicate IsCheap(dv: Divider) {
    dv.magic != 0 && !HasAddMarker(dv.more)
  }

  predicate CheapDivisor(h: nat, d: nat)
    requires 0 < d < Word(h)
  {
    IsCheap(Gen(h, d, false))
  }

  // The largest word has a cheap divider, which is why the search below ends.
  lemma LargestWordIsCheap(h: nat)
    requires WordSize(h)
    ensures Word(h) >= 4 && CheapDivisor(h, Word(h) - 1)
  {
    assert h > 0;
    hide WordSize;
    WordAtLeastFour(h);
    var p, d, l := Word(h), Word(h) - 1, 2 * h - 1;
    assert p == 2 * Pow2(l);
    FloorLog2Unique(d, l);
    LargestRemainder(Pow2(l), p);
    assert FirstRemainder(h, l, d) == Pow2(l);
    assert !IsPowerOfTwo(d);
    hide *;
    GenPlain(h, d);
    MagicNonZero(h, d, Gen(h, d, false).magic);
    CheapByShape(h, d, l);
  }

  lemma CheapByShape(h: nat, d: nat, l: nat)
    requires h > 0 && h <= 32 && l < 2 * h && 0 < d < Word(h)
    requires Gen(h, d, false).magic != 0 && Gen(h, d, false).more == l
    ensures CheapDivisor(h, d)
  {
  }

  lemma LargestRemainder(k: nat, p: nat)
    requires p == 2 * k && p >= 4
    ensures Pair(k, 0, p) % (p - 1) == k
  {
    MulSub(p, 1, k);
    DivModUnique(k * p, p - 1, k, k);
  }

  // Searches upwards from max(d, 2) for a divisor with a cheap divider. The
  // search neither wraps around nor skips a candidate.
  method U32CheapGen(request: nat) returns (dv: Divider, ghost found: nat)
    requires request < Word(HALF)
    ensures 2 <= found < Word(HALF) && request <= found
    ensures dv == Gen(HALF, found, false) && IsCheap(dv)
    ensures forall x | request <= x < found && 2 <= x :: !CheapDivisor(HALF, x)
  {
    hide *;
    var d := request;
    if d < 2 {
      d := 2;
    }
    WordSizeHalf();
    LargestWordIsCheap(HALF);
    while true
      invariant 2 <= d < Word(HALF) && request <= d
      invariant forall x | request <= x < d && 2 <= x :: !CheapDivisor(HALF, x)
      decreases Word(HALF) - d
    {
      var div := InternalGen(HALF, d, false);
      CheapIs(d);
      if IsCheap(div) {
        return div, d;
      }
      d := d + 1;
    }
  }

  lemma CheapIs(d: nat)
    requires 0 < d < Word(HALF)
    ensures CheapDivisor(HALF, d) <==> IsCheap(Gen(HALF, d, false))
  {
    hide Gen, Word, IsCheap;
  }

  // A cheap divider answers queries with one product and one shift.
  lemma CheapDivides(d: nat, n: nat)
    requires 0 < d < Word(HALF) && n < Word(HALF) && CheapDivisor(HALF, d)
    ensures Shr(MulHi(HALF, Gen(HALF, d, false).magic, n), Gen(HALF, d, false).more) == n / d
  {
    var dv := Gen(HALF, d, false);
    assert IsCheap(dv);
    hide *;
    CheapShape(d);
    WordSizeHalf();
    DividesExactly(HALF, d, n);
    DoPaths(HALF, n, dv);
  }

  lemma CheapShape(d: nat)
    requires 0 < d < Word(HALF) && CheapDivisor(HALF, d)
    ensures Gen(HALF, d, false).magic != 0 && !HasAddMarker(Gen(HALF, d, false).more)
    ensures HALF > 0
  {
  }

  lemma WordSizeHalf()
    ensures WordSize(HALF)
  {
  }

  // ----- addresses -----

  // h - (mulh32(h, magic) >> shift) * divisor in word arithmetic.
  function Reduce(n: nat, magic: nat, shift: nat, divisor: nat): (r: nat)
    ensures r < Word(HALF)
  {
    var p := Word(HALF);
    (n - MulW(Shr(MulHi(HALF, magic, n), shift), divisor, p)) % p
  }

  // The address of a hash is its remainder modulo the table size.
  lemma ReduceIsRemainder(d: nat, n: nat)
    requires 0 < d < Word(HALF) && n < Word(HALF) && CheapDivisor(HALF, d)
    ensures var dv := Gen(HALF, d, false);
            Reduce(n, dv.magic, dv.more, d) == n % d
  {
    CheapDivides(d, n);
    DivMod(n, d);
    DivNonNeg(n, d);
    MulNonNeg(n / d, d);
    SmallDivMod((n / d) * d, Word(HALF));
    SmallDivMod(n % d, Word(HALF));
    hide Gen, MulHi, Shr, Word;
  }

  // High word of hash times size.
  function MultiplyHigh(n: nat, size: nat): nat {
    MulHi(HALF, n, size)
  }

  lemma MultiplyHighInRange(n: nat, size: nat)
    requires n < Word(HALF) && 0 < size
    ensures MultiplyHigh(n, size) < size
  {
    MulLt(n, Word(HALF), size);
    DivUpper(n * size, Word(HALF), size);
  }

  lemma WordIs()
    ensures Word(HALF) == 0x1_0000_0000
  {
    PowerOf32();
    hide Pow2;
  }

  // It is the product divided by two to the thirty-second, rounded down.
  lemma MultiplyHighIsFloor(n: nat, size: nat)
    ensures MultiplyHigh(n, size) * 0x1_0000_0000 <= n * size < (MultiplyHigh(n, size) + 1) * 0x1_0000_0000
  {
    WordIs();
    MulNonNeg(n, size);
    DivMod(n * size, Word(HALF));
    hide Word;
  }

  // sig - address, plus the size when that is negative, in word arithmetic.
  function Reflect(sig: nat, address: nat, size: nat, p: nat): (r: nat)
    requires p > 0
    ensures r < p
  {
    AddW((sig - address) % p, if sig < address then size else 0, p)
  }

  // Reflection stays in the table and is its own inverse.
  lemma ReflectInvolution(sig: nat, address: nat, size: nat, p: nat)
    requires sig < size && address < size && size < p
    ensures Reflect(sig, address, size, p) < size
    ensures Reflect(sig, Reflect(sig, address, size, p), size, p) == address
  {
    ReflectExact(sig, address, size, p);
    ReflectExact(sig, Reflect(sig, address, size, p), size, p);
  }

  // An address and its reflection add up to the signature, modulo the size.
  lemma ReflectSum(sig: nat, address: nat, size: nat, p: nat)
    requires sig < size && address < size && size < p
    ensures (address + Reflect(sig, address, size, p)) % size == sig
  {
    ReflectExact(sig, address, size, p);
    if sig < address {
      DivModUnique(sig + size, size, 1, sig);
    } else {
      SmallDivMod(sig, size);
    }
    hide Reflect;
  }

  lemma ReflectExact(sig: nat, address: nat, size: nat, p: nat)
    requires sig < size && address < size && size < p
    ensures Reflect(sig, address, size, p) == if sig < address then sig - address + size else sig - address
  {
    if sig < address {
      DivModUnique(sig - address, p, -1, sig - address + p);
      DivModUnique(sig - address + p + size, p, 1, sig - address + size);
    } else {
      SmallDivMod(sig - address, p);
    }
  }

  // The signature product is cut to the 32 address bits.
  function SignatureHash(signature: nat): (r: nat)
    ensures r < Word(HALF)
  {
    (signature * 0x5bd1e995) % Word(HALF)
  }

  function LemireAlternate(address: nat, signature: nat, size: nat): nat {
    Reflect(MultiplyHigh(SignatureHash(signature), size), address, size, Word(HALF))
  }

  lemma LemireAlternateInvolution(address: nat, signature: nat, size: nat)
    requires address < size < Word(HALF)
    ensures LemireAlternate(address, signature, size) < size
    ensures LemireAlternate(LemireAlternate(address, signature, size), signature, size) == address
  {
    hide *;
    var sig := MultiplyHigh(SignatureHash(signature), size);
    MultiplyHighInRange(SignatureHash(signature), size);
    ReflectInvolution(sig, address, size, Word(HALF));
    LemireAlternateIs(address, signature, size);
    LemireAlternateIs(Reflect(sig, address, size, Word(HALF)), signature, size);
  }

  // An address and its alternate add up, modulo the size, to the hashed signature
  // times the size, divided by two to the thirty-second and rounded down.
  lemma LemireAlternateSum(address: nat, signature: nat, size: nat)
    requires address < size < Word(HALF)
    ensures var sum := (address + LemireAlternate(address, signature, size)) % size;
            var h := (signature * 0x5bd1e995) % 0x1_0000_0000;
            sum * 0x1_0000_0000 <= h * size < (sum + 1) * 0x1_0000_0000
  {
    WordIs();
    SignatureHashIs(signature);
    hide *;
    var h := SignatureHash(signature);
    var sig := MultiplyHigh(h, size);
    MultiplyHighInRange(h, size);
    MultiplyHighIsFloor(h, size);
    ReflectSum(sig, address, size, Word(HALF));
    LemireAlternateIs(address, signature, size);
  }

  lemma SignatureHashIs(signature: nat)
    ensures SignatureHash(signature) == (signature * 0x5bd1e995) % 0x1_0000_0000
  {
    WordIs();
    hide Word;
  }

  lemma LemireAlternateIs(address: nat, signature: nat, size: nat)
    ensures LemireAlternate(address, signature, size)
            == Reflect(MultiplyHigh(SignatureHash(signature), size), address, size, Word(HALF))
  {
  }

  // ----- the addresser object -----

  ghost predicate SizedBy(request: nat, magic: nat, shift: nat, divisor: nat) {
    && request <= divisor && 2 <= divisor < Word(HALF) && CheapDivisor(HALF, divisor)
    && Gen(HALF, divisor, false) == Divider(magic, shift)
    && forall x: nat | request <= x < divisor && 2 <= x :: !CheapDivisor(HALF, x)
  }

  lemma SizedFrom(request: nat, dv: Divider, d: nat)
    requires 2 <= d < Word(HALF) && request <= d && dv == Gen(HALF, d, false) && IsCheap(dv)
    requires forall x: nat | request <= x < d && 2 <= x :: !CheapDivisor(HALF, x)
    ensures SizedBy(request, dv.magic, dv.more, d)
  {
    CheapIs(d);
    hide Gen, Word, IsCheap, CheapDivisor;
  }

  // The divider of one partition, and its divisor as recovered from it.
  method SizeOne(request: nat) returns (div: Divider, d: nat)
    requires request < Word(HALF)
    ensures SizedBy(request, div.magic, div.more, d)
  {
    hide *;
    ghost var found;
    div, found := U32CheapGen(request);
    WordSizeHalf();
    RecoverInvertsGen(HALF, found);
    SizedFrom(request, div, found);
    d := Recover(HALF, div);
  }

  // Filled with one divider per partition.
  class MagicAddresser {
    var magics: array<nat>
    var shiftAmounts: array<nat>
    var divisors: array<nat>

    // Every partition has a divisor of at least the requested size, and its
    // stored magic number and shift are the cheap divider of that divisor.
    ghost predicate Sized(histogram: seq<nat>, i: nat)
      requires i < |histogram|
      requires |histogram| <= magics.Length && |histogram| <= shiftAmounts.Length && |histogram| <= divisors.Length
      reads this, magics, shiftAmounts, divisors
    {
      SizedBy(histogram[i], magics[i], shiftAmounts[i], divisors[i])
    }

    ghost predicate Valid(histogram: seq<nat>)
      reads this, magics, shiftAmounts, divisors
    {
      && magics.Length == shiftAmounts.Length == divisors.Length == |histogram|
      && magics != shiftAmounts && magics != divisors && shiftAmounts != divisors
      && forall i | 0 <= i < |histogram| :: Sized(histogram, i)
    }

    constructor (histogram: seq<nat>)
      requires forall i | 0 <= i < |histogram| :: histogram[i] < Word(HALF)
      ensures Valid(histogram) && fresh(magics) && fresh(shiftAmounts) && fresh(divisors)
    {
      var length := |histogram|;
      magics := new nat[length](_ => 0);
      shiftAmounts := new nat[length](_ => 0);
      divisors := new nat[length](_ => 0);
      new;
      hide *;
      for i := 0 to length
        invariant magics.Length == shiftAmounts.Length == divisors.Length == |histogram|
        invariant magics != shiftAmounts && magics != divisors && shiftAmounts != divisors
        invariant fresh(magics) && fresh(shiftAmounts) && fresh(divisors)
        invariant forall j | 0 <= j < i :: SizedBy(histogram[j], magics[j], shiftAmounts[j], divisors[j])
      {
        var div, d := SizeOne(histogram[i]);
        magics[i] := div.magic;
        shiftAmounts[i] := div.more;
        divisors[i] := d;
      }
    }

    function ComputeAddress(index: nat, n: nat): nat
      requires index < magics.Length && index < shiftAmounts.Length && index < divisors.Length
      reads this, magics, shiftAmounts, divisors
    {
      Reduce(n, magics[index], shiftAmounts[index], divisors[index])
    }

    function ComputeAlternative(index: nat, address: nat, signature: nat): nat
      requires index < magics.Length && index < shiftAmounts.Length && index < divisors.Length
      reads this, magics, shiftAmounts, divisors
    {
      Reflect(ComputeAddress(index, SignatureHash(signature)), address, divisors[index], Word(HALF))
    }

    // Addresses are remainders modulo the divisor, hence inside the table, and
    // the table is at least as large as requested.
    lemma AddressIsRemainder(histogram: seq<nat>, index: nat, n: nat)
      requires Valid(histogram) && index < |histogram| && n < Word(HALF)
      ensures Sized(histogram, index)
      ensures ComputeAddress(index, n) == n % divisors[index]
      ensures ComputeAddress(index, n) < divisors[index] && histogram[index] <= divisors[index]
    {
      assert Sized(histogram, index);
      ReduceIsRemainder(divisors[index], n);
      hide Gen, Reduce, Word, CheapDivisor;
    }

    lemma AlternativeInvolution(histogram: seq<nat>, index: nat, address: nat, signature: nat)
      requires Valid(histogram) && index < |histogram| && address < divisors[index]
      ensures ComputeAlternative(index, address, signature) < divisors[index]
      ensures ComputeAlternative(index, ComputeAlternative(index, address, signature), signature) == address
    {
      assert Sized(histogram, index);
      AddressIsRemainder(histogram, index, SignatureHash(signature));
      ReflectInvolution(ComputeAddress(index, SignatureHash(signature)), address, divisors[index], Word(HALF));
      hide Gen, Reduce, Word, CheapDivisor, Reflect, SignatureHash;
    }

    // An address and its alternate add up, modulo the size, to the hashed signature.
    lemma AlternativeSum(histogram: seq<nat>, index: nat, address: nat, signature: nat)
      requires Valid(histogram) && index < |histogram| && address < divisors[index]
      ensures (address + ComputeAlternative(index, address, signature)) % divisors[index]
              == ((signature * 0x5bd1e995) % 0x1_0000_0000) % divisors[index]
    {
      assert Sized(histogram, index);
      SignatureHashIs(signature);
      AddressIsRemainder(histogram, index, SignatureHash(signature));
      ReflectSum(ComputeAddress(index, SignatureHash(signature)), address, divisors[index], Word(HALF));
      hide Gen, Reduce, Word, CheapDivisor, Reflect, SignatureHash;
    }
  }
}
