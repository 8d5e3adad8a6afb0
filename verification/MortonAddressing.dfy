/** The parity-directed alternate address of the Morton addresser, in word
    arithmetic, and the sign with which the table size is put back. */
module MortonAddressing {
  import opened Arith
  import opened MortonGeometry

  // The offset of a hashed signature: thirteen bits, made odd.
  function OddOffset(hash: nat): nat {
    Or(And(hash, 0x1fff), 1)
  }

  lemma OddOffsetRange(hash: nat)
    ensures OddOffset(hash) % 2 == 1 && OddOffset(hash) <= 0x1fff
    ensures 0 <= OddOffset(hash) - hash % 0x2000 <= 1
  {
    ThirteenBits();
    hide And, Or, Pow2;
    AndMask(hash, 13);
    OrOne(hash % 0x2000);
  }

  lemma ThirteenBits()
    ensures Pow2(13) == 0x2000
  {
    assert Pow2(6) == 64;
  }

  // Odd addresses go up and even ones down; the sum wraps in a word.
  function Moved(address: nat, offset: nat, word: nat): nat
    requires word > 0
  {
    if address % 2 == 1 then (address + offset) % word else (address - offset) % word
  }

  // Beyond the table, the size is taken away after going up and put back after
  // going down.
  function Alternate(address: nat, offset: nat, size: nat, word: nat): nat
    requires word > 0
  {
    var moved := Moved(address, offset, word);
    if moved < size then moved
    else if address % 2 == 1 then (moved - size) % word
    else (moved + size) % word
  }

  // The same with the sign of the correction reversed.
  function ReversedAlternate(address: nat, offset: nat, size: nat, word: nat): nat
    requires word > 0
  {
    var moved := Moved(address, offset, word);
    if moved < size then moved
    else if address % 2 == 1 then (moved + size) % word
    else (moved - size) % word
  }

  // The word is wide enough to tell a wrapped address from one in the table.
  ghost predicate Wide(offset: nat, size: nat, word: nat) {
    0 < offset < size && offset % 2 == 1 && size + offset <= word
  }

  lemma MovedIs(address: nat, offset: nat, size: nat, word: nat)
    requires address < size && Wide(offset, size, word)
    ensures Moved(address, offset, word)
            == if address % 2 == 1 then address + offset
               else if address < offset then word + address - offset else address - offset
  {
    if address % 2 == 1 {
      SmallDivMod(address + offset, word);
    } else if address < offset {
      DivModUnique(address - offset, word, -1, word + address - offset);
    } else {
      SmallDivMod(address - offset, word);
    }
  }

  // In words the address is the step on integers.
  lemma AlternateIsStep(address: nat, offset: nat, size: nat, word: nat)
    requires address < size && Wide(offset, size, word)
    ensures Alternate(address, offset, size, word) == Step(address, offset, size)
    ensures 0 <= Step(address, offset, size) < size
  {
    MovedIs(address, offset, size, word);
    var moved := Moved(address, offset, word);
    if moved >= size {
      if address % 2 == 1 {
        SmallDivMod(moved - size, word);
      } else {
        DivModUnique(moved + size, word, 1, address - offset + size);
      }
    }
  }

  // The alternate address stays in the table and leads back.
  lemma AlternateInvolution(address: nat, offset: nat, size: nat, word: nat)
    requires address < size && size % 2 == 0 && Wide(offset, size, word)
    ensures Alternate(address, offset, size, word) < size
    ensures Alternate(Alternate(address, offset, size, word), offset, size, word) == address
  {
    hide Alternate, Step;
    AlternateIsStep(address, offset, size, word);
    StepInvolution(address, offset, size);
    AlternateIsStep(Step(address, offset, size), offset, size, word);
  }

  // It leads back from every address exactly when the size is even.
  lemma InvolutionExactly(offset: nat, size: nat, word: nat)
    requires Wide(offset, size, word)
    ensures size % 2 == 0
            <==> forall address: nat | address < size ::
                   Alternate(Alternate(address, offset, size, word), offset, size, word) == address
  {
    hide Alternate, Step;
    if size % 2 == 0 {
      forall address: nat | address < size
        ensures Alternate(Alternate(address, offset, size, word), offset, size, word) == address
      {
        AlternateInvolution(address, offset, size, word);
      }
    } else {
      AlternateIsStep(0, offset, size, word);
      AlternateIsStep(Step(0, offset, size), offset, size, word);
      OddSizeLosesTrack(offset, size);
    }
  }

  lemma OddSizeLosesTrack(offset: nat, size: nat)
    requires 0 < offset < size && offset % 2 == 1 && size % 2 == 1
    ensures Step(0, offset, size) == size - offset && Step(size - offset, offset, size) != 0
  {
    assert (size - offset) % 2 == 0;
  }

  ghost predicate NeedsNoCorrection(address: nat, offset: nat, size: nat) {
    if address % 2 == 1 then address + offset < size else offset <= address
  }

  // The wrong correction leaves the table unless it wraps around the word.
  ghost predicate WrapsBack(address: nat, offset: nat, size: nat, word: nat) {
    if address % 2 == 1 then word <= address + offset + size else word + address < 2 * size + offset
  }

  // With the sign reversed, the alternate is in the table exactly when it needs no
  // correction or the wrong one wraps back, and it is the right one exactly when
  // it needs no correction or the table is half the word.
  lemma ReversedExactly(address: nat, offset: nat, size: nat, word: nat)
    requires address < size && Wide(offset, size, word)
    ensures ReversedAlternate(address, offset, size, word) < size
            <==> NeedsNoCorrection(address, offset, size) || WrapsBack(address, offset, size, word)
    ensures ReversedAlternate(address, offset, size, word) == Alternate(address, offset, size, word)
            <==> NeedsNoCorrection(address, offset, size) || 2 * size == word
  {
    MovedIs(address, offset, size, word);
    var moved := Moved(address, offset, word);
    if moved >= size {
      if address % 2 == 1 {
        SmallDivMod(moved - size, word);
        Wrapped(moved + size, word);
      } else {
        SmallDivMod(moved - size, word);
        Wrapped(moved + size, word);
      }
    }
    hide Moved;
  }

  lemma Wrapped(x: nat, word: nat)
    requires 0 < word && x < 2 * word
    ensures x % word == if x < word then x else x - word
  {
    if x < word {
      SmallDivMod(x, word);
    } else {
      DivModUnique(x, word, 1, x - word);
    }
  }

  // From the last of four buckets an offset of three leads to bucket ten.
  lemma ReversedLeaves()
    ensures ReversedAlternate(3, 3, 4, Pow2(32)) == 10 && Alternate(3, 3, 4, Pow2(32)) == 2
  {
    PowerOf32();
    hide Pow2;
  }
}
