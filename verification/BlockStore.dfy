/** The packed storage of a block: atoms of a fixed width that hold arrays of
    fields of any narrower width, crossing atom boundaries. Each operation on
    words is shown to be an operation on the bits of the block in sequence. */
module BlockStore {
  import opened Arith

  // An atom as its bits, the least significant first.
  type Atom = seq<bool>

  // ----- word operations -----

  function ShiftLeft(a: Atom, k: nat): (r: Atom)
    ensures |r| == |a|
  {
    seq(|a|, i requires 0 <= i < |a| => i >= k && a[i - k])
  }

  function ShiftRight(a: Atom, k: nat): (r: Atom)
    ensures |r| == |a|
  {
    seq(|a|, i requires 0 <= i < |a| => i + k < |a| && a[i + k])
  }

  function BitAnd(a: Atom, b: Atom): (r: Atom)
    requires |a| == |b|
    ensures |r| == |a|
  {
    seq(|a|, i requires 0 <= i < |a| => a[i] && b[i])
  }

  function BitOr(a: Atom, b: Atom): (r: Atom)
    requires |a| == |b|
    ensures |r| == |a|
  {
    seq(|a|, i requires 0 <= i < |a| => a[i] || b[i])
  }

  function BitNot(a: Atom): (r: Atom)
    ensures |r| == |a|
  {
    seq(|a|, i requires 0 <= i < |a| => !a[i])
  }

  // (1 << k) - 1
  function LowMask(size: nat, k: nat): (r: Atom)
    ensures |r| == size
  {
    seq(size, i => i < k)
  }

  lemma ShiftBit(a: Atom, k: nat, i: nat)
    requires i < |a|
    ensures ShiftLeft(a, k)[i] == (i >= k && a[i - k])
    ensures ShiftRight(a, k)[i] == (i + k < |a| && a[i + k])
  {
  }

  lemma OrBit(a: Atom, b: Atom, i: nat)
    requires |a| == |b| && i < |a|
    ensures BitOr(a, b)[i] == (a[i] || b[i])
  {
  }

  // ----- a block as a sequence of bits -----

  predicate IsStorage(atoms: seq<Atom>, size: nat) {
    size > 0 && forall k | 0 <= k < |atoms| :: |atoms[k]| == size
  }

  lemma StorageMeans(atoms: seq<Atom>, size: nat)
    ensures IsStorage(atoms, size) <==> size > 0 && forall k | 0 <= k < |atoms| :: |atoms[k]| == size
  {
  }

  function BitAt(atoms: seq<Atom>, size: nat, g: nat): bool
    requires IsStorage(atoms, size) && g < |atoms| * size
  {
    DivUpper(g, size, |atoms|);
    DivNonNeg(g, size);
    atoms[g / size][g % size]
  }

  function Bits(atoms: seq<Atom>, size: nat): (b: seq<bool>)
    requires IsStorage(atoms, size)
    ensures |b| == |atoms| * size
  {
    MulNonNeg(|atoms|, size);
    seq(|atoms| * size, g requires 0 <= g < |atoms| * size => BitAt(atoms, size, g))
  }

  // Bit i of atom k is bit k * size + i of the block.
  lemma BitOfAtom(atoms: seq<Atom>, size: nat, k: nat, i: nat)
    requires IsStorage(atoms, size) && k < |atoms| && i < size
    ensures k * size + i < |atoms| * size
    ensures Bits(atoms, size)[k * size + i] == atoms[k][i]
  {
    MulLe(k + 1, |atoms|, size);
    MulAdd(k, 1, size);
    MulNonNeg(k, size);
    DivModUnique(k * size + i, size, k, i);
  }

  // Every bit is in an atom.
  lemma AtomOfBit(atoms: seq<Atom>, size: nat, g: nat)
    requires IsStorage(atoms, size) && g < |atoms| * size
    ensures 0 <= g / size < |atoms| && 0 <= g % size < size && g == g / size * size + g % size
    ensures Bits(atoms, size)[g] == atoms[g / size][g % size]
  {
    DivUpper(g, size, |atoms|);
    DivNonNeg(g, size);
    DivMod(g, size);
  }

  // Where a field of a packed array starts.
  function FieldStart(offset: nat, width: nat, index: nat): nat {
    MulNonNeg(index, width);
    index * width + offset
  }

  // Bits from start on, as many as the width, padded with zeros to an atom.
  function Slice(bits: seq<bool>, start: nat, width: nat, size: nat): Atom
    requires start + width <= |bits| && width <= size
  {
    bits[start..start + width] + seq(size - width, i => false)
  }

  // The item uses no more than the width of its field.
  predicate Fits(item: Atom, width: nat) {
    forall i | width <= i < |item| :: !item[i]
  }

  // ----- reading -----

  // Reads a field from the one or two atoms that hold it.
  function ReadCross(atoms: seq<Atom>, size: nat, start: nat, width: nat): Atom
    requires IsStorage(atoms, size) && 0 < width < size && start + width < |atoms| * size
  {
    DivUpper(start, size, |atoms|);
    DivUpper(start + width, size, |atoms|);
    DivNonNeg(start, size);
    DivNonNeg(start + width, size);
    var atom0 := start / size;
    var atom1 := (start + width) / size;
    var spillover := if atom1 != atom0 then (start + width) % size else 0;
    SpilloverFits(start, width, size);
    Joined(atoms[atom0], atoms[atom1], start % size, spillover, width)
  }

  // The bits in the first atom and those that spilled over.
  function Joined(x: Atom, y: Atom, offset: nat, spillover: nat, width: nat): (r: Atom)
    requires |x| == |y| && spillover <= width
    ensures |r| == |x|
  {
    var mask := LowMask(|x|, width);
    var lower := BitAnd(ShiftRight(x, offset), mask);
    var shiftedMask := ShiftRight(mask, width - spillover);
    var upper := BitAnd(y, shiftedMask);
    BitOr(ShiftLeft(upper, width - spillover), lower)
  }

  lemma JoinedBit(x: Atom, y: Atom, offset: nat, spillover: nat, width: nat, i: nat)
    requires |x| == |y| && spillover <= width <= |x| && i < |x|
    ensures Joined(x, y, offset, spillover, width)[i]
            == ((width - spillover <= i < width && y[i - (width - spillover)])
                || (i < width && i + offset < |x| && x[i + offset]))
  {
  }

  // A field lies in one atom, or its last bits spill over into the next one.
  lemma SpilloverFits(start: nat, width: nat, size: nat)
    requires 0 < width < size
    ensures var a0, a1, o := start / size, (start + width) / size, start % size;
            && 0 <= a0 <= a1 <= a0 + 1
            && (a1 == a0 ==> o + width < size)
            && (a1 != a0 ==> o + width >= size && (start + width) % size == o + width - size < width)
  {
    DivMod(start, size);
    DivNonNeg(start, size);
    var a0, o := start / size, start % size;
    MulAdd(a0, 1, size);
    if o + width < size {
      DivModUnique(start + width, size, a0, o + width);
    } else {
      DivModUnique(start + width, size, a0 + 1, o + width - size);
    }
  }

  // Reading a field gives its bits, across an atom boundary or not.
  lemma ReadCrossIsSlice(atoms: seq<Atom>, size: nat, start: nat, width: nat)
    requires IsStorage(atoms, size) && 0 < width < size && start + width < |atoms| * size
    ensures ReadCross(atoms, size, start, width) == Slice(Bits(atoms, size), start, width, size)
  {
    hide ReadCross, Bits, Slice;
    var r, e := ReadCross(atoms, size, start, width), Slice(Bits(atoms, size), start, width, size);
    ReadBit(atoms, size, start, width, 0);
    SliceBit(Bits(atoms, size), start, width, size, 0);
    forall i | 0 <= i < |r|
      ensures r[i] == e[i]
    {
      ReadBit(atoms, size, start, width, i);
      SliceBit(Bits(atoms, size), start, width, size, i);
    }
  }

  lemma SliceBit(bits: seq<bool>, start: nat, width: nat, size: nat, i: nat)
    requires start + width <= |bits| && width <= size && i < size
    ensures |Slice(bits, start, width, size)| == size
    ensures Slice(bits, start, width, size)[i] == (i < width && bits[start + i])
  {
  }

  lemma ReadCrossIs(atoms: seq<Atom>, size: nat, start: nat, width: nat)
    requires IsStorage(atoms, size) && 0 < width < size && start + width < |atoms| * size
    ensures var a0, a1 := start / size, (start + width) / size;
            && 0 <= a0 < |atoms| && 0 <= a1 < |atoms| && |atoms[a0]| == |atoms[a1]| == size && 0 <= start % size < size
            && 0 <= (if a1 != a0 then (start + width) % size else 0) <= width
            && ReadCross(atoms, size, start, width)
               == Joined(atoms[a0], atoms[a1], start % size, if a1 != a0 then (start + width) % size else 0, width)
  {
    hide Joined;
    DivUpper(start, size, |atoms|);
    DivUpper(start + width, size, |atoms|);
    DivMod(start, size);
    SpilloverFits(start, width, size);
  }

  lemma ReadBit(atoms: seq<Atom>, size: nat, start: nat, width: nat, i: nat)
    requires IsStorage(atoms, size) && 0 < width < size && start + width < |atoms| * size && i < size
    ensures |ReadCross(atoms, size, start, width)| == size
    ensures ReadCross(atoms, size, start, width)[i] == (i < width && Bits(atoms, size)[start + i])
  {
    hide *;
    ReadCrossIs(atoms, size, start, width);
    SpilloverFits(start, width, size);
    DivMod(start, size);
    var a0, o := start / size, start % size;
    var a1 := (start + width) / size;
    JoinedBit(atoms[a0], atoms[a1], o, if a1 != a0 then (start + width) % size else 0, width, i);
    if i < width {
      MulAdd(a0, 1, size);
      if o + i < size {
        BitOfAtom(atoms, size, a0, o + i);
      } else {
        BitOfAtom(atoms, size, a0 + 1, o + i - size);
      }
    }
  }

  // ----- what the writes mean for the bits -----

  // A field overwritten.
  function Overwritten(bits: seq<bool>, start: nat, width: nat, item: Atom): (r: seq<bool>)
    requires start + width <= |bits| && width <= |item|
    ensures |r| == |bits|
  {
    bits[..start] + item[..width] + bits[start + width..]
  }

  // An element shifted in: everything from start on moves up, the last field
  // falls off the end.
  function ShiftedIn(bits: seq<bool>, start: nat, width: nat, item: Atom): (r: seq<bool>)
    requires start + width <= |bits| && width <= |item|
    ensures |r| == |bits|
  {
    bits[..start] + item[..width] + bits[start..|bits| - width]
  }

  // An element shifted out: everything behind it moves down, zeros follow.
  function ShiftedOut(bits: seq<bool>, start: nat, width: nat): (r: seq<bool>)
    requires start + width <= |bits|
    ensures |r| == |bits|
  {
    bits[..start] + bits[start + width..] + seq(width, i => false)
  }

  // Shifting out what has been shifted in gives everything back but the slot
  // that fell off.
  lemma ShiftOutUndoesShiftIn(bits: seq<bool>, start: nat, width: nat, item: Atom)
    requires start + width <= |bits| && width <= |item|
    ensures ShiftedOut(ShiftedIn(bits, start, width, item), start, width)
            == bits[..|bits| - width] + seq(width, i => false)
  {
    var a := ShiftedIn(bits, start, width, item);
    assert a[..start] == bits[..start];
    assert a[start + width..] == bits[start..|bits| - width];
    assert bits[..|bits| - width] == bits[..start] + bits[start..|bits| - width];
  }

  // The atoms differ from old ones as the bit function says.
  ghost predicate BitsAre(atoms: seq<Atom>, size: nat, bits: seq<bool>)
    requires IsStorage(atoms, size)
  {
    && |bits| == |atoms| * size
    && forall k: nat, i: nat | k < |atoms| && i < size :: InBits(k, i, size, |bits|) && atoms[k][i] == bits[k * size + i]
  }

  ghost predicate InBits(k: nat, i: nat, size: nat, n: nat) {
    0 <= k * size + i < n
  }

  lemma BitsAreIs(atoms: seq<Atom>, size: nat, bits: seq<bool>)
    requires IsStorage(atoms, size) && BitsAre(atoms, size, bits)
    ensures Bits(atoms, size) == bits
  {
    forall g | 0 <= g < |atoms| * size
      ensures Bits(atoms, size)[g] == bits[g]
    {
      AtomOfBit(atoms, size, g);
      assert InBits(g / size, g % size, size, |bits|);
    }
    hide Bits;
  }

  // ----- overwriting a field -----

  // The part of the field in its first atom.
  function WithLower(a: Atom, o: nat, width: nat, item: Atom): (r: Atom)
    requires |a| == |item|
    ensures |r| == |a|
  {
    BitOr(BitAnd(a, BitNot(ShiftLeft(LowMask(|a|, width), o))), ShiftLeft(item, o))
  }

  // The part that has spilled over.
  function WithUpper(a: Atom, spillover: nat, width: nat, item: Atom): (r: Atom)
    requires |a| == |item| && spillover <= width
    ensures |r| == |a|
  {
    BitOr(BitAnd(a, BitNot(ShiftRight(LowMask(|a|, width), width - spillover))), ShiftRight(item, width - spillover))
  }

  lemma LowerBit(a: Atom, o: nat, width: nat, item: Atom, i: nat)
    requires |a| == |item| && Fits(item, width) && i < |a|
    ensures WithLower(a, o, width, item)[i] == if o <= i < o + width then item[i - o] else a[i]
  {
  }

  lemma UpperBit(a: Atom, spillover: nat, width: nat, item: Atom, i: nat)
    requires |a| == |item| && Fits(item, width) && i < |a| && spillover <= width <= |a|
    ensures WithUpper(a, spillover, width, item)[i] == if i < spillover then item[i + width - spillover] else a[i]
  {
  }

  // Which bits of the block an atom-local range is.
  lemma GlobalRange(k: nat, i: nat, size: nat, start: nat, width: nat)
    requires 0 < width < size && i < size
    ensures var a0, o := start / size, start % size;
            var spillover := if (start + width) / size != a0 then (start + width) % size else 0;
            && 0 <= a0 && 0 <= spillover < width
            && (start <= k * size + i < start + width
                <==> (k == a0 && o <= i < o + width) || (k == a0 + 1 && i < spillover))
            && (k == a0 ==> k * size + i - start == i - o)
            && (k == a0 + 1 && i < spillover ==> k * size + i - start == i + width - spillover)
  {
    SpilloverFits(start, width, size);
    DivMod(start, size);
    var a0 := start / size;
    MulAdd(a0, 1, size);
    if k < a0 {
      MulLe(k + 1, a0, size);
      MulAdd(k, 1, size);
    } else if k > a0 + 1 {
      MulLe(a0 + 2, k, size);
      MulAdd(a0, 2, size);
    }
  }

  lemma OverwrittenBit(bits: seq<bool>, start: nat, width: nat, item: Atom, g: nat)
    requires start + width <= |bits| && width <= |item| && g < |bits|
    ensures Overwritten(bits, start, width, item)[g] == if start <= g < start + width then item[g - start] else bits[g]
  {
  }

  lemma OldBit(atoms: seq<Atom>, size: nat, k: nat, i: nat)
    requires IsStorage(atoms, size) && k < |atoms| && i < size
    ensures InBits(k, i, size, |Bits(atoms, size)|) && 0 <= k * size + i
    ensures Bits(atoms, size)[k * size + i] == atoms[k][i]
  {
    hide Bits;
    MulNonNeg(k, size);
    BitOfAtom(atoms, size, k, i);
  }

  // Two atoms written that way overwrite the field.
  lemma OverwriteMeans(atoms: seq<Atom>, after: seq<Atom>, size: nat, start: nat, width: nat, item: Atom)
    requires IsStorage(atoms, size) && IsStorage(after, size) && |after| == |atoms|
    requires 0 < width < size == |item| && Fits(item, width) && start + width <= |atoms| * size
    requires var a0, a1 := start / size, (start + width) / size;
             var spillover := if a1 != a0 then (start + width) % size else 0;
             && 0 <= a0 <= a1 < |atoms| && 0 <= spillover <= width
             && (forall k | 0 <= k < |atoms| && k != a0 && k != a1 :: after[k] == atoms[k])
             && (if a1 == a0 then after[a0] == WithUpper(WithLower(atoms[a0], start % size, width, item), 0, width, item)
                 else after[a0] == WithLower(atoms[a0], start % size, width, item)
                      && after[a1] == WithUpper(atoms[a1], spillover, width, item))
    ensures Bits(after, size) == Overwritten(Bits(atoms, size), start, width, item)
  {
    hide Bits, Overwritten, WithLower, WithUpper;
    var bits := Overwritten(Bits(atoms, size), start, width, item);
    SpilloverFits(start, width, size);
    var a0, a1 := start / size, (start + width) / size;
    var spillover := if a1 != a0 then (start + width) % size else 0;
    forall k: nat, i: nat | k < |after| && i < size
      ensures InBits(k, i, size, |bits|) && after[k][i] == bits[k * size + i]
    {
      OldBit(atoms, size, k, i);
      OverwrittenBit(Bits(atoms, size), start, width, item, k * size + i);
      GlobalRange(k, i, size, start, width);
      if k == a0 {
        LowerBit(atoms[a0], start % size, width, item, i);
        if a1 == a0 {
          UpperBit(WithLower(atoms[a0], start % size, width, item), 0, width, item, i);
        }
      } else if k == a1 {
        UpperBit(atoms[a1], spillover, width, item, i);
      }
    }
    BitsAreIs(after, size, bits);
  }

  // ----- shifting a whole block -----

  // All atoms shifted up, with the bits that cross into the next atom.
  function UpAtom(atoms: seq<Atom>, size: nat, width: nat, k: nat): (r: Atom)
    requires IsStorage(atoms, size) && width < size && k < |atoms|
    ensures |r| == size
  {
    if k == 0 then ShiftLeft(atoms[k], width)
    else BitOr(ShiftLeft(atoms[k], width), ShiftRight(atoms[k - 1], size - width))
  }

  function DownAtom(atoms: seq<Atom>, size: nat, width: nat, k: nat): (r: Atom)
    requires IsStorage(atoms, size) && width < size && k < |atoms|
    ensures |r| == size
  {
    if k + 1 == |atoms| then ShiftRight(atoms[k], width)
    else BitOr(ShiftRight(atoms[k], width), ShiftLeft(atoms[k + 1], size - width))
  }

  lemma UpAtomIs(atoms: seq<Atom>, size: nat, width: nat, k: nat)
    requires IsStorage(atoms, size) && width < size && k < |atoms|
    ensures UpAtom(atoms, size, width, k)
            == if k == 0 then ShiftLeft(atoms[k], width)
               else BitOr(ShiftLeft(atoms[k], width), ShiftRight(atoms[k - 1], size - width))
  {
    hide ShiftLeft, ShiftRight, BitOr;
  }

  lemma UpAtomBit(atoms: seq<Atom>, size: nat, width: nat, k: nat, i: nat)
    requires IsStorage(atoms, size) && 0 < width < size && k < |atoms| && i < size
    ensures UpAtom(atoms, size, width, k)[i]
            == if i >= width then atoms[k][i - width] else k > 0 && atoms[k - 1][size - width + i]
  {
    hide ShiftLeft, ShiftRight, BitOr;
    ShiftBit(atoms[k], width, i);
    if k > 0 {
      ShiftBit(atoms[k - 1], size - width, i);
      OrBit(ShiftLeft(atoms[k], width), ShiftRight(atoms[k - 1], size - width), i);
    }
  }

  lemma DownAtomBit(atoms: seq<Atom>, size: nat, width: nat, k: nat, i: nat)
    requires IsStorage(atoms, size) && 0 < width < size && k < |atoms| && i < size
    ensures DownAtom(atoms, size, width, k)[i]
            == if i + width < size then atoms[k][i + width] else k + 1 < |atoms| && atoms[k + 1][i + width - size]
  {
    hide ShiftLeft, ShiftRight, BitOr;
    ShiftBit(atoms[k], width, i);
    if k + 1 < |atoms| {
      ShiftBit(atoms[k + 1], size - width, i);
      OrBit(ShiftRight(atoms[k], width), ShiftLeft(atoms[k + 1], size - width), i);
    }
  }

  lemma UpBit(atoms: seq<Atom>, size: nat, width: nat, k: nat, i: nat)
    requires IsStorage(atoms, size) && 0 < width < size && k < |atoms| && i < size
    ensures 0 <= k * size + i < |atoms| * size
    ensures UpAtom(atoms, size, width, k)[i]
            == (k * size + i >= width && Bits(atoms, size)[k * size + i - width])
  {
    hide Bits, UpAtom;
    UpAtomBit(atoms, size, width, k, i);
    BitOfAtom(atoms, size, k, i);
    MulNonNeg(k, size);
    if i >= width {
      BitOfAtom(atoms, size, k, i - width);
    } else if k > 0 {
      BitOfAtom(atoms, size, k - 1, size - width + i);
      MulSub(k, 1, size);
      MulNonNeg(k - 1, size);
    } else {
      assert k * size == 0;
    }
  }

  lemma DownBit(atoms: seq<Atom>, size: nat, width: nat, k: nat, i: nat)
    requires IsStorage(atoms, size) && 0 < width < size && k < |atoms| && i < size
    ensures 0 <= k * size + i < |atoms| * size
    ensures DownAtom(atoms, size, width, k)[i]
            == (k * size + i + width < |atoms| * size && Bits(atoms, size)[k * size + i + width])
  {
    hide Bits, DownAtom;
    DownAtomBit(atoms, size, width, k, i);
    BitOfAtom(atoms, size, k, i);
    MulNonNeg(k, size);
    MulAdd(k, 1, size);
    if i + width < size {
      BitOfAtom(atoms, size, k, i + width);
    } else if k + 1 < |atoms| {
      BitOfAtom(atoms, size, k + 1, i + width - size);
    } else {
      assert (k + 1) * size == |atoms| * size;
    }
  }

  // Keeping the bits below the offset and taking the others from elsewhere.
  function Blend(a: Atom, b: Atom, mask: Atom): (r: Atom)
    requires |a| == |b| == |mask|
    ensures |r| == |a|
  {
    BitOr(BitAnd(a, mask), BitAnd(BitNot(mask), b))
  }

  lemma BlendBit(a: Atom, b: Atom, mask: Atom, i: nat)
    requires |a| == |b| == |mask| && i < |a|
    ensures Blend(a, b, mask)[i] == if mask[i] then a[i] else b[i]
  {
  }

  // Which bits of the block lie below the start.
  lemma BelowStart(k: nat, i: nat, size: nat, start: nat)
    requires size > 0 && i < size
    ensures 0 <= start / size
    ensures k * size + i < start <==> k < start / size || (k == start / size && i < start % size)
  {
    DivMod(start, size);
    DivNonNeg(start, size);
    var a0 := start / size;
    if k < a0 {
      MulLe(k + 1, a0, size);
      MulAdd(k, 1, size);
    } else if k > a0 {
      MulLe(a0 + 1, k, size);
      MulAdd(a0, 1, size);
    }
  }

  // An atom of the merged block: old below the start, moved from there on.
  ghost predicate MergedAtom(old_: Atom, moved: Atom, after: Atom, size: nat, start: nat, k: nat)
    requires size > 0 && |old_| == |moved| == |after| == size
  {
    if k < start / size then after == old_
    else if k == start / size then after == Blend(old_, moved, LowMask(size, start % size))
    else after == moved
  }

  lemma MergedBit(old_: Atom, moved: Atom, after: Atom, size: nat, start: nat, k: nat, i: nat)
    requires size > 0 && |old_| == |moved| == |after| == size && i < size
    requires MergedAtom(old_, moved, after, size, start, k)
    ensures after[i] == if k * size + i < start then old_[i] else moved[i]
  {
    BelowStart(k, i, size, start);
    BlendBit(old_, moved, LowMask(size, start % size), i);
    hide Blend;
  }

  // Moving everything from start on up by one field.
  function MovedUp(bits: seq<bool>, start: nat, width: nat): (r: seq<bool>)
    requires start + width <= |bits|
    ensures |r| == |bits|
  {
    seq(|bits|, g requires 0 <= g < |bits| => if g < start then bits[g] else g >= width && bits[g - width])
  }

  lemma MergedUp(atoms: seq<Atom>, after: seq<Atom>, size: nat, start: nat, width: nat)
    requires IsStorage(atoms, size) && IsStorage(after, size) && |after| == |atoms|
    requires 0 < width < size && start + width <= |atoms| * size
    requires forall k: nat | k < |atoms| ::
               MergedAtom(atoms[k], UpAtom(atoms, size, width, k), after[k], size, start, k)
    ensures Bits(after, size) == MovedUp(Bits(atoms, size), start, width)
  {
    hide Bits, UpAtom, MergedAtom;
    var bits := MovedUp(Bits(atoms, size), start, width);
    forall k: nat, i: nat | k < |after| && i < size
      ensures InBits(k, i, size, |bits|) && after[k][i] == bits[k * size + i]
    {
      OldBit(atoms, size, k, i);
      UpBit(atoms, size, width, k, i);
      MergedBit(atoms[k], UpAtom(atoms, size, width, k), after[k], size, start, k, i);
    }
    BitsAreIs(after, size, bits);
  }

  lemma MergedDown(atoms: seq<Atom>, after: seq<Atom>, size: nat, start: nat, width: nat)
    requires IsStorage(atoms, size) && IsStorage(after, size) && |after| == |atoms|
    requires 0 < width < size && start + width <= |atoms| * size
    requires forall k: nat | k < |atoms| ::
               MergedAtom(atoms[k], DownAtom(atoms, size, width, k), after[k], size, start, k)
    ensures Bits(after, size) == ShiftedOut(Bits(atoms, size), start, width)
  {
    hide Bits, DownAtom, MergedAtom, ShiftedOut;
    var bits := ShiftedOut(Bits(atoms, size), start, width);
    forall k: nat, i: nat | k < |after| && i < size
      ensures InBits(k, i, size, |bits|) && after[k][i] == bits[k * size + i]
    {
      OldBit(atoms, size, k, i);
      DownBit(atoms, size, width, k, i);
      MergedBit(atoms[k], DownAtom(atoms, size, width, k), after[k], size, start, k, i);
      ShiftedOutBit(Bits(atoms, size), start, width, k * size + i);
    }
    BitsAreIs(after, size, bits);
  }

  lemma ShiftedOutBit(bits: seq<bool>, start: nat, width: nat, g: nat)
    requires start + width <= |bits| && g < |bits|
    ensures ShiftedOut(bits, start, width)[g]
            == if g < start then bits[g] else g + width < |bits| && bits[g + width]
  {
  }

  // Writing the item into the gap completes the insertion.
  lemma MovedUpThenWritten(bits: seq<bool>, start: nat, width: nat, item: Atom)
    requires start + width <= |bits| && width <= |item|
    ensures Overwritten(MovedUp(bits, start, width), start, width, item) == ShiftedIn(bits, start, width, item)
  {
    var a, b := Overwritten(MovedUp(bits, start, width), start, width, item), ShiftedIn(bits, start, width, item);
    assert |a| == |b|;
    forall g | 0 <= g < |a|
      ensures a[g] == b[g]
    {
    }
  }

  // The block without its padding atom.
  lemma BitsPrefix(atoms: seq<Atom>, size: nat, n: nat)
    requires IsStorage(atoms, size) && n <= |atoms|
    ensures IsStorage(atoms[..n], size)
    ensures 0 <= n * size <= |atoms| * size && Bits(atoms[..n], size) == Bits(atoms, size)[..n * size]
  {
    MulLe(n, |atoms|, size);
    MulNonNeg(n, size);
    var a, b := Bits(atoms[..n], size), Bits(atoms, size)[..n * size];
    forall g | 0 <= g < n * size
      ensures a[g] == b[g]
    {
      AtomOfBit(atoms[..n], size, g);
      AtomOfBit(atoms, size, g);
    }
    hide Bits;
  }

  lemma OverwrittenPrefix(bits: seq<bool>, start: nat, width: nat, item: Atom, m: nat)
    requires start + width <= m <= |bits| && width <= |item|
    ensures Overwritten(bits, start, width, item)[..m] == Overwritten(bits[..m], start, width, item)
    ensures Overwritten(bits, start, width, item)[m..] == bits[m..]
  {
  }

  // ----- counting up -----

  // The number that bits stand for.
  function Num(b: seq<bool>): nat {
    if b == [] then 0 else Num(b[..|b| - 1]) + if b[|b| - 1] then Pow2(|b| - 1) else 0
  }

  lemma {:induction false} NumUpdate(b: seq<bool>, k: nat, x: bool)
    requires k < |b|
    ensures Num(b[k := x]) + (if b[k] then Pow2(k) else 0) == Num(b) + if x then Pow2(k) else 0
  {
    hide Pow2;
    var n := |b| - 1;
    if k < n {
      NumUpdate(b[..n], k, x);
      assert b[k := x][..n] == b[..n][k := x];
    } else {
      assert b[k := x][..n] == b[..n];
    }
  }

  lemma {:induction false} NumBound(b: seq<bool>)
    ensures Num(b) < Pow2(|b|)
  {
    if b != [] {
      NumBound(b[..|b| - 1]);
    }
  }

  // Adding 2^k with the carry rippling up, dropped at the end.
  function Ripple(b: seq<bool>, k: nat): (r: seq<bool>)
    ensures |r| == |b|
    decreases |b| - k
  {
    if k >= |b| then b else if !b[k] then b[k := true] else Ripple(b[k := false], k + 1)
  }

  // The ripple is the wrapping addition of the machine.
  lemma {:induction false} RippleAdds(b: seq<bool>, k: nat)
    requires k <= |b|
    ensures Num(Ripple(b, k)) == Num(b) + Pow2(k)
            || (k == |b| && Num(Ripple(b, k)) == Num(b))
            || Num(Ripple(b, k)) + Pow2(|b|) == Num(b) + Pow2(k)
    decreases |b| - k
  {
    if k < |b| {
      if b[k] {
        NumUpdate(b, k, false);
        RippleAdds(b[k := false], k + 1);
        assert Pow2(k + 1) == 2 * Pow2(k);
      } else {
        NumUpdate(b, k, true);
      }
      hide Num;
    }
  }

  lemma {:induction false} RippleIsAddition(b: seq<bool>, k: nat)
    requires k < |b|
    ensures Num(Ripple(b, k)) == (Num(b) + Pow2(k)) % Pow2(|b|)
  {
    hide Num, Pow2, Ripple;
    RippleAdds(b, k);
    NumBound(Ripple(b, k));
    if Num(Ripple(b, k)) == Num(b) + Pow2(k) {
      DivModUnique(Num(b) + Pow2(k), Pow2(|b|), 0, Num(Ripple(b, k)));
    } else {
      DivModUnique(Num(b) + Pow2(k), Pow2(|b|), 1, Num(Ripple(b, k)));
    }
  }

  // The first zero from k on is at j; without one j is the end.
  ghost predicate FirstZero(b: seq<bool>, k: nat, j: nat) {
    k <= j <= |b| && (forall i | k <= i < j :: b[i]) && (j < |b| ==> !b[j])
  }

  // Ones up to the first zero turn to zeros, and that to a one.
  lemma {:induction false} RippleBit(b: seq<bool>, k: nat, j: nat, g: nat)
    requires FirstZero(b, k, j) && g < |b|
    ensures Ripple(b, k)[g] == if k <= g < j then false else if g == j then true else b[g]
    decreases |b| - k
  {
    if k < j {
      RippleBit(b[k := false], k + 1, j, g);
    }
  }

  // Incrementing a field that is not all ones stays within the field.
  lemma {:induction false} RippleInField(bits: seq<bool>, start: nat, width: nat, j: nat)
    requires start + width <= |bits| && FirstZero(bits, start, j) && j < start + width
    ensures var f := bits[start..start + width];
            && Num(Ripple(f, 0)) == Num(f) + 1
            && Ripple(bits, start) == bits[..start] + Ripple(f, 0) + bits[start + width..]
  {
    var f := bits[start..start + width];
    var a, b := Ripple(bits, start), bits[..start] + Ripple(f, 0) + bits[start + width..];
    assert FirstZero(f, 0, j - start);
    forall g | 0 <= g < |bits|
      ensures a[g] == b[g]
    {
      RippleBit(bits, start, j, g);
      if start <= g < start + width {
        RippleBit(f, 0, j - start, g - start);
      }
    }
    RippleNoWrap(f, 0, j - start);
    Pow2Zero();
    hide Ripple, Num, Pow2;
    assert a == b;
  }

  lemma {:induction false} RippleNoWrap(b: seq<bool>, k: nat, j: nat)
    requires FirstZero(b, k, j) && j < |b|
    ensures Num(Ripple(b, k)) == Num(b) + Pow2(k)
    decreases |b| - k
  {
    if b[k] {
      NumUpdate(b, k, false);
      RippleNoWrap(b[k := false], k + 1, j);
      assert Pow2(k + 1) == 2 * Pow2(k);
    } else {
      NumUpdate(b, k, true);
    }
    hide Num;
  }

  lemma {:induction false} FindZero(b: seq<bool>, k: nat) returns (j: nat)
    requires k <= |b|
    ensures FirstZero(b, k, j)
    decreases |b| - k
  {
    j := k;
    if k < |b| && b[k] {
      j := FindZero(b, k + 1);
    }
  }

  // The atoms after adding one at start, j being the first zero from there on.
  ghost predicate Incremented(atoms: seq<Atom>, after: seq<Atom>, size: nat, start: nat, j: nat)
    requires size > 0 && |after| == |atoms| && 0 <= start / size < |atoms|
  {
    var a0 := start / size;
    && after[a0] == Ripple(atoms[a0], start % size)
    && (a0 + 1 < |atoms| ==>
          after[a0 + 1] == if j / size == a0 + 1 then Ripple(atoms[a0 + 1], 0) else atoms[a0 + 1])
    && forall k | 0 <= k < |atoms| && k != a0 && k != a0 + 1 :: after[k] == atoms[k]
  }

  lemma {:induction false} IncrementedBit(atoms: seq<Atom>, after: seq<Atom>, size: nat, start: nat, j: nat,
                                          k: nat, i: nat)
    requires IsStorage(atoms, size) && IsStorage(after, size) && |after| == |atoms|
    requires start < |atoms| * size && 0 <= start / size < |atoms|
    requires j < |atoms| * size && FirstZero(Bits(atoms, size), start, j) && 0 <= j / size <= start / size + 1
    requires Incremented(atoms, after, size, start, j) && k < |after| && i < size
    ensures after[k][i] == if start <= k * size + i < j then false else if k * size + i == j then true else atoms[k][i]
  {
    hide Bits, Ripple, FirstZero;
    FirstZeroInAtoms(atoms, size, start, j);
    var a0, z, o := start / size, j / size, j % size;
    BelowStart(k, i, size, start);
    BelowStart(k, i, size, j);
    DivMod(j, size);
    if k == a0 {
      RippleBit(atoms[a0], start % size, if z == a0 then o else size, i);
    } else if k == a0 + 1 {
      if z == a0 + 1 {
        RippleBit(atoms[a0 + 1], 0, o, i);
      }
    }
    SameBit(k, i, size, j);
  }

  lemma SameBit(k: nat, i: nat, size: nat, j: nat)
    requires size > 0 && i < size
    ensures k * size + i == j <==> k == j / size && i == j % size
  {
    DivMod(j, size);
    if k * size + i == j {
      DivModUnique(j, size, k, i);
    }
  }

  // An addition in one atom, with the carry into the next, is an addition in
  // the block.
  lemma {:induction false} IncrementMeans(atoms: seq<Atom>, after: seq<Atom>, size: nat, start: nat, j: nat)
    requires IsStorage(atoms, size) && IsStorage(after, size) && |after| == |atoms|
    requires start < |atoms| * size && 0 <= start / size < |atoms|
    requires j < |atoms| * size && FirstZero(Bits(atoms, size), start, j) && 0 <= j / size <= start / size + 1
    requires Incremented(atoms, after, size, start, j)
    ensures Bits(after, size) == Ripple(Bits(atoms, size), start)
  {
    hide Bits, Ripple, Incremented, FirstZero;
    var bits := Bits(atoms, size);
    forall k: nat, i: nat | k < |after| && i < size
      ensures InBits(k, i, size, |Ripple(bits, start)|) && after[k][i] == Ripple(bits, start)[k * size + i]
    {
      OldBit(atoms, size, k, i);
      RippleBit(bits, start, j, k * size + i);
      IncrementedBit(atoms, after, size, start, j, k, i);
    }
    BitsAreIs(after, size, Ripple(bits, start));
  }

  // The run of ones in terms of the atoms.
  lemma {:induction false} FirstZeroInAtoms(atoms: seq<Atom>, size: nat, start: nat, j: nat)
    requires IsStorage(atoms, size) && start < |atoms| * size && j < |atoms| * size
    requires FirstZero(Bits(atoms, size), start, j) && 0 <= start / size < |atoms| && 0 <= j / size <= start / size + 1
    ensures start / size <= j / size < |atoms|
    ensures FirstZero(atoms[start / size], start % size, if j / size == start / size then j % size else size)
    ensures j / size == start / size + 1 ==> FirstZero(atoms[j / size], 0, j % size)
  {
    hide Bits;
    var a0, z := start / size, j / size;
    AtomOfBit(atoms, size, j);
    AtomOfBit(atoms, size, start);
    DivMono(start, j, size);
    forall i: nat | start % size <= i < (if z == a0 then j % size else size)
      ensures atoms[a0][i]
    {
      OldBit(atoms, size, a0, i);
      BelowStart(a0, i, size, j);
      BelowStart(a0, i, size, start);
    }
    if z == a0 + 1 {
      forall i: nat | i < j % size
        ensures atoms[z][i]
      {
        OldBit(atoms, size, z, i);
        BelowStart(z, i, size, j);
        BelowStart(z, i, size, start);
      }
    }
  }

  // ----- the class -----

  class PackedBlock {
    const size: nat
    const atomsPerBlock: nat
    // one atom more than the block has, for operations that touch the next atom
    const storage: array<Atom>

    ghost predicate Valid()
      reads storage
    {
      size > 1 && storage.Length == atomsPerBlock + 1 && IsStorage(storage[..], size)
    }

    // The bits of the block.
    ghost function Content(): (b: seq<bool>)
      requires Valid()
      reads storage
      ensures |b| == atomsPerBlock * size
    {
      Bits(storage[..atomsPerBlock], size)
    }

    constructor (size_: nat, atoms: nat)
      requires size_ > 1
      ensures Valid() && size == size_ && atomsPerBlock == atoms && fresh(storage)
      ensures forall k | 0 <= k <= atoms :: storage[k] == seq(size_, i => false)
    {
      size := size_;
      atomsPerBlock := atoms;
      storage := new Atom[atoms + 1](k => seq(size_, i => false));
    }

    // Overwrites a field, across an atom boundary or not.
    method AddCross(start: nat, width: nat, item: Atom)
      requires Valid() && 0 < width < size && |item| == size && Fits(item, width)
      requires start + width <= atomsPerBlock * size
      modifies storage
      ensures Valid() && Content() == Overwritten(old(Content()), start, width, item)
      ensures storage[atomsPerBlock] == old(storage[atomsPerBlock])
    {
      hide Bits, Overwritten, WithLower, WithUpper, ShiftLeft, ShiftRight, BitAnd, BitOr, BitNot, LowMask, Fits;
      ghost var before := storage[..];
      SpilloverFits(start, width, size);
      AtomsInside(start, width);
      var atom0 := start / size;
      var atom1 := (start + width) / size;
      var spillover := if atom1 != atom0 then (start + width) % size else 0;
      var mask := LowMask(size, width);
      var offset := start % size;
      storage[atom0] := BitAnd(storage[atom0], BitNot(ShiftLeft(mask, offset)));
      var shiftedMask := ShiftRight(mask, width - spillover);
      storage[atom1] := BitAnd(storage[atom1], BitNot(shiftedMask));
      storage[atom0] := BitOr(storage[atom0], ShiftLeft(item, offset));
      storage[atom1] := BitOr(storage[atom1], ShiftRight(item, width - spillover));
      WithParts(before[atom0], before[atom1], offset, spillover, width, item);
      OverwriteMeans(before, storage[..], size, start, width, item);
      BitsPrefix(before, size, atomsPerBlock);
      BitsPrefix(storage[..], size, atomsPerBlock);
      assert before[..atomsPerBlock] == old(storage[..atomsPerBlock]);
      assert storage[..][..atomsPerBlock] == storage[..atomsPerBlock];
      OverwrittenPrefix(Bits(before, size), start, width, item, atomsPerBlock * size);
      PaddingKept(before, storage[..], start, width, item);
    }

    lemma AtomsInside(start: nat, width: nat)
      requires size > 0 && 0 < width < size && start + width <= atomsPerBlock * size
      ensures 0 <= start / size < atomsPerBlock && 0 <= (start + width) / size < atomsPerBlock + 1
      ensures atomsPerBlock * size <= (atomsPerBlock + 1) * size
    {
      MulAdd(atomsPerBlock, 1, size);
      DivUpper(start, size, atomsPerBlock);
      DivUpper(start + width, size, atomsPerBlock + 1);
      DivNonNeg(start, size);
      DivNonNeg(start + width, size);
    }

    // Nothing is left behind in the padding atom.
    lemma PaddingKept(before: seq<Atom>, after: seq<Atom>, start: nat, width: nat, item: Atom)
      requires size > 0 && |before| == |after| == atomsPerBlock + 1 && IsStorage(before, size) && IsStorage(after, size)
      requires 0 < width < size && width <= |item| && start + width <= atomsPerBlock * size <= |before| * size
      requires Bits(after, size) == Overwritten(Bits(before, size), start, width, item)
      ensures after[atomsPerBlock] == before[atomsPerBlock]
    {
      OverwrittenPrefix(Bits(before, size), start, width, item, atomsPerBlock * size);
      forall i: nat | i < size
        ensures after[atomsPerBlock][i] == before[atomsPerBlock][i]
      {
        BitOfAtom(before, size, atomsPerBlock, i);
        BitOfAtom(after, size, atomsPerBlock, i);
        OverwrittenBit(Bits(before, size), start, width, item, atomsPerBlock * size + i);
      }
      assert after[atomsPerBlock] == before[atomsPerBlock];
      hide Bits, Overwritten;
    }

    // Keeps the bits below the start and takes the others from the shifted copy.
    method Merge(shifted: array<Atom>, start: nat)
      requires Valid() && shifted != storage && shifted.Length == atomsPerBlock
      requires forall k | 0 <= k < atomsPerBlock :: |shifted[k]| == size
      modifies storage
      ensures Valid() && storage[atomsPerBlock] == old(storage[atomsPerBlock])
      ensures forall k: nat | k < atomsPerBlock ::
                MergedAtom(old(storage[..])[k], shifted[k], storage[k], size, start, k)
    {
      hide ShiftLeft, ShiftRight, BitOr, BitAnd, BitNot, LowMask, Blend;
      ghost var before := storage[..];
      var atom0 := start / size;
      DivNonNeg(start, size);
      var offset := start % size;
      var full, none := LowMask(size, size), LowMask(size, 0);
      for atom := 0 to atomsPerBlock
        invariant Valid() && storage[atomsPerBlock] == before[atomsPerBlock]
        invariant forall k: nat | k < atom :: MergedAtom(before[k], shifted[k], storage[k], size, start, k)
        invariant forall k | atom <= k < atomsPerBlock :: storage[k] == before[k]
      {
        var alternate := if atom == atom0 then LowMask(size, offset) else full;
        var clear := if atom > atom0 then none else alternate;
        MaskCases(storage[atom], shifted[atom], size);
        storage[atom] := BitAnd(storage[atom], clear);
        storage[atom] := BitOr(storage[atom], BitAnd(BitNot(clear), shifted[atom]));
        BlendIs(before[atom], shifted[atom], clear);
      }
    }

    // Blends the first atom and copies the ones behind.
    method MergeV2(shifted: array<Atom>, start: nat)
      requires Valid() && shifted != storage && shifted.Length == atomsPerBlock && 0 <= start / size < atomsPerBlock
      requires forall k | 0 <= k < atomsPerBlock :: |shifted[k]| == size
      modifies storage
      ensures Valid() && storage[atomsPerBlock] == old(storage[atomsPerBlock])
      ensures forall k: nat | k < atomsPerBlock ::
                MergedAtom(old(storage[..])[k], shifted[k], storage[k], size, start, k)
    {
      hide ShiftLeft, ShiftRight, BitOr, BitAnd, BitNot, LowMask, Blend;
      ghost var before := storage[..];
      var atom0 := start / size;
      var mask := LowMask(size, start % size);
      storage[atom0] := BitAnd(storage[atom0], mask);
      storage[atom0] := BitOr(storage[atom0], BitAnd(BitNot(mask), shifted[atom0]));
      BlendIs(before[atom0], shifted[atom0], mask);
      for atom := atom0 + 1 to atomsPerBlock
        invariant Valid() && storage[atomsPerBlock] == before[atomsPerBlock]
        invariant forall k: nat | k < atom :: MergedAtom(before[k], shifted[k], storage[k], size, start, k)
        invariant forall k | atom <= k < atomsPerBlock :: storage[k] == before[k]
      {
        storage[atom] := shifted[atom];
      }
    }

    // Shifts an element in at start: everything behind moves up, the last
    // field falls off the end.
    method AddCrossLeftDisplace(start: nat, width: nat, item: Atom)
      requires Valid() && 0 < width < size && |item| == size && Fits(item, width)
      requires start + width <= atomsPerBlock * size
      modifies storage
      ensures Valid() && Content() == ShiftedIn(old(Content()), start, width, item)
      ensures storage[atomsPerBlock] == old(storage[atomsPerBlock])
    {
      hide Bits, Overwritten, ShiftedIn, MovedUp, UpAtom, MergedAtom, Fits;
      ghost var before := storage[..atomsPerBlock];
      var shifted := ShiftUp(width);
      Merge(shifted, start);
      MergedUp(before, storage[..atomsPerBlock], size, start, width);
      AddCross(start, width, item);
      MovedUpThenWritten(Bits(before, size), start, width, item);
    }

    // The simpler version: blends the first atom and copies the ones behind.
    method AddCrossLeftDisplaceV2(start: nat, width: nat, item: Atom)
      requires Valid() && 0 < width < size && |item| == size && Fits(item, width)
      requires start + width <= atomsPerBlock * size
      modifies storage
      ensures Valid() && Content() == ShiftedIn(old(Content()), start, width, item)
      ensures storage[atomsPerBlock] == old(storage[atomsPerBlock])
    {
      hide Bits, Overwritten, ShiftedIn, MovedUp, UpAtom, MergedAtom, Fits;
      ghost var before := storage[..atomsPerBlock];
      var shifted := ShiftUp(width);
      AtomsInside(start, width);
      MergeV2(shifted, start);
      MergedUp(before, storage[..atomsPerBlock], size, start, width);
      AddCross(start, width, item);
      MovedUpThenWritten(Bits(before, size), start, width, item);
    }

    // A copy of the block, shifted up by one field.
    method ShiftUp(width: nat) returns (shifted: array<Atom>)
      requires Valid() && 0 < width < size
      ensures fresh(shifted) && shifted.Length == atomsPerBlock
      ensures forall k: nat | k < atomsPerBlock :: shifted[k] == UpAtom(storage[..atomsPerBlock], size, width, k)
    {
      hide ShiftLeft, ShiftRight, BitOr, UpAtom, IsStorage;
      ghost var before := storage[..atomsPerBlock];
      StorageMeans(storage[..], size);
      StorageMeans(before, size);
      shifted := new Atom[atomsPerBlock](k => []);
      for atom := 0 to atomsPerBlock
        invariant storage[..] == old(storage[..])
        invariant forall k | 0 <= k < atom :: shifted[k] == ShiftLeft(before[k], width)
      {
        shifted[atom] := ShiftLeft(storage[atom], width);
      }
      if atomsPerBlock > 0 {
        UpAtomIs(before, size, width, 0);
        for atom := 1 to atomsPerBlock
          invariant storage[..] == old(storage[..])
          invariant forall k: nat | k < atom :: shifted[k] == UpAtom(before, size, width, k)
          invariant forall k | atom <= k < atomsPerBlock :: shifted[k] == ShiftLeft(before[k], width)
        {
          UpAtomIs(before, size, width, atom);
          shifted[atom] := BitOr(shifted[atom], ShiftRight(storage[atom - 1], size - width));
        }
      }
    }

    // Shifts the element at start out: everything behind moves down.
    method DelCrossRightDisplace(start: nat, width: nat)
      requires Valid() && 0 < width < size && start + width <= atomsPerBlock * size
      modifies storage
      ensures Valid() && Content() == ShiftedOut(old(Content()), start, width)
      ensures storage[atomsPerBlock] == old(storage[atomsPerBlock])
    {
      hide Bits, ShiftedOut, DownAtom, MergedAtom;
      ghost var before := storage[..atomsPerBlock];
      var shifted := ShiftDown(width);
      Merge(shifted, start);
      MergedDown(before, storage[..atomsPerBlock], size, start, width);
    }

    method ShiftDown(width: nat) returns (shifted: array<Atom>)
      requires Valid() && 0 < width < size
      ensures fresh(shifted) && shifted.Length == atomsPerBlock
      ensures forall k: nat | k < atomsPerBlock :: shifted[k] == DownAtom(storage[..atomsPerBlock], size, width, k)
    {
      hide ShiftLeft, ShiftRight, BitOr;
      ghost var before := storage[..atomsPerBlock];
      shifted := new Atom[atomsPerBlock](k => []);
      for atom := 0 to atomsPerBlock
        invariant storage[..] == old(storage[..])
        invariant forall k | 0 <= k < atom :: shifted[k] == ShiftRight(before[k], width)
      {
        shifted[atom] := ShiftRight(storage[atom], width);
      }
      if atomsPerBlock > 0 {
        for atom := 1 to atomsPerBlock
          invariant storage[..] == old(storage[..])
          invariant forall k: nat | k + 1 < atom :: shifted[k] == DownAtom(before, size, width, k)
          invariant forall k | atom - 1 <= k < atomsPerBlock :: shifted[k] == ShiftRight(before[k], width)
        {
          shifted[atom - 1] := BitOr(shifted[atom - 1], ShiftLeft(storage[atom], size - width));
        }
      }
    }

    // Sets a bit that is never cleared again; the value 0 changes nothing.
    method StickySetBit(g: nat, value: bool)
      requires Valid() && g < atomsPerBlock * size
      modifies storage
      ensures Valid() && Content() == old(Content())[g := old(Content())[g] || value]
      ensures storage[atomsPerBlock] == old(storage[atomsPerBlock])
    {
      hide Bits, BitOr;
      ghost var before := storage[..atomsPerBlock];
      AtomOfBit(before, size, g);
      var atom := g / size;
      var offset := g % size;
      var a := storage[atom];
      storage[atom] := BitOr(a, ShiftLeft(seq(size, i => i == 0 && value), offset));
      SetBitMeans(a, offset, value);
      ghost var bits := Bits(before, size)[g := Bits(before, size)[g] || value];
      ghost var after := storage[..atomsPerBlock];
      forall k: nat, i: nat | k < atomsPerBlock && i < size
        ensures InBits(k, i, size, |bits|) && after[k][i] == bits[k * size + i]
      {
        OldBit(before, size, k, i);
        SameBit(k, i, size, g);
      }
      BitsAreIs(after, size, bits);
    }

    // Adds one to a field that is not all ones; the carry may cross into the
    // next atom.
    method IncCross(start: nat, width: nat)
      requires Valid() && 0 < width < size && start + width <= atomsPerBlock * size
      requires exists j | start <= j < start + width :: !Content()[j]
      modifies storage
      ensures Valid() && storage[atomsPerBlock] == old(storage[atomsPerBlock])
      ensures Content() == old(Content())[..start] + Ripple(old(Content())[start..start + width], 0)
                           + old(Content())[start + width..]
      ensures Num(Content()[start..start + width]) == Num(old(Content())[start..start + width]) + 1
    {
      hide Bits, Ripple, Num;
      ghost var before := storage[..atomsPerBlock];
      ghost var bits := Content();
      ghost var j := FindZero(bits, start);
      AtomsInside(start, width);
      FirstZeroNear(size, atomsPerBlock, start, width, j);
      FirstZeroInAtoms(before, size, start, j);
      var atom := start / size;
      var counterLsb := start % size;
      RippleBit(before[atom], counterLsb, if j / size == atom then j % size else size, size - 1);
      var msb := storage[atom][size - 1];
      storage[atom] := Ripple(storage[atom], counterLsb);
      var msbAfterInc := storage[atom][size - 1];
      var carry := msb && !msbAfterInc;
      if carry {
        storage[atom + 1] := Ripple(storage[atom + 1], 0);
      }
      IncrementMeans(before, storage[..atomsPerBlock], size, start, j);
      RippleInField(bits, start, width, j);
      assert Content()[start..start + width] == Ripple(bits[start..start + width], 0);
    }
  }

  lemma SetBitMeans(a: Atom, o: nat, value: bool)
    requires o < |a|
    ensures BitOr(a, ShiftLeft(seq(|a|, i => i == 0 && value), o)) == a[o := a[o] || value]
  {
    var r, e := BitOr(a, ShiftLeft(seq(|a|, i => i == 0 && value), o)), a[o := a[o] || value];
    forall i: nat | i < |a|
      ensures r[i] == e[i]
    {
    }
    assert r == e;
  }

  // A zero inside the field is in the first atom of the field or the next one.
  lemma FirstZeroNear(size: nat, n: nat, start: nat, width: nat, j: nat)
    requires 0 < width < size && start <= j < start + width <= n * size
    ensures 0 <= start / size <= j / size <= start / size + 1 && j / size < n && j < n * size
  {
    DivMono(start, j, size);
    DivMono(j, start + width, size);
    SpilloverFits(start, width, size);
    DivNonNeg(start, size);
    DivUpper(j, size, n);
  }

  lemma BlendIs(a: Atom, b: Atom, mask: Atom)
    requires |a| == |b| == |mask|
    ensures BitOr(BitAnd(a, mask), BitAnd(BitNot(mask), b)) == Blend(a, b, mask)
  {
    hide BitOr, BitAnd, BitNot;
  }

  // The full mask preserves an atom, the empty one replaces it.
  lemma MaskCases(a: Atom, b: Atom, size: nat)
    requires |a| == |b| == size
    ensures Blend(a, b, LowMask(size, size)) == a
    ensures Blend(a, b, LowMask(size, 0)) == b
  {
  }

  // The assignments of the source, in the order of the source.
  lemma WithParts(x: Atom, y: Atom, o: nat, spillover: nat, width: nat, item: Atom)
    requires |x| == |y| == |item| && spillover <= width
    ensures BitOr(BitAnd(x, BitNot(ShiftLeft(LowMask(|x|, width), o))), ShiftLeft(item, o)) == WithLower(x, o, width, item)
    ensures BitOr(BitAnd(y, BitNot(ShiftRight(LowMask(|y|, width), width - spillover))), ShiftRight(item, width - spillover))
            == WithUpper(y, spillover, width, item)
    ensures BitOr(BitOr(BitAnd(BitAnd(x, BitNot(ShiftLeft(LowMask(|x|, width), o))),
                               BitNot(ShiftRight(LowMask(|x|, width), width))), ShiftLeft(item, o)), ShiftRight(item, width))
            == WithUpper(WithLower(x, o, width, item), 0, width, item)
  {
  }
}