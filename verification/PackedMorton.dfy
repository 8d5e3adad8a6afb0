/** Packed blocks of a Morton filter: counters, overflow bits and fingerprints in
    one bit array. Every word-level operation on the packed block refines the
    corresponding operation on lists in the table model. */
module PackedMorton {
  import opened Arith
  import opened BlockStore
  import opened MortonTable

  // Widths and counts; the three arrays follow one another.
  datatype Layout = Layout(buckets: nat, counterBits: nat, otaBits: nat, fingerprintBits: nat, capacity: nat)

  function OtaOffset(l: Layout): nat {
    FieldStart(0, l.counterBits, l.buckets)
  }

  function FingerprintOffset(l: Layout): nat {
    OtaOffset(l) + l.otaBits
  }

  function Field(bits: seq<bool>, offset: nat, width: nat, index: nat): seq<bool>
    requires FieldStart(offset, width, index) + width <= |bits|
  {
    bits[FieldStart(offset, width, index)..FieldStart(offset, width, index) + width]
  }

  // Fields follow one another.
  lemma FieldOrder(offset: nat, width: nat, i: nat, j: nat)
    requires i < j
    ensures offset <= FieldStart(offset, width, i)
    ensures FieldStart(offset, width, i) + width == FieldStart(offset, width, i + 1) <= FieldStart(offset, width, j)
  {
    MulNonNeg(i, width);
    MulAdd(i, 1, width);
    MulLe(i + 1, j, width);
  }

  ghost predicate FitsBlock(l: Layout, bits: seq<bool>) {
    FieldStart(FingerprintOffset(l), l.fingerprintBits, l.capacity) <= |bits|
  }

  lemma CounterInside(l: Layout, bits: seq<bool>, i: nat)
    requires FitsBlock(l, bits) && i < l.buckets
    ensures FieldStart(0, l.counterBits, i) + l.counterBits <= OtaOffset(l) <= FingerprintOffset(l) <= |bits|
  {
    FieldOrder(0, l.counterBits, i, l.buckets);
    MulNonNeg(l.capacity, l.fingerprintBits);
  }

  lemma HeaderInside(l: Layout, bits: seq<bool>)
    requires FitsBlock(l, bits)
    ensures FingerprintOffset(l) <= |bits|
  {
    MulNonNeg(l.capacity, l.fingerprintBits);
  }

  lemma FingerprintInside(l: Layout, bits: seq<bool>, j: nat)
    requires FitsBlock(l, bits) && j < l.capacity
    ensures FingerprintOffset(l) <= FieldStart(FingerprintOffset(l), l.fingerprintBits, j)
    ensures FieldStart(FingerprintOffset(l), l.fingerprintBits, j) + l.fingerprintBits <= |bits|
  {
    FieldOrder(FingerprintOffset(l), l.fingerprintBits, j, l.capacity);
  }

  ghost predicate CounterIs(l: Layout, bits: seq<bool>, i: nat, v: nat)
    requires FitsBlock(l, bits) && i < l.buckets
  {
    CounterInside(l, bits, i);
    Num(Field(bits, 0, l.counterBits, i)) == v
  }

  ghost predicate OtaBitIs(l: Layout, bits: seq<bool>, k: nat, v: bool)
    requires FitsBlock(l, bits) && k < l.otaBits
  {
    MulNonNeg(l.capacity, l.fingerprintBits);
    bits[OtaOffset(l) + k] == v
  }

  ghost predicate FingerprintIs(l: Layout, bits: seq<bool>, j: nat, f: nat)
    requires FitsBlock(l, bits) && j < l.capacity
  {
    FingerprintInside(l, bits, j);
    Num(Field(bits, FingerprintOffset(l), l.fingerprintBits, j)) == f
  }

  // The bits stand for the block of the table model.
  ghost predicate Represents(l: Layout, bits: seq<bool>, b: Block) {
    && FitsBlock(l, bits)
    && |b.counters| == l.buckets && |b.ota| == l.otaBits && |b.fps| <= l.capacity
    && (forall i: nat | i < l.buckets :: CounterIs(l, bits, i, b.counters[i]))
    && (forall k: nat | k < l.otaBits :: OtaBitIs(l, bits, k, b.ota[k]))
    && (forall j: nat | j < |b.fps| :: FingerprintIs(l, bits, j, b.fps[j]))
  }

  // ----- slices of the changed bits -----

  lemma ShiftedInBelow(bits: seq<bool>, start: nat, width: nat, item: Atom, lo: nat, hi: nat)
    requires start + width <= |bits| && width <= |item| && lo <= hi <= start
    ensures ShiftedIn(bits, start, width, item)[lo..hi] == bits[lo..hi]
  {
  }

  lemma ShiftedInAt(bits: seq<bool>, start: nat, width: nat, item: Atom)
    requires start + width <= |bits| && width <= |item|
    ensures ShiftedIn(bits, start, width, item)[start..start + width] == item[..width]
  {
  }

  lemma ShiftedInAbove(bits: seq<bool>, start: nat, width: nat, item: Atom, lo: nat, hi: nat)
    requires start + width <= |bits| && width <= |item| && start <= lo <= hi && hi + width <= |bits|
    ensures ShiftedIn(bits, start, width, item)[lo + width..hi + width] == bits[lo..hi]
  {
    assert forall k | lo <= k < hi :: ShiftedIn(bits, start, width, item)[k + width] == bits[k];
    var moved := ShiftedIn(bits, start, width, item)[lo + width..hi + width];
    assert forall k | 0 <= k < hi - lo :: moved[k] == bits[lo..hi][k];
  }

  lemma ShiftedOutBelow(bits: seq<bool>, start: nat, width: nat, lo: nat, hi: nat)
    requires start + width <= |bits| && lo <= hi <= start
    ensures ShiftedOut(bits, start, width)[lo..hi] == bits[lo..hi]
  {
  }

  lemma ShiftedOutAbove(bits: seq<bool>, start: nat, width: nat, lo: nat, hi: nat)
    requires start + width <= lo <= hi <= |bits|
    ensures ShiftedOut(bits, start, width)[lo - width..hi - width] == bits[lo..hi]
  {
  }

  lemma OverwrittenApart(bits: seq<bool>, start: nat, width: nat, item: Atom, lo: nat, hi: nat)
    requires start + width <= |bits| && width <= |item| && lo <= hi <= |bits| && (hi <= start || start + width <= lo)
    ensures Overwritten(bits, start, width, item)[lo..hi] == bits[lo..hi]
  {
  }

  lemma OverwrittenAt(bits: seq<bool>, start: nat, width: nat, item: Atom)
    requires start + width <= |bits| && width <= |item|
    ensures Overwritten(bits, start, width, item)[start..start + width] == item[..width]
  {
  }

  // ----- refinement -----

  // What lies below the fingerprints stays when bits there stay.
  lemma HeaderKept(l: Layout, bits: seq<bool>, after: seq<bool>, b: Block)
    requires Represents(l, bits, b) && |after| == |bits|
    requires FingerprintOffset(l) <= |bits| && after[..FingerprintOffset(l)] == bits[..FingerprintOffset(l)]
    ensures FitsBlock(l, after)
    ensures forall i: nat | i < l.buckets :: CounterIs(l, after, i, b.counters[i])
    ensures forall k: nat | k < l.otaBits :: OtaBitIs(l, after, k, b.ota[k])
  {
    hide Num, FieldStart, FingerprintIs;
    forall i: nat | i < l.buckets
      ensures CounterIs(l, after, i, b.counters[i])
    {
      assert CounterIs(l, bits, i, b.counters[i]);
      CounterInside(l, bits, i);
      SameSlice(bits, after, FingerprintOffset(l), FieldStart(0, l.counterBits, i), l.counterBits);
    }
    forall k: nat | k < l.otaBits
      ensures OtaBitIs(l, after, k, b.ota[k])
    {
      assert OtaBitIs(l, bits, k, b.ota[k]);
      assert after[..FingerprintOffset(l)][OtaOffset(l) + k] == bits[..FingerprintOffset(l)][OtaOffset(l) + k];
    }
  }

  lemma SameSlice(a: seq<bool>, b: seq<bool>, m: nat, lo: nat, n: nat)
    requires m <= |a| && m <= |b| && a[..m] == b[..m] && lo + n <= m
    ensures a[lo..lo + n] == b[lo..lo + n]
  {
    assert a[..m][lo..lo + n] == a[lo..lo + n];
    assert b[..m][lo..lo + n] == b[lo..lo + n];
  }

  // Shifting a fingerprint in is inserting into the list of fingerprints.
  lemma LeftDisplaceRefines(l: Layout, bits: seq<bool>, b: Block, at: nat, item: Atom)
    requires Represents(l, bits, b) && at <= |b.fps| < l.capacity && l.fingerprintBits <= |item|
    ensures var start := FieldStart(FingerprintOffset(l), l.fingerprintBits, at);
            && start + l.fingerprintBits <= |bits|
            && Represents(l, ShiftedIn(bits, start, l.fingerprintBits, item),
                          WriteLeftDisplace(b, at, Num(item[..l.fingerprintBits])))
  {
    hide Num, FieldStart, ShiftedIn, CounterIs, OtaBitIs;
    var off, w := FingerprintOffset(l), l.fingerprintBits;
    var start := FieldStart(off, w, at);
    FingerprintInside(l, bits, at);
    var after, u := ShiftedIn(bits, start, w, item), WriteLeftDisplace(b, at, Num(item[..w]));
    ShiftedInBelow(bits, start, w, item, 0, off);
    HeaderKept(l, bits, after, b);
    forall j: nat | j < |u.fps|
      ensures FingerprintIs(l, after, j, u.fps[j])
    {
      FingerprintInside(l, bits, j);
      if j < at {
        assert FingerprintIs(l, bits, j, b.fps[j]);
        FieldOrder(off, w, j, at);
        ShiftedInBelow(bits, start, w, item, FieldStart(off, w, j), FieldStart(off, w, j) + w);
      } else if j == at {
        ShiftedInAt(bits, start, w, item);
      } else {
        assert FingerprintIs(l, bits, j - 1, b.fps[j - 1]);
        FingerprintInside(l, bits, j - 1);
        FieldOrder(off, w, j - 1, j);
        if at < j - 1 {
          FieldOrder(off, w, at, j - 1);
        }
        ShiftedInAbove(bits, start, w, item, FieldStart(off, w, j - 1), FieldStart(off, w, j - 1) + w);
      }
    }
  }

  // Shifting one out is removing from the list.
  lemma RightDisplaceRefines(l: Layout, bits: seq<bool>, b: Block, at: nat)
    requires Represents(l, bits, b) && at < |b.fps|
    ensures var start := FieldStart(FingerprintOffset(l), l.fingerprintBits, at);
            && start + l.fingerprintBits <= |bits|
            && Represents(l, ShiftedOut(bits, start, l.fingerprintBits), DeleteRightDisplace(b, at))
  {
    hide Num, FieldStart, ShiftedOut, CounterIs, OtaBitIs;
    var off, w := FingerprintOffset(l), l.fingerprintBits;
    var start := FieldStart(off, w, at);
    FingerprintInside(l, bits, at);
    var after, u := ShiftedOut(bits, start, w), DeleteRightDisplace(b, at);
    ShiftedOutBelow(bits, start, w, 0, off);
    HeaderKept(l, bits, after, b);
    forall j: nat | j < |u.fps|
      ensures FingerprintIs(l, after, j, u.fps[j])
    {
      FingerprintInside(l, bits, j);
      if j < at {
        assert FingerprintIs(l, bits, j, b.fps[j]);
        FieldOrder(off, w, j, at);
        ShiftedOutBelow(bits, start, w, FieldStart(off, w, j), FieldStart(off, w, j) + w);
      } else {
        assert FingerprintIs(l, bits, j + 1, b.fps[j + 1]);
        FingerprintInside(l, bits, j + 1);
        FieldOrder(off, w, j, j + 1);
        FieldOrder(off, w, at, j + 1);
        ShiftedOutAbove(bits, start, w, FieldStart(off, w, j + 1), FieldStart(off, w, j + 1) + w);
      }
    }
  }

  // Overwriting a fingerprint replaces it in the list.
  lemma WriteRefines(l: Layout, bits: seq<bool>, b: Block, at: nat, item: Atom)
    requires Represents(l, bits, b) && at < |b.fps| && l.fingerprintBits <= |item|
    ensures var start := FieldStart(FingerprintOffset(l), l.fingerprintBits, at);
            && start + l.fingerprintBits <= |bits|
            && Represents(l, Overwritten(bits, start, l.fingerprintBits, item),
                          WriteFingerprint(b, at, Num(item[..l.fingerprintBits])))
  {
    hide Num, FieldStart, Overwritten, CounterIs, OtaBitIs;
    var off, w := FingerprintOffset(l), l.fingerprintBits;
    var start := FieldStart(off, w, at);
    FingerprintInside(l, bits, at);
    var after, u := Overwritten(bits, start, w, item), WriteFingerprint(b, at, Num(item[..w]));
    OverwrittenApart(bits, start, w, item, 0, off);
    HeaderKept(l, bits, after, b);
    forall j: nat | j < |u.fps|
      ensures FingerprintIs(l, after, j, u.fps[j])
    {
      FingerprintInside(l, bits, j);
      if j == at {
        OverwrittenAt(bits, start, w, item);
      } else {
        assert FingerprintIs(l, bits, j, b.fps[j]);
        if j < at {
          FieldOrder(off, w, j, at);
        } else {
          FieldOrder(off, w, at, j);
        }
        OverwrittenApart(bits, start, w, item, FieldStart(off, w, j), FieldStart(off, w, j) + w);
      }
    }
  }

  // Bits that change within one counter only set that counter.
  lemma CounterRefines(l: Layout, bits: seq<bool>, after: seq<bool>, b: Block, i: nat, v: nat)
    requires Represents(l, bits, b) && i < l.buckets && |after| == |bits|
    requires FieldStart(0, l.counterBits, i) + l.counterBits <= |bits|
    requires var s := FieldStart(0, l.counterBits, i);
             && after[..s] == bits[..s] && after[s + l.counterBits..] == bits[s + l.counterBits..]
             && Num(after[s..s + l.counterBits]) == v
    ensures Represents(l, after, SetCounter(b, i, v))
  {
    hide Num, FieldStart;
    var w := l.counterBits;
    var s := FieldStart(0, w, i);
    CounterInside(l, bits, i);
    forall x: nat | x < l.buckets
      ensures CounterIs(l, after, x, SetCounter(b, i, v).counters[x])
    {
      CounterInside(l, bits, x);
      if x != i {
        assert CounterIs(l, bits, x, b.counters[x]);
        if x < i {
          FieldOrder(0, w, x, i);
        } else {
          FieldOrder(0, w, i, x);
        }
        KeptApart(bits, after, s, w, FieldStart(0, w, x), w);
      }
    }
    forall k: nat | k < l.otaBits
      ensures OtaBitIs(l, after, k, b.ota[k])
    {
      assert OtaBitIs(l, bits, k, b.ota[k]);
      KeptApart(bits, after, s, w, OtaOffset(l) + k, 1);
      assert after[OtaOffset(l) + k..OtaOffset(l) + k + 1][0] == bits[OtaOffset(l) + k..OtaOffset(l) + k + 1][0];
    }
    forall j: nat | j < |b.fps|
      ensures FingerprintIs(l, after, j, b.fps[j])
    {
      assert FingerprintIs(l, bits, j, b.fps[j]);
      FingerprintInside(l, bits, j);
      KeptApart(bits, after, s, w, FieldStart(FingerprintOffset(l), l.fingerprintBits, j), l.fingerprintBits);
    }
  }

  lemma KeptApart(bits: seq<bool>, after: seq<bool>, s: nat, w: nat, lo: nat, n: nat)
    requires |after| == |bits| && s + w <= |bits| && lo + n <= |bits| && (lo + n <= s || s + w <= lo)
    requires after[..s] == bits[..s] && after[s + w..] == bits[s + w..]
    ensures after[lo..lo + n] == bits[lo..lo + n]
  {
    if lo + n <= s {
      SameSlice(bits, after, s, lo, n);
    } else {
      assert after[s + w..][lo - s - w..lo - s - w + n] == after[lo..lo + n];
      assert bits[s + w..][lo - s - w..lo - s - w + n] == bits[lo..lo + n];
    }
  }

  // Counting up in place, and overwriting a counter.
  lemma IncrementRefines(l: Layout, bits: seq<bool>, b: Block, i: nat)
    requires Represents(l, bits, b) && i < l.buckets
    requires FieldStart(0, l.counterBits, i) + l.counterBits <= |bits|
    requires var s := FieldStart(0, l.counterBits, i);
             Num(Ripple(bits[s..s + l.counterBits], 0)) == Num(bits[s..s + l.counterBits]) + 1
    ensures var s := FieldStart(0, l.counterBits, i);
            Represents(l, bits[..s] + Ripple(bits[s..s + l.counterBits], 0) + bits[s + l.counterBits..],
                       SetCounter(b, i, b.counters[i] + 1))
  {
    hide Num, FieldStart, Ripple, OtaBitIs, FingerprintIs;
    var s, w := FieldStart(0, l.counterBits, i), l.counterBits;
    var f := Ripple(bits[s..s + w], 0);
    var after := bits[..s] + f + bits[s + w..];
    assert CounterIs(l, bits, i, b.counters[i]);
    assert after[..s] == bits[..s] && after[s + w..] == bits[s + w..] && after[s..s + w] == f;
    CounterRefines(l, bits, after, b, i, b.counters[i] + 1);
  }

  lemma SetCounterRefines(l: Layout, bits: seq<bool>, b: Block, i: nat, item: Atom)
    requires Represents(l, bits, b) && i < l.buckets && l.counterBits <= |item|
    ensures var s := FieldStart(0, l.counterBits, i);
            && s + l.counterBits <= |bits|
            && Represents(l, Overwritten(bits, s, l.counterBits, item), SetCounter(b, i, Num(item[..l.counterBits])))
  {
    hide Num, FieldStart, OtaBitIs, FingerprintIs, CounterIs;
    CounterInside(l, bits, i);
    var s, w := FieldStart(0, l.counterBits, i), l.counterBits;
    var after := Overwritten(bits, s, w, item);
    assert after[..s] == bits[..s] && after[s + w..] == bits[s + w..];
    OverwrittenAt(bits, s, w, item);
    CounterRefines(l, bits, after, b, i, Num(item[..w]));
  }

  // A sticky bit set in the overflow array.
  lemma SetBitRefines(l: Layout, bits: seq<bool>, b: Block, k: nat)
    requires Represents(l, bits, b) && k < l.otaBits
    ensures OtaOffset(l) + k < |bits|
    ensures Represents(l, bits[OtaOffset(l) + k := true], SetOverflow(b, k))
  {
    hide Num, FieldStart;
    HeaderInside(l, bits);
    var after := bits[OtaOffset(l) + k := true];
    forall i: nat | i < l.buckets
      ensures CounterIs(l, after, i, b.counters[i])
    {
      assert CounterIs(l, bits, i, b.counters[i]);
      CounterInside(l, bits, i);
    }
    forall j: nat | j < |b.fps|
      ensures FingerprintIs(l, after, j, b.fps[j])
    {
      assert FingerprintIs(l, bits, j, b.fps[j]);
      FingerprintInside(l, bits, j);
      assert after[FieldStart(FingerprintOffset(l), l.fingerprintBits, j)..FieldStart(FingerprintOffset(l), l.fingerprintBits, j) + l.fingerprintBits]
          == bits[FieldStart(FingerprintOffset(l), l.fingerprintBits, j)..FieldStart(FingerprintOffset(l), l.fingerprintBits, j) + l.fingerprintBits];
    }
    forall x: nat | x < l.otaBits
      ensures OtaBitIs(l, after, x, SetOverflow(b, k).ota[x])
    {
      assert OtaBitIs(l, bits, x, b.ota[x]);
    }
  }
}
