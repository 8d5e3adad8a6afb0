/** Radix partitioning through small write buffers: the choice of a partition, the
    layout and the promised result, shared by the sequential and the parallel form. */
module Partition {
  import opened Arith

  // ----- choosing a partition -----

  // Bits needed to count up to a value.
  function NumberOfBits(value: nat): nat {
    if value == 0 then 0 else if value == 1 then 1 else FloorLog2(value - 1) + 1
  }

  function PartitioningMask(n: nat): nat {
    if n > 1 then Pow2(NumberOfBits(n)) - 1 else 0
  }

  function PartitionOf(x: nat, n: nat): nat {
    And(x, PartitioningMask(n))
  }

  // For a power of two of partitions the mask selects the remainder.
  lemma {:induction false} PartitionIsRemainder(x: nat, n: nat)
    requires IsPower(n)
    ensures n > 0 && PartitionOf(x, n) == x % n
  {
    var k: nat :| n == Pow2(k);
    AndMask(x, k);
    if k == 0 {
      assert n == 1 && PartitioningMask(1) == Pow2(0) - 1;
    } else if k == 1 {
      assert n == 2 && NumberOfBits(2) == 1;
    } else {
      Pow2StrictMono(1, k);
      assert Pow2(k) == 2 * Pow2(k - 1) && Pow2(k - 1) >= 2;
      FloorLog2Unique(n - 1, k - 1);
      assert NumberOfBits(n) == k;
    }
  }

  lemma PartitionInRange(x: nat, n: nat)
    requires IsPower(n)
    ensures PartitionOf(x, n) < n
  {
    PartitionIsRemainder(x, n);
    hide PartitionOf;
  }

  // The elements of partition p, in order.
  function Chosen(v: seq<nat>, n: nat, p: nat): seq<nat> {
    if v == [] then []
    else Chosen(v[..|v| - 1], n, p) + if PartitionOf(v[|v| - 1], n) == p then [v[|v| - 1]] else []
  }

  lemma {:induction false} ChosenAppend(a: seq<nat>, b: seq<nat>, n: nat, p: nat)
    ensures Chosen(a + b, n, p) == Chosen(a, n, p) + Chosen(b, n, p)
  {
    hide PartitionOf;
    if b == [] {
      assert a + b == a;
    } else {
      var m := |b| - 1;
      ChosenAppend(a, b[..m], n, p);
      assert (a + b)[..|a + b| - 1] == a + b[..m];
    }
  }

  lemma {:induction false} ChosenStep(v: seq<nat>, i: nat, n: nat, p: nat)
    requires i < |v|
    ensures Chosen(v[..i + 1], n, p) == Chosen(v[..i], n, p) + if PartitionOf(v[i], n) == p then [v[i]] else []
  {
    assert v[..i + 1][..i] == v[..i];
    hide PartitionOf;
  }

  // Prefixes choose less.
  lemma {:induction false} ChosenMono(v: seq<nat>, i: nat, j: nat, n: nat, p: nat)
    requires i <= j <= |v|
    ensures |Chosen(v[..i], n, p)| <= |Chosen(v[..j], n, p)|
  {
    assert v[..j] == v[..i] + v[i..j];
    ChosenAppend(v[..i], v[i..j], n, p);
    hide Chosen;
  }

  // What the layout promises of its users: every element is in exactly one
  // partition, the one that its remainder names.
  lemma {:induction false} ChosenMeans(v: seq<nat>, n: nat, p: nat, x: nat)
    requires IsPower(n)
    ensures n > 0 && multiset(Chosen(v, n, p))[x] == if x % n == p then multiset(v)[x] else 0
  {
    hide PartitionOf, IsPower;
    PartitionIsRemainder(x, n);
    if v != [] {
      ChosenMeans(v[..|v| - 1], n, p, x);
      PartitionIsRemainder(v[|v| - 1], n);
      assert v == v[..|v| - 1] + [v[|v| - 1]];
    }
  }

  // ----- the layout -----

  // Room for a partition: whole buffers, always one more than needed.
  function Padded(count: nat, capacity: nat): (r: nat)
    requires capacity > 0
  {
    DivNonNeg(count, capacity);
    MulNonNeg(count / capacity + 1, capacity);
    (count / capacity + 1) * capacity
  }

  lemma PaddedHolds(count: nat, capacity: nat, blocks: nat)
    requires capacity > 0
    ensures count < Padded(count, capacity)
    ensures blocks * capacity <= count ==> blocks * capacity + capacity <= Padded(count, capacity)
  {
    DivMod(count, capacity);
    MulAdd(count / capacity, 1, capacity);
    if blocks * capacity <= count {
      DivLower(count, capacity, blocks);
      MulAdd(blocks, 1, capacity);
      MulLe(blocks + 1, count / capacity + 1, capacity);
    }
  }

  function Offset(histogram: seq<nat>, capacity: nat, p: nat): nat
    requires capacity > 0 && p <= |histogram|
  {
    if p == 0 then 0 else Offset(histogram, capacity, p - 1) + Padded(histogram[p - 1], capacity)
  }

  // Regions of different partitions do not overlap.
  lemma {:induction false} OffsetApart(histogram: seq<nat>, capacity: nat, p: nat, q: nat)
    requires capacity > 0 && p < q <= |histogram|
    ensures Offset(histogram, capacity, p) + Padded(histogram[p], capacity) <= Offset(histogram, capacity, q)
  {
    hide Padded;
    if p + 1 < q {
      OffsetApart(histogram, capacity, p, q - 1);
    }
  }

  function Histogram(v: seq<nat>, n: nat): (h: seq<nat>)
    ensures |h| == n
  {
    seq(n, p requires 0 <= p < n => |Chosen(v, n, p)|)
  }

  // The specification of partitioning: all partitions in order, each in a
  // region of whole buffers, with the elements in input order.
  ghost predicate Partitioned(v: seq<nat>, n: nat, capacity: nat,
                              histogram: seq<nat>, offsets: seq<nat>, values: seq<nat>)
    requires capacity > 0
  {
    && histogram == Histogram(v, n) && |offsets| == n
    && |values| == Offset(histogram, capacity, n)
    && forall p: nat | p < n ::
         && offsets[p] == Offset(histogram, capacity, p)
         && offsets[p] + histogram[p] <= |values|
         && values[offsets[p]..offsets[p] + histogram[p]] == Chosen(v, n, p)
  }

  // Two layouts of the same input agree on everything but padding.
  lemma {:induction false} SameContents(v: seq<nat>, n: nat, capacity: nat, h: seq<nat>, o: seq<nat>, x: seq<nat>,
                                        h2: seq<nat>, o2: seq<nat>, y: seq<nat>, p: nat)
    requires capacity > 0 && p < n
    requires Partitioned(v, n, capacity, h, o, x) && Partitioned(v, n, capacity, h2, o2, y)
    ensures h == h2 && o == o2 && |x| == |y|
    ensures o[p] + h[p] <= |x| && x[o[p]..o[p] + h[p]] == y[o[p]..o[p] + h[p]]
  {
    hide Chosen, Offset, Histogram;
  }
}
