/** Sequential partitioning: count, lay out, scatter through one write buffer per
    partition. The last store of a partition writes the whole buffer, stale
    tuples included, into the padding. */
module SequentialPartition {
  import opened Arith
  import opened Partition

  // How far the elements q of one partition have got: whole buffers in the
  // region from base to start, the rest in the buffer.
  ghost predicate Scattered(values: seq<nat>, base: nat, start: nat, buffer: seq<nat>, used: nat,
                            capacity: nat, q: seq<nat>)
    requires capacity > 0
  {
    && base <= start <= |values| && used < capacity == |buffer|
    && (start - base) % capacity == 0
    && values[base..start] + buffer[..used] == q
  }

  // The values after a buffer has been stored.
  function AfterStore(values: seq<nat>, at: nat, buffer: seq<nat>): seq<nat>
    requires at + |buffer| <= |values|
  {
    values[..at] + buffer + values[at + |buffer|..]
  }

  lemma {:induction false} ScatteredPush(values: seq<nat>, base: nat, start: nat, buffer: seq<nat>, used: nat,
                                         capacity: nat, q: seq<nat>, x: nat)
    requires capacity > 0 && Scattered(values, base, start, buffer, used, capacity, q) && used + 1 < capacity
    ensures Scattered(values, base, start, buffer[used := x], used + 1, capacity, q + [x])
  {
    assert buffer[used := x][..used + 1] == buffer[..used] + [x];
  }

  lemma {:induction false} ScatteredStore(values: seq<nat>, base: nat, start: nat, buffer: seq<nat>, used: nat,
                                          capacity: nat, q: seq<nat>, x: nat)
    requires capacity > 0 && Scattered(values, base, start, buffer, used, capacity, q) && used + 1 == capacity
    requires start + capacity <= |values|
    ensures Scattered(AfterStore(values, start, buffer[used := x]), base, start + capacity, buffer[used := x], 0,
                      capacity, q + [x])
  {
    var b := buffer[used := x];
    assert b == buffer[..used] + [x];
    var after := AfterStore(values, start, b);
    assert after[base..start + capacity] == values[base..start] + b;
    AddMulDiv(start - base, 1, capacity);
  }

  // Stores elsewhere do not matter.
  lemma {:induction false} ScatteredFrame(values: seq<nat>, base: nat, start: nat, buffer: seq<nat>, used: nat,
                                          capacity: nat, q: seq<nat>, at: nat, stored: seq<nat>)
    requires capacity > 0 && Scattered(values, base, start, buffer, used, capacity, q)
    requires at + |stored| <= |values| && (at + |stored| <= base || start <= at)
    ensures Scattered(AfterStore(values, at, stored), base, start, buffer, used, capacity, q)
  {
    assert AfterStore(values, at, stored)[base..start] == values[base..start];
  }

  // A store stays inside the region of its partition.
  lemma {:induction false} ScatteredRoom(values: seq<nat>, base: nat, start: nat, buffer: seq<nat>, used: nat,
                                         capacity: nat, q: seq<nat>, count: nat)
    requires capacity > 0 && Scattered(values, base, start, buffer, used, capacity, q) && |q| <= count
    ensures start + capacity <= base + Padded(count, capacity)
    ensures base <= start <= |values| && used < capacity == |buffer|
    ensures |q| == start - base + used
  {
    DivMod(start - base, capacity);
    DivNonNeg(start - base, capacity);
    PaddedHolds(count, capacity, (start - base) / capacity);
    hide Padded;
  }

  // Storing the rest completes the partition.
  lemma {:induction false} ScatteredFlush(values: seq<nat>, base: nat, start: nat, buffer: seq<nat>, used: nat,
                                          capacity: nat, q: seq<nat>)
    requires capacity > 0 && Scattered(values, base, start, buffer, used, capacity, q)
    requires start + capacity <= |values|
    ensures base + |q| <= start + capacity
    ensures AfterStore(values, start, buffer)[base..base + |q|] == q
    ensures used == 0 ==> base + |q| <= |values| && values[base..base + |q|] == q
  {
    hide Padded;
    assert buffer == buffer[..used] + buffer[used..];
    var after := AfterStore(values, start, buffer);
    assert after[base..start + used] == values[base..start] + buffer[..used];
  }

  // Regions by partition number, inside the values.
  lemma {:induction false} Regions(histogram: seq<nat>, capacity: nat, p: nat, q: nat)
    requires capacity > 0 && p < |histogram| && q < |histogram|
    ensures p < q ==> Offset(histogram, capacity, p) + Padded(histogram[p], capacity) <= Offset(histogram, capacity, q)
    ensures q < p ==> Offset(histogram, capacity, q) + Padded(histogram[q], capacity) <= Offset(histogram, capacity, p)
    ensures Offset(histogram, capacity, p) + Padded(histogram[p], capacity)
            <= Offset(histogram, capacity, |histogram|)
  {
    if p < q {
      OffsetApart(histogram, capacity, p, q);
    } else if q < p {
      OffsetApart(histogram, capacity, q, p);
    }
    OffsetApart(histogram, capacity, p, |histogram|);
    hide Padded;
  }

  // All partitions at once.
  datatype Progress = Progress(offsets: seq<nat>, startPos: seq<nat>, buffers: seq<seq<nat>>, used: seq<nat>)

  ghost predicate Sized(g: Progress, n: nat) {
    |g.offsets| == n && |g.startPos| == n && |g.buffers| == n && |g.used| == n
  }

  ghost predicate At(values: seq<nat>, g: Progress, capacity: nat, qs: seq<seq<nat>>, p: nat)
    requires capacity > 0 && Sized(g, |qs|) && p < |qs|
  {
    Scattered(values, g.offsets[p], g.startPos[p], g.buffers[p], g.used[p], capacity, qs[p])
  }

  // Partitions from p on are still being collected, those before are complete.
  ghost predicate Collecting(values: seq<nat>, g: Progress, capacity: nat, qs: seq<seq<nat>>, p: nat)
    requires capacity > 0
  {
    && Sized(g, |qs|)
    && (forall q: nat | q < p && q < |qs| :: Complete(values, g.offsets, qs, q))
    && (forall q: nat | p <= q < |qs| :: At(values, g, capacity, qs, q))
  }

  ghost predicate Complete(values: seq<nat>, offsets: seq<nat>, qs: seq<seq<nat>>, q: nat)
    requires q < |offsets| && q < |qs|
  {
    offsets[q] + |qs[q]| <= |values| && values[offsets[q]..offsets[q] + |qs[q]|] == qs[q]
  }

  // Every partition has its own region and no more elements than counted.
  ghost predicate Roomy(length: nat, offsets: seq<nat>, histogram: seq<nat>, capacity: nat, qs: seq<seq<nat>>)
    requires capacity > 0
  {
    && |offsets| == |histogram| == |qs|
    && length == Offset(histogram, capacity, |histogram|)
    && forall p: nat | p < |histogram| :: offsets[p] == Offset(histogram, capacity, p) && |qs[p]| <= histogram[p]
  }

  lemma {:induction false} RoomyAt(length: nat, offsets: seq<nat>, histogram: seq<nat>, capacity: nat,
                                   qs: seq<seq<nat>>, p: nat, q: nat)
    requires capacity > 0 && Roomy(length, offsets, histogram, capacity, qs) && p < |qs| && q < |qs|
    ensures |offsets| == |histogram| == |qs|
    ensures offsets[p] + Padded(histogram[p], capacity) <= length && |qs[p]| <= histogram[p]
    ensures p < q ==> offsets[p] + Padded(histogram[p], capacity) <= offsets[q]
    ensures q < p ==> offsets[q] + Padded(histogram[q], capacity) <= offsets[p]
  {
    Regions(histogram, capacity, p, q);
    hide Offset, Padded;
  }

  // A store for partition p fits, and leaves the other partitions alone.
  lemma {:induction false} StoreFits(values: seq<nat>, g: Progress, histogram: seq<nat>, capacity: nat,
                                     qs: seq<seq<nat>>, p: nat)
    requires capacity > 0 && Sized(g, |qs|) && p < |qs|
    requires Roomy(|values|, g.offsets, histogram, capacity, qs) && At(values, g, capacity, qs, p)
    ensures g.startPos[p] + capacity <= |values| && g.used[p] < capacity == |g.buffers[p]|
  {
    RoomyAt(|values|, g.offsets, histogram, capacity, qs, p, p);
    ScatteredRoom(values, g.offsets[p], g.startPos[p], g.buffers[p], g.used[p], capacity, qs[p], histogram[p]);
    hide Roomy, Padded;
  }

  lemma {:induction false} StoreLeaves(values: seq<nat>, g: Progress, histogram: seq<nat>, capacity: nat,
                                       qs: seq<seq<nat>>, p: nat, q: nat, b: seq<nat>)
    requires capacity > 0 && Sized(g, |qs|) && p < |qs| && q < |qs| && p != q && |b| == capacity
    requires Roomy(|values|, g.offsets, histogram, capacity, qs) && At(values, g, capacity, qs, p)
    ensures g.startPos[p] + capacity <= |values|
    ensures At(values, g, capacity, qs, q) ==> At(AfterStore(values, g.startPos[p], b), g, capacity, qs, q)
    ensures Complete(values, g.offsets, qs, q) ==> Complete(AfterStore(values, g.startPos[p], b), g.offsets, qs, q)
  {
    hide *;
    AtMeans(values, g, capacity, qs, p);
    AtMeans(values, g, capacity, qs, q);
    StoreFits(values, g, histogram, capacity, qs, p);
    AtMeans(AfterStore(values, g.startPos[p], b), g, capacity, qs, q);
    RoomyAt(|values|, g.offsets, histogram, capacity, qs, p, q);
    RoomyAt(|values|, g.offsets, histogram, capacity, qs, q, p);
    PaddedHolds(histogram[q], capacity, 0);
    ScatteredRoom(values, g.offsets[p], g.startPos[p], g.buffers[p], g.used[p], capacity, qs[p], histogram[p]);
    if At(values, g, capacity, qs, q) {
      ScatteredRoom(values, g.offsets[q], g.startPos[q], g.buffers[q], g.used[q], capacity, qs[q], histogram[q]);
      ScatteredFrame(values, g.offsets[q], g.startPos[q], g.buffers[q], g.used[q], capacity, qs[q], g.startPos[p], b);
    }
    CompleteFrame(values, g.offsets, qs, q, g.startPos[p], b);
  }

  lemma {:induction false} AtMeans(values: seq<nat>, g: Progress, capacity: nat, qs: seq<seq<nat>>, p: nat)
    requires capacity > 0 && Sized(g, |qs|) && p < |qs|
    ensures |g.offsets| == |qs| && |g.startPos| == |qs| && |g.buffers| == |qs| && |g.used| == |qs|
    ensures At(values, g, capacity, qs, p)
            <==> Scattered(values, g.offsets[p], g.startPos[p], g.buffers[p], g.used[p], capacity, qs[p])
  {
    hide Scattered;
  }

  lemma {:induction false} CompleteFrame(values: seq<nat>, offsets: seq<nat>, qs: seq<seq<nat>>, q: nat,
                                         at: nat, b: seq<nat>)
    requires q < |offsets| && q < |qs| && at + |b| <= |values|
    requires offsets[q] + |qs[q]| <= at || at + |b| <= offsets[q]
    ensures Complete(values, offsets, qs, q) ==> Complete(AfterStore(values, at, b), offsets, qs, q)
  {
    if Complete(values, offsets, qs, q) {
      assert AfterStore(values, at, b)[offsets[q]..offsets[q] + |qs[q]|] == values[offsets[q]..offsets[q] + |qs[q]|];
    }
  }

  function Extended(qs: seq<seq<nat>>, p: nat, x: nat): (r: seq<seq<nat>>)
    requires p < |qs|
  {
    var q: seq<nat> := qs[p] + [x];
    qs[p := q]
  }

  // The state after an element has been put into the buffer of partition p.
  function Pushed(g: Progress, p: nat, x: nat): Progress
    requires p < |g.buffers| && p < |g.used| && g.used[p] < |g.buffers[p]|
  {
    var b: seq<nat> := g.buffers[p][g.used[p] := x];
    g.(buffers := g.buffers[p := b], used := g.used[p := g.used[p] + 1])
  }

  // And after the full buffer has been stored.
  function Emptied(g: Progress, p: nat, capacity: nat): Progress
    requires p < |g.startPos| && p < |g.used|
  {
    g.(startPos := g.startPos[p := g.startPos[p] + capacity], used := g.used[p := 0])
  }

  lemma {:induction false} PushStep(values: seq<nat>, g: Progress, histogram: seq<nat>, capacity: nat,
                                    qs: seq<seq<nat>>, p: nat, x: nat)
    requires capacity > 0 && Collecting(values, g, capacity, qs, 0) && p < |qs|
    requires Roomy(|values|, g.offsets, histogram, capacity, qs)
    ensures Sized(g, |qs|) && |g.buffers[p]| == capacity && g.used[p] < capacity
    ensures g.startPos[p] + capacity <= |values|
    ensures var more, h := Extended(qs, p, x), Pushed(g, p, x);
            if h.used[p] == capacity
            then Collecting(AfterStore(values, g.startPos[p], h.buffers[p]), Emptied(h, p, capacity), capacity, more, 0)
            else Collecting(values, h, capacity, more, 0)
  {
    hide Scattered, AfterStore, Roomy;
    assert At(values, g, capacity, qs, p);
    StoreFits(values, g, histogram, capacity, qs, p);
    var h, more := Pushed(g, p, x), Extended(qs, p, x);
    if h.used[p] == capacity {
      var after, e := AfterStore(values, g.startPos[p], h.buffers[p]), Emptied(h, p, capacity);
      ScatteredStore(values, g.offsets[p], g.startPos[p], g.buffers[p], g.used[p], capacity, qs[p], x);
      forall q: nat | q < |qs|
        ensures At(after, e, capacity, more, q)
      {
        if q != p {
          assert At(values, g, capacity, qs, q);
          StoreLeaves(values, g, histogram, capacity, qs, p, q, h.buffers[p]);
        }
      }
    } else {
      ScatteredPush(values, g.offsets[p], g.startPos[p], g.buffers[p], g.used[p], capacity, qs[p], x);
      forall q: nat | q < |qs|
        ensures At(values, h, capacity, more, q)
      {
        if q != p {
          assert At(values, g, capacity, qs, q);
        }
      }
    }
  }

  lemma {:induction false} FlushStep(values: seq<nat>, g: Progress, histogram: seq<nat>, capacity: nat,
                                     qs: seq<seq<nat>>, p: nat)
    requires capacity > 0 && Collecting(values, g, capacity, qs, p) && p < |qs|
    requires Roomy(|values|, g.offsets, histogram, capacity, qs)
    ensures Sized(g, |qs|) && |g.buffers[p]| == capacity && g.startPos[p] + capacity <= |values|
    ensures Collecting(if g.used[p] != 0 then AfterStore(values, g.startPos[p], g.buffers[p]) else values,
                       g, capacity, qs, p + 1)
  {
    hide Scattered, AfterStore, Roomy, At, Complete;
    AtMeans(values, g, capacity, qs, p);
    StoreFits(values, g, histogram, capacity, qs, p);
    FlushedComplete(values, g, capacity, qs, p);
    if g.used[p] != 0 {
      forall q: nat | q < |qs| && q != p
        ensures At(values, g, capacity, qs, q) ==> At(AfterStore(values, g.startPos[p], g.buffers[p]), g, capacity, qs, q)
        ensures Complete(values, g.offsets, qs, q)
                ==> Complete(AfterStore(values, g.startPos[p], g.buffers[p]), g.offsets, qs, q)
      {
        StoreLeaves(values, g, histogram, capacity, qs, p, q, g.buffers[p]);
      }
    }
  }

  lemma {:induction false} FlushedComplete(values: seq<nat>, g: Progress, capacity: nat, qs: seq<seq<nat>>, p: nat)
    requires capacity > 0 && Sized(g, |qs|) && p < |qs| && At(values, g, capacity, qs, p)
    requires g.startPos[p] + capacity <= |values|
    ensures |g.buffers[p]| == capacity
    ensures Complete(if g.used[p] != 0 then AfterStore(values, g.startPos[p], g.buffers[p]) else values, g.offsets, qs, p)
  {
    ScatteredFlush(values, g.offsets[p], g.startPos[p], g.buffers[p], g.used[p], capacity, qs[p]);
  }

  // The partitions of a sequence.
  function ChosenAll(v: seq<nat>, n: nat): (qs: seq<seq<nat>>)
    ensures |qs| == n
  {
    seq(n, p requires 0 <= p < n => Chosen(v, n, p))
  }

  lemma {:induction false} ChosenAllStep(v: seq<nat>, i: nat, n: nat)
    requires IsPower(n) && i < |v|
    ensures var p := PartitionOf(v[i], n);
            p < n && ChosenAll(v[..i + 1], n) == Extended(ChosenAll(v[..i], n), p, v[i])
  {
    hide Chosen, PartitionOf, IsPower;
    PartitionInRange(v[i], n);
    var a, b := ChosenAll(v[..i + 1], n), Extended(ChosenAll(v[..i], n), PartitionOf(v[i], n), v[i]);
    forall p: nat | p < n
      ensures a[p] == b[p]
    {
      ChosenStep(v, i, n, p);
    }
    assert a == b;
  }

  lemma {:induction false} ChosenAllRoomy(length: nat, offsets: seq<nat>, capacity: nat, v: seq<nat>, n: nat, i: nat)
    requires capacity > 0 && i <= |v| && Roomy(length, offsets, Histogram(v, n), capacity, ChosenAll(v, n))
    ensures Roomy(length, offsets, Histogram(v, n), capacity, ChosenAll(v[..i], n))
  {
    hide Chosen, Offset;
    assert v[..|v|] == v;
    forall p: nat | p < n
      ensures |ChosenAll(v[..i], n)[p]| <= Histogram(v, n)[p]
    {
      ChosenMono(v, i, |v|, n, p);
    }
  }

  class PartitionSet {
    const nPartitions: nat
    var histogram: array<nat>
    var offsets: array<nat>
    var values: array<nat>

    constructor (n: nat)
      ensures nPartitions == n && histogram.Length == n && offsets.Length == n
      ensures histogram != offsets && fresh(histogram) && fresh(offsets) && fresh(values)
      ensures forall p | 0 <= p < n :: histogram[p] == 0
    {
      nPartitions := n;
      histogram := new nat[n](i => 0);
      offsets := new nat[n](i => 0);
      values := new nat[0];
    }

    method CountElements(v: seq<nat>)
      requires IsPower(nPartitions) && histogram.Length == nPartitions
      requires forall p | 0 <= p < nPartitions :: histogram[p] == 0
      modifies histogram
      ensures histogram[..] == Histogram(v, nPartitions)
    {
      hide PartitionOf, IsPower;
      for i := 0 to |v|
        invariant forall p | 0 <= p < nPartitions :: histogram[p] == |Chosen(v[..i], nPartitions, p)|
      {
        var bucket := PartitionOf(v[i], nPartitions);
        PartitionInRange(v[i], nPartitions);
        forall p: nat | p < nPartitions
          ensures |Chosen(v[..i + 1], nPartitions, p)|
                  == |Chosen(v[..i], nPartitions, p)| + if bucket == p then 1 else 0
        {
          ChosenStep(v, i, nPartitions, p);
        }
        histogram[bucket] := histogram[bucket] + 1;
      }
      assert v[..|v|] == v;
    }

    method LayOut(capacity: nat)
      requires capacity > 0 && histogram.Length == nPartitions == offsets.Length && histogram != offsets
      modifies offsets, this`values
      ensures values.Length == Offset(histogram[..], capacity, nPartitions) && fresh(values)
      ensures forall p: nat | p < nPartitions :: offsets[p] == Offset(histogram[..], capacity, p)
    {
      hide Padded;
      ghost var h := histogram[..];
      var lastOffset := 0;
      for p := 0 to nPartitions
        invariant histogram[..] == h && lastOffset == Offset(h, capacity, p)
        invariant forall q: nat | q < p :: offsets[q] == Offset(h, capacity, q)
      {
        offsets[p] := lastOffset;
        lastOffset := lastOffset + Padded(histogram[p], capacity);
      }
      values := new nat[lastOffset];
    }

    method StoreBuffer(at: nat, buffer: seq<nat>)
      requires at + |buffer| <= values.Length
      modifies values
      ensures values[..] == AfterStore(old(values[..]), at, buffer)
    {
      ghost var before := values[..];
      for i := 0 to |buffer|
        invariant values[..] == before[..at] + buffer[..i] + before[at + i..]
      {
        values[at + i] := buffer[i];
      }
      assert buffer[..|buffer|] == buffer;
    }

    ghost function ProgressOf(startPos: array<nat>, bufferOffset: array<nat>, buffers: array<seq<nat>>): Progress
      reads this, offsets, startPos, bufferOffset, buffers
    {
      Progress(offsets[..], startPos[..], buffers[..], bufferOffset[..])
    }

    ghost predicate Separate(startPos: array<nat>, bufferOffset: array<nat>)
      reads this
    {
      && startPos != bufferOffset && startPos != values && startPos != offsets && startPos != histogram
      && bufferOffset != values && bufferOffset != offsets && bufferOffset != histogram
      && values != offsets && values != histogram
    }

    // Puts an element into the buffer of its partition; stores the buffer when it is full.
    method Put(startPos: array<nat>, bufferOffset: array<nat>, buffers: array<seq<nat>>, capacity: nat,
               p: nat, x: nat, ghost qs: seq<seq<nat>>)
      requires capacity > 0 && p < |qs| && Separate(startPos, bufferOffset)
      requires Collecting(values[..], ProgressOf(startPos, bufferOffset, buffers), capacity, qs, 0)
      requires Roomy(values.Length, offsets[..], histogram[..], capacity, qs)
      modifies startPos, bufferOffset, buffers, values
      ensures Collecting(values[..], ProgressOf(startPos, bufferOffset, buffers), capacity, Extended(qs, p, x), 0)
    {
      hide Collecting, Roomy, AfterStore;
      ghost var g := ProgressOf(startPos, bufferOffset, buffers);
      PushStep(values[..], g, histogram[..], capacity, qs, p, x);
      buffers[p] := buffers[p][bufferOffset[p] := x];
      bufferOffset[p] := bufferOffset[p] + 1;
      assert ProgressOf(startPos, bufferOffset, buffers) == Pushed(g, p, x);
      if bufferOffset[p] == capacity {
        StoreBuffer(startPos[p], buffers[p]);
        startPos[p] := startPos[p] + capacity;
        bufferOffset[p] := 0;
        assert ProgressOf(startPos, bufferOffset, buffers) == Emptied(Pushed(g, p, x), p, capacity);
      }
    }

    // Stores what is left in the buffers.
    method Flush(startPos: array<nat>, bufferOffset: array<nat>, buffers: array<seq<nat>>, capacity: nat,
                 ghost qs: seq<seq<nat>>)
      requires capacity > 0 && nPartitions == |qs| && Separate(startPos, bufferOffset)
      requires Collecting(values[..], ProgressOf(startPos, bufferOffset, buffers), capacity, qs, 0)
      requires Roomy(values.Length, offsets[..], histogram[..], capacity, qs)
      modifies values
      ensures Collecting(values[..], ProgressOf(startPos, bufferOffset, buffers), capacity, qs, nPartitions)
    {
      hide Collecting, Roomy, AfterStore;
      ghost var g, h, o := ProgressOf(startPos, bufferOffset, buffers), histogram[..], offsets[..];
      for p := 0 to nPartitions
        invariant Collecting(values[..], g, capacity, qs, p)
        invariant Roomy(values.Length, o, h, capacity, qs)
      {
        FlushStep(values[..], g, h, capacity, qs, p);
        if bufferOffset[p] != 0 {
          StoreBuffer(startPos[p], buffers[p]);
        }
      }
    }

    // Puts all elements into the buffers of their partitions, in order.
    method Scatter(startPos: array<nat>, bufferOffset: array<nat>, buffers: array<seq<nat>>, capacity: nat, v: seq<nat>)
      requires IsPower(nPartitions) && capacity > 0 && Separate(startPos, bufferOffset)
      requires Collecting(values[..], ProgressOf(startPos, bufferOffset, buffers), capacity,
                          ChosenAll(v[..0], nPartitions), 0)
      requires histogram[..] == Histogram(v, nPartitions)
      requires Roomy(values.Length, offsets[..], histogram[..], capacity, ChosenAll(v, nPartitions))
      modifies startPos, bufferOffset, buffers, values
      ensures Collecting(values[..], ProgressOf(startPos, bufferOffset, buffers), capacity,
                         ChosenAll(v, nPartitions), 0)
    {
      hide Chosen, ChosenAll, PartitionOf, IsPower, Histogram, Roomy, Collecting;
      ghost var n, h, o := nPartitions, histogram[..], offsets[..];
      for i := 0 to |v|
        invariant histogram[..] == h && offsets[..] == o
        invariant Collecting(values[..], ProgressOf(startPos, bufferOffset, buffers), capacity, ChosenAll(v[..i], n), 0)
      {
        var partition := PartitionOf(v[i], nPartitions);
        ChosenAllStep(v, i, n);
        ChosenAllRoomy(values.Length, o, capacity, v, n, i);
        Put(startPos, bufferOffset, buffers, capacity, partition, v[i], ChosenAll(v[..i], n));
      }
      assert v[..|v|] == v;
    }

    // Partitions the values. The set must be new: counts are added to the histogram.
    method Init(v: seq<nat>, capacity: nat)
      requires IsPower(nPartitions) && capacity > 0
      requires histogram.Length == nPartitions == offsets.Length && histogram != offsets
      requires forall p | 0 <= p < nPartitions :: histogram[p] == 0
      modifies histogram, offsets, this`values
      ensures Partitioned(v, nPartitions, capacity, histogram[..], offsets[..], values[..])
    {
      hide Chosen, ChosenAll, Offset, Padded, IsPower, Histogram, Roomy, Collecting;
      var startPos := new nat[nPartitions](i => 0);
      var bufferOffset := new nat[nPartitions](i => 0);
      CountElements(v);
      LayOut(capacity);
      ghost var n, h, o := nPartitions, histogram[..], offsets[..];
      for p := 0 to nPartitions
        invariant forall q: nat | q < p :: startPos[q] == offsets[q] && bufferOffset[q] == 0
        invariant histogram[..] == h && offsets[..] == o && fresh(values) && values.Length == Offset(h, capacity, n)
        invariant Separate(startPos, bufferOffset)
      {
        startPos[p] := offsets[p];
        bufferOffset[p] := 0;
      }
      var buffers := new seq<nat>[nPartitions](i => seq(capacity, j => 0));
      LaidOutRoomy(values.Length, o, capacity, v, n);
      NothingCollected(values[..], ProgressOf(startPos, bufferOffset, buffers), capacity, v, n);
      Scatter(startPos, bufferOffset, buffers, capacity, v);
      Flush(startPos, bufferOffset, buffers, capacity, ChosenAll(v, n));
      AllComplete(values[..], ProgressOf(startPos, bufferOffset, buffers), capacity, v, n);
    }
  }

  lemma {:induction false} LaidOutRoomy(length: nat, offsets: seq<nat>, capacity: nat, v: seq<nat>, n: nat)
    requires capacity > 0 && |offsets| == n && length == Offset(Histogram(v, n), capacity, n)
    requires forall p: nat | p < n :: offsets[p] == Offset(Histogram(v, n), capacity, p)
    ensures Roomy(length, offsets, Histogram(v, n), capacity, ChosenAll(v, n))
  {
    hide Chosen, Offset;
  }

  lemma {:induction false} NothingCollected(values: seq<nat>, g: Progress, capacity: nat, v: seq<nat>, n: nat)
    requires capacity > 0 && Sized(g, n)
    requires Roomy(|values|, g.offsets, Histogram(v, n), capacity, ChosenAll(v, n))
    requires forall p: nat | p < n :: g.startPos[p] == g.offsets[p] && g.used[p] == 0 && |g.buffers[p]| == capacity
    ensures Collecting(values, g, capacity, ChosenAll(v[..0], n), 0)
  {
    hide Roomy;
    SmallDivMod(0, capacity);
    forall p: nat | p < n
      ensures At(values, g, capacity, ChosenAll(v[..0], n), p)
    {
      RoomyAt(|values|, g.offsets, Histogram(v, n), capacity, ChosenAll(v, n), p, p);
    }
  }

  lemma {:induction false} AllComplete(values: seq<nat>, g: Progress, capacity: nat, v: seq<nat>, n: nat)
    requires capacity > 0 && Collecting(values, g, capacity, ChosenAll(v, n), n)
    requires Roomy(|values|, g.offsets, Histogram(v, n), capacity, ChosenAll(v, n))
    ensures Partitioned(v, n, capacity, Histogram(v, n), g.offsets, values)
  {
    hide Chosen, Offset, At;
    forall p: nat | p < n
      ensures g.offsets[p] + |Chosen(v, n, p)| <= |values|
      ensures values[g.offsets[p]..g.offsets[p] + |Chosen(v, n, p)|] == Chosen(v, n, p)
    {
      assert Complete(values, g.offsets, ChosenAll(v, n), p);
    }
  }
}
