/** Blocks of a Morton filter and what storing, deleting and replacing a
    fingerprint does to every bucket of the table. A block is described by its
    fullness counters, its overflow bits and the used part of its fingerprint
    array, which is the concatenation of its buckets in order. */
module MortonTable {
  import opened Arith

  datatype Block = Block(counters: seq<nat>, ota: seq<bool>, fps: seq<nat>)

  // Sum of the first i counters, where bucket i starts.
  function Start(counters: seq<nat>, i: nat): nat
    requires i <= |counters|
  {
    if i == 0 then 0 else Start(counters, i - 1) + counters[i - 1]
  }

  ghost predicate ValidBlock(b: Block, slots: nat, capacity: nat) {
    && (forall i | 0 <= i < |b.counters| :: b.counters[i] <= slots)
    && Start(b.counters, |b.counters|) == |b.fps| <= capacity
  }

  lemma {:induction false} StartMono(counters: seq<nat>, i: nat, j: nat)
    requires i <= j <= |counters|
    ensures Start(counters, i) <= Start(counters, j)
    decreases j
  {
    if i < j {
      StartMono(counters, i, j - 1);
    }
  }

  lemma {:induction false} StartUpdate(counters: seq<nat>, i: nat, v: nat, j: nat)
    requires i < |counters| && j <= |counters|
    ensures Start(counters[i := v], j) == Start(counters, j) + (if i < j then v - counters[i] else 0)
  {
    if j > 0 {
      StartUpdate(counters, i, v, j - 1);
    }
  }

  // A bucket lies inside the used part.
  lemma {:induction false} BucketInside(b: Block, i: nat)
    requires i < |b.counters| && Start(b.counters, |b.counters|) == |b.fps|
    ensures Start(b.counters, i) + b.counters[i] == Start(b.counters, i + 1) <= |b.fps|
  {
    StartMono(b.counters, i + 1, |b.counters|);
  }

  function Bucket(b: Block, i: nat): (r: seq<nat>)
    requires i < |b.counters| && Start(b.counters, |b.counters|) == |b.fps|
    ensures |r| == b.counters[i]
  {
    BucketInside(b, i);
    b.fps[Start(b.counters, i)..Start(b.counters, i) + b.counters[i]]
  }

  // ----- the primitive writes of the source -----

  function WriteLeftDisplace(b: Block, at: nat, f: nat): Block
    requires at <= |b.fps|
  {
    b.(fps := b.fps[..at] + [f] + b.fps[at..])
  }

  function DeleteRightDisplace(b: Block, at: nat): Block
    requires at < |b.fps|
  {
    b.(fps := b.fps[..at] + b.fps[at + 1..])
  }

  function WriteFingerprint(b: Block, at: nat, f: nat): Block
    requires at < |b.fps|
  {
    b.(fps := b.fps[at := f])
  }

  function SetCounter(b: Block, i: nat, v: nat): Block
    requires i < |b.counters|
  {
    b.(counters := b.counters[i := v])
  }

  function SetOverflow(b: Block, k: nat): Block
    requires k < |b.ota|
  {
    b.(ota := b.ota[k := true])
  }

  // ----- bucket operations -----

  // The fingerprint becomes the first of its bucket.
  function Store(b: Block, i: nat, f: nat): (r: Block)
    requires i < |b.counters| && Start(b.counters, |b.counters|) == |b.fps|
    ensures |r.counters| == |b.counters| && Start(r.counters, |r.counters|) == |r.fps| == |b.fps| + 1
  {
    BucketInside(b, i);
    StartUpdate(b.counters, i, b.counters[i] + 1, |b.counters|);
    SetCounter(WriteLeftDisplace(b, Start(b.counters, i), f), i, b.counters[i] + 1)
  }

  function Delete(b: Block, i: nat, slot: nat): (r: Block)
    requires i < |b.counters| && Start(b.counters, |b.counters|) == |b.fps| && slot < b.counters[i]
    ensures |r.counters| == |b.counters| && Start(r.counters, |r.counters|) == |r.fps| == |b.fps| - 1
  {
    BucketInside(b, i);
    StartUpdate(b.counters, i, b.counters[i] - 1, |b.counters|);
    SetCounter(DeleteRightDisplace(b, Start(b.counters, i) + slot), i, b.counters[i] - 1)
  }

  function Replace(b: Block, i: nat, slot: nat, f: nat): (r: Block)
    requires i < |b.counters| && Start(b.counters, |b.counters|) == |b.fps| && slot < b.counters[i]
    ensures r.counters == b.counters && |r.fps| == |b.fps|
  {
    BucketInside(b, i);
    WriteFingerprint(b, Start(b.counters, i) + slot, f)
  }

  lemma {:induction false} StoreIs(b: Block, i: nat, f: nat)
    requires i < |b.counters| && Start(b.counters, |b.counters|) == |b.fps|
    ensures Start(b.counters, i) <= |b.fps|
    ensures Store(b, i, f) == SetCounter(WriteLeftDisplace(b, Start(b.counters, i), f), i, b.counters[i] + 1)
  {
    BucketInside(b, i);
    hide Start;
  }

  lemma {:induction false} StoreValid(b: Block, i: nat, f: nat, slots: nat, capacity: nat)
    requires ValidBlock(b, slots, capacity) && i < |b.counters|
    requires b.counters[i] < slots && |b.fps| < capacity
    ensures ValidBlock(Store(b, i, f), slots, capacity)
  {
    hide Start;
  }

  // Slices of a sequence with one element inserted.
  lemma {:induction false} InsertedBefore(q: seq<nat>, p: nat, f: nat, lo: nat, hi: nat)
    requires p <= |q| && lo <= hi <= p
    ensures (q[..p] + [f] + q[p..])[lo..hi] == q[lo..hi]
  {
  }

  lemma {:induction false} InsertedAfter(q: seq<nat>, p: nat, f: nat, lo: nat, hi: nat)
    requires p <= lo <= hi <= |q|
    ensures (q[..p] + [f] + q[p..])[lo + 1..hi + 1] == q[lo..hi]
  {
    var r := q[..p] + [f] + q[p..];
    var s := r[lo + 1..hi + 1];
    forall i | 0 <= i < hi - lo
      ensures s[i] == q[lo..hi][i]
    {
      assert s[i] == r[lo + 1 + i] == q[p..][lo + i - p] == q[lo + i];
    }
  }

  lemma {:induction false} InsertedAt(q: seq<nat>, p: nat, f: nat, hi: nat)
    requires p <= hi <= |q|
    ensures (q[..p] + [f] + q[p..])[p..hi + 1] == [f] + q[p..hi]
  {
    var r := q[..p] + [f] + q[p..];
    assert r[p..hi + 1] == [r[p]] + r[p + 1..hi + 1];
    InsertedAfter(q, p, f, p, hi);
  }

  // Slices of a sequence with one element removed.
  lemma {:induction false} RemovedAfter(q: seq<nat>, p: nat, lo: nat, hi: nat)
    requires p < lo <= hi <= |q|
    ensures (q[..p] + q[p + 1..])[lo - 1..hi - 1] == q[lo..hi]
  {
  }

  lemma {:induction false} RemovedBefore(q: seq<nat>, p: nat, lo: nat, hi: nat)
    requires p < |q| && lo <= hi <= p
    ensures (q[..p] + q[p + 1..])[lo..hi] == q[lo..hi]
  {
  }

  lemma {:induction false} RemovedWithin(q: seq<nat>, p: nat, lo: nat, hi: nat)
    requires lo <= p < hi <= |q|
    ensures (q[..p] + q[p + 1..])[lo..hi - 1] == q[lo..hi][..p - lo] + q[lo..hi][p - lo + 1..]
  {
    var r := (q[..p] + q[p + 1..])[lo..hi - 1];
    var e := q[lo..hi][..p - lo] + q[lo..hi][p - lo + 1..];
    assert |r| == |e|;
    forall i | 0 <= i < |r|
      ensures r[i] == e[i]
    {
      if i < p - lo {
        assert r[i] == q[lo + i] == e[i];
      } else {
        assert r[i] == q[lo + i + 1] == e[i];
      }
    }
  }

  // Buckets do not overlap.
  lemma {:induction false} BucketsApart(b: Block, i: nat, j: nat)
    requires i < |b.counters| && j < |b.counters|
    ensures j < i ==> Start(b.counters, j) + b.counters[j] <= Start(b.counters, i)
    ensures i < j ==> Start(b.counters, i) + b.counters[i] <= Start(b.counters, j)
  {
    if j < i {
      StartMono(b.counters, j + 1, i);
    } else if i < j {
      StartMono(b.counters, i + 1, j);
    }
  }

  lemma {:induction false} BucketIs(b: Block, i: nat)
    requires i < |b.counters| && Start(b.counters, |b.counters|) == |b.fps|
    ensures Start(b.counters, i) + b.counters[i] <= |b.fps|
    ensures Bucket(b, i) == b.fps[Start(b.counters, i)..Start(b.counters, i) + b.counters[i]]
  {
    BucketInside(b, i);
    hide Start;
  }

  lemma {:induction false} StoreFields(b: Block, i: nat, f: nat)
    requires i < |b.counters| && Start(b.counters, |b.counters|) == |b.fps|
    ensures Start(b.counters, i) <= |b.fps|
    ensures Store(b, i, f)
            == Block(b.counters[i := b.counters[i] + 1], b.ota,
                     b.fps[..Start(b.counters, i)] + [f] + b.fps[Start(b.counters, i)..])
  {
    BucketInside(b, i);
    hide Start;
  }

  lemma {:induction false} DeleteFields(b: Block, i: nat, slot: nat)
    requires i < |b.counters| && Start(b.counters, |b.counters|) == |b.fps| && slot < b.counters[i]
    ensures Start(b.counters, i) + slot < |b.fps|
    ensures Delete(b, i, slot)
            == Block(b.counters[i := b.counters[i] - 1], b.ota,
                     b.fps[..Start(b.counters, i) + slot] + b.fps[Start(b.counters, i) + slot + 1..])
  {
    BucketInside(b, i);
    hide Start;
  }

  // Inserting at the head of one bucket leaves all others alone.
  lemma {:induction false} StoreBuckets(b: Block, i: nat, f: nat, j: nat)
    requires i < |b.counters| && j < |b.counters| && Start(b.counters, |b.counters|) == |b.fps|
    ensures Bucket(Store(b, i, f), j) == if j == i then [f] + Bucket(b, i) else Bucket(b, j)
  {
    hide *;
    StoreFields(b, i, f);
    BucketIs(b, j);
    BucketIs(Store(b, i, f), j);
    StartUpdate(b.counters, i, b.counters[i] + 1, j);
    BucketsApart(b, i, j);
    var p, lo, hi := Start(b.counters, i), Start(b.counters, j), Start(b.counters, j) + b.counters[j];
    if j < i {
      InsertedBefore(b.fps, p, f, lo, hi);
    } else if j == i {
      InsertedAt(b.fps, p, f, hi);
    } else {
      InsertedAfter(b.fps, p, f, lo, hi);
    }
  }

  lemma {:induction false} DeleteValid(b: Block, i: nat, slot: nat, slots: nat, capacity: nat)
    requires ValidBlock(b, slots, capacity) && i < |b.counters| && slot < b.counters[i]
    ensures ValidBlock(Delete(b, i, slot), slots, capacity)
  {
    hide Start;
  }

  // Deleting removes one slot of one bucket.
  lemma {:induction false} DeleteBuckets(b: Block, i: nat, slot: nat, j: nat)
    requires i < |b.counters| && j < |b.counters| && Start(b.counters, |b.counters|) == |b.fps|
    requires slot < b.counters[i]
    ensures Bucket(Delete(b, i, slot), j)
            == if j == i then Bucket(b, i)[..slot] + Bucket(b, i)[slot + 1..] else Bucket(b, j)
  {
    hide *;
    DeleteFields(b, i, slot);
    BucketIs(b, j);
    BucketIs(Delete(b, i, slot), j);
    StartUpdate(b.counters, i, b.counters[i] - 1, j);
    BucketsApart(b, i, j);
    var p, lo, hi := Start(b.counters, i) + slot, Start(b.counters, j), Start(b.counters, j) + b.counters[j];
    if j < i {
      RemovedBefore(b.fps, p, lo, hi);
    } else if j == i {
      RemovedWithin(b.fps, p, lo, hi);
    } else {
      RemovedAfter(b.fps, p, lo, hi);
    }
  }

  lemma {:induction false} ReplaceBuckets(b: Block, i: nat, slot: nat, f: nat, j: nat)
    requires i < |b.counters| && j < |b.counters| && Start(b.counters, |b.counters|) == |b.fps|
    requires slot < b.counters[i]
    ensures Bucket(Replace(b, i, slot, f), j) == if j == i then Bucket(b, i)[slot := f] else Bucket(b, j)
  {
    BucketInside(b, i);
    BucketInside(b, j);
    BucketsApart(b, i, j);
    hide Start;
  }

  // ----- tables -----

  datatype Shape = Shape(bucketsPerBlock: nat, slots: nat, capacity: nat, otaBits: nat)

  ghost predicate ValidTable(t: seq<Block>, s: Shape) {
    && s.bucketsPerBlock > 0
    && forall k | 0 <= k < |t| ::
         ValidBlock(t[k], s.slots, s.capacity)
         && |t[k].counters| == s.bucketsPerBlock && |t[k].ota| == s.otaBits
  }

  ghost predicate InTable(t: seq<Block>, s: Shape, bucket: nat) {
    s.bucketsPerBlock > 0 && bucket / s.bucketsPerBlock < |t|
  }

  function BlockOf(bucket: nat, s: Shape): nat
    requires s.bucketsPerBlock > 0
  {
    DivNonNeg(bucket, s.bucketsPerBlock);
    bucket / s.bucketsPerBlock
  }

  function IndexOf(bucket: nat, s: Shape): (r: nat)
    requires s.bucketsPerBlock > 0
    ensures r < s.bucketsPerBlock
  {
    bucket % s.bucketsPerBlock
  }

  lemma {:induction false} SameBucket(x: nat, y: nat, s: Shape)
    requires s.bucketsPerBlock > 0 && BlockOf(x, s) == BlockOf(y, s) && IndexOf(x, s) == IndexOf(y, s)
    ensures x == y
  {
    DivMod(x, s.bucketsPerBlock);
    DivMod(y, s.bucketsPerBlock);
  }

  // How many copies of a fingerprint a bucket holds.
  ghost function Copies(t: seq<Block>, s: Shape, bucket: nat, f: nat): nat
    requires ValidTable(t, s) && InTable(t, s, bucket)
  {
    multiset(Bucket(t[BlockOf(bucket, s)], IndexOf(bucket, s)))[f]
  }

  // After a step that changes one bucket count of one fingerprint by delta.
  ghost predicate CopiesChanged(t: seq<Block>, u: seq<Block>, s: Shape, bucket: nat, f: nat, delta: int)
    requires ValidTable(t, s) && ValidTable(u, s) && |t| == |u|
  {
    forall b: nat, x: nat | InTable(t, s, b) ::
      Copies(u, s, b, x) == Copies(t, s, b, x) + if b == bucket && x == f then delta else 0
  }

  ghost predicate BitsKept(a: seq<bool>, b: seq<bool>) {
    |a| == |b| && forall i | 0 <= i < |a| && a[i] :: b[i]
  }

  // Overflow bits only ever get set.
  ghost predicate OtaKept(t: seq<Block>, u: seq<Block>) {
    |t| == |u| && forall k | 0 <= k < |t| :: BitsKept(t[k].ota, u[k].ota)
  }

  lemma {:induction false} StoreInTable(t: seq<Block>, s: Shape, bucket: nat, f: nat)
    requires ValidTable(t, s) && InTable(t, s, bucket)
    requires t[BlockOf(bucket, s)].counters[IndexOf(bucket, s)] < s.slots
    requires |t[BlockOf(bucket, s)].fps| < s.capacity
    ensures var u := t[BlockOf(bucket, s) := Store(t[BlockOf(bucket, s)], IndexOf(bucket, s), f)];
            ValidTable(u, s) && CopiesChanged(t, u, s, bucket, f, 1) && OtaKept(t, u)
  {
    var k, i := BlockOf(bucket, s), IndexOf(bucket, s);
    var u := t[k := Store(t[k], i, f)];
    StoreValid(t[k], i, f, s.slots, s.capacity);
    forall b: nat, x: nat | InTable(t, s, b)
      ensures Copies(u, s, b, x) == Copies(t, s, b, x) + if b == bucket && x == f then 1 else 0
    {
      if BlockOf(b, s) == k {
        StoreBuckets(t[k], i, f, IndexOf(b, s));
        if IndexOf(b, s) == i {
          SameBucket(b, bucket, s);
          assert multiset([f] + Bucket(t[k], i)) == multiset{f} + multiset(Bucket(t[k], i));
        }
      }
    }
  }

  lemma {:induction false} RemoveFromMultiset(q: seq<nat>, at: nat)
    requires at < |q|
    ensures multiset(q) == multiset(q[..at] + q[at + 1..]) + multiset{q[at]}
  {
    assert q == q[..at] + [q[at]] + q[at + 1..];
  }

  lemma {:induction false} ReplaceInMultiset(q: seq<nat>, at: nat, f: nat)
    requires at < |q|
    ensures multiset(q[at := f]) + multiset{q[at]} == multiset(q) + multiset{f}
  {
    RemoveFromMultiset(q, at);
    RemoveFromMultiset(q[at := f], at);
    assert q[at := f][..at] == q[..at] && q[at := f][at + 1..] == q[at + 1..];
  }

  lemma {:induction false} DeleteInTable(t: seq<Block>, s: Shape, bucket: nat, slot: nat)
    requires ValidTable(t, s) && InTable(t, s, bucket)
    requires slot < t[BlockOf(bucket, s)].counters[IndexOf(bucket, s)]
    ensures slot < |Bucket(t[BlockOf(bucket, s)], IndexOf(bucket, s))|
    ensures var k, i := BlockOf(bucket, s), IndexOf(bucket, s);
            var u := t[k := Delete(t[k], i, slot)];
            ValidTable(u, s) && CopiesChanged(t, u, s, bucket, Bucket(t[k], i)[slot], -1) && OtaKept(t, u)
  {
    var k, i := BlockOf(bucket, s), IndexOf(bucket, s);
    var u := t[k := Delete(t[k], i, slot)];
    var f := Bucket(t[k], i)[slot];
    DeleteValid(t[k], i, slot, s.slots, s.capacity);
    forall b: nat, x: nat | InTable(t, s, b)
      ensures Copies(u, s, b, x) == Copies(t, s, b, x) + if b == bucket && x == f then -1 else 0
    {
      if BlockOf(b, s) == k {
        DeleteBuckets(t[k], i, slot, IndexOf(b, s));
        if IndexOf(b, s) == i {
          SameBucket(b, bucket, s);
          RemoveFromMultiset(Bucket(t[k], i), slot);
        }
      }
    }
  }

  // Replacing is deleting one fingerprint and storing another.
  ghost predicate CopiesReplaced(t: seq<Block>, u: seq<Block>, s: Shape, bucket: nat, out: nat, f: nat)
    requires ValidTable(t, s) && ValidTable(u, s) && |t| == |u|
  {
    forall b: nat, x: nat | InTable(t, s, b) ::
      Copies(u, s, b, x)
      == Copies(t, s, b, x) + (if b == bucket && x == f then 1 else 0) - (if b == bucket && x == out then 1 else 0)
  }

  lemma {:induction false} ReplaceInTable(t: seq<Block>, s: Shape, bucket: nat, slot: nat, f: nat)
    requires ValidTable(t, s) && InTable(t, s, bucket)
    requires slot < t[BlockOf(bucket, s)].counters[IndexOf(bucket, s)]
    ensures slot < |Bucket(t[BlockOf(bucket, s)], IndexOf(bucket, s))|
    ensures var k, i := BlockOf(bucket, s), IndexOf(bucket, s);
            var u := t[k := Replace(t[k], i, slot, f)];
            ValidTable(u, s) && CopiesReplaced(t, u, s, bucket, Bucket(t[k], i)[slot], f) && OtaKept(t, u)
  {
    var k, i := BlockOf(bucket, s), IndexOf(bucket, s);
    var u := t[k := Replace(t[k], i, slot, f)];
    var q := Bucket(t[k], i);
    BucketInside(t[k], i);
    forall b: nat, x: nat | InTable(t, s, b)
      ensures Copies(u, s, b, x)
              == Copies(t, s, b, x) + (if b == bucket && x == f then 1 else 0)
                 - (if b == bucket && x == q[slot] then 1 else 0)
    {
      if BlockOf(b, s) == k {
        ReplaceBuckets(t[k], i, slot, f, IndexOf(b, s));
        if IndexOf(b, s) == i {
          SameBucket(b, bucket, s);
          ReplaceInMultiset(q, slot, f);
        }
      }
    }
  }

  lemma {:induction false} SetOverflowInTable(t: seq<Block>, s: Shape, k: nat, index: nat)
    requires ValidTable(t, s) && k < |t| && index < s.otaBits
    ensures var u := t[k := SetOverflow(t[k], index)];
            && ValidTable(u, s) && OtaKept(t, u) && u[k].ota[index]
            && forall b: nat, x: nat | InTable(t, s, b) :: Copies(u, s, b, x) == Copies(t, s, b, x)
  {
    var u := t[k := SetOverflow(t[k], index)];
    forall b: nat, x: nat | InTable(t, s, b)
      ensures Copies(u, s, b, x) == Copies(t, s, b, x)
    {
    }
  }
}
