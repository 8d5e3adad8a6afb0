/** What the slots of a table of buckets hold, as a multiset of entries. An entry is
    a stored value together with what identifies its candidate buckets; the rule
    names the entry of a value in a bucket, and the value of an empty slot. */
module Occupancy {

  datatype Rule<!T, E> = Rule(entry: (nat, T) -> E, empty: T)

  // What a slot contributes: nothing when it is empty.
  ghost function SlotEntries<T, E>(rule: Rule<T, E>, i: nat, x: T): multiset<E> {
    if x == rule.empty then multiset{} else multiset{rule.entry(i, x)}
  }

  ghost function BucketEntries<T, E>(rule: Rule<T, E>, i: nat, q: seq<T>): multiset<E> {
    if q == [] then multiset{} else BucketEntries(rule, i, q[..|q| - 1]) + SlotEntries(rule, i, q[|q| - 1])
  }

  ghost function TableEntries<T, E>(rule: Rule<T, E>, t: seq<seq<T>>): multiset<E> {
    if t == [] then multiset{} else TableEntries(rule, t[..|t| - 1]) + BucketEntries(rule, |t| - 1, t[|t| - 1])
  }

  lemma AddRight<E>(a: multiset<E>, b: multiset<E>, c: multiset<E>, d: multiset<E>, e: multiset<E>)
    requires a + c == b + d
    ensures (a + e) + c == (b + e) + d
  {
    assert (a + e) + c == (a + c) + e;
    assert (b + e) + d == (b + d) + e;
  }

  lemma AddLeft<E>(a: multiset<E>, b: multiset<E>, c: multiset<E>, d: multiset<E>, e: multiset<E>)
    requires a + c == b + d
    ensures (e + a) + c == (e + b) + d
  {
    assert (e + a) + c == e + (a + c);
    assert (e + b) + d == e + (b + d);
  }

  // Writing a slot exchanges one entry of the bucket.
  lemma {:induction false} BucketUpdate<T, E>(rule: Rule<T, E>, i: nat, q: seq<T>, j: nat, x: T)
    requires j < |q|
    ensures BucketEntries(rule, i, q[j := x]) + SlotEntries(rule, i, q[j])
            == BucketEntries(rule, i, q) + SlotEntries(rule, i, x)
  {
    hide SlotEntries;
    var m := |q| - 1;
    if j < m {
      BucketUpdate(rule, i, q[..m], j, x);
      assert q[j := x][..m] == q[..m][j := x];
      AddRight(BucketEntries(rule, i, q[..m][j := x]), BucketEntries(rule, i, q[..m]), SlotEntries(rule, i, q[j]),
               SlotEntries(rule, i, x), SlotEntries(rule, i, q[m]));
    } else {
      assert q[j := x][..m] == q[..m];
      AddLeft(SlotEntries(rule, i, x), SlotEntries(rule, i, q[j]), SlotEntries(rule, i, q[j]), SlotEntries(rule, i, x),
              BucketEntries(rule, i, q[..m]));
    }
  }

  // Writing a bucket exchanges the entries of the bucket.
  lemma {:induction false} BucketReplaced<T, E>(rule: Rule<T, E>, t: seq<seq<T>>, i: nat, q: seq<T>)
    requires i < |t|
    ensures TableEntries(rule, t[i := q]) + BucketEntries(rule, i, t[i])
            == TableEntries(rule, t) + BucketEntries(rule, i, q)
  {
    hide BucketEntries;
    var m := |t| - 1;
    if i < m {
      BucketReplaced(rule, t[..m], i, q);
      assert t[i := q][..m] == t[..m][i := q];
      AddRight(TableEntries(rule, t[..m][i := q]), TableEntries(rule, t[..m]), BucketEntries(rule, i, t[i]),
               BucketEntries(rule, i, q), BucketEntries(rule, m, t[m]));
    } else {
      assert t[i := q][..m] == t[..m];
      AddLeft(BucketEntries(rule, i, q), BucketEntries(rule, i, t[i]), BucketEntries(rule, i, t[i]),
              BucketEntries(rule, i, q), TableEntries(rule, t[..m]));
    }
  }

  // Writing a slot of a table exchanges one entry.
  lemma {:induction false} SlotReplaced<T, E>(rule: Rule<T, E>, t: seq<seq<T>>, i: nat, j: nat, x: T)
    requires i < |t| && j < |t[i]|
    ensures TableEntries(rule, t[i := t[i][j := x]]) + SlotEntries(rule, i, t[i][j])
            == TableEntries(rule, t) + SlotEntries(rule, i, x)
  {
    hide *;
    BucketReplaced(rule, t, i, t[i][j := x]);
    BucketUpdate(rule, i, t[i], j, x);
    Exchange(TableEntries(rule, t[i := t[i][j := x]]), BucketEntries(rule, i, t[i]), TableEntries(rule, t),
             BucketEntries(rule, i, t[i][j := x]), SlotEntries(rule, i, t[i][j]), SlotEntries(rule, i, x));
  }

  lemma Exchange<E>(a: multiset<E>, b: multiset<E>, c: multiset<E>, d: multiset<E>, x: multiset<E>, y: multiset<E>)
    requires a + b == c + d && d + x == b + y
    ensures a + x == c + y
  {
    forall e | e in a + x || e in c + y
      ensures (a + x)[e] == (c + y)[e]
    {
      assert (a + b)[e] == (c + d)[e] && (d + x)[e] == (b + y)[e];
    }
    assert forall e :: (a + x)[e] == (c + y)[e];
  }

  // The order within a bucket does not matter.
  lemma {:induction false} SwapInBucket<T, E>(rule: Rule<T, E>, i: nat, q: seq<T>, j: nat, k: nat)
    requires j < k < |q|
    ensures BucketEntries(rule, i, q[j := q[k]][k := q[j]]) == BucketEntries(rule, i, q)
  {
    hide *;
    var r := q[j := q[k]];
    BucketUpdate(rule, i, q, j, q[k]);
    BucketUpdate(rule, i, r, k, q[j]);
    var a, b, c := BucketEntries(rule, i, r[k := q[j]]), BucketEntries(rule, i, r), BucketEntries(rule, i, q);
    var x, y := SlotEntries(rule, i, q[j]), SlotEntries(rule, i, q[k]);
    assert a + y == b + x && b + x == c + y;
    Cancel(a, c, y);
  }

  lemma Cancel<E>(a: multiset<E>, b: multiset<E>, x: multiset<E>)
    requires a + x == b + x
    ensures a == b
  {
    assert a == (a + x) - x && b == (b + x) - x;
  }

  // The slot that an entry of a bucket comes from.
  lemma {:induction false} InBucket<T, E>(rule: Rule<T, E>, i: nat, q: seq<T>, e: E) returns (j: nat)
    requires e in BucketEntries(rule, i, q)
    ensures j < |q| && q[j] != rule.empty && rule.entry(i, q[j]) == e
  {
    j := |q| - 1;
    if e in BucketEntries(rule, i, q[..j]) {
      j := InBucket(rule, i, q[..j], e);
    }
  }

  lemma {:induction false} SlotInBucket<T, E>(rule: Rule<T, E>, i: nat, q: seq<T>, j: nat)
    requires j < |q| && q[j] != rule.empty
    ensures rule.entry(i, q[j]) in BucketEntries(rule, i, q)
  {
    if j < |q| - 1 {
      SlotInBucket(rule, i, q[..|q| - 1], j);
    }
  }

  // The slot that an entry of the table comes from.
  lemma {:induction false} InTable<T, E>(rule: Rule<T, E>, t: seq<seq<T>>, e: E) returns (i: nat, j: nat)
    requires e in TableEntries(rule, t)
    ensures i < |t| && j < |t[i]| && t[i][j] != rule.empty && rule.entry(i, t[i][j]) == e
  {
    hide BucketEntries;
    i := |t| - 1;
    if e in TableEntries(rule, t[..i]) {
      i, j := InTable(rule, t[..i], e);
    } else {
      j := InBucket(rule, i, t[i], e);
    }
  }

  lemma {:induction false} SlotInTable<T, E>(rule: Rule<T, E>, t: seq<seq<T>>, i: nat, j: nat)
    requires i < |t| && j < |t[i]| && t[i][j] != rule.empty
    ensures rule.entry(i, t[i][j]) in TableEntries(rule, t)
  {
    hide BucketEntries;
    if i < |t| - 1 {
      SlotInTable(rule, t[..|t| - 1], i, j);
    } else {
      SlotInBucket(rule, i, t[i], j);
    }
  }

  // ----- counting -----

  ghost function FilledIn<T>(empty: T, q: seq<T>): nat {
    if q == [] then 0 else FilledIn(empty, q[..|q| - 1]) + if q[|q| - 1] == empty then 0 else 1
  }

  ghost function Filled<T>(empty: T, t: seq<seq<T>>): nat {
    if t == [] then 0 else Filled(empty, t[..|t| - 1]) + FilledIn(empty, t[|t| - 1])
  }

  lemma {:induction false} BucketCount<T, E>(rule: Rule<T, E>, i: nat, q: seq<T>)
    ensures |BucketEntries(rule, i, q)| == FilledIn(rule.empty, q)
  {
    if q != [] {
      BucketCount(rule, i, q[..|q| - 1]);
    }
  }

  // Every filled slot is one entry.
  lemma {:induction false} TableCount<T, E>(rule: Rule<T, E>, t: seq<seq<T>>)
    ensures |TableEntries(rule, t)| == Filled(rule.empty, t)
  {
    hide BucketEntries, FilledIn;
    if t != [] {
      TableCount(rule, t[..|t| - 1]);
      BucketCount(rule, |t| - 1, t[|t| - 1]);
    }
  }

  // Writing a slot keeps count.
  lemma CountReplaced<T, E>(rule: Rule<T, E>, t: seq<seq<T>>, i: nat, j: nat, x: T)
    requires i < |t| && j < |t[i]|
    ensures Filled(rule.empty, t[i := t[i][j := x]]) + (if t[i][j] == rule.empty then 0 else 1)
            == Filled(rule.empty, t) + if x == rule.empty then 0 else 1
  {
    hide *;
    SlotReplaced(rule, t, i, j, x);
    TableCount(rule, t);
    TableCount(rule, t[i := t[i][j := x]]);
    SlotSize(rule, i, x);
    SlotSize(rule, i, t[i][j]);
    SizesAdd(TableEntries(rule, t[i := t[i][j := x]]), SlotEntries(rule, i, t[i][j]), TableEntries(rule, t),
             SlotEntries(rule, i, x));
  }

  lemma SizesAdd<E>(a: multiset<E>, b: multiset<E>, c: multiset<E>, d: multiset<E>)
    requires a + b == c + d
    ensures |a| + |b| == |c| + |d|
  {
    assert |a + b| == |a| + |b| && |c + d| == |c| + |d|;
  }

  lemma SlotSize<T, E>(rule: Rule<T, E>, i: nat, x: T)
    ensures |SlotEntries(rule, i, x)| == if x == rule.empty then 0 else 1
  {
  }

  // A table without values has no entries.
  lemma {:induction false} EmptyBucket<T, E>(rule: Rule<T, E>, i: nat, q: seq<T>)
    requires forall j | 0 <= j < |q| :: q[j] == rule.empty
    ensures BucketEntries(rule, i, q) == multiset{}
  {
    if q != [] {
      EmptyBucket(rule, i, q[..|q| - 1]);
    }
  }

  lemma {:induction false} EmptyTable<T, E>(rule: Rule<T, E>, t: seq<seq<T>>)
    requires forall i, j | 0 <= i < |t| && 0 <= j < |t[i]| :: t[i][j] == rule.empty
    ensures TableEntries(rule, t) == multiset{}
  {
    if t != [] {
      EmptyTable(rule, t[..|t| - 1]);
      EmptyBucket(rule, |t| - 1, t[|t| - 1]);
    }
    hide BucketEntries;
  }
}
