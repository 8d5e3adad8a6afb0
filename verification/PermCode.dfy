/** The code of a semi-sorted bucket in the packed cuckoo table: non-decreasing
    quadruples of nibbles, numbered by a recursive generator. Mirrored nibbles
    turn them into the non-increasing quadruples of the vacuum filter, in the
    opposite order. */
module PermCode {
  import opened VacuumCode

  predicate Ascending(q: Quad) {
    q.a <= q.b <= q.c <= q.d < 16
  }

  // Four nibbles in 16 bits; the middle two change places.
  function Pack(q: Quad): nat {
    q.a + q.c * 16 + q.b * 256 + q.d * 4096
  }

  function Unpack(code: nat): Quad {
    Quad(code % 16, code / 256 % 16, code / 16 % 16, code / 4096 % 16)
  }

  lemma UnpackPack(q: Quad)
    requires q.a < 16 && q.b < 16 && q.c < 16 && q.d < 16
    ensures Unpack(Pack(q)) == q && Pack(q) < PLAIN_CODES
  {
    assert Pack(q) / 16 == q.c + q.b * 16 + q.d * 256;
    assert Pack(q) / 256 == q.b + q.d * 16;
    assert Pack(q) / 4096 == q.d;
  }

  function Mirror(q: Quad): Quad
    requires Ascending(q)
  {
    Quad(15 - q.a, 15 - q.b, 15 - q.c, 15 - q.d)
  }

  // The position in the order in which the quadruples are generated.
  function Position(q: Quad): (r: nat)
    requires Ascending(q)
    ensures r < ENTRIES
  {
    RankBound(Mirror(q));
    ENTRIES - 1 - Rank(Mirror(q))
  }

  lemma PositionInjective(q: Quad, r: Quad)
    requires Ascending(q) && Ascending(r) && Position(q) == Position(r)
    ensures q == r
  {
    hide Rank;
    RankInjective(Mirror(q), Mirror(r));
  }

  lemma AtPosition(x: nat) returns (q: Quad)
    requires x < ENTRIES
    ensures Ascending(q) && Position(q) == x
  {
    hide Rank;
    var m := Unrank(ENTRIES - 1 - x);
    q := Quad(15 - m.a, 15 - m.b, 15 - m.c, 15 - m.d);
    assert Mirror(q) == m;
  }

  // ----- the tables -----

  ghost predicate Filled(enc: seq<nat>, dec: seq<nat>, n: nat) {
    && |enc| == PLAIN_CODES && |dec| == ENTRIES
    && forall q: Quad | Ascending(q) && Position(q) < n :: Entry(enc, dec, q)
  }

  ghost predicate Entry(enc: seq<nat>, dec: seq<nat>, q: Quad)
    requires |enc| == PLAIN_CODES && |dec| == ENTRIES && Ascending(q)
  {
    UnpackPack(q);
    enc[Pack(q)] == Position(q) && dec[Position(q)] == Pack(q)
  }

  lemma {:induction false} FillNext(enc: seq<nat>, dec: seq<nat>, q: Quad)
    requires Ascending(q) && Filled(enc, dec, Position(q))
    ensures Pack(q) < PLAIN_CODES
    ensures Filled(enc[Pack(q) := Position(q)], dec[Position(q) := Pack(q)], Position(q) + 1)
  {
    hide Pack, Unpack, Position;
    UnpackPack(q);
    var e, d := enc[Pack(q) := Position(q)], dec[Position(q) := Pack(q)];
    forall r: Quad | Ascending(r) && Position(r) < Position(q) + 1
      ensures Entry(e, d, r)
    {
      UnpackPack(r);
      if Position(r) == Position(q) {
        PositionInjective(r, q);
      } else {
        assert Entry(enc, dec, r);
      }
    }
  }

  // The finished tables are inverse to each other.
  lemma {:induction false} TablesInverse(enc: seq<nat>, dec: seq<nat>)
    requires Filled(enc, dec, ENTRIES)
    ensures forall q: Quad | Ascending(q) ::
              Pack(q) < PLAIN_CODES && enc[Pack(q)] < ENTRIES && dec[enc[Pack(q)]] == Pack(q)
    ensures forall x: nat | x < ENTRIES ::
              dec[x] < PLAIN_CODES && Ascending(Unpack(dec[x])) && enc[dec[x]] == x
  {
    hide Pack, Unpack, Position;
    forall q: Quad | Ascending(q)
      ensures Pack(q) < PLAIN_CODES && enc[Pack(q)] < ENTRIES && dec[enc[Pack(q)]] == Pack(q)
    {
      UnpackPack(q);
      assert Entry(enc, dec, q);
    }
    forall x: nat | x < ENTRIES
      ensures dec[x] < PLAIN_CODES && Ascending(Unpack(dec[x])) && enc[dec[x]] == x
    {
      var q := AtPosition(x);
      UnpackPack(q);
      assert Entry(enc, dec, q);
    }
  }

  // ----- the recursive generator -----

  // Quadruples still to come when k elements are fixed and the next starts at i.
  function Left(dst: seq<nat>, k: nat, i: nat): nat
    requires k <= |dst| && k < 4 && i <= 16 && forall j | 0 <= j < k :: dst[j] <= 15
  {
    match k
    case 0 => Quads(16 - i)
    case 1 => Quads(15 - dst[0]) + Triples(16 - i)
    case 2 => Quads(15 - dst[0]) + Triples(15 - dst[1]) + Pairs(16 - i)
    case 3 => Quads(15 - dst[0]) + Triples(15 - dst[1]) + Pairs(15 - dst[2]) + (16 - i)
  }

  // The elements fixed so far ascend up to the base.
  ghost predicate Fixed(dst: seq<nat>, k: nat, base: nat) {
    && |dst| == 4 && k < 4 && base <= 15
    && (forall j | 0 <= j < k :: dst[j] <= base)
    && (forall j, l | 0 <= j < l < k :: dst[j] <= dst[l])
  }

  // Fixing the next element does not change what is to come, and exhausting
  // it leaves what comes after it.
  lemma LeftDeeper(dst: seq<nat>, k: nat, i: nat)
    requires |dst| == 4 && k < 3 && i <= 15 && dst[k] == i && forall j | 0 <= j < k :: dst[j] <= 15
    ensures Left(dst, k + 1, i) == Left(dst, k, i)
    ensures Left(dst, k + 1, 16) == Left(dst, k, i + 1)
  {
    hide Quads, Triples, Pairs;
    OneMore(15 - i);
  }

  lemma LeftLeaf(dst: seq<nat>, i: nat)
    requires Fixed(dst, 3, i)
    ensures var q := Quad(dst[0], dst[1], dst[2], i);
            Ascending(q) && Left(dst, 3, i) <= ENTRIES && Position(q) == ENTRIES - Left(dst, 3, i)
    ensures Left(dst, 3, i + 1) == Left(dst, 3, i) - 1
  {
    hide Rank, Quads, Triples, Pairs;
    var q := Quad(dst[0], dst[1], dst[2], i);
    RankIs(Mirror(q));
    RankBound(Mirror(q));
  }

  lemma LeftSame(a: seq<nat>, b: seq<nat>, k: nat, i: nat)
    requires |a| == |b| == 4 && k < 4 && i <= 16 && a[..k] == b[..k] && forall j | 0 <= j < k :: a[j] <= 15
    ensures forall j | 0 <= j < k :: b[j] <= 15
    ensures Left(a, k, i) == Left(b, k, i)
  {
    hide Quads, Triples, Pairs;
    assert forall j | 0 <= j < k :: a[..k][j] == a[j] && b[..k][j] == b[j];
  }

  method GenTables(base: nat, k: nat, dst: array<nat>, enc: array<nat>, dec: array<nat>, start: nat)
    returns (idx: nat)
    requires dst.Length == 4 && enc.Length == PLAIN_CODES && dec.Length == ENTRIES
    requires dst != enc && dst != dec && enc != dec
    requires Fixed(dst[..], k, base)
    requires start + Left(dst[..], k, base) == ENTRIES && Filled(enc[..], dec[..], start)
    modifies dst, enc, dec
    ensures dst[..k] == old(dst[..k])
    ensures Fixed(old(dst[..]), k, base) && idx + Left(old(dst[..]), k, 16) == ENTRIES
    ensures Filled(enc[..], dec[..], idx)
    decreases 4 - k
  {
    hide Left, Filled, Position, Pack, Rank;
    idx := start;
    ghost var d0 := dst[..];
    for i := base to 16
      invariant dst[..k] == d0[..k]
      invariant idx + Left(d0, k, i) == ENTRIES && Filled(enc[..], dec[..], idx)
    {
      dst[k] := i;
      FixedNext(d0, dst[..], k, base, i);
      LeftSame(d0, dst[..], k, i);
      LeftSame(d0, dst[..], k, i + 1);
      if k + 1 < 4 {
        LeftDeeper(dst[..], k, i);
        ghost var d1 := dst[..];
        idx := GenTables(i, k + 1, dst, enc, dec, idx);
        assert dst[..k] == dst[..k + 1][..k] == d1[..k + 1][..k];
      } else {
        LeftLeaf(dst[..], i);
        ghost var q := Quad(dst[0], dst[1], dst[2], i);
        FillNext(enc[..], dec[..], q);
        PackIs(q);
        var packed := dst[0] + dst[2] * 16 + dst[1] * 256 + dst[3] * 4096;
        dec[idx] := packed;
        enc[packed] := idx;
        idx := idx + 1;
      }
    }
  }

  lemma PackIs(q: Quad)
    ensures Pack(q) == q.a + q.c * 16 + q.b * 256 + q.d * 4096
  {
  }

  lemma FixedNext(d0: seq<nat>, d: seq<nat>, k: nat, base: nat, i: nat)
    requires Fixed(d0, k, base) && |d| == 4 && d[..k] == d0[..k] && d[k] == i && base <= i <= 15
    ensures forall j | 0 <= j < k :: d0[j] <= 15 && d[j] <= 15
    ensures Fixed(d, k, i) && (k < 3 ==> Fixed(d, k + 1, i))
  {
    assert forall j | 0 <= j < k :: d[..k][j] == d[j] && d0[..k][j] == d0[j];
  }

  method MakeTables() returns (enc: array<nat>, dec: array<nat>)
    ensures fresh(enc) && fresh(dec)
    ensures Filled(enc[..], dec[..], ENTRIES)
  {
    hide *;
    enc := new nat[PLAIN_CODES](i => 0);
    dec := new nat[ENTRIES](i => 0);
    var dst := new nat[4](i => 0);
    AllQuads();
    NothingFilled(enc[..], dec[..]);
    LeftEnds(dst[..]);
    var n := GenTables(0, 0, dst, enc, dec, 0);
  }

  lemma LeftEnds(dst: seq<nat>)
    requires |dst| == 4
    ensures Fixed(dst, 0, 0) && Left(dst, 0, 0) == Quads(16) && Left(dst, 0, 16) == 0
  {
    hide Quads;
    OneMore(0);
  }

  lemma NothingFilled(enc: seq<nat>, dec: seq<nat>)
    requires |enc| == PLAIN_CODES && |dec| == ENTRIES
    ensures Filled(enc, dec, 0)
  {
  }
}
