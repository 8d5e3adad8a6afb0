/** The code of a semi-sorted bucket in the vacuum filter: the four high nibbles of a
    sorted bucket, a non-increasing quadruple, are numbered without gaps. */
module VacuumCode {

  datatype Quad = Quad(a: nat, b: nat, c: nat, d: nat)

  predicate Descending(q: Quad) {
    q.d <= q.c <= q.b <= q.a < 16
  }

  // The four nibbles side by side.
  function Plain(q: Quad): nat {
    q.a * 4096 + q.b * 256 + q.c * 16 + q.d
  }

  const ENTRIES: nat := 3876
  const PLAIN_CODES: nat := 65536

  // Pairs, triples and quadruples whose largest element is below n.
  function Pairs(n: nat): nat {
    if n == 0 then 0 else Pairs(n - 1) + n
  }

  function Triples(n: nat): nat {
    if n == 0 then 0 else Triples(n - 1) + Pairs(n)
  }

  function Quads(n: nat): nat {
    if n == 0 then 0 else Quads(n - 1) + Triples(n)
  }

  lemma AllQuads()
    ensures Quads(16) == ENTRIES
  {
    assert Pairs(8) == 36 && Triples(8) == 120 && Quads(8) == 330;
    assert Pairs(12) == 78 && Triples(12) == 364 && Quads(12) == 1365;
    assert Pairs(16) == 136 && Triples(16) == 816;
  }

  // The position of a quadruple when they are listed by their elements.
  function Rank(q: Quad): nat {
    Quads(q.a) + Triples(q.b) + Pairs(q.c) + q.d
  }

  lemma {:induction false} PairsMono(m: nat, n: nat)
    requires m <= n
    ensures Pairs(m) <= Pairs(n)
  {
    if m < n {
      PairsMono(m, n - 1);
    }
  }

  lemma {:induction false} TriplesMono(m: nat, n: nat)
    requires m <= n
    ensures Triples(m) <= Triples(n)
  {
    if m < n {
      TriplesMono(m, n - 1);
    }
  }

  lemma {:induction false} QuadsMono(m: nat, n: nat)
    requires m <= n
    ensures Quads(m) <= Quads(n)
  {
    if m < n {
      QuadsMono(m, n - 1);
    }
  }

  // The inner parts of a rank stay below the next outer step.
  lemma {:induction false} InnerRanks(q: Quad)
    requires Descending(q)
    ensures Pairs(q.c) + q.d < Pairs(q.c + 1)
    ensures Triples(q.b) + Pairs(q.c) + q.d < Triples(q.b + 1)
    ensures Rank(q) < Quads(q.a + 1)
  {
    PairsMono(q.c + 1, q.b + 1);
    TriplesMono(q.b + 1, q.a + 1);
  }

  lemma {:induction false} RankBound(q: Quad)
    requires Descending(q)
    ensures Rank(q) < ENTRIES && Plain(q) < PLAIN_CODES
  {
    hide *;
    RankIs(q);
    InnerRanks(q);
    QuadsMono(q.a + 1, 16);
    AllQuads();
    PlainBound(q);
  }

  lemma PlainBound(q: Quad)
    requires Descending(q)
    ensures Plain(q) < PLAIN_CODES
  {
  }

  lemma OneMore(n: nat)
    ensures Pairs(0) == 0 && Triples(0) == 0 && Quads(0) == 0
    ensures Pairs(n + 1) == Pairs(n) + n + 1
    ensures Triples(n + 1) == Triples(n) + Pairs(n + 1)
    ensures Quads(n + 1) == Quads(n) + Triples(n + 1)
  {
  }

  lemma RankIs(q: Quad)
    ensures Rank(q) == Quads(q.a) + Triples(q.b) + Pairs(q.c) + q.d
    ensures Descending(q) <==> q.d <= q.c <= q.b <= q.a < 16
  {
    hide Quads, Triples, Pairs;
  }

  // No two quadruples share a position.
  lemma {:induction false} RankInjective(q: Quad, r: Quad)
    requires Descending(q) && Descending(r) && Rank(q) == Rank(r)
    ensures q == r
  {
    hide *;
    RankIs(q);
    RankIs(r);
    InnerRanks(q);
    InnerRanks(r);
    if q.a < r.a {
      QuadsMono(q.a + 1, r.a);
    } else if r.a < q.a {
      QuadsMono(r.a + 1, q.a);
    } else if q.b < r.b {
      TriplesMono(q.b + 1, r.b);
    } else if r.b < q.b {
      TriplesMono(r.b + 1, q.b);
    } else if q.c < r.c {
      PairsMono(q.c + 1, r.c);
    } else if r.c < q.c {
      PairsMono(r.c + 1, q.c);
    }
  }

  lemma PlainInjective(q: Quad, r: Quad)
    requires Descending(q) && Descending(r) && Plain(q) == Plain(r)
    ensures q == r
  {
    assert q.a == r.a;
    assert q.b == r.b;
    assert q.c == r.c;
  }

  // Every position is taken.
  lemma {:induction false} Unrank(x: nat) returns (q: Quad)
    requires x < ENTRIES
    ensures Descending(q) && Rank(q) == x
  {
    hide *;
    AllQuads();
    var a := FindQuads(x, 16);
    var b := FindTriples(x - Quads(a), a + 1);
    var c := FindPairs(x - Quads(a) - Triples(b), b + 1);
    q := Quad(a, b, c, x - Quads(a) - Triples(b) - Pairs(c));
    RankIs(q);
  }

  lemma {:induction false} FindQuads(x: nat, n: nat) returns (a: nat)
    requires x < Quads(n)
    ensures a < n && Quads(a) <= x < Quads(a + 1) == Quads(a) + Triples(a + 1)
  {
    a := n - 1;
    if x < Quads(a) {
      a := FindQuads(x, a);
    }
  }

  lemma {:induction false} FindTriples(x: nat, n: nat) returns (b: nat)
    requires x < Triples(n)
    ensures b < n && Triples(b) <= x < Triples(b + 1) == Triples(b) + Pairs(b + 1)
  {
    b := n - 1;
    if x < Triples(b) {
      b := FindTriples(x, b);
    }
  }

  lemma {:induction false} FindPairs(x: nat, n: nat) returns (c: nat)
    requires x < Pairs(n)
    ensures c < n && Pairs(c) <= x < Pairs(c + 1) == Pairs(c) + c + 1
  {
    c := n - 1;
    if x < Pairs(c) {
      c := FindPairs(x, c);
    }
  }

  // ----- the tables -----

  // Both tables hold the first n quadruples.
  ghost predicate Filled(encode: seq<nat>, decode: seq<nat>, n: nat) {
    && |encode| == PLAIN_CODES && |decode| == PLAIN_CODES
    && forall q: Quad | Descending(q) && Rank(q) < n :: Entry(encode, decode, q)
  }

  ghost predicate Entry(encode: seq<nat>, decode: seq<nat>, q: Quad)
    requires |encode| == PLAIN_CODES && |decode| == PLAIN_CODES && Descending(q)
  {
    RankBound(q);
    encode[Plain(q)] == Rank(q) && decode[Rank(q)] == Plain(q)
  }

  lemma {:induction false} FillNext(encode: seq<nat>, decode: seq<nat>, q: Quad)
    requires Descending(q) && Filled(encode, decode, Rank(q))
    ensures Plain(q) < PLAIN_CODES && Rank(q) < PLAIN_CODES
    ensures Filled(encode[Plain(q) := Rank(q)], decode[Rank(q) := Plain(q)], Rank(q) + 1)
  {
    RankBound(q);
    var e, d := encode[Plain(q) := Rank(q)], decode[Rank(q) := Plain(q)];
    forall r: Quad | Descending(r) && Rank(r) < Rank(q) + 1
      ensures Entry(e, d, r)
    {
      RankBound(r);
      if Rank(r) == Rank(q) {
        RankInjective(r, q);
      } else {
        if Plain(r) == Plain(q) {
          PlainInjective(r, q);
        }
        assert Entry(encode, decode, r);
      }
      hide Rank;
    }
  }

  // The finished tables are inverse to each other.
  lemma {:induction false} TablesInverse(encode: seq<nat>, decode: seq<nat>)
    requires Filled(encode, decode, ENTRIES)
    ensures forall q: Quad | Descending(q) ::
              Plain(q) < PLAIN_CODES && encode[Plain(q)] < ENTRIES && decode[encode[Plain(q)]] == Plain(q)
    ensures forall x: nat | x < ENTRIES :: decode[x] < PLAIN_CODES && encode[decode[x]] == x
  {
    forall q: Quad | Descending(q)
      ensures Plain(q) < PLAIN_CODES && encode[Plain(q)] < ENTRIES && decode[encode[Plain(q)]] == Plain(q)
    {
      RankBound(q);
      assert Entry(encode, decode, q);
    }
    forall x: nat | x < ENTRIES
      ensures decode[x] < PLAIN_CODES && encode[decode[x]] == x
    {
      var q := Unrank(x);
      RankBound(q);
      assert Entry(encode, decode, q);
    }
    hide Rank, Plain;
  }

  // Fills the tables with four nested loops.
  method FillTables() returns (encode: array<nat>, decode: array<nat>)
    ensures fresh(encode) && fresh(decode)
    ensures Filled(encode[..], decode[..], ENTRIES)
  {
    hide *;
    encode := new nat[PLAIN_CODES](i => 0);
    decode := new nat[PLAIN_CODES](i => 0);
    NothingFilled(encode[..], decode[..]);
    OneMore(0);
    var index := 0;
    for i := 0 to 16
      invariant index == Quads(i) && encode != decode && encode.Length == decode.Length == PLAIN_CODES
      invariant Filled(encode[..], decode[..], index)
    {
      for j := 0 to i + 1
        invariant index == Quads(i) + Triples(j)
        invariant Filled(encode[..], decode[..], index)
      {
        for k := 0 to j + 1
          invariant index == Quads(i) + Triples(j) + Pairs(k)
          invariant Filled(encode[..], decode[..], index)
        {
          for l := 0 to k + 1
            invariant index == Quads(i) + Triples(j) + Pairs(k) + l
            invariant Filled(encode[..], decode[..], index)
          {
            ghost var q := Quad(i, j, k, l);
            RankIs(q);
            FillNext(encode[..], decode[..], q);
            RankBound(q);
            PlainIs(q);
            var plainBit := i * 4096 + j * 256 + k * 16 + l;
            encode[plainBit] := index;
            decode[index] := plainBit;
            index := index + 1;
          }
          OneMore(k);
        }
        OneMore(j);
      }
      OneMore(i);
    }
    AllQuads();
  }

  lemma PlainIs(q: Quad)
    ensures Plain(q) == q.a * 4096 + q.b * 256 + q.c * 16 + q.d
  {
  }

  lemma NothingFilled(encode: seq<nat>, decode: seq<nat>)
    requires |encode| == PLAIN_CODES && |decode| == PLAIN_CODES
    ensures Filled(encode, decode, 0)
  {
  }
}
