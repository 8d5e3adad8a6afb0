/** The cuckoo filter: two candidate buckets per tag, kick chains with a victim
    slot, and deletion. The tags in the table together with the victim are, up
    to the choice between their two buckets, exactly those of the live keys. */
module CuckooFilter {
  import opened Arith
  import opened Occupancy
  import opened Runs
  import opened SingleTable

  // A tag with the smaller of its two buckets.
  type Entry = (nat, Tag)

  datatype Status = Ok | NotFound | NotEnoughSpace

  const MAX_CUCKOO_COUNT: nat := 500
  const WORD: nat := 0x1_0000_0000

  // ----- addresses -----

  function IndexHash(n: nat, hv: nat): nat
    requires n > 0
  {
    And(hv, n - 1)
  }

  function TagHash(w: nat, hv: Tag): Tag
    requires Supported(w)
  {
    if hv & TagMask(w) == 0 then 1 else hv & TagMask(w)
  }

  // The remainder of a hash value by two to the width, in unsigned arithmetic.
  function LowBits(w: nat, hv: Tag): Tag
    requires Supported(w)
  {
    if w == 4 then hv % 0x10
    else if w == 8 then hv % 0x100
    else if w == 12 then hv % 0x1000
    else if w == 16 then hv % 0x1_0000
    else hv
  }

  // A tag is what the lowest bits of the hash value say, but never zero.
  lemma TagIsLowBits(w: nat, hv: Tag)
    requires Supported(w)
    ensures TagHash(w, hv) == if LowBits(w, hv) == 0 then 1 else LowBits(w, hv)
  {
    if w == 4 {
      assert hv & 0xf == hv % 0x10;
    } else if w == 8 {
      assert hv & 0xff == hv % 0x100;
    } else if w == 12 {
      assert hv & 0xfff == hv % 0x1000;
    } else if w == 16 {
      assert hv & 0xffff == hv % 0x1_0000;
    }
  }

  // Low bits that give the same tag.
  predicate SameLow(w: nat, a: Tag, b: Tag)
    requires Supported(w)
  {
    || LowBits(w, a) == LowBits(w, b)
    || (LowBits(w, a) == 0 && LowBits(w, b) == 1) || (LowBits(w, a) == 1 && LowBits(w, b) == 0)
  }

  lemma SameTagExactly(w: nat, a: Tag, b: Tag)
    requires Supported(w)
    ensures TagHash(w, a) == TagHash(w, b) <==> SameLow(w, a, b)
  {
    TagIsLowBits(w, a);
    TagIsLowBits(w, b);
    hide TagHash, LowBits;
  }

  const MIX: nat := 0x5bd1_e995

  // The product wraps at 32 bits.
  function Spread(tag: Tag): (r: nat)
    ensures r < WORD
  {
    (tag as nat * MIX) % WORD
  }

  // It is the product up to multiples of the word.
  lemma SpreadIs(tag: Tag)
    ensures Spread(tag) < WORD && exists q: nat :: tag as nat * MIX == q * WORD + Spread(tag)
  {
    var x := tag as nat * MIX;
    DivMod(x, WORD);
    DivNonNeg(x, WORD);
    var q: nat := x / WORD;
    assert x == q * WORD + Spread(tag);
  }

  function AltIndex(n: nat, i: nat, tag: Tag): nat
    requires n > 0
  {
    IndexHash(n, Xor(i, Spread(tag)) % WORD)
  }

  lemma WordIsPower()
    ensures WORD == Pow2(32)
  {
    assert Pow2(8) == 0x100;
    hide Pow2;
    Pow2Add(8, 8);
    Pow2Add(16, 16);
  }

  lemma IndexInRange(n: nat, hv: nat)
    requires IsPower(n) && hv < WORD
    ensures n > 0 && IndexHash(n, hv) == hv % n < n && IndexHash(n, hv) < WORD
  {
    var k: nat :| n == Pow2(k);
    AndMask(hv, k);
    DivMod(hv, n);
    DivNonNeg(hv, n);
    MulNonNeg(hv / n, n);
    hide Pow2, And;
  }

  // Both candidate buckets lead to each other.
  lemma AltInvolution(n: nat, i: nat, tag: Tag)
    requires IsPower(n) && i < n && i < WORD
    ensures n > 0 && AltIndex(n, i, tag) < n && AltIndex(n, i, tag) < WORD
    ensures AltIndex(n, AltIndex(n, i, tag), tag) == i
  {
    var s := Spread(tag);
    hide Spread;
    WordIsPower();
    var k: nat :| n == Pow2(k);
    AltStep(k, i, s);
    IndexInRange(n, Xor(i, s) % WORD);
    var a := AltIndex(n, i, tag);
    AltStep(k, a, s);
    IndexInRange(n, Xor(a, s) % WORD);
    AltTwice(k, i, s);
    hide Pow2, Xor, And;
  }

  // The alternate bucket as an exclusive or that stays below n.
  function AltXor(k: nat, i: nat, s: nat): nat {
    Xor(i, s) % Pow2(k)
  }

  lemma AltStep(k: nat, i: nat, s: nat)
    requires i < WORD && s < WORD
    ensures Xor(i, s) % WORD == Xor(i, s)
  {
    hide Pow2, Xor;
    WordIsPower();
    XorBound(i, s, 32);
    SmallDivMod(Xor(i, s), WORD);
  }

  lemma AltTwice(k: nat, i: nat, s: nat)
    requires i < Pow2(k)
    ensures AltXor(k, AltXor(k, i, s), s) == i
  {
    hide Pow2, Xor;
    var p := Pow2(k);
    XorLow(i, s, k);
    SmallDivMod(i, p);
    var t := s % p;
    var a := Xor(i, s) % p;
    XorLow(a, s, k);
    DivMod(Xor(i, s), p);
    SmallDivMod(a, p);
    XorTwice(i, t);
    DivMod(s, p);
    SmallDivMod(i, p);
  }

  // The two buckets differ by the spread tag: their exclusive or is its
  // remainder by the number of buckets.
  lemma AltIsXor(n: nat, i: nat, tag: Tag)
    requires IsPower(n) && i < n && i < WORD
    ensures n > 0 && AltIndex(n, i, tag) == Xor(i, Spread(tag)) % n
    ensures Xor(i, AltIndex(n, i, tag)) == Spread(tag) % n
  {
    var k: nat :| n == Pow2(k);
    var s := Spread(tag);
    AltStep(k, i, s);
    IndexInRange(n, Xor(i, s) % WORD);
    hide Pow2, Xor, And, Spread;
    XorLow(i, s, k);
    SmallDivMod(i, n);
    DivMod(s, n);
    XorTwice(s % n, i);
    XorCommutes(i, s % n);
    XorCommutes(i, Xor(i, s % n));
  }

  // ----- entries -----

  function Canon(n: nat, i: nat, tag: Tag): Entry
    requires n > 0
  {
    var a := AltIndex(n, i, tag);
    (if i <= a then i else a, tag)
  }

  lemma CanonAlt(n: nat, i: nat, tag: Tag)
    requires IsPower(n) && i < n && i < WORD
    ensures n > 0 && Canon(n, AltIndex(n, i, tag), tag) == Canon(n, i, tag)
  {
    AltInvolution(n, i, tag);
    hide AltIndex;
  }

  // Two places with the same entry are the two buckets of one tag.
  lemma CanonSame(n: nat, i: nat, j: nat, tag: Tag, other: Tag)
    requires IsPower(n) && i < n && i < WORD && j < n && j < WORD
    ensures n > 0
    ensures Canon(n, i, tag) == Canon(n, j, other) <==> tag == other && (j == i || j == AltIndex(n, i, tag))
  {
    AltInvolution(n, i, tag);
    AltInvolution(n, j, tag);
    hide AltIndex;
  }

  // How the slots of the table hold entries.
  ghost function RuleOf(n: nat): Rule<Tag, Entry>
    requires n > 0
  {
    Rule((i: nat, tag: Tag) => Canon(n, i, tag), 0)
  }

  lemma RuleMeans(n: nat, i: nat, tag: Tag)
    requires n > 0
    ensures RuleOf(n).entry(i, tag) == Canon(n, i, tag) && RuleOf(n).empty == 0
  {
    hide Canon;
  }

  ghost function Entries(n: nat, t: seq<seq<Tag>>): multiset<Entry>
    requires n > 0
  {
    TableEntries(RuleOf(n), t)
  }

  // Tags in the table.
  ghost function NumTags(t: seq<seq<Tag>>): nat {
    Filled(0, t)
  }

  // What a slot contributes: nothing when it is empty.
  ghost function OneEntry(n: nat, i: nat, tag: Tag): multiset<Entry>
    requires n > 0
  {
    if tag == 0 then multiset{} else multiset{Canon(n, i, tag)}
  }

  lemma OneEntryIs(n: nat, i: nat, tag: Tag)
    requires n > 0
    ensures OneEntry(n, i, tag) == SlotEntries(RuleOf(n), i, tag)
    ensures OneEntry(n, i, tag) == if tag == 0 then multiset{} else multiset{Canon(n, i, tag)}
  {
    RuleMeans(n, i, tag);
    hide Canon, RuleOf;
  }

  lemma EntriesAre(n: nat, t: seq<seq<Tag>>)
    requires n > 0
    ensures Entries(n, t) == TableEntries(RuleOf(n), t) && NumTags(t) == Filled(0, t) && RuleOf(n).empty == 0
  {
    hide TableEntries, Filled;
  }

  // Writing a slot exchanges one entry and keeps count.
  lemma EntriesUpdate(n: nat, t: seq<seq<Tag>>, i: nat, j: nat, tag: Tag)
    requires n > 0 && i < |t| && j < |t[i]|
    ensures Entries(n, Updated(t, i, j, tag)) + OneEntry(n, i, t[i][j]) == Entries(n, t) + OneEntry(n, i, tag)
    ensures NumTags(Updated(t, i, j, tag)) + (if t[i][j] == 0 then 0 else 1) == NumTags(t) + if tag == 0 then 0 else 1
  {
    hide *;
    UpdatedIs(t, i, j, tag);
    EntriesAre(n, t);
    EntriesAre(n, Updated(t, i, j, tag));
    OneEntryIs(n, i, tag);
    OneEntryIs(n, i, t[i][j]);
    SlotReplaced(RuleOf(n), t, i, j, tag);
    CountReplaced(RuleOf(n), t, i, j, tag);
  }

  lemma UpdatedIs(t: seq<seq<Tag>>, i: nat, j: nat, tag: Tag)
    requires i < |t| && j < |t[i]|
    ensures Updated(t, i, j, tag) == t[i := t[i][j := tag]]
  {
  }

  // Every tag in the table is one entry.
  lemma EntriesCount(n: nat, t: seq<seq<Tag>>)
    requires n > 0
    ensures |Entries(n, t)| == NumTags(t)
  {
    hide *;
    EntriesAre(n, t);
    TableCount(RuleOf(n), t);
  }

  // ----- the filter -----

  // Only buckets that 32 address bits can name are ever used.
  ghost predicate Addressed(t: seq<seq<Tag>>) {
    forall i, j | 0 <= i < |t| && 0 <= j < |t[i]| && t[i][j] != 0 :: i < WORD
  }

  datatype Victim = Victim(index: nat, tag: Tag, used: bool)

  type Half = h: nat | h < 0x1_0000_0000

  // A hash value of a key: the high half addresses, the low half gives the tag.
  datatype HashValue = HashValue(high: Half, low: Tag)

  // A place for a tag of the filter.
  ghost predicate Placeable(n: nat, w: nat, i: nat, tag: Tag)
    requires Supported(w)
  {
    i < n && i < WORD && tag != 0 && Masked(w, tag) == tag
  }

  lemma TagIsPlaceable(w: nat, hv: Tag)
    requires Supported(w)
    ensures TagHash(w, hv) != 0 && Masked(w, TagHash(w, hv)) == TagHash(w, hv)
  {
  }

  // Every tag in the table fits its slot.
  ghost predicate AllMasked(w: nat, t: seq<seq<Tag>>)
    requires Supported(w)
  {
    forall i, j | 0 <= i < |t| && 0 <= j < |t[i]| :: Masked(w, t[i][j]) == t[i][j]
  }

  ghost predicate Sane(n: nat, w: nat, t: seq<seq<Tag>>) {
    && IsPower(n) && Supported(w) && |t| == n && Addressed(t) && AllMasked(w, t)
    && forall i | 0 <= i < |t| :: |t[i]| == TAGS_PER_BUCKET
  }

  lemma {:induction false} SaneUpdate(n: nat, w: nat, t: seq<seq<Tag>>, i: nat, j: nat, tag: Tag)
    requires Sane(n, w, t) && Supported(w) && i < |t| && j < |t[i]| && Masked(w, tag) == tag && (tag == 0 || i < WORD)
    ensures Sane(n, w, Updated(t, i, j, tag))
  {
    hide Masked, IsPower;
    var u := Updated(t, i, j, tag);
    assert forall x | 0 <= x < |t| && x != i :: u[x] == t[x];
    assert forall y | 0 <= y < |t[i]| && y != j :: u[i][y] == t[i][y];
  }

  lemma SaneMeans(n: nat, w: nat, t: seq<seq<Tag>>)
    requires Sane(n, w, t) && Supported(w)
    ensures IsPower(n) && |t| == n && forall i | 0 <= i < |t| :: |t[i]| == TAGS_PER_BUCKET
    ensures forall i, j | 0 <= i < |t| && 0 <= j < |t[i]| :: Masked(w, t[i][j]) == t[i][j]
    ensures forall i, j | 0 <= i < |t| && 0 <= j < |t[i]| && t[i][j] != 0 :: i < WORD
  {
    hide Masked, IsPower;
  }

  lemma PlaceableMeans(n: nat, w: nat, i: nat, tag: Tag)
    requires Supported(w)
    ensures Placeable(n, w, i, tag) <==> i < n && i < WORD && Masked(w, tag) == tag && tag != 0
  {
    hide Masked;
  }

  // Writing a tag into a slot: its entry comes in, the entry of the tag that
  // was there goes out.
  lemma {:induction false} WriteSlot(n: nat, w: nat, t: seq<seq<Tag>>, i: nat, j: nat, tag: Tag)
    requires Sane(n, w, t) && Supported(w) && Placeable(n, w, i, tag) && j < TAGS_PER_BUCKET && n > 0
    ensures i < |t| && j < |t[i]| && Sane(n, w, Updated(t, i, j, tag))
    ensures Entries(n, Updated(t, i, j, tag)) + OneEntry(n, i, t[i][j]) == Entries(n, t) + multiset{Canon(n, i, tag)}
    ensures NumTags(Updated(t, i, j, tag)) == NumTags(t) + if t[i][j] == 0 then 1 else 0
    ensures t[i][j] != 0 ==> Placeable(n, w, i, t[i][j])
  {
    hide *;
    SaneMeans(n, w, t);
    PlaceableMeans(n, w, i, tag);
    PlaceableMeans(n, w, i, t[i][j]);
    SaneUpdate(n, w, t, i, j, tag);
    EntriesUpdate(n, t, i, j, tag);
    OneEntryIs(n, i, tag);
  }

  // Clearing a slot.
  lemma {:induction false} ClearSlot(n: nat, w: nat, t: seq<seq<Tag>>, i: nat, j: nat)
    requires Sane(n, w, t) && Supported(w) && i < |t| && j < |t[i]| && t[i][j] != 0 && n > 0
    ensures Sane(n, w, Updated(t, i, j, 0))
    ensures Entries(n, Updated(t, i, j, 0)) + multiset{Canon(n, i, t[i][j])} == Entries(n, t)
    ensures NumTags(Updated(t, i, j, 0)) + 1 == NumTags(t)
  {
    hide *;
    MaskedZero(w);
    SaneUpdate(n, w, t, i, j, 0);
    EntriesUpdate(n, t, i, j, 0);
    OneEntryIs(n, i, 0);
    OneEntryIs(n, i, t[i][j]);
  }

  // A full bucket holds no empty slot to lose track of.
  lemma FullBucket(q: seq<Tag>, j: nat)
    requires 0 !in q && j < |q|
    ensures q[j] != 0
  {
  }

  // The tag of an entry in the table is in one of the two buckets of any
  // place with that entry.
  lemma {:induction false} EntryIsFound(n: nat, w: nat, t: seq<seq<Tag>>, i: nat, tag: Tag)
    requires Sane(n, w, t) && Supported(w) && Placeable(n, w, i, tag) && n > 0
    requires Canon(n, i, tag) in Entries(n, t)
    ensures AltIndex(n, i, tag) < n == |t|
    ensures tag in t[i] || tag in t[AltIndex(n, i, tag)]
  {
    AltInvolution(n, i, tag);
    var x, y := InTable(RuleOf(n), t, Canon(n, i, tag));
    RuleMeans(n, x, t[x][y]);
    CanonSame(n, i, x, tag, t[x][y]);
    assert t[x][y] in t[x];
    hide Masked, Entries, AltIndex, Canon, IsPower;
  }

  // And a tag in one of the two buckets is that entry.
  lemma {:induction false} FoundIsEntry(n: nat, w: nat, t: seq<seq<Tag>>, i: nat, tag: Tag, b: nat)
    requires Sane(n, w, t) && Supported(w) && Placeable(n, w, i, tag) && n > 0
    requires b < n == |t| && (b == i || b == AltIndex(n, i, tag)) && tag in t[b]
    ensures Canon(n, i, tag) in Entries(n, t) && Canon(n, b, tag) == Canon(n, i, tag)
  {
    CanonAlt(n, i, tag);
    var j :| 0 <= j < |t[b]| && t[b][j] == tag;
    RuleMeans(n, b, tag);
    SlotInTable(RuleOf(n), t, b, j);
    hide Masked, Entries, AltIndex, Canon, IsPower;
  }

  // ----- the kick chain -----

  // The table, the number of items and the victim.
  datatype State = State(table: seq<seq<Tag>>, items: nat, victim: Victim)

  // The table before an attempt, and the tag that is to go into a bucket.
  datatype Round = Round(table: seq<seq<Tag>>, index: nat, tag: Tag)

  ghost predicate HasSlot(t: seq<seq<Tag>>, i: nat) {
    i < |t| && 0 in t[i]
  }

  // The tag goes into the first empty slot of the bucket.
  ghost predicate Placed(t: seq<seq<Tag>>, i: nat, tag: Tag, u: seq<seq<Tag>>) {
    i < |t| && FirstSlot(t[i], 0) < |t[i]| && u == Updated(t, i, FirstSlot(t[i], 0), tag)
  }

  // The tag changes places with one of the bucket, which goes to its other bucket.
  ghost predicate KicksOut(n: nat, r: Round, next: Round, slot: nat)
    requires n > 0
  {
    && r.index < |r.table| && slot < |r.table[r.index]|
    && next.table == Updated(r.table, r.index, slot, r.tag)
    && next.tag == r.table[r.index][slot] && next.index == AltIndex(n, r.index, next.tag)
  }

  // An attempt that finds its bucket full. The first one kicks nothing out.
  ghost predicate Next(n: nat, first: bool, r: Round, next: Round)
    requires n > 0
  {
    && !HasSlot(r.table, r.index)
    && if first then next == Round(r.table, AltIndex(n, r.index, r.tag), r.tag)
       else exists slot: nat :: KicksOut(n, r, next, slot)
  }

  ghost predicate Chain(n: nat, rounds: seq<Round>)
    requires n > 0
  {
    forall k: nat | k + 1 < |rounds| :: Next(n, k == 0, rounds[k], rounds[k + 1])
  }

  // A chain ends with a tag placed, or after all attempts with a victim.
  ghost predicate AddedBy(n: nat, s: State, i: nat, tag: Tag, rounds: seq<Round>, s2: State)
    requires n > 0
  {
    && rounds != [] && rounds[0] == Round(s.table, i, tag) && Chain(n, rounds)
    && var last := rounds[|rounds| - 1];
       if s2.victim.used then
         && |rounds| == MAX_CUCKOO_COUNT + 1
         && s2 == State(last.table, s.items, Victim(last.index, last.tag, true))
       else
         && |rounds| <= MAX_CUCKOO_COUNT && HasSlot(last.table, last.index)
         && Placed(last.table, last.index, last.tag, s2.table) && s2.items == s.items + 1 && s2.victim == s.victim
  }

  ghost predicate Added(n: nat, s: State, i: nat, tag: Tag, s2: State)
    requires n > 0
  {
    exists rounds: seq<Round> :: AddedBy(n, s, i, tag, rounds, s2)
  }

  lemma ChainOfOne(n: nat, r: Round)
    requires n > 0
    ensures Chain(n, [r])
  {
  }

  lemma ChainGrows(n: nat, rounds: seq<Round>, next: Round)
    requires n > 0 && rounds != [] && Chain(n, rounds) && Next(n, |rounds| == 1, rounds[|rounds| - 1], next)
    ensures Chain(n, rounds + [next])
  {
    hide Next;
    var more := rounds + [next];
    forall k: nat | k + 1 < |more|
      ensures Next(n, k == 0, more[k], more[k + 1])
    {
      if k + 1 < |rounds| {
        assert Next(n, k == 0, rounds[k], rounds[k + 1]);
      }
    }
  }

  lemma AddedPlaces(n: nat, s: State, rounds: seq<Round>, u: seq<seq<Tag>>)
    requires n > 0 && rounds != [] && |rounds| <= MAX_CUCKOO_COUNT && Chain(n, rounds) && rounds[0].table == s.table
    requires !s.victim.used
    requires var last := rounds[|rounds| - 1];
             HasSlot(last.table, last.index) && Placed(last.table, last.index, last.tag, u)
    ensures Added(n, s, rounds[0].index, rounds[0].tag, State(u, s.items + 1, s.victim))
  {
    hide Chain, HasSlot, Placed;
    assert AddedBy(n, s, rounds[0].index, rounds[0].tag, rounds, State(u, s.items + 1, s.victim));
  }

  lemma AddedVictim(n: nat, s: State, rounds: seq<Round>)
    requires n > 0 && |rounds| == MAX_CUCKOO_COUNT + 1 && Chain(n, rounds) && rounds[0].table == s.table
    ensures var last := rounds[|rounds| - 1];
            Added(n, s, rounds[0].index, rounds[0].tag, State(last.table, s.items, Victim(last.index, last.tag, true)))
  {
    hide Chain;
    var last := rounds[|rounds| - 1];
    assert AddedBy(n, s, rounds[0].index, rounds[0].tag, rounds,
                   State(last.table, s.items, Victim(last.index, last.tag, true)));
  }

  // With an empty slot in either bucket, the tag goes in and nothing is kicked out.
  lemma RoomIsUsed(n: nat, s: State, i: nat, tag: Tag, s2: State)
    requires n > 0 && Added(n, s, i, tag, s2)
    ensures HasSlot(s.table, i) ==> !s2.victim.used && s2.items == s.items + 1 && Placed(s.table, i, tag, s2.table)
    ensures !HasSlot(s.table, i) && HasSlot(s.table, AltIndex(n, i, tag)) ==>
              !s2.victim.used && s2.items == s.items + 1 && Placed(s.table, AltIndex(n, i, tag), tag, s2.table)
  {
    hide HasSlot, Placed, AltIndex, KicksOut;
    var rounds :| AddedBy(n, s, i, tag, rounds, s2);
    if |rounds| > 1 {
      assert Next(n, true, rounds[0], rounds[1]);
      if |rounds| > 2 {
        assert Next(n, false, rounds[1], rounds[2]);
      }
    }
  }

  // A victim is left only after 500 attempts that found their buckets full.
  lemma VictimMeans(n: nat, s: State, i: nat, tag: Tag, s2: State) returns (rounds: seq<Round>)
    requires n > 0 && Added(n, s, i, tag, s2) && s2.victim.used
    ensures |rounds| == MAX_CUCKOO_COUNT + 1 && Chain(n, rounds) && rounds[0] == Round(s.table, i, tag)
    ensures forall k: nat | k < MAX_CUCKOO_COUNT :: !HasSlot(rounds[k].table, rounds[k].index)
    ensures forall k: nat | k < MAX_CUCKOO_COUNT :: rounds[k + 1].index == AltIndex(n, rounds[k].index, rounds[k + 1].tag)
  {
    hide HasSlot, AltIndex;
    rounds :| AddedBy(n, s, i, tag, rounds, s2);
    forall k: nat | k < MAX_CUCKOO_COUNT
      ensures !HasSlot(rounds[k].table, rounds[k].index)
      ensures rounds[k + 1].index == AltIndex(n, rounds[k].index, rounds[k + 1].tag)
    {
      assert Next(n, k == 0, rounds[k], rounds[k + 1]);
    }
  }

  // ----- deletion -----

  // The first slot of the bucket that holds the tag is cleared.
  ghost predicate Cleared(t: seq<seq<Tag>>, i: nat, tag: Tag, u: seq<seq<Tag>>) {
    i < |t| && FirstSlot(t[i], tag) < |t[i]| && u == Updated(t, i, FirstSlot(t[i], tag), 0)
  }

  ghost predicate HoldsTag(t: seq<seq<Tag>>, i: nat, tag: Tag) {
    i < |t| && tag in t[i]
  }

  // The victim, if there is one, is added again.
  ghost predicate Eliminated(n: nat, s: State, s2: State)
    requires n > 0
  {
    if s.victim.used then Added(n, s.(victim := s.victim.(used := false)), s.victim.index, s.victim.tag, s2)
    else s2 == s
  }

  ghost predicate ClearedThenEliminated(n: nat, s: State, i: nat, tag: Tag, s2: State)
    requires n > 0
  {
    s.items > 0 && exists u: seq<seq<Tag>> ::
      Cleared(s.table, i, tag, u) && Eliminated(n, State(u, s.items - 1, s.victim), s2)
  }

  // From the primary bucket, else from the other one, else the victim.
  ghost predicate Deleted(n: nat, s: State, i: nat, tag: Tag, s2: State, status: Status)
    requires n > 0
  {
    var a := AltIndex(n, i, tag);
    if HoldsTag(s.table, i, tag) then status == Ok && ClearedThenEliminated(n, s, i, tag, s2)
    else if HoldsTag(s.table, a, tag) then status == Ok && ClearedThenEliminated(n, s, a, tag, s2)
    else if s.victim.used && s.victim.tag == tag && (s.victim.index == i || s.victim.index == a) then
      status == Ok && s2 == s.(victim := s.victim.(used := false))
    else status == NotFound && s2 == s
  }

  lemma DeletedFromTable(n: nat, s: State, i: nat, tag: Tag, u: State, s2: State)
    requires n > 0 && (HoldsTag(s.table, i, tag) || HoldsTag(s.table, AltIndex(n, i, tag), tag))
    requires Cleared(s.table, if HoldsTag(s.table, i, tag) then i else AltIndex(n, i, tag), tag, u.table)
    requires u.items + 1 == s.items && u.victim == s.victim && Eliminated(n, u, s2)
    ensures Deleted(n, s, i, tag, s2, Ok)
  {
    hide HoldsTag, Cleared, Eliminated, AltIndex;
    assert u == State(u.table, s.items - 1, s.victim);
  }

  lemma DeletedVictim(n: nat, s: State, i: nat, tag: Tag, s2: State)
    requires n > 0 && !HoldsTag(s.table, i, tag) && !HoldsTag(s.table, AltIndex(n, i, tag), tag)
    requires s.victim.used && s.victim.tag == tag && (s.victim.index == i || s.victim.index == AltIndex(n, i, tag))
    requires s2 == s.(victim := s.victim.(used := false))
    ensures Deleted(n, s, i, tag, s2, Ok)
  {
    hide HoldsTag, AltIndex;
  }

  lemma DeletedNothing(n: nat, s: State, i: nat, tag: Tag)
    requires n > 0 && !HoldsTag(s.table, i, tag) && !HoldsTag(s.table, AltIndex(n, i, tag), tag)
    requires !(s.victim.used && s.victim.tag == tag && (s.victim.index == i || s.victim.index == AltIndex(n, i, tag)))
    ensures Deleted(n, s, i, tag, s, NotFound)
  {
    hide HoldsTag, AltIndex;
  }

  class CuckooFilter {
    const w: nat
    const n: nat
    const hasher: nat -> HashValue
    const table: SingleTable
    var numItems: nat
    var victim: Victim
    ghost var live: multiset<Entry>

    // The table is sane and the number of items is that of its tags.
    ghost predicate Consistent()
      reads this, table, table.buckets
    {
      && n > 0 && Supported(w)
      && table.w == w && table.numBuckets == n && table.Valid()
      && Sane(n, w, table.Contents())
      && numItems == NumTags(table.Contents())
      && (victim.used ==> Placeable(n, w, victim.index, victim.tag))
    }

    ghost function VictimEntries(): multiset<Entry>
      requires n > 0
      reads this
    {
      if victim.used then multiset{Canon(n, victim.index, victim.tag)} else multiset{}
    }

    // The table and the victim hold exactly the entries of the live keys.
    ghost predicate Valid()
      reads this, table, table.buckets
    {
      Consistent() && live == Entries(n, table.Contents()) + VictimEntries()
    }

    constructor (width: nat, numBuckets: nat, hasher: nat -> HashValue)
      requires Supported(width) && IsPower(numBuckets) && numBuckets > 0
      ensures Valid() && live == multiset{} && numItems == 0 && !victim.used
      ensures w == width && n == numBuckets && this.hasher == hasher && fresh(table) && fresh(table.buckets)
    {
      w, n := width, numBuckets;
      this.hasher := hasher;
      table := new SingleTable(width, numBuckets);
      numItems := 0;
      victim := Victim(0, 0, false);
      live := multiset{};
      new;
      NothingStored(n, w, table.Contents());
    }

    // The size counts the live keys, all but the victim.
    lemma SizeCountsLive()
      requires Valid()
      ensures |live| == numItems + if victim.used then 1 else 0
    {
      EntriesCount(n, table.Contents());
      hide Entries, NumTags, Sane, Canon, Placeable;
    }

    // The primary bucket and the tag of a key.
    function Index(key: nat): nat
      requires n > 0
    {
      IndexHash(n, hasher(key).high)
    }

    function TagOf(key: nat): Tag
      requires Supported(w)
    {
      TagHash(w, hasher(key).low)
    }

    ghost function EntryOf(key: nat): Entry
      requires n > 0 && Supported(w)
    {
      Canon(n, Index(key), TagOf(key))
    }

    lemma KeyIsPlaceable(key: nat)
      requires IsPower(n) && Supported(w)
      ensures n > 0 && Placeable(n, w, Index(key), TagOf(key))
    {
      IndexInRange(n, hasher(key).high);
      TagIsPlaceable(w, hasher(key).low);
      hide IndexHash, TagHash, IsPower;
    }

    // What the source keeps.
    ghost function Now(): State
      requires table.Valid()
      reads this, table, table.buckets
    {
      State(table.Contents(), numItems, victim)
    }

    // One attempt. Without room the tag stays in hand, or, when kicking out,
    // changes places with a tag of the bucket.
    method TryInsert(i: nat, tag: Tag, kickout: bool) returns (ok: bool, hand: Tag)
      requires Consistent() && !victim.used && Placeable(n, w, i, tag)
      requires live == Entries(n, table.Contents()) + multiset{Canon(n, i, tag)}
      modifies this`numItems, table.buckets
      ensures Consistent() && !victim.used
      ensures ok ==> live == Entries(n, table.Contents())
      ensures !ok ==> Placeable(n, w, i, hand) && live == Entries(n, table.Contents()) + multiset{Canon(n, i, hand)}
      ensures ok <==> HasSlot(old(table.Contents()), i)
      ensures ok ==> Placed(old(table.Contents()), i, tag, table.Contents()) && numItems == old(numItems) + 1
      ensures !ok ==> numItems == old(numItems) && Next(n, !kickout, Round(old(table.Contents()), i, tag),
                                                        Round(table.Contents(), AltIndex(n, i, hand), hand))
    {
      hide Entries, NumTags, Sane, Canon, Placeable, Masked, OneEntry, AltIndex, FirstSlot, Updated;
      ghost var t := table.Contents();
      PlaceableMeans(n, w, i, tag);
      SaneMeans(n, w, t);
      var oldtag;
      ghost var slot;
      ok, oldtag, slot := table.InsertTagToBucket(i, tag, kickout);
      WriteSlot(n, w, t, i, slot, tag);
      OneEntryIs(n, i, t[i][slot]);
      if ok {
        numItems := numItems + 1;
      } else {
        FullBucket(t[i], slot);
      }
      hand := if kickout then oldtag else tag;
      if !ok && kickout {
        assert KicksOut(n, Round(t, i, tag), Round(table.Contents(), AltIndex(n, i, hand), hand), slot);
      }
    }

    // The kick chain. The tag on its way and the table together keep the same
    // entries at every step; what is left over becomes the victim.
    method AddImpl(i: nat, tag: Tag)
      requires Consistent() && !victim.used && Placeable(n, w, i, tag)
      requires live == Entries(n, table.Contents()) + multiset{Canon(n, i, tag)}
      modifies this`numItems, this`victim, table.buckets
      ensures Valid()
      ensures Added(n, old(Now()), i, tag, Now())
      ensures HasSlot(old(table.Contents()), i) || HasSlot(old(table.Contents()), AltIndex(n, i, tag)) ==>
                !victim.used && numItems == old(numItems) + 1
    {
      hide *;
      ConsistentMeans();
      ghost var s := Now();
      NowIs();
      var curindex, curtag := i, tag;
      ghost var rounds := [Round(s.table, i, tag)];
      ChainOfOne(n, rounds[0]);
      for count := 0 to MAX_CUCKOO_COUNT
        invariant Consistent() && table.Valid() && n > 0 && Supported(w) && !victim.used && Placeable(n, w, curindex, curtag)
        invariant victim == s.victim && numItems == s.items
        invariant live == Entries(n, table.Contents()) + multiset{Canon(n, curindex, curtag)}
        invariant |rounds| == count + 1 && Chain(n, rounds) && rounds[0] == Round(s.table, i, tag)
        invariant rounds[count] == Round(table.Contents(), curindex, curtag)
      {
        var ok, hand := TryInsert(curindex, curtag, count > 0);
        ConsistentMeans();
        NowIs();
        if ok {
          AddedPlaces(n, s, rounds, table.Contents());
          RoomIsUsed(n, s, i, tag, Now());
          MakeValid();
          return;
        }
        curtag := hand;
        ghost var next := Round(table.Contents(), AltIndex(n, curindex, curtag), curtag);
        ChainGrows(n, rounds, next);
        rounds := rounds + [next];
        NextPlace(n, w, curindex, curtag);
        curindex := AltIndex(n, curindex, curtag);
      }
      ConsistentMeans();
      victim := Victim(curindex, curtag, true);
      AddedVictim(n, s, rounds);
      NowIs();
      RoomIsUsed(n, s, i, tag, Now());
      HoldVictim();
    }

    lemma NowIs()
      requires table.Valid()
      ensures Now() == State(table.Contents(), numItems, victim)
    {
    }

    lemma ConsistentMeans()
      requires Consistent()
      ensures n > 0 && Supported(w) && table.w == w && table.numBuckets == n && table.Valid() && IsPower(n)
      ensures Sane(n, w, table.Contents()) && numItems == NumTags(table.Contents())
    {
      hide NumTags, Placeable, Masked, IsPower;
    }

    lemma MakeValid()
      requires Consistent() && !victim.used && n > 0 && table.Valid() && live == Entries(n, table.Contents())
      ensures Valid()
    {
      hide Entries, Consistent;
    }

    lemma HoldVictim()
      requires n > 0 && Supported(w) && table.w == w && table.numBuckets == n && table.Valid()
      requires Sane(n, w, table.Contents()) && numItems == NumTags(table.Contents())
      requires victim.used && Placeable(n, w, victim.index, victim.tag)
      requires live == Entries(n, table.Contents()) + multiset{Canon(n, victim.index, victim.tag)}
      ensures Valid()
    {
      hide Entries, NumTags, Sane, Canon, Placeable;
    }

    // Adding a key makes it live, unless the victim slot is taken.
    method Add(key: nat) returns (status: Status)
      requires Valid()
      modifies this`numItems, this`victim, this`live, table.buckets
      ensures Valid()
      ensures status == if old(victim.used) then NotEnoughSpace else Ok
      ensures live == if status == Ok then old(live) + multiset{EntryOf(key)} else old(live)
      ensures status != Ok ==> Now() == old(Now())
      ensures status == Ok ==> Added(n, old(Now()), Index(key), TagOf(key), Now())
      ensures !old(victim.used) && (HasSlot(old(table.Contents()), Index(key))
                                    || HasSlot(old(table.Contents()), AltIndex(n, Index(key), TagOf(key)))) ==>
                !victim.used && numItems == old(numItems) + 1
    {
      hide Entries, NumTags, Sane, Canon, Placeable, Index, TagOf, Added, HasSlot, AltIndex;
      if victim.used {
        return NotEnoughSpace;
      }
      SaneMeans(n, w, table.Contents());
      KeyIsPlaceable(key);
      live := live + multiset{EntryOf(key)};
      AddImpl(Index(key), TagOf(key));
      return Ok;
    }

    // A key is reported exactly when a live key has its tag and its pair of
    // buckets; so no live key is ever missed.
    method Contain(key: nat) returns (status: Status)
      requires Valid()
      ensures status == if EntryOf(key) in live then Ok else NotFound
    {
      hide Entries, NumTags, Sane, Canon, Placeable, Index, TagOf, AltIndex, IsPower;
      ghost var t := table.Contents();
      SaneMeans(n, w, t);
      KeyIsPlaceable(key);
      var i1, tag := Index(key), TagOf(key);
      PlaceableMeans(n, w, i1, tag);
      AltInvolution(n, i1, tag);
      var i2 := AltIndex(n, i1, tag);
      var found := victim.used && tag == victim.tag && (i1 == victim.index || i2 == victim.index);
      if victim.used {
        PlaceableMeans(n, w, victim.index, victim.tag);
        CanonSame(n, i1, victim.index, tag, victim.tag);
      }
      var inTable := table.FindTagInBuckets(i1, i2, tag);
      LookupIsExact(n, w, t, i1, tag);
      status := if found || inTable then Ok else NotFound;
    }

    // Deleting a key takes one entry of its kind away, if there is one, and
    // gives the victim another chance to get into the table.
    method Delete(key: nat) returns (status: Status)
      requires Valid()
      modifies this`numItems, this`victim, this`live, table.buckets
      ensures Valid()
      ensures status == if EntryOf(key) in old(live) then Ok else NotFound
      ensures live == if status == Ok then old(live) - multiset{EntryOf(key)} else old(live)
      ensures status == NotFound ==> Now() == old(Now())
      ensures Deleted(n, old(Now()), Index(key), TagOf(key), Now(), status)
    {
      hide *;
      ValidMeans(key);
      NowIs();
      ghost var s := Now();
      var i1, tag := Index(key), TagOf(key);
      var i2 := AltIndex(n, i1, tag);
      var ok := DeleteStored(i1, i2, tag);
      if ok {
        return Ok;
      }
      NowIs();
      if victim.used && tag == victim.tag && (i1 == victim.index || i2 == victim.index) {
        DropVictim(EntryOf(key));
        NowIs();
        DeletedVictim(n, s, i1, tag, Now());
        return Ok;
      }
      DeletedNothing(n, s, i1, tag);
      return NotFound;
    }

    // Deletion from the table, with another chance for the victim.
    method DeleteStored(i1: nat, i2: nat, tag: Tag) returns (ok: bool)
      requires Valid() && Placeable(n, w, i1, tag) && i2 == AltIndex(n, i1, tag)
      modifies this`numItems, this`victim, this`live, table.buckets
      ensures Valid() && table.Valid()
      ensures ok <==> Canon(n, i1, tag) in Entries(n, old(table.Contents()))
      ensures ok <==> HoldsTag(old(table.Contents()), i1, tag) || HoldsTag(old(table.Contents()), i2, tag)
      ensures !ok ==> live == old(live) && Now() == old(Now())
      ensures ok ==> Canon(n, i1, tag) in old(live) && live == old(live) - multiset{Canon(n, i1, tag)}
      ensures ok ==> Deleted(n, old(Now()), i1, tag, Now(), Ok)
    {
      hide *;
      ValidParts();
      NowIs();
      ghost var s := Now();
      ok := DeleteFromEither(i1, i2, tag);
      ValidParts();
      NowIs();
      if ok {
        ghost var u := Now();
        TryEliminateVictim();
        ValidParts();
        NowIs();
        DeletedFromTable(n, s, i1, tag, u, Now());
      }
    }

    lemma ValidParts()
      requires Valid()
      ensures n > 0 && Supported(w) && table.Valid() && Sane(n, w, table.Contents())
    {
      hide Entries, NumTags, Sane, Canon, Placeable;
    }

    // The entry of every key.
    ghost function EntryMap(): nat -> Entry
      requires n > 0 && Supported(w)
    {
      (key: nat) => EntryOf(key)
    }

    lemma EntryMapIs(key: nat)
      requires n > 0 && Supported(w)
      ensures EntryMap()(key) == EntryOf(key)
    {
      hide EntryOf;
    }

    // What one operation does: an addition is refused when there is a victim.
    ghost predicate Applied(s: State, op: Operation, s2: State)
      requires n > 0 && Supported(w)
    {
      match op
      case InsertKey(key) => !s.victim.used && Added(n, s, Index(key), TagOf(key), s2)
      case DeleteKey(key) => exists status: Status :: Deleted(n, s, Index(key), TagOf(key), s2, status)
    }

    // The states of a run, one operation after the other.
    ghost predicate IsRun(ops: seq<Operation>, states: seq<State>)
      requires n > 0 && Supported(w)
    {
      |states| == |ops| + 1 && forall k: nat | k < |ops| :: Applied(states[k], ops[k], states[k + 1])
    }

    lemma RunGrows(ops: seq<Operation>, i: nat, states: seq<State>, next: State)
      requires n > 0 && Supported(w) && i < |ops| && IsRun(ops[..i], states)
      requires |states| == i + 1 && Applied(states[i], ops[i], next)
      ensures IsRun(ops[..i + 1], states + [next])
    {
      hide Applied;
      var more := states + [next];
      forall k: nat | k < i + 1
        ensures Applied(more[k], ops[..i + 1][k], more[k + 1])
      {
        if k < i {
          assert Applied(states[k], ops[..i][k], states[k + 1]);
        }
      }
    }

    lemma RunOfNone(s: State)
      requires n > 0 && Supported(w)
      ensures IsRun([], [s])
    {
    }

    lemma AppliedIs(s: State, op: Operation, s2: State, status: Status)
      requires n > 0 && Supported(w)
      requires op.InsertKey? ==> !s.victim.used && Added(n, s, Index(op.key), TagOf(op.key), s2)
      requires op.DeleteKey? ==> Deleted(n, s, Index(op.key), TagOf(op.key), s2, status)
      ensures Applied(s, op, s2)
    {
      hide Added, Deleted, Index, TagOf;
    }

    method Apply(op: Operation) returns (ok: bool)
      requires Valid()
      modifies this`numItems, this`victim, this`live, table.buckets
      ensures Valid() && live == if ok then After(EntryMap(), old(live), op) else old(live)
      ensures ok <==> op.DeleteKey? || !old(victim.used)
      ensures if ok then Applied(old(Now()), op, Now()) else Now() == old(Now())
    {
      hide *;
      ValidParts();
      NowIs();
      ghost var s := Now();
      AfterIs(EntryMap(), live, op);
      EntryMapIs(op.key);
      ok := true;
      var status;
      match op {
        case InsertKey(key) =>
          status := Add(key);
          ok := status == Ok;
        case DeleteKey(key) =>
          status := Delete(key);
      }
      ValidParts();
      NowIs();
      if ok {
        AppliedIs(s, op, Now(), status);
      }
    }

    // Runs operations until an addition is refused, because there is a victim.
    // Over any run, the live keys are those added and not deleted.
    method Perform(ops: seq<Operation>) returns (done: nat, ghost states: seq<State>)
      requires Valid()
      modifies this`numItems, this`victim, this`live, table.buckets
      ensures Valid() && done <= |ops| && live == LiveAfter(EntryMap(), old(live), ops[..done])
      ensures done < |ops| ==> ops[done].InsertKey? && victim.used
      ensures IsRun(ops[..done], states) && |states| == done + 1
      ensures states[0] == old(Now()) && states[done] == Now()
    {
      hide *;
      ValidParts();
      NowIs();
      done := 0;
      ghost var start := live;
      states := [Now()];
      RunOfNone(Now());
      LiveAfterNone(EntryMap(), start);
      assert ops[..0] == [];
      while done < |ops|
        invariant Valid() && done <= |ops| && live == LiveAfter(EntryMap(), start, ops[..done])
        invariant table.Valid() && |states| == done + 1 && IsRun(ops[..done], states)
        invariant states[0] == old(Now()) && states[done] == Now()
      {
        LiveAfterStep(EntryMap(), start, ops, done);
        NowIs();
        var ok := Apply(ops[done]);
        ValidParts();
        NowIs();
        if !ok {
          return;
        }
        RunGrows(ops, done, states, Now());
        states := states + [Now()];
        done := done + 1;
      }
    }

    // The first bucket of a key is the remainder of the upper half of its hash.
    lemma IndexIs(key: nat)
      requires IsPower(n)
      ensures n > 0 && Index(key) == hasher(key).high % n
    {
      IndexInRange(n, hasher(key).high);
      hide IndexHash, IsPower;
    }

    // After such a run a key is reported exactly when the low bits of its hash value
    // and its pair of buckets agree with those of a present key.
    lemma ReportedExactly(ops: seq<Operation>, key: nat)
      requires IsPower(n) && Supported(w) && n > 0 && live == LiveAfter(EntryMap(), multiset{}, ops)
      requires DeletesPresent(ops)
      ensures EntryOf(key) in live <==>
              exists other: nat | other in Present(ops) ::
                && SameLow(w, hasher(key).low, hasher(other).low)
                && (Index(other) == Index(key) || Index(other) == AltIndex(n, Index(key), TagOf(key)))
    {
      hide *;
      LiveArePresent(EntryMap(), ops);
      if EntryOf(key) in live {
        var other := EntryHasKey(EntryMap(), Present(ops), EntryOf(key));
        EntryMapIs(other);
        SameEntry(key, other);
      }
      forall other: nat | other in Present(ops) && SameLow(w, hasher(key).low, hasher(other).low)
                          && (Index(other) == Index(key) || Index(other) == AltIndex(n, Index(key), TagOf(key)))
        ensures EntryOf(key) in live
      {
        KeyHasEntry(EntryMap(), Present(ops), other);
        EntryMapIs(other);
        SameEntry(key, other);
      }
    }

    // Two keys have one entry when their low bits and their buckets agree.
    lemma SameEntry(key: nat, other: nat)
      requires IsPower(n) && Supported(w) && n > 0
      ensures EntryOf(key) == EntryOf(other) <==>
              && SameLow(w, hasher(key).low, hasher(other).low)
              && (Index(other) == Index(key) || Index(other) == AltIndex(n, Index(key), TagOf(key)))
    {
      IndexInRange(n, hasher(key).high);
      IndexInRange(n, hasher(other).high);
      SameTagExactly(w, hasher(key).low, hasher(other).low);
      hide IsPower, TagHash, SameLow, IndexHash, AltIndex, Canon;
      CanonSame(n, Index(key), Index(other), TagOf(key), TagOf(other));
    }

    // After a run from an empty filter that deletes only present keys, every
    // key that is present has its entry, so that a lookup reports it.
    lemma PresentIsReported(ops: seq<Operation>, key: nat)
      requires n > 0 && Supported(w) && live == LiveAfter(EntryMap(), multiset{}, ops)
      requires DeletesPresent(ops) && key in Present(ops)
      ensures EntryOf(key) in live
    {
      hide *;
      PresentIsLive(EntryMap(), ops, key);
      EntryMapIs(key);
    }

    // Forgets the victim.
    method DropVictim(ghost e: Entry)
      requires Valid() && victim.used && e == Canon(n, victim.index, victim.tag)
      modifies this`victim, this`live
      ensures Valid() && e in old(live) && live == old(live) - multiset{e}
      ensures victim == old(victim).(used := false)
    {
      hide Entries, NumTags, Sane, Canon, Placeable;
      victim := victim.(used := false);
      live := live - multiset{e};
    }

    // What deletion and its callers rely on.
    lemma ValidMeans(key: nat)
      requires Valid()
      ensures n > 0 && Supported(w) && table.w == w && table.numBuckets == n && table.Valid() && IsPower(n)
      ensures Placeable(n, w, Index(key), TagOf(key)) && EntryOf(key) == Canon(n, Index(key), TagOf(key))
      ensures live == Entries(n, table.Contents()) + VictimEntries()
      ensures VictimEntries() == if victim.used then multiset{Canon(n, victim.index, victim.tag)} else multiset{}
      ensures victim.used ==>
                (Canon(n, victim.index, victim.tag) == EntryOf(key)
                 <==> TagOf(key) == victim.tag
                      && (Index(key) == victim.index || AltIndex(n, Index(key), TagOf(key)) == victim.index))
    {
      hide Entries, NumTags, Sane, Canon, Placeable, Index, TagOf, AltIndex, IsPower, Masked;
      SaneMeans(n, w, table.Contents());
      KeyIsPlaceable(key);
      PlaceableMeans(n, w, Index(key), TagOf(key));
      if victim.used {
        PlaceableMeans(n, w, victim.index, victim.tag);
        CanonSame(n, Index(key), victim.index, TagOf(key), victim.tag);
      }
    }

    // Deletes the tag from the first of its two buckets that holds it.
    method DeleteFromEither(i1: nat, i2: nat, tag: Tag) returns (ok: bool)
      requires Valid() && Placeable(n, w, i1, tag) && i2 == AltIndex(n, i1, tag)
      modifies this`numItems, this`live, table.buckets
      ensures Valid()
      ensures ok <==> Canon(n, i1, tag) in Entries(n, old(table.Contents()))
      ensures !ok ==> live == old(live) && numItems == old(numItems) && table.Contents() == old(table.Contents())
      ensures ok ==> Canon(n, i1, tag) in old(live) && live == old(live) - multiset{Canon(n, i1, tag)}
      ensures ok <==> HoldsTag(old(table.Contents()), i1, tag) || HoldsTag(old(table.Contents()), i2, tag)
      ensures ok ==> numItems + 1 == old(numItems)
      ensures ok ==> Cleared(old(table.Contents()), if HoldsTag(old(table.Contents()), i1, tag) then i1 else i2, tag,
                             table.Contents())
    {
      hide Entries, NumTags, Sane, Canon, Placeable, AltIndex, IsPower, Masked, Cleared;
      ghost var t := table.Contents();
      SaneMeans(n, w, t);
      PlaceableMeans(n, w, i1, tag);
      LookupIsExact(n, w, t, i1, tag);
      ok := DeleteFrom(i1, tag, Canon(n, i1, tag));
      if !ok {
        NextPlace(n, w, i1, tag);
        ok := DeleteFrom(i2, tag, Canon(n, i1, tag));
      }
    }

    // Gives the victim another chance to get into the table.
    method TryEliminateVictim()
      requires Valid()
      modifies this`numItems, this`victim, table.buckets
      ensures Valid()
      ensures Eliminated(n, old(Now()), Now())
      ensures old(victim.used) && (HasSlot(old(table.Contents()), old(victim.index))
                                   || HasSlot(old(table.Contents()), AltIndex(n, old(victim.index), old(victim.tag)))) ==>
                !victim.used && numItems == old(numItems) + 1
    {
      hide Entries, NumTags, Sane, Canon, Placeable, Added, HasSlot, AltIndex;
      if victim.used {
        victim := victim.(used := false);
        AddImpl(victim.index, victim.tag);
      }
    }

    // Deletes the tag from one bucket, and its entry from the live ones.
    method DeleteFrom(i: nat, tag: Tag, ghost e: Entry) returns (ok: bool)
      requires Valid() && i < n && Placeable(n, w, i, tag) && e == Canon(n, i, tag)
      modifies this`numItems, this`live, table.buckets
      ensures Valid()
      ensures ok <==> tag in old(table.Contents())[i]
      ensures !ok ==> live == old(live) && numItems == old(numItems) && table.Contents() == old(table.Contents())
      ensures ok ==> e in old(live) && live == old(live) - multiset{e}
      ensures ok ==> numItems + 1 == old(numItems) && Cleared(old(table.Contents()), i, tag, table.Contents())
    {
      hide Entries, NumTags, Sane, Canon, Placeable, FirstSlot, Updated, Masked, OneEntry;
      ghost var t := table.Contents();
      SaneMeans(n, w, t);
      PlaceableMeans(n, w, i, tag);
      ok := table.DeleteTagFromBucket(i, tag);
      if ok {
        ghost var slot := FirstSlot(t[i], tag);
        ClearSlot(n, w, t, i, slot);
        numItems := numItems - 1;
        live := live - multiset{e};
      }
    }
  }

  // Looking in the two buckets finds an entry if and only if the table holds it.
  lemma {:induction false} LookupIsExact(n: nat, w: nat, t: seq<seq<Tag>>, i: nat, tag: Tag)
    requires Sane(n, w, t) && Supported(w) && Placeable(n, w, i, tag) && n > 0
    ensures i < n == |t| && AltIndex(n, i, tag) < n
    ensures Canon(n, i, tag) in Entries(n, t) <==> tag in t[i] || tag in t[AltIndex(n, i, tag)]
  {
    hide *;
    SaneMeans(n, w, t);
    PlaceableMeans(n, w, i, tag);
    AltInvolution(n, i, tag);
    if Canon(n, i, tag) in Entries(n, t) {
      EntryIsFound(n, w, t, i, tag);
    }
    if tag in t[i] {
      FoundIsEntry(n, w, t, i, tag, i);
    }
    if tag in t[AltIndex(n, i, tag)] {
      FoundIsEntry(n, w, t, i, tag, AltIndex(n, i, tag));
    }
  }

  // Going to the other bucket.
  lemma NextPlace(n: nat, w: nat, i: nat, tag: Tag)
    requires n > 0 && Supported(w) && Placeable(n, w, i, tag) && IsPower(n)
    ensures Placeable(n, w, AltIndex(n, i, tag), tag)
    ensures Canon(n, AltIndex(n, i, tag), tag) == Canon(n, i, tag)
  {
    AltInvolution(n, i, tag);
    CanonAlt(n, i, tag);
    hide AltIndex, Canon, Masked, IsPower;
  }

  lemma {:induction false} NothingStored(n: nat, w: nat, t: seq<seq<Tag>>)
    requires IsPower(n) && n > 0 && Supported(w) && |t| == n
    requires forall i | 0 <= i < n :: t[i] == [0, 0, 0, 0]
    ensures Sane(n, w, t) && Entries(n, t) == multiset{} && NumTags(t) == 0
  {
    MaskedZero(w);
    hide Masked, IsPower;
    EntriesAre(n, t);
    EmptyTable(RuleOf(n), t);
    TableCount(RuleOf(n), t);
    hide Entries, NumTags;
  }
}
