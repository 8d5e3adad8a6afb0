/** Runs of insertions and deletions, seen by a filter as a multiset of entries and
    by its user as a list of keys. */
module Runs {

  datatype Operation = InsertKey(key: nat) | DeleteKey(key: nat)

  // The entries after one operation that goes well. Deleting the entry of an
  // absent key changes nothing.
  ghost function After<E>(entry: nat -> E, before: multiset<E>, op: Operation): multiset<E> {
    match op
    case InsertKey(key) => before + multiset{entry(key)}
    case DeleteKey(key) => before - multiset{entry(key)}
  }

  ghost function LiveAfter<E>(entry: nat -> E, start: multiset<E>, ops: seq<Operation>): multiset<E> {
    if ops == [] then start else After(entry, LiveAfter(entry, start, ops[..|ops| - 1]), ops[|ops| - 1])
  }

  lemma LiveAfterNone<E>(entry: nat -> E, start: multiset<E>)
    ensures LiveAfter(entry, start, []) == start
  {
  }

  lemma LiveAfterStep<E>(entry: nat -> E, start: multiset<E>, ops: seq<Operation>, k: nat)
    requires k < |ops|
    ensures LiveAfter(entry, start, ops[..k + 1]) == After(entry, LiveAfter(entry, start, ops[..k]), ops[k])
  {
    hide After;
    assert ops[..k + 1][..k] == ops[..k];
  }

  lemma AfterIs<E>(entry: nat -> E, before: multiset<E>, op: Operation)
    ensures op.InsertKey? ==> After(entry, before, op) == before + multiset{entry(op.key)}
    ensures op.DeleteKey? ==> After(entry, before, op) == before - multiset{entry(op.key)}
  {
  }

  // Every deletion finds the entry of its key.
  ghost predicate DeletesOnlyLive<E>(entry: nat -> E, start: multiset<E>, ops: seq<Operation>) {
    ops != [] ==>
      && DeletesOnlyLive(entry, start, ops[..|ops| - 1])
      && DeletesLive(entry, LiveAfter(entry, start, ops[..|ops| - 1]), ops[|ops| - 1])
  }

  ghost predicate DeletesLive<E>(entry: nat -> E, before: multiset<E>, op: Operation) {
    op.DeleteKey? ==> entry(op.key) in before
  }

  lemma DeletesLiveIs<E>(entry: nat -> E, before: multiset<E>, op: Operation)
    ensures DeletesLive(entry, before, op) <==> (op.DeleteKey? ==> entry(op.key) in before)
  {
  }

  lemma DeletesStep<E>(entry: nat -> E, start: multiset<E>, ops: seq<Operation>, k: nat)
    requires k < |ops|
    ensures DeletesOnlyLive(entry, start, ops[..k + 1])
            <==> DeletesOnlyLive(entry, start, ops[..k])
                 && DeletesLive(entry, LiveAfter(entry, start, ops[..k]), ops[k])
  {
    hide DeletesLive, LiveAfter;
    assert ops[..k + 1][..k] == ops[..k];
  }

  lemma DeletesNone<E>(entry: nat -> E, start: multiset<E>)
    ensures DeletesOnlyLive(entry, start, [])
  {
  }

  // ----- keys -----

  // Where a key stands first, or the number of keys.
  function FirstOf(keys: seq<nat>, key: nat): (j: nat)
    ensures j <= |keys| && (j < |keys| ==> keys[j] == key) && (key in keys ==> j < |keys|)
  {
    if keys == [] || keys[0] == key then 0 else 1 + FirstOf(keys[1..], key)
  }

  function Without(keys: seq<nat>, key: nat): seq<nat> {
    var j := FirstOf(keys, key);
    if j < |keys| then keys[..j] + keys[j + 1..] else keys
  }

  // The keys that have been inserted and not deleted.
  function Present(ops: seq<Operation>): seq<nat> {
    if ops == [] then []
    else
      var before := Present(ops[..|ops| - 1]);
      match ops[|ops| - 1]
      case InsertKey(key) => before + [key]
      case DeleteKey(key) => Without(before, key)
  }

  // Only keys that are present are ever deleted.
  predicate DeletesPresent(ops: seq<Operation>) {
    ops != [] ==>
      && DeletesPresent(ops[..|ops| - 1])
      && (ops[|ops| - 1].DeleteKey? ==> ops[|ops| - 1].key in Present(ops[..|ops| - 1]))
  }

  ghost function EntriesOf<E>(entry: nat -> E, keys: seq<nat>): multiset<E> {
    if keys == [] then multiset{} else EntriesOf(entry, keys[..|keys| - 1]) + multiset{entry(keys[|keys| - 1])}
  }

  lemma {:induction false} EntriesWithout<E>(entry: nat -> E, keys: seq<nat>, j: nat)
    requires j < |keys|
    ensures EntriesOf(entry, keys[..j] + keys[j + 1..]) + multiset{entry(keys[j])} == EntriesOf(entry, keys)
  {
    hide *;
    var n := |keys| - 1;
    assert keys == keys[..n] + [keys[n]];
    EntriesPush(entry, keys[..n], keys[n]);
    if j == n {
      assert keys[..j] + keys[j + 1..] == keys[..n];
    } else {
      var less := keys[..n][..j] + keys[..n][j + 1..];
      EntriesWithout(entry, keys[..n], j);
      EntriesPush(entry, less, keys[n]);
      assert keys[..j] + keys[j + 1..] == less + [keys[n]];
    }
  }

  lemma EntriesPush<E>(entry: nat -> E, keys: seq<nat>, key: nat)
    ensures EntriesOf(entry, keys + [key]) == EntriesOf(entry, keys) + multiset{entry(key)}
  {
    assert (keys + [key])[..|keys|] == keys;
  }

  lemma {:induction false} KeyHasEntry<E>(entry: nat -> E, keys: seq<nat>, key: nat)
    requires key in keys
    ensures entry(key) in EntriesOf(entry, keys)
  {
    var n := |keys| - 1;
    if key != keys[n] {
      assert keys == keys[..n] + [keys[n]];
      KeyHasEntry(entry, keys[..n], key);
    }
  }

  lemma {:induction false} EntryHasKey<E>(entry: nat -> E, keys: seq<nat>, e: E) returns (key: nat)
    requires e in EntriesOf(entry, keys)
    ensures key in keys && entry(key) == e
  {
    var n := |keys| - 1;
    key := keys[n];
    if entry(key) != e {
      key := EntryHasKey(entry, keys[..n], e);
    }
  }

  // In a run that deletes only present keys, the entries are exactly those of
  // the keys that are present.
  lemma {:induction false} LiveArePresent<E>(entry: nat -> E, ops: seq<Operation>)
    requires DeletesPresent(ops)
    ensures LiveAfter(entry, multiset{}, ops) == EntriesOf(entry, Present(ops))
  {
    if ops != [] {
      hide *;
      var before, op := ops[..|ops| - 1], ops[|ops| - 1];
      PresentLast(ops);
      LiveArePresent(entry, before);
      assert ops[..|ops|] == ops;
      LiveAfterStep(entry, multiset{}, ops, |ops| - 1);
      AfterIs(entry, LiveAfter(entry, multiset{}, before), op);
      if op.InsertKey? {
        EntriesPush(entry, Present(before), op.key);
      } else {
        EntriesWithoutKey(entry, Present(before), op.key);
      }
    }
  }

  lemma PresentLast(ops: seq<Operation>)
    requires ops != [] && DeletesPresent(ops)
    ensures var before, op := ops[..|ops| - 1], ops[|ops| - 1];
            && DeletesPresent(before)
            && (op.InsertKey? ==> Present(ops) == Present(before) + [op.key])
            && (op.DeleteKey? ==> op.key in Present(before) && Present(ops) == Without(Present(before), op.key))
  {
    hide Without;
  }

  lemma EntriesWithoutKey<E>(entry: nat -> E, keys: seq<nat>, key: nat)
    requires key in keys
    ensures EntriesOf(entry, Without(keys, key)) == EntriesOf(entry, keys) - multiset{entry(key)}
  {
    hide EntriesOf;
    EntriesWithout(entry, keys, FirstOf(keys, key));
  }

  // So the entry of every present key is there.
  lemma PresentIsLive<E>(entry: nat -> E, ops: seq<Operation>, key: nat)
    requires DeletesPresent(ops) && key in Present(ops)
    ensures entry(key) in LiveAfter(entry, multiset{}, ops)
  {
    hide *;
    LiveArePresent(entry, ops);
    KeyHasEntry(entry, Present(ops), key);
  }

  // And a run that deletes only present keys deletes only live entries.
  lemma {:induction false} PresentDeletesLive<E>(entry: nat -> E, ops: seq<Operation>)
    requires DeletesPresent(ops)
    ensures DeletesOnlyLive(entry, multiset{}, ops)
  {
    if ops != [] {
      var before, op := ops[..|ops| - 1], ops[|ops| - 1];
      PresentDeletesLive(entry, before);
      if op.DeleteKey? {
        PresentIsLive(entry, before, op.key);
      }
    }
    hide LiveAfter, Present;
  }
}
