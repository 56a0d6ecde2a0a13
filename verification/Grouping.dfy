/** Adding up by key: the totals of any list of distinct keys that covers all entries add
    up to the total of the entries. */
module Grouping {
  function Sum<K>(entries: seq<(K, int)>): int {
    if entries == [] then 0 else Sum(entries[..|entries| - 1]) + entries[|entries| - 1].1
  }

  function SumFor<K(==)>(entries: seq<(K, int)>, key: K): int {
    if entries == [] then 0
    else SumFor(entries[..|entries| - 1], key)
         + if entries[|entries| - 1].0 == key then entries[|entries| - 1].1 else 0
  }

  function SumOver<K(==)>(keys: seq<K>, entries: seq<(K, int)>): int {
    if keys == [] then 0 else SumOver(keys[..|keys| - 1], entries) + SumFor(entries, keys[|keys| - 1])
  }

  predicate Distinct<K(==)>(keys: seq<K>) {
    forall i, j | 0 <= i < j < |keys| :: keys[i] != keys[j]
  }

  lemma {:induction false} SumOverSnoc<K>(keys: seq<K>, entries: seq<(K, int)>, last: (K, int))
    requires Distinct(keys)
    ensures SumOver(keys, entries + [last]) == SumOver(keys, entries) + if last.0 in keys then last.1 else 0
    decreases |keys|
  {
    if keys != [] {
      var rest, key := keys[..|keys| - 1], keys[|keys| - 1];
      SumOverSnoc(rest, entries, last);
      var longer := entries + [last];
      assert longer[..|longer| - 1] == entries;
      assert SumFor(longer, key) == SumFor(entries, key) + if last.0 == key then last.1 else 0;
      assert key !in rest;
      assert last.0 in keys <==> last.0 in rest || last.0 == key;
    }
  }

  lemma {:induction false} SumOverNothing<K>(keys: seq<K>)
    ensures SumOver(keys, []) == 0
  {
    if keys != [] {
      SumOverNothing(keys[..|keys| - 1]);
    }
  }

  /** Conservation: grouping loses and duplicates nothing. */
  lemma {:induction false} GroupedSum<K>(keys: seq<K>, entries: seq<(K, int)>)
    requires Distinct(keys) && forall i | 0 <= i < |entries| :: entries[i].0 in keys
    ensures SumOver(keys, entries) == Sum(entries)
    decreases |entries|
  {
    if entries == [] {
      SumOverNothing(keys);
    } else {
      var rest := entries[..|entries| - 1];
      assert entries == rest + [entries[|entries| - 1]];
      GroupedSum(keys, rest);
      SumOverSnoc(keys, rest, entries[|entries| - 1]);
    }
  }

  // ----- clamped differences -----

  function Clamp(d: int): nat { if d > 0 then d else 0 }

  function SumInts(ds: seq<int>): int {
    if ds == [] then 0 else SumInts(ds[..|ds| - 1]) + ds[|ds| - 1]
  }

  function SumClamped(ds: seq<int>): nat {
    if ds == [] then 0 else SumClamped(ds[..|ds| - 1]) + Clamp(ds[|ds| - 1])
  }

  predicate OneSign(ds: seq<int>) {
    (forall i | 0 <= i < |ds| :: ds[i] >= 0) || (forall i | 0 <= i < |ds| :: ds[i] <= 0)
  }

  /** Clamping an aggregate never exceeds adding up clamped parts, and equals it exactly
      when no part pulls against another. */
  lemma {:induction false} ClampOfSum(ds: seq<int>)
    ensures Clamp(SumInts(ds)) <= SumClamped(ds)
    ensures Clamp(SumInts(ds)) == SumClamped(ds) <==> OneSign(ds)
    ensures SumInts(ds) <= SumClamped(ds)
    ensures SumInts(ds) == SumClamped(ds) <==> forall i | 0 <= i < |ds| :: ds[i] >= 0
    ensures SumClamped(ds) == 0 <==> forall i | 0 <= i < |ds| :: ds[i] <= 0
  {
    if ds != [] {
      var rest, last := ds[..|ds| - 1], ds[|ds| - 1];
      ClampOfSum(rest);
      assert forall i | 0 <= i < |rest| :: ds[i] == rest[i];
      assert (forall i | 0 <= i < |ds| :: ds[i] >= 0) <==> (forall i | 0 <= i < |rest| :: rest[i] >= 0) && last >= 0;
      assert (forall i | 0 <= i < |ds| :: ds[i] <= 0) <==> (forall i | 0 <= i < |rest| :: rest[i] <= 0) && last <= 0;
    }
  }
}
