/** The keyed merge with which graph nodes and parallel workers write into a list of records. */
module RecordMerge {

  predicate DistinctKeys<T, K(==)>(key: T -> K, items: seq<T>) {
    forall i, k | 0 <= i < k < |items| :: key(items[i]) != key(items[k])
  }

  /** The position of the first record with the given key, or the length. */
  function Find<T, K(==)>(key: T -> K, items: seq<T>, k: K): (i: nat)
    ensures i <= |items|
    ensures i < |items| ==> key(items[i]) == k
    ensures forall n | 0 <= n < i :: key(items[n]) != k
  {
    if items == [] then 0
    else if key(items[0]) == k then 0
    else
      var i := Find(key, items[1..], k);
      assert forall n | 1 <= n < i + 1 :: items[n] == items[1..][n - 1];
      i + 1
  }

  /** Replaces the record with the same key where it stands, or appends. */
  function Upsert<T, K(==)>(key: T -> K, items: seq<T>, x: T): seq<T> {
    var i := Find(key, items, key(x));
    if i < |items| then items[i := x] else items + [x]
  }

  function MergeInto<T, K(==)>(key: T -> K, items: seq<T>, updates: seq<T>): seq<T> {
    if updates == [] then items
    else Upsert(key, MergeInto(key, items, updates[..|updates| - 1]), updates[|updates| - 1])
  }

  /** The reducer: both lists go into one keyed dictionary, in order. */
  method MergeById<T(==), K(==)>(key: T -> K, old_: seq<T>, updates: seq<T>) returns (merged: seq<T>)
    ensures merged == MergeInto(key, MergeInto(key, [], old_), updates)
    ensures DistinctKeys(key, merged)
    ensures DistinctKeys(key, old_) ==> merged == MergeInto(key, old_, updates)
  {
    merged := [];
    for n := 0 to |old_|
      invariant merged == MergeInto(key, [], old_[..n]) && DistinctKeys(key, merged)
    {
      assert old_[..n + 1][..n] == old_[..n];
      merged := Upsert(key, merged, old_[n]);
    }
    assert old_[..|old_|] == old_;
    for n := 0 to |updates|
      invariant merged == MergeInto(key, MergeInto(key, [], old_), updates[..n]) && DistinctKeys(key, merged)
    {
      assert updates[..n + 1][..n] == updates[..n];
      merged := Upsert(key, merged, updates[n]);
    }
    assert updates[..|updates|] == updates;
    if DistinctKeys(key, old_) {
      DistinctMergesToItself(key, old_);
    }
  }

  lemma {:induction false} DistinctMergesToItself<T, K>(key: T -> K, items: seq<T>)
    requires DistinctKeys(key, items)
    ensures MergeInto(key, [], items) == items
  {
    if items != [] {
      var front, last := items[..|items| - 1], items[|items| - 1];
      DistinctMergesToItself(key, front);
      assert forall n | 0 <= n < |front| :: front[n] == items[n] && key(items[n]) != key(last);
      assert front + [last] == items;
    }
  }

  /** Updating a record at a known position touches nothing else. */
  lemma UpsertAt<T, K>(key: T -> K, items: seq<T>, i: nat, x: T)
    requires DistinctKeys(key, items) && i < |items| && key(items[i]) == key(x)
    ensures Upsert(key, items, x) == items[i := x] && DistinctKeys(key, items[i := x])
  {
    var n := Find(key, items, key(x));
    assert n == i;
  }

  lemma UpsertNew<T, K>(key: T -> K, items: seq<T>, x: T)
    requires DistinctKeys(key, items) && forall i | 0 <= i < |items| :: key(items[i]) != key(x)
    ensures Upsert(key, items, x) == items + [x] && DistinctKeys(key, items + [x])
  {
    assert Find(key, items, key(x)) == |items|;
  }

  ghost predicate HasKey<T, K>(key: T -> K, items: seq<T>, k: K) {
    exists i | 0 <= i < |items| :: key(items[i]) == k
  }

  /** Merging updates of known records replaces exactly the records they name. */
  lemma {:induction false} MergeKnown<T, K>(key: T -> K, items: seq<T>, updates: seq<T>, n: nat)
    requires DistinctKeys(key, items) && DistinctKeys(key, updates) && n <= |updates|
    requires forall k | 0 <= k < |updates| :: HasKey(key, items, key(updates[k]))
    ensures var merged := MergeInto(key, items, updates[..n]);
            && |merged| == |items| && (forall i | 0 <= i < |items| :: key(merged[i]) == key(items[i]))
            && (forall i, k | 0 <= i < |items| && 0 <= k < n && key(updates[k]) == key(items[i]) :: merged[i] == updates[k])
            && forall i | 0 <= i < |items| :: merged[i] == items[i] || exists k | 0 <= k < n :: key(updates[k]) == key(items[i])
  {
    if n > 0 {
      MergeKnown(key, items, updates, n - 1);
      var before, u := MergeInto(key, items, updates[..n - 1]), updates[n - 1];
      assert updates[..n][..n - 1] == updates[..n - 1];
      var i :| 0 <= i < |items| && key(items[i]) == key(u);
      assert DistinctKeys(key, before) by {
        forall a, b | 0 <= a < b < |before| ensures key(before[a]) != key(before[b]) {
          assert key(items[a]) != key(items[b]);
        }
      }
      UpsertAt(key, before, i, u);
    }
  }
}
