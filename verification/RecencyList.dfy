/** Most-recently-heard order, and the keys a bounded table with eviction of the
    least recent one holds. */
module RecencyList {
  import opened Sequences

  /** The number of the last occurrence of a key, counted from 1; 0 for none. */
  function LastIndex<K(==)>(heard: seq<K>, key: K): (n: nat)
    ensures n <= |heard|
  {
    if |heard| == 0 then 0
    else if heard[|heard| - 1] == key then |heard|
    else LastIndex(heard[..|heard| - 1], key)
  }

  lemma {:induction false} LastIndexIsLast<K>(heard: seq<K>, key: K)
    ensures var n := LastIndex(heard, key);
            && (n > 0 ==> heard[n - 1] == key)
            && forall j :: n <= j < |heard| ==> heard[j] != key
  {
    if |heard| > 0 && heard[|heard| - 1] != key {
      LastIndexIsLast(heard[..|heard| - 1], key);
    }
  }

  function Without<K(==)>(keys: seq<K>, key: K): seq<K> {
    if |keys| == 0 then []
    else if keys[0] == key then keys[1..]
    else [keys[0]] + Without(keys[1..], key)
  }

  /** The distinct keys heard, most recently heard first. */
  function Recency<K(==)>(heard: seq<K>): seq<K> {
    if |heard| == 0 then []
    else [heard[|heard| - 1]] + Without(Recency(heard[..|heard| - 1]), heard[|heard| - 1])
  }

  lemma {:induction false} WithoutAbsent<K>(keys: seq<K>, key: K)
    requires key !in keys
    ensures Without(keys, key) == keys
  {
    if |keys| > 0 {
      WithoutAbsent(keys[1..], key);
      assert keys == [keys[0]] + keys[1..];
    }
  }

  lemma {:induction false} WithoutAt<K>(keys: seq<K>, p: nat)
    requires p < |keys| && forall i :: 0 <= i < p ==> keys[i] != keys[p]
    ensures Without(keys, keys[p]) == keys[..p] + keys[p + 1..]
  {
    if p == 0 {
      assert keys[..0] == [];
    } else {
      var tail := keys[1..];
      assert tail[p - 1] == keys[p];
      assert forall i :: 0 <= i < p - 1 ==> tail[i] == keys[i + 1];
      WithoutAt(tail, p - 1);
      assert [keys[0]] + (tail[..p - 1] + tail[p..]) == keys[..p] + keys[p + 1..];
    }
  }

  /** Where a key stands, the length of the list when it does not. */
  lemma WithoutShape<K>(keys: seq<K>, key: K) returns (p: nat)
    requires Distinct(keys)
    ensures p <= |keys|
    ensures p < |keys| ==> keys[p] == key && Without(keys, key) == keys[..p] + keys[p + 1..]
    ensures p == |keys| ==> key !in keys && Without(keys, key) == keys
  {
    if key in keys {
      p :| 0 <= p < |keys| && keys[p] == key;
      WithoutAt(keys, p);
    } else {
      p := |keys|;
      WithoutAbsent(keys, key);
    }
  }

  lemma RecencySnoc<K>(heard: seq<K>, key: K)
    ensures Recency(heard + [key]) == [key] + Without(Recency(heard), key)
  {
    assert (heard + [key])[..|heard|] == heard;
  }

  lemma LastIndexSnoc<K>(heard: seq<K>, key: K, y: K)
    ensures LastIndex(heard + [key], y) == if y == key then |heard| + 1 else LastIndex(heard, y)
  {
    assert (heard + [key])[..|heard|] == heard;
  }

  /** A list sorted by last occurrence, most recent first. */
  predicate Sorted<K(==)>(heard: seq<K>, keys: seq<K>) {
    forall a, b :: 0 <= a < b < |keys| ==> LastIndex(heard, keys[a]) > LastIndex(heard, keys[b])
  }

  predicate AllHeard<K(==)>(heard: seq<K>, keys: seq<K>) {
    forall a :: 0 <= a < |keys| ==> LastIndex(heard, keys[a]) > 0
  }

  lemma SortedPair<K>(heard: seq<K>, keys: seq<K>, a: nat, b: nat)
    requires Sorted(heard, keys) && a <= b < |keys|
    ensures LastIndex(heard, keys[a]) >= LastIndex(heard, keys[b])
    ensures LastIndex(heard, keys[a]) == LastIndex(heard, keys[b]) ==> a == b
  {
  }

  lemma SortedIsDistinct<K>(heard: seq<K>, keys: seq<K>)
    requires Sorted(heard, keys)
    ensures Distinct(keys)
  {
    forall a, b | 0 <= a < b < |keys|
      ensures keys[a] != keys[b]
    {
      assert LastIndex(heard, keys[a]) > LastIndex(heard, keys[b]);
    }
  }

  /** The list with the key at `p` moved to the front, or a new key in front. */
  function Moved<K>(keys: seq<K>, key: K, p: nat): seq<K>
    requires p <= |keys|
  {
    [key] + if p < |keys| then keys[..p] + keys[p + 1..] else keys
  }

  lemma MovedAt<K>(keys: seq<K>, key: K, p: nat, a: nat)
    requires p <= |keys| && 1 <= a < |Moved(keys, key, p)|
    ensures var b := if a <= p then a - 1 else a;
            b < |keys| && b != p && Moved(keys, key, p)[a] == keys[b]
  {
  }

  lemma MovedIsSorted<K>(heard: seq<K>, keys: seq<K>, key: K, p: nat)
    requires Sorted(heard, keys) && AllHeard(heard, keys) && p <= |keys|
    requires forall i :: 0 <= i < |keys| && i != p ==> keys[i] != key
    ensures Sorted(heard + [key], Moved(keys, key, p)) && AllHeard(heard + [key], Moved(keys, key, p))
  {
    var moved, after := Moved(keys, key, p), heard + [key];
    LastIndexSnoc(heard, key, key);
    forall a, b | 0 <= a < b < |moved|
      ensures LastIndex(after, moved[a]) > LastIndex(after, moved[b]) > 0
    {
      MovedAt(keys, key, p, b);
      LastIndexSnoc(heard, key, moved[b]);
      if a > 0 {
        MovedAt(keys, key, p, a);
        LastIndexSnoc(heard, key, moved[a]);
        SortedPair(heard, keys, if a <= p then a - 1 else a, if b <= p then b - 1 else b);
      }
    }
    assert moved[0] == key;
    forall a | 0 <= a < |moved|
      ensures LastIndex(after, moved[a]) > 0
    {
      if a > 0 {
        assert LastIndex(after, moved[0]) > LastIndex(after, moved[a]) > 0;
      }
    }
  }

  /** Where the key heard last stood before, and what the list became. */
  lemma RecencyShape<K>(keys: seq<K>, key: K) returns (p: nat)
    requires Distinct(keys)
    ensures p <= |keys| && [key] + Without(keys, key) == Moved(keys, key, p)
    ensures p < |keys| ==> keys[p] == key
    ensures forall i :: 0 <= i < |keys| && i != p ==> keys[i] != key
  {
    p := WithoutShape(keys, key);
  }

  /** The recency list is sorted by last occurrence and so has no repetitions. */
  lemma {:induction false} RecencyIsSorted<K>(heard: seq<K>)
    ensures Sorted(heard, Recency(heard)) && AllHeard(heard, Recency(heard))
    ensures Distinct(Recency(heard))
  {
    if |heard| > 0 {
      var front, key := heard[..|heard| - 1], heard[|heard| - 1];
      RecencyIsSorted(front);
      var p := RecencyShape(Recency(front), key);
      MovedIsSorted(front, Recency(front), key, p);
      assert heard == front + [key];
    }
    SortedIsDistinct(heard, Recency(heard));
  }

  lemma MovedMember<K>(keys: seq<K>, key: K, p: nat, y: K)
    requires p <= |keys| && (p < |keys| ==> keys[p] == key)
    ensures y in Moved(keys, key, p) <==> y == key || y in keys
  {
    if p < |keys| {
      assert keys == keys[..p] + [key] + keys[p + 1..];
    }
  }

  /** The recency list holds exactly the keys heard. */
  lemma {:induction false} RecencyMember<K>(heard: seq<K>, y: K)
    ensures y in Recency(heard) <==> y in heard
  {
    if |heard| > 0 {
      var front, key := heard[..|heard| - 1], heard[|heard| - 1];
      RecencyMember(front, y);
      RecencyIsSorted(front);
      var p := RecencyShape(Recency(front), key);
      MovedMember(Recency(front), key, p, y);
      assert heard == front + [key];
    }
  }

  // ----- A bounded table of keys with recency stamps -----

  /** The number of keys a table of `max` slots holds. */
  function Held<K(==)>(max: nat, heard: seq<K>): nat {
    if max <= |Recency(heard)| then max else |Recency(heard)|
  }

  /** The slots hold exactly the most recently heard keys, each once. */
  predicate HoldsKeys<K(==)>(max: nat, slots: seq<K>, heard: seq<K>) {
    && |slots| == Held(max, heard)
    && Distinct(slots)
    && multiset(slots) == multiset(Recency(heard)[..Held(max, heard)])
  }

  /** The stamps are the numbers of the last occurrences. */
  predicate Stamped<K(==)>(slots: seq<K>, stamps: seq<nat>, heard: seq<K>) {
    && |slots| == |stamps|
    && forall i :: 0 <= i < |slots| ==> stamps[i] == LastIndex(heard, slots[i])
  }

  // The stamps.

  lemma RestampHeld<K>(slots: seq<K>, stamps: seq<nat>, heard: seq<K>, slot: nat)
    requires Stamped(slots, stamps, heard) && Distinct(slots) && slot < |slots|
    ensures Stamped(slots, stamps[slot := |heard| + 1], heard + [slots[slot]])
  {
    forall i | 0 <= i < |slots|
      ensures stamps[slot := |heard| + 1][i] == LastIndex(heard + [slots[slot]], slots[i])
    {
      LastIndexSnoc(heard, slots[slot], slots[i]);
    }
  }

  lemma StampNew<K>(slots: seq<K>, stamps: seq<nat>, heard: seq<K>, key: K)
    requires Stamped(slots, stamps, heard) && key !in slots
    ensures Stamped(slots + [key], stamps + [|heard| + 1], heard + [key])
  {
    forall i | 0 <= i < |slots| + 1
      ensures (stamps + [|heard| + 1])[i] == LastIndex(heard + [key], (slots + [key])[i])
    {
      LastIndexSnoc(heard, key, (slots + [key])[i]);
    }
  }

  function SwapRemoved<T>(s: seq<T>, e: nat): (left: seq<T>)
    requires e < |s|
    ensures |left| == |s| - 1
    ensures forall i :: 0 <= i < |left| ==> left[i] == if i == e then s[|s| - 1] else s[i]
  {
    s[e := s[|s| - 1]][..|s| - 1]
  }

  lemma StampsSwapRemoved<K>(slots: seq<K>, stamps: seq<nat>, heard: seq<K>, e: nat)
    requires Stamped(slots, stamps, heard) && e < |slots|
    ensures Stamped(SwapRemoved(slots, e), SwapRemoved(stamps, e), heard)
  {
  }

  // The keys.

  lemma SwapRemovedDistinct<K>(s: seq<K>, e: nat)
    requires e < |s| && Distinct(s)
    ensures Distinct(SwapRemoved(s, e)) && s[e] !in SwapRemoved(s, e)
  {
  }

  lemma SwapRemovedMultiset<K>(s: seq<K>, e: nat)
    requires e < |s|
    ensures multiset(SwapRemoved(s, e)) == multiset(s) - multiset{s[e]}
  {
    var last := |s| - 1;
    var swapped := s[e := s[last]];
    assert swapped[last] == s[last];
    assert swapped == SwapRemoved(s, e) + [s[last]];
    assert multiset(swapped) == multiset(s) - multiset{s[e]} + multiset{s[last]};
    assert multiset(SwapRemoved(s, e)) == multiset(swapped) - multiset{s[last]};
  }

  lemma MoveToFront<K>(keys: seq<K>, key: K, p: nat, m: nat)
    requires p < m <= |keys| && keys[p] == key
    ensures |Moved(keys, key, p)| == |keys|
    ensures multiset(Moved(keys, key, p)[..m]) == multiset(keys[..m])
  {
    assert Moved(keys, key, p)[..m] == [key] + keys[..p] + keys[p + 1..m];
    assert keys[..m] == keys[..p] + [key] + keys[p + 1..m];
  }

  lemma PushFront<K>(keys: seq<K>, key: K, p: nat, m: nat)
    requires 1 <= m <= p <= |keys|
    ensures |Moved(keys, key, p)| >= m
    ensures multiset(Moved(keys, key, p)[..m]) == multiset(keys[..m]) - multiset{keys[m - 1]} + multiset{key}
  {
    assert Moved(keys, key, p)[..m] == [key] + keys[..m - 1];
    assert keys[..m] == keys[..m - 1] + [keys[m - 1]];
  }

  /** A key is among the first `m` of a list exactly when it stands there. */
  lemma AmongFirst<K>(keys: seq<K>, key: K, p: nat, m: nat)
    requires p <= |keys| && m <= |keys| && (p < |keys| ==> keys[p] == key)
    requires forall i :: 0 <= i < |keys| && i != p ==> keys[i] != key
    ensures key in multiset(keys[..m]) <==> p < m
  {
    if p < m {
      assert keys[..m][p] == key;
    } else {
      assert forall i :: 0 <= i < m ==> keys[..m][i] == keys[i];
    }
  }

  /** Hearing a held key changes no slot. */
  lemma HearHeld<K>(max: nat, slots: seq<K>, heard: seq<K>, key: K)
    requires HoldsKeys(max, slots, heard) && key in slots
    ensures HoldsKeys(max, slots, heard + [key])
  {
    var keys, m := Recency(heard), |slots|;
    RecencyIsSorted(heard);
    RecencySnoc(heard, key);
    var p := RecencyShape(keys, key);
    assert key in multiset(slots);
    AmongFirst(keys, key, p, m);
    MoveToFront(keys, key, p, m);
  }

  /** A key that no slot holds, with every key heard in a slot, is new. */
  lemma NewKey<K>(slots: seq<K>, keys: seq<K>, key: K, p: nat)
    requires multiset(slots) == multiset(keys) && key !in slots && p <= |keys| && (p < |keys| ==> keys[p] == key)
    ensures p == |keys| && Moved(keys, key, p) == [key] + keys
    ensures multiset(slots + [key]) == multiset(Moved(keys, key, p))
  {
    assert key !in multiset(slots);
    assert forall i :: 0 <= i < |keys| ==> keys[i] in multiset(keys);
  }

  /** Hearing a new key with a slot free adds it. */
  lemma HearWithRoom<K>(max: nat, slots: seq<K>, heard: seq<K>, key: K)
    requires HoldsKeys(max, slots, heard) && key !in slots && |slots| < max
    ensures HoldsKeys(max, slots + [key], heard + [key])
  {
    var keys := Recency(heard);
    RecencyIsSorted(heard);
    RecencySnoc(heard, key);
    var p := RecencyShape(keys, key);
    assert keys[..|keys|] == keys;
    NewKey(slots, keys, key, p);
    HoldsAll(max, slots + [key], heard + [key], Moved(keys, key, p));
    DistinctSnoc(slots, key);
  }

  lemma HoldsAll<K>(max: nat, slots: seq<K>, heard: seq<K>, keys: seq<K>)
    requires keys == Recency(heard) && |keys| <= max && |slots| == |keys| && multiset(slots) == multiset(keys)
    ensures |slots| == Held(max, heard) && multiset(slots) == multiset(Recency(heard)[..Held(max, heard)])
  {
    assert keys[..|keys|] == keys;
  }

  /** The least stamp belongs to the last of the held keys. */
  lemma LeastStampIsOldest<K>(max: nat, slots: seq<K>, stamps: seq<nat>, heard: seq<K>, e: nat)
    requires HoldsKeys(max, slots, heard) && Stamped(slots, stamps, heard) && e < |slots|
    requires forall i :: 0 <= i < |slots| ==> stamps[e] <= stamps[i]
    ensures slots[e] == Recency(heard)[|slots| - 1]
  {
    var keys, m := Recency(heard), |slots|;
    RecencyIsSorted(heard);
    assert keys[m - 1] in multiset(keys[..m]) by { assert keys[..m][m - 1] == keys[m - 1]; }
    assert keys[m - 1] in slots;
    var j :| 0 <= j < m && slots[j] == keys[m - 1];
    assert slots[e] in multiset(slots);
    assert slots[e] in keys[..m];
    var a :| 0 <= a < m && keys[..m][a] == slots[e];
    assert keys[a] == slots[e];
    SortedPair(heard, keys, a, m - 1);
  }

  /** Hearing a new key with every slot taken evicts the least recent one. */
  lemma HearFull<K>(max: nat, slots: seq<K>, heard: seq<K>, key: K, e: nat)
    requires HoldsKeys(max, slots, heard) && key !in slots && |slots| == max && e < |slots|
    requires slots[e] == Recency(heard)[|slots| - 1]
    ensures HoldsKeys(max, SwapRemoved(slots, e) + [key], heard + [key])
  {
    var keys, m := Recency(heard), |slots|;
    var left := SwapRemoved(slots, e);
    RecencyIsSorted(heard);
    RecencySnoc(heard, key);
    var p := RecencyShape(keys, key);
    assert key !in multiset(slots);
    AmongFirst(keys, key, p, m);
    PushFront(keys, key, p, m);
    SwapRemovedMultiset(slots, e);
    SwapRemovedDistinct(slots, e);
    assert key !in multiset(left);
    DistinctSnoc(left, key);
  }
}
