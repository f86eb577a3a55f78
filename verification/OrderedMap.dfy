/**
 A JavaScript `Map`: it iterates over its keys in the order in which they were first set.

 The map is kept as the sequence of its keys next to a mathematical map. Setting a key
 that is present overwrites the value in place; setting a new one appends the key. A
 loop that sets one key after the other therefore leaves the keys in first-seen order,
 which is specified on its own: every key once, ordered by its first appearance. The
 components that merge or group entries state their results in terms of this order.
 Deleting keys is not needed by any of them.
 */
module OrderedMap {

  datatype JsMap<K(==), V> = JsMap(keys: seq<K>, values: map<K, V>)

  ghost predicate WellFormed<K, V>(m: JsMap<K, V>) {
    && m.values.Keys == (set k | k in m.keys)
    && NoDuplicates(m.keys)
  }

  ghost predicate NoDuplicates<K>(keys: seq<K>) {
    forall i, j :: 0 <= i < j < |keys| ==> keys[i] != keys[j]
  }

  /** `set` overwrites in place, or appends a new key. */
  function Set<K, V>(m: JsMap<K, V>, key: K, value: V): (r: JsMap<K, V>)
    ensures r.values == m.values[key := value]
    ensures WellFormed(m) ==> WellFormed(r)
  {
    JsMap(if key in m.keys then m.keys else m.keys + [key], m.values[key := value])
  }

  /** The keys in the order in which they first appear. */
  function FirstSeen<K(==)>(keys: seq<K>): seq<K> {
    if keys == [] then []
    else
      var before := FirstSeen(keys[..|keys| - 1]);
      if keys[|keys| - 1] in before then before else before + [keys[|keys| - 1]]
  }

  function FirstIndex<K(==)>(keys: seq<K>, key: K): (i: nat)
    requires key in keys
    ensures i < |keys| && keys[i] == key && key !in keys[..i]
  {
    if keys[0] == key then 0 else 1 + FirstIndex(keys[1..], key)
  }

  lemma FirstSeenAppend<K>(keys: seq<K>, key: K)
    ensures FirstSeen(keys + [key]) == if key in FirstSeen(keys) then FirstSeen(keys) else FirstSeen(keys) + [key]
  {
    assert (keys + [key])[..|keys|] == keys;
  }

  lemma {:induction false} FirstIndexUnique<K>(keys: seq<K>, key: K, i: nat)
    requires i < |keys| && keys[i] == key && key !in keys[..i]
    ensures FirstIndex(keys, key) == i
  {
    if i > 0 {
      assert keys[0] == keys[..i][0];
      assert keys[1..][..i - 1] == keys[..i][1..];
      FirstIndexUnique(keys[1..], key, i - 1);
    }
  }

  lemma FirstIndexPrefix<K>(keys: seq<K>, more: seq<K>, key: K)
    requires key in keys
    ensures FirstIndex(keys + more, key) == FirstIndex(keys, key)
  {
    var i := FirstIndex(keys, key);
    assert (keys + more)[..i] == keys[..i];
    FirstIndexUnique(keys + more, key, i);
  }

  lemma {:induction false} FirstSeenMembers<K>(keys: seq<K>)
    ensures NoDuplicates(FirstSeen(keys))
    ensures forall i :: 0 <= i < |FirstSeen(keys)| ==> FirstSeen(keys)[i] in keys
    ensures forall i :: 0 <= i < |keys| ==> keys[i] in FirstSeen(keys)
  {
    if keys != [] {
      var init, last := keys[..|keys| - 1], keys[|keys| - 1];
      FirstSeenMembers(init);
      assert keys == init + [last];
      assert last in FirstSeen(keys);
    }
  }

  /** Every key exactly once, ordered by its first appearance. */
  lemma {:induction false} FirstSeenSpec<K>(keys: seq<K>)
    ensures NoDuplicates(FirstSeen(keys))
    ensures forall k :: k in FirstSeen(keys) <==> k in keys
    ensures forall i, j :: 0 <= i < j < |FirstSeen(keys)| ==>
              && FirstSeen(keys)[i] in keys && FirstSeen(keys)[j] in keys
              && FirstIndex(keys, FirstSeen(keys)[i]) < FirstIndex(keys, FirstSeen(keys)[j])
  {
    FirstSeenMembers(keys);
    if keys != [] {
      var init, last := keys[..|keys| - 1], keys[|keys| - 1];
      FirstSeenSpec(init);
      FirstSeenMembers(init);
      assert keys == init + [last];
      var seen, before := FirstSeen(keys), FirstSeen(init);
      assert seen == before || (seen == before + [last] && last !in before);
      forall i, j | 0 <= i < j < |seen|
        ensures seen[i] in keys && seen[j] in keys && FirstIndex(keys, seen[i]) < FirstIndex(keys, seen[j])
      {
        assert seen[i] == before[i];
        FirstIndexPrefix(init, [last], seen[i]);
        if j < |before| {
          assert seen[j] == before[j];
          FirstIndexPrefix(init, [last], seen[j]);
        } else {
          assert seen[j] == last && last !in init;
          assert FirstIndex(keys, last) == |init| by {
            assert keys[..|init|] == init;
            FirstIndexUnique(keys, last, |init|);
          }
        }
      }
    }
  }

  /** `Array.from(m.entries())`. */
  method Entries<K(==), V>(m: JsMap<K, V>) returns (entries: seq<(K, V)>)
    requires WellFormed(m)
    ensures |entries| == |m.keys|
    ensures forall i :: 0 <= i < |entries| ==>
              entries[i].0 == m.keys[i] && m.keys[i] in m.values && entries[i].1 == m.values[m.keys[i]]
  {
    entries := [];
    while |entries| < |m.keys|
      invariant |entries| <= |m.keys|
      invariant forall i :: 0 <= i < |entries| ==>
                  entries[i].0 == m.keys[i] && m.keys[i] in m.values && entries[i].1 == m.values[m.keys[i]]
    {
      var key := m.keys[|entries|];
      assert key in m.values.Keys;
      entries := entries + [(key, m.values[key])];
    }
  }
}
