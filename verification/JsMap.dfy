/** The insertion-ordered `Map` of the browser code: a sequence of entries with
    distinct keys. `set` on a present key keeps its place, `set` on a new key
    appends, and the bounded tables drop entries from the front. */
module JsMap {

  datatype Option<+T> = None | Some(value: T)

  datatype Entry<+K, +V> = Entry(key: K, value: V)

  type Table<K, V> = seq<Entry<K, V>>

  ghost predicate DistinctKeys<K, V>(m: Table<K, V>) {
    forall i, j :: 0 <= i < j < |m| ==> m[i].key != m[j].key
  }

  /** The last index below `end` whose entry has the key, or -1. */
  function FindBelow<K(==), V>(m: Table<K, V>, key: K, end: nat): (i: int)
    requires end <= |m|
    ensures -1 <= i < end
    ensures i >= 0 ==> m[i].key == key
  {
    if end == 0 then -1
    else if m[end - 1].key == key then end - 1
    else FindBelow(m, key, end - 1)
  }

  function Find<K(==), V>(m: Table<K, V>, key: K): (i: int)
    ensures -1 <= i < |m|
    ensures i >= 0 ==> m[i].key == key
  {
    FindBelow(m, key, |m|)
  }

  lemma {:induction false} FindBelowLast<K, V>(m: Table<K, V>, key: K, end: nat)
    requires end <= |m|
    ensures forall j :: FindBelow(m, key, end) < j < end ==> m[j].key != key
  {
    if end > 0 && m[end - 1].key != key { FindBelowLast(m, key, end - 1); }
  }

  lemma FindLast<K, V>(m: Table<K, V>, key: K)
    ensures forall j :: Find(m, key) < j < |m| ==> m[j].key != key
  {
    FindBelowLast(m, key, |m|);
  }

  predicate Has<K(==), V>(m: Table<K, V>, key: K) { Find(m, key) >= 0 }

  function Get<K(==), V>(m: Table<K, V>, key: K): Option<V> {
    var i := Find(m, key);
    if i < 0 then None else Some(m[i].value)
  }

  function Set<K(==), V>(m: Table<K, V>, key: K, value: V): Table<K, V> {
    var i := Find(m, key);
    if i < 0 then m + [Entry(key, value)] else m[i := Entry(key, value)]
  }

  function Delete<K(==), V>(m: Table<K, V>, key: K): Table<K, V> {
    var i := Find(m, key);
    if i < 0 then m else m[..i] + m[i + 1..]
  }

  /** `while (map.size > limit) map.delete(map.keys().next().value)` */
  function Latest<K, V>(m: Table<K, V>, limit: nat): Table<K, V> {
    if |m| <= limit then m else m[|m| - limit..]
  }

  lemma SetDistinct<K, V>(m: Table<K, V>, key: K, value: V)
    requires DistinctKeys(m)
    ensures DistinctKeys(Set(m, key, value))
  {
    FindLast(m, key);
  }

  lemma DeleteDistinct<K, V>(m: Table<K, V>, key: K)
    requires DistinctKeys(m)
    ensures DistinctKeys(Delete(m, key)) && !Has(Delete(m, key), key)
  {
    FindLast(m, key);
  }

  lemma GetAfterSet<K, V>(m: Table<K, V>, key: K, value: V, other: K)
    requires DistinctKeys(m)
    ensures Get(Set(m, key, value), other) == if other == key then Some(value) else Get(m, other)
  {
    var r, i := Set(m, key, value), Find(m, key);
    FindLast(m, key);
    FindLast(m, other);
    FindLast(r, other);
    assert r[if i < 0 then |m| else i] == Entry(key, value);
    var p := Find(m, other);
    if p >= 0 && other != key { assert r[p] == m[p]; }
  }

  lemma GetAfterDelete<K, V>(m: Table<K, V>, key: K, other: K)
    requires DistinctKeys(m)
    ensures Get(Delete(m, key), other) == if other == key then None else Get(m, other)
  {
    var r, i, p := Delete(m, key), Find(m, key), Find(m, other);
    FindLast(m, key);
    FindLast(m, other);
    FindLast(r, other);
    if p >= 0 && other != key { assert r[if 0 <= i < p then p - 1 else p] == m[p]; }
  }

  // ---------------------------------------------------------- new Map(entries)

  function FromEntries<K(==), V>(entries: seq<Entry<K, V>>): Table<K, V> {
    if entries == [] then []
    else
      var last := entries[|entries| - 1];
      Set(FromEntries(entries[..|entries| - 1]), last.key, last.value)
  }

  function KeysOf<K, V>(m: Table<K, V>): (keys: seq<K>)
    ensures |keys| == |m| && forall i :: 0 <= i < |keys| ==> keys[i] == m[i].key
  {
    seq(|m|, i requires 0 <= i < |m| => m[i].key)
  }

  /** Each key once, in the order of first occurrence. */
  function FirstKeys<K(==), V>(entries: seq<Entry<K, V>>): seq<K> {
    if entries == [] then []
    else
      var init, key := FirstKeys(entries[..|entries| - 1]), entries[|entries| - 1].key;
      if key in init then init else init + [key]
  }

  lemma HasKey<K, V>(m: Table<K, V>, key: K)
    ensures Has(m, key) <==> key in KeysOf(m)
  {
    FindLast(m, key);
    if Has(m, key) { assert KeysOf(m)[Find(m, key)] == key; }
  }

  /** A new map lists its keys in the order of first occurrence. */
  lemma {:induction false} FromEntriesKeys<K, V>(entries: seq<Entry<K, V>>)
    ensures DistinctKeys(FromEntries(entries)) && KeysOf(FromEntries(entries)) == FirstKeys(entries)
    ensures |FromEntries(entries)| <= |entries|
  {
    if entries != [] {
      var init, last := entries[..|entries| - 1], entries[|entries| - 1];
      FromEntriesKeys(init);
      HasKey(FromEntries(init), last.key);
      SetDistinct(FromEntries(init), last.key, last.value);
    }
  }

  /** Every entry is one of those given, and every key given is there. */
  lemma {:induction false} FromEntriesMembers<K, V>(entries: seq<Entry<K, V>>)
    ensures forall e :: e in FromEntries(entries) ==> e in entries
    ensures forall e :: e in entries ==> Has(FromEntries(entries), e.key)
  {
    if entries != [] {
      var init, last := entries[..|entries| - 1], entries[|entries| - 1];
      FromEntriesMembers(init);
      FromEntriesKeys(init);
      var before := FromEntries(init);
      forall e | e in entries ensures Has(Set(before, last.key, last.value), e.key) {
        GetAfterSet(before, last.key, last.value, e.key);
        assert e in init || e == last;
      }
    }
  }

  // -------------------------------------------------- bounded recency tables

  /** `map.delete(key); map.set(key, value)`, then eviction down to `limit`. */
  function Touch<K(==), V>(m: Table<K, V>, key: K, value: V, limit: nat): Table<K, V> {
    Latest(Set(Delete(m, key), key, value), limit)
  }

  function TouchAll<K(==), V>(log: seq<Entry<K, V>>, limit: nat): Table<K, V> {
    if log == [] then []
    else var last := log[|log| - 1]; Touch(TouchAll(log[..|log| - 1], limit), last.key, last.value, limit)
  }

  /** The log without a bound: each key once, at its last occurrence. */
  function LastOccurrences<K(==), V>(log: seq<Entry<K, V>>): Table<K, V> {
    if log == [] then []
    else var last := log[|log| - 1]; Delete(LastOccurrences(log[..|log| - 1]), last.key) + [last]
  }

  lemma TouchShape<K, V>(m: Table<K, V>, key: K, value: V, limit: nat)
    requires DistinctKeys(m)
    ensures Touch(m, key, value, limit) == Latest(Delete(m, key) + [Entry(key, value)], limit)
    ensures DistinctKeys(Touch(m, key, value, limit)) && |Touch(m, key, value, limit)| <= limit
  {
    DeleteDistinct(m, key);
    SetDistinct(Delete(m, key), key, value);
  }

  lemma FindSuffix<K, V>(m: Table<K, V>, key: K, cut: nat)
    requires cut <= |m|
    ensures var i, j := Find(m, key), Find(m[cut..], key);
      if j >= 0 then i == cut + j else i < cut
  {
    FindLast(m, key);
    FindLast(m[cut..], key);
    var i, j := Find(m, key), Find(m[cut..], key);
    if j >= 0 { assert m[cut + j].key == key; }
    if i >= cut { assert m[cut..][i - cut].key == key; }
  }

  lemma DropInSuffix<T>(m: seq<T>, cut: nat, j: nat)
    requires cut + j < |m|
    ensures m[..cut + j] + m[cut + j + 1..] == m[..cut] + (m[cut..][..j] + m[cut..][j + 1..])
  {
  }

  lemma DropBeforeSuffix<T>(m: seq<T>, cut: nat, i: nat)
    requires i < cut <= |m|
    ensures m[..i] + m[i + 1..] == (m[..i] + m[i + 1..cut]) + m[cut..]
  {
  }

  lemma DeleteAt<K, V>(m: Table<K, V>, key: K)
    ensures var i := Find(m, key); Delete(m, key) == if i < 0 then m else m[..i] + m[i + 1..]
  {
  }

  lemma DeleteInSuffix<K, V>(m: Table<K, V>, key: K, cut: nat) returns (pre: Table<K, V>)
    requires cut <= |m|
    ensures Delete(m, key) == pre + Delete(m[cut..], key)
    ensures |Delete(m[cut..], key)| + 1 >= |m| - cut
  {
    var i, j := Find(m, key), Find(m[cut..], key);
    FindSuffix(m, key, cut);
    DeleteAt(m, key);
    DeleteAt(m[cut..], key);
    hide *;
    pre := m[..cut];
    if j >= 0 {
      DropInSuffix(m, cut, j);
    } else if i >= 0 {
      DropBeforeSuffix(m, cut, i);
      pre := m[..i] + m[i + 1..cut];
    }
  }

  lemma LatestOfSuffix<K, V>(pre: Table<K, V>, s: Table<K, V>, limit: nat)
    requires |s| >= limit
    ensures Latest(pre + s, limit) == Latest(s, limit)
  {
    assert (pre + s)[|pre| + |s| - limit..] == s[|s| - limit..];
    assert (pre + s)[0..] == pre + s;
  }

  lemma AppendToBoth<K, V>(pre: Table<K, V>, s: Table<K, V>, e: Entry<K, V>, limit: nat)
    requires |s| + 1 >= limit
    ensures Latest((pre + s) + [e], limit) == Latest(s + [e], limit)
  {
    assert (pre + s) + [e] == pre + (s + [e]);
    LatestOfSuffix(pre, s + [e], limit);
  }

  lemma EvictThenTouch<K, V>(m: Table<K, V>, key: K, value: V, limit: nat)
    ensures Latest(Delete(Latest(m, limit), key) + [Entry(key, value)], limit)
         == Latest(Delete(m, key) + [Entry(key, value)], limit)
  {
    hide Delete;
    if |m| > limit {
      var kept := m[|m| - limit..];
      assert Latest(m, limit) == kept;
      hide Latest;
      var pre := DeleteInSuffix(m, key, |m| - limit);
      AppendToBoth(pre, Delete(kept, key), Entry(key, value), limit);
    }
  }

  /** Evicting after every update loses nothing that a single eviction at the
      end would keep: the table is always the latest `limit` distinct keys. */
  lemma {:induction false} TouchKeepsLatest<K, V>(log: seq<Entry<K, V>>, limit: nat)
    ensures TouchAll(log, limit) == Latest(LastOccurrences(log), limit)
    ensures DistinctKeys(TouchAll(log, limit)) && |TouchAll(log, limit)| <= limit
  {
    if log != [] {
      var init, last := log[..|log| - 1], log[|log| - 1];
      TouchKeepsLatest(init, limit);
      TouchShape(TouchAll(init, limit), last.key, last.value, limit);
      EvictThenTouch(LastOccurrences(init), last.key, last.value, limit);
    }
  }
}
