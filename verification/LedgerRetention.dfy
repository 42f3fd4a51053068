/** Retaining submissions and compacting settled history
    (web/src/pending-commands.ts). */
module LedgerRetention {
  import opened Ledger

  const SETTLED_LIMIT: nat := 128

  ghost predicate UniqueKeys(records: seq<Record>) {
    forall i, j :: 0 <= i < j < |records| ==> OperationKey(records[i]) != OperationKey(records[j])
  }

  function Keys(records: seq<Record>): set<Key> { set r | r in records :: OperationKey(r) }

  // --------------------------------------------------------- compaction

  function SettledOf(records: seq<Record>): seq<Record> {
    if records == [] then []
    else (if IsSettled(records[0]) then [records[0]] else []) + SettledOf(records[1..])
  }

  function UnresolvedOf(records: seq<Record>): seq<Record> {
    if records == [] then []
    else (if IsSettled(records[0]) then [] else [records[0]]) + UnresolvedOf(records[1..])
  }

  function Without(records: seq<Record>, discard: set<Key>): seq<Record> {
    if records == [] then []
    else (if OperationKey(records[0]) in discard then [] else [records[0]]) + Without(records[1..], discard)
  }

  /** Discards by key, as the source does. */
  function Compact(records: seq<Record>): seq<Record> {
    var settled := SettledOf(records);
    var excess := if |settled| > SETTLED_LIMIT then |settled| - SETTLED_LIMIT else 0;
    Without(records, Keys(settled[..excess]))
  }

  /** The reference: drop the `excess` oldest settled records, nothing else. */
  function DropOldest(records: seq<Record>, excess: nat): seq<Record> {
    if records == [] then []
    else if IsSettled(records[0]) && excess > 0 then DropOldest(records[1..], excess - 1)
    else [records[0]] + DropOldest(records[1..], excess)
  }

  lemma {:induction false} SettledMembers(records: seq<Record>)
    ensures forall r :: r in SettledOf(records) ==> r in records && IsSettled(r)
    ensures forall r :: r in UnresolvedOf(records) ==> r in records && !IsSettled(r)
    ensures forall r :: r in records ==> r in SettledOf(records) || r in UnresolvedOf(records)
  {
    if records != [] { SettledMembers(records[1..]); }
  }

  lemma {:induction false} WithoutSame(records: seq<Record>, a: set<Key>, b: set<Key>)
    requires forall r :: r in records ==> (OperationKey(r) in a <==> OperationKey(r) in b)
    ensures Without(records, a) == Without(records, b)
  {
    if records != [] {
      assert records[0] in records;
      assert forall r :: r in records[1..] ==> r in records;
      WithoutSame(records[1..], a, b);
    }
  }

  lemma {:induction false} WithoutNone(records: seq<Record>)
    ensures Without(records, {}) == records && DropOldest(records, 0) == records
  {
    if records != [] { WithoutNone(records[1..]); }
  }

  lemma KeyApart(records: seq<Record>)
    requires UniqueKeys(records) && records != []
    ensures UniqueKeys(records[1..])
    ensures forall r :: r in records[1..] ==> OperationKey(r) != OperationKey(records[0])
  {
  }

  lemma KeysOfCons(head: Record, rest: seq<Record>)
    ensures Keys([head] + rest) == {OperationKey(head)} + Keys(rest)
  {
    hide OperationKey;
    assert head in [head] + rest;
    assert forall r :: r in [head] + rest <==> r == head || r in rest;
  }

  /** Without the records of these keys. */
  function Discarded(records: seq<Record>, gone: seq<Record>): seq<Record> { Without(records, Keys(gone)) }

  lemma DiscardNone(records: seq<Record>)
    ensures Discarded(records, []) == DropOldest(records, 0)
  {
    assert Keys([]) == {};
    WithoutNone(records);
  }

  lemma DiscardHead(records: seq<Record>, rest: seq<Record>)
    requires records != [] && UniqueKeys(records)
    ensures Discarded(records, [records[0]] + rest) == Discarded(records[1..], rest)
  {
    hide OperationKey, UniqueKeys, Keys;
    var head, tail := records[0], records[1..];
    KeyApart(records);
    KeysOfCons(head, rest);
    WithoutSame(tail, Keys([head] + rest), Keys(rest));
  }

  lemma KeepHead(records: seq<Record>, gone: seq<Record>)
    requires records != [] && UniqueKeys(records) && forall r :: r in gone ==> r in records[1..]
    ensures Discarded(records, gone) == [records[0]] + Discarded(records[1..], gone)
  {
    hide OperationKey, UniqueKeys;
    KeyApart(records);
  }

  lemma SettledPrefix(settled: seq<Record>, tail: seq<Record>, excess: nat)
    requires excess <= |settled| && forall r :: r in settled ==> r in tail
    ensures forall r :: r in settled[..excess] ==> r in tail
  {
    assert forall r :: r in settled[..excess] ==> r in settled;
  }

  /** With one record per operation, discarding by key drops exactly the oldest
      settled records. */
  lemma {:induction false} DiscardByKey(records: seq<Record>, excess: nat)
    requires UniqueKeys(records) && excess <= |SettledOf(records)|
    ensures Discarded(records, SettledOf(records)[..excess]) == DropOldest(records, excess)
  {
    hide Discarded;
    if excess == 0 {
      assert SettledOf(records)[..0] == [];
      DiscardNone(records);
    } else {
      var head, tail := records[0], records[1..];
      assert UniqueKeys(tail) by { KeyApart(records); }
      var settled := SettledOf(tail);
      SettledMembers(tail);
      hide UniqueKeys, IsSettled;
      if IsSettled(head) {
        var rest := settled[..excess - 1];
        assert SettledOf(records)[..excess] == [head] + rest;
        DiscardHead(records, rest);
        DiscardByKey(tail, excess - 1);
      } else {
        assert SettledOf(records) == settled;
        SettledPrefix(settled, tail, excess);
        KeepHead(records, settled[..excess]);
        DiscardByKey(tail, excess);
      }
    }
  }

  lemma {:induction false} DropOldestParts(records: seq<Record>, excess: nat)
    requires excess <= |SettledOf(records)|
    ensures SettledOf(DropOldest(records, excess)) == SettledOf(records)[excess..]
    ensures UnresolvedOf(DropOldest(records, excess)) == UnresolvedOf(records)
  {
    if records != [] {
      hide IsSettled;
      var head, tail := records[0], records[1..];
      var cut := IsSettled(head) && excess > 0;
      DropOldestParts(tail, if cut then excess - 1 else if IsSettled(head) then 0 else excess);
      if IsSettled(head) && excess == 0 { WithoutNone(records); }
    }
  }

  /** Compacting keeps every unresolved record and exactly the latest 128 settled
      ones, each in its place. */
  lemma CompactExact(records: seq<Record>)
    requires UniqueKeys(records)
    ensures var settled := SettledOf(records);
      && UnresolvedOf(Compact(records)) == UnresolvedOf(records)
      && SettledOf(Compact(records)) ==
        (if |settled| <= SETTLED_LIMIT then settled else settled[|settled| - SETTLED_LIMIT..])
      && Compact(records) == DropOldest(records, if |settled| <= SETTLED_LIMIT then 0 else |settled| - SETTLED_LIMIT)
  {
    hide UniqueKeys, SettledOf, UnresolvedOf, DropOldest, Without, Keys;
    var settled := SettledOf(records);
    var excess := if |settled| > SETTLED_LIMIT then |settled| - SETTLED_LIMIT else 0;
    DiscardByKey(records, excess);
    DropOldestParts(records, excess);
  }

  lemma {:induction false} WithoutMembers(records: seq<Record>, discard: set<Key>)
    ensures forall r :: r in Without(records, discard) ==> r in records && OperationKey(r) !in discard
    ensures forall r :: r in records && OperationKey(r) !in discard ==> r in Without(records, discard)
    ensures UniqueKeys(records) ==> UniqueKeys(Without(records, discard))
  {
    if records != [] {
      hide OperationKey;
      WithoutMembers(records[1..], discard);
      if UniqueKeys(records) { KeyApart(records); ConsUnique(records[0], Without(records[1..], discard)); }
    }
  }

  lemma ConsUnique(head: Record, tail: seq<Record>)
    requires UniqueKeys(tail) && forall r :: r in tail ==> OperationKey(r) != OperationKey(head)
    ensures UniqueKeys([head] + tail)
  {
    hide OperationKey;
    var all := [head] + tail;
    forall i, j | 0 <= i < j < |all| ensures OperationKey(all[i]) != OperationKey(all[j]) {
      assert all[j] == tail[j - 1] && all[j] in tail;
      if i > 0 { assert all[i] == tail[i - 1]; }
    }
  }

  lemma CompactKeepsUnresolved(records: seq<Record>, r: Record)
    requires UniqueKeys(records) && r in records && !IsSettled(r)
    ensures r in Compact(records)
  {
    hide UniqueKeys, Compact;
    CompactExact(records);
    SettledMembers(records);
    SettledMembers(Compact(records));
  }

  lemma CompactSubset(records: seq<Record>)
    ensures forall r :: r in Compact(records) ==> r in records
    ensures UniqueKeys(records) ==> UniqueKeys(Compact(records))
  {
    var settled := SettledOf(records);
    var excess := if |settled| > SETTLED_LIMIT then |settled| - SETTLED_LIMIT else 0;
    WithoutMembers(records, Keys(settled[..excess]));
  }

  lemma {:induction false} WithoutLast(records: seq<Record>, last: Record, discard: set<Key>)
    requires OperationKey(last) !in discard
    ensures Without(records + [last], discard) == Without(records, discard) + [last]
  {
    if records == [] {
      assert records + [last] == [last] && [last][1..] == [];
    } else {
      assert (records + [last])[1..] == records[1..] + [last];
      WithoutLast(records[1..], last, discard);
    }
  }

  lemma NotDiscarded(records: seq<Record>, made: Record, settled: seq<Record>, excess: nat)
    requires forall r :: r in settled ==> r in records + [made] && r != made
    requires excess <= |settled| && forall r :: r in records ==> OperationKey(r) != OperationKey(made)
    ensures OperationKey(made) !in Keys(settled[..excess])
  {
    hide OperationKey;
    forall r | r in settled[..excess] ensures OperationKey(r) != OperationKey(made) {
      assert r in settled;
      assert r in records;
    }
  }

  /** A new unresolved record stays, at the end. */
  lemma CompactLast(records: seq<Record>, made: Record)
    requires !IsSettled(made) && forall r :: r in records ==> OperationKey(r) != OperationKey(made)
    ensures var kept := Compact(records + [made]); kept != [] && kept[|kept| - 1] == made
  {
    var all := records + [made];
    SettledMembers(all);
    hide OperationKey, SettledOf, UnresolvedOf, IsSettled, Keys;
    var settled := SettledOf(all);
    var excess := if |settled| > SETTLED_LIMIT then |settled| - SETTLED_LIMIT else 0;
    NotDiscarded(records, made, settled, excess);
    WithoutLast(records, made, Keys(settled[..excess]));
  }
}
