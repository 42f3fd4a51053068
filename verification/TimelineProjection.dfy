/** The loops of `projectTimeline` (web/src/chat-timeline.ts). */
module TimelineProjection {
  import opened JsMap
  import opened LiveOutput
  import opened Timeline

  type GroupTable = Table<Key, seq<Preview>>

  ghost predicate Grouped(model: Option<Origin>, live: seq<Preview>, groups: GroupTable) {
    && DistinctKeys(groups)
    && (forall i :: 0 <= i < |groups| ==>
         InScope(model, live, groups[i].key) && groups[i].value == PreviewsOf(live, groups[i].key))
    && (forall key :: InScope(model, live, key) ==> Has(groups, key))
    && KeysOf(groups) == LiveKeys(model, live)
  }

  lemma LiveKeysNext(model: Option<Origin>, live: seq<Preview>, p: Preview)
    ensures var keys := LiveKeys(model, live);
      LiveKeys(model, live + [p]) == if model == Some(p.origin) && LiveKey(p) !in keys then keys + [LiveKey(p)]
        else keys
  {
    assert (live + [p])[..|live|] == live;
  }

  lemma KeysAfterSet<K, V>(m: Table<K, V>, key: K, value: V)
    ensures KeysOf(Set(m, key, value)) == if key in KeysOf(m) then KeysOf(m) else KeysOf(m) + [key]
  {
    HasKey(m, key);
  }

  lemma InScopeNext(model: Option<Origin>, live: seq<Preview>, p: Preview, key: Key)
    ensures InScope(model, live + [p], key) <==>
      InScope(model, live, key) || (model == Some(p.origin) && LiveKey(p) == key)
  {
    var all := live + [p];
    if InScope(model, live, key) {
      var i :| 0 <= i < |live| && live[i].origin == model.value && LiveKey(live[i]) == key;
      assert all[i] == live[i];
    }
    if model == Some(p.origin) && LiveKey(p) == key { assert all[|live|] == p; }
  }

  lemma {:induction false} NoPreviews(model: Option<Origin>, live: seq<Preview>, key: Key)
    requires model.Some? && key.ModelItem? && key.origin == model.value && !InScope(model, live, key)
    ensures PreviewsOf(live, key) == []
  {
    if live != [] {
      var init := live[..|live| - 1];
      assert live == init + [live[|live| - 1]];
      InScopeNext(model, init, live[|live| - 1], key);
      NoPreviews(model, init, key);
    }
  }

  /** The group's new value. */
  function Added(groups: GroupTable, p: Preview): seq<Preview> {
    var had := Get(groups, LiveKey(p)); (if had.Some? then had.value else []) + [p]
  }

  lemma AddedRight(model: Option<Origin>, live: seq<Preview>, groups: GroupTable, p: Preview)
    requires Grouped(model, live, groups) && model == Some(p.origin)
    ensures Added(groups, p) == PreviewsOf(live + [p], LiveKey(p))
  {
    var key := LiveKey(p);
    assert (live + [p])[..|live|] == live;
    FindLast(groups, key);
    if !InScope(model, live, key) { NoPreviews(model, live, key); }
  }

  lemma PreviewsNext(live: seq<Preview>, p: Preview, key: Key)
    requires LiveKey(p) != key
    ensures PreviewsOf(live + [p], key) == PreviewsOf(live, key)
  {
    assert (live + [p])[..|live|] == live;
  }

  lemma GroupNext(model: Option<Origin>, live: seq<Preview>, groups: GroupTable, p: Preview)
    requires Grouped(model, live, groups) && model == Some(p.origin)
    ensures Grouped(model, live + [p], Set(groups, LiveKey(p), Added(groups, p)))
  {
    var key, all := LiveKey(p), live + [p];
    var next := Set(groups, key, Added(groups, p));
    AddedRight(model, live, groups, p);
    SetDistinct(groups, key, Added(groups, p));
    LiveKeysNext(model, live, p);
    KeysAfterSet(groups, key, Added(groups, p));
    hide LiveKeys, Added, PreviewsOf, InScope;
    forall i | 0 <= i < |next|
      ensures InScope(model, all, next[i].key) && next[i].value == PreviewsOf(all, next[i].key)
    {
      InScopeNext(model, live, p, next[i].key);
      if next[i].key != key {
        assert i < |groups| && next[i] == groups[i];
        PreviewsNext(live, p, next[i].key);
      }
    }
    forall k | InScope(model, all, k) ensures Has(next, k) {
      InScopeNext(model, live, p, k);
      GetAfterSet(groups, key, Added(groups, p), k);
    }
  }

  lemma GroupSkip(model: Option<Origin>, live: seq<Preview>, groups: GroupTable, p: Preview)
    requires Grouped(model, live, groups) && model != Some(p.origin)
    ensures Grouped(model, live + [p], groups)
  {
    var all := live + [p];
    assert all[..|live|] == live;
    LiveKeysNext(model, live, p);
    forall i | 0 <= i < |groups|
      ensures InScope(model, all, groups[i].key) && groups[i].value == PreviewsOf(all, groups[i].key)
    {
      InScopeNext(model, live, p, groups[i].key);
    }
    forall k | InScope(model, all, k) ensures Has(groups, k) { InScopeNext(model, live, p, k); }
  }

  method GroupLive(model: Option<Origin>, live: seq<Preview>) returns (groups: GroupTable)
    ensures Grouped(model, live, groups)
  {
    hide PreviewsOf, Set, Added, InScope, LiveKeys;
    groups := [];
    assert Grouped(model, [], []) by { NothingGrouped(model); }
    for i := 0 to |live|
      invariant Grouped(model, live[..i], groups)
    {
      var p := live[i];
      assert live[..i + 1] == live[..i] + [p];
      if model.None? || p.origin != model.value {
        GroupSkip(model, live[..i], groups, p);
      } else {
        GroupNext(model, live[..i], groups, p);
        groups := Set(groups, LiveKey(p), Added(groups, p));
      }
    }
    assert live[..|live|] == live;
  }

  lemma NothingGrouped(model: Option<Origin>)
    ensures Grouped(model, [], [])
  {
  }

  ghost predicate Counts(counts: map<ItemId, nat>, entries: seq<Published>) {
    forall id :: (if id in counts then counts[id] else 0) == CountOf(entries, id)
  }

  method CountProviders(entries: seq<Published>) returns (counts: map<ItemId, nat>)
    ensures Counts(counts, entries)
  {
    counts := map[];
    for i := 0 to |entries|
      invariant Counts(counts, entries[..i])
    {
      assert entries[..i + 1][..i] == entries[..i];
      var id := IdentityOf(entries[i]);
      if id.Some? { counts := counts[id.value := (if id.value in counts then counts[id.value] else 0) + 1]; }
    }
    assert entries[..|entries|] == entries;
  }

  ghost predicate Tools(invocations: map<Operation, Published>, results: map<Operation, seq<Published>>,
                        entries: seq<Published>) {
    && (forall op :: (if op in invocations then Some(invocations[op]) else None) == InvocationOf(entries, op))
    && (forall op :: (if op in results then results[op] else []) == ResultsOf(entries, op))
  }

  method IndexTools(entries: seq<Published>)
    returns (invocations: map<Operation, Published>, results: map<Operation, seq<Published>>)
    ensures Tools(invocations, results, entries)
  {
    invocations, results := map[], map[];
    for i := 0 to |entries|
      invariant Tools(invocations, results, entries[..i])
    {
      var e := entries[i];
      assert entries[..i + 1][..i] == entries[..i];
      if e.Message? && e.tool.Some? {
        var op := e.tool.value;
        if e.kind.Invocation? { invocations := invocations[op := e]; }
        if e.kind.Result? { results := results[op := (if op in results then results[op] else []) + [e]]; }
      }
    }
    assert entries[..|entries|] == entries;
  }

  // -------------------------------------------------------------- matching

  /** The groups that carry the entry's request and provider item. */
  function Candidates(groups: GroupTable, model: Option<Origin>, e: Published): seq<Key>
    requires e.Message?
  {
    if groups == [] then []
    else
      var init, g := Candidates(groups[..|groups| - 1], model, e), groups[|groups| - 1];
      if model.Some? && g.value != [] && e.providerItemId.Some? && g.value[0].origin == model.value
         && g.value[0].requestId == e.requestId && g.value[0].itemId == e.providerItemId
      then init + [g.key] else init
  }

  ghost predicate SelfKeyed(groups: GroupTable) {
    DistinctKeys(groups) && forall i :: 0 <= i < |groups| ==>
      groups[i].value != [] && LiveKey(groups[i].value[0]) == groups[i].key
  }

  lemma {:induction false} PreviewsKeyed(live: seq<Preview>, key: Key)
    ensures forall i :: 0 <= i < |PreviewsOf(live, key)| ==> LiveKey(PreviewsOf(live, key)[i]) == key
    ensures (exists i :: 0 <= i < |live| && LiveKey(live[i]) == key) ==> PreviewsOf(live, key) != []
  {
    if live != [] {
      var init := live[..|live| - 1];
      PreviewsKeyed(init, key);
      if exists i :: 0 <= i < |live| && LiveKey(live[i]) == key {
        var i :| 0 <= i < |live| && LiveKey(live[i]) == key;
        assert i < |init| ==> init[i] == live[i];
      }
    }
  }

  lemma GroupedSelfKeyed(model: Option<Origin>, live: seq<Preview>, groups: GroupTable)
    requires Grouped(model, live, groups)
    ensures SelfKeyed(groups)
  {
    forall i | 0 <= i < |groups| ensures groups[i].value != [] && LiveKey(groups[i].value[0]) == groups[i].key {
      PreviewsKeyed(live, groups[i].key);
    }
  }

  /** There is one candidate if the item has a group, else none. */
  lemma {:induction false} CandidatesExact(groups: GroupTable, model: Origin, e: Published)
    requires SelfKeyed(groups) && e.Message? && e.providerItemId.Some?
    ensures var key := ModelItem(model, e.requestId, e.providerItemId);
      Candidates(groups, Some(model), e) == if (exists i :: 0 <= i < |groups| && groups[i].key == key) then [key]
        else []
  {
    if groups != [] {
      var key := ModelItem(model, e.requestId, e.providerItemId);
      var init, last := groups[..|groups| - 1], |groups| - 1;
      CandidatesExact(init, model, e);
      if groups[last].key == key {
        assert forall i :: 0 <= i < |init| ==> init[i] == groups[i];
      } else if exists i :: 0 <= i < |groups| && groups[i].key == key {
        var i :| 0 <= i < |groups| && groups[i].key == key;
        assert init[i].key == key;
      }
    }
  }

  /** The keys consumed after the first `n` entries. */
  ghost predicate Consumed(model: Option<Origin>, entries: seq<Published>, n: nat, groups: GroupTable,
                           consumed: set<Key>)
    requires n <= |entries|
  {
    forall i :: 0 <= i < |groups| ==>
      (groups[i].key in consumed <==> exists k :: 0 <= k < n && Claims(model, entries, entries[k], groups[i].key))
  }

  lemma HasIndex(groups: GroupTable, key: Key)
    ensures Has(groups, key) <==> exists i :: 0 <= i < |groups| && groups[i].key == key
  {
    FindLast(groups, key);
  }

  /** The matched group of an entry is the one under its own key. */
  method Match(model: Option<Origin>, entries: seq<Published>, groups: GroupTable, counts: map<ItemId, nat>,
               e: Published)
    returns (key: Key, matched: set<Key>)
    requires SelfKeyed(groups) && Counts(counts, entries)
    requires forall i :: 0 <= i < |groups| ==> groups[i].key.ModelItem?
    ensures key == KeyFor(model, entries, e)
    ensures forall i :: 0 <= i < |groups| ==> (groups[i].key in matched <==> Claims(model, entries, e, groups[i].key))
  {
    hide CountOf;
    key, matched := Publication(e.sequence), {};
    if !e.Message? { return; }
    var candidates, id := Candidates(groups, model, e), IdentityOf(e);
    if id.Some? && id.value in counts && counts[id.value] == 1 && |candidates| == 1 { matched := {candidates[0]}; }
    if model.Some? && id.Some? && id.value in counts && counts[id.value] == 1 {
      key := ModelItem(model.value, e.requestId, Some(id.value.id));
    }
    if model.Some? && id.Some? { CandidatesExact(groups, model.value, e); }
    if model.None? { NoCandidates(groups, e); }
  }

  lemma NoCandidates(groups: GroupTable, e: Published)
    requires e.Message?
    ensures Candidates(groups, None, e) == []
  {
  }

  method RowOf(model: Option<Origin>, entries: seq<Published>, counts: map<ItemId, nat>,
               invocations: map<Operation, Published>, results: map<Operation, seq<Published>>, key: Key,
               e: Published) returns (row: Row)
    requires Counts(counts, entries) && Tools(invocations, results, entries) && key == KeyFor(model, entries, e)
    ensures row == RowFor(model, entries, e)
  {
    hide CountOf, InvocationOf, ResultsOf;
    if !e.Message? || e.kind.NoTool? { return EntryRow(key, e); }
    if e.kind.Invocation? {
      return ActivityRow(key, e, if e.tool.Some? && e.tool.value in results then results[e.tool.value] else []);
    }
    if e.tool.None? || e.tool.value !in invocations { return ResultRow(key, e, None, None); }
    var invocation := invocations[e.tool.value];
    var id := IdentityOf(invocation);
    var invocationKey := if model.Some? && id.Some? && id.value in counts && counts[id.value] == 1
      then ModelItem(model.value, invocation.requestId, invocation.providerItemId)
        else Publication(invocation.sequence);
    assert InvocationOf(entries, e.tool.value) == Some(invocation);
    return ResultRow(key, e, Some(invocationKey), Some(invocation));
  }

  // ---------------------------------------------------------- the whole

  lemma ConsumedNext(model: Option<Origin>, entries: seq<Published>, n: nat, groups: GroupTable, consumed: set<Key>,
                     matched: set<Key>)
    requires n < |entries| && Consumed(model, entries, n, groups, consumed)
    requires forall i :: 0 <= i < |groups| ==>
      (groups[i].key in matched <==> Claims(model, entries, entries[n], groups[i].key))
    ensures Consumed(model, entries, n + 1, groups, consumed + matched)
  {
    hide Claims;
    forall i | 0 <= i < |groups|
      ensures groups[i].key in consumed + matched <==>
        exists k :: 0 <= k < n + 1 && Claims(model, entries, entries[k], groups[i].key)
    {
      if groups[i].key in consumed {
        var k :| 0 <= k < n && Claims(model, entries, entries[k], groups[i].key);
      }
    }
  }

  method EntryRows(model: Option<Origin>, entries: seq<Published>, groups: GroupTable)
    returns (rows: seq<Row>, consumed: set<Key>)
    requires SelfKeyed(groups) && forall i :: 0 <= i < |groups| ==> groups[i].key.ModelItem?
    ensures |rows| == |entries| && forall i :: 0 <= i < |rows| ==> rows[i] == RowFor(model, entries, entries[i])
    ensures Consumed(model, entries, |entries|, groups, consumed)
  {
    hide RowFor, KeyFor, Counts, Tools, Claims;
    var counts := CountProviders(entries);
    var invocations, results := IndexTools(entries);
    rows, consumed := [], {};
    for i := 0 to |entries|
      invariant |rows| == i && forall k :: 0 <= k < i ==> rows[k] == RowFor(model, entries, entries[k])
      invariant Consumed(model, entries, i, groups, consumed)
    {
      var key, matched := Match(model, entries, groups, counts, entries[i]);
      ConsumedNext(model, entries, i, groups, consumed, matched);
      consumed := consumed + matched;
      var row := RowOf(model, entries, counts, invocations, results, key, entries[i]);
      rows := rows + [row];
    }
  }

  function GroupRow(g: Entry<Key, seq<Preview>>, sort: Sort): Row { LiveRow(g.key, sort(g.value)) }

  ghost predicate FromGroup(groups: GroupTable, n: nat, consumed: set<Key>, sort: Sort, row: Row)
    requires n <= |groups|
  {
    exists g :: 0 <= g < n && groups[g].key !in consumed && row == GroupRow(groups[g], sort)
  }

  ghost predicate KeyAfter(rows: seq<Row>, from: nat, key: Key) { exists i :: from <= i < |rows| && rows[i].key == key }

  ghost predicate KeysApart(rows: seq<Row>, from: nat) {
    forall i, j :: from <= i < j < |rows| ==> rows[i].key != rows[j].key
  }

  ghost predicate GroupsInOrder(entries: nat, groups: GroupTable, n: nat, consumed: set<Key>, rows: seq<Row>)
    requires n <= |groups| && entries <= |rows|
  {
    RowKeys(rows, entries) == Without(KeysOf(groups[..n]), consumed)
  }

  lemma OrderNext(entries: nat, groups: GroupTable, n: nat, consumed: set<Key>, rows: seq<Row>, row: Row)
    requires n < |groups| && entries <= |rows| && GroupsInOrder(entries, groups, n, consumed, rows)
    requires row.key == groups[n].key
    ensures GroupsInOrder(entries, groups, n + 1, consumed, if row.key in consumed then rows else rows + [row])
  {
    assert KeysOf(groups[..n + 1]) == KeysOf(groups[..n]) + [row.key];
    WithoutNext(KeysOf(groups[..n]), row.key, consumed);
    hide Without;
    assert RowKeys(rows + [row], entries) == RowKeys(rows, entries) + [row.key];
  }

  /** What the last loop keeps. */
  ghost predicate Appended(entries: nat, groups: GroupTable, n: nat, consumed: set<Key>, sort: Sort, rows: seq<Row>)
    requires n <= |groups|
  {
    && entries <= |rows| && KeysApart(rows, entries)
    && GroupsInOrder(entries, groups, n, consumed, rows)
    && (forall i :: entries <= i < |rows| ==> FromGroup(groups, n, consumed, sort, rows[i]))
    && (forall g :: 0 <= g < n && groups[g].key !in consumed ==> KeyAfter(rows, entries, groups[g].key))
  }

  lemma FromGroupNext(groups: GroupTable, n: nat, consumed: set<Key>, sort: Sort, row: Row)
    requires n < |groups| && DistinctKeys(groups) && FromGroup(groups, n, consumed, sort, row)
    ensures FromGroup(groups, n + 1, consumed, sort, row) && row.key != groups[n].key
  {
    var g :| 0 <= g < n && groups[g].key !in consumed && row == GroupRow(groups[g], sort);
  }

  lemma AppendedNext(entries: nat, groups: GroupTable, n: nat, consumed: set<Key>, sort: Sort, rows: seq<Row>)
    requires n < |groups| && DistinctKeys(groups) && Appended(entries, groups, n, consumed, sort, rows)
    ensures Appended(entries, groups, n + 1, consumed, sort,
                     if groups[n].key in consumed then rows else rows + [GroupRow(groups[n], sort)])
  {
    var next := if groups[n].key in consumed then rows else rows + [GroupRow(groups[n], sort)];
    OrderNext(entries, groups, n, consumed, rows, GroupRow(groups[n], sort));
    hide GroupsInOrder;
    forall i | entries <= i < |rows|
      ensures FromGroup(groups, n + 1, consumed, sort, rows[i]) && rows[i].key != groups[n].key
    {
      FromGroupNext(groups, n, consumed, sort, rows[i]);
    }
    forall g | 0 <= g < n + 1 && groups[g].key !in consumed ensures KeyAfter(next, entries, groups[g].key) {
      if g < n {
        assert KeyAfter(rows, entries, groups[g].key);
        var i :| entries <= i < |rows| && rows[i].key == groups[g].key;
        assert next[i] == rows[i];
      } else {
        assert next[|rows|].key == groups[g].key;
      }
    }
  }

  lemma WithoutNext(keys: seq<Key>, key: Key, gone: set<Key>)
    ensures Without(keys + [key], gone) == if key in gone then Without(keys, gone) else Without(keys, gone) + [key]
  {
    assert (keys + [key])[..|keys|] == keys;
  }

  lemma {:induction false} WithoutSame(keys: seq<Key>, a: set<Key>, b: set<Key>)
    requires forall k :: k in keys ==> (k in a <==> k in b)
    ensures Without(keys, a) == Without(keys, b)
  {
    if keys != [] { WithoutSame(keys[..|keys| - 1], a, b); }
  }

  lemma LeftUnclaimed(model: Option<Origin>, entries: seq<Published>, groups: GroupTable, consumed: set<Key>)
    requires Consumed(model, entries, |entries|, groups, consumed)
    ensures Without(KeysOf(groups), consumed) == Unclaimed(model, entries, KeysOf(groups))
  {
    hide Claims;
    var keys := KeysOf(groups);
    var gone := set k | k in keys && Claimed(model, entries, k);
    forall k | k in keys ensures k in consumed <==> k in gone {
      var i :| 0 <= i < |keys| && keys[i] == k;
      assert groups[i].key == k;
    }
    WithoutSame(keys, consumed, gone);
  }

  lemma TimelineBuilt(model: Option<Origin>, entries: seq<Published>, live: seq<Preview>, sort: Sort,
                      groups: GroupTable, consumed: set<Key>, rows: seq<Row>)
    requires Grouped(model, live, groups) && Consumed(model, entries, |entries|, groups, consumed)
    requires Appended(|entries|, groups, |groups|, consumed, sort, rows)
    requires forall i :: 0 <= i < |entries| ==> rows[i] == RowFor(model, entries, entries[i])
    ensures IsTimeline(model, entries, live, sort, rows)
  {
    LeftUnclaimed(model, entries, groups, consumed);
    assert groups[..|groups|] == groups;
    hide RowFor, Claims, PreviewsOf, LiveKeys, Unclaimed, Without;
    forall i | |entries| <= i < |rows|
      ensures InScope(model, live, rows[i].key) && !Claimed(model, entries, rows[i].key)
      ensures rows[i] == LiveRow(rows[i].key, sort(PreviewsOf(live, rows[i].key)))
    {
      assert FromGroup(groups, |groups|, consumed, sort, rows[i]);
      var g :| 0 <= g < |groups| && groups[g].key !in consumed && rows[i] == GroupRow(groups[g], sort);
    }
    forall key | InScope(model, live, key) && !Claimed(model, entries, key)
      ensures exists i :: |entries| <= i < |rows| && rows[i].key == key
    {
      HasIndex(groups, key);
      var g :| 0 <= g < |groups| && groups[g].key == key;
      assert groups[g].key !in consumed && KeyAfter(rows, |entries|, key);
    }
  }

  /** `projectTimeline` */
  method ProjectTimeline(model: Option<Origin>, entries: seq<Published>, live: seq<Preview>, sort: Sort)
    returns (rows: seq<Row>)
    ensures IsTimeline(model, entries, live, sort, rows)
  {
    hide Grouped, SelfKeyed, RowFor, Consumed, Appended, IsTimeline;
    var groups := GroupLive(model, live);
    GroupedSelfKeyed(model, live, groups);
    GroupedKeys(model, live, groups);
    var consumed;
    rows, consumed := EntryRows(model, entries, groups);
    ghost var own := rows;
    assert Appended(|entries|, groups, 0, consumed, sort, rows) by {
      NothingAppended(|entries|, groups, consumed, sort, rows);
    }
    for g := 0 to |groups|
      invariant Appended(|entries|, groups, g, consumed, sort, rows) && own <= rows
    {
      AppendedNext(|entries|, groups, g, consumed, sort, rows);
      if groups[g].key !in consumed { rows := rows + [GroupRow(groups[g], sort)]; }
    }
    TimelineBuilt(model, entries, live, sort, groups, consumed, rows);
  }

  lemma GroupedKeys(model: Option<Origin>, live: seq<Preview>, groups: GroupTable)
    requires Grouped(model, live, groups)
    ensures DistinctKeys(groups) && forall i :: 0 <= i < |groups| ==> groups[i].key.ModelItem?
  {
  }

  lemma NothingAppended(entries: nat, groups: GroupTable, consumed: set<Key>, sort: Sort, rows: seq<Row>)
    requires |rows| == entries
    ensures Appended(entries, groups, 0, consumed, sort, rows)
  {
  }
}
