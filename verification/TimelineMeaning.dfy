/** What the rows of a timeline are, said of the entries and previews themselves
    (web/src/chat-timeline.ts). */
module TimelineMeaning {
  import opened JsMap
  import opened Sequences
  import opened LiveOutput
  import opened Timeline

  /** A message with a provider identity. */
  predicate Identified(e: Published) { e.Message? && e.providerItemId.Some? && e.providerItemId.value != "" }

  /** Two messages of one request under one provider identity. */
  predicate SameItem(a: Published, b: Published) {
    Identified(a) && Identified(b) && a.requestId == b.requestId && a.providerItemId == b.providerItemId
  }

  ghost predicate Alone(entries: seq<Published>, i: nat)
    requires i < |entries|
  {
    Identified(entries[i]) && forall j :: 0 <= j < |entries| && j != i ==> !SameItem(entries[i], entries[j])
  }

  lemma {:induction false} NoneCounted(entries: seq<Published>, id: ItemId)
    requires forall j :: 0 <= j < |entries| ==> IdentityOf(entries[j]) != Some(id)
    ensures CountOf(entries, id) == 0
  {
    if entries != [] { NoneCounted(entries[..|entries| - 1], id); }
  }

  lemma {:induction false} OneCounted(entries: seq<Published>, id: ItemId, i: nat)
    requires i < |entries| && IdentityOf(entries[i]) == Some(id)
    requires forall j :: 0 <= j < |entries| && j != i ==> IdentityOf(entries[j]) != Some(id)
    ensures CountOf(entries, id) == 1
  {
    var init, last := entries[..|entries| - 1], |entries| - 1;
    if i == last { NoneCounted(init, id); } else { OneCounted(init, id, i); }
  }

  /** The key of an entry's row is its provider's, within the model's origin, exactly
      if no other entry has that identity, and else its place in the publication. */
  ghost function RowKeyOf(model: Option<Origin>, entries: seq<Published>, i: nat): Key
    requires i < |entries|
  {
    var e := entries[i];
    if model.Some? && Alone(entries, i) then ModelItem(model.value, e.requestId, e.providerItemId)
    else Publication(e.sequence)
  }

  lemma KeyExact(model: Option<Origin>, entries: seq<Published>, i: nat)
    requires i < |entries|
    ensures KeyFor(model, entries, entries[i]) == RowKeyOf(model, entries, i)
  {
    var id := IdentityOf(entries[i]);
    if id.Some? {
      if Alone(entries, i) {
        OneCounted(entries, id.value, i);
      } else {
        var j :| 0 <= j < |entries| && j != i && SameItem(entries[i], entries[j]);
        CountedOnce(entries, id.value, if i < j then i else j, if i < j then j else i);
      }
    }
    hide CountOf;
  }

  lemma {:induction false} ResultsPicked(entries: seq<Published>, op: Operation)
    ensures Picks(entries, ResultsOf(entries, op), (e: Published) => IsTool(e, Result, op))
  {
    var wanted := (e: Published) => IsTool(e, Result, op);
    if entries == [] {
      PicksNone(wanted);
    } else {
      var init := entries[..|entries| - 1];
      ResultsPicked(init, op);
      PicksNext(entries, ResultsOf(init, op), ResultsOf(entries, op), wanted);
    }
  }

  lemma {:induction false} PreviewsPicked(live: seq<Preview>, key: Key)
    ensures Picks(live, PreviewsOf(live, key), (p: Preview) => ModelItem(p.origin, p.requestId, p.itemId) == key)
  {
    var wanted := (p: Preview) => ModelItem(p.origin, p.requestId, p.itemId) == key;
    if live == [] {
      PicksNone(wanted);
    } else {
      var init := live[..|live| - 1];
      PreviewsPicked(init, key);
      PicksNext(live, PreviewsOf(init, key), PreviewsOf(live, key), wanted);
    }
  }

  /** The last invocation of the operation. */
  predicate LastInvocation(entries: seq<Published>, op: Operation, i: nat) {
    && i < |entries| && IsTool(entries[i], Invocation, op)
    && forall j :: i < j < |entries| ==> !IsTool(entries[j], Invocation, op)
  }

  lemma {:induction false} InvocationExact(entries: seq<Published>, op: Operation) returns (i: nat)
    ensures InvocationOf(entries, op).Some? ==>
      LastInvocation(entries, op, i) && InvocationOf(entries, op).value == entries[i]
    ensures InvocationOf(entries, op).None? ==>
      forall j :: 0 <= j < |entries| ==> !IsTool(entries[j], Invocation, op)
  {
    i := 0;
    if entries != [] {
      var last := |entries| - 1;
      if IsTool(entries[last], Invocation, op) { i := last; } else { i := InvocationExact(entries[..last], op); }
    }
  }

  /** What a row says of its entry. */
  ghost predicate Tells(model: Option<Origin>, entries: seq<Published>, i: nat, row: Row)
    requires i < |entries|
  {
    var e := entries[i];
    && !row.LiveRow? && row.entry == e
    && row.key == RowKeyOf(model, entries, i)
    && (row.ActivityRow? <==> e.Message? && e.kind.Invocation?)
    && (row.ResultRow? <==> e.Message? && e.kind.Result?)
    && (row.ActivityRow? && e.tool.Some? ==>
         Picks(entries, row.results, (x: Published) => IsTool(x, Result, e.tool.value)))
    && (row.ActivityRow? && e.tool.None? ==> row.results == [])
    && (row.ResultRow? && row.invocation.Some? ==>
         e.tool.Some? && exists k: nat ::
           LastInvocation(entries, e.tool.value, k) && row.invocation == Some(entries[k]))
    && (row.ResultRow? && row.invocation.None? && e.tool.Some? ==>
         forall j :: 0 <= j < |entries| ==> !IsTool(entries[j], Invocation, e.tool.value))
  }

  lemma RowTells(model: Option<Origin>, entries: seq<Published>, i: nat)
    requires i < |entries|
    ensures Tells(model, entries, i, RowFor(model, entries, entries[i]))
  {
    var e := entries[i];
    KeyExact(model, entries, i);
    if e.Message? && e.tool.Some? {
      ResultsPicked(entries, e.tool.value);
      var k := InvocationExact(entries, e.tool.value);
      if InvocationOf(entries, e.tool.value).Some? {
        assert LastInvocation(entries, e.tool.value, k);
        KeyExact(model, entries, k);
      }
    }
    hide KeyFor, ResultsOf, InvocationOf, RowKeyOf, Picks, LastInvocation;
  }

  /** What a live row says of its previews: all those of its item, sorted. */
  ghost predicate TellsLive(model: Option<Origin>, live: seq<Preview>, sort: Sort, row: Row) {
    && row.LiveRow? && row.key.ModelItem? && model == Some(row.key.origin)
    && exists of: seq<Preview> ::
      && row.live == sort(of)
      && Picks(live, of, (p: Preview) => ModelItem(p.origin, p.requestId, p.itemId) == row.key)
  }

  /** Every row of a timeline tells its entry, or its live item, as it is. */
  lemma TimelineTells(model: Option<Origin>, entries: seq<Published>, live: seq<Preview>, sort: Sort, rows: seq<Row>,
                      i: nat)
    requires IsTimeline(model, entries, live, sort, rows) && i < |rows|
    ensures if i < |entries| then Tells(model, entries, i, rows[i]) else TellsLive(model, live, sort, rows[i])
  {
    if i < |entries| {
      RowTells(model, entries, i);
    } else {
      PreviewsPicked(live, rows[i].key);
    }
    hide Tells, RowFor, Picks, PreviewsOf, Unclaimed;
  }
}
