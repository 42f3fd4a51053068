/** The chat timeline: published entries joined with live previews
    (web/src/chat-timeline.ts). */
module Timeline {
  import opened JsMap
  import opened LiveOutput

  datatype Operation = Operation(origin: Origin, request: string, call: string)

  datatype ToolKind = Invocation | Result | NoTool

  datatype Published =
    | Message(sequence: nat, requestId: string, providerItemId: Option<string>, tool: Option<Operation>, kind: ToolKind)
    | Form(sequence: nat, revision: nat, open: bool, body: string)
    | Display(sequence: nat, body: string)

  /** A live preview: what the join looks at, and the rest of it. */
  datatype Preview = Preview(origin: Origin, requestId: string, itemId: Option<string>, rest: string)

  /** Row keys, the JSON text of a tagged list. */
  datatype Key = Publication(sequence: nat) | ModelItem(origin: Origin, request: string, item: Option<string>)

  datatype Row =
    | EntryRow(key: Key, entry: Published)
    | ActivityRow(key: Key, entry: Published, results: seq<Published>)
    | ResultRow(key: Key, entry: Published, invocationKey: Option<Key>, invocation: Option<Published>)
    | LiveRow(key: Key, live: seq<Preview>)

  // ------------------------------------------------- what the loops collect

  function LiveKey(p: Preview): Key { ModelItem(p.origin, p.requestId, p.itemId) }

  /** The previews of one item, in order. */
  function PreviewsOf(live: seq<Preview>, key: Key): seq<Preview> {
    if live == [] then []
    else
      var init, last := PreviewsOf(live[..|live| - 1], key), live[|live| - 1];
      if LiveKey(last) == key then init + [last] else init
  }

  /** The provider's identity of a message, within its one stored origin. */
  datatype ItemId = ItemId(request: string, id: string)

  function IdentityOf(e: Published): Option<ItemId> {
    if e.Message? && e.providerItemId.Some? && e.providerItemId.value != ""
      then Some(ItemId(e.requestId, e.providerItemId.value))
    else None
  }

  function CountOf(entries: seq<Published>, id: ItemId): nat {
    if entries == [] then 0
    else CountOf(entries[..|entries| - 1], id) + (if IdentityOf(entries[|entries| - 1]) == Some(id) then 1 else 0)
  }

  predicate IsTool(e: Published, kind: ToolKind, op: Operation) { e.Message? && e.tool == Some(op) && e.kind == kind }

  function ResultsOf(entries: seq<Published>, op: Operation): seq<Published> {
    if entries == [] then []
    else
      var init, last := ResultsOf(entries[..|entries| - 1], op), entries[|entries| - 1];
      if IsTool(last, Result, op) then init + [last] else init
  }

  function InvocationOf(entries: seq<Published>, op: Operation): Option<Published> {
    if entries == [] then None
    else
      var last := entries[|entries| - 1];
      if IsTool(last, Invocation, op) then Some(last) else InvocationOf(entries[..|entries| - 1], op)
  }

  // --------------------------------------------------- the intended rows

  /** A message published once under a provider identity keeps its preview's key. */
  function KeyFor(model: Option<Origin>, entries: seq<Published>, e: Published): Key {
    var id := IdentityOf(e);
    if model.Some? && id.Some? && CountOf(entries, id.value) == 1
      then ModelItem(model.value, id.value.request, Some(id.value.id))
    else Publication(e.sequence)
  }

  function RowFor(model: Option<Origin>, entries: seq<Published>, e: Published): Row {
    var key := KeyFor(model, entries, e);
    if !e.Message? || e.kind.NoTool? then EntryRow(key, e)
    else if e.kind.Invocation? then ActivityRow(key, e, if e.tool.Some? then ResultsOf(entries, e.tool.value) else [])
    else
      var invocation := if e.tool.Some? then InvocationOf(entries, e.tool.value) else None;
      ResultRow(key, e, if invocation.Some? then Some(KeyFor(model, entries, invocation.value)) else None, invocation)
  }

  /** Whether the group of previews under a key belongs to an entry. */
  predicate Claims(model: Option<Origin>, entries: seq<Published>, e: Published, key: Key) {
    key.ModelItem? && e.Message? && KeyFor(model, entries, e) == key
  }

  ghost predicate InScope(model: Option<Origin>, live: seq<Preview>, key: Key) {
    model.Some? && exists i :: 0 <= i < |live| && live[i].origin == model.value && LiveKey(live[i]) == key
  }

  ghost predicate Claimed(model: Option<Origin>, entries: seq<Published>, key: Key) {
    exists i :: 0 <= i < |entries| && Claims(model, entries, entries[i], key)
  }

  /** The items with previews, in order of their first preview. */
  function LiveKeys(model: Option<Origin>, live: seq<Preview>): seq<Key> {
    if live == [] then []
    else
      var init, last := LiveKeys(model, live[..|live| - 1]), live[|live| - 1];
      if model == Some(last.origin) && LiveKey(last) !in init then init + [LiveKey(last)] else init
  }

  function Without(keys: seq<Key>, gone: set<Key>): seq<Key> {
    if keys == [] then []
    else
      var init, last := Without(keys[..|keys| - 1], gone), keys[|keys| - 1];
      if last in gone then init else init + [last]
  }

  ghost function Unclaimed(model: Option<Origin>, entries: seq<Published>, keys: seq<Key>): seq<Key> {
    Without(keys, set k | k in keys && Claimed(model, entries, k))
  }

  function RowKeys(rows: seq<Row>, from: nat): (keys: seq<Key>)
    requires from <= |rows|
    ensures |keys| == |rows| - from && forall i :: 0 <= i < |keys| ==> keys[i] == rows[from + i].key
  {
    seq(|rows| - from, i requires 0 <= i < |rows| - from => rows[from + i].key)
  }

  type Sort = seq<Preview> -> seq<Preview>

  /** Every entry's row in place, then each unclaimed group once, in order. */
  ghost predicate IsTimeline(model: Option<Origin>, entries: seq<Published>, live: seq<Preview>, sort: Sort,
                             rows: seq<Row>) {
    && |rows| >= |entries|
    && (forall i :: 0 <= i < |entries| ==> rows[i] == RowFor(model, entries, entries[i]))
    && (forall i :: |entries| <= i < |rows| ==>
         && InScope(model, live, rows[i].key) && !Claimed(model, entries, rows[i].key)
         && rows[i] == LiveRow(rows[i].key, sort(PreviewsOf(live, rows[i].key))))
    && (forall i, j :: |entries| <= i < j < |rows| ==> rows[i].key != rows[j].key)
    && (forall key :: InScope(model, live, key) && !Claimed(model, entries, key) ==>
         exists i :: |entries| <= i < |rows| && rows[i].key == key)
    && RowKeys(rows, |entries|) == Unclaimed(model, entries, LiveKeys(model, live))
  }

  /** There is one such timeline. */
  lemma TimelineUnique(model: Option<Origin>, entries: seq<Published>, live: seq<Preview>, sort: Sort,
                       rows: seq<Row>, rows': seq<Row>)
    requires IsTimeline(model, entries, live, sort, rows) && IsTimeline(model, entries, live, sort, rows')
    ensures rows == rows'
  {
    hide Unclaimed, LiveKeys, RowFor, InScope, Claimed, PreviewsOf;
    var n := |entries|;
    assert |RowKeys(rows, n)| == |RowKeys(rows', n)|;
    forall i | n <= i < |rows| ensures rows[i] == rows'[i] {
      assert RowKeys(rows, n)[i - n] == RowKeys(rows', n)[i - n];
    }
  }

  ghost predicate DistinctSequences(entries: seq<Published>) {
    forall i, j :: 0 <= i < j < |entries| ==> entries[i].sequence != entries[j].sequence
  }

  // ------------------------------------------------------------- theorems

  lemma {:induction false} CountedOnce(entries: seq<Published>, id: ItemId, i: nat, j: nat)
    requires i < j < |entries| && IdentityOf(entries[i]) == Some(id) && IdentityOf(entries[j]) == Some(id)
    ensures CountOf(entries, id) >= 2
    decreases |entries|
  {
    var last := |entries| - 1;
    if j < last { CountedOnce(entries[..last], id, i, j); } else { Counted(entries[..last], id, i); }
  }

  lemma {:induction false} Counted(entries: seq<Published>, id: ItemId, i: nat)
    requires i < |entries| && IdentityOf(entries[i]) == Some(id)
    ensures CountOf(entries, id) >= 1
  {
    if i < |entries| - 1 { Counted(entries[..|entries| - 1], id, i); }
  }

  lemma EntryKeysDiffer(model: Option<Origin>, entries: seq<Published>, i: nat, j: nat)
    requires DistinctSequences(entries) && i < j < |entries|
    ensures KeyFor(model, entries, entries[i]) != KeyFor(model, entries, entries[j])
  {
    var id := IdentityOf(entries[i]);
    if id.Some? && IdentityOf(entries[j]) == id { CountedOnce(entries, id.value, i, j); }
  }

  lemma RowKey(model: Option<Origin>, entries: seq<Published>, e: Published)
    ensures RowFor(model, entries, e).key == KeyFor(model, entries, e)
  {
  }

  /** Row keys are pairwise distinct. */
  lemma KeysDistinct(model: Option<Origin>, entries: seq<Published>, live: seq<Preview>, sort: Sort, rows: seq<Row>,
                     i: nat, j: nat)
    requires DistinctSequences(entries) && IsTimeline(model, entries, live, sort, rows) && i < j < |rows|
    ensures rows[i].key != rows[j].key
  {
    hide RowFor, KeyFor;
    if j < |entries| {
      EntryKeysDiffer(model, entries, i, j);
      RowKey(model, entries, entries[i]);
      RowKey(model, entries, entries[j]);
    } else if i < |entries| {
      RowKey(model, entries, entries[i]);
      LiveKeyApart(model, entries, live, i, rows[j].key);
    }
  }

  lemma LiveKeyApart(model: Option<Origin>, entries: seq<Published>, live: seq<Preview>, i: nat, key: Key)
    requires InScope(model, live, key) && !Claimed(model, entries, key) && i < |entries|
    ensures KeyFor(model, entries, entries[i]) != key
  {
    assert Claims(model, entries, entries[i], key) ==> Claimed(model, entries, key);
  }

  /** Whether exactly one published message has the item's provider identity. */
  predicate PublishedOnce(entries: seq<Published>, key: Key) {
    && key.ModelItem? && key.item.Some? && key.item.value != ""
    && CountOf(entries, ItemId(key.request, key.item.value)) == 1
  }

  lemma {:induction false} CountedSome(entries: seq<Published>, id: ItemId) returns (i: nat)
    requires CountOf(entries, id) > 0
    ensures i < |entries| && IdentityOf(entries[i]) == Some(id)
  {
    var last := |entries| - 1;
    if IdentityOf(entries[last]) == Some(id) { i := last; } else { i := CountedSome(entries[..last], id); }
  }

  lemma ClaimedExact(model: Origin, entries: seq<Published>, key: Key)
    requires key.ModelItem? && key.origin == model
    ensures Claimed(Some(model), entries, key) <==> PublishedOnce(entries, key)
  {
    if PublishedOnce(entries, key) {
      var i := CountedSome(entries, ItemId(key.request, key.item.value));
      assert Claims(Some(model), entries, entries[i], key);
    }
  }

  /** A live item is shown exactly once: in the row of its message, under the
      preview's own key, if that message is published exactly once, and else in a
      live row. */
  lemma LiveAccounted(model: Option<Origin>, entries: seq<Published>, live: seq<Preview>, sort: Sort, rows: seq<Row>,
                      key: Key) returns (at: nat)
    requires DistinctSequences(entries) && IsTimeline(model, entries, live, sort, rows) && InScope(model, live, key)
    ensures at < |rows| && rows[at].key == key
    ensures at < |entries| <==> PublishedOnce(entries, key)
    ensures at >= |entries| ==> rows[at] == LiveRow(key, sort(PreviewsOf(live, key)))
    ensures forall i :: 0 <= i < |rows| && i != at ==> rows[i].key != key
  {
    ClaimedExact(model.value, entries, key);
    hide PublishedOnce;
    if Claimed(model, entries, key) {
      at :| 0 <= at < |entries| && Claims(model, entries, entries[at], key);
      RowKey(model, entries, entries[at]);
    } else {
      at :| |entries| <= at < |rows| && rows[at].key == key;
    }
    forall i | 0 <= i < |rows| && i != at ensures rows[i].key != key {
      KeysDistinct(model, entries, live, sort, rows, if i < at then i else at, if i < at then at else i);
    }
  }

  lemma {:induction false} InvocationFound(entries: seq<Published>, op: Operation) returns (i: nat)
    requires InvocationOf(entries, op).Some?
    ensures i < |entries| && entries[i] == InvocationOf(entries, op).value && IsTool(entries[i], Invocation, op)
  {
    var last := |entries| - 1;
    if IsTool(entries[last], Invocation, op) { i := last; } else { i := InvocationFound(entries[..last], op); }
  }

  lemma {:induction false} ResultsExact(entries: seq<Published>, op: Operation)
    ensures forall e :: e in ResultsOf(entries, op) <==> e in entries && IsTool(e, Result, op)
  {
    if entries != [] {
      var init, last := entries[..|entries| - 1], entries[|entries| - 1];
      ResultsExact(init, op);
      assert forall e :: e in entries <==> e in init || e == last;
    }
  }

  /** A result's invocation key is the key of an activity row for its invocation,
      and that row lists the result, among exactly the results of its operation. */
  lemma InvocationShown(model: Option<Origin>, entries: seq<Published>, live: seq<Preview>, sort: Sort, rows: seq<Row>,
                        r: nat) returns (i: nat)
    requires IsTimeline(model, entries, live, sort, rows)
    requires r < |entries| && rows[r].ResultRow? && rows[r].invocationKey.Some?
    ensures i < |entries| && rows[i].ActivityRow? && rows[r].invocationKey == Some(rows[i].key)
    ensures rows[r].invocation == Some(rows[i].entry)
    ensures rows[r].entry == entries[r] && entries[r] in rows[i].results
    ensures forall e :: e in rows[i].results <==> e in entries && IsTool(e, Result, entries[r].tool.value)
  {
    i := InvocationFound(entries, entries[r].tool.value);
    RowKey(model, entries, entries[i]);
    ResultsExact(entries, entries[r].tool.value);
  }
}
