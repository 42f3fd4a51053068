/** The caching selector over the view model (web/src/selectors.ts). */
module Selector {
  import opened JsMap
  import opened HostCommands
  import opened Projector

  datatype Actor = Actor(identity: Identity, modelConversation: Option<Id>)

  datatype Node = Node(id: Id, name: string, rest: string)

  datatype Activity = Activity(nodeId: Id, rest: string)

  datatype Message = Message(sender: string, recipient: Option<string>, kind: Option<string>, rest: string)

  /** An array of row objects, itself an object. */
  type Rows<T> = Obj<seq<Obj<T>>>

  datatype Data = Data(actors: seq<Actor>, nodes: Rows<Node>, timeline: Rows<Activity>, inbox: Rows<Message>,
                       rest: string)

  datatype Selection = Nothing | ByActor(identity: Identity) | ByConversation(id: Id)

  datatype Filters = Filters(sender: Option<string>, recipient: Option<string>, kind: Option<string>)

  datatype Resolved = Resolved(conversationId: Option<Id>, endpoints: seq<string>, missing: bool)

  // ------------------------------------------------------ resolveSelection

  function FindActor(actors: seq<Actor>, identity: Identity): Option<Actor> {
    if actors == [] then None else if actors[0].identity == identity then Some(actors[0])
      else FindActor(actors[1..], identity)
  }

  function FindNode(rows: seq<Obj<Node>>, id: Id): Option<Node> {
    if rows == [] then None else if rows[0].value.id == id then Some(rows[0].value) else FindNode(rows[1..], id)
  }

  function Resolve(data: Data, selection: Selection): Resolved {
    match selection
    case Nothing => Resolved(None, [], false)
    case ByActor(identity) =>
      var actor := FindActor(data.actors, identity);
      if actor.None? then Resolved(None, [], true)
      else
        var id := actor.value.modelConversation;
        var node := if id.Some? && id.value != "" then FindNode(data.nodes.value, id.value) else None;
        var named := if node.Some? && node.value.name != identity.actor then [node.value.name] else [];
        Resolved(id, [identity.actor] + named, false)
    case ByConversation(id) =>
      var node := FindNode(data.nodes.value, id);
      if node.None? then Resolved(None, [], true) else Resolved(Some(node.value.id), [node.value.name], false)
  }

  /** Everything the row filters depend on. */
  datatype Context = Context(contextual: bool, resolved: Resolved, filters: Filters)

  function ContextOf(data: Data, selection: Selection, global: bool, filters: Filters): Context {
    Context(!global && !selection.Nothing?, Resolve(data, selection), filters)
  }

  // --------------------------------------------------- the fresh selection

  predicate NodeShown(c: Context, n: Node) { c.contextual ==> c.resolved.conversationId == Some(n.id) }

  predicate ActivityShown(c: Context, a: Activity) { c.contextual ==> c.resolved.conversationId == Some(a.nodeId) }

  predicate Concerns(m: Message, endpoints: seq<string>) {
    exists i :: 0 <= i < |endpoints| && (m.sender == endpoints[i] || m.recipient == Some(endpoints[i]))
  }

  predicate MessageShown(c: Context, m: Message) {
    && (c.contextual ==> Concerns(m, c.resolved.endpoints))
    && (c.filters.sender.Some? ==> c.filters.sender.value == m.sender)
    && (c.filters.recipient.Some? ==> m.recipient == c.filters.recipient)
    && (c.filters.kind.Some? ==> m.kind == c.filters.kind)
  }

  function Where<T>(rows: seq<Obj<T>>, keep: T -> bool): seq<Obj<T>> {
    if rows == [] then []
    else
      var init, last := Where(rows[..|rows| - 1], keep), rows[|rows| - 1];
      if keep(last.value) then init + [last] else init
  }

  lemma {:induction false} WhereAll<T>(rows: seq<Obj<T>>, keep: T -> bool)
    requires forall i :: 0 <= i < |rows| ==> keep(rows[i].value)
    ensures Where(rows, keep) == rows
  {
    if rows != [] { WhereAll(rows[..|rows| - 1], keep); }
  }

  /** What a selection should contain, row object by row object. */
  ghost predicate Selects(view: Data, data: Data, c: Context) {
    && view.actors == data.actors && view.rest == data.rest
    && view.nodes.value == Where(data.nodes.value, n => NodeShown(c, n))
    && view.timeline.value == Where(data.timeline.value, a => ActivityShown(c, a))
    && view.inbox.value == Where(data.inbox.value, m => MessageShown(c, m))
  }

  datatype RowHeaps = RowHeaps(
    nodes: Heap<Node>, activities: Heap<Activity>, messages: Heap<Message>,
    nodeArrays: Heap<seq<Obj<Node>>>, activityArrays: Heap<seq<Obj<Activity>>>, messageArrays: Heap<seq<Obj<Message>>>)

  ghost predicate Held<T>(heap: Heap<T>, rows: seq<Obj<T>>) {
    forall i :: 0 <= i < |rows| ==> Holds(heap, rows[i])
  }

  ghost predicate Consistent(h: RowHeaps, d: Data) {
    && Holds(h.nodeArrays, d.nodes) && Held(h.nodes, d.nodes.value)
    && Holds(h.activityArrays, d.timeline) && Held(h.activities, d.timeline.value)
    && Holds(h.messageArrays, d.inbox) && Held(h.messages, d.inbox.value)
  }

  lemma {:induction false} WhereHeld<T>(heap: Heap<T>, rows: seq<Obj<T>>, keep: T -> bool)
    requires Held(heap, rows)
    ensures Held(heap, Where(rows, keep))
  {
    if rows != [] { WhereHeld(heap, rows[..|rows| - 1], keep); }
  }

  // ------------------------------------------------------------ the cache

  /** `rows.filter(...)`, or the very array when nothing needs filtering. */
  method Filtered<T>(rows: Rows<T>, needed: bool, keep: T -> bool, next: nat) returns (r: Rows<T>)
    requires !needed ==> forall i :: 0 <= i < |rows.value| ==> keep(rows.value[i].value)
    ensures r.value == Where(rows.value, keep)
  {
    if !needed {
      WhereAll(rows.value, keep);
      return rows;
    }
    var kept: seq<Obj<T>> := [];
    for i := 0 to |rows.value|
      invariant kept == Where(rows.value[..i], keep)
    {
      assert rows.value[..i + 1][..i] == rows.value[..i];
      if keep(rows.value[i].value) { kept := kept + [rows.value[i]]; }
    }
    assert rows.value[..|rows.value|] == rows.value;
    r := Obj(next, kept);
  }

  predicate SameRefs<T>(a: seq<Obj<T>>, b: seq<Obj<T>>) {
    |a| == |b| && forall i :: 0 <= i < |a| ==> a[i].ref == b[i].ref
  }

  /** `sameRows`: the previous array if it holds the same row objects. */
  method SameRows<T>(ghost heap: Heap<T>, rows: Rows<T>, previous: Rows<T>) returns (r: Rows<T>)
    requires Held(heap, rows.value) && Held(heap, previous.value)
    ensures r.value == rows.value
    ensures rows.value == previous.value ==> r == previous
  {
    if SameRefs(rows.value, previous.value) {
      forall i | 0 <= i < |rows.value| ensures rows.value[i] == previous.value[i] {
        assert Holds(heap, rows.value[i]) && Holds(heap, previous.value[i]);
      }
      return previous;
    }
    return rows;
  }

  /** What is remembered of one table: the input array and the selected one. */
  datatype Memory<T> = Memory(input: Rows<T>, selected: Rows<T>)

  /** One of the three tables: reuse, filter, then compare. `memory` is there only
      if the context is the one of the last call. */
  method Column<T(==)>(ghost heap: Heap<T>, ghost arrays: Heap<seq<Obj<T>>>, rows: Rows<T>, memory: Option<Memory<T>>,
                       needed: bool, keep: T -> bool, next: nat) returns (r: Rows<T>)
    requires Holds(arrays, rows) && Held(heap, rows.value)
    requires memory.Some? ==> Holds(arrays, memory.value.input) && Held(heap, memory.value.input.value)
    requires memory.Some? ==> memory.value.selected.value == Where(memory.value.input.value, keep)
    requires !needed ==> forall i :: 0 <= i < |rows.value| ==> keep(rows.value[i].value)
    ensures r.value == Where(rows.value, keep)
    ensures memory.Some? && Where(rows.value, keep) == memory.value.selected.value ==> r == memory.value.selected
  {
    if memory.Some? && memory.value.input.ref == rows.ref {
      r := memory.value.selected;
    } else {
      r := Filtered(rows, needed, keep, next);
    }
    if memory.Some? {
      WhereHeld(heap, rows.value, keep);
      WhereHeld(heap, memory.value.input.value, keep);
      r := SameRows(heap, r, memory.value.selected);
    }
  }

  class ViewSelector {
    ghost const heaps: RowHeaps
    var previous: Option<Data>
    var previousContext: Option<Context>
    var result: Option<Data>
    var issued: nat

    ghost predicate Valid()
      reads this
    {
      && (previous.Some? <==> previousContext.Some?) && (previous.Some? <==> result.Some?)
      && (previous.Some? ==>
          Consistent(heaps, previous.value) && Selects(result.value, previous.value, previousContext.value))
    }

    constructor (ghost heaps: RowHeaps)
      ensures Valid() && previous.None? && this.heaps == heaps
    {
      this.heaps := heaps;
      previous, previousContext, result, issued := None, None, None, 0;
    }

    /** One call: the rows are those of a fresh selection, and arrays whose rows
        have not changed keep their identity. */
    method Select(data: Data, selection: Selection, global: bool, filters: Filters) returns (view: Data)
      requires Valid() && Consistent(heaps, data)
      modifies this
      ensures Valid() && previous == Some(data) && result == Some(view)
      ensures Selects(view, data, ContextOf(data, selection, global, filters))
      ensures old(previousContext) == Some(ContextOf(data, selection, global, filters)) && old(result).Some? ==>
        && (view.nodes.value == old(result).value.nodes.value ==> view.nodes == old(result).value.nodes)
        && (view.timeline.value == old(result).value.timeline.value ==> view.timeline == old(result).value.timeline)
        && (view.inbox.value == old(result).value.inbox.value ==> view.inbox == old(result).value.inbox)
    {
      hide Where, Resolve, Concerns, Held, Holds;
      var c := ContextOf(data, selection, global, filters);
      var same := previousContext == Some(c) && result.Some?;
      var nodes := Column(heaps.nodes, heaps.nodeArrays, data.nodes,
                          if same then Some(Memory(previous.value.nodes, result.value.nodes)) else None,
                          c.contextual, n => NodeShown(c, n), issued);
      var timeline := Column(heaps.activities, heaps.activityArrays, data.timeline,
                             if same then Some(Memory(previous.value.timeline, result.value.timeline)) else None,
                             c.contextual, a => ActivityShown(c, a), issued + 1);
      var inbox := Column(heaps.messages, heaps.messageArrays, data.inbox,
                          if same then Some(Memory(previous.value.inbox, result.value.inbox)) else None,
                          c.contextual || filters != Filters(None, None, None), m => MessageShown(c, m), issued + 2);
      view := Data(data.actors, nodes, timeline, inbox, data.rest);
      issued := issued + 3;
      result, previous, previousContext := Some(view), Some(data), Some(c);
    }
  }

  /** A row is selected exactly when it is there and meets the context. */
  lemma {:induction false} WhereExact<T>(rows: seq<Obj<T>>, keep: T -> bool, row: Obj<T>)
    ensures row in Where(rows, keep) <==> row in rows && keep(row.value)
  {
    if rows != [] { WhereExact(rows[..|rows| - 1], keep, row); }
  }
}
