/** The caching projector of the view model (web/src/integration.ts). Objects are
    values with an identity; `===` on objects compares identities only. */
module Projector {
  import opened JsMap
  import Paths = PathIndex

  type Id = string

  datatype Obj<+T> = Obj(ref: nat, value: T)

  /** An optional field that may also be null. */
  datatype Parent = Undefined | Null | Named(id: Id)

  datatype Conversation = Conversation(id: Id, path: string, own: bool, parentId: Parent, rest: string)

  datatype RequestRecord = RequestRecord(id: Id, conversationId: Id, detail: string, version: Option<string>,
                                         state: string, rest: string)

  datatype Job = Job(id: Id, requestId: Option<Id>, state: string, delivered: Option<bool>, rest: string)

  /** An actor or envelope, which depends on nothing else. */
  datatype Plain = Plain(id: Id, rest: string)

  /** A `Map` of objects by id, itself an object. */
  type Map<T> = Obj<Table<Id, Obj<T>>>

  datatype State = State(
    hostRun: Option<string>, actors: Map<Plain>, conversations: Map<Conversation>, requests: Map<RequestRecord>,
    jobs: Map<Job>, envelopes: Map<Plain>, receipts: Obj<seq<string>>,
    liveOutput: Option<Obj<seq<string>>>, revisions: Option<Obj<seq<string>>>, actorRevisions: Option<Obj<seq<string>>>)

  // ----------------------------------------------------------------- rows

  datatype PlainRow = PlainRow(source: Plain)

  datatype NodeRow = NodeRow(id: Id, parentId: Parent, name: string, rest: string, detail: string)

  datatype Evidence = Evidence(job: Id, state: string, delivered: bool)

  datatype RefreshKey = RefreshKey(id: Id, version: Option<string>, state: string, evidence: seq<Evidence>)

  datatype ActivityRow = RequestRow(request: RequestRecord, refresh: RefreshKey) | JobRow(job: Job)

  datatype Outputs = Outputs(liveOutput: Option<seq<string>>, revisions: Option<seq<string>>,
                             actorRevisions: Option<seq<string>>)

  datatype View = View(hostRun: Option<string>, actors: seq<PlainRow>, nodes: seq<NodeRow>, timeline: seq<ActivityRow>,
                       inbox: seq<PlainRow>, receipts: seq<string>, outputs: Outputs)

  /** `JSON.stringify([parentId, detail])`: undefined and null look alike. */
  datatype NodeKey = NodeKey(parent: Option<Id>, detail: string)

  function KeyOf(parent: Parent, detail: string): NodeKey {
    NodeKey(if parent.Named? then Some(parent.id) else None, detail)
  }

  // ----------------------------------------------- what a row depends on

  function Values<T>(m: Map<T>): seq<T> {
    seq(|m.value|, i requires 0 <= i < |m.value| => m.value[i].value.value)
  }

  function Details(requests: seq<RequestRecord>, id: Id): seq<string> {
    if requests == [] then []
    else
      var init, last := Details(requests[..|requests| - 1], id), requests[|requests| - 1];
      if last.conversationId == id then init + [last.detail] else init
  }

  function Joined(parts: seq<string>): string {
    if parts == [] then "" else if |parts| == 1 then parts[0]
      else Joined(parts[..|parts| - 1]) + ", " + parts[|parts| - 1]
  }

  /** An empty request id is as good as none. */
  predicate Tells(job: Job) {
    job.requestId.Some? && job.requestId.value != "" && !(job.state == "running" && job.delivered != Some(true))
  }

  function EvidenceOf(job: Job): Evidence { Evidence(job.id, job.state, job.delivered == Some(true)) }

  function AllEvidence(jobs: seq<Job>, id: Id): seq<Evidence> {
    if jobs == [] then []
    else
      var init, last := AllEvidence(jobs[..|jobs| - 1], id), jobs[|jobs| - 1];
      if Tells(last) && last.requestId == Some(id) then init + [EvidenceOf(last)] else init
  }

  function AsPathNode(c: Conversation): Paths.Node {
    Paths.Node(c.id, c.path, c.own, if c.parentId.Named? then Some(c.parentId.id) else None)
  }

  function AsPathNodes(cs: seq<Conversation>): (nodes: seq<Paths.Node>)
    ensures |nodes| == |cs| && forall i :: 0 <= i < |cs| ==> nodes[i].id == cs[i].id && nodes[i].name == cs[i].path
  {
    seq(|cs|, i requires 0 <= i < |cs| => AsPathNode(cs[i]))
  }

  /** What `resolveParentIds` gives for the conversation. */
  function ParentIn(nodes: seq<Paths.Node>, c: Conversation): Parent {
    if c.own then c.parentId
    else var p := Paths.ParentByPath(nodes, c.path); if p.Some? then Named(p.value) else Undefined
  }

  function RefreshOf(r: RequestRecord, jobs: seq<Job>): RefreshKey {
    RefreshKey(r.id, r.version, r.state, AllEvidence(jobs, r.id))
  }

  // ------------------------------------------------- a fresh projection

  function PlainRows(items: seq<Plain>): seq<PlainRow> {
    seq(|items|, i requires 0 <= i < |items| => PlainRow(items[i]))
  }

  function NodeRowOf(c: Conversation, parent: Parent, detail: string): NodeRow {
    NodeRow(c.id, parent, c.path, c.rest, detail)
  }

  function NodeRows(cs: seq<Conversation>, requests: seq<RequestRecord>): seq<NodeRow> {
    seq(|cs|, i requires 0 <= i < |cs| =>
      NodeRowOf(cs[i], ParentIn(AsPathNodes(cs), cs[i]), Joined(Details(requests, cs[i].id))))
  }

  function RequestRows(requests: seq<RequestRecord>, jobs: seq<Job>): seq<ActivityRow> {
    seq(|requests|, i requires 0 <= i < |requests| => RequestRow(requests[i], RefreshOf(requests[i], jobs)))
  }

  function JobRows(jobs: seq<Job>): seq<ActivityRow> { seq(|jobs|, i requires 0 <= i < |jobs| => JobRow(jobs[i])) }

  predicate AnyOutput(s: State) { s.liveOutput.Some? || s.revisions.Some? || s.actorRevisions.Some? }

  function Listed(m: Option<Obj<seq<string>>>): Option<seq<string>> { Some(if m.Some? then m.value.value else []) }

  const NoOutputs := Outputs(None, None, None)

  function OutputsOf(s: State): Outputs { Outputs(Listed(s.liveOutput), Listed(s.revisions), Listed(s.actorRevisions)) }

  type Sort<!T> = seq<T> -> seq<T>

  /** The view of a projector that has seen nothing before. */
  function Fresh(s: State, activity: Sort<ActivityRow>, inbox: Sort<PlainRow>): View {
    View(s.hostRun, PlainRows(Values(s.actors)), NodeRows(Values(s.conversations), Values(s.requests)),
         activity(RequestRows(Values(s.requests), Values(s.jobs)) + JobRows(Values(s.jobs))),
         inbox(PlainRows(Values(s.envelopes))), s.receipts.value, if AnyOutput(s) then OutputsOf(s) else NoOutputs)
  }

  // -------------------------------------------------------- row caches

  /** What the heap holds at each identity; objects never change. */
  type Heap<T> = map<nat, T>

  predicate Holds<T(==)>(heap: Heap<T>, o: Obj<T>) { o.ref in heap && heap[o.ref] == o.value }

  datatype Cached<S, D, R> = Cached(source: Obj<S>, dependency: D, row: Obj<R>)

  /** The rows made last, and the identity of the next row to be made. */
  datatype RowCache<S, D, R> = RowCache(rows: map<Id, Cached<S, D, R>>, issued: nat)

  ghost predicate CacheSound<S, D, R>(heap: Heap<S>, cache: RowCache<S, D, R>, create: (S, D) -> R) {
    forall id :: id in cache.rows ==>
      && Holds(heap, cache.rows[id].source) && cache.rows[id].row.ref < cache.issued
      && cache.rows[id].row.value == create(cache.rows[id].source.value, cache.rows[id].dependency)
  }

  predicate Matches<S, D(==), R>(cache: RowCache<S, D, R>, id: Id, source: Obj<S>, dependency: D) {
    id in cache.rows && cache.rows[id].source.ref == source.ref && cache.rows[id].dependency == dependency
  }

  /** A row with the source and dependency it had before is the object it was; any
      other row is a new object. */
  ghost predicate RowFrom<S, D, R>(cache: RowCache<S, D, R>, id: Id, source: Obj<S>, dependency: D, row: Obj<R>) {
    if Matches(cache, id, source, dependency) then row == cache.rows[id].row else row.ref >= cache.issued
  }

  ghost predicate Reused<S, D, R>(before: RowCache<S, D, R>, after: RowCache<S, D, R>) {
    forall id :: id in after.rows ==>
      RowFrom(before, id, after.rows[id].source, after.rows[id].dependency, after.rows[id].row)
  }

  /** `reuse` for one row. */
  method Reuse<S(==), D(==), R>(ghost heap: Heap<S>, previous: RowCache<S, D, R>, next: RowCache<S, D, R>,
                                id: Id, source: Obj<S>, dependency: D, create: (S, D) -> R)
    returns (row: Obj<R>, next': RowCache<S, D, R>)
    requires Holds(heap, source) && CacheSound(heap, previous, create) && CacheSound(heap, next, create)
    requires previous.issued <= next.issued && Reused(previous, next)
    ensures row.value == create(source.value, dependency) && RowFrom(previous, id, source, dependency, row)
    ensures CacheSound(heap, next', create) && Reused(previous, next') && next.issued <= next'.issued
    ensures next'.rows == next.rows[id := Cached(source, dependency, row)]
  {
    if Matches(previous, id, source, dependency) {
      row := previous.rows[id].row;
      next' := next.(rows := next.rows[id := previous.rows[id]]);
    } else {
      row := Obj(next.issued, create(source.value, dependency));
      next' := RowCache(next.rows[id := Cached(source, dependency, row)], next.issued + 1);
    }
  }

  /** A whole table's rows, through the cache. */
  method ReuseAll<S(==), D(==), R>(ghost heap: Heap<S>, previous: RowCache<S, D, R>, items: Map<S>,
                                   dependency: S -> D, create: (S, D) -> R)
    returns (rows: seq<Obj<R>>, next: RowCache<S, D, R>)
    requires CacheSound(heap, previous, create)
    requires forall i :: 0 <= i < |items.value| ==> Holds(heap, items.value[i].value)
    ensures |rows| == |items.value|
    ensures forall i :: 0 <= i < |rows| ==>
      rows[i].value == create(items.value[i].value.value, dependency(items.value[i].value.value))
    ensures forall i :: 0 <= i < |rows| ==>
      RowFrom(previous, items.value[i].key, items.value[i].value, dependency(items.value[i].value.value), rows[i])
    ensures CacheSound(heap, next, create) && Reused(previous, next)
  {
    rows, next := [], RowCache(map[], previous.issued);
    for i := 0 to |items.value|
      invariant |rows| == i && CacheSound(heap, next, create) && Reused(previous, next)
        && previous.issued <= next.issued
      invariant forall k :: 0 <= k < i ==>
        rows[k].value == create(items.value[k].value.value, dependency(items.value[k].value.value))
      invariant forall k :: 0 <= k < i ==>
        RowFrom(previous, items.value[k].key, items.value[k].value, dependency(items.value[k].value.value), rows[k])
    {
      var e := items.value[i];
      var row;
      row, next := Reuse(heap, previous, next, e.key, e.value, dependency(e.value.value), create);
      rows := rows + [row];
    }
  }

  function Contents<R>(rows: seq<Obj<R>>): seq<R> { seq(|rows|, i requires 0 <= i < |rows| => rows[i].value) }

  /** A node row from its source and the cached key alone: for one source the key
      does tell null from undefined, as only an own parent can be null. */
  function NodeFromKey(c: Conversation, key: NodeKey): NodeRow {
    var parent :=
      if key.parent.Some? then Named(key.parent.value) else if c.own && c.parentId.Null? then Null else Undefined;
    NodeRowOf(c, parent, key.detail)
  }

  lemma KeyEnough(nodes: seq<Paths.Node>, c: Conversation, detail: string)
    ensures NodeFromKey(c, KeyOf(ParentIn(nodes, c), detail)) == NodeRowOf(c, ParentIn(nodes, c), detail)
  {
  }

  // ------------------------------------------------------ coherent states

  datatype Heaps = Heaps(
    plains: Heap<Plain>, conversations: Heap<Conversation>, requests: Heap<RequestRecord>, jobs: Heap<Job>,
      lists: Heap<seq<string>>,
    plainMaps: Heap<Table<Id, Obj<Plain>>>, conversationMaps: Heap<Table<Id, Obj<Conversation>>>,
    requestMaps: Heap<Table<Id, Obj<RequestRecord>>>, jobMaps: Heap<Table<Id, Obj<Job>>>)

  ghost predicate RowsHeld<T>(heap: Heap<T>, m: Map<T>) {
    forall i :: 0 <= i < |m.value| ==> Holds(heap, m.value[i].value)
  }

  ghost predicate ListHeld(heap: Heap<seq<string>>, m: Option<Obj<seq<string>>>) { m.Some? ==> Holds(heap, m.value) }

  /** Equal identities mean equal contents; conversations are filed by their ids. */
  ghost predicate Coherent(h: Heaps, s: State) {
    && Holds(h.plainMaps, s.actors) && RowsHeld(h.plains, s.actors)
    && Holds(h.conversationMaps, s.conversations) && RowsHeld(h.conversations, s.conversations)
    && Holds(h.requestMaps, s.requests) && RowsHeld(h.requests, s.requests)
    && Holds(h.jobMaps, s.jobs) && RowsHeld(h.jobs, s.jobs)
    && Holds(h.plainMaps, s.envelopes) && RowsHeld(h.plains, s.envelopes)
    && Holds(h.lists, s.receipts) && ListHeld(h.lists, s.liveOutput) && ListHeld(h.lists, s.revisions)
    && ListHeld(h.lists, s.actorRevisions)
    && DistinctKeys(s.conversations.value)
    && forall i :: 0 <= i < |s.conversations.value| ==>
      s.conversations.value[i].value.value.id == s.conversations.value[i].key
  }

  // ------------------------------------------------------------- grouping

  ghost predicate Groups(groups: map<Id, seq<string>>, requests: seq<RequestRecord>) {
    forall id :: (if id in groups then groups[id] else []) == Details(requests, id)
  }

  method GroupDetails(requests: seq<RequestRecord>) returns (details: map<Id, string>)
    ensures forall id :: (if id in details then details[id] else "") == Joined(Details(requests, id))
  {
    var groups: map<Id, seq<string>> := map[];
    for i := 0 to |requests|
      invariant Groups(groups, requests[..i])
    {
      var r := requests[i];
      assert requests[..i + 1][..i] == requests[..i];
      groups := groups[r.conversationId :=
                       (if r.conversationId in groups then groups[r.conversationId] else []) + [r.detail]];
    }
    assert requests[..|requests|] == requests;
    details := map id | id in groups :: Joined(groups[id]);
  }

  ghost predicate EvidenceGroups(groups: map<Id, seq<Evidence>>, jobs: seq<Job>) {
    forall id :: (if id in groups then groups[id] else []) == AllEvidence(jobs, id)
  }

  method GroupEvidence(jobs: seq<Job>) returns (groups: map<Id, seq<Evidence>>)
    ensures EvidenceGroups(groups, jobs)
  {
    groups := map[];
    for i := 0 to |jobs|
      invariant EvidenceGroups(groups, jobs[..i])
    {
      var job := jobs[i];
      assert jobs[..i + 1][..i] == jobs[..i];
      if Tells(job) {
        var id := job.requestId.value;
        groups := groups[id := (if id in groups then groups[id] else []) + [EvidenceOf(job)]];
      }
    }
    assert jobs[..|jobs|] == jobs;
  }

  ghost predicate ParentsOf(parents: map<Id, Parent>, cs: seq<Conversation>) {
    forall i :: 0 <= i < |cs| ==> cs[i].id in parents && parents[cs[i].id] == ParentIn(AsPathNodes(cs), cs[i])
  }

  ghost predicate DistinctConversations(cs: seq<Conversation>) {
    forall i, j :: 0 <= i < j < |cs| ==> cs[i].id != cs[j].id
  }

  /** The path index, with an own null kept apart from a missing parent. */
  method ResolveParents(cs: seq<Conversation>) returns (parents: map<Id, Parent>)
    requires DistinctConversations(cs)
    ensures ParentsOf(parents, cs)
  {
    hide Paths.Resolved, Paths.ParentByPath;
    var nodes := AsPathNodes(cs);
    var resolved := Paths.ResolveParentIds(nodes);
    parents := map[];
    for i := 0 to |cs|
      invariant forall k :: 0 <= k < i ==> cs[k].id in parents && parents[cs[k].id] == ParentIn(nodes, cs[k])
    {
      var c := cs[i];
      ResolvedAt(nodes, resolved, i);
      var p := resolved[c.id];
      parents := parents[c.id := if c.own then c.parentId else if p.Some? then Named(p.value) else Undefined];
    }
  }

  lemma ResolvedAt(nodes: seq<Paths.Node>, resolved: map<Id, Option<Id>>, i: nat)
    requires Paths.Resolved(nodes, |nodes|, resolved) && i < |nodes| && Paths.DistinctIds(nodes)
    ensures nodes[i].id in resolved && resolved[nodes[i].id] == Paths.ParentOf(nodes, nodes[i])
  {
    assert Paths.LastOf(nodes, |nodes|, i);
  }
}
