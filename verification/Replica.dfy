/** The normalised replica of the host's state (web/src/protocol.ts), against the
    host's own view: plain maps changed by a log of events. */
module Replica {
  import opened JsMap
  import opened OperationId
  import opened HostCommands
  import opened LiveOutput

  type Id = string

  /** A conversation, request, job or envelope: its id and the rest of it. */
  datatype Row = Row(id: Id, body: string)

  datatype Actor = Actor(identity: Identity, modelHeadRequest: Option<string>, body: string)

  datatype Kind = Conversations | Requests | Jobs | Envelopes

  datatype Change =
    | Upsert(kind: Kind, row: Row)
    | Remove(kind: Kind, id: Id)
    | UpsertActor(actor: Actor)
    | RemoveActor(key: Identity)
    | OutputStarted(scope: Scope)
    | OutputDelta(delta: Delta)
    | OutputCommitted(commit: Commit)
    | OutputStopped(scope: Scope)
    | OutputRemoved(output: OutputKey)
    | AccountUpsert(account: string)
    | HostRunUpsert(run: string)
    | ReceiptArrived(receipt: Receipt)
    | RevisionNoted

  /** A nullable optional wire field. */
  datatype Wire = Missing | Null | Run(run: string)

  datatype Snapshot = Snapshot(
    seqNo: nat, hostRun: Wire, account: Option<string>, actors: seq<Actor>, conversations: seq<Row>, requests: seq<Row>,
    jobs: seq<Row>, envelopes: seq<Row>, receipts: seq<Receipt>, liveOutput: seq<Item>, revisions: seq<Revision>)

  datatype Normalized = Normalized(
    seqNo: nat, hostRun: Option<string>, account: Option<string>, actors: Table<Identity, Actor>,
    conversations: Table<Id, Row>, requests: Table<Id, Row>, jobs: Table<Id, Row>, envelopes: Table<Id, Row>,
    receipts: Table<string, Receipt>, liveOutput: Table<OutputKey, Item>, revisions: Table<Scope, Revision>)

  const RECEIPT_LIMIT := 128

  // ---------------------------------------------------- normalizeSnapshot

  function ById(rows: seq<Row>): seq<Entry<Id, Row>> {
    seq(|rows|, i requires 0 <= i < |rows| => Entry(rows[i].id, rows[i]))
  }

  function ByIdentity(actors: seq<Actor>): seq<Entry<Identity, Actor>> {
    seq(|actors|, i requires 0 <= i < |actors| => Entry(actors[i].identity, actors[i]))
  }

  function ByScope(revisions: seq<Revision>): seq<Entry<Scope, Revision>> {
    seq(|revisions|, i requires 0 <= i < |revisions| => Entry(revisions[i].scope, revisions[i]))
  }

  function ReceiptKey(r: Receipt): string {
    if IsOperationId(r.commandId) then Canonical(r.commandId) else r.commandId
  }

  function ByOperation(receipts: seq<Receipt>): seq<Entry<string, Receipt>> {
    seq(|receipts|, i requires 0 <= i < |receipts| => Entry(ReceiptKey(receipts[i]), receipts[i]))
  }

  function Known(run: Wire): Option<string> { if run.Run? then Some(run.run) else None }

  function Normalize(s: Snapshot): Normalized {
    Normalized(s.seqNo, Known(s.hostRun), s.account, FromEntries(ByIdentity(s.actors)),
               FromEntries(ById(s.conversations)),
            FromEntries(ById(s.requests)), FromEntries(ById(s.jobs)), FromEntries(ById(s.envelopes)),
            TouchAll(ByOperation(s.receipts), RECEIPT_LIMIT), FromWire(s.liveOutput), FromEntries(ByScope(s.revisions)))
  }

  /** The body of `setCommandReceipt`. */
  method SetCommandReceipt(table: Table<string, Receipt>, receipt: Receipt) returns (next: Table<string, Receipt>)
    ensures next == Touch(table, ReceiptKey(receipt), receipt, RECEIPT_LIMIT)
  {
    hide Delete, Set;
    var key := ReceiptKey(receipt);
    next := Set(Delete(table, key), key, receipt);
    while |next| > RECEIPT_LIMIT
      invariant Latest(next, RECEIPT_LIMIT) == Touch(table, key, receipt, RECEIPT_LIMIT)
    {
      next := next[1..];
    }
  }

  // ------------------------------------------------------- applyStateEvent

  function WithRow(s: Normalized, kind: Kind, row: Row): Normalized {
    match kind
    case Conversations => s.(conversations := Set(s.conversations, row.id, row))
    case Requests => s.(requests := Set(s.requests, row.id, row))
    case Jobs => s.(jobs := Set(s.jobs, row.id, row))
    case Envelopes => s.(envelopes := Set(s.envelopes, row.id, row))
  }

  function WithoutRow(s: Normalized, kind: Kind, id: Id): Normalized {
    match kind
    case Conversations => s.(conversations := Delete(s.conversations, id))
    case Requests => s.(requests := Delete(s.requests, id))
    case Jobs => s.(jobs := Delete(s.jobs, id))
    case Envelopes => s.(envelopes := Delete(s.envelopes, id))
  }

  function Headed(actor: Actor, scope: Scope): Actor { actor.(modelHeadRequest := Some(scope.requestId)) }

  function Owner(origin: Origin): Option<Identity> {
    if origin.Embedded? then Some(Identity(origin.run, origin.actor, origin.incarnation)) else None
  }

  function WithHead(s: Normalized, scope: Scope): Normalized {
    var key := Owner(scope.origin);
    if key.None? then s
    else
      var actor := Get(s.actors, key.value);
      if actor.None? then s else s.(actors := Set(s.actors, key.value, Headed(actor.value, scope)))
  }

  function Changed(s: Normalized, change: Change): Normalized {
    match change
    case Upsert(kind, row) => WithRow(s, kind, row)
    case Remove(kind, id) => WithoutRow(s, kind, id)
    case UpsertActor(actor) => s.(actors := Set(s.actors, actor.identity, actor))
    case RemoveActor(key) => s.(actors := Delete(s.actors, key))
    case OutputStarted(scope) => WithHead(s, scope)
    case OutputDelta(delta) => s.(liveOutput := AppendTo(s.liveOutput, delta))
    case OutputCommitted(commit) =>
      s.(liveOutput := CommitTo(s.liveOutput, commit),
         revisions := Touch(s.revisions, commit.scope, Revision(commit.scope, commit.version), MAX_ITEMS))
    case OutputStopped(scope) => s.(liveOutput := StopIn(s.liveOutput, scope))
    case OutputRemoved(key) => s.(liveOutput := Delete(s.liveOutput, key))
    case AccountUpsert(account) => s.(account := Some(account))
    case HostRunUpsert(run) => s.(hostRun := Some(run), account := if s.hostRun == Some(run) then s.account else None)
    case ReceiptArrived(receipt) => s.(receipts := Touch(s.receipts, ReceiptKey(receipt), receipt, RECEIPT_LIMIT))
    case RevisionNoted => s
  }

  datatype Applied = Applied(state: Normalized) | Gap(expected: nat, received: nat)

  function ApplyStateEvent(s: Normalized, seqNo: nat, change: Change): (r: Applied)
    ensures r.Gap? <==> seqNo != s.seqNo + 1
    ensures r.Gap? ==> r.expected == s.seqNo + 1 && r.received == seqNo
  {
    if seqNo != s.seqNo + 1 then Gap(s.seqNo + 1, seqNo) else Applied(Changed(s.(seqNo := seqNo), change))
  }

  // -------------------------------------------------------- the host's view

  /** `receipts` is the log of all receipts issued so far. */
  datatype World = World(
    hostRun: Option<string>, account: Option<string>, actors: map<Identity, Actor>,
    conversations: map<Id, Row>, requests: map<Id, Row>, jobs: map<Id, Row>, envelopes: map<Id, Row>,
    receipts: seq<Receipt>)

  function PutRow(w: World, kind: Kind, row: Row): World {
    match kind
    case Conversations => w.(conversations := w.conversations[row.id := row])
    case Requests => w.(requests := w.requests[row.id := row])
    case Jobs => w.(jobs := w.jobs[row.id := row])
    case Envelopes => w.(envelopes := w.envelopes[row.id := row])
  }

  function DropRow(w: World, kind: Kind, id: Id): World {
    match kind
    case Conversations => w.(conversations := w.conversations - {id})
    case Requests => w.(requests := w.requests - {id})
    case Jobs => w.(jobs := w.jobs - {id})
    case Envelopes => w.(envelopes := w.envelopes - {id})
  }

  function Happened(w: World, change: Change): World {
    match change
    case Upsert(kind, row) => PutRow(w, kind, row)
    case Remove(kind, id) => DropRow(w, kind, id)
    case UpsertActor(actor) => w.(actors := w.actors[actor.identity := actor])
    case RemoveActor(key) => w.(actors := w.actors - {key})
    case OutputStarted(Scope(Embedded(run, actor, incarnation), request)) =>
      var key := Identity(run, actor, incarnation);
      if key !in w.actors then w
      else w.(actors := w.actors[key := w.actors[key].(modelHeadRequest := Some(request))])
    case AccountUpsert(account) => w.(account := Some(account))
    case HostRunUpsert(run) => w.(hostRun := Some(run), account := if w.hostRun == Some(run) then w.account else None)
    case ReceiptArrived(receipt) => w.(receipts := w.receipts + [receipt])
    case _ => w
  }

  /** The host after the first `n` events of its log. */
  function WorldAt(start: World, log: seq<Change>, n: nat): World
    requires n <= |log|
  {
    if n == 0 then start else Happened(WorldAt(start, log, n - 1), log[n - 1])
  }

  // --------------------------------------------------------- the refinement

  function Content<K(==), V>(t: Table<K, V>): map<K, V> {
    if t == [] then map[] else Content(t[..|t| - 1])[t[|t| - 1].key := t[|t| - 1].value]
  }

  lemma {:induction false} ContentExact<K, V>(t: Table<K, V>)
    requires DistinctKeys(t)
    ensures forall i :: 0 <= i < |t| ==> t[i].key in Content(t) && Content(t)[t[i].key] == t[i].value
    ensures forall k :: k in Content(t) ==> exists i :: 0 <= i < |t| && t[i].key == k
  {
    if t != [] {
      var init, last := t[..|t| - 1], |t| - 1;
      ContentExact(init);
      forall i | 0 <= i < |t| ensures t[i].key in Content(t) && Content(t)[t[i].key] == t[i].value {
        if i < last { assert init[i] == t[i]; }
      }
      forall k | k in Content(t) ensures exists i :: 0 <= i < |t| && t[i].key == k {
        if k in Content(init) {
          var i :| 0 <= i < |init| && init[i].key == k;
          assert t[i].key == k;
        } else {
          assert t[last].key == k;
        }
      }
    }
  }

  lemma ContentGet<K, V>(t: Table<K, V>, key: K)
    requires DistinctKeys(t)
    ensures Get(t, key) == if key in Content(t) then Some(Content(t)[key]) else None
  {
    ContentExact(t);
    FindLast(t, key);
  }

  lemma ContentSetAt<K, V>(t: Table<K, V>, key: K, value: V, k: K)
    requires DistinctKeys(t) && DistinctKeys(Set(t, key, value))
    ensures var c, d := Content(Set(t, key, value)), Content(t)[key := value];
      (k in c <==> k in d) && (k in c ==> c[k] == d[k])
  {
    ContentGet(Set(t, key, value), k);
    ContentGet(t, k);
    GetAfterSet(t, key, value, k);
  }

  lemma ContentSet<K, V>(t: Table<K, V>, key: K, value: V)
    requires DistinctKeys(t)
    ensures DistinctKeys(Set(t, key, value)) && Content(Set(t, key, value)) == Content(t)[key := value]
  {
    hide Content, Set;
    SetDistinct(t, key, value);
    var c, d := Content(Set(t, key, value)), Content(t)[key := value];
    forall k | k in c ensures k in d && c[k] == d[k] { ContentSetAt(t, key, value, k); }
    forall k | k in d ensures k in c { ContentSetAt(t, key, value, k); }
    assert c == d;
  }

  lemma ContentDeleteAt<K, V>(t: Table<K, V>, key: K, k: K)
    requires DistinctKeys(t) && DistinctKeys(Delete(t, key))
    ensures var c, d := Content(Delete(t, key)), Content(t) - {key};
      (k in c <==> k in d) && (k in c ==> c[k] == d[k])
  {
    ContentGet(Delete(t, key), k);
    ContentGet(t, k);
    GetAfterDelete(t, key, k);
  }

  lemma ContentDelete<K, V>(t: Table<K, V>, key: K)
    requires DistinctKeys(t)
    ensures DistinctKeys(Delete(t, key)) && Content(Delete(t, key)) == Content(t) - {key}
  {
    hide Content, Delete;
    DeleteDistinct(t, key);
    var c, d := Content(Delete(t, key)), Content(t) - {key};
    forall k | k in c ensures k in d && c[k] == d[k] { ContentDeleteAt(t, key, k); }
    forall k | k in d ensures k in c { ContentDeleteAt(t, key, k); }
    assert c == d;
  }

  ghost predicate Holds<K, V>(t: Table<K, V>, m: map<K, V>) { DistinctKeys(t) && Content(t) == m }

  /** The latest 128 operations with their last receipts, in order of issue. */
  ghost function LatestReceipts(log: seq<Receipt>): Table<string, Receipt> {
    Latest(LastOccurrences(ByOperation(log)), RECEIPT_LIMIT)
  }

  /** The replica's tables are the host's maps; its receipts the latest ones. */
  ghost predicate Shows(s: Normalized, w: World) {
    && s.hostRun == w.hostRun && s.account == w.account
    && Holds(s.actors, w.actors)
    && Holds(s.conversations, w.conversations) && Holds(s.requests, w.requests)
    && Holds(s.jobs, w.jobs) && Holds(s.envelopes, w.envelopes)
    && s.receipts == LatestReceipts(w.receipts)
  }

  /** Adding a receipt to the bounded table is adding it to the unbounded log. */
  lemma ShowsReceipt(log: seq<Receipt>, receipt: Receipt)
    ensures Touch(LatestReceipts(log), ReceiptKey(receipt), receipt, RECEIPT_LIMIT) == LatestReceipts(log + [receipt])
  {
    var entries, more := ByOperation(log), ByOperation(log + [receipt]);
    assert more[..|log|] == entries && more[|log|] == Entry(ReceiptKey(receipt), receipt);
    TouchKeepsLatest(entries, RECEIPT_LIMIT);
    TouchKeepsLatest(more, RECEIPT_LIMIT);
    hide LastOccurrences, Touch;
  }

  lemma ShowsHead(s: Normalized, w: World, scope: Scope)
    requires Shows(s, w)
    ensures Shows(WithHead(s, scope), Happened(w, OutputStarted(scope)))
  {
    var key := Owner(scope.origin);
    if key.Some? {
      ContentGet(s.actors, key.value);
      var actor := Get(s.actors, key.value);
      if actor.Some? { ContentSet(s.actors, key.value, Headed(actor.value, scope)); }
    }
  }

  lemma ShowsRow(s: Normalized, w: World, kind: Kind, row: Row)
    requires Shows(s, w)
    ensures Shows(WithRow(s, kind, row), PutRow(w, kind, row))
  {
    hide Set, Content;
    match kind
    case Conversations => ContentSet(s.conversations, row.id, row);
    case Requests => ContentSet(s.requests, row.id, row);
    case Jobs => ContentSet(s.jobs, row.id, row);
    case Envelopes => ContentSet(s.envelopes, row.id, row);
  }

  lemma ShowsWithout(s: Normalized, w: World, kind: Kind, id: Id)
    requires Shows(s, w)
    ensures Shows(WithoutRow(s, kind, id), DropRow(w, kind, id))
  {
    hide Delete, Content;
    match kind
    case Conversations => ContentDelete(s.conversations, id);
    case Requests => ContentDelete(s.requests, id);
    case Jobs => ContentDelete(s.jobs, id);
    case Envelopes => ContentDelete(s.envelopes, id);
  }

  /** Every event changes the replica as it changed the host. */
  lemma ChangedShows(s: Normalized, w: World, change: Change)
    requires Shows(s, w)
    ensures Shows(Changed(s, change), Happened(w, change))
    ensures Changed(s, change).seqNo == s.seqNo
  {
    hide Holds, Set, Delete, LatestReceipts, Touch;
    match change
    case Upsert(kind, row) => ShowsRow(s, w, kind, row);
    case Remove(kind, id) => ShowsWithout(s, w, kind, id);
    case UpsertActor(actor) => ActorSet(s.actors, w.actors, actor);
    case RemoveActor(key) => ActorDelete(s.actors, w.actors, key);
    case OutputStarted(scope) => ShowsHead(s, w, scope);
    case ReceiptArrived(receipt) => ShowsReceipt(w.receipts, receipt);
    case _ =>
  }

  lemma ActorSet(t: Table<Identity, Actor>, m: map<Identity, Actor>, actor: Actor)
    requires Holds(t, m)
    ensures Holds(Set(t, actor.identity, actor), m[actor.identity := actor])
  {
    ContentSet(t, actor.identity, actor);
  }

  lemma ActorDelete(t: Table<Identity, Actor>, m: map<Identity, Actor>, key: Identity)
    requires Holds(t, m)
    ensures Holds(Delete(t, key), m - {key})
  {
    ContentDelete(t, key);
  }

  // -------------------------------------------------------------- snapshots

  /** A list of a map's values, in any order, each at least once. */
  ghost predicate Lists<K, V>(entries: seq<Entry<K, V>>, m: map<K, V>) {
    && (forall i :: 0 <= i < |entries| ==> entries[i].key in m && m[entries[i].key] == entries[i].value)
    && (forall k :: k in m ==> Entry(k, m[k]) in entries)
  }

  ghost predicate Describes(s: Snapshot, w: World) {
    && (if s.hostRun.Run? then w.hostRun == Some(s.hostRun.run) else w.hostRun.None?) && s.account == w.account
    && Lists(ByIdentity(s.actors), w.actors)
    && Lists(ById(s.conversations), w.conversations) && Lists(ById(s.requests), w.requests)
    && Lists(ById(s.jobs), w.jobs) && Lists(ById(s.envelopes), w.envelopes)
    && LatestReceipts(s.receipts) == LatestReceipts(w.receipts)
  }

  lemma {:induction false} FromEntriesWithin<K, V>(entries: seq<Entry<K, V>>, m: map<K, V>)
    requires forall i :: 0 <= i < |entries| ==> entries[i].key in m && m[entries[i].key] == entries[i].value
    ensures var t := FromEntries(entries);
      && DistinctKeys(t)
      && (forall k :: k in Content(t) ==> k in m && Content(t)[k] == m[k])
      && (forall i :: 0 <= i < |entries| ==> entries[i].key in Content(t))
  {
    if entries != [] {
      var init, last := entries[..|entries| - 1], entries[|entries| - 1];
      FromEntriesWithin(init, m);
      ContentSet(FromEntries(init), last.key, last.value);
      forall i | 0 <= i < |entries| ensures entries[i].key in Content(FromEntries(entries)) {
        assert i < |init| ==> entries[i] == init[i];
      }
    }
  }

  lemma FromEntriesHolds<K, V>(entries: seq<Entry<K, V>>, m: map<K, V>)
    requires Lists(entries, m)
    ensures Holds(FromEntries(entries), m)
  {
    FromEntriesWithin(entries, m);
    var c := Content(FromEntries(entries));
    forall k | k in m ensures k in c {
      var i :| 0 <= i < |entries| && entries[i] == Entry(k, m[k]);
      assert entries[i].key == k;
    }
    assert c == m;
  }

  /** Normalising a snapshot of the host gives the host's maps back, and the
      latest receipts if the snapshot lists at least those. */
  lemma NormalizeShows(s: Snapshot, w: World)
    requires Describes(s, w)
    ensures Shows(Normalize(s), w)
  {
    TouchKeepsLatest(ByOperation(s.receipts), RECEIPT_LIMIT);
    hide Lists, Holds, FromEntries, TouchAll, Latest, LastOccurrences;
    FromEntriesHolds(ByIdentity(s.actors), w.actors);
    FromEntriesHolds(ById(s.conversations), w.conversations);
    FromEntriesHolds(ById(s.requests), w.requests);
    FromEntriesHolds(ById(s.jobs), w.jobs);
    FromEntriesHolds(ById(s.envelopes), w.envelopes);
  }
}
