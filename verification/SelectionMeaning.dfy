/** Which rows a selection shows, said of the view model itself
    (web/src/selectors.ts). */
module SelectionMeaning {
  import opened JsMap
  import opened Sequences
  import opened HostCommands
  import opened Projector
  import opened Selector

  predicate FirstActor(data: Data, identity: Identity, i: nat) {
    && i < |data.actors| && data.actors[i].identity == identity
    && forall j :: 0 <= j < i ==> data.actors[j].identity != identity
  }

  predicate FirstNode(data: Data, id: Id, i: nat) {
    && i < |data.nodes.value| && data.nodes.value[i].value.id == id
    && forall j :: 0 <= j < i ==> data.nodes.value[j].value.id != id
  }

  /** The conversation the selection is about. */
  ghost predicate About(data: Data, selection: Selection, id: Id) {
    match selection
    case Nothing => false
    case ByActor(identity) =>
      exists i: nat :: FirstActor(data, identity, i) && data.actors[i].modelConversation == Some(id)
    case ByConversation(conversation) =>
      id == conversation && exists i: nat :: FirstNode(data, conversation, i)
  }

  /** A name under which the selection sends and receives: the actor's own and that
      of the conversation it is about. An actor's empty conversation id is none. */
  ghost predicate NamedBy(data: Data, selection: Selection, name: string) {
    || (selection.ByActor? && name == selection.identity.actor && exists i: nat ::
        FirstActor(data, selection.identity, i))
    || exists id: Id, j: nat ::
      About(data, selection, id) && (selection.ByActor? ==> id != "") && FirstNode(data, id, j)
         && data.nodes.value[j].value.name == name
  }

  ghost predicate Absent(data: Data, selection: Selection) {
    match selection
    case Nothing => false
    case ByActor(identity) => forall i :: 0 <= i < |data.actors| ==> data.actors[i].identity != identity
    case ByConversation(id) => forall i :: 0 <= i < |data.nodes.value| ==> data.nodes.value[i].value.id != id
  }

  lemma {:induction false} FoundActor(actors: seq<Actor>, identity: Identity) returns (i: nat)
    ensures FindActor(actors, identity).None? ==> forall j :: 0 <= j < |actors| ==> actors[j].identity != identity
    ensures FindActor(actors, identity).Some? ==>
      i < |actors| && actors[i] == FindActor(actors, identity).value && actors[i].identity == identity
      && forall j :: 0 <= j < i ==> actors[j].identity != identity
  {
    i := 0;
    if actors != [] && actors[0].identity != identity {
      var k := FoundActor(actors[1..], identity);
      i := k + 1;
      assert forall j :: 0 < j < |actors| ==> actors[j] == actors[1..][j - 1];
    }
  }

  lemma {:induction false} FoundNode(rows: seq<Obj<Node>>, id: Id) returns (i: nat)
    ensures FindNode(rows, id).None? ==> forall j :: 0 <= j < |rows| ==> rows[j].value.id != id
    ensures FindNode(rows, id).Some? ==>
      i < |rows| && rows[i].value == FindNode(rows, id).value && rows[i].value.id == id
      && forall j :: 0 <= j < i ==> rows[j].value.id != id
  {
    i := 0;
    if rows != [] && rows[0].value.id != id {
      var k := FoundNode(rows[1..], id);
      i := k + 1;
      assert forall j :: 0 < j < |rows| ==> rows[j] == rows[1..][j - 1];
    }
  }

  lemma OneActor(data: Data, identity: Identity, i: nat, k: nat)
    requires FirstActor(data, identity, i) && FirstActor(data, identity, k)
    ensures i == k
  {
  }

  lemma OneNode(data: Data, id: Id, i: nat, k: nat)
    requires FirstNode(data, id, i) && FirstNode(data, id, k)
    ensures i == k
  {
  }

  /** The conversation of the first actor with the identity, if there is one. */
  lemma AboutActor(data: Data, identity: Identity, id: Id)
    ensures var actor := FindActor(data.actors, identity);
      && (About(data, ByActor(identity), id) <==> actor.Some? && actor.value.modelConversation == Some(id))
      && ((exists i: nat :: FirstActor(data, identity, i)) <==> actor.Some?)
  {
    var k := FoundActor(data.actors, identity);
    if FindActor(data.actors, identity).Some? { assert FirstActor(data, identity, k); }
    forall i: nat | FirstActor(data, identity, i) ensures FindActor(data.actors, identity).Some? && i == k {
      OneActor(data, identity, i, k);
    }
    hide FindActor;
  }

  lemma NodeNamed(data: Data, id: Id, name: string)
    ensures var node := FindNode(data.nodes.value, id);
      && ((exists j: nat :: FirstNode(data, id, j) && data.nodes.value[j].value.name == name) <==>
           node.Some? && node.value.name == name)
      && ((exists j: nat :: FirstNode(data, id, j)) <==> node.Some?)
  {
    var k := FoundNode(data.nodes.value, id);
    if FindNode(data.nodes.value, id).Some? { assert FirstNode(data, id, k); }
    forall j: nat | FirstNode(data, id, j) ensures FindNode(data.nodes.value, id).Some? && j == k {
      OneNode(data, id, j, k);
    }
    hide FindNode;
  }

  lemma NamedActor(data: Data, identity: Identity, name: string)
    ensures name in Resolve(data, ByActor(identity)).endpoints <==> NamedBy(data, ByActor(identity), name)
  {
    var actor := FindActor(data.actors, identity);
    AboutActor(data, identity, "");
    var c := if actor.Some? then actor.value.modelConversation else None;
    forall id: Id ensures About(data, ByActor(identity), id) <==> c == Some(id) { AboutActor(data, identity, id); }
    if c.Some? { NodeNamed(data, c.value, name); }
    hide FindActor, FindNode, FirstNode, About, FirstActor;
  }

  lemma ResolvedActor(data: Data, identity: Identity)
    ensures var r, selection := Resolve(data, ByActor(identity)), ByActor(identity);
      && (r.missing <==> Absent(data, selection)) && Distinct(r.endpoints)
      && (forall id :: r.conversationId == Some(id) <==> About(data, selection, id))
      && (forall name :: name in r.endpoints <==> NamedBy(data, selection, name))
  {
    var selection := ByActor(identity);
    var r := Resolve(data, selection);
    var k := FoundActor(data.actors, identity);
    forall id: Id ensures r.conversationId == Some(id) <==> About(data, selection, id) {
      AboutActor(data, identity, id);
    }
    hide FindActor, FindNode, About, NamedBy;
    forall name: string ensures name in r.endpoints <==> NamedBy(data, selection, name) {
      NamedActor(data, identity, name);
    }
  }

  lemma NamedConversation(data: Data, id: Id, name: string)
    ensures name in Resolve(data, ByConversation(id)).endpoints <==> NamedBy(data, ByConversation(id), name)
  {
    NodeNamed(data, id, name);
    hide FindNode, FirstNode;
  }

  lemma ResolvedConversation(data: Data, id: Id)
    ensures var r, selection := Resolve(data, ByConversation(id)), ByConversation(id);
      && (r.missing <==> Absent(data, selection)) && Distinct(r.endpoints)
      && (forall c :: r.conversationId == Some(c) <==> About(data, selection, c))
      && (forall name :: name in r.endpoints <==> NamedBy(data, selection, name))
  {
    var selection := ByConversation(id);
    var r := Resolve(data, selection);
    var k := FoundNode(data.nodes.value, id);
    NodeNamed(data, id, "");
    hide FindNode, NamedBy, FirstNode;
    forall name: string ensures name in r.endpoints <==> NamedBy(data, selection, name) {
      NamedConversation(data, id, name);
    }
  }

  /** What a selection stands for: it is missing exactly when nothing in the view
      model has its identity, and its conversation and its names are those of the
      first actor or conversation that has it. */
  lemma ResolveExact(data: Data, selection: Selection)
    ensures var r := Resolve(data, selection);
      && (r.missing <==> Absent(data, selection)) && Distinct(r.endpoints)
      && (forall id :: r.conversationId == Some(id) <==> About(data, selection, id))
      && (forall name :: name in r.endpoints <==> NamedBy(data, selection, name))
  {
    match selection
    case Nothing =>
    case ByActor(identity) => ResolvedActor(data, identity);
    case ByConversation(id) => ResolvedConversation(data, id);
  }

  // ----------------------------------------------------------------- the rows

  /** All rows are shown, whatever is selected. */
  predicate Everything(selection: Selection, global: bool) { global || selection.Nothing? }

  ghost predicate MessageWanted(data: Data, selection: Selection, global: bool, filters: Filters, m: Message) {
    && (|| Everything(selection, global) || NamedBy(data, selection, m.sender)
        || (m.recipient.Some? && NamedBy(data, selection, m.recipient.value)))
    && (filters.sender.None? || filters.sender == Some(m.sender))
    && (filters.recipient.None? || filters.recipient == m.recipient)
    && (filters.kind.None? || filters.kind == m.kind)
  }

  lemma ShownExact(data: Data, selection: Selection, global: bool, filters: Filters)
    ensures var c := ContextOf(data, selection, global, filters);
      && (forall n :: NodeShown(c, n) <==> Everything(selection, global) || About(data, selection, n.id))
      && (forall a :: ActivityShown(c, a) <==> Everything(selection, global) || About(data, selection, a.nodeId))
      && (forall m :: MessageShown(c, m) <==> MessageWanted(data, selection, global, filters, m))
  {
    ResolveExact(data, selection);
    var c := ContextOf(data, selection, global, filters);
    hide Resolve, About, NamedBy, Absent;
    forall m: Message ensures MessageShown(c, m) <==> MessageWanted(data, selection, global, filters, m) {
      ConcernsExact(m, c.resolved.endpoints);
    }
  }

  lemma ConcernsExact(m: Message, endpoints: seq<string>)
    ensures Concerns(m, endpoints) <==> m.sender in endpoints || (m.recipient.Some? && m.recipient.value in endpoints)
  {
  }

  lemma {:induction false} WherePicks<T(!new)>(rows: seq<Obj<T>>, keep: T -> bool, wanted: Obj<T> -> bool)
    requires forall row: Obj<T> :: keep(row.value) <==> wanted(row)
    ensures Picks(rows, Where(rows, keep), wanted)
  {
    if rows == [] {
      PicksNone(wanted);
    } else {
      var init := rows[..|rows| - 1];
      WherePicks(init, keep, wanted);
      PicksNext(rows, Where(init, keep), Where(rows, keep), wanted);
    }
  }

  /** A selection shows, in their order, exactly the conversation it is about, that
      conversation's activity, and the messages from or to one of its names that
      pass every filter given; everything passes if nothing is selected, or globally. */
  ghost predicate ShowsSelection(view: Data, data: Data, selection: Selection, global: bool, filters: Filters) {
    && Picks(data.nodes.value, view.nodes.value,
             (n: Obj<Node>) => Everything(selection, global) || About(data, selection, n.value.id))
    && Picks(data.timeline.value, view.timeline.value,
             (a: Obj<Activity>) => Everything(selection, global) || About(data, selection, a.value.nodeId))
    && Picks(data.inbox.value, view.inbox.value,
             (m: Obj<Message>) => MessageWanted(data, selection, global, filters, m.value))
  }

  lemma SelectionShown(view: Data, data: Data, selection: Selection, global: bool, filters: Filters)
    requires Selects(view, data, ContextOf(data, selection, global, filters))
    ensures ShowsSelection(view, data, selection, global, filters)
  {
    var c := ContextOf(data, selection, global, filters);
    ShownExact(data, selection, global, filters);
    hide ContextOf, Resolve, About, NamedBy, MessageWanted, Where, Picks, NodeShown, ActivityShown, MessageShown;
    WherePicks(data.nodes.value, n => NodeShown(c, n),
               (n: Obj<Node>) => Everything(selection, global) || About(data, selection, n.value.id));
    WherePicks(data.timeline.value, a => ActivityShown(c, a),
               (a: Obj<Activity>) => Everything(selection, global) || About(data, selection, a.value.nodeId));
    WherePicks(data.inbox.value, m => MessageShown(c, m),
               (m: Obj<Message>) => MessageWanted(data, selection, global, filters, m.value));
  }
}
