/** The closure state of `createViewProjector` (web/src/integration.ts). */
module ViewProjector {
  import opened JsMap
  import opened Projector

  /** The view a projector shows for `s`: a fresh one, except that output lists it
      has ever shown become empty instead of absent. */
  ghost function Shown(s: State, ever: bool, activity: Sort<ActivityRow>, inbox: Sort<PlainRow>): View {
    Fresh(s, activity, inbox).(outputs := if ever || AnyOutput(s) then OutputsOf(s) else NoOutputs)
  }

  lemma ShownExact(s: State, ever: bool, activity: Sort<ActivityRow>, inbox: Sort<PlainRow>)
    ensures Shown(s, ever, activity, inbox) == Fresh(s, activity, inbox) <==> AnyOutput(s) || !ever
  {
  }

  function PlainCreate(p: Plain, key: ()): PlainRow { PlainRow(p) }

  function RequestCreate(r: RequestRecord, key: RefreshKey): ActivityRow { RequestRow(r, key) }

  function JobCreate(j: Job, key: ()): ActivityRow { JobRow(j) }

  /** A table left alone keeps its cache; a table gone through keeps each row whose
      source and dependency are those of before, as the object it was. */
  ghost predicate Kept<S, D, R>(before: RowCache<S, D, R>, after: RowCache<S, D, R>) {
    before == after || Reused(before, after)
  }

  class Projection {
    const activity: Sort<ActivityRow>
    const sortInbox: Sort<PlainRow>
    ghost const heaps: Heaps

    var previous: Option<State>
    var result: Option<View>
    var actorsCache: RowCache<Plain, (), PlainRow>
    var nodesCache: RowCache<Conversation, NodeKey, NodeRow>
    var requestsCache: RowCache<RequestRecord, RefreshKey, ActivityRow>
    var jobsCache: RowCache<Job, (), ActivityRow>
    var inboxCache: RowCache<Plain, (), PlainRow>
    var requestDetails: map<Id, string>
    var jobEvidence: map<Id, seq<Evidence>>
    var parents: map<Id, Parent>
    ghost var ever: bool

    ghost predicate CachesSound()
      reads `actorsCache, `nodesCache, `requestsCache, `jobsCache, `inboxCache
    {
      && CacheSound(heaps.plains, actorsCache, PlainCreate)
      && CacheSound(heaps.conversations, nodesCache, NodeFromKey)
      && CacheSound(heaps.requests, requestsCache, RequestCreate)
      && CacheSound(heaps.jobs, jobsCache, JobCreate)
      && CacheSound(heaps.plains, inboxCache, PlainCreate)
    }

    ghost predicate Derived(s: State)
      reads `requestDetails, `jobEvidence, `parents
    {
      && (forall id ::
          (if id in requestDetails then requestDetails[id] else "") == Joined(Details(Values(s.requests), id)))
      && EvidenceGroups(jobEvidence, Values(s.jobs))
      && ParentsOf(parents, Values(s.conversations))
    }

    /** The last view was right for the last state. */
    ghost predicate Remembers()
      reads `previous, `result, `ever
    {
      && (result.Some? <==> previous.Some?)
      && (previous.None? ==> !ever)
      && (previous.Some? ==>
           && Coherent(heaps, previous.value)
           && (AnyOutput(previous.value) ==> ever)
           && result == Some(Shown(previous.value, ever, activity, sortInbox)))
    }

    ghost predicate Valid()
      reads this
    {
      CachesSound() && Remembers() && (previous.Some? ==> Derived(previous.value))
    }

    constructor (activity: Sort<ActivityRow>, sortInbox: Sort<PlainRow>, ghost heaps: Heaps)
      ensures Valid() && previous.None? && this.activity == activity && this.sortInbox == sortInbox
        && this.heaps == heaps
    {
      this.activity, this.sortInbox, this.heaps := activity, sortInbox, heaps;
      previous, result, ever := None, None, false;
      actorsCache, nodesCache, requestsCache := RowCache(map[], 0), RowCache(map[], 0), RowCache(map[], 0);
      jobsCache, inboxCache := RowCache(map[], 0), RowCache(map[], 0);
      requestDetails, jobEvidence, parents := map[], map[], map[];
    }

    /** Whether each table differs in identity from the one seen last. */
    predicate ActorsChanged(s: State)
      reads this
    {
      previous.None? || previous.value.actors.ref != s.actors.ref
    }

    predicate ConversationsChanged(s: State)
      reads this
    {
      previous.None? || previous.value.conversations.ref != s.conversations.ref
    }

    predicate RequestsChanged(s: State)
      reads this
    {
      previous.None? || previous.value.requests.ref != s.requests.ref
    }

    predicate JobsChanged(s: State)
      reads this
    {
      previous.None? || previous.value.jobs.ref != s.jobs.ref
    }

    predicate InboxChanged(s: State)
      reads this
    {
      previous.None? || previous.value.envelopes.ref != s.envelopes.ref
    }

    predicate ReceiptsChanged(s: State)
      reads this
    {
      previous.None? || previous.value.receipts.ref != s.receipts.ref
    }

    predicate Differs(a: Option<Obj<seq<string>>>, b: Option<Obj<seq<string>>>)
    {
      a.Some? != b.Some? || (a.Some? && a.value.ref != b.value.ref)
    }

    /** At first nothing has been seen: an absent map then counts as unchanged. */
    predicate OutputChanged(s: State)
      reads this
    {
      if previous.None? then AnyOutput(s)
      else
        || Differs(previous.value.liveOutput, s.liveOutput) || Differs(previous.value.revisions, s.revisions)
        || Differs(previous.value.actorRevisions, s.actorRevisions)
    }

    method Regroup(s: State)
      requires Valid() && Coherent(heaps, s)
      modifies `requestDetails, `jobEvidence, `parents
      ensures Derived(s)
    {
      if RequestsChanged(s) { requestDetails := GroupDetails(Values(s.requests)); }
      if JobsChanged(s) { jobEvidence := GroupEvidence(Values(s.jobs)); }
      if ConversationsChanged(s) {
        KeyedDistinct(s);
        parents := ResolveParents(Values(s.conversations));
      }
    }

    lemma KeyedDistinct(s: State)
      requires Coherent(heaps, s)
      ensures DistinctConversations(Values(s.conversations))
    {
    }

    method Actors(s: State) returns (rows: seq<PlainRow>)
      requires CachesSound() && Remembers() && Coherent(heaps, s)
      modifies `actorsCache
      ensures CachesSound() && rows == PlainRows(Values(s.actors))
      ensures Kept(old(actorsCache), actorsCache)
    {
      hide CacheSound, Reused, RowFrom;
      if !ActorsChanged(s) { return result.value.actors; }
      var made;
      made, actorsCache := ReuseAll(heaps.plains, actorsCache, s.actors, (p: Plain) => (), PlainCreate);
      rows := Contents(made);
      assert rows == PlainRows(Values(s.actors));
    }

    method Inbox(s: State) returns (rows: seq<PlainRow>)
      requires CachesSound() && Remembers() && Coherent(heaps, s)
      modifies `inboxCache
      ensures CachesSound() && rows == sortInbox(PlainRows(Values(s.envelopes)))
      ensures Kept(old(inboxCache), inboxCache)
    {
      hide CacheSound, Reused, RowFrom;
      if !InboxChanged(s) { return result.value.inbox; }
      var made;
      made, inboxCache := ReuseAll(heaps.plains, inboxCache, s.envelopes, (p: Plain) => (), PlainCreate);
      rows := Contents(made);
      assert rows == PlainRows(Values(s.envelopes));
      rows := sortInbox(rows);
    }

    /** Rows kept because neither table changed. */
    lemma NodesKept(s: State)
      requires Remembers() && Coherent(heaps, s) && !ConversationsChanged(s) && !RequestsChanged(s)
      ensures result.value.nodes == NodeRows(Values(s.conversations), Values(s.requests))
    {
    }

    lemma TimelineKept(s: State)
      requires Remembers() && Coherent(heaps, s) && !RequestsChanged(s) && !JobsChanged(s)
      ensures result.value.timeline ==
        activity(RequestRows(Values(s.requests), Values(s.jobs)) + JobRows(Values(s.jobs)))
    {
    }

    method Receipts(s: State) returns (rows: seq<string>)
      requires Remembers() && Coherent(heaps, s)
      ensures rows == s.receipts.value
    {
      rows := if ReceiptsChanged(s) then s.receipts.value else result.value.receipts;
    }

    method OutputLists(s: State) returns (lists: Outputs)
      requires Remembers() && Coherent(heaps, s)
      ensures lists == if ever || AnyOutput(s) then OutputsOf(s) else NoOutputs
    {
      lists := if OutputChanged(s) then OutputsOf(s) else if result.Some? then result.value.outputs else NoOutputs;
    }

    method Nodes(s: State) returns (rows: seq<NodeRow>)
      requires CachesSound() && Remembers() && Coherent(heaps, s) && Derived(s)
      modifies `nodesCache
      ensures CachesSound() && rows == NodeRows(Values(s.conversations), Values(s.requests))
      ensures Kept(old(nodesCache), nodesCache)
    {
      hide Coherent, Details, AsPathNodes, CacheSound, Shown, Reused, RowFrom;
      if !ConversationsChanged(s) && !RequestsChanged(s) {
        NodesKept(s);
        return result.value.nodes;
      }
      var known, details := parents, requestDetails;
      var key := (c: Conversation) =>
        KeyOf(if c.id in known then known[c.id] else Undefined, if c.id in details then details[c.id] else "");
      assert RowsHeld(heaps.conversations, s.conversations) by { ConversationsHeld(s); }
      var made;
      made, nodesCache := ReuseAll(heaps.conversations, nodesCache, s.conversations, key, NodeFromKey);
      rows := Contents(made);
      var cs, requests := Values(s.conversations), Values(s.requests);
      forall i | 0 <= i < |rows| ensures rows[i] == NodeRows(cs, requests)[i] {
        KeyEnough(AsPathNodes(cs), cs[i], Joined(Details(requests, cs[i].id)));
      }
    }

    lemma ConversationsHeld(s: State)
      requires Coherent(heaps, s)
      ensures RowsHeld(heaps.conversations, s.conversations)
    {
    }

    method Timeline(s: State) returns (rows: seq<ActivityRow>)
      requires CachesSound() && Remembers() && Coherent(heaps, s) && Derived(s)
      modifies `requestsCache, `jobsCache
      ensures CachesSound()
        && rows == activity(RequestRows(Values(s.requests), Values(s.jobs)) + JobRows(Values(s.jobs)))
      ensures Kept(old(requestsCache), requestsCache) && Kept(old(jobsCache), jobsCache)
    {
      hide CacheSound, Shown, Reused, RowFrom;
      if !RequestsChanged(s) && !JobsChanged(s) {
        TimelineKept(s);
        return result.value.timeline;
      }
      var evidence := jobEvidence;
      var key := (r: RequestRecord) =>
        RefreshKey(r.id, r.version, r.state, if r.id in evidence then evidence[r.id] else []);
      var asked, ran;
      asked, requestsCache := ReuseAll(heaps.requests, requestsCache, s.requests, key, RequestCreate);
      ran, jobsCache := ReuseAll(heaps.jobs, jobsCache, s.jobs, (j: Job) => (), JobCreate);
      assert Contents(asked) == RequestRows(Values(s.requests), Values(s.jobs));
      assert Contents(ran) == JobRows(Values(s.jobs));
      rows := activity(Contents(asked) + Contents(ran));
    }

    predicate Unchanged(s: State)
      reads this
    {
      && result.Some? && previous.Some?
      && !OutputChanged(s) && !ActorsChanged(s) && !ConversationsChanged(s) && !RequestsChanged(s)
      && !JobsChanged(s) && !InboxChanged(s) && !ReceiptsChanged(s) && previous.value.hostRun == s.hostRun
    }

    lemma NothingChanged(s: State)
      requires Valid() && Coherent(heaps, s) && Unchanged(s)
      ensures result == Some(Shown(s, ever, activity, sortInbox)) && Derived(s)
      ensures AnyOutput(s) <==> AnyOutput(previous.value)
    {
      assert s == previous.value;
    }

    /** The rows of the tables that changed, and the others from the last view. */
    method Rows(s: State)
      returns (actors: seq<PlainRow>, nodes: seq<NodeRow>, timeline: seq<ActivityRow>, inbox: seq<PlainRow>)
      requires CachesSound() && Remembers() && Coherent(heaps, s) && Derived(s)
      modifies `actorsCache, `nodesCache, `requestsCache, `jobsCache, `inboxCache
      ensures CachesSound()
      ensures actors == PlainRows(Values(s.actors)) && nodes == NodeRows(Values(s.conversations), Values(s.requests))
      ensures timeline == activity(RequestRows(Values(s.requests), Values(s.jobs)) + JobRows(Values(s.jobs)))
      ensures inbox == sortInbox(PlainRows(Values(s.envelopes)))
      ensures Kept(old(actorsCache), actorsCache) && Kept(old(nodesCache), nodesCache)
        && Kept(old(inboxCache), inboxCache)
      ensures Kept(old(requestsCache), requestsCache) && Kept(old(jobsCache), jobsCache)
    {
      hide *;
      actors := Actors(s);
      nodes := Nodes(s);
      timeline := Timeline(s);
      inbox := Inbox(s);
    }

    method Recompute(s: State) returns (view: View)
      requires Valid() && Coherent(heaps, s)
      modifies `actorsCache, `nodesCache, `requestsCache, `jobsCache, `inboxCache, `requestDetails, `jobEvidence,
        `parents
      ensures CachesSound() && Derived(s) && view == Shown(s, ever, activity, sortInbox)
      ensures Kept(old(actorsCache), actorsCache) && Kept(old(nodesCache), nodesCache)
        && Kept(old(inboxCache), inboxCache)
      ensures Kept(old(requestsCache), requestsCache) && Kept(old(jobsCache), jobsCache)
    {
      hide Kept, CachesSound, Remembers, Derived, Coherent, NodeRows, RequestRows, JobRows, PlainRows, Values,
        OutputsOf, AnyOutput;
      Regroup(s);
      var actors, nodes, timeline, inbox := Rows(s);
      var receipts := Receipts(s);
      var outputs := OutputLists(s);
      view := View(s.hostRun, actors, nodes, timeline, inbox, receipts, outputs);
    }

    /** One call of the projector. */
    method Project(s: State) returns (view: View)
      requires Valid() && Coherent(heaps, s)
      modifies this
      ensures Valid() && previous == Some(s) && ever == (old(ever) || AnyOutput(s))
      ensures view == Shown(s, ever, activity, sortInbox) && result == Some(view)
      ensures view == Fresh(s, activity, sortInbox) <==> AnyOutput(s) || !old(ever)
      ensures Kept(old(actorsCache), actorsCache) && Kept(old(nodesCache), nodesCache)
        && Kept(old(inboxCache), inboxCache)
      ensures Kept(old(requestsCache), requestsCache) && Kept(old(jobsCache), jobsCache)
    {
      hide Reused, CachesSound, Derived, Coherent, Fresh, OutputsOf;
      if Unchanged(s) {
        NothingChanged(s);
        view := result.value;
      } else {
        view := Recompute(s);
        result := Some(view);
      }
      ShownExact(s, ever, activity, sortInbox);
      ever := ever || AnyOutput(s);
      previous := Some(s);
    }
  }

  predicate AnyOutputIn(states: seq<State>) { exists i :: 0 <= i < |states| && AnyOutput(states[i]) }

  /** One projector over a run of states. A view is the fresh one exactly when some
      output map is present or none was in any state before. */
  method ProjectRun(activity: Sort<ActivityRow>, sortInbox: Sort<PlainRow>, ghost heaps: Heaps, states: seq<State>)
    returns (views: seq<View>)
    requires forall i :: 0 <= i < |states| ==> Coherent(heaps, states[i])
    ensures |views| == |states|
    ensures forall i :: 0 <= i < |views| ==> views[i] == Shown(states[i], AnyOutputIn(states[..i]), activity, sortInbox)
    ensures forall i :: 0 <= i < |views| ==>
      (views[i] == Fresh(states[i], activity, sortInbox) <==> AnyOutput(states[i]) || !AnyOutputIn(states[..i]))
  {
    hide Coherent, Fresh, OutputsOf, AnyOutput;
    var project := new Projection(activity, sortInbox, heaps);
    views := [];
    for i := 0 to |states|
      invariant |views| == i && project.Valid() && fresh(project)
      invariant project.activity == activity && project.sortInbox == sortInbox && project.heaps == heaps
      invariant project.ever <==> AnyOutputIn(states[..i])
      invariant forall k :: 0 <= k < i ==>
        && views[k] == Shown(states[k], AnyOutputIn(states[..k]), activity, sortInbox)
        && (views[k] == Fresh(states[k], activity, sortInbox) <==> AnyOutput(states[k]) || !AnyOutputIn(states[..k]))
    {
      var view := project.Project(states[i]);
      EverNext(states, i);
      ShownEver(states[i], AnyOutputIn(states[..i]), activity, sortInbox);
      views := views + [view];
    }
  }

  lemma EverNext(states: seq<State>, i: nat)
    requires i < |states|
    ensures AnyOutputIn(states[..i + 1]) <==> AnyOutputIn(states[..i]) || AnyOutput(states[i])
  {
    assert forall k :: 0 <= k < i ==> states[..i + 1][k] == states[..i][k];
    assert states[..i + 1][i] == states[i];
  }

  lemma ShownEver(s: State, ever: bool, activity: Sort<ActivityRow>, inbox: Sort<PlainRow>)
    ensures Shown(s, ever || AnyOutput(s), activity, inbox) == Shown(s, ever, activity, inbox)
  {
  }

  /** Two calls after which it is not: some output, then none. */
  method OutputThenNone(activity: Sort<ActivityRow>, sortInbox: Sort<PlainRow>, ghost heaps: Heaps, some: State,
                        none: State)
    returns (view: View)
    requires Coherent(heaps, some) && Coherent(heaps, none) && AnyOutput(some) && !AnyOutput(none)
    ensures view != Fresh(none, activity, sortInbox)
  {
    var states := [some, none];
    assert AnyOutputIn(states[..1]) by { assert states[..1][0] == some; }
    var views := ProjectRun(activity, sortInbox, heaps, states);
    view := views[1];
  }
}
