/** What the rows of a fresh view say, in terms of the state itself
    (web/src/integration.ts). */
module ViewMeaning {
  import opened JsMap
  import opened Sequences
  import opened Projector
  import Paths = PathIndex

  // ------------------------------------------------------------------ details

  /** The details of a conversation's requests, in order, and how they are joined. */
  lemma {:induction false} DetailsPicked(requests: seq<RequestRecord>, id: Id) returns (mine: seq<RequestRecord>)
    ensures Picks(requests, mine, (r: RequestRecord) => r.conversationId == id)
    ensures |Details(requests, id)| == |mine| && forall i :: 0 <= i < |mine| ==>
      Details(requests, id)[i] == mine[i].detail
  {
    var wanted := (r: RequestRecord) => r.conversationId == id;
    mine := [];
    if requests == [] {
      PicksNone(wanted);
    } else {
      var init, last := requests[..|requests| - 1], requests[|requests| - 1];
      var before := DetailsPicked(init, id);
      mine := if wanted(last) then before + [last] else before;
      PicksNext(requests, before, mine, wanted);
    }
  }

  /** Joining puts a comma and a blank between what is joined, and nowhere else. */
  lemma {:induction false} JoinedExact(a: seq<string>, b: seq<string>)
    ensures Joined([]) == "" && (|a| == 1 ==> Joined(a) == a[0])
    ensures a != [] && b != [] ==> Joined(a + b) == Joined(a) + ", " + Joined(b)
  {
    if a != [] && b != [] {
      var all, init, last := a + b, b[..|b| - 1], b[|b| - 1];
      assert all[..|all| - 1] == a + init && all[|all| - 1] == last;
      if init == [] {
        assert a + init == a;
      } else {
        JoinedExact(a, init);
      }
    }
  }

  // ----------------------------------------------------------------- evidence

  /** A job tells of its request once it is no longer just running, or delivered. */
  predicate Concluded(j: Job, id: Id) {
    j.requestId == Some(id) && id != "" && (j.state == "running" ==> j.delivered == Some(true))
  }

  lemma {:induction false} EvidencePicked(jobs: seq<Job>, id: Id) returns (told: seq<Job>)
    ensures Picks(jobs, told, (j: Job) => Concluded(j, id))
    ensures |AllEvidence(jobs, id)| == |told|
    ensures forall i :: 0 <= i < |told| ==>
      AllEvidence(jobs, id)[i] == Evidence(told[i].id, told[i].state, told[i].delivered == Some(true))
  {
    var wanted := (j: Job) => Concluded(j, id);
    told := [];
    if jobs == [] {
      PicksNone(wanted);
    } else {
      var init, last := jobs[..|jobs| - 1], jobs[|jobs| - 1];
      var before := EvidencePicked(init, id);
      told := if wanted(last) then before + [last] else before;
      PicksNext(jobs, before, told, wanted);
    }
  }

  function EvidenceFrom(j: Job, id: Id): seq<Evidence> {
    if Concluded(j, id) then [Evidence(j.id, j.state, j.delivered == Some(true))] else []
  }

  lemma {:induction false} EvidenceAround(a: seq<Job>, j: Job, b: seq<Job>, id: Id)
    ensures AllEvidence(a + [j] + b, id) == AllEvidence(a, id) + EvidenceFrom(j, id) + AllEvidence(b, id)
  {
    var all := a + [j] + b;
    if b == [] {
      assert all[..|all| - 1] == a && all[|all| - 1] == j;
    } else {
      var init, last := b[..|b| - 1], b[|b| - 1];
      assert all[..|all| - 1] == a + [j] + init && all[|all| - 1] == last;
      EvidenceAround(a, j, init, id);
    }
  }

  /** A history page is refreshed by a change of one job exactly if what the job
      tells of the request changes; progress of a running job does not. */
  lemma RefreshExact(r: RequestRecord, jobs: seq<Job>, i: nat, job: Job)
    requires i < |jobs|
    ensures RefreshOf(r, jobs[i := job]) == RefreshOf(r, jobs) <==>
      EvidenceFrom(jobs[i], r.id) == EvidenceFrom(job, r.id)
  {
    var a, b := jobs[..i], jobs[i + 1..];
    assert jobs == a + [jobs[i]] + b && jobs[i := job] == a + [job] + b;
    EvidenceAround(a, jobs[i], b, r.id);
    EvidenceAround(a, job, b, r.id);
    hide AllEvidence, EvidenceFrom;
    var x, y, z, w := AllEvidence(a, r.id), EvidenceFrom(jobs[i], r.id), EvidenceFrom(job, r.id), AllEvidence(b, r.id);
    if x + y + w == x + z + w {
      assert |y| == |z|;
      assert (x + y + w)[|x|..|x| + |y|] == y && (x + z + w)[|x|..|x| + |z|] == z;
    }
  }

  // ----------------------------------------------------------------- the view

  /** The objects of a map, in order. */
  ghost predicate Lists<T>(m: Map<T>, items: seq<T>) {
    |items| == |m.value| && forall i :: 0 <= i < |items| ==> items[i] == m.value[i].value.value
  }

  function DetailsOf(requests: seq<RequestRecord>): seq<string> {
    seq(|requests|, i requires 0 <= i < |requests| => requests[i].detail)
  }

  /** A node row: its conversation, its own parent or the one its path gives it, and
      the joined details of its requests. */
  ghost predicate TellsNode(cs: seq<Conversation>, requests: seq<RequestRecord>, c: Conversation, row: NodeRow) {
    && row.id == c.id && row.name == c.path && row.rest == c.rest
    && (c.own ==> row.parentId == c.parentId)
    && (!c.own ==>
         && !row.parentId.Null?
         && Paths.LongestPrefixParent(AsPathNodes(cs), c.path,
                                      if row.parentId.Named? then Some(row.parentId.id) else None))
    && exists mine: seq<RequestRecord> ::
      Picks(requests, mine, (r: RequestRecord) => r.conversationId == c.id) && row.detail == Joined(DetailsOf(mine))
  }

  lemma NodeTells(cs: seq<Conversation>, requests: seq<RequestRecord>, i: nat)
    requires i < |cs|
    ensures TellsNode(cs, requests, cs[i], NodeRows(cs, requests)[i])
  {
    var c, row := cs[i], NodeRows(cs, requests)[i];
    var mine := DetailsPicked(requests, c.id);
    assert Details(requests, c.id) == DetailsOf(mine);
    var parent := if row.parentId.Named? then Some(row.parentId.id) else None;
    Paths.ParentIsLongest(AsPathNodes(cs), c.path, parent);
    hide Details, Joined, Picks, Paths.LongestPrefixParent, Paths.ParentByPath, AsPathNodes;
  }

  /** A request row: the request, and when its history page is to be refreshed. */
  ghost predicate TellsRequest(jobs: seq<Job>, r: RequestRecord, row: ActivityRow) {
    && row.RequestRow? && row.request == r
    && row.refresh.id == r.id && row.refresh.version == r.version && row.refresh.state == r.state
    && exists told: seq<Job> ::
      && Picks(jobs, told, (j: Job) => Concluded(j, r.id)) && |row.refresh.evidence| == |told|
      && forall i :: 0 <= i < |told| ==>
        row.refresh.evidence[i] == Evidence(told[i].id, told[i].state, told[i].delivered == Some(true))
  }

  lemma RequestTells(requests: seq<RequestRecord>, jobs: seq<Job>, i: nat)
    requires i < |requests|
    ensures TellsRequest(jobs, requests[i], RequestRows(requests, jobs)[i])
  {
    var told := EvidencePicked(jobs, requests[i].id);
    hide AllEvidence, Picks;
  }

  ghost predicate TellsActivity(requests: seq<RequestRecord>, jobs: seq<Job>, rows: seq<ActivityRow>) {
    && |rows| == |requests| + |jobs|
    && (forall i :: 0 <= i < |requests| ==> TellsRequest(jobs, requests[i], rows[i]))
    && (forall i :: 0 <= i < |jobs| ==> rows[|requests| + i] == JobRow(jobs[i]))
  }

  /** The output lists: absent while no map is there, and else one list each. */
  predicate TellsOutputs(s: State, o: Outputs) {
    if s.liveOutput.None? && s.revisions.None? && s.actorRevisions.None?
    then o.liveOutput.None? && o.revisions.None? && o.actorRevisions.None?
    else
      && o.liveOutput == Some(if s.liveOutput.Some? then s.liveOutput.value.value else [])
      && o.revisions == Some(if s.revisions.Some? then s.revisions.value.value else [])
      && o.actorRevisions == Some(if s.actorRevisions.Some? then s.actorRevisions.value.value else [])
  }

  ghost predicate TellsState(s: State, v: View, activity: Sort<ActivityRow>, inbox: Sort<PlainRow>,
                             cs: seq<Conversation>, requests: seq<RequestRecord>, jobs: seq<Job>) {
    && v.hostRun == s.hostRun && v.receipts == s.receipts.value && TellsOutputs(s, v.outputs)
    && |v.actors| == |s.actors.value|
    && (forall i :: 0 <= i < |v.actors| ==> v.actors[i].source == s.actors.value[i].value.value)
    && |v.nodes| == |cs| && (forall i :: 0 <= i < |cs| ==> TellsNode(cs, requests, cs[i], v.nodes[i]))
    && (exists rows :: TellsActivity(requests, jobs, rows) && v.timeline == activity(rows))
    && (exists rows: seq<PlainRow> ::
         && |rows| == |s.envelopes.value| && v.inbox == inbox(rows)
         && forall i :: 0 <= i < |rows| ==> rows[i].source == s.envelopes.value[i].value.value)
  }

  lemma ActivityTells(requests: seq<RequestRecord>, jobs: seq<Job>)
    ensures TellsActivity(requests, jobs, RequestRows(requests, jobs) + JobRows(jobs))
  {
    var rows := RequestRows(requests, jobs) + JobRows(jobs);
    forall i | 0 <= i < |requests| ensures TellsRequest(jobs, requests[i], rows[i]) { RequestTells(requests, jobs, i); }
    hide TellsRequest;
  }

  /** A fresh view says exactly what the state says, row by row. */
  lemma FreshTells(s: State, activity: Sort<ActivityRow>, inbox: Sort<PlainRow>, cs: seq<Conversation>,
                   requests: seq<RequestRecord>, jobs: seq<Job>)
    requires Lists(s.conversations, cs) && Lists(s.requests, requests) && Lists(s.jobs, jobs)
    ensures TellsState(s, Fresh(s, activity, inbox), activity, inbox, cs, requests, jobs)
  {
    assert cs == Values(s.conversations) && requests == Values(s.requests) && jobs == Values(s.jobs);
    forall i | 0 <= i < |cs| ensures TellsNode(cs, requests, cs[i], NodeRows(cs, requests)[i]) {
      NodeTells(cs, requests, i);
    }
    ActivityTells(requests, jobs);
    hide TellsNode, TellsActivity, RequestRows, JobRows;
    assert |PlainRows(Values(s.envelopes))| == |s.envelopes.value|;
  }
}
