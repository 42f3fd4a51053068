/** What the replica holds beside the host's rows: previews, history revisions and
    receipts, by the log of events (web/src/protocol.ts). */
module ReplicaOutputs {
  import opened JsMap
  import opened OperationId
  import opened HostCommands
  import opened LiveOutput
  import opened Replica

  /** The replica after the snapshot's successors. */
  function Followed(s: Normalized, log: seq<Change>): Normalized {
    if log == [] then s
    else
      var before := Followed(s, log[..|log| - 1]);
      Changed(before.(seqNo := before.seqNo + 1), log[|log| - 1])
  }

  /** What an event of the host means for previews. */
  function AboutOutput(change: Change): seq<Event> {
    match change
    case OutputDelta(delta) => [Arrived(delta)]
    case OutputCommitted(commit) => [Committed(commit)]
    case OutputStopped(scope) => [Stopped(scope)]
    case OutputRemoved(key) => [Removed(key)]
    case _ => []
  }

  function OutputEvents(log: seq<Change>): seq<Event> {
    if log == [] then [] else OutputEvents(log[..|log| - 1]) + AboutOutput(log[|log| - 1])
  }

  lemma ChangedOutputs(s: Normalized, change: Change)
    ensures Changed(s, change).liveOutput ==
      if AboutOutput(change) == [] then s.liveOutput else Next(s.liveOutput, AboutOutput(change)[0])
  {
  }

  lemma RunOne(items: seq<Item>)
    ensures LiveOutput.Run([Restored(items)]) == FromWire(items)
  {
    assert [Restored(items)][..0] == [];
  }

  lemma RunNext(events: seq<Event>, e: Event)
    ensures LiveOutput.Run(events + [e]) == Next(LiveOutput.Run(events), e)
  {
    assert (events + [e])[..|events|] == events;
  }

  /** The previews of a run: the snapshot's, then the log's output events. */
  function PreviewsOf(items: seq<Item>, log: seq<Change>): Table<OutputKey, Item> {
    LiveOutput.Run([Restored(items)] + OutputEvents(log))
  }

  lemma PreviewsNext(items: seq<Item>, log: seq<Change>)
    requires log != []
    ensures var before, events := PreviewsOf(items, log[..|log| - 1]), AboutOutput(log[|log| - 1]);
      PreviewsOf(items, log) == if events == [] then before else Next(before, events[0])
  {
    var earlier, events := [Restored(items)] + OutputEvents(log[..|log| - 1]), AboutOutput(log[|log| - 1]);
    assert [Restored(items)] + OutputEvents(log) == earlier + events;
    if events == [] {
      assert earlier + events == earlier;
    } else {
      assert events == [events[0]];
      RunNext(earlier, events[0]);
    }
  }

  lemma PreviewsStart(snapshot: Snapshot)
    ensures Normalize(snapshot).liveOutput == PreviewsOf(snapshot.liveOutput, [])
  {
    RunOne(snapshot.liveOutput);
    assert [Restored(snapshot.liveOutput)] + [] == [Restored(snapshot.liveOutput)];
  }

  /** The replica's previews are those of the run of its output events: the snapshot's,
      then every delta, commit, stop and removal of the log, in order. */
  lemma {:induction false} PreviewsFollow(snapshot: Snapshot, log: seq<Change>)
    ensures Followed(Normalize(snapshot), log).liveOutput == PreviewsOf(snapshot.liveOutput, log)
  {
    hide Normalize, Changed, PreviewsOf, Next, AboutOutput;
    if log == [] {
      PreviewsStart(snapshot);
    } else {
      var init, last := log[..|log| - 1], log[|log| - 1];
      PreviewsFollow(snapshot, init);
      PreviewsNext(snapshot.liveOutput, log);
      var before := Followed(Normalize(snapshot), init);
      ChangedOutputs(before.(seqNo := before.seqNo + 1), last);
    }
  }

  // --------------------------------------------------------- history revisions

  /** The revisions the log announces: each commit's version of its scope. */
  function Announced(log: seq<Change>): seq<Revision> {
    if log == [] then []
    else
      var last := log[|log| - 1];
      Announced(log[..|log| - 1]) +
      (if last.OutputCommitted? then [Revision(last.commit.scope, last.commit.version)] else [])
  }

  lemma AddsNew(m: Table<Scope, Revision>, e: Entry<Scope, Revision>, limit: nat)
    requires |m| < limit && forall i :: 0 <= i < |m| ==> m[i].key != e.key
    ensures Set(m, e.key, e.value) == m + [e] && Touch(m, e.key, e.value, limit) == m + [e]
  {
    assert Find(m, e.key) < 0;
  }

  lemma {:induction false} AllDistinct(entries: seq<Entry<Scope, Revision>>, limit: nat)
    requires DistinctKeys(entries) && |entries| <= limit
    ensures FromEntries(entries) == entries && TouchAll(entries, limit) == entries
  {
    if entries != [] {
      var init, last := entries[..|entries| - 1], entries[|entries| - 1];
      AllDistinct(init, limit);
      AddsNew(init, last, limit);
      hide Set, Touch;
      assert init + [last] == entries;
    }
  }

  lemma ScopesAppend(a: seq<Revision>, r: Revision)
    ensures ByScope(a + [r]) == ByScope(a) + [Entry(r.scope, r)]
  {
  }

  /** The replica's history revisions are the latest of each of the latest 128 scopes
      that the snapshot lists and the log commits to. */
  lemma RevisionsFollow(snapshot: Snapshot, log: seq<Change>)
    requires DistinctKeys(ByScope(snapshot.revisions)) && |snapshot.revisions| <= MAX_ITEMS
    ensures Followed(Normalize(snapshot), log).revisions ==
      Latest(LastOccurrences(ByScope(snapshot.revisions + Announced(log))), MAX_ITEMS)
  {
    RevisionsTouched(snapshot, log);
    hide Followed, Normalize, ByScope;
    TouchKeepsLatest(ByScope(snapshot.revisions + Announced(log)), MAX_ITEMS);
  }

  lemma ChangedRevisions(s: Normalized, change: Change)
    ensures Changed(s, change).revisions ==
      if change.OutputCommitted?
      then Touch(s.revisions, change.commit.scope, Revision(change.commit.scope, change.commit.version), MAX_ITEMS)
      else s.revisions
  {
    hide Touch, Set, Delete;
  }

  /** The latest revisions of the snapshot and the log, evicting as they come. */
  function RevisionsOf(listed: seq<Revision>, log: seq<Change>): Table<Scope, Revision> {
    TouchAll(ByScope(listed + Announced(log)), MAX_ITEMS)
  }

  lemma RevisionsNext(listed: seq<Revision>, log: seq<Change>)
    requires log != []
    ensures var before, last := RevisionsOf(listed, log[..|log| - 1]), log[|log| - 1];
      RevisionsOf(listed, log) ==
      if last.OutputCommitted?
      then Touch(before, last.commit.scope, Revision(last.commit.scope, last.commit.version), MAX_ITEMS) else before
  {
    var earlier, last := listed + Announced(log[..|log| - 1]), log[|log| - 1];
    if last.OutputCommitted? {
      var r := Revision(last.commit.scope, last.commit.version);
      assert listed + Announced(log) == earlier + [r];
      ScopesAppend(earlier, r);
      var entries := ByScope(earlier + [r]);
      assert entries[..|entries| - 1] == ByScope(earlier);
      hide Touch, ByScope;
    } else {
      assert listed + Announced(log) == earlier;
    }
  }

  lemma RevisionsStart(snapshot: Snapshot)
    requires DistinctKeys(ByScope(snapshot.revisions)) && |snapshot.revisions| <= MAX_ITEMS
    ensures Normalize(snapshot).revisions == RevisionsOf(snapshot.revisions, [])
  {
    assert snapshot.revisions + [] == snapshot.revisions;
    AllDistinct(ByScope(snapshot.revisions), MAX_ITEMS);
  }

  lemma {:induction false} RevisionsTouched(snapshot: Snapshot, log: seq<Change>)
    requires DistinctKeys(ByScope(snapshot.revisions)) && |snapshot.revisions| <= MAX_ITEMS
    ensures Followed(Normalize(snapshot), log).revisions == RevisionsOf(snapshot.revisions, log)
  {
    hide Touch, RevisionsOf, ByScope, Changed, Normalize;
    if log == [] {
      RevisionsStart(snapshot);
    } else {
      var init, last := log[..|log| - 1], log[|log| - 1];
      RevisionsTouched(snapshot, init);
      RevisionsNext(snapshot.revisions, log);
      var before := Followed(Normalize(snapshot), init);
      ChangedRevisions(before.(seqNo := before.seqNo + 1), last);
    }
  }

  // ------------------------------------------------------------------ receipts

  /** Receipts share a place exactly if they are of one operation: the same id, or two
      spellings of one UUID. */
  lemma ReceiptKeyExact(a: Receipt, b: Receipt)
    ensures ReceiptKey(a) == ReceiptKey(b) <==>
      || a.commandId == b.commandId
      || (IsOperationId(a.commandId) && IsOperationId(b.commandId) && Digits(a.commandId) == Digits(b.commandId))
  {
    if IsOperationId(a.commandId) { CanonicalIdempotent(a.commandId); }
    if IsOperationId(b.commandId) { CanonicalIdempotent(b.commandId); }
    if IsOperationId(a.commandId) && IsOperationId(b.commandId) { CanonicalExact(a.commandId, b.commandId); }
    hide IsOperationId, Canonical, Digits;
  }
}
