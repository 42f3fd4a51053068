/** What a preview tells of its stream, and how long it stays visible once its text
    has been committed (web/src/live-output.ts). */
module LiveCommits {
  import opened JsMap
  import opened LiveOutput

  predicate Concerns(commit: Commit, key: OutputKey) { commit.scope == key.scope && commit.itemId == key.itemId }

  /** The last of the listed previews under the key. */
  function Listed(items: seq<Item>, key: OutputKey): Option<Item> {
    if items == [] then None
    else if items[|items| - 1].key == key then Some(items[|items| - 1]) else Listed(items[..|items| - 1], key)
  }

  /** One event, seen from one preview that is there afterwards. */
  ghost predicate Changes(event: Event, key: OutputKey, was: Option<Item>, item: Item) {
    match event
    case Arrived(d) =>
      if d.key != key then was == Some(item)
      else
        && item.streaming && item.key == key && item.version == d.version
        && (d.toolName.Some? ==> item.toolName == d.toolName)
        && (d.toolName.None? ==> item.toolName == (if was.Some? then was.value.toolName else None))
        && item.committedHash == (if was.Some? then was.value.committedHash else None)
    case Committed(c) =>
      && was.Some?
      && (!Concerns(c, key) ==> item == was.value)
      && (Concerns(c, key) ==>
           && !item.streaming && item.committedHash == Some(c.hash) && item.retained.None?
           && item.(streaming := was.value.streaming, committedHash := was.value.committedHash,
                    retained := was.value.retained) == was.value)
    case Stopped(scope) =>
      && was.Some?
      && (scope != key.scope ==> item == was.value)
      && (scope == key.scope ==>
           && !item.streaming && item.retained.None?
           && item.(streaming := was.value.streaming, retained := was.value.retained) == was.value)
    case Removed(gone) => gone != key && was == Some(item)
    case Restored(items) =>
      Listed(items, key).Some? && item == Listed(items, key).value.(retained := None)
  }

  lemma GetLatest(m: Table<OutputKey, Item>, limit: nat, key: OutputKey)
    requires Get(Latest(m, limit), key).Some?
    ensures Get(Latest(m, limit), key) == Get(m, key)
  {
    if |m| > limit { FindSuffix(m, key, |m| - limit); }
  }

  lemma GetMapped(p: Table<OutputKey, Item>, q: Table<OutputKey, Item>, key: OutputKey)
    requires |p| == |q| && forall i :: 0 <= i < |p| ==> q[i].key == p[i].key
    ensures Find(q, key) == Find(p, key)
  {
    FindLast(p, key);
    FindLast(q, key);
    if Find(p, key) >= 0 { assert q[Find(p, key)].key == key; }
    if Find(q, key) >= 0 { assert p[Find(q, key)].key == key; }
  }

  lemma {:induction false} WireGet(items: seq<Item>, key: OutputKey)
    ensures DistinctKeys(FromWire(items))
    ensures Get(FromWire(items), key) ==
      if Listed(items, key).Some? then Some(Listed(items, key).value.(retained := None)) else None
  {
    if items != [] {
      var init, last := items[..|items| - 1], items[|items| - 1];
      WireGet(init, key);
      SetDistinct(FromWire(init), last.key, last.(retained := None));
      GetAfterSet(FromWire(init), last.key, last.(retained := None), key);
      hide Get, Set;
    }
  }

  lemma NextChanges(outputs: Table<OutputKey, Item>, event: Event, key: OutputKey)
    requires SoundTable(outputs) && Get(Next(outputs, event), key).Some?
    ensures Changes(event, key, Get(outputs, key), Get(Next(outputs, event), key).value)
  {
    match event
    case Arrived(d) =>
      hide Sound;
      var item := Appended(Get(outputs, d.key), d);
      var t := Set(outputs, item.key, item);
      SetDistinct(outputs, item.key, item);
      GetLatest(t, MAX_ITEMS, key);
      GetAfterSet(outputs, item.key, item, key);
    case Committed(c) => GetMapped(outputs, CommitTo(outputs, c), key);
    case Stopped(scope) => GetMapped(outputs, StopIn(outputs, scope), key);
    case Removed(gone) => GetAfterDelete(outputs, gone, key);
    case Restored(items) => WireGet(items, key);
  }

  // ------------------------------------------------------------- every run

  /** Whether the event says anything about the preview. */
  predicate About(event: Event, key: OutputKey) {
    match event
    case Arrived(d) => d.key == key
    case Committed(c) => Concerns(c, key)
    case Stopped(scope) => scope == key.scope
    case Removed(gone) => gone == key
    case Restored(_) => true
  }

  function LastAbout(events: seq<Event>, key: OutputKey): Option<Event> {
    if events == [] then None
    else if About(events[|events| - 1], key) then Some(events[|events| - 1])
    else LastAbout(events[..|events| - 1], key)
  }

  /** The hash of the last commit since the preview has been there, or the one it
      was restored with. */
  function LastHash(events: seq<Event>, key: OutputKey): Option<string> {
    if events == [] then None
    else
      var init, last := events[..|events| - 1], events[|events| - 1];
      if last.Restored? then
        (if Listed(last.items, key).Some? then Listed(last.items, key).value.committedHash else None)
      else if last.Committed? && Concerns(last.commit, key) then Some(last.commit.hash)
      else if Get(Run(init), key).None? then None
      else LastHash(init, key)
  }

  /** After every run, a preview streams exactly if the last thing said about it was
      a delta, or a snapshot in which it streams; and the hash it is known by is
      that of its last commit. */
  lemma {:induction false} RunTells(events: seq<Event>, key: OutputKey)
    requires (forall i :: 0 <= i < |events| ==> Admissible(events[i])) && Get(Run(events), key).Some?
    ensures var item, last := Get(Run(events), key).value, LastAbout(events, key);
      && item.key == key && item.committedHash == LastHash(events, key)
      && last.Some? && !last.value.Removed?
      && (item.streaming <==>
           || last.value.Arrived?
           || (last.value.Restored? && Listed(last.value.items, key).Some?
               && Listed(last.value.items, key).value.streaming))
  {
    var init, last := events[..|events| - 1], events[|events| - 1];
    RunSound(init);
    NextChanges(Run(init), last, key);
    if Get(Run(init), key).Some? { RunTells(init, key); }
    if last.Restored? { ListedKey(last.items, key); }
    hide Run, Next, SoundTable, Listed;
  }

  lemma {:induction false} ListedKey(items: seq<Item>, key: OutputKey)
    requires Listed(items, key).Some?
    ensures Listed(items, key).value in items && Listed(items, key).value.key == key
  {
    if items[|items| - 1].key != key { ListedKey(items[..|items| - 1], key); }
  }

  // --------------------------------------------------------------- visibility

  /** The durable messages that have been fetched, by request. */
  type Loaded = map<string, set<string>>

  /** An empty hash counts as none. */
  predicate Superseded(item: Item, loaded: Loaded) {
    && item.committedHash.Some? && item.committedHash.value != ""
    && item.key.scope.requestId in loaded && item.committedHash.value in loaded[item.key.scope.requestId]
  }

  function Visible(outputs: seq<Item>, loaded: Loaded): seq<Item> {
    if outputs == [] then []
    else
      var init, last := Visible(outputs[..|outputs| - 1], loaded), outputs[|outputs| - 1];
      if Superseded(last, loaded) then init else init + [last]
  }

  lemma {:induction false} VisibleMembers(outputs: seq<Item>, loaded: Loaded, item: Item)
    ensures item in Visible(outputs, loaded) <==> item in outputs && !Superseded(item, loaded)
  {
    hide Superseded;
    if outputs != [] { VisibleMembers(outputs[..|outputs| - 1], loaded, item); }
  }

  function Previews(outputs: Table<OutputKey, Item>): (items: seq<Item>)
    ensures |items| == |outputs| && forall i :: 0 <= i < |items| ==> items[i] == outputs[i].value
  {
    seq(|outputs|, i requires 0 <= i < |outputs| => outputs[i].value)
  }

  /** A preview stays visible until the very message its last commit named has been
      fetched for its request. */
  lemma VisibleExact(events: seq<Event>, key: OutputKey, loaded: Loaded)
    requires (forall i :: 0 <= i < |events| ==> Admissible(events[i])) && Get(Run(events), key).Some?
    ensures var hash, request := LastHash(events, key), key.scope.requestId;
      Get(Run(events), key).value in Visible(Previews(Run(events)), loaded) <==>
      hash.None? || hash == Some("") || request !in loaded || hash.value !in loaded[request]
  {
    RunTells(events, key);
    var outputs, item := Run(events), Get(Run(events), key).value;
    assert Previews(outputs)[Find(outputs, key)] == item;
    VisibleMembers(Previews(outputs), loaded, item);
    hide Run, LastHash, LastAbout, Visible;
  }
}
