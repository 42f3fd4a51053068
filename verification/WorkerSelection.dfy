/** Which workers the layout shows (web/src/active-worker-tree.ts). */
module WorkerSelection {
  import opened JsMap
  import opened WorkerDirectory
  import opened WorkerAncestors

  function PriorityLimit(limit: nat): (n: nat)
    requires limit > 0
    ensures 1 <= n <= limit && limit - n <= 100 && 5 * (limit - n) <= limit
    ensures limit - n < 100 ==> limit < 5 * (limit - n + 1)
  {
    var spare := if limit / 5 < 100 then limit / 5 else 100;
    Max(1, limit - spare)
  }

  function Max(a: int, b: int): int { if a < b then b else a }

  function Drop<T>(s: seq<T>, n: nat): seq<T> { if |s| <= n then [] else s[n..] }

  lemma TakeDrop(s: seq<Actor>, n: nat)
    ensures s == Take(s, n) + Drop(s, n)
    ensures forall a :: a in Take(s, n) || a in Drop(s, n) ==> a in s
  {
  }

  ghost predicate AllChosen(actors: seq<Actor>, selected: Selected) {
    forall a :: a in actors ==> Has(selected, a.identity)
  }

  lemma GrowsHas(before: Selected, after: Selected, k: Identity)
    requires before <= after && Has(before, k)
    ensures Has(after, k)
  {
    FindLast(after, k);
    assert after[Find(before, k)].key == k;
  }

  lemma StillChosen(actors: seq<Actor>, before: Selected, after: Selected)
    requires AllChosen(actors, before) && before <= after
    ensures AllChosen(actors, after)
  {
    forall a | a in actors ensures Has(after, a.identity) { GrowsHas(before, after, a.identity); }
  }

  lemma StillShown(d: Directory, workers: seq<Actor>, before: Selected, after: Selected)
    requires AncestorsShown(d, workers, before) && before <= after
    ensures AncestorsShown(d, workers, after)
  {
    forall a, k | a in workers && Above(d, a, k) && k in d && Terminal(d[k]) ensures Has(after, k) {
      GrowsHas(before, after, k);
    }
  }

  lemma ChosenParts(a: seq<Actor>, b: seq<Actor>, selected: Selected)
    requires AllChosen(a, selected) && AllChosen(b, selected)
    ensures AllChosen(a + b, selected)
  {
  }

  // ---------------------------------------------------- priority workers

  function EntriesOf(actors: seq<Actor>): (entries: Selected)
    ensures |entries| == |actors|
    ensures forall i :: 0 <= i < |entries| ==> entries[i] == Entry(actors[i].identity, Chosen(actors[i], false))
  {
    seq(|actors|, i requires 0 <= i < |actors| => Entry(actors[i].identity, Chosen(actors[i], false)))
  }

  /** The first stage: a new map of the priority workers. */
  function PriorityTable(priority: seq<Actor>): Selected { FromEntries(EntriesOf(priority)) }

  method AddPriority(priority: seq<Actor>) returns (selected: Selected)
    ensures selected == PriorityTable(priority)
    ensures KeysOf(selected) == FirstKeys(EntriesOf(priority)) && DistinctKeys(selected)
    ensures AllChosen(priority, selected) && |selected| <= |priority|
  {
    hide Set;
    selected := [];
    for i := 0 to |priority|
      invariant selected == FromEntries(EntriesOf(priority[..i]))
    {
      var a := priority[i];
      assert EntriesOf(priority[..i + 1])[..i] == EntriesOf(priority[..i]);
      selected := Set(selected, a.identity, Chosen(a, false));
    }
    assert priority[..|priority|] == priority;
    PriorityFacts(priority);
  }

  lemma PriorityFacts(priority: seq<Actor>)
    ensures var selected := PriorityTable(priority);
      && KeysOf(selected) == FirstKeys(EntriesOf(priority)) && DistinctKeys(selected)
      && AllChosen(priority, selected) && |selected| <= |priority|
      && forall i :: 0 <= i < |selected| ==> FromActors(priority, selected[i])
  {
    var entries := EntriesOf(priority);
    FromEntriesKeys(entries);
    FromEntriesMembers(entries);
    hide FromEntries, FirstKeys;
    forall a | a in priority ensures Has(FromEntries(entries), a.identity) {
      var i :| 0 <= i < |priority| && priority[i] == a;
      assert entries[i] in entries;
    }
    var selected := FromEntries(entries);
    forall i | 0 <= i < |selected| ensures FromActors(priority, selected[i]) {
      assert selected[i] in entries;
    }
  }

  /** An entry for one of the actors themselves. */
  predicate FromActors(actors: seq<Actor>, e: Entry<Identity, Chosen>) {
    !e.value.context && e.value.actor in actors && e.key == e.value.actor.identity
  }

  lemma PriorityKeys(priority: seq<Actor>)
    ensures KeySet(PriorityTable(priority)) == Identities(priority)
  {
    PriorityFacts(priority);
    var table := PriorityTable(priority);
    hide PriorityTable;
    forall k | k in KeySet(table) ensures k in Identities(priority) {
      var i :| 0 <= i < |table| && KeysOf(table)[i] == k;
      assert FromActors(priority, table[i]);
    }
    forall a | a in priority ensures a.identity in KeySet(table) { KeySetHas(table, a.identity); }
  }

  // ------------------------------------------------------------- filling

  /** The actors that are not known yet, each identity once, in order. */
  function NewIn(actors: seq<Actor>, known: set<Identity>): seq<Actor> {
    if actors == [] then []
    else
      var init, last := NewIn(actors[..|actors| - 1], known), actors[|actors| - 1];
      if last.identity in known + Identities(init) then init else init + [last]
  }

  /** A selection filled up, as far as there is room, with what is new. */
  function FilledWith(selected: Selected, actors: seq<Actor>, limit: nat): Selected
    requires |selected| <= limit
  {
    selected + EntriesOf(Take(NewIn(actors, KeySet(selected)), limit - |selected|))
  }

  lemma {:induction false} NewInExact(actors: seq<Actor>, known: set<Identity>)
    ensures var new' := NewIn(actors, known);
      && (forall i, j :: 0 <= i < j < |new'| ==> new'[i].identity != new'[j].identity)
      && (forall i :: 0 <= i < |new'| ==> new'[i] in actors && new'[i].identity !in known)
      && (forall a :: a in actors ==> a.identity in known + Identities(new'))
  {
    if actors != [] {
      var init, last := NewIn(actors[..|actors| - 1], known), actors[|actors| - 1];
      NewInExact(actors[..|actors| - 1], known);
      var new' := NewIn(actors, known);
      forall i | 0 <= i < |init| ensures init[i].identity in Identities(init) { assert init[i] in init; }
      forall a | a in actors ensures a.identity in known + Identities(new') {
        assert a in actors[..|actors| - 1] || a == last;
        assert forall x :: x in init ==> x in new';
        if new' == init + [last] { assert last in new'; }
      }
    }
  }

  lemma {:induction false} NewInPrefix(actors: seq<Actor>, known: set<Identity>, i: nat)
    requires i <= |actors|
    ensures NewIn(actors[..i], known) <= NewIn(actors, known)
    decreases |actors|
  {
    if i < |actors| {
      var init := actors[..|actors| - 1];
      assert init[..i] == actors[..i];
      NewInPrefix(init, known, i);
    } else {
      assert actors[..i] == actors;
    }
  }

  lemma {:induction false} FilledKeys(selected: Selected, new': seq<Actor>)
    ensures KeySet(selected + EntriesOf(new')) == KeySet(selected) + Identities(new')
  {
    var all := selected + EntriesOf(new');
    forall k | k in KeySet(all) ensures k in KeySet(selected) + Identities(new') {
      var i :| 0 <= i < |all| && KeysOf(all)[i] == k;
      if i < |selected| { assert KeysOf(selected)[i] == k; } else { assert new'[i - |selected|] in new'; }
    }
    forall k | k in KeySet(selected) ensures k in KeySet(all) {
      var i :| 0 <= i < |selected| && KeysOf(selected)[i] == k;
      assert KeysOf(all)[i] == k;
    }
    forall a | a in new' ensures a.identity in KeySet(all) {
      var i :| 0 <= i < |new'| && new'[i] == a;
      assert KeysOf(all)[|selected| + i] == a.identity;
    }
  }

  /** Actors that are not chosen yet are added in order until the limit is reached. */
  method FillWith(actors: seq<Actor>, selected: Selected, limit: nat) returns (selected': Selected)
    requires DistinctKeys(selected) && |selected| <= limit
    ensures selected' == FilledWith(selected, actors, limit) && DistinctKeys(selected')
  {
    hide KeySet;
    selected' := selected;
    ghost var known, room := KeySet(selected), limit - |selected|;
    ghost var all := NewIn(actors, known);
    assert EntriesOf([]) == [] && selected + [] == selected;
    for i := 0 to |actors|
      invariant selected' == selected + EntriesOf(NewIn(actors[..i], known)) && |selected'| <= limit
      invariant DistinctKeys(selected')
    {
      if |selected'| >= limit {
        FilledEarly(actors, known, i, room);
        return;
      }
      selected' := FillOne(actors, selected, known, i, selected');
    }
    assert actors[..|actors|] == actors;
  }

  lemma FilledEarly(actors: seq<Actor>, known: set<Identity>, i: nat, room: nat)
    requires i <= |actors| && |NewIn(actors[..i], known)| == room
    ensures Take(NewIn(actors, known), room) == NewIn(actors[..i], known)
  {
    NewInPrefix(actors, known, i);
  }

  method FillOne(actors: seq<Actor>, ghost selected: Selected, ghost known: set<Identity>, i: nat,
                 now: Selected) returns (next: Selected)
    requires i < |actors| && known == KeySet(selected)
    requires now == selected + EntriesOf(NewIn(actors[..i], known)) && DistinctKeys(now)
    ensures next == selected + EntriesOf(NewIn(actors[..i + 1], known)) && DistinctKeys(next) && |next| <= |now| + 1
  {
    var a := actors[i];
    ghost var init := NewIn(actors[..i], known);
    assert actors[..i + 1][..i] == actors[..i];
    FilledKeys(selected, init);
    HasKey(now, a.identity);
    next := now;
    if !Has(now, a.identity) {
      AppendsNew(now, a.identity, Chosen(a, false));
      next := Set(now, a.identity, Chosen(a, false));
      assert EntriesOf(init + [a]) == EntriesOf(init) + [Entry(a.identity, Chosen(a, false))];
      hide Set;
    }
  }

  /** Filling keeps what is there, adds only the actors themselves, and with room
      to spare leaves none of them out. */
  lemma FilledFacts(selected: Selected, actors: seq<Actor>, limit: nat)
    requires |selected| <= limit
    ensures var after := FilledWith(selected, actors, limit);
      && selected <= after && |after| <= limit
      && (|after| < limit ==> AllChosen(actors, after))
      && forall i :: |selected| <= i < |after| ==> FromActors(actors, after[i])
  {
    var known := KeySet(selected);
    var new', after := NewIn(actors, known), FilledWith(selected, actors, limit);
    NewInExact(actors, known);
    hide NewIn, KeySet;
    if |after| < limit {
      assert Take(new', limit - |selected|) == new';
      FilledKeys(selected, new');
      forall a | a in actors ensures Has(after, a.identity) { KeySetHas(after, a.identity); }
    }
  }

  lemma FilledDistinct(selected: Selected, actors: seq<Actor>, limit: nat)
    requires DistinctKeys(selected) && |selected| <= limit
    ensures DistinctKeys(FilledWith(selected, actors, limit))
  {
    var known := KeySet(selected);
    NewInExact(actors, known);
    var new' := Take(NewIn(actors, known), limit - |selected|);
    hide NewIn;
    var all := selected + EntriesOf(new');
    forall i, j | 0 <= i < j < |all| ensures all[i].key != all[j].key {
      if i < |selected| <= j { assert KeysOf(selected)[i] == all[i].key; }
    }
  }

  // ------------------------------------------------------ the selection

  function Priority(current: seq<Actor>, limit: nat): seq<Actor>
    requires limit > 0
  {
    Take(Living(current), PriorityLimit(limit))
  }

  /** The priority workers with their context, before the limit cuts it. */
  function Wanted(current: seq<Actor>, limit: nat): Selected
    requires limit > 0
  {
    WithContext(DirectoryOf(current), Priority(current, limit), PriorityTable(Priority(current, limit)))
  }

  /** The first part of the selection. */
  function ConnectedPart(current: seq<Actor>, limit: nat): (connected: Selected)
    requires limit > 0
    ensures |connected| <= limit
  {
    Take(Wanted(current, limit), limit)
  }

  /** What follows it: the other living workers, then history. */
  function Completed(current: seq<Actor>, includeHistory: bool, limit: nat, connected: Selected): Selected
    requires limit > 0 && |connected| <= limit
  {
    var rest := FilledWith(connected, Drop(Living(current), PriorityLimit(limit)), limit);
    assert |rest| <= limit by { FilledFacts(connected, Drop(Living(current), PriorityLimit(limit)), limit); }
    if includeHistory then FilledWith(rest, current, limit) else rest
  }

  /** The selection: at most `limit` workers, first the priority ones with their
      terminal ancestors, then the other living ones and, if asked for, the
      recorded ones, each part in order. */
  function Selection(current: seq<Actor>, includeHistory: bool, limit: nat): Selected
    requires limit > 0
  {
    Completed(current, includeHistory, limit, ConnectedPart(current, limit))
  }

  method SelectWorkers(current: seq<Actor>, includeHistory: bool, limit: nat) returns (selected: Selected)
    requires limit > 0
    ensures selected == Selection(current, includeHistory, limit)
    ensures DistinctKeys(selected) && |selected| <= limit
  {
    var byIdentity, active, n := DirectoryOf(current), Living(current), PriorityLimit(limit);
    selected := AddPriority(Take(active, n));
    selected := AddAncestors(byIdentity, Take(active, n), selected, limit);
    assert selected == ConnectedPart(current, limit);
    FilledFacts(selected, Drop(active, n), limit);
    hide FilledWith, ConnectedPart;
    selected := FillWith(Drop(active, n), selected, limit);
    if includeHistory {
      FilledFacts(selected, current, limit);
      selected := FillWith(current, selected, limit);
    }
  }

  // ------------------------------------------------------- what it means

  /** Each chosen worker is a living one (any recorded one with history), or gives
      context to a priority worker. */
  ghost predicate Justified(current: seq<Actor>, includeHistory: bool, priority: seq<Actor>, selected: Selected) {
    forall i :: 0 <= i < |selected| ==>
      || FromActors(if includeHistory then current else Living(current), selected[i])
      || ContextOf(DirectoryOf(current), priority, selected[i])
  }

  lemma ConnectedFacts(current: seq<Actor>, limit: nat)
    requires limit > 0
    ensures var connected, priority := ConnectedPart(current, limit), Priority(current, limit);
      && DistinctKeys(connected) && PriorityTable(priority) <= connected
      && forall i :: |PriorityTable(priority)| <= i < |connected| ==>
           ContextOf(DirectoryOf(current), priority, connected[i])
  {
    var d, priority := DirectoryOf(current), Priority(current, limit);
    var first := PriorityTable(priority);
    PriorityFacts(priority);
    ContextKeysExact(d, priority, first);
    ContextEntries(d, priority, first);
    hide PriorityTable, WithContext, ContextOf;
    var all, connected := Wanted(current, limit), ConnectedPart(current, limit);
    assert forall i :: 0 <= i < |connected| ==> connected[i] == all[i];
  }

  /** What the selection means for its actors. */
  lemma SelectionFacts(current: seq<Actor>, includeHistory: bool, limit: nat)
    requires limit > 0
    ensures var selected := Selection(current, includeHistory, limit);
      && AllChosen(Priority(current, limit), selected)
      && (|selected| < limit ==> AllChosen(Living(current), selected))
      && (|selected| < limit && includeHistory ==> AllChosen(current, selected))
      && Justified(current, includeHistory, Priority(current, limit), selected)
  {
    var active, n := Living(current), PriorityLimit(limit);
    var priority, rest, connected := Take(active, n), Drop(active, n), ConnectedPart(current, limit);
    LivingExact(current);
    TakeDrop(active, n);
    PriorityFacts(priority);
    ConnectedFacts(current, limit);
    FilledFacts(connected, rest, limit);
    var living := FilledWith(connected, rest, limit);
    FilledFacts(living, current, limit);
    var selected := Selection(current, includeHistory, limit);
    hide FilledWith, PriorityTable, ContextOf, Living, PriorityLimit, ConnectedPart;
    StillChosen(priority, PriorityTable(priority), selected);
    if |selected| < limit {
      StillChosen(rest, living, selected);
      ChosenParts(priority, rest, selected);
    }
    forall i | 0 <= i < |selected|
      ensures || FromActors(if includeHistory then current else active, selected[i])
              || ContextOf(DirectoryOf(current), priority, selected[i])
    {
      if i < |PriorityTable(priority)| {
        assert selected[i] == PriorityTable(priority)[i];
      } else if i < |connected| {
        assert selected[i] == connected[i];
      } else if i < |living| {
        assert selected[i] == living[i];
      }
    }
  }

  lemma SelectionDistinct(current: seq<Actor>, includeHistory: bool, limit: nat)
    requires limit > 0
    ensures DistinctKeys(Selection(current, includeHistory, limit))
    ensures ConnectedPart(current, limit) <= Selection(current, includeHistory, limit)
  {
    ConnectedFacts(current, limit);
    var connected, rest := ConnectedPart(current, limit), Drop(Living(current), PriorityLimit(limit));
    FilledDistinct(connected, rest, limit);
    FilledFacts(connected, rest, limit);
    var living := FilledWith(connected, rest, limit);
    hide ConnectedPart, FilledWith;
    if includeHistory {
      FilledDistinct(living, current, limit);
      FilledFacts(living, current, limit);
    }
  }

  /** Exactly when the connected part has every present terminal ancestor of the
      priority workers: they have room, and none is hidden. The whole selection has
      them then too, however full the rest. */
  lemma AncestorsSelected(current: seq<Actor>, includeHistory: bool, limit: nat)
    requires limit > 0
    ensures var d, priority := DirectoryOf(current), Priority(current, limit);
      && (AncestorsShown(d, priority, ConnectedPart(current, limit)) <==>
            |Wanted(current, limit)| <= limit && NoneHidden(d, priority))
      && (|Wanted(current, limit)| <= limit && NoneHidden(d, priority) ==>
            AncestorsShown(d, priority, Selection(current, includeHistory, limit)))
  {
    var d, priority := DirectoryOf(current), Priority(current, limit);
    PriorityFacts(priority);
    PriorityKeys(priority);
    SelectionDistinct(current, includeHistory, limit);
    ShownExact(d, priority, PriorityTable(priority), limit);
    hide AncestorsShown, PriorityTable, NoneHidden, Selection;
    if |Wanted(current, limit)| <= limit && NoneHidden(d, priority) {
      StillShown(d, priority, ConnectedPart(current, limit), Selection(current, includeHistory, limit));
    }
  }

  /** A worker listed twice, living below `p` and retired below `q`, with `p` below
      it: the walk meets `p`, comes back to the worker and never meets `q`. */
  ghost function Looped(x: Identity, p: Identity, q: Identity): seq<Actor> {
    [Actor(x, Some(p), "running")] + [Actor(p, Some(x), "retired")]
    + [Actor(x, Some(q), "retired")] + [Actor(q, None, "retired")]
  }

  lemma LoopedParts(x: Identity, p: Identity, q: Identity)
    requires x != p && x != q && p != q
    ensures var current := Looped(x, p, q);
      && Living(current) == [current[0]]
      && DirectoryOf(current) == map[x := current[2], p := current[1], q := current[3]]
  {
    var current := Looped(x, p, q);
    forall i: nat | i < 4
      ensures Living(current[..i + 1]) == if i == 0 then Living(current[..i]) + [current[i]] else Living(current[..i])
      ensures DirectoryOf(current[..i + 1]) == DirectoryOf(current[..i])[current[i].identity := current[i]]
    {
      assert current[..i + 1] == current[..i] + [current[i]];
      OneMore(current[..i], current[i]);
    }
    assert current[..0] == [] && current[..4] == current;
    assert Living(current[..1]) == Living(current[..2]) == Living(current[..3]) == Living(current[..4]);
  }

  /** So a present terminal ancestor of a priority worker gets no card, with all the
      room there is. */
  lemma AncestorMissed(x: Identity, p: Identity, q: Identity, limit: nat)
    requires x != p && x != q && p != q && limit >= 2
    ensures var current := Looped(x, p, q); var d := DirectoryOf(current);
      && current[0] in Priority(current, limit) && Above(d, current[0], q) && q in d && Terminal(d[q])
      && !Has(Selection(current, false, limit), q)
  {
    var current := Looped(x, p, q);
    var d, a := DirectoryOf(current), current[0];
    LoopedParts(x, p, q);
    assert Priority(current, limit) == [a] == [] + [a];
    ReachesParent(d, p);
    ReachesParent(d, x);
    ReachesOn(d, p, x, q);
    MetOneMore(d, [], a);
    assert Climb(d, Some(x), {x, p}) == [];
    assert Met(d, [a]) == [p];
    var first := PriorityTable([a]);
    PriorityFacts([a]);
    PriorityKeys([a]);
    ContextKeysExact(d, [a], first);
    var connected := ConnectedPart(current, limit);
    KeySetHas(Wanted(current, limit), q);
    assert connected <= Wanted(current, limit);
    if Has(connected, q) { GrowsHas(connected, Wanted(current, limit), q); }
    assert NewIn([], KeySet(connected)) == [];
    assert Selection(current, false, limit) == connected;
  }
}
