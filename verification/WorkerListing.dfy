/** What the selection means for the actors as they were listed
    (web/src/active-worker-tree.ts). */
module WorkerListing {
  import opened JsMap
  import opened WorkerDirectory
  import opened WorkerAncestors
  import opened WorkerSelection

  /** A listed actor of the run, living if that is asked for. */
  predicate Counts(a: Actor, run: string, living: bool) { a.identity.run == run && (living ==> !Terminal(a)) }

  predicate Lists(actors: seq<Actor>, run: string, living: bool, k: Identity) {
    exists a :: a in actors && Counts(a, run, living) && a.identity == k
  }

  /** `x` is listed before `y` is for the first time. */
  ghost predicate ListedFirst(actors: seq<Actor>, run: string, living: bool, x: Identity, y: Identity) {
    exists n :: 0 <= n <= |actors| && Lists(actors[..n], run, living, x) && !Lists(actors[..n], run, living, y)
  }

  // ------------------------------------------------- filters of the list

  lemma {:induction false} OfRunExact(actors: seq<Actor>, run: string)
    ensures forall a :: a in OfRun(actors, run) <==> a in actors && a.identity.run == run
  {
    if actors != [] {
      OfRunExact(actors[..|actors| - 1], run);
      assert forall a :: a in actors <==> a in actors[..|actors| - 1] || a == actors[|actors| - 1];
    }
  }

  /** Each beginning of a filtered list filters a beginning of the list. */
  lemma {:induction false} OfRunPrefix(actors: seq<Actor>, run: string, m: nat) returns (n: nat)
    requires m <= |OfRun(actors, run)|
    ensures n <= |actors| && OfRun(actors[..n], run) == OfRun(actors, run)[..m]
  {
    n := |actors|;
    assert actors[..n] == actors;
    if m < |OfRun(actors, run)| {
      var init := actors[..|actors| - 1];
      n := OfRunPrefix(init, run, m);
      assert init[..n] == actors[..n];
    }
  }

  lemma {:induction false} LivingPrefix(actors: seq<Actor>, m: nat) returns (n: nat)
    requires m <= |Living(actors)|
    ensures n <= |actors| && Living(actors[..n]) == Living(actors)[..m]
  {
    n := |actors|;
    assert actors[..n] == actors;
    if m < |Living(actors)| {
      var init := actors[..|actors| - 1];
      n := LivingPrefix(init, m);
      assert init[..n] == actors[..n];
    }
  }

  /** The list that the stage goes through. */
  function Listing(actors: seq<Actor>, run: string, living: bool): seq<Actor> {
    if living then Living(OfRun(actors, run)) else OfRun(actors, run)
  }

  lemma ListingExact(actors: seq<Actor>, run: string, living: bool, k: Identity)
    ensures k in Identities(Listing(actors, run, living)) <==> Lists(actors, run, living, k)
  {
    OfRunExact(actors, run);
    LivingExact(OfRun(actors, run));
  }

  lemma ListingPrefix(actors: seq<Actor>, run: string, living: bool, m: nat) returns (n: nat)
    requires m <= |Listing(actors, run, living)|
    ensures n <= |actors| && Listing(actors[..n], run, living) == Listing(actors, run, living)[..m]
  {
    if living {
      var i := LivingPrefix(OfRun(actors, run), m);
      n := OfRunPrefix(actors, run, i);
    } else {
      n := OfRunPrefix(actors, run, m);
    }
  }

  /** `x` comes before `y` in a list. */
  ghost predicate Earlier(actors: seq<Actor>, x: Identity, y: Identity) {
    exists m :: 0 <= m <= |actors| && x in Identities(actors[..m]) && y !in Identities(actors[..m])
  }

  lemma EarlierListed(actors: seq<Actor>, run: string, living: bool, x: Identity, y: Identity)
    requires Earlier(Listing(actors, run, living), x, y)
    ensures ListedFirst(actors, run, living, x, y)
  {
    var list := Listing(actors, run, living);
    var m :| 0 <= m <= |list| && x in Identities(list[..m]) && y !in Identities(list[..m]);
    var n := ListingPrefix(actors, run, living, m);
    ListingExact(actors[..n], run, living, x);
    ListingExact(actors[..n], run, living, y);
  }

  // ------------------------------------------------------- order of stages

  lemma {:induction false} FirstKeysOrder(actors: seq<Actor>, i: nat, j: nat)
    requires i < j < |FirstKeys(EntriesOf(actors))|
    ensures Earlier(actors, FirstKeys(EntriesOf(actors))[i], FirstKeys(EntriesOf(actors))[j])
    decreases |actors|
  {
    var keys := FirstKeys(EntriesOf(actors));
    var init, last := actors[..|actors| - 1], actors[|actors| - 1];
    assert EntriesOf(actors)[..|actors| - 1] == EntriesOf(init);
    var older := FirstKeys(EntriesOf(init));
    if j < |older| {
      FirstKeysOrder(init, i, j);
      var m :| 0 <= m <= |init| && keys[i] in Identities(init[..m]) && keys[j] !in Identities(init[..m]);
      assert init[..m] == actors[..m];
    } else {
      FirstKeysExact(init);
      assert keys[i] in older && keys[j] == last.identity && last.identity !in older;
    }
  }

  lemma {:induction false} FirstKeysExact(actors: seq<Actor>)
    ensures forall k :: k in FirstKeys(EntriesOf(actors)) <==> k in Identities(actors)
  {
    if actors != [] {
      var init, last := actors[..|actors| - 1], actors[|actors| - 1];
      assert EntriesOf(actors)[..|actors| - 1] == EntriesOf(init);
      FirstKeysExact(init);
      assert forall a :: a in actors <==> a in init || a == last;
    }
  }

  lemma {:induction false} NewInOrder(actors: seq<Actor>, known: set<Identity>, i: nat, j: nat)
    requires i < j < |NewIn(actors, known)|
    ensures Earlier(actors, NewIn(actors, known)[i].identity, NewIn(actors, known)[j].identity)
    decreases |actors|
  {
    var new' := NewIn(actors, known);
    var init, last := actors[..|actors| - 1], actors[|actors| - 1];
    var older := NewIn(init, known);
    if j < |older| {
      NewInOrder(init, known, i, j);
      var x, y := older[i].identity, older[j].identity;
      var m :| 0 <= m <= |init| && x in Identities(init[..m]) && y !in Identities(init[..m]);
      assert init[..m] == actors[..m];
    } else {
      NewInExact(init, known);
      assert older[i] in init && new'[j] == last;
      assert last.identity !in Identities(init);
    }
  }

  /** Both later: the part before them holds neither the second. */
  lemma EarlierLater(actors: seq<Actor>, n: nat, x: Identity, y: Identity)
    requires n <= |actors| && Earlier(actors[n..], x, y) && y !in Identities(actors[..n])
    ensures Earlier(actors, x, y)
  {
    var rest := actors[n..];
    var m :| 0 <= m <= |rest| && x in Identities(rest[..m]) && y !in Identities(rest[..m]);
    assert actors[..n + m] == actors[..n] + rest[..m];
    assert forall a :: a in actors[..n + m] <==> a in actors[..n] || a in rest[..m];
  }

  lemma EarlierAcross(actors: seq<Actor>, n: nat, x: Identity, y: Identity)
    requires n <= |actors| && x in Identities(actors[..n]) && y !in Identities(actors[..n])
    ensures Earlier(actors, x, y)
  {
  }

  lemma FilledAt(selected: Selected, actors: seq<Actor>, limit: nat, k: nat, new': seq<Actor>)
    requires |selected| <= limit && |selected| <= k < |FilledWith(selected, actors, limit)|
    requires new' == NewIn(actors, KeySet(selected))
    ensures k - |selected| < |new'| && FilledWith(selected, actors, limit)[k].key == new'[k - |selected|].identity
  {
  }

  lemma NewInEarlier(actors: seq<Actor>, known: set<Identity>, new': seq<Actor>, i: nat, j: nat)
    requires new' == NewIn(actors, known) && i < j < |new'|
    ensures Earlier(actors, new'[i].identity, new'[j].identity)
  {
    NewInOrder(actors, known, i, j);
  }

  /** What a stage adds stands in the order of its list. */
  lemma FilledInOrder(selected: Selected, actors: seq<Actor>, limit: nat, i: nat, j: nat)
    requires |selected| <= i < j && |selected| <= limit && j < |FilledWith(selected, actors, limit)|
    ensures var after := FilledWith(selected, actors, limit); Earlier(actors, after[i].key, after[j].key)
  {
    var new' := NewIn(actors, KeySet(selected));
    FilledAt(selected, actors, limit, i, new');
    FilledAt(selected, actors, limit, j, new');
    hide FilledWith, Earlier;
    NewInEarlier(actors, KeySet(selected), new', i - |selected|, j - |selected|);
  }

  lemma FilledNew(selected: Selected, actors: seq<Actor>, limit: nat, j: nat)
    requires |selected| <= limit && |selected| <= j < |FilledWith(selected, actors, limit)|
    ensures FilledWith(selected, actors, limit)[j].key !in KeySet(selected)
  {
    NewInExact(actors, KeySet(selected));
  }

  lemma KeysWithin(first: Selected, all: Selected)
    requires first <= all
    ensures KeySet(first) <= KeySet(all)
  {
    forall i | 0 <= i < |first| ensures KeysOf(first)[i] in KeySet(all) { assert KeysOf(all)[i] == KeysOf(first)[i]; }
  }

  lemma PriorityInOrder(priority: seq<Actor>, i: nat, j: nat)
    requires i < j < |PriorityTable(priority)|
    ensures Earlier(priority, PriorityTable(priority)[i].key, PriorityTable(priority)[j].key)
  {
    PriorityFacts(priority);
    FirstKeysOrder(priority, i, j);
    hide Earlier, FirstKeys, PriorityTable;
    var keys := KeysOf(PriorityTable(priority));
    assert keys[i] == PriorityTable(priority)[i].key && keys[j] == PriorityTable(priority)[j].key;
  }

  lemma EarlierPrefix(actors: seq<Actor>, n: nat, x: Identity, y: Identity)
    requires n <= |actors| && Earlier(actors[..n], x, y)
    ensures Earlier(actors, x, y)
  {
    var init := actors[..n];
    var m :| 0 <= m <= |init| && x in Identities(init[..m]) && y !in Identities(init[..m]);
    assert init[..m] == actors[..m];
  }

  lemma StagesInOrder(living: seq<Actor>, n: nat, connected: Selected, limit: nat, i: nat, j: nat)
    requires n <= |living| && PriorityTable(living[..n]) <= connected && |connected| <= limit
    requires i < j < |FilledWith(connected, living[n..], limit)|
    requires i < |PriorityTable(living[..n])| || i >= |connected|
    requires j < |PriorityTable(living[..n])| || j >= |connected|
    ensures var all := FilledWith(connected, living[n..], limit); Earlier(living, all[i].key, all[j].key)
  {
    var first, all := PriorityTable(living[..n]), FilledWith(connected, living[n..], limit);
    FilledFacts(connected, living[n..], limit);
    PriorityKeys(living[..n]);
    KeysWithin(first, connected);
    if j >= |connected| { FilledNew(connected, living[n..], limit, j); }
    if i >= |connected| { FilledInOrder(connected, living[n..], limit, i, j); }
    if j < |first| { PriorityInOrder(living[..n], i, j); }
    hide PriorityTable, FilledWith, Earlier, KeySet;
    var x, y := all[i].key, all[j].key;
    assert forall k :: 0 <= k < |first| ==> all[k] == first[k];
    if j < |first| {
      EarlierPrefix(living, n, x, y);
    } else if i < |first| {
      KeyIn(first, i);
      EarlierAcross(living, n, x, y);
    } else {
      EarlierLater(living, n, x, y);
    }
  }

  lemma KeyIn(selected: Selected, i: nat)
    requires i < |selected|
    ensures selected[i].key in KeySet(selected)
  {
    assert KeysOf(selected)[i] == selected[i].key;
  }

  /** Cards of the run itself, without history, stand in order of listing. */
  lemma PlainInOrder(current: seq<Actor>, limit: nat, i: nat, j: nat)
    requires limit > 0
    requires var selected := Selection(current, false, limit);
      i < j < |selected| && !selected[i].value.context && !selected[j].value.context
    ensures var selected := Selection(current, false, limit);
      Earlier(Living(current), selected[i].key, selected[j].key)
  {
    var connected, living := ConnectedPart(current, limit), Living(current);
    var n := if |living| <= PriorityLimit(limit) then |living| else PriorityLimit(limit);
    assert living[..n] == Priority(current, limit) && living[n..] == Drop(living, PriorityLimit(limit));
    ConnectedFacts(current, limit);
    FilledFacts(connected, living[n..], limit);
    var selected := Selection(current, false, limit);
    assert selected == FilledWith(connected, living[n..], limit);
    hide Selection, ConnectedPart, FilledWith, PriorityTable, Living, Earlier, PriorityLimit;
    assert forall k :: 0 <= k < |connected| ==> selected[k] == connected[k];
    StagesInOrder(living, n, connected, limit, i, j);
  }

  /** History follows what is shown without it, in order of listing too. */
  lemma HistoryInOrder(current: seq<Actor>, limit: nat)
    requires limit > 0
    ensures var before, selected := Selection(current, false, limit), Selection(current, true, limit);
      && before <= selected
      && forall i, j :: |before| <= i < j < |selected| ==> Earlier(current, selected[i].key, selected[j].key)
  {
    var before, selected := Selection(current, false, limit), Selection(current, true, limit);
    FilledFacts(ConnectedPart(current, limit), Drop(Living(current), PriorityLimit(limit)), limit);
    FilledFacts(before, current, limit);
    assert selected == FilledWith(before, current, limit);
    hide Selection, FilledWith, Earlier;
    forall i, j | |before| <= i < j < |selected| ensures Earlier(current, selected[i].key, selected[j].key) {
      FilledInOrder(before, current, limit, i, j);
    }
  }

  // ------------------------------------------------------ the whole listing

  ghost predicate InListedOrder(actors: seq<Actor>, run: string, living: bool, cards: Selected, from: nat) {
    forall i, j :: from <= i < j < |cards| && !cards[i].value.context && !cards[j].value.context ==>
      ListedFirst(actors, run, living, cards[i].key, cards[j].key)
  }

  ghost predicate CardListed(actors: seq<Actor>, run: string, includeHistory: bool, e: Entry<Identity, Chosen>) {
    && e.value.actor in actors && e.key == e.value.actor.identity && e.key.run == run
    && (e.value.context ==> Terminal(e.value.actor))
    && (!e.value.context && !includeHistory ==> !Terminal(e.value.actor))
  }

  ghost predicate NoneMissing(actors: seq<Actor>, run: string, includeHistory: bool, cards: Selected) {
    forall a :: a in actors && Counts(a, run, !includeHistory) ==> Has(cards, a.identity)
  }

  ghost predicate OrderKept(actors: seq<Actor>, run: string, includeHistory: bool, cards: Selected) {
    exists n :: 0 <= n <= |cards| && (!includeHistory ==> n == |cards|)
      && InListedOrder(actors, run, true, cards[..n], 0) && InListedOrder(actors, run, false, cards, n)
  }

  /** The cards by the actors as they were listed: each card is of the run, living
      unless it gives context or history is asked for; with room to spare none is
      missing; and the order of listing is kept, what history adds coming last. */
  ghost predicate ShowsListed(actors: seq<Actor>, run: string, includeHistory: bool, limit: nat, cards: Selected) {
    && (forall i :: 0 <= i < |cards| ==> CardListed(actors, run, includeHistory, cards[i]))
    && (|cards| < limit ==> NoneMissing(actors, run, includeHistory, cards))
    && OrderKept(actors, run, includeHistory, cards)
  }

  lemma CardsListed(actors: seq<Actor>, run: string, includeHistory: bool, limit: nat, i: nat)
    requires limit > 0 && i < |Selection(OfRun(actors, run), includeHistory, limit)|
    ensures CardListed(actors, run, includeHistory, Selection(OfRun(actors, run), includeHistory, limit)[i])
  {
    var current := OfRun(actors, run);
    OfRunExact(actors, run);
    LivingExact(current);
    DirectoryExact(current);
    SelectionFacts(current, includeHistory, limit);
    hide Selection, OfRun, Living, DirectoryOf, AboveSome;
    var e := Selection(current, includeHistory, limit)[i];
    assert FromActors(if includeHistory then current else Living(current), e)
        || ContextOf(DirectoryOf(current), Priority(current, limit), e);
  }

  lemma PlainListed(actors: seq<Actor>, run: string, limit: nat)
    requires limit > 0
    ensures InListedOrder(actors, run, true, Selection(OfRun(actors, run), false, limit), 0)
  {
    var cards := Selection(OfRun(actors, run), false, limit);
    hide Selection, ListedFirst;
    forall i, j | 0 <= i < j < |cards| && !cards[i].value.context && !cards[j].value.context
      ensures ListedFirst(actors, run, true, cards[i].key, cards[j].key)
    {
      PlainInOrder(OfRun(actors, run), limit, i, j);
      EarlierListed(actors, run, true, cards[i].key, cards[j].key);
    }
  }

  lemma AllListed(actors: seq<Actor>, run: string, includeHistory: bool, limit: nat)
    requires limit > 0 && |Selection(OfRun(actors, run), includeHistory, limit)| < limit
    ensures NoneMissing(actors, run, includeHistory, Selection(OfRun(actors, run), includeHistory, limit))
  {
    var current := OfRun(actors, run);
    OfRunExact(actors, run);
    LivingExact(current);
    SelectionFacts(current, includeHistory, limit);
    hide Selection, OfRun, Living, Justified, Has;
  }

  lemma HistoryListed(actors: seq<Actor>, run: string, limit: nat)
    requires limit > 0
    ensures InListedOrder(actors, run, false, Selection(OfRun(actors, run), true, limit),
                          |Selection(OfRun(actors, run), false, limit)|)
  {
    var current := OfRun(actors, run);
    var cards, from := Selection(current, true, limit), |Selection(current, false, limit)|;
    HistoryInOrder(current, limit);
    hide Selection, ListedFirst, Earlier;
    forall i, j | from <= i < j < |cards| ensures ListedFirst(actors, run, false, cards[i].key, cards[j].key) {
      EarlierListed(actors, run, false, cards[i].key, cards[j].key);
    }
  }

  lemma OrderListed(actors: seq<Actor>, run: string, includeHistory: bool, limit: nat)
    requires limit > 0
    ensures OrderKept(actors, run, includeHistory, Selection(OfRun(actors, run), includeHistory, limit))
  {
    var current := OfRun(actors, run);
    var cards, before := Selection(current, includeHistory, limit), Selection(current, false, limit);
    HistoryInOrder(current, limit);
    PlainListed(actors, run, limit);
    HistoryListed(actors, run, limit);
    hide Selection, InListedOrder, Earlier;
    assert cards[..|before|] == before;
    assert InListedOrder(actors, run, false, cards,
                         |before|) by { if !includeHistory { NothingAfter(actors, run, cards); } }
  }

  lemma NothingAfter(actors: seq<Actor>, run: string, cards: Selected)
    ensures InListedOrder(actors, run, false, cards, |cards|)
  {
  }

  lemma ListedShown(actors: seq<Actor>, run: string, includeHistory: bool, limit: nat)
    requires limit > 0
    ensures ShowsListed(actors, run, includeHistory, limit, Selection(OfRun(actors, run), includeHistory, limit))
  {
    var cards := Selection(OfRun(actors, run), includeHistory, limit);
    hide Selection, CardListed, NoneMissing, OrderKept;
    forall i | 0 <= i < |cards| ensures CardListed(actors, run, includeHistory, cards[i]) {
      CardsListed(actors, run, includeHistory, limit, i);
    }
    if |cards| < limit { AllListed(actors, run, includeHistory, limit); }
    OrderListed(actors, run, includeHistory, limit);
  }
}
