/** The number of workers the layout says it left out (web/src/active-worker-tree.ts). */
module WorkerOmitted {
  import opened JsMap
  import opened WorkerDirectory
  import opened WorkerAncestors
  import opened WorkerSelection

  function Visible(current: seq<Actor>, includeHistory: bool): seq<Actor> {
    if includeHistory then current else Living(current)
  }

  function Plain(selected: Selected): Selected {
    if selected == [] then []
    else
      var init, last := Plain(selected[..|selected| - 1]), selected[|selected| - 1];
      if last.value.context then init else init + [last]
  }

  function Omitted(current: seq<Actor>, includeHistory: bool, selected: Selected): nat {
    Max(0, |Visible(current, includeHistory)| - if includeHistory then |selected| else |Plain(selected)|)
  }

  /** The visible identities without a card. */
  ghost function Missing(current: seq<Actor>, includeHistory: bool, selected: Selected): set<Identity> {
    Identities(Visible(current, includeHistory)) - KeySet(selected)
  }

  ghost function ContextKeys(selected: Selected): set<Identity> { KeySet(selected) - KeySet(Plain(selected)) }

  lemma {:induction false} PlainExact(selected: Selected)
    requires DistinctKeys(selected)
    ensures DistinctKeys(Plain(selected))
    ensures forall e :: e in Plain(selected) <==> e in selected && !e.value.context
  {
    if selected != [] {
      var init := selected[..|selected| - 1];
      PlainExact(init);
      assert forall e :: e in selected <==> e in init || e == selected[|selected| - 1];
      forall i | 0 <= i < |Plain(init)| ensures Plain(init)[i].key != selected[|selected| - 1].key {
        assert Plain(init)[i] in init;
      }
    }
  }

  lemma {:induction false} KeyCount(m: Selected)
    requires DistinctKeys(m)
    ensures |KeySet(m)| == |m|
  {
    if m == [] {
      assert KeySet(m) == {};
    } else {
      var init, last := m[..|m| - 1], m[|m| - 1];
      KeyCount(init);
      assert KeysOf(m) == KeysOf(init) + [last.key];
      assert last.key !in KeysOf(init);
      assert KeySet(m) == KeySet(init) + {last.key};
    }
  }

  lemma {:induction false} IdentityCount(actors: seq<Actor>)
    ensures |Identities(actors)| <= |actors|
    ensures |Identities(actors)| == |actors| <==> NoneTwice(actors)
  {
    if actors != [] {
      var init, last := actors[..|actors| - 1], actors[|actors| - 1];
      IdentityCount(init);
      assert init + [last] == actors;
      IdentityStep(init, last);
    }
  }

  lemma IdentityStep(init: seq<Actor>, last: Actor)
    ensures Identities(init + [last]) == Identities(init) + {last.identity}
    ensures NoneTwice(init + [last]) <==> NoneTwice(init) && last.identity !in Identities(init)
  {
    var actors := init + [last];
    assert forall a :: a in actors <==> a in init || a == last;
    assert forall i :: 0 <= i < |init| ==> actors[i] == init[i] && init[i] in init;
    assert NoneTwice(actors) ==> NoneTwice(init);
    if last.identity in Identities(init) {
      var i :| 0 <= i < |init| && init[i].identity == last.identity;
      assert actors[i].identity == actors[|init|].identity;
    }
  }

  lemma PlainKeys(current: seq<Actor>, includeHistory: bool, priority: seq<Actor>, selected: Selected)
    requires Justified(current, includeHistory, priority, selected) && DistinctKeys(selected)
    ensures KeySet(Plain(selected)) <= KeySet(selected) * Identities(Visible(current, includeHistory))
    ensures includeHistory ==> KeySet(selected) <= Identities(current)
  {
    PlainExact(selected);
    DirectoryExact(current);
    LivingExact(current);
    forall i | 0 <= i < |selected|
      ensures !selected[i].value.context || includeHistory ==>
        selected[i].key in Identities(Visible(current, includeHistory))
    {
    }
    forall k | k in KeySet(Plain(selected))
      ensures k in KeySet(selected) && k in Identities(Visible(current, includeHistory))
    {
      var i :| 0 <= i < |Plain(selected)| && Plain(selected)[i].key == k;
      assert Plain(selected)[i] in selected;
      var j :| 0 <= j < |selected| && selected[j] == Plain(selected)[i];
      assert KeysOf(selected)[j] == k;
    }
  }

  lemma CounterExact(current: seq<Actor>, includeHistory: bool, priority: seq<Actor>, selected: Selected)
    requires Justified(current, includeHistory, priority, selected) && DistinctKeys(selected)
    ensures var visible := Visible(current, includeHistory);
      Omitted(current, includeHistory, selected) == |Missing(current, includeHistory, selected)| <==>
      NoneTwice(visible) && (includeHistory || ContextKeys(selected) !! Identities(visible))
  {
    var visible, plain := Visible(current, includeHistory), Plain(selected);
    PlainKeys(current, includeHistory, priority, selected);
    PlainExact(selected);
    KeyCount(selected);
    KeyCount(plain);
    IdentityCount(visible);
    hide Justified, DistinctKeys, NoneTwice, Plain, KeySet, Visible;
    Counted(Identities(visible), KeySet(selected), KeySet(plain), |visible|, includeHistory);
  }

  lemma Counted(all: set<Identity>, shown: set<Identity>, plain: set<Identity>, n: nat, whole: bool)
    requires |all| <= n && plain <= shown * all && (whole ==> shown <= all)
    ensures Max(0, n - if whole then |shown| else |plain|) == |all - shown| <==>
      n == |all| && (whole || shown - plain !! all)
  {
    var both := all * shown;
    assert all == (all - shown) + both;
    assert both == plain + (both - plain);
    assert |all| == |all - shown| + |plain| + |both - plain|;
    assert shown - plain !! all <==> both - plain == {};
    if whole { assert both == shown; }
  }

  lemma {:induction false} LivingDistinct(actors: seq<Actor>)
    requires NoneTwice(actors)
    ensures NoneTwice(Living(actors))
  {
    if actors != [] {
      var init, last := actors[..|actors| - 1], actors[|actors| - 1];
      LivingDistinct(init);
      LivingExact(init);
      forall i | 0 <= i < |Living(init)| ensures Living(init)[i].identity != last.identity {
        assert Living(init)[i] in Living(init);
        var j :| 0 <= j < |init| && init[j] == Living(init)[i];
        assert actors[j] == init[j];
      }
    }
  }

  // ----------------------------------------------- the condition on the list

  /** The identities that get a card for context, by the actor list and the limit. */
  function ContextKept(current: seq<Actor>, limit: nat): set<Identity>
    requires limit > 0
  {
    KeySet(ConnectedPart(current, limit)) - Identities(Priority(current, limit))
  }

  lemma ContextKeysOf(selected: Selected, k: Identity)
    requires DistinctKeys(selected)
    ensures k in ContextKeys(selected) <==>
      exists i :: 0 <= i < |selected| && selected[i].key == k && selected[i].value.context
  {
    PlainExact(selected);
    var plain := Plain(selected);
    hide Plain;
    forall i | 0 <= i < |selected| && !selected[i].value.context ensures selected[i].key in KeySet(plain) {
      assert selected[i] in plain;
      var j :| 0 <= j < |plain| && plain[j] == selected[i];
      assert KeysOf(plain)[j] == selected[i].key;
    }
    if k in ContextKeys(selected) {
      var i :| 0 <= i < |selected| && KeysOf(selected)[i] == k;
      assert selected[i].key == k && selected[i].value.context;
    }
    forall i | 0 <= i < |selected| && selected[i].key == k && selected[i].value.context
      ensures k in ContextKeys(selected)
    {
      assert KeysOf(selected)[i] == k;
      forall j | 0 <= j < |plain| ensures plain[j].key != k { assert plain[j] in selected; }
    }
  }

  /** Without history only the connected part holds context. */
  lemma ContextKeysKept(current: seq<Actor>, limit: nat)
    requires limit > 0
    ensures ContextKeys(Selection(current, false, limit)) == ContextKept(current, limit)
  {
    var selected, connected := Selection(current, false, limit), ConnectedPart(current, limit);
    var first, rest := PriorityTable(Priority(current, limit)), Drop(Living(current), PriorityLimit(limit));
    SelectionDistinct(current, false, limit);
    ConnectedFacts(current, limit);
    FilledFacts(connected, rest, limit);
    PriorityFacts(Priority(current, limit));
    PriorityKeys(Priority(current, limit));
    hide ConnectedPart, FilledWith, PriorityTable, Priority, Living;
    assert forall i :: 0 <= i < |connected| ==> selected[i] == connected[i];
    assert forall i :: 0 <= i < |first| ==> connected[i] == first[i];
    assert forall i :: 0 <= i < |selected| ==> (selected[i].value.context <==> |first| <= i < |connected|);
    forall k ensures k in ContextKeys(selected) <==> k in ContextKept(current, limit) {
      ContextKeysOf(selected, k);
      LaterKeys(first, connected, k);
    }
  }

  lemma LaterKeys(first: Selected, all: Selected, k: Identity)
    requires first <= all && DistinctKeys(all)
    ensures k in KeySet(all) - KeySet(first) <==> exists i :: |first| <= i < |all| && all[i].key == k
  {
    assert forall j :: 0 <= j < |first| ==> KeysOf(first)[j] == all[j].key;
    if k in KeySet(all) - KeySet(first) {
      var i :| 0 <= i < |all| && KeysOf(all)[i] == k;
      assert i >= |first| && all[i].key == k;
    }
    forall i | |first| <= i < |all| && all[i].key == k ensures k in KeySet(all) - KeySet(first) {
      assert KeysOf(all)[i] == k;
      forall j | 0 <= j < |first| ensures KeysOf(first)[j] != k { assert first[j] == all[j]; }
    }
  }

  /** The counter tells how many visible workers have no card exactly when no two
      visible workers share an identity and, without history, no living one is
      among those that get a card for context. */
  lemma OmittedExact(current: seq<Actor>, includeHistory: bool, limit: nat)
    requires limit > 0
    ensures var selected := Selection(current, includeHistory, limit);
      Omitted(current, includeHistory, selected) == |Missing(current, includeHistory, selected)| <==>
      && NoneTwice(Visible(current, includeHistory))
      && (includeHistory || ContextKept(current, limit) !! Identities(Living(current)))
  {
    SelectionFacts(current, includeHistory, limit);
    SelectionDistinct(current, includeHistory, limit);
    if !includeHistory { ContextKeysKept(current, limit); }
    hide Selection, Omitted, Missing, Justified, ContextKept, ContextKeys;
    CounterExact(current, includeHistory, Priority(current, limit), Selection(current, includeHistory, limit));
  }

  /** A living worker outside the priority ones that the directory has as terminal,
      above one of them. */
  ghost predicate LivingAbove(current: seq<Actor>, limit: nat, w: Actor)
    requires limit > 0
  {
    var d, priority := DirectoryOf(current), Priority(current, limit);
    && w in Living(current) && w.identity !in Identities(priority)
    && AboveSome(d, priority, w.identity) && w.identity in d && Terminal(d[w.identity])
  }

  /** If the ancestors have room and none is hidden, the second condition is that
      there is no such worker. */
  lemma OmittedAboveExact(current: seq<Actor>, limit: nat)
    requires limit > 0 && |Wanted(current, limit)| <= limit
    requires NoneHidden(DirectoryOf(current), Priority(current, limit))
    ensures var selected := Selection(current, false, limit);
      Omitted(current, false, selected) == |Missing(current, false, selected)| <==>
      NoneTwice(Living(current)) && forall w :: !LivingAbove(current, limit, w)
  {
    OmittedExact(current, false, limit);
    AncestorsSelected(current, false, limit);
    var d, priority, connected := DirectoryOf(current), Priority(current, limit), ConnectedPart(current, limit);
    ConnectedFacts(current, limit);
    PriorityKeys(priority);
    hide Selection, Omitted, Missing, Wanted, NoneHidden, NoneTwice, ConnectedPart, PriorityTable, Priority, Living,
      DirectoryOf;
    forall w | w in Living(current)
      ensures w.identity in ContextKept(current, limit) <==> LivingAbove(current, limit, w)
    {
      LaterKeys(PriorityTable(priority), connected, w.identity);
      KeySetHas(connected, w.identity);
    }
  }

  /** With distinct identities both conditions hold. */
  lemma DistinctCounted(current: seq<Actor>, includeHistory: bool, limit: nat)
    requires limit > 0 && NoneTwice(current)
    ensures var selected := Selection(current, includeHistory, limit);
      Omitted(current, includeHistory, selected) == |Missing(current, includeHistory, selected)|
  {
    LivingDistinct(current);
    OmittedExact(current, includeHistory, limit);
    ConnectedFacts(current, limit);
    PriorityKeys(Priority(current, limit));
    var first, connected := PriorityTable(Priority(current, limit)), ConnectedPart(current, limit);
    hide Selection, Omitted, Missing, ConnectedPart, PriorityTable, Priority;
    forall k | k in ContextKept(current, limit) ensures k !in Identities(Living(current)) {
      LaterKeys(first, connected, k);
      TerminalAlone(current, k);
    }
  }

  lemma TerminalAlone(current: seq<Actor>, k: Identity)
    requires NoneTwice(current) && k in DirectoryOf(current) && Terminal(DirectoryOf(current)[k])
    ensures k !in Identities(Living(current))
  {
    LivingExact(current);
    DirectoryExact(current);
    var t := DirectoryOf(current)[k];
    forall a | a in Living(current) ensures a.identity != k {
      var i :| 0 <= i < |current| && current[i] == a;
      var j :| 0 <= j < |current| && current[j] == t;
    }
  }

  // ------------------------------------------------ where the counter errs

  /** A living worker listed twice has its card and counts as left out. */
  lemma RepeatMiscounted(a: Actor, limit: nat)
    requires limit > 0 && !Terminal(a)
    ensures var selected := Selection([a, a], false, limit);
      Missing([a, a], false, selected) == {} && Omitted([a, a], false, selected) > 0
  {
    var current := [a, a];
    var selected := Selection(current, false, limit);
    assert [a] == [] + [a] && current == [a] + [a];
    OneMore([], a);
    OneMore([a], a);
    OmittedExact(current, false, limit);
    SelectionFacts(current, false, limit);
    assert a in Priority(current, limit);
    KeySetHas(selected, a.identity);
    assert !NoneTwice(Living(current)) by { assert Living(current)[0] == Living(current)[1]; }
    hide Selection, Omitted;
    assert Missing(current, false, selected) == {};
  }

  /** The smallest limit with room beside the priority workers: four of those, the
      fourth below `x`, and `x` both living and retired. */
  ghost function FiveAndRetired(w: seq<Identity>, x: Identity): seq<Actor>
    requires |w| == 4
  {
    [Actor(w[0], None, "running"), Actor(w[1], None, "running"), Actor(w[2], None, "running")]
    + [Actor(w[3], Some(x), "running")] + [Actor(x, None, "running")] + [Actor(x, None, "retired")]
  }

  lemma FiveLive(w: seq<Identity>, x: Identity)
    requires |w| == 4 && x !in w
    ensures var current := FiveAndRetired(w, x);
      && Living(current) == current[..5] && Priority(current, 5) == current[..4]
      && x in DirectoryOf(current) && DirectoryOf(current)[x] == current[5]
  {
    var current := FiveAndRetired(w, x);
    LiveUpTo(current, 5);
    assert current[..5] + [current[5]] == current;
    OneMore(current[..5], current[5]);
  }

  lemma {:induction false} LiveUpTo(actors: seq<Actor>, i: nat)
    requires i <= |actors| && forall j :: 0 <= j < i ==> !Terminal(actors[j])
    ensures Living(actors[..i]) == actors[..i]
  {
    if i > 0 {
      LiveUpTo(actors, i - 1);
      assert actors[..i] == actors[..i - 1] + [actors[i - 1]];
      OneMore(actors[..i - 1], actors[i - 1]);
    }
  }

  lemma {:induction false} NoParentsMeetNone(d: Directory, workers: seq<Actor>)
    requires forall a :: a in workers ==> a.parent.None?
    ensures Met(d, workers) == []
  {
    if workers != [] { NoParentsMeetNone(d, workers[..|workers| - 1]); }
  }

  /** A living worker that gets its card as context counts as left out. */
  lemma ContextMiscounted(w: seq<Identity>, x: Identity)
    requires |w| == 4 && x !in w
    ensures var current := FiveAndRetired(w, x);
      var selected := Selection(current, false, 5);
      Missing(current, false, selected) == {} && Omitted(current, false, selected) > 0
  {
    var current := FiveAndRetired(w, x);
    var selected, d, priority := Selection(current, false, 5), DirectoryOf(current), Priority(current, 5);
    FiveLive(w, x);
    ContextOfFive(w, x);
    OmittedExact(current, false, 5);
    SelectionFacts(current, false, 5);
    SelectionDistinct(current, false, 5);
    GrowsHas(ConnectedPart(current, 5), selected, x);
    hide Selection, Omitted, ConnectedPart, DirectoryOf;
    assert current[4] in Living(current);
    forall a | a in Living(current) ensures a.identity in KeySet(selected) {
      assert a in priority || a.identity == x;
      KeySetHas(selected, a.identity);
    }
    assert Missing(current, false, selected) == {};
  }

  lemma ContextOfFive(w: seq<Identity>, x: Identity)
    requires |w| == 4 && x !in w
    ensures var current := FiveAndRetired(w, x); x in ContextKept(current, 5) && Has(ConnectedPart(current, 5), x)
  {
    var current := FiveAndRetired(w, x);
    var d, priority := DirectoryOf(current), Priority(current, 5);
    FiveLive(w, x);
    MetOfFive(w, x);
    hide FiveAndRetired, DirectoryOf, Met;
    var first := PriorityTable(priority);
    PriorityFacts(priority);
    PriorityKeys(priority);
    ContextKeysExact(d, priority, first);
    OneContext(d, priority, first, x);
    hide PriorityTable, WithContext;
    KeySetHas(ConnectedPart(current, 5), x);
  }

  lemma MetOfFive(w: seq<Identity>, x: Identity)
    requires |w| == 4 && x !in w
    ensures var current := FiveAndRetired(w, x);
      Met(DirectoryOf(current), Priority(current, 5)) == [x] && x !in Identities(Priority(current, 5))
  {
    var current := FiveAndRetired(w, x);
    var d := DirectoryOf(current);
    FiveLive(w, x);
    NoParentsMeetNone(d, current[..3]);
    assert current[..4] == current[..3] + [current[3]];
    MetOneMore(d, current[..3], current[3]);
    hide DirectoryOf, Met, Living;
    assert d[x].parent.None?;
  }

  lemma OneContext(d: Directory, priority: seq<Actor>, first: Selected, x: Identity)
    requires Met(d, priority) == [x] && |first| <= 4
    ensures |WithContext(d, priority, first)| <= 5
  {
    assert Contexts(d, [], KeySet(first)) == [];
  }
}
