/** The terminal ancestors that connect a worker to its real parent
    (web/src/active-worker-tree.ts). */
module WorkerAncestors {
  import opened JsMap
  import opened Sequences
  import opened FunctionalGraph
  import opened WorkerDirectory

  // ------------------------------------------------------------ climbing

  /** The keys met from `from` upwards, up to one of `stop` or one the directory
      does not have. */
  function Climb(d: Directory, from: Option<Identity>, stop: set<Identity>): seq<Identity>
    decreases d.Keys - stop
  {
    if from.None? || from.value in stop then []
    else if from.value !in d then [from.value]
    else
      assert from.value in d.Keys - stop;
      [from.value] + Climb(d, d[from.value].parent, stop + {from.value})
  }

  /** The key of `stop`, or met before, at which the climb ends, if it ends so. */
  function ClimbEnd(d: Directory, from: Option<Identity>, stop: set<Identity>): Option<Identity>
    decreases d.Keys - stop
  {
    if from.None? || from.value in stop then from
    else if from.value !in d then None
    else
      assert from.value in d.Keys - stop;
      ClimbEnd(d, d[from.value].parent, stop + {from.value})
  }

  lemma {:induction false} ClimbApart(d: Directory, from: Option<Identity>, stop: set<Identity>)
    ensures Distinct(Climb(d, from, stop)) && Elements(Climb(d, from, stop)) !! stop
    ensures ClimbEnd(d, from, stop).Some? ==> ClimbEnd(d, from, stop).value in stop + Elements(Climb(d, from, stop))
    decreases d.Keys - stop
  {
    if from.Some? && from.value !in stop && from.value in d {
      assert from.value in d.Keys - stop;
      ClimbApart(d, d[from.value].parent, stop + {from.value});
    }
  }

  lemma {:induction false} ClimbReaches(d: Directory, from: Option<Identity>, stop: set<Identity>, k: Identity)
    requires k in Climb(d, from, stop) || ClimbEnd(d, from, stop) == Some(k)
    ensures from.Some? && Reaches(ParentLinks(d), from.value, k)
    decreases d.Keys - stop
  {
    ReachesSelf(d, k);
    if from.Some? && from.value !in stop && from.value in d && from.value != k {
      assert from.value in d.Keys - stop;
      ClimbReaches(d, d[from.value].parent, stop + {from.value}, k);
      ReachesParent(d, from.value);
      ReachesOn(d, from.value, d[from.value].parent.value, k);
    }
  }

  /** Where the parent links of a climb lead: on the climb, or to its end. */
  ghost predicate ClimbClosed(d: Directory, from: Option<Identity>, keys: seq<Identity>, end: Option<Identity>) {
    && (from.Some? ==> from.value in keys || end == from)
    && forall k :: k in keys && k in d && d[k].parent.Some? ==> d[k].parent.value in keys || end == d[k].parent
  }

  lemma {:induction false} ClimbFollows(d: Directory, from: Option<Identity>, stop: set<Identity>)
    ensures ClimbClosed(d, from, Climb(d, from, stop), ClimbEnd(d, from, stop))
    decreases d.Keys - stop
  {
    if from.Some? && from.value !in stop && from.value in d {
      assert from.value in d.Keys - stop;
      ClimbFollows(d, d[from.value].parent, stop + {from.value});
    }
  }

  // ------------------------------------------------------ several workers

  /** The keys met above the workers, each once: a worker's climb ends at itself
      and at what earlier climbs have met. */
  function Met(d: Directory, workers: seq<Actor>): seq<Identity> {
    if workers == [] then []
    else
      var met, last := Met(d, workers[..|workers| - 1]), workers[|workers| - 1];
      met + Climb(d, last.parent, Elements(met) + {last.identity})
  }

  /** The workers whose own climb came back to them. */
  function Returned(d: Directory, workers: seq<Actor>): set<Identity> {
    if workers == [] then {}
    else
      var init, last := workers[..|workers| - 1], workers[|workers| - 1];
      var end := ClimbEnd(d, last.parent, Elements(Met(d, init)) + {last.identity});
      Returned(d, init) + if end == Some(last.identity) then {last.identity} else {}
  }

  lemma MetOneMore(d: Directory, workers: seq<Actor>, a: Actor)
    ensures var met := Met(d, workers);
      Met(d, workers + [a]) == met + Climb(d, a.parent, Elements(met) + {a.identity})
  {
    assert (workers + [a])[..|workers|] == workers;
  }

  lemma {:induction false} MetDistinct(d: Directory, workers: seq<Actor>)
    ensures Distinct(Met(d, workers))
  {
    if workers != [] {
      var met, last := Met(d, workers[..|workers| - 1]), workers[|workers| - 1];
      MetDistinct(d, workers[..|workers| - 1]);
      var more := Climb(d, last.parent, Elements(met) + {last.identity});
      ClimbApart(d, last.parent, Elements(met) + {last.identity});
      forall i, j | 0 <= i < j < |met + more| ensures (met + more)[i] != (met + more)[j] {
        if i < |met| <= j { assert met[i] in Elements(met) && more[j - |met|] in Elements(more); }
      }
    }
  }

  ghost predicate AboveSome(d: Directory, workers: seq<Actor>, k: Identity) {
    exists a :: a in workers && Above(d, a, k)
  }

  lemma {:induction false} MetAbove(d: Directory, workers: seq<Actor>)
    ensures forall k :: k in Met(d, workers) || k in Returned(d, workers) ==> AboveSome(d, workers, k)
    ensures Returned(d, workers) <= Identities(workers)
  {
    if workers != [] {
      var init, last := workers[..|workers| - 1], workers[|workers| - 1];
      var met := Met(d, init);
      var stop := Elements(met) + {last.identity};
      MetAbove(d, init);
      assert last in workers && forall a :: a in init ==> a in workers;
      forall k | k in Met(d, workers) || k in Returned(d, workers) ensures AboveSome(d, workers, k) {
        if k in met || k in Returned(d, init) {
          var a :| a in init && Above(d, a, k);
        } else {
          ClimbReaches(d, last.parent, stop, k);
          assert Above(d, last, k);
        }
      }
    }
  }

  /** Every link from the workers and from what they met leads to what they met,
      or back to one of them. */
  ghost predicate AllFollowed(d: Directory, workers: seq<Actor>, reached: set<Identity>) {
    && (forall a :: a in workers && a.parent.Some? ==> a.parent.value in reached)
    && forall k :: k in Met(d, workers) && k in d && d[k].parent.Some? ==> d[k].parent.value in reached
  }

  function ReachedFrom(d: Directory, workers: seq<Actor>): set<Identity> {
    Elements(Met(d, workers)) + Returned(d, workers)
  }

  lemma {:induction false} MetFollowed(d: Directory, workers: seq<Actor>)
    ensures AllFollowed(d, workers, ReachedFrom(d, workers))
  {
    if workers != [] {
      var init, last := workers[..|workers| - 1], workers[|workers| - 1];
      var met := Met(d, init);
      var stop := Elements(met) + {last.identity};
      MetFollowed(d, init);
      ClimbFollows(d, last.parent, stop);
      ClimbApart(d, last.parent, stop);
      var reached := ReachedFrom(d, workers);
      assert ReachedFrom(d, init) <= reached;
      var end := ClimbEnd(d, last.parent, stop);
      assert end.Some? ==> end.value in reached;
      assert forall k :: k in Climb(d, last.parent, stop) ==> k in reached;
      assert forall a :: a in workers <==> a in init || a == last;
    }
  }

  // --------------------------------------------------------- context cards

  /** The terminal ones of the keys as entries for context, unless known. */
  function Contexts(d: Directory, keys: seq<Identity>, known: set<Identity>): Selected {
    if keys == [] then []
    else
      var init, k := Contexts(d, keys[..|keys| - 1], known), keys[|keys| - 1];
      if k in d && Terminal(d[k]) && k !in known then init + [Entry(k, Chosen(d[k], true))] else init
  }

  lemma {:induction false} ContextsConcat(d: Directory, a: seq<Identity>, b: seq<Identity>, known: set<Identity>)
    ensures Contexts(d, a + b, known) == Contexts(d, a, known) + Contexts(d, b, known)
    decreases |b|
  {
    if b == [] {
      assert a + b == a;
    } else {
      var init := b[..|b| - 1];
      assert (a + b)[..|a + b| - 1] == a + init;
      ContextsConcat(d, a, init, known);
    }
  }

  lemma {:induction false} ContextsKnown(d: Directory, keys: seq<Identity>, known: set<Identity>, more: set<Identity>)
    requires forall k :: k in keys ==> k !in more
    ensures Contexts(d, keys, known + more) == Contexts(d, keys, known)
  {
    if keys != [] { ContextsKnown(d, keys[..|keys| - 1], known, more); }
  }

  /** Exactly the entries: terminal, met and not known before. */
  lemma {:induction false} ContextsExact(d: Directory, keys: seq<Identity>, known: set<Identity>)
    ensures forall k :: k in KeySet(Contexts(d, keys, known)) <==>
      k in keys && k in d && Terminal(d[k]) && k !in known
    ensures forall i :: 0 <= i < |Contexts(d, keys, known)| ==>
      var e := Contexts(d, keys, known)[i]; e.key in d && e.value == Chosen(d[e.key], true)
    ensures Distinct(keys) ==> DistinctKeys(Contexts(d, keys, known))
  {
    if keys != [] {
      var init, last := keys[..|keys| - 1], keys[|keys| - 1];
      ContextsExact(d, init, known);
      var older := Contexts(d, init, known);
      assert forall k :: k in keys <==> k in init || k == last;
      if last in d && Terminal(d[last]) && last !in known {
        var added := [Entry(last, Chosen(d[last], true))];
        KeySetConcat(older, added);
        assert KeysOf(added) == [last] && KeySet(added) == {last};
      }
      if Distinct(keys) {
        assert Distinct(init);
        forall i | 0 <= i < |older| ensures older[i].key != last {
          assert KeysOf(older)[i] == older[i].key && older[i].key in KeySet(older);
        }
      }
    }
  }

  // -------------------------------------------------------------- the loops

  function Take<T>(s: seq<T>, n: nat): seq<T> { if |s| <= n then s else s[..n] }

  lemma TakePrefix<T>(now: seq<T>, rest: seq<T>, n: nat)
    requires |now| == n
    ensures Take(now + rest, n) == now
  {
  }

  /** One turn of a climb that does not end. */
  lemma ClimbOn(d: Directory, climb: seq<Identity>, done: seq<Identity>, key: Identity, stop: set<Identity>)
    requires key in d && key !in stop + Elements(done)
    requires climb == done + Climb(d, Some(key), stop + Elements(done))
    ensures climb == (done + [key]) + Climb(d, d[key].parent, stop + Elements(done + [key]))
    ensures d.Keys - (stop + Elements(done + [key])) < d.Keys - (stop + Elements(done))
  {
    assert Elements(done + [key]) == Elements(done) + {key};
    assert stop + Elements(done + [key]) == stop + Elements(done) + {key};
    assert key in d.Keys - (stop + Elements(done));
  }

  /** What the walk has chosen so far. */
  lemma ContextNext(d: Directory, selected: Selected, done: seq<Identity>, key: Identity)
    requires key !in done && key in d
    ensures var now := selected + Contexts(d, done, KeySet(selected));
      && (Has(now, key) <==> key in KeySet(selected))
      && selected + Contexts(d, done + [key], KeySet(selected)) ==
         if Terminal(d[key]) && !Has(now, key) then now + [Entry(key, Chosen(d[key], true))] else now
  {
    var known := KeySet(selected);
    var now := selected + Contexts(d, done, known);
    assert (done + [key])[..|done|] == done;
    ContextsExact(d, done, known);
    KeySetConcat(selected, Contexts(d, done, known));
    KeySetHas(now, key);
  }

  lemma AppendsNew(selected: Selected, k: Identity, c: Chosen)
    requires DistinctKeys(selected) && !Has(selected, k)
    ensures Set(selected, k, c) == selected + [Entry(k, c)] && DistinctKeys(Set(selected, k, c))
  {
    SetDistinct(selected, k, c);
  }

  lemma AppendsOne(selected: Selected, k: Identity, c: Chosen)
    requires !Has(selected, k)
    ensures |Set(selected, k, c)| == |selected| + 1
  {
  }

  /** What the walk from one worker leaves behind. */
  ghost predicate Walked(d: Directory, start: Actor, selected: Selected, visited: set<Identity>, limit: nat,
                         selected': Selected, visited': set<Identity>) {
    var climb := Climb(d, start.parent, visited + {start.identity});
    var all := selected + Contexts(d, climb, KeySet(selected));
    && selected' == Take(all, limit) && DistinctKeys(selected')
    && (|all| < limit ==> visited' == visited + Elements(climb))
  }

  /** What the loop keeps: `done` has been climbed, and chosen from. */
  ghost predicate Walking(d: Directory, start: Actor, selected: Selected, visited: set<Identity>, limit: nat,
                          selected': Selected, visited': set<Identity>, done: seq<Identity>, next: Option<Identity>) {
    var stop := visited + {start.identity};
    && Climb(d, start.parent, stop) == done + Climb(d, next, stop + Elements(done))
    && selected' == selected + Contexts(d, done, KeySet(selected))
    && |selected'| <= limit && DistinctKeys(selected')
    && visited' == visited + Elements(done)
  }

  lemma WalkEnds(d: Directory, start: Actor, selected: Selected, visited: set<Identity>, limit: nat,
                 selected': Selected, visited': set<Identity>, done: seq<Identity>, next: Option<Identity>)
    requires Walking(d, start, selected, visited, limit, selected', visited', done, next)
    requires next.None? || next.value in visited' + {start.identity}
    ensures Walked(d, start, selected, visited, limit, selected', visited')
  {
    assert next.Some? ==> next.value in visited + {start.identity} + Elements(done);
    assert Climb(d, start.parent, visited + {start.identity}) == done;
  }

  lemma WalkLeaves(d: Directory, start: Actor, selected: Selected, visited: set<Identity>, limit: nat,
                   selected': Selected, visited': set<Identity>, done: seq<Identity>, key: Identity)
    requires Walking(d, start, selected, visited, limit, selected', visited', done, Some(key))
    requires key !in visited' + {start.identity} && key !in d
    ensures Walked(d, start, selected, visited, limit, selected', visited' + {key})
  {
    assert key !in visited + {start.identity} + Elements(done);
    assert Climb(d, start.parent, visited + {start.identity}) == done + [key];
    assert (done + [key])[..|done|] == done;
    assert Elements(done + [key]) == Elements(done) + {key};
  }

  lemma WalkCut(d: Directory, start: Actor, selected: Selected, visited: set<Identity>, limit: nat,
                selected': Selected, visited': set<Identity>, done: seq<Identity>, next: Option<Identity>,
                more: set<Identity>)
    requires Walking(d, start, selected, visited, limit, selected', visited', done, next) && |selected'| >= limit
    ensures Walked(d, start, selected, visited, limit, selected', more)
  {
    var stop, known := visited + {start.identity}, KeySet(selected);
    var rest := Climb(d, next, stop + Elements(done));
    ContextsConcat(d, done, rest, known);
    assert selected + (Contexts(d, done, known) + Contexts(d, rest, known)) == selected' + Contexts(d, rest, known);
  }

  lemma WalkOn(d: Directory, start: Actor, selected: Selected, visited: set<Identity>, limit: nat,
               selected': Selected, visited': set<Identity>, done: seq<Identity>, key: Identity, now: Selected)
    requires Walking(d, start, selected, visited, limit, selected', visited', done, Some(key))
    requires key !in visited' + {start.identity} && key in d
    requires now == if Terminal(d[key]) && !Has(selected', key) then Set(selected', key, Chosen(d[key], true))
      else selected'
    requires |now| <= limit
    ensures Walking(d, start, selected, visited, limit, now, visited' + {key}, done + [key], d[key].parent)
  {
    var stop := visited + {start.identity};
    assert key !in stop + Elements(done);
    ClimbOn(d, Climb(d, start.parent, stop), done, key, stop);
    ContextNext(d, selected, done, key);
    assert Elements(done + [key]) == Elements(done) + {key};
    hide Climb, Contexts;
    if Terminal(d[key]) && !Has(selected', key) { AppendsNew(selected', key, Chosen(d[key], true)); }
  }

  /** The walk from one worker chooses the terminal actors of its climb, in order,
      as far as there is room. Below the limit it has visited the whole climb. */
  method WalkAncestors(d: Directory, start: Actor, selected: Selected, visited: set<Identity>, limit: nat)
    returns (selected': Selected, visited': set<Identity>)
    requires DistinctKeys(selected) && |selected| <= limit
    ensures Walked(d, start, selected, visited, limit, selected', visited')
  {
    selected', visited' := selected, visited;
    var parent := start.parent;
    var seen := {start.identity};
    ghost var done: seq<Identity> := [];
    assert visited + {start.identity} + Elements(done) == visited + {start.identity};
    assert Walking(d, start, selected, visited, limit, selected', visited', done, parent);
    hide Walking, Walked, Set;
    while parent.Some?
      invariant Walking(d, start, selected, visited, limit, selected', visited', done, parent)
      invariant {start.identity} <= seen <= visited' + {start.identity}
      decreases d.Keys - visited'
    {
      var key := parent.value;
      if key in seen { break; }
      seen := seen + {key};
      if key in visited' { break; }
      if key !in d {
        WalkLeaves(d, start, selected, visited, limit, selected', visited', done, key);
        visited' := visited' + {key};
        return;
      }
      assert key in d.Keys - visited';
      ghost var now, before := selected', visited';
      visited' := visited' + {key};
      var actor := d[key];
      if Terminal(actor) && !Has(selected', key) {
        if |selected'| >= limit {
          WalkCut(d, start, selected, visited, limit, selected', before, done, parent, visited');
          return;
        }
        AppendsOne(selected', key, Chosen(actor, true));
        selected' := Set(selected', key, Chosen(actor, true));
      }
      WalkOn(d, start, selected, visited, limit, now, before, done, key, selected');
      done := done + [key];
      if !Has(selected', key) && |selected'| >= limit {
        WalkCut(d, start, selected, visited, limit, selected', visited', done, actor.parent, visited');
        return;
      }
      parent := actor.parent;
    }
    WalkEnds(d, start, selected, visited, limit, selected', visited', done, parent);
  }

  // ------------------------------------------------------- all workers

  /** A selection with the context that the keys give it. */
  function Joined(d: Directory, keys: seq<Identity>, first: Selected): Selected {
    first + Contexts(d, keys, KeySet(first))
  }

  /** A selection with the context of all workers, without a limit. */
  function WithContext(d: Directory, workers: seq<Actor>, first: Selected): Selected {
    Joined(d, Met(d, workers), first)
  }

  lemma MetStep(d: Directory, workers: seq<Actor>, i: nat, met: seq<Identity>)
    requires i < |workers| && met == Met(d, workers[..i])
    ensures var a := workers[i];
      Met(d, workers[..i + 1]) == met + Climb(d, a.parent, Elements(met) + {a.identity})
  {
    assert workers[..i + 1] == workers[..i] + [workers[i]];
    MetOneMore(d, workers[..i], workers[i]);
  }

  lemma JoinedStep(d: Directory, met: seq<Identity>, climb: seq<Identity>, first: Selected)
    requires Elements(climb) !! Elements(met)
    ensures Joined(d, met + climb, first) == Joined(d, climb, Joined(d, met, first))
  {
    var known := KeySet(first);
    var older := Contexts(d, met, known);
    ContextsConcat(d, met, climb, known);
    ContextsExact(d, met, known);
    KeySetConcat(first, older);
    forall k | k in climb ensures k !in KeySet(older) { assert k in Elements(climb); }
    ContextsKnown(d, climb, known, KeySet(older));
    hide KeySet, Contexts;
    assert first + (older + Contexts(d, climb, known)) == (first + older) + Contexts(d, climb, known);
  }

  lemma WalkAdds(d: Directory, start: Actor, met: seq<Identity>, climb: seq<Identity>, first: Selected, limit: nat,
                 selected: Selected, visited: set<Identity>, selected': Selected, visited': set<Identity>)
    requires climb == Climb(d, start.parent, Elements(met) + {start.identity})
    requires selected == Take(Joined(d, met, first), limit)
    requires |Joined(d, met, first)| < limit ==> visited == Elements(met)
    requires Walked(d, start, selected, visited, limit, selected', visited')
    ensures selected' == Take(Joined(d, met + climb, first), limit)
    ensures |Joined(d, met + climb, first)| < limit ==> visited' == Elements(met + climb)
  {
    ClimbApart(d, start.parent, Elements(met) + {start.identity});
    JoinedStep(d, met, climb, first);
    hide Climb, Contexts, KeySet;
    var now := Joined(d, met, first);
    var added := Contexts(d, climb, KeySet(now));
    assert Joined(d, met + climb, first) == now + added;
    assert Elements(met + climb) == Elements(met) + Elements(climb);
    hide Joined, Elements;
    if |now| >= limit {
      TakePrefix(selected, Contexts(d, Climb(d, start.parent, visited + {start.identity}), KeySet(selected)), limit);
      assert now == selected + now[limit..];
      assert now + added == selected + (now[limit..] + added);
      TakePrefix(selected, now[limit..] + added, limit);
    }
  }

  /** All walks together choose the terminal actors met, in order of first meeting,
      as far as there is room: the limit cuts that list and nothing else. */
  method AddAncestors(d: Directory, workers: seq<Actor>, first: Selected, limit: nat) returns (selected: Selected)
    requires DistinctKeys(first) && |first| <= limit
    ensures selected == Take(WithContext(d, workers, first), limit) && DistinctKeys(selected)
  {
    selected := first;
    var visited: set<Identity> := {};
    ghost var met: seq<Identity> := [];
    assert workers[..0] == [];
    assert Joined(d, [], first) == first;
    hide Joined, Met, Walked;
    for i := 0 to |workers|
      invariant met == Met(d, workers[..i])
      invariant selected == Take(Joined(d, met, first), limit) && DistinctKeys(selected)
      invariant |Joined(d, met, first)| < limit ==> visited == Elements(met)
    {
      ghost var before, visitedBefore := selected, visited;
      selected, visited := WalkAncestors(d, workers[i], selected, visited, limit);
      MetStep(d, workers, i, met);
      ghost var climb := Climb(d, workers[i].parent, Elements(met) + {workers[i].identity});
      WalkAdds(d, workers[i], met, climb, first, limit, before, visitedBefore, selected, visited);
      WalkedDistinct(d, workers[i], before, visitedBefore, limit, selected, visited);
      met := met + climb;
    }
    assert workers[..|workers|] == workers;
  }

  lemma WalkedDistinct(d: Directory, start: Actor, selected: Selected, visited: set<Identity>, limit: nat,
                       selected': Selected, visited': set<Identity>)
    requires Walked(d, start, selected, visited, limit, selected', visited')
    ensures DistinctKeys(selected')
  {
  }

  // --------------------------------------- which ancestors this leaves out

  /** Every present terminal ancestor of the given workers is chosen. */
  ghost predicate AncestorsShown(d: Directory, workers: seq<Actor>, selected: Selected) {
    forall a, k :: a in workers && Above(d, a, k) && k in d && Terminal(d[k]) ==> Has(selected, k)
  }

  /** The keys above the directory's own entries for workers whose climb came back
      to them, as far as no climb has met them. */
  function Hidden(d: Directory, workers: seq<Actor>): set<Identity> {
    set b, k | b in Returned(d, workers) && b in d && k in Climb(d, d[b].parent, ReachedFrom(d, workers)) :: k
  }

  /** No terminal actor is hidden that is not among the workers itself. */
  predicate NoneHidden(d: Directory, workers: seq<Actor>) {
    forall k :: k in Hidden(d, workers) && k in d && Terminal(d[k]) ==> k in Identities(workers)
  }

  lemma HiddenAbove(d: Directory, workers: seq<Actor>, k: Identity)
    requires k in Hidden(d, workers)
    ensures AboveSome(d, workers, k) && k !in Met(d, workers)
  {
    var reached := ReachedFrom(d, workers);
    var b :| b in Returned(d, workers) && b in d && k in Climb(d, d[b].parent, reached);
    MetAbove(d, workers);
    var a :| a in workers && Above(d, a, b);
    ClimbReaches(d, d[b].parent, reached, k);
    ReachesParent(d, b);
    ReachesOn(d, b, d[b].parent.value, k);
    ReachesOn(d, a.parent.value, b, k);
    ClimbApart(d, d[b].parent, reached);
    assert k in Elements(Climb(d, d[b].parent, reached));
  }

  /** What the climbs reach, with what they hide, is everything above. */
  lemma HiddenClosed(d: Directory, workers: seq<Actor>)
    ensures ClosedUnder(ParentLinks(d), ReachedFrom(d, workers) + Hidden(d, workers))
  {
    MetFollowed(d, workers);
    var reached, hidden := ReachedFrom(d, workers), Hidden(d, workers);
    hide Met, Returned, Climb, ReachedFrom;
    forall k | k in reached + hidden && k in d && d[k].parent.Some? ensures d[k].parent.value in reached + hidden {
      var next := d[k].parent.value;
      if k in Met(d, workers) {
        assert next in reached;
      } else if k in Returned(d, workers) {
        ClimbFollows(d, d[k].parent, reached);
        ClimbApart(d, d[k].parent, reached);
        assert forall x :: x in Climb(d, d[k].parent, reached) ==> x in hidden;
      } else {
        assert k in hidden by { ReachedParts(d, workers, k); }
        var b :| b in Returned(d, workers) && b in d && k in Climb(d, d[b].parent, reached);
        ClimbFollows(d, d[b].parent, reached);
        ClimbApart(d, d[b].parent, reached);
        assert forall x :: x in Climb(d, d[b].parent, reached) ==> x in hidden;
      }
    }
  }

  lemma ReachedParts(d: Directory, workers: seq<Actor>, k: Identity)
    ensures k in ReachedFrom(d, workers) <==> k in Met(d, workers) || k in Returned(d, workers)
  {
  }

  lemma AboveReached(d: Directory, workers: seq<Actor>, a: Actor, k: Identity)
    requires a in workers && Above(d, a, k)
    ensures k in ReachedFrom(d, workers) + Hidden(d, workers)
  {
    MetFollowed(d, workers);
    HiddenClosed(d, workers);
    var p, all := ParentLinks(d), ReachedFrom(d, workers) + Hidden(d, workers);
    hide Met, Returned, Hidden, ReachedFrom;
    var n: nat :| Walk(p, a.parent.value, n) == Some(k);
    WalkClosed(p, all, a.parent.value, n);
  }

  /** Exactly when the stage chooses every present terminal ancestor: the limit
      leaves room for all the climbs meet, and nothing terminal is hidden. */
  lemma ShownExact(d: Directory, workers: seq<Actor>, first: Selected, limit: nat)
    requires DistinctKeys(first) && KeySet(first) == Identities(workers) && |first| <= limit
    ensures AncestorsShown(d, workers, Take(WithContext(d, workers, first), limit)) <==>
      |WithContext(d, workers, first)| <= limit && NoneHidden(d, workers)
  {
    var all := WithContext(d, workers, first);
    ContextKeysExact(d, workers, first);
    if |all| > limit {
      CutHides(d, workers, first, limit);
    } else if NoneHidden(d, workers) {
      forall a, k | a in workers && Above(d, a, k) && k in d && Terminal(d[k]) ensures Has(all, k) {
        AboveReached(d, workers, a, k);
        ReachedParts(d, workers, k);
        MetAbove(d, workers);
        KeySetHas(all, k);
      }
    } else {
      var k :| k in Hidden(d, workers) && k in d && Terminal(d[k]) && k !in Identities(workers);
      HiddenAbove(d, workers, k);
      KeySetHas(all, k);
    }
  }

  lemma ContextKeysExact(d: Directory, workers: seq<Actor>, first: Selected)
    requires DistinctKeys(first)
    ensures DistinctKeys(WithContext(d, workers, first))
    ensures forall k :: k in KeySet(WithContext(d, workers, first)) <==>
      k in KeySet(first) || (k in Met(d, workers) && k in d && Terminal(d[k]))
  {
    var met, known := Met(d, workers), KeySet(first);
    var added := Contexts(d, met, known);
    MetDistinct(d, workers);
    ContextsExact(d, met, known);
    KeySetConcat(first, added);
    forall i, j | 0 <= i < |first| && 0 <= j < |added| ensures first[i].key != added[j].key {
      assert KeysOf(first)[i] in KeySet(first) && KeysOf(added)[j] in KeySet(added);
    }
  }

  /** An entry for context: the directory's terminal actor above a worker. */
  ghost predicate ContextOf(d: Directory, workers: seq<Actor>, e: Entry<Identity, Chosen>) {
    e.key in d && e.value == Chosen(d[e.key], true) && Terminal(d[e.key]) && AboveSome(d, workers, e.key)
  }

  lemma ContextEntries(d: Directory, workers: seq<Actor>, first: Selected)
    ensures var all := WithContext(d, workers, first);
      first <= all && forall i :: |first| <= i < |all| ==> ContextOf(d, workers, all[i])
  {
    var all, added := WithContext(d, workers, first), Contexts(d, Met(d, workers), KeySet(first));
    MetAbove(d, workers);
    ContextsExact(d, Met(d, workers), KeySet(first));
    forall i | |first| <= i < |all| ensures ContextOf(d, workers, all[i]) {
      var j := i - |first|;
      assert all[i] == added[j] && KeysOf(added)[j] == all[i].key && all[i].key in KeySet(added);
    }
  }

  lemma CutHides(d: Directory, workers: seq<Actor>, first: Selected, limit: nat)
    requires DistinctKeys(first) && |first| <= limit < |WithContext(d, workers, first)|
    ensures !AncestorsShown(d, workers, Take(WithContext(d, workers, first), limit))
  {
    var all := WithContext(d, workers, first);
    var cut, k := Take(all, limit), all[limit].key;
    ContextKeysExact(d, workers, first);
    ContextEntries(d, workers, first);
    hide WithContext;
    var a :| a in workers && Above(d, a, k);
    forall i | 0 <= i < limit ensures cut[i].key != k { assert cut[i] == all[i]; }
  }

  /** The directory gives each worker the parent it names itself. */
  ghost predicate Agreed(d: Directory, workers: seq<Actor>) {
    forall a :: a in workers && a.identity in d ==> d[a.identity].parent == a.parent
  }

  lemma AgreedHidesNone(d: Directory, workers: seq<Actor>)
    requires Agreed(d, workers)
    ensures NoneHidden(d, workers)
  {
    MetAbove(d, workers);
    MetFollowed(d, workers);
    hide Met, Returned, ReachedFrom;
    forall b | b in Returned(d, workers) && b in d ensures Climb(d, d[b].parent, ReachedFrom(d, workers)) == [] {
      var a :| a in workers && a.identity == b;
      assert d[b].parent == a.parent;
    }
  }

  /** With distinct identities the directory gives every actor its own entry. */
  lemma DistinctAgreed(current: seq<Actor>, workers: seq<Actor>)
    requires NoneTwice(current) && forall a :: a in workers ==> a in current
    ensures Agreed(DirectoryOf(current), workers)
  {
    DirectoryExact(current);
    var d := DirectoryOf(current);
    forall a | a in workers && a.identity in d ensures d[a.identity].parent == a.parent {
      var i :| 0 <= i < |current| && current[i] == a;
      var j :| 0 <= j < |current| && current[j] == d[a.identity];
      assert i == j;
    }
  }

  /** So with distinct identities nothing is hidden. */
  lemma DistinctHidesNone(current: seq<Actor>, workers: seq<Actor>)
    requires NoneTwice(current) && forall a :: a in workers ==> a in current
    ensures NoneHidden(DirectoryOf(current), workers)
  {
    DistinctAgreed(current, workers);
    AgreedHidesNone(DirectoryOf(current), workers);
  }
}
