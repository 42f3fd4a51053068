/** What the worker layout and the conversation tree both do with parent links:
    follow them up to a repeat, and group keys below their parents
    (web/src/active-worker-tree.ts, web/src/selectors.ts). */
module ParentForest {
  import opened JsMap
  import opened Sequences
  import opened FunctionalGraph

  // ------------------------------------------------------- following links

  /** How following parent links from a start ended. */
  datatype Stop = Ended | Met | Cycle(earlier: nat)

  ghost predicate Traced<K>(p: map<K, K>, settled: set<K>, path: seq<K>, stop: Stop) {
    && path != []
    && IsChain(p, path)
    && Distinct(path)
    && (forall i :: 0 <= i < |path| ==> path[i] !in settled)
    && var last := path[|path| - 1];
       match stop
       case Ended => last !in p
       case Met => last in p && p[last] in settled
       case Cycle(e) => e < |path| && last in p && p[last] == path[e]
  }

  ghost predicate Within<K>(p: map<K, K>, s: set<K>) {
    forall k :: k in p ==> k in s && p[k] in s
  }

  /** The inner loop: collect unsettled keys until the chain ends, meets settled
      work or returns to a key of this very path. */
  method TracePath<K(==)>(p: map<K, K>, s: set<K>, settled: set<K>, start: K)
    returns (path: seq<K>, stop: Stop)
    requires Within(p, s) && start in s && start !in settled
    ensures Traced(p, settled, path, stop)
    ensures path[0] == start && Elements(path) <= s
  {
    path := [];
    stop := Ended;
    var positions: map<K, nat> := map[];
    var key := Some(start);
    while key.Some? && key.value in s && key.value !in settled
      invariant positions.Keys == Elements(path) <= s && Positions(path, positions)
      invariant forall i :: 0 <= i < |path| ==> path[i] !in settled
      invariant IsChain(p, path)
      invariant if path == [] then key == Some(start) else
        path[0] == start && key == (if path[|path| - 1] in p then Some(p[path[|path| - 1]]) else None)
      invariant stop == Ended
      decreases s - positions.Keys
    {
      var k := key.value;
      if k in positions {
        PositionsDistinct(path, positions);
        stop := Cycle(positions[k]);
        return;
      }
      assert k in s - positions.Keys;
      PositionsStep(path, positions, k);
      hide Positions;
      positions := positions[k := |path|];
      path := path + [k];
      key := if k in p then Some(p[k]) else None;
    }
    PositionsDistinct(path, positions);
    if key.Some? { stop := Met; }
  }

  /** Where each key of the path stands. */
  ghost predicate Positions<K>(path: seq<K>, positions: map<K, nat>) {
    && (forall k :: k in positions ==> positions[k] < |path| && path[positions[k]] == k)
    && forall i :: 0 <= i < |path| ==> path[i] in positions && positions[path[i]] == i
  }

  lemma PositionsDistinct<K>(path: seq<K>, positions: map<K, nat>)
    requires Positions(path, positions)
    ensures Distinct(path)
  {
  }

  lemma PositionsStep<K>(path: seq<K>, positions: map<K, nat>, k: K)
    requires Positions(path, positions) && k !in positions
    ensures Positions(path + [k], positions[k := |path|])
    ensures positions[k := |path|].Keys == positions.Keys + {k} && Elements(path + [k]) == Elements(path) + {k}
  {
  }

  // ------------------------------------------------- children and roots

  function ChildrenOf<K(==)>(selected: seq<K>, p: map<K, K>, k: K): seq<K> {
    if selected == [] then []
    else
      var last := selected[|selected| - 1];
      var init := ChildrenOf(selected[..|selected| - 1], p, k);
      if last in p && p[last] == k then init + [last] else init
  }

  function RootsOf<K(==)>(selected: seq<K>, p: map<K, K>): seq<K> {
    if selected == [] then []
    else
      var last := selected[|selected| - 1];
      var init := RootsOf(selected[..|selected| - 1], p);
      if last in p then init else init + [last]
  }

  lemma {:induction false} ChildrenExact<K>(selected: seq<K>, p: map<K, K>, k: K)
    ensures forall c :: c in ChildrenOf(selected, p, k) ==> c in selected && c in p && p[c] == k
    ensures forall c :: c in selected && c in p && p[c] == k ==> c in ChildrenOf(selected, p, k)
    ensures Distinct(selected) ==> Distinct(ChildrenOf(selected, p, k))
  {
    if selected != [] {
      var init, last := selected[..|selected| - 1], selected[|selected| - 1];
      ChildrenExact(init, p, k);
      assert forall c :: c in selected <==> c in init || c == last;
    }
  }

  lemma {:induction false} RootsExact<K>(selected: seq<K>, p: map<K, K>)
    ensures forall c :: c in RootsOf(selected, p) ==> c in selected && c !in p
    ensures forall c :: c in selected && c !in p ==> c in RootsOf(selected, p)
    ensures Distinct(selected) ==> Distinct(RootsOf(selected, p))
  {
    if selected != [] {
      var init, last := selected[..|selected| - 1], selected[|selected| - 1];
      RootsExact(init, p);
      assert forall c :: c in selected <==> c in init || c == last;
    }
  }

  method GroupChildren<K(==, !new)>(selected: seq<K>, p: map<K, K>)
    returns (children: map<K, seq<K>>, roots: seq<K>)
    ensures roots == RootsOf(selected, p)
    ensures ChildrenTable(children, selected, p)
  {
    children, roots := map[], [];
    for i := 0 to |selected|
      invariant roots == RootsOf(selected[..i], p)
      invariant forall k :: Listed(children, k) == ChildrenOf(selected[..i], p, k)
    {
      var key := selected[i];
      assert selected[..i + 1][..i] == selected[..i];
      if key in p {
        children := children[p[key] := Listed(children, p[key]) + [key]];
      } else {
        roots := roots + [key];
      }
    }
    assert selected[..|selected|] == selected;
  }

  ghost predicate ChildrenTable<K(!new)>(children: map<K, seq<K>>, selected: seq<K>, p: map<K, K>) {
    forall k :: Listed(children, k) == ChildrenOf(selected, p, k)
  }

  function Listed<K(==)>(children: map<K, seq<K>>, k: K): seq<K> {
    if k in children then children[k] else []
  }
}
