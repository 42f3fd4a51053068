/** Breadth-first levels of the worker forest (web/src/active-worker-tree.ts). */
module WorkerLevels {
  import opened FunctionalGraph
  import opened Sequences
  import opened ParentForest

  // --------------------------------------------------------- generations

  /** The children of each key in turn. */
  function Kids<K(==)>(selected: seq<K>, p: map<K, K>, keys: seq<K>): seq<K> {
    if keys == [] then []
    else Kids(selected, p, keys[..|keys| - 1]) + ChildrenOf(selected, p, keys[|keys| - 1])
  }

  /** The roots, then the children of each generation, both in selection order. */
  function Generation<K(==)>(selected: seq<K>, p: map<K, K>, d: nat): seq<K> {
    if d == 0 then RootsOf(selected, p) else Kids(selected, p, Generation(selected, p, d - 1))
  }

  // -------------------------------------------------- breadth-first pass

  /** What the queue order keeps: keys once, each behind its visited parent; and
      every root and everything below a visited key is queued. */
  ghost predicate Sweep<K>(selected: seq<K>, p: map<K, K>, order: seq<K>, visited: seq<K>) {
    && visited <= order
    && order == RootsOf(selected, p) + Kids(selected, p, visited)
    && Distinct(order)
    && (forall k :: k in order ==> k in selected)
    && (forall k :: k in order && k in p ==> p[k] in visited)
    && (forall k :: k in selected && k !in p ==> k in order)
    && (forall k :: k in selected && k in p && p[k] in visited ==> k in order)
  }

  lemma SweepStart<K>(selected: seq<K>, p: map<K, K>)
    requires Distinct(selected)
    ensures Sweep(selected, p, RootsOf(selected, p), [])
  {
    RootsExact(selected, p);
  }

  lemma SweepStep<K>(selected: seq<K>, p: map<K, K>, order: seq<K>, visited: seq<K>, k: K, kids: seq<K>)
    requires Distinct(selected) && Sweep(selected, p, order, visited)
    requires |visited| < |order| && k == order[|visited|] && kids == ChildrenOf(selected, p, k)
    ensures Sweep(selected, p, order + kids, visited + [k])
  {
    ChildrenExact(selected, p, k);
    assert k !in visited;
    DistinctAppend(order, kids);
    KidsStep(selected, p, visited, k);
    PrefixGrows(order, kids, visited);
    assert forall x :: x in order + kids <==> x in order || x in kids;
    assert forall x :: x in visited + [k] <==> x in visited || x == k;
  }

  lemma KidsStep<K>(selected: seq<K>, p: map<K, K>, keys: seq<K>, k: K)
    ensures Kids(selected, p, keys + [k]) == Kids(selected, p, keys) + ChildrenOf(selected, p, k)
    ensures forall order :: order + Kids(selected, p, keys + [k])
                         == (order + Kids(selected, p, keys)) + ChildrenOf(selected, p, k)
  {
    assert (keys + [k])[..|keys|] == keys;
  }

  lemma DistinctAppend<K>(a: seq<K>, b: seq<K>)
    requires Distinct(a) && Distinct(b) && forall x :: x in a ==> x !in b
    ensures Distinct(a + b)
  {
    var s := a + b;
    forall i, j | 0 <= i < j < |s| ensures s[i] != s[j] {
      if i < |a| <= j { assert a[i] in a && b[j - |a|] in b; }
    }
  }

  lemma PrefixGrows<K>(order: seq<K>, more: seq<K>, visited: seq<K>)
    requires visited <= order && |visited| < |order|
    ensures visited + [order[|visited|]] <= order + more
  {
  }

  /** By induction on depth, a finished sweep has met every selected key. */
  lemma {:induction false} SweepComplete<K>(selected: seq<K>, p: map<K, K>, depth: map<K, nat>, order: seq<K>, k: K)
    requires HasDepths(p, Elements(selected), depth)
    requires Sweep(selected, p, order, order) && k in selected
    ensures k in order
    decreases depth[k]
  {
    if k in p { SweepComplete(selected, p, depth, order, p[k]); }
  }

  datatype Visit<K> = Visit(key: K, depth: nat)

  /** The queue pairs each key of the order with its depth. */
  ghost predicate Queued<K>(queue: seq<Visit<K>>, order: seq<K>, depth: map<K, nat>) {
    && |queue| == |order|
    && forall i :: 0 <= i < |queue| ==>
         queue[i].key == order[i] && order[i] in depth && queue[i].depth == depth[order[i]]
  }

  function Visits<K>(keys: seq<K>, depth: nat): (v: seq<Visit<K>>)
    ensures |v| == |keys| && forall i :: 0 <= i < |v| ==> v[i] == Visit(keys[i], depth)
  {
    seq(|keys|, i requires 0 <= i < |keys| => Visit(keys[i], depth))
  }

  function LevelOf<K>(order: seq<K>, depth: map<K, nat>, d: nat): seq<K> {
    if order == [] then []
    else
      var last := order[|order| - 1];
      var init := LevelOf(order[..|order| - 1], depth, d);
      if last in depth && depth[last] == d then init + [last] else init
  }

  lemma {:induction false} LevelExact<K>(order: seq<K>, depth: map<K, nat>, d: nat)
    ensures forall k :: k in LevelOf(order, depth, d) ==> k in order && k in depth && depth[k] == d
    ensures forall k :: k in order && k in depth && depth[k] == d ==> k in LevelOf(order, depth, d)
    ensures Distinct(order) ==> Distinct(LevelOf(order, depth, d))
  {
    if order != [] {
      var init, last := order[..|order| - 1], order[|order| - 1];
      LevelExact(init, depth, d);
      assert forall c :: c in order <==> c in init || c == last;
    }
  }

  lemma {:induction false} LevelAppend<K>(a: seq<K>, b: seq<K>, depth: map<K, nat>, d: nat)
    ensures LevelOf(a + b, depth, d) == LevelOf(a, depth, d) + LevelOf(b, depth, d)
    decreases |b|
  {
    if b == [] {
      assert a + b == a;
    } else {
      var init, last := b[..|b| - 1], b[|b| - 1];
      assert (a + b)[..|a + b| - 1] == a + init && (a + b)[|a + b| - 1] == last;
      LevelAppend(a, init, depth, d);
    }
  }

  lemma {:induction false} LevelUniform<K>(keys: seq<K>, depth: map<K, nat>, all: nat, d: nat)
    requires forall i :: 0 <= i < |keys| ==> keys[i] in depth && depth[keys[i]] == all
    ensures LevelOf(keys, depth, d) == if d == all then keys else []
  {
    if keys != [] { LevelUniform(keys[..|keys| - 1], depth, all, d); }
  }

  /** The children at one depth are the children of the keys one above. */
  lemma {:induction false} LevelOfKids<K>(selected: seq<K>, p: map<K, K>, depth: map<K, nat>, keys: seq<K>, d: nat)
    requires HasDepths(p, Elements(selected), depth) && forall k :: k in keys ==> k in selected
    ensures LevelOf(Kids(selected, p, keys), depth, d)
         == if d == 0 then [] else Kids(selected, p, LevelOf(keys, depth, d - 1))
  {
    if keys != [] {
      var init, k := keys[..|keys| - 1], keys[|keys| - 1];
      var kids := ChildrenOf(selected, p, k);
      LevelOfKids(selected, p, depth, init, d);
      LevelAppend(Kids(selected, p, init), kids, depth, d);
      ChildDepths(selected, p, depth, k, kids);
      LevelUniform(kids, depth, depth[k] + 1, d);
      if d > 0 { KidsStep(selected, p, LevelOf(init, depth, d - 1), k); }
    }
  }

  lemma ChildDepths<K>(selected: seq<K>, p: map<K, K>, depth: map<K, nat>, k: K, kids: seq<K>)
    requires HasDepths(p, Elements(selected), depth) && k in selected && kids == ChildrenOf(selected, p, k)
    ensures forall i :: 0 <= i < |kids| ==> kids[i] in depth && depth[kids[i]] == depth[k] + 1
  {
    ChildrenExact(selected, p, k);
    forall i | 0 <= i < |kids| ensures kids[i] in depth && depth[kids[i]] == depth[k] + 1 {
      assert kids[i] in kids && kids[i] in Elements(selected);
    }
  }

  lemma LevelOfOrder<K>(selected: seq<K>, p: map<K, K>, depth: map<K, nat>, order: seq<K>, d: nat)
    requires HasDepths(p, Elements(selected), depth) && Sweep(selected, p, order, order)
    ensures LevelOf(order, depth, d)
         == if d == 0 then RootsOf(selected, p) else Kids(selected, p, LevelOf(order, depth, d - 1))
  {
    var roots, kids := RootsOf(selected, p), Kids(selected, p, order);
    LevelOfKids(selected, p, depth, order, d);
    RootDepths(selected, p, depth, roots);
    hide Sweep, HasDepths, RootsOf, Kids;
    LevelAppend(roots, kids, depth, d);
    LevelUniform(roots, depth, 0, d);
  }

  /** A finished sweep, read level by level, is the generations. */
  lemma {:induction false} LevelIsGeneration<K>(selected: seq<K>, p: map<K, K>, depth: map<K, nat>, order: seq<K>,
                                                d: nat)
    requires HasDepths(p, Elements(selected), depth) && Sweep(selected, p, order, order)
    ensures LevelOf(order, depth, d) == Generation(selected, p, d)
  {
    LevelOfOrder(selected, p, depth, order, d);
    hide Sweep, HasDepths, RootsOf, Kids;
    if d > 0 {
      LevelIsGeneration(selected, p, depth, order, d - 1);
      assert LevelOf(order, depth, d - 1) == Generation(selected, p, d - 1);
    }
  }

  ghost predicate InGenerations<K>(levels: map<nat, seq<K>>, selected: seq<K>, p: map<K, K>) {
    forall d: nat :: Level(levels, d) == Generation(selected, p, d)
  }

  /** Each level lists exactly the keys of its depth, once each. */
  ghost predicate LevelsOf<K(!new)>(levels: map<nat, seq<K>>, depths: map<K, nat>) {
    && (forall d: nat, k :: k in Level(levels, d) <==> k in depths && depths[k] == d)
    && forall d :: d in levels ==> levels[d] != [] && Distinct(levels[d])
  }

  function Level<K>(levels: map<nat, seq<K>>, d: nat): seq<K> {
    if d in levels then levels[d] else []
  }

  lemma RootDepths<K>(selected: seq<K>, p: map<K, K>, depth: map<K, nat>, roots: seq<K>)
    requires HasDepths(p, Elements(selected), depth) && roots == RootsOf(selected, p)
    ensures forall i :: 0 <= i < |roots| ==> roots[i] in depth && depth[roots[i]] == 0
  {
    RootsExact(selected, p);
    forall i | 0 <= i < |roots| ensures roots[i] in depth && depth[roots[i]] == 0 {
      assert roots[i] in roots && roots[i] in Elements(selected);
    }
  }

  ghost predicate LevelsSoFar<K>(levels: map<nat, seq<K>>, depths: map<K, nat>, visited: seq<K>, depth: map<K, nat>) {
    && (forall d: nat :: Level(levels, d) == LevelOf(visited, depth, d))
    && (forall d :: d in levels ==> levels[d] != [])
    && depths.Keys == Elements(visited)
    && (forall k :: k in visited ==> k in depth && depths[k] == depth[k])
  }

  lemma LevelsStep<K>(levels: map<nat, seq<K>>, depths: map<K, nat>, visited: seq<K>, depth: map<K, nat>, k: K)
    requires LevelsSoFar(levels, depths, visited, depth) && k in depth && k !in visited
    ensures LevelsSoFar(levels[depth[k] := Level(levels, depth[k]) + [k]], depths[k := depth[k]], visited + [k], depth)
  {
    var next, levels' := visited + [k], levels[depth[k] := Level(levels, depth[k]) + [k]];
    assert next[..|visited|] == visited && next[|visited|] == k;
    assert forall x :: x in next <==> x in visited || x == k;
    forall d: nat ensures Level(levels', d) == LevelOf(next, depth, d) {
      assert LevelOf(next, depth, d) == if depth[k] == d then LevelOf(visited, depth, d) + [k]
        else LevelOf(visited, depth, d);
      assert Level(levels, d) == LevelOf(visited, depth, d);
    }
  }

  /** What the loop keeps between its queue and its results. */
  ghost predicate Sweeping<K>(selected: seq<K>, p: map<K, K>, depth: map<K, nat>, queue: seq<Visit<K>>,
                              order: seq<K>, visited: seq<K>, depths: map<K, nat>, levels: map<nat, seq<K>>) {
    && Sweep(selected, p, order, visited)
    && Queued(queue, order, depth)
    && LevelsSoFar(levels, depths, visited, depth)
  }

  lemma VisitNext<K>(selected: seq<K>, p: map<K, K>, depth: map<K, nat>, queue: seq<Visit<K>>, order: seq<K>,
                     visited: seq<K>, depths: map<K, nat>, levels: map<nat, seq<K>>, v: Visit<K>, kids: seq<K>)
    requires Distinct(selected) && HasDepths(p, Elements(selected), depth)
    requires Sweeping(selected, p, depth, queue, order, visited, depths, levels)
    requires |visited| < |queue| && v == queue[|visited|] && kids == ChildrenOf(selected, p, v.key)
    ensures v.key in selected && v.key !in visited && v.key !in depths
    ensures Sweeping(selected, p, depth, queue + Visits(kids, v.depth + 1), order + kids, visited + [v.key],
                     depths[v.key := v.depth], levels[v.depth := Level(levels, v.depth) + [v.key]])
    ensures Elements(selected) - Elements(visited + [v.key]) < Elements(selected) - Elements(visited)
  {
    assert v.key in order && v.key !in visited && v.depth == depth[v.key];
    SweepStep(selected, p, order, visited, v.key, kids);
    ChildDepths(selected, p, depth, v.key, kids);
    LevelsStep(levels, depths, visited, depth, v.key);
    assert v.key in Elements(selected) - Elements(visited);
    hide Sweep, LevelsSoFar, HasDepths, ChildrenOf, Distinct;
    QueueGrows(queue, order, Visits(kids, v.depth + 1), kids, depth);
  }

  lemma QueueGrows<K>(queue: seq<Visit<K>>, order: seq<K>, more: seq<Visit<K>>, keys: seq<K>, depth: map<K, nat>)
    requires Queued(queue, order, depth) && Queued(more, keys, depth)
    ensures Queued(queue + more, order + keys, depth)
  {
  }

  /** One turn of the loop. The guard against a second visit never fires. */
  method VisitKey<K(==, !new)>(selected: seq<K>, p: map<K, K>, ghost depth: map<K, nat>, children: map<K, seq<K>>,
                               queue: seq<Visit<K>>, ghost order: seq<K>, ghost visited: seq<K>, cursor: nat,
                               depths: map<K, nat>, levels: map<nat, seq<K>>)
    returns (queue': seq<Visit<K>>, ghost order': seq<K>, depths': map<K, nat>, levels': map<nat, seq<K>>)
    requires Distinct(selected) && HasDepths(p, Elements(selected), depth) && ChildrenTable(children, selected, p)
    requires Sweeping(selected, p, depth, queue, order, visited, depths, levels) && |visited| == cursor < |queue|
    ensures Sweeping(selected, p, depth, queue', order', visited + [queue[cursor].key], depths', levels')
    ensures Elements(selected) - Elements(visited + [queue[cursor].key]) < Elements(selected) - Elements(visited)
  {
    queue', order', depths', levels' := queue, order, depths, levels;
    var v := queue[cursor];
    var kids := Listed(children, v.key);
    VisitNext(selected, p, depth, queue, order, visited, depths, levels, v, kids);
    if v.key !in depths {
      depths' := depths[v.key := v.depth];
      levels' := levels[v.depth := Level(levels, v.depth) + [v.key]];
      queue' := queue + Visits(kids, v.depth + 1);
      order' := order + kids;
    }
  }

  /** The pass visits every selected key once. Its depth is one more than its
      parent's, and the levels are the generations of the forest. */
  method BreadthFirst<K(==, !new)>(selected: seq<K>, p: map<K, K>, ghost depth: map<K, nat>)
    returns (depths: map<K, nat>, levels: map<nat, seq<K>>)
    requires Distinct(selected) && HasDepths(p, Elements(selected), depth)
    ensures HasDepths(p, Elements(selected), depths) && depths.Keys == Elements(selected)
    ensures LevelsOf(levels, depths) && InGenerations(levels, selected, p)
  {
    var children, roots := GroupChildren(selected, p);
    depths, levels := map[], map[];
    var queue := Visits(roots, 0);
    var cursor := 0;
    ghost var order, visited: seq<K> := roots, [];
    SweepStart(selected, p);
    RootDepths(selected, p, depth, roots);
    while cursor < |queue|
      invariant |visited| == cursor
      invariant Sweeping(selected, p, depth, queue, order, visited, depths, levels)
      decreases Elements(selected) - Elements(visited)
    {
      ghost var key := queue[cursor].key;
      queue, order, depths, levels :=
        VisitKey(selected, p, depth, children, queue, order, visited, cursor, depths, levels);
      visited := visited + [key];
      cursor := cursor + 1;
    }
    SweepEnd(selected, p, depth, queue, order, visited, depths, levels);
  }

  lemma SweepEnd<K(!new)>(selected: seq<K>, p: map<K, K>, depth: map<K, nat>, queue: seq<Visit<K>>,
                          order: seq<K>, visited: seq<K>, depths: map<K, nat>, levels: map<nat, seq<K>>)
    requires HasDepths(p, Elements(selected), depth)
    requires Sweeping(selected, p, depth, queue, order, visited, depths, levels) && |visited| >= |queue|
    ensures HasDepths(p, Elements(selected), depths) && depths.Keys == Elements(selected)
    ensures LevelsOf(levels, depths) && InGenerations(levels, selected, p)
  {
    assert visited == order;
    SweptLevels(selected, p, depth, depths, levels, order);
  }

  lemma SweptLevels<K(!new)>(selected: seq<K>, p: map<K, K>, depth: map<K, nat>,
                             depths: map<K, nat>, levels: map<nat, seq<K>>, order: seq<K>)
    requires HasDepths(p, Elements(selected), depth) && Sweep(selected, p, order, order)
    requires LevelsSoFar(levels, depths, order, depth)
    ensures HasDepths(p, Elements(selected), depths) && depths.Keys == Elements(selected)
    ensures LevelsOf(levels, depths) && InGenerations(levels, selected, p)
  {
    forall k | k in selected ensures k in order { SweepComplete(selected, p, depth, order, k); }
    assert Elements(order) == Elements(selected);
    forall d: nat
      ensures (forall k :: k in Level(levels, d) <==> k in depths && depths[k] == d) && Distinct(Level(levels, d))
    {
      LevelExact(order, depth, d);
    }
    assert forall d :: d in levels ==> levels[d] == Level(levels, d);
    forall d: nat ensures Level(levels, d) == Generation(selected, p, d) {
      LevelIsGeneration(selected, p, depth, order, d);
    }
  }
}
