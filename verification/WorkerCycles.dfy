/** Cycle breaking of the worker layout (web/src/active-worker-tree.ts). */
module WorkerCycles {
  import opened JsMap
  import opened Sequences
  import opened FunctionalGraph
  import opened ParentForest

  function PathDepth(len: nat, stop: Stop, base: nat, i: nat): nat
    requires i < len
  {
    match stop
    case Ended => len - 1 - i
    case Met => base + len - i
    case Cycle(e) => if i <= e then e - i else len - i
  }

  function AfterCut<K>(p: map<K, K>, path: seq<K>, stop: Stop): map<K, K>
    requires stop.Cycle? ==> stop.earlier < |path|
  {
    if stop.Cycle? then p - {path[stop.earlier]} else p
  }

  function IndexIn<K(==)>(path: seq<K>, k: K): (i: nat)
    requires k in path
    ensures i < |path| && path[i] == k
  {
    if path[0] == k then 0 else 1 + IndexIn(path[1..], k)
  }

  ghost function Extended<K>(depth: map<K, nat>, path: seq<K>, stop: Stop, base: nat): map<K, nat> {
    depth + map k | k in path :: PathDepth(|path|, stop, base, IndexIn(path, k))
  }

  /** Once the closing edge of a cycle is removed the whole path hangs below a
      root, and every key of it gets its depth. */
  lemma PathGetsDepths<K>(p: map<K, K>, settled: set<K>, depth: map<K, nat>, path: seq<K>, stop: Stop, base: nat)
    requires Traced(p, settled, path, stop) && HasDepths(p, settled, depth)
    requires stop.Met? ==> base == depth[p[path[|path| - 1]]]
    ensures HasDepths(AfterCut(p, path, stop), settled + Elements(path), Extended(depth, path, stop, base))
  {
    var q, d := AfterCut(p, path, stop), Extended(depth, path, stop, base);
    forall i | 0 <= i < |path|
      ensures var k := path[i]; if k in q then q[k] in settled + Elements(path) && d[k] == d[q[k]] + 1 else d[k] == 0
    {
      PathNodeDepth(p, settled, depth, path, stop, base, i);
    }
    assert forall k :: k in settled ==> k !in path && d[k] == depth[k] && (k in q <==> k in p);
  }

  lemma PathNodeDepth<K>(p: map<K, K>, settled: set<K>, depth: map<K, nat>, path: seq<K>, stop: Stop, base: nat, i: nat)
    requires Traced(p, settled, path, stop) && HasDepths(p, settled, depth) && i < |path|
    requires stop.Met? ==> base == depth[p[path[|path| - 1]]]
    ensures var q, d := AfterCut(p, path, stop), Extended(depth, path, stop, base); var k := path[i];
      if k in q then q[k] in settled + Elements(path) && d[k] == d[q[k]] + 1 else d[k] == 0
  {
    var k, d := path[i], Extended(depth, path, stop, base);
    assert k in path && IndexIn(path, k) == i;
    assert d[k] == PathDepth(|path|, stop, base, i);
    if i + 1 < |path| {
      assert path[i + 1] in path && IndexIn(path, path[i + 1]) == i + 1;
    } else if stop.Cycle? {
      assert path[stop.earlier] in path && IndexIn(path, path[stop.earlier]) == stop.earlier;
    } else if stop.Met? {
      assert p[k] !in path;
    }
  }

  /** A root cut on one cycle and a key on a cycle outside the traced path lie on
      different cycles. */
  lemma CyclesApart<K>(p: map<K, K>, path: seq<K>, e: nat, other: K)
    requires IsChain(p, path) && e < |path|
    requires path[|path| - 1] in p && p[path[|path| - 1]] == path[e]
    requires OnCycle(p, other) && other !in path
    ensures !Reaches(p, other, path[e]) && !Reaches(p, path[e], other)
  {
    var loop := Elements(path[e..]);
    assert forall i :: e <= i < |path| ==> path[i] == path[e..][i - e];
    forall k | k in loop ensures k in p && p[k] in loop {
      var i :| e <= i < |path| && path[i] == k;
      assert p[k] == if i + 1 < |path| then path[i + 1] else path[e];
    }
    assert path[e] in loop && other !in loop;
    forall n: nat ensures Walk(p, path[e], n) != Some(other) {
      if Walk(p, path[e], n).Some? { WalkClosed(p, loop, path[e], n); }
    }
    if Reaches(p, other, path[e]) { CycleReachesBack(p, other, path[e]); }
  }

  ghost predicate OnePerCycle<K(!new)>(p: map<K, K>, roots: set<K>) {
    && (forall r :: r in roots ==> OnCycle(p, r))
    && (forall r, t :: r in roots && t in roots && r != t ==> !Reaches(p, r, t))
  }

  lemma AddRoot<K(!new)>(p: map<K, K>, roots: set<K>, settled: set<K>, path: seq<K>, e: nat)
    requires OnePerCycle(p, roots) && roots <= settled
    requires Traced(p - roots, settled, path, Cycle(e))
    ensures OnePerCycle(p, roots + {path[e]})
  {
    assert IsChain(p, path);
    ChainCycle(p, path, e, e);
    forall r | r in roots ensures !Reaches(p, r, path[e]) && !Reaches(p, path[e], r) {
      CyclesApart(p, path, e, r);
    }
  }

  // --------------------------------------------- which edge of a cycle goes

  /** The first node on a cycle that is met above `start`. */
  ghost predicate Enters<K>(p: map<K, K>, start: K, r: K) {
    && OnCycle(p, r)
    && exists n: nat :: Walk(p, start, n) == Some(r) && OutsideBelow(p, start, n)
  }

  ghost predicate OutsideBelow<K>(p: map<K, K>, start: K, n: nat) {
    forall m: nat :: m < n && Walk(p, start, m).Some? ==> !OnCycle(p, Walk(p, start, m).value)
  }

  /** The node at which the first key that leads to its cycle enters it. */
  ghost predicate FirstEntry<K>(selected: seq<K>, p: map<K, K>, r: K) {
    exists i :: 0 <= i < |selected| && Enters(p, selected[i], r) && forall j :: 0 <= j < i ==>
      !Reaches(p, selected[j], r)
  }

  /** A traced path is off every cycle until it enters its own. */
  lemma OutsideLoop<K>(p: map<K, K>, path: seq<K>, e: nat, m: nat)
    requires IsChain(p, path) && Distinct(path) && m < e < |path|
    requires path[|path| - 1] in p && p[path[|path| - 1]] == path[e]
    ensures !OnCycle(p, path[m])
  {
    WalkChain(p, path, m, e);
    LoopClosed(p, path, e);
    var loop := path[e..];
    assert path[e] == loop[0];
    assert forall i :: 0 <= i < |loop| ==> loop[i] == path[e + i];
    hide IsChain, OnCycle, Walk;
    OutsideClosedSet(p, Elements(loop), path[m], e - m);
  }

  lemma PathEnters<K>(p: map<K, K>, path: seq<K>, e: nat)
    requires IsChain(p, path) && Distinct(path) && e < |path|
    requires path[|path| - 1] in p && p[path[|path| - 1]] == path[e]
    ensures Enters(p, path[0], path[e])
  {
    ChainCycle(p, path, e, e);
    WalkChain(p, path, 0, e);
    hide OnCycle, Walk;
    forall m: nat | m < e && Walk(p, path[0], m).Some? ensures !OnCycle(p, Walk(p, path[0], m).value) {
      WalkChain(p, path, 0, m);
      OutsideLoop(p, path, e, m);
    }
    assert OutsideBelow(p, path[0], e);
  }

  lemma TracedEnters<K>(p: map<K, K>, roots: set<K>, settled: set<K>, path: seq<K>, e: nat)
    requires Traced(p - roots, settled, path, Cycle(e))
    ensures Enters(p, path[0], path[e]) && path[e] !in settled
  {
    hide Enters;
    PathEnters(p, path, e);
  }

  /** What the outer loop keeps while it settles keys. */
  ghost predicate Settling<K(!new)>(p: map<K, K>, roots: set<K>, settled: set<K>, depth: map<K, nat>) {
    && roots <= settled && ClosedUnder(p, settled)
    && OnePerCycle(p, roots)
    && HasDepths(p - roots, settled, depth)
  }

  function RootsAfter<K>(roots: set<K>, path: seq<K>, stop: Stop): set<K>
    requires stop.Cycle? ==> stop.earlier < |path|
  {
    if stop.Cycle? then roots + {path[stop.earlier]} else roots
  }

  lemma PathClosed<K>(p: map<K, K>, roots: set<K>, settled: set<K>, path: seq<K>, stop: Stop)
    requires roots <= settled && ClosedUnder(p, settled) && Traced(p - roots, settled, path, stop)
    ensures ClosedUnder(p, settled + Elements(path))
  {
    forall k | k in path && k in p ensures p[k] in settled + Elements(path) {
      var i :| 0 <= i < |path| && path[i] == k;
      if i + 1 < |path| { assert p[k] == path[i + 1]; }
    }
  }

  lemma SettlePath<K(!new)>(p: map<K, K>, roots: set<K>, settled: set<K>, depth: map<K, nat>,
                            path: seq<K>, stop: Stop, base: nat)
    requires Settling(p, roots, settled, depth) && Traced(p - roots, settled, path, stop)
    requires stop.Met? ==> base == depth[(p - roots)[path[|path| - 1]]]
    ensures Settling(p, RootsAfter(roots, path, stop), settled + Elements(path), Extended(depth, path, stop, base))
  {
    PathGetsDepths(p - roots, settled, depth, path, stop, base);
    PathClosed(p, roots, settled, path, stop);
    assert AfterCut(p - roots, path, stop) == p - RootsAfter(roots, path, stop);
    if stop.Cycle? { AddRoot(p, roots, settled, path, stop.earlier); }
  }

  /** One turn of the outer loop: settle everything above `start`. */
  method SettleFrom<K(==, !new)>(ghost p: map<K, K>, s: set<K>, broken: map<K, K>, roots: set<K>,
                                 settled: set<K>, ghost depth: map<K, nat>, start: K)
    returns (broken': map<K, K>, roots': set<K>, settled': set<K>, ghost depth': map<K, nat>)
    requires Within(p, s) && broken == p - roots && Settling(p, roots, settled, depth)
    requires settled <= s && start in s && start !in settled
    ensures broken' == p - roots' && Settling(p, roots', settled', depth')
    ensures settled + {start} <= settled' <= s
    ensures forall r :: r in roots' && r !in roots ==> r !in settled && Enters(p, start, r)
  {
    var path, stop := TracePath(broken, s, settled, start);
    assert stop.Met? ==> broken[path[|path| - 1]] in depth;
    hide Enters, Settling, Traced, Extended;
    if stop.Cycle? { TracedEnters(p, roots, settled, path, stop.earlier); }
    ghost var base := if stop.Met? then depth[broken[path[|path| - 1]]] else 0;
    SettlePath(p, roots, settled, depth, path, stop, base);
    depth' := Extended(depth, path, stop, base);
    broken', roots' := broken, roots;
    if stop.Cycle? {
      broken' := broken - {path[stop.earlier]};
      roots' := roots + {path[stop.earlier]};
    }
    settled' := settled + Elements(path);
    assert path[0] in Elements(path);
  }

  /** Parent links become a forest. The removed edges start at `roots`, exactly
      one of them on each cycle of the parent map and none elsewhere: the node at
      which the first key that leads to the cycle enters it. */
  method BreakCycles<K(==, !new)>(selected: seq<K>, parentKeys: map<K, K>)
    returns (broken: map<K, K>, roots: set<K>, ghost depth: map<K, nat>)
    requires Within(parentKeys, Elements(selected))
    ensures broken == parentKeys - roots
    ensures OnePerCycle(parentKeys, roots)
    ensures forall k :: OnCycle(parentKeys, k) ==> exists r :: r in roots && Reaches(parentKeys, k, r)
    ensures HasDepths(broken, Elements(selected), depth)
    ensures forall r :: r in roots ==> FirstEntry(selected, parentKeys, r)
  {
    broken, roots, depth := parentKeys, {}, map[];
    var settled: set<K> := {};
    SettlingStart(parentKeys);
    hide Settling, HasDepths, FirstEntry;
    for i := 0 to |selected|
      invariant settled <= Elements(selected)
      invariant forall j :: 0 <= j < i ==> selected[j] in settled
      invariant broken == parentKeys - roots
      invariant Settling(parentKeys, roots, settled, depth)
      invariant forall r :: r in roots ==> FirstEntry(selected, parentKeys, r)
    {
      if selected[i] !in settled {
        ghost var before, done := roots, settled;
        assert ClosedUnder(parentKeys, settled) by { SettledClosed(parentKeys, roots, settled, depth); }
        broken, roots, settled, depth :=
          SettleFrom(parentKeys, Elements(selected), broken, roots, settled, depth, selected[i]);
        forall r | r in roots && r !in before ensures FirstEntry(selected, parentKeys, r) {
          EntryIsFirst(selected, parentKeys, done, i, r);
        }
      }
    }
    assert settled == Elements(selected);
    SettlingEnd(parentKeys, roots, settled, depth);
  }

  lemma SettledClosed<K(!new)>(p: map<K, K>, roots: set<K>, settled: set<K>, depth: map<K, nat>)
    requires Settling(p, roots, settled, depth)
    ensures ClosedUnder(p, settled)
  {
  }

  lemma EntryIsFirst<K>(selected: seq<K>, p: map<K, K>, settled: set<K>, i: nat, r: K)
    requires ClosedUnder(p, settled) && i < |selected| && Enters(p, selected[i], r) && r !in settled
    requires forall j :: 0 <= j < i ==> selected[j] in settled
    ensures FirstEntry(selected, p, r)
  {
    forall j | 0 <= j < i ensures !Reaches(p, selected[j], r) {
      forall n: nat ensures Walk(p, selected[j], n) != Some(r) {
        if Walk(p, selected[j], n).Some? { WalkClosed(p, settled, selected[j], n); }
      }
    }
  }

  lemma SettlingStart<K(!new)>(p: map<K, K>)
    ensures p - {} == p && Settling(p, {}, {}, map[])
  {
  }

  lemma SettlingEnd<K(!new)>(p: map<K, K>, roots: set<K>, s: set<K>, depth: map<K, nat>)
    requires Within(p, s) && Settling(p, roots, s, depth)
    ensures OnePerCycle(p, roots) && HasDepths(p - roots, s, depth)
    ensures forall k :: OnCycle(p, k) ==> exists r :: r in roots && Reaches(p, k, r)
  {
    CutsReachedFromCycles(p, roots, s, depth);
  }

  lemma CutsReachedFromCycles<K(!new)>(p: map<K, K>, roots: set<K>, s: set<K>, depth: map<K, nat>)
    requires Within(p, s) && HasDepths(p - roots, s, depth)
    ensures forall k :: OnCycle(p, k) ==> exists r :: r in roots && Reaches(p, k, r)
  {
    forall k | OnCycle(p, k) ensures exists r :: r in roots && Reaches(p, k, r) {
      assert k in s;
      DepthsAcyclic(p - roots, s, depth, k);
      EveryCycleCut(p, roots, k);
    }
  }
}
