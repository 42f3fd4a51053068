/** Parent maps as functional graphs: walks, cycles and depths. */
module FunctionalGraph {
  import opened JsMap
  import opened Sequences

  /** The node `n` parent links above `k`, if the chain is that long. */
  function Walk<K>(p: map<K, K>, k: K, n: nat): Option<K> {
    if n == 0 then Some(k) else if k in p then Walk(p, p[k], n - 1) else None
  }

  ghost predicate Reaches<K>(p: map<K, K>, a: K, b: K) {
    exists n: nat :: Walk(p, a, n) == Some(b)
  }

  ghost predicate OnCycle<K>(p: map<K, K>, k: K) {
    exists n: nat :: n > 0 && Walk(p, k, n) == Some(k)
  }

  ghost predicate ClosedUnder<K>(p: map<K, K>, s: set<K>) {
    forall k :: k in s && k in p ==> p[k] in s
  }

  /** Every node of `s` has a depth: 0 without a parent, else one more than its
      parent, which is in `s` too. */
  ghost predicate HasDepths<K>(p: map<K, K>, s: set<K>, depth: map<K, nat>) {
    && s <= depth.Keys
    && forall k :: k in s ==> if k in p then p[k] in s && depth[k] == depth[p[k]] + 1 else depth[k] == 0
  }

  ghost predicate IsChain<K>(p: map<K, K>, path: seq<K>) {
    forall i :: 0 <= i < |path| - 1 ==> path[i] in p && p[path[i]] == path[i + 1]
  }

  lemma {:induction false} WalkAdd<K>(p: map<K, K>, k: K, m: nat, n: nat)
    requires Walk(p, k, m).Some?
    ensures Walk(p, k, m + n) == Walk(p, Walk(p, k, m).value, n)
  {
    if m > 0 { WalkAdd(p, p[k], m - 1, n); }
  }

  lemma {:induction false} WalkPrefix<K>(p: map<K, K>, k: K, m: nat, n: nat)
    requires m <= n && Walk(p, k, n).Some?
    ensures Walk(p, k, m).Some?
  {
    if m > 0 { WalkPrefix(p, p[k], m - 1, n - 1); }
  }

  lemma {:induction false} WalkClosed<K>(p: map<K, K>, s: set<K>, k: K, n: nat)
    requires ClosedUnder(p, s) && k in s && Walk(p, k, n).Some?
    ensures Walk(p, k, n).value in s
  {
    if n > 0 { WalkClosed(p, s, p[k], n - 1); }
  }

  lemma {:induction false} WalkChain<K>(p: map<K, K>, path: seq<K>, i: nat, j: nat)
    requires IsChain(p, path) && i <= j < |path|
    ensures Walk(p, path[i], j - i) == Some(path[j])
    decreases j - i
  {
    if i < j { WalkChain(p, path, i + 1, j); }
  }

  lemma {:induction false} AroundAgain<K>(p: map<K, K>, k: K, c: nat, times: nat)
    requires Walk(p, k, c) == Some(k)
    ensures Walk(p, k, times * c) == Some(k)
  {
    if times > 0 {
      AroundAgain(p, k, c, times - 1);
      assert times * c == (times - 1) * c + c;
      WalkAdd(p, k, (times - 1) * c, c);
    }
  }

  /** A node on a cycle never leaves it: whatever it reaches reaches it back. */
  lemma CycleReachesBack<K>(p: map<K, K>, a: K, b: K)
    requires OnCycle(p, a) && Reaches(p, a, b)
    ensures Reaches(p, b, a)
  {
    var c: nat :| c > 0 && Walk(p, a, c) == Some(a);
    var n: nat :| Walk(p, a, n) == Some(b);
    AroundAgain(p, a, c, n);
    assert n <= n * c;
    WalkAdd(p, a, n, n * c - n);
    assert Walk(p, b, n * c - n) == Some(a);
  }

  /** Only nodes inside a closed set can lie on a cycle that enters it. */
  lemma OutsideClosedSet<K>(p: map<K, K>, s: set<K>, k: K, n: nat)
    requires ClosedUnder(p, s) && k !in s
    requires Walk(p, k, n).Some? ==> Walk(p, k, n).value in s
    ensures !OnCycle(p, k)
  {
    if OnCycle(p, k) {
      var c: nat :| c > 0 && Walk(p, k, c) == Some(k);
      AroundAgain(p, k, c, n);
      assert n <= n * c;
      WalkPrefix(p, k, n, n * c);
      WalkAdd(p, k, n, n * c - n);
      WalkClosed(p, s, Walk(p, k, n).value, n * c - n);
    }
  }

  /** A chain whose last link returns to position `e` closes a cycle there. */
  lemma ChainCycle<K>(p: map<K, K>, path: seq<K>, e: nat, i: nat)
    requires IsChain(p, path) && e <= i < |path|
    requires path[|path| - 1] in p && p[path[|path| - 1]] == path[e]
    ensures OnCycle(p, path[i])
  {
    var m := |path| - 1;
    WalkChain(p, path, i, m);
    WalkChain(p, path, e, i);
    WalkAdd(p, path[i], m - i, 1 + (i - e));
    assert Walk(p, path[m], 1 + (i - e)) == Walk(p, path[e], i - e);
    assert Walk(p, path[i], m - e + 1) == Some(path[i]);
  }

  lemma LoopClosed<K>(p: map<K, K>, path: seq<K>, e: nat)
    requires IsChain(p, path) && e < |path| && path[|path| - 1] in p && p[path[|path| - 1]] == path[e]
    ensures ClosedUnder(p, Elements(path[e..]))
  {
    var loop := path[e..];
    forall k | k in loop && k in p ensures p[k] in loop {
      var i :| 0 <= i < |loop| && loop[i] == k;
      assert k == path[e + i];
      assert p[k] == if i + 1 < |loop| then loop[i + 1] else loop[0];
    }
  }

  lemma {:induction false} WalkDepth<K>(p: map<K, K>, s: set<K>, depth: map<K, nat>, k: K, n: nat)
    requires HasDepths(p, s, depth) && k in s
    ensures Walk(p, k, n).Some? <==> n <= depth[k]
    ensures Walk(p, k, n).Some? ==> Walk(p, k, n).value in s && depth[Walk(p, k, n).value] == depth[k] - n
  {
    if n > 0 && k in p { WalkDepth(p, s, depth, p[k], n - 1); }
  }

  lemma DepthsAcyclic<K>(p: map<K, K>, s: set<K>, depth: map<K, nat>, k: K)
    requires HasDepths(p, s, depth) && k in s
    ensures !OnCycle(p, k)
  {
    forall n: nat | n > 0 ensures Walk(p, k, n) != Some(k) {
      WalkDepth(p, s, depth, k, n);
    }
  }

  // ------------------------------------------------- removing some edges

  /** If the removed edges leave no cycle, each cycle contained one of them. */
  lemma EveryCycleCut<K>(p: map<K, K>, removed: set<K>, k: K)
    requires OnCycle(p, k) && !OnCycle(p - removed, k)
    ensures exists r :: r in removed && Reaches(p, k, r)
  {
    var c: nat :| c > 0 && Walk(p, k, c) == Some(k);
    if forall r :: r in removed ==> !Reaches(p, k, r) {
      WalkUncut(p, removed, k, c);
    }
  }

  lemma ReachesStep<K>(p: map<K, K>, k: K, r: K)
    requires k in p
    ensures Reaches(p, p[k], r) ==> Reaches(p, k, r)
  {
    if Reaches(p, p[k], r) {
      var j: nat :| Walk(p, p[k], j) == Some(r);
      assert Walk(p, k, j + 1) == Some(r);
    }
  }

  lemma {:induction false} WalkUncut<K>(p: map<K, K>, removed: set<K>, k: K, n: nat)
    requires forall r :: r in removed ==> !Reaches(p, k, r)
    requires Walk(p, k, n).Some?
    ensures Walk(p - removed, k, n) == Walk(p, k, n)
  {
    if n > 0 {
      assert Walk(p, k, 0) == Some(k);
      forall r | r in removed ensures !Reaches(p, p[k], r) {
        ReachesStep(p, k, r);
      }
      WalkUncut(p, removed, p[k], n - 1);
    }
  }
}
