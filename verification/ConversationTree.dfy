/** Stable pre-order of conversations, with cycles (web/src/selectors.ts). */
module ConversationTree {
  import opened JsMap
  import opened FunctionalGraph
  import opened Sequences
  import opened ParentForest

  type Id = string

  // -------------------------------------------------------- cycle marks

  /** Exactly the part of a traced path from the repeated key on is cyclic. */
  lemma PathMarks(p: map<Id, Id>, settled: set<Id>, path: seq<Id>, stop: Stop, i: nat)
    requires Traced(p, settled, path, stop) && ClosedUnder(p, settled) && i < |path|
    ensures OnCycle(p, path[i]) <==> stop.Cycle? && stop.earlier <= i
  {
    var m := |path| - 1;
    if stop.Cycle? && stop.earlier <= i {
      ChainCycle(p, path, stop.earlier, i);
    } else if stop.Cycle? {
      var e := stop.earlier;
      var loop := Elements(path[e..]);
      LoopClosed(p, path, e);
      WalkChain(p, path, i, e);
      assert path[e] == path[e..][0] && path[i] !in loop;
      OutsideClosedSet(p, loop, path[i], e - i);
    } else {
      WalkChain(p, path, i, m);
      WalkAdd(p, path[i], m - i, 1);
      OutsideClosedSet(p, settled, path[i], m - i + 1);
    }
  }

  ghost function Cyclic(p: map<Id, Id>, s: set<Id>): set<Id> { set k | k in s && OnCycle(p, k) }

  function Looped(path: seq<Id>, stop: Stop): set<Id>
    requires stop.Cycle? ==> stop.earlier < |path|
  {
    if stop.Cycle? then Elements(path[stop.earlier..]) else {}
  }

  lemma MarksGrow(p: map<Id, Id>, settled: set<Id>, path: seq<Id>, stop: Stop)
    requires Traced(p, settled, path, stop) && ClosedUnder(p, settled)
    ensures Cyclic(p, settled + Elements(path)) == Cyclic(p, settled) + Looped(path, stop)
    ensures ClosedUnder(p, settled + Elements(path))
  {
    forall i | 0 <= i < |path| ensures OnCycle(p, path[i]) <==> path[i] in Looped(path, stop) {
      PathMarks(p, settled, path, stop, i);
      if stop.Cycle? {
        var e := stop.earlier;
        assert e <= i ==> path[i] == path[e..][i - e];
        assert forall j :: 0 <= j < |path| - e ==> path[e..][j] == path[e + j];
      }
    }
    assert Looped(path, stop) <= Elements(path);
    forall i | 0 <= i < |path| && path[i] in p ensures p[path[i]] in settled + Elements(path) {
      assert i + 1 < |path| ==> p[path[i]] == path[i + 1];
    }
  }

  /** The loop that fills `cyclic` marks the nodes on parent cycles, no others. */
  method MarkCycles(ids: seq<Id>, p: map<Id, Id>) returns (cyclic: set<Id>)
    requires Within(p, Elements(ids))
    ensures cyclic == Cyclic(p, Elements(ids))
  {
    cyclic := {};
    var complete: set<Id> := {};
    for i := 0 to |ids|
      invariant complete <= Elements(ids) && ClosedUnder(p, complete)
      invariant forall j :: 0 <= j < i ==> ids[j] in complete
      invariant cyclic == Cyclic(p, complete)
    {
      if ids[i] !in complete {
        var path, stop := TracePath(p, Elements(ids), complete, ids[i]);
        MarksGrow(p, complete, path, stop);
        cyclic := cyclic + Looped(path, stop);
        complete := complete + Elements(path);
        assert path[0] in Elements(path);
      }
    }
    assert complete == Elements(ids);
  }

  /** Following parents always ends at a node without a parent or on a cycle. */
  lemma {:induction false} EventuallyStops(p: map<Id, Id>, s: set<Id>, path: seq<Id>) returns (n: nat, stop: Id)
    requires Within(p, s) && IsChain(p, path) && path != [] && Elements(path) <= s && Distinct(path)
    ensures Walk(p, path[0], n) == Some(stop) && (stop !in p || OnCycle(p, stop))
    decreases s - Elements(path)
  {
    var last := path[|path| - 1];
    if last !in p {
      WalkChain(p, path, 0, |path| - 1);
      n, stop := |path| - 1, last;
    } else if p[last] in path {
      var e :| 0 <= e < |path| && path[e] == p[last];
      ChainCycle(p, path, e, e);
      WalkChain(p, path, 0, e);
      n, stop := e, path[e];
    } else {
      assert p[last] in s - Elements(path);
      n, stop := EventuallyStops(p, s, path + [p[last]]);
    }
  }

  // ------------------------------------------------ the iterative append

  datatype Item = Item(id: Id, depth: nat)

  datatype Lineage = Root | Child | Orphan | Cyclical

  datatype Row = Row(id: Id, depth: nat, lineage: Lineage)

  /** Where each emitted id stands. */
  ghost predicate Placed(rows: seq<Row>, at: map<Id, nat>) {
    && (forall i :: 0 <= i < |rows| ==> rows[i].id in at && at[rows[i].id] == i)
    && (forall k :: k in at ==> at[k] < |rows| && rows[at[k]].id == k)
  }

  /** The parent's row precedes, one level up, and everything from it to `end`
      is deeper than it: `end` is still inside the parent's block. */
  ghost predicate InBlockOf(p: map<Id, Id>, rows: seq<Row>, at: map<Id, nat>, id: Id, depth: nat, end: nat) {
    && id in p && p[id] in at && at[p[id]] < end <= |rows|
    && rows[at[p[id]]].depth + 1 == depth
    && forall m :: at[p[id]] < m < end ==> rows[m].depth >= depth
  }

  ghost predicate RowsNested(p: map<Id, Id>, rows: seq<Row>, at: map<Id, nat>) {
    forall j :: 0 <= j < |rows| && rows[j].depth > 0 ==> InBlockOf(p, rows, at, rows[j].id, rows[j].depth, j)
  }

  ghost predicate StackReady(p: map<Id, Id>, ids: seq<Id>, rows: seq<Row>, at: map<Id, nat>, stack: seq<Item>) {
    && (forall i :: 0 <= i < |stack| ==> stack[i].id in ids)
    && (forall i :: 0 <= i < |stack| && stack[i].depth > 0 ==>
         InBlockOf(p, rows, at, stack[i].id, stack[i].depth, |rows|))
    && (forall i, j :: 0 <= i < j < |stack| ==> stack[i].depth <= stack[j].depth)
  }

  ghost predicate Waiting(stack: seq<Item>, k: Id) {
    exists i :: 0 <= i < |stack| && stack[i].id == k
  }

  /** Everything below an emitted row is emitted or waits on the stack. */
  ghost predicate NothingLost(p: map<Id, Id>, ids: seq<Id>, at: map<Id, nat>, stack: seq<Item>) {
    forall k :: k in ids && k in p && p[k] in at ==> k in at || Waiting(stack, k)
  }

  ghost predicate Emitting(p: map<Id, Id>, ids: seq<Id>, rows: seq<Row>, at: map<Id, nat>, stack: seq<Item>) {
    && Placed(rows, at)
    && at.Keys <= Elements(ids)
    && RowsNested(p, rows, at)
    && StackReady(p, ids, rows, at, stack)
    && NothingLost(p, ids, at, stack)
  }

  function Reversed(kids: seq<Id>, depth: nat): (items: seq<Item>)
    ensures |items| == |kids|
    ensures forall i :: 0 <= i < |items| ==> items[i] == Item(kids[|kids| - 1 - i], depth)
  {
    seq(|kids|, i requires 0 <= i < |kids| => Item(kids[|kids| - 1 - i], depth))
  }

  lemma PopVisited(p: map<Id, Id>, ids: seq<Id>, rows: seq<Row>, at: map<Id, nat>, stack: seq<Item>)
    requires Emitting(p, ids, rows, at, stack) && stack != [] && stack[|stack| - 1].id in at
    ensures Emitting(p, ids, rows, at, stack[..|stack| - 1])
  {
    var rest, top := stack[..|stack| - 1], stack[|stack| - 1];
    forall k | k in ids && k in p && p[k] in at && k !in at ensures Waiting(rest, k) {
      var i :| 0 <= i < |stack| && stack[i].id == k;
      assert rest[i].id == k;
    }
  }

  /** Emitting a row keeps every other block open or closed as it was. */
  lemma BlockKept(p: map<Id, Id>, rows: seq<Row>, at: map<Id, nat>, row: Row, id: Id, depth: nat, end: nat)
    requires Placed(rows, at) && row.id !in at && InBlockOf(p, rows, at, id, depth, end)
    ensures InBlockOf(p, rows + [row], at[row.id := |rows|], id, depth, end)
    ensures end == |rows| && row.depth >= depth ==>
      InBlockOf(p, rows + [row], at[row.id := |rows|], id, depth, end + 1)
  {
  }

  lemma EmitPlaced(rows: seq<Row>, at: map<Id, nat>, row: Row)
    requires Placed(rows, at) && row.id !in at
    ensures Placed(rows + [row], at[row.id := |rows|])
  {
  }

  lemma EmitNested(p: map<Id, Id>, rows: seq<Row>, at: map<Id, nat>, row: Row)
    requires Placed(rows, at) && row.id !in at && RowsNested(p, rows, at)
    requires row.depth > 0 ==> InBlockOf(p, rows, at, row.id, row.depth, |rows|)
    ensures RowsNested(p, rows + [row], at[row.id := |rows|])
  {
    var next, at' := rows + [row], at[row.id := |rows|];
    forall j | 0 <= j < |next| && next[j].depth > 0 ensures InBlockOf(p, next, at', next[j].id, next[j].depth, j) {
      BlockKept(p, rows, at, row, next[j].id, next[j].depth, j);
    }
  }

  lemma EmitStack(p: map<Id, Id>, ids: seq<Id>, rows: seq<Row>, at: map<Id, nat>, stack: seq<Item>, row: Row)
    requires Placed(rows, at) && StackReady(p, ids, rows, at, stack) && stack != []
    requires var top := stack[|stack| - 1]; row.id == top.id && row.depth == top.depth && top.id !in at
    ensures var kids := ChildrenOf(ids, p, row.id);
      StackReady(p, ids, rows + [row], at[row.id := |rows|], stack[..|stack| - 1] + Reversed(kids, row.depth + 1))
  {
    var kids := ChildrenOf(ids, p, row.id);
    var rest, more := stack[..|stack| - 1], Reversed(kids, row.depth + 1);
    var next, at', stack' := rows + [row], at[row.id := |rows|], rest + more;
    ChildrenExact(ids, p, row.id);
    forall i | 0 <= i < |more| ensures more[i].id in ids && InBlockOf(p, next, at', more[i].id, more[i].depth, |next|) {
      assert more[i].id in kids;
    }
    forall i | 0 <= i < |rest| && rest[i].depth > 0 ensures InBlockOf(p, next, at', rest[i].id, rest[i].depth, |next|) {
      BlockKept(p, rows, at, row, rest[i].id, rest[i].depth, |rows|);
    }
  }

  lemma EmitKeepsAll(p: map<Id, Id>, ids: seq<Id>, at: map<Id, nat>, stack: seq<Item>, id: Id, place: nat, depth: nat)
    requires NothingLost(p, ids, at, stack) && stack != [] && stack[|stack| - 1].id == id
    ensures NothingLost(p, ids, at[id := place], stack[..|stack| - 1] + Reversed(ChildrenOf(ids, p, id), depth))
  {
    var kids := ChildrenOf(ids, p, id);
    var rest, more := stack[..|stack| - 1], Reversed(kids, depth);
    var stack' := rest + more;
    ChildrenExact(ids, p, id);
    forall k | k in ids && k in p && p[k] in at[id := place] && k !in at[id := place] ensures Waiting(stack', k) {
      if p[k] == id {
        assert k in kids;
        var i :| 0 <= i < |kids| && kids[i] == k;
        assert more[|kids| - 1 - i].id == k;
        assert stack'[|rest| + (|kids| - 1 - i)].id == k;
      } else {
        var i :| 0 <= i < |stack| && stack[i].id == k;
        assert stack'[i].id == k;
      }
    }
  }

  lemma EmitTop(p: map<Id, Id>, ids: seq<Id>, rows: seq<Row>, at: map<Id, nat>, stack: seq<Item>, row: Row)
    requires Emitting(p, ids, rows, at, stack) && stack != []
    requires var top := stack[|stack| - 1]; row.id == top.id && row.depth == top.depth && top.id !in at
    ensures Emitting(p, ids, rows + [row], at[row.id := |rows|],
                     stack[..|stack| - 1] + Reversed(ChildrenOf(ids, p, row.id), row.depth + 1))
  {
    EmitPlaced(rows, at, row);
    EmitNested(p, rows, at, row);
    EmitStack(p, ids, rows, at, stack, row);
    EmitKeepsAll(p, ids, at, stack, row.id, |rows|, row.depth + 1);
  }

  // -------------------------------------------------- siblings in order

  predicate Siblings(p: map<Id, Id>, a: Id, b: Id) { a in p && b in p && p[a] == p[b] }

  ghost predicate Before(ids: seq<Id>, a: Id, b: Id) {
    exists i, j :: 0 <= i < j < |ids| && ids[i] == a && ids[j] == b
  }

  ghost predicate RowsOrdered(p: map<Id, Id>, ids: seq<Id>, rows: seq<Row>) {
    forall i, j :: 0 <= i < j < |rows| && rows[i].depth > 0 && rows[j].depth > 0 && Siblings(p, rows[i].id, rows[j].id)
      ==> Before(ids, rows[i].id, rows[j].id)
  }

  ghost predicate RowsBeforeStack(p: map<Id, Id>, ids: seq<Id>, rows: seq<Row>, stack: seq<Item>) {
    forall i, j ::
      (0 <= i < |rows| && 0 <= j < |stack| && rows[i].depth > 0 && stack[j].depth > 0
       && Siblings(p, rows[i].id, stack[j].id))
      ==> Before(ids, rows[i].id, stack[j].id)
  }

  ghost predicate StackOrdered(p: map<Id, Id>, ids: seq<Id>, stack: seq<Item>) {
    forall i, j ::
      0 <= i < j < |stack| && stack[i].depth > 0 && stack[j].depth > 0 && Siblings(p, stack[i].id, stack[j].id)
      ==> Before(ids, stack[j].id, stack[i].id)
  }

  ghost predicate InOrder(p: map<Id, Id>, ids: seq<Id>, rows: seq<Row>, stack: seq<Item>) {
    RowsOrdered(p, ids, rows) && RowsBeforeStack(p, ids, rows, stack) && StackOrdered(p, ids, stack)
  }

  ghost predicate Ascending(ids: seq<Id>, kids: seq<Id>) {
    forall i, j :: 0 <= i < j < |kids| ==> Before(ids, kids[i], kids[j])
  }

  lemma {:induction false} ChildrenOrdered(ids: seq<Id>, p: map<Id, Id>, k: Id)
    ensures Ascending(ids, ChildrenOf(ids, p, k))
  {
    if ids != [] {
      var init, last := ids[..|ids| - 1], ids[|ids| - 1];
      var kids := ChildrenOf(ids, p, k);
      ChildrenOrdered(init, p, k);
      ChildrenExact(init, p, k);
      forall i, j | 0 <= i < j < |kids| ensures Before(ids, kids[i], kids[j]) {
        var older := ChildrenOf(init, p, k);
        if j < |older| {
          assert kids[i] == older[i] && kids[j] == older[j] && Before(init, older[i], older[j]);
          var a, b :| 0 <= a < b < |init| && init[a] == kids[i] && init[b] == kids[j];
          assert ids[a] == kids[i] && ids[b] == kids[j];
        } else {
          assert kids[i] in init;
          var a :| 0 <= a < |init| && init[a] == kids[i];
          assert ids[a] == kids[i] && ids[|ids| - 1] == kids[j];
        }
      }
    }
  }

  lemma {:induction false} RootsOrdered(ids: seq<Id>, p: map<Id, Id>)
    ensures Ascending(ids, RootsOf(ids, p))
  {
    if ids != [] {
      var init, last := ids[..|ids| - 1], ids[|ids| - 1];
      var roots, older := RootsOf(ids, p), RootsOf(init, p);
      RootsOrdered(init, p);
      RootsExact(init, p);
      forall i, j | 0 <= i < j < |roots| ensures Before(ids, roots[i], roots[j]) {
        if j < |older| {
          assert roots[i] == older[i] && roots[j] == older[j] && Before(init, older[i], older[j]);
          var a, b :| 0 <= a < b < |init| && init[a] == roots[i] && init[b] == roots[j];
          assert ids[a] == roots[i] && ids[b] == roots[j];
        } else {
          assert roots[i] in init;
          var a :| 0 <= a < |init| && init[a] == roots[i];
          assert ids[a] == roots[i] && ids[|ids| - 1] == roots[j];
        }
      }
    }
  }

  lemma OrderPop(p: map<Id, Id>, ids: seq<Id>, rows: seq<Row>, stack: seq<Item>)
    requires InOrder(p, ids, rows, stack) && stack != []
    ensures InOrder(p, ids, rows, stack[..|stack| - 1])
  {
  }

  /** Ids whose parent has been emitted cannot be siblings of the new row's kids. */
  lemma NoKidYet(p: map<Id, Id>, rows: seq<Row>, at: map<Id, nat>, id: Id, depth: nat, end: nat, row: Id, kid: Id)
    requires InBlockOf(p, rows, at, id, depth, end) && row !in at && kid in p && p[kid] == row
    ensures !Siblings(p, id, kid)
  {
  }

  lemma OrderEmitRows(p: map<Id, Id>, ids: seq<Id>, rows: seq<Row>, stack: seq<Item>, row: Row)
    requires InOrder(p, ids, rows, stack) && stack != []
    requires row.id == stack[|stack| - 1].id && row.depth == stack[|stack| - 1].depth
    ensures InOrder(p, ids, rows + [row], stack[..|stack| - 1])
  {
    var rest, next, t := stack[..|stack| - 1], rows + [row], |stack| - 1;
    assert forall j :: 0 <= j < |rest| ==> rest[j] == stack[j];
    forall i, j | 0 <= i < j < |next| && next[i].depth > 0 && next[j].depth > 0 && Siblings(p, next[i].id, next[j].id)
      ensures Before(ids, next[i].id, next[j].id)
    {
      if j == |rows| { assert Before(ids, rows[i].id, stack[t].id); }
    }
    forall i, j | 0 <= i < |next| && 0 <= j < |rest| && next[i].depth > 0 && rest[j].depth > 0
      && Siblings(p, next[i].id, rest[j].id) ensures Before(ids, next[i].id, rest[j].id)
    {
      if i == |rows| { assert Siblings(p, stack[j].id, stack[t].id); }
    }
  }

  lemma OrderPush(p: map<Id, Id>, ids: seq<Id>, rows: seq<Row>, rest: seq<Item>, kids: seq<Id>, depth: nat)
    requires InOrder(p, ids, rows, rest)
    requires Ascending(ids, kids)
    requires forall i, k :: 0 <= i < |rows| && rows[i].depth > 0 && k in kids ==> !Siblings(p, rows[i].id, k)
    requires forall i, k :: 0 <= i < |rest| && rest[i].depth > 0 && k in kids ==> !Siblings(p, rest[i].id, k)
    ensures InOrder(p, ids, rows, rest + Reversed(kids, depth))
  {
    var more := Reversed(kids, depth);
    var stack := rest + more;
    assert forall j :: |rest| <= j < |stack| ==> stack[j] == more[j - |rest|] && stack[j].id in kids;
    forall i, j | 0 <= i < j < |stack| && stack[i].depth > 0 && stack[j].depth > 0
      && Siblings(p, stack[i].id, stack[j].id)
      ensures Before(ids, stack[j].id, stack[i].id)
    {
      if i >= |rest| {
        var a, b := |kids| - 1 - (i - |rest|), |kids| - 1 - (j - |rest|);
        assert stack[i].id == kids[a] && stack[j].id == kids[b];
      }
    }
  }

  lemma OrderEmit(p: map<Id, Id>, ids: seq<Id>, rows: seq<Row>, at: map<Id, nat>, stack: seq<Item>, row: Row)
    requires Emitting(p, ids, rows, at, stack) && InOrder(p, ids, rows, stack) && stack != []
    requires var top := stack[|stack| - 1]; row.id == top.id && row.depth == top.depth && top.id !in at
    ensures InOrder(p, ids, rows + [row], stack[..|stack| - 1] + Reversed(ChildrenOf(ids, p, row.id), row.depth + 1))
  {
    var kids, rest, next := ChildrenOf(ids, p, row.id), stack[..|stack| - 1], rows + [row];
    OrderEmitRows(p, ids, rows, stack, row);
    ChildrenOrdered(ids, p, row.id);
    ChildrenExact(ids, p, row.id);
    forall i, k | 0 <= i < |next| && next[i].depth > 0 && k in kids ensures !Siblings(p, next[i].id, k) {
      if i < |rows| {
        NoKidYet(p, rows, at, rows[i].id, rows[i].depth, i, row.id, k);
      } else {
        NoKidYet(p, rows, at, row.id, row.depth, |rows|, row.id, k);
      }
    }
    forall i, k | 0 <= i < |rest| && rest[i].depth > 0 && k in kids ensures !Siblings(p, rest[i].id, k) {
      assert rest[i] == stack[i];
      NoKidYet(p, rows, at, rest[i].id, rest[i].depth, |rows|, row.id, k);
    }
    OrderPush(p, ids, next, rest, kids, row.depth + 1);
  }

  // ------------------------------------------------------ whole ordering

  function LineageOf(cyclic: set<Id>, orphans: set<Id>, id: Id, depth: nat): Lineage {
    if id in cyclic then Cyclical else if id in orphans then Orphan else if depth == 0 then Root else Child
  }

  ghost predicate Labelled(rows: seq<Row>, cyclic: set<Id>, orphans: set<Id>) {
    forall i :: 0 <= i < |rows| ==>
      && (rows[i].lineage.Cyclical? <==> rows[i].id in cyclic)
      && (rows[i].lineage.Orphan? <==> rows[i].id in orphans && rows[i].id !in cyclic)
      && (rows[i].lineage.Root? <==> rows[i].id !in orphans && rows[i].id !in cyclic && rows[i].depth == 0)
  }

  /** A finished stretch of output: nested, ordered, labelled, nothing waiting. */
  ghost predicate Output(p: map<Id, Id>, ids: seq<Id>, cyclic: set<Id>, orphans: set<Id>, rows: seq<Row>,
                         at: map<Id, nat>) {
    Emitting(p, ids, rows, at, []) && InOrder(p, ids, rows, []) && Labelled(rows, cyclic, orphans)
  }

  ghost predicate ZeroOnly(rows: seq<Row>, from: nat, root: Id) {
    forall j :: from <= j < |rows| && rows[j].depth == 0 ==> rows[j].id == root
  }

  lemma StartStack(p: map<Id, Id>, ids: seq<Id>, rows: seq<Row>, at: map<Id, nat>, root: Id)
    requires Emitting(p, ids, rows, at, []) && InOrder(p, ids, rows, []) && root in ids
    ensures Emitting(p, ids, rows, at, [Item(root, 0)]) && InOrder(p, ids, rows, [Item(root, 0)])
  {
    forall k | k in ids && k in p && p[k] in at ensures k in at {
      assert !Waiting([], k);
    }
  }

  /** What the loop of `append` keeps, starting from `before`. */
  ghost predicate Appending(p: map<Id, Id>, ids: seq<Id>, cyclic: set<Id>, orphans: set<Id>, root: Id, before: seq<Row>,
                            rows: seq<Row>, at: map<Id, nat>, stack: seq<Item>) {
    && Emitting(p, ids, rows, at, stack) && InOrder(p, ids, rows, stack)
    && Labelled(rows, cyclic, orphans)
    && before <= rows && ZeroOnly(rows, |before|, root)
    && (forall i :: 0 <= i < |stack| && stack[i].depth == 0 ==> stack[i].id == root)
    && (root in at || stack == [Item(root, 0)])
  }

  lemma AppendingPop(p: map<Id, Id>, ids: seq<Id>, cyclic: set<Id>, orphans: set<Id>, root: Id, before: seq<Row>,
                     rows: seq<Row>, at: map<Id, nat>, stack: seq<Item>)
    requires Appending(p, ids, cyclic, orphans, root, before, rows, at, stack)
    requires stack != [] && stack[|stack| - 1].id in at
    ensures Appending(p, ids, cyclic, orphans, root, before, rows, at, stack[..|stack| - 1])
  {
    hide Emitting, InOrder;
    PopVisited(p, ids, rows, at, stack);
    OrderPop(p, ids, rows, stack);
  }

  lemma AppendingEmit(p: map<Id, Id>, ids: seq<Id>, cyclic: set<Id>, orphans: set<Id>, root: Id, before: seq<Row>,
                      rows: seq<Row>, at: map<Id, nat>, stack: seq<Item>)
    requires Appending(p, ids, cyclic, orphans, root, before, rows, at, stack)
    requires stack != [] && stack[|stack| - 1].id !in at
    ensures var top := stack[|stack| - 1];
      top.id in ids && Appending(p, ids, cyclic, orphans, root, before,
                rows + [Row(top.id, top.depth, LineageOf(cyclic, orphans, top.id, top.depth))], at[top.id := |rows|],
                stack[..|stack| - 1] + Reversed(ChildrenOf(ids, p, top.id), top.depth + 1))
  {
    hide Emitting, InOrder, ChildrenOf;
    var top := stack[|stack| - 1];
    var row := Row(top.id, top.depth, LineageOf(cyclic, orphans, top.id, top.depth));
    EmitTop(p, ids, rows, at, stack, row);
    OrderEmit(p, ids, rows, at, stack, row);
    PrefixKept(before, rows, row);
    TopInside(p, ids, rows, at, stack);
  }

  lemma TopInside(p: map<Id, Id>, ids: seq<Id>, rows: seq<Row>, at: map<Id, nat>, stack: seq<Item>)
    requires Emitting(p, ids, rows, at, stack) && stack != []
    ensures stack[|stack| - 1].id in ids
  {
  }

  lemma PrefixKept(before: seq<Row>, rows: seq<Row>, row: Row)
    requires before <= rows
    ensures before <= rows + [row]
  {
  }

  /** One turn of the loop of `append`. */
  method AppendTop(p: map<Id, Id>, ids: seq<Id>, children: map<Id, seq<Id>>, cyclic: set<Id>, orphans: set<Id>,
                   ghost root: Id, ghost before: seq<Row>, rows: seq<Row>, visited: set<Id>, ghost at: map<Id, nat>,
                   stack: seq<Item>)
    returns (rows': seq<Row>, visited': set<Id>, ghost at': map<Id, nat>, stack': seq<Item>)
    requires ChildrenTable(children, ids, p) && stack != [] && visited == at.Keys
    requires Appending(p, ids, cyclic, orphans, root, before, rows, at, stack)
    ensures Appending(p, ids, cyclic, orphans, root, before, rows', at', stack') && visited <= visited' == at'.Keys
    ensures Elements(ids) - visited' < Elements(ids) - visited || (visited' == visited && |stack'| < |stack|)
  {
    hide Appending, ChildrenOf;
    rows', visited', at' := rows, visited, at;
    var top := stack[|stack| - 1];
    if top.id in visited {
      AppendingPop(p, ids, cyclic, orphans, root, before, rows, at, stack);
      stack' := stack[..|stack| - 1];
    } else {
      AppendingEmit(p, ids, cyclic, orphans, root, before, rows, at, stack);
      assert top.id in Elements(ids) - visited;
      var kids := Listed(children, top.id);
      at' := at[top.id := |rows|];
      visited' := visited + {top.id};
      rows' := rows + [Row(top.id, top.depth, LineageOf(cyclic, orphans, top.id, top.depth))];
      stack' := stack[..|stack| - 1] + Reversed(kids, top.depth + 1);
    }
  }

  lemma AppendingStart(p: map<Id, Id>, ids: seq<Id>, cyclic: set<Id>, orphans: set<Id>, root: Id, rows: seq<Row>,
                       at: map<Id, nat>)
    requires Output(p, ids, cyclic, orphans, rows, at) && root in ids
    ensures Appending(p, ids, cyclic, orphans, root, rows, rows, at, [Item(root, 0)])
  {
    StartStack(p, ids, rows, at, root);
  }

  lemma AppendingEnd(p: map<Id, Id>, ids: seq<Id>, cyclic: set<Id>, orphans: set<Id>, root: Id, before: seq<Row>,
                     rows: seq<Row>, at: map<Id, nat>)
    requires Appending(p, ids, cyclic, orphans, root, before, rows, at, [])
    ensures Output(p, ids, cyclic, orphans, rows, at) && before <= rows && root in at && ZeroOnly(rows, |before|, root)
  {
  }

  method Append(p: map<Id, Id>, ids: seq<Id>, children: map<Id, seq<Id>>, cyclic: set<Id>, orphans: set<Id>,
                root: Id, rows: seq<Row>, visited: set<Id>, ghost at: map<Id, nat>)
    returns (rows': seq<Row>, visited': set<Id>, ghost at': map<Id, nat>)
    requires ChildrenTable(children, ids, p) && root in ids
    requires Output(p, ids, cyclic, orphans, rows, at) && visited == at.Keys
    ensures Output(p, ids, cyclic, orphans, rows', at') && visited' == at'.Keys
    ensures rows <= rows' && visited + {root} <= visited' && ZeroOnly(rows', |rows|, root)
  {
    hide Appending, Output;
    rows', visited', at' := rows, visited, at;
    var stack := [Item(root, 0)];
    AppendingStart(p, ids, cyclic, orphans, root, rows, at);
    while stack != []
      invariant Appending(p, ids, cyclic, orphans, root, rows, rows', at', stack)
      invariant visited <= visited' == at'.Keys
      decreases Elements(ids) - visited', |stack|
    {
      rows', visited', at', stack :=
        AppendTop(p, ids, children, cyclic, orphans, root, rows, rows', visited', at', stack);
    }
    AppendingEnd(p, ids, cyclic, orphans, root, rows, rows', at');
  }

  /** Whatever leads to an emitted node has been emitted. */
  lemma {:induction false} EmittedBelow(p: map<Id, Id>, ids: seq<Id>, at: map<Id, nat>, k: Id, n: nat)
    requires Within(p, Elements(ids)) && NothingLost(p, ids, at, []) && k in ids
    requires Walk(p, k, n).Some? && Walk(p, k, n).value in at
    ensures k in at
    decreases n
  {
    if n > 0 {
      EmittedBelow(p, ids, at, p[k], n - 1);
      assert !Waiting([], k);
    }
  }

  lemma AllEmitted(p: map<Id, Id>, ids: seq<Id>, at: map<Id, nat>)
    requires Within(p, Elements(ids)) && NothingLost(p, ids, at, [])
    requires forall k :: k in ids && (k !in p || OnCycle(p, k)) ==> k in at
    ensures Elements(ids) <= at.Keys
  {
    forall k | k in ids ensures k in at {
      var n, stop := EventuallyStops(p, Elements(ids), [k]);
      assert Walk(p, k, n) == Some(stop);
      assert stop in ids by { if stop !in p { StopInside(p, ids, k, n); } }
      EmittedBelow(p, ids, at, k, n);
    }
  }

  lemma StopInside(p: map<Id, Id>, ids: seq<Id>, k: Id, n: nat)
    requires Within(p, Elements(ids)) && k in ids && Walk(p, k, n).Some?
    ensures Walk(p, k, n).value in ids
  {
    WalkClosed(p, Elements(ids), k, n);
  }

  /** What the ordering promises, for nodes with distinct ids. */
  ghost predicate StablePreorder(p: map<Id, Id>, ids: seq<Id>, orphans: set<Id>, rows: seq<Row>, at: map<Id, nat>) {
    // every node is emitted exactly once
    && Placed(rows, at) && at.Keys == Elements(ids)
    // "cycle" marks exactly the nodes on parent cycles
    && (forall i :: 0 <= i < |rows| ==> (rows[i].lineage == Cyclical <==> OnCycle(p, rows[i].id)))
    && Labelled(rows, Cyclic(p, Elements(ids)), orphans)
    // a node off every cycle is indented exactly when it has a present parent
    && (forall i :: 0 <= i < |rows| && !OnCycle(p, rows[i].id) ==> (rows[i].depth > 0 <==> rows[i].id in p))
    // an indented node stands inside its parent's contiguous block, one level deeper
    && RowsNested(p, rows, at)
    // siblings keep their input order
    && RowsOrdered(p, ids, rows)
    // and so do the blocks, rooted ones before those a cycle opens
    && TopsPlaced(p, ids, rows)
  }

  // ---------------------------------------------------- the top-level rows

  /** The first of its cycle in input order. */
  ghost predicate Opens(p: map<Id, Id>, ids: seq<Id>, id: Id) {
    OnCycle(p, id) && forall k :: k in ids && k != id && Reaches(p, id, k) ==> Before(ids, id, k)
  }

  ghost predicate TopJustified(p: map<Id, Id>, ids: seq<Id>, rows: seq<Row>) {
    forall i :: 0 <= i < |rows| && rows[i].depth == 0 ==> rows[i].id !in p || Opens(p, ids, rows[i].id)
  }

  ghost predicate RootedFirst(p: map<Id, Id>, rows: seq<Row>) {
    forall i, j :: 0 <= i < j < |rows| && rows[i].depth == 0 && rows[j].depth == 0 && rows[i].id in p ==>
      rows[j].id in p
  }

  ghost predicate TopOrdered(p: map<Id, Id>, ids: seq<Id>, rows: seq<Row>) {
    forall i, j ::
      0 <= i < j < |rows| && rows[i].depth == 0 && rows[j].depth == 0 && (rows[i].id in p <==> rows[j].id in p)
      ==> Before(ids, rows[i].id, rows[j].id)
  }

  ghost predicate TopsPlaced(p: map<Id, Id>, ids: seq<Id>, rows: seq<Row>) {
    TopJustified(p, ids, rows) && RootedFirst(p, rows) && TopOrdered(p, ids, rows)
  }

  ghost predicate TopsBefore(p: map<Id, Id>, ids: seq<Id>, rows: seq<Row>, root: Id) {
    forall i :: 0 <= i < |rows| && rows[i].depth == 0 ==>
      && (rows[i].id in p ==> root in p)
      && ((rows[i].id in p <==> root in p) && rows[i].id != root ==> Before(ids, rows[i].id, root))
  }

  lemma TopsGrow(p: map<Id, Id>, ids: seq<Id>, rows: seq<Row>, rows': seq<Row>, at': map<Id, nat>, root: Id)
    requires TopsPlaced(p, ids, rows) && rows <= rows' && ZeroOnly(rows', |rows|, root) && Placed(rows', at')
    requires root !in p || Opens(p, ids, root)
    requires TopsBefore(p, ids, rows, root)
    ensures TopsPlaced(p, ids, rows')
  {
    hide Opens, Before;
    assert forall i :: 0 <= i < |rows| ==> rows'[i] == rows[i];
    forall i, j | 0 <= i < j < |rows'| && rows'[i].depth == 0 && rows'[j].depth == 0
      ensures rows'[i].id in p ==> rows'[j].id in p
      ensures (rows'[i].id in p <==> rows'[j].id in p) ==> Before(ids, rows'[i].id, rows'[j].id)
    {
      if j >= |rows| {
        assert rows'[j].id == root && at'[rows'[i].id] == i && at'[root] == j;
        assert i < |rows|;
      }
    }
  }

  /** Whatever is emitted so far, an unemitted cycle has been left out whole, so
      the scan meets its first node first. */
  lemma FirstOpens(p: map<Id, Id>, ids: seq<Id>, at: map<Id, nat>, i: nat)
    requires Within(p, Elements(ids)) && NothingLost(p, ids, at, []) && i < |ids|
    requires OnCycle(p, ids[i]) && ids[i] !in at
    requires forall j :: 0 <= j < i && OnCycle(p, ids[j]) ==> ids[j] in at
    ensures Opens(p, ids, ids[i])
  {
    forall k | k in ids && k != ids[i] && Reaches(p, ids[i], k) ensures Before(ids, ids[i], k) {
      var n: nat :| Walk(p, ids[i], n) == Some(k);
      var m :| 0 <= m < |ids| && ids[m] == k;
      if m < i {
        OnwardCycle(p, ids[i], k);
        EmittedBelow(p, ids, at, ids[i], n);
      }
    }
  }

  lemma OnwardCycle(p: map<Id, Id>, a: Id, b: Id)
    requires OnCycle(p, a) && Reaches(p, a, b)
    ensures OnCycle(p, b) && Reaches(p, b, a)
  {
    CycleReachesBack(p, a, b);
    var c: nat :| c > 0 && Walk(p, a, c) == Some(a);
    var n: nat :| Walk(p, a, n) == Some(b);
    var m: nat :| Walk(p, b, m) == Some(a);
    WalkAdd(p, b, m, c);
    WalkAdd(p, b, m + c, n);
    assert Walk(p, b, m + c + n) == Some(b);
  }

  lemma PreorderReached(p: map<Id, Id>, ids: seq<Id>, orphans: set<Id>, rows: seq<Row>, at: map<Id, nat>)
    requires Output(p, ids, Cyclic(p, Elements(ids)), orphans, rows, at) && at.Keys == Elements(ids)
    requires TopsPlaced(p, ids, rows)
    ensures StablePreorder(p, ids, orphans, rows, at)
  {
    forall i | 0 <= i < |rows| ensures rows[i].id in ids && (rows[i].lineage == Cyclical <==> OnCycle(p, rows[i].id)) {
      assert rows[i].id in at;
    }
  }

  lemma NothingYet(p: map<Id, Id>, ids: seq<Id>, cyclic: set<Id>, orphans: set<Id>)
    ensures Output(p, ids, cyclic, orphans, [], map[]) && TopsPlaced(p, ids, [])
  {
  }

  ghost predicate TopsAmong(p: map<Id, Id>, rows: seq<Row>, roots: seq<Id>, n: nat)
    requires n <= |roots|
  {
    forall i :: 0 <= i < |rows| && rows[i].depth == 0 && rows[i].id in p ==>
      exists j :: 0 <= j < n && roots[j] == rows[i].id
  }

  ghost predicate TopsFrom(p: map<Id, Id>, rows: seq<Row>, roots: seq<Id>, n: nat)
    requires n <= |roots|
  {
    forall i :: 0 <= i < |rows| && rows[i].depth == 0 ==>
      rows[i].id !in p && exists j :: 0 <= j < n && roots[j] == rows[i].id
  }

  lemma NextRoot(p: map<Id, Id>, ids: seq<Id>, rows: seq<Row>, rows': seq<Row>, at': map<Id, nat>, roots: seq<Id>,
                 n: nat)
    requires Ascending(ids, roots) && n < |roots| && roots[n] !in p
    requires TopsPlaced(p, ids, rows) && TopsFrom(p, rows, roots, n)
    requires rows <= rows' && ZeroOnly(rows', |rows|, roots[n]) && Placed(rows', at')
    ensures TopsPlaced(p, ids, rows') && TopsFrom(p, rows', roots, n + 1)
  {
    hide Opens, Before;
    forall i | 0 <= i < |rows'| && rows'[i].depth == 0
      ensures rows'[i].id !in p && exists j :: 0 <= j < n + 1 && roots[j] == rows'[i].id
    {
      if i < |rows| { assert rows[i] == rows'[i]; } else { assert roots[n] == rows'[i].id; }
    }
    TopsGrow(p, ids, rows, rows', at', roots[n]);
  }

  method AppendRoots(p: map<Id, Id>, ids: seq<Id>, children: map<Id, seq<Id>>, roots: seq<Id>,
                     cyclic: set<Id>, orphans: set<Id>)
    returns (rows: seq<Row>, visited: set<Id>, ghost at: map<Id, nat>)
    requires ChildrenTable(children, ids, p) && roots == RootsOf(ids, p)
    ensures Output(p, ids, cyclic, orphans, rows, at) && visited == at.Keys
    ensures TopsPlaced(p, ids, rows) && TopsFrom(p, rows, roots, |roots|)
    ensures forall k :: k in ids && k !in p ==> k in at
  {
    RootsOrdered(ids, p);
    hide Output, ChildrenTable, RootsOf, ChildrenOf, TopsPlaced, Ascending;
    rows, visited, at := [], {}, map[];
    NothingYet(p, ids, cyclic, orphans);
    RootsExact(ids, p);
    for i := 0 to |roots|
      invariant Output(p, ids, cyclic, orphans, rows, at) && visited == at.Keys
      invariant TopsPlaced(p, ids, rows) && TopsFrom(p, rows, roots, i)
      invariant forall j :: 0 <= j < i ==> roots[j] in at
    {
      assert roots[i] in roots;
      ghost var before := rows;
      rows, visited, at := Append(p, ids, children, cyclic, orphans, roots[i], rows, visited, at);
      OutputPlaced(p, ids, cyclic, orphans, rows, at);
      NextRoot(p, ids, before, rows, at, roots, i);
    }
  }

  lemma OutputPlaced(p: map<Id, Id>, ids: seq<Id>, cyclic: set<Id>, orphans: set<Id>, rows: seq<Row>, at: map<Id, nat>)
    requires Output(p, ids, cyclic, orphans, rows, at)
    ensures Placed(rows, at) && NothingLost(p, ids, at, [])
  {
  }

  lemma NextCycle(p: map<Id, Id>, ids: seq<Id>, rows: seq<Row>, rows': seq<Row>, at: map<Id, nat>, at': map<Id, nat>,
                  n: nat)
    requires Within(p, Elements(ids)) && NothingLost(p, ids, at, []) && n < |ids| && OnCycle(p, ids[n]) && ids[n] !in at
    requires forall j :: 0 <= j < n && OnCycle(p, ids[j]) ==> ids[j] in at
    requires TopsPlaced(p, ids, rows) && TopsAmong(p, rows, ids, n)
    requires rows <= rows' && ZeroOnly(rows', |rows|, ids[n]) && Placed(rows', at')
    ensures TopsPlaced(p, ids, rows') && TopsAmong(p, rows', ids, n + 1)
  {
    FirstOpens(p, ids, at, n);
    hide Opens, Within, NothingLost;
    forall i | 0 <= i < |rows'| && rows'[i].depth == 0 && rows'[i].id in p
      ensures exists j :: 0 <= j < n + 1 && ids[j] == rows'[i].id
    {
      if i < |rows| { assert rows[i] == rows'[i]; } else { assert ids[n] == rows'[i].id; }
    }
    CycleLinked(p, ids[n]);
    assert TopsBefore(p, ids, rows, ids[n]);
    hide Before;
    TopsGrow(p, ids, rows, rows', at', ids[n]);
  }

  lemma CycleLinked(p: map<Id, Id>, k: Id)
    requires OnCycle(p, k)
    ensures k in p
  {
  }

  method AppendCycles(p: map<Id, Id>, ids: seq<Id>, children: map<Id, seq<Id>>, cyclic: set<Id>, orphans: set<Id>,
                      rows: seq<Row>, visited: set<Id>, ghost at: map<Id, nat>)
    returns (rows': seq<Row>, visited': set<Id>, ghost at': map<Id, nat>)
    requires Within(p, Elements(ids)) && ChildrenTable(children, ids, p) && cyclic == Cyclic(p, Elements(ids))
    requires Output(p, ids, cyclic, orphans, rows, at) && visited == at.Keys
    requires TopsPlaced(p, ids, rows) && TopsAmong(p, rows, ids, 0)
    ensures Output(p, ids, cyclic, orphans, rows', at') && visited' == at'.Keys && TopsPlaced(p, ids, rows')
    ensures visited <= visited' && cyclic <= visited'
  {
    hide Output, ChildrenTable, TopsPlaced, Within;
    rows', visited', at' := rows, visited, at;
    for i := 0 to |ids|
      invariant Output(p, ids, cyclic, orphans, rows', at') && visited' == at'.Keys
      invariant TopsPlaced(p, ids, rows') && TopsAmong(p, rows', ids, i)
      invariant visited <= visited'
      invariant forall j :: 0 <= j < i && ids[j] in cyclic ==> ids[j] in visited'
    {
      if ids[i] in cyclic && ids[i] !in visited' {
        ghost var before, atBefore := rows', at';
        OutputPlaced(p, ids, cyclic, orphans, rows', at');
        rows', visited', at' := Append(p, ids, children, cyclic, orphans, ids[i], rows', visited', at');
        OutputPlaced(p, ids, cyclic, orphans, rows', at');
        NextCycle(p, ids, before, rows', atBefore, at', i);
      }
    }
  }

  /** The two loops emit everything; `late`, what the last loop would still have
      to append, is empty. */
  method OrderRows(p: map<Id, Id>, ids: seq<Id>, orphans: set<Id>)
    returns (rows: seq<Row>, late: seq<Id>, ghost at: map<Id, nat>)
    requires Within(p, Elements(ids))
    ensures StablePreorder(p, ids, orphans, rows, at)
    ensures late == []
  {
    var children, roots := GroupChildren(ids, p);
    var cyclic := MarkCycles(ids, p);
    var visited;
    rows, visited, at := AppendRoots(p, ids, children, roots, cyclic, orphans);
    rows, visited, at := AppendCycles(p, ids, children, cyclic, orphans, rows, visited, at);
    AllEmitted(p, ids, at);
    PreorderReached(p, ids, orphans, rows, at);
    late := [];
    for i := 0 to |ids|
      invariant late == []
    {
      var id := ids[i];
      if id !in visited { late := late + [id]; }
    }
  }
}
