/** A stable pre-order is unique: the promise of the conversation tree leaves no
    choice of rows (web/src/selectors.ts). */
module ConversationUnique {
  import opened JsMap
  import opened Sequences
  import opened FunctionalGraph
  import opened ConversationTree

  /** Two outputs for the same nodes, without what follows from the rest. */
  ghost predicate Arranged(p: map<Id, Id>, ids: seq<Id>, rows: seq<Row>, at: map<Id, nat>) {
    && Placed(rows, at) && at.Keys == Elements(ids)
    && RowsNested(p, rows, at) && RowsOrdered(p, ids, rows) && TopsPlaced(p, ids, rows)
  }

  lemma BeforeOnce(ids: seq<Id>, a: Id, b: Id)
    requires Distinct(ids) && Before(ids, a, b)
    ensures !Before(ids, b, a) && a != b
  {
  }

  lemma OpensOnce(p: map<Id, Id>, ids: seq<Id>, a: Id, b: Id)
    requires Distinct(ids) && a in ids && b in ids && Opens(p, ids, a) && Opens(p, ids, b) && Reaches(p, a, b)
    ensures a == b
  {
    OnwardCycle(p, a, b);
    hide Before, Distinct;
    if a != b { BeforeOnce(ids, a, b); }
  }

  /** Each cycle has a top-level row: depth falls along parent links. */
  lemma {:induction false} CycleHasTop(p: map<Id, Id>, ids: seq<Id>, rows: seq<Row>, at: map<Id, nat>, k: Id)
    returns (r: Id)
    requires Arranged(p, ids, rows, at) && OnCycle(p, k) && k in at
    ensures r in at && rows[at[r]].depth == 0 && Reaches(p, k, r)
    decreases rows[at[k]].depth
  {
    if rows[at[k]].depth == 0 {
      r := k;
      assert Walk(p, k, 0) == Some(k);
    } else {
      assert InBlockOf(p, rows, at, k, rows[at[k]].depth, at[k]);
      assert Walk(p, k, 1) == Some(p[k]);
      OnwardCycle(p, k, p[k]);
      r := CycleHasTop(p, ids, rows, at, p[k]);
      ReachesStep(p, k, r);
    }
  }

  /** Which rows are at the top is settled: nodes without a parent, and the first
      node of each cycle. */
  lemma TopExact(p: map<Id, Id>, ids: seq<Id>, rows: seq<Row>, at: map<Id, nat>, k: Id)
    requires Distinct(ids) && Arranged(p, ids, rows, at) && k in at
    ensures rows[at[k]].depth == 0 <==> k !in p || Opens(p, ids, k)
  {
    if k in p && Opens(p, ids, k) {
      var r := CycleHasTop(p, ids, rows, at, k);
      OnwardCycle(p, k, r);
      CycleLinked(p, r);
      OpensOnce(p, ids, k, r);
    }
    if rows[at[k]].depth > 0 {
      assert InBlockOf(p, rows, at, k, rows[at[k]].depth, at[k]);
    }
  }

  lemma {:induction false} SameDepth(p: map<Id, Id>, ids: seq<Id>, rows: seq<Row>, at: map<Id, nat>,
                                     rows': seq<Row>, at': map<Id, nat>, k: Id)
    requires Distinct(ids) && Arranged(p, ids, rows, at) && Arranged(p, ids, rows', at') && k in at
    ensures k in at' && rows[at[k]].depth == rows'[at'[k]].depth
    decreases rows[at[k]].depth
  {
    assert k in Elements(ids) && k in at';
    TopExact(p, ids, rows, at, k);
    TopExact(p, ids, rows', at', k);
    if rows[at[k]].depth > 0 {
      assert InBlockOf(p, rows, at, k, rows[at[k]].depth, at[k]);
      assert InBlockOf(p, rows', at', k, rows'[at'[k]].depth, at'[k]);
      SameDepth(p, ids, rows, at, rows', at', p[k]);
    }
  }

  /** Of two candidates for the same place, the one that comes later elsewhere is
      at least as deep. */
  lemma LaterIsDeeper(p: map<Id, Id>, rows: seq<Row>, at: map<Id, nat>, n: nat, m: nat)
    requires RowsNested(p, rows, at) && n < m < |rows| && rows[m].depth > 0
    requires rows[m].id in p && p[rows[m].id] in at && at[p[rows[m].id]] < n
    ensures rows[n].depth >= rows[m].depth
  {
    assert InBlockOf(p, rows, at, rows[m].id, rows[m].depth, m);
  }

  lemma ParentInPrefix(p: map<Id, Id>, rows: seq<Row>, at: map<Id, nat>, n: nat) returns (q: nat)
    requires Placed(rows, at) && RowsNested(p, rows, at) && n < |rows| && rows[n].depth > 0
    ensures q < n && rows[n].id in p && rows[q].id == p[rows[n].id]
  {
    assert InBlockOf(p, rows, at, rows[n].id, rows[n].depth, n);
    q := at[p[rows[n].id]];
  }

  /** The parent of the next row is the last row one level up. */
  lemma ParentIsLast(p: map<Id, Id>, rows: seq<Row>, at: map<Id, nat>, n: nat, q: nat)
    requires Placed(rows, at) && RowsNested(p, rows, at) && n < |rows| && rows[n].depth > 0
    requires q < n && rows[q].depth == rows[n].depth - 1 && forall m :: q < m < n ==> rows[m].depth >= rows[n].depth
    ensures rows[n].id in p && p[rows[n].id] == rows[q].id
  {
    assert InBlockOf(p, rows, at, rows[n].id, rows[n].depth, n);
  }

  /** The row of the other output that comes next here, further on. */
  ghost predicate Agree(rows: seq<Row>, rows': seq<Row>, n: nat) {
    n <= |rows| && n <= |rows'| && forall i :: 0 <= i < n ==>
      rows[i].id == rows'[i].id && rows[i].depth == rows'[i].depth
  }

  lemma NotLater(p: map<Id, Id>, ids: seq<Id>, rows: seq<Row>, at: map<Id, nat>, rows': seq<Row>, at': map<Id, nat>,
                 n: nat)
    requires Distinct(ids) && Arranged(p, ids, rows, at) && Arranged(p, ids, rows', at')
    requires Agree(rows, rows', n) && n < |rows| && n < |rows'| && rows[n].id != rows'[n].id
    ensures rows[n].id in at' && at'[rows[n].id] > n
    ensures rows[n].depth > 0 ==> rows'[n].depth >= rows[n].depth
  {
    hide RowsNested, RowsOrdered, TopsPlaced, Distinct;
    var a := rows[n].id;
    assert at[a] == n;
    SameDepth(p, ids, rows, at, rows', at', a);
    var m := at'[a];
    forall i | 0 <= i < n ensures rows'[i].id != a {
      assert at[rows[i].id] == i;
    }
    if rows[n].depth > 0 {
      var q := ParentInPrefix(p, rows, at, n);
      assert rows'[q].id == p[a] && at'[p[a]] == q;
      LaterIsDeeper(p, rows', at', n, m);
    }
  }

  lemma SameParent(p: map<Id, Id>, ids: seq<Id>, rows: seq<Row>, at: map<Id, nat>, rows': seq<Row>, at': map<Id, nat>,
                   n: nat)
    requires Arranged(p, ids, rows, at) && Arranged(p, ids, rows', at')
    requires Agree(rows, rows', n) && n < |rows| && n < |rows'| && rows[n].depth == rows'[n].depth > 0
    ensures Siblings(p, rows[n].id, rows'[n].id)
  {
    var a := rows[n].id;
    assert InBlockOf(p, rows, at, a, rows[n].depth, n);
    var q := at[p[a]];
    assert forall m :: q < m < n ==> rows'[m].depth >= rows'[n].depth;
    ParentIsLast(p, rows', at', n, q);
  }

  /** If two outputs differed first at place `n`, each would put its row there
      before the other's, in input order. */
  lemma OrderedBefore(p: map<Id, Id>, ids: seq<Id>, rows: seq<Row>, at: map<Id, nat>, rows': seq<Row>,
                      at': map<Id, nat>, n: nat)
    requires Distinct(ids) && Arranged(p, ids, rows, at) && Arranged(p, ids, rows', at')
    requires Agree(rows, rows', n) && n < |rows| && n < |rows'| && rows[n].id != rows'[n].id
    requires rows[n].depth == rows'[n].depth
    requires rows[n].depth == 0 ==> (rows[n].id in p <==> rows'[n].id in p)
    ensures Before(ids, rows[n].id, rows'[n].id)
  {
    hide RowsNested, RowsOrdered, TopsPlaced, Distinct, Before;
    var b := rows'[n].id;
    assert at'[b] == n;
    NotLater(p, ids, rows', at', rows, at, n);
    SameDepth(p, ids, rows', at', rows, at, b);
    var m := at[b];
    if rows[n].depth > 0 { SameParent(p, ids, rows, at, rows', at', n); }
    InInputOrder(p, ids, rows, n, m);
  }

  lemma InInputOrder(p: map<Id, Id>, ids: seq<Id>, rows: seq<Row>, n: nat, m: nat)
    requires RowsOrdered(p, ids, rows) && TopsPlaced(p, ids, rows) && n < m < |rows| && rows[n].depth == rows[m].depth
    requires if rows[n].depth > 0 then Siblings(p, rows[n].id, rows[m].id) else rows[n].id in p <==> rows[m].id in p
    ensures Before(ids, rows[n].id, rows[m].id)
  {
  }

  lemma TopKinds(p: map<Id, Id>, ids: seq<Id>, rows: seq<Row>, at: map<Id, nat>, rows': seq<Row>, at': map<Id, nat>,
                 n: nat)
    requires Distinct(ids) && Arranged(p, ids, rows, at) && Arranged(p, ids, rows', at')
    requires Agree(rows, rows', n) && n < |rows| && n < |rows'| && rows[n].id != rows'[n].id
    requires rows[n].depth == rows'[n].depth == 0
    ensures rows[n].id in p ==> rows'[n].id in p
  {
    hide RowsNested, RowsOrdered, TopOrdered, TopJustified, Distinct;
    var b := rows'[n].id;
    assert at'[b] == n;
    NotLater(p, ids, rows', at', rows, at, n);
    SameDepth(p, ids, rows', at', rows, at, b);
    assert rows[at[b]].id == b;
  }

  lemma SameNext(p: map<Id, Id>, ids: seq<Id>, rows: seq<Row>, at: map<Id, nat>, rows': seq<Row>, at': map<Id, nat>,
                 n: nat)
    requires Distinct(ids) && Arranged(p, ids, rows, at) && Arranged(p, ids, rows', at')
    requires Agree(rows, rows', n) && n < |rows| && n < |rows'|
    ensures Agree(rows, rows', n + 1)
  {
    hide RowsNested, RowsOrdered, TopsPlaced, Distinct, Before;
    if rows[n].id != rows'[n].id {
      NotLater(p, ids, rows, at, rows', at', n);
      NotLater(p, ids, rows', at', rows, at, n);
      if rows[n].depth == 0 {
        TopKinds(p, ids, rows, at, rows', at', n);
        TopKinds(p, ids, rows', at', rows, at, n);
      }
      OrderedBefore(p, ids, rows, at, rows', at', n);
      OrderedBefore(p, ids, rows', at', rows, at, n);
      BeforeOnce(ids, rows[n].id, rows'[n].id);
      assert false;
    }
    assert at[rows[n].id] == n && at'[rows'[n].id] == n;
    SameDepth(p, ids, rows, at, rows', at', rows[n].id);
  }

  lemma {:induction false} SameUpTo(p: map<Id, Id>, ids: seq<Id>, rows: seq<Row>, at: map<Id, nat>,
                                    rows': seq<Row>, at': map<Id, nat>, n: nat)
    requires Distinct(ids) && Arranged(p, ids, rows, at) && Arranged(p, ids, rows', at')
    requires n <= |rows| && n <= |rows'|
    ensures Agree(rows, rows', n)
  {
    if n > 0 {
      SameUpTo(p, ids, rows, at, rows', at', n - 1);
      SameNext(p, ids, rows, at, rows', at', n - 1);
    }
  }

  lemma {:induction false} PlacedCount(rows: seq<Row>, at: map<Id, nat>)
    requires Placed(rows, at)
    ensures |rows| == |at.Keys|
  {
    var ids := set i | 0 <= i < |rows| :: rows[i].id;
    assert ids == at.Keys;
    IdCount(rows, at);
  }

  lemma {:induction false} IdCount(rows: seq<Row>, at: map<Id, nat>)
    requires forall i :: 0 <= i < |rows| ==> rows[i].id in at && at[rows[i].id] == i
    ensures |set i | 0 <= i < |rows| :: rows[i].id| == |rows|
  {
    var ids := set i | 0 <= i < |rows| :: rows[i].id;
    if rows != [] {
      var init, last := rows[..|rows| - 1], rows[|rows| - 1];
      IdCount(init, at);
      var older := set i | 0 <= i < |init| :: init[i].id;
      assert ids == older + {last.id} && last.id !in older;
    }
  }

  /** The rows are determined by the nodes, their parents and the missing ones. */
  lemma StablePreorderUnique(p: map<Id, Id>, ids: seq<Id>, orphans: set<Id>, rows: seq<Row>, at: map<Id, nat>,
                             rows': seq<Row>, at': map<Id, nat>)
    requires Distinct(ids)
    requires StablePreorder(p, ids, orphans, rows, at) && StablePreorder(p, ids, orphans, rows', at')
    ensures rows == rows' && at == at'
  {
    PreorderArranged(p, ids, orphans, rows, at);
    PreorderArranged(p, ids, orphans, rows', at');
    PlacedCount(rows, at);
    PlacedCount(rows', at');
    hide StablePreorder, RowsNested, RowsOrdered, TopsPlaced;
    SameUpTo(p, ids, rows, at, rows', at', |rows|);
    hide Arranged, Labelled, Placed;
    SameLabels(rows, rows', Cyclic(p, Elements(ids)), orphans);
    SamePlaces(rows, at, at');
  }

  lemma SameLabels(rows: seq<Row>, rows': seq<Row>, cyclic: set<Id>, orphans: set<Id>)
    requires Labelled(rows, cyclic, orphans) && Labelled(rows', cyclic, orphans) && |rows| == |rows'|
    requires forall i :: 0 <= i < |rows| ==> rows[i].id == rows'[i].id && rows[i].depth == rows'[i].depth
    ensures rows == rows'
  {
    forall i | 0 <= i < |rows| ensures rows[i] == rows'[i] {
      assert rows[i].id == rows'[i].id && rows[i].depth == rows'[i].depth;
    }
  }

  lemma PreorderArranged(p: map<Id, Id>, ids: seq<Id>, orphans: set<Id>, rows: seq<Row>, at: map<Id, nat>)
    requires StablePreorder(p, ids, orphans, rows, at)
    ensures Arranged(p, ids, rows, at) && Labelled(rows, Cyclic(p, Elements(ids)), orphans)
    ensures Placed(rows, at) && at.Keys == Elements(ids)
  {
  }

  lemma SamePlaces(rows: seq<Row>, at: map<Id, nat>, at': map<Id, nat>)
    requires Placed(rows, at) && Placed(rows, at')
    ensures at == at'
  {
    forall k | k in at ensures k in at' && at'[k] == at[k] { assert rows[at[k]].id == k; }
    forall k | k in at' ensures k in at { assert rows[at'[k]].id == k; }
  }
}
