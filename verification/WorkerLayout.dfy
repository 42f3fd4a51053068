/** The whole worker layout: selection, lineage, forest, levels and cards
    (web/src/active-worker-tree.ts). */
module WorkerLayout {
  import opened JsMap
  import opened FunctionalGraph
  import opened Sequences
  import opened ParentForest
  import opened WorkerCycles
  import opened WorkerLevels
  import opened WorkerDirectory
  import opened WorkerAncestors
  import opened WorkerSelection
  import opened WorkerListing
  import opened WorkerOmitted

  const NODE_WIDTH := 256
  const NODE_HEIGHT := 80
  const COLUMN_GAP := 64
  const ROW_GAP := 24

  datatype Lineage = Connected | Orphan | CycleRoot | Truncated

  datatype Node = Node(key: Identity, actor: Actor, parentKey: Option<Identity>, depth: nat,
                       x: int, y: int, context: bool, lineage: Lineage)

  datatype Edge = Edge(from: Node, to: Node)

  datatype Layout = Layout(nodes: seq<Node>, edges: seq<Edge>, width: int, height: int, omitted: nat)

  // ------------------------------------------------------------ lineage

  ghost predicate LinkedSoFar(selected: Selected, d: Directory, n: nat,
                              parentKeys: map<Identity, Identity>, lineage: map<Identity, Lineage>)
    requires n <= |selected|
  {
    && (forall k :: k in parentKeys || k in lineage ==> exists i :: 0 <= i < n && selected[i].key == k)
    && forall i :: 0 <= i < n ==>
         var k, parent := selected[i].key, selected[i].value.actor.parent;
         if parent.None? then k !in parentKeys && k !in lineage
         else if Has(selected, parent.value) then k in parentKeys && parentKeys[k] == parent.value && k !in lineage
         else k !in parentKeys && k in lineage && lineage[k] == (if parent.value in d then Truncated else Orphan)
  }

  method LinkParents(selected: Selected, d: Directory)
    returns (parentKeys: map<Identity, Identity>, lineage: map<Identity, Lineage>)
    requires DistinctKeys(selected)
    ensures LinkedSoFar(selected, d, |selected|, parentKeys, lineage)
  {
    parentKeys, lineage := map[], map[];
    for i := 0 to |selected|
      invariant LinkedSoFar(selected, d, i, parentKeys, lineage)
    {
      var key, parent := selected[i].key, selected[i].value.actor.parent;
      assert key !in parentKeys && key !in lineage;
      if parent.Some? {
        if !Has(selected, parent.value) {
          lineage := lineage[key := if parent.value in d then Truncated else Orphan];
        } else {
          parentKeys := parentKeys[key := parent.value];
        }
      }
    }
  }

  // --------------------------------------------------------------- rows

  ghost predicate RowsOf(level: seq<Identity>, rows: map<Identity, nat>) {
    forall i :: 0 <= i < |level| ==> level[i] in rows && rows[level[i]] == i
  }

  method RowsOfLevel(level: seq<Identity>, rows: map<Identity, nat>) returns (rows': map<Identity, nat>)
    requires Distinct(level)
    ensures RowsOf(level, rows')
    ensures forall k :: k in rows && k !in level ==> k in rows' && rows'[k] == rows[k]
  {
    rows' := rows;
    for i := 0 to |level|
      invariant forall j :: 0 <= j < i ==> level[j] in rows' && rows'[level[j]] == j
      invariant forall k :: k in rows && k !in level ==> k in rows' && rows'[k] == rows[k]
    {
      rows' := rows'[level[i] := i];
    }
  }

  method AssignRows(levels: map<nat, seq<Identity>>, ghost depths: map<Identity, nat>)
    returns (rows: map<Identity, nat>, maxDepth: nat, maxRows: nat)
    requires LevelsOf(levels, depths)
    ensures forall d :: d in levels ==> RowsOf(levels[d], rows) && d <= maxDepth && |levels[d]| <= maxRows
    ensures maxRows >= 1
    ensures levels != map[] ==> Attained(levels, maxDepth, maxRows)
  {
    rows, maxDepth, maxRows := map[], 0, 1;
    var left := levels.Keys;
    while left != {}
      invariant left <= levels.Keys && maxRows >= 1
      invariant left != levels.Keys ==> Attained(levels, maxDepth, maxRows)
      invariant left == levels.Keys ==> maxDepth == 0 && maxRows == 1
      invariant forall d :: d in levels && d !in left ==>
        RowsOf(levels[d], rows) && d <= maxDepth && |levels[d]| <= maxRows
      decreases left
    {
      var d :| d in left;
      ghost var before := rows;
      rows := RowsOfLevel(levels[d], rows);
      forall e | e in levels && e !in left ensures RowsOf(levels[e], rows) {
        LevelsDisjoint(levels, depths, d, e);
      }
      maxDepth := Max(maxDepth, d);
      maxRows := Max(maxRows, |levels[d]|);
      left := left - {d};
    }
  }

  ghost predicate Attained(levels: map<nat, seq<Identity>>, maxDepth: nat, maxRows: nat) {
    maxDepth in levels && exists d :: d in levels && |levels[d]| == maxRows
  }

  lemma LevelsDisjoint(levels: map<nat, seq<Identity>>, depths: map<Identity, nat>, d: nat, e: nat)
    requires LevelsOf(levels, depths) && d in levels && e in levels && d != e
    ensures forall i :: 0 <= i < |levels[e]| ==> levels[e][i] !in levels[d]
  {
    forall i | 0 <= i < |levels[e]| ensures levels[e][i] !in levels[d] {
      var k := levels[e][i];
      assert k in Level(levels, e) && depths[k] == e;
      assert k !in Level(levels, d);
    }
  }

  // -------------------------------------------------------------- cards

  function X(depth: nat): int { 16 + depth * (NODE_WIDTH + COLUMN_GAP) }

  function Y(row: nat): int { 16 + row * (NODE_HEIGHT + ROW_GAP) }

  predicate Apart(a: Node, b: Node) {
    || a.x + NODE_WIDTH <= b.x || b.x + NODE_WIDTH <= a.x
    || a.y + NODE_HEIGHT <= b.y || b.y + NODE_HEIGHT <= a.y
  }

  predicate Inside(n: Node, width: int, height: int) {
    && 16 <= n.x && n.x + NODE_WIDTH <= width - 16
    && 16 <= n.y && n.y + NODE_HEIGHT <= height - 16
  }

  function KeysIn(nodes: seq<Node>): (keys: seq<Identity>)
    ensures |keys| == |nodes| && forall i :: 0 <= i < |keys| ==> keys[i] == nodes[i].key
  {
    seq(|nodes|, i requires 0 <= i < |nodes| => nodes[i].key)
  }

  /** The cell of a card: its depth is the column, its place in its generation
      the row. */
  ghost predicate InCell(n: Node, generation: seq<Identity>) {
    n.x == X(n.depth) && exists r :: 0 <= r < |generation| && generation[r] == n.key && n.y == Y(r)
  }

  ghost predicate OnGrid(nodes: seq<Node>, parents: map<Identity, Identity>) {
    forall i :: 0 <= i < |nodes| ==> InCell(nodes[i], Generation(KeysIn(nodes), parents, nodes[i].depth))
  }

  /** Distinct workers have distinct cells of the grid. */
  lemma DistinctCells(levels: map<nat, seq<Identity>>, depths: map<Identity, nat>, rows: map<Identity, nat>,
                      a: Identity, b: Identity)
    requires LevelsOf(levels, depths) && (forall d :: d in levels ==> RowsOf(levels[d], rows))
    requires a in depths && b in depths && a != b
    ensures a in rows && b in rows
    ensures depths[a] != depths[b] || rows[a] != rows[b]
    ensures depths[a] in levels && rows[a] < |levels[depths[a]]|
  {
    assert a in Level(levels, depths[a]) && b in Level(levels, depths[b]);
    var i :| 0 <= i < |levels[depths[a]]| && levels[depths[a]][i] == a;
    var j :| 0 <= j < |levels[depths[b]]| && levels[depths[b]][j] == b;
  }

  lemma CellsApart(a: Node, b: Node, r: nat, s: nat)
    requires a.x == X(a.depth) && a.y == Y(r) && b.x == X(b.depth) && b.y == Y(s)
    requires a.depth != b.depth || r != s
    ensures Apart(a, b)
  {
  }

  lemma CellInside(n: Node, row: nat, maxDepth: nat, maxRows: nat)
    requires n.x == X(n.depth) && n.y == Y(row) && n.depth <= maxDepth && row < maxRows
    ensures Inside(n, 32 + (maxDepth + 1) * (NODE_WIDTH + COLUMN_GAP) - COLUMN_GAP,
                      32 + maxRows * (NODE_HEIGHT + ROW_GAP) - ROW_GAP)
  {
  }

  function NodeOf(e: Entry<Identity, Chosen>, parents: map<Identity, Identity>, depths: map<Identity, nat>,
                  rows: map<Identity, nat>, lineage: map<Identity, Lineage>): Node {
    var depth := if e.key in depths then depths[e.key] else 0;
    Node(e.key, e.value.actor, if e.key in parents then Some(parents[e.key]) else None, depth,
         X(depth), Y(if e.key in rows then rows[e.key] else 0), e.value.context,
         if e.key in lineage then lineage[e.key] else Connected)
  }

  ghost predicate CardsPlaced(nodes: seq<Node>, width: int, height: int) {
    && (forall i, j :: 0 <= i < j < |nodes| ==> Apart(nodes[i], nodes[j]))
    && (forall i :: 0 <= i < |nodes| ==> Inside(nodes[i], width, height))
    && (nodes != [] ==> Tight(nodes, width, height))
  }

  /** The canvas is no larger than its cards need. */
  ghost predicate Tight(nodes: seq<Node>, width: int, height: int) {
    && (exists i :: 0 <= i < |nodes| && nodes[i].x + NODE_WIDTH == width - 16)
    && (exists i :: 0 <= i < |nodes| && nodes[i].y + NODE_HEIGHT == height - 16)
  }

  ghost predicate ForestTable(selected: Selected, parents: map<Identity, Identity>,
                              depths: map<Identity, nat>, levels: map<nat, seq<Identity>>) {
    && DistinctKeys(selected)
    && HasDepths(parents, Elements(KeysOf(selected)), depths) && depths.Keys == Elements(KeysOf(selected))
    && LevelsOf(levels, depths) && InGenerations(levels, KeysOf(selected), parents)
  }

  /** The loop that would place keys the sweep missed finds none. */
  method Residue(selected: Selected, rows: map<Identity, nat>) returns (residue: seq<Identity>)
    requires forall i :: 0 <= i < |selected| ==> selected[i].key in rows
    ensures residue == []
  {
    residue := [];
    for i := 0 to |selected|
      invariant residue == []
    {
      var key := selected[i].key;
      if key !in rows { residue := residue + [key]; }
    }
  }

  lemma KeyPlaced(selected: Selected, parents: map<Identity, Identity>, depths: map<Identity, nat>,
                  levels: map<nat, seq<Identity>>, rows: map<Identity, nat>, i: nat)
    requires ForestTable(selected, parents, depths, levels) && i < |selected|
    requires forall d :: d in levels ==> RowsOf(levels[d], rows)
    ensures var k := selected[i].key;
      && k in depths && k in rows && depths[k] in levels && rows[k] < |levels[depths[k]]|
      && levels[depths[k]][rows[k]] == k && levels[depths[k]] == Generation(KeysOf(selected), parents, depths[k])
  {
    var k := selected[i].key;
    assert k == KeysOf(selected)[i] && k in Elements(KeysOf(selected));
    assert k in Level(levels, depths[k]);
    var r :| 0 <= r < |levels[depths[k]]| && levels[depths[k]][r] == k;
    assert Level(levels, depths[k]) == Generation(KeysOf(selected), parents, depths[k]);
  }

  /** The last card of a level, if a level has `row + 1` cards. */
  lemma CardAt(selected: Selected, parents: map<Identity, Identity>, depths: map<Identity, nat>,
               levels: map<nat, seq<Identity>>, rows: map<Identity, nat>, d: nat, row: nat) returns (i: nat)
    requires ForestTable(selected, parents, depths, levels) && d in levels && row < |levels[d]|
      && RowsOf(levels[d], rows)
    ensures i < |selected| && var k := selected[i].key; k in depths && depths[k] == d && k in rows && rows[k] == row
  {
    var k := levels[d][row];
    assert k in Level(levels, d);
    assert k in Elements(KeysOf(selected));
    i :| 0 <= i < |selected| && KeysOf(selected)[i] == k;
  }

  lemma CanvasTight(selected: Selected, parents: map<Identity, Identity>, depths: map<Identity, nat>,
                    levels: map<nat, seq<Identity>>, rows: map<Identity, nat>, lineage: map<Identity, Lineage>,
                    maxDepth: nat, maxRows: nat, nodes: seq<Node>)
    requires ForestTable(selected, parents, depths, levels) && Attained(levels, maxDepth, maxRows)
    requires forall d :: d in levels ==> RowsOf(levels[d], rows)
    requires CardsOf(nodes, selected, parents, depths, rows, lineage)
    ensures Tight(nodes, 32 + (maxDepth + 1) * (NODE_WIDTH + COLUMN_GAP) - COLUMN_GAP,
                         32 + maxRows * (NODE_HEIGHT + ROW_GAP) - ROW_GAP)
  {
    var d :| d in levels && |levels[d]| == maxRows;
    assert levels[d] != [] && levels[maxDepth] != [];
    var i := CardAt(selected, parents, depths, levels, rows, maxDepth, 0);
    var j := CardAt(selected, parents, depths, levels, rows, d, maxRows - 1);
    hide ForestTable;
    assert nodes[i].x == X(maxDepth) && nodes[j].y == Y(maxRows - 1);
  }

  method PlaceCards(selected: Selected, parents: map<Identity, Identity>, depths: map<Identity, nat>,
                    levels: map<nat, seq<Identity>>, lineage: map<Identity, Lineage>)
    returns (nodes: seq<Node>, width: int, height: int, ghost rows: map<Identity, nat>)
    requires ForestTable(selected, parents, depths, levels)
    ensures CardsPlaced(nodes, width, height) && DistinctCards(nodes) && OnGrid(nodes, parents)
    ensures CardsOf(nodes, selected, parents, depths, rows, lineage)
  {
    var rowOf, maxDepth, maxRows := AssignRows(levels, depths);
    rows := rowOf;
    forall i | 0 <= i < |selected|
      ensures var k := selected[i].key; k in depths && k in rows && depths[k] <= maxDepth && rows[k] < maxRows
    {
      KeyPlaced(selected, parents, depths, levels, rows, i);
    }
    var residue := Residue(selected, rowOf);
    nodes := seq(|selected|, i requires 0 <= i < |selected| => NodeOf(selected[i], parents, depths, rowOf, lineage));
    width := 32 + (maxDepth + 1) * (NODE_WIDTH + COLUMN_GAP) - COLUMN_GAP;
    height := 32 + maxRows * (NODE_HEIGHT + ROW_GAP) - ROW_GAP;
    assert CardsOf(nodes, selected, parents, depths, rows, lineage);
    if nodes != [] {
      KeyPlaced(selected, parents, depths, levels, rows, 0);
      CanvasTight(selected, parents, depths, levels, rows, lineage, maxDepth, maxRows, nodes);
    }
    CardsApart(selected, parents, depths, levels, rows, lineage, maxDepth, maxRows, nodes);
    CardsInCells(selected, parents, depths, levels, rows, lineage, nodes);
  }

  lemma CardsApart(selected: Selected, parents: map<Identity, Identity>, depths: map<Identity, nat>,
                   levels: map<nat, seq<Identity>>, rows: map<Identity, nat>, lineage: map<Identity, Lineage>,
                   maxDepth: nat, maxRows: nat, nodes: seq<Node>)
    requires ForestTable(selected, parents, depths, levels) && CardsOf(nodes, selected, parents, depths, rows, lineage)
    requires forall d :: d in levels ==> RowsOf(levels[d], rows) && d <= maxDepth && |levels[d]| <= maxRows
    ensures DistinctCards(nodes) && forall i, j :: 0 <= i < j < |nodes| ==> Apart(nodes[i], nodes[j])
    ensures forall i :: 0 <= i < |nodes| ==>
      Inside(nodes[i], 32 + (maxDepth + 1) * (NODE_WIDTH + COLUMN_GAP) - COLUMN_GAP,
                       32 + maxRows * (NODE_HEIGHT + ROW_GAP) - ROW_GAP)
  {
    forall i | 0 <= i < |nodes|
      ensures Inside(nodes[i], 32 + (maxDepth + 1) * (NODE_WIDTH + COLUMN_GAP) - COLUMN_GAP,
                               32 + maxRows * (NODE_HEIGHT + ROW_GAP) - ROW_GAP)
    {
      KeyPlaced(selected, parents, depths, levels, rows, i);
      CellInside(nodes[i], rows[selected[i].key], maxDepth, maxRows);
    }
    forall i, j | 0 <= i < j < |nodes| ensures nodes[i].key != nodes[j].key && Apart(nodes[i], nodes[j]) {
      DistinctCells(levels, depths, rows, selected[i].key, selected[j].key);
      CellsApart(nodes[i], nodes[j], rows[selected[i].key], rows[selected[j].key]);
    }
  }

  lemma CardsInCells(selected: Selected, parents: map<Identity, Identity>, depths: map<Identity, nat>,
                     levels: map<nat, seq<Identity>>, rows: map<Identity, nat>, lineage: map<Identity, Lineage>,
                     nodes: seq<Node>)
    requires ForestTable(selected, parents, depths, levels) && CardsOf(nodes, selected, parents, depths, rows, lineage)
    requires forall d :: d in levels ==> RowsOf(levels[d], rows)
    ensures OnGrid(nodes, parents)
  {
    assert KeysIn(nodes) == KeysOf(selected);
    forall i | 0 <= i < |nodes| ensures InCell(nodes[i], Generation(KeysIn(nodes), parents, nodes[i].depth)) {
      KeyPlaced(selected, parents, depths, levels, rows, i);
      var k := selected[i].key;
      var generation := Generation(KeysOf(selected), parents, depths[k]);
      assert generation[rows[k]] == k && nodes[i].y == Y(rows[k]);
    }
  }

  ghost predicate CardOf(n: Node, e: Entry<Identity, Chosen>, parents: map<Identity, Identity>,
                         depths: map<Identity, nat>, rows: map<Identity, nat>, lineage: map<Identity, Lineage>) {
    && n.key == e.key && n.actor == e.value.actor && n.context == e.value.context
    && e.key in depths && n.depth == depths[e.key] && n.x == X(n.depth)
    && e.key in rows && n.y == Y(rows[e.key])
    && n.parentKey == (if e.key in parents then Some(parents[e.key]) else None)
    && n.lineage == (if e.key in lineage then lineage[e.key] else Connected)
  }

  ghost predicate CardsOf(nodes: seq<Node>, selected: Selected, parents: map<Identity, Identity>,
                          depths: map<Identity, nat>, rows: map<Identity, nat>, lineage: map<Identity, Lineage>) {
    && |nodes| == |selected|
    && forall i :: 0 <= i < |nodes| ==> CardOf(nodes[i], selected[i], parents, depths, rows, lineage)
  }

  ghost predicate DistinctCards(nodes: seq<Node>) {
    forall i, j :: 0 <= i < j < |nodes| ==> nodes[i].key != nodes[j].key
  }

  /** The card with a key, looked up as `byKey` does. */
  function CardWith(nodes: seq<Node>, key: Identity): Option<Node> {
    if nodes == [] then None
    else if nodes[|nodes| - 1].key == key then Some(nodes[|nodes| - 1])
    else CardWith(nodes[..|nodes| - 1], key)
  }

  lemma {:induction false} CardFound(nodes: seq<Node>, i: nat)
    requires i < |nodes| && DistinctCards(nodes)
    ensures CardWith(nodes, nodes[i].key) == Some(nodes[i])
  {
    if i < |nodes| - 1 { CardFound(nodes[..|nodes| - 1], i); }
  }

  /** An edge runs from a card to a child's card, one column to the right. */
  ghost predicate Joins(nodes: seq<Node>, e: Edge) {
    && e.from in nodes && e.to in nodes && e.to.parentKey == Some(e.from.key)
    && e.to.depth == e.from.depth + 1 && e.to.x == e.from.x + NODE_WIDTH + COLUMN_GAP
  }

  /** Each card with a parent key is joined to that parent's card by exactly one
      edge. */
  ghost predicate EdgesJoin(nodes: seq<Node>, edges: seq<Edge>) {
    && (forall i :: 0 <= i < |edges| ==> Joins(nodes, edges[i]))
    && (forall i, j :: 0 <= i < j < |edges| ==> edges[i].to.key != edges[j].to.key)
    && forall n :: n in nodes && n.parentKey.Some? ==> exists e :: e in edges && e.to == n
  }

  ghost predicate EdgesUpTo(nodes: seq<Node>, edges: seq<Edge>, n: nat)
    requires n <= |nodes|
  {
    && (forall i :: 0 <= i < |edges| ==> Joins(nodes, edges[i]) && edges[i].to in nodes[..n])
    && (forall i, j :: 0 <= i < j < |edges| ==> edges[i].to.key != edges[j].to.key)
    && (forall k :: 0 <= k < n && nodes[k].parentKey.Some? ==> exists e :: e in edges && e.to == nodes[k])
  }

  lemma EdgeAdded(nodes: seq<Node>, edges: seq<Edge>, n: nat, e: Edge)
    requires DistinctCards(nodes)
    requires n < |nodes| && EdgesUpTo(nodes, edges, n) && Joins(nodes, e) && e.to == nodes[n]
    ensures EdgesUpTo(nodes, edges + [e], n + 1)
  {
    var more := edges + [e];
    forall i | 0 <= i < |edges| ensures edges[i].to.key != nodes[n].key && edges[i].to in nodes[..n + 1] {
      assert edges[i].to in nodes[..n];
      var j :| 0 <= j < |nodes[..n]| && nodes[..n][j] == edges[i].to;
      assert nodes[..n + 1][j] == nodes[j];
    }
    assert nodes[..n + 1][n] == nodes[n];
    forall k | 0 <= k < n + 1 && nodes[k].parentKey.Some? ensures exists x :: x in more && x.to == nodes[k] {
      if k < n {
        var x :| x in edges && x.to == nodes[k];
        assert x in more;
      } else {
        assert e in more;
      }
    }
  }

  lemma EdgeSkipped(nodes: seq<Node>, edges: seq<Edge>, n: nat)
    requires n < |nodes| && EdgesUpTo(nodes, edges, n) && nodes[n].parentKey.None?
    ensures EdgesUpTo(nodes, edges, n + 1)
  {
    forall i | 0 <= i < |edges| ensures edges[i].to in nodes[..n + 1] {
      assert edges[i].to in nodes[..n];
      var j :| 0 <= j < |nodes[..n]| && nodes[..n][j] == edges[i].to;
      assert nodes[..n + 1][j] == nodes[j];
    }
  }

  ghost predicate ParentsPresent(nodes: seq<Node>) {
    forall i :: 0 <= i < |nodes| && nodes[i].parentKey.Some? ==> exists j :: ParentAt(nodes, i, j)
  }

  ghost predicate ParentAt(nodes: seq<Node>, i: int, j: int) {
    && 0 <= i < |nodes| && 0 <= j < |nodes|
    && nodes[i].parentKey == Some(nodes[j].key) && nodes[i].depth == nodes[j].depth + 1
    && nodes[i].x == nodes[j].x + NODE_WIDTH + COLUMN_GAP
  }

  method JoinCards(nodes: seq<Node>) returns (edges: seq<Edge>)
    requires DistinctCards(nodes)
    requires ParentsPresent(nodes)
    ensures EdgesJoin(nodes, edges)
  {
    edges := [];
    for i := 0 to |nodes|
      invariant EdgesUpTo(nodes, edges, i)
    {
      var n := nodes[i];
      if n.parentKey.Some? {
        ghost var j :| ParentAt(nodes, i, j);
        CardFound(nodes, j);
        var parent := CardWith(nodes, n.parentKey.value);
        EdgeAdded(nodes, edges, i, Edge(parent.value, n));
        edges := edges + [Edge(parent.value, n)];
      } else {
        EdgeSkipped(nodes, edges, i);
      }
    }
  }

  // ---------------------------------------------------------- everything

  ghost predicate LineageExact(nodes: seq<Node>, d: Directory, links: map<Identity, Identity>, roots: set<Identity>) {
    forall i :: 0 <= i < |nodes| ==>
      var n := nodes[i];
      && (n.lineage == CycleRoot <==> n.key in roots)
      && (n.parentKey.Some? <==> n.key in links && n.key !in roots)
      && (n.parentKey.Some? ==> n.actor.parent == n.parentKey)
      && (n.lineage == Truncated || n.lineage == Orphan <==> n.actor.parent.Some? && n.key !in links)
      && (n.lineage == Truncated ==> n.actor.parent.value in d)
      && (n.lineage == Orphan ==> n.actor.parent.value !in d)
  }

  ghost predicate Shown(nodes: seq<Node>, k: Identity) {
    exists j :: 0 <= j < |nodes| && nodes[j].key == k
  }

  /** `links` are the parent links between shown workers, cycles included. */
  ghost predicate LinksAmong(nodes: seq<Node>, links: map<Identity, Identity>) {
    && (forall k :: k in links ==> Shown(nodes, k))
    && forall i :: 0 <= i < |nodes| ==>
         var n := nodes[i];
         && (n.key in links <==> n.actor.parent.Some? && Shown(nodes, n.actor.parent.value))
         && (n.key in links ==> links[n.key] == n.actor.parent.value)
  }

  lemma ShownIffChosen(selected: Selected, nodes: seq<Node>, k: Identity)
    requires EntriesIn(nodes) == selected
    ensures Shown(nodes, k) <==> Has(selected, k)
  {
    FindLast(selected, k);
    if Has(selected, k) { assert nodes[Find(selected, k)].key == k; }
  }

  lemma LinksWithin(selected: Selected, d: Directory, links: map<Identity, Identity>, lineage: map<Identity, Lineage>)
    requires LinkedSoFar(selected, d, |selected|, links, lineage)
    ensures Within(links, Elements(KeysOf(selected)))
  {
    forall k | k in links ensures k in Elements(KeysOf(selected)) && links[k] in Elements(KeysOf(selected)) {
      var i :| 0 <= i < |selected| && selected[i].key == k;
      assert KeysOf(selected)[i] == k;
      assert KeysOf(selected)[Find(selected, links[k])] == links[k];
    }
  }

  lemma LineageOfCards(selected: Selected, d: Directory, links: map<Identity, Identity>,
                       lineage: map<Identity, Lineage>, roots: set<Identity>, depths: map<Identity, nat>,
                       rows: map<Identity, nat>, nodes: seq<Node>)
    requires LinkedSoFar(selected, d, |selected|, links, lineage) && roots <= links.Keys
    requires CardsOf(nodes, selected, links - roots, depths, rows, Marked(lineage, roots))
    ensures LinksAmong(nodes, links) && LineageExact(nodes, d, links, roots)
  {
    CardEntries(nodes, selected, links - roots, depths, rows, Marked(lineage, roots));
    forall k ensures Shown(nodes, k) <==> Has(selected, k) { ShownIffChosen(selected, nodes, k); }
    forall k | k in links ensures Shown(nodes, k) {
      var i :| 0 <= i < |selected| && selected[i].key == k;
      assert nodes[i].key == k;
    }
  }

  lemma ParentsOfCards(selected: Selected, parents: map<Identity, Identity>, depths: map<Identity, nat>,
                       levels: map<nat, seq<Identity>>, rows: map<Identity, nat>, lineage: map<Identity, Lineage>,
                       nodes: seq<Node>)
    requires ForestTable(selected, parents, depths, levels)
    requires CardsOf(nodes, selected, parents, depths, rows, lineage)
    ensures ParentsPresent(nodes)
  {
    forall i | 0 <= i < |nodes| && nodes[i].parentKey.Some? ensures exists j :: ParentAt(nodes, i, j) {
      var k := selected[i].key;
      assert k == KeysOf(selected)[i] && k in Elements(KeysOf(selected));
      assert parents[k] in KeysOf(selected);
      var j :| 0 <= j < |selected| && KeysOf(selected)[j] == parents[k];
      assert ParentAt(nodes, i, j);
    }
  }

  function Marked(lineage: map<Identity, Lineage>, roots: set<Identity>): map<Identity, Lineage> {
    lineage + map k | k in roots :: CycleRoot
  }

  /** The selection as its cards show it. */
  function EntriesIn(nodes: seq<Node>): (entries: Selected)
    ensures |entries| == |nodes|
    ensures forall i :: 0 <= i < |entries| ==>
      entries[i] == Entry(nodes[i].key, Chosen(nodes[i].actor, nodes[i].context))
  {
    seq(|nodes|, i requires 0 <= i < |nodes| => Entry(nodes[i].key, Chosen(nodes[i].actor, nodes[i].context)))
  }

  lemma CardEntries(nodes: seq<Node>, selected: Selected, parents: map<Identity, Identity>,
                    depths: map<Identity, nat>, rows: map<Identity, nat>, lineage: map<Identity, Lineage>)
    requires CardsOf(nodes, selected, parents, depths, rows, lineage)
    ensures EntriesIn(nodes) == selected
  {
  }

  /** No two cards overlap and all fit the canvas, each in its cell; parent links
      between shown workers are drawn except one per cycle, each one column to the
      right. */
  ghost predicate WellDrawn(layout: Layout, links: map<Identity, Identity>, roots: set<Identity>) {
    && CardsPlaced(layout.nodes, layout.width, layout.height) && OnGrid(layout.nodes, links - roots)
    && DistinctCards(layout.nodes) && EdgesJoin(layout.nodes, layout.edges)
    && LinksAmong(layout.nodes, links) && CyclesCut(KeysIn(layout.nodes), links, roots)
  }

  method ArrangeForest(selected: Selected, d: Directory, omitted: nat)
    returns (layout: Layout, ghost links: map<Identity, Identity>, ghost roots: set<Identity>)
    requires DistinctKeys(selected)
    ensures EntriesIn(layout.nodes) == selected && layout.omitted == omitted
    ensures WellDrawn(layout, links, roots) && LineageExact(layout.nodes, d, links, roots)
  {
    var parentKeys, lineage, cut, depths, levels := GrowForest(selected, d);
    links, roots := parentKeys, cut;
    var broken, marked := parentKeys - cut, Marked(lineage, cut);
    ghost var rows;
    var nodes, width, height;
    nodes, width, height, rows := PlaceCards(selected, broken, depths, levels, marked);
    LineageOfCards(selected, d, parentKeys, lineage, cut, depths, rows, nodes);
    ParentsOfCards(selected, broken, depths, levels, rows, marked, nodes);
    CardEntries(nodes, selected, broken, depths, rows, marked);
    assert KeysIn(nodes) == KeysOf(selected);
    var edges := JoinCards(nodes);
    layout := Layout(nodes, edges, width, height, omitted);
  }

  /** One edge of each cycle goes, and it is settled which. */
  ghost predicate CyclesCut(keys: seq<Identity>, links: map<Identity, Identity>, roots: set<Identity>) {
    && OnePerCycle(links, roots) && (forall r :: r in roots ==> FirstEntry(keys, links, r))
    && forall k :: OnCycle(links, k) ==> exists r :: r in roots && Reaches(links, k, r)
  }

  method GrowForest(selected: Selected, d: Directory)
    returns (links: map<Identity, Identity>, lineage: map<Identity, Lineage>, cut: set<Identity>,
             depths: map<Identity, nat>, levels: map<nat, seq<Identity>>)
    requires DistinctKeys(selected)
    ensures LinkedSoFar(selected, d, |selected|, links, lineage)
    ensures cut <= links.Keys && CyclesCut(KeysOf(selected), links, cut)
    ensures ForestTable(selected, links - cut, depths, levels)
  {
    hide LinkedSoFar, HasDepths, LevelsOf, OnePerCycle, FirstEntry;
    links, lineage := LinkParents(selected, d);
    LinksWithin(selected, d, links, lineage);
    var keys := KeysOf(selected);
    assert Distinct(keys);
    hide Distinct;
    ghost var depth;
    var broken;
    broken, cut, depth := BreakCycles(keys, links);
    RootsLinked(links, cut);
    depths, levels := BreadthFirst(keys, broken, depth);
  }

  lemma RootsLinked(p: map<Identity, Identity>, roots: set<Identity>)
    requires OnePerCycle(p, roots)
    ensures roots <= p.Keys
  {
    forall r | r in roots ensures r in p {
      var n: nat :| n > 0 && Walk(p, r, n) == Some(r);
    }
  }

  predicate Drawn(actors: seq<Actor>, hostRun: Option<string>, limit: int) {
    hostRun.Some? && hostRun.value != "" && actors != [] && limit > 0
  }

  /** What the cards of a run show: every living worker with priority; with room
      to spare all living ones and, if asked for, all recorded ones; besides them
      only terminal ancestors of the former, all of them if they have room and none
      is hidden. */
  ghost predicate ShowsRun(current: seq<Actor>, includeHistory: bool, limit: nat, nodes: seq<Node>)
    requires limit > 0
  {
    var d, priority, cards := DirectoryOf(current), Priority(current, limit), EntriesIn(nodes);
    && cards == Selection(current, includeHistory, limit)
    && Justified(current, includeHistory, priority, cards)
    && AllChosen(priority, cards)
    && (|nodes| < limit ==> AllChosen(Living(current), cards))
    && (|nodes| < limit && includeHistory ==> AllChosen(current, cards))
    && (|Wanted(current, limit)| <= limit && NoneHidden(d, priority) ==> AncestorsShown(d, priority, cards))
  }

  /** The counter, and when it is right. */
  ghost predicate CountsOmitted(current: seq<Actor>, includeHistory: bool, limit: nat, layout: Layout)
    requires limit > 0
  {
    && layout.omitted == Omitted(current, includeHistory, EntriesIn(layout.nodes))
    && (layout.omitted == |Missing(current, includeHistory, EntriesIn(layout.nodes))| <==>
          && NoneTwice(Visible(current, includeHistory))
          && (includeHistory || ContextKept(current, limit) !! Identities(Living(current))))
  }

  method LayoutRun(current: seq<Actor>, includeHistory: bool, limit: nat)
    returns (layout: Layout, ghost links: map<Identity, Identity>, ghost roots: set<Identity>)
    requires limit > 0
    ensures |layout.nodes| <= limit
    ensures WellDrawn(layout, links, roots) && LineageExact(layout.nodes, DirectoryOf(current), links, roots)
    ensures ShowsRun(current, includeHistory, limit, layout.nodes)
    ensures CountsOmitted(current, includeHistory, limit, layout)
  {
    hide WellDrawn, LineageExact, Selection, Wanted, NoneHidden, Justified, AllChosen, AncestorsShown;
    hide NoneTwice, Missing, Omitted, ContextKept;
    var selected := SelectWorkers(current, includeHistory, limit);
    SelectionFacts(current, includeHistory, limit);
    AncestorsSelected(current, includeHistory, limit);
    OmittedExact(current, includeHistory, limit);
    layout, links, roots := ArrangeForest(selected, DirectoryOf(current), Omitted(current, includeHistory, selected));
  }

  const NoCards := Layout([], [], NODE_WIDTH, NODE_HEIGHT, 0)

  lemma NothingDrawn()
    ensures WellDrawn(NoCards, map[], {})
  {
    NoCycles();
  }

  /** The layout of a host run: at most `limit` cards, well drawn. */
  method LayoutActiveWorkers(actors: seq<Actor>, hostRun: Option<string>, includeHistory: bool, limit: int)
    returns (layout: Layout, ghost links: map<Identity, Identity>, ghost roots: set<Identity>)
    ensures |layout.nodes| <= Max(0, limit) && WellDrawn(layout, links, roots)
    ensures !Drawn(actors, hostRun, limit) ==> layout == NoCards
    ensures Drawn(actors, hostRun, limit) ==>
      var current := OfRun(actors, hostRun.value);
      && LineageExact(layout.nodes, DirectoryOf(current), links, roots)
      && ShowsRun(current, includeHistory, limit, layout.nodes)
      && CountsOmitted(current, includeHistory, limit, layout)
      && ShowsListed(actors, hostRun.value, includeHistory, limit, EntriesIn(layout.nodes))
  {
    hide WellDrawn, LineageExact, Selection, Justified, AllChosen, AncestorsShown, CountsOmitted, ShowsListed;
    if hostRun.None? || hostRun.value == "" || actors == [] || limit <= 0 {
      layout, links, roots := NoCards, map[], {};
      NothingDrawn();
      return;
    }
    layout, links, roots := LayoutRun(OfRun(actors, hostRun.value), includeHistory, limit);
    ListedShown(actors, hostRun.value, includeHistory, limit);
  }

  lemma NoCycles()
    ensures forall k: Identity :: !OnCycle(map[], k)
  {
    forall k: Identity ensures !OnCycle(map[], k) {
      forall n: nat | n > 0 ensures Walk(map[], k, n) != Some(k) {}
    }
  }
}
