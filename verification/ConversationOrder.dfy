/** The conversation tree built from its rows (web/src/selectors.ts). */
module ConversationOrder {
  import opened JsMap
  import opened Sequences
  import opened ParentForest
  import opened PathIndex
  import Tree = ConversationTree

  function IdsOf(nodes: seq<Node>): (ids: seq<Id>)
    ensures |ids| == |nodes| && forall i :: 0 <= i < |nodes| ==> ids[i] == nodes[i].id
  {
    seq(|nodes|, i requires 0 <= i < |nodes| => nodes[i].id)
  }

  /** `p` links each row to its parent when that parent is a row itself. */
  ghost predicate PresentParents(nodes: seq<Node>, p: map<Id, Id>) {
    && Within(p, Elements(IdsOf(nodes)))
    && forall i :: 0 <= i < |nodes| ==>
         (if nodes[i].id in p then ParentOf(nodes, nodes[i]) == Some(p[nodes[i].id])
          else ParentOf(nodes, nodes[i]).None? || ParentOf(nodes, nodes[i]).value !in IdsOf(nodes))
  }

  /** The rows whose parent is named but missing. */
  ghost predicate MissingParents(nodes: seq<Node>, orphans: set<Id>) {
    forall i :: 0 <= i < |nodes| ==> (nodes[i].id in orphans <==>
      ParentOf(nodes, nodes[i]).Some? && ParentOf(nodes, nodes[i]).value !in IdsOf(nodes))
  }

  lemma LinksResolved(nodes: seq<Node>, parents: map<Id, Option<Id>>, p: map<Id, Id>, orphans: set<Id>)
    requires DistinctIds(nodes) && Resolved(nodes, |nodes|, parents)
    requires var ids := IdsOf(nodes);
      && p == (map k | k in parents && parents[k].Some? && parents[k].value in ids :: parents[k].value)
      && orphans == (set k | k in parents && parents[k].Some? && parents[k].value !in ids)
    ensures PresentParents(nodes, p) && MissingParents(nodes, orphans)
  {
    hide ParentOf;
    var ids := IdsOf(nodes);
    forall i | 0 <= i < |nodes| ensures nodes[i].id in parents && parents[nodes[i].id] == ParentOf(nodes, nodes[i]) {
      assert LastOf(nodes, |nodes|, i);
    }
    forall k | k in p ensures k in ids && p[k] in ids {
      assert k in parents;
      var i :| 0 <= i < |nodes| && nodes[i].id == k;
      assert ids[i] == k;
    }
  }

  /** For rows with distinct ids: the rows come out once each, in stable pre-order
      of the parents that `resolveParentIds` gives, and the last loop is idle. */
  method OrderConversationTree(nodes: seq<Node>)
    returns (rows: seq<Tree.Row>, late: seq<Id>, ghost p: map<Id, Id>, ghost orphans: set<Id>, ghost at: map<Id, nat>)
    requires DistinctIds(nodes)
    ensures PresentParents(nodes, p) && MissingParents(nodes, orphans)
    ensures Tree.StablePreorder(p, IdsOf(nodes), orphans, rows, at)
    ensures late == []
  {
    hide ParentOf, Resolved, Tree.StablePreorder;
    var ids := IdsOf(nodes);
    var parents := ResolveParentIds(nodes);
    var links := map k | k in parents && parents[k].Some? && parents[k].value in ids :: parents[k].value;
    var missing := set k | k in parents && parents[k].Some? && parents[k].value !in ids;
    LinksResolved(nodes, parents, links, missing);
    p, orphans := links, missing;
    rows, late, at := Tree.OrderRows(links, ids, missing);
  }
}
