/** Parents of conversations by path (web/src/selectors.ts). The index is a trie
    of mutable nodes; a node is a cell of `cells`, a reference to it its position. */
module PathIndex {
  import opened JsMap
  import opened Sequences

  type Id = string
  type Path = seq<string>

  /** `own` tells whether the row carries a parent at all; it may be null. */
  datatype Node = Node(id: Id, name: string, own: bool, parentId: Option<Id>)

  /** `name.split('/').filter(Boolean)` */
  function PartsFrom(name: string, current: string): Path {
    if name == "" then Kept(current)
    else if name[0] == '/' then Kept(current) + PartsFrom(name[1..], "")
    else PartsFrom(name[1..], current + [name[0]])
  }

  function Kept(part: string): Path { if part == "" then [] else [part] }

  function Parts(name: string): Path { PartsFrom(name, "") }

  // ---------------------------------------------------- naive reference

  /** The nodes at a path. */
  function HoldersAt(nodes: seq<Node>, path: Path): seq<Id> {
    if nodes == [] then []
    else
      var init, last := HoldersAt(nodes[..|nodes| - 1], path), nodes[|nodes| - 1];
      if Parts(last.name) == path then init + [last.id] else init
  }

  function SoleHolder(nodes: seq<Node>, path: Path): Option<Id> {
    var holders := HoldersAt(nodes, path);
    if |holders| == 1 then Some(holders[0]) else None
  }

  predicate OtherAbsolute(name: string) { name != "/" && name != "" && name[0] == '/' }

  /** The longest of the first `n` proper non-empty prefixes with a sole holder,
      else the sole root of an absolute path other than `/`. */
  function NaiveParent(nodes: seq<Node>, name: string, n: nat): Option<Id>
    requires n <= |Parts(name)|
  {
    if n == 0 then (if OtherAbsolute(name) then SoleHolder(nodes, []) else None)
    else
      var here := SoleHolder(nodes, Parts(name)[..n]);
      if here.Some? then here else NaiveParent(nodes, name, n - 1)
  }

  function ParentByPath(nodes: seq<Node>, name: string): Option<Id> {
    NaiveParent(nodes, name, if Parts(name) == [] then 0 else |Parts(name)| - 1)
  }

  function ParentOf(nodes: seq<Node>, node: Node): Option<Id> {
    if node.own then node.parentId else ParentByPath(nodes, node.name)
  }

  ghost predicate Barren(nodes: seq<Node>, name: string, from: nat) {
    forall m :: from < m < |Parts(name)| ==> SoleHolder(nodes, Parts(name)[..m]).None?
  }

  /** The parent is the sole holder of the longest proper prefix that has one;
      failing all of them, the sole root for other absolute paths; else none. */
  ghost predicate LongestPrefixParent(nodes: seq<Node>, name: string, parent: Option<Id>) {
    || (exists n :: 0 < n < |Parts(name)| && SoleHolder(nodes, Parts(name)[..n]) == parent && parent.Some?
          && Barren(nodes, name, n))
    || (Barren(nodes, name, 0)
        && parent == if name != "" && name[0] == '/' && |name| > 1 then SoleHolder(nodes, []) else None)
  }

  // ------------------------------------------------------- what a path is

  lemma {:induction false} PartsOfJoined(a: string, b: string, current: string)
    ensures PartsFrom(a + "/" + b, current) == PartsFrom(a, current) + Parts(b)
  {
    var s := a + "/" + b;
    if a == "" {
      assert s[0] == '/' && s[1..] == b;
    } else {
      assert s[0] == a[0] && s[1..] == a[1..] + "/" + b;
      if a[0] == '/' {
        PartsOfJoined(a[1..], b, "");
        assert Kept(current) + (PartsFrom(a[1..], "") + Parts(b)) == (Kept(current) + PartsFrom(a[1..], "")) + Parts(b);
      } else {
        PartsOfJoined(a[1..], b, current + [a[0]]);
      }
    }
  }

  lemma {:induction false} PartsOfPlain(a: string, current: string)
    requires '/' !in a
    ensures PartsFrom(a, current) == Kept(current + a)
  {
    if a == "" {
      assert current + a == current;
    } else {
      PartsOfPlain(a[1..], current + [a[0]]);
      assert current + [a[0]] + a[1..] == current + a;
    }
  }

  /** The parts of a path: none of the empty one, a name without slash is its own, and
      a slash divides; so slashes at either end, and several in a row, count for nothing. */
  lemma PartsExact(a: string, b: string)
    ensures Parts("") == [] && (a != "" && '/' !in a ==> Parts(a) == [a])
    ensures Parts(a + "/" + b) == Parts(a) + Parts(b)
  {
    PartsOfJoined(a, b, "");
    if '/' !in a {
      PartsOfPlain(a, "");
      assert "" + a == a;
    }
  }

  /** The only row at a path. */
  ghost predicate OnlyAt(nodes: seq<Node>, path: Path, i: nat) {
    && i < |nodes| && Parts(nodes[i].name) == path
    && forall j :: 0 <= j < |nodes| && j != i ==> Parts(nodes[j].name) != path
  }

  lemma OnlyNext(nodes: seq<Node>, path: Path, i: nat)
    requires nodes != []
    ensures var init, last := nodes[..|nodes| - 1], |nodes| - 1;
      OnlyAt(nodes, path, i) <==>
      if i < last then OnlyAt(init, path, i) && Parts(nodes[last].name) != path
      else
        && i == last && Parts(nodes[last].name) == path
        && forall j :: 0 <= j < last ==> Parts(nodes[j].name) != path
  {
    hide Parts;
    var init, last := nodes[..|nodes| - 1], |nodes| - 1;
    assert forall j :: 0 <= j < last ==> init[j] == nodes[j];
  }

  lemma {:induction false} HoldersEmpty(nodes: seq<Node>, path: Path)
    ensures HoldersAt(nodes, path) == [] <==> forall j :: 0 <= j < |nodes| ==> Parts(nodes[j].name) != path
  {
    hide Parts;
    if nodes != [] { HoldersEmpty(nodes[..|nodes| - 1], path); }
  }

  /** A path has a sole holder exactly if one row only is there. */
  lemma {:induction false} SoleExact(nodes: seq<Node>, path: Path) returns (i: nat)
    ensures SoleHolder(nodes, path).Some? ==>
      OnlyAt(nodes, path, i) && SoleHolder(nodes, path) == Some(nodes[i].id)
    ensures SoleHolder(nodes, path).None? ==> forall k: nat :: !OnlyAt(nodes, path, k)
  {
    hide Parts, OnlyAt;
    i := 0;
    if nodes == [] {
      forall k: nat ensures !OnlyAt(nodes, path, k) { OnlyWithin(nodes, path, k); }
    } else {
      var init, last := nodes[..|nodes| - 1], |nodes| - 1;
      HoldersEmpty(init, path);
      var before := SoleExact(init, path);
      i := if Parts(nodes[last].name) == path then last else before;
      forall k: nat
        ensures OnlyAt(nodes, path, k) <==>
          if k < last then OnlyAt(init, path, k) && Parts(nodes[last].name) != path
          else k == last && Parts(nodes[last].name) == path && HoldersAt(init, path) == []
      {
        OnlyNext(nodes, path, k);
      }
      if Parts(nodes[last].name) != path && SoleHolder(init, path).Some? { OnlyWithin(init, path, before); }
    }
  }

  lemma OnlyWithin(nodes: seq<Node>, path: Path, i: nat)
    requires OnlyAt(nodes, path, i) || nodes == []
    ensures OnlyAt(nodes, path, i) <==> nodes != []
    ensures OnlyAt(nodes, path, i) ==> i < |nodes|
  {
  }

  lemma {:induction false} NaiveLongest(nodes: seq<Node>, name: string, n: nat)
    requires n == 0 || n < |Parts(name)|
    requires Barren(nodes, name, n)
    ensures LongestPrefixParent(nodes, name, NaiveParent(nodes, name, n))
  {
    if n > 0 && SoleHolder(nodes, Parts(name)[..n]).None? {
      NaiveLongest(nodes, name, n - 1);
    }
  }

  /** The naive answer is the only one that fits. */
  lemma ParentIsLongest(nodes: seq<Node>, name: string, parent: Option<Id>)
    ensures LongestPrefixParent(nodes, name, parent) <==> parent == ParentByPath(nodes, name)
  {
    NaiveLongest(nodes, name, if Parts(name) == [] then 0 else |Parts(name)| - 1);
  }

  lemma {:induction false} HoldersExact(nodes: seq<Node>, path: Path)
    ensures forall i :: 0 <= i < |nodes| && Parts(nodes[i].name) == path ==> nodes[i].id in HoldersAt(nodes, path)
    ensures forall id :: id in HoldersAt(nodes, path) ==>
      exists i :: 0 <= i < |nodes| && Parts(nodes[i].name) == path && nodes[i].id == id
  {
    if nodes != [] {
      var init := nodes[..|nodes| - 1];
      HoldersExact(init, path);
      forall id | id in HoldersAt(nodes, path)
        ensures exists i :: 0 <= i < |nodes| && Parts(nodes[i].name) == path && nodes[i].id == id
      {
        if id in HoldersAt(init, path) {
          var i :| 0 <= i < |init| && Parts(init[i].name) == path && init[i].id == id;
          assert nodes[i].id == id;
        } else {
          assert nodes[|nodes| - 1].id == id;
        }
      }
    }
  }

  lemma HolderNode(nodes: seq<Node>, path: Path) returns (j: nat)
    requires SoleHolder(nodes, path).Some?
    ensures j < |nodes| && Parts(nodes[j].name) == path && nodes[j].id == SoleHolder(nodes, path).value
  {
    HoldersExact(nodes, path);
    var id := SoleHolder(nodes, path).value;
    assert id in HoldersAt(nodes, path);
    j :| 0 <= j < |nodes| && Parts(nodes[j].name) == path && nodes[j].id == id;
  }

  ghost predicate DistinctIds(nodes: seq<Node>) {
    forall i, j :: 0 <= i < j < |nodes| ==> nodes[i].id != nodes[j].id
  }

  /** The guard of the one way in which a path makes a node its own parent:
      it is the only root and spelled with more than one slash. */
  predicate SoleDoubledRoot(nodes: seq<Node>, name: string) {
    Parts(name) == [] && OtherAbsolute(name) && |HoldersAt(nodes, [])| == 1
  }

  /** An inferred parent has a shorter path, except for a node that is its own. */
  lemma InferredParentShorter(nodes: seq<Node>, i: nat) returns (j: nat)
    requires DistinctIds(nodes) && i < |nodes| && ParentByPath(nodes, nodes[i].name).Some?
    ensures j < |nodes| && nodes[j].id == ParentByPath(nodes, nodes[i].name).value
    ensures if SoleDoubledRoot(nodes, nodes[i].name) then j == i else |Parts(nodes[j].name)| < |Parts(nodes[i].name)|
  {
    var name := nodes[i].name;
    ParentIsLongest(nodes, name, ParentByPath(nodes, name));
    var parent := ParentByPath(nodes, name);
    var n: nat :| n <= |Parts(name)| && SoleHolder(nodes, Parts(name)[..n]) == parent
      && (n < |Parts(name)| || SoleDoubledRoot(nodes, name));
    j := HolderNode(nodes, Parts(name)[..n]);
    if SoleDoubledRoot(nodes, name) {
      assert Parts(name)[..n] == [];
      HoldersExact(nodes, []);
      assert nodes[i].id in HoldersAt(nodes, []);
    }
  }

  /** A path makes a node its own parent exactly for the sole doubled root. */
  lemma SelfParentExact(nodes: seq<Node>, i: nat)
    requires DistinctIds(nodes) && i < |nodes|
    ensures ParentByPath(nodes, nodes[i].name) == Some(nodes[i].id) <==> SoleDoubledRoot(nodes, nodes[i].name)
  {
    if ParentByPath(nodes, nodes[i].name).Some? {
      var j := InferredParentShorter(nodes, i);
    }
  }

  /** Such a node exists. */
  lemma DoubledRootIsItsOwnParent(id: Id)
    ensures var node := Node(id, "//", false, None); ParentOf([node], node) == Some(id)
  {
    assert PartsFrom("/", "") == [];
    assert Parts("//") == [];
    assert HoldersAt([], []) == [];
  }

  // ---------------------------------------------------------- the trie

  datatype Mark = Unset | Only(id: Id) | Ambiguous

  datatype Cell = Cell(children: map<string, nat>, mark: Mark)

  function MarkOf(holders: seq<Id>): Mark {
    if holders == [] then Unset else if |holders| == 1 then Only(holders[0]) else Ambiguous
  }

  ghost predicate LinksDown(cells: seq<Cell>, paths: seq<Path>)
    requires |cells| == |paths|
  {
    forall i, part :: 0 <= i < |cells| && part in cells[i].children ==>
      cells[i].children[part] < |cells| && paths[cells[i].children[part]] == paths[i] + [part]
  }

  ghost predicate AllLinked(cells: seq<Cell>, paths: seq<Path>)
    requires |cells| == |paths|
  {
    forall j :: 0 < j < |paths| ==> paths[j] != [] && Linked(cells, paths, j)
  }

  /** `paths` gives the path of each cell; links and paths agree both ways. */
  ghost predicate Trie(cells: seq<Cell>, paths: seq<Path>) {
    && |cells| == |paths| > 0 && paths[0] == []
    && LinksDown(cells, paths) && Distinct(paths) && AllLinked(cells, paths)
  }

  /** The cell of the parent path links to cell `j`. */
  ghost predicate Linked(cells: seq<Cell>, paths: seq<Path>, j: nat)
    requires j < |paths| && paths[j] != [] && |cells| == |paths|
  {
    var path := paths[j];
    exists i :: 0 <= i < |paths| && paths[i] == path[..|path| - 1]
      && path[|path| - 1] in cells[i].children && cells[i].children[path[|path| - 1]] == j
  }

  ghost predicate Covered(paths: seq<Path>, parts: Path) {
    forall k :: 0 <= k <= |parts| ==> parts[..k] in paths
  }

  /** The trie that holds the paths of `done`. */
  ghost predicate Indexes(cells: seq<Cell>, paths: seq<Path>, done: seq<Node>) {
    && Trie(cells, paths)
    && (forall j :: 0 <= j < |cells| ==> cells[j].mark == MarkOf(HoldersAt(done, paths[j])))
    && (forall i :: 0 <= i < |done| ==> Covered(paths, Parts(done[i].name)))
  }

  lemma LinkBelow(cells: seq<Cell>, paths: seq<Path>, cursor: nat, part: string)
    requires |cells| == |paths| && cursor < |cells| && LinksDown(cells, paths) && part in cells[cursor].children
    ensures paths[cursor] + [part] in paths
  {
    assert paths[cells[cursor].children[part]] == paths[cursor] + [part];
  }

  lemma LinkAbove(cells: seq<Cell>, paths: seq<Path>, cursor: nat, part: string, j: nat)
    requires |cells| == |paths| && cursor < |cells| && Distinct(paths)
    requires j < |paths| && paths[j] == paths[cursor] + [part] && Linked(cells, paths, j)
    ensures part in cells[cursor].children
  {
    var path := paths[j];
    assert path[..|path| - 1] == paths[cursor] && path[|path| - 1] == part;
    var i :| 0 <= i < |paths| && paths[i] == path[..|path| - 1] && path[|path| - 1] in cells[i].children;
    assert i == cursor;
  }

  /** A cell's link is there exactly when the extended path is indexed. */
  lemma LinkExact(cells: seq<Cell>, paths: seq<Path>, cursor: nat, part: string)
    requires Trie(cells, paths) && cursor < |cells|
    ensures part in cells[cursor].children <==> paths[cursor] + [part] in paths
  {
    hide LinksDown, Linked, Distinct;
    var path := paths[cursor] + [part];
    if part in cells[cursor].children { LinkBelow(cells, paths, cursor, part); }
    if path in paths {
      var j :| 0 <= j < |paths| && paths[j] == path;
      assert path != [] && j != 0 && Linked(cells, paths, j);
      LinkAbove(cells, paths, cursor, part, j);
    }
  }

  function Extended(cells: seq<Cell>, cursor: nat, part: string): seq<Cell>
    requires cursor < |cells|
  {
    var cell := cells[cursor];
    cells[cursor := cell.(children := cell.children[part := |cells|])] + [Cell(map[], Unset)]
  }

  /** The trie after a cell for a new path is linked to `cursor`. */
  lemma GrowTrie(cells: seq<Cell>, paths: seq<Path>, cursor: nat, part: string)
    requires Trie(cells, paths) && cursor < |cells| && part !in cells[cursor].children
    ensures Trie(Extended(cells, cursor, part), paths + [paths[cursor] + [part]])
  {
    LinkExact(cells, paths, cursor, part);
    GrowLinks(cells, paths, cursor, part);
    GrowAllLinked(cells, paths, cursor, part);
  }

  lemma GrowLinks(cells: seq<Cell>, paths: seq<Path>, cursor: nat, part: string)
    requires |cells| == |paths| && LinksDown(cells, paths) && cursor < |cells| && part !in cells[cursor].children
    ensures LinksDown(Extended(cells, cursor, part), paths + [paths[cursor] + [part]])
  {
    var cells', paths' := Extended(cells, cursor, part), paths + [paths[cursor] + [part]];
    forall i, name | 0 <= i < |cells'| && name in cells'[i].children
      ensures cells'[i].children[name] < |cells'| && paths'[cells'[i].children[name]] == paths'[i] + [name]
    {
      if !(i == cursor && name == part) {
        assert name in cells[i].children && cells'[i].children[name] == cells[i].children[name];
      }
    }
  }

  lemma ExtendedKeeps(cells: seq<Cell>, cursor: nat, part: string, i: nat, name: string)
    requires cursor < |cells| && part !in cells[cursor].children && i < |cells| && name in cells[i].children
    ensures var cells' := Extended(cells, cursor, part);
      name in cells'[i].children && cells'[i].children[name] == cells[i].children[name]
  {
  }

  lemma NewLinked(cells: seq<Cell>, paths: seq<Path>, cursor: nat, part: string)
    requires |cells| == |paths| && cursor < |cells|
    ensures Linked(Extended(cells, cursor, part), paths + [paths[cursor] + [part]], |cells|)
  {
    var path := paths[cursor] + [part];
    var cells', paths' := Extended(cells, cursor, part), paths + [path];
    assert path[..|path| - 1] == paths[cursor] == paths'[cursor];
    assert cells'[cursor].children[part] == |cells|;
  }

  lemma GrowAllLinked(cells: seq<Cell>, paths: seq<Path>, cursor: nat, part: string)
    requires |cells| == |paths| && AllLinked(cells, paths) && cursor < |cells| && part !in cells[cursor].children
    ensures AllLinked(Extended(cells, cursor, part), paths + [paths[cursor] + [part]])
  {
    hide Extended, Linked;
    var cells', paths' := Extended(cells, cursor, part), paths + [paths[cursor] + [part]];
    assert |cells'| == |cells| + 1 by { ExtendedSize(cells, cursor, part); }
    NewLinked(cells, paths, cursor, part);
    forall i, name | 0 <= i < |cells| && name in cells[i].children
      ensures name in cells'[i].children && cells'[i].children[name] == cells[i].children[name]
    {
      ExtendedKeeps(cells, cursor, part, i, name);
    }
    forall j | 0 < j < |paths| ensures paths'[j] != [] && Linked(cells', paths', j) {
      assert paths'[j] == paths[j];
      LinkKept(cells, paths, j, cells', paths');
    }
  }

  lemma ExtendedSize(cells: seq<Cell>, cursor: nat, part: string)
    requires cursor < |cells|
    ensures |Extended(cells, cursor, part)| == |cells| + 1
  {
  }

  lemma LinkKept(cells: seq<Cell>, paths: seq<Path>, j: nat, cells': seq<Cell>, paths': seq<Path>)
    requires j < |paths| && paths[j] != [] && |cells| == |paths| && |cells'| == |paths'| && paths <= paths'
    requires Linked(cells, paths, j)
    requires forall i, part :: 0 <= i < |cells| && part in cells[i].children ==>
      part in cells'[i].children && cells'[i].children[part] == cells[i].children[part]
    ensures Linked(cells', paths', j)
  {
    var path := paths[j];
    var i :| 0 <= i < |paths| && paths[i] == path[..|path| - 1] && path[|path| - 1] in cells[i].children
      && cells[i].children[path[|path| - 1]] == j;
    assert paths'[i] == paths[i] && paths'[j] == path;
  }

  /** No node is held at a path the index does not have. */
  lemma UnindexedEmpty(cells: seq<Cell>, paths: seq<Path>, done: seq<Node>, path: Path)
    requires Indexes(cells, paths, done) && path !in paths
    ensures HoldersAt(done, path) == []
  {
    forall i | 0 <= i < |done| ensures Parts(done[i].name) != path {
      var parts := Parts(done[i].name);
      assert Covered(paths, parts) && parts[..|parts|] == parts;
    }
    NoHolders(done, path);
  }

  lemma NoHolders(nodes: seq<Node>, path: Path)
    requires forall i :: 0 <= i < |nodes| ==> Parts(nodes[i].name) != path
    ensures HoldersAt(nodes, path) == []
  {
  }

  /** One turn of the insertion loop: follow the link or make it. */
  method StepInto(cells: seq<Cell>, ghost paths: seq<Path>, ghost done: seq<Node>, cursor: nat, part: string)
    returns (cells': seq<Cell>, ghost paths': seq<Path>, child: nat)
    requires Indexes(cells, paths, done) && cursor < |cells|
    ensures Indexes(cells', paths', done) && paths <= paths'
    ensures child < |cells'| == |paths'| && paths'[child] == paths[cursor] + [part]
  {
    if part in cells[cursor].children {
      cells', paths', child := cells, paths, cells[cursor].children[part];
    } else {
      GrowTrie(cells, paths, cursor, part);
      LinkExact(cells, paths, cursor, part);
      UnindexedEmpty(cells, paths, done, paths[cursor] + [part]);
      child := |cells|;
      paths' := paths + [paths[cursor] + [part]];
      cells' := Extended(cells, cursor, part);
      CoverKept(paths, paths', done);
    }
  }

  lemma CoverKept(paths: seq<Path>, paths': seq<Path>, done: seq<Node>)
    requires paths <= paths' && forall i :: 0 <= i < |done| ==> Covered(paths, Parts(done[i].name))
    ensures forall i :: 0 <= i < |done| ==> Covered(paths', Parts(done[i].name))
  {
    forall i, k | 0 <= i < |done| && 0 <= k <= |Parts(done[i].name)| ensures Parts(done[i].name)[..k] in paths' {
      var path := Parts(done[i].name)[..k];
      assert Covered(paths, Parts(done[i].name));
      var j :| 0 <= j < |paths| && paths[j] == path;
      assert paths'[j] == path;
    }
  }

  lemma {:induction false} HoldersGrow(done: seq<Node>, node: Node, path: Path)
    ensures HoldersAt(done + [node], path) ==
      HoldersAt(done, path) + (if Parts(node.name) == path then [node.id] else [])
  {
    assert (done + [node])[..|done|] == done;
  }

  /** Marking the cell of a node's path extends the index by that node. */
  lemma MarkCell(cells: seq<Cell>, paths: seq<Path>, done: seq<Node>, node: Node, cursor: nat)
    requires Indexes(cells, paths, done) && cursor < |cells| && paths[cursor] == Parts(node.name)
    requires Covered(paths, Parts(node.name))
    ensures Indexes(cells[cursor := cells[cursor].(mark := Remark(cells[cursor].mark, node.id))], paths, done + [node])
  {
    var cells' := cells[cursor := cells[cursor].(mark := Remark(cells[cursor].mark, node.id))];
    MarkMatches(cells, paths, done, node, cursor);
    MarkKeepsTrie(cells, cells', paths);
  }

  lemma MarkMatches(cells: seq<Cell>, paths: seq<Path>, done: seq<Node>, node: Node, cursor: nat)
    requires |cells| == |paths| && forall j :: 0 <= j < |cells| ==> cells[j].mark == MarkOf(HoldersAt(done, paths[j]))
    requires Distinct(paths) && cursor < |cells| && paths[cursor] == Parts(node.name)
    ensures var marked := cells[cursor := cells[cursor].(mark := Remark(cells[cursor].mark, node.id))];
      forall j :: 0 <= j < |cells| ==> marked[j].mark == MarkOf(HoldersAt(done + [node], paths[j]))
  {
    hide HoldersAt, Parts;
    var marked := cells[cursor := cells[cursor].(mark := Remark(cells[cursor].mark, node.id))];
    forall j | 0 <= j < |cells| ensures marked[j].mark == MarkOf(HoldersAt(done + [node], paths[j])) {
      HoldersGrow(done, node, paths[j]);
    }
  }

  lemma MarkKeepsTrie(cells: seq<Cell>, cells': seq<Cell>, paths: seq<Path>)
    requires Trie(cells, paths) && |cells'| == |cells|
    requires forall i :: 0 <= i < |cells| ==> cells'[i].children == cells[i].children
    ensures Trie(cells', paths)
  {
    forall j | 0 < j < |paths| ensures paths[j] != [] && Linked(cells', paths, j) {
      LinkKept(cells, paths, j, cells', paths);
    }
  }

  function Remark(mark: Mark, id: Id): Mark { if mark == Unset then Only(id) else Ambiguous }

  method InsertNode(cells: seq<Cell>, ghost paths: seq<Path>, ghost done: seq<Node>, node: Node)
    returns (cells': seq<Cell>, ghost paths': seq<Path>)
    requires Indexes(cells, paths, done)
    ensures Indexes(cells', paths', done + [node])
  {
    hide Trie, HoldersAt, PartsFrom;
    cells', paths' := cells, paths;
    var cursor: nat, parts := 0, Parts(node.name);
    RootMark(cells, paths, done);
    for i := 0 to |parts|
      invariant Indexes(cells', paths', done)
      invariant cursor < |cells'| == |paths'| && paths'[cursor] == parts[..i]
      invariant Covered(paths', parts[..i])
    {
      ghost var before := paths';
      cells', paths', cursor := StepInto(cells', paths', done, cursor, parts[i]);
      CoverStep(before, paths', cursor, parts, i);
    }
    assert parts[..|parts|] == parts;
    MarkCell(cells', paths', done, node, cursor);
    cells' := cells'[cursor := cells'[cursor].(mark := Remark(cells'[cursor].mark, node.id))];
  }

  lemma CoverStep(before: seq<Path>, paths: seq<Path>, cursor: nat, parts: Path, i: nat)
    requires before <= paths && i < |parts| && Covered(before, parts[..i])
    requires cursor < |paths| && paths[cursor] == parts[..i] + [parts[i]]
    ensures paths[cursor] == parts[..i + 1] && Covered(paths, parts[..i + 1])
  {
    var upto := parts[..i + 1];
    forall k | 0 <= k <= |upto| ensures upto[..k] in paths {
      if k <= i {
        assert upto[..k] == parts[..i][..k];
        var j :| 0 <= j < |before| && before[j] == parts[..i][..k];
        assert paths[j] == before[j];
      } else {
        assert upto[..k] == paths[cursor];
      }
    }
  }

  lemma EmptyTrie()
    ensures Indexes([Cell(map[], Unset)], [[]], [])
  {
  }

  method BuildIndex(nodes: seq<Node>) returns (cells: seq<Cell>, ghost paths: seq<Path>)
    ensures Indexes(cells, paths, nodes)
  {
    hide Indexes;
    cells, paths := [Cell(map[], Unset)], [[]];
    EmptyTrie();
    for i := 0 to |nodes|
      invariant Indexes(cells, paths, nodes[..i])
    {
      cells, paths := InsertNode(cells, paths, nodes[..i], nodes[i]);
      assert nodes[..i] + [nodes[i]] == nodes[..i + 1];
    }
    assert nodes[..|nodes|] == nodes;
  }

  /** Following a link that must exist. */
  lemma FollowLink(cells: seq<Cell>, paths: seq<Path>, nodes: seq<Node>, node: Node, cursor: nat, i: nat)
    requires Indexes(cells, paths, nodes) && node in nodes && i < |Parts(node.name)|
    requires cursor < |cells| && paths[cursor] == Parts(node.name)[..i]
    ensures var part := Parts(node.name)[i];
      && part in cells[cursor].children && cells[cursor].children[part] < |cells|
      && paths[cells[cursor].children[part]] == Parts(node.name)[..i + 1]
      && cells[cells[cursor].children[part]].mark == MarkOf(HoldersAt(nodes, Parts(node.name)[..i + 1]))
  {
    hide HoldersAt, Parts;
    var parts := Parts(node.name);
    var m :| 0 <= m < |nodes| && nodes[m] == node;
    assert Covered(paths, parts);
    assert parts[..i + 1] == parts[..i] + [parts[i]];
    LinkExact(cells, paths, cursor, parts[i]);
  }

  /** The lookup loop finds what the naive search finds. */
  method LookUp(cells: seq<Cell>, ghost paths: seq<Path>, nodes: seq<Node>, node: Node) returns (parent: Option<Id>)
    requires Indexes(cells, paths, nodes) && node in nodes
    ensures parent == ParentByPath(nodes, node.name)
    ensures LongestPrefixParent(nodes, node.name, parent)
  {
    hide Indexes, HoldersAt, PartsFrom;
    RootMark(cells, paths, nodes);
    var cursor: nat, parts := 0, Parts(node.name);
    parent := if OtherAbsolute(node.name) && cells[0].mark.Only? then Some(cells[0].mark.id) else None;
    var n := if parts == [] then 0 else |parts| - 1;
    for i := 0 to n
      invariant cursor < |cells| == |paths| && paths[cursor] == parts[..i]
      invariant parent == NaiveParent(nodes, node.name, i)
    {
      FollowLink(cells, paths, nodes, node, cursor, i);
      cursor := cells[cursor].children[parts[i]];
      if cells[cursor].mark.Only? { parent := Some(cells[cursor].mark.id); }
    }
    ParentIsLongest(nodes, node.name, ParentByPath(nodes, node.name));
  }

  lemma RootMark(cells: seq<Cell>, paths: seq<Path>, nodes: seq<Node>)
    requires Indexes(cells, paths, nodes)
    ensures |cells| > 0 && |cells| == |paths| && paths[0] == [] && cells[0].mark == MarkOf(HoldersAt(nodes, []))
  {
  }

  // ------------------------------------------------------ resolveParentIds

  ghost predicate LastOf(nodes: seq<Node>, n: nat, i: nat)
    requires i < n <= |nodes|
  {
    forall j :: i < j < n ==> nodes[j].id != nodes[i].id
  }

  /** Every row has an entry; the last of several rows with one id decides it. */
  ghost predicate Resolved(nodes: seq<Node>, n: nat, parents: map<Id, Option<Id>>)
    requires n <= |nodes|
  {
    && (forall id :: id in parents ==> exists i :: 0 <= i < n && nodes[i].id == id)
    && (forall i :: 0 <= i < n ==> nodes[i].id in parents)
    && (forall i :: 0 <= i < n && LastOf(nodes, n, i) ==> parents[nodes[i].id] == ParentOf(nodes, nodes[i]))
  }

  lemma ResolveOne(nodes: seq<Node>, n: nat, parents: map<Id, Option<Id>>)
    requires n < |nodes| && Resolved(nodes, n, parents)
    ensures Resolved(nodes, n + 1, parents[nodes[n].id := ParentOf(nodes, nodes[n])])
  {
    hide ParentOf;
    var parents' := parents[nodes[n].id := ParentOf(nodes, nodes[n])];
    forall i | 0 <= i < n + 1 && LastOf(nodes, n + 1, i)
      ensures parents'[nodes[i].id] == ParentOf(nodes, nodes[i])
    {
      assert i < n ==> LastOf(nodes, n, i);
    }
    forall id | id in parents' ensures exists i :: 0 <= i < n + 1 && nodes[i].id == id {
      if id in parents {
        var i :| 0 <= i < n && nodes[i].id == id;
      } else {
        assert nodes[n].id == id;
      }
    }
  }

  method ResolveParentIds(nodes: seq<Node>) returns (parents: map<Id, Option<Id>>)
    ensures Resolved(nodes, |nodes|, parents)
  {
    hide ParentOf, Resolved;
    parents := map[];
    assert Resolved(nodes, 0, parents) by { NothingResolved(nodes); }
    if forall node :: node in nodes ==> node.own {
      for i := 0 to |nodes|
        invariant Resolved(nodes, i, parents)
      {
        OwnParent(nodes, nodes[i]);
        ResolveOne(nodes, i, parents);
        parents := parents[nodes[i].id := nodes[i].parentId];
      }
      return;
    }
    var cells, paths := BuildIndex(nodes);
    for i := 0 to |nodes|
      invariant Resolved(nodes, i, parents)
    {
      var parent := ParentFrom(cells, paths, nodes, nodes[i]);
      ResolveOne(nodes, i, parents);
      parents := parents[nodes[i].id := parent];
    }
  }

  lemma NothingResolved(nodes: seq<Node>)
    ensures Resolved(nodes, 0, map[])
  {
  }

  lemma OwnParent(nodes: seq<Node>, node: Node)
    requires node.own
    ensures ParentOf(nodes, node) == node.parentId
  {
  }

  method ParentFrom(cells: seq<Cell>, ghost paths: seq<Path>, nodes: seq<Node>, node: Node) returns (parent: Option<Id>)
    requires Indexes(cells, paths, nodes) && node in nodes
    ensures parent == ParentOf(nodes, node)
  {
    hide Indexes, ParentByPath;
    if node.own {
      parent := node.parentId;
    } else {
      parent := LookUp(cells, paths, nodes, node);
    }
  }
}
