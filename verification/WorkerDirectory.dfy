/** The actors of a run and the directory of them (web/src/active-worker-tree.ts). */
module WorkerDirectory {
  import opened JsMap
  import opened FunctionalGraph
  import HostCommands

  type Identity = HostCommands.Identity

  datatype Actor = Actor(identity: Identity, parent: Option<Identity>, lifecycle: string)

  /** A chosen actor; `context` marks one shown only to connect another. */
  datatype Chosen = Chosen(actor: Actor, context: bool)

  type Selected = Table<Identity, Chosen>

  type Directory = map<Identity, Actor>

  predicate Terminal(actor: Actor) { actor.lifecycle == "retired" || actor.lifecycle == "lost" }

  function OfRun(actors: seq<Actor>, run: string): seq<Actor> {
    if actors == [] then []
    else
      var init := OfRun(actors[..|actors| - 1], run);
      var last := actors[|actors| - 1];
      if last.identity.run == run then init + [last] else init
  }

  function Living(actors: seq<Actor>): seq<Actor> {
    if actors == [] then []
    else
      var init := Living(actors[..|actors| - 1]);
      var last := actors[|actors| - 1];
      if Terminal(last) then init else init + [last]
  }

  /** `new Map` filled in order: the last actor with an identity wins. */
  function DirectoryOf(actors: seq<Actor>): Directory {
    if actors == [] then map[]
    else var last := actors[|actors| - 1]; DirectoryOf(actors[..|actors| - 1])[last.identity := last]
  }

  function Identities(actors: seq<Actor>): set<Identity> { set a | a in actors :: a.identity }

  function KeySet(selected: Selected): set<Identity> { set k | k in KeysOf(selected) }

  ghost predicate Consistent(d: Directory) { forall k :: k in d ==> d[k].identity == k }

  ghost predicate Known(d: Directory, actors: seq<Actor>) { forall a :: a in actors ==> a.identity in d }

  ghost predicate NoneTwice(actors: seq<Actor>) {
    forall i, j :: 0 <= i < j < |actors| ==> actors[i].identity != actors[j].identity
  }

  lemma {:induction false} LivingExact(actors: seq<Actor>)
    ensures forall a :: a in Living(actors) <==> a in actors && !Terminal(a)
  {
    if actors != [] { LivingExact(actors[..|actors| - 1]); }
  }

  lemma {:induction false} DirectoryExact(actors: seq<Actor>)
    ensures Consistent(DirectoryOf(actors)) && Known(DirectoryOf(actors), actors)
    ensures forall k :: k in DirectoryOf(actors) ==> DirectoryOf(actors)[k] in actors
  {
    if actors != [] { DirectoryExact(actors[..|actors| - 1]); }
  }

  lemma OneMore(actors: seq<Actor>, a: Actor)
    ensures Living(actors + [a]) == if Terminal(a) then Living(actors) else Living(actors) + [a]
    ensures DirectoryOf(actors + [a]) == DirectoryOf(actors)[a.identity := a]
  {
    assert (actors + [a])[..|actors|] == actors;
  }

  lemma KeySetHas(m: Selected, k: Identity)
    ensures k in KeySet(m) <==> Has(m, k)
  {
    HasKey(m, k);
  }

  lemma {:induction false} KeySetConcat(a: Selected, b: Selected)
    ensures KeySet(a + b) == KeySet(a) + KeySet(b)
  {
    assert KeysOf(a + b) == KeysOf(a) + KeysOf(b);
  }

  ghost function ParentLinks(d: Directory): map<Identity, Identity> {
    map k | k in d && d[k].parent.Some? :: d[k].parent.value
  }

  /** An ancestor of a worker: its parent, and what the directory has above that. */
  ghost predicate Above(d: Directory, start: Actor, k: Identity) {
    start.parent.Some? && Reaches(ParentLinks(d), start.parent.value, k)
  }

  lemma ReachesSelf(d: Directory, k: Identity)
    ensures Reaches(ParentLinks(d), k, k)
  {
    assert Walk(ParentLinks(d), k, 0) == Some(k);
  }

  lemma ReachesOn(d: Directory, a: Identity, b: Identity, c: Identity)
    requires Reaches(ParentLinks(d), a, b) && Reaches(ParentLinks(d), b, c)
    ensures Reaches(ParentLinks(d), a, c)
  {
    var p := ParentLinks(d);
    var n: nat :| Walk(p, a, n) == Some(b);
    var m: nat :| Walk(p, b, m) == Some(c);
    WalkAdd(p, a, n, m);
    assert Walk(p, a, n + m) == Some(c);
  }

  lemma ReachesParent(d: Directory, k: Identity)
    requires k in d && d[k].parent.Some?
    ensures Reaches(ParentLinks(d), k, d[k].parent.value)
  {
    assert Walk(ParentLinks(d), k, 1) == Some(d[k].parent.value);
  }
}
