/** Drafts of a form: filling in initial values, restricting to what is active,
    and the host's structural check. */
module FormDrafts {
  import opened JsMap
  import opened Sequences
  import opened Forms

  datatype Value = BoolV(b: bool) | NumberV(x: real) | TextV(s: string) | ManyV(xs: seq<string>) | EmptyV

  type Draft = map<string, Value>

  /** The first branch with the id, or -1. */
  function FindBranch(branches: seq<Branch>, id: string): (i: int)
    ensures -1 <= i < |branches|
    ensures i >= 0 ==> branches[i].id == id
  {
    if branches == [] then -1
    else if branches[0].id == id then 0
    else var i := FindBranch(branches[1..], id); if i < 0 then -1 else i + 1
  }

  // ------------------------------------------------------------- the host

  function Control(d: Draft, id: string): Option<Value> {
    if id in d && !d[id].EmptyV? then Some(d[id]) else None
  }

  ghost predicate DrawnFrom(xs: seq<string>, ids: seq<string>) {
    Distinct(xs) && forall i :: 0 <= i < |xs| ==> xs[i] in ids
  }

  /** Whether an answer suits the field, not looking into branches. */
  ghost predicate Fits(n: Node, v: Value)
    requires IsField(n)
  {
    match n
    case Text(_, _, _) => v.TextV?
    case Int(_, _, _) => v.TextV?
    case Number(_, _, _) => v.NumberV?
    case Bool(_, _, _) => v.BoolV?
    case Slider(_, _, minimum, maximum, _) => v.NumberV? && minimum <= v.x <= maximum
    case Choice(_, _, _, _) => v.TextV? && v.s in OptionIds(n)
    case Many(_, _, _, _) => v.ManyV? && DrawnFrom(v.xs, OptionIds(n))
    case Alternatives(_, _, branches, _) => v.TextV? && FindBranch(branches, v.s) >= 0
    case AlternativesMany(_, _, branches, _) =>
      v.ManyV? && Distinct(v.xs) && forall i :: 0 <= i < |v.xs| ==> FindBranch(branches, v.xs[i]) >= 0
  }

  /** `validate_draft`'s walk. */
  ghost predicate Check(n: Node, d: Draft)
    decreases n
  {
    if n.Group? then forall i :: 0 <= i < |n.children| ==> Check(n.children[i], d)
    else if n.Section? then Check(n.child, d)
    else if !IsField(n) || Control(d, n.id).None? then true
    else
      var v := Control(d, n.id).value;
      && Fits(n, v)
      && (n.Alternatives? ==> Check(n.branches[FindBranch(n.branches, v.s)].form, d))
      && (n.AlternativesMany? ==> forall i :: 0 <= i < |v.xs| ==>
          Check(n.branches[FindBranch(n.branches, v.xs[i])].form, d))
  }

  // ------------------------------------------------------------ the browser

  function InitialValue(n: Node): Option<Value>
    requires IsField(n)
  {
    match n
    case Text(_, _, initial) => if initial.Some? then Some(TextV(initial.value)) else None
    case Int(_, _, initial) => if initial.Some? then Some(TextV(initial.value)) else None
    case Number(_, _, initial) => if initial.Some? then Some(NumberV(initial.value)) else None
    case Slider(_, _, _, _, position) => Some(NumberV(position))
    case Bool(_, _, initial) => if initial.Some? then Some(BoolV(initial.value)) else None
    case Choice(_, _, _, initial) => if initial.Some? then Some(TextV(initial.value)) else None
    case Alternatives(_, _, _, initial) => if initial.Some? then Some(TextV(initial.value)) else None
    case Many(_, _, options, initials) =>
      if initials.Some? then Some(ManyV(initials.value)) else if options == [] then Some(ManyV([])) else None
    case AlternativesMany(_, _, branches, initials) =>
      if initials.Some? then Some(ManyV(initials.value)) else if branches == [] then Some(ManyV([])) else None
  }

  /** The field's answer, or its initial value while it has none. */
  function Chosen(n: Node, d: Draft): Option<Value>
    requires n.Alternatives?
  {
    if n.id in d then Some(d[n.id]) else if n.initial.Some? then Some(TextV(n.initial.value)) else None
  }

  /** Whether the `i`-th node below is reached with the answers of `d`. */
  predicate Reached(n: Node, d: Draft, i: nat)
    requires i < |Kids(n)|
  {
    if n.Alternatives? then
      Chosen(n, d).Some? && Chosen(n, d).value.TextV? && FindBranch(n.branches, Chosen(n, d).value.s) == i
    else if n.AlternativesMany? then n.id in d && d[n.id].ManyV? && n.branches[i].id in d[n.id].xs
    else true
  }

  function Filled(n: Node, d: Draft): Draft {
    if IsField(n) && n.id !in d && InitialValue(n).Some? then d[n.id := InitialValue(n).value] else d
  }

  function Initial(n: Node, d: Draft): Draft
    decreases n, |Kids(n)| + 1
  {
    InitialBelow(n, Filled(n, d), Filled(n, d), |Kids(n)|)
  }

  /** After the first `m` nodes below, those that `at` reaches. */
  function InitialBelow(n: Node, at: Draft, d: Draft, m: nat): Draft
    requires m <= |Kids(n)|
    decreases n, m
  {
    if m == 0 then d
    else
      var e := InitialBelow(n, at, d, m - 1);
      if Reached(n, at, m - 1) then Initial(Kids(n)[m - 1], e) else e
  }

  function Taken(n: Node, d: Draft, into: Draft): Draft {
    if IsField(n) && n.id in d then into[n.id := d[n.id]] else into
  }

  function Active(n: Node, d: Draft, into: Draft): Draft
    decreases n, |Kids(n)| + 1
  {
    ActiveBelow(n, d, Taken(n, d, into), |Kids(n)|)
  }

  function ActiveBelow(n: Node, d: Draft, into: Draft, m: nat): Draft
    requires m <= |Kids(n)|
    decreases n, m
  {
    if m == 0 then into
    else
      var e := ActiveBelow(n, d, into, m - 1);
      if Reached(n, d, m - 1) then Active(Kids(n)[m - 1], d, e) else e
  }

  function Hydrated(root: Node, stored: Draft, cached: Draft): Draft {
    Initial(root, Initial(root, map[]) + stored + cached)
  }

  // ---------------------------------------------- restricting to the active

  /** The fields in play: reachable through the answers of `d`. */
  function Playing(n: Node, d: Draft): set<string>
    decreases n, |Kids(n)| + 1
  {
    Elements(Own(n)) + PlayingBelow(n, d, |Kids(n)|)
  }

  function PlayingBelow(n: Node, d: Draft, m: nat): set<string>
    requires m <= |Kids(n)|
    decreases n, m
  {
    if m == 0 then {}
    else PlayingBelow(n, d, m - 1) + (if Reached(n, d, m - 1) then Playing(Kids(n)[m - 1], d) else {})
  }

  function Restricted(d: Draft, ids: set<string>): Draft { map k | k in d && k in ids :: d[k] }

  lemma RestrictTwice(into: Draft, d: Draft, a: set<string>, b: set<string>)
    ensures (into + Restricted(d, a)) + Restricted(d, b) == into + Restricted(d, a + b)
    ensures into + Restricted(d, {}) == into
  {
  }

  /** Restricting keeps exactly the answers of the fields in play. */
  lemma {:induction false} ActiveExact(n: Node, d: Draft, into: Draft)
    ensures Active(n, d, into) == into + Restricted(d, Playing(n, d))
    decreases n, |Kids(n)| + 1
  {
    hide Restricted, ActiveBelow, PlayingBelow;
    var m := |Kids(n)|;
    ActiveBelowExact(n, d, Taken(n, d, into), m);
    TakenExact(n, d, into);
    RestrictTwice(into, d, Elements(Own(n)), PlayingBelow(n, d, m));
  }

  lemma TakenExact(n: Node, d: Draft, into: Draft)
    ensures Taken(n, d, into) == into + Restricted(d, Elements(Own(n)))
  {
  }

  lemma {:induction false} ActiveBelowExact(n: Node, d: Draft, into: Draft, m: nat)
    requires m <= |Kids(n)|
    ensures ActiveBelow(n, d, into, m) == into + Restricted(d, PlayingBelow(n, d, m))
    decreases n, m
  {
    hide Restricted, Active, Playing, Reached;
    RestrictTwice(into, d, {}, {});
    if m > 0 {
      ActiveBelowExact(n, d, into, m - 1);
      if Reached(n, d, m - 1) {
        var kid := Kids(n)[m - 1];
        ActiveExact(kid, d, ActiveBelow(n, d, into, m - 1));
        RestrictTwice(into, d, PlayingBelow(n, d, m - 1), Playing(kid, d));
      } else {
        assert PlayingBelow(n, d, m) == PlayingBelow(n, d, m - 1);
      }
    }
  }

  ghost predicate SameOn(d: Draft, e: Draft, ids: set<string>) {
    forall k :: k in ids ==> (k in d <==> k in e) && (k in d ==> d[k] == e[k])
  }

  lemma {:induction false} PlayingIncludes(n: Node, d: Draft, m: nat, i: nat)
    requires i < m <= |Kids(n)| && Reached(n, d, i)
    ensures Playing(Kids(n)[i], d) <= PlayingBelow(n, d, m)
    decreases m
  {
    if i < m - 1 { PlayingIncludes(n, d, m - 1, i); }
  }

  /** Which nodes are reached depends on the node's own answer only. */
  lemma ReachedSame(n: Node, d: Draft, e: Draft, i: nat)
    requires i < |Kids(n)| && SameOn(d, e, Elements(Own(n)))
    ensures Reached(n, d, i) <==> Reached(n, e, i)
  {
    if Branching(n) { assert n.id in Elements(Own(n)); }
  }

  /** The fields in play depend only on the answers of the fields in play. */
  lemma {:induction false} PlayingSame(n: Node, d: Draft, e: Draft)
    requires SameOn(d, e, Playing(n, d))
    ensures Playing(n, e) == Playing(n, d)
    decreases n, |Kids(n)| + 1
  {
    PlayingBelowSame(n, d, e, |Kids(n)|);
  }

  lemma {:induction false} PlayingBelowSame(n: Node, d: Draft, e: Draft, m: nat)
    requires m <= |Kids(n)| && SameOn(d, e, Elements(Own(n))) && SameOn(d, e, PlayingBelow(n, d, m))
    ensures PlayingBelow(n, e, m) == PlayingBelow(n, d, m)
    decreases n, m
  {
    if m > 0 {
      ReachedSame(n, d, e, m - 1);
      hide Reached;
      PlayingBelowSame(n, d, e, m - 1);
      if Reached(n, d, m - 1) { PlayingSame(Kids(n)[m - 1], d, e); }
    }
  }

  /** So does the host's verdict. */
  lemma {:induction false} CheckSame(n: Node, d: Draft, e: Draft)
    requires SameOn(d, e, Playing(n, d))
    ensures Check(n, d) <==> Check(n, e)
    decreases n
  {
    forall i | 0 <= i < |Kids(n)| && Reached(n, d, i) ensures Check(Kids(n)[i], d) <==> Check(Kids(n)[i], e) {
      PlayingIncludes(n, d, |Kids(n)|, i);
      CheckSame(Kids(n)[i], d, e);
    }
    if IsField(n) { assert n.id in Elements(Own(n)); }
    CheckByKids(n, d, e);
  }

  /** What the host looks at below a node is reached from it. */
  lemma CheckByKids(n: Node, d: Draft, e: Draft)
    requires SameOn(d, e, Elements(Own(n)))
    requires forall i :: 0 <= i < |Kids(n)| && Reached(n, d, i) ==> (Check(Kids(n)[i], d) <==> Check(Kids(n)[i], e))
    ensures Check(n, d) <==> Check(n, e)
  {
    if IsField(n) { assert n.id in Elements(Own(n)); }
    if n.Group? {
      forall i | 0 <= i < |n.children| ensures Check(n.children[i], d) <==> Check(n.children[i], e) {
        assert Kids(n)[i] == n.children[i] && Reached(n, d, i);
      }
    } else if n.Section? {
      assert Kids(n)[0] == n.child && Reached(n, d, 0);
    } else if Branching(n) && Control(d, n.id).Some? && Fits(n, Control(d, n.id).value) {
      var v := Control(d, n.id).value;
      if n.Alternatives? {
        assert Reached(n, d, FindBranch(n.branches, v.s));
      } else {
        forall i | 0 <= i < |v.xs| ensures var k := FindBranch(n.branches, v.xs[i]);
          Check(n.branches[k].form, d) <==> Check(n.branches[k].form, e)
        {
          assert Reached(n, d, FindBranch(n.branches, v.xs[i]));
        }
      }
    }
  }

  lemma RestrictedSame(d: Draft, ids: set<string>)
    ensures SameOn(d, Restricted(d, ids), ids)
  {
  }

  /** Sending only the active part leaves the host's verdict as it was, and
      restricting again changes nothing. */
  lemma ActiveKeepsVerdict(root: Node, d: Draft)
    ensures Check(root, Active(root, d, map[])) <==> Check(root, d)
    ensures Active(root, Active(root, d, map[]), map[]) == Active(root, d, map[])
  {
    hide Check, Active, Playing;
    ActiveExact(root, d, map[]);
    var e := Active(root, d, map[]);
    assert e == Restricted(d, Playing(root, d));
    RestrictedSame(d, Playing(root, d));
    CheckSame(root, d, e);
    PlayingSame(root, d, e);
    ActiveExact(root, e, map[]);
    assert Restricted(e, Playing(root, d)) == e;
  }
}
