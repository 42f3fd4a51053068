/** What filling a draft in means: exactly the fields in play that have no answer
    get exactly the initial values they declare (web/src/form-model.ts). */
module FormFilling {
  import opened JsMap
  import opened Sequences
  import opened Forms
  import opened FormDrafts
  import opened FormHydration

  /** The initial value a field declares. An empty list of options declares that
      nothing is chosen. */
  predicate Declares(n: Node, v: Value)
    requires IsField(n)
  {
    if n.Slider? then v == NumberV(n.position)
    else if n.Number? then v.NumberV? && n.initialNumber == Some(v.x)
    else if n.Bool? then v.BoolV? && n.initialBool == Some(v.b)
    else if n.Many? || n.AlternativesMany? then
      v.ManyV? && (n.initials == Some(v.xs) || (n.initials.None? && OptionIds(n) == [] && v.xs == []))
    else v.TextV? && n.initial == Some(v.s)
  }

  lemma DeclaredExact(n: Node, v: Value)
    requires IsField(n)
    ensures Declares(n, v) <==> InitialValue(n) == Some(v)
  {
  }

  /** A node of the form that the answers lead to. */
  ghost predicate InPlay(n: Node, e: Draft, x: Node)
    decreases n
  {
    x == n || exists i :: 0 <= i < |Kids(n)| && Reached(n, e, i) && InPlay(Kids(n)[i], e, x)
  }

  /** A field has the draft's answer, or else what it declares, if anything. */
  ghost predicate Answered(x: Node, d: Draft, e: Draft)
    requires IsField(x)
  {
    if x.id in d then x.id in e && e[x.id] == d[x.id]
    else if x.id in e then Declares(x, e[x.id]) else forall v :: !Declares(x, v)
  }

  ghost predicate AllAnswered(n: Node, d: Draft, e: Draft) {
    forall x :: InPlay(n, e, x) && IsField(x) ==> Answered(x, d, e)
  }

  ghost predicate HasField(n: Node, e: Draft, id: string) { exists x :: InPlay(n, e, x) && IsField(x) && x.id == id }

  /** `e` is `d` filled in, with what the fields in play declare and nothing else. */
  ghost predicate FillsIn(n: Node, d: Draft, e: Draft) {
    && Extends(d, e) && AllAnswered(n, d, e)
    && forall id :: id in e && id !in d ==> HasField(n, e, id)
  }

  // ------------------------------------------------------------ filling fills in

  lemma OwnAnswered(n: Node, d: Draft, e: Draft)
    requires IsField(n) && SameOn(Filled(n, d), e, Elements(Own(n)))
    ensures Answered(n, d, e)
  {
    assert n.id in Elements(Own(n));
    forall v: Value ensures Declares(n, v) <==> InitialValue(n) == Some(v) { DeclaredExact(n, v); }
    hide Declares, InitialValue;
  }

  lemma {:induction false} FilledAnswers(n: Node, d: Draft, e: Draft, x: Node)
    requires FilledIn(n, d, e) && InPlay(n, e, x) && IsField(x)
    ensures Answered(x, d, e)
    decreases n
  {
    hide Answered;
    if x == n {
      OwnAnswered(n, d, e);
    } else {
      var i :| 0 <= i < |Kids(n)| && Reached(n, e, i) && InPlay(Kids(n)[i], e, x);
      ReachedSame(n, Filled(n, d), e, i);
      FilledAnswers(Kids(n)[i], d, e, x);
    }
  }

  lemma {:induction false} InPlaySame(n: Node, d: Draft, e: Draft, x: Node)
    requires SameOn(d, e, Elements(AllIds(n))) && InPlay(n, d, x)
    ensures InPlay(n, e, x)
    decreases n
  {
    hide AllIds;
    if x != n {
      var i :| 0 <= i < |Kids(n)| && Reached(n, d, i) && InPlay(Kids(n)[i], d, x);
      OwnInside(n);
      ReachedSame(n, d, e, i);
      KidIds(n, i);
      InPlaySame(Kids(n)[i], d, e, x);
    }
  }

  lemma FieldSame(n: Node, d: Draft, e: Draft, id: string)
    requires SameOn(d, e, Elements(AllIds(n))) && HasField(n, d, id)
    ensures HasField(n, e, id)
  {
    hide AllIds;
    var x :| InPlay(n, d, x) && IsField(x) && x.id == id;
    InPlaySame(n, d, e, x);
  }

  /** Whatever is new is the answer of a field in play. */
  lemma {:induction false} NewInPlay(n: Node, d: Draft, id: string)
    requires Distinct(AllIds(n)) && id in Initial(n, d) && id !in d
    ensures HasField(n, Initial(n, d), id)
    decreases n, |Kids(n)| + 1
  {
    hide AllIds, InitialBelow;
    var f, e := Filled(n, d), Initial(n, d);
    assert e == InitialBelow(n, f, f, |Kids(n)|);
    if id in f {
      assert InPlay(n, e, n);
    } else {
      var i := NewInPlayBelow(n, d, |Kids(n)|, id);
      InitialBelowFills(n, d, |Kids(n)|);
      ReachedSame(n, f, e, i);
      var x :| InPlay(Kids(n)[i], e, x) && IsField(x) && x.id == id;
      assert InPlay(n, e, x);
    }
  }

  lemma {:induction false} NewInPlayBelow(n: Node, d: Draft, m: nat, id: string) returns (i: nat)
    requires Distinct(AllIds(n)) && m <= |Kids(n)| && id !in Filled(n, d)
    requires id in InitialBelow(n, Filled(n, d), Filled(n, d), m)
    ensures i < m && Reached(n, Filled(n, d), i)
    ensures HasField(Kids(n)[i], InitialBelow(n, Filled(n, d), Filled(n, d), m), id)
    decreases n, m
  {
    hide AllIds, Initial, Reached, Filled, HasField;
    var f := Filled(n, d);
    var e, kid := InitialBelow(n, f, f, m - 1), Kids(n)[m - 1];
    var next := InitialBelow(n, f, f, m);
    if id in e {
      i := NewInPlayBelow(n, d, m - 1, id);
      if Reached(n, f, m - 1) {
        DistinctParts(n, m - 1);
        InitialFrame(kid, e);
        SameOffDisjoint(e, next, Elements(AllIds(kid)), Elements(AllIds(Kids(n)[i])));
        FieldSame(Kids(n)[i], e, next, id);
      }
    } else {
      i := m - 1;
      DistinctParts(n, m - 1);
      NewInPlay(kid, e, id);
    }
  }

  /** Filling in a form with distinct ids gives every field in play that has no
      answer exactly what it declares, leaves those that declare nothing without,
      and changes nothing else. */
  lemma InitialFillsIn(n: Node, d: Draft)
    requires Distinct(AllIds(n))
    ensures FillsIn(n, d, Initial(n, d))
  {
    hide AllIds, Initial, Answered, InPlay, HasField;
    var e := Initial(n, d);
    InitialKeeps(n, d);
    InitialFills(n, d);
    forall x | InPlay(n, e, x) && IsField(x) ensures Answered(x, d, e) { FilledAnswers(n, d, e, x); }
    forall id | id in e && id !in d ensures HasField(n, e, id) { NewInPlay(n, d, id); }
  }

  // ---------------------------------------------------- and nothing else does

  lemma DeclaresOne(n: Node, v: Value, w: Value)
    requires IsField(n) && Declares(n, v) && Declares(n, w)
    ensures v == w
  {
  }

  lemma AnsweredAlike(x: Node, d: Draft, a: Draft, b: Draft)
    requires IsField(x) && Answered(x, d, a) && Answered(x, d, b)
    ensures SameOn(a, b, Elements(Own(x)))
  {
    if x.id in a && x.id in b && x.id !in d { DeclaresOne(x, a[x.id], b[x.id]); }
  }

  lemma AnsweredBelow(n: Node, d: Draft, e: Draft, i: nat)
    requires AllAnswered(n, d, e) && i < |Kids(n)| && Reached(n, e, i)
    ensures AllAnswered(Kids(n)[i], d, e)
  {
    hide Answered, Reached;
    forall x | InPlay(Kids(n)[i], e, x) && IsField(x) ensures Answered(x, d, e) { assert InPlay(n, e, x); }
  }

  lemma {:induction false} SamePlay(n: Node, d: Draft, a: Draft, b: Draft, x: Node)
    requires AllAnswered(n, d, a) && AllAnswered(n, d, b) && InPlay(n, a, x)
    ensures InPlay(n, b, x)
    decreases n
  {
    hide Answered, AllAnswered;
    if x != n {
      var i :| 0 <= i < |Kids(n)| && Reached(n, a, i) && InPlay(Kids(n)[i], a, x);
      assert SameOn(a, b, Elements(Own(n))) by { OwnAlike(n, d, a, b); }
      ReachedSame(n, a, b, i);
      AnsweredBelow(n, d, a, i);
      AnsweredBelow(n, d, b, i);
      SamePlay(Kids(n)[i], d, a, b, x);
    }
  }

  lemma OwnAlike(n: Node, d: Draft, a: Draft, b: Draft)
    requires AllAnswered(n, d, a) && AllAnswered(n, d, b)
    ensures SameOn(a, b, Elements(Own(n)))
  {
    hide Answered;
    assert InPlay(n, a, n) && InPlay(n, b, n);
    if IsField(n) { AnsweredAlike(n, d, a, b); }
  }

  lemma NoNewer(n: Node, d: Draft, a: Draft, b: Draft, id: string)
    requires FillsIn(n, d, a) && FillsIn(n, d, b) && id in a
    ensures id in b && b[id] == a[id]
  {
    hide InPlay, Answered;
    if id !in d {
      assert HasField(n, a, id);
      var x :| InPlay(n, a, x) && IsField(x) && x.id == id;
      SamePlay(n, d, a, b, x);
      AnsweredAlike(x, d, a, b);
      assert id in Elements(Own(x));
    }
  }

  /** A draft is filled in in one way only, so this says all that filling in does. */
  lemma FillsInExact(n: Node, d: Draft, e: Draft)
    requires Distinct(AllIds(n))
    ensures FillsIn(n, d, e) <==> e == Initial(n, d)
  {
    hide AllIds, Initial, FillsIn;
    InitialFillsIn(n, d);
    if FillsIn(n, d, e) {
      var i := Initial(n, d);
      forall id | id in e ensures id in i && i[id] == e[id] { NoNewer(n, d, e, i, id); }
      forall id | id in i ensures id in e && e[id] == i[id] { NoNewer(n, d, i, e, id); }
      assert e == i;
    }
  }

  // ---------------------------------------------------- answers and initial values

  /** The same field, but for the initial value it declares. */
  predicate SameField(a: Node, b: Node)
    requires IsField(a) && IsField(b)
  {
    && a.id == b.id && a.caption == b.caption
    && (a.Text? <==> b.Text?) && (a.Int? <==> b.Int?) && (a.Number? <==> b.Number?) && (a.Bool? <==> b.Bool?)
    && (a.Slider? <==> b.Slider?) && (a.Choice? <==> b.Choice?) && (a.Many? <==> b.Many?)
    && (a.Alternatives? <==> b.Alternatives?) && (a.AlternativesMany? <==> b.AlternativesMany?)
    && (a.Slider? ==> a.minimum == b.minimum && a.maximum == b.maximum)
    && (a.Choice? || a.Many? ==> a.options == b.options)
    && (a.Alternatives? || a.AlternativesMany? ==> a.branches == b.branches)
  }

  /** A valid field could have declared this value. */
  ghost predicate Declarable(n: Node, v: Value)
    requires IsField(n)
  {
    exists m :: IsField(m) && SameField(n, m) && GoodNode(m) && Declares(m, v)
  }

  /** The field with another initial value. */
  function Declaring(n: Node, v: Value): (m: Node)
    requires IsField(n) && Fits(n, v)
    ensures IsField(m) && SameField(n, m) && Declares(m, v)
  {
    if n.Number? then n.(initialNumber := Some(v.x))
    else if n.Bool? then n.(initialBool := Some(v.b))
    else if n.Slider? then n.(position := v.x)
    else if n.Many? || n.AlternativesMany? then n.(initials := Some(v.xs))
    else n.(initial := Some(v.s))
  }

  lemma DeclaringGood(n: Node, v: Value)
    requires IsField(n) && GoodNode(n) && Fits(n, v) && !n.Int?
    ensures GoodNode(Declaring(n, v))
  {
    var m := Declaring(n, v);
    assert OptionIds(m) == OptionIds(n);
    if n.Alternatives? || n.AlternativesMany? {
      forall id: string ensures FindBranch(n.branches, id) >= 0 <==> id in OptionIds(n) { BranchExact(n, id); }
    }
    hide FindBranch, GoodId, OptionIds;
  }

  lemma BranchExact(n: Node, id: string)
    requires Branching(n)
    ensures FindBranch(n.branches, id) >= 0 <==> id in OptionIds(n)
  {
    var i := FindBranch(n.branches, id);
    if i >= 0 { assert OptionIds(n)[i] == id; }
    if id in OptionIds(n) { BranchIds(n, id); }
  }

  lemma DeclarableFits(n: Node, m: Node, v: Value)
    requires IsField(n) && IsField(m) && SameField(n, m) && GoodNode(m) && Declares(m, v)
    ensures Fits(n, v)
  {
    assert OptionIds(m) == OptionIds(n);
    if n.Alternatives? || n.AlternativesMany? {
      forall id: string ensures FindBranch(n.branches, id) >= 0 <==> id in OptionIds(n) { BranchExact(n, id); }
    }
    var initials := Initials(m);
    if n.Choice? || n.Alternatives? { assert initials == [v.s] && initials[0] in OptionIds(n); }
    if n.Many? || n.AlternativesMany? { assert initials == v.xs; }
    hide FindBranch, GoodId, OptionIds;
  }

  /** The host takes as an answer exactly what the field, were it valid, could have
      declared initially; and for an integer any text, which may be half typed. */
  lemma FitsExact(n: Node, v: Value)
    requires IsField(n) && GoodNode(n)
    ensures Fits(n, v) <==> Declarable(n, v) || (n.Int? && v.TextV?)
  {
    if Fits(n, v) && !n.Int? {
      DeclaringGood(n, v);
    }
    forall m | IsField(m) && SameField(n, m) && GoodNode(m) && Declares(m, v) ensures Fits(n, v) {
      DeclarableFits(n, m, v);
    }
    hide GoodNode, Declares, SameField;
  }

  // ------------------------------------------------------- what is in play

  /** The answer that opens a branch: the field's own, or for a single choice
      without an answer the initial one. */
  predicate Opens(n: Node, d: Draft, branch: string)
    requires Branching(n)
  {
    if n.Alternatives? then
      if n.id in d then d[n.id] == TextV(branch) else n.initial == Some(branch)
    else n.id in d && d[n.id].ManyV? && branch in d[n.id].xs
  }

  /** A branch is entered exactly if it is opened, and for a single choice if it is
      the first with its id; anything else below a node always is. */
  lemma ReachedExact(n: Node, d: Draft, i: nat)
    requires i < |Kids(n)|
    ensures Reached(n, d, i) <==>
      (Branching(n) ==>
         && Opens(n, d, n.branches[i].id)
         && (n.Alternatives? ==> forall j :: 0 <= j < i ==> n.branches[j].id != n.branches[i].id))
  {
    if n.Alternatives? { FirstBranch(n.branches, n.branches[i].id); }
    hide FindBranch;
  }

  lemma {:induction false} FirstBranch(branches: seq<Branch>, id: string)
    ensures forall j :: 0 <= j < |branches| && (FindBranch(branches, id) < 0 || j < FindBranch(branches, id)) ==>
      branches[j].id != id
  {
    if branches != [] && branches[0].id != id {
      FirstBranch(branches[1..], id);
      assert forall j :: 0 < j < |branches| ==> branches[j] == branches[1..][j - 1];
    }
  }

  lemma FieldBelow(n: Node, d: Draft, i: nat, id: string)
    requires i < |Kids(n)| && Reached(n, d, i) && HasField(Kids(n)[i], d, id)
    ensures HasField(n, d, id)
  {
    hide Reached;
    var x :| InPlay(Kids(n)[i], d, x) && IsField(x) && x.id == id;
    assert InPlay(n, d, x);
  }

  lemma FieldSplit(n: Node, d: Draft, id: string)
    ensures HasField(n, d, id) <==>
      id in Own(n) || exists i :: 0 <= i < |Kids(n)| && Reached(n, d, i) && HasField(Kids(n)[i], d, id)
  {
    hide Reached;
    assert InPlay(n, d, n);
    if HasField(n, d, id) {
      var x :| InPlay(n, d, x) && IsField(x) && x.id == id;
      if x != n {
        var i :| 0 <= i < |Kids(n)| && Reached(n, d, i) && InPlay(Kids(n)[i], d, x);
        assert HasField(Kids(n)[i], d, id);
      }
    }
    forall i | 0 <= i < |Kids(n)| && Reached(n, d, i) && HasField(Kids(n)[i], d, id) ensures HasField(n, d, id) {
      FieldBelow(n, d, i, id);
    }
  }

  lemma {:induction false} PlayingExact(n: Node, d: Draft, id: string)
    ensures id in Playing(n, d) <==> HasField(n, d, id)
    decreases n, |Kids(n)| + 1
  {
    PlayingBelowExact(n, d, |Kids(n)|, id);
    FieldSplit(n, d, id);
    hide PlayingBelow, HasField, Reached;
  }

  lemma {:induction false} PlayingBelowExact(n: Node, d: Draft, m: nat, id: string)
    requires m <= |Kids(n)|
    ensures id in PlayingBelow(n, d, m) <==> exists i :: 0 <= i < m && Reached(n, d, i) && HasField(Kids(n)[i], d, id)
    decreases n, m
  {
    hide Reached, Playing, HasField;
    if m > 0 {
      PlayingBelowExact(n, d, m - 1, id);
      PlayingExact(Kids(n)[m - 1], d, id);
    }
  }

  /** Restricting a draft to what is active keeps exactly its answers to fields that
      these answers lead to. */
  lemma ActiveKeepsInPlay(n: Node, d: Draft, id: string)
    ensures var a := Active(n, d, map[]);
      (id in a <==> id in d && HasField(n, d, id)) && (id in a ==> a[id] == d[id])
  {
    ActiveExact(n, d, map[]);
    PlayingExact(n, d, id);
    hide Active, Playing, HasField;
  }
}
