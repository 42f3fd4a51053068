/** Filling a draft with initial values (web/src/form-model.ts). */
module FormHydration {
  import opened JsMap
  import opened Sequences
  import opened Forms
  import opened FormDrafts
  import opened FormValidators

  ghost predicate Extends(d: Draft, e: Draft) { forall k :: k in d ==> k in e && e[k] == d[k] }

  /** Filling in never overwrites an answer. */
  lemma {:induction false} InitialKeeps(n: Node, d: Draft)
    ensures Extends(d, Initial(n, d))
    decreases n, |Kids(n)| + 1
  {
    hide InitialBelow;
    InitialBelowKeeps(n, Filled(n, d), Filled(n, d), |Kids(n)|);
  }

  lemma {:induction false} InitialBelowKeeps(n: Node, at: Draft, d: Draft, m: nat)
    requires m <= |Kids(n)|
    ensures Extends(d, InitialBelow(n, at, d, m))
    decreases n, m
  {
    hide Initial, Reached;
    if m > 0 {
      InitialBelowKeeps(n, at, d, m - 1);
      if Reached(n, at, m - 1) { InitialKeeps(Kids(n)[m - 1], InitialBelow(n, at, d, m - 1)); }
    }
  }

  // -------------------------------------------------------------- the frame

  /** The drafts differ at most on these ids. */
  ghost predicate SameOff(d: Draft, e: Draft, ids: set<string>) {
    forall k :: k !in ids ==> (k in d <==> k in e) && (k in d ==> d[k] == e[k])
  }

  lemma {:induction false} InitialFrame(n: Node, d: Draft)
    ensures SameOff(d, Initial(n, d), Elements(AllIds(n)))
    decreases n, |Kids(n)| + 1
  {
    hide InitialBelow, IdsBelow;
    InitialBelowFrame(n, Filled(n, d), Filled(n, d), |Kids(n)|);
    NoRepeatConcat(Own(n), IdsBelow(n, |Kids(n)|));
  }

  lemma {:induction false} InitialBelowFrame(n: Node, at: Draft, d: Draft, m: nat)
    requires m <= |Kids(n)|
    ensures SameOff(d, InitialBelow(n, at, d, m), Elements(IdsBelow(n, m)))
    decreases n, m
  {
    hide Initial, Reached, AllIds;
    if m > 0 {
      InitialBelowFrame(n, at, d, m - 1);
      NoRepeatConcat(IdsBelow(n, m - 1), AllIds(Kids(n)[m - 1]));
      if Reached(n, at, m - 1) { InitialFrame(Kids(n)[m - 1], InitialBelow(n, at, d, m - 1)); }
    }
  }

  // ------------------------------------------------------------ fixpoints

  /** Nothing is left to fill in. */
  ghost predicate Settled(n: Node, d: Draft)
    decreases n
  {
    && (IsField(n) && InitialValue(n).Some? ==> n.id in d)
    && forall i :: 0 <= i < |Kids(n)| && Reached(n, d, i) ==> Settled(Kids(n)[i], d)
  }

  lemma {:induction false} SettledFixed(n: Node, d: Draft)
    requires Settled(n, d)
    ensures Initial(n, d) == d
    decreases n, |Kids(n)| + 1
  {
    assert Filled(n, d) == d;
    SettledBelowFixed(n, d, |Kids(n)|);
  }

  lemma {:induction false} SettledBelowFixed(n: Node, d: Draft, m: nat)
    requires m <= |Kids(n)| && Settled(n, d)
    ensures InitialBelow(n, d, d, m) == d
    decreases n, m
  {
    if m > 0 {
      SettledBelowFixed(n, d, m - 1);
      if Reached(n, d, m - 1) { SettledFixed(Kids(n)[m - 1], d); }
    }
  }

  lemma {:induction false} IdsInside(n: Node, m: nat, i: nat)
    requires i < m <= |Kids(n)|
    ensures Elements(AllIds(Kids(n)[i])) <= Elements(IdsBelow(n, m))
    decreases m
  {
    hide AllIds;
    NoRepeatConcat(IdsBelow(n, m - 1), AllIds(Kids(n)[m - 1]));
    if i < m - 1 { IdsInside(n, m - 1, i); }
  }

  lemma KidIds(n: Node, i: nat)
    requires i < |Kids(n)|
    ensures Elements(AllIds(Kids(n)[i])) <= Elements(AllIds(n)) && Elements(Own(n)) <= Elements(AllIds(n))
  {
    hide IdsBelow;
    IdsInside(n, |Kids(n)|, i);
    NoRepeatConcat(Own(n), IdsBelow(n, |Kids(n)|));
  }

  /** Being settled depends only on the answers to the subtree's own fields. */
  lemma {:induction false} SettledSame(n: Node, d: Draft, e: Draft)
    requires SameOn(d, e, Elements(AllIds(n))) && Settled(n, d)
    ensures Settled(n, e)
    decreases n
  {
    hide AllIds;
    OwnInside(n);
    if IsField(n) { assert n.id in Elements(Own(n)); }
    forall i | 0 <= i < |Kids(n)| && Reached(n, e, i) ensures Settled(Kids(n)[i], e) {
      ReachedSame(n, d, e, i);
      KidIds(n, i);
      SettledSame(Kids(n)[i], d, e);
    }
  }

  lemma OwnInside(n: Node)
    ensures Elements(Own(n)) <= Elements(AllIds(n))
  {
    NoRepeatConcat(Own(n), IdsBelow(n, |Kids(n)|));
  }

  lemma SameOffDisjoint(d: Draft, e: Draft, ids: set<string>, other: set<string>)
    requires SameOff(d, e, ids) && ids !! other
    ensures SameOn(d, e, other)
  {
  }

  lemma DistinctParts(n: Node, m: nat)
    requires Distinct(AllIds(n)) && m < |Kids(n)|
    ensures Distinct(AllIds(Kids(n)[m]))
    ensures Elements(Own(n)) !! Elements(AllIds(Kids(n)[m]))
    ensures forall i :: 0 <= i < |Kids(n)| && i != m ==> Elements(AllIds(Kids(n)[i])) !! Elements(AllIds(Kids(n)[m]))
  {
    hide AllIds;
    assert AllIds(n) == Own(n) + IdsBelow(n, |Kids(n)|) by { Unfold(n); }
    NoRepeatConcat(Own(n), IdsBelow(n, |Kids(n)|));
    Unfold(n);
    IdsInside(n, |Kids(n)|, m);
    forall i | 0 <= i < |Kids(n)| && i != m ensures Elements(AllIds(Kids(n)[i])) !! Elements(AllIds(Kids(n)[m])) {
      KidsApart(n, if i < m then i else m, if i < m then m else i);
    }
    BelowPrefix(n, |Kids(n)|, m + 1);
    BelowNext(n, m);
  }

  lemma Unfold(n: Node)
    ensures AllIds(n) == Own(n) + IdsBelow(n, |Kids(n)|)
  {
  }

  lemma BelowNext(n: Node, m: nat)
    requires m < |Kids(n)| && Distinct(IdsBelow(n, m + 1))
    ensures Distinct(IdsBelow(n, m)) && Distinct(AllIds(Kids(n)[m]))
    ensures Elements(IdsBelow(n, m)) !! Elements(AllIds(Kids(n)[m]))
  {
    hide AllIds;
    NoRepeatConcat(IdsBelow(n, m), AllIds(Kids(n)[m]));
  }

  lemma {:induction false} BelowPrefix(n: Node, all: nat, m: nat)
    requires m <= all <= |Kids(n)| && Distinct(IdsBelow(n, all))
    ensures Distinct(IdsBelow(n, m))
    decreases all
  {
    if m < all {
      BelowNext(n, all - 1);
      BelowPrefix(n, all - 1, m);
    }
  }

  lemma KidsApart(n: Node, i: nat, j: nat)
    requires i < j < |Kids(n)| && Distinct(IdsBelow(n, |Kids(n)|))
    ensures Elements(AllIds(Kids(n)[i])) !! Elements(AllIds(Kids(n)[j]))
  {
    hide *;
    BelowPrefix(n, |Kids(n)|, j + 1);
    BelowNext(n, j);
    IdsInside(n, j, i);
  }

  /** One pass settles a form whose ids are distinct. */
  lemma {:induction false} InitialSettles(n: Node, d: Draft)
    requires Distinct(AllIds(n))
    ensures Settled(n, Initial(n, d))
    decreases n, |Kids(n)| + 1
  {
    hide AllIds, InitialBelow;
    var f, m := Filled(n, d), |Kids(n)|;
    var e := Initial(n, d);
    assert e == InitialBelow(n, f, f, m);
    InitialBelowSettles(n, f, m);
    InitialBelowKeeps(n, f, f, m);
    forall i | 0 <= i < m && Reached(n, e, i) ensures Settled(Kids(n)[i], e) {
      ReachedSame(n, f, e, i);
    }
  }

  lemma {:induction false} InitialBelowSettles(n: Node, f: Draft, m: nat)
    requires Distinct(AllIds(n)) && m <= |Kids(n)|
    ensures SameOn(f, InitialBelow(n, f, f, m), Elements(Own(n)))
    ensures forall i :: 0 <= i < m && Reached(n, f, i) ==> Settled(Kids(n)[i], InitialBelow(n, f, f, m))
    decreases n, m
  {
    hide AllIds, Initial, Reached, Settled;
    if m > 0 {
      InitialBelowSettles(n, f, m - 1);
      var e, kid := InitialBelow(n, f, f, m - 1), Kids(n)[m - 1];
      if Reached(n, f, m - 1) {
        DistinctParts(n, m - 1);
        InitialFrame(kid, e);
        InitialSettles(kid, e);
        SameOffDisjoint(e, Initial(kid, e), Elements(AllIds(kid)), Elements(Own(n)));
        forall i | 0 <= i < m - 1 && Reached(n, f, i) ensures Settled(Kids(n)[i], Initial(kid, e)) {
          SameOffDisjoint(e, Initial(kid, e), Elements(AllIds(kid)), Elements(AllIds(Kids(n)[i])));
          SettledSame(Kids(n)[i], e, Initial(kid, e));
        }
      }
    }
  }

  /** Filling in twice is filling in once. */
  lemma InitialIdempotent(n: Node, d: Draft)
    requires Distinct(AllIds(n))
    ensures Initial(n, Initial(n, d)) == Initial(n, d)
  {
    InitialSettles(n, d);
    SettledFixed(n, Initial(n, d));
  }

  // ------------------------------------------------------------- fitting

  /** Every answer suits its field, in all branches. */
  ghost predicate AllFit(n: Node, d: Draft)
    decreases n
  {
    && (IsField(n) && Control(d, n.id).Some? ==> Fits(n, Control(d, n.id).value))
    && forall i :: 0 <= i < |Kids(n)| ==> AllFit(Kids(n)[i], d)
  }

  lemma {:induction false} FitSame(n: Node, d: Draft, e: Draft)
    requires SameOn(d, e, Elements(AllIds(n))) && AllFit(n, d)
    ensures AllFit(n, e)
    decreases n
  {
    hide AllIds, Fits;
    OwnInside(n);
    if IsField(n) { assert n.id in Elements(Own(n)); }
    forall i | 0 <= i < |Kids(n)| ensures AllFit(Kids(n)[i], e) {
      KidIds(n, i);
      FitSame(Kids(n)[i], d, e);
    }
  }

  lemma {:induction false} BranchFound(branches: seq<Branch>, id: string, i: nat)
    requires i < |branches| && branches[i].id == id
    ensures FindBranch(branches, id) >= 0
  {
    if branches[0].id != id { BranchFound(branches[1..], id, i - 1); }
  }

  lemma BranchIds(n: Node, id: string)
    requires Branching(n) && id in OptionIds(n)
    ensures FindBranch(n.branches, id) >= 0
  {
    var i :| 0 <= i < |OptionIds(n)| && OptionIds(n)[i] == id;
    BranchFound(n.branches, id, i);
  }

  /** A good field's initial value suits it. */
  lemma InitialFits(n: Node)
    requires IsField(n) && GoodNode(n) && InitialValue(n).Some?
    ensures Fits(n, InitialValue(n).value)
  {
    hide GoodId;
    if HasOptions(n) { assert GoodOptions(OptionIds(n), Initials(n), n.Choice? || n.Alternatives?); }
    if n.Choice? || n.Alternatives? {
      assert Initials(n)[0] == n.initial.value;
      if n.Alternatives? { BranchIds(n, n.initial.value); }
    } else if n.AlternativesMany? {
      forall i | 0 <= i < |InitialValue(n).value.xs| ensures FindBranch(n.branches, InitialValue(n).value.xs[i]) >= 0 {
        BranchIds(n, Initials(n)[i]);
      }
    }
  }

  lemma FilledFits(n: Node, d: Draft)
    requires GoodTree(n) && Distinct(AllIds(n)) && AllFit(n, d)
    ensures AllFit(n, Filled(n, d))
  {
    hide AllIds, Fits, GoodNode;
    if IsField(n) && n.id !in d && InitialValue(n).Some? {
      var f := Filled(n, d);
      InitialFits(n);
      forall i | 0 <= i < |Kids(n)| ensures AllFit(Kids(n)[i], f) {
        DistinctParts(n, i);
        assert n.id in Elements(Own(n));
        assert SameOn(d, f, Elements(AllIds(Kids(n)[i])));
        FitSame(Kids(n)[i], d, f);
      }
    }
  }

  /** Filling in keeps every answer suitable. */
  lemma {:induction false} InitialAllFit(n: Node, d: Draft)
    requires GoodTree(n) && Distinct(AllIds(n)) && AllFit(n, d)
    ensures AllFit(n, Initial(n, d))
    decreases n, |Kids(n)| + 1
  {
    hide AllIds, InitialBelow, AllFit;
    FilledFits(n, d);
    InitialBelowAllFit(n, Filled(n, d), |Kids(n)|);
  }

  lemma {:induction false} InitialBelowAllFit(n: Node, f: Draft, m: nat)
    requires GoodTree(n) && Distinct(AllIds(n)) && AllFit(n, f) && m <= |Kids(n)|
    ensures AllFit(n, InitialBelow(n, f, f, m))
    decreases n, m
  {
    hide AllIds, Initial, Reached, GoodNode, Fits;
    if m > 0 {
      InitialBelowAllFit(n, f, m - 1);
      var e, kid := InitialBelow(n, f, f, m - 1), Kids(n)[m - 1];
      if Reached(n, f, m - 1) {
        InitialAllFit(kid, e) by { DistinctParts(n, m - 1); }
        OneKidFits(n, e, m - 1, Initial(kid, e));
      }
    }
  }

  lemma OneKidFits(n: Node, e: Draft, m: nat, e': Draft)
    requires Distinct(AllIds(n)) && m < |Kids(n)| && AllFit(n, e) && AllFit(Kids(n)[m], e')
      && e' == Initial(Kids(n)[m], e)
    ensures AllFit(n, e')
  {
    hide AllIds, Initial, Fits;
    var kid := Kids(n)[m];
    DistinctParts(n, m);
    InitialFrame(kid, e);
    SameOffDisjoint(e, e', Elements(AllIds(kid)), Elements(Own(n)));
    if IsField(n) { assert n.id in Elements(Own(n)); }
    forall i | 0 <= i < |Kids(n)| ensures AllFit(Kids(n)[i], e') {
      if i != m {
        SameOffDisjoint(e, e', Elements(AllIds(kid)), Elements(AllIds(Kids(n)[i])));
        FitSame(Kids(n)[i], e, e');
      }
    }
  }

  // --------------------------------------- exactly which drafts will pass

  /** The draft's own answer to a field, if it has one, suits it. */
  ghost predicate OwnFits(n: Node, d: Draft) {
    IsField(n) && Control(d, n.id).Some? ==> Fits(n, Control(d, n.id).value)
  }

  /** The answers of the fields that will be in play once initial values are
      filled in suit those fields. Only the draft itself is looked at. */
  ghost predicate FitsPlayed(n: Node, d: Draft)
    decreases n
  {
    OwnFits(n, d) && forall i :: 0 <= i < |Kids(n)| && Reached(n, Filled(n, d), i) ==> FitsPlayed(Kids(n)[i], d)
  }

  /** `e` is `d` filled in, as far as the fields in play below `n` can tell. */
  ghost predicate FilledIn(n: Node, d: Draft, e: Draft)
    decreases n
  {
    && SameOn(Filled(n, d), e, Elements(Own(n)))
    && forall i :: 0 <= i < |Kids(n)| && Reached(n, Filled(n, d), i) ==> FilledIn(Kids(n)[i], d, e)
  }

  lemma FilledSame(n: Node, d: Draft, d': Draft)
    requires SameOn(d, d', Elements(Own(n)))
    ensures SameOn(Filled(n, d), Filled(n, d'), Elements(Own(n)))
  {
    if IsField(n) { assert n.id in Elements(Own(n)); }
  }

  lemma {:induction false} FilledInSame(n: Node, d: Draft, e: Draft, d': Draft, e': Draft)
    requires FilledIn(n, d, e) && SameOn(d, d', Elements(AllIds(n))) && SameOn(e, e', Elements(AllIds(n)))
    ensures FilledIn(n, d', e')
    decreases n
  {
    hide AllIds, Filled;
    OwnInside(n);
    FilledSame(n, d, d');
    forall i | 0 <= i < |Kids(n)| && Reached(n, Filled(n, d'), i) ensures FilledIn(Kids(n)[i], d', e') {
      ReachedSame(n, Filled(n, d), Filled(n, d'), i);
      KidIds(n, i);
      FilledInSame(Kids(n)[i], d, e, d', e');
    }
  }

  /** Filling in fills in. */
  lemma {:induction false} InitialFills(n: Node, d: Draft)
    requires Distinct(AllIds(n))
    ensures FilledIn(n, d, Initial(n, d))
    decreases n, |Kids(n)| + 1
  {
    hide AllIds, InitialBelow, Reached;
    var f := Filled(n, d);
    InitialBelowFills(n, d, |Kids(n)|);
    assert Initial(n, d) == InitialBelow(n, f, f, |Kids(n)|);
  }

  lemma FilledElsewhere(n: Node, d: Draft, i: nat)
    requires Distinct(AllIds(n)) && i < |Kids(n)|
    ensures SameOn(d, Filled(n, d), Elements(AllIds(Kids(n)[i])))
  {
    hide AllIds;
    DistinctParts(n, i);
    if IsField(n) { assert n.id in Elements(Own(n)); }
  }

  /** What the earlier kids filled in is none of this kid's fields. */
  lemma BelowElsewhere(n: Node, f: Draft, i: nat)
    requires Distinct(AllIds(n)) && i < |Kids(n)|
    ensures SameOn(f, InitialBelow(n, f, f, i), Elements(AllIds(Kids(n)[i])))
  {
    hide AllIds, InitialBelow, IdsBelow;
    InitialBelowFrame(n, f, f, i);
    assert Distinct(IdsBelow(n, |Kids(n)|)) by {
      Unfold(n);
      NoRepeatConcat(Own(n), IdsBelow(n, |Kids(n)|));
    }
    BelowPrefix(n, |Kids(n)|, i + 1);
    BelowNext(n, i);
    SameOffDisjoint(f, InitialBelow(n, f, f, i), Elements(IdsBelow(n, i)), Elements(AllIds(Kids(n)[i])));
  }

  lemma {:induction false} InitialBelowFills(n: Node, d: Draft, m: nat)
    requires Distinct(AllIds(n)) && m <= |Kids(n)|
    ensures var f := Filled(n, d); var e := InitialBelow(n, f, f, m);
      && SameOn(f, e, Elements(Own(n)))
      && forall i :: 0 <= i < m && Reached(n, f, i) ==> FilledIn(Kids(n)[i], d, e)
    decreases n, m
  {
    hide AllIds, Initial, Reached, FilledIn, Filled;
    var f := Filled(n, d);
    if m > 0 {
      InitialBelowFills(n, d, m - 1);
      var e, kid := InitialBelow(n, f, f, m - 1), Kids(n)[m - 1];
      if Reached(n, f, m - 1) {
        DistinctParts(n, m - 1);
        InitialFrame(kid, e);
        InitialFills(kid, e);
        FilledElsewhere(n, d, m - 1);
        BelowElsewhere(n, f, m - 1);
        var next := Initial(kid, e);
        FilledInSame(kid, e, next, d, next);
        SameOffDisjoint(e, next, Elements(AllIds(kid)), Elements(Own(n)));
        forall i | 0 <= i < m - 1 && Reached(n, f, i) ensures FilledIn(Kids(n)[i], d, next) {
          SameOffDisjoint(e, next, Elements(AllIds(kid)), Elements(AllIds(Kids(n)[i])));
          FilledInSame(Kids(n)[i], d, e, d, next);
        }
      }
    }
  }

  lemma {:induction false} FindFirst(branches: seq<Branch>, i: nat)
    requires i < |branches| && forall j :: 0 <= j < i ==> branches[j].id != branches[i].id
    ensures FindBranch(branches, branches[i].id) == i
  {
    if i > 0 {
      assert branches[0].id != branches[i].id;
      FindFirst(branches[1..], i - 1);
    }
  }

  lemma BranchFirst(n: Node, i: nat)
    requires GoodNode(n) && Branching(n) && i < |n.branches|
    ensures FindBranch(n.branches, n.branches[i].id) == i
  {
    hide GoodId;
    assert Distinct(OptionIds(n));
    forall j | 0 <= j < i ensures n.branches[j].id != n.branches[i].id {
      assert OptionIds(n)[j] != OptionIds(n)[i];
    }
    FindFirst(n.branches, i);
  }

  /** Below a filled-in good node the host looks at exactly the kids that the
      node's answer opens. */
  lemma CheckReached(n: Node, e: Draft)
    requires GoodNode(n) && (Branching(n) && n.id !in e ==> InitialValue(n).None?)
    ensures Check(n, e) <==> OwnFits(n, e) && forall i :: 0 <= i < |Kids(n)| && Reached(n, e, i) ==>
      Check(Kids(n)[i], e)
  {
    hide GoodId, GoodOptions;
    if n.Group? {
      assert forall i :: 0 <= i < |n.children| ==> Kids(n)[i] == n.children[i] && Reached(n, e, i);
    } else if n.Section? {
      assert Kids(n)[0] == n.child && Reached(n, e, 0);
    } else if Branching(n) && Control(e, n.id).Some? && OwnFits(n, e) {
      var v := Control(e, n.id).value;
      if n.Alternatives? {
        var k := FindBranch(n.branches, v.s);
        assert Reached(n, e, k) && Kids(n)[k] == n.branches[k].form;
      } else {
        CheckMany(n, e, v);
      }
    }
  }

  lemma CheckMany(n: Node, e: Draft, v: Value)
    requires GoodNode(n) && n.AlternativesMany? && Control(e, n.id) == Some(v) && Fits(n, v)
    ensures Check(n, e) <==> forall i :: 0 <= i < |Kids(n)| && Reached(n, e, i) ==> Check(Kids(n)[i], e)
  {
    hide GoodNode;
    forall i | 0 <= i < |Kids(n)| && Reached(n, e, i)
      ensures exists j :: 0 <= j < |v.xs| && FindBranch(n.branches, v.xs[j]) == i
    {
      var j :| 0 <= j < |v.xs| && v.xs[j] == n.branches[i].id;
      BranchFirst(n, i);
    }
    forall j | 0 <= j < |v.xs|
      ensures var k := FindBranch(n.branches, v.xs[j]); Reached(n, e, k) && Kids(n)[k] == n.branches[k].form
    {
      assert v.xs[j] in v.xs;
    }
  }

  lemma OwnFilled(n: Node, d: Draft)
    requires GoodNode(n)
    ensures OwnFits(n, Filled(n, d)) <==> OwnFits(n, d)
  {
    hide GoodNode;
    if IsField(n) && n.id !in d && InitialValue(n).Some? { InitialFits(n); }
    hide Fits;
  }

  /** The host passes a filled-in draft exactly if the draft suits the fields in play. */
  lemma {:induction false} FilledPasses(n: Node, d: Draft, e: Draft)
    requires GoodTree(n) && FilledIn(n, d, e)
    ensures Check(n, e) <==> FitsPlayed(n, d)
    decreases n
  {
    hide GoodNode, Fits, Check;
    var f := Filled(n, d);
    if IsField(n) { assert n.id in Elements(Own(n)); }
    OwnFilled(n, d);
    assert OwnFits(n, e) <==> OwnFits(n, f);
    CheckReached(n, e);
    forall i | 0 <= i < |Kids(n)| ensures Reached(n, e, i) <==> Reached(n, f, i) { ReachedSame(n, f, e, i); }
    hide Reached, Filled;
    forall i | 0 <= i < |Kids(n)| && Reached(n, f, i) ensures Check(Kids(n)[i], e) <==> FitsPlayed(Kids(n)[i], d) {
      FilledPasses(Kids(n)[i], d, e);
    }
  }

  /** Exactly which drafts of a valid form pass the host's check once filled in. */
  lemma InitialPassesExact(root: Node, d: Draft)
    requires WellFormed(root)
    ensures Check(root, Initial(root, d)) <==> FitsPlayed(root, d)
  {
    hide AllIds, Initial, GoodTree, DepthWithin, FilledIn, Check, FitsPlayed;
    InitialFills(root, d);
    FilledPasses(root, d, Initial(root, d));
  }

  lemma {:induction false} FitIsPlayed(n: Node, d: Draft)
    requires AllFit(n, d)
    ensures FitsPlayed(n, d)
    decreases n
  {
    hide Fits, Reached;
    forall i | 0 <= i < |Kids(n)| ensures FitsPlayed(Kids(n)[i], d) { FitIsPlayed(Kids(n)[i], d); }
  }

  // ------------------------------------------------------------- hydration

  lemma {:induction false} NothingUnfit(n: Node)
    ensures AllFit(n, map[])
    decreases n
  {
    forall i | 0 <= i < |Kids(n)| ensures AllFit(Kids(n)[i], map[]) { NothingUnfit(Kids(n)[i]); }
  }

  lemma {:induction false} FitMerge(n: Node, d: Draft, e: Draft)
    requires AllFit(n, d) && AllFit(n, e)
    ensures AllFit(n, d + e)
    decreases n
  {
    hide Fits;
    forall i | 0 <= i < |Kids(n)| ensures AllFit(Kids(n)[i], d + e) { FitMerge(Kids(n)[i], d, e); }
  }

  /** What a draft is hydrated from: initial values, then stored answers, then
      cached ones. */
  function Gathered(root: Node, stored: Draft, cached: Draft): Draft { Initial(root, map[]) + stored + cached }

  /** A hydrated draft of a valid form keeps the cached answers, then the stored
      ones, needs no more filling in, and passes the host's check exactly if the
      gathered answers suit the fields in play; so if all stored and cached ones
      suit their fields, and always if there are none. */
  lemma HydratedSound(root: Node, stored: Draft, cached: Draft)
    requires WellFormed(root)
    ensures var h := Hydrated(root, stored, cached);
      && Extends(stored + cached, h) && Initial(root, h) == h
      && (Check(root, h) <==> FitsPlayed(root, Gathered(root, stored, cached)))
      && (AllFit(root, stored) && AllFit(root, cached) ==> Check(root, h))
    ensures Check(root, Hydrated(root, map[], map[]))
    ensures Hydrated(root, map[], map[]) == Initial(root, map[])
  {
    hide WellFormed, Initial, AllFit, Check, FitsPlayed;
    HydratedKeeps(root, stored, cached);
    InitialPassesExact(root, Gathered(root, stored, cached));
    if AllFit(root, stored) && AllFit(root, cached) { HydratedFits(root, stored, cached); }
    NothingUnfit(root);
    HydratedFits(root, map[], map[]);
    assert Initial(root, map[]) + map[] + map[] == Initial(root, map[]);
    HydratedKeeps(root, map[], map[]);
    assert Distinct(AllIds(root)) by { WellFormedParts(root); }
    InitialIdempotent(root, map[]);
  }

  lemma WellFormedParts(root: Node)
    requires WellFormed(root)
    ensures Distinct(AllIds(root)) && GoodTree(root)
  {
  }

  lemma HydratedKeeps(root: Node, stored: Draft, cached: Draft)
    requires WellFormed(root)
    ensures Extends(stored + cached, Hydrated(root, stored, cached))
    ensures Initial(root, Hydrated(root, stored, cached)) == Hydrated(root, stored, cached)
  {
    hide Initial, AllIds;
    InitialKeeps(root, Initial(root, map[]) + stored + cached);
    InitialIdempotent(root, Initial(root, map[]) + stored + cached);
  }

  lemma HydratedFits(root: Node, stored: Draft, cached: Draft)
    requires WellFormed(root) && AllFit(root, stored) && AllFit(root, cached)
    ensures Check(root, Hydrated(root, stored, cached))
  {
    hide Initial, AllIds, AllFit, Check, GoodTree, DepthWithin, FitsPlayed;
    NothingUnfit(root);
    InitialAllFit(root, map[]);
    FitMerge(root, Initial(root, map[]), stored);
    FitMerge(root, Initial(root, map[]) + stored, cached);
    FitIsPlayed(root, Gathered(root, stored, cached));
    InitialPassesExact(root, Gathered(root, stored, cached));
  }

  /** A draft the host accepts need not stay acceptable: filling in can open a
      branch that holds an old unsuitable answer. */
  lemma FillingCanReject(view: View)
    ensures var field := Text("b", "", None);
      var root := Alternatives("a", "", [Branch("x", "", view, field)], Some("x"));
      var d: Draft := map["b" := BoolV(true)];
      Check(root, d) && !Check(root, Initial(root, d))
  {
    var field := Text("b", "", None);
    var root := Alternatives("a", "", [Branch("x", "", view, field)], Some("x"));
    var d: Draft := map["b" := BoolV(true)];
    var f := Filled(root, d);
    assert FindBranch(root.branches, "x") == 0;
    assert Kids(root) == [field];
    assert InitialBelow(root, f, f, 0) == f;
    assert Initial(field, f) == f;
    assert Initial(root, d) == f;
    assert !Check(field, f);
  }
}
