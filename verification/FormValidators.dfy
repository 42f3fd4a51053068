/** The two form validators, written separately and sharing one mutable id set
    down the recursion: the browser's and the host's. */
module FormValidators {
  import opened Sequences
  import opened Forms

  predicate HasOptions(n: Node) { n.Choice? || n.Many? || Branching(n) }

  /** What one node needs, views and captions included. */
  ghost predicate Alone(n: Node, browser: bool) {
    GoodNode(n) && ViewsPass(n, browser) && (browser ==> Labelled(n))
  }

  ghost predicate Unseen(n: Node, ids: set<string>) { Distinct(AllIds(n)) && Elements(AllIds(n)) !! ids }

  ghost predicate AllAlone(n: Node, browser: bool) {
    GoodTree(n) && AllViewsPass(n, browser) && (browser ==> AllLabelled(n))
  }

  /** What a validator should find of a subtree met at a depth, after other ids. */
  ghost predicate Passing(n: Node, depth: nat, ids: set<string>, browser: bool) {
    DepthWithin(n, depth) && Unseen(n, ids) && AllAlone(n, browser)
  }

  ghost predicate KidsPass(n: Node, depth: nat, ids: set<string>, m: nat, browser: bool)
    requires m <= |Kids(n)|
  {
    m == 0 || (KidsPass(n, depth, ids, m - 1, browser)
               && Passing(Kids(n)[m - 1], depth + 1, ids + Elements(IdsBelow(n, m - 1)), browser))
  }

  // --------------------------------------------------- node by node instead

  lemma NoRepeatConcat<T>(a: seq<T>, b: seq<T>)
    ensures Distinct(a + b) <==> Distinct(a) && Distinct(b) && Elements(a) !! Elements(b)
    ensures Elements(a + b) == Elements(a) + Elements(b)
  {
    var c := a + b;
    if Distinct(c) {
      forall i, j | 0 <= i < j < |a| ensures a[i] != a[j] { assert c[i] == a[i] && c[j] == a[j]; }
      forall i, j | 0 <= i < j < |b| ensures b[i] != b[j] { assert c[|a| + i] == b[i] && c[|a| + j] == b[j]; }
      forall x | x in Elements(a) ensures x !in Elements(b) { SplitRepeat(a, b, x); }
    }
    if Distinct(a) && Distinct(b) && Elements(a) !! Elements(b) {
      forall i, j | 0 <= i < j < |c| ensures c[i] != c[j] {
        if i < |a| && j >= |a| { assert c[i] in Elements(a) && c[j] in Elements(b); }
      }
    }
  }

  lemma SplitRepeat<T>(a: seq<T>, b: seq<T>, x: T)
    requires Distinct(a + b) && x in a
    ensures x !in b
  {
    var i :| 0 <= i < |a| && a[i] == x;
    forall j | 0 <= j < |b| ensures b[j] != x { assert (a + b)[i] == x && (a + b)[|a| + j] == b[j]; }
  }

  ghost predicate KidsAlone(n: Node, depth: nat, m: nat, browser: bool)
    requires m <= |Kids(n)|
  {
    forall k :: 0 <= k < m ==> DepthWithin(Kids(n)[k], depth + 1) && AllAlone(Kids(n)[k], browser)
  }

  lemma {:induction false} KidsPassExact(n: Node, depth: nat, ids: set<string>, m: nat, browser: bool)
    requires m <= |Kids(n)|
    ensures KidsPass(n, depth, ids, m, browser) <==>
      KidsAlone(n, depth, m, browser) && Distinct(IdsBelow(n, m)) && Elements(IdsBelow(n, m)) !! ids
    decreases m
  {
    hide AllAlone, DepthWithin, AllIds;
    if m > 0 {
      KidsPassExact(n, depth, ids, m - 1, browser);
      NoRepeatConcat(IdsBelow(n, m - 1), AllIds(Kids(n)[m - 1]));
    }
  }

  lemma PassingExact(n: Node, depth: nat, ids: set<string>, browser: bool)
    ensures Passing(n, depth, ids, browser) <==>
      && depth <= 32 && Alone(n, browser) && Elements(Own(n)) !! ids
      && KidsPass(n, depth, ids + Elements(Own(n)), |Kids(n)|, browser)
    ensures Elements(AllIds(n)) == Elements(Own(n)) + Elements(IdsBelow(n, |Kids(n)|))
  {
    hide GoodNode, ViewsPass, Labelled, Kids;
    var m := |Kids(n)|;
    KidsPassExact(n, depth, ids + Elements(Own(n)), m, browser);
    NoRepeatConcat(Own(n), IdsBelow(n, m));
    AloneSplit(n, depth, browser);
  }

  lemma AloneSplit(n: Node, depth: nat, browser: bool)
    ensures DepthWithin(n, depth) && AllAlone(n, browser) <==>
      depth <= 32 && Alone(n, browser) && KidsAlone(n, depth, |Kids(n)|, browser)
  {
    hide GoodNode, ViewsPass, Labelled, Kids;
  }

  /** The ids gathered while the first `m` kids have passed. */
  ghost predicate Gathered(n: Node, ids: set<string>, m: nat, seen: set<string>)
    requires m <= |Kids(n)|
  {
    seen == ids + Elements(Own(n)) + Elements(IdsBelow(n, m))
  }

  lemma GatherNext(n: Node, ids: set<string>, m: nat, seen: set<string>)
    requires m < |Kids(n)| && Gathered(n, ids, m, seen)
    ensures Gathered(n, ids, m + 1, seen + Elements(AllIds(Kids(n)[m])))
  {
    NoRepeatConcat(IdsBelow(n, m), AllIds(Kids(n)[m]));
  }

  lemma {:induction false} KidsPassDown(n: Node, depth: nat, ids: set<string>, m: nat, all: nat, browser: bool)
    requires m <= all <= |Kids(n)| && KidsPass(n, depth, ids, all, browser)
    ensures KidsPass(n, depth, ids, m, browser)
    decreases all
  {
    hide Passing;
    if m < all { KidsPassDown(n, depth, ids, m, all - 1, browser); }
  }

  /** A rejected kid rejects the node. */
  lemma KidRejects(n: Node, depth: nat, ids: set<string>, m: nat, seen: set<string>, browser: bool)
    requires m < |Kids(n)| && Gathered(n, ids, m, seen) && !Passing(Kids(n)[m], depth + 1, seen, browser)
    ensures !Passing(n, depth, ids, browser)
  {
    hide Passing;
    PassingExact(n, depth, ids, browser);
    if KidsPass(n, depth, ids + Elements(Own(n)), |Kids(n)|, browser) {
      KidsPassDown(n, depth, ids + Elements(Own(n)), m + 1, |Kids(n)|, browser);
    }
  }

  lemma NodePasses(n: Node, depth: nat, ids: set<string>, seen: set<string>, browser: bool)
    requires depth <= 32 && Alone(n, browser) && Elements(Own(n)) !! ids
    requires KidsPass(n, depth, ids + Elements(Own(n)), |Kids(n)|, browser) && Gathered(n, ids, |Kids(n)|, seen)
    ensures Passing(n, depth, ids, browser) && seen == ids + Elements(AllIds(n))
  {
    hide Passing, Alone, KidsPass;
    PassingExact(n, depth, ids, browser);
  }

  lemma NodeRejects(n: Node, depth: nat, ids: set<string>, browser: bool)
    requires depth > 32 || !Alone(n, browser) || !(Elements(Own(n)) !! ids)
    ensures !Passing(n, depth, ids, browser)
  {
    hide Passing, Alone, KidsPass;
    PassingExact(n, depth, ids, browser);
  }

  // -------------------------------------------------------------- options

  function CaptionAt(n: Node, i: nat): string
    requires HasOptions(n) && i < |OptionIds(n)|
  {
    if Branching(n) then n.branches[i].caption else n.options[i].caption
  }

  function ViewAt(n: Node, i: nat): View
    requires HasOptions(n) && i < |OptionIds(n)|
  {
    if Branching(n) then n.branches[i].presentation else n.options[i].presentation
  }

  predicate OptionPasses(n: Node, i: nat, browser: bool)
    requires HasOptions(n) && i < |OptionIds(n)|
  {
    GoodId(OptionIds(n)[i]) && Passes(ViewAt(n, i), browser) && (browser ==> Bytes(CaptionAt(n, i)) <= 131072)
  }

  ghost predicate OptionsPass(n: Node, m: nat, browser: bool)
    requires HasOptions(n) && m <= |OptionIds(n)|
  {
    (forall i :: 0 <= i < m ==> OptionPasses(n, i, browser)) && Distinct(OptionIds(n)[..m])
  }

  predicate Counted(n: Node)
    requires HasOptions(n)
  {
    |OptionIds(n)| <= 1024 && (n.Choice? || n.Alternatives? ==> OptionIds(n) != [])
  }

  ghost predicate InitialsGood(n: Node) {
    Distinct(Initials(n)) && forall i :: 0 <= i < |Initials(n)| ==> Initials(n)[i] in OptionIds(n)
  }

  predicate Headed(n: Node, browser: bool)
    requires IsField(n)
  {
    GoodId(n.id) && (browser ==> Bytes(n.caption) <= 131072)
  }

  lemma AloneExact(n: Node, browser: bool)
    requires HasOptions(n)
    ensures Alone(n, browser) <==>
      Headed(n, browser) && Counted(n) && OptionsPass(n, |OptionIds(n)|, browser) && InitialsGood(n)
  {
    hide GoodId, Bytes;
    var ids := OptionIds(n);
    assert ids[..|ids|] == ids;
    if Alone(n, browser) {
      forall i | 0 <= i < |ids| ensures OptionPasses(n, i, browser) {}
    }
    if Headed(n, browser) && Counted(n) && OptionsPass(n, |ids|, browser) && InitialsGood(n) {
      OptionsAlone(n, browser);
    }
  }

  lemma OptionsAlone(n: Node, browser: bool)
    requires HasOptions(n) && Headed(n, browser) && Counted(n) && OptionsPass(n, |OptionIds(n)|, browser)
      && InitialsGood(n)
    ensures Alone(n, browser)
  {
    hide GoodId, Bytes;
    var ids := OptionIds(n);
    assert ids[..|ids|] == ids;
    forall i | 0 <= i < |ids| ensures GoodId(ids[i]) { assert OptionPasses(n, i, browser); }
    assert GoodOptions(ids, Initials(n), n.Choice? || n.Alternatives?);
    assert GoodNode(n);
    if n.Choice? || n.Many? {
      forall i | 0 <= i < |n.options|
        ensures Passes(n.options[i].presentation, browser) && (browser ==> Bytes(n.options[i].caption) <= 131072)
      {
        assert OptionPasses(n, i, browser);
      }
    } else {
      forall i | 0 <= i < |n.branches|
        ensures Passes(n.branches[i].presentation, browser) && (browser ==> Bytes(n.branches[i].caption) <= 131072)
      {
        assert OptionPasses(n, i, browser);
      }
    }
  }

  /** A later option fails or repeats an earlier one. */
  lemma OptionRejects(n: Node, i: nat, browser: bool)
    requires HasOptions(n) && i < |OptionIds(n)|
    requires !OptionPasses(n, i, browser) || OptionIds(n)[i] in OptionIds(n)[..i]
    ensures !Alone(n, browser)
  {
    hide Alone, OptionPasses;
    AloneExact(n, browser);
    var ids := OptionIds(n);
    assert ids[..|ids|] == ids;
  }

  lemma OptionNext(n: Node, i: nat, browser: bool)
    requires HasOptions(n) && i < |OptionIds(n)| && OptionsPass(n, i, browser)
    requires OptionPasses(n, i, browser) && OptionIds(n)[i] !in OptionIds(n)[..i]
    ensures OptionsPass(n, i + 1, browser)
    ensures Elements(OptionIds(n)[..i + 1]) == Elements(OptionIds(n)[..i]) + {OptionIds(n)[i]}
  {
    hide OptionPasses, OptionIds;
    var ids := OptionIds(n);
    assert ids[..i + 1] == ids[..i] + [ids[i]];
  }

  /** All of a list drawn from a set, without repetition: the shape of both checks. */
  method Drawn(chosen: seq<string>, from: set<string>) returns (ok: bool)
    ensures ok <==> Distinct(chosen) && forall i :: 0 <= i < |chosen| ==> chosen[i] in from
  {
    var taken: set<string> := {};
    for i := 0 to |chosen|
      invariant taken == Elements(chosen[..i]) && Distinct(chosen[..i])
      invariant forall k :: 0 <= k < i ==> chosen[k] in from
    {
      if chosen[i] !in from || chosen[i] in taken {
        if chosen[i] in taken {
          var j :| 0 <= j < i && chosen[..i][j] == chosen[i];
          assert chosen[j] == chosen[i];
        }
        return false;
      }
      assert chosen[..i + 1] == chosen[..i] + [chosen[i]];
      taken := taken + {chosen[i]};
    }
    assert chosen[..|chosen|] == chosen;
    return true;
  }

  // ------------------------------------------------------ the browser's

  /** Options without forms below them. */
  method BrowserOptions(n: Node) returns (ok: bool)
    requires (n.Choice? || n.Many?) && Headed(n, true) && Counted(n)
    ensures ok <==> Alone(n, true)
  {
    hide Alone, OptionPasses, GoodId, Bytes;
    AloneExact(n, true);
    var ids := OptionIds(n);
    var optionIds: set<string> := {};
    for i := 0 to |ids|
      invariant OptionsPass(n, i, true) && optionIds == Elements(ids[..i])
    {
      if !OptionPasses(n, i, true) || ids[i] in optionIds {
        OptionRejects(n, i, true);
        return false;
      }
      OptionNext(n, i, true);
      optionIds := optionIds + {ids[i]};
    }
    assert ids[..|ids|] == ids;
    ok := Drawn(Initials(n), optionIds);
  }

  method BrowserKids(n: Node, depth: nat, ids: set<string>) returns (ok: bool, seen: set<string>)
    requires n.Group? || n.Section?
    ensures ok ==> KidsPass(n, depth, ids + Elements(Own(n)), |Kids(n)|, true) && Gathered(n, ids, |Kids(n)|, seen)
    ensures !ok ==> !Passing(n, depth, ids, true)
    decreases n, 0
  {
    hide Passing, AllIds;
    seen := ids;
    var kids := Kids(n);
    for i := 0 to |kids|
      invariant KidsPass(n, depth, ids + Elements(Own(n)), i, true) && Gathered(n, ids, i, seen)
    {
      ghost var before := seen;
      ok, seen := BrowserNode(kids[i], depth + 1, seen);
      if !ok {
        KidRejects(n, depth, ids, i, before, true);
        return;
      }
      GatherNext(n, ids, i, before);
    }
    ok := true;
  }

  /** Each branch: its option first, then its form. */
  method BrowserBranches(n: Node, depth: nat, ids: set<string>)
    returns (ok: bool, seen: set<string>, optionIds: set<string>)
    requires Branching(n) && Counted(n)
    ensures ok ==> OptionsPass(n, |OptionIds(n)|, true) && optionIds == Elements(OptionIds(n))
    ensures ok ==> KidsPass(n, depth, ids + Elements(Own(n)), |Kids(n)|, true) && Gathered(n, ids, |Kids(n)|, seen)
    ensures !ok ==> !Passing(n, depth, ids, true)
    decreases n, 0
  {
    hide Passing, AllIds, OptionPasses, Alone;
    seen := ids + {n.id};
    optionIds := {};
    var options := OptionIds(n);
    for i := 0 to |n.branches|
      invariant OptionsPass(n, i, true) && optionIds == Elements(options[..i])
      invariant KidsPass(n, depth, ids + Elements(Own(n)), i, true) && Gathered(n, ids, i, seen)
    {
      if !OptionPasses(n, i, true) || options[i] in optionIds {
        OptionRejects(n, i, true);
        NodeRejects(n, depth, ids, true);
        ok := false;
        return;
      }
      OptionNext(n, i, true);
      optionIds := optionIds + {options[i]};
      ghost var before := seen;
      ok, seen := BrowserNode(n.branches[i].form, depth + 1, seen);
      if !ok {
        KidRejects(n, depth, ids, i, before, true);
        return;
      }
      GatherNext(n, ids, i, before);
    }
    assert options[..|options|] == options;
    ok := true;
  }

  predicate GoodValue(n: Node)
    requires IsField(n) && !HasOptions(n)
  {
    && (n.Int? && n.initial.Some? ==> DecimalInteger(n.initial.value))
    && (n.Slider? ==> n.minimum < n.maximum && n.minimum <= n.position <= n.maximum)
  }

  lemma LeafExact(n: Node, browser: bool)
    requires IsField(n) && !HasOptions(n)
    ensures Alone(n, browser) <==> Headed(n, browser) && GoodValue(n)
    ensures Kids(n) == []
  {
  }

  /** `formNode`, the branches on `kind` in source order. */
  method BrowserNode(n: Node, depth: nat, ids: set<string>) returns (ok: bool, seen: set<string>)
    ensures ok <==> Passing(n, depth, ids, true)
    ensures ok ==> seen == ids + Elements(AllIds(n))
    decreases n, 2
  {
    hide Passing, AllIds, Alone, GoodId, Bytes, KidsPass;
    seen := ids;
    if depth > 32 || (IsField(n) && (!Headed(n, true) || n.id in ids)) {
      HeadRejects(n, depth, ids, true);
      return false, seen;
    }
    if !IsField(n) {
      if (n.Group? && |n.children| > 1024) || (n.Section? && Bytes(n.title) > 131072)
        || (n.Show? && !n.presentation.browserAccepts) {
        PlainExact(n, true);
        NodeRejects(n, depth, ids, true);
        return false, seen;
      }
      PlainExact(n, true);
      if n.Group? || n.Section? {
        ok, seen := BrowserKids(n, depth, ids);
      } else {
        ok := true;
        NoKids(n, depth, ids, true);
      }
      if ok { NodePasses(n, depth, ids, seen, true); }
    } else if !HasOptions(n) {
      LeafExact(n, true);
      ok, seen := GoodValue(n), ids + {n.id};
      NoKids(n, depth, ids, true);
      if ok { NodePasses(n, depth, ids, seen, true); } else { NodeRejects(n, depth, ids, true); }
    } else {
      ok, seen := BrowserChoices(n, depth, ids);
    }
  }

  lemma NoKids(n: Node, depth: nat, ids: set<string>, browser: bool)
    requires Kids(n) == []
    ensures KidsPass(n, depth, ids + Elements(Own(n)), |Kids(n)|, browser)
    ensures Gathered(n, ids, |Kids(n)|, ids + Elements(Own(n)))
  {
  }

  lemma HeadRejects(n: Node, depth: nat, ids: set<string>, browser: bool)
    requires depth > 32 || (IsField(n) && (!Headed(n, browser) || n.id in ids))
    ensures !Passing(n, depth, ids, browser)
  {
    hide GoodId, Bytes;
    NodeRejects(n, depth, ids, browser) by {
      if IsField(n) && n.id in ids { assert n.id in Elements(Own(n)); }
    }
  }

  lemma PlainExact(n: Node, browser: bool)
    requires !IsField(n)
    ensures Alone(n, browser) <==>
      && (n.Group? ==> |n.children| <= 1024)
      && (n.Section? && browser ==> Bytes(n.title) <= 131072)
      && (n.Show? ==> Passes(n.presentation, browser))
    ensures Own(n) == []
  {
    hide Bytes;
  }

  method BrowserChoices(n: Node, depth: nat, ids: set<string>) returns (ok: bool, seen: set<string>)
    requires HasOptions(n) && Headed(n, true) && n.id !in ids && depth <= 32
    ensures ok <==> Passing(n, depth, ids, true)
    ensures ok ==> seen == ids + Elements(AllIds(n))
    decreases n, 1
  {
    hide Passing, AllIds, Alone, GoodId, Bytes, KidsPass, OptionsPass;
    AloneExact(n, true);
    seen := ids + {n.id};
    assert Own(n) == [n.id] && Elements(Own(n)) == {n.id};
    if !Counted(n) {
      NodeRejects(n, depth, ids, true);
      return false, seen;
    }
    if Branching(n) {
      var optionIds;
      ok, seen, optionIds := BrowserBranches(n, depth, ids);
      if ok { ok := Drawn(Initials(n), optionIds); } else { return; }
    } else {
      ok := BrowserOptions(n);
      NoKids(n, depth, ids, true);
    }
    if ok { NodePasses(n, depth, ids, seen, true); } else { NodeRejects(n, depth, ids, true); }
  }

  // --------------------------------------------------------- the host's

  /** `options`: ids and views of all options first, then count and initials. */
  method HostOptions(n: Node) returns (ok: bool)
    requires HasOptions(n) && Headed(n, false)
    ensures ok <==> Alone(n, false)
  {
    hide Alone, OptionPasses, GoodId, Bytes;
    AloneExact(n, false);
    var options := OptionIds(n);
    var optionIds: set<string> := {};
    for i := 0 to |options|
      invariant OptionsPass(n, i, false) && optionIds == Elements(options[..i])
    {
      if !OptionPasses(n, i, false) || options[i] in optionIds {
        OptionRejects(n, i, false);
        return false;
      }
      OptionNext(n, i, false);
      optionIds := optionIds + {options[i]};
    }
    assert options[..|options|] == options;
    var nonempty := n.Choice? || n.Alternatives?;
    if (nonempty && |options| == 0) || |options| > 1024 { return false; }
    ok := Drawn(Initials(n), optionIds);
  }

  method HostKids(n: Node, depth: nat, ids: set<string>, seen0: set<string>) returns (ok: bool, seen: set<string>)
    requires Gathered(n, ids, 0, seen0)
    ensures ok ==> KidsPass(n, depth, ids + Elements(Own(n)), |Kids(n)|, false) && Gathered(n, ids, |Kids(n)|, seen)
    ensures !ok ==> !Passing(n, depth, ids, false)
    decreases n, 0
  {
    hide Passing, AllIds;
    seen := seen0;
    var kids := Kids(n);
    for i := 0 to |kids|
      invariant KidsPass(n, depth, ids + Elements(Own(n)), i, false) && Gathered(n, ids, i, seen)
    {
      ghost var before := seen;
      ok, seen := HostNode(kids[i], depth + 1, seen);
      if !ok {
        KidRejects(n, depth, ids, i, before, false);
        return;
      }
      GatherNext(n, ids, i, before);
    }
    ok := true;
  }

  /** `go`: depth, then the id, then the kind. */
  method HostNode(n: Node, depth: nat, ids: set<string>) returns (ok: bool, seen: set<string>)
    ensures ok <==> Passing(n, depth, ids, false)
    ensures ok ==> seen == ids + Elements(AllIds(n))
    decreases n, 1
  {
    hide Passing, AllIds, Alone, GoodId, Bytes, KidsPass;
    seen := ids;
    if depth > 32 || (IsField(n) && (!GoodId(n.id) || n.id in ids)) {
      HeadRejects(n, depth, ids, false);
      return false, seen;
    }
    if IsField(n) {
      seen := seen + {n.id};
      if HasOptions(n) {
        ok := HostOptions(n);
      } else {
        LeafExact(n, false);
        ok := GoodValue(n);
      }
    } else {
      PlainExact(n, false);
      ok := (n.Group? ==> |n.children| <= 1024) && (n.Show? ==> n.presentation.hostAccepts);
    }
    if !ok {
      NodeRejects(n, depth, ids, false);
      return;
    }
    ok, seen := HostKids(n, depth, ids, seen);
    if ok { NodePasses(n, depth, ids, seen, false); }
  }

  // ----------------------------------------------------------- agreement

  /** The browser accepts exactly the well-formed trees whose views it accepts
      and whose captions are not too long. */
  method BrowserAccepts(root: Node) returns (ok: bool)
    ensures ok <==> WellFormed(root) && AllViewsPass(root, true) && AllLabelled(root)
  {
    hide GoodTree, AllViewsPass, AllLabelled, DepthWithin, AllIds;
    var seen;
    ok, seen := BrowserNode(root, 0, {});
  }

  /** The host accepts exactly the well-formed trees whose views it accepts. */
  method HostAccepts(root: Node) returns (ok: bool)
    ensures ok <==> WellFormed(root) && AllViewsPass(root, false)
  {
    hide GoodTree, AllViewsPass, AllLabelled, DepthWithin, AllIds;
    var seen;
    ok, seen := HostNode(root, 0, {});
  }

  ghost predicate SameViews(n: Node)
    decreases n
  {
    && (n.Show? ==> n.presentation.browserAccepts == n.presentation.hostAccepts)
    && (n.Choice? || n.Many? ==> forall i :: 0 <= i < |n.options| ==>
          n.options[i].presentation.browserAccepts == n.options[i].presentation.hostAccepts)
    && (Branching(n) ==> forall i :: 0 <= i < |n.branches| ==>
          n.branches[i].presentation.browserAccepts == n.branches[i].presentation.hostAccepts)
    && forall i :: 0 <= i < |Kids(n)| ==> SameViews(Kids(n)[i])
  }

  lemma {:induction false} ViewsAgree(n: Node)
    requires SameViews(n)
    ensures AllViewsPass(n, true) <==> AllViewsPass(n, false)
    decreases n
  {
    forall i | 0 <= i < |Kids(n)| ensures AllViewsPass(Kids(n)[i], true) <==> AllViewsPass(Kids(n)[i], false) {
      ViewsAgree(Kids(n)[i]);
    }
    assert ViewsPass(n, true) <==> ViewsPass(n, false);
  }

  // ---------------------------------------------------------- whole forms

  const MAX_FORM_BYTES := 131072

  /** A form with the size of its JSON text. */
  datatype Spec = Spec(version: int, root: Node, bytes: nat)

  /** Every caption is written out in the JSON text, so none is longer. */
  ghost predicate CaptionsWithin(n: Node, bytes: nat)
    decreases n
  {
    && (IsField(n) ==> Bytes(n.caption) <= bytes)
    && (n.Section? ==> Bytes(n.title) <= bytes)
    && (n.Choice? || n.Many? ==> forall i :: 0 <= i < |n.options| ==> Bytes(n.options[i].caption) <= bytes)
    && (Branching(n) ==> forall i :: 0 <= i < |n.branches| ==> Bytes(n.branches[i].caption) <= bytes)
    && forall i :: 0 <= i < |Kids(n)| ==> CaptionsWithin(Kids(n)[i], bytes)
  }

  ghost predicate BrowserTakes(f: Spec) {
    f.version == 1 && WellFormed(f.root) && AllViewsPass(f.root, true) && AllLabelled(f.root)
  }

  ghost predicate HostTakes(f: Spec) {
    f.version == 1 && f.bytes <= MAX_FORM_BYTES && WellFormed(f.root) && AllViewsPass(f.root, false)
  }

  method IsFormSpec(f: Spec) returns (ok: bool)
    ensures ok <==> BrowserTakes(f)
  {
    if f.version != 1 { return false; }
    ok := BrowserAccepts(f.root);
  }

  method ValidateForm(f: Spec) returns (ok: bool)
    ensures ok <==> HostTakes(f)
  {
    if f.version != 1 || f.bytes > MAX_FORM_BYTES { return false; }
    ok := HostAccepts(f.root);
  }

  lemma {:induction false} SmallFormLabelled(n: Node, bytes: nat)
    requires CaptionsWithin(n, bytes) && bytes <= MAX_FORM_BYTES
    ensures AllLabelled(n)
    decreases n
  {
    forall i | 0 <= i < |Kids(n)| ensures AllLabelled(Kids(n)[i]) { SmallFormLabelled(Kids(n)[i], bytes); }
  }

  /** With views that both sides judge alike, the host takes exactly the forms that
      the browser takes and that are not too large. */
  lemma VerdictsAgree(f: Spec)
    requires SameViews(f.root) && CaptionsWithin(f.root, f.bytes)
    ensures HostTakes(f) <==> BrowserTakes(f) && f.bytes <= MAX_FORM_BYTES
  {
    ViewsAgree(f.root);
    if f.bytes <= MAX_FORM_BYTES { SmallFormLabelled(f.root, f.bytes); }
  }
}
