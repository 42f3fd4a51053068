/** The draft object that `initialDraft` and `activeDraft` write into, and the
    bounded cache of drafts (web/src/form-model.ts). */
module FormDraftObjects {
  import opened JsMap
  import opened Sequences
  import opened Forms
  import opened FormDrafts
  import opened FormFilling

  class DraftObject {
    var fields: Draft

    constructor ()
      ensures fields == map[]
    {
      fields := map[];
    }

    /** `initialDraft(node, into)` */
    method Initialise(n: Node)
      modifies this
      ensures fields == Initial(n, old(fields))
      ensures Distinct(AllIds(n)) ==> FillsIn(n, old(fields), fields)
      decreases n
    {
      if IsField(n) {
        var value := InitialValue(n);
        if value.Some? && n.id !in fields { fields := fields[n.id := value.value]; }
      }
      ghost var filled := fields;
      var selected := Selected(n, fields);
      var kids := Kids(n);
      for i := 0 to |kids|
        invariant fields == InitialBelow(n, filled, filled, i)
      {
        SelectedExact(n, filled, i);
        if Picked(n, selected, i) { Initialise(kids[i]); }
      }
      if Distinct(AllIds(n)) { InitialFillsIn(n, old(fields)); }
    }

    /** `activeDraft(node, draft, into)` */
    method Activate(n: Node, draft: Draft)
      modifies this
      ensures fields == Active(n, draft, old(fields))
      decreases n
    {
      if IsField(n) && n.id in draft { fields := fields[n.id := draft[n.id]]; }
      ghost var taken := fields;
      var selected := Selected(n, draft);
      var kids := Kids(n);
      for i := 0 to |kids|
        invariant fields == ActiveBelow(n, draft, taken, i)
      {
        SelectedExact(n, draft, i);
        if Picked(n, selected, i) { Activate(kids[i], draft); }
      }
    }
  }

  /** The branches to enter, worked out before any of them is entered. */
  function Selected(n: Node, d: Draft): set<nat> {
    if n.Alternatives? then
      var v := Chosen(n, d);
      if v.Some? && v.value.TextV? && FindBranch(n.branches, v.value.s) >= 0
      then {FindBranch(n.branches, v.value.s)} else {}
    else if n.AlternativesMany? && n.id in d && d[n.id].ManyV? then
      set i: nat | i < |n.branches| && n.branches[i].id in d[n.id].xs
    else {}
  }

  predicate Picked(n: Node, selected: set<nat>, i: nat) { !Branching(n) || i in selected }

  lemma SelectedExact(n: Node, d: Draft, i: nat)
    requires i < |Kids(n)|
    ensures Picked(n, Selected(n, d), i) <==> Reached(n, d, i)
  {
  }

  const MAX_DRAFTS := 32

  /** `keepDraft`: the 32 drafts kept last. */
  method KeepDraft(drafts: Table<string, Draft>, key: string, draft: Draft) returns (next: Table<string, Draft>)
    ensures next == Touch(drafts, key, draft, MAX_DRAFTS)
  {
    next := Set(Delete(drafts, key), key, draft);
    while |next| > MAX_DRAFTS
      invariant Latest(next, MAX_DRAFTS) == Touch(drafts, key, draft, MAX_DRAFTS)
    {
      next := next[1..];
    }
  }
}
