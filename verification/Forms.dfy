/** Forms: a tree of fields, some of which open branches
    (web/src/form-model.ts, crates/harness-presentation/src/lib.rs). */
module Forms {
  import opened JsMap
  import opened Sequences

  /** What each side's own view validator says of a view. */
  datatype View = View(browserAccepts: bool, hostAccepts: bool)

  datatype Choosable = Choosable(id: string, caption: string, presentation: View)

  datatype Branch = Branch(id: string, caption: string, presentation: View, form: Node)

  datatype Node =
    | Pure
    | Empty
    | Group(children: seq<Node>)
    | Section(title: string, child: Node)
    | Show(presentation: View)
    | Text(id: string, caption: string, initial: Option<string>)
    | Int(id: string, caption: string, initial: Option<string>)
    | Number(id: string, caption: string, initialNumber: Option<real>)
    | Slider(id: string, caption: string, minimum: real, maximum: real, position: real)
    | Bool(id: string, caption: string, initialBool: Option<bool>)
    | Choice(id: string, caption: string, options: seq<Choosable>, initial: Option<string>)
    | Many(id: string, caption: string, options: seq<Choosable>, initials: Option<seq<string>>)
    | AlternativesMany(id: string, caption: string, branches: seq<Branch>, initials: Option<seq<string>>)
    | Alternatives(id: string, caption: string, branches: seq<Branch>, initial: Option<string>)

  predicate IsField(n: Node) { !(n.Pure? || n.Empty? || n.Group? || n.Section? || n.Show?) }

  predicate Branching(n: Node) { n.Alternatives? || n.AlternativesMany? }

  /** The nodes directly below, in order. */
  function Kids(n: Node): (kids: seq<Node>)
    ensures forall i :: 0 <= i < |kids| ==> kids[i] < n
  {
    if n.Group? then n.children
    else if n.Section? then [n.child]
    else if Branching(n) then seq(|n.branches|, i requires 0 <= i < |n.branches| => n.branches[i].form)
    else []
  }

  // ------------------------------------------------- what a form should be

  function IdsBelow(n: Node, i: nat): seq<string>
    requires i <= |Kids(n)|
    decreases n, i
  {
    if i == 0 then [] else IdsBelow(n, i - 1) + AllIds(Kids(n)[i - 1])
  }

  function Own(n: Node): seq<string> { if IsField(n) then [n.id] else [] }

  /** Every field id of the tree, in all branches. */
  function AllIds(n: Node): seq<string>
    decreases n, |Kids(n)| + 1
  {
    Own(n) + IdsBelow(n, |Kids(n)|)
  }

  predicate DepthWithin(n: Node, depth: nat)
    decreases n
  {
    depth <= 32 && forall i :: 0 <= i < |Kids(n)| ==> DepthWithin(Kids(n)[i], depth + 1)
  }

  /** UTF-8 length. */
  function Bytes(s: string): nat {
    if s == "" then 0
    else
      var c := s[0] as int;
      (if c < 0x80 then 1 else if c < 0x800 then 2 else if c < 0x10000 then 3 else 4) + Bytes(s[1..])
  }

  predicate GoodId(id: string) { id != "" && Bytes(id) <= 128 }

  predicate Digits(s: string) { s != "" && forall i :: 0 <= i < |s| ==> '0' <= s[i] <= '9' }

  /** An optional sign and at least one digit. */
  predicate DecimalInteger(s: string) { Digits(s) || (s != "" && s[0] == '-' && Digits(s[1..])) }

  function OptionIds(n: Node): seq<string> {
    if n.Choice? || n.Many? then seq(|n.options|, i requires 0 <= i < |n.options| => n.options[i].id)
    else if Branching(n) then seq(|n.branches|, i requires 0 <= i < |n.branches| => n.branches[i].id)
    else []
  }

  function Initials(n: Node): seq<string> {
    if n.Choice? || n.Alternatives? then (if n.initial.Some? then [n.initial.value] else [])
    else if n.Many? || n.AlternativesMany? then (if n.initials.Some? then n.initials.value else [])
    else []
  }

  ghost predicate GoodOptions(ids: seq<string>, initials: seq<string>, nonempty: bool) {
    && (forall i :: 0 <= i < |ids| ==> GoodId(ids[i]))
    && Distinct(ids) && |ids| <= 1024 && (nonempty ==> ids != [])
    && Distinct(initials) && forall i :: 0 <= i < |initials| ==> initials[i] in ids
  }

  /** What a node must satisfy by itself. */
  ghost predicate GoodNode(n: Node) {
    && (IsField(n) ==> GoodId(n.id))
    && (n.Group? ==> |n.children| <= 1024)
    && (n.Int? && n.initial.Some? ==> DecimalInteger(n.initial.value))
    && (n.Slider? ==> n.minimum < n.maximum && n.minimum <= n.position <= n.maximum)
    && (n.Choice? || n.Many? || Branching(n) ==> GoodOptions(OptionIds(n), Initials(n), n.Choice? || n.Alternatives?))
  }

  ghost predicate GoodTree(n: Node)
    decreases n
  {
    GoodNode(n) && forall i :: 0 <= i < |Kids(n)| ==> GoodTree(Kids(n)[i])
  }

  /** The forms both sides mean to accept. */
  ghost predicate WellFormed(n: Node) { DepthWithin(n, 0) && Distinct(AllIds(n)) && GoodTree(n) }

  // ----------------------------------------------- where the sides may differ

  predicate Labelled(n: Node) {
    && (IsField(n) ==> Bytes(n.caption) <= 131072)
    && (n.Section? ==> Bytes(n.title) <= 131072)
    && (n.Choice? || n.Many? ==> forall i :: 0 <= i < |n.options| ==> Bytes(n.options[i].caption) <= 131072)
    && (Branching(n) ==> forall i :: 0 <= i < |n.branches| ==> Bytes(n.branches[i].caption) <= 131072)
  }

  predicate ViewsPass(n: Node, browser: bool) {
    && (n.Show? ==> Passes(n.presentation, browser))
    && (n.Choice? || n.Many? ==> forall i :: 0 <= i < |n.options| ==> Passes(n.options[i].presentation, browser))
    && (Branching(n) ==> forall i :: 0 <= i < |n.branches| ==> Passes(n.branches[i].presentation, browser))
  }

  predicate Passes(v: View, browser: bool) { if browser then v.browserAccepts else v.hostAccepts }

  predicate AllViewsPass(n: Node, browser: bool)
    decreases n
  {
    ViewsPass(n, browser) && forall i :: 0 <= i < |Kids(n)| ==> AllViewsPass(Kids(n)[i], browser)
  }

  predicate AllLabelled(n: Node)
    decreases n
  {
    Labelled(n) && forall i :: 0 <= i < |Kids(n)| ==> AllLabelled(Kids(n)[i])
  }
}
