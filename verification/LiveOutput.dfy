/** Bounded previews of streaming model output (web/src/live-output.ts). */
module LiveOutput {
  import opened JsMap
  import opened Utf8

  const MAX_ITEMS: nat := 128
  const MAX_BYTES: nat := 65536

  datatype Origin =
    | Embedded(run: string, actor: string, incarnation: string)
    | Stored(store: string, actor: string)

  datatype Scope = Scope(origin: Origin, requestId: string)

  datatype OutputKey = OutputKey(scope: Scope, itemId: Option<string>, channel: string, index: string)

  datatype Delta = Delta(key: OutputKey, text: Text, overflow: bool, toolName: Option<string>, version: string)

  /** `retained` is the byte count the module-level WeakMap holds for this very
      object. Objects rebuilt from the wire, by a commit or by a stop have none. */
  datatype Item = Item(key: OutputKey, text: Text, overflow: bool, streaming: bool,
                       toolName: Option<string>, committedHash: Option<string>,
                       version: string, retained: Option<nat>)

  datatype Commit = Commit(scope: Scope, itemId: Option<string>, hash: string, version: string)

  // ------------------------------------------------------- completePrefix

  /** Reading before the start of the buffer is a read of `undefined`, which is
      no continuation byte. */
  method CompletePrefix(encoded: seq<Byte>, budget: nat) returns (end: int)
    ensures -1 <= end <= |encoded| && end <= budget
    ensures 0 <= end < |encoded| ==> !Continuation(encoded[end])
    ensures forall j :: end < j <= budget && 0 <= j < |encoded| ==> Continuation(encoded[j])
    ensures |encoded| <= budget ==> end == |encoded|
  {
    end := if |encoded| < budget then |encoded| else budget;
    while 0 <= end < |encoded| && Continuation(encoded[end])
      invariant -1 <= end <= |encoded| && end <= budget
      invariant forall j :: end < j <= budget && 0 <= j < |encoded| ==> Continuation(encoded[j])
      invariant |encoded| <= budget ==> end == |encoded|
      decreases end
    {
      end := end - 1;
    }
  }

  /** On an encoding the search stops exactly where the fitting prefix ends. */
  lemma BoundaryUnique(cs: seq<Scalar>, budget: nat, end: int)
    requires var e := Encode(cs);
      && -1 <= end <= |e| && end <= budget
      && (0 <= end < |e| ==> !Continuation(e[end]))
      && (forall j :: end < j <= budget && 0 <= j < |e| ==> Continuation(e[j]))
      && (|e| <= budget ==> end == |e|)
    ensures end == Size(Fit(cs, budget))
    ensures end < |Encode(cs)| <==> Fit(cs, budget) != cs
  {
    FitBoundary(cs, budget);
    FitIsLongest(cs, budget);
    FitWhole(cs, budget);
    SizeEncode(cs);
  }

  // ---------------------------------------------------------- appendOutput

  function StripBom(cs: seq<Scalar>): seq<Scalar> {
    if cs != [] && cs[0] == BOM then cs[1..] else cs
  }

  /** The count, when there is one, is the encoded size of the text. */
  ghost predicate Sound(item: Item) {
    item.retained.Some? ==>
      && item.retained.value == Size(Scalars(item.text)) <= MAX_BYTES
      && WellFormed(item.text)
  }

  ghost predicate SoundTable(outputs: Table<OutputKey, Item>) {
    && DistinctKeys(outputs)
    && |outputs| <= MAX_ITEMS
    && forall i :: 0 <= i < |outputs| ==> Sound(outputs[i].value) && outputs[i].value.key == outputs[i].key
  }

  predicate Restoring(prior: Option<Item>) { prior.Some? && prior.value.retained.None? }

  function OldText(prior: Option<Item>): Text { if prior.None? then [] else prior.value.text }

  function OldBytes(prior: Option<Item>): nat {
    if prior.Some? && prior.value.retained.Some? then prior.value.retained.value else 0
  }

  function Budget(prior: Option<Item>): nat {
    if OldBytes(prior) <= MAX_BYTES then MAX_BYTES - OldBytes(prior) else 0
  }

  function Incoming(prior: Option<Item>, delta: Delta): Text {
    if Restoring(prior) then OldText(prior) + delta.text else delta.text
  }

  /** The code points this update adds to the kept text, before it is known
      which bytes the byte-level code selects. */
  function Added(prior: Option<Item>, delta: Delta): seq<Scalar> {
    var fit := Fit(Scalars(Incoming(prior, delta)), Budget(prior));
    if Restoring(prior) || OldText(prior) == [] then StripBom(fit) else fit
  }

  function Kept(prior: Option<Item>): Text { if Restoring(prior) then [] else OldText(prior) }

  function Appended(prior: Option<Item>, delta: Delta): Item {
    Item(delta.key, Kept(prior) + Units(Added(prior, delta)),
         delta.overflow || Fit(Scalars(Incoming(prior, delta)), Budget(prior)) != Scalars(Incoming(prior, delta)),
         true,
         if delta.toolName.Some? then delta.toolName else if prior.Some? then prior.value.toolName else None,
         if prior.Some? then prior.value.committedHash else None,
         delta.version,
         Some(OldBytes(prior) + Size(Added(prior, delta))))
  }

  lemma PrefixOverflow(incoming: Text, remaining: nat)
    ensures var prefix := if |incoming| < remaining then incoming else incoming[..remaining];
      && Fit(Scalars(prefix), remaining) == Fit(Scalars(incoming), remaining)
      && ((|prefix| < |incoming| || Fit(Scalars(prefix), remaining) != Scalars(prefix))
          <==> Fit(Scalars(incoming), remaining) != Scalars(incoming))
  {
    if |incoming| > remaining {
      FitSliced(incoming, remaining, remaining);
      SizeAtLeastUnits(incoming);
      FitWhole(Scalars(incoming), remaining);
    } else {
      assert incoming[..|incoming|] == incoming;
    }
  }

  lemma DecodedSlice(fit: seq<Scalar>, strip: bool)
    ensures var e := Encode(fit);
      var start := if strip && |e| >= 3 && e[0] == 0xEF && e[1] == 0xBB && e[2] == 0xBF then 3 else 0;
      var added := if strip then StripBom(fit) else fit;
      && Decode(e[start..]) == Some(added)
      && |e| - start == Size(added)
  {
    var e := Encode(fit);
    LeadingBom(fit);
    assert |e| >= 3 ==> e[..3] == [e[0], e[1], e[2]];
    assert e[0..] == e;
    SizeEncode(fit);
    DecodeEncode(fit);
    if fit != [] { DecodeEncode(fit[1..]); }
  }

  /** The byte-level half of `appendOutput`: encode a slice of the incoming text,
      cut it at a complete code point, drop a leading byte order mark, decode. */
  method TakeBytes(incoming: Text, remaining: nat, strip: bool)
    returns (added: seq<Scalar>, taken: nat, cut: bool)
    ensures var fit := Fit(Scalars(incoming), remaining);
      && added == (if strip then StripBom(fit) else fit)
      && taken == Size(added)
      && (cut <==> fit != Scalars(incoming))
  {
    var prefix := if |incoming| < remaining then incoming else incoming[..remaining];
    var encoded := if remaining > 0 then Encode(Scalars(prefix)) else [];
    var end := CompletePrefix(encoded, remaining);
    ghost var fit := Fit(Scalars(incoming), remaining);
    PrefixOverflow(incoming, remaining);
    BoundaryUnique(Scalars(prefix), remaining, end);
    FitBoundary(Scalars(prefix), remaining);
    assert encoded[..end] == Encode(fit);
    var start := if strip && end >= 3 && encoded[0] == 0xEF && encoded[1] == 0xBB && encoded[2] == 0xBF then 3 else 0;
    DecodedSlice(fit, strip);
    assert end > start || encoded[start..end] == [];
    assert encoded[start..end] == encoded[..end][start..];
    var decoded := if end > start then Decode(encoded[start..end]) else Some([]);
    added, taken := decoded.value, end - start;
    cut := |prefix| < |incoming| || end < |encoded|;
  }

  method RenderItem(prior: Option<Item>, delta: Delta) returns (item: Item)
    requires OldBytes(prior) <= MAX_BYTES
    ensures item == Appended(prior, delta)
  {
    var bytes := if prior.Some? then prior.value.retained else Some(0);
    var restoring := bytes == None;
    var held := if bytes.Some? then bytes.value else 0;
    var incoming := if restoring then prior.value.text + delta.text else delta.text;
    var strip := restoring || prior.None? || prior.value.text == [];
    assert restoring == Restoring(prior) && held == OldBytes(prior) && incoming == Incoming(prior, delta);
    var added, taken, cut := TakeBytes(incoming, MAX_BYTES - held, strip);
    assert added == Added(prior, delta);
    item := Item(delta.key, (if restoring || prior.None? then [] else prior.value.text) + Units(added),
                 delta.overflow || cut, true,
                 if delta.toolName.Some? then delta.toolName else if prior.Some? then prior.value.toolName else None,
                 if prior.Some? then prior.value.committedHash else None,
                 delta.version, Some(held + taken));
  }

  method AppendOutput(outputs: Table<OutputKey, Item>, delta: Delta) returns (next: Table<OutputKey, Item>)
    requires SoundTable(outputs)
    ensures next == AppendTo(outputs, delta)
  {
    var item := RenderItem(Get(outputs, delta.key), delta);
    next := Set(outputs, delta.key, item);
    while |next| > MAX_ITEMS
      invariant Latest(next, MAX_ITEMS) == AppendTo(outputs, delta)
    {
      next := next[1..];
    }
  }

  function AppendTo(outputs: Table<OutputKey, Item>, delta: Delta): Table<OutputKey, Item> {
    Latest(Set(outputs, delta.key, Appended(Get(outputs, delta.key), delta)), MAX_ITEMS)
  }

  /** The cached count stays the encoded size of the text, within the limit. */
  lemma AppendedSound(prior: Option<Item>, delta: Delta)
    requires prior.Some? ==> Sound(prior.value)
    ensures Sound(Appended(prior, delta))
    ensures Size(Scalars(Appended(prior, delta).text)) <= MAX_BYTES
  {
    var added := Added(prior, delta);
    KeptSound(prior);
    AddedFits(prior, delta);
    var kept := Scalars(Kept(prior));
    UnitsConcat(kept, added);
    ScalarsRoundTrip(kept + added);
    SizeConcat(kept, added);
  }

  lemma KeptSound(prior: Option<Item>)
    requires prior.Some? ==> Sound(prior.value)
    ensures WellFormed(Kept(prior)) && Size(Scalars(Kept(prior))) == OldBytes(prior) <= MAX_BYTES
  {
  }

  lemma AddedFits(prior: Option<Item>, delta: Delta)
    ensures Size(Added(prior, delta)) <= Budget(prior)
  {
    FitIsLongest(Scalars(Incoming(prior, delta)), Budget(prior));
  }

  // ------------------------------------------- refinement of re-encoding

  /** What re-encoding the whole retained text with the delta would show: the
      longest prefix of complete code points within the limit, decoded by a
      decoder that drops one leading byte order mark. */
  function WholePrefix(text: Text, delta: Text): Text {
    Units(StripBom(Fit(Scalars(text + delta), MAX_BYTES)))
  }

  predicate CountedBehindBom(prior: Option<Item>) {
    prior.Some? && prior.value.retained.Some? && prior.value.text != [] && prior.value.text[0] == BOM
  }

  /** Encoding only the delta shows exactly what re-encoding everything shows,
      unless a counted text already begins with U+FEFF. */
  lemma MatchesWholePrefix(prior: Option<Item>, delta: Delta)
    requires prior.Some? ==> Sound(prior.value)
    ensures Appended(prior, delta).text == WholePrefix(OldText(prior), delta.text) <==> !CountedBehindBom(prior)
  {
    if Restoring(prior) || OldText(prior) == [] {
      assert OldText(prior) == [] ==> OldText(prior) + delta.text == delta.text;
      assert [] + Units(Added(prior, delta)) == Units(Added(prior, delta));
    } else {
      var text, bytes := prior.value.text, prior.value.retained.value;
      var fit := Fit(Scalars(delta.text), MAX_BYTES - bytes);
      ScalarsConcat(text, delta.text);
      FitConcat(Scalars(text), Scalars(delta.text), MAX_BYTES);
      UnitsConcat(Scalars(text), fit);
      assert Scalars(text)[0] == First(text);
      StripShortens(Scalars(text) + fit);
    }
  }

  lemma StripShortens(cs: seq<Scalar>)
    ensures Units(StripBom(cs)) == Units(cs) <==> !(cs != [] && cs[0] == BOM)
  {
    if cs != [] { assert |Units(cs)| == |UnitsOf(cs[0])| + |Units(cs[1..])|; }
  }

  /** Such a text occurs: two marks in the first delta leave one shown. */
  lemma BomTextOccurs(d: Delta)
    ensures var item := Appended(None, d.(text := [BOM, BOM]));
      Sound(item) && item.text == [BOM] && CountedBehindBom(Some(item))
  {
    var delta := d.(text := [BOM, BOM]);
    assert delta.text[1..] == [BOM] && [BOM][1..] == [];
    assert Scalars([BOM]) == [BOM] && Scalars(delta.text) == [BOM, BOM];
    SizeConcat([BOM], [BOM]);
    assert [BOM] + [BOM] == [BOM, BOM] && Size([BOM]) == 3;
    FitWhole([BOM, BOM], MAX_BYTES);
    assert Added(None, delta) == [BOM];
    assert Units([BOM]) == [BOM];
    AppendedSound(None, delta);
  }

  /** The overflow flag tells whether this update lost text, whatever earlier
      updates lost. */
  lemma OverflowExact(prior: Option<Item>, delta: Delta)
    requires prior.Some? ==> Sound(prior.value)
    ensures Appended(prior, delta).overflow <==>
      delta.overflow || Size(Scalars(OldText(prior) + delta.text)) > MAX_BYTES
  {
    FitWhole(Scalars(Incoming(prior, delta)), Budget(prior));
    if !Restoring(prior) {
      var text := OldText(prior);
      ScalarsConcat(text, delta.text);
      SizeConcat(Scalars(text), Scalars(delta.text));
    }
  }

  // ------------------------------------------- commits, stops, snapshots

  function Marked(item: Item, commit: Commit): Item {
    if item.key.scope == commit.scope && item.key.itemId == commit.itemId
    then item.(streaming := false, committedHash := Some(commit.hash), retained := None)
    else item
  }

  function CommitTo(outputs: Table<OutputKey, Item>, commit: Commit): (next: Table<OutputKey, Item>)
    ensures |next| == |outputs|
    ensures forall i :: 0 <= i < |next| ==> next[i] == Entry(outputs[i].key, Marked(outputs[i].value, commit))
  {
    seq(|outputs|, i requires 0 <= i < |outputs| => Entry(outputs[i].key, Marked(outputs[i].value, commit)))
  }

  method CommitOutput(outputs: Table<OutputKey, Item>, commit: Commit) returns (next: Table<OutputKey, Item>)
    ensures next == CommitTo(outputs, commit)
  {
    next := outputs;
    for i := 0 to |outputs|
      invariant |next| == |outputs|
      invariant next[..i] == CommitTo(outputs, commit)[..i] && next[i..] == outputs[i..]
    {
      var item := next[i].value;
      assert next[i] == next[i..][0];
      if item.key.scope == commit.scope && item.key.itemId == commit.itemId {
        next := next[i := Entry(next[i].key,
                                item.(streaming := false, committedHash := Some(commit.hash), retained := None))];
      }
      assert next[..i + 1] == next[..i] + [next[i]];
    }
  }

  function StopIn(outputs: Table<OutputKey, Item>, scope: Scope): (next: Table<OutputKey, Item>)
    ensures |next| == |outputs|
    ensures forall i :: 0 <= i < |next| ==>
      next[i].key == outputs[i].key && next[i].value == (if outputs[i].value.key.scope == scope
                           then outputs[i].value.(streaming := false, retained := None) else outputs[i].value)
  {
    seq(|outputs|, i requires 0 <= i < |outputs| =>
      Entry(outputs[i].key, if outputs[i].value.key.scope == scope
                            then outputs[i].value.(streaming := false, retained := None) else outputs[i].value))
  }

  function FromWire(items: seq<Item>): Table<OutputKey, Item> {
    if items == [] then []
    else var last := items[|items| - 1];
      Set(FromWire(items[..|items| - 1]), last.key, last.(retained := None))
  }

  datatype Event =
    | Arrived(delta: Delta)
    | Committed(commit: Commit)
    | Stopped(scope: Scope)
    | Removed(key: OutputKey)
    | Restored(items: seq<Item>)

  function Next(outputs: Table<OutputKey, Item>, event: Event): Table<OutputKey, Item> {
    match event
    case Arrived(delta) => AppendTo(outputs, delta)
    case Committed(commit) => CommitTo(outputs, commit)
    case Stopped(scope) => StopIn(outputs, scope)
    case Removed(key) => Delete(outputs, key)
    case Restored(items) => FromWire(items)
  }

  /** Snapshots with more than 128 previews are refused before they get here. */
  ghost predicate Admissible(event: Event) { event.Restored? ==> |event.items| <= MAX_ITEMS }

  function Run(events: seq<Event>): Table<OutputKey, Item> {
    if events == [] then [] else Next(Run(events[..|events| - 1]), events[|events| - 1])
  }

  lemma SetSound(outputs: Table<OutputKey, Item>, item: Item)
    requires SoundTable(outputs) && Sound(item)
    ensures SoundTable(Latest(Set(outputs, item.key, item), MAX_ITEMS))
  {
    SetDistinct(outputs, item.key, item);
    var t := Set(outputs, item.key, item);
    assert forall i :: 0 <= i < |t| ==> Sound(t[i].value) && t[i].value.key == t[i].key;
  }

  lemma {:induction false} FromWireSound(items: seq<Item>)
    requires |items| <= MAX_ITEMS
    ensures SoundTable(FromWire(items)) && |FromWire(items)| <= |items|
  {
    if items != [] {
      FromWireSound(items[..|items| - 1]);
      SetSound(FromWire(items[..|items| - 1]), items[|items| - 1].(retained := None));
    }
  }

  lemma DeleteSound(outputs: Table<OutputKey, Item>, key: OutputKey)
    requires SoundTable(outputs)
    ensures SoundTable(Delete(outputs, key))
  {
    DeleteDistinct(outputs, key);
    var t := Delete(outputs, key);
    assert forall i :: 0 <= i < |t| ==> Sound(t[i].value) && t[i].value.key == t[i].key;
  }

  lemma NextSound(outputs: Table<OutputKey, Item>, event: Event)
    requires SoundTable(outputs) && Admissible(event)
    ensures SoundTable(Next(outputs, event))
  {
    match event
    case Arrived(delta) =>
      AppendedSound(Get(outputs, delta.key), delta);
      SetSound(outputs, Appended(Get(outputs, delta.key), delta));
    case Committed(commit) =>
    case Stopped(scope) =>
    case Removed(key) => DeleteSound(outputs, key);
    case Restored(items) => FromWireSound(items);
  }

  /** In every run of deltas, commits, stops, removals and snapshots each cached
      count is the exact encoded size of its text, at most 64 KiB, and at most
      128 previews are held. */
  lemma {:induction false} RunSound(events: seq<Event>)
    requires forall i :: 0 <= i < |events| ==> Admissible(events[i])
    ensures SoundTable(Run(events))
  {
    if events != [] {
      RunSound(events[..|events| - 1]);
      NextSound(Run(events[..|events| - 1]), events[|events| - 1]);
    }
  }

  // ------------------------------------------------------------ setRevision

  datatype Revision = Revision(scope: Scope, version: string)

  method SetRevision(revisions: Table<Scope, Revision>, revision: Revision) returns (next: Table<Scope, Revision>)
    ensures next == Touch(revisions, revision.scope, revision, MAX_ITEMS)
  {
    next := Set(Delete(revisions, revision.scope), revision.scope, revision);
    while |next| > MAX_ITEMS
      invariant Latest(next, MAX_ITEMS) == Touch(revisions, revision.scope, revision, MAX_ITEMS)
    {
      next := next[1..];
    }
  }
}
