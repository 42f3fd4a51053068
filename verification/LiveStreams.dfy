/** Whole streams of deltas into one preview (web/src/live-output.ts). */
module LiveStreams {
  import opened JsMap
  import opened Utf8
  import opened LiveOutput

  // ------------------------------------------------------- whole streams

  function Stream(deltas: seq<Delta>): Option<Item> {
    if deltas == [] then None
    else Some(Appended(Stream(deltas[..|deltas| - 1]), deltas[|deltas| - 1]))
  }

  function Concatenated(deltas: seq<Delta>): seq<Scalar> {
    if deltas == [] then []
    else Concatenated(deltas[..|deltas| - 1]) + Scalars(deltas[|deltas| - 1].text)
  }

  lemma {:induction false} StreamSound(deltas: seq<Delta>)
    ensures Stream(deltas).Some? ==> Sound(Stream(deltas).value) && Stream(deltas).value.retained.Some?
  {
    if deltas != [] {
      StreamSound(deltas[..|deltas| - 1]);
      AppendedSound(Stream(deltas[..|deltas| - 1]), deltas[|deltas| - 1]);
    }
  }

  /** The code points shown. */
  function Shown(deltas: seq<Delta>): seq<Scalar> { Scalars(OldText(Stream(deltas))) }

  /** A byte order mark at the start of the stream; elsewhere it is content. */
  predicate LeadingMark(cs: seq<Scalar>) { cs != [] && cs[0] == BOM }

  /** One more delta shows what it adds after what was shown. */
  lemma ShownNext(deltas: seq<Delta>)
    requires deltas != []
    ensures var init, last := deltas[..|deltas| - 1], deltas[|deltas| - 1];
      && Shown(deltas) == Shown(init) + Added(Stream(init), last)
      && OldBytes(Stream(init)) == Size(Shown(init)) <= MAX_BYTES && !Restoring(Stream(init))
      && OldText(Stream(init)) == Units(Shown(init))
  {
    var init, last := deltas[..|deltas| - 1], deltas[|deltas| - 1];
    StreamSound(init);
    var prior := Stream(init);
    KeptSound(prior);
    UnitsConcat(Shown(init), Added(prior, last));
    ScalarsRoundTrip(Shown(init) + Added(prior, last));
  }

  lemma TextIsShown(deltas: seq<Delta>)
    ensures OldText(Stream(deltas)) == Units(Shown(deltas))
  {
    StreamSound(deltas);
  }

  /** Nothing is invented, and a leading mark is always lost. */
  lemma {:induction false} ShownCount(deltas: seq<Delta>)
    ensures |Shown(deltas)| <= |Concatenated(deltas)|
    ensures LeadingMark(Concatenated(deltas)) ==> |Shown(deltas)| < |Concatenated(deltas)|
  {
    if deltas != [] {
      var init, last := deltas[..|deltas| - 1], deltas[|deltas| - 1];
      ShownCount(init);
      ShownNext(deltas);
      var more := Scalars(last.text);
      FitIsLongest(more, Budget(Stream(init)));
      if Concatenated(init) == [] && LeadingMark(more) {
        TextIsShown(init);
      }
    }
  }

  /** What fits of the next delta behind what is shown. */
  function Fitting(shown: seq<Scalar>, next: Delta): seq<Scalar>
    requires Size(shown) <= MAX_BYTES
  {
    Fit(Scalars(next.text), MAX_BYTES - Size(shown))
  }

  /** Without a mark at the start of the whole stream each delta adds what fits of
      it, marks at its own start included. */
  lemma AddedPlain(deltas: seq<Delta>)
    requires deltas != [] && !LeadingMark(Concatenated(deltas))
    requires OldText(Stream(deltas[..|deltas| - 1])) == [] ==> Concatenated(deltas[..|deltas| - 1]) == []
    ensures var init, last := deltas[..|deltas| - 1], deltas[|deltas| - 1];
      && Size(Shown(init)) <= MAX_BYTES && Added(Stream(init), last) == Fitting(Shown(init), last)
      && Stream(deltas).value.overflow == (last.overflow || Fitting(Shown(init), last) != Scalars(last.text))
  {
    var init, more := deltas[..|deltas| - 1], Scalars(deltas[|deltas| - 1].text);
    ShownNext(deltas);
    if OldText(Stream(init)) == [] {
      assert Concatenated(deltas) == more;
      FitIsLongest(more, MAX_BYTES);
    }
  }

  /** One delta further, in code points. */
  lemma StreamNext(deltas: seq<Delta>)
    requires deltas != [] && !LeadingMark(Concatenated(deltas))
    requires Shown(deltas[..|deltas| - 1]) == [] ==> Concatenated(deltas[..|deltas| - 1]) == []
    ensures var init, last := deltas[..|deltas| - 1], deltas[|deltas| - 1];
      && Concatenated(deltas) == Concatenated(init) + Scalars(last.text) && !LeadingMark(Concatenated(init))
      && Size(Shown(init)) <= MAX_BYTES && Shown(deltas) == Shown(init) + Fitting(Shown(init), last)
      && Stream(deltas).value.overflow == (last.overflow || Fitting(Shown(init), last) != Scalars(last.text))
  {
    TextIsShown(deltas[..|deltas| - 1]);
    ShownNext(deltas);
    AddedPlain(deltas);
    hide Shown, Added, Fitting;
  }

  lemma WholeStep(all: seq<Scalar>, next: Delta)
    requires Size(all + Scalars(next.text)) <= MAX_BYTES
    ensures Size(all) <= MAX_BYTES && Fitting(all, next) == Scalars(next.text)
  {
    SizeConcat(all, Scalars(next.text));
    FitWhole(Scalars(next.text), MAX_BYTES - Size(all));
  }

  lemma {:induction false} StreamWhole(deltas: seq<Delta>)
    requires !LeadingMark(Concatenated(deltas)) && Size(Concatenated(deltas)) <= MAX_BYTES
    ensures Shown(deltas) == Concatenated(deltas)
    ensures deltas != [] ==> Stream(deltas).value.overflow == deltas[|deltas| - 1].overflow
  {
    if deltas != [] {
      var init, last := deltas[..|deltas| - 1], deltas[|deltas| - 1];
      WholeStep(Concatenated(init), last);
      hide Fitting, Shown;
      StreamWhole(init);
      StreamNext(deltas);
    }
  }

  /** A stream that fits is shown whole exactly if it does not begin with a byte
      order mark, and then no update of it reports overflow. */
  lemma StreamLossless(deltas: seq<Delta>)
    requires Size(Concatenated(deltas)) <= MAX_BYTES
    ensures OldText(Stream(deltas)) == Units(Concatenated(deltas)) <==> !LeadingMark(Concatenated(deltas))
    ensures deltas != [] && !LeadingMark(Concatenated(deltas)) ==>
      Stream(deltas).value.overflow == deltas[|deltas| - 1].overflow
  {
    if LeadingMark(Concatenated(deltas)) {
      ShownCount(deltas);
      ScalarsRoundTrip(Concatenated(deltas));
    } else {
      StreamWhole(deltas);
      TextIsShown(deltas);
    }
  }

  function TextOf(deltas: seq<Delta>): Text {
    if deltas == [] then [] else TextOf(deltas[..|deltas| - 1]) + deltas[|deltas| - 1].text
  }

  lemma {:induction false} UnitsOfConcatenated(deltas: seq<Delta>)
    requires forall i :: 0 <= i < |deltas| ==> WellFormed(deltas[i].text)
    ensures Units(Concatenated(deltas)) == TextOf(deltas)
  {
    if deltas != [] {
      var init, last := deltas[..|deltas| - 1], deltas[|deltas| - 1];
      UnitsOfConcatenated(init);
      UnitsConcat(Concatenated(init), Scalars(last.text));
    }
  }

  /** If no delta ends or begins inside a surrogate pair, the preview of a stream
      that fits and does not begin with a mark is the plain text of its deltas. */
  lemma StreamIsText(deltas: seq<Delta>)
    requires forall i :: 0 <= i < |deltas| ==> WellFormed(deltas[i].text)
    requires !LeadingMark(Concatenated(deltas)) && Size(Concatenated(deltas)) <= MAX_BYTES
    ensures OldText(Stream(deltas)) == TextOf(deltas)
  {
    StreamLossless(deltas);
    UnitsOfConcatenated(deltas);
  }

  // -------------------------------------------- streams that do not fit

  /** A delta that cannot add anything: it is empty or its first code point is too
      wide for what is left. */
  predicate AddsNothing(delta: Delta, left: int) { delta.text == [] || Width(First(delta.text)) > left }

  /** Exactly when an update leaves a counted preview's text as it was. */
  lemma UnchangedExact(prior: Item, d: Delta)
    requires Sound(prior) && prior.retained.Some? && prior.text != []
    ensures Appended(Some(prior), d).text == prior.text <==> AddsNothing(d, MAX_BYTES - prior.retained.value)
  {
    var added := Added(Some(prior), d);
    assert |Appended(Some(prior), d).text| == |prior.text| + |Units(added)|;
    assert added == [] <==> Units(added) == [];
    assert prior.text + [] == prior.text;
  }

  function AppendedAll(prior: Item, deltas: seq<Delta>): Item {
    if deltas == [] then prior else Appended(Some(AppendedAll(prior, deltas[..|deltas| - 1])), deltas[|deltas| - 1])
  }

  lemma {:induction false} TextOnlyGrows(prior: Item, deltas: seq<Delta>)
    requires Sound(prior) && prior.retained.Some? && prior.text != []
    ensures var now := AppendedAll(prior, deltas); Sound(now) && now.retained.Some? && prior.text <= now.text
  {
    if deltas != [] {
      var init, last := deltas[..|deltas| - 1], deltas[|deltas| - 1];
      TextOnlyGrows(prior, init);
      AppendedSound(Some(AppendedAll(prior, init)), last);
    }
  }

  lemma LastUnchanged(prior: Item, deltas: seq<Delta>)
    requires Sound(prior) && prior.retained.Some? && prior.text != [] && deltas != []
    ensures var init, last := deltas[..|deltas| - 1], deltas[|deltas| - 1];
      AppendedAll(prior, deltas).text == prior.text <==>
        AppendedAll(prior, init).text == prior.text && AddsNothing(last, MAX_BYTES - prior.retained.value)
  {
    var init, last := deltas[..|deltas| - 1], deltas[|deltas| - 1];
    TextOnlyGrows(prior, init);
    var now := AppendedAll(prior, init);
    TextOnlyGrows(now, [last]);
    assert [last][..0] == [] && AppendedAll(now, []) == now;
    UnchangedExact(now, last);
    hide Appended, Size, Scalars, First;
    assert AppendedAll(now, [last]) == Appended(Some(now), last) == AppendedAll(prior, deltas);
    assert now.text == prior.text ==> now.retained == prior.retained;
  }

  predicate NoneAdds(deltas: seq<Delta>, left: int) { forall i :: 0 <= i < |deltas| ==> AddsNothing(deltas[i], left) }

  lemma NoneAddsLast(deltas: seq<Delta>, left: int)
    requires deltas != []
    ensures NoneAdds(deltas, left) <==>
      NoneAdds(deltas[..|deltas| - 1], left) && AddsNothing(deltas[|deltas| - 1], left)
  {
    hide AddsNothing;
  }

  /** Exactly when no later delta changes a counted preview's text: none of them
      can add anything to what is left. */
  lemma {:induction false} StaysExact(prior: Item, deltas: seq<Delta>)
    requires Sound(prior) && prior.retained.Some? && prior.text != []
    ensures AppendedAll(prior, deltas).text == prior.text <==> NoneAdds(deltas, MAX_BYTES - prior.retained.value)
  {
    if deltas != [] {
      hide Sound, AddsNothing, Appended, NoneAdds;
      StaysExact(prior, deltas[..|deltas| - 1]);
      LastUnchanged(prior, deltas);
      NoneAddsLast(deltas, MAX_BYTES - prior.retained.value);
    }
  }

  /** If text has been lost, the next delta adds none. */
  predicate GapKept(shown: seq<Scalar>, all: seq<Scalar>, next: Delta) {
    shown != all ==> AddsNothing(next, MAX_BYTES - Size(shown))
  }

  /** Once text has been lost, no later delta adds any. */
  predicate GapNeverFilled(deltas: seq<Delta>) {
    deltas == [] ||
    (var init := deltas[..|deltas| - 1];
     GapNeverFilled(init) && GapKept(Shown(init), Concatenated(init), deltas[|deltas| - 1]))
  }

  /** The shown text is what was streamed, or a prefix of it whose next code point
      is too wide. */
  ghost predicate Stuck(shown: seq<Scalar>, all: seq<Scalar>) {
    shown <= all && (|shown| < |all| ==> Width(all[|shown|]) > MAX_BYTES - Size(shown))
  }

  lemma WholeNext(all: seq<Scalar>, more: seq<Scalar>)
    requires Size(all) <= MAX_BYTES
    ensures Stuck(all + Fit(more, MAX_BYTES - Size(all)), all + more)
  {
    var added := Fit(more, MAX_BYTES - Size(all));
    FitIsLongest(more, MAX_BYTES - Size(all));
    SizeConcat(all, added);
    hide Fit, Size, Width;
    assert all + more == (all + added) + more[|added|..];
  }

  /** What fits behind a gap is narrower than what did not. */
  lemma GapNext(shown: seq<Scalar>, all: seq<Scalar>, more: seq<Scalar>)
    requires Size(shown) <= MAX_BYTES && Stuck(shown, all) && shown != all
    ensures var added := Fit(more, MAX_BYTES - Size(shown));
      && (added == [] ==> Stuck(shown + added, all + more))
      && (added != [] ==> !(shown + added <= all + more))
  {
    var added := Fit(more, MAX_BYTES - Size(shown));
    if added == [] {
      hide Fit, Size, Width;
      assert shown + added == shown && shown <= all + more && (all + more)[|shown|] == all[|shown|];
    } else {
      assert added[0] == more[0] && Width(more[0]) <= MAX_BYTES - Size(shown);
      hide Fit, Size, Width;
      assert (shown + added)[|shown|] == added[0] && (all + more)[|shown|] == all[|shown|];
    }
  }

  lemma PrefixBack(shown: seq<Scalar>, added: seq<Scalar>, all: seq<Scalar>, more: seq<Scalar>)
    requires |shown| <= |all|
    ensures shown + added <= all + more ==> shown <= all
  {
    var long, whole := shown + added, all + more;
    assert shown == long[..|shown|] && all[..|shown|] == whole[..|shown|];
  }

  lemma AddsNothingExact(delta: Delta, left: nat)
    ensures AddsNothing(delta, left) <==> Fit(Scalars(delta.text), left) == []
  {
  }

  /** The step on code points alone. */
  lemma PrefixStep(shown: seq<Scalar>, all: seq<Scalar>, more: seq<Scalar>, kept: bool)
    requires Size(shown) <= MAX_BYTES && |shown| <= |all|
    requires (shown <= all <==> kept) && (kept ==> Stuck(shown, all))
    ensures var added := Fit(more, MAX_BYTES - Size(shown));
      && (shown + added <= all + more <==> kept && (shown != all ==> added == []))
      && (shown + added <= all + more ==> Stuck(shown + added, all + more))
  {
    hide Fit, Size, Width;
    if kept && shown == all { WholeNext(all, more); }
    if kept && shown != all { GapNext(shown, all, more); }
    PrefixBack(shown, Fit(more, MAX_BYTES - Size(shown)), all, more);
  }

  /** What holds of a stream and of its prefix streams. */
  ghost predicate Claim(shown: seq<Scalar>, all: seq<Scalar>, kept: bool) {
    && |shown| <= |all| && Size(shown) <= MAX_BYTES
    && (shown <= all <==> kept) && (kept ==> Stuck(shown, all)) && (shown == [] ==> all == [])
  }

  lemma ClaimStep(shown: seq<Scalar>, all: seq<Scalar>, kept: bool, next: Delta, now: seq<Scalar>, whole: seq<Scalar>,
                  still: bool)
    requires Claim(shown, all, kept)
    requires now == shown + Fitting(shown, next) && whole == all + Scalars(next.text)
    requires still == (kept && GapKept(shown, all, next))
    ensures Claim(now, whole, still)
  {
    var more, left := Scalars(next.text), MAX_BYTES - Size(shown);
    PrefixStep(shown, all, more, kept);
    AddsNothingExact(next, left);
    if shown == [] { FirstShown(more); }
    FitIsLongest(more, left);
    SizeConcat(shown, Fit(more, left));
    hide Fit, Size, Stuck, Scalars, AddsNothing, Width;
    assert |now| <= |whole| && Size(now) <= MAX_BYTES;
    assert now <= whole <==> still;
    assert now == [] ==> whole == [];
  }

  lemma ClaimStart()
    ensures Claim([], [], true)
  {
  }

  lemma UnfoldLast(deltas: seq<Delta>)
    requires deltas != []
    ensures var init, last := deltas[..|deltas| - 1], deltas[|deltas| - 1];
      && (LeadingMark(Concatenated(init)) ==> LeadingMark(Concatenated(deltas)))
      && GapNeverFilled(deltas) == (GapNeverFilled(init) && GapKept(Shown(init), Concatenated(init), last))
  {
    hide Shown, GapKept, Scalars;
  }

  lemma {:induction false} PrefixAndStuck(deltas: seq<Delta>)
    requires !LeadingMark(Concatenated(deltas))
    ensures Claim(Shown(deltas), Concatenated(deltas), GapNeverFilled(deltas))
  {
    if deltas == [] {
      hide Claim;
      ClaimStart();
    } else {
      hide *;
      var init, last := deltas[..|deltas| - 1], deltas[|deltas| - 1];
      UnfoldLast(deltas);
      PrefixAndStuck(init);
      ClaimEmpty(Shown(init), Concatenated(init), GapNeverFilled(init));
      StreamNext(deltas);
      ClaimStep(Shown(init), Concatenated(init), GapNeverFilled(init), last, Shown(deltas), Concatenated(deltas),
                GapNeverFilled(deltas));
    }
  }

  lemma ClaimEmpty(shown: seq<Scalar>, all: seq<Scalar>, kept: bool)
    requires Claim(shown, all, kept)
    ensures (shown == [] ==> all == []) && (shown <= all <==> kept)
  {
  }

  lemma FirstShown(more: seq<Scalar>)
    ensures Fit(more, MAX_BYTES - Size([])) == [] ==> more == []
  {
  }

  /** Exactly when a preview shows a prefix of what was streamed: when, once text
      has been lost, no later delta can add any. */
  lemma PrefixExact(deltas: seq<Delta>)
    requires !LeadingMark(Concatenated(deltas))
    ensures Shown(deltas) <= Concatenated(deltas) <==> GapNeverFilled(deltas)
  {
    PrefixAndStuck(deltas);
    ClaimEmpty(Shown(deltas), Concatenated(deltas), GapNeverFilled(deltas));
  }

  function Repeat(c: Scalar, n: nat): seq<Scalar> { seq(n, _ => c) }

  lemma {:induction false} RepeatSize(c: Scalar, n: nat)
    ensures Size(Repeat(c, n)) == n * Width(c)
  {
    if n > 0 {
      assert Repeat(c, n)[1..] == Repeat(c, n - 1);
      RepeatSize(c, n - 1);
    }
  }

  /** A stream that does not fit need not show a prefix of itself: one byte short
      of the limit, a two-byte code point is dropped and a later letter is kept. */
  lemma LaterDeltaCanFillGap(prior: Item, d: Delta)
    requires Sound(prior) && prior.retained == Some(65535) && prior.text != []
    ensures var skipped := Appended(Some(prior), d.(text := [0xE9]));
      Appended(Some(skipped), d.(text := [0x62])).text == prior.text + [0x62]
  {
    var e, b := d.(text := [0xE9]), d.(text := [0x62]);
    assert Scalars([0xE9]) == [0xE9] && Scalars([0x62]) == [0x62];
    assert Added(Some(prior), e) == [];
    var skipped := Appended(Some(prior), e);
    assert skipped.text == prior.text + [] == prior.text && skipped.retained == Some(65535);
    assert Added(Some(skipped), b) == [0x62];
    assert Units([0x62]) == [0x62];
  }

  /** Previews of every size up to the limit occur. */
  lemma EverySizeOccurs(d: Delta, n: nat)
    requires 0 < n <= MAX_BYTES
    ensures var item := Appended(None, d.(text := Units(Repeat(0x61, n))));
      Sound(item) && item.retained == Some(n) && item.text != []
  {
    var body := Repeat(0x61, n);
    var delta := d.(text := Units(body));
    RepeatSize(0x61, n);
    ScalarsRoundTrip(body);
    FitWhole(body, MAX_BYTES);
    assert Added(None, delta) == body;
    AppendedSound(None, delta);
  }
}
