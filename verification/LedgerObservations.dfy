/** Over a run of reports that tell one story, an inclusion that is reported is
    recorded, and then nothing is looked up any more (web/src/pending-commands.ts). */
module LedgerObservations {
  import opened JsMap
  import opened OperationId
  import opened HostCommands
  import opened Ledger
  import opened LedgerRuns
  import opened LedgerEvidence

  /** What a report says of an admission is part of one story: the envelope, which a
      status that reports the admission names, and the outcome of the receipts. */
  predicate Tells(e: Event, envelope: string, story: Outcome)
    requires !e.Observed?
  {
    && Given(EvidenceEnvelope(e), Some(envelope))
    && (e.StatusReply? && e.status.state.InputAdmitted? ==> e.status.envelopeId.Some?)
    && (EvidenceReceipt(e).Some? && EvidenceReceipt(e).value.outcome.AdmittedOutcome? ==>
         PartOf(EvidenceReceipt(e).value.outcome, story))
  }

  ghost predicate OneStory(r: Record, events: seq<Event>, envelope: string, story: Outcome) {
    Coherent(r, events) && story.AdmittedOutcome? && forall e :: e in events ==>
      !e.Observed? && Tells(e, envelope, story)
  }

  /** A status that reports an inclusion. */
  predicate Including(e: Event) { e.StatusReply? && Observing(e.status) && e.status.inputObservation.value.Included? }

  predicate AnyIncluding(events: seq<Event>) { exists i :: 0 <= i < |events| && Including(events[i]) }

  /** What the record keeps of the story. */
  ghost predicate Keeps(now: Record, envelope: string, story: Outcome) {
    && Given(now.envelopeId, Some(envelope))
    && (now.receipt.Some? ==> ReceiptMatches(now, now.receipt.value))
    && (now.receipt.Some? && now.receipt.value.outcome.AdmittedOutcome? ==> PartOf(now.receipt.value.outcome, story))
    && (IsSettled(now) && now.state.InputAdmitted? && now.envelopeId.None? ==>
         now.receipt.Some? && now.receipt.value.outcome.AdmittedOutcome?)
  }

  lemma Unresisted(now: Record, s: Status, envelope: string, story: Outcome)
    requires Keeps(now, envelope, story) && Observing(s) && s.envelopeId == Some(envelope) && story.AdmittedOutcome?
    requires s.receipt.Some? ==> ReceiptState(s.receipt.value).InputAdmitted? && PartOf(s.receipt.value.outcome, story)
    requires IsSettled(now) ==> now.state.InputAdmitted? && now.envelopeId.None?
    requires !IsSettled(now) && now.receipt.Some? ==> !now.receipt.value.outcome.AdmittedOutcome?
    ensures Unopposed(now, s.state, s.receipt, s.envelopeId)
  {
    hide ReceiptMatches;
    if now.receipt.Some? && s.receipt.Some? && now.receipt.value.outcome.AdmittedOutcome? {
      assert PartOf(now.receipt.value.outcome, story) && PartOf(s.receipt.value.outcome, story);
    }
  }

  lemma CombinedMatches(now: Record, receipt: Receipt, story: Outcome)
    requires ReceiptMatches(now, receipt) && (now.receipt.Some? ==> ReceiptMatches(now, now.receipt.value))
    requires story.AdmittedOutcome?
    requires receipt.outcome.AdmittedOutcome? ==> PartOf(receipt.outcome, story)
    requires now.receipt.Some? && now.receipt.value.outcome.AdmittedOutcome? ==>
      PartOf(now.receipt.value.outcome, story)
    ensures var c := Combined(now.receipt, Some(receipt));
      && c.Some? && ReceiptMatches(now, c.value) && SameOutcomeKind(c.value.outcome, receipt.outcome)
      && (c.value.outcome.AdmittedOutcome? ==> PartOf(c.value.outcome, story))
  {
    hide IsOperationId, Canonical;
  }

  /** Any sensible report of the story leaves a record that keeps to it. */
  lemma MergedKeeps(now: Record, m: Record, state: State, authority: Authority, receipt: Option<Receipt>,
                    envelopeId: Option<string>, envelope: string, story: Outcome)
    requires Keeps(now, envelope, story) && Sensible(now, state, receipt) && story.AdmittedOutcome?
    requires Given(envelopeId, Some(envelope)) && (authority.ByStatus? || authority.ByReceipt?)
    requires receipt.Some? && receipt.value.outcome.AdmittedOutcome? ==> PartOf(receipt.value.outcome, story)
    requires state.InputAdmitted? ==> envelopeId.Some? || receipt.Some?
    requires m == MergeEvidence(now, state, authority, receipt, envelopeId)
    ensures Keeps(m, envelope, story)
  {
    hide Judge, Issue, ActionAllows;
    if receipt.Some? { CombinedMatches(now, receipt.value, story); }
    match Judge(now, state, receipt, envelopeId)
    case Ignore =>
    case Complain(message) => IssueSame(now, message); KeepsSame(now, m, envelope, story);
    case Accept =>
      hide Combined;
      if m.receipt.Some? { SameMatching(now, m, m.receipt.value); }
  }

  lemma IssueSame(r: Record, message: string)
    ensures Issue(r, message).(issues := r.issues) == r
  {
  }

  lemma SameMatching(a: Record, b: Record, receipt: Receipt)
    requires a.submission == b.submission
    ensures ReceiptMatches(a, receipt) == ReceiptMatches(b, receipt)
  {
  }

  lemma KeepsSame(a: Record, b: Record, envelope: string, story: Outcome)
    requires Keeps(a, envelope, story) && b.(inputObservation := a.inputObservation, issues := a.issues) == a
    ensures Keeps(b, envelope, story)
  {
    if b.receipt.Some? { SameMatching(a, b, b.receipt.value); }
    hide ReceiptMatches;
  }

  // ------------------------------------------------------------------ runs

  /** Where the record stands in the middle of the story. */
  ghost predicate Midway(r: Record, now: Record, events: seq<Event>, envelope: string, story: Outcome)
    requires forall e :: e in events ==> !e.Observed?
  {
    && StandsAt(r, now, events) && Keeps(now, envelope, story)
    && (HasInclusion(now) <==> AnyIncluding(events))
  }

  lemma StoryPrefix(r: Record, init: seq<Event>, last: Event, envelope: string, story: Outcome)
    requires OneStory(r, init + [last], envelope, story)
    ensures OneStory(r, init, envelope, story) && !last.Observed? && Tells(last, envelope, story) && Fits(r, last)
  {
    hide Fits;
    CoherentPrefix(r, init, last);
    assert last in init + [last] && forall e :: e in init ==> e in init + [last];
  }

  lemma NextKeepsStory(r: Record, now: Record, e: Event, envelope: string, story: Outcome)
    requires Keeps(now, envelope, story) && story.AdmittedOutcome? && !e.Observed? && Tells(e, envelope, story)
    requires Fits(r, e) && now.hostRun == r.hostRun && now.submission == r.submission
    ensures Keeps(Apply(now, e), envelope, story)
  {
    FitsNow(r, now, e);
    StatusTail(now, e);
    var authority := if e.StatusReply? then ByStatus else ByReceipt;
    var m := MergeEvidence(now, EvidenceState(e), authority, EvidenceReceipt(e), EvidenceEnvelope(e));
    hide Keeps, MergeEvidence, Apply, ReceiptMatches, ActionAllows, Fits;
    MergedKeeps(now, m, EvidenceState(e), authority, EvidenceReceipt(e), EvidenceEnvelope(e), envelope, story);
    KeepsSame(m, Apply(now, e), envelope, story);
  }

  /** No observation without a report of one. */
  lemma ObservedOnly(now: Record, e: Event)
    requires !e.Observed? && !HasInclusion(now) && HasInclusion(Apply(now, e))
    ensures Including(e) || (e.StatusReply? && e.status.envelopeId.None?)
  {
    hide Judge, Combined, ReceiptMatches;
  }

  lemma IncludingNext(events: seq<Event>, e: Event)
    ensures AnyIncluding(events + [e]) <==> AnyIncluding(events) || Including(e)
  {
    var all := events + [e];
    if AnyIncluding(events) {
      var i :| 0 <= i < |events| && Including(events[i]);
      assert all[i] == events[i];
    }
    assert all[|events|] == e;
  }

  lemma StandsAdmitted(r: Record, now: Record, events: seq<Event>, e: Event)
    requires Fresh(r) && Coherent(r, events + [e]) && (forall x :: x in events ==> !x.Observed?)
    requires StandsAt(r, now, events) && !e.Observed? && EvidenceState(e).InputAdmitted?
    ensures now.hostRun == r.hostRun && now.submission == r.submission && (IsSettled(now) ==> now.state.InputAdmitted?)
    ensures !IsSettled(now) && now.receipt.Some? ==> !now.receipt.value.outcome.AdmittedOutcome?
  {
    hide Fits;
    if events != [] && IsSettled(now) {
      var best := StrongestFound(events);
      assert best in events + [e] && e in events + [e] && Agree(best, e);
    }
  }

  /** The first inclusion that is reported is recorded. */
  lemma InclusionStep(r: Record, now: Record, events: seq<Event>, e: Event, envelope: string, story: Outcome)
    requires Fresh(r) && OneStory(r, events + [e], envelope, story) && (forall x :: x in events ==> !x.Observed?)
    requires StandsAt(r, now, events) && Keeps(now, envelope, story) && !HasInclusion(now) && Including(e)
    ensures Apply(now, e).inputObservation == e.status.inputObservation
  {
    StoryPrefix(r, events, e, envelope, story);
    StandsAdmitted(r, now, events, e);
    FitsNow(r, now, e);
    var s := e.status;
    hide Apply, Fits, StandsAt, Coherent, Strongest, ReceiptMatches, ActionAllows;
    if !now.state.InputAdmitted? || now.envelopeId != s.envelopeId { Unresisted(now, s, envelope, story); }
    hide Unopposed;
    ObservationExact(now, e.hostRun, s);
  }

  /** Whether an inclusion is recorded after one more report. */
  lemma InclusionNext(r: Record, now: Record, events: seq<Event>, e: Event, envelope: string, story: Outcome)
    requires Fresh(r) && OneStory(r, events + [e], envelope, story) && (forall x :: x in events ==> !x.Observed?)
    requires StandsAt(r, now, events) && Keeps(now, envelope, story)
    ensures HasInclusion(Apply(now, e)) <==> HasInclusion(now) || Including(e)
  {
    StoryPrefix(r, events, e, envelope, story);
    if HasInclusion(now) {
      ApplyAdvances(now, e);
      assert IncludedIn(now, now.inputObservation.value.request);
    } else if Including(e) {
      InclusionStep(r, now, events, e, envelope, story);
    } else if HasInclusion(Apply(now, e)) {
      ObservedOnly(now, e);
    }
    hide Apply, OneStory, StandsAt, Keeps, Fits;
  }

  lemma MidwayStep(r: Record, now: Record, events: seq<Event>, e: Event, envelope: string, story: Outcome)
    requires Fresh(r) && OneStory(r, events + [e], envelope, story) && (forall x :: x in events ==> !x.Observed?)
    requires Midway(r, now, events, envelope, story) && !e.Observed?
    requires StandsAt(r, Apply(now, e), events + [e])
    ensures Midway(r, Apply(now, e), events + [e], envelope, story)
  {
    StoryPrefix(r, events, e, envelope, story);
    StandsWhere(r, now, events);
    hide Apply, Fits, StandsAt, Keeps, OneStory, HasInclusion, Including, AnyIncluding;
    NextKeepsStory(r, now, e, envelope, story);
    InclusionNext(r, now, events, e, envelope, story);
    IncludingNext(events, e);
  }

  lemma {:induction false} RunMidway(r: Record, events: seq<Event>, envelope: string, story: Outcome)
    requires Fresh(r) && r.inputObservation.None? && OneStory(r, events, envelope, story)
    ensures Midway(r, ApplyRun(r, events), events, envelope, story)
  {
    RunConverges(r, events);
    if events != [] {
      var init, last := events[..|events| - 1], events[|events| - 1];
      assert init + [last] == events;
      StoryPrefix(r, init, last, envelope, story);
      RunMidway(r, init, envelope, story);
      hide Apply, Fits, Midway, StandsAt, Coherent;
      MidwayStep(r, ApplyRun(r, init), init, last, envelope, story);
    }
  }

  lemma StandsWhere(r: Record, now: Record, events: seq<Event>)
    requires (forall e :: e in events ==> !e.Observed?) && StandsAt(r, now, events)
    ensures now.hostRun == r.hostRun && now.submission == r.submission
  {
  }

  lemma {:induction false} RunInTwo(r: Record, a: seq<Event>, b: seq<Event>)
    ensures ApplyRun(r, a + b) == ApplyRun(ApplyRun(r, a), b)
  {
    if b == [] {
      assert a + b == a;
    } else {
      var init, last := b[..|b| - 1], b[|b| - 1];
      assert (a + b)[..|a + b| - 1] == a + init && (a + b)[|a + b| - 1] == last;
      RunInTwo(r, a, init);
    }
  }

  lemma {:induction false} StoryBegins(r: Record, a: seq<Event>, b: seq<Event>, envelope: string, story: Outcome)
    requires OneStory(r, a + b, envelope, story)
    ensures OneStory(r, a, envelope, story)
  {
    if b == [] {
      assert a + b == a;
    } else {
      assert a + b == (a + b[..|b| - 1]) + [b[|b| - 1]];
      StoryPrefix(r, a + b[..|b| - 1], b[|b| - 1], envelope, story);
      StoryBegins(r, a, b[..|b| - 1], envelope, story);
    }
  }

  /** A record that one story has been told about is looked up exactly as long as
      nothing, or no more than queueing and dispatching, or an admission without its
      inclusion has been reported, in whatever order. */
  lemma LookupExact(r: Record, events: seq<Event>, envelope: string, story: Outcome)
    requires Fresh(r) && r.inputObservation.None? && OneStory(r, events, envelope, story)
    ensures NeedsLookup(ApplyRun(r, events)) <==>
      || events == []
      || Strongest(events).Queued? || Strongest(events).Dispatching?
      || (Strongest(events).InputAdmitted? && !AnyIncluding(events))
  {
    RunMidway(r, events, envelope, story);
    hide Coherent, Keeps, ApplyRun, Strongest;
  }

  lemma AdmittedStrongest(r: Record, events: seq<Event>, e: Event)
    requires Coherent(r, events) && e in events && (forall x :: x in events ==> !x.Observed?)
    requires EvidenceState(e).InputAdmitted?
    ensures Strongest(events).InputAdmitted?
  {
    hide Fits, Strongest;
    var best := StrongestFound(events);
    assert Agree(best, e);
  }

  /** The first inclusion told of in a story is the one recorded at its end, and
      then nothing is looked up any more. */
  lemma RunIncludes(r: Record, before: seq<Event>, e: Event, after: seq<Event>, envelope: string, story: Outcome)
    requires Fresh(r) && r.inputObservation.None? && OneStory(r, before + [e] + after, envelope, story)
    requires Including(e) && !AnyIncluding(before)
    ensures var end := ApplyRun(r, before + [e] + after);
      IncludedIn(end, e.status.inputObservation.value.request) && !NeedsLookup(end)
  {
    var events := before + [e] + after;
    StoryBegins(r, before + [e], after, envelope, story);
    StoryPrefix(r, before, e, envelope, story);
    RunMidway(r, before, envelope, story);
    var now := ApplyRun(r, before);
    InclusionStep(r, now, before, e, envelope, story);
    assert (before + [e])[..|before|] == before;
    assert ApplyRun(r, before + [e]) == Apply(now, e);
    RunInTwo(r, before + [e], after);
    RunAdvances(Apply(now, e), after);
    LookupExact(r, events, envelope, story);
    assert events[|before|] == e;
    AdmittedStrongest(r, events, e);
    hide Apply, ApplyRun, Coherent, Strongest, NeedsLookup;
  }

  // ------------------------------------------------ an admission without envelope

  /** After an unconfirmed receipt and an admission that names no envelope. */
  predicate Shut(now: Record) {
    && IsSettled(now) && now.state.InputAdmitted? && now.envelopeId.None? && !HasInclusion(now)
    && now.receipt.Some? && now.receipt.value.outcome.UnconfirmedOutcome?
  }

  lemma ReceiptTaken(r: Record, receipt: Receipt)
    requires Fresh(r) && Fits(r, LiveReceipt(receipt)) && receipt.outcome.UnconfirmedOutcome?
    ensures var m := Apply(r, LiveReceipt(receipt));
      && m.receipt == Some(receipt) && m.state.Unconfirmed? && m.envelopeId.None?
      && m.hostRun == r.hostRun && m.submission == r.submission && m.inputObservation == r.inputObservation
  {
    hide IsOperationId, Canonical;
  }

  lemma BareTaken(now: Record, hostRun: string, s: Status)
    requires now.state.Unconfirmed? && now.receipt.Some? && now.receipt.value.outcome.UnconfirmedOutcome?
    requires now.envelopeId.None? && !HasInclusion(now) && Fits(now, StatusReply(hostRun, s))
    requires s.state.InputAdmitted? && s.receipt.None? && s.envelopeId.None? && s.inputObservation.None?
    ensures var m := Apply(now, StatusReply(hostRun, s));
      Shut(m) && m.hostRun == now.hostRun && m.submission == now.submission
  {
    hide IsOperationId, Canonical;
  }

  lemma ShutOut(now: Record, hostRun: string, s: Status)
    requires Shut(now) && Fits(now, StatusReply(hostRun, s)) && Observing(s) && s.receipt.Some?
    ensures var m := Apply(now, StatusReply(hostRun, s)); !HasInclusion(m) && NeedsLookup(m)
  {
    hide IsOperationId, Canonical;
  }

  /** Why an admission must name its envelope: one that does not, after an unconfirmed
      receipt, keeps out the admission's own receipt and the inclusion that comes with it. */
  lemma UnnamedAdmission(r: Record, lost: Receipt, hostRun: string, bare: Status, s: Status)
    requires Fresh(r) && r.inputObservation.None? && lost.outcome.UnconfirmedOutcome? && Fits(r, LiveReceipt(lost))
    requires bare.state.InputAdmitted? && bare.receipt.None? && bare.envelopeId.None? && bare.inputObservation.None?
    requires Observing(s) && s.receipt.Some?
    requires Fits(r, StatusReply(hostRun, bare)) && Fits(r, StatusReply(hostRun, s))
    ensures var end := ApplyRun(r, [LiveReceipt(lost), StatusReply(hostRun, bare), StatusReply(hostRun, s)]);
      !HasInclusion(end) && NeedsLookup(end)
  {
    var a, b, c := LiveReceipt(lost), StatusReply(hostRun, bare), StatusReply(hostRun, s);
    assert [a, b, c][..2] == [a, b] && [a, b, c][2] == c;
    TwoEvents(r, a, b);
    hide Apply, ReceiptMatches, IsOperationId;
    assert ApplyRun(r, [a, b, c]) == Apply(Apply(Apply(r, a), b), c);
    ReceiptTaken(r, lost);
    FitsAgain(r, Apply(r, a), b);
    BareTaken(Apply(r, a), hostRun, bare);
    FitsAgain(r, Apply(Apply(r, a), b), c);
    ShutOut(Apply(Apply(r, a), b), hostRun, s);
  }

  lemma FitsAgain(r: Record, now: Record, e: Event)
    requires Fits(r, e) && now.hostRun == r.hostRun && now.submission == r.submission
    ensures Fits(now, e)
  {
  }
}
