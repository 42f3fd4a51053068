/** What every run of evidence keeps, and what it converges to. */
module LedgerRuns {
  import opened JsMap
  import opened OperationId
  import opened HostCommands
  import opened Ledger

  // ------------------------------------------------------------ safety

  function StateRank(state: State): nat {
    match state
    case Queued => 1
    case Dispatching => 2
    case Unconfirmed => 3
    case _ => 4
  }

  /** Local and legacy hints rank below every host report. */
  function Rank(r: Record): nat { if Authoritative(r) then StateRank(r.state) else 0 }

  predicate IncludedIn(r: Record, request: string) { r.inputObservation == Some(Included(request)) }

  /** How a record may change over time. */
  ghost predicate Advances(a: Record, b: Record) {
    && b.hostRun == a.hostRun && b.submission == a.submission
    && Rank(a) <= Rank(b)
    && (IsSettled(a) ==> IsSettled(b) && b.state == a.state)
    && (a.envelopeId.Some? ==> b.envelopeId == a.envelopeId)
    && (forall request :: IncludedIn(a, request) ==> IncludedIn(b, request))
    && a.issues <= b.issues
  }

  lemma IssueAdvances(r: Record, message: string)
    ensures Advances(r, Issue(r, message)) && IsSettled(Issue(r, message)) == IsSettled(r)
    ensures KeptEnvelope(Issue(r, message)) == KeptEnvelope(r)
  {
  }

  /** What an accepted report has passed. */
  lemma AcceptedFacts(r: Record, state: State, receipt: Option<Receipt>, envelopeId: Option<string>)
    requires Judge(r, state, receipt, envelopeId).Accept?
    ensures !Stale(r, state) && (IsSettled(r) ==> r.state == state)
    ensures r.envelopeId.Some? && envelopeId.Some? ==> r.envelopeId == envelopeId
    ensures receipt.Some? ==> ReceiptState(receipt.value) == state
    ensures receipt.Some? && r.receipt.Some? ==> ReceiptConflict(r, r.receipt.value, receipt.value).None?
  {
  }

  lemma MergeAdvances(r: Record, state: State, authority: Authority, receipt: Option<Receipt>,
                      envelopeId: Option<string>)
    requires authority.ByStatus? || authority.ByReceipt?
    ensures Advances(r, MergeEvidence(r, state, authority, receipt, envelopeId))
  {
    hide Judge, Combined, Issue;
    match Judge(r, state, receipt, envelopeId)
    case Ignore =>
    case Complain(message) => IssueAdvances(r, message);
    case Accept => AcceptedFacts(r, state, receipt, envelopeId);
  }

  lemma ApplyAdvances(r: Record, event: Event)
    ensures Advances(r, Apply(r, event))
  {
    hide MergeEvidence, ReceiptMatches, IsOperationId, Canonical;
    match event
    case StatusReply(_, status) => MergeAdvances(r, status.state, ByStatus, status.receipt, status.envelopeId);
    case LiveReceipt(receipt) => MergeAdvances(r, ReceiptState(receipt), ByReceipt, Some(receipt), None);
    case Observed(_, _, _) =>
  }

  /** Over every run: the submission never changes, authority and rank never
      fall, a settled state is final, a known envelope and a recorded inclusion
      stay, and no issue is forgotten. */
  lemma {:induction false} RunAdvances(r: Record, events: seq<Event>)
    ensures Advances(r, ApplyRun(r, events))
  {
    if events != [] {
      hide Apply;
      RunAdvances(r, events[..|events| - 1]);
      ApplyAdvances(ApplyRun(r, events[..|events| - 1]), events[|events| - 1]);
    }
  }

  /** The envelope named by the kept receipt, if that is an admission. */
  function KeptEnvelope(r: Record): Option<string> {
    if r.receipt.Some? && r.receipt.value.outcome.AdmittedOutcome? then Some(r.receipt.value.outcome.envelopeId)
      else None
  }

  /** A named envelope belongs to a settled record. Only imported records can
      name one before the host has confirmed it. */
  predicate Anchored(r: Record) { KeptEnvelope(r).Some? ==> IsSettled(r) }

  lemma MergeKeeps(r: Record, state: State, authority: Authority, receipt: Option<Receipt>, envelopeId: Option<string>)
    requires Anchored(r) && (authority.ByStatus? || authority.ByReceipt?)
    ensures var m := MergeEvidence(r, state, authority, receipt, envelopeId);
      Anchored(m) && (KeptEnvelope(r).Some? ==> KeptEnvelope(m) == KeptEnvelope(r))
  {
    hide Judge, Issue;
    match Judge(r, state, receipt, envelopeId)
    case Ignore =>
    case Complain(message) => IssueAdvances(r, message);
    case Accept => AcceptedFacts(r, state, receipt, envelopeId);
  }

  lemma ApplyKeeps(r: Record, event: Event)
    requires Anchored(r)
    ensures Anchored(Apply(r, event))
    ensures KeptEnvelope(r).Some? ==> KeptEnvelope(Apply(r, event)) == KeptEnvelope(r)
  {
    hide MergeEvidence, ReceiptMatches;
    match event
    case StatusReply(_, status) => MergeKeeps(r, status.state, ByStatus, status.receipt, status.envelopeId);
    case LiveReceipt(receipt) => MergeKeeps(r, ReceiptState(receipt), ByReceipt, Some(receipt), None);
    case Observed(_, _, _) =>
  }

  /** Once host evidence has named an envelope it stays the receipt's envelope
      through every run. It need not be the one the status named. */
  lemma {:induction false} RunKeepsEnvelope(r: Record, events: seq<Event>)
    requires Anchored(r)
    ensures Anchored(ApplyRun(r, events))
    ensures KeptEnvelope(r).Some? ==> KeptEnvelope(ApplyRun(r, events)) == KeptEnvelope(r)
  {
    if events != [] {
      hide Apply;
      RunKeepsEnvelope(r, events[..|events| - 1]);
      ApplyKeeps(ApplyRun(r, events[..|events| - 1]), events[|events| - 1]);
    }
  }

  function AckLost(r: Record): Event {
    LiveReceipt(Receipt(r.submission.operationId, Some(r.submission.command.target), UnconfirmedOutcome("ack lost")))
  }

  /** An unconfirmed receipt replaces whatever receipt an unsettled record holds. */
  lemma UnsettledReceiptReplaced(r: Record)
    requires IsOperationId(r.submission.operationId) && !IsSettled(r) && KeptEnvelope(r).Some?
    ensures KeptEnvelope(Apply(r, AckLost(r))).None?
  {
    hide IsOperationId, Canonical, StateName;
  }

  function EnvelopeAfter(r: Record, events: seq<Event>): Option<string> { KeptEnvelope(ApplyRun(r, events)) }

  /** Exactly when an envelope named by a kept receipt outlives every run: when
      the record is settled. An imported one can still lose it. */
  lemma EnvelopeKeptExact(r: Record)
    requires IsOperationId(r.submission.operationId) && KeptEnvelope(r).Some?
    ensures (forall events :: EnvelopeAfter(r, events) == KeptEnvelope(r)) <==> IsSettled(r)
  {
    if IsSettled(r) {
      forall events ensures EnvelopeAfter(r, events) == KeptEnvelope(r) { RunKeepsEnvelope(r, events); }
    } else {
      hide IsOperationId, Apply;
      UnsettledReceiptReplaced(r);
      var events := [AckLost(r)];
      assert events[..0] == [];
      assert ApplyRun(r, events) == Apply(r, AckLost(r));
      assert EnvelopeAfter(r, events) != KeptEnvelope(r);
    }
  }

  // -------------------------------------------------------- convergence

  predicate Fresh(r: Record) {
    r.authority.Local? && r.state.Queued? && r.receipt.None? && r.envelopeId.None?
  }

  function EvidenceState(event: Event): State
    requires !event.Observed?
  {
    match event
    case StatusReply(_, status) => status.state
    case LiveReceipt(receipt) => ReceiptState(receipt)
  }

  function EvidenceEnvelope(event: Event): Option<string> {
    if event.StatusReply? then event.status.envelopeId else None
  }

  /** Evidence about this very operation, consistent in itself. */
  predicate Fits(r: Record, event: Event) {
    match event
    case StatusReply(hostRun, status) =>
      && AddressedBy(r, hostRun, status.operationId)
      && ActionAllows(r.submission.command, status.state)
      && (status.receipt.Some? ==>
          ReceiptMatches(r, status.receipt.value) && ReceiptState(status.receipt.value) == status.state)
    case LiveReceipt(receipt) => receipt.target.Some? && ReceiptMatches(r, receipt)
    case Observed(_, _, _) => false
  }

  /** Two settled reports, and two reports that name different envelopes, report
      the same state. */
  predicate Agree(a: Event, b: Event)
    requires !a.Observed? && !b.Observed?
  {
    (Settling(EvidenceState(a)) && Settling(EvidenceState(b)))
      || OtherEnvelope(EvidenceEnvelope(a), EvidenceEnvelope(b))
    ==> EvidenceState(a) == EvidenceState(b)
  }

  predicate OtherEnvelope(a: Option<string>, b: Option<string>) { a.Some? && b.Some? && a != b }

  ghost predicate Coherent(r: Record, events: seq<Event>) {
    && (forall e :: e in events ==> Fits(r, e))
    && forall a, b :: a in events && b in events ==> Agree(a, b)
  }

  /** The highest-ranked state among the evidence, the last of equals. */
  function Strongest(events: seq<Event>): State
    requires events != [] && forall e :: e in events ==> !e.Observed?
  {
    var last := EvidenceState(events[|events| - 1]);
    if |events| == 1 then last
    else
      var before := Strongest(events[..|events| - 1]);
      if StateRank(before) <= StateRank(last) then last else before
  }

  /** Where a record stands after a coherent run. */
  ghost predicate StandsAt(r: Record, now: Record, events: seq<Event>)
    requires forall e :: e in events ==> !e.Observed?
  {
    && now.hostRun == r.hostRun && now.submission == r.submission
    && (events == [] ==> now == r)
    && (events != [] ==> Authoritative(now) && now.state == Strongest(events))
    && (!IsSettled(now) ==> now.receipt.Some? ==>
         now.receipt.value.outcome.UnconfirmedOutcome? && Authoritative(now) && now.state.Unconfirmed?)
    && (now.envelopeId.Some? ==> exists e :: e in events && EvidenceEnvelope(e) == now.envelopeId)
  }

  lemma {:induction false} StrongestFound(events: seq<Event>) returns (e: Event)
    requires events != [] && forall x :: x in events ==> !x.Observed?
    ensures e in events && EvidenceState(e) == Strongest(events)
    ensures forall x :: x in events ==> StateRank(EvidenceState(x)) <= StateRank(Strongest(events))
  {
    e := events[|events| - 1];
    if |events| > 1 {
      var init := events[..|events| - 1];
      var best := StrongestFound(init);
      if StateRank(Strongest(init)) > StateRank(EvidenceState(e)) { e := best; }
      assert forall x :: x in events ==> x in init || x == events[|events| - 1];
    }
  }

  lemma MatchAllowsAction(r: Record, receipt: Receipt)
    requires ReceiptMatches(r, receipt)
    ensures ActionAllows(r.submission.command, ReceiptState(receipt))
  {
  }

  function EvidenceReceipt(event: Event): Option<Receipt>
    requires !event.Observed?
  {
    match event
    case StatusReply(_, status) => status.receipt
    case LiveReceipt(receipt) => Some(receipt)
  }

  /** Fitting evidence passes the checks on action, target and receipt state. */
  predicate Acceptable(now: Record, state: State, receipt: Option<Receipt>) {
    && ActionAllows(now.submission.command, state)
    && (receipt.Some? ==> ReceiptMatches(now, receipt.value) && ReceiptState(receipt.value) == state)
  }

  predicate NoLower(a: State, b: State) { a == b || StateRank(a) > StateRank(b) }

  /** The record after any fitting evidence: its state either stays or becomes the
      reported one, never lower. */
  lemma MergeOutcome(now: Record, state: State, authority: Authority, receipt: Option<Receipt>,
                     envelopeId: Option<string>)
    requires Acceptable(now, state, receipt) && (authority.ByStatus? || authority.ByReceipt?)
    requires IsSettled(now) && Settling(state) ==> now.state == state
    requires OtherEnvelope(now.envelopeId, envelopeId) ==> Authoritative(now) && NoLower(now.state, state)
    requires !IsSettled(now) && now.receipt.Some? ==>
      now.receipt.value.outcome.UnconfirmedOutcome? && Authoritative(now) && now.state.Unconfirmed?
    ensures var m := MergeEvidence(now, state, authority, receipt, envelopeId);
      && Authoritative(m)
      && m.hostRun == now.hostRun && m.submission == now.submission
      && m.state == (if Authoritative(now) && StateRank(now.state) > StateRank(state) then now.state else state)
      && (!IsSettled(m) && m.receipt.Some? ==> m.receipt.value.outcome.UnconfirmedOutcome? && m.state.Unconfirmed?)
      && (m.envelopeId == now.envelopeId || m.envelopeId == envelopeId)
  {
    hide ReceiptMatches, ActionAllows, Judge;
    match Judge(now, state, receipt, envelopeId)
    case Ignore => IgnoredFacts(now, state, receipt, envelopeId);
    case Complain(_) => ComplaintFacts(now, state, receipt, envelopeId);
    case Accept => AcceptedFacts(now, state, receipt, envelopeId); SettledAccept(now, state, receipt, envelopeId);
  }

  /** A report is ignored only when a stronger one is already recorded. */
  lemma IgnoredFacts(now: Record, state: State, receipt: Option<Receipt>, envelopeId: Option<string>)
    requires Judge(now, state, receipt, envelopeId).Ignore?
    ensures Authoritative(now) && StateRank(now.state) > StateRank(state)
  {
    hide ReceiptMatches, ActionAllows, ReceiptConflict;
  }

  /** An acceptable report is complained about only for another settled state,
      another envelope or a receipt that cannot stand beside the kept one. */
  lemma ComplaintFacts(now: Record, state: State, receipt: Option<Receipt>, envelopeId: Option<string>)
    requires Acceptable(now, state, receipt) && Judge(now, state, receipt, envelopeId).Complain?
    ensures (IsSettled(now) && Settling(state)) || OtherEnvelope(now.envelopeId, envelopeId)
      || (now.receipt.Some? && receipt.Some? && !IsSettled(now)
          && SameOutcomeKind(now.receipt.value.outcome, receipt.value.outcome))
  {
    hide ReceiptMatches, ActionAllows;
  }

  lemma SettledAccept(now: Record, state: State, receipt: Option<Receipt>, envelopeId: Option<string>)
    requires Judge(now, state, receipt, envelopeId).Accept?
    ensures IsSettled(now) ==> Settling(state)
  {
    hide ReceiptMatches, ActionAllows, ReceiptConflict;
  }

  lemma StandsStep(r: Record, now: Record, events: seq<Event>, e: Event)
    requires Fresh(r) && Coherent(r, events) && Coherent(r, events + [e]) && StandsAt(r, now, events)
    ensures StandsAt(r, Apply(now, e), events + [e])
  {
    hide MergeEvidence, Apply, ReceiptMatches, ActionAllows, IsOperationId, Canonical;
    var all := events + [e];
    assert all[..|events|] == events && all[|events|] == e && e in all;
    assert Fits(r, e) && forall x :: x in events ==> x in all && Fits(r, x);
    var state, receipt, envelope := EvidenceState(e), EvidenceReceipt(e), EvidenceEnvelope(e);
    var authority := if e.StatusReply? then ByStatus else ByReceipt;
    FitsNow(r, now, e);
    if events != [] && Settling(state) && IsSettled(now) {
      var best := StrongestFound(events);
      assert Agree(best, e);
    }
    if OtherEnvelope(now.envelopeId, envelope) {
      var x :| x in events && EvidenceEnvelope(x) == now.envelopeId;
      assert Agree(x, e) && x in all;
      var best := StrongestFound(events);
      assert Agree(best, e) && best in all;
    }
    MergeOutcome(now, state, authority, receipt, envelope);
    StatusTail(now, e);
  }

  lemma FitsNow(r: Record, now: Record, e: Event)
    requires Fits(r, e) && now.hostRun == r.hostRun && now.submission == r.submission
    ensures Acceptable(now, EvidenceState(e), EvidenceReceipt(e))
    ensures e.StatusReply? ==> AddressedBy(now, e.hostRun, e.status.operationId)
    ensures e.LiveReceipt? ==>
      e.receipt.target.Some? && ReceiptMatches(now, e.receipt) && IsOperationId(e.receipt.commandId)
  {
    if e.LiveReceipt? { MatchAllowsAction(r, e.receipt); }
  }

  /** Beyond merging the report, an event touches only observation and issues. */
  lemma StatusTail(now: Record, e: Event)
    requires e.StatusReply? ==> AddressedBy(now, e.hostRun, e.status.operationId)
    requires e.LiveReceipt? ==> e.receipt.target.Some? && ReceiptMatches(now, e.receipt)
    requires !e.Observed?
    ensures var authority := if e.StatusReply? then ByStatus else ByReceipt;
      var m, after := MergeEvidence(now, EvidenceState(e), authority, EvidenceReceipt(e), EvidenceEnvelope(e)),
        Apply(now, e);
      after.(inputObservation := m.inputObservation, issues := m.issues) == m
  {
    hide MergeEvidence;
  }

  /** A coherent run ends in its highest-ranked report. */
  lemma {:induction false} RunConverges(r: Record, events: seq<Event>)
    requires Fresh(r) && Coherent(r, events)
    ensures StandsAt(r, ApplyRun(r, events), events)
  {
    if events != [] {
      hide Apply, StandsAt;
      var init, last := events[..|events| - 1], events[|events| - 1];
      assert init + [last] == events;
      CoherentPrefix(r, init, last);
      RunConverges(r, init);
      StandsStep(r, ApplyRun(r, init), init, last);
    } else {
      hide Apply;
    }
  }

  lemma CoherentPrefix(r: Record, init: seq<Event>, last: Event)
    requires Coherent(r, init + [last])
    ensures Coherent(r, init)
  {
    assert forall x :: x in init ==> x in init + [last];
  }

  /** Order and duplication do not matter: two deliveries of the same coherent
      evidence leave a fresh record in the same state. */
  lemma OrderIndependent(r: Record, a: seq<Event>, b: seq<Event>)
    requires Fresh(r) && Coherent(r, a) && Coherent(r, b)
    requires forall e :: e in a <==> e in b
    ensures ApplyRun(r, a).state == ApplyRun(r, b).state
    ensures Authoritative(ApplyRun(r, a)) == Authoritative(ApplyRun(r, b))
  {
    RunConverges(r, a);
    RunConverges(r, b);
    BothEmpty(a, b);
    CoherentReports(r, a);
    CoherentReports(r, b);
    if a != [] { SameStrongest(a, b); }
    hide ApplyRun, Strongest, Apply, Coherent;
  }

  lemma CoherentReports(r: Record, a: seq<Event>)
    requires Coherent(r, a)
    ensures forall e :: e in a ==> !e.Observed?
    ensures forall x, y :: x in a && y in a ==> Agree(x, y)
  {
    hide ReceiptMatches, ActionAllows, AddressedBy;
  }

  /** The same reports in any order and number have the same strongest state. */
  lemma SameStrongest(a: seq<Event>, b: seq<Event>)
    requires a != [] && b != [] && (forall e :: e in a <==> e in b) && (forall e :: e in a ==> !e.Observed?)
    requires forall x, y :: x in a && y in a ==> Agree(x, y)
    ensures Strongest(a) == Strongest(b)
  {
    hide Strongest;
    var x := StrongestFound(a);
    var y := StrongestFound(b);
    assert Agree(x, y) && StateRank(EvidenceState(x)) == StateRank(EvidenceState(y));
  }

  lemma BothEmpty(a: seq<Event>, b: seq<Event>)
    requires forall e :: e in a <==> e in b
    ensures a == [] <==> b == []
  {
    if a != [] { assert a[0] in b; }
    if b != [] { assert b[0] in a; }
  }

  lemma OneEvent(r: Record, e: Event)
    requires Fresh(r) && Fits(r, e)
    ensures ApplyRun(r, [e]) == Apply(r, e)
    ensures StandsAt(r, Apply(r, e), [e]) && Apply(r, e).envelopeId == EvidenceEnvelope(e)
  {
    assert [e][..0] == [];
    RunConverges(r, [e]);
    FitsNow(r, r, e);
    StatusTail(r, e);
  }

  lemma TwoEvents(r: Record, a: Event, b: Event)
    ensures ApplyRun(r, [a, b]) == Apply(Apply(r, a), b)
  {
    assert [a, b][..1] == [a] && [a][..0] == [] && [a, b][1] == b;
    assert ApplyRun(r, [a]) == Apply(r, a);
  }

  /** Once a report has been taken, a settled rival or a report with another
      envelope cannot move the state up. */
  lemma RivalRefused(r: Record, a: Event, b: Event)
    requires Fresh(r) && Fits(r, a) && Fits(r, b)
    requires (Settling(EvidenceState(a)) && Settling(EvidenceState(b)))
      || OtherEnvelope(EvidenceEnvelope(a), EvidenceEnvelope(b))
    ensures ApplyRun(r, [a, b]).state == EvidenceState(a)
  {
    hide ApplyRun, Apply, ReceiptMatches, ActionAllows, IsOperationId, Canonical, ReceiptConflict, Combined;
    OneEvent(r, a);
    TwoEvents(r, a, b);
    var now := Apply(r, a);
    FitsNow(r, now, b);
    StatusTail(now, b);
  }

  lemma CoherentPair(r: Record, a: Event, b: Event)
    requires Fits(r, a) && Fits(r, b) && Agree(a, b)
    ensures Coherent(r, [a, b])
  {
    hide ReceiptMatches, ActionAllows, IsOperationId, Canonical;
  }

  lemma FitsIsEvidence(r: Record, e: Event)
    requires Fits(r, e)
    ensures !e.Observed?
  {
  }

  /** Agreement is exactly what makes the order of two reports irrelevant. */
  lemma PairOrderExact(r: Record, a: Event, b: Event)
    requires Fresh(r) && Fits(r, a) && Fits(r, b)
    ensures ApplyRun(r, [a, b]).state == ApplyRun(r, [b, a]).state <==> Agree(a, b)
  {
    FitsIsEvidence(r, a);
    FitsIsEvidence(r, b);
    hide ApplyRun, Fits, Fresh;
    if Agree(a, b) {
      assert forall x :: x in [a, b] <==> x in [b, a];
      CoherentPair(r, a, b);
      CoherentPair(r, b, a);
      OrderIndependent(r, [a, b], [b, a]);
    } else {
      RivalRefused(r, a, b);
      RivalRefused(r, b, a);
    }
  }
}
