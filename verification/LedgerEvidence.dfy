/** What one report does to a record: taken over, passed over, or recorded as a
    contradiction (web/src/pending-commands.ts). */
module LedgerEvidence {
  import opened JsMap
  import opened OperationId
  import opened HostCommands
  import opened Ledger
  import opened LedgerRuns

  // --------------------------------------------------- outcomes that go together

  predicate Given<T(==)>(a: Option<T>, b: Option<T>) { a.Some? ==> a == b }

  /** One outcome reports at most what the other does. */
  predicate PartOf(a: Outcome, b: Outcome) {
    if a.AdmittedOutcome? && b.AdmittedOutcome?
    then a.envelopeId == b.envelopeId && Given(a.wakeError, b.wakeError) && Given(a.continuation, b.continuation)
    else a == b
  }

  /** Some outcome reports all that both do. */
  ghost predicate Reconcilable(a: Outcome, b: Outcome) { exists c :: PartOf(a, c) && PartOf(b, c) }

  function Union(a: Outcome, b: Outcome): Outcome {
    if a.AdmittedOutcome? && b.AdmittedOutcome?
    then AdmittedOutcome(b.envelopeId, Or(b.wakeError, a.wakeError), Or(b.continuation, a.continuation)) else b
  }

  lemma UnionExact(a: Outcome, b: Outcome)
    ensures Reconcilable(a, b) <==> PartOf(a, Union(a, b)) && PartOf(b, Union(a, b))
  {
    if Reconcilable(a, b) {
      var c :| PartOf(a, c) && PartOf(b, c);
    }
  }

  lemma SameBlocks(a: Continuation, b: Continuation)
    ensures SameContinuation(a, b) <==> a == b
  {
  }

  /** Two receipts of one operation conflict exactly when one of them came after
      settlement with another kind of outcome, or no outcome reports both. */
  lemma ConflictExact(r: Record, kept: Receipt, receipt: Receipt)
    requires ReceiptMatches(r, kept) && ReceiptMatches(r, receipt)
    ensures ReceiptConflict(r, kept, receipt).Some? <==>
      if SameOutcomeKind(kept.outcome, receipt.outcome) then !Reconcilable(kept.outcome, receipt.outcome)
      else IsSettled(r)
  {
    UnionExact(kept.outcome, receipt.outcome);
    if kept.outcome.AdmittedOutcome? && receipt.outcome.AdmittedOutcome? {
      var a, b := kept.outcome.continuation, receipt.outcome.continuation;
      if a.Some? && b.Some? { SameBlocks(a.value, b.value); }
    }
    hide Reconcilable, IsOperationId, Canonical;
  }

  /** Receipts that go together are kept as one that reports exactly what they do. */
  lemma CombinedExact(kept: Receipt, receipt: Receipt)
    requires Reconcilable(kept.outcome, receipt.outcome)
    ensures var c := Combined(Some(kept), Some(receipt));
      && c.Some?
      && PartOf(kept.outcome, c.value.outcome) && PartOf(receipt.outcome, c.value.outcome)
      && Given(receipt.target, c.value.target) && c.value.commandId == receipt.commandId
      && (kept.outcome.AdmittedOutcome? && receipt.target.None? ==> c.value.target == kept.target)
    ensures forall x :: PartOf(kept.outcome, x) && PartOf(receipt.outcome, x) ==>
      PartOf(Combined(Some(kept), Some(receipt)).value.outcome, x)
  {
    UnionExact(kept.outcome, receipt.outcome);
  }

  // --------------------------------------------------------- one report

  /** A stronger report is recorded already. */
  predicate Outranked(r: Record, state: State) { Authoritative(r) && StateRank(r.state) > StateRank(state) }

  /** The report is about this operation and consistent in itself. */
  predicate Sensible(r: Record, state: State, receipt: Option<Receipt>) {
    && ActionAllows(r.submission.command, state)
    && (receipt.Some? ==> ReceiptMatches(r, receipt.value) && ReceiptState(receipt.value) == state)
  }

  /** Nothing recorded stands against it. */
  ghost predicate Unopposed(r: Record, state: State, receipt: Option<Receipt>, envelopeId: Option<string>) {
    && (IsSettled(r) ==> r.state == state)
    && !OtherEnvelope(r.envelopeId, envelopeId)
    && (r.receipt.Some? && receipt.Some? ==>
         if SameOutcomeKind(r.receipt.value.outcome, receipt.value.outcome)
         then Reconcilable(r.receipt.value.outcome, receipt.value.outcome) else !IsSettled(r))
  }

  /** A record with its host evidence as before and a complaint on it. */
  ghost predicate ComplaintOn(r: Record, m: Record) {
    && m.(issues := r.issues) == r && m.issues != []
    && (m.issues == r.issues || (|m.issues| == |r.issues| + 1 && r.issues <= m.issues))
  }

  ghost predicate TakenAs(r: Record, m: Record, state: State, authority: Authority, receipt: Option<Receipt>,
                          envelopeId: Option<string>) {
    && m.state == state && m.authority == authority && m.lookup.None?
    && m.envelopeId == (if envelopeId.Some? then envelopeId else r.envelopeId)
    && (receipt.None? ==> m.receipt == r.receipt)
    && (receipt.Some? ==> m.receipt.Some? && PartOf(receipt.value.outcome, m.receipt.value.outcome))
    && m.(state := r.state, authority := r.authority, lookup := r.lookup, envelopeId := r.envelopeId,
          receipt := r.receipt) == r
  }

  lemma JudgedWithReceipts(r: Record, state: State, receipt: Option<Receipt>, envelopeId: Option<string>)
    requires (r.receipt.Some? ==> ReceiptMatches(r, r.receipt.value)) && Sensible(r, state, receipt)
    ensures (r.receipt.Some? && receipt.Some? && ReceiptConflict(r, r.receipt.value, receipt.value).Some?) <==>
      !(r.receipt.Some? && receipt.Some? ==>
         if SameOutcomeKind(r.receipt.value.outcome, receipt.value.outcome)
         then Reconcilable(r.receipt.value.outcome, receipt.value.outcome) else !IsSettled(r))
  {
    hide ReceiptConflict, Reconcilable, ReceiptMatches, ActionAllows;
    if r.receipt.Some? && receipt.Some? { ConflictExact(r, r.receipt.value, receipt.value); }
  }

  lemma OutrankedExact(r: Record, state: State)
    ensures Outranked(r, state) <==> Stale(r, state) || (IsSettled(r) && !Settling(state))
  {
  }

  /** The checks, without their order. */
  lemma JudgeShape(r: Record, state: State, receipt: Option<Receipt>, envelopeId: Option<string>, clash: bool)
    requires clash == (r.receipt.Some? && receipt.Some? && ReceiptConflict(r, r.receipt.value, receipt.value).Some?)
    ensures var verdict := Judge(r, state, receipt, envelopeId);
      var over := Stale(r, state) || (IsSettled(r) && !Settling(state));
      && (verdict.Accept? <==> Sensible(r, state, receipt) && !over && !clash && (IsSettled(r) ==> r.state == state)
                               && !OtherEnvelope(r.envelopeId, envelopeId))
      && (Sensible(r, state, receipt) && over ==> verdict.Ignore?)
      && (verdict.Ignore? ==> over)
  {
    hide ReceiptMatches, ActionAllows, ReceiptConflict, StateName, Stale;
  }

  lemma JudgeExact(r: Record, state: State, receipt: Option<Receipt>, envelopeId: Option<string>)
    requires r.receipt.Some? ==> ReceiptMatches(r, r.receipt.value)
    ensures var verdict := Judge(r, state, receipt, envelopeId);
      && (verdict.Accept? <==>
           Sensible(r, state, receipt) && !Outranked(r, state) && Unopposed(r, state, receipt, envelopeId))
      && (Sensible(r, state, receipt) && Outranked(r, state) ==> verdict.Ignore?)
      && (verdict.Ignore? ==> Outranked(r, state))
  {
    var clash := r.receipt.Some? && receipt.Some? && ReceiptConflict(r, r.receipt.value, receipt.value).Some?;
    OutrankedExact(r, state);
    JudgeShape(r, state, receipt, envelopeId, clash);
    if Sensible(r, state, receipt) { JudgedWithReceipts(r, state, receipt, envelopeId); }
    hide Judge, Sensible, ReceiptMatches, ReceiptConflict, Reconcilable, Stale, Outranked, SameOutcomeKind;
  }

  lemma AcceptedTaken(r: Record, state: State, authority: Authority, receipt: Option<Receipt>,
                      envelopeId: Option<string>)
    requires Unopposed(r, state, receipt, envelopeId)
    ensures TakenAs(r, Accepted(r, state, authority, receipt, envelopeId), state, authority, receipt, envelopeId)
  {
    if r.receipt.Some? && receipt.Some? && SameOutcomeKind(r.receipt.value.outcome, receipt.value.outcome) {
      CombinedExact(r.receipt.value, receipt.value);
    }
    hide Reconcilable;
  }

  lemma IssueComplains(r: Record, message: string)
    ensures ComplaintOn(r, Issue(r, message))
  {
  }

  /** A sensible report that no stronger one precedes is taken over exactly when
      nothing recorded stands against it, and else recorded as a contradiction; a
      weaker one changes nothing; one that is not sensible is a contradiction. */
  lemma ReportExact(r: Record, state: State, authority: Authority, receipt: Option<Receipt>, envelopeId: Option<string>)
    requires r.receipt.Some? ==> ReceiptMatches(r, r.receipt.value)
    ensures var m := MergeEvidence(r, state, authority, receipt, envelopeId);
      && (Sensible(r, state, receipt) && Outranked(r, state) ==> m == r)
      && (Sensible(r, state, receipt) && !Outranked(r, state) && Unopposed(r, state, receipt, envelopeId) ==>
           TakenAs(r, m, state, authority, receipt, envelopeId))
      && (Sensible(r, state, receipt) && !Outranked(r, state) && !Unopposed(r, state, receipt, envelopeId) ==>
           ComplaintOn(r, m))
      && (!Sensible(r, state, receipt) ==> ComplaintOn(r, m) || (m == r && Outranked(r, state)))
  {
    JudgeExact(r, state, receipt, envelopeId);
    hide Judge, Sensible, Unopposed, Outranked, TakenAs, ComplaintOn, Accepted, Issue, ReceiptMatches;
    match Judge(r, state, receipt, envelopeId)
    case Ignore =>
    case Complain(message) => IssueComplains(r, message);
    case Accept => AcceptedTaken(r, state, authority, receipt, envelopeId);
  }

  // -------------------------------------------------------------- whose receipt

  /** What an outcome says of the command it answers. */
  predicate Answers(outcome: Outcome, command: Command) {
    && (outcome.AccountSelectedOutcome? ==> command.SelectAccount? && command.accountId == outcome.accountId)
    && (outcome.ContinuationRefusedOutcome? ==> command.Recover? && command.expectedBlock == outcome.block)
    && (outcome.RecoveryAuthorizedOutcome? ==>
         command.Recover? && command.expectedBlock == outcome.block && command.mode == outcome.mode)
    && (outcome.AdmittedOutcome? ==> command.Input?)
    && (outcome.ControlRequestedOutcome? ==>
         (command.Interrupt? && outcome.control.Interrupting?) || (command.Retire? && !outcome.control.Interrupting?))
  }

  /** A receipt of this operation, at its target, for its command. */
  predicate OwnReceipt(r: Record, receipt: Receipt) {
    && IsOperationId(receipt.commandId) && Canonical(receipt.commandId) == Canonical(r.submission.operationId)
    && Given(receipt.target, Some(r.submission.command.target)) && Answers(receipt.outcome, r.submission.command)
  }

  lemma MatchExact(r: Record, receipt: Receipt)
    ensures ReceiptMatches(r, receipt) <==> OwnReceipt(r, receipt)
  {
    hide IsOperationId, Canonical;
  }

  lemma OwnCombined(r: Record, receipt: Receipt)
    requires OwnReceipt(r, receipt) && (r.receipt.Some? ==> OwnReceipt(r, r.receipt.value))
    ensures var c := Combined(r.receipt, Some(receipt)); c.Some? && OwnReceipt(r, c.value)
  {
    hide IsOperationId, Canonical;
  }

  lemma MergeKeepsOwn(r: Record, state: State, authority: Authority, receipt: Option<Receipt>,
                      envelopeId: Option<string>)
    requires r.receipt.Some? ==> OwnReceipt(r, r.receipt.value)
    ensures var m := MergeEvidence(r, state, authority, receipt, envelopeId);
      m.submission == r.submission && (m.receipt.Some? ==> OwnReceipt(r, m.receipt.value))
  {
    hide Judge, ReceiptMatches, OwnReceipt;
    if Judge(r, state, receipt, envelopeId).Accept? && receipt.Some? {
      AcceptedMatches(r, state, receipt, envelopeId);
      MatchExact(r, receipt.value);
      OwnCombined(r, receipt.value);
      hide Combined;
    }
  }

  lemma AcceptedMatches(r: Record, state: State, receipt: Option<Receipt>, envelopeId: Option<string>)
    requires Judge(r, state, receipt, envelopeId).Accept? && receipt.Some?
    ensures ReceiptMatches(r, receipt.value)
  {
    hide ReceiptMatches, ActionAllows, ReceiptConflict;
  }

  lemma ApplyKeepsOwn(r: Record, e: Event)
    requires r.receipt.Some? ==> OwnReceipt(r, r.receipt.value)
    ensures var m := Apply(r, e); m.submission == r.submission && (m.receipt.Some? ==> OwnReceipt(r, m.receipt.value))
  {
    hide MergeEvidence, ReceiptMatches, OwnReceipt, IsOperationId;
    match e
    case StatusReply(_, s) => MergeKeepsOwn(r, s.state, ByStatus, s.receipt, s.envelopeId);
    case LiveReceipt(receipt) => MergeKeepsOwn(r, ReceiptState(receipt), ByReceipt, Some(receipt), None);
    case Observed(_, _, _) =>
  }

  lemma OwnSame(a: Record, b: Record, receipt: Receipt)
    requires a.submission == b.submission
    ensures OwnReceipt(a, receipt) == OwnReceipt(b, receipt)
  {
  }

  /** Whatever is reported, in any run: the receipt a record keeps is one of its own
      operation and answers its own command, down to account, block and mode. */
  lemma {:induction false} RunKeepsOwn(r: Record, events: seq<Event>)
    requires r.receipt.Some? ==> OwnReceipt(r, r.receipt.value)
    ensures var now := ApplyRun(r, events);
      now.submission == r.submission && (now.receipt.Some? ==> OwnReceipt(r, now.receipt.value))
  {
    if events != [] {
      hide Apply, OwnReceipt;
      var now := ApplyRun(r, events[..|events| - 1]);
      RunKeepsOwn(r, events[..|events| - 1]);
      if now.receipt.Some? { OwnSame(r, now, now.receipt.value); }
      ApplyKeepsOwn(now, events[|events| - 1]);
      var next := Apply(now, events[|events| - 1]);
      if next.receipt.Some? { OwnSame(r, now, next.receipt.value); }
    }
  }

  // -------------------------------------------------------------- observations

  /** A status that tells whether an admitted input was included. */
  predicate Observing(s: Status) { s.state.InputAdmitted? && s.envelopeId.Some? && s.inputObservation.Some? }

  predicate HasInclusion(r: Record) { r.inputObservation.Some? && r.inputObservation.value.Included? }

  /** An observation is recorded exactly when no inclusion is and the record bears
      the status's envelope afterwards: it had it, or the status is taken over. */
  lemma ObservationExact(r: Record, hostRun: string, s: Status)
    requires AddressedBy(r, hostRun, s.operationId) && Sensible(r, s.state, s.receipt) && Observing(s)
    requires (r.receipt.Some? ==> ReceiptMatches(r, r.receipt.value)) && r.inputObservation != s.inputObservation
    ensures var after := Apply(r, StatusReply(hostRun, s));
      after.inputObservation == s.inputObservation <==>
      && !HasInclusion(r)
      && (Unopposed(r, s.state, s.receipt, s.envelopeId) || (r.state.InputAdmitted? && r.envelopeId == s.envelopeId))
  {
    var m := MergeEvidence(r, s.state, ByStatus, s.receipt, s.envelopeId);
    ReportExact(r, s.state, ByStatus, s.receipt, s.envelopeId);
    hide MergeEvidence, ReceiptMatches, ActionAllows, Unopposed;
    ObservedAs(r, m, s);
  }

  lemma ObservedAs(r: Record, m: Record, s: Status)
    requires Observing(s)
    ensures var after := WithObservation(r, m, s);
      && (m.state.InputAdmitted? && m.envelopeId == s.envelopeId && !HasInclusion(r) ==>
           after.inputObservation == s.inputObservation)
      && (!m.state.InputAdmitted? || m.envelopeId != s.envelopeId || HasInclusion(r) ==>
           after.inputObservation == m.inputObservation)
  {
  }

  /** A second inclusion is passed over if it is the first again, and recorded as a
      contradiction if it is another. */
  lemma ClashExact(r: Record, m: Record, s: Status)
    requires Observing(s) && s.inputObservation.value.Included? && HasInclusion(r)
    requires m.state.InputAdmitted? && m.envelopeId == s.envelopeId
    ensures var after := WithObservation(r, m, s);
      if s.inputObservation == r.inputObservation then after == m else ComplaintOn(m, after)
  {
    hide Issue, ComplaintOn;
    IssueComplains(m, "Contradictory input request inclusion identity.");
  }

  // --------------------------------------------------------------- local notes

  /** The last note of a kind about the record, if there is one. */
  function LastNoted<T>(r: Record, events: seq<Event>, pick: LocalNote -> Option<T>): Option<T> {
    if events == [] then None
    else
      var last := events[|events| - 1];
      if last.Observed? && AddressedBy(r, last.hostRun, last.operationId) && pick(last.note).Some?
      then pick(last.note) else LastNoted(r, events[..|events| - 1], pick)
  }

  lemma NoteStep(now: Record, e: Event)
    ensures var next := Apply(now, e);
      if e.Observed? && AddressedBy(now, e.hostRun, e.operationId) then
        && next.accepted == Or(e.note.accepted, now.accepted) && next.send == Or(e.note.send, now.send)
        && next.localRefusal == Or(e.note.localRefusal, now.localRefusal)
        && next.lookup == Or(e.note.lookup, now.lookup)
        && next.(accepted := now.accepted, send := now.send, localRefusal := now.localRefusal,
                 lookup := now.lookup) == now
      else next.accepted == now.accepted && next.send == now.send && next.localRefusal == now.localRefusal
  {
    if !e.Observed? { NotNoted(now, e); }
    hide AddressedBy;
  }

  lemma NotNoted(now: Record, e: Event)
    requires !e.Observed?
    ensures var next := Apply(now, e);
      next.accepted == now.accepted && next.send == now.send && next.localRefusal == now.localRefusal
  {
    hide Judge, Combined, ReceiptMatches, IsOperationId, AddressedBy;
  }

  /** Over every run the last note of each kind stands, whatever the host reports. */
  lemma {:induction false} RunNotes(r: Record, events: seq<Event>)
    ensures var now := ApplyRun(r, events);
      && now.accepted == Or(LastNoted(r, events, (n: LocalNote) => n.accepted), r.accepted)
      && now.send == Or(LastNoted(r, events, (n: LocalNote) => n.send), r.send)
      && now.localRefusal == Or(LastNoted(r, events, (n: LocalNote) => n.localRefusal), r.localRefusal)
  {
    if events != [] {
      var init, last := events[..|events| - 1], events[|events| - 1];
      RunNotes(r, init);
      RunAdvances(r, init);
      NoteStep(ApplyRun(r, init), last);
      hide Apply;
    }
  }
}
