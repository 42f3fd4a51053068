/** One retained record per operation, merged from status replies and live
    receipts that arrive late, twice or out of order (web/src/pending-commands.ts). */
module Ledger {
  import opened JsMap
  import opened OperationId
  import opened HostCommands

  datatype Submission = Submission(operationId: string, command: Command)

  datatype Authority = Local | Legacy | ByStatus | ByReceipt

  datatype Lookup = Unavailable(reason: string) | LookupError(reason: string)

  datatype Record = Record(
    hostRun: string, submission: Submission, authority: Authority, state: State,
    receipt: Option<Receipt>, envelopeId: Option<string>, inputObservation: Option<Observation>,
    accepted: Option<bool>, send: Option<string>, lookup: Option<Lookup>, localRefusal: Option<string>,
    issues: seq<string>)

  datatype Key = Key(hostRun: string, operation: string)

  function OperationKey(r: Record): Key { Key(r.hostRun, Canonical(r.submission.operationId)) }

  predicate Authoritative(r: Record) { r.authority.ByStatus? || r.authority.ByReceipt? }

  predicate IsSettled(r: Record) { Authoritative(r) && Settling(r.state) }

  predicate NeedsLookup(r: Record) {
    || r.authority.Local? || r.authority.Legacy?
    || r.state.Queued? || r.state.Dispatching?
    || (r.state.InputAdmitted? && !(r.inputObservation.Some? && r.inputObservation.value.Included?))
  }

  function Issue(r: Record, message: string): Record {
    if message in r.issues then r else r.(issues := r.issues + [message])
  }

  predicate ReceiptMatches(r: Record, receipt: Receipt) {
    && IsOperationId(receipt.commandId)
    && Canonical(receipt.commandId) == Canonical(r.submission.operationId)
    && (receipt.target.Some? ==> receipt.target.value == r.submission.command.target)
    && var command := r.submission.command;
       match receipt.outcome
       case AccountSelectedOutcome(account) => command.SelectAccount? && command.accountId == account
       case ContinuationRefusedOutcome(block, _) => command.Recover? && SameInferenceBlock(command.expectedBlock, block)
       case RecoveryAuthorizedOutcome(block, mode, _) =>
         command.Recover? && command.mode == mode && SameInferenceBlock(command.expectedBlock, block)
       case AdmittedOutcome(_, _, _) => command.Input?
       case ControlRequestedOutcome(control) => if control.Interrupting? then command.Interrupt? else command.Retire?
       case RefusedOutcome(_) => true
       case UnconfirmedOutcome(_) => true
  }

  /** Why a receipt cannot stand beside the one already kept, if it cannot. */
  function ReceiptConflict(r: Record, kept: Receipt, receipt: Receipt): Option<string> {
    if !SameOutcomeKind(kept.outcome, receipt.outcome) then
      if IsSettled(r) then Some("Contradictory receipt outcome.") else None
    else match receipt.outcome
      case AdmittedOutcome(envelope, wake, continuation) =>
        if kept.outcome.envelopeId != envelope then Some("Contradictory admitted envelope identity.")
        else if kept.outcome.wakeError.Some? && wake.Some? && kept.outcome.wakeError != wake then
          Some("Contradictory admitted wake observations.")
        else if kept.outcome.continuation.Some? && continuation.Some?
          && !SameContinuation(kept.outcome.continuation.value, continuation.value) then
          Some("Contradictory continuation evidence.")
        else None
      case RecoveryAuthorizedOutcome(_, _, projection) =>
        if projection != kept.outcome.projection then Some("Contradictory recovery projection evidence.") else None
      case _ =>
        if ReasonOf(receipt.outcome).Some? && ReasonOf(kept.outcome).Some?
          && ReasonOf(receipt.outcome) != ReasonOf(kept.outcome) then Some("Contradictory handoff reasons.")
        else None
  }

  function Or<T>(first: Option<T>, second: Option<T>): Option<T> { if first.Some? then first else second }

  /** Two admitted receipts enrich each other; otherwise the newer one is kept. */
  function Combined(kept: Option<Receipt>, receipt: Option<Receipt>): Option<Receipt> {
    if receipt.None? then kept
    else if kept.Some? && kept.value.outcome.AdmittedOutcome? && receipt.value.outcome.AdmittedOutcome? then
      var earlier, newer := kept.value.outcome, receipt.value.outcome;
      Some(Receipt(receipt.value.commandId, Or(receipt.value.target, kept.value.target),
                   AdmittedOutcome(newer.envelopeId, Or(newer.wakeError, earlier.wakeError),
                                   Or(newer.continuation, earlier.continuation))))
    else receipt
  }

  function StateName(state: State): string {
    match state
    case Queued => "queued"
    case Dispatching => "dispatching"
    case Unconfirmed => "unconfirmed"
    case InputAdmitted => "input_admitted"
    case ControlRequested => "control_requested"
    case RecoveryAuthorized => "recovery_authorized"
    case AccountSelected => "account_selected"
    case Refused => "refused"
  }

  predicate Stale(r: Record, state: State) {
    Authoritative(r) && ((r.state.Dispatching? && state.Queued?)
                         || (r.state.Unconfirmed? && (state.Queued? || state.Dispatching?)))
  }

  datatype Verdict = Ignore | Complain(message: string) | Accept

  /** The checks of `mergeEvidence`, in their order. */
  function Judge(r: Record, state: State, receipt: Option<Receipt>, envelopeId: Option<string>): Verdict {
    if !ActionAllows(r.submission.command, state) then
      Complain("Observed handoff state contradicts this operation\U{2019}s action.")
    else if Stale(r, state) then Ignore
    else if receipt.Some? && !ReceiptMatches(r, receipt.value) then
      Complain("Observed receipt contradicts this operation\U{2019}s target or action.")
    else if receipt.Some? && ReceiptState(receipt.value) != state then
      Complain("Observed status and receipt report contradictory handoff outcomes.")
    else if IsSettled(r) && !Settling(state) then Ignore
    else if IsSettled(r) && r.state != state then
      Complain("Contradictory handoff evidence: retained " + StateName(r.state)
               + ", observed " + StateName(state) + ".")
    else if r.envelopeId.Some? && envelopeId.Some? && r.envelopeId != envelopeId then
      Complain("Contradictory admitted envelope identity.")
    else if r.receipt.Some? && receipt.Some? && ReceiptConflict(r, r.receipt.value, receipt.value).Some? then
      Complain(ReceiptConflict(r, r.receipt.value, receipt.value).value)
    else Accept
  }

  function Accepted(r: Record, state: State, authority: Authority, receipt: Option<Receipt>,
                    envelopeId: Option<string>): Record {
    r.(state := state, authority := authority, receipt := Combined(r.receipt, receipt),
       envelopeId := Or(envelopeId, r.envelopeId), lookup := None)
  }

  function MergeEvidence(r: Record, state: State, authority: Authority, receipt: Option<Receipt>,
                         envelopeId: Option<string>): Record {
    match Judge(r, state, receipt, envelopeId)
    case Ignore => r
    case Complain(message) => Issue(r, message)
    case Accept => Accepted(r, state, authority, receipt, envelopeId)
  }

  predicate AddressedBy(r: Record, hostRun: string, operationId: string) {
    r.hostRun == hostRun && Canonical(r.submission.operationId) == Canonical(operationId)
  }

  function MergeStatus(r: Record, status: Status): Record {
    WithObservation(r, MergeEvidence(r, status.state, ByStatus, status.receipt, status.envelopeId), status)
  }

  /** An inclusion is kept; any other observation of the same input is replaced. */
  function WithObservation(r: Record, merged: Record, status: Status): Record {
    if status.inputObservation.None? || !merged.state.InputAdmitted? || !status.state.InputAdmitted?
      || merged.envelopeId != status.envelopeId then merged
    else if r.inputObservation.Some? && r.inputObservation.value.Included? then
      if status.inputObservation.value.Included? && r.inputObservation != status.inputObservation
      then Issue(merged, "Contradictory input request inclusion identity.") else merged
    else merged.(inputObservation := status.inputObservation)
  }

  /** A receipt without target is ambiguous across runs and changes nothing. */
  function MergeReceipt(r: Record, receipt: Receipt): Record {
    if receipt.target.None? || !IsOperationId(receipt.commandId) || !ReceiptMatches(r, receipt) then r
    else MergeEvidence(r, ReceiptState(receipt), ByReceipt, Some(receipt), None)
  }

  datatype LocalNote = LocalNote(accepted: Option<bool>, send: Option<string>, lookup: Option<Lookup>,
                                 localRefusal: Option<string>)

  function Noted(r: Record, note: LocalNote): Record {
    r.(accepted := Or(note.accepted, r.accepted), send := Or(note.send, r.send),
       lookup := Or(note.lookup, r.lookup), localRefusal := Or(note.localRefusal, r.localRefusal))
  }

  // ------------------------------------------------------ whole ledgers

  datatype Event =
    | StatusReply(hostRun: string, status: Status)
    | LiveReceipt(receipt: Receipt)
    | Observed(hostRun: string, operationId: string, note: LocalNote)

  /** The effect of one event on one record. */
  function Apply(r: Record, event: Event): Record {
    match event
    case StatusReply(hostRun, status) => if AddressedBy(r, hostRun, status.operationId) then MergeStatus(r, status)
      else r
    case LiveReceipt(receipt) => MergeReceipt(r, receipt)
    case Observed(hostRun, operationId, note) => if AddressedBy(r, hostRun, operationId) then Noted(r, note) else r
  }

  function ApplyRun(r: Record, events: seq<Event>): Record {
    if events == [] then r else Apply(ApplyRun(r, events[..|events| - 1]), events[|events| - 1])
  }

  datatype Result<+T> = Ok(value: T) | Err(message: string)

  function MapRecords(records: seq<Record>, event: Event): (next: seq<Record>)
    ensures |next| == |records| && forall i :: 0 <= i < |next| ==> next[i] == Apply(records[i], event)
  {
    seq(|records|, i requires 0 <= i < |records| => Apply(records[i], event))
  }

  predicate StatusContradicted(records: seq<Record>, hostRun: string, status: Status) {
    exists i :: 0 <= i < |records| && AddressedBy(records[i], hostRun, status.operationId)
      && !SameHostCommand(records[i].submission.command, status.command)
  }

  /** A status about another command is refused before any record changes. */
  function ApplyEvent(records: seq<Record>, event: Event): Result<seq<Record>> {
    if event.StatusReply? && StatusContradicted(records, event.hostRun, event.status)
    then Err("The retained status does not match this operation\U{2019}s exact target and contents.")
    else Ok(MapRecords(records, event))
  }
}
