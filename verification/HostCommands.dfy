/** Host commands, receipts and status records (web/src/protocol.ts). */
module HostCommands {
  import opened JsMap
  import opened OperationId

  datatype Identity = Identity(run: string, actor: string, incarnation: string)

  datatype Diagnostic = Diagnostic(code: Option<string>, errorType: Option<string>,
                                   param: Option<string>, message: Option<string>)

  datatype Rejection =
    | Authentication
    | CredentialUnavailable(route: string, reason: string)
    | ProviderAuthentication(route: string)
    | Http(status: nat, diagnostic: Option<Diagnostic>)

  datatype BlockReason =
    | StreamInterrupted(cause: string)
    | ProviderStreamFailure(event: string, streamDiagnostic: Option<Diagnostic>)
    | RequestRejected(failure: Rejection)
    | ResponseIncomplete(responseId: Option<string>, incomplete: Option<string>)
    | ContinuityUnproven
    | HostInterrupted

  datatype Block = Block(request: string, generation: string, continuationRefusal: Option<string>, reason: BlockReason)

  datatype Control = Interrupting | Retiring

  datatype Command =
    | SelectAccount(target: Identity, accountId: string)
    | Input(target: Identity, text: string)
    | Interrupt(target: Identity, expectedRound: string)
    | Recover(target: Identity, mode: string, expectedBlock: Block)
    | Retire(target: Identity)

  datatype Continuation =
    | ContinuationQueued
    | ContinuationGranted(block: Block)
    | ContinuationRefusedFor(block: Block, refusal: string)

  datatype Projection = Projection(omitted: seq<string>, unknownResponseCompleteness: seq<string>)

  datatype Outcome =
    | AccountSelectedOutcome(accountId: string)
    | RecoveryAuthorizedOutcome(block: Block, mode: string, projection: Projection)
    | ContinuationRefusedOutcome(block: Block, reason: string)
    | AdmittedOutcome(envelopeId: string, wakeError: Option<string>, continuation: Option<Continuation>)
    | ControlRequestedOutcome(control: Control)
    | UnconfirmedOutcome(reason: string)
    | RefusedOutcome(reason: string)

  datatype Receipt = Receipt(commandId: string, target: Option<Identity>, outcome: Outcome)

  datatype State =
    | Queued | Dispatching | Unconfirmed
    | InputAdmitted | ControlRequested | RecoveryAuthorized | AccountSelected | Refused

  datatype Observation = NotIncluded | Included(request: string)

  datatype Status = Status(operationId: string, command: Command, state: State,
                           receipt: Option<Receipt>, envelopeId: Option<string>, inputObservation: Option<Observation>)

  predicate IsHostIdentity(id: Identity) { id.run != "" && id.actor != "" && id.incarnation != "" }

  /** Shapes and diagnostic bounds are the generated validator's business. */
  predicate IsHostCommand(command: Command) {
    && IsHostIdentity(command.target)
    && (command.Interrupt? ==> IsOperationId(command.expectedRound))
    && (command.Recover? ==> command.expectedBlock.request != "")
  }

  // -------------------------------------------------------- comparisons

  predicate SameDiagnostic(x: Option<Diagnostic>, y: Option<Diagnostic>) {
    if x.None? || y.None? then x.None? && y.None?
    else
      && x.value.code == y.value.code && x.value.errorType == y.value.errorType
      && x.value.param == y.value.param && x.value.message == y.value.message
  }

  predicate SameRejection(a: Rejection, b: Rejection) {
    match a
    case Authentication => b.Authentication?
    case CredentialUnavailable(route, reason) => b.CredentialUnavailable? && route == b.route && reason == b.reason
    case ProviderAuthentication(route) => b.ProviderAuthentication? && route == b.route
    case Http(status, diagnostic) => b.Http? && status == b.status && SameDiagnostic(diagnostic, b.diagnostic)
  }

  predicate SameReason(a: BlockReason, b: BlockReason) {
    match a
    case StreamInterrupted(cause) => b.StreamInterrupted? && cause == b.cause
    case ProviderStreamFailure(event, diagnostic) =>
      b.ProviderStreamFailure? && event == b.event && SameDiagnostic(diagnostic, b.streamDiagnostic)
    case RequestRejected(failure) => b.RequestRejected? && SameRejection(failure, b.failure)
    case ResponseIncomplete(id, incomplete) => b.ResponseIncomplete? && id == b.responseId && incomplete == b.incomplete
    case ContinuityUnproven => b.ContinuityUnproven?
    case HostInterrupted => b.HostInterrupted?
  }

  /** Field by field this is equality of blocks. */
  predicate SameInferenceBlock(left: Block, right: Block)
    ensures SameInferenceBlock(left, right) <==> left == right
  {
    && left.request == right.request && left.generation == right.generation
    && left.continuationRefusal == right.continuationRefusal
    && SameReason(left.reason, right.reason)
  }

  predicate SameHostCommand(left: Command, right: Command) {
    left.target == right.target &&
    match left
    case SelectAccount(_, account) => right.SelectAccount? && account == right.accountId
    case Input(_, text) => right.Input? && text == right.text
    case Interrupt(_, round) => right.Interrupt? && Canonical(round) == Canonical(right.expectedRound)
    case Recover(_, mode, block) => right.Recover? && mode == right.mode
      && SameInferenceBlock(block, right.expectedBlock)
    case Retire(_) => right.Retire?
  }

  predicate SameContinuation(left: Continuation, right: Continuation) {
    match left
    case ContinuationQueued => right.ContinuationQueued?
    case ContinuationGranted(block) => right.ContinuationGranted? && SameInferenceBlock(block, right.block)
    case ContinuationRefusedFor(block, refusal) =>
      right.ContinuationRefusedFor? && SameInferenceBlock(block, right.block) && refusal == right.refusal
  }

  /** Comparing commands is an equivalence, so any of several reports of one
      operation may be the one that was kept. */
  lemma SameHostCommandEquivalence(a: Command, b: Command, c: Command)
    ensures SameHostCommand(a, a)
    ensures SameHostCommand(a, b) ==> SameHostCommand(b, a)
    ensures SameHostCommand(a, b) && SameHostCommand(b, c) ==> SameHostCommand(a, c)
  {
  }

  /** Commands compare equal exactly if they are, but for the spelling of a round. */
  lemma SameHostCommandExact(a: Command, b: Command)
    ensures SameHostCommand(a, b) <==>
      || a == b
      || (a.Interrupt? && b.Interrupt? && a.target == b.target
          && Canonical(a.expectedRound) == Canonical(b.expectedRound))
  {
    hide Canonical, SameInferenceBlock;
    if a.Recover? && b.Recover? { SameBlockIsEqual(a.expectedBlock, b.expectedBlock); }
  }

  lemma SameBlockIsEqual(a: Block, b: Block)
    ensures SameInferenceBlock(a, b) <==> a == b
  {
  }

  predicate Settling(state: State) {
    state.InputAdmitted? || state.ControlRequested? || state.RecoveryAuthorized? || state.AccountSelected?
      || state.Refused?
  }

  /** A state an operation with this action can report. */
  predicate ActionAllows(command: Command, state: State) {
    && (state.InputAdmitted? ==> command.Input?)
    && (state.ControlRequested? ==> command.Interrupt? || command.Retire?)
    && (state.AccountSelected? ==> command.SelectAccount?)
    && (state.RecoveryAuthorized? ==> command.Recover?)
  }

  function ReceiptState(receipt: Receipt): State {
    match receipt.outcome
    case AccountSelectedOutcome(_) => AccountSelected
    case RecoveryAuthorizedOutcome(_, _, _) => RecoveryAuthorized
    case AdmittedOutcome(_, _, _) => InputAdmitted
    case ControlRequestedOutcome(_) => ControlRequested
    case ContinuationRefusedOutcome(_, _) => Refused
    case RefusedOutcome(_) => Refused
    case UnconfirmedOutcome(_) => Unconfirmed
  }

  predicate SameOutcomeKind(a: Outcome, b: Outcome) {
    || (a.AccountSelectedOutcome? && b.AccountSelectedOutcome?)
    || (a.RecoveryAuthorizedOutcome? && b.RecoveryAuthorizedOutcome?)
    || (a.ContinuationRefusedOutcome? && b.ContinuationRefusedOutcome?)
    || (a.AdmittedOutcome? && b.AdmittedOutcome?)
    || (a.ControlRequestedOutcome? && b.ControlRequestedOutcome?)
    || (a.UnconfirmedOutcome? && b.UnconfirmedOutcome?)
    || (a.RefusedOutcome? && b.RefusedOutcome?)
  }

  function ReasonOf(outcome: Outcome): Option<string> {
    match outcome
    case ContinuationRefusedOutcome(_, reason) => Some(reason)
    case UnconfirmedOutcome(reason) => Some(reason)
    case RefusedOutcome(reason) => Some(reason)
    case _ => None
  }
}
