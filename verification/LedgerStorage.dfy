/** Persisting the ledger in session storage (web/src/pending-commands.ts).
    JSON text is taken as the value it denotes; a row that is no record at all
    stays as its text. */
module LedgerStorage {
  import opened JsMap
  import opened OperationId
  import opened HostCommands
  import opened Ledger
  import opened LedgerRetention

  // ------------------------------------------------------------- retain

  function FreshRecord(hostRun: string, submission: Submission): Record {
    Record(hostRun, submission, Local, Queued, None, None, None, None, None, None, None, [])
  }

  predicate Addressable(hostRun: string, submission: Submission) {
    IsOperationId(submission.operationId) && IsHostCommand(submission.command)
      && submission.command.target.run == hostRun
  }

  function FindRecord(records: seq<Record>, key: Key): Option<Record> {
    if records == [] then None
    else if OperationKey(records[0]) == key then Some(records[0])
    else FindRecord(records[1..], key)
  }

  function RetainCommand(records: seq<Record>, hostRun: string, submission: Submission): Result<seq<Record>> {
    if !Addressable(hostRun, submission) then
      Err("The operation must address the current exact host run with valid identities.")
    else
      var made := FreshRecord(hostRun, submission);
      match FindRecord(records, OperationKey(made))
      case Some(existing) =>
        if SameHostCommand(existing.submission.command, submission.command) then Ok(records)
        else Err("The operation ID is already retained with different contents.")
      case None => Ok(Compact(records + [made]))
  }

  lemma {:induction false} FindExact(records: seq<Record>, key: Key)
    ensures FindRecord(records, key).Some? ==>
      FindRecord(records, key).value in records && OperationKey(FindRecord(records, key).value) == key
    ensures FindRecord(records, key).None? ==> forall r :: r in records ==> OperationKey(r) != key
  {
    if records != [] { FindExact(records[1..], key); }
  }

  lemma AppendUnique(records: seq<Record>, r: Record)
    requires UniqueKeys(records) && forall x :: x in records ==> OperationKey(x) != OperationKey(r)
    ensures UniqueKeys(records + [r])
  {
    hide OperationKey;
    var all := records + [r];
    forall i, j | 0 <= i < j < |all| ensures OperationKey(all[i]) != OperationKey(all[j]) {
      assert all[i] == records[i] && all[i] in records;
    }
  }

  /** The same operation with other contents. */
  predicate Edited(kept: Record, made: Record) {
    OperationKey(kept) == OperationKey(made) && !SameHostCommand(kept.submission.command, made.submission.command)
  }

  /** Retaining keeps one record per operation, adds the new one as a local hint,
      and drops no unresolved one; an edited payload under a known id is refused. */
  lemma RetainKeeps(records: seq<Record>, hostRun: string, submission: Submission)
    requires UniqueKeys(records)
    ensures var r, made := RetainCommand(records, hostRun, submission), FreshRecord(hostRun, submission);
      && (r.Ok? ==> UniqueKeys(r.value) && OperationKey(made) in Keys(r.value))
      && (r.Ok? ==> forall x :: x in records && !IsSettled(x) ==> x in r.value)
      && (r.Ok? ==> forall x :: x in r.value ==> x in records || x == made)
      && (r.Err? <==>
           || !IsOperationId(submission.operationId) || !IsHostCommand(submission.command)
           || submission.command.target.run != hostRun || exists x :: x in records && Edited(x, made))
      && (r.Ok? && OperationKey(made) in Keys(records) ==> r.value == records)
      && (r.Ok? && OperationKey(made) !in Keys(records) ==> r.value != [] && r.value[|r.value| - 1] == made)
  {
    hide Compact, OperationKey, SameHostCommand, IsSettled;
    var made := FreshRecord(hostRun, submission);
    var key, all := OperationKey(made), records + [made];
    FindExact(records, key);
    if Addressable(hostRun, submission) {
      if FindRecord(records, key).None? {
        AppendUnique(records, made);
        CompactSubset(all);
        forall x | x in all && !IsSettled(x) ensures x in Compact(all) { CompactKeepsUnresolved(all, x); }
        FreshUnresolved(hostRun, submission);
        assert made in all;
        CompactLast(records, made);
      } else {
        UniqueHolder(records, FindRecord(records, key).value);
      }
    }
  }

  lemma FreshUnresolved(hostRun: string, submission: Submission)
    ensures !IsSettled(FreshRecord(hostRun, submission))
  {
  }

  lemma UniqueHolder(records: seq<Record>, holder: Record)
    requires UniqueKeys(records) && holder in records
    ensures forall x :: x in records && OperationKey(x) == OperationKey(holder) ==> x == holder
  {
    hide OperationKey;
    var i :| 0 <= i < |records| && records[i] == holder;
    forall x | x in records && OperationKey(x) == OperationKey(holder) ensures x == holder {
      var j :| 0 <= j < |records| && records[j] == x;
    }
  }

  // ------------------------------------------------------------- decode

  datatype Row = Row(record: Record) | Malformed(text: string)

  /** Association of a status record's parts, client policy on top of its shape. */
  predicate EmbeddedOk(operationId: string, command: Command, state: State, envelopeId: Option<string>,
                       receipt: Option<Receipt>, observation: Option<Observation>) {
    && IsHostCommand(command) && ActionAllows(command, state)
    && (observation.Some? ==>
         state.InputAdmitted? && command.Input? && envelopeId.Some?
         && (observation.value.Included? ==> observation.value.request != ""))
    && (receipt.Some? ==>
         && IsOperationId(receipt.value.commandId) && Canonical(receipt.value.commandId) == Canonical(operationId)
         && (receipt.value.target.Some? ==> receipt.value.target.value == command.target)
         && OutcomeOk(receipt.value, command, state, envelopeId))
  }

  predicate OutcomeOk(receipt: Receipt, command: Command, state: State, envelopeId: Option<string>) {
    match receipt.outcome
    case AccountSelectedOutcome(account) => state.AccountSelected? && command.SelectAccount?
      && command.accountId == account
    case RecoveryAuthorizedOutcome(block, mode, _) =>
      state.RecoveryAuthorized? && command.Recover? && receipt.target == Some(command.target)
      && command.mode == mode && SameInferenceBlock(command.expectedBlock, block)
    case AdmittedOutcome(envelope, _, _) =>
      state.InputAdmitted? && command.Input? && (envelopeId.None? || envelopeId.value == envelope)
    case ControlRequestedOutcome(control) =>
      state.ControlRequested? && (if control.Interrupting? then command.Interrupt? else command.Retire?)
    case ContinuationRefusedOutcome(block, _) =>
      state.Refused? && command.Recover? && SameInferenceBlock(command.expectedBlock, block)
    case RefusedOutcome(_) => state.Refused?
    case UnconfirmedOutcome(_) => state.Unconfirmed?
  }

  predicate ObservationOk(r: Record) {
    r.inputObservation.Some? ==>
      Authoritative(r) && EmbeddedOk(Canonical(r.submission.operationId), r.submission.command, r.state,
                                     r.envelopeId, r.receipt, r.inputObservation)
  }

  /** The extra checks on records that claim host authority. */
  predicate AuthorityOk(r: Record) {
    && ActionAllows(r.submission.command, r.state)
    && (r.authority.ByReceipt? ==> r.receipt.Some? && r.receipt.value.target.Some?)
    && (r.receipt.Some? ==> ReceiptMatches(r, r.receipt.value) && ReceiptState(r.receipt.value) == r.state)
    && (r.receipt.Some? && r.receipt.value.outcome.AdmittedOutcome? && r.envelopeId.Some? ==>
         r.envelopeId.value == r.receipt.value.outcome.envelopeId)
  }

  function DecodeRecord(row: Row, legacy: bool): Option<Record> {
    if row.Malformed? then None
    else
      var r := row.record;
      if !Addressable(r.hostRun, r.submission) || !ObservationOk(r) then None
      else if legacy then Some(r.(authority := Legacy))
      else if Authoritative(r) && !AuthorityOk(r) then None
      else Some(r)
  }

  predicate Decodable(r: Record) { DecodeRecord(Row(r), false) == Some(r) }

  // --------------------------------------------------------------- read

  datatype Source = V1 | V2

  /** Quarantined content keeps its source and the original row or text. */
  datatype Quarantined =
    | BadRow(source: Source, row: Row)
    | Conflicting(source: Source, row: Row)
    | BadText(source: Source, text: string)

  datatype Slot =
    | Denied
    | Absent
    | Garbled(text: string)
    | Rows(rows: seq<Row>, legacyImported: bool, quarantine: seq<Quarantined>)

  datatype Storage = Storage(v2: Slot, v1: Slot)

  datatype Loaded = Loaded(records: seq<Record>, quarantine: seq<Quarantined>)

  const CONFLICT := "A stored operation ID has contradictory original contents."

  function IndexOf(records: seq<Record>, key: Key): (i: int)
    ensures -1 <= i < |records|
    ensures i >= 0 ==> OperationKey(records[i]) == key
  {
    if records == [] then -1
    else if OperationKey(records[0]) == key then 0
    else var i := IndexOf(records[1..], key); if i < 0 then -1 else i + 1
  }

  function ReadRow(into: Loaded, row: Row, source: Source): Loaded {
    match DecodeRecord(row, source.V1?)
    case None => into.(quarantine := into.quarantine + [BadRow(source, row)])
    case Some(record) =>
      var i := IndexOf(into.records, OperationKey(record));
      if i < 0 then into.(records := into.records + [record])
      else if SameHostCommand(into.records[i].submission.command, record.submission.command) then into
      else Loaded(into.records[i := Issue(into.records[i], CONFLICT)], into.quarantine + [Conflicting(source, row)])
  }

  function ReadRows(into: Loaded, rows: seq<Row>, source: Source): Loaded {
    if rows == [] then into else ReadRow(ReadRows(into, rows[..|rows| - 1], source), rows[|rows| - 1], source)
  }

  predicate Available(storage: Storage) { !storage.v2.Denied? && !storage.v1.Denied? }

  function ReadSlot(into: Loaded, slot: Slot, source: Source): Loaded {
    match slot
    case Denied => into
    case Absent => into
    case Garbled(text) => into.(quarantine := into.quarantine + [BadText(source, text)])
    case Rows(rows, _, quarantine) =>
      ReadRows(if source.V2? then into.(quarantine := into.quarantine + quarantine) else into, rows, source)
  }

  function ReadLedger(storage: Storage): Loaded {
    var current := ReadSlot(Loaded([], []), storage.v2, V2);
    if storage.v2.Rows? && storage.v2.legacyImported then current else ReadSlot(current, storage.v1, V1)
  }

  /** The row loop of `readCommandLedger`, filling its two arrays in place. */
  method LoadRows(into: Loaded, rows: seq<Row>, source: Source) returns (loaded: Loaded)
    ensures loaded == ReadRows(into, rows, source)
  {
    var records, quarantine := into.records, into.quarantine;
    for n := 0 to |rows|
      invariant Loaded(records, quarantine) == ReadRows(into, rows[..n], source)
    {
      var row := rows[n];
      assert rows[..n + 1][..n] == rows[..n] && rows[..n + 1][n] == row;
      var decoded := DecodeRecord(row, source.V1?);
      if decoded.None? {
        quarantine := quarantine + [BadRow(source, row)];
        continue;
      }
      var record := decoded.value;
      var existing := IndexOf(records, OperationKey(record));
      if existing < 0 {
        records := records + [record];
      } else if !SameHostCommand(records[existing].submission.command, record.submission.command) {
        records := records[existing := Issue(records[existing], CONFLICT)];
        quarantine := quarantine + [Conflicting(source, row)];
      }
    }
    assert rows[..|rows|] == rows;
    loaded := Loaded(records, quarantine);
  }

  // -------------------------------------------------------------- write

  function DistinctOnly(quarantine: seq<Quarantined>): seq<Quarantined> {
    if quarantine == [] then []
    else
      var init, last := DistinctOnly(quarantine[..|quarantine| - 1]), quarantine[|quarantine| - 1];
      if last in quarantine[..|quarantine| - 1] then init else init + [last]
  }

  function Retained(storage: Storage, records: seq<Record>): seq<Record> {
    Compact(Without(ReadLedger(storage).records, Keys(records)) + records)
  }

  /** Unreadable storage is left as it is; the old `v1` slot is never touched. */
  function WritePending(storage: Storage, records: seq<Record>): Result<Storage> {
    if !Available(storage) then Err("Retained operations could not be read; their existing data was preserved.")
    else
      var rows :=
        seq(|Retained(storage, records)|,
            i requires 0 <= i < |Retained(storage, records)| => Row(Retained(storage, records)[i]));
      Ok(storage.(v2 := Rows(rows, true, DistinctOnly(ReadLedger(storage).quarantine))))
  }
}
