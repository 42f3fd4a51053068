/** The ledger in memory beside its stored copy, over whole runs of submitting,
    observing, saving and reloading (web/src/pending-commands.ts). */
module LedgerSystem {
  import opened JsMap
  import opened OperationId
  import opened HostCommands
  import opened Ledger
  import opened LedgerRuns
  import opened LedgerRetention
  import opened LedgerStorage

  // ------------------------------------------- records that stay readable

  /** What the records of a ledger have whose hints carry no host evidence. */
  ghost predicate Plain(r: Record) {
    && Addressable(r.hostRun, r.submission)
    && (Authoritative(r) ==> ActionAllows(r.submission.command, r.state))
    && (r.receipt.Some? ==>
         && Authoritative(r) && ReceiptMatches(r, r.receipt.value)
         && (!IsSettled(r) ==> r.receipt.value.outcome.UnconfirmedOutcome? && r.state.Unconfirmed?))
    && (r.authority.ByReceipt? ==> r.receipt.Some? && r.receipt.value.target.Some?)
    && ObservationPlain(r)
  }

  ghost predicate ObservationPlain(r: Record) {
    r.inputObservation.Some? ==>
      && IsSettled(r) && r.state.InputAdmitted? && r.envelopeId.Some?
      && (r.inputObservation.value.Included? ==> r.inputObservation.value.request != "")
  }

  /** The kept receipt, if any, is about this operation and reports its state. */
  predicate ReceiptSupports(r: Record) {
    && (r.receipt.Some? ==> ReceiptMatches(r, r.receipt.value) && ReceiptState(r.receipt.value) == r.state)
    && (r.authority.ByReceipt? ==> r.receipt.Some? && r.receipt.value.target.Some?)
  }

  /** Exactly when an unresolved record survives a reload as it was written. */
  lemma UnresolvedDecodableExact(r: Record)
    requires !IsSettled(r)
    ensures Decodable(r) <==>
      Addressable(r.hostRun, r.submission) && r.inputObservation.None? && (Authoritative(r) ==> ReceiptSupports(r))
  {
    hide ReceiptMatches, IsOperationId, Canonical, IsHostCommand, OutcomeOk;
  }

  lemma UnresolvedDecodable(r: Record)
    requires Plain(r) && !IsSettled(r)
    ensures Decodable(r)
  {
    UnresolvedDecodableExact(r);
    hide ReceiptMatches, IsOperationId, Canonical, Decodable, Addressable;
  }

  predicate ValidEvent(event: Event) {
    match event
    case StatusReply(_, s) =>
      IsOperationId(s.operationId)
        && EmbeddedOk(s.operationId, s.command, s.state, s.envelopeId, s.receipt, s.inputObservation)
    case LiveReceipt(_) => true
    case Observed(_, _, _) => true
  }

  /** The status, if addressed here, is about this very command. */
  predicate NotContradicted(r: Record, event: Event) {
    event.StatusReply? && AddressedBy(r, event.hostRun, event.status.operationId) ==>
      SameHostCommand(r.submission.command, event.status.command)
  }

  lemma CombinedMatches(r: Record, kept: Option<Receipt>, receipt: Option<Receipt>)
    requires kept.Some? ==> ReceiptMatches(r, kept.value)
    requires receipt.Some? ==> ReceiptMatches(r, receipt.value)
    ensures Combined(kept, receipt).Some? ==> ReceiptMatches(r, Combined(kept, receipt).value)
    ensures receipt.Some? && receipt.value.target.Some? ==> Combined(kept, receipt).value.target.Some?
  {
    hide IsOperationId, Canonical;
  }

  lemma MatchesSame(a: Record, b: Record, receipt: Receipt)
    requires a.submission == b.submission
    ensures ReceiptMatches(a, receipt) == ReceiptMatches(b, receipt)
  {
  }

  lemma JudgedMatching(r: Record, state: State, receipt: Option<Receipt>, envelopeId: Option<string>)
    requires Judge(r, state, receipt, envelopeId).Accept?
    ensures ActionAllows(r.submission.command, state)
    ensures receipt.Some? ==> ReceiptMatches(r, receipt.value)
    ensures IsSettled(r) ==> Settling(state)
  {
    hide ReceiptConflict;
  }

  lemma MergePlain(r: Record, state: State, authority: Authority, receipt: Option<Receipt>, envelopeId: Option<string>)
    requires Plain(r) && (authority.ByStatus? || (authority.ByReceipt? && receipt.Some? && receipt.value.target.Some?))
    ensures Plain(MergeEvidence(r, state, authority, receipt, envelopeId))
  {
    hide Judge, ReceiptMatches, ActionAllows, Addressable, ReceiptConflict;
    match Judge(r, state, receipt, envelopeId)
    case Ignore =>
    case Complain(message) =>
      if r.receipt.Some? { MatchesSame(r, Issue(r, message), r.receipt.value); }
    case Accept =>
      AcceptedFacts(r, state, receipt, envelopeId);
      JudgedMatching(r, state, receipt, envelopeId);
      CombinedMatches(r, r.receipt, receipt);
      var m := Accepted(r, state, authority, receipt, envelopeId);
      if m.receipt.Some? { MatchesSame(r, m, m.receipt.value); }
  }

  /** A well-associated status about this command passes every check but the
      envelope's on a record without authority. */
  lemma StatusFits(r: Record, s: Status)
    requires EmbeddedOk(s.operationId, s.command, s.state, s.envelopeId, s.receipt, s.inputObservation)
    requires SameHostCommand(r.submission.command, s.command)
    requires Canonical(r.submission.operationId) == Canonical(s.operationId)
    ensures ActionAllows(r.submission.command, s.state)
    ensures s.receipt.Some? ==> ReceiptMatches(r, s.receipt.value) && ReceiptState(s.receipt.value) == s.state
  {
    hide IsOperationId, Canonical, SameInferenceBlock;
  }

  lemma AcceptsPlainHint(r: Record, s: Status)
    requires !Authoritative(r) && r.receipt.None?
    requires ActionAllows(r.submission.command, s.state)
    requires s.receipt.Some? ==> ReceiptMatches(r, s.receipt.value) && ReceiptState(s.receipt.value) == s.state
    ensures Judge(r, s.state, s.receipt, s.envelopeId).Accept? || OtherEnvelope(r.envelopeId, s.envelopeId)
  {
    hide ReceiptMatches, ActionAllows;
  }

  /** The merged record is plain, and if it can take the observation settled. */
  lemma EvidenceStays(r: Record, s: Status, m: Record)
    requires Plain(r) && SameHostCommand(r.submission.command, s.command)
    requires EmbeddedOk(s.operationId, s.command, s.state, s.envelopeId, s.receipt, s.inputObservation)
    requires Canonical(r.submission.operationId) == Canonical(s.operationId)
    requires m == MergeEvidence(r, s.state, ByStatus, s.receipt, s.envelopeId)
    ensures Plain(m)
    ensures s.state.InputAdmitted? && s.envelopeId.Some? && m.envelopeId == s.envelopeId ==> Authoritative(m)
  {
    hide Plain, ReceiptMatches, Addressable, IsOperationId, Canonical, SameHostCommand, OutcomeOk, EmbeddedOk;
    MergePlain(r, s.state, ByStatus, s.receipt, s.envelopeId);
    if !Authoritative(r) {
      StatusFits(r, s);
      HintWithoutReceipt(r);
      AcceptsPlainHint(r, s);
    }
  }

  lemma HintWithoutReceipt(r: Record)
    requires Plain(r) && !Authoritative(r)
    ensures r.receipt.None?
  {
  }

  lemma ObservationStays(r: Record, s: Status)
    requires Plain(r) && SameHostCommand(r.submission.command, s.command)
    requires EmbeddedOk(s.operationId, s.command, s.state, s.envelopeId, s.receipt, s.inputObservation)
    requires Canonical(r.submission.operationId) == Canonical(s.operationId)
    ensures Plain(MergeStatus(r, s))
  {
    var m := MergeEvidence(r, s.state, ByStatus, s.receipt, s.envelopeId);
    EvidenceStays(r, s, m);
    ObservationFits(s);
    hide MergeEvidence, Plain, EmbeddedOk;
    ObservedPlain(r, m, s);
  }

  lemma ObservationFits(s: Status)
    requires EmbeddedOk(s.operationId, s.command, s.state, s.envelopeId, s.receipt, s.inputObservation)
    ensures s.inputObservation.Some? && s.state.InputAdmitted? ==> s.envelopeId.Some?
    ensures s.inputObservation.Some? && s.inputObservation.value.Included? ==> s.inputObservation.value.request != ""
  {
  }

  lemma ObservedPlain(r: Record, m: Record, s: Status)
    requires Plain(m)
    requires s.state.InputAdmitted? && s.envelopeId.Some? && m.envelopeId == s.envelopeId ==> Authoritative(m)
    requires s.inputObservation.Some? && s.state.InputAdmitted? ==> s.envelopeId.Some?
    requires s.inputObservation.Some? && s.inputObservation.value.Included? ==> s.inputObservation.value.request != ""
    ensures Plain(WithObservation(r, m, s))
  {
    hide ReceiptMatches, ActionAllows, Addressable;
    var next := WithObservation(r, m, s);
    if next.receipt.Some? { MatchesSame(m, next, next.receipt.value); }
  }

  lemma ApplyPlain(r: Record, event: Event)
    requires Plain(r) && ValidEvent(event) && NotContradicted(r, event)
    ensures Plain(Apply(r, event))
  {
    hide MergeStatus, MergeEvidence, ReceiptMatches, EmbeddedOk, IsOperationId, Canonical, SameHostCommand;
    match event
    case StatusReply(hostRun, s) =>
      if AddressedBy(r, hostRun, s.operationId) { ObservationStays(r, s); }
    case LiveReceipt(receipt) =>
      if receipt.target.Some? { MergePlain(r, ReceiptState(receipt), ByReceipt, Some(receipt), None); }
    case Observed(_, _, note) =>
      if r.receipt.Some? { MatchesSame(r, Noted(r, note), r.receipt.value); }
  }

  // ------------------------------------------------------ reading back

  function DecodableOf(records: seq<Record>): seq<Record> {
    if records == [] then []
    else
      var init, last := DecodableOf(records[..|records| - 1]), records[|records| - 1];
      if Decodable(last) then init + [last] else init
  }

  lemma {:induction false} DecodableMembers(records: seq<Record>)
    ensures forall r :: r in DecodableOf(records) ==> r in records && Decodable(r)
    ensures forall r :: r in records && Decodable(r) ==> r in DecodableOf(records)
  {
    if records != [] {
      hide Decodable;
      DecodableMembers(records[..|records| - 1]);
    }
  }

  lemma {:induction false} IndexExact(records: seq<Record>, key: Key)
    ensures IndexOf(records, key) < 0 <==> forall r :: r in records ==> OperationKey(r) != key
  {
    if records != [] {
      IndexExact(records[1..], key);
      assert forall r :: r in records <==> r == records[0] || r in records[1..];
    }
  }

  function RowsOf(records: seq<Record>): (rows: seq<Row>)
    ensures |rows| == |records| && forall i :: 0 <= i < |rows| ==> rows[i] == Row(records[i])
  {
    seq(|records|, i requires 0 <= i < |records| => Row(records[i]))
  }

  lemma ApartFromInit(records: seq<Record>)
    requires UniqueKeys(records) && records != []
    ensures UniqueKeys(records[..|records| - 1])
    ensures forall r :: r in records[..|records| - 1] ==> OperationKey(r) != OperationKey(records[|records| - 1])
  {
    hide OperationKey;
  }

  lemma ReadOneBack(into: Loaded, last: Record)
    requires forall r :: r in into.records ==> OperationKey(r) != OperationKey(last)
    ensures ReadRow(into, Row(last), V2).records == if Decodable(last) then into.records + [last] else into.records
  {
    hide OperationKey, SameHostCommand, Addressable, ObservationOk, AuthorityOk;
    IndexExact(into.records, OperationKey(last));
  }

  /** Reading what was written gives back exactly the records that decode, in
      order and unchanged. */
  lemma {:induction false} ReadBack(records: seq<Record>, quarantine: seq<Quarantined>)
    requires UniqueKeys(records)
    ensures ReadRows(Loaded([], quarantine), RowsOf(records), V2).records == DecodableOf(records)
  {
    if records != [] {
      hide Decodable, OperationKey, UniqueKeys, ReadRow;
      var init, last := records[..|records| - 1], records[|records| - 1];
      ApartFromInit(records);
      ReadBack(init, quarantine);
      assert RowsOf(records)[..|records| - 1] == RowsOf(init);
      DecodableMembers(init);
      ReadOneBack(ReadRows(Loaded([], quarantine), RowsOf(init), V2), last);
    }
  }

  // ------------------------------------------------- what storage shows

  function Visible(storage: Storage): seq<Record> { ReadLedger(storage).records }

  /** What decoding checks: a hint is taken on trust, host authority is not. */
  ghost predicate Vetted(r: Record) {
    Addressable(r.hostRun, r.submission) && (Authoritative(r) ==> AuthorityOk(r) && ObservationOk(r))
  }

  /** A hint without host evidence on it: no receipt and no observation. */
  predicate Bare(r: Record) { !Authoritative(r) ==> r.receipt.None? && r.inputObservation.None? }

  lemma DecodedVetted(row: Row, legacy: bool)
    requires DecodeRecord(row, legacy).Some?
    ensures Vetted(DecodeRecord(row, legacy).value)
  {
    hide Addressable, AuthorityOk, ReceiptMatches, EmbeddedOk;
  }

  lemma IssueVetted(r: Record, message: string)
    requires Vetted(r)
    ensures Vetted(Issue(r, message)) && OperationKey(Issue(r, message)) == OperationKey(r)
  {
    hide Addressable, ActionAllows, EmbeddedOk, ReceiptMatches;
    if r.receipt.Some? { MatchesSame(r, Issue(r, message), r.receipt.value); }
  }

  /** Among vetted records the plain ones are the bare ones. */
  lemma BareExact(r: Record)
    requires Vetted(r)
    ensures Plain(r) <==> Bare(r)
  {
    hide Addressable, ReceiptMatches, ActionAllows, IsOperationId, Canonical, IsHostCommand;
  }

  ghost predicate AllPlain(records: seq<Record>) { forall r :: r in records ==> Plain(r) }

  ghost predicate AllVetted(records: seq<Record>) { forall r :: r in records ==> Vetted(r) }

  /** What a caller can look for in a ledger just read: no hint carries host evidence. */
  predicate AllBare(records: seq<Record>) { forall r :: r in records ==> Bare(r) }

  ghost predicate Tidy(records: seq<Record>) { UniqueKeys(records) && AllPlain(records) }

  ghost predicate WellRead(records: seq<Record>) { UniqueKeys(records) && AllVetted(records) }

  lemma IssueWellRead(records: seq<Record>, i: nat, message: string)
    requires WellRead(records) && i < |records|
    ensures WellRead(records[i := Issue(records[i], message)])
  {
    hide OperationKey, Vetted, Issue;
    var next := records[i := Issue(records[i], message)];
    assert records[i] in records;
    IssueVetted(records[i], message);
    forall r | r in next ensures Vetted(r) {
      var j :| 0 <= j < |next| && next[j] == r;
      if j != i { assert next[j] == records[j] && records[j] in records; }
    }
  }

  lemma ReadRowWell(into: Loaded, row: Row, source: Source)
    requires WellRead(into.records)
    ensures WellRead(ReadRow(into, row, source).records)
  {
    hide DecodeRecord, OperationKey, Vetted, SameHostCommand, Issue;
    var decoded := DecodeRecord(row, source.V1?);
    if decoded.Some? {
      var record := decoded.value;
      DecodedVetted(row, source.V1?);
      var i := IndexOf(into.records, OperationKey(record));
      IndexExact(into.records, OperationKey(record));
      if i < 0 { AppendUnique(into.records, record); } else { IssueWellRead(into.records, i, CONFLICT); }
    }
  }

  lemma {:induction false} ReadRowsWell(into: Loaded, rows: seq<Row>, source: Source)
    requires WellRead(into.records)
    ensures WellRead(ReadRows(into, rows, source).records)
    ensures into.quarantine <= ReadRows(into, rows, source).quarantine
  {
    if rows != [] {
      hide WellRead, ReadRow;
      var init := rows[..|rows| - 1];
      ReadRowsWell(into, init, source);
      ReadRowWell(ReadRows(into, init, source), rows[|rows| - 1], source);
      ReadRowAppends(ReadRows(into, init, source), rows[|rows| - 1], source);
    }
  }

  lemma ReadRowAppends(into: Loaded, row: Row, source: Source)
    ensures into.quarantine <= ReadRow(into, row, source).quarantine
  {
    hide DecodeRecord, OperationKey, SameHostCommand, Issue;
  }

  lemma NothingRead()
    ensures WellRead([])
  {
  }

  /** Whatever the two slots hold, what is read has one vetted record per operation. */
  lemma VisibleWellRead(storage: Storage)
    ensures WellRead(Visible(storage))
  {
    hide ReadRows, WellRead;
    NothingRead();
    var current := ReadSlot(Loaded([], []), storage.v2, V2);
    if storage.v2.Rows? {
      ReadRowsWell(Loaded([], [] + storage.v2.quarantine), storage.v2.rows, V2);
    }
    assert WellRead(current.records);
    if storage.v1.Rows? { ReadRowsWell(current, storage.v1.rows, V1); }
  }

  lemma VisibleTidy(storage: Storage)
    requires AllBare(Visible(storage))
    ensures Tidy(Visible(storage))
  {
    hide Bare, Plain, Vetted, ReadLedger, OperationKey;
    VisibleWellRead(storage);
    forall r | r in Visible(storage) ensures Plain(r) { BareExact(r); }
  }

  lemma {:induction false} DistinctKept(quarantine: seq<Quarantined>, x: Quarantined)
    requires x in quarantine
    ensures x in DistinctOnly(quarantine)
  {
    var init, last := quarantine[..|quarantine| - 1], quarantine[|quarantine| - 1];
    if x in init { DistinctKept(init, x); }
  }

  /** A save keeps all quarantined content, and the old slot as it was. */
  lemma QuarantineKept(storage: Storage, records: seq<Record>, x: Quarantined)
    requires Available(storage) && x in ReadLedger(storage).quarantine
    ensures x in ReadLedger(WritePending(storage, records).value).quarantine
    ensures WritePending(storage, records).value.v1 == storage.v1
  {
    hide ReadRows, DistinctOnly, Retained, WellRead;
    var next := WritePending(storage, records).value;
    DistinctKept(ReadLedger(storage).quarantine, x);
    NothingRead();
    var start := Loaded([], [] + next.v2.quarantine);
    ReadRowsWell(start, next.v2.rows, V2);
    assert start.quarantine == next.v2.quarantine;
    var i :| 0 <= i < |start.quarantine| && start.quarantine[i] == x;
    assert ReadRows(start, next.v2.rows, V2).quarantine[i] == x;
  }

  // -------------------------------------------------------- whole runs

  datatype System = System(memory: seq<Record>, storage: Storage)

  /** `Submit` must be stored to count; `Learn` is kept in memory even when the
      save after it fails; `Lost` is a reload while storage cannot be read. */
  datatype Step =
    | Submit(hostRun: string, submission: Submission)
    | Learn(event: Event)
    | Save
    | Reload
    | Lost

  function Stored(sys: System, records: seq<Record>): Result<System> {
    match WritePending(sys.storage, records)
    case Ok(storage) => Ok(System(Retained(sys.storage, records), storage))
    case Err(message) => Err(message)
  }

  function OrSame(sys: System, next: Result<System>): System { if next.Ok? then next.value else sys }

  function Take(sys: System, step: Step): System {
    match step
    case Submit(hostRun, submission) =>
      (match RetainCommand(sys.memory, hostRun, submission)
       case Ok(records) => OrSame(sys, Stored(sys, records))
       case Err(_) => sys)
    case Learn(event) =>
      (match ApplyEvent(sys.memory, event)
       case Ok(records) => sys.(memory := records)
       case Err(_) => sys)
    case Save => OrSame(sys, Stored(sys, sys.memory))
    case Reload => sys.(memory := Visible(sys.storage))
    case Lost => sys.(memory := [])
  }

  ghost predicate UnresolvedIn(records: seq<Record>, key: Key) {
    exists r :: r in records && OperationKey(r) == key && !IsSettled(r)
  }

  ghost predicate SettledIn(records: seq<Record>, key: Key) {
    exists r :: r in records && OperationKey(r) == key && IsSettled(r)
  }

  /** What every run keeps: one plain record per operation in memory and in
      storage, and every operation unresolved in memory is unresolved in storage. */
  ghost predicate Sound(sys: System) {
    && AllBare(Visible(sys.storage))
    && Tidy(sys.memory)
    && forall key :: UnresolvedIn(sys.memory, key) ==> UnresolvedIn(Visible(sys.storage), key)
  }

  lemma JoinedUnique(prior: seq<Record>, records: seq<Record>)
    requires UniqueKeys(prior) && UniqueKeys(records)
    ensures UniqueKeys(Without(prior, Keys(records)) + records)
  {
    hide OperationKey;
    WithoutMembers(prior, Keys(records));
    var kept := Without(prior, Keys(records));
    var all := kept + records;
    forall i, j | 0 <= i < j < |all| ensures OperationKey(all[i]) != OperationKey(all[j]) {
      if i < |kept| <= j {
        assert all[i] in kept && all[j] in records;
        assert OperationKey(all[j]) in Keys(records);
      }
    }
  }

  /** What is retained: unresolved records of memory, and those storage alone has. */
  lemma RetainedKeeps(storage: Storage, records: seq<Record>)
    requires UniqueKeys(records)
    ensures UniqueKeys(Retained(storage, records))
    ensures forall r :: r in Retained(storage, records) ==> r in records || r in Visible(storage)
    ensures forall r :: r in records && !IsSettled(r) ==> r in Retained(storage, records)
    ensures forall r :: r in Visible(storage) && !IsSettled(r) && OperationKey(r) !in Keys(records) ==>
      r in Retained(storage, records)
  {
    hide OperationKey, IsSettled, Compact, ReadLedger, Keys, Vetted;
    VisibleWellRead(storage);
    var prior := Visible(storage);
    JoinedUnique(prior, records);
    WithoutMembers(prior, Keys(records));
    var all := Without(prior, Keys(records)) + records;
    CompactSubset(all);
    forall r | r in all && !IsSettled(r) ensures r in Compact(all) { CompactKeepsUnresolved(all, r); }
  }

  /** A save shows exactly the retained records that decode. */
  lemma WrittenVisible(storage: Storage, records: seq<Record>)
    requires UniqueKeys(records) && Available(storage)
    ensures Visible(WritePending(storage, records).value) == DecodableOf(Retained(storage, records))
  {
    hide OperationKey, Decodable, Retained, ReadRow, DistinctOnly, UniqueKeys;
    RetainedKeeps(storage, records);
    var kept, next := Retained(storage, records), WritePending(storage, records).value;
    assert next.v2.rows == RowsOf(kept);
    ReadBack(kept, [] + next.v2.quarantine);
  }

  lemma RetainedTidy(storage: Storage, records: seq<Record>)
    requires AllBare(Visible(storage)) && Tidy(records)
    ensures Tidy(Retained(storage, records))
  {
    hide Plain, OperationKey, Retained, ReadLedger, Bare;
    VisibleTidy(storage);
    RetainedKeeps(storage, records);
  }

  lemma PlainBare(records: seq<Record>)
    requires AllPlain(records)
    ensures AllBare(DecodableOf(records))
  {
    hide Decodable, ReceiptMatches, Addressable;
    DecodableMembers(records);
  }

  lemma TidyParts(records: seq<Record>)
    requires Tidy(records)
    ensures UniqueKeys(records) && AllPlain(records)
  {
  }

  /** After a successful save every unresolved operation, in memory or only in
      storage, is stored and readable. */
  lemma StoredKeeps(sys: System, records: seq<Record>)
    requires AllBare(Visible(sys.storage)) && Tidy(records) && Stored(sys, records).Ok?
    ensures Sound(Stored(sys, records).value)
    ensures forall key ::
      UnresolvedIn(records, key) || (UnresolvedIn(Visible(sys.storage), key) && !SettledIn(records, key)) ==>
      UnresolvedIn(Visible(Stored(sys, records).value.storage), key)
      && UnresolvedIn(Stored(sys, records).value.memory, key)
  {
    hide Plain, OperationKey, IsSettled, Decodable, Retained, ReadLedger, WritePending, AllBare, Keys, Tidy;
    var kept, next := Retained(sys.storage, records), Stored(sys, records).value;
    assert Available(sys.storage) by { WritableMeansAvailable(sys.storage, records); }
    RetainedTidy(sys.storage, records);
    TidyParts(records);
    TidyParts(kept);
    RetainedKeeps(sys.storage, records);
    WrittenVisible(sys.storage, records);
    PlainBare(kept);
    DecodableMembers(kept);
    forall r | r in kept && !IsSettled(r) ensures r in Visible(next.storage) { UnresolvedDecodable(r); }
    forall key | UnresolvedIn(records, key) || (UnresolvedIn(Visible(sys.storage), key) && !SettledIn(records, key))
      ensures UnresolvedIn(kept, key)
    {
      if !UnresolvedIn(records, key) {
        var r :| r in Visible(sys.storage) && OperationKey(r) == key && !IsSettled(r);
        KeyAbsent(records, key);
      }
    }
  }

  lemma WritableMeansAvailable(storage: Storage, records: seq<Record>)
    requires WritePending(storage, records).Ok?
    ensures Available(storage)
  {
  }

  lemma KeyAbsent(records: seq<Record>, key: Key)
    requires !UnresolvedIn(records, key) && !SettledIn(records, key)
    ensures key !in Keys(records)
  {
    hide OperationKey, IsSettled;
  }

  /** Evidence changes no key and unsettles nothing. */
  lemma MappedKeys(records: seq<Record>, event: Event)
    ensures UniqueKeys(records) ==> UniqueKeys(MapRecords(records, event))
    ensures forall key :: UnresolvedIn(MapRecords(records, event), key) ==> UnresolvedIn(records, key)
  {
    hide Apply, IsSettled;
    var next := MapRecords(records, event);
    forall i | 0 <= i < |records|
      ensures OperationKey(next[i]) == OperationKey(records[i]) && (IsSettled(records[i]) ==> IsSettled(next[i]))
    {
      ApplyAdvances(records[i], event);
    }
    hide OperationKey;
    forall key | UnresolvedIn(next, key) ensures UnresolvedIn(records, key) {
      var r :| r in next && OperationKey(r) == key && !IsSettled(r);
      var i :| 0 <= i < |next| && next[i] == r;
      assert records[i] in records && OperationKey(records[i]) == key && !IsSettled(records[i]);
    }
  }

  lemma MappedTidy(records: seq<Record>, event: Event)
    requires Tidy(records) && ValidEvent(event) && ApplyEvent(records, event).Ok?
    ensures Tidy(MapRecords(records, event))
  {
    hide Plain, Apply, IsSettled, SameHostCommand, EmbeddedOk, OperationKey;
    MappedKeys(records, event);
    var next := MapRecords(records, event);
    forall i | 0 <= i < |records| ensures Plain(next[i]) {
      assert records[i] in records && NotContradicted(records[i], event);
      ApplyPlain(records[i], event);
    }
  }

  ghost predicate ValidStep(step: Step) { step.Learn? ==> ValidEvent(step.event) }

  lemma FreshPlain(hostRun: string, submission: Submission)
    requires Addressable(hostRun, submission)
    ensures Plain(FreshRecord(hostRun, submission))
  {
  }

  lemma SubmittedTidy(records: seq<Record>, hostRun: string, submission: Submission)
    requires Tidy(records) && RetainCommand(records, hostRun, submission).Ok?
    ensures Tidy(RetainCommand(records, hostRun, submission).value)
  {
    hide Plain, OperationKey, Compact, SameHostCommand;
    RetainKeeps(records, hostRun, submission);
    FreshPlain(hostRun, submission);
  }

  /** Every step keeps the ledger sound, and an operation that no one has resolved
      stays in storage. */
  lemma StepSound(sys: System, step: Step)
    requires Sound(sys) && ValidStep(step)
    ensures Sound(Take(sys, step))
    ensures forall key :: UnresolvedIn(Visible(sys.storage), key) && !SettledIn(sys.memory, key) ==>
      UnresolvedIn(Visible(Take(sys, step).storage), key)
  {
    hide Plain, OperationKey, Compact, SameHostCommand, ReadLedger, AllBare, Stored, MapRecords, IsSettled, Tidy,
      Addressable, FindRecord;
    match step
    case Submit(hostRun, submission) =>
      var retained := RetainCommand(sys.memory, hostRun, submission);
      if retained.Ok? && Stored(sys, retained.value).Ok? {
        SubmittedTidy(sys.memory, hostRun, submission);
        StoredKeeps(sys, retained.value);
        SubmitSettlesNothing(sys.memory, hostRun, submission);
      }
    case Learn(event) =>
      if ApplyEvent(sys.memory, event).Ok? {
        MappedTidy(sys.memory, event);
        MappedKeys(sys.memory, event);
      }
    case Save =>
      if Stored(sys, sys.memory).Ok? { StoredKeeps(sys, sys.memory); }
    case Reload => VisibleTidy(sys.storage);
    case Lost => assert Tidy([]) by { EmptyTidy(); }
  }

  lemma EmptyTidy()
    ensures Tidy([])
  {
  }

  lemma SubmitSettlesNothing(records: seq<Record>, hostRun: string, submission: Submission)
    requires UniqueKeys(records) || Tidy(records)
    requires RetainCommand(records, hostRun, submission).Ok?
    ensures forall key :: SettledIn(RetainCommand(records, hostRun, submission).value, key) ==> SettledIn(records, key)
  {
    hide Plain, OperationKey, Compact, SameHostCommand, IsSettled;
    RetainKeeps(records, hostRun, submission);
    FreshUnresolved(hostRun, submission);
  }

  function After(sys: System, steps: seq<Step>): System {
    if steps == [] then sys else Take(After(sys, steps[..|steps| - 1]), steps[|steps| - 1])
  }

  ghost predicate ValidSteps(steps: seq<Step>) { forall i :: 0 <= i < |steps| ==> ValidStep(steps[i]) }

  /** Over every run of submitting, learning, saving, reloading and failing. */
  lemma {:induction false} RunSound(sys: System, steps: seq<Step>)
    requires Sound(sys) && ValidSteps(steps)
    ensures Sound(After(sys, steps))
  {
    if steps != [] {
      hide Sound, Take;
      RunSound(sys, steps[..|steps| - 1]);
      StepSound(After(sys, steps[..|steps| - 1]), steps[|steps| - 1]);
    }
  }

  /** Memory never records the operation as settled, before any of the steps. */
  ghost predicate NeverSettled(sys: System, steps: seq<Step>, key: Key) {
    forall n :: 0 <= n < |steps| ==> !SettledIn(After(sys, steps[..n]).memory, key)
  }

  /** An operation unresolved in storage stays so over every run that does not
      learn its outcome, through failed saves and lost memory alike. */
  lemma {:induction false} RunKeepsStored(sys: System, steps: seq<Step>, key: Key)
    requires Sound(sys) && ValidSteps(steps)
    requires UnresolvedIn(Visible(sys.storage), key) && NeverSettled(sys, steps, key)
    ensures UnresolvedIn(Visible(After(sys, steps).storage), key)
  {
    if steps != [] {
      hide Sound, Take, UnresolvedIn, SettledIn, ReadLedger;
      var init := steps[..|steps| - 1];
      forall n | 0 <= n < |init|
        ensures !SettledIn(After(sys, init[..n]).memory, key)
      {
        assert init[..n] == steps[..n];
      }
      RunKeepsStored(sys, init, key);
      RunSound(sys, init);
      StepSound(After(sys, init), steps[|steps| - 1]);
    }
  }

  /** In a reachable state a readable reload loses no unresolved operation. */
  lemma ReloadLosesNothing(sys: System, steps: seq<Step>, key: Key)
    requires Sound(sys) && ValidSteps(steps)
    requires UnresolvedIn(After(sys, steps).memory, key)
    ensures UnresolvedIn(Take(After(sys, steps), Reload).memory, key)
  {
    hide After, Visible, UnresolvedIn;
    RunSound(sys, steps);
  }

  // ------------------------------------ exactly which storage is safe

  /** The ledger as a page finds it. */
  function Opened(storage: Storage): System { System(Visible(storage), storage) }

  lemma OpenedSound(storage: Storage)
    requires AllBare(Visible(storage))
    ensures Sound(Opened(storage))
  {
    hide AllBare, Plain, ReadLedger;
    VisibleTidy(storage);
  }

  ghost predicate ReloadKeeps(sys: System, key: Key) {
    UnresolvedIn(sys.memory, key) ==> UnresolvedIn(Take(sys, Reload).memory, key)
  }

  /** No run from this storage ever loses an unresolved operation on a reload. */
  ghost predicate Lossless(storage: Storage) {
    forall steps, key :: ValidSteps(steps) ==> ReloadKeeps(After(Opened(storage), steps), key)
  }

  /** While storage refuses access it never changes, and memory only learns. */
  lemma {:induction false} RefusedUnchanged(storage: Storage, steps: seq<Step>)
    requires !Available(storage)
    ensures After(Opened(storage), steps).storage == storage
    ensures forall key :: UnresolvedIn(After(Opened(storage), steps).memory, key) ==>
      UnresolvedIn(Visible(storage), key)
  {
    if steps != [] {
      RefusedUnchanged(storage, steps[..|steps| - 1]);
      hide UnresolvedIn, Available, Visible, Take;
      RefusedStep(After(Opened(storage), steps[..|steps| - 1]), steps[|steps| - 1]);
    }
  }

  lemma RefusedStep(sys: System, step: Step)
    requires !Available(sys.storage)
    requires forall key :: UnresolvedIn(sys.memory, key) ==> UnresolvedIn(Visible(sys.storage), key)
    ensures Take(sys, step).storage == sys.storage
    ensures forall key :: UnresolvedIn(Take(sys, step).memory, key) ==> UnresolvedIn(Visible(sys.storage), key)
  {
    hide UnresolvedIn, RetainCommand, MapRecords, ReadLedger, StatusContradicted, Visible;
    if step.Learn? { MappedKeys(sys.memory, step.event); }
    NothingUnresolved();
  }

  lemma NothingUnresolved()
    ensures forall key :: !UnresolvedIn([], key)
  {
  }

  function BareQueued(r: Record): Event {
    StatusReply(r.hostRun, Status(r.submission.operationId, r.submission.command, Queued, None, None, None))
  }

  /** Host evidence on a hint is kept beside a weaker host report, and the record
      that results can no longer be read. */
  lemma HintEvidenceBlocks(r: Record)
    requires Addressable(r.hostRun, r.submission) && !Authoritative(r) && r.receipt.Some? && r.inputObservation.None?
    ensures ValidEvent(BareQueued(r)) && NotContradicted(r, BareQueued(r))
    ensures var next := Apply(r, BareQueued(r));
      OperationKey(next) == OperationKey(r) && !IsSettled(next) && !Decodable(next)
  {
    assert ReceiptState(r.receipt.value) != Queued;
    hide IsOperationId, Canonical, IsHostCommand, ReceiptState, ReceiptMatches, StateName;
    var next := Apply(r, BareQueued(r));
    assert next == r.(state := Queued, authority := ByStatus, lookup := None);
    hide Apply;
  }

  lemma NotShown(storage: Storage, records: seq<Record>, r: Record)
    requires UniqueKeys(records) && Available(storage) && r in records && !IsSettled(r) && !Decodable(r)
    ensures !UnresolvedIn(Visible(WritePending(storage, records).value), OperationKey(r))
    ensures UnresolvedIn(Retained(storage, records), OperationKey(r))
  {
    hide OperationKey, Decodable, Retained, ReadLedger, IsSettled, UniqueKeys, WritePending;
    WrittenVisible(storage, records);
    RetainedKeeps(storage, records);
    DecodableMembers(Retained(storage, records));
    UniqueHolder(Retained(storage, records), r);
  }

  lemma SaveHides(sys: System, r: Record)
    requires UniqueKeys(sys.memory) && Available(sys.storage) && r in sys.memory && !IsSettled(r) && !Decodable(r)
    ensures !ReloadKeeps(Take(sys, Save), OperationKey(r))
  {
    hide OperationKey, Decodable, Retained, ReadLedger, IsSettled, UniqueKeys, UnresolvedIn;
    NotShown(sys.storage, sys.memory, r);
  }

  lemma LearnedQueued(records: seq<Record>, r: Record)
    requires UniqueKeys(records) && r in records && Addressable(r.hostRun, r.submission)
    ensures ApplyEvent(records, BareQueued(r)).Ok? && Apply(r, BareQueued(r)) in MapRecords(records, BareQueued(r))
  {
    hide Apply, IsOperationId, Canonical, SameHostCommand, IsHostCommand;
    UniqueHolder(records, r);
    forall x | x in records && AddressedBy(x, r.hostRun, r.submission.operationId)
      ensures SameHostCommand(x.submission.command, r.submission.command)
    {
      assert OperationKey(x) == OperationKey(r);
      SameHostCommandEquivalence(r.submission.command, r.submission.command, r.submission.command);
    }
    assert forall i :: 0 <= i < |records| ==> records[i] in records;
    var i :| 0 <= i < |records| && records[i] == r;
    assert MapRecords(records, BareQueued(r))[i] == Apply(r, BareQueued(r));
  }

  lemma TwoSteps(sys: System, a: Step, b: Step)
    ensures After(sys, [a]) == Take(sys, a) && After(sys, [a, b]) == Take(Take(sys, a), b)
  {
    hide Take;
    assert [a][..0] == [] && [a, b][..1] == [a];
    assert After(sys, []) == sys;
    assert After(sys, [a]) == Take(sys, a);
  }

  lemma ObservationLost(sys: System, r: Record)
    requires UniqueKeys(sys.memory) && Available(sys.storage) && r in sys.memory && !Authoritative(r)
      && r.inputObservation.Some?
    ensures !ReloadKeeps(Take(sys, Save), OperationKey(r))
  {
    assert !IsSettled(r) && !Decodable(r) by { UnresolvedDecodableExact(r); }
    hide *;
    SaveHides(sys, r);
  }

  lemma ReceiptLost(sys: System, r: Record)
    requires UniqueKeys(sys.memory) && Available(sys.storage) && r in sys.memory && Addressable(r.hostRun, r.submission)
    requires !Authoritative(r) && r.receipt.Some? && r.inputObservation.None?
    ensures !ReloadKeeps(Take(Take(sys, Learn(BareQueued(r))), Save), OperationKey(r))
  {
    var event := BareQueued(r);
    HintEvidenceBlocks(r);
    LearnedQueued(sys.memory, r);
    MappedKeys(sys.memory, event);
    var learned := Take(sys, Learn(event));
    assert learned == sys.(memory := MapRecords(sys.memory, event)) by {
      hide MapRecords, Apply, StatusContradicted, BareQueued;
    }
    hide *;
    SaveHides(learned, Apply(r, event));
  }

  /** A hint with host evidence on it is lost by a save, or by learning that the
      operation is queued and a save. */
  lemma EvidenceLost(storage: Storage, r: Record) returns (steps: seq<Step>)
    requires Available(storage) && r in Visible(storage) && !Bare(r)
    ensures ValidSteps(steps) && !ReloadKeeps(After(Opened(storage), steps), OperationKey(r))
  {
    VisibleWellRead(storage);
    var sys := Opened(storage);
    hide OperationKey, ReloadKeeps, Take, ReadLedger, UniqueKeys, After;
    if r.inputObservation.Some? {
      steps := [Save];
      TwoSteps(sys, Save, Save);
      ObservationLost(sys, r);
    } else {
      HintEvidenceBlocks(r);
      steps := [Learn(BareQueued(r)), Save];
      TwoSteps(sys, Learn(BareQueued(r)), Save);
      ReceiptLost(sys, r);
    }
  }

  /** Storage is safe exactly when it refuses access altogether, or no hint that
      is read from it carries a receipt or an observation. */
  lemma LosslessExact(storage: Storage)
    ensures Lossless(storage) <==> !Available(storage) || AllBare(Visible(storage))
  {
    hide ReadLedger, UnresolvedIn, Bare, After;
    if !Available(storage) {
      forall steps, key | ValidSteps(steps) ensures ReloadKeeps(After(Opened(storage), steps), key) {
        RefusedUnchanged(storage, steps);
      }
    } else if AllBare(Visible(storage)) {
      OpenedSound(storage);
      forall steps, key | ValidSteps(steps) ensures ReloadKeeps(After(Opened(storage), steps), key) {
        if UnresolvedIn(After(Opened(storage), steps).memory, key) { ReloadLosesNothing(Opened(storage), steps, key); }
      }
    } else {
      var r :| r in Visible(storage) && !Bare(r);
      var steps := EvidenceLost(storage, r);
      hide ReloadKeeps, Opened;
      assert !ReloadKeeps(After(Opened(storage), steps), OperationKey(r));
    }
  }

  /** The old ledger holds such rows: any addressed one with a receipt will do. */
  lemma ImportedReceiptLost(row: Record)
    requires Addressable(row.hostRun, row.submission) && row.receipt.Some? && row.inputObservation.None?
    ensures var storage := Storage(Absent, Rows([Row(row)], false, []));
      Visible(storage) == [row.(authority := Legacy)] && !Lossless(storage)
  {
    var storage := Storage(Absent, Rows([Row(row)], false, []));
    var legacy := row.(authority := Legacy);
    hide Addressable, OperationKey;
    assert [Row(row)][..0] == [];
    assert DecodeRecord(Row(row), true) == Some(legacy);
    assert ReadRows(Loaded([], []), [], V1) == Loaded([], []);
    assert Visible(storage) == [legacy];
    hide Visible, Lossless;
    assert legacy in Visible(storage) && !Bare(legacy);
    LosslessExact(storage);
  }

  // ------------------------------- settled records that do not read back

  /** The kept receipt reports the settled state, and the recorded envelope. */
  predicate ReceiptReportsState(r: Record) {
    r.receipt.Some? ==>
      && ReceiptState(r.receipt.value) == r.state
      && (r.receipt.value.outcome.AdmittedOutcome? && r.envelopeId.Some? ==>
           r.envelopeId.value == r.receipt.value.outcome.envelopeId)
  }

  /** Exactly when a settled record survives a reload. */
  lemma SettledDecodableExact(r: Record)
    requires Plain(r) && IsSettled(r)
    ensures Decodable(r) <==> ReceiptReportsState(r)
  {
    CanonicalIdempotent(r.submission.operationId);
    hide IsOperationId, Canonical;
  }

  /** It need not: an `unconfirmed` receipt is kept when a status without receipt
      settles the operation, and the next reload quarantines the record. In the
      other order it survives. */
  lemma KeptReceiptBlocksReload(hostRun: string, submission: Submission, status: Status, receipt: Receipt)
    requires Addressable(hostRun, submission) && submission.command.Input?
    requires status == Status(submission.operationId, submission.command, InputAdmitted, None, None, None)
    requires receipt == Receipt(submission.operationId, Some(submission.command.target), UnconfirmedOutcome("ack lost"))
    ensures var r := FreshRecord(hostRun, submission);
      var early, late := ApplyRun(r, [LiveReceipt(receipt), StatusReply(hostRun, status)]),
                         ApplyRun(r, [StatusReply(hostRun, status), LiveReceipt(receipt)]);
      && early.state == late.state == InputAdmitted && IsSettled(early) && IsSettled(late)
      && !Decodable(early) && Decodable(late)
  {
    var r := FreshRecord(hostRun, submission);
    var live, reply := LiveReceipt(receipt), StatusReply(hostRun, status);
    TwoEvents(r, live, reply);
    TwoEvents(r, reply, live);
    UnconfirmedThenAdmitted(r, live, reply);
    AdmittedThenUnconfirmed(r, live, reply);
  }

  /** A fresh record of this operation beside an unconfirmed receipt and a bare
      admission of it. */
  predicate Scene(r: Record, live: Event, reply: Event) {
    && r == FreshRecord(r.hostRun, r.submission) && Addressable(r.hostRun, r.submission) && r.submission.command.Input?
    && live == LiveReceipt(Receipt(r.submission.operationId, Some(r.submission.command.target),
                                   UnconfirmedOutcome("ack lost")))
    && reply ==
      StatusReply(r.hostRun, Status(r.submission.operationId, r.submission.command, InputAdmitted, None, None, None))
  }

  lemma JudgeAdmission(r: Record)
    requires r.submission.command.Input? && !IsSettled(r)
    ensures Judge(r, InputAdmitted, None, None) == Accept
  {
    hide StateName, ReceiptConflict, ReceiptMatches;
  }

  lemma JudgeLoss(r: Record, receipt: Receipt)
    requires receipt.outcome.UnconfirmedOutcome? && r.receipt.None? && !Stale(r, Unconfirmed)
    requires ReceiptMatches(r, receipt)
    ensures Judge(r, Unconfirmed, Some(receipt), None) == if IsSettled(r) then Ignore else Accept
  {
    hide StateName, ReceiptConflict, ReceiptMatches, Stale;
    assert ActionAllows(r.submission.command, Unconfirmed) && ReceiptState(receipt) == Unconfirmed;
    hide ActionAllows, ReceiptState;
  }

  lemma SceneMatches(r: Record, live: Event, reply: Event, now: Record)
    requires Scene(r, live, reply) && now.hostRun == r.hostRun && now.submission == r.submission
    ensures IsOperationId(live.receipt.commandId) && ReceiptMatches(now, live.receipt)
    ensures AddressedBy(now, r.hostRun, reply.status.operationId)
  {
    hide IsOperationId, Canonical, IsHostCommand;
  }

  lemma AfterUnconfirmed(r: Record, live: Event, reply: Event)
    requires Scene(r, live, reply)
    ensures Apply(r, live) == r.(state := Unconfirmed, authority := ByReceipt, receipt := Some(live.receipt))
  {
    SceneMatches(r, live, reply, r);
    JudgeLoss(r, live.receipt);
    hide IsOperationId, Canonical, Addressable, Judge, ReceiptMatches;
  }

  lemma AfterAdmitted(r: Record, live: Event, reply: Event)
    requires Scene(r, live, reply)
    ensures Apply(r, reply) == r.(state := InputAdmitted, authority := ByStatus)
  {
    SceneMatches(r, live, reply, r);
    JudgeAdmission(r);
    hide IsOperationId, Canonical, Addressable, Judge, ReceiptMatches, AddressedBy;
  }

  lemma UnconfirmedThenAdmitted(r: Record, live: Event, reply: Event)
    requires Scene(r, live, reply)
    ensures var early := Apply(Apply(r, live), reply);
      early.state == InputAdmitted && IsSettled(early) && !Decodable(early)
  {
    AfterUnconfirmed(r, live, reply);
    var now := r.(state := Unconfirmed, authority := ByReceipt, receipt := Some(live.receipt));
    SceneMatches(r, live, reply, now);
    JudgeAdmission(now);
    hide IsOperationId, Canonical, IsHostCommand, Addressable, Judge, ReceiptMatches, AddressedBy;
    assert Apply(now, reply) == now.(state := InputAdmitted, authority := ByStatus);
    hide Apply, MergeStatus, MergeReceipt, MergeEvidence;
  }

  lemma AdmittedThenUnconfirmed(r: Record, live: Event, reply: Event)
    requires Scene(r, live, reply)
    ensures var late := Apply(Apply(r, reply), live);
      late.state == InputAdmitted && IsSettled(late) && Decodable(late)
  {
    AfterAdmitted(r, live, reply);
    var now := r.(state := InputAdmitted, authority := ByStatus);
    SceneMatches(r, live, reply, now);
    JudgeLoss(now, live.receipt);
    hide IsOperationId, Canonical, IsHostCommand, Judge, ReceiptMatches;
    assert Apply(now, live) == now;
    hide Apply, MergeStatus, MergeReceipt, MergeEvidence;
  }
}
