/** Reading the stored ledger: every row is kept, as a record or in quarantine
    (web/src/pending-commands.ts). */
module LedgerReading {
  import opened JsMap
  import opened OperationId
  import opened HostCommands
  import opened Ledger
  import opened LedgerRetention
  import opened LedgerStorage

  /** Records may only gain complaints. */
  ghost predicate SameButIssues(a: Record, b: Record) { b.(issues := a.issues) == a && a.issues <= b.issues }

  /** What has been loaded is still there. */
  ghost predicate LoadedMore(a: Loaded, b: Loaded) {
    && |a.records| <= |b.records| && a.quarantine <= b.quarantine
    && forall i :: 0 <= i < |a.records| ==> SameButIssues(a.records[i], b.records[i])
  }

  /** The row is accounted for: unreadable and in quarantine, or its operation is a
      record with the same contents, or with others, which is noted and the row kept. */
  ghost predicate Accounted(loaded: Loaded, row: Row, source: Source) {
    var read := DecodeRecord(row, source.V1?);
    if read.None? then BadRow(source, row) in loaded.quarantine
    else exists k :: 0 <= k < |loaded.records| && Represents(loaded, loaded.records[k], read.value, row, source)
  }

  ghost predicate Represents(loaded: Loaded, kept: Record, read: Record, row: Row, source: Source) {
    && OperationKey(kept) == OperationKey(read)
    && (SameHostCommand(kept.submission.command, read.submission.command)
        || (CONFLICT in kept.issues && Conflicting(source, row) in loaded.quarantine))
  }

  lemma RowAccounted(into: Loaded, row: Row, source: Source)
    ensures var next := ReadRow(into, row, source); LoadedMore(into, next) && Accounted(next, row, source)
  {
    hide DecodeRecord, OperationKey, SameHostCommand;
    var next, read := ReadRow(into, row, source), DecodeRecord(row, source.V1?);
    if read.Some? {
      var i := IndexOf(into.records, OperationKey(read.value));
      if i < 0 {
        assert next.records[|into.records|] == read.value;
        SameAsItself(read.value);
      } else {
        KeyKept(into.records[i], next.records[i]);
        assert Represents(next, next.records[i], read.value, row, source);
      }
    }
  }

  lemma SameAsItself(r: Record)
    ensures SameHostCommand(r.submission.command, r.submission.command)
  {
    SameHostCommandEquivalence(r.submission.command, r.submission.command, r.submission.command);
  }

  lemma KeyKept(a: Record, b: Record)
    requires a.hostRun == b.hostRun && a.submission == b.submission
    ensures OperationKey(a) == OperationKey(b)
  {
  }

  lemma StaysAccounted(a: Loaded, b: Loaded, row: Row, source: Source)
    requires LoadedMore(a, b) && Accounted(a, row, source)
    ensures Accounted(b, row, source)
  {
    hide DecodeRecord, OperationKey, SameHostCommand;
    var read := DecodeRecord(row, source.V1?);
    if read.Some? {
      var k :| 0 <= k < |a.records| && Represents(a, a.records[k], read.value, row, source);
      KeyKept(a.records[k], b.records[k]);
      assert Represents(b, b.records[k], read.value, row, source);
    }
  }

  lemma MoreLoaded(a: Loaded, b: Loaded, c: Loaded)
    requires LoadedMore(a, b) && LoadedMore(b, c)
    ensures LoadedMore(a, c)
  {
  }

  /** Every row of a slot is accounted for, and nothing read before is lost. */
  lemma {:induction false} RowsAccounted(into: Loaded, rows: seq<Row>, source: Source)
    ensures LoadedMore(into, ReadRows(into, rows, source))
    ensures forall i :: 0 <= i < |rows| ==> Accounted(ReadRows(into, rows, source), rows[i], source)
  {
    if rows != [] {
      var init, last := rows[..|rows| - 1], rows[|rows| - 1];
      RowsAccounted(into, init, source);
      var before := ReadRows(into, init, source);
      RowAccounted(before, last, source);
      hide ReadRow, LoadedMore, Accounted;
      var next := ReadRow(before, last, source);
      MoreLoaded(into, before, next);
      forall i | 0 <= i < |rows| ensures Accounted(next, rows[i], source) {
        if i < |init| {
          assert init[i] == rows[i];
          StaysAccounted(before, next, rows[i], source);
        }
      }
    }
  }

  /** What is stored in a slot that is read. */
  ghost predicate SlotAccounted(loaded: Loaded, slot: Slot, source: Source) {
    && (slot.Garbled? ==> BadText(source, slot.text) in loaded.quarantine)
    && (slot.Rows? ==> forall i :: 0 <= i < |slot.rows| ==> Accounted(loaded, slot.rows[i], source))
    && (slot.Rows? && source.V2? ==> forall q :: q in slot.quarantine ==> q in loaded.quarantine)
  }

  lemma ReadSlotAccounted(into: Loaded, slot: Slot, source: Source)
    ensures var next := ReadSlot(into, slot, source); LoadedMore(into, next) && SlotAccounted(next, slot, source)
  {
    hide Accounted, ReadRow;
    if slot.Rows? {
      var start := if source.V2? then into.(quarantine := into.quarantine + slot.quarantine) else into;
      RowsAccounted(start, slot.rows, source);
      var next := ReadRows(start, slot.rows, source);
      assert forall q :: q in start.quarantine ==> q in next.quarantine;
    }
  }

  lemma SlotStays(a: Loaded, b: Loaded, slot: Slot, source: Source)
    requires LoadedMore(a, b) && SlotAccounted(a, slot, source)
    ensures SlotAccounted(b, slot, source)
  {
    hide Accounted;
    if slot.Rows? {
      forall i | 0 <= i < |slot.rows| ensures Accounted(b, slot.rows[i], source) {
        StaysAccounted(a, b, slot.rows[i], source);
      }
    }
  }

  /** Reading loses nothing: every row and every unreadable text of the new slot, and
      of the old one until it has been imported, is a record or in quarantine. */
  lemma NothingLost(storage: Storage)
    ensures SlotAccounted(ReadLedger(storage), storage.v2, V2)
    ensures !(storage.v2.Rows? && storage.v2.legacyImported) ==> SlotAccounted(ReadLedger(storage), storage.v1, V1)
  {
    hide SlotAccounted, LoadedMore, ReadSlot;
    var current := ReadSlot(Loaded([], []), storage.v2, V2);
    ReadSlotAccounted(Loaded([], []), storage.v2, V2);
    if !(storage.v2.Rows? && storage.v2.legacyImported) {
      ReadSlotAccounted(current, storage.v1, V1);
      SlotStays(current, ReadSlot(current, storage.v1, V1), storage.v2, V2);
    }
  }

  /** A save is refused exactly if either slot cannot be read; otherwise the old slot
      is left alone and from then on not read again. */
  lemma SaveExact(storage: Storage, records: seq<Record>)
    ensures var r := WritePending(storage, records);
      && (r.Err? <==> storage.v2.Denied? || storage.v1.Denied?)
      && (r.Ok? ==> r.value.v1 == storage.v1 && r.value.v2.Rows? && r.value.v2.legacyImported)
  {
  }
}
