/** Which reads a step of the lookup reconciler starts, and when: at once for what
    is new or forced, in queue order, and never again for what has answered
    (web/src/command-lookups.ts). */
module LookupProgress {
  import opened JsMap
  import opened Ledger
  import opened Lookups
  import opened LookupRuns

  // ---------------------------------------------------- one entry, reconciled

  /** The last record of the run under the key that is to be read. */
  function LastWanted(records: seq<Record>, run: string, force: bool, key: Key): Option<Record> {
    if records == [] then None
    else
      var r := records[|records| - 1];
      if Wanted(r, run, force) && OperationKey(r) == key then Some(r)
      else LastWanted(records[..|records| - 1], run, force, key)
  }

  /** A request for `r`: a new entry is due now and has not been tried; an old one
      keeps its tries and its read, and waits on unless the request is forced. */
  predicate AskedFor(was: Option<Pending>, entry: Pending, r: Record, force: bool, now: int) {
    && entry.record == r
    && entry.attempt == (if was.Some? then was.value.attempt else 0)
    && entry.controller == (if was.Some? then was.value.controller else None)
    && (entry.forced <==> force || (was.Some? && was.value.forced))
    && (was.None? || (force && was.value.controller.None?) ==> entry.due == now)
    && (was.Some? && (!force || was.value.controller.Some?) ==> entry.due == was.value.due)
  }

  ghost predicate AfterAsking(was: Option<Pending>, entry: Option<Pending>, r: Option<Record>, force: bool, now: int) {
    if r.None? then entry == was else entry.Some? && AskedFor(was, entry.value, r.value, force, now)
  }

  lemma RequestedEntry(p: Queue, r: Record, force: bool, now: int, key: Key)
    requires DistinctKeys(p)
    ensures DistinctKeys(Requested(p, r, force, now))
    ensures var was, entry := Get(p, key), Get(Requested(p, r, force, now), key);
      AfterAsking(was, entry, if OperationKey(r) == key then Some(r) else None, force, now)
  {
    hide OperationKey;
    var at := Find(p, OperationKey(r));
    var e := if at < 0 then Pending(r, 0, now, force, None)
      else Pending(r, p[at].value.attempt, if force && p[at].value.controller.None? then now else p[at].value.due,
                   p[at].value.forced || force, p[at].value.controller);
    assert Requested(p, r, force, now) == Set(p, OperationKey(r), e);
    GetAfterSet(p, OperationKey(r), e, key);
    SetDistinct(p, OperationKey(r), e);
    hide Set;
  }

  lemma AskedTwice(was: Option<Pending>, mid: Option<Pending>, entry: Option<Pending>, a: Option<Record>,
                   b: Option<Record>, force: bool, now: int)
    requires AfterAsking(was, mid, a, force, now) && AfterAsking(mid, entry, b, force, now)
    ensures AfterAsking(was, entry, if b.Some? then b else a, force, now)
  {
  }

  lemma {:induction false} AllRequestedEntry(p: Queue, records: seq<Record>, run: string, force: bool, now: int,
                                             key: Key)
    requires DistinctKeys(p)
    ensures DistinctKeys(AllRequested(p, records, run, force, now))
    ensures AfterAsking(Get(p, key), Get(AllRequested(p, records, run, force, now), key),
                        LastWanted(records, run, force, key), force, now)
  {
    if records != [] {
      var init, r := records[..|records| - 1], records[|records| - 1];
      AllRequestedEntry(p, init, run, force, now, key);
      var q := AllRequested(p, init, run, force, now);
      if Wanted(r, run, force) {
        RequestedEntry(q, r, force, now, key);
        hide AfterAsking, Wanted, OperationKey, Get, Requested;
        AskedTwice(Get(p, key), Get(q, key), Get(Requested(q, r, force, now), key),
                   LastWanted(init, run, force, key), if OperationKey(r) == key then Some(r) else None, force, now);
      }
    }
  }

  lemma GetAt(p: Queue, i: nat)
    requires DistinctKeys(p) && i < |p|
    ensures Find(p, p[i].key) == i && Get(p, p[i].key) == Some(p[i].value)
  {
    FindLast(p, p[i].key);
  }

  lemma KeptEntry(p: Queue, ledger: seq<Record>, force: bool, key: Key)
    requires DistinctKeys(p)
    ensures var was := Get(p, key);
      Get(KeptOnly(p, ledger, force), key) ==
      if was.Some? && Kept(Entry(key, was.value), ledger, force) then was else None
  {
    hide Kept, KeptOnly;
    var q, i := KeptOnly(p, ledger, force), Find(p, key);
    KeptExact(p, ledger, force);
    KeptDistinct(p, ledger, force);
    if i >= 0 && Kept(p[i], ledger, force) {
      var j :| 0 <= j < |q| && q[j] == p[i];
      GetAt(q, j);
    } else if Find(q, key) >= 0 {
      assert q[Find(q, key)] in p;
      var j :| 0 <= j < |p| && p[j] == q[Find(q, key)];
      GetAt(p, j);
    }
  }

  // --------------------------------------------------------------- the pump

  /** What a pump makes of an entry: its read is started, if it waited and is due. */
  ghost predicate PumpedTo(s: State, after: State, i: nat, now: int)
    requires i < |s.pending| && i < |after.pending|
  {
    var e, e' := s.pending[i], after.pending[i];
    e' == e || (e.value.controller.None? && e.value.due <= now && e'.value.controller.Some?
                && s.issued <= e'.value.controller.value < after.issued
                && e' == e.(value := e.value.(controller := e'.value.controller)))
  }

  lemma {:induction false} AdmittedEntry(s: State, now: int, from: nat, i: nat)
    requires from <= |s.pending| && i < |s.pending|
    ensures var q := Admitted(s, now, from);
      && |q.pending| == |s.pending| && PumpedTo(s, q, i, now)
      && (i < from || s.pending[i].value.controller.Some? ==> q.pending[i] == s.pending[i])
    ensures Admitted(s, now, from).issued - s.issued == Admitted(s, now, from).active - s.active >= 0
    decreases |s.pending| - from
  {
    if from < |s.pending| && s.active < AtOnce {
      AdmittedEntry(if Due(s.pending[from], now) then Started(s, from) else s, now, from + 1, i);
    }
  }

  /** Nothing that is due is overtaken by a later entry. */
  lemma {:induction false} AdmittedInOrder(s: State, now: int, from: nat, j: nat, i: nat)
    requires from <= j < i < |s.pending| && s.pending[j].value.controller.None? && s.pending[j].value.due <= now
    requires var q := Admitted(s, now, from); i < |q.pending| && q.pending[i] != s.pending[i]
    ensures var q := Admitted(s, now, from); j < |q.pending| && q.pending[j].value.controller.Some?
    decreases |s.pending| - from
  {
    if from < |s.pending| && s.active < AtOnce {
      var t := if Due(s.pending[from], now) then Started(s, from) else s;
      if from == j {
        AdmittedEntry(t, now, from + 1, j);
      } else {
        AdmittedInOrder(t, now, from + 1, j, i);
      }
    }
  }

  lemma PumpedEntry(s: State, now: int, i: nat)
    requires Core(s) && !s.disposed && i < |s.pending|
    ensures var after := Pumped(s, now);
      && |after.pending| == |s.pending| && PumpedTo(s, after, i, now)
      && (after.pending[i].value.controller.None? ==> after.active == AtOnce || now < after.pending[i].value.due)
  {
    var t := s.(timer := None);
    AdmittedEntry(t, now, 0, i);
    AdmittedCore(t, now, 0);
    hide Busy, Admitted;
  }

  /** Reads are started in the order of the queue. */
  lemma PumpInOrder(s: State, now: int, j: nat, i: nat)
    requires !s.disposed && j < i < |s.pending| && s.pending[j].value.controller.None? && s.pending[j].value.due <= now
    requires var p := Pumped(s, now).pending; i < |p| && p[i] != s.pending[i]
    ensures var p := Pumped(s, now).pending; j < |p| && p[j].value.controller.Some?
  {
    AdmittedInOrder(s.(timer := None), now, 0, j, i);
  }

  /** The timer is never late and never early: when it fires, a read is started
      exactly if its time has come, and before that nothing changes at all. */
  lemma FireExact(s: State, now: int)
    requires Sound(s) && s.timer.Some?
    ensures if s.timer.value <= now then Pumped(s, now).active > s.active else Pumped(s, now) == s
  {
    WaitingIsServed(s);
    var t := s.(timer := None);
    var i :| 0 <= i < |s.pending| && Waits(s.pending[i]) && s.pending[i].value.due == s.timer.value;
    AdmittedEntry(t, now, 0, i);
    AdmittedCore(t, now, 0);
    if now < s.timer.value { NothingDue(t, now, 0); }
    hide Busy, Admitted;
  }

  lemma {:induction false} NothingDue(s: State, now: int, from: nat)
    requires from <= |s.pending| && forall i :: 0 <= i < |s.pending| && Waits(s.pending[i]) ==>
      now < s.pending[i].value.due
    ensures Admitted(s, now, from) == s
    decreases |s.pending| - from
  {
    if from < |s.pending| && s.active < AtOnce { NothingDue(s, now, from + 1); }
  }

  // ------------------------------------------------------------ reconciling

  /** The entry the reconciled run had under the key. */
  function Before(s: State, run: string, key: Key): Option<Pending> {
    if s.currentRun == Some(run) then Get(s.pending, key) else None
  }

  /** An operation has a read of this generation outstanding. */
  ghost predicate BeingRead(s: State, key: Key) {
    exists id :: id in s.inFlight && s.inFlight[id].generation == s.generation && s.inFlight[id].key == key
  }

  /** The queue just before the pump. */
  function Settled(s: State, records: seq<Record>, run: string, force: bool, ledger: seq<Record>, now: int): State {
    var t := OnRun(s, run);
    t.(pending := KeptOnly(AllRequested(t.pending, records, run, force, now), ledger, force))
  }

  lemma SettledCore(s: State, records: seq<Record>, run: string, force: bool, ledger: seq<Record>, now: int)
    requires Sound(s) && !s.disposed
    ensures var q := Settled(s, records, run, force, ledger, now); Core(q) && !q.disposed
    ensures Reconciled(s, records, run, force, ledger, now) == Pumped(Settled(s, records, run, force, ledger, now), now)
  {
    OnRunCore(s, run);
    var t := OnRun(s, run);
    var asked := AllRequested(t.pending, records, run, force, now);
    AllRequestedReshapes(t.pending, records, run, force, now);
    KeptReshapes(asked, ledger, force, Some(run));
    hide Core, Pumped, OnRun, AllRequested, KeptOnly;
    ReshapedChain(t.pending, asked, KeptOnly(asked, ledger, force), Some(run));
    ReshapedCore(t, KeptOnly(asked, ledger, force));
  }

  /** What is left of an entry under the key before the pump. */
  lemma SettledEntry(s: State, records: seq<Record>, run: string, force: bool, ledger: seq<Record>, now: int, key: Key)
    returns (asked: Option<Pending>)
    requires Sound(s) && !s.disposed
    ensures AfterAsking(Before(s, run, key), asked, LastWanted(records, run, force, key), force, now)
    ensures Get(Settled(s, records, run, force, ledger, now).pending, key) ==
      if asked.Some? && Kept(Entry(key, asked.value), ledger, force) then asked else None
  {
    OnRunCore(s, run);
    var t := OnRun(s, run);
    AllRequestedEntry(t.pending, records, run, force, now, key);
    var q := AllRequested(t.pending, records, run, force, now);
    asked := Get(q, key);
    KeptEntry(q, ledger, force, key);
    assert Get(t.pending, key) == Before(s, run, key);
    hide AllRequested, KeptOnly, LastWanted, AfterAsking, Kept, Core;
  }

  /** An entry that is left after the pump is read, or both slots are taken, or it
      is not due yet. */
  lemma SettledServed(q: State, now: int, key: Key)
    requires Core(q) && !q.disposed && Get(q.pending, key).Some?
    ensures var after := Pumped(q, now);
      && Get(after.pending, key).Some?
      && (BeingRead(after, key) || after.active == AtOnce || now < Get(q.pending, key).value.due)
  {
    var i, after := Find(q.pending, key), Pumped(q, now);
    PumpedEntry(q, now, i);
    PumpedSound(q, now);
    hide Pumped, Busy;
    GetAt(after.pending, i);
    if after.pending[i].value.controller.Some? {
      var id := after.pending[i].value.controller.value;
      assert id in after.inFlight;
    }
  }

  lemma {:induction false} WantedLast(records: seq<Record>, run: string, force: bool, r: Record)
    requires r in records && Wanted(r, run, force)
    ensures LastWanted(records, run, force, OperationKey(r)).Some?
  {
    var last := records[|records| - 1];
    if !(Wanted(last, run, force) && OperationKey(last) == OperationKey(r)) {
      WantedLast(records[..|records| - 1], run, force, r);
    }
  }

  /** A wanted operation that the ledger needs and that is new to the queue, or forced. */
  predicate ReadNow(s: State, run: string, force: bool, ledger: seq<Record>, r: Record) {
    && Wanted(r, run, force)
    && (StillNeeds(ledger, OperationKey(r)) || (force && CurrentOf(ledger, OperationKey(r)).Some?))
    && (force || Before(s, run, OperationKey(r)).None?)
  }

  /** A wanted operation that was not queued yet is read at once, and when forced so
      is every wanted operation, unless both slots are taken. */
  lemma ReadAtOnce(s: State, records: seq<Record>, run: string, force: bool, ledger: seq<Record>, now: int, r: Record)
    requires Sound(s) && !s.disposed && r in records && ReadNow(s, run, force, ledger, r)
    ensures var after := Reconciled(s, records, run, force, ledger, now);
      BeingRead(after, OperationKey(r)) || after.active == AtOnce
  {
    var key := OperationKey(r);
    var q := Settled(s, records, run, force, ledger, now);
    SettledCore(s, records, run, force, ledger, now);
    var asked := SettledEntry(s, records, run, force, ledger, now, key);
    WantedLast(records, run, force, r);
    hide Core, Settled, Reconciled, Pumped, LastWanted, OperationKey, CurrentOf, NeedsLookup, Before, Get;
    assert Kept(Entry(key, asked.value), ledger, force);
    if asked.value.controller.Some? {
      BusyStays(q, now, key);
    } else {
      SettledServed(q, now, key);
    }
  }

  lemma AllReadAtOnce(s: State, records: seq<Record>, run: string, force: bool, ledger: seq<Record>, now: int)
    requires Sound(s) && !s.disposed
    ensures var after := Reconciled(s, records, run, force, ledger, now);
      forall r :: r in records && ReadNow(s, run, force, ledger, r) ==>
        BeingRead(after, OperationKey(r)) || after.active == AtOnce
  {
    hide Sound, ReadNow, Reconciled, BeingRead, OperationKey;
    forall r | r in records && ReadNow(s, run, force, ledger, r)
      ensures BeingRead(Reconciled(s, records, run, force, ledger, now), OperationKey(r))
        || Reconciled(s, records, run, force, ledger, now).active == AtOnce
    {
      ReadAtOnce(s, records, run, force, ledger, now, r);
    }
  }

  lemma {:induction false} CurrentIs(ledger: seq<Record>, i: nat)
    requires i < |ledger| && forall j :: 0 <= j < i ==> OperationKey(ledger[j]) != OperationKey(ledger[i])
    ensures CurrentOf(ledger, OperationKey(ledger[i])) == Some(ledger[i])
  {
    hide OperationKey;
    if i > 0 { CurrentIs(ledger[1..], i - 1); }
  }

  /** Reconciling with the whole ledger, as its owner does: with one record per
      operation, each of the run that needs its status and is not queued yet, or each
      of the run when forced, is being read, or both slots are taken. */
  lemma LedgerReadAtOnce(s: State, run: string, force: bool, ledger: seq<Record>, now: int, i: nat)
    requires Sound(s) && !s.disposed && i < |ledger| && ledger[i].hostRun == run
    requires forall j, k :: 0 <= j < k < |ledger| ==> OperationKey(ledger[j]) != OperationKey(ledger[k])
    requires force || (NeedsLookup(ledger[i]) && Before(s, run, OperationKey(ledger[i])).None?)
    ensures var after := Reconciled(s, ledger, run, force, ledger, now);
      BeingRead(after, OperationKey(ledger[i])) || after.active == AtOnce
  {
    CurrentIs(ledger, i);
    hide Sound, Reconciled, OperationKey, CurrentOf, Before, BeingRead;
    ReadAtOnce(s, ledger, run, force, ledger, now, ledger[i]);
  }

  lemma BusyStays(q: State, now: int, key: Key)
    requires Core(q) && !q.disposed && Get(q.pending, key).Some? && Get(q.pending, key).value.controller.Some?
    ensures BeingRead(Pumped(q, now), key)
  {
    var i, after := Find(q.pending, key), Pumped(q, now);
    PumpedEntry(q, now, i);
    PumpedSound(q, now);
    hide Pumped, Busy;
    var id := after.pending[i].value.controller.value;
    assert id in after.inFlight;
  }

  /** Writing to the ledger does not hurry a retry: unless forced, an operation that
      still needs its status keeps its tries and its due time. */
  lemma RetryKeepsWaiting(s: State, records: seq<Record>, run: string, ledger: seq<Record>, now: int, key: Key)
    requires Sound(s) && !s.disposed && s.currentRun == Some(run) && Get(s.pending, key).Some?
    requires StillNeeds(ledger, key)
    ensures var was, entry := Get(s.pending, key).value,
      Get(Reconciled(s, records, run, false, ledger, now).pending, key);
      && entry.Some? && entry.value.attempt == was.attempt && entry.value.due == was.due
        && entry.value.forced == was.forced
      && (was.controller.None? && now < was.due ==> entry.value.controller.None?)
      && (was.controller.Some? ==> entry.value.controller == was.controller)
  {
    var q := Settled(s, records, run, false, ledger, now);
    SettledCore(s, records, run, false, ledger, now);
    var asked := SettledEntry(s, records, run, false, ledger, now, key);
    hide Settled, Reconciled, Pumped, LastWanted, CurrentOf, NeedsLookup;
    assert asked.Some? && Kept(Entry(key, asked.value), ledger, false);
    var i, after := Find(q.pending, key), Pumped(q, now);
    PumpedEntry(q, now, i);
    PumpedSound(q, now);
    hide Busy;
    GetAt(after.pending, i);
  }

  // ------------------------------------------------------- once, and never again

  /** How far the promise chain of a read has come. */
  function Reached(s: State, id: nat): nat {
    if id !in s.inFlight then 3
    else match s.inFlight[id].stage
      case Reading => 0
      case Threw => 1
      case Closing => 2
  }

  lemma {:induction false} AdmittedReaches(s: State, now: int, from: nat, id: nat)
    requires from <= |s.pending| && id < s.issued
    ensures var q := Admitted(s, now, from); id < q.issued && Reached(q, id) == Reached(s, id)
    decreases |s.pending| - from
  {
    if from < |s.pending| && s.active < AtOnce {
      AdmittedReaches(if Due(s.pending[from], now) then Started(s, from) else s, now, from + 1, id);
    }
  }

  lemma PumpedReaches(s: State, now: int, id: nat)
    requires id < s.issued
    ensures id < Pumped(s, now).issued && Reached(Pumped(s, now), id) == Reached(s, id)
  {
    if !s.disposed { AdmittedReaches(s.(timer := None), now, 0, id); }
  }

  /** Every step takes a read's chain forward, or leaves it where it is; the read's
      own steps take it forward. */
  lemma NextReaches(s: State, step: Step, id: nat)
    requires Enabled(s, step) && id < s.issued
    ensures id < Next(s, step).issued && Reached(s, id) <= Reached(Next(s, step), id)
    ensures (step.Fulfil? || step.Reject? || step.Finish?) && step.id == id ==>
      Reached(s, id) < Reached(Next(s, step), id)
    ensures step.Reject? && step.id == id ==> Reached(Next(s, step), id) == 2
    ensures step.Fulfil? && step.id == id ==>
      Reached(Next(s, step), id) == (if step.throws && Speaks(s, id) then 1 else 2)
  {
    match step
    case Reconcile(records, run, force, ledger, now) =>
      if !s.disposed {
        hide Pumped, AllRequested, KeptOnly;
        PumpedReaches(Settled(s, records, run, force, ledger, now), now, id);
      }
    case Fire(now) => PumpedReaches(s, now, id);
    case Finish(other, ledger, now) =>
      hide Pumped, AfterRead;
      if Speaks(s, other) { PumpedReaches(Booked(s, other, ledger, now), now, id); }
    case _ =>
  }

  lemma {:induction false} RunReaches(s: State, steps: seq<Step>, id: nat)
    requires Possible(s, steps) && id < s.issued
    ensures id < After(s, steps).issued && Reached(s, id) <= Reached(After(s, steps), id)
    decreases |steps|
  {
    hide Next, Reached, Enabled;
    if steps != [] {
      NextReaches(s, steps[0], id);
      RunReaches(Next(s, steps[0]), steps[1..], id);
    }
  }

  predicate MayFulfil(s: State, id: nat) { id in s.inFlight && s.inFlight[id].stage.Reading? }

  predicate MayReject(s: State, id: nat) { id in s.inFlight && !s.inFlight[id].stage.Closing? }

  /** A read answers at most once, and fails at most once, whatever happens in
      between and after: it is never fulfilled a second time, and it fails after an
      answer exactly if the owner's callback threw on that answer. */
  lemma AnswersOnce(s: State, step: Step, steps: seq<Step>)
    requires Sound(s) && Enabled(s, step) && (step.Fulfil? || step.Reject?) && Possible(Next(s, step), steps)
    ensures var end := After(Next(s, step), steps);
      !MayFulfil(end, step.id) && (step.Reject? || !step.throws || !Speaks(s, step.id) ==> !MayReject(end, step.id))
    ensures step.Fulfil? && step.throws && Speaks(s, step.id) ==> MayReject(Next(s, step), step.id)
  {
    hide Next, After;
    NextReaches(s, step, step.id);
    RunReaches(Next(s, step), steps, step.id);
  }

  /** After disposal nothing is queued, timed or read any more. */
  ghost predicate Over(s: State, issued: nat) { s.disposed && s.pending == [] && s.timer.None? && s.issued == issued }

  lemma {:induction false} DisposedForever(s: State, steps: seq<Step>)
    requires Possible(s, steps) && Over(s, s.issued)
    ensures Over(After(s, steps), s.issued)
    decreases |steps|
  {
    if steps != [] {
      OverNext(s, steps[0]);
      hide Next, Enabled;
      DisposedForever(Next(s, steps[0]), steps[1..]);
    }
  }

  lemma OverNext(s: State, step: Step)
    requires Enabled(s, step) && Over(s, s.issued)
    ensures Over(Next(s, step), s.issued)
  {
  }

  lemma DisposalIsFinal(s: State, steps: seq<Step>)
    requires Possible(Disposed(s), steps)
    ensures Over(After(Disposed(s), steps), s.issued)
  {
    DisposedForever(Disposed(s), steps);
  }
}
