/** The lookup reconciler: at most two status reads at a time, retry timers, and
    generations that disown what they replaced (web/src/command-lookups.ts). */
module Lookups {
  import opened JsMap
  import opened HostCommands
  import opened Ledger

  /** `controller` names the outstanding read, if there is one. */
  datatype Pending = Pending(record: Record, attempt: nat, due: int, forced: bool, controller: Option<nat>)

  /** Where the promise chain of a read stands: not yet settled; its result
      callback threw, so its error callback is next; only `finally` is left. */
  datatype Stage = Reading | Threw | Closing

  datatype Read = Read(generation: nat, key: Key, stage: Stage)

  datatype State = State(
    pending: Table<Key, Pending>, generation: nat, disposed: bool, active: int,
    currentRun: Option<string>, timer: Option<int>, issued: nat, inFlight: map<nat, Read>)

  const AtOnce := 2

  function Delay(attempt: nat): int {
    if attempt == 0 then 1000 else if attempt == 1 then 2000 else if attempt == 2 then 5000
    else if attempt == 3 then 10000 else 30000
  }

  // ------------------------------------------------------------ the steps

  predicate Waits(e: Entry<Key, Pending>) { e.value.controller.None? }

  predicate Due(e: Entry<Key, Pending>, now: int) { Waits(e) && e.value.due <= now }

  /** The least due time of the first `n` waiting entries. */
  function NextDue(pending: Table<Key, Pending>, n: nat): Option<int>
    requires n <= |pending|
  {
    if n == 0 then None
    else
      var rest, e := NextDue(pending, n - 1), pending[n - 1];
      if !Waits(e) || (rest.Some? && rest.value <= e.value.due) then rest else Some(e.value.due)
  }

  function Started(s: State, i: nat): State
    requires i < |s.pending|
  {
    var e := s.pending[i];
    s.(pending := s.pending[i := e.(value := e.value.(controller := Some(s.issued)))], active := s.active + 1,
       issued := s.issued + 1, inFlight := s.inFlight[s.issued := Read(s.generation, e.key, Reading)])
  }

  /** Start due reads from entry `i` on, while slots are free. */
  function Admitted(s: State, now: int, i: nat): State
    requires i <= |s.pending|
    decreases |s.pending| - i
  {
    if i == |s.pending| || s.active >= AtOnce then s
    else Admitted(if Due(s.pending[i], now) then Started(s, i) else s, now, i + 1)
  }

  function Rearmed(s: State): State {
    s.(timer := if s.active < AtOnce then NextDue(s.pending, |s.pending|) else None)
  }

  function Pumped(s: State, now: int): State {
    if s.disposed then s else Rearmed(Admitted(s.(timer := None), now, 0))
  }

  function Paused(s: State): State {
    s.(generation := s.generation + 1, timer := None, pending := [], active := 0, currentRun := None)
  }

  predicate Wanted(r: Record, run: string, force: bool) { r.hostRun == run && (force || NeedsLookup(r)) }

  function Requested(pending: Table<Key, Pending>, r: Record, force: bool, now: int): Table<Key, Pending> {
    var key := OperationKey(r);
    var i := Find(pending, key);
    if i < 0 then pending + [Entry(key, Pending(r, 0, now, force, None))]
    else
      var e := pending[i].value;
      pending[i := Entry(key, Pending(r, e.attempt, if force && e.controller.None? then now else e.due,
                                      e.forced || force, e.controller))]
  }

  function AllRequested(pending: Table<Key, Pending>, records: seq<Record>, run: string, force: bool,
                        now: int): Table<Key, Pending>
  {
    if records == [] then pending
    else
      var init, r := AllRequested(pending, records[..|records| - 1], run, force, now), records[|records| - 1];
      if Wanted(r, run, force) then Requested(init, r, force, now) else init
  }

  /** The first record of the ledger with the key. */
  function CurrentOf(ledger: seq<Record>, key: Key): Option<Record> {
    if ledger == [] then None
    else if OperationKey(ledger[0]) == key then Some(ledger[0])
    else CurrentOf(ledger[1..], key)
  }

  /** Whether reconciling keeps an entry. */
  predicate Kept(e: Entry<Key, Pending>, ledger: seq<Record>, force: bool) {
    || !Waits(e)
    || (CurrentOf(ledger, e.key).Some? && (force || e.value.forced || NeedsLookup(CurrentOf(ledger, e.key).value)))
  }

  function KeptOnly(pending: Table<Key, Pending>, ledger: seq<Record>, force: bool): Table<Key, Pending> {
    if pending == [] then []
    else
      var init, e := KeptOnly(pending[..|pending| - 1], ledger, force), pending[|pending| - 1];
      if Kept(e, ledger, force) then init + [e] else init
  }

  function OnRun(s: State, run: string): State {
    if s.currentRun == Some(run) then s else Paused(s).(currentRun := Some(run))
  }

  function Reconciled(s: State, records: seq<Record>, run: string, force: bool, ledger: seq<Record>, now: int): State {
    if s.disposed then s
    else
      var t := OnRun(s, run);
      Pumped(t.(pending := KeptOnly(AllRequested(t.pending, records, run, force, now), ledger, force)), now)
  }

  function Disposed(s: State): State { Paused(s.(disposed := true)) }

  /** Whether a read may still speak. */
  predicate Speaks(s: State, id: nat) { !s.disposed && id in s.inFlight && s.inFlight[id].generation == s.generation }

  function Staged(s: State, id: nat, stage: Stage): State
    requires id in s.inFlight
  {
    s.(inFlight := s.inFlight[id := s.inFlight[id].(stage := stage)])
  }

  /** The entry after its read has finished, for the ledger of that moment. */
  function Retried(e: Pending, r: Record, now: int): Pending {
    Pending(r, e.attempt + 1, now + Delay(e.attempt), false, None)
  }

  predicate StillNeeds(ledger: seq<Record>, key: Key) {
    CurrentOf(ledger, key).Some? && NeedsLookup(CurrentOf(ledger, key).value)
  }

  /** The queue after a finished read: its operation is retried later or forgotten. */
  function AfterRead(pending: Table<Key, Pending>, key: Key, ledger: seq<Record>, now: int): Table<Key, Pending> {
    var i := Find(pending, key);
    if i < 0 || !StillNeeds(ledger, key) then Delete(pending, key)
    else pending[i := Entry(key, Retried(pending[i].value, CurrentOf(ledger, key).value, now))]
  }

  /** The finished read is off the books. */
  function Booked(s: State, id: nat, ledger: seq<Record>, now: int): State
    requires Speaks(s, id)
  {
    s.(inFlight := s.inFlight - {id}, active := s.active - 1,
       pending := AfterRead(s.pending, s.inFlight[id].key, ledger, now))
  }

  function Finished(s: State, id: nat, ledger: seq<Record>, now: int): State
    requires id in s.inFlight
  {
    if Speaks(s, id) then Pumped(Booked(s, id, ledger, now), now) else s.(inFlight := s.inFlight - {id})
  }

  datatype Step =
    | Reconcile(records: seq<Record>, run: string, force: bool, ledger: seq<Record>, now: int)
    | Pause
    | Dispose
    | Fire(now: int)
    | Fulfil(id: nat, status: Option<Status>, throws: bool)
    | Reject(id: nat, error: string)
    | Finish(id: nat, ledger: seq<Record>, now: int)

  predicate Enabled(s: State, step: Step) {
    match step
    case Fire(_) => s.timer.Some?
    case Fulfil(id, _, _) => id in s.inFlight && s.inFlight[id].stage.Reading?
    case Reject(id, _) => id in s.inFlight && !s.inFlight[id].stage.Closing?
    case Finish(id, _, _) => id in s.inFlight && s.inFlight[id].stage.Closing?
    case _ => true
  }

  function Next(s: State, step: Step): State
    requires Enabled(s, step)
  {
    match step
    case Reconcile(records, run, force, ledger, now) => Reconciled(s, records, run, force, ledger, now)
    case Pause => Paused(s)
    case Dispose => Disposed(s)
    case Fire(now) => Pumped(s, now)
    case Fulfil(id, _, throws) => Staged(s, id, if throws && Speaks(s, id) then Threw else Closing)
    case Reject(id, _) => Staged(s, id, Closing)
    case Finish(id, ledger, now) => Finished(s, id, ledger, now)
  }

  datatype Callback = Result(record: Record, status: Option<Status>) | Failed(record: Record, error: string)

  /** What the step tells the owner of the ledger. */
  function Told(s: State, step: Step): Option<Callback>
    requires Enabled(s, step)
  {
    if (step.Fulfil? || step.Reject?) && Speaks(s, step.id) then
      var i := Find(s.pending, s.inFlight[step.id].key);
      if i < 0 then None
      else if step.Fulfil? then Some(Result(s.pending[i].value.record, step.status))
      else Some(Failed(s.pending[i].value.record, step.error))
    else None
  }

  const Fresh := State([], 0, false, 0, None, None, 0, map[])

  predicate Possible(s: State, steps: seq<Step>)
    decreases |steps|
  {
    steps == [] || (Enabled(s, steps[0]) && Possible(Next(s, steps[0]), steps[1..]))
  }

  function After(s: State, steps: seq<Step>): State
    requires Possible(s, steps)
    decreases |steps|
  {
    if steps == [] then s else After(Next(s, steps[0]), steps[1..])
  }
}
