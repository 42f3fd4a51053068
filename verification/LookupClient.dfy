/** The closure state of `createCommandLookups` and the code that changes it. */
module LookupClient {
  import opened JsMap
  import opened Ledger
  import opened Lookups
  import opened LookupRuns
  import opened LookupProgress

  class CommandLookups {
    var pending: Queue
    var generation: nat
    var disposed: bool
    var active: int
    var currentRun: Option<string>
    var timer: Option<int>
    var issued: nat
    var inFlight: map<nat, Read>

    ghost function Value(): State
      reads this
    {
      State(pending, generation, disposed, active, currentRun, timer, issued, inFlight)
    }

    ghost predicate Valid()
      reads this
    {
      Sound(Value())
    }

    constructor ()
      ensures Valid() && Value() == Fresh
    {
      pending, generation, disposed, active := [], 0, false, 0;
      currentRun, timer, issued, inFlight := None, None, 0, map[];
      new;
      StartSound();
    }

    /** Start due reads in insertion order while a slot is free, then arm the timer. */
    method Pump(now: int)
      modifies this
      ensures Value() == Pumped(old(Value()), now)
    {
      if disposed { return; }
      timer := None;
      ghost var before := Value();
      var i := 0;
      while i < |pending| && active < AtOnce
        invariant i <= |pending|
        invariant Admitted(Value(), now, i) == Admitted(before, now, 0)
        decreases |pending| - i
      {
        var e := pending[i];
        if Due(e, now) {
          pending := pending[i := e.(value := e.value.(controller := Some(issued)))];
          active := active + 1;
          inFlight := inFlight[issued := Read(generation, e.key, Reading)];
          issued := issued + 1;
        }
        i := i + 1;
      }
      Arm();
    }

    /** `Math.min` over the waiting entries. */
    method Arm()
      modifies this
      ensures Value() == Rearmed(old(Value()))
    {
      var next: Option<int> := None;
      for i := 0 to |pending|
        invariant next == NextDue(pending, i)
        invariant Value() == old(Value())
      {
        var e := pending[i];
        if Waits(e) && (next.None? || e.value.due < next.value) { next := Some(e.value.due); }
      }
      timer := if active < AtOnce then next else None;
    }

    method Pause()
      requires Valid()
      modifies this
      ensures Valid() && Value() == Paused(old(Value()))
    {
      PausedSound(Value());
      hide Sound;
      generation := generation + 1;
      timer := None;
      pending := [];
      active := 0;
      currentRun := None;
    }

    method Dispose()
      requires Valid()
      modifies this
      ensures Valid() && Value() == Disposed(old(Value()))
    {
      DisposedSound(Value());
      hide Sound;
      disposed := true;
      generation := generation + 1;
      timer := None;
      pending := [];
      active := 0;
      currentRun := None;
    }

    /** The loop over the given records. */
    method Request(records: seq<Record>, run: string, force: bool, now: int)
      modifies this
      ensures Value() == old(Value()).(pending := AllRequested(old(pending), records, run, force, now))
      ensures DistinctKeys(old(pending)) ==> forall key ::
        AfterAsking(Get(old(pending), key), Get(pending, key), LastWanted(records, run, force, key), force, now)
    {
      for i := 0 to |records|
        invariant Value() == old(Value()).(pending := AllRequested(old(pending), records[..i], run, force, now))
      {
        var r := records[i];
        assert records[..i + 1][..i] == records[..i];
        if Wanted(r, run, force) {
          var key := OperationKey(r);
          var at := Find(pending, key);
          if at >= 0 {
            var e := pending[at].value;
            e := e.(record := r);
            if force { e := e.(forced := true); }
            if force && e.controller.None? { e := e.(due := now); }
            pending := pending[at := Entry(key, e)];
          } else {
            pending := pending + [Entry(key, Pending(r, 0, now, force, None))];
          }
        }
      }
      assert records[..|records|] == records;
      if DistinctKeys(old(pending)) {
        forall key
          ensures AfterAsking(Get(old(pending), key), Get(pending, key), LastWanted(records, run, force, key), force,
                              now)
        {
          AllRequestedEntry(old(pending), records, run, force, now, key);
        }
      }
    }

    /** The loop that drops queued reads the ledger no longer needs. */
    method Cancel(ledger: seq<Record>, force: bool)
      modifies this
      ensures Value() == old(Value()).(pending := KeptOnly(old(pending), ledger, force))
    {
      var kept: Queue := [];
      for i := 0 to |pending|
        invariant Value() == old(Value())
        invariant kept == KeptOnly(pending[..i], ledger, force)
      {
        assert pending[..i + 1][..i] == pending[..i];
        if Kept(pending[i], ledger, force) { kept := kept + [pending[i]]; }
      }
      assert pending[..|pending|] == pending;
      pending := kept;
    }

    method Reconcile(records: seq<Record>, run: string, force: bool, ledger: seq<Record>, now: int)
      requires Valid()
      modifies this
      ensures Valid() && Value() == Reconciled(old(Value()), records, run, force, ledger, now)
      ensures !disposed ==> forall r :: r in records && ReadNow(old(Value()), run, force, ledger, r) ==>
        BeingRead(Value(), OperationKey(r)) || active == AtOnce
    {
      ReconciledSound(Value(), records, run, force, ledger, now);
      if !disposed { AllReadAtOnce(Value(), records, run, force, ledger, now); }
      hide Sound, Pumped, AllRequested, KeptOnly;
      if disposed { return; }
      if currentRun != Some(run) {
        Pause();
        currentRun := Some(run);
      }
      Request(records, run, force, now);
      Cancel(ledger, force);
      Pump(now);
    }

    /** The timer fires. */
    method Fire(now: int)
      requires Valid() && timer.Some?
      modifies this
      ensures Valid() && Value() == Next(old(Value()), Step.Fire(now))
    {
      NextSound(Value(), Step.Fire(now));
      hide Sound;
      Pump(now);
    }

    /** The read resolves: its callback, unless it has been superseded. */
    method Fulfil(id: nat, status: Option<HostCommands.Status>, throws: bool) returns (told: Option<Callback>)
      requires Valid() && Enabled(Value(), Step.Fulfil(id, status, throws))
      modifies this
      ensures Valid() && Value() == Next(old(Value()), Step.Fulfil(id, status, throws))
      ensures told == Told(old(Value()), Step.Fulfil(id, status, throws))
    {
      NextSound(Value(), Step.Fulfil(id, status, throws));
      hide Sound;
      var read := inFlight[id];
      told := None;
      if disposed || generation != read.generation {
        inFlight := inFlight[id := read.(stage := Closing)];
        return;
      }
      var at := Find(pending, read.key);
      if at >= 0 { told := Some(Result(pending[at].value.record, status)); }
      inFlight := inFlight[id := read.(stage := if throws then Threw else Closing)];
    }

    method Reject(id: nat, error: string) returns (told: Option<Callback>)
      requires Valid() && Enabled(Value(), Step.Reject(id, error))
      modifies this
      ensures Valid() && Value() == Next(old(Value()), Step.Reject(id, error))
      ensures told == Told(old(Value()), Step.Reject(id, error))
    {
      NextSound(Value(), Step.Reject(id, error));
      hide Sound;
      var read := inFlight[id];
      told := None;
      inFlight := inFlight[id := read.(stage := Closing)];
      if disposed || generation != read.generation { return; }
      var at := Find(pending, read.key);
      if at >= 0 { told := Some(Failed(pending[at].value.record, error)); }
    }

    /** The entry of the finished read is retried later or forgotten. */
    method Book(key: Key, ledger: seq<Record>, now: int)
      modifies this
      ensures Value() == old(Value()).(pending := AfterRead(old(pending), key, ledger, now))
    {
      hide CurrentOf, NeedsLookup, Delete, Find;
      var at, current := Find(pending, key), CurrentOf(ledger, key);
      if at < 0 || current.None? || !NeedsLookup(current.value) {
        pending := Delete(pending, key);
      } else {
        var e := pending[at].value;
        e := e.(controller := None, forced := false, record := current.value);
        e := e.(due := now + Delay(e.attempt), attempt := e.attempt + 1);
        pending := pending[at := Entry(key, e)];
      }
    }

    method Release(id: nat, ledger: seq<Record>, now: int)
      requires Speaks(Value(), id)
      modifies this
      ensures Value() == Booked(old(Value()), id, ledger, now)
    {
      hide AfterRead;
      var key := inFlight[id].key;
      inFlight := inFlight - {id};
      active := active - 1;
      Book(key, ledger, now);
    }

    /** `finally`: free the slot, settle the entry, look for more to do. */
    method Finish(id: nat, ledger: seq<Record>, now: int)
      requires Valid() && id in inFlight && inFlight[id].stage.Closing?
      modifies this
      ensures Valid() && Value() == Finished(old(Value()), id, ledger, now)
    {
      FinishedSound(Value(), id, ledger, now);
      hide Sound, Pumped, Booked;
      if disposed || generation != inFlight[id].generation {
        inFlight := inFlight - {id};
      } else {
        Release(id, ledger, now);
        Pump(now);
      }
    }
  }
}
