/** What every interleaving of the lookup reconciler's steps keeps. */
module LookupRuns {
  import opened JsMap
  import opened Ledger
  import opened Lookups

  type Queue = Table<Key, Pending>

  // ------------------------------------------------------- the invariant

  /** How many entries have a read in flight. */
  function Busy(pending: Queue): nat {
    if pending == [] then 0
    else Busy(pending[..|pending| - 1]) + (if Waits(pending[|pending| - 1]) then 0 else 1)
  }

  ghost predicate Keyed(pending: Queue, run: Option<string>) {
    forall i :: 0 <= i < |pending| ==>
      pending[i].key == OperationKey(pending[i].value.record) && run == Some(pending[i].value.record.hostRun)
  }

  ghost predicate Holding(pending: Queue, id: nat, key: Key) {
    exists i :: 0 <= i < |pending| && pending[i].key == key && pending[i].value.controller == Some(id)
  }

  /** Entries and the reads of this generation name each other. */
  ghost predicate Owned(pending: Queue, generation: nat, inFlight: map<nat, Read>) {
    && (forall i :: 0 <= i < |pending| && !Waits(pending[i]) ==>
         var id := pending[i].value.controller.value;
         id in inFlight && inFlight[id].generation == generation && inFlight[id].key == pending[i].key)
    && (forall id :: id in inFlight && inFlight[id].generation == generation ==> Holding(pending, id, inFlight[id].key))
  }

  ghost predicate Numbered(inFlight: map<nat, Read>, issued: nat, generation: nat) {
    forall id :: id in inFlight ==> id < issued && inFlight[id].generation <= generation
  }

  ghost predicate Core(s: State) {
    && DistinctKeys(s.pending)
    && Keyed(s.pending, s.currentRun)
    && s.active == Busy(s.pending) <= AtOnce
    && Owned(s.pending, s.generation, s.inFlight)
    && Numbered(s.inFlight, s.issued, s.generation)
    && (s.disposed ==> s.pending == [])
  }

  ghost predicate Armed(s: State) {
    s.timer == if s.active < AtOnce then NextDue(s.pending, |s.pending|) else None
  }

  ghost predicate Sound(s: State) { Core(s) && Armed(s) }

  // ------------------------------------------------- counting busy entries

  function One(e: Entry<Key, Pending>): nat { if Waits(e) then 0 else 1 }

  lemma {:induction false} BusyUpdate(p: Queue, i: nat, e: Entry<Key, Pending>)
    requires i < |p|
    ensures Busy(p[i := e]) + One(p[i]) == Busy(p) + One(e)
    decreases |p|
  {
    var last := |p| - 1;
    if i < last {
      BusyUpdate(p[..last], i, e);
      assert p[i := e][..last] == p[..last][i := e];
    } else {
      assert p[i := e][..last] == p[..last];
    }
  }

  lemma BusyAppend(p: Queue, e: Entry<Key, Pending>)
    ensures Busy(p + [e]) == Busy(p) + One(e)
  {
    assert (p + [e])[..|p|] == p;
  }

  lemma {:induction false} BusyRemove(p: Queue, i: nat)
    requires i < |p|
    ensures Busy(p[..i] + p[i + 1..]) + One(p[i]) == Busy(p)
    decreases |p|
  {
    var last := |p| - 1;
    if i < last {
      BusyRemove(p[..last], i);
      assert p[..i] + p[i + 1..] == (p[..last][..i] + p[..last][i + 1..]) + [p[last]];
      BusyAppend(p[..last][..i] + p[..last][i + 1..], p[last]);
    } else {
      assert p[..i] + p[i + 1..] == p[..last];
    }
  }

  // --------------------------------------------------------- starting reads

  /** Replacing an entry by one with the same key and another controller. */
  lemma OwnedStart(p: Queue, i: nat, e: Entry<Key, Pending>, generation: nat, inFlight: map<nat, Read>, id: nat)
    requires Owned(p, generation, inFlight) && i < |p| && Waits(p[i]) && id !in inFlight
    requires e.key == p[i].key && e.value.controller == Some(id)
    ensures Owned(p[i := e], generation, inFlight[id := Read(generation, e.key, Reading)])
  {
    var p', f' := p[i := e], inFlight[id := Read(generation, e.key, Reading)];
    forall k | k in f' && f'[k].generation == generation ensures Holding(p', k, f'[k].key) {
      if k == id {
        assert p'[i] == e;
      } else {
        assert Holding(p, k, inFlight[k].key);
        var j :| 0 <= j < |p| && p[j].key == inFlight[k].key && p[j].value.controller == Some(k);
        assert p'[j] == p[j];
      }
    }
  }

  lemma StartedCore(s: State, i: nat)
    requires Core(s) && i < |s.pending| && Waits(s.pending[i]) && s.active < AtOnce
    ensures Core(Started(s, i))
  {
    var e := s.pending[i];
    var e' := e.(value := e.value.(controller := Some(s.issued)));
    assert s.issued !in s.inFlight;
    BusyUpdate(s.pending, i, e');
    OwnedStart(s.pending, i, e', s.generation, s.inFlight, s.issued);
  }

  ghost predicate Saturated(s: State, now: int) {
    s.active >= AtOnce || forall j :: 0 <= j < |s.pending| ==> !Due(s.pending[j], now)
  }

  lemma {:induction false} AdmittedCore(s: State, now: int, i: nat)
    requires Core(s) && i <= |s.pending|
    requires forall j :: 0 <= j < i ==> !Due(s.pending[j], now)
    ensures Core(Admitted(s, now, i)) && Saturated(Admitted(s, now, i), now)
    ensures Admitted(s, now, i).disposed == s.disposed
    decreases |s.pending| - i
  {
    hide Core;
    if i < |s.pending| && s.active < AtOnce {
      if Due(s.pending[i], now) {
        StartedCore(s, i);
        AdmittedCore(Started(s, i), now, i + 1);
      } else {
        AdmittedCore(s, now, i + 1);
      }
    }
  }

  lemma PumpedSound(s: State, now: int)
    requires Core(s) && (s.disposed ==> s.timer.None?)
    ensures Sound(Pumped(s, now)) && Saturated(Pumped(s, now), now)
  {
    if !s.disposed { AdmittedCore(s.(timer := None), now, 0); }
  }

  // ----------------------------------------------------------- reconciling

  /** Two tables that hold the same reads under the same keys. */
  ghost predicate SameReads(p: Queue, q: Queue) {
    && (forall i :: 0 <= i < |p| && !Waits(p[i]) ==> Holding(q, p[i].value.controller.value, p[i].key))
    && (forall i :: 0 <= i < |q| && !Waits(q[i]) ==> Holding(p, q[i].value.controller.value, q[i].key))
  }

  lemma OwnedTransfer(p: Queue, q: Queue, generation: nat, inFlight: map<nat, Read>)
    requires Owned(p, generation, inFlight) && SameReads(p, q)
    ensures Owned(q, generation, inFlight)
  {
    forall id | id in inFlight && inFlight[id].generation == generation ensures Holding(q, id, inFlight[id].key) {
      assert Holding(p, id, inFlight[id].key);
      var i :| 0 <= i < |p| && p[i].key == inFlight[id].key && p[i].value.controller == Some(id);
    }
    forall i | 0 <= i < |q| && !Waits(q[i])
      ensures var id := q[i].value.controller.value;
        id in inFlight && inFlight[id].generation == generation && inFlight[id].key == q[i].key
    {
      assert Holding(p, q[i].value.controller.value, q[i].key);
      var j :| 0 <= j < |p| && p[j].key == q[i].key && p[j].value.controller == Some(q[i].value.controller.value);
    }
  }

  lemma SameReadsChain(p: Queue, q: Queue, r: Queue)
    requires SameReads(p, q) && SameReads(q, r)
    ensures SameReads(p, r)
  {
    forall i | 0 <= i < |p| && !Waits(p[i]) ensures Holding(r, p[i].value.controller.value, p[i].key) {
      var j :| 0 <= j < |q| && q[j].key == p[i].key && q[j].value.controller == Some(p[i].value.controller.value);
    }
    forall i | 0 <= i < |r| && !Waits(r[i]) ensures Holding(p, r[i].value.controller.value, r[i].key) {
      var j :| 0 <= j < |q| && q[j].key == r[i].key && q[j].value.controller == Some(r[i].value.controller.value);
    }
  }

  /** What reconciling may do to the table. */
  ghost predicate Reshaped(p: Queue, q: Queue, run: Option<string>) {
    DistinctKeys(q) && Keyed(q, run) && Busy(q) == Busy(p) && SameReads(p, q)
  }

  lemma SameReadsRefl(p: Queue)
    ensures SameReads(p, p)
  {
    forall i | 0 <= i < |p| && !Waits(p[i]) ensures Holding(p, p[i].value.controller.value, p[i].key) {
    }
  }

  lemma SameReadsUpdate(p: Queue, i: nat, e: Entry<Key, Pending>)
    requires i < |p| && e.key == p[i].key && e.value.controller == p[i].value.controller
    ensures SameReads(p, p[i := e])
  {
    var q := p[i := e];
    forall j | 0 <= j < |p| && !Waits(p[j]) ensures Holding(q, p[j].value.controller.value, p[j].key) {
      assert q[j].key == p[j].key && q[j].value.controller == p[j].value.controller;
    }
    forall j | 0 <= j < |q| && !Waits(q[j]) ensures Holding(p, q[j].value.controller.value, q[j].key) {
      assert q[j].key == p[j].key && q[j].value.controller == p[j].value.controller;
    }
  }

  lemma SameReadsAppend(p: Queue, e: Entry<Key, Pending>)
    requires Waits(e)
    ensures SameReads(p, p + [e])
  {
    var q := p + [e];
    forall j | 0 <= j < |p| && !Waits(p[j]) ensures Holding(q, p[j].value.controller.value, p[j].key) {
      assert q[j] == p[j];
    }
  }

  lemma RequestedReshapes(p: Queue, r: Record, force: bool, now: int, run: string)
    requires DistinctKeys(p) && Keyed(p, Some(run)) && r.hostRun == run
    ensures Reshaped(p, Requested(p, r, force, now), Some(run))
  {
    hide OperationKey;
    var q, i, key := Requested(p, r, force, now), Find(p, OperationKey(r)), OperationKey(r);
    FindLast(p, key);
    if i < 0 {
      var e := Entry(key, Pending(r, 0, now, force, None));
      BusyAppend(p, e);
      SameReadsAppend(p, e);
    } else {
      BusyUpdate(p, i, q[i]);
      SameReadsUpdate(p, i, q[i]);
    }
  }

  lemma ReshapedChain(p: Queue, q: Queue, r: Queue, run: Option<string>)
    requires Reshaped(p, q, run) && Reshaped(q, r, run)
    ensures Reshaped(p, r, run)
  {
    SameReadsChain(p, q, r);
  }

  lemma {:induction false} AllRequestedReshapes(p: Queue, records: seq<Record>, run: string, force: bool, now: int)
    requires DistinctKeys(p) && Keyed(p, Some(run))
    ensures Reshaped(p, AllRequested(p, records, run, force, now), Some(run))
  {
    if records == [] {
      SameReadsRefl(p);
    } else {
      var init, r := records[..|records| - 1], records[|records| - 1];
      AllRequestedReshapes(p, init, run, force, now);
      var q := AllRequested(p, init, run, force, now);
      if Wanted(r, run, force) {
        hide Requested, AllRequested, SameReads;
        RequestedReshapes(q, r, force, now, run);
        ReshapedChain(p, q, Requested(q, r, force, now), Some(run));
      }
    }
  }

  /** Keeping filters the table: what is kept and nothing else. */
  lemma {:induction false} KeptExact(p: Queue, ledger: seq<Record>, force: bool)
    ensures forall i :: 0 <= i < |p| && Kept(p[i], ledger, force) ==> p[i] in KeptOnly(p, ledger, force)
    ensures forall e :: e in KeptOnly(p, ledger, force) ==> e in p && Kept(e, ledger, force)
  {
    hide Kept;
    if p != [] { KeptExact(p[..|p| - 1], ledger, force); }
  }

  lemma {:induction false} KeptDistinct(p: Queue, ledger: seq<Record>, force: bool)
    requires DistinctKeys(p)
    ensures DistinctKeys(KeptOnly(p, ledger, force))
  {
    hide Kept;
    if p != [] {
      var init, last := p[..|p| - 1], |p| - 1;
      KeptDistinct(init, ledger, force);
      KeptExact(init, ledger, force);
      var q := KeptOnly(init, ledger, force);
      forall i | 0 <= i < |q| ensures q[i].key != p[last].key {
        assert q[i] in init;
        var j :| 0 <= j < last && p[j] == q[i];
      }
    }
  }

  lemma {:induction false} KeptBusy(p: Queue, ledger: seq<Record>, force: bool)
    ensures Busy(KeptOnly(p, ledger, force)) == Busy(p)
  {
    hide Kept;
    if p != [] {
      var init, e := p[..|p| - 1], p[|p| - 1];
      KeptBusy(init, ledger, force);
      BusyAppend(KeptOnly(init, ledger, force), e);
      BusyKept(e, ledger, force);
    }
  }

  lemma BusyKept(e: Entry<Key, Pending>, ledger: seq<Record>, force: bool)
    ensures Waits(e) || Kept(e, ledger, force)
  {
  }

  lemma KeptReshapes(p: Queue, ledger: seq<Record>, force: bool, run: Option<string>)
    requires DistinctKeys(p) && Keyed(p, run)
    ensures Reshaped(p, KeptOnly(p, ledger, force), run)
  {
    hide OperationKey, KeptOnly, CurrentOf, NeedsLookup;
    var q := KeptOnly(p, ledger, force);
    KeptExact(p, ledger, force);
    KeptDistinct(p, ledger, force);
    KeptBusy(p, ledger, force);
    forall i | 0 <= i < |q| ensures q[i] in p { assert q[i] in q; }
    forall i | 0 <= i < |p| && !Waits(p[i]) ensures Holding(q, p[i].value.controller.value, p[i].key) {
      assert p[i] in q;
      var j :| 0 <= j < |q| && q[j] == p[i];
    }
    forall i | 0 <= i < |q| && !Waits(q[i]) ensures Holding(p, q[i].value.controller.value, q[i].key) {
      assert q[i] in p;
      var j :| 0 <= j < |p| && p[j] == q[i];
    }
  }

  lemma PausedSound(s: State)
    requires Core(s)
    ensures Sound(Paused(s)) && Core(Paused(s))
  {
  }

  lemma DisposedSound(s: State)
    requires Core(s)
    ensures Sound(Disposed(s))
  {
    PausedSound(s);
  }

  lemma OnRunCore(s: State, run: string)
    requires Core(s)
    ensures Core(OnRun(s, run)) && OnRun(s, run).currentRun == Some(run) && OnRun(s, run).disposed == s.disposed
  {
    PausedSound(s);
  }

  lemma ReshapedCore(s: State, q: Queue)
    requires Core(s) && !s.disposed && Reshaped(s.pending, q, s.currentRun)
    ensures Core(s.(pending := q))
  {
    OwnedTransfer(s.pending, q, s.generation, s.inFlight);
  }

  lemma ReconciledSound(s: State, records: seq<Record>, run: string, force: bool, ledger: seq<Record>, now: int)
    requires Sound(s)
    ensures Sound(Reconciled(s, records, run, force, ledger, now))
    ensures !s.disposed ==> Saturated(Reconciled(s, records, run, force, ledger, now), now)
  {
    if !s.disposed {
      OnRunCore(s, run);
      var t := OnRun(s, run);
      var asked := AllRequested(t.pending, records, run, force, now);
      var kept := KeptOnly(asked, ledger, force);
      AllRequestedReshapes(t.pending, records, run, force, now);
      KeptReshapes(asked, ledger, force, Some(run));
      hide Core, Sound, Saturated, Pumped, OnRun, AllRequested, KeptOnly;
      ReshapedChain(t.pending, asked, kept, Some(run));
      ReshapedCore(t, kept);
      PumpedSound(t.(pending := kept), now);
    }
  }

  // ------------------------------------------------------- finishing a read

  /** The entry of a read that may still speak. */
  lemma SpeakingEntry(s: State, id: nat) returns (i: nat)
    requires Core(s) && Speaks(s, id)
    ensures i < |s.pending| && i == Find(s.pending, s.inFlight[id].key) && s.pending[i].value.controller == Some(id)
  {
    var key := s.inFlight[id].key;
    assert Holding(s.pending, id, key);
    i :| 0 <= i < |s.pending| && s.pending[i].key == key && s.pending[i].value.controller == Some(id);
    FindLast(s.pending, key);
  }

  lemma OwnedForget(p: Queue, generation: nat, inFlight: map<nat, Read>, id: nat)
    requires Owned(p, generation, inFlight) && id in inFlight && inFlight[id].generation != generation
    ensures Owned(p, generation, inFlight - {id})
  {
  }

  lemma OwnedRetry(p: Queue, generation: nat, inFlight: map<nat, Read>, id: nat, i: nat, e: Entry<Key, Pending>)
    requires Owned(p, generation, inFlight) && DistinctKeys(p) && id in inFlight
    requires i < |p| && p[i].value.controller == Some(id) && Waits(e)
    ensures Owned(p[i := e], generation, inFlight - {id})
  {
    var q, f := p[i := e], inFlight - {id};
    forall k | k in f && f[k].generation == generation ensures Holding(q, k, f[k].key) {
      assert Holding(p, k, inFlight[k].key);
      var j :| 0 <= j < |p| && p[j].key == inFlight[k].key && p[j].value.controller == Some(k);
      assert q[j] == p[j];
    }
    assert p[i].key == inFlight[id].key;
  }

  lemma OwnedDrop(p: Queue, generation: nat, inFlight: map<nat, Read>, id: nat, i: nat)
    requires Owned(p, generation, inFlight) && DistinctKeys(p) && id in inFlight
    requires i < |p| && p[i].value.controller == Some(id)
    ensures Owned(p[..i] + p[i + 1..], generation, inFlight - {id})
  {
    var q, f := p[..i] + p[i + 1..], inFlight - {id};
    forall k | k in f && f[k].generation == generation ensures Holding(q, k, f[k].key) {
      assert Holding(p, k, inFlight[k].key);
      var j :| 0 <= j < |p| && p[j].key == inFlight[k].key && p[j].value.controller == Some(k);
      assert q[if j < i then j else j - 1] == p[j];
    }
    forall j | 0 <= j < |q| && !Waits(q[j])
      ensures var k := q[j].value.controller.value; k in f && f[k].generation == generation && f[k].key == q[j].key
    {
      var m := if j < i then j else j + 1;
      assert q[j] == p[m] && p[m].key != p[i].key;
    }
  }

  lemma CurrentKey(ledger: seq<Record>, key: Key)
    requires CurrentOf(ledger, key).Some?
    ensures OperationKey(CurrentOf(ledger, key).value) == key
  {
  }

  lemma RetriedCore(s: State, id: nat, i: nat, r: Record, now: int)
    requires Core(s) && Speaks(s, id) && i < |s.pending| && s.pending[i].value.controller == Some(id)
    requires OperationKey(r) == s.pending[i].key == s.inFlight[id].key
    ensures Core(s.(inFlight := s.inFlight - {id}, active := s.active - 1,
                    pending := s.pending[i := Entry(s.pending[i].key, Retried(s.pending[i].value, r, now))]))
  {
    var e := Entry(s.pending[i].key, Retried(s.pending[i].value, r, now));
    BusyUpdate(s.pending, i, e);
    OwnedRetry(s.pending, s.generation, s.inFlight, id, i, e);
  }

  lemma DroppedCore(s: State, id: nat, i: nat)
    requires Core(s) && Speaks(s, id) && i < |s.pending| && s.pending[i].value.controller == Some(id)
    ensures Core(s.(inFlight := s.inFlight - {id}, active := s.active - 1,
                    pending := s.pending[..i] + s.pending[i + 1..]))
  {
    hide OperationKey;
    BusyRemove(s.pending, i);
    OwnedDrop(s.pending, s.generation, s.inFlight, id, i);
    assert s.active == Busy(s.pending);
    hide Owned, Busy;
  }

  lemma BookedCore(s: State, id: nat, ledger: seq<Record>, now: int)
    requires Core(s) && Speaks(s, id)
    ensures Core(Booked(s, id, ledger, now))
  {
    var i := SpeakingEntry(s, id);
    hide Core, NeedsLookup, OperationKey;
    if StillNeeds(ledger, s.inFlight[id].key) {
      CurrentKey(ledger, s.inFlight[id].key);
      RetriedCore(s, id, i, CurrentOf(ledger, s.inFlight[id].key).value, now);
    } else {
      DroppedCore(s, id, i);
    }
  }

  lemma FinishedSound(s: State, id: nat, ledger: seq<Record>, now: int)
    requires Sound(s) && id in s.inFlight
    ensures Sound(Finished(s, id, ledger, now))
  {
    if Speaks(s, id) {
      BookedCore(s, id, ledger, now);
      PumpedSound(Booked(s, id, ledger, now), now);
    } else {
      if s.disposed { assert s.pending == []; }
      if s.inFlight[id].generation != s.generation {
        OwnedForget(s.pending, s.generation, s.inFlight, id);
      }
    }
  }

  lemma StagedSound(s: State, id: nat, stage: Stage)
    requires Sound(s) && id in s.inFlight
    ensures Sound(Staged(s, id, stage))
  {
  }

  // ------------------------------------------------------------- every run

  lemma NextSound(s: State, step: Step)
    requires Sound(s) && Enabled(s, step)
    ensures Sound(Next(s, step))
  {
    match step
    case Reconcile(records, run, force, ledger, now) => ReconciledSound(s, records, run, force, ledger, now);
    case Pause => PausedSound(s);
    case Dispose => DisposedSound(s);
    case Fire(now) => PumpedSound(s, now);
    case Fulfil(id, _, throws) => StagedSound(s, id, if throws && Speaks(s, id) then Threw else Closing);
    case Reject(id, _) => StagedSound(s, id, Closing);
    case Finish(id, ledger, now) => FinishedSound(s, id, ledger, now);
  }

  lemma {:induction false} RunSound(s: State, steps: seq<Step>)
    requires Sound(s) && Possible(s, steps)
    ensures Sound(After(s, steps))
    decreases |steps|
  {
    hide Sound, Next;
    if steps != [] {
      NextSound(s, steps[0]);
      RunSound(Next(s, steps[0]), steps[1..]);
    }
  }

  lemma StartSound()
    ensures Sound(Fresh)
  {
  }

  // ----------------------------------------- what the invariant says at rest

  lemma {:induction false} NextDueExact(p: Queue, n: nat)
    requires n <= |p|
    ensures NextDue(p, n).None? ==> forall i :: 0 <= i < n ==> !Waits(p[i])
    ensures NextDue(p, n).Some? ==> (exists i :: 0 <= i < n && Waits(p[i]) && p[i].value.due == NextDue(p, n).value)
    ensures NextDue(p, n).Some? ==> forall i :: 0 <= i < n && Waits(p[i]) ==> NextDue(p, n).value <= p[i].value.due
  {
    if n > 0 { NextDueExact(p, n - 1); }
  }

  /** A waiting entry has a timer that fires no later than it is due, or both
      slots are taken; and no timer is armed without need. */
  lemma WaitingIsServed(s: State)
    requires Sound(s)
    ensures forall i :: 0 <= i < |s.pending| && Waits(s.pending[i]) ==>
      s.active == AtOnce || (s.timer.Some? && s.timer.value <= s.pending[i].value.due)
    ensures s.timer.Some? ==> s.active < AtOnce
    ensures s.timer.Some? ==>
      exists i :: 0 <= i < |s.pending| && Waits(s.pending[i]) && s.pending[i].value.due == s.timer.value
  {
    NextDueExact(s.pending, |s.pending|);
  }

  /** The outstanding reads of the current generation. */
  ghost function Outstanding(s: State): set<nat> {
    set id | id in s.inFlight && s.inFlight[id].generation == s.generation
  }

  ghost function Controllers(p: Queue): set<nat> {
    set i | 0 <= i < |p| && !Waits(p[i]) :: p[i].value.controller.value
  }

  lemma {:induction false} ControllersCount(p: Queue)
    requires forall i, j :: 0 <= i < j < |p| && !Waits(p[i]) && !Waits(p[j]) ==>
      p[i].value.controller != p[j].value.controller
    ensures |Controllers(p)| == Busy(p)
  {
    if p != [] {
      var init, e := p[..|p| - 1], p[|p| - 1];
      ControllersCount(init);
      if Waits(e) {
        assert Controllers(p) == Controllers(init);
      } else {
        ControllersGrow(p);
      }
    }
  }

  lemma ControllersGrow(p: Queue)
    requires p != [] && !Waits(p[|p| - 1])
    requires forall i, j :: 0 <= i < j < |p| && !Waits(p[i]) && !Waits(p[j]) ==>
      p[i].value.controller != p[j].value.controller
    ensures Controllers(p) == Controllers(p[..|p| - 1]) + {p[|p| - 1].value.controller.value}
    ensures p[|p| - 1].value.controller.value !in Controllers(p[..|p| - 1])
  {
    var init, last := p[..|p| - 1], |p| - 1;
    forall id | id in Controllers(p) ensures id in Controllers(init) + {p[last].value.controller.value} {
      var i :| 0 <= i < |p| && !Waits(p[i]) && p[i].value.controller.value == id;
      assert i < last ==> init[i] == p[i];
    }
    forall id | id in Controllers(init) ensures id in Controllers(p) && id != p[last].value.controller.value {
      var i :| 0 <= i < |init| && !Waits(init[i]) && init[i].value.controller.value == id;
      assert init[i] == p[i] && p[i].value.controller == Some(id);
      assert p[i].value.controller != p[last].value.controller;
    }
  }

  /** `active` is the number of outstanding reads of this generation: at most two. */
  lemma AtMostTwoReads(s: State)
    requires Sound(s)
    ensures |Outstanding(s)| == s.active <= AtOnce
  {
    var p := s.pending;
    forall i, j | 0 <= i < j < |p| && !Waits(p[i]) && !Waits(p[j])
      ensures p[i].value.controller != p[j].value.controller
    {
      assert p[i].key != p[j].key;
    }
    ControllersCount(p);
    forall id | id in Outstanding(s) ensures id in Controllers(p) {
      assert Holding(p, id, s.inFlight[id].key);
      var i :| 0 <= i < |p| && p[i].key == s.inFlight[id].key && p[i].value.controller == Some(id);
      assert p[i].value.controller.value == id;
    }
    assert Outstanding(s) == Controllers(p);
  }

  // ----------------------------------------------------------- callbacks

  /** A read speaks exactly while its generation is current, and then about the
      record of its own operation, in the current run. */
  lemma ToldExact(s: State, step: Step)
    requires Sound(s) && Enabled(s, step)
    ensures Told(s, step).Some? <==> (step.Fulfil? || step.Reject?) && Speaks(s, step.id)
    ensures Told(s, step).Some? ==>
      && OperationKey(Told(s, step).value.record) == s.inFlight[step.id].key
      && s.currentRun == Some(Told(s, step).value.record.hostRun)
      && (step.Fulfil? ==> Told(s, step).value == Result(Told(s, step).value.record, step.status))
  {
    if (step.Fulfil? || step.Reject?) && Speaks(s, step.id) {
      var i := SpeakingEntry(s, step.id);
    }
  }

  ghost predicate Superseded(s: State, id: nat) {
    id < s.issued && (s.disposed || id !in s.inFlight || s.inFlight[id].generation != s.generation)
  }

  lemma {:induction false} AdmittedSupersedes(s: State, now: int, i: nat, id: nat)
    requires Superseded(s, id) && i <= |s.pending|
    ensures Superseded(Admitted(s, now, i), id)
    ensures s.issued <= Admitted(s, now, i).issued
    decreases |s.pending| - i
  {
    if i < |s.pending| && s.active < AtOnce {
      AdmittedSupersedes(if Due(s.pending[i], now) then Started(s, i) else s, now, i + 1, id);
    }
  }

  lemma PumpedSupersedes(s: State, now: int, id: nat)
    requires Superseded(s, id)
    ensures Superseded(Pumped(s, now), id)
  {
    if !s.disposed { AdmittedSupersedes(s.(timer := None), now, 0, id); }
  }

  lemma QueuedSupersedes(t: State, records: seq<Record>, run: string, force: bool, ledger: seq<Record>, now: int,
                         id: nat)
    requires Superseded(t, id)
    ensures var queued := KeptOnly(AllRequested(t.pending, records, run, force, now), ledger, force);
      Superseded(Pumped(t.(pending := queued), now), id)
  {
    var queued := KeptOnly(AllRequested(t.pending, records, run, force, now), ledger, force);
    PumpedSupersedes(t.(pending := queued), now, id);
  }

  lemma NextSupersedes(s: State, step: Step, id: nat)
    requires Sound(s) && Enabled(s, step) && Superseded(s, id)
    ensures Superseded(Next(s, step), id)
  {
    match step
    case Reconcile(records, run, force, ledger, now) =>
      if !s.disposed {
        QueuedSupersedes(OnRun(s, run), records, run, force, ledger, now, id);
      }
    case Fire(now) => PumpedSupersedes(s, now, id);
    case Finish(other, ledger, now) =>
      if Speaks(s, other) { PumpedSupersedes(Booked(s, other, ledger, now), now, id); }
    case _ =>
  }

  /** What a pause, a new run or disposal has silenced never speaks again. */
  lemma {:induction false} SupersededForever(s: State, steps: seq<Step>, id: nat)
    requires Sound(s) && Possible(s, steps) && Superseded(s, id)
    ensures !Speaks(After(s, steps), id)
    decreases |steps|
  {
    hide Sound, Next;
    if steps != [] {
      NextSound(s, steps[0]);
      NextSupersedes(s, steps[0], id);
      SupersededForever(Next(s, steps[0]), steps[1..], id);
    }
  }

  /** The steps that leave the reads of the present behind. */
  predicate Silences(s: State, step: Step) {
    step.Pause? || step.Dispose? || (step.Reconcile? && s.currentRun != Some(step.run))
  }

  lemma SilencedNow(s: State, step: Step, id: nat)
    requires Sound(s) && Enabled(s, step) && id in s.inFlight && Silences(s, step)
    ensures Superseded(Next(s, step), id)
  {
    if step.Reconcile? && !s.disposed {
      QueuedSupersedes(OnRun(s, step.run), step.records, step.run, step.force, step.ledger, step.now, id);
    }
  }

  /** After a pause, a disposal or a change of run no read that was outstanding
      ever calls back, whatever happens next. */
  lemma PauseSilences(s: State, step: Step, steps: seq<Step>, id: nat)
    requires Sound(s) && Enabled(s, step) && id in s.inFlight && Silences(s, step) && Possible(Next(s, step), steps)
    ensures !Speaks(After(Next(s, step), steps), id)
  {
    NextSound(s, step);
    SilencedNow(s, step, id);
    SupersededForever(Next(s, step), steps, id);
  }

  // ------------------------------------------ who is queued, and how long

  /** Only controllers of waiting entries differ. */
  ghost predicate SameEntries(p: Queue, q: Queue) {
    && |p| == |q|
    && forall i :: 0 <= i < |p| ==> q[i].key == p[i].key && (if Waits(q[i]) then q[i] == p[i] else
         q[i].value == p[i].value.(controller := q[i].value.controller))
  }

  lemma {:induction false} AdmittedKeeps(s: State, now: int, i: nat)
    requires i <= |s.pending|
    ensures SameEntries(s.pending, Admitted(s, now, i).pending)
    decreases |s.pending| - i
  {
    if i < |s.pending| && s.active < AtOnce {
      AdmittedKeeps(if Due(s.pending[i], now) then Started(s, i) else s, now, i + 1);
    }
  }

  lemma PumpedKeeps(s: State, now: int)
    ensures SameEntries(s.pending, Pumped(s, now).pending)
  {
    if !s.disposed { AdmittedKeeps(s.(timer := None), now, 0); }
  }

  ghost predicate Queued(p: Queue, key: Key) { exists i :: 0 <= i < |p| && p[i].key == key }

  lemma PumpedQueues(s: State, now: int, key: Key)
    ensures Queued(Pumped(s, now).pending, key) <==> Queued(s.pending, key)
  {
    var p, q := s.pending, Pumped(s, now).pending;
    PumpedKeeps(s, now);
    if Queued(p, key) { var i :| 0 <= i < |p| && p[i].key == key; assert q[i].key == key; }
    if Queued(q, key) { var i :| 0 <= i < |q| && q[i].key == key; assert p[i].key == key; }
  }

  lemma RequestedQueues(p: Queue, r: Record, force: bool, now: int, key: Key)
    ensures Queued(Requested(p, r, force, now), key) <==> key == OperationKey(r) || Queued(p, key)
  {
    hide OperationKey;
    var q, i := Requested(p, r, force, now), Find(p, OperationKey(r));
    if Queued(p, key) { var j :| 0 <= j < |p| && p[j].key == key; assert q[j].key == key; }
    if Queued(q, key) {
      var j :| 0 <= j < |q| && q[j].key == key;
      assert j < |p| ==> p[j].key == key;
    }
    assert q[if i < 0 then |p| else i].key == OperationKey(r);
  }

  /** Requesting adds the wanted operations and nothing else. */
  lemma {:induction false} AllRequestedQueues(p: Queue, records: seq<Record>, run: string, force: bool, now: int,
                                              key: Key)
    ensures Queued(AllRequested(p, records, run, force, now), key) <==>
      Queued(p, key) || exists r :: r in records && Wanted(r, run, force) && OperationKey(r) == key
  {
    hide Wanted, OperationKey;
    if records != [] {
      var init, last := records[..|records| - 1], records[|records| - 1];
      AllRequestedQueues(p, init, run, force, now, key);
      assert forall r :: r in records <==> r in init || r == last;
      var q := AllRequested(p, init, run, force, now);
      hide AllRequested, Requested, Queued;
      RequestedQueues(q, last, force, now, key);
    }
  }

  lemma KeptQueues(p: Queue, ledger: seq<Record>, force: bool, key: Key)
    requires Queued(p, key) && (StillNeeds(ledger, key) || (force && CurrentOf(ledger, key).Some?))
    ensures Queued(KeptOnly(p, ledger, force), key)
  {
    hide CurrentOf, NeedsLookup, KeptOnly;
    KeptExact(p, ledger, force);
    var i :| 0 <= i < |p| && p[i].key == key;
    assert Kept(p[i], ledger, force);
    var q := KeptOnly(p, ledger, force);
    var j :| 0 <= j < |q| && q[j] == p[i];
  }

  /** Reconciling leaves every wanted operation of the run queued, provided the
      ledger still has it (and, unless forced, still needs its status). */
  lemma ReconcileCovers(s: State, records: seq<Record>, run: string, force: bool, ledger: seq<Record>, now: int,
                        r: Record)
    requires !s.disposed && r in records && Wanted(r, run, force)
    requires StillNeeds(ledger, OperationKey(r)) || (force && CurrentOf(ledger, OperationKey(r)).Some?)
    ensures Queued(Reconciled(s, records, run, force, ledger, now).pending, OperationKey(r))
  {
    hide OperationKey, Wanted, CurrentOf, NeedsLookup, Pumped, AllRequested, KeptOnly;
    var t, key := OnRun(s, run), OperationKey(r);
    var asked := AllRequested(t.pending, records, run, force, now);
    AllRequestedQueues(t.pending, records, run, force, now, key);
    KeptQueues(asked, ledger, force, key);
    PumpedQueues(t.(pending := KeptOnly(asked, ledger, force)), now, key);
  }

  /** And whatever then waits is there for a reason. */
  lemma ReconcileJustified(s: State, records: seq<Record>, run: string, force: bool, ledger: seq<Record>, now: int,
                           i: nat)
    requires !s.disposed
    requires var p := Reconciled(s, records, run, force, ledger, now).pending; i < |p| && Waits(p[i])
    ensures var e := Reconciled(s, records, run, force, ledger, now).pending[i];
      CurrentOf(ledger, e.key).Some? && (force || e.value.forced || StillNeeds(ledger, e.key))
  {
    hide CurrentOf, NeedsLookup, AllRequested, KeptOnly, Pumped;
    var t := OnRun(s, run);
    var asked := AllRequested(t.pending, records, run, force, now);
    var kept := KeptOnly(asked, ledger, force);
    KeptExact(asked, ledger, force);
    PumpedKeeps(t.(pending := kept), now);
    assert kept[i] in kept;
  }

  /** The steps that may take an operation out of the queue. */
  predicate MayDrop(s: State, step: Step, key: Key)
    requires Enabled(s, step)
  {
    match step
    case Pause => true
    case Dispose => true
    case Reconcile(_, run, _, ledger, _) => s.currentRun != Some(run) || !StillNeeds(ledger, key)
    case Finish(id, ledger, _) => s.inFlight[id].key == key && !StillNeeds(ledger, key)
    case _ => false
  }

  lemma AfterReadKeeps(p: Queue, done: Key, ledger: seq<Record>, now: int, key: Key)
    requires Queued(p, key) && (done != key || StillNeeds(ledger, key))
    ensures Queued(AfterRead(p, done, ledger, now), key)
  {
    hide StillNeeds, CurrentOf, Retried;
    var q, i := AfterRead(p, done, ledger, now), Find(p, done);
    var j :| 0 <= j < |p| && p[j].key == key;
    FindLast(p, done);
    if i >= 0 && !StillNeeds(ledger, done) {
      assert q[if j < i then j else j - 1] == p[j];
    } else {
      assert q[j].key == key;
    }
  }

  /** An operation leaves the queue only by a pause, a disposal, a change of run,
      or because the ledger of that moment no longer needs its status. */
  lemma NeverDroppedEarly(s: State, step: Step, key: Key)
    requires Sound(s) && Enabled(s, step) && Queued(s.pending, key) && !MayDrop(s, step, key)
    ensures Queued(Next(s, step).pending, key)
  {
    hide Pumped, Sound, StillNeeds;
    match step
    case Reconcile(records, run, force, ledger, now) =>
      if !s.disposed {
        hide AllRequested, KeptOnly, CurrentOf, NeedsLookup;
        var asked := AllRequested(s.pending, records, run, force, now);
        AllRequestedQueues(s.pending, records, run, force, now, key);
        KeptQueues(asked, ledger, force, key);
        PumpedQueues(s.(pending := KeptOnly(asked, ledger, force)), now, key);
      }
    case Fire(now) => PumpedQueues(s, now, key);
    case Finish(id, ledger, now) =>
      if Speaks(s, id) {
        hide AfterRead;
        AfterReadKeeps(s.pending, s.inFlight[id].key, ledger, now, key);
        PumpedQueues(Booked(s, id, ledger, now), now, key);
      }
    case _ =>
  }

  /** After a read that has not settled its operation, the operation waits: 1, 2,
      5, 10 and then 30 seconds after the first, second, ... such read. */
  lemma FinishBacksOff(s: State, id: nat, ledger: seq<Record>, now: int) returns (i: nat)
    requires Sound(s) && Speaks(s, id) && StillNeeds(ledger, s.inFlight[id].key)
    ensures i < |s.pending| && s.pending[i].value.controller == Some(id)
    ensures i < |Finished(s, id, ledger, now).pending| && Waits(Finished(s, id, ledger, now).pending[i])
    ensures var e, e' := s.pending[i].value, Finished(s, id, ledger, now).pending[i].value;
      && e'.due == now + Delay(e.attempt) && e'.attempt == e.attempt + 1 && !e'.forced
      && Some(e'.record) == CurrentOf(ledger, s.inFlight[id].key)
    ensures Finished(s, id, ledger, now).pending[i].key == s.inFlight[id].key
    ensures var tries := s.pending[i].value.attempt;
      Delay(tries) == [1000, 2000, 5000, 10000, 30000][if tries < 4 then tries else 4]
  {
    i := SpeakingEntry(s, id);
    hide Sound, CurrentOf, NeedsLookup;
    var b := Booked(s, id, ledger, now);
    NotYetDue(b, now, i);
    PumpedKeeps(b, now);
  }

  lemma {:induction false} AdmittedSkips(s: State, now: int, from: nat, i: nat)
    requires from <= |s.pending| && i < |s.pending| && Waits(s.pending[i]) && s.pending[i].value.due > now
    ensures i < |Admitted(s, now, from).pending| && Waits(Admitted(s, now, from).pending[i])
    decreases |s.pending| - from
  {
    if from < |s.pending| && s.active < AtOnce {
      AdmittedSkips(if Due(s.pending[from], now) then Started(s, from) else s, now, from + 1, i);
    }
  }

  lemma NotYetDue(s: State, now: int, i: nat)
    requires i < |s.pending| && Waits(s.pending[i]) && s.pending[i].value.due > now
    ensures i < |Pumped(s, now).pending| && Waits(Pumped(s, now).pending[i])
  {
    if !s.disposed { AdmittedSkips(s.(timer := None), now, 0, i); }
  }
}
