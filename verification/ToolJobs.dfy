/** The tool-job ledger and its delivery waiters
    (crates/harness-demo/src/async_demo.rs). */
module ToolJobs {
  import opened JsMap

  type CallId = string
  type Output = string

  datatype JobState = Running | Settled | Cancelled | Interrupted

  /** What a job is, fixed when it starts. */
  datatype About = About(conversation: string, request: string, call: CallId, tool: string, startedAt: Option<int>)

  datatype Job = Job(about: About, state: JobState, delivered: bool, endedAt: Option<int>, output: Option<Output>)

  type Records = map<CallId, Job>

  // ------------------------------------------------- what each lock holds

  function Started(rs: Records, call: CallId, about: About): Records {
    if call in rs then rs else rs[call := Job(about, Running, false, None, None)]
  }

  function SettledWith(rs: Records, call: CallId, output: Output, now: Option<int>): Records {
    if call in rs && rs[call].state.Running?
    then rs[call := rs[call].(output := Some(output), state := Settled, endedAt := now)] else rs
  }

  function CancelledAt(rs: Records, call: CallId, now: Option<int>): Records {
    if call in rs && rs[call].state.Running? then rs[call := rs[call].(state := Cancelled, endedAt := now)] else rs
  }

  predicate ToDeliver(job: Job, calls: set<CallId>) { job.state.Settled? && !job.delivered && job.about.call in calls }

  function Delivered(rs: Records, calls: set<CallId>): Records {
    map k | k in rs :: if ToDeliver(rs[k], calls) then rs[k].(delivered := true) else rs[k]
  }

  predicate AnyToDeliver(rs: Records, calls: set<CallId>) { exists k :: k in rs && ToDeliver(rs[k], calls) }

  function InterruptedAll(rs: Records): Records {
    map k | k in rs :: if rs[k].state.Running? then rs[k].(state := Interrupted) else rs[k]
  }

  predicate AnyRunning(rs: Records) { exists k :: k in rs && rs[k].state.Running? }

  // --------------------------------------------------------- record safety

  ghost predicate JobSound(job: Job) {
    && (job.delivered ==> job.state.Settled?)
    && (job.output.Some? <==> job.state.Settled?)
  }

  /** Delivered only if settled; output exactly if settled. */
  ghost predicate RecordsSound(rs: Records) { forall k :: k in rs ==> JobSound(rs[k]) }

  /** Every job is filed under its call. */
  ghost predicate Filed(rs: Records) { forall k :: k in rs ==> rs[k].about.call == k }

  /** `collect` into a map: the last of several records of one call stays. */
  function Collected(kept: seq<Job>): Records {
    if kept == [] then map[] else Collected(kept[..|kept| - 1])[kept[|kept| - 1].about.call := kept[|kept| - 1]]
  }

  /** The last record of the call. */
  predicate LastOf(kept: seq<Job>, call: CallId, i: nat) {
    i < |kept| && kept[i].about.call == call && forall j :: i < j < |kept| ==> kept[j].about.call != call
  }

  lemma {:induction false} CollectedExact(kept: seq<Job>)
    ensures Filed(Collected(kept))
    ensures forall i: nat, k :: LastOf(kept, k, i) ==> k in Collected(kept) && Collected(kept)[k] == kept[i]
    ensures forall k :: k in Collected(kept) ==> exists i: nat :: LastOf(kept, k, i)
    ensures forall job :: job in kept ==> job.about.call in Collected(kept)
  {
    if kept != [] {
      var init, last := kept[..|kept| - 1], |kept| - 1;
      CollectedExact(init);
      forall i: nat, k | LastOf(kept, k, i) ensures k in Collected(kept) && Collected(kept)[k] == kept[i] {
        if i < last { assert LastOf(init, k, i); }
      }
      forall k | k in Collected(kept) ensures exists i: nat :: LastOf(kept, k, i) {
        if k == kept[last].about.call {
          assert LastOf(kept, k, last);
        } else {
          var i: nat :| LastOf(init, k, i);
          assert LastOf(kept, k, i);
        }
      }
    }
  }

  /** A terminal outcome is final; delivery is never taken back. */
  ghost predicate JobAdvances(a: Job, b: Job) {
    && b.about == a.about
    && (!a.state.Running? ==> b.state == a.state && b.output == a.output && b.endedAt == a.endedAt)
    && (a.delivered ==> b.delivered)
  }

  ghost predicate Advances(a: Records, b: Records) {
    forall k :: k in a ==> k in b && JobAdvances(a[k], b[k])
  }

  /** What every operation keeps, over records of any kind. */
  ghost predicate Kept(a: Records, b: Records) {
    Advances(a, b) && (RecordsSound(a) ==> RecordsSound(b)) && (Filed(a) ==> Filed(b))
  }

  lemma KeptChain(a: Records, b: Records, c: Records)
    requires Kept(a, b) && Kept(b, c)
    ensures Kept(a, c)
  {
    forall k | k in a ensures k in c && JobAdvances(a[k], c[k]) {
      assert JobAdvances(a[k], b[k]) && JobAdvances(b[k], c[k]);
    }
  }

  // ------------------------------------------------- loops under the lock

  ghost predicate MarkedIn(before: Records, rs: Records, calls: set<CallId>, done: set<CallId>) {
    rs.Keys == before.Keys && forall k :: k in before ==>
      rs[k] == if k in done && ToDeliver(before[k], calls) then before[k].(delivered := true) else before[k]
  }

  method MarkDelivered(before: Records, calls: set<CallId>) returns (rs: Records, changed: bool)
    ensures rs == Delivered(before, calls)
    ensures changed <==> AnyToDeliver(before, calls)
  {
    rs, changed := before, false;
    var todo := before.Keys;
    while todo != {}
      invariant todo <= before.Keys && MarkedIn(before, rs, calls, before.Keys - todo)
      invariant changed ==> AnyToDeliver(before, calls)
      invariant !changed ==> forall k :: k in before && k !in todo ==> !ToDeliver(before[k], calls)
      decreases |todo|
    {
      var k :| k in todo;
      if ToDeliver(rs[k], calls) {
        rs := rs[k := rs[k].(delivered := true)];
        changed := true;
      }
      todo := todo - {k};
    }
    assert rs == Delivered(before, calls);
  }

  ghost predicate InterruptedIn(before: Records, rs: Records, done: set<CallId>) {
    rs.Keys == before.Keys && forall k :: k in before ==>
      rs[k] == if k in done && before[k].state.Running? then before[k].(state := Interrupted) else before[k]
  }

  method MarkInterrupted(before: Records) returns (rs: Records, changed: bool)
    ensures rs == InterruptedAll(before)
    ensures changed <==> AnyRunning(before)
  {
    rs, changed := before, false;
    var todo := before.Keys;
    while todo != {}
      invariant todo <= before.Keys && InterruptedIn(before, rs, before.Keys - todo)
      invariant changed ==> AnyRunning(before)
      invariant !changed ==> forall k :: k in before && k !in todo ==> !before[k].state.Running?
      decreases |todo|
    {
      var k :| k in todo;
      if rs[k].state.Running? {
        rs := rs[k := rs[k].(state := Interrupted)];
        changed := true;
      }
      todo := todo - {k};
    }
    assert rs == InterruptedAll(before);
  }

  // --------------------------------------------------------------- the class

  class Jobs {
    var records: Records
    var revision: nat
    const persistent: bool

    ghost predicate Valid()
      reads this
    {
      Filed(records)
    }

    /** A ledger reopened from persisted records, whatever they say. */
    constructor Reopen(kept: seq<Job>, persistent: bool)
      ensures Valid() && records == Collected(kept) && revision == 0 && this.persistent == persistent
      ensures forall k :: k in records ==> exists i: nat :: LastOf(kept, k, i) && records[k] == kept[i]
      ensures forall job :: job in kept ==> job.about.call in records
      ensures (forall job :: job in kept ==> JobSound(job)) ==> RecordsSound(records)
    {
      records, revision, this.persistent := Collected(kept), 0, persistent;
      CollectedExact(kept);
    }

    /** Without a callback nothing can fail. */
    predicate Saved(answer: bool) { !persistent || answer }

    method Start(call: CallId, about: About, answer: bool) returns (ok: bool)
      requires Valid() && about.call == call
      modifies `records
      ensures Valid() && Kept(old(records), records) && records == Started(old(records), call, about)
      ensures ok <==> call !in old(records) && Saved(answer)
    {
      if call in records { return false; }
      records := records[call := Job(about, Running, false, None, None)];
      ok := Saved(answer);
    }

    method Settle(call: CallId, output: Output, now: Option<int>, answer: bool) returns (ok: bool)
      requires Valid()
      modifies `records
      ensures Valid() && Kept(old(records), records) && records == SettledWith(old(records), call, output, now)
      ensures ok <==> Saved(answer) || records == old(records)
    {
      if call in records && records[call].state.Running? {
        records := records[call := records[call].(output := Some(output), state := Settled, endedAt := now)];
        assert records[call].state.Settled? && old(records)[call].state.Running?;
        return Saved(answer);
      }
      ok := true;
    }

    /** A failed save is ignored. */
    method Cancel(call: CallId, now: Option<int>)
      requires Valid()
      modifies `records
      ensures Valid() && Kept(old(records), records) && records == CancelledAt(old(records), call, now)
    {
      if call in records && records[call].state.Running? {
        records := records[call := records[call].(state := Cancelled, endedAt := now)];
      }
    }

    /** Mark, save, and only then tell the waiters. */
    method ObserveInput(calls: set<CallId>, answer: bool) returns (ok: bool)
      requires Valid()
      modifies this
      ensures Valid() && Kept(old(records), records) && records == Delivered(old(records), calls)
      ensures ok <==> !AnyToDeliver(old(records), calls) || Saved(answer)
      ensures revision == old(revision) + (if AnyToDeliver(old(records), calls) && Saved(answer) then 1 else 0)
    {
      var changed;
      records, changed := MarkDelivered(records, calls);
      if changed {
        if !Saved(answer) { return false; }
        revision := revision + 1;
      }
      ok := true;
    }

    method MarkInterruptedAfterRecovery(answer: bool) returns (ok: bool)
      requires Valid()
      modifies `records
      ensures Valid() && Kept(old(records), records) && records == InterruptedAll(old(records))
      ensures ok <==> Saved(answer) || !AnyRunning(old(records))
    {
      var changed;
      records, changed := MarkInterrupted(records);
      ok := !changed || Saved(answer);
    }
  }

  // ------------------------------------------------- concurrent deliveries

  /** An observer that has marked some records: its save has not answered yet, or
      has and the bump is next. */
  datatype Observer = Marked(calls: set<CallId>) | Saved(calls: set<CallId>)

  /** A waiter about to inspect its record, or parked until the revision moves
      from the one it has seen, or through. */
  datatype Stage = Checking | Parked | Through

  datatype Waiter = Waiter(call: CallId, seen: nat, stage: Stage)

  datatype System = System(records: Records, revision: nat, observers: map<nat, Observer>, waiters: map<nat, Waiter>)

  datatype Step =
    | Start(call: CallId, about: About)
    | Settle(call: CallId, output: Output, now: Option<int>)
    | Cancel(call: CallId, now: Option<int>)
    | Interrupt
    | Mark(observer: nat, calls: set<CallId>)
    | SaveAnswers(observer: nat, ok: bool)
    | Bump(observer: nat)
    | Subscribe(waiter: nat, call: CallId)
    | Inspect(waiter: nat)
    | Wake(waiter: nat)

  predicate Enabled(s: System, step: Step) {
    match step
    case Start(call, about) => about.call == call
    case Mark(o, _) => o !in s.observers
    case SaveAnswers(o, _) => o in s.observers && s.observers[o].Marked?
    case Bump(o) => o in s.observers && s.observers[o].Saved?
    case Subscribe(w, _) => w !in s.waiters
    case Inspect(w) => w in s.waiters && s.waiters[w].stage.Checking?
    case Wake(w) => w in s.waiters && s.waiters[w].stage.Parked? && s.waiters[w].seen != s.revision
    case _ => true
  }

  predicate IsDelivered(rs: Records, call: CallId) { call in rs && rs[call].delivered }

  function Next(s: System, step: Step): System
    requires Enabled(s, step)
  {
    match step
    case Start(call, about) => s.(records := Started(s.records, call, about))
    case Settle(call, output, now) => s.(records := SettledWith(s.records, call, output, now))
    case Cancel(call, now) => s.(records := CancelledAt(s.records, call, now))
    case Interrupt => s.(records := InterruptedAll(s.records))
    case Mark(o, calls) =>
      if AnyToDeliver(s.records, calls)
      then s.(records := Delivered(s.records, calls), observers := s.observers[o := Marked(calls)]) else s
    case SaveAnswers(o, ok) =>
      if ok then s.(observers := s.observers[o := Saved(s.observers[o].calls)]) else s.(observers := s.observers - {o})
    case Bump(o) => s.(observers := s.observers - {o}, revision := s.revision + 1)
    case Subscribe(w, call) => s.(waiters := s.waiters[w := Waiter(call, s.revision, Checking)])
    case Inspect(w) =>
      s.(waiters :=
         s.waiters[w := s.waiters[w].(stage := if IsDelivered(s.records, s.waiters[w].call) then Through else Parked)])
    case Wake(w) => s.(waiters := s.waiters[w := s.waiters[w].(seen := s.revision, stage := Checking)])
  }

  predicate Possible(s: System, steps: seq<Step>)
    decreases |steps|
  {
    steps == [] || (Enabled(s, steps[0]) && Possible(Next(s, steps[0]), steps[1..]))
  }

  function After(s: System, steps: seq<Step>): System
    requires Possible(s, steps)
    decreases |steps|
  {
    if steps == [] then s else After(Next(s, steps[0]), steps[1..])
  }

  lemma AllKept(rs: Records, calls: set<CallId>)
    ensures Kept(rs, Delivered(rs, calls)) && Kept(rs, InterruptedAll(rs)) && Kept(rs, rs)
  {
  }

  lemma OneKept(rs: Records, call: CallId, about: About, output: Output, now: Option<int>)
    ensures about.call == call ==> Kept(rs, Started(rs, call, about))
    ensures Kept(rs, SettledWith(rs, call, output, now)) && Kept(rs, CancelledAt(rs, call, now))
  {
  }

  lemma NextKeeps(s: System, step: Step)
    requires Enabled(s, step)
    ensures Kept(s.records, Next(s, step).records)
  {
    hide Kept, Delivered, InterruptedAll, Started, SettledWith, CancelledAt;
    AllKept(s.records, if step.Mark? then step.calls else {});
    match step
    case Start(call, about) => OneKept(s.records, call, about, "", None);
    case Settle(call, output, now) => OneKept(s.records, call, About("", "", "", "", None), output, now);
    case Cancel(call, now) => OneKept(s.records, call, About("", "", "", "", None), "", now);
    case _ =>
  }

  /** In every run of every number of threads, from any records: the first terminal
      outcome is final and nothing is removed; where delivery implied settlement and
      output was there exactly when settled, it stays so. */
  lemma {:induction false} RunKeeps(s: System, steps: seq<Step>)
    requires Possible(s, steps)
    ensures Kept(s.records, After(s, steps).records)
    decreases |steps|
  {
    hide Next, Kept;
    if steps == [] {
      AllKept(s.records, {});
    } else {
      NextKeeps(s, steps[0]);
      RunKeeps(Next(s, steps[0]), steps[1..]);
      KeptChain(s.records, Next(s, steps[0]).records, After(s, steps).records);
    }
  }

  // ------------------------------------------------------------ no lost wakeup

  ghost predicate BumpToCome(s: System, call: CallId) {
    exists o :: o in s.observers && call in s.observers[o].calls
  }

  /** A parked waiter has an undelivered record, a revision it has not seen, or a
      bump still to come from the observer that delivered its record. */
  ghost predicate NobodyForgotten(s: System) {
    forall w :: w in s.waiters && s.waiters[w].stage.Parked? ==>
      || !IsDelivered(s.records, s.waiters[w].call)
      || s.waiters[w].seen != s.revision
      || BumpToCome(s, s.waiters[w].call)
  }

  ghost predicate SeenPast(s: System) {
    forall w :: w in s.waiters ==> s.waiters[w].seen <= s.revision
  }

  /** The state a run is proved to stay in: filed, and nobody forgotten. */
  ghost predicate Attentive(s: System) { Filed(s.records) && NobodyForgotten(s) && SeenPast(s) }

  lemma MarkRemembers(s: System, o: nat, calls: set<CallId>)
    requires Filed(s.records) && NobodyForgotten(s) && o !in s.observers
    ensures NobodyForgotten(Next(s, Mark(o, calls)))
  {
    var t := Next(s, Mark(o, calls));
    forall w | w in t.waiters && t.waiters[w].stage.Parked? && IsDelivered(t.records, t.waiters[w].call)
      && t.waiters[w].seen == t.revision
      ensures BumpToCome(t, t.waiters[w].call)
    {
      var call := t.waiters[w].call;
      if IsDelivered(s.records, call) {
        var p :| p in s.observers && call in s.observers[p].calls;
        assert p in t.observers && t.observers[p] == s.observers[p];
      } else {
        assert o in t.observers && call in t.observers[o].calls;
      }
    }
  }

  lemma SaveRemembers(s: System, o: nat)
    requires NobodyForgotten(s) && Enabled(s, SaveAnswers(o, true))
    ensures NobodyForgotten(Next(s, SaveAnswers(o, true)))
  {
    var t := Next(s, SaveAnswers(o, true));
    forall call | BumpToCome(s, call) ensures BumpToCome(t, call) {
      var p :| p in s.observers && call in s.observers[p].calls;
      assert p in t.observers && call in t.observers[p].calls;
    }
  }

  lemma OtherRemembers(s: System, step: Step)
    requires Filed(s.records) && NobodyForgotten(s) && SeenPast(s) && Enabled(s, step)
    requires !step.Mark? && !step.SaveAnswers?
    ensures NobodyForgotten(Next(s, step))
  {
    var t := Next(s, step);
    forall w | w in t.waiters && t.waiters[w].stage.Parked? && IsDelivered(t.records, t.waiters[w].call)
      && t.waiters[w].seen == t.revision
      ensures BumpToCome(t, t.waiters[w].call)
    {
      assert !step.Bump? && t.observers == s.observers;
      assert w in s.waiters && s.waiters[w].call == t.waiters[w].call && s.waiters[w].seen == t.waiters[w].seen;
      var p :| p in s.observers && t.waiters[w].call in s.observers[p].calls;
      assert p in t.observers && t.waiters[w].call in t.observers[p].calls;
    }
  }

  /** Whoever depends on observer `o` for a wakeup has another observer. */
  ghost predicate Covered(s: System, o: nat) {
    forall w :: w in s.waiters && AwaitsBump(s, s.waiters[w]) ==> OtherBump(s, o, s.waiters[w].call)
  }

  /** Parked on a delivered record, having seen the latest revision. */
  predicate AwaitsBump(s: System, waiter: Waiter) {
    waiter.stage.Parked? && IsDelivered(s.records, waiter.call) && waiter.seen == s.revision
  }

  ghost predicate OtherBump(s: System, o: nat, call: CallId) {
    exists p :: p in s.observers && p != o && call in s.observers[p].calls
  }

  /** Exactly when a failed save forgets nobody. */
  lemma FailureExact(s: System, o: nat)
    requires Enabled(s, SaveAnswers(o, false))
    ensures NobodyForgotten(Next(s, SaveAnswers(o, false))) <==> Covered(s, o)
  {
    var t := Next(s, SaveAnswers(o, false));
    forall call ensures BumpToCome(t, call) <==> OtherBump(s, o, call) {
      if BumpToCome(t, call) {
        var p :| p in t.observers && call in t.observers[p].calls;
        assert p in s.observers && p != o && s.observers[p] == t.observers[p];
      }
      if OtherBump(s, o, call) {
        var p :| p in s.observers && p != o && call in s.observers[p].calls;
        assert p in t.observers && t.observers[p] == s.observers[p];
      }
    }
  }

  predicate Fails(step: Step) { step.SaveAnswers? && !step.ok }

  /** Exactly when a step leaves everybody remembered. */
  lemma NextRemembers(s: System, step: Step)
    requires Attentive(s) && Enabled(s, step)
    ensures Attentive(Next(s, step)) <==> (Fails(step) ==> Covered(s, step.observer))
  {
    NextKeeps(s, step);
    assert Filed(Next(s, step).records);
    hide NobodyForgotten, Covered, Filed, Kept;
    if step.Mark? {
      MarkRemembers(s, step.observer, step.calls);
    } else if step.SaveAnswers? {
      if step.ok { SaveRemembers(s, step.observer); } else { FailureExact(s, step.observer); }
    } else {
      OtherRemembers(s, step);
    }
  }

  /** Nobody is forgotten at any point of the run. */
  ghost predicate AlwaysRemembered(s: System, steps: seq<Step>)
    requires Possible(s, steps)
    decreases |steps|
  {
    NobodyForgotten(s) && (steps != [] ==> AlwaysRemembered(Next(s, steps[0]), steps[1..]))
  }

  /** Every save that fails is covered at that moment. */
  ghost predicate FailuresCovered(s: System, steps: seq<Step>)
    requires Possible(s, steps)
    decreases |steps|
  {
    steps != [] ==>
      (Fails(steps[0]) ==> Covered(s, steps[0].observer)) && FailuresCovered(Next(s, steps[0]), steps[1..])
  }

  lemma NowRemembered(s: System, steps: seq<Step>)
    requires Possible(s, steps) && AlwaysRemembered(s, steps)
    ensures NobodyForgotten(s)
  {
  }

  /** No waiter sleeps through its delivery at any point of a run, exactly if each
      failed save leaves another observer to every waiter that needs one. */
  lemma {:induction false} NoLostWakeup(s: System, steps: seq<Step>)
    requires Attentive(s) && Possible(s, steps)
    ensures AlwaysRemembered(s, steps) <==> FailuresCovered(s, steps)
    decreases |steps|
  {
    if steps != [] {
      hide NobodyForgotten, Filed, Next, Covered, SeenPast;
      NextRemembers(s, steps[0]);
      SeenStays(s, steps[0]);
      if Attentive(Next(s, steps[0])) {
        NoLostWakeup(Next(s, steps[0]), steps[1..]);
      } else if AlwaysRemembered(s, steps) {
        NowRemembered(Next(s, steps[0]), steps[1..]);
      }
    }
  }

  lemma SeenStays(s: System, step: Step)
    requires Attentive(s) && Enabled(s, step)
    ensures SeenPast(Next(s, step)) && Filed(Next(s, step).records)
  {
    NextKeeps(s, step);
  }

  predicate SavesSucceed(steps: seq<Step>) { forall i :: 0 <= i < |steps| ==> !Fails(steps[i]) }

  /** In particular nobody is forgotten while saves succeed. */
  lemma {:induction false} SuccessCovers(s: System, steps: seq<Step>)
    requires Possible(s, steps) && SavesSucceed(steps)
    ensures FailuresCovered(s, steps)
    decreases |steps|
  {
    if steps != [] {
      hide Next, Covered;
      assert SavesSucceed(steps[1..]);
      SuccessCovers(Next(s, steps[0]), steps[1..]);
    }
  }

  /** A failed save drops the bump but not the mark: the waiter then sleeps on a
      delivered record with nothing to come. */
  lemma FailedSaveForgets(s: System, o: nat, w: nat, call: CallId)
    requires Filed(s.records) && s.observers == map[] && w in s.waiters
    requires s.waiters[w] == Waiter(call, s.revision, Parked)
    requires call in s.records && s.records[call].state.Settled? && !s.records[call].delivered
    ensures Possible(s, [Mark(o, {call}), SaveAnswers(o, false)])
    ensures !NobodyForgotten(After(s, [Mark(o, {call}), SaveAnswers(o, false)]))
  {
    var marked := Next(s, Mark(o, {call}));
    assert ToDeliver(s.records[call], {call});
    assert marked.observers == map[o := Marked({call})];
    var t := Next(marked, SaveAnswers(o, false));
    assert t.observers == map[] && IsDelivered(t.records, call) && t.waiters == s.waiters;
    var steps := [Mark(o, {call}), SaveAnswers(o, false)];
    assert steps[1..] == [SaveAnswers(o, false)] && steps[1..][1..] == [];
    assert !BumpToCome(t, call);
    assert After(t, []) == t;
    assert After(marked, steps[1..]) == t;
    assert After(s, steps) == t;
  }
}
