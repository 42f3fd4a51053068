/** Waiting for a tool job's output to be delivered, and what the concurrent steps do
    to the records (crates/harness-demo/src/async_demo.rs). */
module ToolJobsWaiting {
  import opened JsMap
  import opened ToolJobs
  import opened ToolJobsStory

  // -------------------------------------------------- the records of a run

  /** The operation a step performs on the records, if any. */
  function OpOf(step: Step): seq<Op> {
    match step
    case Start(_, about) => [Begin(about)]
    case Settle(call, output, now) => [Op.Settle(call, output, now)]
    case Cancel(call, now) => [Op.Cancel(call, now)]
    case Interrupt => [Op.Interrupt]
    case Mark(_, calls) => [Observe(calls)]
    case _ => []
  }

  function OpsOf(steps: seq<Step>): seq<Op> {
    if steps == [] then [] else OpsOf(steps[..|steps| - 1]) + OpOf(steps[|steps| - 1])
  }

  lemma NothingMarked(rs: Records, calls: set<CallId>)
    requires !AnyToDeliver(rs, calls)
    ensures Delivered(rs, calls) == rs
  {
  }

  lemma StepDoes(s: System, step: Step)
    requires Enabled(s, step)
    ensures Next(s, step).records == (if OpOf(step) == [] then s.records else Did(s.records, OpOf(step)[0]))
  {
    if step.Mark? && !AnyToDeliver(s.records, step.calls) { NothingMarked(s.records, step.calls); }
    hide Started, SettledWith, CancelledAt, Delivered, InterruptedAll;
  }

  lemma {:induction false} RunTo(s: System, steps: seq<Step>)
    requires Possible(s, steps) && steps != []
    ensures var init, last := steps[..|steps| - 1], steps[|steps| - 1];
      Possible(s, init) && Enabled(After(s, init), last) && After(s, steps) == Next(After(s, init), last)
    decreases |steps|
  {
    hide Next, Enabled;
    if |steps| == 1 {
      assert steps[..0] == [] && steps[1..] == [];
      assert Possible(Next(s, steps[0]), []);
    } else {
      var rest := steps[1..];
      RunTo(Next(s, steps[0]), rest);
      assert rest[..|rest| - 1] == steps[..|steps| - 1][1..];
    }
  }

  /** Whatever the interleaving, the records are those of the operations in the order
      in which they took the lock. */
  lemma {:induction false} RecordsFollow(s: System, steps: seq<Step>)
    requires Possible(s, steps) && s.records == map[]
    ensures After(s, steps).records == AfterAll(OpsOf(steps))
  {
    if steps != [] {
      var init, last := steps[..|steps| - 1], steps[|steps| - 1];
      RunTo(s, steps);
      RecordsFollow(s, init);
      StepDoes(After(s, init), last);
      hide Next, Did, Enabled, OpOf;
      OpsNext(OpsOf(init), OpOf(last));
    }
  }

  lemma OpsNext(ops: seq<Op>, more: seq<Op>)
    requires |more| <= 1
    ensures AfterAll(ops + more) == if more == [] then AfterAll(ops) else Did(AfterAll(ops), more[0])
  {
    hide Did;
    if more == [] {
      assert ops + more == ops;
    } else {
      assert (ops + more)[..|ops + more| - 1] == ops;
    }
  }

  // -------------------------------------------------------------- the waiters

  /** Nobody is through before the delivery. */
  ghost predicate ThroughAfter(s: System) {
    forall w :: w in s.waiters && s.waiters[w].stage.Through? ==> IsDelivered(s.records, s.waiters[w].call)
  }

  lemma {:induction false} NobodyEarly(s: System, steps: seq<Step>)
    requires Possible(s, steps) && ThroughAfter(s)
    ensures ThroughAfter(After(s, steps))
    decreases |steps|
  {
    hide Kept;
    if steps != [] {
      NextKeeps(s, steps[0]);
      assert ThroughAfter(Next(s, steps[0])) by { StillDelivered(s, steps[0]); }
      hide Next, Enabled;
      NobodyEarly(Next(s, steps[0]), steps[1..]);
    }
  }

  lemma StillDelivered(s: System, step: Step)
    requires Enabled(s, step) && ThroughAfter(s) && Kept(s.records, Next(s, step).records)
    ensures ThroughAfter(Next(s, step))
  {
    var t := Next(s, step);
    forall w | w in t.waiters && t.waiters[w].stage.Through? ensures IsDelivered(t.records, t.waiters[w].call) {
      assert IsDelivered(s.records, t.waiters[w].call);
      assert JobAdvances(s.records[t.waiters[w].call], t.records[t.waiters[w].call]);
    }
  }

  /** A step of the waiter itself or of an observer whose save is in progress. */
  predicate OwnStep(s: System, w: nat, step: Step) {
    || step == Inspect(w) || step == Wake(w)
    || ((step.Bump? || (step.SaveAnswers? && step.ok)) && step.observer in s.observers)
  }

  lemma OneStep(s: System, a: Step)
    requires Enabled(s, a)
    ensures Possible(s, [a]) && After(s, [a]) == Next(s, a)
  {
    hide Next, Enabled;
    assert [a][1..] == [];
    assert Possible(Next(s, a), []) && After(Next(s, a), []) == Next(s, a);
  }

  lemma TwoSteps(s: System, a: Step, b: Step)
    requires Enabled(s, a) && Enabled(Next(s, a), b)
    ensures Possible(s, [a, b]) && After(s, [a, b]) == Next(Next(s, a), b)
  {
    OneStep(Next(s, a), b);
    hide Next, Enabled;
    assert [a, b][1..] == [b];
  }

  lemma WakesThrough(s: System, w: nat) returns (steps: seq<Step>)
    requires w in s.waiters && IsDelivered(s.records, s.waiters[w].call)
    requires s.waiters[w].stage.Parked? ==> s.waiters[w].seen != s.revision
    ensures Possible(s, steps) && w in After(s, steps).waiters && After(s, steps).waiters[w].stage.Through?
    ensures forall i :: 0 <= i < |steps| ==> steps[i] == Inspect(w) || steps[i] == Wake(w)
  {
    match s.waiters[w].stage
    case Checking => steps := [Inspect(w)]; OneStep(s, Inspect(w));
    case Parked => steps := [Wake(w), Inspect(w)]; TwoSteps(s, Wake(w), Inspect(w));
    case Through => steps := [];
  }

  lemma BumpFirst(s: System, o: nat) returns (steps: seq<Step>)
    requires o in s.observers
    ensures Possible(s, steps)
    ensures forall i :: 0 <= i < |steps| ==> steps[i] == SaveAnswers(o, true) || steps[i] == Bump(o)
    ensures var t := After(s, steps);
      t.records == s.records && t.waiters == s.waiters && t.revision == s.revision + 1
  {
    if s.observers[o].Marked? {
      steps := [SaveAnswers(o, true), Bump(o)];
      TwoSteps(s, SaveAnswers(o, true), Bump(o));
    } else {
      steps := [Bump(o)];
      OneStep(s, Bump(o));
    }
  }

  lemma {:induction false} RunJoin(s: System, a: seq<Step>, b: seq<Step>)
    requires Possible(s, a) && Possible(After(s, a), b)
    ensures Possible(s, a + b) && After(s, a + b) == After(After(s, a), b)
    decreases |a|
  {
    hide Next, Enabled;
    if a == [] {
      assert a + b == b;
    } else {
      assert (a + b)[0] == a[0] && (a + b)[1..] == a[1..] + b;
      RunJoin(Next(s, a[0]), a[1..], b);
    }
  }

  /** Nobody waits in vain: whoever waits for a delivered job, in a state where nobody
      is forgotten, gets through by its own steps and those of observers that are
      already at work. */
  lemma WaiterGetsThrough(s: System, w: nat) returns (steps: seq<Step>)
    requires Attentive(s) && w in s.waiters && IsDelivered(s.records, s.waiters[w].call)
    ensures Possible(s, steps) && w in After(s, steps).waiters && After(s, steps).waiters[w].stage.Through?
    ensures forall i :: 0 <= i < |steps| ==> OwnStep(s, w, steps[i])
  {
    if s.waiters[w].stage.Parked? && s.waiters[w].seen == s.revision {
      var o :| o in s.observers && s.waiters[w].call in s.observers[o].calls;
      var first := BumpFirst(s, o);
      var then' := WakesThrough(After(s, first), w);
      RunJoin(s, first, then');
      steps := first + then';
    } else {
      steps := WakesThrough(s, w);
    }
  }

  /** Whoever asks after the delivery does not wait at all; whoever asks before has
      seen no later revision than that of the moment it asked. */
  lemma LateAskerPasses(s: System, w: nat, call: CallId)
    requires w !in s.waiters
    ensures var t := After(s, [Subscribe(w, call), Inspect(w)]);
      && Possible(s, [Subscribe(w, call), Inspect(w)]) && w in t.waiters && t.waiters[w].call == call
      && t.waiters[w].seen == s.revision && t.records == s.records
      && (t.waiters[w].stage.Through? <==> IsDelivered(s.records, call))
      && (t.waiters[w].stage.Parked? <==> !IsDelivered(s.records, call))
  {
    TwoSteps(s, Subscribe(w, call), Inspect(w));
  }
}
