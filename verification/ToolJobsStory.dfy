/** What became of a tool job, read off the whole history of the ledger
    (crates/harness-demo/src/async_demo.rs). */
module ToolJobsStory {
  import opened JsMap
  import opened ToolJobs

  /** The operations, as they take the lock. */
  datatype Op =
    | Begin(about: About)
    | Settle(call: CallId, output: Output, now: Option<int>)
    | Cancel(call: CallId, now: Option<int>)
    | Observe(calls: set<CallId>)
    | Interrupt

  function Did(rs: Records, op: Op): Records {
    match op
    case Begin(about) => Started(rs, about.call, about)
    case Settle(call, output, now) => SettledWith(rs, call, output, now)
    case Cancel(call, now) => CancelledAt(rs, call, now)
    case Observe(calls) => Delivered(rs, calls)
    case Interrupt => InterruptedAll(rs)
  }

  function AfterAll(ops: seq<Op>): Records {
    if ops == [] then map[] else Did(AfterAll(ops[..|ops| - 1]), ops[|ops| - 1])
  }

  predicate Begins(op: Op, k: CallId) { op.Begin? && op.about.call == k }

  predicate Ends(op: Op, k: CallId) { op.Interrupt? || ((op.Settle? || op.Cancel?) && op.call == k) }

  predicate Observes(op: Op, k: CallId) { op.Observe? && k in op.calls }

  /** The first operation that begins the job. */
  predicate FirstBegin(ops: seq<Op>, k: CallId, i: nat) {
    i < |ops| && Begins(ops[i], k) && forall j :: 0 <= j < i ==> !Begins(ops[j], k)
  }

  /** The first after that that ends it. */
  predicate FirstEnd(ops: seq<Op>, k: CallId, i: nat, e: nat) {
    i < e < |ops| && Ends(ops[e], k) && forall j :: i < j < e ==> !Ends(ops[j], k)
  }

  /** Some later operation hands the job's output to the model. */
  predicate ObservedAfter(ops: seq<Op>, k: CallId, e: nat) {
    exists d :: e < d < |ops| && Observes(ops[d], k)
  }

  /** The job as its beginning left it. */
  predicate StillRunning(about: About, job: Job) {
    job.about == about && job.state.Running? && !job.delivered && job.endedAt.None? && job.output.None?
  }

  /** The job as its end left it: the outcome, time and output are those of the end,
      and it is delivered exactly if it settled and was observed later. */
  predicate EndedBy(about: About, end: Op, observed: bool, job: Job) {
    && job.about == about && (job.delivered <==> end.Settle? && observed)
    && match end
       case Settle(_, output, now) => job.state.Settled? && job.output == Some(output) && job.endedAt == now
       case Cancel(_, now) => job.state.Cancelled? && job.output.None? && job.endedAt == now
       case Interrupt => job.state.Interrupted? && job.output.None? && job.endedAt.None?
       case _ => false
  }

  ghost predicate Unended(ops: seq<Op>, k: CallId, i: nat) { forall e :: i < e < |ops| ==> !Ends(ops[e], k) }

  /** The job's record is what its history says, from its first beginning and its
      first end; whatever is tried later changes nothing but its delivery. */
  ghost predicate Story(ops: seq<Op>, k: CallId, i: nat, job: Job)
    requires i < |ops| && ops[i].Begin?
  {
    if Unended(ops, k, i) then StillRunning(ops[i].about, job)
    else exists e: nat ::
      FirstEnd(ops, k, i, e) && EndedBy(ops[i].about, ops[e], ObservedAfter(ops, k, e), job)
  }

  lemma StoryBegins(ops: seq<Op>, about: About, job: Job)
    requires StillRunning(about, job)
    ensures Story(ops + [Begin(about)], about.call, |ops|, job)
  {
  }

  lemma UnendedNext(ops: seq<Op>, op: Op, k: CallId, i: nat)
    requires i < |ops|
    ensures Unended(ops + [op], k, i) <==> Unended(ops, k, i) && !Ends(op, k)
  {
    var all := ops + [op];
    assert forall e :: 0 <= e < |ops| ==> all[e] == ops[e];
    assert all[|ops|] == op;
  }

  lemma FirstEndNext(ops: seq<Op>, op: Op, k: CallId, i: nat, e: nat)
    requires FirstEnd(ops, k, i, e)
    ensures FirstEnd(ops + [op], k, i, e) && (ops + [op])[e] == ops[e]
    ensures ObservedAfter(ops + [op], k, e) <==> ObservedAfter(ops, k, e) || Observes(op, k)
  {
    var all := ops + [op];
    assert forall j :: 0 <= j < |ops| ==> all[j] == ops[j];
    if ObservedAfter(ops, k, e) {
      var d :| e < d < |ops| && Observes(ops[d], k);
      assert Observes(all[d], k);
    }
    assert all[|ops|] == op;
  }

  lemma EndsNow(ops: seq<Op>, op: Op, k: CallId, i: nat)
    requires i < |ops| && Unended(ops, k, i) && Ends(op, k)
    ensures FirstEnd(ops + [op], k, i, |ops|) && !ObservedAfter(ops + [op], k, |ops|)
  {
    var all := ops + [op];
    assert forall j :: 0 <= j < |ops| ==> all[j] == ops[j];
  }

  lemma StoryNext(ops: seq<Op>, op: Op, k: CallId, i: nat, rs: Records)
    requires i < |ops| && ops[i].Begin? && ops[i].about.call == k && k in rs && Story(ops, k, i, rs[k])
    ensures k in Did(rs, op) && Story(ops + [op], k, i, Did(rs, op)[k])
  {
    var all := ops + [op];
    assert all[i] == ops[i];
    UnendedNext(ops, op, k, i);
    if Unended(ops, k, i) {
      if Ends(op, k) { EndsNow(ops, op, k, i); }
    } else {
      var e: nat :| FirstEnd(ops, k, i, e) && EndedBy(ops[i].about, ops[e], ObservedAfter(ops, k, e), rs[k]);
      FirstEndNext(ops, op, k, i, e);
      hide ObservedAfter, Unended;
      assert EndedBy(all[i].about, all[e], ObservedAfter(all, k, e), Did(rs, op)[k]);
    }
  }

  /** After every sequence of operations there is a record of exactly the calls that
      were begun, and each says what its history says. */
  lemma {:induction false} RecordsTell(ops: seq<Op>, k: CallId) returns (i: nat)
    ensures k in AfterAll(ops) <==> exists j :: 0 <= j < |ops| && Begins(ops[j], k)
    ensures k in AfterAll(ops) ==> FirstBegin(ops, k, i) && Story(ops, k, i, AfterAll(ops)[k])
  {
    i := 0;
    if ops != [] {
      var init, last := ops[..|ops| - 1], ops[|ops| - 1];
      assert init + [last] == ops;
      i := RecordsTell(init, k);
      var rs := AfterAll(init);
      if k in rs {
        StoryNext(init, last, k, i, rs);
        assert Begins(ops[i], k);
      } else if Begins(last, k) {
        i := |init|;
        StoryBegins(init, last.about, Did(rs, last)[k]);
        assert Begins(ops[i], k);
      }
    }
  }
}
