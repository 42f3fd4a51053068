/** What a connection does get done: what each frame leads to, and that a snapshot
    with the events after it brings the replica up to date (web/src/ws-client.ts). */
module ConnectionProgress {
  import opened JsMap
  import opened OperationId
  import opened HostCommands
  import opened Replica
  import opened Connection

  predicate Live(c: Conn) { !c.lost && !c.disposed }

  /** Trouble is answered: a request is outstanding, or the connection given up. */
  predicate Answered(c: Conn) { c.requested || c.lost }

  // -------------------------------------------------------------- one frame

  function Delivered(c: Conn): seq<Normalized> { Deliveries(c.trace) }

  lemma SaidCoherent(c: Conn, e: Effect)
    requires Coherent(c) && !e.Deliver? && !e.Request?
    ensures Coherent(Tell(c, e)) && Delivered(Tell(c, e)) == Delivered(c)
  {
    TellCoherent(c, e);
  }

  lemma RequestedAnswers(c: Conn, env: Env)
    requires Coherent(c) && Live(c)
    ensures var d := Requested(c, env); Answered(d) && d.current == c.current && Delivered(d) == Delivered(c)
    ensures env.open && !env.sendThrows ==> Requested(c, env).requested && Live(Requested(c, env))
  {
    RequestedCoherent(c, env);
  }

  lemma RequestedGrows(c: Conn, env: Env)
    ensures c.trace <= Requested(c, env).trace
  {
  }

  lemma FailingAnswers(c: Conn, env: Env)
    requires Coherent(c) && Live(c)
    ensures var d := Failing(c, env);
      && Answered(d) && d.current == c.current && Delivered(d) == Delivered(c)
      && c.trace + [Problem] <= d.trace
  {
    var told := Tell(c, Problem);
    SaidCoherent(c, Problem);
    RequestedGrows(told, env);
    hide Delivered, Coherent, Requested;
    RequestedAnswers(told, env);
  }

  /** A state was taken over and handed to the owner; if that went well the
      connection is ready, else the trouble is reported and answered. */
  ghost predicate TakenOver(c: Conn, d: Conn, s: Normalized, env: Env) {
    && Coherent(d) && d.current == Some(s) && Delivered(d) == Delivered(c) + [s]
    && |c.trace| <= |d.trace|
    && (if env.callbackThrows then Answered(d) && Problem in d.trace[|c.trace|..]
        else Live(d) && d.phase.Ready? && !d.requested)
  }

  lemma CalledTakesOver(c: Conn, e: Conn, s: Normalized, env: Env)
    requires Coherent(Tell(e, Deliver(s))) && Live(e) && e.current == Some(s) && e.phase.Ready? && !e.requested
    requires |c.trace| <= |e.trace|
    requires Delivered(Tell(e, Deliver(s))) == Delivered(c) + [s]
    ensures TakenOver(c, Called(e, Deliver(s), env), s, env)
  {
    var told := Tell(e, Deliver(s));
    CalledCoherent(e, Deliver(s), env);
    assert Delivered(Called(e, Deliver(s), env)) == Delivered(told);
    hide Delivered, Coherent;
    if env.callbackThrows {
      FailingAnswers(told, env);
      var d := Failing(told, env);
      assert d.trace[|told.trace|] == Problem;
      assert d.trace[|c.trace|..][|told.trace| - |c.trace|] == Problem;
    }
  }

  lemma DeliversNext(c: Conn, s: Normalized)
    ensures Delivered(Tell(c.(current := Some(s)), Deliver(s))) == Delivered(c) + [s]
  {
  }

  lemma TakenOverShows(c: Conn, d: Conn, s: Normalized, env: Env)
    requires TakenOver(c, d, s, env)
    ensures d.current == Some(s)
  {
    hide Coherent, Delivered;
  }

  /** The next event of a ready connection is applied and delivered. */
  lemma EventApplied(c: Conn, seqNo: nat, change: Change, env: Env)
    requires Coherent(c) && Live(c) && c.phase.Ready? && seqNo == c.current.value.seqNo + 1
    ensures TakenOver(c, Received(c, EventFrame(seqNo, change), env),
                      Changed(c.current.value.(seqNo := seqNo), change), env)
    ensures Received(c, EventFrame(seqNo, change), env).current.value.seqNo == seqNo
  {
    var s := Changed(c.current.value.(seqNo := seqNo), change);
    ChangeKeepsSeq(c.current.value.(seqNo := seqNo), change);
    DeliverCoherent(c, s);
    DeliversNext(c, s);
    assert !c.requested;
    hide Delivered, Coherent, Changed, Called, TakenOver;
    CalledTakesOver(c, c.(current := Some(s)), s, env);
    assert TakenOver(c, Received(c, EventFrame(seqNo, change), env), s, env);
    TakenOverShows(c, Received(c, EventFrame(seqNo, change), env), s, env);
  }

  lemma AdoptedTakesOver(c: Conn, s: Snapshot, env: Env)
    requires Coherent(c) && Live(c) && !Stale(c, s)
    ensures TakenOver(c, Adopted(c, s, env), Normalize(s), env)
  {
    var n := Normalize(s);
    DeliverCoherent(c, n);
    var e := Moved(c.(current := Some(n), requested := false, timer := false), Ready);
    assert Delivered(Tell(e, Deliver(n))) == Delivered(c) + [n];
    hide Delivered, Deliveries, Outstanding, Ascending, Normalize;
    CalledTakesOver(c, e, n, env);
  }

  /** A snapshot that is not older than the replica is always adopted, whatever the
      phase and the run; so is an older one of another run. */
  lemma SnapshotAdopted(c: Conn, s: Snapshot, env: Env)
    requires Coherent(c) && Live(c)
    requires c.current.None? || s.seqNo >= c.current.value.seqNo || !SameRun(s.hostRun, c.current.value.hostRun)
    ensures TakenOver(c, Received(c, SnapshotFrame(s), env), Normalize(s), env)
    ensures Received(c, SnapshotFrame(s), env).current.value.seqNo == s.seqNo
  {
    AdoptedTakesOver(c, s, env);
  }

  /** The other frames: what the owner is told first, and that nothing else comes of
      them unless it throws. */
  lemma OtherFrames(c: Conn, frame: Frame, env: Env)
    requires Coherent(c) && Live(c) && !frame.SnapshotFrame? && !frame.EventFrame?
    ensures var d := Received(c, frame, env);
      && d.current == c.current && Delivered(d) == Delivered(c) && |d.trace| > |c.trace|
      && c.trace <= d.trace
      && match frame
         case Malformed => d.trace[|c.trace|] == Problem && Answered(d)
         case AcceptedFrame(id) =>
           if id == "" then d.trace[|c.trace|] == Problem && Answered(d)
           else
             && d.trace[|c.trace|] == AcceptedBy(id)
             && (if env.callbackThrows then Answered(d) else d == Tell(c, AcceptedBy(id)))
         case RefusedFrame(reason) =>
           && d.trace[|c.trace|] == RefusedWith(reason)
           && (if env.callbackThrows then Answered(d) else d == Tell(c, RefusedWith(reason)))
         case _ => true
  {
    hide Delivered, Deliveries, Outstanding, Ascending, Coherent;
    match frame
    case Malformed => FailingAnswers(c, env);
    case AcceptedFrame(id) =>
      if id == "" { FailingAnswers(c, env); } else { SaidAnswers(c, AcceptedBy(id), env); }
    case RefusedFrame(reason) => SaidAnswers(c, RefusedWith(reason), env);
  }

  lemma SaidAnswers(c: Conn, e: Effect, env: Env)
    requires Coherent(c) && Live(c) && !e.Deliver? && !e.Request?
    ensures var d := Called(c, e, env);
      && d.current == c.current && Delivered(d) == Delivered(c) && c.trace + [e] <= d.trace
      && (env.callbackThrows ==> Answered(d))
  {
    SaidCoherent(c, e);
    hide Delivered, Coherent;
    if env.callbackThrows { FailingAnswers(Tell(c, e), env); }
  }

  // ------------------------------------------------------ snapshot and events

  /** A snapshot and the next `k` events of the log, in order. */
  function CatchUp(s: Snapshot, log: seq<Change>, k: nat, env: Env): seq<Turn>
    requires s.seqNo + k <= |log|
  {
    if k == 0 then [Turn(Message(SnapshotFrame(s)), env)]
    else CatchUp(s, log, k - 1, env) + [Turn(Message(EventFrame(s.seqNo + k, log[s.seqNo + k - 1])), env)]
  }

  lemma AfterOne(c: Conn, turns: seq<Turn>, turn: Turn, now: Conn)
    requires now == After(c, turns)
    ensures After(c, turns + [turn]) == Next(now, turn.step, turn.env)
  {
    assert (turns + [turn])[..|turns|] == turns;
  }

  /** One delivery for the snapshot and one for each event, with their numbers. */
  ghost predicate AllDelivered(c: Conn, d: Conn, first: nat, k: nat) {
    var before, after := Delivered(c), Delivered(d);
    && |after| == |before| + k + 1 && before <= after
    && forall j :: |before| <= j < |after| ==> after[j].seqNo == first + j - |before|
  }

  lemma OneMoreDelivered(c: Conn, d: Conn, e: Conn, first: nat, k: nat, s: Normalized)
    requires AllDelivered(c, d, first, k) && Delivered(e) == Delivered(d) + [s] && s.seqNo == first + k + 1
    ensures AllDelivered(c, e, first, k + 1)
  {
    hide Delivered;
    var before, mid, after := Delivered(c), Delivered(d), Delivered(e);
    assert forall j :: 0 <= j < |mid| ==> after[j] == mid[j];
  }

  lemma FirstDelivered(c: Conn, d: Conn, s: Normalized)
    requires Delivered(d) == Delivered(c) + [s]
    ensures AllDelivered(c, d, s.seqNo, 0)
  {
  }

  ghost function HostAt(start: World, log: seq<Change>, n: nat): World
    requires n <= |log|
  {
    WorldAt(start, log, n)
  }

  lemma ShowsNext(now: Normalized, start: World, log: seq<Change>, n: nat)
    requires n < |log| && now.seqNo == n && Shows(now, HostAt(start, log, n))
    ensures Shows(Changed(now.(seqNo := n + 1), log[n]), HostAt(start, log, n + 1))
  {
    hide Shows, Changed, WorldAt;
    NextShows(now, log[n], start, log);
  }

  /** Ready at the `k`-th event after the snapshot, with everything delivered. */
  ghost predicate UpTo(c: Conn, d: Conn, s: Snapshot, start: World, log: seq<Change>, k: nat)
    requires s.seqNo + k <= |log|
  {
    && Coherent(d) && Live(d) && d.phase.Ready? && d.current.Some? && d.current.value.seqNo == s.seqNo + k
    && AllDelivered(c, d, s.seqNo, k)
    && (Describes(s, HostAt(start, log, s.seqNo)) ==> Shows(d.current.value, HostAt(start, log, s.seqNo + k)))
  }

  lemma UpToSnapshot(c: Conn, s: Snapshot, start: World, log: seq<Change>, env: Env)
    requires Coherent(c) && Live(c) && !env.callbackThrows && s.seqNo <= |log|
    requires c.current.None? || s.seqNo >= c.current.value.seqNo || !SameRun(s.hostRun, c.current.value.hostRun)
    ensures UpTo(c, Received(c, SnapshotFrame(s), env), s, start, log, 0)
  {
    SnapshotAdopted(c, s, env);
    hide Received, Describes, Shows, Normalize, Delivered, Coherent, HostAt, AllDelivered;
    var d := Received(c, SnapshotFrame(s), env);
    FirstDelivered(c, d, Normalize(s));
    if Describes(s, HostAt(start, log, s.seqNo)) { NormalizeShows(s, HostAt(start, log, s.seqNo)); }
  }

  lemma UpToNext(c: Conn, d: Conn, s: Snapshot, start: World, log: seq<Change>, k: nat, env: Env)
    requires !env.callbackThrows && s.seqNo + k + 1 <= |log| && UpTo(c, d, s, start, log, k)
    ensures UpTo(c, Received(d, EventFrame(s.seqNo + k + 1, log[s.seqNo + k]), env), s, start, log, k + 1)
  {
    var n := s.seqNo + k + 1;
    EventApplied(d, n, log[n - 1], env);
    hide Received, Describes, Shows, Changed, Delivered, Coherent, HostAt, AllDelivered;
    var e := Received(d, EventFrame(n, log[n - 1]), env);
    OneMoreDelivered(c, d, e, s.seqNo, k, e.current.value);
    if Describes(s, HostAt(start, log, s.seqNo)) { ShowsNext(d.current.value, start, log, n - 1); }
  }

  /** A snapshot that is taken, followed by the next events of the log in order, is
      delivered with all of them: the replica ends ready at the last number and,
      if the snapshot is the host's, shows the host there. */
  lemma {:induction false} CaughtUp(c: Conn, s: Snapshot, start: World, log: seq<Change>, k: nat, env: Env)
    requires Coherent(c) && Live(c) && !env.callbackThrows && s.seqNo + k <= |log|
    requires c.current.None? || s.seqNo >= c.current.value.seqNo || !SameRun(s.hostRun, c.current.value.hostRun)
    ensures UpTo(c, After(c, CatchUp(s, log, k, env)), s, start, log, k)
  {
    hide Received, UpTo, Coherent;
    if k == 0 {
      var turn := Turn(Message(SnapshotFrame(s)), env);
      assert [] + [turn] == [turn];
      AfterOne(c, [], turn, c);
      UpToSnapshot(c, s, start, log, env);
    } else {
      CaughtUp(c, s, start, log, k - 1, env);
      var n := s.seqNo + k;
      var turns, turn := CatchUp(s, log, k - 1, env), Turn(Message(EventFrame(n, log[n - 1])), env);
      var d := After(c, turns);
      AfterOne(c, turns, turn, d);
      UpToNext(c, d, s, start, log, k - 1, env);
    }
  }

  // ------------------------------------------------------------- the phases

  function LastPhase(trace: seq<Effect>): Option<Phase> {
    if trace == [] then None
    else var last := trace[|trace| - 1]; if last.PhaseIs? then Some(last.phase) else LastPhase(trace[..|trace| - 1])
  }

  function Losses(trace: seq<Effect>): nat {
    if trace == [] then 0 else Losses(trace[..|trace| - 1]) + (if trace[|trace| - 1].LostNow? then 1 else 0)
  }

  /** The owner knows the phase, and of a loss exactly once. */
  ghost predicate Announced(c: Conn) {
    LastPhase(c.trace) == Some(c.phase) && Losses(c.trace) == (if c.lost then 1 else 0)
  }

  lemma ToldPhase(c: Conn, e: Effect)
    ensures LastPhase(Tell(c, e).trace) == if e.PhaseIs? then Some(e.phase) else LastPhase(c.trace)
    ensures Losses(Tell(c, e).trace) == Losses(c.trace) + if e.LostNow? then 1 else 0
  {
    assert Tell(c, e).trace[..|c.trace|] == c.trace;
  }

  lemma TellAnnounced(c: Conn, e: Effect)
    requires Announced(c) && !e.PhaseIs? && !e.LostNow?
    ensures Announced(Tell(c, e))
  {
    ToldPhase(c, e);
  }

  lemma MovedAnnounced(c: Conn, phase: Phase)
    requires Losses(c.trace) == if c.lost then 1 else 0
    ensures Announced(Moved(c, phase))
  {
    ToldPhase(c.(phase := phase), PhaseIs(phase));
  }

  lemma DroppedAnnounced(c: Conn)
    requires Announced(c)
    ensures Announced(Dropped(c))
  {
    if !c.disposed && !c.lost {
      var d := c.(lost := true, timer := false, phase := Disconnected);
      ToldPhase(d, PhaseIs(Disconnected));
      ToldPhase(Tell(d, PhaseIs(Disconnected)), LostNow);
    }
  }

  lemma RequestedAnnounced(c: Conn, env: Env)
    requires Announced(c)
    ensures Announced(Requested(c, env))
  {
    hide LastPhase, Losses;
    if !c.disposed && !c.requested {
      var d := Moved(c, if c.current.Some? then Resync else AwaitingSnapshot);
      MovedAnnounced(c, d.phase);
      if !env.open || env.sendThrows { DroppedAnnounced(d); } else { ToldPhase(d, Request); }
    }
  }

  lemma FailingAnnounced(c: Conn, env: Env)
    requires Announced(c)
    ensures Announced(Failing(c, env))
  {
    TellAnnounced(c, Problem);
    RequestedAnnounced(Tell(c, Problem), env);
  }

  lemma CalledAnnounced(c: Conn, e: Effect, env: Env)
    requires Announced(c) && !e.PhaseIs? && !e.LostNow?
    ensures Announced(Called(c, e, env))
  {
    TellAnnounced(c, e);
    if env.callbackThrows { FailingAnnounced(Tell(c, e), env); }
  }

  lemma ReceivedAnnounced(c: Conn, frame: Frame, env: Env)
    requires Announced(c)
    ensures Announced(Received(c, frame, env))
  {
    hide LastPhase, Losses, Normalize, Changed;
    if Live(c) {
      match frame
      case Malformed => FailingAnnounced(c, env);
      case SnapshotFrame(s) =>
        var e := c.(current := Some(Normalize(s)), requested := false, timer := false);
        MovedAnnounced(e, Ready);
        CalledAnnounced(Moved(e, Ready), Deliver(Normalize(s)), env);
      case EventFrame(seqNo, change) =>
        RequestedAnnounced(c, env);
        if c.current.Some? {
          var s := Changed(c.current.value.(seqNo := seqNo), change);
          CalledAnnounced(c.(current := Some(s)), Deliver(s), env);
        }
      case AcceptedFrame(id) =>
        FailingAnnounced(c, env);
        CalledAnnounced(c, AcceptedBy(id), env);
      case RefusedFrame(reason) => CalledAnnounced(c, RefusedWith(reason), env);
    }
  }

  lemma NextAnnounced(c: Conn, step: Step, env: Env)
    requires Announced(c)
    ensures Announced(Next(c, step, env))
  {
    hide LastPhase, Losses, Received;
    match step
    case Message(frame) => ReceivedAnnounced(c, frame, env);
    case Open => if !c.disposed { MovedAnnounced(c, AwaitingSnapshot); }
    case SocketError =>
      TellAnnounced(c, Problem);
      DroppedAnnounced(Tell(c, Problem));
    case Timeout =>
      var d := c.(timer := false);
      TellAnnounced(d, Problem);
      DroppedAnnounced(Tell(d, Problem));
    case _ => DroppedAnnounced(c);
  }

  /** In every run the last phase told is the phase there is, and a loss is told
      exactly once. */
  lemma {:induction false} RunAnnounced(turns: seq<Turn>)
    ensures Announced(After(Fresh, turns))
  {
    hide Next;
    if turns == [] {
      assert Fresh.trace[..0] == [];
    } else {
      RunAnnounced(turns[..|turns| - 1]);
      NextAnnounced(After(Fresh, turns[..|turns| - 1]), turns[|turns| - 1].step, turns[|turns| - 1].env);
    }
  }

  // ------------------------------------------------- the end of a connection

  /** A timer that runs out, an error, a close and a throwing send end a live
      connection; nothing but these and a closed socket does. */
  lemma EndsExact(c: Conn, step: Step, env: Env)
    requires Coherent(c) && Live(c)
    ensures step.SocketError? || step.Close? || (step.Timeout? && c.timer) ==> Next(c, step, env).lost
    ensures step.Send? ==> (Next(c, step, env).lost <==> MaySend(c, step.out, env) && env.sendThrows)
    ensures step.Open? || step.Dispose? || (step.Timeout? && !c.timer) ==> !Next(c, step, env).lost
    ensures step.Message? && Next(c, step, env).lost ==> !env.open || env.sendThrows
    ensures step.Dispose? <==> Next(c, step, env).disposed
  {
    hide Delivered, Deliveries, Outstanding, Ascending, Normalize, Changed;
  }

  /** What leaves: exactly valid commands to the run last delivered, and old-style
      text exactly while no run is known, on a ready connection with an open socket. */
  lemma SendExact(c: Conn, out: Outgoing, env: Env)
    requires Coherent(c)
    ensures MaySend(c, out, env) <==>
      && Live(c) && c.phase.Ready? && env.open && Last(Delivered(c)).Some?
      && var run := Last(Delivered(c)).value.hostRun;
         if out.Legacy? then run.None?
         else
           && IsOperationId(out.operationId) && run == Some(out.command.target.run)
           && out.command.target.run != "" && out.command.target.actor != "" && out.command.target.incarnation != ""
           && (out.command.Interrupt? ==> IsOperationId(out.command.expectedRound))
           && (out.command.Recover? ==> out.command.expectedBlock.request != "")
  {
    hide Deliveries, Outstanding, Ascending, IsOperationId;
  }
}
