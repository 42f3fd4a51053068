/** One socket's snapshot gate, gap requests and deliveries (web/src/ws-client.ts). */
module Connection {
  import opened JsMap
  import opened OperationId
  import opened HostCommands
  import opened Replica

  datatype Phase = Connecting | AwaitingSnapshot | Ready | Resync | Disconnected

  /** What the connection tells its owner and the socket, in order. */
  datatype Effect =
    | PhaseIs(phase: Phase)
    | Deliver(state: Normalized)
    | Request
    | Problem
    | AcceptedBy(id: string)
    | RefusedWith(reason: string)
    | LostNow

  datatype Conn = Conn(current: Option<Normalized>, phase: Phase, requested: bool, disposed: bool, lost: bool,
                       timer: bool, trace: seq<Effect>)

  /** Frames after JSON and shape validation; `Malformed` is whatever fails it. */
  datatype Frame =
    | Malformed
    | SnapshotFrame(snapshot: Snapshot)
    | EventFrame(seqNo: nat, change: Change)
    | AcceptedFrame(id: string)
    | RefusedFrame(reason: string)

  /** What the environment answers during one step: whether the socket is open,
      whether its `send` throws, whether the owner's callback throws. */
  datatype Env = Env(open: bool, sendThrows: bool, callbackThrows: bool)

  const Fresh := Conn(None, Connecting, false, false, false, false, [PhaseIs(Connecting)])

  function Tell(c: Conn, e: Effect): Conn { c.(trace := c.trace + [e]) }

  function Moved(c: Conn, phase: Phase): Conn { Tell(c.(phase := phase), PhaseIs(phase)) }

  function Dropped(c: Conn): Conn {
    if c.disposed || c.lost then c else Tell(Moved(c.(lost := true, timer := false), Disconnected), LostNow)
  }

  function Requested(c: Conn, env: Env): Conn {
    if c.disposed || c.requested then c
    else
      var d := Moved(c, if c.current.Some? then Resync else AwaitingSnapshot);
      if !env.open || env.sendThrows then Dropped(d) else Tell(d, Request).(requested := true, timer := true)
  }

  function Failing(c: Conn, env: Env): Conn { Requested(Tell(c, Problem), env) }

  /** Call the owner; a throwing callback counts as a bad frame. */
  function Called(c: Conn, e: Effect, env: Env): Conn {
    if env.callbackThrows then Failing(Tell(c, e), env) else Tell(c, e)
  }

  /** The raw wire value against the normalised one. */
  predicate SameRun(wire: Wire, known: Option<string>) {
    (wire.Missing? && known.None?) || (wire.Run? && known == Some(wire.run))
  }

  predicate Stale(c: Conn, s: Snapshot) {
    c.current.Some? && SameRun(s.hostRun, c.current.value.hostRun) && s.seqNo < c.current.value.seqNo
  }

  function Adopted(c: Conn, s: Snapshot, env: Env): Conn {
    Called(Moved(c.(current := Some(Normalize(s)), requested := false, timer := false), Ready), Deliver(Normalize(s)),
           env)
  }

  function Evented(c: Conn, seqNo: nat, change: Change, env: Env): Conn {
    if c.current.None? || !c.phase.Ready? then Requested(c, env)
    else
      var result := ApplyStateEvent(c.current.value, seqNo, change);
      if result.Gap? then Requested(c, env)
      else Called(c.(current := Some(result.state)), Deliver(result.state), env)
  }

  function Received(c: Conn, frame: Frame, env: Env): Conn {
    if c.disposed || c.lost then c
    else match frame
      case Malformed => Failing(c, env)
      case SnapshotFrame(s) => if Stale(c, s) then c else Adopted(c, s, env)
      case EventFrame(seqNo, change) => Evented(c, seqNo, change, env)
      case AcceptedFrame(id) => if id == "" then Failing(c, env) else Called(c, AcceptedBy(id), env)
      case RefusedFrame(reason) => Called(c, RefusedWith(reason), env)
  }

  function Opened(c: Conn): Conn { if c.disposed then c else Moved(c, AwaitingSnapshot) }

  function Errored(c: Conn): Conn { if c.disposed then c else Dropped(Tell(c, Problem)) }

  function TimedOut(c: Conn): Conn {
    var d := c.(timer := false);
    if d.disposed || d.lost || !d.requested then d else Dropped(Tell(d, Problem))
  }

  function Disposed(c: Conn): Conn { c.(disposed := true, timer := false) }

  datatype Outgoing = Legacy(text: string) | Hosted(operationId: string, command: Command)

  datatype SendObservation = Sent | NotSent | Unknown

  predicate MaySend(c: Conn, out: Outgoing, env: Env) {
    && !c.disposed && !c.lost && c.phase.Ready? && env.open
    && match out
       case Hosted(id, command) =>
         IsOperationId(id) && IsHostCommand(command) && c.current.Some?
           && c.current.value.hostRun == Some(command.target.run)
       case Legacy(_) => c.current.None? || c.current.value.hostRun.None?
  }

  function Sending(c: Conn, out: Outgoing, env: Env): Conn {
    if MaySend(c, out, env) && env.sendThrows then Dropped(c) else c
  }

  datatype Step =
    | Open | Message(frame: Frame) | SocketError | Close | Timeout | Send(out: Outgoing) | Dispose

  function Next(c: Conn, step: Step, env: Env): Conn {
    match step
    case Open => Opened(c)
    case Message(frame) => Received(c, frame, env)
    case SocketError => Errored(c)
    case Close => Dropped(c)
    case Timeout => if c.timer then TimedOut(c) else c
    case Send(out) => Sending(c, out, env)
    case Dispose => Disposed(c)
  }

  datatype Turn = Turn(step: Step, env: Env)

  function After(c: Conn, turns: seq<Turn>): Conn {
    if turns == [] then c else Next(After(c, turns[..|turns| - 1]), turns[|turns| - 1].step, turns[|turns| - 1].env)
  }

  // ------------------------------------------------------- reading a trace

  function Deliveries(trace: seq<Effect>): seq<Normalized> {
    if trace == [] then []
    else
      var init, last := Deliveries(trace[..|trace| - 1]), trace[|trace| - 1];
      if last.Deliver? then init + [last.state] else init
  }

  /** Requests sent since the last delivery. */
  function Outstanding(trace: seq<Effect>): nat {
    if trace == [] then 0
    else
      var init, last := trace[..|trace| - 1], trace[|trace| - 1];
      if last.Deliver? then 0 else Outstanding(init) + (if last.Request? then 1 else 0)
  }

  lemma Told(c: Conn, e: Effect)
    ensures Deliveries(Tell(c, e).trace) == if e.Deliver? then Deliveries(c.trace) + [e.state] else Deliveries(c.trace)
    ensures Outstanding(Tell(c, e).trace) == if e.Deliver? then 0
      else Outstanding(c.trace) + (if e.Request? then 1 else 0)
  {
    assert Tell(c, e).trace[..|c.trace|] == c.trace;
  }

  function Last(d: seq<Normalized>): Option<Normalized> { if d == [] then None else Some(d[|d| - 1]) }

  /** While a string host run stays, the sequence number never falls. */
  ghost predicate Ascending(d: seq<Normalized>) {
    forall i :: 0 < i < |d| && d[i].hostRun.Some? && d[i].hostRun == d[i - 1].hostRun ==> d[i - 1].seqNo <= d[i].seqNo
  }

  ghost predicate FromLog(start: World, log: seq<Change>, d: seq<Normalized>) {
    forall i :: 0 <= i < |d| ==> d[i].seqNo <= |log| && Shows(d[i], WorldAt(start, log, d[i].seqNo))
  }

  /** The invariant of one connection. */
  ghost predicate Coherent(c: Conn) {
    && (c.phase.Ready? ==> c.current.Some? && !c.requested && !c.lost)
    && (c.timer <==> c.requested && !c.lost && !c.disposed)
    && Outstanding(c.trace) == (if c.requested then 1 else 0)
    && Last(Deliveries(c.trace)) == c.current
    && Ascending(Deliveries(c.trace))
  }

  lemma TellCoherent(c: Conn, e: Effect)
    requires Coherent(c) && !e.Deliver? && !e.Request?
    ensures Coherent(Tell(c, e)) && Deliveries(Tell(c, e).trace) == Deliveries(c.trace)
  {
    Told(c, e);
  }

  lemma DroppedCoherent(c: Conn)
    requires Coherent(c.(timer := c.requested && !c.lost && !c.disposed, phase := Disconnected))
    requires c.phase.Ready? ==> c.current.Some? && !c.requested && !c.lost
    requires c.disposed || c.lost ==> Coherent(c)
    ensures Coherent(Dropped(c)) && Deliveries(Dropped(c).trace) == Deliveries(c.trace)
  {
    hide Deliveries, Outstanding, Ascending, Last;
    if !c.disposed && !c.lost {
      var d := c.(lost := true, timer := false, phase := Disconnected);
      Told(d, PhaseIs(Disconnected));
      Told(Tell(d, PhaseIs(Disconnected)), LostNow);
    }
  }

  lemma RequestedCoherent(c: Conn, env: Env)
    requires Coherent(c) && !c.lost
    ensures Coherent(Requested(c, env)) && Deliveries(Requested(c, env).trace) == Deliveries(c.trace)
    ensures c.disposed || Requested(c, env).requested || Requested(c, env).lost
  {
    hide Deliveries, Outstanding, Ascending, Last;
    if !c.disposed && !c.requested {
      var d := Moved(c, if c.current.Some? then Resync else AwaitingSnapshot);
      Told(c.(phase := d.phase), PhaseIs(d.phase));
      assert Coherent(d);
      if !env.open || env.sendThrows {
        DroppedCoherent(d);
      } else {
        Told(d, Request);
      }
    }
  }

  lemma FailingCoherent(c: Conn, env: Env)
    requires Coherent(c) && !c.lost
    ensures Coherent(Failing(c, env)) && Deliveries(Failing(c, env).trace) == Deliveries(c.trace)
  {
    TellCoherent(c, Problem);
    RequestedCoherent(Tell(c, Problem), env);
  }

  lemma CalledCoherent(c: Conn, e: Effect, env: Env)
    requires !c.lost && Coherent(Tell(c, e))
    ensures Coherent(Called(c, e, env)) && Deliveries(Called(c, e, env).trace) == Deliveries(Tell(c, e).trace)
  {
    if env.callbackThrows { FailingCoherent(Tell(c, e), env); }
  }

  ghost predicate FrameFrom(start: World, log: seq<Change>, frame: Frame) {
    match frame
    case SnapshotFrame(s) => s.seqNo <= |log| && Describes(s, WorldAt(start, log, s.seqNo))
    case EventFrame(seqNo, change) => 0 < seqNo <= |log| && change == log[seqNo - 1]
    case _ => true
  }

  /** One more delivery: it continues the order. */
  lemma DeliverCoherent(c: Conn, s: Normalized)
    requires Last(Deliveries(c.trace)) == c.current && Ascending(Deliveries(c.trace)) && !c.lost && !c.disposed
    requires c.current.Some? && s.hostRun.Some? && s.hostRun == c.current.value.hostRun ==>
      c.current.value.seqNo <= s.seqNo
    ensures Coherent(Tell(Moved(c.(current := Some(s), requested := false, timer := false), Ready), Deliver(s)))
    ensures c.phase.Ready? && !c.timer && !c.requested ==> Coherent(Tell(c.(current := Some(s)), Deliver(s)))
    ensures Deliveries(Tell(Moved(c.(current := Some(s), requested := false, timer := false), Ready), Deliver(s)).trace)
         == Deliveries(Tell(c.(current := Some(s)), Deliver(s)).trace) == Deliveries(c.trace) + [s]
  {
    hide Deliveries, Outstanding;
    var d := c.(current := Some(s), requested := false, timer := false, phase := Ready);
    Told(d, PhaseIs(Ready));
    Told(Tell(d, PhaseIs(Ready)), Deliver(s));
    Told(c.(current := Some(s)), Deliver(s));
  }

  lemma AdoptedCoherent(c: Conn, s: Snapshot, env: Env)
    requires Coherent(c) && !c.lost && !c.disposed && !Stale(c, s)
    ensures Coherent(Adopted(c, s, env)) && Deliveries(Adopted(c, s, env).trace) == Deliveries(c.trace) + [Normalize(s)]
  {
    var n := Normalize(s);
    DeliverCoherent(c, n);
    CalledCoherent(Moved(c.(current := Some(n), requested := false, timer := false), Ready), Deliver(n), env);
  }

  lemma EventedCoherent(c: Conn, seqNo: nat, change: Change, env: Env)
    requires Coherent(c) && !c.lost && !c.disposed
    ensures Coherent(Evented(c, seqNo, change, env))
    ensures Deliveries(Evented(c, seqNo, change, env).trace) == Deliveries(c.trace)
      || (c.current.Some? && seqNo == c.current.value.seqNo + 1
          && Deliveries(Evented(c, seqNo, change, env).trace)
             == Deliveries(c.trace) + [Changed(c.current.value.(seqNo := seqNo), change)])
  {
    if c.current.None? || !c.phase.Ready? || ApplyStateEvent(c.current.value, seqNo, change).Gap? {
      RequestedCoherent(c, env);
    } else {
      var s := Changed(c.current.value.(seqNo := seqNo), change);
      assert s.seqNo == seqNo by { ChangeKeepsSeq(c.current.value.(seqNo := seqNo), change); }
      DeliverCoherent(c, s);
      CalledCoherent(c.(current := Some(s)), Deliver(s), env);
    }
  }

  lemma ChangeKeepsSeq(s: Normalized, change: Change)
    ensures Changed(s, change).seqNo == s.seqNo
  {
  }

  lemma ReceivedCoherent(c: Conn, frame: Frame, env: Env)
    requires Coherent(c)
    ensures Coherent(Received(c, frame, env))
  {
    hide Coherent, Adopted, Evented, Failing, Called;
    if !c.disposed && !c.lost {
      match frame
      case Malformed => FailingCoherent(c, env);
      case SnapshotFrame(s) => if !Stale(c, s) { AdoptedCoherent(c, s, env); }
      case EventFrame(seqNo, change) => EventedCoherent(c, seqNo, change, env);
      case AcceptedFrame(id) =>
        if id == "" { FailingCoherent(c, env); } else { SayCoherent(c, AcceptedBy(id), env); }
      case RefusedFrame(reason) => SayCoherent(c, RefusedWith(reason), env);
    }
  }

  lemma SayCoherent(c: Conn, e: Effect, env: Env)
    requires Coherent(c) && !c.lost && !e.Deliver? && !e.Request?
    ensures Coherent(Called(c, e, env)) && Deliveries(Called(c, e, env).trace) == Deliveries(c.trace)
  {
    TellCoherent(c, e);
    CalledCoherent(c, e, env);
  }

  lemma GrowFromLog(start: World, log: seq<Change>, d: seq<Normalized>, s: Normalized)
    requires FromLog(start, log, d) && s.seqNo <= |log| && Shows(s, WorldAt(start, log, s.seqNo))
    ensures FromLog(start, log, d + [s])
  {
    hide Shows, WorldAt;
  }

  lemma SnapshotFromLog(c: Conn, s: Snapshot, env: Env, start: World, log: seq<Change>)
    requires Coherent(c) && !c.disposed && !c.lost && !Stale(c, s) && FromLog(start, log, Deliveries(c.trace))
    requires s.seqNo <= |log| && Describes(s, WorldAt(start, log, s.seqNo))
    ensures FromLog(start, log, Deliveries(Adopted(c, s, env).trace))
  {
    hide Coherent, Adopted, FromLog, Shows, Describes, Deliveries, WorldAt;
    AdoptedCoherent(c, s, env);
    NormalizeShows(s, WorldAt(start, log, s.seqNo));
    GrowFromLog(start, log, Deliveries(c.trace), Normalize(s));
  }

  lemma EventFromLog(c: Conn, seqNo: nat, env: Env, start: World, log: seq<Change>)
    requires Coherent(c) && !c.disposed && !c.lost && FromLog(start, log, Deliveries(c.trace)) && 0 < seqNo <= |log|
    ensures FromLog(start, log, Deliveries(Evented(c, seqNo, log[seqNo - 1], env).trace))
  {
    hide Evented, Deliveries, WorldAt, Shows, Changed;
    EventedCoherent(c, seqNo, log[seqNo - 1], env);
    if c.current.Some? && seqNo == c.current.value.seqNo + 1 {
      var d := Deliveries(c.trace);
      assert d[|d| - 1] == c.current.value;
      NextShows(c.current.value, log[seqNo - 1], start, log);
      GrowFromLog(start, log, d, Changed(c.current.value.(seqNo := seqNo), log[seqNo - 1]));
    }
  }

  /** Every delivery that a frame of the log causes shows the host at its own
      sequence number. */
  lemma ReceivedFromLog(c: Conn, frame: Frame, env: Env, start: World, log: seq<Change>)
    requires Coherent(c) && FromLog(start, log, Deliveries(c.trace)) && FrameFrom(start, log, frame)
    ensures FromLog(start, log, Deliveries(Received(c, frame, env).trace))
  {
    hide Coherent, Adopted, Evented, Failing, Called, FromLog, Describes, Deliveries, WorldAt;
    if !c.disposed && !c.lost {
      match frame
      case Malformed => FailingCoherent(c, env);
      case SnapshotFrame(s) => if !Stale(c, s) { SnapshotFromLog(c, s, env, start, log); }
      case EventFrame(seqNo, change) => EventFromLog(c, seqNo, env, start, log);
      case AcceptedFrame(id) =>
        if id == "" { FailingCoherent(c, env); } else { SayCoherent(c, AcceptedBy(id), env); }
      case RefusedFrame(reason) => SayCoherent(c, RefusedWith(reason), env);
    }
  }

  lemma NextShows(s: Normalized, change: Change, start: World, log: seq<Change>)
    requires s.seqNo < |log| && Shows(s, WorldAt(start, log, s.seqNo)) && change == log[s.seqNo]
    ensures Shows(Changed(s.(seqNo := s.seqNo + 1), change), WorldAt(start, log, s.seqNo + 1))
    ensures Changed(s.(seqNo := s.seqNo + 1), change).seqNo == s.seqNo + 1
  {
    ChangedShows(s.(seqNo := s.seqNo + 1), WorldAt(start, log, s.seqNo), change);
  }

  lemma QuietCoherent(c: Conn, step: Step, env: Env)
    requires Coherent(c) && !step.Message?
    ensures Coherent(Next(c, step, env)) && Deliveries(Next(c, step, env).trace) == Deliveries(c.trace)
  {
    hide Deliveries, Outstanding, Ascending, Last;
    match step
    case Open => if !c.disposed { Told(c.(phase := AwaitingSnapshot), PhaseIs(AwaitingSnapshot)); }
    case SocketError =>
      if !c.disposed {
        TellCoherent(c, Problem);
        DroppedCoherent(Tell(c, Problem));
      }
    case Close => DroppedCoherent(c);
    case Timeout =>
      if c.timer {
        var d := c.(timer := false);
        Told(d, Problem);
        DroppedCoherent(Tell(d, Problem));
      }
    case Send(out) => DroppedCoherent(c);
    case Dispose =>
    case Message(_) =>
  }

  ghost predicate TurnsFrom(start: World, log: seq<Change>, turns: seq<Turn>) {
    forall i :: 0 <= i < |turns| && turns[i].step.Message? ==> FrameFrom(start, log, turns[i].step.frame)
  }

  lemma FreshCoherent()
    ensures Coherent(Fresh) && Deliveries(Fresh.trace) == []
  {
    assert Fresh.trace[..0] == [];
  }

  lemma NextCoherent(c: Conn, step: Step, env: Env)
    requires Coherent(c)
    ensures Coherent(Next(c, step, env))
  {
    hide Coherent, Received;
    if step.Message? { ReceivedCoherent(c, step.frame, env); } else { QuietCoherent(c, step, env); }
  }

  /** In every run: ready means a current state and no outstanding request, at
      most one request is outstanding and a timer guards it, the owner's latest
      state is the current one, and numbers do not fall within a string run. */
  lemma {:induction false} RunCoherent(turns: seq<Turn>)
    ensures Coherent(After(Fresh, turns))
  {
    hide Coherent, Next;
    if turns == [] {
      FreshCoherent();
    } else {
      var last := |turns| - 1;
      RunCoherent(turns[..last]);
      NextCoherent(After(Fresh, turns[..last]), turns[last].step, turns[last].env);
    }
  }

  /** However frames of one log are lost, repeated or reordered, every delivered
      state is the host's state at that state's own sequence number. */
  lemma {:induction false} RunFromLog(turns: seq<Turn>, start: World, log: seq<Change>)
    requires TurnsFrom(start, log, turns)
    ensures FromLog(start, log, Deliveries(After(Fresh, turns).trace))
  {
    hide Coherent, Next;
    if turns == [] {
      FreshCoherent();
    } else {
      var last := |turns| - 1;
      var turn := turns[last];
      var c := After(Fresh, turns[..last]);
      RunFromLog(turns[..last], start, log);
      RunCoherent(turns[..last]);
      StepFromLog(c, turn.step, turn.env, start, log);
    }
  }

  lemma StepFromLog(c: Conn, step: Step, env: Env, start: World, log: seq<Change>)
    requires Coherent(c) && FromLog(start, log, Deliveries(c.trace))
    requires step.Message? ==> FrameFrom(start, log, step.frame)
    ensures FromLog(start, log, Deliveries(Next(c, step, env).trace))
  {
    hide Coherent, FromLog, FrameFrom, Received;
    if step.Message? { ReceivedFromLog(c, step.frame, env, start, log); } else { QuietCoherent(c, step, env); }
  }

  // ----------------------------------------------- what the invariant gives

  /** Over a stretch of deliveries that all name one run, numbers ascend. */
  lemma {:induction false} NeverFalls(d: seq<Normalized>, i: nat, j: nat, run: string)
    requires Ascending(d) && i <= j < |d| && forall k :: i <= k <= j ==> d[k].hostRun == Some(run)
    ensures d[i].seqNo <= d[j].seqNo
    decreases j - i
  {
    if i < j { NeverFalls(d, i, j - 1, run); }
  }

  /** A snapshot older than the current state takes effect exactly when its wire
      run is not the run already known. */
  lemma RegressionExact(c: Conn, s: Snapshot, env: Env)
    requires Coherent(c) && !c.lost && !c.disposed && c.current.Some? && s.seqNo < c.current.value.seqNo
    ensures Received(c, SnapshotFrame(s), env) == c <==> SameRun(s.hostRun, c.current.value.hostRun)
  {
    if !Stale(c, s) { AdoptedCoherent(c, s, env); }
  }

  /** A null run is never the run already known, so such a snapshot sets the
      replica back although the normalised run stays the same. */
  lemma NullRunRegresses(c: Conn, s: Snapshot, env: Env)
    requires Coherent(c) && !c.lost && !c.disposed && c.current.Some? && s.seqNo < c.current.value.seqNo
    requires c.current.value.hostRun.None? && s.hostRun.Null?
    ensures var d := Deliveries(Received(c, SnapshotFrame(s), env).trace);
      d == Deliveries(c.trace) + [Normalize(s)] && Normalize(s).hostRun == c.current.value.hostRun
      && Normalize(s).seqNo < c.current.value.seqNo
  {
    AdoptedCoherent(c, s, env);
  }

  /** An event that cannot be applied is answered: a request is outstanding, or
      the connection is given up. */
  lemma GapAnswered(c: Conn, seqNo: nat, change: Change, env: Env)
    requires Coherent(c) && !c.lost && !c.disposed
    requires c.current.None? || !c.phase.Ready? || seqNo != c.current.value.seqNo + 1
    ensures var d := Received(c, EventFrame(seqNo, change), env);
      (d.requested || d.lost) && Deliveries(d.trace) == Deliveries(c.trace) && d.current == c.current && !d.phase.Ready?
  {
    RequestedCoherent(c, env);
    var d := Received(c, EventFrame(seqNo, change), env);
    assert d == Requested(c, env);
  }

  predicate Ended(c: Conn) { c.disposed || c.lost }

  /** What may still be told after the end: phases and problems. */
  predicate Idle(e: Effect) { e.PhaseIs? || e.Problem? }

  /** Nothing has come of it: the replica stands, and only idle effects follow. */
  ghost predicate StoodStill(c: Conn, d: Conn) {
    && d.current == c.current
    && c.trace <= d.trace && (forall i :: |c.trace| <= i < |d.trace| ==> Idle(d.trace[i]))
    && (c.disposed ==> d == c)
  }

  lemma EndedStep(c: Conn, step: Step, env: Env)
    requires Coherent(c) && Ended(c)
    ensures Ended(Next(c, step, env)) && StoodStill(c, Next(c, step, env))
  {
  }

  lemma StillStanding(c: Conn, d: Conn, e: Conn)
    requires StoodStill(c, d) && StoodStill(d, e)
    ensures StoodStill(c, e)
  {
    forall i | |c.trace| <= i < |e.trace| ensures Idle(e.trace[i]) {
      if i < |d.trace| { assert e.trace[i] == d.trace[i]; }
    }
  }

  /** After loss or disposal no continuation delivers anything, requests anything or
      lets a command leave, and the replica stays what it was; after disposal nothing
      happens at all. */
  lemma {:induction false} EndIsFinal(c: Conn, turns: seq<Turn>)
    requires Coherent(c) && Ended(c)
    ensures var d := After(c, turns); Coherent(d) && Ended(d) && StoodStill(c, d)
    ensures forall out, env :: !MaySend(After(c, turns), out, env)
  {
    if turns != [] {
      hide Coherent, Next, StoodStill;
      var init, last := turns[..|turns| - 1], turns[|turns| - 1];
      EndIsFinal(c, init);
      var d := After(c, init);
      EndedStep(d, last.step, last.env);
      NextCoherent(d, last.step, last.env);
      StillStanding(c, d, Next(d, last.step, last.env));
    }
  }

  /** The host's run, at the sequence number of the last delivery. */
  ghost predicate LastKnownRun(c: Conn, start: World, log: seq<Change>, run: string) {
    var last := Last(Deliveries(c.trace));
    last.Some? && last.value.seqNo <= |log| && WorldAt(start, log, last.value.seqNo).hostRun == Some(run)
  }

  lemma SentOnRun(c: Conn, start: World, log: seq<Change>, id: string, command: Command, env: Env)
    requires Coherent(c) && FromLog(start, log, Deliveries(c.trace)) && MaySend(c, Hosted(id, command), env)
    ensures Outstanding(c.trace) == 0 && LastKnownRun(c, start, log, command.target.run)
  {
    hide Deliveries, Outstanding, WorldAt, Holds, LatestReceipts, Ascending, IsOperationId, IsHostCommand;
    var d := Deliveries(c.trace);
    assert Shows(d[|d| - 1], WorldAt(start, log, d[|d| - 1].seqNo));
  }

  /** In every run over frames of one log, a host command leaves only while no
      request is outstanding, and its run is the one the host had at the sequence
      number of the last delivery. */
  lemma SentToItsRun(turns: seq<Turn>, start: World, log: seq<Change>, id: string, command: Command, env: Env)
    requires TurnsFrom(start, log, turns) && MaySend(After(Fresh, turns), Hosted(id, command), env)
    ensures Outstanding(After(Fresh, turns).trace) == 0
    ensures LastKnownRun(After(Fresh, turns), start, log, command.target.run)
  {
    hide Deliveries, Outstanding, FromLog, Coherent, MaySend, LastKnownRun, Next;
    var c := After(Fresh, turns);
    RunCoherent(turns);
    RunFromLog(turns, start, log);
    SentOnRun(c, start, log, id, command, env);
  }
}
