/** The closure state of `connectHarness` and the listeners that change it. */
module HarnessConnection {
  import opened JsMap
  import opened OperationId
  import opened HostCommands
  import opened Replica
  import opened Connection

  class Harness {
    var current: Option<Normalized>
    var phase: Phase
    var requestedSnapshot: bool
    var disposed: bool
    var lost: bool
    var resyncTimer: bool
    var trace: seq<Effect>

    ghost function Value(): Conn
      reads this
    {
      Conn(current, phase, requestedSnapshot, disposed, lost, resyncTimer, trace)
    }

    ghost predicate Valid()
      reads this
    {
      Coherent(Value())
    }

    constructor ()
      ensures Valid() && Value() == Fresh
    {
      current, phase, requestedSnapshot, disposed := None, Connecting, false, false;
      lost, resyncTimer, trace := false, false, [PhaseIs(Connecting)];
      new;
      FreshCoherent();
    }

    method Emit(e: Effect)
      modifies `trace
      ensures Value() == Tell(old(Value()), e)
    {
      trace := trace + [e];
    }

    method Transition(next: Phase)
      modifies `phase, `trace
      ensures Value() == Moved(old(Value()), next)
    {
      phase := next;
      Emit(PhaseIs(next));
    }

    method Disconnect()
      modifies `lost, `resyncTimer, `phase, `trace
      ensures Value() == Dropped(old(Value()))
    {
      if disposed || lost { return; }
      lost := true;
      resyncTimer := false;
      Transition(Disconnected);
      Emit(LostNow);
    }

    method RequestSnapshot(env: Env)
      modifies `lost, `resyncTimer, `phase, `trace, `requestedSnapshot
      ensures Value() == Requested(old(Value()), env)
    {
      if disposed || requestedSnapshot { return; }
      Transition(if current.Some? then Resync else AwaitingSnapshot);
      if !env.open || env.sendThrows {
        Disconnect();
      } else {
        Emit(Request);
        requestedSnapshot := true;
        resyncTimer := true;
      }
    }

    /** The `catch` of the message listener. */
    method Fail(env: Env)
      modifies `lost, `resyncTimer, `phase, `trace, `requestedSnapshot
      ensures Value() == Failing(old(Value()), env)
    {
      Emit(Problem);
      RequestSnapshot(env);
    }

    method Call(e: Effect, env: Env)
      modifies `lost, `resyncTimer, `phase, `trace, `requestedSnapshot
      ensures Value() == Called(old(Value()), e, env)
    {
      Emit(e);
      if env.callbackThrows { Fail(env); }
    }

    method OnSnapshot(s: Snapshot, env: Env)
      modifies this
      ensures Value() == if Stale(old(Value()), s) then old(Value()) else Adopted(old(Value()), s, env)
    {
      if current.Some? && SameRun(s.hostRun, current.value.hostRun) && s.seqNo < current.value.seqNo { return; }
      current := Some(Normalize(s));
      requestedSnapshot := false;
      resyncTimer := false;
      Transition(Ready);
      Call(Deliver(current.value), env);
    }

    method OnEvent(seqNo: nat, change: Change, env: Env)
      modifies this
      ensures Value() == Evented(old(Value()), seqNo, change, env)
    {
      hide Changed;
      if current.None? || !phase.Ready? {
        RequestSnapshot(env);
        return;
      }
      var result := ApplyStateEvent(current.value, seqNo, change);
      if result.Gap? {
        RequestSnapshot(env);
      } else {
        current := Some(result.state);
        Call(Deliver(result.state), env);
      }
    }

    method OnMessage(frame: Frame, env: Env)
      requires Valid()
      modifies this
      ensures Valid() && Value() == Received(old(Value()), frame, env)
    {
      ReceivedCoherent(Value(), frame, env);
      hide Coherent, Adopted, Evented, Failing, Called;
      if disposed || lost { return; }
      match frame
      case Malformed => Fail(env);
      case SnapshotFrame(s) => OnSnapshot(s, env);
      case EventFrame(seqNo, change) => OnEvent(seqNo, change, env);
      case AcceptedFrame(id) => if id == "" { Fail(env); } else { Call(AcceptedBy(id), env); }
      case RefusedFrame(reason) => Call(RefusedWith(reason), env);
    }

    method OnOpen()
      requires Valid()
      modifies this
      ensures Valid() && Value() == Opened(old(Value()))
    {
      NextCoherent(Value(), Open, Env(true, false, false));
      if !disposed { Transition(AwaitingSnapshot); }
    }

    method OnError()
      requires Valid()
      modifies this
      ensures Valid() && Value() == Errored(old(Value()))
    {
      NextCoherent(Value(), SocketError, Env(true, false, false));
      if disposed { return; }
      Emit(Problem);
      Disconnect();
    }

    method OnClose()
      requires Valid()
      modifies this
      ensures Valid() && Value() == Dropped(old(Value()))
    {
      NextCoherent(Value(), Close, Env(true, false, false));
      Disconnect();
    }

    /** The ten seconds are over. */
    method OnTimeout()
      requires Valid() && resyncTimer
      modifies this
      ensures Valid() && Value() == TimedOut(old(Value())) && lost
    {
      NextCoherent(Value(), Timeout, Env(true, false, false));
      resyncTimer := false;
      if disposed || lost || !requestedSnapshot { return; }
      Emit(Problem);
      Disconnect();
    }

    method Send(out: Outgoing, env: Env) returns (seen: SendObservation)
      requires Valid()
      modifies this
      ensures Valid() && Value() == Sending(old(Value()), out, env)
      ensures seen == if !MaySend(old(Value()), out, env) then NotSent else if env.sendThrows then Unknown else Sent
    {
      NextCoherent(Value(), Step.Send(out), env);
      hide Coherent;
      if disposed || lost || !phase.Ready? || !env.open { return NotSent; }
      match out {
        case Hosted(id, command) =>
          if !IsOperationId(id) || !IsHostCommand(command) || current.None?
             || current.value.hostRun != Some(command.target.run) { return NotSent; }
        case Legacy(_) =>
          if current.Some? && current.value.hostRun.Some? { return NotSent; }
      }
      if env.sendThrows {
        Disconnect();
        return Unknown;
      }
      return Sent;
    }

    method Dispose()
      requires Valid()
      modifies this
      ensures Valid() && Value() == Disposed(old(Value()))
    {
      NextCoherent(Value(), Step.Dispose, Env(true, false, false));
      disposed := true;
      resyncTimer := false;
    }
  }
}
