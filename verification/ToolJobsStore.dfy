/** What the tool-job ledger leaves in storage: each change is followed by a copy
    of the records, taken under the lock, and a write of that copy, made outside it
    (crates/harness-demo/src/async_demo.rs). */
module ToolJobsStore {
  import opened JsMap
  import opened ToolJobs

  datatype Op =
    | Begin(call: CallId, about: About)
    | Finish(call: CallId, output: Output, now: Option<int>)
    | Stop(call: CallId, now: Option<int>)
    | Observe(calls: set<CallId>)
    | Recover

  function Apply(rs: Records, op: Op): Records {
    match op
    case Begin(call, about) => Started(rs, call, about)
    case Finish(call, output, now) => SettledWith(rs, call, output, now)
    case Stop(call, now) => CancelledAt(rs, call, now)
    case Observe(calls) => Delivered(rs, calls)
    case Recover => InterruptedAll(rs)
  }

  /** The flag that decides whether to save. */
  predicate Changes(rs: Records, op: Op) {
    match op
    case Begin(call, _) => call !in rs
    case Finish(call, _, _) => call in rs && rs[call].state.Running?
    case Stop(call, _) => call in rs && rs[call].state.Running?
    case Observe(calls) => AnyToDeliver(rs, calls)
    case Recover => AnyRunning(rs)
  }

  // ----------------------------------------------------- records only advance

  /** Nothing happened, or it ended, or it was delivered after its end. */
  predicate JobOnward(a: Job, b: Job) {
    || b == a
    || (a.state.Running? && !b.state.Running? && b.about == a.about && (a.delivered ==> b.delivered))
    || (!a.state.Running? && !a.delivered && b == a.(delivered := true))
  }

  ghost predicate Onward(a: Records, b: Records) { forall k :: k in a ==> k in b && JobOnward(a[k], b[k]) }

  lemma OnwardChain(a: Records, b: Records, c: Records)
    requires Onward(a, b) && Onward(b, c)
    ensures Onward(a, c)
  {
    forall k | k in a ensures k in c && JobOnward(a[k], c[k]) {
      assert JobOnward(a[k], b[k]) && JobOnward(b[k], c[k]);
    }
  }

  lemma OnwardBack(a: Records, b: Records)
    requires Onward(a, b) && Onward(b, a)
    ensures a == b
  {
    forall k | k in a ensures k in b && a[k] == b[k] { assert JobOnward(a[k], b[k]) && JobOnward(b[k], a[k]); }
    forall k | k in b ensures k in a {}
  }

  /** The flag is exact, and a change is a step onward. */
  lemma ApplyOnward(rs: Records, op: Op)
    ensures Onward(rs, Apply(rs, op)) && (Changes(rs, op) <==> Apply(rs, op) != rs)
  {
    var next := Apply(rs, op);
    if Changes(rs, op) {
      match op
      case Observe(calls) =>
        var k :| k in rs && ToDeliver(rs[k], calls);
        assert next[k].delivered;
      case Recover =>
        var k :| k in rs && rs[k].state.Running?;
        assert next[k].state.Interrupted?;
      case Begin(call, _) => assert call in next;
      case Finish(call, _, _) => assert next[call].state.Settled?;
      case Stop(call, _) => assert next[call].state.Cancelled?;
    } else {
      assert next == rs;
    }
  }

  // -------------------------------------------------------- the state machine

  /** Records, and how many changes made them. */
  datatype Held = Held(version: nat, records: Records)

  /** `savers` have made a change; each has its copy of the records, or not yet. */
  datatype Disk = Disk(now: Held, stored: Held, savers: map<nat, Option<Held>>)

  datatype Move = Change(saver: nat, op: Op) | Copy(saver: nat) | Write(saver: nat, ok: bool)

  predicate Enabled(d: Disk, move: Move) {
    match move
    case Change(o, _) => o !in d.savers
    case Copy(o) => o in d.savers && d.savers[o].None?
    case Write(o, _) => o in d.savers && d.savers[o].Some?
  }

  function Moved(d: Disk, move: Move): Disk
    requires Enabled(d, move)
  {
    match move
    case Change(o, op) =>
      if Changes(d.now.records, op)
      then d.(now := Held(d.now.version + 1, Apply(d.now.records, op)), savers := d.savers[o := None]) else d
    case Copy(o) => d.(savers := d.savers[o := Some(d.now)])
    case Write(o, ok) =>
      d.(savers := d.savers - {o}, stored := if ok then d.savers[o].value else d.stored)
  }

  predicate Possible(d: Disk, moves: seq<Move>)
    decreases |moves|, 0
  {
    moves == [] ||
    (Possible(d, moves[..|moves| - 1]) && Enabled(After(d, moves[..|moves| - 1]), moves[|moves| - 1]))
  }

  function After(d: Disk, moves: seq<Move>): Disk
    requires Possible(d, moves)
    decreases |moves|, 1
  {
    if moves == [] then d else Moved(After(d, moves[..|moves| - 1]), moves[|moves| - 1])
  }

  function Reopened(rs: Records): Disk { Disk(Held(0, rs), Held(0, rs), map[]) }

  // ------------------------------------------------------------ the invariant

  /** Versions and records go together. */
  ghost predicate InLine(a: Held, b: Held) {
    && (a.version <= b.version ==> Onward(a.records, b.records))
    && (b.version <= a.version ==> Onward(b.records, a.records))
    && (a.version == b.version <==> a.records == b.records)
  }

  ghost predicate HeldBy(d: Disk, h: Held) { exists o :: o in d.savers && d.savers[o] == Some(h) }

  /** Storage and every copy are earlier states of the ledger, in one line. */
  ghost predicate Behind(d: Disk) {
    && InLine(d.stored, d.now) && d.stored.version <= d.now.version
    && (forall h :: HeldBy(d, h) ==> InLine(h, d.now) && h.version <= d.now.version && InLine(h, d.stored))
    && (forall g, h :: HeldBy(d, g) && HeldBy(d, h) ==> InLine(g, h))
  }

  lemma InLineNext(h: Held, now: Held, next: Held)
    requires InLine(h, now) && h.version <= now.version
    requires next.version == now.version + 1 && Onward(now.records, next.records) && next.records != now.records
    ensures InLine(h, next)
  {
    OnwardChain(h.records, now.records, next.records);
    if h.records == next.records { OnwardBack(now.records, next.records); }
  }

  lemma InLineSelf(h: Held)
    ensures InLine(h, h)
  {
  }

  lemma HeldAfter(d: Disk, move: Move, h: Held)
    requires Enabled(d, move) && HeldBy(Moved(d, move), h)
    ensures HeldBy(d, h) || (move.Copy? && h == d.now)
  {
    var e := Moved(d, move);
    var o :| o in e.savers && e.savers[o] == Some(h);
    assert !HeldBy(d, h) ==> move.Copy? && o == move.saver;
  }

  lemma MovedBehind(d: Disk, move: Move)
    requires Behind(d) && Enabled(d, move)
    ensures Behind(Moved(d, move))
  {
    hide InLine, HeldBy, Changes, Apply;
    var e := Moved(d, move);
    forall h | HeldBy(e, h) ensures HeldBy(d, h) || (move.Copy? && h == d.now) { HeldAfter(d, move, h); }
    InLineSelf(d.now);
    match move
    case Change(o, op) =>
      ApplyOnward(d.now.records, op);
      if e != d {
        InLineNext(d.stored, d.now, e.now);
        forall h | HeldBy(e, h) ensures InLine(h, e.now) { InLineNext(h, d.now, e.now); }
      }
    case Copy(o) =>
      InLineBack(d.stored, d.now);
      forall h | HeldBy(e, h) ensures InLine(d.now, h) { InLineBack(h, d.now); }
    case Write(o, ok) =>
      if ok {
        assert HeldBy(d, e.stored) by { HeldNow(d, o); }
      }
  }

  lemma HeldNow(d: Disk, o: nat)
    requires o in d.savers && d.savers[o].Some?
    ensures HeldBy(d, d.savers[o].value)
  {
  }

  lemma InLineBack(a: Held, b: Held)
    requires InLine(a, b)
    ensures InLine(b, a)
  {
  }

  /** In every run, with any number of threads and failing saves, storage holds an
      earlier state of the ledger; it holds the latest exactly when no change has
      been made since the copy last written. */
  lemma {:induction false} RunBehind(rs: Records, moves: seq<Move>)
    requires Possible(Reopened(rs), moves)
    ensures var d := After(Reopened(rs), moves);
      Behind(d) && Onward(d.stored.records, d.now.records)
      && (d.stored.records == d.now.records <==> d.stored.version == d.now.version)
  {
    if moves != [] {
      hide Moved, Onward;
      RunBehind(rs, moves[..|moves| - 1]);
      MovedBehind(After(Reopened(rs), moves[..|moves| - 1]), moves[|moves| - 1]);
    }
  }

  // ------------------------------------------------- when storage goes back

  /** A write that succeeds, of a copy older than what is stored. */
  predicate Overtaken(d: Disk, move: Move) {
    && move.Write? && move.ok && move.saver in d.savers && d.savers[move.saver].Some?
    && d.savers[move.saver].value.version < d.stored.version
  }

  /** Storage goes back exactly by such a write. */
  lemma BackExact(d: Disk, move: Move)
    requires Behind(d) && Enabled(d, move)
    ensures !Onward(d.stored.records, Moved(d, move).stored.records) <==> Overtaken(d, move)
  {
    if move.Write? && move.ok {
      var h := d.savers[move.saver].value;
      HeldNow(d, move.saver);
      assert InLine(h, d.stored);
      if h.version < d.stored.version && Onward(d.stored.records, h.records) {
        OnwardBack(h.records, d.stored.records);
      }
    }
  }

  ghost predicate NoneOvertaken(d: Disk, moves: seq<Move>)
    requires Possible(d, moves)
  {
    moves == [] ||
    (NoneOvertaken(d, moves[..|moves| - 1]) && !Overtaken(After(d, moves[..|moves| - 1]), moves[|moves| - 1]))
  }

  ghost predicate NeverBack(d: Disk, moves: seq<Move>)
    requires Possible(d, moves)
  {
    moves == [] ||
    (NeverBack(d, moves[..|moves| - 1]) &&
     Onward(After(d, moves[..|moves| - 1]).stored.records, After(d, moves).stored.records))
  }

  /** Over a run storage never goes back exactly when no write is overtaken. */
  lemma {:induction false} NeverBackExact(rs: Records, moves: seq<Move>)
    requires Possible(Reopened(rs), moves)
    ensures NeverBack(Reopened(rs), moves) <==> NoneOvertaken(Reopened(rs), moves)
  {
    if moves != [] {
      var init, last := moves[..|moves| - 1], moves[|moves| - 1];
      NeverBackExact(rs, init);
      RunBehind(rs, init);
      hide Onward, Overtaken, Behind, Moved;
      BackExact(After(Reopened(rs), init), last);
    }
  }

  // --------------------------------------------------- when it is the latest

  predicate SavesSucceed(moves: seq<Move>) { forall i :: 0 <= i < |moves| && moves[i].Write? ==> moves[i].ok }

  /** What saves that succeed, none overtaken, keep: some saver is still to write
      the latest, or it is stored. */
  ghost predicate OnItsWay(d: Disk) {
    || d.stored.version == d.now.version
    || exists o :: o in d.savers && (d.savers[o].None? || d.savers[o].value.version == d.now.version)
  }

  lemma StaysOnItsWay(d: Disk, move: Move)
    requires Behind(d) && OnItsWay(d) && Enabled(d, move) && !Overtaken(d, move) && (move.Write? ==> move.ok)
    ensures OnItsWay(Moved(d, move))
  {
    var e := Moved(d, move);
    match move
    case Change(o, op) => if e != d { assert o in e.savers && e.savers[o].None?; }
    case Copy(o) => assert e.savers[o] == Some(e.now);
    case Write(o, _) =>
      HeldNow(d, o);
      if d.stored.version != d.now.version && e.stored.version != e.now.version {
        var w :| w in d.savers && (d.savers[w].None? || d.savers[w].value.version == d.now.version);
        assert w in e.savers && e.savers[w] == d.savers[w];
      }
  }

  /** If saves succeed and none is overtaken, then whenever nobody is still to write
      the latest records are stored. */
  lemma {:induction false} LatestStored(rs: Records, moves: seq<Move>)
    requires Possible(Reopened(rs), moves) && SavesSucceed(moves) && NoneOvertaken(Reopened(rs), moves)
    ensures var d := After(Reopened(rs), moves);
      OnItsWay(d) && (d.savers == map[] ==> d.stored == d.now)
  {
    RunBehind(rs, moves);
    if moves != [] {
      var init, last := moves[..|moves| - 1], moves[|moves| - 1];
      assert forall i :: 0 <= i < |init| ==> init[i] == moves[i];
      LatestStored(rs, init);
      RunBehind(rs, init);
      StaysOnItsWay(After(Reopened(rs), init), last);
    }
  }

  // ------------------------------------------------------ an older copy wins

  /** Two calls start one after the other; the first copy is written last. */
  function Crossing(a: CallId, b: CallId, about: About): seq<Move> {
    [Change(1, Begin(a, about.(call := a)))] + [Copy(1)] + [Change(2, Begin(b, about.(call := b)))] + [Copy(2)]
    + [Write(2, true)] + [Write(1, true)]
  }

  /** Every save succeeds, nobody is still to write, and storage lacks a call that
      the ledger holds and had stored. */
  lemma OlderCopyWins(a: CallId, b: CallId, about: About)
    requires a != b
    ensures SavesSucceed(Crossing(a, b, about)) && Possible(Reopened(map[]), Crossing(a, b, about))
    ensures var d := After(Reopened(map[]), Crossing(a, b, about));
      d.savers == map[] && b in d.now.records && b !in d.stored.records
  {
    var moves, d0 := Crossing(a, b, about), Reopened(map[]);
    var d1 := Moved(d0, moves[0]);
    var d2 := Moved(d1, moves[1]);
    var d3 := Moved(d2, moves[2]);
    var d4 := Moved(d3, moves[3]);
    var d5 := Moved(d4, moves[4]);
    assert b !in Moved(d5, moves[5]).stored.records;
    assert moves[..0] == [] && moves[..6] == moves;
    hide Moved;
    RunOne(d0, moves, 0, d0);
    RunOne(d0, moves, 1, d1);
    RunOne(d0, moves, 2, d2);
    RunOne(d0, moves, 3, d3);
    RunOne(d0, moves, 4, d4);
    RunOne(d0, moves, 5, d5);
  }

  lemma RunOne(d: Disk, moves: seq<Move>, i: nat, now: Disk)
    requires i < |moves| && Possible(d, moves[..i]) && now == After(d, moves[..i]) && Enabled(now, moves[i])
    ensures Possible(d, moves[..i + 1]) && After(d, moves[..i + 1]) == Moved(now, moves[i])
  {
    assert moves[..i + 1][..i] == moves[..i];
  }
}
