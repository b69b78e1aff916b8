/**
 * The timer process: `ProcessState`, `ProcessState::is_ready` and the loop of
 * `async_timer` in src-tauri/src/main.rs.
 *
 * One iteration of the loop is the function `Step`; `Run` iterates it and the
 * method `RunTimer` is the loop itself, proved to compute `Run`. The clock
 * `now` counts seconds; the one-second `sleep` of a waiting phase advances it
 * by one. The command channel's blocking `recv` is fed from a sequence of
 * arrivals, each a command and the second it is sent; `send` appends to the
 * returned sequence of events.
 */
module Timer {
  import opened Util
  import opened Types

  /** Length of a work phase, in seconds (25 minutes). */
  const WorkSecs: nat := 25 * 60
  /** Length of a break, in seconds (5 minutes). */
  const BreakSecs: nat := 5 * 60

  /** The private state of the timer process; `since` is the second the phase was entered. */
  datatype ProcessState = Idle | Running(since: nat) | Paused(since: nat)

  /** The phase a process state stands for. */
  function Phase(s: ProcessState): (p: TimerState)
    ensures p.Idle? <==> s.Idle?
    ensures p.Running? <==> s.Running?
    ensures p.Paused? <==> s.Paused?
  {
    match s
    case Idle => TimerState.Idle
    case Running(_) => TimerState.Running
    case Paused(_) => TimerState.Paused
  }

  /** How long the current phase lasts. */
  function Threshold(s: ProcessState): (d: nat)
    ensures s.Idle? <==> d == 0
  {
    match s
    case Idle => 0
    case Running(_) => WorkSecs
    case Paused(_) => BreakSecs
  }

  /** `Instant::elapsed` in whole seconds; an instant in the future reads as zero elapsed. */
  function Elapsed(since: nat, now: nat): (d: nat)
    ensures since <= now ==> since + d == now
    ensures now <= since ==> d == 0
  {
    if now >= since then now - since else 0
  }

  /** `ProcessState::is_ready`: Idle is always ready; a phase is ready once its threshold has passed. */
  function IsReady(s: ProcessState, now: nat): (r: bool)
    ensures s.Idle? ==> r
    ensures s.Running? ==> (r <==> now >= s.since + 1500)
    ensures s.Paused? ==> (r <==> now >= s.since + 300)
  {
    match s
    case Idle => true
    case Running(since) => Elapsed(since, now) >= WorkSecs
    case Paused(since) => Elapsed(since, now) >= BreakSecs
  }

  /** What one iteration of the timer loop leaves behind: the new state, the clock, the events sent. */
  datatype StepOut = StepOut(state: ProcessState, clock: nat, sent: seq<Event>)

  /**
   * One iteration of the loop in `async_timer`. `cmd` is the command the Idle
   * branch's `recv` returns, or None while none has arrived (the iteration is
   * then still waiting and nothing changes). Readiness is tested at `now`,
   * before the one-second sleep; the tick reports the elapsed time after it.
   */
  function Step(s: ProcessState, now: nat, cmd: Option<Command>): (o: StepOut)
    ensures |o.sent| <= 1
    // the clock moves only during a waiting phase's sleep
    ensures o.clock == now || (o.clock == now + 1 && o.state == s && !s.Idle?)
    // the phase either stays or moves to its successor, announcing the new phase
    ensures Phase(o.state) == Phase(s) || Phase(o.state) == Succ(Phase(s))
    ensures Phase(o.state) != Phase(s) <==> o.sent == [EntryEvent(Succ(Phase(s)))]
    ensures Phase(o.state) != Phase(s) && !o.state.Idle? ==> o.state.since == now && o.clock == now
    // Idle: only StartTask leaves it; CancelTask and waiting change nothing and send nothing
    ensures s.Idle? ==> o == (if cmd == Some(StartTask) then StepOut(ProcessState.Running(now), now, [TaskStarted])
                              else StepOut(s, now, []))
    // Running and Paused: once ready, the next phase; before that, sleep and tick
    ensures !s.Idle? && now >= s.since + Threshold(s) ==> o.clock == now && o.sent != []
    ensures !s.Idle? && now < s.since + Threshold(s) ==>
      o == StepOut(s, now + 1, [TimerTick(Elapsed(s.since, now + 1))])
    ensures s.Running? && now >= s.since + WorkSecs ==> o == StepOut(ProcessState.Paused(now), now, [PauseStarted])
    ensures s.Paused? && now >= s.since + BreakSecs ==> o == StepOut(ProcessState.Idle, now, [Event.Idle])
  {
    match s
    case Idle =>
      if cmd == Some(StartTask) then StepOut(ProcessState.Running(now), now, [TaskStarted])
      else StepOut(s, now, [])
    case Running(since) =>
      if IsReady(s, now) then StepOut(ProcessState.Paused(now), now, [PauseStarted])
      else StepOut(s, now + 1, [TimerTick(Elapsed(since, now + 1))])
    case Paused(since) =>
      if IsReady(s, now) then StepOut(ProcessState.Idle, now, [Event.Idle])
      else StepOut(s, now + 1, [TimerTick(Elapsed(since, now + 1))])
  }

  /** In the model a tick never exceeds the length of its phase. */
  lemma StepTickBound(s: ProcessState, now: nat, cmd: Option<Command>)
    requires Started(s, now)
    ensures var o := Step(s, now, cmd);
      o.sent != [] && o.sent[0].TimerTick? ==> !s.Idle? && 1 <= o.sent[0].secs <= Threshold(s)
  {
  }

  /** A command and the second it is put on the command channel. */
  datatype Arrival = Arrival(at: nat, cmd: Command)

  /** The result of several iterations; `pending` are the arrivals not yet received. */
  datatype RunOut = RunOut(state: ProcessState, clock: nat, sent: seq<Event>, pending: seq<Arrival>)

  /** What the Idle branch's `recv` delivers: the next arrival, no earlier than `now`. */
  datatype Received = Received(cmd: Option<Command>, clock: nat, rest: seq<Arrival>)

  function Receive(s: ProcessState, now: nat, pending: seq<Arrival>): (r: Received)
    ensures r.clock >= now
    // a command is taken exactly when the timer is Idle and one has been sent
    ensures r.cmd.Some? <==> s.Idle? && pending != []
    // it is the oldest one, received no earlier than it was sent, and the others stay queued
    ensures r.cmd.Some? ==>
      r.cmd.value == pending[0].cmd && r.rest == pending[1..] &&
      r.clock >= pending[0].at && (r.clock == now || r.clock == pending[0].at)
    ensures r.cmd.None? ==> r.clock == now && r.rest == pending
  {
    if s.Idle? && |pending| > 0 then Received(Some(pending[0].cmd), Max(now, pending[0].at), pending[1..])
    else Received(None, now, pending)
  }

  /** `n` iterations of the timer loop from state `s` at clock `now`. */
  function Run(s: ProcessState, now: nat, pending: seq<Arrival>, n: nat): (o: RunOut)
    // the clock never goes back, and each iteration sends at most one event
    ensures o.clock >= now
    ensures |o.sent| <= n
    decreases n
  {
    if n == 0 then RunOut(s, now, [], pending)
    else
      var r := Receive(s, now, pending);
      var o := Step(s, r.clock, r.cmd);
      var tail := Run(o.state, o.clock, r.rest, n - 1);
      tail.(sent := o.sent + tail.sent)
  }

  /** A process state whose phase did not begin in the future. */
  predicate Started(s: ProcessState, now: nat)
  {
    !s.Idle? ==> s.since <= now
  }

  /**
   * The loop of `async_timer`, run for `iterations` iterations from its
   * initial Idle state at clock `start`.
   */
  method RunTimer(start: nat, arrivals: seq<Arrival>, iterations: nat)
    returns (state: ProcessState, clock: nat, sent: seq<Event>)
    ensures var o := Run(ProcessState.Idle, start, arrivals, iterations);
      state == o.state && clock == o.clock && sent == o.sent
    ensures clock >= start
    ensures WellTicked(sent)
    ensures Transitions(sent) == Cycle(TimerState.Idle, |Transitions(sent)|)
    ensures forall i :: 0 <= i < |Transitions(sent)| ==>
      Transitions(sent)[i] == EntryEvent(Advance(TimerState.Idle, i + 1))
    ensures Phase(state) == Advance(TimerState.Idle, |Transitions(sent)|)
    ensures Started(state, clock)
  {
    state, clock, sent := ProcessState.Idle, start, [];
    var pending := arrivals;
    var i := 0;
    while i < iterations
      invariant i <= iterations
      invariant clock >= start
      invariant var whole := Run(ProcessState.Idle, start, arrivals, iterations);
        var rest := Run(state, clock, pending, iterations - i);
        whole == rest.(sent := sent + rest.sent)
    {
      ghost var s0, clock0, pending0, sent0 := state, clock, pending, sent;
      var cmd: Option<Command> := None;
      match state {
        case Idle =>
          if |pending| > 0 {
            // the blocking recv returns the next command, no earlier than it was sent
            cmd := Some(pending[0].cmd);
            clock := Max(clock, pending[0].at);
            pending := pending[1..];
          }
          if cmd == Some(StartTask) {
            state := ProcessState.Running(clock);
            sent := sent + [TaskStarted];
          }
        case Running(since) =>
          if IsReady(state, clock) {
            state := ProcessState.Paused(clock);
            sent := sent + [PauseStarted];
          } else {
            clock := clock + 1;
            sent := sent + [TimerTick(Elapsed(since, clock))];
          }
        case Paused(since) =>
          if IsReady(state, clock) {
            state := ProcessState.Idle;
            sent := sent + [Event.Idle];
          } else {
            clock := clock + 1;
            sent := sent + [TimerTick(Elapsed(since, clock))];
          }
      }
      ghost var r := Receive(s0, clock0, pending0);
      ghost var o := Step(s0, r.clock, r.cmd);
      assert state == o.state && clock == o.clock && pending == r.rest && sent == sent0 + o.sent;
      RunUnfold(s0, clock0, pending0, iterations - i);
      i := i + 1;
      PrependTwice(sent0, o.sent, Run(state, clock, pending, iterations - i));
    }
    assert Run(state, clock, pending, 0).sent == [];
    assert sent == Run(ProcessState.Idle, start, arrivals, iterations).sent;
    RunWellTicked(ProcessState.Idle, start, arrivals, iterations);
    RunStarted(ProcessState.Idle, start, arrivals, iterations);
    RunCycles(ProcessState.Idle, start, arrivals, iterations);
    CycleEntries(TimerState.Idle, |Transitions(sent)|);
  }

  lemma RunUnfold(s: ProcessState, now: nat, pending: seq<Arrival>, n: nat)
    requires n > 0
    ensures var r := Receive(s, now, pending);
      var o := Step(s, r.clock, r.cmd);
      var tail := Run(o.state, o.clock, r.rest, n - 1);
      Run(s, now, pending, n) == tail.(sent := o.sent + tail.sent)
  {
  }

  lemma PrependTwice(a: seq<Event>, b: seq<Event>, t: RunOut)
    ensures t.(sent := b + t.sent).(sent := a + (b + t.sent)) == t.(sent := (a + b) + t.sent)
  {
    assert a + (b + t.sent) == (a + b) + t.sent;
  }

  /** The tick an event stream may next report after `prev`. */
  predicate Follows(prev: Event, tick: nat)
  {
    match prev
    case TimerTick(n) => tick == n + 1
    case TaskStarted => tick == 1
    case PauseStarted => tick == 1
    case Idle => false
  }

  /**
   * Ticks count the seconds of their phase one by one: a tick right after a
   * tick is one more, a tick right after a transition is 1, and no tick
   * follows the return to Idle.
   */
  predicate WellTicked(es: seq<Event>)
  {
    forall i :: 0 < i < |es| && es[i].TimerTick? ==> Follows(es[i - 1], es[i].secs)
  }

  lemma WellTickedCons(e: Event, es: seq<Event>)
    requires WellTicked(es)
    requires es != [] && es[0].TimerTick? ==> Follows(e, es[0].secs)
    ensures WellTicked([e] + es)
  {
    var all := [e] + es;
    forall i | 0 < i < |all| && all[i].TimerTick?
      ensures Follows(all[i - 1], all[i].secs)
    {
      assert all[i] == es[i - 1];
      if i > 1 {
        assert all[i - 1] == es[i - 2];
      }
    }
  }

  /** Iterations never start a phase in the future. */
  lemma {:induction false} RunStarted(s: ProcessState, now: nat, pending: seq<Arrival>, n: nat)
    requires Started(s, now)
    ensures Started(Run(s, now, pending, n).state, Run(s, now, pending, n).clock)
    decreases n
  {
    if n > 0 {
      var r := Receive(s, now, pending);
      var o := Step(s, r.clock, r.cmd);
      RunStarted(o.state, o.clock, r.rest, n - 1);
    }
  }

  /**
   * Every run emits a well-ticked stream, and a stream that begins with a
   * tick begins with the elapsed time of the phase it was started in, plus one.
   */
  lemma {:induction false} RunWellTicked(s: ProcessState, now: nat, pending: seq<Arrival>, n: nat)
    requires Started(s, now)
    ensures var es := Run(s, now, pending, n).sent;
      WellTicked(es) &&
      (es != [] && es[0].TimerTick? ==> !s.Idle? && es[0].secs == now + 1 - s.since)
    decreases n
  {
    if n > 0 {
      var r := Receive(s, now, pending);
      var o := Step(s, r.clock, r.cmd);
      var tail := Run(o.state, o.clock, r.rest, n - 1);
      RunUnfold(s, now, pending, n);
      RunWellTicked(o.state, o.clock, r.rest, n - 1);
      StepThenTicked(s, r.clock, r.cmd, tail.sent);
    }
  }

  /** An iteration's event, followed by a well-ticked stream that begins where the iteration left off. */
  lemma StepThenTicked(s: ProcessState, now: nat, cmd: Option<Command>, rest: seq<Event>)
    requires Started(s, now)
    requires WellTicked(rest)
    requires var o := Step(s, now, cmd);
      rest != [] && rest[0].TimerTick? ==> !o.state.Idle? && rest[0].secs == o.clock + 1 - o.state.since
    ensures var es := Step(s, now, cmd).sent + rest;
      WellTicked(es) && (es != [] && es[0].TimerTick? ==> !s.Idle? && es[0].secs == now + 1 - s.since)
  {
    var o := Step(s, now, cmd);
    if o.sent == [] {
      assert o.sent + rest == rest;
    } else {
      var e := o.sent[0];
      assert o.sent == [e];
      if rest != [] && rest[0].TimerTick? {
        assert Follows(e, rest[0].secs);
      }
      WellTickedCons(e, rest);
    }
  }

  /**
   * The transitions of every run follow the cycle Idle, Running, Paused, Idle,
   * ... from the phase it starts in, and it ends in the phase they lead to.
   */
  lemma {:induction false} RunCycles(s: ProcessState, now: nat, pending: seq<Arrival>, n: nat)
    ensures var o := Run(s, now, pending, n);
      var k := |Transitions(o.sent)|;
      Transitions(o.sent) == Cycle(Phase(s), k) && Phase(o.state) == Advance(Phase(s), k)
    decreases n
  {
    if n > 0 {
      var r := Receive(s, now, pending);
      var o := Step(s, r.clock, r.cmd);
      var tail := Run(o.state, o.clock, r.rest, n - 1);
      RunUnfold(s, now, pending, n);
      RunCycles(o.state, o.clock, r.rest, n - 1);
      StepTransitions(s, r.clock, r.cmd);
      CyclePrepend(Phase(s), Phase(o.state), o.sent, tail.sent, Phase(tail.state));
    }
  }

  /** The transitions one iteration sends: none, or the entry into the next phase. */
  lemma StepTransitions(s: ProcessState, now: nat, cmd: Option<Command>)
    ensures var o := Step(s, now, cmd);
      Transitions(o.sent) == if Phase(o.state) == Phase(s) then [] else [EntryEvent(Succ(Phase(s)))]
  {
    var o := Step(s, now, cmd);
    if o.sent != [] {
      assert o.sent[1..] == [];
    }
  }

  /** `m + n` iterations are `m` iterations followed by `n` more. */
  lemma {:induction false} RunSplit(s: ProcessState, now: nat, pending: seq<Arrival>, m: nat, n: nat)
    ensures var a := Run(s, now, pending, m);
      var b := Run(a.state, a.clock, a.pending, n);
      Run(s, now, pending, m + n) == b.(sent := a.sent + b.sent)
    decreases m
  {
    if m > 0 {
      var r := Receive(s, now, pending);
      var o := Step(s, r.clock, r.cmd);
      RunSplit(o.state, o.clock, r.rest, m - 1, n);
      SplitAfterFirst(s, now, pending, m, n);
    }
  }

  /** `RunSplit` from the state after the first iteration carries back over that iteration. */
  lemma SplitAfterFirst(s: ProcessState, now: nat, pending: seq<Arrival>, m: nat, n: nat)
    requires m > 0
    requires var r := Receive(s, now, pending);
      var o := Step(s, r.clock, r.cmd);
      var a := Run(o.state, o.clock, r.rest, m - 1);
      var b := Run(a.state, a.clock, a.pending, n);
      Run(o.state, o.clock, r.rest, (m - 1) + n) == b.(sent := a.sent + b.sent)
    ensures var a := Run(s, now, pending, m);
      var b := Run(a.state, a.clock, a.pending, n);
      Run(s, now, pending, m + n) == b.(sent := a.sent + b.sent)
  {
    var r := Receive(s, now, pending);
    var o := Step(s, r.clock, r.cmd);
    var a' := Run(o.state, o.clock, r.rest, m - 1);
    var b := Run(a'.state, a'.clock, a'.pending, n);
    RunUnfold(s, now, pending, m);
    assert m + n - 1 == (m - 1) + n;
    RunUnfold(s, now, pending, m + n);
    PrependTwice(o.sent, a'.sent, b);
  }

  /** `RunSplit` for runs whose two parts are already known. */
  lemma RunThen(s: ProcessState, now: nat, pending: seq<Arrival>, m: nat, n: nat, a: RunOut, b: RunOut)
    requires a == Run(s, now, pending, m)
    requires b == Run(a.state, a.clock, a.pending, n)
    ensures Run(s, now, pending, m + n) == b.(sent := a.sent + b.sent)
  {
    RunSplit(s, now, pending, m, n);
  }

  /** The ticks `from`, `from + 1`, ..., `to`. */
  function Ticks(from: nat, to: nat): (ts: seq<Event>)
    ensures |ts| == if from <= to then to - from + 1 else 0
    ensures forall i :: 0 <= i < |ts| ==> ts[i] == TimerTick(from + i)
  {
    seq(if from <= to then to - from + 1 else 0, i requires 0 <= i => TimerTick(from + i))
  }

  /** The state a phase moves to once it is over, entered at `at`. */
  function AfterPhase(s: ProcessState, at: nat): (n: ProcessState)
    ensures Phase(n) == Succ(Phase(s))
    ensures !n.Idle? ==> n.since == at
  {
    match s
    case Idle => ProcessState.Running(at)
    case Running(_) => ProcessState.Paused(at)
    case Paused(_) => ProcessState.Idle
  }

  /**
   * A work phase or a break that has run for `now - since` seconds ticks
   * each remaining second of its threshold, then moves on exactly at the
   * threshold and announces the next phase; no command is received meanwhile.
   */
  lemma {:induction false} PhaseTrace(s: ProcessState, now: nat, pending: seq<Arrival>)
    requires !s.Idle? && s.since <= now <= s.since + Threshold(s)
    ensures var end := s.since + Threshold(s);
      Run(s, now, pending, end - now + 1)
        == RunOut(AfterPhase(s, end), end, Ticks(now - s.since + 1, Threshold(s)) + [EntryEvent(Succ(Phase(s)))], pending)
    decreases s.since + Threshold(s) - now
  {
    var end := s.since + Threshold(s);
    if now == end {
      assert Ticks(now - s.since + 1, Threshold(s)) == [];
      PhaseOver(s, pending);
    } else {
      PhaseTrace(s, now + 1, pending);
      TickThenTrace(s, now, pending);
    }
  }

  /** One tick before the rest of a phase's trace. */
  lemma TickThenTrace(s: ProcessState, now: nat, pending: seq<Arrival>)
    requires !s.Idle? && s.since <= now < s.since + Threshold(s)
    requires var end := s.since + Threshold(s);
      Run(s, now + 1, pending, end - (now + 1) + 1)
        == RunOut(AfterPhase(s, end), end, Ticks(now + 1 - s.since + 1, Threshold(s)) + [EntryEvent(Succ(Phase(s)))], pending)
    ensures var end := s.since + Threshold(s);
      Run(s, now, pending, end - now + 1)
        == RunOut(AfterPhase(s, end), end, Ticks(now - s.since + 1, Threshold(s)) + [EntryEvent(Succ(Phase(s)))], pending)
  {
    var end := s.since + Threshold(s);
    var o := StepOut(s, now + 1, [TimerTick(now + 1 - s.since)]);
    assert Step(s, now, None) == o;
    var entry := [EntryEvent(Succ(Phase(s)))];
    var tail := RunOut(AfterPhase(s, end), end, Ticks(now + 1 - s.since + 1, Threshold(s)) + entry, pending);
    RunWaiting(s, now, pending, end - now + 1, o, tail);
    TicksCons(now - s.since + 1, Threshold(s));
    assert o.sent + tail.sent == Ticks(now - s.since + 1, Threshold(s)) + entry;
  }

  /** At its threshold a phase moves on in one iteration, announcing the next phase. */
  lemma PhaseOver(s: ProcessState, pending: seq<Arrival>)
    requires !s.Idle?
    ensures var end := s.since + Threshold(s);
      Run(s, end, pending, 1) == RunOut(AfterPhase(s, end), end, [EntryEvent(Succ(Phase(s)))], pending)
  {
    var end := s.since + Threshold(s);
    var o := Step(s, end, None);
    assert o == StepOut(AfterPhase(s, end), end, [EntryEvent(Succ(Phase(s)))]);
    RunWaiting(s, end, pending, 1, o, RunOut(o.state, o.clock, [], pending));
  }

  /** An iteration that receives nothing, followed by `tail`. */
  lemma RunWaiting(s: ProcessState, now: nat, pending: seq<Arrival>, n: nat, o: StepOut, tail: RunOut)
    requires n > 0 && !s.Idle?
    requires o == Step(s, now, None)
    requires tail == Run(o.state, o.clock, pending, n - 1)
    ensures Run(s, now, pending, n) == tail.(sent := o.sent + tail.sent)
  {
    assert Receive(s, now, pending) == Received(None, now, pending);
    RunUnfold(s, now, pending, n);
  }

  lemma TicksCons(from: nat, to: nat)
    requires from <= to
    ensures Ticks(from, to) == [TimerTick(from)] + Ticks(from + 1, to)
  {
    assert Ticks(from, to)[1..] == Ticks(from + 1, to);
  }

  /** A StartTask received while Idle starts a work phase at the second it is received. */
  lemma StartReceived(now: nat, at: nat, rest: seq<Arrival>)
    ensures Run(ProcessState.Idle, now, [Arrival(at, StartTask)] + rest, 1)
      == RunOut(ProcessState.Running(Max(now, at)), Max(now, at), [TaskStarted], rest)
  {
    var arr := [Arrival(at, StartTask)] + rest;
    assert arr[1..] == rest;
    assert Receive(ProcessState.Idle, now, arr) == Received(Some(StartTask), Max(now, at), rest);
  }

  /** A work phase entered at `t`, followed by its break, back to Idle at `t` plus 30 minutes. */
  lemma WorkThenBreak(t: nat, rest: seq<Arrival>)
    ensures Run(ProcessState.Running(t), t, rest, (WorkSecs + 1) + (BreakSecs + 1))
      == RunOut(ProcessState.Idle, t + WorkSecs + BreakSecs,
                (Ticks(1, WorkSecs) + [PauseStarted]) + (Ticks(1, BreakSecs) + [Event.Idle]), rest)
  {
    var c := RunOut(ProcessState.Paused(t + WorkSecs), t + WorkSecs, Ticks(1, WorkSecs) + [PauseStarted], rest);
    PhaseTrace(ProcessState.Running(t), t, rest);
    var d := RunOut(ProcessState.Idle, t + WorkSecs + BreakSecs, Ticks(1, BreakSecs) + [Event.Idle], rest);
    PhaseTrace(ProcessState.Paused(t + WorkSecs), t + WorkSecs, rest);
    RunThen(ProcessState.Running(t), t, rest, WorkSecs + 1, BreakSecs + 1, c, d);
  }

  /**
   * A whole pomodoro: a StartTask received while Idle gives TaskStarted,
   * the ticks 1 to 1500, PauseStarted, the ticks 1 to 300 and Idle, ending
   * Idle 30 minutes after the command was received.
   */
  lemma FullCycle(now: nat, at: nat, rest: seq<Arrival>)
    ensures var t := Max(now, at);
      Run(ProcessState.Idle, now, [Arrival(at, StartTask)] + rest, 1 + (WorkSecs + 1) + (BreakSecs + 1))
        == RunOut(ProcessState.Idle, t + WorkSecs + BreakSecs,
                  [TaskStarted] + Ticks(1, WorkSecs) + [PauseStarted] + Ticks(1, BreakSecs) + [Event.Idle], rest)
  {
    var t := Max(now, at);
    var a := RunOut(ProcessState.Running(t), t, [TaskStarted], rest);
    StartReceived(now, at, rest);
    var phases := (Ticks(1, WorkSecs) + [PauseStarted]) + (Ticks(1, BreakSecs) + [Event.Idle]);
    var b := RunOut(ProcessState.Idle, t + WorkSecs + BreakSecs, phases, rest);
    WorkThenBreak(t, rest);
    RunThen(ProcessState.Idle, now, [Arrival(at, StartTask)] + rest, 1, (WorkSecs + 1) + (BreakSecs + 1), a, b);
    assert [TaskStarted] + phases
      == [TaskStarted] + Ticks(1, WorkSecs) + [PauseStarted] + Ticks(1, BreakSecs) + [Event.Idle];
  }
}
