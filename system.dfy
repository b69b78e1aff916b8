/**
 * The whole program of src-tauri/src/main.rs with the user interface taken
 * away: the session record, the timer process and the two capacity-1
 * channels between them, on one clock. Every step of the model is one atomic
 * step of one party: a call of `start_task`, one iteration of the timer loop,
 * one iteration of the controller loop, or the clock moving on.
 *
 * `Coupled` is the invariant that ties the record's phase to the timer's
 * private state and to what the channels hold; from it follow that the
 * controller never unwraps a missing task, that `start_task` from Idle never
 * finds the command channel full, and that the record's own invariant holds.
 */
module System {
  import opened Util
  import opened Types
  import opened Timer
  import opened Session

  /** The record, the timer's private state, the clock, and every event the timer has sent so far. */
  datatype Sys = Sys(rec: Record, timer: ProcessState, clock: nat, sent: seq<Event>)

  datatype Action =
    | Call(name: string)     // the `start_task` command, invoked from the user interface
    | TimerIteration         // one iteration of the loop in `async_timer`
    | ControllerIteration    // one iteration of the loop in `async_controller`
    | Wait(secs: nat)        // the clock moves on

  /** The program as `main` starts it, at clock `t`. */
  function Start(t: nat): (s: Sys)
    ensures s.rec == Session.Init() && s.timer.Idle? && s.clock == t && s.sent == []
  {
    Sys(Session.Init(), ProcessState.Idle, t, [])
  }

  /**
   * Whether a party can complete a step: the timer waits in `recv` while Idle
   * and the command channel is empty, and in `send` while the event channel
   * is full; the controller's step is defined only where its unwrap succeeds.
   */
  predicate Enabled(s: Sys, a: Action): (b: bool)
    ensures a.TimerIteration? ==>
      (b <==> |s.rec.eventQueue| < EventCapacity && (s.timer.Idle? ==> |s.rec.cmdQueue| > 0))
    ensures a.ControllerIteration? ==> (b <==> CanReceive(s.rec))
    ensures a.Call? || a.Wait? ==> b
  {
    match a
    case TimerIteration => s.rec.eventQueue == [] && (s.timer.Idle? ==> s.rec.cmdQueue != [])
    case ControllerIteration => CanReceive(s.rec)
    case _ => true
  }

  function Transition(s: Sys, a: Action): (n: Sys)
    requires Enabled(s, a)
    ensures n.clock >= s.clock
    ensures s.rec.pastTasks <= n.rec.pastTasks
    ensures s.sent <= n.sent
  {
    match a
    case Call(name) => s.(rec := Admit(s.rec, name, s.clock).record)
    case TimerIteration =>
      var got := s.timer.Idle? && s.rec.cmdQueue != [];
      var o := Step(s.timer, s.clock, if got then Some(s.rec.cmdQueue[0]) else None);
      Sys(s.rec.(cmdQueue := if got then s.rec.cmdQueue[1..] else s.rec.cmdQueue,
                 eventQueue := s.rec.eventQueue + o.sent),
          o.state, o.clock, s.sent + o.sent)
    case ControllerIteration => s.(rec := ControllerStep(s.rec, s.clock))
    case Wait(d) => s.(clock := s.clock + d)
  }

  /** Timestamps never lie in the future, and every finished task ended no earlier than it started. */
  predicate TimesAgree(s: Sys)
  {
    (s.rec.currentTask.Some? ==> s.rec.currentTask.value.startTime <= s.clock) &&
    (forall i :: 0 <= i < |s.rec.pastTasks| ==>
       Finished(s.rec.pastTasks[i]) && s.rec.pastTasks[i].endTime.value <= s.clock) &&
    Started(s.timer, s.clock)
  }

  predicate OneTick(q: seq<Event>)
  {
    |q| == 1 && q[0].TimerTick?
  }

  /**
   * The record and the timer are in step: what the channels hold is exactly
   * what separates the record's phase from the timer's.
   */
  predicate Coupled(s: Sys)
  {
    var r := s.rec;
    r.Valid() && TimesAgree(s) &&
    match s.timer
    case Idle =>
      (r.cmdQueue == [StartTask] && r.eventQueue == [] && r.timerState == TimerState.Running) ||
      (r.cmdQueue == [] && r.eventQueue == [] && r.timerState == TimerState.Idle) ||
      (r.cmdQueue == [] && r.eventQueue == [Event.Idle] && r.timerState == TimerState.Paused)
    case Running(_) =>
      r.cmdQueue == [] && r.timerState == TimerState.Running &&
      (r.eventQueue == [] || r.eventQueue == [TaskStarted] || OneTick(r.eventQueue))
    case Paused(_) =>
      r.cmdQueue == [] &&
      ((r.eventQueue == [PauseStarted] && r.timerState == TimerState.Running) ||
       (r.timerState == TimerState.Paused && (r.eventQueue == [] || OneTick(r.eventQueue))))
  }

  lemma StartCoupled(t: nat)
    ensures Coupled(Start(t))
  {
  }

  /** Every step of every party keeps the record and the timer in step. */
  lemma CoupledInvariant(s: Sys, a: Action)
    requires Coupled(s) && Enabled(s, a)
    ensures Coupled(Transition(s, a))
  {
  }

  /**
   * In step, the controller's unwrap never fails and every event it takes
   * arrives in the phase the record expects, so the record's own invariant
   * survives the controller's step.
   */
  lemma ControllerNeverPanics(s: Sys)
    requires Coupled(s)
    ensures Enabled(s, ControllerIteration)
    ensures s.rec.eventQueue != [] ==> Expected(s.rec, s.rec.eventQueue[0])
  {
  }

  /** In step, `start_task` from Idle always finds room on the command channel. */
  lemma StartFromIdleSucceeds(s: Sys, name: string)
    requires Coupled(s) && s.rec.timerState == TimerState.Idle
    ensures s.rec.cmdQueue == []
    ensures Admit(s.rec, name, s.clock).result == Pass
  {
  }

  /** Once both channels are drained, the record's phase is the timer's. */
  lemma InStep(s: Sys)
    requires Coupled(s) && s.rec.cmdQueue == [] && s.rec.eventQueue == []
    ensures Phase(s.timer) == s.rec.timerState
  {
  }

  /**
   * Neither the record's phase nor the timer's ever skips a phase: each step
   * keeps it or moves it to its successor in Idle, Running, Paused, Idle.
   */
  lemma PhasesCycle(s: Sys, a: Action)
    requires Coupled(s) && Enabled(s, a)
    ensures var n := Transition(s, a);
      (n.rec.timerState == s.rec.timerState || n.rec.timerState == Succ(s.rec.timerState)) &&
      (Phase(n.timer) == Phase(s.timer) || Phase(n.timer) == Succ(Phase(s.timer)))
  {
  }

  /**
   * A step that adds to the history adds one task: the one that was in
   * flight, ended at the current clock and no earlier than it started.
   */
  lemma HistoryGrowsByFinishedTask(s: Sys, a: Action)
    requires Coupled(s) && Enabled(s, a)
    ensures var n := Transition(s, a);
      n.rec.pastTasks == s.rec.pastTasks ||
      (s.rec.currentTask.Some? &&
       n.rec.pastTasks == s.rec.pastTasks + [Finish(s.rec.currentTask.value, s.clock)] &&
       Finished(Finish(s.rec.currentTask.value, s.clock)))
  {
  }

  /** How a tick may follow the event before it: a later tick, or the entry into a phase; never Idle. */
  predicate Rises(prev: Event, tick: nat)
  {
    match prev
    case TimerTick(n) => n < tick
    case TaskStarted => true
    case PauseStarted => true
    case Idle => false
  }

  /**
   * Within a phase the ticks strictly increase: each tick comes after a
   * smaller tick or after the event that began its phase, and no stream
   * starts with a tick.
   */
  predicate TicksRise(es: seq<Event>)
  {
    (es != [] ==> !es[0].TimerTick?) &&
    forall i :: 0 < i < |es| && es[i].TimerTick? ==> Rises(es[i - 1], es[i].secs)
  }

  /** What the last event sent says of the timer: the phase it is in, and how far its ticks have got. */
  predicate LogAgrees(s: Sys)
  {
    TicksRise(s.sent) && Started(s.timer, s.clock) &&
    (s.sent == [] ==> s.timer.Idle?) &&
    (s.sent != [] ==> (s.sent[|s.sent| - 1].Idle? <==> s.timer.Idle?)) &&
    (s.sent != [] && s.sent[|s.sent| - 1].TimerTick? ==> s.timer.since + s.sent[|s.sent| - 1].secs <= s.clock)
  }

  lemma TicksRiseSnoc(es: seq<Event>, e: Event)
    requires TicksRise(es)
    requires e.TimerTick? ==> es != [] && Rises(es[|es| - 1], e.secs)
    ensures TicksRise(es + [e])
  {
    var all := es + [e];
    forall i | 0 < i < |all| && all[i].TimerTick?
      ensures Rises(all[i - 1], all[i].secs)
    {
      if i < |es| {
        assert all[i] == es[i] && all[i - 1] == es[i - 1];
      } else {
        assert all[i] == e && all[i - 1] == es[|es| - 1];
      }
    }
  }

  /**
   * However the clock moves between steps (a sleep that overshoots, a `send`
   * that blocks on the full event channel), every step keeps the timer's
   * ticks strictly increasing within each phase.
   */
  lemma {:induction false} LogInvariant(s: Sys, a: Action)
    requires LogAgrees(s) && Enabled(s, a)
    ensures LogAgrees(Transition(s, a))
  {
    if a.TimerIteration? {
      var got := s.timer.Idle? && s.rec.cmdQueue != [];
      var o := Step(s.timer, s.clock, if got then Some(s.rec.cmdQueue[0]) else None);
      if o.sent != [] {
        var e := o.sent[0];
        assert o.sent == [e];
        if e.TimerTick? {
          assert !s.timer.Idle? && o.state == s.timer && e.secs == s.clock + 1 - s.timer.since;
          assert s.sent != [];
        }
        TicksRiseSnoc(s.sent, e);
        assert (s.sent + o.sent)[|s.sent + o.sent| - 1] == e;
      }
    }
  }

  /** Both invariants, each kept by every step from a state that has it. */
  lemma StepKeepsInvariants(s: Sys, a: Action)
    requires Enabled(s, a)
    ensures Coupled(s) ==> Coupled(Transition(s, a))
    ensures LogAgrees(s) ==> LogAgrees(Transition(s, a))
  {
    if Coupled(s) {
      CoupledInvariant(s, a);
    }
    if LogAgrees(s) {
      LogInvariant(s, a);
    }
  }

  /**
   * The steps `acts` from `s`, in order, each taken when its party can
   * complete it and skipped otherwise.
   */
  function Exec(s: Sys, acts: seq<Action>): (n: Sys)
    ensures Coupled(s) ==> Coupled(n)
    ensures LogAgrees(s) ==> LogAgrees(n)
    ensures n.clock >= s.clock
    ensures s.rec.pastTasks <= n.rec.pastTasks
    decreases |acts|
  {
    if acts == [] then s
    else
      if Enabled(s, acts[0]) then
        StepKeepsInvariants(s, acts[0]);
        Exec(Transition(s, acts[0]), acts[1..])
      else Exec(s, acts[1..])
  }

  /**
   * Everywhere the program can get to from its start: the record's invariant
   * holds, the controller never panics, `start_task` from Idle succeeds,
   * every finished task ended no earlier than it started, and the ticks the
   * timer has sent strictly increase within each phase.
   */
  lemma Safety(t: nat, acts: seq<Action>, name: string)
    ensures var s := Exec(Start(t), acts);
      s.rec.Valid() &&
      Enabled(s, ControllerIteration) &&
      (s.rec.timerState == TimerState.Idle ==> Admit(s.rec, name, s.clock).result == Pass) &&
      (forall i :: 0 <= i < |s.rec.pastTasks| ==> Finished(s.rec.pastTasks[i])) &&
      TicksRise(s.sent)
  {
    StartCoupled(t);
    var s := Exec(Start(t), acts);
    ControllerNeverPanics(s);
    if s.rec.timerState == TimerState.Idle {
      StartFromIdleSucceeds(s, name);
    }
  }
}
