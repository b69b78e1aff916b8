/**
 * The session record `PomodoState` of src-tauri/src/main.rs: the phase, the
 * finished tasks, the task in flight, and the two channel ends it holds (the
 * sending end of the command channel and the receiving end of the event
 * channel, both of capacity 1, each modelled by the messages it holds).
 *
 * `Record` is the record's value and `Admit`, `Handle` and `ControllerStep`
 * say what `start_task` and one iteration of `async_controller` do to it; the
 * class `PomodoState` holds the same fields and updates them in place, and
 * each of its methods is proved to leave the value the function describes.
 */
module Session {
  import opened Util
  import opened Types

  /** Capacity of the command channel (`mpsc::channel::<PomodoroCommand>(1)`). */
  const CmdCapacity: nat := 1
  /** Capacity of the event channel (`mpsc::channel::<PomodoroEvent>(1)`). */
  const EventCapacity: nat := 1

  /** Why `start_task` refused to start a task. */
  datatype StartError = AlreadyRunning | AlreadyPaused | QueueFull

  /** The text `start_task` returns for each refusal. */
  function Message(e: StartError): (m: string)
    ensures m != []
    ensures e.AlreadyRunning? <==> m == "Timer already running"
    ensures e.AlreadyPaused? <==> m == "Timer is paused"
  {
    match e
    case AlreadyRunning => "Timer already running"
    case AlreadyPaused => "Timer is paused"
    // the Display text of the command channel's `TrySendError::Full`
    case QueueFull => "no available capacity"
  }

  datatype Record = Record(
    timerState: TimerState,
    pastTasks: seq<Task>,
    currentTask: Option<Task>,
    cmdQueue: seq<Command>,
    eventQueue: seq<Event>)
  {
    /**
     * A task is in flight exactly while the phase is Running; it has not
     * ended, every task in the history has, and no channel holds more than
     * its capacity.
     */
    predicate Valid()
    {
      (currentTask.Some? <==> timerState == Running) &&
      (currentTask.Some? ==> currentTask.value.endTime.None?) &&
      (forall i :: 0 <= i < |pastTasks| ==> pastTasks[i].endTime.Some?) &&
      |cmdQueue| <= CmdCapacity && |eventQueue| <= EventCapacity
    }
  }

  /** `PomodoState::new`: Idle, no history, no task, both channels empty. */
  function Init(): (r: Record)
    ensures r.Valid()
    ensures r.timerState == TimerState.Idle && r.currentTask == None
    ensures r.pastTasks == [] && r.cmdQueue == [] && r.eventQueue == []
  {
    Record(TimerState.Idle, [], None, [], [])
  }

  /** What `start_task` returns to its caller: nothing, or the text of its refusal. */
  function Reported(o: Outcome<StartError>): (r: Outcome<string>)
    ensures r.Pass? <==> o.Pass?
    ensures o.Fail? ==> r == Fail(Message(o.error))
  {
    match o
    case Pass => Pass
    case Fail(e) => Fail(Message(e))
  }

  /** What `start_task` leaves: the new record and what it returns. */
  datatype Admission = Admission(record: Record, result: Outcome<StartError>)

  /**
   * `PomodoState::start_task(name)` at clock `now`. From Idle it sets the
   * phase to Running and installs a new task BEFORE it tries to queue
   * StartTask, so a full command channel is reported as an error although
   * the phase and the task have already changed. From Running and Paused it
   * refuses and changes nothing.
   */
  function Admit(r: Record, name: string, now: nat): (a: Admission)
    ensures a.result == Pass <==> r.timerState == TimerState.Idle && |r.cmdQueue| < CmdCapacity
    ensures r.timerState == TimerState.Idle ==>
      a.record.timerState == Running &&
      a.record.currentTask == Some(NewTask(name, now)) &&
      a.record.pastTasks == r.pastTasks && a.record.eventQueue == r.eventQueue &&
      (if |r.cmdQueue| < CmdCapacity then a.record.cmdQueue == r.cmdQueue + [StartTask]
       else a.record.cmdQueue == r.cmdQueue && a.result == Fail(QueueFull))
    ensures r.timerState == Running ==> a == Admission(r, Fail(AlreadyRunning))
    ensures r.timerState == Paused ==> a == Admission(r, Fail(AlreadyPaused))
    ensures r.Valid() ==> a.record.Valid()
  {
    match r.timerState
    case Idle =>
      var started := r.(timerState := Running, currentTask := Some(NewTask(name, now)));
      if |r.cmdQueue| < CmdCapacity then Admission(started.(cmdQueue := r.cmdQueue + [StartTask]), Pass)
      else Admission(started, Fail(QueueFull))
    case Running => Admission(r, Fail(AlreadyRunning))
    case Paused => Admission(r, Fail(AlreadyPaused))
  }

  /**
   * Two calls of `start_task` in a row from Idle start one task only: the
   * second is refused with AlreadyRunning and leaves the first one's record,
   * whether or not the first one managed to queue its command.
   */
  lemma {:induction false} SecondStartRefused(r: Record, first: string, second: string, t1: nat, t2: nat)
    requires r.timerState == TimerState.Idle
    ensures var a := Admit(r, first, t1);
      a.record.currentTask == Some(NewTask(first, t1)) &&
      Admit(a.record, second, t2) == Admission(a.record, Fail(AlreadyRunning))
  {
  }

  /** The phase an event can arrive in without breaking the record's invariant. */
  predicate Expected(r: Record, e: Event)
  {
    match e
    case TaskStarted => r.timerState == Running
    case PauseStarted => r.timerState == Running
    case Idle => r.timerState == Paused
    case TimerTick(_) => true
  }

  /**
   * One arm of the match in `async_controller`. PauseStarted takes the task
   * in flight (the source unwraps it, so it must be there), finishes it at
   * `now` and appends it to the history; TaskStarted and Idle overwrite the
   * phase; a tick changes nothing.
   */
  function Handle(r: Record, e: Event, now: nat): (h: Record)
    requires e.PauseStarted? ==> r.currentTask.Some?
    ensures h.cmdQueue == r.cmdQueue && h.eventQueue == r.eventQueue
    ensures e.TaskStarted? ==> h == r.(timerState := Running)
    ensures e.Idle? ==> h == r.(timerState := TimerState.Idle)
    ensures e.TimerTick? ==> h == r
    ensures e.PauseStarted? ==>
      h.timerState == Paused && h.currentTask == None &&
      |h.pastTasks| == |r.pastTasks| + 1 &&
      h.pastTasks[..|r.pastTasks|] == r.pastTasks &&
      h.pastTasks[|r.pastTasks|].name == r.currentTask.value.name &&
      h.pastTasks[|r.pastTasks|].startTime == r.currentTask.value.startTime &&
      h.pastTasks[|r.pastTasks|].endTime == Some(now)
    ensures !e.PauseStarted? ==> h.pastTasks == r.pastTasks && h.currentTask == r.currentTask
    ensures h.timerState == r.timerState || h.timerState == Succ(r.timerState) || !Expected(r, e)
    ensures r.Valid() && Expected(r, e) ==> h.Valid()
  {
    match e
    case TaskStarted => r.(timerState := Running)
    case PauseStarted =>
      var task := Finish(r.currentTask.value, now);
      r.(currentTask := None, pastTasks := r.pastTasks + [task], timerState := Paused)
    case Idle => r.(timerState := TimerState.Idle)
    case TimerTick(_) => r
  }

  /** The controller can take the next event without panicking. */
  predicate CanReceive(r: Record)
  {
    r.eventQueue != [] && r.eventQueue[0].PauseStarted? ==> r.currentTask.Some?
  }

  /**
   * One iteration of `async_controller`: `try_recv` on the event channel and,
   * if an event was there, the arm for it; otherwise nothing happens.
   */
  function ControllerStep(r: Record, now: nat): (c: Record)
    requires CanReceive(r)
    ensures r.eventQueue == [] ==> c == r
    ensures r.eventQueue != [] ==> c == Handle(r.(eventQueue := r.eventQueue[1..]), r.eventQueue[0], now)
    ensures r.eventQueue != [] ==> c.eventQueue == r.eventQueue[1..]
    ensures c.cmdQueue == r.cmdQueue
    ensures r.pastTasks <= c.pastTasks
    ensures r.Valid() && (r.eventQueue != [] ==> Expected(r, r.eventQueue[0])) ==> c.Valid()
  {
    if r.eventQueue == [] then r
    else Handle(r.(eventQueue := r.eventQueue[1..]), r.eventQueue[0], now)
  }

  /** The session record, updated in place under its lock. */
  class PomodoState {
    var timerState: TimerState
    var pastTasks: seq<Task>
    var currentTask: Option<Task>
    var cmdQueue: seq<Command>
    var eventQueue: seq<Event>

    /** The record's current value. */
    function Snapshot(): (r: Record)
      reads this
    {
      Record(timerState, pastTasks, currentTask, cmdQueue, eventQueue)
    }

    ghost predicate Valid()
      reads this
    {
      Snapshot().Valid()
    }

    /** `PomodoState::new`. */
    constructor ()
      ensures Snapshot() == Init()
      ensures Valid()
    {
      timerState := TimerState.Idle;
      pastTasks := [];
      currentTask := None;
      cmdQueue := [];
      eventQueue := [];
    }

    /** `PomodoState::start_task`. */
    method StartTask(name: string, now: nat) returns (result: Outcome<string>)
      modifies this
      ensures Snapshot() == Admit(old(Snapshot()), name, now).record
      ensures result == Reported(Admit(old(Snapshot()), name, now).result)
      ensures old(Valid()) ==> Valid()
    {
      match timerState {
        case Idle =>
          timerState := Running;
          currentTask := Some(NewTask(name, now));
          // try_send: refused when the channel already holds its one message
          if |cmdQueue| < CmdCapacity {
            cmdQueue := cmdQueue + [Command.StartTask];
            result := Pass;
          } else {
            result := Fail(Message(QueueFull));
          }
        case Running =>
          result := Fail(Message(AlreadyRunning));
        case Paused =>
          result := Fail(Message(AlreadyPaused));
      }
    }

    /** One iteration of the loop in `async_controller`, at clock `now`. */
    method ControllerIteration(now: nat)
      requires CanReceive(Snapshot())
      modifies this
      ensures Snapshot() == ControllerStep(old(Snapshot()), now)
      ensures old(Valid()) && (old(eventQueue) != [] ==> Expected(old(Snapshot()), old(eventQueue)[0])) ==> Valid()
    {
      if eventQueue != [] {
        var event := eventQueue[0];
        eventQueue := eventQueue[1..];
        match event {
          case TaskStarted =>
            timerState := Running;
          case PauseStarted =>
            var task := currentTask.value;
            currentTask := None;
            task := Finish(task, now);
            pastTasks := pastTasks + [task];
            timerState := Paused;
          case Idle =>
            timerState := TimerState.Idle;
          case TimerTick(_) =>
        }
      }
    }
  }
}
