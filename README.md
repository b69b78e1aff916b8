# Pomodo timer core, modelled in Dafny

Pomodo is a desktop Pomodoro timer. Its core, in `src-tauri/src/main.rs`, is
two cooperating state machines and the session record they keep in step:

- the **timer process** (`async_timer`), with the private state
  `Idle | Running{since} | Paused{since}`, the fixed thresholds of 25 minutes
  of work and 5 minutes of break, and `is_ready`; it receives commands and
  sends `TaskStarted`, `PauseStarted`, `Idle` and `TimerTick(elapsed)` events;
- the **session record** (`PomodoState`): the phase, the history of finished
  tasks, the task in flight and the two channel ends; `start_task` admits a
  new task only from Idle, and the **controller loop** (`async_controller`)
  updates the record from the timer's events.

The project has five modules, one file each:

- `util.dfy` — `Option`, `Outcome` (a `Result<(), E>`), `Max`.
- `types.dfy` — the enums `PomodoroCommand`, `PomodoroEvent`, `TimerState`,
  the `Task` record with `Task::new` and `Task::finish`, and the phase cycle
  Idle → Running → Paused → Idle (`Succ`, `Advance`, `Cycle`, `Transitions`).
- `timer.dfy` — `ProcessState`, `is_ready`, one loop iteration as the
  function `Step`, iterations as `Run`, and the loop itself as the method
  `RunTimer`, proved to compute `Run`. Lemmas: ticks count the seconds of a
  phase one by one and restart at 1 after each transition; transitions follow
  the cycle; a work phase entered at `t` emits exactly the ticks 1..1500 and
  then `PauseStarted` at `t + 1500`; a whole pomodoro is `TaskStarted`, ticks
  1..1500, `PauseStarted`, ticks 1..300, `Idle`.
- `session.dfy` — the record's value `Record` with its invariant (a task is in
  flight exactly while the phase is Running), `Admit` (`start_task`),
  `Handle` (one match arm of the controller), `ControllerStep` (one controller
  iteration), and the class `PomodoState`, whose fields are updated in place
  by `StartTask` and `ControllerIteration`, each proved to leave the value
  the corresponding function gives.
- `system.dfy` — the record, the timer and both channels on one clock. A
  coupling invariant `Coupled` ties the record's phase to the timer's state
  and the channels' contents and is preserved by every step of every party.
  From it: the controller's `unwrap` of the task in flight never fails,
  `start_task` from Idle never finds the command channel full, the two phases
  agree whenever both channels are empty, neither phase ever skips a state,
  and every finished task ended no earlier than it started. A second
  invariant over the log of sent events shows that, however the clock moves
  between steps, the timer's ticks strictly increase within each phase.

Time is an abstract clock of whole seconds (`nat`). The timer's `Instant`s
and the tasks' wall-clock timestamps are both read from it; the clock never
goes back, which is an assumption of the model (the source's `Local::now` does
not guarantee it). The timer tests readiness at the current second, sleeps one
second while a phase is not over, and then reports the elapsed time. `Timer.Run`
lets no other time pass between iterations, so there the tick after `k` seconds
of a phase is `k + 1`; in the code the sleep can overshoot and the `send` can
block on the full event channel, so consecutive ticks are only guaranteed to
increase. `System` lets the clock move between any two steps and proves just
that: within each phase the ticks it sends strictly increase.

`start_task` refuses with the strings "Timer already running" and "Timer is
paused", or with the command channel's own error text. On a full command
channel it has already set the phase to Running and installed the task before
it reports the error (main.rs lines 75-79); the model proves that this path is
unreachable in the program as `main` wires it (`System.StartFromIdleSucceeds`).

## Model

| member | source | states |
|---|---|---|
| Types.NewTask | src-tauri/src/main.rs:39-45 | a new task carries the given name, starts now, has no end time and is not finished |
| Types.Finish | src-tauri/src/main.rs:47-49 | finishing keeps name and start time, sets the end time to now, and yields a finished task exactly when now is not before the start |
| Timer.Elapsed | src-tauri/src/main.rs:186 | elapsed seconds since an instant: the difference when it is in the past, zero otherwise |
| Timer.IsReady | src-tauri/src/main.rs:182-194 | Idle is always ready; Running is ready iff at least 1500 s have passed since it began; Paused iff at least 300 s |
| Timer.Receive | src-tauri/src/main.rs:253-255 | the Idle branch's blocking receive: it takes a command exactly when the timer is Idle and one has been sent; that command is the oldest one, it is taken no earlier than the clock and than its arrival (at the later of the two), and the rest stay queued; otherwise it takes nothing and leaves the clock alone |
| Timer.Run | src-tauri/src/main.rs:251-294 | iterating the loop never moves the clock back and sends at most one event per iteration |
| Timer.RunStarted | src-tauri/src/main.rs:251-294 | from a state whose phase began no later than the clock, every run ends in such a state: a phase is entered at the current instant, never in the future |
| Timer.Step | src-tauri/src/main.rs:251-291 | one loop iteration: at most one event; StartTask from Idle gives Running(now) and TaskStarted; CancelTask or no command changes nothing and sends nothing; a ready phase moves to its successor (Paused(now) / Idle) and sends PauseStarted / Idle; an unready one keeps `since`, advances the clock one second and sends the elapsed time; the phase never skips a state and changes exactly when the successor's entry event is sent |
| Timer.StepTickBound | src-tauri/src/main.rs:267-276 | in the model, a tick sent from a phase that did not begin in the future lies between 1 and the phase's length |
| Timer.RunTimer | src-tauri/src/main.rs:247-295 | the loop computes `Run` from Idle; its event stream is well-ticked, its i-th transition is the entry event of the phase i + 1 steps after Idle, it ends in the phase they lead to, and no phase was entered in the future |
| Timer.RunWellTicked | src-tauri/src/main.rs:267-290 | in every run, a tick after a tick is one more, a tick after TaskStarted or PauseStarted is 1, no tick follows Idle, and a first tick is the phase's elapsed time after one more second |
| Timer.RunCycles | src-tauri/src/main.rs:253-290 | the transition events of every run are the entry events of the successive phases after the starting one, and the run ends in the phase reached after that many transitions |
| Timer.PhaseTrace | src-tauri/src/main.rs:267-290 | a work phase or break ticks each remaining second up to its threshold and switches phase exactly at the threshold, announcing the next phase, without consuming commands |
| Timer.FullCycle | src-tauri/src/main.rs:251-291 | from Idle, a StartTask yields TaskStarted, ticks 1..1500, PauseStarted, ticks 1..300, Idle, and Idle again 1800 s after the command was received |
| Types.CycleAt | src-tauri/src/main.rs:253-290 | the i-th transition of the cycle after a phase is the entry event of the phase i + 1 steps on |
| Session.Init | src-tauri/src/main.rs:62-70 | a new record is Idle with no history, no task in flight, empty channels, and satisfies the record invariant |
| Session.Message | src-tauri/src/main.rs:78-86 | the refusal texts: "Timer already running" exactly for AlreadyRunning, "Timer is paused" exactly for AlreadyPaused, and a non-empty text for the full channel |
| Session.Reported | src-tauri/src/main.rs:72-88 | start_task's `Result<(), String>`: success exactly when admitted, otherwise the refusal's text |
| Session.Admit | src-tauri/src/main.rs:72-88 | start_task succeeds iff the phase is Idle and the command channel has room; from Idle it sets Running and installs the named task starting now, queues StartTask when there is room and otherwise fails with QueueFull having already changed phase and task; from Running or Paused it fails with AlreadyRunning / AlreadyPaused and changes nothing; it keeps the record invariant |
| Session.SecondStartRefused | src-tauri/src/main.rs:72-86 | two immediate calls from Idle create one task: the second is refused with AlreadyRunning and changes nothing |
| Session.Handle | src-tauri/src/main.rs:204-242 | PauseStarted moves the in-flight task, ended now, to the end of the history and leaves Paused with no task; TaskStarted and Idle overwrite the phase; a tick changes nothing; channels untouched; the phase only moves to its successor and the invariant is kept when the event arrives in the phase it belongs to |
| Session.ControllerStep | src-tauri/src/main.rs:198-245 | a controller iteration changes nothing when no event is waiting and otherwise takes the first event off the channel and applies its match arm (`Handle`) to the rest; it never shrinks the history and keeps the invariant for an expected event |
| Session.PomodoState.constructor | src-tauri/src/main.rs:62-70 | the new object holds the initial record and is valid |
| Session.PomodoState.StartTask | src-tauri/src/main.rs:72-88 | updates the fields in place to the record `Admit` describes, returns the text `Reported` gives for its result, and preserves validity |
| Session.PomodoState.ControllerIteration | src-tauri/src/main.rs:200-244 | updates the fields in place to the record `ControllerStep` describes and preserves validity for an expected event |
| System.Start | src-tauri/src/main.rs:119-125 | as main wires it: the new record, the timer Idle, nothing sent yet |
| System.Enabled | src-tauri/src/main.rs:253-290 | the timer completes an iteration only when the event channel has room and, while Idle, a command is queued; the controller's iteration is defined only where its unwrap succeeds; calls and the clock never wait |
| System.Transition | src-tauri/src/main.rs:119-125 | each step of a party never moves the clock back, never removes history and only adds to the log of sent events |
| System.StartCoupled | src-tauri/src/main.rs:119-125 | the program as started is in step |
| System.CoupledInvariant | src-tauri/src/main.rs:198-295 | every enabled step of start_task, the timer, the controller or the clock keeps the record, the timer and the channels in step |
| System.ControllerNeverPanics | src-tauri/src/main.rs:211-212 | in step, the in-flight task is present whenever PauseStarted is next, and every queued event arrives in the phase the record expects |
| System.StartFromIdleSucceeds | src-tauri/src/main.rs:75-79 | in step, an Idle record has an empty command channel, so start_task from Idle succeeds |
| System.InStep | src-tauri/src/main.rs:205-227 | in step with both channels empty, the record's phase equals the timer's |
| System.PhasesCycle | src-tauri/src/main.rs:253-290 | no step lets either the record's phase or the timer's skip a state of the cycle |
| System.HistoryGrowsByFinishedTask | src-tauri/src/main.rs:211-215 | a step either leaves the history alone or appends exactly the in-flight task ended now, which ends no earlier than it started |
| System.LogInvariant | src-tauri/src/main.rs:267-290 | every step, with any amount of time passing between steps, keeps the sent ticks strictly increasing within each phase, with no tick after Idle or first |
| System.Exec | src-tauri/src/main.rs:119-125 | running any sequence of steps keeps each invariant (in step; the sent-event log agreeing with the timer) from a state that has it, never moves the clock back and never removes history |
| System.Safety | src-tauri/src/main.rs:53-88 | everywhere reachable from the start the record invariant holds, the controller cannot panic, start_task from Idle succeeds, all finished tasks end no earlier than they start, and the ticks sent strictly increase within each phase |

## Left out

- The Tauri shell: tray menu, showing and hiding the window, the "Hide"/"Show" title, the close interception (main.rs 104-174, 219-224, 231-236); it is user-interface plumbing over a framework outside this model.
- `app.emit_all` notifications to the user interface (main.rs 208, 217, 229, 239); they change no state of the core.
- The `println!` diagnostic for `CancelTask` (main.rs 263); it writes to standard output and changes no state.
- The Tokio runtime, task spawning, the `Mutex`, the busy-polling `try_recv` and the blocking `recv`/`send`: each iteration of each loop and each call of `start_task` (with the `#[tauri::command]` wrapper at main.rs 98-102 that takes the lock) is one atomic step; a channel is the sequence of the messages it holds, and a blocking receive or send makes the timer's step wait (`System.Enabled`). This shifts some timing in `System`: the code reads the new phase's `since` (main.rs 258, 269) and each tick (main.rs 275, 287) before its `send` blocks, while the model's whole iteration waits until the event channel is empty, so both are read after the wait.
- Real clocks and `sleep`: replaced by the abstract clock; the environment supplies when a command arrives (`Timer.Arrival`) and how far the clock moves between steps (`System.Action.Wait`).
- Panics on a closed channel (the `unwrap`s at main.rs 255, 260, 271, 276, 283, 288): both channel ends live as long as the program, so closure is not modelled.
- Timer.Run: assumes each iteration takes exactly its one-second sleep and nothing more (no sleep overshoot, no time blocked in `send`), so its exact tick values (ticks 1..1500 of a work phase, each one more than the last) hold only under that assumption; the code promises only that ticks within a phase increase.
- The `u64` width of ticks: ticks are `nat`. In the model a tick never exceeds its phase's length (1500 or 300, `Timer.StepTickBound`); that bound is the model's, because in the code a sleep that overshoots after a readiness check just short of the threshold (main.rs 268, 274-275) can report one second more.
- The text of the full-channel error comes from the channel library, which is not part of this model; `Session.Message` uses its display text "no available capacity".
- Serde derives and `Debug` formatting.
