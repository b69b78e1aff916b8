/**
 * The values that the timer process, the controller loop and the session
 * record exchange (the enums and the `Task` record of src-tauri/src/main.rs).
 *
 * Time is an abstract clock counting whole seconds; wall-clock timestamps
 * (`chrono::DateTime<Local>`) and monotonic instants (`Instant`) are both read
 * from it.
 */
module Types {
  import opened Util

  /** Commands sent to the timer process over the command channel. */
  datatype Command = StartTask | CancelTask

  /** Events the timer process sends to the controller loop. */
  datatype Event = TaskStarted | PauseStarted | Idle | TimerTick(secs: nat)

  /** The phase kept in the session record. */
  datatype TimerState = Idle | Running | Paused

  /** One work interval: its name, when it started and, once finished, when it ended. */
  datatype Task = Task(name: string, startTime: nat, endTime: Option<nat>)

  /** A task that has been finished, and not before it started. */
  predicate Finished(t: Task)
  {
    t.endTime.Some? && t.startTime <= t.endTime.value
  }

  /** `Task::new`: a task named `name` that starts at `now` and has not ended. */
  function NewTask(name: string, now: nat): (t: Task)
    ensures t.name == name && t.startTime == now
    ensures !t.endTime.Some?
    ensures !Finished(t)
  {
    Task(name, now, None)
  }

  /** `Task::finish`: the same task, ended at `now`. */
  function Finish(t: Task, now: nat): (f: Task)
    ensures f.name == t.name && f.startTime == t.startTime
    ensures f.endTime == Some(now)
    ensures Finished(f) <==> t.startTime <= now
  {
    t.(endTime := Some(now))
  }

  /** The phase that follows `p` in the work/break cycle Idle, Running, Paused, Idle, ... */
  function Succ(p: TimerState): (q: TimerState)
    ensures q != p
  {
    match p
    case Idle => Running
    case Running => Paused
    case Paused => TimerState.Idle
  }

  /** The event the timer process sends when it enters phase `p`. */
  function EntryEvent(p: TimerState): (e: Event)
    ensures !e.TimerTick?
    ensures p.Idle? <==> e.Idle?
    ensures p.Running? <==> e.TaskStarted?
    ensures p.Paused? <==> e.PauseStarted?
  {
    match p
    case Idle => Event.Idle
    case Running => TaskStarted
    case Paused => PauseStarted
  }

  /** The phase reached from `p` after `k` transitions. */
  function Advance(p: TimerState, k: nat): (q: TimerState)
    // the cycle has period three
    ensures q == if k % 3 == 0 then p else if k % 3 == 1 then Succ(p) else Succ(Succ(p))
    decreases k
  {
    if k == 0 then p else Advance(Succ(p), k - 1)
  }

  /** The entry events of the `k` phases that follow `p`, in order. */
  function Cycle(p: TimerState, k: nat): (es: seq<Event>)
    ensures |es| == k
    ensures k > 0 ==> es[0] == EntryEvent(Succ(p))
    decreases k
  {
    if k == 0 then [] else [EntryEvent(Succ(p))] + Cycle(Succ(p), k - 1)
  }

  /** The transition events of an event stream (everything but the ticks), in order. */
  function Transitions(es: seq<Event>): (ts: seq<Event>)
    ensures |ts| <= |es|
    ensures forall i :: 0 <= i < |ts| ==> !ts[i].TimerTick?
  {
    if es == [] then []
    else (if es[0].TimerTick? then [] else [es[0]]) + Transitions(es[1..])
  }

  lemma {:induction false} TransitionsAppend(a: seq<Event>, b: seq<Event>)
    ensures Transitions(a + b) == Transitions(a) + Transitions(b)
  {
    if a == [] {
      assert a + b == b;
    } else {
      assert (a + b)[1..] == a[1..] + b;
      TransitionsAppend(a[1..], b);
    }
  }

  /**
   * A stream that stays in phase `p` or enters its successor `q`, followed by
   * a stream that cycles on from `q` and ends in `last`, cycles on from `p`.
   */
  lemma CyclePrepend(p: TimerState, q: TimerState, first: seq<Event>, rest: seq<Event>, last: TimerState)
    requires Transitions(first) == if q == p then [] else [EntryEvent(Succ(p))]
    requires q == p || q == Succ(p)
    requires Transitions(rest) == Cycle(q, |Transitions(rest)|)
    requires last == Advance(q, |Transitions(rest)|)
    ensures Transitions(first + rest) == Cycle(p, |Transitions(first + rest)|)
    ensures last == Advance(p, |Transitions(first + rest)|)
  {
    TransitionsAppend(first, rest);
    var k := |Transitions(rest)|;
    if q != p {
      assert Transitions(first + rest) == [EntryEvent(Succ(p))] + Transitions(rest);
      assert Cycle(p, k + 1) == [EntryEvent(Succ(p))] + Cycle(q, k);
      assert Advance(p, k + 1) == Advance(q, k);
    }
  }

  /** `CycleAt` for every element at once. */
  lemma CycleEntries(p: TimerState, k: nat)
    ensures forall i :: 0 <= i < k ==> Cycle(p, k)[i] == EntryEvent(Advance(p, i + 1))
  {
    forall i | 0 <= i < k
      ensures Cycle(p, k)[i] == EntryEvent(Advance(p, i + 1))
    {
      CycleAt(p, k, i);
    }
  }

  /** Element `i` of the cycle after `p` is the entry event of the phase `i + 1` steps on. */
  lemma {:induction false} CycleAt(p: TimerState, k: nat, i: nat)
    requires i < k
    ensures |Cycle(p, k)| == k
    ensures Cycle(p, k)[i] == EntryEvent(Advance(p, i + 1))
    decreases k
  {
    if i > 0 {
      CycleAt(Succ(p), k - 1, i - 1);
    }
  }
}
