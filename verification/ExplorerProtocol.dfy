/**
 One Explorer run under concurrent requests and background tasks
 (internal/explorer/service.go over internal/runmgr/runmgr.go). A step is one database
 statement, one lock operation, one dispatch or one step of the run manager. The mutex is
 shared with all other runs; the manager's map is shared too, the key is this run's.
 */
module ExplorerProtocol {
  import opened Results
  import opened ExplorerState
  import M = RunManager

  const KEY := "explorer:run"
  const RUN_ID: nat := 1

  datatype Actor = Handler(n: nat) | Task(n: nat)

  /** How far a request or a task is: it has read the record number `base` of the history;
      it has written and must dispatch; it must unlock. */
  datatype Pc = Begun | Locked | HasRead(base: nat) | Wrote | Closing | Ended

  /** A task learns what it has to write when its model call returns. */
  datatype Proc = Proc(change: Option<Change>, pc: Pc)

  datatype Lock = Free | HeldBy(owner: Actor) | HeldElsewhere

  /** A stored value, the change that wrote it and the value that change had read. */
  datatype Stored = Stored(record: Record, change: Option<Change>, base: nat)

  /** skipped holds the tasks that gave their write up because their context was cancelled,
      broken those that panicked or lost a store call before it; unstarted says that
      startRun failed between its two writes. */
  datatype Sys = Sys(history: seq<Stored>, lock: Lock, procs: map<Actor, Proc>, mgr: M.State,
                     skipped: set<nat>, broken: set<nat>, unstarted: bool)

  datatype Step =
    | Create(h: nat, organization: int, query: string) // startRun: INSERT
    | Arrive(h: nat, change: Change)                   // continueRun or Update begins
    | Acquire(a: Actor)
    | Read(a: Actor)
    | Write(a: Actor)
    | Dispatch(h: nat)
    | Unlock(a: Actor)
    | Answer(t: nat, change: Change)                   // the model call returns
    | Skip(t: nat)                                     // a store call of completeRun sees a cancelled context
    | Break(t: nat)                                    // the task panics, or a store call of it fails otherwise
    | Abort(h: nat)                                    // a store call of a request fails, at the latest its write
    | Elsewhere(acquire: bool)                         // other runs use the mutex
    | Manage(step: M.Step)                             // the run manager goes on by itself

  const INITIAL := Sys([], Free, map[], M.INITIAL, {}, {}, false)

  /** Update, completeRun and failRun take the mutex; startRun and continueRun do not. */
  predicate TakesLock(c: Change) { c.Update? || c.Reply? || c.Failure? }

  /** completeRun makes its store calls with the run's context, failRun does not. */
  predicate Blocked(s: Sys, a: Actor) {
    && a.Task? && a in s.procs && a.n < |s.mgr.tasks|
    && s.procs[a].change.Some? && s.procs[a].change.value.Reply?
    && M.ContextCancelled(s.mgr, a.n)
  }

  predicate At(s: Sys, a: Actor, pc: Pc) { a in s.procs && s.procs[a].change.Some? && s.procs[a].pc == pc }

  predicate Reading(s: Sys, a: Actor) {
    && a in s.procs && s.procs[a].change.Some? && s.procs[a].pc.HasRead?
    && s.procs[a].pc.base < |s.history|
  }

  predicate Enabled(s: Sys, step: Step) {
    match step
    case Create(h, _, _) => s.history == [] && Handler(h) !in s.procs
    case Arrive(h, change) => s.history != [] && Handler(h) !in s.procs && (change.Continue? || change.Update?)
    case Acquire(a) => At(s, a, Begun) && TakesLock(s.procs[a].change.value) && s.lock == Free
    case Read(a) =>
      && a in s.procs && s.procs[a].change.Some? && s.history != [] && !Blocked(s, a)
      && s.procs[a].pc == if TakesLock(s.procs[a].change.value) then Locked else Begun
    case Write(a) => Reading(s, a) && !Blocked(s, a)
    case Dispatch(h) => At(s, Handler(h), Wrote)
    case Unlock(a) => At(s, a, Closing) && s.lock == HeldBy(a)
    case Answer(t, change) =>
      && Task(t) in s.procs && s.procs[Task(t)] == Proc(None, Begun) && (change.Reply? || change.Failure?)
      && t < |s.mgr.tasks| && s.mgr.tasks[t].phase == M.Running
    case Skip(t) => (At(s, Task(t), Locked) || Reading(s, Task(t))) && Blocked(s, Task(t))
    case Break(t) =>
      && Task(t) in s.procs && t < |s.mgr.tasks| && s.mgr.tasks[t].phase == M.Running
      && (s.procs[Task(t)].pc == Begun || At(s, Task(t), Locked) || Reading(s, Task(t)))
    case Abort(h) => At(s, Handler(h), Begun) || At(s, Handler(h), Locked) || Reading(s, Handler(h))
    case Elsewhere(acquire) => s.lock == if acquire then Free else HeldElsewhere
    case Manage(step) =>
      && M.Enabled(s.mgr, step)
      && match step {
           case Register(key) => key != KEY
           case Cancel(_) => false
           case Deregister(t) => Task(t) in s.procs ==> s.procs[Task(t)].pc == Ended
           case _ => true
         }
  }

  /** The value that a change makes of the one it read. */
  function Written(h: seq<Stored>, change: Change, base: nat): Stored
    requires base < |h|
  {
    Stored(Transform(h[base].record, change, RUN_ID), Some(change), base)
  }

  function SetPc(s: Sys, a: Actor, pc: Pc): Sys
    requires a in s.procs
  {
    s.(procs := s.procs[a := s.procs[a].(pc := pc)])
  }

  /** Without a write; a deferred unlock releases the mutex. */
  function Leave(s: Sys, a: Actor): Sys
    requires a in s.procs
  {
    SetPc(s, a, Ended).(lock := if s.lock == HeldBy(a) then Free else s.lock)
  }

  function Apply(s: Sys, step: Step): Sys
    requires Enabled(s, step)
  {
    match step
    case Create(h, organization, query) =>
      s.(history := [Stored(NewRecord(organization, query), None, 0)],
         procs := s.procs[Handler(h) := Proc(Some(AssignId(RUN_ID)), HasRead(0))])
    case Arrive(h, change) => s.(procs := s.procs[Handler(h) := Proc(Some(change), Begun)])
    case Acquire(a) => SetPc(s, a, Locked).(lock := HeldBy(a))
    case Read(a) => SetPc(s, a, HasRead(|s.history| - 1))
    case Write(a) =>
      var change, base := s.procs[a].change.value, s.procs[a].pc.base;
      SetPc(s, a, if Dispatches(change) then Wrote else if TakesLock(change) then Closing else Ended)
        .(history := s.history + [Written(s.history, change, base)])
    case Dispatch(h) =>
      var s' := SetPc(s, Handler(h), if TakesLock(s.procs[Handler(h)].change.value) then Closing else Ended);
      s'.(mgr := M.Apply(s.mgr, M.Register(KEY)), procs := s'.procs[Task(|s.mgr.tasks|) := Proc(None, Begun)])
    case Unlock(a) => SetPc(s, a, Ended).(lock := Free)
    case Answer(t, change) => s.(procs := s.procs[Task(t) := Proc(Some(change), Begun)])
    case Skip(t) => SetPc(s, Task(t), Closing).(skipped := s.skipped + {t})
    case Break(t) => Leave(s, Task(t)).(broken := s.broken + {t})
    case Abort(h) =>
      Leave(s, Handler(h)).(unstarted := s.unstarted || s.procs[Handler(h)].change.value.AssignId?)
    case Elsewhere(acquire) => s.(lock := if acquire then HeldElsewhere else Free)
    case Manage(step) => s.(mgr := M.Apply(s.mgr, step))
  }

  /** Where a sequence of steps leads, if the code allows it. */
  function Exec(steps: seq<Step>): Option<Sys> {
    if steps == [] then Some(INITIAL)
    else
      var before, step := Exec(steps[..|steps| - 1]), steps[|steps| - 1];
      if before.Some? && Enabled(before.value, step) then Some(Apply(before.value, step)) else None
  }

  /** The run as a reader finds it. */
  predicate Shows(s: Sys, status: Status) {
    s.history != [] && s.history[|s.history| - 1].record.state.status == status
  }
}
