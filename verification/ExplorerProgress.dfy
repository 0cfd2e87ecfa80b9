/** Why an Explorer run is never stuck in "processing", and when it is
    (internal/explorer/service.go over internal/runmgr/runmgr.go). */
module ExplorerProgress {
  import opened Results
  import opened ExplorerState
  import opened ExplorerProtocol
  import opened ExplorerHistory
  import M = RunManager

  /** The request has stored a processing run and will dispatch a task for it. */
  predicate PendingDispatch(s: Sys, a: Actor) {
    && a in s.procs && s.procs[a].change.Some?
    && (s.procs[a].pc == Wrote || (s.procs[a].change.value.AssignId? && s.procs[a].pc.HasRead?))
  }

  /** The actor is the newest task of this run. */
  predicate NewestTask(s: Sys, a: Actor) {
    a.Task? && a in s.procs && a.n < |s.mgr.tasks| && M.Newest(s.mgr, a.n)
  }

  /** The actor has not made its terminal write, nor given it up, nor broken. */
  predicate Unsettled(s: Sys, a: Actor) {
    a in s.procs && (s.procs[a].pc == Begun || s.procs[a].pc == Locked || s.procs[a].pc.HasRead?)
  }

  predicate Promising(s: Sys, a: Actor) {
    || (a in s.procs && s.procs[a].change.Some? && s.procs[a].pc == Wrote)
    || (NewestTask(s, a) && (Unsettled(s, a) || a.n in s.skipped || a.n in s.broken))
  }

  /** No request has dispatched a task yet. */
  ghost predicate Untasked(s: Sys) { forall a :: a in s.procs ==> a.Handler? }

  ghost predicate Hopeful(s: Sys) { Untasked(s) || exists a :: Promising(s, a) }

  /** Before the first task startRun has still to dispatch one, unless it failed. */
  ghost predicate StartPending(s: Sys) {
    s.history != [] && Untasked(s) ==> s.unstarted || exists a :: PendingDispatch(s, a)
  }

  /** An update that will write back the processing status it read under the mutex. */
  predicate HoldsProcessing(s: Sys, a: Actor) {
    Reading(s, a) && s.procs[a].change.value.Update? && s.history[s.procs[a].pc.base].record.state.status == Processing
  }

  ghost predicate Promised(s: Sys) {
    && (Shows(s, Processing) ==> Hopeful(s))
    && (forall a :: HoldsProcessing(s, a) ==> Hopeful(s))
  }

  /** Whoever runs has a run to read, and has read a stored value. */
  ghost predicate ReadsStored(s: Sys) {
    forall a :: a in s.procs ==> s.history != [] && (s.procs[a].pc.HasRead? ==> s.procs[a].pc.base < |s.history|)
  }

  lemma StepReadsStored(s: Sys, step: Step)
    requires ReadsStored(s) && Enabled(s, step)
    ensures ReadsStored(Apply(s, step))
  {
    hide Transform, M.Apply, M.Enabled, Blocked;
    HistoryGrows(s, step);
  }

  lemma NewTaskPromises(s: Sys, h: nat)
    requires Enabled(s, Dispatch(h))
    ensures Promising(Apply(s, Dispatch(h)), Task(|s.mgr.tasks|))
  {
    hide Transform;
    M.TasksStay(s.mgr, M.Register(KEY));
  }

  /** A promise outlives every step but the write that fulfils it and a dispatch. */
  lemma PromiseKept(s: Sys, step: Step, a: Actor)
    requires Programs(s) && KeyedTasks(s) && Enabled(s, step) && Promising(s, a)
    requires !step.Dispatch? && step != Write(a)
    ensures Promising(Apply(s, step), a)
  {
    hide Transform, M.Apply, M.Enabled, M.Newest, Blocked;
    assert Program(a, s.procs[a]);
    if step.Manage? && a.Task? && a.n < |s.mgr.tasks| {
      M.NewestStays(s.mgr, step.step, a.n);
    }
  }

  /** A task of this run carries this run's key. */
  ghost predicate KeyedTasks(s: Sys) {
    forall a :: a in s.procs && a.Task? ==> a.n < |s.mgr.tasks| && s.mgr.tasks[a.n].key == KEY
  }

  lemma StepKeyed(s: Sys, step: Step)
    requires KeyedTasks(s) && Enabled(s, step)
    ensures KeyedTasks(Apply(s, step))
  {
    hide Transform, M.Apply, M.Enabled, M.Newest, Blocked;
    if step.Manage? { M.TasksStay(s.mgr, step.step); }
    if step.Dispatch? { M.TasksStay(s.mgr, M.Register(KEY)); }
  }

  /** Which changes leave a run processing. */
  lemma ProcessingComesFrom(r: Record, change: Change)
    requires Transform(r, change, RUN_ID).state.status == Processing && !Dispatches(change)
    ensures change.Update? && r.state.status == Processing
  {
  }

  lemma WritePromised(s: Sys, a: Actor)
    requires Programs(s) && KeyedTasks(s) && Exclusive(s) && Promised(s) && Enabled(s, Write(a))
    ensures Promised(Apply(s, Write(a)))
  {
    hide Transform, Blocked, M.Newest;
    var s', change := Apply(s, Write(a)), s.procs[a].change.value;
    if Dispatches(change) {
      assert Promising(s', a);
    } else {
      forall b ensures !HoldsProcessing(s', b) {}
      if Shows(s', Processing) {
        ProcessingComesFrom(s.history[s.procs[a].pc.base].record, change);
        assert HoldsProcessing(s, a);
        if w :| Promising(s, w) {
          assert Program(a, s.procs[a]);
          PromiseKept(s, Write(a), w);
        }
      }
    }
  }

  lemma StepPromised(s: Sys, step: Step)
    requires Programs(s) && KeyedTasks(s) && Exclusive(s) && ReadsStored(s) && Promised(s) && Enabled(s, step)
    ensures Promised(Apply(s, step))
  {
    var s' := Apply(s, step);
    if step.Write? {
      WritePromised(s, step.a);
    } else if step.Dispatch? {
      NewTaskPromises(s, step.h);
    } else {
      OtherStepPromised(s, step);
    }
  }

  lemma OtherStepPromised(s: Sys, step: Step)
    requires Programs(s) && KeyedTasks(s) && ReadsStored(s) && Promised(s) && Enabled(s, step)
    requires !step.Write? && !step.Dispatch?
    ensures Promised(Apply(s, step))
  {
    hide Transform, M.Apply, M.Enabled, Promising, Blocked, Programs, KeyedTasks;
    var s' := Apply(s, step);
    HistoryGrows(s, step);
    if w :| Promising(s, w) {
      PromiseKept(s, step, w);
    } else if Untasked(s) {
      assert Untasked(s');
    } else {
      forall a ensures HoldsProcessing(s', a) ==> HoldsProcessing(s, a) || Shows(s, Processing) {}
    }
  }

  // ---- when a task may give its write up ----

  /** The run manager's own invariant; nothing in the repository calls Cancel. */
  ghost predicate ManagerSound(s: Sys) {
    M.Inv(s.mgr) && forall i :: 0 <= i < |s.mgr.tasks| ==> !s.mgr.tasks[i].asked
  }

  /** A goroutine runs its deferred calls only after its task has returned. */
  ghost predicate Retired(s: Sys) {
    forall a :: a in s.procs && a.Task? && a.n < |s.mgr.tasks| && !M.Live(s.mgr.tasks[a.n]) ==> s.procs[a].pc == Ended
  }

  /** Only shutdown can have taken the newest task's write. */
  ghost predicate SkipsForCause(s: Sys) {
    forall t :: t in s.skipped ==>
      t < |s.mgr.tasks| && (M.Newest(s.mgr, t) && s.mgr.tasks[t].key == KEY ==> s.mgr.rootCancelled)
  }

  lemma StepManagerSound(s: Sys, step: Step)
    requires ManagerSound(s) && Enabled(s, step)
    ensures ManagerSound(Apply(s, step))
  {
    hide Transform, M.Inv, Blocked;
    if step.Manage? {
      M.StepInv(s.mgr, step.step);
      M.UnaskedStays(s.mgr, step.step);
    } else if step.Dispatch? {
      M.StepInv(s.mgr, M.Register(KEY));
      M.UnaskedStays(s.mgr, M.Register(KEY));
    }
  }

  lemma StepRetired(s: Sys, step: Step)
    requires Retired(s) && KeyedTasks(s) && Enabled(s, step)
    ensures Retired(Apply(s, step))
  {
    hide Transform, Blocked;
    if step.Manage? { M.OneTaskMoves(s.mgr, step.step); }
    if step.Dispatch? { M.OneTaskMoves(s.mgr, M.Register(KEY)); }
    hide M.Apply, M.Enabled;
  }

  lemma SkipHasCause(s: Sys, t: nat)
    requires ManagerSound(s) && Retired(s) && KeyedTasks(s) && Enabled(s, Skip(t)) && M.Newest(s.mgr, t)
    ensures s.mgr.rootCancelled
  {
    assert Task(t) in s.procs && s.procs[Task(t)].pc != Ended;
  }

  lemma StepSkips(s: Sys, step: Step)
    requires ManagerSound(s) && Retired(s) && KeyedTasks(s) && SkipsForCause(s) && Enabled(s, step)
    ensures SkipsForCause(Apply(s, step))
  {
    var s' := Apply(s, step);
    forall t | t in s'.skipped
      ensures t < |s'.mgr.tasks| && (M.Newest(s'.mgr, t) && s'.mgr.tasks[t].key == KEY ==> s'.mgr.rootCancelled)
    {
      if t in s.skipped {
        if step.Manage? { OldSkip(s, step.step, t); } else if step.Dispatch? { OldSkip(s, M.Register(KEY), t); }
      } else if M.Newest(s.mgr, t) {
        SkipHasCause(s, t);
      }
    }
  }

  lemma OldSkip(s: Sys, step: M.Step, t: nat)
    requires t < |s.mgr.tasks| && M.Enabled(s.mgr, step)
    requires M.Newest(s.mgr, t) && s.mgr.tasks[t].key == KEY ==> s.mgr.rootCancelled
    ensures var m := M.Apply(s.mgr, step);
      t < |m.tasks| && (M.Newest(m, t) && m.tasks[t].key == KEY ==> m.rootCancelled)
  {
    M.TasksStay(s.mgr, step);
    M.NewestStays(s.mgr, step, t);
  }

  /** A task that gave its write up or broke has nothing left to do but unlock. */
  ghost predicate LostDone(s: Sys) {
    forall t :: t in s.skipped + s.broken ==>
      && Task(t) in s.procs && (s.procs[Task(t)].pc == Closing || s.procs[Task(t)].pc == Ended)
      && (t in s.skipped ==> s.procs[Task(t)].change.Some? && s.procs[Task(t)].change.value.Reply?)
  }

  lemma SkipsReply(s: Sys, t: nat)
    requires Enabled(s, Skip(t))
    ensures Task(t) in s.procs && s.procs[Task(t)].change.Some? && s.procs[Task(t)].change.value.Reply?
  {
  }

  lemma StepLostDone(s: Sys, step: Step)
    requires Programs(s) && LostDone(s) && Enabled(s, step)
    ensures LostDone(Apply(s, step))
  {
    if step.Skip? { SkipsReply(s, step.t); }
    hide Transform, M.Apply, M.Enabled, M.Newest, Blocked, Program;
  }

  lemma StepStartPending(s: Sys, step: Step)
    requires Programs(s) && StartPending(s) && Enabled(s, step)
    ensures StartPending(Apply(s, step))
  {
    hide Transform, M.Apply, M.Enabled, M.Newest, Blocked, Program;
    var s' := Apply(s, step);
    if step.Create? {
      assert PendingDispatch(s', Handler(step.h));
    } else if step.Dispatch? {
      assert Task(|s.mgr.tasks|) in s'.procs;
    } else if a :| PendingDispatch(s, a) {
      KeepsPending(s, step, a);
    }
  }

  lemma KeepsPending(s: Sys, step: Step, a: Actor)
    requires Programs(s) && Enabled(s, step) && !step.Dispatch? && PendingDispatch(s, a)
    ensures PendingDispatch(Apply(s, step), a) || Apply(s, step).unstarted
  {
    hide Transform, M.Apply, M.Enabled, M.Newest, Blocked;
    assert Program(a, s.procs[a]);
  }

  ghost predicate Inv(s: Sys) {
    && Programs(s) && Exclusive(s) && KeyedTasks(s) && Promised(s)
    && ManagerSound(s) && Retired(s) && SkipsForCause(s) && LostDone(s) && StartPending(s) && ReadsStored(s)
  }

  lemma {:induction false} RunsKeepInv(steps: seq<Step>)
    requires Exec(steps).Some?
    ensures Inv(Exec(steps).value)
  {
    if steps == [] {
      M.InitialInv();
    } else {
      var s, step := Exec(steps[..|steps| - 1]).value, steps[|steps| - 1];
      RunsKeepInv(steps[..|steps| - 1]);
      hide Exec, Programs, Exclusive, KeyedTasks, Promised, ManagerSound, Retired, SkipsForCause, LostDone;
      hide StartPending, ReadsStored;
      StepPrograms(s, step);
      StepExclusive(s, step);
      StepKeyed(s, step);
      StepPromised(s, step);
      StepManagerSound(s, step);
      StepRetired(s, step);
      StepSkips(s, step);
      StepLostDone(s, step);
      StepStartPending(s, step);
      StepReadsStored(s, step);
    }
  }

  /** No Explorer run is ever stuck: whatever the interleaving, while the process is not
      shutting down, startRun has not failed between its writes and the run's newest task has
      not broken, a run that shows "processing" has a request about to dispatch a task, or its
      newest task is not cancelled and has its terminal write still before it. */
  lemma NeverStuck(steps: seq<Step>) returns (a: Actor)
    requires Exec(steps).Some? && Shows(Exec(steps).value, Processing) && !Exec(steps).value.mgr.rootCancelled
    requires var s := Exec(steps).value; !s.unstarted && forall t :: t in s.broken ==> !NewestTask(s, Task(t))
    ensures var s := Exec(steps).value;
      PendingDispatch(s, a) || (NewestTask(s, a) && Unsettled(s, a) && !M.ContextCancelled(s.mgr, a.n))
  {
    hide Exec, Promising, Programs, Exclusive;
    RunsKeepInv(steps);
    var s := Exec(steps).value;
    if Untasked(s) {
      a :| PendingDispatch(s, a);
    } else {
      a :| Promising(s, a);
      PromiseIs(s, a);
    }
  }

  lemma PromiseIs(s: Sys, a: Actor)
    requires Inv(s) && Promising(s, a) && !s.mgr.rootCancelled
    requires forall t :: t in s.broken ==> !NewestTask(s, Task(t))
    ensures PendingDispatch(s, a) || (NewestTask(s, a) && Unsettled(s, a) && !M.ContextCancelled(s.mgr, a.n))
  {
    hide Programs, Exclusive, Promised, M.Newest;
    if !PendingDispatch(s, a) {
      assert a == Task(a.n) && a.n !in s.skipped && a.n !in s.broken;
      assert M.CancelledForCause(s.mgr);
    }
  }

  /** Nobody is left to finish the run. */
  ghost predicate Stuck(s: Sys) {
    forall a :: !PendingDispatch(s, a) && !(NewestTask(s, a) && Unsettled(s, a))
  }

  /** The newest task of the run ends without its terminal write. */
  predicate LostWrite(s: Sys, t: nat) { (t in s.skipped || t in s.broken) && NewestTask(s, Task(t)) }

  /** A run that shows "processing" is stuck exactly when no request is about to dispatch and
      its newest task broke, or had its answer and gave the write up, or startRun failed
      between its writes and nothing was dispatched since. Only shutdown makes the newest
      task give its write up, and only that of a reply. */
  lemma StuckExact(steps: seq<Step>)
    requires Exec(steps).Some? && Shows(Exec(steps).value, Processing)
    ensures var s := Exec(steps).value;
      && (Stuck(s) <==> (forall a :: !PendingDispatch(s, a)) &&
                        ((exists t: nat :: LostWrite(s, t)) || (s.unstarted && Untasked(s))))
      && (forall t: nat :: LostWrite(s, t) && t in s.skipped ==>
            s.mgr.rootCancelled && s.procs[Task(t)].change.Some? && s.procs[Task(t)].change.value.Reply?)
  {
    hide Exec, Inv, Shows, Stuck, PendingDispatch, LostWrite, Untasked;
    RunsKeepInv(steps);
    var s := Exec(steps).value;
    if Stuck(s) { WhyStuck(s); }
    forall t: nat | LostWrite(s, t)
      ensures Stuck(s) || !(forall a :: !PendingDispatch(s, a))
      ensures Task(t) in s.procs
      ensures t in s.skipped ==>
        s.mgr.rootCancelled && s.procs[Task(t)].change.Some? && s.procs[Task(t)].change.value.Reply?
    {
      LostIsLost(s, t);
    }
    if Untasked(s) { UntaskedIsIdle(s); }
  }

  lemma WhyStuck(s: Sys)
    requires Inv(s) && Shows(s, Processing) && Stuck(s)
    ensures (forall a :: !PendingDispatch(s, a)) && ((exists t: nat :: LostWrite(s, t)) || (s.unstarted && Untasked(s)))
  {
    hide Programs, Exclusive, KeyedTasks, ManagerSound, Retired, SkipsForCause, LostDone, ReadsStored;
    if a :| Promising(s, a) {
      assert !PendingDispatch(s, a) && a == Task(a.n);
      assert LostWrite(s, a.n);
    }
  }

  lemma LostIsLost(s: Sys, t: nat)
    requires Inv(s) && LostWrite(s, t)
    ensures Stuck(s) <==> (forall a :: !PendingDispatch(s, a))
    ensures Task(t) in s.procs
    ensures t in s.skipped ==>
      s.mgr.rootCancelled && s.procs[Task(t)].change.Some? && s.procs[Task(t)].change.value.Reply?
  {
    hide Programs, Exclusive, Promised, ManagerSound, Retired, StartPending, ReadsStored, PendingDispatch, M.Newest;
    assert s.mgr.tasks[t].key == KEY by { assert Task(t) in s.procs; }
    OneNewestTask(s, Task(t));
  }

  lemma UntaskedIsIdle(s: Sys)
    requires Untasked(s)
    ensures Stuck(s) <==> (forall a :: !PendingDispatch(s, a))
  {
    hide PendingDispatch;
  }

  lemma OneNewestTask(s: Sys, a: Actor)
    requires KeyedTasks(s) && NewestTask(s, a)
    ensures forall b :: NewestTask(s, b) ==> b == a
  {
    forall b | NewestTask(s, b) ensures b == a { M.SameKeyNewest(s.mgr, b.n, a.n); }
  }

  /** The mutex is never held for good: its owner can always take its next step. */
  lemma OwnerCanStep(steps: seq<Step>) returns (step: Step)
    requires Exec(steps).Some? && Exec(steps).value.lock.HeldBy?
    ensures var s, a := Exec(steps).value, Exec(steps).value.lock.owner;
      && Enabled(s, step)
      && (step == Read(a) || step == Write(a) || step == Unlock(a)
          || (a.Task? && step == Skip(a.n)) || (a.Handler? && step == Dispatch(a.n)))
  {
    hide Exec, Promised, ManagerSound, Retired, SkipsForCause;
    RunsKeepInv(steps);
    var s := Exec(steps).value;
    var a := s.lock.owner;
    assert Program(a, s.procs[a]);
    match s.procs[a].pc
    case Locked => step := if Blocked(s, a) then Skip(a.n) else Read(a);
    case HasRead(_) => step := if Blocked(s, a) then Skip(a.n) else Write(a);
    case Wrote => step := Dispatch(a.n);
    case Closing => step := Unlock(a);
  }
}
