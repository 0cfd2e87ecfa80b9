/**
 The background run manager (internal/runmgr/runmgr.go). Every critical section, and every
 statement outside one, is one atomic step; a run is any legal interleaving of steps.
 A task's panic is recovered and ends in the same deferred steps as a return.
 */
module RunManager {
  import opened Results

  /** How far Start and the goroutine it launches have come for one task: the handle is
      registered; the wait group counts it; the deferred delete has run; the deferred
      cancel and Done have run. */
  datatype Phase = Starting | Running | Deregistered | Done

  /** A task with its context. `asked` records a Cancel call, `endedAt` how many tasks had
      been started when the deferred delete ran. */
  datatype Task = Task(key: string, phase: Phase, cancelled: bool, asked: bool, endedAt: nat)

  /** Tasks are numbered in the order in which Start registered them. */
  datatype State = State(tasks: seq<Task>, inflight: map<string, nat>, wait: int, rootCancelled: bool)

  datatype Step =
    | Register(key: string)   // Start: the section under the lock
    | Launch(task: nat)       // Start: wg.Add and go
    | Deregister(task: nat)   // deferred delete
    | Release(task: nat)      // deferred cancel and wg.Done
    | Cancel(task: nat)       // Cancel: call a handle that was in the map
    | CancelAll

  const INITIAL := State([], map[], 0, false)

  predicate Enabled(s: State, step: Step) {
    match step
    case Register(_) => true
    case Launch(i) => i < |s.tasks| && s.tasks[i].phase == Starting
    case Deregister(i) => i < |s.tasks| && s.tasks[i].phase == Running
    case Release(i) => i < |s.tasks| && s.tasks[i].phase == Deregistered
    case Cancel(i) => i < |s.tasks|
    case CancelAll => true
  }

  function Apply(s: State, step: Step): State
    requires Enabled(s, step)
  {
    match step
    case Register(key) =>
      var tasks := if key in s.inflight && s.inflight[key] < |s.tasks|
                   then s.tasks[s.inflight[key] := s.tasks[s.inflight[key]].(cancelled := true)] else s.tasks;
      s.(tasks := tasks + [Task(key, Starting, false, false, 0)], inflight := s.inflight[key := |s.tasks|])
    case Launch(i) => s.(tasks := s.tasks[i := s.tasks[i].(phase := Running)], wait := s.wait + 1)
    case Deregister(i) =>
      s.(tasks := s.tasks[i := s.tasks[i].(phase := Deregistered, endedAt := |s.tasks|)],
         inflight := s.inflight - {s.tasks[i].key})
    case Release(i) => s.(tasks := s.tasks[i := s.tasks[i].(phase := Done, cancelled := true)], wait := s.wait - 1)
    case Cancel(i) => s.(tasks := s.tasks[i := s.tasks[i].(cancelled := true, asked := true)])
    case CancelAll => s.(rootCancelled := true)
  }

  /** Where a sequence of steps leads from INITIAL, if the code allows it. */
  function Exec(steps: seq<Step>): Option<State> {
    if steps == [] then Some(INITIAL)
    else
      var before, step := Exec(steps[..|steps| - 1]), steps[|steps| - 1];
      if before.Some? && Enabled(before.value, step) then Some(Apply(before.value, step)) else None
  }

  predicate Live(t: Task) { t.phase == Starting || t.phase == Running }

  predicate Counted(t: Task) { t.phase == Running || t.phase == Deregistered }

  function WaitCount(tasks: seq<Task>): nat {
    if tasks == [] then 0 else WaitCount(tasks[..|tasks| - 1]) + if Counted(tasks[|tasks| - 1]) then 1 else 0
  }

  /** Task i is the most recently started one under its key. */
  predicate Newest(s: State, i: nat)
    requires i < |s.tasks|
  {
    forall j :: i < j < |s.tasks| ==> s.tasks[j].key != s.tasks[i].key
  }

  /** An older task under the same key removed the key after task i had started. */
  predicate Orphaned(s: State, i: nat)
    requires i < |s.tasks|
  {
    exists j :: 0 <= j < i && s.tasks[j].key == s.tasks[i].key && !Live(s.tasks[j]) && s.tasks[j].endedAt > i
  }

  /** A registered handle is that of the newest task under its key. */
  ghost predicate HandlesNewest(s: State) {
    forall k :: k in s.inflight ==>
      var i := s.inflight[k]; i < |s.tasks| && Newest(s, i) && s.tasks[i].key == k && Live(s.tasks[i])
  }

  /** The newest task under a key is registered exactly while it is live and no older task
      has removed the key since it started. */
  ghost predicate NewestHandled(s: State) {
    forall i: nat :: i < |s.tasks| && Newest(s, i) ==>
      (s.tasks[i].key in s.inflight <==> Live(s.tasks[i]) && !Orphaned(s, i))
  }

  /** A context is cancelled only by a newer start under the key, by Cancel, or at the end. */
  ghost predicate CancelledForCause(s: State) {
    forall i :: 0 <= i < |s.tasks| && s.tasks[i].cancelled ==>
      s.tasks[i].asked || s.tasks[i].phase == Done || !Newest(s, i)
  }

  ghost predicate EndsRecorded(s: State) {
    forall i :: 0 <= i < |s.tasks| ==> s.tasks[i].endedAt <= |s.tasks|
  }

  ghost predicate Inv(s: State) {
    && HandlesNewest(s) && NewestHandled(s) && CancelledForCause(s) && EndsRecorded(s)
    && s.wait == WaitCount(s.tasks)
  }

  lemma {:induction false} WaitCountUpdate(tasks: seq<Task>, i: nat, t: Task)
    requires i < |tasks|
    ensures WaitCount(tasks[i := t])
         == WaitCount(tasks) + (if Counted(t) then 1 else 0) - (if Counted(tasks[i]) then 1 else 0)
  {
    var last := |tasks| - 1;
    if i < last {
      assert tasks[i := t][..last] == tasks[..last][i := t];
      WaitCountUpdate(tasks[..last], i, t);
    } else {
      assert tasks[i := t][..last] == tasks[..last];
    }
  }

  lemma {:induction false} WaitCountHas(tasks: seq<Task>, i: nat)
    requires i < |tasks| && Counted(tasks[i])
    ensures WaitCount(tasks) > 0
  {
    if i < |tasks| - 1 { WaitCountHas(tasks[..|tasks| - 1], i); }
  }

  lemma WaitInv(s: State, step: Step)
    requires Inv(s) && Enabled(s, step)
    ensures Apply(s, step).wait == WaitCount(Apply(s, step).tasks)
  {
    hide WaitCount, HandlesNewest, NewestHandled, CancelledForCause;
    if step.Register? {
      RegisterWait(s, step.key);
    } else if !step.CancelAll? {
      WaitCountUpdate(s.tasks, step.task, Apply(s, step).tasks[step.task]);
    }
  }

  lemma RegisterWait(s: State, key: string)
    ensures WaitCount(Apply(s, Register(key)).tasks) == WaitCount(s.tasks)
  {
    var tasks := Apply(s, Register(key)).tasks;
    var n := |s.tasks|;
    if key in s.inflight && s.inflight[key] < n {
      var i := s.inflight[key];
      WaitCountUpdate(s.tasks, i, s.tasks[i].(cancelled := true));
      assert tasks[..n] == s.tasks[i := s.tasks[i].(cancelled := true)];
    } else {
      assert tasks[..n] == s.tasks;
    }
  }

  /** s and s' agree on the keys, the liveness and the end marks of the first n tasks. */
  predicate Agree(s: State, s': State, n: nat) {
    n <= |s.tasks| && n <= |s'.tasks| &&
    forall j :: 0 <= j < n ==>
      && s'.tasks[j].key == s.tasks[j].key
      && (Live(s'.tasks[j]) <==> Live(s.tasks[j]))
      && s'.tasks[j].endedAt == s.tasks[j].endedAt
  }

  lemma SameNewest(s: State, s': State, i: nat)
    requires |s'.tasks| == |s.tasks| && i < |s.tasks|
    requires forall j :: 0 <= j < |s.tasks| ==> s'.tasks[j].key == s.tasks[j].key
    ensures Newest(s', i) <==> Newest(s, i)
  {
    if Newest(s, i) {
      forall j | i < j < |s.tasks| ensures s'.tasks[j].key != s'.tasks[i].key {
        assert s.tasks[j].key != s.tasks[i].key;
      }
    }
    if Newest(s', i) {
      forall j | i < j < |s.tasks| ensures s.tasks[j].key != s.tasks[i].key {
        assert s'.tasks[j].key != s'.tasks[i].key;
      }
    }
  }

  lemma SameOrphaned(s: State, s': State, n: nat, i: nat)
    requires Agree(s, s', n) && i < n
    ensures Orphaned(s', i) <==> Orphaned(s, i)
  {
  }

  /** Steps that leave keys, liveness and the map alone: Launch, Release, Cancel. */
  lemma QuietStepInv(s: State, step: Step)
    requires Inv(s) && Enabled(s, step) && (step.Launch? || step.Release? || step.Cancel?)
    ensures var s' := Apply(s, step);
      HandlesNewest(s') && NewestHandled(s') && CancelledForCause(s') && EndsRecorded(s')
  {
    hide WaitCount, Newest, Orphaned;
    var s', n := Apply(s, step), |s.tasks|;
    assert Agree(s, s', n);
    forall i: nat | i < n
      ensures (Newest(s', i) <==> Newest(s, i)) && (Orphaned(s', i) <==> Orphaned(s, i))
    {
      SameNewest(s, s', i);
      SameOrphaned(s, s', n, i);
    }
  }

  /** The deferred delete takes the key away from whichever task holds it. */
  lemma DeregisterInv(s: State, i: nat)
    requires Inv(s) && Enabled(s, Deregister(i))
    ensures var s' := Apply(s, Deregister(i));
      HandlesNewest(s') && NewestHandled(s') && CancelledForCause(s') && EndsRecorded(s')
  {
    hide WaitCount, Newest, Orphaned;
    var s', n, key := Apply(s, Deregister(i)), |s.tasks|, s.tasks[i].key;
    forall j: nat | j < n ensures Newest(s', j) <==> Newest(s, j) { SameNewest(s, s', j); }
    forall j: nat | j < n && Newest(s, j)
      ensures s'.tasks[j].key in s'.inflight <==> Live(s'.tasks[j]) && !Orphaned(s', j)
    {
      if s.tasks[j].key == key {
        EndsNewest(s, s', i, j);
      } else {
        OtherKeyOrphaned(s, s', i, j);
      }
    }
  }

  /** If i ends, the newest task under its key is i itself or an orphan from now on. */
  lemma EndsNewest(s: State, s': State, i: nat, j: nat)
    requires Enabled(s, Deregister(i)) && s' == Apply(s, Deregister(i))
    requires j < |s.tasks| && s.tasks[j].key == s.tasks[i].key && Newest(s, j)
    ensures i == j || Orphaned(s', j)
  {
    if i < j { assert s'.tasks[i].endedAt > j && !Live(s'.tasks[i]) && s'.tasks[i].key == s'.tasks[j].key; }
  }

  lemma OtherKeyOrphaned(s: State, s': State, i: nat, j: nat)
    requires Enabled(s, Deregister(i)) && s' == Apply(s, Deregister(i))
    requires j < |s.tasks| && s.tasks[j].key != s.tasks[i].key
    ensures Orphaned(s', j) <==> Orphaned(s, j)
  {
    if Orphaned(s, j) {
      var h :| 0 <= h < j && s.tasks[h].key == s.tasks[j].key && !Live(s.tasks[h]) && s.tasks[h].endedAt > j;
      assert s'.tasks[h] == s.tasks[h];
    }
    if Orphaned(s', j) {
      var h :| 0 <= h < j && s'.tasks[h].key == s'.tasks[j].key && !Live(s'.tasks[h]) && s'.tasks[h].endedAt > j;
      assert s'.tasks[h] == s.tasks[h];
    }
  }

  lemma RegisterInv(s: State, key: string)
    requires Inv(s)
    ensures var s' := Apply(s, Register(key));
      HandlesNewest(s') && NewestHandled(s') && CancelledForCause(s') && EndsRecorded(s')
  {
    hide WaitCount, Newest, Orphaned;
    var s', n := Apply(s, Register(key)), |s.tasks|;
    assert Agree(s, s', n);
    forall i: nat | i < n
      ensures (Newest(s', i) <==> Newest(s, i) && s.tasks[i].key != key) && (Orphaned(s', i) <==> Orphaned(s, i))
    {
      OneMoreNewest(s, s', i);
      SameOrphaned(s, s', n, i);
    }
    FreshTask(s', n);
  }

  lemma OneMoreNewest(s: State, s': State, i: nat)
    requires |s'.tasks| == |s.tasks| + 1 && i < |s.tasks| && Agree(s, s', |s.tasks|)
    ensures Newest(s', i) <==> Newest(s, i) && s.tasks[i].key != s'.tasks[|s.tasks|].key
  {
    if Newest(s', i) {
      forall j | i < j < |s.tasks| ensures s.tasks[j].key != s.tasks[i].key {
        assert s'.tasks[j].key != s'.tasks[i].key;
      }
    }
  }

  lemma FreshTask(s: State, n: nat)
    requires |s.tasks| == n + 1 && forall j :: 0 <= j < n ==> s.tasks[j].endedAt <= n
    ensures Newest(s, n) && !Orphaned(s, n)
  {
  }

  lemma StepInv(s: State, step: Step)
    requires Inv(s) && Enabled(s, step)
    ensures Inv(Apply(s, step))
  {
    hide WaitCount, HandlesNewest, NewestHandled, CancelledForCause, EndsRecorded;
    WaitInv(s, step);
    match step
    case Register(key) => RegisterInv(s, key);
    case Deregister(i) => DeregisterInv(s, i);
    case CancelAll => CancelAllInv(s);
    case _ => QuietStepInv(s, step);
  }

  lemma CancelAllInv(s: State)
    requires Inv(s)
    ensures var s' := Apply(s, CancelAll);
      HandlesNewest(s') && NewestHandled(s') && CancelledForCause(s') && EndsRecorded(s')
  {
    hide WaitCount, Newest, Orphaned;
    var s' := Apply(s, CancelAll);
    forall i: nat | i < |s.tasks|
      ensures (Newest(s', i) <==> Newest(s, i)) && (Orphaned(s', i) <==> Orphaned(s, i))
    {
      SameNewest(s, s', i);
      SameOrphaned(s, s', |s.tasks|, i);
    }
  }

  /** The run manager invariant, over every interleaving of starts, ends and cancels. */
  lemma {:induction false} RunsKeepInv(steps: seq<Step>)
    requires Exec(steps).Some?
    ensures Inv(Exec(steps).value)
  {
    hide Inv;
    if steps == [] {
      InitialInv();
    } else {
      RunsKeepInv(steps[..|steps| - 1]);
      StepInv(Exec(steps[..|steps| - 1]).value, steps[|steps| - 1]);
    }
  }

  lemma InitialInv()
    ensures Inv(INITIAL)
  {
  }

  /** Tasks are never forgotten, and keep their keys. */
  lemma TasksStay(s: State, step: Step)
    requires Enabled(s, step)
    ensures var s' := Apply(s, step);
      && |s'.tasks| == |s.tasks| + (if step.Register? then 1 else 0)
      && (forall i :: 0 <= i < |s.tasks| ==> s'.tasks[i].key == s.tasks[i].key)
      && (step.Register? ==> s'.tasks[|s.tasks|].key == step.key)
  {
  }

  lemma UnaskedStays(s: State, step: Step)
    requires Enabled(s, step) && !step.Cancel? && forall i :: 0 <= i < |s.tasks| ==> !s.tasks[i].asked
    ensures var s' := Apply(s, step); forall i :: 0 <= i < |s'.tasks| ==> !s'.tasks[i].asked
  {
  }

  /** A task stops being live only at its own deferred delete. */
  lemma OneTaskMoves(s: State, step: Step)
    requires Enabled(s, step)
    ensures var s' := Apply(s, step);
      && |s.tasks| <= |s'.tasks|
      && (forall i :: 0 <= i < |s.tasks| && step != Deregister(i) ==> (Live(s'.tasks[i]) <==> Live(s.tasks[i])))
      && (forall i :: |s.tasks| <= i < |s'.tasks| ==> Live(s'.tasks[i]))
  {
  }

  /** Only a start under its own key makes a task older than the newest. */
  lemma NewestStays(s: State, step: Step, i: nat)
    requires Enabled(s, step) && i < |s.tasks|
    ensures i < |Apply(s, step).tasks|
    ensures Newest(Apply(s, step), i) <==> Newest(s, i) && step != Register(s.tasks[i].key)
  {
    TasksStay(s, step);
    var s', n := Apply(s, step), |s.tasks|;
    if Newest(s', i) {
      assert step.Register? ==> s'.tasks[n].key != s'.tasks[i].key;
      forall j | i < j < n ensures s.tasks[j].key != s.tasks[i].key { assert s'.tasks[j].key != s'.tasks[i].key; }
    }
    if Newest(s, i) && step != Register(s.tasks[i].key) {
      forall j | i < j < |s'.tasks| ensures s'.tasks[j].key != s'.tasks[i].key {
        if j < n { assert s.tasks[j].key != s.tasks[i].key; }
      }
    }
  }

  // ---- what the invariant gives ----

  /** Wait has returned and no Start is between its lock and its wg.Add: nothing is in
      flight, however the tasks ended. */
  lemma DrainedMeansEmpty(steps: seq<Step>)
    requires Exec(steps).Some?
    requires Exec(steps).value.wait == 0
    requires forall t :: t in Exec(steps).value.tasks ==> t.phase != Starting
    ensures Exec(steps).value.inflight == map[]
  {
    hide Exec;
    RunsKeepInv(steps);
    var s := Exec(steps).value;
    forall k | k in s.inflight ensures false {
      var i := s.inflight[k];
      assert s.tasks[i] in s.tasks;
      WaitCountHas(s.tasks, i);
    }
  }

  /** What ctx.Done reports to task i. */
  predicate ContextCancelled(s: State, i: nat)
    requires i < |s.tasks|
  {
    s.rootCancelled || s.tasks[i].cancelled
  }

  /** After CancelAll every context is cancelled, that of any task started later too. */
  lemma {:induction false} CancelAllReachesEveryTask(steps: seq<Step>, i: nat)
    requires Exec(steps).Some? && CancelAll in steps && i < |Exec(steps).value.tasks|
    ensures ContextCancelled(Exec(steps).value, i)
  {
    RootStaysCancelled(steps);
  }

  lemma {:induction false} RootStaysCancelled(steps: seq<Step>)
    requires Exec(steps).Some? && CancelAll in steps
    ensures Exec(steps).value.rootCancelled
  {
    var front, last := steps[..|steps| - 1], steps[|steps| - 1];
    if last != CancelAll {
      assert steps == front + [last];
      RootStaysCancelled(front);
    }
  }

  /** Before CancelAll, a task that is still the newest under its key and has not ended was
      not cancelled by anything but a Cancel call. */
  lemma NewestUncancelled(steps: seq<Step>, i: nat)
    requires Exec(steps).Some? && i < |Exec(steps).value.tasks| && Newest(Exec(steps).value, i)
    requires Exec(steps).value.tasks[i].phase != Done && !Exec(steps).value.tasks[i].asked
    requires !Exec(steps).value.rootCancelled
    ensures !ContextCancelled(Exec(steps).value, i)
  {
    hide Exec;
    RunsKeepInv(steps);
  }

  /** Starting a task cancels the live task it replaces exactly when no older task has
      removed the key since that one started. */
  lemma StartCancelsPrevious(steps: seq<Step>, i: nat)
    requires Exec(steps).Some? && i < |Exec(steps).value.tasks|
    requires var s := Exec(steps).value;
      Newest(s, i) && Live(s.tasks[i]) && !s.tasks[i].cancelled
    ensures var s := Exec(steps).value;
      Apply(s, Register(s.tasks[i].key)).tasks[i].cancelled <==> !Orphaned(s, i)
  {
    hide Exec, Newest, Orphaned;
    RunsKeepInv(steps);
    var s := Exec(steps).value;
    var key := s.tasks[i].key;
    if key in s.inflight {
      SameKeyNewest(s, s.inflight[key], i);
    }
  }

  lemma SameKeyNewest(s: State, i: nat, j: nat)
    requires i < |s.tasks| && j < |s.tasks| && s.tasks[i].key == s.tasks[j].key
    requires Newest(s, i) && Newest(s, j)
    ensures i == j
  {
  }

  /** The newest task started under the key is live, and no older one has removed the key
      since it started. */
  ghost predicate Reported(s: State, key: string) {
    exists i: nat :: i < |s.tasks| && NewestOf(s, key, i) && Live(s.tasks[i]) && !Orphaned(s, i)
  }

  predicate NewestOf(s: State, key: string, i: nat)
    requires i < |s.tasks|
  {
    s.tasks[i].key == key && Newest(s, i)
  }

  /** Some task under the key is executing. */
  ghost predicate Executing(s: State, key: string) {
    exists i :: 0 <= i < |s.tasks| && s.tasks[i].key == key && Live(s.tasks[i])
  }

  lemma RegisteredKey(s: State, key: string)
    requires Inv(s)
    ensures key in s.inflight <==> Reported(s, key)
  {
    hide Newest, Orphaned, Live, WaitCount, CancelledForCause, EndsRecorded;
    if key in s.inflight { assert NewestOf(s, key, s.inflight[key]); }
  }

  /** Inflight reports only keys under which a task is executing, and reports such a key
      exactly when its newest task is live and no older one removed the key since it started. */
  lemma ReportedKeys(steps: seq<Step>, key: string)
    requires Exec(steps).Some?
    ensures var s := Exec(steps).value;
      && (key in s.inflight ==> Executing(s, key))
      && (Executing(s, key) ==> (key in s.inflight <==> Reported(s, key)))
  {
    hide Exec, Newest, Orphaned;
    RunsKeepInv(steps);
    RegisteredKey(Exec(steps).value, key);
    hide Inv;
  }

  const LATE_END: seq<Step> :=
    [Register("k"), Launch(0), Register("k"), Launch(1), Deregister(0), Register("k")]

  /** The first task of LATE_END once the second one has replaced it. */
  const REPLACED: Task := Task("k", Running, true, false, 0)

  /** "At most one uncancelled task per key" fails: the second task loses its handle to the
      late end of the first, and the third start leaves it running. */
  lemma TwoUncancelledTasks()
    ensures Exec(LATE_END).Some?
    ensures var s := Exec(LATE_END).value;
      |s.tasks| == 3 && forall i :: 1 <= i < 3 ==> s.tasks[i].key == "k" && Live(s.tasks[i]) && !ContextCancelled(s, i)
  {
    ExecutingUnreported();
    hide Exec;
    ExecStep(LATE_END, 5, ENDED_LATE,
             State(ENDED_LATE.tasks + [Task("k", Starting, false, false, 0)], map["k" := 2], 2, false));
    assert LATE_END[..6] == LATE_END;
  }

  /** The state once the first task of LATE_END has ended. */
  const ENDED_LATE: State :=
    State([REPLACED.(phase := Deregistered, endedAt := 2), REPLACED.(cancelled := false)], map[], 2, false)

  /** "Inflight reports the runs currently executing" fails then: the second task executes. */
  lemma ExecutingUnreported()
    ensures Exec(LATE_END[..5]) == Some(ENDED_LATE)
    ensures Executing(ENDED_LATE, "k") && "k" !in ENDED_LATE.inflight
  {
    hide Exec;
    LateEndFirstHalf();
    var second := REPLACED.(cancelled := false);
    var s4 := State([REPLACED, second], map["k" := 1], 2, false);
    ExecStep(LATE_END, 3, State([REPLACED, second.(phase := Starting)], map["k" := 1], 1, false), s4);
    ExecStep(LATE_END, 4, s4, ENDED_LATE);
    assert ENDED_LATE.tasks[1].key == "k" && Live(ENDED_LATE.tasks[1]);
  }

  lemma LateEndFirstHalf()
    ensures Exec(LATE_END[..3])
         == Some(State([REPLACED, REPLACED.(phase := Starting, cancelled := false)], map["k" := 1], 1, false))
  {
    var task := REPLACED.(cancelled := false);
    var s1 := State([task.(phase := Starting)], map["k" := 0], 0, false);
    ExecStep(LATE_END, 0, INITIAL, s1);
    ExecStep(LATE_END, 1, s1, State([task], map["k" := 0], 1, false));
    ExecStep(LATE_END, 2, State([task], map["k" := 0], 1, false),
             State([REPLACED, task.(phase := Starting)], map["k" := 1], 1, false));
  }

  lemma ExecStep(steps: seq<Step>, n: nat, s: State, s': State)
    requires n < |steps| && Exec(steps[..n]) == Some(s) && Enabled(s, steps[n]) && Apply(s, steps[n]) == s'
    ensures Exec(steps[..n + 1]) == Some(s')
  {
    assert steps[..n + 1][..n] == steps[..n];
  }

  // ---- the object ----

  /** The Manager object. Its own fields are the map, the wait group's counter and the root
      context; `tasks` holds the contexts and goroutines it has created. */
  class Manager {
    var inflight: map<string, nat>
    var wait: int
    var rootCancelled: bool
    var tasks: seq<Task>

    function Snapshot(): State
      reads this
    {
      State(tasks, inflight, wait, rootCancelled)
    }

    constructor ()
      ensures Snapshot() == INITIAL
    {
      inflight, wait, rootCancelled, tasks := map[], 0, false, [];
    }

    /** Start, up to the unlock: cancel the handle found under the key, put the new one there. */
    method BeginStart(key: string) returns (task: nat)
      requires HandlesNewest(Snapshot())
      modifies this
      ensures Snapshot() == Apply(old(Snapshot()), Register(key))
      ensures task == |old(tasks)| && |tasks| == task + 1
      ensures inflight == old(inflight)[key := task] && wait == old(wait) && rootCancelled == old(rootCancelled)
      ensures tasks[task].key == key && !tasks[task].cancelled
      ensures forall i :: 0 <= i < task ==>
        tasks[i] == if key in old(inflight) && i == old(inflight)[key] then old(tasks)[i].(cancelled := true)
                    else old(tasks)[i]
    {
      task := |tasks|;
      if key in inflight {
        var previous := inflight[key];
        tasks := tasks[previous := tasks[previous].(cancelled := true)];
      }
      tasks := tasks + [Task(key, Starting, false, false, 0)];
      inflight := inflight[key := task];
    }

    /** Start, after the unlock. */
    method EndStart(task: nat)
      requires Enabled(Snapshot(), Launch(task))
      modifies this
      ensures Snapshot() == Apply(old(Snapshot()), Launch(task))
      ensures wait == old(wait) + 1 && inflight == old(inflight) && rootCancelled == old(rootCancelled)
      ensures tasks == old(tasks)[task := old(tasks)[task].(phase := Running)]
    {
      wait := wait + 1;
      tasks := tasks[task := tasks[task].(phase := Running)];
    }

    /** The goroutine's deferred delete, which does not look at whose handle it removes. */
    method Finish(task: nat)
      requires Enabled(Snapshot(), Deregister(task))
      modifies this
      ensures Snapshot() == Apply(old(Snapshot()), Deregister(task))
      ensures old(tasks)[task].key !in inflight && wait == old(wait) && rootCancelled == old(rootCancelled)
      ensures forall key :: key != old(tasks)[task].key ==>
        (key in inflight <==> key in old(inflight)) && (key in inflight ==> inflight[key] == old(inflight)[key])
      ensures |tasks| == |old(tasks)| && forall i :: 0 <= i < |tasks| ==> tasks[i].cancelled == old(tasks)[i].cancelled
    {
      inflight := inflight - {tasks[task].key};
      tasks := tasks[task := tasks[task].(phase := Deregistered, endedAt := |tasks|)];
    }

    /** The goroutine's deferred cancel and wg.Done. */
    method Retire(task: nat)
      requires Enabled(Snapshot(), Release(task))
      modifies this
      ensures Snapshot() == Apply(old(Snapshot()), Release(task))
      ensures wait == old(wait) - 1 && inflight == old(inflight) && rootCancelled == old(rootCancelled)
      ensures tasks == old(tasks)[task := old(tasks)[task].(phase := Done, cancelled := true)]
    {
      tasks := tasks[task := tasks[task].(phase := Done, cancelled := true)];
      wait := wait - 1;
    }

    /** Cancel(key): a key without a handle is ignored. */
    method CancelKey(key: string)
      requires HandlesNewest(Snapshot())
      modifies this
      ensures Snapshot() == if key in old(inflight) then Apply(old(Snapshot()), Cancel(old(inflight[key])))
                            else old(Snapshot())
      ensures inflight == old(inflight) && wait == old(wait) && rootCancelled == old(rootCancelled)
      ensures |tasks| == |old(tasks)|
      ensures forall i :: 0 <= i < |tasks| ==>
        tasks[i].cancelled == (old(tasks)[i].cancelled || (key in old(inflight) && i == old(inflight)[key]))
    {
      if key in inflight {
        var i := inflight[key];
        tasks := tasks[i := tasks[i].(cancelled := true, asked := true)];
      }
    }

    method StopAll()
      modifies this
      ensures Snapshot() == Apply(old(Snapshot()), CancelAll)
      ensures rootCancelled && tasks == old(tasks) && inflight == old(inflight) && wait == old(wait)
    {
      rootCancelled := true;
    }

    /** Inflight: the keys under which something is executing, but for those whose newest
        task has ended or lost its handle. */
    method Inflight() returns (keys: set<string>)
      requires Inv(Snapshot())
      ensures forall key :: key in keys <==> Reported(Snapshot(), key)
    {
      forall key ensures key in inflight <==> Reported(Snapshot(), key) { RegisteredKey(Snapshot(), key); }
      keys := inflight.Keys;
    }
  }
}
