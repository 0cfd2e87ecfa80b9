/** Concrete inputs on which natural claims about Explorer runs fail
    (internal/explorer/service.go). */
module ExplorerExamples {
  import opened Results
  import opened ExplorerState
  import opened ExplorerProtocol
  import opened ExplorerHistory
  import opened ExplorerProgress
  import M = RunManager

  // ---- a run under way ----

  /** A run is started and its task runs. */
  const STARTED_RUN: seq<Step> :=
    [Create(0, 1, "question"), Write(Handler(0)), Dispatch(0), Manage(M.Launch(0))]

  const CREATED: seq<Stored> := [Stored(NewRecord(1, "question"), None, 0)]

  const ASKED: seq<Stored> := CREATED + [Written(CREATED, AssignId(RUN_ID), 0)]

  const STARTER := Proc(Some(AssignId(RUN_ID)), Ended)

  const RUNNING := M.State([M.Task(KEY, M.Running, false, false, 0)], map[KEY := 0], 1, false)

  /** A state in which one task has been started and nothing has gone wrong. */
  function Standing(history: seq<Stored>, lock: Lock, procs: map<Actor, Proc>): Sys {
    Sys(history, lock, procs, RUNNING, {}, {}, false)
  }

  lemma ExecStep(steps: seq<Step>, n: nat, s: Sys, s': Sys)
    requires n < |steps| && Exec(steps[..n]) == Some(s) && Enabled(s, steps[n]) && Apply(s, steps[n]) == s'
    ensures Exec(steps[..n + 1]) == Some(s')
  {
    assert steps[..n + 1][..n] == steps[..n];
  }

  const CREATED_STATE: Sys :=
    INITIAL.(history := ASKED, procs := map[Handler(0) := STARTER.(pc := Wrote)])

  lemma RunStored()
    ensures Exec(STARTED_RUN[..2]) == Some(CREATED_STATE)
  {
    hide Exec, Transform, NewRecord;
    var s1 := INITIAL.(history := CREATED, procs := map[Handler(0) := STARTER.(pc := HasRead(0))]);
    assert Exec(STARTED_RUN[..0]) == Some(INITIAL) by { NothingDone(); }
    ExecStep(STARTED_RUN, 0, INITIAL, s1);
    ExecStep(STARTED_RUN, 1, s1, CREATED_STATE);
  }

  lemma Started()
    ensures Exec(STARTED_RUN) == Some(Standing(ASKED, Free, map[Handler(0) := STARTER, Task(0) := Proc(None, Begun)]))
  {
    RunStored();
    hide Exec, Transform, NewRecord;
    var mgr := M.State([M.Task(KEY, M.Starting, false, false, 0)], map[KEY := 0], 0, false);
    var s3 := CREATED_STATE.(procs := map[Handler(0) := STARTER, Task(0) := Proc(None, Begun)], mgr := mgr);
    ExecStep(STARTED_RUN, 2, CREATED_STATE, s3);
    ExecStep(STARTED_RUN, 3, s3, s3.(mgr := RUNNING));
    assert STARTED_RUN[..4] == STARTED_RUN;
  }

  lemma NothingDone()
    ensures Exec([]) == Some(INITIAL)
  {
  }

  /** A process that takes the mutex reads the last value and writes its change, if nothing
      comes between. */
  lemma LockedTurn(steps: seq<Step>, n: nat, s: Sys, a: Actor) returns (s': Sys)
    requires n + 3 <= |steps| && Exec(steps[..n]) == Some(s)
    requires steps[n] == Acquire(a) && steps[n + 1] == Read(a) && steps[n + 2] == Write(a)
    requires At(s, a, Begun) && TakesLock(s.procs[a].change.value)
    requires s.lock == Free && s.history != [] && !Blocked(s, a)
    ensures Exec(steps[..n + 3]) == Some(s')
    ensures var change, last := s.procs[a].change.value, |s.history| - 1;
      s' == s.(history := s.history + [Written(s.history, change, last)], lock := HeldBy(a),
               procs := s.procs[a := Proc(Some(change), if Dispatches(change) then Wrote else Closing)])
  {
    hide Exec, Transform, M.ContextCancelled, Dispatches;
    var change, last := s.procs[a].change.value, |s.history| - 1;
    var locked := s.(lock := HeldBy(a), procs := s.procs[a := Proc(Some(change), Locked)]);
    var read := locked.(procs := s.procs[a := Proc(Some(change), HasRead(last))]);
    s' := s.(history := s.history + [Written(s.history, change, last)], lock := HeldBy(a),
             procs := s.procs[a := Proc(Some(change), if Dispatches(change) then Wrote else Closing)]);
    ExecStep(steps, n, s, locked);
    ExecStep(steps, n + 1, locked, read);
    ExecStep(steps, n + 2, read, s');
  }

  // ---- an empty answer ----

  const GIVE_UP: Change := Update(UserInputResponse(""))

  /** An empty answer is given while the first reply is in flight. */
  const EMPTY_ANSWER: seq<Step> :=
    STARTED_RUN + [Arrive(1, GIVE_UP), Acquire(Handler(1)), Read(Handler(1)), Write(Handler(1))]

  /** "Completed implies nothing loading" fails for an empty answer given while a reply is in
      flight. */
  lemma EmptyAnswerKeepsLoading()
    ensures Exec(EMPTY_ANSWER).Some?
    ensures var h := Exec(EMPTY_ANSWER).value.history;
      && |h| == 3 && h[2].change == Some(GIVE_UP)
      && h[2].record.state.status == Completed && !Settled(h[2].record)
  {
    Started();
    hide Exec, Transform, NewRecord;
    assert EMPTY_ANSWER[..4] == STARTED_RUN && EMPTY_ANSWER[..8] == EMPTY_ANSWER;
    var procs := map[Handler(0) := STARTER, Task(0) := Proc(None, Begun)];
    var arrived := Standing(ASKED, Free, procs[Handler(1) := Proc(Some(GIVE_UP), Begun)]);
    ExecStep(EMPTY_ANSWER, 4, Standing(ASKED, Free, procs), arrived);
    var end := LockedTurn(EMPTY_ANSWER, 5, arrived, Handler(1));
    GivenUp();
  }

  lemma GivenUp()
    ensures var r := Transform(ASKED[1].record, GIVE_UP, RUN_ID); r.state.status == Completed && !Settled(r)
  {
    assert Transform(ASKED[1].record, GIVE_UP, RUN_ID).state.blocks[1].loading;
  }

  // ---- a cleared reason ----

  const FAILED: Change := Failure("timeout")

  const RECORD_PR: Change := Update(CreatePR("repo"))

  /** The model call fails, then a pull request is recorded. */
  const CLEARED_REASON: seq<Step> :=
    STARTED_RUN +
    [Answer(0, FAILED), Acquire(Task(0)), Read(Task(0)), Write(Task(0)), Unlock(Task(0)),
     Arrive(1, RECORD_PR), Acquire(Handler(1)), Read(Handler(1)), Write(Handler(1))]

  const FAILED_RUN: seq<Stored> := ASKED + [Written(ASKED, FAILED, 1)]

  lemma RunFails()
    ensures Exec(CLEARED_REASON[..9])
         == Some(Standing(FAILED_RUN, Free, map[Handler(0) := STARTER, Task(0) := Proc(Some(FAILED), Ended)]))
  {
    Started();
    hide Exec, Transform, NewRecord;
    assert CLEARED_REASON[..4] == STARTED_RUN;
    var waiting := map[Handler(0) := STARTER, Task(0) := Proc(None, Begun)];
    var answered := Standing(ASKED, Free, map[Handler(0) := STARTER, Task(0) := Proc(Some(FAILED), Begun)]);
    ExecStep(CLEARED_REASON, 4, Standing(ASKED, Free, waiting), answered);
    var failed := LockedTurn(CLEARED_REASON, 5, answered, Task(0));
    ExecStep(CLEARED_REASON, 8, failed,
             Standing(FAILED_RUN, Free, map[Handler(0) := STARTER, Task(0) := Proc(Some(FAILED), Ended)]));
  }

  /** "Error implies a reason" fails: a create_pr update of a failed run clears the reason and
      leaves the status. */
  lemma UpdateClearsReason()
    ensures Exec(CLEARED_REASON).Some?
    ensures var h := Exec(CLEARED_REASON).value.history;
      && |h| == 4 && h[2].change == Some(FAILED) && h[3].change == Some(RECORD_PR)
      && h[2].record.state.failureReason == Some("timeout")
      && h[3].record.state.status == Error && h[3].record.state.failureReason == None
  {
    RunFails();
    hide Exec, Transform, NewRecord;
    assert CLEARED_REASON[..13] == CLEARED_REASON;
    var procs := map[Handler(0) := STARTER, Task(0) := Proc(Some(FAILED), Ended)];
    var arrived := Standing(FAILED_RUN, Free, procs[Handler(1) := Proc(Some(RECORD_PR), Begun)]);
    ExecStep(CLEARED_REASON, 9, Standing(FAILED_RUN, Free, procs), arrived);
    var end := LockedTurn(CLEARED_REASON, 10, arrived, Handler(1));
    ReasonCleared();
  }

  lemma ReasonCleared()
    ensures Transform(ASKED[1].record, FAILED, RUN_ID).state.failureReason == Some("timeout")
    ensures var r := Transform(Transform(ASKED[1].record, FAILED, RUN_ID), RECORD_PR, RUN_ID);
      r.state.status == Error && r.state.failureReason == None
  {
  }

  // ---- overlapping turns ----

  /** A second question is asked and answered while the first reply is still awaited. */
  const OVERLAPPING: seq<Step> :=
    STARTED_RUN +
    [Arrive(1, MORE), Read(Handler(1)), Write(Handler(1)), Dispatch(1), Manage(M.Launch(1)),
     Answer(1, ANSWER), Acquire(Task(1)), Read(Task(1)), Write(Task(1))]

  const TWICE_ASKED: seq<Stored> := ASKED + [Written(ASKED, MORE, 1)]

  /** The second start has cancelled the first task. */
  const SECOND_RUNNING := M.State(
    [M.Task(KEY, M.Running, true, false, 0), M.Task(KEY, M.Running, false, false, 0)], map[KEY := 1], 2, false)

  lemma SecondAsks()
    ensures Exec(OVERLAPPING[..7])
         == Some(Standing(TWICE_ASKED, Free, Cast(Wrote, Proc(None, Begun))))
  {
    Started();
    hide Exec, Transform, NewRecord;
    assert OVERLAPPING[..4] == STARTED_RUN;
    var s4 := Standing(ASKED, Free, map[Handler(0) := STARTER, Task(0) := Proc(None, Begun)]);
    var s5 := Standing(ASKED, Free, Cast(Begun, Proc(None, Begun)));
    var s6 := Standing(ASKED, Free, Cast(HasRead(1), Proc(None, Begun)));
    ExecStep(OVERLAPPING, 4, s4, s5);
    ExecStep(OVERLAPPING, 5, s5, s6);
    ExecStep(OVERLAPPING, 6, s6, Standing(TWICE_ASKED, Free, Cast(Wrote, Proc(None, Begun))));
  }

  /** The two requests, the first task and the second one. */
  function SecondCast(task: Proc): map<Actor, Proc> { Cast(Ended, Proc(None, Begun))[Task(1) := task] }

  lemma SecondStarts()
    ensures Exec(OVERLAPPING[..8])
         == Some(Sys(TWICE_ASKED, Free, SecondCast(Proc(None, Begun)), SECOND_STARTING, {}, {}, false))
  {
    SecondAsks();
    hide Exec, Transform, NewRecord;
    ExecStep(OVERLAPPING, 7, Standing(TWICE_ASKED, Free, Cast(Wrote, Proc(None, Begun))),
             Sys(TWICE_ASKED, Free, SecondCast(Proc(None, Begun)), SECOND_STARTING, {}, {}, false));
  }

  const SECOND_STARTING: M.State := M.State(
    [M.Task(KEY, M.Running, true, false, 0), M.Task(KEY, M.Starting, false, false, 0)], map[KEY := 1], 1, false)

  lemma SecondRuns()
    ensures Exec(OVERLAPPING[..10])
         == Some(Sys(TWICE_ASKED, Free, SecondCast(Proc(Some(ANSWER), Begun)), SECOND_RUNNING, {}, {}, false))
  {
    SecondStarts();
    hide Exec, Transform, NewRecord, Cast;
    var s8 := Sys(TWICE_ASKED, Free, SecondCast(Proc(None, Begun)), SECOND_STARTING, {}, {}, false);
    var s9 := s8.(mgr := SECOND_RUNNING);
    ExecStep(OVERLAPPING, 8, s8, s9);
    ExecStep(OVERLAPPING, 9, s9, s9.(procs := SecondCast(Proc(Some(ANSWER), Begun))));
  }

  /** "Completed implies nothing loading" fails for overlapping turns. */
  lemma OverlappingTurnsKeepLoading()
    ensures Exec(OVERLAPPING).Some?
    ensures var h := Exec(OVERLAPPING).value.history;
      && |h| == 4 && h[2].change == Some(MORE) && h[3].change == Some(ANSWER)
      && !ReadsClean(h[1].record, MORE)
      && h[3].record.state.status == Completed && !Settled(h[3].record)
  {
    SecondRuns();
    hide Exec, Transform, NewRecord;
    assert OVERLAPPING[..13] == OVERLAPPING;
    var s10 := Sys(TWICE_ASKED, Free, SecondCast(Proc(Some(ANSWER), Begun)), SECOND_RUNNING, {}, {}, false);
    var end := LockedTurn(OVERLAPPING, 10, s10, Task(1));
    FirstStillLoads();
  }

  lemma FirstStillLoads()
    ensures !ReadsClean(ASKED[1].record, MORE)
    ensures var r := Transform(Transform(ASKED[1].record, MORE, RUN_ID), ANSWER, RUN_ID);
      r.state.status == Completed && !Settled(r)
  {
    var asked := ASKED[1].record;
    var blocks := AppendTurn(asked.state.blocks, "more");
    assert asked.state.blocks[1].loading && blocks[1] == asked.state.blocks[1];
    assert |blocks| == 4 && blocks[3].loading && LastLoading(blocks) == 3;
    assert Transform(Transform(asked, MORE, RUN_ID), ANSWER, RUN_ID).state.blocks[1].loading;
  }

  // ---- a lost reply ----

  /** A continueRun reads the run, the first reply lands, the continueRun writes. */
  const LOST_REPLY: seq<Step> :=
    STARTED_RUN +
    [Arrive(1, MORE), Read(Handler(1)), Answer(0, ANSWER),
     Acquire(Task(0)), Read(Task(0)), Write(Task(0)), Unlock(Task(0)), Write(Handler(1))]

  const MORE: Change := Continue("more", None)

  const ANSWER: Change := Reply("answer")

  const ANSWERED: seq<Stored> := ASKED + [Written(ASKED, ANSWER, 1)]

  /** The two requests and the task of LOST_REPLY. */
  function Cast(more: Pc, task: Proc): map<Actor, Proc> {
    map[Handler(0) := STARTER, Handler(1) := Proc(Some(MORE), more), Task(0) := task]
  }

  lemma MoreReads()
    ensures Exec(LOST_REPLY[..7]) == Some(Standing(ASKED, Free, Cast(HasRead(1), Proc(Some(ANSWER), Begun))))
  {
    Started();
    hide Exec, Transform, NewRecord;
    var s4 := Standing(ASKED, Free, map[Handler(0) := STARTER, Task(0) := Proc(None, Begun)]);
    var s5 := Standing(ASKED, Free, Cast(Begun, Proc(None, Begun)));
    var s6 := Standing(ASKED, Free, Cast(HasRead(1), Proc(None, Begun)));
    assert LOST_REPLY[..4] == STARTED_RUN;
    ExecStep(LOST_REPLY, 4, s4, s5);
    ExecStep(LOST_REPLY, 5, s5, s6);
    ExecStep(LOST_REPLY, 6, s6, Standing(ASKED, Free, Cast(HasRead(1), Proc(Some(ANSWER), Begun))));
  }

  lemma ReplyLands()
    ensures Exec(LOST_REPLY[..11]) == Some(Standing(ANSWERED, Free, Cast(HasRead(1), Proc(Some(ANSWER), Ended))))
  {
    MoreReads();
    hide Exec, Transform, NewRecord;
    var asked := Standing(ASKED, Free, Cast(HasRead(1), Proc(Some(ANSWER), Begun)));
    var answered := LockedTurn(LOST_REPLY, 7, asked, Task(0));
    ExecStep(LOST_REPLY, 10, answered, Standing(ANSWERED, Free, Cast(HasRead(1), Proc(Some(ANSWER), Ended))));
  }

  predicate Says(r: Record, content: string) {
    exists i :: 0 <= i < |r.state.blocks| && r.state.blocks[i].content == content
  }

  /** A stored reply can be lost: value 2 has it, and value 3, written by a continueRun that
      had read value 1, overwrites it. */
  lemma ReplyLost()
    ensures Exec(LOST_REPLY).Some?
    ensures var h := Exec(LOST_REPLY).value.history;
      && |h| == 4 && h[2].change == Some(ANSWER) && h[3].change == Some(MORE)
      && Overwrites(h, 3, 2) && WroteUnlocked(h, 3)
      && Says(h[2].record, "answer") && !Says(h[3].record, "answer")
  {
    ReplyLands();
    hide Exec, Transform, NewRecord;
    var s11 := Standing(ANSWERED, Free, Cast(HasRead(1), Proc(Some(ANSWER), Ended)));
    var h := ANSWERED + [Written(ANSWERED, MORE, 1)];
    assert LOST_REPLY[..12] == LOST_REPLY;
    ExecStep(LOST_REPLY, 11, s11, Standing(h, Free, Cast(Wrote, Proc(Some(ANSWER), Ended))));
    WhatIsSaid();
  }

  lemma WhatIsSaid()
    ensures Says(Transform(ASKED[1].record, ANSWER, RUN_ID), "answer")
    ensures !Says(Transform(ASKED[1].record, MORE, RUN_ID), "answer")
  {
    var blocks := ASKED[1].record.state.blocks;
    assert |blocks| == 2 && LastLoading(blocks) == 1;
    assert Transform(ASKED[1].record, ANSWER, RUN_ID).state.blocks[1].content == "answer";
    assert "question" != "answer" && "more" != "answer" by {
      assert "question"[0] != "answer"[0] && "more"[0] != "answer"[0];
    }
  }

  // ---- the shutdown race ----

  /** The reply arrives, the process begins to shut down, and completeRun's first store call
      then sees the cancelled context. */
  const SHUTDOWN_RACE: seq<Step> :=
    STARTED_RUN + [Answer(0, ANSWER), Manage(M.CancelAll), Acquire(Task(0)), Skip(0), Unlock(Task(0))]

  function Stopping(lock: Lock, task: Pc, skipped: set<nat>): Sys {
    Sys(ASKED, lock, map[Handler(0) := STARTER, Task(0) := Proc(Some(ANSWER), task)], RUNNING.(rootCancelled := true),
        skipped, {}, false)
  }

  lemma ShutdownBegins()
    ensures Exec(SHUTDOWN_RACE[..6]) == Some(Stopping(Free, Begun, {}))
  {
    Started();
    hide Exec, Transform, NewRecord;
    var s4 := Standing(ASKED, Free, map[Handler(0) := STARTER, Task(0) := Proc(None, Begun)]);
    var s5 := Standing(ASKED, Free, map[Handler(0) := STARTER, Task(0) := Proc(Some(ANSWER), Begun)]);
    assert SHUTDOWN_RACE[..4] == STARTED_RUN;
    ExecStep(SHUTDOWN_RACE, 4, s4, s5);
    ExecStep(SHUTDOWN_RACE, 5, s5, Stopping(Free, Begun, {}));
  }

  lemma ShutdownEnds()
    ensures Exec(SHUTDOWN_RACE) == Some(Stopping(Free, Ended, {0}))
  {
    ShutdownBegins();
    hide Exec, Transform, NewRecord, M.Apply, M.Enabled;
    ExecStep(SHUTDOWN_RACE, 6, Stopping(Free, Begun, {}), Stopping(HeldBy(Task(0)), Locked, {}));
    ExecStep(SHUTDOWN_RACE, 7, Stopping(HeldBy(Task(0)), Locked, {}), Stopping(HeldBy(Task(0)), Closing, {0}));
    ExecStep(SHUTDOWN_RACE, 8, Stopping(HeldBy(Task(0)), Closing, {0}), Stopping(Free, Ended, {0}));
    assert SHUTDOWN_RACE[..9] == SHUTDOWN_RACE;
  }

  lemma AskedIsProcessing()
    ensures ASKED[1].record.state.status == Processing
  {
  }

  /** "A run in flight at shutdown persists a terminal state" fails: the run shows
      "processing", and neither its only request nor its only task has a step left. */
  lemma ShutdownStrandsRun()
    ensures Exec(SHUTDOWN_RACE).Some?
    ensures var s := Exec(SHUTDOWN_RACE).value;
      Shows(s, Processing) && Stuck(s) && forall a :: a in s.procs ==> s.procs[a].pc == Ended
  {
    ShutdownEnds();
    AskedIsProcessing();
    hide Exec, Transform, NewRecord;
  }
}
