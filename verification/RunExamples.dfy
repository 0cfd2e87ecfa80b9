/** A run of an investigation, statement by statement, on which the workflow version goes down
    (internal/runs/service.go, internal/investigations/service.go). */
module RunExamples {
  import opened Results
  import opened RunStore
  import opened RunProtocol
  import I = Investigations

  /** advanceTask has its answer and has read the run for its UpdateProjection; a command is
      accepted; the two projections are written; another command is recorded. */
  const STALE_WRITE: seq<Step> :=
    [Create(I.TEMPLATE), Arrive(0, Advance), Read(0), Answer(0, Some("plan"), ""), Read(0)] +
    [Arrive(1, FIRST), Ensure(1), Read(1), Check(1), Append(1), Write(1)] +
    [Write(0), Read(1), Write(1)] +
    [Arrive(2, SECOND), Ensure(2), Read(2), Check(2), Append(2)]

  const FIRST := Command("a", 0, "look")
  const SECOND := Command("b", 0, "look again")

  /** The rows stored in the course of it. */
  const ROW1 := I.TEMPLATE.(version := 2)
  const ROW2 := I.TEMPLATE.(result := I.Advanced(I.TEMPLATE, "plan"))
  const ROW3 := I.TEMPLATE.(result := I.WithCommand(map[], "look", 2))

  const CREATED: seq<Stored> := [Stored(I.TEMPLATE, None, 0)]
  const COMMANDED: seq<Stored> := CREATED + [Stored(ROW1, Some(FIRST), 0)]
  const STALE: seq<Stored> := COMMANDED + [Stored(ROW2, Some(Project(ROW2.result, 0)), 0)]
  const AHEAD: seq<Stored> := STALE + [Stored(ROW3, Some(Project(ROW3.result, 1)), 2)]

  function Standing(row: Row, commands: map<(int, string), int>, history: seq<Stored>, workers: map<nat, Worker>): Sys {
    Sys(Db(map[ID := row], 1, commands), history, workers)
  }

  const PLANNING := Worker(Project(ROW2.result, 0), HasRead(I.TEMPLATE, 0))

  lemma Planned()
    ensures Exec(START, STALE_WRITE[..5]) == Some(Standing(I.TEMPLATE, map[], CREATED, map[0 := PLANNING]))
  {
    hide Exec, I.Advanced;
    Unmoved(START);
    assert STALE_WRITE[..0] == [];
    var s1 := Standing(I.TEMPLATE, map[], CREATED, map[]);
    var s2 := s1.(workers := map[0 := Worker(Advance, Begun)]);
    var s3 := s1.(workers := map[0 := Worker(Advance, Waiting(I.TEMPLATE, 0))]);
    var s4 := s1.(workers := map[0 := PLANNING.(pc := Begun)]);
    ExecStep(START, STALE_WRITE, 0, START, s1);
    ExecStep(START, STALE_WRITE, 1, s1, s2);
    ExecStep(START, STALE_WRITE, 2, s2, s3);
    ExecStep(START, STALE_WRITE, 3, s3, s4);
    ExecStep(START, STALE_WRITE, 4, s4, s1.(workers := map[0 := PLANNING]));
  }

  /** While the first command runs. */
  function Commanding(pc: Pc): Sys {
    Standing(I.TEMPLATE, map[], CREATED, map[0 := PLANNING, 1 := Worker(FIRST, pc)])
  }

  lemma CommandBegins()
    ensures Exec(START, STALE_WRITE[..8]) == Some(Commanding(HasRead(I.TEMPLATE, 0)))
  {
    Planned();
    hide Exec, I.Advanced, I.WithCommand;
    ExecStep(START, STALE_WRITE, 5, Standing(I.TEMPLATE, map[], CREATED, map[0 := PLANNING]), Commanding(Begun));
    ExecStep(START, STALE_WRITE, 6, Commanding(Begun), Commanding(Present));
    ExecStep(START, STALE_WRITE, 7, Commanding(Present), Commanding(HasRead(I.TEMPLATE, 0)));
  }

  lemma Commanded()
    ensures Exec(START, STALE_WRITE[..11]) == Some(COMMAND_DONE)
  {
    CommandBegins();
    hide Exec, I.Advanced, I.WithCommand;
    var s10 := Standing(I.TEMPLATE, map[(ID, "a") := 2], CREATED,
                        map[0 := PLANNING, 1 := Worker(FIRST, Appended(I.TEMPLATE, 0))]);
    ExecStep(START, STALE_WRITE, 8, Commanding(HasRead(I.TEMPLATE, 0)), Commanding(Checked(I.TEMPLATE, 0)));
    ExecStep(START, STALE_WRITE, 9, Commanding(Checked(I.TEMPLATE, 0)), s10);
    ExecStep(START, STALE_WRITE, 10, s10, COMMAND_DONE);
  }

  const COMMAND_DONE :=
    Standing(ROW1, map[(ID, "a") := 2], COMMANDED, map[0 := PLANNING, 1 := Worker(Project(ROW3.result, 1), Begun)])

  const STALE_DONE := Standing(ROW2, map[(ID, "a") := 2], STALE, map[1 := Worker(Project(ROW3.result, 1), Begun)])

  lemma Staled()
    ensures Exec(START, STALE_WRITE[..12]) == Some(STALE_DONE)
  {
    Commanded();
    hide Exec, I.Advanced, I.WithCommand;
    ExecStep(START, STALE_WRITE, 11, COMMAND_DONE, STALE_DONE);
  }

  lemma Overwritten()
    ensures Exec(START, STALE_WRITE[..14]) == Some(Standing(ROW3, map[(ID, "a") := 2], AHEAD, map[]))
  {
    Staled();
    hide Exec, I.Advanced, I.WithCommand;
    var read := STALE_DONE.(workers := map[1 := Worker(Project(ROW3.result, 1), HasRead(ROW2, 2))]);
    ExecStep(START, STALE_WRITE, 12, STALE_DONE, read);
    ExecStep(START, STALE_WRITE, 13, read, Standing(ROW3, map[(ID, "a") := 2], AHEAD, map[]));
  }

  /** While the second command runs. */
  function Repeating(pc: Pc): Sys {
    Standing(ROW3, map[(ID, "a") := 2], AHEAD, map[2 := Worker(SECOND, pc)])
  }

  lemma SecondReads()
    ensures Exec(START, STALE_WRITE[..17]) == Some(Repeating(HasRead(ROW3, 3)))
  {
    Overwritten();
    hide Exec, I.Advanced, I.WithCommand;
    ExecStep(START, STALE_WRITE, 14, Standing(ROW3, map[(ID, "a") := 2], AHEAD, map[]), Repeating(Begun));
    ExecStep(START, STALE_WRITE, 15, Repeating(Begun), Repeating(Present));
    ExecStep(START, STALE_WRITE, 16, Repeating(Present), Repeating(HasRead(ROW3, 3)));
  }

  lemma Recorded()
    ensures Exec(START, STALE_WRITE) == Some(ALL_DONE)
  {
    SecondReads();
    hide Exec, I.Advanced, I.WithCommand;
    assert (ID, "b") != (ID, "a") by { assert "b"[0] != "a"[0]; }
    ExecStep(START, STALE_WRITE, 17, Repeating(HasRead(ROW3, 3)), Repeating(Checked(ROW3, 3)));
    ExecStep(START, STALE_WRITE, 18, Repeating(Checked(ROW3, 3)), ALL_DONE);
    assert STALE_WRITE[..19] == STALE_WRITE;
  }

  const ALL_DONE :=
    Standing(ROW3, map[(ID, "a") := 2, (ID, "b") := 2], AHEAD, map[2 := Worker(SECOND, Appended(ROW3, 3))])

  /** Statement by statement versions can go down: a model step that read the run before a
      command was accepted writes the old version over the new one. The command's own
      projection then claims more than the run's version, and the next command is recorded
      under a version already given out. */
  lemma StaleWriteLowersVersion()
    ensures Exec(START, STALE_WRITE).Some?
    ensures var s := Exec(START, STALE_WRITE).value; var h := s.history;
      && |h| == 4 && h[2].row.version < h[1].row.version && Outrun(h, 2, 1)
      && !Behind(h[3].row) && !WroteBehind(h, 3)
      && (ID, "a") in s.db.commands && (ID, "b") in s.db.commands
      && s.db.commands[(ID, "a")] == s.db.commands[(ID, "b")]
  {
    Recorded();
    hide Exec;
    assert (ID, "b") != (ID, "a") by { assert "b"[0] != "a"[0]; }
    assert ROW3.result[I.VERSION_KEY] == Version(2) by { ClaimOfCommand(); }
  }

  lemma ClaimOfCommand()
    ensures I.VERSION_KEY in ROW3.result && ROW3.result[I.VERSION_KEY] == Version(2)
  {
    assert I.VERSION_KEY != "status" by { assert I.VERSION_KEY[0] != "status"[0]; }
  }
}
