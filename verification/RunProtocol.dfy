/**
 One investigation run under concurrent commands and model steps, one database statement a
 step (internal/runs/service.go, internal/investigations/service.go over internal/db/db.go).
 The service takes no lock, so a method's read and its write may be far apart.
 */
module RunProtocol {
  import opened Results
  import opened RunStore
  import opened RunService
  import I = Investigations

  const ID := 1

  /** A service method under way; a command and a model step end in UpdateProjection, of a
      projection that claims the version of the run's value number `source`. */
  datatype Op =
    | Command(request: string, expected: int, command: string) // AcceptCommand
    | Advance                                                  // advanceTask, up to the model's answer
    | Project(projection: Projection, source: nat)             // UpdateProjection
    | Finish(result: Option<Projection>)                       // Complete
    | Fail(reason: string)                                     // Fail

  /** A worker has read the value number `base` of the run's history. */
  datatype Pc =
    | Begun
    | Present                       // EnsureRun has run
    | HasRead(row: Row, base: nat)  // GetRun has answered
    | Checked(row: Row, base: nat)  // GetRunCommandVersion found nothing
    | Appended(row: Row, base: nat) // AppendRunCommand has run
    | Waiting(row: Row, base: nat)  // the model is asked

  datatype Worker = Worker(op: Op, pc: Pc)

  /** A stored row, the method that wrote it and the value that method had read. */
  datatype Stored = Stored(row: Row, op: Option<Op>, base: nat)

  datatype Sys = Sys(db: Db, history: seq<Stored>, workers: map<nat, Worker>)

  datatype Step =
    | Create(row: Row)
    | Arrive(w: nat, op: Op)
    | Ensure(w: nat)
    | Read(w: nat)
    | Check(w: nat)
    | Append(w: nat)
    | Write(w: nat)
    | Answer(w: nat, answer: Option<string>, reason: string) // the model call returns
    | Drop(w: nat)                                           // a store call fails

  const START := Sys(EMPTY, [], map[])

  /** What a method stores after reading row. */
  function Change(op: Op, row: Row): Row {
    match op
    case Command(_, expected, _) => row.(version := NextVersion(row.version, expected), status := Reopened(row.status))
    case Advance => row
    case Project(projection, _) => row.(result := projection)
    case Finish(result) =>
      row.(result := if result.Some? then result.value else row.result, status := Completed, error := None)
    case Fail(reason) => row.(status := Error, error := Some(reason))
  }

  predicate At(s: Sys, w: nat, pc: Pc) { w in s.workers && s.workers[w].pc == pc }

  /** The worker's next statement is its UpdateRun. */
  predicate Writing(s: Sys, w: nat) {
    && w in s.workers && !s.workers[w].op.Advance?
    && if s.workers[w].op.Command? then s.workers[w].pc.Appended? else s.workers[w].pc.HasRead?
  }

  /** Results of completions, like new runs, carry no workflow version of their own. */
  predicate Enabled(s: Sys, step: Step) {
    match step
    case Create(row) => s == START && Int64(row.version) && I.Versionless(row.result)
    case Arrive(w, op) =>
      && w !in s.workers && !op.Project?
      && (op.Command? ==> Int64(op.expected))
      && (op.Finish? && op.result.Some? ==> I.Versionless(op.result.value))
    case Ensure(w) => At(s, w, Begun) && s.workers[w].op.Command?
    case Read(w) => s.history != [] && At(s, w, if w in s.workers && s.workers[w].op.Command? then Present else Begun)
    case Check(w) => w in s.workers && s.workers[w].op.Command? && s.workers[w].pc.HasRead?
    case Append(w) => w in s.workers && s.workers[w].op.Command? && s.workers[w].pc.Checked?
    case Write(w) => Writing(s, w)
    case Answer(w, _, _) => w in s.workers && s.workers[w].op.Advance? && s.workers[w].pc.Waiting?
    case Drop(w) => w in s.workers
  }

  function Move(s: Sys, w: nat, op: Op, pc: Pc): Sys { s.(workers := s.workers[w := Worker(op, pc)]) }

  function Last(s: Sys): Row
    requires s.history != []
  {
    s.history[|s.history| - 1].row
  }

  function Apply(s: Sys, step: Step): Sys
    requires Enabled(s, step)
  {
    match step
    case Create(row) => s.(db := Execute(s.db, InsertRun(row)), history := [Stored(Defaulted(row), None, 0)])
    case Arrive(w, op) => Move(s, w, op, Begun)
    case Ensure(w) =>
      Move(s, w, s.workers[w].op, Present)
        .(db := Execute(s.db, EnsureRun(ID, I.TEMPLATE)),
          history := if s.history == [] then [Stored(I.TEMPLATE, None, 0)] else s.history)
    case Read(w) =>
      var op := s.workers[w].op;
      Move(s, w, op, if op.Advance? then Waiting(Last(s), |s.history| - 1) else HasRead(Last(s), |s.history| - 1))
    case Check(w) =>
      var Worker(op, HasRead(row, base)) := s.workers[w];
      if (ID, op.request) in s.db.commands then s.(workers := s.workers - {w}) else Move(s, w, op, Checked(row, base))
    case Append(w) =>
      var Worker(op, Checked(row, base)) := s.workers[w];
      Move(s, w, op, Appended(row, base))
        .(db := Execute(s.db, AppendCommand(ID, op.request, NextVersion(row.version, op.expected))))
    case Write(w) =>
      var Worker(op, pc) := s.workers[w];
      var row := Change(op, pc.row);
      Proceed(s, w, row).(db := WriteRow(s.db, ID, row), history := s.history + [Stored(row, Some(op), pc.base)])
    case Answer(w, answer, reason) =>
      var Waiting(row, base) := s.workers[w].pc;
      Move(s, w, if answer.None? then Fail(reason) else Project(I.Advanced(row, answer.value), base), Begun)
    case Drop(w) => s.(workers := s.workers - {w})
  }

  /** After its UpdateRun an accepted command stores the projection that records it. */
  function Proceed(s: Sys, w: nat, row: Row): Sys
    requires w in s.workers
  {
    match s.workers[w].op
    case Command(_, _, command) =>
      Move(s, w, Project(I.WithCommand(row.result, command, row.version), |s.history|), Begun)
    case _ => s.(workers := s.workers - {w})
  }

  /** Where a sequence of steps leads, if the code allows it. */
  function Exec(from: Sys, steps: seq<Step>): Option<Sys> {
    if steps == [] then Some(from)
    else
      var before, step := Exec(from, steps[..|steps| - 1]), steps[|steps| - 1];
      if before.Some? && Enabled(before.value, step) then Some(Apply(before.value, step)) else None
  }

  // ---- where stored rows come from ----

  /** What a method brings along. */
  predicate Brings(op: Op) {
    && !op.Advance?
    && (op.Command? ==> Int64(op.expected))
    && (op.Finish? && op.result.Some? ==> I.Versionless(op.result.value))
  }

  /** Row i is what its method makes of an earlier row. */
  ghost predicate Descends(h: seq<Stored>, i: nat)
    requires i < |h|
  {
    match h[i].op
    case None => i == 0 && Int64(h[i].row.version) && I.Versionless(h[i].row.result)
    case Some(op) =>
      h[i].base < i && h[i].row == Change(op, h[h[i].base].row) && Brings(op) && Claims(h, op, h[i].base + 1)
  }

  ghost predicate Lineage(h: seq<Stored>) { forall i :: 0 <= i < |h| ==> Descends(h, i) }

  predicate ReadFrom(h: seq<Stored>, pc: Pc) {
    !pc.Begun? && !pc.Present? ==> pc.base < |h| && h[pc.base].row == pc.row
  }

  /** A projection claims the version of its source, which is not younger than what its
      writer read. */
  predicate Claims(h: seq<Stored>, op: Op, end: nat) {
    op.Project? ==>
      && op.source < end <= |h|
      && I.VERSION_KEY in op.projection && op.projection[I.VERSION_KEY] == Version(h[op.source].row.version)
  }

  /** The table holds the last row of the history; workers act on rows of it. */
  ghost predicate Inv(s: Sys) {
    && Lineage(s.history)
    && (if s.history == [] then ID !in s.db.runs else ID in s.db.runs && s.db.runs[ID] == Last(s))
    && (forall w :: w in s.workers ==>
          var Worker(op, pc) := s.workers[w];
          && ReadFrom(s.history, pc) && (op.Advance? || Brings(op))
          && Claims(s.history, op, if pc.HasRead? then pc.base + 1 else |s.history|))
  }

  /** No method changes a run's kind or key. */
  lemma {:induction false} SameRun(h: seq<Stored>, i: nat)
    requires Lineage(h) && i < |h|
    ensures h[i].row.kind == h[0].row.kind && h[i].row.key == h[0].row.key
  {
    assert Descends(h, i);
    if h[i].op.Some? { SameRun(h, h[i].base); }
  }

  lemma WriteKeepsInv(s: Sys, w: nat)
    requires Inv(s) && Enabled(s, Write(w))
    ensures Inv(Apply(s, Write(w)))
  {
    var s', n, pc := Apply(s, Write(w)), |s.history|, s.workers[w].pc;
    SameRun(s.history, n - 1);
    SameRun(s.history, pc.base);
    hide Reopened, NextVersion;
    assert forall i :: 0 <= i < n ==> s'.history[i] == s.history[i];
    forall i | 0 <= i < n + 1 ensures Descends(s'.history, i) {
      if i < n { assert Descends(s.history, i); }
    }
  }

  lemma StepKeepsInv(s: Sys, step: Step)
    requires Inv(s) && Enabled(s, step)
    ensures Inv(Apply(s, step))
  {
    if step.Write? {
      WriteKeepsInv(s, step.w);
    } else if step.Create? || step.Ensure? {
      hide Change, NextVersion, I.Advanced, I.WithCommand;
    } else {
      ReadKeepsInv(s, step);
    }
  }

  lemma ReadKeepsInv(s: Sys, step: Step)
    requires Inv(s) && Enabled(s, step) && !step.Write? && !step.Create? && !step.Ensure?
    ensures Inv(Apply(s, step))
  {
    hide Descends, Change, NextVersion;
  }

  lemma {:induction false} RunsKeepInv(steps: seq<Step>)
    requires Exec(START, steps).Some?
    ensures Inv(Exec(START, steps).value)
  {
    if steps != [] {
      RunsKeepInv(steps[..|steps| - 1]);
      hide Inv, Enabled;
      StepKeepsInv(Exec(START, steps[..|steps| - 1]).value, steps[|steps| - 1]);
    }
  }

  // ---- when the version goes down ----

  predicate ByCommand(h: seq<Stored>, i: nat) { i < |h| && h[i].op.Some? && h[i].op.value.Command? }

  /** A write lowers the stored version exactly when that has moved above the version its
      method read or, for a command, above the next one it made of it. */
  lemma WriteLowers(s: Sys, w: nat)
    requires Inv(s) && Enabled(s, Write(w))
    ensures var op, read, stored := s.workers[w].op, s.workers[w].pc.row.version, s.db.runs[ID].version;
      Apply(s, Write(w)).db.runs[ID].version < stored <==>
      stored > if op.Command? then NextVersion(read, op.expected) else read
  {
    hide NextVersion;
  }

  /** Nothing but a write moves the version of a stored run. */
  lemma OthersKeepVersion(s: Sys, step: Step)
    requires Inv(s) && Enabled(s, step) && !step.Write? && s.history != []
    ensures Apply(s, step).history == s.history && Apply(s, step).db.runs == s.db.runs
  {
    hide Change, NextVersion, I.Advanced, I.WithCommand;
  }

  /** The stored versions never go down. */
  ghost predicate Rises(h: seq<Stored>) { RisesUpTo(h, |h|) }

  ghost predicate RisesUpTo(h: seq<Stored>, n: nat)
    requires n <= |h|
  {
    forall i, j :: 0 <= i < j < n ==> h[i].row.version <= h[j].row.version
  }

  /** Between the read and the write of value i a command stored a higher version. */
  predicate Outrun(h: seq<Stored>, i: nat, j: nat) {
    && i < |h| && h[i].op.Some? && h[i].base < j < i
    && ByCommand(h, j) && h[j].row.version > h[i].row.version
  }

  /** The command of value i met the last 64-bit version. */
  predicate Wraps(h: seq<Stored>, i: nat) {
    && ByCommand(h, i) && h[i].base < |h|
    && var read := h[h[i].base].row.version;
       Max(read, h[i].op.value.expected) == MAX_INT64 && read > MIN_INT64
  }

  /** The method of value i met no last version, and no command outran it. */
  ghost predicate WroteInTime(h: seq<Stored>, i: nat) {
    !Wraps(h, i) && forall j :: 0 <= j < i ==> !Outrun(h, i, j)
  }

  /** Value i is not below the one its method read exactly when it does not wrap. */
  lemma AboveItsBase(h: seq<Stored>, i: nat)
    requires Lineage(h) && i < |h| && h[i].op.Some?
    requires h[i].base < |h| && Int64(h[h[i].base].row.version)
    ensures h[h[i].base].row.version <= h[i].row.version <==> !Wraps(h, i)
    ensures !ByCommand(h, i) ==> h[i].row.version == h[h[i].base].row.version
    ensures Int64(h[i].row.version)
  {
    assert Descends(h, i);
  }

  lemma {:induction false} VersionsAreInt64(h: seq<Stored>, i: nat)
    requires Lineage(h) && i < |h|
    ensures Int64(h[i].row.version)
  {
    assert Descends(h, i);
    if h[i].op.Some? {
      VersionsAreInt64(h, h[i].base);
      AboveItsBase(h, i);
    }
  }

  /** Everything stored since its read is at most value i. */
  lemma {:induction false} AboveAllSince(h: seq<Stored>, i: nat, m: nat)
    requires Lineage(h) && i < |h| && h[i].op.Some? && h[i].base <= m < i && RisesUpTo(h, i)
    requires WroteInTime(h, i)
    ensures h[m].row.version <= h[i].row.version
    decreases m
  {
    var base := h[i].base;
    VersionsAreInt64(h, base);
    AboveItsBase(h, i);
    assert !Outrun(h, i, m);
    if m != base && !ByCommand(h, m) {
      assert Descends(h, m);
      VersionsAreInt64(h, h[m].base);
      AboveItsBase(h, m);
      if h[m].base >= base { AboveAllSince(h, i, h[m].base); }
    }
  }

  lemma {:induction false} InTimeRises(h: seq<Stored>, n: nat)
    requires Lineage(h) && n <= |h|
    requires forall i :: 0 <= i < n ==> WroteInTime(h, i)
    ensures RisesUpTo(h, n)
  {
    if n > 1 {
      InTimeRises(h, n - 1);
      assert Descends(h, n - 1);
      AboveAllSince(h, n - 1, n - 2);
    }
  }

  lemma InTimeMeansRise(h: seq<Stored>)
    requires Lineage(h) && forall i :: 0 <= i < |h| ==> WroteInTime(h, i)
    ensures Rises(h)
  {
    InTimeRises(h, |h|);
  }

  lemma RiseMeansInTime(h: seq<Stored>, i: nat)
    requires Lineage(h) && Rises(h) && i < |h|
    ensures WroteInTime(h, i)
  {
    assert Descends(h, i);
    if h[i].op.Some? {
      VersionsAreInt64(h, h[i].base);
      AboveItsBase(h, i);
    }
  }

  /** The step lowers the version in the run's row. */
  predicate Lowers(s: Sys, step: Step)
    requires Enabled(s, step)
  {
    var after := Apply(s, step);
    ID in s.db.runs && ID in after.db.runs && after.db.runs[ID].version < s.db.runs[ID].version
  }

  /** A step keeps the history rising exactly when it does not lower the row's version. */
  lemma StepRises(s: Sys, step: Step)
    requires Inv(s) && Enabled(s, step)
    ensures Rises(Apply(s, step).history) <==> Rises(s.history) && !Lowers(s, step)
  {
    var h, h' := s.history, Apply(s, step).history;
    if step.Write? {
      WriteLowers(s, step.w);
      OneMoreRises(h, h'[|h|]);
    } else if h != [] {
      OthersKeepVersion(s, step);
    }
  }

  lemma OneMoreRises(h: seq<Stored>, x: Stored)
    requires h != []
    ensures Rises(h + [x]) <==> Rises(h) && h[|h| - 1].row.version <= x.row.version
  {
    var h', last := h + [x], |h| - 1;
    assert forall i :: 0 <= i < |h| ==> h'[i] == h[i];
    if Rises(h') { assert h'[last].row.version <= h'[|h|].row.version; }
    if Rises(h) && h[last].row.version <= x.row.version {
      forall i, j | 0 <= i < j < |h'| ensures h'[i].row.version <= h'[j].row.version {
        if j == |h| && i < last { assert h[i].row.version <= h[last].row.version; }
      }
    }
  }

  ghost predicate LowersAt(steps: seq<Step>, i: nat)
    requires i < |steps|
  {
    var before := Exec(START, steps[..i]);
    before.Some? && Enabled(before.value, steps[i]) && Lowers(before.value, steps[i])
  }

  ghost predicate NeverLowers(steps: seq<Step>) { forall i :: 0 <= i < |steps| ==> !LowersAt(steps, i) }

  lemma OneMoreStep(steps: seq<Step>)
    requires steps != []
    ensures var last := |steps| - 1;
      NeverLowers(steps) <==> NeverLowers(steps[..last]) && !LowersAt(steps, last)
  {
    hide Enabled, Lowers, Exec;
    var last := |steps| - 1;
    forall i: nat | i < last ensures LowersAt(steps, i) <==> LowersAt(steps[..last], i) {
      assert steps[..last][..i] == steps[..i];
    }
  }

  /** The row's version never drops exactly when the history rises. */
  lemma {:induction false} TableFollowsHistory(steps: seq<Step>)
    requires Exec(START, steps).Some?
    ensures NeverLowers(steps) <==> Rises(Exec(START, steps).value.history)
  {
    hide Enabled, Lowers, Rises, NeverLowers, Inv, Apply;
    if steps == [] {
      NothingLowered();
    } else {
      var front := steps[..|steps| - 1];
      TableFollowsHistory(front);
      OneMoreStep(steps);
      RunsKeepInv(front);
      StepRises(Exec(START, front).value, steps[|steps| - 1]);
    }
  }

  lemma NothingLowered()
    ensures NeverLowers([]) && Exec(START, []) == Some(START) && Rises(START.history)
  {
  }

  /** The version law, statement by statement: the version in the run's row never drops
      exactly when no command meets the last 64-bit version and no method writes after a
      command that, since that method's read, stored a higher version. */
  lemma VersionsRiseExactly(steps: seq<Step>)
    requires Exec(START, steps).Some?
    ensures var h := Exec(START, steps).value.history;
      && (NeverLowers(steps) <==> Rises(h))
      && (Rises(h) <==> forall i :: 0 <= i < |h| ==> WroteInTime(h, i))
  {
    hide Exec, Rises, WroteInTime, NeverLowers;
    TableFollowsHistory(steps);
    RunsKeepInv(steps);
    var h := Exec(START, steps).value.history;
    if Rises(h) {
      forall i | 0 <= i < |h| ensures WroteInTime(h, i) { RiseMeansInTime(h, i); }
    }
    if forall i :: 0 <= i < |h| ==> WroteInTime(h, i) { InTimeMeansRise(h); }
  }

  // ---- when a projection runs ahead ----

  predicate Behind(row: Row) { I.ClaimsAtMost(row.result, row.version) }

  /** The value whose version the projection of value i claims, if it claims one. */
  function ClaimOf(h: seq<Stored>, i: nat): Option<nat>
    requires i < |h|
  {
    match h[i].op
    case None => None
    case Some(Project(_, source)) => Some(source)
    case Some(Finish(Some(_))) => None
    case Some(_) => if h[i].base < i then ClaimOf(h, h[i].base) else None
  }

  /** A stored projection claims the version of an earlier value or none. */
  lemma {:induction false} ClaimIs(h: seq<Stored>, i: nat)
    requires Lineage(h) && i < |h|
    ensures var result := h[i].row.result;
      match ClaimOf(h, i)
      case None => I.VERSION_KEY !in result
      case Some(k) => k <= i && I.VERSION_KEY in result && result[I.VERSION_KEY] == Version(h[k].row.version)
  {
    assert Descends(h, i);
    if h[i].op.Some? { ClaimIs(h, h[i].base); }
  }

  /** A value is ahead exactly when the version went down since the one its projection claims. */
  lemma BehindMeans(h: seq<Stored>, i: nat)
    requires Lineage(h) && i < |h|
    ensures Behind(h[i].row) <==> match ClaimOf(h, i) {
        case None => true
        case Some(k) => k < |h| && h[k].row.version <= h[i].row.version
      }
  {
    hide Lineage, ClaimOf;
    ClaimIs(h, i);
  }

  /** While the version never goes down, no projection runs ahead. */
  lemma RiseMeansNeverAhead(steps: seq<Step>, i: nat)
    requires Exec(START, steps).Some? && i < |Exec(START, steps).value.history|
    requires Rises(Exec(START, steps).value.history)
    ensures Behind(Exec(START, steps).value.history[i].row)
  {
    hide Exec, Lineage, ClaimOf, Behind;
    RunsKeepInv(steps);
    var h := Exec(START, steps).value.history;
    assert Lineage(h) by { InvLineage(Exec(START, steps).value); }
    ClaimIs(h, i);
    BehindMeans(h, i);
  }

  lemma InvLineage(s: Sys)
    requires Inv(s)
    ensures Lineage(s.history)
  {
  }

  /** The write of value i keeps the projection behind. A projection has to be written over a
      row whose version has not gone down since the value the projection claims; a command
      that wraps the version must not meet a claim. */
  predicate WroteBehind(h: seq<Stored>, i: nat)
    requires i < |h|
  {
    h[i].op.Some? && h[i].base < |h| ==>
      match h[i].op.value
      case Project(_, source) => source < |h| && h[source].row.version <= h[h[i].base].row.version
      case Command(_, expected, _) =>
        Max(h[h[i].base].row.version, expected) == MAX_INT64 ==> NoClaim(h, h[i].base)
      case _ => true
  }

  /** The projection of value i claims no version above the first 64-bit one. */
  predicate NoClaim(h: seq<Stored>, i: nat)
    requires i < |h|
  {
    var claim := ClaimOf(h, i);
    claim.Some? ==> claim.value < |h| && h[claim.value].row.version == MIN_INT64
  }

  lemma ProjectBehind(h: seq<Stored>, i: nat)
    requires Lineage(h) && i < |h| && h[i].op.Some? && h[i].op.value.Project?
    ensures Behind(h[i].row) <==> WroteBehind(h, i)
  {
    hide Behind;
    assert Descends(h, i);
    BehindMeans(h, i);
  }

  lemma CommandBehind(h: seq<Stored>, i: nat)
    requires Lineage(h) && i < |h| && h[i].op.Some? && h[i].op.value.Command? && h[i].base < |h|
    requires Behind(h[h[i].base].row)
    ensures Behind(h[i].row) <==> WroteBehind(h, i)
  {
    hide Behind, ClaimOf, Reopened;
    assert Descends(h, i);
    var base := h[i].base;
    VersionsAreInt64(h, base);
    BehindMeans(h, i);
    BehindMeans(h, base);
    SameClaim(h, i);
    if ClaimOf(h, base).Some? {
      ClaimIs(h, base);
      VersionsAreInt64(h, ClaimOf(h, base).value);
    }
  }

  lemma SameClaim(h: seq<Stored>, i: nat)
    requires Lineage(h) && i < |h| && h[i].op.Some? && h[i].op.value.Command?
    ensures h[i].base < i && ClaimOf(h, i) == ClaimOf(h, h[i].base)
  {
    assert Descends(h, i);
  }

  lemma BehindExact(h: seq<Stored>, i: nat)
    requires Lineage(h) && i < |h| && h[i].op.Some? && h[i].base < |h|
    requires Behind(h[h[i].base].row)
    ensures Behind(h[i].row) <==> WroteBehind(h, i)
  {
    assert Descends(h, i);
    if h[i].op.value.Project? {
      ProjectBehind(h, i);
    } else if h[i].op.value.Command? {
      CommandBehind(h, i);
    }
  }

  lemma {:induction false} AllBehind(h: seq<Stored>, i: nat)
    requires Lineage(h) && i < |h| && forall j :: 0 <= j < |h| ==> WroteBehind(h, j)
    ensures Behind(h[i].row)
  {
    hide Behind, WroteBehind;
    assert Descends(h, i);
    if h[i].op.Some? {
      AllBehind(h, h[i].base);
      BehindExact(h, i);
    } else {
      FreshBehind(h, i);
    }
  }

  lemma FreshBehind(h: seq<Stored>, i: nat)
    requires Lineage(h) && i < |h| && h[i].op.None?
    ensures Behind(h[i].row)
  {
    assert Descends(h, i);
  }

  /** Whatever the interleaving of statements, no stored projection is ahead of its run
      exactly when every projection was written over a row whose version had not gone down
      since the one it claims, and no command wrapped the version of a run that claims one. */
  lemma NeverAheadExactly(steps: seq<Step>)
    requires Exec(START, steps).Some?
    ensures var h := Exec(START, steps).value.history;
      (forall i :: 0 <= i < |h| ==> Behind(h[i].row)) <==> (forall i :: 0 <= i < |h| ==> WroteBehind(h, i))
  {
    hide Exec, Behind, WroteBehind;
    RunsKeepInv(steps);
    var h := Exec(START, steps).value.history;
    if forall i :: 0 <= i < |h| ==> WroteBehind(h, i) {
      forall i | 0 <= i < |h| ensures Behind(h[i].row) { AllBehind(h, i); }
    }
    if forall i :: 0 <= i < |h| ==> Behind(h[i].row) {
      forall i | 0 <= i < |h| && h[i].op.Some? ensures WroteBehind(h, i) {
        assert Descends(h, i) && Behind(h[h[i].base].row);
        BehindExact(h, i);
      }
      forall i | 0 <= i < |h| && h[i].op.None? ensures WroteBehind(h, i) { FirstWroteBehind(h, i); }
    }
  }

  lemma FirstWroteBehind(h: seq<Stored>, i: nat)
    requires i < |h| && h[i].op.None?
    ensures WroteBehind(h, i)
  {
  }

  // ---- a method that is not interrupted ----

  lemma ExecStep(from: Sys, steps: seq<Step>, n: nat, s: Sys, s': Sys)
    requires n < |steps| && Exec(from, steps[..n]) == Some(s) && Enabled(s, steps[n]) && Apply(s, steps[n]) == s'
    ensures Exec(from, steps[..n + 1]) == Some(s')
  {
    assert steps[..n + 1][..n] == steps[..n];
  }

  lemma Unmoved(s: Sys)
    ensures Exec(s, []) == Some(s)
  {
  }

  /** The statements of AcceptCommand that run when none comes between them. */
  function AcceptSteps(w: nat, duplicate: bool): seq<Step> {
    [Ensure(w), Read(w), Check(w)] + if duplicate then [] else [Append(w), Write(w)]
  }

  /** Run without interruption, a command's statements are the method AcceptCommand. */
  lemma CommandIsAccept(s: Sys, w: nat) returns (end: Sys)
    requires Inv(s) && At(s, w, Begun) && s.workers[w].op.Command?
    ensures var op := s.workers[w].op;
      var (db, accepted) := Accept(s.db, ID, I.TEMPLATE, op.request, op.expected);
      && Exec(s, AcceptSteps(w, accepted.duplicate)) == Some(end)
      && end.db == db
      && end.workers == if accepted.duplicate then s.workers - {w} else
           var projection := I.WithCommand(accepted.record.result, op.command, accepted.version);
           s.workers[w := Worker(Project(projection, |end.history| - 1), Begun)]
  {
    hide Exec, NextVersion, Reopened, I.WithCommand, Inv;
    var op := s.workers[w].op;
    var checked := CommandChecks(s, w);
    var (db, accepted) := Accept(s.db, ID, I.TEMPLATE, op.request, op.expected);
    var steps := AcceptSteps(w, accepted.duplicate);
    end := checked;
    if !accepted.duplicate {
      assert AcceptSteps(w, false)[..3] == AcceptSteps(w, true);
      var appended := Apply(checked, Append(w));
      end := Apply(appended, Write(w));
      ExecStep(s, steps, 3, checked, appended);
      ExecStep(s, steps, 4, appended, end);
      assert steps[..5] == steps;
    }
  }

  lemma CommandChecks(s: Sys, w: nat) returns (checked: Sys)
    requires Inv(s) && At(s, w, Begun) && s.workers[w].op.Command?
    ensures Exec(s, AcceptSteps(w, true)) == Some(checked)
    ensures var db := Ensured(s.db, ID, I.TEMPLATE);
      && checked.db == db && checked.history != []
      && if (ID, s.workers[w].op.request) in db.commands then checked.workers == s.workers - {w}
         else checked.workers == s.workers[w := Worker(s.workers[w].op, Checked(db.runs[ID], |checked.history| - 1))]
  {
    hide Exec, Lineage;
    var steps := AcceptSteps(w, true);
    var ensured := Apply(s, Ensure(w));
    var read := Apply(ensured, Read(w));
    checked := Apply(read, Check(w));
    Unmoved(s);
    assert steps[..0] == [];
    ExecStep(s, steps, 0, s, ensured);
    ExecStep(s, steps, 1, ensured, read);
    ExecStep(s, steps, 2, read, checked);
    assert steps[..3] == steps;
  }

  /** So are UpdateProjection, Complete and Fail. */
  lemma WriteBackIsMethod(s: Sys, w: nat) returns (end: Sys)
    requires Inv(s) && s.history != [] && At(s, w, Begun)
    requires var op := s.workers[w].op; op.Project? || op.Finish? || op.Fail?
    ensures Exec(s, [Read(w), Write(w)]) == Some(end) && end.workers == s.workers - {w}
    ensures end.db == match s.workers[w].op {
        case Project(projection, _) => WithProjection(s.db, ID, projection)
        case Finish(result) => WithResult(s.db, ID, result)
        case Fail(reason) => WithFailure(s.db, ID, reason)
        case _ => s.db
      }
  {
    hide Exec, Lineage;
    var steps := [Read(w), Write(w)];
    var read := Apply(s, Read(w));
    end := Apply(read, Write(w));
    Unmoved(s);
    assert steps[..0] == [];
    ExecStep(s, steps, 0, s, read);
    ExecStep(s, steps, 1, read, end);
    assert steps[..2] == steps;
  }
}
