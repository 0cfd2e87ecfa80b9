/** Investigation runs: commands, slow model steps that write back from a snapshot, and the
    projection's workflow version (internal/investigations/service.go over internal/runs). */
module Investigations {
  import opened Results
  import opened RunStore
  import opened RunService
  import opened Whitespace

  const VERSION_KEY := "workflow_version"

  /** withCommand: the projection returned and stored for an accepted command. */
  function WithCommand(projection: Projection, command: string, version: int): Projection {
    projection["last_command" := Text(command)][VERSION_KEY := Version(version)]["status" := Text("processing")]
  }

  /** What advanceTask stores, from the record it read before asking the model. */
  function Advanced(record: Row, answer: string): Projection {
    record.result["summary" := Text(answer)]["status" := Text("awaiting_command")]
      [VERSION_KEY := Version(record.version)]
  }

  /** The template Command hands to AcceptCommand. */
  const TEMPLATE := Row("investigation", None, Processing, map[], None, 1)

  /** A worker between two service calls: Command has accepted and must store the
      projection; advanceTask has its snapshot and waits for the model. */
  datatype Worker = Publishing(id: int, projection: Projection) | Waiting(id: int, snapshot: Row)

  /** log lists the accepted commands in order; base holds each run's first version. */
  datatype Acceptance = Acceptance(id: int, request: string, expected: int, version: int)

  datatype World = World(db: Db, workers: map<nat, Worker>, log: seq<Acceptance>, base: map<int, int>)

  const START := World(EMPTY, map[], [], map[])

  /** Each event is one service method, taken as atomic. */
  datatype Event =
    | Create(row: Row)
    | Command(w: nat, id: int, request: string, expected: int, command: string) // AcceptCommand, up to the projection
    | Publish(w: nat)                                                           // ... and UpdateProjection
    | Snapshot(w: nat, id: int)                                                 // advanceTask: Get
    | Advance(w: nat, answer: string)                                           // ... UpdateProjection
    | FailRun(id: int, reason: string)
    | CompleteRun(id: int, result: Option<Projection>)

  predicate Versionless(p: Projection) { VERSION_KEY !in p }

  /** New runs and completed results carry no workflow version of their own: no caller of
      Start and Complete puts one there. */
  predicate Enabled(s: World, e: Event) {
    match e
    case Create(row) => Versionless(row.result) && Int64(row.version)
    case Command(w, _, _, expected, _) => w !in s.workers && Int64(expected)
    case Publish(w) => w in s.workers && s.workers[w].Publishing?
    case Snapshot(w, id) => w !in s.workers && id in s.db.runs
    case Advance(w, _) => w in s.workers && s.workers[w].Waiting?
    case FailRun(_, _) => true
    case CompleteRun(_, result) => result.Some? ==> Versionless(result.value)
  }

  function Apply(s: World, e: Event): World
    requires Enabled(s, e)
  {
    match e
    case Create(row) =>
      var db := Execute(s.db, InsertRun(row));
      s.(db := db, base := if db == s.db then s.base else s.base[db.lastId := Defaulted(row).version])
    case Command(w, id, request, expected, command) =>
      var (db, accepted) := Accept(s.db, id, TEMPLATE, request, expected);
      var base := if id in s.db.runs then s.base else s.base[id := TEMPLATE.version];
      if accepted.duplicate then s.(db := db, base := base)
      else
        s.(db := db, base := base, log := s.log + [Acceptance(id, request, expected, accepted.version)],
           workers := s.workers[w := Publishing(id, WithCommand(accepted.record.result, command, accepted.version))])
    case Publish(w) =>
      s.(db := WithProjection(s.db, s.workers[w].id, s.workers[w].projection), workers := s.workers - {w})
    case Snapshot(w, id) => s.(workers := s.workers[w := Waiting(id, s.db.runs[id])])
    case Advance(w, answer) =>
      s.(db := WithProjection(s.db, s.workers[w].id, Advanced(s.workers[w].snapshot, answer)),
         workers := s.workers - {w})
    case FailRun(id, reason) => s.(db := WithFailure(s.db, id, reason))
    case CompleteRun(id, result) => s.(db := WithResult(s.db, id, result))
  }

  function Exec(events: seq<Event>): Option<World> {
    if events == [] then Some(START)
    else
      var before, e := Exec(events[..|events| - 1]), events[|events| - 1];
      if before.Some? && Enabled(before.value, e) then Some(Apply(before.value, e)) else None
  }

  /** An event does to the tables what its method does. */
  lemma EventsAreMethods(s: World, e: Event)
    requires Enabled(s, e)
    ensures match e
      case Create(row) => Apply(s, e).db == Execute(s.db, InsertRun(row))
      case Command(_, id, request, expected, _) => Apply(s, e).db == Accept(s.db, id, TEMPLATE, request, expected).0
      case Publish(w) => Apply(s, e).db == WithProjection(s.db, s.workers[w].id, s.workers[w].projection)
      case Snapshot(w, id) =>
        Apply(s, e).db == s.db && Apply(s, e).workers == s.workers[w := Waiting(id, s.db.runs[id])]
      case Advance(w, answer) =>
        Apply(s, e).db == WithProjection(s.db, s.workers[w].id, Advanced(s.workers[w].snapshot, answer))
      case FailRun(id, reason) => Apply(s, e).db == WithFailure(s.db, id, reason)
      case CompleteRun(id, result) => Apply(s, e).db == WithResult(s.db, id, result)
    ensures e.Command? && (e.id, e.request) !in s.db.commands ==>
      var accepted := Accept(s.db, e.id, TEMPLATE, e.request, e.expected).1;
      Apply(s, e).workers ==
        s.workers[e.w := Publishing(e.id, WithCommand(accepted.record.result, e.command, accepted.version))]
  {
    hide NextVersion, WithProjection, WithFailure, WithResult;
  }

  /** The workflow version a projection claims, if any. */
  predicate ClaimsAtMost(p: Projection, version: int) {
    VERSION_KEY in p && p[VERSION_KEY].Version? ==> p[VERSION_KEY].n <= version
  }

  /** The command does not meet the last 64-bit version. */
  predicate NoOverflow(s: World, e: Event) {
    e.Command? ==>
      Max(if e.id in s.db.runs then s.db.runs[e.id].version else TEMPLATE.version, e.expected) < MAX_INT64
  }

  predicate WorkerBehind(db: Db, worker: Worker) {
    && worker.id in db.runs
    && match worker {
         case Publishing(id, projection) => ClaimsAtMost(projection, db.runs[id].version)
         case Waiting(id, snapshot) => snapshot.version <= db.runs[id].version
       }
  }

  /** No projection stored, and none about to be stored, claims more than its run's version. */
  ghost predicate NeverAhead(s: World) {
    && (forall id :: id in s.db.runs ==> ClaimsAtMost(s.db.runs[id].result, s.db.runs[id].version))
    && (forall w :: w in s.workers ==> WorkerBehind(s.db, s.workers[w]))
  }

  /** Versions of existing runs never go down. */
  ghost predicate Forward(db: Db, db': Db) {
    forall id :: id in db.runs ==> id in db'.runs && db.runs[id].version <= db'.runs[id].version
  }

  ghost predicate VersionsFit(s: World) {
    IdsRecorded(s.db) && forall id :: id in s.db.runs ==> Int64(s.db.runs[id].version)
  }

  lemma AcceptForward(db: Db, id: int, request: string, expected: int)
    requires IdsRecorded(db) && forall i :: i in db.runs ==> Int64(db.runs[i].version)
    requires Int64(expected)
    requires Max(if id in db.runs then db.runs[id].version else TEMPLATE.version, expected) < MAX_INT64
    ensures var (db', accepted) := Accept(db, id, TEMPLATE, request, expected);
      && Forward(db, db') && IdsRecorded(db') && (forall i :: i in db'.runs ==> Int64(db'.runs[i].version))
      && id in db'.runs
      && (forall i :: i in db'.runs && (i != id || accepted.duplicate) && i in db.runs ==> db'.runs[i] == db.runs[i])
      && (forall i :: i in db'.runs && i !in db.runs ==> i == id && db'.runs[i].result == map[])
      && (!accepted.duplicate ==>
            && db'.runs[id] == accepted.record && accepted.record.version == accepted.version
            && (id in db.runs ==>
                  accepted.record.result == db.runs[id].result && db.runs[id].version < accepted.version)
            && expected < accepted.version)
  {
  }

  /** Projections and finished states are written back over the version they were read with. */
  lemma WriteBackForward(s: World, e: Event)
    requires Enabled(s, e) && !e.Command? && !e.Create?
    ensures var db' := Apply(s, e).db;
      && db'.runs.Keys == s.db.runs.Keys && db'.lastId == s.db.lastId && db'.commands == s.db.commands
      && forall id :: id in s.db.runs ==> db'.runs[id].version == s.db.runs[id].version
  {
    hide Accept;
  }

  lemma StepForward(s: World, e: Event)
    requires VersionsFit(s) && Enabled(s, e) && NoOverflow(s, e)
    ensures Forward(s.db, Apply(s, e).db) && VersionsFit(Apply(s, e))
  {
    hide Accept, Max, WithProjection, WithResult, WithFailure;
    if e.Command? {
      AcceptForward(s.db, e.id, e.request, e.expected);
    } else if !e.Create? {
      WriteBackForward(s, e);
    }
  }

  lemma WorkersStayBehind(db: Db, db': Db, worker: Worker)
    requires Forward(db, db') && WorkerBehind(db, worker)
    ensures WorkerBehind(db', worker)
  {
  }

  lemma CommandNeverAhead(s: World, e: Event)
    requires VersionsFit(s) && NeverAhead(s) && Enabled(s, e) && NoOverflow(s, e) && e.Command?
    ensures NeverAhead(Apply(s, e))
  {
    hide Accept, Max;
    var s' := Apply(s, e);
    AcceptForward(s.db, e.id, e.request, e.expected);
    forall w | w in s.workers ensures WorkerBehind(s'.db, s.workers[w]) {
      WorkersStayBehind(s.db, s'.db, s.workers[w]);
    }
  }

  lemma WriteBackNeverAhead(s: World, e: Event)
    requires VersionsFit(s) && NeverAhead(s) && Enabled(s, e) && !e.Command? && !e.Create?
    ensures NeverAhead(Apply(s, e))
  {
    hide Accept, Max;
    var s' := Apply(s, e);
    WriteBackForward(s, e);
    forall w | w in s'.workers && w in s.workers && s'.workers[w] == s.workers[w]
      ensures WorkerBehind(s'.db, s'.workers[w])
    {
      WorkersStayBehind(s.db, s'.db, s.workers[w]);
    }
    assert e.Publish? || e.Advance? ==> WorkerBehind(s.db, s.workers[e.w]);
  }

  lemma StepNeverAhead(s: World, e: Event)
    requires VersionsFit(s) && NeverAhead(s) && Enabled(s, e) && NoOverflow(s, e)
    ensures NeverAhead(Apply(s, e))
  {
    hide NeverAhead;
    if e.Command? {
      CommandNeverAhead(s, e);
    } else if e.Create? {
      CreateNeverAhead(s, e);
    } else {
      WriteBackNeverAhead(s, e);
    }
  }

  lemma CreateNeverAhead(s: World, e: Event)
    requires VersionsFit(s) && NeverAhead(s) && Enabled(s, e) && e.Create?
    ensures NeverAhead(Apply(s, e))
  {
    var s' := Apply(s, e);
    forall w | w in s.workers ensures WorkerBehind(s'.db, s.workers[w]) {
      WorkersStayBehind(s.db, s'.db, s.workers[w]);
    }
  }

  // ---- the log ----

  /** The expectations of the commands accepted for one run, in order. */
  function Expectations(log: seq<Acceptance>, id: int): seq<int> {
    if log == [] then []
    else
      var last := log[|log| - 1];
      Expectations(log[..|log| - 1], id) + if last.id == id then [last.expected] else []
  }

  /** Every run's version is what its accepted commands make of its first version. */
  ghost predicate VersionsExplained(s: World) {
    && s.base.Keys == s.db.runs.Keys
    && (forall i :: 0 <= i < |s.log| ==> Int64(s.log[i].expected) && s.log[i].id in s.db.runs)
    && (forall id :: id in s.db.runs ==>
          Int64(s.base[id]) && s.db.runs[id].version == VersionAfter(s.base[id], Expectations(s.log, id)))
  }

  /** The command table holds the log, and only commands of existing runs. */
  ghost predicate LogStored(s: World) {
    && (forall i :: 0 <= i < |s.log| ==>
          && (s.log[i].id, s.log[i].request) in s.db.commands
          && s.db.commands[(s.log[i].id, s.log[i].request)] == s.log[i].version)
    && (forall k :: k in s.db.commands ==> k.0 in s.db.runs)
  }

  /** Recorded versions never exceed the run's, and grow in acceptance order. */
  ghost predicate LogGrows(s: World) {
    && (forall i :: 0 <= i < |s.log| ==> s.log[i].id in s.db.runs && s.log[i].version <= s.db.runs[s.log[i].id].version)
    && (forall i, j :: 0 <= i < j < |s.log| && s.log[i].id == s.log[j].id ==> s.log[i].version < s.log[j].version)
  }

  lemma {:induction false} NoExpectations(log: seq<Acceptance>, id: int)
    requires forall i :: 0 <= i < |log| ==> log[i].id != id
    ensures Expectations(log, id) == []
  {
    if log != [] { NoExpectations(log[..|log| - 1], id); }
  }

  lemma StepLogGrows(s: World, e: Event)
    requires VersionsFit(s) && LogGrows(s) && Enabled(s, e) && NoOverflow(s, e)
    ensures LogGrows(Apply(s, e))
  {
    hide Accept, Max, WithProjection, WithResult, WithFailure;
    var s' := Apply(s, e);
    StepForward(s, e);
    if e.Command? { AcceptForward(s.db, e.id, e.request, e.expected); }
  }

  /** What accepting does, whether or not the version wraps. */
  lemma AcceptExact(db: Db, id: int, request: string, expected: int)
    requires forall k :: k in db.commands ==> k.0 in db.runs
    ensures var (db', accepted) := Accept(db, id, TEMPLATE, request, expected);
      var before := if id in db.runs then db.runs[id].version else TEMPLATE.version;
      && db'.runs.Keys == db.runs.Keys + {id}
      && (accepted.duplicate <==> (id, request) in db.commands)
      && (forall i :: i in db.runs && i != id ==> db'.runs[i] == db.runs[i])
      && (if accepted.duplicate then db' == db
          else
            && accepted.version == NextVersion(before, expected) && db'.runs[id].version == accepted.version
            && db'.commands == db.commands[(id, request) := accepted.version])
  {
  }

  lemma OneMoreExpectation(log: seq<Acceptance>, a: Acceptance, id: int)
    ensures Expectations(log + [a], id) == Expectations(log, id) + if a.id == id then [a.expected] else []
  {
    assert (log + [a])[..|log|] == log;
  }

  lemma OneMoreCommand(v: int, es: seq<int>, e: int)
    ensures VersionAfter(v, es + [e]) == NextVersion(VersionAfter(v, es), e)
  {
    assert (es + [e])[..|es|] == es;
  }

  lemma CommandVersionExplained(s: World, e: Event, id: int)
    requires VersionsExplained(s) && LogStored(s) && Enabled(s, e) && e.Command? && id in Apply(s, e).db.runs
    ensures var s' := Apply(s, e);
      && id in s'.base && Int64(s'.base[id])
      && s'.db.runs[id].version == VersionAfter(s'.base[id], Expectations(s'.log, id))
  {
    hide Accept, NextVersion, VersionAfter, Expectations;
    var s' := Apply(s, e);
    AcceptExact(s.db, e.id, e.request, e.expected);
    if (e.id, e.request) !in s.db.commands {
      OneMoreExpectation(s.log, s'.log[|s.log|], id);
      if id == e.id {
        if id !in s.db.runs { FirstCommand(s, id); }
        OneMoreCommand(s'.base[id], Expectations(s.log, id), e.expected);
      } else {
        assert Expectations(s.log, id) + [] == Expectations(s.log, id);
      }
    }
  }

  lemma FirstCommand(s: World, id: int)
    requires VersionsExplained(s) && id !in s.db.runs
    ensures Expectations(s.log, id) == [] && VersionAfter(TEMPLATE.version, []) == TEMPLATE.version
  {
    NoExpectations(s.log, id);
  }

  lemma CommandExplained(s: World, e: Event)
    requires VersionsExplained(s) && LogStored(s) && Enabled(s, e) && e.Command?
    ensures VersionsExplained(Apply(s, e)) && LogStored(Apply(s, e))
  {
    hide Accept, NextVersion, VersionAfter, Expectations;
    var s' := Apply(s, e);
    AcceptExact(s.db, e.id, e.request, e.expected);
    forall id | id in s'.db.runs
      ensures id in s'.base && Int64(s'.base[id])
           && s'.db.runs[id].version == VersionAfter(s'.base[id], Expectations(s'.log, id))
    {
      CommandVersionExplained(s, e, id);
    }
  }

  lemma CreateExplained(s: World, e: Event)
    requires IdsRecorded(s.db) && VersionsExplained(s) && LogStored(s) && Enabled(s, e) && e.Create?
    ensures VersionsExplained(Apply(s, e)) && LogStored(Apply(s, e))
  {
    hide VersionAfter, Expectations;
    var s', id := Apply(s, e), s.db.lastId + 1;
    if id in s'.db.runs && id !in s.db.runs {
      NoExpectations(s.log, id);
      assert VersionAfter(s'.base[id], []) == s'.base[id] by { NothingAccepted(s'.base[id]); }
    }
  }

  lemma NothingAccepted(v: int)
    ensures VersionAfter(v, []) == v
  {
  }

  lemma WriteBackExplained(s: World, e: Event)
    requires VersionsExplained(s) && LogStored(s) && Enabled(s, e) && !e.Command? && !e.Create?
    ensures VersionsExplained(Apply(s, e)) && LogStored(Apply(s, e))
  {
    hide VersionAfter, Expectations, Accept, WithProjection, WithResult, WithFailure;
    WriteBackForward(s, e);
  }

  // ---- whole runs ----

  /** Every command of the run stays clear of the last 64-bit version. */
  ghost predicate NoneOverflows(events: seq<Event>) {
    forall i :: 0 <= i < |events| && Exec(events[..i]).Some? ==> NoOverflow(Exec(events[..i]).value, events[i])
  }

  ghost predicate Inv(s: World) { VersionsFit(s) && NeverAhead(s) && LogGrows(s) }

  lemma {:induction false} RunsStayOrdered(events: seq<Event>)
    requires Exec(events).Some? && NoneOverflows(events)
    ensures Inv(Exec(events).value)
  {
    if events != [] {
      var last := |events| - 1;
      var s := Exec(events[..last]).value;
      forall i | 0 <= i < last ensures events[..last][..i] == events[..i] && events[..last][i] == events[i] {}
      RunsStayOrdered(events[..last]);
      hide Exec, Enabled, NoOverflow, VersionsFit, NeverAhead, LogGrows;
      StepForward(s, events[last]);
      StepNeverAhead(s, events[last]);
      StepLogGrows(s, events[last]);
    }
  }

  lemma StepIdsRecorded(s: World, e: Event)
    requires IdsRecorded(s.db) && Enabled(s, e)
    ensures IdsRecorded(Apply(s, e).db)
  {
    if e.Command? {
      hide NextVersion;
    } else if !e.Create? {
      hide Accept, WithProjection, WithResult, WithFailure;
      WriteBackForward(s, e);
    }
  }

  lemma {:induction false} RunsStayExplained(events: seq<Event>)
    requires Exec(events).Some?
    ensures var s := Exec(events).value; IdsRecorded(s.db) && VersionsExplained(s) && LogStored(s)
  {
    if events != [] {
      var s, e := Exec(events[..|events| - 1]).value, events[|events| - 1];
      RunsStayExplained(events[..|events| - 1]);
      hide Exec, Enabled, VersionsExplained, LogStored;
      StepIdsRecorded(s, e);
      if e.Command? {
        CommandExplained(s, e);
      } else if e.Create? {
        CreateExplained(s, e);
      } else {
        WriteBackExplained(s, e);
      }
    }
  }

  /** The projection never runs ahead: under any interleaving of commands, model steps that
      hold stale snapshots, failures and completions, a stored projection claims at most its
      run's workflow version. */
  lemma {:induction false} ProjectionNeverAhead(events: seq<Event>, id: int)
    requires Exec(events).Some? && NoneOverflows(events) && id in Exec(events).value.db.runs
    ensures var row := Exec(events).value.db.runs[id]; ClaimsAtMost(row.result, row.version)
  {
    hide Exec;
    RunsStayOrdered(events);
  }

  /** Recorded versions grow in acceptance order and never exceed the run's version. */
  lemma {:induction false} RecordedVersionsGrow(events: seq<Event>, i: nat)
    requires Exec(events).Some? && NoneOverflows(events) && i < |Exec(events).value.log|
    ensures var s := Exec(events).value;
      && s.log[i].id in s.db.runs && s.log[i].version <= s.db.runs[s.log[i].id].version
      && forall j :: i < j < |s.log| && s.log[j].id == s.log[i].id ==> s.log[i].version < s.log[j].version
  {
    hide Exec;
    RunsStayOrdered(events);
  }

  /** Versions recorded for one run strictly grow in acceptance order. */
  ghost predicate LogRises(log: seq<Acceptance>) {
    forall i, j :: 0 <= i < j < |log| && log[i].id == log[j].id ==> log[i].version < log[j].version
  }

  ghost predicate LastOfRun(log: seq<Acceptance>, i: nat)
    requires i < |log|
  {
    forall j :: i < j < |log| ==> log[j].id != log[i].id
  }

  /** The last version recorded for a run is the run's. */
  ghost predicate LogTops(s: World) {
    forall i :: 0 <= i < |s.log| && LastOfRun(s.log, i) ==>
      s.log[i].id in s.db.runs && s.log[i].version == s.db.runs[s.log[i].id].version
  }

  /** The event is a new command of a run that has accepted one before. */
  ghost predicate Follows(s: World, e: Event) {
    e.Command? && (e.id, e.request) !in s.db.commands && exists i :: 0 <= i < |s.log| && s.log[i].id == e.id
  }

  lemma {:induction false} HasLast(log: seq<Acceptance>, i: nat) returns (last: nat)
    requires i < |log|
    ensures i <= last < |log| && log[last].id == log[i].id && LastOfRun(log, last)
    decreases |log| - i
  {
    last := i;
    if !LastOfRun(log, i) {
      var j :| i < j < |log| && log[j].id == log[i].id;
      last := HasLast(log, j);
    }
  }

  /** One more acceptance keeps the log rising exactly when it is above the last of its run. */
  lemma OneMoreRises(log: seq<Acceptance>, a: Acceptance, last: nat)
    requires last < |log| && log[last].id == a.id && LastOfRun(log, last)
    ensures LogRises(log + [a]) <==> LogRises(log) && log[last].version < a.version
  {
    var log' := log + [a];
    assert forall i :: 0 <= i < |log| ==> log'[i] == log[i];
    if LogRises(log') { assert log'[last].version < log'[|log|].version; }
    if LogRises(log) && log[last].version < a.version {
      forall i, j | 0 <= i < j < |log'| && log'[i].id == log'[j].id ensures log'[i].version < log'[j].version {
        if j == |log| && i < last { assert log[i].version < log[last].version; }
      }
    }
  }

  lemma FirstRises(log: seq<Acceptance>, a: Acceptance)
    requires forall i :: 0 <= i < |log| ==> log[i].id != a.id
    ensures LogRises(log + [a]) <==> LogRises(log)
  {
    var log' := log + [a];
    assert forall i :: 0 <= i < |log| ==> log'[i] == log[i];
  }

  lemma VersionsInt64(s: World, id: int)
    requires VersionsExplained(s) && id in s.db.runs
    ensures Int64(s.db.runs[id].version)
  {
    hide VersionAfter;
    ExpectationsInt64(s.log, id);
    VersionIsInt64(s.base[id], Expectations(s.log, id));
  }

  lemma CommandRises(s: World, e: Event)
    requires VersionsExplained(s) && LogStored(s) && LogTops(s) && Enabled(s, e) && e.Command?
    ensures LogRises(Apply(s, e).log) <==> LogRises(s.log) && (Follows(s, e) ==> NoOverflow(s, e))
  {
    hide Accept, VersionsExplained, LogStored, LogTops, LogRises, NextVersion, Max;
    assert AcceptKnown(s, e) by { CommandKnown(s, e); }
    if (e.id, e.request) !in s.db.commands {
      var a := Apply(s, e).log[|s.log|];
      if i: nat :| i < |s.log| && s.log[i].id == e.id {
        var last := HasLast(s.log, i);
        assert s.log[last].version == s.db.runs[e.id].version && e.id in s.db.runs by { TopIs(s, last); }
        VersionsInt64(s, e.id);
        AcceptMovesForward(s.db.runs[e.id].version, e.expected);
        OneMoreRises(s.log, a, last);
      } else {
        FirstRises(s.log, a);
      }
    }
  }

  lemma TopIs(s: World, i: nat)
    requires LogTops(s) && i < |s.log| && LastOfRun(s.log, i)
    ensures s.log[i].id in s.db.runs && s.log[i].version == s.db.runs[s.log[i].id].version
  {
  }

  /** What a command adds to the log. */
  ghost predicate AcceptKnown(s: World, e: Event)
    requires Enabled(s, e) && e.Command?
  {
    var s' := Apply(s, e);
    var before := if e.id in s.db.runs then s.db.runs[e.id].version else TEMPLATE.version;
    if (e.id, e.request) in s.db.commands then s'.log == s.log && s'.db == s.db
    else
      var version := NextVersion(before, e.expected);
      && s'.log == s.log + [Acceptance(e.id, e.request, e.expected, version)]
      && s'.db.runs.Keys == s.db.runs.Keys + {e.id} && s'.db.runs[e.id].version == version
      && forall i :: i in s.db.runs && i != e.id ==> s'.db.runs[i] == s.db.runs[i]
  }

  lemma CommandKnown(s: World, e: Event)
    requires LogStored(s) && Enabled(s, e) && e.Command?
    ensures AcceptKnown(s, e)
  {
    hide Accept, NextVersion;
    AcceptExact(s.db, e.id, e.request, e.expected);
  }

  lemma StepLogTops(s: World, e: Event)
    requires IdsRecorded(s.db) && LogStored(s) && LogTops(s) && Enabled(s, e)
    ensures LogTops(Apply(s, e))
  {
    hide Accept, NextVersion, WithProjection, WithResult, WithFailure;
    var s' := Apply(s, e);
    if e.Command? {
      CommandKnown(s, e);
      forall i | 0 <= i < |s'.log| && LastOfRun(s'.log, i)
        ensures s'.log[i].id in s'.db.runs && s'.log[i].version == s'.db.runs[s'.log[i].id].version
      {
        if i < |s.log| {
          assert s'.log[i] == s.log[i];
          if |s'.log| > |s.log| { assert s'.log[|s.log|].id != s.log[i].id; }
          assert LastOfRun(s.log, i) by { assert forall j :: i < j < |s.log| ==> s'.log[j] == s.log[j]; }
        }
      }
    } else if !e.Create? {
      WriteBackForward(s, e);
    }
  }

  /** Event i is a command of a run that has accepted one before, and meets the last version. */
  ghost predicate OverflowsAt(events: seq<Event>, i: nat)
    requires i < |events|
  {
    var before := Exec(events[..i]);
    before.Some? && Follows(before.value, events[i]) && !NoOverflow(before.value, events[i])
  }

  ghost predicate NoneOverflowsAt(events: seq<Event>) {
    forall i :: 0 <= i < |events| ==> !OverflowsAt(events, i)
  }

  /** Recorded versions grow in acceptance order exactly when no command of a run that has
      accepted one before meets the last 64-bit version. */
  lemma {:induction false} RecordedVersionsGrowExactly(events: seq<Event>)
    requires Exec(events).Some?
    ensures LogTops(Exec(events).value)
    ensures LogRises(Exec(events).value.log) <==> NoneOverflowsAt(events)
  {
    if events != [] {
      hide Exec, Enabled, Apply, LogRises, NoneOverflowsAt, OverflowsAt, Follows, NoOverflow;
      hide VersionsExplained, LogStored, LogTops;
      var last := |events| - 1;
      var front := events[..last];
      LastEvent(events);
      var s := Exec(front).value;
      RecordedVersionsGrowExactly(front);
      RunsStayExplained(front);
      OneMoreEvent(events);
      StepRises(s, events[last]);
      StepLogTops(s, events[last]);
    } else {
      hide Follows, NoOverflow;
    }
  }

  lemma LastEvent(events: seq<Event>)
    requires Exec(events).Some? && events != []
    ensures var last := |events| - 1;
      var before := Exec(events[..last]);
      && before.Some? && Enabled(before.value, events[last])
      && Exec(events).value == Apply(before.value, events[last])
      && (OverflowsAt(events, last) <==>
            Follows(before.value, events[last]) && !NoOverflow(before.value, events[last]))
  {
    hide Enabled, Apply, Follows, NoOverflow;
  }

  lemma OneMoreEvent(events: seq<Event>)
    requires events != []
    ensures var last := |events| - 1;
      NoneOverflowsAt(events) <==> NoneOverflowsAt(events[..last]) && !OverflowsAt(events, last)
  {
    hide OverflowsAt;
    var last := |events| - 1;
    forall i: nat | i < last ensures OverflowsAt(events, i) <==> OverflowsAt(events[..last], i) {
      SameOverflow(events, i);
    }
  }

  lemma SameOverflow(events: seq<Event>, i: nat)
    requires i < |events| - 1
    ensures OverflowsAt(events, i) <==> OverflowsAt(events[..|events| - 1], i)
  {
    hide Exec, Follows, NoOverflow;
    assert events[..|events| - 1][..i] == events[..i];
  }

  lemma StepRises(s: World, e: Event)
    requires VersionsExplained(s) && LogStored(s) && LogTops(s) && Enabled(s, e)
    ensures LogRises(Apply(s, e).log) <==> LogRises(s.log) && (Follows(s, e) ==> NoOverflow(s, e))
  {
    hide LogRises;
    if e.Command? { CommandRises(s, e); }
  }

  /** The version of a run is the largest of its first version plus its n accepted commands
      and every e_i + n - i + 1, exactly while that fits in 64 bits; nothing but accepted
      commands moves it. */
  lemma WorkflowVersion(events: seq<Event>, id: int, top: int)
    requires Exec(events).Some? && id in Exec(events).value.db.runs && id in Exec(events).value.base
    requires IsTop(Exec(events).value.base[id], Expectations(Exec(events).value.log, id), top)
    ensures Exec(events).value.db.runs[id].version == top <==> top <= MAX_INT64
  {
    hide Exec, IsTop, VersionAfter;
    RunsStayExplained(events);
    var s := Exec(events).value;
    ExpectationsInt64(s.log, id);
    VersionLaw(s.base[id], Expectations(s.log, id), top);
  }

  lemma {:induction false} ExpectationsInt64(log: seq<Acceptance>, id: int)
    requires forall i :: 0 <= i < |log| ==> Int64(log[i].expected)
    ensures forall i :: 0 <= i < |Expectations(log, id)| ==> Int64(Expectations(log, id)[i])
  {
    if log != [] { ExpectationsInt64(log[..|log| - 1], id); }
  }

  /** Every accepted command is in the table under the version it was answered with. */
  lemma LogIsStored(events: seq<Event>, i: nat)
    requires Exec(events).Some? && i < |Exec(events).value.log|
    ensures var s := Exec(events).value;
      var k := (s.log[i].id, s.log[i].request);
      k in s.db.commands && s.db.commands[k] == s.log[i].version
  {
    hide Exec;
    RunsStayExplained(events);
  }

  // ---- overflow ----

  /** A command's expectation takes the run to the last 64-bit version; a model step that has
      read it finishes after the next command, which wraps the version. */
  const OVERFLOW: seq<Event> :=
    [Create(TEMPLATE), Command(0, 1, "a", MAX_INT64 - 1, "look"), Snapshot(1, 1), Command(2, 1, "b", 0, "look again"),
     Advance(1, "plan")]

  const LAST_ROW := TEMPLATE.(version := MAX_INT64)

  lemma ExecEvent(events: seq<Event>, n: nat, s: World)
    requires n < |events| && Exec(events[..n]) == Some(s) && Enabled(s, events[n])
    ensures Exec(events[..n + 1]) == Some(Apply(s, events[n]))
  {
    assert events[..n + 1][..n] == events[..n];
  }

  lemma LastVersionReached() returns (s: World)
    ensures Exec(OVERFLOW[..2]) == Some(s)
    ensures s.db == Db(map[1 := LAST_ROW], 1, map[(1, "a") := MAX_INT64]) && s.workers.Keys == {0}
  {
    assert OVERFLOW[..0] == [];
    var created := Apply(START, OVERFLOW[0]);
    assert created.db.runs == map[1 := TEMPLATE];
    ExecEvent(OVERFLOW, 0, START);
    hide Exec;
    ExecEvent(OVERFLOW, 1, created);
    s := Apply(created, OVERFLOW[1]);
    AcceptExact(created.db, 1, "a", MAX_INT64 - 1);
    assert s.db.runs == map[1 := LAST_ROW];
  }

  lemma VersionWraps() returns (s: World)
    ensures Exec(OVERFLOW[..4]) == Some(s)
    ensures s.db.runs == map[1 := LAST_ROW.(version := MIN_INT64)]
    ensures 1 in s.workers && s.workers[1] == Waiting(1, LAST_ROW)
  {
    hide Exec;
    var before := LastVersionReached();
    var read := Apply(before, OVERFLOW[2]);
    assert (1, "b") != (1, "a") by { assert "b"[0] != "a"[0]; }
    ExecEvent(OVERFLOW, 2, before);
    ExecEvent(OVERFLOW, 3, read);
    s := Apply(read, OVERFLOW[3]);
    AcceptExact(read.db, 1, "b", 0);
    assert s.db.runs[1] == LAST_ROW.(version := MIN_INT64);
  }

  /** A command that meets the last 64-bit version lets a stored projection claim more than
      its run's version. */
  lemma OverflowPutsProjectionAhead()
    ensures Exec(OVERFLOW).Some? && 1 in Exec(OVERFLOW).value.db.runs
    ensures var row := Exec(OVERFLOW).value.db.runs[1];
      row.version == MIN_INT64 && !ClaimsAtMost(row.result, row.version)
  {
    hide Exec, Accept;
    var wrapped := VersionWraps();
    ExecEvent(OVERFLOW, 4, wrapped);
    assert OVERFLOW[..5] == OVERFLOW;
  }

  // ---- the service itself, each call run by itself ----

  class Investigator {
    const runs: RunService.Service

    constructor (runs: RunService.Service)
      ensures this.runs == runs
    {
      this.runs := runs;
    }

    /** Create: a retried request id gets the run it already has, a new one gets a run and
        its first model step. A blank id is refused, and an insert fails when no larger id
        is left. */
    method Open(request: string) returns (id: Option<int>, created: bool, dispatched: bool)
      modifies runs
      ensures Blank(request) ==> id == None && !created && runs.db == old(runs.db)
      ensures !Blank(request) && created ==>
        && IsLookup(old(runs.db), TEMPLATE.kind, request, None)
        && runs.db == Execute(old(runs.db), InsertRun(TEMPLATE.(key := Some(request))))
        && id == Some(runs.db.lastId)
      ensures !Blank(request) && !created ==>
        && runs.db == old(runs.db)
        && (id.Some? ==> IsLookup(old(runs.db), TEMPLATE.kind, request, id))
        && (id.None? ==> old(runs.db).lastId >= MAX_INT64)
      ensures created ==>
        && id.Some? && id.value in runs.db.runs
        && runs.db.runs[id.value] == Row("investigation", Some(request), Processing, map[], None, 1)
      ensures dispatched == created
    {
      if Blank(request) {
        return None, false, false;
      }
      var existing := FindRunByIdempotencyKey(runs.db, TEMPLATE.kind, request);
      if existing.Some? {
        return existing, false, false;
      }
      assert request != "";
      id, dispatched := runs.Start(TEMPLATE.(key := Some(request)), true);
      return id, id.Some?, dispatched;
    }

    /** Command: refuse a blank request id; accept, and unless it is a duplicate store the
        projection that records it and dispatch a model step. */
    method Submit(id: int, request: string, expected: int, command: string)
      returns (accepted: Option<Accepted>, projection: Projection, dispatched: bool)
      modifies runs
      ensures accepted.None? <==> Blank(request)
      ensures accepted.None? ==> runs.db == old(runs.db) && !dispatched
      ensures accepted.Some? ==>
        var (db, answer) := Accept(old(runs.db), id, TEMPLATE, request, expected);
        && accepted.value == answer && dispatched == !answer.duplicate
        && projection == (if answer.duplicate then answer.record.result
                          else WithCommand(answer.record.result, command, answer.version))
        && runs.db == if answer.duplicate then db else WithProjection(db, id, projection)
      ensures accepted.Some? && !accepted.value.duplicate ==>
        && projection.Keys == accepted.value.record.result.Keys + {"last_command", VERSION_KEY, "status"}
        && projection["last_command"] == Text(command) && projection[VERSION_KEY] == Version(accepted.value.version)
        && projection["status"] == Text("processing")
        && (forall key :: key in accepted.value.record.result && key !in {"last_command", VERSION_KEY, "status"} ==>
              projection[key] == accepted.value.record.result[key])
        && id in runs.db.runs && runs.db.runs[id] == accepted.value.record.(result := projection)
      ensures accepted.Some? && accepted.value.duplicate ==>
        projection == accepted.value.record.result && id in runs.db.runs && runs.db.runs[id] == accepted.value.record
    {
      if Blank(request) {
        return None, map[], false;
      }
      var answer := runs.AcceptCommand(id, TEMPLATE, request, expected);
      projection := answer.record.result;
      if !answer.duplicate {
        projection := projection["last_command" := Text(command)];
        projection := projection[VERSION_KEY := Version(answer.version)];
        projection := projection["status" := Text("processing")];
        var stored := runs.UpdateProjection(id, projection);
      }
      return Some(answer), projection, !answer.duplicate;
    }

    /** advanceTask, given the record it read before the model was asked and the model's
        answer, or none when the call failed. */
    method FinishAdvance(id: int, snapshot: Row, answer: Option<string>, reason: string)
      modifies runs
      ensures runs.db == if answer.None? then WithFailure(old(runs.db), id, reason)
                         else WithProjection(old(runs.db), id, Advanced(snapshot, answer.value))
      ensures id in old(runs.db).runs && answer.Some? ==>
        && id in runs.db.runs
        && var stored := runs.db.runs[id].result;
        && runs.db.runs[id] == old(runs.db).runs[id].(result := stored)
        && stored.Keys == snapshot.result.Keys + {"summary", "status", VERSION_KEY}
        && stored["summary"] == Text(answer.value) && stored["status"] == Text("awaiting_command")
        && stored[VERSION_KEY] == Version(snapshot.version)
        && forall key :: key in snapshot.result && key !in {"summary", "status", VERSION_KEY} ==>
             stored[key] == snapshot.result[key]
      ensures id in old(runs.db).runs && answer.None? ==>
        id in runs.db.runs && runs.db.runs[id] == old(runs.db).runs[id].(status := Error, error := Some(reason))
    {
      if answer.None? {
        var failed := runs.Fail(id, reason);
        return;
      }
      var projection := snapshot.result;
      projection := projection["summary" := Text(answer.value)];
      projection := projection["status" := Text("awaiting_command")];
      projection := projection[VERSION_KEY := Version(snapshot.version)];
      var stored := runs.UpdateProjection(id, projection);
    }
  }
}
