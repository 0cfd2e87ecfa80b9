/** Accepting commands and writing runs back, one service method at a time
    (internal/runs/service.go). */
module RunService {
  import opened Results
  import opened RunStore

  datatype Accepted = Accepted(version: int, duplicate: bool, record: Row)

  function Max(a: int, b: int): int { if a < b then b else a }

  function NextVersion(version: int, expected: int): int { Increment(Max(version, expected)) }

  /** A finished run is reopened by a command. */
  function Reopened(status: Status): Status {
    if status == Completed || status == Error then Processing else status
  }

  function Ensured(db: Db, id: int, template: Row): (db': Db)
    ensures id in db'.runs
    ensures id in db.runs ==> db' == db
    ensures db'.commands == db.commands
  {
    Execute(db, EnsureRun(id, template))
  }

  function WriteRow(db: Db, id: int, row: Row): Db {
    Execute(db, UpdateRun(id, row.status, row.result, row.error, row.version))
  }

  /** AcceptCommand: the tables afterwards and the answer. */
  function Accept(db: Db, id: int, template: Row, request: string, expected: int): (Db, Accepted) {
    var ensured := Ensured(db, id, template);
    var row := ensured.runs[id];
    if (id, request) in ensured.commands then (ensured, Accepted(ensured.commands[(id, request)], true, row))
    else
      var version := NextVersion(row.version, expected);
      var row' := row.(version := version, status := Reopened(row.status));
      (WriteRow(Execute(ensured, AppendCommand(id, request, version)), id, row'), Accepted(version, false, row'))
  }

  function WithResult(db: Db, id: int, result: Option<Projection>): Db {
    if id !in db.runs then db
    else WriteRow(db, id, db.runs[id].(result := if result.Some? then result.value else db.runs[id].result,
                                       status := Completed, error := None))
  }

  function WithProjection(db: Db, id: int, projection: Projection): Db {
    if id !in db.runs then db else WriteRow(db, id, db.runs[id].(result := projection))
  }

  function WithFailure(db: Db, id: int, reason: string): Db {
    if id !in db.runs then db else WriteRow(db, id, db.runs[id].(status := Error, error := Some(reason)))
  }

  class Service {
    var db: Db

    constructor ()
      ensures db == EMPTY
    {
      db := EMPTY;
    }

    /** Start persists a run and dispatches its task, if there is one. */
    method Start(row: Row, hasTask: bool) returns (id: Option<int>, dispatched: bool)
      modifies this
      ensures db == Execute(old(db), InsertRun(row))
      ensures id.Some? <==> old(db).lastId < MAX_INT64
      ensures id.Some? ==> id.value == db.lastId && id.value in db.runs && db.runs[id.value] == Defaulted(row)
      ensures id.Some? && IdsRecorded(old(db)) ==> id.value !in old(db).runs
      ensures dispatched <==> id.Some? && hasTask
      ensures id.Some? ==>
        && id.value == old(db).lastId + 1
        && var stored := row.(version := if row.version == 0 then 1 else row.version);
           db == old(db).(runs := old(db).runs[id.value := stored], lastId := id.value)
      ensures id.None? ==> db == old(db)
    {
      if db.lastId >= MAX_INT64 {
        return None, false;
      }
      db := Execute(db, InsertRun(row));
      return Some(db.lastId), hasTask;
    }

    /** A command that is new leaves a finished run processing again, and changes nothing else
        of it but the version; a repeated one changes nothing. */
    method AcceptCommand(id: int, template: Row, request: string, expected: int) returns (accepted: Accepted)
      modifies this
      ensures accepted.duplicate <==> (id, request) in old(db).commands
      ensures id in db.runs && accepted.record == db.runs[id]
      ensures forall other :: other != id ==>
        (other in db.runs <==> other in old(db).runs) && (other in db.runs ==> db.runs[other] == old(db).runs[other])
      ensures var before := if id in old(db).runs then old(db).runs[id]
                            else template.(version := if template.version == 0 then 1 else template.version);
        if accepted.duplicate then
          && db.commands == old(db).commands && accepted.version == db.commands[(id, request)]
          && db.runs[id] == before
        else
          && db.commands == old(db).commands[(id, request) := accepted.version]
          && (var most := if expected > before.version then expected else before.version;
              accepted.version == if most == MAX_INT64 then MIN_INT64 else most + 1)
          && db.runs[id] == before.(version := accepted.version,
                                    status := if before.status == Awaiting then Awaiting else Processing)
      ensures (db, accepted) == Accept(old(db), id, template, request, expected)
      ensures old((id, request) in db.commands && id in db.runs) ==> db == old(db) && accepted.duplicate
    {
      db := Execute(db, EnsureRun(id, template));
      var record := db.runs[id];
      if (id, request) in db.commands {
        return Accepted(db.commands[(id, request)], true, record);
      }
      var version := record.version;
      if expected > version {
        version := expected;
      }
      version := Increment(version);
      db := Execute(db, AppendCommand(id, request, version));
      record := record.(version := version);
      if record.status == Completed || record.status == Error {
        record := record.(status := Processing);
      }
      db := Execute(db, UpdateRun(id, record.status, record.result, record.error, record.version));
      return Accepted(version, false, record);
    }

    method Complete(id: int, result: Option<Projection>) returns (found: bool)
      modifies this
      ensures db == WithResult(old(db), id, result) && found == (id in old(db).runs)
      ensures found ==>
        var row := old(db).runs[id];
        db == old(db).(runs := old(db).runs[id := row.(status := Completed, error := None,
                                                       result := if result.Some? then result.value else row.result)])
      ensures !found ==> db == old(db)
    {
      if id !in db.runs {
        return false;
      }
      var record := db.runs[id];
      if result.Some? {
        record := record.(result := result.value);
      }
      record := record.(status := Completed, error := None);
      db := WriteRow(db, id, record);
      return true;
    }

    method UpdateProjection(id: int, projection: Projection) returns (found: bool)
      modifies this
      ensures db == WithProjection(old(db), id, projection) && found == (id in old(db).runs)
      ensures found ==> db == old(db).(runs := old(db).runs[id := old(db).runs[id].(result := projection)])
      ensures !found ==> db == old(db)
    {
      if id !in db.runs {
        return false;
      }
      var record := db.runs[id];
      record := record.(result := projection);
      db := WriteRow(db, id, record);
      return true;
    }

    method Fail(id: int, reason: string) returns (found: bool)
      modifies this
      ensures db == WithFailure(old(db), id, reason) && found == (id in old(db).runs)
      ensures found ==>
        db == old(db).(runs := old(db).runs[id := old(db).runs[id].(status := Error, error := Some(reason))])
      ensures !found ==> db == old(db)
    {
      if id !in db.runs {
        return false;
      }
      var record := db.runs[id];
      record := record.(status := Error, error := Some(reason));
      db := WriteRow(db, id, record);
      return true;
    }
  }

  // ---- the version after a sequence of commands ----

  /** The version that accepting commands with expectations es leaves, from version v. */
  function VersionAfter(v: int, es: seq<int>): int {
    if es == [] then v else NextVersion(VersionAfter(v, es[..|es| - 1]), es[|es| - 1])
  }

  /** m is the largest of v + n and every e_i + n - i + 1, counting commands from one. */
  ghost predicate IsTop(v: int, es: seq<int>, m: int) {
    && m >= v + |es|
    && (forall i :: 0 <= i < |es| ==> m >= es[i] + |es| - i)
    && (m == v + |es| || exists i :: 0 <= i < |es| && m == es[i] + |es| - i)
  }

  lemma {:induction false} TopExists(v: int, es: seq<int>) returns (m: int, before: int)
    ensures IsTop(v, es, m)
    ensures es != [] ==> IsTop(v, es[..|es| - 1], before) && m == Max(before, es[|es| - 1]) + 1
  {
    if es == [] {
      m, before := v, v;
    } else {
      var front, last := es[..|es| - 1], |es| - 1;
      var m', _ := TopExists(v, front);
      before := m';
      m := Max(before, es[last]) + 1;
      if before < es[last] {
        assert m == es[last] + |es| - last;
      } else if before != v + |front| {
        var i :| 0 <= i < |front| && before == front[i] + |front| - i;
        assert m == es[i] + |es| - i;
      }
      assert forall i :: 0 <= i < |front| ==> front[i] == es[i];
    }
  }

  lemma TopUnique(v: int, es: seq<int>, a: int, b: int)
    requires IsTop(v, es, a) && IsTop(v, es, b)
    ensures a == b
  {
  }

  lemma {:induction false} VersionIsInt64(v: int, es: seq<int>)
    requires Int64(v) && forall i :: 0 <= i < |es| ==> Int64(es[i])
    ensures Int64(VersionAfter(v, es))
  {
    if es != [] { VersionIsInt64(v, es[..|es| - 1]); }
  }

  /** The version law: after n accepted commands the version is
      max(v + n, max_i (e_i + n - i + 1)), exactly while that still fits in 64 bits. */
  lemma {:induction false} VersionLaw(v: int, es: seq<int>, top: int)
    requires Int64(v) && forall i :: 0 <= i < |es| ==> Int64(es[i])
    requires IsTop(v, es, top)
    ensures VersionAfter(v, es) == top <==> top <= MAX_INT64
  {
    VersionIsInt64(v, es);
    if top <= MAX_INT64 && es != [] {
      var front := es[..|es| - 1];
      var m, before := TopExists(v, es);
      TopUnique(v, es, m, top);
      VersionLaw(v, front, before);
    }
  }

  /** A command moves the version forward exactly when the larger of the version and the
      expectation is not the last 64-bit integer. */
  lemma AcceptMovesForward(version: int, expected: int)
    requires Int64(version) && Int64(expected)
    ensures NextVersion(version, expected) > version <==> Max(version, expected) < MAX_INT64
  {
  }

  /** A resubmitted request id is answered with its first version, whatever was executed in
      between, statement by statement, and changes nothing. */
  lemma ResubmittedForever(db: Db, statements: seq<Statement>, id: int, request: string, template: Row, expected: int)
    requires id in db.runs && (id, request) in db.commands
    ensures var later := ExecuteAll(db, statements);
      var (after, accepted) := Accept(later, id, template, request, expected);
      after == later && accepted.duplicate && accepted.version == db.commands[(id, request)]
  {
    CommandsWriteOnce(db, statements, id, request);
    RunsStay(db, statements, id);
  }

  lemma {:induction false} RunsStay(db: Db, statements: seq<Statement>, id: int)
    requires id in db.runs
    ensures id in ExecuteAll(db, statements).runs
  {
    if statements != [] { RunsStay(db, statements[..|statements| - 1], id); }
  }
}
