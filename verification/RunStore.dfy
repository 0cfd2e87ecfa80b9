/** The runs and run_commands tables and the statements on them (internal/db/db.go).
    Each statement is atomic: the pool has one connection. */
module RunStore {
  import opened Results
  import opened Sets

  const MIN_INT64: int := -0x8000_0000_0000_0000
  const MAX_INT64: int := 0x7FFF_FFFF_FFFF_FFFF

  predicate Int64(x: int) { MIN_INT64 <= x <= MAX_INT64 }

  /** x + 1 in 64-bit two's complement. */
  function Increment(x: int): int { if x == MAX_INT64 then MIN_INT64 else x + 1 }

  datatype Status = Processing | Completed | Error | Awaiting

  datatype Value = Text(t: string) | Version(n: int)

  /** A decoded result_json object. */
  type Projection = map<string, Value>

  /** A row of runs; a NULL or undecodable result is the empty projection. */
  datatype Row = Row(kind: string, key: Option<string>, status: Status, result: Projection,
                     error: Option<string>, version: int)

  /** lastId is the AUTOINCREMENT counter: the largest id ever used. */
  datatype Db = Db(runs: map<int, Row>, lastId: int, commands: map<(int, string), int>)

  const EMPTY := Db(map[], 0, map[])

  datatype Statement =
    | InsertRun(row: Row)
    | EnsureRun(id: int, row: Row)                                                       // ON CONFLICT(id) DO NOTHING
    | UpdateRun(id: int, status: Status, result: Projection, error: Option<string>, version: int)
    | AppendCommand(id: int, request: string, version: int)                              // ON CONFLICT DO NOTHING

  /** A zero workflow version is stored as 1. */
  function Defaulted(row: Row): Row { if row.version == 0 then row.(version := 1) else row }

  function Execute(db: Db, s: Statement): Db {
    match s
    case InsertRun(row) =>
      if db.lastId >= MAX_INT64 then db // the statement fails: no larger id exists
      else db.(runs := db.runs[db.lastId + 1 := Defaulted(row)], lastId := db.lastId + 1)
    case EnsureRun(id, row) =>
      if id in db.runs then db
      else db.(runs := db.runs[id := Defaulted(row)], lastId := if id > db.lastId then id else db.lastId)
    case UpdateRun(id, status, result, error, version) =>
      if id !in db.runs then db
      else
        var row := db.runs[id].(status := status, result := result, error := error, version := version);
        db.(runs := db.runs[id := row])
    case AppendCommand(id, request, version) =>
      if (id, request) in db.commands then db else db.(commands := db.commands[(id, request) := version])
  }

  function ExecuteAll(db: Db, statements: seq<Statement>): Db {
    if statements == [] then db
    else Execute(ExecuteAll(db, statements[..|statements| - 1]), statements[|statements| - 1])
  }

  ghost predicate IdsRecorded(db: Db) { forall id :: id in db.runs ==> id <= db.lastId }

  predicate Matches(db: Db, id: int, kind: string, key: string) {
    id in db.runs && db.runs[id].kind == kind && db.runs[id].key == Some(key)
  }

  /** What SELECT ... WHERE kind = ? AND idempotency_key = ? ORDER BY id ASC LIMIT 1 answers. */
  ghost predicate IsLookup(db: Db, kind: string, key: string, found: Option<int>) {
    match found
    case None => key == "" || forall id :: !Matches(db, id, kind, key)
    case Some(id) =>
      && key != "" && Matches(db, id, kind, key)
      && forall other :: Matches(db, other, kind, key) ==> id <= other
  }

  /** FindRunByIdempotencyKey. */
  method FindRunByIdempotencyKey(db: Db, kind: string, key: string) returns (found: Option<int>)
    ensures IsLookup(db, kind, key, found)
    ensures found.Some? ==>
      && key != "" && found.value in db.runs
      && db.runs[found.value].kind == kind && db.runs[found.value].key == Some(key)
    ensures forall id :: key != "" && id in db.runs && db.runs[id].kind == kind && db.runs[id].key == Some(key) ==>
      found.Some? && found.value <= id
  {
    found := None;
    if key == "" {
      return;
    }
    var ids := db.runs.Keys;
    while ids != {}
      invariant ids <= db.runs.Keys
      invariant found.Some? ==> Matches(db, found.value, kind, key)
      invariant forall id :: id !in ids && Matches(db, id, kind, key) ==> found.Some? && found.value <= id
      decreases |ids|
    {
      ghost var member := HasMember(ids);
      var id :| id in ids;
      if Matches(db, id, kind, key) && (found.None? || id < found.value) {
        found := Some(id);
      }
      ids := ids - {id};
    }
    forall id | id in db.runs && db.runs[id].kind == kind && db.runs[id].key == Some(key)
      ensures found.Some? && found.value <= id
    {
      assert Matches(db, id, kind, key);
    }
  }

  /** The code's callers give EnsureRun rows without an idempotency key. */
  predicate KeylessEnsure(s: Statement) { s.EnsureRun? ==> s.row.key == None }

  lemma StepKeepsIds(db: Db, s: Statement)
    requires IdsRecorded(db)
    ensures IdsRecorded(Execute(db, s))
  {
  }

  lemma {:induction false} IdsAlwaysRecorded(db: Db, statements: seq<Statement>)
    requires IdsRecorded(db)
    ensures IdsRecorded(ExecuteAll(db, statements))
  {
    if statements != [] {
      IdsAlwaysRecorded(db, statements[..|statements| - 1]);
      StepKeepsIds(ExecuteAll(db, statements[..|statements| - 1]), statements[|statements| - 1]);
    }
  }

  lemma LookupStepStable(db: Db, s: Statement, kind: string, key: string, id: int)
    requires IdsRecorded(db) && KeylessEnsure(s) && IsLookup(db, kind, key, Some(id))
    ensures IsLookup(Execute(db, s), kind, key, Some(id))
  {
    var db' := Execute(db, s);
    forall other | Matches(db', other, kind, key) ensures id <= other {
      if s.InsertRun? && other == db.lastId + 1 { assert id in db.runs; } else { assert Matches(db, other, kind, key); }
    }
  }

  /** Idempotency-key stability, statement by statement: once a lookup has returned an id,
      no sequence of inserts, ensures, updates and appends makes a later lookup return
      another, however creates race. */
  lemma {:induction false} LookupStable(
      db: Db, statements: seq<Statement>, kind: string, key: string, id: int, later: Option<int>)
    requires IdsRecorded(db) && IsLookup(db, kind, key, Some(id))
    requires forall i :: 0 <= i < |statements| ==> KeylessEnsure(statements[i])
    requires IsLookup(ExecuteAll(db, statements), kind, key, later)
    ensures later == Some(id)
  {
    LookupKept(db, statements, kind, key, id);
  }

  lemma {:induction false} LookupKept(db: Db, statements: seq<Statement>, kind: string, key: string, id: int)
    requires IdsRecorded(db) && IsLookup(db, kind, key, Some(id))
    requires forall i :: 0 <= i < |statements| ==> KeylessEnsure(statements[i])
    ensures IsLookup(ExecuteAll(db, statements), kind, key, Some(id))
  {
    if statements != [] {
      var front := statements[..|statements| - 1];
      LookupKept(db, front, kind, key, id);
      IdsAlwaysRecorded(db, front);
      LookupStepStable(ExecuteAll(db, front), statements[|statements| - 1], kind, key, id);
    }
  }

  /** Log entries are write-once, statement by statement. */
  lemma {:induction false} CommandsWriteOnce(db: Db, statements: seq<Statement>, id: int, request: string)
    requires (id, request) in db.commands
    ensures (id, request) in ExecuteAll(db, statements).commands
    ensures ExecuteAll(db, statements).commands[(id, request)] == db.commands[(id, request)]
  {
    if statements != [] { CommandsWriteOnce(db, statements[..|statements| - 1], id, request); }
  }

  // ---- creating a run for a key ----

  ghost predicate OneRunPerKey(db: Db) {
    forall a, b, kind, key :: key != "" && Matches(db, a, kind, key) && Matches(db, b, kind, key) ==> a == b
  }

  ghost predicate HasRun(db: Db, kind: string, key: string) { exists id :: Matches(db, id, kind, key) }

  /** The statement inserts a run under a key that a run of that kind already has. */
  ghost predicate RepeatsKey(db: Db, s: Statement) {
    && s.InsertRun? && db.lastId < MAX_INT64
    && s.row.key.Some? && s.row.key.value != "" && HasRun(db, s.row.kind, s.row.key.value)
  }

  /** No statement changes which runs have which key, but for the row it adds. */
  lemma MatchesAfter(db: Db, s: Statement, id: int, kind: string, key: string)
    requires IdsRecorded(db) && KeylessEnsure(s)
    ensures Matches(db, id, kind, key) ==> Matches(Execute(db, s), id, kind, key)
    ensures Matches(Execute(db, s), id, kind, key) && !Matches(db, id, kind, key) ==>
      s.InsertRun? && db.lastId < MAX_INT64 && id == db.lastId + 1 && s.row.kind == kind && s.row.key == Some(key)
  {
  }

  /** A statement leaves one run a key exactly when there was and it does not insert a run
      under a key already in use. */
  lemma OneRunStep(db: Db, s: Statement)
    requires IdsRecorded(db) && KeylessEnsure(s)
    ensures OneRunPerKey(Execute(db, s)) <==> OneRunPerKey(db) && !RepeatsKey(db, s)
  {
    hide Execute, Matches;
    var db' := Execute(db, s);
    forall id, kind, key ensures Matches(db, id, kind, key) ==> Matches(db', id, kind, key) {
      MatchesAfter(db, s, id, kind, key);
    }
    if RepeatsKey(db, s) {
      RepeatedKey(db, s);
    } else if OneRunPerKey(db) {
      forall a, b, kind, key | key != "" && Matches(db', a, kind, key) && Matches(db', b, kind, key) ensures a == b {
        MatchesAfter(db, s, a, kind, key);
        MatchesAfter(db, s, b, kind, key);
      }
    }
  }

  lemma RepeatedKey(db: Db, s: Statement)
    requires IdsRecorded(db) && RepeatsKey(db, s)
    ensures !OneRunPerKey(Execute(db, s))
  {
    var db', kind, key := Execute(db, s), s.row.kind, s.row.key.value;
    var id :| Matches(db, id, kind, key);
    assert Matches(db', id, kind, key) && Matches(db', db'.lastId, kind, key);
  }

  /** Statement i inserts a run under a key in use at that time. */
  ghost predicate RepeatsKeyAt(db: Db, statements: seq<Statement>, i: nat)
    requires i < |statements|
  {
    RepeatsKey(ExecuteAll(db, statements[..i]), statements[i])
  }

  /** Statement by statement, a store keeps one run a key exactly when none of the inserts
      meets a key already in use. */
  lemma {:induction false} OneRunPerKeyExact(db: Db, statements: seq<Statement>)
    requires IdsRecorded(db) && forall i :: 0 <= i < |statements| ==> KeylessEnsure(statements[i])
    ensures OneRunPerKey(ExecuteAll(db, statements)) <==>
      OneRunPerKey(db) && forall i :: 0 <= i < |statements| ==> !RepeatsKeyAt(db, statements, i)
  {
    hide OneRunPerKey, RepeatsKey, Execute, KeylessEnsure;
    if statements != [] {
      var last := |statements| - 1;
      var front := statements[..last];
      OneRunPerKeyExact(db, front);
      IdsAlwaysRecorded(db, front);
      OneRunStep(ExecuteAll(db, front), statements[last]);
      forall i | 0 <= i < last ensures RepeatsKeyAt(db, statements, i) <==> RepeatsKeyAt(db, front, i) {
        assert front[..i] == statements[..i];
      }
      assert RepeatsKeyAt(db, statements, last) <==> RepeatsKey(ExecuteAll(db, front), statements[last]);
      assert ExecuteAll(db, statements) == Execute(ExecuteAll(db, front), statements[last]);
      hide RepeatsKeyAt, ExecuteAll;
    }
  }

  /** Create as one step, which reuses the run found for the key or inserts one, or any
      other statement. */
  datatype Operation = CreateOnce(kind: string, key: string, row: Row) | Other(statement: Statement)

  /** The statement an operation comes to, if any. */
  ghost function StatementOf(db: Db, op: Operation): Option<Statement> {
    match op
    case CreateOnce(kind, key, row) =>
      if key != "" && HasRun(db, kind, key) then None else Some(InsertRun(row.(kind := kind, key := Some(key))))
    case Other(statement) => Some(statement)
  }

  ghost function Perform(db: Db, op: Operation): Db {
    if StatementOf(db, op).None? then db else Execute(db, StatementOf(db, op).value)
  }

  ghost function PerformAll(db: Db, ops: seq<Operation>): Db {
    if ops == [] then db else Perform(PerformAll(db, ops[..|ops| - 1]), ops[|ops| - 1])
  }

  /** What may run beside atomic creates: keyless inserts and ensures, updates and appends. */
  predicate NeverKeyed(op: Operation) {
    op.Other? ==> KeylessEnsure(op.statement) && (op.statement.InsertRun? ==> op.statement.row.key == None)
  }

  /** With atomic creates a store keeps at most one run a key, however creates are mixed
      with keyless inserts and ensures, updates and appended commands. */
  lemma {:induction false} AtomicCreatesKeepKeysUnique(db: Db, ops: seq<Operation>)
    requires OneRunPerKey(db) && IdsRecorded(db) && forall i :: 0 <= i < |ops| ==> NeverKeyed(ops[i])
    ensures OneRunPerKey(PerformAll(db, ops)) && IdsRecorded(PerformAll(db, ops))
  {
    hide OneRunPerKey, IdsRecorded, Execute, HasRun;
    if ops != [] {
      var op, before := ops[|ops| - 1], PerformAll(db, ops[..|ops| - 1]);
      AtomicCreatesKeepKeysUnique(db, ops[..|ops| - 1]);
      if StatementOf(before, op).Some? {
        OneRunStep(before, StatementOf(before, op).value);
        StepKeepsIds(before, StatementOf(before, op).value);
      }
    }
  }

  /** So every store has at most one run a key. */
  lemma AtomicCreatesMakeKeysUnique(ops: seq<Operation>)
    requires forall i :: 0 <= i < |ops| ==> NeverKeyed(ops[i])
    ensures OneRunPerKey(PerformAll(EMPTY, ops))
  {
    hide PerformAll, NeverKeyed;
    AtomicCreatesKeepKeysUnique(EMPTY, ops);
  }

  /** Two creates that both look before either inserts make two runs for one key; every
      lookup then answers the first, although the second caller was given the other. */
  lemma RacingCreates(kind: string, key: string, row: Row)
    requires key != ""
    ensures IsLookup(EMPTY, kind, key, None)
    ensures var insert := InsertRun(row.(kind := kind, key := Some(key)));
      var db := Execute(Execute(EMPTY, insert), insert);
      Matches(db, 1, kind, key) && Matches(db, 2, kind, key) && IsLookup(db, kind, key, Some(1))
  {
  }
}
