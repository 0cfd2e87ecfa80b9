/** The table of indexed code chunks (internal/vectorstore/sqlitevec/store.go). */
module CodeStore {

  /** The repository part of the primary key; refs of one repository share it. */
  datatype Repo = Repo(organization: int, provider: string, owner: string, name: string)

  datatype Key = Key(repo: Repo, ref: string, path: string, index: nat)

  type Vector = seq<real>

  datatype CodeChunk = CodeChunk(key: Key, startLine: int, endLine: int, text: string, vector: Vector)

  type Rows = map<Key, CodeChunk>

  /** The rows of every other repository. */
  function Without(rows: Rows, repo: Repo): (rest: Rows)
    ensures forall k :: k in rest <==> k in rows && k.repo != repo
    ensures forall k :: k in rest ==> rest[k] == rows[k]
  {
    map k | k in rows && k.repo != repo :: rows[k]
  }

  /** INSERT ... ON CONFLICT DO UPDATE, chunk after chunk. */
  function Upserted(rows: Rows, chunks: seq<CodeChunk>): Rows {
    if chunks == [] then rows
    else
      var last := chunks[|chunks| - 1];
      Upserted(rows, chunks[..|chunks| - 1])[last.key := last]
  }

  ghost predicate AllIn(chunks: seq<CodeChunk>, repo: Repo) {
    forall i :: 0 <= i < |chunks| ==> chunks[i].key.repo == repo
  }

  ghost predicate DistinctKeys(chunks: seq<CodeChunk>) {
    forall i, j :: 0 <= i < j < |chunks| ==> chunks[i].key != chunks[j].key
  }

  function KeysOf(chunks: seq<CodeChunk>): set<Key> {
    if chunks == [] then {} else KeysOf(chunks[..|chunks| - 1]) + {chunks[|chunks| - 1].key}
  }

  function RowsOf(rows: Rows, repo: Repo): set<Key> { set k | k in rows && k.repo == repo }

  class Table {
    var rows: Rows

    constructor ()
      ensures rows == map[]
    {
      rows := map[];
    }

    /** One DELETE statement. */
    method DeleteCodeRepo(repo: Repo, succeeds: bool) returns (ok: bool)
      modifies this
      ensures ok == succeeds
      ensures rows == if ok then Without(old(rows), repo) else old(rows)
      ensures ok ==> forall k :: k in rows <==> k in old(rows) && k.repo != repo
      ensures forall k :: k in rows ==> k in old(rows) && rows[k] == old(rows)[k]
    {
      if succeeds {
        rows := Without(rows, repo);
      }
      return succeeds;
    }

    /** One transaction: it fails at statement failAt, or at the commit when failAt is the
        number of chunks, and rolls back. */
    method UpsertCodeChunks(chunks: seq<CodeChunk>, failAt: nat) returns (ok: bool)
      modifies this
      ensures ok <==> chunks == [] || failAt > |chunks|
      ensures rows == if ok then Upserted(old(rows), chunks) else old(rows)
    {
      if |chunks| == 0 {
        return true;
      }
      var tx := rows;
      for i := 0 to |chunks|
        invariant tx == Upserted(old(rows), chunks[..i]) && i <= failAt && rows == old(rows)
      {
        if i == failAt {
          return false;
        }
        assert chunks[..i + 1][..i] == chunks[..i];
        tx := tx[chunks[i].key := chunks[i]];
      }
      if failAt == |chunks| {
        return false;
      }
      assert chunks[..|chunks|] == chunks;
      rows := tx;
      return true;
    }
  }

  lemma {:induction false} UpsertedKeys(rows: Rows, chunks: seq<CodeChunk>)
    ensures Upserted(rows, chunks).Keys == rows.Keys + KeysOf(chunks)
    ensures forall k :: k in rows && k !in KeysOf(chunks) ==> Upserted(rows, chunks)[k] == rows[k]
  {
    if chunks != [] { UpsertedKeys(rows, chunks[..|chunks| - 1]); }
  }

  lemma {:induction false} KeysOfHas(chunks: seq<CodeChunk>, i: nat)
    requires i < |chunks|
    ensures chunks[i].key in KeysOf(chunks)
  {
    if i < |chunks| - 1 { KeysOfHas(chunks[..|chunks| - 1], i); }
  }

  lemma {:induction false} KeysOfFrom(chunks: seq<CodeChunk>, k: Key) returns (i: nat)
    requires k in KeysOf(chunks)
    ensures i < |chunks| && chunks[i].key == k
  {
    if chunks[|chunks| - 1].key == k {
      i := |chunks| - 1;
    } else {
      i := KeysOfFrom(chunks[..|chunks| - 1], k);
    }
  }

  /** A later chunk replaces an earlier one under the same key, so every stored row is one
      of the chunks, and the last one with its key. */
  lemma {:induction false} UpsertedRow(rows: Rows, chunks: seq<CodeChunk>, i: nat)
    requires i < |chunks| && forall j :: i < j < |chunks| ==> chunks[j].key != chunks[i].key
    ensures chunks[i].key in Upserted(rows, chunks) && Upserted(rows, chunks)[chunks[i].key] == chunks[i]
  {
    if i < |chunks| - 1 { UpsertedRow(rows, chunks[..|chunks| - 1], i); }
  }

  /** There are as many keys as chunks exactly when no key repeats. */
  lemma {:induction false} KeyCount(chunks: seq<CodeChunk>)
    ensures |KeysOf(chunks)| <= |chunks|
    ensures |KeysOf(chunks)| == |chunks| <==> DistinctKeys(chunks)
  {
    if chunks != [] {
      var front, last := chunks[..|chunks| - 1], |chunks| - 1;
      KeyCount(front);
      if chunks[last].key in KeysOf(front) {
        var i := KeysOfFrom(front, chunks[last].key);
        assert chunks[i].key == chunks[last].key;
      } else {
        forall i | 0 <= i < last ensures chunks[i].key != chunks[last].key { KeysOfHas(front, i); }
        assert DistinctKeys(front) <==> DistinctKeys(chunks);
      }
    }
  }

  lemma ReplacedKeys(rows: Rows, repo: Repo, chunks: seq<CodeChunk>)
    requires AllIn(chunks, repo)
    ensures RowsOf(Upserted(Without(rows, repo), chunks), repo) == KeysOf(chunks)
    ensures Without(Upserted(Without(rows, repo), chunks), repo) == Without(rows, repo)
  {
    hide KeysOf, Upserted;
    var kept := Without(rows, repo);
    UpsertedKeys(kept, chunks);
    forall k | k in KeysOf(chunks) ensures k.repo == repo {
      var i := KeysOfFrom(chunks, k);
    }
    var after := Upserted(kept, chunks);
    assert forall k :: k in after <==> k in kept || k in KeysOf(chunks);
  }

  lemma ReplacedRows(rows: Rows, repo: Repo, chunks: seq<CodeChunk>)
    requires AllIn(chunks, repo)
    ensures var after := Upserted(Without(rows, repo), chunks);
      && (forall k: Key :: k.repo != repo ==> (k in after <==> k in rows) && (k in after ==> after[k] == rows[k]))
      && (forall k: Key :: k.repo == repo ==> (k in after <==> exists i :: 0 <= i < |chunks| && chunks[i].key == k))
  {
    hide KeysOf, Upserted;
    var kept := Without(rows, repo);
    UpsertedKeys(kept, chunks);
    forall k ensures k in KeysOf(chunks) <==> exists i :: 0 <= i < |chunks| && chunks[i].key == k {
      if k in KeysOf(chunks) { var i := KeysOfFrom(chunks, k); }
      if i: nat :| i < |chunks| && chunks[i].key == k { KeysOfHas(chunks, i); }
    }
    hide AllIn;
    assert forall k :: k in Upserted(kept, chunks) <==> k in kept || k in KeysOf(chunks);
    assert forall i :: 0 <= i < |chunks| ==> chunks[i].key.repo == repo by { AllInMeans(chunks, repo); }
  }

  lemma AllInMeans(chunks: seq<CodeChunk>, repo: Repo)
    requires AllIn(chunks, repo)
    ensures forall i :: 0 <= i < |chunks| ==> chunks[i].key.repo == repo
  {
  }

  /** Delete then upsert: the repository's rows, under every ref, become exactly the new
      chunks' rows, all other rows stay, and the row count is the chunk count exactly when
      no key repeats. */
  lemma {:induction false} Replacement(rows: Rows, repo: Repo, chunks: seq<CodeChunk>)
    requires AllIn(chunks, repo)
    ensures var after := Upserted(Without(rows, repo), chunks);
      && (forall k: Key :: k.repo != repo ==> (k in after <==> k in rows) && (k in after ==> after[k] == rows[k]))
      && (forall k: Key :: k.repo == repo ==> (k in after <==> exists i :: 0 <= i < |chunks| && chunks[i].key == k))
      && Without(after, repo) == Without(rows, repo)
      && RowsOf(after, repo) == KeysOf(chunks)
      && (|RowsOf(after, repo)| == |chunks| <==> DistinctKeys(chunks))
      && (DistinctKeys(chunks) ==> forall i :: 0 <= i < |chunks| ==>
            chunks[i].key in after && after[chunks[i].key] == chunks[i])
  {
    hide KeysOf, Upserted, Without, RowsOf;
    ReplacedKeys(rows, repo, chunks);
    ReplacedRows(rows, repo, chunks);
    KeyCount(chunks);
    if DistinctKeys(chunks) {
      forall i | 0 <= i < |chunks|
        ensures var after := Upserted(Without(rows, repo), chunks);
          chunks[i].key in after && after[chunks[i].key] == chunks[i]
      {
        UpsertedRow(Without(rows, repo), chunks, i);
      }
    }
  }
}
