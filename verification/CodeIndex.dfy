/** Indexing a repository: read its tree, chunk its text files, embed the chunks, replace
    the stored index (internal/codeindex/service.go). */
module CodeIndex {
  import opened Results
  import opened CodeStore
  import opened TreeWalk
  import Chunking
  import Whitespace

  const MAX_CODE_FILE_BYTES := 0x10_0000
  const EMBED_BATCH_SIZE := 64

  /** The chunk settings New leaves in the service. */
  datatype Config = Config(size: nat, overlap: nat)

  function New(chunkSize: int, chunkOverlap: int): (c: Config)
    ensures 0 < c.size && c.overlap < c.size
    ensures c.size == if chunkSize > 0 then chunkSize else 1000
    ensures c.overlap == if 0 <= chunkOverlap < c.size then chunkOverlap else c.size / 5
    ensures Chunking.StepOf(c.size, c.overlap) == c.size - c.overlap
  {
    var size := if chunkSize <= 0 then 1000 else chunkSize;
    Config(size, if chunkOverlap < 0 || chunkOverlap >= size then size / 5 else chunkOverlap)
  }

  /** File content as the indexer looks at it: its bytes' length, its runes when it is
      valid UTF-8, and whether a NUL byte shows near its start. */
  datatype Content = Content(bytes: nat, runes: Option<seq<char>>, looksBinary: bool)

  datatype FileRead = Missing | Failed | Read(content: Content)

  /** The repository host's answers during one indexing pass. */
  datatype Host = Host(defaultBranch: Option<string>, tree: string -> Option<seq<TreeEntry>>,
                       read: (string, string) -> FileRead)

  datatype Request = Request(organization: int, provider: string, owner: string, name: string, ref: string)

  datatype Stats = Stats(filesIndexed: nat, filesSkipped: nat, chunksStored: nat)

  datatype Error = NotConfigured | NoName | HostError | Cancelled | EmbedError | DeleteError | UpsertError

  /** Everything about a pass that decides what one tree entry contributes. */
  datatype Job = Job(host: Host, config: Config, repo: Repo, ref: string, indexable: string -> bool)

  datatype Verdict = Skip | Index(chunks: seq<CodeChunk>) | Stop

  /** The chunks of one file under their keys, not embedded yet. */
  function Labelled(repo: Repo, ref: string, path: string, cs: seq<Chunking.Chunk>): seq<CodeChunk> {
    if cs == [] then []
    else
      var last := |cs| - 1;
      Labelled(repo, ref, path, cs[..last])
      + [CodeChunk(Key(repo, ref, path, last), cs[last].startLine, cs[last].endLine, cs[last].text, [])]
  }

  function ChunksOf(job: Job, runes: seq<char>): seq<Chunking.Chunk>
    requires job.config.size > 0
  {
    Chunking.Chunks(runes, job.config.size, job.config.overlap)
  }

  /** What the loop body of IndexRepo does with one tree entry. */
  function Judge(job: Job, entry: TreeEntry): Verdict
    requires job.config.size > 0
  {
    if entry.kind != "blob" || !job.indexable(entry.path) || entry.size > MAX_CODE_FILE_BYTES then Skip
    else match job.host.read(job.ref, entry.path)
      case Missing => Skip
      case Failed => Stop
      case Read(content) =>
        if content.bytes == 0 || content.bytes > MAX_CODE_FILE_BYTES || content.runes.None? || content.looksBinary
        then Skip
        else
          var cs := ChunksOf(job, content.runes.value);
          if cs == [] then Skip else Index(Labelled(job.repo, job.ref, entry.path, cs))
  }

  /** The chunks of all entries, in tree order. */
  function Collect(job: Job, tree: seq<TreeEntry>): seq<CodeChunk>
    requires job.config.size > 0
  {
    if tree == [] then []
    else
      var verdict := Judge(job, tree[|tree| - 1]);
      Collect(job, tree[..|tree| - 1]) + if verdict.Index? then verdict.chunks else []
  }

  // ---- embedding in batches ----

  type Embedder = seq<string> -> Option<seq<Vector>>

  /** An embedder that treats every text on its own. */
  ghost predicate TextByText(embed: Embedder, one: string -> Vector) {
    forall ts, i :: embed(ts).Some? && 0 <= i < |ts| == |embed(ts).value| ==> embed(ts).value[i] == one(ts[i])
  }

  function Texts(chunks: seq<CodeChunk>): seq<string> {
    seq(|chunks|, i requires 0 <= i < |chunks| => chunks[i].text)
  }

  ghost predicate Answers(embed: Embedder, texts: seq<string>) {
    embed(texts).Some? && |embed(texts).value| == |texts|
  }

  /** The provider answers every batch from start on with one vector a text. */
  ghost predicate AnswersFrom(embed: Embedder, texts: seq<string>, start: nat)
    requires start <= |texts|
    decreases |texts| - start
  {
    start == |texts| ||
    (var end := Chunking.Min(start + EMBED_BATCH_SIZE, |texts|);
     Answers(embed, texts[start..end]) && AnswersFrom(embed, texts, end))
  }

  /** Equal in everything but the vector. */
  ghost predicate SameButVector(a: CodeChunk, b: CodeChunk) { a.(vector := b.vector) == b }

  /** The inner loop: one batch of vectors is written into the slice it came from. */
  method StoreVectors(chunks: array<CodeChunk>, start: nat, end: nat, vectors: seq<Vector>)
    requires start <= end <= chunks.Length && |vectors| == end - start
    modifies chunks
    ensures forall i :: 0 <= i < chunks.Length ==>
      chunks[i] == if start <= i < end then old(chunks[i]).(vector := vectors[i - start]) else old(chunks[i])
  {
    for index := 0 to |vectors|
      invariant forall i :: 0 <= i < chunks.Length ==>
        chunks[i] == if start <= i < start + index
                     then old(chunks[i]).(vector := vectors[i - start]) else old(chunks[i])
    {
      chunks[start + index] := chunks[start + index].(vector := vectors[index]);
    }
  }

  /** The calls are the texts in order, 64 at a time but for the last. */
  ghost predicate Batched(texts: seq<string>, calls: seq<seq<string>>) {
    forall j :: 0 <= j < |calls| ==>
      64 * j < |texts| && calls[j] == texts[64 * j..if 64 * j + 64 < |texts| then 64 * j + 64 else |texts|]
  }

  lemma AnswersStep(embed: Embedder, texts: seq<string>, start: nat)
    requires start < |texts|
    ensures var end := Chunking.Min(start + EMBED_BATCH_SIZE, |texts|);
      AnswersFrom(embed, texts, start) <==> Answers(embed, texts[start..end]) && AnswersFrom(embed, texts, end)
  {
  }

  lemma NothingLeft(embed: Embedder, texts: seq<string>)
    ensures AnswersFrom(embed, texts, |texts|)
  {
  }

  lemma VectorsAre(embed: Embedder, one: string -> Vector, batch: seq<string>)
    requires TextByText(embed, one) && Answers(embed, batch)
    ensures forall i :: 0 <= i < |batch| ==> embed(batch).value[i] == one(batch[i])
  {
  }

  lemma NoBatch(texts: seq<string>)
    ensures Batched(texts, [])
  {
  }

  lemma OneMoreBatch(texts: seq<string>, calls: seq<seq<string>>)
    requires Batched(texts, calls) && 64 * |calls| < |texts|
    ensures var from := 64 * |calls|;
      Batched(texts, calls + [texts[from..if from + 64 < |texts| then from + 64 else |texts|]])
  {
  }

  /** embedChunks: batching is invisible. `calls` are the batches sent. */
  method EmbedChunks(chunks: array<CodeChunk>, embed: Embedder, ghost one: string -> Vector)
    returns (ok: bool, ghost calls: seq<seq<string>>)
    modifies chunks
    ensures Batched(Texts(old(chunks[..])), calls)
    ensures ok ==> 64 * |calls| >= chunks.Length
    ensures ok <==> AnswersFrom(embed, Texts(old(chunks[..])), 0)
    ensures forall i :: 0 <= i < chunks.Length ==> SameButVector(old(chunks[i]), chunks[i])
    ensures ok && TextByText(embed, one) ==>
      forall i :: 0 <= i < chunks.Length ==> chunks[i] == old(chunks[i]).(vector := one(old(chunks[i]).text))
  {
    hide Batched, AnswersFrom, TextByText;
    ghost var texts := Texts(chunks[..]);
    NoBatch(texts);
    var start := 0;
    calls := [];
    while start < chunks.Length
      invariant start == if 64 * |calls| < chunks.Length then 64 * |calls| else chunks.Length
      invariant Batched(texts, calls)
      invariant 0 <= start <= chunks.Length == |texts|
      invariant AnswersFrom(embed, texts, 0) <==> AnswersFrom(embed, texts, start)
      invariant forall i :: 0 <= i < chunks.Length ==> SameButVector(old(chunks[i]), chunks[i])
      invariant forall i :: start <= i < chunks.Length ==> chunks[i] == old(chunks[i])
      invariant TextByText(embed, one) ==>
        forall i :: 0 <= i < start ==> chunks[i] == old(chunks[i]).(vector := one(old(chunks[i]).text))
    {
      var end := Chunking.Min(start + EMBED_BATCH_SIZE, chunks.Length);
      var batch := Texts(chunks[start..end]);
      assert batch == texts[start..end];
      OneMoreBatch(texts, calls);
      AnswersStep(embed, texts, start);
      calls := calls + [batch];
      var vectors := embed(batch);
      if vectors.None? {
        return false, calls;
      }
      if |vectors.value| != |batch| {
        return false, calls;
      }
      if TextByText(embed, one) { VectorsAre(embed, one, batch); }
      StoreVectors(chunks, start, end, vectors.value);
      start := end;
    }
    NothingLeft(embed, texts);
    return true, calls;
  }

  // ---- the whole pass ----

  method ChunkFile(job: Job, entry: TreeEntry, runes: seq<char>) returns (labelled: seq<CodeChunk>)
    requires job.config.size > 0
    ensures labelled == Labelled(job.repo, job.ref, entry.path, ChunksOf(job, runes))
    ensures |labelled| == |Chunking.Chunks(runes, job.config.size, job.config.overlap)|
    ensures forall i :: 0 <= i < |labelled| ==>
      var c := Chunking.Chunks(runes, job.config.size, job.config.overlap)[i];
      && labelled[i].key == Key(job.repo, job.ref, entry.path, i)
      && labelled[i].text == c.text && labelled[i].startLine == c.startLine && labelled[i].endLine == c.endLine
  {
    hide Labelled;
    var chunks, _ := Chunking.ChunkText(runes, job.config.size, job.config.overlap);
    labelled := [];
    assert chunks[..0] == [];
    LabelledNone(job.repo, job.ref, entry.path);
    for index := 0 to |chunks|
      invariant labelled == Labelled(job.repo, job.ref, entry.path, chunks[..index])
      invariant |labelled| == index
      invariant forall i :: 0 <= i < index ==>
        && labelled[i].key == Key(job.repo, job.ref, entry.path, i) && labelled[i].text == chunks[i].text
        && labelled[i].startLine == chunks[i].startLine && labelled[i].endLine == chunks[i].endLine
    {
      LabelledMore(job.repo, job.ref, entry.path, chunks, index);
      labelled := labelled + [CodeChunk(Key(job.repo, job.ref, entry.path, index),
                                        chunks[index].startLine, chunks[index].endLine, chunks[index].text, [])];
    }
    assert chunks[..|chunks|] == chunks;
  }

  lemma LabelledNone(repo: Repo, ref: string, path: string)
    ensures Labelled(repo, ref, path, []) == []
  {
  }

  lemma LabelledMore(repo: Repo, ref: string, path: string, cs: seq<Chunking.Chunk>, i: nat)
    requires i < |cs|
    ensures Labelled(repo, ref, path, cs[..i + 1]) == Labelled(repo, ref, path, cs[..i])
        + [CodeChunk(Key(repo, ref, path, i), cs[i].startLine, cs[i].endLine, cs[i].text, [])]
  {
    assert cs[..i + 1][..i] == cs[..i];
  }

  /** Nothing stops the loop over the tree: the context stays live and the host answers. */
  ghost predicate Scans(job: Job, tree: seq<TreeEntry>, cancelled: nat -> bool)
    requires job.config.size > 0
  {
    forall i :: 0 <= i < |tree| ==> !cancelled(i) && !Judge(job, tree[i]).Stop?
  }

  /** The first entry that stops the loop stops it with this error. */
  ghost predicate StopsWith(job: Job, tree: seq<TreeEntry>, cancelled: nat -> bool, error: Error)
    requires job.config.size > 0
  {
    exists i ::
      && 0 <= i < |tree|
      && (forall j :: 0 <= j < i ==> !cancelled(j) && !Judge(job, tree[j]).Stop?)
      && (if cancelled(i) then error == Cancelled else Judge(job, tree[i]).Stop? && error == HostError)
  }

  /** The entries below n of which chunks are made. */
  ghost function IndexedBelow(job: Job, tree: seq<TreeEntry>, n: nat): set<int>
    requires job.config.size > 0 && n <= |tree|
  {
    set i | 0 <= i < n && Judge(job, tree[i]).Index?
  }

  lemma OneMoreIndexed(job: Job, tree: seq<TreeEntry>, n: nat)
    requires job.config.size > 0 && n < |tree|
    ensures |IndexedBelow(job, tree, n + 1)|
         == |IndexedBelow(job, tree, n)| + if Judge(job, tree[n]).Index? then 1 else 0
  {
    hide Judge;
    var before := IndexedBelow(job, tree, n);
    assert n !in before;
    assert IndexedBelow(job, tree, n + 1) == before + if Judge(job, tree[n]).Index? then {n} else {};
  }

  /** The loop over the tree. It stops early exactly at a cancelled context or a host error. */
  method ScanTree(job: Job, tree: seq<TreeEntry>, cancelled: nat -> bool)
    returns (chunks: seq<CodeChunk>, stats: Stats, error: Option<Error>)
    requires job.config.size > 0
    ensures error.None? <==> Scans(job, tree, cancelled)
    ensures error.None? ==>
      && chunks == Collect(job, tree)
      && stats.filesIndexed + stats.filesSkipped == |tree|
      && stats.filesIndexed == |IndexedBelow(job, tree, |tree|)|
      && (stats.filesIndexed == 0 <==> chunks == [])
    ensures error.Some? ==> StopsWith(job, tree, cancelled, error.value)
    ensures stats.chunksStored == 0
  {
    hide Collect, ChunksOf, Labelled, IndexedBelow;
    NothingCollected(job, tree);
    chunks, stats, error := [], Stats(0, 0, 0), None;
    for i := 0 to |tree|
      invariant chunks == Collect(job, tree[..i])
      invariant stats.filesIndexed + stats.filesSkipped == i && stats.chunksStored == 0
      invariant stats.filesIndexed == 0 <==> chunks == []
      invariant stats.filesIndexed == |IndexedBelow(job, tree, i)|
      invariant forall j :: 0 <= j < i ==> !cancelled(j) && !Judge(job, tree[j]).Stop?
    {
      var entry := tree[i];
      OneMoreEntry(job, tree, i);
      OneMoreIndexed(job, tree, i);
      if cancelled(i) {
        return chunks, stats, Some(Cancelled);
      }
      if entry.kind != "blob" || !job.indexable(entry.path) || entry.size > MAX_CODE_FILE_BYTES {
        stats := stats.(filesSkipped := stats.filesSkipped + 1);
        continue;
      }
      var read := job.host.read(job.ref, entry.path);
      if read.Missing? {
        stats := stats.(filesSkipped := stats.filesSkipped + 1);
        continue;
      }
      if read.Failed? {
        return chunks, stats, Some(HostError);
      }
      var content := read.content;
      if content.bytes == 0 || content.bytes > MAX_CODE_FILE_BYTES || content.runes.None? || content.looksBinary {
        stats := stats.(filesSkipped := stats.filesSkipped + 1);
        continue;
      }
      var labelled := ChunkFile(job, entry, content.runes.value);
      LabelledSize(job.repo, job.ref, entry.path, ChunksOf(job, content.runes.value));
      if |labelled| == 0 {
        stats := stats.(filesSkipped := stats.filesSkipped + 1);
        continue;
      }
      stats := stats.(filesIndexed := stats.filesIndexed + 1);
      chunks := chunks + labelled;
    }
    assert tree[..|tree|] == tree;
  }

  lemma NothingCollected(job: Job, tree: seq<TreeEntry>)
    requires job.config.size > 0
    ensures Collect(job, tree[..0]) == [] && IndexedBelow(job, tree, 0) == {}
  {
  }

  lemma OneMoreEntry(job: Job, tree: seq<TreeEntry>, i: nat)
    requires job.config.size > 0 && i < |tree|
    ensures var verdict := Judge(job, tree[i]);
      Collect(job, tree[..i + 1]) == Collect(job, tree[..i]) + if verdict.Index? then verdict.chunks else []
  {
    hide Judge;
    assert tree[..i + 1][..i] == tree[..i];
  }

  lemma {:induction false} LabelledSize(repo: Repo, ref: string, path: string, cs: seq<Chunking.Chunk>)
    ensures |Labelled(repo, ref, path, cs)| == |cs|
  {
    if cs != [] { LabelledSize(repo, ref, path, cs[..|cs| - 1]); }
  }

  /** stored differs from the collected chunks in its vectors only. */
  ghost predicate EmbeddingOf(chunks: seq<CodeChunk>, stored: seq<CodeChunk>) {
    |stored| == |chunks| && forall i :: 0 <= i < |chunks| ==> SameButVector(chunks[i], stored[i])
  }

  /** A chunk of the file at entry j of the tree: its text stands at offset o, and its lines
      are those of the text. */
  ghost predicate CutFrom(job: Job, tree: seq<TreeEntry>, c: CodeChunk, j: nat, o: nat)
    requires job.config.size > 0
  {
    && j < |tree| && Judge(job, tree[j]).Index?
    && job.host.read(job.ref, tree[j].path).Read? && job.host.read(job.ref, tree[j].path).content.runes.Some?
    && var runes := job.host.read(job.ref, tree[j].path).content.runes.value;
    && o + |c.text| <= |runes| && c.text == runes[o..o + |c.text|] && 0 < |c.text| <= job.config.size
    && c.key.repo == job.repo && c.key.ref == job.ref && c.key.path == tree[j].path
    && c.startLine == 1 + multiset(runes[..o])['\n']
    && c.endLine == c.startLine + multiset(c.text)['\n']
  }

  ghost predicate CutFromTree(job: Job, tree: seq<TreeEntry>, c: CodeChunk)
    requires job.config.size > 0
  {
    exists j: nat, o: nat :: CutFrom(job, tree, c, j, o)
  }

  /** The end of IndexRepo: embed the chunks, delete the repository's rows, upsert. */
  method ReplaceIndex(chunks: seq<CodeChunk>, repo: Repo, embed: Embedder, table: Table, deleteSucceeds: bool,
                      upsertFailsAt: nat, ghost one: string -> Vector)
    returns (error: Option<Error>, ghost stored: seq<CodeChunk>)
    requires chunks != []
    modifies table
    ensures error == if !AnswersFrom(embed, Texts(chunks), 0) then Some(EmbedError)
                     else if !deleteSucceeds then Some(DeleteError)
                     else if upsertFailsAt <= |chunks| then Some(UpsertError)
                     else None
    ensures error.Some? && error != Some(UpsertError) ==> table.rows == old(table.rows)
    ensures error == Some(UpsertError) ==> table.rows == Without(old(table.rows), repo)
    ensures error.None? ==>
      && EmbeddingOf(chunks, stored)
      && (TextByText(embed, one) ==> forall i :: 0 <= i < |stored| ==> stored[i].vector == one(stored[i].text))
      && table.rows == Upserted(Without(old(table.rows), repo), stored)
  {
    error, stored := None, [];
    var buffer := new CodeChunk[|chunks|](i requires 0 <= i < |chunks| => chunks[i]);
    assert buffer[..] == chunks;
    hide Upserted, Without, AnswersFrom;
    var embedded, calls := EmbedChunks(buffer, embed, one);
    if !embedded {
      return Some(EmbedError), [];
    }
    var deleted := table.DeleteCodeRepo(repo, deleteSucceeds);
    if !deleted {
      return Some(DeleteError), [];
    }
    stored := buffer[..];
    var upserted := table.UpsertCodeChunks(buffer[..], upsertFailsAt);
    if !upserted {
      return Some(UpsertError), stored;
    }
  }

  /** IndexRepo. It succeeds exactly when the service is configured, the repository is named,
      the host knows the branch and serves its tree, nothing stops the scan, and what that
      collected, if anything, is embedded and stored; every failure has its own error. A pass
      that fails before the delete, or that finds no chunk, leaves the table alone; a failed
      upsert leaves the repository without rows; a successful pass replaces the repository's
      rows by the chunks of the whole tree. */
  method IndexRepo(host: Option<Host>, hostName: string, config: Config, request: Request, indexable: string -> bool,
                   cancelled: nat -> bool, embed: Embedder, table: Table, deleteSucceeds: bool, upsertFailsAt: nat,
                   ghost one: string -> Vector)
    returns (stats: Stats, error: Option<Error>, ghost stored: seq<CodeChunk>)
    requires config.size > 0
    modifies table
    ensures host.None? ==> error == Some(NotConfigured)
    ensures host.Some? && (request.owner == "" || request.name == "") ==> error == Some(NoName)
    ensures error.Some? && error != Some(UpsertError) ==> table.rows == old(table.rows)
    ensures host.Some? && request.owner != "" && request.name != "" ==>
      var ref := if request.ref == "" then host.value.defaultBranch else Some(request.ref);
      var repo := Repo(request.organization, if request.provider == "" then hostName else request.provider,
                       request.owner, request.name);
      if ref.None? || host.value.tree(ref.value).None? then error == Some(HostError)
      else
        var tree := host.value.tree(ref.value).value;
        var job := Job(host.value, config, repo, ref.value, indexable);
        var collected := Collect(job, tree);
        if !Scans(job, tree, cancelled) then error.Some? && StopsWith(job, tree, cancelled, error.value)
        else
          && stats.filesIndexed + stats.filesSkipped == |tree|
          && stats.filesIndexed == |IndexedBelow(job, tree, |tree|)|
          && error == (if collected == [] then None
                       else if !AnswersFrom(embed, Texts(collected), 0) then Some(EmbedError)
                       else if !deleteSucceeds then Some(DeleteError)
                       else if upsertFailsAt <= |collected| then Some(UpsertError)
                       else None)
          && (error == Some(UpsertError) ==> table.rows == Without(old(table.rows), repo))
          && (error.None? ==>
                && stats.chunksStored == |collected|
                && EmbeddingOf(collected, stored)
                && (forall i :: 0 <= i < |stored| ==> CutFromTree(job, tree, stored[i]))
                && (TextByText(embed, one) ==>
                      forall i :: 0 <= i < |stored| ==> stored[i].vector == one(stored[i].text))
                && table.rows == if collected == [] then old(table.rows)
                                 else Upserted(Without(old(table.rows), repo), stored))
  {
    stats, error, stored := Stats(0, 0, 0), None, [];
    if host.None? {
      return stats, Some(NotConfigured), [];
    }
    if request.owner == "" || request.name == "" {
      return stats, Some(NoName), [];
    }
    var provider := request.provider;
    if provider == "" {
      provider := hostName;
    }
    var ref := request.ref;
    if ref == "" {
      var defaultBranch := host.value.defaultBranch;
      if defaultBranch.None? {
        return stats, Some(HostError), [];
      }
      ref := defaultBranch.value;
    }
    var tree := host.value.tree(ref);
    if tree.None? {
      return stats, Some(HostError), [];
    }
    var repo := Repo(request.organization, provider, request.owner, request.name);
    var job := Job(host.value, config, repo, ref, indexable);
    var chunks;
    chunks, stats, error := ScanTree(job, tree.value, cancelled);
    if error.Some? || |chunks| == 0 {
      return;
    }
    hide Scans, Collect, Upserted, Without, AnswersFrom, StopsWith, IndexedBelow, CutFromTree;
    error, stored := ReplaceIndex(chunks, job.repo, embed, table, deleteSucceeds, upsertFailsAt, one);
    if error.Some? {
      return;
    }
    StoredIsCut(job, tree.value, stored);
    stats := stats.(chunksStored := |chunks|);
  }

  // ---- distinct paths give distinct keys ----

  lemma {:induction false} LabelledAt(repo: Repo, ref: string, path: string, cs: seq<Chunking.Chunk>, i: nat)
    requires i < |cs|
    ensures |Labelled(repo, ref, path, cs)| == |cs|
    ensures Labelled(repo, ref, path, cs)[i]
         == CodeChunk(Key(repo, ref, path, i), cs[i].startLine, cs[i].endLine, cs[i].text, [])
  {
    LabelledSize(repo, ref, path, cs[..|cs| - 1]);
    if i < |cs| - 1 { LabelledAt(repo, ref, path, cs[..|cs| - 1], i); }
  }

  /** Chunk i of an indexed entry: its key, and where it was cut. */
  lemma FileChunk(job: Job, entry: TreeEntry, i: nat) returns (o: nat)
    requires job.config.size > 0 && Judge(job, entry).Index? && i < |Judge(job, entry).chunks|
    ensures Judge(job, entry).chunks[i].key == Key(job.repo, job.ref, entry.path, i)
    ensures CutFrom(job, [entry], Judge(job, entry).chunks[i], 0, o)
  {
    var runes := job.host.read(job.ref, entry.path).content.runes.value;
    var size, overlap := job.config.size, job.config.overlap;
    var cs := Chunking.Chunks(runes, size, overlap);
    FileChunks(job, entry);
    hide Judge, Labelled;
    LabelledAt(job.repo, job.ref, entry.path, cs, i);
    hide Chunking.Chunks, Chunking.Kept, Chunking.WindowStart, Chunking.WindowCount, Chunking.Cut, Whitespace.Blank;
    Chunking.OneChunkEach(runes, size, overlap);
    Chunking.ChunkIsSlice(runes, size, overlap, i);
    Chunking.LineSpan(runes, size, overlap, i);
    o := Chunking.WindowStart(Chunking.StepOf(size, overlap), Chunking.Kept(runes, size, overlap)[i]);
  }

  lemma FileChunks(job: Job, entry: TreeEntry)
    requires job.config.size > 0 && Judge(job, entry).Index?
    ensures job.host.read(job.ref, entry.path).Read? && job.host.read(job.ref, entry.path).content.runes.Some?
    ensures var cs := Chunking.Chunks(job.host.read(job.ref, entry.path).content.runes.value,
                                      job.config.size, job.config.overlap);
      Judge(job, entry).chunks == Labelled(job.repo, job.ref, entry.path, cs)
      && |Judge(job, entry).chunks| == |cs| > 0
  {
    var cs := ChunksOf(job, job.host.read(job.ref, entry.path).content.runes.value);
    hide Chunking.Chunks, Labelled;
    LabelledSize(job.repo, job.ref, entry.path, cs);
  }

  /** Chunks are made of an entry exactly when it is a file with an indexable path and at
      most a mebibyte of text that is not blank; the scan stops at it exactly when it would
      be read and the host fails. */
  lemma JudgeExact(job: Job, entry: TreeEntry)
    requires job.config.size > 0
    ensures var read := job.host.read(job.ref, entry.path);
      var file := entry.kind == "blob" && job.indexable(entry.path) && entry.size <= 1048576;
      && (Judge(job, entry).Stop? <==> file && read.Failed?)
      && (Judge(job, entry).Index? <==>
            && file && read.Read? && 0 < read.content.bytes <= 1048576
            && read.content.runes.Some? && !read.content.looksBinary
            && exists i :: 0 <= i < |read.content.runes.value| && !Whitespace.IsSpace(read.content.runes.value[i]))
  {
    var read := job.host.read(job.ref, entry.path);
    if read.Read? && read.content.runes.Some? {
      NotBlank(read.content.runes.value, job.config.size, job.config.overlap);
      hide Chunking.Chunks, Labelled, Whitespace.IsSpace;
    }
  }

  lemma NotBlank(runes: seq<char>, size: nat, overlap: nat)
    requires size > 0
    ensures Chunking.Chunks(runes, size, overlap) != [] <==>
      exists i :: 0 <= i < |runes| && !Whitespace.IsSpace(runes[i])
  {
    hide Chunking.Chunks, Chunking.Kept, Whitespace.IsSpace;
    Chunking.OneChunkEach(runes, size, overlap);
    if Chunking.Chunks(runes, size, overlap) != [] {
      Chunking.ChunkIsSlice(runes, size, overlap, 0);
      var text := Chunking.Chunks(runes, size, overlap)[0].text;
      var i :| 0 <= i < |text| && !Whitespace.IsSpace(text[i]);
      var start := Chunking.WindowStart(Chunking.StepOf(size, overlap), Chunking.Kept(runes, size, overlap)[0]);
      assert runes[start + i] == text[i];
    }
    if i :| 0 <= i < |runes| && !Whitespace.IsSpace(runes[i]) {
      var k := Chunking.NothingLost(runes, size, overlap, i);
    }
  }

  /** Every collected chunk belongs to the repository and to an indexed entry of the tree. */
  lemma {:induction false} CollectedFrom(job: Job, tree: seq<TreeEntry>, i: nat) returns (j: nat, o: nat)
    requires job.config.size > 0 && i < |Collect(job, tree)|
    ensures CutFrom(job, tree, Collect(job, tree)[i], j, o)
  {
    hide Judge;
    var front, last := Collect(job, tree[..|tree| - 1]), tree[|tree| - 1];
    if i < |front| {
      j, o := CollectedFrom(job, tree[..|tree| - 1], i);
    } else {
      j := |tree| - 1;
      o := FileChunk(job, last, i - |front|);
    }
  }

  /** So does every stored one. */
  lemma StoredIsCut(job: Job, tree: seq<TreeEntry>, stored: seq<CodeChunk>)
    requires job.config.size > 0 && EmbeddingOf(Collect(job, tree), stored)
    ensures forall i :: 0 <= i < |stored| ==> CutFromTree(job, tree, stored[i])
  {
    hide Collect, Judge;
    forall i | 0 <= i < |stored| ensures CutFromTree(job, tree, stored[i]) {
      assert SameButVector(Collect(job, tree)[i], stored[i]);
      var j, o := CollectedFrom(job, tree, i);
      assert CutFrom(job, tree, stored[i], j, o);
    }
  }

  lemma {:induction false} CollectPrefix(job: Job, tree: seq<TreeEntry>, i: nat)
    requires job.config.size > 0 && i <= |tree|
    ensures Collect(job, tree[..i]) <= Collect(job, tree)
  {
    hide Judge;
    if i < |tree| {
      CollectPrefix(job, tree[..|tree| - 1], i);
      assert tree[..|tree| - 1][..i] == tree[..i];
    } else {
      assert tree[..i] == tree;
    }
  }

  /** Every chunk of every indexed entry is collected, an entry's together and in order. */
  lemma CollectHas(job: Job, tree: seq<TreeEntry>, i: nat, k: nat)
    requires job.config.size > 0 && i < |tree| && Judge(job, tree[i]).Index? && k < |Judge(job, tree[i]).chunks|
    ensures |Collect(job, tree[..i])| + k < |Collect(job, tree[..i + 1])| <= |Collect(job, tree)|
    ensures Collect(job, tree)[|Collect(job, tree[..i])| + k] == Judge(job, tree[i]).chunks[k]
  {
    hide Judge, Collect;
    OneMoreEntry(job, tree, i);
    CollectPrefix(job, tree, i + 1);
  }

  /** No two entries of which chunks are made share a path. */
  ghost predicate DistinctIndexed(job: Job, tree: seq<TreeEntry>)
    requires job.config.size > 0
  {
    forall i, j :: 0 <= i < j < |tree| && Judge(job, tree[i]).Index? && Judge(job, tree[j]).Index? ==>
      tree[i].path != tree[j].path
  }

  lemma {:induction false} CollectedKeysDistinct(job: Job, tree: seq<TreeEntry>, i: nat, j: nat)
    requires job.config.size > 0 && DistinctIndexed(job, tree) && i < j < |Collect(job, tree)|
    ensures Collect(job, tree)[i].key != Collect(job, tree)[j].key
  {
    hide Judge, CutFrom;
    var front, last := tree[..|tree| - 1], tree[|tree| - 1];
    var n := |Collect(job, front)|;
    if j < n {
      assert DistinctIndexed(job, front);
      CollectedKeysDistinct(job, front, i, j);
    } else {
      var _ := FileChunk(job, last, j - n);
      if i < n {
        var e, o := CollectedFrom(job, front, i);
        CutHasPath(job, front, Collect(job, front)[i], e, o);
        assert tree[e].path != last.path;
      } else {
        var _ := FileChunk(job, last, i - n);
      }
    }
  }

  lemma CutHasPath(job: Job, tree: seq<TreeEntry>, c: CodeChunk, j: nat, o: nat)
    requires job.config.size > 0 && CutFrom(job, tree, c, j, o)
    ensures j < |tree| && Judge(job, tree[j]).Index? && c.key.path == tree[j].path && c.key.repo == job.repo
  {
  }

  /** The collected chunks have distinct keys exactly when no two indexed entries share a
      path: every indexed entry has a first chunk, under its path. */
  lemma {:induction false} KeysDistinctExactly(job: Job, tree: seq<TreeEntry>)
    requires job.config.size > 0
    ensures DistinctKeys(Collect(job, tree)) <==> DistinctIndexed(job, tree)
  {
    hide Judge, Collect, CutFrom;
    if DistinctIndexed(job, tree) {
      forall i, j | 0 <= i < j < |Collect(job, tree)| ensures Collect(job, tree)[i].key != Collect(job, tree)[j].key {
        CollectedKeysDistinct(job, tree, i, j);
      }
    }
    if DistinctKeys(Collect(job, tree)) {
      forall i, j | 0 <= i < j < |tree| && Judge(job, tree[i]).Index? && Judge(job, tree[j]).Index?
        ensures tree[i].path != tree[j].path
      {
        FileChunks(job, tree[i]);
        FileChunks(job, tree[j]);
        var _ := FileChunk(job, tree[i], 0);
        var _ := FileChunk(job, tree[j], 0);
        CollectHas(job, tree, i, 0);
        CollectHas(job, tree, j, 0);
        CollectPrefix(job, tree[..j], i + 1);
        assert tree[..j][..i + 1] == tree[..i + 1];
      }
    }
  }

  /** What a successful pass that found chunks did to the table: the repository's rows are
      under exactly the new chunks' keys, and no other row changed. The rows are the chunks,
      as many as reported, exactly when no two indexed entries share a path; otherwise they
      are fewer. */
  lemma {:induction false} IndexReplaced(job: Job, tree: seq<TreeEntry>, stored: seq<CodeChunk>, before: Rows)
    requires job.config.size > 0 && EmbeddingOf(Collect(job, tree), stored)
    ensures var after := Upserted(Without(before, job.repo), stored);
      && RowsOf(after, job.repo) == KeysOf(stored)
      && |RowsOf(after, job.repo)| <= |stored|
      && (|RowsOf(after, job.repo)| == |stored| <==> DistinctIndexed(job, tree))
      && (DistinctIndexed(job, tree) ==>
            forall i :: 0 <= i < |stored| ==> stored[i].key in after && after[stored[i].key] == stored[i])
      && (forall i :: 0 <= i < |stored| ==> CutFromTree(job, tree, stored[i]))
      && Without(after, job.repo) == Without(before, job.repo)
  {
    hide Collect, Upserted, Without, RowsOf, KeysOf, DistinctIndexed, CutFromTree, CutFrom;
    StoredIsCut(job, tree, stored);
    var collected := Collect(job, tree);
    forall i | 0 <= i < |stored| ensures stored[i].key == collected[i].key && stored[i].key.repo == job.repo {
      assert SameButVector(collected[i], stored[i]);
      var j, o := CollectedFrom(job, tree, i);
      CutHasPath(job, tree, collected[i], j, o);
    }
    KeysDistinctExactly(job, tree);
    SameKeys(collected, stored);
    KeyCount(stored);
    Replacement(before, job.repo, stored);
  }

  lemma SameKeys(a: seq<CodeChunk>, b: seq<CodeChunk>)
    requires |a| == |b| && forall i :: 0 <= i < |a| ==> a[i].key == b[i].key
    ensures DistinctKeys(a) <==> DistinctKeys(b)
  {
    if DistinctKeys(a) {
      forall i, j | 0 <= i < j < |b| ensures b[i].key != b[j].key { assert a[i].key != a[j].key; }
    }
    if DistinctKeys(b) {
      forall i, j | 0 <= i < j < |a| ensures a[i].key != a[j].key { assert b[i].key != b[j].key; }
    }
  }

  /** A host that answers every file with one letter. */
  const ONE_LETTER: Host := Host(None, _ => None, (ref, path) => Read(Content(1, Some("x"), false)))

  lemma ReadmeIsIndexed(job: Job)
    requires job.config.size > 0 && job.indexable("README.md") && job.host == ONE_LETTER
    ensures Judge(job, EntryOf(README)).Index?
  {
    var k := Chunking.NothingLost("x", job.config.size, job.config.overlap, 0);
  }

  /** Two walked subtrees that each list README.md: a pass over ONE_LETTER reports more chunks
      than the table then holds for the repository. */
  lemma RepeatedPathsUndercount(config: Config, repo: Repo, ref: string, before: Rows)
    requires config.size > 0
    ensures var chunks := Collect(Job(ONE_LETTER, config, repo, ref, path => true), REPEATED);
      |RowsOf(Upserted(Without(before, repo), chunks), repo)| < |chunks|
  {
    var job := Job(ONE_LETTER, config, repo, ref, path => true);
    ReadmeIsIndexed(job);
    hide Collect, Upserted, Without, RowsOf, KeysOf, Judge;
    var chunks := Collect(job, REPEATED);
    assert !DistinctIndexed(job, REPEATED) by { assert REPEATED[2] == REPEATED[3] == EntryOf(README); }
    IndexReplaced(job, REPEATED, chunks, before);
  }
}
