/** Splitting file text into overlapping windows with line spans
    (internal/codeindex/service.go). */
module Chunking {
  import opened Whitespace

  datatype Chunk = Chunk(text: seq<char>, startLine: int, endLine: int)

  function Min(a: int, b: int): int { if a < b then a else b }

  function StepOf(size: nat, overlap: nat): nat { if size <= overlap then size else size - overlap }

  function CeilDiv(a: nat, b: nat): nat
    requires b > 0
  {
    (a + b - 1) / b
  }

  /** How many windows of a text of n runes the loop visits. */
  function WindowCount(n: nat, size: nat, step: nat): nat
    requires step > 0
  {
    if n == 0 then 0 else 1 + CeilDiv(if n > size then n - size else 0, step)
  }

  /** Where window i starts: step taken i times. */
  function WindowStart(step: nat, i: nat): nat {
    if i == 0 then 0 else WindowStart(step, i - 1) + step
  }

  function WindowEnd(n: nat, size: nat, step: nat, i: nat): nat { Min(WindowStart(step, i) + size, n) }

  function Slice(runes: seq<char>, start: nat, end: nat): seq<char> {
    if start <= end <= |runes| then runes[start..end] else []
  }

  predicate BlankWindow(runes: seq<char>, size: nat, step: nat, i: nat) {
    BlankBetween(runes, WindowStart(step, i), WindowEnd(|runes|, size, step, i))
  }

  /** The windows below i that hold something besides whitespace. */
  function KeptBelow(runes: seq<char>, size: nat, step: nat, i: nat): seq<nat> {
    if i == 0 then []
    else if BlankWindow(runes, size, step, i - 1) then KeptBelow(runes, size, step, i - 1)
    else KeptBelow(runes, size, step, i - 1) + [i - 1]
  }

  /** The windows of which chunkText makes a chunk, in order. */
  function Kept(runes: seq<char>, size: nat, overlap: nat): seq<nat>
    requires size > 0
  {
    KeptBelow(runes, size, StepOf(size, overlap), WindowCount(|runes|, size, StepOf(size, overlap)))
  }

  /** Newlines among the first k runes. */
  function Newlines(runes: seq<char>, k: nat): nat
    requires k <= |runes|
  {
    if k == 0 then 0 else Newlines(runes, k - 1) + if runes[k - 1] == '\n' then 1 else 0
  }

  /** The one-based line that holds a rune offset. */
  function LineAt(runes: seq<char>, offset: nat): int { 1 + Newlines(runes, Min(offset, |runes|)) }

  /** The chunk of window i. */
  function Cut(runes: seq<char>, size: nat, step: nat, i: nat): Chunk {
    var start, end := WindowStart(step, i), WindowEnd(|runes|, size, step, i);
    Chunk(Slice(runes, start, end), LineAt(runes, start), LineAt(runes, end))
  }

  /** The chunks of the windows below i. */
  function ChunksBelow(runes: seq<char>, size: nat, step: nat, i: nat): seq<Chunk> {
    if i == 0 then []
    else if BlankWindow(runes, size, step, i - 1) then ChunksBelow(runes, size, step, i - 1)
    else ChunksBelow(runes, size, step, i - 1) + [Cut(runes, size, step, i - 1)]
  }

  /** What chunkText returns. */
  function Chunks(runes: seq<char>, size: nat, overlap: nat): seq<Chunk>
    requires size > 0
  {
    ChunksBelow(runes, size, StepOf(size, overlap), WindowCount(|runes|, size, StepOf(size, overlap)))
  }

  // ---- the number and shape of the windows ----

  lemma CeilDivBounds(a: nat, b: nat)
    requires b > 0
    ensures CeilDiv(a, b) * b - b < a <= CeilDiv(a, b) * b
  {
  }

  /** Every visited window starts inside the text and moves on by one step; the last one,
      and only the last one, reaches the end. */
  lemma WindowShape(n: nat, size: nat, step: nat, i: nat)
    requires 0 < step <= size && i < WindowCount(n, size, step)
    ensures var start, end := WindowStart(step, i), WindowEnd(n, size, step, i);
      && start < end <= n && end - start <= size
      && (end == n <==> i == WindowCount(n, size, step) - 1)
      && (i > 0 ==> WindowEnd(n, size, step, i - 1) == start + size - step < end)
  {
    var last := WindowCount(n, size, step) - 1;
    CeilDivBounds(if n > size then n - size else 0, step);
    StartsGrow(step, i, last);
    StartIs(step, last);
  }

  lemma {:induction false} StartIs(step: nat, i: nat)
    ensures WindowStart(step, i) == i * step
  {
    if i > 0 { StartIs(step, i - 1); }
  }

  lemma {:induction false} StartsGrow(step: nat, a: nat, b: nat)
    requires a <= b
    ensures WindowStart(step, a) <= WindowStart(step, b)
    ensures a < b ==> WindowStart(step, a) + step <= WindowStart(step, b)
  {
    if a < b { StartsGrow(step, a, b - 1); }
  }

  lemma CutIs(runes: seq<char>, size: nat, step: nat, i: nat)
    requires 0 < step <= size && i < WindowCount(|runes|, size, step)
    ensures var start, end := WindowStart(step, i), WindowEnd(|runes|, size, step, i);
      && start < end <= |runes|
      && Cut(runes, size, step, i) == Chunk(runes[start..end], LineAt(runes, start), LineAt(runes, end))
      && (Blank(runes[start..end]) <==> BlankWindow(runes, size, step, i))
  {
    var start, end := WindowStart(step, i), WindowEnd(|runes|, size, step, i);
    WindowShape(|runes|, size, step, i);
    BlankSlice(runes, start, end);
  }

  lemma BlankSlice(runes: seq<char>, a: nat, b: nat)
    requires a <= b <= |runes|
    ensures Blank(runes[a..b]) <==> BlankBetween(runes, a, b)
  {
    if Blank(runes[a..b]) {
      forall i | a <= i < b ensures IsSpace(runes[i]) { assert runes[i] == runes[a..b][i - a]; }
    }
  }

  lemma {:induction false} NewlinesCount(runes: seq<char>, k: nat)
    requires k <= |runes|
    ensures Newlines(runes, k) == multiset(runes[..k])['\n']
  {
    if k > 0 {
      NewlinesCount(runes, k - 1);
      assert runes[..k] == runes[..k - 1] + [runes[k - 1]];
    }
  }

  // ---- the loops ----

  method LineNumber(runes: seq<char>, offset: nat) returns (line: int)
    ensures line == LineAt(runes, offset)
    ensures line == 1 + multiset(runes[..if offset < |runes| then offset else |runes|])['\n']
  {
    NewlinesCount(runes, Min(offset, |runes|));
    line := 1;
    var index := 0;
    while index < offset && index < |runes|
      invariant index <= Min(offset, |runes|)
      invariant line == 1 + Newlines(runes, index)
    {
      if runes[index] == '\n' {
        line := line + 1;
      }
      index := index + 1;
    }
  }

  /** chunkText; `visited` counts the iterations of its loop. */
  method ChunkText(runes: seq<char>, size: nat, overlap: nat) returns (chunks: seq<Chunk>, ghost visited: nat)
    requires size > 0
    ensures chunks == Chunks(runes, size, overlap)
    ensures visited == WindowCount(|runes|, size, StepOf(size, overlap))
  {
    hide Blank, BlankWindow, Cut, LineAt;
    chunks, visited := [], 0;
    if |runes| == 0 {
      return;
    }
    var step := size - overlap;
    if step <= 0 {
      step := size;
    }
    var start := 0;
    while start < |runes|
      invariant start < |runes|
      invariant visited < WindowCount(|runes|, size, step) && start == WindowStart(step, visited)
      invariant chunks == ChunksBelow(runes, size, step, visited)
      decreases |runes| - start
    {
      var end := Min(start + size, |runes|);
      WindowShape(|runes|, size, step, visited);
      var segment := runes[start..end];
      CutIs(runes, size, step, visited);
      visited := visited + 1;
      if Blank(segment) {
        if end == |runes| {
          break;
        }
        start := start + step;
        continue;
      }
      var startLine := LineNumber(runes, start);
      var endLine := LineNumber(runes, end);
      chunks := chunks + [Chunk(segment, startLine, endLine)];
      if end == |runes| {
        break;
      }
      start := start + step;
    }
  }

  // ---- nothing but blank windows is lost ----

  lemma {:induction false} KeptHas(runes: seq<char>, size: nat, step: nat, i: nat, j: nat) returns (k: nat)
    requires j < i && !BlankWindow(runes, size, step, j)
    ensures k < |KeptBelow(runes, size, step, i)| && KeptBelow(runes, size, step, i)[k] == j
  {
    hide BlankWindow;
    if j < i - 1 { k := KeptHas(runes, size, step, i - 1, j); } else { k := |KeptBelow(runes, size, step, j)|; }
  }

  /** Chunk k is cut at the k-th kept window. */
  lemma {:induction false} KeptAt(runes: seq<char>, size: nat, step: nat, i: nat, k: nat)
    ensures |ChunksBelow(runes, size, step, i)| == |KeptBelow(runes, size, step, i)|
    ensures k < |KeptBelow(runes, size, step, i)| ==>
      var j := KeptBelow(runes, size, step, i)[k];
      j < i && !BlankWindow(runes, size, step, j) && ChunksBelow(runes, size, step, i)[k] == Cut(runes, size, step, j)
  {
    hide BlankWindow, Cut;
    if i > 0 { KeptAt(runes, size, step, i - 1, k); }
  }

  lemma OneChunkEach(runes: seq<char>, size: nat, overlap: nat)
    requires size > 0
    ensures |Chunks(runes, size, overlap)| == |Kept(runes, size, overlap)|
  {
    hide BlankWindow, Cut;
    var step := StepOf(size, overlap);
    KeptAt(runes, size, step, WindowCount(|runes|, size, step), 0);
  }

  lemma {:induction false} KeptGrows(runes: seq<char>, size: nat, step: nat, i: nat, j: nat, k: nat)
    requires j < k < |KeptBelow(runes, size, step, i)|
    ensures KeptBelow(runes, size, step, i)[j] < KeptBelow(runes, size, step, i)[k]
  {
    hide BlankWindow, Cut;
    if k < |KeptBelow(runes, size, step, i - 1)| {
      KeptGrows(runes, size, step, i - 1, j, k);
    } else {
      KeptAt(runes, size, step, i - 1, j);
    }
  }

  /** Chunk k is the non-blank text of a window, at most size runes, at that window's offset. */
  lemma ChunkIsSlice(runes: seq<char>, size: nat, overlap: nat, k: nat)
    requires size > 0 && k < |Kept(runes, size, overlap)|
    ensures |Chunks(runes, size, overlap)| == |Kept(runes, size, overlap)|
    ensures var step, i := StepOf(size, overlap), Kept(runes, size, overlap)[k];
      var start, chunk := WindowStart(step, i), Chunks(runes, size, overlap)[k];
      && i < WindowCount(|runes|, size, step) && chunk == Cut(runes, size, step, i)
      && 0 < |chunk.text| <= size && !Blank(chunk.text)
      && start + |chunk.text| <= |runes| && chunk.text == runes[start..start + |chunk.text|]
  {
    hide BlankBetween, ChunksBelow, KeptBelow, IsSpace;
    var step := StepOf(size, overlap);
    KeptAt(runes, size, step, WindowCount(|runes|, size, step), k);
    var i := Kept(runes, size, overlap)[k];
    WindowShape(|runes|, size, step, i);
    BlankSlice(runes, WindowStart(step, i), WindowEnd(|runes|, size, step, i));
  }

  /** The window to look in for the rune at offset i. */
  lemma {:induction false} WindowOf(n: nat, size: nat, step: nat, i: nat, upto: nat) returns (j: nat)
    requires 0 < step <= size && upto < WindowCount(n, size, step) && i < WindowEnd(n, size, step, upto)
    ensures j <= upto && WindowStart(step, j) <= i < WindowEnd(n, size, step, j)
  {
    j := upto;
    if upto > 0 {
      WindowShape(n, size, step, upto);
      if i < WindowEnd(n, size, step, upto - 1) {
        j := WindowOf(n, size, step, i, upto - 1);
      }
    }
  }

  /** Every rune that is not whitespace lies, at its true offset, in some chunk. */
  lemma NothingLost(runes: seq<char>, size: nat, overlap: nat, i: nat) returns (k: nat)
    requires size > 0 && i < |runes| && !IsSpace(runes[i])
    ensures k < |Kept(runes, size, overlap)| && |Chunks(runes, size, overlap)| == |Kept(runes, size, overlap)|
    ensures var start := WindowStart(StepOf(size, overlap), Kept(runes, size, overlap)[k]);
      var text := Chunks(runes, size, overlap)[k].text;
      start <= i < start + |text| && text[i - start] == runes[i]
  {
    hide ChunksBelow, KeptBelow, Newlines;
    var step := StepOf(size, overlap);
    var last := WindowCount(|runes|, size, step) - 1;
    WindowShape(|runes|, size, step, last);
    var j := WindowOf(|runes|, size, step, i, last);
    WindowShape(|runes|, size, step, j);
    k := KeptHas(runes, size, step, last + 1, j);
    ChunkIsSlice(runes, size, overlap, k);
  }

  // ---- rebuilding the text ----

  /** The first chunk followed by every later chunk without its first k runes. */
  function Rebuild(chunks: seq<Chunk>, k: nat): seq<char> {
    if chunks == [] then []
    else if |chunks| == 1 then chunks[0].text
    else
      var last := chunks[|chunks| - 1].text;
      Rebuild(chunks[..|chunks| - 1], k) + if k <= |last| then last[k..] else []
  }

  lemma RebuildAppend(chunks: seq<Chunk>, c: Chunk, k: nat)
    requires chunks != [] && k <= |c.text|
    ensures Rebuild(chunks + [c], k) == Rebuild(chunks, k) + c.text[k..]
  {
    assert (chunks + [c])[..|chunks|] == chunks;
  }

  /** No window below i is blank. */
  ghost predicate AllKept(runes: seq<char>, size: nat, step: nat, i: nat) {
    forall j :: 0 <= j < i ==> !BlankWindow(runes, size, step, j)
  }

  /** What window i adds to the rebuilt text. */
  lemma RebuildStep(runes: seq<char>, size: nat, step: nat, i: nat)
    requires 0 < step <= size && i < WindowCount(|runes|, size, step)
    requires !BlankWindow(runes, size, step, i)
    ensures var k, before := size - step, ChunksBelow(runes, size, step, i);
      var after := ChunksBelow(runes, size, step, i + 1);
      var start, end := WindowStart(step, i), WindowEnd(|runes|, size, step, i);
      && start < end <= |runes| && after != []
      && (before == [] ==> Rebuild(after, k) == runes[start..end])
      && (before != [] && i > 0 ==> start + k < end && Rebuild(after, k) == Rebuild(before, k) + runes[start + k..end])
  {
    hide BlankWindow, Cut;
    var k, c, before := size - step, Cut(runes, size, step, i), ChunksBelow(runes, size, step, i);
    var start, end := WindowStart(step, i), WindowEnd(|runes|, size, step, i);
    WindowShape(|runes|, size, step, i);
    CutIs(runes, size, step, i);
    if before == [] {
      assert before + [c] == [c];
    } else if i > 0 {
      RebuildAppend(before, c, k);
      assert c.text[k..] == runes[start + k..end];
    }
  }

  lemma {:induction false} RebuildAll(runes: seq<char>, size: nat, step: nat, i: nat)
    requires 0 < step <= size && i < WindowCount(|runes|, size, step) && AllKept(runes, size, step, i + 1)
    ensures ChunksBelow(runes, size, step, i + 1) != []
    ensures WindowEnd(|runes|, size, step, i) <= |runes|
    ensures Rebuild(ChunksBelow(runes, size, step, i + 1), size - step) == runes[..WindowEnd(|runes|, size, step, i)]
  {
    hide BlankWindow, Cut, ChunksBelow;
    WindowShape(|runes|, size, step, i);
    assert !BlankWindow(runes, size, step, i);
    RebuildStep(runes, size, step, i);
    if i == 0 {
      NothingBelowZero(runes, size, step);
    } else {
      RebuildAll(runes, size, step, i - 1);
      var e, end := WindowEnd(|runes|, size, step, i - 1), WindowEnd(|runes|, size, step, i);
      assert runes[..e] + runes[e..end] == runes[..end];
    }
  }

  lemma NothingBelowZero(runes: seq<char>, size: nat, step: nat)
    ensures ChunksBelow(runes, size, step, 0) == []
  {
  }

  lemma {:induction false} RebuildAtMost(runes: seq<char>, size: nat, step: nat, i: nat)
    requires 0 < step <= size && i < WindowCount(|runes|, size, step)
    ensures |Rebuild(ChunksBelow(runes, size, step, i + 1), size - step)| <= WindowEnd(|runes|, size, step, i)
  {
    hide BlankWindow, Cut;
    WindowShape(|runes|, size, step, i);
    if i > 0 { RebuildAtMost(runes, size, step, i - 1); }
    if !BlankWindow(runes, size, step, i) { RebuildStep(runes, size, step, i); }
  }

  /** A blank window j makes the rebuilt text too short. */
  lemma {:induction false} RebuildShorter(runes: seq<char>, size: nat, step: nat, i: nat, j: nat)
    requires 0 < step <= size && j <= i < WindowCount(|runes|, size, step) && BlankWindow(runes, size, step, j)
    ensures |Rebuild(ChunksBelow(runes, size, step, i + 1), size - step)| < WindowEnd(|runes|, size, step, i)
  {
    hide BlankWindow, Cut, WindowEnd, WindowCount;
    WindowShape(|runes|, size, step, i);
    if i == j {
      if i > 0 { RebuildAtMost(runes, size, step, i - 1); }
    } else {
      RebuildShorter(runes, size, step, i - 1, j);
      if !BlankWindow(runes, size, step, i) {
        RebuildStep(runes, size, step, i);
        StartsGrow(step, 0, i);
      }
    }
  }

  /** Dropping the overlap of every later chunk and concatenating gives the text back
      exactly when no window of it is blank. */
  lemma RebuildExact(runes: seq<char>, size: nat, overlap: nat)
    requires size > 0
    ensures var step := StepOf(size, overlap);
      (Rebuild(Chunks(runes, size, overlap), size - step) == runes)
        <==> AllKept(runes, size, step, WindowCount(|runes|, size, step))
  {
    hide BlankWindow, ChunksBelow;
    var step := StepOf(size, overlap);
    var count := WindowCount(|runes|, size, step);
    if count == 0 {
      NothingBelowZero(runes, size, step);
    } else {
      WindowShape(|runes|, size, step, count - 1);
      if AllKept(runes, size, step, count) {
        RebuildAll(runes, size, step, count - 1);
      } else {
        var j :| 0 <= j < count && BlankWindow(runes, size, step, j);
        RebuildShorter(runes, size, step, count - 1, j);
      }
    }
  }

  // ---- line spans ----

  /** Counting on from an earlier offset gives the count from zero. */
  lemma {:induction false} NewlinesAdd(runes: seq<char>, a: nat, b: nat)
    requires a <= b <= |runes|
    ensures Newlines(runes, b) == Newlines(runes, a) + Newlines(runes[a..b], b - a)
  {
    if a < b {
      NewlinesAdd(runes, a, b - 1);
      SamePrefix(runes[a..b - 1], runes[a..b], b - 1 - a);
    }
  }

  lemma {:induction false} SamePrefix(t: seq<char>, u: seq<char>, k: nat)
    requires t <= u && k <= |t|
    ensures Newlines(t, k) == Newlines(u, k)
  {
    if k > 0 { SamePrefix(t, u, k - 1); }
  }

  /** A chunk starts on the line of its first rune and spans exactly the lines of its text. */
  lemma LineSpan(runes: seq<char>, size: nat, overlap: nat, k: nat)
    requires size > 0 && k < |Kept(runes, size, overlap)|
    ensures |Chunks(runes, size, overlap)| == |Kept(runes, size, overlap)|
    ensures var start := WindowStart(StepOf(size, overlap), Kept(runes, size, overlap)[k]);
      var chunk := Chunks(runes, size, overlap)[k];
      && start <= |runes|
      && chunk.startLine == 1 + multiset(runes[..start])['\n']
      && chunk.endLine == chunk.startLine + multiset(chunk.text)['\n']
  {
    var i, step := Kept(runes, size, overlap)[k], StepOf(size, overlap);
    ChunkIsSlice(runes, size, overlap, k);
    WindowShape(|runes|, size, step, i);
    var start, chunk := WindowStart(step, i), Chunks(runes, size, overlap)[k];
    NewlinesAdd(runes, start, WindowEnd(|runes|, size, step, i));
    NewlinesCount(runes, start);
    NewlinesCount(chunk.text, |chunk.text|);
    assert chunk.text[..|chunk.text|] == chunk.text;
  }

  /** Both line numbers grow from chunk to chunk, and counting on from an earlier chunk's
      start agrees with the recount from zero. */
  lemma LinesMonotone(runes: seq<char>, size: nat, overlap: nat, j: nat, k: nat)
    requires size > 0 && j < k < |Kept(runes, size, overlap)|
    ensures |Chunks(runes, size, overlap)| == |Kept(runes, size, overlap)|
    ensures var kept, step, chunks := Kept(runes, size, overlap), StepOf(size, overlap), Chunks(runes, size, overlap);
      var a, b := WindowStart(step, kept[j]), WindowStart(step, kept[k]);
      && a < b <= |runes|
      && chunks[k].startLine == chunks[j].startLine + Newlines(runes[a..b], b - a)
      && chunks[j].endLine <= chunks[k].endLine
  {
    hide ChunksBelow, KeptBelow, BlankBetween, Slice, WindowStart, WindowEnd, Newlines;
    var a, b, step := Kept(runes, size, overlap)[j], Kept(runes, size, overlap)[k], StepOf(size, overlap);
    ChunkIsSlice(runes, size, overlap, j);
    ChunkIsSlice(runes, size, overlap, k);
    KeptGrows(runes, size, step, WindowCount(|runes|, size, step), j, k);
    WindowShape(|runes|, size, step, a);
    WindowShape(|runes|, size, step, b);
    StartsGrow(step, a, b);
    NewlinesAdd(runes, WindowStart(step, a), WindowStart(step, b));
    NewlinesAdd(runes, WindowEnd(|runes|, size, step, a), WindowEnd(|runes|, size, step, b));
  }
}
