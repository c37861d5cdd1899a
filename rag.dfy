/**
 * The retrieval-augmented generation pipeline that drafts discharge summaries
 * from clinical templates (services/rag.py).
 *
 * The embedding model, the FAISS inner-product index, the cross-encoder and the
 * Groq chat endpoint are foreign models; they enter as the function fields of
 * `Models`.  What remains is sequence and string work: chunking, flattening,
 * index-to-chunk mapping, a stable descending sort cut to five, and prompt
 * assembly.
 */
module Rag {
  import opened Wrappers

  /** A retrieval unit: a window of a template's text tagged with the template's filename. */
  datatype Chunk = Chunk(text: string, source: string)

  /** A stored clinical template as the pipeline reads it (filename and content). */
  datatype Template = Template(filename: string, content: string)

  /** The default window size and overlap of `load_chunks`; its only caller uses them. */
  const ChunkSize: int := 200
  const Overlap: int := 50

  /** The `top_k` that `rag_pipeline` asks the index for, and the number of chunks `rerank` keeps. */
  const SearchTopK: nat := 15
  const RerankKeep: nat := 5

  function Min(a: int, b: int): int { if a < b then a else b }

  // ---------------------------------------------------------------------------
  // Python slicing and indexing
  // ---------------------------------------------------------------------------

  /** How Python normalises one slice bound against a sequence of length n. */
  function PyBound(i: int, n: nat): (r: nat)
    ensures r <= n
    ensures 0 <= i <= n ==> r == i
    ensures -(n as int) <= i < 0 ==> r == i + n
    ensures i < -(n as int) ==> r == 0
    ensures i > n ==> r == n
  {
    if i < 0 then (if i + n < 0 then 0 else i + n) else if i > n then n else i
  }

  /** Python's `s[i:j]` for arbitrary integer bounds (negative bounds count from the end). */
  function PySlice(s: string, i: int, j: int): (r: string)
    ensures 0 <= i <= j <= |s| ==> r == s[i..j]
    ensures |r| <= |s|
  {
    var a := PyBound(i, |s|);
    var b := PyBound(j, |s|);
    if a < b then s[a..b] else ""
  }

  // ---------------------------------------------------------------------------
  // load_chunks as written: `start = end - overlap`, with no exit once end == len
  // ---------------------------------------------------------------------------

  /** The value the literal loop assigns to `start` after emitting the window at `start`. */
  function LiteralNext(n: nat, start: int, chunkSize: int, overlap: int): int
  {
    Min(start + chunkSize, n) - overlap
  }

  /** `start` after k more iterations of the literal loop body, beginning at `start`. */
  function LiteralIter(n: nat, start: int, chunkSize: int, overlap: int, k: nat): int
    decreases k
  {
    if k == 0 then start
    else LiteralIter(n, LiteralNext(n, start, chunkSize, overlap), chunkSize, overlap, k - 1)
  }

  /** `start` at the top of the (k+1)-th iteration of the literal loop on a text of length n. */
  function LiteralStart(n: nat, chunkSize: int, overlap: int, k: nat): int
  {
    LiteralIter(n, 0, chunkSize, overlap, k)
  }

  /** The chunk the literal loop appends in the iteration whose `start` is `start`. */
  function LiteralWindow(text: string, source: string, start: int, chunkSize: int): Chunk
  {
    Chunk(PySlice(text, start, Min(start + chunkSize, |text|)), source)
  }

  /** The first k chunks the literal loop appends. */
  function LiteralChunks(text: string, source: string, chunkSize: int, overlap: int, k: nat): (r: seq<Chunk>)
    ensures |r| == k
  {
    seq(k, j requires 0 <= j < k =>
      LiteralWindow(text, source, LiteralStart(|text|, chunkSize, overlap, j), chunkSize))
  }

  lemma {:induction false} LiteralIterSplit(n: nat, start: int, c: int, o: int, k: nat)
    ensures LiteralIter(n, start, c, o, k + 1) == LiteralNext(n, LiteralIter(n, start, c, o, k), c, o)
    decreases k
  {
    if k > 0 {
      LiteralIterSplit(n, LiteralNext(n, start, c, o), c, o, k - 1);
    }
  }

  /**
   * The loop guard `start < len(text)` holds at the top of every iteration of the
   * literal loop when the text is non-empty and the overlap is positive: the loop
   * never exits.
   */
  lemma LiteralNeverExits(n: nat, c: int, o: int, k: nat)
    requires n > 0 && o > 0
    ensures LiteralStart(n, c, o, k) < n
  {
    if k > 0 {
      LiteralIterSplit(n, 0, c, o, k - 1);
    }
  }

  /**
   * Once a window reaches the end of the text, the next `start` is `len - overlap`,
   * and the window at that `start` reaches the end again: `len - overlap` is a
   * fixed point of the loop body, and it still passes the guard.
   */
  lemma LiteralFixedPoint(n: nat, start: int, c: int, o: int)
    requires n > 0 && start < n && Min(start + c, n) == n
    requires 0 < o <= c
    ensures LiteralNext(n, start, c, o) == n - o
    ensures Min((n - o) + c, n) == n
    ensures LiteralNext(n, n - o, c, o) == n - o
    ensures n - o < n
  {
  }

  lemma {:induction false} LiteralFixedPointStays(n: nat, c: int, o: int, k: nat)
    requires 0 <= o <= c
    ensures LiteralIter(n, n - o, c, o, k) == n - o
    decreases k
  {
    if k > 0 {
      assert LiteralNext(n, n - o, c, o) == n - o;
      LiteralFixedPointStays(n, c, o, k - 1);
    }
  }

  /** Iterations the literal loop needs from `start` until `start` is stuck at `n - overlap`. */
  function LiteralStepsToFixedPoint(n: nat, start: int, c: int, o: int): (k: nat)
    requires 0 <= o < c
    decreases n - start
  {
    if start + c >= n then 1 else 1 + LiteralStepsToFixedPoint(n, start + c - o, c, o)
  }

  lemma {:induction false} LiteralReachesFrom(n: nat, start: int, c: int, o: int, k: nat)
    requires 0 <= o < c
    requires k >= LiteralStepsToFixedPoint(n, start, c, o)
    ensures LiteralIter(n, start, c, o, k) == n - o
    decreases n - start
  {
    if start + c >= n {
      assert LiteralNext(n, start, c, o) == n - o;
      LiteralFixedPointStays(n, c, o, k - 1);
    } else {
      assert LiteralNext(n, start, c, o) == start + c - o;
      LiteralReachesFrom(n, start + c - o, c, o, k - 1);
    }
  }

  /**
   * From some iteration on, the literal loop on a non-empty text appends the same
   * chunk, `text[len - overlap : len]` under Python slicing, forever.
   */
  lemma LiteralRepeatsForever(text: string, source: string, c: int, o: int, j: nat)
    requires 0 < o < c
    requires j >= LiteralStepsToFixedPoint(|text|, 0, c, o)
    ensures LiteralStart(|text|, c, o, j) == |text| - o
    ensures LiteralChunks(text, source, c, o, j + 1)[j]
         == Chunk(PySlice(text, |text| - o, |text|), source)
  {
    LiteralReachesFrom(|text|, 0, c, o, j);
  }

  /**
   * When the text is shorter than the overlap, the second `start` is negative and
   * Python's slice reads the tail `text[2*len - overlap:]` (or all of it).
   */
  lemma LiteralNegativeStart(text: string, source: string, c: int, o: int)
    requires 0 < |text| < o <= c
    ensures LiteralStart(|text|, c, o, 1) == |text| - o < 0
    ensures LiteralChunks(text, source, c, o, 2)[1].text
         == text[(if 2 * |text| - o < 0 then 0 else 2 * |text| - o)..]
  {
  }

  /**
   * `load_chunks` as written, run for at most `fuel` iterations (a diverging
   * method cannot be stated).  The result says the loop never leaves on its own
   * for a non-empty text: after any number of iterations it is still running.
   */
  method LoadChunksLiteral(text: string, source: string, chunkSize: int, overlap: int, fuel: nat)
    returns (chunks: seq<Chunk>, exited: bool)
    ensures exited ==> |text| == 0 || overlap <= 0
    ensures |text| > 0 && overlap > 0 ==> !exited && |chunks| == fuel
    ensures |text| == 0 ==> exited && chunks == []
    ensures chunks == LiteralChunks(text, source, chunkSize, overlap, |chunks|)
  {
    chunks := [];
    var start := 0;
    var k := 0;
    while start < |text| && k < fuel
      invariant k <= fuel && |chunks| == k
      invariant start == LiteralStart(|text|, chunkSize, overlap, k)
      invariant chunks == LiteralChunks(text, source, chunkSize, overlap, k)
      invariant |text| > 0 && overlap > 0 ==> start < |text|
      invariant |text| == 0 ==> k == 0
      decreases fuel - k
    {
      var end := Min(start + chunkSize, |text|);
      chunks := chunks + [Chunk(PySlice(text, start, end), source)];
      start := end - overlap;
      LiteralIterSplit(|text|, 0, chunkSize, overlap, k);
      k := k + 1;
    }
    exited := start >= |text|;
  }

  /** Whether the literal `load_chunks` loop ever fails its guard with the default sizes. */
  ghost predicate LiteralLoadChunksReturns(text: string)
  {
    exists k: nat :: LiteralStart(|text|, ChunkSize, Overlap, k) >= |text|
  }

  /** The literal `load_chunks` returns exactly for the empty text. */
  lemma LiteralLoadChunksReturnsIff(text: string)
    ensures LiteralLoadChunksReturns(text) <==> text == ""
  {
    if text == "" {
      assert LiteralStart(0, ChunkSize, Overlap, 0) >= 0;
    } else {
      forall k: nat ensures LiteralStart(|text|, ChunkSize, Overlap, k) < |text| {
        LiteralNeverExits(|text|, ChunkSize, Overlap, k);
      }
    }
  }

  // ---------------------------------------------------------------------------
  // load_chunks as intended: stop after the window that reaches the end
  // ---------------------------------------------------------------------------

  /** The chunks the intended loop appends once `start` has been reached. */
  function ChunksFrom(text: string, source: string, c: int, o: int, start: nat): seq<Chunk>
    requires 0 <= o < c
    decreases |text| - start
  {
    if start >= |text| then []
    else if start + c >= |text| then [Chunk(text[start..], source)]
    else [Chunk(text[start..start + c], source)] + ChunksFrom(text, source, c, o, start + c - o)
  }

  /** The chunk list of the intended chunker. */
  function Chunked(text: string, source: string, c: int, o: int): seq<Chunk>
    requires 0 <= o < c
  {
    ChunksFrom(text, source, c, o, 0)
  }

  /**
   * The intended `load_chunks`: the loop of the source with an exit once
   * `end == len(text)`.  It terminates when the windows overlap by less than
   * their size.
   */
  method LoadChunks(text: string, source: string, chunkSize: int, overlap: int) returns (chunks: seq<Chunk>)
    requires 0 <= overlap < chunkSize
    ensures chunks == Chunked(text, source, chunkSize, overlap)
  {
    chunks := [];
    var start := 0;
    while start < |text|
      invariant 0 <= start
      invariant chunks + ChunksFrom(text, source, chunkSize, overlap, start)
             == Chunked(text, source, chunkSize, overlap)
      decreases |text| - start
    {
      var end := Min(start + chunkSize, |text|);
      LoadChunksStep(text, source, chunkSize, overlap, start, chunks);
      chunks := chunks + [Chunk(text[start..end], source)];
      if end == |text| {
        break;
      }
      start := end - overlap;
    }
  }

  /** One iteration: the window at `start`, then the windows from `end - overlap` unless `end` is the end. */
  lemma ChunksFromStep(text: string, source: string, c: int, o: int, start: nat)
    requires 0 <= o < c && start < |text|
    ensures start + c >= |text| ==>
      ChunksFrom(text, source, c, o, start) == [Chunk(text[start..], source)]
    ensures start + c < |text| ==>
      ChunksFrom(text, source, c, o, start)
      == [Chunk(text[start..start + c], source)] + ChunksFrom(text, source, c, o, start + c - o)
  {
  }

  /** The loop invariant of `LoadChunks` survives one window. */
  lemma LoadChunksStep(text: string, source: string, c: int, o: int, start: nat, chunks: seq<Chunk>)
    requires 0 <= o < c && start < |text|
    requires chunks + ChunksFrom(text, source, c, o, start) == Chunked(text, source, c, o)
    ensures start + c >= |text| ==>
      chunks + [Chunk(text[start..Min(start + c, |text|)], source)] == Chunked(text, source, c, o)
    ensures start + c < |text| ==>
      (chunks + [Chunk(text[start..Min(start + c, |text|)], source)]) + ChunksFrom(text, source, c, o, start + c - o)
      == Chunked(text, source, c, o)
  {
    ChunksFromStep(text, source, c, o, start);
    if start + c >= |text| {
      assert text[start..Min(start + c, |text|)] == text[start..];
    } else {
      var chunk := Chunk(text[start..start + c], source);
      var next := ChunksFrom(text, source, c, o, start + c - o);
      assert Min(start + c, |text|) == start + c;
      assert chunks + ([chunk] + next) == (chunks + [chunk]) + next;
    }
  }

  /** Concatenating the chunks, each but the last without its trailing overlap. */
  function Reassemble(cs: seq<Chunk>, o: nat): string
  {
    if |cs| == 0 then ""
    else if |cs| == 1 then cs[0].text
    else (if o <= |cs[0].text| then cs[0].text[..|cs[0].text| - o] else "") + Reassemble(cs[1..], o)
  }

  /** i steps of d: the start of window i relative to the first one. */
  function Offset(i: nat, d: nat): nat
  {
    if i == 0 then 0 else Offset(i - 1, d) + d
  }

  lemma {:induction false} OffsetIsProduct(i: nat, d: nat)
    ensures Offset(i, d) == i * d
  {
    if i > 0 {
      OffsetIsProduct(i - 1, d);
    }
  }

  /** Chunk i of the windows from `start` begins i steps of `chunk_size - overlap` later. */
  lemma {:induction false} ChunksFromWindow(text: string, source: string, c: int, o: int, start: nat, i: nat)
    requires 0 <= o < c
    requires i < |ChunksFrom(text, source, c, o, start)|
    ensures var r := ChunksFrom(text, source, c, o, start);
      var s := start + Offset(i, c - o);
      && s < |text|
      && r[i] == Chunk(text[s..Min(s + c, |text|)], source)
      && (i < |r| - 1 ==> s + c < |text|)
      && (i == |r| - 1 ==> s + c >= |text|)
    decreases i
  {
    if start + c >= |text| {
      assert text[start..Min(start + c, |text|)] == text[start..];
    } else if i > 0 {
      var next := start + (c - o);
      ChunksFromWindow(text, source, c, o, next, i - 1);
      assert next + Offset(i - 1, c - o) == start + Offset(i, c - o);
    }
  }

  /** Dropping the overlaps from the windows from `start` gives back `text[start:]`. */
  lemma {:induction false} ChunksFromReassemble(text: string, source: string, c: int, o: int, start: nat)
    requires 0 <= o < c
    ensures var r := ChunksFrom(text, source, c, o, start);
      && (r == [] <==> start >= |text|)
      && Reassemble(r, o) == (if start < |text| then text[start..] else "")
    decreases |text| - start
  {
    if start < |text| && start + c < |text| {
      var next := start + c - o;
      var head := Chunk(text[start..start + c], source);
      var rest := ChunksFrom(text, source, c, o, next);
      assert ChunksFrom(text, source, c, o, start) == [head] + rest;
      ChunksFromReassemble(text, source, c, o, next);
      ReassembleCons(head, rest, o);
      assert head.text[..c - o] == text[start..next];
      SliceJoin(text, start, next);
    }
  }

  lemma ReassembleCons(h: Chunk, rest: seq<Chunk>, o: nat)
    requires rest != [] && o <= |h.text|
    ensures Reassemble([h] + rest, o) == h.text[..|h.text| - o] + Reassemble(rest, o)
  {
    assert ([h] + rest)[1..] == rest;
  }

  lemma SliceJoin(text: string, a: nat, b: nat)
    requires a <= b <= |text|
    ensures text[a..b] + text[b..] == text[a..]
  {
  }

  /**
   * Chunk i of the intended chunker is the window
   * `text[s : min(s+chunk_size, len)]` with `s = i*(chunk_size-overlap)`,
   * tagged with `source`, so at most `chunk_size` long; every chunk but the last
   * is exactly `chunk_size` long and the last one ends at the end of the text.
   */
  lemma ChunkedWindow(text: string, source: string, c: int, o: int, i: nat)
    requires 0 <= o < c
    requires i < |Chunked(text, source, c, o)|
    ensures Offset(i, c - o) == i * (c - o)
    ensures var r := Chunked(text, source, c, o);
      var s := Offset(i, c - o);
      && s < |text|
      && r[i] == Chunk(text[s..Min(s + c, |text|)], source)
      && r[i].source == source && |r[i].text| <= c
      && (i < |r| - 1 ==> |r[i].text| == c)
      && (i == |r| - 1 ==> Min(s + c, |text|) == |text|)
  {
    ChunksFromWindow(text, source, c, o, 0, i);
    OffsetIsProduct(i, c - o);
  }

  /**
   * The intended chunker gives `[]` exactly for the empty text, and dropping the
   * overlap from every chunk but the last gives the text back.
   */
  lemma ChunkedCovers(text: string, source: string, c: int, o: int)
    requires 0 <= o < c
    ensures Chunked(text, source, c, o) == [] <==> text == ""
    ensures Reassemble(Chunked(text, source, c, o), o) == text
  {
    ChunksFromReassemble(text, source, c, o, 0);
    assert text[0..] == text;
  }

  // ---------------------------------------------------------------------------
  // load_templates: per-template chunking, flattened in template order
  // ---------------------------------------------------------------------------

  /** The flattened chunk list of the templates, in template order. */
  function AllChunks(templates: seq<Template>): seq<Chunk>
  {
    if templates == [] then []
    else
      var last := templates[|templates| - 1];
      AllChunks(templates[..|templates| - 1]) + Chunked(last.content, last.filename, ChunkSize, Overlap)
  }

  /** `load_templates` over the template rows in query order, with the intended chunker. */
  method LoadTemplates(templates: seq<Template>) returns (all: seq<Chunk>)
    ensures all == AllChunks(templates)
  {
    all := [];
    for i := 0 to |templates|
      invariant all == AllChunks(templates[..i])
    {
      var t := templates[i];
      var chunks := LoadChunks(t.content, t.filename, ChunkSize, Overlap);
      assert templates[..i + 1][..i] == templates[..i];
      all := all + chunks;
    }
    assert templates[..|templates|] == templates;
  }

  /** Flattening distributes over concatenation of template lists. */
  lemma {:induction false} AllChunksAppend(a: seq<Template>, b: seq<Template>)
    ensures AllChunks(a + b) == AllChunks(a) + AllChunks(b)
    decreases |b|
  {
    if b == [] {
      assert a + b == a;
    } else {
      var b' := b[..|b| - 1];
      var last := b[|b| - 1];
      var lc := Chunked(last.content, last.filename, ChunkSize, Overlap);
      assert AllChunks(a + b) == AllChunks(a + b') + lc by {
        assert (a + b)[..|a + b| - 1] == a + b';
        assert (a + b)[|a + b| - 1] == last;
      }
      assert AllChunks(b) == AllChunks(b') + lc;
      AllChunksAppend(a, b');
      assert (AllChunks(a) + AllChunks(b')) + lc == AllChunks(a) + (AllChunks(b') + lc);
    }
  }

  /** The flattened list of one template is that template's chunk list. */
  lemma AllChunksSingle(t: Template)
    ensures AllChunks([t]) == Chunked(t.content, t.filename, ChunkSize, Overlap)
  {
    assert [t][..0] == [];
  }

  /** The flattened chunk list is empty exactly when every template's content is empty. */
  lemma {:induction false} AllChunksEmptyIff(templates: seq<Template>)
    ensures AllChunks(templates) == [] <==> forall i :: 0 <= i < |templates| ==> templates[i].content == ""
    decreases |templates|
  {
    if templates != [] {
      var init := templates[..|templates| - 1];
      var last := templates[|templates| - 1];
      AllChunksEmptyIff(init);
      ChunkedCovers(last.content, last.filename, ChunkSize, Overlap);
      if forall i :: 0 <= i < |init| ==> init[i].content == "" {
        if last.content == "" {
          forall i | 0 <= i < |templates| ensures templates[i].content == "" {
            if i < |init| { assert templates[i] == init[i]; }
          }
        }
      } else {
        var i :| 0 <= i < |init| && init[i].content != "";
        assert templates[i] == init[i];
      }
    }
  }

  /** Every flattened chunk is tagged with the filename of a template and is at most `ChunkSize` long. */
  lemma {:induction false} AllChunksTagged(templates: seq<Template>, k: nat)
    requires k < |AllChunks(templates)|
    ensures exists i :: 0 <= i < |templates| && AllChunks(templates)[k].source == templates[i].filename
    ensures |AllChunks(templates)[k].text| <= ChunkSize
    decreases |templates|
  {
    var init := templates[..|templates| - 1];
    var last := templates[|templates| - 1];
    if k < |AllChunks(init)| {
      AllChunksTagged(init, k);
      var i :| 0 <= i < |init| && AllChunks(init)[k].source == init[i].filename;
      assert templates[i] == init[i];
    } else {
      ChunkedWindow(last.content, last.filename, ChunkSize, Overlap, k - |AllChunks(init)|);
      assert AllChunks(templates)[k] == Chunked(last.content, last.filename, ChunkSize, Overlap)[k - |AllChunks(init)|];
    }
  }

  /** Whether the literal `load_templates` returns: every template's literal chunk loop returns. */
  ghost predicate LiteralLoadTemplatesReturns(templates: seq<Template>)
  {
    forall i :: 0 <= i < |templates| ==> LiteralLoadChunksReturns(templates[i].content)
  }

  /**
   * With the chunker as written, `load_templates` (and so `rag_pipeline`) returns
   * exactly when the flattened chunk list is empty: no templates, or only empty ones.
   */
  lemma LiteralLoadTemplatesReturnsIff(templates: seq<Template>)
    ensures LiteralLoadTemplatesReturns(templates) <==> AllChunks(templates) == []
  {
    AllChunksEmptyIff(templates);
    forall i | 0 <= i < |templates|
      ensures LiteralLoadChunksReturns(templates[i].content) <==> templates[i].content == ""
    {
      LiteralLoadChunksReturnsIff(templates[i].content);
    }
  }

  // ---------------------------------------------------------------------------
  // search: index positions to chunks, with Python's negative indexing
  // ---------------------------------------------------------------------------

  /** The position Python's `chunks[i]` reads for an in-range (possibly negative) index. */
  function PyIndex(i: int, n: nat): int
  {
    if i < 0 then i + n else i
  }

  /**
   * `[chunks[i] for i in indices]`: `None` when some index is outside Python's
   * range `[-len, len)` (an IndexError), else one chunk per index, in order.
   */
  function Search(chunks: seq<Chunk>, indices: seq<int>): (r: Option<seq<Chunk>>)
    ensures r.Some? <==> forall k :: 0 <= k < |indices| ==> -|chunks| <= indices[k] < |chunks|
    ensures r.Some? ==> |r.value| == |indices|
    ensures r.Some? ==> forall k :: 0 <= k < |indices| ==>
      0 <= PyIndex(indices[k], |chunks|) < |chunks| && r.value[k] == chunks[PyIndex(indices[k], |chunks|)]
    decreases |indices|
  {
    if indices == [] then Some([])
    else
      var i := indices[0];
      if !(-|chunks| <= i < |chunks|) then None
      else
        match Search(chunks, indices[1..])
        case None => None
        case Some(rest) => Some([chunks[PyIndex(i, |chunks|)]] + rest)
  }

  /** FAISS's result row: the hit positions, padded with -1 up to `top_k`. */
  function FaissPadded(hits: seq<int>, topK: nat): (r: seq<int>)
    ensures |r| == if topK > |hits| then topK else |hits|
  {
    hits + seq(if topK > |hits| then topK - |hits| else 0, _ => -1)
  }

  /**
   * With an index row whose entries lie in `[-1, n)`, `search` never raises, and
   * every `-1` padding entry yields the LAST chunk.
   */
  lemma SearchFaissRow(chunks: seq<Chunk>, indices: seq<int>)
    requires |chunks| > 0
    requires forall k :: 0 <= k < |indices| ==> -1 <= indices[k] < |chunks|
    ensures Search(chunks, indices).Some?
    ensures forall k :: 0 <= k < |indices| && indices[k] == -1 ==>
      Search(chunks, indices).value[k] == chunks[|chunks| - 1]
  {
  }

  /**
   * When `top_k` exceeds the number of chunks and the index returns every chunk
   * once, `search` returns `top_k` chunks: the hits, then copies of the last chunk.
   */
  lemma SearchPaddedTopK(chunks: seq<Chunk>, hits: seq<int>, topK: nat)
    requires |chunks| > 0 && topK > |hits|
    requires forall k :: 0 <= k < |hits| ==> 0 <= hits[k] < |chunks|
    ensures var r := Search(chunks, FaissPadded(hits, topK));
      && r.Some? && |r.value| == topK
      && (forall k :: 0 <= k < |hits| ==> r.value[k] == chunks[hits[k]])
      && (forall k :: |hits| <= k < topK ==> r.value[k] == chunks[|chunks| - 1])
  {
    var padded := FaissPadded(hits, topK);
    assert forall k :: |hits| <= k < topK ==> padded[k] == -1;
    assert forall k :: 0 <= k < |hits| ==> padded[k] == hits[k];
    SearchFaissRow(chunks, padded);
  }

  // ---------------------------------------------------------------------------
  // rerank: stable descending sort by cross-encoder score, cut to five
  // ---------------------------------------------------------------------------

  /** A candidate with its input position (the tie-break of a stable sort) and its score. */
  datatype Scored = Scored(pos: nat, chunk: Chunk, score: int)

  /** `zip(chunks, scores)`, each pair also carrying its input position. */
  function Zip(query: string, chunks: seq<Chunk>, scorer: (string, string) -> int): (r: seq<Scored>)
    ensures |r| == |chunks|
    ensures forall i :: 0 <= i < |r| ==> r[i] == Scored(i, chunks[i], scorer(query, chunks[i].text))
  {
    seq(|chunks|, i requires 0 <= i < |chunks| => Scored(i, chunks[i], scorer(query, chunks[i].text)))
  }

  /** a comes before b in `sorted(..., key=score, reverse=True)`: a higher score, or an equal score and an earlier position. */
  predicate Before(a: Scored, b: Scored)
  {
    a.score > b.score || (a.score == b.score && a.pos < b.pos)
  }

  /** Order of `sorted(..., key=score, reverse=True)`: higher score first, ties by input position. */
  ghost predicate RankedOrder(s: seq<Scored>)
  {
    forall p, q :: 0 <= p < q < |s| ==> Before(s[p], s[q])
  }

  lemma RankedTail(s: seq<Scored>)
    requires s != [] && RankedOrder(s)
    ensures RankedOrder(s[1..])
  {
    forall p, q | 0 <= p < q < |s[1..]| ensures Before(s[1..][p], s[1..][q]) {
      assert s[1..][p] == s[p + 1] && s[1..][q] == s[q + 1];
    }
  }

  lemma RankedCons(h: Scored, t: seq<Scored>)
    requires RankedOrder(t)
    requires forall q :: 0 <= q < |t| ==> Before(h, t[q])
    ensures RankedOrder([h] + t)
  {
    var r := [h] + t;
    forall p, q | 0 <= p < q < |r| ensures Before(r[p], r[q]) {
      assert r[q] == t[q - 1];
      if p > 0 {
        assert r[p] == t[p - 1];
      }
    }
  }

  /** Insert x before the first element that does not score strictly higher. */
  function Insert(x: Scored, ys: seq<Scored>): (r: seq<Scored>)
    ensures multiset(r) == multiset{x} + multiset(ys)
    ensures |r| == |ys| + 1
    decreases |ys|
  {
    if ys == [] || ys[0].score <= x.score then [x] + ys
    else
      assert ys == [ys[0]] + ys[1..];
      [ys[0]] + Insert(x, ys[1..])
  }

  /** A stable sort by descending score (insertion sort from the back). */
  function SortDesc(s: seq<Scored>): (r: seq<Scored>)
    ensures multiset(r) == multiset(s)
    ensures |r| == |s|
    decreases |s|
  {
    if s == [] then []
    else
      assert s == [s[0]] + s[1..];
      Insert(s[0], SortDesc(s[1..]))
  }

  function Chunks(s: seq<Scored>): (r: seq<Chunk>)
    ensures |r| == |s|
    ensures forall i :: 0 <= i < |s| ==> r[i] == s[i].chunk
  {
    seq(|s|, i requires 0 <= i < |s| => s[i].chunk)
  }

  lemma {:induction false} InsertRanked(x: Scored, ys: seq<Scored>)
    requires RankedOrder(ys)
    requires forall k :: 0 <= k < |ys| ==> x.pos < ys[k].pos
    ensures RankedOrder(Insert(x, ys))
    decreases |ys|
  {
    if ys == [] || ys[0].score <= x.score {
      forall q | 0 <= q < |ys| ensures Before(x, ys[q]) {
        if q > 0 {
          assert Before(ys[0], ys[q]);
        }
      }
      RankedCons(x, ys);
    } else {
      var tail := Insert(x, ys[1..]);
      RankedTail(ys);
      InsertRanked(x, ys[1..]);
      assert multiset(tail) == multiset{x} + multiset(ys[1..]);
      forall q | 0 <= q < |tail| ensures Before(ys[0], tail[q]) {
        var e := tail[q];
        assert e in multiset(tail);
        if e != x {
          assert e in multiset(ys[1..]);
          var j :| 0 <= j < |ys[1..]| && ys[1..][j] == e;
          assert ys[j + 1] == e;
          assert Before(ys[0], ys[j + 1]);
        }
      }
      RankedCons(ys[0], tail);
    }
  }

  lemma {:induction false} SortDescRanked(s: seq<Scored>)
    requires forall p, q :: 0 <= p < q < |s| ==> s[p].pos < s[q].pos
    ensures RankedOrder(SortDesc(s))
    decreases |s|
  {
    if s != [] {
      SortDescRanked(s[1..]);
      var sorted := SortDesc(s[1..]);
      forall k | 0 <= k < |sorted| ensures s[0].pos < sorted[k].pos {
        assert sorted[k] in multiset(s[1..]);
        var j :| 0 <= j < |s[1..]| && s[1..][j] == sorted[k];
        assert s[j + 1] == sorted[k];
      }
      InsertRanked(s[0], sorted);
    }
  }

  lemma ChunksCons(h: Scored, t: seq<Scored>)
    ensures Chunks([h] + t) == [h.chunk] + Chunks(t)
    ensures multiset(Chunks([h] + t)) == multiset{h.chunk} + multiset(Chunks(t))
  {
    assert Chunks([h] + t) == [h.chunk] + Chunks(t);
  }

  lemma MultisetSwap(a: Chunk, b: Chunk, m: multiset<Chunk>)
    ensures multiset{a} + (multiset{b} + m) == multiset{b} + (multiset{a} + m)
  {
  }

  lemma {:induction false} ChunksInsert(x: Scored, ys: seq<Scored>)
    ensures multiset(Chunks(Insert(x, ys))) == multiset{x.chunk} + multiset(Chunks(ys))
    decreases |ys|
  {
    if ys == [] || ys[0].score <= x.score {
      assert Insert(x, ys) == [x] + ys;
      ChunksCons(x, ys);
    } else {
      ChunksInsert(x, ys[1..]);
      ChunksInsertStep(x, ys);
    }
  }

  /** The step of `ChunksInsert` where x goes past the head of ys. */
  lemma ChunksInsertStep(x: Scored, ys: seq<Scored>)
    requires ys != [] && ys[0].score > x.score
    requires multiset(Chunks(Insert(x, ys[1..]))) == multiset{x.chunk} + multiset(Chunks(ys[1..]))
    ensures multiset(Chunks(Insert(x, ys))) == multiset{x.chunk} + multiset(Chunks(ys))
  {
    var tail := Insert(x, ys[1..]);
    var rest := multiset(Chunks(ys[1..]));
    assert multiset(Chunks(Insert(x, ys))) == multiset{ys[0].chunk} + (multiset{x.chunk} + rest) by {
      assert Insert(x, ys) == [ys[0]] + tail;
      ChunksCons(ys[0], tail);
    }
    assert multiset(Chunks(ys)) == multiset{ys[0].chunk} + rest by {
      ChunksCons(ys[0], ys[1..]);
      assert [ys[0]] + ys[1..] == ys;
    }
    MultisetSwap(ys[0].chunk, x.chunk, rest);
  }

  lemma {:induction false} ChunksSortDesc(s: seq<Scored>)
    ensures multiset(Chunks(SortDesc(s))) == multiset(Chunks(s))
    decreases |s|
  {
    if s != [] {
      var t := SortDesc(s[1..]);
      assert multiset(Chunks(SortDesc(s))) == multiset{s[0].chunk} + multiset(Chunks(s[1..])) by {
        assert SortDesc(s) == Insert(s[0], t);
        ChunksSortDesc(s[1..]);
        ChunksInsert(s[0], t);
      }
      assert multiset(Chunks(s)) == multiset{s[0].chunk} + multiset(Chunks(s[1..])) by {
        ChunksCons(s[0], s[1..]);
        assert [s[0]] + s[1..] == s;
      }
    }
  }

  /** The candidates with their scores in the order `sorted(..., reverse=True)` gives. */
  function Ranked(query: string, chunks: seq<Chunk>, scorer: (string, string) -> int): seq<Scored>
  {
    SortDesc(Zip(query, chunks, scorer))
  }

  /** `rerank`: the input unchanged when empty, else the chunks of the five best-ranked pairs. */
  function Rerank(query: string, chunks: seq<Chunk>, scorer: (string, string) -> int): (r: seq<Chunk>)
    ensures |r| == Min(RerankKeep, |chunks|)
    ensures chunks == [] ==> r == chunks
  {
    if chunks == [] then chunks
    else
      var ranked := Ranked(query, chunks, scorer);
      Chunks(ranked[..Min(RerankKeep, |ranked|)])
  }

  /**
   * The ranked pairs are the input pairs reordered: one per input chunk, each the
   * chunk at its input position with that chunk's score, higher scores first and
   * equal scores in input order (the stability of Python's `sorted`).
   */
  lemma RankedSpec(query: string, chunks: seq<Chunk>, scorer: (string, string) -> int)
    ensures var ranked := Ranked(query, chunks, scorer);
      && |ranked| == |chunks|
      && RankedOrder(ranked)
      && (forall k :: 0 <= k < |ranked| ==>
            ranked[k].pos < |chunks| && ranked[k].chunk == chunks[ranked[k].pos]
            && ranked[k].score == scorer(query, ranked[k].chunk.text))
      && multiset(Chunks(ranked)) == multiset(chunks)
  {
    var z := Zip(query, chunks, scorer);
    var ranked := Ranked(query, chunks, scorer);
    SortDescRanked(z);
    forall k | 0 <= k < |ranked|
      ensures ranked[k].pos < |chunks| && ranked[k].chunk == chunks[ranked[k].pos]
      ensures ranked[k].score == scorer(query, ranked[k].chunk.text)
    {
      assert ranked[k] in multiset(z);
      var j :| 0 <= j < |z| && z[j] == ranked[k];
    }
    ChunksSortDesc(z);
    assert Chunks(z) == chunks;
  }

  /**
   * What `rerank` promises on a non-empty input: the kept chunks are the first
   * `min(5, len)` ranked pairs, in non-increasing score order; every kept pair
   * outscores or ties every dropped one; the output is a sub-multiset of the input.
   */
  lemma RerankSpec(query: string, chunks: seq<Chunk>, scorer: (string, string) -> int)
    requires chunks != []
    ensures var ranked := Ranked(query, chunks, scorer);
      var r := Rerank(query, chunks, scorer);
      && r == Chunks(ranked[..|r|])
      && (forall p, q :: 0 <= p < q < |r| ==> scorer(query, r[p].text) >= scorer(query, r[q].text))
      && (forall p, q :: 0 <= p < |r| <= q < |ranked| ==> ranked[p].score >= ranked[q].score)
      && multiset(r) <= multiset(chunks)
  {
    var ranked := Ranked(query, chunks, scorer);
    var r := Rerank(query, chunks, scorer);
    RankedSpec(query, chunks, scorer);
    var m := |r|;
    assert r == Chunks(ranked[..m]);
    forall p, q | 0 <= p < q < m ensures scorer(query, r[p].text) >= scorer(query, r[q].text) {
      assert Before(ranked[p], ranked[q]);
      assert r[p] == ranked[p].chunk && r[q] == ranked[q].chunk;
    }
    forall p, q | 0 <= p < m <= q < |ranked| ensures ranked[p].score >= ranked[q].score {
      assert Before(ranked[p], ranked[q]);
    }
    ChunksPrefix(ranked, m);
  }

  /** The chunks of a prefix form a sub-multiset of all the chunks. */
  lemma ChunksPrefix(s: seq<Scored>, m: nat)
    requires m <= |s|
    ensures multiset(Chunks(s[..m])) <= multiset(Chunks(s))
  {
    assert Chunks(s) == Chunks(s[..m]) + Chunks(s[m..]);
  }

  /** An empty candidate list is returned unchanged whatever the scorer: the scorer is not consulted. */
  lemma RerankEmptyIgnoresScorer(query: string, s1: (string, string) -> int, s2: (string, string) -> int)
    ensures Rerank(query, [], s1) == Rerank(query, [], s2) == []
  {
  }

  // ---------------------------------------------------------------------------
  // generate_summary: context blocks, prompt and the chat request
  // ---------------------------------------------------------------------------

  /** One context block: `"--- TEMPLATE: {source} ---\n{text}\n\n"`. */
  function Block(c: Chunk): string
  {
    "--- TEMPLATE: " + c.source + " ---\n" + c.text + "\n\n"
  }

  /** The context string after the `+=` loop has consumed `cs`. */
  function Context(cs: seq<Chunk>): string
  {
    if cs == [] then "" else Context(cs[..|cs| - 1]) + Block(cs[|cs| - 1])
  }

  /** The context loop of `generate_summary`. */
  method BuildContext(cs: seq<Chunk>) returns (context: string)
    ensures context == Context(cs)
  {
    context := "";
    for i := 0 to |cs|
      invariant context == Context(cs[..i])
    {
      assert cs[..i + 1][..i] == cs[..i];
      context := context + Block(cs[i]);
    }
    assert cs[..|cs|] == cs;
  }

  lemma {:induction false} ContextAppend(a: seq<Chunk>, b: seq<Chunk>)
    ensures Context(a + b) == Context(a) + Context(b)
    decreases |b|
  {
    if b == [] {
      assert a + b == a;
    } else {
      var b' := b[..|b| - 1];
      var last := b[|b| - 1];
      assert (a + b)[..|a + b| - 1] == a + b';
      assert (a + b)[|a + b| - 1] == last;
      assert Context(a + b) == Context(a + b') + Block(last);
      assert Context(b) == Context(b') + Block(last);
      ContextAppend(a, b');
    }
  }

  /**
   * The context is the in-order concatenation of the blocks: block k starts
   * right after the blocks of the first k chunks.  It is empty exactly when
   * there are no chunks.
   */
  lemma ContextBlocks(cs: seq<Chunk>, k: nat)
    requires k < |cs|
    ensures var start := |Context(cs[..k])|;
      start + |Block(cs[k])| <= |Context(cs)|
      && Context(cs)[start..start + |Block(cs[k])|] == Block(cs[k])
    ensures Context(cs) != ""
  {
    assert cs == cs[..k] + [cs[k]] + cs[k + 1..];
    ContextAppend(cs[..k] + [cs[k]], cs[k + 1..]);
    ContextAppend(cs[..k], [cs[k]]);
    assert [cs[k]][..0] == [];
    assert Context([cs[k]]) == Block(cs[k]);
  }

  const PromptHead: string :=
    "You are a senior clinical documentation specialist at a hospital.\n\n"
    + "TASK: Generate a professional, complete discharge summary based on the patient "
    + "information and reference templates below.\n\n"
    + "PATIENT INFORMATION:\n"

  const PromptMiddle: string := "\n\nREFERENCE TEMPLATES:\n"

  const PromptTail: string :=
    "\n\nDISCHARGE SUMMARY FORMAT:\n\n"
    + "PATIENT OVERVIEW:\n[Patient name, age, admission date, brief reason for admission]\n\n"
    + "DIAGNOSIS:\n\U{2022} Primary diagnosis:\n\U{2022} Secondary diagnoses (if any):\n\n"
    + "HOSPITAL COURSE & TREATMENT:\n[Summary of treatment provided, procedures performed, "
    + "medications administered, and patient's response]\n\n"
    + "DISCHARGE MEDICATIONS:\n\U{2022} Medication name | Dosage | Frequency | Duration\n"
    + "\U{2022} [Continue list]\n\n"
    + "DISCHARGE INSTRUCTIONS:\n\U{2022} Activity restrictions:\n\U{2022} Wound care (if applicable):\n"
    + "\U{2022} Diet recommendations:\n\U{2022} Symptoms to watch for:\n\n"
    + "FOLLOW-UP APPOINTMENTS:\n\U{2022} Provider: [Specialty] - [Timeframe]\n"
    + "\U{2022} Additional tests needed:\n\n"
    + "CONDITION AT DISCHARGE:\n[Patient's status - stable, improved, etc.]\n\n"
    + "RULES:\n1. ONLY use information from the provided context\n"
    + "2. Do NOT invent medications, diagnoses, or treatments\n"
    + "3. If information is missing, write \"Not specified in records\"\n"
    + "4. Use professional medical terminology\n"
    + "5. Be concise but comprehensive\n"
    + "6. Format as plain text without markdown\n"
    + "7. Include specific dosages and frequencies when available\n\n"
    + "Generate the discharge summary now:"

  /** The prompt f-string of `generate_summary` with the query and the context filled in. */
  function Prompt(query: string, context: string): string
  {
    PromptHead + query + PromptMiddle + context + PromptTail
  }

  lemma SliceOfConcat(a: string, b: string, c: string, d: string, e: string)
    ensures var s := a + b + c + d + e;
      && |a| + |b| + |c| + |d| <= |s|
      && s[|a|..|a| + |b|] == b
      && s[|a| + |b| + |c|..|a| + |b| + |c| + |d|] == d
  {
    var s := a + b + c + d + e;
    assert s == a + (b + (c + d + e));
    assert s == (a + b + c) + (d + e);
  }

  /** The prompt holds the query verbatim and, after it, the context verbatim. */
  lemma PromptHoldsQueryAndContext(query: string, context: string)
    ensures var p := Prompt(query, context);
      var q0 := |PromptHead|;
      var c0 := |PromptHead| + |query| + |PromptMiddle|;
      && c0 + |context| <= |p|
      && p[q0..q0 + |query|] == query
      && p[c0..c0 + |context|] == context
  {
    SliceOfConcat(PromptHead, query, PromptMiddle, context, PromptTail);
  }

  /** One chat message. */
  datatype Message = Message(role: string, content: string)

  /** The request `generate_summary` sends to the chat endpoint. */
  datatype ChatRequest = ChatRequest(model: string, messages: seq<Message>, temperature: real, maxTokens: nat)

  /** The chat endpoint's answer: the first choice's message content, or a raised error. */
  datatype Reply = Replied(content: string) | ChatFailed

  /** The single-message chat request for a prompt, as `generate_summary` builds it. */
  function SummaryRequest(prompt: string): (r: ChatRequest)
    ensures r.model == "llama-3.3-70b-versatile" && r.temperature == 0.3 && r.maxTokens == 1500
    ensures r.messages == [Message("user", prompt)]
  {
    ChatRequest("llama-3.3-70b-versatile", [Message("user", prompt)], 0.3, 1500)
  }

  /** `generate_summary`: build the context, fill the prompt, ask the chat endpoint once. */
  method GenerateSummary(query: string, contextChunks: seq<Chunk>, chat: ChatRequest -> Reply)
    returns (reply: Reply, request: ChatRequest)
    ensures request == SummaryRequest(Prompt(query, Context(contextChunks)))
    ensures reply == chat(request)
  {
    var context := BuildContext(contextChunks);
    var prompt := Prompt(query, context);
    request := SummaryRequest(prompt);
    reply := chat(request);
  }

  // ---------------------------------------------------------------------------
  // rag_pipeline
  // ---------------------------------------------------------------------------

  /** The foreign models the pipeline calls. */
  datatype Models = Models(
    // encode and L2-normalise the chunk texts, build an IndexFlatIP over them,
    // encode and normalise the query, and return row 0 of `index.search(query, top_k)`
    retrieve: (seq<string>, string, nat) -> seq<int>,
    // the cross-encoder's score of one (query, text) pair
    score: (string, string) -> int,
    chat: ChatRequest -> Reply)

  /** The calls the pipeline makes into foreign models, in order. */
  datatype ModelCall =
    | EmbedChunks(texts: seq<string>)
    | EmbedQuery(query: string)
    | IndexSearch(topK: nat)
    | ScorePairs(count: nat)
    | Chat(request: ChatRequest)

  datatype PipelineError = IndexError | GenerationFailure

  /** What `rag_pipeline` returns, or the exception it raises. */
  datatype Outcome = Answer(text: string) | Raised(error: PipelineError)

  const NoTemplatesMessage: string := "No templates available. Please upload templates first."

  function Texts(chunks: seq<Chunk>): (r: seq<string>)
    ensures |r| == |chunks| && forall i :: 0 <= i < |r| ==> r[i] == chunks[i].text
  {
    seq(|chunks|, i requires 0 <= i < |chunks| => chunks[i].text)
  }

  /** The pipeline's result on a non-empty chunk list. */
  function Answered(query: string, chunks: seq<Chunk>, models: Models): Outcome
  {
    match Search(chunks, models.retrieve(Texts(chunks), query, SearchTopK))
    case None => Raised(IndexError)
    case Some(retrieved) =>
      match models.chat(SummaryRequest(Prompt(query, Context(Rerank(query, retrieved, models.score)))))
      case Replied(text) => Answer(text)
      case ChatFailed => Raised(GenerationFailure)
  }

  /** What `rag_pipeline` returns for a query over the template rows. */
  function PipelineResult(query: string, templates: seq<Template>, models: Models): Outcome
  {
    var chunks := AllChunks(templates);
    if chunks == [] then Answer(NoTemplatesMessage) else Answered(query, chunks, models)
  }

  /** With no templates, or only empty ones, the pipeline answers with the fixed message. */
  lemma EmptyCorpusMessage(query: string, templates: seq<Template>, models: Models)
    requires forall i :: 0 <= i < |templates| ==> templates[i].content == ""
    ensures PipelineResult(query, templates, models) == Answer(NoTemplatesMessage)
  {
    AllChunksEmptyIff(templates);
  }

  /**
   * `rag_pipeline` over the template rows, with the intended chunker.  On an empty
   * chunk list it returns the fixed message before calling any model; otherwise it
   * embeds, indexes, searches for 15, reranks (consulting the scorer only when
   * something was retrieved) and generates.
   */
  method RagPipeline(query: string, templates: seq<Template>, models: Models)
    returns (out: Outcome, calls: seq<ModelCall>)
    ensures AllChunks(templates) == [] <==> calls == []
    ensures out == PipelineResult(query, templates, models)
    ensures AllChunks(templates) != [] ==>
      |calls| >= 3 && calls[..3] == [EmbedChunks(Texts(AllChunks(templates))), EmbedQuery(query), IndexSearch(SearchTopK)]
  {
    var chunks := LoadTemplates(templates);
    if chunks == [] {
      return Answer(NoTemplatesMessage), [];
    }
    calls := [EmbedChunks(Texts(chunks)), EmbedQuery(query), IndexSearch(SearchTopK)];
    var indices := models.retrieve(Texts(chunks), query, SearchTopK);
    var found := Search(chunks, indices);
    if found.None? {
      return Raised(IndexError), calls;
    }
    var retrieved := found.value;
    if retrieved != [] {
      calls := calls + [ScorePairs(|retrieved|)];
    }
    var reranked := Rerank(query, retrieved, models.score);
    var reply, request := GenerateSummary(query, reranked, models.chat);
    calls := calls + [Chat(request)];
    match reply
    case Replied(text) => out := Answer(text);
    case ChatFailed => out := Raised(GenerationFailure);
  }

  /**
   * On a non-empty corpus whose index row lies in `[-1, n)`, the pipeline never
   * raises IndexError; it answers exactly with the chat reply to the prompt that
   * holds the query and the context of the reranked retrieved chunks, and fails
   * exactly when the chat call fails.
   */
  lemma AnsweredIsChatReply(query: string, chunks: seq<Chunk>, models: Models)
    requires chunks != []
    requires var row := models.retrieve(Texts(chunks), query, SearchTopK);
      forall k :: 0 <= k < |row| ==> -1 <= row[k] < |chunks|
    ensures var row := models.retrieve(Texts(chunks), query, SearchTopK);
      var retrieved := Search(chunks, row);
      && retrieved.Some?
      && |retrieved.value| == |row|
      && var request := SummaryRequest(Prompt(query, Context(Rerank(query, retrieved.value, models.score))));
      && (Answered(query, chunks, models) == Raised(GenerationFailure) <==> models.chat(request) == ChatFailed)
      && (models.chat(request).Replied? ==> Answered(query, chunks, models) == Answer(models.chat(request).content))
  {
    SearchFaissRow(chunks, models.retrieve(Texts(chunks), query, SearchTopK));
  }

  /** The one-template scenario: a short template gives one chunk, and its block opens the context. */
  lemma ShortTemplateScenario(t: Template, query: string, scorer: (string, string) -> int)
    requires 0 < |t.content| < ChunkSize
    ensures AllChunks([t]) == [Chunk(t.content, t.filename)]
    ensures Rerank(query, AllChunks([t]), scorer) == AllChunks([t])
    ensures Context(AllChunks([t])) == "--- TEMPLATE: " + t.filename + " ---\n" + t.content + "\n\n"
  {
    AllChunksSingle(t);
    assert t.content[0..] == t.content;
    var cs := [Chunk(t.content, t.filename)];
    RerankSpec(query, cs, scorer);
    assert [cs[0]][..0] == [];
  }
}
