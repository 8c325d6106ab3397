/** The document keyword engine of `document_utils.py`: text is cut into
    overlapping fixed-size chunks, kept in two parallel lists (chunk text and the
    path it came from), and searched by counting query words in each chunk.
    Text extraction (PDF, DOCX, OCR, spreadsheets) is an opaque string source. */
module Documents {
  import opened Common
  import opened Ranking

  const CHUNK_SIZE: nat := 500
  const CHUNK_OVERLAP: nat := 50
  const SNIPPET_LENGTH: nat := 200

  // ---------------------------------------------------------------------------
  // chunk_text

  /** The chunks the loop of `chunk_text` emits from position `start` on. */
  function ChunksFrom(text: string, size: nat, overlap: nat, start: nat): seq<string>
    requires overlap < size
    decreases |text| - start
  {
    if start >= |text| then []
    else [text[start..Min(start + size, |text|)]] + ChunksFrom(text, size, overlap, start + (size - overlap))
  }

  function Chunks(text: string, size: nat, overlap: nat): seq<string>
    requires overlap < size
  {
    ChunksFrom(text, size, overlap, 0)
  }

  /** `chunk_text(text, chunk_size, overlap)`; the source loops for ever unless
      `chunk_size > overlap`. */
  method ChunkText(text: string, size: nat, overlap: nat) returns (chunks: seq<string>)
    requires overlap < size
    ensures chunks == Chunks(text, size, overlap)
  {
    chunks := [];
    var start := 0;
    while start < |text|
      invariant chunks + ChunksFrom(text, size, overlap, start) == Chunks(text, size, overlap)
      decreases |text| - start
    {
      var end := start + size;
      chunks := chunks + [text[start..Min(end, |text|)]];
      start := start + (size - overlap);
    }
  }

  /** Where chunk `i` begins: `i` steps of `step` characters. */
  function Offset(i: nat, step: nat): nat {
    if i == 0 then 0 else Offset(i - 1, step) + step
  }

  lemma {:induction false} OffsetIsProduct(i: nat, step: nat)
    ensures Offset(i, step) == i * step
  {
    if i > 0 {
      OffsetIsProduct(i - 1, step);
      assert (i - 1) * step + step == i * step;
    }
  }

  /** Chunk `i` from `start` begins `i` steps after `start`. */
  lemma {:induction false} ChunkFromAt(text: string, size: nat, overlap: nat, start: nat, i: nat)
    requires overlap < size
    requires i < |ChunksFrom(text, size, overlap, start)|
    ensures var o := start + Offset(i, size - overlap);
      o < |text| && ChunksFrom(text, size, overlap, start)[i] == text[o..Min(o + size, |text|)]
    decreases i
  {
    if i > 0 {
      ChunkFromAt(text, size, overlap, start + (size - overlap), i - 1);
    }
  }

  /** The number of chunks from `start` is the least `n` with
      `start + n * step >= len(text)`. */
  lemma {:induction false} ChunkFromCount(text: string, size: nat, overlap: nat, start: nat)
    requires overlap < size
    requires start < |text|
    ensures var n, step := |ChunksFrom(text, size, overlap, start)|, size - overlap;
      n > 0 && start + Offset(n - 1, step) < |text| <= start + Offset(n, step)
    decreases |text| - start
  {
    var step := size - overlap;
    if start + step < |text| {
      ChunkFromCount(text, size, overlap, start + step);
      var m := |ChunksFrom(text, size, overlap, start + step)|;
      assert Offset(m, step) == Offset(m - 1, step) + step;
    }
  }

  /** Position `p` lies inside chunk `i` of `r`, whose chunks begin
      `size - overlap` characters apart from `origin`. */
  predicate InChunk(r: seq<string>, origin: nat, size: nat, overlap: nat, i: nat, p: nat)
    requires overlap < size
  {
    var o := origin + Offset(i, size - overlap);
    i < |r| && o <= p < o + |r[i]|
  }

  lemma {:induction false} ChunkFromCover(text: string, size: nat, overlap: nat, start: nat, p: nat)
    requires overlap < size
    requires start <= p < |text|
    ensures exists i: nat :: InChunk(ChunksFrom(text, size, overlap, start), start, size, overlap, i, p)
    decreases |text| - start
  {
    var r, step := ChunksFrom(text, size, overlap, start), size - overlap;
    if p < start + step {
      assert |r[0]| == Min(start + size, |text|) - start;
      assert InChunk(r, start, size, overlap, 0, p);
    } else {
      ChunkFromCover(text, size, overlap, start + step, p);
      var r' := ChunksFrom(text, size, overlap, start + step);
      var i: nat :| InChunk(r', start + step, size, overlap, i, p);
      assert r[i + 1] == r'[i];
      assert Offset(i + 1, step) == Offset(i, step) + step;
      assert InChunk(r, start, size, overlap, i + 1, p);
    }
  }

  /** Chunk `i` is the non-empty slice of at most `size` characters starting at
      its offset. */
  predicate ChunkIsSlice(text: string, size: nat, overlap: nat, i: nat)
    requires overlap < size && i < |Chunks(text, size, overlap)|
  {
    var o := Offset(i, size - overlap);
    && o < |text|
    && Chunks(text, size, overlap)[i] == text[o..Min(o + size, |text|)]
    && 0 < |Chunks(text, size, overlap)[i]| <= size
  }

  /** Chunk `i` is `text[o : o + size]` at offset `o = Offset(i, step)`, which
      is `i * step` with `step = size - overlap`; the number of chunks is the
      least `n` with `n * step >= len(text)`, so empty text gives no chunks and
      non-empty text at least one; no chunk is longer than `size`. */
  lemma ChunkLayout(text: string, size: nat, overlap: nat)
    requires overlap < size
    ensures |text| == 0 <==> Chunks(text, size, overlap) == []
    ensures |text| > 0 ==>
      var n, step := |Chunks(text, size, overlap)|, size - overlap;
      Offset(n - 1, step) < |text| <= Offset(n, step)
    ensures forall i :: 0 <= i < |Chunks(text, size, overlap)| ==> ChunkIsSlice(text, size, overlap, i)
  {
    if |text| > 0 {
      ChunkFromCount(text, size, overlap, 0);
    }
    forall i | 0 <= i < |Chunks(text, size, overlap)|
      ensures ChunkIsSlice(text, size, overlap, i)
    {
      ChunkFromAt(text, size, overlap, 0, i);
      var o := Offset(i, size - overlap);
      assert |text[o..Min(o + size, |text|)]| == Min(o + size, |text|) - o;
    }
  }

  /** Every character of the text lies inside some chunk. */
  lemma ChunksCoverText(text: string, size: nat, overlap: nat, p: nat)
    requires overlap < size
    requires p < |text|
    ensures exists i: nat :: InChunk(Chunks(text, size, overlap), 0, size, overlap, i, p)
  {
    ChunkFromCover(text, size, overlap, 0, p);
    var i: nat :| InChunk(ChunksFrom(text, size, overlap, 0), 0, size, overlap, i, p);
    assert InChunk(Chunks(text, size, overlap), 0, size, overlap, i, p);
  }

  // ---------------------------------------------------------------------------
  // simple_keyword_score

  /** Length of the leading run of non-space characters. */
  function RunLength(s: string): (n: nat)
    ensures n <= |s|
    ensures forall i :: 0 <= i < n ==> !IsSpace(s[i])
    ensures n == |s| || IsSpace(s[n])
  {
    if s == [] || IsSpace(s[0]) then 0 else 1 + RunLength(s[1..])
  }

  predicate IsWord(w: string) {
    |w| > 0 && forall i :: 0 <= i < |w| ==> !IsSpace(w[i])
  }

  /** `s.split()`: the maximal runs of non-space characters. */
  function Words(s: string): (ws: seq<string>)
    ensures forall k :: 0 <= k < |ws| ==> IsWord(ws[k])
    decreases |s|
  {
    if s == [] then []
    else if IsSpace(s[0]) then Words(s[1..])
    else
      var n := RunLength(s);
      [s[..n]] + Words(s[n..])
  }

  /** A text made only of whitespace has no words. */
  lemma {:induction false} BlankHasNoWords(s: string)
    requires forall i :: 0 <= i < |s| ==> IsSpace(s[i])
    ensures Words(s) == []
  {
    if s != [] {
      BlankHasNoWords(s[1..]);
    }
  }

  /** `text.count(w)`: occurrences of `w` found scanning left to right, each
      search resuming after the previous match (non-overlapping). */
  function Occurrences(text: string, w: string): nat
    requires |w| > 0
    decreases |text|
  {
    if |text| < |w| then 0
    else if text[..|w|] == w then 1 + Occurrences(text[|w|..], w)
    else Occurrences(text[1..], w)
  }

  predicate MatchAt(text: string, w: string, i: nat) {
    i + |w| <= |text| && text[i..i + |w|] == w
  }

  /** `w in text` */
  ghost predicate Contains(text: string, w: string) {
    exists i: nat :: MatchAt(text, w, i)
  }

  /** Matches never overlap, so they fit side by side in the text. */
  lemma {:induction false} OccurrencesFit(text: string, w: string)
    requires |w| > 0
    ensures Occurrences(text, w) * |w| <= |text|
    decreases |text|
  {
    if |text| >= |w| {
      if text[..|w|] == w {
        OccurrencesFit(text[|w|..], w);
        var k := Occurrences(text[|w|..], w);
        assert (1 + k) * |w| == |w| + k * |w|;
      } else {
        OccurrencesFit(text[1..], w);
      }
    }
  }

  /** A word is counted at least once exactly when it occurs in the text. */
  lemma {:induction false} OccurrencesPositive(text: string, w: string)
    requires |w| > 0
    ensures Occurrences(text, w) > 0 <==> Contains(text, w)
    decreases |text|
  {
    if |text| >= |w| && text[..|w|] != w {
      OccurrencesPositive(text[1..], w);
      if Contains(text, w) {
        var i: nat :| MatchAt(text, w, i);
        assert i > 0;
        assert text[1..][i - 1..i - 1 + |w|] == w;
        assert MatchAt(text[1..], w, i - 1);
      }
      if Contains(text[1..], w) {
        var i: nat :| MatchAt(text[1..], w, i);
        assert text[i + 1..i + 1 + |w|] == w;
        assert MatchAt(text, w, i + 1);
      }
    } else if |text| >= |w| {
      assert MatchAt(text, w, 0);
    }
  }

  function TotalOccurrences(words: seq<string>, text: string): nat
    requires forall k :: 0 <= k < |words| ==> IsWord(words[k])
  {
    if words == [] then 0
    else
      var w := words[|words| - 1];
      assert IsWord(w);
      TotalOccurrences(words[..|words| - 1], text) + Occurrences(text, w)
  }

  /** `simple_keyword_score(query, text)` */
  function KeywordScore(query: string, text: string): nat {
    TotalOccurrences(Words(Lower(query)), Lower(text))
  }

  /** The loop of `simple_keyword_score`, which adds up each query word's count. */
  method SimpleKeywordScore(query: string, text: string) returns (score: nat)
    ensures score == KeywordScore(query, text)
  {
    var words := Words(Lower(query));
    var textLower := Lower(text);
    score := 0;
    for k := 0 to |words|
      invariant score == TotalOccurrences(words[..k], textLower)
    {
      assert words[..k + 1][..k] == words[..k];
      score := score + Occurrences(textLower, words[k]);
    }
    assert words[..|words|] == words;
  }

  lemma {:induction false} TotalPositive(words: seq<string>, text: string)
    requires forall k :: 0 <= k < |words| ==> IsWord(words[k])
    ensures TotalOccurrences(words, text) > 0 <==> exists k :: 0 <= k < |words| && Contains(text, words[k])
  {
    if words != [] {
      var n := |words| - 1;
      TotalPositive(words[..n], text);
      OccurrencesPositive(text, words[n]);
      if exists k :: 0 <= k < |words| && Contains(text, words[k]) {
        var k :| 0 <= k < |words| && Contains(text, words[k]);
        if k < n {
          assert words[..n][k] == words[k];
        }
      }
    }
  }

  /** A chunk scores above zero exactly when one of the lower-cased query words
      occurs in its lower-cased text. */
  lemma ScorePositiveIffSomeWordOccurs(query: string, text: string)
    ensures KeywordScore(query, text) > 0 <==>
      exists k :: 0 <= k < |Words(Lower(query))| && Contains(Lower(text), Words(Lower(query))[k])
  {
    assert KeywordScore(query, text) == TotalOccurrences(Words(Lower(query)), Lower(text));
    TotalPositive(Words(Lower(query)), Lower(text));
  }

  /** An empty or whitespace-only query scores 0 against every text. */
  lemma BlankQueryScoresZero(query: string, text: string)
    requires forall i :: 0 <= i < |query| ==> IsSpace(query[i])
    ensures KeywordScore(query, text) == 0
  {
    BlankHasNoWords(Lower(query));
  }

  /** Each query word contributes at most `len(text) / len(word)`: the score is
      bounded by the number of words times the text length. */
  lemma {:induction false} ScoreBound(words: seq<string>, text: string)
    requires forall k :: 0 <= k < |words| ==> IsWord(words[k])
    ensures TotalOccurrences(words, text) <= |words| * |text|
  {
    if words != [] {
      var n, t := |words| - 1, |text|;
      ScoreBound(words[..n], text);
      assert Occurrences(text, words[n]) <= t by {
        OccurrencesFit(text, words[n]);
        NoMoreThanProduct(Occurrences(text, words[n]), |words[n]|);
      }
      assert TotalOccurrences(words, text) == TotalOccurrences(words[..n], text) + Occurrences(text, words[n]);
      assert |words| * t == n * t + t by {
        ProductStep(n, t);
      }
    }
  }

  lemma NoMoreThanProduct(c: nat, k: nat)
    requires k >= 1
    ensures c <= c * k
  {
  }

  lemma ProductStep(n: nat, t: nat)
    ensures (n + 1) * t == n * t + t
  {
  }

  // ---------------------------------------------------------------------------
  // Search results

  datatype DocHit = DocHit(filename: string, snippet: string, score: int)

  /** What `search_documents` returns: a list of hits, or the one-element error
      list for an empty store or for no match. */
  datatype SearchReply = Hits(hits: seq<DocHit>) | NoDocumentsIndexed | NoMatches {
    function ErrorMessage(): string
      requires !Hits?
    {
      if NoDocumentsIndexed? then "No documents indexed yet!" else "No matches found for your query"
    }
  }

  /** `(i, score)` for every chunk, in chunk order. */
  function ScoreChunks(query: string, chunks: seq<string>): (s: seq<Scored<int>>)
    ensures |s| == |chunks|
    ensures forall i :: 0 <= i < |s| ==> s[i] == Scored(i, KeywordScore(query, chunks[i]))
  {
    seq(|chunks|, i requires 0 <= i < |chunks| => Scored(i, KeywordScore(query, chunks[i])))
  }

  function IsMatch(e: Scored<int>): bool { e.score > 0 }

  /** The entries kept by `search_documents`: the stable descending sort, cut to
      `top_k`, then those with a positive score. */
  function Survivors(query: string, chunks: seq<string>, topK: int): seq<Scored<int>> {
    Filter(PyTake(SortByScore(ScoreChunks(query, chunks)), topK), IsMatch)
  }

  ghost predicate ItemsBelow(s: seq<Scored<int>>, n: nat) {
    forall i :: 0 <= i < |s| ==> 0 <= s[i].item < n
  }

  lemma SurvivorsInRange(query: string, chunks: seq<string>, topK: int)
    ensures ItemsBelow(PyTake(SortByScore(ScoreChunks(query, chunks)), topK), |chunks|)
    ensures ItemsBelow(Survivors(query, chunks, topK), |chunks|)
    ensures forall i :: 0 <= i < |Survivors(query, chunks, topK)| ==>
      var e := Survivors(query, chunks, topK)[i];
      e.score > 0 && 0 <= e.item < |chunks| && e.score == KeywordScore(query, chunks[e.item])
  {
    var sc := ScoreChunks(query, chunks);
    var sorted := SortByScore(sc);
    var top := PyTake(sorted, topK);
    var s := Survivors(query, chunks, topK);
    FilterMembers(top, IsMatch);
    forall i | 0 <= i < |top| ensures 0 <= top[i].item < |chunks| {
      assert top[i] in sorted;
      assert top[i] in multiset(sorted);
      assert top[i] in sc;
    }
    forall i | 0 <= i < |s|
      ensures s[i].score > 0 && 0 <= s[i].item < |chunks| && s[i].score == KeywordScore(query, chunks[s[i].item])
    {
      assert s[i] in top;
      assert s[i] in sorted;
      assert s[i] in multiset(sorted);
      assert s[i] in sc;
    }
  }

  function ToHit(e: Scored<int>, chunks: seq<string>, filenames: seq<string>): DocHit
    requires 0 <= e.item < |chunks| <= |filenames|
  {
    DocHit(filenames[e.item], PyTake(chunks[e.item], SNIPPET_LENGTH as int) + "...", e.score)
  }

  function HitsFor(s: seq<Scored<int>>, chunks: seq<string>, filenames: seq<string>): (h: seq<DocHit>)
    requires ItemsBelow(s, |chunks|) && |chunks| <= |filenames|
    ensures |h| == |s|
  {
    seq(|s|, i requires 0 <= i < |s| => ToHit(s[i], chunks, filenames))
  }

  lemma HitsForSnoc(s: seq<Scored<int>>, e: Scored<int>, chunks: seq<string>, filenames: seq<string>)
    requires ItemsBelow(s, |chunks|) && 0 <= e.item < |chunks| <= |filenames|
    ensures ItemsBelow(s + [e], |chunks|)
    ensures HitsFor(s + [e], chunks, filenames) == HitsFor(s, chunks, filenames) + [ToHit(e, chunks, filenames)]
  {
  }

  /** The scoring loop of `search_documents`. */
  method ScoreAllChunks(query: string, chunks: seq<string>) returns (scores: seq<Scored<int>>)
    ensures scores == ScoreChunks(query, chunks)
  {
    scores := [];
    for i := 0 to |chunks|
      invariant scores == ScoreChunks(query, chunks[..i])
    {
      var score := SimpleKeywordScore(query, chunks[i]);
      scores := scores + [Scored(i, score)];
    }
    assert chunks[..|chunks|] == chunks;
  }

  /** The result loop of `search_documents`: one hit per entry with a positive
      score, in ranking order. */
  method CollectHits(top: seq<Scored<int>>, chunks: seq<string>, filenames: seq<string>)
    returns (results: seq<DocHit>)
    requires ItemsBelow(top, |chunks|) && |chunks| <= |filenames|
    ensures ItemsBelow(Filter(top, IsMatch), |chunks|)
    ensures results == HitsFor(Filter(top, IsMatch), chunks, filenames)
  {
    results := [];
    ghost var kept: seq<Scored<int>> := [];
    for j := 0 to |top|
      invariant kept == Filter(top[..j], IsMatch)
      invariant ItemsBelow(kept, |chunks|)
      invariant results == HitsFor(kept, chunks, filenames)
    {
      assert top[..j + 1] == top[..j] + [top[j]];
      FilterSnoc(top[..j], top[j], IsMatch);
      if top[j].score > 0 {
        HitsForSnoc(kept, top[j], chunks, filenames);
        results := results + [ToHit(top[j], chunks, filenames)];
        kept := kept + [top[j]];
      }
    }
    assert top[..|top|] == top;
  }

  /** The reply of `search_documents(query, top_k)` on a store holding these lists. */
  function Answer(query: string, topK: int, chunks: seq<string>, filenames: seq<string>): SearchReply
    requires |chunks| == |filenames|
  {
    if chunks == [] then NoDocumentsIndexed
    else
      SurvivorsInRange(query, chunks, topK);
      var hits := HitsFor(Survivors(query, chunks, topK), chunks, filenames);
      if hits == [] then NoMatches else Hits(hits)
  }

  lemma ScoreThenItemSubsequence(a: seq<Scored<int>>, b: seq<Scored<int>>)
    requires SubsequenceOf(a, b)
    requires ScoreThenItem(b)
    ensures ScoreThenItem(a)
  {
    var idx :| Embeds(a, b, idx);
    forall i, j | 0 <= i < j < |a|
      ensures a[i].score > a[j].score || (a[i].score == a[j].score && a[i].item < a[j].item)
    {
      assert a[i] == b[idx[i]] && a[j] == b[idx[j]] && idx[i] < idx[j];
    }
  }

  /** Ranking: every survivor has a positive score, scores never increase down
      the list, equal scores keep chunk order, and a non-negative `top_k` bounds
      the number of results. */
  lemma SurvivorsRanked(query: string, chunks: seq<string>, topK: int)
    ensures var s := Survivors(query, chunks, topK);
      && ScoreThenItem(s)
      && (forall i :: 0 <= i < |s| ==> s[i].score > 0)
      && (0 <= topK ==> |s| <= topK)
  {
    var sc := ScoreChunks(query, chunks);
    var top := PyTake(SortByScore(sc), topK);
    SortScoreThenItem(sc);
    assert ScoreThenItem(top);
    FilterIsSubsequence(top, IsMatch);
    FilterMembers(top, IsMatch);
    ScoreThenItemSubsequence(Filter(top, IsMatch), top);
  }

  /** Completeness of the cut: a chunk that matches the query but is not among
      the survivors was ranked below `top_k` survivors that all score at least
      as much. */
  lemma MatchingChunkOmittedOnlyWhenFull(query: string, chunks: seq<string>, topK: nat, i: nat)
    requires i < |chunks|
    requires KeywordScore(query, chunks[i]) > 0
    requires Scored(i, KeywordScore(query, chunks[i])) !in Survivors(query, chunks, topK)
    ensures |Survivors(query, chunks, topK)| == topK
    ensures forall j :: 0 <= j < topK ==> Survivors(query, chunks, topK)[j].score >= KeywordScore(query, chunks[i])
  {
    var sc := ScoreChunks(query, chunks);
    var e := sc[i];
    var top := PyTake(SortByScore(sc), topK);
    assert IsMatch(e);
    FilterMembers(top, IsMatch);
    assert e !in top;
    OmittedRanksLower(sc, topK, e);
    forall j | 0 <= j < |top| ensures IsMatch(top[j]) {
    }
    FilterKeepsAll(top, IsMatch);
  }

  /** Each hit is its survivor's chunk file name, the chunk's first 200
      characters followed by "...", and its score. */
  lemma AnswerHits(query: string, topK: int, chunks: seq<string>, filenames: seq<string>)
    requires |chunks| == |filenames|
    ensures var a, s := Answer(query, topK, chunks, filenames), Survivors(query, chunks, topK);
      && (a == NoDocumentsIndexed <==> chunks == [])
      && (a == NoMatches <==> chunks != [] && s == [])
      && (a.Hits? ==> |a.hits| == |s| > 0)
      && (a.Hits? ==> forall i :: 0 <= i < |s| ==>
            && 0 <= s[i].item < |chunks|
            && a.hits[i].filename == filenames[s[i].item]
            && a.hits[i].snippet == PyTake(chunks[s[i].item], 200) + "..."
            && a.hits[i].score == s[i].score > 0)
  {
    SurvivorsInRange(query, chunks, topK);
  }

  // ---------------------------------------------------------------------------
  // The store

  /** The JSON file `document_index.json`. */
  datatype Snapshot = Snapshot(chunks: seq<string>, filenames: seq<string>)

  /** Replies of `add_document_to_store`. */
  datatype AddReply = AlreadyIndexed(path: string) | Added(path: string, count: nat) | NoContent(path: string) {
    function Message(): string {
      match this
      case AlreadyIndexed(p) => p + " is already indexed."
      case Added(p, n) => p + " added (" + NatToString(n) + " chunks)"
      case NoContent(p) => p + " has no extractable content"
    }
  }

  /** The module globals `document_chunks` and `document_filenames`, and the
      index file on disk. */
  class DocumentStore {
    var chunks: seq<string>
    var filenames: seq<string>
    var indexFile: File<Snapshot>

    /** The two lists are parallel: `filenames[i]` is the document of `chunks[i]`. */
    ghost predicate Valid()
      reads this
    {
      && |chunks| == |filenames|
      && (indexFile.Holds? ==> |indexFile.content.chunks| == |indexFile.content.filenames|)
    }

    /** Module import: empty lists; the index file is whatever an earlier run saved. */
    constructor(disk: File<Snapshot>)
      requires disk.Holds? ==> |disk.content.chunks| == |disk.content.filenames|
      ensures Valid()
      ensures chunks == [] && filenames == [] && indexFile == disk
    {
      chunks, filenames, indexFile := [], [], disk;
    }

    /** `save_index`: writes only when there is at least one chunk. */
    method SaveIndex()
      requires Valid()
      modifies this`indexFile
      ensures Valid()
      ensures indexFile == if chunks == [] then old(indexFile) else Holds(Snapshot(chunks, filenames))
    {
      if chunks != [] {
        indexFile := Holds(Snapshot(chunks, filenames));
      }
    }

    /** `load_existing_index`: replaces both lists when the file exists and parses. */
    method LoadExistingIndex() returns (loaded: bool)
      requires Valid()
      modifies this`chunks, this`filenames
      ensures Valid()
      ensures loaded == indexFile.Holds?
      ensures loaded ==> chunks == indexFile.content.chunks && filenames == indexFile.content.filenames
      ensures !loaded ==> chunks == old(chunks) && filenames == old(filenames)
    {
      if indexFile.Exists() {
        match indexFile
        case Holds(snapshot) =>
          chunks, filenames := snapshot.chunks, snapshot.filenames;
          return true;
        case Unreadable =>
          return false;
      }
      return false;
    }

    /** `add_document_to_store(path)`, where `text` is what `process_document`
        extracted from the file. A path already present is refused; otherwise its
        chunks are appended with one copy of the path per chunk and the store is
        saved. */
    method AddDocumentToStore(path: string, text: string) returns (reply: AddReply)
      requires Valid()
      modifies this
      ensures Valid()
      ensures old(path in filenames) ==>
        reply == AlreadyIndexed(path) && unchanged(this)
      ensures !old(path in filenames) && text == [] ==>
        reply == NoContent(path) && unchanged(this)
      ensures !old(path in filenames) && text != [] ==>
        var added := Chunks(text, CHUNK_SIZE, CHUNK_OVERLAP);
        && reply == Added(path, |added|) && |added| > 0
        && chunks == old(chunks) + added
        && filenames == old(filenames) + seq(|added|, _ => path)
        && path in filenames
        && indexFile == Holds(Snapshot(chunks, filenames))
    {
      if path in filenames {
        return AlreadyIndexed(path);
      }
      if text == [] {
        return NoContent(path);
      }
      var added := ChunkText(text, CHUNK_SIZE, CHUNK_OVERLAP);
      // Non-empty text always yields a chunk, so the source's "no extractable
      // content" check on an empty chunk list is never taken here.
      ChunkLayout(text, CHUNK_SIZE, CHUNK_OVERLAP);
      chunks := chunks + added;
      filenames := filenames + seq(|added|, _ => path);
      assert filenames[|filenames| - 1] == path;
      SaveIndex();
      reply := Added(path, |added|);
    }

    /** `search_documents(query, top_k)`: loads the file when the store is empty,
        scores every chunk, sorts, cuts to `top_k` and keeps positive scores. */
    method SearchDocuments(query: string, topK: int) returns (reply: SearchReply)
      requires Valid()
      modifies this`chunks, this`filenames
      ensures Valid()
      ensures old(chunks) != [] ==> chunks == old(chunks) && filenames == old(filenames)
      ensures old(chunks) == [] && indexFile.Holds? ==>
        chunks == indexFile.content.chunks && filenames == indexFile.content.filenames
      ensures old(chunks) == [] && !indexFile.Holds? ==>
        chunks == old(chunks) && filenames == old(filenames)
      ensures reply == Answer(query, topK, chunks, filenames)
    {
      if chunks == [] {
        var _ := LoadExistingIndex();
      }
      if chunks == [] {
        return NoDocumentsIndexed;
      }
      var scores := ScoreAllChunks(query, chunks);
      scores := SortByScore(scores);
      var top := PyTake(scores, topK);
      SurvivorsInRange(query, chunks, topK);
      var results := CollectHits(top, chunks, filenames);
      if results == [] {
        return NoMatches;
      }
      return Hits(results);
    }
  }
}
