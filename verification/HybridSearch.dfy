/**
  Hybrid retrieval: dense and sparse scores fused by weight, ranked, cut, re-scored by word overlap and
  sorted again.
*/
module HybridSearch {
  import Corpus
  import Scoring
  import opened StableSort
  import opened Vectors
  import opened Wrappers

  datatype Request =
    Request(text: string, topK: nat, denseWeight: real, sparseWeight: real, useReranker: bool)

  datatype Chunk = Chunk(chunkId: string, text: string, source: string, denseScore: real, sparseScore: real,
                         rerankScore: Option<real>, finalScore: real)

  type Scored = map<string, real>

  function GetOrZero(m: Scored, id: string): real { if id in m then m[id] else 0.0 }

  function Fused(r: Request, dense: Scored, sparse: Scored): string -> real {
    id => r.denseWeight * GetOrZero(dense, id) + r.sparseWeight * GetOrZero(sparse, id)
  }

  function Min(a: nat, b: nat): nat { if a < b then a else b }

  function Take<T>(xs: seq<T>, n: nat): seq<T> { xs[..Min(n, |xs|)] }

  /** Three times as many candidates are fetched as are asked for. */
  function Pool(topK: nat): nat { if topK * 3 > topK then topK * 3 else topK }

  /** The documents of a list of ids; an unknown id is dropped. */
  function Candidates(docs: seq<Document>, ids: seq<string>): seq<Document> {
    if ids == [] then []
    else
      Candidates(docs, ids[..|ids| - 1]) +
      match GetDocument(docs, ids[|ids| - 1])
      case Some(d) => [d]
      case None => []
  }

  function Words(text: string): set<string> { set t | t in Corpus.Tokenize(text) }

  /** The share of the query's words that a passage contains. */
  function Overlap(query: string, passage: string): real {
    var q := Words(query);
    |q * Words(passage)| as real / (if |q| > 1 then |q| else 1) as real
  }

  lemma Quotient(x: real, d: real)
    requires d > 0.0
    ensures x / d * d == x
    ensures (x / d <= 1.0 <==> x <= d) && (x / d == 1.0 <==> x == d)
    ensures (0.0 <= x / d <==> 0.0 <= x) && (x / d == 0.0 <==> x == 0.0)
  {
    var q := x / d;
    assert q * d == x;
    Scoring.MulOrder(q, 1.0, d);
    Scoring.MulOrder(1.0, q, d);
    Scoring.MulOrder(q, 0.0, d);
    Scoring.MulOrder(0.0, q, d);
  }

  lemma ShareRange(part: nat, whole: nat)
    requires part <= whole
    ensures var share := part as real / (if whole > 1 then whole else 1) as real;
      && 0.0 <= share <= 1.0
      && (share == 1.0 <==> 0 < part == whole)
      && (share == 0.0 <==> part == 0)
  {
    var n := if whole > 1 then whole else 1;
    Quotient(part as real, n as real);
    assert part as real == n as real <==> part == n;
  }

  /** The overlap counts the query's different words that the passage has, per different word of the query. */
  lemma OverlapCounts(query: string, passage: string)
    ensures var q, p := Corpus.Tokenize(query), Corpus.Tokenize(passage);
      var shared, all := |set t | t in q && t in p|, |set t | t in q|;
      Overlap(query, passage) * (if all > 1 then all else 1) as real == shared as real
  {
    hide Corpus.Tokenize;
    var q, p := Corpus.Tokenize(query), Corpus.Tokenize(passage);
    assert Words(query) * Words(passage) == set t | t in q && t in p;
    assert Words(query) == set t | t in q;
    var n := if |Words(query)| > 1 then |Words(query)| else 1;
    Quotient(|Words(query) * Words(passage)| as real, n as real);
  }

  /** All of the query's words give one, none of them gives zero. */
  lemma OverlapRange(query: string, passage: string)
    ensures 0.0 <= Overlap(query, passage) <= 1.0
    ensures Overlap(query, passage) == 1.0 <==> Words(query) != {} && Words(query) <= Words(passage)
    ensures Overlap(query, passage) == 0.0 <==> Words(query) * Words(passage) == {}
  {
    hide Words;
    var q, both := Words(query), Words(query) * Words(passage);
    SubsetSize(both, q);
    ShareRange(|both|, |q|);
    assert both == q <==> q <= Words(passage);
  }

  lemma SubsetSize(a: set<string>, b: set<string>)
    requires a <= b
    ensures |a| <= |b| && (|a| == |b| ==> a == b)
  {
    assert |b| == |b - a| + |a| by {
      assert b == (b - a) + a;
    }
  }

  function RerankScores(r: Request, candidates: seq<Document>): Scored {
    if !r.useReranker || candidates == [] then map[]
    else
      var d := candidates[|candidates| - 1];
      RerankScores(r, candidates[..|candidates| - 1])[d.chunkId := Overlap(r.text, d.text)]
  }

  function MakeChunk(r: Request, dense: Scored, sparse: Scored, rerank: Scored, d: Document): Chunk {
    var score := if d.chunkId in rerank then Some(rerank[d.chunkId]) else None;
    Chunk(d.chunkId, d.text, d.source, GetOrZero(dense, d.chunkId), GetOrZero(sparse, d.chunkId), score,
          if score.Some? then score.value else Fused(r, dense, sparse)(d.chunkId))
  }

  function MakeChunks(r: Request, dense: Scored, sparse: Scored, rerank: Scored, docs: seq<Document>): seq<Chunk> {
    seq(|docs|, i requires 0 <= i < |docs| => MakeChunk(r, dense, sparse, rerank, docs[i]))
  }

  function FinalScore(c: Chunk): real { c.finalScore }

  /** The answer, given the order in which the set of known ids is enumerated and the number of candidates. */
  function Answer(r: Request, docs: seq<Document>, dense: Scored, sparse: Scored, order: seq<string>, pool: nat)
    : seq<Chunk>
  {
    var candidates := Candidates(docs, Take(SortDescending(order, Fused(r, dense, sparse)), pool));
    var chunks := MakeChunks(r, dense, sparse, RerankScores(r, candidates), Take(candidates, r.topK));
    SortDescending(chunks, FinalScore)
  }

  // ---------------------------------------------------------------- what an answer is

  predicate Known(docs: seq<Document>, id: string) {
    exists i :: 0 <= i < |docs| && docs[i].chunkId == id
  }

  ghost predicate Enumerates(docs: seq<Document>, order: seq<string>) {
    Distinct(order) && forall id :: id in order <==> Known(docs, id)
  }

  function FirstDocument(docs: seq<Document>, id: string): (d: Document)
    requires Known(docs, id)
    ensures d.chunkId == id && GetDocument(docs, id) == Some(d)
  {
    GetDocument(docs, id).value
  }

  /** The chunk of one document: re-scored by overlap if asked for, else scored by fusion. */
  function ChunkOf(r: Request, dense: Scored, sparse: Scored, d: Document): Chunk {
    var score := if r.useReranker then Some(Overlap(r.text, d.text)) else None;
    Chunk(d.chunkId, d.text, d.source, GetOrZero(dense, d.chunkId), GetOrZero(sparse, d.chunkId), score,
          if score.Some? then score.value else Fused(r, dense, sparse)(d.chunkId))
  }

  /** Before the last sort: the chunks of the best fused ids, at most top_k of them. */
  function TopChunks(r: Request, docs: seq<Document>, dense: Scored, sparse: Scored, ranked: seq<string>): seq<Chunk>
    requires forall id :: id in ranked ==> Known(docs, id)
  {
    var top := Take(ranked, r.topK);
    seq(|top|, i requires 0 <= i < |top| => ChunkOf(r, dense, sparse, FirstDocument(docs, top[i])))
  }

  lemma {:induction false} CandidatesOfKnown(docs: seq<Document>, ids: seq<string>)
    requires forall id :: id in ids ==> Known(docs, id)
    ensures |Candidates(docs, ids)| == |ids|
    ensures forall i :: 0 <= i < |ids| ==> Candidates(docs, ids)[i] == FirstDocument(docs, ids[i])
  {
    if ids != [] {
      var n := |ids| - 1;
      CandidatesOfKnown(docs, ids[..n]);
      assert ids[n] in ids;
      assert Candidates(docs, ids) == Candidates(docs, ids[..n]) + [FirstDocument(docs, ids[n])];
    }
  }

  lemma {:induction false} RerankScoreAt(r: Request, candidates: seq<Document>, i: nat)
    requires r.useReranker && i < |candidates|
    requires forall j, k :: 0 <= j < k < |candidates| ==> candidates[j].chunkId != candidates[k].chunkId
    ensures var scores, d := RerankScores(r, candidates), candidates[i];
      d.chunkId in scores && scores[d.chunkId] == Overlap(r.text, d.text)
  {
    var n := |candidates| - 1;
    if i < n {
      RerankScoreAt(r, candidates[..n], i);
    }
  }

  lemma RankedIds(docs: seq<Document>, order: seq<string>, fused: string -> real)
    requires Enumerates(docs, order)
    ensures var ranked := SortDescending(order, fused);
      && |ranked| == |order| && Enumerates(docs, ranked) && IsStableSort(order, fused, ranked)
  {
    var ranked := SortDescending(order, fused);
    SortCorrect(order, fused);
    SortDistinct(order, fused);
    SameElements(ranked, order);
  }

  /** The answer does not depend on how many candidates beyond top_k are fetched and re-scored. */
  lemma AnswerIsTopChunks(r: Request, docs: seq<Document>, dense: Scored, sparse: Scored, order: seq<string>, pool: nat)
    requires Enumerates(docs, order) && r.topK <= pool
    ensures var ranked := SortDescending(order, Fused(r, dense, sparse));
      && (forall id :: id in ranked ==> Known(docs, id))
      && Answer(r, docs, dense, sparse, order, pool) ==
           SortDescending(TopChunks(r, docs, dense, sparse, ranked), FinalScore)
  {
    hide Fused, Overlap, GetDocument;
    var ranked := SortDescending(order, Fused(r, dense, sparse));
    RankedIds(docs, order, Fused(r, dense, sparse));
    var ids := Take(ranked, pool);
    CandidatesOfKnown(docs, ids);
    var candidates := Candidates(docs, ids);
    var rerank := RerankScores(r, candidates);
    var chunks := MakeChunks(r, dense, sparse, rerank, Take(candidates, r.topK));
    var expected := TopChunks(r, docs, dense, sparse, ranked);
    forall i | 0 <= i < |expected| ensures chunks[i] == expected[i] {
      if r.useReranker {
        RerankScoreAt(r, candidates, i);
      }
      assert candidates[i] == FirstDocument(docs, ranked[i]);
    }
    assert chunks == expected;
  }

  /**
    What a caller gets: as many different chunks as asked for and known, none of the others fused higher,
    sorted by final score and among equal final scores by fused rank.
  */
  ghost predicate Characterised(r: Request, order: seq<string>, fused: string -> real, chunks: seq<Chunk>) {
    var ranked := SortDescending(order, fused);
    && |chunks| == Min(r.topK, |order|)
    && (forall i, j :: 0 <= i < j < |chunks| ==> chunks[i].chunkId != chunks[j].chunkId)
    && (forall i :: 0 <= i < |chunks| ==> chunks[i].chunkId in order)
    && (forall i, id :: 0 <= i < |chunks| && id in order && (forall j :: 0 <= j < |chunks| ==> chunks[j].chunkId != id)
          ==> fused(id) <= fused(chunks[i].chunkId))
    && (forall i, j :: 0 <= i < j < |chunks| ==>
          || chunks[i].finalScore > chunks[j].finalScore
          || (chunks[i].finalScore == chunks[j].finalScore && Before(ranked, chunks[i].chunkId, chunks[j].chunkId)))
  }

  lemma TopChunksDistinct(r: Request, docs: seq<Document>, dense: Scored, sparse: Scored, ranked: seq<string>)
    requires Enumerates(docs, ranked)
    ensures var top := TopChunks(r, docs, dense, sparse, ranked);
      && |top| == Min(r.topK, |ranked|)
      && (forall i :: 0 <= i < |top| ==> top[i].chunkId == ranked[i])
      && Distinct(top)
  {
  }

  lemma TopBefore(ranked: seq<string>, top: seq<Chunk>, a: Chunk, b: Chunk)
    requires |top| <= |ranked| && forall i :: 0 <= i < |top| ==> top[i].chunkId == ranked[i]
    requires Before(top, a, b)
    ensures Before(ranked, a.chunkId, b.chunkId)
  {
    var i, j :| 0 <= i < j < |top| && top[i] == a && top[j] == b;
    assert ranked[i] == a.chunkId && ranked[j] == b.chunkId;
  }

  lemma OmittedRankLower(order: seq<string>, fused: string -> real, ranked: seq<string>, i: nat, j: nat)
    requires IsStableSort(order, fused, ranked) && i < j < |ranked|
    ensures fused(ranked[j]) <= fused(ranked[i])
  {
    assert Above(order, fused, ranked[i], ranked[j]);
  }

  /** The characterisation, for every request, every corpus and every order of enumeration. */
  lemma AnswerCharacterised(r: Request, docs: seq<Document>, dense: Scored, sparse: Scored, order: seq<string>)
    requires Enumerates(docs, order)
    ensures Characterised(r, order, Fused(r, dense, sparse), Answer(r, docs, dense, sparse, order, Pool(r.topK)))
  {
    var fused := Fused(r, dense, sparse);
    var ranked := SortDescending(order, fused);
    RankedIds(docs, order, fused);
    AnswerIsTopChunks(r, docs, dense, sparse, order, Pool(r.topK));
    var top := TopChunks(r, docs, dense, sparse, ranked);
    TopChunksDistinct(r, docs, dense, sparse, ranked);
    var chunks := SortDescending(top, FinalScore);
    SortedTop(docs, order, fused, ranked, r, top);
  }

  /**
    A chunk tells of the first document stored under its id, and of its scores: with the reranker the final one
    is the share of the query's words in the text, without it the weighted sum.
  */
  ghost predicate TellsOf(r: Request, docs: seq<Document>, dense: Scored, sparse: Scored, c: Chunk) {
    && (exists i :: 0 <= i < |docs| && docs[i].chunkId == c.chunkId && docs[i].text == c.text
                    && docs[i].source == c.source && forall j :: 0 <= j < i ==> docs[j].chunkId != c.chunkId)
    && c.denseScore == (if c.chunkId in dense then dense[c.chunkId] else 0.0)
    && c.sparseScore == (if c.chunkId in sparse then sparse[c.chunkId] else 0.0)
    && (if r.useReranker
        then c.rerankScore == Some(Overlap(r.text, c.text)) && c.finalScore == Overlap(r.text, c.text)
        else c.rerankScore == None && c.finalScore == r.denseWeight * c.denseScore + r.sparseWeight * c.sparseScore)
  }

  lemma ChunkTells(r: Request, docs: seq<Document>, dense: Scored, sparse: Scored, id: string)
    requires Known(docs, id)
    ensures TellsOf(r, docs, dense, sparse, ChunkOf(r, dense, sparse, FirstDocument(docs, id)))
  {
    hide Overlap;
  }

  /** Every chunk of an answer tells of its document and its scores. */
  lemma AnswerTells(r: Request, docs: seq<Document>, dense: Scored, sparse: Scored, order: seq<string>)
    requires Enumerates(docs, order)
    ensures forall c :: c in Answer(r, docs, dense, sparse, order, Pool(r.topK)) ==> TellsOf(r, docs, dense, sparse, c)
  {
    hide TellsOf, ChunkOf, Answer, Fused, Pool, IsStableSort, SortDescending;
    var ranked := SortDescending(order, Fused(r, dense, sparse));
    RankedIds(docs, order, Fused(r, dense, sparse));
    PoolCovers(r.topK);
    AnswerIsTopChunks(r, docs, dense, sparse, order, Pool(r.topK));
    var top := TopChunks(r, docs, dense, sparse, ranked);
    forall i | 0 <= i < |top| ensures TellsOf(r, docs, dense, sparse, top[i]) {
      ChunkTells(r, docs, dense, sparse, ranked[i]);
    }
    SortedSame(top);
  }

  lemma SortedSame(top: seq<Chunk>)
    ensures forall c :: c in SortDescending(top, FinalScore) ==> c in top
  {
    SortCorrect(top, FinalScore);
    SameElements(SortDescending(top, FinalScore), top);
  }

  lemma PlaceOf(top: seq<Chunk>, chunks: seq<Chunk>, ranked: seq<string>, i: nat) returns (k: nat)
    requires multiset(chunks) == multiset(top) && i < |chunks| && |top| <= |ranked|
    requires forall j :: 0 <= j < |top| ==> top[j].chunkId == ranked[j]
    ensures k < |top| && top[k] == chunks[i] && chunks[i].chunkId == ranked[k]
  {
    SameElements(chunks, top);
    assert chunks[i] in top;
    k :| 0 <= k < |top| && top[k] == chunks[i];
  }

  lemma SortedTop(
    docs: seq<Document>, order: seq<string>, fused: string -> real, ranked: seq<string>, r: Request, top: seq<Chunk>)
    requires Enumerates(docs, order) && Enumerates(docs, ranked) && |ranked| == |order|
    requires ranked == SortDescending(order, fused) && IsStableSort(order, fused, ranked)
    requires |top| == Min(r.topK, |ranked|) && Distinct(top)
    requires forall i :: 0 <= i < |top| ==> top[i].chunkId == ranked[i]
    ensures Characterised(r, order, fused, SortDescending(top, FinalScore))
  {
    var chunks := SortDescending(top, FinalScore);
    SortCorrect(top, FinalScore);
    SortDistinct(top, FinalScore);
    SameElements(chunks, top);
    forall i, j | 0 <= i < j < |chunks|
      ensures chunks[i].chunkId != chunks[j].chunkId
      ensures chunks[i].finalScore > chunks[j].finalScore
           || (chunks[i].finalScore == chunks[j].finalScore && Before(ranked, chunks[i].chunkId, chunks[j].chunkId))
    {
      var k := PlaceOf(top, chunks, ranked, i);
      var l := PlaceOf(top, chunks, ranked, j);
      assert Above(top, FinalScore, chunks[i], chunks[j]);
      if Before(top, chunks[i], chunks[j]) {
        TopBefore(ranked, top, chunks[i], chunks[j]);
      }
    }
    forall i | 0 <= i < |chunks| ensures chunks[i].chunkId in order {
      var k := PlaceOf(top, chunks, ranked, i);
      assert ranked[k] in ranked;
    }
    forall i, id | 0 <= i < |chunks| && id in order && (forall j :: 0 <= j < |chunks| ==> chunks[j].chunkId != id)
      ensures fused(id) <= fused(chunks[i].chunkId)
    {
      var k := PlaceOf(top, chunks, ranked, i);
      var l := Omitted(ranked, top, chunks, id);
      OmittedRankLower(order, fused, ranked, k, l);
    }
  }

  lemma Omitted(ranked: seq<string>, top: seq<Chunk>, chunks: seq<Chunk>, id: string) returns (l: nat)
    requires multiset(chunks) == multiset(top) && |top| <= |ranked| && id in ranked
    requires forall i :: 0 <= i < |top| ==> top[i].chunkId == ranked[i]
    requires forall j :: 0 <= j < |chunks| ==> chunks[j].chunkId != id
    ensures |top| <= l < |ranked| && ranked[l] == id
  {
    SameElements(chunks, top);
    forall i | 0 <= i < |top| ensures ranked[i] != id {
      assert top[i] in chunks;
    }
    l :| 0 <= l < |ranked| && ranked[l] == id;
  }

  lemma WeighedAlone(v: real, w: real, a: real, b: real, c: real, d: real)
    requires v * a + w * b <= v * c + w * d
    ensures 0.0 < v && w == 0.0 ==> a <= c
    ensures 0.0 < w && v == 0.0 ==> b <= d
  {
    if 0.0 < v {
      Scoring.MulOrder(c, a, v);
    }
    if 0.0 < w {
      Scoring.MulOrder(d, b, w);
    }
  }

  lemma OmittedLower(r: Request, order: seq<string>, fused: string -> real, chunks: seq<Chunk>, i: nat, id: string)
    requires Characterised(r, order, fused, chunks)
    requires i < |chunks| && id in order && forall j :: 0 <= j < |chunks| ==> chunks[j].chunkId != id
    ensures fused(id) <= fused(chunks[i].chunkId)
  {
    hide SortDescending;
  }

  /** With one weight at zero the choice of chunks is the other index's alone. */
  lemma OneIndexAlone(r: Request, dense: Scored, sparse: Scored, order: seq<string>,
                      chunks: seq<Chunk>, i: nat, id: string)
    requires Characterised(r, order, Fused(r, dense, sparse), chunks)
    requires i < |chunks| && id in order && forall j :: 0 <= j < |chunks| ==> chunks[j].chunkId != id
    ensures 0.0 < r.denseWeight && r.sparseWeight == 0.0 ==>
              GetOrZero(dense, id) <= GetOrZero(dense, chunks[i].chunkId)
    ensures 0.0 < r.sparseWeight && r.denseWeight == 0.0 ==>
              GetOrZero(sparse, id) <= GetOrZero(sparse, chunks[i].chunkId)
  {
    hide GetOrZero, Characterised;
    var c := chunks[i].chunkId;
    OmittedLower(r, order, Fused(r, dense, sparse), chunks, i, id);
    WeighedAlone(r.denseWeight, r.sparseWeight,
                 GetOrZero(dense, id), GetOrZero(sparse, id), GetOrZero(dense, c), GetOrZero(sparse, c));
  }

  function Ids(chunks: seq<Chunk>): (ids: seq<string>)
    ensures |ids| == |chunks| && forall i :: 0 <= i < |chunks| ==> ids[i] == chunks[i].chunkId
  {
    seq(|chunks|, i requires 0 <= i < |chunks| => chunks[i].chunkId)
  }

  /**
    The reranker only reorders: it never brings in a chunk that fusion left out, because the list is cut to
    top_k before the re-scored chunks are sorted.  Without it the answer is the fused ranking itself.
  */
  lemma RerankerOnlyPermutes(r: Request, docs: seq<Document>, dense: Scored, sparse: Scored, order: seq<string>)
    requires Enumerates(docs, order)
    ensures var pool := Pool(r.topK);
      var on := Answer(r.(useReranker := true), docs, dense, sparse, order, pool);
      var off := Answer(r.(useReranker := false), docs, dense, sparse, order, pool);
      && |on| == |off|
      && (forall id :: id in Ids(on) <==> id in Ids(off))
      && Ids(off) == Take(SortDescending(order, Fused(r, dense, sparse)), r.topK)
  {
    hide Answer, TopChunks, SortDescending, Fused, IsStableSort, Pool;
    var on, off := r.(useReranker := true), r.(useReranker := false);
    var fused := Fused(r, dense, sparse);
    SameFused(r, on, dense, sparse);
    SameFused(r, off, dense, sparse);
    var ranked := SortDescending(order, fused);
    RankedIds(docs, order, fused);
    PoolCovers(r.topK);
    AnswerIsTopChunks(on, docs, dense, sparse, order, Pool(r.topK));
    AnswerIsTopChunks(off, docs, dense, sparse, order, Pool(r.topK));
    TopChunksDistinct(on, docs, dense, sparse, ranked);
    TopChunksDistinct(off, docs, dense, sparse, ranked);
    var topOn, topOff := TopChunks(on, docs, dense, sparse, ranked), TopChunks(off, docs, dense, sparse, ranked);
    SortedSameIds(topOn);
    UnrerankedScores(off, docs, dense, sparse, ranked);
    AlreadySorted(order, fused, ranked, topOff);
    assert Ids(topOn) == Ids(topOff) == Take(ranked, r.topK);
  }

  lemma PoolCovers(topK: nat)
    ensures topK <= Pool(topK) == 3 * topK
  {
  }

  /** Without the reranker a chunk's final score is its fused one. */
  lemma UnrerankedScores(r: Request, docs: seq<Document>, dense: Scored, sparse: Scored, ranked: seq<string>)
    requires Enumerates(docs, ranked) && !r.useReranker
    ensures var top := TopChunks(r, docs, dense, sparse, ranked);
      forall i :: 0 <= i < |top| ==> top[i].finalScore == Fused(r, dense, sparse)(ranked[i])
  {
  }

  lemma SortedSameIds(top: seq<Chunk>)
    ensures |SortDescending(top, FinalScore)| == |top|
    ensures forall id :: id in Ids(SortDescending(top, FinalScore)) <==> id in Ids(top)
  {
    SortCorrect(top, FinalScore);
    SameIds(SortDescending(top, FinalScore), top);
    SameIds(top, SortDescending(top, FinalScore));
  }

  lemma SameFused(r: Request, s: Request, dense: Scored, sparse: Scored)
    requires r.denseWeight == s.denseWeight && r.sparseWeight == s.sparseWeight
    ensures Fused(r, dense, sparse) == Fused(s, dense, sparse)
  {
  }

  lemma SameIds(xs: seq<Chunk>, ys: seq<Chunk>)
    requires multiset(xs) == multiset(ys)
    ensures |xs| == |ys| && forall id :: id in Ids(xs) ==> id in Ids(ys)
  {
    SameElements(xs, ys);
    forall id | id in Ids(xs) ensures id in Ids(ys) {
      var i :| 0 <= i < |xs| && Ids(xs)[i] == id;
      assert xs[i] in ys;
      var j :| 0 <= j < |ys| && ys[j] == xs[i];
      assert Ids(ys)[j] == id;
    }
  }

  lemma AlreadySorted(order: seq<string>, fused: string -> real, ranked: seq<string>, top: seq<Chunk>)
    requires IsStableSort(order, fused, ranked) && Distinct(top) && |top| <= |ranked|
    requires forall i :: 0 <= i < |top| ==> top[i].chunkId == ranked[i] && top[i].finalScore == fused(ranked[i])
    ensures SortDescending(top, FinalScore) == top
  {
    forall i, j | 0 <= i < j < |top| ensures Above(top, FinalScore, top[i], top[j]) {
      assert Above(order, fused, ranked[i], ranked[j]);
      assert Before(top, top[i], top[j]);
    }
    SortUnique(top, FinalScore, top);
  }
}
