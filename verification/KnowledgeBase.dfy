/** The knowledge base object: two indexes filled side by side and queried together. */
module KnowledgeBase {
  import opened Bm25
  import Bm25Facts
  import Corpus
  import opened HybridSearch
  import opened StableSort
  import opened Vectors
  import opened Wrappers

  class DenseVectorIndex {
    var documents: seq<Document>

    constructor ()
      ensures documents == []
    {
      documents := [];
    }

    method Add(d: Document)
      modifies this
      ensures documents == old(documents) + [d]
    {
      documents := documents + [d];
    }

    function Score(root: real -> real, query: Vector): Scored
      requires SameDimension(documents, query)
      reads this
    {
      DenseScores(root, documents, query)
    }
  }

  /** The i-th document was added to both indexes under one id. */
  ghost predicate InStep(docs: seq<Document>, history: seq<Corpus.Entry>) {
    && |docs| == |history|
    && forall i :: 0 <= i < |docs| ==> history[i] == Corpus.Entry(docs[i].chunkId, Corpus.Tokenize(docs[i].text))
  }

  lemma InStepGrows(docs: seq<Document>, history: seq<Corpus.Entry>, d: Document)
    requires InStep(docs, history)
    ensures InStep(docs + [d], history + [Corpus.Entry(d.chunkId, Corpus.Tokenize(d.text))])
  {
  }

  lemma {:induction false} StoredHolds(history: seq<Corpus.Entry>, id: string)
    requires Corpus.Holds(Corpus.Stored(history), id)
    ensures Corpus.Holds(history, id)
  {
    if history != [] {
      var n := |history| - 1;
      var before := Corpus.Stored(history[..n]);
      if history[n].id != id {
        assert Corpus.Holds(before, id) by {
          var i :| 0 <= i < |Corpus.Stored(history)| && Corpus.Stored(history)[i].id == id;
          assert i < |before| && before[i].id == id;
        }
        StoredHolds(history[..n], id);
        var i :| 0 <= i < n && history[..n][i].id == id;
        assert history[i].id == id;
      }
    }
  }

  /** Every id scored by the sparse index is known to the dense one. */
  lemma SparseIdsKnown(w: Params, docs: seq<Document>, history: seq<Corpus.Entry>, query: seq<Corpus.Term>)
    requires InStep(docs, history)
    ensures forall id :: id in Scores(w, Corpus.Stored(history), query) ==> Known(docs, id)
  {
    var c := Corpus.Stored(history);
    MatchingKeys(w, c, query);
    Bm25Facts.RawIds(w, c, query);
    forall id | id in Scores(w, c, query) ensures Known(docs, id) {
      StoredHolds(history, id);
      var i :| 0 <= i < |history| && history[i].id == id;
      assert docs[i].chunkId == id;
    }
  }

  lemma DenseIdsKnown(root: real -> real, docs: seq<Document>, query: Vector)
    requires SameDimension(docs, query)
    ensures forall id :: id in DenseScores(root, docs, query) <==> Known(docs, id)
  {
    SimilarityKeys(root, docs, query);
  }

  /** A set is enumerated in some order. */
  method Enumerate(s: set<string>) returns (order: seq<string>)
    ensures Distinct(order) && forall id :: id in order <==> id in s
  {
    order := [];
    var left := s;
    while left != {}
      invariant left <= s && Distinct(order)
      invariant forall id :: id in order <==> id in s && id !in left
      decreases |left|
    {
      var id :| id in left;
      order := order + [id];
      left := left - {id};
    }
  }

  /** The scoring loop of the reranker. */
  method ScorePairs(query: string, passages: seq<string>) returns (scores: seq<real>)
    ensures |scores| == |passages|
    ensures forall i :: 0 <= i < |passages| ==> scores[i] == Overlap(query, passages[i])
  {
    var q := Words(query);
    scores := [];
    for i := 0 to |passages|
      invariant |scores| == i
      invariant forall j :: 0 <= j < i ==> scores[j] == Overlap(query, passages[j])
    {
      var p := Words(passages[i]);
      var overlap := |q * p|;
      scores := scores + [overlap as real / (if |q| > 1 then |q| else 1) as real];
    }
  }

  class HybridKnowledgeBase {
    const dense: DenseVectorIndex
    const sparse: BM25SparseIndex
    /** The length of every embedding, a property of the embedding model. */
    const dimension: nat

    ghost predicate Valid()
      reads this, dense, sparse
    {
      && sparse.Valid()
      && InStep(dense.documents, sparse.history)
      && forall i :: 0 <= i < |dense.documents| ==> |dense.documents[i].embedding| == dimension
    }

    constructor (dimension: nat)
      ensures Valid() && dense.documents == [] && this.dimension == dimension
      ensures fresh(dense) && fresh(sparse)
    {
      this.dimension := dimension;
      dense := new DenseVectorIndex();
      sparse := new BM25SparseIndex();
    }

    method Ingest(chunkId: string, text: string, source: string, embedding: Vector)
      requires Valid() && |embedding| == dimension
      modifies dense, sparse
      ensures Valid()
      ensures dense.documents == old(dense.documents) + [Document(chunkId, text, source, embedding)]
      ensures sparse.history == old(sparse.history) + [Corpus.Entry(chunkId, Corpus.Tokenize(text))]
    {
      hide InStep;
      InStepGrows(dense.documents, sparse.history, Document(chunkId, text, source, embedding));
      dense.Add(Document(chunkId, text, source, embedding));
      sparse.Add(chunkId, text);
    }

    /** The zip of candidates and passage scores, as a dictionary. */
    method Rerank(r: Request, candidates: seq<Document>) returns (scores: Scored)
      ensures scores == RerankScores(r, candidates)
    {
      scores := map[];
      if r.useReranker && candidates != [] {
        var passages := seq(|candidates|, i requires 0 <= i < |candidates| => candidates[i].text);
        var passageScores := ScorePairs(r.text, passages);
        for i := 0 to |candidates|
          invariant scores == RerankScores(r, candidates[..i])
        {
          scores := scores[candidates[i].chunkId := passageScores[i]];
          assert candidates[..i + 1][..i] == candidates[..i];
        }
        assert candidates[..|candidates|] == candidates;
      }
    }

    /** The loop that turns the first top_k candidates into chunks. */
    method BuildChunks(r: Request, denseScores: Scored, sparseScores: Scored, rerank: Scored, docs: seq<Document>)
      returns (chunks: seq<Chunk>)
      ensures chunks == MakeChunks(r, denseScores, sparseScores, rerank, docs)
    {
      chunks := [];
      for i := 0 to |docs|
        invariant |chunks| == i
        invariant forall j :: 0 <= j < i ==> chunks[j] == MakeChunk(r, denseScores, sparseScores, rerank, docs[j])
      {
        chunks := chunks + [MakeChunk(r, denseScores, sparseScores, rerank, docs[i])];
      }
    }

    /** The answer is the specified one for some order of enumeration, and so has every property proved of it. */
    method Query(root: real -> real, ln: real -> real, r: Request, embedding: Vector)
      returns (chunks: seq<Chunk>, order: seq<string>)
      requires Valid() && |embedding| == dimension
      ensures var docs := dense.documents;
        var d, s := DenseScores(root, docs, embedding), Scores(sparse.View(ln), sparse.docs, Corpus.Tokenize(r.text));
        && Enumerates(docs, order)
        && chunks == Answer(r, docs, d, s, order, Pool(r.topK))
        && Characterised(r, order, Fused(r, d, s), chunks)
        && forall c :: c in chunks ==> TellsOf(r, docs, d, s, c)
    {
      hide TellsOf, Characterised;
      var denseScores := dense.Score(root, embedding);
      var sparseScores := sparse.Score(ln, r.text);
      DenseIdsKnown(root, dense.documents, embedding);
      SparseIdsKnown(sparse.View(ln), dense.documents, sparse.history, Corpus.Tokenize(r.text));
      order := Enumerate(denseScores.Keys + sparseScores.Keys);
      var ranked := Take(SortDescending(order, Fused(r, denseScores, sparseScores)), Pool(r.topK));
      var candidates := Candidates(dense.documents, ranked);
      var rerank := Rerank(r, candidates);
      var built := BuildChunks(r, denseScores, sparseScores, rerank, Take(candidates, r.topK));
      chunks := SortDescending(built, FinalScore);
      AnswerCharacterised(r, dense.documents, denseScores, sparseScores, order);
      AnswerTells(r, dense.documents, denseScores, sparseScores, order);
    }

    /**
      With distinct ids the sparse scores are those of all ingested texts from scratch: in (0, 1], the best at 1,
      for exactly the documents that share a word with the query.
    */
    lemma DistinctIdsSparse(ln: real -> real, text: string)
      requires Valid() && IsLog(ln) && Corpus.Distinct(sparse.history)
      ensures var docs, q := dense.documents, Corpus.Tokenize(text);
        var scores := Scores(sparse.View(ln), sparse.docs, q);
        && sparse.docs == sparse.history
        && scores == Scores(FromScratch(ln, sparse.k1, sparse.b, sparse.history), sparse.history, q)
        && (forall i :: 0 <= i < |docs| ==>
              (docs[i].chunkId in scores <==> Shares(q, Corpus.Tokenize(docs[i].text))))
        && (forall id :: id in scores ==> 0.0 < scores[id] <= 1.0)
        && (scores.Keys != {} ==> exists id :: id in scores && scores[id] == 1.0)
    {
      hide Scores, IsLog, FromScratch, Shares;
      var docs, q := dense.documents, Corpus.Tokenize(text);
      Corpus.StoredAsIs(sparse.history);
      forall t | t in q ensures Corpus.NeverOverwritten(sparse.history, t) {
        Corpus.DistinctNeverOverwritten(sparse.history, t);
      }
      sparse.ScoresFromScratch(ln, q);
      Bm25Facts.IndexScores(sparse, ln, q);
      forall i | 0 <= i < |docs|
        ensures docs[i].chunkId in Scores(sparse.View(ln), sparse.docs, q) <==> Shares(q, Corpus.Tokenize(docs[i].text))
      {
        assert sparse.docs[i] == Corpus.Entry(docs[i].chunkId, Corpus.Tokenize(docs[i].text));
      }
    }

    /** With distinct ids every document can be returned: asking for enough returns them all. */
    lemma DistinctIdsCount(order: seq<string>)
      requires Valid() && Enumerates(dense.documents, order) && Corpus.Distinct(sparse.history)
      ensures |order| == |dense.documents|
    {
      var docs := dense.documents;
      var ids := seq(|docs|, i requires 0 <= i < |docs| => docs[i].chunkId);
      assert Distinct(ids) by {
        assert forall i, j :: 0 <= i < j < |docs| ==> sparse.history[i].id != sparse.history[j].id;
      }
      forall id ensures id in ids <==> id in order {
        assert id in order <==> Known(docs, id);
        if Known(docs, id) {
          var i :| 0 <= i < |docs| && docs[i].chunkId == id;
          assert ids[i] == id;
        }
      }
      SameMembersSameLength(ids, order);
    }
  }

  lemma DistinctSize(xs: seq<string>)
    requires Distinct(xs)
    ensures |set x | x in xs| == |xs|
  {
    if xs != [] {
      var n := |xs| - 1;
      DistinctSize(xs[..n]);
      assert (set x | x in xs) == (set x | x in xs[..n]) + {xs[n]};
      assert xs[n] !in xs[..n];
    }
  }

  lemma SameMembersSameLength(xs: seq<string>, ys: seq<string>)
    requires Distinct(xs) && Distinct(ys) && forall x :: x in xs <==> x in ys
    ensures |xs| == |ys|
  {
    DistinctSize(xs);
    DistinctSize(ys);
    assert (set x | x in xs) == (set y | y in ys);
  }
}
