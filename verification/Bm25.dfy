/**
  Okapi BM25 over an incrementally maintained index, in exact reals.  The logarithm is a parameter; all
  that is used of it is that it grows and is zero at one.
*/
module Bm25 {
  import opened Corpus
  import opened Scoring

  ghost predicate IsLog(ln: real -> real) {
    ln(1.0) == 0.0 && forall x, y :: 0.0 < x < y ==> ln(x) < ln(y)
  }

  /** Everything the formula reads: its constants and the statistics of the index. */
  datatype Weights = Weights(ln: real -> real, k1: real, b: real, n: nat, df: Term -> nat, avgdl: real)

  predicate InRange(k1: real, b: real) { 0.0 <= k1 && 0.0 <= b <= 1.0 }

  type Params = w: Weights | InRange(w.k1, w.b) witness Weights((x: real) => 0.0, 0.0, 0.0, 0, (t: Term) => 0, 0.0)

  function LogArgument(n: nat, df: nat): real {
    1.0 + (n as real - df as real + 0.5) / (df as real + 0.5)
  }

  function Idf(w: Params, t: Term): real {
    w.ln(LogArgument(w.n, w.df(t)))
  }

  function AtLeastTiny(x: real): real { if x > 0.000001 then x else 0.000001 }

  /** One for a document of average length, more for a longer one; b says how much length matters. */
  function LengthNorm(b: real, length: real, mean: real): (r: real)
    requires 0.0 <= b <= 1.0 && 0.0 <= length && 0.0 < mean
    ensures 0.0 <= r
    ensures 0.0 < length ==> 0.0 < r
  {
    var q := b * length / mean;
    LengthRatio(b, length, mean, q);
    1.0 - b + q
  }

  lemma LengthRatio(b: real, length: real, mean: real, q: real)
    requires 0.0 <= b && 0.0 <= length && 0.0 < mean && q == b * length / mean
    ensures 0.0 <= q
    ensures 0.0 < length && 0.0 < b ==> 0.0 < q
  {
    NonNegativeProduct(b, length);
    assert q * mean == b * length;
    MulOrder(q, 0.0, mean);
    if 0.0 < length {
      MulOrder(0.0, b, length);
    }
  }

  /** What document length adds to the denominator. */
  function Damping(k1: real, b: real, avgdl: real, length: nat): (r: real)
    requires InRange(k1, b)
    ensures 0.0 <= r
  {
    var norm := LengthNorm(b, length as real, AtLeastTiny(avgdl));
    NonNegativeProduct(k1, norm);
    k1 * norm
  }

  lemma DampingPositive(k1: real, b: real, avgdl: real, length: nat)
    requires InRange(k1, b) && 0.0 < k1 && 0 < length
    ensures 0.0 < Damping(k1, b, avgdl, length)
  {
    MulOrder(0.0, LengthNorm(b, length as real, AtLeastTiny(avgdl)), k1);
  }

  /** The share of the inverse frequency that tf occurrences earn. */
  function Saturated(k1: real, damping: real, tf: nat): real
    requires 0 < tf && 0.0 <= damping
  {
    (tf as real * (k1 + 1.0)) / (tf as real + damping)
  }

  function Tf(t: Term, tokens: seq<Term>): nat { multiset(tokens)[t] }

  function Weight(k1: real, b: real, avgdl: real, t: Term, tokens: seq<Term>): real
    requires InRange(k1, b) && t in tokens
  {
    Saturated(k1, Damping(k1, b, avgdl, |tokens|), Tf(t, tokens))
  }

  function Contribution(idf: real, k1: real, b: real, avgdl: real, t: Term, tokens: seq<Term>): real
    requires InRange(k1, b) && t in tokens
  {
    idf * Weight(k1, b, avgdl, t, tokens)
  }

  /** The raw score of a document; a repeated query term counts each time. */
  function RawScore(w: Params, query: seq<Term>, tokens: seq<Term>): real {
    if query == [] then 0.0
    else
      var t := query[|query| - 1];
      RawScore(w, query[..|query| - 1], tokens) +
      if t in tokens then Contribution(Idf(w, t), w.k1, w.b, w.avgdl, t, tokens) else 0.0
  }

  predicate Shares(query: seq<Term>, tokens: seq<Term>) {
    exists t :: t in query && t in tokens
  }

  /** The raw scores of the documents that share a term with the query, and their keys in order. */
  function RawScores(w: Params, c: seq<Entry>, query: seq<Term>): map<string, real> {
    if c == [] then map[]
    else
      var rest, e := RawScores(w, c[..|c| - 1], query), c[|c| - 1];
      if Shares(query, e.tokens) then rest[e.id := RawScore(w, query, e.tokens)] else rest
  }

  function MatchingIds(c: seq<Entry>, query: seq<Term>): seq<string> {
    if c == [] then []
    else
      var rest, e := MatchingIds(c[..|c| - 1], query), c[|c| - 1];
      if Shares(query, e.tokens) then rest + [e.id] else rest
  }

  lemma {:induction false} MatchingKeys(w: Params, c: seq<Entry>, query: seq<Term>)
    ensures forall k :: k in RawScores(w, c, query) <==> k in MatchingIds(c, query)
  {
    if c != [] {
      MatchingKeys(w, c[..|c| - 1], query);
      assert MatchingIds(c, query) == MatchingIds(c[..|c| - 1], query)
        + if Shares(query, c[|c| - 1].tokens) then [c[|c| - 1].id] else [];
    }
  }

  function Normalise(raw: map<string, real>, ids: seq<string>): map<string, real>
    requires forall i :: 0 <= i < |ids| ==> ids[i] in raw
  {
    if ids == [] then raw
    else
      var max := OrOne(MaxOver(raw, ids));
      map k | k in raw :: raw[k] / max
  }

  function Scores(w: Params, c: seq<Entry>, query: seq<Term>): map<string, real> {
    MatchingKeys(w, c, query);
    Normalise(RawScores(w, c, query), MatchingIds(c, query))
  }

  /** The statistics of a corpus, computed from scratch. */
  function FromScratch(ln: real -> real, k1: real, b: real, c: seq<Entry>): Params
    requires InRange(k1, b)
  {
    Weights(ln, k1, b, |c|, t => CountWith(c, t), Mean(c))
  }

  /** Scores depend on a frequency only through its values. */
  lemma {:induction false} SameRawScore(v: Params, w: Params, query: seq<Term>, tokens: seq<Term>)
    requires v.ln == w.ln && v.k1 == w.k1 && v.b == w.b && v.n == w.n && v.avgdl == w.avgdl
    requires forall t :: t in query ==> v.df(t) == w.df(t)
    ensures RawScore(v, query, tokens) == RawScore(w, query, tokens)
  {
    if query != [] {
      var t := query[|query| - 1];
      SameRawScore(v, w, query[..|query| - 1], tokens);
      assert Idf(v, t) == Idf(w, t);
    }
  }

  lemma {:induction false} SameScores(v: Params, w: Params, c: seq<Entry>, query: seq<Term>)
    requires v.ln == w.ln && v.k1 == w.k1 && v.b == w.b && v.n == w.n && v.avgdl == w.avgdl
    requires forall t :: t in query ==> v.df(t) == w.df(t)
    ensures RawScores(v, c, query) == RawScores(w, c, query)
  {
    if c != [] {
      SameScores(v, w, c[..|c| - 1], query);
      SameRawScore(v, w, query, c[|c| - 1].tokens);
    }
  }

  function Frequency(docFreq: map<Term, nat>, t: Term): nat {
    if t in docFreq then docFreq[t] else 0
  }

  /** The loop that counts a document once under each of its terms. */
  method Increment(docFreq: map<Term, nat>, terms: set<Term>) returns (f: map<Term, nat>)
    ensures forall t :: Frequency(f, t) == Frequency(docFreq, t) + One(t in terms)
  {
    var left, done := terms, {};
    f := docFreq;
    while left != {}
      invariant left !! done && left + done == terms
      invariant forall t :: Frequency(f, t) == Frequency(docFreq, t) + One(t in done)
      decreases |left|
    {
      var term :| term in left;
      f := f[term := Frequency(f, term) + 1];
      left, done := left - {term}, done + {term};
    }
  }

  class BM25SparseIndex {
    const k1: real
    const b: real
    var docs: seq<Entry>
    var docFreq: map<Term, nat>
    var avgdl: real
    /** Every addition ever made, replaced documents included. */
    ghost var history: seq<Entry>

    ghost predicate Valid()
      reads this
    {
      && InRange(k1, b)
      && docs == Stored(history)
      && avgdl == Mean(docs)
      && forall t :: Frequency(docFreq, t) == CountWith(history, t)
    }

    /** The statistics the index holds. */
    function View(ln: real -> real): Params
      reads this
      requires InRange(k1, b)
    {
      var f := docFreq;
      Weights(ln, k1, b, |docs|, t => Frequency(f, t), avgdl)
    }

    constructor (k1: real := 1.5, b: real := 0.75)
      requires InRange(k1, b)
      ensures Valid() && history == [] && this.k1 == k1 && this.b == b
    {
      this.k1, this.b := k1, b;
      docs, docFreq, avgdl := [], map[], 0.0;
      history := [];
    }

    method Add(chunkId: string, text: string)
      requires Valid()
      modifies this
      ensures Valid()
      ensures history == old(history) + [Entry(chunkId, Tokenize(text))]
    {
      var e := Entry(chunkId, Tokenize(text));
      docs := Put(docs, e);
      docFreq := Increment(docFreq, set t | t in e.tokens);
      avgdl := Mean(docs);
      history := history + [e];
      StoredSnoc(old(history), e);
      forall t ensures Frequency(docFreq, t) == CountWith(history, t) {
        CountSnoc(old(history), e, t);
      }
    }

    /** The accumulating loop of one document. */
    method ScoreDocument(ln: real -> real, query: seq<Term>, tokens: seq<Term>) returns (hit: bool, raw: real)
      requires Valid()
      ensures hit <==> Shares(query, tokens)
      ensures raw == RawScore(View(ln), query, tokens)
    {
      hit, raw := false, 0.0;
      ghost var w := View(ln);
      for i := 0 to |query|
        invariant hit <==> exists j :: 0 <= j < i && query[j] in tokens
        invariant raw == RawScore(w, query[..i], tokens)
      {
        var term := query[i];
        assert query[..i + 1][..i] == query[..i];
        if term in tokens {
          var idf := ln(LogArgument(|docs|, Frequency(docFreq, term)));
          raw := raw + Contribution(idf, k1, b, avgdl, term, tokens);
          hit := true;
        }
      }
      assert query[..|query|] == query;
    }

    /** The loop over the documents; ids are the keys of raw in the order of their insertion. */
    method ScoreAll(ln: real -> real, query: seq<Term>) returns (raw: map<string, real>, ids: seq<string>)
      requires Valid()
      ensures raw == RawScores(View(ln), docs, query) && ids == MatchingIds(docs, query)
    {
      raw, ids := map[], [];
      ghost var w := View(ln);
      for i := 0 to |docs|
        invariant raw == RawScores(w, docs[..i], query)
        invariant ids == MatchingIds(docs[..i], query)
      {
        assert docs[..i + 1][..i] == docs[..i];
        var hit, score := ScoreDocument(ln, query, docs[i].tokens);
        if hit {
          raw, ids := raw[docs[i].id := score], ids + [docs[i].id];
        }
      }
      assert docs[..|docs|] == docs;
    }

    method Score(ln: real -> real, query: string) returns (scores: map<string, real>)
      requires Valid()
      ensures scores == Scores(View(ln), docs, Tokenize(query))
    {
      var terms := Tokenize(query);
      ghost var w := View(ln);
      var raw, ids := ScoreAll(ln, terms);
      MatchingKeys(w, docs, terms);
      scores := Normalise(raw, ids);
    }

    /** If no document holding a query term was ever overwritten, the index scores like one built afresh. */
    lemma ScoresFromScratch(ln: real -> real, query: seq<Term>)
      requires Valid()
      requires forall t :: t in query ==> NeverOverwritten(history, t)
      ensures Scores(View(ln), docs, query) == Scores(FromScratch(ln, k1, b, docs), docs, query)
    {
      forall t | t in query ensures View(ln).df(t) == CountWith(docs, t) {
        IncrementsExact(history, t);
      }
      SameScores(View(ln), FromScratch(ln, k1, b, docs), docs, query);
    }

    /** The stored frequency of a term is the true one exactly when no document holding it was overwritten. */
    lemma FrequencyExact(t: Term)
      requires Valid()
      ensures Frequency(docFreq, t) == CountWith(docs, t) <==> NeverOverwritten(history, t)
      ensures Distinct(history) ==> docs == history && Frequency(docFreq, t) == CountWith(docs, t)
    {
      IncrementsExact(history, t);
      if Distinct(history) {
        StoredAsIs(history);
      }
    }
  }
}
