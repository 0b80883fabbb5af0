/** What the sparse scores mean: signs, order, normalisation and saturation. */
module Bm25Facts {
  import opened Bm25
  import opened Corpus
  import opened Scoring

  // ---------------------------------------------------------------- the inverse document frequency

  /** The argument of the logarithm is (n + 1) / (df + 1/2); it exceeds 1 exactly when df is at most n. */
  lemma LogArgumentLaw(n: nat, df: nat)
    ensures LogArgument(n, df) == (n as real + 1.0) / (df as real + 0.5)
    ensures 0.0 < LogArgument(n, df)
    ensures 1.0 < LogArgument(n, df) <==> df <= n
  {
    var x, d := n as real - df as real + 0.5, df as real + 0.5;
    QuotientPlusOne(x, d);
    QuotientOrder(0.0, x + d, d);
    QuotientOrder(d, x + d, d);
  }

  /** A term's weight is positive exactly when its frequency is at most the number of documents. */
  lemma IdfSign(w: Params, t: Term)
    requires IsLog(w.ln)
    ensures 0.0 < Idf(w, t) <==> w.df(t) <= w.n
  {
    LogArgumentLaw(w.n, w.df(t));
    var x := LogArgument(w.n, w.df(t));
    if x < 1.0 {
      assert w.ln(x) < w.ln(1.0);
    } else if 1.0 < x {
      assert w.ln(1.0) < w.ln(x);
    }
  }

  lemma EqualProducts(x: real, c: real, y: real, d: real)
    requires 0.0 < c && 0.0 < d && 0.0 < x && x * c == y * d
    ensures c < d <==> y < x
    ensures c == d <==> x == y
  {
    MulOrder(c, d, x);
    MulOrder(y, x, d);
  }

  /** The rarer term weighs more. */
  lemma IdfRarer(w: Params, s: Term, t: Term)
    requires IsLog(w.ln)
    ensures Idf(w, t) < Idf(w, s) <==> w.df(s) < w.df(t)
  {
    var x, y := LogArgument(w.n, w.df(s)), LogArgument(w.n, w.df(t));
    LogArgumentLaw(w.n, w.df(s));
    LogArgumentLaw(w.n, w.df(t));
    var c, d := w.df(s) as real + 0.5, w.df(t) as real + 0.5;
    assert x * c == w.n as real + 1.0 && y * d == w.n as real + 1.0;
    EqualProducts(x, c, y, d);
    if y < x {
      assert w.ln(y) < w.ln(x);
    } else if x < y {
      assert w.ln(x) < w.ln(y);
    }
  }

  // ---------------------------------------------------------------- saturation

  lemma SaturatedEquation(k1: real, damping: real, tf: nat)
    requires 0 < tf && 0.0 <= k1 && 0.0 <= damping
    ensures Saturated(k1, damping, tf) * (tf as real + damping) == tf as real * (k1 + 1.0)
    ensures 0.0 < Saturated(k1, damping, tf)
  {
    MulOrder(0.0, tf as real, k1 + 1.0);
    MulOrder(0.0, Saturated(k1, damping, tf), tf as real + damping);
  }

  /** x/(x + e) and y/(y + d) compare by cross multiplication. */
  lemma CrossOrder(p: real, q: real, x: real, y: real, d: real, e: real, k: real)
    requires 0.0 < x && 0.0 < y && 0.0 <= d && 0.0 <= e && 0.0 < k
    requires p * (x + d) == x * k && q * (y + e) == y * k
    ensures p < q <==> x * e < y * d
  {
    var u, v := x + d, y + e;
    assert (p * u) * v == (x * k) * v && (q * v) * u == (y * k) * u;
    assert (x * k) * v == (x * y + x * e) * k && (y * k) * u == (x * y + y * d) * k;
    MulOrder(0.0, u, v);
    assert (p * u) * v == p * (u * v) && (q * v) * u == q * (u * v);
    MulOrder(p, q, u * v);
    MulOrder(x * y + x * e, x * y + y * d, k);
  }

  /** More occurrences weigh strictly more, unless nothing damps the count. */
  lemma MoreOccurrences(k1: real, damping: real, few: nat, many: nat)
    requires 0 < few < many && 0.0 <= k1 && 0.0 <= damping
    ensures Saturated(k1, damping, few) < Saturated(k1, damping, many) <==> 0.0 < damping
  {
    SaturatedEquation(k1, damping, few);
    SaturatedEquation(k1, damping, many);
    CrossOrder(Saturated(k1, damping, few), Saturated(k1, damping, many),
               few as real, many as real, damping, damping, k1 + 1.0);
    if 0.0 < damping {
      MulOrder(few as real, many as real, damping);
    }
  }

  lemma LengthNormGrows(b: real, x: real, y: real, mean: real)
    requires 0.0 <= b <= 1.0 && 0.0 <= x < y && 0.0 < mean
    ensures LengthNorm(b, x, mean) <= LengthNorm(b, y, mean)
    ensures 0.0 < b ==> LengthNorm(b, x, mean) < LengthNorm(b, y, mean)
  {
    var p, q := b * x, b * y;
    assert p <= q && (0.0 < b ==> p < q) by {
      assert p == x * b && q == y * b;
      ScaleOrder(x, y, b);
      if 0.0 < b {
        MulOrder(x, y, b);
      }
    }
    QuotientOrder(q, p, mean);
    QuotientOrder(p, q, mean);
    assert LengthNorm(b, x, mean) == 1.0 - b + p / mean && LengthNorm(b, y, mean) == 1.0 - b + q / mean;
  }

  /** A longer document damps at least as much, strictly more if both k1 and b are positive. */
  lemma LongerDamps(k1: real, b: real, avgdl: real, short: nat, long: nat)
    requires InRange(k1, b) && short < long
    ensures Damping(k1, b, avgdl, short) <= Damping(k1, b, avgdl, long)
    ensures 0.0 < k1 && 0.0 < b ==> Damping(k1, b, avgdl, short) < Damping(k1, b, avgdl, long)
  {
    var m := AtLeastTiny(avgdl);
    var x, y := LengthNorm(b, short as real, m), LengthNorm(b, long as real, m);
    LengthNormGrows(b, short as real, long as real, m);
    ScaleOrder(x, y, k1);
    if 0.0 < k1 && 0.0 < b {
      MulOrder(x, y, k1);
    }
  }

  /** More damping weighs strictly less. */
  lemma MoreDamping(k1: real, less: real, more: real, tf: nat)
    requires 0 < tf && 0.0 <= k1 && 0.0 <= less <= more
    ensures Saturated(k1, more, tf) <= Saturated(k1, less, tf)
    ensures less < more ==> Saturated(k1, more, tf) < Saturated(k1, less, tf)
  {
    SaturatedEquation(k1, less, tf);
    SaturatedEquation(k1, more, tf);
    CrossOrder(Saturated(k1, less, tf), Saturated(k1, more, tf), tf as real, tf as real, less, more, k1 + 1.0);
    CrossOrder(Saturated(k1, more, tf), Saturated(k1, less, tf), tf as real, tf as real, more, less, k1 + 1.0);
    ScaleOrder(less, more, tf as real);
    MulOrder(less, more, tf as real);
  }

  /** No number of occurrences earns k1 + 1, unless nothing damps the count. */
  lemma BelowCeiling(k1: real, damping: real, tf: nat)
    requires 0 < tf && 0.0 <= k1 && 0.0 <= damping
    ensures Saturated(k1, damping, tf) <= k1 + 1.0
    ensures Saturated(k1, damping, tf) < k1 + 1.0 <==> 0.0 < damping
  {
    SaturatedEquation(k1, damping, tf);
    var s, d := Saturated(k1, damping, tf), tf as real + damping;
    assert (k1 + 1.0) * d == tf as real * (k1 + 1.0) + damping * (k1 + 1.0);
    NonNegativeProduct(damping, k1 + 1.0);
    MulOrder(s, k1 + 1.0, d);
    MulOrder(0.0, damping, k1 + 1.0);
    MulOrder(k1 + 1.0, s, d);
  }

  /** What a document earns from a term, before the term's own weight. */
  lemma WeightRange(k1: real, b: real, avgdl: real, t: Term, tokens: seq<Term>)
    requires InRange(k1, b) && t in tokens
    ensures 0.0 < Weight(k1, b, avgdl, t, tokens) <= k1 + 1.0
    ensures 0.0 < k1 ==> Weight(k1, b, avgdl, t, tokens) < k1 + 1.0
  {
    var d := Damping(k1, b, avgdl, |tokens|);
    SaturatedEquation(k1, d, Tf(t, tokens));
    BelowCeiling(k1, d, Tf(t, tokens));
    if 0.0 < k1 {
      DampingPositive(k1, b, avgdl, |tokens|);
    }
  }

  lemma WeightOrder(k1: real, b: real, avgdl: real, t: Term, x: seq<Term>, y: seq<Term>)
    requires InRange(k1, b) && t in x && t in y
    ensures 0.0 < k1 && |x| == |y| && Tf(t, x) < Tf(t, y) ==> Weight(k1, b, avgdl, t, x) < Weight(k1, b, avgdl, t, y)
    ensures Tf(t, x) == Tf(t, y) && |x| < |y| ==> Weight(k1, b, avgdl, t, y) <= Weight(k1, b, avgdl, t, x)
    ensures 0.0 < k1 && 0.0 < b && Tf(t, x) == Tf(t, y) && |x| < |y| ==>
              Weight(k1, b, avgdl, t, y) < Weight(k1, b, avgdl, t, x)
  {
    var d, e := Damping(k1, b, avgdl, |x|), Damping(k1, b, avgdl, |y|);
    if 0.0 < k1 && |x| == |y| && Tf(t, x) < Tf(t, y) {
      DampingPositive(k1, b, avgdl, |x|);
      MoreOccurrences(k1, d, Tf(t, x), Tf(t, y));
    }
    if Tf(t, x) == Tf(t, y) && |x| < |y| {
      LongerDamps(k1, b, avgdl, |x|, |y|);
      MoreDamping(k1, d, e, Tf(t, x));
    }
  }

  /** For a term of positive weight, a contribution is positive and stays below k1 + 1 times that weight. */
  lemma ContributionRange(idf: real, k1: real, b: real, avgdl: real, t: Term, tokens: seq<Term>)
    requires InRange(k1, b) && 0.0 < idf && t in tokens
    ensures 0.0 < Contribution(idf, k1, b, avgdl, t, tokens) <= idf * (k1 + 1.0)
    ensures 0.0 < k1 ==> Contribution(idf, k1, b, avgdl, t, tokens) < idf * (k1 + 1.0)
  {
    var x := Weight(k1, b, avgdl, t, tokens);
    WeightRange(k1, b, avgdl, t, tokens);
    ScaleChain(idf, x, x, k1 + 1.0);
  }

  /**
    With the length fixed it grows with the occurrences; with these fixed it does not grow with the length, and
    falls with it if both constants are positive.
  */
  lemma ContributionOrder(idf: real, k1: real, b: real, avgdl: real, t: Term, x: seq<Term>, y: seq<Term>)
    requires InRange(k1, b) && 0.0 < idf && t in x && t in y
    ensures 0.0 < k1 && |x| == |y| && Tf(t, x) < Tf(t, y) ==>
              Contribution(idf, k1, b, avgdl, t, x) < Contribution(idf, k1, b, avgdl, t, y)
    ensures Tf(t, x) == Tf(t, y) && |x| < |y| ==>
              Contribution(idf, k1, b, avgdl, t, y) <= Contribution(idf, k1, b, avgdl, t, x)
    ensures 0.0 < k1 && 0.0 < b && Tf(t, x) == Tf(t, y) && |x| < |y| ==>
              Contribution(idf, k1, b, avgdl, t, y) < Contribution(idf, k1, b, avgdl, t, x)
  {
    hide Weight;
    var u, v := Weight(k1, b, avgdl, t, x), Weight(k1, b, avgdl, t, y);
    WeightOrder(k1, b, avgdl, t, x, y);
    MulOrder(u, v, idf);
    MulOrder(v, u, idf);
  }

  /** Damping times the mean length, without a quotient. */
  lemma DampingEquation(k1: real, b: real, avgdl: real, length: nat)
    requires InRange(k1, b)
    ensures var m := AtLeastTiny(avgdl);
      Damping(k1, b, avgdl, length) * m == k1 * ((1.0 - b) * m + b * length as real)
  {
    var m := AtLeastTiny(avgdl);
    var q := b * length as real / m;
    assert q * m == b * length as real;
    assert (1.0 - b + q) * m == (1.0 - b) * m + q * m;
    assert (k1 * (1.0 - b + q)) * m == k1 * ((1.0 - b + q) * m);
  }

  /** Multiplying w (f + d) == g by m and i. */
  lemma Multiplied(w: real, f: real, d: real, g: real, m: real, i: real)
    requires w * (f + d) == g
    ensures (i * w) * (f * m + d * m) == i * (g * m)
  {
    assert f * m + d * m == (f + d) * m;
    assert (i * w) * ((f + d) * m) == i * ((w * (f + d)) * m);
  }

  /**
    The formula without quotients: with m the mean length, f occurrences and l words,
    contribution (f m + k1 ((1 - b) m + b l)) == idf f (k1 + 1) m.
  */
  lemma ContributionEquation(idf: real, k1: real, b: real, avgdl: real, t: Term, tokens: seq<Term>)
    requires InRange(k1, b) && t in tokens
    ensures var m := if avgdl > 0.000001 then avgdl else 0.000001;
      var f, l := multiset(tokens)[t] as real, |tokens| as real;
      Contribution(idf, k1, b, avgdl, t, tokens) * (f * m + k1 * ((1.0 - b) * m + b * l))
        == idf * (f * (k1 + 1.0) * m)
  {
    hide Saturated, Damping;
    var m, f, d := AtLeastTiny(avgdl), Tf(t, tokens), Damping(k1, b, avgdl, |tokens|);
    SaturatedEquation(k1, d, f);
    DampingEquation(k1, b, avgdl, |tokens|);
    Multiplied(Weight(k1, b, avgdl, t, tokens), f as real, d, f as real * (k1 + 1.0), m, idf);
  }

  /** One occurrence in a document of mean length earns the inverse frequency itself. */
  lemma OneAtMeanLength(idf: real, k1: real, b: real, avgdl: real, t: Term, tokens: seq<Term>)
    requires InRange(k1, b) && t in tokens && multiset(tokens)[t] == 1 && avgdl == |tokens| as real
    ensures Contribution(idf, k1, b, avgdl, t, tokens) == idf
  {
    hide Contribution, Weight;
    ContributionEquation(idf, k1, b, avgdl, t, tokens);
    var c, m := Contribution(idf, k1, b, avgdl, t, tokens), avgdl;
    assert (1.0 - b) * m + b * m == m;
    assert 1.0 * m + k1 * m == (k1 + 1.0) * m;
    MulOrder(0.0, k1 + 1.0, m);
    MulOrder(c, idf, (k1 + 1.0) * m);
  }

  // ---------------------------------------------------------------- whole documents

  predicate Counted(w: Params, query: seq<Term>, tokens: seq<Term>) {
    forall t :: t in query && t in tokens ==> w.df(t) <= w.n
  }

  /** The summed weight of the query terms that a document contains. */
  function MatchedIdf(w: Params, query: seq<Term>, tokens: seq<Term>): real {
    if query == [] then 0.0
    else
      var t := query[|query| - 1];
      MatchedIdf(w, query[..|query| - 1], tokens) + if t in tokens then Idf(w, t) else 0.0
  }

  lemma SharesNothing(tokens: seq<Term>)
    ensures !Shares([], tokens)
  {
  }

  lemma SharesSnoc(query: seq<Term>, tokens: seq<Term>)
    requires query != []
    ensures Shares(query, tokens) <==> Shares(query[..|query| - 1], tokens) || query[|query| - 1] in tokens
  {
    assert query == query[..|query| - 1] + [query[|query| - 1]];
  }

  lemma RangeStep(raw: real, m: real, c: real, idf: real, k: real)
    requires 0.0 <= raw <= m * k && 0.0 < c <= idf * k
    ensures 0.0 < raw + c <= (m + idf) * k
    ensures c < idf * k ==> raw + c < (m + idf) * k
  {
    assert (m + idf) * k == m * k + idf * k;
  }

  /**
    A raw score is positive exactly for a document that shares a term with the query, and then below
    k1 + 1 times the summed weight of the query terms it contains.
  */
  lemma {:induction false} RawScoreRange(w: Params, query: seq<Term>, tokens: seq<Term>)
    requires IsLog(w.ln) && Counted(w, query, tokens)
    ensures 0.0 <= RawScore(w, query, tokens) <= MatchedIdf(w, query, tokens) * (w.k1 + 1.0)
    ensures 0.0 < RawScore(w, query, tokens) <==> Shares(query, tokens)
    ensures 0.0 < w.k1 && Shares(query, tokens) ==>
              RawScore(w, query, tokens) < MatchedIdf(w, query, tokens) * (w.k1 + 1.0)
  {
    hide Idf, Contribution, Shares, IsLog;
    if query == [] {
      SharesNothing(tokens);
    } else {
      var rest, t := query[..|query| - 1], query[|query| - 1];
      RawScoreRange(w, rest, tokens);
      SharesSnoc(query, tokens);
      if t in tokens {
        IdfSign(w, t);
        ContributionRange(Idf(w, t), w.k1, w.b, w.avgdl, t, tokens);
        var c := Contribution(Idf(w, t), w.k1, w.b, w.avgdl, t, tokens);
        RangeStep(RawScore(w, rest, tokens), MatchedIdf(w, rest, tokens), c, Idf(w, t), w.k1 + 1.0);
      }
    }
  }

  lemma {:induction false} RawScoreAt(w: Params, c: seq<Entry>, query: seq<Term>, i: nat)
    requires i < |c| && Distinct(c)
    ensures var raw := RawScores(w, c, query);
      if Shares(query, c[i].tokens) then c[i].id in raw && raw[c[i].id] == RawScore(w, query, c[i].tokens)
      else c[i].id !in raw
  {
    var n := |c| - 1;
    if i < n {
      RawScoreAt(w, c[..n], query, i);
    } else {
      RawIds(w, c[..n], query);
    }
  }

  lemma {:induction false} RawIds(w: Params, c: seq<Entry>, query: seq<Term>)
    ensures forall k :: k in RawScores(w, c, query) ==> Holds(c, k)
  {
    if c != [] {
      RawIds(w, c[..|c| - 1], query);
    }
  }

  // ---------------------------------------------------------------- normalisation

  /** Dividing by the largest score keeps the order unless that score is negative, and then reverses it. */
  lemma NormaliseOrder(raw: map<string, real>, ids: seq<string>, k: string, l: string)
    requires ids != [] && k in raw && l in raw && forall i :: 0 <= i < |ids| ==> ids[i] in raw
    ensures var scores := Normalise(raw, ids);
      && k in scores && l in scores
      && (scores[k] < scores[l] <==> if MaxOver(raw, ids) < 0.0 then raw[l] < raw[k] else raw[k] < raw[l])
  {
    QuotientOrder(raw[k], raw[l], OrOne(MaxOver(raw, ids)));
  }

  /** Positive raw scores are scaled into (0, 1], the largest to 1. */
  /** If the largest score is zero the scores are left as they are. */
  lemma NormaliseZero(raw: map<string, real>, ids: seq<string>)
    requires ids != [] && forall i :: 0 <= i < |ids| ==> ids[i] in raw && raw[ids[i]] <= 0.0
    requires exists i :: 0 <= i < |ids| && raw[ids[i]] == 0.0
    ensures Normalise(raw, ids) == raw
  {
    assert MaxOver(raw, ids) == 0.0;
  }

  lemma NormaliseRange(raw: map<string, real>, ids: seq<string>)
    requires forall k :: k in raw <==> k in ids
    requires forall k :: k in raw ==> 0.0 < raw[k]
    ensures var scores := Normalise(raw, ids);
      && scores.Keys == raw.Keys
      && (forall k :: k in scores ==> 0.0 < scores[k] <= 1.0)
      && (ids != [] ==> exists k :: k in scores && scores[k] == 1.0)
  {
    if ids != [] {
      var max := MaxOver(raw, ids);
      var top :| 0 <= top < |ids| && raw[ids[top]] == max;
      assert 0.0 < max;
      forall k | k in raw ensures 0.0 < raw[k] / max <= 1.0 {
        Quotient(raw[k], max);
        QuotientOrder(0.0, raw[k], max);
      }
      Quotient(max, max);
      assert ids[top] in Normalise(raw, ids);
    }
  }

  lemma RawPositive(w: Params, c: seq<Entry>, query: seq<Term>)
    requires IsLog(w.ln) && forall t :: w.df(t) <= w.n
    ensures forall k :: k in RawScores(w, c, query) ==> 0.0 < RawScores(w, c, query)[k]
  {
    if c != [] {
      RawPositive(w, c[..|c| - 1], query);
      RawScoreRange(w, query, c[|c| - 1].tokens);
    }
  }

  /**
    Sparse scores with true statistics: exactly the documents that share a term with the query are scored,
    in (0, 1], some document at 1, and ranked by raw score.
  */
  lemma SparseScores(ln: real -> real, k1: real, b: real, c: seq<Entry>, query: seq<Term>)
    requires IsLog(ln) && InRange(k1, b) && Distinct(c)
    ensures var w := FromScratch(ln, k1, b, c); var scores := Scores(w, c, query);
      && (forall i :: 0 <= i < |c| ==> (c[i].id in scores <==> Shares(query, c[i].tokens)))
      && (forall k :: k in scores ==> 0.0 < scores[k] <= 1.0 && Holds(c, k))
      && (scores.Keys != {} ==> exists k :: k in scores && scores[k] == 1.0)
  {
    var w := FromScratch(ln, k1, b, c);
    RawPositive(w, c, query);
    RawIds(w, c, query);
    MatchingKeys(w, c, query);
    NormaliseRange(RawScores(w, c, query), MatchingIds(c, query));
    forall i | 0 <= i < |c| ensures c[i].id in Scores(w, c, query) <==> Shares(query, c[i].tokens) {
      RawScoreAt(w, c, query, i);
    }
  }

  lemma SparseOrder(ln: real -> real, k1: real, b: real, c: seq<Entry>, query: seq<Term>, i: nat, j: nat)
    requires IsLog(ln) && InRange(k1, b) && Distinct(c) && i < |c| && j < |c|
    requires Shares(query, c[i].tokens) && Shares(query, c[j].tokens)
    ensures var w := FromScratch(ln, k1, b, c); var scores := Scores(w, c, query);
      && c[i].id in scores && c[j].id in scores
      && (scores[c[i].id] < scores[c[j].id] <==> RawScore(w, query, c[i].tokens) < RawScore(w, query, c[j].tokens))
  {
    var w := FromScratch(ln, k1, b, c);
    var raw, ids := RawScores(w, c, query), MatchingIds(c, query);
    RawPositive(w, c, query);
    MatchingKeys(w, c, query);
    RawScoreAt(w, c, query, i);
    RawScoreAt(w, c, query, j);
    assert c[i].id in ids;
    NormaliseOrder(raw, ids, c[i].id, c[j].id);
  }

  // ---------------------------------------------------------------- the index object

  /**
    What the index itself gives: if no document that holds a query term was ever overwritten, exactly the
    stored documents that share a term with the query are scored, in (0, 1], and the best one at 1.
  */
  lemma IndexScores(index: BM25SparseIndex, ln: real -> real, query: seq<Term>)
    requires index.Valid() && IsLog(ln)
    requires forall t :: t in query ==> NeverOverwritten(index.history, t)
    ensures var c, scores := index.docs, Scores(index.View(ln), index.docs, query);
      && (forall i :: 0 <= i < |c| ==> (c[i].id in scores <==> Shares(query, c[i].tokens)))
      && (forall k :: k in scores ==> 0.0 < scores[k] <= 1.0 && Holds(c, k))
      && (scores.Keys != {} ==> exists k :: k in scores && scores[k] == 1.0)
  {
    index.ScoresFromScratch(ln, query);
    StoredDistinct(index.history);
    SparseScores(ln, index.k1, index.b, index.docs, query);
  }

  /** And ranked as a scoring from scratch ranks them. */
  lemma IndexOrder(index: BM25SparseIndex, ln: real -> real, query: seq<Term>, i: nat, j: nat)
    requires index.Valid() && IsLog(ln) && i < |index.docs| && j < |index.docs|
    requires forall t :: t in query ==> NeverOverwritten(index.history, t)
    requires Shares(query, index.docs[i].tokens) && Shares(query, index.docs[j].tokens)
    ensures var c, scores := index.docs, Scores(index.View(ln), index.docs, query);
      var w := FromScratch(ln, index.k1, index.b, c);
      && c[i].id in scores && c[j].id in scores
      && (scores[c[i].id] < scores[c[j].id] <==> RawScore(w, query, c[i].tokens) < RawScore(w, query, c[j].tokens))
  {
    index.ScoresFromScratch(ln, query);
    StoredDistinct(index.history);
    SparseOrder(ln, index.k1, index.b, index.docs, query, i, j);
  }

  // ---------------------------------------------------------------- repeated keys

  lemma RepeatedKey(e: Entry, t: Term)
    requires e.tokens == [t]
    ensures Stored([e, e]) == [e] && CountWith([e], t) == 1 && CountWith([e, e], t) == 2
  {
    StoredSnoc([], e);
    StoredSnoc([e], e);
    CountSnoc([], e, t);
    CountSnoc([e], e, t);
    assert [] + [e] == [e] && [e] + [e] == [e, e];
    assert Stored([e, e]) == Put([e], e);
  }

  /**
    A key ingested twice makes its terms count twice: with one live document, each of its terms has weight
    below zero.
  */
  lemma RepeatedKeyTurnsNegative(w: Params, e: Entry, t: Term)
    requires IsLog(w.ln) && e.tokens == [t]
    requires w.n == |Stored([e, e])| && w.df(t) == CountWith([e, e], t)
    ensures Idf(w, t) < 0.0 && !NeverOverwritten([e, e], t)
  {
    RepeatedKey(e, t);
    IncrementsExact([e, e], t);
    LogArgumentLaw(1, 2);
    assert LogArgument(1, 2) == 0.8;
    assert w.ln(0.8) < w.ln(1.0);
  }
}
