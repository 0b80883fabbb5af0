/**
  Cosine similarity and the dense index, in exact reals.  The square root is a parameter, fixed only by
  what makes it one.
*/
module Vectors {
  import opened Scoring
  import opened Wrappers

  type Vector = seq<real>

  function Dot(a: Vector, b: Vector): real
    requires |a| == |b|
  {
    if a == [] then 0.0
    else Dot(a[..|a| - 1], b[..|b| - 1]) + a[|a| - 1] * b[|b| - 1]
  }

  ghost predicate IsRoot(root: real -> real) {
    forall x: real :: 0.0 <= x ==> 0.0 <= root(x) && root(x) * root(x) == x
  }

  function Norm(root: real -> real, a: Vector): real {
    root(Dot(a, a))
  }

  /** A product of norms as a denominator, with a tiny number in place of zero. */
  function Denominator(p: real, q: real): real {
    if p * q == 0.0 then 0.000000001 else p * q
  }

  function Ratio(x: real, p: real, q: real): real
    requires Denominator(p, q) != 0.0
  {
    x / Denominator(p, q)
  }

  function Cosine(root: real -> real, a: Vector, b: Vector): real
    requires |a| == |b|
  {
    Ratio(Dot(a, b), Norm(root, a), Norm(root, b))
  }

  // ---------------------------------------------------------------- Cauchy-Schwarz

  lemma {:induction false} DotSelfNonNegative(a: Vector)
    ensures 0.0 <= Dot(a, a)
  {
    if a != [] {
      DotSelfNonNegative(a[..|a| - 1]);
      SquareNonNegative(a[|a| - 1]);
    }
  }

  /** One more coordinate: from x^2 <= AB to (x + pq)^2 <= (A + p^2)(B + q^2). */
  lemma SchwarzStep(x: real, A: real, B: real, p: real, q: real)
    requires 0.0 <= A && 0.0 <= B && x * x <= A * B
    ensures (x + p * q) * (x + p * q) <= (A + p * p) * (B + q * q)
  {
    var y, z := A * (q * q) + B * (p * p), 2.0 * x * (p * q);
    var s, d := (p * q) * (p * q), A * (q * q) - B * (p * p);
    SquareNonNegative(p);
    SquareNonNegative(q);
    SquareNonNegative(p * q);
    SquareNonNegative(d);
    NonNegativeProduct(A, q * q);
    NonNegativeProduct(B, p * p);
    assert y * y == d * d + 4.0 * ((A * (q * q)) * (B * (p * p)));
    assert (A * (q * q)) * (B * (p * p)) == (A * B) * s;
    assert z * z == 4.0 * ((x * x) * s);
    ScaleOrder(x * x, A * B, s);
    SquareOrder(y, z);
    assert (x + p * q) * (x + p * q) == x * x + z + s;
    assert (A + p * p) * (B + q * q) == A * B + y + s;
  }

  lemma {:induction false} CauchySchwarz(a: Vector, b: Vector)
    requires |a| == |b|
    ensures Dot(a, b) * Dot(a, b) <= Dot(a, a) * Dot(b, b)
  {
    if a != [] {
      var n := |a| - 1;
      var a', b' := a[..n], b[..n];
      CauchySchwarz(a', b');
      DotSelfNonNegative(a');
      DotSelfNonNegative(b');
      SchwarzStep(Dot(a', b'), Dot(a', a'), Dot(b', b'), a[n], b[n]);
    }
  }

  lemma NormSquared(root: real -> real, a: Vector)
    requires IsRoot(root)
    ensures 0.0 <= Norm(root, a) && Norm(root, a) * Norm(root, a) == Dot(a, a)
  {
    DotSelfNonNegative(a);
  }

  /** The product of two norms, squared, is the product of the squared norms. */
  lemma NormProduct(p: real, q: real, A: real, B: real)
    requires p * p == A && q * q == B
    ensures (p * q) * (p * q) == A * B
  {
  }

  /** A dot product is covered by the product of the norms. */
  lemma SchwarzNorms(a: Vector, b: Vector, p: real, q: real, d: real)
    requires |a| == |b| && 0.0 <= p && 0.0 <= q && d == p * q
    requires p * p == Dot(a, a) && q * q == Dot(b, b)
    ensures 0.0 <= d && -d <= Dot(a, b) <= d
  {
    hide Dot;
    var x := Dot(a, b);
    CauchySchwarz(a, b);
    NormProduct(p, q, Dot(a, a), Dot(b, b));
    NonNegativeProduct(p, q);
    SquareOrder(d, x);
    assert (-x) * (-x) == x * x;
    SquareOrder(d, -x);
  }

  lemma RatioBounded(a: Vector, b: Vector, p: real, q: real)
    requires |a| == |b| && 0.0 <= p && 0.0 <= q
    requires p * p == Dot(a, a) && q * q == Dot(b, b)
    ensures -1.0 <= Ratio(Dot(a, b), p, q) <= 1.0
  {
    SchwarzNorms(a, b, p, q, p * q);
    Quotient(Dot(a, b), Denominator(p, q));
  }

  /** Cosine similarity lies in [-1, 1] for all vectors of one dimension, zero vectors included. */
  lemma CosineBounded(root: real -> real, a: Vector, b: Vector)
    requires IsRoot(root) && |a| == |b|
    ensures -1.0 <= Cosine(root, a, b) <= 1.0
  {
    NormSquared(root, a);
    NormSquared(root, b);
    RatioBounded(a, b, Norm(root, a), Norm(root, b));
  }

  /** A vector is as similar as can be to itself, unless it is zero. */
  lemma CosineSelf(root: real -> real, a: Vector)
    requires IsRoot(root)
    ensures Cosine(root, a, a) == if Dot(a, a) == 0.0 then 0.0 else 1.0
  {
    NormSquared(root, a);
    DotSelfNonNegative(a);
    if Dot(a, a) != 0.0 {
      Quotient(Dot(a, a), Dot(a, a));
    }
  }

  function Multiple(c: real, a: Vector): (r: Vector)
    ensures |r| == |a|
  {
    if a == [] then [] else Multiple(c, a[..|a| - 1]) + [c * a[|a| - 1]]
  }

  lemma {:induction false} DotSymmetric(a: Vector, b: Vector)
    requires |a| == |b|
    ensures Dot(a, b) == Dot(b, a)
  {
    if a != [] {
      var n := |a| - 1;
      DotSymmetric(a[..n], b[..n]);
      assert a[n] * b[n] == b[n] * a[n];
    }
  }

  lemma {:induction false} DotMultiple(c: real, a: Vector, b: Vector)
    requires |a| == |b|
    ensures Dot(Multiple(c, a), b) == c * Dot(a, b)
  {
    if a != [] {
      var n := |a| - 1;
      DotMultiple(c, a[..n], b[..n]);
      assert Multiple(c, a)[..n] == Multiple(c, a[..n]);
      TermMultiple(c, Dot(a[..n], b[..n]), a[n], b[n]);
    }
  }

  lemma TermMultiple(c: real, x: real, p: real, q: real)
    ensures c * x + (c * p) * q == c * (x + p * q)
  {
  }

  function Size(c: real): real { if c < 0.0 then -c else c }

  lemma RootOfSquares(c: real, p: real, r: real)
    requires 0.0 <= p && 0.0 <= r && r * r == c * (c * (p * p))
    ensures r == Size(c) * p
  {
    var s := Size(c);
    assert (s * p) * (s * p) == (s * s) * (p * p) && s * s == c * c && c * (c * (p * p)) == (c * c) * (p * p);
    NonNegativeProduct(s, p);
    SquareOrder(r, s * p);
    SquareOrder(s * p, r);
  }

  lemma NormMultiple(root: real -> real, c: real, a: Vector)
    requires IsRoot(root)
    ensures Norm(root, Multiple(c, a)) == Size(c) * Norm(root, a)
  {
    hide Dot, Norm, IsRoot, Multiple, Size;
    var m := Multiple(c, a);
    NormSquared(root, a);
    NormSquared(root, m);
    DotMultiple(c, a, m);
    DotSymmetric(a, m);
    DotMultiple(c, a, a);
    RootOfSquares(c, Norm(root, a), Norm(root, m));
  }

  /** Similarity times the norms is the dot product, and it is zero if a vector is. */
  lemma CosineEquation(root: real -> real, a: Vector, b: Vector)
    requires IsRoot(root) && |a| == |b|
    ensures var d := Norm(root, a) * Norm(root, b);
      Cosine(root, a, b) * d == Dot(a, b) && (d == 0.0 ==> Cosine(root, a, b) == 0.0)
  {
    hide Dot, Norm, IsRoot;
    var p, q := Norm(root, a), Norm(root, b);
    NormSquared(root, a);
    NormSquared(root, b);
    SchwarzNorms(a, b, p, q, p * q);
    RatioTimes(Dot(a, b), p, q);
    assert Cosine(root, a, b) == Ratio(Dot(a, b), p, q);
  }

  lemma RatioTimes(x: real, p: real, q: real)
    requires p * q == 0.0 ==> x == 0.0
    ensures Ratio(x, p, q) * (p * q) == x && (p * q == 0.0 ==> Ratio(x, p, q) == 0.0)
  {
    var d := p * q;
    if d != 0.0 {
      assert x / d * d == x;
    }
  }

  /** Quotients of t by p q and of c t by |c| p q. */
  lemma SameRatio(x: real, y: real, t: real, c: real, p: real, q: real)
    requires c != 0.0 && x * (p * q) == t && y * ((Size(c) * p) * q) == c * t
    requires p * q == 0.0 ==> x == 0.0
    requires (Size(c) * p) * q == 0.0 ==> y == 0.0
    ensures y == if c < 0.0 then -x else x
  {
    var d, s := p * q, Size(c);
    assert (s * p) * q == s * d;
    if d != 0.0 {
      assert y * (s * d) == c * (x * d);
      var z := if c < 0.0 then y + x else y - x;
      assert z * (s * d) == 0.0;
    }
  }

  /** Only directions count: a multiple is as similar, or as opposite if the factor is negative. */
  lemma CosineMultiple(root: real -> real, c: real, a: Vector, b: Vector)
    requires IsRoot(root) && |a| == |b| && c != 0.0
    ensures Cosine(root, Multiple(c, a), b) == if c < 0.0 then -Cosine(root, a, b) else Cosine(root, a, b)
  {
    hide Cosine, Norm, Dot, IsRoot, Multiple, Size;
    CosineEquation(root, a, b);
    CosineEquation(root, Multiple(c, a), b);
    NormMultiple(root, c, a);
    DotMultiple(c, a, b);
    SameRatio(Cosine(root, a, b), Cosine(root, Multiple(c, a), b), Dot(a, b), c, Norm(root, a), Norm(root, b));
  }

  // ---------------------------------------------------------------- the dense index

  datatype Document = Document(chunkId: string, text: string, source: string, embedding: Vector)

  /** All embeddings have the query's dimension. */
  predicate SameDimension(docs: seq<Document>, query: Vector) {
    forall i :: 0 <= i < |docs| ==> |docs[i].embedding| == |query|
  }

  /** The raw similarities by chunk id; a later document with the same id replaces an earlier one. */
  function Similarities(root: real -> real, docs: seq<Document>, query: Vector): map<string, real>
    requires SameDimension(docs, query)
  {
    if docs == [] then map[]
    else
      var d := docs[|docs| - 1];
      Similarities(root, docs[..|docs| - 1], query)[d.chunkId := Cosine(root, query, d.embedding)]
  }

  lemma {:induction false} SimilarityKeys(root: real -> real, docs: seq<Document>, query: Vector)
    requires SameDimension(docs, query)
    ensures Similarities(root, docs, query).Keys == set i | 0 <= i < |docs| :: docs[i].chunkId
  {
    if docs != [] {
      var prefix := docs[..|docs| - 1];
      SimilarityKeys(root, prefix, query);
      assert (set i | 0 <= i < |docs| :: docs[i].chunkId) ==
             (set i | 0 <= i < |prefix| :: prefix[i].chunkId) + {docs[|docs| - 1].chunkId} by {
        assert forall i :: 0 <= i < |prefix| ==> prefix[i] == docs[i];
      }
    }
  }

  /** Under every id stands the similarity of the last document added with it. */
  lemma {:induction false} SimilarityAt(root: real -> real, docs: seq<Document>, query: Vector, i: nat)
    requires SameDimension(docs, query)
    requires i < |docs| && forall j :: i < j < |docs| ==> docs[j].chunkId != docs[i].chunkId
    ensures var raw := Similarities(root, docs, query);
      docs[i].chunkId in raw && raw[docs[i].chunkId] == Cosine(root, query, docs[i].embedding)
  {
    hide Cosine;
    if i < |docs| - 1 {
      SimilarityAt(root, docs[..|docs| - 1], query, i);
    }
  }

  function Ids(docs: seq<Document>): (ids: seq<string>)
    ensures |ids| == |docs| && forall i :: 0 <= i < |docs| ==> ids[i] == docs[i].chunkId
  {
    seq(|docs|, i requires 0 <= i < |docs| => docs[i].chunkId)
  }

  function AtLeastZero(x: real): real { if x > 0.0 then x else 0.0 }

  /** A similarity cut off at zero and scaled by the largest one. */
  function Scaled(v: real, max: real): real { AtLeastZero(v) / OrOne(max) }

  function DenseScores(root: real -> real, docs: seq<Document>, query: Vector): map<string, real>
    requires SameDimension(docs, query)
  {
    var raw := Similarities(root, docs, query);
    if docs == [] then raw
    else
      SimilarityKeys(root, docs, query);
      var max := MaxOver(raw, Ids(docs));
      map k | k in raw :: Scaled(raw[k], max)
  }

  lemma ScaledRange(v: real, max: real)
    requires v <= max
    ensures 0.0 <= Scaled(v, max) <= 1.0
    ensures 0.0 < max ==> (v == max <==> Scaled(v, max) == 1.0)
    ensures max <= 0.0 ==> Scaled(v, max) == 0.0
  {
    if 0.0 < max {
      var q := Scaled(v, max);
      assert q * max == AtLeastZero(v);
      MulOrder(1.0, q, max);
      MulOrder(q, 0.0, max);
    } else if max < 0.0 {
      assert AtLeastZero(v) == 0.0;
    }
  }

  lemma ScaledOrder(v: real, w: real, max: real)
    requires v <= max && w <= max
    ensures Scaled(v, max) < Scaled(w, max) <==> v < w && 0.0 < w
  {
    ScaledRange(v, max);
    ScaledRange(w, max);
    if 0.0 < max {
      var p, q := Scaled(v, max), Scaled(w, max);
      assert p * max == AtLeastZero(v) && q * max == AtLeastZero(w);
      MulOrder(p, q, max);
    }
  }

  lemma MaxCovers(root: real -> real, docs: seq<Document>, query: Vector) returns (max: real)
    requires SameDimension(docs, query) && docs != []
    ensures var raw, scores := Similarities(root, docs, query), DenseScores(root, docs, query);
      && raw.Keys == scores.Keys
      && (forall k :: k in raw ==> raw[k] <= max && scores[k] == Scaled(raw[k], max))
      && exists k :: k in raw && raw[k] == max
  {
    var raw := Similarities(root, docs, query);
    SimilarityKeys(root, docs, query);
    max := MaxOver(raw, Ids(docs));
    forall k | k in raw ensures raw[k] <= max {
      var i :| 0 <= i < |docs| && docs[i].chunkId == k;
      assert Ids(docs)[i] == k;
    }
    var i :| 0 <= i < |docs| && raw[Ids(docs)[i]] == max;
    assert Ids(docs)[i] in raw;
  }

  /** Dense scores lie in [0, 1]; the largest is 1 if some similarity is positive, else all are 0. */
  lemma DenseNormalised(root: real -> real, docs: seq<Document>, query: Vector)
    requires SameDimension(docs, query)
    ensures var raw, scores := Similarities(root, docs, query), DenseScores(root, docs, query);
      && scores.Keys == raw.Keys
      && (forall k :: k in scores ==> 0.0 <= scores[k] <= 1.0)
      && (if exists k :: k in raw && raw[k] > 0.0 then exists k :: k in scores && scores[k] == 1.0
          else forall k :: k in scores ==> scores[k] == 0.0)
  {
    if docs != [] {
      var raw, scores := Similarities(root, docs, query), DenseScores(root, docs, query);
      var max := MaxCovers(root, docs, query);
      forall k | k in raw
        ensures 0.0 <= scores[k] <= 1.0
        ensures if max <= 0.0 then scores[k] == 0.0 else (raw[k] == max <==> scores[k] == 1.0)
      {
        ScaledRange(raw[k], max);
      }
      var top :| top in raw && raw[top] == max;
    }
  }

  /** Scaling keeps the ranking: a score is below another exactly when its similarity is and the other is positive. */
  lemma DenseOrder(root: real -> real, docs: seq<Document>, query: Vector, k: string, l: string)
    requires SameDimension(docs, query)
    requires k in Similarities(root, docs, query) && l in Similarities(root, docs, query)
    ensures var raw, scores := Similarities(root, docs, query), DenseScores(root, docs, query);
      k in scores && l in scores && (scores[k] < scores[l] <==> raw[k] < raw[l] && 0.0 < raw[l])
  {
    var raw := Similarities(root, docs, query);
    var max := MaxCovers(root, docs, query);
    ScaledOrder(raw[k], raw[l], max);
  }

  /** The first document stored under an id. */
  function GetDocument(docs: seq<Document>, chunkId: string): (r: Option<Document>)
    ensures r == None <==> forall i :: 0 <= i < |docs| ==> docs[i].chunkId != chunkId
    ensures r.Some? ==> exists i :: 0 <= i < |docs| && docs[i] == r.value && r.value.chunkId == chunkId
                                 && forall j :: 0 <= j < i ==> docs[j].chunkId != chunkId
  {
    if docs == [] then None
    else if docs[0].chunkId == chunkId then Some(docs[0])
    else
      var rest := GetDocument(docs[1..], chunkId);
      assert forall i :: 0 < i < |docs| ==> docs[i] == docs[1..][i - 1];
      assert rest.Some? ==> exists i :: 0 <= i < |docs[1..]| && docs[1..][i] == rest.value
                                 && forall j :: 0 <= j < i ==> docs[1..][j].chunkId != chunkId;
      GetShift(docs, chunkId, rest);
      rest
  }

  lemma GetShift(docs: seq<Document>, chunkId: string, r: Option<Document>)
    requires docs != [] && docs[0].chunkId != chunkId
    requires r.Some? ==> exists i :: 0 <= i < |docs[1..]| && docs[1..][i] == r.value && r.value.chunkId == chunkId
                                 && forall j :: 0 <= j < i ==> docs[1..][j].chunkId != chunkId
    ensures r.Some? ==> exists i :: 0 <= i < |docs| && docs[i] == r.value && r.value.chunkId == chunkId
                                 && forall j :: 0 <= j < i ==> docs[j].chunkId != chunkId
  {
    if r.Some? {
      var i :| 0 <= i < |docs[1..]| && docs[1..][i] == r.value &&
               forall j :: 0 <= j < i ==> docs[1..][j].chunkId != chunkId;
      assert docs[i + 1] == r.value;
      forall j | 0 <= j < i + 1 ensures docs[j].chunkId != chunkId {
        assert j > 0 ==> docs[j] == docs[1..][j - 1];
      }
    }
  }
}
