/**
  The semantic cache: a scan over stored embeddings that keeps the best match.  Redis is the environment;
  its scan replies arrive in any batches, in any order, with repeats and with keys that have expired since.
*/
module SemanticCache {
  import opened Vectors
  import opened Wrappers

  datatype Key = Key(stamp: int, hash: nat)

  datatype Entry = Entry(embedding: Vector, query: string, trajectory: string)

  datatype Hit = Hit(query: string, trajectory: string, similarity: real)

  /** A key of a scan reply with what its hash held when it was read; an expired key reads as empty. */
  datatype Item = Item(key: Key, hash: Option<Entry>)

  datatype Reply = Reply(cursor: nat, items: seq<Item>)

  function Live(items: seq<Item>): seq<Entry> {
    if items == [] then []
    else
      Live(items[..|items| - 1]) +
      match items[|items| - 1].hash
      case Some(e) => [e]
      case None => []
  }

  /** The entries compared by one lookup: whole batches, up to the one that ends the loop. */
  function Seen(replies: seq<Reply>, scanned: nat, max: nat): seq<Entry> {
    if replies == [] then []
    else
      var batch := Live(replies[0].items);
      if replies[0].cursor == 0 || scanned + |batch| >= max then batch
      else batch + Seen(replies[1..], scanned + |batch|, max)
  }

  /** Every stored vector has the query's dimension. */
  ghost predicate Fits(query: Vector, replies: seq<Reply>) {
    forall i, j :: 0 <= i < |replies| && 0 <= j < |replies[i].items| && replies[i].items[j].hash.Some? ==>
      |replies[i].items[j].hash.value.embedding| == |query|
  }

  predicate AllFit(query: Vector, entries: seq<Entry>) {
    forall i :: 0 <= i < |entries| ==> |entries[i].embedding| == |query|
  }

  function HitOf(root: real -> real, query: Vector, e: Entry): Hit
    requires |e.embedding| == |query|
  {
    Hit(e.query, e.trajectory, Cosine(root, query, e.embedding))
  }

  /** Every entry with its similarity to the query. */
  function Hits(root: real -> real, query: Vector, entries: seq<Entry>): (hits: seq<Hit>)
    requires AllFit(query, entries)
    ensures |hits| == |entries|
    ensures forall i :: 0 <= i < |entries| ==> hits[i] == HitOf(root, query, entries[i])
  {
    seq(|entries|, i requires 0 <= i < |entries| => HitOf(root, query, entries[i]))
  }

  // ---------------------------------------------------------------- what a lookup must return

  /** The i-th hit is the most similar one, and the first such. */
  ghost predicate FirstBest(hits: seq<Hit>, i: int) {
    && 0 <= i < |hits|
    && (forall j :: 0 <= j < |hits| ==> hits[j].similarity <= hits[i].similarity)
    && (forall j :: 0 <= j < i ==> hits[j].similarity < hits[i].similarity)
  }

  /** The loop's candidate: none while everything seen is exactly opposite to the query. */
  ghost predicate Candidate(hits: seq<Hit>, score: real, best: Option<Hit>) {
    match best
    case None => score == -1.0 && forall j :: 0 <= j < |hits| ==> hits[j].similarity <= -1.0
    case Some(hit) => score == hit.similarity > -1.0 && exists i :: FirstBest(hits, i) && hits[i] == hit
  }

  /** The plain argmax with a threshold. */
  ghost predicate Outcome(hits: seq<Hit>, threshold: real, r: Option<Hit>) {
    match r
    case None => forall j :: 0 <= j < |hits| ==> hits[j].similarity < threshold || hits[j].similarity <= -1.0
    case Some(hit) =>
      && hit.similarity >= threshold && hit.similarity > -1.0
      && exists i :: FirstBest(hits, i) && hits[i] == hit
  }

  /** The hit is the query, the trajectory and the similarity of the i-th entry, the first of the most similar. */
  ghost predicate TellsOf(root: real -> real, query: Vector, entries: seq<Entry>, hit: Hit, i: int)
    requires AllFit(query, entries)
  {
    && 0 <= i < |entries|
    && hit.query == entries[i].query && hit.trajectory == entries[i].trajectory
    && hit.similarity == Cosine(root, query, entries[i].embedding)
    && (forall j :: 0 <= j < |entries| ==> Cosine(root, query, entries[j].embedding) <= hit.similarity)
    && (forall j :: 0 <= j < i ==> Cosine(root, query, entries[j].embedding) < hit.similarity)
  }

  /** An outcome, told of the entries themselves. */
  lemma OutcomeTells(root: real -> real, query: Vector, entries: seq<Entry>, threshold: real, r: Option<Hit>)
    requires AllFit(query, entries) && Outcome(Hits(root, query, entries), threshold, r)
    ensures match r
      case None =>
        forall i :: 0 <= i < |entries| ==>
          var similarity := Cosine(root, query, entries[i].embedding); similarity < threshold || similarity <= -1.0
      case Some(hit) =>
        hit.similarity >= threshold && hit.similarity > -1.0 && exists i :: TellsOf(root, query, entries, hit, i)
  {
    hide Cosine;
    var hits := Hits(root, query, entries);
    assert forall i :: 0 <= i < |entries| ==> hits[i].similarity == Cosine(root, query, entries[i].embedding);
    if r.Some? {
      var i :| FirstBest(hits, i) && hits[i] == r.value;
      assert TellsOf(root, query, entries, r.value, i);
    }
  }

  /** A lookup has one possible outcome. */
  lemma OutcomeUnique(hits: seq<Hit>, threshold: real, r: Option<Hit>, s: Option<Hit>)
    requires Outcome(hits, threshold, r) && Outcome(hits, threshold, s)
    ensures r == s
  {
  }

  lemma NoCandidate(root: real -> real, query: Vector)
    ensures Candidate(Hits(root, query, []), -1.0, None)
  {
  }

  lemma CandidateStep(hits: seq<Hit>, hit: Hit, score: real, best: Option<Hit>)
    requires Candidate(hits, score, best)
    ensures if hit.similarity > score then Candidate(hits + [hit], hit.similarity, Some(hit))
            else Candidate(hits + [hit], score, best)
  {
    var more := hits + [hit];
    if hit.similarity > score {
      assert FirstBest(more, |hits|);
    } else if best.Some? {
      var i :| FirstBest(hits, i) && hits[i] == best.value;
      assert FirstBest(more, i);
    }
  }

  lemma CandidateToOutcome(hits: seq<Hit>, score: real, best: Option<Hit>, threshold: real)
    requires Candidate(hits, score, best)
    ensures Outcome(hits, threshold, if best.Some? && score >= threshold then best else None)
  {
    if best.Some? {
      var i :| FirstBest(hits, i) && hits[i] == best.value;
    }
  }

  lemma {:induction false} LiveFits(query: Vector, items: seq<Item>)
    requires forall j :: 0 <= j < |items| && items[j].hash.Some? ==> |items[j].hash.value.embedding| == |query|
    ensures AllFit(query, Live(items))
  {
    if items != [] {
      LiveFits(query, items[..|items| - 1]);
    }
  }

  lemma {:induction false} SeenFits(query: Vector, replies: seq<Reply>, scanned: nat, max: nat)
    requires Fits(query, replies)
    ensures AllFit(query, Seen(replies, scanned, max))
  {
    if replies != [] {
      LiveFits(query, replies[0].items);
      assert Fits(query, replies[1..]) by {
        assert forall i :: 0 <= i < |replies| - 1 ==> replies[1..][i] == replies[i + 1];
      }
      SeenFits(query, replies[1..], scanned + |Live(replies[0].items)|, max);
    }
  }

  lemma SeenStep(replies: seq<Reply>, i: nat, scanned: nat, max: nat)
    requires i < |replies|
    ensures var batch := Live(replies[i].items);
      Seen(replies[i..], scanned, max) ==
        if replies[i].cursor == 0 || scanned + |batch| >= max then batch
        else batch + Seen(replies[i + 1..], scanned + |batch|, max)
  {
    assert replies[i..][0] == replies[i] && replies[i..][1..] == replies[i + 1..];
  }

  // ---------------------------------------------------------------- batches, repeats and coverage

  function AllLive(replies: seq<Reply>): seq<Entry> {
    if replies == [] then [] else Live(replies[0].items) + AllLive(replies[1..])
  }

  /** Only the last reply has cursor zero. */
  predicate WholeScan(replies: seq<Reply>) {
    replies != [] && forall i :: 0 <= i < |replies| ==> (replies[i].cursor == 0 <==> i == |replies| - 1)
  }

  /**
    A lookup compares every live entry of a whole scan unless the bound stops it: then some replies, with
    at least max live entries among them, were enough, and a prefix of the scan was compared.
  */
  lemma {:induction false} SeenCoverage(replies: seq<Reply>, scanned: nat, max: nat)
    requires WholeScan(replies)
    ensures Seen(replies, scanned, max) <= AllLive(replies)
    ensures Seen(replies, scanned, max) == AllLive(replies) || scanned + |Seen(replies, scanned, max)| >= max
  {
    hide Live;
    var rest := replies[1..];
    if replies[0].cursor == 0 {
      assert rest == [];
    } else {
      assert WholeScan(rest) by {
        assert forall i :: 0 <= i < |rest| ==> rest[i] == replies[i + 1];
      }
      SeenCoverage(rest, scanned + |Live(replies[0].items)|, max);
    }
  }

  /** The loop goes on to the reply with cursor zero: the replies before it do not fill the bound. */
  predicate ReachesEnd(replies: seq<Reply>, scanned: nat, max: nat) {
    |replies| == 1 || (replies != [] && scanned + |AllLive(replies[..|replies| - 1])| < max)
  }

  /** Then everything is compared, however much the last reply holds; else only some of the replies are. */
  lemma {:induction false} SeenWhole(replies: seq<Reply>, scanned: nat, max: nat)
    requires WholeScan(replies)
    ensures ReachesEnd(replies, scanned, max) ==> Seen(replies, scanned, max) == AllLive(replies)
    ensures !ReachesEnd(replies, scanned, max) ==>
              exists m :: 0 < m < |replies| && Seen(replies, scanned, max) == AllLive(replies[..m])
                       && scanned + |AllLive(replies[..m])| >= max
  {
    hide Live;
    var n, rest, batch := |replies|, replies[1..], Live(replies[0].items);
    if n == 1 {
      assert rest == [];
    } else {
      assert WholeScan(rest) by {
        assert forall i :: 0 <= i < |rest| ==> rest[i] == replies[i + 1];
      }
      AllLivePrefix(replies, n - 1);
      AllLivePrefix(replies, 1);
      assert rest[..0] == [];
      if scanned + |batch| >= max {
        assert Seen(replies, scanned, max) == AllLive(replies[..1]);
      } else {
        SeenWhole(rest, scanned + |batch|, max);
        assert n == 2 ==> rest[..n - 2] == [];
        if !ReachesEnd(rest, scanned + |batch|, max) {
          var m :| 0 < m < |rest| && Seen(rest, scanned + |batch|, max) == AllLive(rest[..m])
                && scanned + |batch| + |AllLive(rest[..m])| >= max;
          AllLivePrefix(replies, m + 1);
        }
      }
    }
  }

  lemma AllLivePrefix(replies: seq<Reply>, m: nat)
    requires 0 < m <= |replies|
    ensures AllLive(replies[..m]) == Live(replies[0].items) + AllLive(replies[1..][..m - 1])
  {
    assert replies[..m][1..] == replies[1..][..m - 1];
  }

  /** How a scan is cut into batches does not matter as long as the loop reaches the last one. */
  lemma BatchingIrrelevant(root: real -> real, query: Vector, xs: seq<Reply>, ys: seq<Reply>, max: nat,
                           threshold: real, r: Option<Hit>, s: Option<Hit>)
    requires WholeScan(xs) && WholeScan(ys) && AllLive(xs) == AllLive(ys)
    requires ReachesEnd(xs, 0, max) && ReachesEnd(ys, 0, max)
    requires AllFit(query, Seen(xs, 0, max)) && AllFit(query, Seen(ys, 0, max))
    requires Outcome(Hits(root, query, Seen(xs, 0, max)), threshold, r)
    requires Outcome(Hits(root, query, Seen(ys, 0, max)), threshold, s)
    ensures r == s
  {
    SeenWhole(xs, 0, max);
    SeenWhole(ys, 0, max);
    OutcomeUnique(Hits(root, query, AllLive(xs)), threshold, r, s);
  }

  // ---------------------------------------------------------------- repeats

  /** Each entry where it first occurs. */
  function Firsts(entries: seq<Entry>): seq<Entry> {
    if entries == [] then []
    else
      var rest, e := Firsts(entries[..|entries| - 1]), entries[|entries| - 1];
      if e in entries[..|entries| - 1] then rest else rest + [e]
  }

  lemma {:induction false} FirstsMembers(entries: seq<Entry>)
    ensures forall e :: e in Firsts(entries) <==> e in entries
  {
    if entries != [] {
      FirstsMembers(entries[..|entries| - 1]);
      assert entries == entries[..|entries| - 1] + [entries[|entries| - 1]];
    }
  }

  lemma FirstsFit(query: Vector, entries: seq<Entry>)
    requires AllFit(query, entries)
    ensures AllFit(query, Firsts(entries))
  {
    FirstsMembers(entries);
    forall i | 0 <= i < |Firsts(entries)| ensures |Firsts(entries)[i].embedding| == |query| {
      assert Firsts(entries)[i] in entries;
    }
  }

  lemma HitsPrefix(root: real -> real, query: Vector, entries: seq<Entry>, i: int)
    requires AllFit(query, entries) && entries != [] && FirstBest(Hits(root, query, entries), i) && i < |entries| - 1
    ensures AllFit(query, entries[..|entries| - 1]) && FirstBest(Hits(root, query, entries[..|entries| - 1]), i)
  {
  }

  /** The first best entry is still the first best when repeats are dropped. */
  lemma {:induction false} FirstBestOfFirsts(root: real -> real, query: Vector, entries: seq<Entry>, i: nat)
    returns (j: nat)
    requires AllFit(query, entries) && FirstBest(Hits(root, query, entries), i)
    ensures AllFit(query, Firsts(entries)) && j < |Firsts(entries)| && Firsts(entries)[j] == entries[i]
    ensures FirstBest(Hits(root, query, Firsts(entries)), j)
  {
    hide Cosine;
    FirstsFit(query, entries);
    var n := |entries| - 1;
    var prefix, e := entries[..n], entries[n];
    var hits := Hits(root, query, entries);
    if i < n {
      HitsPrefix(root, query, entries, i);
      j := FirstBestOfFirsts(root, query, prefix, i);
      assert hits[n].similarity <= hits[i].similarity;
    } else {
      forall k | 0 <= k < n ensures prefix[k] != e {
        assert hits[k].similarity < hits[n].similarity;
      }
      FirstsMembers(prefix);
      j := |Firsts(prefix)|;
      forall k | 0 <= k < j ensures Hits(root, query, Firsts(entries))[k].similarity < hits[n].similarity {
        assert Firsts(entries)[k] in prefix;
        var l :| 0 <= l < n && prefix[l] == Firsts(entries)[k];
        assert hits[l].similarity < hits[n].similarity;
      }
    }
  }

  lemma OutcomeOfFirsts(root: real -> real, query: Vector, entries: seq<Entry>, threshold: real, r: Option<Hit>)
    requires AllFit(query, entries) && Outcome(Hits(root, query, entries), threshold, r)
    ensures AllFit(query, Firsts(entries)) && Outcome(Hits(root, query, Firsts(entries)), threshold, r)
  {
    hide Cosine;
    FirstsFit(query, entries);
    var hits, firsts := Hits(root, query, entries), Hits(root, query, Firsts(entries));
    if r.Some? {
      var i :| FirstBest(hits, i) && hits[i] == r.value;
      var j := FirstBestOfFirsts(root, query, entries, i);
      assert firsts[j] == hits[i];
    } else {
      FirstsMembers(entries);
      forall j | 0 <= j < |firsts| ensures firsts[j].similarity < threshold || firsts[j].similarity <= -1.0 {
        assert Firsts(entries)[j] in entries;
        var i :| 0 <= i < |entries| && entries[i] == Firsts(entries)[j];
        assert hits[i] == firsts[j];
      }
    }
  }

  /**
    Two scans that return the same entries for the first time in the same order, with any repeats in between,
    have the same outcome, if in both of them everything is compared.
  */
  lemma RepeatIrrelevant(root: real -> real, query: Vector, xs: seq<Reply>, ys: seq<Reply>, max: nat,
                         threshold: real, r: Option<Hit>, s: Option<Hit>)
    requires WholeScan(xs) && WholeScan(ys) && Firsts(AllLive(xs)) == Firsts(AllLive(ys))
    requires Seen(xs, 0, max) == AllLive(xs) && Seen(ys, 0, max) == AllLive(ys)
    requires AllFit(query, AllLive(xs)) && AllFit(query, AllLive(ys))
    requires Outcome(Hits(root, query, Seen(xs, 0, max)), threshold, r)
    requires Outcome(Hits(root, query, Seen(ys, 0, max)), threshold, s)
    ensures r == s
  {
    hide Cosine, Outcome, Seen, AllLive, Firsts;
    OutcomeOfFirsts(root, query, AllLive(xs), threshold, r);
    OutcomeOfFirsts(root, query, AllLive(ys), threshold, s);
    OutcomeUnique(Hits(root, query, Firsts(AllLive(xs))), threshold, r, s);
  }

  /** A scan of two replies: some of one entry, then another one. */
  function OneThenOther(key: Key, times: nat, a: Entry, b: Entry): seq<Reply> {
    [Reply(7, seq(times, _ => Item(key, Some(a)))), Reply(0, [Item(key.(hash := key.hash + 1), Some(b))])]
  }

  lemma {:induction false} LiveRepeated(key: Key, times: nat, a: Entry)
    ensures Live(seq(times, _ => Item(key, Some(a)))) == seq(times, _ => a)
  {
    var items: seq<Item> := seq(times, _ => Item(key, Some(a)));
    if times > 0 {
      LiveRepeated(key, times - 1, a);
      assert items[..times - 1] == seq(times - 1, _ => Item(key, Some(a)));
    }
  }

  /**
    But a key returned again counts towards the bound, and can end the scan before a better entry: with a bound
    of two, one repeat hides the second reply.
  */
  lemma RepeatCanHide(
    root: real -> real, query: Vector, key: Key, a: Entry, b: Entry, threshold: real, r: Option<Hit>, s: Option<Hit>)
    requires |a.embedding| == |query| == |b.embedding|
    requires Cosine(root, query, a.embedding) < Cosine(root, query, b.embedding)
    requires threshold <= Cosine(root, query, b.embedding) && -1.0 < Cosine(root, query, b.embedding)
    ensures WholeScan(OneThenOther(key, 1, a, b)) && WholeScan(OneThenOther(key, 2, a, b))
    ensures Firsts(AllLive(OneThenOther(key, 1, a, b))) == Firsts(AllLive(OneThenOther(key, 2, a, b)))
    ensures Seen(OneThenOther(key, 1, a, b), 0, 2) == [a, b] && Seen(OneThenOther(key, 2, a, b), 0, 2) == [a, a]
    ensures Outcome(Hits(root, query, [a, b]), threshold, r) ==> r == Some(HitOf(root, query, b))
    ensures Outcome(Hits(root, query, [a, a]), threshold, s) ==> s != Some(HitOf(root, query, b))
  {
    hide Cosine, Live, Seen, AllLive, Firsts, WholeScan;
    HiddenScan(key, a, b);
    var both, twice := Hits(root, query, [a, b]), Hits(root, query, [a, a]);
    assert FirstBest(both, 1);
    assert both[1] == HitOf(root, query, b);
    assert Outcome(both, threshold, Some(both[1]));
    if Outcome(both, threshold, r) {
      OutcomeUnique(both, threshold, r, Some(both[1]));
    }
    assert twice[0] == HitOf(root, query, a) == twice[1];
  }

  lemma HiddenScan(key: Key, a: Entry, b: Entry)
    ensures var xs, ys := OneThenOther(key, 1, a, b), OneThenOther(key, 2, a, b);
      && WholeScan(xs) && WholeScan(ys)
      && Seen(xs, 0, 2) == [a, b] && Seen(ys, 0, 2) == [a, a]
      && Firsts(AllLive(xs)) == Firsts(AllLive(ys))
  {
    hide Live, Seen, AllLive, Firsts;
    var xs, ys := OneThenOther(key, 1, a, b), OneThenOther(key, 2, a, b);
    var last: seq<Item> := [Item(key.(hash := key.hash + 1), Some(b))];
    LiveRepeated(key, 1, a);
    LiveRepeated(key, 2, a);
    LiveOne(last[0], b);
    TwoReplies(xs[0], xs[1], 2);
    TwoReplies(ys[0], ys[1], 2);
    assert xs == [xs[0], xs[1]] && ys == [ys[0], ys[1]] && xs[1] == ys[1] == Reply(0, last);
    assert seq(1, _ => a) == [a] && seq(2, _ => a) == [a, a];
    assert [a] + [b] == [a, b] && [a, a] + [b] == [a, a, b];
    FirstsOfThree(a, b);
  }

  lemma LiveOne(item: Item, e: Entry)
    requires item.hash == Some(e)
    ensures Live([item]) == [e]
  {
    assert [item][..0] == [];
  }

  lemma TwoReplies(p: Reply, q: Reply, max: nat)
    requires p.cursor != 0 && q.cursor == 0
    ensures WholeScan([p, q]) && AllLive([p, q]) == Live(p.items) + Live(q.items)
    ensures Seen([p, q], 0, max) == if |Live(p.items)| >= max then Live(p.items) else Live(p.items) + Live(q.items)
  {
    hide Live;
    assert [p, q][1..] == [q] && [q][1..] == [];
    assert AllLive([q]) == Live(q.items) + [];
  }

  lemma FirstsOfThree(a: Entry, b: Entry)
    ensures Firsts([a, b]) == Firsts([a, a, b])
  {
    assert [a, b][..1] == [a] && [a, a, b][..2] == [a, a] && [a, a][..1] == [a] && [a][..0] == [];
    assert Firsts([a]) == [a] && Firsts([a, a]) == [a];
  }

  // ---------------------------------------------------------------- the object

  /** A hash, and when it expires; a key that was never given an expiry stays. */
  datatype Stored = Stored(entry: Entry, expires: Option<int>)

  /** The vector that serialisation keeps: each coordinate rounded. */
  function Narrow(round: real -> real, v: Vector): (r: Vector)
    ensures |r| == |v|
  {
    seq(|v|, i requires 0 <= i < |v| => round(v[i]))
  }

  predicate AliveAt(h: Stored, time: int) {
    h.expires.None? || time < h.expires.value
  }

  class SemanticCache {
    const threshold: real
    const ttl: nat
    /** Rounding to 32 bits. */
    const round: real -> real
    /** The hashes in Redis under this cache's prefix; times are in milliseconds. */
    var hashes: map<Key, Stored>

    constructor (round: real -> real, threshold: real := 0.92, ttl: nat := 3600)
      ensures hashes == map[] && this.threshold == threshold && this.ttl == ttl && this.round == round
    {
      this.round, this.threshold, this.ttl := round, threshold, ttl;
      hashes := map[];
    }

    method Lookup(root: real -> real, query: Vector, replies: seq<Reply>, maxCandidates: nat := 200)
      returns (r: Option<Hit>)
      requires WholeScan(replies) && Fits(query, replies)
      ensures AllFit(query, Seen(replies, 0, maxCandidates))
      ensures Outcome(Hits(root, query, Seen(replies, 0, maxCandidates)), threshold, r)
      ensures r.Some? ==>
        && r.value.similarity >= threshold
        && exists i :: TellsOf(root, query, Seen(replies, 0, maxCandidates), r.value, i)
      ensures r.None? ==> forall e :: e in Seen(replies, 0, maxCandidates) ==>
        Cosine(root, query, e.embedding) < threshold || Cosine(root, query, e.embedding) <= -1.0
    {
      hide Cosine, Live, Candidate, Outcome, Seen, TellsOf;
      var bestScore, best := -1.0, None;
      var scanned, i := 0, 0;
      ghost var seen := [];
      SeenFits(query, replies, 0, maxCandidates);
      NoCandidate(root, query);
      assert replies[0..] == replies;
      while true
        invariant 0 <= i < |replies| && scanned == |seen|
        invariant AllFit(query, seen) && Candidate(Hits(root, query, seen), bestScore, best)
        invariant Seen(replies, 0, maxCandidates) == seen + Seen(replies[i..], scanned, maxCandidates)
        decreases |replies| - i
      {
        var cursor := replies[i].cursor;
        SeenStep(replies, i, scanned, maxCandidates);
        bestScore, best, scanned, seen := ScanBatch(root, query, replies[i].items, bestScore, best, scanned, seen);
        if cursor == 0 || scanned >= maxCandidates {
          break;
        }
        i := i + 1;
      }
      assert seen == Seen(replies, 0, maxCandidates);
      CandidateToOutcome(Hits(root, query, seen), bestScore, best, threshold);
      OutcomeTells(root, query, seen, threshold, if best.Some? && bestScore >= threshold then best else None);
      if best.Some? && bestScore >= threshold {
        return best;
      }
      return None;
    }

    /** The inner loop over the keys of one reply. */
    method ScanBatch(
      root: real -> real, query: Vector, items: seq<Item>, score0: real, best0: Option<Hit>, scanned0: nat,
      ghost seen0: seq<Entry>)
      returns (score: real, best: Option<Hit>, scanned: nat, ghost seen: seq<Entry>)
      requires forall j :: 0 <= j < |items| && items[j].hash.Some? ==> |items[j].hash.value.embedding| == |query|
      requires AllFit(query, seen0) && Candidate(Hits(root, query, seen0), score0, best0)
      ensures seen == seen0 + Live(items) && scanned == scanned0 + |Live(items)|
      ensures AllFit(query, seen) && Candidate(Hits(root, query, seen), score, best)
    {
      hide Cosine, Candidate;
      score, best, scanned, seen := score0, best0, scanned0, seen0;
      for k := 0 to |items|
        invariant seen == seen0 + Live(items[..k]) && scanned == scanned0 + |Live(items[..k])|
        invariant AllFit(query, seen) && Candidate(Hits(root, query, seen), score, best)
      {
        assert items[..k + 1][..k] == items[..k];
        if items[k].hash.None? {
          assert Live(items[..k + 1]) == Live(items[..k]);
          continue;
        }
        var e := items[k].hash.value;
        var hit := HitOf(root, query, e);
        CandidateStep(Hits(root, query, seen), hit, score, best);
        if hit.similarity > score {
          score, best := hit.similarity, Some(hit);
        }
        assert Hits(root, query, seen + [e]) == Hits(root, query, seen) + [hit];
        scanned := scanned + 1;
        seen := seen + [e];
      }
      assert items[..|items|] == items;
    }

    /**
      Two commands: the hash is written, which keeps the expiry of a living key, and then its expiry is set,
      which may fail.
    */
    method Store(now: int, hash: nat, query: string, embedding: Vector, trajectory: string, expireFails: bool)
      returns (raised: bool)
      modifies this
      ensures raised == expireFails
      ensures var key := Key(now, hash % 0x1_0000_0000);
        var kept := if key in old(hashes) && AliveAt(old(hashes)[key], now) then old(hashes)[key].expires else None;
        var entry := Entry(Narrow(round, embedding), query, trajectory);
        hashes == old(hashes)[key := Stored(entry, if raised then kept else Some(now + ttl * 1000))]
      ensures var stored := hashes[Key(now, hash % 0x1_0000_0000)];
        && stored.entry.query == query && stored.entry.trajectory == trajectory
        && |stored.entry.embedding| == |embedding|
        && (forall i :: 0 <= i < |embedding| ==> stored.entry.embedding[i] == round(embedding[i]))
        && (!raised ==> forall time :: AliveAt(stored, time) <==> time < now + ttl * 1000)
    {
      var key, entry := Key(now, hash % 0x1_0000_0000), Entry(Narrow(round, embedding), query, trajectory);
      var kept := if key in hashes && AliveAt(hashes[key], now) then hashes[key].expires else None;
      hashes := hashes[key := Stored(entry, kept)];
      if expireFails {
        return true;
      }
      hashes := hashes[key := Stored(entry, Some(now + ttl * 1000))];
      return false;
    }

    /** SCAN's promise: a key that is there from the start of a whole scan to its end is returned. */
    ghost predicate Covers(replies: seq<Reply>, end: int)
      reads this
    {
      forall k :: k in hashes && AliveAt(hashes[k], end) ==>
        exists i, j :: 0 <= i < |replies| && 0 <= j < |replies[i].items| &&
                       replies[i].items[j] == Item(k, Some(hashes[k].entry))
    }

    lemma CoveredIsLive(replies: seq<Reply>, end: int, k: Key)
      requires Covers(replies, end) && k in hashes && AliveAt(hashes[k], end)
      ensures hashes[k].entry in AllLive(replies)
    {
      var i, j :| 0 <= i < |replies| && 0 <= j < |replies[i].items| &&
                  replies[i].items[j] == Item(k, Some(hashes[k].entry));
      LiveContains(replies[i].items, j);
      AllLiveContains(replies, i, hashes[k].entry);
    }

    /**
      What was stored for a query is found by the same query: while the entry has not expired or been
      overwritten, a scan in which everything is compared gives a hit at least as similar as the query is to its
      own rounding, if that reaches the threshold.
    */
    lemma StoredIsFound(
      root: real -> real, query: Vector, replies: seq<Reply>, end: int, k: Key, max: nat, r: Option<Hit>)
      requires IsRoot(root) && WholeScan(replies) && Fits(query, replies) && Covers(replies, end)
      requires Seen(replies, 0, max) == AllLive(replies)
      requires k in hashes && AliveAt(hashes[k], end) && hashes[k].entry.embedding == Narrow(round, query)
      requires AllFit(query, Seen(replies, 0, max)) && Outcome(Hits(root, query, Seen(replies, 0, max)), threshold, r)
      ensures var kept := Cosine(root, query, Narrow(round, query));
        kept > -1.0 && kept >= threshold ==> r.Some? && kept <= r.value.similarity <= 1.0
      ensures var stored := hashes[k].entry; var kept := Cosine(root, query, stored.embedding);
        && r.Some?
        && (forall e :: e in Seen(replies, 0, max) && e != stored ==> Cosine(root, query, e.embedding) < kept)
        ==> r.value == Hit(stored.query, stored.trajectory, kept)
      ensures threshold > 1.0 ==> r == None
    {
      hide Cosine, Dot, Narrow;
      CoveredIsLive(replies, end, k);
      var entries := AllLive(replies);
      var i :| 0 <= i < |entries| && entries[i] == hashes[k].entry;
      var hits := Hits(root, query, entries);
      assert hits[i].similarity == Cosine(root, query, Narrow(round, query));
      if r.Some? {
        OutcomeTells(root, query, entries, threshold, r);
        var b :| TellsOf(root, query, entries, r.value, b);
        assert entries[b] in entries;
        CosineBounded(root, query, entries[b].embedding);
      }
    }

    /** Where rounding changes nothing, or in exact reals, the similarity is one, unless the embedding is zero. */
    lemma StoredIsFoundExactly(root: real -> real, query: Vector, replies: seq<Reply>, end: int, k: Key, max: nat,
                               r: Option<Hit>)
      requires IsRoot(root) && WholeScan(replies) && Fits(query, replies) && Covers(replies, end)
      requires Seen(replies, 0, max) == AllLive(replies)
      requires k in hashes && AliveAt(hashes[k], end) && hashes[k].entry.embedding == Narrow(round, query) == query
      requires AllFit(query, Seen(replies, 0, max)) && Outcome(Hits(root, query, Seen(replies, 0, max)), threshold, r)
      ensures Dot(query, query) != 0.0 && threshold <= 1.0 ==> r.Some? && r.value.similarity == 1.0
    {
      hide Cosine, Dot, Narrow;
      CosineSelf(root, query);
      StoredIsFound(root, query, replies, end, k, max, r);
    }
  }

  lemma {:induction false} LiveContains(items: seq<Item>, j: nat)
    requires j < |items| && items[j].hash.Some?
    ensures items[j].hash.value in Live(items)
  {
    var n := |items| - 1;
    if j < n {
      LiveContains(items[..n], j);
    }
  }

  lemma {:induction false} AllLiveContains(replies: seq<Reply>, i: nat, e: Entry)
    requires i < |replies| && e in Live(replies[i].items)
    ensures e in AllLive(replies)
  {
    if i > 0 {
      AllLiveContains(replies[1..], i - 1, e);
    }
  }
}
