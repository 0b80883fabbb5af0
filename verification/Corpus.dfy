/**
  The documents behind the sparse index: tokens, a dictionary kept in insertion order, and the two
  statistics that the scoring formula needs, each computed from scratch.
*/
module Corpus {

  type Term = string

  // ---------------------------------------------------------------- tokens

  predicate IsTokenChar(c: char) {
    'A' <= c <= 'Z' || 'a' <= c <= 'z' || '0' <= c <= '9' || c == '\''
  }

  function Lower(c: char): char {
    if 'A' <= c <= 'Z' then (c as int + 32) as char else c
  }

  function Closed(word: string): seq<Term> {
    if word == [] then [] else [word]
  }

  /** The tokens of a text whose scan has read the letters in word since the last separator. */
  function TokensFrom(word: string, text: string): seq<Term>
    decreases |text|
  {
    if text == [] then Closed(word)
    else if IsTokenChar(text[0]) then TokensFrom(word + [Lower(text[0])], text[1..])
    else Closed(word) + TokensFrom([], text[1..])
  }

  function Tokenize(text: string): seq<Term> {
    TokensFrom([], text)
  }

  /** Letters of the lower case, digits and apostrophes. */
  predicate IsWord(word: string) {
    forall i :: 0 <= i < |word| ==> IsTokenChar(word[i]) && !('A' <= word[i] <= 'Z')
  }

  lemma {:induction false} TokensAreWords(word: string, text: string)
    requires IsWord(word)
    ensures forall t :: t in TokensFrom(word, text) ==> t != [] && IsWord(t)
    decreases |text|
  {
    if text != [] {
      if IsTokenChar(text[0]) {
        TokensAreWords(word + [Lower(text[0])], text[1..]);
      } else {
        TokensAreWords([], text[1..]);
      }
    }
  }

  /** A separator ends the token before it: text on one side never changes the tokens of the other. */
  lemma {:induction false} TokensSplit(word: string, left: string, separator: char, right: string)
    requires !IsTokenChar(separator)
    ensures TokensFrom(word, left + [separator] + right) == TokensFrom(word, left) + Tokenize(right)
    decreases |left|
  {
    var text := left + [separator] + right;
    if left == [] {
      assert text[1..] == right;
    } else {
      assert text[1..] == left[1..] + [separator] + right;
      if IsTokenChar(left[0]) {
        TokensSplit(word + [Lower(left[0])], left[1..], separator, right);
      } else {
        TokensSplit([], left[1..], separator, right);
      }
    }
  }

  /** A word in lower case is read back as itself. */
  lemma {:induction false} TokensOfWord(read: string, word: string)
    requires IsWord(word)
    ensures TokensFrom(read, word) == Closed(read + word)
    decreases |word|
  {
    if word == [] {
      assert read + word == read;
    } else {
      TokensOfWord(read + [word[0]], word[1..]);
      assert read + [word[0]] + word[1..] == read + word;
    }
  }

  /** The same text but for the case of its letters: the k-th of the upper case is the k-th of the lower. */
  ghost predicate LowerCaseOf(text: string, lower: string) {
    && |text| == |lower|
    && forall i :: 0 <= i < |text| ==>
         if 'A' <= text[i] <= 'Z' then lower[i] as int - 'a' as int == text[i] as int - 'A' as int
         else lower[i] == text[i]
  }

  /** The case of letters does not matter. */
  lemma {:induction false} TokensFold(word: string, text: string, lower: string)
    requires LowerCaseOf(text, lower)
    ensures TokensFrom(word, text) == TokensFrom(word, lower)
    decreases |text|
  {
    if text != [] {
      assert LowerCaseOf(text[1..], lower[1..]);
      TokensFold(if IsTokenChar(text[0]) then word + [Lower(text[0])] else [], text[1..], lower[1..]);
    }
  }

  lemma TwoTokens(left: string, separator: char, right: string)
    requires !IsTokenChar(separator)
    requires left != [] && IsWord(left) && right != [] && IsWord(right)
    ensures Tokenize(left + [separator] + right) == [left, right]
  {
    hide TokensFrom, IsWord, IsTokenChar;
    TokensSplit([], left, separator, right);
    TokensOfWord([], left);
    TokensOfWord([], right);
    assert [] + left == left && [] + right == right;
  }

  /** A worked example: apostrophes and digits belong to words, hyphens do not. */
  lemma TokensExample()
    ensures Tokenize("IT'S-5") == ["it's", "5"]
  {
    hide TokensFrom, Lower;
    TokensFold("", "IT'S-5", "it's-5");
    TwoTokens("it's", '-', "5");
    assert "it's" + ['-'] + "5" == "it's-5";
  }

  /** Words with a blank after each. */
  function Spaced(words: seq<Term>): string {
    if words == [] then "" else words[0] + " " + Spaced(words[1..])
  }

  predicate AreWords(words: seq<Term>) {
    forall i :: 0 <= i < |words| ==> words[i] != [] && IsWord(words[i])
  }

  lemma {:induction false} SpacedTokens(words: seq<Term>)
    requires AreWords(words)
    ensures Tokenize(Spaced(words)) == words
  {
    if words != [] {
      SpacedTokens(words[1..]);
      TokensSplit([], words[0], ' ', Spaced(words[1..]));
      TokensOfWord([], words[0]);
      assert [] + words[0] == words[0] && words[0] + [' '] + Spaced(words[1..]) == Spaced(words);
      assert words == [words[0]] + words[1..];
    }
  }

  /** Tokenising is a normal form: the tokens of a text, written out again, have the same tokens. */
  lemma TokensRoundTrip(text: string)
    ensures Tokenize(Spaced(Tokenize(text))) == Tokenize(text)
  {
    TokensAreWords([], text);
    SpacedTokens(Tokenize(text));
  }

  // ---------------------------------------------------------------- the dictionary of documents

  datatype Entry = Entry(id: string, tokens: seq<Term>)

  predicate Distinct(c: seq<Entry>) {
    forall i, j :: 0 <= i < j < |c| ==> c[i].id != c[j].id
  }

  predicate Holds(c: seq<Entry>, id: string) {
    exists i :: 0 <= i < |c| && c[i].id == id
  }

  function IndexOf(c: seq<Entry>, id: string): (i: nat)
    requires Holds(c, id)
    ensures i < |c| && c[i].id == id
  {
    if c[|c| - 1].id == id then |c| - 1 else IndexOf(c[..|c| - 1], id)
  }

  /** Dictionary assignment: a known key keeps its place, a new one goes last. */
  function Put(c: seq<Entry>, e: Entry): seq<Entry> {
    if Holds(c, e.id) then c[IndexOf(c, e.id) := e] else c + [e]
  }

  /** The dictionary after a list of assignments. */
  function Stored(history: seq<Entry>): seq<Entry> {
    if history == [] then [] else Put(Stored(history[..|history| - 1]), history[|history| - 1])
  }

  lemma {:induction false} StoredDistinct(history: seq<Entry>)
    ensures Distinct(Stored(history))
  {
    if history != [] {
      StoredDistinct(history[..|history| - 1]);
    }
  }

  /** Assigning different keys only ever appends. */
  lemma {:induction false} StoredAsIs(history: seq<Entry>)
    requires Distinct(history)
    ensures Stored(history) == history
  {
    if history != [] {
      var n := |history| - 1;
      StoredAsIs(history[..n]);
      assert history[..n] + [history[n]] == history;
    }
  }

  /** A key has what was last assigned to it. */
  lemma {:induction false} StoredLast(history: seq<Entry>, i: nat)
    requires i < |history| && forall j :: i < j < |history| ==> history[j].id != history[i].id
    ensures history[i] in Stored(history)
  {
    var n := |history| - 1;
    var before, e := Stored(history[..n]), history[n];
    if i < n {
      StoredLast(history[..n], i);
      var k :| 0 <= k < |before| && before[k] == history[i];
      assert Put(before, e)[k] == history[i];
    } else {
      assert Holds(before, e.id) ==> Put(before, e)[IndexOf(before, e.id)] == e;
      assert !Holds(before, e.id) ==> Put(before, e)[|before|] == e;
    }
  }

  /** The keys in the order of their first assignments. */
  function FirstIds(history: seq<Entry>): seq<string> {
    if history == [] then []
    else
      var before := FirstIds(history[..|history| - 1]);
      var id := history[|history| - 1].id;
      if id in before then before else before + [id]
  }

  function IdsOf(c: seq<Entry>): (ids: seq<string>)
    ensures |ids| == |c| && forall i :: 0 <= i < |c| ==> ids[i] == c[i].id
  {
    seq(|c|, i requires 0 <= i < |c| => c[i].id)
  }

  lemma PutIds(c: seq<Entry>, e: Entry)
    ensures IdsOf(Put(c, e)) == if e.id in IdsOf(c) then IdsOf(c) else IdsOf(c) + [e.id]
  {
    if e.id in IdsOf(c) {
      var i :| 0 <= i < |c| && IdsOf(c)[i] == e.id;
      assert c[i].id == e.id;
    }
  }

  /** The dictionary lists every key once, in the order of first assignments. */
  lemma {:induction false} StoredOrder(history: seq<Entry>)
    ensures IdsOf(Stored(history)) == FirstIds(history)
  {
    hide Put, IdsOf;
    if history == [] {
      NoIds();
    } else {
      var n := |history| - 1;
      StoredOrder(history[..n]);
      PutIds(Stored(history[..n]), history[n]);
    }
  }

  lemma NoIds()
    ensures IdsOf([]) == []
  {
  }

  // ---------------------------------------------------------------- statistics

  function One(b: bool): nat { if b then 1 else 0 }

  /** How many documents contain a term. */
  function CountWith(c: seq<Entry>, t: Term): (n: nat)
    ensures n <= |c|
  {
    if c == [] then 0 else CountWith(c[..|c| - 1], t) + One(t in c[|c| - 1].tokens)
  }

  function TotalLength(c: seq<Entry>): nat {
    if c == [] then 0 else TotalLength(c[..|c| - 1]) + |c[|c| - 1].tokens|
  }

  function Mean(c: seq<Entry>): real {
    TotalLength(c) as real / (if |c| > 1 then |c| else 1) as real
  }

  /** The mean is one: it is 0 of nothing, and one more document moves it by its share of the difference. */
  lemma MeanLaw(c: seq<Entry>, e: Entry)
    ensures Mean([]) == 0.0
    ensures Mean(c + [e]) * (|c| + 1) as real == Mean(c) * |c| as real + |e.tokens| as real
  {
    assert (c + [e])[..|c|] == c;
    var n, total := |c| as real, TotalLength(c) as real;
    var mean, next := Mean(c), Mean(c + [e]);
    assert c == [] ==> TotalLength(c) == 0;
    assert |c| > 0 ==> mean * n == total;
    assert next * (|c| + 1) as real == TotalLength(c + [e]) as real;
  }

  lemma {:induction false} CountUpdate(c: seq<Entry>, i: nat, e: Entry, t: Term)
    requires i < |c|
    ensures CountWith(c[i := e], t) + One(t in c[i].tokens) == CountWith(c, t) + One(t in e.tokens)
  {
    var n := |c| - 1;
    if i == n {
      assert c[i := e][..n] == c[..n];
    } else {
      CountUpdate(c[..n], i, e, t);
      assert c[i := e][..n] == c[..n][i := e];
    }
  }

  lemma CountSnoc(c: seq<Entry>, e: Entry, t: Term)
    ensures CountWith(c + [e], t) == CountWith(c, t) + One(t in e.tokens)
  {
    assert (c + [e])[..|c|] == c;
  }

  lemma StoredSnoc(history: seq<Entry>, e: Entry)
    ensures Stored(history + [e]) == Put(Stored(history), e)
  {
    assert (history + [e])[..|history|] == history;
  }

  /** The i-th assignment overwrote a document that contained t. */
  predicate Overwrote(history: seq<Entry>, i: nat, t: Term)
    requires i < |history|
  {
    var before := Stored(history[..i]);
    Holds(before, history[i].id) && t in before[IndexOf(before, history[i].id)].tokens
  }

  function Overwritten(history: seq<Entry>, t: Term): nat {
    if history == [] then 0
    else Overwritten(history[..|history| - 1], t) + One(Overwrote(history, |history| - 1, t))
  }

  /** Counting at every assignment counts the overwritten documents too. */
  lemma {:induction false} CountStored(history: seq<Entry>, t: Term)
    ensures CountWith(history, t) == CountWith(Stored(history), t) + Overwritten(history, t)
  {
    if history != [] {
      var n := |history| - 1;
      var before, e := Stored(history[..n]), history[n];
      CountStored(history[..n], t);
      if Holds(before, e.id) {
        CountUpdate(before, IndexOf(before, e.id), e, t);
      } else {
        CountSnoc(before, e, t);
      }
    }
  }

  ghost predicate NeverOverwritten(history: seq<Entry>, t: Term) {
    forall i :: 0 <= i < |history| ==> !Overwrote(history, i, t)
  }

  lemma {:induction false} OverwrittenZero(history: seq<Entry>, t: Term)
    ensures Overwritten(history, t) == 0 <==> NeverOverwritten(history, t)
  {
    if history != [] {
      var n := |history| - 1;
      OverwrittenZero(history[..n], t);
      forall i | 0 <= i < n ensures Overwrote(history, i, t) <==> Overwrote(history[..n], i, t) {
        assert history[..n][..i] == history[..i];
      }
      if NeverOverwritten(history[..n], t) && !Overwrote(history, n, t) {
        assert NeverOverwritten(history, t);
      }
      if NeverOverwritten(history, t) {
        assert forall i :: 0 <= i < n ==> !Overwrote(history[..n], i, t);
      }
    }
  }

  /**
    Adding one per document at every assignment gives the true document frequency exactly when no
    assignment overwrote a document containing the term.
  */
  lemma IncrementsExact(history: seq<Entry>, t: Term)
    ensures CountWith(history, t) == CountWith(Stored(history), t) <==> NeverOverwritten(history, t)
    ensures CountWith(history, t) >= CountWith(Stored(history), t)
  {
    CountStored(history, t);
    OverwrittenZero(history, t);
  }

  /** With distinct keys nothing is overwritten. */
  lemma DistinctNeverOverwritten(history: seq<Entry>, t: Term)
    requires Distinct(history)
    ensures NeverOverwritten(history, t)
  {
    StoredAsIs(history);
    IncrementsExact(history, t);
  }
}
