/**
  What the regex layer guarantees for every text: nothing a rule matches is left, no match is
  created on the way, and the log is enough to rebuild the text.
*/
module RedactionFacts {
  import opened Rendering
  import opened Regex
  import opened Redaction

  ghost predicate UntouchedByAll(u: Unicode, rules: seq<Rule>, w: string) {
    forall k :: 0 <= k < |rules| ==> Untouched(u, Tag(rules[k].name), w)
  }

  /** A pattern the tags cannot interfere with: bracketless, and matching nothing inside any tag. */
  ghost predicate Foreign(u: Unicode, re: Re, rules: seq<Rule>) {
    forall w: string :: Accepts(u, re, w) ==> UntouchedByAll(u, rules, w)
  }

  lemma ForeignUntouched(u: Unicode, re: Re, rules: seq<Rule>, k: nat, w: string)
    requires Foreign(u, re, rules) && Accepts(u, re, w) && k < |rules|
    ensures Untouched(u, Tag(rules[k].name), w)
  {
  }

  ghost predicate Tagged(rules: seq<Rule>) {
    && NonEmptyRules(rules)
    && (forall k :: 0 <= k < |rules| ==> TagShaped(Tag(rules[k].name)))
    && (forall j, k :: 0 <= j < k < |rules| ==> rules[j].name != rules[k].name)
  }

  lemma TaggedPrefix(rules: seq<Rule>, n: nat)
    requires Tagged(rules) && n <= |rules|
    ensures Tagged(rules[..n])
  {
  }

  // ---------------------------------------------------------------- completeness

  /** One pass brings no text into place: each one was already there, clear of what was cut. */
  lemma PassCreatesNothing(cfg: Settings, rule: Rule, s: string, a: nat, w: string) returns (x: nat)
    requires BracketsAreNotWords(cfg.u) && 1 <= MinLength(rule.body)
    requires TagShaped(Tag(rule.name)) && Untouched(cfg.u, Tag(rule.name), w)
    requires At(cfg.u, PassFrom(cfg, rule, s, 0).text, a, w)
    ensures At(cfg.u, s, x, w) && ClearOf(PassCuts(cfg, rule, s, 0), x, x + |w|)
  {
    PassCutsAreCuts(cfg, rule, s, 0);
    x := Origin(cfg.u, s, 0, PassCuts(cfg, rule, s, 0), Tag(rule.name), a, w);
  }

  /** The k-th match a scan reports is one the callback refuses. */
  predicate RefusedAt(cfg: Settings, rule: Rule, s: string, k: nat)
    requires 1 <= MinLength(rule.body)
  {
    var ms := Matches(cfg.u, rule.body, s, 0);
    k < |ms| && !Redacts(cfg, rule.name, TextOf(s, ms[k]))
  }

  lemma {:induction false} RedactedMember(cfg: Settings, name: string, s: string, ms: seq<Span>, k: nat)
    requires k < |ms| && Redacts(cfg, name, TextOf(s, ms[k]))
    ensures ms[k] in Redacted(cfg, name, s, ms)
  {
    if k > 0 {
      RedactedMember(cfg, name, s, ms[1..], k - 1);
    }
  }

  lemma {:induction false} RedactedFrom(cfg: Settings, name: string, s: string, ms: seq<Span>, c: Span)
    requires c in Redacted(cfg, name, s, ms)
    ensures exists k :: 0 <= k < |ms| && ms[k] == c && Redacts(cfg, name, TextOf(s, ms[k]))
  {
    if !(ms[0] == c && Redacts(cfg, name, TextOf(s, ms[0]))) {
      RedactedFrom(cfg, name, s, ms[1..], c);
      var k :| 0 <= k < |ms[1..]| && ms[1..][k] == c && Redacts(cfg, name, TextOf(s, ms[1..][k]));
      assert ms[k + 1] == c;
    }
  }

  /** A match that a pass does not cut into overlaps a reported match that the callback refused. */
  lemma UncutIsRefused(cfg: Settings, rule: Rule, s: string, x: nat, w: string)
    requires 1 <= MinLength(rule.body) && MatchAt(cfg.u, rule.body, s, x, w)
    requires ClearOf(PassCuts(cfg, rule, s, 0), x, x + |w|)
    ensures exists k: nat :: RefusedAt(cfg, rule, s, k) && !Apart(x, x + |w|, Matches(cfg.u, rule.body, s, 0)[k])
  {
    var ms := Matches(cfg.u, rule.body, s, 0);
    ScanIsMaximal(cfg.u, rule.body, s, 0, x, w);
    var k :| 0 <= k < |ms| && !Apart(x, x + |w|, ms[k]);
    if Redacts(cfg, rule.name, TextOf(s, ms[k])) {
      RedactedMember(cfg, rule.name, s, ms, k);
    }
    assert RefusedAt(cfg, rule, s, k);
  }

  /** The callback refuses nothing that the scan reports: the condition under which a pass clears its rule. */
  ghost predicate AllRedacted(cfg: Settings, rule: Rule, s: string)
    requires 1 <= MinLength(rule.body)
  {
    forall k: nat :: !RefusedAt(cfg, rule, s, k)
  }

  /** `w` stands somewhere in `s` between word boundaries. */
  ghost predicate Stands(u: Unicode, s: string, w: string) {
    exists x: nat :: At(u, s, x, w)
  }

  lemma PassClearsAt(cfg: Settings, rule: Rule, s: string, a: nat, w: string)
    requires BracketsAreNotWords(cfg.u) && 1 <= MinLength(rule.body) && AllRedacted(cfg, rule, s)
    requires TagShaped(Tag(rule.name)) && Untouched(cfg.u, Tag(rule.name), w)
    requires Accepts(cfg.u, rule.body, w)
    ensures !At(cfg.u, PassFrom(cfg, rule, s, 0).text, a, w)
  {
    if At(cfg.u, PassFrom(cfg, rule, s, 0).text, a, w) {
      var x := PassCreatesNothing(cfg, rule, s, a, w);
      UncutIsRefused(cfg, rule, s, x, w);
      assert false;
    }
  }

  /** A pass that redacts all it finds leaves none of the texts its rule matches. */
  lemma PassClears(cfg: Settings, rule: Rule, s: string, w: string)
    requires BracketsAreNotWords(cfg.u) && 1 <= MinLength(rule.body) && AllRedacted(cfg, rule, s)
    requires TagShaped(Tag(rule.name)) && Untouched(cfg.u, Tag(rule.name), w)
    requires Accepts(cfg.u, rule.body, w)
    ensures !Stands(cfg.u, PassFrom(cfg, rule, s, 0).text, w)
  {
    forall a: nat ensures !At(cfg.u, PassFrom(cfg, rule, s, 0).text, a, w) {
      PassClearsAt(cfg, rule, s, a, w);
    }
  }

  lemma PassFindsNothingNew(cfg: Settings, rule: Rule, s: string, w: string)
    requires BracketsAreNotWords(cfg.u) && 1 <= MinLength(rule.body)
    requires TagShaped(Tag(rule.name)) && Untouched(cfg.u, Tag(rule.name), w)
    requires Stands(cfg.u, PassFrom(cfg, rule, s, 0).text, w)
    ensures Stands(cfg.u, s, w)
  {
    var a: nat :| At(cfg.u, PassFrom(cfg, rule, s, 0).text, a, w);
    var x := PassCreatesNothing(cfg, rule, s, a, w);
  }

  /**
    What a pass leaves, exactly: a text with word ends stands in its output if and only if it stood
    somewhere in its input clear of every span that was cut.
  */
  lemma PassLeaves(cfg: Settings, rule: Rule, s: string, w: string)
    requires BracketsAreNotWords(cfg.u) && 1 <= MinLength(rule.body) && WordEnds(cfg.u, w)
    requires TagShaped(Tag(rule.name)) && Untouched(cfg.u, Tag(rule.name), w)
    ensures Stands(cfg.u, PassFrom(cfg, rule, s, 0).text, w) <==>
            exists x: nat :: At(cfg.u, s, x, w) && ClearOf(PassCuts(cfg, rule, s, 0), x, x + |w|)
  {
    var out := PassFrom(cfg, rule, s, 0).text;
    if Stands(cfg.u, out, w) {
      var a: nat :| At(cfg.u, out, a, w);
      var x := PassCreatesNothing(cfg, rule, s, a, w);
    }
    if x: nat :| At(cfg.u, s, x, w) && ClearOf(PassCuts(cfg, rule, s, 0), x, x + |w|) {
      PassCutsAreCuts(cfg, rule, s, 0);
      var a := Kept(cfg.u, s, 0, PassCuts(cfg, rule, s, 0), Tag(rule.name), x, w);
    }
  }

  lemma {:induction false} CutsApart(u: Unicode, s: string, pos: nat, cuts: seq<Span>, j: nat, k: nat)
    requires Cuts(u, s, pos, cuts) && j < |cuts| && k < |cuts| && j != k
    ensures Apart(cuts[j].start, cuts[j].end, cuts[k])
    decreases |cuts|
  {
    CutsInside(u, s, cuts[0].end, cuts[1..]);
    if j == 0 {
      assert cuts[k] == cuts[1..][k - 1];
    } else if k == 0 {
      assert cuts[j] == cuts[1..][j - 1];
    } else {
      CutsApart(u, s, cuts[0].end, cuts[1..], j - 1, k - 1);
    }
  }

  /** A refused match stays in place whole: no other match overlaps it. */
  lemma RefusedIsUncut(cfg: Settings, rule: Rule, s: string, k: nat)
    requires 1 <= MinLength(rule.body) && RefusedAt(cfg, rule, s, k)
    ensures var m := Matches(cfg.u, rule.body, s, 0)[k];
      && m.start < m.end <= |s| && MatchAt(cfg.u, rule.body, s, m.start, s[m.start..m.end])
      && ClearOf(PassCuts(cfg, rule, s, 0), m.start, m.end)
  {
    var ms, cuts := Matches(cfg.u, rule.body, s, 0), PassCuts(cfg, rule, s, 0);
    MatchesAreCuts(cfg.u, rule.body, s, 0);
    MatchesMatch(cfg.u, rule.body, s, 0, k);
    forall c | 0 <= c < |cuts| ensures Apart(ms[k].start, ms[k].end, cuts[c]) {
      RedactedFrom(cfg, rule.name, s, ms, cuts[c]);
      var j :| 0 <= j < |ms| && ms[j] == cuts[c] && Redacts(cfg, rule.name, TextOf(s, ms[j]));
      CutsApart(cfg.u, s, 0, ms, k, j);
    }
  }

  lemma {:induction false} MatchesMatch(u: Unicode, re: Re, s: string, pos: nat, k: nat)
    requires pos <= |s| && 1 <= MinLength(re) && k < |Matches(u, re, s, pos)|
    ensures var m := Matches(u, re, s, pos)[k];
      pos <= m.start < m.end <= |s| && MatchAt(u, re, s, m.start, s[m.start..m.end])
    decreases |s| - pos
  {
    FoundNotEmpty(u, re, s, pos);
    SearchCorrect(u, re, s, pos);
    if k > 0 {
      MatchesMatch(u, re, s, Search(u, re, s, pos).value.end, k - 1);
    }
  }

  /** A pass that finds nothing, or refuses all it finds, changes nothing. */
  lemma PassIdle(cfg: Settings, rule: Rule, s: string)
    requires 1 <= MinLength(rule.body)
    requires MatchFree(cfg.u, rule.body, s) || PassCuts(cfg, rule, s, 0) == []
    ensures PassFrom(cfg, rule, s, 0) == Outcome(s, [])
  {
    if MatchFree(cfg.u, rule.body, s) && Matches(cfg.u, rule.body, s, 0) != [] {
      MatchesMatch(cfg.u, rule.body, s, 0, 0);
    }
    assert s[0..] == s;
  }

  /** Passes that find nothing in what the first n of them made leave it so. */
  lemma {:induction false} IdleAfter(cfg: Settings, rules: seq<Rule>, s: string, n: nat)
    requires NonEmptyRules(rules) && n <= |rules|
    requires forall k :: n <= k < |rules| ==> MatchFree(cfg.u, rules[k].body, RunRules(cfg, rules[..n], s).text)
    ensures RunRules(cfg, rules, s).text == RunRules(cfg, rules[..n], s).text
    decreases |rules|
  {
    hide MatchFree, PassFrom, PassCuts, MinLength;
    if n == |rules| {
      assert rules[..n] == rules;
    } else {
      var l := |rules| - 1;
      assert rules[..l][..n] == rules[..n];
      IdleAfter(cfg, rules[..l], s, n);
      PassIdle(cfg, rules[l], RunRules(cfg, rules[..l], s).text);
    }
  }

  /** What stands in the final text stood in it after any of the passes. */
  lemma {:induction false} NothingCreatedSince(cfg: Settings, rules: seq<Rule>, s: string, n: nat, w: string)
    requires BracketsAreNotWords(cfg.u) && Tagged(rules) && UntouchedByAll(cfg.u, rules, w) && n <= |rules|
    requires Stands(cfg.u, RunRules(cfg, rules, s).text, w)
    ensures NonEmptyRules(rules[..n]) && Stands(cfg.u, RunRules(cfg, rules[..n], s).text, w)
    decreases |rules|
  {
    hide Stands, UntouchedByAll, Untouched, TagShaped, PassFrom, MinLength;
    TaggedPrefix(rules, n);
    if n == |rules| {
      assert rules[..n] == rules;
    } else {
      var l := |rules| - 1;
      RulePrefix(cfg, rules, s, l, w);
      PassFindsNothingNew(cfg, rules[l], RunRules(cfg, rules[..l], s).text, w);
      NothingCreatedSince(cfg, rules[..l], s, n, w);
      assert rules[..l][..n] == rules[..n];
    }
  }

  /** Whatever untouched text stands between word boundaries in the output stood so in the input. */
  lemma NothingCreated(cfg: Settings, rules: seq<Rule>, s: string, w: string)
    requires BracketsAreNotWords(cfg.u) && Tagged(rules) && UntouchedByAll(cfg.u, rules, w)
    requires Stands(cfg.u, RunRules(cfg, rules, s).text, w)
    ensures Stands(cfg.u, s, w)
  {
    NothingCreatedSince(cfg, rules, s, 0, w);
    assert rules[..0] == [];
  }

  /** The pass of the k-th rule refuses nothing it finds in the text it is given. */
  ghost predicate ClearsAll(cfg: Settings, rules: seq<Rule>, s: string, k: nat)
    requires NonEmptyRules(rules) && k < |rules|
  {
    AllRedacted(cfg, rules[k], RunRules(cfg, rules[..k], s).text)
  }

  /** After all rules no text that a rule matches is left if its pass redacted all it found: it cleared it for good. */
  lemma {:induction false} TextCleared(cfg: Settings, rules: seq<Rule>, s: string, k: nat, w: string)
    requires BracketsAreNotWords(cfg.u) && Tagged(rules) && UntouchedByAll(cfg.u, rules, w)
    requires k < |rules| && ClearsAll(cfg, rules, s, k) && Accepts(cfg.u, rules[k].body, w)
    ensures !Stands(cfg.u, RunRules(cfg, rules, s).text, w)
    decreases |rules|
  {
    hide AllRedacted, Accepts, UntouchedByAll, Untouched, Stands, TagShaped, PassFrom, MinLength;
    var n := |rules| - 1;
    RulePrefix(cfg, rules, s, n, w);
    var before := RunRules(cfg, rules[..n], s).text;
    if k == n {
      PassClears(cfg, rules[n], before, w);
    } else {
      assert rules[..n][..k] == rules[..k];
      TextCleared(cfg, rules[..n], s, k, w);
      PassKeepsAway(cfg, rules[n], before, w);
    }
  }

  lemma RulePrefix(cfg: Settings, rules: seq<Rule>, s: string, n: nat, w: string)
    requires Tagged(rules) && UntouchedByAll(cfg.u, rules, w) && n < |rules|
    ensures Tagged(rules[..n]) && UntouchedByAll(cfg.u, rules[..n], w)
    ensures TagShaped(Tag(rules[n].name)) && Untouched(cfg.u, Tag(rules[n].name), w)
  {
    TaggedPrefix(rules, n);
  }

  lemma PassKeepsAway(cfg: Settings, rule: Rule, s: string, w: string)
    requires BracketsAreNotWords(cfg.u) && 1 <= MinLength(rule.body)
    requires TagShaped(Tag(rule.name)) && Untouched(cfg.u, Tag(rule.name), w)
    ensures Stands(cfg.u, PassFrom(cfg, rule, s, 0).text, w) ==> Stands(cfg.u, s, w)
  {
    if Stands(cfg.u, PassFrom(cfg, rule, s, 0).text, w) {
      PassFindsNothingNew(cfg, rule, s, w);
    }
  }

  /**
    Redaction completeness.  After all passes no rule matches anywhere in the output whose own pass
    redacted everything it found: that pass cleared it, and no later one brought a match back.  A rule
    without a callback always does; a filtered one does if none of the reported matches is refused.
  */
  lemma Complete(cfg: Settings, rules: seq<Rule>, s: string, k: nat)
    requires BracketsAreNotWords(cfg.u) && Tagged(rules)
    requires k < |rules| && Foreign(cfg.u, rules[k].body, rules)
    ensures Unfiltered(cfg, rules[k]) ==> ClearsAll(cfg, rules, s, k)
    ensures ClearsAll(cfg, rules, s, k) ==> MatchFree(cfg.u, rules[k].body, RunRules(cfg, rules, s).text)
  {
    if !ClearsAll(cfg, rules, s, k) {
      return;
    }
    var r := RunRules(cfg, rules, s).text;
    forall x: nat, w: string ensures !MatchAt(cfg.u, rules[k].body, r, x, w) {
      if MatchAt(cfg.u, rules[k].body, r, x, w) {
        TextCleared(cfg, rules, s, k, w);
        assert false;
      }
    }
  }

  /** The n-th pass finds w in its input and cuts nothing of it. */
  ghost predicate LeftClear(cfg: Settings, rules: seq<Rule>, s: string, n: nat, w: string)
    requires NonEmptyRules(rules) && n < |rules|
  {
    var before := RunRules(cfg, rules[..n], s).text;
    exists x: nat :: At(cfg.u, before, x, w) && ClearOf(PassCuts(cfg, rules[n], before, 0), x, x + |w|)
  }

  lemma ClearStep(cfg: Settings, rules: seq<Rule>, s: string, n: nat, w: string)
    requires BracketsAreNotWords(cfg.u) && Tagged(rules) && UntouchedByAll(cfg.u, rules, w) && WordEnds(cfg.u, w)
    requires n < |rules|
    ensures NonEmptyRules(rules[..n + 1])
    ensures LeftClear(cfg, rules, s, n, w) <==> Stands(cfg.u, RunRules(cfg, rules[..n + 1], s).text, w)
  {
    hide Stands, UntouchedByAll, Untouched, TagShaped;
    RulePrefix(cfg, rules, s, n, w);
    assert rules[..n + 1][..n] == rules[..n];
    PassLeaves(cfg, rules[n], RunRules(cfg, rules[..n], s).text, w);
  }

  /** A text with word ends stands in the output if and only if every pass finds it and cuts nothing of it. */
  lemma Survives(cfg: Settings, rules: seq<Rule>, s: string, w: string)
    requires BracketsAreNotWords(cfg.u) && Tagged(rules) && UntouchedByAll(cfg.u, rules, w) && WordEnds(cfg.u, w)
    requires rules != []
    ensures Stands(cfg.u, RunRules(cfg, rules, s).text, w) <==>
            forall n: nat :: n < |rules| ==> LeftClear(cfg, rules, s, n, w)
  {
    hide Stands, UntouchedByAll, LeftClear, RunRules;
    assert rules[..|rules|] == rules;
    ClearStep(cfg, rules, s, |rules| - 1, w);
    if Stands(cfg.u, RunRules(cfg, rules, s).text, w) {
      forall n: nat | n < |rules| ensures LeftClear(cfg, rules, s, n, w) {
        NothingCreatedSince(cfg, rules, s, n + 1, w);
        ClearStep(cfg, rules, s, n, w);
      }
    } else {
      assert !LeftClear(cfg, rules, s, |rules| - 1, w);
    }
  }

  // ---------------------------------------------------------------- round trip

  /** Put the values back in the place of the first tags, left to right. */
  function Undo(tag: string, s: string, values: seq<string>): string
    requires tag != ""
  {
    if values == [] || |s| < |tag| then s
    else if s[..|tag|] == tag then values[0] + Undo(tag, s[|tag|..], values[1..])
    else [s[0]] + Undo(tag, s[1..], values)
  }

  function ValuesFor(name: string, log: seq<Entry>): seq<string> {
    if log == [] then []
    else (if log[0].name == name then [log[0].originalSpan] else []) + ValuesFor(name, log[1..])
  }

  /** Undo the passes, last one first, with the values the log holds for each. */
  function UndoRules(rules: seq<Rule>, text: string, log: seq<Entry>): string {
    if rules == [] then text
    else
      var rule := rules[|rules| - 1];
      UndoRules(rules[..|rules| - 1], Undo(Tag(rule.name), text, ValuesFor(rule.name, log)), log)
  }

  predicate TagAt(tag: string, s: string, i: nat) {
    i + |tag| <= |s| && s[i..i + |tag|] == tag
  }

  ghost predicate TagFree(tag: string, s: string) {
    forall i: nat :: !TagAt(tag, s, i)
  }

  lemma TagAtIff(tag: string, s: string, i: nat)
    ensures TagAt(tag, s, i) <==> i + |tag| <= |s| && forall k :: 0 <= k < |tag| ==> s[i + k] == tag[k]
  {
    if i + |tag| <= |s| {
      var w := s[i..i + |tag|];
      assert forall k :: 0 <= k < |tag| ==> w[k] == s[i + k];
      if forall k :: 0 <= k < |tag| ==> s[i + k] == tag[k] {
        assert w == tag;
      }
    }
  }

  lemma {:induction false} UndoSkips(tag: string, gap: string, rest: string, values: seq<string>)
    requires tag != "" && forall i: nat :: i < |gap| ==> !TagAt(tag, gap + rest, i)
    ensures Undo(tag, gap + rest, values) == gap + Undo(tag, rest, values)
    decreases |gap|
  {
    var r := gap + rest;
    if gap == "" || values == [] {
      assert gap == "" ==> r == rest;
    } else {
      assert r[1..] == gap[1..] + rest;
      forall i: nat | i < |gap| - 1 ensures !TagAt(tag, gap[1..] + rest, i) {
        assert !TagAt(tag, r, i + 1);
        assert i + 1 + |tag| <= |r| ==> r[1..][i..i + |tag|] == r[i + 1..i + 1 + |tag|];
      }
      UndoSkips(tag, gap[1..], rest, values);
      assert !TagAt(tag, r, 0);
      assert gap == [gap[0]] + gap[1..];
      if |r| < |tag| {
        assert |gap[1..] + rest| < |tag|;
      }
    }
  }

  /** A tag cannot start inside kept text that holds none and is followed by a bracket, or by nothing. */
  lemma NoTagInGap(tag: string, s: string, pos: nat, end: nat, rest: string, i: nat)
    requires TagShaped(tag) && TagFree(tag, s) && pos <= end <= |s|
    requires rest == "" || rest[0] == '['
    requires i < end - pos
    ensures !TagAt(tag, s[pos..end] + rest, i)
  {
    var r, g := s[pos..end] + rest, end - pos;
    TagAtIff(tag, r, i);
    TagAtIff(tag, s, pos + i);
    assert !TagAt(tag, s, pos + i);
    if i + |tag| > g && rest != "" {
      assert r[g] == '[' && r[g] == r[i + (g - i)];
    }
  }

  /** Undo at a tag takes the next value. */
  lemma UndoTakes(tag: string, tail: string, values: seq<string>)
    requires tag != "" && values != []
    ensures Undo(tag, tag + tail, values) == values[0] + Undo(tag, tail, values[1..])
  {
    assert (tag + tail)[..|tag|] == tag && (tag + tail)[|tag|..] == tail;
  }

  lemma UndoFirst(tag: string, s: string, pos: nat, end: nat, tail: string, values: seq<string>)
    requires TagShaped(tag) && TagFree(tag, s) && pos <= end <= |s| && values != []
    ensures Undo(tag, s[pos..end] + (tag + tail), values) == s[pos..end] + (values[0] + Undo(tag, tail, values[1..]))
  {
    var gap := s[pos..end];
    forall i: nat | i < |gap| ensures !TagAt(tag, gap + (tag + tail), i) {
      NoTagInGap(tag, s, pos, end, tag + tail, i);
    }
    UndoSkips(tag, gap, tag + tail, values);
    UndoTakes(tag, tail, values);
  }

  lemma Split(s: string, pos: nat, m: nat, n: nat)
    requires pos <= m <= n <= |s|
    ensures s[pos..m] + (s[m..n] + s[n..]) == s[pos..]
  {
  }

  /** Undoing a pass gives back the text it was given. */
  lemma {:induction false} UndoRender(u: Unicode, tag: string, s: string, pos: nat, cuts: seq<Span>)
    requires Cuts(u, s, pos, cuts) && TagShaped(tag) && TagFree(tag, s)
    ensures Undo(tag, Render(s, pos, cuts, tag), Values(s, cuts)) == s[pos..]
    decreases |cuts|
  {
    if |cuts| > 0 {
      var c, tail, values := cuts[0], Render(s, cuts[0].end, cuts[1..], tag), Values(s, cuts);
      UndoFirst(tag, s, pos, c.start, tail, values);
      UndoRender(u, tag, s, c.end, cuts[1..]);
      assert values[1..] == Values(s, cuts[1..]);
      Split(s, pos, c.start, c.end);
    }
  }

  /** A tag that starts inside a tag is that tag. */
  lemma OneTag(t1: string, t2: string, tail: string, i: nat)
    requires TagShaped(t1) && TagShaped(t2) && i < |t1| && TagAt(t2, t1 + tail, i)
    ensures t1 == t2
  {
    var r := t1 + tail;
    TagAtIff(t2, r, i);
    assert r[i + 0] == '[' && r[i] == t1[i];
    assert forall k :: 0 <= k < |t1| && k < |t2| ==> r[0 + k] == t1[k] == t2[k];
  }

  /** Two different tags: one does not start another. */
  lemma TagsDiffer(t1: string, t2: string, tail: string)
    requires TagShaped(t1) && TagShaped(t2) && t1 != t2
    ensures forall i: nat :: i < |t1| ==> !TagAt(t2, t1 + tail, i)
  {
    forall i: nat | i < |t1| ensures !TagAt(t2, t1 + tail, i) {
      if TagAt(t2, t1 + tail, i) {
        OneTag(t1, t2, tail, i);
        assert false;
      }
    }
  }

  /** A pass leaves a text free of the other tags. */
  lemma {:induction false} OtherTagsFree(u: Unicode, tag: string, other: string, s: string, pos: nat, cuts: seq<Span>)
    requires Cuts(u, s, pos, cuts) && TagShaped(tag) && TagShaped(other) && tag != other && TagFree(other, s)
    ensures TagFree(other, Render(s, pos, cuts, tag))
    decreases |cuts|
  {
    var r := Render(s, pos, cuts, tag);
    if cuts == [] {
      forall i: nat ensures !TagAt(other, r, i) {
        assert i + |other| <= |r| ==> r[i..i + |other|] == s[pos + i..pos + i + |other|];
        assert !TagAt(other, s, pos + i);
      }
    } else {
      var c := cuts[0];
      var gap, tail := s[pos..c.start], Render(s, c.end, cuts[1..], tag);
      OtherTagsFree(u, tag, other, s, c.end, cuts[1..]);
      TagsDiffer(tag, other, tail);
      forall i: nat ensures !TagAt(other, r, i) {
        if i < |gap| {
          NoTagInGap(other, s, pos, c.start, tag + tail, i);
        } else {
          TagShift(other, gap, tag + tail, i);
          if |gap| + |tag| <= i {
            TagShift(other, tag, tail, i - |gap|);
          }
        }
      }
    }
  }

  lemma TagShift(tag: string, front: string, back: string, i: nat)
    requires |front| <= i
    ensures TagAt(tag, front + back, i) <==> TagAt(tag, back, i - |front|)
  {
    var r, d := front + back, |front|;
    assert i + |tag| <= |r| ==> r[i..i + |tag|] == back[i - d..i - d + |tag|];
  }

  lemma {:induction false} ValuesForOwn(name: string, values: seq<string>)
    ensures ValuesFor(name, Entries(name, values)) == values
  {
    if values != [] {
      ValuesForOwn(name, values[1..]);
      assert Entries(name, values)[1..] == Entries(name, values[1..]);
    }
  }

  lemma {:induction false} ValuesForOther(name: string, other: string, values: seq<string>)
    requires name != other
    ensures ValuesFor(name, Entries(other, values)) == []
  {
    if values != [] {
      ValuesForOther(name, other, values[1..]);
      assert Entries(other, values)[1..] == Entries(other, values[1..]);
    }
  }

  lemma {:induction false} ValuesForConcat(name: string, a: seq<Entry>, b: seq<Entry>)
    ensures ValuesFor(name, a + b) == ValuesFor(name, a) + ValuesFor(name, b)
  {
    if a == [] {
      assert a + b == b;
    } else {
      assert (a + b)[1..] == a[1..] + b;
      ValuesForConcat(name, a[1..], b);
    }
  }

  ghost predicate AllTagsFree(rules: seq<Rule>, s: string) {
    forall k :: 0 <= k < |rules| ==> TagFree(Tag(rules[k].name), s)
  }

  /** The log has entries only under the names of the rules that ran. */
  lemma {:induction false} LogNames(cfg: Settings, rules: seq<Rule>, s: string, name: string)
    requires NonEmptyRules(rules) && forall k :: 0 <= k < |rules| ==> rules[k].name != name
    ensures ValuesFor(name, RunRules(cfg, rules, s).log) == []
    decreases |rules|
  {
    if rules != [] {
      var n := |rules| - 1;
      var before := RunRules(cfg, rules[..n], s);
      LogNames(cfg, rules[..n], s, name);
      ValuesForConcat(name, before.log, PassFrom(cfg, rules[n], before.text, 0).log);
      ValuesForOther(name, rules[n].name, Values(before.text, PassCuts(cfg, rules[n], before.text, 0)));
    }
  }

  lemma {:induction false} UndoIgnoresOthers(rules: seq<Rule>, text: string, log: seq<Entry>, log': seq<Entry>)
    requires forall k :: 0 <= k < |rules| ==> ValuesFor(rules[k].name, log) == ValuesFor(rules[k].name, log')
    ensures UndoRules(rules, text, log) == UndoRules(rules, text, log')
    decreases |rules|
  {
    if rules != [] {
      var rule := rules[|rules| - 1];
      UndoIgnoresOthers(rules[..|rules| - 1], Undo(Tag(rule.name), text, ValuesFor(rule.name, log)), log, log');
    }
  }

  /** No pass makes up a tag of a rule that has not run yet. */
  lemma {:induction false} LaterTagsFree(cfg: Settings, rules: seq<Rule>, s: string, name: string)
    requires Tagged(rules) && TagShaped(Tag(name)) && TagFree(Tag(name), s)
    requires forall k :: 0 <= k < |rules| ==> rules[k].name != name
    ensures TagFree(Tag(name), RunRules(cfg, rules, s).text)
    decreases |rules|
  {
    if rules != [] {
      var n := |rules| - 1;
      LaterTagsFree(cfg, rules[..n], s, name);
      var before := RunRules(cfg, rules[..n], s).text;
      PassCutsAreCuts(cfg, rules[n], before, 0);
      if Tag(rules[n].name) == Tag(name) {
        TagInjective(rules[n].name, name);
        assert false;
      }
      OtherTagsFree(cfg.u, Tag(rules[n].name), Tag(name), before, 0, PassCuts(cfg, rules[n], before, 0));
    }
  }

  lemma TagInjective(a: string, b: string)
    requires Tag(a) == Tag(b)
    ensures a == b
  {
    var p := "[REDACTED_";
    assert a == Tag(a)[|p|..|Tag(a)| - 1] && b == Tag(b)[|p|..|Tag(b)| - 1];
  }

  /** The log holds, under the last rule's name, exactly the values of its pass. */
  lemma LogOfLast(cfg: Settings, rules: seq<Rule>, s: string)
    requires Tagged(rules) && rules != []
    ensures var n := |rules| - 1;
      && NonEmptyRules(rules[..n])
      && var before := RunRules(cfg, rules[..n], s);
      && ValuesFor(rules[n].name, RunRules(cfg, rules, s).log) ==
           Values(before.text, PassCuts(cfg, rules[n], before.text, 0))
      && forall k :: 0 <= k < n ==>
           ValuesFor(rules[k].name, RunRules(cfg, rules, s).log) == ValuesFor(rules[k].name, before.log)
  {
    var n := |rules| - 1;
    var rule, prefix := rules[n], rules[..n];
    var before := RunRules(cfg, prefix, s);
    var values := Values(before.text, PassCuts(cfg, rule, before.text, 0));
    var own := Entries(rule.name, values);
    ValuesForConcat(rule.name, before.log, own);
    LogNames(cfg, prefix, s, rule.name);
    ValuesForOwn(rule.name, values);
    forall k | 0 <= k < n ensures ValuesFor(rules[k].name, before.log + own) == ValuesFor(rules[k].name, before.log) {
      ValuesForConcat(rules[k].name, before.log, own);
      ValuesForOther(rules[k].name, rule.name, values);
    }
  }

  lemma UndoPass(cfg: Settings, rule: Rule, s: string)
    requires 1 <= MinLength(rule.body) && TagShaped(Tag(rule.name)) && TagFree(Tag(rule.name), s)
    ensures Undo(Tag(rule.name), PassFrom(cfg, rule, s, 0).text, Values(s, PassCuts(cfg, rule, s, 0))) == s
  {
    PassCutsAreCuts(cfg, rule, s, 0);
    UndoRender(cfg.u, Tag(rule.name), s, 0, PassCuts(cfg, rule, s, 0));
  }

  /**
    Redaction round trip.  Putting the logged values back, last pass first and left to right, rebuilds any
    text that did not already contain one of the tags, whatever the card filter left in place.
  */
  lemma {:induction false} RoundTrip(cfg: Settings, rules: seq<Rule>, s: string)
    requires Tagged(rules) && AllTagsFree(rules, s)
    ensures var r := RunRules(cfg, rules, s); UndoRules(rules, r.text, r.log) == s
    decreases |rules|
  {
    if rules != [] {
      var n := |rules| - 1;
      LogOfLast(cfg, rules, s);
      LaterTagsFree(cfg, rules[..n], s, rules[n].name);
      var before := RunRules(cfg, rules[..n], s);
      UndoPass(cfg, rules[n], before.text);
      UndoIgnoresOthers(rules[..n], before.text, RunRules(cfg, rules, s).log, before.log);
      RoundTrip(cfg, rules[..n], s);
    }
  }

  lemma TagsNeedBracket(tag: string, s: string)
    requires TagShaped(tag) && '[' !in s
    ensures TagFree(tag, s)
  {
    forall i: nat ensures !TagAt(tag, s, i) {
      TagAtIff(tag, s, i);
      assert i < |s| ==> s[i + 0] != '[';
    }
  }

  /** In particular any text without an opening bracket comes back exactly. */
  lemma RoundTripWithoutBracket(cfg: Settings, rules: seq<Rule>, s: string)
    requires Tagged(rules) && '[' !in s
    ensures var r := RunRules(cfg, rules, s); UndoRules(rules, r.text, r.log) == s
  {
    forall k | 0 <= k < |rules| ensures TagFree(Tag(rules[k].name), s) {
      TagsNeedBracket(Tag(rules[k].name), s);
    }
    RoundTrip(cfg, rules, s);
  }
}
