/**
  The sanitizer's regex layer: one scan-and-replace pass per rule, in order, with a checksum
  filter on the card rule and a log of what was replaced.
*/
module Redaction {
  import opened Wrappers
  import opened Rendering
  import opened Regex
  import Luhn

  datatype Rule = Rule(name: string, body: Re)

  datatype Entry = Entry(name: string, originalSpan: string)

  datatype Settings = Settings(u: Unicode, luhnValidate: bool)

  datatype Outcome = Outcome(text: string, log: seq<Entry>)

  const CARD := "CREDIT_CARD"

  function Tag(name: string): string {
    "[REDACTED_" + name + "]"
  }

  /** The replacement callback: whether a matched value is redacted or left in place. */
  predicate Redacts(cfg: Settings, name: string, value: string) {
    !(name == CARD && cfg.luhnValidate && !Luhn.Check(cfg.u, value))
  }

  // ---------------------------------------------------------------- one pass

  /** All matches of a scan from `pos`: leftmost first, never overlapping. */
  function Matches(u: Unicode, re: Re, s: string, pos: nat): (ms: seq<Span>)
    requires pos <= |s| && 1 <= MinLength(re)
    decreases |s| - pos
  {
    match Search(u, re, s, pos)
    case None => []
    case Some(m) =>
      FoundNotEmpty(u, re, s, pos);
      [m] + Matches(u, re, s, m.end)
  }

  lemma FoundNotEmpty(u: Unicode, re: Re, s: string, pos: nat)
    requires pos <= |s| && 1 <= MinLength(re) && Search(u, re, s, pos).Some?
    ensures var m := Search(u, re, s, pos).value;
      pos <= m.start < m.end <= |s| && Boundary(u, s, m.start) && Boundary(u, s, m.end)
  {
    var m := Search(u, re, s, pos).value;
    SearchCorrect(u, re, s, pos);
    LongEnough(u, re, s[m.start..m.end]);
  }

  function TextOf(s: string, m: Span): string {
    if m.start <= m.end <= |s| then s[m.start..m.end] else ""
  }

  /** The spans of a scan that the callback redacts. */
  function Redacted(cfg: Settings, name: string, s: string, ms: seq<Span>): seq<Span> {
    if ms == [] then []
    else (if Redacts(cfg, name, TextOf(s, ms[0])) then [ms[0]] else []) + Redacted(cfg, name, s, ms[1..])
  }

  function PassCuts(cfg: Settings, rule: Rule, s: string, pos: nat): seq<Span>
    requires pos <= |s| && 1 <= MinLength(rule.body)
  {
    Redacted(cfg, rule.name, s, Matches(cfg.u, rule.body, s, pos))
  }

  function Entries(name: string, values: seq<string>): seq<Entry> {
    if values == [] then [] else [Entry(name, values[0])] + Entries(name, values[1..])
  }

  /** What `pattern.sub` does to the rest of the text from `pos`. */
  function PassFrom(cfg: Settings, rule: Rule, s: string, pos: nat): Outcome
    requires pos <= |s| && 1 <= MinLength(rule.body)
  {
    var cuts := PassCuts(cfg, rule, s, pos);
    Outcome(Render(s, pos, cuts, Tag(rule.name)), Entries(rule.name, Values(s, cuts)))
  }

  lemma {:induction false} MatchesAreCuts(u: Unicode, re: Re, s: string, pos: nat)
    requires pos <= |s| && 1 <= MinLength(re)
    ensures Cuts(u, s, pos, Matches(u, re, s, pos))
    decreases |s| - pos
  {
    var found := Search(u, re, s, pos);
    if found.Some? {
      FoundNotEmpty(u, re, s, pos);
      MatchesAreCuts(u, re, s, found.value.end);
    }
  }

  lemma {:induction false} RedactedAreCuts(cfg: Settings, name: string, s: string, pos: nat, ms: seq<Span>)
    requires Cuts(cfg.u, s, pos, ms)
    ensures Cuts(cfg.u, s, pos, Redacted(cfg, name, s, ms))
    decreases |ms|
  {
    if ms != [] {
      RedactedAreCuts(cfg, name, s, ms[0].end, ms[1..]);
      var rest := Redacted(cfg, name, s, ms[1..]);
      CutsFromEarlier(cfg.u, s, pos, ms[0].end, rest);
      if Redacts(cfg, name, TextOf(s, ms[0])) {
        assert ([ms[0]] + rest)[1..] == rest;
      } else {
        assert [] + rest == rest;
      }
    }
  }

  lemma PassCutsAreCuts(cfg: Settings, rule: Rule, s: string, pos: nat)
    requires pos <= |s| && 1 <= MinLength(rule.body)
    ensures Cuts(cfg.u, s, pos, PassCuts(cfg, rule, s, pos))
  {
    MatchesAreCuts(cfg.u, rule.body, s, pos);
    RedactedAreCuts(cfg, rule.name, s, pos, Matches(cfg.u, rule.body, s, pos));
  }

  /** A scan's matches leave no match clear of them. */
  lemma {:induction false} ScanIsMaximal(u: Unicode, re: Re, s: string, pos: nat, x: nat, w: string)
    requires pos <= |s| && 1 <= MinLength(re)
    requires pos <= x && MatchAt(u, re, s, x, w)
    ensures !ClearOf(Matches(u, re, s, pos), x, x + |w|)
    decreases |s| - pos
  {
    SearchCorrect(u, re, s, pos);
    var m := Search(u, re, s, pos).value;
    FoundNotEmpty(u, re, s, pos);
    LongEnough(u, re, w);
    var ms := Matches(u, re, s, pos);
    if m.end <= x {
      ScanIsMaximal(u, re, s, m.end, x, w);
      var rest := Matches(u, re, s, m.end);
      var k :| 0 <= k < |rest| && !Apart(x, x + |w|, rest[k]);
      assert !Apart(x, x + |w|, ms[k + 1]);
    } else {
      assert !Apart(x, x + |w|, ms[0]);
    }
  }

  /** Whether a rule redacts everything it matches. */
  predicate Unfiltered(cfg: Settings, rule: Rule) {
    rule.name != CARD || !cfg.luhnValidate
  }

  // ---------------------------------------------------------------- the passes as code

  /** One pass as the scanning loop it is. */
  method Sub(cfg: Settings, rule: Rule, text: string) returns (result: string, log: seq<Entry>)
    requires 1 <= MinLength(rule.body)
    ensures Outcome(result, log) == PassFrom(cfg, rule, text, 0)
  {
    result, log := "", [];
    var pos, found := 0, Search(cfg.u, rule.body, text, 0);
    while found.Some?
      invariant pos <= |text| && found == Search(cfg.u, rule.body, text, pos)
      invariant Continued(result, log, PassFrom(cfg, rule, text, pos)) == PassFrom(cfg, rule, text, 0)
      decreases |text| - pos
    {
      var m := found.value;
      PassStep(cfg, rule, text, pos, m);
      var value := text[m.start..m.end];
      var kept, entry := text[pos..m.end], [];
      if Redacts(cfg, rule.name, value) {
        kept, entry := text[pos..m.start] + Tag(rule.name), [Entry(rule.name, value)];
      }
      ContinuedStep(result, log, kept, entry, PassFrom(cfg, rule, text, m.end));
      result, log := result + kept, log + entry;
      pos := m.end;
      found := Search(cfg.u, rule.body, text, pos);
    }
    PassEnd(cfg, rule, text, pos);
    result := result + text[pos..];
  }

  function Continued(text: string, log: seq<Entry>, rest: Outcome): Outcome {
    Outcome(text + rest.text, log + rest.log)
  }

  lemma PassCutsStep(cfg: Settings, rule: Rule, s: string, pos: nat, m: Span)
    requires pos <= |s| && 1 <= MinLength(rule.body) && Search(cfg.u, rule.body, s, pos) == Some(m)
    ensures pos <= m.start < m.end <= |s|
    ensures PassCuts(cfg, rule, s, pos) ==
            (if Redacts(cfg, rule.name, s[m.start..m.end]) then [m] else []) + PassCuts(cfg, rule, s, m.end)
  {
    FoundNotEmpty(cfg.u, rule.body, s, pos);
    assert Matches(cfg.u, rule.body, s, pos)[1..] == Matches(cfg.u, rule.body, s, m.end);
  }

  lemma RenderStep(s: string, pos: nat, m: Span, rest: seq<Span>, tag: string)
    requires pos <= m.start <= m.end <= |s|
    ensures Render(s, pos, [m] + rest, tag) == s[pos..m.start] + tag + Render(s, m.end, rest, tag)
    ensures Values(s, [m] + rest) == [s[m.start..m.end]] + Values(s, rest)
  {
    assert ([m] + rest)[1..] == rest;
    assert s[pos..m.start] + (tag + Render(s, m.end, rest, tag)) == s[pos..m.start] + tag + Render(s, m.end, rest, tag);
  }

  /** A pass, match by match: a redacted match becomes the tag and a log entry, another one stays. */
  lemma PassStep(cfg: Settings, rule: Rule, s: string, pos: nat, m: Span)
    requires pos <= |s| && 1 <= MinLength(rule.body) && Search(cfg.u, rule.body, s, pos) == Some(m)
    ensures pos <= m.start < m.end <= |s|
    ensures PassFrom(cfg, rule, s, pos) ==
      if Redacts(cfg, rule.name, s[m.start..m.end])
      then Continued(s[pos..m.start] + Tag(rule.name), [Entry(rule.name, s[m.start..m.end])],
                     PassFrom(cfg, rule, s, m.end))
      else Continued(s[pos..m.end], [], PassFrom(cfg, rule, s, m.end))
  {
    PassCutsStep(cfg, rule, s, pos, m);
    var rest := PassCuts(cfg, rule, s, m.end);
    if Redacts(cfg, rule.name, s[m.start..m.end]) {
      RenderStep(s, pos, m, rest, Tag(rule.name));
      assert (Values(s, [m] + rest))[1..] == Values(s, rest);
    } else {
      assert [] + rest == rest;
      PassCutsAreCuts(cfg, rule, s, m.end);
      RenderFromEarlier(cfg.u, s, pos, m.end, rest, Tag(rule.name));
    }
  }

  lemma PassEnd(cfg: Settings, rule: Rule, s: string, pos: nat)
    requires pos <= |s| && 1 <= MinLength(rule.body) && Search(cfg.u, rule.body, s, pos) == None
    ensures PassFrom(cfg, rule, s, pos) == Outcome(s[pos..], [])
  {
  }

  /** What the loop has produced so far, before and after one more match. */
  lemma ContinuedStep(text: string, log: seq<Entry>, t: string, l: seq<Entry>, rest: Outcome)
    ensures Continued(text, log, Continued(t, l, rest)) == Continued(text + t, log + l, rest)
  {
    assert text + (t + rest.text) == text + t + rest.text;
    assert log + (l + rest.log) == log + l + rest.log;
  }

  lemma RenderFromEarlier(u: Unicode, s: string, pos: nat, pos': nat, cuts: seq<Span>, tag: string)
    requires pos <= pos' && Cuts(u, s, pos', cuts)
    ensures Render(s, pos, cuts, tag) == s[pos..pos'] + Render(s, pos', cuts, tag)
  {
    if cuts != [] {
      assert s[pos..cuts[0].start] == s[pos..pos'] + s[pos'..cuts[0].start];
    }
  }

  ghost predicate NonEmptyRules(rules: seq<Rule>) {
    forall k :: 0 <= k < |rules| ==> 1 <= MinLength(rules[k].body)
  }

  /** All rules in order, each on the result of the one before. */
  ghost function RunRules(cfg: Settings, rules: seq<Rule>, s: string): Outcome
    requires NonEmptyRules(rules)
  {
    if rules == [] then Outcome(s, [])
    else
      var before := RunRules(cfg, rules[..|rules| - 1], s);
      var pass := PassFrom(cfg, rules[|rules| - 1], before.text, 0);
      Outcome(pass.text, before.log + pass.log)
  }

  method RegexPass(cfg: Settings, rules: seq<Rule>, text: string) returns (result: string, redactions: seq<Entry>)
    requires NonEmptyRules(rules)
    ensures Outcome(result, redactions) == RunRules(cfg, rules, text)
  {
    result, redactions := text, [];
    for k := 0 to |rules|
      invariant Outcome(result, redactions) == RunRules(cfg, rules[..k], text)
    {
      assert rules[..k + 1][..k] == rules[..k];
      var log;
      result, log := Sub(cfg, rules[k], result);
      redactions := redactions + log;
    }
    assert rules[..|rules|] == rules;
  }
}
