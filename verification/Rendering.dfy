/**
  Replacing spans of a text by a tag, for any pattern that is a set of texts between two word
  boundaries: where the matches of the result came from, and how to undo the replacement.
*/
module Rendering {

  datatype Unicode = Unicode(word: char -> bool, digit: char -> bool, space: char -> bool, digitValue: char -> int)

  predicate AsciiDigit(c: char) { '0' <= c <= '9' }

  predicate AsciiWord(c: char) {
    AsciiDigit(c) || 'a' <= c <= 'z' || 'A' <= c <= 'Z' || c == '_'
  }

  /** The engine's classes agree with ASCII, and every digit has a value. */
  ghost predicate ValidUnicode(u: Unicode) {
    && (forall c: char :: c < '\U{80}' ==> (u.word(c) <==> AsciiWord(c)) && (u.digit(c) <==> AsciiDigit(c)))
    && (forall c: char :: '!' <= c <= '~' ==> !u.space(c))
    && (forall c: char :: u.digit(c) ==> u.word(c) && !u.space(c) && 0 <= u.digitValue(c) <= 9)
    && (forall c: char :: AsciiDigit(c) ==> u.digitValue(c) == c as int - '0' as int)
  }

  predicate WordAt(u: Unicode, s: string, k: int) {
    0 <= k < |s| && u.word(s[k])
  }

  /** `\b` at position `k`. */
  predicate Boundary(u: Unicode, s: string, k: int) {
    WordAt(u, s, k - 1) != WordAt(u, s, k)
  }

  datatype Span = Span(start: nat, end: nat)

  /** The text `w` stands at `x` in `s`, between two word boundaries. */
  predicate At(u: Unicode, s: string, x: nat, w: string) {
    x + |w| <= |s| && s[x..x + |w|] == w && Boundary(u, s, x) && Boundary(u, s, x + |w|)
  }

  // ---------------------------------------------------------------- cutting and rendering

  /** Spans from `pos` on, in order, not overlapping, and with a word boundary at both ends. */
  ghost predicate Cuts(u: Unicode, s: string, pos: nat, cuts: seq<Span>)
    decreases |cuts|
  {
    && pos <= |s|
    && (cuts != [] ==>
          && pos <= cuts[0].start < cuts[0].end <= |s|
          && Boundary(u, s, cuts[0].start) && Boundary(u, s, cuts[0].end)
          && Cuts(u, s, cuts[0].end, cuts[1..]))
  }

  /** `s` from `pos` with every cut replaced by `tag`. */
  function Render(s: string, pos: nat, cuts: seq<Span>, tag: string): string
    requires pos <= |s|
    decreases |cuts|
  {
    if cuts == [] || !(pos <= cuts[0].start <= cuts[0].end <= |s|) then s[pos..]
    else s[pos..cuts[0].start] + (tag + Render(s, cuts[0].end, cuts[1..], tag))
  }

  /** The original text of every cut. */
  function Values(s: string, cuts: seq<Span>): seq<string>
  {
    if cuts == [] then []
    else [if cuts[0].start <= cuts[0].end <= |s| then s[cuts[0].start..cuts[0].end] else ""] + Values(s, cuts[1..])
  }

  lemma {:induction false} CutsInside(u: Unicode, s: string, pos: nat, cuts: seq<Span>)
    requires Cuts(u, s, pos, cuts)
    ensures forall k :: 0 <= k < |cuts| ==> pos <= cuts[k].start < cuts[k].end <= |s|
    decreases |cuts|
  {
    if cuts != [] {
      CutsInside(u, s, cuts[0].end, cuts[1..]);
      assert forall k :: 0 < k < |cuts| ==> cuts[k] == cuts[1..][k - 1];
    }
  }

  lemma FirstCutFirst(u: Unicode, s: string, pos: nat, cuts: seq<Span>)
    requires Cuts(u, s, pos, cuts) && cuts != []
    ensures forall k :: 0 <= k < |cuts| ==> cuts[0].start <= cuts[k].start
  {
    CutsInside(u, s, cuts[0].end, cuts[1..]);
    assert forall k :: 0 < k < |cuts| ==> cuts[k] == cuts[1..][k - 1];
  }

  lemma CutsFromEarlier(u: Unicode, s: string, pos: nat, pos': nat, cuts: seq<Span>)
    requires pos <= pos' && Cuts(u, s, pos', cuts)
    ensures Cuts(u, s, pos, cuts)
  {
  }

  // ---------------------------------------------------------------- replacing creates no match

  predicate NotBracket(c: char) { c != '[' && c != ']' }

  /** Bracketed text with no bracket inside. */
  predicate TagShaped(tag: string) {
    && 2 <= |tag| && tag[0] == '[' && tag[|tag| - 1] == ']'
    && forall k :: 0 < k < |tag| - 1 ==> NotBracket(tag[k])
  }

  ghost predicate NoBrackets(w: string) {
    forall k :: 0 <= k < |w| ==> NotBracket(w[k])
  }

  predicate BracketsAreNotWords(u: Unicode) {
    !u.word('[') && !u.word(']')
  }

  /** A text that no tag can make or break: it has no bracket and does not stand inside `tag`. */
  ghost predicate Untouched(u: Unicode, tag: string, w: string) {
    w != "" && NoBrackets(w) && forall x: nat :: !At(u, tag, x, w)
  }

  /** A text in a string with a tag in the middle stands before the tag or after it. */
  lemma MissesTag(u: Unicode, gap: string, tag: string, tail: string, a: nat, w: string)
    requires BracketsAreNotWords(u) && TagShaped(tag) && Untouched(u, tag, w)
    requires At(u, gap + (tag + tail), a, w)
    ensures a + |w| <= |gap| || |gap| + |tag| <= a
  {
    var r, g, t, b := gap + (tag + tail), |gap|, |tag|, a + |w|;
    assert forall k :: a <= k < b ==> r[k] == w[k - a];
    assert r[g] == tag[0] && r[g + t - 1] == tag[t - 1];
    if g < b && a < g + t {
      assert g < a && b < g + t;
      assert forall k :: g <= k < g + t ==> r[k] == tag[k - g];
      assert tag[a - g..a - g + |w|] == w;
      assert At(u, tag, a - g, w);
      assert false;
    }
  }

  /** After the tag it stands in the rest. */
  lemma AtTail(u: Unicode, front: string, tail: string, a: nat, w: string)
    requires front != "" && !u.word(front[|front| - 1])
    requires |front| <= a && At(u, front + tail, a, w)
    ensures At(u, tail, a - |front|, w)
  {
    var r, d := front + tail, |front|;
    assert forall k :: d <= k < |r| ==> r[k] == tail[k - d];
    assert tail[a - d..a - d + |w|] == r[a..a + |w|];
  }

  /** In a kept stretch it stood in the original: the ends of the stretch were word boundaries there too. */
  lemma AtGap(u: Unicode, s: string, pos: nat, end: nat, rest: string, a: nat, w: string)
    requires !u.word('[') && pos <= end <= |s| && w != ""
    requires pos == 0 || Boundary(u, s, pos)
    requires if rest == "" then end == |s| else rest[0] == '[' && Boundary(u, s, end)
    requires At(u, s[pos..end] + rest, a, w) && a + |w| <= end - pos
    ensures At(u, s, pos + a, w)
  {
    var r := s[pos..end] + rest;
    assert forall k :: 0 <= k < end - pos ==> r[k] == s[pos + k];
    assert r[a..a + |w|] == s[pos + a..pos + a + |w|];
  }

  predicate Apart(i: int, j: int, c: Span) { j <= c.start || c.end <= i }

  ghost predicate ClearOf(cuts: seq<Span>, i: int, j: int) {
    forall k :: 0 <= k < |cuts| ==> Apart(i, j, cuts[k])
  }

  lemma OriginInGap(u: Unicode, s: string, pos: nat, cuts: seq<Span>, tag: string, a: nat, w: string)
    requires Cuts(u, s, pos, cuts) && (pos == 0 || Boundary(u, s, pos))
    requires TagShaped(tag) && !u.word('[') && w != ""
    requires At(u, Render(s, pos, cuts, tag), a, w)
    requires a + |w| <= (if cuts == [] then |s| else cuts[0].start) - pos
    ensures At(u, s, pos + a, w) && ClearOf(cuts, pos + a, pos + a + |w|)
  {
    if cuts == [] {
      assert s[pos..] == s[pos..|s|] + "";
      AtGap(u, s, pos, |s|, "", a, w);
    } else {
      FirstCutFirst(u, s, pos, cuts);
      AtGap(u, s, pos, cuts[0].start, tag + Render(s, cuts[0].end, cuts[1..], tag), a, w);
    }
  }

  lemma RenderDrop(s: string, pos: nat, cuts: seq<Span>, tag: string) returns (front: string)
    requires cuts != [] && pos <= cuts[0].start <= cuts[0].end <= |s| && TagShaped(tag)
    ensures |front| == cuts[0].start - pos + |tag| && front[|front| - 1] == ']'
    ensures Render(s, pos, cuts, tag) == front + Render(s, cuts[0].end, cuts[1..], tag)
  {
    var gap, tail := s[pos..cuts[0].start], Render(s, cuts[0].end, cuts[1..], tag);
    front := gap + tag;
    assert gap + (tag + tail) == front + tail;
  }

  /** A text that reaches the first cut stands after its tag, in what is rendered from there. */
  lemma OriginPastCut(u: Unicode, s: string, pos: nat, cuts: seq<Span>, tag: string, a: nat, w: string, d: nat)
    requires BracketsAreNotWords(u) && TagShaped(tag)
    requires cuts != [] && pos <= cuts[0].start <= cuts[0].end <= |s| && d == cuts[0].start - pos + |tag|
    requires At(u, Render(s, pos, cuts, tag), a, w) && d <= a
    ensures At(u, Render(s, cuts[0].end, cuts[1..], tag), a - d, w)
  {
    var front := RenderDrop(s, pos, cuts, tag);
    AtTail(u, front, Render(s, cuts[0].end, cuts[1..], tag), a, w);
  }

  /**
    Every untouched text between word boundaries in the rendered string stood in the original, clear of all
    cuts: the cuts begin and end at word boundaries, so no boundary appears that was not there before.
  */
  lemma {:induction false} Origin(u: Unicode, s: string, pos: nat, cuts: seq<Span>, tag: string, a: nat, w: string)
    returns (x: nat)
    requires BracketsAreNotWords(u) && TagShaped(tag) && Untouched(u, tag, w)
    requires Cuts(u, s, pos, cuts) && (pos == 0 || Boundary(u, s, pos))
    requires At(u, Render(s, pos, cuts, tag), a, w)
    ensures pos <= x && At(u, s, x, w) && ClearOf(cuts, x, x + |w|)
    decreases |cuts|
  {
    hide Boundary, TagShaped, NoBrackets;
    if cuts == [] || a + |w| <= cuts[0].start - pos {
      OriginInGap(u, s, pos, cuts, tag, a, w);
      x := pos + a;
    } else {
      var d := cuts[0].start - pos + |tag|;
      MissesTag(u, s[pos..cuts[0].start], tag, Render(s, cuts[0].end, cuts[1..], tag), a, w);
      OriginPastCut(u, s, pos, cuts, tag, a, w, d);
      x := Origin(u, s, cuts[0].end, cuts[1..], tag, a - d, w);
      assert forall k :: 0 < k < |cuts| ==> cuts[k] == cuts[1..][k - 1];
    }
  }

  // ---------------------------------------------------------------- replacing keeps what it does not cut

  /** A text that begins and ends with a word character. */
  predicate WordEnds(u: Unicode, w: string) {
    w != "" && u.word(w[0]) && u.word(w[|w| - 1])
  }

  /** What follows a bracket needs no word boundary of its own there. */
  lemma KeptBehind(u: Unicode, front: string, tail: string, a: nat, w: string)
    requires front != "" && !u.word(front[|front| - 1]) && WordEnds(u, w) && At(u, tail, a, w)
    ensures At(u, front + tail, |front| + a, w)
  {
    var r, d := front + tail, |front|;
    assert forall k :: d <= k < |r| ==> r[k] == tail[k - d];
    assert r[d + a..d + a + |w|] == tail[a..a + |w|];
    assert tail[a] == w[0] && tail[a + |w| - 1] == w[|w| - 1];
  }

  lemma KeptInGap(u: Unicode, s: string, pos: nat, end: nat, rest: string, x: nat, w: string)
    requires !u.word('[') && pos <= end <= |s| && WordEnds(u, w)
    requires if rest == "" then end == |s| else rest[0] == '['
    requires At(u, s, x, w) && pos <= x && x + |w| <= end
    ensures At(u, s[pos..end] + rest, x - pos, w)
  {
    var r := s[pos..end] + rest;
    assert forall k :: 0 <= k < end - pos ==> r[k] == s[pos + k];
    assert r[x - pos..x - pos + |w|] == s[x..x + |w|];
    assert s[x] == w[0] && s[x + |w| - 1] == w[|w| - 1];
  }

  /** A text with word ends that stood clear of all cuts still stands between word boundaries. */
  lemma {:induction false} Kept(u: Unicode, s: string, pos: nat, cuts: seq<Span>, tag: string, x: nat, w: string)
    returns (a: nat)
    requires BracketsAreNotWords(u) && TagShaped(tag) && WordEnds(u, w)
    requires Cuts(u, s, pos, cuts) && pos <= x && At(u, s, x, w) && ClearOf(cuts, x, x + |w|)
    ensures At(u, Render(s, pos, cuts, tag), a, w)
    decreases |cuts|
  {
    hide Boundary;
    if cuts == [] {
      assert s[pos..] == s[pos..|s|] + "";
      KeptInGap(u, s, pos, |s|, "", x, w);
      a := x - pos;
    } else {
      var c, tail := cuts[0], Render(s, cuts[0].end, cuts[1..], tag);
      assert Apart(x, x + |w|, c);
      if x + |w| <= c.start {
        KeptInGap(u, s, pos, c.start, tag + tail, x, w);
        a := x - pos;
      } else {
        assert forall k :: 0 <= k < |cuts| - 1 ==> cuts[1..][k] == cuts[k + 1];
        a := Kept(u, s, c.end, cuts[1..], tag, x, w);
        var front := RenderDrop(s, pos, cuts, tag);
        KeptBehind(u, front, tail, a, w);
        a := |front| + a;
      }
    }
  }
}
