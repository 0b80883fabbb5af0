/**
  Regular expressions as the sanitizer uses them: a body between two word boundaries.

  `Ends` lists where a body can stop, in the order a backtracking engine tries them, so greedy
  and lazy repetition and alternation have their real meaning.  The character classes of the
  engine (`\w`, `\d`, `\s`) are parameters, fixed only on ASCII.
*/
module Regex {
  import opened Wrappers
  import opened Rendering

  datatype CharClass =
    | Digit
    | Space
    | OneOf(chars: set<char>)
    | Range(lo: char, hi: char)
    | Either(left: CharClass, right: CharClass)

  predicate In(u: Unicode, cls: CharClass, c: char) {
    match cls
    case Digit => u.digit(c)
    case Space => u.space(c)
    case OneOf(chars) => c in chars
    case Range(lo, hi) => lo <= c <= hi
    case Either(a, b) => In(u, a, c) || In(u, b, c)
  }

  datatype Re =
    | Empty
    | Chr(cls: CharClass)
    | Cat(first: Re, second: Re)
    | Alt(preferred: Re, other: Re)
    | Star(cls: CharClass, greedy: bool)

  function Opt(r: Re): Re { Alt(r, Empty) }

  function Plus(cls: CharClass): Re { Cat(Chr(cls), Star(cls, true)) }

  /** `r` exactly `n` times, then `rest`. */
  function Times(r: Re, n: nat, rest: Re): Re {
    if n == 0 then rest else Cat(r, Times(r, n - 1, rest))
  }

  /** `r` at most `n` times, as many as possible. */
  function UpTo(r: Re, n: nat): Re {
    if n == 0 then Empty else Opt(Cat(r, UpTo(r, n - 1)))
  }

  function Literal(s: string): Re {
    if s == "" then Empty else Cat(Chr(OneOf({s[0]})), Literal(s[1..]))
  }

  // ---------------------------------------------------------------- matching

  ghost predicate Within(es: seq<nat>, lo: nat, hi: nat) {
    forall k :: 0 <= k < |es| ==> lo <= es[k] <= hi
  }

  /** Where a match of `re` starting at `i` can end, most preferred first. */
  function Ends(u: Unicode, re: Re, s: string, i: nat): (es: seq<nat>)
    requires i <= |s|
    ensures Within(es, i, |s|)
    decreases re, 0, |s| - i
  {
    match re
    case Empty => [i]
    case Chr(cls) => if i < |s| && In(u, cls, s[i]) then [i + 1] else []
    case Cat(a, b) => EndsFrom(u, b, s, i, Ends(u, a, s, i))
    case Alt(a, b) => Ends(u, a, s, i) + Ends(u, b, s, i)
    case Star(cls, greedy) =>
      if i < |s| && In(u, cls, s[i]) then
        if greedy then Ends(u, re, s, i + 1) + [i] else [i] + Ends(u, re, s, i + 1)
      else [i]
  }

  /** `Ends` from each start in turn. */
  function EndsFrom(u: Unicode, re: Re, s: string, i: nat, starts: seq<nat>): (es: seq<nat>)
    requires Within(starts, i, |s|)
    ensures Within(es, i, |s|)
    decreases re, 1, |starts|
  {
    if starts == [] then []
    else Ends(u, re, s, starts[0]) + EndsFrom(u, re, s, i, starts[1..])
  }

  /** The language of `re`, independently of any engine. */
  ghost predicate Accepts(u: Unicode, re: Re, w: string) {
    match re
    case Empty => w == ""
    case Chr(cls) => |w| == 1 && In(u, cls, w[0])
    case Cat(a, b) => exists k :: 0 <= k <= |w| && Accepts(u, a, w[..k]) && Accepts(u, b, w[k..])
    case Alt(a, b) => Accepts(u, a, w) || Accepts(u, b, w)
    case Star(cls, _) => forall k :: 0 <= k < |w| ==> In(u, cls, w[k])
  }

  lemma {:induction false} EndsFromMember(u: Unicode, re: Re, s: string, i: nat, starts: seq<nat>, e: nat)
    requires Within(starts, i, |s|)
    ensures e in EndsFrom(u, re, s, i, starts) <==> exists k :: 0 <= k < |starts| && e in Ends(u, re, s, starts[k])
  {
    if starts != [] {
      EndsFromMember(u, re, s, i, starts[1..], e);
      if e in EndsFrom(u, re, s, i, starts[1..]) {
        var k :| 0 <= k < |starts[1..]| && e in Ends(u, re, s, starts[1..][k]);
        assert e in Ends(u, re, s, starts[k + 1]);
      }
      if k :| 0 <= k < |starts| && e in Ends(u, re, s, starts[k]) {
        assert k > 0 ==> starts[k] == starts[1..][k - 1];
      }
    }
  }

  lemma SliceOfSlice(s: string, i: nat, j: nat, m: nat)
    requires i <= m <= j <= |s|
    ensures s[i..j][..m - i] == s[i..m] && s[i..j][m - i..] == s[m..j]
  {
  }

  lemma AcceptsSplit(u: Unicode, a: Re, b: Re, s: string, i: nat, j: nat) returns (m: nat)
    requires i <= j <= |s| && Accepts(u, Cat(a, b), s[i..j])
    ensures i <= m <= j && Accepts(u, a, s[i..m]) && Accepts(u, b, s[m..j])
  {
    var w := s[i..j];
    var k :| 0 <= k <= |w| && Accepts(u, a, w[..k]) && Accepts(u, b, w[k..]);
    m := i + k;
    SliceOfSlice(s, i, j, m);
  }

  lemma AcceptsAt(u: Unicode, a: Re, b: Re, w: string, k: nat)
    requires k <= |w| && Accepts(u, a, w[..k]) && Accepts(u, b, w[k..])
    ensures Accepts(u, Cat(a, b), w)
  {
  }

  lemma AcceptsJoin(u: Unicode, a: Re, b: Re, s: string, i: nat, m: nat, j: nat)
    requires i <= m <= j <= |s| && Accepts(u, a, s[i..m]) && Accepts(u, b, s[m..j])
    ensures Accepts(u, Cat(a, b), s[i..j])
  {
    SliceOfSlice(s, i, j, m);
    AcceptsAt(u, a, b, s[i..j], m - i);
  }

  lemma {:induction false} AcceptsStar(u: Unicode, cls: CharClass, greedy: bool, s: string, i: nat, j: nat)
    requires i <= j <= |s|
    ensures Accepts(u, Star(cls, greedy), s[i..j]) <==> forall k :: i <= k < j ==> In(u, cls, s[k])
  {
    var w := s[i..j];
    assert forall k :: i <= k < j ==> s[k] == w[k - i];
    assert forall k :: 0 <= k < |w| ==> w[k] == s[i + k];
  }

  ghost predicate Stretch(u: Unicode, cls: CharClass, s: string, i: nat, j: nat) {
    i <= j <= |s| && forall k :: i <= k < j ==> In(u, cls, s[k])
  }

  lemma StretchStep(u: Unicode, cls: CharClass, s: string, i: nat, j: nat)
    requires i <= |s|
    ensures Stretch(u, cls, s, i, j) <==> j == i || (i < |s| && In(u, cls, s[i]) && Stretch(u, cls, s, i + 1, j))
  {
  }

  lemma {:induction false} EndsStar(u: Unicode, cls: CharClass, greedy: bool, s: string, i: nat, j: nat)
    requires i <= |s|
    ensures j in Ends(u, Star(cls, greedy), s, i) <==> Stretch(u, cls, s, i, j)
    decreases |s| - i
  {
    StretchStep(u, cls, s, i, j);
    if i < |s| && In(u, cls, s[i]) {
      EndsStar(u, cls, greedy, s, i + 1, j);
      var rest := Ends(u, Star(cls, greedy), s, i + 1);
      assert j in Ends(u, Star(cls, greedy), s, i) <==> j == i || j in rest;
    } else {
      assert j in [i] <==> j == i;
    }
  }

  /** The engine finds exactly the spans whose text is in the language. */
  lemma {:induction false} EngineAccepts(u: Unicode, re: Re, s: string, i: nat, j: nat)
    requires i <= |s|
    ensures j in Ends(u, re, s, i) <==> i <= j <= |s| && Accepts(u, re, s[i..j])
  {
    match re
    case Empty =>
    case Chr(cls) =>
    case Alt(a, b) =>
      EngineAccepts(u, a, s, i, j);
      EngineAccepts(u, b, s, i, j);
    case Star(cls, greedy) =>
      EndsStar(u, cls, greedy, s, i, j);
      if i <= j <= |s| {
        AcceptsStar(u, cls, greedy, s, i, j);
      }
    case Cat(a, b) =>
      if j in Ends(u, re, s, i) {
        var m := EndsCatOut(u, a, b, s, i, j);
        EngineAccepts(u, a, s, i, m);
        EngineAccepts(u, b, s, m, j);
        AcceptsJoin(u, a, b, s, i, m, j);
      } else if i <= j <= |s| && Accepts(u, re, s[i..j]) {
        var m := AcceptsSplit(u, a, b, s, i, j);
        EngineAccepts(u, a, s, i, m);
        EngineAccepts(u, b, s, m, j);
        EndsCatIn(u, a, b, s, i, m, j);
      }
  }

  lemma EndsCatIn(u: Unicode, a: Re, b: Re, s: string, i: nat, m: nat, j: nat)
    requires i <= |s| && m <= |s| && m in Ends(u, a, s, i) && j in Ends(u, b, s, m)
    ensures j in Ends(u, Cat(a, b), s, i)
  {
    var starts := Ends(u, a, s, i);
    EndsFromMember(u, b, s, i, starts, j);
    var k :| 0 <= k < |starts| && starts[k] == m;
    assert j in Ends(u, b, s, starts[k]);
  }

  lemma EndsCatOut(u: Unicode, a: Re, b: Re, s: string, i: nat, j: nat) returns (m: nat)
    requires i <= |s| && j in Ends(u, Cat(a, b), s, i)
    ensures i <= m <= |s| && m in Ends(u, a, s, i) && j in Ends(u, b, s, m)
  {
    var starts := Ends(u, a, s, i);
    EndsFromMember(u, b, s, i, starts, j);
    var k :| 0 <= k < |starts| && j in Ends(u, b, s, starts[k]);
    m := starts[k];
  }

  function FirstBoundary(u: Unicode, s: string, ends: seq<nat>): Option<nat> {
    if ends == [] then None
    else if Boundary(u, s, ends[0]) then Some(ends[0])
    else FirstBoundary(u, s, ends[1..])
  }

  /** The match the engine finds at `i`, if there is one. */
  function MatchEnd(u: Unicode, re: Re, s: string, i: nat): Option<nat>
    requires i <= |s|
  {
    if Boundary(u, s, i) then FirstBoundary(u, s, Ends(u, re, s, i)) else None
  }

  /** The leftmost match starting at `pos` or later. */
  function Search(u: Unicode, re: Re, s: string, pos: nat): Option<Span>
    requires pos <= |s|
    decreases |s| - pos
  {
    match MatchEnd(u, re, s, pos)
    case Some(j) => Some(Span(pos, j))
    case None => if pos == |s| then None else Search(u, re, s, pos + 1)
  }

  lemma {:induction false} FirstBoundaryIsFirst(u: Unicode, s: string, ends: seq<nat>)
    ensures match FirstBoundary(u, s, ends)
      case None => forall k :: 0 <= k < |ends| ==> !Boundary(u, s, ends[k])
      case Some(e) => exists k :: 0 <= k < |ends| && ends[k] == e && Boundary(u, s, e)
                                  && forall l :: 0 <= l < k ==> !Boundary(u, s, ends[l])
  {
    if ends != [] && !Boundary(u, s, ends[0]) {
      FirstBoundaryIsFirst(u, s, ends[1..]);
      assert forall k :: 0 < k < |ends| ==> ends[k] == ends[1..][k - 1];
      match FirstBoundary(u, s, ends)
      case None =>
      case Some(e) =>
        var k :| 0 <= k < |ends[1..]| && ends[1..][k] == e && forall l :: 0 <= l < k ==> !Boundary(u, s, ends[1..][l]);
        assert ends[k + 1] == e;
    }
  }

  /** The text `w` is a match of `\b re \b` at `x`. */
  ghost predicate MatchAt(u: Unicode, re: Re, s: string, x: nat, w: string) {
    At(u, s, x, w) && Accepts(u, re, w)
  }

  /** `\b re \b` matches nowhere in `s`. */
  ghost predicate MatchFree(u: Unicode, re: Re, s: string) {
    forall x: nat, w: string :: !MatchAt(u, re, s, x, w)
  }

  /** The engine finds a match at `i` exactly when some text of the language stands there. */
  lemma MatchEndCorrect(u: Unicode, re: Re, s: string, i: nat)
    requires i <= |s|
    ensures match MatchEnd(u, re, s, i)
      case None => forall w: string :: !MatchAt(u, re, s, i, w)
      case Some(e) => i <= e <= |s| && MatchAt(u, re, s, i, s[i..e])
  {
    var ends := Ends(u, re, s, i);
    FirstBoundaryIsFirst(u, s, ends);
    match MatchEnd(u, re, s, i)
    case None =>
      forall w: string ensures !MatchAt(u, re, s, i, w) {
        if At(u, s, i, w) {
          EngineAccepts(u, re, s, i, i + |w|);
          assert Boundary(u, s, i + |w|) && i + |w| !in ends;
        }
      }
    case Some(e) =>
      assert s[i..e] == s[i..i + |s[i..e]|];
      EngineAccepts(u, re, s, i, e);
  }

  /** The search finds a match if there is one, and no match starts further left. */
  lemma {:induction false} SearchCorrect(u: Unicode, re: Re, s: string, pos: nat)
    requires pos <= |s|
    ensures match Search(u, re, s, pos)
      case None => forall x: nat, w: string :: pos <= x ==> !MatchAt(u, re, s, x, w)
      case Some(m) =>
        && pos <= m.start <= m.end <= |s| && MatchAt(u, re, s, m.start, s[m.start..m.end])
        && forall x: nat, w: string :: pos <= x < m.start ==> !MatchAt(u, re, s, x, w)
    decreases |s| - pos
  {
    MatchEndCorrect(u, re, s, pos);
    if pos < |s| && MatchEnd(u, re, s, pos) == None {
      SearchCorrect(u, re, s, pos + 1);
    }
  }

  /** A greedy repetition tries its longest run first, a lazy one its shortest. */
  lemma {:induction false} StarOrder(u: Unicode, cls: CharClass, greedy: bool, s: string, i: nat)
    requires i <= |s|
    ensures var es := Ends(u, Star(cls, greedy), s, i);
      && es != []
      && (if greedy then es[|es| - 1] == i else es[0] == i)
      && forall k :: 0 < k < |es| ==> if greedy then es[k] == es[k - 1] - 1 else es[k] == es[k - 1] + 1
    decreases |s| - i
  {
    if i < |s| && In(u, cls, s[i]) {
      StarOrder(u, cls, greedy, s, i + 1);
      var es, rest := Ends(u, Star(cls, greedy), s, i), Ends(u, Star(cls, greedy), s, i + 1);
      assert es == if greedy then rest + [i] else [i] + rest;
    }
  }

  // ---------------------------------------------------------------- what a body's shape says about its matches

  /** A lower bound on the length of a match. */
  function MinLength(re: Re): nat {
    match re
    case Empty => 0
    case Chr(_) => 1
    case Cat(a, b) => MinLength(a) + MinLength(b)
    case Alt(a, b) => if MinLength(a) <= MinLength(b) then MinLength(a) else MinLength(b)
    case Star(_, _) => 0
  }

  lemma {:induction false} LongEnough(u: Unicode, re: Re, w: string)
    requires Accepts(u, re, w)
    ensures MinLength(re) <= |w|
  {
    match re
    case Cat(a, b) =>
      var k :| 0 <= k <= |w| && Accepts(u, a, w[..k]) && Accepts(u, b, w[k..]);
      LongEnough(u, a, w[..k]);
      LongEnough(u, b, w[k..]);
    case Alt(a, b) =>
      if Accepts(u, a, w) {
        LongEnough(u, a, w);
      } else {
        LongEnough(u, b, w);
      }
    case _ =>
  }

  /** Every character of every accepted text satisfies `p`. */
  ghost predicate Only(u: Unicode, re: Re, p: char -> bool) {
    match re
    case Empty => true
    case Chr(cls) => forall c :: In(u, cls, c) ==> p(c)
    case Cat(a, b) => Only(u, a, p) && Only(u, b, p)
    case Alt(a, b) => Only(u, a, p) && Only(u, b, p)
    case Star(cls, _) => forall c :: In(u, cls, c) ==> p(c)
  }

  lemma {:induction false} SpanOnly(u: Unicode, re: Re, p: char -> bool, w: string)
    requires Accepts(u, re, w) && Only(u, re, p)
    ensures forall k :: 0 <= k < |w| ==> p(w[k])
  {
    match re
    case Cat(a, b) =>
      var m :| 0 <= m <= |w| && Accepts(u, a, w[..m]) && Accepts(u, b, w[m..]);
      SpanOnly(u, a, p, w[..m]);
      SpanOnly(u, b, p, w[m..]);
      assert w == w[..m] + w[m..];
    case Alt(a, b) =>
      if Accepts(u, a, w) {
        SpanOnly(u, a, p, w);
      } else {
        SpanOnly(u, b, p, w);
      }
    case _ =>
  }

  /** Every accepted text has a character that satisfies `p`. */
  ghost predicate Needs(u: Unicode, re: Re, p: char -> bool) {
    match re
    case Chr(cls) => forall c :: In(u, cls, c) ==> p(c)
    case Cat(a, b) => Needs(u, a, p) || Needs(u, b, p)
    case Alt(a, b) => Needs(u, a, p) && Needs(u, b, p)
    case _ => false
  }

  lemma {:induction false} SpanNeeds(u: Unicode, re: Re, p: char -> bool, w: string)
    requires Accepts(u, re, w) && Needs(u, re, p)
    ensures exists k :: 0 <= k < |w| && p(w[k])
  {
    match re
    case Chr(cls) => assert p(w[0]);
    case Cat(a, b) =>
      var m :| 0 <= m <= |w| && Accepts(u, a, w[..m]) && Accepts(u, b, w[m..]);
      if Needs(u, a, p) {
        SpanNeeds(u, a, p, w[..m]);
      } else {
        SpanNeeds(u, b, p, w[m..]);
        var k :| 0 <= k < |w[m..]| && p(w[m..][k]);
        assert p(w[m + k]);
      }
    case Alt(a, b) =>
      if Accepts(u, a, w) {
        SpanNeeds(u, a, p, w);
      } else {
        SpanNeeds(u, b, p, w);
      }
  }
}
