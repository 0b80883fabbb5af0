/**
  Which of several matches at one place the engine reports.  Greedy and lazy repetition decide it: of e-mail
  addresses it is the longest, of card numbers the shortest.
*/
module EngineChoice {
  import opened Wrappers
  import opened Rendering
  import opened Regex
  import opened PiiRules
  import opened PiiLanguages
  import opened CardRule

  // ---------------------------------------------------------------- lists of ends

  lemma {:induction false} FirstOfConcat(u: Unicode, s: string, xs: seq<nat>, ys: seq<nat>)
    ensures FirstBoundary(u, s, xs + ys) ==
            if FirstBoundary(u, s, xs).Some? then FirstBoundary(u, s, xs) else FirstBoundary(u, s, ys)
  {
    if xs == [] {
      assert xs + ys == ys;
    } else {
      assert (xs + ys)[1..] == xs[1..] + ys;
      FirstOfConcat(u, s, xs[1..], ys);
    }
  }

  /** `EndsFrom` from one start and then others. */
  lemma FromFirst(u: Unicode, re: Re, s: string, i: nat, x: nat, xs: seq<nat>)
    requires Within([x] + xs, i, |s|)
    ensures Within(xs, i, |s|) && x <= |s|
    ensures EndsFrom(u, re, s, i, [x] + xs) == Ends(u, re, s, x) + EndsFrom(u, re, s, i, xs)
  {
    assert ([x] + xs)[0] == x && ([x] + xs)[1..] == xs;
    assert forall k :: 0 <= k < |xs| ==> xs[k] == ([x] + xs)[k + 1];
  }

  lemma FromOne(u: Unicode, re: Re, s: string, i: nat, x: nat)
    requires i <= x <= |s|
    ensures EndsFrom(u, re, s, i, [x]) == Ends(u, re, s, x)
  {
    assert [x] + [] == [x];
    FromFirst(u, re, s, i, x, []);
  }

  /** The bound that `EndsFrom` carries does not matter. */
  lemma {:induction false} FromAnywhere(u: Unicode, re: Re, s: string, i: nat, j: nat, xs: seq<nat>)
    requires Within(xs, i, |s|) && Within(xs, j, |s|)
    ensures EndsFrom(u, re, s, i, xs) == EndsFrom(u, re, s, j, xs)
    decreases |xs|
  {
    if xs != [] {
      FromAnywhere(u, re, s, i, j, xs[1..]);
    }
  }

  /** After one character of a class comes the rest. */
  lemma ChrCatEnds(u: Unicode, cls: CharClass, re: Re, s: string, i: nat)
    requires i <= |s|
    ensures Ends(u, Cat(Chr(cls), re), s, i) ==
            if i < |s| && In(u, cls, s[i]) then Ends(u, re, s, i + 1) else []
  {
    if i < |s| && In(u, cls, s[i]) {
      FromOne(u, re, s, i, i + 1);
    }
  }

  // ---------------------------------------------------------------- the shortest card number

  /** The first end at a word boundary is the least such end. */
  ghost predicate LeastFirst(u: Unicode, s: string, es: seq<nat>) {
    match FirstBoundary(u, s, es)
    case None => true
    case Some(e) => forall k :: 0 <= k < |es| && Boundary(u, s, es[k]) ==> e <= es[k]
  }

  lemma LeastHead(u: Unicode, s: string, x: nat, es: seq<nat>)
    requires Boundary(u, s, x) && forall k :: 0 <= k < |es| ==> x <= es[k]
    ensures LeastFirst(u, s, [x] + es)
  {
  }

  lemma LeastWithout(u: Unicode, s: string, es: seq<nat>, x: nat)
    requires LeastFirst(u, s, es) && !Boundary(u, s, x)
    ensures LeastFirst(u, s, es + [x])
  {
    FirstOfConcat(u, s, es, [x]);
  }

  /** What may follow a digit of a card number, and whether it may be nothing. */
  ghost predicate Following(u: Unicode, s: string, rest: Re, optional: bool) {
    && (forall st: nat :: st <= |s| && !(st < |s| && u.digit(s[st])) ==>
          Ends(u, rest, s, st) == if optional then [st] else [])
    && (forall st: nat :: st < |s| && u.digit(s[st]) ==>
          LeastBut(u, s, Ends(u, rest, s, st), if optional then [st] else []))
  }

  /** The list ends with `last`, and what is before that is least first. */
  ghost predicate LeastBut(u: Unicode, s: string, es: seq<nat>, last: seq<nat>) {
    |last| <= |es| && es[|es| - |last|..] == last && LeastFirst(u, s, es[..|es| - |last|])
  }

  function Separators(): Re { Star(OneOf({' ', '-'}), false) }

  /** Where a card number's rest can end if separators may come first. */
  function AfterSeparators(u: Unicode, s: string, rest: Re, st: nat): seq<nat>
    requires st <= |s|
  {
    EndsFrom(u, rest, s, st, Ends(u, Separators(), s, st))
  }

  lemma AfterStep(u: Unicode, s: string, rest: Re, st: nat)
    requires st <= |s|
    ensures AfterSeparators(u, s, rest, st) ==
            if st < |s| && CardSeparator(s[st])
            then Ends(u, rest, s, st) + AfterSeparators(u, s, rest, st + 1) else Ends(u, rest, s, st)
  {
    if st < |s| && CardSeparator(s[st]) {
      var later := Ends(u, Separators(), s, st + 1);
      assert Ends(u, Separators(), s, st) == [st] + later;
      FromFirst(u, rest, s, st, st, later);
      FromAnywhere(u, rest, s, st, st + 1, later);
    } else {
      assert Ends(u, Separators(), s, st) == [st];
      FromOne(u, rest, s, st, st);
    }
  }

  lemma {:induction false} RequiredLeast(u: Unicode, s: string, rest: Re, st: nat)
    requires st <= |s| && ValidUnicode(u) && Following(u, s, rest, false)
    ensures LeastFirst(u, s, AfterSeparators(u, s, rest, st))
    decreases |s| - st
  {
    hide ValidUnicode, AfterSeparators, Following, LeastFirst, Ends;
    AfterStep(u, s, rest, st);
    if st < |s| && CardSeparator(s[st]) {
      SeparatorNoDigit(u, s[st]);
      RequiredLeast(u, s, rest, st + 1);
      FollowingOther(u, s, rest, false, st);
      assert [] + AfterSeparators(u, s, rest, st + 1) == AfterSeparators(u, s, rest, st + 1);
    } else if st < |s| && u.digit(s[st]) {
      var es := Ends(u, rest, s, st);
      FollowingDigit(u, s, rest, false, st);
      assert es[..|es|] == es;
    } else {
      FollowingOther(u, s, rest, false, st);
      NothingLeast(u, s);
    }
  }

  lemma SeparatorNoDigit(u: Unicode, c: char)
    requires ValidUnicode(u) && CardSeparator(c)
    ensures !u.digit(c) && !u.word(c)
  {
  }

  lemma DigitIsWord(u: Unicode, c: char)
    requires ValidUnicode(u) && u.digit(c)
    ensures u.word(c)
  {
  }

  /** Right after a digit nothing more need come, and a separator makes that the least end. */
  lemma OptionalLeast(u: Unicode, s: string, rest: Re, st: nat)
    requires 0 < st <= |s| && ValidUnicode(u) && u.digit(s[st - 1]) && Following(u, s, rest, true)
    ensures LeastFirst(u, s, AfterSeparators(u, s, rest, st))
  {
    hide ValidUnicode, AfterSeparators, Following, LeastFirst, LeastBut, Ends;
    AfterStep(u, s, rest, st);
    DigitIsWord(u, s[st - 1]);
    if st < |s| && u.digit(s[st]) {
      SeparatorsAreNot(u, s[st]);
      DigitIsWord(u, s[st]);
      FollowingDigit(u, s, rest, true, st);
      LeastOfBut(u, s, Ends(u, rest, s, st), st);
    } else {
      FollowingOther(u, s, rest, true, st);
      if st < |s| && CardSeparator(s[st]) {
        SeparatorNoDigit(u, s[st]);
        AfterAtLeast(u, s, rest, st + 1);
        LeastHead(u, s, st, AfterSeparators(u, s, rest, st + 1));
      } else {
        LeastOne(u, s, st);
      }
    }
  }

  lemma SeparatorsAreNot(u: Unicode, c: char)
    requires ValidUnicode(u) && u.digit(c)
    ensures !CardSeparator(c)
  {
  }

  lemma LeastOne(u: Unicode, s: string, x: nat)
    ensures LeastFirst(u, s, [x])
  {
  }

  lemma FollowingDigit(u: Unicode, s: string, rest: Re, optional: bool, st: nat)
    requires Following(u, s, rest, optional) && st < |s| && u.digit(s[st])
    ensures LeastBut(u, s, Ends(u, rest, s, st), if optional then [st] else [])
  {
  }

  lemma FollowingOther(u: Unicode, s: string, rest: Re, optional: bool, st: nat)
    requires Following(u, s, rest, optional) && st <= |s| && !(st < |s| && u.digit(s[st]))
    ensures Ends(u, rest, s, st) == if optional then [st] else []
  {
  }

  lemma LeastOfBut(u: Unicode, s: string, es: seq<nat>, x: nat)
    requires LeastBut(u, s, es, [x]) && !Boundary(u, s, x)
    ensures LeastFirst(u, s, es)
  {
    LeastWithout(u, s, es[..|es| - 1], x);
    assert es == es[..|es| - 1] + es[|es| - 1..];
  }

  lemma AfterAtLeast(u: Unicode, s: string, rest: Re, st: nat)
    requires st <= |s|
    ensures forall k :: 0 <= k < |AfterSeparators(u, s, rest, st)| ==> st <= AfterSeparators(u, s, rest, st)[k]
  {
    assert Within(AfterSeparators(u, s, rest, st), st, |s|);
  }

  /** One more digit before a rest keeps the shortest first. */
  lemma CardCatLeast(u: Unicode, s: string, rest: Re, optional: bool, i: nat)
    requires i <= |s| && ValidUnicode(u) && Following(u, s, rest, optional)
    ensures LeastFirst(u, s, Ends(u, Cat(CardDigit(), rest), s, i))
    ensures !(i < |s| && u.digit(s[i])) ==> Ends(u, Cat(CardDigit(), rest), s, i) == []
  {
    hide ValidUnicode, Following, AfterSeparators, LeastFirst;
    ChrCatEnds(u, Digit, Separators(), s, i);
    if i < |s| && u.digit(s[i]) {
      var starts := Ends(u, Separators(), s, i + 1);
      assert Ends(u, CardDigit(), s, i) == starts;
      CatAfter(u, s, rest, i);
      if optional {
        OptionalLeast(u, s, rest, i + 1);
      } else {
        RequiredLeast(u, s, rest, i + 1);
      }
    } else {
      NothingLeast(u, s);
    }
  }

  lemma NothingLeast(u: Unicode, s: string)
    ensures LeastFirst(u, s, [])
  {
  }

  lemma CatAfter(u: Unicode, s: string, rest: Re, i: nat)
    requires i < |s| && Ends(u, CardDigit(), s, i) == Ends(u, Separators(), s, i + 1)
    ensures Ends(u, Cat(CardDigit(), rest), s, i) == AfterSeparators(u, s, rest, i + 1)
  {
    FromAnywhere(u, rest, s, i, i + 1, Ends(u, Separators(), s, i + 1));
  }

  lemma {:induction false} UpToFollowing(u: Unicode, s: string, n: nat)
    requires ValidUnicode(u)
    ensures Following(u, s, UpTo(CardDigit(), n), true)
  {
    hide ValidUnicode, CardDigit, LeastFirst;
    NothingLeast(u, s);
    if n == 0 {
      assert forall st: nat :: st <= |s| ==> Ends(u, Empty, s, st) == [st] && [st][0..] == [st] && [st][..0] == [];
    } else {
      var rest := UpTo(CardDigit(), n - 1);
      UpToFollowing(u, s, n - 1);
      forall st: nat | st <= |s|
        ensures var more := Ends(u, Cat(CardDigit(), rest), s, st);
          && Ends(u, UpTo(CardDigit(), n), s, st) == more + [st]
          && LeastFirst(u, s, more) && (!(st < |s| && u.digit(s[st])) ==> more == [])
      {
        CardCatLeast(u, s, rest, true, st);
      }
      forall st: nat | st < |s| && u.digit(s[st])
        ensures LeastBut(u, s, Ends(u, UpTo(CardDigit(), n), s, st), [st])
      {
        var more := Ends(u, Cat(CardDigit(), rest), s, st);
        assert (more + [st])[|more|..] == [st] && (more + [st])[..|more|] == more;
      }
    }
  }

  lemma {:induction false} TimesFollowing(u: Unicode, s: string, n: nat)
    requires ValidUnicode(u)
    ensures Following(u, s, Times(CardDigit(), n, UpTo(CardDigit(), 3)), n == 0)
  {
    hide ValidUnicode, CardDigit, LeastFirst, UpTo;
    if n == 0 {
      UpToFollowing(u, s, 3);
    } else {
      var rest := Times(CardDigit(), n - 1, UpTo(CardDigit(), 3));
      TimesFollowing(u, s, n - 1);
      forall st: nat | st <= |s|
        ensures var es := Ends(u, Cat(CardDigit(), rest), s, st);
          LeastFirst(u, s, es) && es[|es|..] == [] && es[..|es|] == es && (!(st < |s| && u.digit(s[st])) ==> es == [])
      {
        CardCatLeast(u, s, rest, n == 1, st);
      }
    }
  }

  /** Where several card numbers begin the engine reports the shortest, so it ends in a digit. */
  lemma CardMatchShortest(u: Unicode, s: string, i: nat, w: string)
    requires ValidUnicode(u) && MatchAt(u, CreditCard(), s, i, w)
    ensures i <= |s| && MatchEnd(u, CreditCard(), s, i).Some?
    ensures var e := MatchEnd(u, CreditCard(), s, i).value;
      i < e <= |s| && e <= i + |w| && u.digit(s[e - 1])
  {
    hide ValidUnicode, Accepts;
    MatchEndCorrect(u, CreditCard(), s, i);
    var e := MatchEnd(u, CreditCard(), s, i).value;
    CardChosen(u, s, i, e, w);
    var reported := s[i..e];
    TrimmedStands(u, s, i, reported);
    var t := Trimmed(u, reported);
    CardChosen(u, s, i, e, t);
    TrimmedDigit(u, reported);
    assert t == reported by {
      assert s[i..i + |t|] == t && |t| == |reported|;
    }
  }

  lemma TrimmedDigit(u: Unicode, w: string)
    requires Trimmed(u, w) != ""
    ensures u.digit(Trimmed(u, w)[|Trimmed(u, w)| - 1])
  {
  }

  lemma CardChosen(u: Unicode, s: string, i: nat, e: nat, w: string)
    requires ValidUnicode(u) && i <= |s| && MatchEnd(u, CreditCard(), s, i) == Some(e)
    requires MatchAt(u, CreditCard(), s, i, w)
    ensures e <= i + |w|
  {
    hide ValidUnicode, Accepts, Times, UpTo, Ends, LeastFirst, CardDigit, Following, Boundary;
    var rest := Times(CardDigit(), 12, UpTo(CardDigit(), 3));
    CardUnfold();
    TimesFollowing(u, s, 12);
    CardCatLeast(u, s, rest, false, i);
    EngineAccepts(u, CreditCard(), s, i, i + |w|);
    LeastChosen(u, s, Ends(u, CreditCard(), s, i), e, i + |w|);
  }

  lemma LeastChosen(u: Unicode, s: string, es: seq<nat>, e: nat, x: nat)
    requires LeastFirst(u, s, es) && FirstBoundary(u, s, es) == Some(e) && x in es && Boundary(u, s, x)
    ensures e <= x
  {
  }

  lemma CardUnfold()
    ensures CreditCard() == Cat(CardDigit(), Times(CardDigit(), 12, UpTo(CardDigit(), 3)))
  {
  }

  // ---------------------------------------------------------------- the longest address

  ghost predicate Falling(es: seq<nat>) {
    forall k, l :: 0 <= k < l < |es| ==> es[l] < es[k]
  }

  /** Of falling ends the first at a boundary is the greatest. */
  lemma GreatestFirst(u: Unicode, s: string, es: seq<nat>, x: nat)
    requires Falling(es) && x in es && Boundary(u, s, x)
    ensures FirstBoundary(u, s, es).Some? && x <= FirstBoundary(u, s, es).value
  {
    FirstBoundaryIsFirst(u, s, es);
    var k :| 0 <= k < |es| && es[k] == x;
  }

  lemma {:induction false} FallingSteps(es: seq<nat>)
    requires forall k :: 0 < k < |es| ==> es[k] < es[k - 1]
    ensures Falling(es)
  {
    if es != [] {
      var n := |es| - 1;
      FallingSteps(es[..n]);
      forall k | 0 <= k < n ensures es[n] < es[k] {
        assert k < n - 1 ==> es[..n][n - 1] < es[..n][k];
      }
    }
  }

  lemma GreedyFalls(u: Unicode, cls: CharClass, s: string, i: nat)
    requires i <= |s|
    ensures Falling(Ends(u, Star(cls, true), s, i))
  {
    StarOrder(u, cls, true, s, i);
    FallingSteps(Ends(u, Star(cls, true), s, i));
  }

  lemma PlusFalls(u: Unicode, cls: CharClass, s: string, i: nat)
    requires i <= |s|
    ensures Falling(Ends(u, Plus(cls), s, i))
  {
    ChrCatEnds(u, cls, Star(cls, true), s, i);
    if i < |s| {
      GreedyFalls(u, cls, s, i + 1);
    }
  }

  /** All ends from one start are beyond those from another. */
  ghost predicate Beyond(u: Unicode, re: Re, s: string, a: nat, b: nat)
    requires a <= |s| && b <= |s|
  {
    forall x, y :: x in Ends(u, re, s, a) && y in Ends(u, re, s, b) ==> y < x
  }

  /** Falling ends from each of several starts fall if the ends from each are beyond those from later ones. */
  lemma {:induction false} FromFalling(u: Unicode, re: Re, s: string, i: nat, starts: seq<nat>)
    requires Within(starts, i, |s|)
    requires forall k :: 0 <= k < |starts| ==> Falling(Ends(u, re, s, starts[k]))
    requires forall k, l :: 0 <= k < l < |starts| ==> Beyond(u, re, s, starts[k], starts[l])
    ensures Falling(EndsFrom(u, re, s, i, starts))
    decreases |starts|
  {
    hide Ends, Beyond, Falling;
    if starts == [] {
      NothingFalls();
    } else {
      var first, later := Ends(u, re, s, starts[0]), EndsFrom(u, re, s, i, starts[1..]);
      FromFalling(u, re, s, i, starts[1..]);
      forall k, l | 0 <= k < |first| && 0 <= l < |later| ensures later[l] < first[k] {
        EndsFromMember(u, re, s, i, starts[1..], later[l]);
        var m :| 0 <= m < |starts[1..]| && later[l] in Ends(u, re, s, starts[1..][m]);
        assert starts[1..][m] == starts[m + 1];
        BeyondAt(u, re, s, starts[0], starts[m + 1], first[k], later[l]);
      }
      FallingConcat(first, later);
    }
  }

  lemma NothingFalls()
    ensures Falling([])
  {
  }

  lemma BeyondAt(u: Unicode, re: Re, s: string, a: nat, b: nat, x: nat, y: nat)
    requires a <= |s| && b <= |s| && Beyond(u, re, s, a, b) && x in Ends(u, re, s, a) && y in Ends(u, re, s, b)
    ensures y < x
  {
  }

  lemma FallingConcat(xs: seq<nat>, ys: seq<nat>)
    requires Falling(xs) && Falling(ys) && forall k, l :: 0 <= k < |xs| && 0 <= l < |ys| ==> ys[l] < xs[k]
    ensures Falling(xs + ys)
  {
  }

  lemma TopFalls(u: Unicode, s: string, i: nat)
    requires i <= |s|
    ensures Falling(Ends(u, TopLevel(), s, i))
  {
    hide In;
    ChrCatEnds(u, OneOf({'.'}), Times(Chr(LETTER), 2, Star(LETTER, true)), s, i);
    if i < |s| {
      ChrCatEnds(u, LETTER, Times(Chr(LETTER), 1, Star(LETTER, true)), s, i + 1);
      if i + 1 < |s| {
        ChrCatEnds(u, LETTER, Star(LETTER, true), s, i + 2);
        if i + 2 < |s| {
          GreedyFalls(u, LETTER, s, i + 3);
        }
      }
    }
  }

  /** A top-level part is a dot and letters. */
  lemma TopText(u: Unicode, s: string, i: nat, j: nat)
    requires i <= |s| && j in Ends(u, TopLevel(), s, i)
    ensures i + 2 < j <= |s| && s[i] == '.' && forall k :: i < k < j ==> Letter(s[k])
  {
    hide Accepts, In;
    EngineAccepts(u, TopLevel(), s, i, j);
    var dot, top := PartsOfCat(u, One('.'), Times(Chr(LETTER), 2, Star(LETTER, true)), s[i..j]);
    OneAccepts(u, '.', dot);
    LettersAccept(u, 2, top);
    forall k | i < k < j ensures Letter(s[k]) {
      assert s[k] == s[i..j][k - i] == top[k - i - 1];
    }
  }

  lemma HostFalls(u: Unicode, s: string, i: nat)
    requires i <= |s|
    ensures Falling(Ends(u, Cat(Plus(HOST), TopLevel()), s, i))
  {
    hide Plus, TopLevel;
    var starts := Ends(u, Plus(HOST), s, i);
    PlusFalls(u, HOST, s, i);
    forall k | 0 <= k < |starts| ensures Falling(Ends(u, TopLevel(), s, starts[k])) {
      TopFalls(u, s, starts[k]);
    }
    forall k, l | 0 <= k < l < |starts| ensures Beyond(u, TopLevel(), s, starts[k], starts[l]) {
      forall x, y | x in Ends(u, TopLevel(), s, starts[k]) && y in Ends(u, TopLevel(), s, starts[l]) ensures y < x {
        TopText(u, s, starts[k], x);
        TopText(u, s, starts[l], y);
      }
    }
    FromFalling(u, TopLevel(), s, i, starts);
  }

  /** A local part ends where the at sign is. */
  lemma LocalText(u: Unicode, s: string, i: nat, j: nat)
    requires i <= |s| && j in Ends(u, Plus(LOCAL), s, i)
    ensures i < j <= |s| && forall k :: i <= k < j ==> s[k] != '@'
  {
    hide Accepts;
    EngineAccepts(u, Plus(LOCAL), s, i, j);
    LocalAccepts(u, s[i..j]);
    assert forall k :: i <= k < j ==> s[k] == s[i..j][k - i];
  }

  lemma EmailFalls(u: Unicode, s: string, i: nat)
    requires i <= |s|
    ensures Falling(Ends(u, Email(), s, i))
  {
    hide Plus, TopLevel;
    var tail := Cat(Plus(HOST), TopLevel());
    var starts, re := Ends(u, Plus(LOCAL), s, i), Cat(One('@'), tail);
    PlusFalls(u, LOCAL, s, i);
    forall k | 0 <= k < |starts|
      ensures Falling(Ends(u, re, s, starts[k]))
      ensures Ends(u, re, s, starts[k]) != [] ==> starts[k] < |s| && s[starts[k]] == '@'
    {
      ChrCatEnds(u, OneOf({'@'}), tail, s, starts[k]);
      if starts[k] < |s| {
        HostFalls(u, s, starts[k] + 1);
      }
    }
    forall k, l | 0 <= k < l < |starts| ensures Beyond(u, re, s, starts[k], starts[l]) {
      LocalText(u, s, i, starts[k]);
      assert s[starts[l]] != '@';
    }
    FromFalling(u, re, s, i, starts);
  }

  /** Where several addresses begin the engine reports the longest. */
  lemma EmailMatchLongest(u: Unicode, s: string, i: nat, w: string)
    requires MatchAt(u, Email(), s, i, w)
    ensures i <= |s| && MatchEnd(u, Email(), s, i).Some? && i + |w| <= MatchEnd(u, Email(), s, i).value <= |s|
  {
    hide Accepts, Email;
    EmailFalls(u, s, i);
    EngineAccepts(u, Email(), s, i, i + |w|);
    MatchEndCorrect(u, Email(), s, i);
    GreatestFirst(u, s, Ends(u, Email(), s, i), i + |w|);
  }
}
