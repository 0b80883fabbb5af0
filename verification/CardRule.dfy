/**
  The card rule.  Its checksum filter leaves some matches in place: exactly which ones, what that hides,
  and when the output is free of card numbers.
*/
module CardRule {
  import opened Rendering
  import opened Regex
  import opened Redaction
  import opened RedactionFacts
  import opened PiiRules
  import Luhn

  // ---------------------------------------------------------------- what the rule matches

  predicate CardSeparator(c: char) { c == ' ' || c == '-' }

  /** Empty, or a digit followed by digits, blanks and hyphens. */
  predicate CardShaped(u: Unicode, w: string) {
    && (w == "" || u.digit(w[0]))
    && forall i :: 0 <= i < |w| ==> u.digit(w[i]) || CardSeparator(w[i])
  }

  function DigitCount(u: Unicode, w: string): nat { |Luhn.DigitsOf(u, w)| }

  lemma {:induction false} DigitsOfConcat(u: Unicode, a: string, b: string)
    ensures Luhn.DigitsOf(u, a + b) == Luhn.DigitsOf(u, a) + Luhn.DigitsOf(u, b)
  {
    if b == "" {
      assert a + b == a;
    } else {
      assert (a + b)[..|a + b| - 1] == a + b[..|b| - 1];
      DigitsOfConcat(u, a, b[..|b| - 1]);
    }
  }

  lemma {:induction false} NoDigits(u: Unicode, w: string)
    requires forall i :: 0 <= i < |w| ==> !u.digit(w[i])
    ensures Luhn.DigitsOf(u, w) == []
  {
    if w != "" {
      NoDigits(u, w[..|w| - 1]);
    }
  }

  lemma CardDigitHasOne(u: Unicode, w: string)
    requires ValidUnicode(u) && Accepts(u, CardDigit(), w)
    ensures |Luhn.DigitsOf(u, w)| == 1
  {
    ChrThen(u, Digit, Star(OneOf({' ', '-'}), false), w);
    NoDigits(u, w[1..]);
    assert w == [w[0]] + w[1..];
    DigitsOfConcat(u, [w[0]], w[1..]);
    assert [w[0]][..0] == "";
  }

  /** A digit and the separators after it. */
  lemma CardDigitLanguage(u: Unicode, w: string)
    requires ValidUnicode(u)
    ensures Accepts(u, CardDigit(), w) <==>
            w != "" && u.digit(w[0]) && forall i :: 0 < i < |w| ==> CardSeparator(w[i])
  {
    ChrThen(u, Digit, Star(OneOf({' ', '-'}), false), w);
    if w != "" {
      assert forall i :: 0 < i < |w| ==> w[i] == w[1..][i - 1];
    }
  }

  /** The end of the first digit's separators. */
  function FirstEnd(u: Unicode, w: string, i: nat): (d: nat)
    requires i <= |w|
    ensures i <= d <= |w| && (d < |w| ==> u.digit(w[d])) && forall j :: i <= j < d ==> !u.digit(w[j])
    decreases |w| - i
  {
    if i == |w| || u.digit(w[i]) then i else FirstEnd(u, w, i + 1)
  }

  lemma CardShapedSplit(u: Unicode, w: string)
    requires ValidUnicode(u) && CardShaped(u, w) && w != ""
    ensures var d := FirstEnd(u, w, 1);
      && Accepts(u, CardDigit(), w[..d]) && CardShaped(u, w[d..]) && DigitCount(u, w) == 1 + DigitCount(u, w[d..])
  {
    var d := FirstEnd(u, w, 1);
    CardDigitLanguage(u, w[..d]);
    CardDigitHasOne(u, w[..d]);
    DigitsOfConcat(u, w[..d], w[d..]);
    assert w == w[..d] + w[d..];
  }

  lemma CardShapedJoin(u: Unicode, w: string, k: nat)
    requires ValidUnicode(u) && k <= |w| && Accepts(u, CardDigit(), w[..k]) && CardShaped(u, w[k..])
    ensures CardShaped(u, w) && w != "" && DigitCount(u, w) == 1 + DigitCount(u, w[k..])
  {
    CardDigitLanguage(u, w[..k]);
    CardDigitHasOne(u, w[..k]);
    DigitsOfConcat(u, w[..k], w[k..]);
    assert w == w[..k] + w[k..];
    forall i | 0 <= i < |w| ensures u.digit(w[i]) || CardSeparator(w[i]) {
      assert w[i] == if i < k then w[..k][i] else w[k..][i - k];
    }
  }

  lemma CardHasDigit(u: Unicode, w: string)
    requires ValidUnicode(u) && CardShaped(u, w)
    ensures w != "" ==> 1 <= DigitCount(u, w)
  {
    if w != "" {
      CardShapedSplit(u, w);
    }
  }

  lemma {:induction false} CardTail(u: Unicode, n: nat, w: string)
    requires ValidUnicode(u)
    ensures Accepts(u, UpTo(CardDigit(), n), w) <==> CardShaped(u, w) && DigitCount(u, w) <= n
    decreases n, |w|
  {
    if CardShaped(u, w) {
      CardHasDigit(u, w);
    }
    if n > 0 {
      var rest := UpTo(CardDigit(), n - 1);
      forall k | 0 <= k <= |w|
        ensures Accepts(u, rest, w[k..]) <==> CardShaped(u, w[k..]) && DigitCount(u, w[k..]) <= n - 1
      {
        CardTail(u, n - 1, w[k..]);
      }
      CardCat(u, rest, w, 0, n - 1);
      assert Accepts(u, UpTo(CardDigit(), n), w) <==> w == "" || Accepts(u, Cat(CardDigit(), rest), w);
    }
  }

  /** If the rest is card shaped with its digits in a range, so is the whole, with one more digit. */
  lemma CardCat(u: Unicode, rest: Re, w: string, lo: nat, hi: nat)
    requires ValidUnicode(u)
    requires forall k :: 0 <= k <= |w| ==>
               (Accepts(u, rest, w[k..]) <==> CardShaped(u, w[k..]) && lo <= DigitCount(u, w[k..]) <= hi)
    ensures Accepts(u, Cat(CardDigit(), rest), w) <==>
            w != "" && CardShaped(u, w) && lo + 1 <= DigitCount(u, w) <= hi + 1
  {
    if Accepts(u, Cat(CardDigit(), rest), w) {
      var k :| 0 <= k <= |w| && Accepts(u, CardDigit(), w[..k]) && Accepts(u, rest, w[k..]);
      CardShapedJoin(u, w, k);
    }
    if w != "" && CardShaped(u, w) && lo + 1 <= DigitCount(u, w) <= hi + 1 {
      CardShapedSplit(u, w);
      AcceptsAt(u, CardDigit(), rest, w, FirstEnd(u, w, 1));
    }
  }

  lemma {:induction false} CardItems(u: Unicode, n: nat, w: string)
    requires ValidUnicode(u)
    ensures Accepts(u, Times(CardDigit(), n, UpTo(CardDigit(), 3)), w) <==>
            CardShaped(u, w) && n <= DigitCount(u, w) <= n + 3
    decreases n
  {
    if n == 0 {
      CardTail(u, 3, w);
    } else {
      var rest := Times(CardDigit(), n - 1, UpTo(CardDigit(), 3));
      forall k | 0 <= k <= |w|
        ensures Accepts(u, rest, w[k..]) <==> CardShaped(u, w[k..]) && n - 1 <= DigitCount(u, w[k..]) <= n + 2
      {
        CardItems(u, n - 1, w[k..]);
      }
      CardCat(u, rest, w, n - 1, n + 2);
    }
  }

  /** The rule matches exactly the texts of digits, blanks and hyphens that begin with a digit and have 13 to 16. */
  lemma CardLanguage(u: Unicode, w: string)
    requires ValidUnicode(u)
    ensures Accepts(u, CreditCard(), w) <==> CardShaped(u, w) && 13 <= DigitCount(u, w) <= 16
  {
    CardItems(u, 13, w);
  }

  /** Whatever the card rule matches has 13 to 16 digits, so inside the pass the checksum alone decides. */
  lemma CardGuardNeverFires(u: Unicode, w: string)
    requires ValidUnicode(u) && Accepts(u, CreditCard(), w)
    ensures 13 <= |Luhn.DigitsOf(u, w)| <= 16
    ensures Luhn.Check(u, w) <==> Luhn.RightToLeft(Luhn.DigitsOf(u, w), false) % 10 == 0
  {
    CardLanguage(u, w);
  }

  // ---------------------------------------------------------------- what the card pass leaves

  function Card(): Rule { Rule(CARD, CreditCard()) }

  /** A text up to its last digit. */
  function Trimmed(u: Unicode, w: string): string {
    if w == "" || u.digit(w[|w| - 1]) then w else Trimmed(u, w[..|w| - 1])
  }

  lemma {:induction false} TrimmedCard(u: Unicode, w: string)
    requires ValidUnicode(u) && CardShaped(u, w) && w != ""
    ensures var t := Trimmed(u, w);
      && t != "" && t <= w && CardShaped(u, t) && u.digit(t[|t| - 1]) && Luhn.DigitsOf(u, t) == Luhn.DigitsOf(u, w)
      && (|t| < |w| ==> CardSeparator(w[|t|]))
  {
    var n := |w| - 1;
    if !u.digit(w[n]) {
      TrimmedCard(u, w[..n]);
    }
  }

  /** Without the separators it ends with, a card match is still one: it has word ends and the same digits. */
  lemma TrimmedStands(u: Unicode, s: string, x: nat, w: string)
    requires ValidUnicode(u) && MatchAt(u, CreditCard(), s, x, w)
    ensures var t := Trimmed(u, w);
      && t != "" && |t| <= |w| && WordEnds(u, t) && MatchAt(u, CreditCard(), s, x, t)
      && Luhn.DigitsOf(u, t) == Luhn.DigitsOf(u, w)
  {
    hide CreditCard, Accepts;
    CardLanguage(u, w);
    assert w != "" by {
      assert DigitCount(u, "") == 0;
    }
    TrimmedCard(u, w);
    var t := Trimmed(u, w);
    CardLanguage(u, t);
    assert s[x..x + |t|] == t;
    assert s[x + |t| - 1] == t[|t| - 1];
    assert |t| < |w| ==> s[x + |t|] == w[|t|];
  }

  lemma CardUntouched(u: Unicode, w: string)
    requires ValidUnicode(u) && Accepts(u, CreditCard(), w)
    ensures Untouched(u, Tag(CARD), w) && TagShaped(Tag(CARD)) && BracketsAreNotWords(u)
    ensures 1 <= MinLength(CreditCard())
  {
    hide Accepts, Untouched, UntouchedByAll, Foreign, TagShaped, CreditCard;
    RulesTagged();
    RuleLooksUp(1);
    BodyForeign(u, 1);
    CardNotEmpty();
    ForeignUntouched(u, CreditCard(), Rules(), 1, w);
  }

  /** A text the rule matches stands after the card pass, perhaps shortened by trailing separators. */
  ghost predicate CardLeft(cfg: Settings, s: string, x: nat, w: string) {
    && MatchAt(cfg.u, CreditCard(), s, x, w)
    && 1 <= MinLength(CreditCard())
    && ClearOf(PassCuts(cfg, Card(), s, 0), x, x + |w|)
  }

  /**
    Every match left after the card pass stood in its input, clear of all redacted spans, and overlapped a
    reported match that the checksum refused.
  */
  lemma LeftOnesOverlapRefused(cfg: Settings, s: string, a: nat, w: string) returns (x: nat, k: nat)
    requires ValidUnicode(cfg.u) && 1 <= MinLength(CreditCard())
    requires MatchAt(cfg.u, CreditCard(), PassFrom(cfg, Card(), s, 0).text, a, w)
    ensures CardLeft(cfg, s, x, w)
    ensures RefusedAt(cfg, Card(), s, k) && !Apart(x, x + |w|, Matches(cfg.u, CreditCard(), s, 0)[k])
    ensures cfg.luhnValidate && !Luhn.Check(cfg.u, TextOf(s, Matches(cfg.u, CreditCard(), s, 0)[k]))
  {
    hide CreditCard, Accepts, Untouched, TagShaped;
    CardUntouched(cfg.u, w);
    x := PassCreatesNothing(cfg, Card(), s, a, w);
    UncutIsRefused(cfg, Card(), s, x, w);
    k :| RefusedAt(cfg, Card(), s, k) && !Apart(x, x + |w|, Matches(cfg.u, CreditCard(), s, 0)[k]);
  }

  /** And every match clear of the redacted spans is left, up to separators at its end. */
  lemma ClearOnesAreLeft(cfg: Settings, s: string, x: nat, w: string) returns (a: nat)
    requires ValidUnicode(cfg.u) && CardLeft(cfg, s, x, w)
    ensures MatchAt(cfg.u, CreditCard(), PassFrom(cfg, Card(), s, 0).text, a, Trimmed(cfg.u, w))
  {
    hide CreditCard, Accepts, Untouched, TagShaped, ValidUnicode;
    CardUntouched(cfg.u, w);
    TrimmedStands(cfg.u, s, x, w);
    PassCutsAreCuts(cfg, Card(), s, 0);
    a := Kept(cfg.u, s, 0, PassCuts(cfg, Card(), s, 0), Tag(CARD), x, Trimmed(cfg.u, w));
  }

  /** The card pass leaves no card number exactly when the checksum refuses none of the reported matches. */
  lemma CardPassClears(cfg: Settings, s: string)
    requires ValidUnicode(cfg.u)
    ensures 1 <= MinLength(CreditCard())
    ensures MatchFree(cfg.u, CreditCard(), PassFrom(cfg, Card(), s, 0).text) <==> AllRedacted(cfg, Card(), s)
  {
    hide CreditCard, Accepts, ValidUnicode;
    CardNotEmpty();
    var out := PassFrom(cfg, Card(), s, 0).text;
    if a: nat, w: string :| MatchAt(cfg.u, CreditCard(), out, a, w) {
      var x, k := LeftOnesOverlapRefused(cfg, s, a, w);
    }
    if k: nat :| RefusedAt(cfg, Card(), s, k) {
      RefusedIsUncut(cfg, Card(), s, k);
      var m := Matches(cfg.u, CreditCard(), s, 0)[k];
      var a := ClearOnesAreLeft(cfg, s, m.start, s[m.start..m.end]);
    }
  }

  ghost predicate ValidCardIn(u: Unicode, s: string) {
    exists a: nat, w: string :: MatchAt(u, CreditCard(), s, a, w) && Luhn.Check(u, w)
  }

  /**
    A number that passes the checksum is left after the card pass exactly when one stood in the text clear of
    all redacted spans, that is, inside or across matches that the scan reported and the checksum refused.
  */
  lemma ValidCardLeft(cfg: Settings, s: string)
    requires ValidUnicode(cfg.u)
    ensures 1 <= MinLength(CreditCard())
    ensures ValidCardIn(cfg.u, PassFrom(cfg, Card(), s, 0).text) <==>
            exists x: nat, w: string :: CardLeft(cfg, s, x, w) && Luhn.Check(cfg.u, w)
  {
    hide CreditCard, Accepts, ValidUnicode;
    CardNotEmpty();
    var out := PassFrom(cfg, Card(), s, 0).text;
    if ValidCardIn(cfg.u, out) {
      var a: nat, w: string :| MatchAt(cfg.u, CreditCard(), out, a, w) && Luhn.Check(cfg.u, w);
      var x, k := LeftOnesOverlapRefused(cfg, s, a, w);
    }
    if x: nat, w: string :| CardLeft(cfg, s, x, w) && Luhn.Check(cfg.u, w) {
      TrimmedStands(cfg.u, s, x, w);
      var a := ClearOnesAreLeft(cfg, s, x, w);
    }
  }

  // ---------------------------------------------------------------- after all the passes

  /** The text the card pass is given, and the text it gives. */
  ghost function BeforeCard(cfg: Settings, text: string): string {
    RulesTagged();
    RunRules(cfg, Rules()[..1], text).text
  }

  ghost function AfterCard(cfg: Settings, text: string): string {
    CardNotEmpty();
    PassFrom(cfg, Card(), BeforeCard(cfg, text), 0).text
  }

  lemma AfterCardIsRun(cfg: Settings, text: string)
    ensures NonEmptyRules(Rules()[..2]) && RunRules(cfg, Rules()[..2], text).text == AfterCard(cfg, text)
  {
    RulesTagged();
    RuleLooksUp(1);
    var two := Rules()[..2];
    assert two[..1] == Rules()[..1];
    assert two[|two| - 1] == Card();
  }

  /** A card number in the final text was left by the card pass, for the reason above. */
  lemma FinalCardsWereLeft(cfg: Settings, text: string, w: string) returns (x: nat, k: nat)
    requires ValidUnicode(cfg.u) && NonEmptyRules(Rules()) && Accepts(cfg.u, CreditCard(), w)
    requires Stands(cfg.u, RunRules(cfg, Rules(), text).text, w)
    ensures 1 <= MinLength(CreditCard())
    ensures CardLeft(cfg, BeforeCard(cfg, text), x, w)
    ensures RefusedAt(cfg, Card(), BeforeCard(cfg, text), k)
    ensures !Apart(x, x + |w|, Matches(cfg.u, CreditCard(), BeforeCard(cfg, text), 0)[k])
  {
    hide CreditCard, Accepts, Untouched, RunRules, ValidUnicode;
    RulesTagged();
    RuleLooksUp(1);
    CardNotEmpty();
    CardUntouched(cfg.u, w);
    BodyForeign(cfg.u, 1);
    assert Foreign(cfg.u, CreditCard(), Rules());
    NothingCreatedSince(cfg, Rules(), text, 2, w);
    AfterCardIsRun(cfg, text);
    var a: nat :| At(cfg.u, AfterCard(cfg, text), a, w);
    x, k := LeftOnesOverlapRefused(cfg, BeforeCard(cfg, text), a, w);
  }

  /** No later rule finds anything in what the card pass gives. */
  ghost predicate LaterRulesIdle(cfg: Settings, text: string) {
    forall k :: 2 <= k < 7 ==> MatchFree(cfg.u, BodyAt(k), AfterCard(cfg, text))
  }

  /**
    The output holds no card number if the checksum refuses none of the matches the card pass reports, and
    only then where the later rules have nothing to redact, for these could still cut into what it left.
  */
  lemma OutputHasNoCard(cfg: Settings, text: string)
    requires ValidUnicode(cfg.u)
    ensures NonEmptyRules(Rules()) && 1 <= MinLength(CreditCard())
    ensures var free := MatchFree(cfg.u, CreditCard(), RunRules(cfg, Rules(), text).text);
      var accepted := AllRedacted(cfg, Card(), BeforeCard(cfg, text));
      (accepted ==> free) && (LaterRulesIdle(cfg, text) ==> (free <==> accepted))
  {
    hide CreditCard, BodyAt, MatchFree, AllRedacted, RunRules, ValidUnicode;
    RulesTagged();
    CardNotEmpty();
    RuleLooksUp(1);
    assert Rules()[1] == Card() && BodyAt(1) == CreditCard() by {
      CardAtOne();
    }
    PiiComplete(cfg, text, 1);
    CardPassClears(cfg, BeforeCard(cfg, text));
    AfterCardIsRun(cfg, text);
    if LaterRulesIdle(cfg, text) {
      forall k | 2 <= k < |Rules()| ensures Rules()[k].body == BodyAt(k) {
        RuleLooksUp(k);
      }
      IdleAfter(cfg, Rules(), text, 2);
    }
  }

  /**
    The same for numbers that pass the checksum: the output holds one only if the card pass was given one clear
    of all it redacted, and exactly then where the later rules have nothing to redact.
  */
  lemma ValidCardInOutput(cfg: Settings, text: string)
    requires ValidUnicode(cfg.u)
    ensures NonEmptyRules(Rules()) && 1 <= MinLength(CreditCard())
    ensures var left := exists x: nat, w: string :: CardLeft(cfg, BeforeCard(cfg, text), x, w) && Luhn.Check(cfg.u, w);
      var valid := ValidCardIn(cfg.u, RunRules(cfg, Rules(), text).text);
      (valid ==> left) && (LaterRulesIdle(cfg, text) ==> (valid <==> left))
  {
    hide CreditCard, BodyAt, MatchFree, RunRules, ValidUnicode, CardLeft, Accepts;
    RulesTagged();
    CardNotEmpty();
    var out := RunRules(cfg, Rules(), text).text;
    AfterCardIsRun(cfg, text);
    ValidCardLeft(cfg, BeforeCard(cfg, text));
    if a: nat, w: string :| MatchAt(cfg.u, CreditCard(), out, a, w) && Luhn.Check(cfg.u, w) {
      assert Stands(cfg.u, out, w);
      var x, k := FinalCardsWereLeft(cfg, text, w);
    }
    if LaterRulesIdle(cfg, text) {
      forall k | 2 <= k < |Rules()| ensures Rules()[k].body == BodyAt(k) {
        RuleLooksUp(k);
      }
      IdleAfter(cfg, Rules(), text, 2);
    }
  }

  /**
    And exactly: the output holds a card number if and only if some number, taken without separators at its
    end, is found by each of the seven passes and cut into by none.
  */
  lemma OutputHasCard(cfg: Settings, text: string)
    requires ValidUnicode(cfg.u)
    ensures NonEmptyRules(Rules()) && |Rules()| == 7
    ensures !MatchFree(cfg.u, CreditCard(), RunRules(cfg, Rules(), text).text) <==>
            exists w: string :: Accepts(cfg.u, CreditCard(), w) && WordEnds(cfg.u, w)
                                && forall n: nat :: n < 7 ==> LeftClear(cfg, Rules(), text, n, w)
  {
    hide CreditCard, BodyAt, RunRules, ValidUnicode, LeftClear, Accepts, UntouchedByAll;
    RulesTagged();
    RuleLooksUp(1);
    BodyForeign(cfg.u, 1);
    CardAtOne();
    var out := RunRules(cfg, Rules(), text).text;
    if x: nat, w: string :| MatchAt(cfg.u, CreditCard(), out, x, w) {
      TrimmedStands(cfg.u, out, x, w);
      var t := Trimmed(cfg.u, w);
      CardUntouched(cfg.u, t);
      assert Stands(cfg.u, out, t);
      Survives(cfg, Rules(), text, t);
    }
    if w: string :| Accepts(cfg.u, CreditCard(), w) && WordEnds(cfg.u, w)
                    && forall n: nat :: n < 7 ==> LeftClear(cfg, Rules(), text, n, w)
    {
      CardUntouched(cfg.u, w);
      Survives(cfg, Rules(), text, w);
      var a: nat :| At(cfg.u, out, a, w);
      assert MatchAt(cfg.u, CreditCard(), out, a, w);
    }
  }

  lemma CardAtOne()
    ensures Rules()[1] == Card() && BodyAt(1) == CreditCard()
  {
    RuleLooksUp(1);
  }
}
