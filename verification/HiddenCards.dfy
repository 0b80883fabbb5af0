/**
  Valid card numbers that the whole table leaves in place: a digit and a blank before one are enough.
*/
module HiddenCards {
  import opened Wrappers
  import opened Rendering
  import opened Regex
  import opened Redaction
  import opened RedactionFacts
  import opened PiiRules
  import opened CardRule
  import Luhn

  // ---------------------------------------------------------------- how many digits a phone number has

  /** Every accepted text has between lo and hi digits. */
  ghost predicate Counts(u: Unicode, re: Re, lo: nat, hi: nat) {
    forall w: string :: Accepts(u, re, w) ==> lo <= DigitCount(u, w) <= hi
  }

  lemma OneCharacter(u: Unicode, w: string)
    requires |w| == 1
    ensures DigitCount(u, w) == if u.digit(w[0]) then 1 else 0
  {
    assert w[..0] == "";
    assert Luhn.DigitsOf(u, w) == Luhn.DigitsOf(u, "") + if u.digit(w[0]) then [u.digitValue(w[0])] else [];
  }

  lemma CountsChr(u: Unicode, cls: CharClass)
    ensures Counts(u, Chr(Digit), 1, 1) && Counts(u, Empty, 0, 0) && Counts(u, Chr(cls), 0, 1)
    ensures (forall c :: In(u, cls, c) ==> !u.digit(c)) ==> Counts(u, Chr(cls), 0, 0)
  {
    forall w: string | |w| == 1 ensures DigitCount(u, w) == if u.digit(w[0]) then 1 else 0 {
      OneCharacter(u, w);
    }
  }

  lemma CountsSplit(u: Unicode, w: string, k: nat)
    requires k <= |w|
    ensures DigitCount(u, w) == DigitCount(u, w[..k]) + DigitCount(u, w[k..])
  {
    DigitsOfConcat(u, w[..k], w[k..]);
    assert w == w[..k] + w[k..];
  }

  lemma CountsCat(u: Unicode, a: Re, b: Re, la: nat, ha: nat, lb: nat, hb: nat)
    requires Counts(u, a, la, ha) && Counts(u, b, lb, hb)
    ensures Counts(u, Cat(a, b), la + lb, ha + hb)
  {
    hide DigitCount;
    forall w: string | Accepts(u, Cat(a, b), w) ensures la + lb <= DigitCount(u, w) <= ha + hb {
      var k :| 0 <= k <= |w| && Accepts(u, a, w[..k]) && Accepts(u, b, w[k..]);
      CountsSplit(u, w, k);
    }
  }

  lemma CountsOpt(u: Unicode, a: Re, lo: nat, hi: nat)
    requires Counts(u, a, lo, hi)
    ensures Counts(u, Opt(a), 0, hi)
  {
  }

  lemma {:induction false} CountsTimes(u: Unicode, n: nat, rest: Re, lo: nat, hi: nat)
    requires Counts(u, rest, lo, hi)
    ensures Counts(u, Times(D(), n, rest), n + lo, n + hi)
  {
    hide Counts;
    if n > 0 {
      CountsTimes(u, n - 1, rest, lo, hi);
      CountsChr(u, Digit);
      CountsCat(u, D(), Times(D(), n - 1, rest), 1, 1, n - 1 + lo, n - 1 + hi);
    }
  }

  lemma CountsOne(u: Unicode, c: char)
    requires !u.digit(c)
    ensures Counts(u, One(c), 0, 0)
  {
    CountsChr(u, OneOf({c}));
  }

  lemma PhoneSeparator(u: Unicode)
    requires ValidUnicode(u)
    ensures Counts(u, Separator(), 0, 0)
  {
    assert forall c :: In(u, Either(OneOf({'-', '.'}), Space), c) ==> !u.digit(c);
    CountsChr(u, Either(OneOf({'-', '.'}), Space));
    CountsOpt(u, Chr(Either(OneOf({'-', '.'}), Space)), 0, 0);
  }

  lemma CountryDigits(u: Unicode)
    requires ValidUnicode(u)
    ensures Counts(u, CountryCode(), 0, 1)
  {
    PhoneSeparator(u);
    CountsOne(u, '+');
    hide ValidUnicode;
    CountsOpt(u, One('+'), 0, 0);
    CountsChr(u, OneOf({'1'}));
    CountsCat(u, One('1'), Separator(), 0, 1, 0, 0);
    CountsCat(u, Opt(One('+')), Cat(One('1'), Separator()), 0, 0, 0, 1);
    CountsOpt(u, Cat(Opt(One('+')), Cat(One('1'), Separator())), 0, 1);
  }

  lemma PhoneDigits(u: Unicode)
    requires ValidUnicode(u)
    ensures Counts(u, Phone(), 10, 11)
  {
    PhoneSeparator(u);
    CountryDigits(u);
    CountsOne(u, '(');
    CountsOne(u, ')');
    hide Counts, ValidUnicode;
    CountsChr(u, Digit);
    CountsOpt(u, One('('), 0, 0);
    CountsOpt(u, One(')'), 0, 0);
    CountsTimes(u, 4, Empty, 0, 0);
    var four := Times(D(), 4, Empty);
    CountsCat(u, Separator(), four, 0, 0, 4, 4);
    CountsTimes(u, 3, Cat(Separator(), four), 4, 4);
    var seven := Times(D(), 3, Cat(Separator(), four));
    CountsCat(u, Separator(), seven, 0, 0, 7, 7);
    CountsCat(u, Opt(One(')')), Cat(Separator(), seven), 0, 0, 7, 7);
    CountsTimes(u, 3, LocalNumber(), 7, 7);
    CountsCat(u, Opt(One('(')), Times(D(), 3, LocalNumber()), 0, 0, 10, 10);
    CountsCat(u, CountryCode(), Cat(Opt(One('(')), Times(D(), 3, LocalNumber())), 0, 1, 10, 10);
  }

  // ---------------------------------------------------------------- a digit, a blank and a number

  predicate Numeral(d: string) {
    forall i :: 0 <= i < |d| ==> AsciiDigit(d[i])
  }

  function Prefixed(c: char, d: string): string { [c] + " " + d }

  function NumeralValues(d: string): seq<int>
    requires Numeral(d)
  {
    seq(|d|, i requires 0 <= i < |d| => d[i] as int - '0' as int)
  }

  lemma {:induction false} NumeralDigits(u: Unicode, d: string)
    requires ValidUnicode(u) && Numeral(d)
    ensures Luhn.DigitsOf(u, d) == NumeralValues(d)
  {
    if d != "" {
      var n := |d| - 1;
      NumeralDigits(u, d[..n]);
      assert NumeralValues(d) == NumeralValues(d[..n]) + [d[n] as int - '0' as int];
    }
  }

  lemma PrefixedDigits(u: Unicode, c: char, d: string)
    requires ValidUnicode(u) && Numeral([c]) && Numeral(d)
    ensures Luhn.DigitsOf(u, Prefixed(c, d)) == [c as int - '0' as int] + NumeralValues(d)
    ensures DigitCount(u, Prefixed(c, d)) == |d| + 1 && DigitCount(u, " " + d) == |d| == DigitCount(u, d)
  {
    NumeralDigits(u, d);
    NumeralDigits(u, [c]);
    NoDigits(u, " ");
    DigitsOfConcat(u, [c], " ");
    DigitsOfConcat(u, [c] + " ", d);
    DigitsOfConcat(u, " ", d);
  }

  /** The word boundaries of such a text: around the digit and around the number. */
  lemma PrefixedBoundaries(u: Unicode, c: char, d: string, i: nat)
    requires ValidUnicode(u) && Numeral([c]) && Numeral(d) && d != "" && i <= |d| + 2
    ensures Boundary(u, Prefixed(c, d), i) <==> i <= 2 || i == |d| + 2
  {
    var t := Prefixed(c, d);
    assert t[0] == c && t[1] == ' ';
    assert [c][0] == c;
    assert forall k :: 2 <= k < |t| ==> t[k] == d[k - 2];
    assert !u.word(' ');
  }

  lemma PrefixCounts(u: Unicode, c: char)
    requires ValidUnicode(u) && Numeral([c])
    ensures DigitCount(u, "") == 0 == DigitCount(u, " ")
    ensures DigitCount(u, [c]) == 1 == DigitCount(u, [c] + " ")
  {
    NumeralDigits(u, [c]);
    NoDigits(u, " ");
    DigitsOfConcat(u, [c], " ");
  }

  /** What can stand in it: one of six texts, of no more than one digit or of at least as many as the number. */
  lemma PrefixedStands(u: Unicode, c: char, d: string, x: nat, w: string)
    requires ValidUnicode(u) && Numeral([c]) && Numeral(d) && 13 <= |d| && At(u, Prefixed(c, d), x, w)
    ensures DigitCount(u, w) <= 1 || 13 <= DigitCount(u, w)
    ensures x == 0 && 13 <= DigitCount(u, w) ==> w == Prefixed(c, d)
    ensures forall i :: 0 <= i < |w| ==> AsciiDigit(w[i]) || w[i] == ' '
  {
    hide ValidUnicode, DigitCount;
    var t := Prefixed(c, d);
    var y := x + |w|;
    PrefixedBoundaries(u, c, d, x);
    PrefixedBoundaries(u, c, d, y);
    PrefixedDigits(u, c, d);
    PrefixCounts(u, c);
    assert [c][0] == c && t[0] == c && t[1] == ' ' && forall k :: 2 <= k < |t| ==> t[k] == d[k - 2];
    assert forall i :: 0 <= i < |w| ==> w[i] == t[x + i];
    if y <= 2 {
      assert t[..2] == [c] + " ";
      assert w == "" || w == [c] || w == " " || w == [c] + " ";
    } else if x == 1 {
      assert w == " " + d;
    } else if x == 2 {
      assert w == d;
    } else if x == 0 {
      assert w == t;
    } else {
      assert w == "";
    }
  }

  lemma PrefixedIsCard(u: Unicode, c: char, d: string)
    requires ValidUnicode(u) && Numeral([c]) && Numeral(d) && 13 <= |d| <= 15
    ensures MatchAt(u, CreditCard(), Prefixed(c, d), 0, Prefixed(c, d))
    ensures MatchAt(u, CreditCard(), Prefixed(c, d), 2, d)
  {
    hide CreditCard, Accepts;
    var t := Prefixed(c, d);
    PrefixedDigits(u, c, d);
    PrefixedBoundaries(u, c, d, 0);
    PrefixedBoundaries(u, c, d, 2);
    PrefixedBoundaries(u, c, d, |t|);
    assert [c][0] == c && t[0] == c && t[1] == ' ' && forall k :: 2 <= k < |t| ==> t[k] == d[k - 2];
    assert t[0..|t|] == t && t[2..2 + |d|] == d;
    CardLanguage(u, t);
    CardLanguage(u, d);
  }

  /** The greedy rule reports the whole text as one match. */
  lemma PrefixedMatches(u: Unicode, c: char, d: string)
    requires ValidUnicode(u) && Numeral([c]) && Numeral(d) && 13 <= |d| <= 15
    ensures 1 <= MinLength(CreditCard())
    ensures Matches(u, CreditCard(), Prefixed(c, d), 0) == [Span(0, |d| + 2)]
  {
    hide CreditCard, Accepts, MinLength, ValidUnicode, Search;
    CardNotEmpty();
    var t := Prefixed(c, d);
    PrefixedIsCard(u, c, d);
    SearchCorrect(u, CreditCard(), t, 0);
    var m := Search(u, CreditCard(), t, 0).value;
    assert m.start == 0;
    var w := t[0..m.end];
    CardLanguage(u, w);
    PrefixedStands(u, c, d, 0, w);
    SearchCorrect(u, CreditCard(), t, |t|);
    FoundOnlyInside(u, t);
  }

  lemma FoundOnlyInside(u: Unicode, t: string)
    requires 1 <= MinLength(CreditCard())
    ensures Search(u, CreditCard(), t, |t|) == None
  {
    hide CreditCard;
    if Search(u, CreditCard(), t, |t|).Some? {
      FoundNotEmpty(u, CreditCard(), t, |t|);
    }
  }

  /** The checksum takes the whole text for a valid number exactly if the added digit is zero. */
  lemma PrefixedCheck(u: Unicode, c: char, d: string)
    requires ValidUnicode(u) && Numeral([c]) && Numeral(d) && Luhn.Check(u, d)
    ensures Luhn.Check(u, Prefixed(c, d)) <==> c == '0'
  {
    PrefixedDigits(u, c, d);
    NumeralDigits(u, d);
    assert [c][0] == c;
    var ds, v := NumeralValues(d), c as int - '0' as int;
    Luhn.LeadingZero(ds, false);
    assert ([0] + ds)[0 := v] == [v] + ds;
    if v != 0 {
      Luhn.SingleDigitError([0] + ds, 0, v);
    }
  }

  lemma RedactedOne(cfg: Settings, name: string, s: string, m: Span)
    ensures Redacted(cfg, name, s, [m]) == if Redacts(cfg, name, TextOf(s, m)) then [m] else []
  {
    assert [m][1..] == [];
  }

  /** The card pass redacts the whole text if the added digit is zero, and nothing otherwise. */
  lemma PrefixedCardPass(cfg: Settings, c: char, d: string)
    requires ValidUnicode(cfg.u) && cfg.luhnValidate && Numeral([c]) && Numeral(d) && |d| <= 15 && Luhn.Check(cfg.u, d)
    ensures 1 <= MinLength(CreditCard())
    ensures var t := Prefixed(c, d);
      PassFrom(cfg, Card(), t, 0) == if c == '0' then Outcome(Tag(CARD), [Entry(CARD, t)]) else Outcome(t, [])
  {
    hide CreditCard, MinLength, ValidUnicode;
    NumeralDigits(cfg.u, d);
    var t := Prefixed(c, d);
    PrefixedMatches(cfg.u, c, d);
    PrefixedCheck(cfg.u, c, d);
    var m := Span(0, |d| + 2);
    assert TextOf(t, m) == t[0..|t|] == t;
    assert [m][1..] == [];
    RedactedOne(cfg, CARD, t, m);
    assert PassCuts(cfg, Card(), t, 0) == if c == '0' then [m] else [];
    if c == '0' {
      RenderStep(t, 0, m, [], Tag(CARD));
      assert [m] + [] == [m] && [t] + [] == [t] && [t][1..] == [];
      assert t[|t|..] == "" && t[0..0] + Tag(CARD) + "" == Tag(CARD);
      assert Render(t, 0, [m], Tag(CARD)) == Tag(CARD) && Values(t, [m]) == [t];
      assert Entries(CARD, [t]) == [Entry(CARD, t)];
    } else {
      PassIdle(cfg, Card(), t);
    }
  }

  // ---------------------------------------------------------------- no other rule matches there

  lemma DottedHasDot(u: Unicode, w: string)
    requires Dotted(u, 3, w)
    ensures exists i: nat :: i < |w| && w[i] == '.'
  {
  }

  lemma EmailNeedsAt(u: Unicode, w: string)
    requires Accepts(u, Email(), w)
    ensures exists i :: 0 <= i < |w| && w[i] == '@'
  {
    var at := (ch: char) => ch == '@';
    assert Needs(u, One('@'), at);
    assert Needs(u, Cat(One('@'), Cat(Plus(HOST), TopLevel())), at);
    SpanNeeds(u, Email(), at, w);
  }

  lemma ApiKeyNeedsDash(u: Unicode, w: string)
    requires Accepts(u, ApiKey(), w)
    ensures exists i :: 0 <= i < |w| && w[i] == '-'
  {
    var dash := (ch: char) => ch == '-';
    assert Needs(u, One('-'), dash);
    assert Needs(u, Cat(One('-'), Times(Chr(ALNUM), 16, Star(ALNUM, true))), dash);
    SpanNeeds(u, ApiKey(), dash, w);
  }

  /** Each rule but the card's needs a character that is not there, or ten or eleven digits. */
  lemma NeedsSomethingElse(u: Unicode, k: nat, w: string)
    requires ValidUnicode(u) && k < 7 && k != 1 && Accepts(u, BodyAt(k), w)
    ensures 10 <= DigitCount(u, w) <= 11 || exists i :: 0 <= i < |w| && !AsciiDigit(w[i]) && w[i] != ' '
  {
    if k == 0 {
      SsnLanguage(u, w);
      assert !AsciiDigit(w[3]);
    } else if k == 2 {
      EmailNeedsAt(u, w);
    } else if k == 3 {
      PhoneDigits(u);
    } else if k == 4 {
      ApiKeyNeedsDash(u, w);
    } else if k == 5 {
      AwsKeyLanguage(u, w);
      assert w[..4][0] == 'A' && !AsciiDigit(w[0]);
    } else {
      IpLanguage(u, w);
      DottedHasDot(u, w);
    }
  }

  lemma OtherRulesFree(u: Unicode, c: char, d: string, k: nat)
    requires ValidUnicode(u) && Numeral([c]) && Numeral(d) && 13 <= |d| && k < 7 && k != 1
    ensures MatchFree(u, BodyAt(k), Prefixed(c, d))
  {
    hide BodyAt, Accepts, ValidUnicode, At;
    forall x: nat, w: string ensures !MatchAt(u, BodyAt(k), Prefixed(c, d), x, w) {
      if MatchAt(u, BodyAt(k), Prefixed(c, d), x, w) {
        PrefixedStands(u, c, d, x, w);
        NeedsSomethingElse(u, k, w);
        assert false;
      }
    }
  }

  lemma {:induction false} IdleRun(cfg: Settings, rules: seq<Rule>, s: string)
    requires NonEmptyRules(rules) && forall k :: 0 <= k < |rules| ==> PassFrom(cfg, rules[k], s, 0) == Outcome(s, [])
    ensures RunRules(cfg, rules, s) == Outcome(s, [])
    decreases |rules|
  {
    if rules != [] {
      IdleRun(cfg, rules[..|rules| - 1], s);
    }
  }

  /**
    A valid card number of 13 to 15 digits after a nonzero digit and a blank goes through all seven passes
    unchanged, although it stands between word boundaries and the card rule matches it there: the rule reports
    the longer match, the checksum refuses that, and the scan goes on behind it.
  */
  lemma HiddenCard(cfg: Settings, c: char, d: string)
    requires ValidUnicode(cfg.u) && cfg.luhnValidate
    requires Numeral([c]) && c != '0' && Numeral(d) && |d| <= 15 && Luhn.Check(cfg.u, d)
    ensures NonEmptyRules(Rules()) && RunRules(cfg, Rules(), Prefixed(c, d)) == Outcome(Prefixed(c, d), [])
    ensures MatchAt(cfg.u, CreditCard(), Prefixed(c, d), 2, d) && ValidCardIn(cfg.u, Prefixed(c, d))
  {
    hide CreditCard, Accepts, ValidUnicode, BodyAt;
    var t := Prefixed(c, d);
    NumeralDigits(cfg.u, d);
    RulesTagged();
    PrefixedIsCard(cfg.u, c, d);
    forall k | 0 <= k < |Rules()| ensures PassFrom(cfg, Rules()[k], t, 0) == Outcome(t, []) {
      RuleLooksUp(k);
      if k == 1 {
        CardAtOne();
        PrefixedCardPass(cfg, c, d);
      } else {
        OtherRulesFree(cfg.u, c, d, k);
        PassIdle(cfg, Rules()[k], t);
      }
    }
    IdleRun(cfg, Rules(), t);
  }

  // ---------------------------------------------------------------- one such text

  /** The checksum of n twos. */
  lemma {:induction false} Twos(n: nat, doubled: bool)
    ensures Luhn.RightToLeft(seq(n, _ => 2), doubled) ==
            if n % 2 == 0 then 3 * n else 3 * (n - 1) + if doubled then 4 else 2
  {
    if n > 0 {
      Twos(n - 1, !doubled);
      var twos: seq<int> := seq(n, _ => 2);
      assert twos[..n - 1] == seq(n - 1, _ => 2);
    }
  }

  lemma FourAndTwos(u: Unicode)
    requires ValidUnicode(u)
    ensures Numeral("4222222222222") && Luhn.Check(u, "4222222222222")
  {
    var d := "4222222222222";
    NumeralDigits(u, d);
    var twos: seq<int> := seq(12, _ => 2);
    assert NumeralValues(d) == [4] + twos;
    Twos(12, false);
    Luhn.LeadingZero(twos, false);
    assert ([0] + twos)[0 := 4] == [4] + twos;
    Luhn.SumAfterUpdate([0] + twos, false, 0, 4);
  }

  /** The sanitizer returns `1 4222222222222` as it is, with a valid card number in it. */
  lemma HiddenExample(cfg: Settings)
    requires ValidUnicode(cfg.u) && cfg.luhnValidate
    ensures NonEmptyRules(Rules()) && RunRules(cfg, Rules(), "1 4222222222222") == Outcome("1 4222222222222", [])
    ensures ValidCardIn(cfg.u, "1 4222222222222")
  {
    hide RunRules, ValidCardIn, ValidUnicode;
    FourAndTwos(cfg.u);
    assert Numeral(['1']);
    HiddenCard(cfg, '1', "4222222222222");
    assert Prefixed('1', "4222222222222") == "1 4222222222222";
  }
}
