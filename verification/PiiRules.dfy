/**
  The seven rules of the sanitizer, in their order, and what the general theorems say about them.
*/
module PiiRules {
  import opened Rendering
  import opened Regex
  import opened Redaction
  import opened RedactionFacts

  const LETTER := Either(Range('A', 'Z'), Range('a', 'z'))
  const ALNUM := Either(LETTER, Range('0', '9'))
  const UPPER_NUM := Either(Range('0', '9'), Range('A', 'Z'))

  function One(c: char): Re { Chr(OneOf({c})) }

  function D(): Re { Chr(Digit) }

  function Separator(): Re { Opt(Chr(Either(OneOf({'-', '.'}), Space))) }

  /** `\d{3}-\d{2}-\d{4}` */
  function Ssn(): Re {
    Times(D(), 3, Cat(One('-'), Times(D(), 2, Cat(One('-'), Times(D(), 4, Empty)))))
  }

  /** `\d[ -]*?` */
  function CardDigit(): Re { Cat(D(), Star(OneOf({' ', '-'}), false)) }

  /** `(?:\d[ -]*?){13,16}` */
  function CreditCard(): Re { Times(CardDigit(), 13, UpTo(CardDigit(), 3)) }

  /** `\.[A-Za-z]{2,}` */
  function TopLevel(): Re { Cat(One('.'), Times(Chr(LETTER), 2, Star(LETTER, true))) }

  const LOCAL := Either(ALNUM, OneOf({'.', '_', '%', '+', '-'}))
  const HOST := Either(ALNUM, OneOf({'.', '-'}))

  /** `[A-Za-z0-9._%+-]+@[A-Za-z0-9.-]+\.[A-Za-z]{2,}` */
  function Email(): Re {
    Cat(Plus(LOCAL), Cat(One('@'), Cat(Plus(HOST), TopLevel())))
  }

  /** `(?:\+?1[-.\s]?)?` */
  function CountryCode(): Re { Opt(Cat(Opt(One('+')), Cat(One('1'), Separator()))) }

  /** `\)?[-.\s]?\d{3}[-.\s]?\d{4}` */
  function LocalNumber(): Re {
    Cat(Opt(One(')')), Cat(Separator(), Times(D(), 3, Cat(Separator(), Times(D(), 4, Empty)))))
  }

  /** `(?:\+?1[-.\s]?)?\(?\d{3}\)?[-.\s]?\d{3}[-.\s]?\d{4}` */
  function Phone(): Re {
    Cat(CountryCode(), Cat(Opt(One('(')), Times(D(), 3, LocalNumber())))
  }

  /** `(?:sk|pk|rk)-[A-Za-z0-9]{16,}` */
  function ApiKey(): Re {
    Cat(Alt(Literal("sk"), Alt(Literal("pk"), Literal("rk"))),
      Cat(One('-'), Times(Chr(ALNUM), 16, Star(ALNUM, true))))
  }

  /** `AKIA[0-9A-Z]{16}` */
  function AwsKey(): Re { Cat(Literal("AKIA"), Times(Chr(UPPER_NUM), 16, Empty)) }

  /** `\d{1,3}` */
  function Octet(): Re { Cat(D(), UpTo(D(), 2)) }

  /** `(?:\d{1,3}\.){3}\d{1,3}` */
  function IpAddress(): Re { Times(Cat(Octet(), One('.')), 3, Octet()) }

  function NameAt(k: nat): string {
    if k == 0 then "SSN"
    else if k == 1 then CARD
    else if k == 2 then "EMAIL"
    else if k == 3 then "PHONE"
    else if k == 4 then "API_KEY"
    else if k == 5 then "AWS_KEY"
    else "IP_ADDRESS"
  }

  function BodyAt(k: nat): Re {
    if k == 0 then Ssn()
    else if k == 1 then CreditCard()
    else if k == 2 then Email()
    else if k == 3 then Phone()
    else if k == 4 then ApiKey()
    else if k == 5 then AwsKey()
    else IpAddress()
  }

  /** The rule table, in the order the passes run. */
  function Rules(): seq<Rule> {
    seq(7, k requires 0 <= k => Rule(NameAt(k), BodyAt(k)))
  }

  // ---------------------------------------------------------------- the shape of repetitions

  lemma {:induction false} TimesOnly(u: Unicode, r: Re, n: nat, rest: Re, p: char -> bool)
    requires Only(u, r, p) && Only(u, rest, p)
    ensures Only(u, Times(r, n, rest), p)
  {
    if n > 0 {
      TimesOnly(u, r, n - 1, rest, p);
    }
  }

  lemma {:induction false} TimesLength(r: Re, n: nat, rest: Re)
    requires 1 <= MinLength(r)
    ensures n + MinLength(rest) <= MinLength(Times(r, n, rest))
  {
    if n > 0 {
      TimesLength(r, n - 1, rest);
    }
  }

  lemma {:induction false} UpToOnly(u: Unicode, r: Re, n: nat, p: char -> bool)
    requires Only(u, r, p)
    ensures Only(u, UpTo(r, n), p)
  {
    if n > 0 {
      UpToOnly(u, r, n - 1, p);
    }
  }

  lemma {:induction false} LiteralOnly(u: Unicode, s: string, p: char -> bool)
    requires forall k :: 0 <= k < |s| ==> p(s[k])
    ensures Only(u, Literal(s), p) && MinLength(Literal(s)) == |s|
  {
    if s != "" {
      LiteralOnly(u, s[1..], p);
    }
  }

  // ---------------------------------------------------------------- no rule can match a bracket

  ghost predicate Plain(u: Unicode, re: Re) {
    Only(u, re, NotBracket)
  }

  lemma DigitPlain(u: Unicode, n: nat, rest: Re)
    requires ValidUnicode(u) && Plain(u, rest)
    ensures Plain(u, D()) && Plain(u, Times(D(), n, rest))
  {
    TimesOnly(u, D(), n, rest, NotBracket);
  }

  lemma SsnPlain(u: Unicode)
    requires ValidUnicode(u)
    ensures Plain(u, Ssn())
  {
    DigitPlain(u, 4, Empty);
    DigitPlain(u, 2, Cat(One('-'), Times(D(), 4, Empty)));
    DigitPlain(u, 3, Cat(One('-'), Times(D(), 2, Cat(One('-'), Times(D(), 4, Empty)))));
  }

  lemma CardPlain(u: Unicode)
    requires ValidUnicode(u)
    ensures Plain(u, CreditCard())
  {
    UpToOnly(u, CardDigit(), 3, NotBracket);
    TimesOnly(u, CardDigit(), 13, UpTo(CardDigit(), 3), NotBracket);
  }

  lemma IpPlain(u: Unicode)
    requires ValidUnicode(u)
    ensures Plain(u, IpAddress())
  {
    UpToOnly(u, D(), 2, NotBracket);
    TimesOnly(u, Cat(Octet(), One('.')), 3, Octet(), NotBracket);
  }

  lemma PhonePlain(u: Unicode)
    requires ValidUnicode(u)
    ensures Plain(u, Phone())
  {
    assert Plain(u, One('(')) && Plain(u, One(')')) && Plain(u, One('+')) && Plain(u, One('1'));
    assert forall c :: In(u, OneOf({'-', '.'}), c) ==> NotBracket(c);
    assert forall c :: In(u, Space, c) ==> NotBracket(c);
    assert Plain(u, Chr(Either(OneOf({'-', '.'}), Space)));
    assert Plain(u, Separator());
    DigitPlain(u, 4, Empty);
    DigitPlain(u, 3, Cat(Separator(), Times(D(), 4, Empty)));
    assert Plain(u, Cat(Separator(), Times(D(), 3, Cat(Separator(), Times(D(), 4, Empty)))));
    DigitPlain(u, 3, LocalNumber());
    assert Plain(u, Opt(One('+'))) && Plain(u, Cat(One('1'), Separator()));
    assert Plain(u, Cat(Opt(One('+')), Cat(One('1'), Separator())));
    assert Plain(u, CountryCode());
    assert Plain(u, Opt(One('(')));
    assert Plain(u, Cat(Opt(One('(')), Times(D(), 3, LocalNumber())));
  }

  lemma ClassesPlain(u: Unicode)
    ensures forall c :: In(u, LETTER, c) ==> NotBracket(c)
    ensures forall c :: In(u, ALNUM, c) ==> NotBracket(c)
    ensures forall c :: In(u, LOCAL, c) ==> NotBracket(c)
    ensures forall c :: In(u, HOST, c) ==> NotBracket(c)
  {
    assert forall c :: In(u, LETTER, c) ==> NotBracket(c);
    assert forall c :: In(u, ALNUM, c) ==> NotBracket(c);
  }

  lemma EmailPlain(u: Unicode)
    ensures Plain(u, Email())
  {
    ClassesPlain(u);
    TimesOnly(u, Chr(LETTER), 2, Star(LETTER, true), NotBracket);
    assert Plain(u, TopLevel());
    assert Plain(u, Chr(HOST)) && Plain(u, Star(HOST, true)) && Plain(u, Plus(HOST));
    assert Plain(u, Chr(LOCAL)) && Plain(u, Star(LOCAL, true)) && Plain(u, Plus(LOCAL));
    assert Plain(u, Cat(Plus(HOST), TopLevel()));
    assert Plain(u, Cat(One('@'), Cat(Plus(HOST), TopLevel())));
  }

  lemma ApiKeyPlain(u: Unicode)
    ensures Plain(u, ApiKey())
  {
    ClassesPlain(u);
    TimesOnly(u, Chr(ALNUM), 16, Star(ALNUM, true), NotBracket);
    LiteralOnly(u, "sk", NotBracket);
    LiteralOnly(u, "pk", NotBracket);
    LiteralOnly(u, "rk", NotBracket);
    assert Plain(u, Alt(Literal("pk"), Literal("rk")));
    assert Plain(u, Cat(One('-'), Times(Chr(ALNUM), 16, Star(ALNUM, true))));
  }

  predicate KeyChar(c: char) {
    'A' <= c <= 'Z' || '0' <= c <= '9'
  }

  lemma AwsKeyShape(u: Unicode)
    ensures Only(u, AwsKey(), KeyChar) && 20 <= MinLength(AwsKey())
  {
    LiteralOnly(u, "AKIA", KeyChar);
    TimesOnly(u, Chr(UPPER_NUM), 16, Empty, KeyChar);
    TimesLength(Chr(UPPER_NUM), 16, Empty);
  }

  // ---------------------------------------------------------------- no rule can match inside a tag

  predicate TagChar(c: char) {
    'A' <= c <= 'Z' || c == '_' || c == '[' || c == ']'
  }

  ghost predicate TagLike(tag: string) {
    && TagShaped(tag)
    && (forall i :: 0 <= i < |tag| ==> TagChar(tag[i]))
    && 10 <= |tag| <= 22 && tag[9] == '_'
  }

  lemma NameMakesTag(name: string)
    requires |name| <= 11 && forall i :: 0 <= i < |name| ==> 'A' <= name[i] <= 'Z' || name[i] == '_'
    ensures TagLike(Tag(name))
  {
    var front := "[REDACTED_";
    assert forall i :: 0 <= i < |Tag(name)| ==>
      Tag(name)[i] == if i < 10 then front[i] else if i < 10 + |name| then name[i - 10] else ']';
  }

  lemma {:induction false} TagsLike(k: nat)
    ensures TagLike(Tag(NameAt(k)))
  {
    NameMakesTag(NameAt(k));
  }

  lemma NamesDistinct(j: nat, k: nat)
    requires j < k < 7
    ensures NameAt(j) != NameAt(k)
  {
    assert |"SSN"| == 3 && |CARD| == 11 && |"EMAIL"| == 5 && |"PHONE"| == 5;
    assert "EMAIL"[0] == 'E' && "PHONE"[0] == 'P';
    assert |"API_KEY"| == 7 && |"AWS_KEY"| == 7 && |"IP_ADDRESS"| == 10;
    assert "API_KEY"[1] == 'P' && "AWS_KEY"[1] == 'W';
  }

  lemma SsnNotEmpty()
    ensures 1 <= MinLength(Ssn())
  {
    TimesLength(D(), 3, Cat(One('-'), Times(D(), 2, Cat(One('-'), Times(D(), 4, Empty)))));
  }

  lemma CardNotEmpty()
    ensures 1 <= MinLength(CreditCard())
  {
    TimesLength(CardDigit(), 13, UpTo(CardDigit(), 3));
  }

  lemma EmailNotEmpty()
    ensures 1 <= MinLength(Email())
  {
    assert 1 <= MinLength(Plus(LOCAL));
  }

  lemma PhoneNotEmpty()
    ensures 1 <= MinLength(Phone())
  {
    TimesLength(D(), 3, LocalNumber());
  }

  lemma ApiKeyNotEmpty()
    ensures 1 <= MinLength(ApiKey())
  {
    assert 1 <= MinLength(One('-'));
  }

  lemma AwsKeyNotEmpty()
    ensures 1 <= MinLength(AwsKey())
  {
    TimesLength(Chr(UPPER_NUM), 16, Empty);
  }

  lemma IpNotEmpty()
    ensures 1 <= MinLength(IpAddress())
  {
    TimesLength(Cat(Octet(), One('.')), 3, Octet());
  }

  lemma BodyNotEmpty(k: nat)
    ensures 1 <= MinLength(BodyAt(k))
  {
    if k == 0 { SsnNotEmpty(); }
    else if k == 1 { CardNotEmpty(); }
    else if k == 2 { EmailNotEmpty(); }
    else if k == 3 { PhoneNotEmpty(); }
    else if k == 4 { ApiKeyNotEmpty(); }
    else if k == 5 { AwsKeyNotEmpty(); }
    else { IpNotEmpty(); }
  }

  lemma RuleLooksUp(k: nat)
    requires k < 7
    ensures |Rules()| == 7 && Rules()[k].name == NameAt(k) && Rules()[k].body == BodyAt(k)
  {
  }

  lemma RulesTagged()
    ensures Tagged(Rules())
  {
    var rules := Rules();
    forall k | 0 <= k < |rules| ensures 1 <= MinLength(rules[k].body) {
      RuleLooksUp(k);
      BodyNotEmpty(k);
    }
    forall k | 0 <= k < |rules| ensures TagShaped(Tag(rules[k].name)) {
      RuleLooksUp(k);
      TagsLike(k);
    }
    forall j, k | 0 <= j < k < |rules| ensures rules[j].name != rules[k].name {
      RuleLooksUp(j);
      RuleLooksUp(k);
      NamesDistinct(j, k);
    }
  }

  lemma AtChars(u: Unicode, s: string, x: nat, w: string)
    requires At(u, s, x, w)
    ensures forall i :: 0 <= i < |w| ==> w[i] == s[x + i]
    ensures forall j :: x <= j < x + |w| ==> s[j] == w[j - x]
  {
    var v := s[x..x + |w|];
    assert forall i :: 0 <= i < |w| ==> v[i] == s[x + i];
  }

  /** A text with a character that no tag has does not stand inside a tag. */
  lemma NeedNotInTag(u: Unicode, p: char -> bool, tag: string, w: string, i: nat, x: nat)
    requires TagLike(tag) && i < |w| && p(w[i])
    requires forall c :: TagChar(c) ==> !p(c)
    ensures !At(u, tag, x, w)
  {
    if At(u, tag, x, w) {
      AtChars(u, tag, x, w);
      assert false;
    }
  }

  /** Twenty key characters do not fit between a tag's brackets without its underscore. */
  lemma KeyNotInTag(u: Unicode, tag: string, w: string, x: nat)
    requires TagLike(tag) && 20 <= |w| && forall k :: 0 <= k < |w| ==> KeyChar(w[k])
    ensures !At(u, tag, x, w)
  {
    if At(u, tag, x, w) {
      AtChars(u, tag, x, w);
      assert false;
    }
  }

  /** What stands inside no text shaped like our tags is untouched by all rules. */
  lemma UntouchedByRules(u: Unicode, w: string)
    requires w != "" && NoBrackets(w)
    requires forall tag, x: nat :: TagLike(tag) ==> !At(u, tag, x, w)
    ensures UntouchedByAll(u, Rules(), w)
  {
    forall k | 0 <= k < |Rules()| ensures Untouched(u, Tag(Rules()[k].name), w) {
      TagsLike(k);
    }
  }

  /** A bracketless rule that needs a character no tag has matches nothing inside the tags. */
  lemma ForeignByNeed(u: Unicode, re: Re, p: char -> bool)
    requires Plain(u, re) && Needs(u, re, p)
    requires forall c :: TagChar(c) ==> !p(c)
    ensures Foreign(u, re, Rules())
  {
    forall w: string | Accepts(u, re, w) ensures UntouchedByAll(u, Rules(), w) {
      SpanNeeds(u, re, p, w);
      SpanOnly(u, re, NotBracket, w);
      var i :| 0 <= i < |w| && p(w[i]);
      forall tag, x: nat | TagLike(tag) ensures !At(u, tag, x, w) {
        NeedNotInTag(u, p, tag, w, i, x);
      }
      UntouchedByRules(u, w);
    }
  }

  lemma ForeignAwsKey(u: Unicode)
    ensures Foreign(u, AwsKey(), Rules())
  {
    AwsKeyShape(u);
    forall w: string | Accepts(u, AwsKey(), w) ensures UntouchedByAll(u, Rules(), w) {
      LongEnough(u, AwsKey(), w);
      SpanOnly(u, AwsKey(), KeyChar, w);
      forall tag, x: nat | TagLike(tag) ensures !At(u, tag, x, w) {
        KeyNotInTag(u, tag, w, x);
      }
      UntouchedByRules(u, w);
    }
  }

  // ---------------------------------------------------------------- each rule, and the theorems for the table

  lemma {:induction false} TimesNeeds(u: Unicode, r: Re, n: nat, rest: Re, p: char -> bool)
    requires 0 < n && Needs(u, r, p)
    ensures Needs(u, Times(r, n, rest), p)
  {
  }

  lemma DigitRulesForeign(u: Unicode)
    requires ValidUnicode(u)
    ensures Foreign(u, Ssn(), Rules()) && Foreign(u, CreditCard(), Rules())
    ensures Foreign(u, IpAddress(), Rules())
  {
    assert forall c :: TagChar(c) ==> !u.digit(c);
    SsnPlain(u);
    TimesNeeds(u, D(), 3, Cat(One('-'), Times(D(), 2, Cat(One('-'), Times(D(), 4, Empty)))), u.digit);
    ForeignByNeed(u, Ssn(), u.digit);
    CardPlain(u);
    TimesNeeds(u, CardDigit(), 13, UpTo(CardDigit(), 3), u.digit);
    ForeignByNeed(u, CreditCard(), u.digit);
    IpPlain(u);
    assert Needs(u, Cat(D(), UpTo(D(), 2)), u.digit);
    TimesNeeds(u, Cat(Octet(), One('.')), 3, Octet(), u.digit);
    ForeignByNeed(u, IpAddress(), u.digit);
  }

  lemma PhoneForeign(u: Unicode)
    requires ValidUnicode(u)
    ensures Foreign(u, Phone(), Rules())
  {
    assert forall c :: TagChar(c) ==> !u.digit(c);
    PhonePlain(u);
    TimesNeeds(u, D(), 3, LocalNumber(), u.digit);
    assert Needs(u, Cat(Opt(One('(')), Times(D(), 3, LocalNumber())), u.digit);
    ForeignByNeed(u, Phone(), u.digit);
  }

  lemma EmailForeign(u: Unicode)
    ensures Foreign(u, Email(), Rules())
  {
    EmailPlain(u);
    var at := c => c == '@';
    assert Needs(u, One('@'), at);
    assert Needs(u, Cat(One('@'), Cat(Plus(HOST), TopLevel())), at);
    ForeignByNeed(u, Email(), at);
  }

  lemma ApiKeyForeign(u: Unicode)
    ensures Foreign(u, ApiKey(), Rules())
  {
    ApiKeyPlain(u);
    var dash := c => c == '-';
    assert Needs(u, One('-'), dash);
    assert Needs(u, Cat(One('-'), Times(Chr(ALNUM), 16, Star(ALNUM, true))), dash);
    ForeignByNeed(u, ApiKey(), dash);
  }

  lemma BodyForeign(u: Unicode, k: nat)
    requires ValidUnicode(u)
    ensures Foreign(u, BodyAt(k), Rules())
  {
    DigitRulesForeign(u);
    if k == 2 { EmailForeign(u); }
    else if k == 3 { PhoneForeign(u); }
    else if k == 4 { ApiKeyForeign(u); }
    else if k == 5 { ForeignAwsKey(u); }
  }

  /**
    Redaction completeness for the real table: whatever the text, the output has no SSN, e-mail address,
    phone number, API key, AWS key or IP address left; and no card number if the card pass refuses none of
    the matches it finds, which is so if the checksum filter is off.
  */
  lemma PiiComplete(cfg: Settings, text: string, k: nat)
    requires ValidUnicode(cfg.u) && k < 7
    ensures NonEmptyRules(Rules()) && |Rules()| == 7
    ensures k != 1 || !cfg.luhnValidate ==> ClearsAll(cfg, Rules(), text, k)
    ensures ClearsAll(cfg, Rules(), text, k) ==> MatchFree(cfg.u, BodyAt(k), RunRules(cfg, Rules(), text).text)
  {
    hide BodyAt, Foreign, ClearsAll, MatchFree;
    RulesTagged();
    RuleLooksUp(k);
    BodyForeign(cfg.u, k);
    Complete(cfg, Rules(), text, k);
  }

  /** And every match of any rule in the output, a kept card number say, stood in the input. */
  lemma PiiNothingCreated(cfg: Settings, text: string, k: nat, w: string)
    requires ValidUnicode(cfg.u) && k < 7 && Accepts(cfg.u, BodyAt(k), w)
    ensures NonEmptyRules(Rules())
    ensures Stands(cfg.u, RunRules(cfg, Rules(), text).text, w) ==> Stands(cfg.u, text, w)
  {
    RulesTagged();
    BodyForeign(cfg.u, k);
    if Stands(cfg.u, RunRules(cfg, Rules(), text).text, w) {
      NothingCreated(cfg, Rules(), text, w);
    }
  }

  /** Round trip for the real table: the log rebuilds every text that had no opening bracket. */
  lemma PiiRoundTrip(cfg: Settings, text: string)
    requires '[' !in text
    ensures NonEmptyRules(Rules())
    ensures var r := RunRules(cfg, Rules(), text); UndoRules(Rules(), r.text, r.log) == text
  {
    RulesTagged();
    RoundTripWithoutBracket(cfg, Rules(), text);
  }

  // ---------------------------------------------------------------- what the rules match, in plain words

  lemma {:induction false} TimesChr(u: Unicode, cls: CharClass, n: nat, rest: Re, w: string)
    ensures Accepts(u, Times(Chr(cls), n, rest), w) <==>
            n <= |w| && (forall i :: 0 <= i < n ==> In(u, cls, w[i])) && Accepts(u, rest, w[n..])
  {
    if n == 0 {
      assert w[0..] == w;
    } else {
      ChrThen(u, cls, Times(Chr(cls), n - 1, rest), w);
      if w != "" {
        TimesChr(u, cls, n - 1, rest, w[1..]);
        assert |w| < n || w[1..][n - 1..] == w[n..];
        assert forall i :: 0 < i < n <= |w| ==> w[i] == w[1..][i - 1];
        assert forall i :: 0 <= i < n - 1 && n <= |w| ==> w[1..][i] == w[i + 1];
      }
    }
  }

  lemma ChrThen(u: Unicode, cls: CharClass, rest: Re, w: string)
    ensures Accepts(u, Cat(Chr(cls), rest), w) <==> w != "" && In(u, cls, w[0]) && Accepts(u, rest, w[1..])
  {
    if w != "" && In(u, cls, w[0]) && Accepts(u, rest, w[1..]) {
      assert Accepts(u, Chr(cls), w[..1]) && Accepts(u, rest, w[1..]);
    }
  }

  lemma EmptyAccepts(u: Unicode, w: string)
    ensures Accepts(u, Empty, w) <==> w == ""
  {
  }

  /** The SSN rule matches exactly the texts ddd-dd-dddd. */
  lemma SsnLanguage(u: Unicode, w: string)
    ensures Accepts(u, Ssn(), w) <==>
      |w| == 11 && w[3] == '-' && w[6] == '-' && forall i :: 0 <= i < 11 && i != 3 && i != 6 ==> u.digit(w[i])
  {
    hide Times, Accepts;
    var tail4 := Times(D(), 4, Empty);
    var tail3 := Cat(One('-'), tail4);
    var tail2 := Times(D(), 2, tail3);
    var tail1 := Cat(One('-'), tail2);
    TimesChr(u, Digit, 3, tail1, w);
    if 3 <= |w| {
      ChrThen(u, OneOf({'-'}), tail2, w[3..]);
      if 4 <= |w| {
        assert w[3..][1..] == w[4..];
        TimesChr(u, Digit, 2, tail3, w[4..]);
        if 6 <= |w| {
          assert w[4..][2..] == w[6..];
          ChrThen(u, OneOf({'-'}), tail4, w[6..]);
          if 7 <= |w| {
            assert w[6..][1..] == w[7..];
            TimesChr(u, Digit, 4, Empty, w[7..]);
            if 11 <= |w| {
              EmptyAccepts(u, w[7..][4..]);
            }
          }
        }
      }
    }
  }

  /** The AWS rule matches exactly AKIA and sixteen upper-case letters or digits. */
  lemma AwsKeyLanguage(u: Unicode, w: string)
    ensures Accepts(u, AwsKey(), w) <==>
      |w| == 20 && w[..4] == "AKIA" && forall i :: 4 <= i < 20 ==> KeyChar(w[i])
  {
    var tail := Times(Chr(UPPER_NUM), 16, Empty);
    LiteralThen(u, "AKIA", tail, w);
    if 4 <= |w| {
      TimesChr(u, UPPER_NUM, 16, Empty, w[4..]);
      assert forall c :: In(u, UPPER_NUM, c) <==> KeyChar(c);
      assert forall i :: 4 <= i < |w| ==> w[i] == w[4..][i - 4];
      assert forall i :: 0 <= i < |w| - 4 ==> w[4..][i] == w[i + 4];
    }
  }

  lemma {:induction false} LiteralAccepts(u: Unicode, s: string, w: string)
    ensures Accepts(u, Literal(s), w) <==> w == s
  {
    if s != "" {
      ChrThen(u, OneOf({s[0]}), Literal(s[1..]), w);
      if w != "" {
        LiteralAccepts(u, s[1..], w[1..]);
        assert w == [w[0]] + w[1..];
      }
      assert s == [s[0]] + s[1..];
    }
  }

  lemma LiteralThen(u: Unicode, s: string, rest: Re, w: string)
    ensures Accepts(u, Cat(Literal(s), rest), w) <==> |s| <= |w| && w[..|s|] == s && Accepts(u, rest, w[|s|..])
  {
    forall k | 0 <= k <= |w| ensures Accepts(u, Literal(s), w[..k]) <==> w[..k] == s {
      LiteralAccepts(u, s, w[..k]);
    }
    if |s| <= |w| && w[..|s|] == s && Accepts(u, rest, w[|s|..]) {
      assert Accepts(u, Literal(s), w[..|s|]) && Accepts(u, rest, w[|s|..]);
    }
  }

  predicate OctetText(u: Unicode, w: string) {
    1 <= |w| <= 3 && forall i :: 0 <= i < |w| ==> u.digit(w[i])
  }

  /** `n` octets with a dot after each, and one more octet. */
  ghost predicate Dotted(u: Unicode, n: nat, w: string) {
    if n == 0 then OctetText(u, w)
    else exists k :: 0 <= k < |w| && w[k] == '.' && OctetText(u, w[..k]) && Dotted(u, n - 1, w[k + 1..])
  }

  lemma {:induction false} UpToDigits(u: Unicode, n: nat, w: string)
    ensures Accepts(u, UpTo(D(), n), w) <==> |w| <= n && forall i :: 0 <= i < |w| ==> u.digit(w[i])
  {
    if n > 0 {
      ChrThen(u, Digit, UpTo(D(), n - 1), w);
      if w != "" {
        UpToDigits(u, n - 1, w[1..]);
        assert forall i :: 0 < i < |w| ==> w[i] == w[1..][i - 1];
        assert forall i :: 0 <= i < |w| - 1 ==> w[1..][i] == w[i + 1];
      }
    }
  }

  lemma OctetLanguage(u: Unicode, w: string)
    ensures Accepts(u, Octet(), w) <==> OctetText(u, w)
  {
    ChrThen(u, Digit, UpTo(D(), 2), w);
    if w != "" {
      UpToDigits(u, 2, w[1..]);
      assert forall i :: 0 < i < |w| ==> w[i] == w[1..][i - 1];
      assert forall i :: 0 <= i < |w| - 1 ==> w[1..][i] == w[i + 1];
    }
  }

  lemma DottedOctet(u: Unicode, w: string)
    ensures Accepts(u, Cat(Octet(), One('.')), w) <==>
            w != "" && w[|w| - 1] == '.' && OctetText(u, w[..|w| - 1])
  {
    hide Octet, OctetText;
    if Accepts(u, Cat(Octet(), One('.')), w) {
      var k :| 0 <= k <= |w| && Accepts(u, Octet(), w[..k]) && Accepts(u, One('.'), w[k..]);
      OctetLanguage(u, w[..k]);
      assert w[k..][0] == w[k];
    }
    if w != "" && w[|w| - 1] == '.' && OctetText(u, w[..|w| - 1]) {
      OctetLanguage(u, w[..|w| - 1]);
      assert w[|w| - 1..] == ".";
      assert Accepts(u, Octet(), w[..|w| - 1]) && Accepts(u, One('.'), w[|w| - 1..]);
    }
  }

  function DottedItem(): Re { Cat(Octet(), One('.')) }

  lemma {:induction false} TimesDotted(u: Unicode, n: nat, w: string)
    requires Accepts(u, Times(DottedItem(), n, Octet()), w)
    ensures Dotted(u, n, w)
  {
    if n == 0 {
      OctetLanguage(u, w);
    } else {
      var rest := Times(DottedItem(), n - 1, Octet());
      var k :| 0 <= k <= |w| && Accepts(u, DottedItem(), w[..k]) && Accepts(u, rest, w[k..]);
      DottedOctet(u, w[..k]);
      TimesDotted(u, n - 1, w[k..]);
      var d := k - 1;
      assert w[..k][..d] == w[..d] && w[d + 1..] == w[k..];
      assert w[d] == '.' && OctetText(u, w[..d]) && Dotted(u, n - 1, w[d + 1..]);
    }
  }

  lemma DottedPrefix(u: Unicode, w: string, d: nat)
    requires d < |w| && w[d] == '.' && OctetText(u, w[..d])
    ensures Accepts(u, DottedItem(), w[..d + 1])
  {
    assert w[..d + 1][..d] == w[..d];
    DottedOctet(u, w[..d + 1]);
  }

  lemma DottedSplit(u: Unicode, n: nat, w: string) returns (d: nat)
    requires n > 0 && Dotted(u, n, w)
    ensures d < |w| && Accepts(u, DottedItem(), w[..d + 1]) && Dotted(u, n - 1, w[d + 1..])
  {
    d :| 0 <= d < |w| && w[d] == '.' && OctetText(u, w[..d]) && Dotted(u, n - 1, w[d + 1..]);
    DottedPrefix(u, w, d);
  }

  lemma {:induction false} DottedTimes(u: Unicode, n: nat, w: string)
    requires Dotted(u, n, w)
    ensures Accepts(u, Times(DottedItem(), n, Octet()), w)
  {
    hide Accepts, Octet, DottedItem, OctetText;
    if n == 0 {
      OctetLanguage(u, w);
    } else {
      var rest := Times(DottedItem(), n - 1, Octet());
      var d := DottedSplit(u, n, w);
      DottedTimes(u, n - 1, w[d + 1..]);
      AcceptsAt(u, DottedItem(), rest, w, d + 1);
    }
  }

  /** The IP rule matches exactly four groups of one to three digits, joined by dots. */
  lemma IpLanguage(u: Unicode, w: string)
    ensures Accepts(u, IpAddress(), w) <==> Dotted(u, 3, w)
  {
    if Accepts(u, IpAddress(), w) {
      TimesDotted(u, 3, w);
    } else if Dotted(u, 3, w) {
      DottedTimes(u, 3, w);
    }
  }
}
