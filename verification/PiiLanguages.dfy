/**
  What the seven rules match, in plain words and without a pattern, and what the sanitizer does to such texts.
*/
module PiiLanguages {
  import opened Rendering
  import opened Regex
  import opened Redaction
  import opened RedactionFacts
  import opened PiiRules
  import opened Wrappers
  import CardRule

  // ---------------------------------------------------------------- the characters

  predicate Letter(c: char) { 'A' <= c <= 'Z' || 'a' <= c <= 'z' }

  predicate LetterOrDigit(c: char) { Letter(c) || '0' <= c <= '9' }

  predicate LocalChar(c: char) { LetterOrDigit(c) || c == '.' || c == '_' || c == '%' || c == '+' || c == '-' }

  predicate HostChar(c: char) { LetterOrDigit(c) || c == '.' || c == '-' }

  predicate SeparatorChar(u: Unicode, c: char) { c == '-' || c == '.' || u.space(c) }

  ghost predicate All(w: string, p: char -> bool) {
    forall i :: 0 <= i < |w| ==> p(w[i])
  }

  // ---------------------------------------------------------------- patterns as concatenations

  lemma CatOfParts(u: Unicode, a: Re, b: Re, x: string, y: string)
    requires Accepts(u, a, x) && Accepts(u, b, y)
    ensures Accepts(u, Cat(a, b), x + y)
  {
    assert (x + y)[..|x|] == x && (x + y)[|x|..] == y;
  }

  lemma PartsOfCat(u: Unicode, a: Re, b: Re, w: string) returns (x: string, y: string)
    requires Accepts(u, Cat(a, b), w)
    ensures w == x + y && Accepts(u, a, x) && Accepts(u, b, y)
  {
    var k :| 0 <= k <= |w| && Accepts(u, a, w[..k]) && Accepts(u, b, w[k..]);
    x, y := w[..k], w[k..];
  }

  lemma PlusAccepts(u: Unicode, cls: CharClass, w: string)
    ensures Accepts(u, Plus(cls), w) <==> w != "" && forall i :: 0 <= i < |w| ==> In(u, cls, w[i])
  {
    ChrThen(u, cls, Star(cls, true), w);
    if w != "" {
      assert forall i :: 0 < i < |w| ==> w[i] == w[1..][i - 1];
    }
  }

  lemma OneAccepts(u: Unicode, c: char, w: string)
    ensures Accepts(u, One(c), w) <==> w == [c]
  {
  }

  /** n characters or more of a class. */
  lemma AtLeastAccepts(u: Unicode, cls: CharClass, n: nat, w: string)
    ensures Accepts(u, Times(Chr(cls), n, Star(cls, true)), w) <==>
            n <= |w| && forall i :: 0 <= i < |w| ==> In(u, cls, w[i])
  {
    hide Times;
    TimesChr(u, cls, n, Star(cls, true), w);
    if n <= |w| {
      assert forall i :: n <= i < |w| ==> w[i] == w[n..][i - n];
      assert forall i :: 0 <= i < |w| - n ==> w[n..][i] == w[n + i];
    }
  }

  lemma DigitsThenParts(u: Unicode, n: nat, rest: Re, w: string) returns (x: string, y: string)
    requires Accepts(u, Times(D(), n, rest), w)
    ensures w == x + y && |x| == n && All(x, u.digit) && Accepts(u, rest, y)
  {
    TimesChr(u, Digit, n, rest, w);
    x, y := w[..n], w[n..];
  }

  lemma DigitsThenAccepts(u: Unicode, n: nat, rest: Re, x: string, y: string)
    requires |x| == n && All(x, u.digit) && Accepts(u, rest, y)
    ensures Accepts(u, Times(D(), n, rest), x + y)
  {
    var w := x + y;
    TimesChr(u, Digit, n, rest, w);
    assert w[n..] == y;
  }

  // ---------------------------------------------------------------- e-mail addresses

  ghost predicate EmailParts(w: string, local: string, host: string, top: string) {
    && w == local + ("@" + (host + ("." + top)))
    && local != "" && All(local, LocalChar)
    && host != "" && All(host, HostChar)
    && 2 <= |top| && All(top, Letter)
  }

  /** A local part, an at sign, a host, a dot, and two letters or more. */
  ghost predicate EmailText(w: string) {
    exists local, host, top :: EmailParts(w, local, host, top)
  }

  lemma ClassChars(u: Unicode, c: char)
    ensures In(u, LETTER, c) <==> Letter(c)
    ensures In(u, ALNUM, c) <==> LetterOrDigit(c)
    ensures In(u, LOCAL, c) <==> LocalChar(c)
    ensures In(u, HOST, c) <==> HostChar(c)
    ensures In(u, Either(OneOf({'-', '.'}), Space), c) <==> SeparatorChar(u, c)
  {
    assert In(u, LETTER, c) <==> Letter(c);
    assert In(u, ALNUM, c) <==> LetterOrDigit(c);
  }

  lemma LocalAccepts(u: Unicode, w: string)
    ensures Accepts(u, Plus(LOCAL), w) <==> w != "" && All(w, LocalChar)
  {
    hide LocalChar, In;
    PlusAccepts(u, LOCAL, w);
    forall i | 0 <= i < |w| ensures In(u, LOCAL, w[i]) <==> LocalChar(w[i]) {
      ClassChars(u, w[i]);
    }
  }

  lemma HostAccepts(u: Unicode, w: string)
    ensures Accepts(u, Plus(HOST), w) <==> w != "" && All(w, HostChar)
  {
    hide HostChar, In;
    PlusAccepts(u, HOST, w);
    forall i | 0 <= i < |w| ensures In(u, HOST, w[i]) <==> HostChar(w[i]) {
      ClassChars(u, w[i]);
    }
  }

  lemma LettersAccept(u: Unicode, n: nat, w: string)
    ensures Accepts(u, Times(Chr(LETTER), n, Star(LETTER, true)), w) <==> n <= |w| && All(w, Letter)
  {
    hide Letter, In;
    AtLeastAccepts(u, LETTER, n, w);
    forall i | 0 <= i < |w| ensures In(u, LETTER, w[i]) <==> Letter(w[i]) {
      ClassChars(u, w[i]);
    }
  }

  /** The e-mail rule matches exactly the e-mail addresses. */
  lemma EmailLanguage(u: Unicode, w: string)
    ensures Accepts(u, Email(), w) <==> EmailText(w)
  {
    hide Accepts, Plus, Times, All;
    var letters := Times(Chr(LETTER), 2, Star(LETTER, true));
    if Accepts(u, Email(), w) {
      var local, w1 := PartsOfCat(u, Plus(LOCAL), Cat(One('@'), Cat(Plus(HOST), TopLevel())), w);
      var at, w2 := PartsOfCat(u, One('@'), Cat(Plus(HOST), TopLevel()), w1);
      var host, w3 := PartsOfCat(u, Plus(HOST), TopLevel(), w2);
      var dot, top := PartsOfCat(u, One('.'), letters, w3);
      LocalAccepts(u, local);
      OneAccepts(u, '@', at);
      HostAccepts(u, host);
      OneAccepts(u, '.', dot);
      LettersAccept(u, 2, top);
      assert EmailParts(w, local, host, top);
    }
    if local, host, top :| EmailParts(w, local, host, top) {
      LocalAccepts(u, local);
      OneAccepts(u, '@', "@");
      HostAccepts(u, host);
      OneAccepts(u, '.', ".");
      LettersAccept(u, 2, top);
      CatOfParts(u, One('.'), letters, ".", top);
      CatOfParts(u, Plus(HOST), TopLevel(), host, "." + top);
      CatOfParts(u, One('@'), Cat(Plus(HOST), TopLevel()), "@", host + ("." + top));
      CatOfParts(u, Plus(LOCAL), Cat(One('@'), Cat(Plus(HOST), TopLevel())), local, "@" + (host + ("." + top)));
    }
  }

  // ---------------------------------------------------------------- API keys

  ghost predicate ApiKeyParts(w: string, kind: string, key: string) {
    && w == kind + ("-" + key)
    && (kind == "sk" || kind == "pk" || kind == "rk")
    && 16 <= |key| && All(key, LetterOrDigit)
  }

  /** sk, pk or rk, a hyphen, and sixteen letters or digits or more. */
  ghost predicate ApiKeyText(w: string) {
    exists kind, key :: ApiKeyParts(w, kind, key)
  }

  function KeyKind(): Re { Alt(Literal("sk"), Alt(Literal("pk"), Literal("rk"))) }

  lemma KeyKindAccepts(u: Unicode, w: string)
    ensures Accepts(u, KeyKind(), w) <==> w == "sk" || w == "pk" || w == "rk"
  {
    hide Literal;
    LiteralAccepts(u, "sk", w);
    LiteralAccepts(u, "pk", w);
    LiteralAccepts(u, "rk", w);
  }

  lemma KeyAccepts(u: Unicode, n: nat, w: string)
    ensures Accepts(u, Times(Chr(ALNUM), n, Star(ALNUM, true)), w) <==> n <= |w| && All(w, LetterOrDigit)
  {
    hide LetterOrDigit, In;
    AtLeastAccepts(u, ALNUM, n, w);
    forall i | 0 <= i < |w| ensures In(u, ALNUM, w[i]) <==> LetterOrDigit(w[i]) {
      ClassChars(u, w[i]);
    }
  }

  /** The API key rule matches exactly the API keys. */
  lemma ApiKeyLanguage(u: Unicode, w: string)
    ensures Accepts(u, ApiKey(), w) <==> ApiKeyText(w)
  {
    hide Accepts, Times, All, Literal;
    var key16 := Times(Chr(ALNUM), 16, Star(ALNUM, true));
    if Accepts(u, ApiKey(), w) {
      var kind, w1 := PartsOfCat(u, KeyKind(), Cat(One('-'), key16), w);
      var dash, key := PartsOfCat(u, One('-'), key16, w1);
      KeyKindAccepts(u, kind);
      OneAccepts(u, '-', dash);
      KeyAccepts(u, 16, key);
      assert ApiKeyParts(w, kind, key);
    }
    if kind, key :| ApiKeyParts(w, kind, key) {
      KeyKindAccepts(u, kind);
      OneAccepts(u, '-', "-");
      KeyAccepts(u, 16, key);
      CatOfParts(u, One('-'), key16, "-", key);
      CatOfParts(u, KeyKind(), Cat(One('-'), key16), kind, "-" + key);
    }
  }

  // ---------------------------------------------------------------- phone numbers

  /** Nothing, or one separator. */
  predicate MaybeSeparator(u: Unicode, w: string) {
    w == "" || (|w| == 1 && SeparatorChar(u, w[0]))
  }

  predicate MaybeChar(c: char, w: string) {
    w == "" || w == [c]
  }

  /** Nothing, or a one, perhaps after a plus, perhaps before a separator. */
  ghost predicate CountryText(u: Unicode, w: string) {
    w == "" || exists plus, sep :: CountryParts(u, w, plus, sep)
  }

  ghost predicate CountryParts(u: Unicode, w: string, plus: string, sep: string) {
    w == plus + ("1" + sep) && MaybeChar('+', plus) && MaybeSeparator(u, sep)
  }

  ghost predicate LineParts(u: Unicode, w: string, exchange: string, sep: string, line: string) {
    && w == exchange + (sep + line)
    && |exchange| == 3 && All(exchange, u.digit) && MaybeSeparator(u, sep) && |line| == 4 && All(line, u.digit)
  }

  /** Three digits and four, perhaps separated. */
  ghost predicate LineText(u: Unicode, w: string) {
    exists exchange, sep, line :: LineParts(u, w, exchange, sep, line)
  }

  ghost predicate PhoneParts(
    u: Unicode, w: string, country: string, open: string, area: string, close: string, sep: string, line: string)
  {
    && w == country + (open + (area + (close + (sep + line))))
    && CountryText(u, country) && MaybeChar('(', open) && |area| == 3 && All(area, u.digit)
    && MaybeChar(')', close) && MaybeSeparator(u, sep) && LineText(u, line)
  }

  /** A country code or none, three digits in brackets or not, and the rest of the number. */
  ghost predicate PhoneText(u: Unicode, w: string) {
    exists country, open, area, close, sep, line :: PhoneParts(u, w, country, open, area, close, sep, line)
  }

  lemma OptOneAccepts(u: Unicode, c: char, w: string)
    ensures Accepts(u, Opt(One(c)), w) <==> MaybeChar(c, w)
  {
  }

  lemma SeparatorAccepts(u: Unicode, w: string)
    ensures Accepts(u, Separator(), w) <==> MaybeSeparator(u, w)
  {
    if |w| == 1 {
      ClassChars(u, w[0]);
    }
  }

  lemma CountryAccepts(u: Unicode, w: string)
    ensures Accepts(u, CountryCode(), w) <==> CountryText(u, w)
  {
    hide One, Separator;
    var code := Cat(Opt(One('+')), Cat(One('1'), Separator()));
    assert Accepts(u, CountryCode(), w) <==> Accepts(u, code, w) || w == "";
    if Accepts(u, code, w) {
      var plus, w1 := PartsOfCat(u, Opt(One('+')), Cat(One('1'), Separator()), w);
      var one, sep := PartsOfCat(u, One('1'), Separator(), w1);
      OptOneAccepts(u, '+', plus);
      OneAccepts(u, '1', one);
      SeparatorAccepts(u, sep);
      assert CountryParts(u, w, plus, sep);
    }
    if plus, sep :| CountryParts(u, w, plus, sep) {
      OptOneAccepts(u, '+', plus);
      OneAccepts(u, '1', "1");
      SeparatorAccepts(u, sep);
      CatOfParts(u, One('1'), Separator(), "1", sep);
      CatOfParts(u, Opt(One('+')), Cat(One('1'), Separator()), plus, "1" + sep);
    }
  }

  function Line(): Re { Times(D(), 3, Cat(Separator(), Times(D(), 4, Empty))) }

  lemma LineAccepts(u: Unicode, w: string)
    ensures Accepts(u, Line(), w) <==> LineText(u, w)
  {
    hide Accepts, Separator, Times, All;
    var four := Times(D(), 4, Empty);
    if Accepts(u, Line(), w) {
      var exchange, w1 := DigitsThenParts(u, 3, Cat(Separator(), four), w);
      var sep, w2 := PartsOfCat(u, Separator(), four, w1);
      var line, nothing := DigitsThenParts(u, 4, Empty, w2);
      EmptyAccepts(u, nothing);
      assert w2 == line;
      SeparatorAccepts(u, sep);
      assert LineParts(u, w, exchange, sep, line);
    }
    if exchange, sep, line :| LineParts(u, w, exchange, sep, line) {
      EmptyAccepts(u, "");
      assert line + "" == line;
      DigitsThenAccepts(u, 4, Empty, line, "");
      SeparatorAccepts(u, sep);
      CatOfParts(u, Separator(), four, sep, line);
      DigitsThenAccepts(u, 3, Cat(Separator(), four), exchange, sep + line);
    }
  }

  /** The phone rule matches exactly the phone numbers. */
  lemma PhoneLanguage(u: Unicode, w: string)
    ensures Accepts(u, Phone(), w) <==> PhoneText(u, w)
  {
    hide Accepts, Separator, Times, All, CountryCode, One, Opt, CountryText, LineText, MaybeChar, MaybeSeparator;
    var area3 := Times(D(), 3, LocalNumber());
    if Accepts(u, Phone(), w) {
      var country, w1 := PartsOfCat(u, CountryCode(), Cat(Opt(One('(')), area3), w);
      var open, w2 := PartsOfCat(u, Opt(One('(')), area3, w1);
      var area, w3 := DigitsThenParts(u, 3, LocalNumber(), w2);
      var close, w4 := PartsOfCat(u, Opt(One(')')), Cat(Separator(), Line()), w3);
      var sep, line := PartsOfCat(u, Separator(), Line(), w4);
      CountryAccepts(u, country);
      OptOneAccepts(u, '(', open);
      OptOneAccepts(u, ')', close);
      SeparatorAccepts(u, sep);
      LineAccepts(u, line);
      assert PhoneParts(u, w, country, open, area, close, sep, line);
    }
    if country, open, area, close, sep, line :| PhoneParts(u, w, country, open, area, close, sep, line) {
      CountryAccepts(u, country);
      OptOneAccepts(u, '(', open);
      OptOneAccepts(u, ')', close);
      SeparatorAccepts(u, sep);
      LineAccepts(u, line);
      CatOfParts(u, Separator(), Line(), sep, line);
      CatOfParts(u, Opt(One(')')), Cat(Separator(), Line()), close, sep + line);
      DigitsThenAccepts(u, 3, LocalNumber(), area, close + (sep + line));
      CatOfParts(u, Opt(One('(')), area3, open, area + (close + (sep + line)));
      CatOfParts(u, CountryCode(), Cat(Opt(One('(')), area3), country, open + (area + (close + (sep + line))));
    }
  }

  // ---------------------------------------------------------------- all rules

  /** What the k-th rule is about. */
  ghost predicate KindText(u: Unicode, k: nat, w: string) {
    if k == 0 then
      && |w| == 11 && w[3] == '-' && w[6] == '-'
      && forall i :: 0 <= i < 11 && i != 3 && i != 6 ==> u.digit(w[i])
    else if k == 1 then CardRule.CardShaped(u, w) && 13 <= CardRule.DigitCount(u, w) <= 16
    else if k == 2 then EmailText(w)
    else if k == 3 then PhoneText(u, w)
    else if k == 4 then ApiKeyText(w)
    else if k == 5 then |w| == 20 && w[..4] == "AKIA" && forall i :: 4 <= i < 20 ==> KeyChar(w[i])
    else Dotted(u, 3, w)
  }

  lemma RuleLanguage(u: Unicode, k: nat, w: string)
    requires ValidUnicode(u)
    ensures Accepts(u, BodyAt(k), w) <==> KindText(u, k, w)
  {
    hide Accepts, ValidUnicode, EmailText, PhoneText, ApiKeyText, Dotted;
    hide Ssn, CreditCard, Email, Phone, ApiKey, AwsKey, IpAddress, CardRule.CardShaped, CardRule.DigitCount;
    if k == 0 { SsnLanguage(u, w); }
    else if k == 1 { CardRule.CardLanguage(u, w); }
    else if k == 2 { EmailLanguage(u, w); }
    else if k == 3 { PhoneLanguage(u, w); }
    else if k == 4 { ApiKeyLanguage(u, w); }
    else if k == 5 { AwsKeyLanguage(u, w); }
    else { IpLanguage(u, w); }
  }

  /**
    Completeness in plain words: between word boundaries the output holds no SSN, e-mail address, phone number,
    API key, AWS key or IP address, and no card number if the checksum filter is off.
  */
  lemma NothingLeft(cfg: Settings, text: string, k: nat, w: string)
    requires ValidUnicode(cfg.u) && k < 7 && KindText(cfg.u, k, w) && (k == 1 ==> !cfg.luhnValidate)
    ensures NonEmptyRules(Rules()) && !Stands(cfg.u, RunRules(cfg, Rules(), text).text, w)
  {
    hide Accepts, ValidUnicode, KindText, RunRules, BodyAt, At;
    PiiComplete(cfg, text, k);
    RuleLanguage(cfg.u, k, w);
    FreeOf(cfg.u, BodyAt(k), RunRules(cfg, Rules(), text).text, w);
  }

  lemma FreeOf(u: Unicode, re: Re, s: string, w: string)
    requires MatchFree(u, re, s) && Accepts(u, re, w)
    ensures !Stands(u, s, w)
  {
    hide Accepts, At;
    forall x: nat ensures !At(u, s, x, w) {
      assert !MatchAt(u, re, s, x, w);
    }
  }

  // ---------------------------------------------------------------- a text that is one of them

  /** The rule matches the whole text and nothing else in it, and redacts it. */
  ghost predicate Alone(cfg: Settings, rule: Rule, s: string) {
    && MatchAt(cfg.u, rule.body, s, 0, s)
    && (forall x: nat, w: string :: MatchAt(cfg.u, rule.body, s, x, w) ==> w == s)
    && Redacts(cfg, rule.name, s)
  }

  lemma PassAlone(cfg: Settings, rule: Rule, s: string)
    requires 1 <= MinLength(rule.body) && Alone(cfg, rule, s)
    ensures PassFrom(cfg, rule, s, 0) == Outcome(Tag(rule.name), [Entry(rule.name, s)])
  {
    hide PassFrom, Search, Tag, Redacts, Accepts, MinLength;
    SearchCorrect(cfg.u, rule.body, s, 0);
    var m := Search(cfg.u, rule.body, s, 0).value;
    assert s[m.start..m.end] == s;
    assert s[..|s|] == s && s[0..0] + Tag(rule.name) == Tag(rule.name);
    PassStep(cfg, rule, s, 0, m);
    NothingAtEnd(cfg, rule, s);
    PassEnd(cfg, rule, s, |s|);
  }

  lemma NothingAtEnd(cfg: Settings, rule: Rule, s: string)
    requires 1 <= MinLength(rule.body)
    ensures Search(cfg.u, rule.body, s, |s|) == None
  {
    hide Accepts, MinLength;
    SearchCorrect(cfg.u, rule.body, s, |s|);
    if Search(cfg.u, rule.body, s, |s|).Some? {
      FoundNotEmpty(cfg.u, rule.body, s, |s|);
    }
  }

  /** The passes before the rule find nothing, its own replaces all, and the ones after it leave the tag alone. */
  lemma {:induction false} RunAlone(cfg: Settings, rules: seq<Rule>, s: string, k: nat, n: nat)
    requires Tagged(rules) && k < |rules| && n <= |rules|
    requires forall j :: 0 <= j < k ==> MatchFree(cfg.u, rules[j].body, s)
    requires Alone(cfg, rules[k], s)
    requires forall j :: k < j < |rules| ==> Foreign(cfg.u, rules[j].body, rules)
    ensures NonEmptyRules(rules[..n])
    ensures RunRules(cfg, rules[..n], s) ==
            if n <= k then Outcome(s, []) else Outcome(Tag(rules[k].name), [Entry(rules[k].name, s)])
  {
    hide PassFrom, Tag, Alone, Foreign, TagShaped, MinLength;
    TaggedPrefix(rules, n);
    if n > 0 {
      RunAlone(cfg, rules, s, k, n - 1);
      assert rules[..n][..n - 1] == rules[..n - 1];
      var rule := rules[n - 1];
      if n - 1 < k {
        PassIdle(cfg, rule, s);
      } else if n - 1 == k {
        PassAlone(cfg, rule, s);
      } else {
        ForeignFree(cfg.u, rule.body, rules, k);
        PassIdle(cfg, rule, Tag(rules[k].name));
      }
    }
  }

  lemma ForeignFree(u: Unicode, re: Re, rules: seq<Rule>, k: nat)
    requires Foreign(u, re, rules) && k < |rules|
    ensures MatchFree(u, re, Tag(rules[k].name))
  {
    hide Accepts, Tag;
    forall x: nat, w: string ensures !MatchAt(u, re, Tag(rules[k].name), x, w) {
      if Accepts(u, re, w) {
        ForeignUntouched(u, re, rules, k, w);
      }
    }
  }

  /** The rules by name, in the order of their passes. */
  const NAMES := ["SSN", "CREDIT_CARD", "EMAIL", "PHONE", "API_KEY", "AWS_KEY", "IP_ADDRESS"]

  lemma NamesInOrder(k: nat)
    requires k < 7
    ensures NAMES[k] == NameAt(k)
  {
  }

  /** A text that one rule matches as a whole, and no earlier rule anywhere, becomes that rule's tag, logged once. */
  lemma AloneRedacted(cfg: Settings, k: nat, s: string)
    requires ValidUnicode(cfg.u) && k < 7 && Alone(cfg, Rule(NameAt(k), BodyAt(k)), s)
    requires forall j: nat :: j < k ==> MatchFree(cfg.u, BodyAt(j), s)
    ensures NonEmptyRules(Rules())
    ensures RunRules(cfg, Rules(), s) == Outcome("[REDACTED_" + NAMES[k] + "]", [Entry(NAMES[k], s)])
  {
    hide RunRules, Alone, Foreign, MatchFree, BodyAt, NameAt, TagShaped, MinLength, ValidUnicode;
    RulesTagged();
    forall j | 0 <= j < 7 ensures Rules()[j] == Rule(NameAt(j), BodyAt(j)) && Foreign(cfg.u, BodyAt(j), Rules()) {
      RuleLooksUp(j);
      BodyForeign(cfg.u, j);
    }
    RuleLooksUp(k);
    NamesInOrder(k);
    RunAlone(cfg, Rules(), s, k, 7);
    assert Rules()[..7] == Rules();
  }

  /** Every SSN on its own becomes `[REDACTED_SSN]`. */
  lemma SsnRedacted(cfg: Settings, w: string)
    requires ValidUnicode(cfg.u) && KindText(cfg.u, 0, w)
    ensures NonEmptyRules(Rules()) && RunRules(cfg, Rules(), w) == Outcome("[REDACTED_SSN]", [Entry("SSN", w)])
  {
    hide RunRules, Accepts, Ssn;
    assert w[0..|w|] == w;
    SsnLanguage(cfg.u, w);
    forall x: nat, v: string | MatchAt(cfg.u, Ssn(), w, x, v) ensures v == w {
      SsnLanguage(cfg.u, v);
      assert x == 0 && |v| == |w|;
    }
    AloneRedacted(cfg, 0, w);
    assert "[REDACTED_" + "SSN" + "]" == "[REDACTED_SSN]";
  }

  // ---------------------------------------------------------------- one address

  const JANE := "jane@example.com"

  lemma JaneIsEmail()
    ensures EmailText(JANE)
  {
    assert EmailParts(JANE, "jane", "example", "com");
  }

  lemma JaneChars(u: Unicode)
    requires ValidUnicode(u)
    ensures forall i :: 0 <= i < 16 ==> !u.digit(JANE[i])
    ensures forall i :: 0 <= i < 16 && i != 4 && i != 12 ==> u.word(JANE[i])
  {
    assert forall i :: 0 <= i < 16 && i != 4 && i != 12 ==> AsciiWord(JANE[i]);
  }

  /** An address in this text is all of it: the at sign, the dot and the word boundaries settle where it is. */
  lemma OnlyJane(u: Unicode, x: nat, w: string)
    requires ValidUnicode(u) && At(u, JANE, x, w) && EmailText(w)
    ensures w == JANE
  {
    hide ValidUnicode, All;
    var local, host, top :| EmailParts(w, local, host, top);
    JaneChars(u);
    AtChars(u, JANE, x, w);
    assert w[|local|] == '@' && x + |local| == 4;
    var dot := |local| + 1 + |host|;
    assert w[dot] == '.' && x + dot == 12;
    assert x == 0 && x + |w| == 16;
  }

  /** Texts without a digit are no SSNs and no card numbers. */
  lemma DigitsNeeded(u: Unicode, k: nat, w: string)
    requires k < 2 && forall i :: 0 <= i < |w| ==> !u.digit(w[i])
    ensures !KindText(u, k, w)
  {
    CardRule.NoDigits(u, w);
  }

  lemma JaneEarlier(u: Unicode, j: nat)
    requires ValidUnicode(u) && j < 2
    ensures MatchFree(u, BodyAt(j), JANE)
  {
    hide Accepts, KindText, BodyAt;
    forall x: nat, w: string | At(u, JANE, x, w) ensures !Accepts(u, BodyAt(j), w) {
      RuleLanguage(u, j, w);
      AtChars(u, JANE, x, w);
      JaneChars(u);
      DigitsNeeded(u, j, w);
    }
  }

  lemma JaneAlone(cfg: Settings)
    requires ValidUnicode(cfg.u)
    ensures Alone(cfg, Rule("EMAIL", Email()), JANE)
  {
    hide Accepts, Email, EmailText;
    JaneIsEmail();
    EmailLanguage(cfg.u, JANE);
    assert JANE[0..|JANE|] == JANE;
    forall x: nat, w: string | MatchAt(cfg.u, Email(), JANE, x, w) ensures w == JANE {
      EmailLanguage(cfg.u, w);
      OnlyJane(cfg.u, x, w);
    }
  }

  /** The worked example: the address goes, one entry says what it was. */
  lemma JaneRedacted(cfg: Settings)
    requires ValidUnicode(cfg.u)
    ensures NonEmptyRules(Rules())
    ensures RunRules(cfg, Rules(), JANE) == Outcome("[REDACTED_EMAIL]", [Entry("EMAIL", JANE)])
  {
    hide RunRules, Alone, MatchFree, ValidUnicode, MinLength, Email;
    JaneAlone(cfg);
    JaneEarlier(cfg.u, 0);
    JaneEarlier(cfg.u, 1);
    AloneRedacted(cfg, 2, JANE);
    assert "[REDACTED_" + "EMAIL" + "]" == "[REDACTED_EMAIL]";
  }
}
