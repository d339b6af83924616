/** What the terms of a record stand for, and what a published record comes to. */
module SpfTerms {
  import opened Text
  import opened TextLemmas
  import opened SpfRecord
  import opened SpfPrinting
  import opened SpfModel
  import opened SpfMeaning
  import opened SpfEvaluator

  /** The mechanisms by name: a, mx, exists and ptr compare the sender's address and
      cost a lookup, ip4 and ip6 compare it and cost none, include and all are what
      they say, and any other name is no match. */
  predicate StandsFor(m: Mechanism, name: string, value: string, cidr: string) {
    if name in ["a", "mx", "exists", "ptr"] then m == Compare(true, MechanismText(name, value, cidr))
    else if name in ["ip4", "ip6"] then m == Compare(false, MechanismText(name, value, cidr))
    else if name == "include" then m == Include(value)
    else if name == "all" then m == All
    else m == Unknown
  }

  lemma {:induction false} NameTells(name: string, value: string, cidr: string)
    ensures StandsFor(MechanismOf(MechanismText(name, value, cidr)), name, value, cidr)
  {
    assert "a" != "all" && "mx"[0] == 'm' && "exists"[0] == 'e' && "ptr"[0] == 'p' && "all"[0] == 'a';
    assert "ip4"[1] == 'p' && "ip6"[1] == 'p' && "include"[1] == 'n' && "ip4"[2] != "ip6"[2] && "a"[0] == 'a';
  }

  /** A written directive stands for its mechanism, with and without a value. */
  lemma {:induction false} DirectiveStandsFor(c: Code, name: string, value: string, cidr: string)
    requires c == Pass || c == Fail || c == SoftFail || c == Neutral
    requires PlainName(name) && PlainValue(value) && PlainLength(cidr)
    ensures var t := Classify([Mark(c)] + (name + ":" + (value + Slashed(cidr))));
      t.Directive? && t.code == c && t.name == name && StandsFor(t.mechanism, name, value, cidr)
    ensures ':' !in cidr && Lower(cidr) == cidr ==>
      var t := Classify([Mark(c)] + (name + Slashed(cidr)));
      t.Directive? && t.code == c && StandsFor(t.mechanism, name, "", cidr)
  {
    hide *;
    DirectiveRoundTrip(c, name, value, cidr);
    NameTells(name, value, cidr);
    NameTells(name, "", cidr);
    if ':' !in cidr && Lower(cidr) == cidr {
      BareRoundTrip(c, name, cidr);
    }
  }

  /** Every other modifier is passed over. */
  lemma {:induction false} ModifierIsIgnored(tok: string)
    requires tok != "" && Solid(tok) && '=' in tok && !("redirect=" <= Lower(tok))
    ensures Classify(tok) == Ignored
  {
    hide Trim;
    hide Lower;
    TrimSolid(tok);
  }

  // ----- a record of comparing terms ---------------------------------------------------

  /** A written term that costs a lookup. */
  datatype Written = Written(code: Code, name: string, value: string, cidr: string)

  predicate Costly(t: Written) {
    && (t.code == Pass || t.code == Fail || t.code == SoftFail || t.code == Neutral)
    && t.name in ["a", "mx", "exists", "ptr"] && PlainValue(t.value) && PlainLength(t.cidr)
  }

  function TextOf(t: Written): string
    requires Costly(t)
  {
    [Mark(t.code)] + (t.name + ":" + (t.value + Slashed(t.cidr)))
  }

  lemma {:induction false} CostlyTerm(t: Written)
    requires Costly(t)
    ensures TextOf(t) != "" && Solid(TextOf(t)) && Classify(TextOf(t)).Directive?
    ensures Classify(TextOf(t)).mechanism == Compare(true, MechanismText(t.name, t.value, t.cidr))
  {
    hide Classify;
    hide PlainName;
    hide PlainLength;
    hide Slashed;
    hide StandsFor;
    hide Trim;
    hide Solid;
    hide Lower;
    NamesArePlain(t.name);
    MarkIsSolid(t.code);
    assert Solid(t.value) && '=' !in t.value;
    SolidSlashed(t.value, t.cidr);
    SolidTerm(t.name, t.value + Slashed(t.cidr));
    SolidAppend([Mark(t.code)], t.name + ":" + (t.value + Slashed(t.cidr)));
    DirectiveStandsFor(t.code, t.name, t.value, t.cidr);
    CostlyName(Classify(TextOf(t)).mechanism, t.name, t.value, t.cidr);
  }

  lemma {:induction false} CostlyName(m: Mechanism, name: string, value: string, cidr: string)
    requires name in ["a", "mx", "exists", "ptr"] && StandsFor(m, name, value, cidr)
    ensures m == Compare(true, MechanismText(name, value, cidr))
  {
  }

  lemma {:induction false} MarkIsSolid(c: Code)
    requires c == Pass || c == Fail || c == SoftFail || c == Neutral
    ensures Solid([Mark(c)])
  {
  }

  lemma {:induction false} NamesArePlain(name: string)
    requires name in ["a", "mx", "exists", "ptr"]
    ensures PlainName(name)
  {
  }

  function WordsOf(terms: seq<Written>): (r: seq<string>)
    requires forall i :: 0 <= i < |terms| ==> Costly(terms[i])
    ensures |r| == |terms| && forall i :: 0 <= i < |terms| ==> r[i] == TextOf(terms[i])
  {
    seq(|terms|, i requires 0 <= i < |terms| => TextOf(terms[i]))
  }

  /** The only SPF record of a domain, by its words. */
  lemma {:induction false} OnlyRecord(text: string, words: seq<string>)
    requires Trim(text) == text && "v=spf1" <= Lower(text) && Fields(text) == words && words != []
    ensures PublishedIn(Texts([text])) == Policy(TermsOf(words[1..]))
  {
    hide Trim;
    hide Lower;
    hide Fields;
    hide TermsOf;
    assert [text][..0] == [];
    assert SpfRecords([text]) == [text];
  }

  lemma {:induction false} EdgeWords()
    ensures Solid("v=spf1") && Solid("+all") && Lower("v=spf1") == "v=spf1" && !IsSpace('v') && !IsSpace('l')
    ensures PlainName("all") && PlainValue("") && PlainLength("") && Slashed("") == "" && Lower("") == ""
    ensures [Mark(Pass)] + ("all" + "") == "+all" && "v=spf1"[0] == 'v' && "+all"[3] == 'l'
  {
  }

  /** A record of solid words between the version and +all. */
  lemma {:induction false} RecordOf(words: seq<string>)
    requires forall i :: 0 <= i < |words| ==> words[i] != "" && Solid(words[i])
    ensures var all := ["v=spf1"] + words + ["+all"];
      PublishedIn(Texts([Join(all, " ")])) == Policy(TermsOf(words + ["+all"]))
  {
    EdgeWords();
    hide *;
    var all := ["v=spf1"] + words + ["+all"];
    var text := Join(all, " ");
    FieldsOfWords(all);
    JoinAppend(["v=spf1"] + words, ["+all"], " ");
    JoinOne("+all", " ");
    assert text[|text| - 1] == 'l';
    assert all == ["v=spf1"] + (words + ["+all"]);
    JoinAppend(["v=spf1"], words + ["+all"], " ");
    JoinOne("v=spf1", " ");
    var rest := " " + Join(words + ["+all"], " ");
    assert text == "v=spf1" + rest && text[0] == 'v';
    LowerAppend("v=spf1", rest);
    assert text[|text|..] == "" && text[..|text|] == text;
    NoBlank();
    TrimTo(text, |text|);
    assert all[1..] == words + ["+all"];
    OnlyRecord(text, all);
  }

  lemma {:induction false} NoBlank()
    ensures TextLemmas.Blank("")
  {
  }

  /** Comparing terms that do not match, and +all behind them: pass, for one lookup
      each. */
  lemma {:induction false} UnmatchedMeans(w: World, domain: string, terms: seq<Term>, height: nat)
    requires terms != [] && terms[|terms| - 1].Directive?
    requires terms[|terms| - 1].code == Pass && terms[|terms| - 1].mechanism == All
    requires forall i :: 0 <= i < |terms| - 1 ==>
      && terms[i].Directive? && terms[i].mechanism.Compare? && terms[i].mechanism.costs
      && w.probe(terms[i].mechanism.text, domain) == Miss
    ensures TermsMeaning(w, domain, terms, "", height) == Means(Pass, |terms| - 1)
    decreases |terms|
  {
    if |terms| > 1 {
      UnmatchedMeans(w, domain, terms[1..], height);
    }
  }

  /** The words of such a record, read as terms. */
  lemma {:induction false} WordsAreTerms(terms: seq<Written>)
    requires forall i :: 0 <= i < |terms| ==> Costly(terms[i])
    ensures var words := WordsOf(terms); var read := TermsOf(words + ["+all"]);
      && (forall i :: 0 <= i < |terms| ==> words[i] != "" && Solid(words[i]))
      && |read| == |terms| + 1 && read[|terms|] == Directive(Pass, All, "all")
      && forall i :: 0 <= i < |terms| ==>
           && read[i].Directive?
           && read[i].mechanism == Compare(true, MechanismText(terms[i].name, terms[i].value, terms[i].cidr))
  {
    hide Classify;
    hide Costly;
    hide TextOf;
    hide Solid;
    AllTerm();
    var words := WordsOf(terms);
    var all := words + ["+all"];
    forall i | 0 <= i < |terms|
      ensures words[i] != "" && Solid(words[i]) && Classify(all[i]).Directive?
      ensures Classify(all[i]).mechanism == Compare(true, MechanismText(terms[i].name, terms[i].value, terms[i].cidr))
    {
      CostlyTerm(terms[i]);
      assert all[i] == words[i];
    }
    assert all[|terms|] == "+all";
  }

  /** A domain whose terms mean pass for n lookups. */
  lemma {:induction false} PassWithin(w: World, domain: string, terms: seq<Term>, n: nat)
    requires domain != "" && NormalDomain(domain) == domain && w.published(domain) == Policy(terms)
    requires TermsMeaning(w, domain, terms, "", 10) == Means(Pass, n)
    ensures CheckDomain(w, true, domain, [], 0, {}, 0).code == if n <= 10 then Pass else PermError
  {
    hide CheckDomain;
    hide NormalDomain;
    hide TermsMeaning;
    EvaluatorReturnsMeaning(w, domain, LOOKUP_BUDGET + 1);
  }

  lemma {:induction false} WorldIs(dns: Dns, domain: string)
    ensures WorldOf(dns).published(domain) == PublishedIn(dns.txt(domain)) && WorldOf(dns).probe == dns.probe
  {
    hide PublishedIn;
  }

  /** A published record of n terms a, mx, exists or ptr, none of which matches, with
      +all behind them: pass for up to ten terms, permerror for more. */
  lemma {:induction false} LookupsAreCounted(dns: Dns, domain: string, terms: seq<Written>)
    requires forall i :: 0 <= i < |terms| ==> Costly(terms[i])
    requires forall i :: 0 <= i < |terms| ==>
      dns.probe(MechanismText(terms[i].name, terms[i].value, terms[i].cidr), domain) == Miss
    requires domain != "" && NormalDomain(domain) == domain
    requires dns.txt(domain) == Texts([Join(["v=spf1"] + WordsOf(terms) + ["+all"], " ")])
    ensures CheckDomain(WorldOf(dns), true, domain, [], 0, {}, 0).code == if |terms| <= 10 then Pass else PermError
  {
    hide *;
    var w := WorldOf(dns);
    WorldIs(dns, domain);
    WordsAreTerms(terms);
    RecordOf(WordsOf(terms));
    UnmatchedMeans(w, domain, TermsOf(WordsOf(terms) + ["+all"]), 10);
    PassWithin(w, domain, TermsOf(WordsOf(terms) + ["+all"]), |terms|);
  }

  lemma {:induction false} AllTerm()
    ensures Classify("+all") == Directive(Pass, All, "all")
  {
    EdgeWords();
    hide *;
    BareRoundTrip(Pass, "all", "");
    AllIsAll();
  }

  lemma {:induction false} AllIsAll()
    ensures MechanismOf(MechanismText("all", "", "")) == All && "all" + "" == "all"
  {
  }

  // ----- what is published --------------------------------------------------------------

  /** A failed lookup is a temporary error, a missing domain or one without an SPF
      text gives none, and two SPF texts are a permanent error. */
  lemma {:induction false} AnswersDecide(dns: Dns, domain: string)
    requires domain != "" && NormalDomain(domain) == domain
    ensures var code := CheckDomain(WorldOf(dns), true, domain, [], 0, {}, 0).code;
      match dns.txt(domain)
      case LookupFailed => code == TempError
      case NotFound => code == None
      case Texts(texts) =>
        && ((forall i :: 0 <= i < |texts| ==> !IsSpf(texts[i])) ==> code == None)
        && ((exists i, j :: 0 <= i < j < |texts| && IsSpf(texts[i]) && IsSpf(texts[j])) ==> code == PermError)
  {
    hide EvaluateTerms;
    hide NormalDomain;
    hide IsSpf;
    hide TermsOf;
    hide Fields;
    if dns.txt(domain).Texts? {
      CountRecords(dns.txt(domain).texts);
    }
    hide SpfRecords;
  }

  /** The text is an SPF record. */
  predicate IsSpf(text: string) {
    "v=spf1" <= Lower(Trim(text))
  }

  lemma {:induction false} CountRecords(texts: seq<string>)
    ensures (forall i :: 0 <= i < |texts| ==> !IsSpf(texts[i])) ==> SpfRecords(texts) == []
    ensures (exists i :: 0 <= i < |texts| && IsSpf(texts[i])) ==> |SpfRecords(texts)| >= 1
    ensures (exists i, j :: 0 <= i < j < |texts| && IsSpf(texts[i]) && IsSpf(texts[j])) ==> |SpfRecords(texts)| >= 2
  {
    hide Trim;
    hide Lower;
    if texts != [] {
      var n := |texts| - 1;
      CountRecords(texts[..n]);
      assert forall i :: 0 <= i < n ==> texts[..n][i] == texts[i];
    }
  }

  /** Blanks around a domain and the case of its letters do not matter. */
  lemma {:induction false} DomainIsNormal(a: string, d: string, b: string)
    requires TextLemmas.Blank(a) && TextLemmas.Blank(b) && d != "" && Solid(d)
    ensures NormalDomain(a + (d + b)) == Lower(d)
  {
    hide Trim;
    hide Lower;
    hide IsSpace;
    var t := d + b;
    TrimLead(a, t);
    assert t[|d| - 1] == d[|d| - 1] && t[|d|..] == b && t[..|d|] == d;
    TrimTo(t, |d|);
  }
}
