/** The standard asks for permerror where an include or a redirect names a domain
    without an SPF record (sections 5.2 and 6.1 of RFC 7208); the evaluator takes
    the include as no match and the redirect as none. Where the two differ. */
module SpfStrict {
  import opened Text
  import opened TextLemmas
  import opened SpfRecord
  import opened SpfModel
  import opened SpfMeaning
  import opened SpfPrinting
  import opened SpfEvaluator
  import opened SpfTerms

  /** The meaning of a domain that is included or redirected to. */
  function Required(m: Meaning): Meaning {
    if m.Means? && m.code == None then Means(PermError, m.cost) else m
  }

  /** The meaning of a domain as the standard has it. */
  function StrictDomain(w: World, raw: string, height: nat): Meaning
    decreases height, 1, 0
  {
    var domain := NormalDomain(raw);
    if height == 0 || domain == "" || !w.published(domain).Policy? then DomainMeaning(w, raw, height)
    else StrictTerms(w, domain, w.published(domain).terms, "", height - 1)
  }

  function StrictTerms(w: World, domain: string, terms: seq<Term>, redirect: string, height: nat): Meaning
    decreases height, 2, |terms|
  {
    if |terms| == 0 then
      if redirect == "" then Means(Neutral, 0) else Plus(1, Required(StrictDomain(w, redirect, height)))
    else
      match terms[0]
      case Redirect(target) => StrictTerms(w, domain, terms[1..], target, height)
      case Ignored => StrictTerms(w, domain, terms[1..], redirect, height)
      case Directive(code, mech, name) =>
        match StrictEffect(w, domain, code, mech, height)
        case Stops(c, n) => Means(c, n)
        case Passes(n) => Plus(n, StrictTerms(w, domain, terms[1..], redirect, height))
        case Diverges => Unbounded
  }

  function StrictEffect(w: World, domain: string, code: Code, mech: Mechanism, height: nat): Effect
    decreases height, 2, 0
  {
    if mech.Include? && mech.target != "" then IncludeEffect(code, Required(StrictDomain(w, mech.target, height)))
    else MechanismEffect(w, domain, code, mech, height)
  }

  // ----- missing records ------------------------------------------------------------------

  /** The evaluation of a domain comes to an include or redirect whose target has
      no result of its own, or has such a place inside. */
  predicate DomainMisses(w: World, raw: string, height: nat)
    decreases height, 1, 0
  {
    var domain := NormalDomain(raw);
    && height > 0 && domain != "" && w.published(domain).Policy?
    && TermsMiss(w, domain, w.published(domain).terms, "", height - 1)
  }

  predicate TermsMiss(w: World, domain: string, terms: seq<Term>, redirect: string, height: nat)
    decreases height, 2, |terms|
  {
    if |terms| == 0 then redirect != "" && TargetMisses(w, redirect, height)
    else
      match terms[0]
      case Redirect(target) => TermsMiss(w, domain, terms[1..], target, height)
      case Ignored => TermsMiss(w, domain, terms[1..], redirect, height)
      case Directive(code, mech, name) =>
        || (mech.Include? && mech.target != "" && TargetMisses(w, mech.target, height))
        || (&& MechanismEffect(w, domain, code, mech, height).Passes?
            && TermsMiss(w, domain, terms[1..], redirect, height))
  }

  predicate TargetMisses(w: World, target: string, height: nat)
    decreases height, 1, 1
  {
    || DomainMisses(w, target, height)
    || (DomainMeaning(w, target, height).Means? && DomainMeaning(w, target, height).code == None)
  }

  // ----- the two meanings -------------------------------------------------------------------

  /** The strict meaning: permerror if a record is missing, the same otherwise. */
  predicate Differs(strict: Meaning, plain: Meaning, misses: bool) {
    if misses then strict.Means? && strict.code == PermError else strict == plain
  }

  lemma {:induction false} DomainDiffers(w: World, raw: string, height: nat)
    ensures Differs(StrictDomain(w, raw, height), DomainMeaning(w, raw, height), DomainMisses(w, raw, height))
    decreases height, 1, 0
  {
    hide NormalDomain;
    hide TermsMeaning;
    hide StrictTerms;
    hide TermsMiss;
    var domain := NormalDomain(raw);
    if height > 0 && domain != "" && w.published(domain).Policy? {
      TermsDiffer(w, domain, w.published(domain).terms, "", height - 1);
    }
  }

  lemma {:induction false} TargetDiffers(w: World, target: string, height: nat)
    ensures Differs(Required(StrictDomain(w, target, height)), DomainMeaning(w, target, height),
                    TargetMisses(w, target, height))
    decreases height, 1, 1
  {
    hide StrictDomain;
    hide DomainMeaning;
    hide DomainMisses;
    DomainDiffers(w, target, height);
  }

  lemma {:induction false} TermsDiffer(w: World, domain: string, terms: seq<Term>, redirect: string, height: nat)
    ensures Differs(StrictTerms(w, domain, terms, redirect, height), TermsMeaning(w, domain, terms, redirect, height),
                    TermsMiss(w, domain, terms, redirect, height))
    decreases height, 2, |terms|
  {
    hide StrictDomain;
    hide DomainMeaning;
    hide TargetMisses;
    hide NormalDomain;
    if |terms| == 0 {
      TargetDiffers(w, redirect, height);
    } else {
      match terms[0]
      case Redirect(target) => TermsDiffer(w, domain, terms[1..], target, height);
      case Ignored => TermsDiffer(w, domain, terms[1..], redirect, height);
      case Directive(code, mech, name) =>
        if mech.Include? {
          TargetDiffers(w, mech.target, height);
        }
        TermsDiffer(w, domain, terms[1..], redirect, height);
    }
  }

  /** The standard asks for permerror where an included or redirected domain on the
      way lacks a record, and for the evaluator's code everywhere else. */
  lemma {:induction false} AgreesWithStandard(w: World, raw: string, height: nat)
    requires height > LOOKUP_BUDGET
    ensures Bounded(StrictDomain(w, raw, height))
         == if DomainMisses(w, raw, height) then PermError else CheckDomain(w, true, raw, [], 0, {}, 0).code
  {
    hide CheckDomain;
    hide StrictDomain;
    hide DomainMeaning;
    hide DomainMisses;
    EvaluatorReturnsMeaning(w, raw, height);
    DomainDiffers(w, raw, height);
  }

  lemma {:induction false} RecordWords()
    ensures Solid("include:b") && "include" + ":" + ("b" + Slashed("")) == "include:b"
    ensures "v=spf1" + (" " + ("include:b" + (" " + "+all"))) == "v=spf1 include:b +all"
    ensures PlainName("include") && PlainValue("b") && PlainLength("")
    ensures MechanismOf(MechanismText("include", "b", "")) == Include("b")
  {
  }

  lemma {:induction false} JoinedRecord(version: string, a: string, b: string)
    ensures Join([version] + [a] + [b], " ") == version + (" " + (a + (" " + b)))
  {
    hide Join;
    JoinAppend([version] + [a], [b], " ");
    JoinAppend([version], [a], " ");
    JoinOne(version, " ");
    JoinOne(a, " ");
    JoinOne(b, " ");
  }

  lemma {:induction false} TwoTerms(a: string, b: string)
    ensures TermsOf([a] + [b]) == [Classify(a), Classify(b)]
  {
    hide Classify;
  }

  /** The record as it is published, read as terms. */
  lemma {:induction false} ReadRecord()
    ensures PublishedIn(Texts(["v=spf1 include:b +all"]))
         == Policy([Directive(Pass, Include("b"), "include"), Directive(Pass, All, "all")])
  {
    hide *;
    RecordWords();
    TwoTerms("include:b", "+all");
    JoinedRecord("v=spf1", "include:b", "+all");
    RecordOf(["include:b"]);
    UnmarkedMeansPass("include", "b", "");
    AllTerm();
  }

  lemma {:induction false} IncludeOfNothing(w: World, height: nat)
    requires height > LOOKUP_BUDGET
    requires w.published("a") == Policy([Directive(Pass, Include("b"), "include"), Directive(Pass, All, "all")])
    requires w.published("b") == Absent
    ensures CheckDomain(w, true, "a", [], 0, {}, 0).code == Pass
    ensures Bounded(StrictDomain(w, "a", height)) == PermError
  {
    hide CheckDomain;
    hide NormalDomain;
    EvaluatorReturnsMeaning(w, "a", height);
    AgreesWithStandard(w, "a", height);
    OwnNames();
    var terms := [Directive(Pass, Include("b"), "include"), Directive(Pass, All, "all")];
    assert DomainMeaning(w, "b", height - 1) == Means(None, 0);
    assert TargetMisses(w, "b", height - 1);
    assert terms[1..] == [Directive(Pass, All, "all")];
    assert TermsMeaning(w, "a", terms[1..], "", height - 1) == Means(Pass, 0);
    assert TermsMeaning(w, "a", terms, "", height - 1) == Means(Pass, 1);
  }

  /** A record that includes a domain without one and ends in +all: pass here,
      permerror there. */
  lemma {:induction false} MissingIncludeDiffers(dns: Dns, height: nat)
    requires height > LOOKUP_BUDGET
    requires dns.txt("a") == Texts(["v=spf1 include:b +all"]) && dns.txt("b") == NotFound
    ensures CheckDomain(WorldOf(dns), true, "a", [], 0, {}, 0).code == Pass
    ensures Bounded(StrictDomain(WorldOf(dns), "a", height)) == PermError
  {
    assert PublishedIn(NotFound) == Absent;
    hide *;
    WorldIs(dns, "a");
    WorldIs(dns, "b");
    ReadRecord();
    IncludeOfNothing(WorldOf(dns), height);
  }

  lemma {:induction false} OwnNames()
    ensures NormalDomain("a") == "a" && NormalDomain("b") == "b"
  {
    assert Solid("a") && Solid("b");
    TrimSolid("a");
    TrimSolid("b");
  }
}
