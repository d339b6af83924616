/** SPF without any of the evaluator's bounds, and how the evaluator relates to it. */
module SpfMeaning {
  import opened SpfRecord
  import opened SpfModel
  import opened SpfTheorems

  /** What a domain means for the sender and how many lookups that takes;
      Unbounded when the nesting is deeper than the height allowed. */
  datatype Meaning = Means(code: Code, cost: nat) | Unbounded

  function Plus(n: nat, m: Meaning): Meaning {
    if m.Means? then Means(m.code, n + m.cost) else Unbounded
  }

  /** No counter, no set of domains in progress, no depth limit: only a height
      that bounds how far includes and redirects are followed. */
  function DomainMeaning(w: World, raw: string, height: nat): Meaning
    decreases height, 1, 0
  {
    var domain := NormalDomain(raw);
    if height == 0 then Unbounded
    else if domain == "" then Means(None, 0)
    else
      match w.published(domain)
      case Absent => Means(None, 0)
      case Blank => Means(None, 0)
      case Failed => Means(TempError, 0)
      case Several => Means(PermError, 0)
      case Policy(terms) => TermsMeaning(w, domain, terms, "", height - 1)
  }

  function TermsMeaning(w: World, domain: string, terms: seq<Term>, redirect: string, height: nat): Meaning
    decreases height, 2, |terms|
  {
    if |terms| == 0 then
      if redirect == "" then Means(Neutral, 0) else Plus(1, DomainMeaning(w, redirect, height))
    else
      match terms[0]
      case Redirect(target) => TermsMeaning(w, domain, terms[1..], target, height)
      case Ignored => TermsMeaning(w, domain, terms[1..], redirect, height)
      case Directive(code, mech, name) =>
        match MechanismEffect(w, domain, code, mech, height)
        case Stops(c, n) => Means(c, n)
        case Passes(n) => Plus(n, TermsMeaning(w, domain, terms[1..], redirect, height))
        case Diverges => Unbounded
  }

  /** A mechanism stops the evaluation with a code, or passes to the next term. */
  datatype Effect = Stops(code: Code, cost: nat) | Passes(cost: nat) | Diverges

  /** What an include makes of the meaning of its target. */
  function IncludeEffect(code: Code, m: Meaning): Effect {
    match m
    case Unbounded => Diverges
    case Means(c, n) =>
      if c == Pass then Stops(code, n + 1) else if IsError(c) then Stops(c, n + 1) else Passes(n + 1)
  }

  function MechanismEffect(w: World, domain: string, code: Code, mech: Mechanism, height: nat): Effect
    decreases height, 2, 0
  {
    match mech
    case All => Stops(code, 0)
    case Unknown => Passes(0)
    case Include(target) =>
      if target == "" then Stops(PermError, 1) else IncludeEffect(code, DomainMeaning(w, target, height))
    case Compare(costs, text) =>
      var n := if costs then 1 else 0;
      match w.probe(text, domain)
      case Hit => Stops(code, n)
      case Miss => Passes(n)
      case Unanswered => Stops(TempError, n)
  }

  /** The meaning when it fits the rest of the budget, permerror otherwise. */
  predicate Fits(code: Code, after: int, before: int, m: Meaning) {
    if m.Means? && before + m.cost <= LOOKUP_BUDGET then code == m.code && after == before + m.cost
    else code == PermError
  }

  /** The code a meaning gives under the lookup budget. */
  function Bounded(m: Meaning): Code {
    if m.Means? && m.cost <= LOOKUP_BUDGET then m.code else PermError
  }

  lemma {:induction false} CheckMeaning(w: World, raw: string, path: seq<string>, depth: int, seen: set<string>,
      l: int, height: nat)
    requires depth <= l <= LOOKUP_BUDGET && height + l > LOOKUP_BUDGET
    ensures var v := CheckDomain(w, false, raw, path, depth, seen, l);
      Fits(v.code, v.lookups, l, DomainMeaning(w, raw, height))
    decreases Left(l), 4
  {
    hide EvaluateTerms;
    hide TermsMeaning;
    hide NormalDomain;
    var domain := NormalDomain(raw);
    if domain != "" && w.published(domain).Policy? {
      var f := Frame(domain, path + [domain], depth, seen + {domain});
      RecordMeaning(w, f, w.published(domain).terms, l, height - 1);
    }
  }

  lemma {:induction false} RecordMeaning(w: World, f: Frame, terms: seq<Term>, l: int, height: nat)
    requires f.depth <= l <= LOOKUP_BUDGET && height + l >= LOOKUP_BUDGET
    ensures var v := EvaluateTerms(w, false, f, terms, l);
      Fits(v.code, v.lookups, l, TermsMeaning(w, f.domain, terms, "", height))
    decreases Left(l), 3
  {
    hide DomainMeaning;
    hide NormalDomain;
    hide CheckDomain;
    hide ScanTerms;
    hide TermsMeaning;
    ScanMeaning(w, f, terms, "", l, height);
    var s := ScanTerms(w, false, f, terms, "", l);
    if s.Undecided? {
      NoTermsMeaning(w, f.domain, s.redirect, height);
      if s.redirect != "" && s.lookups < LOOKUP_BUDGET {
        CheckMeaning(w, s.redirect, f.path, f.depth + 1, f.seen, s.lookups + 1, height);
      }
    }
  }

  lemma {:induction false} NoTermsMeaning(w: World, domain: string, redirect: string, height: nat)
    ensures TermsMeaning(w, domain, [], redirect, height)
         == if redirect == "" then Means(Neutral, 0) else Plus(1, DomainMeaning(w, redirect, height))
  {
    hide DomainMeaning;
  }

  lemma {:induction false} ScanMeaning(w: World, f: Frame, terms: seq<Term>, redirect: string, l: int, height: nat)
    requires f.depth <= l <= LOOKUP_BUDGET && height + l >= LOOKUP_BUDGET
    ensures var s := ScanTerms(w, false, f, terms, redirect, l);
      var m := TermsMeaning(w, f.domain, terms, redirect, height);
      if s.Decided? then Fits(s.code, s.lookups, l, m)
      else m == Plus(s.lookups - l, TermsMeaning(w, f.domain, [], s.redirect, height))
    decreases Left(l), 1, |terms|
  {
    hide MatchMechanism;
    hide MechanismEffect;
    hide DomainMeaning;
    if |terms| > 0 {
      match terms[0]
      case Redirect(target) => ScanMeaning(w, f, terms[1..], target, l, height);
      case Ignored => ScanMeaning(w, f, terms[1..], redirect, l, height);
      case Directive(code, mech, name) =>
        MatchMeaning(w, f, code, mech, l, height);
        var m := MatchMechanism(w, false, f, mech, l);
        if m.answer == No {
          ScanMeaning(w, f, terms[1..], redirect, m.lookups, height);
        }
    }
  }

  /** The answer of a mechanism is its effect when that fits the rest of the
      budget, and permerror otherwise. */
  predicate FitsEffect(m: Matched, l: int, code: Code, e: Effect) {
    match e
    case Diverges => m.answer == Error(PermError)
    case Stops(c, n) =>
      if l + n > LOOKUP_BUDGET then m.answer == Error(PermError)
      else m.lookups == l + n && m.answer != No && c == (if m.answer == Yes then code else m.answer.code)
    case Passes(n) =>
      if l + n > LOOKUP_BUDGET then m.answer == Error(PermError) else m.lookups == l + n && m.answer == No
  }

  lemma {:induction false} MatchMeaning(w: World, f: Frame, code: Code, mech: Mechanism, l: int, height: nat)
    requires f.depth <= l <= LOOKUP_BUDGET && height + l >= LOOKUP_BUDGET
    ensures FitsEffect(MatchMechanism(w, false, f, mech, l), l, code, MechanismEffect(w, f.domain, code, mech, height))
    decreases Left(l), 0
  {
    hide CheckDomain;
    hide DomainMeaning;
    if mech.Include? && mech.target != "" && l < LOOKUP_BUDGET {
      hide MatchMechanism;
      hide MechanismEffect;
      CheckMeaning(w, mech.target, f.path, f.depth + 1, f.seen, l + 1, height);
      IncludeStep(w, f, code, mech, l, height);
    }
  }

  lemma {:induction false} IncludeStep(w: World, f: Frame, code: Code, mech: Mechanism, l: int, height: nat)
    requires mech.Include? && mech.target != "" && l < LOOKUP_BUDGET
    requires var v := CheckDomain(w, false, mech.target, f.path, f.depth + 1, f.seen, l + 1);
      Fits(v.code, v.lookups, l + 1, DomainMeaning(w, mech.target, height))
    ensures FitsEffect(MatchMechanism(w, false, f, mech, l), l, code, MechanismEffect(w, f.domain, code, mech, height))
  {
    hide CheckDomain;
    hide DomainMeaning;
  }

  /** The evaluator returns the meaning of the domain, at whatever height it is
      looked at, when that takes at most ten lookups, and permerror otherwise. */
  lemma {:induction false} EvaluatorReturnsMeaning(w: World, raw: string, height: nat)
    requires height > LOOKUP_BUDGET
    ensures CheckDomain(w, true, raw, [], 0, {}, 0).code == Bounded(DomainMeaning(w, raw, height))
  {
    hide CheckDomain;
    hide DomainMeaning;
    CheckMeaning(w, raw, [], 0, {}, 0, height);
    LoopDetectionKeepsVerdict(w, raw);
  }
}
