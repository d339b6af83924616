/** SPF evaluation as the receiver performs it (sections 4 to 6 of RFC 7208),
    written as functions of a DNS that stays fixed during one evaluation. */
module SpfModel {
  import opened SpfRecord

  predicate IsError(c: Code) {
    c == TempError || c == PermError
  }

  /** Answer of a mechanism that compares addresses. */
  datatype Probe = Hit | Miss | Unanswered

  /** Everything outside the evaluator, for one sending address: what each domain
      publishes, and the outcome of a comparing mechanism in a domain. */
  datatype World = World(published: string -> Published, probe: (MechanismText, string) -> Probe)

  const LOOKUP_BUDGET: int := 10
  const DEPTH_LIMIT: int := 10

  /** One call of the domain check: its arguments, the chain of domains whose
      evaluation was in progress, and the code it returned. */
  datatype Visit = Visit(domain: string, path: seq<string>, depth: int, seen: set<string>, lookups: int, code: Code)

  /** Result of a domain check: code, reporting detail, the counter afterwards
      and the visits made, each listed when it returned. */
  datatype Verdict = Verdict(code: Code, detail: string, lookups: int, visits: seq<Visit>)

  /** Where a record is being evaluated. */
  datatype Frame = Frame(domain: string, path: seq<string>, depth: int, seen: set<string>)

  datatype Match = Yes | No | Error(code: Code)
  datatype Matched = Matched(answer: Match, lookups: int, visits: seq<Visit>)

  datatype Scan =
    | Decided(code: Code, detail: string, lookups: int, visits: seq<Visit>)
    | Undecided(redirect: string, lookups: int, visits: seq<Visit>)

  /** How much of the lookup budget is left, as a termination measure. */
  function Left(lookups: int): nat {
    if lookups <= LOOKUP_BUDGET then LOOKUP_BUDGET + 1 - lookups else 0
  }

  /** Visits cost lookups: at most one per unit of budget between two counters. */
  predicate Paid(visits: nat, before: int, after: int) {
    && before <= after
    && (before <= LOOKUP_BUDGET ==>
          after <= LOOKUP_BUDGET + 1 && visits <= (if after <= LOOKUP_BUDGET then after else LOOKUP_BUDGET) - before)
  }

  /** The domain check; loop detection can be switched off with detect. */
  function CheckDomain(w: World, detect: bool, raw: string, path: seq<string>, depth: int, seen: set<string>,
      lookups: int)
    : (v: Verdict)
    ensures |v.visits| > 0 && Paid(|v.visits| - 1, lookups, v.lookups)
    ensures lookups <= LOOKUP_BUDGET < v.lookups ==> v.code == PermError
    decreases Left(lookups), 4
  {
    var domain := NormalDomain(raw);
    var v :=
      if depth > DEPTH_LIMIT then Verdict(PermError, "depth-limit", lookups, [])
      else if domain == "" then Verdict(None, "empty-domain", lookups, [])
      else if detect && domain in seen then Verdict(PermError, "loop-detected", lookups, [])
      else EvaluateRecord(w, detect, Frame(domain, path + [domain], depth, seen + {domain}), lookups);
    v.(visits := v.visits + [Visit(domain, path, depth, seen, lookups, v.code)])
  }

  function EvaluateRecord(w: World, detect: bool, f: Frame, lookups: int): (v: Verdict)
    ensures Paid(|v.visits|, lookups, v.lookups)
    ensures lookups <= LOOKUP_BUDGET < v.lookups ==> v.code == PermError
    decreases Left(lookups), 3
  {
    match w.published(f.domain)
    case Absent => Verdict(None, "no-record", lookups, [])
    case Failed => Verdict(TempError, "dns-temporary-error", lookups, [])
    case Several => Verdict(PermError, "multiple-records", lookups, [])
    case Blank => Verdict(None, "empty-record", lookups, [])
    case Policy(terms) => EvaluateTerms(w, detect, f, terms, lookups)
  }

  function EvaluateTerms(w: World, detect: bool, f: Frame, terms: seq<Term>, lookups: int): (v: Verdict)
    ensures Paid(|v.visits|, lookups, v.lookups)
    ensures lookups <= LOOKUP_BUDGET < v.lookups ==> v.code == PermError
    decreases Left(lookups), 2
  {
    match ScanTerms(w, detect, f, terms, "", lookups)
    case Decided(code, detail, n, visits) => Verdict(code, detail, n, visits)
    case Undecided(redirect, n, visits) =>
      if redirect == "" then Verdict(Neutral, "default-neutral", n, visits)
      else if n + 1 > LOOKUP_BUDGET then Verdict(PermError, "lookup-limit", n + 1, visits)
      else
        var v := CheckDomain(w, detect, redirect, f.path, f.depth + 1, f.seen, n + 1);
        Verdict(v.code, "redirect->" + (if v.detail == "" then "redirect" else v.detail), v.lookups, visits + v.visits)
  }

  /** Terms in order; redirect is the target of the last redirect= before them. */
  function ScanTerms(w: World, detect: bool, f: Frame, terms: seq<Term>, redirect: string, lookups: int): (s: Scan)
    ensures Paid(|s.visits|, lookups, s.lookups)
    ensures lookups <= LOOKUP_BUDGET < s.lookups ==> s.Decided? && s.code == PermError
    decreases Left(lookups), 1, |terms|
  {
    if |terms| == 0 then Undecided(redirect, lookups, [])
    else
      match terms[0]
      case Redirect(target) => ScanTerms(w, detect, f, terms[1..], target, lookups)
      case Ignored => ScanTerms(w, detect, f, terms[1..], redirect, lookups)
      case Directive(code, mechanism, name) =>
        var m := MatchMechanism(w, detect, f, mechanism, lookups);
        match m.answer
        case Error(e) => Decided(e, name, m.lookups, m.visits)
        case Yes => Decided(code, name, m.lookups, m.visits)
        case No =>
          var s := ScanTerms(w, detect, f, terms[1..], redirect, m.lookups);
          s.(visits := m.visits + s.visits)
  }

  function MatchMechanism(w: World, detect: bool, f: Frame, mech: Mechanism, lookups: int): (m: Matched)
    ensures Paid(|m.visits|, lookups, m.lookups)
    ensures lookups <= LOOKUP_BUDGET < m.lookups ==> m.answer == Error(PermError)
    decreases Left(lookups), 0
  {
    match mech
    case All => Matched(Yes, lookups, [])
    case Unknown => Matched(No, lookups, [])
    case Include(target) =>
      if lookups + 1 > LOOKUP_BUDGET || target == "" then Matched(Error(PermError), lookups + 1, [])
      else
        var v := CheckDomain(w, detect, target, f.path, f.depth + 1, f.seen, lookups + 1);
        Matched(if v.code == Pass then Yes else if IsError(v.code) then Error(v.code) else No, v.lookups, v.visits)
    case Compare(costs, text) =>
      var n := if costs then lookups + 1 else lookups;
      if costs && n > LOOKUP_BUDGET then Matched(Error(PermError), n, [])
      else Matched(
        match w.probe(text, f.domain) case Hit => Yes case Miss => No case Unanswered => Error(TempError), n, [])
  }
}
