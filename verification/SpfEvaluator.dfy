/** The evaluator as it runs: a lookup counter and a set of domains in progress,
    both shared by all nesting levels and updated in place. */
module SpfEvaluator {
  import opened Text
  import opened SpfRecord
  import opened SpfModel

  /** The resolver, for one sending address. */
  datatype Dns = Dns(txt: string -> TxtAnswer, probe: (MechanismText, string) -> Probe)

  function WorldOf(dns: Dns): World {
    World(domain => PublishedIn(dns.txt(domain)), dns.probe)
  }

  function Prefixed(visits: seq<Visit>, s: Scan): Scan {
    s.(visits := visits + s.visits)
  }

  lemma {:induction false} PrefixedNone(s: Scan)
    ensures Prefixed([], s) == s
  {
    assert [] + s.visits == s.visits;
  }

  lemma {:induction false} TermAt(tokens: seq<string>, i: nat)
    requires i < |tokens|
    ensures var rest := TermsOf(tokens)[i..]; rest[0] == Classify(tokens[i]) && rest[1..] == TermsOf(tokens)[i + 1..]
  {
    hide Classify;
  }

  /** One round of the token loop, with the visits made so far in front. */
  lemma {:induction false} ScanRound(w: World, f: Frame, terms: seq<Term>, redirect: string, lookups: int,
      made: seq<Visit>)
    ensures var s := Prefixed(made, ScanTerms(w, true, f, terms, redirect, lookups));
      if terms == [] then s == Undecided(redirect, lookups, made)
      else match terms[0]
        case Redirect(target) => s == Prefixed(made, ScanTerms(w, true, f, terms[1..], target, lookups))
        case Ignored => s == Prefixed(made, ScanTerms(w, true, f, terms[1..], redirect, lookups))
        case Directive(code, mechanism, name) =>
          var m := SpfModel.MatchMechanism(w, true, f, mechanism, lookups);
          match m.answer
          case Error(e) => s == Decided(e, name, m.lookups, made + m.visits)
          case Yes => s == Decided(code, name, m.lookups, made + m.visits)
          case No => s == Prefixed(made + m.visits, ScanTerms(w, true, f, terms[1..], redirect, m.lookups))
  {
    hide SpfModel.MatchMechanism;
    if terms != [] && terms[0].Directive? {
      var m := SpfModel.MatchMechanism(w, true, f, terms[0].mechanism, lookups);
      var s := ScanTerms(w, true, f, terms[1..], redirect, m.lookups);
      assert (made + m.visits) + s.visits == made + (m.visits + s.visits);
    }
  }

  /** The only SPF record of an answer, found in one pass over the texts. */
  method FindRecord(answer: TxtAnswer) returns (status: RecordStatus)
    ensures status == SelectRecord(answer)
  {
    hide Trim;
    match answer
    case NotFound => status := NoRecord;
    case LookupFailed => status := DnsError;
    case Texts(texts) =>
      var count, record := 0, "";
      for i := 0 to |texts|
        invariant count == |SpfRecords(texts[..i])|
        invariant count == 0 ==> record == ""
        invariant count > 0 ==> record == SpfRecords(texts[..i])[count - 1] && record != ""
      {
        assert texts[..i + 1][..i] == texts[..i];
        var text := Trim(texts[i]);
        if "v=spf1" <= Lower(text) {
          count, record := count + 1, text;
        }
      }
      assert texts[..|texts|] == texts;
      if count > 1 {
        status := Ambiguous;
      } else if record != "" {
        status := Record(record);
      } else {
        status := NoRecord;
      }
  }

  class Evaluator {
    const dns: Dns
    var seen: set<string>
    var lookups: int
    ghost var visits: seq<Visit>

    constructor (dns: Dns)
      ensures this.dns == dns && seen == {} && lookups == 0 && visits == []
    {
      this.dns := dns;
      seen, lookups, visits := {}, 0, [];
    }

    method CheckDomain(raw: string, depth: int, ghost path: seq<string>) returns (code: Code, detail: string)
      modifies this
      ensures seen == old(seen)
      ensures var v := SpfModel.CheckDomain(WorldOf(dns), true, raw, path, depth, old(seen), old(lookups));
        code == v.code && detail == v.detail && lookups == v.lookups && visits == old(visits) + v.visits
      decreases Left(lookups), 4
    {
      hide SpfModel.EvaluateRecord;
      hide PublishedIn;
      hide Trim;
      ghost var entered := lookups;
      var domain := Lower(Trim(raw));
      if depth > DEPTH_LIMIT {
        code, detail := PermError, "depth-limit";
      } else if domain == "" {
        code, detail := None, "empty-domain";
      } else if domain in seen {
        code, detail := PermError, "loop-detected";
      } else {
        seen := seen + {domain};
        code, detail := EvaluateRecord(domain, depth, path + [domain]);
        seen := seen - {domain};
      }
      assert seen == old(seen);
      visits := visits + [Visit(domain, path, depth, seen, entered, code)];
    }

    method EvaluateRecord(domain: string, depth: int, ghost path: seq<string>) returns (code: Code, detail: string)
      modifies this
      ensures seen == old(seen)
      ensures var v := SpfModel.EvaluateRecord(WorldOf(dns), true, Frame(domain, path, depth, old(seen)), old(lookups));
        code == v.code && detail == v.detail && lookups == v.lookups && visits == old(visits) + v.visits
      decreases Left(lookups), 3
    {
      hide SpfModel.ScanTerms;
      hide SpfModel.CheckDomain;
      hide SelectRecord;
      var status := FindRecord(dns.txt(domain));
      match status
      case NoRecord => code, detail := None, "no-record";
      case DnsError => code, detail := TempError, "dns-temporary-error";
      case Ambiguous => code, detail := PermError, "multiple-records";
      case Record(text) =>
        var tokens := Fields(text);
        if |tokens| == 0 {
          return None, "empty-record";
        }
        var decided, redirect;
        decided, code, detail, redirect := ScanTokens(domain, tokens[1..], depth, path);
        if decided {
          return;
        }
        if redirect != "" {
          lookups := lookups + 1;
          if lookups > LOOKUP_BUDGET {
            return PermError, "lookup-limit";
          }
          code, detail := CheckDomain(redirect, depth + 1, path);
          if detail == "" {
            detail := "redirect";
          }
          return code, "redirect->" + detail;
        }
        return Neutral, "default-neutral";
    }

    /** The token loop: it stops at the first mechanism that matches or errs. */
    method ScanTokens(domain: string, tokens: seq<string>, depth: int, ghost path: seq<string>)
      returns (decided: bool, code: Code, detail: string, redirect: string)
      modifies this
      ensures seen == old(seen)
      ensures var s := ScanTerms(
          WorldOf(dns), true, Frame(domain, path, depth, old(seen)), TermsOf(tokens), "", old(lookups));
        && decided == s.Decided?
        && (decided ==> code == s.code && detail == s.detail)
        && (!decided ==> redirect == s.redirect)
        && lookups == s.lookups && visits == old(visits) + s.visits
      decreases Left(lookups), 1, |tokens|
    {
      hide SpfModel.CheckDomain;
      hide SpfModel.MatchMechanism;
      hide ScanTerms;
      hide WorldOf;
      hide Classify;
      hide TermsOf;
      hide Prefixed;
      ghost var f := Frame(domain, path, depth, seen);
      ghost var terms := TermsOf(tokens);
      ghost var made: seq<Visit> := [];
      decided, code, detail, redirect := false, None, "", "";
      PrefixedNone(ScanTerms(WorldOf(dns), true, f, terms, "", lookups));
      var i := 0;
      while i < |tokens|
        invariant 0 <= i <= |tokens|
        invariant seen == old(seen) && lookups >= old(lookups) && !decided
        invariant visits == old(visits) + made
        invariant ScanTerms(WorldOf(dns), true, f, terms, "", old(lookups))
               == Prefixed(made, ScanTerms(WorldOf(dns), true, f, terms[i..], redirect, lookups))
      {
        ScanRound(WorldOf(dns), f, terms[i..], redirect, lookups, made);
        TermAt(tokens, i);
        match Classify(tokens[i]) {
          case Redirect(target) => redirect := target;
          case Ignored =>
          case Directive(matchCode, mechanism, name) =>
            ghost var m := SpfModel.MatchMechanism(WorldOf(dns), true, f, mechanism, lookups);
            var answer := MatchMechanism(domain, mechanism, depth, path);
            made := made + m.visits;
            match answer {
              case Error(e) => return true, e, name, redirect;
              case Yes => return true, matchCode, name, redirect;
              case No =>
            }
        }
        i := i + 1;
      }
      ScanRound(WorldOf(dns), f, terms[i..], redirect, lookups, made);
    }

    method MatchMechanism(domain: string, mech: Mechanism, depth: int, ghost path: seq<string>) returns (answer: Match)
      modifies this
      ensures seen == old(seen)
      ensures var m := SpfModel.MatchMechanism(
          WorldOf(dns), true, Frame(domain, path, depth, old(seen)), mech, old(lookups));
        answer == m.answer && lookups == m.lookups && visits == old(visits) + m.visits
      decreases Left(lookups), 0
    {
      hide SpfModel.CheckDomain;
      hide PublishedIn;
      if mech.Include? || (mech.Compare? && mech.costs) {
        lookups := lookups + 1;
        if lookups > LOOKUP_BUDGET {
          return Error(PermError);
        }
      }
      match mech
      case All => answer := Yes;
      case Unknown => answer := No;
      case Include(target) =>
        if target == "" {
          return Error(PermError);
        }
        var code, _ := CheckDomain(target, depth + 1, path);
        answer := if code == Pass then Yes else if IsError(code) then Error(code) else No;
      case Compare(_, text) =>
        answer := match dns.probe(text, domain) case Hit => Yes case Miss => No case Unanswered => Error(TempError);
    }
  }
}
