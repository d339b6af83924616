/** What every SPF evaluation keeps, for every DNS, sender and domain. */
module SpfTheorems {
  import opened SpfRecord
  import opened SpfModel

  // ----- the three bounds at every visit ---------------------------------

  /** seen is exactly the chain of domains in progress, one per level, and each
      level below the first has cost one lookup. */
  predicate Coherent(path: seq<string>, depth: int, seen: set<string>, lookups: int) {
    && depth == |path| == |seen|
    && seen == (set d | d in path)
    && depth <= lookups <= LOOKUP_BUDGET
  }

  /** Every visit was coherent, and an error it returned is the code given. */
  ghost predicate Settled(visits: seq<Visit>, code: Code) {
    forall u :: u in visits ==>
      Coherent(u.path, u.depth, u.seen, u.lookups) && (IsError(u.code) ==> u.code == code)
  }

  lemma {:induction false} CheckVisits(w: World, raw: string, path: seq<string>, depth: int, seen: set<string>,
      lookups: int)
    requires Coherent(path, depth, seen, lookups)
    ensures var v := CheckDomain(w, true, raw, path, depth, seen, lookups); Settled(v.visits, v.code)
    decreases Left(lookups), 4
  {
    hide EvaluateRecord;
    hide NormalDomain;
    var domain := NormalDomain(raw);
    if domain != "" && domain !in seen {
      var f := Frame(domain, path + [domain], depth, seen + {domain});
      assert f.seen == (set d | d in f.path);
      RecordVisits(w, f, lookups);
    }
  }

  lemma {:induction false} RecordVisits(w: World, f: Frame, lookups: int)
    requires f.depth <= lookups <= LOOKUP_BUDGET
    requires f.depth + 1 == |f.path| == |f.seen| && f.seen == (set d | d in f.path)
    ensures var v := EvaluateRecord(w, true, f, lookups); Settled(v.visits, v.code)
    decreases Left(lookups), 3
  {
    hide CheckDomain;
    hide ScanTerms;
    if w.published(f.domain).Policy? {
      var terms := w.published(f.domain).terms;
      ScanVisits(w, f, terms, "", lookups);
      var s := ScanTerms(w, true, f, terms, "", lookups);
      if s.Undecided? && s.redirect != "" && s.lookups < LOOKUP_BUDGET {
        CheckVisits(w, s.redirect, f.path, f.depth + 1, f.seen, s.lookups + 1);
      }
    }
  }

  lemma {:induction false} ScanVisits(w: World, f: Frame, terms: seq<Term>, redirect: string, lookups: int)
    requires f.depth <= lookups <= LOOKUP_BUDGET
    requires f.depth + 1 == |f.path| == |f.seen| && f.seen == (set d | d in f.path)
    ensures var s := ScanTerms(w, true, f, terms, redirect, lookups);
      Settled(s.visits, if s.Decided? then s.code else None)
    decreases Left(lookups), 1, |terms|
  {
    hide CheckDomain;
    if |terms| > 0 {
      match terms[0]
      case Redirect(target) => ScanVisits(w, f, terms[1..], target, lookups);
      case Ignored => ScanVisits(w, f, terms[1..], redirect, lookups);
      case Directive(code, mech, name) =>
        var m := MatchMechanism(w, true, f, mech, lookups);
        if mech.Include? && mech.target != "" && lookups < LOOKUP_BUDGET {
          CheckVisits(w, mech.target, f.path, f.depth + 1, f.seen, lookups + 1);
        }
        if m.answer == No {
          ScanVisits(w, f, terms[1..], redirect, m.lookups);
        }
    }
  }

  /** One evaluation from the top: at every visit seen is the set of ancestors,
      its size is the depth, and the depth is at most the counter, which is at
      most the budget (so the depth limit is never hit); at most eleven visits,
      hence record fetches; the counter ends at eleven at most, and then the code
      is permerror; and the first error at any level is the final code. */
  lemma EvaluationBounds(w: World, raw: string)
    ensures var v := CheckDomain(w, true, raw, [], 0, {}, 0);
      && (forall u :: u in v.visits ==>
            && u.seen == (set d | d in u.path)
            && u.depth == |u.seen| <= u.lookups <= LOOKUP_BUDGET
            && u.depth <= DEPTH_LIMIT
            && (IsError(u.code) ==> u.code == v.code))
      && |v.visits| <= LOOKUP_BUDGET + 1
      && v.lookups <= LOOKUP_BUDGET + 1
      && (v.lookups == LOOKUP_BUDGET + 1 ==> v.code == PermError)
  {
    hide CheckDomain;
    CheckVisits(w, raw, [], 0, {}, 0);
  }

  // ----- budget shift -------------------------------------------------------

  /** Same outcome with the same number of further lookups, or permerror. */
  predicate Shifted(v1: Verdict, l1: int, v2: Verdict, l2: int) {
    v2.code == PermError || (v2.code == v1.code && v2.detail == v1.detail && v2.lookups - l2 == v1.lookups - l1)
  }

  /** Two frames that evaluate the same record; with loop detection on, they
      also agree on the domains in progress. */
  predicate SameRecord(detect: bool, f1: Frame, f2: Frame) {
    f1.domain == f2.domain && (detect ==> f1.seen == f2.seen)
  }

  lemma {:induction false} ShiftCheck(w: World, detect: bool,
      raw1: string, path1: seq<string>, depth1: int, seen1: set<string>, l1: int,
      raw2: string, path2: seq<string>, depth2: int, seen2: set<string>, l2: int)
    requires NormalDomain(raw1) == NormalDomain(raw2)
    requires detect ==> seen1 == seen2
    requires l1 <= l2 && depth1 <= l1 && depth1 <= DEPTH_LIMIT && depth2 <= l2
    ensures Shifted(CheckDomain(w, detect, raw1, path1, depth1, seen1, l1), l1,
                    CheckDomain(w, detect, raw2, path2, depth2, seen2, l2), l2)
    decreases Left(l2), 4
  {
    hide EvaluateRecord;
    hide NormalDomain;
    var domain := NormalDomain(raw1);
    ShiftRecord(w, detect,
      Frame(domain, path1 + [domain], depth1, seen1 + {domain}), l1,
      Frame(domain, path2 + [domain], depth2, seen2 + {domain}), l2);
  }

  lemma {:induction false} ShiftRecord(w: World, detect: bool, f1: Frame, l1: int, f2: Frame, l2: int)
    requires SameRecord(detect, f1, f2)
    requires l1 <= l2 && f1.depth <= l1 && f2.depth <= l2
    ensures Shifted(EvaluateRecord(w, detect, f1, l1), l1, EvaluateRecord(w, detect, f2, l2), l2)
    decreases Left(l2), 3
  {
    hide CheckDomain;
    hide ScanTerms;
    hide NormalDomain;
    if w.published(f1.domain).Policy? {
      var terms := w.published(f1.domain).terms;
      ShiftScan(w, detect, f1, l1, f2, l2, terms, "");
      var s1 := ScanTerms(w, detect, f1, terms, "", l1);
      var s2 := ScanTerms(w, detect, f2, terms, "", l2);
      if s2.Undecided? && s2.redirect != "" && s2.lookups < LOOKUP_BUDGET {
        ShiftCheck(w, detect, s1.redirect, f1.path, f1.depth + 1, f1.seen, s1.lookups + 1,
                   s2.redirect, f2.path, f2.depth + 1, f2.seen, s2.lookups + 1);
      }
    }
  }

  predicate ShiftedScan(s1: Scan, l1: int, s2: Scan, l2: int) {
    || (s2.Decided? && s2.code == PermError)
    || (&& s2.lookups - l2 == s1.lookups - l1
        && s1.Decided? == s2.Decided?
        && (s1.Decided? ==> s1.code == s2.code && s1.detail == s2.detail)
        && (s1.Undecided? ==> s1.redirect == s2.redirect))
  }

  lemma {:induction false} ShiftScan(w: World, detect: bool, f1: Frame, l1: int, f2: Frame, l2: int,
      terms: seq<Term>, redirect: string)
    requires SameRecord(detect, f1, f2)
    requires l1 <= l2 && f1.depth <= l1 && f2.depth <= l2
    ensures ShiftedScan(ScanTerms(w, detect, f1, terms, redirect, l1), l1,
                        ScanTerms(w, detect, f2, terms, redirect, l2), l2)
    decreases Left(l2), 1, |terms|
  {
    hide CheckDomain;
    hide MatchMechanism;
    if |terms| > 0 {
      match terms[0]
      case Redirect(target) => ShiftScan(w, detect, f1, l1, f2, l2, terms[1..], target);
      case Ignored => ShiftScan(w, detect, f1, l1, f2, l2, terms[1..], redirect);
      case Directive(code, mech, name) =>
        ShiftMatch(w, detect, f1, l1, f2, l2, mech);
        var m1 := MatchMechanism(w, detect, f1, mech, l1);
        var m2 := MatchMechanism(w, detect, f2, mech, l2);
        if m2.answer == No {
          ShiftScan(w, detect, f1, m1.lookups, f2, m2.lookups, terms[1..], redirect);
        }
    }
  }

  lemma {:induction false} ShiftMatch(w: World, detect: bool, f1: Frame, l1: int, f2: Frame, l2: int, mech: Mechanism)
    requires SameRecord(detect, f1, f2)
    requires l1 <= l2 && f1.depth <= l1 && f2.depth <= l2
    ensures var m1 := MatchMechanism(w, detect, f1, mech, l1); var m2 := MatchMechanism(w, detect, f2, mech, l2);
      m2.answer == Error(PermError) || (m2.answer == m1.answer && m2.lookups - l2 == m1.lookups - l1)
    decreases Left(l2), 0
  {
    hide CheckDomain;
    hide NormalDomain;
    if mech.Include? && mech.target != "" && l2 < LOOKUP_BUDGET {
      ShiftCheck(w, detect, mech.target, f1.path, f1.depth + 1, f1.seen, l1 + 1,
                 mech.target, f2.path, f2.depth + 1, f2.seen, l2 + 1);
    }
  }

  /** Starting with k more lookups already spent gives the same outcome for the
      same number of further lookups, or permerror, and no other verdict. */
  lemma {:induction false} BudgetShift(w: World, raw: string, spent: nat, more: nat)
    ensures var v1 := CheckDomain(w, true, raw, [], 0, {}, spent);
      var v2 := CheckDomain(w, true, raw, [], 0, {}, spent + more);
      v2.code == PermError || (v2.code == v1.code && v2.detail == v1.detail && v2.lookups == v1.lookups + more)
  {
    hide CheckDomain;
    hide NormalDomain;
    ShiftCheck(w, true, raw, [], 0, {}, spent, raw, [], 0, {}, spent + more);
  }

  // ----- loop detection never changes a verdict -------------------------------

  /** The arguments of a domain check in progress. */
  datatype Start = Start(raw: string, path: seq<string>, depth: int, seen: set<string>, lookups: int)

  function Unchecked(w: World, s: Start): Verdict {
    CheckDomain(w, false, s.raw, s.path, s.depth, s.seen, s.lookups)
  }

  /** For every domain in seen, the check in progress for it: it began earlier,
      and without loop detection it ends no earlier than the counter given. */
  ghost predicate InProgress(w: World, seen: set<string>, starts: map<string, Start>, now: int, end: int) {
    && starts.Keys == seen
    && forall d :: d in starts ==>
         && NormalDomain(starts[d].raw) == d
         && starts[d].depth <= starts[d].lookups < now
         && Unchecked(w, starts[d]).lookups >= end
  }

  /** A domain check that contains a second check of the same domain ends in
      permerror there: otherwise the two would need the same number of lookups. */
  lemma {:induction false} ReentryIsPermError(w: World, outer: Start, inner: Start)
    requires NormalDomain(outer.raw) == NormalDomain(inner.raw)
    requires outer.depth <= outer.lookups < inner.lookups <= LOOKUP_BUDGET && inner.depth <= inner.lookups
    requires Unchecked(w, outer).lookups >= Unchecked(w, inner).lookups
    ensures Unchecked(w, inner).code == PermError
  {
    hide CheckDomain;
    hide NormalDomain;
    ShiftCheck(w, false, outer.raw, outer.path, outer.depth, outer.seen, outer.lookups,
               inner.raw, inner.path, inner.depth, inner.seen, inner.lookups);
  }

  lemma {:induction false} SameCheck(w: World, raw: string, path: seq<string>, depth: int, seen: set<string>,
      lookups: int,
      starts: map<string, Start>)
    requires depth <= lookups <= LOOKUP_BUDGET
    requires InProgress(w, seen, starts, lookups, CheckDomain(w, false, raw, path, depth, seen, lookups).lookups)
    ensures var v := CheckDomain(w, true, raw, path, depth, seen, lookups);
      var u := CheckDomain(w, false, raw, path, depth, seen, lookups);
      v.code == u.code && (v.code != PermError ==> v.lookups == u.lookups)
    decreases Left(lookups), 4
  {
    hide EvaluateRecord;
    hide NormalDomain;
    var domain := NormalDomain(raw);
    var start := Start(raw, path, depth, seen, lookups);
    var u := Unchecked(w, start);
    if domain in seen {
      ReentryIsPermError(w, starts[domain], start);
    } else if domain != "" {
      var f := Frame(domain, path + [domain], depth, seen + {domain});
      SameRecordVerdict(w, f, lookups, starts[domain := start], u.lookups);
    }
  }

  lemma {:induction false} SameRecordVerdict(w: World, f: Frame, lookups: int, starts: map<string, Start>, end: int)
    requires f.depth <= lookups <= LOOKUP_BUDGET
    requires EvaluateRecord(w, false, f, lookups).lookups <= end
    requires InProgress(w, f.seen, starts, lookups + 1, end)
    ensures var v := EvaluateRecord(w, true, f, lookups); var u := EvaluateRecord(w, false, f, lookups);
      v.code == u.code && (v.code != PermError ==> v.lookups == u.lookups)
    decreases Left(lookups), 3
  {
    hide CheckDomain;
    hide ScanTerms;
    hide NormalDomain;
    if w.published(f.domain).Policy? {
      var terms := w.published(f.domain).terms;
      var s := ScanTerms(w, false, f, terms, "", lookups);
      SameScan(w, f, terms, "", lookups, starts, end);
      if s.Undecided? && s.redirect != "" && s.lookups < LOOKUP_BUDGET {
        SameCheck(w, s.redirect, f.path, f.depth + 1, f.seen, s.lookups + 1, starts);
      }
    }
  }

  lemma {:induction false} SameScan(w: World, f: Frame, terms: seq<Term>, redirect: string, lookups: int,
      starts: map<string, Start>, end: int)
    requires f.depth <= lookups <= LOOKUP_BUDGET
    requires ScanTerms(w, false, f, terms, redirect, lookups).lookups <= end
    requires InProgress(w, f.seen, starts, lookups + 1, end)
    ensures var v := ScanTerms(w, true, f, terms, redirect, lookups);
      var u := ScanTerms(w, false, f, terms, redirect, lookups);
      && v.Decided? == u.Decided?
      && (v.Decided? ==> v.code == u.code)
      && (v.Undecided? ==> v.redirect == u.redirect)
      && (v.Undecided? || v.code != PermError ==> v.lookups == u.lookups)
    decreases Left(lookups), 1, |terms|
  {
    hide MatchMechanism;
    hide NormalDomain;
    if |terms| > 0 {
      match terms[0]
      case Redirect(target) => SameScan(w, f, terms[1..], target, lookups, starts, end);
      case Ignored => SameScan(w, f, terms[1..], redirect, lookups, starts, end);
      case Directive(code, mech, name) =>
        var m := MatchMechanism(w, false, f, mech, lookups);
        SameMatch(w, f, mech, lookups, starts, end);
        if m.answer == No {
          SameScan(w, f, terms[1..], redirect, m.lookups, starts, end);
        }
    }
  }

  lemma {:induction false} SameMatch(w: World, f: Frame, mech: Mechanism, lookups: int, starts: map<string, Start>,
      end: int)
    requires f.depth <= lookups <= LOOKUP_BUDGET
    requires MatchMechanism(w, false, f, mech, lookups).lookups <= end
    requires InProgress(w, f.seen, starts, lookups + 1, end)
    ensures var v := MatchMechanism(w, true, f, mech, lookups); var u := MatchMechanism(w, false, f, mech, lookups);
      v.answer == u.answer && (v.answer != Error(PermError) ==> v.lookups == u.lookups)
    decreases Left(lookups), 0
  {
    hide CheckDomain;
    hide NormalDomain;
    if mech.Include? && mech.target != "" && lookups < LOOKUP_BUDGET {
      SameCheck(w, mech.target, f.path, f.depth + 1, f.seen, lookups + 1, starts);
    }
  }

  /** With and without the check for domains in progress, an evaluation from the
      top returns the same code. */
  lemma {:induction false} LoopDetectionKeepsVerdict(w: World, raw: string)
    ensures CheckDomain(w, true, raw, [], 0, {}, 0).code == CheckDomain(w, false, raw, [], 0, {}, 0).code
  {
    hide CheckDomain;
    SameCheck(w, raw, [], 0, {}, 0, map[]);
  }
}
