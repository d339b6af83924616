/** The terms of a record are evaluated left to right and the first one that
    matches or errs decides (section 4.6.2 of RFC 7208). */
module SpfFirstMatch {
  import opened SpfRecord
  import opened SpfModel

  /** Evaluation of the terms before position i. */
  function Before(w: World, f: Frame, terms: seq<Term>, i: nat, lookups: int): Scan
    requires i <= |terms|
  {
    ScanTerms(w, true, f, terms[..i], "", lookups)
  }

  /** No earlier term decides, and the mechanism at i matches or errs. */
  predicate DecidesAt(w: World, f: Frame, terms: seq<Term>, i: nat, lookups: int) {
    && i < |terms|
    && Before(w, f, terms, i, lookups).Undecided?
    && terms[i].Directive?
    && MatchMechanism(w, true, f, terms[i].mechanism, Before(w, f, terms, i, lookups).lookups).answer != No
  }

  /** Target of the last redirect= among the terms. */
  function LastRedirect(terms: seq<Term>, redirect: string): string {
    if |terms| == 0 then redirect
    else LastRedirect(terms[1..], if terms[0].Redirect? then terms[0].target else redirect)
  }

  lemma {:induction false} ScanSplits(w: World, f: Frame, a: seq<Term>, b: seq<Term>, redirect: string, lookups: int)
    ensures var s := ScanTerms(w, true, f, a, redirect, lookups);
      ScanTerms(w, true, f, a + b, redirect, lookups)
      == if s.Decided? then s
         else var t := ScanTerms(w, true, f, b, s.redirect, s.lookups); t.(visits := s.visits + t.visits)
    decreases |a|
  {
    hide MatchMechanism;
    if |a| == 0 {
      assert a + b == b;
    } else {
      assert (a + b)[1..] == a[1..] + b;
      match a[0]
      case Redirect(target) => ScanSplits(w, f, a[1..], b, target, lookups);
      case Ignored => ScanSplits(w, f, a[1..], b, redirect, lookups);
      case Directive(code, mech, name) =>
        var m := MatchMechanism(w, true, f, mech, lookups);
        if m.answer == No {
          ScanSplits(w, f, a[1..], b, redirect, m.lookups);
        }
    }
  }

  /** The deciding term gives the verdict, whatever terms come after it. */
  lemma {:induction false} DeciderDecides(w: World, f: Frame, terms: seq<Term>, i: nat, lookups: int, rest: seq<Term>)
    requires DecidesAt(w, f, terms, i, lookups)
    ensures var s := ScanTerms(w, true, f, terms[..i + 1] + rest, "", lookups);
      var m := MatchMechanism(w, true, f, terms[i].mechanism, Before(w, f, terms, i, lookups).lookups);
      && s == ScanTerms(w, true, f, terms, "", lookups)
      && s.Decided? && s.lookups == m.lookups
      && s.code == (if m.answer == Yes then terms[i].code else m.answer.code)
  {
    hide MatchMechanism;
    ScanSplits(w, f, terms[..i], [terms[i]], "", lookups);
    assert terms[..i] + [terms[i]] == terms[..i + 1];
    ScanSplits(w, f, terms[..i + 1], rest, "", lookups);
    ScanSplits(w, f, terms[..i + 1], terms[i + 1..], "", lookups);
    assert terms[..i + 1] + terms[i + 1..] == terms;
  }

  /** Position of the deciding term of a decided scan. */
  lemma {:induction false} FindDecider(w: World, f: Frame, terms: seq<Term>, i: nat, lookups: int) returns (k: nat)
    requires i <= |terms| && Before(w, f, terms, i, lookups).Undecided?
    requires ScanTerms(w, true, f, terms, "", lookups).Decided?
    ensures DecidesAt(w, f, terms, k, lookups)
    decreases |terms| - i
  {
    hide MatchMechanism;
    assert terms[..|terms|] == terms;
    assert i < |terms|;
    if DecidesAt(w, f, terms, i, lookups) {
      k := i;
    } else {
      ScanSplits(w, f, terms[..i], [terms[i]], "", lookups);
      assert terms[..i] + [terms[i]] == terms[..i + 1];
      k := FindDecider(w, f, terms, i + 1, lookups);
    }
  }

  /** A scan is decided exactly when some term decides, and then by that term. */
  lemma {:induction false} FirstMatch(w: World, f: Frame, terms: seq<Term>, lookups: int)
    ensures ScanTerms(w, true, f, terms, "", lookups).Decided? <==> exists i: nat :: DecidesAt(w, f, terms, i, lookups)
    ensures forall i: nat, k: nat :: DecidesAt(w, f, terms, i, lookups) && DecidesAt(w, f, terms, k, lookups) ==> i == k
  {
    hide MatchMechanism;
    if ScanTerms(w, true, f, terms, "", lookups).Decided? {
      var k := FindDecider(w, f, terms, 0, lookups);
    }
    forall i: nat | DecidesAt(w, f, terms, i, lookups)
      ensures ScanTerms(w, true, f, terms, "", lookups).Decided?
    {
      DeciderDecides(w, f, terms, i, lookups, []);
    }
    forall i: nat, k: nat | DecidesAt(w, f, terms, i, lookups) && DecidesAt(w, f, terms, k, lookups)
      ensures i == k
    {
      OnlyOneDecider(w, f, terms, i, k, lookups);
      OnlyOneDecider(w, f, terms, k, i, lookups);
    }
  }

  lemma {:induction false} OnlyOneDecider(w: World, f: Frame, terms: seq<Term>, i: nat, k: nat, lookups: int)
    requires DecidesAt(w, f, terms, i, lookups) && DecidesAt(w, f, terms, k, lookups)
    ensures i >= k
  {
    hide MatchMechanism;
    if i < k {
      assert terms[..i + 1] + terms[i + 1..k] == terms[..k];
      DeciderDecides(w, f, terms, i, lookups, terms[i + 1..k]);
    }
  }

  /** A redirect is followed only when no term decides, hence never when the
      record has an all; it then goes to the last target given. */
  lemma {:induction false} RedirectOnlyWhenUndecided(w: World, f: Frame, terms: seq<Term>, redirect: string,
      lookups: int)
    ensures var s := ScanTerms(w, true, f, terms, redirect, lookups);
      && (s.Undecided? ==> s.redirect == LastRedirect(terms, redirect))
      && ((exists i :: 0 <= i < |terms| && terms[i].Directive? && terms[i].mechanism.All?) ==> s.Decided?)
    decreases |terms|
  {
    hide CheckDomain;
    if |terms| > 0 {
      var next := if terms[0].Redirect? then terms[0].target else redirect;
      var n := if terms[0].Directive? then MatchMechanism(w, true, f, terms[0].mechanism, lookups).lookups else lookups;
      RedirectOnlyWhenUndecided(w, f, terms[1..], next, n);
      forall i | 0 <= i < |terms| && terms[i].Directive? && terms[i].mechanism.All?
        ensures i == 0 || (i - 1 < |terms[1..]| && terms[1..][i - 1] == terms[i])
      {
      }
    }
  }
}
