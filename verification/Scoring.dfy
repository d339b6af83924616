/** The overall score of a report, and re-checks that can only confirm that a DNS
    record exists. Scores and deltas are exact numbers. */
module Scoring {

  /** pending marks a re-check that could not confirm the finding itself. */
  datatype CheckResult = CheckResult(id: string, status: string, delta: real, pending: bool)

  datatype Importance = Critical | Important | Recommended | Optional

  function ImportanceOf(id: string): Importance {
    if id in {"spf", "dkim", "dmarc", "ptr", "rbl", "domain_blocklist", "link_blocklist",
              "link_domain_mismatch"} then Critical
    else if id in {"spf_strictness", "dkim_keylength", "dmarc_policy", "spf_alignment", "dkim_alignment",
                   "dmarc_alignment",
                   "from_alignment", "helo", "mx_records", "tls_transport", "spamassassin", "rspamd", "display_name",
                   "list_unsub", "mime_parse", "mime_ct", "mime_boundary", "message_id", "received_chain",
                   "one_click_unsub", "harmful_html"} then Important
    else if id in {"mta_sts", "tls_rpt", "bimi", "dnssec", "dane_tlsa", "arc", "preheader",
                   "x_google_dkim"} then Optional
    else Recommended
  }

  function ScoreFor(i: Importance, status: string): real {
    if status == "fail" then
      match i case Critical => -2.6 case Important => -1.3 case Optional => 0.0 case Recommended => -0.5
    else if status == "warn" then
      match i case Critical => -1.3 case Important => -0.6 case Optional => 0.0 case Recommended => -0.25
    else 0.0
  }

  predicate KeepsOwnDelta(id: string) {
    id in {"domain_age", "rbl", "spamassassin", "rspamd", "spf_strictness"}
  }

  /** Scoring of a finding by importance and status, with the exceptions. */
  function Enriched(c: CheckResult): CheckResult {
    if c.status == "na" then c.(delta := 0.0)
    else if c.pending || KeepsOwnDelta(c.id) then c
    else c.(delta := ScoreFor(ImportanceOf(c.id), c.status))
  }

  // ----- the score -----------------------------------------------------------------

  const ESSENTIAL_CAP: real := 9.5

  predicate Essential(id: string) {
    id == "spf" || id == "dkim" || id == "dmarc" || id == "ptr"
  }

  predicate EssentialsAllPass(checks: seq<CheckResult>) {
    forall i :: 0 <= i < |checks| && Essential(checks[i].id) ==> checks[i].status == "pass"
  }

  /** Limited to 0 to 10 and rounded to one decimal. */
  function ClampScore(s: real): real {
    if s < 0.0 then 0.0 else if s > 10.0 then 10.0 else (s * 10.0 + 0.5).Floor as real / 10.0
  }

  function Total(checks: seq<CheckResult>): real {
    if |checks| == 0 then 10.0 else Total(checks[..|checks| - 1]) + checks[|checks| - 1].delta
  }

  function Score(checks: seq<CheckResult>): real {
    var s := ClampScore(Total(checks));
    if s > ESSENTIAL_CAP && !EssentialsAllPass(checks) then ESSENTIAL_CAP else s
  }

  method ComputeScore(checks: seq<CheckResult>) returns (score: real)
    ensures score == Score(checks)
    ensures 0.0 <= score <= 10.0
    ensures (exists c :: c in checks && c.id in {"spf", "dkim", "dmarc", "ptr"} && c.status != "pass") ==> score <= 9.5
  {
    score := 10.0;
    for i := 0 to |checks|
      invariant score == Total(checks[..i])
    {
      assert checks[..i + 1][..i] == checks[..i];
      score := score + checks[i].delta;
    }
    assert checks[..|checks|] == checks;
    score := ClampScore(score);
    if score > ESSENTIAL_CAP {
      var pass := CheckEssentials(checks);
      if !pass {
        score := ESSENTIAL_CAP;
      }
    }
    ScoreInRange(checks);
  }

  method CheckEssentials(checks: seq<CheckResult>) returns (pass: bool)
    ensures pass == EssentialsAllPass(checks)
  {
    for i := 0 to |checks|
      invariant forall k :: 0 <= k < i && Essential(checks[k].id) ==> checks[k].status == "pass"
    {
      if Essential(checks[i].id) && checks[i].status != "pass" {
        return false;
      }
    }
    return true;
  }

  lemma {:induction false} ScoreInRange(checks: seq<CheckResult>)
    ensures 0.0 <= Score(checks) <= 10.0
    ensures !EssentialsAllPass(checks) ==> Score(checks) <= 9.5
  {
    var s := Total(checks);
    if 0.0 <= s <= 10.0 {
      assert 0 <= (s * 10.0 + 0.5).Floor <= 100;
    }
  }

  /** The cap applies exactly to reports above it in which SPF, DKIM, DMARC or PTR is
      present and not a pass; every other score is the rounded total. */
  lemma {:induction false} CapIsExact(checks: seq<CheckResult>)
    ensures var s := ClampScore(Total(checks));
      if s > 9.5 && (exists c :: c in checks && c.id in {"spf", "dkim", "dmarc", "ptr"} && c.status != "pass")
      then Score(checks) == 9.5 else Score(checks) == s
  {
    hide Total;
    hide ClampScore;
  }

  /** Rounding moves a score within the range by at most half a tenth, to a tenth. */
  lemma {:induction false} RoundingIsClose(s: real)
    requires 0.0 <= s <= 10.0
    ensures var r := ClampScore(s); -0.05 < r - s <= 0.05 && (r * 10.0).Floor as real == r * 10.0
  {
    var n := (s * 10.0 + 0.5).Floor;
    assert n as real <= s * 10.0 + 0.5 < n as real + 1.0;
    assert ClampScore(s) * 10.0 == n as real;
  }

  /** What a fresh finding costs, whatever delta it came with: by the importance of
      its check and its status alone, except for the checks that weigh themselves. */
  lemma {:induction false} FreshFindingCosts(id: string, status: string, delta: real)
    ensures var cost := -Enriched(CheckResult(id, status, delta, false)).delta;
      if status == "na" then cost == 0.0
      else if id in {"domain_age", "rbl", "spamassassin", "rspamd", "spf_strictness"} then cost == -delta
      else if id in {"spf", "dkim", "dmarc", "ptr", "domain_blocklist", "link_blocklist", "link_domain_mismatch"} then
        cost == (if status == "fail" then 2.6 else if status == "warn" then 1.3 else 0.0)
      else if id in {"dkim_keylength", "dmarc_policy", "spf_alignment", "dkim_alignment", "dmarc_alignment",
                     "from_alignment", "helo", "mx_records", "tls_transport", "display_name", "list_unsub",
                     "mime_parse", "mime_ct", "mime_boundary", "message_id", "received_chain", "one_click_unsub",
                     "harmful_html"} then
        cost == (if status == "fail" then 1.3 else if status == "warn" then 0.6 else 0.0)
      else if id in {"mta_sts", "tls_rpt", "bimi", "dnssec", "dane_tlsa", "arc", "preheader", "x_google_dkim"} then
        cost == 0.0
      else cost == (if status == "fail" then 0.5 else if status == "warn" then 0.25 else 0.0)
  {
    assert "fail"[0] == 'f' && "warn"[0] == 'w' && "na"[0] == 'n';
  }

  lemma {:induction false} ClampMonotone(a: real, b: real)
    requires a <= b
    ensures ClampScore(a) <= ClampScore(b)
  {
    if 0.0 <= a && b <= 10.0 {
      assert (a * 10.0 + 0.5).Floor <= (b * 10.0 + 0.5).Floor;
    } else if 0.0 <= b <= 10.0 {
      assert (b * 10.0 + 0.5).Floor >= 0;
    } else if 0.0 <= a <= 10.0 {
      assert (a * 10.0 + 0.5).Floor <= 100;
    }
  }

  lemma {:induction false} TotalMonotone(a: seq<CheckResult>, b: seq<CheckResult>)
    requires |a| == |b| && forall i :: 0 <= i < |a| ==> a[i].delta <= b[i].delta
    ensures Total(a) <= Total(b)
  {
    if a != [] {
      TotalMonotone(a[..|a| - 1], b[..|b| - 1]);
    }
  }

  /** Larger deltas give no lower score, unless an essential check is lost. */
  lemma {:induction false} ScoreMonotone(a: seq<CheckResult>, b: seq<CheckResult>)
    requires |a| == |b| && forall i :: 0 <= i < |a| ==> a[i].delta <= b[i].delta
    requires EssentialsAllPass(a) ==> EssentialsAllPass(b)
    ensures Score(a) <= Score(b)
  {
    hide ClampScore;
    hide Total;
    TotalMonotone(a, b);
    ClampMonotone(Total(a), Total(b));
  }

  // ----- re-checks ---------------------------------------------------------------------

  function PendingDelta(id: string, prevStatus: string, prevDelta: real): real {
    if prevStatus == "" then ScoreFor(ImportanceOf(id), "warn") else prevDelta
  }

  function RecheckUnconfirmed(id: string, prevStatus: string, prevDelta: real): CheckResult {
    var delta := PendingDelta(id, prevStatus, prevDelta);
    CheckResult(id, if delta < 0.0 then "warn" else "info", delta, true)
  }

  predicate Recheckable(c: CheckResult) {
    (c.id == "spf" || c.id == "dmarc") && c.status != ""
  }

  /** The finding after a re-check that found a record, given what it replaces. */
  function Rechecked(c: CheckResult): CheckResult {
    Enriched(RecheckUnconfirmed(c.id, c.status, c.delta))
  }

  /** Re-check of the finding at position i of a report. */
  function RecheckAt(checks: seq<CheckResult>, i: nat): seq<CheckResult>
    requires i < |checks|
  {
    if Recheckable(checks[i]) then checks[i := Rechecked(checks[i])] else checks
  }

  function RecheckAll(checks: seq<CheckResult>, order: seq<nat>): (r: seq<CheckResult>)
    requires forall k :: 0 <= k < |order| ==> order[k] < |checks|
    decreases |order|
  {
    if |order| == 0 then checks else RecheckAll(RecheckAt(checks, order[0]), order[1..])
  }

  /** A re-check keeps the delta, never reports pass, and done twice is done once. */
  lemma {:induction false} RecheckKeepsDelta(c: CheckResult)
    requires Recheckable(c)
    ensures var r := Rechecked(c);
      && r.id == c.id && r.delta == c.delta && r.status == (if c.delta < 0.0 then "warn" else "info")
      && r.status != "pass" && Recheckable(r) && Rechecked(r) == r
  {
    assert "warn"[0] == 'w' && "info"[0] == 'i' && "pass"[0] == 'p' && "na"[0] == 'n';
    hide ImportanceOf;
    hide KeepsOwnDelta;
  }

  lemma {:induction false} RecheckAtLowers(checks: seq<CheckResult>, i: nat)
    requires i < |checks|
    ensures Score(RecheckAt(checks, i)) <= Score(checks)
  {
    hide Score;
    hide Rechecked;
    if Recheckable(checks[i]) {
      RecheckKeepsDelta(checks[i]);
      var after := checks[i := Rechecked(checks[i])];
      assert after[i].status != "pass" && Essential(after[i].id);
      ScoreMonotone(after, checks);
    }
  }

  /** No sequence of such re-checks raises the score. */
  lemma {:induction false} RechecksNeverRaise(checks: seq<CheckResult>, order: seq<nat>)
    requires forall k :: 0 <= k < |order| ==> order[k] < |checks|
    ensures Score(RecheckAll(checks, order)) <= Score(checks)
    decreases |order|
  {
    hide Score;
    hide Rechecked;
    if order != [] {
      RecheckAtLowers(checks, order[0]);
      RechecksNeverRaise(RecheckAt(checks, order[0]), order[1..]);
    }
  }

  /** A re-check of a position that was re-checked before changes nothing. */
  lemma {:induction false} SecondRecheckIsVoid(checks: seq<CheckResult>, order: seq<nat>, i: nat)
    requires i < |checks| && i in order && forall k :: 0 <= k < |order| ==> order[k] < |checks|
    ensures |RecheckAll(checks, order)| == |checks|
    ensures RecheckAt(RecheckAll(checks, order), i) == RecheckAll(checks, order)
    decreases |order|
  {
    hide Rechecked;
    var next := RecheckAt(checks, order[0]);
    if Recheckable(checks[order[0]]) {
      RecheckKeepsDelta(checks[order[0]]);
    }
    StaysSettled(next, order[1..], order[0]);
    if i != order[0] {
      assert i in order[1..];
      SecondRecheckIsVoid(next, order[1..], i);
    }
  }

  predicate Settled(c: CheckResult) {
    Recheckable(c) ==> Rechecked(c) == c
  }

  lemma {:induction false} StaysSettled(checks: seq<CheckResult>, order: seq<nat>, i: nat)
    requires i < |checks| && forall k :: 0 <= k < |order| ==> order[k] < |checks|
    requires Settled(checks[i])
    ensures |RecheckAll(checks, order)| == |checks| && Settled(RecheckAll(checks, order)[i])
    decreases |order|
  {
    hide Rechecked;
    if order != [] {
      StaysSettled(RecheckAt(checks, order[0]), order[1..], i);
    }
  }

  /** After one pass over the positions, further re-checks of them in any order
      leave the report, and with it the score, as it is. */
  lemma {:induction false} OnePassIsEnough(checks: seq<CheckResult>, order: seq<nat>, more: seq<nat>)
    requires forall k :: 0 <= k < |order| ==> order[k] < |checks|
    requires forall k :: 0 <= k < |more| ==> more[k] in order
    ensures |RecheckAll(checks, order)| == |checks|
    ensures RecheckAll(RecheckAll(checks, order), more) == RecheckAll(checks, order)
    decreases |more|
  {
    hide Rechecked;
    if more == [] {
      if order != [] {
        SecondRecheckIsVoid(checks, order, order[0]);
      }
    } else {
      SecondRecheckIsVoid(checks, order, more[0]);
      OnePassIsEnough(checks, order, more[1..]);
    }
  }

  // ----- re-checks without the status they replace ---------------------------------------

  /** The finding after a re-check that is not told what it replaces. */
  function RecheckedBlind(c: CheckResult): CheckResult {
    Enriched(RecheckUnconfirmed(c.id, "", c.delta))
  }

  lemma {:induction false} BlindIs(c: CheckResult)
    requires Recheckable(c)
    ensures RecheckedBlind(c) == CheckResult(c.id, "warn", -1.3, true)
  {
    assert "warn"[0] == 'w' && "fail"[0] == 'f' && "na"[0] == 'n';
    assert ImportanceOf("spf") == Critical && ImportanceOf("dmarc") == Critical;
  }

  lemma {:induction false} TotalCons(c: CheckResult, rest: seq<CheckResult>)
    ensures Total([c] + rest) == Total(rest) + c.delta
  {
    if rest == [] {
      assert [c] + rest == [c] && [c][..0] == [];
    } else {
      var n := |rest| - 1;
      assert ([c] + rest)[..n + 1] == [c] + rest[..n];
      TotalCons(c, rest[..n]);
    }
  }

  /** A report that such a re-check raises: one more finding, of a check that keeps
      its own delta, brings the total to the middle of a rounding step. */
  lemma {:induction false} BlindRaises(c: CheckResult, rest: seq<CheckResult>)
    requires Recheckable(c) && c.delta < -1.3
    requires rest == [CheckResult("rspamd", "fail", -8.65, false)]
    ensures Enriched(rest[0]) == rest[0]
    ensures Score([RecheckedBlind(c)] + rest) == 0.1 && Score([c] + rest) == 0.0
  {
    hide Total;
    BlindIs(c);
    hide RecheckedBlind;
    TotalCons(c, rest);
    TotalCons(RecheckedBlind(c), rest);
    TotalCons(rest[0], []);
    assert [rest[0]] + [] == rest;
    TotalOfNone();
    assert Total([RecheckedBlind(c)] + rest) == 0.05;
    assert Total([c] + rest) < 0.05;
  }

  lemma {:induction false} TotalOfNone()
    ensures Total([]) == 10.0
  {
  }

  /** A re-check that is not told the status it replaces keeps every report it is
      part of from scoring higher exactly when the finding had cost at most 1.3. */
  lemma {:induction false} BlindRecheckNeverRaises(c: CheckResult)
    requires Recheckable(c)
    ensures (forall rest :: Score([RecheckedBlind(c)] + rest) <= Score([c] + rest)) <==> c.delta >= -1.3
  {
    hide Score;
    hide RecheckedBlind;
    BlindIs(c);
    var r := RecheckedBlind(c);
    if c.delta < -1.3 {
      var rest := [CheckResult("rspamd", "fail", -8.65, false)];
      BlindRaises(c, rest);
      assert !(Score([r] + rest) <= Score([c] + rest));
    } else {
      forall rest
        ensures Score([r] + rest) <= Score([c] + rest)
      {
        var a, b := [r] + rest, [c] + rest;
        assert a[0] == r && Essential(r.id) && r.status != "pass";
        assert !EssentialsAllPass(a);
        ScoreMonotone(a, b);
      }
    }
  }

  /** A failed SPF check alone goes from 7.4 to 8.7. */
  lemma {:induction false} BlindRecheckCanRaise()
    ensures var c := CheckResult("spf", "fail", -2.6, false);
      Recheckable(c) && Score([c]) == 7.4 && Score([RecheckedBlind(c)]) == 8.7
  {
    hide Total;
    var c := CheckResult("spf", "fail", -2.6, false);
    BlindIs(c);
    hide RecheckedBlind;
    var r := RecheckedBlind(c);
    TotalCons(c, []);
    TotalCons(r, []);
    TotalOfNone();
    assert [c] + [] == [c] && [r] + [] == [r];
  }
}
