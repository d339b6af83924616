/** SPF for one delivery: which domain is evaluated, and what comes out. */
module SpfEvaluation {
  import opened Text
  import opened TextLemmas
  import opened SpfRecord
  import opened SpfModel
  import opened SpfMeaning
  import opened SpfEvaluator

  function TrimAngles(s: string): string
    decreases |s|
  {
    if s != "" && s[0] in "<>" then TrimAngles(s[1..])
    else if s != "" && s[|s| - 1] in "<>" then TrimAngles(s[..|s| - 1])
    else s
  }

  function ExtractDomain(v: string): string {
    var s := Trim(TrimAngles(v));
    var at := LastIndexOf(s, '@');
    if s == "" || at < 0 || at + 1 >= |s| then "" else Lower(Trim(s[at + 1..]))
  }

  function SenderDomain(helo: string, envelopeFrom: string): string {
    var domain := ExtractDomain(envelopeFrom);
    if domain == "" then Lower(Trim(helo)) else domain
  }

  /** The code is that of the sender domain's meaning under the lookup budget;
      the detail names the domain and the term that decided. */
  method EvaluateSpf(dns: Dns, hasAddress: bool, helo: string, envelopeFrom: string)
    returns (code: Code, domain: string, detail: string)
    ensures domain == SenderDomain(helo, envelopeFrom)
    ensures domain == "" || !hasAddress ==> code == None && detail == "missing sender domain or remote ip"
    ensures domain != "" && hasAddress ==>
      forall height: nat :: height > LOOKUP_BUDGET ==> code == Bounded(DomainMeaning(WorldOf(dns), domain, height))
    ensures domain != "" && hasAddress ==>
      var v := SpfModel.CheckDomain(WorldOf(dns), true, domain, [], 0, {}, 0);
      detail == "domain=" + domain + " mechanism=" + (if Trim(v.detail) == "" then "none" else v.detail)
  {
    hide SpfModel.CheckDomain;
    hide DomainMeaning;
    hide ExtractDomain;
    hide Trim;
    domain := ExtractDomain(envelopeFrom);
    if domain == "" {
      domain := Lower(Trim(helo));
    }
    if domain == "" || !hasAddress {
      return None, domain, "missing sender domain or remote ip";
    }
    var e := new Evaluator(dns);
    var matchedBy;
    code, matchedBy := e.CheckDomain(domain, 0, []);
    forall height: nat | height > LOOKUP_BUDGET
      ensures code == Bounded(DomainMeaning(WorldOf(dns), domain, height))
    {
      EvaluatorReturnsMeaning(WorldOf(dns), domain, height);
    }
    detail := "domain=" + domain + " mechanism=" + (if Trim(matchedBy) == "" then "none" else matchedBy);
  }

  lemma {:induction false} AnglesGo(x: string)
    requires x != "" && '<' !in x && '>' !in x
    ensures TrimAngles("<" + (x + ">")) == x && TrimAngles(x) == x
  {
    var t := x + ">";
    assert x[0] in x && x[|x| - 1] in x && t[0] == x[0] && t[..|t| - 1] == x && ("<" + t)[1..] == t;
    assert TrimAngles(x) == x;
    assert TrimAngles(t) == x;
  }

  lemma {:induction false} LastAt(local: string, d: string)
    requires '@' !in d
    ensures LastIndexOf(local + "@" + d, '@') == |local|
  {
    hide LastIndexOf;
    var x := local + "@" + d;
    var i := LastIndexOf(x, '@');
    assert x[|local|] == '@' && i >= 0;
    assert forall k :: |local| < k < |x| ==> x[k] == d[k - |local| - 1];
    var tail := x[i + 1..];
    assert forall k :: i < k < |x| ==> tail[k - i - 1] == x[k];
  }

  /** The sender domain is what stands behind the last at sign of the envelope
      sender, with or without angle brackets, in lower case; without one it is the
      greeting. */
  lemma {:induction false} SenderDomainIs(helo: string, local: string, d: string)
    requires Solid(local) && d != "" && Solid(d) && '@' !in d && '<' !in local + d && '>' !in local + d
    ensures SenderDomain(helo, "<" + (local + "@" + d + ">")) == Lower(d)
    ensures SenderDomain(helo, local + "@" + d) == Lower(d)
    ensures Solid(helo) ==> SenderDomain(helo, "") == Lower(helo) && SenderDomain(helo, "<>") == Lower(helo)
  {
    NoSender();
    var x := local + "@" + d;
    assert forall c :: c in x ==> c in local + d || c == '@';
    AnglesGo(x);
    AtIsSolid();
    hide TrimAngles;
    hide Trim;
    hide LastIndexOf;
    hide IsSpace;
    SolidAppend(local, "@");
    SolidAppend(local + "@", d);
    TrimSolid(x);
    TrimSolid(d);
    LastAt(local, d);
    assert x[|local| + 1..] == d;
    LowerNotEmpty(d);
    hide Lower;
    if Solid(helo) {
      TrimSolid(helo);
    }
  }

  lemma {:induction false} LowerNotEmpty(d: string)
    requires d != ""
    ensures Lower(d) != ""
  {
  }

  lemma {:induction false} AtIsSolid()
    ensures Solid("@")
  {
  }

  lemma {:induction false} NoSender()
    ensures ExtractDomain("") == "" && ExtractDomain("<>") == ""
  {
    assert "<>"[1..] == ">" && ">"[1..] == "";
    assert TrimAngles("") == "" && TrimAngles(">") == "" && TrimAngles("<>") == "";
  }
}
