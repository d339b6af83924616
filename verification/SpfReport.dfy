/** The SPF result from the evaluation into the header and back to the analyzer. */
module SpfReport {
  import opened Text
  import opened ReceiverHeaders
  import opened SpfRecord
  import opened SpfModel
  import opened SpfMeaning
  import opened SpfEvaluator
  import opened SpfEvaluation
  import opened AuthResultsReading

  function CodeName(c: Code): string {
    match c
    case None => "none"
    case Neutral => "neutral"
    case Pass => "pass"
    case Fail => "fail"
    case SoftFail => "softfail"
    case TempError => "temperror"
    case PermError => "permerror"
  }

  lemma {:induction false} NamesTellCodes(a: Code, b: Code)
    ensures LowerWord(CodeName(a)) && (CodeName(a) == CodeName(b) ==> a == b)
  {
    assert CodeName(None)[1] == 'o' && CodeName(Neutral)[1] == 'e' && CodeName(Fail)[0] == 'f';
    assert CodeName(SoftFail)[0] == 's' && CodeName(TempError)[0] == 't' && CodeName(PermError)[1] == 'e';
    assert CodeName(Pass)[1] == 'a' && CodeName(None)[0] == 'n' && CodeName(Neutral)[0] == 'n';
    assert CodeName(Pass)[0] == 'p' && CodeName(PermError)[0] == 'p';
  }

  /** The word read stands for the code. */
  predicate ReadsAs(read: string, c: Code) {
    && (read == "pass" <==> c == Pass) && (read == "fail" <==> c == Fail) && (read == "softfail" <==> c == SoftFail)
    && (read == "neutral" <==> c == Neutral) && (read == "none" <==> c == None)
    && (read == "temperror" <==> c == TempError) && (read == "permerror" <==> c == PermError)
  }

  lemma {:induction false} NameReads(c: Code)
    ensures ReadsAs(CodeName(c), c)
  {
    NamesTellCodes(c, Pass);
    NamesTellCodes(c, Fail);
    NamesTellCodes(c, SoftFail);
    NamesTellCodes(c, Neutral);
    NamesTellCodes(c, None);
    NamesTellCodes(c, TempError);
    NamesTellCodes(c, PermError);
    hide LowerWord;
  }

  /** The code a delivery deserves: none without a domain or an address, otherwise
      what the domain means within the lookup budget. */
  function Deserved(dns: Dns, hasAddress: bool, domain: string): Code {
    if domain == "" || !hasAddress then None else Bounded(DomainMeaning(WorldOf(dns), domain, LOOKUP_BUDGET + 1))
  }

  /** The value of the Authentication-Results header written for a delivery: for the
      key spf the analyzer reads the name of the code the delivery deserves, unless
      the host name itself tells a result, whatever headers follow. */
  method RecordSpf(dns: Dns, hasAddress: bool, helo: string, envelopeFrom: string, d: string, other: AuthResults)
    returns (value: string)
    requires LowerWord(other.dkim) && LowerWord(other.dmarc)
    ensures forall others ::
      ParseAuthResult(Joined([value] + others), "spf")
      == FirstOf(ToldByHost(d, "spf"), CodeName(Deserved(dns, hasAddress, SenderDomain(helo, envelopeFrom))))
    ensures '=' !in EmptyFallback(d, DEFAULT_HOST) ==>
      forall others ::
        var read := ParseAuthResult(Joined([value] + others), "spf");
        ReadsAs(read, Deserved(dns, hasAddress, SenderDomain(helo, envelopeFrom)))
  {
    hide *;
    var code, domain, detail := EvaluateSpf(dns, hasAddress, helo, envelopeFrom);
    var res := other.(spf := CodeName(code), spfDomain := domain, spfDetail := detail);
    value := EmptyFallback(d, DEFAULT_HOST) + ";" + ResultTags(res);
    NamesTellCodes(code, code);
    IsDeserved(dns, hasAddress, domain, code);
    ForSpf(d, res);
    NameReads(code);
    if '=' !in EmptyFallback(d, DEFAULT_HOST) {
      HostTellsNothing(d, "spf");
      FirstIsEmpty(CodeName(code));
    }
    forall others
      ensures ParseAuthResult(Joined([value] + others), "spf") == FirstOf(ToldByHost(d, "spf"), CodeName(code))
    {
      OwnResultsAreRead(d, res, others, "spf");
    }
  }

  lemma {:induction false} IsDeserved(dns: Dns, hasAddress: bool, domain: string, code: Code)
    requires domain == "" || !hasAddress ==> code == None
    requires domain != "" && hasAddress ==>
      forall height: nat :: height > LOOKUP_BUDGET ==> code == Bounded(DomainMeaning(WorldOf(dns), domain, height))
    ensures code == Deserved(dns, hasAddress, domain)
  {
    hide DomainMeaning;
  }

  lemma {:induction false} ForSpf(d: string, res: AuthResults)
    requires LowerWord(res.spf) && LowerWord(res.dkim) && LowerWord(res.dmarc)
    ensures PlainResults(res) && ToldBefore(d, res, "spf") == ToldByHost(d, "spf") && ResultFor(res, "spf") == res.spf
    ensures OwnValue(d, res) == EmptyFallback(d, DEFAULT_HOST) + ";" + ResultTags(res)
  {
    hide ResultTags;
    hide EmptyFallback;
    hide ToldByHost;
    hide LowerWord;
  }
}
