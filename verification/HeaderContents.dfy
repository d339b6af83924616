/** What the header lines of a delivery carry. */
module HeaderContents {
  import opened Text
  import opened TextLemmas
  import opened HeaderSurgery
  import opened ReceiverHeaders
  import opened OwnHeaderLemmas
  import opened HeaderRoundTrip
  import opened HeaderTls
  import opened HeaderText

  /** The block has the name and the words. */
  predicate Carries(header: string, name: string, words: seq<string>) {
    Parse(CleanHeader(header)) == Block(name, Join(words, " "))
  }

  /** A detail as it is written, none for an empty one. */
  function DetailWords(detail: string): seq<string> {
    Fields(SafeAuthValue(EmptyFallback(detail, "none")))
  }

  /** The route: from whom, by which host with which protocol, for whom and when. */
  function RouteWords(host: string, m: Mail, date: string): seq<string> {
    ["from"] + Fields(WrittenHelo(m)) + Fields(WrittenAddress(m))
    + ["by", host, "with", (if m.tls then "ESMTPS" else "ESMTP") + ";"] + FieldsOf(ForClause(m.rcptTo)) + Fields(date)
  }

  /** The SPF result with client address, sender, HELO and receiver. */
  function SpfWords(host: string, m: Mail, spf: string): seq<string> {
    Fields(SafeAuthValue(spf)) + Fields("client-ip=" + SafeAuthValue(m.remoteIP) + ";")
    + Fields("envelope-from=" + SafeAuthValue(EmptyFallback(m.mailFrom, "<>")) + ";")
    + Fields("helo=" + SafeAuthValue(EmptyFallback(m.helo, "unknown")) + ";") + ["receiver=" + host]
  }

  lemma {:induction false} DetailCarries(kind: string, detail: string)
    requires Solid(kind) && ':' !in kind
    ensures Carries(DetailHeader(kind, detail), Lower(DetailName(kind)), DetailWords(detail))
  {
    hide Trim;
    hide Parse;
    hide CleanHeader;
    hide Solid;
    hide SafeAuthValue;
    hide DetailName;
    hide Lower;
    hide Fields;
    hide Join;
    DetailNameIs(kind);
    var value := SafeAuthValue(EmptyFallback(detail, "none"));
    PlainSpfTags();
    NoBreakAppend(" ", value);
    OneLine(DetailName(kind), " " + value);
    FieldsAfterBlank(value);
  }

  /** A tag with its value and a semicolon, one blank apart from what is before it. */
  lemma {:induction false} TagApart(tag: string, v: string)
    ensures Tagged(" " + tag, v) + ";" == " " + (tag + SafeAuthValue(v) + ";")
  {
    hide SafeAuthValue;
    var w := SafeAuthValue(v);
    assert " " + tag + w + ";" == " " + (tag + w + ";");
  }

  lemma {:induction false} SpfTagNames()
    ensures " " + "client-ip=" == " client-ip=" && " " + "envelope-from=" == " envelope-from="
    ensures " " + "helo=" == " helo="
  {
  }

  lemma {:induction false} LastApart(lead: string, r: string)
    ensures lead + " " + r == lead + (" " + r)
  {
  }

  lemma {:induction false} SpfValueWords(host: string, m: Mail, spf: string)
    requires host != "" && Solid(host)
    ensures Fields(SpfTags(m, spf) + ("receiver=" + host)) == SpfWords(host, m, spf)
  {
    TailIsSolid(host);
    hide Solid;
    hide Fields;
    hide SafeAuthValue;
    hide EmptyFallback;
    var from, helo, r := EmptyFallback(m.mailFrom, "<>"), EmptyFallback(m.helo, "unknown"), "receiver=" + host;
    SpfTagNames();
    TagApart("client-ip=", m.remoteIP);
    TagApart("envelope-from=", from);
    TagApart("helo=", helo);
    var b, c := "client-ip=" + SafeAuthValue(m.remoteIP) + ";", "envelope-from=" + SafeAuthValue(from) + ";";
    var e := "helo=" + SafeAuthValue(helo) + ";";
    var lead := " " + SafeAuthValue(spf) + (" " + b) + (" " + c) + (" " + e);
    assert SpfTags(m, spf) == lead + " ";
    hide SpfTags;
    hide Tagged;
    LastApart(lead, r);
    FiveWords(SafeAuthValue(spf), b, c, e, r);
    OneField(r);
  }

  lemma {:induction false} OneField(r: string)
    requires r != "" && Solid(r)
    ensures Fields(r) == [r]
  {
    hide Fields;
    hide Solid;
    FieldsToken(r, "");
    FieldsBlank("");
    assert r + "" == r;
  }

  lemma {:induction false} FiveWords(a: string, b: string, c: string, e: string, r: string)
    ensures Fields(" " + a + (" " + b) + (" " + c) + (" " + e) + (" " + r))
         == Fields(a) + Fields(b) + Fields(c) + Fields(e) + Fields(r)
  {
    hide Fields;
    assert IsSpace(' ');
    hide IsSpace;
    FieldsAppend(" " + a + (" " + b) + (" " + c) + (" " + e), " " + r);
    FieldsAppend(" " + a + (" " + b) + (" " + c), " " + e);
    FieldsAppend(" " + a + (" " + b), " " + c);
    FieldsAppend(" " + a, " " + b);
    FieldsAfterBlank(a);
    FieldsAfterBlank(b);
    FieldsAfterBlank(c);
    FieldsAfterBlank(e);
    FieldsAfterBlank(r);
  }

  lemma {:induction false} ReceivedSpfCarries(d: string, m: Mail, spf: string)
    requires TokenDomain(d)
    ensures Carries(ReceivedSpfHeader(d, m, spf), "received-spf", SpfWords(Host(d), m, spf))
  {
    hide Trim;
    hide Parse;
    hide CleanHeader;
    hide Solid;
    hide SafeAuthValue;
    hide EmptyFallback;
    hide Host;
    hide TokenDomain;
    hide NoBreak;
    hide Lower;
    hide Fields;
    hide Join;
    hide SpfTags;
    hide SpfWords;
    ReceivedNames();
    HostAgrees(d);
    var host, lead := Host(d), SpfTags(m, spf);
    SpfTagsPlain(m, spf);
    PlainSpfTags();
    NoBreakAppend("receiver=", host);
    NoBreakAppend(lead, "receiver=" + host);
    OneLine("Received-SPF", lead + ("receiver=" + host));
    SpfValueWords(host, m, spf);
  }

  lemma {:induction false} ReceivedCarries(d: string, m: Mail, date: string)
    requires TokenDomain(d) && NoBreak(date)
    ensures Carries(ReceivedHeader(d, m, date), "received", RouteWords(Host(d), m, date))
  {
    hide Parse;
    hide CleanHeader;
    hide ReceivedHeader;
    hide ReceivedLines;
    hide Host;
    hide TokenDomain;
    hide NoBreak;
    hide Fields;
    hide FieldsOf;
    hide ForClause;
    hide Join;
    hide Solid;
    hide WrittenHelo;
    hide WrittenAddress;
    ReceivedIsBlock(d, m, date);
    HostAgrees(d);
    ReceivedFields(Host(d), m, date);
  }

  lemma {:induction false} DetailNames()
    ensures DetailName("SPF") == "X-Sender-Report-SPF-Detail" && DetailName("DKIM") == "X-Sender-Report-DKIM-Detail"
    ensures DetailName("DMARC") == "X-Sender-Report-DMARC-Detail"
  {
  }

  lemma {:induction false} HeadersInOrder(d: string, m: Mail, res: AuthResults, date: string)
    ensures var hs := OwnHeaders(d, m, res, date);
      && |hs| == 6 && hs[0] == ReceivedHeader(d, m, date) && hs[1] == AuthenticationResultsHeader(d, res)
      && hs[2] == ReceivedSpfHeader(d, m, res.spf) && hs[3] == DetailHeader("SPF", res.spfDetail)
      && hs[4] == DetailHeader("DKIM", res.dkimDetail) && hs[5] == DetailHeader("DMARC", res.dmarcDetail)
  {
    hide ReceivedHeader;
    hide AuthenticationResultsHeader;
    hide ReceivedSpfHeader;
    hide DetailHeader;
  }

  /** The six lines of a delivery, in order: the route with the protocol, the results,
      the SPF result with what it was evaluated for, and the three details. */
  lemma {:induction false} OwnHeadersCarry(d: string, m: Mail, res: AuthResults, date: string)
    requires TokenDomain(d) && NoBreak(date)
    ensures var hs := OwnHeaders(d, m, res, date);
      && |hs| == 6
      && Carries(hs[0], "received", RouteWords(Host(d), m, date))
      && hs[1] == AuthenticationResultsHeader(d, res)
      && Carries(hs[2], "received-spf", SpfWords(Host(d), m, res.spf))
      && Carries(hs[3], Lower("X-Sender-Report-SPF-Detail"), DetailWords(res.spfDetail))
      && Carries(hs[4], Lower("X-Sender-Report-DKIM-Detail"), DetailWords(res.dkimDetail))
      && Carries(hs[5], Lower("X-Sender-Report-DMARC-Detail"), DetailWords(res.dmarcDetail))
  {
    hide *;
    HeadersInOrder(d, m, res, date);
    ReceivedCarries(d, m, date);
    ReceivedSpfCarries(d, m, res.spf);
    Kinds();
    DetailNames();
    DetailCarries("SPF", res.spfDetail);
    DetailCarries("DKIM", res.dkimDetail);
    DetailCarries("DMARC", res.dmarcDetail);
  }
}
