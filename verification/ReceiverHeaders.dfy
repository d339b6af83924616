/** The header lines this receiver writes. */
module ReceiverHeaders {
  import opened Text

  const DEFAULT_HOST: string := "sender-report.local"

  datatype Mail = Mail(remoteIP: string, helo: string, mailFrom: string, rcptTo: string, tls: bool)

  datatype AuthResults = AuthResults(
    spf: string, spfDomain: string, spfDetail: string,
    dkim: string, dkimDomain: string, dkimDetail: string,
    dmarc: string, fromDomain: string, dmarcDetail: string)

  function Without(s: string, c: char): (r: string)
    ensures forall x :: x in r <==> x in s && x != c
    ensures c !in s ==> r == s
  {
    if s == "" then "" else
      var rest := Without(s[1..], c);
      assert s == [s[0]] + s[1..];
      if s[0] == c then rest else [s[0]] + rest
  }

  predicate NoBreak(s: string) {
    '\r' !in s && '\n' !in s
  }

  function SafeAuthValue(v: string): (r: string)
    ensures ';' !in r && NoBreak(r)
  {
    var t := Trim(v);
    if t == "" then "unknown" else Without(Without(Without(t, ';'), '\r'), '\n')
  }

  function EmptyFallback(v: string, fallback: string): string {
    if Trim(v) == "" then fallback else v
  }

  /** A tag and its value, made safe. */
  function Tagged(tag: string, v: string): (r: string)
    ensures NoBreak(tag) ==> NoBreak(r)
    ensures tag <= r
  {
    tag + SafeAuthValue(v)
  }

  function AuthenticationResultsHeader(authServ: string, res: AuthResults): string {
    "Authentication-Results" + ":" + (" " + (EmptyFallback(authServ, DEFAULT_HOST) + ";") + ResultTags(res))
  }

  function ResultTags(res: AuthResults): string {
    " " + Join(ResultWords(res), " ")
  }

  function ResultWords(res: AuthResults): seq<string> {
    [ Tagged("spf=", res.spf),
      Tagged("smtp.mailfrom=", EmptyFallback(res.spfDomain, "unknown")) + ";",
      Tagged("dkim=", res.dkim),
      Tagged("header.d=", EmptyFallback(res.dkimDomain, "unknown")) + ";",
      Tagged("dmarc=", res.dmarc),
      Tagged("header.from=", EmptyFallback(res.fromDomain, "unknown")) ]
  }

  function Protocol(tls: bool): string {
    if tls then "ESMTPS" else "ESMTP"
  }

  /** The Received header is folded before by, for and the date. */
  function ReceivedHeader(receiver: string, m: Mail, date: string): string {
    "Received" + ":" + Join(ReceivedLines(SafeAuthValue(EmptyFallback(receiver, DEFAULT_HOST)), m, date), "\r\n\t")
  }

  function ReceivedLines(host: string, m: Mail, date: string): seq<string> {
    [ FromClause(SafeAuthValue(EmptyFallback(m.helo, "unknown")), SafeAuthValue(EmptyFallback(m.remoteIP, "unknown"))),
      ByClause(host, Protocol(m.tls)) ]
    + ForClause(m.rcptTo) + [date]
  }

  function FromClause(helo: string, ip: string): string {
    " from " + helo + " ([" + ip + "])"
  }

  function ByClause(host: string, protocol: string): string {
    "by " + host + " with " + (protocol + ";")
  }

  function ForClause(rcptTo: string): seq<string> {
    if Trim(rcptTo) == "" then [] else ["for <" + SafeAuthValue(Trim(rcptTo)) + ">"]
  }

  function ReceivedSpfHeader(receiver: string, m: Mail, spf: string): string {
    "Received-SPF" + ":" + (SpfTags(m, spf) + ("receiver=" + SafeAuthValue(EmptyFallback(receiver, DEFAULT_HOST))))
  }

  function SpfTags(m: Mail, spf: string): string {
    Tagged(" ", spf)
    + (Tagged(" client-ip=", m.remoteIP) + ";")
    + (Tagged(" envelope-from=", EmptyFallback(m.mailFrom, "<>")) + ";")
    + (Tagged(" helo=", EmptyFallback(m.helo, "unknown")) + ";")
    + " "
  }

  function DetailHeader(kind: string, detail: string): string {
    DetailName(kind) + ":" + (" " + SafeAuthValue(EmptyFallback(detail, "none")))
  }

  function DetailName(kind: string): string {
    "X-Sender-Report-" + kind + "-Detail"
  }

  /** The six lines of one delivery, in the order in which they are written. */
  function OwnHeaders(smtpDomain: string, m: Mail, res: AuthResults, date: string): seq<string> {
    [ ReceivedHeader(smtpDomain, m, date),
      AuthenticationResultsHeader(smtpDomain, res),
      ReceivedSpfHeader(smtpDomain, m, res.spf),
      DetailHeader("SPF", res.spfDetail),
      DetailHeader("DKIM", res.dkimDetail),
      DetailHeader("DMARC", res.dmarcDetail) ]
  }

  /** The host under which a message is checked again. */
  function Host(smtpDomain: string): string {
    EmptyFallback(Trim(smtpDomain), DEFAULT_HOST)
  }

  /** The configured domain is blank, or one token without a semicolon. */
  predicate TokenDomain(smtpDomain: string) {
    Trim(smtpDomain) == "" || (Solid(smtpDomain) && ';' !in smtpDomain)
  }

  /** What a formatted date looks like as far as the headers are concerned. */
  predicate PlainDate(date: string) {
    NoBreak(date) && forall i :: 0 <= i < |Fields(date)| ==> Lower(Fields(date)[i]) != "with"
  }

  /** HELO, address and recipient hold no blanks in the form written out. */
  predicate WordsOnly(m: Mail) {
    && Solid(SafeAuthValue(EmptyFallback(m.helo, "unknown")))
    && Solid(SafeAuthValue(EmptyFallback(m.remoteIP, "unknown")))
    && Solid(SafeAuthValue(Trim(m.rcptTo)))
  }
}
