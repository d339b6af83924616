/** Checking a stored message again, any number of times. */
module HeaderReverify {
  import opened Text
  import opened TextLemmas
  import opened HeaderSurgery
  import opened HeaderLemmas
  import opened ReceiverHeaders
  import opened OwnHeaderLemmas
  import opened HeaderRoundTrip
  import opened HeaderTheorems
  import opened HeaderTls

  /** One delivery or re-check: the envelope, the date written, and what SPF,
      DKIM and DMARC give for a message text at that time. */
  datatype Round = Round(mail: Mail, date: string, auth: string -> AuthResults)

  /** The round as it is written out when the connection was known to use TLS. */
  function Written(r: Round, tls: bool): Mail {
    r.mail.(tls := r.mail.tls || tls)
  }

  function Enrich(d: string, r: Round, tls: bool, raw: string): string {
    Enriched(d, Written(r, tls), r.auth(raw), r.date, raw)
  }

  /** Strip the old headers, evaluate the message again, write new headers. */
  function Reverify(d: string, r: Round, stored: string): string {
    var s := Strip(stored, Host(d));
    Enrich(d, r, s.tls, s.clean)
  }

  function ReverifyAll(d: string, rounds: seq<Round>, stored: string): string {
    if |rounds| == 0 then stored else ReverifyAll(d, rounds[1..], Reverify(d, rounds[0], stored))
  }

  method ReverifyReceiverAuth(d: string, r: Round, stored: string) returns (text: string)
    ensures text == Reverify(d, r, stored)
  {
    hide Strip;
    var host := EmptyFallback(Trim(d), DEFAULT_HOST);
    var clean, tls := StripReceiverHeaders(stored, host);
    var mail := r.mail;
    mail := mail.(tls := mail.tls || tls);
    text := PrependHeaders(clean, OwnHeaders(d, mail, r.auth(clean), r.date));
  }

  /** The date is written on one line. */
  predicate Dated(r: Round) {
    NoBreak(r.date)
  }

  /** The Received line of the round would say TLS. */
  predicate SaysItself(r: Round) {
    r.mail.tls || Misleads(r.mail, r.date)
  }

  /** One re-check of an enriched message is the message enriched afresh: the
      evaluation sees the original, and the flag the Received line said is kept. */
  lemma {:induction false} ReverifyReplaces(d: string, first: Round, tls: bool, r: Round, raw: string)
    requires TokenDomain(d) && Dated(first) && Recoverable(raw, Host(d))
    ensures Reverify(d, r, Enrich(d, first, tls, raw)) == Enrich(d, r, SaysItself(first) || tls, raw)
  {
    hide Strip;
    hide Enriched;
    hide ReceivedHeader;
    hide Host;
    hide TokenDomain;
    hide Recoverable;
    hide CleanHeader;
    hide Parse;
    hide SaysTls;
    hide Remains;
    hide NoBreak;
    var m, res := Written(first, tls), first.auth(raw);
    SameWords(first.mail, m, first.date);
    hide Misleads;
    StripUndoesPrepend(d, m, res, first.date, raw);
    RecoverableHasBody(raw, Host(d));
    StripEnriched(d, m, res, first.date, raw);
    TlsIsRecorded(d, m, first.date);
  }

  lemma {:induction false} SameWords(m: Mail, w: Mail, date: string)
    requires w == m.(tls := w.tls)
    ensures Misleads(m, date) == Misleads(w, date)
  {
    hide Fields;
    hide SafeAuthValue;
    hide EmptyFallback;
    hide Trim;
    hide ClaimsTls;
  }

  lemma {:induction false} RecoverableHasBody(raw: string, host: string)
    requires Recoverable(raw, host)
    ensures CutBlank(ToLF(raw)).hasBody
  {
  }

  predicate AnySays(rounds: seq<Round>) {
    exists i :: 0 <= i < |rounds| && SaysItself(rounds[i])
  }

  /** Any number of re-checks equals one enrichment of the original with the
      latest round, and with the flag if any earlier line said TLS: nothing
      accumulates, nothing of the message changes. */
  lemma {:induction false} ReverifyAllReplaces(d: string, first: Round, tls: bool, rounds: seq<Round>, last: Round,
      raw: string)
    requires TokenDomain(d) && Recoverable(raw, Host(d))
    requires Dated(first) && forall i :: 0 <= i < |rounds| ==> Dated(rounds[i])
    ensures ReverifyAll(d, rounds + [last], Enrich(d, first, tls, raw))
         == Enrich(d, last, tls || SaysItself(first) || AnySays(rounds), raw)
    decreases |rounds|
  {
    hide Enrich;
    hide Reverify;
    hide Host;
    hide TokenDomain;
    hide Recoverable;
    hide Dated;
    hide SaysItself;
    var all := rounds + [last];
    var r, t := all[0], SaysItself(first) || tls;
    ReverifyReplaces(d, first, tls, r, raw);
    if rounds == [] {
      assert all[1..] == [];
    } else {
      assert all[1..] == rounds[1..] + [last];
      ReverifyAllReplaces(d, r, t, rounds[1..], last, raw);
      assert AnySays(rounds) <==> SaysItself(rounds[0]) || AnySays(rounds[1..]) by {
        assert forall i :: 0 < i < |rounds| ==> rounds[i] == rounds[1..][i - 1];
        assert forall i :: 0 <= i < |rounds[1..]| ==> rounds[1..][i] == rounds[i + 1];
      }
    }
  }

  // ----- when the flag is the true one -------------------------------------------------

  predicate AnyTls(rounds: seq<Round>) {
    exists i :: 0 <= i < |rounds| && rounds[i].mail.tls
  }

  predicate AnyMisleads(rounds: seq<Round>) {
    exists i :: 0 <= i < |rounds| && Misleads(rounds[i].mail, rounds[i].date)
  }

  /** The text written last tells the truth about TLS exactly when a delivery
      used it or none of the earlier lines misleads. */
  lemma {:induction false} ReverifyTellsTheTruth(d: string, first: Round, rounds: seq<Round>, last: Round, raw: string)
    requires TokenDomain(d) && Recoverable(raw, Host(d))
    requires Dated(first) && Dated(last) && forall i :: 0 <= i < |rounds| ==> Dated(rounds[i])
    ensures var used := AnyTls([first] + rounds + [last]);
      ReverifyAll(d, rounds + [last], Enrich(d, first, false, raw)) == Enrich(d, last, used, raw)
      <==> used || !AnyMisleads([first] + rounds)
  {
    hide ReverifyAll;
    hide Enrich;
    hide Host;
    hide TokenDomain;
    hide Recoverable;
    hide Dated;
    hide Misleads;
    ReverifyAllReplaces(d, first, false, rounds, last, raw);
    var said, used := SaysItself(first) || AnySays(rounds), AnyTls([first] + rounds + [last]);
    FlagsOf(first, rounds, last);
    SameFlagSameText(d, last, said, used, raw);
  }

  /** After a delivery without TLS whose HELO was "x with ESMTPS", a re-check
      without TLS writes that the mail came over TLS. */
  lemma {:induction false} GreetingBecomesTls(d: string, first: Round, last: Round, raw: string)
    requires TokenDomain(d) && Recoverable(raw, Host(d)) && Dated(first) && Dated(last)
    requires first.mail.helo == "x with ESMTPS" && !first.mail.tls && !last.mail.tls
    ensures Reverify(d, last, Enrich(d, first, false, raw)) == Enrich(d, last, true, raw)
    ensures Enrich(d, last, true, raw) != Enrich(d, last, false, raw)
  {
    hide Enrich;
    hide Reverify;
    hide Host;
    hide TokenDomain;
    hide Recoverable;
    hide Dated;
    hide Misleads;
    hide WrittenHelo;
    GreetingIsWritten(first.mail);
    GreetingMisleads(first.mail, first.date);
    ReverifyReplaces(d, first, false, last, raw);
    SameFlagSameText(d, last, true, false, raw);
  }

  lemma {:induction false} FlagsOf(first: Round, rounds: seq<Round>, last: Round)
    ensures AnyTls([first] + rounds + [last]) <==> first.mail.tls || AnyTls(rounds) || last.mail.tls
    ensures AnyMisleads([first] + rounds) <==> Misleads(first.mail, first.date) || AnyMisleads(rounds)
    ensures AnySays(rounds) <==> AnyTls(rounds) || AnyMisleads(rounds)
  {
    hide Misleads;
    var all, front := [first] + rounds + [last], [first] + rounds;
    assert all[0] == first && all[|all| - 1] == last && front[0] == first;
    assert forall i :: 0 <= i < |rounds| ==> all[i + 1] == rounds[i] && front[i + 1] == rounds[i];
    forall i | 0 <= i < |all|
      ensures all[i] == first || all[i] == last || (0 < i <= |rounds| && all[i] == rounds[i - 1])
    {
    }
    forall i | 0 <= i < |front|
      ensures front[i] == first || (0 < i && front[i] == rounds[i - 1])
    {
    }
  }

  /** Two texts of a round are the same exactly when they write the same flag. */
  lemma {:induction false} SameFlagSameText(d: string, r: Round, x: bool, y: bool, raw: string)
    requires TokenDomain(d) && Dated(r)
    ensures Enrich(d, r, x, raw) == Enrich(d, r, y, raw) <==> r.mail.tls || x == y
  {
    hide Enriched;
    hide TokenDomain;
    hide NoBreak;
    if !r.mail.tls && x != y {
      DifferentFlagDifferentText(d, Written(r, true), Written(r, false), r.auth(raw), r.date, raw);
    }
  }

  lemma {:induction false} DifferentFlagDifferentText(d: string, m: Mail, w: Mail, res: AuthResults, date: string,
      raw: string)
    requires TokenDomain(d) && NoBreak(date) && m.tls && w == m.(tls := false)
    ensures Enriched(d, m, res, date, raw) != Enriched(d, w, res, date, raw)
  {
    hide TokenDomain;
    hide NoBreak;
    hide OwnHeaders;
    hide CleanHeader;
    hide CutBlank;
    hide ToLF;
    hide ToCRLF;
    hide Trim;
    hide Join;
    hide Cleaned;
    hide CleanHeaders;
    hide OwnSix;
    hide ReceivedHeader;
    OwnHeadersAreOwn(d, m, res, date);
    OwnHeadersAreOwn(d, w, res, date);
    var p := CutBlank(ToLF(raw));
    var xs, ys := CleanHeaders(OwnHeaders(d, m, res, date)), CleanHeaders(OwnHeaders(d, w, res, date));
    SameButReceived(d, m, w, res, date);
    ReceivedDiffers(d, m, w, date);
    var tail := if Trim(p.head) != "" then [p.head] else [];
    var x, y := Join(xs + tail, "\n") + "\n\n" + p.body, Join(ys + tail, "\n") + "\n\n" + p.body;
    FirstDiffers(xs, ys, tail, p.body);
    LfOfCrlf(x);
    LfOfCrlf(y);
  }

  lemma {:induction false} FirstDiffers(xs: seq<string>, ys: seq<string>, tail: seq<string>, body: string)
    requires xs != [] && ys != [] && xs[1..] == ys[1..] && xs[0] != ys[0]
    ensures Join(xs + tail, "\n") + "\n\n" + body != Join(ys + tail, "\n") + "\n\n" + body
  {
    hide Join;
    var rest := xs[1..] + tail;
    assert xs + tail == [xs[0]] + rest && ys + tail == [ys[0]] + rest;
    JoinAppend([xs[0]], rest, "\n");
    JoinAppend([ys[0]], rest, "\n");
    JoinOne(xs[0], "\n");
    JoinOne(ys[0], "\n");
    var more := if rest == [] then "" else "\n" + Join(rest, "\n");
    assert Join(xs + tail, "\n") == xs[0] + more && Join(ys + tail, "\n") == ys[0] + more;
    var end := more + ("\n\n" + body);
    assert Join(xs + tail, "\n") + "\n\n" + body == xs[0] + end;
    assert Join(ys + tail, "\n") + "\n\n" + body == ys[0] + end;
    CancelTail(xs[0], ys[0], end);
  }

  lemma {:induction false} CancelTail(a: string, b: string, c: string)
    ensures a + c == b + c ==> a == b
  {
    if a + c == b + c {
      assert |a| == |b|;
      assert a == (a + c)[..|a|] && b == (b + c)[..|b|];
    }
  }

  lemma {:induction false} SameButReceived(d: string, m: Mail, w: Mail, res: AuthResults, date: string)
    requires w == m.(tls := w.tls)
    ensures var xs, ys := Cleaned(OwnHeaders(d, m, res, date)), Cleaned(OwnHeaders(d, w, res, date));
      |xs| == |ys| == 6 && xs[1..] == ys[1..]
  {
    hide CleanHeader;
    hide ReceivedHeader;
    hide AuthenticationResultsHeader;
    hide DetailHeader;
    hide SafeAuthValue;
    hide EmptyFallback;
    hide Cleaned;
    CleanedAt(OwnHeaders(d, m, res, date));
    CleanedAt(OwnHeaders(d, w, res, date));
  }

  /** The Received lines with and without TLS differ. */
  lemma {:induction false} ReceivedDiffers(d: string, m: Mail, w: Mail, date: string)
    requires TokenDomain(d) && NoBreak(date) && m.tls && w == m.(tls := false)
    ensures CleanHeader(ReceivedHeader(d, m, date)) != CleanHeader(ReceivedHeader(d, w, date))
  {
    hide Parse;
    hide CleanHeader;
    hide ReceivedHeader;
    hide Host;
    hide TokenDomain;
    hide NoBreak;
    hide Solid;
    hide ReceivedLines;
    hide FieldsOf;
    hide ForClause;
    hide Fields;
    hide Join;
    hide Protocol;
    hide SafeAuthValue;
    hide EmptyFallback;
    hide Trim;
    var host := Host(d);
    HostAgrees(d);
    ReceivedIsBlock(d, m, date);
    ReceivedIsBlock(d, w, date);
    ReceivedFields(host, m, date);
    ReceivedFields(host, w, date);
    ProtocolWords();
    var a := ["from"] + Fields(WrittenHelo(m)) + Fields(WrittenAddress(m)) + ["by", host, "with"];
    var b := FieldsOf(ForClause(m.rcptTo)) + Fields(date);
    assert FieldsOf(ReceivedLines(host, m, date)) == a + (["ESMTPS;"] + b);
    assert FieldsOf(ReceivedLines(host, w, date)) == a + (["ESMTP;"] + b);
    JoinLonger(a, "ESMTPS;", "ESMTP;", b);
  }

  lemma {:induction false} JoinLonger(a: seq<string>, x: string, y: string, b: seq<string>)
    requires |x| > |y|
    ensures Join(a + ([x] + b), " ") != Join(a + ([y] + b), " ")
  {
    hide Join;
    JoinAppend(a, [x] + b, " ");
    JoinAppend(a, [y] + b, " ");
    JoinAppend([x], b, " ");
    JoinAppend([y], b, " ");
    JoinOne(x, " ");
    JoinOne(y, " ");
    assert |Join(a + ([x] + b), " ")| > |Join(a + ([y] + b), " ")|;
  }

  predicate NoOwnReceived(blocks: seq<string>, host: string) {
    forall i :: 0 <= i < |blocks| ==> !OwnReceived(Parse(blocks[i]), host)
  }

  /** A first re-check of a message that was never enriched: the same, when the
      message carries no Received line of this host either. */
  lemma {:induction false} ReverifyFresh(d: string, r: Round, raw: string)
    requires Recoverable(raw, Host(d))
    requires NoOwnReceived(Blocks(CutBlank(ToLF(raw)).head), Host(d))
    ensures Reverify(d, r, raw) == Enrich(d, r, false, raw)
  {
    hide Enriched;
    hide Host;
    hide Blocks;
    hide Parse;
    hide OwnResult;
    hide OwnReceived;
    hide CutBlank;
    hide ToLF;
    hide ToCRLF;
    hide Join;
    hide Trim;
    hide NoBareLF;
    var host, p := Host(d), CutBlank(ToLF(raw));
    var blocks := Blocks(p.head);
    if p.head == "" {
      EmptyHead(host);
    }
    SiftKeepsAll(Sifted([], false, false), blocks, host);
    assert [] + blocks == blocks;
    JoinBlocksOf(p.head);
    CutGives(ToLF(raw));
    CrlfOfLf(raw);
    assert p.head + ("\n\n" + p.body) == p.head + "\n\n" + p.body;
  }

  lemma {:induction false} EmptyHead(host: string)
    ensures Blocks("") == [""] && !OwnResult(Parse(""), host)
  {
    hide Lines;
    hide BlocksFrom;
    hide Parse;
    hide OwnResult;
    LinesStep("", -1);
    BlocksStart("", []);
    NoLines([""]);
    assert [""] + [] == [""];
    if OwnResult(Parse(""), host) {
      OwnIsNotEmpty("", host);
    }
  }

  lemma {:induction false} SiftKeepsAll(s: Sifted, blocks: seq<string>, host: string)
    requires forall i :: 0 <= i < |blocks| ==>
      !OwnResult(Parse(blocks[i]), host) && !OwnReceived(Parse(blocks[i]), host)
    ensures Sift(s, blocks, host) == s.(kept := s.kept + blocks)
    decreases |blocks|
  {
    hide Parse;
    hide OwnResult;
    hide OwnReceived;
    if blocks == [] {
      assert s.kept + [] == s.kept;
    } else {
      SiftKeepsAll(s.(kept := s.kept + [blocks[0]]), blocks[1..], host);
      assert (s.kept + [blocks[0]]) + blocks[1..] == s.kept + blocks;
    }
  }
}
