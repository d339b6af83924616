/** Each header line the receiver writes is one block, and is recognised. */
module OwnHeaderLemmas {
  import opened Text
  import opened TextLemmas
  import opened HeaderSurgery
  import opened HeaderLemmas
  import opened ReceiverHeaders

  lemma {:induction false} ParseParts(name: string, rest: string)
    requires Solid(name) && ':' !in name
    ensures Parse(name + ":" + rest) == Block(Lower(name), Join(Fields(rest), " "))
  {
    hide Fields;
    hide Join;
    hide Trim;
    hide Lower;
    var c := name + ":" + rest;
    ColonAt(name, rest);
    assert c[..|name|] == name && c[|name| + 1..] == rest;
    TrimSolid(name);
  }

  /** A header text whose further lines are folded stays one block when it is
      trimmed, with its name and its fields. */
  lemma {:induction false} HeaderBlock(name: string, rest: string)
    requires name != "" && Solid(name) && ':' !in name
    requires forall i :: 0 <= i < |rest| && rest[i] == '\n' ==> i + 1 < |rest| && rest[i + 1] == '\t'
    ensures var c := Trim(name + ":" + rest);
      OneBlock(c) && ':' in c && Parse(c) == Block(Lower(name), Join(Fields(rest), " "))
  {
    hide Fields;
    hide Join;
    hide Trim;
    hide Lower;
    var t := name + ":" + rest;
    var k := |name| + 1;
    assert t[0] == name[0] && t[k - 1] == ':';
    TrimKeeps(t, k);
    var c := Trim(t);
    var r, ws := c[k..], t[|c|..];
    assert t == c + ws;
    assert c == name + ":" + r;
    assert rest == r + ws by { assert t[k..] == rest; assert (c + ws)[k..] == r + ws; }
    ParseParts(name, r);
    FieldsDropBlank(r, ws);
    hide Parse;
    TrimmedIsOneBlock(name, rest, c);
  }

  lemma {:induction false} TrimmedIsOneBlock(name: string, rest: string, c: string)
    requires name != "" && Solid(name) && c <= name + ":" + rest && |c| > |name| && !IsSpace(c[|c| - 1])
    requires forall i :: 0 <= i < |rest| && rest[i] == '\n' ==> i + 1 < |rest| && rest[i + 1] == '\t'
    ensures OneBlock(c)
  {
    var t, k := name + ":" + rest, |name| + 1;
    assert c[0] == name[0] && !IsSpace(name[0]);
    forall i | 0 <= i < |c| && c[i] == '\n'
      ensures i + 1 < |c| && c[i + 1] == '\t'
    {
      assert i < |name| ==> c[i] == name[i] && !IsSpace(name[i]);
      assert i >= k && rest[i - k] == '\n' && rest[i - k + 1] == t[i + 1];
    }
  }

  /** The host names used when writing and when stripping agree. */
  lemma {:induction false} HostAgrees(d: string)
    requires TokenDomain(d)
    ensures var h := Host(d);
      && h != "" && Solid(h) && ';' !in h && NoBreak(h)
      && EmptyFallback(d, DEFAULT_HOST) == h && SafeAuthValue(EmptyFallback(d, DEFAULT_HOST)) == h
  {
    hide IsSpace;
    hide Trim;
    hide Solid;
    hide NoBreak;
    if Trim(d) == "" {
      TrimNothing();
      DefaultHost();
      SafeToken(DEFAULT_HOST);
    } else {
      TrimSolid(d);
      SafeToken(d);
    }
  }

  lemma {:induction false} TrimNothing()
    ensures Trim("") == ""
  {
  }

  lemma {:induction false} DefaultHost()
    ensures DEFAULT_HOST != "" && Solid(DEFAULT_HOST) && ';' !in DEFAULT_HOST
  {
  }

  lemma {:induction false} SafeToken(h: string)
    requires h != "" && Solid(h) && ';' !in h
    ensures NoBreak(h) && SafeAuthValue(h) == h && Trim(h) == h
  {
    SolidHasNoBreak(h);
    TrimSolid(h);
  }

  /** A value without semicolon and line break that starts and ends solid is
      written as it is. */
  lemma {:induction false} SafeKeeps(v: string)
    requires v != "" && !IsSpace(v[0]) && !IsSpace(v[|v| - 1]) && ';' !in v && NoBreak(v)
    ensures Trim(v) == v && SafeAuthValue(v) == v
  {
    hide Trim;
    hide IsSpace;
    TrimKeeps(v, |v|);
  }

  lemma {:induction false} SolidHasNoBreak(s: string)
    requires Solid(s)
    ensures NoBreak(s)
  {
    assert IsSpace('\r') && IsSpace('\n');
  }

  /** A header on a single line. */
  lemma {:induction false} OneLine(name: string, rest: string)
    requires name != "" && Solid(name) && ':' !in name && NoBreak(rest)
    ensures var c := CleanHeader(name + ":" + rest);
      OneBlock(c) && ':' in c && Parse(c) == Block(Lower(name), Join(Fields(rest), " "))
  {
    hide Trim;
    hide Parse;
    SolidHasNoBreak(name);
    LfPlain(name + ":" + rest);
    HeaderBlock(name, rest);
  }

  lemma {:induction false} DetailIsOwn(kind: string, detail: string)
    requires Solid(kind) && ':' !in kind
    ensures var c := CleanHeader(DetailHeader(kind, detail));
      OneBlock(c) && ':' in c && "x-sender-report-" <= Parse(c).name
  {
    hide Trim;
    hide Parse;
    hide ToLF;
    hide Solid;
    hide SafeAuthValue;
    hide DetailName;
    hide Lower;
    DetailNameIs(kind);
    var value := SafeAuthValue(EmptyFallback(detail, "none"));
    PlainSpfTags();
    NoBreakAppend(" ", value);
    OneLine(DetailName(kind), " " + value);
  }

  lemma {:induction false} DetailNameIs(kind: string)
    requires Solid(kind) && ':' !in kind
    ensures var name := DetailName(kind);
      name != "" && Solid(name) && ':' !in name && "x-sender-report-" <= Lower(name)
  {
    hide IsSpace;
    hide Solid;
    DetailPieces();
    SolidAppend("X-Sender-Report-", kind);
    SolidAppend("X-Sender-Report-" + kind, "-Detail");
    LowerPrefix("X-Sender-Report-", kind + "-Detail");
    assert DetailName(kind) == "X-Sender-Report-" + (kind + "-Detail");
  }

  lemma {:induction false} LowerPrefix(a: string, b: string)
    ensures Lower(a) <= Lower(a + b)
  {
  }

  lemma {:induction false} DetailPieces()
    ensures Solid("X-Sender-Report-") && ':' !in "X-Sender-Report-" && Lower("X-Sender-Report-") == "x-sender-report-"
    ensures Solid("-Detail") && ':' !in "-Detail"
  {
  }

  lemma {:induction false} AuthResultsIsOwn(d: string, res: AuthResults)
    requires TokenDomain(d)
    ensures var c := CleanHeader(AuthenticationResultsHeader(d, res)); OneBlock(c) && OwnResult(Parse(c), Host(d))
  {
    hide Trim;
    hide Parse;
    hide Contains;
    hide ToLF;
    hide IsSpace;
    hide SafeAuthValue;
    hide EmptyFallback;
    hide Host;
    hide TokenDomain;
    hide NoBreak;
    hide Fields;
    hide Join;
    hide Lower;
    hide ResultTags;
    AuthResultsName();
    HostAgrees(d);
    var host, tail := Host(d), ResultTags(res);
    ResultTagsPlain(res);
    PlainSpfTags();
    NoBreakAppend(host, ";");
    NoBreakAppend(" ", host + ";");
    NoBreakAppend(" " + (host + ";"), tail);
    var rest := " " + (host + ";") + tail;
    OneLine("Authentication-Results", rest);
    HostLeads(host, tail);
  }

  lemma {:induction false} AuthResultsName()
    ensures Solid("Authentication-Results") && Lower("Authentication-Results") == "authentication-results"
  {
  }

  lemma {:induction false} ReceivedNames()
    ensures Solid("Received-SPF") && Lower("Received-SPF") == "received-spf"
    ensures Solid("Received") && Lower("Received") == "received"
  {
  }

  lemma {:induction false} NoBreakAppend(a: string, b: string)
    requires NoBreak(a) && NoBreak(b)
    ensures NoBreak(a + b)
  {
  }

  lemma {:induction false} ResultTagsPlain(res: AuthResults)
    ensures NoBreak(ResultTags(res)) && " " <= ResultTags(res)
  {
    hide NoBreak;
    hide ResultWords;
    hide Join;
    WordsHaveNoBreak(res);
    JoinHasNoBreak(ResultWords(res));
    PlainSpfTags();
    NoBreakAppend(" ", Join(ResultWords(res), " "));
  }

  lemma {:induction false} WordsHaveNoBreak(res: AuthResults)
    ensures NoBreaks(ResultWords(res))
  {
    hide EmptyFallback;
    hide Tagged;
    hide NoBreak;
    PlainResultTags();
    NoBreakAppend(Tagged("smtp.mailfrom=", EmptyFallback(res.spfDomain, "unknown")), ";");
    NoBreakAppend(Tagged("header.d=", EmptyFallback(res.dkimDomain, "unknown")), ";");
  }

  lemma {:induction false} JoinHasNoBreak(words: seq<string>)
    requires NoBreaks(words)
    ensures NoBreak(Join(words, " "))
  {
    hide NoBreak;
    PlainSpfTags();
    if |words| == 0 {
      SolidHasNoBreak("");
    } else if |words| > 1 {
      JoinHasNoBreak(words[1..]);
      NoBreakAppend(words[0], " ");
      NoBreakAppend(words[0] + " ", Join(words[1..], " "));
    }
  }

  lemma {:induction false} PlainResultTags()
    ensures NoBreak(";") && NoBreak("spf=") && NoBreak("smtp.mailfrom=") && NoBreak("dkim=")
    ensures NoBreak("header.d=") && NoBreak("dmarc=") && NoBreak("header.from=")
  {
  }

  lemma {:induction false} PlainSpfTags()
    ensures NoBreak(" ") && NoBreak(" client-ip=") && NoBreak(" envelope-from=") && NoBreak(" helo=")
    ensures NoBreak(";") && NoBreak("receiver=") && NoBreak("Received:")
  {
  }

  lemma {:induction false} SpfTagsPlain(m: Mail, spf: string)
    ensures var r := SpfTags(m, spf); NoBreak(r) && r != "" && r[|r| - 1] == ' '
  {
    hide EmptyFallback;
    hide Tagged;
    hide NoBreak;
    PlainSpfTags();
    var a, ip, from := Tagged(" ", spf), Tagged(" client-ip=", m.remoteIP), EmptyFallback(m.mailFrom, "<>");
    var b, c := ip + ";", Tagged(" envelope-from=", from) + ";";
    var d := Tagged(" helo=", EmptyFallback(m.helo, "unknown")) + ";";
    NoBreakAppend(ip, ";");
    NoBreakAppend(Tagged(" envelope-from=", from), ";");
    NoBreakAppend(Tagged(" helo=", EmptyFallback(m.helo, "unknown")), ";");
    NoBreakAppend(a, b);
    NoBreakAppend(a + b, c);
    NoBreakAppend(a + b + c, d);
    NoBreakAppend(a + b + c + d, " ");
  }

  lemma {:induction false} HostLeads(host: string, tail: string)
    requires Solid(host) && " " <= tail
    ensures host + ";" <= Join(Fields(" " + (host + ";") + tail), " ")
  {
    hide Fields;
    hide Join;
    var token := host + ";";
    assert Solid(token);
    FieldsMiddle(" ", token, tail);
    assert Blank(" ");
    FieldsBlank(" ");
    assert Fields(" " + token + tail) == [token] + Fields(tail);
    JoinAppend([token], Fields(tail), " ");
    JoinOne(token, " ");
  }

  lemma {:induction false} ReceivedSpfIsOwn(d: string, m: Mail, spf: string)
    requires TokenDomain(d)
    ensures var c := CleanHeader(ReceivedSpfHeader(d, m, spf)); OneBlock(c) && OwnResult(Parse(c), Host(d))
  {
    hide Trim;
    hide Parse;
    hide Contains;
    hide ToLF;
    hide IsSpace;
    hide SafeAuthValue;
    hide EmptyFallback;
    hide Host;
    hide TokenDomain;
    hide NoBreak;
    hide Fields;
    hide Join;
    hide Lower;
    hide SpfTags;
    ReceivedNames();
    HostAgrees(d);
    var host, lead := Host(d), SpfTags(m, spf);
    SpfTagsPlain(m, spf);
    PlainSpfTags();
    NoBreakAppend("receiver=", host);
    NoBreakAppend(lead, "receiver=" + host);
    OneLine("Received-SPF", lead + ("receiver=" + host));
    ReceiverEnds(host, lead);
  }

  lemma {:induction false} ReceiverEnds(host: string, lead: string)
    requires Solid(host) && lead != "" && lead[|lead| - 1] == ' '
    ensures Contains(Join(Fields(lead + ("receiver=" + host)), " "), "receiver=" + host)
  {
    hide Fields;
    hide Join;
    var token := "receiver=" + host;
    assert Solid("receiver=");
    assert Solid(token);
    FieldsMiddle(lead, token, "");
    FieldsBlank("");
    assert lead + token + "" == lead + token;
    assert Fields(lead + token) == Fields(lead) + [token];
    JoinAppend(Fields(lead), [token], " ");
    JoinOne(token, " ");
    OccursAtEnd(Join(Fields(lead + token), " "), token);
  }

  lemma {:induction false} OccursAtEnd(s: string, sub: string)
    requires |sub| <= |s| && s[|s| - |sub|..] == sub
    ensures Contains(s, sub)
  {
    assert OccursAt(s, sub, |s| - |sub|);
  }

  // ----- Received ---------------------------------------------------------------

  lemma {:induction false} LfFold(a: string, b: string)
    requires '\r' !in a
    ensures ToLF(a + "\r\n\t" + b) == a + "\n\t" + ToLF(b)
  {
    LfAppend(a, "\r\n\t" + b);
    assert ("\r\n\t" + b)[2..] == "\t" + b;
    assert ("\t" + b)[1..] == b;
    assert a + "\r\n\t" + b == a + ("\r\n\t" + b);
  }

  predicate NoBreaks(lines: seq<string>) {
    forall i :: 0 <= i < |lines| ==> NoBreak(lines[i])
  }

  lemma {:induction false} LfJoin(lines: seq<string>)
    requires NoBreaks(lines)
    ensures ToLF(Join(lines, "\r\n\t")) == Join(lines, "\n\t")
  {
    if |lines| == 1 {
      LfPlain(lines[0]);
    } else if |lines| > 1 {
      LfJoin(lines[1..]);
      LfFold(lines[0], Join(lines[1..], "\r\n\t"));
    }
  }

  /** Every line break is followed by a tab. */
  predicate TabFolded(s: string) {
    forall i :: 0 <= i < |s| && s[i] == '\n' ==> i + 1 < |s| && s[i + 1] == '\t'
  }

  lemma {:induction false} TabFoldedAppend(line: string, rest: string)
    requires NoBreak(line) && TabFolded(rest)
    ensures TabFolded(line + "\n\t" + rest)
  {
    var s := line + "\n\t" + rest;
    var n := |line| + 2;
    assert forall k :: 0 <= k < |line| ==> s[k] == line[k] && line[k] != '\n';
    forall i | 0 <= i < |s| && s[i] == '\n'
      ensures i + 1 < |s| && s[i + 1] == '\t'
    {
      assert s[n - 2] == '\n' && s[n - 1] == '\t';
      if i >= n {
        assert s[i] == rest[i - n];
        assert i - n + 1 < |rest|;
        assert s[i + 1] == rest[i - n + 1];
      }
    }
  }

  lemma {:induction false} JoinFolded(lines: seq<string>)
    requires NoBreaks(lines)
    ensures TabFolded(Join(lines, "\n\t"))
  {
    hide TabFolded;
    if |lines| <= 1 {
      assert lines != [] ==> NoBreak(lines[0]);
      NoBreakFolded(Join(lines, "\n\t"));
    } else {
      assert NoBreak(lines[0]) && NoBreaks(lines[1..]);
      JoinFolded(lines[1..]);
      TabFoldedAppend(lines[0], Join(lines[1..], "\n\t"));
    }
  }

  lemma {:induction false} NoBreakFolded(s: string)
    requires NoBreak(s)
    ensures TabFolded(s)
  {
  }

  /** All fields of all lines, in order. */
  function FieldsOf(lines: seq<string>): seq<string> {
    if |lines| == 0 then [] else Fields(lines[0]) + FieldsOf(lines[1..])
  }

  lemma {:induction false} FieldsOfJoin(lines: seq<string>)
    ensures Fields(Join(lines, "\n\t")) == FieldsOf(lines)
  {
    hide Fields;
    if |lines| == 0 {
      FieldsBlank("");
    } else if |lines| == 1 {
      assert lines[1..] == [];
    } else {
      var rest := Join(lines[1..], "\n\t");
      FieldsOfJoin(lines[1..]);
      FieldsAppend(lines[0], "\n\t" + rest);
      assert lines[0] + "\n\t" + rest == lines[0] + ("\n\t" + rest);
      FieldsLeadingFold(rest);
    }
  }

  lemma {:induction false} FieldsLeadingFold(s: string)
    ensures Fields("\n\t" + s) == Fields(s)
  {
    hide Fields;
    FieldsStep("\n\t" + s);
    assert ("\n\t" + s)[1..] == "\t" + s;
    FieldsStep("\t" + s);
    assert ("\t" + s)[1..] == s;
  }

  lemma {:induction false} ReceivedIsBlock(d: string, m: Mail, date: string)
    requires TokenDomain(d) && NoBreak(date)
    ensures var c := CleanHeader(ReceivedHeader(d, m, date));
      OneBlock(c) && Parse(c) == Block("received", Join(FieldsOf(ReceivedLines(Host(d), m, date)), " "))
  {
    hide Trim;
    hide Parse;
    hide Contains;
    hide ToLF;
    hide IsSpace;
    hide SafeAuthValue;
    hide EmptyFallback;
    hide Host;
    hide TokenDomain;
    hide NoBreak;
    hide Fields;
    hide Join;
    hide Lower;
    hide ReceivedLines;
    ReceivedNames();
    HostAgrees(d);
    var lines := ReceivedLines(Host(d), m, date);
    LinesHaveNoBreak(Host(d), m, date);
    var value := Join(lines, "\r\n\t");
    PlainSpfTags();
    assert '\r' !in "Received:";
    LfAppend("Received:", value);
    LfJoin(lines);
    JoinFolded(lines);
    assert "Received" + ":" == "Received:";
    HeaderBlock("Received", Join(lines, "\n\t"));
    FieldsOfJoin(lines);
  }

  lemma {:induction false} LinesHaveNoBreak(host: string, m: Mail, date: string)
    requires NoBreak(host) && NoBreak(date)
    ensures NoBreaks(ReceivedLines(host, m, date))
  {
    hide SafeAuthValue;
    hide EmptyFallback;
    hide Trim;
  }

  /** The fields of the Received header around the host. */
  lemma {:induction false} ByFields(host: string, protocol: string)
    requires host != "" && Solid(host) && Solid(protocol)
    ensures Fields(ByClause(host, protocol)) == ["by", host, "with", protocol + ";"]
  {
    hide Fields;
    assert Solid("by") && Solid("with") && Solid(protocol + ";");
    FieldsBlank("");
    FieldsMiddle("", "by", " ");
    FieldsBlank(" ");
    assert "" + "by" + " " == "by ";
    FieldsMiddle("by " + host + " with ", protocol + ";", "");
    FieldsMiddle("by " + host + " ", "with", " ");
    assert "by " + host + " " + "with" + " " == "by " + host + " with ";
    FieldsMiddle("by ", host, " ");
    assert ByClause(host, protocol) == "by " + host + " with " + (protocol + ";") + "";
  }

  lemma {:induction false} FromFields(helo: string, ip: string)
    ensures Fields(FromClause(helo, ip)) == ["from"] + Fields(" " + helo + " ([" + ip + "])")
  {
    hide Fields;
    FieldsBlank(" ");
    assert Solid("from");
    FieldsMiddle(" ", "from", " " + helo + " ([" + ip + "])");
    assert FromClause(helo, ip) == " " + "from" + (" " + helo + " ([" + ip + "])");
  }
}
