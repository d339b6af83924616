/** The Received line tells whether the delivery was encrypted. */
module HeaderTls {
  import opened Text
  import opened TextLemmas
  import opened HeaderSurgery
  import opened ReceiverHeaders
  import opened OwnHeaderLemmas
  import opened HeaderRoundTrip

  function LowerAll(fields: seq<string>): (r: seq<string>)
    ensures |r| == |fields|
    ensures forall i :: 0 <= i < |fields| ==> r[i] == Lower(fields[i])
  {
    seq(|fields|, i requires 0 <= i < |fields| => Lower(fields[i]))
  }

  lemma {:induction false} LowerJoin(fields: seq<string>)
    ensures Lower(Join(fields, " ")) == Join(LowerAll(fields), " ")
  {
    hide Lower;
    if |fields| == 0 {
      LowerEmpty();
    } else if |fields| > 1 {
      LowerJoin(fields[1..]);
      var rest := Join(fields[1..], " ");
      LowerAppend(fields[0] + " ", rest);
      LowerAppend(fields[0], " ");
      LowerBlank();
      assert LowerAll(fields)[1..] == LowerAll(fields[1..]);
    }
  }

  lemma {:induction false} LowerEmpty()
    ensures Lower("") == ""
  {
  }

  lemma {:induction false} LowerBlank()
    ensures Lower(" ") == " "
  {
  }

  lemma {:induction false} LowerSolid(s: string)
    requires Solid(s)
    ensures Solid(Lower(s))
  {
  }

  // ----- words that claim TLS --------------------------------------------------------

  /** The word "with" in front of one that starts with "esmtps", in any case. */
  predicate PairAt(fields: seq<string>, i: int) {
    0 <= i < |fields| - 1 && Lower(fields[i]) == "with" && "esmtps" <= Lower(fields[i + 1])
  }

  predicate ClaimsTls(fields: seq<string>) {
    exists i :: 0 <= i < |fields| && PairAt(fields, i)
  }

  /** Two runs of fields claim TLS when one of them does, unless the pair stands
      across their border. */
  lemma {:induction false} ClaimAppend(a: seq<string>, b: seq<string>)
    requires a == [] || b == [] || Lower(a[|a| - 1]) != "with" || !("esmtps" <= Lower(b[0]))
    ensures ClaimsTls(a + b) <==> ClaimsTls(a) || ClaimsTls(b)
  {
    hide Lower;
    var s := a + b;
    forall i | PairAt(s, i)
      ensures ClaimsTls(a) || ClaimsTls(b)
    {
      if i < |a| - 1 {
        assert s[i] == a[i] && s[i + 1] == a[i + 1];
        assert PairAt(a, i);
      } else if i >= |a| {
        assert s[i] == b[i - |a|] && s[i + 1] == b[i - |a| + 1];
        assert PairAt(b, i - |a|);
      }
    }
    forall i | PairAt(a, i)
      ensures ClaimsTls(s)
    {
      assert s[i] == a[i] && s[i + 1] == a[i + 1];
      assert PairAt(s, i);
    }
    forall i | PairAt(b, i)
      ensures ClaimsTls(s)
    {
      assert s[i + |a|] == b[i] && s[i + |a| + 1] == b[i + 1];
      assert PairAt(s, i + |a|);
    }
  }

  lemma {:induction false} OneClaimsNothing(word: string)
    ensures !ClaimsTls([word])
  {
  }

  /** Fields joined by blanks say TLS exactly when a pair stands in them, not at the
      very front. */
  lemma {:induction false} JoinedSays(fields: seq<string>)
    requires forall k :: 0 <= k < |fields| ==> Solid(fields[k])
    ensures Contains(Lower(Join(fields, " ")), " with esmtps") <==> exists i :: 0 < i < |fields| && PairAt(fields, i)
  {
    hide Lower;
    hide Join;
    hide Solid;
    hide OccursAt;
    var low := LowerAll(fields);
    LowerJoin(fields);
    forall p | OccursAt(Join(low, " "), " with esmtps", p)
      ensures exists i :: 0 < i < |fields| && PairAt(fields, i)
    {
      LowerAllSolid(fields);
      WithWords();
      var i := PairInFields(low, "with", "esmtps", p);
      assert PairAt(fields, i);
    }
    forall i | 0 < i < |fields| && PairAt(fields, i)
      ensures Contains(Join(low, " "), " with esmtps")
    {
      PairOccurs(low, i);
    }
  }

  /** Without "with" in front that is when they claim it. */
  lemma {:induction false} JoinedClaims(fields: seq<string>)
    requires forall k :: 0 <= k < |fields| ==> Solid(fields[k])
    requires fields != [] && Lower(fields[0]) != "with"
    ensures Contains(Lower(Join(fields, " ")), " with esmtps") <==> ClaimsTls(fields)
  {
    hide Lower;
    hide Join;
    hide Solid;
    hide Contains;
    JoinedSays(fields);
    assert forall i :: PairAt(fields, i) ==> 0 < i < |fields|;
  }

  lemma {:induction false} LowerAllSolid(fields: seq<string>)
    requires forall k :: 0 <= k < |fields| ==> Solid(fields[k])
    ensures forall k :: 0 <= k < |fields| ==> Solid(LowerAll(fields)[k])
  {
    hide Solid;
    hide Lower;
    forall k | 0 <= k < |fields|
      ensures Solid(LowerAll(fields)[k])
    {
      LowerSolid(fields[k]);
    }
  }

  lemma {:induction false} PairOccurs(low: seq<string>, i: nat)
    requires 0 < i < |low| - 1 && low[i] == "with" && "esmtps" <= low[i + 1]
    ensures Contains(Join(low, " "), " with esmtps")
  {
    hide Join;
    hide Contains;
    var x, y := low[..i], low[i + 2..];
    var mid := [low[i], low[i + 1]];
    assert low == x + (mid + y);
    JoinAppend(x, mid + y, " ");
    JoinAppend(mid, y, " ");
    JoinTwo(low[i], low[i + 1], " ");
    var more := low[i + 1][6..];
    assert low[i + 1] == "esmtps" + more;
    var b := if y == [] then more else more + " " + Join(y, " ");
    assert Join(low, " ") == Join(x, " ") + " with esmtps" + b;
    OccursIn(Join(x, " "), " with esmtps", b);
  }

  lemma {:induction false} WithWords()
    ensures Solid("with") && Solid("esmtps") && " " + "with" + " " + "esmtps" == " with esmtps"
  {
  }

  lemma {:induction false} JoinTwo(a: string, b: string, sep: string)
    ensures Join([a, b], sep) == a + sep + b
  {
  }

  // ----- the fields of the Received line ----------------------------------------------

  function WrittenHelo(m: Mail): string {
    SafeAuthValue(EmptyFallback(m.helo, "unknown"))
  }

  function WrittenAddress(m: Mail): string {
    "([" + SafeAuthValue(EmptyFallback(m.remoteIP, "unknown")) + "])"
  }

  function WrittenRecipient(m: Mail): string {
    if Trim(m.rcptTo) == "" then "" else "<" + SafeAuthValue(Trim(m.rcptTo)) + ">"
  }

  /** HELO, address, recipient or date themselves contain the words that stand for
      TLS, and would be taken for the protocol of the delivery. */
  predicate Misleads(m: Mail, date: string) {
    || ClaimsTls(Fields(WrittenHelo(m))) || ClaimsTls(Fields(WrittenAddress(m)))
    || ClaimsTls(Fields(WrittenRecipient(m))) || ClaimsTls(Fields(date))
  }

  lemma {:induction false} FromWords(helo: string, address: string)
    ensures Fields(" " + helo + " " + address) == Fields(helo) + Fields(address)
  {
    hide Fields;
    assert (" " + address)[0] == ' ' && IsSpace(' ');
    hide IsSpace;
    FieldsAppend(" " + helo, " " + address);
    FieldsAfterBlank(helo);
    FieldsAfterBlank(address);
    assert " " + helo + " " + address == " " + helo + (" " + address);
  }

  lemma {:induction false} ForWords(m: Mail)
    ensures FieldsOf(ForClause(m.rcptTo))
         == if Trim(m.rcptTo) == "" then [] else ["for"] + Fields(WrittenRecipient(m))
  {
    hide Fields;
    hide SafeAuthValue;
    hide Trim;
    if Trim(m.rcptTo) != "" {
      var rest := " " + WrittenRecipient(m);
      assert Solid("for") && rest[0] == ' ' && IsSpace(' ');
      FieldsToken("for", rest);
      FieldsAfterBlank(WrittenRecipient(m));
      assert "for" + rest == "for <" + SafeAuthValue(Trim(m.rcptTo)) + ">";
      FieldsOfOne("for" + rest);
    }
  }

  lemma {:induction false} FieldsOfOne(line: string)
    ensures FieldsOf([line]) == Fields(line)
  {
    hide Fields;
    assert [line][1..] == [];
    assert Fields(line) + [] == Fields(line);
  }

  lemma {:induction false} FieldsOfAppend(a: seq<string>, line: string)
    ensures FieldsOf(a + [line]) == FieldsOf(a) + Fields(line)
  {
    hide Fields;
    if a == [] {
      assert a + [line] == [line];
      FieldsOfOne(line);
    } else {
      assert (a + [line])[1..] == a[1..] + [line];
      FieldsOfAppend(a[1..], line);
    }
  }

  /** The fields of the Received line: the protocol comes after the host. */
  lemma {:induction false} ReceivedFields(host: string, m: Mail, date: string)
    requires host != "" && Solid(host)
    ensures FieldsOf(ReceivedLines(host, m, date))
      == ["from"] + Fields(WrittenHelo(m)) + Fields(WrittenAddress(m)) + ["by", host, "with", Protocol(m.tls) + ";"]
         + FieldsOf(ForClause(m.rcptTo)) + Fields(date)
  {
    hide Fields;
    hide SafeAuthValue;
    hide EmptyFallback;
    hide Solid;
    hide FieldsOf;
    hide ForClause;
    hide FromClause;
    hide ByClause;
    hide Protocol;
    hide ReceivedLines;
    var ip := SafeAuthValue(EmptyFallback(m.remoteIP, "unknown"));
    SplitReceived(host, m, date);
    FromFields(WrittenHelo(m), ip);
    assert " " + WrittenHelo(m) + " ([" + ip + "])" == " " + WrittenHelo(m) + " " + WrittenAddress(m);
    FromWords(WrittenHelo(m), WrittenAddress(m));
    ProtocolSolid(m.tls);
    ByFields(host, Protocol(m.tls));
    FieldsOfAppend(ForClause(m.rcptTo), date);
    var h, a := Fields(WrittenHelo(m)), Fields(WrittenAddress(m));
    assert ["from"] + (h + a) == ["from"] + h + a;
  }

  lemma {:induction false} ProtocolWords()
    ensures Protocol(true) + ";" == "ESMTPS;" && Protocol(false) + ";" == "ESMTP;"
  {
  }

  lemma {:induction false} AllSolid(lines: seq<string>)
    ensures forall k :: 0 <= k < |FieldsOf(lines)| ==> Solid(FieldsOf(lines)[k])
  {
    hide Fields;
    hide Solid;
    if lines != [] {
      AllSolid(lines[1..]);
    }
  }

  lemma {:induction false} KeyWords()
    ensures Lower("from") != "with" && Lower("by") != "with" && !("esmtps" <= Lower("by")) && Lower("for") != "with"
    ensures Lower("with") == "with" && !("esmtps" <= Lower("with"))
    ensures Lower("ESMTP;") != "with" && Lower("ESMTPS;") != "with"
    ensures "esmtps" <= Lower("ESMTPS;") && !("esmtps" <= Lower("ESMTP;"))
  {
    assert Lower("from")[0] == 'f' && Lower("by")[0] == 'b' && Lower("for")[0] == 'f';
    assert "with"[0] == 'w' && "esmtps"[0] == 'e';
    assert Lower("with")[0] == 'w' && Lower("ESMTP;")[0] == 'e' && Lower("ESMTP;")[5] == ';' && "esmtps"[5] == 's';
    assert Lower("ESMTPS;")[..6] == "esmtps" && Lower("ESMTPS;")[0] == 'e';
  }

  /** The protocol part claims TLS exactly when it says so. */
  lemma {:induction false} ProtocolClaims(host: string, tls: bool)
    ensures ClaimsTls(["by", host, "with", Protocol(tls) + ";"]) <==> tls
  {
    hide Lower;
    KeyWords();
    ProtocolWords();
    hide Protocol;
    var part := ["by", host, "with", Protocol(tls) + ";"];
    if tls {
      assert PairAt(part, 2);
    }
    forall i | PairAt(part, i)
      ensures tls
    {
      assert i == 0 || i == 1 || i == 2;
    }
  }

  /** Words in brackets do not begin a pair with what follows them, nor end one
      with what comes before. */
  lemma {:induction false} BracketedEnds(open: string, v: string, close: char)
    requires (open == "([" || open == "<") && (close == ')' || close == '>') && Solid([close])
    ensures var f := Fields(open + v + [close]); f != [] && Lower(f[|f| - 1]) != "with" && !("esmtps" <= Lower(f[0]))
  {
    hide Fields;
    var s := open + v + [close];
    LastFieldEnds(open + v, close);
    FirstFieldStarts(s);
    var f := Fields(s);
    var last, first := f[|f| - 1], f[0];
    assert Lower(last)[|last| - 1] == close && "with"[3] == 'h';
    assert Lower(first)[0] == s[0] && "esmtps"[0] == 'e';
  }

  lemma {:induction false} LastFieldEnds(s: string, c: char)
    requires !IsSpace(c)
    ensures var f := Fields(s + [c]); f != [] && f[|f| - 1] != "" && f[|f| - 1][|f[|f| - 1]| - 1] == c
    decreases |s|
  {
    hide Fields;
    hide TokenLength;
    hide IsSpace;
    var t := s + [c];
    if s == "" {
      assert t == [c] && Solid([c]);
      FieldsToken([c], "");
      FieldsBlank("");
      assert [c] + "" == [c];
    } else {
      FieldsStep(t);
      if IsSpace(t[0]) {
        assert t[1..] == s[1..] + [c];
        LastFieldEnds(s[1..], c);
      } else {
        var n := TokenLength(t);
        FieldsToken(t[..n], t[n..]);
        assert t == t[..n] + t[n..];
        if n == |t| {
          FieldsBlank("");
          assert t[n..] == "";
        } else {
          assert t[n..] == s[n..] + [c];
          LastFieldEnds(s[n..], c);
        }
      }
    }
  }

  lemma {:induction false} FirstFieldStarts(s: string)
    requires s != "" && !IsSpace(s[0])
    ensures Fields(s) != [] && Fields(s)[0] != "" && Fields(s)[0][0] == s[0]
  {
    hide Fields;
    hide TokenLength;
    hide IsSpace;
    FieldsStep(s);
    var n := TokenLength(s);
    FieldsToken(s[..n], s[n..]);
    assert s == s[..n] + s[n..];
  }

  /** What the clause for the recipient claims, and that it ends in a bracket. */
  lemma {:induction false} RecipientClaims(m: Mail)
    ensures var f := FieldsOf(ForClause(m.rcptTo));
      (ClaimsTls(f) <==> ClaimsTls(Fields(WrittenRecipient(m)))) && (f == [] || Lower(f[|f| - 1]) != "with")
  {
    hide Fields;
    hide Lower;
    hide SafeAuthValue;
    hide Trim;
    hide FieldsOf;
    hide ForClause;
    ForWords(m);
    FieldsBlank("");
    if Trim(m.rcptTo) != "" {
      var v := SafeAuthValue(Trim(m.rcptTo));
      assert WrittenRecipient(m) == "<" + v + ['>'];
      BracketedEnds("<", v, '>');
      KeyWords();
      OneClaimsNothing("for");
      ClaimAppend(["for"], Fields(WrittenRecipient(m)));
    }
  }

  /** The fields of the Received line claim TLS exactly when the protocol says so
      or one of the values does. */
  lemma {:induction false} ReceivedClaims(host: string, m: Mail, date: string)
    requires host != "" && Solid(host)
    ensures ClaimsTls(FieldsOf(ReceivedLines(host, m, date))) <==> m.tls || Misleads(m, date)
  {
    hide Fields;
    hide Lower;
    hide Solid;
    hide SafeAuthValue;
    hide EmptyFallback;
    hide FieldsOf;
    hide ForClause;
    hide ReceivedLines;
    hide ClaimsTls;
    hide Protocol;
    hide WrittenHelo;
    hide WrittenRecipient;
    var h, a, f, t := Fields(WrittenHelo(m)), Fields(WrittenAddress(m)), FieldsOf(ForClause(m.rcptTo)), Fields(date);
    var proto := ["by", host, "with", Protocol(m.tls) + ";"];
    ReceivedFields(host, m, date);
    KeyWords();
    ProtocolWords();
    OneClaimsNothing("from");
    ProtocolClaims(host, m.tls);
    RecipientClaims(m);
    AddressEnds(m);
    ClaimAppend(["from"], h);
    ClaimAppend(["from"] + h, a);
    ClaimAppend(["from"] + h + a, proto);
    ClaimAppend(["from"] + h + a + proto, f);
    ClaimAppend(["from"] + h + a + proto + f, t);
  }

  lemma {:induction false} AddressEnds(m: Mail)
    ensures var a := Fields(WrittenAddress(m)); a != [] && Lower(a[|a| - 1]) != "with" && !("esmtps" <= Lower(a[0]))
  {
    hide Fields;
    hide Lower;
    hide SafeAuthValue;
    hide EmptyFallback;
    var v := SafeAuthValue(EmptyFallback(m.remoteIP, "unknown"));
    assert WrittenAddress(m) == "([" + (v + "]") + [')'];
    BracketedEnds("([", v + "]", ')');
  }

  /** The Received line says TLS exactly when the delivery used it or one of the
      values written into the line misleads. */
  lemma {:induction false} TlsIsRecorded(d: string, m: Mail, date: string)
    requires TokenDomain(d) && NoBreak(date)
    ensures SaysTls(Parse(CleanHeader(ReceivedHeader(d, m, date)))) <==> m.tls || Misleads(m, date)
  {
    hide Parse;
    hide CleanHeader;
    hide ReceivedHeader;
    hide Contains;
    hide Lower;
    hide Join;
    hide Host;
    hide TokenDomain;
    hide NoBreak;
    hide Solid;
    hide ReceivedLines;
    hide FieldsOf;
    hide Misleads;
    hide ClaimsTls;
    ReceivedIsBlock(d, m, date);
    HostAgrees(d);
    var fields := FieldsOf(ReceivedLines(Host(d), m, date));
    ReceivedStartsFrom(Host(d), m, date);
    AllSolid(ReceivedLines(Host(d), m, date));
    JoinedClaims(fields);
    ReceivedClaims(Host(d), m, date);
  }

  lemma {:induction false} ReceivedStartsFrom(host: string, m: Mail, date: string)
    requires host != "" && Solid(host)
    ensures var f := FieldsOf(ReceivedLines(host, m, date)); f != [] && Lower(f[0]) != "with"
  {
    hide *;
    ReceivedFields(host, m, date);
    KeyWords();
  }

  // ----- when the flag is right --------------------------------------------------------

  lemma {:induction false} WordClaimsNothing(s: string)
    requires Solid(s)
    ensures !ClaimsTls(Fields(s))
  {
    hide Fields;
    hide Solid;
    hide Lower;
    FieldsBlank("");
    if s != "" {
      FieldsToken(s, "");
      assert s + "" == s;
    }
  }

  /** Values that are single words do not mislead; a HELO without blanks is the
      one of them a client chooses freely. */
  lemma {:induction false} WordsDoNotMislead(m: Mail, date: string)
    requires WordsOnly(m) && PlainDate(date)
    ensures !Misleads(m, date)
  {
    hide Fields;
    hide Trim;
    hide SafeAuthValue;
    hide EmptyFallback;
    hide Lower;
    assert Solid("([") && Solid("])") && Solid("<") && Solid(">") && Solid("");
    hide Solid;
    SolidAppend("([", SafeAuthValue(EmptyFallback(m.remoteIP, "unknown")));
    SolidAppend("([" + SafeAuthValue(EmptyFallback(m.remoteIP, "unknown")), "])");
    SolidAppend("<", SafeAuthValue(Trim(m.rcptTo)));
    SolidAppend("<" + SafeAuthValue(Trim(m.rcptTo)), ">");
    WordClaimsNothing(WrittenHelo(m));
    WordClaimsNothing(WrittenAddress(m));
    WordClaimsNothing(WrittenRecipient(m));
  }

  /** A client without TLS that greets with "x with ESMTPS" is recorded as one
      that used it. */
  lemma {:induction false} HeloCanClaimTls(d: string, m: Mail, date: string)
    requires TokenDomain(d) && NoBreak(date)
    requires m.helo == "x with ESMTPS" && !m.tls
    ensures SaysTls(Parse(CleanHeader(ReceivedHeader(d, m, date))))
  {
    hide *;
    GreetingIsWritten(m);
    TlsIsRecorded(d, m, date);
    GreetingMisleads(m, date);
  }

  lemma {:induction false} GreetingIsWritten(m: Mail)
    requires m.helo == "x with ESMTPS"
    ensures WrittenHelo(m) == "x with ESMTPS"
  {
    hide Trim;
    SafeKeeps("x with ESMTPS");
  }

  lemma {:induction false} GreetingMisleads(m: Mail, date: string)
    requires WrittenHelo(m) == "x with ESMTPS"
    ensures Misleads(m, date)
  {
    hide Fields;
    hide Lower;
    hide WrittenHelo;
    GreetingFields();
    GreetingPair();
  }

  lemma {:induction false} GreetingWords()
    ensures Solid("x") && Solid("with") && Solid("ESMTPS")
    ensures "x" + (" " + ("with" + (" " + "ESMTPS"))) == "x with ESMTPS"
  {
  }

  lemma {:induction false} GreetingFields()
    ensures Fields("x with ESMTPS") == ["x", "with", "ESMTPS"]
  {
    hide *;
    GreetingWords();
    ThreeWords("x", "with", "ESMTPS");
  }

  lemma {:induction false} GreetingPair()
    ensures ClaimsTls(["x", "with", "ESMTPS"])
  {
    assert Lower("with") == "with" && Lower("ESMTPS") == "esmtps";
    assert PairAt(["x", "with", "ESMTPS"], 1);
  }
}
