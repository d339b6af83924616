/** Which headers are this host's, told by their words, and exactly what stripping
    leaves of a message. */
module HeaderText {
  import opened Text
  import opened TextLemmas
  import opened HeaderSurgery
  import opened HeaderLemmas
  import opened ReceiverHeaders
  import opened OwnHeaderLemmas
  import opened HeaderRoundTrip
  import opened HeaderTheorems
  import opened HeaderTls

  /** The name of a header block, in lower case. */
  function NameIn(block: string): string {
    var i := IndexOf(block, ':');
    Lower(Trim(if i == -1 then block else block[..i]))
  }

  /** The words of its value. */
  function WordsIn(block: string): seq<string> {
    var i := IndexOf(block, ':');
    Fields(if i == -1 then "" else block[i + 1..])
  }

  /** A result header of the host: any X-Sender-Report line; Authentication-Results
      whose first word starts with the host and a semicolon; Received-SPF with a word
      that names the host as receiver. */
  predicate Ours(block: string, host: string) {
    var words := WordsIn(block);
    || "x-sender-report-" <= NameIn(block)
    || (NameIn(block) == "authentication-results" && words != [] && host + ";" <= words[0])
    || (NameIn(block) == "received-spf" && exists i :: 0 <= i < |words| && Contains(words[i], "receiver=" + host))
  }

  /** The Received header of the host: by, the host and with stand next to each other
      among its words, neither first nor last. */
  predicate OurReceived(block: string, host: string) {
    var words := WordsIn(block);
    && NameIn(block) == "received"
    && exists i :: 0 < i < |words| - 3 && words[i] == "by" && words[i + 1] == host && words[i + 2] == "with"
  }

  /** A Received header that tells of TLS. */
  predicate TellsTls(block: string) {
    exists i :: 0 < i < |WordsIn(block)| && PairAt(WordsIn(block), i)
  }

  // ----- words and joined words -------------------------------------------------------

  /** A text without blanks stands in joined words exactly when it stands in one. */
  lemma {:induction false} InOneWord(words: seq<string>, sub: string)
    requires sub != "" && Solid(sub)
    ensures Contains(Join(words, " "), sub) <==> exists i :: 0 <= i < |words| && Contains(words[i], sub)
  {
    if words == [] {
    } else if |words| == 1 {
      assert Join(words, " ") == words[0];
    } else {
      var rest := Join(words[1..], " ");
      InOneWord(words[1..], sub);
      hide Join;
      SplitAtBlank(words[0], rest, sub);
      JoinAppend([words[0]], words[1..], " ");
      JoinOne(words[0], " ");
      assert words == [words[0]] + words[1..];
      hide Contains;
      assert forall i :: 0 < i < |words| ==> words[i] == words[1..][i - 1];
      assert forall i :: 0 <= i < |words[1..]| ==> words[1..][i] == words[i + 1];
    }
  }

  lemma {:induction false} SplitAtBlank(a: string, b: string, sub: string)
    requires sub != "" && Solid(sub)
    ensures Contains(a + " " + b, sub) <==> Contains(a, sub) || Contains(b, sub)
  {
    var s := a + " " + b;
    assert IsSpace(' ') && s[|a|] == ' ';
    assert forall k :: 0 <= k < |sub| ==> sub[k] != ' ';
    hide IsSpace;
    forall p | OccursAt(s, sub, p)
      ensures Contains(a, sub) || Contains(b, sub)
    {
      assert forall j :: p <= j < p + |sub| ==> s[j] == sub[j - p];
      if p + |sub| <= |a| {
        assert a[p..p + |sub|] == s[p..p + |sub|];
        assert OccursAt(a, sub, p);
      } else {
        assert p > |a|;
        var q := p - |a| - 1;
        assert b[q..q + |sub|] == s[p..p + |sub|];
        assert OccursAt(b, sub, q);
      }
    }
    forall p | OccursAt(a, sub, p)
      ensures Contains(s, sub)
    {
      assert s[p..p + |sub|] == a[p..p + |sub|];
      assert OccursAt(s, sub, p);
    }
    forall p | OccursAt(b, sub, p)
      ensures Contains(s, sub)
    {
      var q := p + |a| + 1;
      assert s[q..q + |sub|] == b[p..p + |sub|];
      assert OccursAt(s, sub, q);
    }
  }

  lemma {:induction false} FirstWordLeads(words: seq<string>, next: string)
    requires next != "" && Solid(next)
    ensures next <= Join(words, " ") <==> words != [] && next <= words[0]
  {
    if next <= Join(words, " ") {
      PrefixField(words, next);
    }
  }

  /** A word and a blank in front of joined words: it is the first of them. */
  lemma {:induction false} WordFirst(words: seq<string>, w: string, more: string)
    requires forall k :: 0 <= k < |words| ==> Solid(words[k])
    requires Solid(w) && w + " " + more <= Join(words, " ")
    ensures |words| > 1 && words[0] == w && more <= Join(words[1..], " ")
  {
    var s, lead := Join(words, " "), w + " " + more;
    assert s[|w|] == lead[|w|] == ' ' && IsSpace(' ');
    var t := words[0];
    assert forall k :: 0 <= k < |t| ==> t[k] != ' ';
    assert forall k :: 0 <= k < |w| ==> lead[k] != ' ';
    hide IsSpace;
    assert |t| <= |w| && |words| > 1;
    var rest := Join(words[1..], " ");
    assert s == t + " " + rest && s[|t|] == ' ';
    assert |t| == |w| && t == s[..|t|] == lead[..|t|] == w;
    assert more == lead[|w| + 1..] == s[|w| + 1..|lead|];
  }

  lemma {:induction false} ThreeFirst(words: seq<string>, a: string, b: string, c: string)
    requires forall k :: 0 <= k < |words| ==> Solid(words[k])
    requires Solid(a) && Solid(b) && Solid(c) && a + " " + (b + " " + (c + " ")) <= Join(words, " ")
    ensures |words| > 3 && words[0] == a && words[1] == b && words[2] == c
  {
    hide Join;
    hide Solid;
    WordFirst(words, a, b + " " + (c + " "));
    WordFirst(words[1..], b, c + " ");
    assert c + " " == c + " " + "";
    WordFirst(words[1..][1..], c, "");
  }

  /** Three words with blanks around them stand in joined words only as three words
      that are neither first nor last. */
  lemma {:induction false} ThreeInside(words: seq<string>, a: string, b: string, c: string, p: int) returns (i: nat)
    requires forall k :: 0 <= k < |words| ==> Solid(words[k])
    requires Solid(a) && Solid(b) && Solid(c)
    requires OccursAt(Join(words, " "), " " + (a + " " + (b + " " + (c + " "))), p)
    ensures 0 < i < |words| - 3 && words[i] == a && words[i + 1] == b && words[i + 2] == c
    decreases |words|
  {
    var s, sub := Join(words, " "), " " + (a + " " + (b + " " + (c + " ")));
    BlankAt(words, sub, p);
    var t, rest := words[0], Join(words[1..], " ");
    assert s == t + " " + rest;
    hide Join;
    hide Solid;
    assert s[p..p + |sub|] == sub;
    if p == |t| {
      assert rest[..|sub| - 1] == s[p..p + |sub|][1..] == sub[1..];
      assert sub[1..] == a + " " + (b + " " + (c + " "));
      ThreeFirst(words[1..], a, b, c);
      i := 1;
    } else {
      assert rest[p - |t| - 1..p - |t| - 1 + |sub|] == s[p..p + |sub|];
      var j := ThreeInside(words[1..], a, b, c, p - |t| - 1);
      i := j + 1;
    }
  }

  /** A text that starts with a blank does not begin inside the first word. */
  lemma {:induction false} BlankAt(words: seq<string>, sub: string, p: int)
    requires (forall k :: 0 <= k < |words| ==> Solid(words[k])) && sub != "" && sub[0] == ' '
    requires OccursAt(Join(words, " "), sub, p)
    ensures |words| > 1 && p >= |words[0]|
  {
    var s := Join(words, " ");
    assert s[p] == s[p..p + |sub|][0] == ' ' && IsSpace(' ');
    assert forall k :: 0 <= k < |words[0]| ==> words[0][k] != ' ';
    assert words[0] <= s;
  }

  /** By, the host and with, among the words and in the joined text. */
  lemma {:induction false} HostAmongWords(words: seq<string>, host: string)
    requires (forall k :: 0 <= k < |words| ==> Solid(words[k])) && Solid(host)
    ensures Contains(Join(words, " "), " by " + host + " with ")
       <==> exists i :: 0 < i < |words| - 3 && words[i] == "by" && words[i + 1] == host && words[i + 2] == "with"
  {
    assert Solid("by") && Solid("with");
    hide Join;
    hide Solid;
    hide OccursAt;
    var sub := " by " + host + " with ";
    assert sub == " " + ("by" + " " + (host + " " + ("with" + " ")));
    forall p | OccursAt(Join(words, " "), sub, p)
      ensures exists i :: 0 < i < |words| - 3 && words[i] == "by" && words[i + 1] == host && words[i + 2] == "with"
    {
      var i := ThreeInside(words, "by", host, "with", p);
    }
    hide Contains;
    forall i | 0 < i < |words| - 3 && words[i] == "by" && words[i + 1] == host && words[i + 2] == "with"
      ensures Contains(Join(words, " "), sub)
    {
      var x, y := words[..i], words[i + 3..];
      assert words == x + ["by", host, "with"] + y;
      HostInside(x, host, y);
    }
  }

  // ----- recognition --------------------------------------------------------------------

  /** What the loop of stripping tests, told by the words of a block. */
  lemma {:induction false} TestsAreExact(block: string, host: string)
    requires host != "" && Solid(host)
    ensures Ours(block, host) <==> OwnResult(Parse(block), host)
    ensures OurReceived(block, host) <==> OwnReceived(Parse(block), host)
    ensures TellsTls(block) <==> SaysTls(Parse(block))
  {
    hide Trim;
    hide Lower;
    hide Join;
    hide Contains;
    var words, b := WordsIn(block), Parse(block);
    assert forall k :: 0 <= k < |words| ==> Solid(words[k]);
    assert b.name == NameIn(block) && b.flat == Join(words, " ");
    hide Fields;
    hide Parse;
    hide NameIn;
    hide WordsIn;
    TailIsSolid(host);
    hide Solid;
    FirstWordLeads(words, host + ";");
    InOneWord(words, "receiver=" + host);
    HostAmongWords(words, host);
    JoinedSays(words);
  }

  lemma {:induction false} TailIsSolid(host: string)
    requires Solid(host)
    ensures Solid(host + ";") && Solid("receiver=" + host)
  {
    assert Solid(";") && Solid("receiver=");
    SolidAppend(host, ";");
    SolidAppend("receiver=", host);
  }

  // ----- what stripping leaves ------------------------------------------------------------

  /** The blocks that are no result header of the host, in order. */
  function NotOurs(blocks: seq<string>, host: string): seq<string> {
    if |blocks| == 0 then []
    else
      var n := |blocks| - 1;
      NotOurs(blocks[..n], host) + if Ours(blocks[n], host) then [] else [blocks[n]]
  }

  lemma {:induction false} ForeignAppend(a: seq<string>, b: seq<string>, host: string)
    ensures Foreign(a + b, host) == Foreign(a, host) + Foreign(b, host)
  {
    hide OwnResult;
    hide Parse;
    if a == [] {
      assert a + b == b;
    } else {
      assert (a + b)[1..] == a[1..] + b;
      ForeignAppend(a[1..], b, host);
    }
  }

  lemma {:induction false} NotOursAreForeign(blocks: seq<string>, host: string)
    requires host != "" && Solid(host)
    ensures NotOurs(blocks, host) == Foreign(blocks, host)
  {
    hide OwnResult;
    hide Parse;
    hide Ours;
    hide Solid;
    if blocks != [] {
      var n := |blocks| - 1;
      NotOursAreForeign(blocks[..n], host);
      TestsAreExact(blocks[n], host);
      ForeignAppend(blocks[..n], [blocks[n]], host);
      assert blocks[..n] + [blocks[n]] == blocks;
      assert Foreign([blocks[n]], host) == if OwnResult(Parse(blocks[n]), host) then [] else [blocks[n]];
    }
  }

  /** Before the Received header of the host is met. */
  lemma {:induction false} SiftBefore(s: Sifted, blocks: seq<string>, host: string)
    requires forall i :: 0 <= i < |blocks| ==> !OwnReceived(Parse(blocks[i]), host)
    ensures Sift(s, blocks, host) == s.(kept := s.kept + Foreign(blocks, host))
    decreases |blocks|
  {
    hide Parse;
    hide OwnResult;
    hide OwnReceived;
    hide SaysTls;
    if blocks == [] {
      assert s.kept + [] == s.kept;
    } else {
      var t := SiftOne(s, blocks[0], host);
      SiftBefore(t, blocks[1..], host);
      assert t.kept + Foreign(blocks[1..], host) == s.kept + Foreign(blocks, host);
    }
  }

  /** Position k is the first Received header of the host, or the end if there is none. */
  predicate FirstReceived(blocks: seq<string>, host: string, k: nat) {
    && k <= |blocks| && (forall i :: 0 <= i < k ==> !OurReceived(blocks[i], host))
    && (k < |blocks| ==> OurReceived(blocks[k], host))
  }

  /** Stripping any message: its header blocks without the result headers of the host
      and without its first Received header stay as they are, in order, with the
      body; the flag is what that Received header tells. */
  lemma {:induction false} StripExactly(raw: string, host: string, k: nat)
    requires host != "" && Solid(host) && FirstReceived(Blocks(CutBlank(ToLF(raw)).head), host, k)
    ensures var p := CutBlank(ToLF(raw)); var blocks := Blocks(p.head);
      var kept := NotOurs(blocks[..k], host) + if k < |blocks| then NotOurs(blocks[k + 1..], host) else [];
      Strip(raw, host) == Stripped(
        ToCRLF(Join(kept, "\n") + (if p.hasBody then "\n\n" + p.body else "")), k < |blocks| && TellsTls(blocks[k]))
  {
    hide ToLF;
    hide ToCRLF;
    hide CutBlank;
    hide Blocks;
    hide Join;
    hide NotOurs;
    hide TellsTls;
    hide OurReceived;
    hide Solid;
    var blocks := Blocks(CutBlank(ToLF(raw)).head);
    SiftExactly(blocks, host, k);
  }

  lemma {:induction false} SiftExactly(blocks: seq<string>, host: string, k: nat)
    requires host != "" && Solid(host) && FirstReceived(blocks, host, k)
    ensures var s := Sift(Sifted([], false, false), blocks, host);
      && s.kept == NotOurs(blocks[..k], host) + (if k < |blocks| then NotOurs(blocks[k + 1..], host) else [])
      && s.tls == (k < |blocks| && TellsTls(blocks[k]))
  {
    hide Parse;
    hide OwnResult;
    hide SaysTls;
    hide NotOurs;
    hide TellsTls;
    hide OurReceived;
    hide Ours;
    hide Sift;
    var init, a := Sifted([], false, false), blocks[..k];
    forall i | 0 <= i < k
      ensures !OwnReceived(Parse(a[i]), host)
    {
      TestsAreExact(blocks[i], host);
    }
    SiftBefore(init, a, host);
    NotOursAreForeign(a, host);
    assert [] + Foreign(a, host) == Foreign(a, host);
    if k < |blocks| {
      var r, c := blocks[k], blocks[k + 1..];
      TestsAreExact(r, host);
      NotOursAreForeign(c, host);
      OwnReceivedIsNoResult(Parse(r), host);
      assert blocks == a + ([r] + c) && ([r] + c)[1..] == c;
      SiftConcat(init, a, [r] + c, host);
      var s := Sifted(Foreign(a, host), true, SaysTls(Parse(r)));
      SiftFirstOf(Sifted(Foreign(a, host), false, false), r, c, host);
      SiftForeign(s, c, host);
    } else {
      assert blocks == a && a + [] == a;
    }
  }

  lemma {:induction false} SiftFirstOf(s: Sifted, r: string, c: seq<string>, host: string)
    requires !s.received && !OwnResult(Parse(r), host) && OwnReceived(Parse(r), host)
    ensures Sift(s, [r] + c, host) == Sift(Sifted(s.kept, true, SaysTls(Parse(r))), c, host)
  {
    hide Parse;
    hide OwnResult;
    hide OwnReceived;
    hide SaysTls;
    assert ([r] + c)[1..] == c;
  }

  // ----- the round trip, told by words --------------------------------------------------

  /** Stripping an enriched message gives it back if and only if it has CRLF line ends
      and a blank line, and its header part is empty or starts with an unfolded line,
      is not all blanks, and holds no result header of the host. */
  lemma {:induction false} RestoredExactly(d: string, m: Mail, res: AuthResults, date: string, raw: string)
    requires TokenDomain(d) && NoBreak(date)
    ensures var p := CutBlank(ToLF(raw));
      Strip(Enriched(d, m, res, date, raw), Host(d)).clean == raw
      <==> && NoBareLF(raw) && p.hasBody
           && (p.head == "" ||
                (&& Trim(p.head) != "" && p.head[0] != ' ' && p.head[0] != '\t' && p.head[0] != '\n'
                 && forall b :: b in Blocks(p.head) ==> !Ours(b, Host(d))))
  {
    hide Strip;
    hide Enriched;
    hide ToLF;
    hide CutBlank;
    hide Blocks;
    hide Parse;
    hide Ours;
    hide OwnResult;
    hide Trim;
    hide Host;
    hide TokenDomain;
    hide NoBareLF;
    hide NoBreak;
    hide Solid;
    StripUndoesPrepend(d, m, res, date, raw);
    HostAgrees(d);
    var bs := Blocks(CutBlank(ToLF(raw)).head);
    forall i | 0 <= i < |bs|
      ensures Ours(bs[i], Host(d)) <==> OwnResult(Parse(bs[i]), Host(d))
    {
      TestsAreExact(bs[i], Host(d));
    }
  }

  /** The Authentication-Results of another host are not this host's. */
  lemma {:induction false} OthersStay(h: string, v: string, host: string)
    requires h != "" && Solid(h) && ';' !in h && host != "" && Solid(host) && ';' !in host && h != host
    ensures !Ours("Authentication-Results" + ":" + (" " + (h + (";" + (" " + v)))), host)
  {
    hide *;
    AuthResultsName();
    var value := " " + (h + (";" + (" " + v)));
    OtherWords(h, v);
    OtherName(value);
    OtherToken(h, host);
    NotOurName("Authentication-Results" + ":" + value, h + ";", host);
  }

  lemma {:induction false} OtherWords(h: string, v: string)
    requires h != "" && Solid(h)
    ensures var f := Fields(" " + (h + (";" + (" " + v)))); f != [] && f[0] == h + ";"
  {
    assert Solid(";") && IsSpace(' ');
    hide Fields;
    hide IsSpace;
    SolidAppend(h, ";");
    hide Solid;
    FieldsAfterBlank(h + (";" + (" " + v)));
    FieldsToken(h + ";", " " + v);
    assert h + ";" + (" " + v) == h + (";" + (" " + v));
  }

  lemma {:induction false} OtherName(value: string)
    requires Solid("Authentication-Results") && Lower("Authentication-Results") == "authentication-results"
    ensures var b := "Authentication-Results" + ":" + value;
      NameIn(b) == "authentication-results" && WordsIn(b) == Fields(value)
  {
    hide Trim;
    hide Fields;
    hide Solid;
    hide Lower;
    hide IndexOf;
    var name := "Authentication-Results";
    assert ':' !in name;
    ColonAt(name, value);
    TrimSolid(name);
    var b := name + ":" + value;
    assert b[..|name|] == name && b[|name| + 1..] == value;
  }

  lemma {:induction false} OtherToken(h: string, host: string)
    requires ';' !in h && ';' !in host && h != host
    ensures !(host + ";" <= h + ";")
  {
    var a, b := host + ";", h + ";";
    assert a[|host|] == ';' && a[..|host|] == host;
    if |host| < |h| {
      assert b[|host|] == h[|host|] && h[|host|] in h;
    } else if |host| == |h| {
      assert b[..|host|] == h;
    }
  }

  lemma {:induction false} NotOurName(block: string, first: string, host: string)
    requires NameIn(block) == "authentication-results" && WordsIn(block) != [] && WordsIn(block)[0] == first
    requires !(host + ";" <= first)
    ensures !Ours(block, host)
  {
    hide NameIn;
    hide WordsIn;
    hide Contains;
    assert "authentication-results"[0] == 'a' && "received-spf"[0] == 'r' && "x-sender-report-"[0] == 'x';
  }
}
