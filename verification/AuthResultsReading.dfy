/** How the analyzer reads the Authentication-Results headers, and when it reads
    what the receiver wrote. */
module AuthResultsReading {
  import opened Text
  import opened TextLemmas
  import opened ReceiverHeaders
  import opened OwnHeaderLemmas
  import opened HeaderTls
  import SpfEvaluation

  predicate IsLetter(c: char) {
    'a' <= c <= 'z' || 'A' <= c <= 'Z'
  }

  /** What may stand in front of a key. */
  predicate IsSeparator(c: char) {
    c == ';' || c == ' ' || c == '\t' || c == '\n' || c == '\U{c}' || c == '\r'
  }

  function LetterRun(s: string): string {
    if s == "" || !IsLetter(s[0]) then "" else [s[0]] + LetterRun(s[1..])
  }

  /** The key with its equals sign and a letter stand at the front of s. */
  predicate KeyHere(s: string, key: string) {
    key + "=" <= s && |s| > |key| + 1 && IsLetter(s[|key| + 1])
  }

  /** First value of the key; start says whether s is at a place for a key. */
  function Scan(start: bool, s: string, key: string): string
    decreases |s|
  {
    if start && KeyHere(s, key) then Lower(LetterRun(s[|key| + 1..]))
    else if s == "" then ""
    else Scan(IsSeparator(s[0]), s[1..], key)
  }

  function ParseAuthResult(s: string, key: string): string {
    Scan(true, s, key)
  }

  /** All Authentication-Results values of a message, as the analyzer joins them. */
  function Joined(values: seq<string>): string {
    Lower(Join(values, " ; "))
  }

  /** The value of the header this receiver writes. */
  function OwnValue(d: string, res: AuthResults): string {
    EmptyFallback(d, DEFAULT_HOST) + ";" + ResultTags(res)
  }

  /** The second line of a delivery is that value under its name. */
  lemma {:induction false} OwnValueIsWritten(d: string, m: Mail, res: AuthResults, date: string)
    ensures var hs := OwnHeaders(d, m, res, date);
      |hs| == 6 && hs[1] == "Authentication-Results" + ":" + (" " + OwnValue(d, res))
  {
    hide ReceivedHeader;
    hide ReceivedSpfHeader;
    hide DetailHeader;
    hide ResultTags;
    hide EmptyFallback;
    var host, tags := EmptyFallback(d, DEFAULT_HOST), ResultTags(res);
    assert " " + (host + ";") + tags == " " + (host + ";" + tags);
  }

  // ----- reading a text part by part ----------------------------------------------------

  predicate IsKey(key: string) {
    key != "" && forall i :: 0 <= i < |key| ==> IsLetter(key[i])
  }

  function FirstOf(a: string, b: string): string {
    if a != "" then a else b
  }

  lemma {:induction false} RunStops(a: string, c: char, more: string)
    requires !IsLetter(c)
    ensures LetterRun(a + [c] + more) == LetterRun(a)
  {
    var s := a + [c] + more;
    if a == "" {
      assert s[0] == c;
    } else {
      assert s[0] == a[0] && s[1..] == a[1..] + [c] + more;
      RunStops(a[1..], c, more);
    }
  }

  /** A separator ends what a key and its value can reach. */
  lemma {:induction false} KeyBefore(a: string, c: char, more: string, key: string)
    requires IsKey(key) && IsSeparator(c)
    ensures KeyHere(a + [c] + more, key) <==> KeyHere(a, key)
    ensures KeyHere(a, key) ==>
      var n := |key| + 1;
      n < |a| && LetterRun((a + [c] + more)[n..]) == LetterRun(a[n..]) && LetterRun(a[n..]) != ""
  {
    var s, k := a + [c] + more, key + "=";
    assert s[|a|] == c;
    assert forall i :: 0 <= i < |k| ==> k[i] != c;
    assert |a| >= |k| ==> s[..|k|] == a[..|k|];
    if KeyHere(a, key) {
      assert s[|k|..] == a[|k|..] + [c] + more;
      RunStops(a[|k|..], c, more);
    }
  }

  lemma {:induction false} ScanStep(start: bool, s: string, key: string)
    ensures start && KeyHere(s, key) ==> Scan(start, s, key) == Lower(LetterRun(s[|key| + 1..]))
    ensures !(start && KeyHere(s, key)) && s != "" ==> Scan(start, s, key) == Scan(IsSeparator(s[0]), s[1..], key)
    ensures !KeyHere("", key) && Scan(start, "", key) == ""
  {
  }

  /** What is read from a text with a separator in it is what is read before the
      separator, or else what is read after it. */
  lemma {:induction false} ReadingSplits(start: bool, a: string, c: char, more: string, key: string)
    requires IsKey(key) && IsSeparator(c)
    ensures Scan(start, a + [c] + more, key) == FirstOf(Scan(start, a, key), Scan(true, more, key))
    decreases |a|
  {
    hide Scan;
    hide KeyHere;
    hide LetterRun;
    hide IsKey;
    hide Lower;
    var s := a + [c] + more;
    ScanStep(start, a, key);
    ScanStep(start, s, key);
    KeyBefore(a, c, more, key);
    if start && KeyHere(a, key) {
      LowerKeepsLength(LetterRun(a[|key| + 1..]));
    } else if a == "" {
      assert s[0] == c && s[1..] == more;
    } else {
      assert s[0] == a[0] && s[1..] == a[1..] + [c] + more;
      ReadingSplits(IsSeparator(a[0]), a[1..], c, more, key);
    }
  }

  lemma {:induction false} LowerKeepsLength(s: string)
    ensures |Lower(s)| == |s|
  {
  }

  /** What is read from words that are one blank apart: the first value found. */
  function FirstValue(words: seq<string>, key: string): string {
    if |words| == 0 then "" else FirstOf(Scan(true, words[0], key), FirstValue(words[1..], key))
  }

  lemma {:induction false} WordsAreRead(words: seq<string>, more: string, key: string)
    requires IsKey(key) && words != [] && (more == "" || more[0] == ' ')
    ensures Scan(true, Join(words, " ") + more, key)
         == FirstOf(FirstValue(words, key), if more == "" then "" else Scan(true, more[1..], key))
  {
    hide Scan;
    hide IsKey;
    if |words| == 1 {
      assert FirstValue(words, key) == Scan(true, words[0], key);
      if more == "" {
        assert words[0] + more == words[0];
      } else {
        assert words[0] + more == words[0] + [' '] + more[1..];
        ReadingSplits(true, words[0], ' ', more[1..], key);
      }
    } else {
      WordsAreRead(words[1..], more, key);
      var rest := Join(words[1..], " ") + more;
      assert Join(words, " ") + more == words[0] + [' '] + rest;
      ReadingSplits(true, words[0], ' ', rest, key);
    }
  }

  // ----- reading one word ----------------------------------------------------------------

  predicate LowerWord(r: string) {
    r != "" && forall i :: 0 <= i < |r| ==> 'a' <= r[i] <= 'z'
  }

  lemma {:induction false} LowerIs(r: string)
    requires LowerWord(r)
    ensures Lower(r) == r
  {
  }

  lemma {:induction false} RunIs(r: string)
    requires forall i :: 0 <= i < |r| ==> IsLetter(r[i])
    ensures LetterRun(r) == r
  {
    if r != "" {
      RunIs(r[1..]);
    }
  }

  /** A key is read with the word behind it. */
  lemma {:induction false} OwnKey(key: string, r: string)
    requires LowerWord(r)
    ensures Scan(true, key + "=" + r, key) == r
  {
    var s := key + "=" + r;
    assert s[..|key| + 1] == key + "=" && s[|key| + 1] == r[0];
    assert s[|key| + 1..] == r;
    RunIs(r);
    LowerIs(r);
  }

  lemma {:induction false} NothingInside(w: string, v: string, key: string)
    requires forall i :: 0 <= i < |w| ==> !IsSeparator(w[i])
    ensures Scan(false, w + v, key) == Scan(false, v, key)
  {
    hide KeyHere;
    if w == "" {
      assert w + v == v;
    } else {
      assert (w + v)[1..] == w[1..] + v && (w + v)[0] == w[0];
      NothingInside(w[1..], v, key);
    }
  }

  /** Behind another tag only what follows a separator is read. */
  lemma {:induction false} OtherTag(tag: string, v: string, key: string, i: nat)
    requires i < |tag| && i < |key| && tag[i] != key[i]
    requires forall j :: 0 <= j < |tag| ==> !IsSeparator(tag[j])
    ensures Scan(true, tag + v, key) == Scan(false, v, key)
  {
    var s := tag + v;
    assert s[i] == tag[i] && (key + "=")[i] == key[i];
    assert !KeyHere(s, key);
    hide KeyHere;
    ScanStep(true, s, key);
    ScanStep(false, s, key);
    NothingInside(tag, v, key);
  }

  lemma {:induction false} OtherWord(tag: string, r: string, key: string, i: nat)
    requires i < |tag| && i < |key| && tag[i] != key[i] && LowerWord(r)
    requires forall j :: 0 <= j < |tag| ==> !IsSeparator(tag[j])
    ensures Scan(true, tag + r, key) == ""
  {
    OtherTag(tag, r, key, i);
    NothingInside(r, "", key);
    assert r + "" == r;
  }

  lemma {:induction false} SemicolonAtEnd(w: string, key: string)
    requires IsKey(key)
    ensures Scan(true, w + ";", key) == Scan(true, w, key)
  {
    hide IsKey;
    ReadingSplits(true, w, ';', "", key);
    assert w + [';'] + "" == w + ";";
    ScanStep(true, "", key);
    hide Scan;
  }

  // ----- the words this receiver writes ----------------------------------------------------

  /** A value as the receiver writes it and the analyzer sees it. */
  function Shown(v: string): string {
    Lower(SafeAuthValue(EmptyFallback(v, "unknown")))
  }

  /** What a domain tells for a key: the value of the first key behind one of its
      blanks. */
  function ToldBy(domain: string, key: string): string {
    Scan(false, Shown(domain), key)
  }

  function ToldByHost(d: string, key: string): string {
    Scan(true, Lower(EmptyFallback(d, DEFAULT_HOST)), key)
  }

  /** Results are single words, as SPF, DKIM and DMARC name them. */
  predicate PlainResults(res: AuthResults) {
    LowerWord(res.spf) && LowerWord(res.dkim) && LowerWord(res.dmarc)
  }

  function OwnWords(d: string, res: AuthResults): seq<string> {
    [ Lower(EmptyFallback(d, DEFAULT_HOST)) + ";",
      "spf=" + res.spf,
      "smtp.mailfrom=" + Shown(res.spfDomain) + ";",
      "dkim=" + res.dkim,
      "header.d=" + Shown(res.dkimDomain) + ";",
      "dmarc=" + res.dmarc,
      "header.from=" + Shown(res.fromDomain) ]
  }

  lemma {:induction false} TaggedWord(tag: string, r: string)
    requires LowerWord(r) && Lower(tag) == tag
    ensures Lower(Tagged(tag, r)) == tag + r
  {
    hide Lower;
    SafeWord(r);
    LowerAppend(tag, r);
    LowerIs(r);
  }

  lemma {:induction false} SafeWord(r: string)
    requires LowerWord(r)
    ensures SafeAuthValue(r) == r
  {
    forall i | 0 <= i < |r|
      ensures !IsSpace(r[i]) && r[i] != ';'
    {
    }
    SafeToken(r);
  }

  lemma {:induction false} TaggedDomain(tag: string, v: string, end: string)
    requires Lower(tag) == tag && Lower(end) == end
    ensures Lower(Tagged(tag, EmptyFallback(v, "unknown")) + end) == tag + Shown(v) + end
  {
    hide Lower;
    hide SafeAuthValue;
    hide EmptyFallback;
    LowerAppend(tag + SafeAuthValue(EmptyFallback(v, "unknown")), end);
    LowerAppend(tag, SafeAuthValue(EmptyFallback(v, "unknown")));
  }

  lemma {:induction false} Tags()
    ensures Lower("spf=") == "spf=" && Lower("dkim=") == "dkim=" && Lower("dmarc=") == "dmarc="
    ensures Lower("smtp.mailfrom=") == "smtp.mailfrom=" && Lower("header.d=") == "header.d="
    ensures Lower("header.from=") == "header.from=" && Lower(";") == ";" && Lower("") == ""
  {
  }

  /** The result words in lower case. */
  lemma {:induction false} LowerResults(res: AuthResults)
    requires PlainResults(res)
    ensures var w := ResultWords(res);
      && |w| == 6
      && Lower(w[0]) == "spf=" + res.spf && Lower(w[2]) == "dkim=" + res.dkim && Lower(w[4]) == "dmarc=" + res.dmarc
      && Lower(w[1]) == "smtp.mailfrom=" + Shown(res.spfDomain) + ";"
      && Lower(w[3]) == "header.d=" + Shown(res.dkimDomain) + ";"
      && Lower(w[5]) == "header.from=" + Shown(res.fromDomain)
  {
    hide Lower;
    hide SafeAuthValue;
    hide EmptyFallback;
    hide LowerWord;
    hide Shown;
    hide Tagged;
    Tags();
    TaggedWord("spf=", res.spf);
    TaggedWord("dkim=", res.dkim);
    TaggedWord("dmarc=", res.dmarc);
    LastDomain(res.fromDomain);
    TaggedDomain("smtp.mailfrom=", res.spfDomain, ";");
    TaggedDomain("header.d=", res.dkimDomain, ";");
  }

  /** The value in lower case is the own words, one blank apart. */
  lemma {:induction false} OwnValueIs(d: string, res: AuthResults)
    requires PlainResults(res)
    ensures Lower(OwnValue(d, res)) == Join(OwnWords(d, res), " ")
  {
    hide Lower;
    hide EmptyFallback;
    hide Join;
    hide PlainResults;
    hide Shown;
    hide ResultWords;
    var host := EmptyFallback(d, DEFAULT_HOST);
    var words := [host + ";"] + ResultWords(res);
    JoinAppend([host + ";"], ResultWords(res), " ");
    JoinOne(host + ";", " ");
    LowerResults(res);
    assert OwnValue(d, res) == Join(words, " ");
    LowerJoin(words);
    Tags();
    LowerAppend(host, ";");
    assert LowerAll(words) == OwnWords(d, res);
  }

  lemma {:induction false} LastDomain(v: string)
    ensures Lower(Tagged("header.from=", EmptyFallback(v, "unknown"))) == "header.from=" + Shown(v)
  {
    hide Lower;
    hide SafeAuthValue;
    hide EmptyFallback;
    Tags();
    LowerAppend("header.from=", SafeAuthValue(EmptyFallback(v, "unknown")));
  }

  lemma {:induction false} NoSeparators()
    ensures forall t :: t in {"spf=", "dkim=", "dmarc=", "smtp.mailfrom=", "header.d="} ==>
      forall i :: 0 <= i < |t| ==> !IsSeparator(t[i])
    ensures IsKey("spf") && IsKey("dkim") && IsKey("dmarc")
  {
  }

  /** What each of the words before the last tells for a key. */
  lemma {:induction false} WordValues(d: string, res: AuthResults, key: string)
    requires PlainResults(res) && (key == "spf" || key == "dkim" || key == "dmarc")
    ensures IsKey(key)
    ensures var w := OwnWords(d, res);
      && |w| == 7
      && Scan(true, w[0], key) == ToldByHost(d, key)
      && Scan(true, w[1], key) == (if key == "spf" then res.spf else "")
      && Scan(true, w[2], key) == ToldBy(res.spfDomain, key)
      && (key != "spf" ==> Scan(true, w[3], key) == if key == "dkim" then res.dkim else "")
      && (key == "dmarc" ==> Scan(true, w[4], key) == ToldBy(res.dkimDomain, key))
      && (key == "dmarc" ==> Scan(true, w[5], key) == res.dmarc)
  {
    hide Scan;
    hide Lower;
    hide LowerWord;
    hide EmptyFallback;
    hide Shown;
    NoSeparators();
    hide IsSeparator;
    hide IsKey;
    SemicolonAtEnd(Lower(EmptyFallback(d, DEFAULT_HOST)), key);
    SemicolonAtEnd("smtp.mailfrom=" + Shown(res.spfDomain), key);
    SemicolonAtEnd("header.d=" + Shown(res.dkimDomain), key);
    OtherTag("smtp.mailfrom=", Shown(res.spfDomain), key, if key == "spf" then 1 else 0);
    OtherTag("header.d=", Shown(res.dkimDomain), key, 0);
    if key == "spf" {
      OwnKey(key, res.spf);
      assert key + "=" == "spf=";
    } else {
      OtherWord("spf=", res.spf, key, 0);
      if key == "dkim" {
        OwnKey(key, res.dkim);
        assert key + "=" == "dkim=";
      } else {
        OtherWord("dkim=", res.dkim, key, 1);
        OwnKey(key, res.dmarc);
        assert key + "=" == "dmarc=";
      }
    }
  }

  /** The value with other headers behind it. */
  lemma {:induction false} OwnWordsFirst(d: string, res: AuthResults, others: seq<string>) returns (more: string)
    requires PlainResults(res)
    ensures Joined([OwnValue(d, res)] + others) == Join(OwnWords(d, res), " ") + more
    ensures more == "" || more[0] == ' '
  {
    hide Lower;
    hide Join;
    hide OwnValue;
    hide PlainResults;
    hide OwnWords;
    var own, foreign := OwnValue(d, res), " ; " + Join(others, " ; ");
    OwnValueIs(d, res);
    JoinAppend([own], others, " ; ");
    JoinOne(own, " ; ");
    if others == [] {
      more := "";
      assert Lower(own) + "" == Lower(own);
    } else {
      more := Lower(foreign);
      BlankFirst(Join(others, " ; "));
      assert own + " ; " + Join(others, " ; ") == own + foreign;
      LowerAppend(own, foreign);
    }
  }

  lemma {:induction false} BlankFirst(s: string)
    ensures Lower(" ; " + s) != "" && Lower(" ; " + s)[0] == ' '
  {
  }

  // ----- what was written is read ------------------------------------------------------

  /** What a header of this receiver tells for a key before it comes to its own
      result: by its host name, by the SPF domain, by the DKIM domain. */
  function ToldBefore(d: string, res: AuthResults, key: string): string {
    if key == "spf" then ToldByHost(d, key)
    else if key == "dkim" then FirstOf(ToldByHost(d, key), ToldBy(res.spfDomain, key))
    else FirstOf(ToldByHost(d, key), FirstOf(ToldBy(res.spfDomain, key), ToldBy(res.dkimDomain, key)))
  }

  function ResultFor(res: AuthResults, key: string): string {
    if key == "spf" then res.spf else if key == "dkim" then res.dkim else res.dmarc
  }

  /** Of the headers of a message with the receiver's in front, the analyzer reads
      what the receiver's header tells first; it is the result written exactly
      when nothing before that result tells another one. */
  lemma {:induction false} OwnResultsAreRead(d: string, res: AuthResults, others: seq<string>, key: string)
    requires PlainResults(res) && (key == "spf" || key == "dkim" || key == "dmarc")
    ensures var read := ParseAuthResult(Joined([OwnValue(d, res)] + others), key);
      && read == FirstOf(ToldBefore(d, res, key), ResultFor(res, key))
      && (read == ResultFor(res, key) <==> ToldBefore(d, res, key) in {"", ResultFor(res, key)})
  {
    hide Scan;
    hide Join;
    hide Joined;
    hide OwnValue;
    hide OwnWords;
    hide ToldBy;
    hide ToldByHost;
    hide IsKey;
    assert res.spf != "" && res.dkim != "" && res.dmarc != "";
    hide LowerWord;
    var more := OwnWordsFirst(d, res, others);
    var w := OwnWords(d, res);
    WordValues(d, res, key);
    WordsAreRead(w, more, key);
    FirstValues(w, key);
  }

  lemma {:induction false} FirstValues(w: seq<string>, key: string)
    requires |w| == 7
    ensures FirstValue(w, key)
         == FirstOf(Scan(true, w[0], key), FirstOf(Scan(true, w[1], key), FirstOf(Scan(true, w[2], key),
            FirstOf(Scan(true, w[3], key), FirstOf(Scan(true, w[4], key), FirstOf(Scan(true, w[5], key),
            FirstValue(w[6..], key)))))))
  {
    hide Scan;
    hide FirstOf;
    assert w[1..][1..] == w[2..] && w[2..][1..] == w[3..] && w[3..][1..] == w[4..];
    assert w[4..][1..] == w[5..] && w[5..][1..] == w[6..];
    assert FirstValue(w, key) == FirstOf(Scan(true, w[0], key), FirstValue(w[1..], key));
    assert FirstValue(w[1..], key) == FirstOf(Scan(true, w[1], key), FirstValue(w[2..], key));
    assert FirstValue(w[2..], key) == FirstOf(Scan(true, w[2], key), FirstValue(w[3..], key));
    assert FirstValue(w[3..], key) == FirstOf(Scan(true, w[3], key), FirstValue(w[4..], key));
    assert FirstValue(w[4..], key) == FirstOf(Scan(true, w[4], key), FirstValue(w[5..], key));
    assert FirstValue(w[5..], key) == FirstOf(Scan(true, w[5], key), FirstValue(w[6..], key));
  }

  // ----- when that is so, and when not -----------------------------------------------------

  lemma {:induction false} NoEqualsNoKey(start: bool, s: string, key: string)
    requires '=' !in s
    ensures Scan(start, s, key) == ""
    decreases |s|
  {
    ScanStep(start, s, key);
    hide Scan;
    assert (key + "=")[|key|] == '=';
    if s != "" {
      NoEqualsNoKey(IsSeparator(s[0]), s[1..], key);
    }
  }

  lemma {:induction false} LowerHasNoEquals(s: string)
    requires '=' !in s
    ensures '=' !in Lower(s)
  {
    forall i | 0 <= i < |s|
      ensures Lower(s)[i] != '='
    {
      assert s[i] in s;
    }
  }

  /** Domains without blanks, of a host without an equals sign, tell nothing: then
      all three results are read as written. */
  lemma {:induction false} PlainDomainsTellNothing(d: string, res: AuthResults, key: string)
    requires '=' !in EmptyFallback(d, DEFAULT_HOST)
    requires Solid(Shown(res.spfDomain)) && Solid(Shown(res.dkimDomain))
    ensures ToldBefore(d, res, key) == ""
  {
    hide Scan;
    hide Lower;
    hide Shown;
    hide EmptyFallback;
    LowerHasNoEquals(EmptyFallback(d, DEFAULT_HOST));
    NoEqualsNoKey(true, Lower(EmptyFallback(d, DEFAULT_HOST)), key);
    SolidTellsNothing(res.spfDomain, key);
    SolidTellsNothing(res.dkimDomain, key);
  }

  lemma {:induction false} SolidTellsNothing(domain: string, key: string)
    requires Solid(Shown(domain))
    ensures ToldBy(domain, key) == ""
  {
    hide Lower;
    hide Without;
    var v := Shown(domain);
    ShownHasNoSemicolon(domain);
    forall i | 0 <= i < |v|
      ensures !IsSeparator(v[i])
    {
      assert v[i] in v && !IsSpace(v[i]);
    }
    hide Shown;
    NothingInside(v, "", key);
    assert v + "" == v;
    ScanStep(false, "", key);
  }

  lemma {:induction false} ShownHasNoSemicolon(domain: string)
    ensures ';' !in Shown(domain)
  {
    hide SafeAuthValue;
    hide EmptyFallback;
    var v := SafeAuthValue(EmptyFallback(domain, "unknown"));
    forall i | 0 <= i < |v|
      ensures Lower(v)[i] != ';'
    {
      assert v[i] in v;
    }
  }

  /** A greeting that becomes the SPF domain of a sender without a domain can tell
      a DKIM result: with HELO "x dkim=pass", none is read as pass. */
  lemma {:induction false} GreetingTellsDkim(d: string, res: AuthResults, others: seq<string>)
    requires PlainResults(res) && res.dkim == "none" && '=' !in EmptyFallback(d, DEFAULT_HOST)
    requires res.spfDomain == "x dkim=pass"
    ensures SpfEvaluation.SenderDomain("x dkim=pass", "foo") == res.spfDomain
    ensures ParseAuthResult(Joined([OwnValue(d, res)] + others), "dkim") == "pass"
  {
    hide *;
    OwnResultsAreRead(d, res, others, "dkim");
    GreetingIsDomain();
    GreetingTells();
    HostTellsNothing(d, "dkim");
    DkimBefore(d, res);
  }

  lemma {:induction false} DkimBefore(d: string, res: AuthResults)
    requires ToldByHost(d, "dkim") == "" && ToldBy(res.spfDomain, "dkim") == "pass"
    ensures FirstOf(ToldBefore(d, res, "dkim"), ResultFor(res, "dkim")) == "pass"
  {
    hide ToldBy;
    hide ToldByHost;
  }

  lemma {:induction false} HostTellsNothing(d: string, key: string)
    requires '=' !in EmptyFallback(d, DEFAULT_HOST)
    ensures ToldByHost(d, key) == ""
  {
    hide Scan;
    hide Lower;
    hide EmptyFallback;
    LowerHasNoEquals(EmptyFallback(d, DEFAULT_HOST));
    NoEqualsNoKey(true, Lower(EmptyFallback(d, DEFAULT_HOST)), key);
  }

  lemma {:induction false} GreetingIsLower()
    ensures Lower("x dkim=pass") == "x dkim=pass"
  {
    assert "x dkim=pass" == "x " + ("dkim=" + "pass");
    assert Lower("x ") == "x ";
    Tags();
    LowerIs("pass");
    LowerAppend("dkim=", "pass");
    LowerAppend("x ", "dkim=" + "pass");
  }

  lemma {:induction false} NoDomainIn(v: string)
    requires v != "" && '@' !in v && SpfEvaluation.TrimAngles(v) == v && Trim(v) == v
    ensures SpfEvaluation.ExtractDomain(v) == ""
  {
    hide Trim;
    hide Lower;
    hide LastIndexOf;
    hide SpfEvaluation.TrimAngles;
  }

  lemma {:induction false} NoDomainInName()
    ensures SpfEvaluation.ExtractDomain("foo") == ""
  {
    NoAngles();
    NameIsSolid();
    hide *;
    TrimSolid("foo");
    NoDomainIn("foo");
  }

  lemma {:induction false} NameIsSolid()
    ensures Solid("foo") && '@' !in "foo"
  {
  }

  lemma {:induction false} NoAngles()
    ensures SpfEvaluation.TrimAngles("foo") == "foo"
  {
  }

  lemma {:induction false} GreetingIsDomain()
    ensures SpfEvaluation.SenderDomain("x dkim=pass", "foo") == "x dkim=pass"
  {
    hide Trim;
    hide Lower;
    hide SpfEvaluation.ExtractDomain;
    NoDomainInName();
    GreetingIsLower();
    GreetingIsShown();
  }

  /** A key behind a blank is read. */
  lemma {:induction false} BehindBlank(w: string, key: string, r: string)
    requires IsKey(key) && LowerWord(r) && '=' !in w
    ensures Scan(false, w + [' '] + (key + "=" + r), key) == r
  {
    assert IsSeparator(' ') && r != "";
    hide *;
    ReadingSplits(false, w, ' ', key + "=" + r, key);
    OwnKey(key, r);
    NoEqualsNoKey(false, w, key);
    FirstIsEmpty(r);
  }

  lemma {:induction false} FirstIsEmpty(r: string)
    ensures FirstOf("", r) == r
  {
  }

  lemma {:induction false} GreetingParts()
    ensures "x" + [' '] + ("dkim" + "=" + "pass") == "x dkim=pass" && LowerWord("pass") && '=' !in "x"
  {
  }

  lemma {:induction false} GreetingTells()
    ensures ToldBy("x dkim=pass", "dkim") == "pass"
  {
    hide Scan;
    hide Shown;
    hide IsKey;
    hide LowerWord;
    GreetingIsShown();
    NoSeparators();
    GreetingParts();
    BehindBlank("x", "dkim", "pass");
  }

  lemma {:induction false} GreetingIsShown()
    ensures Shown("x dkim=pass") == "x dkim=pass" && Trim("x dkim=pass") == "x dkim=pass"
  {
    hide Trim;
    hide Lower;
    GreetingIsSafe();
    GreetingIsLower();
  }

  lemma {:induction false} GreetingIsSafe()
    ensures var s := "x dkim=pass"; Trim(s) == s && SafeAuthValue(s) == s
  {
    hide Trim;
    hide SafeAuthValue;
    SafeKeeps("x dkim=pass");
  }
}
