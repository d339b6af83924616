/** Command lines as they are parsed. */
module SmtpCommands {
  import opened Text
  import opened TextLemmas
  import opened SmtpSession

  function ExtractPath(text: string): string {
    var s := Trim(text);
    var end := IndexOf(s, '>');
    var inner := if !("<" <= s) then s else if end > 0 then s[1..end] else s[1..];
    PathIn(inner)
  }

  /** Up to the first blank, unless it stands in front. */
  function PathIn(inner: string): string {
    var blank := IndexOf(inner, ' ');
    Lower(Trim(if blank > 0 then inner[..blank] else inner))
  }

  function ParseCommand(text: string): Command {
    var line := Trim(text);
    var upper := Upper(line);
    if "EHLO " <= upper || "HELO " <= upper then Hello(Trim(line[5..]))
    else if upper == "STARTTLS" then StartTls
    else if "MAIL FROM:" <= upper then MailFrom(ExtractPath(line[|"MAIL FROM:"|..]))
    else if "RCPT TO:" <= upper then RcptTo(Lower(ExtractPath(line[|"RCPT TO:"|..])))
    else if upper == "DATA" then Data
    else if upper == "RSET" then Rset
    else if upper == "NOOP" then Noop
    else if upper == "QUIT" then Quit
    else Unknown
  }

  /** What stands between angle brackets is read as the path, whatever parameters
      follow: up to its first blank, in lower case. */
  lemma {:induction false} PathInBrackets(inner: string, params: string)
    requires '>' !in inner
    ensures ExtractPath("<" + inner + ">" + params) == PathIn(inner)
  {
    assert !IsSpace('<') && !IsSpace('>');
    hide Trim;
    hide IndexOf;
    hide IsSpace;
    hide PathIn;
    var t := "<" + inner + ">" + params;
    var n := |inner| + 2;
    assert t[0] == '<' && t[n - 1] == '>';
    TrimKeeps(t, n);
    var s := Trim(t);
    assert s[..n] == t[..n] == "<" + inner + ">";
    assert s[0] == '<' && s[n - 1] == '>' && s[1..n - 1] == inner && s[..1] == "<";
    assert s[..n - 1] == "<" + inner;
    IndexIs(s, '>', n - 1);
  }

  /** A path without blanks is kept, and one with a blank behind it is cut there. */
  lemma {:induction false} PathIsCut(path: string, more: string)
    requires Solid(path) && (more == "" || (path != "" && more[0] == ' '))
    ensures PathIn(path + more) == Lower(path)
  {
    hide Trim;
    hide Lower;
    hide IndexOf;
    assert IsSpace(' ');
    hide IsSpace;
    var inner := path + more;
    assert ' ' !in path;
    TrimSolid(path);
    if more == "" {
      assert inner == path;
    } else {
      assert inner[..|path|] == path && inner[|path|] == ' ';
      IndexIs(inner, ' ', |path|);
    }
  }

  /** A path without angle brackets is read as it is, in lower case. */
  lemma {:induction false} PathWithoutBrackets(path: string, ws: string)
    requires Solid(path) && Blank(ws) && (path == "" || path[0] != '<')
    ensures ExtractPath(ws + path) == Lower(path)
  {
    hide Trim;
    hide Lower;
    hide IndexOf;
    hide PathIn;
    TrimLead(ws, path);
    TrimSolid(path);
    hide Solid;
    hide Blank;
    assert path != "" ==> path[..1] == [path[0]];
    PathIsCut(path, "");
    assert path + "" == path;
  }

  // ----- command lines, in any letter case -------------------------------------------

  /** A word that is the given one in lower case, is it in upper case too. */
  lemma {:induction false} SameWord(word: string, lower: string)
    requires Lower(word) == lower
    ensures Upper(word) == Upper(lower)
  {
    forall i | 0 <= i < |word|
      ensures UpperChar(word[i]) == UpperChar(lower[i])
    {
      assert lower[i] == LowerChar(word[i]);
    }
  }

  lemma {:induction false} UpperAppend(a: string, b: string)
    ensures Upper(a + b) == Upper(a) + Upper(b)
  {
  }

  /** A line of a verb and more, trimmed at its end: the verb stays in front. */
  lemma {:induction false} VerbStays(verb: string, rest: string, k: nat) returns (tail: string)
    requires verb != "" && !IsSpace(verb[0]) && k <= |rest| && |verb| + k > 0 && !IsSpace((verb + rest)[|verb| + k - 1])
    ensures Trim(verb + rest) == verb + tail && |tail| >= k && tail <= rest && Blank(rest[|tail|..])
    ensures Upper(Trim(verb + rest)) == Upper(verb) + Upper(tail)
  {
    hide Trim;
    hide IsSpace;
    hide Upper;
    var t := verb + rest;
    assert t[0] == verb[0];
    TrimKeeps(t, |verb| + k);
    var s := Trim(t);
    tail := s[|verb|..];
    assert s == t[..|s|] && s == verb + tail && tail == rest[..|tail|];
    assert t[|s|..] == rest[|tail|..];
    UpperAppend(verb, tail);
  }

  lemma {:induction false} Verbs()
    ensures Upper("mail from:") == "MAIL FROM:" && Upper("rcpt to:") == "RCPT TO:"
    ensures Upper("ehlo ") == "EHLO " && Upper("helo ") == "HELO "
    ensures Upper("data") == "DATA" && Upper("rset") == "RSET" && Upper("starttls") == "STARTTLS"
    ensures Upper("noop") == "NOOP" && Upper("quit") == "QUIT"
  {
  }

  lemma {:induction false} BracketTail(path: string, params: string, tail: string)
    requires Solid(path) && '>' !in path && tail <= "<" + path + ">" + params && |tail| >= |path| + 2
    ensures ExtractPath(tail) == Lower(path)
  {
    hide ExtractPath;
    hide Lower;
    hide Solid;
    var more := tail[|path| + 2..];
    assert ("<" + path + ">" + params)[..|path| + 2] == "<" + path + ">";
    assert tail == "<" + path + ">" + more;
    PathInBrackets(path, more);
    PathIsCut(path, "");
    assert path + "" == path;
  }

  /** MAIL FROM and RCPT TO with a path in angle brackets name that path, in lower
      case, whatever the letter case of the verb and whatever follows. */
  lemma {:induction false} EnvelopeLine(verb: string, path: string, params: string)
    requires Solid(path) && '>' !in path
    ensures Lower(verb) == "mail from:" ==> ParseCommand(verb + ("<" + path + ">" + params)) == MailFrom(Lower(path))
    ensures Lower(verb) == "rcpt to:" ==> ParseCommand(verb + ("<" + path + ">" + params)) == RcptTo(Lower(path))
  {
    if Lower(verb) == "mail from:" || Lower(verb) == "rcpt to:" {
      assert Lower(verb)[0] == 'm' || Lower(verb)[0] == 'r';
      assert !IsSpace('>');
      hide *;
      FirstLetter(verb);
      SameWord(verb, Lower(verb));
      LowerKeeps(verb);
      Verbs();
      var rest := "<" + path + ">" + params;
      assert (verb + rest)[|verb| + |path| + 1] == '>';
      var tail := VerbStays(verb, rest, |path| + 2);
      BracketTail(path, params, tail);
      LowerTwice(path);
      assert (verb + tail)[|verb|..] == tail;
      EnvelopeVerb(verb + rest, verb + tail, Upper(verb), Upper(tail));
    }
  }

  /** Which command a line is, told by its verb in upper case. */
  lemma {:induction false} EnvelopeVerb(text: string, line: string, verb: string, more: string)
    requires Trim(text) == line && Upper(line) == verb + more
    ensures verb == "MAIL FROM:" ==> |line| >= 10 && ParseCommand(text) == MailFrom(ExtractPath(line[10..]))
    ensures verb == "RCPT TO:" ==> |line| >= 8 && ParseCommand(text) == RcptTo(Lower(ExtractPath(line[8..])))
  {
    hide Trim;
    hide Lower;
    hide ExtractPath;
    var u := Upper(line);
    assert |u| == |line|;
    hide Upper;
    assert verb <= u by { assert u[..|verb|] == verb; }
    assert verb != "" ==> u[0] == verb[0];
    assert "EHLO "[0] == 'E' && "HELO "[0] == 'H' && "STARTTLS"[0] == 'S';
    assert "MAIL FROM:"[0] == 'M' && "RCPT TO:"[0] == 'R';
  }

  lemma {:induction false} LowerKeeps(s: string)
    ensures |Lower(s)| == |s| == |Upper(s)|
  {
  }

  lemma {:induction false} LowerTwice(s: string)
    ensures Lower(Lower(s)) == Lower(s)
  {
  }

  /** A verb that starts with a letter is not trimmed in front. */
  lemma {:induction false} FirstLetter(verb: string)
    requires Lower(verb) != "" && 'a' <= Lower(verb)[0] <= 'z'
    ensures verb != "" && !IsSpace(verb[0])
  {
    assert Lower(verb)[0] == LowerChar(verb[0]);
  }

  /** The commands that stand alone, in any letter case, with blanks or a line end
      behind them. */
  lemma {:induction false} AloneLine(word: string, ws: string)
    requires Blank(ws)
    ensures Lower(word) == "data" ==> ParseCommand(word + ws) == Data
    ensures Lower(word) == "rset" ==> ParseCommand(word + ws) == Rset
    ensures Lower(word) == "starttls" ==> ParseCommand(word + ws) == StartTls
    ensures Lower(word) == "noop" ==> ParseCommand(word + ws) == Noop
    ensures Lower(word) == "quit" ==> ParseCommand(word + ws) == Quit
  {
    if Lower(word) in {"data", "rset", "starttls", "noop", "quit"} {
      SameWord(word, Lower(word));
      WordIsSolid(word);
      hide Trim;
      var t, k := word + ws, |word|;
      assert t[k - 1] == word[k - 1] && t[k..] == ws && t[..k] == word;
      TrimTo(t, k);
      hide Lower;
      hide Blank;
      hide Solid;
      Verbs();
      AloneVerb(word + ws, Upper(word));
    }
  }

  lemma {:induction false} AloneVerb(text: string, upper: string)
    requires Upper(Trim(text)) == upper
    ensures upper == "DATA" ==> ParseCommand(text) == Data
    ensures upper == "RSET" ==> ParseCommand(text) == Rset
    ensures upper == "STARTTLS" ==> ParseCommand(text) == StartTls
    ensures upper == "NOOP" ==> ParseCommand(text) == Noop
    ensures upper == "QUIT" ==> ParseCommand(text) == Quit
  {
    hide Trim;
    hide Upper;
    hide Lower;
    hide ExtractPath;
    assert "EHLO "[0] == 'E' && "HELO "[0] == 'H' && "MAIL FROM:"[0] == 'M';
    assert "RCPT TO:"[1] == 'C' && "RSET"[1] == 'S';
  }

  lemma {:induction false} WordIsSolid(word: string)
    requires Lower(word) in {"data", "rset", "starttls", "noop", "quit"}
    ensures word != "" && Solid(word)
  {
    var low := Lower(word);
    assert forall i :: 0 <= i < |low| ==> 'a' <= low[i] <= 'z';
    forall i | 0 <= i < |word|
      ensures !IsSpace(word[i])
    {
      assert low[i] == LowerChar(word[i]);
    }
  }

  /** A greeting names whatever the client writes behind EHLO or HELO, blanks
      included. */
  lemma {:induction false} GreetingIsKept(verb: string, name: string, ws: string)
    requires Lower(verb) == "ehlo " || Lower(verb) == "helo "
    requires name != "" && !IsSpace(name[0]) && !IsSpace(name[|name| - 1]) && Blank(ws)
    ensures ParseCommand(verb + (name + ws)) == Hello(name)
  {
    FirstLetter(verb);
    SameWord(verb, Lower(verb));
    LowerKeeps(verb);
    Verbs();
    hide Trim;
    hide Lower;
    hide IsSpace;
    var t, k := verb + (name + ws), |verb| + |name|;
    assert t[k - 1] == name[|name| - 1] && t[k..] == ws && t[..k] == verb + name;
    TrimTo(t, k);
    TrimTo(name, |name|);
    assert name[..|name|] == name && name[|name|..] == "";
    UpperAppend(verb, name);
    hide Upper;
    assert (Upper(verb) + Upper(name))[..5] == Upper(verb);
    assert (verb + name)[5..] == name;
  }
}
