/** What stripping leaves of an enriched message, and when it undoes prepending. */
module HeaderTheorems {
  import opened Text
  import opened TextLemmas
  import opened HeaderSurgery
  import opened HeaderLemmas
  import opened ReceiverHeaders
  import opened OwnHeaderLemmas
  import opened HeaderRoundTrip

  /** The message with the receiver's headers in front. */
  function Enriched(d: string, m: Mail, res: AuthResults, date: string, raw: string): string {
    Prepended(raw, OwnHeaders(d, m, res, date))
  }

  /** The messages that survive: CRLF line ends, a blank line after the headers,
      and a header part that is empty or starts with an unfolded line and holds
      no result header of the host. */
  predicate Recoverable(raw: string, host: string) {
    var p := CutBlank(ToLF(raw));
    && NoBareLF(raw) && p.hasBody
    && (p.head == "" ||
         (&& Trim(p.head) != "" && p.head[0] != ' ' && p.head[0] != '\t' && p.head[0] != '\n'
          && forall i :: 0 <= i < |Blocks(p.head)| ==> !OwnResult(Parse(Blocks(p.head)[i]), host)))
  }

  /** What is left of a message after prepending and stripping, with LF ends. */
  function Remains(p: Parts, host: string): string {
    if Trim(p.head) == "" then "\n\n" + p.body
    else if "\n" <= p.head then "\n\n" + (p.head[1..] + "\n\n" + p.body)
    else if Folded(p.head) then
      Join(Foreign(if Blocks(p.head) == [] then [] else Blocks(p.head)[1..], host), "\n") + "\n\n" + p.body
    else Join(Foreign(Blocks(p.head), host), "\n") + "\n\n" + p.body
  }

  lemma {:induction false} StripParts(h: string, b: string, host: string)
    requires NoBlankLine(h + "\n")
    ensures var s := Sift(Sifted([], false, false), Blocks(h), host);
      Strip(ToCRLF(h + "\n\n" + b), host) == Stripped(ToCRLF(Join(s.kept, "\n") + "\n\n" + b), s.tls)
  {
    hide Sift;
    hide Blocks;
    hide Join;
    hide ToLF;
    hide ToCRLF;
    hide CutBlank;
    LfOfCrlf(h + "\n\n" + b);
    CutJoined(h, b);
    var s := Sift(Sifted([], false, false), Blocks(h), host);
    assert Join(s.kept, "\n") + ("\n\n" + b) == Join(s.kept, "\n") + "\n\n" + b;
  }

  /** The blocks of the own headers followed by a header text. */
  lemma {:induction false} BlocksAfterOwn(cs: seq<string>, head: string)
    requires cs != [] && AllOneBlock(cs)
    ensures Blocks(Join(cs, "\n") + "\n" + head) == BlocksFrom(cs, Lines(head))
  {
    hide Lines;
    hide BlocksFrom;
    hide AllOneBlock;
    OwnText(cs);
    LinesAppend(Join(cs, "\n"), head);
    BlocksConcat([], Lines(Join(cs, "\n")), Lines(head));
  }

  lemma {:induction false} ContinuedIsOwn(c: string, more: string, host: string)
    requires ':' in c && "x-sender-report-" <= Parse(c).name
    ensures OwnResult(Parse(c + "\n" + more), host)
  {
    hide Fields;
    hide Join;
    hide Trim;
    hide Lower;
    var i := IndexOf(c, ':');
    var name, rest := c[..i], c[i + 1..];
    assert c == name + ":" + rest;
    var t := c + "\n" + more;
    assert t == name + ":" + (rest + "\n" + more);
    ColonAt(name, rest + "\n" + more);
    assert t[..i] == name;
  }

  /** Sifting the own headers and what follows them. */
  lemma {:induction false} SiftAfterOwn(cs: seq<string>, blocks: seq<string>, host: string)
    requires OwnSix(cs, host)
    ensures Sift(Sifted([], false, false), cs + blocks, host)
         == Sifted(Foreign(blocks, host), true, SaysTls(Parse(cs[0])))
  {
    assert |cs| == 6;
    hide Parse;
    hide OwnSix;
    hide SaysTls;
    hide Sift;
    SiftConcat(Sifted([], false, false), cs, blocks, host);
    SiftOwn(cs, host);
    SiftForeign(Sifted([], true, SaysTls(Parse(cs[0]))), blocks, host);
    assert [] + Foreign(blocks, host) == Foreign(blocks, host);
  }

  /** As before, with the first of the blocks folded onto the last own header. */
  lemma {:induction false} SiftFoldedAfterOwn(cs: seq<string>, blocks: seq<string>, host: string)
    requires OwnSix(cs, host) && blocks != []
    ensures Sift(Sifted([], false, false), cs[..5] + Onto(cs[5], blocks), host)
         == Sifted(Foreign(blocks[1..], host), true, SaysTls(Parse(cs[0])))
  {
    hide Parse;
    hide SaysTls;
    hide Sift;
    hide OneBlock;
    hide OwnReceived;
    var c := cs[5] + "\n" + blocks[0];
    ContinuedIsOwn(cs[5], blocks[0], host);
    SiftForeign(Sifted([], true, SaysTls(Parse(cs[0]))), [c] + blocks[1..], host);
    var init := Sifted([], false, false);
    SiftConcat(init, [cs[0]], cs[1..5], host);
    SiftConcat(init, cs[..5], [c] + blocks[1..], host);
    SiftConcat(init, [cs[0]], cs[1..], host);
    SiftFirst(cs[0], host);
    AllOwn(cs[1..5], host);
    SiftForeign(Sifted([], true, SaysTls(Parse(cs[0]))), cs[1..5], host);
    assert [cs[0]] + cs[1..5] == cs[..5];
    ForeignCons(c, blocks[1..], host);
  }

  lemma {:induction false} SiftFirst(c: string, host: string)
    requires OwnReceived(Parse(c), host)
    ensures Sift(Sifted([], false, false), [c], host) == Sifted([], true, SaysTls(Parse(c)))
  {
    hide Parse;
    hide SaysTls;
    OwnReceivedIsNoResult(Parse(c), host);
    hide OwnReceived;
    hide OwnResult;
    assert [c][1..] == [];
  }

  lemma {:induction false} ForeignCons(c: string, blocks: seq<string>, host: string)
    requires OwnResult(Parse(c), host)
    ensures Foreign([c] + blocks, host) == Foreign(blocks, host)
  {
    hide Parse;
    hide OwnResult;
    assert ([c] + blocks)[1..] == blocks;
    assert [] + Foreign(blocks, host) == Foreign(blocks, host);
  }

  // ----- the four kinds of header part ---------------------------------------------

  lemma {:induction false} SixBlocks(cs: seq<string>, host: string)
    requires OwnSix(cs, host)
    ensures |cs| == 6 && AllOneBlock(cs)
  {
    hide Parse;
    hide OneBlock;
    hide OwnReceived;
  }

  lemma {:induction false} RemainsOfBlank(cs: seq<string>, p: Parts, host: string)
    requires OwnSix(cs, host)
    ensures Strip(ToCRLF(Join(cs, "\n") + "\n\n" + p.body), host)
         == Stripped(ToCRLF("\n\n" + p.body), SaysTls(Parse(cs[0])))
  {
    hide AllOneBlock;
    hide Blocks;
    hide Folded;
    hide Lines;
    hide NoBlankLine;
    hide Join;
    hide Sift;
    hide Strip;
    hide Parse;
    hide SaysTls;
    hide ToCRLF;
    hide OwnSix;
    SixBlocks(cs, host);
    OwnText(cs);
    StripParts(Join(cs, "\n"), p.body, host);
    SiftOwn(cs, host);
    JoinOfNone("\n");
    assert Join([], "\n") + "\n\n" + p.body == "\n\n" + p.body;
  }

  lemma {:induction false} RemainsOfBreak(cs: seq<string>, p: Parts, host: string)
    requires OwnSix(cs, host) && "\n" <= p.head
    ensures Strip(ToCRLF(Join(cs, "\n") + "\n" + p.head + "\n\n" + p.body), host)
         == Stripped(ToCRLF("\n\n" + (p.head[1..] + "\n\n" + p.body)), SaysTls(Parse(cs[0])))
  {
    hide Strip;
    hide Parse;
    hide SaysTls;
    hide ToCRLF;
    hide OwnSix;
    var rest := p.head[1..] + "\n\n" + p.body;
    RemainsOfBlank(cs, Parts("", rest, true), host);
    assert p.head == "\n" + p.head[1..];
    assert Join(cs, "\n") + "\n" + p.head + "\n\n" + p.body == Join(cs, "\n") + "\n\n" + rest;
  }

  lemma {:induction false} OwnThenHead(cs: seq<string>, head: string, body: string, host: string)
    requires OwnSix(cs, host) && head != "" && head[0] != '\n' && NoBlankLine(head + "\n")
    ensures var s := Sift(Sifted([], false, false), BlocksFrom(cs, Lines(head)), host);
      Strip(ToCRLF(Join(cs, "\n") + "\n" + head + "\n\n" + body), host)
      == Stripped(ToCRLF(Join(s.kept, "\n") + "\n\n" + body), s.tls)
  {
    hide AllOneBlock;
    hide Blocks;
    hide Folded;
    hide Lines;
    hide NoBlankLine;
    hide Join;
    hide Sift;
    hide Strip;
    hide BlocksFrom;
    hide ToCRLF;
    hide OwnSix;
    SixBlocks(cs, host);
    OwnText(cs);
    var t := Join(cs, "\n");
    NoBlankLineAppend(t, head + "\n");
    assert t + "\n" + (head + "\n") == t + "\n" + head + "\n";
    StripParts(t + "\n" + head, body, host);
    BlocksAfterOwn(cs, head);
  }

  lemma {:induction false} HeadFolds(head: string)
    requires head != "" && head[0] != '\n'
    ensures |Lines(head)| > 0 && (Folded(Lines(head)[0]) <==> Folded(head))
  {
    hide Lines;
    FirstLine(head);
    var line := Lines(head)[0];
    assert line[0] == head[0];
  }

  lemma {:induction false} RemainsOfHead(cs: seq<string>, p: Parts, host: string)
    requires OwnSix(cs, host) && p.head != "" && Trim(p.head) != "" && p.head[0] != '\n' && NoBlankLine(p.head + "\n")
    ensures Strip(ToCRLF(Join(cs, "\n") + "\n" + p.head + "\n\n" + p.body), host)
         == Stripped(ToCRLF(Remains(p, host)), SaysTls(Parse(cs[0])))
  {
    hide AllOneBlock;
    hide Folded;
    hide Lines;
    hide NoBlankLine;
    hide Join;
    hide Sift;
    hide Strip;
    hide BlocksFrom;
    hide ToCRLF;
    hide OwnSix;
    hide Parse;
    hide SaysTls;
    hide Trim;
    hide Foreign;
    SixBlocks(cs, host);
    OwnThenHead(cs, p.head, p.body, host);
    HeadFolds(p.head);
    assert !("\n" <= p.head) by { assert p.head[..1] == [p.head[0]]; }
    assert |cs| - 1 == 5;
    if Folded(p.head) {
      FoldedContinues(cs, p.head);
      SiftFoldedAfterOwn(cs, Blocks(p.head), host);
    } else {
      BlocksAppend(cs, Lines(p.head));
      SiftAfterOwn(cs, Blocks(p.head), host);
    }
  }

  /** What stripping makes of an enriched message, for every message with a
      blank line after its headers. */
  lemma {:induction false} StripEnriched(d: string, m: Mail, res: AuthResults, date: string, raw: string)
    requires TokenDomain(d) && NoBreak(date) && CutBlank(ToLF(raw)).hasBody
    ensures var received := Parse(CleanHeader(ReceivedHeader(d, m, date)));
      Strip(Enriched(d, m, res, date, raw), Host(d))
      == Stripped(ToCRLF(Remains(CutBlank(ToLF(raw)), Host(d))), SaysTls(received))
  {
    hide Strip;
    hide ToCRLF;
    hide ToLF;
    hide CutBlank;
    hide OwnSix;
    hide NoBlankLine;
    hide Parse;
    hide SaysTls;
    hide Trim;
    hide Foreign;
    hide Blocks;
    hide OwnHeaders;
    hide CleanHeaders;
    hide Cleaned;
    hide Host;
    hide TokenDomain;
    hide ReceivedHeader;
    hide CleanHeader;
    hide Join;
    hide NoBreak;
    OwnHeadersAreOwn(d, m, res, date);
    var cs, p := Cleaned(OwnHeaders(d, m, res, date)), CutBlank(ToLF(raw));
    CutGives(ToLF(raw));
    SixBlocks(cs, Host(d));
    assert cs + [] == cs;
    if Trim(p.head) == "" {
      RemainsOfBlank(cs, p, Host(d));
    } else {
      TrimNothing();
      JoinAppend(cs, [p.head], "\n");
      JoinOne(p.head, "\n");
      if p.head[0] == '\n' {
        assert p.head[..1] == "\n";
        RemainsOfBreak(cs, p, Host(d));
      } else {
        RemainsOfHead(cs, p, Host(d));
      }
    }
  }

  // ----- when stripping undoes prepending -------------------------------------------

  /** A message without a blank line never comes back. */
  lemma {:induction false} WithoutBlankLineChanged(raw: string, extra: seq<string>, host: string)
    requires !CutBlank(ToLF(raw)).hasBody
    ensures Strip(Prepended(raw, extra), host).clean != raw
  {
    hide Sift;
    hide Blocks;
    hide CutBlank;
    hide Trim;
    hide CleanHeaders;
    hide Join;
    hide ToLF;
    hide ToCRLF;
    var p := CutBlank(ToLF(raw));
    var t := Join(CleanHeaders(extra) + (if Trim(p.head) != "" then [p.head] else []), "\n");
    var x := t + "\n\n" + p.body;
    LfOfCrlf(x);
    BlankLineInside(t, p.body);
    CutGives(x);
    var q := CutBlank(x);
    var kept := Join(Sift(Sifted([], false, false), Blocks(q.head), host).kept, "\n");
    var out := kept + ("\n\n" + q.body);
    assert out == kept + "\n\n" + q.body;
    BlankLineInside(kept, q.body);
    LfOfCrlf(out);
    CutGives(ToLF(raw));
  }

  lemma {:induction false} BlankLineInside(a: string, b: string)
    ensures !NoBlankLine(a + "\n\n" + b)
  {
    var s := a + "\n\n" + b;
    assert s[|a|] == '\n' && s[|a| + 1] == '\n';
  }

  /** The remains are the message exactly when nothing of it was dropped. */
  lemma {:induction false} RemainsAll(p: Parts, host: string)
    ensures Remains(p, host) == p.head + "\n\n" + p.body <==>
      || p.head == ""
      || (&& Trim(p.head) != "" && p.head[0] != ' ' && p.head[0] != '\t' && p.head[0] != '\n'
          && forall i :: 0 <= i < |Blocks(p.head)| ==> !OwnResult(Parse(Blocks(p.head)[i]), host))
  {
    hide Blocks;
    hide Parse;
    hide OwnResult;
    hide Trim;
    hide Join;
    hide Foreign;
    TrimNothing();
    var whole := p.head + "\n\n" + p.body;
    if Trim(p.head) == "" {
      assert p.head == "" ==> whole == "\n\n" + p.body;
    } else if p.head[0] == '\n' {
      assert "\n" <= p.head;
      assert |Remains(p, host)| == |whole| + 1;
    } else {
      JoinBlocksOf(p.head);
      var bs := Blocks(p.head);
      FoldedIs(p.head);
      if Folded(p.head) {
        ForeignShorter(bs[1..], host);
        JoinAppend([bs[0]], bs[1..], "\n");
        JoinOne(bs[0], "\n");
        assert [bs[0]] + bs[1..] == bs;
        FirstBlock(p.head);
        JoinOfNone("\n");
        assert |Join(Foreign(bs[1..], host), "\n")| < |p.head|;
      } else {
        ForeignShorter(bs, host);
      }
    }
  }

  lemma {:induction false} FoldedIs(head: string)
    requires head != ""
    ensures Folded(head) <==> head[0] == ' ' || head[0] == '\t'
  {
    assert head[..1] == [head[0]];
  }

  lemma {:induction false} FirstBlock(head: string)
    requires head != "" && head[0] != '\n'
    ensures |Blocks(head)| > 0 && Blocks(head)[0] != ""
  {
    hide Lines;
    FirstLine(head);
    var lines := Lines(head);
    BlocksStart(lines[0], lines[1..]);
    assert [lines[0]] + lines[1..] == lines;
    FirstStays([lines[0]], lines[1..]);
  }

  lemma {:induction false} FirstStays(blocks: seq<string>, lines: seq<string>)
    requires blocks != [] && blocks[0] != ""
    ensures BlocksFrom(blocks, lines) != [] && BlocksFrom(blocks, lines)[0] != ""
    decreases |lines|
  {
    if lines != [] {
      if Folded(lines[0]) {
        FirstStays(blocks[..|blocks| - 1] + [blocks[|blocks| - 1] + "\n" + lines[0]], lines[1..]);
      } else {
        FirstStays(blocks + [lines[0]], lines[1..]);
      }
    }
  }

  /** Stripping gives back the message exactly when the message is recoverable. */
  lemma {:induction false} StripUndoesPrepend(d: string, m: Mail, res: AuthResults, date: string, raw: string)
    requires TokenDomain(d) && NoBreak(date)
    ensures Strip(Enriched(d, m, res, date, raw), Host(d)).clean == raw <==> Recoverable(raw, Host(d))
  {
    hide Strip;
    hide ToCRLF;
    hide ToLF;
    hide CutBlank;
    hide Parse;
    hide Trim;
    hide Blocks;
    hide OwnResult;
    hide OwnHeaders;
    hide Host;
    hide TokenDomain;
    hide Prepended;
    hide Remains;
    hide NoBareLF;
    var p, host := CutBlank(ToLF(raw)), Host(d);
    if !p.hasBody {
      WithoutBlankLineChanged(raw, OwnHeaders(d, m, res, date), host);
    } else {
      StripEnriched(d, m, res, date, raw);
      CutGives(ToLF(raw));
      RemainsAll(p, host);
      var x := Remains(p, host);
      LfOfCrlf(x);
      CrlfHasNoBareLF(x);
      if NoBareLF(raw) {
        CrlfOfLf(raw);
      }
    }
  }
}
