/** Re-checks of messages that stripping does not restore: on which text they
    settle, and after how many. */
module HeaderSettling {
  import opened Text
  import opened TextLemmas
  import opened HeaderSurgery
  import opened HeaderLemmas
  import opened ReceiverHeaders
  import opened OwnHeaderLemmas
  import opened HeaderRoundTrip
  import opened HeaderTheorems
  import opened HeaderTls
  import opened HeaderReverify

  /** The message with the blank line that prepending adds when there is none. */
  function Completed(raw: string): string {
    var p := CutBlank(ToLF(raw));
    if p.hasBody then raw else ToCRLF((if Trim(p.head) == "" then "" else p.head) + "\n\n")
  }

  /** What prepending and stripping leave of a message. */
  function Settle(raw: string, host: string): string {
    ToCRLF(Remains(CutBlank(ToLF(raw)), host))
  }

  // ----- messages without a blank line -----------------------------------------------

  lemma {:induction false} TrimBlank(s: string)
    ensures Trim(s) == "" <==> Blank(s)
  {
    TrimLeftRest(s);
    var t := TrimLeft(s);
    TrimRightRest(t);
    if Trim(s) == "" {
      assert Blank(t);
      assert s == s[..|s| - |t|] + t;
    }
    assert t != "" ==> t[0] == s[|s| - |t|];
  }

  lemma {:induction false} TrimLeftRest(s: string)
    ensures var t := TrimLeft(s);
      |t| <= |s| && t == s[|s| - |t|..] && Blank(s[..|s| - |t|]) && (t == "" || !IsSpace(t[0]))
  {
    if s != "" && IsSpace(s[0]) {
      TrimLeftRest(s[1..]);
      var t := TrimLeft(s);
      assert s[..|s| - |t|] == [s[0]] + s[1..][..|s| - 1 - |t|];
    }
  }

  lemma {:induction false} CleanAppend(a: seq<string>, b: seq<string>)
    ensures CleanHeaders(a + b) == CleanHeaders(a) + CleanHeaders(b)
    decreases |b|
  {
    hide CleanHeader;
    if b == [] {
      assert a + b == a;
    } else {
      var n := |b| - 1;
      assert (a + b)[..|a + b| - 1] == a + b[..n];
      CleanAppend(a, b[..n]);
    }
  }

  lemma {:induction false} BlankStays(s: string)
    requires Blank(s)
    ensures Blank(ToLF(s))
    decreases |s|
  {
    assert IsSpace('\n');
    hide IsSpace;
    if s != "" {
      BlankStays(s[1..]);
      if |s| >= 2 {
        BlankStays(s[2..]);
      }
    }
  }

  /** A blank header adds nothing, and any other is put in front of what follows it,
      trimmed. */
  lemma {:induction false} HeadersInFront(raw: string, a: seq<string>, h: string, b: seq<string>)
    ensures Blank(h) ==> Prepended(raw, a + ([h] + b)) == Prepended(raw, a + b)
    ensures Trim(ToLF(h)) != "" ==> CleanHeaders(a + ([h] + b)) == CleanHeaders(a) + ([Trim(ToLF(h))] + CleanHeaders(b))
  {
    hide ToLF;
    hide ToCRLF;
    hide CutBlank;
    hide Trim;
    hide Join;
    CleanAppend(a, [h] + b);
    CleanAppend([h], b);
    CleanAppend(a, b);
    assert [h][..0] == [];
    assert CleanHeaders([h]) == if CleanHeader(h) != "" then [CleanHeader(h)] else [];
    hide CleanHeaders;
    if Blank(h) {
      BlankStays(h);
      TrimBlank(ToLF(h));
      assert [] + CleanHeaders(b) == CleanHeaders(b);
      assert CleanHeaders(a + ([h] + b)) == CleanHeaders(a + b);
    }
  }

  /** Where the blank line of a completed message is found. */
  lemma {:induction false} CompletedParts(raw: string)
    requires !CutBlank(ToLF(raw)).hasBody
    ensures var h := CutBlank(ToLF(raw)).head; var p := CutBlank(ToLF(Completed(raw)));
      && p.hasBody && p.head + "\n\n" + p.body == (if Trim(h) == "" then "" else h) + "\n\n"
      && (Trim(p.head) == "" <==> Trim(h) == "") && (Trim(h) == "" ==> p.head == "")
  {
    hide ToLF;
    hide ToCRLF;
    hide CutBlank;
    hide Trim;
    var h := CutBlank(ToLF(raw)).head;
    CutGives(ToLF(raw));
    var t := if Trim(h) == "" then "" else h;
    LfOfCrlf(t + "\n\n");
    TrimNothing();
    if t != "" && t[|t| - 1] == '\n' {
      var g := t[..|t| - 1];
      assert g + "\n" == t && t + "\n\n" == g + "\n\n" + "\n";
      CutJoined(g, "\n");
      TrimBlank(g);
      TrimBlank(t);
      assert IsSpace('\n');
      assert Blank(g) ==> Blank(t);
      assert Blank(t) ==> Blank(g) by { assert forall i :: 0 <= i < |g| ==> g[i] == t[i]; }
    } else {
      assert NoBlankLine(t + "\n");
      assert t + "\n\n" == t + "\n\n" + "";
      CutJoined(t, "");
    }
  }

  /** Prepending completes a message first. */
  lemma {:induction false} PrependCompletes(raw: string, extra: seq<string>)
    ensures Prepended(raw, extra) == Prepended(Completed(raw), extra)
  {
    hide ToLF;
    hide ToCRLF;
    hide CutBlank;
    hide Trim;
    hide Join;
    hide CleanHeaders;
    var h, p := CutBlank(ToLF(raw)), CutBlank(ToLF(Completed(raw)));
    if !h.hasBody {
      CutGives(ToLF(raw));
      CompletedParts(raw);
      hide Completed;
      var own := CleanHeaders(extra);
      if Trim(h.head) != "" {
        JoinAppend(own, [h.head], "\n");
        JoinAppend(own, [p.head], "\n");
        JoinOne(h.head, "\n");
        JoinOne(p.head, "\n");
        var lead := if own == [] then "" else Join(own, "\n") + "\n";
        assert Join(own + [h.head], "\n") + "\n\n" + h.body == lead + (h.head + "\n\n");
        assert Join(own + [p.head], "\n") + "\n\n" + p.body == lead + (p.head + "\n\n" + p.body);
      } else {
        assert p.body == "" by { assert "" + "\n\n" + p.body == "" + "\n\n"; }
      }
    }
  }

  // ----- settling ------------------------------------------------------------------------

  /** The blocks of a header text without blank lines: folding leaves every block
      but the first one block, and the first when it does not start folded. */
  predicate BlocksFine(blocks: seq<string>) {
    && (forall i :: 0 < i < |blocks| ==> OneBlock(blocks[i]))
    && (blocks != [] ==> blocks[0] != "" && blocks[0][0] != '\n' && BreaksFold(blocks[0]))
  }

  lemma {:induction false} FoldFine(c: string, line: string)
    requires c != "" && BreaksFold(c) && Folded(line) && '\n' !in line
    ensures BreaksFold(c + "\n" + line) && (c + "\n" + line)[0] == c[0]
  {
    var s := c + "\n" + line;
    FoldedIs(line);
    assert forall k :: 0 <= k < |line| ==> s[|c| + 1 + k] == line[k];
    forall i | 0 <= i < |s| && s[i] == '\n'
      ensures i + 1 < |s| && (s[i + 1] == ' ' || s[i + 1] == '\t')
    {
      if i < |c| {
        assert s[i] == c[i];
      }
    }
  }

  predicate LinesFine(lines: seq<string>) {
    forall i :: 0 <= i < |lines| ==> lines[i] != "" && '\n' !in lines[i]
  }

  lemma {:induction false} BlocksStayFine(blocks: seq<string>, lines: seq<string>)
    requires BlocksFine(blocks) && LinesFine(lines)
    ensures BlocksFine(BlocksFrom(blocks, lines))
    decreases |lines|
  {
    hide BreaksFold;
    if lines != [] {
      var line, n := lines[0], |blocks| - 1;
      FoldedIs(line);
      LineBreaksFold(line);
      if Folded(line) && |blocks| > 0 {
        hide Folded;
        FoldFine(blocks[n], line);
        BlocksStayFine(blocks[..n] + [blocks[n] + "\n" + line], lines[1..]);
      } else {
        BlocksStayFine(blocks + [line], lines[1..]);
      }
    }
  }

  lemma {:induction false} LineBreaksFold(line: string)
    requires line != "" && '\n' !in line
    ensures BreaksFold(line) && line[0] != '\n'
  {
    assert line[0] in line;
  }

  lemma {:induction false} HeadLinesFine(head: string)
    requires head != "" && head[0] != '\n' && NoBlankLine(head + "\n")
    ensures LinesFine(Lines(head))
    decreases |head|
  {
    hide Lines;
    hide IndexOf;
    var i := IndexOf(head, '\n');
    LinesStep(head, i);
    if i >= 0 {
      var more := head[i + 1..];
      var n := head + "\n";
      assert n[i] == '\n' && n[i + 1] != '\n';
      assert more != "" && more[0] == n[i + 1];
      assert forall k :: 0 <= k <= |more| ==> (more + "\n")[k] == n[i + 1 + k];
      HeadLinesFine(more);
    }
  }

  lemma {:induction false} ForeignFine(blocks: seq<string>, host: string)
    requires AllOneBlock(blocks)
    ensures AllOneBlock(Foreign(blocks, host))
    ensures forall i :: 0 <= i < |Foreign(blocks, host)| ==> !OwnResult(Parse(Foreign(blocks, host)[i]), host)
  {
    hide Parse;
    hide OwnResult;
    hide OneBlock;
    if blocks != [] {
      ForeignFine(blocks[1..], host);
    }
  }

  /** The text that remains is restored by stripping, unless its headers are blank. */
  lemma {:induction false} JoinedForeign(cs: seq<string>, body: string, host: string)
    requires AllOneBlock(cs) && forall i :: 0 <= i < |cs| ==> !OwnResult(Parse(cs[i]), host)
    ensures var x := ToCRLF(Join(cs, "\n") + "\n\n" + body); var p := CutBlank(ToLF(x));
      && p.hasBody && p.head == Join(cs, "\n")
      && (Recoverable(x, host) <==> p.head == "" || Trim(p.head) != "")
  {
    hide Parse;
    hide OwnResult;
    hide Join;
    hide ToLF;
    hide ToCRLF;
    hide CutBlank;
    hide Trim;
    hide Blocks;
    hide Lines;
    var h := Join(cs, "\n");
    var t := h + "\n\n" + body;
    LfOfCrlf(t);
    CrlfHasNoBareLF(t);
    hide NoBareLF;
    if cs == [] {
      JoinOfNone("\n");
    } else {
      OwnText(cs);
      hide AllOneBlock;
      FirstCharacter(cs);
    }
    CutJoined(h, body);
  }

  lemma {:induction false} FirstCharacter(cs: seq<string>)
    requires cs != [] && AllOneBlock(cs)
    ensures var h := Join(cs, "\n"); h != "" && h[0] != ' ' && h[0] != '\t' && h[0] != '\n'
  {
    hide Join;
    assert OneBlock(cs[0]);
    assert cs == [cs[0]] + cs[1..];
    JoinAppend([cs[0]], cs[1..], "\n");
    JoinOne(cs[0], "\n");
  }

  /** One round of prepending and stripping leaves a text that further rounds
      restore, unless its header part is blank but not empty. */
  lemma {:induction false} SettleOnce(raw: string, host: string)
    requires CutBlank(ToLF(raw)).hasBody
    ensures var p := CutBlank(ToLF(Settle(raw, host)));
      && p.hasBody
      && (Recoverable(Settle(raw, host), host) <==> p.head == "" || Trim(p.head) != "")
  {
    hide Parse;
    hide OwnResult;
    hide Join;
    hide ToLF;
    hide ToCRLF;
    hide CutBlank;
    hide Trim;
    hide Blocks;
    hide Foreign;
    hide Recoverable;
    hide AllOneBlock;
    hide NoBlankLine;
    var p := CutBlank(ToLF(raw));
    CutGives(ToLF(raw));
    TrimNothing();
    if Trim(p.head) == "" || "\n" <= p.head {
      var body := if Trim(p.head) == "" then p.body else p.head[1..] + "\n\n" + p.body;
      NoBlocks();
      JoinOfNone("\n");
      assert "" + "\n\n" + body == "\n\n" + body;
      JoinedForeign([], body, host);
    } else {
      FoldedIs(p.head);
      assert p.head[0] != '\n' by { assert p.head[..1] == [p.head[0]]; }
      HeadBlocksFine(p.head);
      var bs := Blocks(p.head);
      var cs := if Folded(p.head) then bs[1..] else bs;
      ForeignFine(cs, host);
      JoinedForeign(Foreign(cs, host), p.body, host);
    }
  }

  lemma {:induction false} NoBlocks()
    ensures AllOneBlock([])
  {
  }

  lemma {:induction false} HeadBlocksFine(head: string)
    requires head != "" && head[0] != '\n' && NoBlankLine(head + "\n")
    ensures var bs := Blocks(head); bs != [] && AllOneBlock(bs[1..]) && (!Folded(head) ==> AllOneBlock(bs))
  {
    hide Lines;
    hide BlocksFrom;
    hide NoBlankLine;
    HeadLinesFine(head);
    BlocksStayFine([], Lines(head));
    JoinBlocksOf(head);
    FoldedIs(head);
    FirstBlockStarts(head);
  }

  lemma {:induction false} FirstBlockStarts(head: string)
    requires head != ""
    ensures Blocks(head) != [] && Blocks(head)[0] <= head
  {
    hide Blocks;
    hide Join;
    JoinBlocksOf(head);
    var bs := Blocks(head);
    assert bs == [bs[0]] + bs[1..];
    JoinAppend([bs[0]], bs[1..], "\n");
    JoinOne(bs[0], "\n");
  }

  /** After a second round the text is restored in every case. */
  lemma {:induction false} SettleTwice(raw: string, host: string)
    requires CutBlank(ToLF(raw)).hasBody
    ensures Recoverable(Settle(Settle(raw, host), host), host)
  {
    hide ToLF;
    hide ToCRLF;
    hide CutBlank;
    hide Trim;
    hide Remains;
    hide Recoverable;
    SettleOnce(raw, host);
    var once := Settle(raw, host);
    SettleOnce(once, host);
    if Recoverable(once, host) {
      SettledIsRestored(once, host);
    } else {
      BlankHeadDropped(once, host);
    }
  }

  lemma {:induction false} BlankHeadDropped(raw: string, host: string)
    requires var p := CutBlank(ToLF(raw)); p.hasBody && Trim(p.head) == ""
    ensures CutBlank(ToLF(Settle(raw, host))).head == ""
  {
    hide ToLF;
    hide ToCRLF;
    hide CutBlank;
    hide Trim;
    hide Foreign;
    hide Blocks;
    var p := CutBlank(ToLF(raw));
    LfOfCrlf("\n\n" + p.body);
    CutStep("\n\n" + p.body);
  }

  /** A message is what it settles to exactly when stripping restores it. */
  lemma {:induction false} SettledIsRestored(raw: string, host: string)
    requires CutBlank(ToLF(raw)).hasBody
    ensures Settle(raw, host) == raw <==> Recoverable(raw, host)
  {
    hide ToCRLF;
    hide ToLF;
    hide CutBlank;
    hide Parse;
    hide Trim;
    hide Blocks;
    hide OwnResult;
    hide Remains;
    hide NoBareLF;
    var p := CutBlank(ToLF(raw));
    CutGives(ToLF(raw));
    RemainsAll(p, host);
    var x := Remains(p, host);
    LfOfCrlf(x);
    CrlfHasNoBareLF(x);
    if NoBareLF(raw) {
      CrlfOfLf(raw);
    }
  }

  // ----- re-checks ---------------------------------------------------------------------

  /** One re-check of any enriched message enriches what it settles to. */
  lemma {:induction false} ReverifySettles(d: string, first: Round, tls: bool, r: Round, raw: string)
    requires TokenDomain(d) && Dated(first)
    ensures Reverify(d, r, Enrich(d, first, tls, raw))
         == Enrich(d, r, SaysItself(first) || tls, Settle(Completed(raw), Host(d)))
  {
    hide Strip;
    hide Prepended;
    hide ReceivedHeader;
    hide OwnHeaders;
    hide Host;
    hide TokenDomain;
    hide CleanHeader;
    hide CutBlank;
    hide ToLF;
    hide Parse;
    hide SaysTls;
    hide Remains;
    hide NoBreak;
    var m, res := Written(first, tls), first.auth(raw);
    SameWords(first.mail, m, first.date);
    hide Misleads;
    PrependCompletes(raw, OwnHeaders(d, m, res, first.date));
    CompletedHasBody(raw);
    hide Completed;
    StripEnriched(d, m, res, first.date, Completed(raw));
    TlsIsRecorded(d, m, first.date);
  }

  lemma {:induction false} CompletedHasBody(raw: string)
    ensures CutBlank(ToLF(Completed(raw))).hasBody
  {
    hide CutBlank;
    hide ToLF;
    hide ToCRLF;
    hide Trim;
    if !CutBlank(ToLF(raw)).hasBody {
      CompletedParts(raw);
    }
  }

  /** Two or more re-checks of any message at all: the text is the one it settles
      to after two rounds, enriched with the latest results. It is the one after a
      single round unless that leaves a header part of blanks. */
  lemma {:induction false} ReverifyAllSettles(d: string, first: Round, tls: bool, rounds: seq<Round>, last: Round,
      raw: string)
    requires TokenDomain(d) && rounds != []
    requires Dated(first) && forall i :: 0 <= i < |rounds| ==> Dated(rounds[i])
    ensures var once := Settle(Completed(raw), Host(d)); var twice := Settle(once, Host(d));
      && ReverifyAll(d, rounds + [last], Enrich(d, first, tls, raw))
         == Enrich(d, last, tls || SaysItself(first) || AnySays(rounds), twice)
      && (twice == once <==> Recoverable(once, Host(d)))
  {
    hide Enrich;
    hide Reverify;
    hide Host;
    hide TokenDomain;
    hide Recoverable;
    hide Dated;
    hide SaysItself;
    hide Settle;
    hide Completed;
    hide CutBlank;
    hide ToLF;
    hide Trim;
    var host, r := Host(d), rounds[0];
    var once, all := Settle(Completed(raw), host), rounds + [last];
    CompletedHasBody(raw);
    SettleOnce(Completed(raw), host);
    SettleTwice(Completed(raw), host);
    SettledIsRestored(once, host);
    ReverifySettles(d, first, tls, r, raw);
    var second, flag := all[1], SaysItself(first) || tls;
    ReverifySettles(d, r, flag, second, once);
    CompleteIsKept(once);
    TwoRounds(d, all, Enrich(d, first, tls, raw));
    SaysFirst(rounds);
    if |rounds| == 1 {
      assert all[2..] == [] && rounds[1..] == [];
    } else {
      var rest, twice := rounds[2..], Settle(once, host);
      assert all[2..] == rest + [last] && rounds[1..][1..] == rest;
      SaysFirst(rounds[1..]);
      ReverifyAllReplaces(d, second, SaysItself(r) || flag, rest, last, twice);
    }
  }

  lemma {:induction false} TwoRounds(d: string, all: seq<Round>, stored: string)
    requires |all| >= 2
    ensures ReverifyAll(d, all, stored) == ReverifyAll(d, all[2..], Reverify(d, all[1], Reverify(d, all[0], stored)))
  {
    hide Reverify;
    assert all[1..][1..] == all[2..];
  }

  lemma {:induction false} CompleteIsKept(raw: string)
    requires CutBlank(ToLF(raw)).hasBody
    ensures Completed(raw) == raw
  {
    hide CutBlank;
    hide ToLF;
  }

  lemma {:induction false} SaysFirst(rounds: seq<Round>)
    requires rounds != []
    ensures AnySays(rounds) <==> SaysItself(rounds[0]) || AnySays(rounds[1..])
  {
    hide SaysItself;
    assert forall i :: 0 < i < |rounds| ==> rounds[i] == rounds[1..][i - 1];
    assert forall i :: 0 <= i < |rounds[1..]| ==> rounds[1..][i] == rounds[i + 1];
  }
}
