/** How the loop over header blocks treats foreign blocks and the six headers of
    this host. */
module HeaderRoundTrip {
  import opened Text
  import opened TextLemmas
  import opened HeaderSurgery
  import opened HeaderLemmas
  import opened ReceiverHeaders
  import opened OwnHeaderLemmas

  // ----- sifting -----------------------------------------------------------------

  /** The blocks that are no result header of the host. */
  function Foreign(blocks: seq<string>, host: string): seq<string> {
    if |blocks| == 0 then []
    else (if OwnResult(Parse(blocks[0]), host) then [] else [blocks[0]]) + Foreign(blocks[1..], host)
  }

  lemma {:induction false} SiftConcat(s: Sifted, a: seq<string>, b: seq<string>, host: string)
    ensures Sift(s, a + b, host) == Sift(Sift(s, a, host), b, host)
    decreases |a|
  {
    hide SiftOne;
    if a == [] {
      assert a + b == b;
    } else {
      assert (a + b)[1..] == a[1..] + b;
      SiftConcat(SiftOne(s, a[0], host), a[1..], b, host);
    }
  }

  /** Once the Received line is gone, only result headers are dropped. */
  lemma {:induction false} SiftForeign(s: Sifted, blocks: seq<string>, host: string)
    requires s.received
    ensures Sift(s, blocks, host) == s.(kept := s.kept + Foreign(blocks, host))
    decreases |blocks|
  {
    hide Parse;
    hide OwnResult;
    hide OwnReceived;
    if blocks == [] {
      assert s.kept + [] == s.kept;
    } else {
      var b := blocks[0];
      var t := SiftOne(s, b, host);
      SiftForeign(t, blocks[1..], host);
      if !OwnResult(Parse(b), host) {
        assert (s.kept + [b]) + Foreign(blocks[1..], host) == s.kept + ([b] + Foreign(blocks[1..], host));
      } else {
        assert [] + Foreign(blocks[1..], host) == Foreign(blocks[1..], host);
      }
    }
  }

  lemma {:induction false} OwnIsNotEmpty(b: string, host: string)
    requires OwnResult(Parse(b), host)
    ensures b != ""
  {
    hide Parse;
    hide Contains;
    EmptyHasNoName();
  }

  lemma {:induction false} EmptyHasNoName()
    ensures Parse("").name == ""
  {
    hide Fields;
    hide Join;
    hide Trim;
    TrimNothing();
  }

  lemma {:induction false} JoinOfNone(sep: string)
    ensures Join([], sep) == ""
  {
  }

  /** Dropping a result header makes the text shorter. */
  lemma {:induction false} ForeignShorter(blocks: seq<string>, host: string)
    ensures Foreign(blocks, host) == blocks || |Join(Foreign(blocks, host), "\n")| < |Join(blocks, "\n")|
    ensures Foreign(blocks, host) == blocks
        <==> forall i :: 0 <= i < |blocks| ==> !OwnResult(Parse(blocks[i]), host)
    ensures |Foreign(blocks, host)| <= |blocks|
  {
    hide Parse;
    hide OwnResult;
    hide Join;
    if blocks != [] {
      var b, rest := blocks[0], blocks[1..];
      ForeignShorter(rest, host);
      JoinOne(b, "\n");
      JoinOfNone("\n");
      assert blocks == [b] + rest;
      JoinAppend([b], rest, "\n");
      JoinAppend([b], Foreign(rest, host), "\n");
      assert [] + Foreign(rest, host) == Foreign(rest, host);
      if OwnResult(Parse(b), host) {
        OwnIsNotEmpty(b, host);
      } else {
        assert forall i :: 0 < i < |blocks| ==> blocks[i] == rest[i - 1];
        assert forall i :: 0 <= i < |rest| ==> rest[i] == blocks[i + 1];
      }
    }
  }

  // ----- a run of one-block headers ---------------------------------------------

  predicate AllOneBlock(cs: seq<string>) {
    forall i :: 0 <= i < |cs| ==> OneBlock(cs[i])
  }

  /** Headers joined by line breaks fall apart into the same headers. */
  lemma {:induction false} OwnText(cs: seq<string>)
    requires cs != [] && AllOneBlock(cs)
    ensures var t := Join(cs, "\n");
      && Blocks(t) == cs && NoBlankLine(t + "\n") && Lines(t) != [] && !Folded(Lines(t)[0])
      && t != "" && t[0] != '\n'
  {
    hide OneBlock;
    hide Lines;
    hide BlocksFrom;
    hide Folded;
    assert OneBlock(cs[0]);
    OneBlockIsOne(cs[0]);
    OneBlockHasNoBlankLine(cs[0]);
    OneBlockStarts(cs[0]);
    if |cs| > 1 {
      var rest := Join(cs[1..], "\n");
      assert AllOneBlock(cs[1..]);
      OwnText(cs[1..]);
      LinesAppend(cs[0], rest);
      BlocksConcat([], Lines(cs[0]), Lines(rest));
      BlocksAppend([cs[0]], Lines(rest));
      assert [cs[0]] + cs[1..] == cs;
      NoBlankLineAppend(cs[0], rest + "\n");
      assert cs[0] + "\n" + (rest + "\n") == Join(cs, "\n") + "\n";
    }
  }

  lemma {:induction false} OneBlockStarts(c: string)
    requires OneBlock(c)
    ensures c != "" && c[0] != '\n'
  {
  }

  lemma {:induction false} NoBlankLineAppend(a: string, b: string)
    requires NoBlankLine(a + "\n") && NoBlankLine(b) && (b == "" || b[0] != '\n')
    ensures NoBlankLine(a + "\n" + b)
  {
    var n, s := a + "\n", a + "\n" + b;
    forall i | 0 < i < |s| && s[i] == '\n'
      ensures s[i - 1] != '\n'
    {
      if i < |n| {
        assert s[i] == n[i] && s[i - 1] == n[i - 1];
      } else {
        assert s[i] == b[i - |n|];
        assert i > |n| ==> s[i - 1] == b[i - |n| - 1];
      }
    }
  }

  // ----- folding onto the block before -----------------------------------------------

  function Onto(c: string, blocks: seq<string>): seq<string>
    requires blocks != []
  {
    [c + "\n" + blocks[0]] + blocks[1..]
  }

  lemma {:induction false} BlocksOnto(c: string, blocks: seq<string>, lines: seq<string>)
    requires blocks != []
    ensures BlocksFrom(blocks, lines) != []
    ensures BlocksFrom(Onto(c, blocks), lines) == Onto(c, BlocksFrom(blocks, lines))
    decreases |lines|
  {
    if lines != [] {
      var l, n := lines[0], |blocks| - 1;
      var o := Onto(c, blocks);
      assert |o| == |blocks|;
      if Folded(l) {
        var merged := blocks[..n] + [blocks[n] + "\n" + l];
        assert o[..n] + [o[n] + "\n" + l] == Onto(c, merged) by {
          if n == 0 {
            assert c + "\n" + blocks[0] + "\n" + l == c + "\n" + (blocks[0] + "\n" + l);
          }
        }
        BlocksOnto(c, merged, lines[1..]);
      } else {
        assert o + [l] == Onto(c, blocks + [l]);
        BlocksOnto(c, blocks + [l], lines[1..]);
      }
    }
  }

  /** A text whose first line is folded continues the last block before it. */
  lemma {:induction false} FoldedContinues(cs: seq<string>, head: string)
    requires cs != [] && Folded(Lines(head)[0])
    ensures var bs := Blocks(head);
      bs != [] && BlocksFrom(cs, Lines(head)) == cs[..|cs| - 1] + Onto(cs[|cs| - 1], bs)
  {
    hide Folded;
    hide Lines;
    var lines, n := Lines(head), |cs| - 1;
    JoinLines(head);
    var l := lines[0];
    BlocksStart(l, lines[1..]);
    assert [l] + lines[1..] == lines;
    BlocksOnto(cs[n], [l], lines[1..]);
    BlocksKeepFront(cs[..n], Onto(cs[n], [l]), lines[1..]);
    assert Onto(cs[n], [l]) == [cs[n] + "\n" + l];
    assert cs == cs[..n] + [cs[n]];
  }

  // ----- the receiver's own headers -----------------------------------------------------

  function Cleaned(extra: seq<string>): seq<string> {
    if |extra| == 0 then [] else [CleanHeader(extra[0])] + Cleaned(extra[1..])
  }

  lemma {:induction false} CleanedKeepsAll(extra: seq<string>, h: string)
    ensures Cleaned(extra + [h]) == Cleaned(extra) + [CleanHeader(h)]
  {
    hide CleanHeader;
    if extra == [] {
      assert [] + [h] == [h] && [h][1..] == [];
    } else {
      assert (extra + [h])[1..] == extra[1..] + [h];
      CleanedKeepsAll(extra[1..], h);
    }
  }

  lemma {:induction false} CleanHeadersAre(extra: seq<string>)
    requires forall i :: 0 <= i < |extra| ==> CleanHeader(extra[i]) != ""
    ensures CleanHeaders(extra) == Cleaned(extra)
  {
    hide CleanHeader;
    if extra != [] {
      var front, h := extra[..|extra| - 1], extra[|extra| - 1];
      CleanHeadersAre(front);
      CleanedKeepsAll(front, h);
      assert front + [h] == extra;
    }
  }

  /** The six cleaned headers: each is one block; Received comes first and is
      recognised, the others are recognised as result headers. */
  predicate OwnSix(cs: seq<string>, host: string) {
    && |cs| == 6 && AllOneBlock(cs)
    && OwnReceived(Parse(cs[0]), host)
    && OwnResult(Parse(cs[1]), host) && OwnResult(Parse(cs[2]), host)
    && "x-sender-report-" <= Parse(cs[3]).name
    && "x-sender-report-" <= Parse(cs[4]).name
    && "x-sender-report-" <= Parse(cs[5]).name && ':' in cs[5]
  }

  lemma {:induction false} ReceivedIsOwn(d: string, m: Mail, date: string)
    requires TokenDomain(d) && NoBreak(date)
    ensures var c := CleanHeader(ReceivedHeader(d, m, date)); OneBlock(c) && OwnReceived(Parse(c), Host(d))
  {
    hide SafeAuthValue;
    hide EmptyFallback;
    hide ReceivedLines;
    hide FieldsOf;
    hide ForClause;
    hide OneBlock;
    hide FromClause;
    hide ByClause;
    hide Contains;
    hide Join;
    hide NoBreak;
    hide ReceivedHeader;
    hide CleanHeader;
    hide Parse;
    hide TokenDomain;
    hide Host;
    hide Fields;
    hide Trim;
    hide Solid;
    HostAgrees(d);
    ReceivedIsBlock(d, m, date);
    var host := Host(d);
    var helo := SafeAuthValue(EmptyFallback(m.helo, "unknown"));
    var ip := SafeAuthValue(EmptyFallback(m.remoteIP, "unknown"));
    SplitReceived(host, m, date);
    FromFields(helo, ip);
    ProtocolSolid(m.tls);
    ByFields(host, Protocol(m.tls));
    var front := ["from"] + Fields(" " + helo + " ([" + ip + "])");
    var back := [Protocol(m.tls) + ";"] + FieldsOf(ForClause(m.rcptTo) + [date]);
    HostInside(front, host, back);
    assert FieldsOf(ReceivedLines(host, m, date))
        == front + ["by", host, "with"] + back;
  }

  lemma {:induction false} ProtocolSolid(tls: bool)
    ensures Solid(Protocol(tls))
  {
    assert Solid("ESMTP") && Solid("ESMTPS");
  }

  lemma {:induction false} SplitReceived(host: string, m: Mail, date: string)
    ensures FieldsOf(ReceivedLines(host, m, date))
         == Fields(FromClause(SafeAuthValue(EmptyFallback(m.helo, "unknown")),
                               SafeAuthValue(EmptyFallback(m.remoteIP, "unknown"))))
          + Fields(ByClause(host, Protocol(m.tls))) + FieldsOf(ForClause(m.rcptTo) + [date])
  {
    hide Fields;
    hide SafeAuthValue;
    hide EmptyFallback;
    hide ForClause;
    hide FromClause;
    hide ByClause;
    var lines := ReceivedLines(host, m, date);
    assert lines[1..][1..] == ForClause(m.rcptTo) + [date];
  }

  lemma {:induction false} HostInside(x: seq<string>, host: string, y: seq<string>)
    requires x != [] && y != []
    ensures Contains(Join(x + ["by", host, "with"] + y, " "), " by " + host + " with ")
  {
    hide Join;
    hide Contains;
    var mid := ["by", host, "with"];
    JoinAppend(x + mid, y, " ");
    JoinAppend(x, mid, " ");
    JoinThree("by", host, "with", " ");
    var needle := " by " + host + " with ";
    var a, b := Join(x, " "), Join(y, " ");
    OccursIn(a, needle, b);
    assert (a + " " + ("by" + " " + host + " " + "with")) + " " + b == a + needle + b;
  }

  lemma {:induction false} JoinThree(a: string, b: string, c: string, sep: string)
    ensures Join([a, b, c], sep) == a + sep + b + sep + c
  {
    assert [a, b, c][1..] == [b, c] && [b, c][1..] == [c];
    assert Join([b, c], sep) == b + sep + c;
    assert a + sep + (b + sep + c) == a + sep + b + sep + c;
  }

  lemma {:induction false} OwnHeadersAreOwn(d: string, m: Mail, res: AuthResults, date: string)
    requires TokenDomain(d) && NoBreak(date)
    ensures var cs := Cleaned(OwnHeaders(d, m, res, date));
      && OwnSix(cs, Host(d)) && CleanHeaders(OwnHeaders(d, m, res, date)) == cs
      && cs[0] == CleanHeader(ReceivedHeader(d, m, date))
  {
    hide CleanHeader;
    hide Parse;
    hide OwnResult;
    hide OwnReceived;
    hide OneBlock;
    hide TokenDomain;
    hide Host;
    hide ReceivedHeader;
    hide AuthenticationResultsHeader;
    hide ReceivedSpfHeader;
    hide DetailHeader;
    hide Solid;
    hide Lower;
    Kinds();
    var host := Host(d);
    ReceivedIsOwn(d, m, date);
    AuthResultsIsOwn(d, res);
    ReceivedSpfIsOwn(d, m, res.spf);
    DetailIsOwn("SPF", res.spfDetail);
    DetailIsOwn("DKIM", res.dkimDetail);
    DetailIsOwn("DMARC", res.dmarcDetail);
    var hs := OwnHeaders(d, m, res, date);
    CleanedAt(hs);
    var cs := Cleaned(hs);
    forall i | 0 <= i < |hs|
      ensures OneBlock(cs[i])
    {
    }
    forall i | 0 <= i < |hs|
      ensures CleanHeader(hs[i]) != ""
    {
      OneBlockStarts(cs[i]);
    }
    CleanHeadersAre(hs);
  }

  lemma {:induction false} Kinds()
    ensures Solid("SPF") && ':' !in "SPF" && Solid("DKIM") && ':' !in "DKIM" && Solid("DMARC") && ':' !in "DMARC"
  {
  }

  lemma {:induction false} CleanedAt(hs: seq<string>)
    ensures |Cleaned(hs)| == |hs|
    ensures forall i :: 0 <= i < |hs| ==> Cleaned(hs)[i] == CleanHeader(hs[i])
  {
    hide CleanHeader;
    if hs != [] {
      CleanedAt(hs[1..]);
    }
  }

  /** Sifting the six headers keeps none of them. */
  lemma {:induction false} SiftOwn(cs: seq<string>, host: string)
    requires OwnSix(cs, host)
    ensures Sift(Sifted([], false, false), cs, host) == Sifted([], true, SaysTls(Parse(cs[0])))
  {
    hide Parse;
    hide SaysTls;
    hide AllOneBlock;
    hide OwnReceived;
    var s := Sifted([], true, SaysTls(Parse(cs[0])));
    assert SiftOne(Sifted([], false, false), cs[0], host) == s by { OwnReceivedIsNoResult(Parse(cs[0]), host); }
    AllOwn(cs[1..], host);
    SiftForeign(s, cs[1..], host);
  }

  lemma {:induction false} OwnReceivedIsNoResult(b: Block, host: string)
    requires OwnReceived(b, host)
    ensures !OwnResult(b, host)
  {
    assert "received"[0] != "x-sender-report-"[0];
  }

  lemma {:induction false} AllOwn(blocks: seq<string>, host: string)
    requires forall i :: 0 <= i < |blocks| ==> OwnResult(Parse(blocks[i]), host)
    ensures Foreign(blocks, host) == []
  {
    hide Parse;
    hide OwnResult;
    if blocks != [] {
      AllOwn(blocks[1..], host);
    }
  }
}
