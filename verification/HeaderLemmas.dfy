/** Laws of line endings, of the cut at the blank line, of lines and of blocks. */
module HeaderLemmas {
  import opened Text
  import opened TextLemmas
  import opened HeaderSurgery

  // ----- line endings --------------------------------------------------------

  predicate NoBareLF(s: string) {
    forall i :: 0 <= i < |s| && s[i] == '\n' ==> i > 0 && s[i - 1] == '\r'
  }

  lemma {:induction false} LfOfCrlf(s: string)
    ensures ToLF(ToCRLF(s)) == s
  {
    if s != "" {
      LfOfCrlf(s[1..]);
      var t := ToCRLF(s[1..]);
      if s[0] == '\n' {
        assert ("\r\n" + t)[2..] == t;
      } else {
        assert ([s[0]] + t)[1..] == t;
        assert t == "" || t[0] != '\n';
      }
    }
  }

  lemma {:induction false} CrlfHasNoBareLF(s: string)
    ensures NoBareLF(ToCRLF(s))
  {
    if s != "" {
      CrlfHasNoBareLF(s[1..]);
      var t := ToCRLF(s[1..]);
      var r := ToCRLF(s);
      var k := |r| - |t|;
      forall i | 0 <= i < |r| && r[i] == '\n'
        ensures i > 0 && r[i - 1] == '\r'
      {
        if i >= k {
          assert t[i - k] == '\n';
        }
      }
    }
  }

  lemma {:induction false} CrlfOfLf(s: string)
    requires NoBareLF(s)
    ensures ToCRLF(ToLF(s)) == s
    decreases |s|
  {
    if s != "" {
      if |s| >= 2 && s[0] == '\r' && s[1] == '\n' {
        var t := s[2..];
        assert forall i :: 0 <= i < |t| ==> t[i] == s[i + 2];
        assert NoBareLF(t);
        CrlfOfLf(t);
        assert s == "\r\n" + t;
        assert ("\n" + ToLF(t))[1..] == ToLF(t);
      } else {
        var t := s[1..];
        assert s[0] != '\n';
        assert forall i :: 0 <= i < |t| ==> t[i] == s[i + 1];
        assert NoBareLF(t);
        CrlfOfLf(t);
        assert s == [s[0]] + t;
        assert ([s[0]] + ToLF(t))[1..] == ToLF(t);
      }
    }
  }

  lemma {:induction false} LfPlain(a: string)
    requires '\r' !in a
    ensures ToLF(a) == a
  {
    if a != "" {
      assert a[0] != '\r' && forall c :: c in a[1..] ==> c in a;
      LfPlain(a[1..]);
    }
  }

  lemma {:induction false} LfStep(s: string)
    requires s != "" && s[0] != '\r'
    ensures ToLF(s) == [s[0]] + ToLF(s[1..])
  {
  }

  lemma {:induction false} LfAppend(a: string, b: string)
    requires '\r' !in a
    ensures ToLF(a + b) == a + ToLF(b)
  {
    hide ToLF;
    if a == "" {
      assert a + b == b;
    } else {
      assert a[0] != '\r' && forall c :: c in a[1..] ==> c in a;
      LfStep(a + b);
      assert (a + b)[1..] == a[1..] + b;
      LfAppend(a[1..], b);
      assert a == [a[0]] + a[1..];
    }
  }

  // ----- the blank line ---------------------------------------------------------

  predicate NoBlankLine(s: string) {
    forall i :: 0 < i < |s| && s[i] == '\n' ==> s[i - 1] != '\n'
  }

  lemma {:induction false} CutJoined(h: string, b: string)
    requires NoBlankLine(h + "\n")
    ensures CutBlank(h + "\n\n" + b) == Parts(h, b, true)
  {
    var s := h + "\n\n" + b;
    if h == "" {
      assert s[2..] == b;
    } else {
      var n := h + "\n";
      assert n[0] == h[0] && n[1] == s[1];
      assert s[1..] == h[1..] + "\n\n" + b;
      assert forall i :: 0 <= i <= |h[1..]| ==> (h[1..] + "\n")[i] == n[i + 1];
      CutJoined(h[1..], b);
      assert [s[0]] + h[1..] == h;
    }
  }

  lemma {:induction false} CutStep(s: string)
    ensures s == "" ==> CutBlank(s) == Parts("", "", false)
    ensures "\n\n" <= s ==> CutBlank(s) == Parts("", s[2..], true)
    ensures s != "" && !("\n\n" <= s) ==>
      var p := CutBlank(s[1..]); CutBlank(s) == Parts([s[0]] + p.head, p.body, p.hasBody)
  {
  }

  lemma {:induction false} CutGives(s: string)
    ensures var p := CutBlank(s);
      && s == (if p.hasBody then p.head + "\n\n" + p.body else p.head)
      && (p.hasBody ==> NoBlankLine(p.head + "\n"))
      && (!p.hasBody ==> NoBlankLine(p.head) && p.body == "")
  {
    hide CutBlank;
    CutStep(s);
    if |s| > 0 && !("\n\n" <= s) {
      hide NoBlankLine;
      CutGives(s[1..]);
      var p, q := CutBlank(s), CutBlank(s[1..]);
      assert s == [s[0]] + s[1..];
      if p.hasBody {
        assert p.head + "\n" == [s[0]] + (q.head + "\n");
        NoBlankLineCons(s[0], q.head + "\n", s);
        assert s == p.head + "\n\n" + p.body;
      } else {
        NoBlankLineCons(s[0], q.head, s);
      }
    }
  }

  lemma {:induction false} NoBlankLineCons(c: char, t: string, s: string)
    requires NoBlankLine(t) && s != "" && s[0] == c && !("\n\n" <= s) && t <= s[1..]
    ensures NoBlankLine([c] + t)
  {
    var r := [c] + t;
    forall i | 0 < i < |r| && r[i] == '\n'
      ensures r[i - 1] != '\n'
    {
      if i == 1 {
        assert s[1] == t[0];
        assert s[..2] == [s[0], s[1]];
      } else {
        assert t[i - 1] == '\n';
      }
    }
  }

  // ----- lines and blocks --------------------------------------------------------

  lemma {:induction false} LinesAppend(a: string, b: string)
    ensures Lines(a + "\n" + b) == Lines(a) + Lines(b)
    decreases |a|
  {
    hide Lines;
    hide IndexOf;
    var s := a + "\n" + b;
    var i := IndexOf(a, '\n');
    LinesStep(a, i);
    if i == -1 {
      assert s[..|a|] == a && s[|a| + 1..] == b;
      IndexIs(s, '\n', |a|);
      LinesStep(s, |a|);
    } else {
      assert s[i] == a[i] && s[..i] == a[..i];
      IndexIs(s, '\n', i);
      LinesStep(s, i);
      assert s[i + 1..] == a[i + 1..] + "\n" + b;
      LinesAppend(a[i + 1..], b);
      assert [a[..i]] + (Lines(a[i + 1..]) + Lines(b)) == Lines(a) + Lines(b);
    }
  }

  lemma {:induction false} JoinLines(s: string)
    ensures Join(Lines(s), "\n") == s && |Lines(s)| > 0
    decreases |s|
  {
    hide Lines;
    hide IndexOf;
    hide Join;
    var i := IndexOf(s, '\n');
    LinesStep(s, i);
    if i == -1 {
      JoinOne(s, "\n");
    } else {
      var line, more := s[..i], s[i + 1..];
      JoinLines(more);
      JoinAppend([line], Lines(more), "\n");
      JoinOne(line, "\n");
      assert s == line + "\n" + more;
    }
  }

  lemma {:induction false} FirstLine(s: string)
    ensures |Lines(s)| > 0 && Lines(s)[0] <= s
    ensures s != "" && s[0] != '\n' ==> Lines(s)[0] != "" && Lines(s)[0][0] == s[0]
  {
  }

  /** Lines added to the last block leave the blocks before it alone. */
  lemma {:induction false} BlocksKeepFront(front: seq<string>, blocks: seq<string>, lines: seq<string>)
    requires blocks != []
    ensures BlocksFrom(front + blocks, lines) == front + BlocksFrom(blocks, lines)
    decreases |lines|
  {
    if lines != [] {
      var n := |blocks| - 1;
      var all := front + blocks;
      if Folded(lines[0]) {
        var merged := blocks[..n] + [blocks[n] + "\n" + lines[0]];
        assert all[..|all| - 1] + [all[|all| - 1] + "\n" + lines[0]] == front + merged;
        BlocksKeepFront(front, merged, lines[1..]);
      } else {
        assert all + [lines[0]] == front + (blocks + [lines[0]]);
        BlocksKeepFront(front, blocks + [lines[0]], lines[1..]);
      }
    }
  }

  /** Lines that start with an unfolded one form blocks of their own. */
  lemma {:induction false} BlocksAppend(blocks: seq<string>, lines: seq<string>)
    requires lines != [] ==> !Folded(lines[0])
    ensures BlocksFrom(blocks, lines) == blocks + BlocksFrom([], lines)
  {
    if lines == [] {
      assert blocks + [] == blocks;
    } else {
      BlocksKeepFront(blocks, [lines[0]], lines[1..]);
      assert [] + [lines[0]] == [lines[0]];
    }
  }

  lemma {:induction false} BlocksConcat(blocks: seq<string>, a: seq<string>, b: seq<string>)
    ensures BlocksFrom(blocks, a + b) == BlocksFrom(BlocksFrom(blocks, a), b)
    decreases |a|
  {
    if a == [] {
      assert a + b == b;
    } else {
      assert (a + b)[1..] == a[1..] + b;
      if Folded(a[0]) && |blocks| > 0 {
        BlocksConcat(blocks[..|blocks| - 1] + [blocks[|blocks| - 1] + "\n" + a[0]], a[1..], b);
      } else {
        BlocksConcat(blocks + [a[0]], a[1..], b);
      }
    }
  }

  /** Forming blocks loses nothing. */
  lemma {:induction false} JoinBlocks(blocks: seq<string>, lines: seq<string>)
    ensures Join(BlocksFrom(blocks, lines), "\n") == Join(blocks + lines, "\n")
    ensures lines != [] ==> BlocksFrom(blocks, lines) != []
    decreases |lines|
  {
    if lines == [] {
      assert blocks + lines == blocks;
    } else if Folded(lines[0]) && |blocks| > 0 {
      var n := |blocks| - 1;
      var front, last := blocks[..n], blocks[n];
      JoinBlocks(front + [last + "\n" + lines[0]], lines[1..]);
      assert blocks + lines == front + ([last, lines[0]] + lines[1..]);
      assert front + [last + "\n" + lines[0]] + lines[1..] == front + ([last + "\n" + lines[0]] + lines[1..]);
      JoinAppend([last, lines[0]], lines[1..], "\n");
      JoinAppend([last + "\n" + lines[0]], lines[1..], "\n");
      assert Join([last, lines[0]], "\n") == last + "\n" + lines[0];
      JoinAppend(front, [last, lines[0]] + lines[1..], "\n");
      JoinAppend(front, [last + "\n" + lines[0]] + lines[1..], "\n");
      if lines[1..] == [] {
        assert BlocksFrom(front + [last + "\n" + lines[0]], []) != [];
      }
    } else {
      assert blocks + [lines[0]] + lines[1..] == blocks + lines;
      JoinBlocks(blocks + [lines[0]], lines[1..]);
      if lines[1..] == [] {
        assert BlocksFrom(blocks + [lines[0]], []) != [];
      }
    }
  }

  /** The blocks of a header text joined again give the text. */
  lemma {:induction false} JoinBlocksOf(head: string)
    ensures Join(Blocks(head), "\n") == head && |Blocks(head)| > 0
  {
    JoinBlocks([], Lines(head));
    JoinLines(head);
    assert [] + Lines(head) == Lines(head);
  }

  // ----- one header ----------------------------------------------------------------

  /** Every line break is followed by a blank. */
  predicate BreaksFold(s: string) {
    forall i :: 0 <= i < |s| && s[i] == '\n' ==> i + 1 < |s| && (s[i + 1] == ' ' || s[i + 1] == '\t')
  }

  /** A header on one line, or with every further line folded. */
  predicate OneBlock(c: string) {
    c != "" && c[0] != ' ' && c[0] != '\t' && c[0] != '\n' && BreaksFold(c)
  }

  lemma {:induction false} BreaksFoldAfter(s: string, i: nat)
    requires BreaksFold(s) && i < |s| && s[i] == '\n'
    ensures var rest := s[i + 1..]; BreaksFold(rest) && rest != "" && (rest[0] == ' ' || rest[0] == '\t')
  {
    var rest := s[i + 1..];
    assert forall k :: 0 <= k < |rest| ==> rest[k] == s[i + 1 + k];
  }

  lemma {:induction false} AllFolded(block: string, rest: string)
    requires rest != "" && (rest[0] == ' ' || rest[0] == '\t') && BreaksFold(rest)
    ensures BlocksFrom([block], Lines(rest)) == [block + "\n" + rest]
    decreases |rest|
  {
    hide Lines;
    hide IndexOf;
    hide BlocksFrom;
    hide BreaksFold;
    var i := IndexOf(rest, '\n');
    LinesStep(rest, i);
    if i == -1 {
      FoldedLine(rest, rest);
      FoldOnto(block, rest, []);
      NoLines([block + "\n" + rest]);
      assert [rest] + [] == [rest];
    } else {
      var line, more := rest[..i], rest[i + 1..];
      FoldedLine(rest, line);
      BreaksFoldAfter(rest, i);
      FoldOnto(block, line, Lines(more));
      AllFolded(block + "\n" + line, more);
      assert block + "\n" + line + "\n" + more == block + "\n" + rest;
    }
  }

  lemma {:induction false} FoldedLine(rest: string, line: string)
    requires rest != "" && (rest[0] == ' ' || rest[0] == '\t') && line != "" && line <= rest
    ensures Folded(line)
  {
    assert line[..1] == [rest[0]];
  }

  lemma {:induction false} FoldOnto(block: string, line: string, lines: seq<string>)
    requires Folded(line)
    ensures BlocksFrom([block], [line] + lines) == BlocksFrom([block + "\n" + line], lines)
  {
    hide Folded;
    assert ([line] + lines)[1..] == lines;
    assert [block][..0] + [block + "\n" + line] == [block + "\n" + line];
  }

  lemma {:induction false} LinesStep(s: string, i: int)
    requires i == IndexOf(s, '\n')
    ensures Lines(s) == if i == -1 then [s] else [s[..i]] + Lines(s[i + 1..])
  {
  }

  lemma {:induction false} BlocksStart(line: string, lines: seq<string>)
    ensures BlocksFrom([], [line] + lines) == BlocksFrom([line], lines)
  {
    assert ([line] + lines)[1..] == lines;
    assert [] + [line] == [line];
  }

  lemma {:induction false} OneBlockIsOne(c: string)
    requires OneBlock(c)
    ensures Lines(c) != [] && !Folded(Lines(c)[0]) && Blocks(c) == [c]
  {
    hide Lines;
    hide BlocksFrom;
    hide IndexOf;
    hide BreaksFold;
    var i := IndexOf(c, '\n');
    LinesStep(c, i);
    if i == -1 {
      BlocksStart(c, []);
      NoLines([c]);
      assert [c] + [] == [c];
    } else {
      var line, rest := c[..i], c[i + 1..];
      assert line != "" && line[0] == c[0];
      BreaksFoldAfter(c, i);
      AllFolded(line, rest);
      BlocksStart(line, Lines(rest));
      assert line + "\n" + rest == c;
    }
  }

  lemma {:induction false} NoLines(blocks: seq<string>)
    ensures BlocksFrom(blocks, []) == blocks
  {
  }

  lemma {:induction false} OneBlockHasNoBlankLine(c: string)
    requires OneBlock(c)
    ensures NoBlankLine(c + "\n")
  {
  }
}
