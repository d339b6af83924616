/** The header lines the receiver puts in front of a message, and their removal
    before the message is checked again. */
module HeaderSurgery {
  import opened Text

  // ----- line endings, header block and lines --------------------------------

  /** Every CRLF replaced by LF. */
  function ToLF(s: string): string
    decreases |s|
  {
    if |s| == 0 then ""
    else if |s| >= 2 && s[0] == '\r' && s[1] == '\n' then "\n" + ToLF(s[2..])
    else [s[0]] + ToLF(s[1..])
  }

  /** Every LF replaced by CRLF. */
  function ToCRLF(s: string): string {
    if |s| == 0 then "" else (if s[0] == '\n' then "\r\n" else [s[0]]) + ToCRLF(s[1..])
  }

  datatype Parts = Parts(head: string, body: string, hasBody: bool)

  /** Cut at the first blank line. */
  function CutBlank(s: string): Parts {
    if |s| == 0 then Parts("", "", false)
    else if "\n\n" <= s then Parts("", s[2..], true)
    else var p := CutBlank(s[1..]); Parts([s[0]] + p.head, p.body, p.hasBody)
  }

  function Lines(s: string): seq<string>
    decreases |s|
  {
    var i := IndexOf(s, '\n');
    if i == -1 then [s] else [s[..i]] + Lines(s[i + 1..])
  }

  predicate Folded(line: string) {
    " " <= line || "\t" <= line
  }

  /** Header blocks: a folded line belongs to the block before it. */
  function BlocksFrom(blocks: seq<string>, lines: seq<string>): seq<string>
    decreases |lines|
  {
    if |lines| == 0 then blocks
    else if Folded(lines[0]) && |blocks| > 0 then
      BlocksFrom(blocks[..|blocks| - 1] + [blocks[|blocks| - 1] + "\n" + lines[0]], lines[1..])
    else BlocksFrom(blocks + [lines[0]], lines[1..])
  }

  function Blocks(head: string): seq<string> {
    BlocksFrom([], Lines(head))
  }

  // ----- prepending -----------------------------------------------------------

  function CleanHeader(h: string): string {
    Trim(ToLF(h))
  }

  /** The headers to add, with LF line ends and without empty ones. */
  function CleanHeaders(extra: seq<string>): seq<string> {
    if |extra| == 0 then []
    else
      var rest := CleanHeaders(extra[..|extra| - 1]);
      var h := CleanHeader(extra[|extra| - 1]);
      if h != "" then rest + [h] else rest
  }

  function Prepended(raw: string, extra: seq<string>): string {
    var p := CutBlank(ToLF(raw));
    var all := CleanHeaders(extra) + (if Trim(p.head) != "" then [p.head] else []);
    ToCRLF(Join(all, "\n") + "\n\n" + p.body)
  }

  method PrependHeaders(raw: string, extra: seq<string>) returns (r: string)
    ensures r == Prepended(raw, extra)
  {
    hide Trim;
    var p := CutBlank(ToLF(raw));
    var all: seq<string> := [];
    for i := 0 to |extra|
      invariant all == CleanHeaders(extra[..i])
    {
      assert extra[..i + 1][..i] == extra[..i];
      var h := Trim(ToLF(extra[i]));
      if h != "" {
        all := all + [h];
      }
    }
    assert extra[..|extra|] == extra;
    ghost var own := all;
    if Trim(p.head) != "" {
      all := all + [p.head];
    } else {
      assert own + [] == own;
    }
    var joined := Join(all, "\n");
    if p.body != "" {
      joined := joined + "\n\n" + p.body;
    } else {
      joined := joined + "\n\n";
      assert joined + p.body == joined;
    }
    return ToCRLF(joined);
  }

  // ----- stripping --------------------------------------------------------------

  datatype Block = Block(name: string, flat: string)

  /** Name in lower case, and the value with its blanks collapsed. */
  function Parse(b: string): Block {
    var i := IndexOf(b, ':');
    var name := if i == -1 then b else b[..i];
    var value := if i == -1 then "" else b[i + 1..];
    Block(Lower(Trim(name)), Join(Fields(value), " "))
  }

  /** A result header of this host, apart from Received. */
  predicate OwnResult(b: Block, host: string) {
    || "x-sender-report-" <= b.name
    || (b.name == "authentication-results" && host + ";" <= b.flat)
    || (b.name == "received-spf" && Contains(b.flat, "receiver=" + host))
  }

  predicate OwnReceived(b: Block, host: string) {
    b.name == "received" && Contains(b.flat, " by " + host + " with ")
  }

  predicate SaysTls(b: Block) {
    Contains(Lower(b.flat), " with esmtps")
  }

  datatype Sifted = Sifted(kept: seq<string>, received: bool, tls: bool)

  function SiftOne(s: Sifted, block: string, host: string): Sifted {
    var b := Parse(block);
    if OwnResult(b, host) then s
    else if !s.received && OwnReceived(b, host) then Sifted(s.kept, true, SaysTls(b))
    else s.(kept := s.kept + [block])
  }

  function Sift(s: Sifted, blocks: seq<string>, host: string): Sifted
    decreases |blocks|
  {
    if |blocks| == 0 then s else Sift(SiftOne(s, blocks[0], host), blocks[1..], host)
  }

  datatype Stripped = Stripped(clean: string, tls: bool)

  function Strip(raw: string, host: string): Stripped {
    var p := CutBlank(ToLF(raw));
    var s := Sift(Sifted([], false, false), Blocks(p.head), host);
    Stripped(ToCRLF(Join(s.kept, "\n") + (if p.hasBody then "\n\n" + p.body else "")), s.tls)
  }

  method StripReceiverHeaders(raw: string, host: string) returns (clean: string, tls: bool)
    ensures Stripped(clean, tls) == Strip(raw, host)
  {
    hide Parse;
    hide Sift;
    hide OwnResult;
    hide OwnReceived;
    hide SaysTls;
    hide Folded;
    hide Lines;
    var p := CutBlank(ToLF(raw));
    var lines := Lines(p.head);
    var blocks: seq<string> := [];
    for i := 0 to |lines|
      invariant BlocksFrom(blocks, lines[i..]) == Blocks(p.head)
    {
      var line := lines[i];
      assert lines[i..][0] == line && lines[i..][1..] == lines[i + 1..];
      if Folded(line) && |blocks| > 0 {
        blocks := blocks[..|blocks| - 1] + [blocks[|blocks| - 1] + "\n" + line];
      } else {
        blocks := blocks + [line];
      }
    }
    var kept, received;
    kept, received, tls := SiftBlocks(blocks, host);
    var out := Join(kept, "\n");
    ghost var tail := if p.hasBody then "\n\n" + p.body else "";
    assert BlocksFrom(blocks, []) == blocks;
    if p.hasBody {
      assert out + "\n\n" + p.body == out + tail;
      out := out + "\n\n" + p.body;
    } else {
      assert out + tail == out;
    }
    clean := ToCRLF(out);
  }

  /** The loop over the header blocks; Received is dropped once at most. */
  method SiftBlocks(blocks: seq<string>, host: string) returns (kept: seq<string>, received: bool, tls: bool)
    ensures Sifted(kept, received, tls) == Sift(Sifted([], false, false), blocks, host)
  {
    hide Parse;
    hide SaysTls;
    kept, received, tls := [], false, false;
    for i := 0 to |blocks|
      invariant Sift(Sifted(kept, received, tls), blocks[i..], host) == Sift(Sifted([], false, false), blocks, host)
    {
      assert blocks[i..][0] == blocks[i] && blocks[i..][1..] == blocks[i + 1..];
      var b := Parse(blocks[i]);
      var drop := false;
      if "x-sender-report-" <= b.name {
        drop := true;
      } else if b.name == "authentication-results" {
        drop := host + ";" <= b.flat;
      } else if b.name == "received-spf" {
        drop := Contains(b.flat, "receiver=" + host);
      } else if b.name == "received" && !received {
        if Contains(b.flat, " by " + host + " with ") {
          drop, received, tls := true, true, SaysTls(b);
        }
      }
      if !drop {
        kept := kept + [blocks[i]];
      }
    }
  }
}
