/** Senders that stuff lines ended by CRLF, as section 4.5.2 of RFC 5321 has them,
    and the reader, whose lines end at every LF. */
module SmtpCrlf {
  import opened Bytes
  import opened SmtpData

  predicate EndsCrlf(line: seq<Byte>) {
    |line| >= 2 && line[|line| - 2] == CR
  }

  /** A dot in front of every dot at the start of the message or after CRLF; start
      says whether the message is at such a place. */
  function StuffedCrlf(message: seq<Byte>, start: bool): seq<Byte>
    requires Terminated(message)
    decreases |message|
  {
    if message == [] then []
    else
      var i := LineEnd(message);
      var line := message[..i + 1];
      (if start && line[0] == DOT then [DOT] + line else line) + StuffedCrlf(message[i + 1..], EndsCrlf(line))
  }

  /** A line the reader does not take as it is, unless it was stuffed. */
  predicate Misread(line: seq<Byte>) {
    IsTerminator(line) || [DOT, DOT] <= line
  }

  /** No line behind a bare LF is a single dot or starts with two. */
  predicate Safe(message: seq<Byte>, start: bool)
    requires Terminated(message)
    decreases |message|
  {
    message == []
    || var i := LineEnd(message);
       var line := message[..i + 1];
       (start || !Misread(line)) && Safe(message[i + 1..], EndsCrlf(line))
  }

  /** The first line of a message and the rest of it, as all three see them. */
  lemma {:induction false} SplitLine(message: seq<Byte>, start: bool) returns (line: seq<Byte>, more: seq<Byte>)
    requires Terminated(message) && message != []
    ensures line != [] && line[|line| - 1] == LF && LF !in line[..|line| - 1]
    ensures message == line + more && Terminated(more)
    ensures StuffedCrlf(message, start)
         == (if start && line[0] == DOT then [DOT] + line else line) + StuffedCrlf(more, EndsCrlf(line))
    ensures Safe(message, start) <==> (start || !Misread(line)) && Safe(more, EndsCrlf(line))
  {
    hide LineEnd;
    hide Misread;
    assert message[|message| - 1] in message;
    var i := LineEnd(message);
    line, more := message[..i + 1], message[i + 1..];
    assert line[..i] == message[..i];
  }

  /** What is kept of a line that was sent stuffed at a start and as it is elsewhere. */
  function Kept(line: seq<Byte>, start: bool): seq<Byte> {
    if start then line else Unstuffed(line)
  }

  lemma {:induction false} ReadSent(line: seq<Byte>, start: bool, tail: seq<Byte>, out: seq<Byte>, maxBytes: int)
    requires line != [] && line[|line| - 1] == LF && LF !in line[..|line| - 1]
    ensures var sent := if start && line[0] == DOT then [DOT] + line else line; var l := Kept(line, start);
      && |l| <= |line| && (l == line || (!start && Misread(line) && |l| < |line|))
      && (!start && Misread(line) ==> IsTerminator(line) || |l| < |line|)
      && ReadFrom(sent + tail, out, maxBytes)
         == if !start && IsTerminator(line) then Message(out, tail)
            else if |out| + |l| > maxBytes then TooLarge(tail) else ReadFrom(tail, out + l, maxBytes)
  {
    hide ReadFrom;
    if start {
      ReadLine(line, tail, out, maxBytes);
    } else {
      ReadOne(line, tail, out, maxBytes);
    }
  }

  /** What reading may come to: the whole message, or too much; and fewer bytes
      when the message is not safe. */
  predicate Outcome(r: Reading, safe: bool, out: seq<Byte>, message: seq<Byte>, rest: seq<Byte>, maxBytes: int) {
    if !safe then r.Message? ==> |r.bytes| < |out| + |message|
    else if message == [] || |out| + |message| <= maxBytes then r == Message(out + message, rest)
    else r.TooLarge?
  }

  lemma {:induction false} OutcomeStep(r: Reading, safe: bool, out: seq<Byte>, line: seq<Byte>, l: seq<Byte>,
      more: seq<Byte>, rest: seq<Byte>, maxBytes: int)
    requires line != [] && |out| + |l| <= maxBytes && Outcome(r, safe, out + l, more, rest, maxBytes)
    ensures l == line ==> Outcome(r, safe, out, line + more, rest, maxBytes)
    ensures |l| < |line| ==> Outcome(r, false, out, line + more, rest, maxBytes)
  {
    if l == line {
      assert out + l + more == out + (line + more);
    }
  }

  lemma {:induction false} ReadCrlf(
      message: seq<Byte>, start: bool, end: seq<Byte>, rest: seq<Byte>, out: seq<Byte>, maxBytes: int)
    requires Terminated(message) && IsTerminator(end) && (out == [] || |out| <= maxBytes)
    ensures Outcome(ReadFrom(StuffedCrlf(message, start) + end + rest, out, maxBytes),
                    Safe(message, start), out, message, rest, maxBytes)
    decreases |message|
  {
    if message == [] {
      hide ReadFrom;
      assert [] + end + rest == end + rest && out + message == out;
      TerminatorEnds(end, rest, out, maxBytes);
    } else {
      var line, more := SplitLine(message, start);
      hide StuffedCrlf;
      hide Safe;
      hide ReadFrom;
      hide Kept;
      hide IsTerminator;
      hide Terminated;
      var l, sent := Kept(line, start), if start && line[0] == DOT then [DOT] + line else line;
      var tail := StuffedCrlf(more, EndsCrlf(line)) + end + rest;
      Regroup(sent, StuffedCrlf(more, EndsCrlf(line)), end, rest);
      ReadSent(line, start, tail, out, maxBytes);
      TerminatorIsMisread(line);
      hide Misread;
      if (start || !IsTerminator(line)) && |out| + |l| <= maxBytes {
        hide Outcome;
        ReadCrlf(more, EndsCrlf(line), end, rest, out + l, maxBytes);
        OutcomeStep(ReadFrom(tail, out + l, maxBytes), Safe(more, EndsCrlf(line)), out, line, l, more, rest, maxBytes);
      }
    }
  }

  lemma {:induction false} TerminatorIsMisread(line: seq<Byte>)
    ensures IsTerminator(line) ==> Misread(line)
  {
  }

  /** A message stuffed by CRLF comes back as it was, with the reader right behind
      the terminator, exactly when it is safe and within the limit. */
  lemma {:induction false} CrlfRoundTrip(message: seq<Byte>, end: seq<Byte>, rest: seq<Byte>, maxBytes: int)
    requires Terminated(message) && (end == [DOT, CR, LF] || end == [DOT, LF])
    ensures ReadFrom(StuffedCrlf(message, true) + end + rest, [], maxBytes) == Message(message, rest)
       <==> Safe(message, true) && (message == [] || |message| <= maxBytes)
  {
    hide ReadFrom;
    hide StuffedCrlf;
    hide Safe;
    ReadCrlf(message, true, end, rest, [], maxBytes);
    assert [] + message == message;
  }

  /** One line, as it is sent. */
  lemma {:induction false} SentLine(line: seq<Byte>, more: seq<Byte>, start: bool)
    requires line != [] && line[|line| - 1] == LF && LF !in line[..|line| - 1] && Terminated(more)
    ensures Terminated(line + more) && StuffedCrlf(line + more, start)
         == (if start && line[0] == DOT then [DOT] + line else line) + StuffedCrlf(more, EndsCrlf(line))
  {
    hide LineEnd;
    var m, n := line + more, |line| - 1;
    assert m[..n] == line[..n] && m[n] == LF;
    LineEndIs(m, n);
    assert m[..n + 1] == line && m[n + 1..] == more;
  }

  lemma {:induction false} TerminatorLine(dot: seq<Byte>)
    requires IsTerminator(dot)
    ensures dot != [] && dot[|dot| - 1] == LF && LF !in dot[..|dot| - 1]
  {
    assert dot[..|dot| - 1] == if |dot| == 2 then [DOT] else [DOT, CR];
  }

  /** A line that ends in a bare LF and a single dot on the next are sent as they are. */
  lemma {:induction false} BareDotIsSent(first: seq<Byte>, dot: seq<Byte>)
    requires first != [] && first[|first| - 1] == LF && LF !in first[..|first| - 1]
    requires !EndsCrlf(first) && first[0] != DOT && IsTerminator(dot)
    ensures Terminated(first + dot) && StuffedCrlf(first + dot, true) == first + dot
  {
    assert forall start :: StuffedCrlf([], start) == [];
    assert Terminated([]);
    hide StuffedCrlf;
    hide Terminated;
    TerminatorLine(dot);
    hide IsTerminator;
    SentLine(dot, [], false);
    assert dot + [] == dot;
    SentLine(first, dot, true);
  }

  /** They are read as a message that ends at the dot; the terminator of the message
      is left for the command loop. */
  lemma {:induction false} BareDotCuts(first: seq<Byte>, dot: seq<Byte>, end: seq<Byte>, rest: seq<Byte>, maxBytes: int)
    requires first != [] && first[|first| - 1] == LF && LF !in first[..|first| - 1]
    requires !EndsCrlf(first) && first[0] != DOT && |first| <= maxBytes && IsTerminator(dot)
    ensures ReadFrom(first + (dot + (end + rest)), [], maxBytes) == Message(first, end + rest)
  {
    assert !IsTerminator(first) && Unstuffed(first) == first && [] + first == first;
    hide ReadFrom;
    TerminatorLine(dot);
    hide IsTerminator;
    hide Unstuffed;
    ReadOne(first, dot + (end + rest), [], maxBytes);
    ReadOne(dot, end + rest, first, maxBytes);
  }
}
