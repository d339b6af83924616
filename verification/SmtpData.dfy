/** The DATA phase: dot-stuffed lines up to the terminator (section 4.5.2 of
    RFC 5321), with a limit on the size. */
module SmtpData {
  import opened Bytes

  const LF: Byte := 10
  const CR: Byte := 13
  const DOT: Byte := 46

  /** Position of the first LF, or -1. */
  function LineEnd(input: seq<Byte>): (i: int)
    ensures -1 <= i < |input|
    ensures i == -1 ==> LF !in input
    ensures i >= 0 ==> input[i] == LF && LF !in input[..i]
  {
    if |input| == 0 then -1
    else if input[0] == LF then 0
    else
      var j := LineEnd(input[1..]);
      if j == -1 then -1 else assert input[..j + 1] == [input[0]] + input[1..][..j]; j + 1
  }

  /** What reading gives; rest is the input the reader has not consumed. */
  datatype Reading = Message(bytes: seq<Byte>, rest: seq<Byte>) | TooLarge(rest: seq<Byte>) | EndOfInput

  /** What is left of the input after reading. */
  function RestOf(r: Reading): seq<Byte> {
    if r.EndOfInput? then [] else r.rest
  }

  predicate IsTerminator(line: seq<Byte>) {
    line == [DOT, CR, LF] || line == [DOT, LF]
  }

  function Unstuffed(line: seq<Byte>): seq<Byte> {
    if [DOT, DOT] <= line then line[1..] else line
  }

  /** Reading with the bytes out already collected. */
  function ReadFrom(input: seq<Byte>, out: seq<Byte>, maxBytes: int): Reading
    decreases |input|
  {
    var i := LineEnd(input);
    if i == -1 then EndOfInput
    else
      var line, rest := input[..i + 1], input[i + 1..];
      if IsTerminator(line) then Message(out, rest)
      else
        var l := Unstuffed(line);
        if |out| + |l| > maxBytes then TooLarge(rest) else ReadFrom(rest, out + l, maxBytes)
  }

  method ReadData(input: seq<Byte>, maxBytes: int) returns (r: Reading)
    ensures r == ReadFrom(input, [], maxBytes)
  {
    var rest, out := input, [];
    while true
      invariant ReadFrom(rest, out, maxBytes) == ReadFrom(input, [], maxBytes)
      decreases |rest|
    {
      var i := LineEnd(rest);
      if i == -1 {
        return EndOfInput;
      }
      var line := rest[..i + 1];
      rest := rest[i + 1..];
      if line == [DOT, CR, LF] || line == [DOT, LF] {
        return Message(out, rest);
      }
      if [DOT, DOT] <= line {
        line := line[1..];
      }
      if |out| + |line| > maxBytes {
        return TooLarge(rest);
      }
      out := out + line;
    }
  }

  // ----- the sender's side ------------------------------------------------------

  /** A message of lines that each end in LF. */
  predicate Terminated(message: seq<Byte>) {
    message == [] || message[|message| - 1] == LF
  }

  /** A dot in front of every line that starts with a dot. */
  function Stuffed(message: seq<Byte>): seq<Byte>
    requires Terminated(message)
    decreases |message|
  {
    if message == [] then []
    else
      var i := LineEnd(message);
      var line := message[..i + 1];
      (if line[0] == DOT then [DOT] + line else line) + Stuffed(message[i + 1..])
  }

  lemma {:induction false} LineEndIs(input: seq<Byte>, i: nat)
    requires i < |input| && input[i] == LF && LF !in input[..i]
    ensures LineEnd(input) == i
  {
    var j := LineEnd(input);
    assert j >= 0 && forall k :: 0 <= k < i ==> input[..i][k] == input[k];
  }

  /** One line in front of more input. */
  lemma {:induction false} ReadOne(line: seq<Byte>, more: seq<Byte>, out: seq<Byte>, maxBytes: int)
    requires line != [] && line[|line| - 1] == LF && LF !in line[..|line| - 1]
    ensures ReadFrom(line + more, out, maxBytes)
         == if IsTerminator(line) then Message(out, more)
            else if |out| + |Unstuffed(line)| > maxBytes then TooLarge(more)
            else ReadFrom(more, out + Unstuffed(line), maxBytes)
  {
    hide LineEnd;
    var input, n := line + more, |line| - 1;
    assert input[n] == LF && input[..n] == line[..n];
    LineEndIs(input, n);
    assert input[..n + 1] == line && input[n + 1..] == more;
  }

  /** One stuffed line in front of more input. */
  lemma {:induction false} ReadLine(line: seq<Byte>, more: seq<Byte>, out: seq<Byte>, maxBytes: int)
    requires line != [] && line[|line| - 1] == LF && LF !in line[..|line| - 1]
    ensures var sent := if line[0] == DOT then [DOT] + line else line;
      ReadFrom(sent + more, out, maxBytes)
      == if |out| + |line| > maxBytes then TooLarge(more) else ReadFrom(more, out + line, maxBytes)
  {
    hide ReadFrom;
    var sent := if line[0] == DOT then [DOT] + line else line;
    assert sent[..|sent| - 1] == if line[0] == DOT then [DOT] + line[..|line| - 1] else line[..|line| - 1];
    ReadOne(sent, more, out, maxBytes);
    if line[0] == DOT {
      assert sent[1] == line[0];
      assert sent[..2] == [DOT, DOT] && sent[1..] == line;
      assert !IsTerminator(sent);
    } else {
      assert sent[0] != DOT;
    }
  }

  lemma {:induction false} ReadStuffed(message: seq<Byte>, end: seq<Byte>, rest: seq<Byte>, out: seq<Byte>,
      maxBytes: int)
    requires Terminated(message) && IsTerminator(end) && (out == [] || |out| <= maxBytes)
    ensures var r := ReadFrom(Stuffed(message) + end + rest, out, maxBytes);
      if message == [] || |out| + |message| <= maxBytes then r == Message(out + message, rest) else r.TooLarge?
    decreases |message|
  {
    hide ReadFrom;
    hide Stuffed;
    hide IsTerminator;
    hide Terminated;
    if message == [] {
      StuffedStep(message);
      assert [] + end + rest == end + rest;
      TerminatorEnds(end, rest, out, maxBytes);
      assert out + message == out;
    } else {
      var line, more := FirstLine(message, end, rest);
      ReadLine(line, Stuffed(more) + end + rest, out, maxBytes);
      if |out| + |line| <= maxBytes {
        ReadStuffed(more, end, rest, out + line, maxBytes);
        assert out + line + more == out + message;
      }
    }
  }

  /** The first line of a message, and what is sent for it. */
  lemma {:induction false} FirstLine(message: seq<Byte>, end: seq<Byte>, rest: seq<Byte>)
    returns (line: seq<Byte>, more: seq<Byte>)
    requires Terminated(message) && message != []
    ensures line != [] && line[|line| - 1] == LF && LF !in line[..|line| - 1]
    ensures message == line + more && Terminated(more)
    ensures Stuffed(message) + end + rest
         == (if line[0] == DOT then [DOT] + line else line) + (Stuffed(more) + end + rest)
  {
    hide LineEnd;
    hide Stuffed;
    hide Terminated;
    StuffedStep(message);
    var i := LineEnd(message);
    line, more := message[..i + 1], message[i + 1..];
    assert line[..i] == message[..i];
    Regroup(if line[0] == DOT then [DOT] + line else line, Stuffed(more), end, rest);
  }

  lemma {:induction false} Regroup(a: seq<Byte>, b: seq<Byte>, c: seq<Byte>, d: seq<Byte>)
    ensures a + b + c + d == a + (b + c + d)
  {
  }

  lemma {:induction false} StuffedStep(message: seq<Byte>)
    requires Terminated(message)
    ensures message == [] ==> Stuffed(message) == []
    ensures message != [] ==>
      var i := LineEnd(message);
      i >= 0 && Terminated(message[i + 1..])
      && Stuffed(message)
         == (if message[0] == DOT then [DOT] + message[..i + 1] else message[..i + 1]) + Stuffed(message[i + 1..])
  {
    hide LineEnd;
    if message != [] {
      assert message[|message| - 1] in message;
      var i := LineEnd(message);
      var rest := message[i + 1..];
      assert rest != [] ==> rest[|rest| - 1] == message[|message| - 1];
      assert message[..i + 1][0] == message[0];
    }
  }

  lemma {:induction false} TerminatorEnds(end: seq<Byte>, rest: seq<Byte>, out: seq<Byte>, maxBytes: int)
    requires IsTerminator(end)
    ensures ReadFrom(end + rest, out, maxBytes) == Message(out, rest)
  {
    hide LineEnd;
    var n := |end| - 1;
    var input := end + rest;
    assert input[n] == LF && input[..n] == end[..n];
    LineEndIs(input, n);
    assert input[..n + 1] == end && input[n + 1..] == rest;
  }

  /** Reading a stuffed message with its terminator gives the message and stops
      right after the terminator, unless the message is larger than the limit,
      and then it fails; an empty message never does. */
  lemma {:induction false} StuffingRoundTrip(message: seq<Byte>, end: seq<Byte>, rest: seq<Byte>, maxBytes: int)
    requires Terminated(message) && (end == [DOT, CR, LF] || end == [DOT, LF])
    ensures var r := ReadFrom(Stuffed(message) + end + rest, [], maxBytes);
      if message == [] || |message| <= maxBytes then r == Message(message, rest) else r.TooLarge?
  {
    hide ReadFrom;
    hide Stuffed;
    ReadStuffed(message, end, rest, [], maxBytes);
    assert [] + message == message;
  }
}
