/** One connection from its bytes: what DATA does not consume is read as commands,
    and after STARTTLS only what arrives over TLS is read. */
module SmtpConnection {
  import opened Bytes
  import opened Text
  import opened TextLemmas
  import opened SmtpData
  import opened SmtpSession
  import opened SmtpCommands

  /** What the client sends before and after the TLS handshake, whether that
      handshake succeeds, how a line of bytes reads as text, which recipients are
      allowed in which round, and the size limit. */
  datatype Client = Client(
    plain: seq<Byte>, secure: seq<Byte>, handshake: bool,
    text: seq<Byte> -> string, allow: (nat, string) -> bool, maxBytes: int)

  datatype Round = Round(event: Event, rest: seq<Byte>)

  /** One round of the loop in round n of a session. */
  function NextRound(srv: Server, c: Client, s: Session, n: nat, input: seq<Byte>): Round {
    var i := LineEnd(input);
    if i == -1 then Round(Closed, [])
    else RoundOf(srv, c, s, n, ParseCommand(c.text(input[..i + 1])), input[i + 1..])
  }

  /** The round for a command with the given input behind it. */
  function RoundOf(srv: Server, c: Client, s: Session, n: nat, command: Command, rest: seq<Byte>): Round {
    match command
    case Data =>
      if Ready(s) then var data := ReadFrom(rest, [], c.maxBytes); Round(Line(Data, false, false, data), RestOf(data))
      else Round(Line(Data, false, false, EndOfInput), rest)
    case StartTls =>
      var e := Line(StartTls, false, c.handshake, EndOfInput);
      Round(e, if Switches(srv, s, e) then c.secure else rest)
    case RcptTo(path) => Round(Line(command, c.allow(n, path), false, EndOfInput), rest)
    case _ => Round(Line(command, false, false, EndOfInput), rest)
  }

  /** Reading consumes input, except for the switch to TLS, which happens once. */
  lemma {:induction false} RoundConsumes(srv: Server, c: Client, s: Session, n: nat, input: seq<Byte>)
    requires s.open
    ensures var r := NextRound(srv, c, s, n, input); var t := Step(srv, s, r.event);
      t.open ==> (t.tls && !s.tls) || (t.tls == s.tls && |r.rest| < |input|)
  {
    hide LineEnd;
    hide ReadFrom;
    hide ParseCommand;
    var i := LineEnd(input);
    if i >= 0 {
      ReadingShrinks(input[i + 1..], [], c.maxBytes);
    }
  }

  lemma {:induction false} ReadingShrinks(input: seq<Byte>, out: seq<Byte>, maxBytes: int)
    ensures |RestOf(ReadFrom(input, out, maxBytes))| <= |input|
    decreases |input|
  {
    hide LineEnd;
    var i := LineEnd(input);
    if i >= 0 {
      ReadingShrinks(input[i + 1..], out + Unstuffed(input[..i + 1]), maxBytes);
    }
  }

  /** The events of a session from round n on. */
  function Events(srv: Server, c: Client, s: Session, n: nat, input: seq<Byte>): seq<Event>
    decreases if s.tls then 0 else 1, |input|
  {
    if !s.open then []
    else
      var r := NextRound(srv, c, s, n, input);
      var t := Step(srv, s, r.event);
      RoundConsumes(srv, c, s, n, input);
      if t.open then [r.event] + Events(srv, c, t, n + 1, r.rest) else [r.event]
  }

  /** One command: what becomes of the session and the input, and the mails. */
  method HandleCommand(srv: Server, c: Client, s: Session, n: nat, command: Command, input: seq<Byte>)
    returns (t: Session, rest: seq<Byte>, mails: seq<Mail>)
    requires s.open
    ensures var r := RoundOf(srv, c, s, n, command, input);
      t == Step(srv, s, r.event) && rest == r.rest && mails == Delivered(srv, s, r.event)
  {
    hide ReadFrom;
    t, rest, mails := s, input, [];
    match command {
      case Hello(name) => t := s.(helo := name);
      case StartTls =>
        if srv.hasTls && !s.tls {
          if !c.handshake {
            return s.(open := false), rest, mails;
          }
          rest := c.secure;
          t := Session("", "", [], true, true);
        }
      case MailFrom(path) => t := s.(mailFrom := path, rcptTo := []);
      case RcptTo(path) =>
        if path != "" && c.allow(n, path) {
          t := s.(rcptTo := s.rcptTo + [path]);
        }
      case Data =>
        if s.mailFrom != "" && |s.rcptTo| > 0 {
          var data := ReadData(input, c.maxBytes);
          rest := RestOf(data);
          if data.Message? {
            mails := Deliver(srv, s.helo, s.mailFrom, s.rcptTo, data.bytes, s.tls);
          }
        }
      case Rset => t := s.(mailFrom := "", rcptTo := []);
      case Noop =>
      case Quit => t := s.(open := false);
      case Unknown =>
    }
  }

  /** The command loop hands over exactly the mails of the events. */
  method HandleConnection(srv: Server, c: Client) returns (mails: seq<Mail>)
    ensures mails == AllDelivered(srv, Events(srv, c, FRESH, 0, c.plain))
  {
    hide ParseCommand;
    hide LineEnd;
    hide After;
    hide AllDelivered;
    hide Delivered;
    hide RoundOf;
    hide Step;
    ghost var all := Events(srv, c, FRESH, 0, c.plain);
    ghost var done: seq<Event> := [];
    var s, input, n := FRESH, c.plain, 0;
    mails := [];
    NoEvents(srv);
    while s.open
      invariant After(srv, done) == s && mails == AllDelivered(srv, done)
      invariant all == done + Events(srv, c, s, n, input)
      decreases s.open, if s.tls then 0 else 1, |input|
    {
      RoundConsumes(srv, c, s, n, input);
      ghost var e := NextRound(srv, c, s, n, input).event;
      OneMore(srv, done, e);
      var i := LineEnd(input);
      if i == -1 {
        Hangup(srv, s);
        assert all == done + [e] && mails + [] == mails;
        return;
      }
      var more;
      s, input, more := HandleCommand(srv, c, s, n, ParseCommand(c.text(input[..i + 1])), input[i + 1..]);
      done := done + [e];
      mails, n := mails + more, n + 1;
    }
    assert done + [] == done;
  }

  lemma {:induction false} Hangup(srv: Server, s: Session)
    requires s.open
    ensures !Step(srv, s, Closed).open && Delivered(srv, s, Closed) == []
  {
  }

  lemma {:induction false} NoEvents(srv: Server)
    ensures After(srv, []) == FRESH && AllDelivered(srv, []) == []
  {
  }

  /** A line of bytes: one LF, at its end. */
  predicate IsLine(line: seq<Byte>) {
    line != [] && line[|line| - 1] == LF && LF !in line[..|line| - 1]
  }

  /** A round takes the first line of the input. */
  lemma {:induction false} LineRound(srv: Server, c: Client, s: Session, n: nat, line: seq<Byte>, more: seq<Byte>)
    requires IsLine(line)
    ensures NextRound(srv, c, s, n, line + more) == RoundOf(srv, c, s, n, ParseCommand(c.text(line)), more)
  {
    hide ParseCommand;
    hide RoundOf;
    hide LineEnd;
    var input, k := line + more, |line| - 1;
    assert input[k] == LF && input[..k] == line[..k];
    LineEndIs(input, k);
    assert input[..k + 1] == line && input[k + 1..] == more;
  }

  /** The round of an accepted DATA line: the message sent stuffed behind it is
      delivered as it was, and the next command is read right behind the terminator. */
  lemma {:induction false} DataRound(srv: Server, c: Client, s: Session, n: nat, message: seq<Byte>, end: seq<Byte>,
      rest: seq<Byte>)
    requires s.open && s.mailFrom != "" && s.rcptTo != []
    requires Terminated(message) && (end == [DOT, CR, LF] || end == [DOT, LF]) && |message| <= c.maxBytes
    ensures RoundOf(srv, c, s, n, Data, Stuffed(message) + end + rest)
         == Round(Line(Data, false, false, Message(message, rest)), rest)
  {
    hide ReadFrom;
    hide Stuffed;
    StuffingRoundTrip(message, end, rest, c.maxBytes);
  }

  /** Without a sender or a recipient DATA reads nothing, and what follows it is read
      as commands. */
  lemma {:induction false} RefusedData(srv: Server, c: Client, s: Session, n: nat, rest: seq<Byte>)
    requires s.open && (s.mailFrom == "" || s.rcptTo == [])
    ensures var r := RoundOf(srv, c, s, n, Data, rest);
      r.rest == rest && Step(srv, s, r.event) == s && Delivered(srv, s, r.event) == []
  {
    hide ReadFrom;
  }

  /** A successful STARTTLS forgets the session and what was sent in the clear behind
      it; on a connection with TLS, or without TLS configured, it does nothing. */
  lemma {:induction false} SwitchRound(srv: Server, c: Client, s: Session, n: nat, rest: seq<Byte>)
    requires s.open
    ensures var r := RoundOf(srv, c, s, n, StartTls, rest); var t := Step(srv, s, r.event);
      if s.tls || !srv.hasTls then r.rest == rest && t == s
      else if c.handshake then r.rest == c.secure && t == Session("", "", [], true, true)
      else !t.open
  {
  }

  /** QUIT and the end of the input end the connection; an unknown command and NOOP
      change nothing. */
  lemma {:induction false} EndingRounds(srv: Server, c: Client, s: Session, n: nat, rest: seq<Byte>)
    requires s.open
    ensures !Step(srv, s, RoundOf(srv, c, s, n, Quit, rest).event).open
    ensures LF !in rest ==> NextRound(srv, c, s, n, rest) == Round(Closed, []) && !Step(srv, s, Closed).open
    ensures forall command :: command == Noop || command == Unknown ==>
      var r := RoundOf(srv, c, s, n, command, rest); Step(srv, s, r.event) == s && r.rest == rest
  {
    hide ParseCommand;
    hide LineEnd;
    assert LineEnd(rest) >= 0 ==> rest[LineEnd(rest)] in rest;
  }

  /** What a connection delivers from a round on. */
  function Mails(srv: Server, c: Client, s: Session, n: nat, input: seq<Byte>): seq<Mail>
    decreases if s.tls then 0 else 1, |input|
  {
    if !s.open then []
    else
      var r := NextRound(srv, c, s, n, input);
      var t := Step(srv, s, r.event);
      RoundConsumes(srv, c, s, n, input);
      Delivered(srv, s, r.event) + if t.open then Mails(srv, c, t, n + 1, r.rest) else []
  }

  lemma {:induction false} MailsAreDelivered(srv: Server, c: Client, done: seq<Event>, n: nat, input: seq<Byte>)
    ensures var s := After(srv, done);
      AllDelivered(srv, done + Events(srv, c, s, n, input)) == AllDelivered(srv, done) + Mails(srv, c, s, n, input)
    decreases if After(srv, done).tls then 0 else 1, |input|
  {
    hide NextRound;
    hide Step;
    hide Delivered;
    hide After;
    hide AllDelivered;
    var s := After(srv, done);
    if s.open {
      var r := NextRound(srv, c, s, n, input);
      RoundConsumes(srv, c, s, n, input);
      OneMore(srv, done, r.event);
      var more := done + [r.event];
      if Step(srv, s, r.event).open {
        MailsAreDelivered(srv, c, more, n + 1, r.rest);
        assert more + Events(srv, c, After(srv, more), n + 1, r.rest) == done + Events(srv, c, s, n, input);
      }
    } else {
      assert done + [] == done;
    }
  }

  /** One round that neither delivers nor closes. */
  lemma {:induction false} QuietRound(srv: Server, c: Client, s: Session, n: nat, line: seq<Byte>, more: seq<Byte>)
    requires s.open && IsLine(line)
    requires var r := RoundOf(srv, c, s, n, ParseCommand(c.text(line)), more);
      r.rest == more && Delivered(srv, s, r.event) == [] && Step(srv, s, r.event).open
    ensures Mails(srv, c, s, n, line + more)
         == Mails(srv, c, Step(srv, s, RoundOf(srv, c, s, n, ParseCommand(c.text(line)), more).event), n + 1, more)
  {
    hide ParseCommand;
    hide RoundOf;
    hide Step;
    hide Delivered;
    hide NextRound;
    LineRound(srv, c, s, n, line, more);
    RoundConsumes(srv, c, s, n, line + more);
  }

  /** What a session notes of a greeting, a sender or a recipient. */
  function NotedIn(s: Session, command: Command): Session {
    match command
    case Hello(name) => s.(helo := name)
    case MailFrom(path) => s.(mailFrom := path, rcptTo := [])
    case RcptTo(path) => s.(rcptTo := s.rcptTo + [path])
    case _ => s
  }

  /** A round with a greeting, a sender or an allowed recipient: the session notes it,
      and nothing else happens. */
  lemma {:induction false} NotedRound(srv: Server, c: Client, s: Session, n: nat, line: seq<Byte>, more: seq<Byte>,
      command: Command)
    requires s.open && IsLine(line) && ParseCommand(c.text(line)) == command
    requires command.Hello? || command.MailFrom? || (command.RcptTo? && command.path != "" && c.allow(n, command.path))
    ensures Mails(srv, c, s, n, line + more) == Mails(srv, c, NotedIn(s, command), n + 1, more)
  {
    hide ParseCommand;
    hide Mails;
    hide IsLine;
    QuietRound(srv, c, s, n, line, more);
  }

  /** The four rounds of a dialogue, by what its lines are read as. */
  lemma {:induction false} DialogueRounds(srv: Server, c: Client, hello: seq<Byte>, mail: seq<Byte>, rcpt: seq<Byte>,
      data: seq<Byte>, body: seq<Byte>, name: string, sender: string, recipient: string)
    requires IsLine(hello) && IsLine(mail) && IsLine(rcpt) && IsLine(data)
    requires ParseCommand(c.text(hello)) == Hello(name) && ParseCommand(c.text(mail)) == MailFrom(sender)
    requires ParseCommand(c.text(rcpt)) == RcptTo(recipient) && ParseCommand(c.text(data)) == Data
    requires recipient != "" && c.allow(2, recipient)
    ensures var d := Session(name, sender, [recipient], false, true);
      && Mails(srv, c, FRESH, 0, hello + (mail + (rcpt + (data + body)))) == Mails(srv, c, d, 3, data + body)
      && NextRound(srv, c, d, 3, data + body) == RoundOf(srv, c, d, 3, Data, body)
  {
    hide ParseCommand;
    hide Mails;
    hide NextRound;
    hide RoundOf;
    hide IsLine;
    var a, b := NotedIn(FRESH, Hello(name)), NotedIn(NotedIn(FRESH, Hello(name)), MailFrom(sender));
    var d := Session(name, sender, [recipient], false, true);
    assert NotedIn(b, RcptTo(recipient)) == d && a.open && b.open && FRESH.open;
    hide NotedIn;
    var last := data + body;
    var more := rcpt + last;
    NotedRound(srv, c, FRESH, 0, hello, mail + more, Hello(name));
    NotedRound(srv, c, a, 1, mail, more, MailFrom(sender));
    NotedRound(srv, c, b, 2, rcpt, last, RcptTo(recipient));
    LineRound(srv, c, d, 3, data, body);
  }

  /** A plain dialogue of a greeting, a sender, an allowed recipient and a message
      hands over exactly that mail. */
  lemma {:induction false} DialogueDelivers(srv: Server, c: Client, hello: seq<Byte>, mail: seq<Byte>, rcpt: seq<Byte>,
      data: seq<Byte>, name: string, sender: string, recipient: string, message: seq<Byte>)
    requires srv.hasHandler && IsLine(hello) && IsLine(mail) && IsLine(rcpt) && IsLine(data)
    requires Terminated(message) && |message| <= c.maxBytes
    requires c.plain == hello + (mail + (rcpt + (data + (Stuffed(message) + [DOT, CR, LF] + []))))
    requires c.text(hello) == "EHLO " + (name + "\r\n") && c.text(data) == "DATA" + "\r\n"
    requires c.text(mail) == "MAIL FROM:" + ("<" + sender + ">" + "\r\n")
    requires c.text(rcpt) == "RCPT TO:" + ("<" + recipient + ">" + "\r\n")
    requires name != "" && Solid(name) && sender != "" && Solid(sender) && '>' !in sender
    requires recipient != "" && Solid(recipient) && '>' !in recipient && c.allow(2, Lower(recipient))
    ensures AllDelivered(srv, Events(srv, c, FRESH, 0, c.plain))
         == [Mail(name, Lower(sender), Lower(recipient), message, false)]
  {
    hide *;
    ReadsDialogue(name, sender, recipient);
    LowerKeeps(sender);
    LowerKeeps(recipient);
    var body := Stuffed(message) + [DOT, CR, LF] + [];
    var d := Session(name, Lower(sender), [Lower(recipient)], false, true);
    DialogueRounds(srv, c, hello, mail, rcpt, data, body, name, Lower(sender), Lower(recipient));
    DataRound(srv, c, d, 3, message, [DOT, CR, LF], []);
    LastRound(srv, c, d, message, data + body);
    NoEvents(srv);
    MailsAreDelivered(srv, c, [], 0, c.plain);
    assert [] + Events(srv, c, FRESH, 0, c.plain) == Events(srv, c, FRESH, 0, c.plain);
    assert [] + Mails(srv, c, FRESH, 0, c.plain) == Mails(srv, c, FRESH, 0, c.plain);
  }

  lemma {:induction false} LastRound(srv: Server, c: Client, d: Session, message: seq<Byte>, input: seq<Byte>)
    requires srv.hasHandler && d.open && d.mailFrom != "" && |d.rcptTo| == 1
    requires NextRound(srv, c, d, 3, input) == Round(Line(Data, false, false, Message(message, [])), [])
    ensures Mails(srv, c, d, 3, input) == [Mail(d.helo, d.mailFrom, d.rcptTo[0], message, d.tls)]
  {
    var e := Line(Data, false, false, Message(message, []));
    assert Step(srv, d, e) == d && Delivered(srv, d, e) == MailsOf(d, message);
    assert MailsOf(d, message) == [Mail(d.helo, d.mailFrom, d.rcptTo[0], message, d.tls)];
    assert NextRound(srv, c, d, 4, []) == Round(Closed, []);
    assert Mails(srv, c, d, 4, []) == [] by { RoundConsumes(srv, c, d, 4, []); }
    hide NextRound;
    RoundConsumes(srv, c, d, 3, input);
  }

  lemma {:induction false} ReadsDialogue(name: string, sender: string, recipient: string)
    requires name != "" && Solid(name) && Solid(sender) && '>' !in sender && Solid(recipient) && '>' !in recipient
    ensures ParseCommand("EHLO " + (name + "\r\n")) == Hello(name)
    ensures ParseCommand("MAIL FROM:" + ("<" + sender + ">" + "\r\n")) == MailFrom(Lower(sender))
    ensures ParseCommand("RCPT TO:" + ("<" + recipient + ">" + "\r\n")) == RcptTo(Lower(recipient))
    ensures ParseCommand("DATA" + "\r\n") == Data
  {
    assert Blank("\r\n");
    assert Lower("EHLO ") == "ehlo " && Lower("MAIL FROM:") == "mail from:" && Lower("RCPT TO:") == "rcpt to:";
    assert Lower("DATA") == "data";
    hide ParseCommand;
    hide Lower;
    GreetingIsKept("EHLO ", name, "\r\n");
    EnvelopeLine("MAIL FROM:", sender, "\r\n");
    EnvelopeLine("RCPT TO:", recipient, "\r\n");
    AloneLine("DATA", "\r\n");
  }
}
