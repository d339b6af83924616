/** The state of one SMTP connection over its commands. */
module SmtpSession {
  import opened Bytes
  import opened SmtpData

  datatype Command =
    | Hello(name: string) | StartTls | MailFrom(path: string) | RcptTo(path: string)
    | Data | Rset | Noop | Quit | Unknown

  /** What one round of the loop meets: the end of the connection, or a command
      with what the outside answers if it is asked: whether the recipient is
      allowed, whether the TLS handshake succeeds, and what DATA reads. */
  datatype Event = Closed | Line(command: Command, allowed: bool, handshake: bool, data: Reading)

  datatype Mail = Mail(helo: string, mailFrom: string, rcptTo: string, data: seq<Byte>, tls: bool)

  datatype Session = Session(helo: string, mailFrom: string, rcptTo: seq<string>, tls: bool, open: bool)

  /** hasTls and hasHandler say whether TLS and a mail handler are configured. */
  datatype Server = Server(hasTls: bool, hasHandler: bool)

  const FRESH: Session := Session("", "", [], false, true)

  function MailsOf(s: Session, data: seq<Byte>): (r: seq<Mail>)
    ensures |r| == |s.rcptTo|
    ensures forall i :: 0 <= i < |r| ==> r[i] == Mail(s.helo, s.mailFrom, s.rcptTo[i], data, s.tls)
  {
    seq(|s.rcptTo|, i requires 0 <= i < |s.rcptTo| => Mail(s.helo, s.mailFrom, s.rcptTo[i], data, s.tls))
  }

  /** The round switches the connection to TLS. */
  predicate Switches(srv: Server, s: Session, e: Event) {
    s.open && e.Line? && e.command == StartTls && srv.hasTls && !s.tls && e.handshake
  }

  /** The session after a round. */
  function Step(srv: Server, s: Session, e: Event): Session {
    if !s.open then s
    else if e.Closed? then s.(open := false)
    else
      match e.command
      case Hello(name) => s.(helo := name)
      case StartTls =>
        if !srv.hasTls || s.tls then s
        else if !e.handshake then s.(open := false)
        else Session("", "", [], true, true)
      case MailFrom(path) => s.(mailFrom := path, rcptTo := [])
      case RcptTo(path) => if path == "" || !e.allowed then s else s.(rcptTo := s.rcptTo + [path])
      case Data => s
      case Rset => s.(mailFrom := "", rcptTo := [])
      case Noop => s
      case Quit => s.(open := false)
      case Unknown => s
  }

  /** DATA is accepted: there are a sender and a recipient. */
  predicate Ready(s: Session) {
    s.open && s.mailFrom != "" && |s.rcptTo| > 0
  }

  /** The mails handed over in a round. */
  function Delivered(srv: Server, s: Session, e: Event): seq<Mail> {
    if Ready(s) && e.Line? && e.command == Data && e.data.Message? && srv.hasHandler then MailsOf(s, e.data.bytes)
    else []
  }

  function After(srv: Server, events: seq<Event>): Session {
    if |events| == 0 then FRESH else Step(srv, After(srv, events[..|events| - 1]), events[|events| - 1])
  }

  function AllDelivered(srv: Server, events: seq<Event>): seq<Mail> {
    if |events| == 0 then []
    else
      var front := events[..|events| - 1];
      AllDelivered(srv, front) + Delivered(srv, After(srv, front), events[|events| - 1])
  }

  /** One mail for each recipient. */
  method Deliver(srv: Server, helo: string, mailFrom: string, rcptTo: seq<string>, data: seq<Byte>, isTls: bool)
    returns (mails: seq<Mail>)
    ensures mails == if srv.hasHandler then MailsOf(Session(helo, mailFrom, rcptTo, isTls, true), data) else []
  {
    ghost var all := MailsOf(Session(helo, mailFrom, rcptTo, isTls, true), data);
    mails := [];
    for i := 0 to |rcptTo|
      invariant mails == if srv.hasHandler then all[..i] else []
    {
      if srv.hasHandler {
        mails := mails + [Mail(helo, mailFrom, rcptTo[i], data, isTls)];
      }
    }
  }

  /** One more round. */
  lemma {:induction false} OneMore(srv: Server, front: seq<Event>, e: Event)
    ensures After(srv, front + [e]) == Step(srv, After(srv, front), e)
    ensures AllDelivered(srv, front + [e]) == AllDelivered(srv, front) + Delivered(srv, After(srv, front), e)
  {
    hide Step;
    hide Delivered;
    assert (front + [e])[..|front|] == front;
  }
}
