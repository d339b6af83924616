/** What a session knows and what it delivers, over every sequence of rounds. */
module SmtpTheorems {
  import opened Bytes
  import opened SmtpData
  import opened SmtpSession

  /** Something a client can give that a session then knows. */
  datatype Fact = Sender(path: string) | Recipient(path: string) | Greeting(name: string)

  /** The round gives the fact; a recipient only when it is allowed. */
  predicate Gives(e: Event, f: Fact) {
    && e.Line?
    && match f
       case Sender(p) => e.command == MailFrom(p) && p != ""
       case Recipient(p) => e.command == RcptTo(p) && p != "" && e.allowed
       case Greeting(n) => e.command == Hello(n) && n != ""
  }

  /** The round takes such facts back: a new greeting the old one; MAIL FROM and
      RSET the sender and the recipients; a switch to TLS everything. */
  predicate Undoes(srv: Server, s: Session, e: Event, f: Fact) {
    || Switches(srv, s, e)
    || (e.Line? && if f.Greeting? then e.command.Hello? else e.command.MailFrom? || e.command == Rset)
  }

  predicate Knows(s: Session, f: Fact) {
    match f
    case Sender(p) => p != "" && s.mailFrom == p
    case Recipient(p) => p != "" && p in s.rcptTo
    case Greeting(n) => n != "" && s.helo == n
  }

  /** Round k gave the fact, and no later round has undone it. */
  ghost predicate GivenAt(srv: Server, events: seq<Event>, k: int, f: Fact) {
    && 0 <= k < |events| && Gives(events[k], f)
    && forall i :: k < i < |events| ==> !Undoes(srv, After(srv, events[..i]), events[i], f)
  }

  /** In force: given and not undone. */
  ghost predicate InForce(srv: Server, events: seq<Event>, f: Fact) {
    exists k :: GivenAt(srv, events, k, f)
  }

  /** Round k switched the connection to TLS. */
  predicate SwitchedAt(srv: Server, events: seq<Event>, k: int) {
    0 <= k < |events| && Switches(srv, After(srv, events[..k]), events[k])
  }

  /** The session knows exactly what was given and not undone since. */
  ghost predicate Explained(srv: Server, events: seq<Event>) {
    var s := After(srv, events);
    s.open ==>
      && (s.tls <==> exists k :: SwitchedAt(srv, events, k))
      && (forall f :: Knows(s, f) <==> InForce(srv, events, f))
      && "" !in s.rcptTo
  }

  /** One round changes what a session knows as it gives and undoes. */
  lemma {:induction false} KnowsStep(srv: Server, s: Session, e: Event, f: Fact)
    requires s.open && Step(srv, s, e).open
    ensures Knows(Step(srv, s, e), f) <==> Gives(e, f) || (Knows(s, f) && !Undoes(srv, s, e, f))
  {
  }

  /** What was given up to the last round: then, or before and not undone now. */
  lemma {:induction false} GivenStep(srv: Server, front: seq<Event>, e: Event, k: int, f: Fact)
    ensures GivenAt(srv, front + [e], k, f)
      <==> (k == |front| && Gives(e, f)) || (GivenAt(srv, front, k, f) && !Undoes(srv, After(srv, front), e, f))
  {
    hide After;
    hide Undoes;
    hide Gives;
    var events := front + [e];
    assert events[..|front|] == front && events[|front|] == e;
    assert forall i :: 0 <= i < |front| ==> events[..i] == front[..i] && events[i] == front[i];
  }

  lemma {:induction false} FactStep(srv: Server, front: seq<Event>, e: Event, f: Fact)
    requires var s := After(srv, front);
      s.open && Step(srv, s, e).open && (Knows(s, f) <==> InForce(srv, front, f))
    ensures Knows(Step(srv, After(srv, front), e), f) <==> InForce(srv, front + [e], f)
  {
    KnowsStep(srv, After(srv, front), e, f);
    hide After;
    hide GivenAt;
    hide Knows;
    hide Gives;
    hide Undoes;
    hide Step;
    forall k
      ensures GivenAt(srv, front + [e], k, f)
        <==> (k == |front| && Gives(e, f)) || (GivenAt(srv, front, k, f) && !Undoes(srv, After(srv, front), e, f))
    {
      GivenStep(srv, front, e, k, f);
    }
    if Gives(e, f) {
      assert GivenAt(srv, front + [e], |front|, f);
    }
  }

  lemma {:induction false} ExplainedStep(srv: Server, front: seq<Event>, e: Event)
    requires Explained(srv, front)
    ensures Explained(srv, front + [e])
  {
    OneMore(srv, front, e);
    TlsStep(srv, front, e);
    hide After;
    hide AllDelivered;
    hide SwitchedAt;
    hide InForce;
    hide Knows;
    if After(srv, front + [e]).open {
      forall f
        ensures Knows(After(srv, front + [e]), f) <==> InForce(srv, front + [e], f)
      {
        FactStep(srv, front, e, f);
      }
    }
  }

  lemma {:induction false} TlsStep(srv: Server, front: seq<Event>, e: Event)
    ensures (exists k :: SwitchedAt(srv, front + [e], k))
      <==> Switches(srv, After(srv, front), e) || exists k :: SwitchedAt(srv, front, k)
  {
    hide After;
    hide Switches;
    var events := front + [e];
    assert events[..|front|] == front && events[|front|] == e;
    forall k | 0 <= k < |front|
      ensures SwitchedAt(srv, events, k) == SwitchedAt(srv, front, k)
    {
      assert events[..k] == front[..k];
    }
    if Switches(srv, After(srv, front), e) {
      assert SwitchedAt(srv, events, |front|);
    }
    forall k | SwitchedAt(srv, front, k)
      ensures SwitchedAt(srv, events, k)
    {
    }
  }

  /** In every sequence of rounds, an open session is on TLS exactly when it was
      switched, and knows a sender, recipient or greeting exactly when a round
      gave it and none has undone it since; nothing survives the switch. */
  lemma {:induction false} SessionIsExplained(srv: Server, events: seq<Event>)
    ensures Explained(srv, events)
  {
    if events == [] {
      assert After(srv, events) == FRESH;
    } else {
      var front, e := events[..|events| - 1], events[|events| - 1];
      assert front + [e] == events;
      SessionIsExplained(srv, front);
      hide *;
      ExplainedStep(srv, front, e);
    }
  }

  /** A mail is handed over in a round exactly when DATA reads its bytes, a handler
      is there, its sender and its recipient are in force, its TLS flag says
      whether the connection was switched, and its HELO is the one in force. */
  lemma {:induction false} DeliveredExactly(srv: Server, events: seq<Event>, e: Event, m: Mail)
    ensures var s := After(srv, events);
      m in Delivered(srv, s, e)
      <==> && s.open && srv.hasHandler && e.Line? && e.command == Data && e.data == Message(m.data, RestOf(e.data))
           && InForce(srv, events, Sender(m.mailFrom)) && InForce(srv, events, Recipient(m.rcptTo))
           && (m.tls <==> exists k :: SwitchedAt(srv, events, k))
           && (if m.helo == "" then forall n :: !InForce(srv, events, Greeting(n))
               else InForce(srv, events, Greeting(m.helo)))
  {
    SessionIsExplained(srv, events);
    hide After;
    hide SwitchedAt;
    hide GivenAt;
    var s := After(srv, events);
    if s.open {
      hide InForce;
      NoGreeting(srv, events, s);
      if Ready(s) && e.Line? && e.command == Data && e.data.Message? && srv.hasHandler {
        InMails(s, e.data.bytes, m);
      }
      assert Knows(s, Sender(m.mailFrom)) <==> InForce(srv, events, Sender(m.mailFrom));
      assert Knows(s, Recipient(m.rcptTo)) <==> InForce(srv, events, Recipient(m.rcptTo));
      assert Knows(s, Greeting(m.helo)) <==> InForce(srv, events, Greeting(m.helo));
      assert Ready(s) ==> m.rcptTo in s.rcptTo ==> m.rcptTo != "";
    }
  }

  lemma {:induction false} NoGreeting(srv: Server, events: seq<Event>, s: Session)
    requires forall f :: Knows(s, f) <==> InForce(srv, events, f)
    ensures s.helo == "" <==> forall n :: !InForce(srv, events, Greeting(n))
  {
    hide InForce;
    assert Knows(s, Greeting(s.helo)) <==> InForce(srv, events, Greeting(s.helo));
  }

  lemma {:induction false} InMails(s: Session, bytes: seq<Byte>, m: Mail)
    ensures m in MailsOf(s, bytes)
      <==> m.helo == s.helo && m.mailFrom == s.mailFrom && m.rcptTo in s.rcptTo && m.data == bytes && m.tls == s.tls
  {
  }

  /** Every mail of a connection was handed over in some round of it. */
  lemma {:induction false} DeliveredInSomeRound(srv: Server, events: seq<Event>, m: Mail) returns (n: nat)
    requires m in AllDelivered(srv, events)
    ensures n < |events| && m in Delivered(srv, After(srv, events[..n]), events[n])
  {
    hide Delivered;
    hide After;
    var last := |events| - 1;
    if m in AllDelivered(srv, events[..last]) {
      n := DeliveredInSomeRound(srv, events[..last], m);
      assert events[..last][..n] == events[..n];
    } else {
      n := last;
    }
  }
}
