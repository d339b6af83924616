/** What each request does to the rows of the store, table by table. */
module StoreEffects {
  import opened StoreModel

  /** The rows of after are those of before whose key is kept, unchanged. */
  ghost predicate Keeps<V(!new)>(before: map<nat, V>, after: map<nat, V>, kept: nat -> bool) {
    forall k :: (k in after <==> k in before && kept(k)) && (k in after ==> after[k] == before[k])
  }

  predicate SameCounting(a: Db, b: Db) {
    && a.counters == b.counters
    && a.nextMailbox == b.nextMailbox && a.nextMessage == b.nextMessage && a.nextReport == b.nextReport
  }

  /** The message belongs to a mailbox with the token. */
  predicate UnderToken(db: Db, m: nat, token: string) {
    m in db.messages && db.messages[m].mailbox in db.mailboxes && db.mailboxes[db.messages[m].mailbox].token == token
  }

  /** A delete takes the mailboxes with the token, their messages and the reports of
      those, and leaves every other row, the counters and the ids alone. */
  lemma {:induction false} DeleteRemoves(db: Db, token: string)
    ensures var after := DeleteMailbox(db, token);
      && (forall i :: i in after.mailboxes <==> i in db.mailboxes && db.mailboxes[i].token != token)
      && (forall i :: i in after.mailboxes ==> after.mailboxes[i] == db.mailboxes[i])
      && Keeps(db.messages, after.messages, (m: nat) => !UnderToken(db, m, token))
      && Keeps(db.reports, after.reports, (m: nat) => !UnderToken(db, m, token))
      && SameCounting(db, after)
  {
    var gone := set m | m in db.messages && db.messages[m].mailbox in WithToken(db, token);
    assert forall m :: m in gone <==> UnderToken(db, m, token);
  }

  /** The message is too old, or its mailbox closed too long ago. */
  predicate Overdue(db: Db, m: nat, cutoff: int) {
    && m in db.messages
    && (|| db.messages[m].receivedAt < cutoff
        || (db.messages[m].mailbox in db.mailboxes && db.mailboxes[db.messages[m].mailbox].expiresAt < cutoff))
  }

  /** A cleanup takes the mailboxes that closed and the messages that arrived more
      than the retention ago, with what hangs on them, and nothing else. */
  lemma {:induction false} CleanupRemoves(db: Db, now: int, retention: int)
    ensures var after := Cleanup(db, now, retention);
      && (forall i :: i in after.mailboxes <==> i in db.mailboxes && db.mailboxes[i].expiresAt >= now - retention)
      && (forall i :: i in after.mailboxes ==> after.mailboxes[i] == db.mailboxes[i])
      && Keeps(db.messages, after.messages, (m: nat) => !Overdue(db, m, now - retention))
      && Keeps(db.reports, after.reports, (m: nat) => !Overdue(db, m, now - retention))
      && SameCounting(db, after)
  {
    hide Keeps;
    hide Overdue;
    SweepRemoves(db, now - retention);
  }

  lemma {:induction false} SweepRemoves(db: Db, cutoff: int)
    ensures var after := SweptBefore(db, cutoff);
      && (forall i :: i in after.mailboxes <==> i in db.mailboxes && db.mailboxes[i].expiresAt >= cutoff)
      && (forall i :: i in after.mailboxes ==> after.mailboxes[i] == db.mailboxes[i])
      && Keeps(db.messages, after.messages, (m: nat) => !Overdue(db, m, cutoff))
      && Keeps(db.reports, after.reports, (m: nat) => !Overdue(db, m, cutoff))
      && SameCounting(db, after)
  {
    var aged, shut := OldMessages(db, cutoff), OldMailboxes(db, cutoff);
    var first := WithoutMessages(db, aged);
    var closed := set m | m in first.messages && first.messages[m].mailbox in shut;
    assert OldMailboxes(first, cutoff) == shut;
    forall m: nat
      ensures Overdue(db, m, cutoff) <==> m in aged + closed
    {
    }
    hide OldMessages;
    hide OldMailboxes;
    hide Overdue;
    assert SweptBefore(db, cutoff).messages == db.messages - aged - closed;
    assert SweptBefore(db, cutoff).reports == db.reports - aged - closed;
  }

  /** A create adds one mailbox, open for its time to live, and counts it; with a
      token or an address that is taken it does nothing. */
  lemma {:induction false} CreateAdds(db: Db, token: string, address: string, now: int, ttl: int)
    ensures var after := CreateMailbox(db, token, address, now, ttl);
      if exists i :: i in db.mailboxes && (db.mailboxes[i].token == token || db.mailboxes[i].address == address)
      then after == db
      else
        && (forall i :: i in after.mailboxes <==> i in db.mailboxes || i == db.nextMailbox)
        && after.mailboxes[db.nextMailbox] == Mailbox(token, address, now + ttl)
        && (forall i :: i in db.mailboxes && i != db.nextMailbox ==> after.mailboxes[i] == db.mailboxes[i])
        && after.messages == db.messages && after.reports == db.reports
        && Counts(db, after, MailboxesCreated, 1.0) && after.nextMailbox > db.nextMailbox
  {
  }

  /** One counter goes up by delta, and the others stay. */
  ghost predicate Counts(a: Db, b: Db, key: Counter, delta: real) {
    && CounterValue(b.counters, key) == CounterValue(a.counters, key) + delta
    && forall k :: k != key ==> CounterValue(b.counters, k) == CounterValue(a.counters, k)
  }

  /** A save adds one message and counts it, if its mailbox is there. */
  lemma {:induction false} SaveAdds(db: Db, mailbox: nat, receivedAt: int)
    ensures var after := SaveMessage(db, mailbox, receivedAt);
      if mailbox !in db.mailboxes then after == db
      else
        && (forall m :: m in after.messages <==> m in db.messages || m == db.nextMessage)
        && after.messages[db.nextMessage] == Message(mailbox, receivedAt)
        && (forall m :: m in db.messages && m != db.nextMessage ==> after.messages[m] == db.messages[m])
        && after.mailboxes == db.mailboxes && after.reports == db.reports
        && Counts(db, after, MessagesReceived, 1.0) && after.nextMessage > db.nextMessage
  {
  }

  /** Grading a message gives it the score: a first report is counted with its
      score, a later one keeps the id of the first and leaves the counters alone;
      a correction does the latter and needs a report. */
  lemma {:induction false} GradeSets(db: Db, message: nat, score: real)
    ensures var after := SaveReport(db, message, score);
      if message !in db.messages then after == db
      else
        && message in after.reports && after.reports[message].score == score
        && (forall m :: m in after.reports <==> m in db.reports || m == message)
        && (forall m :: m in db.reports && m != message ==> after.reports[m] == db.reports[m])
        && after.mailboxes == db.mailboxes && after.messages == db.messages
        && (if message in db.reports then
              after.reports[message].id == db.reports[message].id && after.counters == db.counters
            else
              && CounterValue(after.counters, ReportsGenerated) == CounterValue(db.counters, ReportsGenerated) + 1.0
              && CounterValue(after.counters, ScoreSum) == CounterValue(db.counters, ScoreSum) + score
              && CounterValue(after.counters, MailboxesCreated) == CounterValue(db.counters, MailboxesCreated)
              && CounterValue(after.counters, MessagesReceived) == CounterValue(db.counters, MessagesReceived))
    ensures message in db.reports && message in db.messages ==>
      CorrectReport(db, message, score) == SaveReport(db, message, score)
    ensures message !in db.reports ==> CorrectReport(db, message, score) == db
  {
  }
}
