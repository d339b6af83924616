/** The tables of the store as values, and what each operation makes of them. */
module StoreModel {

  datatype Mailbox = Mailbox(token: string, address: string, expiresAt: int)
  datatype Message = Message(mailbox: nat, receivedAt: int)
  datatype Report = Report(id: nat, score: real)

  /** The rows of the counter table. */
  datatype Counter = MailboxesCreated | MessagesReceived | ReportsGenerated | ScoreSum

  /** Tables keyed by row id, reports by the id of their message, which is
      unique; the next values are those of AUTOINCREMENT. */
  datatype Db = Db(
    mailboxes: map<nat, Mailbox>, messages: map<nat, Message>, reports: map<nat, Report>,
    counters: map<Counter, real>, nextMailbox: nat, nextMessage: nat, nextReport: nat)

  function CounterValue(counters: map<Counter, real>, key: Counter): real {
    if key in counters then counters[key] else 0.0
  }

  function Incremented(counters: map<Counter, real>, key: Counter, delta: real): map<Counter, real> {
    counters[key := CounterValue(counters, key) + delta]
  }

  predicate InUse(mailboxes: map<nat, Mailbox>, token: string, address: string) {
    exists i :: i in mailboxes && (mailboxes[i].token == token || mailboxes[i].address == address)
  }

  /** Fails without effect when the token or the address is taken. */
  function CreateMailbox(db: Db, token: string, address: string, now: int, ttl: int): Db {
    if InUse(db.mailboxes, token, address) then db
    else db.(mailboxes := db.mailboxes[db.nextMailbox := Mailbox(token, address, now + ttl)],
             nextMailbox := db.nextMailbox + 1,
             counters := Incremented(db.counters, MailboxesCreated, 1.0))
  }

  /** Fails without effect when there is no such mailbox. */
  function SaveMessage(db: Db, mailbox: nat, receivedAt: int): Db {
    if mailbox !in db.mailboxes then db
    else db.(messages := db.messages[db.nextMessage := Message(mailbox, receivedAt)],
             nextMessage := db.nextMessage + 1,
             counters := Incremented(db.counters, MessagesReceived, 1.0))
  }

  /** A first report is inserted and counted, a later one replaces it. Fails
      without effect when there is no such message. */
  function SaveReport(db: Db, message: nat, score: real): Db {
    if message !in db.messages then db
    else if message in db.reports then db.(reports := db.reports[message := db.reports[message].(score := score)])
    else db.(reports := db.reports[message := Report(db.nextReport, score)],
             nextReport := db.nextReport + 1,
             counters := Incremented(Incremented(db.counters, ReportsGenerated, 1.0), ScoreSum, score))
  }

  /** Fails without effect when there is no report. */
  function CorrectReport(db: Db, message: nat, score: real): Db {
    if message !in db.reports then db
    else db.(reports := db.reports[message := db.reports[message].(score := score)])
  }

  /** Deleting messages deletes their reports. */
  function WithoutMessages(db: Db, gone: set<nat>): Db {
    db.(messages := db.messages - gone, reports := db.reports - gone)
  }

  /** Deleting mailboxes deletes their messages, and with them the reports. */
  function WithoutMailboxes(db: Db, gone: set<nat>): Db {
    WithoutMessages(db.(mailboxes := db.mailboxes - gone),
                    set m | m in db.messages && db.messages[m].mailbox in gone)
  }

  function WithToken(db: Db, token: string): set<nat> {
    set i | i in db.mailboxes && db.mailboxes[i].token == token
  }

  function DeleteMailbox(db: Db, token: string): Db {
    WithoutMailboxes(db, WithToken(db, token))
  }

  function OldMessages(db: Db, cutoff: int): set<nat> {
    set m | m in db.messages && db.messages[m].receivedAt < cutoff
  }

  function OldMailboxes(db: Db, cutoff: int): set<nat> {
    set i | i in db.mailboxes && db.mailboxes[i].expiresAt < cutoff
  }

  function Cleanup(db: Db, now: int, retention: int): Db {
    SweptBefore(db, now - retention)
  }

  /** First the old messages, then the mailboxes that closed long ago. */
  function SweptBefore(db: Db, cutoff: int): Db {
    WithoutMailboxes(WithoutMessages(db, OldMessages(db, cutoff)), OldMailboxes(db, cutoff))
  }

  /** The statistics of the platform. */
  datatype Stats = Stats(
    totalMailboxes: int, activeMailboxes: nat, totalMessages: int, totalReports: int, avgScore: real)

  function ActiveMailboxes(mailboxes: map<nat, Mailbox>, now: int): set<nat> {
    set i | i in mailboxes && mailboxes[i].expiresAt > now
  }

  // ----- the sum over a table -----------------------------------------------------

  datatype Scored = Scored(message: nat, score: real)

  function Sum(scored: seq<Scored>): real {
    if |scored| == 0 then 0.0 else Sum(scored[..|scored| - 1]) + scored[|scored| - 1].score
  }

  /** The rows of the report table in some order. */
  ghost function Rows(reports: map<nat, Report>): seq<Scored>
    decreases |reports|
  {
    if |reports| == 0 then []
    else
      var m :| m in reports;
      Rows(reports - {m}) + [Scored(m, reports[m].score)]
  }

  ghost function SumScores(reports: map<nat, Report>): real {
    Sum(Rows(reports))
  }

  /** A counter is seeded only when it is missing. */
  function Seeded(counters: map<Counter, real>, key: Counter, value: real): map<Counter, real> {
    if key in counters then counters else counters[key := value]
  }

  ghost function Migrated(db: Db): Db {
    db.(counters :=
      Seeded(Seeded(Seeded(Seeded(db.counters,
        MailboxesCreated, |db.mailboxes| as real),
        MessagesReceived, |db.messages| as real),
        ReportsGenerated, |db.reports| as real),
        ScoreSum, SumScores(db.reports)))
  }

  lemma {:induction false} SumStep(scored: seq<Scored>, x: Scored)
    ensures Sum(scored + [x]) == Sum(scored) + x.score
  {
    assert (scored + [x])[..|scored|] == scored;
  }

  /** The sum does not depend on the order of the rows. */
  lemma {:induction false} SumRemove(reports: map<nat, Report>, k: nat)
    requires k in reports
    ensures SumScores(reports) == SumScores(reports - {k}) + reports[k].score
    decreases |reports|
  {
    assert |reports| > 0;
    var m :| m in reports && Rows(reports) == Rows(reports - {m}) + [Scored(m, reports[m].score)];
    SumStep(Rows(reports - {m}), Scored(m, reports[m].score));
    if m != k {
      assert |reports - {m}| < |reports| by { Smaller(reports, m); }
      assert |reports - {k}| < |reports| by { Smaller(reports, k); }
      SumRemove(reports - {m}, k);
      SumRemove(reports - {k}, m);
      assert reports - {m} - {k} == reports - {k} - {m};
    }
  }

  lemma {:induction false} Smaller(reports: map<nat, Report>, m: nat)
    requires m in reports
    ensures |reports - {m}| == |reports| - 1
  {
    assert (reports - {m}).Keys == reports.Keys - {m};
  }
}
