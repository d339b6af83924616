/** What the store keeps over every run of its operations. Counter writes are
    taken to succeed. */
module StoreTheorems {
  import opened StoreModel

  datatype Op =
    | Create(token: string, address: string, at: int, ttl: int)
    | Save(mailbox: nat, receivedAt: int)
    | Grade(message: nat, score: real)
    | Correct(message: nat, score: real)
    | Delete(token: string)
    | Clean(now: int, retention: int)
    | Restart

  ghost function Apply(db: Db, op: Op): Db {
    match op
    case Create(token, address, at, ttl) => CreateMailbox(db, token, address, at, ttl)
    case Save(mailbox, receivedAt) => SaveMessage(db, mailbox, receivedAt)
    case Grade(message, score) => SaveReport(db, message, score)
    case Correct(message, score) => CorrectReport(db, message, score)
    case Delete(token) => DeleteMailbox(db, token)
    case Clean(now, retention) => Cleanup(db, now, retention)
    case Restart => Migrated(db)
  }

  /** What happened, apart from the tables: how many rows were deleted, and the
      first score each message ever got, in order. */
  datatype Ledger = Ledger(goneMailboxes: nat, goneMessages: nat, scored: seq<Scored>)

  predicate WasScored(scored: seq<Scored>, m: nat) {
    exists i :: 0 <= i < |scored| && scored[i].message == m
  }

  function Size<V>(m: map<nat, V>): nat {
    |m|
  }

  /** How many rows of a table are not there any more. */
  function Gone<V>(m: map<nat, V>, after: map<nat, V>): nat {
    |Missing(m, after)|
  }

  function Missing<V>(m: map<nat, V>, after: map<nat, V>): set<nat> {
    set k | k in m && k !in after
  }

  ghost function Recorded(db: Db, l: Ledger, op: Op): Ledger {
    var after := Apply(db, op);
    Ledger(
      l.goneMailboxes + Gone(db.mailboxes, after.mailboxes),
      l.goneMessages + Gone(db.messages, after.messages),
      if op.Grade? && op.message in db.messages && !WasScored(l.scored, op.message)
      then l.scored + [Scored(op.message, op.score)] else l.scored)
  }

  ghost function After(db: Db, ops: seq<Op>): Db
    decreases |ops|
  {
    if |ops| == 0 then db else After(Apply(db, ops[0]), ops[1..])
  }

  ghost function LedgerAfter(db: Db, l: Ledger, ops: seq<Op>): Ledger
    decreases |ops|
  {
    if |ops| == 0 then l else LedgerAfter(Apply(db, ops[0]), Recorded(db, l, ops[0]), ops[1..])
  }

  // ----- the invariant ---------------------------------------------------------------

  /** No message without its mailbox, no report without its message, and ids
      that are not handed out twice. */
  ghost predicate NoOrphans(mailboxes: map<nat, Mailbox>, messages: map<nat, Message>, reports: map<nat, Report>,
                            nextMailbox: nat, nextMessage: nat) {
    && (forall m :: m in messages ==> messages[m].mailbox in mailboxes)
    && (forall r :: r in reports ==> r in messages)
    && (forall i :: i in mailboxes ==> i < nextMailbox)
    && (forall m :: m in messages ==> m < nextMessage)
  }

  predicate InRange(score: real) {
    0.0 <= score <= 10.0
  }

  /** A live message has a report exactly when it was ever scored; every message
      was scored at most once. */
  ghost predicate ScoredOnce(messages: map<nat, Message>, reports: map<nat, Report>, nextMessage: nat,
      scored: seq<Scored>) {
    && (forall m :: m in messages ==> (m in reports <==> WasScored(scored, m)))
    && (forall i :: 0 <= i < |scored| ==> scored[i].message < nextMessage && InRange(scored[i].score))
    && (forall i, j :: 0 <= i < j < |scored| ==> scored[i].message != scored[j].message)
  }

  /** The counters for a number of mailboxes and messages and the first scores. */
  ghost predicate Counted(counters: map<Counter, real>, mailboxes: nat, messages: nat, scored: seq<Scored>) {
    && counters.Keys == {MailboxesCreated, MessagesReceived, ReportsGenerated, ScoreSum}
    && counters[MailboxesCreated] == mailboxes as real
    && counters[MessagesReceived] == messages as real
    && counters[ReportsGenerated] == |scored| as real
    && counters[ScoreSum] == Sum(scored)
  }

  ghost predicate Inv(db: Db, l: Ledger) {
    && NoOrphans(db.mailboxes, db.messages, db.reports, db.nextMailbox, db.nextMessage)
    && ScoredOnce(db.messages, db.reports, db.nextMessage, l.scored)
    && Counted(db.counters, Size(db.mailboxes) + l.goneMailboxes, Size(db.messages) + l.goneMessages, l.scored)
  }

  predicate Sane(op: Op) {
    op.Grade? ==> InRange(op.score)
  }

  // ----- sizes ------------------------------------------------------------------------

  lemma {:induction false} NewKey<V>(m: map<nat, V>, k: nat, v: V)
    requires k !in m
    ensures Size(m[k := v]) == Size(m) + 1
  {
    assert m[k := v].Keys == m.Keys + {k};
  }

  lemma {:induction false} FewerKeys<V>(m: map<nat, V>, gone: set<nat>)
    ensures Size(m - gone) + Gone(m, m - gone) == Size(m)
  {
    Split(m, m - gone);
  }

  lemma {:induction false} Split<V>(m: map<nat, V>, kept: map<nat, V>)
    requires forall k :: k in kept ==> k in m
    ensures Size(kept) + Gone(m, kept) == Size(m)
  {
    var missing := Missing(m, kept);
    assert |m.Keys| == |m| && |kept.Keys| == |kept|;
    DisjointSizes(m.Keys, kept.Keys, missing);
  }

  lemma {:induction false} DisjointSizes(all: set<nat>, a: set<nat>, b: set<nat>)
    requires forall k :: k in all <==> k in a || k in b
    requires forall k :: k in a ==> k !in b
    ensures |all| == |a| + |b|
  {
    assert all == a + b && a * b == {};
  }

  // ----- every operation keeps it ---------------------------------------------------------

  lemma {:induction false} CountOne(counters: map<Counter, real>, boxes: nat, messages: nat, scored: seq<Scored>)
    requires Counted(counters, boxes, messages, scored)
    ensures Counted(Incremented(counters, MailboxesCreated, 1.0), boxes + 1, messages, scored)
    ensures Counted(Incremented(counters, MessagesReceived, 1.0), boxes, messages + 1, scored)
  {
    var keys := {MailboxesCreated, MessagesReceived, ReportsGenerated, ScoreSum};
    assert keys + {MailboxesCreated} == keys && keys + {MessagesReceived} == keys;
    hide Sum;
  }

  lemma {:induction false} CountScore(counters: map<Counter, real>, boxes: nat, messages: nat, scored: seq<Scored>,
      x: Scored)
    requires Counted(counters, boxes, messages, scored)
    ensures Counted(Incremented(Incremented(counters, ReportsGenerated, 1.0), ScoreSum, x.score),
                    boxes, messages, scored + [x])
  {
    hide Sum;
    SumStep(scored, x);
  }

  /** Rows that are only added are not counted as gone. */
  lemma {:induction false} NothingGone(db: Db, after: Db, l: Ledger)
    requires forall k :: k in db.mailboxes ==> k in after.mailboxes
    requires forall k :: k in db.messages ==> k in after.messages
    ensures l.goneMailboxes + Gone(db.mailboxes, after.mailboxes) == l.goneMailboxes
    ensures l.goneMessages + Gone(db.messages, after.messages) == l.goneMessages
  {
    assert Missing(db.mailboxes, after.mailboxes) == {} && Missing(db.messages, after.messages) == {};
  }

  lemma {:induction false} NewMailbox(db: Db, box: Mailbox)
    requires NoOrphans(db.mailboxes, db.messages, db.reports, db.nextMailbox, db.nextMessage)
    ensures db.nextMailbox !in db.mailboxes
    ensures NoOrphans(db.mailboxes[db.nextMailbox := box], db.messages, db.reports, db.nextMailbox + 1, db.nextMessage)
  {
  }

  lemma {:induction false} CreateKeeps(db: Db, l: Ledger, op: Op)
    requires Inv(db, l) && op.Create?
    ensures Inv(Apply(db, op), Recorded(db, l, op))
  {
    hide Size;
    hide Gone;
    hide NoOrphans;
    hide ScoredOnce;
    hide Counted;
    hide WasScored;
    hide Migrated;
    hide DeleteMailbox;
    hide Cleanup;
    hide InUse;
    NothingGone(db, Apply(db, op), l);
    if !InUse(db.mailboxes, op.token, op.address) {
      var box := Mailbox(op.token, op.address, op.at + op.ttl);
      NewMailbox(db, box);
      NewKey(db.mailboxes, db.nextMailbox, box);
      CountOne(db.counters, Size(db.mailboxes) + l.goneMailboxes, Size(db.messages) + l.goneMessages, l.scored);
    }
  }

  lemma {:induction false} SaveKeeps(db: Db, l: Ledger, op: Op)
    requires Inv(db, l) && op.Save?
    ensures Inv(Apply(db, op), Recorded(db, l, op))
  {
    hide Size;
    hide Gone;
    hide NoOrphans;
    hide ScoredOnce;
    hide Counted;
    hide WasScored;
    hide Migrated;
    hide DeleteMailbox;
    hide Cleanup;
    NothingGone(db, Apply(db, op), l);
    if op.mailbox in db.mailboxes {
      var m := Message(op.mailbox, op.receivedAt);
      NewMessage(db, l.scored, m);
      NewKey(db.messages, db.nextMessage, m);
      CountOne(db.counters, Size(db.mailboxes) + l.goneMailboxes, Size(db.messages) + l.goneMessages, l.scored);
    }
  }

  /** A new message was never scored, because its id is new. */
  lemma {:induction false} NewMessage(db: Db, scored: seq<Scored>, m: Message)
    requires ScoredOnce(db.messages, db.reports, db.nextMessage, scored)
    requires NoOrphans(db.mailboxes, db.messages, db.reports, db.nextMailbox, db.nextMessage)
    requires m.mailbox in db.mailboxes
    ensures db.nextMessage !in db.messages
    ensures NoOrphans(db.mailboxes, db.messages[db.nextMessage := m], db.reports, db.nextMailbox, db.nextMessage + 1)
    ensures ScoredOnce(db.messages[db.nextMessage := m], db.reports, db.nextMessage + 1, scored)
  {
    assert db.nextMessage !in db.reports;
    assert !WasScored(scored, db.nextMessage);
    hide WasScored;
  }

  lemma {:induction false} GradeKeeps(db: Db, l: Ledger, op: Op)
    requires Inv(db, l) && op.Grade? && Sane(op)
    ensures Inv(Apply(db, op), Recorded(db, l, op))
  {
    hide Size;
    hide Gone;
    hide WasScored;
    hide Counted;
    hide Migrated;
    hide DeleteMailbox;
    hide Cleanup;
    NothingGone(db, Apply(db, op), l);
    if op.message in db.messages && op.message !in db.reports {
      var x := Scored(op.message, op.score);
      CountScore(db.counters, Size(db.mailboxes) + l.goneMailboxes, Size(db.messages) + l.goneMessages, l.scored, x);
      FirstScore(db, l.scored, x, db.nextReport);
    }
  }

  /** A first report makes its message scored, and no other. */
  lemma {:induction false} FirstScore(db: Db, scored: seq<Scored>, x: Scored, id: nat)
    requires ScoredOnce(db.messages, db.reports, db.nextMessage, scored)
    requires NoOrphans(db.mailboxes, db.messages, db.reports, db.nextMailbox, db.nextMessage)
    requires x.message in db.messages && x.message !in db.reports && InRange(x.score)
    ensures ScoredOnce(db.messages, db.reports[x.message := Report(id, x.score)], db.nextMessage, scored + [x])
  {
    ScoredMore(scored, x);
    var more := scored + [x];
    assert forall i :: 0 <= i < |scored| ==> more[i] == scored[i] && scored[i].message != x.message;
    hide WasScored;
  }

  lemma {:induction false} ScoredMore(scored: seq<Scored>, x: Scored)
    ensures forall m :: WasScored(scored + [x], m) <==> WasScored(scored, m) || m == x.message
  {
    var more := scored + [x];
    assert more[|scored|] == x && forall i :: 0 <= i < |scored| ==> more[i] == scored[i];
  }

  lemma {:induction false} CorrectKeeps(db: Db, l: Ledger, op: Op)
    requires Inv(db, l) && op.Correct?
    ensures Inv(Apply(db, op), Recorded(db, l, op))
  {
    hide Size;
    hide Gone;
    hide WasScored;
    hide Counted;
    hide Migrated;
    hide DeleteMailbox;
    hide Cleanup;
    NothingGone(db, Apply(db, op), l);
  }

  /** The tables without some mailboxes and some messages. */
  function Dropped(db: Db, boxes: set<nat>, gone: set<nat>): Db {
    db.(mailboxes := db.mailboxes - boxes, messages := db.messages - gone, reports := db.reports - gone)
  }

  lemma {:induction false} DropTables(db: Db, scored: seq<Scored>, boxes: set<nat>, gone: set<nat>)
    requires NoOrphans(db.mailboxes, db.messages, db.reports, db.nextMailbox, db.nextMessage)
    requires ScoredOnce(db.messages, db.reports, db.nextMessage, scored)
    requires forall m :: m in db.messages && db.messages[m].mailbox in boxes ==> m in gone
    ensures NoOrphans(db.mailboxes - boxes, db.messages - gone, db.reports - gone, db.nextMailbox, db.nextMessage)
    ensures ScoredOnce(db.messages - gone, db.reports - gone, db.nextMessage, scored)
  {
    hide WasScored;
  }

  lemma {:induction false} DropKeeps(db: Db, l: Ledger, boxes: set<nat>, gone: set<nat>)
    requires Inv(db, l)
    requires forall m :: m in db.messages && db.messages[m].mailbox in boxes ==> m in gone
    ensures var after := Dropped(db, boxes, gone);
      Inv(after, Ledger(l.goneMailboxes + Gone(db.mailboxes, after.mailboxes),
                        l.goneMessages + Gone(db.messages, after.messages), l.scored))
  {
    hide Size;
    hide Gone;
    hide NoOrphans;
    hide ScoredOnce;
    hide WasScored;
    hide Counted;
    DropTables(db, l.scored, boxes, gone);
    FewerKeys(db.mailboxes, boxes);
    FewerKeys(db.messages, gone);
  }

  lemma {:induction false} DeleteKeeps(db: Db, l: Ledger, op: Op)
    requires Inv(db, l) && op.Delete?
    ensures Inv(Apply(db, op), Recorded(db, l, op))
  {
    hide Size;
    hide Gone;
    hide Inv;
    hide DeleteMailbox;
    hide Dropped;
    hide WithToken;
    hide InMailboxes;
    hide Migrated;
    hide Cleanup;
    var boxes := WithToken(db, op.token);
    DeleteIsDrop(db, op.token);
    DropKeeps(db, l, boxes, InMailboxes(db, boxes));
  }

  lemma {:induction false} DeleteIsDrop(db: Db, token: string)
    ensures var boxes := WithToken(db, token); var gone := InMailboxes(db, boxes);
      && DeleteMailbox(db, token) == Dropped(db, boxes, gone)
      && forall m :: m in db.messages && db.messages[m].mailbox in boxes ==> m in gone
  {
  }

  function InMailboxes(db: Db, boxes: set<nat>): set<nat> {
    set m | m in db.messages && db.messages[m].mailbox in boxes
  }

  /** The messages a cleanup removes, directly or with their mailbox. */
  function Swept(db: Db, cutoff: int): set<nat> {
    OldMessages(db, cutoff) + InMailboxes(db, OldMailboxes(db, cutoff))
  }

  lemma {:induction false} SweepIsDrop(db: Db, cutoff: int)
    ensures SweptBefore(db, cutoff) == Dropped(db, OldMailboxes(db, cutoff), Swept(db, cutoff))
    ensures forall m :: m in db.messages && db.messages[m].mailbox in OldMailboxes(db, cutoff) ==>
      m in Swept(db, cutoff)
  {
    var olds, boxes := OldMessages(db, cutoff), OldMailboxes(db, cutoff);
    var mid := WithoutMessages(db, olds);
    var cascade := set m | m in mid.messages && mid.messages[m].mailbox in boxes;
    assert db.messages - olds - cascade == db.messages - Swept(db, cutoff);
    assert db.reports - olds - cascade == db.reports - Swept(db, cutoff);
  }

  lemma {:induction false} CleanKeeps(db: Db, l: Ledger, op: Op)
    requires Inv(db, l) && op.Clean?
    ensures Inv(Apply(db, op), Recorded(db, l, op))
  {
    hide Size;
    hide Gone;
    hide Inv;
    hide SweptBefore;
    hide Dropped;
    hide OldMailboxes;
    hide Swept;
    hide Migrated;
    hide DeleteMailbox;
    var cutoff := op.now - op.retention;
    SweepIsDrop(db, cutoff);
    DropKeeps(db, l, OldMailboxes(db, cutoff), Swept(db, cutoff));
  }

  lemma {:induction false} RestartKeeps(db: Db, l: Ledger, op: Op)
    requires Inv(db, l) && op.Restart?
    ensures Apply(db, op) == db && Inv(Apply(db, op), Recorded(db, l, op))
  {
    hide Size;
    hide Gone;
    hide SumScores;
    hide NoOrphans;
    hide ScoredOnce;
    hide DeleteMailbox;
    hide Cleanup;
    NothingGone(db, Apply(db, op), l);
  }

  lemma {:induction false} OpKeeps(db: Db, l: Ledger, op: Op)
    requires Inv(db, l) && Sane(op)
    ensures Inv(Apply(db, op), Recorded(db, l, op))
  {
    hide Inv;
    hide Apply;
    hide Recorded;
    match op
    case Create(_, _, _, _) => CreateKeeps(db, l, op);
    case Save(_, _) => SaveKeeps(db, l, op);
    case Grade(_, _) => GradeKeeps(db, l, op);
    case Correct(_, _) => CorrectKeeps(db, l, op);
    case Delete(_) => DeleteKeeps(db, l, op);
    case Clean(_, _) => CleanKeeps(db, l, op);
    case Restart => RestartKeeps(db, l, op);
  }

  lemma {:induction false} RunKeeps(db: Db, l: Ledger, ops: seq<Op>)
    requires Inv(db, l) && forall i :: 0 <= i < |ops| ==> Sane(ops[i])
    ensures Inv(After(db, ops), LedgerAfter(db, l, ops))
    decreases |ops|
  {
    hide Inv;
    hide Apply;
    hide Recorded;
    if ops != [] {
      OpKeeps(db, l, ops[0]);
      RunKeeps(Apply(db, ops[0]), Recorded(db, l, ops[0]), ops[1..]);
    }
  }

  // ----- migration --------------------------------------------------------------------------

  /** A database from before the counters: consistent tables, scores in range. */
  ghost predicate Legacy(db: Db) {
    && NoOrphans(db.mailboxes, db.messages, db.reports, db.nextMailbox, db.nextMessage)
    && (forall r :: r in db.reports ==> InRange(db.reports[r].score))
    && db.counters == map[]
  }

  ghost function Opening(db: Db): Ledger {
    Ledger(0, 0, Rows(db.reports))
  }

  /** The rows list the reports, each once. */
  ghost predicate Lists(rows: seq<Scored>, reports: map<nat, Report>) {
    && (forall m :: WasScored(rows, m) <==> m in reports)
    && (forall i :: 0 <= i < |rows| ==> rows[i].message in reports && rows[i].score == reports[rows[i].message].score)
    && (forall i, j :: 0 <= i < j < |rows| ==> rows[i].message != rows[j].message)
  }

  lemma {:induction false} ListsOneMore(rows: seq<Scored>, reports: map<nat, Report>, m: nat)
    requires m in reports && Lists(rows, reports - {m})
    ensures Lists(rows + [Scored(m, reports[m].score)], reports)
  {
    var x := Scored(m, reports[m].score);
    ScoredMore(rows, x);
    var more := rows + [x];
    assert forall i :: 0 <= i < |rows| ==> more[i] == rows[i];
    hide WasScored;
  }

  lemma {:induction false} RowsAre(reports: map<nat, Report>)
    ensures |Rows(reports)| == |reports| && Lists(Rows(reports), reports)
    decreases |reports|
  {
    if |reports| > 0 {
      hide Lists;
      var m :| m in reports && Rows(reports) == Rows(reports - {m}) + [Scored(m, reports[m].score)];
      Smaller(reports, m);
      RowsAre(reports - {m});
      ListsOneMore(Rows(reports - {m}), reports, m);
    } else {
      assert reports == map[];
    }
  }

  /** Seeding the counters from the tables establishes the invariant. */
  lemma {:induction false} MigrationSeeds(db: Db)
    requires Legacy(db)
    ensures Inv(Migrated(db), Opening(db))
  {
    hide Rows;
    hide NoOrphans;
    hide ScoredOnce;
    hide WasScored;
    hide Counted;
    hide Sum;
    MigrationScored(db);
    MigrationCounts(db);
  }

  lemma {:induction false} MigrationCounts(db: Db)
    requires db.counters == map[]
    ensures Counted(Migrated(db).counters, Size(db.mailboxes), Size(db.messages), Rows(db.reports))
  {
    hide Rows;
    hide Lists;
    hide Sum;
    RowsAre(db.reports);
  }

  lemma {:induction false} MigrationScored(db: Db)
    requires Legacy(db)
    ensures ScoredOnce(db.messages, db.reports, db.nextMessage, Rows(db.reports))
  {
    RowsAre(db.reports);
    hide Rows;
    hide WasScored;
    var rows := Rows(db.reports);
    forall i | 0 <= i < |rows|
      ensures rows[i].message < db.nextMessage && InRange(rows[i].score)
    {
      assert rows[i].message in db.reports;
    }
  }

  /** Running the migration again changes nothing, whatever the database. */
  lemma {:induction false} MigrationIsIdempotent(db: Db)
    ensures Migrated(Migrated(db)) == Migrated(db)
    ensures forall key :: key in db.counters ==>
      key in Migrated(db).counters && Migrated(db).counters[key] == db.counters[key]
  {
    hide SumScores;
  }

  // ----- theorems over every run ---------------------------------------------------------------

  lemma {:induction false} SumInRange(scored: seq<Scored>)
    requires forall i :: 0 <= i < |scored| ==> InRange(scored[i].score)
    ensures 0.0 <= Sum(scored) <= 10.0 * |scored| as real
  {
    if scored != [] {
      SumInRange(scored[..|scored| - 1]);
    }
  }

  /** The statistics say what happened: all rows there ever were, the mailboxes
      that receive now, and the mean of the first scores. */
  ghost predicate TellTheTruth(st: Stats, db: Db, l: Ledger, now: int) {
    && st.totalMailboxes == |db.mailboxes| + l.goneMailboxes
    && st.totalMessages == |db.messages| + l.goneMessages
    && st.totalReports == |l.scored|
    && st.activeMailboxes == |ActiveMailboxes(db.mailboxes, now)| <= st.totalMailboxes
    && 0.0 <= st.avgScore <= 10.0 && st.avgScore * |l.scored| as real == Sum(l.scored)
  }

  /** The statistics read off the counters tell the truth under the invariant. */
  lemma {:induction false} StatsTellTheTruth(st: Stats, db: Db, l: Ledger, now: int)
    requires Inv(db, l)
    requires st.totalMailboxes == CounterValue(db.counters, MailboxesCreated).Floor
    requires st.totalMessages == CounterValue(db.counters, MessagesReceived).Floor
    requires st.totalReports == CounterValue(db.counters, ReportsGenerated).Floor
    requires st.activeMailboxes == |ActiveMailboxes(db.mailboxes, now)|
    requires st.avgScore
          == if st.totalReports > 0 then CounterValue(db.counters, ScoreSum) / st.totalReports as real else 0.0
    ensures TellTheTruth(st, db, l, now)
  {
    hide WasScored;
    hide NoOrphans;
    assert forall i :: 0 <= i < |l.scored| ==> InRange(l.scored[i].score);
    hide ScoredOnce;
    WholeNumber(Size(db.mailboxes) + l.goneMailboxes);
    WholeNumber(Size(db.messages) + l.goneMessages);
    WholeNumber(|l.scored|);
    SumInRange(l.scored);
    hide ActiveMailboxes;
    FewerActive(db.mailboxes, now);
    if l.scored != [] {
      hide Sum;
      Quotient(Sum(l.scored), |l.scored| as real);
    }
  }

  lemma {:induction false} WholeNumber(n: nat)
    ensures (n as real).Floor == n
  {
  }

  lemma {:induction false} FewerActive(mailboxes: map<nat, Mailbox>, now: int)
    ensures |ActiveMailboxes(mailboxes, now)| <= |mailboxes|
  {
    SubsetSize(ActiveMailboxes(mailboxes, now), mailboxes.Keys);
  }

  lemma {:induction false} SubsetSize(a: set<nat>, b: set<nat>)
    requires a <= b
    ensures |a| <= |b|
  {
    assert b == a + (b - a);
  }

  /** Over every run of operations on a migrated database: nothing is orphaned;
      the counters of mailboxes and messages are live plus deleted rows; the
      report counter counts each message that was ever graded once; and the
      lifetime average lies between 0 and 10. */
  lemma {:induction false} CountersTellTheTruth(db: Db, ops: seq<Op>)
    requires Legacy(db) && forall i :: 0 <= i < |ops| ==> Sane(ops[i])
    ensures var end := After(Migrated(db), ops); var l := LedgerAfter(Migrated(db), Opening(db), ops);
      && (forall m :: m in end.messages ==> end.messages[m].mailbox in end.mailboxes)
      && (forall r :: r in end.reports ==> r in end.messages)
      && CounterValue(end.counters, MailboxesCreated) == (|end.mailboxes| + l.goneMailboxes) as real
      && CounterValue(end.counters, MessagesReceived) == (|end.messages| + l.goneMessages) as real
      && CounterValue(end.counters, ReportsGenerated) == |l.scored| as real
      && (forall i, j :: 0 <= i < j < |l.scored| ==> l.scored[i].message != l.scored[j].message)
      && (l.scored != [] ==>
            0.0 <= CounterValue(end.counters, ScoreSum) / CounterValue(end.counters, ReportsGenerated) <= 10.0)
  {
    hide Migrated;
    hide Opening;
    hide After;
    hide LedgerAfter;
    hide WasScored;
    hide Sum;
    MigrationSeeds(db);
    RunKeeps(Migrated(db), Opening(db), ops);
    var end, l := After(Migrated(db), ops), LedgerAfter(Migrated(db), Opening(db), ops);
    SumInRange(l.scored);
    if l.scored != [] {
      Quotient(Sum(l.scored), |l.scored| as real);
    }
  }

  lemma {:induction false} Quotient(sum: real, n: real)
    requires n > 0.0 && 0.0 <= sum <= 10.0 * n
    ensures 0.0 <= sum / n <= 10.0 && (sum / n) * n == sum
  {
    assert sum == (sum / n) * n;
  }

  /** No operation makes a counter smaller. */
  lemma {:induction false} CountersOnlyGrow(db: Db, l: Ledger, op: Op, key: Counter)
    requires Inv(db, l) && Sane(op)
    ensures CounterValue(Apply(db, op).counters, key) >= CounterValue(db.counters, key)
  {
    hide NoOrphans;
    hide ScoredOnce;
    hide SumScores;
    hide WithoutMailboxes;
    hide WithoutMessages;
    hide InUse;
    hide OldMessages;
    hide OldMailboxes;
    hide WithToken;
    match op
    case Delete(token) => WithoutKeepsCounters(db, WithToken(db, token));
    case Clean(now, retention) => SweepKeepsCounters(db, now - retention);
    case _ =>
  }

  lemma {:induction false} WithoutKeepsCounters(db: Db, gone: set<nat>)
    ensures WithoutMailboxes(db, gone).counters == db.counters
  {
  }

  lemma {:induction false} SweepKeepsCounters(db: Db, cutoff: int)
    ensures SweptBefore(db, cutoff).counters == db.counters
  {
  }

  // ----- retention ----------------------------------------------------------------------------

  /** Every message arrived at most delta after its mailbox stopped receiving. */
  ghost predicate OnTime(db: Db, delta: int) {
    && NoOrphans(db.mailboxes, db.messages, db.reports, db.nextMailbox, db.nextMessage)
    && forall m :: m in db.messages ==>
         db.messages[m].receivedAt <= db.mailboxes[db.messages[m].mailbox].expiresAt + delta
  }

  /** The operation stores no message later than that. */
  ghost predicate Punctual(db: Db, op: Op, delta: int) {
    op.Save? && op.mailbox in db.mailboxes ==> op.receivedAt <= db.mailboxes[op.mailbox].expiresAt + delta
  }

  ghost predicate AllPunctual(db: Db, ops: seq<Op>, delta: int)
    decreases |ops|
  {
    |ops| == 0 || (Punctual(db, ops[0], delta) && AllPunctual(Apply(db, ops[0]), ops[1..], delta))
  }

  lemma {:induction false} OpStaysOnTime(db: Db, op: Op, delta: int)
    requires OnTime(db, delta) && Punctual(db, op, delta)
    ensures OnTime(Apply(db, op), delta)
  {
    hide Migrated;
    hide DeleteMailbox;
    hide Cleanup;
    match op
    case Clean(now, retention) => SweepOnTime(db, now, retention, delta);
    case Delete(token) => DeleteOnTime(db, token, delta);
    case Restart => MigrationKeepsTables(db);
    case _ =>
  }

  lemma {:induction false} MigrationKeepsTables(db: Db)
    ensures var after := Migrated(db);
      && after.mailboxes == db.mailboxes && after.messages == db.messages && after.reports == db.reports
      && after.nextMailbox == db.nextMailbox && after.nextMessage == db.nextMessage
  {
    hide SumScores;
  }

  lemma {:induction false} DropOnTime(db: Db, boxes: set<nat>, gone: set<nat>, delta: int)
    requires OnTime(db, delta)
    requires forall m :: m in db.messages && db.messages[m].mailbox in boxes ==> m in gone
    ensures OnTime(Dropped(db, boxes, gone), delta)
  {
  }

  lemma {:induction false} SweepOnTime(db: Db, now: int, retention: int, delta: int)
    requires OnTime(db, delta)
    ensures OnTime(Cleanup(db, now, retention), delta)
  {
    hide OnTime;
    hide SweptBefore;
    hide Dropped;
    hide OldMailboxes;
    hide Swept;
    SweepIsDrop(db, now - retention);
    DropOnTime(db, OldMailboxes(db, now - retention), Swept(db, now - retention), delta);
  }

  lemma {:induction false} DeleteOnTime(db: Db, token: string, delta: int)
    requires OnTime(db, delta)
    ensures OnTime(DeleteMailbox(db, token), delta)
  {
    hide OnTime;
    hide DeleteMailbox;
    hide Dropped;
    hide WithToken;
    hide InMailboxes;
    var boxes := WithToken(db, token);
    DeleteIsDrop(db, token);
    DropOnTime(db, boxes, InMailboxes(db, boxes), delta);
  }

  /** One cleanup of a database in which messages are on time: a message it
      removes is older than retention - delta, and a message it leaves is not
      older than retention. */
  lemma {:induction false} CleanupRespectsRetention(db: Db, now: int, retention: int, delta: nat, m: nat)
    requires OnTime(db, delta) && m in db.messages
    ensures m !in Cleanup(db, now, retention).messages ==> now - db.messages[m].receivedAt > retention - delta
    ensures m in Cleanup(db, now, retention).messages ==> now - db.messages[m].receivedAt <= retention
  {
    SweepIsDrop(db, now - retention);
  }

  /** A cleanup removes no message before retention - delta has passed since it
      arrived, and leaves none that is older than retention. */
  ghost predicate RetentionKept(before: Db, now: int, retention: int, delta: nat) {
    var after := Cleanup(before, now, retention);
    && (forall m :: m in before.messages && m !in after.messages ==>
          now - before.messages[m].receivedAt > retention - delta)
    && (forall m :: m in after.messages ==> m in before.messages && now - before.messages[m].receivedAt <= retention)
  }

  /** Every cleanup keeps to the retention, after any run of operations. */
  lemma {:induction false} RetentionInEveryRun(db: Db, ops: seq<Op>, now: int, retention: int, delta: nat)
    requires OnTime(db, delta) && AllPunctual(db, ops, delta)
    ensures RetentionKept(After(db, ops), now, retention, delta)
    decreases |ops|
  {
    if ops == [] {
      CleanupKeeps(db, now, retention, delta);
    } else {
      OpStaysOnTime(db, ops[0], delta);
      hide RetentionKept;
      hide Apply;
      hide OnTime;
      hide Punctual;
      RetentionInEveryRun(Apply(db, ops[0]), ops[1..], now, retention, delta);
    }
  }

  lemma {:induction false} CleanupKeeps(db: Db, now: int, retention: int, delta: nat)
    requires OnTime(db, delta)
    ensures RetentionKept(db, now, retention, delta)
  {
    hide Cleanup;
    forall m | m in db.messages
      ensures m !in Cleanup(db, now, retention).messages ==> now - db.messages[m].receivedAt > retention - delta
      ensures m in Cleanup(db, now, retention).messages ==> now - db.messages[m].receivedAt <= retention
    {
      CleanupRespectsRetention(db, now, retention, delta, m);
    }
    CleanupAddsNothing(db, now, retention);
  }

  lemma {:induction false} CleanupAddsNothing(db: Db, now: int, retention: int)
    ensures forall m :: m in Cleanup(db, now, retention).messages ==> m in db.messages
  {
  }
}
