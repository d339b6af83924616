/** The store as the program uses it: tables and counters updated in place. */
module Store {
  import opened StoreModel
  import opened StoreTheorems

  lemma {:induction false} SameMailboxes(a: Db, b: Db, cutoff: int)
    requires a.mailboxes == b.mailboxes
    ensures OldMailboxes(a, cutoff) == OldMailboxes(b, cutoff)
  {
  }

  class Store {
    var mailboxes: map<nat, Mailbox>
    var messages: map<nat, Message>
    var reports: map<nat, Report>
    var counters: map<Counter, real>
    var nextMailbox: nat
    var nextMessage: nat
    var nextReport: nat

    ghost function View(): Db
      reads this
    {
      Db(mailboxes, messages, reports, counters, nextMailbox, nextMessage, nextReport)
    }

    constructor ()
      ensures View() == Db(map[], map[], map[], map[], 1, 1, 1)
    {
      mailboxes, messages, reports, counters := map[], map[], map[], map[];
      nextMailbox, nextMessage, nextReport := 1, 1, 1;
    }

    method IncrCounter(key: Counter, delta: real)
      modifies this`counters
      ensures counters == Incremented(old(counters), key, delta)
    {
      var value := if key in counters then counters[key] else 0.0;
      counters := counters[key := value + delta];
    }

    method CreateMailbox(token: string, address: string, now: int, ttl: int) returns (ok: bool, id: nat)
      modifies this
      ensures View() == StoreModel.CreateMailbox(old(View()), token, address, now, ttl)
      ensures ok == !InUse(old(mailboxes), token, address)
      ensures ok ==> id == old(nextMailbox) && id in mailboxes
    {
      if exists i :: i in mailboxes && (mailboxes[i].token == token || mailboxes[i].address == address) {
        return false, 0;
      }
      id := nextMailbox;
      mailboxes := mailboxes[id := Mailbox(token, address, now + ttl)];
      nextMailbox := nextMailbox + 1;
      IncrCounter(MailboxesCreated, 1.0);
      ok := true;
    }

    method SaveMessage(mailbox: nat, receivedAt: int) returns (ok: bool, id: nat)
      modifies this
      ensures View() == StoreModel.SaveMessage(old(View()), mailbox, receivedAt)
      ensures ok == (mailbox in old(mailboxes))
      ensures ok ==> id == old(nextMessage) && id in messages
    {
      if mailbox !in mailboxes {
        return false, 0;
      }
      id := nextMessage;
      messages := messages[id := Message(mailbox, receivedAt)];
      nextMessage := nextMessage + 1;
      IncrCounter(MessagesReceived, 1.0);
      ok := true;
    }

    method SaveReport(message: nat, score: real) returns (ok: bool)
      modifies this
      ensures View() == StoreModel.SaveReport(old(View()), message, score)
      ensures ok == (message in old(messages))
    {
      var isNew := message !in reports;
      if message !in messages {
        return false;
      }
      if isNew {
        reports := reports[message := Report(nextReport, score)];
        nextReport := nextReport + 1;
        IncrCounter(ReportsGenerated, 1.0);
        IncrCounter(ScoreSum, score);
      } else {
        reports := reports[message := reports[message].(score := score)];
      }
      ok := true;
    }

    method UpdateReportScoreChecks(message: nat, score: real) returns (ok: bool)
      modifies this`reports
      ensures View() == CorrectReport(old(View()), message, score)
      ensures ok == (message in old(reports))
    {
      if message !in reports {
        return false;
      }
      reports := reports[message := reports[message].(score := score)];
      ok := true;
    }

    /** DELETE on messages with its cascade. */
    method DeleteMessages(gone: set<nat>)
      modifies this`messages, this`reports
      ensures View() == WithoutMessages(old(View()), gone)
    {
      messages := messages - gone;
      reports := reports - gone;
    }

    /** DELETE on mailboxes with its cascade. */
    method DeleteMailboxes(gone: set<nat>)
      modifies this`mailboxes, this`messages, this`reports
      ensures View() == WithoutMailboxes(old(View()), gone)
    {
      var orphans := set m | m in messages && messages[m].mailbox in gone;
      mailboxes := mailboxes - gone;
      DeleteMessages(orphans);
    }

    method DeleteMailboxByToken(token: string) returns (ok: bool)
      modifies this`mailboxes, this`messages, this`reports
      ensures View() == DeleteMailbox(old(View()), token)
      ensures ok <==> exists i :: i in old(mailboxes) && old(mailboxes)[i].token == token
    {
      var gone := set i | i in mailboxes && mailboxes[i].token == token;
      ok := gone != {};
      assert forall i :: i in mailboxes && mailboxes[i].token == token ==> i in gone;
      assert ok ==> exists i :: i in gone && i in mailboxes && mailboxes[i].token == token;
      DeleteMailboxes(gone);
    }

    method DeleteMessagesBefore(cutoff: int) returns (n: nat)
      modifies this`messages, this`reports
      ensures View() == WithoutMessages(old(View()), OldMessages(old(View()), cutoff))
      ensures n == |OldMessages(old(View()), cutoff)|
    {
      hide WithoutMessages;
      var gone := set m | m in messages && messages[m].receivedAt < cutoff;
      DeleteMessages(gone);
      n := |gone|;
    }

    method DeleteMailboxesBefore(cutoff: int) returns (n: nat)
      modifies this`mailboxes, this`messages, this`reports
      ensures View() == WithoutMailboxes(old(View()), OldMailboxes(old(View()), cutoff))
      ensures n == |OldMailboxes(old(View()), cutoff)|
    {
      hide WithoutMailboxes;
      var gone := set i | i in mailboxes && mailboxes[i].expiresAt < cutoff;
      DeleteMailboxes(gone);
      n := |gone|;
    }

    method Cleanup(now: int, retention: int) returns (deletedMailboxes: nat, deletedMessages: nat)
      modifies this`mailboxes, this`messages, this`reports
      ensures View() == StoreModel.Cleanup(old(View()), now, retention)
      ensures deletedMailboxes == |OldMailboxes(old(View()), now - retention)|
      ensures deletedMessages == |OldMessages(old(View()), now - retention)|
    {
      hide WithoutMailboxes;
      hide OldMessages;
      hide OldMailboxes;
      deletedMessages := DeleteMessagesBefore(now - retention);
      SameMailboxes(old(View()), View(), now - retention);
      deletedMailboxes := DeleteMailboxesBefore(now - retention);
    }

    /** INSERT OR IGNORE on a counter. */
    method SeedCounter(key: Counter, value: real)
      modifies this`counters
      ensures counters == Seeded(old(counters), key, value)
    {
      if key !in counters {
        counters := counters[key := value];
      }
    }

    method SumOfScores() returns (total: real)
      ensures total == SumScores(reports)
    {
      total := 0.0;
      var rest := reports;
      while rest != map[]
        invariant total + SumScores(rest) == SumScores(reports)
        decreases |rest|
      {
        var m :| m in rest;
        SumRemove(rest, m);
        Smaller(rest, m);
        total := total + rest[m].score;
        rest := rest - {m};
      }
    }

    method Migrate()
      modifies this`counters
      ensures View() == Migrated(old(View()))
    {
      SeedCounter(MailboxesCreated, |mailboxes| as real);
      SeedCounter(MessagesReceived, |messages| as real);
      SeedCounter(ReportsGenerated, |reports| as real);
      var total := SumOfScores();
      SeedCounter(ScoreSum, total);
    }

    /** In a store whose invariant holds for some history, the statistics tell it. */
    method GetGlobalStats(now: int) returns (st: Stats)
      ensures forall l :: Inv(View(), l) ==> TellTheTruth(st, View(), l, now)
    {
      hide Inv;
      hide TellTheTruth;
      var mailboxTotal := ReadCounter(MailboxesCreated);
      var messageTotal := ReadCounter(MessagesReceived);
      var reportTotal := ReadCounter(ReportsGenerated);
      var avg := 0.0;
      if reportTotal.Floor > 0 {
        var sum := ReadCounter(ScoreSum);
        avg := sum / reportTotal.Floor as real;
      }
      var active := set i | i in mailboxes && mailboxes[i].expiresAt > now;
      assert active == ActiveMailboxes(mailboxes, now);
      st := Stats(mailboxTotal.Floor, |active|, messageTotal.Floor, reportTotal.Floor, avg);
      forall l | Inv(View(), l)
        ensures TellTheTruth(st, View(), l, now)
      {
        StatsTellTheTruth(st, View(), l, now);
      }
    }

    method ReadCounter(key: Counter) returns (value: real)
      ensures value == CounterValue(counters, key)
    {
      value := 0.0;
      if key in counters {
        value := counters[key];
      }
    }
  }

  /** One request against the store. */
  method Perform(s: Store, op: Op)
    modifies s
    ensures s.View() == Apply(old(s.View()), op)
  {
    match op
    case Create(token, address, at, ttl) => var _, _ := s.CreateMailbox(token, address, at, ttl);
    case Save(mailbox, receivedAt) => var _, _ := s.SaveMessage(mailbox, receivedAt);
    case Grade(message, score) => var _ := s.SaveReport(message, score);
    case Correct(message, score) => var _ := s.UpdateReportScoreChecks(message, score);
    case Delete(token) => var _ := s.DeleteMailboxByToken(token);
    case Clean(now, retention) => var _, _ := s.Cleanup(now, retention);
    case Restart => s.Migrate();
  }

  /** A new store, migrated, after any series of requests: its statistics tell the
      history of that series. */
  method Serve(ops: seq<Op>, now: int) returns (s: Store, st: Stats)
    requires forall i :: 0 <= i < |ops| ==> Sane(ops[i])
    ensures fresh(s)
    ensures var empty := Db(map[], map[], map[], map[], 1, 1, 1);
      && s.View() == After(Migrated(empty), ops)
      && TellTheTruth(st, s.View(), LedgerAfter(Migrated(empty), Opening(empty), ops), now)
  {
    hide Apply;
    hide Recorded;
    hide Inv;
    hide Migrated;
    hide TellTheTruth;
    ghost var empty := Db(map[], map[], map[], map[], 1, 1, 1);
    s := new Store();
    s.Migrate();
    MigrationSeeds(empty);
    ghost var start, l := s.View(), Opening(empty);
    for i := 0 to |ops|
      invariant After(start, ops) == After(s.View(), ops[i..])
      invariant LedgerAfter(start, Opening(empty), ops) == LedgerAfter(s.View(), l, ops[i..])
      invariant Inv(s.View(), l)
    {
      assert ops[i..][0] == ops[i] && ops[i..][1..] == ops[i + 1..];
      OpKeeps(s.View(), l, ops[i]);
      l := Recorded(s.View(), l, ops[i]);
      Perform(s, ops[i]);
    }
    st := s.GetGlobalStats(now);
  }
}
