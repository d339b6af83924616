/** What a placement test shows, over every interleaving of its pollers. The
    status writes are taken to succeed. */
module PlacementTheorems {
  import opened Placement

  /** No more than one result per seed has arrived. */
  lemma {:induction false} ArrivedAtMost(n: nat, s: State)
    requires Inv(n, s)
    ensures |s.collected| + |s.channel| <= n
    ensures |s.collected| + |s.channel| == n ==> forall i :: 0 <= i < n ==> HasSent(s.pollers[i])
  {
    hide OncePerSeed;
    hide SentCount;
    hide Shown;
    SentAtMost(s.pollers);
  }

  /** A step leaves the stored results alone or adds the result of a seed that
      was not among them; a final status stays as it is. */
  lemma {:induction false} StoredGrowsByOne(n: nat, s: State, step: Step)
    requires Inv(n, s) && Enabled(s, step)
    ensures var t := Next(s, step);
      || t.stored == s.stored
      || (&& |t.stored.results| == |s.stored.results| + 1 && s.stored.results <= t.stored.results
          && forall k :: 0 <= k < |s.stored.results| ==>
               s.stored.results[k].seed != t.stored.results[|s.stored.results|].seed)
    ensures s.stored.status == Done || s.stored.status == Timeout ==> Next(s, step).stored == s.stored
  {
    hide SentCount;
    ArrivedAtMost(n, s);
    if step.Write? {
      var m := |s.collected| - 1;
      assert s.collected[..m] <= s.collected;
      forall k | 0 <= k < m
        ensures s.collected[k].seed != s.collected[m].seed
      {
        assert Arrived(s)[k] == s.collected[k] && Arrived(s)[m] == s.collected[m];
      }
    }
  }

  /** A stored result names the folder in which its poller found the message:
      inbox for INBOX, spam for any other, timeout when it found none. */
  predicate Truthful(pollers: seq<Poller>, r: Result) {
    && r.seed < |pollers| && HasSent(pollers[r.seed])
    && match pollers[r.seed].finding
       case Expired => r.status == "timeout"
       case Found(folder) =>
         && r.folder == folder
         && (r.status == "inbox" <==> folder == "INBOX")
         && (r.status == "spam" <==> folder != "INBOX")
  }

  lemma {:induction false} ResultsAreTruthful(pollers: seq<Poller>, i: nat)
    requires i < |pollers| && HasSent(pollers[i])
    ensures Truthful(pollers, ResultOf(i, pollers[i].finding))
  {
    assert "inbox"[0] == 'i' && "spam"[0] == 's';
  }

  /** In every reachable state: no seed is repeated; the status is that of a
      test without results, running until the last result, and then timeout if
      the deadline passed for some seed and done otherwise, whatever the order
      in which the results came. */
  lemma {:induction false} StatusTellsTheTruth(n: nat, steps: seq<Step>)
    requires IsRun(Initial(n), steps)
    ensures var s := After(Initial(n), steps);
      && |s.pollers| == n && |s.stored.results| <= n
      && (forall k :: 0 <= k < |s.stored.results| ==> Truthful(s.pollers, s.stored.results[k]))
      && (forall j, k :: 0 <= j < k < |s.stored.results| ==> s.stored.results[j].seed != s.stored.results[k].seed)
      && (s.stored.results == [] <==> s.stored.status == AwaitingResults)
      && (s.stored.status == Running <==> 0 < |s.stored.results| < n)
      && (s.stored.status == Timeout <==>
            |s.stored.results| == n
            && exists i :: 0 <= i < n && HasSent(s.pollers[i]) && s.pollers[i].finding == Expired)
      && (s.stored.status == Done <==>
            0 < |s.stored.results| == n
            && forall i :: 0 <= i < n ==> HasSent(s.pollers[i]) && s.pollers[i].finding.Found?)
  {
    hide IsRun;
    hide After;
    hide Initial;
    InitialInv(n);
    RunInv(n, Initial(n), steps);
    var s := After(Initial(n), steps);
    ArrivedAtMost(n, s);
    var results := s.stored.results;
    forall k | 0 <= k < |results|
      ensures results[k] == Arrived(s)[k] && Truthful(s.pollers, results[k])
    {
      ResultsAreTruthful(s.pollers, Arrived(s)[k].seed);
    }
    if |results| == n {
      FullResults(s.pollers, Arrived(s), results);
    }
  }

  /** With a result for every seed, one of them is a timeout exactly when one of
      the pollers ran into the deadline. */
  lemma {:induction false} FullResults(pollers: seq<Poller>, arrived: seq<Result>, results: seq<Result>)
    requires OncePerSeed(pollers, arrived) && results <= arrived && |results| == |arrived| == |pollers|
    requires forall i :: 0 <= i < |pollers| ==> HasSent(pollers[i])
    ensures (exists k :: 0 <= k < |results| && results[k].status == "timeout")
        <==> exists i :: 0 <= i < |pollers| && HasSent(pollers[i]) && pollers[i].finding == Expired
  {
    forall k | 0 <= k < |results| && results[k].status == "timeout"
      ensures exists i :: 0 <= i < |pollers| && HasSent(pollers[i]) && pollers[i].finding == Expired
    {
      assert results[k] == arrived[k];
      var i := arrived[k].seed;
      FoundIsNoTimeout(i, pollers[i].finding);
    }
    forall i | 0 <= i < |pollers| && pollers[i].finding == Expired
      ensures exists k :: 0 <= k < |results| && results[k].status == "timeout"
    {
      var k := SeedArrives(arrived, |pollers|, i);
      assert results[k] == arrived[k];
    }
  }

  lemma {:induction false} FoundIsNoTimeout(i: nat, f: Finding)
    ensures ResultOf(i, f).status == "timeout" <==> f == Expired
  {
    assert "inbox"[0] == 'i' && "spam"[0] == 's' && "timeout"[0] == 't';
  }

  /** n results with different seeds below n hit every seed. */
  lemma {:induction false} SeedArrives(arrived: seq<Result>, n: nat, i: nat) returns (k: nat)
    requires |arrived| == n && i < n
    requires forall j :: 0 <= j < |arrived| ==> arrived[j].seed < n
    requires forall j, m :: 0 <= j < m < |arrived| ==> arrived[j].seed != arrived[m].seed
    ensures k < |arrived| && arrived[k].seed == i
  {
    SeedSetSize(arrived);
    RangeSize(n);
    forall x | x in SeedSet(arrived)
      ensures x in Range(n)
    {
      InSeedSet(arrived, x);
      InRange(n, x);
    }
    SubsetEqual(SeedSet(arrived), Range(n));
    InRange(n, i);
    InSeedSet(arrived, i);
    k :| 0 <= k < |arrived| && arrived[k].seed == i;
  }

  function SeedSet(arrived: seq<Result>): set<int> {
    if |arrived| == 0 then {} else SeedSet(arrived[1..]) + {arrived[0].seed}
  }

  lemma {:induction false} InSeedSet(arrived: seq<Result>, x: int)
    ensures x in SeedSet(arrived) <==> exists j :: 0 <= j < |arrived| && arrived[j].seed == x
  {
    if arrived != [] {
      InSeedSet(arrived[1..], x);
      assert forall j :: 0 < j < |arrived| ==> arrived[j] == arrived[1..][j - 1];
      assert forall j :: 0 <= j < |arrived[1..]| ==> arrived[1..][j] == arrived[j + 1];
    }
  }

  lemma {:induction false} SeedSetSize(arrived: seq<Result>)
    requires forall j, m :: 0 <= j < m < |arrived| ==> arrived[j].seed != arrived[m].seed
    ensures |SeedSet(arrived)| == |arrived|
  {
    if arrived != [] {
      SeedSetSize(arrived[1..]);
      InSeedSet(arrived[1..], arrived[0].seed);
    }
  }

  function Range(n: nat): set<int> {
    if n == 0 then {} else Range(n - 1) + {n - 1}
  }

  lemma {:induction false} InRange(n: nat, x: int)
    ensures x in Range(n) <==> 0 <= x < n
  {
    if n > 0 {
      InRange(n - 1, x);
    }
  }

  lemma {:induction false} RangeSize(n: nat)
    ensures |Range(n)| == n
  {
    if n > 0 {
      RangeSize(n - 1);
      InRange(n - 1, n - 1);
    }
  }

  lemma {:induction false} SubsetEqual(a: set<int>, b: set<int>)
    requires a <= b && |a| == |b|
    ensures a == b
  {
    var rest := b - a;
    assert b == a + rest;
    assert |rest| == 0;
  }

  // ----- every test comes to an end ----------------------------------------------------

  function StepsLeft(pollers: seq<Poller>): nat {
    if |pollers| == 0 then 0
    else
      (match pollers[0] case Looking => 3 case Holding(_) => 2 case Sent(_) => 1 case Gone(_) => 0)
      + StepsLeft(pollers[1..])
  }

  lemma {:induction false} StepsLeftUpdate(pollers: seq<Poller>, i: nat, p: Poller)
    requires i < |pollers|
    ensures StepsLeft(pollers[i := p]) == StepsLeft(pollers) - StepsLeft([pollers[i]]) + StepsLeft([p])
  {
    if i > 0 {
      StepsLeftUpdate(pollers[1..], i - 1, p);
      assert pollers[i := p][1..] == pollers[1..][i - 1 := p];
    } else {
      assert pollers[i := p][1..] == pollers[1..];
    }
  }

  lemma {:induction false} StepsLeftAtStart(n: nat)
    ensures StepsLeft(seq(n, _ => Looking)) == 3 * n
  {
    if n > 0 {
      assert seq(n, _ => Looking)[1..] == seq(n - 1, _ => Looking);
      StepsLeftAtStart(n - 1);
    }
  }

  /** Steps a test still has to take. */
  function Remaining(n: nat, s: State): int {
    StepsLeft(s.pollers) + 2 * (n - |s.collected|) + (if s.collector.Writing? then 1 else 0)
      + (if s.closed then 0 else 1) + (if s.collector.Ended? then 0 else 1)
  }

  lemma {:induction false} StepCounts(n: nat, s: State, step: Step)
    requires Inv(n, s) && Enabled(s, step)
    ensures Remaining(n, Next(s, step)) == Remaining(n, s) - 1
  {
    hide Inv;
    match step
    case Find(i, f) => StepsLeftUpdate(s.pollers, i, Holding(f));
    case Send(i) => StepsLeftUpdate(s.pollers, i, Sent(s.pollers[i].finding));
    case Leave(i) => StepsLeftUpdate(s.pollers, i, Gone(s.pollers[i].finding));
    case _ =>
  }

  /** Until the collector has ended, some step is possible. */
  lemma {:induction false} SomeStepEnabled(n: nat, s: State) returns (step: Step)
    requires Inv(n, s) && !s.collector.Ended?
    ensures Enabled(s, step)
  {
    if s.collector.Writing? {
      step := Write;
    } else if s.channel != [] {
      step := Receive;
    } else if s.closed {
      step := End;
    } else if forall i :: 0 <= i < n ==> s.pollers[i].Gone? {
      step := Close;
    } else {
      var i :| 0 <= i < n && !s.pollers[i].Gone?;
      match s.pollers[i]
      case Looking => step := Find(i, Expired);
      case Holding(_) => step := Send(i);
      case Sent(_) => step := Leave(i);
    }
  }

  lemma {:induction false} RunCounts(n: nat, s: State, steps: seq<Step>)
    requires Inv(n, s) && IsRun(s, steps)
    ensures |steps| + Remaining(n, After(s, steps)) == Remaining(n, s)
    decreases |steps|
  {
    hide Inv;
    hide Enabled;
    hide Next;
    hide Remaining;
    if steps != [] {
      NextInv(n, s, steps[0]);
      StepCounts(n, s, steps[0]);
      RunCounts(n, Next(s, steps[0]), steps[1..]);
    }
  }

  /** Every run of n seeds has at most 5n + 2 steps, and one that cannot go on
      has ended with a result of every seed stored. */
  lemma {:induction false} EveryTestEnds(n: nat, steps: seq<Step>)
    requires IsRun(Initial(n), steps)
    ensures |steps| <= 5 * n + 2
    ensures var s := After(Initial(n), steps);
      (forall step :: !Enabled(s, step)) ==> s.collector.Ended? && |s.stored.results| == n
  {
    hide IsRun;
    hide After;
    var s := After(Initial(n), steps);
    InitialInv(n);
    StepsLeftAtStart(n);
    RunInv(n, Initial(n), steps);
    RunCounts(n, Initial(n), steps);
    ArrivedAtMost(n, s);
    hide StepsLeft;
    hide OncePerSeed;
    hide Shown;
    if !s.collector.Ended? {
      var step := SomeStepEnabled(n, s);
    } else {
      SentAtMost(s.pollers);
    }
  }

  /** Once the status is final the stored test never changes again. */
  lemma {:induction false} FinalStays(n: nat, s: State, steps: seq<Step>)
    requires Inv(n, s) && IsRun(s, steps) && (s.stored.status == Done || s.stored.status == Timeout)
    ensures After(s, steps).stored == s.stored
    decreases |steps|
  {
    hide Inv;
    hide Enabled;
    hide Next;
    if steps != [] {
      StoredGrowsByOne(n, s, steps[0]);
      NextInv(n, s, steps[0]);
      FinalStays(n, Next(s, steps[0]), steps[1..]);
    }
  }

  // ----- the event stream --------------------------------------------------------------------

  /** What one turn of the stream meets: the stored test, an error of the store,
      or a client that has gone. */
  datatype Turn = Read(test: Stored) | NotFound | StoreError | ClientGone

  datatype Event = Progress(test: Stored) | Finished | Failed(reason: string)

  /** Tests read in turns, without those equal to the one before. */
  function Changes(turns: seq<Turn>): seq<Event>
    requires forall i :: 0 <= i < |turns| ==> turns[i].Read?
  {
    if |turns| == 0 then []
    else
      var n := |turns| - 1;
      Changes(turns[..n])
      + (if n > 0 && turns[n - 1] == turns[n] then [] else [Progress(turns[n].test)])
  }

  lemma {:induction false} ChangesStep(turns: seq<Turn>, n: nat)
    requires n < |turns| && forall i :: 0 <= i <= n ==> turns[i].Read?
    ensures Changes(turns[..n + 1])
         == Changes(turns[..n]) + (if n > 0 && turns[n - 1] == turns[n] then [] else [Progress(turns[n].test)])
  {
    assert turns[..n + 1][..n] == turns[..n];
  }

  lemma {:induction false} NoChanges()
    ensures Changes([]) == []
  {
  }

  /** The stream of progress events. It goes on to the first final status, error
      or disconnect, sends every change up to there and then says how it ended. */
  method StreamEvents(turns: seq<Turn>) returns (events: seq<Event>, used: nat)
    ensures used <= |turns|
    ensures forall i :: 0 <= i < used ==> turns[i].Read? && turns[i].test.status in {AwaitingResults, Running}
    ensures used == |turns| ==> events == Changes(turns)
    ensures used < |turns| && turns[used].Read? ==> turns[used].test.status in {Done, Timeout}
    ensures used < |turns| ==>
      match turns[used]
      case Read(_) => events == Changes(turns[..used + 1]) + [Finished]
      case NotFound => events == Changes(turns[..used]) + if used == 0 then [] else [Failed("test not found")]
      case StoreError => events == Changes(turns[..used]) + if used == 0 then [] else [Failed("db error")]
      case ClientGone => events == Changes(turns[..used])
  {
    hide Changes;
    events, used := [], 0;
    var last: seq<Stored> := [];
    NoChanges();
    assert turns[..0] == [];
    while used < |turns|
      invariant used <= |turns|
      invariant forall i :: 0 <= i < used ==> turns[i].Read? && turns[i].test.status in {AwaitingResults, Running}
      invariant last == if used == 0 then [] else [turns[used - 1].test]
      invariant events == Changes(turns[..used])
    {
      var t := turns[used];
      if !t.Read? {
        if used > 0 && !t.ClientGone? {
          events := events + [Failed(if t.NotFound? then "test not found" else "db error")];
        }
        assert Changes(turns[..used]) + [] == Changes(turns[..used]);
        return;
      }
      ChangesStep(turns, used);
      if last != [t.test] {
        last, events := [t.test], events + [Progress(t.test)];
      } else {
        assert events + [] == events;
      }
      if t.test.status == Done || t.test.status == Timeout {
        events := events + [Finished];
        return;
      }
      used := used + 1;
    }
    assert turns[..used] == turns;
  }

  /** The changes are the tests read, each once per run of equal ones: no event
      repeats the one before it, and the last one is the latest test. */
  lemma {:induction false} ChangesFollow(turns: seq<Turn>)
    requires forall i :: 0 <= i < |turns| ==> turns[i].Read?
    ensures forall i :: 0 < i < |Changes(turns)| ==> Changes(turns)[i] != Changes(turns)[i - 1]
    ensures forall e :: e in Changes(turns) <==> e.Progress? && Read(e.test) in turns
    ensures turns != [] ==>
      Changes(turns) != [] && Changes(turns)[|Changes(turns)| - 1] == Progress(turns[|turns| - 1].test)
  {
    if turns != [] {
      var n := |turns| - 1;
      ChangesFollow(turns[..n]);
      assert turns == turns[..n] + [turns[n]];
      var front, all := Changes(turns[..n]), Changes(turns);
      assert n > 0 ==> turns[..n][n - 1] == turns[n - 1];
    }
  }
}
