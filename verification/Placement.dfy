/** An inbox placement test: one poller per seed account feeds one collector,
    which stores the results and the status of the test. */
module Placement {

  /** Result for one seed, named by its position in the list of seeds. */
  datatype Result = Result(seed: nat, status: string, folder: string)

  /** What a poller comes back with: the folder of the message, or the deadline. */
  datatype Finding = Found(folder: string) | Expired

  function FolderStatus(folder: string): string {
    if folder == "INBOX" then "inbox" else "spam"
  }

  function ResultOf(seed: nat, f: Finding): Result {
    match f
    case Found(folder) => Result(seed, FolderStatus(folder), folder)
    case Expired => Result(seed, "timeout", "")
  }

  /** A poller looks for the message, has a result, has sent it, has left. */
  datatype Poller = Looking | Holding(finding: Finding) | Sent(finding: Finding) | Gone(finding: Finding)

  datatype Status = AwaitingResults | Running | Done | Timeout

  datatype Stored = Stored(results: seq<Result>, status: Status)

  /** The collector waits on the channel, has a result to store, or has ended. */
  datatype Collector = Receiving | Writing | Ended

  datatype State = State(
    pollers: seq<Poller>, channel: seq<Result>, closed: bool,
    collector: Collector, collected: seq<Result>, stored: Stored)

  datatype Step = Find(i: nat, finding: Finding) | Send(i: nat) | Leave(i: nat) | Close | Receive | Write | End

  function Initial(n: nat): State {
    State(seq(n, _ => Looking), [], false, Receiving, [], Stored([], AwaitingResults))
  }

  /** The collector's status for the results it has. */
  function StatusFor(collected: seq<Result>, n: nat): Status {
    if |collected| != n then Running
    else if exists i :: 0 <= i < |collected| && collected[i].status == "timeout" then Timeout
    else Done
  }

  /** The loop that decides between done and timeout. */
  method FinalStatus(collected: seq<Result>, n: nat) returns (status: Status)
    ensures status == StatusFor(collected, n)
  {
    status := Running;
    if |collected| == n {
      status := Done;
      for i := 0 to |collected|
        invariant status == Done
        invariant forall k :: 0 <= k < i ==> collected[k].status != "timeout"
      {
        if collected[i].status == "timeout" {
          return Timeout;
        }
      }
    }
  }

  predicate Enabled(s: State, step: Step) {
    match step
    case Find(i, f) => i < |s.pollers| && s.pollers[i].Looking? && (f.Found? ==> f.folder != "")
    case Send(i) => i < |s.pollers| && s.pollers[i].Holding? && |s.channel| < |s.pollers|
    case Leave(i) => i < |s.pollers| && s.pollers[i].Sent?
    case Close => !s.closed && forall i :: 0 <= i < |s.pollers| ==> s.pollers[i].Gone?
    case Receive => s.collector.Receiving? && |s.channel| > 0
    case Write => s.collector.Writing?
    case End => s.collector.Receiving? && s.closed && |s.channel| == 0
  }

  function Next(s: State, step: Step): State
    requires Enabled(s, step)
  {
    match step
    case Find(i, f) => s.(pollers := s.pollers[i := Holding(f)])
    case Send(i) =>
      s.(pollers := s.pollers[i := Sent(s.pollers[i].finding)],
         channel := s.channel + [ResultOf(i, s.pollers[i].finding)])
    case Leave(i) => s.(pollers := s.pollers[i := Gone(s.pollers[i].finding)])
    case Close => s.(closed := true)
    case Receive => s.(collected := s.collected + [s.channel[0]], channel := s.channel[1..], collector := Writing)
    case Write => s.(stored := Stored(s.collected, StatusFor(s.collected, |s.pollers|)), collector := Receiving)
    case End => s.(collector := Ended)
  }

  predicate IsRun(s: State, steps: seq<Step>)
    decreases |steps|
  {
    |steps| == 0 || (Enabled(s, steps[0]) && IsRun(Next(s, steps[0]), steps[1..]))
  }

  function After(s: State, steps: seq<Step>): State
    requires IsRun(s, steps)
    decreases |steps|
  {
    if |steps| == 0 then s else After(Next(s, steps[0]), steps[1..])
  }

  // ----- the invariant ----------------------------------------------------------------

  predicate HasSent(p: Poller) {
    p.Sent? || p.Gone?
  }

  /** Everything sent so far, in the order of arrival. */
  function Arrived(s: State): seq<Result> {
    s.collected + s.channel
  }

  /** One result of each poller that has sent, and it is that poller's. */
  predicate OncePerSeed(pollers: seq<Poller>, arrived: seq<Result>) {
    && (forall k :: 0 <= k < |arrived| ==>
          arrived[k].seed < |pollers| && HasSent(pollers[arrived[k].seed])
          && arrived[k] == ResultOf(arrived[k].seed, pollers[arrived[k].seed].finding))
    && (forall j, k :: 0 <= j < k < |arrived| ==> arrived[j].seed != arrived[k].seed)
  }

  function SentCount(pollers: seq<Poller>): nat {
    if |pollers| == 0 then 0 else (if HasSent(pollers[0]) then 1 else 0) + SentCount(pollers[1..])
  }

  /** Status shown for stored results. */
  function Shown(results: seq<Result>, n: nat): Status {
    if results == [] then AwaitingResults else StatusFor(results, n)
  }

  ghost predicate Inv(n: nat, s: State) {
    && |s.pollers| == n
    && OncePerSeed(s.pollers, Arrived(s))
    && |Arrived(s)| == SentCount(s.pollers)
    && (s.closed ==> forall i :: 0 <= i < n ==> s.pollers[i].Gone?)
    && (s.collector.Writing? ==> s.collected != [] && s.stored.results == s.collected[..|s.collected| - 1])
    && (!s.collector.Writing? ==> s.stored.results == s.collected)
    && s.stored.status == Shown(s.stored.results, n)
    && (s.collector.Ended? ==> s.closed && s.channel == [])
  }

  lemma {:induction false} SentUpdate(pollers: seq<Poller>, i: nat, p: Poller)
    requires i < |pollers|
    ensures SentCount(pollers[i := p])
         == SentCount(pollers) - (if HasSent(pollers[i]) then 1 else 0) + (if HasSent(p) then 1 else 0)
  {
    if i > 0 {
      SentUpdate(pollers[1..], i - 1, p);
      assert pollers[i := p][1..] == pollers[1..][i - 1 := p];
    } else {
      assert pollers[i := p][1..] == pollers[1..];
    }
  }

  lemma {:induction false} SentAtMost(pollers: seq<Poller>)
    ensures SentCount(pollers) <= |pollers|
    ensures SentCount(pollers) == |pollers| <==> forall i :: 0 <= i < |pollers| ==> HasSent(pollers[i])
  {
    if pollers != [] {
      SentAtMost(pollers[1..]);
      assert forall i :: 0 < i < |pollers| ==> pollers[i] == pollers[1..][i - 1];
      assert forall i :: 0 <= i < |pollers[1..]| ==> pollers[1..][i] == pollers[i + 1];
    }
  }

  lemma {:induction false} NoneSent(n: nat)
    ensures SentCount(seq(n, _ => Looking)) == 0
  {
    if n > 0 {
      assert seq(n, _ => Looking)[1..] == seq(n - 1, _ => Looking);
      NoneSent(n - 1);
    }
  }

  lemma {:induction false} InitialInv(n: nat)
    ensures Inv(n, Initial(n))
  {
    NoneSent(n);
  }

  /** A poller that has not sent before adds its result. */
  lemma {:induction false} SendOnce(pollers: seq<Poller>, arrived: seq<Result>, i: nat)
    requires i < |pollers| && pollers[i].Holding? && OncePerSeed(pollers, arrived)
    ensures OncePerSeed(pollers[i := Sent(pollers[i].finding)], arrived + [ResultOf(i, pollers[i].finding)])
  {
    var r := ResultOf(i, pollers[i].finding);
    assert r.seed == i;
    assert forall k :: 0 <= k < |arrived| ==> arrived[k].seed != i;
  }

  /** A poller that changes otherwise leaves what has arrived alone. */
  lemma {:induction false} OthersStay(pollers: seq<Poller>, arrived: seq<Result>, i: nat, p: Poller)
    requires i < |pollers| && OncePerSeed(pollers, arrived)
    requires !HasSent(pollers[i]) || (HasSent(p) && p.finding == pollers[i].finding)
    ensures OncePerSeed(pollers[i := p], arrived)
  {
  }

  lemma {:induction false} NextInv(n: nat, s: State, step: Step)
    requires Inv(n, s) && Enabled(s, step)
    ensures Inv(n, Next(s, step))
  {
    hide OncePerSeed;
    hide SentCount;
    hide Shown;
    match step
    case Find(i, f) =>
      OthersStay(s.pollers, Arrived(s), i, Holding(f));
      SentUpdate(s.pollers, i, Holding(f));
    case Send(i) =>
      var f := s.pollers[i].finding;
      SendOnce(s.pollers, Arrived(s), i);
      SentUpdate(s.pollers, i, Sent(f));
      assert s.collected + (s.channel + [ResultOf(i, f)]) == Arrived(s) + [ResultOf(i, f)];
    case Leave(i) =>
      OthersStay(s.pollers, Arrived(s), i, Gone(s.pollers[i].finding));
      SentUpdate(s.pollers, i, Gone(s.pollers[i].finding));
    case Close =>
    case Receive =>
      assert s.collected + [s.channel[0]] + s.channel[1..] == Arrived(s);
    case Write => ShownWhenWritten(s.collected, n);
    case End =>
  }

  lemma {:induction false} ShownWhenWritten(collected: seq<Result>, n: nat)
    requires collected != []
    ensures Shown(collected, n) == StatusFor(collected, n)
  {
  }

  lemma {:induction false} RunInv(n: nat, s: State, steps: seq<Step>)
    requires Inv(n, s) && IsRun(s, steps)
    ensures Inv(n, After(s, steps))
    decreases |steps|
  {
    hide Inv;
    hide Enabled;
    hide Next;
    if steps != [] {
      NextInv(n, s, steps[0]);
      RunInv(n, Next(s, steps[0]), steps[1..]);
    }
  }
}
