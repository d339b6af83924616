/** What the limiter guarantees over every sequence of calls whose clock does not
    go back. */
module RateLimiterTheorems {
  import opened RateLimiter

  datatype Call = Call(key: string, now: int)

  /** A call with its answer. */
  datatype Entry = Entry(key: string, now: int, ok: bool)

  function HitsOf(state: map<string, seq<int>>, key: string): seq<int> {
    if key in state then state[key] else []
  }

  /** The recorded hits of all keys after the calls, as Allow updates them. */
  function StateAfter(window: int, maxHits: int, calls: seq<Call>): map<string, seq<int>> {
    if |calls| == 0 then map[]
    else
      var state := StateAfter(window, maxHits, calls[..|calls| - 1]);
      var c := calls[|calls| - 1];
      state[c.key := HitsAfter(HitsOf(state, c.key), window, maxHits, c.now)]
  }

  /** The calls with the answers Allow gives. */
  function Log(window: int, maxHits: int, calls: seq<Call>): (log: seq<Entry>)
    ensures |log| == |calls|
  {
    if |calls| == 0 then []
    else
      var front := calls[..|calls| - 1];
      var c := calls[|calls| - 1];
      Log(window, maxHits, front)
      + [Entry(c.key, c.now, Passes(HitsOf(StateAfter(window, maxHits, front), c.key), window, maxHits, c.now))]
  }

  /** Instants of the accepted calls of a key. */
  function Accepted(log: seq<Entry>, key: string): seq<int> {
    if |log| == 0 then []
    else
      var e := log[|log| - 1];
      Accepted(log[..|log| - 1], key) + (if e.key == key && e.ok then [e.now] else [])
  }

  predicate ClockRuns(calls: seq<Call>) {
    forall i, j :: 0 <= i < j < |calls| ==> calls[i].now <= calls[j].now
  }

  predicate Sorted(s: seq<int>) {
    forall i, j :: 0 <= i < j < |s| ==> s[i] <= s[j]
  }

  predicate AtMost(s: seq<int>, t: int) {
    forall i :: 0 <= i < |s| ==> s[i] <= t
  }

  // ----- laws of Fresh -------------------------------------------------------------

  lemma {:induction false} FreshAppend(a: seq<int>, b: seq<int>, cutoff: int)
    ensures Fresh(a + b, cutoff) == Fresh(a, cutoff) + Fresh(b, cutoff)
  {
    if b == [] {
      assert a + b == a;
    } else {
      var n := |b| - 1;
      assert (a + b)[..|a + b| - 1] == a + b[..n];
      FreshAppend(a, b[..n], cutoff);
    }
  }

  lemma {:induction false} FreshTwice(s: seq<int>, first: int, second: int)
    requires first <= second
    ensures Fresh(Fresh(s, first), second) == Fresh(s, second)
  {
    if s != [] {
      var n := |s| - 1;
      var t := Fresh(s[..n], first);
      FreshTwice(s[..n], first, second);
      if s[n] > first {
        assert (t + [s[n]])[..|t + [s[n]]| - 1] == t;
      }
    }
  }

  lemma {:induction false} FreshShrinks(s: seq<int>, first: int, second: int)
    requires first <= second
    ensures |Fresh(s, second)| <= |Fresh(s, first)|
  {
    FreshTwice(s, first, second);
    FreshLength(Fresh(s, first), second);
  }

  lemma {:induction false} FreshKeepsAll(s: seq<int>, cutoff: int)
    requires forall i :: 0 <= i < |s| ==> s[i] > cutoff
    ensures Fresh(s, cutoff) == s
  {
    if s != [] {
      var n := |s| - 1;
      FreshKeepsAll(s[..n], cutoff);
      assert s == s[..n] + [s[n]];
    }
  }

  lemma {:induction false} FreshKeepsNone(s: seq<int>, cutoff: int)
    requires AtMost(s, cutoff)
    ensures Fresh(s, cutoff) == []
  {
    if s != [] {
      FreshKeepsNone(s[..|s| - 1], cutoff);
    }
  }

  lemma {:induction false} FreshSorted(s: seq<int>, cutoff: int, t: int)
    requires Sorted(s) && AtMost(s, t)
    ensures Sorted(Fresh(s, cutoff)) && AtMost(Fresh(s, cutoff), t)
    ensures forall i :: 0 <= i < |Fresh(s, cutoff)| ==> Fresh(s, cutoff)[i] > cutoff
  {
    if s != [] {
      var n := |s| - 1;
      FreshSorted(s[..n], cutoff, s[n]);
    }
  }

  // ----- what the state remembers ----------------------------------------------------

  /** As far as any later call can tell, the state holds all accepted calls. */
  lemma {:induction false} StateRemembers(window: int, maxHits: int, calls: seq<Call>, key: string, cutoff: int)
    requires ClockRuns(calls)
    requires calls != [] ==> cutoff >= calls[|calls| - 1].now - window
    ensures Fresh(HitsOf(StateAfter(window, maxHits, calls), key), cutoff)
         == Fresh(Accepted(Log(window, maxHits, calls), key), cutoff)
    decreases |calls|
  {
    hide Fresh;
    if calls != [] {
      var n := |calls| - 1;
      var front, c := calls[..n], calls[n];
      var state, log := StateAfter(window, maxHits, front), Log(window, maxHits, front);
      assert n > 0 ==> front[n - 1].now <= c.now;
      StateRemembers(window, maxHits, front, key, cutoff);
      var whole := Log(window, maxHits, calls);
      assert whole[..n] == log;
      if c.key == key {
        var hits := HitsOf(state, key);
        var last: seq<int> := if Passes(hits, window, maxHits, c.now) then [c.now] else [];
        FreshAppend(Fresh(hits, c.now - window), last, cutoff);
        FreshTwice(hits, c.now - window, cutoff);
        FreshAppend(Accepted(log, key), last, cutoff);
      } else {
        assert Accepted(log, key) + [] == Accepted(log, key);
      }
    }
  }

  lemma {:induction false} LogStep(window: int, maxHits: int, calls: seq<Call>, c: Call)
    ensures Log(window, maxHits, calls + [c])
         == Log(window, maxHits, calls)
          + [Entry(c.key, c.now, Passes(HitsOf(StateAfter(window, maxHits, calls), c.key), window, maxHits, c.now))]
  {
    hide Passes;
    hide StateAfter;
    var all := calls + [c];
    assert all[..|all| - 1] == calls && all[|all| - 1] == c;
  }

  /** A call passes exactly when fewer than maxHits accepted calls of its key lie
      inside the window before it. */
  lemma {:induction false} DecidedByWindow(window: int, maxHits: int, calls: seq<Call>, c: Call)
    requires ClockRuns(calls + [c])
    ensures var log := Log(window, maxHits, calls);
      Log(window, maxHits, calls + [c])
      == log + [Entry(c.key, c.now, |Fresh(Accepted(log, c.key), c.now - window)| < maxHits)]
  {
    hide Fresh;
    hide StateAfter;
    hide Log;
    hide Accepted;
    var all := calls + [c];
    assert forall i :: 0 <= i < |calls| ==> all[i] == calls[i];
    assert calls != [] ==> all[|calls| - 1].now <= all[|calls|].now;
    LogStep(window, maxHits, calls, c);
    StateRemembers(window, maxHits, calls, c.key, c.now - window);
  }

  /** The instants of s after lo, up to hi. */
  function Within(s: seq<int>, lo: int, hi: int): seq<int> {
    if |s| == 0 then []
    else
      var x := s[|s| - 1];
      Within(s[..|s| - 1], lo, hi) + (if lo < x <= hi then [x] else [])
  }

  lemma {:induction false} WithinIsFresh(s: seq<int>, lo: int, hi: int)
    requires AtMost(s, hi)
    ensures Within(s, lo, hi) == Fresh(s, lo)
  {
    if s != [] {
      WithinIsFresh(s[..|s| - 1], lo, hi);
    }
  }

  lemma {:induction false} AcceptedInThePast(window: int, maxHits: int, calls: seq<Call>, key: string, t: int)
    requires forall i :: 0 <= i < |calls| ==> calls[i].now <= t
    ensures AtMost(Accepted(Log(window, maxHits, calls), key), t)
  {
    if calls != [] {
      var n := |calls| - 1;
      assert Log(window, maxHits, calls)[..n] == Log(window, maxHits, calls[..n]);
      AcceptedInThePast(window, maxHits, calls[..n], key, t);
    }
  }

  /** In any window, wherever it lies, at most maxHits calls of a key pass. */
  lemma {:induction false} WindowIsBounded(window: int, maxHits: int, calls: seq<Call>, key: string, t: int)
    requires ClockRuns(calls)
    ensures |Within(Accepted(Log(window, maxHits, calls), key), t - window, t)| <= if maxHits > 0 then maxHits else 0
    decreases |calls|
  {
    hide Fresh;
    hide StateAfter;
    if calls != [] {
      var n := |calls| - 1;
      var front, c := calls[..n], calls[n];
      assert front + [c] == calls;
      WindowIsBounded(window, maxHits, front, key, t);
      DecidedByWindow(window, maxHits, front, c);
      var log := Log(window, maxHits, front);
      var acc := Accepted(log, key);
      var whole := Log(window, maxHits, calls);
      assert whole[..n] == log;
      if c.key == key && whole[n].ok {
        assert (acc + [c.now])[..|acc|] == acc;
        if c.now <= t {
          forall i | 0 <= i < |front|
            ensures front[i].now <= c.now
          {
            assert calls[i].now <= calls[n].now;
          }
          AcceptedInThePast(window, maxHits, front, key, c.now);
          WithinIsFresh(acc, t - window, t);
          FreshShrinks(acc, c.now - window, t - window);
        }
      } else {
        assert acc + [] == acc;
      }
    }
  }

  // ----- keys do not interfere -----------------------------------------------------------

  function CallsOf(calls: seq<Call>, key: string): seq<Call> {
    if |calls| == 0 then []
    else CallsOf(calls[..|calls| - 1], key) + (if calls[|calls| - 1].key == key then [calls[|calls| - 1]] else [])
  }

  function EntriesOf(log: seq<Entry>, key: string): seq<Entry> {
    if |log| == 0 then []
    else EntriesOf(log[..|log| - 1], key) + (if log[|log| - 1].key == key then [log[|log| - 1]] else [])
  }

  /** The answers for a key are those it would get without the other keys. */
  lemma {:induction false} KeysAreIndependent(window: int, maxHits: int, calls: seq<Call>, key: string)
    ensures EntriesOf(Log(window, maxHits, calls), key) == Log(window, maxHits, CallsOf(calls, key))
    ensures HitsOf(StateAfter(window, maxHits, calls), key)
         == HitsOf(StateAfter(window, maxHits, CallsOf(calls, key)), key)
    decreases |calls|
  {
    if calls != [] {
      var n := |calls| - 1;
      var c := calls[n];
      KeysAreIndependent(window, maxHits, calls[..n], key);
      assert Log(window, maxHits, calls)[..n] == Log(window, maxHits, calls[..n]);
      var own := CallsOf(calls[..n], key);
      if c.key == key {
        assert (own + [c])[..|own|] == own;
      } else {
        assert own + [] == own;
        var front := EntriesOf(Log(window, maxHits, calls[..n]), key);
        assert front + [] == front;
      }
    }
  }

  // ----- the predicted wait ------------------------------------------------------------------

  lemma {:induction false} SortedAfter(hits: seq<int>, window: int, maxHits: int, now: int, t: int)
    requires Sorted(hits) && AtMost(hits, now) && now <= t
    ensures Sorted(HitsAfter(hits, window, maxHits, now)) && AtMost(HitsAfter(hits, window, maxHits, now), t)
  {
    hide Fresh;
    FreshSorted(hits, now - window, now);
  }

  /** In a run the recorded hits are sorted and lie in the past. */
  lemma {:induction false} HitsAreSorted(window: int, maxHits: int, calls: seq<Call>, key: string, t: int)
    requires ClockRuns(calls) && forall i :: 0 <= i < |calls| ==> calls[i].now <= t
    ensures var hits := HitsOf(StateAfter(window, maxHits, calls), key); Sorted(hits) && AtMost(hits, t)
    decreases |calls|
  {
    hide HitsAfter;
    if calls != [] {
      var n := |calls| - 1;
      var c := calls[n];
      if c.key == key {
        forall i | 0 <= i < n
          ensures calls[..n][i].now <= c.now
        {
          assert calls[i].now <= calls[n].now;
        }
        HitsAreSorted(window, maxHits, calls[..n], key, c.now);
        SortedAfter(HitsOf(StateAfter(window, maxHits, calls[..n]), key), window, maxHits, c.now, t);
      } else {
        HitsAreSorted(window, maxHits, calls[..n], key, t);
      }
    }
  }

  /** For sorted hits in the past: zero exactly when a call passes now, otherwise
      no call passes before the wait is over, and one passes when it is. */
  lemma {:induction false} WaitIsExact(hits: seq<int>, window: int, maxHits: int, now: int)
    requires maxHits >= 1 && Sorted(hits) && AtMost(hits, now)
    ensures var d := Wait(hits, window, maxHits, now);
      && d >= 0
      && (d == 0 <==> Passes(hits, window, maxHits, now))
      && (forall t :: now <= t < now + d ==> !Passes(hits, window, maxHits, t))
      && Passes(hits, window, maxHits, now + d)
  {
    hide Fresh;
    var kept := Fresh(hits, now - window);
    FreshSorted(hits, now - window, now);
    if |kept| >= maxHits {
      var x := kept[|kept| - maxHits];
      var d := x + window - now;
      forall t | now <= t < now + d
        ensures !Passes(hits, window, maxHits, t)
      {
        FreshTwice(hits, now - window, t - window);
        StillFull(kept, maxHits, t - window);
      }
      FreshTwice(hits, now - window, x);
      RoomAgain(kept, maxHits);
      assert now + d - window == x;
    }
  }

  lemma {:induction false} StillFull(kept: seq<int>, maxHits: nat, cutoff: int)
    requires 1 <= maxHits <= |kept| && Sorted(kept) && cutoff < kept[|kept| - maxHits]
    ensures |Fresh(kept, cutoff)| >= maxHits
  {
    hide Fresh;
    var k := |kept| - maxHits;
    var late := kept[k..];
    assert kept == kept[..k] + late;
    FreshAppend(kept[..k], late, cutoff);
    forall i | 0 <= i < |late|
      ensures late[i] > cutoff
    {
      assert late[i] == kept[k + i];
    }
    FreshKeepsAll(late, cutoff);
  }

  lemma {:induction false} RoomAgain(kept: seq<int>, maxHits: nat)
    requires 1 <= maxHits <= |kept| && Sorted(kept)
    ensures |Fresh(kept, kept[|kept| - maxHits])| < maxHits
  {
    hide Fresh;
    var k := |kept| - maxHits;
    var x := kept[k];
    assert kept == kept[..k + 1] + kept[k + 1..];
    FreshAppend(kept[..k + 1], kept[k + 1..], x);
    FreshKeepsNone(kept[..k + 1], x);
    FreshLength(kept[k + 1..], x);
  }

  /** After any calls, the wait predicted for a key is exact. */
  lemma {:induction false} RetryAfterIsExact(window: int, maxHits: int, calls: seq<Call>, key: string, now: int)
    requires maxHits >= 1 && ClockRuns(calls) && forall i :: 0 <= i < |calls| ==> calls[i].now <= now
    ensures var hits := HitsOf(StateAfter(window, maxHits, calls), key); var d := Wait(hits, window, maxHits, now);
      && d >= 0
      && (d == 0 <==> Passes(hits, window, maxHits, now))
      && (forall t :: now <= t < now + d ==> !Passes(hits, window, maxHits, t))
      && Passes(hits, window, maxHits, now + d)
  {
    hide Fresh;
    hide StateAfter;
    hide Wait;
    hide Passes;
    HitsAreSorted(window, maxHits, calls, key, now);
    WaitIsExact(HitsOf(StateAfter(window, maxHits, calls), key), window, maxHits, now);
  }

  // ----- the limiter itself ------------------------------------------------------------------

  lemma {:induction false} OneMoreCall(window: int, maxHits: int, calls: seq<Call>, i: nat)
    requires i < |calls|
    ensures var state, c := StateAfter(window, maxHits, calls[..i]), calls[i];
      && StateAfter(window, maxHits, calls[..i + 1])
         == state[c.key := HitsAfter(HitsOf(state, c.key), window, maxHits, c.now)]
      && Log(window, maxHits, calls[..i + 1])
         == Log(window, maxHits, calls[..i])
            + [Entry(c.key, c.now, Passes(HitsOf(state, c.key), window, maxHits, c.now))]
  {
    hide HitsAfter;
    hide Passes;
    assert calls[..i + 1][..i] == calls[..i];
  }

  /** A limiter that serves the calls one after the other, in its shared arrays,
      answers them as in the log and then predicts the wait for a key. */
  method ServeCalls(window: int, maxHits: int, calls: seq<Call>, key: string, now: int)
    returns (log: seq<Entry>, d: int)
    ensures log == Log(window, maxHits, calls)
    ensures d == Wait(HitsOf(StateAfter(window, maxHits, calls), key), window, maxHits, now)
  {
    hide StateAfter;
    hide Log;
    hide HitsAfter;
    hide Passes;
    hide Wait;
    var limiter := new Limiter(window, maxHits);
    log := [];
    NoCalls(window, maxHits);
    assert calls[..0] == [];
    for i := 0 to |calls|
      invariant limiter.Valid() && fresh(limiter) && fresh(limiter.Buffers())
      invariant limiter.window == window && limiter.maxHits == maxHits
      invariant forall k :: limiter.Hits(k) == HitsOf(StateAfter(window, maxHits, calls[..i]), k)
      invariant log == Log(window, maxHits, calls[..i])
    {
      OneMoreCall(window, maxHits, calls, i);
      var ok := limiter.Allow(calls[i].key, calls[i].now);
      log := log + [Entry(calls[i].key, calls[i].now, ok)];
    }
    assert calls[..|calls|] == calls;
    d := limiter.RetryAfter(key, now);
  }

  lemma {:induction false} NoCalls(window: int, maxHits: int)
    ensures StateAfter(window, maxHits, []) == map[] && Log(window, maxHits, []) == []
  {
  }
}
