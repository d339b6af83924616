/** The bounded runner of network checks: one goroutine per task, a semaphore of
    limited capacity, a wait group, recovery from panics, results in task order. */
module TaskRunner {

  datatype Check = Check(id: string, status: string, delta: real, detail: string)

  /** What a task does when it is run. */
  datatype Outcome = Returns(checks: seq<Check>) | Panics(message: string)
  datatype Task = Task(name: string, outcome: Outcome)

  function ErrorCheck(name: string, message: string): Check {
    Check(name, "info", 0.0, message)
  }

  /** What ends up in the slot of a task. */
  function Stores(t: Task): seq<Check> {
    match t.outcome
    case Returns(checks) => checks
    case Panics(message) => [ErrorCheck(t.name, message)]
  }

  function Capacity(limit: int): (c: nat)
    ensures c > 0
  {
    if limit <= 0 then 8 else limit
  }

  /** A goroutine runs its task, stores the slot, gives the semaphore back and
      leaves the wait group, in this order. */
  datatype Phase = Unstarted | Running | Stored | Released | Finished

  /** The caller adds to the wait group, takes the semaphore and starts the
      goroutine, task by task; then it waits and returns. */
  datatype Caller = Adding(i: nat) | Taking(i: nat) | Starting(i: nat) | Waiting | Returned(out: seq<Check>)

  datatype State = State(caller: Caller, held: nat, group: int, phases: seq<Phase>, slots: seq<seq<Check>>)

  datatype Step = Add | Take | Start | Store(i: nat) | Release(i: nat) | Leave(i: nat) | Return

  function Initial(tasks: seq<Task>): State {
    State(if tasks == [] then Waiting else Adding(0), 0, 0,
          seq(|tasks|, _ => Unstarted), seq(|tasks|, _ => []))
  }

  predicate At(s: State, i: nat, p: Phase) {
    i < |s.phases| && s.phases[i] == p
  }

  predicate Enabled(tasks: seq<Task>, limit: int, s: State, step: Step) {
    match step
    case Add => s.caller.Adding?
    case Take => s.caller.Taking? && s.held < Capacity(limit)
    case Start => s.caller.Starting? && s.caller.i < |s.phases|
    case Store(i) => At(s, i, Running) && i < |tasks| && i < |s.slots|
    case Release(i) => At(s, i, Stored) && s.held > 0
    case Leave(i) => At(s, i, Released)
    case Return => s.caller.Waiting? && s.group == 0
  }

  function Concat(slots: seq<seq<Check>>): seq<Check> {
    if |slots| == 0 then [] else slots[0] + Concat(slots[1..])
  }

  function Next(tasks: seq<Task>, limit: int, s: State, step: Step): State
    requires Enabled(tasks, limit, s, step)
  {
    match step
    case Add => s.(caller := Taking(s.caller.i), group := s.group + 1)
    case Take => s.(caller := Starting(s.caller.i), held := s.held + 1)
    case Start =>
      s.(caller := if s.caller.i + 1 < |tasks| then Adding(s.caller.i + 1) else Waiting,
         phases := s.phases[s.caller.i := Running])
    case Store(i) => s.(phases := s.phases[i := Stored], slots := s.slots[i := Stores(tasks[i])])
    case Release(i) => s.(phases := s.phases[i := Released], held := s.held - 1)
    case Leave(i) => s.(phases := s.phases[i := Finished], group := s.group - 1)
    case Return => s.(caller := Returned(Concat(s.slots)))
  }

  /** A run: steps that are each enabled when they are taken. */
  predicate IsRun(tasks: seq<Task>, limit: int, s: State, steps: seq<Step>)
    decreases |steps|
  {
    || |steps| == 0
    || (Enabled(tasks, limit, s, steps[0]) && IsRun(tasks, limit, Next(tasks, limit, s, steps[0]), steps[1..]))
  }

  function After(tasks: seq<Task>, limit: int, s: State, steps: seq<Step>): State
    requires IsRun(tasks, limit, s, steps)
    decreases |steps|
  {
    if |steps| == 0 then s else After(tasks, limit, Next(tasks, limit, s, steps[0]), steps[1..])
  }

  // ----- counting ----------------------------------------------------------------

  function Total(phases: seq<Phase>, weight: Phase -> nat): nat {
    if |phases| == 0 then 0 else weight(phases[0]) + Total(phases[1..], weight)
  }

  lemma {:induction false} TotalUpdate(phases: seq<Phase>, weight: Phase -> nat, i: nat, p: Phase)
    requires i < |phases|
    ensures Total(phases[i := p], weight) == Total(phases, weight) - weight(phases[i]) + weight(p)
  {
    if i > 0 {
      TotalUpdate(phases[1..], weight, i - 1, p);
      assert phases[i := p][1..] == phases[1..][i - 1 := p];
    } else {
      assert phases[i := p][1..] == phases[1..];
    }
  }

  lemma {:induction false} TotalZero(phases: seq<Phase>, weight: Phase -> nat)
    requires Total(phases, weight) == 0
    ensures forall i :: 0 <= i < |phases| ==> weight(phases[i]) == 0
  {
    if phases != [] {
      TotalZero(phases[1..], weight);
    }
  }

  lemma {:induction false} TotalPositive(phases: seq<Phase>, weight: Phase -> nat) returns (i: nat)
    requires Total(phases, weight) > 0
    ensures i < |phases| && weight(phases[i]) > 0
  {
    if weight(phases[0]) > 0 {
      i := 0;
    } else {
      i := TotalPositive(phases[1..], weight);
      i := i + 1;
    }
  }

  lemma {:induction false} TotalBelow(phases: seq<Phase>, small: Phase -> nat, big: Phase -> nat)
    requires forall p :: small(p) <= big(p)
    ensures Total(phases, small) <= Total(phases, big)
  {
    if phases != [] {
      TotalBelow(phases[1..], small, big);
    }
  }

  lemma {:induction false} TotalStart(n: nat, weight: Phase -> nat)
    ensures Total(seq(n, _ => Unstarted), weight) == n * weight(Unstarted)
  {
    if n > 0 {
      var s, t := seq(n, _ => Unstarted), seq(n - 1, _ => Unstarted);
      assert s[1..] == t;
      TotalStart(n - 1, weight);
    }
  }

  function Runs(p: Phase): nat { if p == Running then 1 else 0 }

  function Holds(p: Phase): nat { if p == Running || p == Stored then 1 else 0 }

  function Counts(p: Phase): nat { if p == Running || p == Stored || p == Released then 1 else 0 }

  /** Steps a goroutine still has to take, three more before it is started. */
  function StepsLeft(p: Phase): nat {
    match p case Unstarted => 6 case Running => 3 case Stored => 2 case Released => 1 case Finished => 0
  }

  // ----- the invariant ------------------------------------------------------------

  /** How many tasks have been started. */
  function Started(tasks: seq<Task>, c: Caller): nat {
    if c.Adding? || c.Taking? || c.Starting? then c.i else |tasks|
  }

  predicate SlotsRight(tasks: seq<Task>, phases: seq<Phase>, slots: seq<seq<Check>>) {
    && |phases| == |slots| == |tasks|
    && forall i :: 0 <= i < |tasks| ==>
         slots[i] == if phases[i] == Unstarted || phases[i] == Running then [] else Stores(tasks[i])
  }

  predicate StartedInOrder(phases: seq<Phase>, k: nat) {
    forall i :: 0 <= i < |phases| ==> (phases[i] == Unstarted <==> i >= k)
  }

  ghost predicate Inv(tasks: seq<Task>, limit: int, s: State) {
    && SlotsRight(tasks, s.phases, s.slots)
    && StartedInOrder(s.phases, Started(tasks, s.caller))
    && (s.caller.Adding? || s.caller.Taking? || s.caller.Starting? ==> s.caller.i < |tasks|)
    && s.held == Total(s.phases, Holds) + (if s.caller.Starting? then 1 else 0)
    && s.held <= Capacity(limit)
    && s.group == Total(s.phases, Counts) + (if s.caller.Starting? || s.caller.Taking? then 1 else 0)
    && (s.caller.Returned? ==> s.group == 0 && s.caller.out == Concat(s.slots))
  }

  lemma {:induction false} InitialInv(tasks: seq<Task>, limit: int)
    ensures Inv(tasks, limit, Initial(tasks))
  {
    TotalStart(|tasks|, Holds);
    TotalStart(|tasks|, Counts);
  }

  lemma {:induction false} CallerInv(tasks: seq<Task>, limit: int, s: State, step: Step)
    requires Inv(tasks, limit, s) && Enabled(tasks, limit, s, step)
    requires step.Add? || step.Take? || step.Start? || step.Return?
    ensures Inv(tasks, limit, Next(tasks, limit, s, step))
  {
    hide Total;
    hide Concat;
    hide Stores;
    hide Capacity;
    if step.Start? {
      TotalUpdate(s.phases, Holds, s.caller.i, Running);
      TotalUpdate(s.phases, Counts, s.caller.i, Running);
    }
  }

  lemma {:induction false} GoroutineInv(tasks: seq<Task>, limit: int, s: State, step: Step)
    requires Inv(tasks, limit, s) && Enabled(tasks, limit, s, step)
    requires step.Store? || step.Release? || step.Leave?
    ensures Inv(tasks, limit, Next(tasks, limit, s, step))
  {
    hide Total;
    hide Concat;
    hide Stores;
    hide Capacity;
    var p := if step.Store? then Stored else if step.Release? then Released else Finished;
    TotalUpdate(s.phases, Holds, step.i, p);
    TotalUpdate(s.phases, Counts, step.i, p);
    SlotsFixed(s);
  }

  lemma {:induction false} NextInv(tasks: seq<Task>, limit: int, s: State, step: Step)
    requires Inv(tasks, limit, s) && Enabled(tasks, limit, s, step)
    ensures Inv(tasks, limit, Next(tasks, limit, s, step))
  {
    hide Inv;
    hide Enabled;
    hide Next;
    if step.Store? || step.Release? || step.Leave? {
      GoroutineInv(tasks, limit, s, step);
    } else {
      CallerInv(tasks, limit, s, step);
    }
  }

  /** Once the caller has returned no task is running. */
  lemma {:induction false} SlotsFixed(s: State)
    ensures s.caller.Returned? && s.group == 0 && s.group == Total(s.phases, Counts)
        ==> forall i :: 0 <= i < |s.phases| ==> s.phases[i] != Running
  {
    if Total(s.phases, Counts) == 0 {
      TotalZero(s.phases, Counts);
    }
  }

  lemma {:induction false} RunInv(tasks: seq<Task>, limit: int, s: State, steps: seq<Step>)
    requires Inv(tasks, limit, s) && IsRun(tasks, limit, s, steps)
    ensures Inv(tasks, limit, After(tasks, limit, s, steps))
    decreases |steps|
  {
    hide Inv;
    hide Next;
    hide Enabled;
    if steps != [] {
      NextInv(tasks, limit, s, steps[0]);
      RunInv(tasks, limit, Next(tasks, limit, s, steps[0]), steps[1..]);
    }
  }

  // ----- theorems over every interleaving --------------------------------------------

  /** The results of all tasks, in task order. */
  function InTaskOrder(tasks: seq<Task>): seq<Check> {
    if |tasks| == 0 then [] else Stores(tasks[0]) + InTaskOrder(tasks[1..])
  }

  lemma {:induction false} SlotsInOrder(tasks: seq<Task>, slots: seq<seq<Check>>)
    requires |slots| == |tasks| && forall i :: 0 <= i < |tasks| ==> slots[i] == Stores(tasks[i])
    ensures Concat(slots) == InTaskOrder(tasks)
  {
    hide Stores;
    if tasks != [] {
      SlotsInOrder(tasks[1..], slots[1..]);
    }
  }

  /** The tasks that run at a moment. */
  function RunningAt(phases: seq<Phase>): set<int> {
    set i | 0 <= i < |phases| && phases[i] == Running
  }

  lemma {:induction false} CountRunning(phases: seq<Phase>)
    ensures |RunningAt(phases)| == Total(phases, Runs)
  {
    if phases != [] {
      var n := |phases| - 1;
      CountRunning(phases[..n]);
      TotalLast(phases);
      hide Total;
      assert RunningAt(phases) == RunningAt(phases[..n]) + (if phases[n] == Running then {n} else {});
    }
  }

  lemma {:induction false} TotalLast(phases: seq<Phase>)
    requires phases != []
    ensures Total(phases, Runs) == Total(phases[..|phases| - 1], Runs) + Runs(phases[|phases| - 1])
  {
    if |phases| > 1 {
      TotalLast(phases[1..]);
      assert phases[1..][..|phases| - 2] == phases[..|phases| - 1][1..];
    }
  }

  /** At every moment of every run at most limit tasks run, eight when no limit is
      given; and once the caller has returned, all tasks are finished and it has returned the results in
      task order, with one error check in place of a task that panicked. */
  lemma {:induction false} EveryMoment(tasks: seq<Task>, limit: int, steps: seq<Step>)
    requires IsRun(tasks, limit, Initial(tasks), steps)
    ensures var s := After(tasks, limit, Initial(tasks), steps);
      && |RunningAt(s.phases)| <= (if limit > 0 then limit else 8)
      && (s.caller.Returned? ==>
            && (forall i :: 0 <= i < |tasks| ==> At(s, i, Finished))
            && s.caller.out == InTaskOrder(tasks))
  {
    hide IsRun;
    hide After;
    hide Initial;
    hide Total;
    hide Concat;
    InitialInv(tasks, limit);
    RunInv(tasks, limit, Initial(tasks), steps);
    var s := After(tasks, limit, Initial(tasks), steps);
    TotalBelow(s.phases, Runs, Holds);
    CountRunning(s.phases);
    if s.caller.Returned? {
      TotalZero(s.phases, Counts);
      forall i | 0 <= i < |tasks|
        ensures s.phases[i] == Finished && s.slots[i] == Stores(tasks[i])
      {
        assert Counts(s.phases[i]) == 0;
      }
      SlotsInOrder(tasks, s.slots);
    }
  }

  /** The state in which the first k tasks run and nothing else has happened. */
  function Loaded(tasks: seq<Task>, k: nat): State
    requires k <= |tasks|
  {
    State(if k < |tasks| then Adding(k) else Waiting, k, k,
          seq(|tasks|, i => if i < k then Running else Unstarted), seq(|tasks|, _ => []))
  }

  lemma {:induction false} LoadOne(tasks: seq<Task>, limit: int, k: nat)
    requires k < |tasks| && k < (if limit > 0 then limit else 8)
    ensures var s := Loaded(tasks, k); var more := [Add, Take, Start];
      IsRun(tasks, limit, s, more) && After(tasks, limit, s, more) == Loaded(tasks, k + 1)
  {
    var s := Loaded(tasks, k);
    var a := Next(tasks, limit, s, Add);
    var b := Next(tasks, limit, a, Take);
    var c := Next(tasks, limit, b, Start);
    assert c.phases == Loaded(tasks, k + 1).phases;
    assert [Add, Take, Start][1..] == [Take, Start] && [Take, Start][1..] == [Start] && [Start][1..] == [];
    assert IsRun(tasks, limit, b, [Start]) && After(tasks, limit, b, [Start]) == c;
    assert IsRun(tasks, limit, a, [Take, Start]) && After(tasks, limit, a, [Take, Start]) == c;
  }

  lemma {:induction false} RunsJoin(tasks: seq<Task>, limit: int, s: State, a: seq<Step>, b: seq<Step>)
    requires IsRun(tasks, limit, s, a) && IsRun(tasks, limit, After(tasks, limit, s, a), b)
    ensures IsRun(tasks, limit, s, a + b)
    ensures After(tasks, limit, s, a + b) == After(tasks, limit, After(tasks, limit, s, a), b)
    decreases |a|
  {
    hide Enabled;
    hide Next;
    if a == [] {
      assert a + b == b;
    } else {
      assert (a + b)[0] == a[0] && (a + b)[1..] == a[1..] + b;
      RunsJoin(tasks, limit, Next(tasks, limit, s, a[0]), a[1..], b);
    }
  }

  lemma {:induction false} LoadUpTo(tasks: seq<Task>, limit: int, k: nat) returns (steps: seq<Step>)
    requires k <= |tasks| && k <= (if limit > 0 then limit else 8)
    ensures IsRun(tasks, limit, Initial(tasks), steps) && After(tasks, limit, Initial(tasks), steps) == Loaded(tasks, k)
  {
    if k == 0 {
      steps := [];
      assert Initial(tasks).phases == Loaded(tasks, 0).phases;
    } else {
      var front := LoadUpTo(tasks, limit, k - 1);
      LoadOne(tasks, limit, k - 1);
      RunsJoin(tasks, limit, Initial(tasks), front, [Add, Take, Start]);
      steps := front + [Add, Take, Start];
    }
  }

  /** The bound is reached: some run has as many tasks running as there are, or as
      the limit allows. */
  lemma {:induction false} LimitIsReached(tasks: seq<Task>, limit: int) returns (steps: seq<Step>)
    ensures IsRun(tasks, limit, Initial(tasks), steps)
    ensures var bound := if limit > 0 then limit else 8;
      |RunningAt(After(tasks, limit, Initial(tasks), steps).phases)| == if |tasks| < bound then |tasks| else bound
  {
    var bound := if limit > 0 then limit else 8;
    var k := if |tasks| < bound then |tasks| else bound;
    steps := LoadUpTo(tasks, limit, k);
    hide After;
    hide IsRun;
    FirstRun(Loaded(tasks, k).phases, k);
    CountRunning(Loaded(tasks, k).phases);
  }

  lemma {:induction false} FirstRun(phases: seq<Phase>, k: nat)
    requires k <= |phases| && forall i :: 0 <= i < |phases| ==> (phases[i] == Running <==> i < k)
    ensures Total(phases, Runs) == k
  {
    if phases != [] {
      FirstRun(phases[1..], if k > 0 then k - 1 else 0);
    }
  }

  /** Where the results of a task begin in the output. */
  function Offset(tasks: seq<Task>, i: nat): nat
    requires i <= |tasks|
  {
    |InTaskOrder(tasks[..i])|
  }

  lemma {:induction false} OrderSplits(a: seq<Task>, b: seq<Task>)
    ensures InTaskOrder(a + b) == InTaskOrder(a) + InTaskOrder(b)
  {
    hide Stores;
    if a == [] {
      assert a + b == b;
    } else {
      assert (a + b)[1..] == a[1..] + b;
      OrderSplits(a[1..], b);
    }
  }

  /** In the output of every finished run, each task has the part that begins
      after all earlier tasks' results: what it returned, or, if it panicked, one
      check under its name with the panic message that costs nothing. */
  lemma {:induction false} EveryTaskHasItsPart(tasks: seq<Task>, limit: int, steps: seq<Step>, i: nat)
    requires IsRun(tasks, limit, Initial(tasks), steps) && i < |tasks|
    requires After(tasks, limit, Initial(tasks), steps).caller.Returned?
    ensures var out := After(tasks, limit, Initial(tasks), steps).caller.out;
      && Offset(tasks, i) <= Offset(tasks, i + 1) <= Offset(tasks, |tasks|) == |out|
      && var part := out[Offset(tasks, i)..Offset(tasks, i + 1)];
        match tasks[i].outcome
        case Returns(checks) => part == checks
        case Panics(message) => part == [Check(tasks[i].name, "info", 0.0, message)]
  {
    hide IsRun;
    hide After;
    hide Initial;
    hide Total;
    EveryMoment(tasks, limit, steps);
    hide InTaskOrder;
    assert tasks[..i] + [tasks[i]] == tasks[..i + 1] && tasks[..i + 1] + tasks[i + 1..] == tasks;
    OrderSplits(tasks[..i], [tasks[i]]);
    OrderSplits(tasks[..i + 1], tasks[i + 1..]);
    OneTask(tasks[i]);
    assert tasks[..|tasks|] == tasks;
  }

  lemma {:induction false} OneTask(t: Task)
    ensures InTaskOrder([t]) == Stores(t)
  {
    hide Stores;
    assert [t][1..] == [];
  }

  /** Until the caller has returned, some step is possible. */
  lemma {:induction false} SomeStepEnabled(tasks: seq<Task>, limit: int, s: State) returns (step: Step)
    requires Inv(tasks, limit, s) && !s.caller.Returned?
    ensures Enabled(tasks, limit, s, step)
  {
    hide Total;
    if s.caller.Adding? {
      step := Add;
    } else if s.caller.Starting? {
      step := Start;
    } else if s.caller.Waiting? && s.group == 0 {
      step := Return;
    } else if s.caller.Taking? && s.held < Capacity(limit) {
      step := Take;
    } else {
      if s.caller.Taking? {
        TotalBelow(s.phases, Holds, Counts);
      }
      var i := TotalPositive(s.phases, Counts);
      match s.phases[i]
      case Running => step := Store(i);
      case Stored =>
        HolderHolds(s.phases, i);
        step := Release(i);
      case Released => step := Leave(i);
    }
  }

  lemma {:induction false} HolderHolds(phases: seq<Phase>, i: nat)
    requires i < |phases| && Holds(phases[i]) == 1
    ensures Total(phases, Holds) > 0
  {
    if i > 0 {
      HolderHolds(phases[1..], i - 1);
    }
  }

  /** Steps that remain to be taken. */
  ghost function Remaining(s: State): int {
    Total(s.phases, StepsLeft) - (if s.caller.Taking? then 1 else if s.caller.Starting? then 2 else 0)
      + (if s.caller.Returned? then 0 else 1)
  }

  lemma {:induction false} StepCounts(tasks: seq<Task>, limit: int, s: State, step: Step)
    requires Inv(tasks, limit, s) && Enabled(tasks, limit, s, step)
    ensures Remaining(Next(tasks, limit, s, step)) == Remaining(s) - 1
  {
    hide Total;
    hide Concat;
    match step
    case Start => TotalUpdate(s.phases, StepsLeft, s.caller.i, Running);
    case Store(i) => TotalUpdate(s.phases, StepsLeft, i, Stored);
    case Release(i) => TotalUpdate(s.phases, StepsLeft, i, Released);
    case Leave(i) => TotalUpdate(s.phases, StepsLeft, i, Finished);
    case _ =>
  }

  lemma {:induction false} RunCounts(tasks: seq<Task>, limit: int, s: State, steps: seq<Step>)
    requires Inv(tasks, limit, s) && IsRun(tasks, limit, s, steps)
    ensures |steps| + Remaining(After(tasks, limit, s, steps)) == Remaining(s)
    decreases |steps|
  {
    hide Inv;
    hide Next;
    hide Enabled;
    hide Remaining;
    if steps != [] {
      NextInv(tasks, limit, s, steps[0]);
      StepCounts(tasks, limit, s, steps[0]);
      RunCounts(tasks, limit, Next(tasks, limit, s, steps[0]), steps[1..]);
    }
  }

  lemma {:induction false} RemainingAtLeast(tasks: seq<Task>, limit: int, s: State)
    requires Inv(tasks, limit, s)
    ensures Remaining(s) >= 0
  {
    if s.caller.Taking? || s.caller.Starting? {
      assert s.phases[s.caller.i] == Unstarted;
      UnstartedCounts(s.phases, s.caller.i);
    }
  }

  lemma {:induction false} UnstartedCounts(phases: seq<Phase>, i: nat)
    requires i < |phases| && phases[i] == Unstarted
    ensures Total(phases, StepsLeft) >= 6
  {
    if i > 0 {
      UnstartedCounts(phases[1..], i - 1);
    }
  }

  /** Every run is finite: no run has more than six steps per task and one, and a
      run that cannot go on has returned after exactly that many steps. */
  lemma {:induction false} EveryRunEnds(tasks: seq<Task>, limit: int, steps: seq<Step>)
    requires IsRun(tasks, limit, Initial(tasks), steps)
    ensures |steps| <= 6 * |tasks| + 1
    ensures var s := After(tasks, limit, Initial(tasks), steps);
      && (s.caller.Returned? <==> |steps| == 6 * |tasks| + 1)
      && (s.caller.Returned? <==> forall step :: !Enabled(tasks, limit, s, step))
  {
    hide IsRun;
    hide After;
    hide Initial;
    hide Inv;
    hide Remaining;
    hide Next;
    hide Enabled;
    var s := After(tasks, limit, Initial(tasks), steps);
    InitialInv(tasks, limit);
    InitialRemaining(tasks);
    RunInv(tasks, limit, Initial(tasks), steps);
    RunCounts(tasks, limit, Initial(tasks), steps);
    RemainingAtLeast(tasks, limit, s);
    if s.caller.Returned? {
      AllDone(tasks, limit, s);
    } else {
      var step := SomeStepEnabled(tasks, limit, s);
      NextInv(tasks, limit, s, step);
      StepCounts(tasks, limit, s, step);
      RemainingAtLeast(tasks, limit, Next(tasks, limit, s, step));
    }
  }

  lemma {:induction false} InitialRemaining(tasks: seq<Task>)
    ensures Remaining(Initial(tasks)) == 6 * |tasks| + 1
  {
    TotalStart(|tasks|, StepsLeft);
  }

  lemma {:induction false} AllDone(tasks: seq<Task>, limit: int, s: State)
    requires Inv(tasks, limit, s) && s.caller.Returned?
    ensures Remaining(s) == 0 && forall step :: !Enabled(tasks, limit, s, step)
  {
    TotalZero(s.phases, Counts);
    forall i | 0 <= i < |s.phases|
      ensures s.phases[i] == Finished
    {
      assert Counts(s.phases[i]) == 0;
    }
    FinishedCount(s.phases);
  }

  lemma {:induction false} FinishedCount(phases: seq<Phase>)
    requires forall i :: 0 <= i < |phases| ==> phases[i] == Finished
    ensures Total(phases, StepsLeft) == 0
  {
    if phases != [] {
      FinishedCount(phases[1..]);
    }
  }

  /** The loop that collects the slots. */
  method Collect(slots: seq<seq<Check>>) returns (out: seq<Check>)
    ensures out == Concat(slots)
  {
    out := [];
    for i := 0 to |slots|
      invariant out + Concat(slots[i..]) == Concat(slots)
    {
      assert slots[i..][0] == slots[i] && slots[i..][1..] == slots[i + 1..];
      out := out + slots[i];
    }
  }
}
