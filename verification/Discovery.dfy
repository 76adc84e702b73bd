/** LAN discovery: start and stop requests, and the workers they leave behind
    (crates/ham-client/src/serve.rs:5887-5934 and 6292-6359). Requests and workers
    interleave freely; each step below is one hold of the state mutex. The
    generation is a natural number: its wrap-around at 2^64 is not part of this
    model. */
module Discovery {
  import opened Basics

  /** Where a worker is in its loop. */
  datatype Phase = Checking | Cycling | Waiting | Stopped

  datatype Worker = Worker(generation: nat, phase: Phase)

  /** `pending` lists the generations handed to a worker that has not started yet,
      `workers` every worker ever started. Nothing here stops two of them from having
      one generation. */
  datatype State = State(running: bool, generation: nat, pending: seq<nat>, workers: seq<Worker>)

  const INITIAL := State(false, 0, [], [])

  /** The test both the loop and its waiting phase make. */
  predicate MayContinue(s: State, g: nat) {
    s.running && s.generation == g
  }

  /** Spawn starts a pending worker; the last three are steps of worker w. */
  datatype Step =
    | Start
    | Stop
    | Spawn(i: nat)
    | Snapshot(w: nat)
    | FinishCycle(w: nat)
    | WaitCheck(w: nat, deadlinePassed: bool)

  /** A step that is possible in a state. */
  predicate Enabled(s: State, step: Step) {
    match step
    case Start => true
    case Stop => true
    case Spawn(i) => i < |s.pending|
    case Snapshot(w) => w < |s.workers| && s.workers[w].phase == Checking
    case FinishCycle(w) => w < |s.workers| && s.workers[w].phase == Cycling
    case WaitCheck(w, _) => w < |s.workers| && s.workers[w].phase == Waiting
  }

  function Moved(s: State, w: nat, phase: Phase): State
    requires w < |s.workers|
  {
    s.(workers := s.workers[w := s.workers[w].(phase := phase)])
  }

  function Next(s: State, step: Step): State
    requires Enabled(s, step)
  {
    match step
    case Start =>
      if s.running then s
      else s.(running := true, generation := s.generation + 1, pending := s.pending + [s.generation + 1])
    case Stop =>
      if s.running then s.(running := false, generation := s.generation + 1) else s
    case Spawn(i) =>
      s.(pending := s.pending[..i] + s.pending[i + 1..], workers := s.workers + [Worker(s.pending[i], Checking)])
    case Snapshot(w) => Moved(s, w, if MayContinue(s, s.workers[w].generation) then Cycling else Stopped)
    case FinishCycle(w) => Moved(s, w, Waiting)
    case WaitCheck(w, deadlinePassed) =>
      Moved(s, w, if !MayContinue(s, s.workers[w].generation) then Stopped else if deadlinePassed then Checking else Waiting)
  }

  /** The fields the handlers and the workers share. */
  class SyncUiState {
    var discoveryRunning: bool
    var discoveryGeneration: nat

    constructor ()
      ensures !discoveryRunning && discoveryGeneration == 0
    {
      discoveryRunning, discoveryGeneration := false, 0;
    }

    /** handle_sync_discovery, up to the response: the generation of the worker to
        start, if one is due. Together with the pending list it is a Start or Stop
        step. */
    method HandleSyncDiscovery(running: bool) returns (worker: Option<nat>)
      modifies this
      ensures forall s: State :: s.running == old(discoveryRunning) && s.generation == old(discoveryGeneration) ==>
        Next(s, if running then Start else Stop) ==
        State(discoveryRunning, discoveryGeneration, s.pending + (if worker.Some? then [worker.value] else []), s.workers)
    {
      worker := None;
      if running {
        if !discoveryRunning {
          discoveryGeneration := discoveryGeneration + 1;
          discoveryRunning := true;
          worker := Some(discoveryGeneration);
        }
      } else {
        if discoveryRunning {
          discoveryGeneration := discoveryGeneration + 1;
        }
        discoveryRunning := false;
      }
      assert forall s: State :: s.pending + [] == s.pending;
    }

    /** lan_discovery_is_running. */
    method LanDiscoveryIsRunning(g: nat) returns (r: bool)
      ensures forall s: State :: s.running == discoveryRunning && s.generation == discoveryGeneration ==> r == MayContinue(s, g)
    {
      r := discoveryRunning && discoveryGeneration == g;
    }
  }

  // ----- every reachable state -----

  function Generations(workers: seq<Worker>): (r: seq<nat>)
    ensures |r| == |workers| && forall w :: 0 <= w < |r| ==> r[w] == workers[w].generation
  {
    seq(|workers|, w requires 0 <= w < |workers| => workers[w].generation)
  }

  /** The generations that belong to a worker, started or about to be. */
  function Issued(s: State): seq<nat> {
    s.pending + Generations(s.workers)
  }

  /** How often a generation was handed out by the time of a state: once if it is odd
      and not in the future, and never otherwise. */
  ghost predicate IssuedOnce(s: State, g: nat) {
    multiset(Issued(s))[g] == if g <= s.generation && g % 2 == 1 then 1 else 0
  }

  /** Discovery runs exactly when the generation is odd; one worker was issued for
      each odd generation so far; while discovery runs its own worker has not
      stopped. */
  ghost predicate Inv(s: State) {
    && (s.running <==> s.generation % 2 == 1)
    && (forall g: nat {:trigger IssuedOnce(s, g)} :: IssuedOnce(s, g))
    && (s.running ==> forall w :: 0 <= w < |s.workers| && s.workers[w].generation == s.generation ==> s.workers[w].phase != Stopped)
  }

  function HandedOut(s: State, step: Step): seq<nat> {
    if step.Start? && !s.running then [s.generation + 1] else []
  }

  lemma StartIssues(s: State)
    requires !s.running
    ensures multiset(Issued(Next(s, Start))) == multiset(Issued(s)) + multiset([s.generation + 1])
  {
    hide Generations;
    AppendFirst(s.pending, Generations(s.workers), [s.generation + 1]);
  }

  /** Starting a worker moves its generation from one list to the other. */
  lemma SpawnIssues(s: State, i: nat)
    requires i < |s.pending|
    ensures multiset(Issued(Next(s, Spawn(i)))) == multiset(Issued(s))
  {
    var first, started := s.pending[i], Generations(s.workers);
    GenerationsSnoc(s.workers, Worker(first, Checking));
    assert Issued(Next(s, Spawn(i))) == (s.pending[..i] + s.pending[i + 1..]) + (started + [first]);
    assert Issued(s) == s.pending + started;
    hide *;
    MoveAcross(s.pending, started, i);
  }

  lemma MoveIssues(s: State, w: nat, phase: Phase)
    requires w < |s.workers|
    ensures Issued(Moved(s, w, phase)) == Issued(s)
  {
    GenerationsKept(s.workers, w, s.workers[w].(phase := phase));
  }

  /** Handing out appends; nothing else changes who has been issued. */
  lemma IssuedChanges(s: State, step: Step)
    requires Enabled(s, step)
    ensures multiset(Issued(Next(s, step))) == multiset(Issued(s)) + multiset(HandedOut(s, step))
  {
    hide MayContinue, Generations, Issued, Moved;
    match step {
      case Start =>
        if !s.running {
          StartIssues(s);
        }
      case Stop => StopIssues(s);
      case Spawn(i) => SpawnIssues(s, i);
      case Snapshot(w) => MoveIssues(s, w, if MayContinue(s, s.workers[w].generation) then Cycling else Stopped);
      case FinishCycle(w) => MoveIssues(s, w, Waiting);
      case WaitCheck(w, passed) =>
        MoveIssues(s, w, if !MayContinue(s, s.workers[w].generation) then Stopped else if passed then Checking else Waiting);
    }
  }

  lemma StopIssues(s: State)
    ensures Issued(Next(s, Stop)) == Issued(s)
  {
  }

  lemma GenerationsSnoc(workers: seq<Worker>, worker: Worker)
    ensures Generations(workers + [worker]) == Generations(workers) + [worker.generation]
  {
  }

  lemma GenerationsKept(workers: seq<Worker>, w: nat, next: Worker)
    requires w < |workers| && next.generation == workers[w].generation
    ensures Generations(workers[w := next]) == Generations(workers)
  {
  }

  lemma AppendFirst(a: seq<nat>, b: seq<nat>, c: seq<nat>)
    ensures multiset((a + c) + b) == multiset(a + b) + multiset(c)
  {
  }

  lemma MoveAcross(a: seq<nat>, b: seq<nat>, i: nat)
    requires i < |a|
    ensures multiset((a[..i] + a[i + 1..]) + (b + [a[i]])) == multiset(a + b)
  {
    assert a == a[..i] + [a[i]] + a[i + 1..];
    assert multiset(a) == multiset(a[..i]) + multiset([a[i]]) + multiset(a[i + 1..]);
  }

  lemma IssuedHas(s: State, g: nat)
    requires IssuedOnce(s, g)
    ensures g in Issued(s) <==> g <= s.generation && g % 2 == 1
  {
    assert g in Issued(s) <==> multiset(Issued(s))[g] > 0;
  }

  lemma WorkerIssued(s: State, w: nat)
    requires w < |s.workers|
    ensures s.workers[w].generation in Issued(s)
  {
    assert Issued(s)[|s.pending| + w] == s.workers[w].generation;
  }

  lemma StepKeepsIssued(s: State, step: Step, g: nat)
    requires (s.running <==> s.generation % 2 == 1) && Enabled(s, step) && IssuedOnce(s, g)
    ensures IssuedOnce(Next(s, step), g)
  {
    IssuedChanges(s, step);
    hide Issued, MayContinue;
    assert multiset(HandedOut(s, step))[g] == if step.Start? && !s.running && g == s.generation + 1 then 1 else 0;
  }

  lemma StepKeepsInv(s: State, step: Step)
    requires Inv(s) && Enabled(s, step)
    ensures Inv(Next(s, step))
  {
    var next := Next(s, step);
    forall g: nat ensures IssuedOnce(next, g) {
      assert IssuedOnce(s, g);
      StepKeepsIssued(s, step, g);
    }
    hide IssuedOnce, Issued;
    if step.Start? && !s.running {
      assert IssuedOnce(s, next.generation);
      IssuedHas(s, next.generation);
      forall w | 0 <= w < |s.workers| ensures s.workers[w].generation != next.generation {
        WorkerIssued(s, w);
      }
    }
  }

  /** Some interleaving of steps leads from one state to another. */
  ghost predicate Reaches(s: State, steps: seq<Step>, end: State)
    decreases |steps|
  {
    if steps == [] then s == end
    else Enabled(s, steps[0]) && Reaches(Next(s, steps[0]), steps[1..], end)
  }

  lemma {:induction false} RunKeepsInv(s: State, steps: seq<Step>, end: State)
    requires Inv(s) && Reaches(s, steps, end)
    ensures Inv(end)
    decreases |steps|
  {
    if steps != [] {
      StepKeepsInv(s, steps[0]);
      RunKeepsInv(Next(s, steps[0]), steps[1..], end);
    }
  }

  /** Worker w, wherever it is in its loop, would pass the check. */
  predicate PassesCheck(s: State, w: int) {
    0 <= w < |s.workers| && MayContinue(s, s.workers[w].generation)
  }

  lemma CountedTwice(s: seq<nat>, i: nat, j: nat)
    requires i < j < |s| && s[i] == s[j]
    ensures multiset(s)[s[i]] >= 2
  {
    assert s == s[..j] + [s[j]] + s[j + 1..];
    assert s[i] == s[..j][i];
  }

  lemma NoneTwice(s: State)
    requires Inv(s)
    ensures Distinct(Issued(s))
  {
    var issued := Issued(s);
    hide Issued;
    forall i, j | 0 <= i < j < |issued| ensures issued[i] != issued[j] {
      assert IssuedOnce(s, issued[i]);
      if issued[i] == issued[j] {
        CountedTwice(issued, i, j);
      }
    }
  }

  lemma OnePasses(s: State, v: nat, w: nat)
    requires Distinct(Issued(s)) && PassesCheck(s, v) && PassesCheck(s, w)
    ensures v == w
  {
    var issued, n := Issued(s), |s.pending|;
    assert issued[n + v] == issued[n + w];
  }

  lemma SomeonePasses(s: State)
    requires s.running && s.generation in Issued(s)
    ensures s.generation in s.pending || exists w :: PassesCheck(s, w)
  {
    var issued := Issued(s);
    var k :| 0 <= k < |issued| && issued[k] == s.generation;
    if k >= |s.pending| {
      assert PassesCheck(s, k - |s.pending|);
    }
  }

  /** In every interleaving from the initial state: running holds exactly when the
      generation is odd; over pending and started workers together no generation
      occurs twice, and those that occur are the odd ones so far; at most one of the
      workers started can pass the check; and while discovery runs, the one that can
      has not stopped or is about to be started. */
  lemma ReachableStates(steps: seq<Step>, s: State)
    requires Reaches(INITIAL, steps, s)
    ensures s.running <==> s.generation % 2 == 1
    ensures Distinct(Issued(s))
    ensures forall g: nat :: g in Issued(s) <==> g <= s.generation && g % 2 == 1
    ensures forall v, w :: PassesCheck(s, v) && PassesCheck(s, w) ==> v == w
    ensures s.running ==> s.generation in s.pending || exists w :: PassesCheck(s, w)
    ensures forall w :: PassesCheck(s, w) ==> s.workers[w].phase != Stopped
  {
    hide Reaches;
    InitialInv();
    RunKeepsInv(INITIAL, steps, s);
    hide Issued, Distinct, IssuedOnce;
    NoneTwice(s);
    forall g: nat ensures g in Issued(s) <==> g <= s.generation && g % 2 == 1 {
      assert IssuedOnce(s, g);
      IssuedHas(s, g);
    }
    forall v, w | PassesCheck(s, v) && PassesCheck(s, w) ensures v == w {
      OnePasses(s, v, w);
    }
    if s.running {
      SomeonePasses(s);
    }
  }

  lemma InitialInv()
    ensures Inv(INITIAL)
  {
  }

  // ----- stale workers -----

  /** A generation handed out that has passed. */
  predicate Stale(s: State, g: nat) {
    g in Issued(s) && !MayContinue(s, g)
  }

  lemma StaleMeansPassed(s: State, g: nat)
    requires Inv(s) && g in Issued(s)
    ensures Stale(s, g) <==> g < s.generation
  {
    assert IssuedOnce(s, g);
    assert multiset(Issued(s))[g] > 0;
  }

  /** A step of some worker of generation g. */
  predicate StepOf(s: State, step: Step, g: nat) {
    match step
    case Snapshot(w) => w < |s.workers| && s.workers[w].generation == g
    case FinishCycle(w) => w < |s.workers| && s.workers[w].generation == g
    case WaitCheck(w, _) => w < |s.workers| && s.workers[w].generation == g
    case _ => false
  }

  /** The steps in which a worker of generation g begins a cycle, counted along a
      run. */
  ghost function CyclesBegun(s: State, steps: seq<Step>, g: nat): nat
    decreases |steps|
  {
    if steps == [] || !Enabled(s, steps[0]) then 0
    else
      (if steps[0].Snapshot? && StepOf(s, steps[0], g) && MayContinue(s, g) then 1 else 0) +
      CyclesBegun(Next(s, steps[0]), steps[1..], g)
  }

  ghost function CyclesFinished(s: State, steps: seq<Step>, g: nat): nat
    decreases |steps|
  {
    if steps == [] || !Enabled(s, steps[0]) then 0
    else
      (if steps[0].FinishCycle? && StepOf(s, steps[0], g) then 1 else 0) +
      CyclesFinished(Next(s, steps[0]), steps[1..], g)
  }

  /** How many workers of generation g are in a cycle. */
  function InCycle(workers: seq<Worker>, g: nat): nat {
    if workers == [] then 0
    else InCycle(workers[..|workers| - 1], g) + if workers[|workers| - 1] == Worker(g, Cycling) then 1 else 0
  }

  lemma {:induction false} InCycleUpdate(workers: seq<Worker>, w: nat, next: Worker, g: nat)
    requires w < |workers|
    ensures InCycle(workers[w := next], g) ==
      InCycle(workers, g) + (if next == Worker(g, Cycling) then 1 else 0) - if workers[w] == Worker(g, Cycling) then 1 else 0
  {
    var n := |workers| - 1;
    if w < n {
      assert workers[w := next][..n] == workers[..n][w := next];
      InCycleUpdate(workers[..n], w, next, g);
    } else {
      assert workers[w := next][..n] == workers[..n];
    }
  }

  lemma InCycleSpawn(workers: seq<Worker>, p: nat, g: nat)
    ensures InCycle(workers + [Worker(p, Checking)], g) == InCycle(workers, g)
  {
    assert (workers + [Worker(p, Checking)])[..|workers|] == workers;
  }

  lemma StaleStep(s: State, step: Step, g: nat)
    requires Inv(s) && Enabled(s, step) && Stale(s, g)
    ensures Stale(Next(s, step), g)
    ensures InCycle(Next(s, step).workers, g) ==
      InCycle(s.workers, g) - if step.FinishCycle? && StepOf(s, step, g) then 1 else 0
  {
    var next := Next(s, step);
    StepKeepsInv(s, step);
    IssuedChanges(s, step);
    assert g in Issued(next) by {
      assert g in multiset(Issued(next));
    }
    StaleMeansPassed(s, g);
    StaleMeansPassed(next, g);
    hide Inv, Issued;
    match step {
      case Start =>
      case Stop =>
      case Spawn(i) => InCycleSpawn(s.workers, s.pending[i], g);
      case Snapshot(w) => InCycleUpdate(s.workers, w, next.workers[w], g);
      case FinishCycle(w) => InCycleUpdate(s.workers, w, next.workers[w], g);
      case WaitCheck(w, _) => InCycleUpdate(s.workers, w, next.workers[w], g);
    }
  }

  /** Once stale, a generation stays stale, its worker begins no cycle, and finishes
      the one it is in, if any, at most. */
  lemma {:induction false} StaleWinds(s: State, steps: seq<Step>, end: State, g: nat)
    requires Inv(s) && Reaches(s, steps, end) && Stale(s, g)
    ensures Stale(end, g)
    ensures CyclesBegun(s, steps, g) == 0
    ensures CyclesFinished(s, steps, g) + InCycle(end.workers, g) == InCycle(s.workers, g) <= 1
    decreases |steps|
  {
    hide Inv;
    if steps == [] {
      AtMostOneInCycle(s, g);
    } else {
      StepKeepsInv(s, steps[0]);
      StaleStep(s, steps[0], g);
      AtMostOneInCycle(s, g);
      StaleWinds(Next(s, steps[0]), steps[1..], end, g);
    }
  }

  lemma {:induction false} InCycleCounted(workers: seq<Worker>, g: nat)
    ensures InCycle(workers, g) <= multiset(Generations(workers))[g]
  {
    if workers != [] {
      var n := |workers| - 1;
      InCycleCounted(workers[..n], g);
      assert Generations(workers) == Generations(workers[..n]) + [workers[n].generation];
    }
  }

  lemma AtMostOneInCycle(s: State, g: nat)
    requires Inv(s)
    ensures InCycle(s.workers, g) <= 1
  {
    InCycleCounted(s.workers, g);
    assert IssuedOnce(s, g);
    assert multiset(Issued(s)) == multiset(s.pending) + multiset(Generations(s.workers));
  }

  /** A stale worker's next look at the state is its last. */
  lemma StaleStops(s: State, step: Step, g: nat)
    requires Inv(s) && Enabled(s, step) && Stale(s, g)
    requires (step.Snapshot? || step.WaitCheck?) && StepOf(s, step, g)
    ensures Next(s, step).workers[step.w] == Worker(g, Stopped)
  {
  }

  /** Stopping makes every issued worker stale, and so does starting again. */
  lemma StopMakesStale(s: State, g: nat)
    requires Inv(s) && g in Issued(s)
    ensures Stale(Next(s, Stop), g)
    ensures Stale(Next(Next(s, Stop), Start), g)
  {
    var stopped := Next(s, Stop);
    StepKeepsInv(s, Stop);
    StepKeepsInv(stopped, Start);
    assert IssuedOnce(s, g) && multiset(Issued(s))[g] > 0;
    assert g in Issued(Next(stopped, Start)) by {
      IssuedChanges(stopped, Start);
      assert g in multiset(Issued(Next(stopped, Start)));
    }
    StaleMeansPassed(stopped, g);
    StaleMeansPassed(Next(stopped, Start), g);
  }
}
