/** The LAN scan: a pool of workers draining one list of addresses, next to a
    multicast pass (crates/ham-client/src/serve.rs:6057-6098, 6100-6118, 6132-6181,
    6210-6226 and 6451-6458). `Answer` says what probing a target records: the
    peer's id, or nothing when it did not answer or was ignored. */
module Sweep {
  import opened Basics
  import opened UuidText

  type Target = string

  type Answer = Target -> Option<string>

  datatype Phase = Idle | Probing(target: Target) | Finished

  // ----- why an answer is a function of the target -----

  datatype Identity = Identity(deviceId: Uuid, sessionId: Uuid)

  datatype Observation = Discovered(peerId: string) | Updated(peerId: string) | IgnoredSelf

  function PeerId(identity: Identity): string {
    ShowUuid(identity.deviceId) + ":" + ShowUuid(identity.sessionId)
  }

  /** The registry's verdict on a probed identity, and the ids it then knows. A
      packet built from an identity always speaks the current protocol. */
  function Observe(known: set<string>, local: Identity, identity: Identity): (Observation, set<string>) {
    if identity == local then (IgnoredSelf, known)
    else if PeerId(identity) in known then (Updated(PeerId(identity)), known)
    else (Discovered(PeerId(identity)), known + {PeerId(identity)})
  }

  /** recorded_peer_id. */
  function RecordedPeerId(o: Observation): Option<string> {
    match o
    case Discovered(id) => Some(id)
    case Updated(id) => Some(id)
    case IgnoredSelf => None
  }

  /** What is recorded for an identity does not depend on what the registry already
      knew, and different peers are recorded under different ids. */
  lemma RecordedRegardless(known: set<string>, known2: set<string>, local: Identity, a: Identity, b: Identity)
    ensures RecordedPeerId(Observe(known, local, a).0) == RecordedPeerId(Observe(known2, local, a).0)
    ensures a != local && b != local ==>
      (RecordedPeerId(Observe(known, local, a).0) == RecordedPeerId(Observe(known2, local, b).0) <==> a == b)
  {
    hide ShowUuid;
    if PeerId(a) == PeerId(b) {
      IdSplits(a);
      IdSplits(b);
      UuidRoundTrip(a.deviceId);
      UuidRoundTrip(b.deviceId);
      UuidRoundTrip(a.sessionId);
      UuidRoundTrip(b.sessionId);
    }
  }

  lemma IdSplits(identity: Identity)
    ensures |PeerId(identity)| == 73
    ensures PeerId(identity)[..36] == ShowUuid(identity.deviceId) && PeerId(identity)[37..] == ShowUuid(identity.sessionId)
  {
    hide ShowUuid;
  }

  /** A worker with the tallies it keeps to itself. */
  datatype Worker = Worker(phase: Phase, responses: nat, peerIds: set<string>)

  /** `finished` lists the targets probed so far, in the order their probes ended. */
  datatype State = State(queue: seq<Target>, workers: seq<Worker>, finished: seq<Target>)

  const FRESH := Worker(Idle, 0, {})

  /** Before the first pop. */
  function Begin(targets: seq<Target>, workerCount: nat): State {
    State(targets, seq(workerCount, _ => FRESH), [])
  }

  /** One step of worker i: pop a target or find the list empty, or end a probe. */
  predicate Enabled(s: State, i: nat) {
    i < |s.workers| && !s.workers[i].phase.Finished?
  }

  function Tally(answer: Answer, w: Worker): Worker
    requires w.phase.Probing?
  {
    match answer(w.phase.target)
    case None => w.(phase := Idle)
    case Some(id) => Worker(Idle, w.responses + 1, w.peerIds + {id})
  }

  function Next(answer: Answer, s: State, i: nat): State
    requires Enabled(s, i)
  {
    var w := s.workers[i];
    if w.phase.Probing? then
      State(s.queue, s.workers[i := Tally(answer, w)], s.finished + [w.phase.target])
    else if s.queue == [] then
      s.(workers := s.workers[i := w.(phase := Finished)])
    else
      var n := |s.queue| - 1;
      State(s.queue[..n], s.workers[i := w.(phase := Probing(s.queue[n]))], s.finished)
  }

  /** A schedule: which worker moves at each step. */
  ghost predicate Runs(answer: Answer, s: State, schedule: seq<nat>, end: State)
    decreases |schedule|
  {
    if schedule == [] then s == end
    else Enabled(s, schedule[0]) && Runs(answer, Next(answer, s, schedule[0]), schedule[1..], end)
  }

  predicate Over(s: State) {
    forall i :: 0 <= i < |s.workers| ==> s.workers[i].phase.Finished?
  }

  // ----- conservation -----

  function Held(w: Worker): multiset<Target> {
    if w.phase.Probing? then multiset{w.phase.target} else multiset{}
  }

  function InFlight(workers: seq<Worker>): multiset<Target> {
    if workers == [] then multiset{} else Held(workers[0]) + InFlight(workers[1..])
  }

  lemma {:induction false} InFlightUpdate(workers: seq<Worker>, i: nat, w: Worker)
    requires i < |workers|
    ensures InFlight(workers[i := w]) + Held(workers[i]) == InFlight(workers) + Held(w)
  {
    hide Held;
    if i == 0 {
      assert workers[0 := w][1..] == workers[1..];
    } else {
      var rest := workers[1..];
      assert workers[i := w][1..] == rest[i - 1 := w] && workers[i := w][0] == workers[0];
      InFlightUpdate(rest, i - 1, w);
      var h := Held(workers[0]);
      assert (h + InFlight(rest[i - 1 := w])) + Held(workers[i]) == h + (InFlight(rest[i - 1 := w]) + Held(rest[i - 1]));
      assert h + (InFlight(rest) + Held(w)) == (h + InFlight(rest)) + Held(w);
    }
  }

  function Responses(workers: seq<Worker>): nat {
    if workers == [] then 0 else workers[0].responses + Responses(workers[1..])
  }

  lemma {:induction false} ResponsesUpdate(workers: seq<Worker>, i: nat, w: Worker)
    requires i < |workers|
    ensures Responses(workers[i := w]) + workers[i].responses == Responses(workers) + w.responses
  {
    if i == 0 {
      assert workers[0 := w][1..] == workers[1..];
    } else {
      assert workers[i := w][1..] == workers[1..][i - 1 := w];
      ResponsesUpdate(workers[1..], i - 1, w);
    }
  }

  function PeerIds(workers: seq<Worker>): set<string> {
    if workers == [] then {} else workers[0].peerIds + PeerIds(workers[1..])
  }

  lemma {:induction false} PeerIdsUpdate(workers: seq<Worker>, i: nat, w: Worker)
    requires i < |workers| && workers[i].peerIds <= w.peerIds
    ensures PeerIds(workers[i := w]) == PeerIds(workers) + w.peerIds
  {
    if i == 0 {
      assert workers[0 := w][1..] == workers[1..];
    } else {
      assert workers[i := w][1..] == workers[1..][i - 1 := w];
      PeerIdsUpdate(workers[1..], i - 1, w);
    }
  }

  // ----- what a list of targets answers -----

  function Answered(answer: Answer, targets: seq<Target>): nat {
    if targets == [] then 0
    else Answered(answer, targets[..|targets| - 1]) + if answer(targets[|targets| - 1]).Some? then 1 else 0
  }

  function AnsweredIds(answer: Answer, targets: seq<Target>): set<string> {
    set t | t in targets && answer(t).Some? :: answer(t).value
  }

  lemma AnsweredIdsSnoc(answer: Answer, targets: seq<Target>, t: Target)
    ensures AnsweredIds(answer, targets + [t]) == AnsweredIds(answer, targets) + if answer(t).Some? then {answer(t).value} else {}
  {
    var longer := targets + [t];
    forall id ensures id in AnsweredIds(answer, longer) <==>
      id in AnsweredIds(answer, targets) || (answer(t) == Some(id)) {
      if id in AnsweredIds(answer, longer) {
        var x :| x in longer && answer(x) == Some(id);
        assert x in targets || x == t;
      }
      if id in AnsweredIds(answer, targets) {
        var x :| x in targets && answer(x) == Some(id);
        assert x in longer;
      }
      if answer(t) == Some(id) {
        assert t in longer;
      }
    }
  }

  /** What every schedule keeps: queue, probes under way and finished targets are
      together the original targets, and the tallies are what the finished targets
      answered. */
  ghost predicate Inv(answer: Answer, targets: seq<Target>, s: State) {
    && Conserves(targets, s)
    && Responses(s.workers) == Answered(answer, s.finished)
    && PeerIds(s.workers) == AnsweredIds(answer, s.finished)
  }

  lemma {:induction false} BeginInv(answer: Answer, targets: seq<Target>, workerCount: nat)
    ensures Inv(answer, targets, Begin(targets, workerCount))
  {
    var s := Begin(targets, workerCount);
    if workerCount == 0 {
    } else {
      BeginInv(answer, targets, workerCount - 1);
      assert s.workers[1..] == Begin(targets, workerCount - 1).workers;
    }
    assert s.workers == seq(workerCount, _ => FRESH);
  }

  ghost predicate Conserves(targets: seq<Target>, s: State) {
    multiset(s.queue) + InFlight(s.workers) + multiset(s.finished) == multiset(targets)
  }

  lemma MoveOne(q: multiset<Target>, f: multiset<Target>, d: multiset<Target>, f': multiset<Target>, t: Target)
    ensures f' == f + multiset{t} ==> q + f' + d == (q + multiset{t}) + f + d
    ensures f' + multiset{t} == f ==> q + f' + (d + multiset{t}) == q + f + d
  {
  }

  lemma StepConserves(answer: Answer, targets: seq<Target>, s: State, i: nat)
    requires Conserves(targets, s) && Enabled(s, i)
    ensures Conserves(targets, Next(answer, s, i))
  {
    hide InFlight;
    var w := s.workers[i];
    var next := Next(answer, s, i);
    InFlightUpdate(s.workers, i, next.workers[i]);
    if w.phase.Probing? {
      var t := w.phase.target;
      assert InFlight(next.workers) + multiset{t} == InFlight(s.workers);
      assert multiset(next.finished) == multiset(s.finished) + multiset{t};
      MoveOne(multiset(s.queue), InFlight(s.workers), multiset(s.finished), InFlight(next.workers), t);
    } else if s.queue != [] {
      var n := |s.queue| - 1;
      var t := s.queue[n];
      assert InFlight(next.workers) == InFlight(s.workers) + multiset{t};
      assert s.queue == s.queue[..n] + [t];
      MoveOne(multiset(s.queue[..n]), InFlight(s.workers), multiset(s.finished), InFlight(next.workers), t);
    } else {
      assert InFlight(next.workers) == InFlight(s.workers) + multiset{} == InFlight(s.workers);
    }
  }

  lemma StepTallies(answer: Answer, s: State, i: nat)
    requires Responses(s.workers) == Answered(answer, s.finished) && Enabled(s, i)
    requires PeerIds(s.workers) == AnsweredIds(answer, s.finished)
    ensures var next := Next(answer, s, i);
      Responses(next.workers) == Answered(answer, next.finished) && PeerIds(next.workers) == AnsweredIds(answer, next.finished)
  {
    hide InFlight, Responses, PeerIds, AnsweredIds;
    var w := s.workers[i];
    var next := Next(answer, s, i);
    ResponsesUpdate(s.workers, i, next.workers[i]);
    PeerIdsUpdate(s.workers, i, next.workers[i]);
    WorkerIdsIncluded(s.workers, i);
    if w.phase.Probing? {
      AnsweredIdsSnoc(answer, s.finished, w.phase.target);
      assert (s.finished + [w.phase.target])[..|s.finished|] == s.finished;
    }
  }

  lemma StepKeepsInv(answer: Answer, targets: seq<Target>, s: State, i: nat)
    requires Inv(answer, targets, s) && Enabled(s, i)
    ensures Inv(answer, targets, Next(answer, s, i))
  {
    StepConserves(answer, targets, s, i);
    StepTallies(answer, s, i);
    hide InFlight, Responses, PeerIds, AnsweredIds, Answered;
  }

  lemma {:induction false} WorkerIdsIncluded(workers: seq<Worker>, i: nat)
    requires i < |workers|
    ensures workers[i].peerIds <= PeerIds(workers)
  {
    if i > 0 {
      WorkerIdsIncluded(workers[1..], i - 1);
    }
  }

  lemma {:induction false} RunKeepsInv(answer: Answer, targets: seq<Target>, s: State, schedule: seq<nat>, end: State)
    requires Inv(answer, targets, s) && Runs(answer, s, schedule, end)
    ensures Inv(answer, targets, end) && |end.workers| == |s.workers|
    decreases |schedule|
  {
    hide Inv;
    if schedule != [] {
      StepKeepsInv(answer, targets, s, schedule[0]);
      RunKeepsInv(answer, targets, Next(answer, s, schedule[0]), schedule[1..], end);
    }
  }

  // ----- the end of a sweep -----

  lemma {:induction false} NothingHeld(workers: seq<Worker>)
    requires forall i :: 0 <= i < |workers| ==> workers[i].phase.Finished?
    ensures InFlight(workers) == multiset{}
  {
    if workers != [] {
      NothingHeld(workers[1..]);
    }
  }

  /** Counting answers does not depend on the order of the targets. */
  lemma {:induction false} AnsweredRemoves(answer: Answer, targets: seq<Target>, k: nat)
    requires k < |targets|
    ensures Answered(answer, targets) ==
      Answered(answer, targets[..k] + targets[k + 1..]) + if answer(targets[k]).Some? then 1 else 0
  {
    var n := |targets| - 1;
    if k == n {
      assert targets[..k] + targets[k + 1..] == targets[..n];
    } else {
      var without := targets[..k] + targets[k + 1..];
      assert without[..|without| - 1] == targets[..n][..k] + targets[..n][k + 1..];
      assert without[|without| - 1] == targets[n];
      AnsweredRemoves(answer, targets[..n], k);
    }
  }

  lemma WithoutOne(a: seq<Target>, k: nat)
    requires k < |a|
    ensures multiset(a) == multiset(a[..k] + a[k + 1..]) + multiset{a[k]}
  {
    assert a == a[..k] + [a[k]] + a[k + 1..];
  }

  lemma CancelOne(x: multiset<Target>, y: multiset<Target>, t: Target)
    requires x + multiset{t} == y + multiset{t}
    ensures x == y
  {
    forall u ensures x[u] == y[u] {
      assert (x + multiset{t})[u] == (y + multiset{t})[u];
    }
  }

  lemma {:induction false} AnsweredPermutes(answer: Answer, a: seq<Target>, b: seq<Target>)
    requires multiset(a) == multiset(b)
    ensures Answered(answer, a) == Answered(answer, b)
  {
    if a == [] {
      assert |multiset(b)| == |b|;
    } else {
      var n := |a| - 1;
      var t := a[n];
      assert t in multiset(a);
      var k :| 0 <= k < |b| && b[k] == t;
      var rest := b[..k] + b[k + 1..];
      WithoutOne(a, n);
      WithoutOne(b, k);
      assert a[..n] + a[n + 1..] == a[..n];
      CancelOne(multiset(a[..n]), multiset(rest), t);
      AnsweredRemoves(answer, b, k);
      AnsweredPermutes(answer, a[..n], rest);
    }
  }

  lemma SameMembers(a: seq<Target>, b: seq<Target>)
    requires multiset(a) == multiset(b)
    ensures forall t :: t in a <==> t in b
  {
    forall t ensures t in a <==> t in b {
      assert t in a <==> t in multiset(a);
      assert t in b <==> t in multiset(b);
    }
  }

  /** A worker only finishes on an empty list. */
  lemma {:induction false} FinishedMeansEmpty(answer: Answer, s: State, schedule: seq<nat>, end: State)
    requires Runs(answer, s, schedule, end)
    requires (exists i :: 0 <= i < |s.workers| && s.workers[i].phase.Finished?) ==> s.queue == []
    ensures (exists i :: 0 <= i < |end.workers| && end.workers[i].phase.Finished?) ==> end.queue == []
    decreases |schedule|
  {
    if schedule != [] {
      var next := Next(answer, s, schedule[0]);
      if i :| 0 <= i < |next.workers| && next.workers[i].phase.Finished? && i != schedule[0] {
        assert s.workers[i].phase.Finished?;
      }
      FinishedMeansEmpty(answer, next, schedule[1..], end);
    }
  }

  /** With at least one worker the end of the sweep empties the list. */
  lemma OverMeansEmpty(answer: Answer, targets: seq<Target>, workerCount: nat, schedule: seq<nat>, end: State)
    requires workerCount > 0 && Runs(answer, Begin(targets, workerCount), schedule, end) && Over(end)
    ensures end.queue == []
  {
    hide Runs;
    FinishedMeansEmpty(answer, Begin(targets, workerCount), schedule, end);
    BeginInv(answer, targets, workerCount);
    RunKeepsInv(answer, targets, Begin(targets, workerCount), schedule, end);
    assert end.workers[0].phase.Finished?;
  }

  /** When every worker is done, every target was probed as often as it was listed,
      and the totals are what the targets answer, whatever the schedule and however
      many workers there were. */
  lemma SweepResult(answer: Answer, targets: seq<Target>, workerCount: nat, schedule: seq<nat>, end: State)
    requires workerCount > 0 && Runs(answer, Begin(targets, workerCount), schedule, end) && Over(end)
    ensures multiset(end.finished) == multiset(targets)
    ensures Responses(end.workers) == Answered(answer, targets)
    ensures PeerIds(end.workers) == AnsweredIds(answer, targets)
  {
    hide Runs, Answered, Responses, PeerIds;
    OverMeansEmpty(answer, targets, workerCount, schedule, end);
    BeginInv(answer, targets, workerCount);
    RunKeepsInv(answer, targets, Begin(targets, workerCount), schedule, end);
    NothingHeld(end.workers);
    assert multiset(end.queue) == multiset{};
    AnsweredPermutes(answer, end.finished, targets);
    SameMembers(end.finished, targets);
  }

  /** Steps left: two for each target listed, one for each probe under way, one for
      each worker still to finish. */
  function StepsLeft(s: State): nat {
    2 * |s.queue| + WorkerSteps(s.workers)
  }

  function WorkerStep(w: Worker): nat {
    match w.phase case Idle => 1 case Probing(_) => 2 case Finished => 0
  }

  function WorkerSteps(workers: seq<Worker>): nat {
    if workers == [] then 0 else WorkerStep(workers[0]) + WorkerSteps(workers[1..])
  }

  lemma {:induction false} WorkerStepsUpdate(workers: seq<Worker>, i: nat, w: Worker)
    requires i < |workers|
    ensures WorkerSteps(workers[i := w]) + WorkerStep(workers[i]) == WorkerSteps(workers) + WorkerStep(w)
  {
    hide WorkerStep;
    if i == 0 {
      assert workers[0 := w][1..] == workers[1..];
    } else {
      assert workers[i := w][1..] == workers[1..][i - 1 := w];
      WorkerStepsUpdate(workers[1..], i - 1, w);
    }
  }

  /** Every schedule ends: a sweep takes at most two steps for each target and one
      for each worker. */
  lemma {:induction false} SweepEnds(answer: Answer, s: State, schedule: seq<nat>, end: State)
    requires Runs(answer, s, schedule, end)
    ensures |schedule| + StepsLeft(end) == StepsLeft(s)
    ensures StepsLeft(end) == 0 ==> Over(end)
    decreases |schedule|
  {
    hide WorkerSteps;
    if schedule != [] {
      WorkerStepsUpdate(s.workers, schedule[0], Next(answer, s, schedule[0]).workers[schedule[0]]);
      SweepEnds(answer, Next(answer, s, schedule[0]), schedule[1..], end);
    } else {
      NoStepsLeft(end.workers);
    }
  }

  lemma {:induction false} NoStepsLeft(workers: seq<Worker>)
    ensures WorkerSteps(workers) == 0 ==> forall i :: 0 <= i < |workers| ==> workers[i].phase.Finished?
  {
    if workers != [] {
      NoStepsLeft(workers[1..]);
    }
  }

  // ----- totals -----

  datatype SweepTotals = SweepTotals(probedAddresses: nat, probedResponses: nat, peerIds: set<string>)

  /** The end of run_lan_direct_sweep: the workers' tallies joined one by one. */
  method JoinWorkers(probedAddresses: nat, workers: seq<Worker>) returns (result: SweepTotals)
    ensures result == SweepTotals(probedAddresses, Responses(workers), PeerIds(workers))
  {
    result := SweepTotals(probedAddresses, 0, {});
    for i := 0 to |workers|
      invariant result.probedAddresses == probedAddresses
      invariant result.probedResponses + Responses(workers[i..]) == Responses(workers)
      invariant result.peerIds + PeerIds(workers[i..]) == PeerIds(workers)
    {
      assert workers[i..][1..] == workers[i + 1..];
      result := result.(
        probedResponses := result.probedResponses + workers[i].responses,
        peerIds := result.peerIds + workers[i].peerIds);
    }
  }

  /** The tallying loop of run_lan_multicast_scan over what each observation
      recorded. */
  method TallyObservations(recorded: seq<Option<string>>) returns (count: nat, peerIds: set<string>)
    ensures count == |Recorded(recorded)|
    ensures peerIds == IdSet(Recorded(recorded))
    ensures |peerIds| <= count
  {
    count, peerIds := 0, {};
    for i := 0 to |recorded|
      invariant count == |Recorded(recorded[..i])|
      invariant peerIds == IdSet(Recorded(recorded[..i]))
      invariant |peerIds| <= count
    {
      assert recorded[..i + 1][..i] == recorded[..i];
      if recorded[i].Some? {
        ghost var before := Recorded(recorded[..i]);
        assert Recorded(recorded[..i + 1]) == before + [recorded[i].value];
        count := count + 1;
        peerIds := peerIds + {recorded[i].value};
        assert forall id :: id in before + [recorded[i].value] <==> id in before || id == recorded[i].value;
      }
    }
    assert recorded[..|recorded|] == recorded;
  }

  function Recorded(recorded: seq<Option<string>>): seq<string> {
    if recorded == [] then []
    else
      var n := |recorded| - 1;
      if recorded[n].Some? then Recorded(recorded[..n]) + [recorded[n].value] else Recorded(recorded[..n])
  }

  function IdSet(ids: seq<string>): set<string> {
    set id | id in ids
  }

  /** peers_found: distinct instances seen by either pass. */
  function PeersFound(multicastIds: set<string>, sweep: SweepTotals): nat {
    |multicastIds + sweep.peerIds|
  }

  lemma {:induction false} FewerIdsThanAnswers(answer: Answer, targets: seq<Target>)
    ensures |AnsweredIds(answer, targets)| <= Answered(answer, targets)
  {
    hide AnsweredIds;
    if targets == [] {
      assert AnsweredIds(answer, []) == {} by { NoIds(answer); }
    } else {
      var n := |targets| - 1;
      FewerIdsThanAnswers(answer, targets[..n]);
      AnsweredIdsSnoc(answer, targets[..n], targets[n]);
      assert targets == targets[..n] + [targets[n]];
    }
  }

  lemma NoIds(answer: Answer)
    ensures AnsweredIds(answer, []) == {}
  {
  }

  lemma UnionSize(a: set<string>, b: set<string>)
    ensures |a + b| <= |a| + |b|
  {
    assert a + b == a + (b - a);
    assert |a + (b - a)| == |a| + |b - a|;
    SubsetSize(b - a, b);
  }

  lemma SubsetSize(a: set<string>, b: set<string>)
    requires a <= b
    ensures |a| <= |b|
  {
    assert b == a + (b - a);
    assert |a + (b - a)| == |a| + |b - a|;
  }

  /** However the probes are scheduled, the number of peers found is the number of
      distinct ids either pass recorded, and never more than observations and
      responses together. */
  lemma ScanFindsPeers(
    answer: Answer, targets: seq<Target>, workerCount: nat, schedule: seq<nat>, end: State,
    observations: nat, multicastIds: set<string>)
    requires workerCount > 0 && Runs(answer, Begin(targets, workerCount), schedule, end) && Over(end)
    requires |multicastIds| <= observations
    ensures var totals := SweepTotals(|targets|, Responses(end.workers), PeerIds(end.workers));
      && PeersFound(multicastIds, totals) == |multicastIds + AnsweredIds(answer, targets)|
      && PeersFound(multicastIds, totals) <= observations + totals.probedResponses
      && totals.probedResponses <= totals.probedAddresses
  {
    hide Runs, Responses, PeerIds, AnsweredIds;
    SweepResult(answer, targets, workerCount, schedule, end);
    FewerIdsThanAnswers(answer, targets);
    UnionSize(multicastIds, AnsweredIds(answer, targets));
    AnsweredAtMost(answer, targets);
  }

  lemma {:induction false} AnsweredAtMost(answer: Answer, targets: seq<Target>)
    ensures Answered(answer, targets) <= |targets|
  {
    if targets != [] {
      AnsweredAtMost(answer, targets[..|targets| - 1]);
    }
  }

  // ----- what the counts count -----

  /** What a probed identity is taken for: the local one, a peer known already, or a
      new one, which is known from then on. */
  lemma ObservedExactly(known: set<string>, local: Identity, identity: Identity)
    ensures var (o, known') := Observe(known, local, identity);
      && (o.IgnoredSelf? <==> identity == local)
      && (o.Updated? <==> identity != local && PeerId(identity) in known)
      && (o.Discovered? <==> identity != local && PeerId(identity) !in known)
      && (forall id :: id in known' <==> id in known || (identity != local && id == PeerId(identity)))
      && (!o.IgnoredSelf? ==> o.peerId == PeerId(identity))
  {
    hide PeerId;
  }

  /** The ids recorded are those of the observations that have one, each as often as
      it occurs. */
  lemma {:induction false} RecordedExactly(recorded: seq<Option<string>>, id: string)
    ensures multiset(Recorded(recorded))[id] == multiset(recorded)[Some(id)]
    ensures |Recorded(recorded)| + multiset(recorded)[None] == |recorded|
  {
    if recorded != [] {
      var n := |recorded| - 1;
      RecordedExactly(recorded[..n], id);
      assert recorded == recorded[..n] + [recorded[n]];
    }
  }
}
