/** Runs of any number of replicas that append locally, export backups, import
    any backup file whatever its content, and pull from each other, where an
    import or a pull may be cut short after any number of events. */
module Replicas {
  import opened Basics
  import opened Event
  import opened Chain
  import opened StoreSpec
  import opened Store
  import opened Backup
  import opened Replication

  datatype System = System(replicas: seq<StoreState>, files: seq<BackupFile>)

  datatype Step =
    | Append(input: NewEvent, eventId: Uuid, now: int)
    | Save
    | Plant(foreign: BackupFile)
    | Import(file: nat, cut: nat)
    | Pull(peer: nat, cut: nat)

  /** How replica r may leave state s for state t. */
  ghost predicate Moves(h: HashFunction, logbook: Uuid, sys: System, r: nat, step: Step, t: StoreState)
    requires r < |sys.replicas|
  {
    var s := sys.replicas[r];
    match step
    case Append(input, eventId, now) =>
      eventId !in s.byId && t == LocalAppend(h, s, input, eventId, now)
    case Save => t == s
    case Plant(_) => t == s
    case Import(file, cut) =>
      file < |sys.files| && DryRunOk(h, sys.files[file], logbook, s.Log(logbook)) &&
      var tail := sys.files[file].events.value[|s.Log(logbook)|..];
      cut <= |tail| && t == ImportTail(h, s, tail[..cut]).state
    case Pull(peer, cut) =>
      peer < |sys.replicas| &&
      exists missing ::
        Selects(sys.replicas[peer].Log(logbook), s.HeadOf(logbook), Some(missing)) &&
        IncomingOk(h, logbook, s.HeadOf(logbook), missing) &&
        cut <= |missing| && t == ImportTail(h, s, missing[..cut]).state
  }

  ghost predicate Next(h: HashFunction, logbook: Uuid, a: System, r: nat, step: Step, b: System) {
    && r < |a.replicas|
    && |b.replicas| == |a.replicas|
    && Moves(h, logbook, a, r, step, b.replicas[r])
    && b.replicas == a.replicas[r := b.replicas[r]]
    && b.files ==
       match step
       case Save => a.files + [Export(a.replicas[r], logbook)]
       case Plant(foreign) => a.files + [foreign]
       case _ => a.files
  }

  datatype Taken = Taken(replica: nat, step: Step)

  /** A run: the systems passed through and the step taken at each. */
  ghost predicate Run(h: HashFunction, logbook: Uuid, run: seq<System>, taken: seq<Taken>) {
    && |run| == |taken| + 1
    && (forall i {:trigger taken[i]} :: 0 <= i < |taken| ==> Next(h, logbook, run[i], taken[i].replica, taken[i].step, run[i + 1]))
  }

  ghost predicate AllValid(h: HashFunction, sys: System) {
    forall r :: 0 <= r < |sys.replicas| ==> Valid(h, sys.replicas[r])
  }

  lemma MoveExtends(h: HashFunction, logbook: Uuid, sys: System, r: nat, step: Step, t: StoreState, lb: Uuid)
    requires AllValid(h, sys) && r < |sys.replicas| && Moves(h, logbook, sys, r, step, t)
    ensures Valid(h, t) && IsPrefix(sys.replicas[r].Log(lb), t.Log(lb))
  {
    hide Valid, ImportTail;
    var s := sys.replicas[r];
    match step
    case Append(input, eventId, now) => LocalAppendValid(h, s, input, eventId, now);
    case Import(file, cut) =>
      ImportKeepsValid(h, s, lb, sys.files[file].events.value[|s.Log(logbook)|..][..cut]);
    case Pull(peer, cut) =>
      var missing :| Selects(sys.replicas[peer].Log(logbook), s.HeadOf(logbook), Some(missing)) &&
        IncomingOk(h, logbook, s.HeadOf(logbook), missing) &&
        cut <= |missing| && t == ImportTail(h, s, missing[..cut]).state;
      ImportKeepsValid(h, s, lb, missing[..cut]);
    case _ =>
  }

  lemma NextExtends(h: HashFunction, logbook: Uuid, a: System, q: nat, step: Step, b: System, r: nat, lb: Uuid)
    requires AllValid(h, a) && Next(h, logbook, a, q, step, b) && r < |a.replicas|
    ensures AllValid(h, b) && |b.replicas| == |a.replicas|
    ensures IsPrefix(a.replicas[r].Log(lb), b.replicas[r].Log(lb))
  {
    hide Valid, ImportTail;
    MoveExtends(h, logbook, a, q, step, b.replicas[q], lb);
  }

  /** Over every run, every log of every replica is a valid chain and only ever
      grows as an extension of its earlier self. */
  lemma {:induction false} LogsOnlyGrow(h: HashFunction, logbook: Uuid, run: seq<System>, taken: seq<Taken>, i: nat, j: nat, r: nat, lb: Uuid)
    requires Run(h, logbook, run, taken) && i <= j < |run|
    requires AllValid(h, run[i]) && r < |run[i].replicas|
    ensures AllValid(h, run[j]) && |run[j].replicas| == |run[i].replicas|
    ensures ValidChain(h, run[j].replicas[r].Log(lb))
    ensures IsPrefix(run[i].replicas[r].Log(lb), run[j].replicas[r].Log(lb))
    decreases j - i
  {
    hide Valid, ImportTail, Moves, ValidChain;
    if i < j {
      LogsOnlyGrow(h, logbook, run, taken, i, j - 1, r, lb);
      NextExtends(h, logbook, run[j - 1], taken[j - 1].replica, taken[j - 1].step, run[j], r, lb);
      PrefixTransitive(run[i].replicas[r].Log(lb), run[j - 1].replicas[r].Log(lb), run[j].replicas[r].Log(lb));
    }
    ValidLog(h, run[j].replicas[r], lb);
  }

  // ----- one writer -----

  /** No foreign file appears and only replica 0 writes to the logbook. */
  ghost predicate OneWriter(logbook: Uuid, taken: seq<Taken>) {
    forall i {:trigger taken[i]} :: 0 <= i < |taken| ==>
      !taken[i].step.Plant? &&
      (taken[i].step.Append? && taken[i].step.input.logbookId == logbook ==> taken[i].replica == 0)
  }

  /** Every copy, in a store or in a file, is a prefix of the writer's log. */
  ghost predicate CopiesArePrefixes(h: HashFunction, logbook: Uuid, sys: System) {
    && |sys.replicas| > 0 && AllValid(h, sys)
    && (forall r :: 0 <= r < |sys.replicas| ==> IsPrefix(sys.replicas[r].Log(logbook), sys.replicas[0].Log(logbook)))
    && (forall f :: 0 <= f < |sys.files| ==>
         sys.files[f].events.Ok? && IsPrefix(sys.files[f].events.value, sys.replicas[0].Log(logbook)))
  }

  /** Ids are distinct along a chain, so the next event cannot be stored already. */
  lemma NextIsUnknown(h: HashFunction, s: StoreState, logbook: Uuid, events: seq<Envelope>, n: nat)
    requires Valid(h, s) && DistinctIds(events) && n < |events| && s.Log(logbook) == events[..n]
    requires events[n].logbookId == logbook
    ensures !s.Knows(events[n])
  {
    forall i | 0 <= i < n ensures s.Log(logbook)[i] != events[n] {
      assert events[i].eventId != events[n].eventId;
    }
    if s.Knows(events[n]) {
      KnownIsLogged(s, events[n]);
    }
  }

  /** Importing into a prefix of a chain of this logbook leaves a prefix of it,
      even when some event is refused. */
  lemma {:induction false} ImportStaysPrefix(h: HashFunction, s: StoreState, logbook: Uuid, events: seq<Envelope>, n: nat, cut: nat)
    requires Valid(h, s) && ValidChain(h, events) && n + cut <= |events| && s.Log(logbook) == events[..n]
    requires forall i :: 0 <= i < |events| ==> events[i].logbookId == logbook
    ensures IsPrefix(ImportTail(h, s, events[n..][..cut]).state.Log(logbook), events)
    decreases cut
  {
    hide Valid, RemoteAppend, Unsupported, Linked;
    if cut > 0 {
      var e := events[n];
      assert events[n..][..cut][0] == e && events[n..][..cut][1..] == events[n + 1..][..cut - 1];
      NextIsUnknown(h, s, logbook, events, n);
      if RemoteVerdict(h, s, e).Append? {
        RemoteAppendValid(h, s, e);
        var s1 := RemoteAppend(h, s, e);
        assert s1.Log(logbook) == events[..n + 1];
        ImportStaysPrefix(h, s1, logbook, events, n + 1, cut - 1);
      }
    } else {
      assert events[n..][..cut] == [];
    }
  }

  lemma LogOfOneLogbook(h: HashFunction, s: StoreState, logbook: Uuid)
    requires Valid(h, s)
    ensures forall i :: 0 <= i < |s.Log(logbook)| ==> s.Log(logbook)[i].logbookId == logbook
  {
    LogHolds(s, logbook);
  }

  /** Importing any prefix of the writer's log into a prefix of it. */
  lemma CopyIntoPrefix(h: HashFunction, s: StoreState, logbook: Uuid, writer: seq<Envelope>, source: seq<Envelope>, cut: nat)
    requires Valid(h, s) && ValidChain(h, writer) && IsPrefix(source, writer) && IsPrefix(s.Log(logbook), source)
    requires forall i :: 0 <= i < |writer| ==> writer[i].logbookId == logbook
    requires cut <= |source| - |s.Log(logbook)|
    ensures IsPrefix(ImportTail(h, s, source[|s.Log(logbook)|..][..cut]).state.Log(logbook), writer)
  {
    hide Valid, ImportTail;
    var n := |s.Log(logbook)|;
    PrefixTransitive(s.Log(logbook), source, writer);
    assert source[n..][..cut] == writer[n..][..cut];
    ImportStaysPrefix(h, s, logbook, writer, n, cut);
  }

  lemma PullIntoPrefix(h: HashFunction, s: StoreState, logbook: Uuid, writer: seq<Envelope>, source: seq<Envelope>, missing: seq<Envelope>, cut: nat)
    requires Valid(h, s) && ValidChain(h, writer) && CollisionFree(h, Members(writer, writer))
    requires IsPrefix(source, writer) && IsPrefix(s.Log(logbook), writer)
    requires forall i :: 0 <= i < |writer| ==> writer[i].logbookId == logbook
    requires Selects(source, s.HeadOf(logbook), Some(missing)) && cut <= |missing|
    ensures IsPrefix(ImportTail(h, s, missing[..cut]).state.Log(logbook), writer)
  {
    hide Valid, ImportTail;
    LinkedPrefix(h, writer, |source|);
    assert forall e :: e in Members(s.Log(logbook), source) ==> e in Members(writer, writer);
    PullDecision(h, s, logbook, source, Some(missing));
    CopyIntoPrefix(h, s, logbook, writer, source, cut);
  }

  lemma OneWriterMove(h: HashFunction, logbook: Uuid, a: System, r: nat, step: Step, t: StoreState)
    requires CopiesArePrefixes(h, logbook, a) && r < |a.replicas| && Moves(h, logbook, a, r, step, t)
    requires !(step.Append? && step.input.logbookId == logbook)
    requires CollisionFree(h, Members(a.replicas[0].Log(logbook), a.replicas[0].Log(logbook)))
    ensures IsPrefix(t.Log(logbook), a.replicas[0].Log(logbook))
  {
    hide Valid, ImportTail;
    var s, writer := a.replicas[r], a.replicas[0].Log(logbook);
    assert Valid(h, s) && Valid(h, a.replicas[0]) && IsPrefix(s.Log(logbook), writer);
    LogOfOneLogbook(h, a.replicas[0], logbook);
    ValidLog(h, a.replicas[0], logbook);
    match step
    case Append(input, eventId, now) =>
      LocalAppendValid(h, s, input, eventId, now);
    case Import(file, cut) =>
      CopyIntoPrefix(h, s, logbook, writer, a.files[file].events.value, cut);
    case Pull(peer, cut) =>
      var missing :| Selects(a.replicas[peer].Log(logbook), s.HeadOf(logbook), Some(missing)) &&
        IncomingOk(h, logbook, s.HeadOf(logbook), missing) &&
        cut <= |missing| && t == ImportTail(h, s, missing[..cut]).state;
      PullIntoPrefix(h, s, logbook, writer, a.replicas[peer].Log(logbook), missing, cut);
    case _ =>
  }

  lemma FewerCollisions(h: HashFunction, small: seq<Envelope>, big: seq<Envelope>)
    requires IsPrefix(small, big) && CollisionFree(h, Members(big, big))
    ensures CollisionFree(h, Members(small, small))
  {
    assert forall e :: e in Members(small, small) ==> e in Members(big, big);
  }

  lemma OneWriterReplica(h: HashFunction, logbook: Uuid, a: System, r: nat, step: Step, b: System, q: nat)
    requires CopiesArePrefixes(h, logbook, a) && Next(h, logbook, a, r, step, b) && q < |a.replicas|
    requires step.Append? && step.input.logbookId == logbook ==> r == 0
    requires CollisionFree(h, Members(b.replicas[0].Log(logbook), b.replicas[0].Log(logbook)))
    ensures IsPrefix(b.replicas[q].Log(logbook), b.replicas[0].Log(logbook))
  {
    hide Valid, ImportTail;
    NextExtends(h, logbook, a, r, step, b, 0, logbook);
    var before, after := a.replicas[0].Log(logbook), b.replicas[0].Log(logbook);
    if q != 0 {
      if q == r {
        FewerCollisions(h, before, after);
        OneWriterMove(h, logbook, a, r, step, b.replicas[r]);
      } else {
        assert b.replicas[q] == a.replicas[q];
      }
      PrefixTransitive(b.replicas[q].Log(logbook), before, after);
    }
  }

  lemma OneWriterFile(h: HashFunction, logbook: Uuid, a: System, r: nat, step: Step, b: System, f: nat)
    requires CopiesArePrefixes(h, logbook, a) && Next(h, logbook, a, r, step, b) && f < |b.files|
    requires !step.Plant?
    ensures b.files[f].events.Ok? && IsPrefix(b.files[f].events.value, b.replicas[0].Log(logbook))
  {
    hide Valid, ImportTail;
    NextExtends(h, logbook, a, r, step, b, 0, logbook);
    var before, after := a.replicas[0].Log(logbook), b.replicas[0].Log(logbook);
    if f < |a.files| {
      assert b.files[f] == a.files[f];
      PrefixTransitive(a.files[f].events.value, before, after);
    } else {
      PrefixTransitive(a.replicas[r].Log(logbook), before, after);
    }
  }

  lemma OneWriterStep(h: HashFunction, logbook: Uuid, a: System, r: nat, step: Step, b: System)
    requires CopiesArePrefixes(h, logbook, a) && Next(h, logbook, a, r, step, b)
    requires !step.Plant? && (step.Append? && step.input.logbookId == logbook ==> r == 0)
    requires CollisionFree(h, Members(b.replicas[0].Log(logbook), b.replicas[0].Log(logbook)))
    ensures CopiesArePrefixes(h, logbook, b)
  {
    hide Valid, ImportTail;
    NextExtends(h, logbook, a, r, step, b, 0, logbook);
    forall q | 0 <= q < |b.replicas| ensures IsPrefix(b.replicas[q].Log(logbook), b.replicas[0].Log(logbook)) {
      OneWriterReplica(h, logbook, a, r, step, b, q);
    }
    forall f | 0 <= f < |b.files| ensures b.files[f].events.Ok? && IsPrefix(b.files[f].events.value, b.replicas[0].Log(logbook)) {
      OneWriterFile(h, logbook, a, r, step, b, f);
    }
  }

  /** With a single writer, replication never forks: at every moment of every run
      every replica and every backup file holds a prefix of the writer's log,
      whatever is cut short, lost or repeated. */
  lemma {:induction false} SingleWriterNeverForks(h: HashFunction, logbook: Uuid, run: seq<System>, taken: seq<Taken>, j: nat)
    requires Run(h, logbook, run, taken) && OneWriter(logbook, taken) && j < |run|
    requires |run[0].replicas| > 0 && run[0].files == [] && forall r :: 0 <= r < |run[0].replicas| ==> run[0].replicas[r] == EMPTY
    requires |run[|run| - 1].replicas| > 0
    requires var log := run[|run| - 1].replicas[0].Log(logbook); CollisionFree(h, Members(log, log))
    ensures CopiesArePrefixes(h, logbook, run[j])
  {
    hide Valid, ImportTail;
    EmptyValid(h);
    if j > 0 {
      SingleWriterNeverForks(h, logbook, run, taken, j - 1);
      assert CopiesArePrefixes(h, logbook, run[j - 1]);
      NextExtends(h, logbook, run[j - 1], taken[j - 1].replica, taken[j - 1].step, run[j], 0, logbook);
      LogsOnlyGrow(h, logbook, run, taken, j, |run| - 1, 0, logbook);
      var now, last := run[j].replicas[0].Log(logbook), run[|run| - 1].replicas[0].Log(logbook);
      FewerCollisions(h, now, last);
      OneWriterStep(h, logbook, run[j - 1], taken[j - 1].replica, taken[j - 1].step, run[j]);
    }
  }
}
