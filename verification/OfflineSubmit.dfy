/** Submitting a change with its durable queue entry
    (crates/ham-client/src/serve.rs:4352-4421). The machine may stop after any write;
    what is on disk is then the state after that write. */
module OfflineSubmit {
  import opened Basics
  import opened Text
  import opened Event
  import opened Chain
  import opened OfflineQueue
  import opened QueueStore

  /** What is on disk: the queue file and the official log. */
  datatype Disk = Disk(file: QueueFile, log: seq<Envelope>)

  /** One call of submit_offline_tracked_proposal. `input` names its operation id and
      idempotency key; `verdict` is what the domain checks make of the proposal: the
      event to append, or the reason to refuse it. */
  datatype Submission = Submission(input: Input, operationId: Uuid, verdict: Result<NewEvent, string>, eventId: Uuid, now: int)

  /** A submission names its operation before it is queued. */
  predicate WellFormed(s: Submission) {
    s.input.operationId == Some(s.operationId)
  }

  function Queued(d: Disk, s: Submission): Enqueued {
    Enqueue(d.file, s.input, s.operationId, "", s.now)
  }

  /** The entry a submission is tracked by: its own, or an earlier one it matched. */
  function EntryId(d: Disk, s: Submission): Uuid {
    if Queued(d, s).result.Some? then Queued(d, s).result.value.operationId else s.operationId
  }

  function EventOf(h: HashFunction, log: seq<Envelope>, input: NewEvent, eventId: Uuid, now: int): Envelope {
    FromNew(h, input, Head(log), eventId, now)
  }

  /** The disk after each write of one submission, in order: the queue entry, then
      the event, then its hash in the entry; or the entry, then the refusal. */
  function Writes(h: HashFunction, d: Disk, s: Submission): seq<Disk> {
    var queued := Queued(d, s);
    if queued.result.None? then []
    else
      var id := queued.result.value.operationId;
      var entered := Disk(queued.file, d.log);
      match s.verdict
      case Err(reason) =>
        [entered, entered.(file := Update(queued.file, id, ToUserAction(reason, Some("domain_validation_failed")), s.now))]
      case Ok(input) =>
        var e := EventOf(h, d.log, input, s.eventId, s.now);
        var appended := entered.(log := d.log + [e]);
        [entered, appended, appended.(file := Update(queued.file, id, ToLocalEvent(e), s.now))]
  }

  /** The disk when the machine stops after so many writes. */
  function AfterWrites(h: HashFunction, d: Disk, s: Submission, writes: nat): Disk {
    var all := Writes(h, d, s);
    if writes == 0 || all == [] then d
    else if writes > |all| then all[|all| - 1] else all[writes - 1]
  }

  /** A submission and the write it got to. */
  datatype Call = Call(submission: Submission, writes: nat)

  function AfterCalls(h: HashFunction, d: Disk, calls: seq<Call>): Disk {
    if calls == [] then d
    else
      var n := |calls| - 1;
      AfterWrites(h, AfterCalls(h, d, calls[..n]), calls[n].submission, calls[n].writes)
  }

  /** An operation has an entry in the queue. */
  predicate Entered(file: QueueFile, id: Uuid) {
    exists i :: 0 <= i < |file.mutations| && file.mutations[i].operationId == id
  }

  /** The events a run of calls appended, each with the entry that tracks it. */
  function Appended(h: HashFunction, d: Disk, calls: seq<Call>): seq<(Uuid, Envelope)> {
    if calls == [] then []
    else
      var n := |calls| - 1;
      var before := AfterCalls(h, d, calls[..n]);
      var after := AfterCalls(h, d, calls);
      var earlier := Appended(h, d, calls[..n]);
      if |after.log| > |before.log| then earlier + [(EntryId(before, calls[n].submission), after.log[|before.log|])] else earlier
  }

  lemma EnqueueEnters(file: QueueFile, input: Input, newId: Uuid, newKey: string, now: int)
    requires input.operationId.Some?
    ensures var r := Enqueue(file, input, newId, newKey, now);
      && (forall id :: Entered(file, id) ==> Entered(r.file, id))
      && (r.result.Some? ==> Entered(r.file, r.result.value.operationId))
  {
    hide MutationValid, NextSequence;
    var r := Enqueue(file, input, newId, newKey, now);
    forall id | Entered(file, id) ensures Entered(r.file, id) {
      var i :| 0 <= i < |file.mutations| && file.mutations[i].operationId == id;
      assert r.file.mutations[i].operationId == id;
    }
    if r.result.Some? {
      if r.file == file {
        var i :| 0 <= i < |file.mutations| && file.mutations[i] == r.result.value;
      } else {
        assert r.file.mutations[|file.mutations|] == r.result.value;
      }
    }
  }

  lemma RefusedEntryChangesNothing(d: Disk, s: Submission)
    requires Queued(d, s).result.None?
    ensures Queued(d, s).file == d.file
  {
  }

  lemma UpdateEnters(file: QueueFile, id: Uuid, c: Change, now: int, other: Uuid)
    requires Entered(file, other)
    ensures Entered(Update(file, id, c, now), other)
  {
    var i :| 0 <= i < |file.mutations| && file.mutations[i].operationId == other;
    assert Update(file, id, c, now).mutations[i].operationId == other;
  }

  /** Every state a submission passes through: entries only come to be, the log grows
      by the verdict's event at most, and whenever it has grown the entry is there. */
  lemma EntryComesFirst(h: HashFunction, d: Disk, s: Submission, writes: nat)
    requires WellFormed(s)
    ensures var after := AfterWrites(h, d, s, writes);
      && (forall id :: Entered(d.file, id) ==> Entered(after.file, id))
      && (after.log == d.log ||
            (s.verdict.Ok? && after.log == d.log + [EventOf(h, d.log, s.verdict.value, s.eventId, s.now)] && Entered(after.file, EntryId(d, s))))
  {
    hide Update, Enqueue, Entered, EventOf;
    var queued := Queued(d, s);
    EnqueueEnters(d.file, s.input, s.operationId, "", s.now);
    var after := AfterWrites(h, d, s, writes);
    if queued.result.Some? && writes > 0 {
      var id := queued.result.value.operationId;
      forall other | Entered(queued.file, other) ensures Entered(after.file, other) {
        match s.verdict {
          case Err(reason) => UpdateEnters(queued.file, id, ToUserAction(reason, Some("domain_validation_failed")), s.now, other);
          case Ok(input) => UpdateEnters(queued.file, id, ToLocalEvent(EventOf(h, d.log, input, s.eventId, s.now)), s.now, other);
        }
      }
    }
  }

  function Events(tracked: seq<(Uuid, Envelope)>): seq<Envelope> {
    if tracked == [] then [] else Events(tracked[..|tracked| - 1]) + [tracked[|tracked| - 1].1]
  }

  lemma EventsSnoc(tracked: seq<(Uuid, Envelope)>, pair: (Uuid, Envelope))
    ensures Events(tracked + [pair]) == Events(tracked) + [pair.1]
  {
    assert (tracked + [pair])[..|tracked|] == tracked;
  }

  lemma {:induction false} LogGrowsByTracked(h: HashFunction, d: Disk, calls: seq<Call>)
    requires forall i :: 0 <= i < |calls| ==> WellFormed(calls[i].submission)
    ensures AfterCalls(h, d, calls).log == d.log + Events(Appended(h, d, calls))
  {
    hide AfterWrites, Entered, EntryId, EventOf, WellFormed;
    if calls == [] {
      assert d.log + [] == d.log;
    } else {
      var n := |calls| - 1;
      LogGrowsByTracked(h, d, calls[..n]);
      var before := AfterCalls(h, d, calls[..n]);
      var earlier := Appended(h, d, calls[..n]);
      EntryComesFirst(h, before, calls[n].submission, calls[n].writes);
      var after := AfterCalls(h, d, calls);
      if |after.log| > |before.log| {
        var pair := (EntryId(before, calls[n].submission), after.log[|before.log|]);
        EventsSnoc(earlier, pair);
        ConcatAssociates(d.log, Events(earlier), [pair.1]);
      }
    }
  }

  /** Over any run of submissions, each stopped after any number of its writes: the
      log grows by exactly the tracked events, in order, and every one of them has its
      entry in the queue file. */
  lemma {:induction false} EveryEventHasEntry(h: HashFunction, d: Disk, calls: seq<Call>)
    requires forall i :: 0 <= i < |calls| ==> WellFormed(calls[i].submission)
    ensures var end := AfterCalls(h, d, calls); var tracked := Appended(h, d, calls);
      && end.log == d.log + Events(tracked)
      && (forall id :: Entered(d.file, id) ==> Entered(end.file, id))
      && (forall i :: 0 <= i < |tracked| ==> Entered(end.file, tracked[i].0))
  {
    hide AfterWrites, Entered, EntryId, EventOf, Events, WellFormed;
    LogGrowsByTracked(h, d, calls);
    if calls != [] {
      var n := |calls| - 1;
      EveryEventHasEntry(h, d, calls[..n]);
      EntryComesFirst(h, AfterCalls(h, d, calls[..n]), calls[n].submission, calls[n].writes);
    }
  }

  /** What a submission that runs to its end leaves in the entry that tracks it: a
      refused proposal waits for the operator with the domain's reason and no event; an
      accepted one names the event appended, chained to the log's head, and is neither
      held back nor refused. */
  lemma SubmissionLeaves(h: HashFunction, d: Disk, s: Submission, i: nat)
    requires Queued(d, s).result.Some? && DistinctOperations(Queued(d, s).file.mutations)
    requires i < |Queued(d, s).file.mutations| && Queued(d, s).file.mutations[i].operationId == EntryId(d, s)
    ensures var end := AfterWrites(h, d, s, 3);
      && |end.file.mutations| == |Queued(d, s).file.mutations|
      && var m := end.file.mutations[i];
         match s.verdict
         case Err(reason) =>
           && end.log == d.log && m.status == UserActionRequired && m.nextAttemptAt.None?
           && m.failureReason == Some(reason) && m.lastErrorCode == Some("domain_validation_failed")
         case Ok(input) =>
           && |end.log| == |d.log| + 1 && IsPrefix(d.log, end.log)
           && var e := end.log[|d.log|];
              && e.eventId == s.eventId && e.previousHash == Head(d.log)
              && m.officialEventId == Some(e.eventId) && m.localEventHash == Some(e.eventHash)
              && m.status in {Pending, Sending, Retrying, Accepted}
  {
    var file := Queued(d, s).file;
    OnlyOne(file.mutations, i);
    hide Queued, DistinctOperations, FindOperation;
    var all := Writes(h, d, s);
    assert AfterWrites(h, d, s, 3) == all[|all| - 1];
  }

  lemma OnlyOne(mutations: seq<Mutation>, i: nat)
    requires DistinctOperations(mutations) && i < |mutations|
    ensures FindOperation(mutations, mutations[i].operationId) == Some(i)
  {
  }

  /** The same call as the source writes it: queue first, and nothing else if that
      fails. `disks` records the disk after each write; a stop leaves one of them. */
  method SubmitOfflineTracked(queue: JsonOfflineMutationQueue, h: HashFunction, log: seq<Envelope>, s: Submission)
    returns (log': seq<Envelope>, r: Result<Envelope, string>, ghost disks: seq<Disk>)
    requires WellFormed(s)
    modifies queue
    ensures disks == Writes(h, Disk(old(queue.file), log), s)
    ensures Disk(queue.file, log') == AfterWrites(h, Disk(old(queue.file), log), s, |disks|)
    ensures r.Ok? <==> s.verdict.Ok? && Queued(Disk(old(queue.file), log), s).result.Some?
    ensures r.Ok? ==> log' == log + [r.value]
  {
    hide Enqueue, Update;
    log', disks := log, [];
    var queued := queue.EnqueueInput(s.input, s.operationId, "", s.now);
    if queued.None? {
      RefusedEntryChangesNothing(Disk(old(queue.file), log), s);
      return log, Err("failed to persist offline mutation before submit"), [];
    }
    disks := disks + [Disk(queue.file, log')];
    match s.verdict {
      case Ok(input) =>
        var e := EventOf(h, log, input, s.eventId, s.now);
        log' := log + [e];
        disks := disks + [Disk(queue.file, log')];
        var _ := queue.UpdateMutation(queued.value.operationId, ToLocalEvent(e), s.now);
        r := Ok(e);
      case Err(reason) =>
        var _ := queue.UpdateMutation(queued.value.operationId, ToUserAction(reason, Some("domain_validation_failed")), s.now);
        r := Err(reason);
    }
    disks := disks + [Disk(queue.file, log')];
  }
}
