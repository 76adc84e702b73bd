/** Draining the offline queue to the cloud server
    (crates/ham-client/src/serve.rs:7388-7613) and what the server does with a push
    (crates/ham-core/src/sync/mod.rs:741-752 and 1234-1297). Runtime messages are not
    part of this model. */
module CloudPush {
  import opened Basics
  import opened Text
  import opened Event
  import opened PushErrors
  import opened StoreSpec
  import opened Store
  import opened OfflineQueue
  import opened QueueDrain
  import opened QueueStore
  import UuidText

  // ----- the server -----

  datatype Pushed = Pushed(state: StoreState, accepted: nat, ignored: nat, fault: Option<(Envelope, StoreError)>)

  /** What pushing one event does: None to go on, or the error that ends the push. */
  function PushFault(h: HashFunction, s: StoreState, e: Envelope): Option<StoreError> {
    if Unsupported(h, e).Some? then Unsupported(h, e)
    else if e.eventId in s.byId then if s.byId[e.eventId] == e then None else Some(DuplicateEventConflict)
    else if e.previousHash != s.HeadOf(e.logbookId) then Some(RemotePreviousHashMismatch)
    else None
  }

  /** A push stops at exactly the events a remote append refuses, for the same
      reason. */
  lemma FaultIsRefusal(h: HashFunction, s: StoreState, e: Envelope)
    ensures PushFault(h, s, e) == match MemoryVerdict(h, s, e) case Refuse(error) => Some(error) case _ => None
  {
  }

  /** The loop of push_events over the first events of a request. */
  function PushAll(h: HashFunction, s: StoreState, events: seq<Envelope>): Pushed {
    if events == [] then Pushed(s, 0, 0, None)
    else
      var n := |events| - 1;
      var before := PushAll(h, s, events[..n]);
      if before.fault.Some? then before
      else
        var e := events[n];
        match PushFault(h, before.state, e)
        case Some(error) => before.(fault := Some((e, error)))
        case None =>
          if before.state.Knows(e) then before.(ignored := before.ignored + 1)
          else before.(state := before.state.Insert(e), accepted := before.accepted + 1)
  }

  datatype PushReply = PushReply(diverged: bool, accepted: nat, ignored: nat, errors: seq<string>)

  /** push_replication_status looks at the text of the error alone. */
  function Reply(p: Pushed, debug: Debug): PushReply {
    match p.fault
    case None => PushReply(false, p.accepted, p.ignored, [])
    case Some((e, error)) =>
      var text := FaultText(debug, p.state.HeadOf(e.logbookId), e, error);
      PushReply(Diverging(text), p.accepted, p.ignored, [text])
  }

  /** A push is answered as diverged exactly when it ended at an event that does not
      continue the server's head, or at one of an unsupported type whose name reads
      like that error. */
  lemma DivergedExactly(h: HashFunction, s: StoreState, events: seq<Envelope>, debug: Debug)
    ensures var p := PushAll(h, s, events);
      Reply(p, debug).diverged <==>
      p.fault.Some? &&
      (p.fault.value.1.RemotePreviousHashMismatch? ||
       (p.fault.value.1.UnsupportedEventType? && Diverging(p.fault.value.0.eventType)))
  {
    var p := PushAll(h, s, events);
    hide PushAll, Diverging, FaultText;
    if p.fault.Some? {
      var e, error := p.fault.value.0, p.fault.value.1;
      DivergingExactly(debug, p.state.HeadOf(e.logbookId), e, error);
    }
  }

  method PushEvents(server: InMemoryStore, debug: Debug, events: seq<Envelope>) returns (push: PushReply)
    modifies server
    ensures var p := PushAll(server.h, old(server.State()), events); server.State() == p.state && push == Reply(p, debug)
  {
    hide Diverging, Unsupported;
    var accepted, ignored := 0, 0;
    var errors: seq<string> := [];
    ghost var start := server.State();
    assert events[..0] == [];
    for i := 0 to |events|
      invariant PushAll(server.h, start, events[..i]) == Pushed(server.State(), accepted, ignored, None)
      invariant errors == []
    {
      assert events[..i + 1][..i] == events[..i];
      PushPrefix(server.h, start, events, i + 1);
      var e := events[i];
      var unsupported := Unsupported(server.h, e);
      if unsupported.Some? {
        errors := [FaultText(debug, server.State().HeadOf(e.logbookId), e, unsupported.value)];
        break;
      }
      if e.eventId in server.eventsById {
        if server.eventsById[e.eventId] == e {
          ignored := ignored + 1;
          continue;
        }
        errors := [FaultText(debug, server.State().HeadOf(e.logbookId), e, DuplicateEventConflict)];
        break;
      }
      var verdict := server.AppendVerifiedRemoteEvent(e);
      if verdict.Refuse? {
        errors := [FaultText(debug, server.State().HeadOf(e.logbookId), e, verdict.error)];
        break;
      }
      accepted := accepted + 1;
    }
    assert events[..|events|] == events;
    push := PushReply(errors != [] && Diverging(errors[0]), accepted, ignored, errors);
  }

  /** Once a push has failed, later events of the request do not matter. */
  lemma {:induction false} PushPrefix(h: HashFunction, s: StoreState, events: seq<Envelope>, k: nat)
    requires k <= |events|
    ensures PushAll(h, s, events[..k]).fault.Some? ==> PushAll(h, s, events) == PushAll(h, s, events[..k])
  {
    hide PushFault;
    if k < |events| {
      PushPrefix(h, s, events[..|events| - 1], k);
      assert events[..|events| - 1][..k] == events[..k];
    } else {
      assert events[..k] == events;
    }
  }

  /** Every event of an error-free push is stored, and a push keeps a store valid. */
  lemma {:induction false} PushedEventsStored(h: HashFunction, s: StoreState, events: seq<Envelope>)
    requires Valid(h, s)
    ensures var p := PushAll(h, s, events);
      && Valid(h, p.state)
      && (forall e :: s.Knows(e) ==> p.state.Knows(e))
      && (p.fault.None? ==> (forall e :: e in events ==> p.state.Knows(e)) && p.accepted + p.ignored == |events|)
  {
    hide Valid, Unsupported;
    if events != [] {
      var n := |events| - 1;
      PushedEventsStored(h, s, events[..n]);
      var before := PushAll(h, s, events[..n]);
      assert forall e :: e in events <==> e in events[..n] || e == events[n];
      if before.fault.None? && PushFault(h, before.state, events[n]).None? && !before.state.Knows(events[n]) {
        InsertSupported(h, before.state, events[n]);
      }
    }
  }

  lemma InsertSupported(h: HashFunction, s: StoreState, e: Envelope)
    requires Valid(h, s) && PushFault(h, s, e).None? && !s.Knows(e)
    ensures Valid(h, s.Insert(e)) && s.Insert(e).Knows(e)
    ensures forall x :: s.Knows(x) ==> s.Insert(e).Knows(x)
  {
    InsertValid(h, s, e);
    hide Valid;
  }

  // ----- the client -----

  datatype Mode = Manual | AutoDrainQueueOnly

  const NO_LOCAL_EVENT := ToUserAction("offline mutation has no matching local official event", Some("missing_local_official_event"))

  /** What a failed push makes of each operation of its batch. */
  function Settlement(reply: Result<PushReply, string>): Option<Change> {
    match reply
    case Err(error) => Some(ToTransientFailure(error, Some("cloud_push_failed")))
    case Ok(push) =>
      if push.errors == [] then None
      else if push.diverged then Some(ToBlocked(push.errors[0]))
      else Some(ToUserAction(push.errors[0], Some("cloud_push_rejected")))
  }

  function Hashes(events: seq<Envelope>): set<string> {
    set i | 0 <= i < |events| :: events[i].eventHash
  }

  /** What the queue makes of the server's answer. */
  function Settled(file: QueueFile, batch: Batch, reply: Result<PushReply, string>, now: int): QueueFile {
    match Settlement(reply)
    case None => file.(mutations := AcceptHashes(file.mutations, Hashes(batch.events), now))
    case Some(change) => UpdateAll(file, batch.operations, change, now)
  }

  datatype Attempt = Skipped(file: QueueFile) | Sent(file: QueueFile, batch: Batch, events: seq<Envelope>)

  /** Everything before the push: the batch, the operations left for the operator,
      and the events to send. */
  function Prepare(file: QueueFile, logbook: Uuid, allEvents: seq<Envelope>, mode: Mode, now: int): Attempt {
    var batch := BatchOf(Ready(file.mutations, logbook, now), allEvents);
    var reviewed := UpdateAll(file, batch.missing, NO_LOCAL_EVENT, now);
    if mode.AutoDrainQueueOnly? && batch.events == [] then Skipped(reviewed)
    else
      Sent(UpdateAll(reviewed, batch.operations, ToSending, now), batch, if batch.events == [] then allEvents else batch.events)
  }

  predicate OtherLogbook(events: seq<Envelope>, logbook: Uuid) {
    exists i :: 0 <= i < |events| && events[i].logbookId != logbook
  }

  function Unauthorized(logbook: Uuid): string {
    "unauthorized logbook access: " + UuidText.ShowUuid(logbook)
  }

  /** The server's answer to a push, and its store afterwards. `refusal` is an
      authorization or transport error; a request with an event of another logbook is
      refused whole. */
  function ServerAnswer(h: HashFunction, s: StoreState, debug: Debug, logbook: Uuid, events: seq<Envelope>, refusal: Option<string>)
    : (Result<PushReply, string>, StoreState)
  {
    if refusal.Some? then (Err(refusal.value), s)
    else if OtherLogbook(events, logbook) then (Err(Unauthorized(logbook)), s)
    else (Ok(Reply(PushAll(h, s, events), debug)), PushAll(h, s, events).state)
  }

  /** run_cloud_push: the events sent, if any. */
  method RunCloudPush(
    queue: JsonOfflineMutationQueue, server: InMemoryStore, debug: Debug,
    logbook: Uuid, allEvents: seq<Envelope>, mode: Mode, refusal: Option<string>, now: int)
    returns (sent: Option<seq<Envelope>>)
    modifies queue, server
    ensures match Prepare(old(queue.file), logbook, allEvents, mode, now)
      case Skipped(file) => queue.file == file && sent == None && server.State() == old(server.State())
      case Sent(file, batch, events) =>
        var answer := ServerAnswer(server.h, old(server.State()), debug, logbook, events, refusal);
        sent == Some(events) && queue.file == Settled(file, batch, answer.0, now) && server.State() == answer.1
  {
    hide PushAll, Update, Ready, Diverging;
    var batch := ReadyEventBatch(queue.file.mutations, logbook, allEvents, now);
    UpdateEach(queue, batch.missing, NO_LOCAL_EVENT, now);
    if mode.AutoDrainQueueOnly? && batch.events == [] {
      return None;
    }
    UpdateEach(queue, batch.operations, ToSending, now);
    var events := if batch.events == [] then allEvents else batch.events;
    sent := Some(events);
    if refusal.Some? || OtherLogbook(events, logbook) {
      var error := if refusal.Some? then refusal.value else Unauthorized(logbook);
      UpdateEach(queue, batch.operations, ToTransientFailure(error, Some("cloud_push_failed")), now);
      return;
    }
    var push := PushEvents(server, debug, events);
    if push.errors == [] {
      var _ := queue.MarkAcceptedByEventHashes(Hashes(batch.events), now);
    } else if push.diverged {
      UpdateEach(queue, batch.operations, ToBlocked(push.errors[0]), now);
    } else {
      UpdateEach(queue, batch.operations, ToUserAction(push.errors[0], Some("cloud_push_rejected")), now);
    }
  }

  // ----- what a completed push guarantees -----

  /** A mutation whose operation is in the batch has its own event in it. */
  lemma BatchHasEvent(file: QueueFile, logbook: Uuid, allEvents: seq<Envelope>, now: int, k: nat)
    requires DistinctOperations(file.mutations) && k < |file.mutations|
    requires var b := BatchOf(Ready(file.mutations, logbook, now), allEvents); file.mutations[k].operationId in b.operations
    ensures var b := BatchOf(Ready(file.mutations, logbook, now), allEvents);
      exists i :: 0 <= i < |b.events| && file.mutations[k].localEventHash == Some(b.events[i].eventHash)
  {
    hide Ready, BatchOf;
    var ready := Ready(file.mutations, logbook, now);
    var b := BatchOf(ready, allEvents);
    BatchMatches(ready, allEvents);
    ReadyInOrder(file.mutations, logbook, now);
    var i :| 0 <= i < |b.operations| && b.operations[i] == file.mutations[k].operationId;
    assert ready[i] in ready;
    var j :| 0 <= j < |file.mutations| && file.mutations[j] == ready[i];
    assert j == k;
  }

  /** No operation of the batch is left in `sending`; each is accepted exactly when
      the server answered without errors. */
  lemma BatchIsSettled(file: QueueFile, logbook: Uuid, allEvents: seq<Envelope>, mode: Mode, reply: Result<PushReply, string>, now: int, k: nat)
    requires DistinctOperations(file.mutations) && k < |file.mutations|
    requires var a := Prepare(file, logbook, allEvents, mode, now); a.Sent? && file.mutations[k].operationId in a.batch.operations
    ensures var a := Prepare(file, logbook, allEvents, mode, now);
      var after := Settled(a.file, a.batch, reply, now).mutations;
      && |after| == |file.mutations| && SameEntry(file.mutations[k], after[k])
      && after[k].status != Sending
      && (after[k].status == Accepted <==> reply.Ok? && reply.value.errors == [])
  {
    hide Ready, BatchOf, UpdateAll, DistinctOperations;
    var batch := BatchOf(Ready(file.mutations, logbook, now), allEvents);
    BatchHasEvent(file, logbook, allEvents, now, k);
    UpdateAllAt(file, batch.missing, NO_LOCAL_EVENT, now, k);
    var reviewed := UpdateAll(file, batch.missing, NO_LOCAL_EVENT, now);
    UpdateAllAt(reviewed, batch.operations, ToSending, now, k);
    var sending := UpdateAll(reviewed, batch.operations, ToSending, now);
    match Settlement(reply) {
      case None =>
        assert AcceptHashes(sending.mutations, Hashes(batch.events), now)[k].status == Accepted;
      case Some(change) =>
        UpdateAllAt(sending, batch.operations, change, now, k);
    }
  }

  /** An operation of the batch after a request that never got an answer, or was
      refused whole: to be tried again later, or failed with its attempts used up. */
  predicate PutOff(m: Mutation, after: Mutation, text: string, now: int) {
    && after.attempts == m.attempts + 1
    && after.failureReason == Some(text) && after.lastErrorCode == Some("cloud_push_failed")
    && if m.attempts + 1 >= m.maxAttempts then after.status == Failed && after.nextAttemptAt == None
       else
         var seconds := Max(1, Min(m.maxBackoffSeconds, Min(U64_MAX, m.backoffSeconds * Pow2(Min(m.attempts, 16)))));
         after.status == Retrying && after.nextAttemptAt == Some(now + seconds * 1_000_000_000)
  }

  /** After a divergence: blocked, with no further attempt of its own. */
  predicate HeldBack(m: Mutation, after: Mutation, text: string) {
    && after.attempts == m.attempts + 1
    && after.status == Blocked && after.failureReason == Some(text) && after.nextAttemptAt == None
  }

  /** After any other error: left to the operator. */
  predicate HandedOver(m: Mutation, after: Mutation, text: string) {
    && after.attempts == m.attempts + 1
    && after.status == UserActionRequired && after.failureReason == Some(text)
    && after.lastErrorCode == Some("cloud_push_rejected") && after.nextAttemptAt == None
  }

  predicate TakenOver(m: Mutation, after: Mutation, now: int) {
    && after.attempts == m.attempts + 1
    && after.status == Accepted && after.acceptedAt == Some(now) && after.failureReason == None && after.nextAttemptAt == None
  }

  lemma SettleOne(sending: QueueFile, batch: Batch, reply: Result<PushReply, string>, now: int, k: nat, m: Mutation)
    requires DistinctOperations(sending.mutations) && Distinct(batch.operations) && k < |sending.mutations|
    requires sending.mutations[k] == Changed(ToSending, m, now) && m.operationId in batch.operations
    requires exists i :: 0 <= i < |batch.events| && m.localEventHash == Some(batch.events[i].eventHash)
    ensures var all := Settled(sending, batch, reply, now).mutations;
      && |all| == |sending.mutations|
      && match reply
         case Err(error) => PutOff(m, all[k], error, now)
         case Ok(push) =>
           if push.errors == [] then TakenOver(m, all[k], now)
           else if push.diverged then HeldBack(m, all[k], push.errors[0])
           else HandedOver(m, all[k], push.errors[0])
  {
    var marked := sending.mutations[k];
    RetryExactly(marked);
    hide UpdateAll, DistinctOperations, Distinct, RetrySeconds, Pow2;
    match Settlement(reply) {
      case None => assert m.localEventHash.value in Hashes(batch.events);
      case Some(change) => UpdateAllOnce(sending, batch.operations, change, now, k);
    }
  }

  /** Before anything is sent: nothing is only when the queue alone is to be drained
      and no event of it is ready; the operations of the batch are being sent, the one
      missing its event is left to the operator, and the rest is as it was. */
  lemma PreparedExactly(file: QueueFile, logbook: Uuid, allEvents: seq<Envelope>, mode: Mode, now: int, k: nat)
    requires DistinctOperations(file.mutations) && k < |file.mutations|
    ensures var batch := BatchOf(Ready(file.mutations, logbook, now), allEvents);
      var a := Prepare(file, logbook, allEvents, mode, now);
      && (a.Skipped? <==> mode == AutoDrainQueueOnly && batch.events == [])
      && (a.Sent? ==> a.batch == batch && a.events == if batch.events == [] then allEvents else batch.events)
      && |a.file.mutations| == |file.mutations|
      && var m, after := file.mutations[k], a.file.mutations[k];
         if m.operationId in batch.operations then
           after.status == Sending && after.attempts == m.attempts + 1 && after.nextAttemptAt == None && SameEntry(m, after)
         else if m.operationId in batch.missing then
           && after.status == UserActionRequired && after.lastErrorCode == Some("missing_local_official_event")
           && after.nextAttemptAt == None && after.attempts == m.attempts && SameEntry(m, after)
         else after == m
  {
    var batch := BatchOf(Ready(file.mutations, logbook, now), allEvents);
    BatchDistinct(file.mutations, logbook, allEvents, now);
    BatchMatches(Ready(file.mutations, logbook, now), allEvents);
    hide Ready, BatchOf, UpdateAll, DistinctOperations, Distinct, LocalEvent;
    UpdateAllOnce(file, batch.missing, NO_LOCAL_EVENT, now, k);
    UpdateAllOnce(UpdateAll(file, batch.missing, NO_LOCAL_EVENT, now), batch.operations, ToSending, now, k);
    if batch.operations == [] {
      assert UpdateAll(UpdateAll(file, batch.missing, NO_LOCAL_EVENT, now), [], ToSending, now) ==
        UpdateAll(file, batch.missing, NO_LOCAL_EVENT, now) by {
        NothingUpdated(UpdateAll(file, batch.missing, NO_LOCAL_EVENT, now), ToSending, now);
      }
    }
  }

  lemma NothingUpdated(file: QueueFile, c: Change, now: int)
    ensures UpdateAll(file, [], c, now) == file
  {
  }

  /** What a completed push makes of each operation of its batch, from the request and
      the fault the server met alone. */
  lemma PushLeaves(
    file: QueueFile, h: HashFunction, server: StoreState, debug: Debug, logbook: Uuid, allEvents: seq<Envelope>,
    mode: Mode, refusal: Option<string>, now: int, k: nat)
    requires DistinctOperations(file.mutations) && k < |file.mutations|
    requires file.mutations[k].operationId in BatchOf(Ready(file.mutations, logbook, now), allEvents).operations
    ensures var batch := BatchOf(Ready(file.mutations, logbook, now), allEvents);
      var a := Prepare(file, logbook, allEvents, mode, now);
      && a.Sent? && a.events == batch.events
      && var answer := ServerAnswer(h, server, debug, logbook, a.events, refusal);
         var all := Settled(a.file, a.batch, answer.0, now).mutations;
         && |all| == |file.mutations|
         && var m, after, p := file.mutations[k], all[k], PushAll(h, server, batch.events);
            if refusal.Some? then PutOff(m, after, refusal.value, now)
            else if exists e :: e in batch.events && e.logbookId != logbook then
              PutOff(m, after, "unauthorized logbook access: " + UuidText.ShowUuid(logbook), now)
            else
              match p.fault
              case None => TakenOver(m, after, now)
              case Some((e, error)) =>
                var text := FaultText(debug, p.state.HeadOf(e.logbookId), e, error);
                if error.RemotePreviousHashMismatch? || (error.UnsupportedEventType? && Diverging(e.eventType))
                  then HeldBack(m, after, text) else HandedOver(m, after, text)
  {
    var batch := BatchOf(Ready(file.mutations, logbook, now), allEvents);
    BatchDistinct(file.mutations, logbook, allEvents, now);
    BatchHasEvent(file, logbook, allEvents, now, k);
    DivergedExactly(h, server, batch.events, debug);
    hide Ready, BatchOf, UpdateAll, DistinctOperations, Distinct, PushAll, FaultText, Diverging, Changed;
    assert OtherLogbook(batch.events, logbook) <==> exists e :: e in batch.events && e.logbookId != logbook;
    var m := file.mutations[k];
    UpdateAllOnce(file, batch.missing, NO_LOCAL_EVENT, now, k);
    var reviewed := UpdateAll(file, batch.missing, NO_LOCAL_EVENT, now);
    UpdateAllOnce(reviewed, batch.operations, ToSending, now, k);
    var sending := UpdateAll(reviewed, batch.operations, ToSending, now);
    var answer := ServerAnswer(h, server, debug, logbook, batch.events, refusal);
    var p := PushAll(h, server, batch.events);
    SettleOne(sending, batch, answer.0, now, k, m);
    hide PutOff, HeldBack, HandedOver, TakenOver, Settled;
  }

  /** A mutation that is not in the batch, not the one missing its event, and shares
      no event with the batch stays exactly as it was. */
  lemma OthersUntouched(file: QueueFile, logbook: Uuid, allEvents: seq<Envelope>, mode: Mode, reply: Result<PushReply, string>, now: int, k: nat)
    requires DistinctOperations(file.mutations) && k < |file.mutations|
    requires var a := Prepare(file, logbook, allEvents, mode, now); var m := file.mutations[k];
      && a.Sent? && m.operationId !in a.batch.operations && m.operationId !in a.batch.missing
      && (forall i :: 0 <= i < |a.batch.events| ==> m.localEventHash != Some(a.batch.events[i].eventHash))
    ensures var a := Prepare(file, logbook, allEvents, mode, now);
      var after := Settled(a.file, a.batch, reply, now).mutations;
      |after| == |file.mutations| && after[k] == file.mutations[k]
  {
    hide Ready, BatchOf, UpdateAll, DistinctOperations;
    var batch := BatchOf(Ready(file.mutations, logbook, now), allEvents);
    UpdateAllAt(file, batch.missing, NO_LOCAL_EVENT, now, k);
    var reviewed := UpdateAll(file, batch.missing, NO_LOCAL_EVENT, now);
    UpdateAllAt(reviewed, batch.operations, ToSending, now, k);
    var sending := UpdateAll(reviewed, batch.operations, ToSending, now);
    if Settlement(reply).Some? {
      UpdateAllAt(sending, batch.operations, Settlement(reply).value, now, k);
    }
  }

  /** An operation of the batch that ends accepted has its official event in the
      server's store: acceptance is never announced ahead of storage. */
  lemma AcceptedMeansStored(
    file: QueueFile, h: HashFunction, server: StoreState, debug: Debug, logbook: Uuid, allEvents: seq<Envelope>,
    mode: Mode, refusal: Option<string>, now: int, k: nat)
    requires Valid(h, server) && DistinctOperations(file.mutations) && k < |file.mutations|
    requires var a := Prepare(file, logbook, allEvents, mode, now); a.Sent? && file.mutations[k].operationId in a.batch.operations
    ensures var a := Prepare(file, logbook, allEvents, mode, now);
      var answer := ServerAnswer(h, server, debug, logbook, a.events, refusal);
      var after := Settled(a.file, a.batch, answer.0, now).mutations;
      && |after| == |file.mutations|
      && (after[k].status == Accepted ==>
            exists e :: e in a.batch.events && file.mutations[k].localEventHash == Some(e.eventHash) && answer.1.Knows(e))
  {
    var a := Prepare(file, logbook, allEvents, mode, now);
    BatchHasEvent(file, logbook, allEvents, now, k);
    assert a.batch == BatchOf(Ready(file.mutations, logbook, now), allEvents) && a.events == a.batch.events;
    hide Ready, BatchOf, UpdateAll, DistinctOperations, Prepare, Settled, Valid, PushAll, Diverging;
    var answer := ServerAnswer(h, server, debug, logbook, a.events, refusal);
    BatchIsSettled(file, logbook, allEvents, mode, answer.0, now, k);
    PushedEventsStored(h, server, a.events);
    var i :| 0 <= i < |a.batch.events| && file.mutations[k].localEventHash == Some(a.batch.events[i].eventHash);
    assert a.batch.events[i] in a.batch.events;
  }

  /** Draining only the queue never sends an event outside the batch, the batch is in
      sequence order, and each of its events is the local event of a ready mutation. */
  lemma QueueOnlySendsBatch(file: QueueFile, logbook: Uuid, allEvents: seq<Envelope>, now: int)
    ensures var a := Prepare(file, logbook, allEvents, AutoDrainQueueOnly, now);
      a.Sent? ==>
      && a.events == a.batch.events
      && |a.events| <= |Ready(file.mutations, logbook, now)|
      && (forall i :: 0 <= i < |a.events| ==>
            a.events[i] in allEvents && Ready(file.mutations, logbook, now)[i].localEventHash == Some(a.events[i].eventHash))
      && InOrder(Ready(file.mutations, logbook, now)[..|a.events|])
  {
    hide Ready, BatchOf, UpdateAll, InOrder;
    var ready := Ready(file.mutations, logbook, now);
    BatchMatches(ready, allEvents);
    ReadyInOrder(file.mutations, logbook, now);
    var a := Prepare(file, logbook, allEvents, AutoDrainQueueOnly, now);
    if a.Sent? {
      OrderedPrefix(ready, |a.events|);
    }
  }

  lemma OrderedPrefix(s: seq<Mutation>, n: nat)
    requires InOrder(s) && n <= |s|
    ensures InOrder(s[..n])
  {
  }

  /** A push keeps the queue file valid. */
  lemma PushKeepsFile(file: QueueFile, logbook: Uuid, allEvents: seq<Envelope>, mode: Mode, reply: Result<PushReply, string>, now: int)
    requires FileValid(file)
    ensures var a := Prepare(file, logbook, allEvents, mode, now);
      FileValid(a.file) && (a.Sent? ==> FileValid(Settled(a.file, a.batch, reply, now)))
  {
    hide Ready, BatchOf, UpdateAll, FileValid;
    var batch := BatchOf(Ready(file.mutations, logbook, now), allEvents);
    UpdateAllValid(file, batch.missing, NO_LOCAL_EVENT, now);
    var reviewed := UpdateAll(file, batch.missing, NO_LOCAL_EVENT, now);
    UpdateAllValid(reviewed, batch.operations, ToSending, now);
    var sending := UpdateAll(reviewed, batch.operations, ToSending, now);
    match Settlement(reply) {
      case None => SameEntriesValid(sending, AcceptHashes(sending.mutations, Hashes(batch.events), now));
      case Some(change) => UpdateAllValid(sending, batch.operations, change, now);
    }
  }
}
