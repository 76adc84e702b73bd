/** The offline protocol as a whole: submissions, recoveries and pushes of one client
    in any order, each stopped after any of its writes
    (crates/ham-client/src/serve.rs:4352-4421 and 7388-7613,
    crates/ham-core/src/sync/offline.rs:701-709 and 967-1010). */
module OfflineRun {
  import opened Basics
  import opened Event
  import opened StoreSpec
  import opened OfflineQueue
  import opened QueueDrain
  import opened QueueStore
  import opened OfflineSubmit
  import opened PushErrors
  import opened CloudPush

  /** The client's disk and the server's store. */
  datatype World = World(disk: Disk, server: StoreState)

  datatype Setting = Setting(h: HashFunction, debug: Debug, logbook: Uuid)

  /** Where a push stopped: after some of the marks for operator review, after some of
      the marks for sending, with the server's answer not yet acted on, or after some
      of the writes that settle the batch. */
  datatype PushStop = Reviewing(writes: nat) | Marking(writes: nat) | Answered | Settling(writes: nat)

  datatype Push = Push(mode: Mode, refusal: Option<string>, now: int, stop: PushStop)

  datatype Action = Submitting(call: Call) | Recovering(now: int) | Pushing(push: Push)

  function FirstOf<T>(s: seq<T>, n: nat): seq<T> {
    if n < |s| then s[..n] else s
  }

  function BatchAt(c: Setting, d: Disk, now: int): Batch {
    BatchOf(Ready(d.file.mutations, c.logbook, now), d.log)
  }

  /** run_cloud_push up to its stop. Accepting by hash is one write; every other mark
      is one write for each operation. */
  function AfterPush(c: Setting, w: World, p: Push): World {
    var batch := BatchAt(c, w.disk, p.now);
    var a := Prepare(w.disk.file, c.logbook, w.disk.log, p.mode, p.now);
    if p.stop.Reviewing? then
      w.(disk := w.disk.(file := UpdateAll(w.disk.file, FirstOf(batch.missing, p.stop.writes), NO_LOCAL_EVENT, p.now)))
    else if a.Skipped? then w.(disk := w.disk.(file := a.file))
    else if p.stop.Marking? then
      var reviewed := UpdateAll(w.disk.file, batch.missing, NO_LOCAL_EVENT, p.now);
      w.(disk := w.disk.(file := UpdateAll(reviewed, FirstOf(batch.operations, p.stop.writes), ToSending, p.now)))
    else
      var answer := ServerAnswer(c.h, w.server, c.debug, c.logbook, a.events, p.refusal);
      if p.stop.Answered? || p.stop.writes == 0 then World(w.disk.(file := a.file), answer.1)
      else
        var settling := batch.(operations := FirstOf(batch.operations, p.stop.writes));
        World(w.disk.(file := Settled(a.file, settling, answer.0, p.now)), answer.1)
  }

  /** A push not stopped at all does what run_cloud_push is specified to do. */
  lemma WholePush(c: Setting, w: World, p: Push)
    requires p.stop.Settling? && p.stop.writes > |BatchAt(c, w.disk, p.now).operations|
    ensures AfterPush(c, w, p) ==
      match Prepare(w.disk.file, c.logbook, w.disk.log, p.mode, p.now)
      case Skipped(file) => w.(disk := w.disk.(file := file))
      case Sent(file, batch, events) =>
        var answer := ServerAnswer(c.h, w.server, c.debug, c.logbook, events, p.refusal);
        World(w.disk.(file := Settled(file, batch, answer.0, p.now)), answer.1)
  {
    hide BatchOf, Ready, UpdateAll, Settled, ServerAnswer;
  }

  function Act(c: Setting, w: World, action: Action): World {
    match action
    case Submitting(call) => w.(disk := AfterWrites(c.h, w.disk, call.submission, call.writes))
    case Recovering(now) => w.(disk := w.disk.(file := w.disk.file.(mutations := Recover(w.disk.file.mutations, now))))
    case Pushing(push) => AfterPush(c, w, push)
  }

  function ActAll(c: Setting, w: World, actions: seq<Action>): World
    decreases |actions|
  {
    if actions == [] then w else ActAll(c, Act(c, w, actions[0]), actions[1..])
  }

  /** A submission's random operation id, and the key made from it, name no entry
      yet. */
  predicate IsNew(file: QueueFile, s: Submission) {
    && WellFormed(s)
    && FindOperation(file.mutations, s.operationId).None? && Existing(file.mutations, s.input).None?
  }

  ghost predicate AllNew(c: Setting, w: World, actions: seq<Action>)
    decreases |actions|
  {
    actions != [] ==>
      && (actions[0].Submitting? ==> IsNew(w.disk.file, actions[0].call.submission))
      && AllNew(c, Act(c, w, actions[0]), actions[1..])
  }

  // ----- what every action keeps -----

  ghost predicate Sound(c: Setting, w: World) {
    FileValid(w.disk.file) && DistinctOperations(w.disk.file.mutations) && Valid(c.h, w.server)
  }

  lemma StartSound(c: Setting, log: seq<Envelope>, server: StoreState)
    requires Valid(c.h, server)
    ensures Sound(c, World(Disk(QueueFile(map[], []), log), server))
  {
  }

  /** An entry stays what it is and keeps its event; once accepted, always accepted. */
  predicate Kept(m: Mutation, m2: Mutation) {
    SameEntry(m, m2) && m.localEventHash == m2.localEventHash && (m.status == Accepted ==> m2.status == Accepted)
  }

  /** Entries stay in place, and new ones come after all of their logbook. */
  ghost predicate Grown(a: seq<Mutation>, b: seq<Mutation>) {
    && |a| <= |b|
    && (forall i :: 0 <= i < |a| ==> Kept(a[i], b[i]))
    && (forall i, j :: 0 <= i < |a| <= j < |b| && a[i].logbookId == b[j].logbookId ==> a[i].sequence < b[j].sequence)
  }

  ghost predicate KnowsHash(s: StoreState, hash: string) {
    exists e :: s.Knows(e) && e.eventHash == hash
  }

  ghost predicate KnowsMore(s: StoreState, s2: StoreState) {
    forall e :: s.Knows(e) ==> s2.Knows(e)
  }

  /** Whatever became accepted has its event on the server. */
  ghost predicate AcceptedStored(a: seq<Mutation>, b: seq<Mutation>, server: StoreState) {
    forall k :: 0 <= k < |b| && b[k].status == Accepted ==>
      (k < |a| && a[k].status == Accepted) || (b[k].localEventHash.Some? && KnowsHash(server, b[k].localEventHash.value))
  }

  ghost predicate Leads(w: World, w2: World) {
    && Grown(w.disk.file.mutations, w2.disk.file.mutations)
    && IsPrefix(w.disk.log, w2.disk.log)
    && KnowsMore(w.server, w2.server)
    && AcceptedStored(w.disk.file.mutations, w2.disk.file.mutations, w2.server)
  }

  lemma GrownTransitive(a: seq<Mutation>, b: seq<Mutation>, d: seq<Mutation>)
    requires Grown(a, b) && Grown(b, d)
    ensures Grown(a, d)
  {
    forall i | 0 <= i < |a| ensures Kept(a[i], d[i]) {
      assert Kept(a[i], b[i]) && Kept(b[i], d[i]);
    }
    forall i, j | 0 <= i < |a| <= j < |d| && a[i].logbookId == d[j].logbookId ensures a[i].sequence < d[j].sequence {
      assert Kept(a[i], b[i]);
      if j < |b| {
        assert Kept(b[j], d[j]);
      }
    }
  }

  lemma LeadsTransitive(w: World, w2: World, w3: World)
    requires Leads(w, w2) && Leads(w2, w3)
    ensures Leads(w, w3)
  {
    var a, b, d := w.disk.file.mutations, w2.disk.file.mutations, w3.disk.file.mutations;
    GrownTransitive(a, b, d);
    PrefixTransitive(w.disk.log, w2.disk.log, w3.disk.log);
    forall k | 0 <= k < |d| && d[k].status == Accepted
      ensures (k < |a| && a[k].status == Accepted) || (d[k].localEventHash.Some? && KnowsHash(w3.server, d[k].localEventHash.value))
    {
      if k < |b| && b[k].status == Accepted {
        assert Kept(b[k], d[k]);
        if b[k].localEventHash.Some? && KnowsHash(w2.server, b[k].localEventHash.value) {
          KnowsHashMore(w2.server, w3.server, b[k].localEventHash.value);
        }
      }
    }
  }

  lemma KnowsHashMore(s: StoreState, s2: StoreState, hash: string)
    requires KnowsMore(s, s2) && KnowsHash(s, hash)
    ensures KnowsHash(s2, hash)
  {
    var e :| s.Knows(e) && e.eventHash == hash;
    assert s2.Knows(e);
  }

  /** None of the operations is accepted. */
  ghost predicate NoneAccepted(mutations: seq<Mutation>, ids: seq<Uuid>) {
    forall k :: 0 <= k < |mutations| && mutations[k].operationId in ids ==> mutations[k].status != Accepted
  }

  /** A change of entries in place that neither accepts nor gives up anything. */
  ghost predicate Steady(file: QueueFile, file2: QueueFile) {
    && FileValid(file2) && DistinctOperations(file2.mutations) && |file.mutations| == |file2.mutations|
    && forall k :: 0 <= k < |file.mutations| ==>
         Kept(file.mutations[k], file2.mutations[k]) && (file2.mutations[k].status == Accepted ==> file.mutations[k].status == Accepted)
  }

  lemma SteadyTransitive(a: QueueFile, b: QueueFile, d: QueueFile)
    requires Steady(a, b) && Steady(b, d)
    ensures Steady(a, d)
  {
    forall k | 0 <= k < |a.mutations|
      ensures Kept(a.mutations[k], d.mutations[k]) && (d.mutations[k].status == Accepted ==> a.mutations[k].status == Accepted)
    {
      assert Kept(a.mutations[k], b.mutations[k]) && Kept(b.mutations[k], d.mutations[k]);
    }
  }

  lemma DistinctKept(a: seq<Mutation>, b: seq<Mutation>)
    requires DistinctOperations(a) && |a| == |b| && forall k :: 0 <= k < |a| ==> SameEntry(a[k], b[k])
    ensures DistinctOperations(b)
  {
    forall i, j | 0 <= i < j < |b| ensures b[i].operationId != b[j].operationId {
      assert SameEntry(a[i], b[i]) && SameEntry(a[j], b[j]);
    }
  }

  lemma {:induction false} UpdateAllLength(file: QueueFile, ids: seq<Uuid>, change: Change, now: int)
    ensures |UpdateAll(file, ids, change, now).mutations| == |file.mutations|
  {
    hide Changed;
    if ids != [] {
      UpdateAllLength(file, ids[..|ids| - 1], change, now);
    }
  }

  lemma UpdateAllSteady(file: QueueFile, ids: seq<Uuid>, change: Change, now: int)
    requires FileValid(file) && DistinctOperations(file.mutations) && !change.ToLocalEvent? && NoneAccepted(file.mutations, ids)
    ensures Steady(file, UpdateAll(file, ids, change, now))
  {
    hide UpdateAll, FileValid, SameEntry, DistinctOperations;
    var after := UpdateAll(file, ids, change, now);
    UpdateAllLength(file, ids, change, now);
    UpdateAllValid(file, ids, change, now);
    forall k | 0 <= k < |file.mutations|
      ensures SameEntry(file.mutations[k], after.mutations[k]) && Kept(file.mutations[k], after.mutations[k])
      ensures after.mutations[k].status == Accepted ==> file.mutations[k].status == Accepted
    {
      UpdateAllAt(file, ids, change, now, k);
    }
    DistinctKept(file.mutations, after.mutations);
  }

  lemma NoneAcceptedStays(file: QueueFile, file2: QueueFile, ids: seq<Uuid>, fewer: seq<Uuid>)
    requires Steady(file, file2) && NoneAccepted(file.mutations, ids) && forall id :: id in fewer ==> id in ids
    ensures NoneAccepted(file2.mutations, fewer)
  {
    forall k | 0 <= k < |file2.mutations| && file2.mutations[k].operationId in fewer ensures file2.mutations[k].status != Accepted {
      assert Kept(file.mutations[k], file2.mutations[k]);
    }
  }

  lemma FirstOfIn<T>(s: seq<T>, n: nat)
    ensures forall x :: x in FirstOf(s, n) ==> x in s
  {
  }

  /** Nothing a batch names is accepted yet. */
  lemma BatchUnaccepted(c: Setting, d: Disk, now: int)
    requires DistinctOperations(d.file.mutations)
    ensures NoneAccepted(d.file.mutations, BatchAt(c, d, now).operations)
    ensures NoneAccepted(d.file.mutations, BatchAt(c, d, now).missing)
  {
    var mutations := d.file.mutations;
    var ready := Ready(mutations, c.logbook, now);
    BatchMatches(ready, d.log);
    ReadyInOrder(mutations, c.logbook, now);
    hide Ready, BatchOf, ReadyAt, Unblocked, InOrder, LocalEvent;
    forall k, i | 0 <= k < |mutations| && 0 <= i < |ready| && mutations[k].operationId == ready[i].operationId
      ensures mutations[k].status != Accepted
    {
      assert ready[i] in ready;
      var j :| 0 <= j < |mutations| && mutations[j] == ready[i];
      assert j == k;
    }
  }

  // ----- a push -----

  /** The marks made before the answer of the server matters. */
  lemma MarksSteady(c: Setting, d: Disk, now: int, reviews: nat, marks: nat)
    requires FileValid(d.file) && DistinctOperations(d.file.mutations)
    ensures var batch := BatchAt(c, d, now);
      var reviewed := UpdateAll(d.file, FirstOf(batch.missing, reviews), NO_LOCAL_EVENT, now);
      var marked := UpdateAll(reviewed, FirstOf(batch.operations, marks), ToSending, now);
      Steady(d.file, reviewed) && Steady(d.file, marked) && NoneAccepted(marked.mutations, batch.operations)
  {
    hide BatchAt, UpdateAll, Steady, NoneAccepted, FileValid, DistinctOperations, FirstOf;
    var batch := BatchAt(c, d, now);
    BatchUnaccepted(c, d, now);
    FirstOfIn(batch.missing, reviews);
    FirstOfIn(batch.operations, marks);
    SteadySelf(d.file);
    NoneAcceptedStays(d.file, d.file, batch.missing, FirstOf(batch.missing, reviews));
    UpdateAllSteady(d.file, FirstOf(batch.missing, reviews), NO_LOCAL_EVENT, now);
    var reviewed := UpdateAll(d.file, FirstOf(batch.missing, reviews), NO_LOCAL_EVENT, now);
    NoneAcceptedStays(d.file, reviewed, batch.operations, FirstOf(batch.operations, marks));
    SteadyFile(d.file, reviewed);
    UpdateAllSteady(reviewed, FirstOf(batch.operations, marks), ToSending, now);
    var marked := UpdateAll(reviewed, FirstOf(batch.operations, marks), ToSending, now);
    SteadyTransitive(d.file, reviewed, marked);
    NoneAcceptedStays(d.file, marked, batch.operations, batch.operations);
  }

  lemma SteadySelf(file: QueueFile)
    requires FileValid(file) && DistinctOperations(file.mutations)
    ensures Steady(file, file)
  {
  }

  lemma SteadyFile(file: QueueFile, file2: QueueFile)
    requires Steady(file, file2)
    ensures FileValid(file2) && DistinctOperations(file2.mutations)
  {
  }

  /** Settling accepts nothing whose event the server does not hold. */
  lemma SettlingSafe(c: Setting, file: QueueFile, batch: Batch, server: StoreState, events: seq<Envelope>, refusal: Option<string>, now: int)
    requires FileValid(file) && DistinctOperations(file.mutations) && NoneAccepted(file.mutations, batch.operations)
    requires Valid(c.h, server) && forall e :: e in batch.events ==> e in events
    ensures var answer := ServerAnswer(c.h, server, c.debug, c.logbook, events, refusal);
      var after := Settled(file, batch, answer.0, now);
      && FileValid(after) && DistinctOperations(after.mutations)
      && Grown(file.mutations, after.mutations) && |after.mutations| == |file.mutations|
      && AcceptedStored(file.mutations, after.mutations, answer.1)
  {
    hide Valid, PushAll, Diverging, UpdateAll, FileValid, DistinctOperations, NoneAccepted, OtherLogbook, Unauthorized;
    var answer := ServerAnswer(c.h, server, c.debug, c.logbook, events, refusal);
    PushedEventsStored(c.h, server, events);
    match Settlement(answer.0) {
      case None => AcceptingSafe(file, batch.events, answer.1, now);
      case Some(change) => UpdateAllSteady(file, batch.operations, change, now);
    }
  }

  lemma AcceptingSafe(file: QueueFile, events: seq<Envelope>, server: StoreState, now: int)
    requires FileValid(file) && DistinctOperations(file.mutations) && forall e :: e in events ==> server.Knows(e)
    ensures var after := AcceptHashes(file.mutations, Hashes(events), now);
      && FileValid(file.(mutations := after)) && DistinctOperations(after)
      && Grown(file.mutations, after) && |after| == |file.mutations|
      && AcceptedStored(file.mutations, after, server)
  {
    hide FileValid, DistinctOperations;
    var hashes := Hashes(events);
    var after := AcceptHashes(file.mutations, hashes, now);
    assert forall k :: 0 <= k < |after| ==> SameEntry(file.mutations[k], after[k]);
    SameEntriesValid(file, after);
    DistinctKept(file.mutations, after);
    forall k | 0 <= k < |after| && after[k].status == Accepted && file.mutations[k].status != Accepted
      ensures after[k].localEventHash.Some? && KnowsHash(server, after[k].localEventHash.value)
    {
      assert after[k].localEventHash.value in hashes;
      var i :| 0 <= i < |events| && events[i].eventHash == after[k].localEventHash.value;
      assert events[i] in events;
    }
  }

  lemma SteadyLeads(w: World, w2: World)
    requires Steady(w.disk.file, w2.disk.file) && w2.disk.log == w.disk.log && KnowsMore(w.server, w2.server)
    ensures Leads(w, w2)
  {
  }

  lemma AnswerKeeps(c: Setting, server: StoreState, events: seq<Envelope>, refusal: Option<string>)
    requires Valid(c.h, server)
    ensures var answer := ServerAnswer(c.h, server, c.debug, c.logbook, events, refusal);
      Valid(c.h, answer.1) && KnowsMore(server, answer.1)
  {
    PushedEventsStored(c.h, server, events);
    hide Valid, PushAll, Reply;
  }

  lemma PushKeeps(c: Setting, w: World, p: Push)
    requires Sound(c, w)
    ensures Sound(c, AfterPush(c, w, p)) && Leads(w, AfterPush(c, w, p))
  {
    var batch := BatchAt(c, w.disk, p.now);
    var a := Prepare(w.disk.file, c.logbook, w.disk.log, p.mode, p.now);
    var after := AfterPush(c, w, p);
    var reviewed := UpdateAll(w.disk.file, batch.missing, NO_LOCAL_EVENT, p.now);
    hide BatchOf, Ready, UpdateAll, ServerAnswer, Settled, Valid, FileValid, DistinctOperations, NoneAccepted, Grown, AcceptedStored, Steady;
    if p.stop.Reviewing? {
      MarksSteady(c, w.disk, p.now, p.stop.writes, 0);
      SteadyLeads(w, after);
      SteadyFile(w.disk.file, after.disk.file);
    } else if a.Skipped? {
      MarksSteady(c, w.disk, p.now, |batch.missing|, 0);
      SteadyLeads(w, after);
      SteadyFile(w.disk.file, after.disk.file);
    } else if p.stop.Marking? {
      MarksSteady(c, w.disk, p.now, |batch.missing|, p.stop.writes);
      SteadyLeads(w, after);
      SteadyFile(w.disk.file, after.disk.file);
    } else {
      var events := a.events;
      MarksSteady(c, w.disk, p.now, |batch.missing|, |batch.operations|);
      AnswerKeeps(c, w.server, events, p.refusal);
      var answer := ServerAnswer(c.h, w.server, c.debug, c.logbook, events, p.refusal);
      var sending := World(w.disk.(file := a.file), answer.1);
      SteadyLeads(w, sending);
      SteadyFile(w.disk.file, a.file);
      if p.stop.Settling? && p.stop.writes > 0 {
        var settling := batch.(operations := FirstOf(batch.operations, p.stop.writes));
        FirstOfIn(batch.operations, p.stop.writes);
        SteadySelf(a.file);
        NoneAcceptedStays(a.file, a.file, batch.operations, settling.operations);
        SettlingSafe(c, a.file, settling, w.server, events, p.refusal, p.now);
        LeadsTransitive(w, sending, after);
      }
    }
  }

  // ----- submissions and recovery -----

  /** The entry a new submission gets: the last of the file and of its logbook, with
      an operation id of its own and no event yet. */
  lemma NewEntry(d: Disk, s: Submission)
    requires FileValid(d.file) && DistinctOperations(d.file.mutations) && IsNew(d.file, s)
    ensures var q := Queued(d, s);
      && FileValid(q.file) && DistinctOperations(q.file.mutations)
      && (q.result.None? ==> q.file == d.file)
      && (q.result.Some? ==>
            var m := q.result.value;
            && q.file.mutations == d.file.mutations + [m]
            && m.operationId == s.operationId && m.logbookId == s.input.logbookId
            && m.status == Pending && m.localEventHash == None
            && (forall i :: 0 <= i < |d.file.mutations| && d.file.mutations[i].logbookId == m.logbookId ==>
                  d.file.mutations[i].sequence < m.sequence))
  {
    EnqueueAppendsLast(d.file, s.input, s.operationId, "", s.now);
    EnqueueKeepsDistinct(d.file, s.input, s.operationId, "", s.now);
    hide MutationValid, NextSequence, Existing, FindOperation, FileValid, DistinctOperations;
  }

  /** What a submission does to its own entry, the last one. */
  lemma LastUpdated(file: QueueFile, before: seq<Mutation>, m: Mutation, change: Change, now: int)
    requires FileValid(file) && DistinctOperations(file.mutations) && file.mutations == before + [m]
    ensures var after := Update(file, m.operationId, change, now);
      FileValid(after) && DistinctOperations(after.mutations) && after.mutations == before + [Changed(change, m, now)]
  {
    UpdateValid(file, m.operationId, change, now);
    hide Changed;
    assert file.mutations[|before|] == m;
    var after := Update(file, m.operationId, change, now);
    DistinctKept(file.mutations, after.mutations);
  }

  /** One more entry that is not accepted, after all of its logbook. */
  lemma EntryGrown(before: seq<Mutation>, m: Mutation, server: StoreState)
    requires m.status != Accepted
    requires forall i :: 0 <= i < |before| && before[i].logbookId == m.logbookId ==> before[i].sequence < m.sequence
    ensures Grown(before, before + [m]) && AcceptedStored(before, before + [m], server)
    ensures Grown(before, before) && AcceptedStored(before, before, server)
  {
  }

  /** What a submission's refusal or event does to its entry. */
  function Verdict(c: Setting, d: Disk, s: Submission): Change {
    match s.verdict
    case Err(reason) => ToUserAction(reason, Some("domain_validation_failed"))
    case Ok(input) => ToLocalEvent(EventOf(c.h, d.log, input, s.eventId, s.now))
  }

  /** The last entry after a submission that got past its first write. */
  function EntryAfter(c: Setting, d: Disk, call: Call): Mutation
    requires Queued(d, call.submission).result.Some?
  {
    var m := Queued(d, call.submission).result.value;
    if call.writes < |Writes(c.h, d, call.submission)| then m else Changed(Verdict(c, d, call.submission), m, call.submission.now)
  }

  lemma SubmittedFile(c: Setting, d: Disk, call: Call)
    requires Queued(d, call.submission).result.Some? && call.writes > 0
    ensures var s := call.submission; var q := Queued(d, s); var after := AfterWrites(c.h, d, s, call.writes);
      && IsPrefix(d.log, after.log)
      && after.file ==
         if call.writes < |Writes(c.h, d, s)| then q.file else Update(q.file, q.result.value.operationId, Verdict(c, d, s), s.now)
  {
    hide Enqueue, Update, EventOf;
  }

  lemma SubmittedEntry(c: Setting, d: Disk, call: Call)
    requires FileValid(d.file) && DistinctOperations(d.file.mutations) && IsNew(d.file, call.submission)
    requires Queued(d, call.submission).result.Some? && call.writes > 0
    ensures var after := AfterWrites(c.h, d, call.submission, call.writes);
      && FileValid(after.file) && DistinctOperations(after.file.mutations)
      && after.file.mutations == d.file.mutations + [EntryAfter(c, d, call)]
      && IsPrefix(d.log, after.log)
  {
    hide FileValid, DistinctOperations, AfterWrites, Writes, Enqueue, IsNew, Verdict, Update, Changed;
    var s := call.submission;
    NewEntry(d, s);
    SubmittedFile(c, d, call);
    var q := Queued(d, s);
    LastUpdated(q.file, d.file.mutations, q.result.value, Verdict(c, d, s), s.now);
  }

  lemma NothingSubmitted(c: Setting, d: Disk, call: Call)
    requires Queued(d, call.submission).result.None? || call.writes == 0
    ensures AfterWrites(c.h, d, call.submission, call.writes) == d
  {
    hide Enqueue;
  }

  /** The entry is not accepted, and has an event exactly when its submission was
      carried through without a refusal. */
  lemma EntryAfterShape(c: Setting, d: Disk, call: Call)
    requires FileValid(d.file) && DistinctOperations(d.file.mutations) && IsNew(d.file, call.submission)
    requires Queued(d, call.submission).result.Some?
    ensures var s := call.submission; var m := EntryAfter(c, d, call);
      && m.operationId == s.operationId && m.logbookId == s.input.logbookId && m.status != Accepted
      && m.sequence == Queued(d, s).result.value.sequence
      && m.localEventHash ==
         if s.verdict.Ok? && call.writes >= |Writes(c.h, d, s)|
           then Some(EventOf(c.h, d.log, s.verdict.value, s.eventId, s.now).eventHash) else None
  {
    NewEntry(d, call.submission);
    hide Enqueue, EventOf, IsNew, FileValid, DistinctOperations, Writes;
  }

  /** A new submission adds an entry at most. */
  lemma SubmitKeeps(c: Setting, w: World, call: Call)
    requires Sound(c, w) && IsNew(w.disk.file, call.submission)
    ensures var after := Act(c, w, Submitting(call)); Sound(c, after) && Leads(w, after)
  {
    hide Valid, FileValid, DistinctOperations, IsNew, Grown, AcceptedStored, AfterWrites, EntryAfter, Enqueue, Writes;
    var d, s := w.disk, call.submission;
    if Queued(d, s).result.None? || call.writes == 0 {
      NothingSubmitted(c, d, call);
      GrownSelf(d.file.mutations, w.server);
    } else {
      NewEntry(d, s);
      SubmittedEntry(c, d, call);
      EntryAfterShape(c, d, call);
      EntryGrown(d.file.mutations, EntryAfter(c, d, call), w.server);
    }
  }

  lemma GrownSelf(mutations: seq<Mutation>, server: StoreState)
    ensures Grown(mutations, mutations) && AcceptedStored(mutations, mutations, server)
  {
  }

  lemma RecoverKeeps(c: Setting, w: World, now: int)
    requires Sound(c, w)
    ensures var after := Act(c, w, Recovering(now)); Sound(c, after) && Leads(w, after)
  {
    hide Valid, FileValid, DistinctOperations;
    var before := w.disk.file.mutations;
    var after := Recover(before, now);
    RecoverSteady(w.disk.file, now);
    hide Recover, Steady;
    SteadyFile(w.disk.file, w.disk.file.(mutations := after));
    SteadyLeads(w, Act(c, w, Recovering(now)));
  }

  lemma RecoverSteady(file: QueueFile, now: int)
    requires FileValid(file) && DistinctOperations(file.mutations)
    ensures Steady(file, file.(mutations := Recover(file.mutations, now)))
  {
    hide FileValid, DistinctOperations;
    var after := Recover(file.mutations, now);
    assert forall k :: 0 <= k < |after| ==> SameEntry(file.mutations[k], after[k]);
    SameEntriesValid(file, after);
    DistinctKept(file.mutations, after);
  }

  /** Over any run of submissions, recoveries and pushes, each stopped anywhere: the
      queue file stays valid with one entry for each operation, entries stay in place
      and keep their events, new ones come after all of their logbook, the logs only
      grow, and whatever became accepted has its event on the server. */
  lemma {:induction false} RunKeeps(c: Setting, w: World, actions: seq<Action>)
    requires Sound(c, w) && AllNew(c, w, actions)
    ensures Sound(c, ActAll(c, w, actions)) && Leads(w, ActAll(c, w, actions))
    decreases |actions|
  {
    hide Sound, Leads, Act, IsNew;
    if actions == [] {
      LeadsSelf(w);
    } else {
      var next := Act(c, w, actions[0]);
      ActKeeps(c, w, actions[0]);
      RunKeeps(c, next, actions[1..]);
      LeadsTransitive(w, next, ActAll(c, w, actions));
    }
  }

  lemma LeadsSelf(w: World)
    ensures Leads(w, w)
  {
  }

  lemma ActKeeps(c: Setting, w: World, action: Action)
    requires Sound(c, w) && (action.Submitting? ==> IsNew(w.disk.file, action.call.submission))
    ensures Sound(c, Act(c, w, action)) && Leads(w, Act(c, w, action))
  {
    match action {
      case Submitting(call) => SubmitKeeps(c, w, call);
      case Recovering(now) => RecoverKeeps(c, w, now);
      case Pushing(push) =>
        hide Sound, Leads, AfterPush;
        PushKeeps(c, w, push);
    }
  }

  // ----- what becomes of a submission -----

  /** Every unaccepted entry of a logbook up to a sequence can be sent. */
  ghost predicate PathClear(d: Disk, logbook: Uuid, sequence: nat, now: int) {
    forall x :: x in d.file.mutations && x.logbookId == logbook && x.sequence <= sequence && x.status != Accepted ==>
      Sendable(d.file.mutations, x, d.log, now)
  }

  /** Exactly which entries a push sends, by operation id. */
  lemma BatchExactly(c: Setting, d: Disk, now: int, k: nat)
    requires FileValid(d.file) && DistinctOperations(d.file.mutations) && k < |d.file.mutations|
    ensures var m := d.file.mutations[k];
      m.operationId in BatchAt(c, d, now).operations <==>
      m.logbookId == c.logbook && m.status != Accepted && PathClear(d, c.logbook, m.sequence, now)
  {
    var all := d.file.mutations;
    var m := all[k];
    var ready := Ready(all, c.logbook, now);
    SentExactly(all, c.logbook, d.log, now, m);
    BatchMatches(ready, d.log);
    ReadyInOrder(all, c.logbook, now);
    hide Ready, BatchOf, Sendable, ReadyAt, Unblocked, LocalEvent, InOrder, FileValid;
    var operations := BatchAt(c, d, now).operations;
    if m.operationId in operations {
      var i :| 0 <= i < |operations| && operations[i] == m.operationId;
      assert ready[i] in ready;
      var j :| 0 <= j < |all| && all[j] == ready[i];
      assert j == k && ready[..|operations|][i] == m;
    }
  }

  /** The own entry of a submission that got past its first write, after whatever
      else happened: with its event exactly if the submission was carried through. */
  lemma EntryTracked(c: Setting, w: World, call: Call, actions: seq<Action>)
    requires Sound(c, w) && IsNew(w.disk.file, call.submission)
    requires Queued(w.disk, call.submission).result.Some? && call.writes > 0
    requires AllNew(c, Act(c, w, Submitting(call)), actions)
    ensures var s := call.submission; var k := |w.disk.file.mutations|;
      var after := Act(c, w, Submitting(call)); var end := ActAll(c, after, actions);
      && Sound(c, end) && Leads(after, end)
      && |after.disk.file.mutations| == k + 1 <= |end.disk.file.mutations|
      && after.disk.file.mutations[k] == EntryAfter(c, w.disk, call)
      && Kept(EntryAfter(c, w.disk, call), end.disk.file.mutations[k])
  {
    hide Enqueue, IsNew, AfterWrites, EntryAfter, Valid, FileValid, DistinctOperations, Kept;
    SubmitKeeps(c, w, call);
    SubmittedEntry(c, w.disk, call);
    RunKeeps(c, Act(c, w, Submitting(call)), actions);
  }

  lemma EventLogged(c: Setting, d: Disk, call: Call)
    requires Queued(d, call.submission).result.Some? && call.submission.verdict.Ok? && call.writes >= 3
    ensures var s := call.submission;
      AfterWrites(c.h, d, s, call.writes).log == d.log + [EventOf(c.h, d.log, s.verdict.value, s.eventId, s.now)]
    ensures |Writes(c.h, d, call.submission)| == 3
  {
    hide Enqueue, Update, EventOf;
  }

  lemma StillLogged(log: seq<Envelope>, e: Envelope, later: seq<Envelope>)
    requires IsPrefix(log + [e], later)
    ensures e in later && WithHash(later, e.eventHash).Some?
  {
    assert later[..|log + [e]|][|log|] == e;
    assert later[|log|] == e;
  }

  /** A submission carried through, after any run: its entry holds its event, which is
      in the log; the entry is accepted only with that event on the server; and a push
      sends the event exactly when the entry is not accepted yet and every unaccepted
      entry of the logbook up to it is due, unblocked and has its event. */
  lemma CompletedIsSent(c: Setting, w: World, call: Call, actions: seq<Action>, now: int)
    requires Sound(c, w) && IsNew(w.disk.file, call.submission) && Queued(w.disk, call.submission).result.Some?
    requires call.submission.verdict.Ok? && call.writes >= 3 && call.submission.input.logbookId == c.logbook
    requires AllNew(c, Act(c, w, Submitting(call)), actions)
    ensures var s := call.submission; var k := |w.disk.file.mutations|;
      var e := EventOf(c.h, w.disk.log, s.verdict.value, s.eventId, s.now);
      var end := ActAll(c, Act(c, w, Submitting(call)), actions);
      var all := end.disk.file.mutations; var batch := BatchAt(c, end.disk, now);
      && k < |all| && all[k].operationId == s.operationId && all[k].localEventHash == Some(e.eventHash)
      && e in end.disk.log
      && (all[k].status == Accepted ==> KnowsHash(end.server, e.eventHash))
      && (s.operationId in batch.operations <==>
            all[k].status != Accepted && PathClear(end.disk, c.logbook, all[k].sequence, now))
      && (s.operationId in batch.operations ==> exists i :: 0 <= i < |batch.events| && batch.events[i].eventHash == e.eventHash)
  {
    var s, k := call.submission, |w.disk.file.mutations|;
    EntryTracked(c, w, call, actions);
    EventLogged(c, w.disk, call);
    EntryAfterShape(c, w.disk, call);
    var after := Act(c, w, Submitting(call));
    var end := ActAll(c, after, actions);
    var all := end.disk.file.mutations;
    StillLogged(w.disk.log, EventOf(c.h, w.disk.log, s.verdict.value, s.eventId, s.now), end.disk.log);
    BatchExactly(c, end.disk, now, k);
    hide Enqueue, IsNew, AfterWrites, EntryAfter, Writes, Valid, FileValid, DistinctOperations, BatchOf, Ready, PathClear, EventOf, Grown, ActAll, AllNew;
    if s.operationId in BatchAt(c, end.disk, now).operations {
      BatchHasEvent(end.disk.file, c.logbook, end.disk.log, now, k);
    }
  }

  /** A submission stopped before its hash was recorded, or refused, blocks its
      logbook: after any run its entry is still there without an event, and neither it
      nor any later entry of the logbook is ever sent from the queue. */
  lemma UnfinishedBlocks(c: Setting, w: World, call: Call, actions: seq<Action>, now: int, j: nat)
    requires Sound(c, w) && IsNew(w.disk.file, call.submission) && Queued(w.disk, call.submission).result.Some?
    requires call.writes > 0 && (call.submission.verdict.Ok? ==> call.writes < 3) && call.submission.input.logbookId == c.logbook
    requires AllNew(c, Act(c, w, Submitting(call)), actions)
    ensures var k := |w.disk.file.mutations|; var end := ActAll(c, Act(c, w, Submitting(call)), actions);
      var all := end.disk.file.mutations;
      && k < |all| && all[k].operationId == call.submission.operationId
      && all[k].localEventHash == None && all[k].status != Accepted
      && (k <= j < |all| ==> all[j].operationId !in BatchAt(c, end.disk, now).operations)
  {
    var k := |w.disk.file.mutations|;
    EntryTracked(c, w, call, actions);
    WritesCount(c, w.disk, call.submission);
    EntryAfterShape(c, w.disk, call);
    var after := Act(c, w, Submitting(call));
    var end := ActAll(c, after, actions);
    var all := end.disk.file.mutations;
    hide Enqueue, IsNew, AfterWrites, EntryAfter, Writes, Valid, FileValid, DistinctOperations, BatchOf, Ready, EventOf, ActAll, AllNew, Unblocked, ReadyAt, KnowsMore;
    assert Kept(after.disk.file.mutations[k], all[k]);
    if k <= j < |all| {
      BatchExactly(c, end.disk, now, j);
      assert all[k] in all && !Sendable(all, all[k], end.disk.log, now);
      assert j > k && all[j].logbookId == c.logbook ==> all[k].sequence < all[j].sequence;
    }
  }

  lemma WritesCount(c: Setting, d: Disk, s: Submission)
    requires Queued(d, s).result.Some?
    ensures |Writes(c.h, d, s)| == if s.verdict.Ok? then 3 else 2
  {
    hide Enqueue, Update, EventOf;
  }

  // ----- a push cut short -----

  /** Before the answer is acted on, an operation of the batch is as it was or marked
      as being sent. */
  lemma MarkedOrNot(c: Setting, w: World, p: Push, k: nat)
    requires DistinctOperations(w.disk.file.mutations) && !p.stop.Settling? && k < |w.disk.file.mutations|
    requires w.disk.file.mutations[k].operationId in BatchAt(c, w.disk, p.now).operations
    ensures var m := w.disk.file.mutations[k]; var after := AfterPush(c, w, p).disk.file.mutations;
      |after| == |w.disk.file.mutations| && SameEntry(m, after[k]) && after[k].localEventHash == m.localEventHash &&
      (after[k] == m || after[k].status == Sending)
  {
    var file, batch := w.disk.file, BatchAt(c, w.disk, p.now);
    NotMissing(c, w.disk, p.now, k);
    hide BatchOf, Ready, UpdateAll, ServerAnswer, DistinctOperations, SameEntry;
    var missing := if p.stop.Reviewing? then FirstOf(batch.missing, p.stop.writes) else batch.missing;
    FirstOfIn(batch.missing, if p.stop.Reviewing? then p.stop.writes else 0);
    UpdateAllAt(file, missing, NO_LOCAL_EVENT, p.now, k);
    var reviewed := UpdateAll(file, missing, NO_LOCAL_EVENT, p.now);
    var marked := if p.stop.Marking? then FirstOf(batch.operations, p.stop.writes) else batch.operations;
    UpdateAllAt(reviewed, marked, ToSending, p.now, k);
    SameEntryTransitive(file.mutations[k], reviewed.mutations[k], UpdateAll(reviewed, marked, ToSending, p.now).mutations[k]);
  }

  lemma SameEntryTransitive(a: Mutation, b: Mutation, d: Mutation)
    requires SameEntry(a, b) && SameEntry(b, d)
    ensures SameEntry(a, d)
  {
  }

  /** An operation of the batch is not the one missing its event. */
  lemma NotMissing(c: Setting, d: Disk, now: int, k: nat)
    requires DistinctOperations(d.file.mutations) && k < |d.file.mutations|
    requires d.file.mutations[k].operationId in BatchAt(c, d, now).operations
    ensures d.file.mutations[k].operationId !in BatchAt(c, d, now).missing
  {
    var all, batch := d.file.mutations, BatchAt(c, d, now);
    var ready := Ready(all, c.logbook, now);
    BatchMatches(ready, d.log);
    ReadyInOrder(all, c.logbook, now);
    BatchHasEvent(d.file, c.logbook, d.log, now, k);
    hide Ready, BatchOf, InOrder, ReadyAt, Unblocked;
  }

  lemma DependenciesStay(a: seq<Mutation>, b: seq<Mutation>, m: Mutation, m2: Mutation)
    requires Grown(a, b) && Unblocked(a, m) && m2.dependencies == m.dependencies
    ensures Unblocked(b, m2)
  {
    forall i | 0 <= i < |m2.dependencies| ensures DependencySatisfied(b, m2.dependencies[i]) {
      var dep := m2.dependencies[i];
      assert DependencySatisfied(a, dep);
      if dep.operationId.Some? {
        var x :| 0 <= x < |a| && a[x].operationId == dep.operationId.value && a[x].status == Accepted;
        assert Kept(a[x], b[x]);
      }
      if dep.eventHash.Some? {
        var x :| 0 <= x < |a| && a[x].localEventHash == Some(dep.eventHash.value) && a[x].status == Accepted;
        assert Kept(a[x], b[x]);
      }
    }
  }

  lemma LogUntouched(c: Setting, w: World, p: Push)
    ensures AfterPush(c, w, p).disk.log == w.disk.log
  {
    hide BatchAt, UpdateAll, Prepare, Settled, ServerAnswer;
  }

  lemma CutKeeps(c: Setting, w: World, p: Push, recovered: int)
    requires Sound(c, w)
    ensures var w2 := Act(c, Act(c, w, Pushing(p)), Recovering(recovered)); Sound(c, w2) && Leads(w, w2)
  {
    var w1 := Act(c, w, Pushing(p));
    ActKeeps(c, w, Pushing(p));
    ActKeeps(c, w1, Recovering(recovered));
    hide *;
    LeadsTransitive(w, w1, Act(c, w1, Recovering(recovered)));
  }

  /** What a push cut short and a recovery leave of an operation of its batch. */
  lemma DueAgain(c: Setting, w: World, p: Push, recovered: int, now: int, k: nat)
    requires DistinctOperations(w.disk.file.mutations) && !p.stop.Settling? && k < |w.disk.file.mutations|
    requires p.now <= now && recovered <= now && ReadyAt(w.disk.file.mutations[k], p.now)
    requires w.disk.file.mutations[k].operationId in BatchAt(c, w.disk, p.now).operations
    ensures var w2 := Act(c, Act(c, w, Pushing(p)), Recovering(recovered)); var all2 := w2.disk.file.mutations;
      && |all2| == |w.disk.file.mutations| && ReadyAt(all2[k], now) && w2.disk.log == w.disk.log
      && SameEntry(w.disk.file.mutations[k], all2[k]) && all2[k].localEventHash == w.disk.file.mutations[k].localEventHash
  {
    MarkedOrNot(c, w, p, k);
    LogUntouched(c, w, p);
    hide AfterPush, BatchAt, DistinctOperations;
    var w1 := Act(c, w, Pushing(p));
    assert Act(c, w1, Recovering(recovered)).disk.file.mutations[k] == RecoverOne(w1.disk.file.mutations[k], recovered);
  }

  /** After a push cut short and a recovery, an operation of its batch can be sent. */
  lemma SendableAgain(c: Setting, w: World, p: Push, recovered: int, now: int, k: nat)
    requires Sound(c, w) && !p.stop.Settling? && p.now <= now && recovered <= now && k < |w.disk.file.mutations|
    requires w.disk.file.mutations[k].operationId in BatchAt(c, w.disk, p.now).operations
    ensures var w2 := Act(c, Act(c, w, Pushing(p)), Recovering(recovered)); var all2 := w2.disk.file.mutations;
      |all2| == |w.disk.file.mutations| && Sendable(all2, all2[k], w2.disk.log, now)
  {
    var all := w.disk.file.mutations;
    BatchExactly(c, w.disk, p.now, k);
    assert all[k] in all && Sendable(all, all[k], w.disk.log, p.now);
    DueAgain(c, w, p, recovered, now, k);
    CutKeeps(c, w, p, recovered);
    var w2 := Act(c, Act(c, w, Pushing(p)), Recovering(recovered));
    hide Act, BatchAt, Valid, FileValid, DistinctOperations, WithHash, Unblocked, AcceptedStored, ReadyAt, Grown;
    DependenciesStay(all, w2.disk.file.mutations, all[k], w2.disk.file.mutations[k]);
  }

  /** A push cut short before its answer was acted on loses nothing: after recovery,
      at any later time, every operation of its batch is in the batch again. */
  lemma CutPushResumes(c: Setting, w: World, p: Push, recovered: int, now: int, k: nat)
    requires Sound(c, w) && !p.stop.Settling? && p.now <= now && recovered <= now && k < |w.disk.file.mutations|
    requires w.disk.file.mutations[k].operationId in BatchAt(c, w.disk, p.now).operations
    ensures var w2 := Act(c, Act(c, w, Pushing(p)), Recovering(recovered));
      w.disk.file.mutations[k].operationId in BatchAt(c, w2.disk, now).operations
  {
    var w2 := Act(c, Act(c, w, Pushing(p)), Recovering(recovered));
    var all, all2 := w.disk.file.mutations, w2.disk.file.mutations;
    hide Act, BatchAt, Valid, FileValid, DistinctOperations, KnowsMore, AcceptedStored, Unblocked, LocalEvent;
    SendableAgain(c, w, p, recovered, now, k);
    assert all2[k].status != Accepted;
    hide Sendable;
    CutKeeps(c, w, p, recovered);
    BatchExactly(c, w.disk, p.now, k);
    BatchExactly(c, w2.disk, now, k);
    assert Kept(all[k], all2[k]);
    forall j: nat | j < |all2| && all2[j].logbookId == c.logbook && all2[j].sequence <= all2[k].sequence && all2[j].status != Accepted
      ensures Sendable(all2, all2[j], w2.disk.log, now)
    {
      assert Kept(all[j], all2[j]);
      BatchExactly(c, w.disk, p.now, j);
      SendableAgain(c, w, p, recovered, now, j);
    }
    assert PathClear(w2.disk, c.logbook, all2[k].sequence, now);
  }

  /** With every mark for sending made, an operation of the batch is being sent. */
  lemma AllMarked(c: Setting, w: World, p: Push, k: nat)
    requires DistinctOperations(w.disk.file.mutations) && k < |w.disk.file.mutations|
    requires w.disk.file.mutations[k].operationId in BatchAt(c, w.disk, p.now).operations
    ensures var m := w.disk.file.mutations[k]; var batch := BatchAt(c, w.disk, p.now);
      var a := Prepare(w.disk.file, c.logbook, w.disk.log, p.mode, p.now);
      && a.Sent? && |a.file.mutations| == |w.disk.file.mutations| && DistinctOperations(a.file.mutations)
      && SameEntry(m, a.file.mutations[k]) && a.file.mutations[k].localEventHash == m.localEventHash
      && a.file.mutations[k].status == Sending
      && exists i :: 0 <= i < |batch.events| && m.localEventHash == Some(batch.events[i].eventHash)
  {
    var file, batch := w.disk.file, BatchAt(c, w.disk, p.now);
    BatchHasEvent(file, c.logbook, w.disk.log, p.now, k);
    hide BatchOf, Ready, UpdateAll, DistinctOperations, SameEntry;
    UpdateAllAt(file, batch.missing, NO_LOCAL_EVENT, p.now, k);
    var reviewed := UpdateAll(file, batch.missing, NO_LOCAL_EVENT, p.now);
    UpdateAllAt(reviewed, batch.operations, ToSending, p.now, k);
    SameEntryTransitive(file.mutations[k], reviewed.mutations[k], UpdateAll(reviewed, batch.operations, ToSending, p.now).mutations[k]);
  }

  /** How a failed or accepted push has left an operation of its batch, when so many of
      its settling writes were made and the queue was then recovered. */
  predicate LeftAs(m: Mutation, settlement: Option<Change>, marked: bool, writes: nat, recovered: int) {
    if settlement.None? && writes > 0 then m.status == Accepted
    else if settlement.Some? && marked then m.status in Outcomes(settlement.value)
    else m.status == Retrying && m.nextAttemptAt == Some(recovered)
  }

  /** A push stopped among the writes that settle its batch, and then recovered: with
      the batch accepted by the server and that written, every operation of it is
      accepted; otherwise those settled already are as the failure leaves them, and
      the others are due to be sent again. */
  lemma CutSettlingLeaves(c: Setting, w: World, p: Push, recovered: int, k: nat)
    requires Sound(c, w) && p.stop.Settling? && k < |w.disk.file.mutations|
    requires w.disk.file.mutations[k].operationId in BatchAt(c, w.disk, p.now).operations
    ensures var m := w.disk.file.mutations[k]; var batch := BatchAt(c, w.disk, p.now);
      var a := Prepare(w.disk.file, c.logbook, w.disk.log, p.mode, p.now);
      var all2 := Act(c, Act(c, w, Pushing(p)), Recovering(recovered)).disk.file.mutations;
      && a.Sent? && |all2| == |w.disk.file.mutations| && SameEntry(m, all2[k]) && all2[k].localEventHash == m.localEventHash
      && LeftAs(
           all2[k], Settlement(ServerAnswer(c.h, w.server, c.debug, c.logbook, a.events, p.refusal).0),
           m.operationId in FirstOf(batch.operations, p.stop.writes), p.stop.writes, recovered)
  {
    var m, batch := w.disk.file.mutations[k], BatchAt(c, w.disk, p.now);
    var a := Prepare(w.disk.file, c.logbook, w.disk.log, p.mode, p.now);
    AllMarked(c, w, p, k);
    var reply := ServerAnswer(c.h, w.server, c.debug, c.logbook, a.events, p.refusal).0;
    var settling := batch.(operations := FirstOf(batch.operations, p.stop.writes));
    var settled := Act(c, w, Pushing(p)).disk.file;
    assert settled == if p.stop.writes == 0 then a.file else Settled(a.file, settling, reply, p.now);
    assert Act(c, Act(c, w, Pushing(p)), Recovering(recovered)).disk.file.mutations == Recover(settled.mutations, recovered);
    assert p.stop.writes == 0 ==> settling.operations == [];
    hide AfterPush, Act, BatchAt, Prepare, ServerAnswer, Settled, Settlement, DistinctOperations, SameEntry, Valid, FileValid, Recover;
    if p.stop.writes > 0 {
      SettledAt(a.file, settling, reply, p.now, k);
      SameEntryTransitive(m, a.file.mutations[k], settled.mutations[k]);
    }
    RecoveredAt(settled.mutations, recovered, k);
    OutcomesEnd(reply);
    SameEntryTransitive(m, settled.mutations[k], Recover(settled.mutations, recovered)[k]);
  }

  /** Nothing a push settles is left in sending. */
  lemma OutcomesEnd(reply: Result<PushReply, string>)
    ensures Settlement(reply).Some? ==> Sending !in Outcomes(Settlement(reply).value)
  {
  }

  lemma RecoveredAt(mutations: seq<Mutation>, now: int, k: nat)
    requires k < |mutations|
    ensures var m, m2 := mutations[k], Recover(mutations, now)[k];
      && SameEntry(m, m2) && m2.localEventHash == m.localEventHash
      && (if m.status == Sending then m2.status == Retrying && m2.nextAttemptAt == Some(now) else m2 == m)
  {
  }

  /** What settling some operations of a batch makes of an entry being sent. */
  lemma SettledAt(file: QueueFile, batch: Batch, reply: Result<PushReply, string>, now: int, k: nat)
    requires DistinctOperations(file.mutations) && k < |file.mutations| && file.mutations[k].status == Sending
    requires exists i :: 0 <= i < |batch.events| && file.mutations[k].localEventHash == Some(batch.events[i].eventHash)
    ensures var m := file.mutations[k]; var after := Settled(file, batch, reply, now).mutations;
      && |after| == |file.mutations| && SameEntry(m, after[k]) && after[k].localEventHash == m.localEventHash
      && match Settlement(reply)
         case None => after[k].status == Accepted
         case Some(change) => if m.operationId in batch.operations then after[k].status in Outcomes(change) else after[k].status == Sending
  {
    hide UpdateAll, DistinctOperations;
    match Settlement(reply) {
      case None => assert file.mutations[k].localEventHash.value in Hashes(batch.events);
      case Some(change) => UpdateAllAt(file, batch.operations, change, now, k);
    }
  }
}
