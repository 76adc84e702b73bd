/** What an enqueued input leaves in the queue file, and what each later change makes
    of an entry, stated without the functions that compute it
    (crates/ham-core/src/sync/offline.rs:145-230, 440-560 and 700-760). */
module QueueEntries {
  import opened Basics
  import opened Text
  import opened Event
  import opened OfflineQueue
  import QueueStore

  /** The entry belongs to the input's logbook and carries the operation id or the
      idempotency key the input names. */
  predicate Repeats(m: Mutation, input: Input) {
    && m.logbookId == input.logbookId
    && (input.operationId == Some(m.operationId) || input.idempotencyKey == Some(m.idempotencyKey))
  }

  ghost predicate Known(mutations: seq<Mutation>, input: Input) {
    exists i :: 0 <= i < |mutations| && Repeats(mutations[i], input)
  }

  /** The operation type has a character that is no space, so has the key, and no
      dependency asks for a schema after version 1. */
  ghost predicate Acceptable(input: Input, newKey: string) {
    && (exists k :: 0 <= k < |input.operationType| && !IsSpace(input.operationType[k]))
    && (exists k :: 0 <= k < |input.idempotencyKey.GetOr(newKey)| && !IsSpace(input.idempotencyKey.GetOr(newKey)[k]))
    && (forall d :: d in input.dependencies && d.minimumSchema.Some? ==> d.minimumSchema.value <= 1)
  }

  /** The sequence a new entry of the logbook is given: after every sequence in use,
      not before the stored counter, and not later than these ask; 1 when there are
      neither. */
  ghost predicate NextFor(s: nat, file: QueueFile, logbook: Uuid) {
    && (forall m :: m in file.mutations && m.logbookId == logbook ==> m.sequence < s)
    && (logbook in file.nextSequence ==> file.nextSequence[logbook] <= s)
    && ( || (exists m :: m in file.mutations && m.logbookId == logbook && m.sequence + 1 == s)
         || (logbook in file.nextSequence && file.nextSequence[logbook] == s)
         || (logbook !in file.nextSequence && s == 1 && forall m :: m in file.mutations ==> m.logbookId != logbook))
  }

  lemma {:induction false} FindExactly(mutations: seq<Mutation>, logbook: Uuid, id: Option<Uuid>, key: Option<string>)
    ensures var r := FindInput(mutations, logbook, id, key);
      && (r.Some? ==> r.value.logbookId == logbook && (id == Some(r.value.operationId) || key == Some(r.value.idempotencyKey)))
      && (r.None? ==> forall i :: 0 <= i < |mutations| && mutations[i].logbookId == logbook ==>
            id != Some(mutations[i].operationId) && key != Some(mutations[i].idempotencyKey))
  {
    if mutations != [] {
      FindExactly(mutations[1..], logbook, id, key);
      if FindInput(mutations, logbook, id, key).None? {
        forall i | 0 <= i < |mutations| && mutations[i].logbookId == logbook
          ensures id != Some(mutations[i].operationId) && key != Some(mutations[i].idempotencyKey)
        {
          assert i > 0 ==> mutations[i] == mutations[1..][i - 1];
        }
      }
    }
  }

  lemma ExistingExactly(mutations: seq<Mutation>, input: Input)
    ensures Existing(mutations, input).Some? <==> Known(mutations, input)
    ensures Existing(mutations, input).Some? ==>
      Existing(mutations, input).value in mutations && Repeats(Existing(mutations, input).value, input)
  {
    FindExactly(mutations, input.logbookId, input.operationId, None);
    FindExactly(mutations, input.logbookId, None, input.idempotencyKey);
    hide FindInput;
    if Existing(mutations, input).Some? {
      var i :| 0 <= i < |mutations| && mutations[i] == Existing(mutations, input).value;
      assert Repeats(mutations[i], input);
    }
  }

  lemma {:induction false} DerivedReached(mutations: seq<Mutation>, logbook: Uuid)
    ensures var d := Derived(mutations, logbook);
      if d == 0 then forall m :: m in mutations ==> m.logbookId != logbook
      else exists m :: m in mutations && m.logbookId == logbook && m.sequence + 1 == d
  {
    if mutations != [] {
      DerivedReached(mutations[..|mutations| - 1], logbook);
      var m := mutations[|mutations| - 1];
      assert m in mutations;
      assert mutations == mutations[..|mutations| - 1] + [m];
    }
  }

  lemma NextExactly(file: QueueFile, logbook: Uuid)
    ensures NextFor(NextSequence(file, logbook), file, logbook)
  {
    DerivedReached(file.mutations, logbook);
    forall m | m in file.mutations && m.logbookId == logbook ensures m.sequence < Derived(file.mutations, logbook) {
      var i :| 0 <= i < |file.mutations| && file.mutations[i] == m;
      DerivedBounds(file.mutations, logbook, i);
    }
    hide Derived;
  }

  /** There is one such sequence. */
  lemma NextIsOne(s: nat, t: nat, file: QueueFile, logbook: Uuid)
    requires NextFor(s, file, logbook) && NextFor(t, file, logbook)
    ensures s == t
  {
  }

  /** An input is answered with an entry of its logbook that repeats it, if there is
      one, and stores nothing. Otherwise an acceptable one is stored last, pending and
      due at once, under its own id and key, and moves the counter of its logbook past
      it and no other; an input that is not acceptable, or that would be given sequence
      0, stores nothing and is refused. */
  lemma EnqueueExactly(file: QueueFile, input: Input, newId: Uuid, newKey: string, now: int, s: nat)
    requires NextFor(s, file, input.logbookId)
    ensures var r := Enqueue(file, input, newId, newKey, now);
      if Known(file.mutations, input) then
        && r.file == file && r.result.Some? && r.result.value in file.mutations && Repeats(r.result.value, input)
      else if !Acceptable(input, newKey) || s == 0 then r == Enqueued(None, file)
      else
        && r.result.Some? && r.file.mutations == file.mutations + [r.result.value]
        && StoredFor(r.result.value, input, newId, newKey, now, s)
        && r.file.nextSequence == file.nextSequence[input.logbookId := s + 1]
  {
    NextExactly(file, input.logbookId);
    NextIsOne(s, NextSequence(file, input.logbookId), file, input.logbookId);
    ExistingExactly(file.mutations, input);
    var m := NewMutation(input, s, newId, newKey, now);
    ValidExactly(m);
    assert StoredFor(m, input, newId, newKey, now, s);
    assert MutationValid(m) <==> Acceptable(input, newKey) && s > 0;
    hide Existing, NextSequence, NextFor, MutationValid, Acceptable, Known, Repeats, StoredFor;
  }

  predicate StoredFor(m: Mutation, input: Input, newId: Uuid, newKey: string, now: int, s: nat) {
    && m.operationId == input.operationId.GetOr(newId) && m.idempotencyKey == input.idempotencyKey.GetOr(newKey)
    && m.logbookId == input.logbookId && m.entityId == input.entityId && m.sequence == s
    && m.operationType == input.operationType && m.dependencies == input.dependencies && m.payload == input.payload
    && m.status == Pending && m.attempts == 0 && m.nextAttemptAt.None?
    && m.maxAttempts == 8 && m.backoffSeconds == 5 && m.maxBackoffSeconds == 900
    && m.createdAt == m.updatedAt == now
    && m.officialEventId.None? && m.localEventHash.None? && m.acceptedAt.None?
    && m.failureReason.None? && m.lastErrorCode.None?
  }

  lemma ValidExactly(m: Mutation)
    ensures MutationValid(m) <==>
      && (exists k :: 0 <= k < |m.operationType| && !IsSpace(m.operationType[k]))
      && (exists k :: 0 <= k < |m.idempotencyKey| && !IsSpace(m.idempotencyKey[k]))
      && m.sequence > 0
      && (forall d :: d in m.dependencies && d.minimumSchema.Some? ==> d.minimumSchema.value <= 1)
  {
    BlankExactly(m.operationType);
    BlankExactly(m.idempotencyKey);
    assert (forall i :: 0 <= i < |m.dependencies| ==> DependencyValid(m.dependencies[i])) <==>
      (forall d :: d in m.dependencies ==> DependencyValid(d)) by {
      if forall i :: 0 <= i < |m.dependencies| ==> DependencyValid(m.dependencies[i]) {
        forall d | d in m.dependencies ensures DependencyValid(d) {
          var i :| 0 <= i < |m.dependencies| && m.dependencies[i] == d;
        }
      }
    }
    hide Blank;
  }

  // ----- later changes -----

  /** An entry is given its event once it is appended: it names that event from then
      on, keeps an entity it had, and one that was held back or refused is due again;
      an entry being sent or waiting for a retry stays so. */
  lemma GivenEvent(m: Mutation, event: Envelope, now: int)
    ensures var g := Changed(ToLocalEvent(event), m, now);
      && g.officialEventId == Some(event.eventId) && g.localEventHash == Some(event.eventHash)
      && (g.entityId == m.entityId || (m.entityId.None? && g.entityId == event.entityId))
      && (m.entityId.None? ==> g.entityId == event.entityId)
      && SameEntry(m, g) && g.attempts == m.attempts && g.nextAttemptAt == m.nextAttemptAt
      && g.failureReason.None? && g.lastErrorCode.None?
      && (m.status in {Blocked, Failed, UserActionRequired} ==> g.status == Pending)
      && (m.status in {Pending, Sending, Retrying, Accepted} ==> g.status == m.status)
  {
  }

  /** What every change has in common: it is dated, it counts an attempt only when
      sending starts, an entry waits for a time only while it is retrying, and it gives
      a reason exactly when it was not sent or given an event. */
  lemma ChangesAlike(c: Change, m: Mutation, now: int)
    ensures var g := Changed(c, m, now);
      && SameEntry(m, g) && g.updatedAt == now && g.createdAt == m.createdAt && g.acceptedAt == m.acceptedAt
      && g.attempts == m.attempts + (if c.ToSending? then 1 else 0)
      && g.maxAttempts == m.maxAttempts && g.backoffSeconds == m.backoffSeconds && g.maxBackoffSeconds == m.maxBackoffSeconds
      && (!c.ToLocalEvent? ==> (g.nextAttemptAt.Some? <==> g.status == Retrying) && g.localEventHash == m.localEventHash)
      && (g.failureReason.None? <==> c.ToSending? || c.ToLocalEvent?)
      && (c.ToSending? || c.ToLocalEvent? ==> g.lastErrorCode.None?)
  {
    hide RetrySeconds;
  }

  /** An entry is accepted exactly when it was already or its event is among the
      accepted ones, which also clears its failure and its date; nothing else changes. */
  lemma AcceptedByHash(mutations: seq<Mutation>, hashes: set<string>, now: int, i: nat)
    requires i < |mutations|
    ensures var before := mutations[i]; var after := AcceptHashes(mutations, hashes, now)[i];
      && SameEntry(before, after) && after.localEventHash == before.localEventHash && after.attempts == before.attempts
      && (after.status == Accepted <==>
            before.status == Accepted || exists hash :: hash in hashes && before.localEventHash == Some(hash))
      && (after.status != Accepted || before.status == Accepted ==> after == before)
      && (after.status == Accepted && before.status != Accepted ==>
            && after.acceptedAt == Some(now) && after.updatedAt == now && after.nextAttemptAt.None?
            && after.failureReason.None? && after.lastErrorCode.None?)
  {
  }

  /** What an interrupted send leaves is due at once, under the attempts it had used;
      no other entry changes. */
  lemma RecoveredIsDue(mutations: seq<Mutation>, now: int, i: nat)
    requires i < |mutations|
    ensures var before := mutations[i]; var after := Recover(mutations, now)[i];
      && (before.status != Sending ==> after == before)
      && (before.status == Sending ==>
            && after.status == Retrying && after.nextAttemptAt == Some(now) && after.attempts == before.attempts
            && SameEntry(before, after) && after.localEventHash == before.localEventHash
            && after.updatedAt == now && after.failureReason == Some("recovered interrupted send attempt"))
  {
  }

  /** The places of the entries being sent. */
  function SendingPlaces(mutations: seq<Mutation>): set<int> {
    set i | 0 <= i < |mutations| && mutations[i].status == Sending
  }

  /** One of the hashes accepts an entry that was not accepted. */
  predicate NewlyNamed(m: Mutation, hashes: set<string>) {
    m.status != Accepted && m.localEventHash.Some? && m.localEventHash.value in hashes
  }

  function NewPlaces(mutations: seq<Mutation>, hashes: set<string>): set<int> {
    set i | 0 <= i < |mutations| && NewlyNamed(mutations[i], hashes)
  }

  lemma OneMoreSending(before: seq<Mutation>, m: Mutation)
    ensures |SendingPlaces(before + [m])| == |SendingPlaces(before)| + if m.status == Sending then 1 else 0
  {
    var all := before + [m];
    assert forall i :: 0 <= i < |before| ==> all[i] == before[i];
    assert SendingPlaces(all) == SendingPlaces(before) + if m.status == Sending then {|before|} else {};
  }

  lemma OneMoreNamed(before: seq<Mutation>, m: Mutation, hashes: set<string>)
    ensures |NewPlaces(before + [m], hashes)| == |NewPlaces(before, hashes)| + if NewlyNamed(m, hashes) then 1 else 0
  {
    hide NewlyNamed;
    var all := before + [m];
    assert forall i :: 0 <= i < |before| ==> all[i] == before[i];
    assert NewPlaces(all, hashes) == NewPlaces(before, hashes) + if NewlyNamed(m, hashes) then {|before|} else {};
  }

  /** Recovering reports the number of entries that were being sent. */
  lemma {:induction false} SendingCounted(mutations: seq<Mutation>)
    ensures QueueStore.CountSending(mutations) == |SendingPlaces(mutations)|
  {
    if mutations == [] {
      assert SendingPlaces(mutations) == {};
    } else {
      var n := |mutations| - 1;
      SendingCounted(mutations[..n]);
      OneMoreSending(mutations[..n], mutations[n]);
      hide SendingPlaces;
      assert mutations[..n] + [mutations[n]] == mutations;
    }
  }

  /** Accepting by hash reports the number of entries newly accepted. */
  lemma {:induction false} AcceptancesCounted(mutations: seq<Mutation>, hashes: set<string>)
    ensures QueueStore.NewlyAccepted(mutations, hashes) == |NewPlaces(mutations, hashes)|
  {
    if mutations == [] {
      assert NewPlaces(mutations, hashes) == {};
    } else {
      var n := |mutations| - 1;
      AcceptancesCounted(mutations[..n], hashes);
      OneMoreNamed(mutations[..n], mutations[n], hashes);
      hide NewPlaces;
      assert mutations[..n] + [mutations[n]] == mutations;
    }
  }
}
