/** The offline mutation queue (crates/ham-core/src/sync/offline.rs:104-760 and
    940-1055): a durable file of mutations, one sequence per logbook. */
module OfflineQueue {
  import opened Basics
  import opened Text
  import opened Event
  import Json

  datatype Status = Pending | Sending | Retrying | Blocked | Failed | Accepted | UserActionRequired

  datatype Dependency = Dependency(operationId: Option<Uuid>, eventHash: Option<string>, minimumSchema: Option<nat>)

  /** Times are nanoseconds. */
  datatype Mutation = Mutation(
    operationId: Uuid,
    logbookId: Uuid,
    entityId: Option<Uuid>,
    sequence: nat,
    operationType: string,
    idempotencyKey: string,
    dependencies: seq<Dependency>,
    payload: Json.Value,
    status: Status,
    attempts: nat,
    maxAttempts: nat,
    backoffSeconds: nat,
    maxBackoffSeconds: nat,
    nextAttemptAt: Option<int>,
    createdAt: int,
    updatedAt: int,
    officialEventId: Option<Uuid>,
    localEventHash: Option<string>,
    acceptedAt: Option<int>,
    failureReason: Option<string>,
    lastErrorCode: Option<string>)

  const SCHEMA_VERSION: nat := 1

  predicate DependencyValid(d: Dependency) {
    d.minimumSchema.Some? ==> d.minimumSchema.value <= SCHEMA_VERSION
  }

  /** OfflineMutationEnvelope::validate. */
  predicate MutationValid(m: Mutation) {
    && !Blank(m.operationType) && !Blank(m.idempotencyKey) && m.sequence > 0
    && forall i :: 0 <= i < |m.dependencies| ==> DependencyValid(m.dependencies[i])
  }

  datatype QueueFile = QueueFile(nextSequence: map<Uuid, nat>, mutations: seq<Mutation>)

  /** OfflineQueueFile::validate: no two mutations of a logbook share a sequence. */
  ghost predicate FileValid(file: QueueFile) {
    && (forall m :: m in file.mutations ==> MutationValid(m))
    && (forall i, j :: 0 <= i < j < |file.mutations| ==> Apart(file.mutations[i], file.mutations[j]))
  }

  /** Every operation id names one mutation. */
  ghost predicate DistinctOperations(mutations: seq<Mutation>) {
    forall i, j :: 0 <= i < j < |mutations| ==> mutations[i].operationId != mutations[j].operationId
  }

  ghost predicate Apart(a: Mutation, b: Mutation) {
    !(a.logbookId == b.logbookId && a.sequence == b.sequence)
  }

  // ----- enqueueing -----

  datatype Input = Input(
    logbookId: Uuid,
    operationType: string,
    payload: Json.Value,
    entityId: Option<Uuid>,
    idempotencyKey: Option<string>,
    operationId: Option<Uuid>,
    dependencies: seq<Dependency>)

  function Max(a: nat, b: nat): nat {
    if a < b then b else a
  }

  /** One past the largest sequence used in a logbook, 0 if none is. */
  function Derived(mutations: seq<Mutation>, logbook: Uuid): nat {
    if mutations == [] then 0
    else
      var rest := Derived(mutations[..|mutations| - 1], logbook);
      var m := mutations[|mutations| - 1];
      if m.logbookId == logbook then Max(rest, m.sequence + 1) else rest
  }

  function NextSequence(file: QueueFile, logbook: Uuid): nat {
    var derived := Derived(file.mutations, logbook);
    if logbook in file.nextSequence then Max(file.nextSequence[logbook], derived)
    else if derived == 0 then 1 else derived
  }

  /** The first mutation of the logbook with the operation id, or else with the
      idempotency key, of the input. */
  function Existing(mutations: seq<Mutation>, input: Input): Option<Mutation> {
    var byId := FindInput(mutations, input.logbookId, input.operationId, None);
    if byId.Some? then byId else FindInput(mutations, input.logbookId, None, input.idempotencyKey)
  }

  function FindInput(mutations: seq<Mutation>, logbook: Uuid, id: Option<Uuid>, key: Option<string>): (r: Option<Mutation>)
    ensures r.Some? ==> r.value in mutations && r.value.logbookId == logbook
  {
    if mutations == [] then None
    else
      var m := mutations[0];
      if m.logbookId == logbook && ((id.Some? && m.operationId == id.value) || (key.Some? && m.idempotencyKey == key.value))
        then Some(m)
        else FindInput(mutations[1..], logbook, id, key)
  }

  const DEFAULT_MAX_ATTEMPTS: nat := 8
  const DEFAULT_BACKOFF_SECONDS: nat := 5
  const DEFAULT_MAX_BACKOFF_SECONDS: nat := 900

  /** OfflineMutationEnvelope::new. `newId` is used when the input names no id, and
      `newKey` when it names no key. */
  function NewMutation(input: Input, sequence: nat, newId: Uuid, newKey: string, now: int): Mutation {
    Mutation(
      if input.operationId.Some? then input.operationId.value else newId,
      input.logbookId, input.entityId, sequence, input.operationType,
      if input.idempotencyKey.Some? then input.idempotencyKey.value else newKey,
      input.dependencies, input.payload, Pending, 0, DEFAULT_MAX_ATTEMPTS, DEFAULT_BACKOFF_SECONDS,
      DEFAULT_MAX_BACKOFF_SECONDS, None, now, now, None, None, None, None, None)
  }

  datatype Enqueued = Enqueued(result: Option<Mutation>, file: QueueFile)

  /** enqueue_input: None when the new mutation is not valid. */
  function Enqueue(file: QueueFile, input: Input, newId: Uuid, newKey: string, now: int): Enqueued {
    var existing := Existing(file.mutations, input);
    if existing.Some? then Enqueued(existing, file)
    else
      var m := NewMutation(input, NextSequence(file, input.logbookId), newId, newKey, now);
      if !MutationValid(m) then Enqueued(None, file)
      else Enqueued(Some(m), QueueFile(file.nextSequence[m.logbookId := m.sequence + 1], file.mutations + [m]))
  }

  lemma {:induction false} DerivedBounds(mutations: seq<Mutation>, logbook: Uuid, i: nat)
    requires i < |mutations| && mutations[i].logbookId == logbook
    ensures mutations[i].sequence < Derived(mutations, logbook)
  {
    if i < |mutations| - 1 {
      DerivedBounds(mutations[..|mutations| - 1], logbook, i);
    }
  }

  /** A new mutation comes after every mutation its logbook ever had, so the file
      stays valid; its sequence is 1 in a logbook never used before. */
  lemma EnqueueAppendsLast(file: QueueFile, input: Input, newId: Uuid, newKey: string, now: int)
    requires FileValid(file)
    ensures var r := Enqueue(file, input, newId, newKey, now);
      && FileValid(r.file)
      && (r.file != file ==>
            && r.result.Some? && r.file.mutations == file.mutations + [r.result.value]
            && forall i :: 0 <= i < |file.mutations| && file.mutations[i].logbookId == input.logbookId ==>
                 file.mutations[i].sequence < r.result.value.sequence)
  {
    hide Existing, MutationValid, Derived;
    var r := Enqueue(file, input, newId, newKey, now);
    forall i | 0 <= i < |file.mutations| && file.mutations[i].logbookId == input.logbookId
      ensures file.mutations[i].sequence < NextSequence(file, input.logbookId)
    {
      DerivedBounds(file.mutations, input.logbookId, i);
    }
  }

  /** A file whose entries are still those of an earlier one, in their places and
      with the same content, possibly with more behind them. */
  ghost predicate Extends(earlier: seq<Mutation>, later: seq<Mutation>) {
    |earlier| <= |later| && forall i :: 0 <= i < |earlier| ==> SameEntry(earlier[i], later[i])
  }

  lemma {:induction false} FindInputExtends(earlier: seq<Mutation>, later: seq<Mutation>, logbook: Uuid, id: Option<Uuid>, key: Option<string>)
    requires Extends(earlier, later) && FindInput(earlier, logbook, id, key).Some?
    ensures FindInput(later, logbook, id, key).Some?
    ensures SameEntry(FindInput(earlier, logbook, id, key).value, FindInput(later, logbook, id, key).value)
  {
    assert SameEntry(earlier[0], later[0]);
    var m := earlier[0];
    if !(m.logbookId == logbook && ((id.Some? && m.operationId == id.value) || (key.Some? && m.idempotencyKey == key.value))) {
      FindInputExtends(earlier[1..], later[1..], logbook, id, key);
    }
  }

  lemma {:induction false} FoundById(mutations: seq<Mutation>, logbook: Uuid, id: Uuid, m: Mutation)
    requires m in mutations && m.logbookId == logbook && m.operationId == id
    ensures FindInput(mutations, logbook, Some(id), None).Some?
  {
    if m != mutations[0] {
      FoundById(mutations[1..], logbook, id, m);
    }
  }

  /** Enqueueing the same input again finds what the first call stored or found. */
  lemma FoundAfterwards(file: QueueFile, input: Input, id: Uuid, key: string, now: int)
    requires input.operationId.Some? || input.idempotencyKey.Some?
    requires Enqueue(file, input, id, key, now).result.Some?
    ensures var first := Enqueue(file, input, id, key, now); Existing(first.file.mutations, input) == first.result
  {
    hide MutationValid, NextSequence;
    var first := Enqueue(file, input, id, key, now);
    if Existing(file.mutations, input).None? {
      var m := first.result.value;
      FindInputSnoc(file.mutations, m, input.logbookId, input.operationId, None);
      FindInputSnoc(file.mutations, m, input.logbookId, None, input.idempotencyKey);
    }
  }

  /** Enqueueing the same input again, whatever was enqueued and whichever statuses
      changed in between, stores nothing; it returns the first call's entry, unless
      that one had matched by its key alone and another entry has since taken the
      operation id asked for. */
  lemma EnqueueTwice(file: QueueFile, input: Input, id: Uuid, key: string, now: int, later: QueueFile, id2: Uuid, key2: string, now2: int)
    requires input.operationId.Some? || input.idempotencyKey.Some?
    requires Enqueue(file, input, id, key, now).result.Some?
    requires Extends(Enqueue(file, input, id, key, now).file.mutations, later.mutations)
    ensures var first := Enqueue(file, input, id, key, now).result; var second := Enqueue(later, input, id2, key2, now2);
      && second.result.Some? && second.file == later
      && (input.operationId.None? || input.operationId == Some(first.value.operationId) ==>
            SameEntry(first.value, second.result.value))
  {
    var first := Enqueue(file, input, id, key, now);
    FoundAfterwards(file, input, id, key, now);
    hide Enqueue, SameEntry;
    var byId := FindInput(first.file.mutations, input.logbookId, input.operationId, None);
    if byId.Some? {
      FindInputExtends(first.file.mutations, later.mutations, input.logbookId, input.operationId, None);
    } else {
      FindInputExtends(first.file.mutations, later.mutations, input.logbookId, None, input.idempotencyKey);
      if input.operationId == Some(first.result.value.operationId) {
        FoundById(first.file.mutations, input.logbookId, input.operationId.value, first.result.value);
      } else if input.operationId.None? {
        FindsNothing(later.mutations, input.logbookId);
      }
    }
    EnqueueFinds(later, input, id2, key2, now2);
  }

  lemma EnqueueFinds(file: QueueFile, input: Input, newId: Uuid, newKey: string, now: int)
    ensures Existing(file.mutations, input).Some? ==>
      Enqueue(file, input, newId, newKey, now) == Enqueued(Existing(file.mutations, input), file)
  {
    hide MutationValid, NextSequence, Existing;
  }

  lemma {:induction false} FindsNothing(mutations: seq<Mutation>, logbook: Uuid)
    ensures FindInput(mutations, logbook, None, None).None?
  {
    if mutations != [] {
      FindsNothing(mutations[1..], logbook);
    }
  }

  lemma {:induction false} FindInputSnoc(mutations: seq<Mutation>, m: Mutation, logbook: Uuid, id: Option<Uuid>, key: Option<string>)
    requires FindInput(mutations, logbook, id, key).None? && m.logbookId == logbook
    ensures FindInput(mutations + [m], logbook, id, key) ==
      if (id.Some? && m.operationId == id.value) || (key.Some? && m.idempotencyKey == key.value) then Some(m) else None
  {
    if mutations == [] {
      assert mutations + [m] == [m] && [m][1..] == [];
    } else {
      assert (mutations + [m])[1..] == mutations[1..] + [m];
      FindInputSnoc(mutations[1..], m, logbook, id, key);
    }
  }

  // ----- changing one mutation -----

  const NANOS_PER_SECOND: int := 1_000_000_000
  const U64_MAX: nat := 0xFFFF_FFFF_FFFF_FFFF

  function Pow2(n: nat): nat {
    if n == 0 then 1 else 2 * Pow2(n - 1)
  }

  /** retry_delay, in seconds. */
  function RetrySeconds(m: Mutation): (s: nat)
    ensures 1 <= s <= Max(1, m.maxBackoffSeconds)
  {
    var exponent := if m.attempts == 0 then 0 else if m.attempts - 1 > 16 then 16 else m.attempts - 1;
    var product := m.backoffSeconds * Pow2(exponent);
    var capped := if product > U64_MAX then U64_MAX else product;
    Max(1, if capped > m.maxBackoffSeconds then m.maxBackoffSeconds else capped)
  }

  function Min(a: nat, b: nat): nat {
    if a < b then a else b
  }

  /** The delay is the base delay doubled for every attempt after the first, sixteen
      times at most, within 64 bits and the configured maximum, and a second at
      least. */
  lemma RetryExactly(m: Mutation)
    requires m.attempts >= 1
    ensures RetrySeconds(m) == Max(1, Min(m.maxBackoffSeconds, Min(U64_MAX, m.backoffSeconds * Pow2(Min(m.attempts - 1, 16)))))
  {
  }

  lemma RetryFirst(m: Mutation)
    requires m.attempts <= 1
    ensures RetrySeconds(m) == Max(1, Min(m.maxBackoffSeconds, Min(U64_MAX, m.backoffSeconds)))
  {
    assert Pow2(0) == 1;
  }

  /** As long as the maximum allows, one more attempt doubles the delay. */
  lemma RetryDoubles(m: Mutation)
    requires 1 <= m.attempts <= 16 && m.backoffSeconds >= 1 && 2 * RetrySeconds(m) <= Min(m.maxBackoffSeconds, U64_MAX)
    ensures RetrySeconds(m.(attempts := m.attempts + 1)) == 2 * RetrySeconds(m)
  {
    var next := m.(attempts := m.attempts + 1);
    RetryExactly(m);
    RetryExactly(next);
    var power := Pow2(m.attempts - 1);
    PowPositive(m.attempts - 1);
    assert Pow2(m.attempts) == 2 * power;
    assert Min(m.attempts - 1, 16) == m.attempts - 1 && Min(next.attempts - 1, 16) == m.attempts;
    hide *;
    AtLeastOne(m.backoffSeconds, power);
    TwiceAsMuch(m.backoffSeconds, power);
    CappedDoubles(m.maxBackoffSeconds, m.backoffSeconds * power);
  }

  lemma CappedDoubles(limit: nat, product: nat)
    requires product >= 1 && 2 * Max(1, Min(limit, Min(U64_MAX, product))) <= Min(limit, U64_MAX)
    ensures Max(1, Min(limit, Min(U64_MAX, 2 * product))) == 2 * Max(1, Min(limit, Min(U64_MAX, product)))
  {
  }

  lemma TwiceAsMuch(a: nat, b: nat)
    ensures a * (2 * b) == 2 * (a * b)
  {
  }

  lemma {:induction false} PowPositive(n: nat)
    ensures Pow2(n) >= 1
  {
    if n > 0 {
      PowPositive(n - 1);
    }
  }

  lemma AtLeastOne(a: nat, b: nat)
    requires a >= 1 && b >= 1
    ensures a * b >= 1
  {
  }

  datatype Change =
    | ToSending
    | ToTransientFailure(reason: string, code: Option<string>)
    | ToBlocked(reason: string)
    | ToUserAction(reason: string, code: Option<string>)
    | ToLocalEvent(event: Envelope)

  /** What each mark_… method and record_local_event does to its mutation. */
  function Changed(c: Change, m: Mutation, now: int): Mutation {
    match c
    case ToSending =>
      m.(status := Sending, attempts := m.attempts + 1, nextAttemptAt := None, failureReason := None,
         lastErrorCode := None, updatedAt := now)
    case ToTransientFailure(reason, code) =>
      var failed := m.attempts >= m.maxAttempts;
      m.(status := if failed then Failed else Retrying,
         nextAttemptAt := if failed then None else Some(now + RetrySeconds(m) * NANOS_PER_SECOND),
         failureReason := Some(reason), lastErrorCode := code, updatedAt := now)
    case ToBlocked(reason) =>
      m.(status := Blocked, failureReason := Some(reason), nextAttemptAt := None, updatedAt := now)
    case ToUserAction(reason, code) =>
      m.(status := UserActionRequired, failureReason := Some(reason), lastErrorCode := code, nextAttemptAt := None,
         updatedAt := now)
    case ToLocalEvent(event) =>
      m.(officialEventId := Some(event.eventId), localEventHash := Some(event.eventHash),
         entityId := if m.entityId.None? then event.entityId else m.entityId,
         failureReason := None, lastErrorCode := None, updatedAt := now,
         status := if m.status == Blocked || m.status == Failed || m.status == UserActionRequired then Pending else m.status)
  }

  function FindOperation(mutations: seq<Mutation>, id: Uuid): (r: Option<nat>)
    ensures r.Some? ==>
      r.value < |mutations| && mutations[r.value].operationId == id &&
      forall i :: 0 <= i < r.value ==> mutations[i].operationId != id
    ensures r.None? ==> forall i :: 0 <= i < |mutations| ==> mutations[i].operationId != id
  {
    if mutations == [] then None
    else if mutations[0].operationId == id then Some(0)
    else
      match FindOperation(mutations[1..], id)
      case None => None
      case Some(i) => Some(i + 1)
  }

  /** update_mutation: the first mutation with the id, if there is one. */
  function Update(file: QueueFile, id: Uuid, c: Change, now: int): QueueFile {
    match FindOperation(file.mutations, id)
    case None => file
    case Some(i) => file.(mutations := file.mutations[i := Changed(c, file.mutations[i], now)])
  }

  function AcceptOne(m: Mutation, hashes: set<string>, now: int): Mutation {
    if m.localEventHash.Some? && m.localEventHash.value in hashes && m.status != Accepted
      then m.(status := Accepted, acceptedAt := Some(now), updatedAt := now, nextAttemptAt := None, failureReason := None,
              lastErrorCode := None)
      else m
  }

  /** mark_accepted_by_event_hashes. */
  function AcceptHashes(mutations: seq<Mutation>, hashes: set<string>, now: int): (r: seq<Mutation>)
    ensures |r| == |mutations| && forall i :: 0 <= i < |r| ==> r[i] == AcceptOne(mutations[i], hashes, now)
  {
    seq(|mutations|, i requires 0 <= i < |mutations| => AcceptOne(mutations[i], hashes, now))
  }

  function RecoverOne(m: Mutation, now: int): Mutation {
    if m.status == Sending
      then m.(status := Retrying, nextAttemptAt := Some(now), updatedAt := now,
              failureReason := Some("recovered interrupted send attempt"))
      else m
  }

  function Recover(mutations: seq<Mutation>, now: int): (r: seq<Mutation>)
    ensures |r| == |mutations| && forall i :: 0 <= i < |r| ==> r[i] == RecoverOne(mutations[i], now)
  {
    seq(|mutations|, i requires 0 <= i < |mutations| => RecoverOne(mutations[i], now))
  }

  /** Changes of status never touch what a file is validated by. */
  predicate SameEntry(a: Mutation, b: Mutation) {
    && a.operationId == b.operationId && a.logbookId == b.logbookId && a.sequence == b.sequence
    && a.operationType == b.operationType && a.idempotencyKey == b.idempotencyKey
    && a.dependencies == b.dependencies && a.payload == b.payload
  }

  lemma SameEntriesValid(file: QueueFile, mutations: seq<Mutation>)
    requires FileValid(file) && |mutations| == |file.mutations|
    requires forall i :: 0 <= i < |mutations| ==> SameEntry(file.mutations[i], mutations[i])
    ensures FileValid(file.(mutations := mutations))
  {
    forall m | m in mutations ensures MutationValid(m) {
      var i :| 0 <= i < |mutations| && mutations[i] == m;
      assert SameEntry(file.mutations[i], mutations[i]) && MutationValid(file.mutations[i]);
    }
    forall i, j | 0 <= i < j < |mutations| ensures Apart(mutations[i], mutations[j]) {
      assert SameEntry(file.mutations[i], mutations[i]) && SameEntry(file.mutations[j], mutations[j]);
      assert Apart(file.mutations[i], file.mutations[j]);
    }
  }

  lemma UpdateValid(file: QueueFile, id: Uuid, c: Change, now: int)
    requires FileValid(file)
    ensures FileValid(Update(file, id, c, now))
    ensures |Update(file, id, c, now).mutations| == |file.mutations|
    ensures forall i :: 0 <= i < |file.mutations| ==> SameEntry(file.mutations[i], Update(file, id, c, now).mutations[i])
  {
    hide FileValid;
    SameEntriesValid(file, Update(file, id, c, now).mutations);
  }
}
