/** The official event store as a value (crates/ham-core/src/store.rs): what one
    append does to the three maps, and the invariant every append keeps. */
module StoreSpec {
  import opened Basics
  import opened Event
  import opened Chain

  /** `eventsById`, `eventsByLogbook` and `heads` of InMemoryStoreInner. */
  datatype StoreState = StoreState(
    byId: map<Uuid, Envelope>,
    byLogbook: map<Uuid, seq<Uuid>>,
    heads: map<Uuid, string>)
  {
    function Ids(logbook: Uuid): seq<Uuid> {
      if logbook in byLogbook then byLogbook[logbook] else []
    }

    /** list_events: the events of one logbook, in append order. */
    function Log(logbook: Uuid): seq<Envelope> {
      Pick(byId, Ids(logbook))
    }

    function HeadOf(logbook: Uuid): Option<string> {
      if logbook in heads then Some(heads[logbook]) else None
    }

    predicate Knows(e: Envelope) {
      e.eventId in byId && byId[e.eventId] == e
    }

    /** The three map updates shared by both appends and by loading from disk. */
    function Insert(e: Envelope): StoreState {
      StoreState(
        byId[e.eventId := e],
        byLogbook[e.logbookId := Ids(e.logbookId) + [e.eventId]],
        heads[e.logbookId := e.eventHash])
    }
  }

  const EMPTY := StoreState(map[], map[], map[])

  /** filter_map over the id list: ids without an event are skipped. */
  function Pick(byId: map<Uuid, Envelope>, ids: seq<Uuid>): seq<Envelope> {
    if ids == [] then []
    else
      var rest := Pick(byId, ids[..|ids| - 1]);
      var id := ids[|ids| - 1];
      if id in byId then rest + [byId[id]] else rest
  }

  ghost predicate LogbookOk(s: StoreState, logbook: Uuid) {
    var ids := s.Ids(logbook);
    && (forall id :: id in ids ==> id in s.byId && s.byId[id].logbookId == logbook)
    && Distinct(ids)
  }

  ghost predicate IdOk(s: StoreState, id: Uuid)
    requires id in s.byId
  {
    s.byId[id].eventId == id && id in s.Ids(s.byId[id].logbookId)
  }

  ghost predicate IdsOk(s: StoreState) {
    && (forall id {:trigger IdOk(s, id)} :: id in s.byId ==> IdOk(s, id))
    && (forall lb {:trigger LogbookOk(s, lb)} :: LogbookOk(s, lb))
  }

  /** What every reachable store satisfies. */
  ghost predicate Valid(h: HashFunction, s: StoreState) {
    && IdsOk(s)
    && (forall lb {:trigger LogOk(h, s, lb)} :: LogOk(h, s, lb))
  }

  ghost predicate LogOk(h: HashFunction, s: StoreState, logbook: Uuid) {
    ValidChain(h, s.Log(logbook)) && s.HeadOf(logbook) == Head(s.Log(logbook))
  }

  lemma {:induction false} PickAll(byId: map<Uuid, Envelope>, ids: seq<Uuid>)
    requires forall i :: 0 <= i < |ids| ==> ids[i] in byId
    ensures |Pick(byId, ids)| == |ids|
    ensures forall i :: 0 <= i < |ids| ==> Pick(byId, ids)[i] == byId[ids[i]]
  {
    if ids != [] {
      PickAll(byId, ids[..|ids| - 1]);
    }
  }

  lemma {:induction false} PickIgnores(byId: map<Uuid, Envelope>, ids: seq<Uuid>, e: Envelope)
    requires forall i :: 0 <= i < |ids| ==> ids[i] != e.eventId
    ensures Pick(byId[e.eventId := e], ids) == Pick(byId, ids)
  {
    if ids != [] {
      PickIgnores(byId, ids[..|ids| - 1], e);
    }
  }

  lemma LogHolds(s: StoreState, logbook: Uuid)
    requires IdsOk(s)
    ensures |s.Log(logbook)| == |s.Ids(logbook)|
    ensures forall i :: 0 <= i < |s.Log(logbook)| ==>
      var e := s.Log(logbook)[i]; s.Knows(e) && e.logbookId == logbook && e.eventId == s.Ids(logbook)[i]
  {
    assert LogbookOk(s, logbook);
    var ids := s.Ids(logbook);
    assert forall i :: 0 <= i < |ids| ==> ids[i] in ids;
    PickAll(s.byId, ids);
    forall i | 0 <= i < |ids| ensures s.byId[ids[i]].eventId == ids[i] {
      assert IdOk(s, ids[i]);
    }
  }

  /** A known event sits in the log of its own logbook. */
  lemma KnownIsLogged(s: StoreState, e: Envelope)
    requires IdsOk(s) && s.Knows(e)
    ensures e in s.Log(e.logbookId)
  {
    LogHolds(s, e.logbookId);
    assert IdOk(s, e.eventId);
    var ids := s.Ids(e.logbookId);
    var i :| 0 <= i < |ids| && ids[i] == e.eventId;
    assert s.Log(e.logbookId)[i] == e;
  }

  lemma InsertLogbookOk(s: StoreState, e: Envelope, logbook: Uuid)
    requires LogbookOk(s, logbook) && e.eventId !in s.byId
    ensures LogbookOk(s.Insert(e), logbook)
  {
    var ids := s.Ids(logbook);
    if logbook == e.logbookId {
      assert s.Insert(e).Ids(logbook) == ids + [e.eventId];
      assert forall i :: 0 <= i < |ids| ==> ids[i] in ids;
    } else {
      assert s.Insert(e).Ids(logbook) == ids;
    }
  }

  lemma InsertIdsOk(s: StoreState, e: Envelope)
    requires IdsOk(s) && e.eventId !in s.byId
    ensures IdsOk(s.Insert(e))
  {
    var t := s.Insert(e);
    forall lb ensures LogbookOk(t, lb) {
      assert LogbookOk(s, lb);
      InsertLogbookOk(s, e, lb);
    }
    forall id | id in t.byId ensures IdOk(t, id) {
      assert id in s.byId ==> IdOk(s, id);
      var lb := t.byId[id].logbookId;
      assert t.Ids(lb) == if lb == e.logbookId then s.Ids(lb) + [e.eventId] else s.Ids(lb);
    }
  }

  /** Inserting a new id extends its own logbook by one event and touches no other. */
  lemma InsertLogs(s: StoreState, e: Envelope, logbook: Uuid)
    requires IdsOk(s) && e.eventId !in s.byId
    ensures s.Insert(e).Log(logbook) == if logbook == e.logbookId then s.Log(logbook) + [e] else s.Log(logbook)
  {
    assert LogbookOk(s, logbook);
    var ids := s.Ids(logbook);
    assert forall i :: 0 <= i < |ids| ==> ids[i] in ids;
    PickIgnores(s.byId, ids, e);
    if logbook == e.logbookId {
      var t := s.Insert(e);
      assert t.Ids(logbook)[..|s.Ids(logbook)|] == s.Ids(logbook);
    }
  }

  lemma InsertOwnLog(h: HashFunction, s: StoreState, e: Envelope)
    requires Valid(h, s) && e.eventId !in s.byId
    ensures LogOk(h, s.Insert(e), e.logbookId) <==> e.HashIsValid(h) && e.previousHash == s.HeadOf(e.logbookId)
  {
    InsertLogs(s, e, e.logbookId);
    LogHolds(s, e.logbookId);
    assert LogOk(h, s, e.logbookId);
    ChainExtends(h, s.Log(e.logbookId), e);
  }

  /** An insertion that continues its logbook's chain keeps the store valid, and
      one that does not breaks it. */
  lemma InsertValid(h: HashFunction, s: StoreState, e: Envelope)
    requires Valid(h, s) && e.eventId !in s.byId
    ensures Valid(h, s.Insert(e)) <==> e.HashIsValid(h) && e.previousHash == s.HeadOf(e.logbookId)
  {
    var t, lb := s.Insert(e), e.logbookId;
    InsertIdsOk(s, e);
    InsertOwnLog(h, s, e);
    forall other | other != lb ensures LogOk(h, t, other) {
      InsertLogs(s, e, other);
      assert LogOk(h, s, other) && t.HeadOf(other) == s.HeadOf(other);
    }
  }

  // ----- append_verified_remote_event -----

  datatype StoreError =
    | InvalidRemoteHash
    | UnsupportedSchemaVersion
    | UnsupportedEventType
    | DuplicateEventConflict
    | RemotePreviousHashMismatch
    | EventNotFound
    | HeadMismatch

  const SUPPORTED_TYPES: set<string> := {
    "official.log.qso.created", "official.log.qso.corrected", "official.log.qso.deleted",
    "official.log.qso.restored", "official.log.qso.note_added", "official.log.activation.created",
    "official.log.activation.updated", "official.log.activation.started",
    "official.log.activation.ended", "official.log.activation.cancelled",
    "official.log.activation.note_added", "official.log.qso.activation_linked",
    "official.log.qso.activation_unlinked", "official.log.upload.queued",
    "official.log.upload.completed", "official.log.upload.failed",
    "official.log.net.template.created", "official.log.net.template.updated",
    "official.log.net.session.started", "official.log.net.session.ended",
    "official.log.net.session.cancelled", "official.log.net.checkin.created",
    "official.log.net.checkin.updated", "official.log.net.checkin.deleted",
    "official.log.net.traffic.created", "official.log.net.traffic.updated",
    "official.log.net.report.exported"
  }

  predicate SupportedType(eventType: string) {
    eventType in SUPPORTED_TYPES
  }

  /** validate_supported_remote_event. */
  function Unsupported(h: HashFunction, e: Envelope): Option<StoreError> {
    if !e.HashIsValid(h) then Some(InvalidRemoteHash)
    else if e.schemaVersion != 1 then Some(UnsupportedSchemaVersion)
    else if !SupportedType(e.eventType) then Some(UnsupportedEventType)
    else None
  }

  datatype Verdict = Append | AlreadyStored | Refuse(error: StoreError)

  /** InMemoryLogbookEventStore::append_verified_remote_event. */
  function MemoryVerdict(h: HashFunction, s: StoreState, e: Envelope): Verdict {
    match Unsupported(h, e)
    case Some(error) => Refuse(error)
    case None =>
      if e.eventId in s.byId then
        if s.byId[e.eventId] == e then AlreadyStored else Refuse(DuplicateEventConflict)
      else if e.previousHash != s.HeadOf(e.logbookId) then Refuse(RemotePreviousHashMismatch)
      else Append
  }

  /** JsonlLogbookEventStore::append_verified_remote_event: an identical stored
      event is answered before it is validated. */
  function RemoteVerdict(h: HashFunction, s: StoreState, e: Envelope): Verdict {
    if s.Knows(e) then AlreadyStored else MemoryVerdict(h, s, e)
  }

  function AfterVerdict(s: StoreState, e: Envelope, v: Verdict): StoreState {
    if v.Append? then s.Insert(e) else s
  }

  function RemoteAppend(h: HashFunction, s: StoreState, e: Envelope): StoreState {
    AfterVerdict(s, e, RemoteVerdict(h, s, e))
  }

  /** Every outcome of a remote append keeps the store valid; it appends exactly
      when the event is supported, new, and continues the local head. */
  lemma RemoteAppendValid(h: HashFunction, s: StoreState, e: Envelope)
    requires Valid(h, s)
    ensures Valid(h, RemoteAppend(h, s, e))
    ensures RemoteVerdict(h, s, e).Append? <==>
      Unsupported(h, e).None? && e.eventId !in s.byId && e.previousHash == s.HeadOf(e.logbookId)
    ensures RemoteAppend(h, s, e).byId == if RemoteVerdict(h, s, e).Append? then s.byId[e.eventId := e] else s.byId
    ensures forall lb ::
      RemoteAppend(h, s, e).Log(lb) ==
      if RemoteVerdict(h, s, e).Append? && lb == e.logbookId then s.Log(lb) + [e] else s.Log(lb)
  {
    if RemoteVerdict(h, s, e).Append? {
      InsertValid(h, s, e);
      forall lb ensures s.Insert(e).Log(lb) == if lb == e.logbookId then s.Log(lb) + [e] else s.Log(lb) {
        InsertLogs(s, e, lb);
      }
    }
  }

  /** The outcome of a remote append, from the event and the store alone: an event
      already stored is answered first, then the first thing wrong with it. */
  lemma VerdictExactly(h: HashFunction, s: StoreState, e: Envelope)
    ensures var v := RemoteVerdict(h, s, e);
      var stored := e.eventId in s.byId && s.byId[e.eventId] == e;
      var signed := e.eventHash == h(e.Canonical());
      && (v == AlreadyStored <==> stored)
      && (v == Refuse(InvalidRemoteHash) <==> !stored && !signed)
      && (v == Refuse(UnsupportedSchemaVersion) <==> !stored && signed && e.schemaVersion != 1)
      && (v == Refuse(UnsupportedEventType) <==> !stored && signed && e.schemaVersion == 1 && e.eventType !in SUPPORTED_TYPES)
      && (v == Refuse(DuplicateEventConflict) <==>
            !stored && signed && e.schemaVersion == 1 && e.eventType in SUPPORTED_TYPES && e.eventId in s.byId)
      && (v == Refuse(RemotePreviousHashMismatch) <==>
            && signed && e.schemaVersion == 1 && e.eventType in SUPPORTED_TYPES && e.eventId !in s.byId
            && e.previousHash != if e.logbookId in s.heads then Some(s.heads[e.logbookId]) else None)
  {
  }

  lemma ValidLog(h: HashFunction, s: StoreState, logbook: Uuid)
    requires Valid(h, s)
    ensures ValidChain(h, s.Log(logbook)) && s.HeadOf(logbook) == Head(s.Log(logbook))
  {
    assert LogOk(h, s, logbook);
  }

  /** append_event: a fresh id, chained to the head the store holds. */
  function LocalAppend(h: HashFunction, s: StoreState, input: NewEvent, eventId: Uuid, now: int): StoreState {
    s.Insert(FromNew(h, input, s.HeadOf(input.logbookId), eventId, now))
  }

  lemma LocalAppendValid(h: HashFunction, s: StoreState, input: NewEvent, eventId: Uuid, now: int)
    requires Valid(h, s) && eventId !in s.byId
    ensures Valid(h, LocalAppend(h, s, input, eventId, now))
    ensures forall lb ::
      LocalAppend(h, s, input, eventId, now).Log(lb) ==
      if lb == input.logbookId then s.Log(lb) + [FromNew(h, input, s.HeadOf(lb), eventId, now)] else s.Log(lb)
  {
    var e := FromNew(h, input, s.HeadOf(input.logbookId), eventId, now);
    InsertValid(h, s, e);
    forall lb ensures s.Insert(e).Log(lb) == if lb == e.logbookId then s.Log(lb) + [e] else s.Log(lb) {
      InsertLogs(s, e, lb);
    }
  }

  // ----- replaying a file of events -----

  /** load_inner_from_disk: one insertion per line, unconditionally. */
  function Replay(file: seq<Envelope>): StoreState {
    if file == [] then EMPTY
    else Replay(file[..|file| - 1]).Insert(file[|file| - 1])
  }

  ghost predicate LineOk(h: HashFunction, file: seq<Envelope>, k: nat)
    requires k < |file|
  {
    var s := Replay(file[..k]);
    file[k].eventId !in s.byId && file[k].HashIsValid(h) && file[k].previousHash == s.HeadOf(file[k].logbookId)
  }

  /** A file written by the store: each line had a new id and continued its
      logbook's chain when it was written. */
  ghost predicate WrittenByStore(h: HashFunction, file: seq<Envelope>) {
    forall k: nat {:trigger LineOk(h, file, k)} :: k < |file| ==> LineOk(h, file, k)
  }

  lemma EmptyValid(h: HashFunction)
    ensures Valid(h, EMPTY)
  {
  }

  lemma WrittenPrefix(h: HashFunction, file: seq<Envelope>, k: nat)
    requires WrittenByStore(h, file) && k <= |file|
    ensures WrittenByStore(h, file[..k])
  {
    forall j: nat | j < k ensures LineOk(h, file[..k], j) {
      assert LineOk(h, file, j) && file[..k][..j] == file[..j];
    }
  }

  /** Loading a file the store wrote gives a valid store. */
  lemma {:induction false} ReplayValid(h: HashFunction, file: seq<Envelope>)
    requires WrittenByStore(h, file)
    ensures Valid(h, Replay(file))
  {
    if file == [] {
      EmptyValid(h);
    } else {
      var n := |file| - 1;
      WrittenPrefix(h, file, n);
      ReplayValid(h, file[..n]);
      assert LineOk(h, file, n);
      InsertValid(h, Replay(file[..n]), file[n]);
    }
  }

  lemma ReplayStep(h: HashFunction, file: seq<Envelope>, logbook: Uuid)
    requires WrittenByStore(h, file) && file != []
    ensures IsPrefix(Replay(file[..|file| - 1]).Log(logbook), Replay(file).Log(logbook))
  {
    var n := |file| - 1;
    WrittenPrefix(h, file, n);
    ReplayValid(h, file[..n]);
    assert LineOk(h, file, n);
    InsertLogs(Replay(file[..n]), file[n], logbook);
  }

  lemma {:induction false} PrefixReplay(h: HashFunction, file: seq<Envelope>, k: nat, logbook: Uuid)
    requires WrittenByStore(h, file) && k <= |file|
    ensures Valid(h, Replay(file[..k]))
    ensures IsPrefix(Replay(file[..k]).Log(logbook), Replay(file).Log(logbook))
    decreases |file|
  {
    if k == |file| {
      assert file[..k] == file;
      ReplayValid(h, file);
    } else {
      var shorter := file[..|file| - 1];
      WrittenPrefix(h, file, |file| - 1);
      PrefixReplay(h, shorter, k, logbook);
      assert shorter[..k] == file[..k];
      ReplayStep(h, file, logbook);
      PrefixTransitive(Replay(file[..k]).Log(logbook), Replay(shorter).Log(logbook), Replay(file).Log(logbook));
    }
  }
}
