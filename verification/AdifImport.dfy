/** Importing ADIF records through the proposal pipeline
    (crates/ham-core/src/adif.rs:192-256 and 311-361;
    crates/ham-core/src/proposal.rs:234-310, 427-443, 808-867, 1023-1030, 1202-1262). */
module AdifImport {
  import opened Basics
  import opened Text
  import opened Clock
  import opened Event
  import opened Chain
  import opened AdifFormat
  import opened AdifNames
  import opened AdifExport
  import opened AdifMapping
  import opened Projection
  import Frequency
  import Json

  // ----- the duplicate test -----

  /** Duration::num_seconds and num_minutes truncate toward zero. */
  function NumSeconds(nanos: int): int {
    if nanos >= 0 then nanos / NANOS_PER_SECOND else -((-nanos) / NANOS_PER_SECOND)
  }

  function NumMinutes(nanos: int): int {
    var seconds := NumSeconds(nanos);
    if seconds >= 0 then seconds / 60 else -((-seconds) / 60)
  }

  function AbsInt(x: int): nat {
    if x < 0 then -x else x
  }

  predicate CloseTime(a: Moment, b: Moment, windowMinutes: int) {
    AbsInt(NumMinutes(Instant(a) - Instant(b))) <= windowMinutes
  }

  const NANOS_PER_MINUTE: nat := 60 * NANOS_PER_SECOND

  lemma MinutesOf(n: nat, w: int)
    ensures n / NANOS_PER_SECOND / 60 <= w <==> n < (w + 1) * NANOS_PER_MINUTE
  {
    var s := n / NANOS_PER_SECOND;
    assert s / 60 <= w <==> s < (w + 1) * 60;
    assert s < (w + 1) * 60 <==> n < (w + 1) * 60 * NANOS_PER_SECOND;
  }

  /** The window test accepts exactly the differences strictly below window + 1
      minutes; a negative window accepts none. */
  lemma CloseTimeExactly(a: Moment, b: Moment, windowMinutes: int)
    ensures CloseTime(a, b, windowMinutes) <==> AbsInt(Instant(a) - Instant(b)) < (windowMinutes + 1) * NANOS_PER_MINUTE
  {
    MinutesOf(AbsInt(Instant(a) - Instant(b)), windowMinutes);
    hide Instant;
  }

  predicate SameText(existing: Json.Value, key: string, text: string) {
    existing.GetStr(key).Some? && EqIgnoreCase(existing.GetStr(key).value, text)
  }

  function TextOrEmpty(v: Option<string>): string {
    if v.Some? then v.value else ""
  }

  /** An existing QSO that makes a new payload a duplicate. */
  predicate Matches(existing: Json.Value, payload: Json.Value, started: Moment, windowMinutes: int) {
    && SameText(existing, "contacted_callsign", TextOrEmpty(payload.GetStr("contacted_callsign")))
    && SameText(existing, "mode", TextOrEmpty(payload.GetStr("mode")))
    && (payload.GetStr("band").Some? ==> SameText(existing, "band", payload.GetStr("band").value))
    && TimeAt(existing, StartedAt).Some?
    && CloseTime(TimeAt(existing, StartedAt).value, started, windowMinutes)
  }

  predicate IsDuplicate(p: Qsos, payload: Json.Value, windowMinutes: int) {
    TimeAt(payload, StartedAt).Some? &&
    exists id :: id in p && !p[id].deleted && Matches(p[id].payload, payload, TimeAt(payload, StartedAt).value, windowMinutes)
  }

  // ----- submitting a proposal -----

  /** Everything about a run that does not change from record to record. `refusal`
      is the outcome of the plugin, permission and role checks: None when they
      pass, or the error text. */
  datatype Job = Job(
    logbook: Uuid,
    device: Uuid,
    plugin: string,
    options: Options,
    refusal: Option<string>)

  function InvalidSchema(message: string): Option<string> {
    Some("invalid proposal schema: " + message)
  }

  function MissingText(payload: Json.Value, key: string): bool {
    payload.GetStr(key).None?
  }

  function MissingField(key: string): Option<string> {
    InvalidSchema("qso create requires string field `" + key + "`")
  }

  /** submit_proposal's verdict on a QSO proposal: None to accept. */
  function Refusal(job: Job, payload: Json.Value): Option<string> {
    if job.refusal.Some? then job.refusal
    else if !payload.Object? then InvalidSchema("payload must be a JSON object")
    else if MissingText(payload, "contacted_callsign") then MissingField("contacted_callsign")
    else if MissingText(payload, "station_callsign") then MissingField("station_callsign")
    else if MissingText(payload, "mode") then MissingField("mode")
    else if MissingText(payload, "started_at") then MissingField("started_at")
    else if TimeAt(payload, StartedAt).None? then InvalidSchema("started_at must be a valid UTC/RFC3339 timestamp")
    else
      match payload.Get("frequency_hz")
      case None => None
      case Some(Number(n)) =>
        if n < 0 || n > Frequency.U64_MAX then InvalidSchema("frequency_hz must be a positive integer")
        else if n == 0 then InvalidSchema("frequency_hz must be positive")
        else None
      case Some(_) => InvalidSchema("frequency_hz must be a positive integer")
  }

  /** The random ids and the clock reading used for one record. */
  datatype NewIds = NewIds(eventId: Uuid, qsoId: Uuid, proposalId: Uuid, now: int)

  function OfficialEvent(h: HashFunction, job: Job, log: seq<Envelope>, payload: Json.Value, ids: NewIds): (e: Envelope)
    requires payload.Object?
    ensures e.HashIsValid(h) && e.previousHash == Head(log) && e.eventId == ids.eventId && e.logbookId == job.logbook
  {
    var stored := WithQsoId(payload, ids.qsoId).value;
    FromNew(
      h,
      NewEvent(
        QSO_CREATED, job.logbook, Some(ids.qsoId), None,
        if stored.GetStr("station_callsign").Some? then stored.GetStr("station_callsign").value else "UNKNOWN",
        stored.GetStr("operator_callsign"), job.device, job.device, ids.proposalId, Some(job.plugin), 1, stored),
      Head(log), ids.eventId, ids.now)
  }

  // ----- one import run -----

  datatype Summary = Summary(imported: nat, skipped: nat, duplicates: nat, rejected: nat, errors: seq<string>)

  datatype Progress = Progress(log: seq<Envelope>, summary: Summary)

  /** rebuild_projections, falling back to no QSOs when rebuilding fails. */
  function Current(log: seq<Envelope>): Qsos {
    match Rebuild(log)
    case Some(p) => p
    case None => map[]
  }

  datatype Decision = Refused(error: string) | Duplicate | Accepted(payload: Json.Value)

  /** What happens to one record, given the QSOs known so far. */
  function Decide(fl: Rounding, job: Job, known: Qsos, record: Record): (d: Decision)
    ensures d.Accepted? ==> d.payload.Object?
  {
    match ToPayload(fl, job.options, record)
    case Err(error) => Refused(error)
    case Ok(payload) =>
      if job.options.policy.Skip? && IsDuplicate(known, payload, job.options.windowMinutes) then Duplicate
      else
        match Refusal(job, payload)
        case Some(error) => Refused(error)
        case None => Accepted(payload)
  }

  function Step(fl: Rounding, h: HashFunction, job: Job, s: Progress, record: Record, ids: NewIds): Progress {
    match Decide(fl, job, Current(s.log), record)
    case Refused(error) =>
      Progress(s.log, s.summary.(rejected := s.summary.rejected + 1, errors := s.summary.errors + [error]))
    case Duplicate =>
      Progress(s.log, s.summary.(duplicates := s.summary.duplicates + 1, skipped := s.summary.skipped + 1))
    case Accepted(payload) =>
      Progress(s.log + [OfficialEvent(h, job, s.log, payload, ids)], s.summary.(imported := s.summary.imported + 1))
  }

  const NOTHING_DONE := Summary(0, 0, 0, 0, [])

  function Run(fl: Rounding, h: HashFunction, job: Job, log: seq<Envelope>, records: seq<Record>, ids: seq<NewIds>): Progress
    requires |ids| >= |records|
  {
    if records == [] then Progress(log, NOTHING_DONE)
    else
      var n := |records| - 1;
      Step(fl, h, job, Run(fl, h, job, log, records[..n], ids), records[n], ids[n])
  }

  lemma RunSnoc(fl: Rounding, h: HashFunction, job: Job, log: seq<Envelope>, records: seq<Record>, i: nat, ids: seq<NewIds>)
    requires i < |records| <= |ids|
    ensures Run(fl, h, job, log, records[..i + 1], ids) ==
      Step(fl, h, job, Run(fl, h, job, log, records[..i], ids), records[i], ids[i])
  {
    hide Step;
    assert records[..i + 1][..i] == records[..i];
  }

  /** import_adif. The projection is rebuilt only after an accepted record. */
  method ImportAdif(fl: Rounding, h: HashFunction, job: Job, log: seq<Envelope>, input: string, ids: seq<NewIds>)
    returns (log': seq<Envelope>, summary: Summary)
    requires |ids| >= |ParseRest(input, map[])|
    ensures Progress(log', summary) == Run(fl, h, job, log, ParseRest(input, map[]), ids)
  {
    hide ParseRest, ToPayload, IsDuplicate, Refusal, OfficialEvent, Current, Run;
    log', summary := log, NOTHING_DONE;
    var records := ParseAdif(input);
    var projection := Current(log);
    RunNothing(fl, h, job, log, ids);
    assert records[..0] == [];
    for i := 0 to |records|
      invariant projection == Current(log')
      invariant Progress(log', summary) == Run(fl, h, job, log, records[..i], ids)
    {
      RunSnoc(fl, h, job, log, records, i, ids);
      var converted := AdifRecordToQsoPayload(fl, job.options, records[i]);
      if converted.Err? {
        summary := summary.(rejected := summary.rejected + 1, errors := summary.errors + [converted.error]);
        continue;
      }
      var payload := converted.value;
      if job.options.policy.Skip? && IsDuplicate(projection, payload, job.options.windowMinutes) {
        summary := summary.(duplicates := summary.duplicates + 1, skipped := summary.skipped + 1);
        continue;
      }
      var refusal := Refusal(job, payload);
      if refusal.Some? {
        summary := summary.(rejected := summary.rejected + 1, errors := summary.errors + [refusal.value]);
      } else {
        log' := log' + [OfficialEvent(h, job, log', payload, ids[i])];
        summary := summary.(imported := summary.imported + 1);
        projection := Current(log');
      }
    }
    assert records[..|records|] == records;
  }

  lemma RunNothing(fl: Rounding, h: HashFunction, job: Job, log: seq<Envelope>, ids: seq<NewIds>)
    ensures Run(fl, h, job, log, [], ids) == Progress(log, NOTHING_DONE)
  {
  }

  // ----- accounting -----

  /** Every record is counted once, every refusal leaves one error, and the log
      grows by exactly the imported records. */
  lemma {:induction false} RunAccounts(fl: Rounding, h: HashFunction, job: Job, log: seq<Envelope>, records: seq<Record>, ids: seq<NewIds>)
    requires |ids| >= |records|
    ensures var end := Run(fl, h, job, log, records, ids); var s := end.summary;
      && s.imported + s.skipped + s.rejected == |records|
      && s.skipped == s.duplicates
      && |s.errors| == s.rejected
      && |end.log| == |log| + s.imported
      && IsPrefix(log, end.log)
  {
    hide Decide, OfficialEvent, Current;
    if records != [] {
      RunAccounts(fl, h, job, log, records[..|records| - 1], ids);
    }
  }

  /** Ids drawn for a run are new to the log and to each other. */
  ghost predicate Unused(log: seq<Envelope>, ids: seq<NewIds>) {
    && (forall e, i :: e in log && 0 <= i < |ids| ==> NewTo(e, ids[i]))
    && (forall i, j :: 0 <= i < j < |ids| ==> ids[i].eventId != ids[j].eventId && ids[i].qsoId != ids[j].qsoId)
  }

  ghost predicate NewTo(e: Envelope, ids: NewIds) {
    e.eventId != ids.eventId && e.entityId != Some(ids.qsoId)
  }

  /** After n records, the remaining ids are still new. */
  lemma {:induction false} StillUnused(fl: Rounding, h: HashFunction, job: Job, log: seq<Envelope>, records: seq<Record>, ids: seq<NewIds>, e: Envelope, i: nat)
    requires |records| <= i < |ids| && Unused(log, ids)
    requires e in Run(fl, h, job, log, records, ids).log
    ensures NewTo(e, ids[i])
  {
    hide Decide, Current;
    if records != [] {
      var n := |records| - 1;
      var before := Run(fl, h, job, log, records[..n], ids);
      if e in before.log {
        StillUnused(fl, h, job, log, records[..n], ids, e, i);
      } else {
        assert e.eventId == ids[n].eventId && e.entityId == Some(ids[n].qsoId);
      }
    }
  }

  /** An import keeps the official log a valid chain. */
  lemma {:induction false} RunKeepsChain(fl: Rounding, h: HashFunction, job: Job, log: seq<Envelope>, records: seq<Record>, ids: seq<NewIds>)
    requires |ids| >= |records| && Unused(log, ids) && ValidChain(h, log)
    ensures ValidChain(h, Run(fl, h, job, log, records, ids).log)
  {
    hide Decide, Current, ValidChain, Unused;
    if records != [] {
      var n := |records| - 1;
      RunKeepsChain(fl, h, job, log, records[..n], ids);
      var before := Run(fl, h, job, log, records[..n], ids);
      var d := Decide(fl, job, Current(before.log), records[n]);
      if d.Accepted? {
        var e := OfficialEvent(h, job, before.log, d.payload, ids[n]);
        forall i | 0 <= i < |before.log| ensures before.log[i].eventId != e.eventId {
          StillUnused(fl, h, job, log, records[..n], ids, before.log[i], n);
        }
        hide OfficialEvent;
        ChainExtends(h, before.log, e);
      }
    }
  }

  // ----- exactly what is skipped, refused and imported -----

  /** A live QSO with the call, mode and band of a payload, up to case, that started
      less than one minute more than the window away from it. */
  ghost predicate SameContact(q: Qso, payload: Json.Value, windowMinutes: int) {
    && !q.deleted
    && q.payload.GetStr("contacted_callsign").Some? && payload.GetStr("contacted_callsign").Some?
    && Lower(q.payload.GetStr("contacted_callsign").value) == Lower(payload.GetStr("contacted_callsign").value)
    && q.payload.GetStr("mode").Some? && payload.GetStr("mode").Some?
    && Lower(q.payload.GetStr("mode").value) == Lower(payload.GetStr("mode").value)
    && (payload.GetStr("band").Some? ==>
          q.payload.GetStr("band").Some? && Lower(q.payload.GetStr("band").value) == Lower(payload.GetStr("band").value))
    && StartsClose(q.payload.GetStr("started_at"), payload.GetStr("started_at"), windowMinutes)
  }

  predicate StartsClose(a: Option<string>, b: Option<string>, windowMinutes: int) {
    && a.Some? && ParseRfc3339(a.value).Some? && b.Some? && ParseRfc3339(b.value).Some?
    && AbsInt(Instant(ParseRfc3339(a.value).value) - Instant(ParseRfc3339(b.value).value)) < (windowMinutes + 1) * NANOS_PER_MINUTE
  }

  lemma KeysSpelled()
    ensures KeyName(ContactedCallsign) == "contacted_callsign" && KeyName(ModeKey) == "mode" && KeyName(StartedAt) == "started_at"
    ensures KeyName(BandKey) == "band"
  {
  }

  lemma MatchExactly(q: Qso, payload: Json.Value, windowMinutes: int)
    requires payload.GetStr("contacted_callsign").Some? && payload.GetStr("mode").Some?
    ensures TimeAt(payload, StartedAt).Some? && !q.deleted && Matches(q.payload, payload, TimeAt(payload, StartedAt).value, windowMinutes) <==>
      SameContact(q, payload, windowMinutes)
  {
    KeysSpelled();
    hide KeyName, ParseRfc3339, Lower, Instant, CloseTime;
    if TimeAt(payload, StartedAt).Some? && TimeAt(q.payload, StartedAt).Some? {
      CloseTimeExactly(TimeAt(q.payload, StartedAt).value, TimeAt(payload, StartedAt).value, windowMinutes);
    }
  }

  lemma PayloadNamesBoth(fl: Rounding, options: Options, r: Record)
    ensures var made := ToPayload(fl, options, r);
      made.Ok? ==> made.value.GetStr("contacted_callsign").Some? && made.value.GetStr("mode").Some?
  {
    KeysSpelled();
    hide ToPayload, KeyName, Required, AdifDateTime, Upper, Station, OperatorOf, EndTime, HertzOf, NonBlank, RawAdif, ShowRfc3339, AsText;
    if ToPayload(fl, options, r).Ok? {
      PayloadAnswers(fl, options, r, ContactedCallsign);
      PayloadAnswers(fl, options, r, ModeKey);
    }
  }

  /** A record is skipped exactly when the policy is Skip and some live QSO is the same
      contact: call, mode and, if the record names one, band up to case, and a start
      less than window + 1 minutes away. */
  lemma SkippedExactly(fl: Rounding, job: Job, known: Qsos, record: Record)
    ensures Decide(fl, job, known, record).Duplicate? <==>
      && ToPayload(fl, job.options, record).Ok? && job.options.policy.Skip?
      && exists id :: id in known && SameContact(known[id], ToPayload(fl, job.options, record).value, job.options.windowMinutes)
  {
    var made := ToPayload(fl, job.options, record);
    PayloadNamesBoth(fl, job.options, record);
    if made.Ok? {
      forall id | id in known
        ensures SameContact(known[id], made.value, job.options.windowMinutes) <==>
          (TimeAt(made.value, StartedAt).Some? && !known[id].deleted &&
           Matches(known[id].payload, made.value, TimeAt(made.value, StartedAt).value, job.options.windowMinutes))
      {
        MatchExactly(known[id], made.value, job.options.windowMinutes);
      }
    }
    hide ToPayload, Matches, SameContact, TimeAt, Refusal;
  }

  /** No live QSO has the text under a key, up to case. */
  ghost predicate NobodyHas(known: Qsos, key: string, text: string) {
    forall id :: id in known && !known[id].deleted && known[id].payload.GetStr(key).Some? ==>
      Lower(known[id].payload.GetStr(key).value) != Lower(text)
  }

  /** A contact with a call, a mode or a band that no live QSO has is imported whenever
      it would be into an empty logbook, and counted. */
  lemma NewContactImported(fl: Rounding, h: HashFunction, job: Job, s: Progress, record: Record, ids: NewIds, key: string)
    requires Decide(fl, job, map[], record).Accepted? && key in {"contacted_callsign", "mode", "band"}
    requires var payload := ToPayload(fl, job.options, record).value;
      payload.GetStr(key).Some? && NobodyHas(Current(s.log), key, payload.GetStr(key).value)
    ensures Decide(fl, job, Current(s.log), record) == Accepted(ToPayload(fl, job.options, record).value)
    ensures Step(fl, h, job, s, record, ids).summary == s.summary.(imported := s.summary.imported + 1)
    ensures |Step(fl, h, job, s, record, ids).log| == |s.log| + 1
  {
    hide ToPayload, SameContact, NobodyHas, IsDuplicate, Refusal, OfficialEvent, Current;
    SkippedExactly(fl, job, Current(s.log), record);
    var known, payload := Current(s.log), ToPayload(fl, job.options, record).value;
    forall id | id in known ensures !SameContact(known[id], payload, job.options.windowMinutes) {
      NotSame(known, payload, key, job.options.windowMinutes, id);
    }
  }

  lemma NotSame(known: Qsos, payload: Json.Value, key: string, windowMinutes: int, id: Uuid)
    requires id in known && key in {"contacted_callsign", "mode", "band"}
    requires payload.GetStr(key).Some? && NobodyHas(known, key, payload.GetStr(key).value)
    ensures !SameContact(known[id], payload, windowMinutes)
  {
    hide StartsClose, Lower;
  }

  /** What the proposal checks accept: an object naming both calls, the mode and a
      readable start, and a frequency, if there is one, that is a whole positive
      number of hertz within 64 bits. */
  lemma RefusalExactly(job: Job, payload: Json.Value)
    ensures Refusal(job, payload).None? <==>
      && job.refusal.None? && payload.Object?
      && (forall key :: key in {"contacted_callsign", "station_callsign", "mode", "started_at"} ==> payload.GetStr(key).Some?)
      && ParseRfc3339(payload.GetStr("started_at").value).Some?
      && (payload.Get("frequency_hz").Some? ==>
            payload.Get("frequency_hz").value.Number? && 1 <= payload.Get("frequency_hz").value.n <= 0xFFFF_FFFF_FFFF_FFFF)
  {
    KeysSpelled();
    hide KeyName, ParseRfc3339;
  }

  /** What an accepted record is stored as: a created QSO under its new id, with the
      payload it mapped to, signed by the job's device and chained to the head. */
  lemma StoredAs(h: HashFunction, job: Job, log: seq<Envelope>, payload: Json.Value, ids: NewIds)
    requires payload.Object?
    ensures var e := OfficialEvent(h, job, log, payload, ids);
      && e.eventType == "official.log.qso.created" && e.entityId == Some(ids.qsoId) && e.schemaVersion == 1
      && e.authorDeviceId == job.device && e.correlationId == ids.proposalId && e.sourcePluginId == Some(job.plugin)
      && e.timestamp == ids.now && e.payload.Object?
      && (forall key :: key != "qso_id" ==> e.payload.Get(key) == payload.Get(key))
      && (payload.GetStr("station_callsign").Some? ==> e.stationCallsign == payload.GetStr("station_callsign").value)
      && e.operatorCallsign == payload.GetStr("operator_callsign")
  {
    assert |"station_callsign"| == 16 && |"operator_callsign"| == 17 && |"qso_id"| == 6;
  }

  // ----- importing again -----

  /** Every live QSO of p is live in p2 with the same payload. */
  ghost predicate Keeps(p: Qsos, p2: Qsos) {
    forall id :: id in p && !p[id].deleted ==> id in p2 && !p2[id].deleted && p2[id].payload == p[id].payload
  }

  lemma DuplicateStays(p: Qsos, p2: Qsos, payload: Json.Value, windowMinutes: int)
    requires Keeps(p, p2) && IsDuplicate(p, payload, windowMinutes)
    ensures IsDuplicate(p2, payload, windowMinutes)
  {
    hide Matches, TimeAt;
    var started := TimeAt(payload, StartedAt).value;
    var id :| id in p && !p[id].deleted && Matches(p[id].payload, payload, started, windowMinutes);
    assert id in p2 && !p2[id].deleted && Matches(p2[id].payload, payload, started, windowMinutes);
  }

  /** A record not accepted once is not accepted later while the QSOs stay. */
  lemma NotAcceptedStays(fl: Rounding, job: Job, p: Qsos, p2: Qsos, record: Record)
    requires Keeps(p, p2) && !Decide(fl, job, p, record).Accepted?
    ensures !Decide(fl, job, p2, record).Accepted?
  {
    hide ToPayload, IsDuplicate, Refusal, Keeps;
    var converted := ToPayload(fl, job.options, record);
    if converted.Ok? && IsDuplicate(p, converted.value, job.options.windowMinutes) {
      DuplicateStays(p, p2, converted.value, job.options.windowMinutes);
    }
  }

  /** The id key is not one the duplicate test looks at. */
  lemma IdKeyApart(payload: Json.Value, id: Uuid, key: string)
    requires payload.Object? && key in {"contacted_callsign", "mode", "band", "started_at"}
    ensures WithQsoId(payload, id).Some?
    ensures WithQsoId(payload, id).value.GetStr(key) == payload.GetStr(key)
  {
    assert |key| != 6 && |"qso_id"| == 6;
  }

  /** A stored QSO matches the payload it was created from. */
  lemma StoredMatches(job: Job, payload: Json.Value, id: Uuid, windowMinutes: int)
    requires payload.Object? && Refusal(job, payload).None? && windowMinutes >= 0
    ensures TimeAt(payload, StartedAt).Some?
    ensures Matches(WithQsoId(payload, id).value, payload, TimeAt(payload, StartedAt).value, windowMinutes)
  {
    IdKeyApart(payload, id, "contacted_callsign");
    IdKeyApart(payload, id, "mode");
    IdKeyApart(payload, id, "band");
    IdKeyApart(payload, id, "started_at");
    hide WithQsoId, ParseRfc3339, Instant, Lower;
    assert KeyName(StartedAt) == "started_at";
    hide KeyName;
    var started := TimeAt(payload, StartedAt).value;
    assert Instant(started) - Instant(started) == 0;
  }

  lemma UnknownQso(log: seq<Envelope>, id: Uuid)
    requires Rebuild(log).Some? && forall e :: e in log ==> e.entityId != Some(id)
    ensures id !in Rebuild(log).value
  {
    if log != [] {
      var last := log[|log| - 1];
      assert last in log;
      UnknownQso(log[..|log| - 1], id);
      hide WithQsoId, Merge;
    }
  }

  /** One accepted record adds exactly one live QSO and touches no other. */
  lemma AcceptedAdds(h: HashFunction, job: Job, log: seq<Envelope>, payload: Json.Value, ids: NewIds)
    requires payload.Object? && Rebuild(log).Some? && forall e :: e in log ==> NewTo(e, ids)
    ensures var before := Current(log); var stored := WithQsoId(payload, ids.qsoId);
      && stored.Some? && ids.qsoId !in before
      && Rebuild(log + [OfficialEvent(h, job, log, payload, ids)]) == Some(before[ids.qsoId := Qso(ids.qsoId, stored.value, false)])
  {
    var e := OfficialEvent(h, job, log, payload, ids);
    assert e.entityId == Some(ids.qsoId) && e.eventType == QSO_CREATED && Some(e.payload) == WithQsoId(payload, ids.qsoId);
    hide OfficialEvent, Rebuild;
    RebuildSnoc(log, e);
    forall x | x in log ensures x.entityId != Some(ids.qsoId) {
      assert NewTo(x, ids);
    }
    UnknownQso(log, ids.qsoId);
    StoredAgain(payload, ids.qsoId);
  }

  /** The stored payload already names its QSO, so folding it in changes nothing. */
  lemma StoredAgain(payload: Json.Value, id: Uuid)
    requires payload.Object?
    ensures WithQsoId(payload, id).Some? && WithQsoId(WithQsoId(payload, id).value, id) == WithQsoId(payload, id)
  {
    var once := WithQsoId(payload, id).value.fields;
    assert once["qso_id" := once["qso_id"]] == once;
  }

  /** The QSOs known after a decision about a record: one more if it is accepted,
      and no other change. */
  function AfterDecision(known: Qsos, d: Decision, id: Uuid): Qsos
    requires d.Accepted? ==> d.payload.Object?
  {
    if d.Accepted? then known[id := Qso(id, WithQsoId(d.payload, id).value, false)] else known
  }

  lemma StepGrows(fl: Rounding, h: HashFunction, job: Job, s: Progress, record: Record, ids: NewIds)
    requires Rebuild(s.log).Some? && forall e :: e in s.log ==> NewTo(e, ids)
    ensures Rebuild(Step(fl, h, job, s, record, ids).log) ==
      Some(AfterDecision(Current(s.log), Decide(fl, job, Current(s.log), record), ids.qsoId))
    ensures Decide(fl, job, Current(s.log), record).Accepted? ==> ids.qsoId !in Current(s.log)
  {
    hide Decide, OfficialEvent, Rebuild, WithQsoId, NewTo;
    var d := Decide(fl, job, Current(s.log), record);
    if d.Accepted? {
      AcceptedAdds(h, job, s.log, d.payload, ids);
    }
  }

  lemma DecisionKeeps(known: Qsos, d: Decision, id: Uuid)
    requires d.Accepted? ==> d.payload.Object? && id !in known
    ensures var after := AfterDecision(known, d, id);
      && Keeps(known, after) && IncludesAll(known, after)
      && |after| == |known| + if d.Accepted? then 1 else 0
  {
    hide WithQsoId;
  }

  /** Every QSO of p is in p2, exactly as it was. */
  ghost predicate IncludesAll(p: Qsos, p2: Qsos) {
    forall id :: id in p ==> id in p2 && p2[id] == p[id]
  }

  lemma IncludesTransitive(p: Qsos, p2: Qsos, p3: Qsos)
    requires IncludesAll(p, p2) && IncludesAll(p2, p3)
    ensures IncludesAll(p, p3)
  {
  }

  /** The ids for the next record are new to the log so far. */
  lemma NextUnused(fl: Rounding, h: HashFunction, job: Job, log: seq<Envelope>, records: seq<Record>, ids: seq<NewIds>)
    requires |records| < |ids| && Unused(log, ids)
    ensures forall e :: e in Run(fl, h, job, log, records, ids).log ==> NewTo(e, ids[|records|])
  {
    hide Run, Unused, NewTo;
    forall e | e in Run(fl, h, job, log, records, ids).log ensures NewTo(e, ids[|records|]) {
      StillUnused(fl, h, job, log, records, ids, e, |records|);
    }
  }

  /** A run keeps every QSO as it was and adds one for each imported record. */
  lemma {:induction false} RunGrows(fl: Rounding, h: HashFunction, job: Job, log: seq<Envelope>, records: seq<Record>, ids: seq<NewIds>)
    requires |ids| >= |records| && Unused(log, ids) && Rebuild(log).Some?
    ensures var end := Run(fl, h, job, log, records, ids);
      && Rebuild(end.log).Some?
      && IncludesAll(Current(log), Current(end.log))
      && |Current(end.log)| == |Current(log)| + end.summary.imported
  {
    if records != [] {
      var n := |records| - 1;
      hide Decide, OfficialEvent, Rebuild, WithQsoId, IncludesAll, Keeps, Unused, NewTo, AfterDecision;
      var before := Run(fl, h, job, log, records[..n], ids);
      RunGrows(fl, h, job, log, records[..n], ids);
      NextUnused(fl, h, job, log, records[..n], ids);
      StepGrows(fl, h, job, before, records[n], ids[n]);
      var d := Decide(fl, job, Current(before.log), records[n]);
      DecisionKeeps(Current(before.log), d, ids[n].qsoId);
      IncludesTransitive(Current(log), Current(before.log), AfterDecision(Current(before.log), d, ids[n].qsoId));
    }
  }

  /** After a record has been dealt with, it would not be accepted again. */
  lemma StepSettles(fl: Rounding, h: HashFunction, job: Job, s: Progress, record: Record, ids: NewIds)
    requires job.options.policy.Skip? && job.options.windowMinutes >= 0
    requires Rebuild(s.log).Some? && forall e :: e in s.log ==> NewTo(e, ids)
    ensures !Decide(fl, job, Current(Step(fl, h, job, s, record, ids).log), record).Accepted?
  {
    var d := Decide(fl, job, Current(s.log), record);
    if d.Accepted? {
      assert ToPayload(fl, job.options, record) == Ok(d.payload) && Refusal(job, d.payload).None?;
      StoredMatches(job, d.payload, ids.qsoId, job.options.windowMinutes);
      hide ToPayload, OfficialEvent, Rebuild, WithQsoId, NewTo, Matches, Refusal, TimeAt;
      StepGrows(fl, h, job, s, record, ids);
      var known := Current(Step(fl, h, job, s, record, ids).log);
      assert ids.qsoId in known && !known[ids.qsoId].deleted;
      assert IsDuplicate(known, d.payload, job.options.windowMinutes);
    }
  }

  /** A record settled before a step stays settled after it. */
  lemma SettledStays(fl: Rounding, h: HashFunction, job: Job, s: Progress, record: Record, ids: NewIds, settled: Record)
    requires Rebuild(s.log).Some? && forall e :: e in s.log ==> NewTo(e, ids)
    requires !Decide(fl, job, Current(s.log), settled).Accepted?
    ensures !Decide(fl, job, Current(Step(fl, h, job, s, record, ids).log), settled).Accepted?
  {
    StepGrows(fl, h, job, s, record, ids);
    var d := Decide(fl, job, Current(s.log), record);
    hide Decide, Rebuild, NewTo, Keeps, AfterDecision, Step;
    DecisionKeeps(Current(s.log), d, ids.qsoId);
    NotAcceptedStays(fl, job, Current(s.log), Current(Step(fl, h, job, s, record, ids).log), settled);
  }

  /** After a run, none of its records would be accepted again. */
  lemma {:induction false} RunSettles(fl: Rounding, h: HashFunction, job: Job, log: seq<Envelope>, records: seq<Record>, ids: seq<NewIds>, k: nat)
    requires job.options.policy.Skip? && job.options.windowMinutes >= 0
    requires |ids| >= |records| > k && Unused(log, ids) && Rebuild(log).Some?
    ensures !Decide(fl, job, Current(Run(fl, h, job, log, records, ids).log), records[k]).Accepted?
  {
    var n := |records| - 1;
    var before := Run(fl, h, job, log, records[..n], ids);
    assert Run(fl, h, job, log, records, ids) == Step(fl, h, job, before, records[n], ids[n]);
    hide *;
    RunGrows(fl, h, job, log, records[..n], ids);
    NextUnused(fl, h, job, log, records[..n], ids);
    if k == n {
      StepSettles(fl, h, job, before, records[n], ids[n]);
    } else {
      RunSettles(fl, h, job, log, records[..n], ids, k);
      SettledStays(fl, h, job, before, records[n], ids[n], records[k]);
    }
  }

  /** A run imports nothing, and leaves the log alone, exactly when no record would
      be accepted at its start. */
  lemma {:induction false} RunIdle(fl: Rounding, h: HashFunction, job: Job, log: seq<Envelope>, records: seq<Record>, ids: seq<NewIds>)
    requires |ids| >= |records|
    ensures var end := Run(fl, h, job, log, records, ids);
      (forall k :: 0 <= k < |records| ==> !Decide(fl, job, Current(log), records[k]).Accepted?) ==>
      end.log == log && end.summary.imported == 0
  {
    hide Decide, OfficialEvent, Current;
    if records != [] {
      RunIdle(fl, h, job, log, records[..|records| - 1], ids);
    }
  }

  /** Importing the same text a second time imports nothing: under the Skip policy
      with a window of at least 0, on a log whose QSOs can be rebuilt, as long as
      what was appended in between deletes or changes none of them. */
  lemma SecondImportImportsNothing(
    fl: Rounding, h: HashFunction, job: Job, log: seq<Envelope>, records: seq<Record>, ids: seq<NewIds>, later: seq<Envelope>, ids2: seq<NewIds>)
    requires job.options.policy.Skip? && job.options.windowMinutes >= 0
    requires |ids| >= |records| && |ids2| >= |records| && Unused(log, ids) && Rebuild(log).Some?
    requires Keeps(Current(Run(fl, h, job, log, records, ids).log), Current(later))
    ensures Run(fl, h, job, later, records, ids2).log == later
    ensures Run(fl, h, job, later, records, ids2).summary.imported == 0
  {
    hide Decide, Run, Keeps, Unused, Rebuild, Current;
    forall k | 0 <= k < |records| ensures !Decide(fl, job, Current(later), records[k]).Accepted? {
      RunSettles(fl, h, job, log, records, ids, k);
      NotAcceptedStays(fl, job, Current(Run(fl, h, job, log, records, ids).log), Current(later), records[k]);
    }
    RunIdle(fl, h, job, later, records, ids2);
  }

  /** The duplicate test can never fire: it is off, its window is negative, or the
      stored QSOs cannot be rebuilt. */
  predicate Blind(job: Job, log: seq<Envelope>) {
    job.options.policy.ImportAnyway? || job.options.windowMinutes < 0 || Rebuild(log).None?
  }

  function AcceptedBlindly(fl: Rounding, job: Job, records: seq<Record>): nat {
    if records == [] then 0
    else
      var n := |records| - 1;
      AcceptedBlindly(fl, job, records[..n]) + if Decide(fl, job, map[], records[n]).Accepted? then 1 else 0
  }

  lemma BlindDecision(fl: Rounding, job: Job, log: seq<Envelope>, record: Record)
    requires Blind(job, log)
    ensures Decide(fl, job, Current(log), record) == Decide(fl, job, map[], record)
  {
    hide ToPayload, Refusal, SameText, TimeAt, Instant;
  }

  lemma {:induction false} BlindRun(fl: Rounding, h: HashFunction, job: Job, log: seq<Envelope>, records: seq<Record>, ids: seq<NewIds>)
    requires |ids| >= |records| && Blind(job, log)
    ensures var end := Run(fl, h, job, log, records, ids);
      Blind(job, end.log) && end.summary.imported == AcceptedBlindly(fl, job, records)
  {
    hide Decide, Current, OfficialEvent, Apply;
    if records != [] {
      var n := |records| - 1;
      var before := Run(fl, h, job, log, records[..n], ids);
      BlindRun(fl, h, job, log, records[..n], ids);
      BlindDecision(fl, job, before.log, records[n]);
      var d := Decide(fl, job, Current(before.log), records[n]);
      if d.Accepted? {
        RebuildSnoc(before.log, OfficialEvent(h, job, before.log, d.payload, ids[n]));
      }
    }
  }

  /** An immediate second import imports nothing while the duplicate test can work;
      otherwise it imports every record that is acceptable by itself once more. So it
      imports nothing exactly when the test can work or no record is acceptable, which
      is known before the first import. */
  lemma IdempotentIff(
    fl: Rounding, h: HashFunction, job: Job, log: seq<Envelope>, records: seq<Record>, ids: seq<NewIds>, ids2: seq<NewIds>)
    requires |ids| >= |records| && |ids2| >= |records| && Unused(log, ids)
    ensures var first := Run(fl, h, job, log, records, ids);
      var second := Run(fl, h, job, first.log, records, ids2);
      && second.summary.imported == (if Blind(job, log) then AcceptedBlindly(fl, job, records) else 0)
      && (second.summary.imported == 0 <==> !Blind(job, log) || AcceptedBlindly(fl, job, records) == 0)
  {
    hide Run, Unused, Rebuild, Current;
    var first := Run(fl, h, job, log, records, ids);
    if Blind(job, log) {
      BlindRun(fl, h, job, log, records, ids);
      BlindRun(fl, h, job, first.log, records, ids2);
    } else {
      SecondImportImportsNothing(fl, h, job, log, records, ids, first.log, ids2);
    }
  }
}
