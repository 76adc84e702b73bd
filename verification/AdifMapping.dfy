/** From an ADIF record to the payload of a new QSO
    (crates/ham-core/src/adif.rs:258-309 and 363-393). */
module AdifMapping {
  import opened Basics
  import opened Text
  import opened Clock
  import opened AdifFormat
  import opened AdifNames
  import opened AdifExport
  import opened AdifRoundTrip
  import Frequency
  import Json
  import opened Projection

  datatype DuplicatePolicy = Skip | ImportAnyway

  datatype Options = Options(
    windowMinutes: int,
    policy: DuplicatePolicy,
    stationCallsign: string,
    operatorCallsign: Option<string>)

  function NonBlank(r: Record, t: Tag): Option<string> {
    if GetTag(r, t).Some? && !Blank(GetTag(r, t).value) then GetTag(r, t) else None
  }

  function Required(r: Record, t: Tag): Result<string, string> {
    match NonBlank(r, t)
    case None => Err("ADIF record missing required field " + TagName(t))
    case Some(value) => Ok(value)
  }

  /** format!("{:0<6}"). */
  function PadRight(s: string): (r: string)
    ensures |r| >= 6
  {
    if |s| < 6 then s + seq(6 - |s|, _ => '0') else s
  }

  function AdifDateTime(r: Record, dateTag: Tag, timeTag: Tag): (m: Result<Moment, string>)
    ensures m.Ok? ==> ValidMoment(m.value) && m.value.nanos == 0
  {
    var date := Required(r, dateTag);
    if date.Err? then Err(date.error)
    else
      var time := if GetTag(r, timeTag).Some? then GetTag(r, timeTag).value else "000000";
      var day := ParseDate(date.value);
      if day.None? then Err("invalid ADIF date " + date.value)
      else
        var clock := ParseTime(PadRight(time)[..6]);
        if clock.None? then Err("invalid ADIF time " + PadRight(time))
        else Ok(Moment(day.value, clock.value.0, clock.value.1, clock.value.2, 0))
  }

  function AsText(v: Option<string>): Option<Json.Value> {
    if v.None? then None else Some(Json.Str(v.value))
  }

  /** The ended_at time: the end time on the date the QSO started. */
  function EndTime(r: Record): Option<string> {
    if GetTag(r, TimeOff).None? then None
    else
      var m := AdifDateTime(r, QsoDate, TimeOff);
      if m.Err? then None else Some(ShowRfc3339(m.value))
  }

  function HertzOf(fl: Rounding, r: Record): Option<Json.Value> {
    if GetTag(r, Freq).None? then None
    else
      var hz := Frequency.ImportedHz(fl, GetTag(r, Freq).value);
      if hz.None? then None else Some(Json.Number(hz.value))
  }

  function Station(options: Options, r: Record): string {
    if GetTag(r, StationCallsign).Some? then GetTag(r, StationCallsign).value else options.stationCallsign
  }

  function OperatorOf(options: Options, r: Record): string {
    if GetTag(r, Operator).Some? then GetTag(r, Operator).value
    else if options.operatorCallsign.Some? then options.operatorCallsign.value
    else options.stationCallsign
  }

  function RawAdif(r: Record): Json.Value {
    Json.Object(map["raw_adif" := Json.Object(map name | name in r :: Json.Str(r[name]))])
  }

  /** What the payload holds under each key. */
  function ValueAt(fl: Rounding, options: Options, r: Record, call: string, mode: string, started: Moment, k: Key): Option<Json.Value>
    requires ValidMoment(started) && started.nanos == 0
  {
    match k
    case ContactedCallsign => Some(Json.Str(Upper(call)))
    case StationKey => Some(Json.Str(Station(options, r)))
    case OperatorKey => Some(Json.Str(OperatorOf(options, r)))
    case StartedAt => Some(Json.Str(ShowRfc3339(started)))
    case EndedAt => AsText(EndTime(r))
    case BandKey => AsText(NonBlank(r, Band))
    case FrequencyHz => HertzOf(fl, r)
    case ModeKey => Some(Json.Str(Upper(mode)))
    case SubmodeKey => AsText(NonBlank(r, Submode))
    case RstSentKey => AsText(NonBlank(r, RstSent))
    case RstReceived => AsText(NonBlank(r, RstRcvd))
    case Grid => AsText(NonBlank(r, GridSquare))
    case NameKey => AsText(NonBlank(r, Name))
    case QthKey => AsText(NonBlank(r, Qth))
    case NotesKey => AsText(if NonBlank(r, Notes).Some? then NonBlank(r, Notes) else NonBlank(r, Comment))
    case MySigKey => AsText(NonBlank(r, MySig))
    case MySigInfoKey => AsText(NonBlank(r, MySigInfo))
    case ContactedSig => AsText(NonBlank(r, Sig))
    case ContactedSigInfo => AsText(NonBlank(r, SigInfo))
    case Source => Some(Json.Str("imported/adif"))
    case ImportMetadata => Some(RawAdif(r))
  }

  type Draft = map<Key, Json.Value>

  function At(d: Draft, k: Key): Option<Json.Value> {
    if k in d then Some(d[k]) else None
  }

  function Put(d: Draft, k: Key, v: Option<Json.Value>): Draft {
    if v.None? then d else d[k := v.value]
  }

  /** A draft under the texts of its keys. */
  function Named(d: Draft): map<string, Json.Value> {
    assert forall a: Key, b: Key :: KeyName(a) == KeyName(b) ==> a == b by {
      forall a: Key, b: Key | KeyName(a) == KeyName(b) ensures a == b {
        KeyNamesDiffer(a, b);
      }
    }
    map k | k in d :: KeyName(k) := d[k]
  }

  lemma NamedAt(d: Draft, k: Key)
    ensures Json.Object(Named(d)).Get(KeyName(k)) == At(d, k)
  {
    hide KeyName;
    forall j | j in d ensures KeyName(j) == KeyName(k) ==> j == k {
      if KeyName(j) == KeyName(k) {
        KeyNamesDiffer(j, k);
      }
    }
    assert Named(d).Keys == set j | j in d :: KeyName(j);
    assert k in d ==> Named(d)[KeyName(k)] == d[k];
  }

  lemma NamedPut(d: Draft, k: Key, v: Json.Value)
    ensures Named(d[k := v]) == Named(d)[KeyName(k) := v]
  {
    hide KeyName;
    var left, right := Named(d[k := v]), Named(d)[KeyName(k) := v];
    forall j | j in d ensures KeyName(j) == KeyName(k) ==> j == k {
      if KeyName(j) == KeyName(k) {
        KeyNamesDiffer(j, k);
      }
    }
    assert left.Keys == right.Keys;
  }

  // ----- the conversion -----

  /** The keys set before anything optional is copied. */
  function BaseDraft(options: Options, r: Record, call: string, mode: string, started: Moment): Draft
    requires ValidMoment(started) && started.nanos == 0
  {
    map[
      StationKey := Json.Str(Station(options, r)),
      OperatorKey := Json.Str(OperatorOf(options, r)),
      ContactedCallsign := Json.Str(Upper(call)),
      StartedAt := Json.Str(ShowRfc3339(started)),
      ModeKey := Json.Str(Upper(mode)),
      Source := Json.Str("imported/adif"),
      ImportMetadata := RawAdif(r)]
  }

  function Copied(d: Draft, r: Record, t: Tag, k: Key): Draft {
    Put(d, k, AsText(NonBlank(r, t)))
  }

  /** The optional keys in the order they are copied. */
  function CopyContact(d: Draft, r: Record): Draft {
    var d := Copied(d, r, Band, BandKey);
    var d := Copied(d, r, Submode, SubmodeKey);
    var d := Copied(d, r, RstSent, RstSentKey);
    var d := Copied(d, r, RstRcvd, RstReceived);
    var d := Copied(d, r, GridSquare, Grid);
    var d := Copied(d, r, Name, NameKey);
    Copied(d, r, Qth, QthKey)
  }

  /** Notes are copied twice, so that NOTES overrides COMMENT. */
  function CopyRemarks(d: Draft, r: Record): Draft {
    var d := Copied(d, r, Comment, NotesKey);
    var d := Copied(d, r, Notes, NotesKey);
    var d := Copied(d, r, MySig, MySigKey);
    var d := Copied(d, r, MySigInfo, MySigInfoKey);
    var d := Copied(d, r, Sig, ContactedSig);
    Copied(d, r, SigInfo, ContactedSigInfo)
  }

  function FullDraft(fl: Rounding, options: Options, r: Record, call: string, mode: string, started: Moment): Draft
    requires ValidMoment(started) && started.nanos == 0
  {
    var d := CopyRemarks(CopyContact(BaseDraft(options, r, call, mode, started), r), r);
    var d := Put(d, EndedAt, AsText(EndTime(r)));
    Put(d, FrequencyHz, HertzOf(fl, r))
  }

  lemma AtPut(d: Draft, k: Key, v: Option<Json.Value>, j: Key)
    ensures At(Put(d, k, v), j) == if j == k && v.Some? then v else At(d, j)
  {
  }

  lemma BaseAt(fl: Rounding, options: Options, r: Record, call: string, mode: string, started: Moment, j: Key)
    requires ValidMoment(started) && started.nanos == 0
    ensures var base := At(BaseDraft(options, r, call, mode, started), j);
      if j in {StationKey, OperatorKey, ContactedCallsign, StartedAt, ModeKey, Source, ImportMetadata}
      then base == ValueAt(fl, options, r, call, mode, started, j) else base == None
  {
    hide NonBlank, EndTime, HertzOf, RawAdif, ShowRfc3339, Station, OperatorOf;
  }

  lemma AtCopied(d: Draft, r: Record, t: Tag, k: Key, j: Key)
    ensures At(Copied(d, r, t, k), j) == if j == k && NonBlank(r, t).Some? then AsText(NonBlank(r, t)) else At(d, j)
  {
    hide NonBlank;
  }

  /** The tag an optional key is copied from. */
  function SourceTag(r: Record, k: Key): Option<Tag> {
    match k
    case BandKey => Some(Band)
    case SubmodeKey => Some(Submode)
    case RstSentKey => Some(RstSent)
    case RstReceived => Some(RstRcvd)
    case Grid => Some(GridSquare)
    case NameKey => Some(Name)
    case QthKey => Some(Qth)
    case NotesKey => Some(if NonBlank(r, Notes).Some? then Notes else Comment)
    case MySigKey => Some(MySig)
    case MySigInfoKey => Some(MySigInfo)
    case ContactedSig => Some(Sig)
    case ContactedSigInfo => Some(SigInfo)
    case _ => None
  }

  predicate FirstCopied(k: Key) {
    k in {BandKey, SubmodeKey, RstSentKey, RstReceived, Grid, NameKey, QthKey}
  }

  lemma ContactAt(d0: Draft, r: Record, j: Key)
    ensures At(CopyContact(d0, r), j) ==
      if FirstCopied(j) && NonBlank(r, SourceTag(r, j).value).Some? then AsText(NonBlank(r, SourceTag(r, j).value)) else At(d0, j)
  {
    hide NonBlank, At, Copied, AsText;
    AtCopied(d0, r, Band, BandKey, j);
    var d1 := Copied(d0, r, Band, BandKey);
    AtCopied(d1, r, Submode, SubmodeKey, j);
    var d2 := Copied(d1, r, Submode, SubmodeKey);
    AtCopied(d2, r, RstSent, RstSentKey, j);
    var d3 := Copied(d2, r, RstSent, RstSentKey);
    AtCopied(d3, r, RstRcvd, RstReceived, j);
    var d4 := Copied(d3, r, RstRcvd, RstReceived);
    AtCopied(d4, r, GridSquare, Grid, j);
    var d5 := Copied(d4, r, GridSquare, Grid);
    AtCopied(d5, r, Name, NameKey, j);
    var d6 := Copied(d5, r, Name, NameKey);
    AtCopied(d6, r, Qth, QthKey, j);
  }

  lemma RemarksAt(d0: Draft, r: Record, j: Key)
    ensures At(CopyRemarks(d0, r), j) ==
      if SourceTag(r, j).Some? && !FirstCopied(j) && NonBlank(r, SourceTag(r, j).value).Some?
      then AsText(NonBlank(r, SourceTag(r, j).value)) else At(d0, j)
  {
    hide NonBlank, At, Copied, AsText;
    AtCopied(d0, r, Comment, NotesKey, j);
    var d1 := Copied(d0, r, Comment, NotesKey);
    AtCopied(d1, r, Notes, NotesKey, j);
    var d2 := Copied(d1, r, Notes, NotesKey);
    AtCopied(d2, r, MySig, MySigKey, j);
    var d3 := Copied(d2, r, MySig, MySigKey);
    AtCopied(d3, r, MySigInfo, MySigInfoKey, j);
    var d4 := Copied(d3, r, MySigInfo, MySigInfoKey);
    AtCopied(d4, r, Sig, ContactedSig, j);
    var d5 := Copied(d4, r, Sig, ContactedSig);
    AtCopied(d5, r, SigInfo, ContactedSigInfo, j);
  }

  /** Step by step copying gives every key the value it should hold. */
  lemma FullDraftAt(fl: Rounding, options: Options, r: Record, call: string, mode: string, started: Moment, j: Key)
    requires ValidMoment(started) && started.nanos == 0
    ensures At(FullDraft(fl, options, r, call, mode, started), j) == ValueAt(fl, options, r, call, mode, started, j)
  {
    hide NonBlank, EndTime, HertzOf, RawAdif, ShowRfc3339, Station, OperatorOf, At, Put, CopyContact, CopyRemarks, BaseDraft;
    var d0 := BaseDraft(options, r, call, mode, started);
    BaseAt(fl, options, r, call, mode, started, j);
    ContactAt(d0, r, j);
    var d1 := CopyContact(d0, r);
    RemarksAt(d1, r, j);
    var d2 := CopyRemarks(d1, r);
    AtPut(d2, EndedAt, AsText(EndTime(r)), j);
    AtPut(Put(d2, EndedAt, AsText(EndTime(r))), FrequencyHz, HertzOf(fl, r), j);
  }

  /** adif_record_to_qso_payload: the first missing or unreadable field is the
      error. */
  function ToPayload(fl: Rounding, options: Options, r: Record): Result<Json.Value, string> {
    var call := Required(r, Call);
    if call.Err? then Err(call.error)
    else
      var mode := Required(r, Mode);
      if mode.Err? then Err(mode.error)
      else
        var started := AdifDateTime(r, QsoDate, TimeOn);
        if started.Err? then Err(started.error)
        else Ok(Json.Object(Named(FullDraft(fl, options, r, call.value, mode.value, started.value))))
  }

  /** What a payload holds under a key. */
  lemma PayloadAnswers(fl: Rounding, options: Options, r: Record, k: Key)
    requires ToPayload(fl, options, r).Ok?
    ensures Required(r, Call).Ok? && Required(r, Mode).Ok? && AdifDateTime(r, QsoDate, TimeOn).Ok?
    ensures ToPayload(fl, options, r).value.Get(KeyName(k)) == ValueAt(
      fl, options, r, Required(r, Call).value, Required(r, Mode).value, AdifDateTime(r, QsoDate, TimeOn).value, k)
  {
    hide Required, AdifDateTime, FullDraft, ValueAt, At, Named, KeyName;
    var call, mode, started := Required(r, Call).value, Required(r, Mode).value, AdifDateTime(r, QsoDate, TimeOn).value;
    FullDraftAt(fl, options, r, call, mode, started, k);
    NamedAt(FullDraft(fl, options, r, call, mode, started), k);
  }

  method Copy(r: Record, t: Tag, payload: map<string, Json.Value>, k: Key, ghost d: Draft)
    returns (payload': map<string, Json.Value>)
    requires payload == Named(d)
    ensures payload' == Named(Copied(d, r, t, k))
  {
    hide Blank, Named, KeyName;
    payload' := payload;
    var value := GetTag(r, t);
    if value.Some? && !Blank(value.value) {
      payload' := payload[KeyName(k) := Json.Str(value.value)];
      NamedPut(d, k, Json.Str(value.value));
    }
  }

  lemma NamedNothing()
    ensures Named(map[]) == map[]
  {
  }

  method StartPayload(options: Options, r: Record, call: string, mode: string, started: Moment)
    returns (payload: map<string, Json.Value>)
    requires ValidMoment(started) && started.nanos == 0
    ensures payload == Named(BaseDraft(options, r, call, mode, started))
  {
    hide Named, KeyName, Station, OperatorOf, ShowRfc3339, RawAdif, Upper;
    ghost var d: Draft := map[];
    payload := map[];
    NamedNothing();
    payload := Set(payload, StationKey, Json.Str(Station(options, r)), d);
    d := d[StationKey := Json.Str(Station(options, r))];
    payload := Set(payload, OperatorKey, Json.Str(OperatorOf(options, r)), d);
    d := d[OperatorKey := Json.Str(OperatorOf(options, r))];
    payload := Set(payload, ContactedCallsign, Json.Str(Upper(call)), d);
    d := d[ContactedCallsign := Json.Str(Upper(call))];
    payload := Set(payload, StartedAt, Json.Str(ShowRfc3339(started)), d);
    d := d[StartedAt := Json.Str(ShowRfc3339(started))];
    payload := Set(payload, ModeKey, Json.Str(Upper(mode)), d);
    d := d[ModeKey := Json.Str(Upper(mode))];
    payload := Set(payload, Source, Json.Str("imported/adif"), d);
    d := d[Source := Json.Str("imported/adif")];
    payload := Set(payload, ImportMetadata, RawAdif(r), d);
    d := d[ImportMetadata := RawAdif(r)];
  }

  method Set(payload: map<string, Json.Value>, k: Key, v: Json.Value, ghost d: Draft)
    returns (payload': map<string, Json.Value>)
    requires payload == Named(d)
    ensures payload' == Named(d[k := v])
  {
    hide Named, KeyName;
    NamedPut(d, k, v);
    payload' := payload[KeyName(k) := v];
  }

  method AdifRecordToQsoPayload(fl: Rounding, options: Options, r: Record) returns (result: Result<Json.Value, string>)
    ensures result == ToPayload(fl, options, r)
  {
    hide Named, KeyName, Required, AdifDateTime, BaseDraft, Copied, HertzOf, EndTime;
    var call := Required(r, Call);
    if call.Err? {
      return Err(call.error);
    }
    var mode := Required(r, Mode);
    if mode.Err? {
      return Err(mode.error);
    }
    var started := AdifDateTime(r, QsoDate, TimeOn);
    if started.Err? {
      return Err(started.error);
    }
    var payload := StartPayload(options, r, call.value, mode.value, started.value);
    ghost var d := BaseDraft(options, r, call.value, mode.value, started.value);
    payload := Copy(r, Band, payload, BandKey, d);
    d := Copied(d, r, Band, BandKey);
    payload := Copy(r, Submode, payload, SubmodeKey, d);
    d := Copied(d, r, Submode, SubmodeKey);
    payload := Copy(r, RstSent, payload, RstSentKey, d);
    d := Copied(d, r, RstSent, RstSentKey);
    payload := Copy(r, RstRcvd, payload, RstReceived, d);
    d := Copied(d, r, RstRcvd, RstReceived);
    payload := Copy(r, GridSquare, payload, Grid, d);
    d := Copied(d, r, GridSquare, Grid);
    payload := Copy(r, Name, payload, NameKey, d);
    d := Copied(d, r, Name, NameKey);
    payload := Copy(r, Qth, payload, QthKey, d);
    d := Copied(d, r, Qth, QthKey);
    payload := Copy(r, Comment, payload, NotesKey, d);
    d := Copied(d, r, Comment, NotesKey);
    payload := Copy(r, Notes, payload, NotesKey, d);
    d := Copied(d, r, Notes, NotesKey);
    payload := Copy(r, MySig, payload, MySigKey, d);
    d := Copied(d, r, MySig, MySigKey);
    payload := Copy(r, MySigInfo, payload, MySigInfoKey, d);
    d := Copied(d, r, MySigInfo, MySigInfoKey);
    payload := Copy(r, Sig, payload, ContactedSig, d);
    d := Copied(d, r, Sig, ContactedSig);
    payload := Copy(r, SigInfo, payload, ContactedSigInfo, d);
    d := Copied(d, r, SigInfo, ContactedSigInfo);
    var ended := EndTime(r);
    if ended.Some? {
      NamedPut(d, EndedAt, Json.Str(ended.value));
      payload := payload[KeyName(EndedAt) := Json.Str(ended.value)];
    }
    d := Put(d, EndedAt, AsText(ended));
    var hertz := HertzOf(fl, r);
    if hertz.Some? {
      NamedPut(d, FrequencyHz, hertz.value);
      payload := payload[KeyName(FrequencyHz) := hertz.value];
    }
    return Ok(Json.Object(payload));
  }
}
