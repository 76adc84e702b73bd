/** A QSO exported as ADIF and mapped back to a payload. */
module AdifRestores {
  import opened Basics
  import opened Text
  import opened Clock
  import opened AdifFormat
  import opened AdifNames
  import opened AdifExport
  import opened AdifRoundTrip
  import opened AdifMapping
  import Frequency
  import Json
  import opened Projection

  lemma DateNotBlank(d: Date)
    requires ValidDate(d) && FourDigitYear(d)
    ensures !Blank(FormatDate(d))
  {
    var y := Pad4(d.year);
    assert FormatDate(d)[0] == y[0] && IsDigit(y[0]);
    NotBlank(FormatDate(d));
  }

  function CutToSecond(m: Moment): Moment {
    m.(nanos := 0)
  }

  /** What a record printed from a QSO answers. */
  ghost predicate PrintedRecord(fl: Rounding, q: Qso, a: Option<Activation>, r: Record) {
    forall t :: t != AdifVer ==> GetTag(r, t) == if t == Notes then None else Printed(fl, q, a, t)
  }

  lemma RecordIsPrinted(fl: Rounding, q: Qso, a: Option<Activation>, first: bool)
    ensures PrintedRecord(fl, q, a, AsRecord(QsoFields(fl, q, a), if first then Version() else map[]))
  {
    hide Printed, GetTag, AsRecord, QsoFields;
    var r := AsRecord(QsoFields(fl, q, a), if first then Version() else map[]);
    forall t | t != AdifVer ensures GetTag(r, t) == if t == Notes then None else Printed(fl, q, a, t) {
      ExportedFieldReturns(fl, q, a, first, t);
    }
  }

  function NonBlankText(v: Option<string>): Option<string> {
    if v.Some? && !Blank(v.value) then v else None
  }

  /** A payload text under a key, if it holds more than white space. */
  function TextUnder(q: Qso, k: Key): Option<string> {
    NonBlankText(q.payload.GetStr(KeyName(k)))
  }

  /** The activity we took part in: from the payload, or else the activation. */
  function OwnSig(q: Qso, k: Key, fallback: Option<string>): Option<string> {
    NonBlankText(if q.payload.GetStr(KeyName(k)).Some? then q.payload.GetStr(KeyName(k)) else fallback)
  }

  /** The QSO names a call and a mode and says when it started. */
  predicate Complete(q: Qso) {
    TextUnder(q, ContactedCallsign).Some? && TextUnder(q, ModeKey).Some? && TimeAt(q.payload, StartedAt).Some?
  }

  function OrElse(v: Option<string>, fallback: string): string {
    if v.Some? && v.value != "" then v.value else fallback
  }

  /** Call and mode come back in capitals, the stations as they were or as the
      import options say. */
  ghost predicate StationsRestored(options: Options, q: Qso, back: Json.Value)
    requires Complete(q)
  {
    && back.GetStr(KeyName(ContactedCallsign)) == Some(Upper(TextUnder(q, ContactedCallsign).value))
    && back.GetStr(KeyName(ModeKey)) == Some(Upper(TextUnder(q, ModeKey).value))
    && back.GetStr(KeyName(StationKey)) == Some(OrElse(q.payload.GetStr(KeyName(StationKey)), options.stationCallsign))
    && back.GetStr(KeyName(OperatorKey)) == Some(OrElse(
        q.payload.GetStr(KeyName(OperatorKey)),
        if options.operatorCallsign.Some? then options.operatorCallsign.value else options.stationCallsign))
  }

  predicate PlainText(k: Key) {
    k in {BandKey, SubmodeKey, RstSentKey, RstReceived, Grid, NameKey, QthKey, NotesKey, ContactedSig, ContactedSigInfo}
  }

  /** The other texts come back as they were, unless blank. */
  ghost predicate TextsRestored(q: Qso, a: Option<Activation>, back: Json.Value) {
    && (forall k :: PlainText(k) ==> back.GetStr(KeyName(k)) == TextUnder(q, k))
    && back.GetStr(KeyName(MySigKey)) == OwnSig(q, MySigKey, ActivationType(a))
    && back.GetStr(KeyName(MySigInfoKey)) == OwnSig(q, MySigInfoKey, ActivationReference(a))
  }

  /** The start comes back cut to the second, the end cut to the second and moved
      to the UTC date of the start. */
  ghost predicate TimesRestored(q: Qso, back: Json.Value)
    requires Complete(q)
  {
    var started := TimeAt(q.payload, StartedAt).value;
    var ended := TimeAt(q.payload, EndedAt);
    && TimeAt(back, StartedAt) == Some(CutToSecond(started))
    && TimeAt(back, EndedAt) == (if ended.None? then None else Some(CutToSecond(ended.value).(date := started.date)))
  }

  ghost predicate FrequencyRestored(q: Qso, back: Json.Value) {
    match q.payload.Get(KeyName(FrequencyHz))
    case Some(Number(n)) =>
      if 0 <= n <= Frequency.U64_MAX
      then n < Frequency.LIMIT ==> back.Get(KeyName(FrequencyHz)) == Some(Json.Number(n))
      else back.Get(KeyName(FrequencyHz)) == None
    case _ => back.Get(KeyName(FrequencyHz)) == None
  }

  /** The time tags read back as the start and the end on the start's date. */
  lemma TimesRead(fl: Rounding, q: Qso, a: Option<Activation>, r: Record)
    requires PrintedRecord(fl, q, a, r) && PlainYear(q)
    ensures var started := TimeAt(q.payload, StartedAt);
      AdifDateTime(r, QsoDate, TimeOn).Ok? <==> started.Some?
    ensures var started := TimeAt(q.payload, StartedAt); var ended := TimeAt(q.payload, EndedAt);
      && (started.Some? ==> AdifDateTime(r, QsoDate, TimeOn) == Ok(CutToSecond(started.value)))
      && (started.Some? && ended.Some? ==>
            AdifDateTime(r, QsoDate, TimeOff) == Ok(CutToSecond(ended.value).(date := started.value.date)))
  {
    hide Blank, ParseDate, ParseTime, FormatDate, FormatTime, TimeAt, GetTag, PrintedRecord;
    var started := TimeAt(q.payload, StartedAt);
    var ended := TimeAt(q.payload, EndedAt);
    PrintedAt(fl, q, a, r, QsoDate);
    PrintedAt(fl, q, a, r, TimeOn);
    PrintedAt(fl, q, a, r, TimeOff);
    if started.Some? {
      DateNotBlank(started.value.date);
      DateRoundTrip(started.value.date);
      TimeRoundTrip(started.value);
      SixStays(FormatTime(started.value));
      if ended.Some? {
        TimeRoundTrip(ended.value);
        SixStays(FormatTime(ended.value));
      }
    }
  }

  lemma PrintedAt(fl: Rounding, q: Qso, a: Option<Activation>, r: Record, t: Tag)
    requires PrintedRecord(fl, q, a, r) && t != AdifVer && t != Notes
    ensures GetTag(r, t) == Printed(fl, q, a, t)
  {
  }

  lemma SixStays(s: string)
    requires |s| == 6
    ensures PadRight(s)[..6] == s
  {
  }

  /** A plain text tag reads back as the payload text. */
  lemma TextReturns(fl: Rounding, q: Qso, a: Option<Activation>, r: Record, t: Tag, k: Key)
    requires PrintedRecord(fl, q, a, r) && TextKey(t) == Some(k)
    ensures GetTag(r, t) == NonEmptyText(q.payload.Get(KeyName(k)))
    ensures NonBlank(r, t) == TextUnder(q, k)
  {
    hide PrintedRecord, GetTag, KeyName, TagName, TimeAt, FrequencyText;
    PrintedAt(fl, q, a, r, t);
    assert Printed(fl, q, a, t) == NonEmptyText(q.payload.Get(KeyName(k)));
    assert Blank("");
  }

  lemma OwnSigReturns(fl: Rounding, q: Qso, a: Option<Activation>, r: Record)
    requires PrintedRecord(fl, q, a, r)
    ensures NonBlank(r, MySig) == OwnSig(q, MySigKey, ActivationType(a))
    ensures NonBlank(r, MySigInfo) == OwnSig(q, MySigInfoKey, ActivationReference(a))
  {
    hide PrintedRecord, GetTag, KeyName, TagName, ActivationType, ActivationReference, Printed;
    PrintedAt(fl, q, a, r, MySig);
    PrintedAt(fl, q, a, r, MySigInfo);
    OwnSigsPrinted(fl, q, a);
    assert Blank("");
  }

  lemma PayloadMade(fl: Rounding, options: Options, q: Qso, a: Option<Activation>, r: Record)
    requires PrintedRecord(fl, q, a, r) && PlainYear(q)
    ensures ToPayload(fl, options, r).Ok? <==> Complete(q)
    ensures Complete(q) ==>
      && Required(r, Call) == Ok(TextUnder(q, ContactedCallsign).value)
      && Required(r, Mode) == Ok(TextUnder(q, ModeKey).value)
  {
    hide PrintedRecord, PlainYear, NonBlank, TextUnder, TimeAt, FullDraft, Named, AdifDateTime;
    TextReturns(fl, q, a, r, Call, ContactedCallsign);
    TextReturns(fl, q, a, r, Mode, ModeKey);
    TimesRead(fl, q, a, r);
  }

  lemma StationsComeBack(fl: Rounding, options: Options, q: Qso, a: Option<Activation>, r: Record)
    requires PrintedRecord(fl, q, a, r) && PlainYear(q) && Complete(q) && ToPayload(fl, options, r).Ok?
    ensures StationsRestored(options, q, ToPayload(fl, options, r).value)
  {
    hide PrintedRecord, PlainYear, NonBlank, TimeAt, ToPayload, AdifDateTime, Complete, KeyName, Required, GetTag, TextUnder, Upper;
    PayloadMade(fl, options, q, a, r);
    TextReturns(fl, q, a, r, StationCallsign, StationKey);
    TextReturns(fl, q, a, r, Operator, OperatorKey);
    PayloadAnswers(fl, options, r, ContactedCallsign);
    PayloadAnswers(fl, options, r, ModeKey);
    PayloadAnswers(fl, options, r, StationKey);
    PayloadAnswers(fl, options, r, OperatorKey);
  }

  lemma CopiedValue(fl: Rounding, options: Options, r: Record, call: string, mode: string, started: Moment, k: Key)
    requires ValidMoment(started) && started.nanos == 0 && SourceTag(r, k).Some?
    ensures ValueAt(fl, options, r, call, mode, started, k) == AsText(NonBlank(r, SourceTag(r, k).value))
  {
    hide NonBlank;
  }

  lemma SourceOfPlainText(r: Record, k: Key)
    requires PlainText(k) && NonBlank(r, Notes) == None
    ensures SourceTag(r, k).Some? && TextKey(SourceTag(r, k).value) == Some(k)
  {
    hide NonBlank;
  }

  lemma TextComesBack(fl: Rounding, options: Options, q: Qso, a: Option<Activation>, r: Record, k: Key)
    requires PrintedRecord(fl, q, a, r) && ToPayload(fl, options, r).Ok? && PlainText(k)
    ensures ToPayload(fl, options, r).value.GetStr(KeyName(k)) == TextUnder(q, k)
  {
    hide PrintedRecord, NonBlank, ToPayload, AdifDateTime, KeyName, Required, TextUnder, PlainText, ValueAt, SourceTag, TextKey;
    PayloadAnswers(fl, options, r, k);
    NoNotes(fl, q, a, r);
    SourceOfPlainText(r, k);
    CopiedValue(fl, options, r, Required(r, Call).value, Required(r, Mode).value, AdifDateTime(r, QsoDate, TimeOn).value, k);
    TextReturns(fl, q, a, r, SourceTag(r, k).value, k);
  }

  lemma NoNotes(fl: Rounding, q: Qso, a: Option<Activation>, r: Record)
    requires PrintedRecord(fl, q, a, r)
    ensures NonBlank(r, Notes) == None
  {
  }

  lemma TextsComeBack(fl: Rounding, options: Options, q: Qso, a: Option<Activation>, r: Record)
    requires PrintedRecord(fl, q, a, r) && ToPayload(fl, options, r).Ok?
    ensures TextsRestored(q, a, ToPayload(fl, options, r).value)
  {
    hide PrintedRecord, NonBlank, ToPayload, AdifDateTime, KeyName, Required, TextUnder, PlainText, OwnSig, ActivationType, ActivationReference;
    forall k | PlainText(k) ensures ToPayload(fl, options, r).value.GetStr(KeyName(k)) == TextUnder(q, k) {
      TextComesBack(fl, options, q, a, r, k);
    }
    OwnSigReturns(fl, q, a, r);
    PayloadAnswers(fl, options, r, MySigKey);
    PayloadAnswers(fl, options, r, MySigInfoKey);
  }

  lemma TimeOffPrinted(fl: Rounding, q: Qso, a: Option<Activation>, r: Record)
    requires PrintedRecord(fl, q, a, r) && TimeAt(q.payload, StartedAt).Some?
    ensures GetTag(r, TimeOff).Some? <==> TimeAt(q.payload, EndedAt).Some?
  {
    hide PrintedRecord, TimeAt, GetTag;
    PrintedAt(fl, q, a, r, TimeOff);
  }

  lemma TimeFromText(back: Json.Value, k: Key, m: Moment)
    requires ValidMoment(m) && m.nanos == 0 && FourDigitYear(m.date)
    requires back.Get(KeyName(k)) == Some(Json.Str(ShowRfc3339(m)))
    ensures TimeAt(back, k) == Some(m)
  {
    hide ShowRfc3339, ParseRfc3339, KeyName, FourDigitYear;
    Rfc3339RoundTrip(m);
  }

  lemma StartYear(q: Qso)
    requires PlainYear(q) && Complete(q)
    ensures TimeAt(q.payload, StartedAt).Some? && FourDigitYear(TimeAt(q.payload, StartedAt).value.date)
  {
  }

  lemma TimesComeBack(fl: Rounding, options: Options, q: Qso, a: Option<Activation>, r: Record)
    requires PrintedRecord(fl, q, a, r) && PlainYear(q) && Complete(q) && ToPayload(fl, options, r).Ok?
    ensures TimesRestored(q, ToPayload(fl, options, r).value)
  {
    hide PrintedRecord, PlainYear, ToPayload, AdifDateTime, KeyName, Required, Complete, GetTag, ShowRfc3339, TimeAt, FourDigitYear;
    StartYear(q);
    var started := TimeAt(q.payload, StartedAt).value;
    var ended := TimeAt(q.payload, EndedAt);
    var back := ToPayload(fl, options, r).value;
    TimeOffPrinted(fl, q, a, r);
    TimesRead(fl, q, a, r);
    PayloadAnswers(fl, options, r, StartedAt);
    TimeFromText(back, StartedAt, CutToSecond(started));
    PayloadAnswers(fl, options, r, EndedAt);
    if ended.Some? {
      TimeFromText(back, EndedAt, CutToSecond(ended.value).(date := started.date));
    } else {
      NoTime(back, EndedAt);
    }
  }

  lemma NoTime(back: Json.Value, k: Key)
    requires back.Get(KeyName(k)) == None
    ensures TimeAt(back, k) == None
  {
  }

  lemma FrequencyComesBack(fl: Rounding, options: Options, q: Qso, a: Option<Activation>, r: Record)
    requires Frequency.Accurate(fl) && PrintedRecord(fl, q, a, r) && ToPayload(fl, options, r).Ok?
    ensures FrequencyRestored(q, ToPayload(fl, options, r).value)
  {
    hide PrintedRecord, ToPayload, TimeAt, AdifDateTime, KeyName, Required, GetTag;
    PrintedAt(fl, q, a, r, Freq);
    assert GetTag(r, Freq) == FrequencyText(fl, q.payload);
    hide Printed, Frequency.ExportedText, Frequency.ImportedHz, Frequency.Accurate;
    PayloadAnswers(fl, options, r, FrequencyHz);
    var v := q.payload.Get(KeyName(FrequencyHz));
    if v.Some? && v.value.Number? && 0 <= v.value.n < Frequency.LIMIT {
      Frequency.FrequencyRoundTrip(fl, v.value.n);
    }
  }

  /** A parsed record maps back to a payload exactly when its QSO names a call, a
      mode and a start; the payload then holds what the QSO held, up to the losses
      each predicate names. */
  lemma QsoComesBack(fl: Rounding, options: Options, q: Qso, a: Option<Activation>, first: bool)
    requires Frequency.Accurate(fl) && PlainYear(q)
    ensures var r := AsRecord(QsoFields(fl, q, a), if first then Version() else map[]);
      && (ToPayload(fl, options, r).Ok? <==> Complete(q))
      && (Complete(q) ==>
            var back := ToPayload(fl, options, r).value;
            StationsRestored(options, q, back) && TextsRestored(q, a, back) && TimesRestored(q, back) && FrequencyRestored(q, back))
  {
    hide PrintedRecord, ToPayload, Complete, StationsRestored, TextsRestored, TimesRestored, FrequencyRestored, QsoFields, AsRecord, PlainYear;
    var r := AsRecord(QsoFields(fl, q, a), if first then Version() else map[]);
    RecordIsPrinted(fl, q, a, first);
    PayloadMade(fl, options, q, a, r);
    if Complete(q) {
      StationsComeBack(fl, options, q, a, r);
      TextsComeBack(fl, options, q, a, r);
      TimesComeBack(fl, options, q, a, r);
      FrequencyComesBack(fl, options, q, a, r);
    }
  }
}
