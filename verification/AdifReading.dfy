/** What one ADIF record is read as (crates/ham-core/src/adif.rs:258-309 and 363-393),
    key by key, and when it is refused. */
module AdifReading {
  import opened Basics
  import opened Text
  import opened Clock
  import opened AdifFormat
  import opened AdifNames
  import opened AdifExport
  import opened AdifRoundTrip
  import opened AdifMapping
  import opened AdifRestores
  import Json

  /** A tag has a value with something in it besides white space. */
  ghost predicate Given(r: Record, t: Tag) {
    GetTag(r, t).Some? && exists i :: 0 <= i < |GetTag(r, t).value| && !IsSpace(GetTag(r, t).value[i])
  }

  lemma NonBlankExactly(r: Record, t: Tag)
    ensures NonBlank(r, t) == if Given(r, t) then GetTag(r, t) else None
  {
    if GetTag(r, t).Some? {
      BlankExactly(GetTag(r, t).value);
    }
    hide Blank;
  }

  /** A record is mapped exactly when it gives a call, a mode and a date, and its date
      and the first six characters of its start time, filled up with zeros, are a date
      and a time of day. */
  lemma MappedIff(fl: Rounding, options: Options, r: Record)
    ensures ToPayload(fl, options, r).Ok? <==>
      && Given(r, Call) && Given(r, Mode) && Given(r, QsoDate)
      && ParseDate(GetTag(r, QsoDate).value).Some?
      && ParseTime((GetTag(r, TimeOn).GetOr("") + "000000")[..6]).Some?
  {
    NonBlankExactly(r, Call);
    NonBlankExactly(r, Mode);
    NonBlankExactly(r, QsoDate);
    var time := GetTag(r, TimeOn).GetOr("000000");
    Padded(time);
    Padded("");
    assert PadRight("")[..6] == "000000" == ("" + "000000")[..6];
    assert PadRight("000000")[..6] == "000000";
    hide Given, NonBlank, FullDraft, ParseDate, ParseTime, PadRight, GetTag;
  }

  lemma Padded(s: string)
    ensures PadRight(s)[..6] == (s + "000000")[..6]
  {
    if |s| < 6 {
      assert seq(6 - |s|, _ => '0') == "000000"[..6 - |s|];
    }
  }

  /** A start without seconds is read at the full minute, and one without a time at
      midnight. */
  lemma ShortTimes(r: Record, m: Moment)
    requires ValidMoment(m) && FourDigitYear(m.date) && m.second == 0 && m.nanos == 0
    requires GetTag(r, QsoDate) == Some(FormatDate(m.date))
    requires GetTag(r, TimeOn) == Some(FormatTime(m)[..4]) || (GetTag(r, TimeOn).None? && m.hour == 0 && m.minute == 0)
    ensures AdifDateTime(r, QsoDate, TimeOn) == Ok(m)
  {
    DateRoundTrip(m.date);
    TimeRoundTrip(m);
    DateNotBlank(m.date);
    WholeMinute(m);
    hide ParseDate, ParseTime, FormatDate, FormatTime, PadRight, Blank, GetTag;
  }

  lemma WholeMinute(m: Moment)
    requires ValidMoment(m) && m.second == 0
    ensures PadRight(FormatTime(m)[..4])[..6] == FormatTime(m)
    ensures m.hour == 0 && m.minute == 0 ==> PadRight("000000")[..6] == FormatTime(m)
  {
    Zeros(0);
    var s := FormatTime(m);
    assert s == s[..4] + "00";
    Padded(s[..4]);
    Padded("000000");
    hide Pad2;
    assert (s[..4] + "000000")[..6] == s[..4] + "00";
    assert m.hour == 0 && m.minute == 0 ==> s == "000000";
  }

  lemma Zeros(n: nat)
    requires n == 0
    ensures Pad2(n) == "00"
  {
  }

  /** The operator's own callsign and the name used on the air come from the record or
      else from the options. */
  lemma OwnCallsigns(fl: Rounding, options: Options, r: Record)
    requires ToPayload(fl, options, r).Ok?
    ensures ToPayload(fl, options, r).value.GetStr("station_callsign") ==
      Some(GetTag(r, StationCallsign).GetOr(options.stationCallsign))
    ensures ToPayload(fl, options, r).value.GetStr("operator_callsign") ==
      Some(GetTag(r, Operator).GetOr(options.operatorCallsign.GetOr(options.stationCallsign)))
  {
    PayloadAnswers(fl, options, r, StationKey);
    PayloadAnswers(fl, options, r, OperatorKey);
    OwnKeyNames();
    FixedValues(
      fl, options, r, Required(r, Call).value, Required(r, Mode).value, AdifDateTime(r, QsoDate, TimeOn).value);
    OwnValues(options, r);
    TextAt(ToPayload(fl, options, r).value, KeyName(StationKey), Station(options, r));
    TextAt(ToPayload(fl, options, r).value, KeyName(OperatorKey), OperatorOf(options, r));
    hide *;
  }

  lemma OwnKeyNames()
    ensures KeyName(StationKey) == "station_callsign" && KeyName(OperatorKey) == "operator_callsign"
  {
  }

  lemma OwnValues(options: Options, r: Record)
    ensures Station(options, r) == GetTag(r, StationCallsign).GetOr(options.stationCallsign)
    ensures OperatorOf(options, r) == GetTag(r, Operator).GetOr(options.operatorCallsign.GetOr(options.stationCallsign))
  {
    hide GetTag;
  }

  lemma TextAt(payload: Json.Value, key: string, text: string)
    ensures payload.Get(key) == Some(Json.Str(text)) ==> payload.GetStr(key) == Some(text)
  {
  }

  /** The tag whose text a key takes over as it stands. */
  predicate TakenFrom(k: Key, t: Tag) {
    || (k == BandKey && t == Band) || (k == SubmodeKey && t == Submode)
    || (k == RstSentKey && t == RstSent) || (k == RstReceived && t == RstRcvd)
    || (k == Grid && t == GridSquare) || (k == NameKey && t == Name) || (k == QthKey && t == Qth)
    || (k == MySigKey && t == MySig) || (k == MySigInfoKey && t == MySigInfo)
    || (k == ContactedSig && t == Sig) || (k == ContactedSigInfo && t == SigInfo)
  }

  lemma TakenValue(fl: Rounding, options: Options, r: Record, call: string, mode: string, started: Moment, k: Key, t: Tag)
    requires ValidMoment(started) && started.nanos == 0 && TakenFrom(k, t)
    ensures ValueAt(fl, options, r, call, mode, started, k) == AsText(NonBlank(r, t))
  {
    hide NonBlank, EndTime, HertzOf, RawAdif, ShowRfc3339, Station, OperatorOf, Upper, AsText;
  }

  lemma FixedValues(fl: Rounding, options: Options, r: Record, call: string, mode: string, started: Moment)
    requires ValidMoment(started) && started.nanos == 0
    ensures ValueAt(fl, options, r, call, mode, started, ContactedCallsign) == Some(Json.Str(Upper(call)))
    ensures ValueAt(fl, options, r, call, mode, started, ModeKey) == Some(Json.Str(Upper(mode)))
    ensures ValueAt(fl, options, r, call, mode, started, StartedAt) == Some(Json.Str(ShowRfc3339(started)))
    ensures ValueAt(fl, options, r, call, mode, started, Source) == Some(Json.Str("imported/adif"))
    ensures ValueAt(fl, options, r, call, mode, started, EndedAt) == AsText(EndTime(r))
    ensures ValueAt(fl, options, r, call, mode, started, StationKey) == Some(Json.Str(Station(options, r)))
    ensures ValueAt(fl, options, r, call, mode, started, OperatorKey) == Some(Json.Str(OperatorOf(options, r)))
    ensures ValueAt(fl, options, r, call, mode, started, NotesKey) ==
      AsText(if NonBlank(r, Notes).Some? then NonBlank(r, Notes) else NonBlank(r, Comment))
  {
    hide NonBlank, EndTime, HertzOf, RawAdif, ShowRfc3339, Station, OperatorOf, Upper, AsText;
  }

  lemma TextValue(v: Option<string>)
    ensures AsText(v) == if v.Some? then Some(Json.Str(v.value)) else None
  {
  }

  /** A text field is taken over unchanged when the record gives it and left out when
      it does not. */
  lemma TextsTaken(fl: Rounding, options: Options, r: Record, k: Key, t: Tag)
    requires ToPayload(fl, options, r).Ok? && TakenFrom(k, t)
    ensures ToPayload(fl, options, r).value.Get(KeyName(k)) ==
      if Given(r, t) then Some(Json.Str(GetTag(r, t).value)) else None
  {
    PayloadAnswers(fl, options, r, k);
    NonBlankExactly(r, t);
    TakenValue(
      fl, options, r, Required(r, Call).value, Required(r, Mode).value, AdifDateTime(r, QsoDate, TimeOn).value, k, t);
    TextValue(GetTag(r, t));
    assert Given(r, t) ==> GetTag(r, t).Some?;
    assert AsText(None).None?;
    hide *;
  }

  /** The notes are the record's NOTES or else its COMMENT. */
  lemma NotesTaken(fl: Rounding, options: Options, r: Record)
    requires ToPayload(fl, options, r).Ok?
    ensures ToPayload(fl, options, r).value.Get(KeyName(NotesKey)) ==
      if Given(r, Notes) then Some(Json.Str(GetTag(r, Notes).value))
      else if Given(r, Comment) then Some(Json.Str(GetTag(r, Comment).value)) else None
  {
    PayloadAnswers(fl, options, r, NotesKey);
    NonBlankExactly(r, Notes);
    NonBlankExactly(r, Comment);
    FixedValues(
      fl, options, r, Required(r, Call).value, Required(r, Mode).value, AdifDateTime(r, QsoDate, TimeOn).value);
    TextValue(GetTag(r, Notes));
    TextValue(GetTag(r, Comment));
    assert AsText(None).None?;
    assert (Given(r, Notes) ==> GetTag(r, Notes).Some?) && (Given(r, Comment) ==> GetTag(r, Comment).Some?);
    hide *;
  }

  /** What the payload takes from the fields a record must have: call and mode in
      capitals and the start as an instant. */
  lemma ContactTaken(fl: Rounding, options: Options, r: Record)
    requires ToPayload(fl, options, r).Ok?
    ensures GetTag(r, Call).Some? && GetTag(r, Mode).Some? && AdifDateTime(r, QsoDate, TimeOn).Ok?
    ensures var payload := ToPayload(fl, options, r).value;
      && payload.Get(KeyName(ContactedCallsign)) == Some(Json.Str(Upper(GetTag(r, Call).value)))
      && payload.Get(KeyName(ModeKey)) == Some(Json.Str(Upper(GetTag(r, Mode).value)))
      && payload.Get(KeyName(StartedAt)) == Some(Json.Str(ShowRfc3339(AdifDateTime(r, QsoDate, TimeOn).value)))
      && payload.Get(KeyName(Source)) == Some(Json.Str("imported/adif"))
  {
    PayloadAnswers(fl, options, r, ContactedCallsign);
    PayloadAnswers(fl, options, r, ModeKey);
    PayloadAnswers(fl, options, r, StartedAt);
    PayloadAnswers(fl, options, r, Source);
    FixedValues(
      fl, options, r, Required(r, Call).value, Required(r, Mode).value, AdifDateTime(r, QsoDate, TimeOn).value);
    RequiredIs(r, Call);
    RequiredIs(r, Mode);
    hide *;
  }

  lemma RequiredIs(r: Record, t: Tag)
    ensures Required(r, t).Ok? ==> GetTag(r, t) == Some(Required(r, t).value)
  {
    hide Blank;
  }

  /** The end is the record's end time on the day it started, if it can be read, and
      is left out otherwise. */
  lemma EndTaken(fl: Rounding, options: Options, r: Record)
    requires ToPayload(fl, options, r).Ok?
    ensures var end := ToPayload(fl, options, r).value.Get(KeyName(EndedAt));
      if GetTag(r, TimeOff).Some? && AdifDateTime(r, QsoDate, TimeOff).Ok?
      then end == Some(Json.Str(ShowRfc3339(AdifDateTime(r, QsoDate, TimeOff).value))) else end.None?
  {
    PayloadAnswers(fl, options, r, EndedAt);
    FixedValues(
      fl, options, r, Required(r, Call).value, Required(r, Mode).value, AdifDateTime(r, QsoDate, TimeOn).value);
    EndValue(r);
    hide *;
  }

  lemma EndValue(r: Record)
    ensures AsText(EndTime(r)) ==
      if GetTag(r, TimeOff).Some? && AdifDateTime(r, QsoDate, TimeOff).Ok?
      then Some(Json.Str(ShowRfc3339(AdifDateTime(r, QsoDate, TimeOff).value))) else None
  {
    hide GetTag, AdifDateTime, ShowRfc3339;
  }
}
