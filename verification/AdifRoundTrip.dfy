/** What the parser makes of an exported file. */
module AdifRoundTrip {
  import opened Basics
  import opened Text
  import opened Clock
  import opened AdifFormat
  import opened AdifNames
  import opened AdifExport
  import Json
  import opened Projection

  /** Dates print with eight digits exactly when the UTC year has four. */
  ghost predicate PlainYear(q: Qso) {
    var started := TimeAt(q.payload, StartedAt);
    started.Some? ==> FourDigitYear(started.value.date)
  }

  /** No value is longer than an address can be. */
  ghost predicate FitsMemory(fl: Rounding, q: Qso, a: Option<Activation>) {
    forall t :: Printed(fl, q, a, t).Some? ==> |Printed(fl, q, a, t).value| <= USIZE_MAX
  }

  lemma ShownDigits()
    ensures ShowNat(8) == "8" && ShowNat(6) == "6"
  {
  }

  lemma DateText(d: Date)
    requires ValidDate(d) && FourDigitYear(d)
    ensures PrintField(Field("QSO_DATE", FormatDate(d))) == "<QSO_DATE:8>" + FormatDate(d)
  {
    ShownDigits();
    assert |FormatDate(d)| == 8;
    assert "<" + "QSO_DATE" + ":" + "8" + ">" == "<QSO_DATE:8>";
    hide FormatDate;
  }

  lemma TimeText(m: Moment)
    requires ValidMoment(m)
    ensures PrintField(Field("TIME_ON", FormatTime(m))) == "<TIME_ON:6>" + FormatTime(m)
    ensures PrintField(Field("TIME_OFF", FormatTime(m))) == "<TIME_OFF:6>" + FormatTime(m)
  {
    hide FormatTime;
    ShownDigits();
    assert "<" + "TIME_ON" + ":" + "6" + ">" == "<TIME_ON:6>";
    assert "<" + "TIME_OFF" + ":" + "6" + ">" == "<TIME_OFF:6>";
  }

  lemma ThreeFields(a: string, b: string, c: string)
    ensures a + (b + c) == a + b + c && a + "" == a
  {
  }

  lemma TimesAsFields(fl: Rounding, q: Qso, a: Option<Activation>)
    ensures PrintFields(FieldsOf(fl, q, a, TIMES)) ==
      FieldText("QSO_DATE", Printed(fl, q, a, QsoDate)) + FieldText("TIME_ON", Printed(fl, q, a, TimeOn)) +
      FieldText("TIME_OFF", Printed(fl, q, a, TimeOff))
  {
    hide Printed, FieldText;
    assert TIMES == [QsoDate] + ([TimeOn] + [TimeOff]);
    FieldsOfConcat(fl, q, a, [QsoDate], [TimeOn] + [TimeOff]);
    FieldsOfConcat(fl, q, a, [TimeOn], [TimeOff]);
    PrintFieldsConcat(FieldsOf(fl, q, a, [QsoDate]), FieldsOf(fl, q, a, [TimeOn] + [TimeOff]));
    PrintFieldsConcat(FieldsOf(fl, q, a, [TimeOn]), FieldsOf(fl, q, a, [TimeOff]));
    OneField(fl, q, a, QsoDate);
    OneField(fl, q, a, TimeOn);
    OneField(fl, q, a, TimeOff);
    ThreeFields(
      FieldText("QSO_DATE", Printed(fl, q, a, QsoDate)), FieldText("TIME_ON", Printed(fl, q, a, TimeOn)),
      FieldText("TIME_OFF", Printed(fl, q, a, TimeOff)));
    hide FieldsOf, PrintFields;
  }

  lemma DateTimePrinted(fl: Rounding, q: Qso, a: Option<Activation>)
    requires PlainYear(q)
    ensures DateTimeText(q.payload) == PrintFields(FieldsOf(fl, q, a, TIMES))
  {
    hide TimeAt, FormatDate, FormatTime, PrintField, PrintFields, FieldsOf;
    TimesAsFields(fl, q, a);
    var started := TimeAt(q.payload, StartedAt);
    var ended := TimeAt(q.payload, EndedAt);
    if started.Some? {
      DateText(started.value.date);
      TimeText(started.value);
      var d, on := "<QSO_DATE:8>" + FormatDate(started.value.date), "<TIME_ON:6>" + FormatTime(started.value);
      ThreeFields("<QSO_DATE:8>" + FormatDate(started.value.date), "<TIME_ON:6>", FormatTime(started.value));
      if ended.Some? {
        TimeText(ended.value);
      }
    }
  }

  lemma QsoTextIsFields(fl: Rounding, q: Qso, a: Option<Activation>)
    requires PlainYear(q)
    ensures QsoText(fl, q, a) == PrintFields(QsoFields(fl, q, a)) + "<EOR>\n"
  {
    hide PrintFields, FieldsOf, DateTimeText;
    DateTimePrinted(fl, q, a);
    FieldsOfConcat(fl, q, a, STATIONS, TIMES);
    FieldsOfConcat(fl, q, a, STATIONS + TIMES, RADIO);
    FieldsOfConcat(fl, q, a, STATIONS + TIMES + RADIO, REMARKS);
    FieldsOfConcat(fl, q, a, STATIONS + TIMES + RADIO + REMARKS, SIGS);
    PrintFieldsConcat(FieldsOf(fl, q, a, STATIONS), FieldsOf(fl, q, a, TIMES));
    PrintFieldsConcat(FieldsOf(fl, q, a, STATIONS + TIMES), FieldsOf(fl, q, a, RADIO));
    PrintFieldsConcat(FieldsOf(fl, q, a, STATIONS + TIMES + RADIO), FieldsOf(fl, q, a, REMARKS));
    PrintFieldsConcat(FieldsOf(fl, q, a, STATIONS + TIMES + RADIO + REMARKS), FieldsOf(fl, q, a, SIGS));
  }

  // ----- every printed field is printable -----

  predicate NameChar(c: char) {
    'A' <= c <= 'Z' || c == '_'
  }

  lemma NamePlain(t: Tag)
    ensures forall i :: 0 <= i < |TagName(t)| ==> NameChar(TagName(t)[i])
  {
  }

  lemma TagPrintable(t: Tag, value: string)
    requires |value| <= USIZE_MAX
    ensures Printable(Field(TagName(t), value))
  {
    NamePlain(t);
    hide TagName;
    var name := TagName(t);
    forall i | 0 <= i < |name| ensures Upper(name)[i] == name[i] && name[i] != ':' && name[i] != '>' {
      assert NameChar(name[i]);
    }
  }

  lemma {:induction false} FieldsPrintable(fl: Rounding, q: Qso, a: Option<Activation>, tags: seq<Tag>)
    requires FitsMemory(fl, q, a)
    ensures forall i :: 0 <= i < |FieldsOf(fl, q, a, tags)| ==> Printable(FieldsOf(fl, q, a, tags)[i])
  {
    hide Printed, Printable, TagName;
    if tags != [] {
      FieldsPrintable(fl, q, a, tags[1..]);
      var p := Printed(fl, q, a, tags[0]);
      if p.Some? {
        TagPrintable(tags[0], p.value);
      }
    }
  }

  // ----- looking a tag up -----

  function GetTag(r: Record, t: Tag): Option<string> {
    if TagName(t) in r then Some(r[TagName(t)]) else None
  }

  lemma GetOther(r: Record, put: Tag, value: string, t: Tag)
    ensures GetTag(r[TagName(put) := value], t) == if t == put then Some(value) else GetTag(r, t)
  {
    hide TagName;
    if TagName(t) == TagName(put) {
      TagNamesDiffer(t, put);
    }
  }

  /** A parsed record answers each tag with what was printed under it. */
  lemma {:induction false} FieldsLookUp(fl: Rounding, q: Qso, a: Option<Activation>, tags: seq<Tag>, start: Record, t: Tag)
    ensures GetTag(AsRecord(FieldsOf(fl, q, a, tags), start), t) ==
      if t in tags && Printed(fl, q, a, t).Some? then Printed(fl, q, a, t) else GetTag(start, t)
  {
    hide Printed, GetTag, TagName;
    if tags != [] {
      var p := Printed(fl, q, a, tags[0]);
      if p.Some? {
        var f := Field(TagName(tags[0]), p.value);
        var next := start[f.name := f.value];
        assert FieldsOf(fl, q, a, tags)[1..] == FieldsOf(fl, q, a, tags[1..]);
        FieldsLookUp(fl, q, a, tags[1..], next, t);
        GetOther(start, tags[0], p.value, t);
      } else {
        FieldsLookUp(fl, q, a, tags[1..], start, t);
      }
    }
  }

  lemma InConcat(t: Tag, x: seq<Tag>, y: seq<Tag>)
    ensures t in x + y <==> t in x || t in y
  {
  }

  lemma InLists(t: Tag)
    ensures t in STATIONS <==> t == Call || t == StationCallsign || t == Operator
    ensures t in TIMES <==> t == QsoDate || t == TimeOn || t == TimeOff
  {
    assert STATIONS[0] == Call && STATIONS[1] == StationCallsign && STATIONS[2] == Operator;
    assert TIMES[0] == QsoDate && TIMES[1] == TimeOn && TIMES[2] == TimeOff;
  }

  lemma InRadio(t: Tag)
    ensures t in RADIO <==> t == Band || t == Freq || t == Mode || t == Submode || t == RstSent || t == RstRcvd
  {
    assert RADIO[0] == Band && RADIO[1] == Freq && RADIO[2] == Mode && RADIO[3] == Submode;
    assert RADIO[4] == RstSent && RADIO[5] == RstRcvd;
  }

  lemma InRemarksOrSigs(t: Tag)
    ensures t in REMARKS <==> t == GridSquare || t == Name || t == Qth || t == Comment
    ensures t in SIGS <==> t == MySig || t == MySigInfo || t == Sig || t == SigInfo
  {
    assert REMARKS[0] == GridSquare && REMARKS[1] == Name && REMARKS[2] == Qth && REMARKS[3] == Comment;
    assert SIGS[0] == MySig && SIGS[1] == MySigInfo && SIGS[2] == Sig && SIGS[3] == SigInfo;
  }

  lemma ExportedTags(t: Tag)
    ensures t in STATIONS + TIMES + RADIO + REMARKS + SIGS <==> t != Notes && t != AdifVer
  {
    InConcat(t, STATIONS, TIMES);
    InConcat(t, STATIONS + TIMES, RADIO);
    InConcat(t, STATIONS + TIMES + RADIO, REMARKS);
    InConcat(t, STATIONS + TIMES + RADIO + REMARKS, SIGS);
    InLists(t);
    InRadio(t);
    InRemarksOrSigs(t);
  }

  // ----- whole files -----

  function FieldLists(fl: Rounding, qsos: seq<Qso>, activations: Option<seq<Activation>>): (r: seq<seq<Field>>)
    ensures |r| == |qsos|
    ensures forall i :: 0 <= i < |qsos| ==> r[i] == QsoFields(fl, qsos[i], ChooseActivation(activations, qsos[i]))
  {
    seq(|qsos|, i requires 0 <= i < |qsos| => QsoFields(fl, qsos[i], ChooseActivation(activations, qsos[i])))
  }

  /** The conditions under which dates keep eight digits and values fit. */
  ghost predicate Exportable(fl: Rounding, qsos: seq<Qso>, activations: Option<seq<Activation>>) {
    forall q :: q in qsos ==> PlainYear(q) && FitsMemory(fl, q, ChooseActivation(activations, q))
  }

  lemma {:induction false} QsosTextIsRecords(fl: Rounding, qsos: seq<Qso>, activations: Option<seq<Activation>>)
    requires Exportable(fl, qsos, activations)
    ensures QsosText(fl, qsos, activations) == PrintRecords(FieldLists(fl, qsos, activations))
  {
    hide QsoText, QsoFields, ChooseActivation, PrintFields, PlainYear, FitsMemory;
    if qsos != [] {
      assert PlainYear(qsos[0]);
      QsoTextIsFields(fl, qsos[0], ChooseActivation(activations, qsos[0]));
      QsosTextIsRecords(fl, qsos[1..], activations);
      assert FieldLists(fl, qsos, activations)[1..] == FieldLists(fl, qsos[1..], activations);
    }
  }

  lemma FieldListsPrintable(fl: Rounding, qsos: seq<Qso>, activations: Option<seq<Activation>>)
    requires Exportable(fl, qsos, activations)
    ensures AllPrintable(FieldLists(fl, qsos, activations))
  {
    hide Printable, FieldsOf, ChooseActivation, PlainYear, FitsMemory;
    var lists := FieldLists(fl, qsos, activations);
    forall i, j | 0 <= i < |lists| && 0 <= j < |lists[i]| ensures Printable(lists[i][j]) {
      var q := qsos[i];
      assert q in qsos;
      FieldsPrintable(fl, q, ChooseActivation(activations, q), STATIONS + TIMES + RADIO + REMARKS + SIGS);
    }
  }

  function Version(): Record {
    map[VERSION_FIELD.name := VERSION_FIELD.value]
  }

  lemma PreambleIsPlain(body: string)
    ensures !Contains(PREAMBLE, '<')
    ensures HEADER + body == PREAMBLE + PrintField(VERSION_FIELD) + "\n<EOH>\n" + body
  {
    assert ShowNat(5) == "5";
    assert "<" + "ADIF_VER" + ":" + "5" + ">" + "3.1.4" == "<ADIF_VER:5>3.1.4";
    assert "<ADIF_VER:5>3.1.4" + "\n<EOH>\n" == "<ADIF_VER:5>3.1.4\n<EOH>\n";
    assert HEADER + body == PREAMBLE + "<ADIF_VER:5>3.1.4" + "\n<EOH>\n" + body;
  }

  /** Parsing an exported file gives one record for every exported QSO that has at
      least one printed field, in order, each holding exactly the printed fields.
      The version tag joins the first record, which is there in any case; an empty
      export parses to the version alone. */
  lemma ExportParses(fl: Rounding, qsos: seq<Qso>, activations: Option<seq<Activation>>)
    requires Exportable(fl, qsos, activations)
    ensures var lists := FieldLists(fl, qsos, activations);
      ParseRest(HEADER + QsosText(fl, qsos, activations), map[]) ==
      if qsos == [] then [Version()] else [AsRecord(lists[0], Version())] + NonEmpty(lists[1..])
  {
    hide QsosText, FieldLists, AsRecord, NonEmpty, ParseRest, PrintRecords;
    var lists := FieldLists(fl, qsos, activations);
    QsosTextIsRecords(fl, qsos, activations);
    FieldListsPrintable(fl, qsos, activations);
    PreambleIsPlain(QsosText(fl, qsos, activations));
    FileRoundTrip(PREAMBLE, lists);
  }

  /** What a parsed record says about the QSO it came from: every tag answers with
      the value printed, and a tag that printed nothing is absent. */
  lemma ExportedFieldReturns(fl: Rounding, q: Qso, a: Option<Activation>, first: bool, t: Tag)
    ensures GetTag(AsRecord(QsoFields(fl, q, a), if first then Version() else map[]), t) ==
      if first && t == AdifVer then Some("3.1.4") else if t == Notes || t == AdifVer then None else Printed(fl, q, a, t)
  {
    hide Printed, FieldsOf;
    ExportedTags(t);
    FieldsLookUp(fl, q, a, STATIONS + TIMES + RADIO + REMARKS + SIGS, if first then Version() else map[], t);
    GetOther(map[], AdifVer, "3.1.4", t);
    assert TagName(AdifVer) == "ADIF_VER";
    hide TagName;
  }

  /** A QSO that prints its call always has a record of its own. */
  lemma {:induction false} EveryCallKept(fl: Rounding, qsos: seq<Qso>, activations: Option<seq<Activation>>)
    requires forall q :: q in qsos ==> Printed(fl, q, ChooseActivation(activations, q), Call).Some?
    ensures var kept := NonEmpty(FieldLists(fl, qsos, activations));
      && |kept| == |qsos|
      && forall i :: 0 <= i < |qsos| ==> kept[i] == AsRecord(FieldLists(fl, qsos, activations)[i], map[])
  {
    hide Printed, ChooseActivation, QsoFields, AsRecord;
    if qsos != [] {
      var q := qsos[0];
      assert q in qsos;
      var lists := FieldLists(fl, qsos, activations);
      assert lists[1..] == FieldLists(fl, qsos[1..], activations);
      EveryCallKept(fl, qsos[1..], activations);
      ExportedFieldReturns(fl, q, ChooseActivation(activations, q), false, Call);
      assert AsRecord(lists[0], map[]) != map[];
      assert NonEmpty(lists) == [AsRecord(lists[0], map[])] + NonEmpty(lists[1..]);
    }
  }
}
