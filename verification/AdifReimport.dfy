/** Export and import together (crates/ham-core/src/adif.rs:109-256). */
module AdifReimport {
  import opened Basics
  import opened Text
  import opened Clock
  import opened Event
  import opened AdifFormat
  import opened AdifNames
  import opened AdifExport
  import opened AdifRoundTrip
  import opened AdifMapping
  import opened AdifRestores
  import opened AdifImport
  import opened Projection
  import Frequency
  import Json

  /** The payloads that records map back to, in order; the others are refused. */
  function Payloads(fl: Rounding, options: Options, records: seq<Record>): seq<Json.Value> {
    if records == [] then []
    else
      var rest := Payloads(fl, options, records[1..]);
      var first := ToPayload(fl, options, records[0]);
      if first.Ok? then [first.value] + rest else rest
  }

  function CompleteOnes(qsos: seq<Qso>): seq<Qso> {
    if qsos == [] then []
    else if Complete(qsos[0]) then [qsos[0]] + CompleteOnes(qsos[1..])
    else CompleteOnes(qsos[1..])
  }

  /** What comes back of a QSO, up to the losses each predicate names. */
  ghost predicate Restored(options: Options, activations: Option<seq<Activation>>, q: Qso, back: Json.Value) {
    && Complete(q) && StationsRestored(options, q, back) && TextsRestored(q, ChooseActivation(activations, q), back)
    && TimesRestored(q, back) && FrequencyRestored(q, back)
  }

  ghost predicate AllRestored(options: Options, activations: Option<seq<Activation>>, qsos: seq<Qso>, backs: seq<Json.Value>) {
    |backs| == |qsos| && forall i :: 0 <= i < |qsos| ==> Restored(options, activations, qsos[i], backs[i])
  }

  /** Any exported file, whether its QSOs print anything or not: the payloads its
      records map back to are, in order, those of the QSOs that name a call, a mode
      and a start. */
  lemma ExportedFileRestores(fl: Rounding, options: Options, qsos: seq<Qso>, activations: Option<seq<Activation>>)
    requires Frequency.Accurate(fl) && Exportable(fl, qsos, activations)
    ensures AllRestored(
      options, activations, CompleteOnes(qsos), Payloads(fl, options, ParseRest(HEADER + QsosText(fl, qsos, activations), map[])))
  {
    hide QsosText, ParseRest, AsRecord, QsoFields, ToPayload, Complete, PlainYear, FitsMemory, Restored, NonEmpty, ChooseActivation;
    ExportParses(fl, qsos, activations);
    if qsos == [] {
      WithoutCall(fl, options, Version());
      assert Payloads(fl, options, [Version()]) == [];
    } else {
      var lists := FieldLists(fl, qsos, activations);
      var records := NonEmpty(lists[1..]);
      assert qsos[0] in qsos && forall q :: q in qsos[1..] ==> q in qsos;
      assert lists[1..] == FieldLists(fl, qsos[1..], activations);
      RecordsRestore(fl, options, qsos[1..], activations);
      var first := AsRecord(lists[0], Version());
      assert ([first] + records)[1..] == records;
      RecordRestores(fl, options, qsos[0], activations, true);
    }
  }

  lemma RecordRestores(fl: Rounding, options: Options, q: Qso, activations: Option<seq<Activation>>, first: bool)
    requires Frequency.Accurate(fl) && PlainYear(q)
    ensures var r := AsRecord(QsoFields(fl, q, ChooseActivation(activations, q)), if first then Version() else map[]);
      && (ToPayload(fl, options, r).Ok? <==> Complete(q))
      && (Complete(q) ==> Restored(options, activations, q, ToPayload(fl, options, r).value))
  {
    hide ToPayload, Complete, StationsRestored, TextsRestored, TimesRestored, FrequencyRestored, QsoFields, AsRecord, PlainYear, ChooseActivation;
    QsoComesBack(fl, options, q, ChooseActivation(activations, q), first);
  }

  /** A record without a call maps back to nothing. */
  lemma WithoutCall(fl: Rounding, options: Options, r: Record)
    requires r == map[] || r == Version()
    ensures ToPayload(fl, options, r).Err?
  {
    GetOther(map[], AdifVer, "3.1.4", Call);
    assert TagName(AdifVer) == "ADIF_VER";
  }

  /** A QSO that printed nothing has no record, and needs none: it is not complete. */
  lemma {:induction false} RecordsRestore(fl: Rounding, options: Options, qsos: seq<Qso>, activations: Option<seq<Activation>>)
    requires Frequency.Accurate(fl) && forall q :: q in qsos ==> PlainYear(q)
    ensures AllRestored(
      options, activations, CompleteOnes(qsos), Payloads(fl, options, NonEmpty(FieldLists(fl, qsos, activations))))
  {
    hide AsRecord, QsoFields, ToPayload, Complete, PlainYear, Restored, ChooseActivation;
    if qsos != [] {
      var lists := FieldLists(fl, qsos, activations);
      var r := AsRecord(lists[0], map[]);
      var records := NonEmpty(lists[1..]);
      assert forall q :: q in qsos[1..] ==> q in qsos;
      assert lists[1..] == FieldLists(fl, qsos[1..], activations);
      RecordsRestore(fl, options, qsos[1..], activations);
      assert qsos[0] in qsos;
      RecordRestores(fl, options, qsos[0], activations, false);
      WithoutCall(fl, options, map[]);
      if r == map[] {
        assert NonEmpty(lists) == records;
      } else {
        assert NonEmpty(lists) == [r] + records && ([r] + records)[1..] == records;
      }
    }
  }

  lemma {:induction false} NonEmptyMember(lists: seq<seq<Field>>, r: Record)
    requires r in NonEmpty(lists)
    ensures exists j :: 0 <= j < |lists| && r == AsRecord(lists[j], map[])
  {
    hide AsRecord;
    if r in NonEmpty(lists[1..]) {
      NonEmptyMember(lists[1..], r);
      var j :| 0 <= j < |lists[1..]| && r == AsRecord(lists[1..][j], map[]);
      assert lists[j + 1] == lists[1..][j];
    } else {
      assert r == AsRecord(lists[0], map[]);
    }
  }

  lemma {:induction false} LowerUpper(s: string)
    ensures EqIgnoreCase(s, Upper(s))
  {
    forall i | 0 <= i < |s| ensures Lower(s)[i] == Lower(Upper(s))[i] {
      assert LowerChar(UpperChar(s[i])) == LowerChar(s[i]);
    }
  }

  /** Times that agree to the second are less than a minute apart. */
  lemma CutIsClose(m: Moment, windowMinutes: int)
    requires ValidMoment(m) && windowMinutes >= 0
    ensures CloseTime(m, CutToSecond(m), windowMinutes)
  {
    CloseTimeExactly(m, CutToSecond(m), windowMinutes);
    hide DayNumber;
    assert Instant(m) - Instant(CutToSecond(m)) == m.nanos;
  }

  lemma SameUnderKey(q: Qso, k: Key)
    requires TextUnder(q, k).Some?
    ensures SameText(q.payload, KeyName(k), Upper(TextUnder(q, k).value)) && SameText(q.payload, KeyName(k), TextUnder(q, k).value)
  {
    hide Upper, Lower, Blank, KeyName;
    LowerUpper(TextUnder(q, k).value);
  }

  lemma MatchKeys()
    ensures KeyName(ContactedCallsign) == "contacted_callsign" && KeyName(ModeKey) == "mode" && KeyName(BandKey) == "band"
  {
  }

  lemma BackMatches(options: Options, q: Qso, back: Json.Value, windowMinutes: int)
    requires Complete(q) && StationsRestored(options, q, back) && TimesRestored(q, back) && windowMinutes >= 0
    requires back.GetStr(KeyName(BandKey)) == TextUnder(q, BandKey)
    ensures TimeAt(back, StartedAt).Some? && Matches(q.payload, back, TimeAt(back, StartedAt).value, windowMinutes)
  {
    hide SameText, Upper, KeyName, CloseTime, CutToSecond, TimeAt, TextUnder;
    MatchKeys();
    CutIsClose(TimeAt(q.payload, StartedAt).value, windowMinutes);
    SameUnderKey(q, ContactedCallsign);
    SameUnderKey(q, ModeKey);
    if TextUnder(q, BandKey).Some? {
      SameUnderKey(q, BandKey);
    }
  }

  /** What an exported QSO maps back to matches the QSO itself. */
  lemma OwnExportMatches(fl: Rounding, options: Options, q: Qso, a: Option<Activation>, r: Record, windowMinutes: int)
    requires PrintedRecord(fl, q, a, r) && PlainYear(q) && ToPayload(fl, options, r).Ok? && windowMinutes >= 0
    ensures var back := ToPayload(fl, options, r).value;
      TimeAt(back, StartedAt).Some? && Matches(q.payload, back, TimeAt(back, StartedAt).value, windowMinutes)
  {
    hide ToPayload, PrintedRecord, PlainYear, Complete, Matches, StationsRestored, TimesRestored, TimeAt, TextUnder, KeyName;
    PayloadMade(fl, options, q, a, r);
    StationsComeBack(fl, options, q, a, r);
    TimesComeBack(fl, options, q, a, r);
    TextComesBack(fl, options, q, a, r, BandKey);
    BackMatches(options, q, ToPayload(fl, options, r).value, windowMinutes);
  }

  lemma NothingWithoutCall(fl: Rounding, job: Job, known: Qsos)
    ensures !Decide(fl, job, known, Version()).Accepted?
  {
    WithoutCall(fl, job.options, Version());
  }

  /** A record exported from a live known QSO is never accepted anew. */
  lemma OwnRecordRefused(fl: Rounding, job: Job, known: Qsos, q: Qso, a: Option<Activation>, first: bool)
    requires job.options.policy.Skip? && job.options.windowMinutes >= 0
    requires q.id in known && known[q.id] == q && !q.deleted && PlainYear(q)
    ensures !Decide(fl, job, known, AsRecord(QsoFields(fl, q, a), if first then Version() else map[])).Accepted?
  {
    hide PlainYear, PrintedRecord, QsoFields, AsRecord, ToPayload, Matches, TimeAt, Refusal;
    var r := AsRecord(QsoFields(fl, q, a), if first then Version() else map[]);
    RecordIsPrinted(fl, q, a, first);
    if ToPayload(fl, job.options, r).Ok? {
      OwnExportMatches(fl, job.options, q, a, r, job.options.windowMinutes);
      assert IsDuplicate(known, ToPayload(fl, job.options, r).value, job.options.windowMinutes);
    }
  }

  /** The QSOs listed are live QSOs of the log. */
  ghost predicate LiveIn(known: Qsos, qsos: seq<Qso>) {
    forall q :: q in qsos ==> q.id in known && known[q.id] == q && !q.deleted
  }

  /** Importing one's own export under the Skip policy imports nothing: every record
      is a duplicate of the QSO it came from, or is refused. */
  lemma OwnExportImportsNothing(
    fl: Rounding, h: HashFunction, job: Job, log: seq<Envelope>, qsos: seq<Qso>, activations: Option<seq<Activation>>, ids: seq<NewIds>)
    requires job.options.policy.Skip? && job.options.windowMinutes >= 0
    requires LiveIn(Current(log), qsos) && Exportable(fl, qsos, activations)
    requires |ids| >= |ParseRest(HEADER + QsosText(fl, qsos, activations), map[])|
    ensures var end := Run(fl, h, job, log, ParseRest(HEADER + QsosText(fl, qsos, activations), map[]), ids);
      end.log == log && end.summary.imported == 0
  {
    hide ParseRest, QsosText, ChooseActivation, QsoFields, AsRecord, Decide, Run, Current, NonEmpty, PlainYear, FitsMemory;
    var records := ParseRest(HEADER + QsosText(fl, qsos, activations), map[]);
    var lists := FieldLists(fl, qsos, activations);
    ExportParses(fl, qsos, activations);
    forall k | 0 <= k < |records| ensures !Decide(fl, job, Current(log), records[k]).Accepted? {
      if qsos == [] {
        NothingWithoutCall(fl, job, Current(log));
      } else if k == 0 {
        assert qsos[0] in qsos && PlainYear(qsos[0]);
        OwnRecordRefused(fl, job, Current(log), qsos[0], ChooseActivation(activations, qsos[0]), true);
      } else {
        assert records[k] == NonEmpty(lists[1..])[k - 1];
        NonEmptyMember(lists[1..], records[k]);
        var j :| 0 <= j < |lists[1..]| && records[k] == AsRecord(lists[1..][j], map[]);
        var q := qsos[j + 1];
        assert q in qsos && PlainYear(q) && lists[1..][j] == lists[j + 1];
        OwnRecordRefused(fl, job, Current(log), q, ChooseActivation(activations, q), false);
      }
    }
    RunIdle(fl, h, job, log, records, ids);
  }
}
