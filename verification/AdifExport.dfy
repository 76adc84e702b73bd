/** Printing QSOs as ADIF (crates/ham-core/src/adif.rs:109-190 and 395-458). */
module AdifExport {
  import opened Basics
  import opened Text
  import opened Clock
  import opened AdifFormat
  import opened AdifNames
  import Frequency
  import Json
  import opened Projection
  import UuidText

  type Rounding = Frequency.Rounding

  datatype Activation = Activation(id: Uuid, payload: Json.Value, linkedQsos: set<Uuid>)

  // ----- which activation a QSO belongs to -----

  function FindActivation(activations: seq<Activation>, id: Uuid): Option<Activation> {
    if activations == [] then None
    else if activations[0].id == id then Some(activations[0])
    else FindActivation(activations[1..], id)
  }

  function FindLinked(activations: seq<Activation>, qsoId: Uuid): Option<Activation> {
    if activations == [] then None
    else if qsoId in activations[0].linkedQsos then Some(activations[0])
    else FindLinked(activations[1..], qsoId)
  }

  /** The activation named in the payload, or else the first one linked to it. */
  function ChooseActivation(activations: Option<seq<Activation>>, q: Qso): Option<Activation> {
    if activations.None? then None
    else
      var text := q.payload.GetStr("activation_id");
      var id := if text.Some? then UuidText.ParseUuid(text.value) else None;
      var named := if id.Some? then FindActivation(activations.value, id.value) else None;
      if named.Some? then named else FindLinked(activations.value, q.id)
  }

  function ActivationType(a: Option<Activation>): Option<string> {
    if a.None? then None
    else
      var text := a.value.payload.GetStr("activation_type");
      if text.None? then None else Some(Upper(text.value))
  }

  function ActivationReference(a: Option<Activation>): Option<string> {
    if a.None? then None
    else if a.value.payload.Get("park_id").Some? then a.value.payload.GetStr("park_id")
    else a.value.payload.GetStr("summit_id")
  }

  // ----- what each tag prints -----

  function NonEmptyText(v: Option<Json.Value>): Option<string> {
    match v
    case Some(Str(s)) => if s == "" then None else v.value.AsStr()
    case _ => None
  }

  /** A text in the payload wins over the fallback, even an empty one. */
  function TextOr(v: Option<Json.Value>, fallback: Option<string>): Option<string> {
    if v.Some? && v.value.Str? then NonEmptyText(v)
    else if fallback.Some? && fallback.value != "" then fallback
    else None
  }

  function TimeAt(payload: Json.Value, key: Key): (r: Option<Moment>)
    ensures r.Some? ==> ValidMoment(r.value)
  {
    match payload.GetStr(KeyName(key))
    case None => None
    case Some(s) => ParseRfc3339(s)
  }

  function FrequencyText(fl: Rounding, payload: Json.Value): Option<string> {
    match payload.Get(KeyName(FrequencyHz))
    case Some(Number(n)) => if 0 <= n <= Frequency.U64_MAX then Some(Frequency.ExportedText(fl, n)) else None
    case _ => None
  }

  /** The payload key that feeds a plain text tag. */
  function TextKey(t: Tag): Option<Key> {
    match t
    case Call => Some(ContactedCallsign)
    case StationCallsign => Some(StationKey)
    case Operator => Some(OperatorKey)
    case Band => Some(BandKey)
    case Mode => Some(ModeKey)
    case Submode => Some(SubmodeKey)
    case RstSent => Some(RstSentKey)
    case RstRcvd => Some(RstReceived)
    case GridSquare => Some(Grid)
    case Name => Some(NameKey)
    case Qth => Some(QthKey)
    case Comment => Some(NotesKey)
    case Sig => Some(ContactedSig)
    case SigInfo => Some(ContactedSigInfo)
    case _ => None
  }

  /** The value a QSO prints under a tag, if any. */
  function Printed(fl: Rounding, q: Qso, a: Option<Activation>, t: Tag): Option<string> {
    var started := TimeAt(q.payload, StartedAt);
    var ended := TimeAt(q.payload, EndedAt);
    match t
    case QsoDate => if started.Some? then Some(FormatDate(started.value.date)) else None
    case TimeOn => if started.Some? then Some(FormatTime(started.value)) else None
    case TimeOff => if started.Some? && ended.Some? then Some(FormatTime(ended.value)) else None
    case Freq => FrequencyText(fl, q.payload)
    case MySig => TextOr(q.payload.Get(KeyName(MySigKey)), ActivationType(a))
    case MySigInfo => TextOr(q.payload.Get(KeyName(MySigInfoKey)), ActivationReference(a))
    case _ => if TextKey(t).Some? then NonEmptyText(q.payload.Get(KeyName(TextKey(t).value))) else None
  }

  const STATIONS: seq<Tag> := [Call, StationCallsign, Operator]
  const TIMES: seq<Tag> := [QsoDate, TimeOn, TimeOff]
  const RADIO: seq<Tag> := [Band, Freq, Mode, Submode, RstSent, RstRcvd]
  const REMARKS: seq<Tag> := [GridSquare, Name, Qth, Comment]
  const SIGS: seq<Tag> := [MySig, MySigInfo, Sig, SigInfo]

  function FieldsOf(fl: Rounding, q: Qso, a: Option<Activation>, tags: seq<Tag>): seq<Field> {
    if tags == [] then []
    else
      var rest := FieldsOf(fl, q, a, tags[1..]);
      match Printed(fl, q, a, tags[0])
      case None => rest
      case Some(value) => [Field(TagName(tags[0]), value)] + rest
  }

  /** Every field a QSO prints, in order. */
  function QsoFields(fl: Rounding, q: Qso, a: Option<Activation>): seq<Field> {
    FieldsOf(fl, q, a, STATIONS + TIMES + RADIO + REMARKS + SIGS)
  }

  // ----- the text written -----

  function FieldText(name: string, value: Option<string>): string {
    if value.None? then "" else PrintField(Field(name, value.value))
  }

  /** Date and times are written with fixed lengths. */
  function DateTimeText(payload: Json.Value): string {
    var started := TimeAt(payload, StartedAt);
    var ended := TimeAt(payload, EndedAt);
    if started.None? then ""
    else
      "<QSO_DATE:8>" + FormatDate(started.value.date) + "<TIME_ON:6>" + FormatTime(started.value) +
      if ended.None? then "" else "<TIME_OFF:6>" + FormatTime(ended.value)
  }

  function QsoText(fl: Rounding, q: Qso, a: Option<Activation>): string {
    PrintFields(FieldsOf(fl, q, a, STATIONS)) + DateTimeText(q.payload) + PrintFields(FieldsOf(fl, q, a, RADIO)) +
    PrintFields(FieldsOf(fl, q, a, REMARKS)) + PrintFields(FieldsOf(fl, q, a, SIGS)) + "<EOR>\n"
  }

  const PREAMBLE := "Generated by KE8YGW Logger 0.5.1\n"
  const HEADER := PREAMBLE + "<ADIF_VER:5>3.1.4\n<EOH>\n"

  function QsosText(fl: Rounding, qsos: seq<Qso>, activations: Option<seq<Activation>>): string {
    if qsos == [] then ""
    else QsoText(fl, qsos[0], ChooseActivation(activations, qsos[0])) + QsosText(fl, qsos[1..], activations)
  }

  /** projection.list: tombstoned QSOs only on request. */
  function Listed(projection: seq<Qso>, includeDeleted: bool): seq<Qso> {
    if projection == [] then []
    else
      var rest := Listed(projection[1..], includeDeleted);
      if includeDeleted || !projection[0].deleted then [projection[0]] + rest else rest
  }

  method AppendField(output: string, name: string, value: Option<Json.Value>) returns (output': string)
    ensures output' == output + FieldText(name, NonEmptyText(value))
  {
    if value.None? || !value.value.Str? || value.value.s == "" {
      return output;
    }
    output' := output + ("<" + name + ":" + ShowNat(|value.value.s|) + ">" + value.value.s);
  }

  method AppendFieldOrStr(output: string, name: string, value: Option<Json.Value>, fallback: Option<string>)
    returns (output': string)
    ensures output' == output + FieldText(name, TextOr(value, fallback))
  {
    output' := output;
    if value.Some? && value.value.Str? {
      output' := AppendField(output, name, value);
    } else if fallback.Some? && fallback.value != "" {
      output' := output + ("<" + name + ":" + ShowNat(|fallback.value|) + ">" + fallback.value);
    }
  }

  method AppendFrequency(fl: Rounding, output: string, payload: Json.Value) returns (output': string)
    ensures output' == output + FieldText(TagName(Freq), FrequencyText(fl, payload))
  {
    hide Frequency.ExportedText;
    var value := payload.Get("frequency_hz");
    if value.None? || !value.value.Number? || !(0 <= value.value.n <= Frequency.U64_MAX) {
      return output;
    }
    var text := Frequency.ExportedText(fl, value.value.n);
    assert "<" + "FREQ" + ":" == "<FREQ:";
    output' := output + ("<FREQ:" + ShowNat(|text|) + ">" + text);
  }

  method AppendDateTime(output: string, payload: Json.Value) returns (output': string)
    ensures output' == output + DateTimeText(payload)
  {
    hide ParseRfc3339, FormatDate, FormatTime, TimeAt;
    var started := TimeAt(payload, StartedAt);
    if started.None? {
      return output;
    }
    var written := "<QSO_DATE:8>" + FormatDate(started.value.date) + "<TIME_ON:6>" + FormatTime(started.value);
    output' := output + written;
    var ended := TimeAt(payload, EndedAt);
    if ended.Some? {
      var off := "<TIME_OFF:6>" + FormatTime(ended.value);
      ConcatAssociates(output, written, off);
      output' := output' + off;
    }
  }

  /** The first n tags of a list have been written after a starting text. */
  ghost predicate Written(output: string, start: string, fl: Rounding, q: Qso, a: Option<Activation>, tags: seq<Tag>, n: nat) {
    n <= |tags| && output == start + PrintFields(FieldsOf(fl, q, a, tags[..n]))
  }

  lemma {:induction false} FieldsOfConcat(fl: Rounding, q: Qso, a: Option<Activation>, x: seq<Tag>, y: seq<Tag>)
    ensures FieldsOf(fl, q, a, x + y) == FieldsOf(fl, q, a, x) + FieldsOf(fl, q, a, y)
  {
    hide Printed;
    if x == [] {
      assert x + y == y;
    } else {
      assert (x + y)[1..] == x[1..] + y;
      FieldsOfConcat(fl, q, a, x[1..], y);
    }
  }

  lemma WriteNext(output: string, start: string, fl: Rounding, q: Qso, a: Option<Activation>, tags: seq<Tag>, n: nat)
    requires Written(output, start, fl, q, a, tags, n) && n < |tags|
    ensures Written(output + FieldText(TagName(tags[n]), Printed(fl, q, a, tags[n])), start, fl, q, a, tags, n + 1)
  {
    hide Printed, FieldsOf, PrintFields, FieldText;
    var t := tags[n];
    assert tags[..n + 1] == tags[..n] + [t];
    FieldsOfConcat(fl, q, a, tags[..n], [t]);
    PrintFieldsConcat(FieldsOf(fl, q, a, tags[..n]), FieldsOf(fl, q, a, [t]));
    OneField(fl, q, a, t);
    ConcatAssociates(start, PrintFields(FieldsOf(fl, q, a, tags[..n])), FieldText(TagName(t), Printed(fl, q, a, t)));
  }

  lemma OneField(fl: Rounding, q: Qso, a: Option<Activation>, t: Tag)
    ensures PrintFields(FieldsOf(fl, q, a, [t])) == FieldText(TagName(t), Printed(fl, q, a, t))
  {
    hide Printed, PrintField;
    var p := Printed(fl, q, a, t);
    assert FieldsOf(fl, q, a, [t][1..]) == [];
    if p.Some? {
      var f := Field(TagName(t), p.value);
      assert FieldsOf(fl, q, a, [t]) == [f];
      assert PrintFields([f]) == PrintField(f) + PrintFields([f][1..]);
    }
  }

  lemma NothingWritten(start: string, fl: Rounding, q: Qso, a: Option<Activation>, tags: seq<Tag>)
    ensures Written(start, start, fl, q, a, tags, 0)
  {
    hide Printed;
    assert tags[..0] == [];
    assert start + PrintFields([]) == start;
  }

  lemma AllWritten(output: string, start: string, fl: Rounding, q: Qso, a: Option<Activation>, tags: seq<Tag>)
    requires Written(output, start, fl, q, a, tags, |tags|)
    ensures output == start + PrintFields(FieldsOf(fl, q, a, tags))
  {
    hide Printed, FieldsOf, PrintFields;
    assert tags[..|tags|] == tags;
  }

  lemma WriteText(output: string, start: string, fl: Rounding, q: Qso, a: Option<Activation>, tags: seq<Tag>, n: nat, t: Tag, k: Key)
    requires Written(output, start, fl, q, a, tags, n) && n < |tags|
    requires tags[n] == t && TextKey(t) == Some(k)
    ensures Written(output + FieldText(TagName(t), NonEmptyText(q.payload.Get(KeyName(k)))), start, fl, q, a, tags, n + 1)
  {
    hide Written, FieldText, TagName, KeyName, FrequencyText, TimeAt;
    WriteNext(output, start, fl, q, a, tags, n);
    assert Printed(fl, q, a, t) == NonEmptyText(q.payload.Get(KeyName(k)));
  }

  /** Appends the next tag of a list, fed by one payload key. */
  method AppendText(fl: Rounding, output: string, ghost start: string, q: Qso, ghost a: Option<Activation>, ghost tags: seq<Tag>, ghost n: nat, t: Tag, k: Key)
    returns (o: string)
    requires Written(output, start, fl, q, a, tags, n) && n < |tags|
    requires tags[n] == t && TextKey(t) == Some(k)
    ensures Written(o, start, fl, q, a, tags, n + 1)
  {
    hide Written, FieldText, TagName, KeyName, NonEmptyText;
    WriteText(output, start, fl, q, a, tags, n, t, k);
    o := AppendField(output, TagName(t), q.payload.Get(KeyName(k)));
  }

  method AppendHertz(fl: Rounding, output: string, ghost start: string, q: Qso, ghost a: Option<Activation>, ghost tags: seq<Tag>, ghost n: nat)
    returns (o: string)
    requires Written(output, start, fl, q, a, tags, n) && n < |tags| && tags[n] == Freq
    ensures Written(o, start, fl, q, a, tags, n + 1)
  {
    hide Written, FieldText, TagName, FrequencyText;
    WriteNext(output, start, fl, q, a, tags, n);
    o := AppendFrequency(fl, output, q.payload);
  }

  method AppendOwnSig(fl: Rounding, output: string, ghost start: string, q: Qso, ghost a: Option<Activation>, ghost tags: seq<Tag>, ghost n: nat, t: Tag, k: Key, fallback: Option<string>)
    returns (o: string)
    requires Written(output, start, fl, q, a, tags, n) && n < |tags| && tags[n] == t
    requires Printed(fl, q, a, t) == TextOr(q.payload.Get(KeyName(k)), fallback)
    ensures Written(o, start, fl, q, a, tags, n + 1)
  {
    hide Written, FieldText, TagName, KeyName, TextOr, Printed;
    WriteNext(output, start, fl, q, a, tags, n);
    o := AppendFieldOrStr(output, TagName(t), q.payload.Get(KeyName(k)), fallback);
  }

  lemma OwnSigsPrinted(fl: Rounding, q: Qso, a: Option<Activation>)
    ensures Printed(fl, q, a, MySig) == TextOr(q.payload.Get(KeyName(MySigKey)), ActivationType(a))
    ensures Printed(fl, q, a, MySigInfo) == TextOr(q.payload.Get(KeyName(MySigInfoKey)), ActivationReference(a))
  {
  }

  /** The fields before the date. */
  method AppendStations(fl: Rounding, output: string, q: Qso, a: Option<Activation>) returns (o: string)
    ensures o == output + PrintFields(FieldsOf(fl, q, a, STATIONS))
  {
    hide Written, FieldText, NonEmptyText, PrintFields, FieldsOf, TagName, KeyName, Printed;
    NothingWritten(output, fl, q, a, STATIONS);
    o := AppendText(fl, output, output, q, a, STATIONS, 0, Call, ContactedCallsign);
    o := AppendText(fl, o, output, q, a, STATIONS, 1, StationCallsign, StationKey);
    o := AppendText(fl, o, output, q, a, STATIONS, 2, Operator, OperatorKey);
    AllWritten(o, output, fl, q, a, STATIONS);
  }

  /** Band, frequency, mode and reports. */
  method AppendRadio(fl: Rounding, output: string, q: Qso, a: Option<Activation>) returns (o: string)
    ensures o == output + PrintFields(FieldsOf(fl, q, a, RADIO))
  {
    hide Written, FieldText, NonEmptyText, PrintFields, FieldsOf, TagName, KeyName, FrequencyText, Printed;
    NothingWritten(output, fl, q, a, RADIO);
    o := AppendText(fl, output, output, q, a, RADIO, 0, Band, BandKey);
    o := AppendHertz(fl, o, output, q, a, RADIO, 1);
    o := AppendText(fl, o, output, q, a, RADIO, 2, Mode, ModeKey);
    o := AppendText(fl, o, output, q, a, RADIO, 3, Submode, SubmodeKey);
    o := AppendText(fl, o, output, q, a, RADIO, 4, RstSent, RstSentKey);
    o := AppendText(fl, o, output, q, a, RADIO, 5, RstRcvd, RstReceived);
    AllWritten(o, output, fl, q, a, RADIO);
  }

  /** Locator, name, place and notes. */
  method AppendRemarks(fl: Rounding, output: string, q: Qso, a: Option<Activation>) returns (o: string)
    ensures o == output + PrintFields(FieldsOf(fl, q, a, REMARKS))
  {
    hide Written, FieldText, NonEmptyText, PrintFields, FieldsOf, TagName, KeyName, Printed;
    NothingWritten(output, fl, q, a, REMARKS);
    o := AppendText(fl, output, output, q, a, REMARKS, 0, GridSquare, Grid);
    o := AppendText(fl, o, output, q, a, REMARKS, 1, Name, NameKey);
    o := AppendText(fl, o, output, q, a, REMARKS, 2, Qth, QthKey);
    o := AppendText(fl, o, output, q, a, REMARKS, 3, Comment, NotesKey);
    AllWritten(o, output, fl, q, a, REMARKS);
  }

  /** Activities on both sides; an activation fills in for our own. */
  method AppendSigs(fl: Rounding, output: string, q: Qso, a: Option<Activation>) returns (o: string)
    ensures o == output + PrintFields(FieldsOf(fl, q, a, SIGS))
  {
    hide Written, FieldText, NonEmptyText, PrintFields, FieldsOf, TagName, KeyName, TextOr, ActivationType, ActivationReference, Printed;
    OwnSigsPrinted(fl, q, a);
    NothingWritten(output, fl, q, a, SIGS);
    o := AppendOwnSig(fl, output, output, q, a, SIGS, 0, MySig, MySigKey, ActivationType(a));
    o := AppendOwnSig(fl, o, output, q, a, SIGS, 1, MySigInfo, MySigInfoKey, ActivationReference(a));
    o := AppendText(fl, o, output, q, a, SIGS, 2, Sig, ContactedSig);
    o := AppendText(fl, o, output, q, a, SIGS, 3, SigInfo, ContactedSigInfo);
    AllWritten(o, output, fl, q, a, SIGS);
  }

  lemma JoinQso(output: string, a: string, b: string, c: string, d: string, e: string)
    ensures output + a + b + c + d + e + "<EOR>\n" == output + (a + b + c + d + e + "<EOR>\n")
  {
  }

  lemma {:induction false} QsosTextSnoc(fl: Rounding, qsos: seq<Qso>, q: Qso, activations: Option<seq<Activation>>)
    ensures QsosText(fl, qsos + [q], activations) ==
      QsosText(fl, qsos, activations) + QsoText(fl, q, ChooseActivation(activations, q))
  {
    hide QsoText, ChooseActivation;
    if qsos == [] {
      assert qsos + [q] == [q] && [q][1..] == [];
    } else {
      assert (qsos + [q])[1..] == qsos[1..] + [q];
      QsosTextSnoc(fl, qsos[1..], q, activations);
    }
  }

  /** export_adif_with_activations, QSO by QSO onto one buffer. */
  method ExportAdif(fl: Rounding, projection: seq<Qso>, activations: Option<seq<Activation>>, includeDeleted: bool)
    returns (output: string)
    ensures output == HEADER + QsosText(fl, Listed(projection, includeDeleted), activations)
  {
    hide QsoText, ChooseActivation, FieldsOf, PrintFields, DateTimeText;
    output := PREAMBLE + "<ADIF_VER:5>3.1.4\n<EOH>\n";
    var records := Listed(projection, includeDeleted);
    assert output + "" == output && records[..0] == [];
    for i := 0 to |records|
      invariant output == HEADER + QsosText(fl, records[..i], activations)
    {
      var q := records[i];
      var a := ChooseActivation(activations, q);
      output := ExportQso(fl, output, q, a);
      assert records[..i + 1] == records[..i] + [q];
      QsosTextSnoc(fl, records[..i], q, activations);
      ConcatAssociates(HEADER, QsosText(fl, records[..i], activations), QsoText(fl, q, a));
    }
    assert records[..|records|] == records;
  }

  method ExportQso(fl: Rounding, output: string, q: Qso, a: Option<Activation>) returns (o: string)
    ensures o == output + QsoText(fl, q, a)
  {
    hide FieldsOf, PrintFields, DateTimeText;
    o := AppendStations(fl, output, q, a);
    o := AppendDateTime(o, q.payload);
    o := AppendRadio(fl, o, q, a);
    o := AppendRemarks(fl, o, q, a);
    o := AppendSigs(fl, o, q, a);
    JoinQso(
      output, PrintFields(FieldsOf(fl, q, a, STATIONS)), DateTimeText(q.payload), PrintFields(FieldsOf(fl, q, a, RADIO)),
      PrintFields(FieldsOf(fl, q, a, REMARKS)), PrintFields(FieldsOf(fl, q, a, SIGS)));
    o := o + "<EOR>\n";
  }

  // ----- which QSOs and which activation -----

  lemma {:induction false} ListedConcat(a: seq<Qso>, b: seq<Qso>, includeDeleted: bool)
    ensures Listed(a + b, includeDeleted) == Listed(a, includeDeleted) + Listed(b, includeDeleted)
  {
    if a == [] {
      assert a + b == b;
    } else {
      assert (a + b)[1..] == a[1..] + b;
      ListedConcat(a[1..], b, includeDeleted);
    }
  }

  /** Every QSO is listed as often as it is there, except that deleted ones are listed
      only on request; ListedConcat keeps their order. */
  lemma {:induction false} ListedExactly(projection: seq<Qso>, includeDeleted: bool, q: Qso)
    ensures multiset(Listed(projection, includeDeleted))[q] ==
      if q.deleted && !includeDeleted then 0 else multiset(projection)[q]
  {
    if projection != [] {
      ListedExactly(projection[1..], includeDeleted, q);
      assert projection == [projection[0]] + projection[1..];
    }
  }

  lemma {:induction false} FoundActivation(activations: seq<Activation>, id: Uuid, i: nat)
    requires i < |activations| && activations[i].id == id && forall j :: 0 <= j < i ==> activations[j].id != id
    ensures FindActivation(activations, id) == Some(activations[i])
  {
    if i > 0 {
      FoundActivation(activations[1..], id, i - 1);
    }
  }

  lemma {:induction false} NoSuchActivation(activations: seq<Activation>, id: Uuid)
    requires forall i :: 0 <= i < |activations| ==> activations[i].id != id
    ensures FindActivation(activations, id).None?
  {
    if activations != [] {
      NoSuchActivation(activations[1..], id);
    }
  }

  lemma {:induction false} FoundLinked(activations: seq<Activation>, qsoId: Uuid, i: nat)
    requires i < |activations| && qsoId in activations[i].linkedQsos && forall j :: 0 <= j < i ==> qsoId !in activations[j].linkedQsos
    ensures FindLinked(activations, qsoId) == Some(activations[i])
  {
    if i > 0 {
      FoundLinked(activations[1..], qsoId, i - 1);
    }
  }

  lemma {:induction false} NoneLinked(activations: seq<Activation>, qsoId: Uuid)
    requires forall i :: 0 <= i < |activations| ==> qsoId !in activations[i].linkedQsos
    ensures FindLinked(activations, qsoId).None?
  {
    if activations != [] {
      NoneLinked(activations[1..], qsoId);
    }
  }

  /** The payload names this activation, the first one with that id. */
  predicate NamedAt(activations: seq<Activation>, q: Qso, i: nat) {
    && i < |activations| && q.payload.GetStr("activation_id").Some?
    && UuidText.ParseUuid(q.payload.GetStr("activation_id").value) == Some(activations[i].id)
    && forall j :: 0 <= j < i ==> activations[j].id != activations[i].id
  }

  /** The first activation the QSO is linked to. */
  predicate LinkedAt(activations: seq<Activation>, q: Qso, i: nat) {
    i < |activations| && q.id in activations[i].linkedQsos && forall j :: 0 <= j < i ==> q.id !in activations[j].linkedQsos
  }

  /** A QSO belongs to the activation it names, if there is one with that id, and
      otherwise to the first one that lists it. */
  lemma ChosenExactly(activations: seq<Activation>, q: Qso, i: nat)
    ensures NamedAt(activations, q, i) ==> ChooseActivation(Some(activations), q) == Some(activations[i])
    ensures LinkedAt(activations, q, i) && (forall j: nat :: !NamedAt(activations, q, j)) ==>
      ChooseActivation(Some(activations), q) == Some(activations[i])
  {
    hide UuidText.ParseUuid;
    if NamedAt(activations, q, i) {
      FoundActivation(activations, activations[i].id, i);
    } else if LinkedAt(activations, q, i) && (forall j: nat :: !NamedAt(activations, q, j)) {
      FoundLinked(activations, q.id, i);
      NamedIfFound(activations, q);
    }
  }

  lemma NamedIfFound(activations: seq<Activation>, q: Qso)
    ensures var text := q.payload.GetStr("activation_id");
      text.Some? && UuidText.ParseUuid(text.value).Some? && FindActivation(activations, UuidText.ParseUuid(text.value).value).Some? ==>
      exists i: nat :: NamedAt(activations, q, i)
  {
    hide UuidText.ParseUuid;
    var text := q.payload.GetStr("activation_id");
    if text.Some? && UuidText.ParseUuid(text.value).Some? {
      var id := UuidText.ParseUuid(text.value).value;
      if FindActivation(activations, id).Some? {
        var i := FirstNamed(activations, id);
        assert NamedAt(activations, q, i);
      }
    }
  }

  lemma {:induction false} FirstNamed(activations: seq<Activation>, id: Uuid) returns (i: nat)
    requires FindActivation(activations, id).Some?
    ensures i < |activations| && activations[i].id == id && forall j :: 0 <= j < i ==> activations[j].id != id
  {
    i := 0;
    if activations[0].id != id {
      var k := FirstNamed(activations[1..], id);
      i := k + 1;
    }
  }

  /** No activation means none is named and none lists the QSO. */
  lemma NoneChosen(activations: seq<Activation>, q: Qso)
    requires forall i: nat :: !NamedAt(activations, q, i)
    requires forall i :: 0 <= i < |activations| ==> q.id !in activations[i].linkedQsos
    ensures ChooseActivation(Some(activations), q).None?
  {
    NamedIfFound(activations, q);
    NoneLinked(activations, q.id);
    hide UuidText.ParseUuid;
  }

  /** What stands under MY_SIG and MY_SIG_INFO: a text of the QSO's own, or else the
      activation's type in capitals and its park, or its summit if it has no park. An
      empty text prints nothing and keeps the activation's from being used. */
  lemma OwnSigsExactly(fl: Rounding, q: Qso, a: Option<Activation>)
    ensures Printed(fl, q, a, MySig) ==
      if q.payload.GetStr("my_sig").Some? then Filled(q.payload.GetStr("my_sig"))
      else if a.Some? && a.value.payload.GetStr("activation_type").Some? then Filled(Some(Upper(a.value.payload.GetStr("activation_type").value)))
      else None
    ensures Printed(fl, q, a, MySigInfo) ==
      if q.payload.GetStr("my_sig_info").Some? then Filled(q.payload.GetStr("my_sig_info"))
      else if a.None? then None
      else if a.value.payload.Get("park_id").Some? then Filled(a.value.payload.GetStr("park_id"))
      else Filled(a.value.payload.GetStr("summit_id"))
  {
    hide Upper;
  }

  /** A text that is not empty. */
  function Filled(s: Option<string>): Option<string> {
    if s == Some("") then None else s
  }

  /** The name of each plain text tag and the payload key it is printed from. */
  function TextSource(t: Tag): Option<(string, string)> {
    match t
    case Call => Some(("CALL", "contacted_callsign"))
    case StationCallsign => Some(("STATION_CALLSIGN", "station_callsign"))
    case Operator => Some(("OPERATOR", "operator_callsign"))
    case Band => Some(("BAND", "band"))
    case Mode => Some(("MODE", "mode"))
    case Submode => Some(("SUBMODE", "submode"))
    case RstSent => Some(("RST_SENT", "rst_sent"))
    case RstRcvd => Some(("RST_RCVD", "rst_received"))
    case GridSquare => Some(("GRIDSQUARE", "grid"))
    case Name => Some(("NAME", "name"))
    case Qth => Some(("QTH", "qth"))
    case Comment => Some(("COMMENT", "notes"))
    case Sig => Some(("SIG", "contacted_sig"))
    case SigInfo => Some(("SIG_INFO", "contacted_sig_info"))
    case _ => None
  }

  lemma TextNamed(t: Tag)
    requires TextSource(t).Some?
    ensures TagName(t) == TextSource(t).value.0 && TextKey(t).Some? && KeyName(TextKey(t).value) == TextSource(t).value.1
  {
  }

  lemma TextTagsExactly(fl: Rounding, q: Qso, a: Option<Activation>, t: Tag)
    requires TextSource(t).Some?
    ensures TagName(t) == TextSource(t).value.0 && Printed(fl, q, a, t) == Filled(q.payload.GetStr(TextSource(t).value.1))
  {
    TextNamed(t);
    assert Printed(fl, q, a, t) == NonEmptyText(q.payload.Get(KeyName(TextKey(t).value)));
    hide Printed, TextSource, TagName, KeyName, TextKey;
  }
}
