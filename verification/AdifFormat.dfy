/** The ADIF scanner and the field printer (crates/ham-core/src/adif.rs;
    ADIF 3.1.4, section IV.A). */
module AdifFormat {
  import opened Basics
  import opened Text

  type Record = map<string, string>

  /** The declared length of a data specifier: the text up to the next colon,
      0 when it is not a number. */
  function TagLength(lengthPart: string): nat {
    var first := match Find(lengthPart, ':') case Some(i) => lengthPart[..i] case None => lengthPart;
    match ParseUsize(first)
    case Some(n) => n
    case None => 0
  }

  function Flush(current: Record): seq<Record> {
    if current == map[] then [] else [current]
  }

  datatype TagKind = Ignored | EndOfRecord | Data(name: string, length: nat)

  /** A tag's meaning: <EOH> and tags without a colon are passed over. */
  function Classify(tag: string): TagKind {
    if Lower(tag) == "eoh" then Ignored
    else if Lower(tag) == "eor" then EndOfRecord
    else
      match SplitOnce(tag, ':')
      case None => Ignored
      case Some((field, lengthPart)) => Data(Upper(field), TagLength(lengthPart))
  }

  /** What a tag does to the record being gathered: end the scan, or hand over
      finished records and continue after `skip` bytes of value. */
  datatype Effect = Stop | Go(finished: seq<Record>, current: Record, skip: nat)

  function TagEffect(tag: string, rest: string, current: Record): (e: Effect)
    ensures e.Go? ==> e.skip <= |rest|
  {
    match Classify(tag)
    case Ignored => Go([], current, 0)
    case EndOfRecord => Go(Flush(current), map[], 0)
    case Data(name, n) => if n > |rest| then Stop else Go([], current[name := rest[..n]], n)
  }

  /** What the scanner makes of the remaining text, with the fields gathered since
      the last record. <EOH> does not clear them. */
  function ParseRest(text: string, current: Record): seq<Record>
    decreases |text|
  {
    if text == "" then Flush(current)
    else if text[0] != '<' then ParseRest(text[1..], current)
    else
      match Find(text, '>')
      case None => Flush(current)
      case Some(end) =>
        var rest := text[end + 1..];
        match TagEffect(text[1..end], rest, current)
        case Stop => Flush(current)
        case Go(finished, next, skip) => finished + ParseRest(rest[skip..], next)
  }

  lemma AtTag(text: string, current: Record, end: nat)
    requires text != "" && text[0] == '<' && Find(text, '>') == Some(end)
    ensures var e := TagEffect(text[1..end], text[end + 1..], current);
      ParseRest(text, current) ==
      if e.Stop? then Flush(current) else e.finished + ParseRest(text[end + 1..][e.skip..], e.current)
  {
  }

  /** The scan with the finished records carried along. */
  ghost function ParseOnto(done: seq<Record>, text: string, current: Record): seq<Record>
    decreases |text|
  {
    if text == "" then done + Flush(current)
    else if text[0] != '<' then ParseOnto(done, text[1..], current)
    else
      match Find(text, '>')
      case None => done + Flush(current)
      case Some(end) =>
        var rest := text[end + 1..];
        match TagEffect(text[1..end], rest, current)
        case Stop => done + Flush(current)
        case Go(finished, next, skip) => ParseOnto(done + finished, rest[skip..], next)
  }

  lemma OntoAtTag(done: seq<Record>, text: string, current: Record, end: nat)
    requires text != "" && text[0] == '<' && Find(text, '>') == Some(end)
    ensures var e := TagEffect(text[1..end], text[end + 1..], current);
      ParseOnto(done, text, current) ==
      if e.Stop? then done + Flush(current) else ParseOnto(done + e.finished, text[end + 1..][e.skip..], e.current)
  {
  }

  lemma {:induction false} ParseOntoAppends(done: seq<Record>, text: string, current: Record)
    ensures ParseOnto(done, text, current) == done + ParseRest(text, current)
    decreases |text|
  {
    hide TagEffect, Find, Flush;
    if text != "" {
      if text[0] != '<' {
        ParseOntoAppends(done, text[1..], current);
      } else if Find(text, '>').Some? {
        var end := Find(text, '>').value;
        var rest := text[end + 1..];
        var e := TagEffect(text[1..end], rest, current);
        if e.Go? {
          ParseOntoAppends(done + e.finished, rest[e.skip..], e.current);
          AtTag(text, current, end);
          OntoAtTag(done, text, current, end);
        }
      }
    }
  }

  /** The part of the loop after a tag has been read. */
  method TakeTag(input: string, tag: string, index: nat, records: seq<Record>, current: Record)
    returns (stop: bool, records': seq<Record>, current': Record, index': nat)
    requires index <= |input|
    ensures match TagEffect(tag, input[index..], current)
      case Stop => stop && records' == records && current' == current
      case Go(finished, next, skip) =>
        !stop && records' == records + finished && current' == next && index' == index + skip
  {
    stop, records', current', index' := false, records, current, index;
    match Classify(tag) {
      case Ignored =>
      case EndOfRecord =>
        if current != map[] {
          records' := records + [current];
          current' := map[];
        }
      case Data(name, length) =>
        if index + length > |input| {
          stop := true;
        } else {
          SliceOfSuffix(input, index, 0, length);
          current' := current[name := input[index..index + length]];
          index' := index + length;
        }
    }
  }

  /** What is left to do at an index gives the result of the whole scan. */
  ghost predicate Scanning(input: string, index: nat, records: seq<Record>, current: Record) {
    index <= |input| && ParseRest(input, map[]) == ParseOnto(records, input[index..], current)
  }

  lemma ScanStart(input: string)
    ensures Scanning(input, 0, [], map[])
  {
    ParseOntoAppends([], input, map[]);
    assert input[0..] == input;
  }

  lemma ScanPlain(input: string, index: nat, records: seq<Record>, current: Record)
    requires Scanning(input, index, records, current) && index < |input| && input[index] != '<'
    ensures Scanning(input, index + 1, records, current)
  {
    SliceOfSuffix(input, index, 0, 1);
  }

  lemma ScanEnd(input: string, index: nat, records: seq<Record>, current: Record)
    requires Scanning(input, index, records, current)
    requires index < |input| ==> input[index] == '<' && Find(input[index..], '>').None?
    ensures ParseRest(input, map[]) == records + Flush(current)
  {
  }

  lemma ScanTag(input: string, index: nat, records: seq<Record>, current: Record, end: nat)
    requires Scanning(input, index, records, current) && index < |input| && input[index] == '<'
    requires Find(input[index..], '>') == Some(end)
    ensures var e := TagEffect(input[index + 1..index + end], input[index + end + 1..], current);
      if e.Stop? then ParseRest(input, map[]) == records + Flush(current)
      else Scanning(input, index + end + 1 + e.skip, records + e.finished, e.current)
  {
    hide ParseRest, ParseOnto, TagEffect, Flush, Find;
    var rest := input[index + end + 1..];
    SliceOfSuffix(input, index, 1, end);
    SliceOfSuffix(input, index, 1, end + 1);
    OntoAtTag(records, input[index..], current, end);
    var e := TagEffect(input[index + 1..index + end], rest, current);
    if e.Go? {
      assert rest[e.skip..] == input[index + end + 1 + e.skip..] by {
        SliceOfSuffix(input, index + end + 1, 0, e.skip);
      }
    }
  }

  /** parse_adif: one pass with an index into the text. */
  method ParseAdif(input: string) returns (records: seq<Record>)
    ensures records == ParseRest(input, map[])
  {
    hide *;
    records := [];
    var current: Record := map[];
    var index := 0;
    ScanStart(input);
    while index < |input|
      invariant index <= |input|
      invariant Scanning(input, index, records, current)
    {
      if input[index] != '<' {
        ScanPlain(input, index, records, current);
        index := index + 1;
        continue;
      }
      var found := Find(input[index..], '>');
      if found.None? {
        break;
      }
      ScanTag(input, index, records, current, found.value);
      var tag := input[index + 1..index + found.value];
      index := index + found.value + 1;
      var stop, records', current', index' := TakeTag(input, tag, index, records, current);
      if stop {
        return records + Flush(current);
      }
      records, current, index := records', current', index';
    }
    ScanEnd(input, index, records, current);
    return records + Flush(current);
  }

  // ----- printing -----

  datatype Field = Field(name: string, value: string)

  /** <NAME:len>value, with the length in bytes. */
  function PrintField(f: Field): string {
    "<" + f.name + ":" + ShowNat(|f.value|) + ">" + f.value
  }

  function PrintFields(fields: seq<Field>): string {
    if fields == [] then "" else PrintField(fields[0]) + PrintFields(fields[1..])
  }

  lemma {:induction false} PrintFieldsConcat(a: seq<Field>, b: seq<Field>)
    ensures PrintFields(a + b) == PrintFields(a) + PrintFields(b)
  {
    if a == [] {
      assert a + b == b;
    } else {
      assert (a + b)[1..] == a[1..] + b;
      PrintFieldsConcat(a[1..], b);
    }
  }

  /** Fields in a record, later ones replacing earlier ones of the same name. */
  function AsRecord(fields: seq<Field>, start: Record): Record {
    if fields == [] then start
    else AsRecord(fields[1..], start[fields[0].name := fields[0].value])
  }

  /** A field the exporter can print: an upper-case tag name without delimiters,
      and a value no longer than memory can hold. */
  ghost predicate Printable(f: Field) {
    Upper(f.name) == f.name && !Contains(f.name, ':') && !Contains(f.name, '>') && |f.value| <= USIZE_MAX
  }

  lemma TagOf(f: Field, rest: string)
    requires Printable(f)
    ensures var text := PrintField(f) + rest;
      var tag := f.name + ":" + ShowNat(|f.value|);
      text[0] == '<' && Find(text, '>') == Some(|tag| + 1) && text[1..|tag| + 1] == tag && text[|tag| + 2..] == f.value + rest
  {
    var digits := ShowNat(|f.value|);
    var tag := f.name + ":" + digits;
    var open := "<" + tag;
    assert forall i :: 0 <= i < |digits| ==> digits[i] != '>';
    assert forall i :: 0 <= i < |f.name| ==> f.name[i] != '>';
    assert !Contains(open, '>');
    var text := PrintField(f) + rest;
    assert text == open + ['>'] + (f.value + rest);
    FindIn(open, '>', f.value + rest);
    assert text[|open| + 1..] == f.value + rest;
  }

  /** A tag holding a colon is never <EOH> or <EOR>, whatever its case. */
  lemma ColonTag(tag: string, i: nat)
    requires i < |tag| && tag[i] == ':'
    ensures Lower(tag) != "eoh" && Lower(tag) != "eor"
  {
    assert Lower(tag)[i] == ':';
    assert ':' !in "eoh" && ':' !in "eor";
  }

  lemma DigitsHaveNoColon(digits: string)
    requires AllDigits(digits)
    ensures Find(digits, ':').None?
  {
    assert forall i :: 0 <= i < |digits| ==> digits[i] != ':';
  }

  lemma FieldTag(f: Field)
    requires Printable(f)
    ensures Classify(f.name + ":" + ShowNat(|f.value|)) == Data(f.name, |f.value|)
  {
    var digits := ShowNat(|f.value|);
    var tag := f.name + ":" + digits;
    ColonTag(tag, |f.name|);
    assert tag == f.name + [':'] + digits;
    SplitOnceIn(f.name, ':', digits);
    DigitsHaveNoColon(digits);
    ParseShown(|f.value|);
  }

  lemma DataStep(text: string, current: Record, end: nat, f: Field, rest: string)
    requires text != "" && text[0] == '<' && Find(text, '>') == Some(end)
    requires Classify(text[1..end]) == Data(f.name, |f.value|) && text[end + 1..] == f.value + rest
    ensures ParseRest(text, current) == ParseRest(rest, current[f.name := f.value])
  {
    hide ParseRest, Find, Classify;
    AtTag(text, current, end);
    ConcatSlices(f.value, rest);
  }

  /** Scanning one printed field consumes exactly it, whatever its value holds. */
  lemma FieldStep(f: Field, rest: string, current: Record)
    requires Printable(f)
    ensures ParseRest(PrintField(f) + rest, current) == ParseRest(rest, current[f.name := f.value])
  {
    hide *;
    TagOf(f, rest);
    FieldTag(f);
    DataStep(PrintField(f) + rest, current, |f.name + ":" + ShowNat(|f.value|)| + 1, f, rest);
  }

  lemma {:induction false} FieldsStep(fields: seq<Field>, rest: string, current: Record)
    requires forall i :: 0 <= i < |fields| ==> Printable(fields[i])
    ensures ParseRest(PrintFields(fields) + rest, current) == ParseRest(rest, AsRecord(fields, current))
  {
    if fields == [] {
      assert PrintFields(fields) + rest == rest;
    } else {
      assert PrintFields(fields) + rest == PrintField(fields[0]) + (PrintFields(fields[1..]) + rest);
      FieldStep(fields[0], PrintFields(fields[1..]) + rest, current);
      FieldsStep(fields[1..], rest, current[fields[0].name := fields[0].value]);
    }
  }

  /** Text before the first tag is skipped. */
  lemma {:induction false} PlainStep(plain: string, rest: string, current: Record)
    requires !Contains(plain, '<')
    ensures ParseRest(plain + rest, current) == ParseRest(rest, current)
  {
    if plain == "" {
      assert plain + rest == rest;
    } else {
      assert (plain + rest)[0] == plain[0] != '<';
      assert (plain + rest)[1..] == plain[1..] + rest;
      assert !Contains(plain[1..], '<') by {
        assert forall i :: 0 <= i < |plain[1..]| ==> plain[1..][i] == plain[i + 1];
      }
      PlainStep(plain[1..], rest, current);
    }
  }

  /** A tag that consumes no value, followed by a newline. */
  lemma TagStep(tag: string, rest: string, current: Record, finished: seq<Record>, next: Record)
    requires !Contains(tag, '>') && TagEffect(tag, "\n" + rest, current) == Go(finished, next, 0)
    ensures ParseRest("<" + tag + ">\n" + rest, current) == finished + ParseRest(rest, next)
  {
    var open := "<" + tag;
    var text := "<" + tag + ">\n" + rest;
    assert forall i :: 0 <= i < |tag| ==> tag[i] != '>';
    assert text == open + ['>'] + ("\n" + rest);
    FindIn(open, '>', "\n" + rest);
    assert text[1..|open|] == tag && text[|open| + 1..] == "\n" + rest;
    hide ParseRest, Find, TagEffect;
    AtTag(text, current, |open|);
    PlainStep("\n", rest, next);
    assert ("\n" + rest)[0..] == "\n" + rest;
  }

  lemma MarkerTags()
    ensures Classify("EOR") == EndOfRecord && Classify("EOH") == Ignored
    ensures !Contains("EOR", '>') && !Contains("EOH", '>')
  {
    assert Lower("EOR") == "eor" && Lower("EOH") == "eoh";
  }

  lemma EorStep(rest: string, current: Record)
    ensures ParseRest("<EOR>\n" + rest, current) == Flush(current) + ParseRest(rest, map[])
  {
    MarkerTags();
    hide ParseRest, Classify;
    TagStep("EOR", rest, current, Flush(current), map[]);
    assert "<" + "EOR" + ">\n" + rest == "<EOR>\n" + rest;
  }

  lemma EohStep(rest: string, current: Record)
    ensures ParseRest("<EOH>\n" + rest, current) == ParseRest(rest, current)
  {
    MarkerTags();
    hide ParseRest, Classify;
    TagStep("EOH", rest, current, [], current);
    assert "<" + "EOH" + ">\n" + rest == "<EOH>\n" + rest;
  }

  // ----- whole files -----

  const VERSION_FIELD := Field("ADIF_VER", "3.1.4")

  /** The body of an export: each record's fields, then <EOR> and a newline. */
  function PrintRecords(records: seq<seq<Field>>): string {
    if records == [] then "" else PrintFields(records[0]) + "<EOR>\n" + PrintRecords(records[1..])
  }

  function PrintFile(preamble: string, records: seq<seq<Field>>): string {
    preamble + PrintField(VERSION_FIELD) + "\n<EOH>\n" + PrintRecords(records)
  }

  /** The records that printed something. */
  function NonEmpty(records: seq<seq<Field>>): seq<Record> {
    if records == [] then [] else Flush(AsRecord(records[0], map[])) + NonEmpty(records[1..])
  }

  ghost predicate AllPrintable(records: seq<seq<Field>>) {
    forall i, j :: 0 <= i < |records| && 0 <= j < |records[i]| ==> Printable(records[i][j])
  }

  lemma RecordStep(record: seq<Field>, tail: string, start: Record)
    requires forall i :: 0 <= i < |record| ==> Printable(record[i])
    ensures ParseRest(PrintFields(record) + "<EOR>\n" + tail, start) == Flush(AsRecord(record, start)) + ParseRest(tail, map[])
  {
    assert PrintFields(record) + "<EOR>\n" + tail == PrintFields(record) + ("<EOR>\n" + tail);
    FieldsStep(record, "<EOR>\n" + tail, start);
    EorStep(tail, AsRecord(record, start));
  }

  lemma {:induction false} RecordsStep(records: seq<seq<Field>>)
    requires AllPrintable(records)
    ensures ParseRest(PrintRecords(records), map[]) == NonEmpty(records)
  {
    if records != [] {
      RecordStep(records[0], PrintRecords(records[1..]), map[]);
      RecordsStep(records[1..]);
    }
  }

  lemma HeaderStep(preamble: string, body: string)
    requires !Contains(preamble, '<')
    ensures ParseRest(preamble + PrintField(VERSION_FIELD) + "\n<EOH>\n" + body, map[]) ==
      ParseRest(body, map[VERSION_FIELD.name := VERSION_FIELD.value])
  {
    var version: Record := map[VERSION_FIELD.name := VERSION_FIELD.value];
    var rest := "<EOH>\n" + body;
    var header := "\n" + rest;
    var version' := map[][VERSION_FIELD.name := VERSION_FIELD.value];
    assert preamble + PrintField(VERSION_FIELD) + "\n<EOH>\n" + body == preamble + (PrintField(VERSION_FIELD) + header);
    assert version' == version && !Contains("\n", '<');
    hide *;
    PlainStep(preamble, PrintField(VERSION_FIELD) + header, map[]);
    VersionPrintable();
    FieldStep(VERSION_FIELD, header, map[]);
    PlainStep("\n", rest, version);
    EohStep(body, version);
  }

  /** Parsing an exported file returns the printed fields of every exported record
      that printed any, with every value intact even when it holds '<', '>' or
      "<EOR>". The version field of the header stays in the first record, so that
      record is there even if its QSO printed nothing, and an empty export parses
      to the version alone. */
  lemma FileRoundTrip(preamble: string, records: seq<seq<Field>>)
    requires !Contains(preamble, '<') && AllPrintable(records)
    ensures ParseRest(PrintFile(preamble, records), map[]) ==
      var version := map[VERSION_FIELD.name := VERSION_FIELD.value];
      if records == [] then [version]
      else [AsRecord(records[0], version)] + NonEmpty(records[1..])
  {
    var version: Record := map[VERSION_FIELD.name := VERSION_FIELD.value];
    HeaderStep(preamble, PrintRecords(records));
    assert VERSION_FIELD.name in version;
    if records != [] {
      RecordStep(records[0], PrintRecords(records[1..]), version);
      RecordsStep(records[1..]);
      AsRecordKeeps(records[0], version);
    }
  }

  lemma VersionPrintable()
    ensures Printable(VERSION_FIELD)
  {
    assert Upper("ADIF_VER") == "ADIF_VER";
  }

  lemma {:induction false} AsRecordKeeps(fields: seq<Field>, start: Record)
    ensures AsRecord(fields, start).Keys == start.Keys + set i | 0 <= i < |fields| :: fields[i].name
  {
    if fields != [] {
      AsRecordKeeps(fields[1..], start[fields[0].name := fields[0].value]);
      assert (set i | 0 <= i < |fields| :: fields[i].name) ==
        {fields[0].name} + set i | 0 <= i < |fields[1..]| :: fields[1..][i].name by {
        assert forall i :: 0 < i < |fields| ==> fields[i] == fields[1..][i - 1];
      }
    }
  }

  // ----- files other programs write -----

  /** What may stand behind the length: nothing, or a colon and a type. */
  predicate TypePart(s: string) {
    (s == "" || s[0] == ':') && !Contains(s, '>')
  }

  lemma LengthBeforeType(digits: string, suffix: string)
    requires AllDigits(digits) && TypePart(suffix)
    ensures TagLength(digits + suffix) == match ParseUsize(digits) case Some(n) => n case None => 0
  {
    DigitsHaveNoColon(digits);
    if suffix == "" {
      assert digits + suffix == digits;
    } else {
      assert digits + suffix == digits + [':'] + suffix[1..];
      FindIn(digits, ':', suffix[1..]);
      assert (digits + suffix)[..|digits|] == digits;
    }
  }

  /** A tag name in any case, a length in decimal and possibly a type give a field of
      that length under the name in capitals. */
  lemma TypedTag(name: string, n: nat, suffix: string)
    requires !Contains(name, ':') && TypePart(suffix) && n <= USIZE_MAX
    ensures Classify(name + ":" + ShowNat(n) + suffix) == Data(Upper(name), n)
  {
    var tail := ShowNat(n) + suffix;
    var tag := name + ":" + ShowNat(n) + suffix;
    assert tag == name + [':'] + tail;
    ColonTag(tag, |name|);
    SplitOnceIn(name, ':', tail);
    ParseShown(n);
    LengthBeforeType(ShowNat(n), suffix);
    hide TagLength, ParseUsize, Lower, Upper;
  }

  /** The scanner takes exactly the declared bytes of such a field, whatever they are;
      a later field of the same name replaces an earlier one. */
  lemma ForeignField(name: string, suffix: string, value: string, rest: string, current: Record)
    requires !Contains(name, ':') && !Contains(name, '>') && TypePart(suffix) && |value| <= USIZE_MAX
    ensures ParseRest("<" + (name + ":" + ShowNat(|value|) + suffix) + ">" + value + rest, current) ==
      ParseRest(rest, current[Upper(name) := value])
  {
    hide *;
    var tag := name + ":" + ShowNat(|value|) + suffix;
    TypedTag(name, |value|, suffix);
    NoGreater(name, ShowNat(|value|), suffix);
    var open := "<" + tag;
    var text := open + ['>'] + (value + rest);
    assert "<" + tag + ">" + value + rest == text;
    FindIn(open, '>', value + rest);
    assert text[1..|open|] == tag && text[|open| + 1..] == value + rest;
    DataStep(text, current, |open|, Field(Upper(name), value), rest);
  }

  lemma NoGreater(name: string, digits: string, suffix: string)
    requires !Contains(name, '>') && AllDigits(digits) && TypePart(suffix)
    ensures !Contains("<" + (name + ":" + digits + suffix), '>')
  {
    var tag := name + ":" + digits + suffix;
    forall i | 0 <= i < |"<" + tag| ensures ("<" + tag)[i] != '>' {
      if 1 <= i <= |name| {
        assert ("<" + tag)[i] == name[i - 1];
      } else if |name| + 1 < i <= |name| + 1 + |digits| {
        assert ("<" + tag)[i] == digits[i - |name| - 2];
      } else if i > |name| + 1 + |digits| {
        assert ("<" + tag)[i] == suffix[i - |name| - 2 - |digits|];
      }
    }
  }

  /** The record marker in any case ends a record, and the header marker changes
      nothing. */
  lemma ForeignMarker(marker: string, rest: string, current: Record)
    ensures EqIgnoreCase(marker, "eor") ==> ParseRest("<" + marker + ">" + rest, current) == Flush(current) + ParseRest(rest, map[])
    ensures EqIgnoreCase(marker, "eoh") ==> ParseRest("<" + marker + ">" + rest, current) == ParseRest(rest, current)
  {
    assert Lower("eor") == "eor" && Lower("eoh") == "eoh";
    if Lower(marker) == "eor" || Lower(marker) == "eoh" {
      forall i | 0 <= i < |marker| ensures marker[i] != '>' {
        assert Lower(marker)[i] != '>';
      }
      assert !Contains(marker, '>');
      var open := "<" + marker;
      var text := open + ">" + rest;
      assert text == open + ['>'] + rest;
      FindIn(open, '>', rest);
      assert text[1..|open|] == marker && text[|open| + 1..] == rest;
      AtTag(text, current, |open|);
      hide ParseRest, Flush, Find;
      assert rest[0..] == rest;
      if Lower(marker) == "eoh" {
        assert [] + ParseRest(rest, current) == ParseRest(rest, current);
      }
    }
  }
}
