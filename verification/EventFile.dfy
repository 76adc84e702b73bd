/** The bytes of the official event file (crates/ham-core/src/store.rs:134-173): one
    line of JSON for each event, written piece by piece, so that a stop can leave any
    beginning of what was to be written. */
module EventFile {
  import opened Basics
  import opened Text
  import opened Event
  import opened StoreSpec

  /** serde_json::to_writer and serde_json::from_str on events. */
  datatype Codec = Codec(text: Envelope -> string, parse: string -> Option<Envelope>)

  /** An event's text is one line that starts with a brace and parses to the event. */
  ghost predicate Readable(c: Codec, e: Envelope) {
    var t := c.text(e);
    t != "" && !IsSpace(t[0]) && !Contains(t, '\n') && !Contains(t, '\r') && c.parse(t) == Some(e)
  }

  /** No proper part from the beginning of an event's text parses. */
  ghost predicate PartUnreadable(c: Codec, e: Envelope, n: nat) {
    0 < n < |c.text(e)| ==> c.parse(c.text(e)[..n]).None?
  }

  /** Nor does an event's text followed by more than white space. */
  ghost predicate JoinUnreadable(c: Codec, e: Envelope, f: Envelope, n: nat) {
    0 < n <= |c.text(f)| ==> c.parse(c.text(e) + c.text(f)[..n]).None?
  }

  /** What JSON objects on one line guarantee. */
  ghost predicate Faithful(c: Codec) {
    && (forall e {:trigger Readable(c, e)} :: Readable(c, e))
    && (forall e, n: nat {:trigger PartUnreadable(c, e, n)} :: PartUnreadable(c, e, n))
    && (forall e, f, n: nat {:trigger JoinUnreadable(c, e, f, n)} :: JoinUnreadable(c, e, f, n))
  }

  // ----- reading -----

  function WithoutReturn(line: string): string {
    if line != "" && line[|line| - 1] == '\r' then line[..|line| - 1] else line
  }

  /** BufRead::lines: the last line counts even without a newline behind it. */
  function Lines(text: string): seq<string>
    decreases |text|
  {
    if text == "" then []
    else
      match Find(text, '\n')
      case None => [text]
      case Some(i) => [WithoutReturn(text[..i])] + Lines(text[i + 1..])
  }

  /** The events of the lines, blank ones passed over; None for the error raised by a
      line that does not parse. */
  function EventsIn(c: Codec, lines: seq<string>): Option<seq<Envelope>> {
    if lines == [] then Some([])
    else
      var before, last := EventsIn(c, lines[..|lines| - 1]), lines[|lines| - 1];
      if before.None? || Blank(last) then before
      else if c.parse(last).None? then None
      else Some(before.value + [c.parse(last).value])
  }

  function Contents(c: Codec, text: string): Option<seq<Envelope>> {
    EventsIn(c, Lines(text))
  }

  /** load_inner_from_disk. */
  function Load(c: Codec, text: string): Option<StoreState> {
    match Contents(c, text)
    case None => None
    case Some(events) => Some(Replay(events))
  }

  /** The file is empty or its last line has its newline. */
  predicate Ended(text: string) {
    text == "" || text[|text| - 1] == '\n'
  }

  lemma LinesStep(line: string, rest: string)
    requires !Contains(line, '\n')
    ensures Lines(line + ['\n'] + rest) == [WithoutReturn(line)] + Lines(rest)
  {
    var text := line + ['\n'] + rest;
    FindIn(line, '\n', rest);
    assert text[..|line|] == line && text[|line| + 1..] == rest;
  }

  lemma {:induction false} LinesConcat(a: string, b: string)
    requires Ended(a)
    ensures Lines(a + b) == Lines(a) + Lines(b)
    decreases |a|
  {
    if a == "" {
      assert a + b == b;
    } else {
      assert Contains(a, '\n');
      var i := Find(a, '\n').value;
      var line, rest := a[..i], a[i + 1..];
      assert a == line + ['\n'] + rest && a + b == line + ['\n'] + (rest + b);
      assert Ended(rest);
      hide *;
      assert !Contains(line, '\n') by {
        NotBefore(a, '\n');
      }
      LinesStep(line, rest);
      LinesStep(line, rest + b);
      LinesConcat(rest, b);
      ConcatAssociates([WithoutReturn(line)], Lines(rest), Lines(b));
    }
  }

  lemma NotBefore(s: string, c: char)
    requires Find(s, c).Some?
    ensures !Contains(s[..Find(s, c).value], c)
  {
  }

  lemma {:induction false} EventsConcat(c: Codec, a: seq<string>, b: seq<string>)
    ensures EventsIn(c, a + b) ==
      var x, y := EventsIn(c, a), EventsIn(c, b); if x.None? || y.None? then None else Some(x.value + y.value)
  {
    hide Blank;
    if b == [] {
      assert a + b == a && EventsIn(c, b) == Some([]);
      assert EventsIn(c, a).Some? ==> EventsIn(c, a).value + [] == EventsIn(c, a).value;
    } else {
      var n := |b| - 1;
      assert (a + b)[..|a + b| - 1] == a + b[..n] && (a + b)[|a + b| - 1] == b[n];
      EventsConcat(c, a, b[..n]);
      var x, y := EventsIn(c, a), EventsIn(c, b[..n]);
      if x.Some? && y.Some? && c.parse(b[n]).Some? {
        ConcatAssociates(x.value, y.value, [c.parse(b[n]).value]);
      }
    }
  }

  /** What is written after an ended file is read by itself. */
  lemma ReadAfter(c: Codec, a: string, b: string)
    requires Ended(a)
    ensures Contents(c, a + b) ==
      var x, y := Contents(c, a), Contents(c, b); if x.None? || y.None? then None else Some(x.value + y.value)
  {
    LinesConcat(a, b);
    EventsConcat(c, Lines(a), Lines(b));
  }

  lemma OneLine(c: Codec, line: string)
    requires line != "" && !Contains(line, '\n') && !Contains(line, '\r') && !IsSpace(line[0])
    ensures var read := if c.parse(line).None? then None else Some([c.parse(line).value]);
      Contents(c, line) == read && Contents(c, line + "\n") == read
  {
    NotBlank(line);
    hide Blank;
    var read := if c.parse(line).None? then None else Some([c.parse(line).value]);
    LinesStep(line, "");
    assert line + ['\n'] + "" == line + "\n" && WithoutReturn(line) == line;
    assert Lines(line) == [line] && Lines(line + "\n") == [line];
    var lines := [line];
    assert lines[..|lines| - 1] == [] && lines[|lines| - 1] == line && EventsIn(c, []) == Some([]);
    assert c.parse(line).Some? ==> [] + [c.parse(line).value] == [c.parse(line).value];
  }

  // ----- writing -----

  /** What persist_event writes. */
  function LineOf(c: Codec, e: Envelope): string {
    c.text(e) + "\n"
  }

  function FileText(c: Codec, events: seq<Envelope>): string {
    if events == [] then "" else FileText(c, events[..|events| - 1]) + LineOf(c, events[|events| - 1])
  }

  /** How a file ends: with its last newline, with a proper part of an event's text, or
      with a whole text that lacks its newline. */
  datatype Tail = Terminated | Part(event: Envelope, length: nat) | Unended(event: Envelope)

  predicate TailOk(c: Codec, t: Tail) {
    t.Part? ==> 0 < t.length < |c.text(t.event)|
  }

  function TailText(c: Codec, t: Tail): string
    requires TailOk(c, t)
  {
    match t
    case Terminated => ""
    case Part(e, length) => c.text(e)[..length]
    case Unended(e) => c.text(e)
  }

  function TailEvents(t: Tail): seq<Envelope> {
    if t.Unended? then [t.event] else []
  }

  function Written(c: Codec, events: seq<Envelope>, t: Tail): string
    requires TailOk(c, t)
  {
    FileText(c, events) + TailText(c, t)
  }

  lemma FileTextEnded(c: Codec, events: seq<Envelope>)
    ensures Ended(FileText(c, events))
  {
  }

  lemma WholeLine(c: Codec, e: Envelope)
    requires Faithful(c)
    ensures Contents(c, c.text(e)) == Contents(c, LineOf(c, e)) == Some([e])
  {
    assert Readable(c, e);
    hide Contents, Faithful;
    OneLine(c, c.text(e));
  }

  lemma NothingRead(c: Codec)
    ensures Contents(c, "") == Some([])
  {
  }

  lemma {:induction false} FileTextReads(c: Codec, events: seq<Envelope>)
    requires Faithful(c)
    ensures Contents(c, FileText(c, events)) == Some(events)
  {
    hide Contents, Faithful, LineOf;
    if events == [] {
      NothingRead(c);
    } else {
      var n := |events| - 1;
      FileTextReads(c, events[..n]);
      FileTextEnded(c, events[..n]);
      WholeLine(c, events[n]);
      ReadAfter(c, FileText(c, events[..n]), LineOf(c, events[n]));
      assert events == events[..n] + [events[n]];
    }
  }

  lemma TailReads(c: Codec, t: Tail)
    requires Faithful(c) && TailOk(c, t)
    ensures Contents(c, TailText(c, t)) == if t.Part? then None else Some(TailEvents(t))
  {
    match t {
      case Terminated => NothingRead(c);
      case Part(e, length) =>
        assert Readable(c, e) && PartUnreadable(c, e, length);
        var part := c.text(e)[..length];
        assert forall i :: 0 <= i < |part| ==> part[i] == c.text(e)[i];
        OneLine(c, part);
      case Unended(e) => WholeLine(c, e);
    }
  }

  /** A file opens exactly when it does not end with a proper part of an event, and
      then with exactly its events; a last one without its newline counts. */
  lemma OpensIff(c: Codec, events: seq<Envelope>, t: Tail)
    requires Faithful(c) && TailOk(c, t)
    ensures Contents(c, Written(c, events, t)) == if t.Part? then None else Some(events + TailEvents(t))
  {
    FileTextReads(c, events);
    FileTextEnded(c, events);
    TailReads(c, t);
    ReadAfter(c, FileText(c, events), TailText(c, t));
  }

  // ----- a stop after any byte -----

  lemma {:induction false} FileTextPrefix(c: Codec, events: seq<Envelope>, k: nat)
    requires k <= |events|
    ensures |FileText(c, events[..k])| <= |FileText(c, events)|
    ensures FileText(c, events)[..|FileText(c, events[..k])|] == FileText(c, events[..k])
  {
    if k == |events| {
      assert events[..k] == events;
    } else {
      var n := |events| - 1;
      FileTextPrefix(c, events[..n], k);
      assert events[..n][..k] == events[..k];
    }
  }

  /** Every beginning of a file is some of its lines and a tail that begins the next. */
  lemma {:induction false} StopPlace(c: Codec, events: seq<Envelope>, bytes: nat) returns (k: nat, t: Tail)
    requires bytes <= |FileText(c, events)|
    ensures k <= |events| && TailOk(c, t) && FileText(c, events)[..bytes] == Written(c, events[..k], t)
    ensures !t.Terminated? ==> k < |events| && t.event == events[k]
  {
    if events == [] {
      k, t := 0, Terminated;
    } else {
      var n := |events| - 1;
      var before, e := FileText(c, events[..n]), events[n];
      if bytes <= |before| {
        k, t := StopPlace(c, events[..n], bytes);
        assert events[..n][..k] == events[..k];
        assert FileText(c, events)[..bytes] == before[..bytes];
      } else {
        var m := bytes - |before|;
        assert FileText(c, events)[..bytes] == before + LineOf(c, e)[..m];
        if m == |LineOf(c, e)| {
          k, t := |events|, Terminated;
          assert events[..k] == events && LineOf(c, e)[..m] == LineOf(c, e);
        } else {
          k, t := n, if m == |c.text(e)| then Unended(e) else Part(e, m);
          assert LineOf(c, e)[..m] == c.text(e)[..m];
        }
      }
    }
  }

  /** Reopening a file that the machine stopped writing after any byte: it opens
      exactly when the stop was not inside the text of an event, with the events whose
      text is complete, be the newline of the last one written or not; the store is
      then valid, and each of its logs is a prefix of the log the whole file holds. */
  lemma CrashRecovery(h: HashFunction, c: Codec, events: seq<Envelope>, bytes: nat, logbook: Uuid) returns (k: nat, t: Tail)
    requires Faithful(c) && WrittenByStore(h, events) && bytes <= |FileText(c, events)|
    ensures k <= |events| && TailOk(c, t) && FileText(c, events)[..bytes] == Written(c, events[..k], t)
    ensures !t.Terminated? ==> k < |events| && t.event == events[k]
    ensures var found := Load(c, FileText(c, events)[..bytes]);
      && found == (if t.Part? then None else Some(Replay(events[..if t.Unended? then k + 1 else k])))
      && (!t.Part? ==> Valid(h, found.value) && IsPrefix(found.value.Log(logbook), Replay(events).Log(logbook)))
  {
    k, t := StopPlace(c, events, bytes);
    OpensIff(c, events[..k], t);
    if !t.Part? {
      var kept := if t.Unended? then k + 1 else k;
      assert events[..k] + TailEvents(t) == events[..kept];
      hide Valid;
      PrefixReplay(h, events, kept, logbook);
    }
  }

  // ----- runs of appends, stops and reopenings -----

  /** The bytes on disk, and the events in memory while the program runs. */
  datatype Log = Log(text: string, held: Option<seq<Envelope>>)

  /** An append that writes so many bytes of its line before the machine stops, all of
      them if there are no more; or an attempt to open the file. */
  datatype Step = Writing(event: Envelope, bytes: nat) | Reopening

  /** Appends need a running program and an event that its store accepts. */
  ghost predicate Enabled(h: HashFunction, s: Log, step: Step) {
    step.Writing? ==> s.held.Some? && WrittenByStore(h, s.held.value + [step.event])
  }

  function Next(c: Codec, s: Log, step: Step): Log
    requires step.Writing? ==> s.held.Some?
  {
    match step
    case Reopening => Log(s.text, Contents(c, s.text))
    case Writing(e, bytes) =>
      var line := LineOf(c, e);
      if bytes < |line| then Log(s.text + line[..bytes], None) else Log(s.text + line, Some(s.held.value + [e]))
  }

  /** A file of these events, the last one with or without its newline. */
  ghost predicate Holds(c: Codec, text: string, events: seq<Envelope>) {
    text == FileText(c, events) ||
    (events != [] && text == Written(c, events[..|events| - 1], Unended(events[|events| - 1])))
  }

  /** A file that opens holds what it opens with, which the store wrote, and a running
      program has just that in memory. While the program runs on a file that does not
      open, the file is ended. */
  ghost predicate Inv(h: HashFunction, c: Codec, s: Log) {
    && (s.held.Some? ==> WrittenByStore(h, s.held.value))
    && match Contents(c, s.text)
       case None => s.held.Some? ==> Ended(s.text)
       case Some(events) => Holds(c, s.text, events) && WrittenByStore(h, events) && (s.held.Some? ==> s.held.value == events)
  }

  lemma EndedIff(c: Codec, text: string, events: seq<Envelope>)
    requires Faithful(c) && Holds(c, text, events)
    ensures Ended(text) <==> text == FileText(c, events)
  {
    FileTextEnded(c, events);
    if text != FileText(c, events) {
      var last := events[|events| - 1];
      assert Readable(c, last);
      assert text[|text| - 1] == c.text(last)[|c.text(last)| - 1];
    }
  }

  lemma JoinLine(c: Codec, e: Envelope, f: Envelope, n: nat)
    requires Faithful(c) && 0 < n <= |c.text(f)|
    ensures var line := c.text(e) + c.text(f)[..n]; Contents(c, line).None? && Contents(c, line + "\n").None?
  {
    assert Readable(c, e) && Readable(c, f) && JoinUnreadable(c, e, f, n);
    var line := c.text(e) + c.text(f)[..n];
    assert forall i :: 0 <= i < |line| ==> line[i] == if i < |c.text(e)| then c.text(e)[i] else c.text(f)[i - |c.text(e)|];
    hide Contents;
    OneLine(c, line);
  }

  /** Text written behind an event that lacks its newline spoils the file. */
  lemma JoinedLost(c: Codec, before: seq<Envelope>, e: Envelope, f: Envelope, bytes: nat)
    requires Faithful(c) && 0 < bytes <= |LineOf(c, f)|
    ensures Contents(c, Written(c, before, Unended(e)) + LineOf(c, f)[..bytes]).None?
  {
    var whole := bytes == |LineOf(c, f)|;
    var n := if whole then bytes - 1 else bytes;
    var line := c.text(e) + c.text(f)[..n];
    assert Readable(c, f);
    JoinLine(c, e, f, n);
    var file, added := FileText(c, before), if whole then line + "\n" else line;
    FileTextEnded(c, before);
    assert LineOf(c, f)[..bytes] == if whole then c.text(f) + "\n" else c.text(f)[..n];
    assert c.text(f)[..|c.text(f)|] == c.text(f);
    assert Written(c, before, Unended(e)) + LineOf(c, f)[..bytes] == file + added;
    hide *;
    ReadAfter(c, file, added);
  }

  /** What an append of so many bytes makes of the file. */
  function Appended(c: Codec, s: Log, e: Envelope, bytes: nat): Option<seq<Envelope>> {
    match Contents(c, s.text)
    case None => None
    case Some(events) =>
      if bytes == 0 then Some(events)
      else if !Ended(s.text) || bytes < |c.text(e)| then None
      else Some(events + [e])
  }

  lemma AppendReads(h: HashFunction, c: Codec, s: Log, e: Envelope, bytes: nat)
    requires Faithful(c) && Inv(h, c, s) && Enabled(h, s, Writing(e, bytes))
    ensures Contents(c, Next(c, s, Writing(e, bytes)).text) == Appended(c, s, e, bytes)
  {
    var line := LineOf(c, e);
    var n := if bytes < |line| then bytes else |line|;
    assert Next(c, s, Writing(e, bytes)).text == s.text + line[..n];
    if n == 0 {
      assert s.text + line[..n] == s.text;
    } else if Ended(s.text) {
      ReadAfter(c, s.text, line[..n]);
      LineReads(c, e, n);
    } else {
      var events := Contents(c, s.text).value;
      EndedIff(c, s.text, events);
      JoinedLost(c, events[..|events| - 1], events[|events| - 1], e, n);
    }
  }

  lemma LineReads(c: Codec, e: Envelope, bytes: nat)
    requires Faithful(c) && 0 < bytes <= |LineOf(c, e)|
    ensures Contents(c, LineOf(c, e)[..bytes]) == if bytes < |c.text(e)| then None else Some([e])
  {
    assert Readable(c, e);
    if bytes == |LineOf(c, e)| {
      assert LineOf(c, e)[..bytes] == LineOf(c, e);
      OneLine(c, c.text(e));
    } else {
      assert LineOf(c, e)[..bytes] == c.text(e)[..bytes];
      assert c.text(e)[..|c.text(e)|] == c.text(e);
      TailReads(c, if bytes < |c.text(e)| then Part(e, bytes) else Unended(e));
    }
  }

  /** The file as it stands when an event's text was written but not its newline: it
      opens with that event, and the next append makes it unreadable. */
  lemma NextAppendLost(c: Codec, events: seq<Envelope>, e: Envelope, f: Envelope)
    requires Faithful(c)
    ensures Contents(c, Written(c, events, Unended(e))) == Some(events + [e])
    ensures Contents(c, Written(c, events, Unended(e)) + LineOf(c, f)).None?
  {
    OpensIff(c, events, Unended(e));
    JoinedLost(c, events, e, f, |LineOf(c, f)|);
    assert LineOf(c, f)[..|LineOf(c, f)|] == LineOf(c, f);
  }

  lemma StepKeepsInv(h: HashFunction, c: Codec, s: Log, step: Step)
    requires Faithful(c) && Inv(h, c, s) && Enabled(h, s, step)
    ensures Inv(h, c, Next(c, s, step))
  {
    hide Contents, WrittenByStore, FileText;
    if step.Writing? {
      var e := step.event;
      AppendReads(h, c, s, e, step.bytes);
      if Contents(c, s.text).Some? {
        var events := Contents(c, s.text).value;
        EndedIff(c, s.text, events);
        GrownHolds(c, events, e, step.bytes);
        if step.bytes == 0 {
          assert s.text + LineOf(c, e)[..0] == s.text;
        }
      }
    }
  }

  lemma GrownHolds(c: Codec, events: seq<Envelope>, e: Envelope, bytes: nat)
    ensures FileText(c, events + [e]) == FileText(c, events) + LineOf(c, e)
    ensures bytes == |c.text(e)| ==> Holds(c, FileText(c, events) + LineOf(c, e)[..bytes], events + [e])
  {
    assert (events + [e])[..|events|] == events;
    assert LineOf(c, e)[..|c.text(e)|] == c.text(e);
  }

  ghost predicate Runs(h: HashFunction, c: Codec, s: Log, steps: seq<Step>, end: Log)
    decreases |steps|
  {
    if steps == [] then s == end
    else Enabled(h, s, steps[0]) && Runs(h, c, Next(c, s, steps[0]), steps[1..], end)
  }

  /** No append of a run wrote behind a line without its newline, and none stopped
      inside an event's text. */
  ghost predicate AllClean(c: Codec, s: Log, steps: seq<Step>)
    decreases |steps|
  {
    steps != [] && (steps[0].Writing? ==> s.held.Some?) ==>
      && (steps[0].Writing? ==> steps[0].bytes == 0 || (Ended(s.text) && steps[0].bytes >= |c.text(steps[0].event)|))
      && AllClean(c, Next(c, s, steps[0]), steps[1..])
  }

  /** The events whose text a run wrote whole. */
  function Landed(c: Codec, steps: seq<Step>): seq<Envelope> {
    if steps == [] then []
    else
      var rest := Landed(c, steps[1..]);
      if steps[0].Writing? && steps[0].bytes >= |c.text(steps[0].event)| then [steps[0].event] + rest else rest
  }

  /** Over any run of appends, stops and reopenings the file opens at the end exactly
      when it opened at the start, no append wrote behind a line without its newline
      and none stopped inside an event's text; it then holds what it held and every
      event whose text was written whole. A file that does not open never will. */
  lemma {:induction false} RunReads(h: HashFunction, c: Codec, s: Log, steps: seq<Step>, end: Log)
    requires Faithful(c) && Inv(h, c, s) && Runs(h, c, s, steps, end)
    ensures Inv(h, c, end)
    ensures Contents(c, end.text) ==
      if Contents(c, s.text).Some? && AllClean(c, s, steps) then Some(Contents(c, s.text).value + Landed(c, steps)) else None
    decreases |steps|
  {
    hide Contents, Inv, WrittenByStore, Ended, LineOf;
    if steps == [] {
      assert Contents(c, s.text).Some? ==> Contents(c, s.text).value + [] == Contents(c, s.text).value;
    } else {
      var next := Next(c, s, steps[0]);
      StepKeepsInv(h, c, s, steps[0]);
      RunReads(h, c, next, steps[1..], end);
      if steps[0].Writing? {
        var e := steps[0].event;
        AppendReads(h, c, s, e, steps[0].bytes);
        assert Readable(c, e);
        if Contents(c, s.text).Some? {
          ConcatAssociates(Contents(c, s.text).value, [e], Landed(c, steps[1..]));
        }
      }
    }
  }

  /** A file is ended exactly when its tail is. */
  lemma WrittenEnded(c: Codec, events: seq<Envelope>, t: Tail)
    requires Faithful(c) && TailOk(c, t)
    ensures Ended(Written(c, events, t)) <==> t.Terminated?
  {
    FileTextEnded(c, events);
    if t.Terminated? {
      assert Written(c, events, t) == FileText(c, events);
    } else {
      var tail, all := TailText(c, t), Written(c, events, t);
      TailLast(c, t);
      assert all[|all| - 1] == tail[|tail| - 1];
    }
    hide *;
  }

  lemma TailLast(c: Codec, t: Tail)
    requires Faithful(c) && TailOk(c, t) && !t.Terminated?
    ensures TailText(c, t) != "" && TailText(c, t)[|TailText(c, t)| - 1] != '\n'
  {
    assert Readable(c, t.event);
  }

  lemma WrittenHolds(c: Codec, events: seq<Envelope>, t: Tail)
    requires TailOk(c, t) && !t.Part?
    ensures Holds(c, Written(c, events, t), events + TailEvents(t))
  {
    var all := events + TailEvents(t);
    hide FileText;
    if t.Terminated? {
      assert all == events && Written(c, events, t) == FileText(c, events) + "" == FileText(c, events);
    } else {
      assert all[..|all| - 1] == events && all[|all| - 1] == t.event;
    }
  }

  /** A file the store wrote and left with any tail keeps the invariant of a run, and
      is ended exactly when its tail is. */
  lemma WrittenInv(h: HashFunction, c: Codec, events: seq<Envelope>, t: Tail)
    requires Faithful(c) && TailOk(c, t) && WrittenByStore(h, events + TailEvents(t))
    ensures Inv(h, c, Log(Written(c, events, t), None))
    ensures Ended(Written(c, events, t)) <==> t.Terminated?
  {
    OpensIff(c, events, t);
    WrittenEnded(c, events, t);
    hide Contents, WrittenByStore, Written, Holds, TailEvents, Ended;
    if !t.Part? {
      WrittenHolds(c, events, t);
    }
  }

  /** A whole line appended by a running program. */
  lemma LineAppended(h: HashFunction, c: Codec, text: string, events: seq<Envelope>, e: Envelope)
    requires Faithful(c) && Inv(h, c, Log(text, Some(events))) && WrittenByStore(h, events + [e])
    ensures Inv(h, c, Log(text + LineOf(c, e), Some(events + [e])))
    ensures Ended(text + LineOf(c, e))
    ensures Contents(c, text + LineOf(c, e)) == if Contents(c, text).Some? && Ended(text) then Some(events + [e]) else None
  {
    var s, step := Log(text, Some(events)), Writing(e, |LineOf(c, e)|);
    StepKeepsInv(h, c, s, step);
    AppendReads(h, c, s, e, step.bytes);
    hide Contents, WrittenByStore;
  }

  // ----- files edited by hand -----

  /** A line with nothing but white space is passed over, wherever it stands after a
      whole line. */
  lemma BlankLinePassedOver(c: Codec, line: string, rest: string)
    requires AllSpaces(line) && !Contains(line, '\n')
    ensures Contents(c, line + ['\n'] + rest) == Contents(c, rest)
  {
    LinesStep(line, rest);
    var first := WithoutReturn(line);
    BlankExactly(first);
    BlankFirst(c, first, Lines(rest));
  }

  lemma {:induction false} BlankFirst(c: Codec, line: string, lines: seq<string>)
    requires Blank(line)
    ensures EventsIn(c, [line] + lines) == EventsIn(c, lines)
  {
    hide Blank;
    var all := [line] + lines;
    if lines == [] {
      assert all[..0] == [];
    } else {
      BlankFirst(c, line, lines[..|lines| - 1]);
      assert all[..|all| - 1] == [line] + lines[..|lines| - 1];
    }
  }

  /** A line may end in a carriage return before its newline. */
  lemma ReturnCut(c: Codec, line: string, rest: string)
    requires !Contains(line, '\n') && (line == "" || line[|line| - 1] != '\r')
    ensures Contents(c, line + ['\r'] + ['\n'] + rest) == Contents(c, line + ['\n'] + rest)
  {
    var longer := line + ['\r'];
    assert !Contains(longer, '\n') by {
      forall i | 0 <= i < |longer| ensures longer[i] != '\n' {
        assert i < |line| ==> longer[i] == line[i];
      }
    }
    LinesStep(line, rest);
    LinesStep(longer, rest);
    assert longer[..|line|] == line;
  }
}
