/** The in-memory event bus: a bounded buffer of recent runtime events and replay
    from it (crates/ham-core/src/bus.rs:82-143 and 235-268). Delivery to subscribers is
    not part of this model. */
module Bus {
  import opened Basics
  import opened Text
  import opened Event
  import Json

  datatype Severity = Trace | Debug | Info | Warn | Error

  datatype RuntimeEvent = RuntimeEvent(
    eventId: Uuid,
    eventType: string,
    severity: Severity,
    source: string,
    sourcePluginId: Option<string>,
    payloadSummary: string,
    redactedPayload: Option<Json.Value>,
    error: Option<string>)

  datatype BusEvent = Official(event: Envelope) | Runtime(runtime: RuntimeEvent)

  datatype Filter = Filter(severity: Option<Severity>, category: Option<string>, source: Option<string>, text: Option<string>)

  predicate CategoryMatches(category: string, eventType: string) {
    eventType == category || (|category| < |eventType| && eventType[..|category| + 1] == category + ".")
  }

  function OrEmpty(s: Option<string>): string {
    if s.Some? then s.value else ""
  }

  /** RuntimeEventFilter::matches. */
  predicate Matches(f: Filter, e: RuntimeEvent) {
    && (f.severity.Some? ==> e.severity == f.severity.value)
    && (f.category.Some? ==> CategoryMatches(f.category.value, e.eventType))
    && (f.source.Some? ==>
          || Mentions(Lower(e.source), Lower(f.source.value))
          || (e.sourcePluginId.Some? && Mentions(Lower(e.sourcePluginId.value), Lower(f.source.value))))
    && (f.text.Some? ==>
          Mentions(
            Lower(e.eventType + " " + e.source + " " + e.payloadSummary + " " + OrEmpty(e.error)),
            Lower(f.text.value)))
  }

  /** iter().rev().filter(…).take(limit): the newest matching events, newest first. */
  function Replayed(recent: seq<RuntimeEvent>, f: Filter, limit: nat): seq<RuntimeEvent> {
    if recent == [] || limit == 0 then []
    else
      var n := |recent| - 1;
      if Matches(f, recent[n]) then [recent[n]] + Replayed(recent[..n], f, limit - 1)
      else Replayed(recent[..n], f, limit)
  }

  /** The last n events of a history, or all of it. */
  function LastOf(history: seq<RuntimeEvent>, n: nat): seq<RuntimeEvent> {
    if |history| <= n then history else history[|history| - n..]
  }

  /** A capacity of 0 would keep one event, like a capacity of 1; the channel behind
      the bus refuses to be built with it. */
  function Kept(capacity: nat): nat {
    if capacity == 0 then 1 else capacity
  }

  class InMemoryEventBus {
    const replayCapacity: nat
    var recentRuntimeEvents: seq<RuntimeEvent>
    ghost var history: seq<RuntimeEvent>

    ghost predicate Valid()
      reads this
    {
      recentRuntimeEvents == LastOf(history, Kept(replayCapacity))
    }

    constructor (capacity: nat)
      ensures Valid() && history == [] && replayCapacity == capacity
    {
      replayCapacity := capacity;
      recentRuntimeEvents := [];
      history := [];
    }

    /** The buffer part of publish: drop the oldest event when full, then append. */
    method Publish(event: BusEvent)
      requires Valid()
      modifies this
      ensures Valid()
      ensures history == if event.Runtime? then old(history) + [event.runtime] else old(history)
      ensures |recentRuntimeEvents| <= Kept(replayCapacity)
    {
      if event.Runtime? {
        if |recentRuntimeEvents| >= replayCapacity && recentRuntimeEvents != [] {
          recentRuntimeEvents := recentRuntimeEvents[1..];
        }
        recentRuntimeEvents := recentRuntimeEvents + [event.runtime];
        LastAfterAppend(history, event.runtime, Kept(replayCapacity));
        history := history + [event.runtime];
      }
    }

    /** The buffer answers like the whole history cut to its last events. */
    method ReplayRuntimeEvents(f: Filter, limit: nat) returns (r: seq<RuntimeEvent>)
      requires Valid()
      ensures r == Replayed(LastOf(history, Kept(replayCapacity)), f, limit)
    {
      r := Replayed(recentRuntimeEvents, f, limit);
    }
  }

  lemma LastAfterAppend(history: seq<RuntimeEvent>, e: RuntimeEvent, n: nat)
    requires n > 0
    ensures LastOf(history + [e], n) ==
      (if |LastOf(history, n)| >= n then LastOf(history, n)[1..] else LastOf(history, n)) + [e]
  {
  }

  // ----- what a replay holds -----

  function Matching(events: seq<RuntimeEvent>, f: Filter): seq<RuntimeEvent> {
    if events == [] then []
    else
      var n := |events| - 1;
      Matching(events[..n], f) + if Matches(f, events[n]) then [events[n]] else []
  }

  function Min(a: nat, b: nat): nat {
    if a < b then a else b
  }

  /** The last k of a list, backwards. */
  function Backwards(all: seq<RuntimeEvent>, k: nat): (r: seq<RuntimeEvent>)
    requires k <= |all|
    ensures |r| == k && forall i :: 0 <= i < k ==> r[i] == all[|all| - 1 - i]
  {
    seq(k, i requires 0 <= i < k => all[|all| - 1 - i])
  }

  lemma BackwardsStep(all: seq<RuntimeEvent>, e: RuntimeEvent, k: nat)
    requires k <= |all|
    ensures Backwards(all + [e], k + 1) == [e] + Backwards(all, k)
  {
  }

  /** A replay is the last matching events, as many as asked for, newest first. */
  lemma {:induction false} ReplayedIsLastMatching(events: seq<RuntimeEvent>, f: Filter, limit: nat)
    ensures Replayed(events, f, limit) == Backwards(Matching(events, f), Min(limit, |Matching(events, f)|))
  {
    hide Matches, Backwards, Replayed, Matching;
    NothingReplayed(events, f, limit);
    if events != [] && limit > 0 {
      var n := |events| - 1;
      var before := Matching(events[..n], f);
      StepBack(events, f, limit);
      if Matches(f, events[n]) {
        ReplayedIsLastMatching(events[..n], f, limit - 1);
        BackwardsStep(before, events[n], Min(limit - 1, |before|));
      } else {
        ReplayedIsLastMatching(events[..n], f, limit);
      }
    }
  }

  lemma NothingReplayed(events: seq<RuntimeEvent>, f: Filter, limit: nat)
    ensures events == [] || limit == 0 ==>
      Replayed(events, f, limit) == [] && Backwards(Matching(events, f), Min(limit, |Matching(events, f)|)) == []
  {
    hide Matches;
  }

  lemma StepBack(events: seq<RuntimeEvent>, f: Filter, limit: nat)
    requires events != [] && limit > 0
    ensures var n := |events| - 1;
      && Matching(events, f) == (if Matches(f, events[n]) then Matching(events[..n], f) + [events[n]] else Matching(events[..n], f))
      && Replayed(events, f, limit) ==
         (if Matches(f, events[n]) then [events[n]] + Replayed(events[..n], f, limit - 1) else Replayed(events[..n], f, limit))
  {
    hide Matches;
    var n := |events| - 1;
    assert Matching(events[..n], f) + [] == Matching(events[..n], f);
  }

  lemma {:induction false} MatchingConcat(a: seq<RuntimeEvent>, b: seq<RuntimeEvent>, f: Filter)
    ensures Matching(a + b, f) == Matching(a, f) + Matching(b, f)
  {
    hide Matches;
    if b == [] {
      assert a + b == a;
    } else {
      var n := |b| - 1;
      assert (a + b)[..|a + b| - 1] == a + b[..n];
      MatchingConcat(a, b[..n], f);
      ConcatAssociates(Matching(a, f), Matching(b[..n], f), if Matches(f, b[n]) then [b[n]] else []);
    }
  }

  /** Replaying from the buffer never disagrees with replaying the full history: it is
      a prefix of that answer, and all of it unless a matching event it needed has
      been dropped. */
  lemma BufferRefinesHistory(history: seq<RuntimeEvent>, capacity: nat, f: Filter, limit: nat)
    ensures var buffered := Replayed(LastOf(history, capacity), f, limit); var full := Replayed(history, f, limit);
      && IsPrefix(buffered, full)
      && (buffered == full <==>
            limit <= |Matching(LastOf(history, capacity), f)| || |Matching(LastOf(history, capacity), f)| == |Matching(history, f)|)
  {
    hide Matches, Replayed, Matching, Backwards;
    var kept := LastOf(history, capacity);
    var dropped := history[..|history| - |kept|];
    assert history == dropped + kept;
    MatchingConcat(dropped, kept, f);
    ReplayedIsLastMatching(kept, f, limit);
    ReplayedIsLastMatching(history, f, limit);
    BackwardsOfConcat(Matching(dropped, f), Matching(kept, f), Min(limit, |Matching(kept, f)|), Min(limit, |Matching(history, f)|));
  }

  lemma BackwardsOfConcat(a: seq<RuntimeEvent>, b: seq<RuntimeEvent>, k: nat, m: nat)
    requires k <= |b| && k <= m <= |a| + |b|
    ensures IsPrefix(Backwards(b, k), Backwards(a + b, m))
  {
    var short, long := Backwards(b, k), Backwards(a + b, m);
    forall i | 0 <= i < k ensures short[i] == long[i] {
      assert (a + b)[|a| + |b| - 1 - i] == b[|b| - 1 - i];
    }
  }

  // ----- what a filter lets through -----

  const ANY := Filter(None, None, None, None)

  /** A filter is the conjunction of its parts, and one without parts lets everything
      through. */
  lemma PartsDecide(f: Filter, e: RuntimeEvent)
    ensures Matches(ANY, e)
    ensures Matches(f, e) <==>
      && Matches(ANY.(severity := f.severity), e) && Matches(ANY.(category := f.category), e)
      && Matches(ANY.(source := f.source), e) && Matches(ANY.(text := f.text), e)
  {
    hide Mentions, Lower;
  }

  lemma SeverityDecides(severity: Severity, e: RuntimeEvent)
    ensures Matches(ANY.(severity := Some(severity)), e) <==> e.severity == severity
  {
  }

  /** A category lets through the event type of that name and those below it. */
  lemma CategoryDecides(category: string, e: RuntimeEvent)
    ensures Matches(ANY.(category := Some(category)), e) <==>
      e.eventType == category || exists rest :: e.eventType == category + "." + rest
  {
    var n := |category|;
    if n < |e.eventType| && e.eventType[..n + 1] == category + "." {
      assert e.eventType == category + "." + e.eventType[n + 1..];
    }
    if rest :| e.eventType == category + "." + rest {
      assert e.eventType[..n + 1] == category + ".";
    }
  }

  /** Some stretch of a text is another, up to case. */
  predicate Holds(s: string, part: string) {
    exists i, j :: 0 <= i <= j <= |s| && EqIgnoreCase(s[i..j], part)
  }

  lemma HoldsExactly(s: string, part: string)
    ensures Mentions(Lower(s), Lower(part)) <==> Holds(s, part)
  {
    if i :| 0 <= i <= |Lower(s)| && MentionsAt(Lower(s), Lower(part), i) {
      assert Lower(s)[i..i + |part|] == Lower(s[i..i + |part|]);
      assert EqIgnoreCase(s[i..i + |part|], part);
    }
    if i, j :| 0 <= i <= j <= |s| && EqIgnoreCase(s[i..j], part) {
      assert |Lower(s[i..j])| == j - i && |Lower(part)| == |part|;
      assert Lower(s)[i..j] == Lower(s[i..j]);
      assert MentionsAt(Lower(s), Lower(part), i);
    }
  }

  /** A source is looked for in the event's source and in its plugin's id. */
  lemma SourceDecides(source: string, e: RuntimeEvent)
    ensures Matches(ANY.(source := Some(source)), e) <==>
      Holds(e.source, source) || (e.sourcePluginId.Some? && Holds(e.sourcePluginId.value, source))
  {
    HoldsExactly(e.source, source);
    if e.sourcePluginId.Some? {
      HoldsExactly(e.sourcePluginId.value, source);
    }
    hide Mentions, Lower, Holds;
  }

  /** A text is looked for in type, source, summary and error, joined by blanks. */
  lemma TextDecides(text: string, e: RuntimeEvent)
    ensures Matches(ANY.(text := Some(text)), e) <==>
      Holds(
        e.eventType + " " + e.source + " " + e.payloadSummary + " " + (match e.error case Some(error) => error case None => ""), text)
  {
    HoldsExactly(
      e.eventType + " " + e.source + " " + e.payloadSummary + " " + (match e.error case Some(error) => error case None => ""), text);
    hide Mentions, Lower, Holds;
  }
}
