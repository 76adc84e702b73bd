/** The two store classes of crates/ham-core/src/store.rs, each proved against
    the state functions of StoreSpec. */
module Store {
  import opened Basics
  import opened Event
  import opened Chain
  import opened StoreSpec
  import opened EventFile
  import opened Text

  /** The position listing starts from: after the first event carrying the hash,
      or the beginning when no hash is given or none matches. */
  ghost predicate IsStart(s: StoreState, logbook: Uuid, after: Option<string>, start: nat) {
    var ids := s.Ids(logbook);
    start <= |ids| &&
    match after
    case None => start == 0
    case Some(hash) =>
      if start == 0 then forall i :: 0 <= i < |ids| ==> !Carries(s, ids[i], hash)
      else Carries(s, ids[start - 1], hash) && forall i :: 0 <= i < start - 1 ==> !Carries(s, ids[i], hash)
  }

  predicate Carries(s: StoreState, id: Uuid, hash: string) {
    id in s.byId && s.byId[id].eventHash == hash
  }

  lemma {:induction false} PickSplit(byId: map<Uuid, Envelope>, a: seq<Uuid>, b: seq<Uuid>)
    ensures Pick(byId, a + b) == Pick(byId, a) + Pick(byId, b)
  {
    if b == [] {
      assert a + b == a;
    } else {
      var n := |b| - 1;
      assert (a + b)[..|a + b| - 1] == a + b[..n];
      PickSplit(byId, a, b[..n]);
    }
  }

  lemma TailOfLog(s: StoreState, logbook: Uuid, start: nat)
    requires IdsOk(s) && start <= |s.Ids(logbook)|
    ensures start <= |s.Log(logbook)| && Pick(s.byId, s.Ids(logbook)[start..]) == s.Log(logbook)[start..]
  {
    var ids := s.Ids(logbook);
    LogHolds(s, logbook);
    PickSplit(s.byId, ids[..start], ids[start..]);
    assert ids[..start] + ids[start..] == ids;
    assert forall k :: 0 <= k < start ==> ids[..start][k] in ids;
    assert LogbookOk(s, logbook);
    PickAll(s.byId, ids[..start]);
  }

  /** In a valid store, asking for what follows a logged hash gives exactly the
      rest of the log after the event with that hash. */
  lemma ListAfterIsTail(h: HashFunction, s: StoreState, logbook: Uuid, i: nat, start: nat)
    requires Valid(h, s) && i < |s.Log(logbook)| && CollisionFree(h, Members(s.Log(logbook), s.Log(logbook)))
    requires IsStart(s, logbook, Some(s.Log(logbook)[i].eventHash), start)
    ensures start == i + 1 && Pick(s.byId, s.Ids(logbook)[start..]) == s.Log(logbook)[i + 1..]
  {
    var log := s.Log(logbook);
    ValidLog(h, s, logbook);
    LogHolds(s, logbook);
    hide Valid, IdsOk, Linked, CollisionFree, Pick;
    assert Carries(s, s.Ids(logbook)[i], log[i].eventHash);
    assert log[start - 1].eventHash == log[i].eventHash;
    SharedAncestry(h, log, log, start - 1, i);
    TailOfLog(s, logbook, start);
  }

  class InMemoryStore {
    const h: HashFunction
    var eventsById: map<Uuid, Envelope>
    var eventsByLogbook: map<Uuid, seq<Uuid>>
    var heads: map<Uuid, string>

    function State(): StoreState
      reads this
    {
      StoreState(eventsById, eventsByLogbook, heads)
    }

    constructor (h: HashFunction, inner: StoreState)
      ensures this.h == h && State() == inner
    {
      this.h := h;
      eventsById, eventsByLogbook, heads := inner.byId, inner.byLogbook, inner.heads;
    }

    method Push(e: Envelope)
      modifies this
      ensures State() == old(State()).Insert(e)
    {
      var ids := if e.logbookId in eventsByLogbook then eventsByLogbook[e.logbookId] else [];
      eventsByLogbook := eventsByLogbook[e.logbookId := ids + [e.eventId]];
      heads := heads[e.logbookId := e.eventHash];
      eventsById := eventsById[e.eventId := e];
    }

    method AppendEvent(input: NewEvent, eventId: Uuid, now: int) returns (e: Envelope)
      modifies this
      ensures State() == LocalAppend(h, old(State()), input, eventId, now)
      ensures e == FromNew(h, input, old(State()).HeadOf(input.logbookId), eventId, now)
    {
      var previousHash := if input.logbookId in heads then Some(heads[input.logbookId]) else None;
      e := FromNew(h, input, previousHash, eventId, now);
      Push(e);
    }

    method AppendVerifiedRemoteEvent(e: Envelope) returns (v: Verdict)
      modifies this
      ensures v == MemoryVerdict(h, old(State()), e)
      ensures State() == AfterVerdict(old(State()), e, v)
    {
      var unsupported := Unsupported(h, e);
      if unsupported.Some? {
        return Refuse(unsupported.value);
      }
      if e.eventId in eventsById {
        return if eventsById[e.eventId] == e then AlreadyStored else Refuse(DuplicateEventConflict);
      }
      var expected := if e.logbookId in heads then Some(heads[e.logbookId]) else None;
      if e.previousHash != expected {
        return Refuse(RemotePreviousHashMismatch);
      }
      Push(e);
      return Append;
    }

    method ListEventsAfter(logbook: Uuid, after: Option<string>) returns (r: seq<Envelope>)
      ensures exists start: nat :: IsStart(State(), logbook, after, start) && r == Pick(eventsById, State().Ids(logbook)[start..])
    {
      var ids := State().Ids(logbook);
      var start := 0;
      if after.Some? {
        for i := 0 to |ids|
          invariant start == 0
          invariant forall j :: 0 <= j < i ==> !Carries(State(), ids[j], after.value)
        {
          if ids[i] in eventsById && eventsById[ids[i]].eventHash == after.value {
            start := i + 1;
            break;
          }
        }
      }
      assert IsStart(State(), logbook, after, start);
      r := [];
      var tail := ids[start..];
      for i := 0 to |tail|
        invariant r == Pick(eventsById, tail[..i])
      {
        assert tail[..i + 1][..i] == tail[..i];
        if tail[i] in eventsById {
          r := r + [eventsById[tail[i]]];
        }
      }
      assert tail[..|tail|] == tail;
    }

    method ListEvents(logbook: Uuid) returns (r: seq<Envelope>)
      ensures r == State().Log(logbook)
    {
      r := ListEventsAfter(logbook, None);
      assert State().Ids(logbook)[0..] == State().Ids(logbook);
    }

    /** Accepts exactly the logbooks whose stored ids all resolve to a linked chain
        ending at the recorded head, whatever state the maps are in; an error names
        the first thing wrong. */
    method VerifyChain(logbook: Uuid) returns (r: Result<(), StoreError>)
      ensures r.Ok? <==> logbook in eventsByLogbook ==>
        SoundTo(h, State(), logbook, |State().Ids(logbook)|) && State().HeadOf(logbook) == Head(State().Log(logbook))
      ensures r.Err? ==> FirstFault(h, State(), logbook, r.error)
    {
      if logbook !in eventsByLogbook {
        return Ok(());
      }
      var ids := eventsByLogbook[logbook];
      var expected: Option<string> := None;
      for i := 0 to |ids|
        invariant SoundTo(h, State(), logbook, i) && expected == Head(Pick(eventsById, ids[..i]))
      {
        if ids[i] !in eventsById {
          assert StoreFaultAt(h, State(), logbook, i, EventNotFound);
          return Err(EventNotFound);
        }
        var event := eventsById[ids[i]];
        ghost var sound := Pick(eventsById, ids[..i]);
        assert ids[..i + 1][..i] == ids[..i];
        assert Pick(eventsById, ids[..i + 1]) == sound + [event];
        LinkedExtends(h, sound, event);
        if !event.HashIsValid(h) || event.previousHash != expected {
          Unsound(h, State(), logbook, i);
          var error := if !event.HashIsValid(h) then InvalidRemoteHash else RemotePreviousHashMismatch;
          assert StoreFaultAt(h, State(), logbook, i, error);
          return Err(error);
        }
        expected := Some(event.eventHash);
      }
      assert ids[..|ids|] == ids;
      var stored := if logbook in heads then Some(heads[logbook]) else None;
      return if stored == expected then Ok(()) else Err(HeadMismatch);
    }
  }

  /** The first ids of a logbook resolve to a linked chain. */
  ghost predicate SoundTo(h: HashFunction, s: StoreState, logbook: Uuid, i: nat) {
    var ids := s.Ids(logbook);
    i <= |ids| && (forall j :: 0 <= j < i ==> ids[j] in s.byId) && Linked(h, Pick(s.byId, ids[..i]))
  }

  /** What is wrong at position i, after a sound beginning. */
  ghost predicate StoreFaultAt(h: HashFunction, s: StoreState, logbook: Uuid, i: nat, error: StoreError) {
    var ids := s.Ids(logbook);
    && i < |ids| && SoundTo(h, s, logbook, i)
    && match error
       case EventNotFound => ids[i] !in s.byId
       case InvalidRemoteHash => ids[i] in s.byId && !s.byId[ids[i]].HashIsValid(h)
       case RemotePreviousHashMismatch =>
         ids[i] in s.byId && s.byId[ids[i]].HashIsValid(h) && s.byId[ids[i]].previousHash != Head(Pick(s.byId, ids[..i]))
       case _ => false
  }

  ghost predicate FirstFault(h: HashFunction, s: StoreState, logbook: Uuid, error: StoreError) {
    if error == HeadMismatch then
      SoundTo(h, s, logbook, |s.Ids(logbook)|) && s.HeadOf(logbook) != Head(s.Log(logbook))
    else exists i: nat :: StoreFaultAt(h, s, logbook, i, error)
  }

  /** A break in the chain at one position makes the whole list unsound. */
  lemma Unsound(h: HashFunction, s: StoreState, logbook: Uuid, i: nat)
    requires i < |s.Ids(logbook)| && s.Ids(logbook)[i] in s.byId
    requires !Linked(h, Pick(s.byId, s.Ids(logbook)[..i + 1]))
    ensures !SoundTo(h, s, logbook, |s.Ids(logbook)|)
  {
    var ids := s.Ids(logbook);
    var first := Pick(s.byId, ids[..i + 1]);
    PickSplit(s.byId, ids[..i + 1], ids[i + 1..]);
    assert ids[..i + 1] + ids[i + 1..] == ids == ids[..|ids|];
    var log := Pick(s.byId, ids);
    assert log[..|first|] == first;
    hide *;
    if Linked(h, log) {
      LinkedPrefix(h, log, |first|);
    }
  }

  /** load_inner_from_disk: None for the error raised by a line that does not parse. */
  method LoadInner(c: Codec, text: string) returns (inner: Option<StoreState>)
    ensures inner == Load(c, text)
  {
    hide Blank, Lines;
    var state, lines := EMPTY, Lines(text);
    ghost var events: seq<Envelope> := [];
    assert lines[..0] == [];
    for i := 0 to |lines|
      invariant EventsIn(c, lines[..i]) == Some(events) && state == Replay(events)
    {
      assert lines[..i + 1][..i] == lines[..i];
      if Blank(lines[i]) {
        continue;
      }
      var event := c.parse(lines[i]);
      if event.None? {
        EventsConcat(c, lines[..i + 1], lines[i + 1..]);
        assert lines[..i + 1] + lines[i + 1..] == lines;
        return None;
      }
      ReplaySnoc(events, event.value);
      events := events + [event.value];
      state := state.Insert(event.value);
    }
    assert lines[..|lines|] == lines;
    return Some(state);
  }

  lemma ReplaySnoc(file: seq<Envelope>, e: Envelope)
    ensures Replay(file + [e]) == Replay(file).Insert(e)
  {
    assert (file + [e])[..|file|] == file;
  }

  class JsonlStore {
    const codec: Codec
    const memory: InMemoryStore
    /** The bytes of the file. */
    var text: string
    /** The events in memory, in the order they came. */
    ghost var events: seq<Envelope>

    function State(): StoreState
      reads this, memory
    {
      memory.State()
    }

    /** What holds of every store opened on a file of its own, whatever stop the file
        has seen. */
    ghost predicate Sound()
      reads this, memory
      ensures Sound() ==> Valid(memory.h, State())
    {
      ReplayValidIfWritten(memory.h, events);
      State() == Replay(events) && Faithful(codec) && Inv(memory.h, codec, Log(text, Some(events)))
    }

    /** The file is ended, and reopening it now would give the state held in memory. */
    ghost predicate Consistent()
      reads this, memory
      ensures Consistent() ==> Load(codec, text) == Some(State())
    {
      Sound() && Ended(text) && Load(codec, text).Some?
    }

    constructor Loaded(h: HashFunction, codec: Codec, text: string, inner: StoreState)
      requires Load(codec, text) == Some(inner)
      ensures this.codec == codec && memory.h == h && fresh(memory) && this.text == text
      ensures Some(events) == Contents(codec, text) && State() == inner
    {
      this.codec, this.text := codec, text;
      events := Contents(codec, text).value;
      memory := new InMemoryStore(h, inner);
    }

    /** open: no store when a line does not parse. On a file the store has written, as
        any stop may have left it, the store is consistent exactly when the file is
        ended. */
    static method Open(h: HashFunction, codec: Codec, text: string) returns (store: Option<JsonlStore>)
      ensures store.None? <==> Load(codec, text).None?
      ensures store.Some? ==>
        && fresh(store.value) && fresh(store.value.memory) && store.value.memory.h == h
        && store.value.codec == codec && store.value.text == text
        && Some(store.value.State()) == Load(codec, text) && Some(store.value.events) == Contents(codec, text)
      ensures store.Some? && Faithful(codec) && Inv(h, codec, Log(text, None)) ==>
        store.value.Sound() && (store.value.Consistent() <==> Ended(text))
    {
      hide Contents, Faithful, WrittenByStore;
      var inner := LoadInner(codec, text);
      if inner.None? {
        return None;
      }
      var loaded := new JsonlStore.Loaded(h, codec, text, inner.value);
      return Some(loaded);
    }

    /** persist_event: one line behind whatever the file holds. */
    method PersistEvent(e: Envelope)
      requires Faithful(codec) && Inv(memory.h, codec, Log(text, Some(events))) && WrittenByStore(memory.h, events + [e])
      modifies this
      ensures events == old(events) + [e] && text == old(text) + LineOf(codec, e)
      ensures Inv(memory.h, codec, Log(text, Some(events))) && Ended(text)
      ensures Contents(codec, text) == if old(Contents(codec, text).Some? && Ended(text)) then Some(events) else None
    {
      LineAppended(memory.h, codec, text, events, e);
      text := text + codec.text(e);
      text := text + "\n";
      events := events + [e];
      assert text == old(text) + LineOf(codec, e);
    }

    /** The file opens afterwards exactly when it opened and was ended before. */
    method AppendEvent(input: NewEvent, eventId: Uuid, now: int) returns (e: Envelope)
      requires Sound()
      requires eventId !in memory.eventsById  // a new random UUID
      modifies this, memory
      ensures Sound() && (Consistent() <==> old(Consistent()))
      ensures State() == LocalAppend(memory.h, old(State()), input, eventId, now)
      ensures e == FromNew(memory.h, input, old(State()).HeadOf(input.logbookId), eventId, now)
      ensures events == old(events) + [e] && text == old(text) + LineOf(codec, e)
      ensures Load(codec, text) == if old(Consistent()) then Some(State()) else None
    {
      hide Contents, Faithful, Inv, WrittenByStore;
      e := memory.AppendEvent(input, eventId, now);
      FileGrows(memory.h, events, e);
      InvHeld(memory.h, codec, text, events);
      PersistEvent(e);
    }

    method AppendVerifiedRemoteEvent(e: Envelope) returns (v: Verdict)
      requires Sound()
      modifies this, memory
      ensures Sound() && (Consistent() <==> old(Consistent()))
      ensures v == RemoteVerdict(memory.h, old(State()), e)
      ensures State() == RemoteAppend(memory.h, old(State()), e)
      ensures events == if v.Append? then old(events) + [e] else old(events)
      ensures text == if v.Append? then old(text) + LineOf(codec, e) else old(text)
      ensures v.Append? ==> Load(codec, text) == if old(Consistent()) then Some(State()) else None
    {
      hide Contents, Faithful, Inv, WrittenByStore, Valid;
      if e.eventId in memory.eventsById && memory.eventsById[e.eventId] == e {
        return AlreadyStored;
      }
      RemoteAppendValid(memory.h, State(), e);
      v := memory.AppendVerifiedRemoteEvent(e);
      if v.Append? {
        FileGrows(memory.h, events, e);
        InvHeld(memory.h, codec, text, events);
        PersistEvent(e);
      }
    }
  }

  lemma InvHeld(h: HashFunction, c: Codec, text: string, events: seq<Envelope>)
    requires Inv(h, c, Log(text, Some(events)))
    ensures WrittenByStore(h, events)
  {
  }

  lemma ReplayValidIfWritten(h: HashFunction, file: seq<Envelope>)
    ensures WrittenByStore(h, file) ==> Valid(h, Replay(file))
  {
    if WrittenByStore(h, file) {
      ReplayValid(h, file);
    }
  }

  lemma FileGrows(h: HashFunction, file: seq<Envelope>, e: Envelope)
    ensures Replay(file + [e]) == Replay(file).Insert(e)
    ensures WrittenByStore(h, file + [e]) <==>
      WrittenByStore(h, file) && e.eventId !in Replay(file).byId && e.HashIsValid(h) && e.previousHash == Replay(file).HeadOf(e.logbookId)
  {
    var longer := file + [e];
    assert longer[..|file|] == file;
    assert LineOk(h, longer, |file|) <==>
      e.eventId !in Replay(file).byId && e.HashIsValid(h) && e.previousHash == Replay(file).HeadOf(e.logbookId);
    forall k: nat | k < |file| ensures LineOk(h, longer, k) <==> LineOk(h, file, k) {
      assert longer[..k] == file[..k];
    }
  }
}
