/** Pulling missing events from a peer (crates/ham-core/src/sync/mod.rs,
    `pull_missing_events`): heads alone decide, and the decision is right. */
module Replication {
  import opened Basics
  import opened Event
  import opened Chain
  import opened StoreSpec
  import opened Store
  import opened Backup

  datatype Status = InSync | Pulled | Diverged | Rejected

  datatype Plan = NothingMissing | NoCommonHead | BadChain(status: Status) | Take(missing: seq<Envelope>)

  /** The event at position i of an incoming list continues what precedes it. */
  ghost predicate IncomingAt(h: HashFunction, logbook: Uuid, head: Option<string>, events: seq<Envelope>, i: nat)
    requires i < |events|
  {
    && events[i].logbookId == logbook
    && Unsupported(h, events[i]).None?
    && events[i].previousHash == if i == 0 then head else Some(events[i - 1].eventHash)
  }

  ghost predicate IncomingOk(h: HashFunction, logbook: Uuid, head: Option<string>, events: seq<Envelope>) {
    forall i {:trigger IncomingAt(h, logbook, head, events, i)} :: 0 <= i < |events| ==> IncomingAt(h, logbook, head, events, i)
  }

  /** The first event that does not continue what precedes it, and the status its
      error is reported as. */
  ghost predicate RefusedAs(h: HashFunction, logbook: Uuid, head: Option<string>, events: seq<Envelope>, status: Status) {
    exists i: nat {:trigger FirstRefused(h, logbook, head, events, i)} :: FirstRefused(h, logbook, head, events, i) &&
      status == if events[i].logbookId != logbook || Unsupported(h, events[i]).Some? then Rejected else Diverged
  }

  ghost predicate FirstRefused(h: HashFunction, logbook: Uuid, head: Option<string>, events: seq<Envelope>, i: nat) {
    && i < |events| && !IncomingAt(h, logbook, head, events, i)
    && forall j {:trigger IncomingAt(h, logbook, head, events, j)} :: 0 <= j < i ==> IncomingAt(h, logbook, head, events, j)
  }

  /** verify_incoming_chain; the error is reduced to the status it is reported as. */
  method VerifyIncomingChain(h: HashFunction, logbook: Uuid, head: Option<string>, events: seq<Envelope>)
    returns (r: Option<Status>)
    ensures r.None? <==> IncomingOk(h, logbook, head, events)
    ensures r.Some? ==> RefusedAs(h, logbook, head, events, r.value)
  {
    var expected := head;
    for i := 0 to |events|
      invariant expected == if i == 0 then head else Some(events[i - 1].eventHash)
      invariant forall j {:trigger IncomingAt(h, logbook, head, events, j)} :: 0 <= j < i ==> IncomingAt(h, logbook, head, events, j)
    {
      if events[i].logbookId != logbook || Unsupported(h, events[i]).Some? {
        assert FirstRefused(h, logbook, head, events, i);
        return Some(Rejected);
      }
      if events[i].previousHash != expected {
        assert FirstRefused(h, logbook, head, events, i);
        return Some(Diverged);
      }
      expected := Some(events[i].eventHash);
    }
    return None;
  }

  /** events_for_logbook. */
  function ForLogbook(events: seq<Envelope>, logbook: Uuid): seq<Envelope> {
    if events == [] then []
    else
      var rest := ForLogbook(events[..|events| - 1], logbook);
      var last := events[|events| - 1];
      if last.logbookId == logbook then rest + [last] else rest
  }

  lemma {:induction false} ForLogbookAll(events: seq<Envelope>, logbook: Uuid)
    requires forall i :: 0 <= i < |events| ==> events[i].logbookId == logbook
    ensures ForLogbook(events, logbook) == events
  {
    if events != [] {
      ForLogbookAll(events[..|events| - 1], logbook);
    }
  }

  /** The first position carrying a hash. */
  ghost predicate FirstWith(events: seq<Envelope>, hash: string, i: nat) {
    i < |events| && events[i].eventHash == hash && forall j :: 0 <= j < i ==> events[j].eventHash != hash
  }

  ghost predicate Absent(events: seq<Envelope>, hash: string) {
    forall i :: 0 <= i < |events| ==> events[i].eventHash != hash
  }

  /** What the head comparison selects out of the peer's (filtered) events. */
  ghost predicate Selects(remote: seq<Envelope>, head: Option<string>, missing: Option<seq<Envelope>>) {
    match head
    case None => missing == Some(remote)
    case Some(hash) =>
      if !Absent(remote, hash) then exists i: nat :: FirstWith(remote, hash, i) && missing == Some(remote[i + 1..])
      else if remote != [] && remote[0].previousHash == Some(hash) then missing == Some(remote)
      else missing == None
  }

  /** missing_events_after together with remote_events_are_missing_tail. */
  method SelectMissing(remote: seq<Envelope>, head: Option<string>) returns (missing: Option<seq<Envelope>>)
    ensures Selects(remote, head, missing)
  {
    if head.None? {
      return Some(remote);
    }
    for i := 0 to |remote|
      invariant forall j :: 0 <= j < i ==> remote[j].eventHash != head.value
    {
      if remote[i].eventHash == head.value {
        assert FirstWith(remote, head.value, i);
        return Some(remote[i + 1..]);
      }
    }
    if remote != [] && remote[0].previousHash == head {
      return Some(remote);
    }
    return None;
  }

  datatype PullResponse = PullResponse(status: Status, taken: nat)

  /** `taken` is accepted plus ignored duplicates. Nothing is appended unless the
      whole selection has been verified against the local head first. */
  method PullMissingEvents(store: JsonlStore, logbook: Uuid, events: seq<Envelope>) returns (r: PullResponse)
    requires store.Sound()
    modifies store, store.memory
    ensures store.Sound() && (store.Consistent() <==> old(store.Consistent()))
    ensures r.status == InSync <==> old(store.State().HeadOf(logbook)) == Head(ForLogbook(events, logbook))
    ensures r.status == InSync || r.status == Diverged ==> store.State() == old(store.State())
    ensures exists missing ::
      var head := old(store.State().HeadOf(logbook));
      Selects(ForLogbook(events, logbook), head, missing) &&
      if r.status == InSync then true
      else if missing.None? then r == PullResponse(Diverged, 0)
      else if !IncomingOk(store.memory.h, logbook, head, missing.value) then
        RefusedAs(store.memory.h, logbook, head, missing.value, r.status) && r.taken == 0 && store.State() == old(store.State())
      else
        var run := ImportTail(store.memory.h, old(store.State()), missing.value);
        store.State() == run.state && r == PullResponse(if run.error.None? then Pulled else Rejected, run.imported)
  {
    var h := store.memory.h;
    var head := store.State().HeadOf(logbook);
    var remote := ForLogbook(events, logbook);
    var missing := SelectMissing(remote, head);
    if head == Head(remote) {
      return PullResponse(InSync, 0);
    }
    if missing.None? {
      return PullResponse(Diverged, 0);
    }
    var refused := VerifyIncomingChain(h, logbook, head, missing.value);
    if refused.Some? {
      return PullResponse(refused.value, 0);
    }
    var run := AppendTail(store, missing.value);
    return PullResponse(if run.1.None? then Pulled else Rejected, run.0);
  }

  /** A peer that offers a whole valid log: the heads match exactly when the logs
      are equal, and a selection is found exactly when the local log is a prefix,
      in which case it is the missing tail, verified. A local log that is ahead
      counts as diverged, like a fork. */
  lemma PullDecision(h: HashFunction, s: StoreState, logbook: Uuid, remote: seq<Envelope>, missing: Option<seq<Envelope>>)
    requires Valid(h, s) && Linked(h, remote)
    requires CollisionFree(h, Members(s.Log(logbook), remote))
    requires Selects(remote, s.HeadOf(logbook), missing)
    ensures s.HeadOf(logbook) == Head(remote) <==> s.Log(logbook) == remote
    ensures missing.Some? <==> IsPrefix(s.Log(logbook), remote)
    ensures missing.Some? ==> missing.value == remote[|s.Log(logbook)|..]
  {
    var log := s.Log(logbook);
    ValidLog(h, s, logbook);
    SameHeadSameHistory(h, log, remote);
    assert s.HeadOf(logbook) == Head(log);
    assert remote != [] ==> LinkAt(h, remote, 0);
    if log != [] {
      var hash := log[|log| - 1].eventHash;
      forall i: nat | i < |remote| && remote[i].eventHash == hash
        ensures i == |log| - 1 && IsPrefix(log, remote)
      {
        SharedAncestry(h, log, remote, |log| - 1, i);
        assert log == remote[..|log|];
      }
      if IsPrefix(log, remote) {
        assert remote[|log| - 1] == remote[..|log|][|log| - 1] == log[|log| - 1];
        assert !Absent(remote, hash);
      }
    }
  }

  /** The missing tail of a valid log continues the local head. */
  lemma TailContinues(h: HashFunction, s: StoreState, logbook: Uuid, remote: seq<Envelope>, n: nat, i: nat)
    requires Linked(h, remote) && n <= |remote| && i < |remote| - n
    requires s.HeadOf(logbook) == Head(remote[..n]) && Importable(h, s, logbook, remote[n..][i])
    ensures IncomingAt(h, logbook, s.HeadOf(logbook), remote[n..], i)
  {
    assert LinkAt(h, remote, n + i) && remote[n..][i] == remote[n + i];
    hide Unsupported, Linked;
    assert i > 0 ==> remote[n..][i - 1] == remote[n + i - 1];
  }

  /** So pulling from a peer with a valid log of supported events of this logbook,
      whose missing events have ids new to the store, ends with the peer's log
      when the local log is a prefix of it, and changes nothing otherwise. */
  lemma PullReachesPeer(h: HashFunction, s: StoreState, logbook: Uuid, remote: seq<Envelope>)
    requires Valid(h, s) && ValidChain(h, remote) && IsPrefix(s.Log(logbook), remote)
    requires AllImportable(h, s, logbook, remote[|s.Log(logbook)|..])
    ensures var tail := remote[|s.Log(logbook)|..];
      IncomingOk(h, logbook, s.HeadOf(logbook), tail) && ImportTail(h, s, tail).state.Log(logbook) == remote
  {
    var log := s.Log(logbook);
    var tail := remote[|log|..];
    ValidLog(h, s, logbook);
    ImportRuns(h, s, logbook, remote, |log|);
    hide ImportTail, Importable, IncomingAt, Valid, Linked, Head;
    assert log == remote[..|log|];
    forall i: nat | i < |tail| ensures IncomingAt(h, logbook, s.HeadOf(logbook), tail, i) {
      assert Importable(h, s, logbook, tail[i]);
      TailContinues(h, s, logbook, remote, |log|, i);
    }
  }
}
