/** Which mutations may be sent now (crates/ham-core/src/sync/offline.rs:719-756
    and 955-1030). */
module QueueDrain {
  import opened Basics
  import opened Event
  import opened OfflineQueue

  /** is_ready_at. */
  predicate ReadyAt(m: Mutation, now: int) {
    (m.status == Pending || m.status == Retrying) && (m.nextAttemptAt.Some? ==> m.nextAttemptAt.value <= now)
  }

  predicate OperationAccepted(mutations: seq<Mutation>, id: Uuid) {
    exists i :: 0 <= i < |mutations| && mutations[i].operationId == id && mutations[i].status == Accepted
  }

  predicate HashAccepted(mutations: seq<Mutation>, hash: string) {
    exists i :: 0 <= i < |mutations| && mutations[i].localEventHash == Some(hash) && mutations[i].status == Accepted
  }

  predicate DependencySatisfied(mutations: seq<Mutation>, d: Dependency) {
    && (d.operationId.Some? ==> OperationAccepted(mutations, d.operationId.value))
    && (d.eventHash.Some? ==> HashAccepted(mutations, d.eventHash.value))
    && (d.minimumSchema.Some? ==> d.minimumSchema.value <= SCHEMA_VERSION)
  }

  /** dependencies_satisfied. */
  predicate Unblocked(mutations: seq<Mutation>, m: Mutation) {
    forall i :: 0 <= i < |m.dependencies| ==> DependencySatisfied(mutations, m.dependencies[i])
  }

  function OfLogbook(mutations: seq<Mutation>, logbook: Uuid): seq<Mutation> {
    if mutations == [] then []
    else if mutations[0].logbookId == logbook then [mutations[0]] + OfLogbook(mutations[1..], logbook)
    else OfLogbook(mutations[1..], logbook)
  }

  lemma {:induction false} OfLogbookHas(mutations: seq<Mutation>, logbook: Uuid, m: Mutation)
    ensures m in OfLogbook(mutations, logbook) <==> m in mutations && m.logbookId == logbook
  {
    if mutations != [] {
      OfLogbookHas(mutations[1..], logbook, m);
      assert m in mutations <==> m == mutations[0] || m in mutations[1..];
    }
  }

  /** Ordering by sequence; the file gives each one of a logbook its own. */
  function Insert(m: Mutation, sorted: seq<Mutation>): seq<Mutation> {
    if sorted == [] || m.sequence <= sorted[0].sequence then [m] + sorted
    else [sorted[0]] + Insert(m, sorted[1..])
  }

  function Sort(mutations: seq<Mutation>): seq<Mutation> {
    if mutations == [] then [] else Insert(mutations[0], Sort(mutations[1..]))
  }

  ghost predicate InOrder(s: seq<Mutation>) {
    forall i, j :: 0 <= i < j < |s| ==> s[i].sequence <= s[j].sequence
  }

  lemma {:induction false} InsertPermutes(m: Mutation, sorted: seq<Mutation>)
    ensures multiset(Insert(m, sorted)) == multiset(sorted) + multiset{m}
  {
    if sorted != [] && m.sequence > sorted[0].sequence {
      InsertPermutes(m, sorted[1..]);
      assert sorted == [sorted[0]] + sorted[1..];
    }
  }

  lemma {:induction false} InsertHas(m: Mutation, sorted: seq<Mutation>, x: Mutation)
    ensures x in Insert(m, sorted) <==> x == m || x in sorted
  {
    if sorted != [] && m.sequence > sorted[0].sequence {
      InsertHas(m, sorted[1..], x);
      assert x in sorted <==> x == sorted[0] || x in sorted[1..];
    }
  }

  lemma {:induction false} InsertOrders(m: Mutation, sorted: seq<Mutation>)
    requires InOrder(sorted)
    ensures InOrder(Insert(m, sorted))
  {
    if sorted != [] && m.sequence > sorted[0].sequence {
      var rest := sorted[1..];
      InsertOrders(m, rest);
      forall x | x in Insert(m, rest) ensures sorted[0].sequence <= x.sequence {
        InsertHas(m, rest, x);
        if x in sorted {
          HeadFirst(sorted, x);
        }
      }
    }
  }

  lemma HeadFirst(ordered: seq<Mutation>, x: Mutation)
    requires ordered != [] && InOrder(ordered) && x in ordered
    ensures ordered[0].sequence <= x.sequence
  {
    var i :| 0 <= i < |ordered| && ordered[i] == x;
  }

  lemma {:induction false} SortOrders(mutations: seq<Mutation>)
    ensures InOrder(Sort(mutations)) && multiset(Sort(mutations)) == multiset(mutations)
  {
    if mutations != [] {
      SortOrders(mutations[1..]);
      InsertOrders(mutations[0], Sort(mutations[1..]));
      InsertPermutes(mutations[0], Sort(mutations[1..]));
      assert mutations == [mutations[0]] + mutations[1..];
    }
  }

  /** Accepted mutations are passed over; the first other one that is not due, or
      whose dependencies are not met, ends the list. */
  function TakeReady(all: seq<Mutation>, ordered: seq<Mutation>, now: int): seq<Mutation> {
    if ordered == [] then []
    else if ordered[0].status == Accepted then TakeReady(all, ordered[1..], now)
    else if !ReadyAt(ordered[0], now) || !Unblocked(all, ordered[0]) then []
    else [ordered[0]] + TakeReady(all, ordered[1..], now)
  }

  /** ready_mutations. */
  function Ready(mutations: seq<Mutation>, logbook: Uuid, now: int): seq<Mutation> {
    TakeReady(mutations, Sort(OfLogbook(mutations, logbook)), now)
  }

  lemma {:induction false} TakeReadySound(all: seq<Mutation>, ordered: seq<Mutation>, now: int, m: Mutation)
    requires m in TakeReady(all, ordered, now)
    ensures m in ordered && m.status != Accepted && ReadyAt(m, now) && Unblocked(all, m)
  {
    hide ReadyAt, Unblocked;
    if m in TakeReady(all, ordered[1..], now) {
      TakeReadySound(all, ordered[1..], now, m);
    }
  }

  lemma {:induction false} TakeReadySorted(all: seq<Mutation>, ordered: seq<Mutation>, now: int)
    requires InOrder(ordered)
    ensures InOrder(TakeReady(all, ordered, now))
  {
    hide ReadyAt, Unblocked;
    if ordered != [] {
      TakeReadySorted(all, ordered[1..], now);
      forall m | m in TakeReady(all, ordered[1..], now) ensures ordered[0].sequence <= m.sequence {
        TakeReadySound(all, ordered[1..], now, m);
        HeadFirst(ordered, m);
      }
    }
  }

  /** Nothing overtakes: taking a mutation leaves out nothing unaccepted before it. */
  lemma {:induction false} TakeReadyLeavesNone(all: seq<Mutation>, ordered: seq<Mutation>, now: int, m: Mutation, n: Mutation)
    requires InOrder(ordered) && m in TakeReady(all, ordered, now) && n in ordered && n.sequence < m.sequence
    ensures n.status == Accepted || n in TakeReady(all, ordered, now)
  {
    hide ReadyAt, Unblocked;
    if n != ordered[0] {
      HeadFirst(ordered, n);
      if m == ordered[0] {
        assert false;
      }
      TakeReadyLeavesNone(all, ordered[1..], now, m, n);
    }
  }

  /** The mutations ready in a logbook are in sequence order, each due with its
      dependencies met, and every mutation of the logbook with a smaller sequence is
      either accepted or ready too. */
  lemma ReadyInOrder(mutations: seq<Mutation>, logbook: Uuid, now: int)
    ensures var r := Ready(mutations, logbook, now);
      && InOrder(r)
      && (forall m :: m in r ==>
            m in mutations && m.logbookId == logbook && m.status != Accepted && ReadyAt(m, now) && Unblocked(mutations, m))
      && (forall m, n :: m in r && n in mutations && n.logbookId == logbook && n.sequence < m.sequence ==>
            n.status == Accepted || n in r)
  {
    hide ReadyAt, Unblocked, InOrder, TakeReady, Sort, OfLogbook;
    var own := OfLogbook(mutations, logbook);
    SortOrders(own);
    var ordered := Sort(own);
    TakeReadySorted(mutations, ordered, now);
    forall m ensures m in ordered <==> m in mutations && m.logbookId == logbook {
      OfLogbookHas(mutations, logbook, m);
      assert m in ordered <==> m in multiset(ordered);
      assert m in own <==> m in multiset(own);
    }
    var r := Ready(mutations, logbook, now);
    forall m | m in r
      ensures m in mutations && m.logbookId == logbook && m.status != Accepted && ReadyAt(m, now) && Unblocked(mutations, m)
    {
      TakeReadySound(mutations, ordered, now, m);
    }
    forall m, n | m in r && n in mutations && n.logbookId == logbook && n.sequence < m.sequence
      ensures n.status == Accepted || n in r
    {
      TakeReadyLeavesNone(mutations, ordered, now, m, n);
    }
  }

  // ----- the batch to push -----

  /** events_by_hash: a later event with the same hash replaces an earlier one. */
  function WithHash(events: seq<Envelope>, hash: string): (r: Option<Envelope>)
    ensures r.Some? ==> r.value in events && r.value.eventHash == hash
    ensures r.None? ==> forall e :: e in events ==> e.eventHash != hash
  {
    if events == [] then None
    else
      var n := |events| - 1;
      if events[n].eventHash == hash then Some(events[n])
      else
        assert forall e :: e in events <==> e in events[..n] || e == events[n];
        WithHash(events[..n], hash)
  }

  function LocalEvent(m: Mutation, events: seq<Envelope>): Option<Envelope> {
    if m.localEventHash.None? then None else WithHash(events, m.localEventHash.value)
  }

  datatype Batch = Batch(operations: seq<Uuid>, events: seq<Envelope>, missing: seq<Uuid>)

  /** One operation and one event for each ready mutation, up to the first without
      its event. */
  function BatchOf(ready: seq<Mutation>, events: seq<Envelope>): Batch {
    if ready == [] then Batch([], [], [])
    else
      match LocalEvent(ready[0], events)
      case None => Batch([], [], [ready[0].operationId])
      case Some(event) =>
        var rest := BatchOf(ready[1..], events);
        Batch([ready[0].operationId] + rest.operations, [event] + rest.events, rest.missing)
  }

  /** ready_event_batch, pushing onto three lists. */
  method ReadyEventBatch(mutations: seq<Mutation>, logbook: Uuid, localEvents: seq<Envelope>, now: int) returns (batch: Batch)
    ensures batch == BatchOf(Ready(mutations, logbook, now), localEvents)
  {
    hide WithHash, Ready;
    var ready := Ready(mutations, logbook, now);
    var operations: seq<Uuid>, events: seq<Envelope>, missing: seq<Uuid> := [], [], [];
    assert ready[0..] == ready;
    for i := 0 to |ready|
      invariant missing == []
      invariant var rest := BatchOf(ready[i..], localEvents);
        BatchOf(ready, localEvents) == Batch(operations + rest.operations, events + rest.events, rest.missing)
    {
      assert ready[i..][0] == ready[i] && ready[i..][1..] == ready[i + 1..];
      var event := LocalEvent(ready[i], localEvents);
      if event.None? {
        missing := [ready[i].operationId];
        return Batch(operations, events, missing);
      }
      operations := operations + [ready[i].operationId];
      events := events + [event.value];
    }
    return Batch(operations, events, missing);
  }

  /** Position by position, a batch holds the ready mutations' operations and their
      own local events, up to the first that has none. */
  lemma {:induction false} BatchMatches(ready: seq<Mutation>, events: seq<Envelope>)
    ensures var b := BatchOf(ready, events);
      && |b.operations| == |b.events| <= |ready|
      && (forall i :: 0 <= i < |b.operations| ==>
            b.operations[i] == ready[i].operationId && b.events[i] in events && ready[i].localEventHash == Some(b.events[i].eventHash))
      && (b.missing == [] <==> |b.operations| == |ready|)
      && (b.missing != [] ==>
            b.missing == [ready[|b.operations|].operationId] && LocalEvent(ready[|b.operations|], events).None?)
  {
    hide WithHash;
    if ready != [] && LocalEvent(ready[0], events).Some? {
      BatchMatches(ready[1..], events);
    }
  }

  // ----- exactly what a batch holds -----

  /** Due, with its dependencies accepted and its own event in the log. */
  predicate Sendable(all: seq<Mutation>, m: Mutation, events: seq<Envelope>, now: int) {
    ReadyAt(m, now) && Unblocked(all, m) && LocalEvent(m, events).Some?
  }

  ghost predicate Strict(s: seq<Mutation>) {
    forall i, j :: 0 <= i < j < |s| ==> s[i].sequence < s[j].sequence
  }

  lemma {:induction false} InsertStrict(m: Mutation, sorted: seq<Mutation>)
    requires Strict(sorted) && forall x :: x in sorted ==> x.sequence != m.sequence
    ensures Strict(Insert(m, sorted))
  {
    if sorted != [] && m.sequence > sorted[0].sequence {
      var rest := sorted[1..];
      assert forall x :: x in rest ==> x in sorted;
      InsertStrict(m, rest);
      forall x | x in Insert(m, rest) ensures sorted[0].sequence < x.sequence {
        InsertHas(m, rest, x);
        if x in rest {
          var i :| 0 <= i < |rest| && rest[i] == x;
          assert x == sorted[i + 1];
        }
      }
    } else {
      forall x | x in sorted ensures m.sequence < x.sequence {
        HeadFirst(sorted, x);
      }
    }
  }

  lemma {:induction false} SortHas(mutations: seq<Mutation>, x: Mutation)
    ensures x in Sort(mutations) <==> x in mutations
  {
    if mutations != [] {
      SortHas(mutations[1..], x);
      InsertHas(mutations[0], Sort(mutations[1..]), x);
      assert x in mutations <==> x == mutations[0] || x in mutations[1..];
    }
  }

  /** In a valid file the mutations of one logbook sort without ties. */
  lemma {:induction false} SortStrict(mutations: seq<Mutation>, logbook: Uuid)
    requires forall i, j :: 0 <= i < j < |mutations| ==> Apart(mutations[i], mutations[j])
    ensures Strict(Sort(OfLogbook(mutations, logbook)))
  {
    if mutations != [] {
      var rest := mutations[1..];
      assert forall i, j :: 0 <= i < j < |rest| ==> Apart(rest[i], rest[j]) by {
        assert forall i :: 0 <= i < |rest| ==> rest[i] == mutations[i + 1];
      }
      SortStrict(rest, logbook);
      if mutations[0].logbookId == logbook {
        var sorted := Sort(OfLogbook(rest, logbook));
        forall x | x in sorted ensures x.sequence != mutations[0].sequence {
          SortHas(OfLogbook(rest, logbook), x);
          OfLogbookHas(rest, logbook, x);
          var i :| 0 <= i < |rest| && rest[i] == x;
          assert Apart(mutations[0], mutations[i + 1]);
        }
        InsertStrict(mutations[0], sorted);
        assert OfLogbook(mutations, logbook)[1..] == OfLogbook(rest, logbook);
      }
    }
  }

  /** The ready mutations whose events make the batch. */
  function InBatch(all: seq<Mutation>, ordered: seq<Mutation>, events: seq<Envelope>, now: int): seq<Mutation> {
    var ready := TakeReady(all, ordered, now);
    BatchMatches(ready, events);
    ready[..|BatchOf(ready, events).operations|]
  }

  lemma {:induction false} InBatchIff(all: seq<Mutation>, ordered: seq<Mutation>, events: seq<Envelope>, now: int, m: Mutation)
    requires Strict(ordered) && m in ordered
    ensures m in InBatch(all, ordered, events, now) <==>
      && m.status != Accepted
      && forall n :: n in ordered && n.sequence <= m.sequence && n.status != Accepted ==> Sendable(all, n, events, now)
  {
    hide ReadyAt, Unblocked, LocalEvent;
    var first, rest := ordered[0], ordered[1..];
    var ready := TakeReady(all, rest, now);
    assert forall n :: n in ordered <==> n == first || n in rest;
    if m == first {
      assert forall n :: n in rest ==> n.sequence > m.sequence;
    } else {
      InBatchIff(all, rest, events, now, m);
      assert first.sequence < m.sequence;
    }
    if first.status == Accepted {
      if m == first && m in InBatch(all, ordered, events, now) {
        TakeReadySound(all, ordered, now, m);
      }
    } else if Sendable(all, first, events, now) {
      var n := |BatchOf(ready, events).operations|;
      BatchMatches(ready, events);
      assert TakeReady(all, ordered, now) == [first] + ready && ([first] + ready)[1..] == ready;
      assert |BatchOf([first] + ready, events).operations| == n + 1;
      assert ([first] + ready)[..n + 1] == [first] + ready[..n];
      assert InBatch(all, ordered, events, now) == [first] + InBatch(all, rest, events, now);
    } else {
      assert InBatch(all, ordered, events, now) == [];
    }
  }

  /** Exactly which mutations a batch sends: those of the logbook not accepted yet
      that, with every unaccepted mutation of the logbook before them, are due, have
      their dependencies accepted and their event in the log. */
  lemma SentExactly(mutations: seq<Mutation>, logbook: Uuid, events: seq<Envelope>, now: int, m: Mutation)
    requires forall i, j :: 0 <= i < j < |mutations| ==> Apart(mutations[i], mutations[j])
    requires m in mutations
    ensures var ready := Ready(mutations, logbook, now);
      var n := |BatchOf(ready, events).operations|;
      && n <= |ready|
      && (m in ready[..n] <==>
            && m.logbookId == logbook && m.status != Accepted
            && forall x :: x in mutations && x.logbookId == logbook && x.sequence <= m.sequence && x.status != Accepted ==>
                 Sendable(mutations, x, events, now))
  {
    var ordered := Sort(OfLogbook(mutations, logbook));
    SortStrict(mutations, logbook);
    forall x ensures x in ordered <==> x in mutations && x.logbookId == logbook {
      SortHas(OfLogbook(mutations, logbook), x);
      OfLogbookHas(mutations, logbook, x);
    }
    BatchMatches(Ready(mutations, logbook, now), events);
    hide Sendable, TakeReady, Sort, OfLogbook, BatchOf, Strict;
    if m in ordered {
      InBatchIff(mutations, ordered, events, now, m);
    } else if m in InBatch(mutations, ordered, events, now) {
      TakeReadySound(mutations, ordered, now, m);
    }
  }

  /** What it takes to be sent, from the entries and the log alone. */
  lemma SendableExactly(all: seq<Mutation>, m: Mutation, events: seq<Envelope>, now: int)
    ensures Sendable(all, m, events, now) <==>
      && m.status in {Pending, Retrying} && (m.nextAttemptAt.Some? ==> m.nextAttemptAt.value <= now)
      && (forall i :: 0 <= i < |m.dependencies| ==> var d := m.dependencies[i];
            && (d.operationId.Some? ==> exists x :: x in all && x.operationId == d.operationId.value && x.status == Accepted)
            && (d.eventHash.Some? ==> exists x :: x in all && x.localEventHash == d.eventHash && x.status == Accepted)
            && (d.minimumSchema.Some? ==> d.minimumSchema.value <= 1))
      && exists e :: e in events && m.localEventHash == Some(e.eventHash)
  {
    forall i | 0 <= i < |m.dependencies|
      ensures DependencySatisfied(all, m.dependencies[i]) <==> var d := m.dependencies[i];
            && (d.operationId.Some? ==> exists x :: x in all && x.operationId == d.operationId.value && x.status == Accepted)
            && (d.eventHash.Some? ==> exists x :: x in all && x.localEventHash == d.eventHash && x.status == Accepted)
            && (d.minimumSchema.Some? ==> d.minimumSchema.value <= 1)
    {
      DependencyExactly(all, m.dependencies[i]);
    }
    hide DependencySatisfied, WithHash;
  }

  lemma DependencyExactly(all: seq<Mutation>, d: Dependency)
    ensures DependencySatisfied(all, d) <==>
      && (d.operationId.Some? ==> exists x :: x in all && x.operationId == d.operationId.value && x.status == Accepted)
      && (d.eventHash.Some? ==> exists x :: x in all && x.localEventHash == d.eventHash && x.status == Accepted)
      && (d.minimumSchema.Some? ==> d.minimumSchema.value <= 1)
  {
    assert forall i :: 0 <= i < |all| ==> all[i] in all;
  }

  // ----- no operation twice -----

  lemma {:induction false} OfLogbookDistinct(mutations: seq<Mutation>, logbook: Uuid)
    requires DistinctOperations(mutations)
    ensures DistinctOperations(OfLogbook(mutations, logbook))
  {
    if mutations != [] {
      var rest := mutations[1..];
      assert forall i :: 0 <= i < |rest| ==> rest[i] == mutations[i + 1];
      OfLogbookDistinct(rest, logbook);
      forall x | x in OfLogbook(rest, logbook) ensures x.operationId != mutations[0].operationId {
        OfLogbookHas(rest, logbook, x);
      }
    }
  }

  lemma {:induction false} InsertDistinct(m: Mutation, sorted: seq<Mutation>)
    requires DistinctOperations(sorted) && forall x :: x in sorted ==> x.operationId != m.operationId
    ensures DistinctOperations(Insert(m, sorted))
  {
    if sorted != [] && m.sequence > sorted[0].sequence {
      var rest := sorted[1..];
      assert forall i :: 0 <= i < |rest| ==> rest[i] == sorted[i + 1];
      assert forall x :: x in rest ==> x in sorted;
      InsertDistinct(m, rest);
      forall x | x in Insert(m, rest) ensures x.operationId != sorted[0].operationId {
        InsertHas(m, rest, x);
      }
    }
  }

  lemma {:induction false} SortDistinct(mutations: seq<Mutation>)
    requires DistinctOperations(mutations)
    ensures DistinctOperations(Sort(mutations))
  {
    if mutations != [] {
      var rest := mutations[1..];
      assert forall i :: 0 <= i < |rest| ==> rest[i] == mutations[i + 1];
      SortDistinct(rest);
      forall x | x in Sort(rest) ensures x.operationId != mutations[0].operationId {
        SortHas(rest, x);
      }
      InsertDistinct(mutations[0], Sort(rest));
    }
  }

  lemma {:induction false} TakeReadyDistinct(all: seq<Mutation>, ordered: seq<Mutation>, now: int)
    requires DistinctOperations(ordered)
    ensures DistinctOperations(TakeReady(all, ordered, now))
  {
    hide ReadyAt, Unblocked;
    if ordered != [] {
      var rest := ordered[1..];
      assert forall i :: 0 <= i < |rest| ==> rest[i] == ordered[i + 1];
      TakeReadyDistinct(all, rest, now);
      forall x | x in TakeReady(all, rest, now) ensures x.operationId != ordered[0].operationId {
        TakeReadySound(all, rest, now, x);
      }
    }
  }

  /** A batch names every operation once, and none of them is the one without its
      event. */
  lemma BatchDistinct(mutations: seq<Mutation>, logbook: Uuid, events: seq<Envelope>, now: int)
    requires DistinctOperations(mutations)
    ensures var batch := BatchOf(Ready(mutations, logbook, now), events);
      && Distinct(batch.operations) && Distinct(batch.missing)
      && forall id :: id in batch.operations ==> id !in batch.missing
  {
    OfLogbookDistinct(mutations, logbook);
    SortDistinct(OfLogbook(mutations, logbook));
    TakeReadyDistinct(mutations, Sort(OfLogbook(mutations, logbook)), now);
    var ready := Ready(mutations, logbook, now);
    BatchMatches(ready, events);
    hide Ready, BatchOf, LocalEvent;
  }
}
