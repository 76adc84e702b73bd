/** Verification of a whole hash chain (`backup_events` in serve.rs) and what an
    accepted chain guarantees. */
module Chain {
  import opened Basics
  import opened Event

  /** The hash the event at position i must point back to. */
  function PreviousOf(events: seq<Envelope>, i: nat): Option<string>
    requires i <= |events|
  {
    if i == 0 then None else Some(events[i - 1].eventHash)
  }

  function Head(events: seq<Envelope>): Option<string> {
    PreviousOf(events, |events|)
  }

  ghost predicate LinkAt(h: HashFunction, events: seq<Envelope>, i: nat)
    requires i < |events|
  {
    events[i].HashIsValid(h) && events[i].previousHash == PreviousOf(events, i)
  }

  ghost predicate Linked(h: HashFunction, events: seq<Envelope>) {
    forall i {:trigger LinkAt(h, events, i)} :: 0 <= i < |events| ==> LinkAt(h, events, i)
  }

  ghost predicate DistinctIds(events: seq<Envelope>) {
    forall i, j :: 0 <= i < j < |events| ==> events[i].eventId != events[j].eventId
  }

  ghost predicate ValidChain(h: HashFunction, events: seq<Envelope>) {
    Linked(h, events) && DistinctIds(events)
  }

  datatype ChainError =
    | RepeatedId(eventId: Uuid)
    | InvalidHash(eventId: Uuid)
    | BrokenContinuity(eventId: Uuid)

  /** The fault reported for position i, when everything before it is sound:
      a repeated id first, then the hash, then continuity. */
  ghost function FaultAt(h: HashFunction, events: seq<Envelope>, i: nat): Option<ChainError>
    requires i < |events|
  {
    if exists j :: 0 <= j < i && events[j].eventId == events[i].eventId then Some(RepeatedId(events[i].eventId))
    else if !events[i].HashIsValid(h) then Some(InvalidHash(events[i].eventId))
    else if events[i].previousHash != PreviousOf(events, i) then Some(BrokenContinuity(events[i].eventId))
    else None
  }

  /** The first i events are sound, seen inside the longer chain. */
  ghost predicate SoundBefore(h: HashFunction, events: seq<Envelope>, i: nat)
    requires i <= |events|
  {
    && (forall j {:trigger LinkAt(h, events, j)} :: 0 <= j < i ==> LinkAt(h, events, j))
    && (forall j, k :: 0 <= j < k < i ==> events[j].eventId != events[k].eventId)
  }

  lemma SoundBeforeIsValidPrefix(h: HashFunction, events: seq<Envelope>, i: nat)
    requires i <= |events|
    ensures SoundBefore(h, events, i) <==> ValidChain(h, events[..i])
  {
    forall j: nat | j < i
      ensures LinkAt(h, events[..i], j) <==> LinkAt(h, events, j)
    {
    }
    assert forall j :: 0 <= j < i ==> events[..i][j] == events[j];
  }

  /** serve.rs `backup_events` after deserialisation. */
  method BackupEvents(h: HashFunction, events: seq<Envelope>) returns (r: Result<seq<Envelope>, ChainError>)
    ensures r.Ok? <==> ValidChain(h, events)
    ensures r.Ok? ==> r.value == events
    ensures r.Err? ==> exists i :: 0 <= i < |events| && ValidChain(h, events[..i]) && FaultAt(h, events, i) == Some(r.error)
  {
    var previousHash: Option<string> := None;
    var seen: set<Uuid> := {};
    for i := 0 to |events|
      invariant previousHash == PreviousOf(events, i)
      invariant seen == set j | 0 <= j < i :: events[j].eventId
      invariant SoundBefore(h, events, i)
    {
      var event := events[i];
      SoundBeforeIsValidPrefix(h, events, i);
      if event.eventId in seen {
        assert FaultAt(h, events, i) == Some(RepeatedId(event.eventId));
        return Err(RepeatedId(event.eventId));
      }
      seen := seen + {event.eventId};
      if !event.HashIsValid(h) {
        assert !LinkAt(h, events, i) && FaultAt(h, events, i) == Some(InvalidHash(event.eventId));
        return Err(InvalidHash(event.eventId));
      }
      if event.previousHash != previousHash {
        assert !LinkAt(h, events, i) && FaultAt(h, events, i) == Some(BrokenContinuity(event.eventId));
        return Err(BrokenContinuity(event.eventId));
      }
      previousHash := Some(event.eventHash);
    }
    return Ok(events);
  }

  lemma ChainPrefix(h: HashFunction, events: seq<Envelope>, k: nat)
    requires ValidChain(h, events) && k <= |events|
    ensures ValidChain(h, events[..k])
  {
    SoundBeforeIsValidPrefix(h, events, k);
  }

  lemma LinkedExtends(h: HashFunction, events: seq<Envelope>, e: Envelope)
    ensures Linked(h, events + [e]) <==> Linked(h, events) && e.HashIsValid(h) && e.previousHash == Head(events)
  {
    var longer := events + [e];
    assert LinkAt(h, longer, |events|) <==> e.HashIsValid(h) && e.previousHash == Head(events);
    forall i: nat | i < |events| ensures LinkAt(h, longer, i) <==> LinkAt(h, events, i) {
    }
  }

  lemma ChainExtends(h: HashFunction, events: seq<Envelope>, e: Envelope)
    requires ValidChain(h, events)
    ensures ValidChain(h, events + [e]) <==>
      e.HashIsValid(h) && e.previousHash == Head(events) &&
      forall i :: 0 <= i < |events| ==> events[i].eventId != e.eventId
  {
    LinkedExtends(h, events, e);
    var longer := events + [e];
    if DistinctIds(longer) {
      forall i | 0 <= i < |events| ensures events[i].eventId != e.eventId {
        assert longer[i] == events[i] && longer[|events|] == e;
      }
    }
  }

  lemma LinkedPrefix(h: HashFunction, events: seq<Envelope>, k: nat)
    requires Linked(h, events) && k <= |events|
    ensures Linked(h, events[..k])
  {
    forall i: nat | i < k ensures LinkAt(h, events[..k], i) {
      assert LinkAt(h, events, i);
    }
  }

  ghost function Members(a: seq<Envelope>, b: seq<Envelope>): set<Envelope> {
    (set e | e in a) + (set e | e in b)
  }

  /** One step back: an event shared by two chains is the same event, and so
      points to the same predecessor. */
  lemma SharedEvent(h: HashFunction, a: seq<Envelope>, b: seq<Envelope>, i: nat, j: nat)
    requires Linked(h, a) && Linked(h, b) && CollisionFree(h, Members(a, b))
    requires i < |a| && j < |b| && a[i].eventHash == b[j].eventHash
    ensures a[i] == b[j] && PreviousOf(a, i) == PreviousOf(b, j)
  {
    assert LinkAt(h, a, i) && LinkAt(h, b, j);
    HashDeterminesEvent(h, Members(a, b), a[i], b[j]);
  }

  /** A hash that occurs in two accepted chains occurs at one position, and the
      chains agree up to and including it. */
  lemma {:induction false} SharedAncestry(h: HashFunction, a: seq<Envelope>, b: seq<Envelope>, i: nat, j: nat)
    requires Linked(h, a) && Linked(h, b) && CollisionFree(h, Members(a, b))
    requires i < |a| && j < |b| && a[i].eventHash == b[j].eventHash
    ensures i == j && forall k :: 0 <= k <= i ==> a[k] == b[k]
    decreases i
  {
    SharedEvent(h, a, b, i, j);
    if i > 0 && j > 0 {
      SharedAncestry(h, a, b, i - 1, j - 1);
    }
  }

  /** Two accepted chains share a hash exactly at the positions of their common
      prefix, whichever pair of positions is compared. */
  lemma SharedHashes(h: HashFunction, a: seq<Envelope>, b: seq<Envelope>, i: nat, j: nat)
    requires Linked(h, a) && Linked(h, b) && CollisionFree(h, Members(a, b))
    requires i < |a| && j < |b|
    ensures a[i].eventHash == b[j].eventHash <==> i == j < CommonPrefix(a, b)
  {
    var k := CommonPrefix(a, b);
    if i < k {
      assert a[i] == a[..k][i] == b[..k][i] == b[i];
    }
    if a[i].eventHash == b[j].eventHash {
      SharedAncestry(h, a, b, i, j);
    }
  }

  /** So two accepted chains are equal, or one is a proper prefix of the other,
      or they fork once: from a common predecessor into different hashes that
      never meet again. */
  lemma ForkOnce(h: HashFunction, a: seq<Envelope>, b: seq<Envelope>)
    requires Linked(h, a) && Linked(h, b) && CollisionFree(h, Members(a, b))
    ensures var k := CommonPrefix(a, b);
      a == b || (k == |a| < |b|) || (k == |b| < |a|) ||
      (k < |a| && k < |b| && a[k].previousHash == b[k].previousHash &&
       forall i, j :: k <= i < |a| && 0 <= j < |b| ==> a[i].eventHash != b[j].eventHash)
  {
    var k := CommonPrefix(a, b);
    if k < |a| && k < |b| {
      forall i, j | k <= i < |a| && 0 <= j < |b|
        ensures a[i].eventHash != b[j].eventHash
      {
        SharedHashes(h, a, b, i, j);
      }
      assert LinkAt(h, a, k) && LinkAt(h, b, k);
      assert k > 0 ==> a[..k][k - 1] == b[..k][k - 1];
    } else if k == |a| == |b| {
      assert a == a[..k] == b[..k] == b;
    }
  }

  /** Comparing heads is enough: equal heads mean equal histories. */
  lemma SameHeadSameHistory(h: HashFunction, a: seq<Envelope>, b: seq<Envelope>)
    requires Linked(h, a) && Linked(h, b) && CollisionFree(h, Members(a, b))
    ensures Head(a) == Head(b) <==> a == b
  {
    if Head(a) == Head(b) && a != [] && b != [] {
      SharedAncestry(h, a, b, |a| - 1, |b| - 1);
    }
  }
}
