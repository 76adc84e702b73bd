/** The queue as the object its callers hold: each operation reads the file,
    changes it and writes it back (crates/ham-core/src/sync/offline.rs:440-700). */
module QueueStore {
  import opened Basics
  import opened Event
  import opened OfflineQueue

  class JsonOfflineMutationQueue {
    var file: QueueFile

    constructor ()
      ensures file == QueueFile(map[], [])
    {
      file := QueueFile(map[], []);
    }

    method EnqueueInput(input: Input, newId: Uuid, newKey: string, now: int) returns (r: Option<Mutation>)
      modifies this
      ensures Enqueued(r, file) == Enqueue(old(file), input, newId, newKey, now)
    {
      hide Existing, MutationValid, NextSequence;
      var existing := Existing(file.mutations, input);
      if existing.Some? {
        return existing;
      }
      var m := NewMutation(input, NextSequence(file, input.logbookId), newId, newKey, now);
      if !MutationValid(m) {
        return None;
      }
      file := QueueFile(file.nextSequence[m.logbookId := m.sequence + 1], file.mutations + [m]);
      return Some(m);
    }

    /** update_mutation, with the change each caller passes it. */
    method UpdateMutation(id: Uuid, c: Change, now: int) returns (found: bool)
      modifies this
      ensures file == Update(old(file), id, c, now)
      ensures found <==> FindOperation(old(file).mutations, id).Some?
    {
      var i := FindOperation(file.mutations, id);
      if i.None? {
        return false;
      }
      file := file.(mutations := file.mutations[i.value := Changed(c, file.mutations[i.value], now)]);
      return true;
    }

    method MarkAcceptedByEventHashes(hashes: set<string>, now: int) returns (accepted: nat)
      modifies this
      ensures file == old(file).(mutations := AcceptHashes(old(file).mutations, hashes, now))
      ensures accepted == NewlyAccepted(old(file).mutations, hashes)
    {
      var mutations;
      mutations, accepted := AcceptLoop(file.mutations, hashes, now);
      file := file.(mutations := mutations);
    }

    method RecoverInterruptedWrites(now: int) returns (recovered: nat)
      modifies this
      ensures file == old(file).(mutations := Recover(old(file).mutations, now))
      ensures recovered == CountSending(old(file).mutations)
      ensures CountSending(file.mutations) == 0
    {
      var mutations;
      mutations, recovered := RecoverLoop(file.mutations, now);
      RecoveredNone(file.mutations, now);
      file := file.(mutations := mutations);
    }
  }

  function CountSending(mutations: seq<Mutation>): nat {
    if mutations == [] then 0
    else CountSending(mutations[..|mutations| - 1]) + if mutations[|mutations| - 1].status == Sending then 1 else 0
  }

  function NewlyAccepted(mutations: seq<Mutation>, hashes: set<string>): nat {
    if mutations == [] then 0
    else
      var m := mutations[|mutations| - 1];
      NewlyAccepted(mutations[..|mutations| - 1], hashes) +
      if m.localEventHash.Some? && m.localEventHash.value in hashes && m.status != Accepted then 1 else 0
  }

  method AcceptLoop(before: seq<Mutation>, hashes: set<string>, now: int) returns (mutations: seq<Mutation>, accepted: nat)
    ensures mutations == AcceptHashes(before, hashes, now) && accepted == NewlyAccepted(before, hashes)
  {
    mutations, accepted := before, 0;
    for i := 0 to |before|
      invariant |mutations| == |before| && accepted == NewlyAccepted(before[..i], hashes)
      invariant forall k :: 0 <= k < i ==> mutations[k] == AcceptOne(before[k], hashes, now)
      invariant forall k :: i <= k < |before| ==> mutations[k] == before[k]
    {
      hide AcceptOne;
      assert before[..i + 1][..i] == before[..i];
      var m := before[i];
      if m.localEventHash.Some? && m.localEventHash.value in hashes && m.status != Accepted {
        accepted := accepted + 1;
      }
      mutations := mutations[i := AcceptOne(m, hashes, now)];
    }
    assert before[..|before|] == before;
  }

  method RecoverLoop(before: seq<Mutation>, now: int) returns (mutations: seq<Mutation>, recovered: nat)
    ensures mutations == Recover(before, now) && recovered == CountSending(before)
  {
    mutations, recovered := before, 0;
    for i := 0 to |before|
      invariant |mutations| == |before| && recovered == CountSending(before[..i])
      invariant forall k :: 0 <= k < i ==> mutations[k] == RecoverOne(before[k], now)
      invariant forall k :: i <= k < |before| ==> mutations[k] == before[k]
    {
      hide RecoverOne;
      assert before[..i + 1][..i] == before[..i];
      if before[i].status == Sending {
        recovered := recovered + 1;
      }
      mutations := mutations[i := RecoverOne(before[i], now)];
    }
    assert before[..|before|] == before;
  }

  /** After recovery nothing is left in the middle of being sent. */
  lemma {:induction false} RecoveredNone(mutations: seq<Mutation>, now: int)
    ensures CountSending(Recover(mutations, now)) == 0
  {
    if mutations != [] {
      var n := |mutations| - 1;
      RecoveredNone(mutations[..n], now);
      assert Recover(mutations, now)[..n] == Recover(mutations[..n], now);
    }
  }

  // ----- changing several mutations -----

  /** One change to each of several operations, in turn. */
  function UpdateAll(file: QueueFile, ids: seq<Uuid>, c: Change, now: int): QueueFile {
    if ids == [] then file else Update(UpdateAll(file, ids[..|ids| - 1], c, now), ids[|ids| - 1], c, now)
  }

  method UpdateEach(queue: JsonOfflineMutationQueue, ids: seq<Uuid>, c: Change, now: int)
    modifies queue
    ensures queue.file == UpdateAll(old(queue.file), ids, c, now)
  {
    hide Update;
    assert ids[..0] == [];
    for i := 0 to |ids|
      invariant queue.file == UpdateAll(old(queue.file), ids[..i], c, now)
    {
      assert ids[..i + 1][..i] == ids[..i];
      var _ := queue.UpdateMutation(ids[i], c, now);
    }
    assert ids[..|ids|] == ids;
  }

  /** Enqueueing keeps operation ids apart exactly when it stores nothing or the id
      of the new entry is not in the file, under any logbook. */
  lemma EnqueueKeepsDistinct(file: QueueFile, input: Input, newId: Uuid, newKey: string, now: int)
    requires DistinctOperations(file.mutations)
    ensures var r := Enqueue(file, input, newId, newKey, now);
      DistinctOperations(r.file.mutations) <==>
      r.file == file || FindOperation(file.mutations, input.operationId.GetOr(newId)).None?
  {
    hide Existing, MutationValid, NextSequence, FindOperation;
    var r := Enqueue(file, input, newId, newKey, now);
    var n := |file.mutations|;
    var found := FindOperation(file.mutations, input.operationId.GetOr(newId));
    if |r.file.mutations| > n {
      assert r.file.mutations[n].operationId == input.operationId.GetOr(newId);
      assert found.Some? ==> r.file.mutations[found.value].operationId == r.file.mutations[n].operationId;
      assert forall i :: 0 <= i < n ==> r.file.mutations[i] == file.mutations[i];
    }
  }

  /** The states a change can leave its mutation in. */
  function Outcomes(c: Change): set<Status> {
    match c
    case ToSending => {Sending}
    case ToTransientFailure(_, _) => {Retrying, Failed}
    case ToBlocked(_) => {Blocked}
    case ToUserAction(_, _) => {UserActionRequired}
    case ToLocalEvent(_) => {Pending, Sending, Retrying, Accepted}
  }

  /** What one update does to the mutation at each position. */
  lemma UpdateAt(file: QueueFile, id: Uuid, c: Change, now: int, k: nat)
    requires DistinctOperations(file.mutations) && k < |file.mutations|
    ensures var after := Update(file, id, c, now).mutations;
      && |after| == |file.mutations| && DistinctOperations(after)
      && after[k] == if file.mutations[k].operationId == id then Changed(c, file.mutations[k], now) else file.mutations[k]
  {
  }

  lemma NamedAmongFirst(ids: seq<Uuid>, id: Uuid)
    requires ids != [] && Distinct(ids)
    ensures id in ids <==> id in ids[..|ids| - 1] || id == ids[|ids| - 1]
    ensures id == ids[|ids| - 1] ==> id !in ids[..|ids| - 1]
    ensures Distinct(ids[..|ids| - 1])
  {
  }

  /** Changing each of several different operations once. */
  lemma {:induction false} UpdateAllOnce(file: QueueFile, ids: seq<Uuid>, c: Change, now: int, k: nat)
    requires DistinctOperations(file.mutations) && Distinct(ids) && k < |file.mutations|
    ensures var after := UpdateAll(file, ids, c, now).mutations; var m := file.mutations[k];
      && |after| == |file.mutations| && DistinctOperations(after)
      && after[k] == if m.operationId in ids then Changed(c, m, now) else m
  {
    hide Update, DistinctOperations, Distinct, Changed;
    if ids != [] {
      var n := |ids| - 1;
      NamedAmongFirst(ids, file.mutations[k].operationId);
      UpdateAllOnce(file, ids[..n], c, now, k);
      UpdateAt(UpdateAll(file, ids[..n], c, now), ids[n], c, now, k);
      ChangedKeepsId(c, file.mutations[k], now);
    }
  }

  lemma ChangedKeepsId(c: Change, m: Mutation, now: int)
    ensures Changed(c, m, now).operationId == m.operationId
  {
  }

  /** Several updates leave the named mutations in a state of the change, with their
      entry and event hash as they were, and the others untouched. */
  lemma {:induction false} UpdateAllAt(file: QueueFile, ids: seq<Uuid>, c: Change, now: int, k: nat)
    requires DistinctOperations(file.mutations) && k < |file.mutations| && !c.ToLocalEvent?
    ensures var after := UpdateAll(file, ids, c, now).mutations; var m := file.mutations[k];
      && |after| == |file.mutations| && DistinctOperations(after)
      && SameEntry(m, after[k]) && after[k].localEventHash == m.localEventHash
      && (if m.operationId in ids then after[k].status in Outcomes(c) else after[k] == m)
  {
    hide Update, DistinctOperations;
    if ids != [] {
      var n := |ids| - 1;
      UpdateAllAt(file, ids[..n], c, now, k);
      var before := UpdateAll(file, ids[..n], c, now);
      UpdateAt(before, ids[n], c, now, k);
      assert forall id :: id in ids <==> id in ids[..n] || id == ids[n];
    }
  }

  lemma {:induction false} UpdateAllValid(file: QueueFile, ids: seq<Uuid>, c: Change, now: int)
    requires FileValid(file)
    ensures FileValid(UpdateAll(file, ids, c, now))
  {
    hide FileValid, Update;
    if ids != [] {
      UpdateAllValid(file, ids[..|ids| - 1], c, now);
      UpdateValid(UpdateAll(file, ids[..|ids| - 1], c, now), ids[|ids| - 1], c, now);
    }
  }
}
