/** The current QSOs as a fold over official events
    (crates/ham-core/src/projection.rs:282-371). */
module Projection {
  import opened Basics
  import opened Event
  import Json
  import UuidText

  const QSO_CREATED := "official.log.qso.created"
  const QSO_CORRECTED := "official.log.qso.corrected"
  const QSO_DELETED := "official.log.qso.deleted"
  const QSO_RESTORED := "official.log.qso.restored"

  datatype Qso = Qso(id: Uuid, payload: Json.Value, deleted: bool)

  type Qsos = map<Uuid, Qso>

  /** payload["qso_id"] = id, on an object or on null. */
  function WithQsoId(payload: Json.Value, id: Uuid): Option<Json.Value> {
    match payload
    case Object(fields) => Some(Json.Object(fields["qso_id" := Json.Str(UuidText.ShowUuid(id))]))
    case Null => Some(Json.Object(map["qso_id" := Json.Str(UuidText.ShowUuid(id))]))
    case _ => None
  }

  /** merge_json_object: the patch must be an object; its keys win. */
  function Merge(target: Json.Value, patch: Json.Value): Option<Json.Value> {
    if !patch.Object? then None
    else Some(Json.Object((if target.Object? then target.fields else map[]) + patch.fields))
  }

  /** apply: None when the event cannot be folded in. */
  function Apply(p: Qsos, e: Envelope): Option<Qsos> {
    if e.entityId.None? then Some(p)
    else
      var id := e.entityId.value;
      if e.eventType == QSO_CREATED then
        match WithQsoId(e.payload, id)
        case None => None
        case Some(payload) => Some(p[id := Qso(id, payload, false)])
      else if id !in p then Some(p)
      else if e.eventType == QSO_CORRECTED then
        match Merge(p[id].payload, e.payload)
        case None => None
        case Some(payload) => Some(p[id := p[id].(payload := payload)])
      else if e.eventType == QSO_DELETED then Some(p[id := p[id].(deleted := true)])
      else if e.eventType == QSO_RESTORED then Some(p[id := p[id].(deleted := false)])
      else Some(p)
  }

  /** rebuild: the first event that cannot be applied spoils the projection. */
  function Rebuild(log: seq<Envelope>): Option<Qsos> {
    if log == [] then Some(map[])
    else
      match Rebuild(log[..|log| - 1])
      case None => None
      case Some(p) => Apply(p, log[|log| - 1])
  }

  lemma RebuildSnoc(log: seq<Envelope>, e: Envelope)
    ensures Rebuild(log + [e]) == match Rebuild(log) case None => None case Some(p) => Apply(p, e)
  {
    assert (log + [e])[..|log|] == log;
  }

  // ----- what the projection holds, read off the events -----

  predicate Does(e: Envelope, eventType: string, id: Uuid) {
    e.eventType == eventType && e.entityId == Some(id)
  }

  /** The QSO had been created before event i. */
  predicate Begun(log: seq<Envelope>, i: int, id: Uuid)
    requires 0 <= i <= |log|
  {
    exists j :: 0 <= j < i && Does(log[j], QSO_CREATED, id)
  }

  /** Event i can be folded in: a QSO is created from an object or from nothing, and one
      that exists is corrected by an object. */
  predicate Usable(log: seq<Envelope>, i: int)
    requires 0 <= i < |log|
  {
    var e := log[i];
    e.entityId.Some? ==>
      && (e.eventType == QSO_CREATED ==> e.payload.Object? || e.payload.Null?)
      && (e.eventType == QSO_CORRECTED && Begun(log, i, e.entityId.value) ==> e.payload.Object?)
  }

  /** Event i deletes a QSO that exists, and nothing after it restores it or creates
      it again. */
  predicate DeletesLast(log: seq<Envelope>, i: int, id: Uuid)
    requires 0 <= i < |log|
  {
    && Does(log[i], QSO_DELETED, id) && Begun(log, i, id)
    && forall k :: i < k < |log| ==> !Does(log[k], QSO_RESTORED, id) && !Does(log[k], QSO_CREATED, id)
  }

  /** An event that gives a key of a QSO its value. */
  predicate Sets(e: Envelope, id: Uuid, key: string) {
    Does(e, QSO_CREATED, id) || (Does(e, QSO_CORRECTED, id) && e.payload.Get(key).Some?)
  }

  lemma BegunSnoc(log: seq<Envelope>, i: int, id: Uuid)
    requires 0 <= i < |log|
    ensures Begun(log[..|log| - 1], i, id) <==> Begun(log, i, id)
    ensures Begun(log, |log|, id) <==> Begun(log, |log| - 1, id) || Does(log[|log| - 1], QSO_CREATED, id)
  {
  }

  lemma UsableSnoc(log: seq<Envelope>, i: int)
    requires 0 <= i < |log| - 1
    ensures Usable(log[..|log| - 1], i) <==> Usable(log, i)
  {
    if log[i].entityId.Some? {
      BegunSnoc(log, i, log[i].entityId.value);
    }
    hide Begun;
  }

  /** A log can be folded exactly when every event can, and the projection holds the
      QSOs that were created. */
  lemma {:induction false} RebuildsIff(log: seq<Envelope>)
    ensures Rebuild(log).Some? <==> forall i :: 0 <= i < |log| ==> Usable(log, i)
    ensures Rebuild(log).Some? ==> forall id :: id in Rebuild(log).value <==> Begun(log, |log|, id)
  {
    if log != [] {
      var n := |log| - 1;
      RebuildsIff(log[..n]);
      forall i | 0 <= i < n ensures Usable(log[..n], i) <==> Usable(log, i) {
        UsableSnoc(log, i);
      }
      forall id ensures Begun(log[..n], n, id) <==> Begun(log, n, id) {
        BegunSnoc(log, n, id);
      }
      forall id ensures Begun(log, |log|, id) <==> Begun(log, n, id) || Does(log[n], QSO_CREATED, id) {
        BegunSnoc(log, n, id);
      }
      if Rebuild(log[..n]).Some? {
        AppliesIff(Rebuild(log[..n]).value, log[n]);
        assert Usable(log, n) <==> Apply(Rebuild(log[..n]).value, log[n]).Some?;
      } else {
        var i :| 0 <= i < n && !Usable(log[..n], i);
        assert !Usable(log, i);
      }
    }
  }

  lemma AppliesIff(p: Qsos, e: Envelope)
    ensures Apply(p, e).Some? <==>
      (e.entityId.Some? ==>
         && (e.eventType == QSO_CREATED ==> e.payload.Object? || e.payload.Null?)
         && (e.eventType == QSO_CORRECTED && e.entityId.value in p ==> e.payload.Object?))
    ensures Apply(p, e).Some? ==> forall id :: id in Apply(p, e).value <==> id in p || Does(e, QSO_CREATED, id)
  {
    TypesDiffer();
  }

  /** A QSO is deleted exactly when it was last deleted after it was last created or
      restored; deleting one that does not exist has no effect. */
  lemma {:induction false} DeletedIff(log: seq<Envelope>, id: Uuid)
    requires Rebuild(log).Some?
    ensures (id in Rebuild(log).value && Rebuild(log).value[id].deleted) <==>
      exists i :: 0 <= i < |log| && DeletesLast(log, i, id)
  {
    if log != [] {
      var n := |log| - 1;
      DeletedIff(log[..n], id);
      RebuildsIff(log[..n]);
      assert Rebuild(log) == Apply(Rebuild(log[..n]).value, log[n]);
      assert id in Rebuild(log[..n]).value <==> Begun(log, n, id) by {
        BegunSnoc(log, n, id);
      }
      hide *;
      DeletedAfter(Rebuild(log[..n]).value, log[n], id);
      DeletesLastSnoc(log, id);
    }
  }

  lemma DeletedAfter(p: Qsos, e: Envelope, id: Uuid)
    requires Apply(p, e).Some?
    ensures var p' := Apply(p, e).value;
      (id in p' && p'[id].deleted) <==>
        || (id in p && Does(e, QSO_DELETED, id))
        || (id in p && p[id].deleted && !Does(e, QSO_RESTORED, id) && !Does(e, QSO_CREATED, id))
  {
    TypesDiffer();
  }

  lemma DeletesLastSnoc(log: seq<Envelope>, id: Uuid)
    requires log != []
    ensures var n := |log| - 1;
      (exists i :: 0 <= i < |log| && DeletesLast(log, i, id)) <==>
        || (Begun(log, n, id) && Does(log[n], QSO_DELETED, id))
        || ((exists i :: 0 <= i < n && DeletesLast(log[..n], i, id)) &&
            !Does(log[n], QSO_RESTORED, id) && !Does(log[n], QSO_CREATED, id))
  {
    var n := |log| - 1;
    forall i | 0 <= i < n
      ensures DeletesLast(log, i, id) <==>
        DeletesLast(log[..n], i, id) && !Does(log[n], QSO_RESTORED, id) && !Does(log[n], QSO_CREATED, id)
    {
      BegunSnoc(log, i, id);
      hide Begun, Does;
      assert forall k :: i < k < n ==> log[..n][k] == log[k];
    }
    assert DeletesLast(log, n, id) <==> Does(log[n], QSO_DELETED, id) && Begun(log, n, id);
    hide *;
    if i :| 0 <= i < n && DeletesLast(log[..n], i, id) {
      if !Does(log[n], QSO_RESTORED, id) && !Does(log[n], QSO_CREATED, id) {
        assert DeletesLast(log, i, id);
      }
    }
  }

  lemma TypesDiffer()
    ensures QSO_DELETED !in {QSO_CREATED, QSO_RESTORED, QSO_CORRECTED} && QSO_RESTORED !in {QSO_CREATED, QSO_CORRECTED}
    ensures QSO_CREATED != QSO_CORRECTED
  {
    assert |QSO_CREATED| == 24 && |QSO_CORRECTED| == 26;
    assert QSO_DELETED[17] == 'd' && QSO_CREATED[17] == 'c' && QSO_RESTORED[17] == 'r';
  }

  /** Every key of a QSO has the value the last event gave it that set it, a creation
      setting every key; a creation puts the QSO's own id under qso_id. */
  lemma {:induction false} LastValueStands(log: seq<Envelope>, id: Uuid, key: string, i: int)
    requires Rebuild(log).Some? && 0 <= i < |log|
    requires Sets(log[i], id, key) && Begun(log, i + 1, id)
    requires forall k :: i < k < |log| ==> !Sets(log[k], id, key)
    ensures id in Rebuild(log).value
    ensures Rebuild(log).value[id].payload.Get(key) ==
      if key == "qso_id" && Does(log[i], QSO_CREATED, id) then Some(Json.Str(UuidText.ShowUuid(id))) else log[i].payload.Get(key)
  {
    var n := |log| - 1;
    var before := log[..n];
    RebuildsIff(before);
    BegunSnoc(log, n, id);
    TypesDiffer();
    if i < n {
      BegunSnoc(log, i + 1, id);
      LastValueStands(before, id, key, i);
      ValueStays(Rebuild(before).value, log[n], id, key);
    } else {
      hide Rebuild, Begun;
      assert Rebuild(log) == Apply(Rebuild(before).value, log[n]);
      ValueSet(Rebuild(before).value, log[n], id, key);
    }
  }

  lemma ValueStays(p: Qsos, e: Envelope, id: Uuid, key: string)
    requires id in p && Apply(p, e).Some? && !Sets(e, id, key)
    ensures id in Apply(p, e).value && Apply(p, e).value[id].payload.Get(key) == p[id].payload.Get(key)
  {
  }

  lemma ValueSet(p: Qsos, e: Envelope, id: Uuid, key: string)
    requires Apply(p, e).Some? && Sets(e, id, key) && (id in p || Does(e, QSO_CREATED, id))
    ensures id in Apply(p, e).value
    ensures Apply(p, e).value[id].payload.Get(key) ==
      if key == "qso_id" && Does(e, QSO_CREATED, id) then Some(Json.Str(UuidText.ShowUuid(id))) else e.payload.Get(key)
  {
    TypesDiffer();
  }
}
