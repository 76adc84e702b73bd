/** The LAN trust store (crates/ham-core/src/sync/offline.rs:1986-2395): trusted
    devices and the nonces of requests seen recently. Pairing tokens are not part
    of this model. */
module LanTrust {
  import opened Basics

  datatype Device = Device(
    deviceId: Uuid,
    displayName: string,
    logbookIds: seq<Uuid>,
    trustedAt: int,
    revokedAt: Option<int>,
    credentialId: Option<Uuid>,
    rotatedAt: Option<int>,
    lastSeenAt: Option<int>)

  datatype NonceRecord = NonceRecord(deviceId: Uuid, nonceHash: string, seenAt: int, expiresAt: int)

  datatype TrustFile = TrustFile(devices: seq<Device>, nonces: seq<NonceRecord>)

  datatype TrustError =
    | DeviceNotFound(deviceId: Uuid)
    | DeviceRevoked(deviceId: Uuid)
    | WrongLogbook(deviceId: Uuid, logbookId: Uuid)
    | CredentialUnchanged(deviceId: Uuid)
    | ReplayDetected(deviceId: Uuid)

  /** SHA-256 of a device and a nonce, in hexadecimal. */
  type NonceHash = (Uuid, string) -> string

  /** Times are nanoseconds. */
  const NONCE_TTL: int := 600 * 1_000_000_000

  function FindDevice(devices: seq<Device>, id: Uuid): (r: Option<nat>)
    ensures r.Some? ==>
      r.value < |devices| && devices[r.value].deviceId == id && forall i :: 0 <= i < r.value ==> devices[i].deviceId != id
    ensures r.None? ==> forall i :: 0 <= i < |devices| ==> devices[i].deviceId != id
  {
    if devices == [] then None
    else if devices[0].deviceId == id then Some(0)
    else
      match FindDevice(devices[1..], id)
      case None => None
      case Some(i) => Some(i + 1)
  }

  /** trusted_peer, and the same checks inside authorize_peer. */
  function CheckPeer(file: TrustFile, id: Uuid, logbook: Uuid): (r: Result<Device, TrustError>)
    ensures r.Ok? ==> r.value.deviceId == id && r.value.revokedAt.None? && logbook in r.value.logbookIds
  {
    match FindDevice(file.devices, id)
    case None => Err(DeviceNotFound(id))
    case Some(i) =>
      if file.devices[i].revokedAt.Some? then Err(DeviceRevoked(id))
      else if logbook !in file.devices[i].logbookIds then Err(WrongLogbook(id, logbook))
      else Ok(file.devices[i])
  }

  /** retain: records that expired before now go. */
  function Pruned(nonces: seq<NonceRecord>, now: int): seq<NonceRecord> {
    if nonces == [] then []
    else if nonces[0].expiresAt >= now then [nonces[0]] + Pruned(nonces[1..], now)
    else Pruned(nonces[1..], now)
  }

  lemma {:induction false} PrunedKeeps(nonces: seq<NonceRecord>, now: int, r: NonceRecord)
    ensures r in Pruned(nonces, now) <==> r in nonces && r.expiresAt >= now
  {
    if nonces != [] {
      PrunedKeeps(nonces[1..], now, r);
      assert r in nonces <==> r == nonces[0] || r in nonces[1..];
    }
  }

  predicate Seen(nonces: seq<NonceRecord>, id: Uuid, nonceHash: string) {
    exists i :: 0 <= i < |nonces| && nonces[i].deviceId == id && nonces[i].nonceHash == nonceHash
  }

  datatype Outcome = Outcome(result: Result<Device, TrustError>, file: TrustFile)

  /** authorize_peer: the file is saved, pruned and with the new nonce, only when
      every check passes. */
  function Authorize(hash: NonceHash, file: TrustFile, id: Uuid, logbook: Uuid, nonce: string, now: int): Outcome {
    var kept := Pruned(file.nonces, now);
    if Seen(kept, id, hash(id, nonce)) then Outcome(Err(ReplayDetected(id)), file)
    else
      match CheckPeer(file, id, logbook)
      case Err(error) => Outcome(Err(error), file)
      case Ok(device) =>
        var i := FindDevice(file.devices, id).value;
        var seen := device.(lastSeenAt := Some(now));
        Outcome(
          Ok(seen),
          TrustFile(file.devices[i := seen], kept + [NonceRecord(id, hash(id, nonce), now, now + NONCE_TTL)]))
  }

  function Revoke(file: TrustFile, id: Uuid, now: int): Outcome {
    match FindDevice(file.devices, id)
    case None => Outcome(Err(DeviceNotFound(id)), file)
    case Some(i) =>
      var device := file.devices[i].(revokedAt := Some(now));
      Outcome(Ok(device), file.(devices := file.devices[i := device]))
  }

  /** trust_peer_with_auth_credential: replaces the device with that id, or adds it. */
  function Trust(file: TrustFile, device: Device): Outcome {
    match FindDevice(file.devices, device.deviceId)
    case None => Outcome(Ok(device), file.(devices := file.devices + [device]))
    case Some(i) => Outcome(Ok(device), file.(devices := file.devices[i := device]))
  }

  function Rotate(file: TrustFile, id: Uuid, logbook: Uuid, credential: Uuid, now: int): Outcome {
    match CheckPeer(file, id, logbook)
    case Err(error) => Outcome(Err(error), file)
    case Ok(device) =>
      if device.credentialId == Some(credential) then Outcome(Err(CredentialUnchanged(id)), file)
      else
        var i := FindDevice(file.devices, id).value;
        var rotated := device.(credentialId := Some(credential), rotatedAt := Some(now));
        Outcome(Ok(rotated), file.(devices := file.devices[i := rotated]))
  }

  /** The store: every operation reads the file, changes it and writes it back. */
  class JsonLanTrustStore {
    var file: TrustFile

    constructor ()
      ensures file == TrustFile([], [])
    {
      file := TrustFile([], []);
    }

    method TrustedPeer(id: Uuid, logbook: Uuid) returns (r: Result<Device, TrustError>)
      ensures r == CheckPeer(file, id, logbook)
    {
      var found := FindDevice(file.devices, id);
      if found.None? {
        return Err(DeviceNotFound(id));
      }
      var device := file.devices[found.value];
      if device.revokedAt.Some? {
        return Err(DeviceRevoked(id));
      }
      if logbook !in device.logbookIds {
        return Err(WrongLogbook(id, logbook));
      }
      return Ok(device);
    }

    method AuthorizePeer(hash: NonceHash, id: Uuid, logbook: Uuid, nonce: string, now: int) returns (r: Result<Device, TrustError>)
      modifies this
      ensures Outcome(r, file) == Authorize(hash, old(file), id, logbook, nonce, now)
    {
      var nonces := Pruned(file.nonces, now);
      var nonceHash := hash(id, nonce);
      if Seen(nonces, id, nonceHash) {
        return Err(ReplayDetected(id));
      }
      var found := FindDevice(file.devices, id);
      if found.None? {
        return Err(DeviceNotFound(id));
      }
      var device := file.devices[found.value];
      if device.revokedAt.Some? {
        return Err(DeviceRevoked(id));
      }
      if logbook !in device.logbookIds {
        return Err(WrongLogbook(id, logbook));
      }
      device := device.(lastSeenAt := Some(now));
      nonces := nonces + [NonceRecord(id, nonceHash, now, now + NONCE_TTL)];
      file := TrustFile(file.devices[found.value := device], nonces);
      return Ok(device);
    }

    method RevokeDevice(id: Uuid, now: int) returns (r: Result<Device, TrustError>)
      modifies this
      ensures Outcome(r, file) == Revoke(old(file), id, now)
    {
      var found := FindDevice(file.devices, id);
      if found.None? {
        return Err(DeviceNotFound(id));
      }
      var device := file.devices[found.value].(revokedAt := Some(now));
      file := file.(devices := file.devices[found.value := device]);
      return Ok(device);
    }
  }

  // ----- runs -----

  datatype Op =
    | Authorizing(id: Uuid, logbook: Uuid, nonce: string, now: int)
    | Revoking(id: Uuid, now: int)
    | Trusting(device: Device)
    | Rotating(id: Uuid, logbook: Uuid, credential: Uuid, now: int)

  function Perform(hash: NonceHash, file: TrustFile, op: Op): Outcome {
    match op
    case Authorizing(id, logbook, nonce, now) => Authorize(hash, file, id, logbook, nonce, now)
    case Revoking(id, now) => Revoke(file, id, now)
    case Trusting(device) => Trust(file, device)
    case Rotating(id, logbook, credential, now) => Rotate(file, id, logbook, credential, now)
  }

  /** The file after a run of operations. */
  function After(hash: NonceHash, file: TrustFile, ops: seq<Op>): TrustFile {
    if ops == [] then file else Perform(hash, After(hash, file, ops[..|ops| - 1]), ops[|ops| - 1]).file
  }

  /** Operation i is an accepted authorization. */
  predicate Accepted(hash: NonceHash, file: TrustFile, ops: seq<Op>, i: nat)
    requires i < |ops|
  {
    ops[i].Authorizing? && Perform(hash, After(hash, file, ops[..i]), ops[i]).result.Ok?
  }

  /** The record an accepted authorization leaves. */
  function RecordOf(hash: NonceHash, op: Op): NonceRecord
    requires op.Authorizing?
  {
    NonceRecord(op.id, hash(op.id, op.nonce), op.now, op.now + NONCE_TTL)
  }

  /** An operation asks with the device and nonce hash of a record. */
  predicate Repeats(hash: NonceHash, op: Op, r: NonceRecord) {
    op.Authorizing? && op.id == r.deviceId && hash(op.id, op.nonce) == r.nonceHash
  }

  /** The nonce of operation i is not accepted again between i and n. */
  ghost predicate NoneBetween(hash: NonceHash, file: TrustFile, ops: seq<Op>, i: nat, n: nat)
    requires i < n <= |ops| && ops[i].Authorizing?
  {
    forall k: nat :: i < k < n && Accepted(hash, file, ops, k) ==> !Repeats(hash, ops[k], RecordOf(hash, ops[i]))
  }

  /** Between two operations, a request was accepted later than a given time. */
  ghost predicate LaterAccepted(hash: NonceHash, file: TrustFile, ops: seq<Op>, from: nat, to: nat, time: int) {
    exists k: nat :: from < k < to && k < |ops| && Accepted(hash, file, ops, k) && ops[k].now > time
  }

  /** The clock does not run backwards between authorizations. */
  ghost predicate InOrder(ops: seq<Op>) {
    forall i, j :: 0 <= i < j < |ops| && ops[i].Authorizing? && ops[j].Authorizing? ==> ops[i].now <= ops[j].now
  }

  /** Only an authorization touches the nonces, and a failed one touches nothing. */
  lemma NoncesChange(hash: NonceHash, file: TrustFile, op: Op)
    ensures var after := Perform(hash, file, op);
      && (after.result.Err? ==> after.file == file)
      && (!op.Authorizing? ==> after.file.nonces == file.nonces)
      && (op.Authorizing? && after.result.Ok? ==>
            after.file.nonces ==
            Pruned(file.nonces, op.now) + [NonceRecord(op.id, hash(op.id, op.nonce), op.now, op.now + NONCE_TTL)])
  {
  }

  /** Pruning and the replay check together: a nonce counts as seen exactly when
      some record of it has not expired. */
  lemma SeenAlive(nonces: seq<NonceRecord>, now: int, id: Uuid, nonceHash: string)
    ensures Seen(Pruned(nonces, now), id, nonceHash) <==>
      exists r :: r in nonces && r.deviceId == id && r.nonceHash == nonceHash && r.expiresAt >= now
  {
    var kept := Pruned(nonces, now);
    forall r ensures r in kept <==> r in nonces && r.expiresAt >= now {
      PrunedKeeps(nonces, now, r);
    }
    if r :| r in nonces && r.deviceId == id && r.nonceHash == nonceHash && r.expiresAt >= now {
      assert r in kept;
    }
  }

  /** The only record, if any, with the device and nonce hash of r is r. */
  ghost predicate NoOther(nonces: seq<NonceRecord>, r: NonceRecord) {
    forall x :: x in nonces && x.deviceId == r.deviceId && x.nonceHash == r.nonceHash ==> x == r
  }

  lemma AcceptanceRecords(hash: NonceHash, file: TrustFile, op: Op)
    requires op.Authorizing? && Perform(hash, file, op).result.Ok?
    ensures var r := RecordOf(hash, op);
      r in Perform(hash, file, op).file.nonces && NoOther(Perform(hash, file, op).file.nonces, r)
  {
    NoncesChange(hash, file, op);
    var kept := Pruned(file.nonces, op.now);
    assert !Seen(kept, op.id, hash(op.id, op.nonce));
    hide Perform, Seen;
  }

  /** One operation that does not renew a nonce drops its record exactly when it is
      an accepted request later than the record's expiry. */
  lemma RecordStep(hash: NonceHash, file: TrustFile, op: Op, r: NonceRecord)
    requires NoOther(file.nonces, r)
    requires op.Authorizing? && Perform(hash, file, op).result.Ok? ==> !Repeats(hash, op, r)
    ensures var after := Perform(hash, file, op);
      && NoOther(after.file.nonces, r)
      && (r in after.file.nonces <==> r in file.nonces && !(op.Authorizing? && after.result.Ok? && op.now > r.expiresAt))
  {
    NoncesChange(hash, file, op);
    hide Perform, Pruned;
    if op.Authorizing? {
      forall x ensures x in Pruned(file.nonces, op.now) <==> x in file.nonces && x.expiresAt >= op.now {
        PrunedKeeps(file.nonces, op.now, x);
      }
    }
  }

  /** After an acceptance, and until the nonce is accepted again, its record is the
      only one that fits, and it is there exactly until a later request was accepted
      past its expiry. */
  lemma {:induction false} RecordTracked(hash: NonceHash, file: TrustFile, ops: seq<Op>, i: nat, n: nat)
    requires i < n <= |ops| && Accepted(hash, file, ops, i)
    requires NoneBetween(hash, file, ops, i, n)
    ensures var r := RecordOf(hash, ops[i]); var end := After(hash, file, ops[..n]);
      && NoOther(end.nonces, r)
      && (r in end.nonces <==> !LaterAccepted(hash, file, ops, i, n, r.expiresAt))
  {
    hide Perform, NoOther, Repeats;
    var m := n - 1;
    assert ops[..n][..m] == ops[..m];
    var before := After(hash, file, ops[..m]);
    if m == i {
      AcceptanceRecords(hash, before, ops[i]);
    } else {
      var r := RecordOf(hash, ops[i]);
      RecordTracked(hash, file, ops, i, m);
      assert ops[m].Authorizing? && Perform(hash, before, ops[m]).result.Ok? ==> Accepted(hash, file, ops, m);
      RecordStep(hash, before, ops[m], r);
    }
  }

  /** When exactly a nonce accepted before is accepted again, whatever happened in
      between and whatever the clock showed: the device is still trusted for the
      logbook, and the time to live is over for this request or was over for one
      accepted since, which then dropped the record. */
  lemma ReplayAcceptedIff(hash: NonceHash, file: TrustFile, ops: seq<Op>, i: nat, j: nat)
    requires i < j < |ops| && Accepted(hash, file, ops, i)
    requires Repeats(hash, ops[j], RecordOf(hash, ops[i])) && NoneBetween(hash, file, ops, i, j)
    ensures Accepted(hash, file, ops, j) <==>
      && CheckPeer(After(hash, file, ops[..j]), ops[j].id, ops[j].logbook).Ok?
      && (ops[j].now > ops[i].now + NONCE_TTL || LaterAccepted(hash, file, ops, i, j, ops[i].now + NONCE_TTL))
  {
    var r := RecordOf(hash, ops[i]);
    var before := After(hash, file, ops[..j]);
    RecordTracked(hash, file, ops, i, j);
    SeenAlive(before.nonces, ops[j].now, r.deviceId, r.nonceHash);
    hide After, Pruned, Seen, LaterAccepted, CheckPeer, FindDevice;
    assert Accepted(hash, file, ops, j) <==>
      !Seen(Pruned(before.nonces, ops[j].now), r.deviceId, r.nonceHash) && CheckPeer(before, ops[j].id, ops[j].logbook).Ok?;
  }

  /** Whatever the clock does, a nonce is accepted twice only if some request accepted
      after the first time, possibly the second one itself, came more than the time
      to live after it. */
  lemma {:induction false} ReuseNeedsLateRequest(hash: NonceHash, file: TrustFile, ops: seq<Op>, i: nat, j: nat)
    requires i < j < |ops| && Accepted(hash, file, ops, i) && Accepted(hash, file, ops, j)
    requires Repeats(hash, ops[j], RecordOf(hash, ops[i]))
    ensures LaterAccepted(hash, file, ops, i, j + 1, ops[i].now + NONCE_TTL)
    decreases j
  {
    hide After, Perform;
    if k: nat :| i < k < j && Accepted(hash, file, ops, k) && Repeats(hash, ops[k], RecordOf(hash, ops[i])) {
      ReuseNeedsLateRequest(hash, file, ops, i, k);
    } else {
      ReplayAcceptedIff(hash, file, ops, i, j);
    }
  }

  /** So with a clock that does not run backwards, whenever one nonce of one device is
      accepted twice in a run, the second time is more than the time to live after
      the first. */
  lemma NonceReuseIsLate(hash: NonceHash, file: TrustFile, ops: seq<Op>, i: nat, j: nat)
    requires i < j < |ops| && InOrder(ops) && Accepted(hash, file, ops, i) && Accepted(hash, file, ops, j)
    requires ops[j].id == ops[i].id && ops[j].nonce == ops[i].nonce
    ensures ops[j].now > ops[i].now + NONCE_TTL
  {
    hide After, Perform;
    ReuseNeedsLateRequest(hash, file, ops, i, j);
    var k: nat :| i < k < j + 1 && Accepted(hash, file, ops, k) && ops[k].now > ops[i].now + NONCE_TTL;
    assert k < j ==> ops[k].now <= ops[j].now;
  }

  lemma OnlyDevice(hash: NonceHash, device: Device, nonces: seq<NonceRecord>, nonce: string, now: int)
    requires device.revokedAt.None? && device.logbookIds != []
    requires !Seen(Pruned(nonces, now), device.deviceId, hash(device.deviceId, nonce))
    ensures var seen := device.(lastSeenAt := Some(now));
      Authorize(hash, TrustFile([device], nonces), device.deviceId, device.logbookIds[0], nonce, now) ==
      Outcome(Ok(seen), TrustFile([seen], Pruned(nonces, now) + [NonceRecord(device.deviceId, hash(device.deviceId, nonce), now, now + NONCE_TTL)]))
  {
    hide Seen, Pruned;
    assert FindDevice([device], device.deviceId) == Some(0);
  }

  /** A nonce accepted again one nanosecond later: in between, the clock jumped past
      the time to live, another request was accepted, and the clock was set back. */
  lemma ClockBackReplays(hash: NonceHash, device: Device, nonce: string, other: string, now: int)
    requires device.revokedAt.None? && device.logbookIds != []
    requires hash(device.deviceId, nonce) != hash(device.deviceId, other)
    ensures var id, logbook := device.deviceId, device.logbookIds[0];
      var ops := [
        Authorizing(id, logbook, nonce, now),
        Authorizing(id, logbook, other, now + NONCE_TTL + 1),
        Authorizing(id, logbook, nonce, now + 1)];
      var file := TrustFile([device], []);
      Accepted(hash, file, ops, 0) && Accepted(hash, file, ops, 1) && Accepted(hash, file, ops, 2)
  {
    var id, logbook := device.deviceId, device.logbookIds[0];
    var ops := [
      Authorizing(id, logbook, nonce, now),
      Authorizing(id, logbook, other, now + NONCE_TTL + 1),
      Authorizing(id, logbook, nonce, now + 1)];
    var file := TrustFile([device], []);
    var seen := device.(lastSeenAt := Some(now));
    var seenLater := device.(lastSeenAt := Some(now + NONCE_TTL + 1));
    OnlyDevice(hash, device, [], nonce, now);
    assert Pruned([RecordOf(hash, ops[0])], now + NONCE_TTL + 1) == [];
    OnlyDevice(hash, seen, [RecordOf(hash, ops[0])], other, now + NONCE_TTL + 1);
    assert Pruned([RecordOf(hash, ops[1])], now + 1) == [RecordOf(hash, ops[1])];
    OnlyDevice(hash, seenLater, [RecordOf(hash, ops[1])], nonce, now + 1);
    hide Authorize, Pruned, Seen;
    assert ops[..0] == [] && ops[..1][..0] == [] && ops[..2][..1] == ops[..1];
    assert After(hash, file, ops[..1]) == TrustFile([seen], [RecordOf(hash, ops[0])]);
    assert After(hash, file, ops[..2]) == TrustFile([seenLater], [RecordOf(hash, ops[1])]);
  }

  predicate Revoked(devices: seq<Device>, id: Uuid) {
    FindDevice(devices, id).Some? && devices[FindDevice(devices, id).value].revokedAt.Some?
  }

  /** Finding a device depends only on the ids, in order. */
  lemma {:induction false} FindAfterUpdate(devices: seq<Device>, i: nat, d: Device, id: Uuid)
    requires i < |devices| && devices[i].deviceId == d.deviceId
    ensures FindDevice(devices[i := d], id) == FindDevice(devices, id)
  {
    var found := FindDevice(devices, id);
    var devices' := devices[i := d];
    assert forall k :: 0 <= k < |devices| ==> devices'[k].deviceId == devices[k].deviceId;
    if found.Some? {
      assert devices'[found.value].deviceId == id;
    }
  }

  lemma RevokedAfterUpdate(devices: seq<Device>, i: nat, d: Device, id: Uuid)
    requires Revoked(devices, id) && i < |devices| && devices[i].deviceId == d.deviceId
    requires d.deviceId != id || d.revokedAt.Some?
    ensures Revoked(devices[i := d], id)
  {
    FindAfterUpdate(devices, i, d, id);
  }

  lemma RevokedAfterAppend(devices: seq<Device>, d: Device, id: Uuid)
    requires Revoked(devices, id)
    ensures Revoked(devices + [d], id)
  {
    var i := FindDevice(devices, id).value;
    var longer := devices + [d];
    assert longer[i] == devices[i];
    assert forall k :: 0 <= k < i ==> longer[k] == devices[k];
  }

  lemma RevokedStep(hash: NonceHash, file: TrustFile, op: Op, id: Uuid)
    requires Revoked(file.devices, id)
    requires op.Trusting? ==> op.device.deviceId != id
    ensures Revoked(Perform(hash, file, op).file.devices, id)
  {
    hide Revoked, Seen, Pruned, FindDevice;
    var result := Perform(hash, file, op);
    if result.result.Ok? {
      var target := match op
        case Authorizing(peer, _, _, _) => peer
        case Revoking(peer, _) => peer
        case Trusting(device) => device.deviceId
        case Rotating(peer, _, _, _) => peer;
      var found := FindDevice(file.devices, target);
      RevokedRefused(file, id);
      if found.Some? {
        RevokedAfterUpdate(file.devices, found.value, result.result.value, id);
      } else {
        RevokedAfterAppend(file.devices, result.result.value, id);
      }
    }
  }

  lemma RevokedRefused(file: TrustFile, id: Uuid)
    requires Revoked(file.devices, id)
    ensures forall logbook :: CheckPeer(file, id, logbook).Err?
  {
  }

  /** A revoked device stays out until it is trusted anew. */
  lemma {:induction false} RevokedStaysOut(hash: NonceHash, file: TrustFile, ops: seq<Op>, id: Uuid)
    requires Revoked(file.devices, id)
    requires forall k :: 0 <= k < |ops| && ops[k].Trusting? ==> ops[k].device.deviceId != id
    ensures var end := After(hash, file, ops);
      Revoked(end.devices, id) && forall logbook, nonce, now :: Authorize(hash, end, id, logbook, nonce, now).result.Err?
  {
    hide Seen, Revoked, Perform, Pruned;
    if ops != [] {
      var n := |ops| - 1;
      RevokedStaysOut(hash, file, ops[..n], id);
      RevokedStep(hash, After(hash, file, ops[..n]), ops[n], id);
    }
    RevokedRefused(After(hash, file, ops), id);
  }

  /** A device that was revoked and not trusted anew since is refused whatever it
      asks, after any operations. */
  lemma {:induction false} RevocationSticks(hash: NonceHash, file: TrustFile, ops: seq<Op>, i: nat)
    requires i < |ops| && ops[i].Revoking? && Perform(hash, After(hash, file, ops[..i]), ops[i]).result.Ok?
    requires forall k :: i < k < |ops| && ops[k].Trusting? ==> ops[k].device.deviceId != ops[i].id
    ensures Revoked(After(hash, file, ops).devices, ops[i].id)
    ensures forall logbook, nonce, now :: Authorize(hash, After(hash, file, ops), ops[i].id, logbook, nonce, now).result.Err?
  {
    var n := |ops| - 1;
    var before := After(hash, file, ops[..n]);
    assert After(hash, file, ops) == Perform(hash, before, ops[n]).file;
    hide Authorize, Revoked, Perform, After;
    if n == i {
      RevokeMarks(hash, before, ops[i]);
    } else {
      assert ops[..n][..i] == ops[..i];
      RevocationSticks(hash, file, ops[..n], i);
      RevokedStep(hash, before, ops[n], ops[i].id);
    }
    forall logbook, nonce, now ensures Authorize(hash, After(hash, file, ops), ops[i].id, logbook, nonce, now).result.Err? {
      RevokedNotAuthorized(hash, After(hash, file, ops), ops[i].id, logbook, nonce, now);
    }
  }

  lemma RevokedNotAuthorized(hash: NonceHash, file: TrustFile, id: Uuid, logbook: Uuid, nonce: string, now: int)
    requires Revoked(file.devices, id)
    ensures Authorize(hash, file, id, logbook, nonce, now).result.Err?
  {
    RevokedRefused(file, id);
  }

  lemma RevokeMarks(hash: NonceHash, file: TrustFile, op: Op)
    requires op.Revoking? && Perform(hash, file, op).result.Ok?
    ensures Revoked(Perform(hash, file, op).file.devices, op.id)
  {
    var i := FindDevice(file.devices, op.id).value;
    FindAfterUpdate(file.devices, i, file.devices[i].(revokedAt := Some(op.now)), op.id);
  }

  // ----- each operation, device by device -----

  /** The device an id stands for: the first one stored under it. */
  ghost predicate Stored(devices: seq<Device>, id: Uuid, d: Device) {
    exists i :: 0 <= i < |devices| && devices[i] == d && d.deviceId == id && forall j :: 0 <= j < i ==> devices[j].deviceId != id
  }

  function Target(op: Op): Uuid {
    match op
    case Authorizing(id, _, _, _) => id
    case Revoking(id, _) => id
    case Trusting(device) => device.deviceId
    case Rotating(id, _, _, _) => id
  }

  lemma FoundIsStored(devices: seq<Device>, id: Uuid, d: Device)
    ensures Stored(devices, id, d) <==> FindDevice(devices, id).Some? && devices[FindDevice(devices, id).value] == d
  {
    if i :| 0 <= i < |devices| && devices[i] == d && d.deviceId == id && forall j :: 0 <= j < i ==> devices[j].deviceId != id {
      assert FindDevice(devices, id) == Some(i);
    }
  }

  /** A device was active for a logbook: trusted for it and not revoked. */
  predicate Active(d: Device, logbook: Uuid) {
    d.revokedAt.None? && exists i :: 0 <= i < |d.logbookIds| && d.logbookIds[i] == logbook
  }

  /** A nonce was recorded and has not expired. */
  ghost predicate Alive(nonces: seq<NonceRecord>, id: Uuid, nonceHash: string, now: int) {
    exists r :: r in nonces && r.deviceId == id && r.nonceHash == nonceHash && r.expiresAt >= now
  }

  /** What each operation makes of the device d stored under its id: an active one that
      authorizes with a nonce not seen is seen now; any can be revoked; an active one can
      change to another credential; and trusting replaces it. Nothing else about it
      changes, and a refused operation changes nothing at all. */
  lemma OperationOnDevice(hash: NonceHash, file: TrustFile, op: Op, d: Device)
    requires Stored(file.devices, Target(op), d)
    ensures var o := Perform(hash, file, op);
      && (o.result.Err? ==> o.file == file)
      && (o.result.Ok? ==> Stored(o.file.devices, Target(op), o.result.value))
      && match op
         case Authorizing(id, logbook, nonce, now) =>
           && (o.result.Ok? <==> Active(d, logbook) && !Alive(file.nonces, id, hash(id, nonce), now))
           && (o.result.Ok? ==> o.result.value == d.(lastSeenAt := Some(now)))
         case Revoking(_, now) => o.result == Ok(d.(revokedAt := Some(now)))
         case Trusting(device) => o.result == Ok(device)
         case Rotating(_, logbook, credential, now) =>
           && (o.result.Ok? <==> Active(d, logbook) && d.credentialId != Some(credential))
           && (o.result.Ok? ==> o.result.value == d.(credentialId := Some(credential), rotatedAt := Some(now)))
  {
    var id := Target(op);
    FoundIsStored(file.devices, id, d);
    var i := FindDevice(file.devices, id).value;
    var o := Perform(hash, file, op);
    match op {
      case Authorizing(_, logbook, nonce, now) => SeenAlive(file.nonces, now, id, hash(id, nonce));
      case _ =>
    }
    hide Seen, Pruned;
    if o.result.Ok? {
      FindAfterUpdate(file.devices, i, o.result.value, id);
      FoundIsStored(o.file.devices, id, o.result.value);
    }
  }

  /** A device that is trusted is stored under its id, whether it was there or not. */
  lemma TrustedIsStored(hash: NonceHash, file: TrustFile, device: Device)
    ensures Stored(Perform(hash, file, Trusting(device)).file.devices, device.deviceId, device)
    ensures Perform(hash, file, Trusting(device)).file.nonces == file.nonces
  {
    var devices := Trust(file, device).file.devices;
    match FindDevice(file.devices, device.deviceId) {
      case None => assert devices[|file.devices|] == device;
      case Some(i) => assert devices[i] == device;
    }
  }

  /** No operation changes which device another id stands for, or what it is. */
  lemma OtherDevicesStay(hash: NonceHash, file: TrustFile, op: Op, id: Uuid, d: Device)
    requires id != Target(op)
    ensures Stored(Perform(hash, file, op).file.devices, id, d) <==> Stored(file.devices, id, d)
  {
    var o := Perform(hash, file, op);
    FoundIsStored(file.devices, id, d);
    FoundIsStored(o.file.devices, id, d);
    hide Seen, Pruned, Stored;
    if o.result.Ok? {
      var found := FindDevice(file.devices, Target(op));
      if found.Some? {
        FindAfterUpdate(file.devices, found.value, o.result.value, id);
      } else {
        FindAfterAppend(file.devices, o.result.value, id);
      }
    }
  }

  /** A new device is stored under its own id and no other. */
  lemma FindAfterAppend(devices: seq<Device>, d: Device, id: Uuid)
    requires d.deviceId != id
    ensures FindDevice(devices + [d], id) == FindDevice(devices, id)
  {
    var longer := devices + [d];
    assert forall k :: 0 <= k < |devices| ==> longer[k] == devices[k];
    var found, found' := FindDevice(devices, id), FindDevice(longer, id);
    if found'.Some? {
      assert longer[found'.value].deviceId == id;
      assert found'.value < |devices|;
    } else {
      assert forall k :: 0 <= k < |devices| ==> devices[k].deviceId != id;
    }
  }
}
