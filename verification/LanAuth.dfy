/** Signed LAN requests: the signer, the wire, and the checks on the other side
    (crates/ham-client/src/serve.rs:6731-6886, 7988-8025 and 9010-9027;
    crates/ham-core/src/sync/offline.rs:2389-2452; section 2 of RFC 2104). HMAC is a
    parameter: a function from a key and a message to 32 bytes. */
module LanAuth {
  import opened Basics
  import opened Text
  import opened UuidText
  import opened Http
  import opened LanTrust

  type Digest = s: seq<int> | |s| == 32 && (forall i :: 0 <= i < |s| ==> 0 <= s[i] < 256)
    witness seq(32, _ => 0)

  type Mac = (string, string) -> Digest

  const SIGNATURE_VERSION := "hmac-sha256-v1"

  // ----- signatures -----

  function HexChar(d: int): (c: char)
    requires 0 <= d < 16
    ensures IsLowerHex(c)
  {
    if d < 10 then '0' + d as char else 'a' + (d - 10) as char
  }

  function BytesToHex(bytes: seq<int>): (s: string)
    requires forall i :: 0 <= i < |bytes| ==> 0 <= bytes[i] < 256
    ensures |s| == 2 * |bytes| && forall i :: 0 <= i < |s| ==> IsLowerHex(s[i])
  {
    if bytes == [] then "" else [HexChar(bytes[0] / 16), HexChar(bytes[0] % 16)] + BytesToHex(bytes[1..])
  }

  lemma {:induction false} HexInjective(a: seq<int>, b: seq<int>)
    requires forall i :: 0 <= i < |a| ==> 0 <= a[i] < 256
    requires forall i :: 0 <= i < |b| ==> 0 <= b[i] < 256
    requires BytesToHex(a) == BytesToHex(b)
    ensures a == b
  {
    if a != [] && b != [] {
      var x, y := BytesToHex(a), BytesToHex(b);
      assert x[0] == HexChar(a[0] / 16) && x[1] == HexChar(a[0] % 16) && x[2..] == BytesToHex(a[1..]);
      assert y[0] == HexChar(b[0] / 16) && y[1] == HexChar(b[0] % 16) && y[2..] == BytesToHex(b[1..]);
      assert a[0] == b[0];
      HexInjective(a[1..], b[1..]);
      assert a == [a[0]] + a[1..] && b == [b[0]] + b[1..];
    }
  }

  /** The text that is signed: six lines. */
  function SignedText(device: Uuid, logbook: Uuid, verb: string, target: string, nonce: string): string {
    SIGNATURE_VERSION + "\n" + ShowUuid(device) + "\n" + ShowUuid(logbook) + "\n" + Upper(verb) + "\n" + target + "\n" + nonce
  }

  function Signature(mac: Mac, secret: string, device: Uuid, logbook: Uuid, verb: string, target: string, nonce: string): (s: string)
    ensures |s| == 64 && forall i :: 0 <= i < |s| ==> IsLowerHex(s[i])
  {
    BytesToHex(mac(secret, SignedText(device, logbook, verb, target, nonce)))
  }

  /** constant_time_eq: looks at every byte whatever it finds. */
  method ConstantTimeEq(left: seq<bv8>, right: seq<bv8>) returns (equal: bool)
    ensures equal <==> left == right
  {
    if |left| != |right| {
      return false;
    }
    var diff: bv8 := 0;
    for i := 0 to |left|
      invariant diff == 0 <==> left[..i] == right[..i]
    {
      OrOfXor(diff, left[i], right[i]);
      diff := diff | (left[i] ^ right[i]);
      assert left[..i + 1] == left[..i] + [left[i]] && right[..i + 1] == right[..i] + [right[i]];
    }
    assert left[..|left|] == left && right[..|right|] == right;
    return diff == 0;
  }

  lemma OrOfXor(d: bv8, a: bv8, b: bv8)
    ensures d | (a ^ b) == 0 <==> d == 0 && a == b
  {
  }

  // ----- the four headers -----

  const DEVICE_HEADER := "x-ke8ygw-lan-device-id"
  const NONCE_HEADER := "x-ke8ygw-lan-replay-nonce"
  const VERSION_HEADER := "x-ke8ygw-lan-signature-version"
  const SIGNATURE_HEADER := "x-ke8ygw-lan-signature"

  /** Secrets by credential id. */
  type Vault = map<Uuid, string>

  /** What a peer has at hand: its own device id, the devices it trusts and the
      secrets it shares with them. */
  datatype Peer = Peer(device: Uuid, trust: TrustFile, vault: Vault)

  function ShowTrustError(e: TrustError): string {
    match e
    case DeviceNotFound(id) => "trusted device " + ShowUuid(id) + " was not found"
    case DeviceRevoked(id) => "trusted device " + ShowUuid(id) + " is revoked"
    case WrongLogbook(id, logbook) => "trusted device " + ShowUuid(id) + " is not authorized for logbook " + ShowUuid(logbook)
    case CredentialUnchanged(id) =>
      "replacement LAN auth credential for trusted device " + ShowUuid(id) + " matches the current credential"
    case ReplayDetected(id) => "replay nonce was already used for device " + ShowUuid(id)
  }

  const NO_SECRET := "failed to retrieve LAN endpoint auth credential"

  /** The secret shared with a trusted, unrevoked device, or why there is none. */
  function SharedSecret(peer: Peer, other: Uuid, logbook: Uuid, missing: string): Result<string, string> {
    match CheckPeer(peer.trust, other, logbook)
    case Err(error) => Err(ShowTrustError(error))
    case Ok(device) =>
      if device.credentialId.None? then Err(missing)
      else if device.credentialId.value !in peer.vault then Err(NO_SECRET)
      else Ok(peer.vault[device.credentialId.value])
  }

  /** trusted_lan_request_headers, with the random nonce as an argument. */
  function RequestHeaders(mac: Mac, peer: Peer, other: Uuid, logbook: Uuid, verb: string, target: string, nonce: Uuid): Result<seq<Header>, string> {
    match SharedSecret(peer, other, logbook, "trusted LAN peer is missing endpoint auth credential")
    case Err(error) => Err(error)
    case Ok(secret) =>
      Ok([
        Header(DEVICE_HEADER, ShowUuid(peer.device)),
        Header(NONCE_HEADER, ShowUuid(nonce)),
        Header(VERSION_HEADER, SIGNATURE_VERSION),
        Header(SIGNATURE_HEADER, Signature(mac, secret, peer.device, logbook, verb, target, ShowUuid(nonce)))])
  }

  datatype Credentials = Credentials(device: Uuid, nonce: string, signature: string)

  /** lan_endpoint_auth_from_headers. */
  function CredentialsFrom(headers: Headers): (r: Result<Credentials, string>) {
    if DEVICE_HEADER !in headers then Err("trusted LAN request is missing device id")
    else
      var device := ParseUuid(headers[DEVICE_HEADER]);
      if device.None? then Err("trusted LAN request device id is invalid")
      else if NONCE_HEADER !in headers || Trim(headers[NONCE_HEADER]) == "" then Err("trusted LAN request is missing replay nonce")
      else if |Trim(headers[NONCE_HEADER])| > 128 then Err("trusted LAN request replay nonce is too long")
      else if VERSION_HEADER !in headers then Err("trusted LAN request is missing signature version")
      else if Trim(headers[VERSION_HEADER]) != SIGNATURE_VERSION then Err("trusted LAN request signature version is unsupported")
      else if SIGNATURE_HEADER !in headers || Trim(headers[SIGNATURE_HEADER]) == "" then Err("trusted LAN request is missing signature")
      else
        var signature := Trim(headers[SIGNATURE_HEADER]);
        if |signature| != 64 || exists i :: 0 <= i < |signature| && !IsHex(signature[i])
          then Err("trusted LAN request signature is malformed")
          else Ok(Credentials(device.value, Trim(headers[NONCE_HEADER]), Lower(signature)))
  }

  datatype Checked = Checked(result: Result<(), string>, trust: TrustFile)

  /** require_lan_endpoint_auth. */
  function RequireAuth(mac: Mac, hash: NonceHash, peer: Peer, request: Request, logbook: Uuid, now: int): Checked {
    match CredentialsFrom(request.headers)
    case Err(error) => Checked(Err(error), peer.trust)
    case Ok(auth) =>
      match SharedSecret(peer, auth.device, logbook, "trusted LAN device is missing endpoint auth credential")
      case Err(error) => Checked(Err(error), peer.trust)
      case Ok(secret) =>
        if auth.signature != Signature(mac, secret, auth.device, logbook, request.verb, request.target, auth.nonce)
          then Checked(Err("trusted LAN request signature is invalid"), peer.trust)
          else
            var outcome := Authorize(hash, peer.trust, auth.device, logbook, auth.nonce, now);
            match outcome.result
            case Err(error) => Checked(Err(ShowTrustError(error)), outcome.file)
            case Ok(_) => Checked(Ok(()), outcome.file)
  }

  /** The server's side with its trust store as an object. */
  class Endpoint {
    const store: JsonLanTrustStore
    const device: Uuid
    var vault: Vault

    constructor (store: JsonLanTrustStore, device: Uuid)
      ensures this.store == store && this.device == device && vault == map[]
    {
      this.store, this.device, vault := store, device, map[];
    }

    function View(): Peer
      reads this, store
    {
      Peer(device, store.file, vault)
    }

    method RequireLanEndpointAuth(mac: Mac, hash: NonceHash, request: Request, logbook: Uuid, now: int) returns (r: Result<(), string>)
      modifies store
      ensures Checked(r, store.file) == RequireAuth(mac, hash, old(View()), request, logbook, now)
    {
      hide CredentialsFrom, Signature, ShowTrustError, Authorize;
      var auth := CredentialsFrom(request.headers);
      if auth.Err? {
        return Err(auth.error);
      }
      var trusted := store.TrustedPeer(auth.value.device, logbook);
      if trusted.Err? {
        return Err(ShowTrustError(trusted.error));
      }
      var credential := trusted.value.credentialId;
      if credential.None? {
        return Err("trusted LAN device is missing endpoint auth credential");
      }
      if credential.value !in vault {
        return Err(NO_SECRET);
      }
      var expected := Signature(
        mac, vault[credential.value], auth.value.device, logbook, request.verb, request.target, auth.value.nonce);
      if auth.value.signature != expected {
        return Err("trusted LAN request signature is invalid");
      }
      var authorized := store.AuthorizePeer(hash, auth.value.device, logbook, auth.value.nonce, now);
      if authorized.Err? {
        return Err(ShowTrustError(authorized.error));
      }
      return Ok(());
    }
  }

  /** A refused request leaves the trust file, nonces included, as it was; an
      accepted one drops expired nonces and adds its own. */
  lemma RefusalChangesNothing(mac: Mac, hash: NonceHash, peer: Peer, request: Request, logbook: Uuid, now: int)
    ensures var c := RequireAuth(mac, hash, peer, request, logbook, now);
      && (c.result.Err? ==> c.trust == peer.trust)
      && (c.result.Ok? ==>
            var auth := CredentialsFrom(request.headers);
            && auth.Ok?
            && Authorize(hash, peer.trust, auth.value.device, logbook, auth.value.nonce, now) ==
               Outcome(Authorize(hash, peer.trust, auth.value.device, logbook, auth.value.nonce, now).result, c.trust)
            && c.trust.nonces == Pruned(peer.trust.nonces, now) + [NonceRecord(
                 auth.value.device, hash(auth.value.device, auth.value.nonce), now, now + NONCE_TTL)])
  {
    hide CredentialsFrom, Signature, SharedSecret;
  }

  // ----- what a signature covers -----

  lemma LineSplits(a: string, b: string, c: string, d: string)
    requires OneLine(a) && OneLine(c) && a + "\n" + b == c + "\n" + d
    ensures a == c && b == d
  {
    FindIn(a, '\n', b);
    FindIn(c, '\n', d);
    var s := a + "\n" + b;
    assert s == a + ['\n'] + b && s == c + ['\n'] + d;
    ConcatSlices(a, "\n" + b);
    ConcatSlices(c, "\n" + d);
    assert s == a + ("\n" + b) && s == c + ("\n" + d);
    assert ("\n" + b)[1..] == b && ("\n" + d)[1..] == d;
  }

  lemma ShownOnOneLine(u: Uuid)
    ensures OneLine(ShowUuid(u))
  {
    hide ShowUuid;
    forall i | 0 <= i < 36 ensures ShowUuid(u)[i] != '\n' {
      ShownChars(u, i);
    }
  }

  lemma UpperOnOneLine(verb: string)
    requires OneLine(verb)
    ensures OneLine(Upper(verb))
  {
    assert forall i :: 0 <= i < |verb| ==> verb[i] != '\n';
    assert forall i :: 0 <= i < |verb| ==> Upper(verb)[i] == UpperChar(verb[i]) && UpperChar(verb[i]) != '\n';
  }

  lemma AsLines(device: Uuid, logbook: Uuid, verb: string, target: string, nonce: string)
    ensures SignedText(device, logbook, verb, target, nonce) ==
      SIGNATURE_VERSION + "\n" + (ShowUuid(device) + "\n" + (ShowUuid(logbook) + "\n" + (Upper(verb) + "\n" + (target + "\n" + nonce))))
  {
    hide ShowUuid, Upper;
  }

  /** Line by line, what is signed: version, device, logbook, verb in capitals and
      target, with the nonce as the rest. */
  lemma SignedLineByLine(device: Uuid, logbook: Uuid, verb: string, target: string, nonce: string)
    requires OneLine(verb) && OneLine(target)
    ensures var first := SplitOnce(SignedText(device, logbook, verb, target, nonce), '\n');
      && first.Some? && first.value.0 == "hmac-sha256-v1"
      && var second := SplitOnce(first.value.1, '\n');
         && second.Some? && ParseUuid(second.value.0) == Some(device)
         && var third := SplitOnce(second.value.1, '\n');
            && third.Some? && ParseUuid(third.value.0) == Some(logbook)
            && var fourth := SplitOnce(third.value.1, '\n');
               && fourth.Some? && fourth.value.0 == Upper(verb)
               && SplitOnce(fourth.value.1, '\n') == Some((target, nonce))
  {
    AsLines(device, logbook, verb, target, nonce);
    ShownOnOneLine(device);
    ShownOnOneLine(logbook);
    UpperOnOneLine(verb);
    assert OneLine(SIGNATURE_VERSION);
    UuidRoundTrip(device);
    UuidRoundTrip(logbook);
    hide ShowUuid, Upper, OneLine, SignedText, ParseUuid;
    var e := target + "\n" + nonce;
    var d := Upper(verb) + "\n" + e;
    var c := ShowUuid(logbook) + "\n" + d;
    var b := ShowUuid(device) + "\n" + c;
    LineOff(SIGNATURE_VERSION, b);
    LineOff(ShowUuid(device), c);
    LineOff(ShowUuid(logbook), d);
    LineOff(Upper(verb), e);
    LineOff(target, nonce);
  }

  lemma LineOff(line: string, rest: string)
    requires OneLine(line)
    ensures SplitOnce(line + "\n" + rest, '\n') == Some((line, rest))
  {
    SplitOnceIn(line, '\n', rest);
    assert line + "\n" + rest == line + ['\n'] + rest;
  }

  /** The signed text tells every part of the request: device, logbook, verb up to
      case, target and nonce. */
  lemma SignedTextDetermines(
    device: Uuid, logbook: Uuid, verb: string, target: string, nonce: string,
    device2: Uuid, logbook2: Uuid, verb2: string, target2: string, nonce2: string)
    requires OneLine(verb) && OneLine(target) && OneLine(verb2) && OneLine(target2)
    requires SignedText(device, logbook, verb, target, nonce) == SignedText(device2, logbook2, verb2, target2, nonce2)
    ensures device == device2 && logbook == logbook2 && Upper(verb) == Upper(verb2) && target == target2 && nonce == nonce2
  {
    AsLines(device, logbook, verb, target, nonce);
    AsLines(device2, logbook2, verb2, target2, nonce2);
    ShownOnOneLine(device);
    ShownOnOneLine(logbook);
    ShownOnOneLine(device2);
    ShownOnOneLine(logbook2);
    UpperOnOneLine(verb);
    UpperOnOneLine(verb2);
    assert OneLine(SIGNATURE_VERSION);
    hide ShowUuid, Upper, OneLine, SignedText;
    var e, e2 := target + "\n" + nonce, target2 + "\n" + nonce2;
    var d, d2 := Upper(verb) + "\n" + e, Upper(verb2) + "\n" + e2;
    var c, c2 := ShowUuid(logbook) + "\n" + d, ShowUuid(logbook2) + "\n" + d2;
    var b, b2 := ShowUuid(device) + "\n" + c, ShowUuid(device2) + "\n" + c2;
    LineSplits(SIGNATURE_VERSION, b, SIGNATURE_VERSION, b2);
    LineSplits(ShowUuid(device), c, ShowUuid(device2), c2);
    LineSplits(ShowUuid(logbook), d, ShowUuid(logbook2), d2);
    LineSplits(Upper(verb), e, Upper(verb2), e2);
    LineSplits(target, nonce, target2, nonce2);
    UuidRoundTrip(device);
    UuidRoundTrip(device2);
    UuidRoundTrip(logbook);
    UuidRoundTrip(logbook2);
  }

  /** A signature made for one request fits another only if that one has the same
      device, logbook, verb, target and nonce, as long as the two signed texts do
      not collide under the secret. */
  lemma SignatureBinds(
    mac: Mac, secret: string,
    device: Uuid, logbook: Uuid, verb: string, target: string, nonce: string,
    device2: Uuid, logbook2: Uuid, verb2: string, target2: string, nonce2: string)
    requires OneLine(verb) && OneLine(target) && OneLine(verb2) && OneLine(target2)
    requires var a, b := SignedText(device, logbook, verb, target, nonce), SignedText(device2, logbook2, verb2, target2, nonce2);
      mac(secret, a) == mac(secret, b) ==> a == b
    ensures Signature(mac, secret, device, logbook, verb, target, nonce) == Signature(mac, secret, device2, logbook2, verb2, target2, nonce2) <==>
      device == device2 && logbook == logbook2 && Upper(verb) == Upper(verb2) && target == target2 && nonce == nonce2
  {
    hide OneLine, Upper, ShowUuid;
    var a, b := SignedText(device, logbook, verb, target, nonce), SignedText(device2, logbook2, verb2, target2, nonce2);
    if Signature(mac, secret, device, logbook, verb, target, nonce) == Signature(mac, secret, device2, logbook2, verb2, target2, nonce2) {
      HexInjective(mac(secret, a), mac(secret, b));
      SignedTextDetermines(device, logbook, verb, target, nonce, device2, logbook2, verb2, target2, nonce2);
    }
  }

  // ----- what an accepted request proves -----

  /** The four headers are there and well formed. */
  predicate HeadersGood(headers: Headers) {
    && DEVICE_HEADER in headers && ParseUuid(headers[DEVICE_HEADER]).Some?
    && NONCE_HEADER in headers && 0 < |Trim(headers[NONCE_HEADER])| <= 128
    && VERSION_HEADER in headers && Trim(headers[VERSION_HEADER]) == SIGNATURE_VERSION
    && SIGNATURE_HEADER in headers
  }

  /** Trust record i is the first of the device named, unrevoked and for the logbook,
      its secret is at hand, and the signature header holds the HMAC of the request
      under that secret, in either case. */
  predicate SignedAs(mac: Mac, peer: Peer, request: Request, logbook: Uuid, i: nat)
    requires HeadersGood(request.headers)
  {
    var devices, id := peer.trust.devices, ParseUuid(request.headers[DEVICE_HEADER]).value;
    && i < |devices| && devices[i].deviceId == id && (forall j :: 0 <= j < i ==> devices[j].deviceId != id)
    && devices[i].revokedAt == None && logbook in devices[i].logbookIds
    && devices[i].credentialId.Some? && devices[i].credentialId.value in peer.vault
    && Lower(Trim(request.headers[SIGNATURE_HEADER])) ==
       BytesToHex(mac(
         peer.vault[devices[i].credentialId.value],
         SignedText(id, logbook, request.verb, request.target, Trim(request.headers[NONCE_HEADER]))))
  }

  /** No record of the nonce is still alive. */
  ghost predicate NonceFree(hash: NonceHash, peer: Peer, request: Request, now: int)
    requires HeadersGood(request.headers)
  {
    var id, nonce := ParseUuid(request.headers[DEVICE_HEADER]).value, Trim(request.headers[NONCE_HEADER]);
    forall r :: r in peer.trust.nonces && r.deviceId == id && r.nonceHash == hash(id, nonce) ==> r.expiresAt < now
  }

  predicate HexOf64(s: string) {
    |s| == 64 && forall i :: 0 <= i < |s| ==> IsHex(s[i])
  }

  lemma LowerHexIsHex(s: string)
    requires |Lower(s)| == 64 && forall i :: 0 <= i < 64 ==> IsLowerHex(Lower(s)[i])
    ensures HexOf64(s)
  {
    forall i | 0 <= i < |s| ensures IsHex(s[i]) {
      assert Lower(s)[i] == LowerChar(s[i]);
    }
  }

  lemma CredentialsExactly(headers: Headers)
    ensures CredentialsFrom(headers).Ok? ==>
      HeadersGood(headers) &&
      CredentialsFrom(headers).value ==
      Credentials(ParseUuid(headers[DEVICE_HEADER]).value, Trim(headers[NONCE_HEADER]), Lower(Trim(headers[SIGNATURE_HEADER])))
    ensures HeadersGood(headers) && HexOf64(Trim(headers[SIGNATURE_HEADER])) ==> CredentialsFrom(headers).Ok?
  {
    hide ParseUuid, Trim, IsHex, Lower;
  }

  lemma SharedSecretExactly(peer: Peer, id: Uuid, logbook: Uuid, missing: string)
    ensures SharedSecret(peer, id, logbook, missing).Ok? ==>
      exists i: nat :: i < |peer.trust.devices| && SecretAt(peer, id, logbook, i, SharedSecret(peer, id, logbook, missing).value)
    ensures forall i: nat, secret :: SecretAt(peer, id, logbook, i, secret) ==> SharedSecret(peer, id, logbook, missing) == Ok(secret)
  {
    hide ShowTrustError;
    var found := FindDevice(peer.trust.devices, id);
    if SharedSecret(peer, id, logbook, missing).Ok? {
      assert SecretAt(peer, id, logbook, found.value, SharedSecret(peer, id, logbook, missing).value);
    }
    forall i: nat, secret | SecretAt(peer, id, logbook, i, secret) ensures SharedSecret(peer, id, logbook, missing) == Ok(secret) {
      assert found == Some(i);
    }
  }

  predicate SecretAt(peer: Peer, id: Uuid, logbook: Uuid, i: nat, secret: string) {
    var devices := peer.trust.devices;
    && i < |devices| && devices[i].deviceId == id && (forall j :: 0 <= j < i ==> devices[j].deviceId != id)
    && devices[i].revokedAt == None && logbook in devices[i].logbookIds
    && devices[i].credentialId.Some? && devices[i].credentialId.value in peer.vault
    && secret == peer.vault[devices[i].credentialId.value]
  }

  /** A request is accepted exactly when its headers are good, it is signed under the
      secret shared with the trusted device it names, for its own verb and target and
      this logbook, and its nonce has not been seen. */
  lemma AcceptedExactly(mac: Mac, hash: NonceHash, peer: Peer, request: Request, logbook: Uuid, now: int)
    ensures RequireAuth(mac, hash, peer, request, logbook, now).result.Ok? <==>
      && HeadersGood(request.headers)
      && (exists i: nat :: SignedAs(mac, peer, request, logbook, i))
      && NonceFree(hash, peer, request, now)
  {
    CredentialsExactly(request.headers);
    if HeadersGood(request.headers) {
      var id, nonce := ParseUuid(request.headers[DEVICE_HEADER]).value, Trim(request.headers[NONCE_HEADER]);
      var signature := Trim(request.headers[SIGNATURE_HEADER]);
      var missing := "trusted LAN device is missing endpoint auth credential";
      SharedSecretExactly(peer, id, logbook, missing);
      SeenAlive(peer.trust.nonces, now, id, hash(id, nonce));
      hide ParseUuid, Trim, IsHex, Lower, CredentialsFrom, SharedSecret, ShowTrustError, Pruned, Seen, BytesToHex, SignedText;
      if i: nat :| SignedAs(mac, peer, request, logbook, i) {
        var secret := peer.vault[peer.trust.devices[i].credentialId.value];
        assert SecretAt(peer, id, logbook, i, secret);
        assert Lower(signature) == Signature(mac, secret, id, logbook, request.verb, request.target, nonce);
        LowerHexIsHex(signature);
        AuthorizedIff(hash, peer, id, logbook, nonce, now, i, secret);
      }
      if RequireAuth(mac, hash, peer, request, logbook, now).result.Ok? {
        var secret := SharedSecret(peer, id, logbook, missing).value;
        var i: nat :| SecretAt(peer, id, logbook, i, secret);
        assert SignedAs(mac, peer, request, logbook, i);
        AuthorizedIff(hash, peer, id, logbook, nonce, now, i, secret);
      }
    }
  }

  /** For a device whose secret is at hand only the nonce decides. */
  lemma AuthorizedIff(hash: NonceHash, peer: Peer, id: Uuid, logbook: Uuid, nonce: string, now: int, i: nat, secret: string)
    requires SecretAt(peer, id, logbook, i, secret)
    ensures Authorize(hash, peer.trust, id, logbook, nonce, now).result.Ok? <==> !Seen(Pruned(peer.trust.nonces, now), id, hash(id, nonce))
  {
    assert FindDevice(peer.trust.devices, id) == Some(i);
    hide Pruned, Seen;
  }

  /** An accepted request that carries a signature issued for some request is that
      request: same device, logbook, verb up to case, target and nonce. */
  lemma AcceptedWasIssued(
    mac: Mac, hash: NonceHash, peer: Peer, request: Request, logbook: Uuid, now: int, i: nat, secret: string,
    device: Uuid, logbook2: Uuid, verb: string, target: string, nonce: string)
    requires RequireAuth(mac, hash, peer, request, logbook, now).result.Ok?
    requires HeadersGood(request.headers) && SecretAt(peer, ParseUuid(request.headers[DEVICE_HEADER]).value, logbook, i, secret)
    requires Lower(Trim(request.headers[SIGNATURE_HEADER])) == Signature(mac, secret, device, logbook2, verb, target, nonce)
    requires OneLine(request.verb) && OneLine(request.target) && OneLine(verb) && OneLine(target)
    requires var id, sent := ParseUuid(request.headers[DEVICE_HEADER]).value, Trim(request.headers[NONCE_HEADER]);
      var a, b := SignedText(id, logbook, request.verb, request.target, sent), SignedText(device, logbook2, verb, target, nonce);
      mac(secret, a) == mac(secret, b) ==> a == b
    ensures ParseUuid(request.headers[DEVICE_HEADER]) == Some(device) && logbook == logbook2
    ensures Upper(request.verb) == Upper(verb) && request.target == target && Trim(request.headers[NONCE_HEADER]) == nonce
  {
    var id, sent := ParseUuid(request.headers[DEVICE_HEADER]).value, Trim(request.headers[NONCE_HEADER]);
    AcceptedExactly(mac, hash, peer, request, logbook, now);
    hide RequireAuth, NonceFree, ParseUuid, Trim, Lower, Upper, OneLine, BytesToHex, SignedText;
    var j: nat :| SignedAs(mac, peer, request, logbook, j);
    assert i == j;
    SignatureBinds(mac, secret, id, logbook, request.verb, request.target, sent, device, logbook2, verb, target, nonce);
  }
}
