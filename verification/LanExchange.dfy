/** One LAN request from end to end: signed and printed by the client, parsed and
    checked by the server (crates/ham-client/src/serve.rs:6660-6680, 6731-6749,
    7930-7960, 9010-9027). */
module LanExchange {
  import opened Basics
  import opened Text
  import opened UuidText
  import opened Http
  import opened LanTrust
  import opened LanAuth

  // ----- targets and queries -----

  function SplitTarget(target: string): (string, string) {
    match SplitOnce(target, '?')
    case None => (target, "")
    case Some(parts) => parts
  }

  /** replace('+', " "). */
  function Decoded(s: string): (r: string)
    ensures |r| == |s| && forall i :: 0 <= i < |s| ==> r[i] == if s[i] == '+' then ' ' else s[i]
  {
    seq(|s|, i requires 0 <= i < |s| => if s[i] == '+' then ' ' else s[i])
  }

  function AddPart(part: string, params: map<string, string>): map<string, string> {
    if part == "" then params
    else
      match SplitOnce(part, '=')
      case None => params[Decoded(part) := ""]
      case Some((key, value)) => params[Decoded(key) := Decoded(value)]
  }

  /** parse_query: parts between ampersands, later ones winning. */
  function ParseQuery(query: string, params: map<string, string>): map<string, string>
    decreases |query|
  {
    match SplitOnce(query, '&')
    case None => AddPart(query, params)
    case Some((part, rest)) => ParseQuery(rest, AddPart(part, params))
  }

  const LOGBOOK_KEY := "logbook_id"

  datatype Refused = Refused(status: nat, error: string)

  /** requested_sync_logbook_id: the served logbook unless another is named. */
  function RequestedLogbook(served: Uuid, query: string): Result<Uuid, Refused> {
    var params := ParseQuery(query, map[]);
    if LOGBOOK_KEY !in params || params[LOGBOOK_KEY] == "" then Ok(served)
    else
      match ParseUuid(params[LOGBOOK_KEY])
      case None => Err(Refused(400, "invalid logbook_id"))
      case Some(id) => if id != served then Err(Refused(403, "requested logbook is not served by this peer")) else Ok(id)
  }

  datatype Served = Served(result: Result<(), Refused>, trust: TrustFile)

  /** The checks a sync read goes through before it answers. */
  function Serve(mac: Mac, hash: NonceHash, peer: Peer, servedLogbook: Uuid, request: Request, now: int): Served {
    match RequestedLogbook(servedLogbook, SplitTarget(request.target).1)
    case Err(refused) => Served(Err(refused), peer.trust)
    case Ok(logbook) =>
      var checked := RequireAuth(mac, hash, peer, request, logbook, now);
      match checked.result
      case Err(error) => Served(Err(Refused(403, error)), checked.trust)
      case Ok(_) => Served(Ok(()), checked.trust)
  }

  /** The path of a sync read for a logbook. */
  function SyncPath(endpoint: string, logbook: Uuid): string {
    endpoint + "?" + LOGBOOK_KEY + "=" + ShowUuid(logbook)
  }

  // ----- headers survive the wire -----

  lemma {:induction false} LastAdded(hs: seq<Header>, m: Headers, i: nat, key: string)
    requires i < |hs| && Lower(Trim(hs[i].name)) == key
    requires forall j :: i < j < |hs| ==> Lower(Trim(hs[j].name)) != key
    ensures key in AddedAll(hs, m) && AddedAll(hs, m)[key] == Trim(hs[i].value)
  {
    hide Lower, Trim;
    if i == 0 {
      NotAdded(hs[1..], Added(hs[0], m), key);
    } else {
      assert hs[1..][i - 1] == hs[i];
      LastAdded(hs[1..], Added(hs[0], m), i - 1, key);
    }
  }

  lemma {:induction false} NotAdded(hs: seq<Header>, m: Headers, key: string)
    requires key in m && forall j :: 0 <= j < |hs| ==> Lower(Trim(hs[j].name)) != key
    ensures key in AddedAll(hs, m) && AddedAll(hs, m)[key] == m[key]
  {
    hide Lower, Trim;
    if hs != [] {
      NotAdded(hs[1..], Added(hs[0], m), key);
    }
  }

  /** A name that trimming and lower-casing leave alone. */
  predicate PlainName(s: string) {
    s != "" && forall i :: 0 <= i < |s| ==> 'a' <= s[i] <= 'z' || s[i] == '-' || s[i] == '8'
  }

  lemma PlainNameStays(s: string)
    requires PlainName(s)
    ensures Lower(Trim(s)) == s && OneLine(s) && !Contains(s, ':')
  {
    TrimmedStays(s);
    assert forall i :: 0 <= i < |s| ==> Lower(s)[i] == s[i];
  }

  lemma DeviceName()
    ensures PlainName(DEVICE_HEADER) && |DEVICE_HEADER| == 22 && DEVICE_HEADER[21] == 'd'
  {
  }

  lemma SignatureName()
    ensures PlainName(SIGNATURE_HEADER) && |SIGNATURE_HEADER| == 22 && SIGNATURE_HEADER[21] == 'e'
  {
  }

  lemma NonceName()
    ensures PlainName(NONCE_HEADER) && |NONCE_HEADER| == 25
  {
  }

  lemma VersionName()
    ensures PlainName(VERSION_HEADER) && |VERSION_HEADER| == 30
  {
  }

  /** The four names arrive as they are and differ from one another. */
  lemma AuthNames()
    ensures forall name :: name in {DEVICE_HEADER, NONCE_HEADER, VERSION_HEADER, SIGNATURE_HEADER} ==>
      Lower(Trim(name)) == name && OneLine(name) && !Contains(name, ':') && |name| >= 22
    ensures DEVICE_HEADER != NONCE_HEADER && DEVICE_HEADER != VERSION_HEADER && DEVICE_HEADER != SIGNATURE_HEADER
    ensures NONCE_HEADER != VERSION_HEADER && NONCE_HEADER != SIGNATURE_HEADER && VERSION_HEADER != SIGNATURE_HEADER
  {
    hide PlainName, Lower, Trim, Contains;
    DeviceName();
    NonceName();
    VersionName();
    SignatureName();
    PlainNameStays(DEVICE_HEADER);
    PlainNameStays(NONCE_HEADER);
    PlainNameStays(VERSION_HEADER);
    PlainNameStays(SIGNATURE_HEADER);
  }

  /** A value with no white space stays whole on the wire. */
  lemma SolidStays(s: string)
    requires forall i :: 0 <= i < |s| ==> !IsSpace(s[i])
    ensures Trim(s) == s && OneLine(s)
  {
    TrimmedStays(s);
  }

  lemma SolidValues(device: Uuid, signature: string)
    requires forall i :: 0 <= i < |signature| ==> IsLowerHex(signature[i])
    ensures Trim(ShowUuid(device)) == ShowUuid(device) && OneLine(ShowUuid(device))
    ensures Trim(SIGNATURE_VERSION) == SIGNATURE_VERSION && OneLine(SIGNATURE_VERSION)
    ensures Trim(signature) == signature && OneLine(signature) && Lower(signature) == signature
  {
    forall i | 0 <= i < 36 ensures !IsSpace(ShowUuid(device)[i]) {
      ShownChars(device, i);
    }
    hide ShowUuid;
    SolidStays(ShowUuid(device));
    SolidStays(SIGNATURE_VERSION);
    SolidStays(signature);
    assert forall i :: 0 <= i < |signature| ==> Lower(signature)[i] == signature[i];
  }

  function AuthHeaders(device: Uuid, nonce: Uuid, signature: string): seq<Header> {
    [Header(DEVICE_HEADER, ShowUuid(device)), Header(NONCE_HEADER, ShowUuid(nonce)),
     Header(VERSION_HEADER, SIGNATURE_VERSION), Header(SIGNATURE_HEADER, signature)]
  }

  lemma AuthHeadersSend(device: Uuid, nonce: Uuid, signature: string)
    requires forall i :: 0 <= i < |signature| ==> IsLowerHex(signature[i])
    ensures Extra(AuthHeaders(device, nonce, signature))
  {
    hide Lower, Trim, Contains, ShowUuid;
    AuthNames();
    SolidValues(device, signature);
    SolidValues(nonce, signature);
    assert |"content-length"| == 14;
  }

  /** The server's header map holds the four values as they were sent. */
  lemma AuthHeadersArrive(host: string, device: Uuid, nonce: Uuid, signature: string)
    requires forall i :: 0 <= i < |signature| ==> IsLowerHex(signature[i])
    ensures var m := AddedAll(GetHeaders(host, AuthHeaders(device, nonce, signature)), map[]);
      && DEVICE_HEADER in m && m[DEVICE_HEADER] == ShowUuid(device)
      && NONCE_HEADER in m && m[NONCE_HEADER] == ShowUuid(nonce)
      && VERSION_HEADER in m && m[VERSION_HEADER] == SIGNATURE_VERSION
      && SIGNATURE_HEADER in m && m[SIGNATURE_HEADER] == signature
  {
    hide Lower, Trim, Contains, ShowUuid, AddedAll;
    AuthNames();
    SolidValues(device, signature);
    SolidValues(nonce, signature);
    var hs := GetHeaders(host, AuthHeaders(device, nonce, signature));
    assert hs[3].name == DEVICE_HEADER && hs[4].name == NONCE_HEADER && hs[5].name == VERSION_HEADER && hs[6].name == SIGNATURE_HEADER;
    LastAdded(hs, map[], 3, DEVICE_HEADER);
    LastAdded(hs, map[], 4, NONCE_HEADER);
    LastAdded(hs, map[], 5, VERSION_HEADER);
    LastAdded(hs, map[], 6, SIGNATURE_HEADER);
  }

  lemma CredentialsArrive(host: string, device: Uuid, nonce: Uuid, signature: string)
    requires |signature| == 64 && forall i :: 0 <= i < |signature| ==> IsLowerHex(signature[i])
    ensures CredentialsFrom(AddedAll(GetHeaders(host, AuthHeaders(device, nonce, signature)), map[])) ==
      Ok(Credentials(device, ShowUuid(nonce), signature))
  {
    AuthHeadersArrive(host, device, nonce, signature);
    UuidRoundTrip(device);
    SolidValues(nonce, signature);
    forall i | 0 <= i < |signature| ensures IsHex(signature[i]) {
      assert LowerChar(signature[i]) == signature[i];
    }
    hide AddedAll, GetHeaders, AuthHeaders, ParseUuid, ShowUuid, Trim, Lower, IsHex;
    assert signature != "" && ShowUuid(nonce) != "";
  }

  // ----- the query survives too -----

  lemma QueryNames(logbook: Uuid)
    ensures RequestedLogbook(logbook, LOGBOOK_KEY + "=" + ShowUuid(logbook)) == Ok(logbook)
  {
    var id := ShowUuid(logbook);
    forall i | 0 <= i < 36 ensures id[i] != '&' && id[i] != '+' {
      ShownChars(logbook, i);
    }
    hide ShowUuid, ParseUuid;
    var query := LOGBOOK_KEY + "=" + id;
    assert forall i :: 0 <= i < |LOGBOOK_KEY| ==> query[i] == LOGBOOK_KEY[i];
    assert forall i :: 11 <= i < |query| ==> query[i] == id[i - 11];
    assert !Contains(query, '&');
    assert query == LOGBOOK_KEY + ['='] + id;
    SplitOnceIn(LOGBOOK_KEY, '=', id);
    assert Decoded(LOGBOOK_KEY) == LOGBOOK_KEY && Decoded(id) == id;
    assert SplitOnce(query, '&') == None;
    UuidRoundTrip(logbook);
  }

  lemma PathSplits(endpoint: string, logbook: Uuid)
    requires Word(endpoint) && !Contains(endpoint, '?')
    ensures Word(SyncPath(endpoint, logbook))
    ensures SplitTarget(SyncPath(endpoint, logbook)) == (endpoint, LOGBOOK_KEY + "=" + ShowUuid(logbook))
  {
    var id := ShowUuid(logbook);
    forall i | 0 <= i < 36 ensures !IsSpace(id[i]) {
      ShownChars(logbook, i);
    }
    hide ShowUuid;
    var query := LOGBOOK_KEY + "=" + id;
    assert SyncPath(endpoint, logbook) == endpoint + ['?'] + query;
    SplitOnceIn(endpoint, '?', query);
  }

  /** Two peers ready to talk about a logbook: each trusts the other for it, neither
      has revoked the other, and they share one secret. */
  ghost predicate Paired(client: Peer, server: Peer, logbook: Uuid, secret: string) {
    && SharedSecret(client, server.device, logbook, "") == Ok(secret)
    && SharedSecret(server, client.device, logbook, "") == Ok(secret)
  }

  /** No live record of the server shows this nonce from this device. */
  ghost predicate FreshNonce(hash: NonceHash, server: Peer, device: Uuid, nonce: Uuid, now: int) {
    !Seen(Pruned(server.trust.nonces, now), device, hash(device, ShowUuid(nonce)))
  }

  /** An honest request always gets through: what the signer builds, printed by the
      client, parsed by the server and checked there succeeds for a paired peer, the
      served logbook and a fresh nonce, and leaves its nonce on record. */
  lemma HonestRequestAccepted(
    mac: Mac, hash: NonceHash, client: Peer, server: Peer, secret: string,
    logbook: Uuid, endpoint: string, host: string, nonce: Uuid, now: int)
    requires Paired(client, server, logbook, secret)
    requires FreshNonce(hash, server, client.device, nonce, now)
    requires Word(endpoint) && !Contains(endpoint, '?') && OneLine(host)
    ensures var path := SyncPath(endpoint, logbook);
      var signed := RequestHeaders(mac, client, server.device, logbook, "GET", path, nonce);
      && signed.Ok?
      && var received := ReadRequest(GetRequest(path, host, signed.value));
         && received.Some?
         && var served := Serve(mac, hash, server, logbook, received.value, now);
            && served.result == Ok(())
            && served.trust.nonces == Pruned(server.trust.nonces, now) +
                 [NonceRecord(client.device, hash(client.device, ShowUuid(nonce)), now, now + NONCE_TTL)]
  {
    hide ShowUuid, SyncPath, GetRequest, ReadRequest, RequestedLogbook, SplitTarget, CredentialsFrom, GetHeaders, AddedAll, Seen, Pruned, Contains;
    var path := SyncPath(endpoint, logbook);
    PathSplits(endpoint, logbook);
    QueryNames(logbook);
    var signature := Signature(mac, secret, client.device, logbook, "GET", path, ShowUuid(nonce));
    hide Signature;
    assert RequestHeaders(mac, client, server.device, logbook, "GET", path, nonce) == Ok(AuthHeaders(client.device, nonce, signature));
    AuthHeadersSend(client.device, nonce, signature);
    GetReads(path, host, AuthHeaders(client.device, nonce, signature));
    CredentialsArrive(host, client.device, nonce, signature);
  }

  // ----- which logbook a query asks for -----

  /** Only the served logbook is ever answered for. */
  lemma OnlyServed(served: Uuid, query: string)
    ensures RequestedLogbook(served, query).Ok? ==> RequestedLogbook(served, query).value == served
  {
    hide ParseQuery, ParseUuid;
  }

  lemma {:induction false} PartsBefore(query: string, part: string, params: map<string, string>)
    requires !Contains(part, '&')
    ensures exists earlier :: ParseQuery(query + ['&'] + part, params) == AddPart(part, earlier)
    decreases |query|
  {
    var all := query + ['&'] + part;
    hide AddPart;
    if Contains(query, '&') {
      var i := Find(query, '&').value;
      assert !Contains(query[..i], '&');
      assert all == query[..i] + ['&'] + (query[i + 1..] + ['&'] + part);
      SplitOnceIn(query[..i], '&', query[i + 1..] + ['&'] + part);
      PartsBefore(query[i + 1..], part, AddPart(query[..i], params));
    } else {
      SplitOnceIn(query, '&', part);
      assert ParseQuery(part, AddPart(query, params)) == AddPart(part, AddPart(query, params));
    }
  }

  /** The last part that names a logbook decides: left empty it means the served one,
      and otherwise it must be that one's id, with 400 for no id and 403 for another. */
  lemma LastLogbookDecides(served: Uuid, before: string, value: string)
    requires !Contains(value, '&')
    ensures RequestedLogbook(served, before + ['&'] + (LOGBOOK_KEY + ['='] + value)) ==
      if value == "" then Ok(served)
      else if ParseUuid(Decoded(value)).None? then Err(Refused(400, "invalid logbook_id"))
      else if ParseUuid(Decoded(value)).value != served then Err(Refused(403, "requested logbook is not served by this peer"))
      else Ok(served)
  {
    var part := LOGBOOK_KEY + ['='] + value;
    forall i | 0 <= i < |part| ensures part[i] != '&' {
      assert i > 10 ==> part[i] == value[i - 11];
    }
    PartsBefore(before, part, map[]);
    SplitOnceIn(LOGBOOK_KEY, '=', value);
    assert Decoded(LOGBOOK_KEY) == LOGBOOK_KEY;
    hide ParseQuery, ParseUuid, SplitOnce, Contains;
  }

  /** A sync read is answered exactly when it asks for the served logbook and passes the
      trust checks for it. A refusal is 400 for a logbook id that cannot be read and 403
      for anything else, and leaves the trust file as it was. */
  lemma ServeExactly(mac: Mac, hash: NonceHash, peer: Peer, served: Uuid, request: Request, now: int)
    ensures var s := Serve(mac, hash, peer, served, request, now); var query := SplitTarget(request.target).1;
      && (s.result.Ok? <==>
            RequestedLogbook(served, query) == Ok(served) && RequireAuth(mac, hash, peer, request, served, now).result.Ok?)
      && (s.result.Err? ==>
            && s.trust == peer.trust
            && (s.result.error.status == 400 <==> RequestedLogbook(served, query) == Err(Refused(400, "invalid logbook_id")))
            && (s.result.error.status != 400 ==> s.result.error.status == 403))
  {
    OnlyServed(served, SplitTarget(request.target).1);
    RequestRefusals(served, SplitTarget(request.target).1);
    RefusalChangesNothing(mac, hash, peer, request, served, now);
    hide RequestedLogbook, RequireAuth, SplitTarget;
  }

  lemma RequestRefusals(served: Uuid, query: string)
    ensures var r := RequestedLogbook(served, query);
      r.Err? ==> r.error.status == 403 || r.error == Refused(400, "invalid logbook_id")
  {
    hide ParseQuery, ParseUuid;
  }

  /** A query without any part asks for the served logbook. */
  lemma NoQueryServed(served: Uuid)
    ensures RequestedLogbook(served, "") == Ok(served)
  {
    assert SplitOnce("", '&').None?;
  }
}
