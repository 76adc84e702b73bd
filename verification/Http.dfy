/** The hand-written HTTP/1.1 client and server of the LAN sync
    (crates/ham-client/src/serve.rs:984-1028, 1478-1513, 8044-8137 and 9010-9027;
    sections 2.1, 3 and 6.2 of RFC 9112). A message is the sequence of its bytes,
    one char per byte. */
module Http {
  import opened Basics
  import opened Text

  const CRLF := "\r\n"

  // ----- lines and words -----

  /** read_line: up to and including the next newline, or all that is left. */
  function LineEnd(s: string): (n: nat)
    ensures n <= |s|
    ensures s != "" ==> n > 0
  {
    match Find(s, '\n')
    case Some(i) => i + 1
    case None => |s|
  }

  function WordLength(s: string): (n: nat)
    ensures n <= |s|
  {
    if s == "" || IsSpace(s[0]) then 0 else 1 + WordLength(s[1..])
  }

  /** The next word of split_whitespace and what follows it. */
  function NextWord(s: string): (string, string) {
    var t := TrimStart(s);
    (t[..WordLength(t)], t[WordLength(t)..])
  }

  // ----- reading a request -----

  type Headers = map<string, string>

  datatype Request = Request(verb: string, target: string, headers: Headers, body: string)

  /** What one trimmed header line adds. */
  function AddHeader(line: string, headers: Headers, length: nat): (Headers, nat) {
    match SplitOnce(line, ':')
    case None => (headers, length)
    case Some((rawName, rawValue)) =>
      var name, value := Lower(Trim(rawName)), Trim(rawValue);
      var length' :=
        if name == "content-length" then (match ParseUsize(value) case Some(n) => n case None => 0) else length;
      (headers[name := value], length')
  }

  /** Header lines up to the first blank one: the headers, the declared length and
      the remaining bytes. */
  function ReadHeaders(s: string, headers: Headers, length: nat): (Headers, nat, string)
    decreases |s|
  {
    var n := LineEnd(s);
    var line := TrimEnd(s[..n]);
    if line == "" then (headers, length, s[n..])
    else
      var (headers', length') := AddHeader(line, headers, length);
      ReadHeaders(s[n..], headers', length')
  }

  function WordOr(word: string, fallback: string): string {
    if word == "" then fallback else word
  }

  /** read_http_request: None when the bytes end inside the declared body. */
  function ReadRequest(s: string): Option<Request> {
    var n := LineEnd(s);
    var (verb, rest) := NextWord(s[..n]);
    var (target, _) := NextWord(rest);
    var (headers, length, body) := ReadHeaders(s[n..], map[], 0);
    if length > |body| then None
    else Some(Request(WordOr(verb, "GET"), WordOr(target, "/"), headers, body[..length]))
  }

  /** The same, the way it is written: one pass filling a header map. */
  method ReadHttpRequest(input: string) returns (r: Option<Request>)
    ensures r == ReadRequest(input)
  {
    hide LineEnd, NextWord, AddHeader;
    var n := LineEnd(input);
    var (verb, afterVerb) := NextWord(input[..n]);
    var (target, _) := NextWord(afterVerb);
    var rest := input[n..];
    var contentLength := 0;
    var headers: Headers := map[];
    while true
      invariant ReadHeaders(rest, headers, contentLength) == ReadHeaders(input[n..], map[], 0)
      decreases |rest|
    {
      var k := LineEnd(rest);
      var header := TrimEnd(rest[..k]);
      if header == "" {
        rest := rest[k..];
        break;
      }
      var (headers', length') := AddHeader(header, headers, contentLength);
      rest, headers, contentLength := rest[k..], headers', length';
    }
    if contentLength > |rest| {
      return None;
    }
    return Some(Request(WordOr(verb, "GET"), WordOr(target, "/"), headers, rest[..contentLength]));
  }

  // ----- writing -----

  datatype Header = Header(name: string, value: string)

  function HeaderLine(h: Header): string {
    h.name + ": " + h.value + CRLF
  }

  function HeaderLines(headers: seq<Header>): string {
    if headers == [] then "" else HeaderLine(headers[0]) + HeaderLines(headers[1..])
  }

  function Message(first: string, headers: seq<Header>, body: string): string {
    first + CRLF + HeaderLines(headers) + CRLF + body
  }

  /** lan_http_extra_headers. */
  method ExtraHeaders(extra: seq<Header>) returns (text: string)
    ensures text == HeaderLines(extra)
  {
    text := "";
    for i := 0 to |extra|
      invariant text == HeaderLines(extra[..i])
    {
      assert extra[..i + 1] == extra[..i] + [extra[i]];
      HeaderLinesConcat(extra[..i], [extra[i]]);
      assert HeaderLines([extra[i]]) == HeaderLine(extra[i]);
      text := text + extra[i].name + ": " + extra[i].value + CRLF;
    }
    assert extra[..|extra|] == extra;
  }

  lemma {:induction false} HeaderLinesConcat(a: seq<Header>, b: seq<Header>)
    ensures HeaderLines(a + b) == HeaderLines(a) + HeaderLines(b)
  {
    hide HeaderLine;
    if a == [] {
      assert a + b == b;
    } else {
      assert (a + b)[1..] == a[1..] + b;
      HeaderLinesConcat(a[1..], b);
    }
  }

  /** A name or value that stays on its line; a name also ends at the colon. */
  predicate OneLine(s: string) {
    !Contains(s, '\n')
  }

  predicate Sendable(h: Header) {
    OneLine(h.name) && OneLine(h.value) && !Contains(h.name, ':')
  }

  // ----- reading back what was written -----

  lemma LineOf(line: string, rest: string)
    requires OneLine(line)
    ensures var s := line + "\n" + rest; s[..LineEnd(s)] == line + "\n" && s[LineEnd(s)..] == rest
  {
    FindIn(line, '\n', rest);
    var s := line + "\n" + rest;
    assert s == line + ['\n'] + rest;
    assert s[..|line| + 1] == line + "\n" && s[|line| + 1..] == rest;
  }

  lemma HeaderLineTrimmed(h: Header)
    requires Sendable(h)
    ensures var line := TrimEnd(HeaderLine(h));
      line != "" && SplitOnce(line, ':').Some? && SplitOnce(line, ':').value.0 == h.name && Trim(SplitOnce(line, ':').value.1) == Trim(h.value)
  {
    var tail := " " + h.value + CRLF;
    assert HeaderLine(h) == (h.name + ":") + tail;
    TrimEndAfter(h.name + ":", tail);
    assert h.name + ":" + TrimEnd(tail) == h.name + [':'] + TrimEnd(tail);
    SplitOnceIn(h.name, ':', TrimEnd(tail));
    TrimAfterTrimEnd(tail);
    TrimPadding(h.value);
  }

  lemma TrimPadding(value: string)
    ensures Trim(" " + value + CRLF) == Trim(value)
  {
    var s := value + CRLF;
    assert " " + value + CRLF == " " + s && (" " + s)[1..] == s;
    assert s == value + "\r" + "\n";
    TrimDropsLast(value + "\r", '\n');
    TrimDropsLast(value, '\r');
  }

  /** What reading a header adds to the map and to the declared length. */
  function Added(h: Header, headers: Headers): Headers {
    headers[Lower(Trim(h.name)) := Trim(h.value)]
  }

  function Declared(h: Header, length: nat): nat {
    if Lower(Trim(h.name)) != "content-length" then length
    else match ParseUsize(Trim(h.value)) case Some(n) => n case None => 0
  }

  lemma HeaderRead(h: Header, rest: string, headers: Headers, length: nat)
    requires Sendable(h)
    ensures ReadHeaders(HeaderLine(h) + rest, headers, length) == ReadHeaders(rest, Added(h, headers), Declared(h, length))
  {
    hide TrimEnd, Trim, LineEnd, Lower, ParseUsize, Contains;
    var line := h.name + ": " + h.value + "\r";
    assert HeaderLine(h) + rest == line + "\n" + rest;
    assert HeaderLine(h) == line + "\n";
    LineIsOne(h);
    LineOf(line, rest);
    HeaderLineTrimmed(h);
  }

  lemma LineIsOne(h: Header)
    requires Sendable(h)
    ensures OneLine(h.name + ": " + h.value + "\r")
  {
    var line := h.name + ": " + h.value + "\r";
    assert forall i :: 0 <= i < |h.name| ==> h.name[i] != '\n';
    assert forall i :: 0 <= i < |h.value| ==> h.value[i] != '\n';
  }

  function AddedAll(hs: seq<Header>, headers: Headers): Headers {
    if hs == [] then headers else AddedAll(hs[1..], Added(hs[0], headers))
  }

  function DeclaredAll(hs: seq<Header>, length: nat): nat {
    if hs == [] then length else DeclaredAll(hs[1..], Declared(hs[0], length))
  }

  predicate AllSendable(hs: seq<Header>) {
    forall h :: h in hs ==> Sendable(h)
  }

  lemma {:induction false} HeadersRead(hs: seq<Header>, rest: string, headers: Headers, length: nat)
    requires AllSendable(hs)
    ensures ReadHeaders(HeaderLines(hs) + rest, headers, length) == ReadHeaders(rest, AddedAll(hs, headers), DeclaredAll(hs, length))
  {
    hide ReadHeaders, HeaderLine, Sendable, Added, Declared;
    if hs == [] {
      assert HeaderLines(hs) + rest == rest;
    } else {
      assert HeaderLines(hs) + rest == HeaderLine(hs[0]) + (HeaderLines(hs[1..]) + rest);
      HeaderRead(hs[0], HeaderLines(hs[1..]) + rest, headers, length);
      HeadersRead(hs[1..], rest, Added(hs[0], headers), Declared(hs[0], length));
    }
  }

  lemma BlankLineEnds(body: string, headers: Headers, length: nat)
    ensures ReadHeaders(CRLF + body, headers, length) == (headers, length, body)
  {
    LineOf("\r", body);
    assert CRLF + body == "\r" + "\n" + body;
    TrimEndSpaces("", CRLF);
    assert "" + CRLF == CRLF == "\r" + "\n";
  }

  /** A word: not empty and free of white space. */
  predicate Word(s: string) {
    s != "" && forall i :: 0 <= i < |s| ==> !IsSpace(s[i])
  }

  lemma {:induction false} WordLengthOf(w: string, rest: string)
    requires (forall i :: 0 <= i < |w| ==> !IsSpace(w[i])) && (rest == "" || IsSpace(rest[0]))
    ensures WordLength(w + rest) == |w|
  {
    if w == "" {
      assert w + rest == rest;
    } else {
      assert (w + rest)[1..] == w[1..] + rest;
      WordLengthOf(w[1..], rest);
    }
  }

  lemma TakeWord(w: string, rest: string)
    requires Word(w) && (rest == "" || IsSpace(rest[0]))
    ensures NextWord(w + rest) == (w, rest) && NextWord(" " + w + rest) == (w, rest)
  {
    WordLengthOf(w, rest);
    var s := w + rest;
    assert s[0] == w[0] && s[..|w|] == w && s[|w|..] == rest;
    assert " " + w + rest == " " + s && (" " + s)[1..] == s;
  }

  lemma RequestLineRead(verb: string, target: string, rest: string)
    requires Word(verb) && Word(target)
    ensures var s := verb + " " + target + " HTTP/1.1" + CRLF + rest; var n := LineEnd(s);
      && s[n..] == rest && NextWord(s[..n]).0 == verb && NextWord(NextWord(s[..n]).1).0 == target
  {
    var line := verb + " " + target + " HTTP/1.1\r";
    assert verb + " " + target + " HTTP/1.1" + CRLF + rest == line + "\n" + rest;
    WordsStayOnLine(verb, target);
    LineOf(line, rest);
    var tail := " HTTP/1.1\r\n";
    assert line + "\n" == verb + (" " + target + tail);
    TakeWord(verb, " " + target + tail);
    TakeWord(target, tail);
  }

  lemma WordsStayOnLine(verb: string, target: string)
    requires Word(verb) && Word(target)
    ensures OneLine(verb + " " + target + " HTTP/1.1\r")
  {
    assert forall i :: 0 <= i < |verb| ==> verb[i] != '\n';
    assert forall i :: 0 <= i < |target| ==> target[i] != '\n';
  }

  /** A printed request reads back as sent: names in lower case, names and values
      trimmed, and the body cut at the length declared last. */
  lemma RequestReads(verb: string, target: string, hs: seq<Header>, body: string)
    requires Word(verb) && Word(target) && AllSendable(hs)
    ensures ReadRequest(Message(verb + " " + target + " HTTP/1.1", hs, body)) ==
      if DeclaredAll(hs, 0) > |body| then None
      else Some(Request(verb, target, AddedAll(hs, map[]), body[..DeclaredAll(hs, 0)]))
  {
    hide ReadHeaders, HeaderLines, LineEnd, NextWord, Word, AllSendable, AddedAll, DeclaredAll;
    var rest := HeaderLines(hs) + CRLF + body;
    var first := verb + " " + target + " HTTP/1.1";
    assert Message(first, hs, body) == first + CRLF + rest;
    assert rest == HeaderLines(hs) + (CRLF + body);
    RequestLineRead(verb, target, rest);
    HeadersRead(hs, CRLF + body, map[], 0);
    BlankLineEnds(body, AddedAll(hs, map[]), DeclaredAll(hs, 0));
    NotEmptyWords(verb, target);
  }

  lemma NotEmptyWords(verb: string, target: string)
    requires Word(verb) && Word(target)
    ensures verb != "" && target != ""
  {
  }

  // ----- the LAN client's two requests -----

  const ACCEPT := Header("Accept", "application/json")
  const CONTENT_TYPE := Header("Content-Type", "application/json")
  const CLOSE := Header("Connection", "close")

  /** lan_http_get_json: the bytes written. */
  function GetRequest(path: string, host: string, extra: seq<Header>): string {
    "GET " + path + " HTTP/1.1" + CRLF +
    HeaderLine(Header("Host", host)) + HeaderLine(ACCEPT) + HeaderLine(CLOSE) +
    HeaderLines(extra) + CRLF
  }

  /** lan_http_post_json. */
  function PostRequest(path: string, host: string, body: string, extra: seq<Header>): string {
    "POST " + path + " HTTP/1.1" + CRLF +
    HeaderLine(Header("Host", host)) + HeaderLine(ACCEPT) + HeaderLine(CONTENT_TYPE) +
    HeaderLine(Header("Content-Length", ShowNat(|body|))) + HeaderLine(CLOSE) +
    HeaderLines(extra) + CRLF + body
  }

  function GetHeaders(host: string, extra: seq<Header>): seq<Header> {
    [Header("Host", host), ACCEPT, CLOSE] + extra
  }

  function PostHeaders(host: string, body: string, extra: seq<Header>): seq<Header> {
    [Header("Host", host), ACCEPT, CONTENT_TYPE, Header("Content-Length", ShowNat(|body|)), CLOSE] + extra
  }

  lemma ThreeLines(a: Header, b: Header, c: Header)
    ensures HeaderLines([a, b, c]) == HeaderLine(a) + HeaderLine(b) + HeaderLine(c)
  {
    hide HeaderLine;
    assert [a, b, c] == [a] + ([b] + [c]);
    HeaderLinesConcat([a], [b] + [c]);
    HeaderLinesConcat([b], [c]);
    OneHeaderLine(a);
    OneHeaderLine(b);
    OneHeaderLine(c);
    ConcatAssociates(HeaderLine(a), HeaderLine(b), HeaderLine(c));
  }

  lemma OneHeaderLine(h: Header)
    ensures HeaderLines([h]) == HeaderLine(h)
  {
  }

  lemma JoinMessage(first: string, a: string, b: string, c: string, rest: string, body: string)
    ensures first + CRLF + a + b + c + rest + CRLF + body == first + CRLF + (a + b + c + rest) + CRLF + body
  {
  }

  lemma GetIsMessage(path: string, host: string, extra: seq<Header>)
    ensures GetRequest(path, host, extra) == Message("GET " + path + " HTTP/1.1", GetHeaders(host, extra), "")
  {
    hide HeaderLines, HeaderLine;
    var h := Header("Host", host);
    HeaderLinesConcat([h, ACCEPT, CLOSE], extra);
    ThreeLines(h, ACCEPT, CLOSE);
    var first := "GET " + path + " HTTP/1.1";
    JoinMessage(first, HeaderLine(h), HeaderLine(ACCEPT), HeaderLine(CLOSE), HeaderLines(extra), "");
    assert GetRequest(path, host, extra) + "" == GetRequest(path, host, extra);
  }

  lemma FiveLines(a: Header, b: Header, c: Header, d: Header, e: Header, extra: seq<Header>)
    ensures HeaderLines([a, b, c, d, e] + extra) ==
      HeaderLine(a) + HeaderLine(b) + HeaderLine(c) + HeaderLine(d) + HeaderLine(e) + HeaderLines(extra)
  {
    hide HeaderLines, HeaderLine;
    assert [a, b, c, d, e] + extra == [a, b, c] + ([d] + ([e] + extra));
    HeaderLinesConcat([a, b, c], [d] + ([e] + extra));
    HeaderLinesConcat([d], [e] + extra);
    HeaderLinesConcat([e], extra);
    ThreeLines(a, b, c);
    OneHeaderLine(d);
    OneHeaderLine(e);
  }

  lemma JoinFive(first: string, a: string, b: string, c: string, d: string, e: string, rest: string, body: string)
    ensures first + CRLF + a + b + c + d + e + rest + CRLF + body == first + CRLF + (a + b + c + d + e + rest) + CRLF + body
  {
  }

  lemma PostIsMessage(path: string, host: string, body: string, extra: seq<Header>)
    ensures PostRequest(path, host, body, extra) == Message("POST " + path + " HTTP/1.1", PostHeaders(host, body, extra), body)
  {
    hide HeaderLines, HeaderLine, ShowNat;
    var h, length := Header("Host", host), Header("Content-Length", ShowNat(|body|));
    FiveLines(h, ACCEPT, CONTENT_TYPE, length, CLOSE, extra);
    JoinFive(
      "POST " + path + " HTTP/1.1", HeaderLine(h), HeaderLine(ACCEPT), HeaderLine(CONTENT_TYPE), HeaderLine(length),
      HeaderLine(CLOSE), HeaderLines(extra), body);
  }

  // ----- both requests, end to end -----

  /** Headers a caller may add: none of them declares a length. */
  predicate Extra(hs: seq<Header>) {
    AllSendable(hs) && forall h :: h in hs ==> Lower(Trim(h.name)) != "content-length"
  }

  lemma {:induction false} ExtraDeclaresNothing(hs: seq<Header>, length: nat)
    requires Extra(hs)
    ensures DeclaredAll(hs, length) == length
  {
    if hs != [] {
      assert Lower(Trim(hs[0].name)) != "content-length";
      hide Declared;
      DeclaresNothing(hs[0], length);
      ExtraDeclaresNothing(hs[1..], length);
    }
  }

  lemma DeclaresNothing(h: Header, length: nat)
    requires Lower(Trim(h.name)) != "content-length"
    ensures Declared(h, length) == length
  {
  }

  /** A trimmed name of another length does not declare one. */
  lemma OtherName(name: string)
    requires Trimmed(name) && |name| != 14
    ensures Lower(Trim(name)) != "content-length"
  {
    TrimmedStays(name);
    assert |"content-length"| == 14;
  }

  lemma HostSendable(host: string)
    requires OneLine(host)
    ensures Sendable(Header("Host", host))
  {
  }

  lemma FixedSendable()
    ensures Sendable(ACCEPT) && Sendable(CONTENT_TYPE) && Sendable(CLOSE)
  {
  }

  lemma LengthSendable(n: nat)
    ensures Sendable(Header("Content-Length", ShowNat(n)))
  {
    var digits := ShowNat(n);
    assert forall i :: 0 <= i < |digits| ==> digits[i] != '\n';
  }

  lemma LengthDeclared(n: nat)
    requires n <= USIZE_MAX
    ensures forall before :: Declared(Header("Content-Length", ShowNat(n)), before) == n
  {
    TrimmedStays("Content-Length");
    assert Lower("Content-Length") == "content-length";
    assert IsDigit(ShowNat(n)[0]) && IsDigit(ShowNat(n)[|ShowNat(n)| - 1]);
    TrimmedStays(ShowNat(n));
    ParseShown(n);
  }

  lemma FixedDeclareNothing(host: string, before: nat)
    ensures Declared(Header("Host", host), before) == before
    ensures Declared(ACCEPT, before) == Declared(CONTENT_TYPE, before) == Declared(CLOSE, before) == before
  {
    OtherName("Host");
    OtherName("Accept");
    OtherName("Content-Type");
    OtherName("Connection");
    hide Lower, Trim;
  }

  /** A LAN GET request reads back whole. */
  lemma GetReads(path: string, host: string, extra: seq<Header>)
    requires Word(path) && OneLine(host) && Extra(extra)
    ensures ReadRequest(GetRequest(path, host, extra)) == Some(Request("GET", path, AddedAll(GetHeaders(host, extra), map[]), ""))
  {
    hide GetRequest, Sendable, Added, Trim, Lower, Message, ReadRequest, OneLine, ShowNat, Declared;
    GetIsMessage(path, host, extra);
    HostSendable(host);
    FixedSendable();
    FixedDeclareNothing(host, 0);
    var hs := GetHeaders(host, extra);
    assert hs[0] == Header("Host", host) && hs[1] == ACCEPT && hs[2] == CLOSE && hs[3..] == extra;
    assert hs[1..][1..][1..] == extra;
    ExtraDeclaresNothing(extra, 0);
    assert DeclaredAll(hs, 0) == DeclaredAll(hs[1..], 0) == DeclaredAll(hs[1..][1..], 0) == DeclaredAll(extra, 0);
    assert "GET " + path + " HTTP/1.1" == "GET" + " " + path + " HTTP/1.1";
    RequestReads("GET", path, hs, "");
  }

  /** A LAN POST request reads back whole, body and all. */
  lemma PostReads(path: string, host: string, body: string, extra: seq<Header>)
    requires Word(path) && OneLine(host) && Extra(extra) && |body| <= USIZE_MAX
    ensures ReadRequest(PostRequest(path, host, body, extra)) ==
      Some(Request("POST", path, AddedAll(PostHeaders(host, body, extra), map[]), body))
  {
    hide PostRequest, Sendable, Added, Trim, Lower, Message, ReadRequest, OneLine, ShowNat, Declared;
    PostIsMessage(path, host, body, extra);
    HostSendable(host);
    FixedSendable();
    LengthSendable(|body|);
    LengthDeclared(|body|);
    FixedDeclareNothing(host, 0);
    FixedDeclareNothing(host, |body|);
    var hs := PostHeaders(host, body, extra);
    var length := Header("Content-Length", ShowNat(|body|));
    assert hs == [Header("Host", host), ACCEPT, CONTENT_TYPE, length, CLOSE] + extra;
    PostDeclares(Header("Host", host), length, extra, |body|);
    assert AllSendable(hs) by {
      assert forall h :: h in hs ==> h in [Header("Host", host), ACCEPT, CONTENT_TYPE, length, CLOSE] || h in extra;
    }
    assert "POST " + path + " HTTP/1.1" == "POST" + " " + path + " HTTP/1.1";
    assert body[..|body|] == body;
    RequestReads("POST", path, hs, body);
  }

  lemma PostDeclares(h: Header, length: Header, extra: seq<Header>, n: nat)
    requires Extra(extra)
    requires Declared(h, 0) == Declared(ACCEPT, 0) == Declared(CONTENT_TYPE, 0) == 0
    requires Declared(length, 0) == n && Declared(CLOSE, n) == n
    ensures DeclaredAll([h, ACCEPT, CONTENT_TYPE, length, CLOSE] + extra, 0) == n
  {
    hide Declared, Lower, Trim;
    DeclareOne(h, [ACCEPT, CONTENT_TYPE, length, CLOSE] + extra, 0);
    DeclareOne(ACCEPT, [CONTENT_TYPE, length, CLOSE] + extra, 0);
    DeclareOne(CONTENT_TYPE, [length, CLOSE] + extra, 0);
    DeclareOne(length, [CLOSE] + extra, 0);
    DeclareOne(CLOSE, extra, n);
    assert [h] + ([ACCEPT, CONTENT_TYPE, length, CLOSE] + extra) == [h, ACCEPT, CONTENT_TYPE, length, CLOSE] + extra;
    assert [ACCEPT] + ([CONTENT_TYPE, length, CLOSE] + extra) == [ACCEPT, CONTENT_TYPE, length, CLOSE] + extra;
    assert [CONTENT_TYPE] + ([length, CLOSE] + extra) == [CONTENT_TYPE, length, CLOSE] + extra;
    assert [length] + ([CLOSE] + extra) == [length, CLOSE] + extra;
    ExtraDeclaresNothing(extra, n);
  }

  lemma DeclareOne(h: Header, rest: seq<Header>, before: nat)
    ensures DeclaredAll([h] + rest, before) == DeclaredAll(rest, Declared(h, before))
  {
    hide Declared;
    assert ([h] + rest)[1..] == rest;
  }

  // ----- responses -----

  function StatusText(status: nat): string {
    match status
    case 200 => "OK"
    case 404 => "Not Found"
    case 400 => "Bad Request"
    case 403 => "Forbidden"
    case 409 => "Conflict"
    case 502 => "Bad Gateway"
    case 500 => "Internal Server Error"
    case _ => "OK"
  }

  function StatusLine(status: nat): string {
    "HTTP/1.1 " + ShowNat(status) + " " + StatusText(status)
  }

  function ResponseHeaders(contentType: string, length: nat, extra: seq<Header>): seq<Header> {
    [Header("Content-Type", contentType), Header("Content-Length", ShowNat(length)), CLOSE] + extra
  }

  /** response_with_headers: a header text grown line by line, then the body. */
  method ResponseWithHeaders(status: nat, contentType: string, body: string, extra: seq<Header>) returns (response: string)
    ensures response == Message(StatusLine(status), ResponseHeaders(contentType, |body|, extra), body)
  {
    hide ShowNat, StatusText, HeaderLine, HeaderLines;
    var fixed := [Header("Content-Type", contentType), Header("Content-Length", ShowNat(|body|)), CLOSE];
    ThreeLines(fixed[0], fixed[1], fixed[2]);
    var first := StatusLine(status) + CRLF;
    var header := first + HeaderLines(fixed);
    ghost var start := header;
    assert header + "" == header && extra[..0] == [];
    assert HeaderLines([]) == "" by { NoHeaderLines(); }
    for i := 0 to |extra|
      invariant header == start + HeaderLines(extra[..i])
    {
      assert extra[..i + 1] == extra[..i] + [extra[i]];
      HeaderLinesConcat(extra[..i], [extra[i]]);
      OneHeaderLine(extra[i]);
      ConcatAssociates(start, HeaderLines(extra[..i]), HeaderLine(extra[i]));
      header := header + HeaderLine(extra[i]);
    }
    assert extra[..|extra|] == extra;
    HeaderLinesConcat(fixed, extra);
    ConcatAssociates(first, HeaderLines(fixed), HeaderLines(extra));
    header := header + CRLF;
    response := header + body;
  }

  lemma NoHeaderLines()
    ensures HeaderLines([]) == ""
  {
  }

  /** The first blank line: position of the first CR LF CR LF. */
  function FindBlank(s: string): (r: Option<nat>)
    ensures r.Some? ==> r.value + 4 <= |s|
  {
    if |s| < 4 then None
    else if s[0] == '\r' && s[1] == '\n' && s[2] == '\r' && s[3] == '\n' then Some(0)
    else
      match FindBlank(s[1..])
      case None => None
      case Some(i) => Some(i + 1)
  }

  /** The first of lines(): up to a newline, without the CR before it. */
  function FirstLine(s: string): string {
    match Find(s, '\n')
    case None => s
    case Some(i) => if i > 0 && s[i - 1] == '\r' then s[..i - 1] else s[..i]
  }

  predicate Is200At(s: string, i: int) {
    0 <= i <= |s| - 5 && s[i..i + 5] == " 200 "
  }

  predicate Has200(s: string) {
    exists i :: 0 <= i < |s| && Is200At(s, i)
  }

  /** http_response_body: everything after the first blank line, if the status line
      mentions 200 between blanks. */
  function ResponseBody(response: string): Result<string, string> {
    match FindBlank(response)
    case None => Err("LAN peer response did not include HTTP headers")
    case Some(end) =>
      var statusLine := FirstLine(response[..end]);
      if Has200(statusLine) then Ok(response[end + 4..]) else Err("LAN peer returned " + statusLine)
  }

  predicate NoBreaks(s: string) {
    forall i :: 0 <= i < |s| ==> s[i] != '\r' && s[i] != '\n'
  }

  predicate Unbroken(h: Header) {
    NoBreaks(h.name) && NoBreaks(h.value)
  }

  lemma {:induction false} BlankAfterLine(line: string, rest: string)
    requires NoBreaks(line) && |rest| >= 2
    ensures FindBlank(line + CRLF + rest) ==
      if rest[0] == '\r' && rest[1] == '\n' then Some(|line|)
      else if FindBlank(rest).None? then None else Some(|line| + 2 + FindBlank(rest).value)
  {
    var s := line + CRLF + rest;
    if line == "" {
      assert s == ['\r', '\n'] + rest;
      assert s[1..] == ['\n'] + rest && s[1..][1..] == rest;
    } else {
      assert s[1..] == line[1..] + CRLF + rest;
      assert s[0] == line[0];
      BlankAfterLine(line[1..], rest);
    }
  }

  lemma HeaderLineUnbroken(h: Header)
    requires Unbroken(h)
    ensures NoBreaks(h.name + ": " + h.value) && HeaderLine(h) == h.name + ": " + h.value + CRLF
    ensures |HeaderLine(h)| == |h.name + ": " + h.value| + 2 && |h.name + ": " + h.value| >= 2
  {
  }

  /** The first blank line is the one after the headers, whatever the body holds. */
  lemma {:induction false} BlankAfterHeaders(line: string, hs: seq<Header>, body: string)
    requires NoBreaks(line) && forall h :: h in hs ==> Unbroken(h)
    ensures FindBlank(line + CRLF + HeaderLines(hs) + CRLF + body) == Some(|line| + |HeaderLines(hs)|)
    decreases |hs|
  {
    hide FindBlank, HeaderLine, Unbroken;
    if hs == [] {
      assert line + CRLF + HeaderLines(hs) + CRLF + body == line + CRLF + (CRLF + body);
      BlankAfterLine(line, CRLF + body);
    } else {
      HeaderLineUnbroken(hs[0]);
      var next := hs[0].name + ": " + hs[0].value;
      var rest := next + CRLF + HeaderLines(hs[1..]) + CRLF + body;
      assert line + CRLF + HeaderLines(hs) + CRLF + body == line + CRLF + rest;
      assert rest[0] == next[0];
      BlankAfterHeaders(next, hs[1..], body);
      BlankAfterLine(line, rest);
    }
  }

  lemma FirstLineOf(line: string, rest: string)
    requires NoBreaks(line)
    ensures FirstLine(line + CRLF + rest) == line
  {
    var before := line + "\r";
    assert line + CRLF + rest == before + ['\n'] + rest;
    FindIn(before, '\n', rest);
    var s := line + CRLF + rest;
    assert s[..|line|] == line && s[|line|] == '\r';
  }

  lemma StatusTextPlain(status: nat)
    ensures forall i :: 0 <= i < |StatusText(status)| ==>
      var c := StatusText(status)[i]; c != '2' && c != '\r' && c != '\n'
  {
  }

  lemma StatusLineUnbroken(status: nat)
    ensures NoBreaks(StatusLine(status))
  {
    StatusTextPlain(status);
    hide StatusText;
    var d := ShowNat(status);
    assert forall i :: 0 <= i < |d| ==> IsDigit(d[i]);
  }

  lemma ShowTwoHundred()
    ensures ShowNat(200) == "200"
  {
  }

  /** The only blank followed by a 2 in a status line is the one before the status. */
  lemma BlankBeforeTwo(d: string, text: string, i: nat)
    requires AllDigits(d) && forall k :: 0 <= k < |text| ==> text[k] != '2'
    ensures var s := "HTTP/1.1 " + d + " " + text;
      i + 1 < |s| && s[i] == ' ' && s[i + 1] == '2' ==> i == 8
  {
    var start := "HTTP/1.1 ";
    var s := start + d + " " + text;
    assert i < 9 ==> s[i] == start[i];
    assert 9 <= i < 9 + |d| ==> s[i] == d[i - 9];
    assert 9 + |d| <= i < |s| - 1 ==> s[i + 1] == text[i - |d| - 9];
  }

  /** Where " 200 " can be in a status line. */
  lemma Only200(status: nat, i: nat)
    requires i < |StatusLine(status)| && Is200At(StatusLine(status), i)
    ensures ShowNat(status) == "200"
  {
    StatusTextPlain(status);
    hide StatusText;
    var d, s := ShowNat(status), StatusLine(status);
    var found := s[i..i + 5];
    assert s[i] == found[0] == ' ' && s[i + 1] == found[1] == '2' && s[i + 2] == found[2] == '0';
    assert s[i + 3] == found[3] == '0' && s[i + 4] == found[4] == ' ';
    BlankBeforeTwo(d, StatusText(status), i);
    DigitsAre200(d, s, StatusText(status));
  }

  lemma DigitsAre200(d: string, s: string, text: string)
    requires AllDigits(d) && s == "HTTP/1.1 " + d + " " + text
    requires |s| >= 13 && s[9] == '2' && s[10] == '0' && s[11] == '0' && s[12] == ' '
    ensures d == "200"
  {
    assert forall k :: 0 <= k < |d| ==> s[9 + k] == d[k];
    assert s[9 + |d|] == ' ';
    assert |d| == 3;
  }

  lemma StatusLineHas200(status: nat)
    ensures Has200(StatusLine(status)) <==> status == 200
  {
    if status == 200 {
      ShowTwoHundred();
      var s := "HTTP/1.1 " + "200" + " " + "OK";
      assert s[8..13] == " 200 ";
      assert Is200At(StatusLine(status), 8);
    } else {
      ShowTwoHundred();
      assert DigitsValue(ShowNat(status)) == status && DigitsValue(ShowNat(200)) == 200;
      forall i | 0 <= i < |StatusLine(status)| ensures !Is200At(StatusLine(status), i) {
        if Is200At(StatusLine(status), i) {
          Only200(status, i);
        }
      }
    }
  }

  /** The client gets exactly the body back when the status is 200, whatever bytes
      the body holds, and an error naming the status line for every other status. */
  lemma ResponseRoundTrip(status: nat, contentType: string, body: string, extra: seq<Header>)
    requires NoBreaks(contentType) && forall h :: h in extra ==> Unbroken(h)
    ensures ResponseBody(Message(StatusLine(status), ResponseHeaders(contentType, |body|, extra), body)) ==
      if status == 200 then Ok(body) else Err("LAN peer returned " + StatusLine(status))
  {
    hide FindBlank, FirstLine, Has200, HeaderLines, StatusLine, NoBreaks, ShowNat;
    var hs := ResponseHeaders(contentType, |body|, extra);
    ResponseHeadersUnbroken(contentType, |body|, extra);
    StatusLineUnbroken(status);
    BlankAfterHeaders(StatusLine(status), hs, body);
    StatusLineHas200(status);
    BlockSplits(StatusLine(status), hs, body);
  }

  lemma ResponseHeadersUnbroken(contentType: string, length: nat, extra: seq<Header>)
    requires NoBreaks(contentType) && forall h :: h in extra ==> Unbroken(h)
    ensures forall h :: h in ResponseHeaders(contentType, length, extra) ==> Unbroken(h)
  {
    var d := ShowNat(length);
    assert forall i :: 0 <= i < |d| ==> IsDigit(d[i]);
    assert NoBreaks("Content-Type") && NoBreaks("Content-Length") && Unbroken(CLOSE);
  }

  /** Cutting a message at its blank line. */
  lemma BlockSplits(line: string, hs: seq<Header>, body: string)
    requires NoBreaks(line) && hs != []
    ensures var s := Message(line, hs, body); var end := |line| + |HeaderLines(hs)|;
      && end + 4 <= |s| && FirstLine(s[..end]) == line && s[end + 4..] == body
  {
    hide FirstLine, NoBreaks;
    var block := HeaderLines(hs);
    assert |block| >= 4;
    var s := Message(line, hs, body);
    var end := |line| + |block|;
    assert s == line + CRLF + (block + CRLF + body);
    assert s[..end] == line + CRLF + block[..|block| - 2];
    FirstLineOf(line, block[..|block| - 2]);
    assert s == (line + CRLF + block + CRLF) + body;
  }
}
