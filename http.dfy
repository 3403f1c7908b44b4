/**
 * The decisions `HttpWorker` takes for each request on a client connection:
 * which handler a URI selects, which address the request is attributed to,
 * which nickname a claim carries, which reply (and status) goes back, and
 * whether the connection is kept for another request.
 *
 * The socket calls and the unseen parsers (`ParseHttpMessage`, `ParseUrl`,
 * `ParseForwarded`, `HeaderHas`) are inputs: a request is given as the
 * outcome of reading and parsing it, and the byte layout of the response
 * headers is not modelled.
 */
module HttpWorker {
  import opened Common
  import opened Bytes
  import opened Nick
  import opened ClaimQueue
  import opened DottedQuad

  // ---------------------------------------------------------------------
  // Routing
  // ---------------------------------------------------------------------

  /** The handler the if-chain of `HttpWorker` selects. */
  datatype Route = Index | Favicon | About | User | Score | Recent | Ip | ClaimLand | NotFound

  // The paths the if-chain compares against, as the bytes of the request URI.

  const SLASH: seq<uint8> := [0x2F]  // "/"
  const INDEX_HTML: seq<uint8> := [0x2F, 0x69, 0x6E, 0x64, 0x65, 0x78, 0x2E, 0x68, 0x74, 0x6D, 0x6C]  // "/index.html"
  const FAVICON_ICO: seq<uint8> := [0x2F, 0x66, 0x61, 0x76, 0x69, 0x63, 0x6F, 0x6E, 0x2E, 0x69, 0x63, 0x6F]  // "/favicon.ico"
  const ABOUT_HTML: seq<uint8> := [0x2F, 0x61, 0x62, 0x6F, 0x75, 0x74, 0x2E, 0x68, 0x74, 0x6D, 0x6C]  // "/about.html"
  const USER_HTML: seq<uint8> := [0x2F, 0x75, 0x73, 0x65, 0x72, 0x2E, 0x68, 0x74, 0x6D, 0x6C]  // "/user.html"
  const SCORE_PATH: seq<uint8> := [0x2F, 0x73, 0x63, 0x6F, 0x72, 0x65]  // "/score"
  const RECENT_PATH: seq<uint8> := [0x2F, 0x72, 0x65, 0x63, 0x65, 0x6E, 0x74]  // "/recent"
  const IP_PATH: seq<uint8> := [0x2F, 0x69, 0x70]  // "/ip"
  const CLAIM_PATH: seq<uint8> := [0x2F, 0x63, 0x6C, 0x61, 0x69, 0x6D]  // "/claim"

  /** `UrlEqual(S)`: the request URI is exactly `s`. */
  predicate UrlEqual(uri: seq<uint8>, s: seq<uint8>) {
    uri == s
  }

  /** `UrlStartsWith(S)`: the URI is at least as long as `s` and begins with it. */
  predicate UrlStartsWith(uri: seq<uint8>, s: seq<uint8>) {
    |uri| >= |s| && uri[..|s|] == s
  }

  /** The length test and the byte comparison together mean `s` is a prefix of `uri`. */
  lemma UrlStartsWithIsPrefix(uri: seq<uint8>, s: seq<uint8>)
    ensures UrlStartsWith(uri, s) <==> exists rest :: uri == s + rest
  {
    if UrlStartsWith(uri, s) {
      assert uri == s + uri[|s|..];
    }
    forall rest | uri == s + rest
      ensures UrlStartsWith(uri, s)
    {
      assert (s + rest)[..|s|] == s;
    }
  }

  /** The if-chain of `HttpWorker`, in its order. */
  function RouteOf(uri: seq<uint8>): Route {
    if UrlEqual(uri, SLASH) || UrlStartsWith(uri, INDEX_HTML) then Index
    else if UrlStartsWith(uri, FAVICON_ICO) then Favicon
    else if UrlStartsWith(uri, ABOUT_HTML) then About
    else if UrlStartsWith(uri, USER_HTML) then User
    else if UrlStartsWith(uri, SCORE_PATH) then Score
    else if UrlStartsWith(uri, RECENT_PATH) then Recent
    else if UrlStartsWith(uri, IP_PATH) then Ip
    else if UrlStartsWith(uri, CLAIM_PATH) then ClaimLand
    else NotFound
  }

  /** A URI pattern: exact match or prefix. */
  datatype Pattern = Exact(path: seq<uint8>) | Prefix(path: seq<uint8>)

  predicate Matches(p: Pattern, uri: seq<uint8>) {
    match p
    case Exact(s) => UrlEqual(uri, s)
    case Prefix(s) => UrlStartsWith(uri, s)
  }

  /** The routing table as data: each pattern with its handler, in priority order. */
  const ROUTES: seq<(Pattern, Route)> := [
    (Exact(SLASH), Index), (Prefix(INDEX_HTML), Index), (Prefix(FAVICON_ICO), Favicon),
    (Prefix(ABOUT_HTML), About), (Prefix(USER_HTML), User), (Prefix(SCORE_PATH), Score),
    (Prefix(RECENT_PATH), Recent), (Prefix(IP_PATH), Ip), (Prefix(CLAIM_PATH), ClaimLand)]

  /** The handler of the first entry whose pattern matches, if any. */
  function FirstMatch(table: seq<(Pattern, Route)>, uri: seq<uint8>): Option<Route> {
    if table == [] then None
    else if Matches(table[0].0, uri) then Some(table[0].1)
    else FirstMatch(table[1..], uri)
  }

  /** `FirstMatch` picks the earliest matching entry, and finds nothing only when none matches. */
  lemma {:induction false} FirstMatchIsEarliest(table: seq<(Pattern, Route)>, uri: seq<uint8>) returns (i: int)
    ensures FirstMatch(table, uri).None? ==> i == -1 && forall j | 0 <= j < |table| :: !Matches(table[j].0, uri)
    ensures FirstMatch(table, uri).Some? ==>
      && 0 <= i < |table| && Matches(table[i].0, uri) && FirstMatch(table, uri).value == table[i].1
      && forall j | 0 <= j < i :: !Matches(table[j].0, uri)
  {
    if table == [] {
      i := -1;
    } else if Matches(table[0].0, uri) {
      i := 0;
    } else {
      var k := FirstMatchIsEarliest(table[1..], uri);
      i := if k == -1 then -1 else k + 1;
      forall j | 0 < j < |table| ensures table[j] == table[1..][j - 1] {
      }
    }
  }

  /** One entry of the table: its pattern decides, or the search moves on. */
  lemma FirstMatchStep(table: seq<(Pattern, Route)>, k: nat, uri: seq<uint8>)
    requires k < |table|
    ensures FirstMatch(table[k..], uri)
      == if Matches(table[k].0, uri) then Some(table[k].1) else FirstMatch(table[k + 1..], uri)
  {
    assert table[k..][1..] == table[k + 1..];
  }

  /** The if-chain is the table read first-match-wins, with 404 when nothing matches. */
  lemma RouteOfIsFirstMatch(uri: seq<uint8>)
    ensures RouteOf(uri) == match FirstMatch(ROUTES, uri) case None => NotFound case Some(r) => r
  {
    var t := ROUTES;
    assert t[9..] == [];
    FirstMatchStep(t, 8, uri);
    FirstMatchStep(t, 7, uri);
    FirstMatchStep(t, 6, uri);
    FirstMatchStep(t, 5, uri);
    FirstMatchStep(t, 4, uri);
    FirstMatchStep(t, 3, uri);
    FirstMatchStep(t, 2, uri);
    FirstMatchStep(t, 1, uri);
    FirstMatchStep(t, 0, uri);
    assert t[0..] == t;
  }

  // ---------------------------------------------------------------------
  // Origin of a request
  // ---------------------------------------------------------------------

  /** The `X-Forwarded-For` header: absent, an IPv4 address, or not parseable as one. */
  datatype Xff = NoHeader | Forwarded(addr: uint32) | Unparseable

  /**
   * The address a request is attributed to and whether it came over IPv6.
   * `ip` starts as the peer address when the connection is accepted and is
   * only overwritten by a parseable header, so a later request on the same
   * connection without the header keeps the last forwarded address.
   */
  function NextOrigin(ip: uint32, xff: Xff): (r: (uint32, bool))
    ensures r.1 <==> xff.Unparseable?
    ensures r.0 == if xff.Forwarded? then xff.addr else ip
  {
    match xff
    case NoHeader => (ip, false)
    case Forwarded(a) => (a, false)
    case Unparseable => (ip, true)
  }

  // ---------------------------------------------------------------------
  // The nickname of a claim
  // ---------------------------------------------------------------------

  /** A decoded query parameter; a parameter written without `=` has no value. */
  datatype Param = Param(key: seq<uint8>, val: Option<seq<uint8>>)

  const NAME_KEY: seq<uint8> := Ascii("name")

  /** A `name` parameter whose value is a valid nickname. */
  predicate IsNickParam(p: Param) {
    p.key == NAME_KEY && p.val.Some? && ValidNick(p.val.value)
  }

  /** The value of the first `name` parameter that holds a valid nickname. */
  function FirstValidNick(params: seq<Param>): (r: Option<seq<uint8>>)
    ensures r.Some? ==> ValidNick(r.value)
    ensures r.None? <==> forall i | 0 <= i < |params| :: !IsNickParam(params[i])
  {
    if params == [] then None
    else if IsNickParam(params[0]) then Some(params[0].val.value)
    else
      var r := FirstValidNick(params[1..]);
      assert forall i | 0 < i < |params| :: params[i] == params[1..][i - 1];
      r
  }

  /** Every `name` parameter before the chosen one is missing or invalid. */
  lemma {:induction false} FirstValidNickIsFirst(params: seq<Param>, i: int)
    requires 0 <= i < |params| && IsNickParam(params[i])
    requires forall j | 0 <= j < i :: !IsNickParam(params[j])
    ensures FirstValidNick(params) == Some(params[i].val.value)
  {
    if i > 0 {
      assert forall j | 0 <= j < i - 1 :: params[1..][j] == params[j + 1];
      FirstValidNickIsFirst(params[1..], i - 1);
    }
  }

  /**
   * `GetNick`: scans the parameters in order and takes the first `name`
   * whose value passes `IsValidNick`.
   */
  method GetNick(params: seq<Param>) returns (found: bool, name: seq<uint8>)
    ensures found <==> FirstValidNick(params).Some?
    ensures found ==> name == FirstValidNick(params).value
  {
    found, name := false, [];
    var i := 0;
    while i < |params|
      invariant 0 <= i <= |params|
      invariant FirstValidNick(params) == FirstValidNick(params[i..])
    {
      var p := params[i];
      if p.key == NAME_KEY && p.val.Some? {
        var ok := IsValidNick(p.val.value);
        if ok {
          name := p.val.value;
          found := true;
          break;
        }
      }
      assert params[i..][1..] == params[i + 1..];
      i := i + 1;
    }
  }

  // ---------------------------------------------------------------------
  // Replies
  // ---------------------------------------------------------------------

  /** What the worker sends back for one request. */
  datatype Reply =
    | AssetReply(route: Route, gzip: bool)  // a cached asset, compressed when the client accepts gzip
    | IpReply(text: seq<uint8>)             // the dotted quad the request is attributed to
    | Claimed(claim: Claim)                 // the claim was queued
    | NeedIpv4
    | InvalidName
    | QueueFull
    | NotFoundPage

  /** The status code on the reply's status line. */
  function Status(r: Reply): int {
    match r
    case AssetReply(_, _) => 200
    case IpReply(_) => 200
    case Claimed(_) => 200
    case NeedIpv4 => 400
    case InvalidName => 400
    case QueueFull => 502
    case NotFoundPage => 404
  }

  /** The replies after which the worker breaks out of the message loop. */
  predicate Closes(r: Reply) {
    r.NeedIpv4? || r.InvalidName? || r.QueueFull?
  }

  /**
   * The reply to one request, given the route, the request's origin, its
   * query parameters, whether the claim queue has room, whether the client
   * accepts gzip, and the current time in seconds.
   */
  function Respond(route: Route, ipv6: bool, ip: uint32, params: seq<Param>, room: bool, gzip: bool, now: int): (r: Reply)
  {
    match route
    case Index => AssetReply(route, gzip)
    case Favicon => AssetReply(route, gzip)
    case About => AssetReply(route, gzip)
    case User => AssetReply(route, gzip)
    case Score => AssetReply(route, gzip)
    case Recent => AssetReply(route, gzip)
    case Ip => if ipv6 then NeedIpv4 else IpReply(FormatIp(ip))
    case ClaimLand =>
      if ipv6 then NeedIpv4
      else (match FirstValidNick(params)
        case None => InvalidName
        case Some(name) => if room then Claimed(Claim(ip, now, name)) else QueueFull)
    case NotFound => NotFoundPage
  }

  /**
   * What the handlers decide: a claim is queued exactly when the route is
   * `/claim`, the client is IPv4, a valid nickname was given and the queue
   * has room; every refusal on that route closes the connection with its
   * status; nothing else closes it except `/ip` from an IPv6 client.
   */
  lemma RespondDecides(route: Route, ipv6: bool, ip: uint32, params: seq<Param>, room: bool, gzip: bool, now: int)
    ensures var r := Respond(route, ipv6, ip, params, room, gzip, now);
      && (r.Claimed? <==> route == ClaimLand && !ipv6 && FirstValidNick(params).Some? && room)
      && (r.Claimed? ==> ValidNick(r.claim.name) && r.claim == Claim(ip, now, FirstValidNick(params).value))
      && (route == ClaimLand ==> (Closes(r) <==> !r.Claimed?))
      && (route == ClaimLand && ipv6 ==> r == NeedIpv4 && Status(r) == 400)
      && (route == ClaimLand && !ipv6 && FirstValidNick(params).None? ==> r == InvalidName && Status(r) == 400)
      && (route == ClaimLand && !ipv6 && FirstValidNick(params).Some? && !room ==> r == QueueFull && Status(r) == 502)
      && (route == Ip && !ipv6 ==> r == IpReply(FormatIp(ip)) && Status(r) == 200)
      && (route == NotFound ==> Status(r) == 404)
      && (route in {Index, Favicon, About, User, Score, Recent} ==> r == AssetReply(route, gzip) && Status(r) == 200)
      && (Closes(r) ==> route == ClaimLand || (route == Ip && ipv6))
  {
  }

  // ---------------------------------------------------------------------
  // One connection
  // ---------------------------------------------------------------------

  datatype Method = Get | Head | Post | OtherMethod  // `msg->method`

  /**
   * One pass of the message loop, as the I/O and the parsers left it:
   * `got` bytes read, `inmsglen` the parsed message length (not positive when
   * it did not parse), the HTTP version, the request line and headers, and
   * whether `write` sent the whole response and shutdown was signalled by the
   * time the loop condition is evaluated.
   */
  datatype Request = Request(
    got: int, inmsglen: int, version: int, verb: Method, uri: seq<uint8>,
    params: seq<Param>, xff: Xff, acceptsGzip: bool,
    hasContentLength: bool, hasTransferEncoding: bool,
    sentAll: bool, shutdown: bool, now: int)

  /** Requests per connection (`MSG_MAX`). */
  const MSG_MAX: int := 10

  /**
   * The `do { … } while (…)` condition. `&&` short-circuits, so `msgcount`
   * is incremented only when the read and the write were both complete.
   * Returns whether to continue and the new `msgcount`.
   */
  function KeepAlive(r: Request, msgcount: int): (k: (bool, int))
    ensures k.0 ==> k.1 == msgcount + 1 < MSG_MAX
    ensures k.0 ==> r.got == r.inmsglen && r.sentAll && !r.shutdown
    ensures k.0 ==> !r.hasContentLength && !r.hasTransferEncoding && (r.verb == Get || r.verb == Head)
    ensures k.1 == msgcount || k.1 == msgcount + 1
  {
    if !(r.got == r.inmsglen && r.sentAll) then (false, msgcount)
    else
      var m := msgcount + 1;
      (m < MSG_MAX && !r.hasContentLength && !r.hasTransferEncoding
        && (r.verb == Get || r.verb == Head) && !r.shutdown, m)
  }

  /** The read failed or hit end of file, the message did not parse, or it is not HTTP/1.1. */
  predicate Unusable(r: Request) {
    r.got <= 0 || r.inmsglen <= 0 || r.version != 11
  }

  /** The reply to request `r` attributed to `ip` when the claim queue has `room` free slots. */
  function Answer(r: Request, ipv6: bool, ip: uint32, room: int): Reply
  {
    Respond(RouteOf(r.uri), ipv6, ip, r.params, room > 0, r.acceptsGzip, r.now)
  }

  /** The result of one pass: attributed address, reply, queue room left, whether to go on. */
  datatype Outcome = Outcome(ip: uint32, reply: Reply, room: nat, more: bool, msgcount: int)

  /**
   * One pass of the message loop on a usable request. A reply that closes
   * the connection breaks out before the loop condition is evaluated.
   */
  function Step(ip: uint32, r: Request, room: nat, msgcount: int): (o: Outcome)
    ensures o.more ==> !Closes(o.reply) && o.msgcount == msgcount + 1 < MSG_MAX
    ensures o.room == if o.reply.Claimed? then room - 1 else room
  {
    var (ip', ipv6) := NextOrigin(ip, r.xff);
    var reply := Answer(r, ipv6, ip', room);
    var room' := if reply.Claimed? then room - 1 else room;
    if Closes(reply) then Outcome(ip', reply, room', false, msgcount)
    else
      var (alive, m) := KeepAlive(r, msgcount);
      Outcome(ip', reply, room', alive, m)
  }

  /**
   * The replies a connection gets: `ip` is the attributed address carried
   * from request to request, `room` the free slots of the claim queue.
   */
  function Serve(ip: uint32, reqs: seq<Request>, room: nat, msgcount: int): seq<Reply>
    decreases |reqs|
  {
    if reqs == [] || Unusable(reqs[0]) then []
    else
      var o := Step(ip, reqs[0], room, msgcount);
      [o.reply] + if o.more then Serve(o.ip, reqs[1..], o.room, o.msgcount) else []
  }

  /** A connection gets at most `MSG_MAX` replies however many requests the client sends. */
  lemma {:induction false} ServeBound(ip: uint32, reqs: seq<Request>, room: nat, msgcount: int)
    requires 0 <= msgcount < MSG_MAX
    ensures |Serve(ip, reqs, room, msgcount)| <= MSG_MAX - msgcount
    decreases |reqs|
  {
    if reqs != [] && !Unusable(reqs[0]) {
      var o := Step(ip, reqs[0], room, msgcount);
      if o.more {
        ServeBound(o.ip, reqs[1..], o.room, o.msgcount);
      }
    }
  }

  /** Only the last reply of a connection can be one that closes it. */
  lemma {:induction false} ServeClosesLast(ip: uint32, reqs: seq<Request>, room: nat, msgcount: int)
    ensures forall i | 0 <= i < |Serve(ip, reqs, room, msgcount)| - 1 :: !Closes(Serve(ip, reqs, room, msgcount)[i])
    decreases |reqs|
  {
    if reqs != [] && !Unusable(reqs[0]) {
      var o := Step(ip, reqs[0], room, msgcount);
      if o.more {
        ServeClosesLast(o.ip, reqs[1..], o.room, o.msgcount);
      }
    }
  }

  /**
   * Serve as the message loop walks it: from the `i`th request on, with
   * `done` the replies already sent.
   */
  function Run(ip: uint32, reqs: seq<Request>, i: nat, room: nat, msgcount: int, done: seq<Reply>): seq<Reply>
    requires i <= |reqs|
    decreases |reqs| - i
  {
    if i == |reqs| || Unusable(reqs[i]) then done
    else
      var o := Step(ip, reqs[i], room, msgcount);
      if o.more then Run(o.ip, reqs, i + 1, o.room, o.msgcount, done + [o.reply]) else done + [o.reply]
  }

  /** The loop's walk sends `done` followed by what Serve answers to the remaining requests. */
  lemma {:induction false} RunIsServe(ip: uint32, reqs: seq<Request>, i: nat, room: nat, msgcount: int, done: seq<Reply>)
    requires i <= |reqs|
    ensures Run(ip, reqs, i, room, msgcount, done) == done + Serve(ip, reqs[i..], room, msgcount)
    decreases |reqs| - i
  {
    if i < |reqs| && !Unusable(reqs[i]) {
      assert reqs[i..][0] == reqs[i];
      assert reqs[i..][1..] == reqs[i + 1..];
      var o := Step(ip, reqs[i], room, msgcount);
      if o.more {
        RunIsServe(o.ip, reqs, i + 1, o.room, o.msgcount, done + [o.reply]);
        ConcatAssoc(done, [o.reply], Serve(o.ip, reqs[i + 1..], o.room, o.msgcount));
      }
    } else {
      assert done + [] == done;
    }
  }

  /** One pass of Run, given the pass's outcome by name. */
  lemma RunStep(ip: uint32, reqs: seq<Request>, i: nat, room: nat, msgcount: int, done: seq<Reply>, o: Outcome)
    requires i < |reqs| && !Unusable(reqs[i]) && o == Step(ip, reqs[i], room, msgcount)
    ensures Run(ip, reqs, i, room, msgcount, done)
      == if o.more then Run(o.ip, reqs, i + 1, o.room, o.msgcount, done + [o.reply]) else done + [o.reply]
  {
  }

  /** The claims a sequence of replies queued, in order. */
  function ClaimsOf(replies: seq<Reply>): seq<Claim> {
    if replies == [] then []
    else
      var last := replies[|replies| - 1];
      ClaimsOf(replies[..|replies| - 1]) + (if last.Claimed? then [last.claim] else [])
  }

  lemma ClaimsOfSnoc(replies: seq<Reply>, reply: Reply)
    ensures ClaimsOf(replies + [reply]) == ClaimsOf(replies) + if reply.Claimed? then [reply.claim] else []
  {
    assert (replies + [reply])[..|replies|] == replies;
  }

  /** Read from the front: the first reply's claim, then the rest's. */
  lemma {:induction false} ClaimsOfCons(reply: Reply, rest: seq<Reply>)
    ensures ClaimsOf([reply] + rest) == (if reply.Claimed? then [reply.claim] else []) + ClaimsOf(rest)
    decreases |rest|
  {
    var head := if reply.Claimed? then [reply.claim] else [];
    if rest == [] {
      assert [reply] + rest == [] + [reply];
      ClaimsOfSnoc([], reply);
    } else {
      var init, last := rest[..|rest| - 1], rest[|rest| - 1];
      var tail := if last.Claimed? then [last.claim] else [];
      assert rest == init + [last];
      assert [reply] + rest == ([reply] + init) + [last];
      ClaimsOfSnoc([reply] + init, last);
      ClaimsOfCons(reply, init);
      ClaimsOfSnoc(init, last);
      ConcatAssoc(head, ClaimsOf(init), tail);
    }
  }

  /**
   * A connection never queues more claims than the queue has room for, and
   * every claim it queues carries a valid nickname.
   */
  lemma {:induction false} ServeClaimsFit(ip: uint32, reqs: seq<Request>, room: nat, msgcount: int)
    ensures |ClaimsOf(Serve(ip, reqs, room, msgcount))| <= room
    ensures forall k | 0 <= k < |ClaimsOf(Serve(ip, reqs, room, msgcount))| ::
      ValidNick(ClaimsOf(Serve(ip, reqs, room, msgcount))[k].name)
    decreases |reqs|
  {
    if reqs != [] && !Unusable(reqs[0]) {
      var o := Step(ip, reqs[0], room, msgcount);
      var (ip', ipv6) := NextOrigin(ip, reqs[0].xff);
      RespondDecides(RouteOf(reqs[0].uri), ipv6, ip', reqs[0].params, room > 0, reqs[0].acceptsGzip, reqs[0].now);
      var rest := if o.more then Serve(o.ip, reqs[1..], o.room, o.msgcount) else [];
      if o.more {
        ServeClaimsFit(o.ip, reqs[1..], o.room, o.msgcount);
      }
      ClaimsOfCons(o.reply, rest);
    }
  }

  /** The claims queued so far stay those of the replies sent so far. */
  lemma QueuedClaims(start: seq<Claim>, queued: seq<Claim>, now: seq<Claim>, before: seq<Reply>, reply: Reply)
    requires queued == start + ClaimsOf(before)
    requires now == queued + if reply.Claimed? then [reply.claim] else []
    ensures now == start + ClaimsOf(before + [reply])
  {
    ClaimsOfSnoc(before, reply);
    ConcatAssoc(start, ClaimsOf(before), if reply.Claimed? then [reply.claim] else []);
  }

  /**
   * The body of one message-loop pass after the request was read and parsed:
   * route it, answer it, and for a claim with a valid nickname offer the
   * claim to the queue.
   */
  method HandleRequest(q: Claims, r: Request, ip: uint32, ipv6: bool) returns (reply: Reply)
    requires q.Valid()
    modifies q, q.data
    ensures q.Valid()
    ensures reply == Answer(r, ipv6, ip, QUEUE_MAX - old(q.count))
    ensures q.Contents() == old(q.Contents()) + if reply.Claimed? then [reply.claim] else []
    ensures q.count == old(q.count) + if reply.Claimed? then 1 else 0
  {
    var route := RouteOf(r.uri);
    if route == ClaimLand && !ipv6 {
      var found, name := GetNick(r.params);
      if found {
        var v := Claim(ip, r.now, name);
        var added := q.AddClaim(v);
        reply := if added then Claimed(v) else QueueFull;
      } else {
        reply := InvalidName;
      }
    } else {
      reply := Respond(route, ipv6, ip, r.params, q.count < QUEUE_MAX, r.acceptsGzip, r.now);
    }
  }

  /**
   * One pass of the message loop on a usable request: the request is
   * attributed, answered, and the keep-alive condition evaluated when the
   * reply does not close the connection.
   */
  method Pass(q: Claims, r: Request, ip: uint32, msgcount: int)
    returns (ip': uint32, reply: Reply, more: bool, msgcount': int)
    requires q.Valid()
    modifies q, q.data
    ensures q.Valid()
    ensures Step(ip, r, QUEUE_MAX - old(q.count), msgcount) == Outcome(ip', reply, QUEUE_MAX - q.count, more, msgcount')
    ensures q.Contents() == old(q.Contents()) + if reply.Claimed? then [reply.claim] else []
  {
    var origin := NextOrigin(ip, r.xff);
    ip' := origin.0;
    reply := HandleRequest(q, r, ip', origin.1);
    more, msgcount' := false, msgcount;
    if !Closes(reply) {
      var k := KeepAlive(r, msgcount);
      more, msgcount' := k.0, k.1;
    }
  }

  /**
   * The strict message loop on one accepted connection from `clientip`:
   * requests are answered one at a time until one is unusable, a reply
   * closes the connection, or the keep-alive condition fails.
   */
  method ServeConnection(q: Claims, clientip: uint32, reqs: seq<Request>) returns (replies: seq<Reply>)
    requires q.Valid()
    modifies q, q.data
    ensures q.Valid()
    ensures replies == Serve(clientip, reqs, QUEUE_MAX - old(q.count), 0)
    ensures |replies| <= MSG_MAX
    ensures q.Contents() == old(q.Contents()) + ClaimsOf(replies)
  {
    ghost var room0 := QUEUE_MAX - q.count;
    ghost var total := Run(clientip, reqs, 0, room0, 0, []);
    var ip := clientip;
    var msgcount := 0;
    replies := [];
    var i := 0;
    while i < |reqs|
      invariant 0 <= i <= |reqs| && q.Valid()
      invariant Run(ip, reqs, i, QUEUE_MAX - q.count, msgcount, replies) == total
      invariant q.Contents() == old(q.Contents()) + ClaimsOf(replies)
      decreases |reqs| - i
    {
      if Unusable(reqs[i]) {
        break;
      }
      ghost var before, ip0, room, m0 := replies, ip, QUEUE_MAX - q.count, msgcount;
      ghost var queued := q.Contents();
      var reply, more;
      ip, reply, more, msgcount := Pass(q, reqs[i], ip, msgcount);
      RunStep(ip0, reqs, i, room, m0, before, Outcome(ip, reply, QUEUE_MAX - q.count, more, msgcount));
      replies := replies + [reply];
      QueuedClaims(old(q.Contents()), queued, q.Contents(), before, reply);
      if !more {
        break;
      }
      i := i + 1;
    }
    RunIsServe(clientip, reqs, 0, room0, 0, []);
    assert reqs[0..] == reqs;
    ServeBound(clientip, reqs, room0, 0);
  }
}
