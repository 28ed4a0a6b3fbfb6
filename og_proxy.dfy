/**
 * `lambda_handler` of og-proxy-integration: an if/elif chain over the HTTP
 * method and the headers present picks one route, the route builds a
 * response, and every response then gets the same CORS headers.
 */
module OgProxy {
  import opened Records
  import opened PyBuiltins
  import opened Storage
  import opened Feed
  import opened CodeAllocator
  import opened UploadKey
  import opened Http

  const InvalidCredentials := "Invalid credentials."
  const InvalidSession := "Invalid session ID."
  const ValidSession := "Valid session ID."
  const MustSpecify := "Must specify code/file extension/session ID/batch index."

  /** The share text of the `GET` route with a code and no batch index. */
  function ShareMessage(code: string): string
  {
    "Bruh check out this domino cascade I made. Use code " + code + " and get the app https://thedominoapp.com"
  }

  /** The branches of the chain, in the order they are tried. */
  datatype Route =
    | Preflight        // OPTIONS
    | HeadersMissing   // `'password' not in None` raises
    | BadCredentials
    | AccountFeed      // GET, session-id, batch-index
    | SessionCheck     // GET, session-id
    | CodeFeed         // GET, code, batch-index
    | ShareText        // GET, code
    | Download         // GET, id
    | Append           // PUT, code, file-extension, session-id
    | Create           // POST, file-extension, session-id
    | Unmatched

  /** The headers a route reads. */
  function Needs(route: Route): set<string>
  {
    match route
    case AccountFeed => {"session-id", "batch-index"}
    case SessionCheck => {"session-id"}
    case CodeFeed => {"code", "batch-index"}
    case ShareText => {"code"}
    case Download => {"id"}
    case Append => {"code", "file-extension", "session-id"}
    case Create => {"file-extension", "session-id"}
    case _ => {}
  }

  /** The method a route answers. */
  function MethodOf(route: Route): string
  {
    match route
    case Append => "PUT"
    case Create => "POST"
    case Preflight => "OPTIONS"
    case _ => "GET"
  }

  /** The request gets past the `OPTIONS` and password branches. */
  predicate Past(req: Request)
  {
    !IsMethod(req, "OPTIONS") && Admitted(req)
  }

  /** The request has the route's method and every header the route reads. */
  predicate Matches(req: Request, route: Route)
  {
    Fits(req, MethodOf(route), Needs(route))
  }

  /** What matching each route asks of a request. */
  lemma MatchesOf(req: Request)
    ensures Matches(req, AccountFeed) <==> IsMethod(req, "GET") && Has(req, "session-id") && Has(req, "batch-index")
    ensures Matches(req, SessionCheck) <==> IsMethod(req, "GET") && Has(req, "session-id")
    ensures Matches(req, CodeFeed) <==> IsMethod(req, "GET") && Has(req, "code") && Has(req, "batch-index")
    ensures Matches(req, ShareText) <==> IsMethod(req, "GET") && Has(req, "code")
    ensures Matches(req, Download) <==> IsMethod(req, "GET") && Has(req, "id")
    ensures Matches(req, Append) <==>
            IsMethod(req, "PUT") && Has(req, "code") && Has(req, "file-extension") && Has(req, "session-id")
    ensures Matches(req, Create) <==> IsMethod(req, "POST") && Has(req, "file-extension") && Has(req, "session-id")
  {
  }

  /**
   * The branch a request takes. `OPTIONS` is answered before the password is
   * looked at; every later branch has the password; each route is taken
   * exactly when it matches and no route before it does. A request matching
   * `AccountFeed` also matches `SessionCheck`, and one matching `CodeFeed`
   * matches `ShareText`, so the later routes name only the broader of each pair.
   */
  function RouteOf(req: Request): (route: Route)
    ensures route == Preflight <==> IsMethod(req, "OPTIONS")
    ensures route == HeadersMissing <==> !IsMethod(req, "OPTIONS") && req.headers.None?
    ensures route == BadCredentials <==>
              !IsMethod(req, "OPTIONS") && req.headers.Some? && !HasPassword(req.headers.value)
    ensures route !in {Preflight, HeadersMissing, BadCredentials} ==>
              req.headers.Some? && HasPassword(req.headers.value)
    ensures forall h :: h in Needs(route) ==> Has(req, h)
    ensures route == AccountFeed <==> Past(req) && Matches(req, AccountFeed)
    ensures route == SessionCheck <==> Past(req) && !Matches(req, AccountFeed) && Matches(req, SessionCheck)
    ensures route == CodeFeed <==>
              Past(req) && !Matches(req, AccountFeed) && !Matches(req, SessionCheck) && Matches(req, CodeFeed)
    ensures route == ShareText <==>
              Past(req) && !Matches(req, SessionCheck) && !Matches(req, CodeFeed) && Matches(req, ShareText)
    ensures route == Download <==>
              Past(req) && !Matches(req, SessionCheck) && !Matches(req, ShareText) && Matches(req, Download)
    ensures route == Append <==>
              Past(req) && !Matches(req, SessionCheck) && !Matches(req, ShareText) && !Matches(req, Download) &&
              Matches(req, Append)
    ensures route == Create <==>
              Past(req) && !Matches(req, SessionCheck) && !Matches(req, ShareText) && !Matches(req, Download) &&
              !Matches(req, Append) && Matches(req, Create)
    ensures route == Unmatched <==>
              Past(req) && !Matches(req, SessionCheck) && !Matches(req, ShareText) && !Matches(req, Download) &&
              !Matches(req, Append) && !Matches(req, Create)
  {
    MatchesOf(req);
    if IsMethod(req, "OPTIONS") then Preflight
    else if req.headers.None? then HeadersMissing
    else if !HasPassword(req.headers.value) then BadCredentials
    else if IsMethod(req, "GET") && Has(req, "session-id") && Has(req, "batch-index") then AccountFeed
    else if IsMethod(req, "GET") && Has(req, "session-id") then SessionCheck
    else if IsMethod(req, "GET") && Has(req, "code") && Has(req, "batch-index") then CodeFeed
    else if IsMethod(req, "GET") && Has(req, "code") then ShareText
    else if IsMethod(req, "GET") && Has(req, "id") then Download
    else if IsMethod(req, "PUT") && Has(req, "code") && Has(req, "file-extension") && Has(req, "session-id") then Append
    else if IsMethod(req, "POST") && Has(req, "file-extension") && Has(req, "session-id") then Create
    else Unmatched
  }

  /** The final `else`: the 400 answer is given exactly when no route's method and headers match. */
  lemma UnmatchedIff(req: Request)
    ensures RouteOf(req) == Unmatched <==>
            !IsMethod(req, "OPTIONS") && req.headers.Some? && HasPassword(req.headers.value) &&
            !(IsMethod(req, "GET") && (Has(req, "session-id") || Has(req, "code") || Has(req, "id"))) &&
            !(IsMethod(req, "PUT") && Has(req, "code") && Has(req, "file-extension") && Has(req, "session-id")) &&
            !(IsMethod(req, "POST") && Has(req, "file-extension") && Has(req, "session-id"))
  {
    MatchesOf(req);
  }

  /** `response['headers'] = {...}` on whatever the branch returned. */
  function WithCors(r: Result<Response>): Result<Response>
  {
    match r
    case Ok(resp) => Ok(resp.(headers := CorsHeaders))
    case Raised(e) => Raised(e)
  }

  /** The presigned upload of a new object under `code`. */
  function UploadUrl(code: string, hex: string, sessionId: string, extHeader: string): Body
  {
    Url(PresignedUrl(PutObject, VideosBucketName, FormatKey(code, hex, sessionId, NormalizeExtension(extHeader))))
  }

  /**
   * `lambda_handler(event, context)`. `rolls` are the draws of
   * `random.choice` and `hex` is `uuid.uuid4().hex`.
   */
  method Handle(req: Request, accounts: AccountsTable, videos: VideosTable, thumbnails: Bucket,
                rolls: seq<nat>, hex: string)
    returns (r: Result<Response>)
    requires ValidRolls(ShortAlphabet, rolls)
    ensures r.Ok? ==> r.value.headers == CorsHeaders
    ensures IsMethod(req, "OPTIONS") ==> r == Ok(Response(200, NoBody, CorsHeaders))
    ensures !IsMethod(req, "OPTIONS") && req.headers.None? ==> r == Raised(TypeError)
    ensures RouteOf(req) == BadCredentials ==> r == Ok(Response(401, Text(InvalidCredentials), CorsHeaders))
    ensures RouteOf(req) in {AccountFeed, SessionCheck, Append} &&
            SessionAccount(accounts.items, Header(req, "session-id")).None? ==>
              r == Ok(Response(401, Text(InvalidSession), CorsHeaders))
    ensures RouteOf(req) == AccountFeed && SessionAccount(accounts.items, Header(req, "session-id")).Some? ==>
              var accountId := SessionAccount(accounts.items, Header(req, "session-id")).value;
              r == WithCors(FeedResponse(OwnedBy(videos.items, accountId), Header(req, "batch-index"), thumbnails.objects))
    ensures RouteOf(req) == SessionCheck && SessionAccount(accounts.items, Header(req, "session-id")).Some? ==>
              r == Ok(Response(200, Text(ValidSession), CorsHeaders))
    ensures RouteOf(req) == CodeFeed ==>
              r == WithCors(FeedResponse(WithCode(videos.items, Header(req, "code")), Header(req, "batch-index"), thumbnails.objects))
    ensures RouteOf(req) == ShareText ==> r == Ok(Response(200, JsonText(ShareMessage(Header(req, "code"))), CorsHeaders))
    ensures RouteOf(req) == Download ==>
              r == Ok(Response(200, Url(PresignedUrl(GetObject, VideosBucketName, Header(req, "id"))), CorsHeaders))
    ensures RouteOf(req) == Append && SessionAccount(accounts.items, Header(req, "session-id")).Some? ==>
              r == Ok(Response(200, UploadUrl(Header(req, "code"), hex, Header(req, "session-id"), Header(req, "file-extension")), CorsHeaders))
    ensures RouteOf(req) == Create ==>
              match GenerateCode(videos.items, ShortAlphabet, ShortCodeLength, rolls)
              case Raised(e) => r == Raised(e)
              case Ok(code) =>
                r == Ok(Response(200, UploadUrl(code, hex, Header(req, "session-id"), Header(req, "file-extension")), CorsHeaders))
    ensures RouteOf(req) == Unmatched ==> r == Ok(Response(400, Text(MustSpecify), CorsHeaders))
  {
    var response: Response;
    match RouteOf(req) {
      case Preflight =>
        response := Response(200, NoBody, map[]);
      case HeadersMissing =>
        return Raised(TypeError);
      case BadCredentials =>
        response := Response(401, Text(InvalidCredentials), map[]);
      case AccountFeed =>
        var sessionId := Header(req, "session-id");
        var matches := WithSession(accounts.items, sessionId);
        if |matches| == 0 {
          response := Response(401, Text(InvalidSession), map[]);
        } else {
          var accountId := matches[0].id;
          var feed := ServeFeed(OwnedBy(videos.items, accountId), Header(req, "batch-index"), thumbnails.objects);
          if feed.Raised? {
            return feed;
          }
          response := feed.value;
        }
      case SessionCheck =>
        var matches := WithSession(accounts.items, Header(req, "session-id"));
        if |matches| == 0 {
          response := Response(401, Text(InvalidSession), map[]);
        } else {
          response := Response(200, Text(ValidSession), map[]);
        }
      case CodeFeed =>
        var feed := ServeFeed(WithCode(videos.items, Header(req, "code")), Header(req, "batch-index"), thumbnails.objects);
        if feed.Raised? {
          return feed;
        }
        response := feed.value;
      case ShareText =>
        response := Response(200, JsonText(ShareMessage(Header(req, "code"))), map[]);
      case Download =>
        response := Response(200, Url(PresignedUrl(GetObject, VideosBucketName, Header(req, "id"))), map[]);
      case Append =>
        var code := Header(req, "code");
        var sessionId := Header(req, "session-id");
        var matches := WithSession(accounts.items, sessionId);
        if |matches| == 0 {
          response := Response(401, Text(InvalidSession), map[]);
        } else {
          // The rows under `code` are fetched and then never looked at.
          var existing := WithCode(videos.items, code);
          var ext := NormalizeExtension(Header(req, "file-extension"));
          var key := FormatKey(code, hex, sessionId, ext);
          response := Response(200, Url(PresignedUrl(PutObject, VideosBucketName, key)), map[]);
        }
      case Create =>
        var ext := NormalizeExtension(Header(req, "file-extension"));
        var sessionId := Header(req, "session-id");
        var code := GenerateCode(videos.items, ShortAlphabet, ShortCodeLength, rolls);
        if code.Raised? {
          return Raised(code.error);
        }
        var key := FormatKey(code.value, hex, sessionId, ext);
        response := Response(200, Url(PresignedUrl(PutObject, VideosBucketName, key)), map[]);
      case Unmatched =>
        response := Response(400, Text(MustSpecify), map[]);
    }
    response := response.(headers := CorsHeaders);
    return Ok(response);
  }
}
