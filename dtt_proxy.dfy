/**
 * `lambda_handler` of the root `DTTLambdaProxyIntegration.py`: the same kind
 * of if/elif chain as the original proxy, but the password is checked first
 * (no `OPTIONS` exemption), listings are returned whole instead of in
 * batches of 33, no CORS headers are added, and the upload to an existing
 * code checks whether the caller already has a video under it.
 */
module DttProxy {
  import opened Records
  import opened PyBuiltins
  import opened Storage
  import opened Feed
  import opened CodeAllocator
  import opened UploadKey
  import opened Http

  const InvalidCredentials := "Invalid credentials."
  const InvalidSession := "Invalid session ID."
  const AlreadyExists := "A video with this code already exists."
  const MustSpecify := "Must specify code/file ex tension/session ID."

  datatype Route =
    | HeadersMissing   // `'password' not in None` raises
    | BadCredentials
    | AccountRows      // GET, session-id
    | CodeRows         // GET, code
    | Download         // GET, id
    | Append           // PUT, code, file-extension, session-id
    | Create           // POST, file-extension, session-id
    | Unmatched

  /** The headers a route reads. */
  function Needs(route: Route): set<string>
  {
    match route
    case AccountRows => {"session-id"}
    case CodeRows => {"code"}
    case Download => {"id"}
    case Append => {"code", "file-extension", "session-id"}
    case Create => {"file-extension", "session-id"}
    case _ => {}
  }

  /** The method a route answers. */
  function MethodOf(route: Route): string
  {
    match route
    case Append => "PUT"
    case Create => "POST"
    case _ => "GET"
  }

  /** The request has the route's method and every header the route reads. */
  predicate Matches(req: Request, route: Route)
  {
    Fits(req, MethodOf(route), Needs(route))
  }

  /**
   * The branch a request takes. The password test comes first, whatever the
   * method, so even `OPTIONS` needs it; after it, each route is taken exactly
   * when it matches and no route before it does.
   */
  function RouteOf(req: Request): (route: Route)
    ensures route == HeadersMissing <==> req.headers.None?
    ensures route == BadCredentials <==> req.headers.Some? && !HasPassword(req.headers.value)
    ensures route !in {HeadersMissing, BadCredentials} ==> req.headers.Some? && HasPassword(req.headers.value)
    ensures forall h :: h in Needs(route) ==> Has(req, h)
    ensures route == AccountRows <==> Admitted(req) && Matches(req, AccountRows)
    ensures route == CodeRows <==> Admitted(req) && !Matches(req, AccountRows) && Matches(req, CodeRows)
    ensures route == Download <==>
              Admitted(req) && !Matches(req, AccountRows) && !Matches(req, CodeRows) && Matches(req, Download)
    ensures route == Append <==>
              Admitted(req) && !Matches(req, AccountRows) && !Matches(req, CodeRows) && !Matches(req, Download) &&
              Matches(req, Append)
    ensures route == Create <==>
              Admitted(req) && !Matches(req, AccountRows) && !Matches(req, CodeRows) && !Matches(req, Download) &&
              !Matches(req, Append) && Matches(req, Create)
    ensures route == Unmatched <==>
              Admitted(req) && !Matches(req, AccountRows) && !Matches(req, CodeRows) && !Matches(req, Download) &&
              !Matches(req, Append) && !Matches(req, Create)
  {
    if req.headers.None? then HeadersMissing
    else if !HasPassword(req.headers.value) then BadCredentials
    else if IsMethod(req, "GET") && Has(req, "session-id") then AccountRows
    else if IsMethod(req, "GET") && Has(req, "code") then CodeRows
    else if IsMethod(req, "GET") && Has(req, "id") then Download
    else if IsMethod(req, "PUT") && Has(req, "code") && Has(req, "file-extension") && Has(req, "session-id") then Append
    else if IsMethod(req, "POST") && Has(req, "file-extension") && Has(req, "session-id") then Create
    else Unmatched
  }

  /** The final `else`: the 400 answer is given exactly when no route's method and headers match. */
  lemma UnmatchedIff(req: Request)
    ensures RouteOf(req) == Unmatched <==>
            req.headers.Some? && HasPassword(req.headers.value) &&
            !(IsMethod(req, "GET") && (Has(req, "session-id") || Has(req, "code") || Has(req, "id"))) &&
            !(IsMethod(req, "PUT") && Has(req, "code") && Has(req, "file-extension") && Has(req, "session-id")) &&
            !(IsMethod(req, "POST") && Has(req, "file-extension") && Has(req, "session-id"))
  {
    assert Matches(req, AccountRows) <==> IsMethod(req, "GET") && Has(req, "session-id");
    assert Matches(req, CodeRows) <==> IsMethod(req, "GET") && Has(req, "code");
    assert Matches(req, Download) <==> IsMethod(req, "GET") && Has(req, "id");
    assert Matches(req, Append) <==>
           IsMethod(req, "PUT") && Has(req, "code") && Has(req, "file-extension") && Has(req, "session-id");
    assert Matches(req, Create) <==> IsMethod(req, "POST") && Has(req, "file-extension") && Has(req, "session-id");
  }

  /** Rows as the caller sees them, without `accountId`. */
  function Public(rows: seq<Video>): (out: seq<PublicVideo>)
    ensures |out| == |rows|
  {
    seq(|rows|, i requires 0 <= i < |rows| => WithoutAccount(rows[i]))
  }

  /** `for video in videos: del video['accountId']`. */
  method StripAccounts(rows: seq<Video>) returns (out: seq<PublicVideo>)
    ensures |out| == |rows|
    ensures forall i :: 0 <= i < |rows| ==>
              out[i].code == rows[i].code && out[i].id == rows[i].id &&
              out[i].timeOfCreation == rows[i].timeOfCreation
  {
    out := [];
    for i := 0 to |rows|
      invariant |out| == i
      invariant forall k :: 0 <= k < i ==> out[k] == WithoutAccount(rows[k])
    {
      out := out + [WithoutAccount(rows[i])];
    }
  }

  /**
   * The session listing: every row the account owns, once each, newest first,
   * with `accountId` removed.
   */
  lemma AccountListing(items: seq<Video>, accountId: string)
    ensures var out := Public(SortNewestFirst(OwnedBy(items, accountId)));
            (forall i, j :: 0 <= i < j < |out| ==> out[i].timeOfCreation >= out[j].timeOfCreation) &&
            |out| == |OwnedBy(items, accountId)| &&
            (forall i :: 0 <= i < |items| && items[i].accountId == accountId ==> WithoutAccount(items[i]) in out) &&
            (forall p :: p in out ==> exists v :: v in items && v.accountId == accountId && WithoutAccount(v) == p)
  {
    var rows := OwnedBy(items, accountId);
    var sorted := SortNewestFirst(rows);
    var out := Public(sorted);
    PublicKeepsOrder(sorted);
    ListingComplete(items, accountId);
    ListingSound(items, accountId);
    assert |sorted| == |rows| by {
      assert |multiset(sorted)| == |multiset(rows)|;
    }
    assert |out| == |rows|;
  }

  /** Dropping `accountId` keeps a newest-first list in that order. */
  lemma PublicKeepsOrder(rows: seq<Video>)
    requires NewestFirst(rows)
    ensures var out := Public(rows);
            forall i, j :: 0 <= i < j < |out| ==> out[i].timeOfCreation >= out[j].timeOfCreation
  {
  }

  /** Every row the account owns is in its listing. */
  lemma ListingComplete(items: seq<Video>, accountId: string)
    ensures var out := Public(SortNewestFirst(OwnedBy(items, accountId)));
            forall i :: 0 <= i < |items| && items[i].accountId == accountId ==> WithoutAccount(items[i]) in out
  {
    var rows := OwnedBy(items, accountId);
    var sorted := SortNewestFirst(rows);
    var out := Public(sorted);
    forall i | 0 <= i < |items| && items[i].accountId == accountId
      ensures WithoutAccount(items[i]) in out
    {
      assert items[i] in rows;
      assert items[i] in multiset(sorted);
      var k :| 0 <= k < |sorted| && sorted[k] == items[i];
      assert out[k] == WithoutAccount(items[i]);
    }
  }

  /** Every entry of the listing comes from a row the account owns. */
  lemma ListingSound(items: seq<Video>, accountId: string)
    ensures var out := Public(SortNewestFirst(OwnedBy(items, accountId)));
            forall p :: p in out ==> exists v :: v in items && v.accountId == accountId && WithoutAccount(v) == p
  {
    var rows := OwnedBy(items, accountId);
    var sorted := SortNewestFirst(rows);
    var out := Public(sorted);
    forall p | p in out
      ensures exists v :: v in items && v.accountId == accountId && WithoutAccount(v) == p
    {
      var k :| 0 <= k < |out| && out[k] == p;
      assert sorted[k] in multiset(rows);
      assert sorted[k] in rows;
      var j :| 0 <= j < |rows| && rows[j] == sorted[k];
    }
  }

  /** Some row under the code belongs to the caller. */
  predicate OwnsRow(rows: seq<Video>, accountId: string)
  {
    exists i :: 0 <= i < |rows| && rows[i].accountId == accountId
  }

  /**
   * The loop `for item in response['Items']: if item['accountId'] == account_id:
   * video_exists = True`. `video_exists` is never set beforehand, so the loop
   * leaves it bound (and then always to `True`) exactly when the caller owns
   * a row under the code.
   */
  method VideoExistsBound(rows: seq<Video>, accountId: string) returns (bound: bool)
    ensures bound <==> OwnsRow(rows, accountId)
  {
    bound := false;
    for i := 0 to |rows|
      invariant bound <==> exists k :: 0 <= k < i && rows[k].accountId == accountId
    {
      if rows[i].accountId == accountId {
        bound := true;
      }
    }
  }

  /**
   * What the PUT branch does once the session is resolved, as written: 409 when
   * the caller owns a row under the code; otherwise `if video_exists:` reads
   * an unbound local.
   */
  function PutDecisionAsWritten(rows: seq<Video>, accountId: string): Result<Response>
  {
    if OwnsRow(rows, accountId) then Ok(Response(409, Text(AlreadyExists), map[]))
    else Raised(UnboundLocalError("video_exists"))
  }

  /** The PUT branch as evidently intended, with `video_exists = False` before the loop. */
  function PutDecision(rows: seq<Video>, accountId: string, upload: Body): Response
  {
    if OwnsRow(rows, accountId) then Response(409, Text(AlreadyExists), map[])
    else Response(200, upload, map[])
  }

  /** As written, the upload URL is never issued: the only outcomes are 409 and an exception. */
  lemma {:induction false} UploadNeverIssuedAsWritten(rows: seq<Video>, accountId: string)
    ensures var r := PutDecisionAsWritten(rows, accountId);
            (r.Ok? ==> r.value.statusCode == 409) &&
            (r.Raised? <==> forall v :: v in rows ==> v.accountId != accountId)
  {
    if !OwnsRow(rows, accountId) {
      forall v | v in rows ensures v.accountId != accountId {
        var i :| 0 <= i < |rows| && rows[i] == v;
      }
    } else {
      var i :| 0 <= i < |rows| && rows[i].accountId == accountId;
      assert rows[i] in rows;
    }
  }

  /** The first upload of an account under a code, where the intended 200 and the written exception part. */
  lemma FirstUploadUnderCode(accountId: string, other: Video, upload: Body)
    requires other.accountId != accountId
    ensures PutDecisionAsWritten([other], accountId) == Raised(UnboundLocalError("video_exists"))
    ensures PutDecision([other], accountId, upload) == Response(200, upload, map[])
  {
  }

  /** As intended: 409 exactly when the caller already has a video under the code, the upload URL otherwise. */
  lemma {:induction false} PutDecisionIntended(rows: seq<Video>, accountId: string, upload: Body)
    ensures var r := PutDecision(rows, accountId, upload);
            (r.statusCode == 409 <==> exists v :: v in rows && v.accountId == accountId) &&
            (r.statusCode == 200 <==> forall v :: v in rows ==> v.accountId != accountId) &&
            (r.statusCode == 200 ==> r.body == upload) &&
            (PutDecisionAsWritten(rows, accountId).Ok? ==> PutDecisionAsWritten(rows, accountId) == Ok(r))
  {
    UploadNeverIssuedAsWritten(rows, accountId);
  }

  /**
   * `lambda_handler(event, context)`. `rolls` are the draws of
   * `random.choice` and `hex` is `uuid.uuid4().hex`.
   */
  method Handle(req: Request, accounts: AccountsTable, videos: VideosTable, rolls: seq<nat>, hex: string)
    returns (r: Result<Response>)
    requires ValidRolls(AlnumAlphabet, rolls)
    ensures req.headers.None? ==> r == Raised(TypeError)
    ensures RouteOf(req) == BadCredentials ==> r == Ok(Response(401, Text(InvalidCredentials), map[]))
    ensures RouteOf(req) == AccountRows ==>
              match SessionAccount(accounts.items, Header(req, "session-id"))
              case None => r == Raised(IndexError)
              case Some(accountId) =>
                r == Ok(Response(200, JsonVideos(Public(SortNewestFirst(OwnedBy(videos.items, accountId)))), map[]))
    ensures RouteOf(req) == CodeRows ==>
              r == Ok(Response(200, JsonVideos(Public(WithCode(videos.items, Header(req, "code")))), JsonContentType))
    ensures RouteOf(req) == Download ==>
              r == Ok(Response(200, Url(PresignedUrl(GetObject, VideosBucketName, Header(req, "id"))), map[]))
    ensures RouteOf(req) == Append ==>
              match SessionAccount(accounts.items, Header(req, "session-id"))
              case None => r == Ok(Response(401, Text(InvalidSession), map[]))
              case Some(accountId) => r == PutDecisionAsWritten(WithCode(videos.items, Header(req, "code")), accountId)
    ensures RouteOf(req) == Create ==>
              match GenerateCode(videos.items, AlnumAlphabet, AlnumCodeLength, rolls)
              case Raised(e) => r == Raised(e)
              case Ok(code) =>
                r == Ok(Response(200, Url(PresignedUrl(PutObject, VideosBucketName,
                          FormatKey(code, hex, Header(req, "session-id"), NormalizeExtension(Header(req, "file-extension"))))), map[]))
    ensures RouteOf(req) == Unmatched ==> r == Ok(Response(400, Text(MustSpecify), map[]))
  {
    match RouteOf(req) {
      case HeadersMissing =>
        return Raised(TypeError);
      case BadCredentials =>
        return Ok(Response(401, Text(InvalidCredentials), map[]));
      case AccountRows =>
        var matches := WithSession(accounts.items, Header(req, "session-id"));
        if |matches| == 0 {
          return Raised(IndexError);
        }
        var accountId := matches[0].id;
        var rows := SortNewestFirst(OwnedBy(videos.items, accountId));
        var listing := StripAccounts(rows);
        assert listing == Public(rows);
        return Ok(Response(200, JsonVideos(listing), map[]));
      case CodeRows =>
        var rows := WithCode(videos.items, Header(req, "code"));
        var listing := StripAccounts(rows);
        assert listing == Public(rows);
        return Ok(Response(200, JsonVideos(listing), JsonContentType));
      case Download =>
        return Ok(Response(200, Url(PresignedUrl(GetObject, VideosBucketName, Header(req, "id"))), map[]));
      case Append =>
        var code := Header(req, "code");
        var matches := WithSession(accounts.items, Header(req, "session-id"));
        if |matches| == 0 {
          return Ok(Response(401, Text(InvalidSession), map[]));
        }
        var accountId := matches[0].id;
        var rows := WithCode(videos.items, code);
        var bound := VideoExistsBound(rows, accountId);
        if !bound {
          return Raised(UnboundLocalError("video_exists"));
        }
        // Bound means bound to True: the 200 branch after `else:` is never reached.
        return Ok(Response(409, Text(AlreadyExists), map[]));
      case Create =>
        var ext := NormalizeExtension(Header(req, "file-extension"));
        var sessionId := Header(req, "session-id");
        var code := GenerateCode(videos.items, AlnumAlphabet, AlnumCodeLength, rolls);
        if code.Raised? {
          return Raised(code.error);
        }
        var key := FormatKey(code.value, hex, sessionId, ext);
        return Ok(Response(200, Url(PresignedUrl(PutObject, VideosBucketName, key)), map[]));
      case Unmatched =>
        return Ok(Response(400, Text(MustSpecify), map[]));
    }
  }
}
