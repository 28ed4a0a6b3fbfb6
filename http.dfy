/**
 * The API Gateway proxy event and response the handlers exchange, reduced to
 * what they read and write: the method, the headers, a status code, a body
 * and the response headers. S3 presigning is opaque: a presigned URL is
 * modelled by the request it authorises.
 */
module Http {
  import opened Records

  /** `event.get('httpMethod')` and `event.get('headers')`; either may be absent. */
  datatype Request = Request(httpMethod: Option<string>, headers: Option<map<string, string>>)

  datatype ClientMethod = GetObject | PutObject

  /** `s3.generate_presigned_url(ClientMethod=..., Params={'Bucket': ..., 'Key': ...})`. */
  datatype PresignedUrl = PresignedUrl(clientMethod: ClientMethod, bucket: string, key: string)

  /**
   * A response body. `Text` is a plain string, `JsonText` a string passed
   * through `json.dumps`; the JSON encoding itself is not modelled.
   */
  datatype Body =
    | NoBody
    | Text(text: string)
    | JsonText(text: string)
    | JsonVideos(videos: seq<PublicVideo>)
    | JsonFeed(items: seq<FeedItem>)
    | Url(url: PresignedUrl)

  /** A response dict; an empty `headers` map stands for a dict without a `headers` key. */
  datatype Response = Response(statusCode: int, body: Body, headers: map<string, string>)

  const Password := "ThisIsEpicPassword"

  /** The headers every response of the original proxy carries. */
  const CorsHeaders: map<string, string> :=
    map["Access-Control-Allow-Headers" := "code,password,batch-index", "Access-Control-Allow-Origin" := "*"]

  const JsonContentType: map<string, string> := map["content-type" := "application/json"]

  /** `'password' in headers and headers['password'] == 'ThisIsEpicPassword'`. */
  predicate HasPassword(headers: map<string, string>)
  {
    "password" in headers && headers["password"] == Password
  }

  function IsMethod(req: Request, name: string): bool
  {
    req.httpMethod == Some(name)
  }

  /** `name in headers`, on a request whose headers are present. */
  function Has(req: Request, name: string): bool
  {
    req.headers.Some? && name in req.headers.value
  }

  /** The request has the given method and every one of the given headers. */
  predicate Fits(req: Request, verb: string, needs: set<string>)
  {
    IsMethod(req, verb) && forall h :: h in needs ==> Has(req, h)
  }

  /** The request carries headers, and the password among them is the right one. */
  predicate Admitted(req: Request)
  {
    req.headers.Some? && HasPassword(req.headers.value)
  }

  function Header(req: Request, name: string): string
    requires Has(req, name)
  {
    req.headers.value[name]
  }
}
