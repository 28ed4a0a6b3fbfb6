# dothething-backend, modelled in Dafny

The backend of the "do the thing" video-sharing app is a set of AWS Lambda
handlers built on two DynamoDB tables and two S3 buckets:

- `dothethingvideos-metadata` holds one row per uploaded clip: `code`, `id`,
  `timeOfCreation` and `accountId`.
- `dothething-accounts` holds one row per account: `id`, `sessionId` and
  `interactions`.
- `dothethingvideos` holds the clips; `dothethingthumbnails` holds one JPEG
  per clip, plus the fallback `obama.jpg`.

This project models the logic under the boto3 calls. The tables become
sequences of rows, and the buckets become maps from key to bytes. A query
is a filter in store order, and `put_item` is an insert-or-replace keyed
on (`code`, `id`). `update_item` is an upsert keyed on `id`.

The modules follow the repository:

- `Records`: the rows, the error kinds a handler can raise, and `Result`.
- `PyBuiltins`: the Python built-ins the handlers rely on, on the inputs
  the handlers give them. These are slicing (negative bounds included), `str.split`,
  `str.strip`, ASCII `lower`, `int()` and `str()`.
- `Storage`: the tables and buckets as classes whose methods update them,
  plus the query functions.
- `Feed`: `processVideos`. It sorts newest first, takes the window of 33
  rows at `batch_index * 33`, drops `accountId` and attaches a thumbnail,
  falling back to `obama.jpg`.
- `CodeAllocator`: `generateCode`, as recursion over the `random.choice`
  draws.
- `UploadKey`: the `code-hex-session.ext` object key that the proxies build
  and the ingestion handlers take apart.
- `Http`: requests, responses, the CORS headers and presigned URLs.
- `OgProxy`, `DttProxy`, `Homefeed`, `Ingestion`: the handlers themselves.

`random.choice`, `uuid.uuid4().hex`, `time.time()`, the ffmpeg output and a
failing `put_item` are parameters of the handlers. Exceptions are values of
`Result` or `Outcome`: an `IndexError` at `Items[0]`, the `TypeError` of
`'password' in None`, or the `UnboundLocalError` of the root proxy.

Three behaviours of the model follow from the code and are easy to misread:

- A query by `code` returns rows in the table's order. The comment at
  og-proxy-integration/DTTLambdaProxyIntegration.py:131 speaks of sorting
  by `timeOfCreation` in ascending order, but `ScanIndexForward` orders by
  the table's sort key, and that key is not visible in the code.
- A key with more than two dashes, such as `abc1234-f3a1-S9-mp4.mov`,
  still parses. Only the first and third fields are read, and
  `UploadKey.ExtraDashStillParses` states it.
- Redelivering the same upload replaces its row rather than adding a second
  one. `put_item` replaces a row with the same primary key, and the model
  takes that key to be (`code`, `id`); the table's key schema is not part
  of this model.

## Model

| member | source | states |
|---|---|---|
| PyBuiltins.SliceNonNegative | og-proxy-integration/DTTLambdaProxyIntegration.py:30-32 | for non-negative bounds a Python slice is the ordinary sub-sequence clipped to the length, and it is never longer than `hi - lo` |
| PyBuiltins.Split | video-processing-center/DTTProcessingCenter.py:27 | `str.split` on one character yields at least one piece, and no piece contains the separator |
| PyBuiltins.JoinSplit | video-processing-center/DTTProcessingCenter.py:27 | joining the pieces of a split with the separator gives back the original string |
| PyBuiltins.SplitPieces | video-processing-center/DTTProcessingCenter.py:27-32 | a split has exactly one more piece than the string has separators |
| PyBuiltins.Strip | og-proxy-integration/DTTLambdaProxyIntegration.py:206 | `strip('.')` is a contiguous span of its input with only dots outside it and no dot at either of its ends |
| PyBuiltins.StripStable | og-proxy-integration/DTTLambdaProxyIntegration.py:206 | a string with no dot at either end is left as it is by `strip('.')` |
| PyBuiltins.CleanSpanUnique | og-proxy-integration/DTTLambdaProxyIntegration.py:206 | a string has at most one non-empty span with only dots outside it and no dot at its ends |
| PyBuiltins.StripUnique | og-proxy-integration/DTTLambdaProxyIntegration.py:206 | any span with only dots outside it and no dot at its ends is exactly what `strip('.')` returns, so the span is unique |
| PyBuiltins.Lower | og-proxy-integration/DTTLambdaProxyIntegration.py:206 | `lower()` keeps the length, turns each ASCII capital into its own lower-case letter (code point plus 32), and leaves every other character as it is |
| PyBuiltins.LowerStable | og-proxy-integration/DTTLambdaProxyIntegration.py:206 | a string with no ASCII capital is its own `lower()` |
| PyBuiltins.ParseDecimalText | homefeed-handler/dttHomefeedHandler.py:143 | `int(str(n)) == n` for every integer, negative ones included |
| Storage.SessionAccount | homefeed-handler/dttHomefeedHandler.py:22-34 | the session lookup finds nothing exactly when no account holds the session, and otherwise gives the id of an account that holds it |
| Storage.Put | video-processing-center/DTTProcessingCenter.py:80-87 | `put_item` stores the row, keeps every row under another (`code`, `id`) key, and adds nothing else |
| Storage.PutKeepsKeysUnique | video-processing-center/DTTProcessingCenter.py:80-87 | on a table with unique keys, a put keeps keys unique, and the written row is the only one under its key |
| Storage.PutSize | video-processing-center/DTTProcessingCenter.py:80-87 | a put grows the table by one row exactly when no row has its key, and otherwise keeps its size |
| Storage.VideosTable.PutItem | video-processing-center/DTTProcessingCenter.py:80-87 | the table after `put_item` is the insert-or-replace of the row into the table before |
| Storage.AccountsTable.UpdateInteractions | homefeed-handler/dttHomefeedHandler.py:81-88 | the accounts after `update_item` are the old ones with `interactions` set for the id |
| Storage.Bucket.UploadFile | video-processing-center/DTTProcessingCenter.py:50 | after an upload the bucket maps the key to the data, and every other object is unchanged |
| Feed.InsertByTime | og-proxy-integration/DTTLambdaProxyIntegration.py:29 | inserting a row into a newest-first list keeps it newest first and adds exactly that row |
| Feed.SortNewestFirst | og-proxy-integration/DTTLambdaProxyIntegration.py:29 | `sort(key=timeOfCreation, reverse=True)` yields a newest-first permutation of its input |
| Feed.ProcessVideos | og-proxy-integration/DTTLambdaProxyIntegration.py:28-42 | the sort, slice and per-row loop produce exactly the page `FeedPage` defines, including the exception when a thumbnail and the fallback are both missing |
| Feed.FeedPageMeaning | og-proxy-integration/DTTLambdaProxyIntegration.py:35-41 | a page is the batch entry by entry, each row without `accountId` and with the thumbnail of `id + ".jpg"` or else of `obama.jpg`; it fails, with `NoSuchKey` on the fallback, exactly when some row of the batch has neither |
| Feed.ServeFeed | og-proxy-integration/DTTLambdaProxyIntegration.py:97-101 | a feed route raises `ValueError` for a `batch-index` that `int()` rejects; otherwise it answers 200 with the page of that batch, or raises what `processVideos` raises |
| Feed.BatchShape | og-proxy-integration/DTTLambdaProxyIntegration.py:29-32 | a batch holds at most 33 rows, is newest first, takes only input rows, and for b >= 0 is the slice [33b, 33b+33) of the sorted input |
| Feed.PagesArePrefix | og-proxy-integration/DTTLambdaProxyIntegration.py:30-32 | batches 0..k concatenated are exactly the first 33(k+1) sorted rows, with no gap or overlap |
| Feed.WindowPastEnd | og-proxy-integration/DTTLambdaProxyIntegration.py:30-32 | a batch index past the end gives an empty batch, not an error |
| Feed.WindowMinusOneIsEmpty | og-proxy-integration/DTTLambdaProxyIntegration.py:30-32 | batch index -1 slices `[-33:0]`, which is empty |
| Feed.DefaultThumbnailMasksMissing | og-proxy-integration/DTTLambdaProxyIntegration.py:37-41 | while `obama.jpg` exists, every row of a batch gets a thumbnail, and a row without its own thumbnail gets `obama.jpg` |
| Feed.NewestFirstTimesUnique | og-proxy-integration/DTTLambdaProxyIntegration.py:29 | two newest-first orders of the same rows have the same sequence of timestamps; only ties may differ |
| Feed.BatchTimesIgnoreInputOrder | homefeed-handler/dttHomefeedHandler.py:125-131 | whatever order the feed rows were collected in, the batch has the same timestamps at every position |
| CodeAllocator.Draw | og-proxy-integration/DTTLambdaProxyIntegration.py:224 | one draw of `random.choice` per character gives a string of that length over the alphabet |
| CodeAllocator.GenerateCode | og-proxy-integration/DTTLambdaProxyIntegration.py:223-236 | a returned code has the requested length, only alphabet characters, and no stored video uses it; running out of draws raises `RecursionError` |
| CodeAllocator.GenerateCodeIsFirstFree | og-proxy-integration/DTTLambdaProxyIntegration.py:223-236 | the returned code is the first candidate not in use, with every earlier candidate in use; `RecursionError` means every candidate was in use |
| UploadKey.NormalizeExtension | og-proxy-integration/DTTLambdaProxyIntegration.py:206 | the extension is the lower-cased span of the header left after removing leading and trailing dots: only dots lie outside the span, and the result has no dot at either end and no capital |
| UploadKey.NormalizeExtensionIdempotent | og-proxy-integration/DTTLambdaProxyIntegration.py:239 | normalising an extension twice is the same as normalising it once |
| UploadKey.ParseKey | video-processing-center/DTTProcessingCenter.py:27-32 | parsing raises `IndexError` exactly when the key has fewer than two dashes; otherwise the code is a dash-free prefix of the key, and the session has no dash and no dot |
| UploadKey.SessionAfterSecondDash | video-processing-center/DTTProcessingCenter.py:27-32 | for any key with at least two dashes, the code is the text before the first dash and the session is the text after the second dash up to the next dash or dot, or up to the end of the key |
| UploadKey.ParseFormatKey | video-processing-center/DTTProcessingCenter.py:27-32 | parsing `code-hex-session.ext` gives back (code, session) when code and session have no dash, session has no dot, and hex is 32 lower-case hex digits |
| UploadKey.KeyFields | video-processing-center/DTTProcessingCenter.py:27-28 | the first two dash-free fields of a key come out of `split("-")` as they went in |
| UploadKey.SessionField | video-processing-center/DTTProcessingCenter.py:32 | the third field, cut at its first dot, is the dash-free and dot-free session that was put there |
| UploadKey.ShortKeyRaises | video-processing-center/DTTProcessingCenter.py:32 | a key with fewer than three dash-separated fields raises `IndexError` at `key_split[2]` |
| UploadKey.DashedCodeIsCut | video-processing-center/DTTProcessingCenter.py:28 | a code containing a dash does not survive the round trip: only its part before the first dash is read back |
| UploadKey.GeneratedKeyRoundTrip | DTTLambdaProxyIntegration.py:193-212 | a code drawn from either proxy's alphabet, put into an upload key, is read back exactly by the ingestion parse |
| UploadKey.ExtraFieldIgnored | DTTProcessingCenter.py:27-32 | fields after the third dash-separated one are ignored by the parse |
| UploadKey.ExtraDashStillParses | DTTProcessingCenter.py:27-32 | `abc1234-f3a1-S9-mp4.mov` parses to code `abc1234` and session `S9` |
| OgProxy.RouteOf | og-proxy-integration/DTTLambdaProxyIntegration.py:50-259 | OPTIONS is routed before the password is read, then missing headers and a wrong password. After those, each route is taken exactly when the request has that route's method and headers and no earlier route of the elif chain matches: GET with session-id and batch-index, GET with session-id, GET with code and batch-index, GET with code, GET with id, PUT with code, file-extension and session-id, POST with file-extension and session-id. The fall-through is taken exactly when none matches |
| OgProxy.UnmatchedIff | og-proxy-integration/DTTLambdaProxyIntegration.py:255-259 | the 400 branch is reached exactly when the request is not OPTIONS, has the password, and is neither a GET with session-id, code or id, nor a PUT with code, file-extension and session-id, nor a POST with file-extension and session-id |
| OgProxy.Handle | og-proxy-integration/DTTLambdaProxyIntegration.py:44-265 | every response carries the CORS headers. OPTIONS gives 200 and a bad password 401. An unknown session gives 401 `Invalid session ID.` with no query or URL. The feeds are batches of the account's or the code's rows. PUT issues the upload key whatever the code query returned, and POST issues it under a fresh code. Anything else gives 400 |
| DttProxy.RouteOf | DTTLambdaProxyIntegration.py:33-229 | the password is tested first with no OPTIONS exemption. After it, each route is taken exactly when the request has that route's method and headers and no earlier route matches: GET with session-id, GET with code, GET with id, PUT with code, file-extension and session-id, POST with file-extension and session-id. The fall-through is taken exactly when none matches |
| DttProxy.UnmatchedIff | DTTLambdaProxyIntegration.py:225-229 | the 400 branch is reached exactly when the request has the password and is neither a GET with session-id, code or id, nor a PUT with code, file-extension and session-id, nor a POST with file-extension and session-id, whatever its method otherwise |
| DttProxy.Public | DTTLambdaProxyIntegration.py:74-76 | removing `accountId` keeps one entry per row |
| DttProxy.StripAccounts | DTTLambdaProxyIntegration.py:105-107 | the `del video['accountId']` loop keeps every row, in order, with its code, id and timestamp |
| DttProxy.AccountListing | DTTLambdaProxyIntegration.py:56-82 | the session listing is newest first and unpaginated: exactly the account's own rows, each once, without `accountId` |
| DttProxy.PublicKeepsOrder | DTTLambdaProxyIntegration.py:71-76 | dropping `accountId` from a newest-first list keeps it newest first |
| DttProxy.ListingComplete | DTTLambdaProxyIntegration.py:62-76 | every row the account owns appears in its listing |
| DttProxy.ListingSound | DTTLambdaProxyIntegration.py:62-76 | every entry of the listing comes from a row the account owns |
| DttProxy.VideoExistsBound | DTTLambdaProxyIntegration.py:166-169 | the loop binds `video_exists` exactly when some row under the code belongs to the caller |
| DttProxy.UploadNeverIssuedAsWritten | DTTLambdaProxyIntegration.py:166-188 | as written, the PUT branch answers only 409 or raises; it raises exactly when the caller owns no row under the code |
| DttProxy.FirstUploadUnderCode | DTTLambdaProxyIntegration.py:166-188 | on a code holding only another account's row, the branch as written raises `UnboundLocalError`, where the intended branch gives 200 |
| DttProxy.PutDecisionIntended | DTTLambdaProxyIntegration.py:166-188 | with the flag initialised, the answer is 409 exactly when the caller owns a row under the code, and otherwise 200 with the upload URL; wherever the written branch does not raise, it gives the same answer |
| DttProxy.Handle | DTTLambdaProxyIntegration.py:27-232 | a bad password gives 401. An unknown session raises `IndexError` on GET and gives 401 on PUT. GET by session lists the account's rows, newest first. GET by code lists the code's rows in store order with a JSON content type. PUT follows the as-written decision. POST issues a key under a fresh 7-character code. Anything else gives 400 |
| Homefeed.GetCodesForAccount | homefeed-handler/dttHomefeedHandler.py:36-49 | the set holds exactly the codes of the rows the account owns |
| Homefeed.RowsWithOneMoreCode | homefeed-handler/dttHomefeedHandler.py:127-129 | visiting one more code adds exactly that code's rows to the collection |
| Homefeed.ExtendByCode | homefeed-handler/dttHomefeedHandler.py:127-129 | one pass of the `extend` loop keeps the collection equal, as a multiset, to the rows under the codes visited so far |
| Homefeed.CollectVideos | homefeed-handler/dttHomefeedHandler.py:124-129 | whatever order the set is visited in, the collected rows are, as a multiset, exactly the rows under the codes |
| Homefeed.CollectedMembers | homefeed-handler/dttHomefeedHandler.py:122-129 | the feed holds every row under one of the account's codes, other accounts' rows included, and nothing else |
| Homefeed.InteractionsOf | homefeed-handler/dttHomefeedHandler.py:97-108 | `getInteractions` raises `IndexError` exactly when no account has the id. It returns a count when every row with the id holds one, and a returned count is a stored one. Any other exception is `KeyError('interactions')`, raised only when a row with the id has no count |
| Homefeed.SetThenGetInteractions | homefeed-handler/dttHomefeedHandler.py:81-108 | after `setInteractions(id, n)`, `getInteractions(id)` returns `n` |
| Homefeed.SetInteractionsFrame | homefeed-handler/dttHomefeedHandler.py:81-95 | `setInteractions` changes only `interactions` of the rows with that id and keeps every id and session; it adds a row only when no row has the id |
| Homefeed.SessionAccountCons | homefeed-handler/dttHomefeedHandler.py:25-32 | the session lookup takes the first matching account in store order |
| Homefeed.SessionAccountSameKeys | homefeed-handler/dttHomefeedHandler.py:22-34 | the session lookup depends only on ids and sessions, not on counts |
| Homefeed.SetInteractionsKeepsSessions | homefeed-handler/dttHomefeedHandler.py:81-95 | recording interactions never changes which account a session resolves to |
| Homefeed.SetInteractionsKeepsOtherCounts | homefeed-handler/dttHomefeedHandler.py:81-95 | recording one account's interactions leaves every other account's count, or its absence, as it was |
| Homefeed.RouteOf | homefeed-handler/dttHomefeedHandler.py:116-150 | missing headers and a bad password are recognised first. The feed route is taken exactly when the request has the password and is a GET with session-id and batch-index. The interactions route is taken exactly when it is such a GET without batch-index. Anything else with the password falls through to the 400 |
| Homefeed.Handle | homefeed-handler/dttHomefeedHandler.py:110-153 | a bad password gives 401 and an unknown session raises `IndexError` before any write. The feed overwrites `interactions` with the full count of collected rows, before pagination and before `batch-index` is parsed, then returns one batch. The interactions route returns the stored count as text and writes nothing. Anything else gives 400 |
| Ingestion.ProcessUpload | video-processing-center/DTTProcessingCenter.py:19-93 | a bad key raises before any effect. A failed download or thumbnail raises with nothing written. The thumbnail is stored under `key + ".jpg"` before the session lookup. An unknown session stops quietly and leaves the thumbnail. A failed put propagates. A row is committed exactly when the key parses, the object exists, ffmpeg gives a frame, the session resolves and the put succeeds, and it is the row {code, key, epoch, first matching account} |
| Ingestion.ProcessUploadRoot | DTTProcessingCenter.py:19-67 | there is no thumbnail step and never a silent stop. An unknown session raises `IndexError` with nothing written. A failed put propagates. A row is committed exactly when the key parses, the session resolves and the put succeeds, and it is the row {code, key, epoch, account} |
| Ingestion.CommitWritesOneRow | DTTProcessingCenter.py:52-61 | a committed upload adds or replaces one row, keeps every row under another key, and keeps keys unique |
| Ingestion.StoredThumbnailIsServed | video-processing-center/DTTProcessingCenter.py:46-50 | the thumbnail stored under `key + ".jpg"` is the one the feed serves for the row whose id is `key` |

## Left out

- S3 and DynamoDB I/O: the calls become in-memory tables and maps. `generate_presigned_url` is opaque, and a URL is modelled by the (method, bucket, key) it authorises.
- `ClientError` from `query`, `update_item` and the thumbnail `get_object`: only a failing `put_item` is modelled (the `putFails` parameter).
- Sort order of a DynamoDB query: the key schema is not visible, so query results are in the table's order.
- ffmpeg via `os.system`, the `/tmp` write and `os.chdir`: thumbnail extraction is the `frame` parameter, with `None` when no file was produced.
- `random.choice`, `uuid.uuid4`, `time.time`: these are parameters (`rolls`, `hex`, `epoch`).
- `base64.b64encode`, `json.dumps` and `DecimalEncoder`: these are opaque; a body records the value that would be encoded.
- `urllib.parse.unquote_plus`: keys are taken as already decoded.
- Python `str.lower` beyond ASCII, and `int()` of text with surrounding whitespace, digit-group underscores or non-ASCII decimal digits (such as `'５'`); `ParseInt` raises `ValueError` on those.
- Logging and `print`.
- `google-token-verification-docker-for-lambda/lambda_function.py`: a thin wrapper around a foreign token check.
- Concurrency between invocations (the race between allocating a code and writing it), at-least-once redelivery, and secondary-index consistency.
- The event envelope: `Records[0]`, the bucket name taken from the event, and the source bucket is given directly.
- In-place mutation of the row dicts: the sort, the `del` and the thumbnail attachment build new sequences, so aliasing between the response and the query result is not captured.
- CodeAllocator.GenerateCode: unbounded recursion is modelled over a finite stream of draws, and exhausting it stands for Python's `RecursionError`.
- Homefeed.Handle: `set` iteration order is unspecified, so the feed is stated for some order of the collected rows, not for one particular order.

## Findings

| source | as written | input that shows it | evidently intended | confidence | as-written member | corrected member |
|---|---|---|---|---|---|---|
| DTTLambdaProxyIntegration.py:166-188 | `video_exists` is only assigned inside the loop, so `if video_exists:` raises `UnboundLocalError` whenever no row under the code belongs to the caller, and the 200 upload branch is unreachable | a PUT with a valid session and a code whose only row belongs to another account | initialise `video_exists = False` before the loop, so the caller gets the upload URL unless they already have a video under the code | high, not executed | DttProxy.UploadNeverIssuedAsWritten, DttProxy.FirstUploadUnderCode | DttProxy.PutDecisionIntended |
