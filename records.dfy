/**
 * The records the handlers exchange with the two DynamoDB tables and with
 * their callers, and the Python exceptions a handler can let escape.
 */
module Records {

  type Bytes = seq<bv8>

  datatype Option<+T> = None | Some(value: T)

  /** The exceptions an invocation can end with, in Python's own names. */
  datatype Error =
    | IndexError                         // `Items[0]`, `key_split[2]` on a list that is too short
    | KeyError(name: string)             // a dict lookup of an attribute the record lacks
    | TypeError                          // `'password' in headers` when the event has no headers
    | ValueError                         // `int(...)` of a batch index that is not an integer
    | UnboundLocalError(name: string)    // a local read before any assignment
    | NoSuchKey(bucket: string, key: string)  // S3 `get_object` of an absent object
    | ThumbnailUploadFailed(key: string) // `upload_file` of a thumbnail ffmpeg did not produce
    | ClientError                        // a DynamoDB call that failed and was re-raised
    | RecursionError                     // `generateCode` never found a free code

  /** A value or the exception that ended the computation. */
  datatype Result<+T> = Ok(value: T) | Raised(error: Error)

  /** A row of `dothethingvideos-metadata`. */
  datatype Video = Video(code: string, id: string, timeOfCreation: int, accountId: string)

  /**
   * A row of `dothething-accounts`. `sessionId` and `interactions` are optional
   * because `update_item` on an unknown `id` creates a row holding only
   * `id` and `interactions`.
   */
  datatype Account = Account(id: string, sessionId: Option<string>, interactions: Option<int>)

  /** A video row after `del video['accountId']`. */
  datatype PublicVideo = PublicVideo(code: string, id: string, timeOfCreation: int)

  /** Stands for `base64.b64encode(raw).decode('utf-8')`; the encoding itself is not modelled. */
  datatype Base64 = Base64Of(raw: Bytes)

  /** A feed entry: a video row without `accountId`, with `thumbnailBase64` added. */
  datatype FeedItem = FeedItem(code: string, id: string, timeOfCreation: int, thumbnailBase64: Base64)

  function WithoutAccount(v: Video): PublicVideo
  {
    PublicVideo(v.code, v.id, v.timeOfCreation)
  }

  function WithThumbnail(p: PublicVideo, t: Base64): FeedItem
  {
    FeedItem(p.code, p.id, p.timeOfCreation, t)
  }
}
