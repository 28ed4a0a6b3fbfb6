/**
 * The S3-triggered ingestion handlers: an upload to the videos bucket under
 * `code-<hex>-session.ext` becomes one row of `dothethingvideos-metadata`.
 * The video-processing-center variant first extracts and stores a
 * thumbnail, and stops quietly when the session belongs to no account; the
 * root variant has no thumbnail step and fails at `Items[0]` instead.
 *
 * ffmpeg is an external process: its output for the downloaded video is
 * given as `frame`, with `None` when it produced no file. The clock reading
 * is given as `epoch`, and `putFails` says whether `put_item` fails.
 */
module Ingestion {
  import opened Records
  import opened Storage
  import opened Feed
  import opened UploadKey

  /** How an invocation ends: a row written, a silent return, or an exception. */
  datatype Outcome = Committed(video: Video) | Stopped | Failed(error: Error)

  /** video-processing-center `lambda_handler` for the object `key` of bucket `source`. */
  method ProcessUpload(key: string, source: Bucket, thumbnails: Bucket, accounts: AccountsTable, videos: VideosTable,
                       frame: Option<Bytes>, epoch: int, putFails: bool)
    returns (outcome: Outcome)
    requires thumbnails != source
    modifies thumbnails, videos
    ensures !outcome.Committed? ==> videos.items == old(videos.items)
    ensures ParseKey(key).Raised? ==> outcome == Failed(IndexError) && thumbnails.objects == old(thumbnails.objects)
    ensures ParseKey(key).Ok? && key !in source.objects ==>
              outcome == Failed(NoSuchKey(source.name, key)) && thumbnails.objects == old(thumbnails.objects)
    ensures ParseKey(key).Ok? && key in source.objects && frame.None? ==>
              outcome == Failed(ThumbnailUploadFailed(ThumbnailKey(key))) && thumbnails.objects == old(thumbnails.objects)
    ensures ParseKey(key).Ok? && key in source.objects && frame.Some? ==>
              thumbnails.objects == old(thumbnails.objects)[ThumbnailKey(key) := frame.value]
    ensures outcome == Stopped <==>
              ParseKey(key).Ok? && key in source.objects && frame.Some? &&
              SessionAccount(accounts.items, ParseKey(key).value.sessionId).None?
    ensures outcome == Failed(ClientError) <==>
              ParseKey(key).Ok? && key in source.objects && frame.Some? &&
              SessionAccount(accounts.items, ParseKey(key).value.sessionId).Some? && putFails
    ensures outcome.Committed? <==>
              ParseKey(key).Ok? && key in source.objects && frame.Some? &&
              SessionAccount(accounts.items, ParseKey(key).value.sessionId).Some? && !putFails
    ensures outcome.Committed? ==>
              var parsed := ParseKey(key).value;
              outcome.video == Video(parsed.code, key, epoch, SessionAccount(accounts.items, parsed.sessionId).value) &&
              videos.items == Put(old(videos.items), outcome.video)
  {
    var parsed := ParseKey(key);
    if parsed.Raised? {
      return Failed(parsed.error);
    }
    var code, sessionId := parsed.value.code, parsed.value.sessionId;
    // Download, ffmpeg and upload sit in one `try` that re-raises what it catches.
    if key !in source.objects {
      return Failed(NoSuchKey(source.name, key));
    }
    var thumbnail := ThumbnailKey(key);
    if frame.None? {
      return Failed(ThumbnailUploadFailed(thumbnail));
    }
    thumbnails.UploadFile(thumbnail, frame.value);
    var accountId := SessionAccount(accounts.items, sessionId);
    if accountId.None? {
      return Stopped;
    }
    if putFails {
      return Failed(ClientError);
    }
    var video := Video(code, key, epoch, accountId.value);
    videos.PutItem(video);
    return Committed(video);
  }

  /** Root `DTTProcessingCenter.py` `lambda_handler`: no thumbnail, and no check that the session matched. */
  method ProcessUploadRoot(key: string, accounts: AccountsTable, videos: VideosTable, epoch: int, putFails: bool)
    returns (outcome: Outcome)
    modifies videos
    ensures outcome != Stopped
    ensures !outcome.Committed? ==> videos.items == old(videos.items)
    ensures ParseKey(key).Raised? ==> outcome == Failed(IndexError)
    ensures ParseKey(key).Ok? && SessionAccount(accounts.items, ParseKey(key).value.sessionId).None? ==>
              outcome == Failed(IndexError)
    ensures outcome == Failed(ClientError) <==>
              ParseKey(key).Ok? && SessionAccount(accounts.items, ParseKey(key).value.sessionId).Some? && putFails
    ensures outcome.Committed? <==>
              ParseKey(key).Ok? && SessionAccount(accounts.items, ParseKey(key).value.sessionId).Some? && !putFails
    ensures outcome.Committed? ==>
              var parsed := ParseKey(key).value;
              outcome.video == Video(parsed.code, key, epoch, SessionAccount(accounts.items, parsed.sessionId).value) &&
              videos.items == Put(old(videos.items), outcome.video)
  {
    var parsed := ParseKey(key);
    if parsed.Raised? {
      return Failed(parsed.error);
    }
    var code, sessionId := parsed.value.code, parsed.value.sessionId;
    var accountId := SessionAccount(accounts.items, sessionId);
    if accountId.None? {
      return Failed(IndexError);
    }
    if putFails {
      return Failed(ClientError);
    }
    var video := Video(code, key, epoch, accountId.value);
    videos.PutItem(video);
    return Committed(video);
  }

  /**
   * A committed upload is one new or replaced row: the table gains the row,
   * keeps every row under another key, and holds nothing else new.
   */
  lemma CommitWritesOneRow(items: seq<Video>, video: Video)
    requires UniqueKeys(items)
    ensures var after := Put(items, video);
            video in after && UniqueKeys(after) &&
            (forall w :: w in items && !SameKey(w, video) ==> w in after) &&
            (forall w :: w in after && w != video ==> w in items && !SameKey(w, video)) &&
            |after| <= |items| + 1
  {
    PutKeepsKeysUnique(items, video);
    PutSize(items, video);
  }

  /**
   * The thumbnail stored under `key + ".jpg"` is the one the feed serves for
   * the row whose `id` is `key`, whatever the default thumbnail is.
   */
  lemma StoredThumbnailIsServed(thumbs: map<string, Bytes>, key: string, frame: Bytes)
    ensures ThumbnailFor(thumbs[ThumbnailKey(key) := frame], key) == Some(frame)
  {
  }
}
