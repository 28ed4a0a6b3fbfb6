/**
 * `processVideos`, shared by the proxy and the home-feed handler: order the
 * rows newest first, cut out batch `batch_index` of 33 with Python slice
 * semantics, drop `accountId` and attach a base64 thumbnail, falling back to
 * `obama.jpg`.
 */
module Feed {
  import opened Records
  import opened PyBuiltins
  import opened Storage
  import opened Http

  const BatchSize := 33

  /** Ordered by `timeOfCreation`, most recent first. */
  predicate NewestFirst(s: seq<Video>)
  {
    forall i, j :: 0 <= i < j < |s| ==> s[i].timeOfCreation >= s[j].timeOfCreation
  }

  /** A row at least as new as the head of a newest-first list can go in front of it. */
  lemma PrependNewest(x: Video, t: seq<Video>)
    requires NewestFirst(t)
    requires t == [] || x.timeOfCreation >= t[0].timeOfCreation
    ensures NewestFirst([x] + t)
  {
    var r := [x] + t;
    forall i, j | 0 <= i < j < |r|
      ensures r[i].timeOfCreation >= r[j].timeOfCreation
    {
      if i == 0 && j > 1 {
        assert t[0].timeOfCreation >= t[j - 1].timeOfCreation;
      }
    }
  }

  /** Inserts `v` ahead of every row that is not newer than it. */
  function InsertByTime(v: Video, s: seq<Video>): (r: seq<Video>)
    requires NewestFirst(s)
    ensures NewestFirst(r)
    ensures multiset(r) == multiset(s) + multiset{v}
    ensures r[0] == v || r[0] == s[0]
  {
    if s == [] || v.timeOfCreation >= s[0].timeOfCreation then
      PrependNewest(v, s);
      [v] + s
    else
      var rest := InsertByTime(v, s[1..]);
      assert s == [s[0]] + s[1..];
      PrependNewest(s[0], rest);
      [s[0]] + rest
  }

  /**
   * `videos.sort(key=lambda x: x['timeOfCreation'], reverse=True)`, as a
   * stable insertion sort. Only the order of rows with distinct timestamps
   * is relied on below.
   */
  function SortNewestFirst(s: seq<Video>): (r: seq<Video>)
    ensures NewestFirst(r)
    ensures multiset(r) == multiset(s)
  {
    if s == [] then []
    else
      assert s == [s[0]] + s[1..];
      InsertByTime(s[0], SortNewestFirst(s[1..]))
  }

  /** `videos[batch_index * 33 : batch_index * 33 + 33]`. */
  function Window<T>(s: seq<T>, batchIndex: int): seq<T>
  {
    Slice(s, batchIndex * BatchSize, batchIndex * BatchSize + BatchSize)
  }

  /** The rows batch `batchIndex` is made of. */
  function Batch(videos: seq<Video>, batchIndex: int): seq<Video>
  {
    Window(SortNewestFirst(videos), batchIndex)
  }

  /** The thumbnail served for a video: its own, else the default; none if both are absent. */
  function ThumbnailFor(thumbs: map<string, Bytes>, id: string): Option<Bytes>
  {
    if ThumbnailKey(id) in thumbs then Some(thumbs[ThumbnailKey(id)])
    else if DefaultThumbnail in thumbs then Some(thumbs[DefaultThumbnail])
    else None
  }

  /** One feed entry: the row without `accountId`, with its thumbnail. */
  function Enrich(v: Video, thumbs: map<string, Bytes>): FeedItem
    requires ThumbnailFor(thumbs, v.id).Some?
  {
    WithThumbnail(WithoutAccount(v), Base64Of(ThumbnailFor(thumbs, v.id).value))
  }

  /** What `processVideos` returns for a batch, or the exception it raises. */
  function FeedPage(videos: seq<Video>, batchIndex: int, thumbs: map<string, Bytes>): Result<seq<FeedItem>>
  {
    var batch := Batch(videos, batchIndex);
    if forall i :: 0 <= i < |batch| ==> ThumbnailFor(thumbs, batch[i].id).Some? then
      Ok(seq(|batch|, i requires 0 <= i < |batch| && ThumbnailFor(thumbs, batch[i].id).Some? =>
               Enrich(batch[i], thumbs)))
    else Raised(NoSuchKey(ThumbnailBucketName, DefaultThumbnail))
  }

  /**
   * `processVideos(videos, batch_index)`. The result is batch `batchIndex`
   * entry by entry; it raises only when some row of the batch has no
   * thumbnail and `obama.jpg` is missing too.
   */
  method ProcessVideos(videos: seq<Video>, batchIndex: int, thumbs: map<string, Bytes>)
    returns (r: Result<seq<FeedItem>>)
    ensures r == FeedPage(videos, batchIndex, thumbs)
  {
    var sorted := SortNewestFirst(videos);
    var window := Slice(sorted, batchIndex * BatchSize, batchIndex * BatchSize + BatchSize);
    assert window == Batch(videos, batchIndex);
    var out: seq<FeedItem> := [];
    for i := 0 to |window|
      invariant |out| == i
      invariant forall k :: 0 <= k < i ==>
                  ThumbnailFor(thumbs, window[k].id).Some? && out[k] == Enrich(window[k], thumbs)
    {
      var video := WithoutAccount(window[i]);
      var bytes: Bytes;
      if ThumbnailKey(window[i].id) in thumbs {
        bytes := thumbs[ThumbnailKey(window[i].id)];
      } else if DefaultThumbnail in thumbs {
        bytes := thumbs[DefaultThumbnail];
      } else {
        PageFailsAt(videos, batchIndex, thumbs, i);
        return Raised(NoSuchKey(ThumbnailBucketName, DefaultThumbnail));
      }
      var item := WithThumbnail(video, Base64Of(bytes));
      assert ThumbnailFor(thumbs, window[i].id) == Some(bytes) && item == Enrich(window[i], thumbs);
      out := out + [item];
    }
    PageIsEntries(videos, batchIndex, thumbs, out);
    return Ok(out);
  }

  /** A batch row with no thumbnail of its own and no default makes the page fail. */
  lemma PageFailsAt(videos: seq<Video>, batchIndex: int, thumbs: map<string, Bytes>, i: nat)
    requires i < |Batch(videos, batchIndex)|
    requires ThumbnailFor(thumbs, Batch(videos, batchIndex)[i].id).None?
    ensures FeedPage(videos, batchIndex, thumbs) == Raised(NoSuchKey(ThumbnailBucketName, DefaultThumbnail))
  {
    var batch := Batch(videos, batchIndex);
    assert !(forall k :: 0 <= k < |batch| ==> ThumbnailFor(thumbs, batch[k].id).Some?);
  }

  /** Entries built one by one from every row of the batch are the page. */
  lemma PageIsEntries(videos: seq<Video>, batchIndex: int, thumbs: map<string, Bytes>, out: seq<FeedItem>)
    requires |out| == |Batch(videos, batchIndex)|
    requires forall k :: 0 <= k < |out| ==>
               ThumbnailFor(thumbs, Batch(videos, batchIndex)[k].id).Some? &&
               out[k] == Enrich(Batch(videos, batchIndex)[k], thumbs)
    ensures FeedPage(videos, batchIndex, thumbs) == Ok(out)
  {
    var batch := Batch(videos, batchIndex);
    assert forall k :: 0 <= k < |batch| ==> ThumbnailFor(thumbs, batch[k].id).Some?;
    var entries := seq(|batch|, k requires 0 <= k < |batch| && ThumbnailFor(thumbs, batch[k].id).Some? =>
                         Enrich(batch[k], thumbs));
    assert FeedPage(videos, batchIndex, thumbs) == Ok(entries);
    assert entries == out;
  }

  /**
   * A page is batch `batchIndex` entry by entry, each row without `accountId`
   * and with its thumbnail; it fails, with `NoSuchKey` on `obama.jpg`,
   * exactly when some row of the batch has no thumbnail and the default is
   * missing too.
   */
  lemma FeedPageMeaning(videos: seq<Video>, batchIndex: int, thumbs: map<string, Bytes>)
    ensures var batch, r := Batch(videos, batchIndex), FeedPage(videos, batchIndex, thumbs);
            r.Ok? <==> forall v :: v in batch ==> ThumbnailKey(v.id) in thumbs || DefaultThumbnail in thumbs
    ensures var r := FeedPage(videos, batchIndex, thumbs);
            r.Raised? ==> r.error == NoSuchKey(ThumbnailBucketName, DefaultThumbnail)
    ensures var batch, r := Batch(videos, batchIndex), FeedPage(videos, batchIndex, thumbs);
            r.Ok? ==> |r.value| == |batch| && forall i :: 0 <= i < |batch| ==> r.value[i] == Enrich(batch[i], thumbs)
  {
    var batch := Batch(videos, batchIndex);
    if forall v :: v in batch ==> ThumbnailKey(v.id) in thumbs || DefaultThumbnail in thumbs {
      forall i | 0 <= i < |batch| ensures ThumbnailFor(thumbs, batch[i].id).Some? {
        assert batch[i] in batch;
      }
    } else {
      var v :| v in batch && ThumbnailKey(v.id) !in thumbs && DefaultThumbnail !in thumbs;
      var i :| 0 <= i < |batch| && batch[i] == v;
      assert ThumbnailFor(thumbs, batch[i].id).None?;
    }
  }

  /** A feed route of either handler: `int(headers['batch-index'])`, then `processVideos` on the rows. */
  function FeedResponse(rows: seq<Video>, batchHeader: string, thumbs: map<string, Bytes>): Result<Response>
  {
    match ParseInt(batchHeader)
    case None => Raised(ValueError)
    case Some(b) =>
      match FeedPage(rows, b, thumbs)
      case Ok(items) => Ok(Response(200, JsonFeed(items), map[]))
      case Raised(e) => Raised(e)
  }

  /** The tail of a feed route: `int(headers['batch-index'])`, `processVideos`, then the 200 response. */
  method ServeFeed(rows: seq<Video>, batchHeader: string, thumbs: map<string, Bytes>) returns (r: Result<Response>)
    ensures r == FeedResponse(rows, batchHeader, thumbs)
  {
    var batchIndex := ParseInt(batchHeader);
    if batchIndex.None? {
      return Raised(ValueError);
    }
    var page := ProcessVideos(rows, batchIndex.value, thumbs);
    if page.Raised? {
      return Raised(page.error);
    }
    return Ok(Response(200, JsonFeed(page.value), map[]));
  }

  /** With `obama.jpg` in the bucket a batch never fails, whatever thumbnails are missing. */
  lemma DefaultThumbnailMasksMissing(videos: seq<Video>, batchIndex: int, thumbs: map<string, Bytes>)
    requires DefaultThumbnail in thumbs
    ensures forall v :: v in Batch(videos, batchIndex) ==> ThumbnailFor(thumbs, v.id).Some?
    ensures forall id :: ThumbnailKey(id) !in thumbs ==> ThumbnailFor(thumbs, id) == Some(thumbs[DefaultThumbnail])
  {
  }

  /**
   * A batch holds at most 33 rows, newest first, each a row of the input;
   * for a non-negative index it is rows `[33 b, 33 b + 33)` of the sorted list.
   */
  lemma {:induction false} BatchShape(videos: seq<Video>, batchIndex: int)
    ensures |Batch(videos, batchIndex)| <= BatchSize
    ensures NewestFirst(Batch(videos, batchIndex))
    ensures forall v :: v in Batch(videos, batchIndex) ==> v in videos
    ensures batchIndex >= 0 ==>
              var sorted := SortNewestFirst(videos);
              Batch(videos, batchIndex) ==
                sorted[Min(batchIndex * BatchSize, |sorted|)..Min(batchIndex * BatchSize + BatchSize, |sorted|)]
  {
    var sorted := SortNewestFirst(videos);
    var lo := batchIndex * BatchSize;
    SliceWidth(sorted, lo, lo + BatchSize);
    var a, b := SliceBound(lo, |sorted|), SliceBound(lo + BatchSize, |sorted|);
    if a < b {
      NewestFirstRange(sorted, a, b);
      forall v | v in sorted[a..b] ensures v in videos {
        assert v in multiset(sorted);
      }
    }
    if batchIndex >= 0 {
      SliceNonNegative(sorted, lo, lo + BatchSize);
    }
  }

  /** A stretch of a newest-first list is newest first. */
  lemma NewestFirstRange(s: seq<Video>, a: nat, b: nat)
    requires NewestFirst(s) && a <= b <= |s|
    ensures NewestFirst(s[a..b])
  {
    var t := s[a..b];
    forall i, j | 0 <= i < j < |t| ensures t[i].timeOfCreation >= t[j].timeOfCreation {
      assert t[i] == s[a + i] && t[j] == s[a + j];
    }
  }

  /** Batch -1 is `[-33:0]`, which Python slices to nothing. */
  lemma WindowMinusOneIsEmpty<T>(s: seq<T>)
    ensures Window(s, -1) == []
  {
  }

  /** A batch that starts past the end is empty, not an error. */
  lemma WindowPastEnd<T>(s: seq<T>, batchIndex: int)
    requires batchIndex >= 0 && batchIndex * BatchSize >= |s|
    ensures Window(s, batchIndex) == []
  {
  }

  /** Batches 0..k laid end to end. */
  function Pages<T>(s: seq<T>, k: nat): seq<T>
  {
    if k == 0 then Window(s, 0) else Pages(s, k - 1) + Window(s, k)
  }

  /** Batches 0..k together are exactly the first 33(k+1) rows: no gap, no repeat. */
  lemma {:induction false} PagesArePrefix<T>(s: seq<T>, k: nat)
    ensures Pages(s, k) == s[..Min(BatchSize * (k + 1), |s|)]
  {
    SliceNonNegative(s, k * BatchSize, k * BatchSize + BatchSize);
    if k > 0 {
      PagesArePrefix(s, k - 1);
      var lo := Min(BatchSize * k, |s|);
      var hi := Min(BatchSize * (k + 1), |s|);
      assert s[..lo] + s[lo..hi] == s[..hi];
    }
  }

  /** The timestamps of a list of rows. */
  function Times(s: seq<Video>): seq<int>
  {
    seq(|s|, i requires 0 <= i < |s| => s[i].timeOfCreation)
  }

  /** Removing one row keeps a list newest first. */
  lemma RemoveKeepsNewestFirst(b: seq<Video>, j: nat)
    requires NewestFirst(b) && j < |b|
    ensures NewestFirst(b[..j] + b[j + 1..])
  {
    var rest := b[..j] + b[j + 1..];
    forall p, q | 0 <= p < q < |rest|
      ensures rest[p].timeOfCreation >= rest[q].timeOfCreation
    {
      var p' := if p < j then p else p + 1;
      var q' := if q < j then q else q + 1;
      assert rest[p] == b[p'] && rest[q] == b[q'];
    }
  }

  /** The head of a newest-first list is as new as any of its rows. */
  lemma HeadIsNewest(s: seq<Video>, x: Video)
    requires NewestFirst(s) && x in multiset(s)
    ensures s[0].timeOfCreation >= x.timeOfCreation
  {
    var i :| 0 <= i < |s| && s[i] == x;
    assert i == 0 || s[0].timeOfCreation >= s[i].timeOfCreation;
  }

  /** Putting back a removed row whose timestamp equals the head's restores the timestamp list. */
  lemma TimesReinsert(a: seq<Video>, b: seq<Video>, j: nat)
    requires NewestFirst(b) && j < |b| && |a| == |b|
    requires a[0].timeOfCreation == b[0].timeOfCreation == b[j].timeOfCreation
    requires Times(a[1..]) == Times(b[..j] + b[j + 1..])
    ensures Times(a) == Times(b)
  {
    var rest := b[..j] + b[j + 1..];
    var ta, tb, tr := Times(a), Times(b), Times(rest);
    forall k | 1 <= k < |b|
      ensures ta[k] == tb[k]
    {
      assert ta[k] == Times(a[1..])[k - 1] == tr[k - 1];
      if k <= j {
        assert b[0].timeOfCreation >= b[k - 1].timeOfCreation >= b[k].timeOfCreation >= b[j].timeOfCreation;
        assert rest[k - 1] == b[k - 1];
      } else {
        assert rest[k - 1] == b[k];
      }
    }
  }

  lemma SameRowsAfterRemoval(a: seq<Video>, b: seq<Video>, j: nat)
    requires multiset(a) == multiset(b) && a != [] && j < |b| && b[j] == a[0]
    ensures multiset(b[..j] + b[j + 1..]) == multiset(a[1..])
  {
    var x := a[0];
    var left, right := b[..j], b[j + 1..];
    assert b == left + [x] + right;
    assert a == [x] + a[1..];
    assert multiset(b) == multiset(left + right) + multiset{x};
    assert multiset(a) == multiset(a[1..]) + multiset{x};
    var m, t := multiset(left + right), multiset(a[1..]);
    assert m + multiset{x} == t + multiset{x};
    assert m == (m + multiset{x}) - multiset{x};
    assert t == (t + multiset{x}) - multiset{x};
  }

  /**
   * Two newest-first orderings of the same rows agree on every position's
   * timestamp: they differ at most by the order of rows created at the same time.
   */
  lemma {:induction false} NewestFirstTimesUnique(a: seq<Video>, b: seq<Video>)
    requires NewestFirst(a) && NewestFirst(b)
    requires multiset(a) == multiset(b)
    ensures Times(a) == Times(b)
    decreases |a|
  {
    assert |a| == |multiset(a)| == |multiset(b)| == |b|;
    if a != [] {
      assert a[0] in multiset(a);
      var j :| 0 <= j < |b| && b[j] == a[0];
      assert b[0] in multiset(b);
      HeadIsNewest(a, b[0]);
      HeadIsNewest(b, a[0]);
      var rest := b[..j] + b[j + 1..];
      SameRowsAfterRemoval(a, b, j);
      assert NewestFirst(a[1..]);
      RemoveKeepsNewestFirst(b, j);
      NewestFirstTimesUnique(a[1..], rest);
      TimesReinsert(a, b, j);
    }
  }

  /**
   * A batch's timestamps depend only on which rows were collected, not on
   * the order they were collected in.
   */
  lemma BatchTimesIgnoreInputOrder(x: seq<Video>, y: seq<Video>, batchIndex: int)
    requires multiset(x) == multiset(y)
    ensures Times(Batch(x, batchIndex)) == Times(Batch(y, batchIndex))
  {
    var sx, sy := SortNewestFirst(x), SortNewestFirst(y);
    NewestFirstTimesUnique(sx, sy);
    assert |sx| == |sy| by {
      assert |multiset(sx)| == |multiset(sy)|;
    }
    var lo, hi := batchIndex * BatchSize, batchIndex * BatchSize + BatchSize;
    var a, b := SliceBound(lo, |sx|), SliceBound(hi, |sx|);
    if a < b {
      assert Batch(x, batchIndex) == sx[a..b] && Batch(y, batchIndex) == sy[a..b];
      TimesRange(sx, a, b);
      TimesRange(sy, a, b);
    } else {
      assert Batch(x, batchIndex) == [] && Batch(y, batchIndex) == [];
    }
  }

  /** The timestamps of a stretch of rows are that stretch of the timestamps. */
  lemma TimesRange(s: seq<Video>, a: nat, b: nat)
    requires a <= b <= |s|
    ensures Times(s[a..b]) == Times(s)[a..b]
  {
  }
}
