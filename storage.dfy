/**
 * In-memory stand-ins for the two DynamoDB tables (`dothethingvideos-metadata`,
 * `dothething-accounts`) and for S3 buckets. A table is a sequence of rows in
 * store order; a query returns the matching rows in that order.
 */
module Storage {
  import opened Records

  const VideosBucketName := "dothethingvideos"
  const ThumbnailBucketName := "dothethingthumbnails"
  /** The object served when a video has no thumbnail of its own. */
  const DefaultThumbnail := "obama.jpg"

  /** The name under which a video's thumbnail is stored in `dothethingthumbnails`. */
  function ThumbnailKey(objectKey: string): string
  {
    objectKey + ".jpg"
  }

  /** The elements of `s` that satisfy `p`, in their order in `s`. */
  function Filter<T>(s: seq<T>, p: T -> bool): (r: seq<T>)
    ensures |r| <= |s|
    ensures forall i :: 0 <= i < |r| ==> r[i] in s && p(r[i])
    ensures forall i :: 0 <= i < |s| && p(s[i]) ==> s[i] in r
  {
    if s == [] then []
    else
      assert s == [s[0]] + s[1..];
      (if p(s[0]) then [s[0]] else []) + Filter(s[1..], p)
  }

  /** Filtering a concatenation filters each part. */
  lemma {:induction false} FilterConcat<T>(a: seq<T>, b: seq<T>, p: T -> bool)
    ensures Filter(a + b, p) == Filter(a, p) + Filter(b, p)
  {
    if a != [] {
      FilterConcat(a[1..], b, p);
      assert (a + b)[1..] == a[1..] + b;
    } else {
      assert a + b == b;
    }
  }

  /** Rows the filter keeps are all unchanged, and no row changes whether it is kept: the filter gives the same rows. */
  lemma {:induction false} FilterSameKept<T>(a: seq<T>, b: seq<T>, p: T -> bool)
    requires |a| == |b|
    requires forall i :: 0 <= i < |a| ==> p(a[i]) == p(b[i])
    requires forall i :: 0 <= i < |a| && p(a[i]) ==> a[i] == b[i]
    ensures Filter(a, p) == Filter(b, p)
  {
    if a != [] {
      assert p(a[0]) == p(b[0]);
      FilterSameKept(a[1..], b[1..], p);
    }
  }

  /** `videos_table.query(KeyConditionExpression=Key('code').eq(code))['Items']`. */
  function WithCode(items: seq<Video>, code: string): seq<Video>
  {
    Filter(items, (v: Video) => v.code == code)
  }

  /** A query on `accountId-index`: the rows uploaded by `accountId`. */
  function OwnedBy(items: seq<Video>, accountId: string): seq<Video>
  {
    Filter(items, (v: Video) => v.accountId == accountId)
  }

  /** A query on `sessionId-index`: the accounts whose current session is `sessionId`. */
  function WithSession(accounts: seq<Account>, sessionId: string): seq<Account>
  {
    Filter(accounts, (a: Account) => a.sessionId == Some(sessionId))
  }

  /**
   * `response['Items'][0]['id']` after the `sessionId-index` query: the first
   * account holding the session, or nothing when no account holds it.
   */
  function SessionAccount(accounts: seq<Account>, sessionId: string): (r: Option<string>)
    ensures r.None? <==> forall a :: a in accounts ==> a.sessionId != Some(sessionId)
    ensures r.Some? ==> exists a :: a in accounts && a.sessionId == Some(sessionId) && a.id == r.value
  {
    var matches := WithSession(accounts, sessionId);
    if matches == [] then
      assert forall a :: a in accounts ==> a.sessionId != Some(sessionId) by {
        forall a | a in accounts ensures a.sessionId != Some(sessionId) {
          var i :| 0 <= i < |accounts| && accounts[i] == a;
        }
      }
      None
    else Some(matches[0].id)
  }

  /** `accounts_table.query(KeyConditionExpression=Key('id').eq(id))['Items']`. */
  function WithId(accounts: seq<Account>, id: string): seq<Account>
  {
    Filter(accounts, (a: Account) => a.id == id)
  }

  /** The primary key of the videos table is taken to be (`code`, `id`). */
  predicate SameKey(a: Video, b: Video)
  {
    a.code == b.code && a.id == b.id
  }

  predicate UniqueKeys(items: seq<Video>)
  {
    forall i, j :: 0 <= i < j < |items| ==> !SameKey(items[i], items[j])
  }

  /**
   * `videos_table.put_item(Item=v)`: the row with `v`'s key is replaced by `v`
   * where it stands; without one, `v` is added at the end.
   */
  function Put(items: seq<Video>, v: Video): (r: seq<Video>)
    ensures v in r
    ensures forall w :: w in items && !SameKey(w, v) ==> w in r
    ensures forall w :: w in r && w != v ==> w in items
  {
    if items == [] then [v]
    else if SameKey(items[0], v) then [v] + items[1..]
    else [items[0]] + Put(items[1..], v)
  }

  /**
   * On a table whose keys are unique, a put leaves them unique, and the row
   * it wrote is the only one under its key.
   */
  lemma {:induction false} PutKeepsKeysUnique(items: seq<Video>, v: Video)
    requires UniqueKeys(items)
    ensures UniqueKeys(Put(items, v))
    ensures forall w :: w in Put(items, v) && SameKey(w, v) ==> w == v
  {
    if items == [] {
    } else if SameKey(items[0], v) {
      ReplaceHeadKeepsKeysUnique(items, v);
    } else {
      var tail := items[1..];
      assert UniqueKeys(tail) by {
        forall i, j | 0 <= i < j < |tail| ensures !SameKey(tail[i], tail[j]) {
          assert tail[i] == items[i + 1] && tail[j] == items[j + 1];
        }
      }
      PutKeepsKeysUnique(tail, v);
      var rest := Put(tail, v);
      forall j | 0 <= j < |rest|
        ensures !SameKey(items[0], rest[j])
      {
        assert rest[j] in rest;
        if rest[j] != v {
          var k :| 0 <= k < |tail| && tail[k] == rest[j];
          assert tail[k] == items[k + 1];
        }
      }
      ConsKeepsKeysUnique(items[0], rest);
      assert Put(items, v) == [items[0]] + rest;
    }
  }

  /** Replacing the head of a table with a row under the head's key keeps keys unique. */
  lemma ReplaceHeadKeepsKeysUnique(items: seq<Video>, v: Video)
    requires UniqueKeys(items) && items != [] && SameKey(items[0], v)
    ensures UniqueKeys([v] + items[1..])
    ensures forall w :: w in [v] + items[1..] && SameKey(w, v) ==> w == v
  {
    var r := [v] + items[1..];
    assert forall k :: 0 < k < |r| ==> r[k] == items[k];
    forall i, j | 0 <= i < j < |r| ensures !SameKey(r[i], r[j]) {
      assert !SameKey(items[i], items[j]);
    }
    forall k | 0 < k < |r| ensures !SameKey(r[k], v) {
      assert !SameKey(items[0], items[k]);
    }
  }

  /** A row whose key no row of a unique-keyed table has can go in front of it. */
  lemma ConsKeepsKeysUnique(x: Video, rest: seq<Video>)
    requires UniqueKeys(rest)
    requires forall j :: 0 <= j < |rest| ==> !SameKey(x, rest[j])
    ensures UniqueKeys([x] + rest)
  {
    var r := [x] + rest;
    forall i, j | 0 <= i < j < |r| ensures !SameKey(r[i], r[j]) {
      assert r[j] == rest[j - 1];
      if i > 0 {
        assert r[i] == rest[i - 1];
      }
    }
  }

  /** A put grows the table by one row exactly when no row has its key. */
  lemma {:induction false} PutSize(items: seq<Video>, v: Video)
    ensures |Put(items, v)| == if exists w :: w in items && SameKey(w, v) then |items| else |items| + 1
  {
    if items != [] {
      if SameKey(items[0], v) {
        assert items[0] in items;
      } else {
        PutSize(items[1..], v);
        assert forall w :: w in items && SameKey(w, v) ==> w in items[1..] by {
          assert items == [items[0]] + items[1..];
        }
        assert forall w :: w in items[1..] ==> w in items;
      }
    }
  }

  /**
   * `accounts_table.update_item(Key={'id': id}, UpdateExpression="set interactions = :interactions")`:
   * every row with that `id` gets the new count; with none, DynamoDB creates
   * a row holding only `id` and `interactions`.
   */
  function SetInteractions(accounts: seq<Account>, id: string, n: int): seq<Account>
  {
    if WithId(accounts, id) == [] then accounts + [Account(id, None, Some(n))]
    else seq(|accounts|, i requires 0 <= i < |accounts| =>
               if accounts[i].id == id then accounts[i].(interactions := Some(n)) else accounts[i])
  }

  /** The rows of `dothethingvideos-metadata`. */
  class VideosTable {
    var items: seq<Video>

    method PutItem(v: Video)
      modifies this
      ensures items == Put(old(items), v)
    {
      items := Put(items, v);
    }
  }

  /** The rows of `dothething-accounts`. */
  class AccountsTable {
    var items: seq<Account>

    method UpdateInteractions(id: string, n: int)
      modifies this
      ensures items == SetInteractions(old(items), id, n)
    {
      items := SetInteractions(items, id, n);
    }
  }

  /** An S3 bucket: object keys to contents. */
  class Bucket {
    const name: string
    var objects: map<string, Bytes>

    method UploadFile(key: string, data: Bytes)
      modifies this
      ensures objects == old(objects)[key := data]
    {
      objects := objects[key := data];
    }
  }
}
