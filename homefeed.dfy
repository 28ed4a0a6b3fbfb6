/**
 * homefeed-handler: the feed of an account is every video filed under any
 * code the account has uploaded to, its own and other accounts' alike. Each
 * feed request records the size of that collection as the account's
 * `interactions`, then returns one batch of 33; a second route reads the
 * stored count back.
 */
module Homefeed {
  import opened Records
  import opened PyBuiltins
  import opened Storage
  import opened Feed
  import opened Http

  const InvalidCredentials := "Invalid credentials."
  const InvalidRequest := "Invalid request."

  /** The codes under which `accountId` has uploaded at least one video. */
  function CodesOf(items: seq<Video>, accountId: string): set<string>
  {
    set v | v in items && v.accountId == accountId :: v.code
  }

  /** `getCodesForAccount(account_id)`: a set filled from the `accountId-index` query. */
  method GetCodesForAccount(videos: VideosTable, accountId: string) returns (codes: set<string>)
    ensures forall c :: c in codes <==> exists v :: v in videos.items && v.accountId == accountId && v.code == c
    ensures codes == CodesOf(videos.items, accountId)
  {
    var rows := OwnedBy(videos.items, accountId);
    codes := {};
    for i := 0 to |rows|
      invariant codes == set k | 0 <= k < i :: rows[k].code
    {
      codes := codes + {rows[i].code};
    }
    assert forall c :: c in codes <==> exists k :: 0 <= k < |rows| && rows[k].code == c;
    forall c | c in CodesOf(videos.items, accountId)
      ensures c in codes
    {
      var v :| v in videos.items && v.accountId == accountId && v.code == c;
      assert v in rows;
      var k :| 0 <= k < |rows| && rows[k] == v;
    }
  }

  /** The rows filed under any of `codes`, in store order. */
  function RowsWithCodeIn(items: seq<Video>, codes: set<string>): seq<Video>
  {
    Filter(items, (v: Video) => v.code in codes)
  }

  /**
   * The feed collects every row filed under one of the codes, whoever owns
   * it, and nothing else; any order of the same rows has the same members.
   */
  lemma CollectedMembers(all: seq<Video>, items: seq<Video>, codes: set<string>)
    requires multiset(all) == multiset(RowsWithCodeIn(items, codes))
    ensures forall v :: v in all <==> v in items && v.code in codes
  {
    forall v ensures v in all <==> v in items && v.code in codes {
      assert v in all <==> v in multiset(all);
      assert v in RowsWithCodeIn(items, codes) <==> v in multiset(RowsWithCodeIn(items, codes));
    }
  }

  /** Adding one more code to the set adds exactly the rows under that code. */
  lemma {:induction false} RowsWithOneMoreCode(items: seq<Video>, done: set<string>, code: string)
    requires code !in done
    ensures multiset(RowsWithCodeIn(items, done + {code})) ==
            multiset(RowsWithCodeIn(items, done)) + multiset(WithCode(items, code))
  {
    if items != [] {
      var x, rest := items[0], items[1..];
      RowsWithOneMoreCode(rest, done, code);
      assert RowsWithCodeIn(items, done + {code}) ==
             (if x.code in done + {code} then [x] else []) + RowsWithCodeIn(rest, done + {code});
      assert RowsWithCodeIn(items, done) == (if x.code in done then [x] else []) + RowsWithCodeIn(rest, done);
      assert WithCode(items, code) == (if x.code == code then [x] else []) + WithCode(rest, code);
    }
  }

  /** One step of the collecting loop: extending by one more code's rows. */
  lemma ExtendByCode(all: seq<Video>, items: seq<Video>, done: set<string>, code: string)
    requires code !in done
    requires multiset(all) == multiset(RowsWithCodeIn(items, done))
    ensures multiset(all + WithCode(items, code)) == multiset(RowsWithCodeIn(items, done + {code}))
  {
    RowsWithOneMoreCode(items, done, code);
  }

  /**
   * The loop `for code in codes: all_videos.extend(getVideosForCode(code))`.
   * `set` iteration order is unspecified, so the next code is any one not
   * yet visited; whichever order is taken, every row under one of the codes
   * is collected exactly once.
   */
  method CollectVideos(videos: VideosTable, codes: set<string>) returns (all: seq<Video>)
    ensures multiset(all) == multiset(RowsWithCodeIn(videos.items, codes))
    ensures |all| == |RowsWithCodeIn(videos.items, codes)|
  {
    var items := videos.items;
    all := [];
    var remaining := codes;
    ghost var done: set<string> := {};
    while remaining != {}
      invariant remaining + done == codes && remaining !! done
      invariant multiset(all) == multiset(RowsWithCodeIn(items, done))
      decreases |remaining|
    {
      var code :| code in remaining;
      var rows := WithCode(items, code);
      ExtendByCode(all, items, done, code);
      all := all + rows;
      done := done + {code};
      remaining := remaining - {code};
    }
    assert done == codes;
    assert |multiset(all)| == |multiset(RowsWithCodeIn(items, codes))|;
  }

  /** `getInteractions(account_id)`: `response["Items"][0]["interactions"]` of the query on `id`. */
  function InteractionsOf(accounts: seq<Account>, id: string): (r: Result<int>)
    ensures r.Raised? && r.error == IndexError <==> forall a :: a in accounts ==> a.id != id
    ensures r.Ok? ==> exists a :: a in accounts && a.id == id && a.interactions == Some(r.value)
    ensures ((exists a :: a in accounts && a.id == id) &&
             (forall a :: a in accounts && a.id == id ==> a.interactions.Some?)) ==> r.Ok?
    ensures r.Raised? && r.error != IndexError ==>
              r.error == KeyError("interactions") && exists a :: a in accounts && a.id == id && a.interactions.None?
  {
    var rows := WithId(accounts, id);
    if rows == [] then Raised(IndexError)
    else if rows[0].interactions.None? then Raised(KeyError("interactions"))
    else Ok(rows[0].interactions.value)
  }

  /** After `setInteractions(id, n)`, `getInteractions(id)` reads `n` back. */
  lemma SetThenGetInteractions(accounts: seq<Account>, id: string, n: int)
    ensures InteractionsOf(SetInteractions(accounts, id, n), id) == Ok(n)
  {
    var after := SetInteractions(accounts, id, n);
    var rows := WithId(after, id);
    if WithId(accounts, id) == [] {
      assert after[|accounts|] == Account(id, None, Some(n));
      assert after[|accounts|] in rows;
      assert rows[0] in after;
    } else {
      var a := WithId(accounts, id)[0];
      var i :| 0 <= i < |accounts| && accounts[i] == a;
      assert after[i] in rows;
      assert rows[0] in after;
    }
  }

  /**
   * `setInteractions` touches only the `interactions` of rows with that `id`:
   * every row keeps its `id` and `sessionId`, rows of other accounts are
   * unchanged, and a row is added only when no row has the `id`.
   */
  lemma SetInteractionsFrame(accounts: seq<Account>, id: string, n: int)
    ensures var after := SetInteractions(accounts, id, n);
            |after| == if exists a :: a in accounts && a.id == id then |accounts| else |accounts| + 1
    ensures var after := SetInteractions(accounts, id, n);
            forall i :: 0 <= i < |accounts| ==>
              after[i].id == accounts[i].id && after[i].sessionId == accounts[i].sessionId &&
              (accounts[i].id != id ==> after[i] == accounts[i]) &&
              (accounts[i].id == id ==> after[i].interactions == Some(n))
    ensures var after := SetInteractions(accounts, id, n);
            |after| > |accounts| ==> after[|accounts|] == Account(id, None, Some(n))
  {
    if exists a :: a in accounts && a.id == id {
      var a :| a in accounts && a.id == id;
      var i :| 0 <= i < |accounts| && accounts[i] == a;
      assert a in WithId(accounts, id);
    } else {
      var w := WithId(accounts, id);
      assert |w| > 0 ==> w[0] in accounts && w[0].id == id;
      assert |w| == 0;
    }
  }

  /** `SessionAccount` looks at the rows one at a time, first to last. */
  lemma SessionAccountCons(a: seq<Account>, sessionId: string)
    requires a != []
    ensures SessionAccount(a, sessionId) ==
            if a[0].sessionId == Some(sessionId) then Some(a[0].id) else SessionAccount(a[1..], sessionId)
  {
    assert a == [a[0]] + a[1..];
  }

  /** The first account holding a session is the same before and after a rewrite that keeps every `id` and `sessionId`. */
  lemma {:induction false} SessionAccountSameKeys(a: seq<Account>, b: seq<Account>, sessionId: string)
    requires |a| <= |b|
    requires forall i :: 0 <= i < |a| ==> a[i].id == b[i].id && a[i].sessionId == b[i].sessionId
    requires forall i :: |a| <= i < |b| ==> b[i].sessionId != Some(sessionId)
    ensures SessionAccount(a, sessionId) == SessionAccount(b, sessionId)
  {
    if a == [] {
      forall x | x in b ensures x.sessionId != Some(sessionId) {
        var i :| 0 <= i < |b| && b[i] == x;
      }
    } else {
      SessionAccountSameKeys(a[1..], b[1..], sessionId);
      SessionAccountCons(a, sessionId);
      SessionAccountCons(b, sessionId);
    }
  }

  /** Recording interactions never changes which account a session resolves to. */
  lemma SetInteractionsKeepsSessions(accounts: seq<Account>, id: string, n: int, sessionId: string)
    ensures SessionAccount(SetInteractions(accounts, id, n), sessionId) == SessionAccount(accounts, sessionId)
  {
    SetInteractionsFrame(accounts, id, n);
    SessionAccountSameKeys(accounts, SetInteractions(accounts, id, n), sessionId);
  }

  /** Recording one account's interactions leaves every other account's count as it was. */
  lemma SetInteractionsKeepsOtherCounts(accounts: seq<Account>, id: string, n: int, other: string)
    requires other != id
    ensures InteractionsOf(SetInteractions(accounts, id, n), other) == InteractionsOf(accounts, other)
  {
    var after := SetInteractions(accounts, id, n);
    SetInteractionsFrame(accounts, id, n);
    var p := (a: Account) => a.id == other;
    if |after| == |accounts| {
      FilterSameKept(accounts, after, p);
    } else {
      assert after == accounts + [after[|accounts|]];
      FilterConcat(accounts, [after[|accounts|]], p);
      assert Filter([after[|accounts|]], p) == [];
    }
  }

  datatype Route = HeadersMissing | BadCredentials | Feed | Interactions | Unmatched

  /** The headers a route reads. */
  function Needs(route: Route): set<string>
  {
    match route
    case Feed => {"session-id", "batch-index"}
    case Interactions => {"session-id"}
    case _ => {}
  }

  /** The request is a `GET` with every header the route reads. */
  predicate Matches(req: Request, route: Route)
  {
    Fits(req, "GET", Needs(route))
  }

  /**
   * The branch a request takes: the headers and password first, then the
   * feed, then interactions; anything else falls through to the 400.
   */
  function RouteOf(req: Request): (route: Route)
    ensures route == HeadersMissing <==> req.headers.None?
    ensures route == BadCredentials <==> req.headers.Some? && !HasPassword(req.headers.value)
    ensures route in {Feed, Interactions} ==> IsMethod(req, "GET") && Has(req, "session-id")
    ensures route == Feed ==> Has(req, "batch-index")
    ensures route == Feed <==> Admitted(req) && Matches(req, Feed)
    ensures route == Interactions <==> Admitted(req) && !Matches(req, Feed) && Matches(req, Interactions)
    ensures route == Unmatched <==> Admitted(req) && !(IsMethod(req, "GET") && Has(req, "session-id"))
  {
    if req.headers.None? then HeadersMissing
    else if !HasPassword(req.headers.value) then BadCredentials
    else if IsMethod(req, "GET") && Has(req, "session-id") && Has(req, "batch-index") then Feed
    else if IsMethod(req, "GET") && Has(req, "session-id") then Interactions
    else Unmatched
  }

  /** The interactions count the feed route records: every row under the account's codes. */
  function FeedSize(items: seq<Video>, accountId: string): nat
  {
    |RowsWithCodeIn(items, CodesOf(items, accountId))|
  }

  /** `all_videos` as the loop leaves it: the rows under the codes, in one of the orders the set allows. */
  predicate Collected(all: seq<Video>, items: seq<Video>, codes: set<string>)
  {
    multiset(all) == multiset(RowsWithCodeIn(items, codes))
  }

  /**
   * `lambda_handler(event, context)`. On the feed route the count is written
   * before the batch index is parsed, so a bad index still updates the
   * account; a session that matches no account raises before anything is
   * written.
   */
  method Handle(req: Request, accounts: AccountsTable, videos: VideosTable, thumbnails: Bucket)
    returns (r: Result<Response>)
    modifies accounts
    ensures RouteOf(req) != Feed ==> accounts.items == old(accounts.items)
    ensures req.headers.None? ==> r == Raised(TypeError)
    ensures RouteOf(req) == BadCredentials ==> r == Ok(Response(401, JsonText(InvalidCredentials), map[]))
    ensures RouteOf(req) in {Feed, Interactions} && SessionAccount(old(accounts.items), Header(req, "session-id")).None? ==>
              r == Raised(IndexError) && accounts.items == old(accounts.items)
    ensures RouteOf(req) == Feed && SessionAccount(old(accounts.items), Header(req, "session-id")).Some? ==>
              var accountId := SessionAccount(old(accounts.items), Header(req, "session-id")).value;
              accounts.items == SetInteractions(old(accounts.items), accountId, FeedSize(videos.items, accountId)) &&
              exists all :: Collected(all, videos.items, CodesOf(videos.items, accountId)) &&
                            r == FeedResponse(all, Header(req, "batch-index"), thumbnails.objects)
    ensures RouteOf(req) == Interactions && SessionAccount(old(accounts.items), Header(req, "session-id")).Some? ==>
              var accountId := SessionAccount(old(accounts.items), Header(req, "session-id")).value;
              r == match InteractionsOf(old(accounts.items), accountId)
                   case Ok(n) => Ok(Response(200, JsonText(DecimalText(n)), map[]))
                   case Raised(e) => Raised(e)
    ensures RouteOf(req) == Unmatched ==> r == Ok(Response(400, JsonText(InvalidRequest), map[]))
  {
    match RouteOf(req) {
      case HeadersMissing =>
        return Raised(TypeError);
      case BadCredentials =>
        return Ok(Response(401, JsonText(InvalidCredentials), map[]));
      case Feed =>
        var accountId := SessionAccount(accounts.items, Header(req, "session-id"));
        if accountId.None? {
          return Raised(IndexError);
        }
        var codes := GetCodesForAccount(videos, accountId.value);
        var all := CollectVideos(videos, codes);
        assert Collected(all, videos.items, CodesOf(videos.items, accountId.value));
        accounts.UpdateInteractions(accountId.value, |all|);
        r := ServeFeed(all, Header(req, "batch-index"), thumbnails.objects);
      case Interactions =>
        var accountId := SessionAccount(accounts.items, Header(req, "session-id"));
        if accountId.None? {
          return Raised(IndexError);
        }
        var count := InteractionsOf(accounts.items, accountId.value);
        if count.Raised? {
          return Raised(count.error);
        }
        return Ok(Response(200, JsonText(DecimalText(count.value)), map[]));
      case Unmatched =>
        return Ok(Response(400, JsonText(InvalidRequest), map[]));
    }
  }
}
