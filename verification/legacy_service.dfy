/** The older `TwitterService` of `services/twitter_service.go`: one
    request, no retry, and no join with the included users, so authors
    carry only their id. It declares the same type name as
    `services/twitter.go` in the same package; here it lives in its own
    module. */
module LegacyService {
  import opened Wrappers
  import opened Models
  import opened Upstream
  import Normalize
  import Retry
  import DateFilter

  /** The page built from a decoded body: one bookmark per tweet, in
      upstream order, with an id-only author. */
  function IdOnlyBookmarks(p: Page): (r: BookmarkResponse)
    ensures r.bookmarks.Slice?
    ensures r.nextToken == p.nextToken
    ensures |r.bookmarks.items| == |p.data|
    ensures forall i :: 0 <= i < |p.data| ==>
              Normalize.CopiesTweet(r.bookmarks.items[i], p.data[i])
              && r.bookmarks.items[i].author.username == ""
              && r.bookmarks.items[i].author.name == ""
  {
    BookmarkResponse(
      Slice(seq(|p.data|, i requires 0 <= i < |p.data| =>
        var t := p.data[i];
        Bookmark(t.id, t.id, t.text, t.createdAt, Author(t.authorId, "", "")))),
      p.nextToken)
  }

  /** One page from one transport outcome: any error or non-200 status,
      429 included, fails at once. */
  function GetBookmarks(o: Outcome): (r: Result<BookmarkResponse, FetchError>)
    ensures o.NetErr? ==> r == Failure(RequestFailed)
    ensures o.Response? && o.status != StatusOK ==> r == Failure(ApiStatus(o.status))
    ensures o.Response? && o.status == StatusOK && o.body.Malformed? ==> r == Failure(DecodeFailed)
    ensures r.Success? <==> o.Response? && o.status == StatusOK && o.body.Decoded?
    ensures r.Success? ==> r.value == IdOnlyBookmarks(o.body.page)
  {
    match o
    case NetErr => Failure(RequestFailed)
    case Response(status, body) =>
      if status != StatusOK then Failure(ApiStatus(status))
      else match body
        case Malformed => Failure(DecodeFailed)
        case Decoded(p) => Success(IdOnlyBookmarks(p))
  }

  /** `GetBookmarksAfterDate` of this variant: the single fetch, then the
      shared filter. A fetch error comes back unchanged, with no page. */
  function GetBookmarksAfterDate(o: Outcome, after: Time): (r: Result<BookmarkResponse, FetchError>)
    ensures r.Failure? <==> GetBookmarks(o).Failure?
    ensures r.Failure? ==> r.error == GetBookmarks(o).error
    ensures r.Success? ==>
              r.value.nextToken == o.body.page.nextToken
              && forall b :: b in r.value.bookmarks.Elems() <==>
                   b in IdOnlyBookmarks(o.body.page).bookmarks.Elems() && DateFilter.CreatedAfter(b, after)
    ensures r.Success? ==> r.value == DateFilter.FilterAfter(IdOnlyBookmarks(o.body.page), after)
  {
    DateFilter.FilterFetched(GetBookmarks(o), after)
  }

  /** The two normalisers agree on everything but the author's username
      and name, which only the newer one fills in. */
  lemma AgreesWithJoinedNormaliser(p: Page)
    ensures var legacy := IdOnlyBookmarks(p).bookmarks.items;
            var joined := Normalize.ParseBookmarks(p).bookmarks.items;
            |legacy| == |joined|
            && IdOnlyBookmarks(p).nextToken == Normalize.ParseBookmarks(p).nextToken
            && forall i :: 0 <= i < |legacy| ==>
                 legacy[i].id == joined[i].id && legacy[i].tweetId == joined[i].tweetId
                 && legacy[i].text == joined[i].text && legacy[i].createdAt == joined[i].createdAt
                 && legacy[i].author.id == joined[i].author.id
  {
  }

  /** When no tweet's author is among the included users, the two
      normalisers build the same page. */
  lemma SameWithoutIncludedAuthors(p: Page)
    requires forall i, j :: 0 <= i < |p.data| && 0 <= j < |p.users| ==> p.users[j].id != p.data[i].authorId
    ensures IdOnlyBookmarks(p) == Normalize.ParseBookmarks(p)
  {
    var a := IdOnlyBookmarks(p).bookmarks.items;
    var b := Normalize.ParseBookmarks(p).bookmarks.items;
    assert forall i :: 0 <= i < |a| ==> a[i] == b[i];
  }

  /** On a first outcome that the newer service does not retry, both
      services issue one request and fail with the same error, or both
      succeed. Only a transport error or 429 sets them apart. */
  lemma SingleAttemptMatchesRetryOnSettled(outcomes: seq<Outcome>)
    requires |outcomes| >= Retry.MaxRetries && !Retry.Transient(outcomes[0])
    ensures Retry.GetBookmarks(outcomes).trace.attempts == 1
    ensures GetBookmarks(outcomes[0]).Failure? <==> Retry.GetBookmarks(outcomes).result.Failure?
    ensures GetBookmarks(outcomes[0]).Failure? ==> GetBookmarks(outcomes[0]).error == Retry.GetBookmarks(outcomes).result.error
  {
    Retry.StopsAtFirstSettled(outcomes, 0);
  }

  /** A 429 ends the older service's call, where the newer one retries. */
  lemma RateLimitNotRetried(b: Body)
    ensures GetBookmarks(Response(StatusTooManyRequests, b)) == Failure(ApiStatus(429))
  {
  }
}
