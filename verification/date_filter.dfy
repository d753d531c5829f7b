/** The "created after" filter of `GetBookmarksAfterDate`, written the same
    way in `services/twitter.go` and `services/twitter_service.go`. */
module DateFilter {
  import opened Wrappers
  import opened Models
  import opened Upstream
  import Seqs
  import Retry

  /** `CreatedAt.After(after)`: strictly later. */
  predicate CreatedAfter(b: Bookmark, after: Time)
  {
    b.createdAt > after
  }

  /** The filter's test as a value, one term for every use of it. */
  function KeepIfAfter(after: Time): Bookmark -> bool
  {
    b => CreatedAfter(b, after)
  }

  /** The page restricted to bookmarks created strictly after `after`.
      The kept bookmarks are appended one by one to a nil slice, so a page
      where nothing is kept carries a nil slice; the cursor is untouched. */
  function FilterAfter(page: BookmarkResponse, after: Time): (r: BookmarkResponse)
    ensures r.nextToken == page.nextToken
    ensures Seqs.IsSubsequence(r.bookmarks.Elems(), page.bookmarks.Elems())
    ensures forall b :: b in r.bookmarks.Elems() <==> b in page.bookmarks.Elems() && CreatedAfter(b, after)
    ensures forall b :: multiset(r.bookmarks.Elems())[b] ==
              if CreatedAfter(b, after) then multiset(page.bookmarks.Elems())[b] else 0
    ensures r.bookmarks.NilSlice? <==> forall b :: b in page.bookmarks.Elems() ==> !CreatedAfter(b, after)
  {
    var kept := Seqs.Filter(page.bookmarks.Elems(), KeepIfAfter(after));
    assert |kept| == 0 <== forall b :: b in page.bookmarks.Elems() ==> !CreatedAfter(b, after) by {
      if |kept| > 0 {
        assert kept[0] in kept;
      }
    }
    assert AppendAll(NilSlice, kept).Elems() == kept;
    BookmarkResponse(AppendAll(NilSlice, kept), page.nextToken)
  }

  /** Filtering an already filtered page by the same instant changes nothing. */
  lemma FilterAfterIdempotent(page: BookmarkResponse, after: Time)
    ensures FilterAfter(FilterAfter(page, after), after) == FilterAfter(page, after)
  {
    var kept := Seqs.Filter(page.bookmarks.Elems(), KeepIfAfter(after));
    assert FilterAfter(page, after).bookmarks.Elems() == kept;
    Seqs.FilterIdempotent(page.bookmarks.Elems(), KeepIfAfter(after));
  }

  /** A later threshold filters a filtered page as it filters the original. */
  lemma FilterAfterLaterThreshold(page: BookmarkResponse, t1: Time, t2: Time)
    requires t1 <= t2
    ensures FilterAfter(FilterAfter(page, t1), t2) == FilterAfter(page, t2)
  {
    var e := page.bookmarks.Elems();
    var kept := Seqs.Filter(e, KeepIfAfter(t1));
    assert FilterAfter(page, t1).bookmarks.Elems() == kept;
    assert forall x :: KeepIfAfter(t2)(x) ==> KeepIfAfter(t1)(x);
    Seqs.FilterStronger(e, KeepIfAfter(t1), KeepIfAfter(t2));
  }

  /** Order is preserved: the filter of two runs of bookmarks is the filter
      of the first followed by the filter of the second. */
  lemma FilterAfterSplits(a: seq<Bookmark>, b: seq<Bookmark>, token: string, after: Time)
    ensures FilterAfter(BookmarkResponse(Slice(a + b), token), after).bookmarks.Elems()
         == FilterAfter(BookmarkResponse(Slice(a), token), after).bookmarks.Elems()
          + FilterAfter(BookmarkResponse(Slice(b), token), after).bookmarks.Elems()
  {
    var p := KeepIfAfter(after);
    assert FilterAfter(BookmarkResponse(Slice(a + b), token), after).bookmarks.Elems() == Seqs.Filter(a + b, p);
    assert FilterAfter(BookmarkResponse(Slice(a), token), after).bookmarks.Elems() == Seqs.Filter(a, p);
    assert FilterAfter(BookmarkResponse(Slice(b), token), after).bookmarks.Elems() == Seqs.Filter(b, p);
    Seqs.FilterConcat(a, b, p);
  }

  /** The common tail of both `GetBookmarksAfterDate` variants: a fetch
      error is returned unchanged, a fetched page is filtered. */
  function FilterFetched(fetched: Result<BookmarkResponse, FetchError>, after: Time): (r: Result<BookmarkResponse, FetchError>)
    ensures fetched.Failure? <==> r.Failure?
    ensures fetched.Failure? ==> r.error == fetched.error
    ensures fetched.Success? ==> r.value.nextToken == fetched.value.nextToken
    ensures fetched.Success? ==> forall b :: b in r.value.bookmarks.Elems() <==>
              b in fetched.value.bookmarks.Elems() && CreatedAfter(b, after)
    ensures fetched.Success? ==> r == Success(FilterAfter(fetched.value, after))
  {
    match fetched
    case Failure(e) => Failure(e)
    case Success(page) => Success(FilterAfter(page, after))
  }

  /** `GetBookmarksAfterDate` of `services/twitter.go`: the retrying fetch,
      then the filter. The requests and sleeps are those of the fetch. */
  function GetBookmarksAfterDate(outcomes: seq<Outcome>, after: Time): (f: Retry.Fetched)
    requires |outcomes| >= Retry.MaxRetries
    ensures f.trace == Retry.GetBookmarks(outcomes).trace
    ensures f.result.Failure? <==> Retry.GetBookmarks(outcomes).result.Failure?
    ensures f.result.Failure? ==> f.result.error == Retry.GetBookmarks(outcomes).result.error
    ensures f.result.Success? ==>
              f.result.value.nextToken == Retry.GetBookmarks(outcomes).result.value.nextToken
              && forall b :: b in f.result.value.bookmarks.Elems() <==>
                   b in Retry.GetBookmarks(outcomes).result.value.bookmarks.Elems() && CreatedAfter(b, after)
    ensures f.result.Success? ==> f.result.value == FilterAfter(Retry.GetBookmarks(outcomes).result.value, after)
  {
    var fetched := Retry.GetBookmarks(outcomes);
    Retry.Fetched(FilterFetched(fetched.result, after), fetched.trace)
  }
}
