/** What the bookmarks endpoint hands back, from the decoded body onward,
    and the errors the two service variants report. HTTP itself is not
    modelled: each request attempt is one `Outcome` supplied by the caller. */
module Upstream {
  import opened Models

  /** One element of the upstream `data` array. */
  datatype Tweet = Tweet(id: string, text: string, createdAt: Time, authorId: string)

  /** One element of the upstream `includes.users` array. */
  datatype User = User(id: string, username: string, name: string)

  /** A decoded upstream body. An absent `data`, `includes.users` or
      `meta.next_token` decodes to the empty sequence or string. */
  datatype Page = Page(data: seq<Tweet>, users: seq<User>, nextToken: string)

  /** A response body either fails to decode into the expected shape or
      yields a page. */
  datatype Body = Malformed | Decoded(page: Page)

  /** The result of one `http.Client.Do`: a transport error, or a status
      code with a body. */
  datatype Outcome = NetErr | Response(status: int, body: Body)

  const StatusOK := 200
  const StatusUnauthorized := 401
  const StatusTooManyRequests := 429

  /** The errors the services return, by cause. */
  datatype FetchError =
    | RequestFailed                              // transport error
    | RateLimitExceeded                          // HTTP 429
    | ApiStatus(status: int)                     // any other non-200 status
    | DecodeFailed                               // body not in the expected shape
    | RetriesExhausted(retries: nat, last: FetchError)
}
