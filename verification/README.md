# Twitter bookmarks service: a Dafny model of its core

This project models the logic at the centre of a small Go service that
fetches a user's Twitter bookmarks. The model covers:

- **The bookmark normaliser** (`parseBookmarksResponse` in
  `services/twitter.go`). It joins every tweet of a decoded API v2 page
  with the included user who wrote it and flattens the page into a
  `BookmarkResponse`.
- **The retrying fetch** (`GetBookmarks` in `services/twitter.go`). It
  makes at most three attempts. A transport error or HTTP 429 is retried
  after a linear back-off of 1 s, then 2 s, then 3 s. Any other non-200
  status fails at once.
- **The date filter** (`GetBookmarksAfterDate`, written the same way in
  both service files). It keeps the bookmarks created strictly after an
  instant and leaves the cursor alone.
- **The older service** (`services/twitter_service.go`). It makes one
  attempt and does no user join, so its authors carry only their id.
- **The rate limiter** (`middleware/ratelimit.go`). It is a per-client
  sliding window over a table that maps a client key to the instants of
  that client's allowed requests.
- **The PKCE pair and the OAuth callback** (`cmd/main.go`).
  - The code verifier is 43 characters drawn from the unreserved charset
    of section 4.1 of RFC 7636.
  - The S256 challenge is base64url without padding (section 5 of
    RFC 4648) of SHA-256 of the verifier.
  - The `/callback` route checks the `state` and then exchanges the code
    for a token.

Modules and files:

| file | module | contents |
|---|---|---|
| `wrappers.dfy` | `Wrappers` | `Option`, `Result` |
| `seqs.dfy` | `Seqs` | order-preserving `Filter` and its laws |
| `models.dfy` | `Models` | `Bookmark`, `Author`, `BookmarkResponse`, and Go's nil-versus-empty slice |
| `upstream.dfy` | `Upstream` | the decoded API page, transport outcomes, fetch errors |
| `normalize.dfy` | `Normalize` | `parseBookmarksResponse` |
| `retry.dfy` | `Retry` | the retry loop of `GetBookmarks` |
| `date_filter.dfy` | `DateFilter` | the "created after" filter |
| `legacy_service.dfy` | `LegacyService` | `services/twitter_service.go` |
| `rate_limit.dfy` | `RateLimit` | the limiter, one request at a time and over a whole run |
| `base64url.dfy` | `Base64Url` | the unpadded URL-safe encoding and its decoder |
| `pkce.dfy` | `Pkce` | `GenerateCodeVerifier`, `GenerateCodeChallenge` |
| `callback.dfy` | `Callback` | the `/callback` route |

Inputs that the Go code obtains from the world are parameters of the model:

- **The transport.** The retrying fetch takes the sequence of outcomes its
  successive requests would get: a transport error, or a status with a
  body that is malformed or decoded into a page. It returns the result
  with a trace of the requests made and the sleeps taken.
- **The clock.** Time is an integer number of nanoseconds.
- **The random source.** The verifier is built from the indices that
  `rand.Intn` would return.
- **SHA-256.** It is a function parameter that yields 32 bytes.
- **The token endpoint's answer.** It is an input of the callback.
- **Package-level state.** The limiter table and the `accessToken`
  variable are passed in and returned.

## Model

| member | source | states |
|---|---|---|
| Models.AppendAll | services/twitter.go:115-120 | appending to a Go slice keeps the old elements in front and the new ones in order; the result is nil only when a nil slice gets nothing appended |
| Seqs.Filter | services/twitter.go:115-120 | the filtered sequence is an order-preserving subsequence holding exactly the elements that pass, each with its original multiplicity |
| Seqs.FilterConcat | services/twitter.go:116-119 | filtering a concatenation is the concatenation of the filtered parts, because the loop appends in input order |
| Seqs.FilterKeepsAll | services/twitter.go:116-119 | when every element passes, the filter is the identity |
| Seqs.FilterStronger | services/twitter.go:116-119 | filtering by a weaker test and then by a stronger one equals filtering by the stronger one alone |
| Seqs.FilterIdempotent | services/twitter.go:116-119 | filtering twice by the same test equals filtering once |
| Normalize.UserLookup | services/twitter.go:152-164 | the author lookup has exactly the ids of the included users as keys |
| Normalize.UserLookupLastWins | services/twitter.go:156-164 | when ids repeat, the lookup holds the username and name of the last user with that id |
| Normalize.ParseBookmarks | services/twitter.go:166-188 | one bookmark per tweet, in upstream order, in a non-nil slice even when there are no tweets; both ids are the tweet id; text, creation time and author id are copied; username and name come from the last included user with the author id, or are empty when there is none; the cursor is `meta.next_token` |
| Retry.Settle | services/twitter.go:98-102 | an outcome that is not retried ends the call: a status other than 200 fails with that status, a malformed 200 body fails to decode, and a decoded 200 body is normalised |
| Retry.Attempt | services/twitter.go:83-105 | from attempt i onward, the call either stops at the first outcome that is not retried, with that outcome's result, or runs out after the third retried outcome; the k-th sleep lasts k+1 seconds |
| Retry.GetBookmarks | services/twitter.go:80-105 | between one and three requests are issued; every request before the last got a retried outcome; the sleeps are 1, 2, 3 seconds in order; three retried outcomes end with the retry-exhausted error carrying the third one's error |
| Retry.StopsAtFirstSettled | services/twitter.go:83-102 | if attempt k is the first one that is not retried, the call makes k+1 requests with sleeps 1..k and returns that outcome's result |
| Retry.ExhaustedAfterThreeTransients | services/twitter.go:83-105 | three transport errors or 429s make three requests, sleep 1, 2 and 3 seconds, and fail with the last error |
| Retry.RateLimitedTwiceThenOk | services/twitter.go:92-102 | 429, 429, then 200 succeeds on the third request after sleeping 1 and 2 seconds |
| Retry.UnauthorizedFailsAtOnce | services/twitter.go:98-100 | a 401 is not retried: one request, no sleep, and the status is in the error |
| Retry.AttemptIgnoresUnusedOutcomes | services/twitter.go:83-103 | from any attempt onward, the call depends only on the outcomes of the requests it actually issues |
| Retry.OnlyIssuedRequestsMatter | services/twitter.go:83-105 | two transports that agree on the requests issued give the same result and the same trace |
| DateFilter.FilterAfter | services/twitter.go:115-125 | the kept bookmarks are an order-preserving subsequence holding exactly those created strictly after the instant, with their multiplicities; the slice is nil exactly when none is kept; the cursor is unchanged |
| DateFilter.FilterAfterIdempotent | services/twitter.go:115-125 | filtering a filtered page by the same instant changes nothing |
| DateFilter.FilterAfterLaterThreshold | services/twitter.go:115-125 | filtering by an instant and then by a later one equals filtering by the later one |
| DateFilter.FilterAfterSplits | services/twitter.go:116-120 | the filter of two runs of bookmarks is the first run's filter followed by the second's |
| DateFilter.FilterFetched | services/twitter.go:110-125 | a fetch error is returned unchanged with no page; a fetched page becomes exactly its `FilterAfter` page, so it keeps its order, multiplicities, nil-when-empty slice and cursor |
| DateFilter.GetBookmarksAfterDate | services/twitter.go:109-126 | the requests and sleeps are those of the retrying fetch; its error is propagated; on success the page is the fetched page filtered by `FilterAfter`: exactly the fetched bookmarks created after the instant, in order, with the fetched cursor |
| LegacyService.IdOnlyBookmarks | services/twitter_service.go:63-79 | one bookmark per tweet, in upstream order, in a non-nil slice; both ids are the tweet id; the author has only the tweet's author id, with empty username and name; the cursor is passed through |
| LegacyService.GetBookmarks | services/twitter_service.go:37-61 | a single attempt: a transport error fails, any status other than 200 (429 included) fails with that status, a malformed body fails to decode; it succeeds exactly on a decoded 200 |
| LegacyService.GetBookmarksAfterDate | services/twitter_service.go:82-98 | a fetch error is propagated with no page; on success the page is the fetched page filtered by `FilterAfter`: the order-preserving subsequence of bookmarks created after the instant, with the cursor passed through |
| LegacyService.AgreesWithJoinedNormaliser | services/twitter_service.go:63-79 | the older normaliser agrees with the newer one on the page length, the cursor, and every field except the author's username and name |
| LegacyService.SameWithoutIncludedAuthors | services/twitter_service.go:63-74 | when no tweet's author is among the included users, the two normalisers build the same page |
| LegacyService.SingleAttemptMatchesRetryOnSettled | services/twitter_service.go:37-45 | when the first outcome is not a transport error or 429, the newer service issues one request and both services fail with the same error or both succeed |
| LegacyService.RateLimitNotRetried | services/twitter_service.go:43-45 | a 429 ends the older service's call with that status |
| RateLimit.Prune | middleware/ratelimit.go:29-38 | pruning keeps, in order and with their multiplicities, exactly the instants t with now - t <= window |
| RateLimit.Handle | middleware/ratelimit.go:20-50 | a request is rejected exactly when the client's pruned list already holds at least the limit; an allowed request stores the pruned list plus `now` at the end; a rejected one stores the pruned list (a client with no list stays absent); every other client's entry is unchanged |
| RateLimit.HandleKeepsBound | middleware/ratelimit.go:41-50 | if no client holds more instants than the limit before a request, none does after it |
| RateLimit.NonPositiveLimitRejects | middleware/ratelimit.go:41-47 | a limit of zero or less rejects every request |
| RateLimit.FreshClientAllowed | middleware/ratelimit.go:30-50 | with a limit of at least one, a client with no recorded request is allowed, and its list becomes the one instant `now` |
| RateLimit.HandleKeys | middleware/ratelimit.go:30-50 | a request adds its client's key exactly when it is allowed; no key is ever removed |
| RateLimit.StoredAfterHandle | middleware/ratelimit.go:29-50 | after one request, the requesting client's list is its pruned list, extended by `now` when allowed; any other client's list is untouched |
| RateLimit.RunLast | middleware/ratelimit.go:20-50 | the last request of a run decides on the table the earlier requests left, and adds its instant to its client's admitted list exactly when allowed |
| RateLimit.Run | middleware/ratelimit.go:16-18 | the package-level limiter starts from an empty table and decides every request in turn: one decision per request |
| RateLimit.RunKeys | middleware/ratelimit.go:16-50 | after any run, a client has an entry in the table exactly when at least one of its requests was allowed |
| RateLimit.RunBounded | middleware/ratelimit.go:16-50 | after any run from the empty table, no client holds more instants than the limit |
| RateLimit.PruneLater | middleware/ratelimit.go:29-38 | pruning at one instant, appending, and pruning at a later instant equals pruning the parts at the later instant |
| RateLimit.TableTracksAdmitted | middleware/ratelimit.go:20-50 | after any run, a client's list pruned at an instant no earlier than any request is exactly that client's allowed requests inside the window ending there |
| RateLimit.WindowGuarantee | middleware/ratelimit.go:20-50 | the sliding-window guarantee: the requests of one client allowed in any window ending no earlier than every request number at most the limit, and none when the limit is negative |
| Pkce.CharsetLayout | cmd/main.go:163 | the charset has 66 characters: lower-case letters, upper-case letters and digits in code-point order, then `-._~` |
| Pkce.CharsetIndex | cmd/main.go:163 | every unreserved character occurs in the charset, and the index found points at it |
| Pkce.CharsetIsUnreserved | cmd/main.go:163 | the charset is exactly the unreserved set of section 4.1 of RFC 7636, each character once |
| Pkce.DrawnIsValid | cmd/main.go:163-171 | 43 characters drawn from the charset form a verifier that section 4.1 of RFC 7636 allows |
| Pkce.GenerateCodeVerifier | cmd/main.go:161-172 | the verifier has 43 characters; position i is the charset character at the i-th drawn index; the verifier is valid under section 4.1 of RFC 7636 |
| Pkce.DrawsFor | cmd/main.go:166-171 | every string of unreserved characters has draws that produce it: one in-range index per position, pointing at that position's character in the charset |
| Pkce.GenerateCodeChallenge | cmd/main.go:174-178 | the challenge has 43 characters from the URL-safe alphabet and decodes back to SHA-256 of the verifier; since the decoder accepts only canonical encodings, this fixes the challenge uniquely |
| Pkce.ChallengeDeterminedByDigest | cmd/main.go:174-178 | a string decodes to the verifier's digest exactly when it is the challenge, so the string comparison of section 4.6 of RFC 7636 accepts no other string |
| Pkce.ChallengeIsUnreserved | cmd/main.go:174-178 | the challenge also has the length and the characters of a valid verifier, as section 4.2 of RFC 7636 expects of S256 |
| Base64Url.Digit | cmd/main.go:177 | every 6-bit value is encoded as a character of the URL-safe alphabet |
| Base64Url.ValueOf | cmd/main.go:177 | every character of the alphabet is the encoding of exactly one 6-bit value |
| Base64Url.EncodeGroup | cmd/main.go:177 | three bytes give four characters of the alphabet |
| Base64Url.Encode | cmd/main.go:177 | the encoding has 4 characters per 3 bytes plus 2 or 3 for a final partial group, with no padding, all from the URL-safe alphabet |
| Base64Url.RoundTrip | cmd/main.go:177 | decoding an encoding gives back the bytes |
| Base64Url.EncodeInjective | cmd/main.go:177 | distinct byte strings have distinct encodings |
| Base64Url.GroupCanonical | cmd/main.go:177 | four alphabet characters are the encoding of the three bytes they decode to |
| Base64Url.OneByteCanonical | cmd/main.go:177 | two characters that decode to one byte, with no leftover bits set, are that byte's encoding |
| Base64Url.TwoBytesCanonical | cmd/main.go:177 | three characters that decode to two bytes, with no leftover bits set, are those bytes' encoding |
| Base64Url.DecodeCanonical | cmd/main.go:177 | the decoder accepts only canonical encodings (section 3.5 of RFC 4648): a string that decodes to some bytes is their encoding |
| Base64Url.DecodeIffEncode | cmd/main.go:177 | a string decodes to some bytes if and only if it is their encoding |
| Base64Url.ValueOfDigit | cmd/main.go:177 | distinct 6-bit values are encoded as distinct characters |
| Base64Url.DecodeCons | cmd/main.go:177 | a leading group of four alphabet characters decodes to its three bytes, in front of whatever the rest decodes to |
| Base64Url.OneByteRoundTrip | cmd/main.go:177 | a final group of one byte encodes to two characters that decode back to it |
| Base64Url.TwoBytesRoundTrip | cmd/main.go:177 | a final group of two bytes encodes to three characters that decode back to them |
| Base64Url.LeadingGroupRoundTrip | cmd/main.go:177 | a leading group of three bytes decodes back, in front of whatever the rest decodes to |
| Callback.HandleCallback | cmd/main.go:48-98 | a callback whose state differs from the issued one gets 400 "State mismatch", sends no token request and leaves the session alone; otherwise exactly one authorization-code request is sent with the client id, the redirect URI, the code and the verifier; the session changes only, and the reply is a 302 redirect to `/tweets` exactly, when the state matches and the token endpoint grants a token; a status other than 200 is passed on with "Twitter API error"; a transport error or a 200 body that does not decode into a JSON object gets 500 "Internal server error"; a decoded 200 body without a string `access_token` panics; none of these error paths changes the session |
| Callback.ForgedStateIgnored | cmd/main.go:49-55 | a forged callback sends nothing and its outcome does not depend on what the token endpoint would have answered |

## Left out

- HTTP I/O is not modelled. This covers building requests (including the
  "failed to create request" errors), headers and URLs, closing bodies,
  and the 10-second client timeout. Transport results are inputs.
- JSON decoding is not modelled. A body is either malformed or already
  decoded into the fields the code reads. Both services take the same
  decoded page, and the older one ignores `includes`, as Go's decoder does
  for fields a struct does not declare.
- Error message texts are not modelled. Errors are constructors. The older
  service returns the raw transport and decoder errors and writes
  "Twitter API error: %d". The newer one wraps them as "request failed",
  "failed to decode response" and "Twitter API error: status=%d".
  `RetriesExhausted` stands for "failed after 3 retries: <last error>".
- Context cancellation is not modelled. `ctx` only reaches
  `http.NewRequestWithContext`.
- `Authenticate` is not modelled. It is the client-credentials token call
  of `services/twitter.go`, outside the fetch/normalise/filter core.
- `time.Sleep` is recorded in the trace instead of performed.
- Retry.GetBookmarks: requires at least three transport outcomes. The loop
  reads at most three, and `Retry.OnlyIssuedRequestsMatter` shows that
  the ones it does not read are irrelevant.
- Times are unbounded integers of nanoseconds. The model does not cover
  the saturation of `time.Sub` at the limits of `int64`, the monotonic
  clock reading, or time zones. `After` is strict `>`.
- RateLimit.Handle: the mutex, the package-level `limiter`, `c.ClientIP()`
  and `c.Next()` are not modelled. The limiter runs one request at a time
  on a table passed in and out, and the client key is a parameter.
  - A client whose list prunes to nothing keeps a key holding an empty
    list. Go stores a nil slice there. Both have length 0.
  - The configuration type is not part of this model. `Requests` and
    `TimeWindow` are taken as an integer and a duration in nanoseconds.
- RateLimit.Run: every request of a run is decided under one `Config`.
  In the Go code the `limiter` table is a single package-level variable
  keyed only by client IP, and every handler that `RateLimit(config)`
  returns reads and writes it. Two handlers built with different
  configurations would share the same lists. Three requests through a
  handler with `Requests = 3`, say, leave a list of three that a handler
  with `Requests = 1` then sees. `RateLimit.RunBounded`,
  `RateLimit.TableTracksAdmitted` and `RateLimit.WindowGuarantee` are
  stated only for runs under one configuration. None of the source
  files in this model calls `RateLimit`, so how many handlers exist is
  not known here.
- Pkce.GenerateCodeVerifier: `rand.Seed(time.Now().UnixNano())` and
  `math/rand` are not modelled. The draws are an input, each in
  `[0, 66)`. A clock-seeded, non-cryptographic source makes the verifier
  predictable; that is a property of the source of randomness, and the
  model cannot state it.
- The code only encodes. `Base64Url.Decode` is the canonical decoder of
  section 3.5 of RFC 4648, the partner the encoder's properties are
  stated against. It rejects set leftover bits, which Go's default
  decoder would ignore.
- Pkce.GenerateCodeChallenge: SHA-256 is a parameter, not an
  implementation. The properties hold for every function from strings to
  32-byte digests.
- The Go string-to-bytes conversion of the verifier is not modelled. All
  its characters are ASCII, so the verifier is the same sequence either
  way.
- The `/login` route is not modelled. It builds the authorization URL and
  sends `code_challenge_method=s256` in lower case where section 4.3 of
  RFC 7636 writes `S256`.
- The `/revoke` and `/tweets` routes, the Gin router, `main` and
  `config.Load` are not modelled. They are HTTP forwarding with no logic
  of their own beyond what the callback model already shows.
- Callback.HandleCallback: the route logs errors (`log.Println`), and that
  is not modelled. The `accessToken` global is the `Session` value. The
  token response is classified the way the code reads it, by decoding
  into a `map[string]interface{}`. A body that does not decode into a JSON
  object, whether malformed or a valid array, number or string, gets 500
  "Internal server error". A body that decodes but has no string
  `access_token` panics at the `.(string)` assertion. That includes
  `null`, which decodes to a nil map. A body with a string
  `access_token` stores it and redirects.
- Gin's handling of a panic is not modelled. A panic is a `Panic` reply.
- Callback.ForgedStateIgnored: the issued `state` is the constant
  `"my-state"` in the code, so anyone who knows that literal passes the
  check. The model makes the issued state a parameter
  (`AuthConfig.state`). "Forged" means only a callback whose `state`
  differs from the issued one, not one that an attacker cannot produce.
- LegacyService.SingleAttemptMatchesRetryOnSettled: both services read the
  same decoded `Body`. The older service declares no `includes` field, so
  Go's decoder skips it, while the newer one declares it. A 200 body whose
  `includes` has the wrong shape (say `"includes":{"users":"x"}`) is
  decoded by the older service, which succeeds. The newer one fails to
  decode it. The model has no such body, so the lemma does not cover that
  case.

## Behaviour worth noting

- The date filter starts from a nil slice and appends to it. When nothing
  is kept, the result therefore holds a nil slice, which encodes as JSON
  `null` rather than `[]`. `DateFilter.FilterAfter` states this. The
  normaliser, by contrast, always produces a non-nil slice.
- The retry loop also sleeps after the third failed attempt, before it
  gives up. A call that exhausts its retries therefore sleeps 1, 2 and 3
  seconds, which is 6 s in all. The model follows the code.
- The older service does not retry a 429. It fails at once with the
  status, as `LegacyService.RateLimitNotRetried` states.
