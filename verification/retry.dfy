/** The bounded retry loop of `GetBookmarks` in `services/twitter.go`.
    Each attempt consumes the next transport outcome; `time.Sleep` is not
    performed but recorded in the trace, in whole seconds. */
module Retry {
  import opened Wrappers
  import opened Models
  import opened Upstream
  import Normalize

  const MaxRetries: nat := 3

  /** How many requests were issued, and the sleeps taken between them. */
  datatype Trace = Trace(attempts: nat, sleeps: seq<nat>)

  datatype Fetched = Fetched(result: Result<BookmarkResponse, FetchError>, trace: Trace)

  /** Outcomes the loop retries: a transport error or HTTP 429. */
  predicate Transient(o: Outcome)
  {
    o.NetErr? || o.status == StatusTooManyRequests
  }

  /** The error remembered for a retried outcome. */
  function TransientError(o: Outcome): FetchError
    requires Transient(o)
  {
    if o.NetErr? then RequestFailed else RateLimitExceeded
  }

  /** How a non-retried outcome ends the call: 200 goes to parsing, any
      other status fails with that status. */
  function Settle(o: Outcome): (r: Result<BookmarkResponse, FetchError>)
    requires !Transient(o)
    ensures o.status != StatusOK ==> r == Failure(ApiStatus(o.status))
    ensures o.status == StatusOK && o.body.Malformed? ==> r == Failure(DecodeFailed)
    ensures o.status == StatusOK && o.body.Decoded? ==> r == Success(Normalize.ParseBookmarks(o.body.page))
  {
    if o.status != StatusOK then Failure(ApiStatus(o.status))
    else match o.body
      case Malformed => Failure(DecodeFailed)
      case Decoded(p) => Success(Normalize.ParseBookmarks(p))
  }

  /** The linear backoff schedule: the k-th sleep (0-based) lasts k+1 seconds. */
  ghost predicate LinearBackoff(sleeps: seq<nat>)
  {
    forall k :: 0 <= k < |sleeps| ==> sleeps[k] == k + 1
  }

  /** Attempt `i` (0-based) onward, after `i` retried outcomes. */
  function Attempt(outcomes: seq<Outcome>, i: nat, sleeps: seq<nat>): (f: Fetched)
    requires i < MaxRetries <= |outcomes|
    requires |sleeps| == i && LinearBackoff(sleeps)
    requires forall k :: 0 <= k < i ==> Transient(outcomes[k])
    ensures i <= |f.trace.sleeps| <= MaxRetries && f.trace.sleeps[..i] == sleeps
    ensures LinearBackoff(f.trace.sleeps)
    ensures forall k :: 0 <= k < |f.trace.sleeps| ==> Transient(outcomes[k])
    ensures |f.trace.sleeps| == MaxRetries ==>
              f.trace.attempts == MaxRetries
              && f.result == Failure(RetriesExhausted(MaxRetries, TransientError(outcomes[MaxRetries - 1])))
    ensures |f.trace.sleeps| < MaxRetries ==>
              f.trace.attempts == |f.trace.sleeps| + 1
              && !Transient(outcomes[|f.trace.sleeps|])
              && f.result == Settle(outcomes[|f.trace.sleeps|])
    decreases MaxRetries - i
  {
    var o := outcomes[i];
    if Transient(o) then
      if i + 1 == MaxRetries then
        Fetched(Failure(RetriesExhausted(MaxRetries, TransientError(o))), Trace(i + 1, sleeps + [i + 1]))
      else
        Attempt(outcomes, i + 1, sleeps + [i + 1])
    else
      Fetched(Settle(o), Trace(i + 1, sleeps))
  }

  /** One page of bookmarks, with at most `MaxRetries` attempts. The
      transport is asked for at most `MaxRetries` outcomes. */
  function GetBookmarks(outcomes: seq<Outcome>): (f: Fetched)
    requires |outcomes| >= MaxRetries
    ensures 1 <= f.trace.attempts <= MaxRetries
    ensures |f.trace.sleeps| <= MaxRetries
    ensures LinearBackoff(f.trace.sleeps)
    ensures forall k :: 0 <= k < |f.trace.sleeps| ==> Transient(outcomes[k])
    ensures |f.trace.sleeps| == MaxRetries ==>
              f.trace.attempts == MaxRetries
              && f.result == Failure(RetriesExhausted(MaxRetries, TransientError(outcomes[MaxRetries - 1])))
    ensures |f.trace.sleeps| < MaxRetries ==>
              f.trace.attempts == |f.trace.sleeps| + 1
              && !Transient(outcomes[|f.trace.sleeps|])
              && f.result == Settle(outcomes[|f.trace.sleeps|])
  {
    Attempt(outcomes, 0, [])
  }

  /** The call stops at the first outcome that is not retried, if one
      comes within `MaxRetries` attempts: that outcome decides the result
      and every earlier attempt was followed by its sleep. */
  lemma StopsAtFirstSettled(outcomes: seq<Outcome>, k: nat)
    requires |outcomes| >= MaxRetries && k < MaxRetries
    requires forall j :: 0 <= j < k ==> Transient(outcomes[j])
    requires !Transient(outcomes[k])
    ensures GetBookmarks(outcomes).trace == Trace(k + 1, seq(k, j => j + 1))
    ensures GetBookmarks(outcomes).result == Settle(outcomes[k])
  {
    var f := GetBookmarks(outcomes);
    assert |f.trace.sleeps| == k;
  }

  /** Three retried outcomes in a row: three requests, sleeps of 1, 2 and 3
      seconds, and an error carrying the last failure. */
  lemma ExhaustedAfterThreeTransients(outcomes: seq<Outcome>)
    requires |outcomes| >= MaxRetries
    requires forall j :: 0 <= j < MaxRetries ==> Transient(outcomes[j])
    ensures GetBookmarks(outcomes).trace == Trace(3, [1, 2, 3])
    ensures GetBookmarks(outcomes).result == Failure(RetriesExhausted(3, TransientError(outcomes[2])))
  {
    var f := GetBookmarks(outcomes);
    assert |f.trace.sleeps| == 3;
    assert f.trace.sleeps == [1, 2, 3];
  }

  /** 429 twice then 200: success on the third request after sleeps of 1 s and 2 s. */
  lemma RateLimitedTwiceThenOk(p: Page, extra: seq<Outcome>)
    ensures var f := GetBookmarks([Response(429, Malformed), Response(429, Malformed), Response(200, Decoded(p))] + extra);
            f.trace == Trace(3, [1, 2]) && f.result == Success(Normalize.ParseBookmarks(p))
  {
    StopsAtFirstSettled([Response(429, Malformed), Response(429, Malformed), Response(200, Decoded(p))] + extra, 2);
  }

  /** 401 is not retried: one request, no sleep, the status in the error. */
  lemma UnauthorizedFailsAtOnce(outcomes: seq<Outcome>, b: Body)
    requires |outcomes| >= MaxRetries && outcomes[0] == Response(StatusUnauthorized, b)
    ensures GetBookmarks(outcomes) == Fetched(Failure(ApiStatus(401)), Trace(1, []))
  {
    StopsAtFirstSettled(outcomes, 0);
  }

  /** Only the outcomes of the requests actually issued matter: two
      transports that agree on them give the same call. */
  lemma {:induction false} AttemptIgnoresUnusedOutcomes(a: seq<Outcome>, b: seq<Outcome>, i: nat, sleeps: seq<nat>)
    requires i < MaxRetries <= |a| && MaxRetries <= |b|
    requires |sleeps| == i && LinearBackoff(sleeps)
    requires forall k :: 0 <= k < i ==> Transient(a[k]) && Transient(b[k])
    requires var n := Attempt(a, i, sleeps).trace.attempts; a[i..n] == b[i..n]
    ensures Attempt(a, i, sleeps) == Attempt(b, i, sleeps)
    decreases MaxRetries - i
  {
    var n := Attempt(a, i, sleeps).trace.attempts;
    assert a[i] == a[i..n][0] == b[i..n][0] == b[i];
    if Transient(a[i]) && i + 1 < MaxRetries {
      assert a[i + 1..n] == a[i..n][1..];
      assert b[i + 1..n] == b[i..n][1..];
      AttemptIgnoresUnusedOutcomes(a, b, i + 1, sleeps + [i + 1]);
    }
  }

  lemma OnlyIssuedRequestsMatter(a: seq<Outcome>, b: seq<Outcome>)
    requires |a| >= MaxRetries && |b| >= MaxRetries
    requires a[..GetBookmarks(a).trace.attempts] == b[..GetBookmarks(a).trace.attempts]
    ensures GetBookmarks(a) == GetBookmarks(b)
  {
    AttemptIgnoresUnusedOutcomes(a, b, 0, []);
  }
}
