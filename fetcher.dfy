/**
 * One upstream HTTP request with the client's retry policy: at most three
 * attempts, a transport failure before the last one sleeps 500 ms and then
 * twice as long as the previous sleep, an interrupt during a sleep ends the
 * request, and any response that arrives, successful or not, is returned
 * as it is.
 *
 * The network is an `Upstream` value: what the n-th attempt at a URL gives,
 * and whether the sleep after the n-th failed attempt is interrupted.
 * Sleeps are recorded as the durations requested.
 */
module Fetcher {
  import opened Wrappers
  import opened GtfsRealtime

  const MaxAttempts: nat := 3
  const InitialBackoffMillis: nat := 500

  /** A response body: its text, and what the GTFS Realtime decoder makes of its bytes. */
  datatype Body = Body(text: string, feed: Option<FeedMessage>)

  datatype Response = Response(code: int, body: Option<Body>)

  /** `Response.isSuccessful()`: a status in [200, 300). */
  predicate Successful(r: Response)
  {
    200 <= r.code < 300
  }

  /** One attempt: a response, or the transport's IOException. */
  datatype Attempt = Responded(response: Response) | IoFailure

  datatype Upstream = Upstream(respond: (string, nat) -> Attempt, interrupted: (string, nat) -> bool)

  /**
   * Why an operation of the client ends without a value: transport failure
   * after the last attempt, interrupted backoff, a non-successful response
   * (or one without a body), JSON or feed bytes that do not decode, and the
   * unboxing of a null stop id.
   */
  datatype Failure =
    | NetworkFailure
    | Interrupted
    | Unsuccessful(code: int)
    | MalformedJson
    | MalformedFeed
    | NullReference

  /** What `executeRequest` ends with, how many attempts it made, and the sleeps it asked for. */
  datatype Exchange = Exchange(outcome: Result<Response, Failure>, attempts: nat, sleeps: seq<nat>)

  /** The retry loop from attempt number `attempt`, with the next sleep `backoff` and the sleeps so far. */
  function RetryFrom(up: Upstream, url: string, attempt: nat, backoff: nat, sleeps: seq<nat>): Exchange
    requires 1 <= attempt <= MaxAttempts
    decreases MaxAttempts - attempt
  {
    match up.respond(url, attempt)
    case Responded(r) => Exchange(Ok(r), attempt, sleeps)
    case IoFailure =>
      if attempt >= MaxAttempts then Exchange(Fail(NetworkFailure), attempt, sleeps)
      else if up.interrupted(url, attempt) then Exchange(Fail(Interrupted), attempt, sleeps + [backoff])
      else RetryFrom(up, url, attempt + 1, backoff * 2, sleeps + [backoff])
  }

  /** `executeRequest(req)` for the URL `url`. */
  function Execute(up: Upstream, url: string): Exchange
  {
    RetryFrom(up, url, 1, InitialBackoffMillis, [])
  }

  /** Attempts `1 .. k-1` failed in transport and none of their sleeps was interrupted. */
  predicate QuietFailuresBefore(up: Upstream, url: string, k: nat)
  {
    forall j :: 1 <= j < k ==> up.respond(url, j) == IoFailure && !up.interrupted(url, j)
  }

  /**
   * The outcome of a request, attempt by attempt: a response is returned
   * exactly when it is the first thing an attempt got; transport failure
   * needs three failed attempts; an interrupt ends the request at the sleep
   * it hits. Between attempts the sleeps are 500 ms then 1000 ms.
   */
  lemma {:induction false} ExecuteCharacterised(up: Upstream, url: string)
    ensures var x := Execute(up, url);
      1 <= x.attempts <= MaxAttempts &&
      QuietFailuresBefore(up, url, x.attempts) &&
      (x.outcome.Ok? <==> up.respond(url, x.attempts).Responded?) &&
      (x.outcome.Ok? ==> x.outcome.value == up.respond(url, x.attempts).response) &&
      (x.outcome == Fail(NetworkFailure) <==> x.attempts == MaxAttempts && up.respond(url, MaxAttempts) == IoFailure) &&
      (x.outcome == Fail(Interrupted) <==>
        x.attempts < MaxAttempts && up.respond(url, x.attempts) == IoFailure && up.interrupted(url, x.attempts)) &&
      (x.outcome.Ok? || x.outcome == Fail(NetworkFailure) || x.outcome == Fail(Interrupted)) &&
      x.sleeps == [500, 1000][..if x.outcome == Fail(Interrupted) then x.attempts else x.attempts - 1]
  {
    var x := Execute(up, url);
    match up.respond(url, 1) {
      case Responded(_) =>
      case IoFailure =>
        if !up.interrupted(url, 1) {
          match up.respond(url, 2) {
            case Responded(_) =>
            case IoFailure =>
              if !up.interrupted(url, 2) {
                assert x == RetryFrom(up, url, 3, 2000, [500, 1000]);
              }
          }
        }
    }
  }

  /** A response that arrives on the first attempt is returned, whatever its status, with no sleep. */
  lemma AnyResponseReturnedAtOnce(up: Upstream, url: string, r: Response)
    requires up.respond(url, 1) == Responded(r)
    ensures Execute(up, url) == Exchange(Ok(r), 1, [])
  {
  }

  /** Two transport failures then a response: the response, after sleeping 500 ms then 1000 ms. */
  lemma TwoFailuresThenSuccess(up: Upstream, url: string, r: Response)
    requires up.respond(url, 1) == IoFailure && up.respond(url, 2) == IoFailure
    requires !up.interrupted(url, 1) && !up.interrupted(url, 2)
    requires up.respond(url, 3) == Responded(r)
    ensures Execute(up, url) == Exchange(Ok(r), 3, [500, 1000])
  {
    assert Execute(up, url) == RetryFrom(up, url, 3, 2000, [500, 1000]);
  }

  /** `executeRequest`: the `while (true)` retry loop. */
  method ExecuteRequest(up: Upstream, url: string) returns (x: Exchange)
    ensures x == Execute(up, url)
  {
    var attempt := 0;
    var backoff := InitialBackoffMillis;
    var sleeps: seq<nat> := [];
    while true
      invariant 0 <= attempt < MaxAttempts
      invariant Execute(up, url) == RetryFrom(up, url, attempt + 1, backoff, sleeps)
      decreases MaxAttempts - attempt
    {
      attempt := attempt + 1;
      var a := up.respond(url, attempt);
      if a.Responded? {
        return Exchange(Ok(a.response), attempt, sleeps);
      }
      if attempt >= MaxAttempts {
        return Exchange(Fail(NetworkFailure), attempt, sleeps);
      }
      sleeps := sleeps + [backoff];
      if up.interrupted(url, attempt) {
        return Exchange(Fail(Interrupted), attempt, sleeps);
      }
      backoff := backoff * 2;
    }
  }

  /**
   * The check every caller makes on the response: a failure passes through,
   * and a response that is not successful or has no body becomes a failure.
   */
  function Accepted(outcome: Result<Response, Failure>): (r: Result<Body, Failure>)
    ensures r.Ok? <==> outcome.Ok? && Successful(outcome.value) && outcome.value.body.Some?
    ensures r.Ok? ==> r.value == outcome.value.body.value
    ensures outcome.Fail? ==> r == Fail(outcome.error)
  {
    match outcome
    case Fail(f) => Fail(f)
    case Ok(res) => if !Successful(res) || res.body.None? then Fail(Unsuccessful(res.code)) else Ok(res.body.value)
  }
}
