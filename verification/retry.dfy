/**
 * The retry discipline around every request to the statistics API: up to
 * `MaxRetries` attempts, a sleep of `RetryDelay * 2^attempt` seconds after every
 * failed attempt but the last, and the last request exception re-raised once the
 * attempts are spent. The remote API is a scripted provider: `Reply(provider, n)` is the
 * outcome of the n-th request of the run, whatever its endpoint.
 */
module Retry {

  import opened Base
  import opened Data

  const MaxRetries: nat := 3
  const RetryDelay: nat := 1

  /** The JSON body of a response, reduced to the part the parsers read: `resultSets[k]['rowSet']`. */
  datatype Response = Response(resultSets: seq<ResultSet>)
  datatype ResultSet = ResultSet(rowSet: seq<Row>)
  type Row = seq<Value>

  /** A response that passed `raise_for_status()`, or the `RequestException` raised on the way. */
  datatype Outcome = Ok(response: Response) | Fail(error: RequestError)

  type Provider = nat -> Outcome

  /** The outcome of request number `n` of the run. */
  function Reply(provider: Provider, n: nat): Outcome
  {
    provider(n)
  }

  /** One request: its result, how many attempts it made and what it did. */
  datatype Fetch = Fetch(result: Result<Response, RequestError>, attempts: nat, events: seq<Event>)

  function Pow2(n: nat): (r: nat)
    ensures r >= 1
  {
    if n == 0 then 1 else 2 * Pow2(n - 1)
  }

  /** The sleep after failed attempt `attempt` (0-based). */
  function Backoff(attempt: nat): nat
  {
    RetryDelay * Pow2(attempt)
  }

  /**
   * The event trace of attempts `from .. last` on `endpoint` when every attempt
   * before `last` failed: each attempt, then its backoff sleep unless it is `last`.
   */
  function Schedule(endpoint: string, from: nat, last: nat): seq<Event>
    requires from <= last
    decreases last - from
  {
    if from == last then [Attempt(endpoint)]
    else [Attempt(endpoint), Sleep(Backoff(from))] + Schedule(endpoint, from + 1, last)
  }

  function Sleeps(events: seq<Event>): (r: seq<nat>)
    ensures |r| <= |events|
  {
    if |events| == 0 then []
    else (if events[0].Sleep? then [events[0].seconds] else []) + Sleeps(events[1..])
  }

  function AttemptCount(events: seq<Event>): (n: nat)
    ensures n <= |events|
  {
    if |events| == 0 then 0 else (if events[0].Attempt? then 1 else 0) + AttemptCount(events[1..])
  }

  /**
   * Attempts `attempt .. MaxRetries - 1` of the loop in `_make_request`, the first
   * of them being request number `calls + attempt` of the run.
   */
  function RequestFrom(provider: Provider, endpoint: string, calls: nat, attempt: nat): (f: Fetch)
    requires attempt < MaxRetries
    ensures attempt < f.attempts <= MaxRetries
    ensures f.events == Schedule(endpoint, attempt, f.attempts - 1)
    ensures forall n | calls + attempt <= n < calls + f.attempts - 1 :: Reply(provider, n).Fail?
    ensures f.result.Success? <==> Reply(provider, calls + f.attempts - 1).Ok?
    ensures f.result.Success? ==> f.result.value == Reply(provider, calls + f.attempts - 1).response
    ensures f.result.Failure? ==>
      f.attempts == MaxRetries && f.result.error == Reply(provider, calls + MaxRetries - 1).error
    decreases MaxRetries - attempt
  {
    match Reply(provider, calls + attempt)
    case Ok(response) => Fetch(Success(response), attempt + 1, [Attempt(endpoint)])
    case Fail(error) =>
      if attempt < MaxRetries - 1 then
        var rest := RequestFrom(provider, endpoint, calls, attempt + 1);
        Fetch(rest.result, rest.attempts, [Attempt(endpoint), Sleep(Backoff(attempt))] + rest.events)
      else
        Fetch(Failure(error), attempt + 1, [Attempt(endpoint)])
  }

  /**
   * `_make_request(endpoint, params)` when the run has already made `calls` requests:
   * request numbers `calls .. calls + attempts - 1` are used, every one but the last
   * failed, and the result is the last one's response or its exception.
   */
  function Request(provider: Provider, endpoint: string, calls: nat): (f: Fetch)
    ensures 1 <= f.attempts <= MaxRetries
    ensures f.events == Schedule(endpoint, 0, f.attempts - 1)
    ensures forall n | calls <= n < calls + f.attempts - 1 :: Reply(provider, n).Fail?
    ensures f.result.Success? <==> Reply(provider, calls + f.attempts - 1).Ok?
    ensures f.result.Success? ==> f.result.value == Reply(provider, calls + f.attempts - 1).response
    ensures f.result.Failure? ==>
      f.attempts == MaxRetries && f.result.error == Reply(provider, calls + MaxRetries - 1).error
  {
    RequestFrom(provider, endpoint, calls, 0)
  }

  /** The events of one request: it starts with an attempt, and holds only attempts on its endpoint and sleeps. */
  ghost predicate RequestTrace(events: seq<Event>, endpoint: string)
  {
    && 0 < |events|
    && events[0] == Attempt(endpoint)
    && forall e | e in events :: e == Attempt(endpoint) || e.Sleep?
  }

  lemma {:induction false} ScheduleTrace(endpoint: string, from: nat, last: nat)
    requires from <= last
    ensures RequestTrace(Schedule(endpoint, from, last), endpoint)
    decreases last - from
  {
    if from < last {
      ScheduleTrace(endpoint, from + 1, last);
    }
  }

  /** The schedule of attempts `from .. last` makes `last - from + 1` attempts and sleeps `Backoff(from) .. Backoff(last - 1)`. */
  lemma {:induction false} ScheduleShape(endpoint: string, from: nat, last: nat)
    requires from <= last
    ensures AttemptCount(Schedule(endpoint, from, last)) == last - from + 1
    ensures Sleeps(Schedule(endpoint, from, last)) == seq(last - from, k requires 0 <= k < last - from => Backoff(from + k))
    decreases last - from
  {
    var s := Schedule(endpoint, from, last);
    if from == last {
      assert s[1..] == [];
    } else {
      var rest := Schedule(endpoint, from + 1, last);
      ScheduleShape(endpoint, from + 1, last);
      assert s[1..] == [Sleep(Backoff(from))] + rest;
      assert s[1..][1..] == rest;
    }
  }

  /** The events of a request count its attempts and form a request trace. */
  lemma RequestEvents(provider: Provider, endpoint: string, calls: nat)
    ensures var f := Request(provider, endpoint, calls);
      AttemptCount(f.events) == f.attempts && RequestTrace(f.events, endpoint)
  {
    var f := Request(provider, endpoint, calls);
    ScheduleShape(endpoint, 0, f.attempts - 1);
    ScheduleTrace(endpoint, 0, f.attempts - 1);
  }

  /**
   * A provider that fails every time gets exactly `MaxRetries` attempts, with sleeps
   * of 1 then 2 seconds between them and none after the last; the last exception is raised.
   */
  lemma AlwaysFailing(provider: Provider, endpoint: string, calls: nat)
    requires forall n | calls <= n < calls + MaxRetries :: Reply(provider, n).Fail?
    ensures Request(provider, endpoint, calls).attempts == MaxRetries
    ensures Request(provider, endpoint, calls).result == Failure(Reply(provider, calls + MaxRetries - 1).error)
    ensures Request(provider, endpoint, calls).events ==
      [Attempt(endpoint), Sleep(1), Attempt(endpoint), Sleep(2), Attempt(endpoint)]
    ensures Sleeps(Request(provider, endpoint, calls).events) == [1, 2]
  {
    var f := Request(provider, endpoint, calls);
    assert Reply(provider, calls + f.attempts - 1).Fail?;
    ScheduleShape(endpoint, 0, 2);
  }

  /**
   * If attempt `k` (1-based) is the first to succeed, its response is the result,
   * no later attempt is made and `k - 1` sleeps happened.
   */
  lemma FirstSuccess(provider: Provider, endpoint: string, calls: nat, k: nat)
    requires 1 <= k <= MaxRetries
    requires forall n | calls <= n < calls + k - 1 :: Reply(provider, n).Fail?
    requires Reply(provider, calls + k - 1).Ok?
    ensures Request(provider, endpoint, calls).attempts == k
    ensures Request(provider, endpoint, calls).result == Success(Reply(provider, calls + k - 1).response)
    ensures AttemptCount(Request(provider, endpoint, calls).events) == k
    ensures |Sleeps(Request(provider, endpoint, calls).events)| == k - 1
  {
    ScheduleShape(endpoint, 0, k - 1);
  }

  /** Two providers that succeed and fail at the same requests, with the same responses. */
  ghost predicate SameVerdicts(p: Provider, q: Provider, calls: nat)
  {
    forall n | calls <= n < calls + MaxRetries ::
      Reply(p, n).Ok? == Reply(q, n).Ok? && (Reply(p, n).Ok? ==> Reply(p, n).response == Reply(q, n).response)
  }

  /**
   * Every request exception is retried the same way: the kind of error (HTTP status,
   * connection failure, ...) changes neither the attempts, nor the sleeps, nor a success.
   */
  lemma ErrorKindIrrelevant(p: Provider, q: Provider, endpoint: string, calls: nat)
    requires SameVerdicts(p, q, calls)
    ensures Request(p, endpoint, calls).attempts == Request(q, endpoint, calls).attempts
    ensures Request(p, endpoint, calls).events == Request(q, endpoint, calls).events
    ensures Request(p, endpoint, calls).result.Success? == Request(q, endpoint, calls).result.Success?
    ensures Request(p, endpoint, calls).result.Success? ==>
      Request(p, endpoint, calls).result == Request(q, endpoint, calls).result
  {
  }
}
