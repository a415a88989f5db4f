/** The retrying HTTP GET: a request is repeated while the server answers
    "busy" (429 or 503) and retries remain, waiting twice as long before each
    new attempt. The network is a function from the attempt number to the
    reply that attempt gets; the waits are returned instead of slept. */
module RetryFetch {

  /** What one `fetch` call yields: a response with its status and body, or a
      rejected promise (the request never got a response). */
  datatype Reply<B> = Response(status: nat, body: B) | Rejected(reason: string)

  /** What `fetchWithRetry` yields: the successful response, or the error it
      throws, either its own "Request failed" or the rejection of `fetch`. */
  datatype Fetched<B> = Delivered(status: nat, body: B) | RequestFailed(status: nat) | NetworkError(reason: string)

  /** `Response.ok`: a status in the range 200-299. */
  predicate IsOk(status: nat)
    ensures IsOk(status) ==> status != 429 && status != 503
  {
    200 <= status <= 299
  }

  /** A reply after which the request is worth retrying: 429 or 503. */
  predicate IsBusy<B>(reply: Reply<B>)
    ensures IsBusy(reply) ==> reply.Response? && !IsOk(reply.status)
  {
    reply.Response? && (reply.status == 429 || reply.status == 503)
  }

  function Pow2(n: nat): (p: nat)
    ensures p >= 1
  {
    if n == 0 then 1 else 2 * Pow2(n - 1)
  }

  /** The waits before the retries after the first `n` attempts. */
  function Delays(backoffMs: nat, n: nat): (r: seq<nat>)
    ensures |r| == n
    ensures n > 0 ==> r[0] == backoffMs
    ensures forall k :: 0 < k < n ==> r[k] == 2 * r[k - 1]
  {
    seq(n, k requires 0 <= k < n => backoffMs * Pow2(k))
  }

  /** The attempt, counted from 0, at which the loop started at `attempt`
      stops: the first one whose reply is not busy, or the one reached when
      no retries are left. */
  function FinalAttempt<B>(server: nat -> Reply<B>, retries: nat, attempt: nat): (k: nat)
    requires attempt <= retries
    ensures attempt <= k <= retries
    ensures forall j :: attempt <= j < k ==> IsBusy(server(j))
    ensures k < retries ==> !IsBusy(server(k))
    decreases retries - attempt
  {
    if IsBusy(server(attempt)) && attempt < retries then FinalAttempt(server, retries, attempt + 1) else attempt
  }

  /** How `fetchWithRetry` ends when it stops at `reply`. */
  function Settle<B>(reply: Reply<B>): (r: Fetched<B>)
    ensures r.Delivered? <==> reply.Response? && IsOk(reply.status)
    ensures r.Delivered? ==> r.status == reply.status && r.body == reply.body
    ensures r.RequestFailed? <==> reply.Response? && !IsOk(reply.status)
    ensures r.RequestFailed? ==> r.status == reply.status
    ensures r.NetworkError? ==> reply == Rejected(r.reason)
  {
    match reply
    case Rejected(reason) => NetworkError(reason)
    case Response(status, body) => if IsOk(status) then Delivered(status, body) else RequestFailed(status)
  }

  /** The reply to the `k`-th attempt is an OK response. */
  predicate OkAt<B>(server: nat -> Reply<B>, k: nat)
  {
    server(k).Response? && IsOk(server(k).status)
  }

  /** The outcome of `fetchWithRetry` against `server`: a response is
      delivered exactly when some attempt within the retries is OK and every
      attempt before it got 429 or 503; what is delivered is OK. */
  function FetchOutcome<B>(server: nat -> Reply<B>, retries: nat := 3): (r: Fetched<B>)
    ensures r.Delivered? <==>
      exists k :: 0 <= k <= retries && OkAt(server, k) && forall j :: 0 <= j < k ==> IsBusy(server(j))
    ensures r.Delivered? ==> IsOk(r.status)
  {
    DeliveredExactlyAtFirstOk(server, retries);
    Settle(server(FinalAttempt(server, retries, 0)))
  }

  lemma DeliveredExactlyAtFirstOk<B>(server: nat -> Reply<B>, retries: nat)
    ensures Settle(server(FinalAttempt(server, retries, 0))).Delivered? <==>
      exists k :: 0 <= k <= retries && OkAt(server, k) && forall j :: 0 <= j < k ==> IsBusy(server(j))
  {
    var last := FinalAttempt(server, retries, 0);
    if Settle(server(last)).Delivered? {
      assert OkAt(server, last);
    }
    if exists k :: 0 <= k <= retries && OkAt(server, k) && forall j :: 0 <= j < k ==> IsBusy(server(j)) {
      var k :| 0 <= k <= retries && OkAt(server, k) && forall j :: 0 <= j < k ==> IsBusy(server(j));
      assert last == k;
    }
  }

  /** Requests until a reply is OK, not busy, or busy with no retries left,
      waiting `backoffMs * 2^attempt` before each retry. */
  method FetchWithRetry<B>(server: nat -> Reply<B>, retries: nat := 3, backoffMs: nat := 600)
    returns (outcome: Fetched<B>, attempts: nat, delays: seq<nat>)
    ensures 1 <= attempts <= retries + 1
    ensures forall k :: 0 <= k < attempts - 1 ==> IsBusy(server(k))
    ensures attempts - 1 < retries ==> !IsBusy(server(attempts - 1))
    ensures outcome == Settle(server(attempts - 1))
    ensures delays == Delays(backoffMs, attempts - 1)
    ensures outcome == FetchOutcome(server, retries)
  {
    var attempt: nat := 0;
    delays := [];
    while true
      invariant attempt <= retries
      invariant forall k :: 0 <= k < attempt ==> IsBusy(server(k))
      invariant delays == Delays(backoffMs, attempt)
      invariant FinalAttempt(server, retries, attempt) == FinalAttempt(server, retries, 0)
      decreases retries - attempt
    {
      var response := server(attempt);
      if response.Rejected? {
        return NetworkError(response.reason), attempt + 1, delays;
      }
      if IsOk(response.status) {
        return Delivered(response.status, response.body), attempt + 1, delays;
      }
      if (response.status == 429 || response.status == 503) && attempt < retries {
        var delay := backoffMs * Pow2(attempt);
        delays := delays + [delay];
        attempt := attempt + 1;
        continue;
      }
      return RequestFailed(response.status), attempt + 1, delays;
    }
  }

  lemma {:induction false} Pow2Increasing(j: nat, k: nat)
    requires j < k
    ensures Pow2(j) < Pow2(k)
  {
    if j < k - 1 {
      Pow2Increasing(j, k - 1);
    }
  }

  /** With a positive base the waits strictly grow: 600, 1200, 2400 ms by
      default. */
  lemma DelaysIncrease(backoffMs: nat, n: nat)
    requires backoffMs > 0
    ensures forall i, j :: 0 <= i < j < n ==> Delays(backoffMs, n)[i] < Delays(backoffMs, n)[j]
  {
    forall i, j | 0 <= i < j < n
      ensures backoffMs * Pow2(i) < backoffMs * Pow2(j)
    {
      Pow2Increasing(i, j);
    }
  }

  /** The first OK reply is returned, provided every earlier attempt was busy
      and retried. */
  lemma FirstOkDelivered<B>(server: nat -> Reply<B>, retries: nat, j: nat)
    requires j <= retries
    requires forall k :: 0 <= k < j ==> IsBusy(server(k))
    requires server(j).Response? && IsOk(server(j).status)
    ensures FinalAttempt(server, retries, 0) == j
    ensures FetchOutcome(server, retries) == Delivered(server(j).status, server(j).body)
  {
  }

  /** A failure other than busy ends the loop at once, with that status. */
  lemma OtherFailureStops<B>(server: nat -> Reply<B>, retries: nat, j: nat)
    requires j <= retries
    requires forall k :: 0 <= k < j ==> IsBusy(server(k))
    requires server(j).Response? && !IsOk(server(j).status) && !IsBusy(server(j))
    ensures FinalAttempt(server, retries, 0) == j
    ensures FetchOutcome(server, retries) == RequestFailed(server(j).status)
  {
  }

  /** A server that stays busy exhausts the retries: `retries + 1` attempts,
      and the failure carries the last status. */
  lemma BusyExhaustsRetries<B>(server: nat -> Reply<B>, retries: nat)
    requires forall k :: 0 <= k <= retries ==> IsBusy(server(k))
    ensures FinalAttempt(server, retries, 0) == retries
    ensures server(retries).Response? && FetchOutcome(server, retries) == RequestFailed(server(retries).status)
  {
  }

  /** 503 twice then 200: two waits of 600 and 1200 ms, success on the third
      attempt. */
  lemma BusyTwiceThenOk(body: string)
    ensures var server := (k: nat) => if k < 2 then Response(503, body) else Response(200, body);
      && FinalAttempt(server, 3, 0) == 2
      && Delays(600, FinalAttempt(server, 3, 0)) == [600, 1200]
      && FetchOutcome(server, 3) == Delivered(200, body)
  {
    var server := (k: nat) => if k < 2 then Response(503, body) else Response(200, body);
    FirstOkDelivered(server, 3, 2);
    assert Pow2(1) == 2;
  }

  /** Always 429: four attempts, waits of 600, 1200 and 2400 ms, then the
      failure with status 429. */
  lemma AlwaysBusy(body: string)
    ensures var server := (k: nat) => Response(429, body);
      && FinalAttempt(server, 3, 0) == 3
      && Delays(600, FinalAttempt(server, 3, 0)) == [600, 1200, 2400]
      && FetchOutcome(server, 3) == RequestFailed(429)
  {
    var server := (k: nat) => Response(429, body);
    BusyExhaustsRetries(server, 3);
    assert Pow2(2) == 4;
  }
}
