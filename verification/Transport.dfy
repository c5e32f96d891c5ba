/** The retry loop of the transport (src/monitor_agent/transport.py:57-90, 114-186). Delays are real
numbers; what the network, the random source and the header parser answer is arbitrary. */
module Transport {
  import opened Wrappers

  datatype Kind = SUCCESS | RETRIABLE | AUTHENTICATION | PERMANENT

  /** What `float` and the date parser make of a Retry-After value (section 10.2.3 of RFC 9110). */
  datatype RetryAfter = Absent | Seconds(value: real) | NotFinite | Date(fromNow: real) | Unreadable

  datatype Reply =
    | Timeout
    | ConnectionError
    | RequestError
    | Response(status: Option<int>, retryAfter: RetryAfter)

  /** What the random source returned. */
  datatype Random = Number(value: real) | Unusable

  datatype DeliveryResult = DeliveryResult(kind: Kind, status: Option<int>, attempts: nat)

  function Distance(x: real, y: real): real {
    if x < y then y - x else x - y
  }

  /** The nearest number in the interval. */
  function Clamp(low: real, high: real, x: real): (c: real)
    requires low <= high
    ensures low <= c <= high
    ensures forall y :: low <= y <= high ==> Distance(x, c) <= Distance(x, y)
  {
    if x < low then low else if x > high then high else x
  }

  function ClassifyStatus(status: Option<int>): Kind {
    match status
    case None => PERMANENT
    case Some(code) =>
      if 200 <= code <= 299 then SUCCESS
      else if code == 401 || code == 403 then AUTHENTICATION
      else if code == 408 || code == 425 || code == 429 || 500 <= code <= 599 then RETRIABLE
      else PERMANENT
  }

  function ClassifyReply(reply: Reply): Kind {
    match reply
    case Response(status, _) => ClassifyStatus(status)
    case _ => RETRIABLE
  }

  function StatusOf(reply: Reply): Option<int> {
    match reply
    case Response(status, _) => status
    case _ => None
  }

  function ParseRetryAfter(header: RetryAfter): Option<real> {
    match header
    case Seconds(v) => Some(Clamp(0.0, 60.0, v))
    case Date(d) => Some(Clamp(0.0, 60.0, d))
    case _ => None
  }

  function RequestedDelay(reply: Reply): Option<real> {
    if reply.Response? && ClassifyReply(reply) == RETRIABLE then ParseRetryAfter(reply.retryAfter) else None
  }

  function SafeRandom(r: Random): (f: real)
    ensures 0.0 <= f <= 1.0
    ensures r.Number? && 0.0 <= r.value <= 1.0 ==> f == r.value
    ensures r.Number? && r.value > 1.0 ==> f == 1.0
    ensures r.Unusable? || r.value < 0.0 ==> f == 0.0
  {
    match r
    case Number(v) => Clamp(0.0, 1.0, v)
    case Unusable => 0.0
  }

  function Pow2(n: nat): nat {
    if n == 0 then 1 else 2 * Pow2(n - 1)
  }

  /** The largest delay before retry number `retry`, counted from one. */
  function Ceiling(retry: nat): (c: real)
    requires retry >= 1
    ensures 0.0 <= c <= 30.0
  {
    PowPositive(retry - 1);
    var grown := 0.5 * Pow2(retry - 1) as real;
    if grown < 30.0 then grown else 30.0
  }

  function Jittered(ceiling: real, f: real): (x: real)
    requires 0.0 <= ceiling && 0.0 <= f <= 1.0
    ensures 0.0 <= x <= ceiling
  {
    ScaledDown(ceiling, f);
    ceiling * f
  }

  function RetryDelay(retry: nat, requested: Option<real>, r: Random): real
    requires retry >= 1
  {
    var jittered := Jittered(Ceiling(retry), SafeRandom(r));
    match requested
    case None => jittered
    case Some(d) => if d > jittered then d else jittered
  }

  function Sum(s: seq<real>): real {
    if s == [] then 0.0 else Sum(s[..|s| - 1]) + s[|s| - 1]
  }

  function BackoffCap(n: nat): real
    requires n >= 1
  {
    var doubling := 0.5 * (Pow2(n - 1) as real - 1.0);
    var flat := 30.0 * (n - 1) as real;
    if doubling < flat then doubling else flat
  }

  /** A delay never leaves [0, 60]; without a server request it stays below the ceiling. */
  lemma DelayBounds(retry: nat, requested: Option<real>, r: Random)
    requires retry >= 1
    requires requested.Some? ==> 0.0 <= requested.value <= 60.0
    ensures 0.0 <= RetryDelay(retry, requested, r) <= 60.0
    ensures requested.None? ==> RetryDelay(retry, requested, r) <= Ceiling(retry)
    ensures requested.Some? ==> RetryDelay(retry, requested, r) >= requested.value
  {
  }

  lemma ScaledDown(x: real, f: real)
    requires x >= 0.0 && 0.0 <= f <= 1.0
    ensures 0.0 <= x * f <= x
  {
    assert x - x * f == x * (1.0 - f);
  }

  lemma {:induction false} PowPositive(n: nat)
    ensures Pow2(n) >= 1
  {
    if n > 0 { PowPositive(n - 1); }
  }

  /** Adding one more delay below its ceiling stays below the next cap. */
  lemma CapGrows(n: nat)
    requires n >= 1
    ensures BackoffCap(n) + Ceiling(n) <= 0.5 * (Pow2(n) as real - 1.0)
    ensures BackoffCap(n) + Ceiling(n) <= 30.0 * n as real
    ensures BackoffCap(n) + Ceiling(n) <= BackoffCap(n + 1)
  {
    assert Pow2(n) == 2 * Pow2(n - 1);
  }

  /** The first delay is at most half a second, and the bound doubles until it is thirty. */
  lemma CeilingDoubles(retry: nat)
    requires retry >= 1
    ensures Ceiling(1) == 0.5
    ensures Ceiling(retry + 1) == if 2.0 * Ceiling(retry) < 30.0 then 2.0 * Ceiling(retry) else 30.0
  {
    assert Pow2(retry) == 2 * Pow2(retry - 1);
  }

  // ---------------------------------------------------------------------------------------------
  // What a reply means, by exceptions and status numbers alone
  // ---------------------------------------------------------------------------------------------

  /** The status numbers that mean "not now": request timeout, too early, too many requests. */
  const TRANSIENT_STATUS: set<int> := {408, 425, 429}

  /** The transport raised, or the server asks to come back. */
  predicate Transient(reply: Reply) {
    !reply.Response? ||
    (reply.status.Some? && (reply.status.value in TRANSIENT_STATUS || 500 <= reply.status.value < 600))
  }

  predicate Accepted(reply: Reply) {
    reply.Response? && reply.status.Some? && 200 <= reply.status.value < 300
  }

  predicate Unauthorized(reply: Reply) {
    reply.Response? && (reply.status == Some(401) || reply.status == Some(403))
  }

  /** The classification agrees with them, and leaves one kind for everything else. */
  lemma ClassificationIsExact(reply: Reply)
    ensures ClassifyReply(reply) == RETRIABLE <==> Transient(reply)
    ensures ClassifyReply(reply) == SUCCESS <==> Accepted(reply)
    ensures ClassifyReply(reply) == AUTHENTICATION <==> Unauthorized(reply)
    ensures reply.Response? && reply.status.None? ==> ClassifyReply(reply) == PERMANENT
  {
  }

  /** The first `n` replies call for another attempt. */
  predicate Retriable(replies: seq<Reply>, n: nat)
    requires n <= |replies|
  {
    forall k :: 0 <= k < n ==> Transient(replies[k])
  }

  /** The pause that the server asked for in a reply to be repeated, where it can be read. */
  predicate Asks(reply: Reply, pause: real) {
    && Transient(reply) && reply.Response?
    && match reply.retryAfter
       case Seconds(v) => pause == Clamp(0.0, 60.0, v)
       case Date(fromNow) => pause == Clamp(0.0, 60.0, fromNow)
       case _ => false
  }

  lemma AskedIsRequested(reply: Reply)
    ensures RequestedDelay(reply).Some? ==> Asks(reply, RequestedDelay(reply).value)
    ensures RequestedDelay(reply).None? ==> forall pause :: !Asks(reply, pause)
  {
    ClassificationIsExact(reply);
  }

  /** No server asked for a delay in the first `n` replies. */
  ghost predicate Unasked(replies: seq<Reply>, n: nat)
    requires n <= |replies|
  {
    forall k, pause :: 0 <= k < n ==> !Asks(replies[k], pause)
  }

  lemma RetriableMore(replies: seq<Reply>, n: nat)
    requires 1 <= n <= |replies| && Retriable(replies, n - 1)
    ensures Retriable(replies, n) <==> Transient(replies[n - 1])
    ensures Unasked(replies, n) ==> Unasked(replies, n - 1)
  {
  }

  /** Every pause is in [0, 60], and it is the random part of the growing bound, or as long as the reply
  asked for if that is longer. */
  ghost predicate Paused(replies: seq<Reply>, randoms: seq<Random>, sleeps: seq<real>)
    requires |sleeps| <= |replies| == |randoms|
  {
    forall k :: 0 <= k < |sleeps| ==> IsPause(replies[k], randoms[k], k + 1, sleeps[k])
  }

  ghost predicate IsPause(reply: Reply, random: Random, retry: nat, pause: real)
    requires retry >= 1
  {
    var backoff := SafeRandom(random) * Ceiling(retry);
    && 0.0 <= pause <= 60.0 && pause >= backoff
    && (forall asked :: Asks(reply, asked) ==> pause >= asked)
    && (pause == backoff || Asks(reply, pause))
  }

  lemma DelayIsPause(reply: Reply, random: Random, retry: nat)
    requires retry >= 1
    ensures IsPause(reply, random, retry, RetryDelay(retry, RequestedDelay(reply), random))
  {
    AskedIsRequested(reply);
    DelayBounds(retry, RequestedDelay(reply), random);
  }

  /** Without a server's request the pauses add up to no more than the cap. */
  ghost predicate Capped(replies: seq<Reply>, sleeps: seq<real>)
    requires |sleeps| <= |replies|
  {
    Unasked(replies, |sleeps|) ==> Sum(sleeps) <= BackoffCap(|sleeps| + 1)
  }

  lemma NothingPaused(replies: seq<Reply>, randoms: seq<Random>)
    requires |randoms| == |replies|
    ensures Paused(replies, randoms, []) && Capped(replies, []) && Retriable(replies, 0)
  {
  }

  lemma PausedMore(replies: seq<Reply>, randoms: seq<Random>, sleeps: seq<real>)
    requires |sleeps| < |replies| == |randoms| && Paused(replies, randoms, sleeps) && Capped(replies, sleeps)
    ensures var n := |sleeps| + 1;
      var more := sleeps + [RetryDelay(n, RequestedDelay(replies[n - 1]), randoms[n - 1])];
      Paused(replies, randoms, more) && Capped(replies, more)
  {
    var n := |sleeps| + 1;
    var requested := RequestedDelay(replies[n - 1]);
    var delay := RetryDelay(n, requested, randoms[n - 1]);
    DelayIsPause(replies[n - 1], randoms[n - 1], n);
    AskedIsRequested(replies[n - 1]);
    DelayBounds(n, requested, randoms[n - 1]);
    CapGrows(n);
    assert (sleeps + [delay])[..|sleeps|] == sleeps;
    if Unasked(replies, n) {
      assert Unasked(replies, n - 1);
    }
  }

  /** `send`: `posts` calls were made and `sleeps` are the pauses between them. It goes past a reply
  exactly if that is transient and not the last one allowed; the result says what the last reply is. */
  method SendPayload(replies: seq<Reply>, randoms: seq<Random>, maxAttempts: nat)
    returns (result: DeliveryResult, posts: nat, sleeps: seq<real>)
    requires maxAttempts > 0 && |replies| == |randoms| == maxAttempts
    ensures 1 <= posts <= maxAttempts && |sleeps| == posts - 1 && result.attempts == posts
    ensures forall k :: 0 <= k < posts - 1 ==> Transient(replies[k])
    ensures posts < maxAttempts ==> !Transient(replies[posts - 1])
    ensures var last := replies[posts - 1];
      && result.status == (if last.Response? then last.status else None)
      && (result.kind == SUCCESS <==> Accepted(last))
      && (result.kind == AUTHENTICATION <==> Unauthorized(last))
      && (result.kind == RETRIABLE <==> Transient(last))
    ensures result.kind == RETRIABLE <==> Retriable(replies, maxAttempts)
    ensures Paused(replies, randoms, sleeps)
    ensures Unasked(replies, posts - 1) ==> Sum(sleeps) <= BackoffCap(posts)
  {
    posts, sleeps := 0, [];
    NothingPaused(replies, randoms);
    while true
      invariant 0 <= posts < maxAttempts && |sleeps| == posts
      invariant Retriable(replies, posts) && Paused(replies, randoms, sleeps) && Capped(replies, sleeps)
      decreases maxAttempts - posts
    {
      var reply := replies[posts];
      PausedMore(replies, randoms, sleeps);
      ClassificationIsExact(reply);
      posts := posts + 1;
      result := DeliveryResult(ClassifyReply(reply), StatusOf(reply), posts);
      if result.kind != RETRIABLE || posts == maxAttempts {
        RetriableMore(replies, posts);
        return;
      }
      sleeps := sleeps + [RetryDelay(posts, RequestedDelay(reply), randoms[posts - 1])];
    }
  }
}
