/** Retrying one AI provider on transient failures. */
module ProviderRetry {
  import opened Names
  import opened CircuitBreaker

  /** `maxAttempts` may be less than one; the first attempt is made all the same. */
  datatype Policy = Policy(maxAttempts: int, baseDelay: real, maxDelay: real, retryAfterCap: real)

  datatype Reply =
    | Text(text: string)
    | Transient(retryAfter: Option<real>, rateLimited: bool)
    | Recoverable

  /** What a provider would answer to each attempt, counted from zero, and the jitter drawn
      after it. */
  datatype Script = Script(replies: nat -> Reply, jitter: nat -> real)

  ghost predicate Uniform(s: Script) {
    forall k :: 0.0 <= s.jitter(k) <= 1.0
  }

  ghost predicate NonNegative(p: Policy, s: Script) {
    p.baseDelay >= 0.0 && p.maxDelay >= 0.0 &&
    forall k :: s.replies(k).Transient? && s.replies(k).retryAfter.Some? ==> s.replies(k).retryAfter.value >= 0.0
  }

  function Min(a: real, b: real): real {
    if a <= b then a else b
  }

  function Backoff(p: Policy, doublings: nat): real {
    Min(p.baseDelay * TwoTo(doublings), p.maxDelay)
  }

  function Jittered(share: real, delay: real): real {
    share * delay
  }

  /** Seconds to wait before another attempt, or none to give up on the provider. */
  function RetryDelay(p: Policy, retryAfter: Option<real>, attempt: nat, jitter: real): (delay: Option<real>)
    requires attempt > 0
    ensures delay.None? <==> retryAfter.Some? && retryAfter.value > p.retryAfterCap
  {
    match retryAfter
    case Some(hint) => if hint > p.retryAfterCap then None else Some(Min(hint, p.maxDelay))
    case None => Some(Jittered(jitter, Backoff(p, attempt - 1)))
  }

  /** A server's hint is followed up to the maximum delay, unless it is above the cap; without
      one the wait is the drawn share of the backoff, which starts at the base delay and doubles
      with every attempt up to the maximum. */
  lemma RetryDelayIs(p: Policy, hint: real, attempt: nat, share: real)
    requires attempt > 0
    ensures RetryDelay(p, Some(hint), attempt, share) ==
            if hint > p.retryAfterCap then None else Some(if hint <= p.maxDelay then hint else p.maxDelay)
    ensures RetryDelay(p, None, attempt, share) == Some(Jittered(share, Backoff(p, attempt - 1)))
    ensures Jittered(0.0, Backoff(p, attempt - 1)) == 0.0
    ensures Jittered(1.0, Backoff(p, attempt - 1)) == Backoff(p, attempt - 1)
  {
  }

  lemma BackoffDoubles(p: Policy, n: nat)
    requires p.baseDelay >= 0.0 && p.maxDelay >= 0.0
    ensures Backoff(p, 0) == if p.baseDelay <= p.maxDelay then p.baseDelay else p.maxDelay
    ensures Backoff(p, n + 1) == if 2.0 * Backoff(p, n) <= p.maxDelay then 2.0 * Backoff(p, n) else p.maxDelay
  {
    var x := TwoTo(n);
    TwoToPositive(n);
    assert TwoTo(n + 1) == 2.0 * x;
    assert p.baseDelay * (2.0 * x) == 2.0 * (p.baseDelay * x);
    Product(p.baseDelay, x);
  }

  lemma Product(a: real, b: real)
    requires a >= 0.0 && b >= 0.0
    ensures a * b >= 0.0
  {
  }

  lemma JitteredWithin(share: real, delay: real)
    requires 0.0 <= share <= 1.0 && delay >= 0.0
    ensures 0.0 <= Jittered(share, delay) <= delay
  {
    Product(share, delay);
    Product(1.0 - share, delay);
    assert (1.0 - share) * delay == delay - share * delay;
  }

  lemma BackoffWithin(p: Policy, doublings: nat)
    requires p.baseDelay >= 0.0 && p.maxDelay >= 0.0
    ensures 0.0 <= Backoff(p, doublings) <= p.maxDelay
  {
    TwoToPositive(doublings);
    Product(p.baseDelay, TwoTo(doublings));
  }

  /** A failed attempt, counted from zero, that is followed by another. */
  predicate Retried(p: Policy, s: Script, k: nat) {
    var reply := s.replies(k);
    reply.Transient? && k + 1 < p.maxAttempts && RetryDelay(p, reply.retryAfter, k + 1, s.jitter(k)).Some?
  }

  lemma DelayWithinMax(p: Policy, s: Script, k: nat)
    requires Uniform(s) && NonNegative(p, s) && s.replies(k).Transient?
    ensures var d := RetryDelay(p, s.replies(k).retryAfter, k + 1, s.jitter(k));
            d.Some? ==> 0.0 <= d.value <= p.maxDelay
  {
    if s.replies(k).retryAfter.None? {
      BackoffWithin(p, k);
      JitteredWithin(s.jitter(k), Backoff(p, k));
    }
  }

  ghost predicate AllRetried(p: Policy, s: Script, n: nat) {
    forall k :: 0 <= k < n ==> Retried(p, s, k)
  }

  /** The attempts end with the first that is not retried. */
  ghost predicate EndsAt(p: Policy, s: Script, last: nat) {
    AllRetried(p, s, last) && !Retried(p, s, last)
  }

  ghost predicate SawRateLimit(s: Script, n: nat) {
    exists k :: 0 <= k < n && s.replies(k).Transient? && s.replies(k).rateLimited
  }

  function LastFrom(p: Policy, s: Script, k: nat): nat
    decreases p.maxAttempts - k
  {
    if Retried(p, s, k) then LastFrom(p, s, k + 1) else k
  }

  /** The index of the last attempt. */
  function Last(p: Policy, s: Script): nat {
    LastFrom(p, s, 0)
  }

  lemma {:induction false} LastFromEnds(p: Policy, s: Script, k: nat)
    requires AllRetried(p, s, k)
    ensures EndsAt(p, s, LastFrom(p, s, k))
    decreases p.maxAttempts - k
  {
    if Retried(p, s, k) { LastFromEnds(p, s, k + 1); }
  }

  lemma LastIff(p: Policy, s: Script, n: nat)
    ensures EndsAt(p, s, n) <==> n == Last(p, s)
  {
    LastFromEnds(p, s, 0);
    if EndsAt(p, s, n) { EndsOnce(p, s, n, Last(p, s)); }
  }

  lemma EndsOnce(p: Policy, s: Script, m: nat, n: nat)
    requires EndsAt(p, s, m) && EndsAt(p, s, n)
    ensures m == n
  {
    assert m < n ==> Retried(p, s, m);
    assert n < m ==> Retried(p, s, n);
  }

  /** A provider is left with a transient failure exactly when the attempts are used up, or the
      server asks for a longer wait than the cap. */
  lemma LastTransientIff(p: Policy, s: Script)
    ensures var n := Last(p, s);
            s.replies(n).Transient? ==>
              n + 1 >= p.maxAttempts ||
              (s.replies(n).retryAfter.Some? && s.replies(n).retryAfter.value > p.retryAfterCap)
    ensures forall k :: 0 <= k < Last(p, s) ==>
              s.replies(k).Transient? && k + 1 < p.maxAttempts &&
              (s.replies(k).retryAfter.Some? ==> s.replies(k).retryAfter.value <= p.retryAfterCap)
  {
    LastFromEnds(p, s, 0);
    forall k | 0 <= k < Last(p, s)
      ensures s.replies(k).Transient? && k + 1 < p.maxAttempts &&
              (s.replies(k).retryAfter.Some? ==> s.replies(k).retryAfter.value <= p.retryAfterCap)
    {
      assert Retried(p, s, k);
    }
  }

  /** The waits after the first n attempts. */
  function Waits(p: Policy, s: Script, n: nat): real {
    if n == 0 then 0.0
    else
      var d := RetryDelay(p, if s.replies(n - 1).Transient? then s.replies(n - 1).retryAfter else None, n,
                          s.jitter(n - 1));
      Waits(p, s, n - 1) + if d.Some? then d.value else 0.0
  }

  function Times(n: nat, max: real): real {
    n as real * max
  }

  lemma TimesNext(n: nat, max: real)
    ensures Times(0, max) == 0.0 && Times(n + 1, max) == Times(n, max) + max
  {
  }

  lemma OneWait(p: Policy, s: Script, n: nat)
    requires Uniform(s) && NonNegative(p, s) && Retried(p, s, n)
    ensures Waits(p, s, n) <= Waits(p, s, n + 1) <= Waits(p, s, n) + p.maxDelay
  {
    DelayWithinMax(p, s, n);
  }

  /** Waits that are followed by another attempt add up to at most as many maximum delays. */
  lemma {:induction false} WaitsBound(p: Policy, s: Script, n: nat)
    requires AllRetried(p, s, n) && Uniform(s) && NonNegative(p, s)
    ensures 0.0 <= Waits(p, s, n) <= Times(n, p.maxDelay)
  {
    if n == 0 {
      TimesNext(0, p.maxDelay);
    } else {
      var before := n - 1;
      WaitsBound(p, s, before);
      assert Retried(p, s, before);
      OneWait(p, s, before);
      TimesNext(before, p.maxDelay);
    }
  }

  /** The reply is that of the first attempt not retried, with what all of them saw, and the
      time slept is bounded whatever the server's hints and the jitter. */
  method GenerateWithRetries(p: Policy, s: Script) returns (reply: Reply, attempts: nat, rateLimited: bool, slept: real)
    ensures attempts > 0 && EndsAt(p, s, attempts - 1) && reply == s.replies(attempts - 1)
    ensures attempts == 1 || attempts <= p.maxAttempts
    ensures rateLimited <==> SawRateLimit(s, attempts)
    ensures slept == Waits(p, s, attempts - 1)
    ensures Uniform(s) && NonNegative(p, s) ==> 0.0 <= slept <= (attempts - 1) as real * p.maxDelay
  {
    attempts, rateLimited, slept := 0, false, 0.0;
    while true
      invariant attempts > 0 ==> attempts < p.maxAttempts
      invariant AllRetried(p, s, attempts)
      invariant rateLimited <==> SawRateLimit(s, attempts)
      invariant slept == Waits(p, s, attempts)
      decreases p.maxAttempts - attempts
    {
      if Uniform(s) && NonNegative(p, s) { WaitsBound(p, s, attempts); }
      attempts := attempts + 1;
      reply := s.replies(attempts - 1);
      if !reply.Transient? { return; }
      rateLimited := rateLimited || reply.rateLimited;
      if attempts >= p.maxAttempts { return; }
      var delay := RetryDelay(p, reply.retryAfter, attempts, s.jitter(attempts - 1));
      if delay == None { return; }
      slept := slept + delay.value;
    }
  }
}
