/**
 When the gateway renews its certificate: the point inside the CA's suggested window, the fallback on
 the certificate's lifetime, and the waits between checks (apps/gateway/src/acme.rs). Instants and
 delays are nanoseconds since the epoch unless named seconds.
 */
module Acme {
  import opened Wrappers

  const SECOND := 1000000000
  const MIN_SCHEDULE_DELAY := 60 * SECOND
  const MIN_RETRY_DELAY := 60 * SECOND
  const MAX_RETRY_DELAY := 3600 * SECOND
  const MAX_U64 := 0xFFFFFFFFFFFFFFFF

  // ---- Arithmetic ----

  /** Whole seconds of a signed duration, truncated towards zero. */
  function WholeSeconds(duration: int): int
  {
    if duration >= 0 then duration / SECOND else -((-duration) / SECOND)
  }

  function Min(a: int, b: int): int
  {
    if a <= b then a else b
  }

  function FloorDelay(delay: int): int
  {
    if delay >= MIN_SCHEDULE_DELAY then delay else MIN_SCHEDULE_DELAY
  }

  /** Time left in whole seconds; zero once the target has passed. */
  function DurationUntil(now: int, target: int): int
  {
    var s := WholeSeconds(target - now);
    if s < 0 then 0 else s * SECOND
  }

  // ---- The renewal point inside the CA's window ----

  /** The offset for one 64-bit sample of the certificate's digest. */
  function Offset(span: nat, sample: nat): nat
  {
    span * sample / MAX_U64
  }

  function SelectRenewalTime(start: int, end: int, sample: nat): int
  {
    var span := WholeSeconds(end - start);
    if span <= 0 then start else start + Offset(span, sample) * SECOND
  }

  lemma Positive(x: int, m: int)
    requires m > 0 && x * m > 0
    ensures x > 0
  {
  }

  lemma QuotientIs(a: int, q: int, m: int)
    requires m > 0 && q * m <= a < q * m + m
    ensures a / m == q
  {
    var p := a / m;
    assert p * m <= a < p * m + m;
    assert (p + 1 - q) * m == p * m + m - q * m;
    Positive(p + 1 - q, m);
    assert (q + 1 - p) * m == q * m + m - p * m;
    Positive(q + 1 - p, m);
  }

  lemma DivMono(a: int, b: int, m: int)
    requires a <= b && m > 0
    ensures a / m <= b / m
  {
    var p, q := a / m, b / m;
    assert a == p * m + a % m && b == q * m + b % m;
    assert (q + 1 - p) * m == q * m + m - p * m;
    Positive(q + 1 - p, m);
  }

  lemma OffsetBounds(span: nat, sample: nat)
    requires sample <= MAX_U64
    ensures Offset(span, sample) <= span
  {
    assert span * sample <= span * MAX_U64;
    DivMono(span * sample, span * MAX_U64, MAX_U64);
    QuotientIs(span * MAX_U64, span, MAX_U64);
  }

  /** The point lies in the window exactly when the window is not reversed. */
  lemma RenewalTimeInWindow(start: int, end: int, sample: nat)
    requires sample <= MAX_U64
    ensures start <= SelectRenewalTime(start, end, sample) <= end <==> start <= end
  {
    var span := WholeSeconds(end - start);
    if span > 0 {
      OffsetBounds(span, sample);
      assert span * SECOND <= end - start;
      assert Offset(span, sample) * SECOND <= span * SECOND;
    }
  }

  /** Every whole second of the window is the point of some digest, so renewals spread over all of it. */
  lemma EverySecondIsChosen(start: int, end: int, k: nat)
    requires start <= end && k <= WholeSeconds(end - start) <= MAX_U64
    ensures exists sample: nat | sample <= MAX_U64 :: SelectRenewalTime(start, end, sample) == start + k * SECOND
  {
    var span := WholeSeconds(end - start);
    if span == 0 {
      assert SelectRenewalTime(start, end, 0) == start + k * SECOND;
    } else {
      var sample := (k * MAX_U64 + span - 1) / span;
      RoundUp(k * MAX_U64, span);
      assert span * sample == sample * span;
      QuotientIs(span * sample, k, MAX_U64);
      assert sample <= MAX_U64 by {
        assert k * MAX_U64 <= span * MAX_U64;
        DivMono(k * MAX_U64 + span - 1, span * MAX_U64 + span - 1, span);
        assert span * MAX_U64 + span - 1 == MAX_U64 * span + (span - 1);
        QuotientIs(MAX_U64 * span + (span - 1), MAX_U64, span);
      }
      assert SelectRenewalTime(start, end, sample) == start + k * SECOND;
    }
  }

  lemma RoundUp(a: nat, m: nat)
    requires m > 0
    ensures a <= (a + m - 1) / m * m < a + m
  {
    var q := (a + m - 1) / m;
    assert a + m - 1 == q * m + (a + m - 1) % m;
  }

  // ---- One check ----

  datatype Decision = Issue | Wait(delay: int)

  datatype Error = InvalidValidity

  /**
   How the renewal point is found: from the CA's window, with whatever `Retry-After` each check is
   told, or from the certificate's validity in seconds.
   */
  datatype Policy =
    | Ari(start: int, end: int, sample: nat, retryAfter: int -> nat)
    | Lifetime(notBefore: int, notAfter: int, intervalSeconds: nat)

  /** Two thirds of the lifetime, in seconds. */
  function FallbackRenewAt(notBefore: int, notAfter: int): int
    requires notBefore < notAfter
  {
    notBefore + (notAfter - notBefore) * 2 / 3
  }

  predicate ValidPolicy(p: Policy)
  {
    p.Lifetime? ==> p.notBefore < p.notAfter
  }

  /** The first instant at which a check issues. */
  function Target(p: Policy): int
    requires ValidPolicy(p)
  {
    match p
    case Ari(start, end, sample, _) => SelectRenewalTime(start, end, sample)
    case Lifetime(notBefore, notAfter, _) => FallbackRenewAt(notBefore, notAfter) * SECOND
  }

  function Evaluate(p: Policy, now: int): Result<Decision, Error>
  {
    match p
    case Ari(start, end, sample, retryAfter) =>
      var renewAt := SelectRenewalTime(start, end, sample);
      if now >= renewAt then Ok(Issue)
      else Ok(Wait(FloorDelay(Min(retryAfter(now), DurationUntil(now, renewAt)))))
    case Lifetime(notBefore, notAfter, intervalSeconds) =>
      if notAfter <= notBefore then Err(InvalidValidity)
      else
        var renewAt := FallbackRenewAt(notBefore, notAfter);
        var nowSeconds := now / SECOND;
        if nowSeconds >= renewAt then Ok(Issue)
        else Ok(Wait(FloorDelay(Min((renewAt - nowSeconds) * SECOND, intervalSeconds * SECOND))))
  }

  /** The longest wait a policy may ask for. */
  function Patience(p: Policy, now: int): int
  {
    match p
    case Ari(_, _, _, retryAfter) => FloorDelay(retryAfter(now))
    case Lifetime(_, _, intervalSeconds) => FloorDelay(intervalSeconds * SECOND)
  }

  /**
   A check issues exactly from the target on. Before it, the wait is at least a minute and at most the
   policy's patience, and the next check comes less than a minute after the target.
   */
  lemma CheckIsCareful(p: Policy, now: int)
    requires ValidPolicy(p)
    ensures Evaluate(p, now).Ok?
    ensures Evaluate(p, now).value == Issue <==> Target(p) <= now
    ensures now < Target(p) ==>
              var delay := Evaluate(p, now).value.delay;
              MIN_SCHEDULE_DELAY <= delay <= Patience(p, now) && now + delay < Target(p) + MIN_SCHEDULE_DELAY
  {
    if p.Lifetime? {
      assert now == now / SECOND * SECOND + now % SECOND;
    }
  }

  /** What a check was asked to wait: the CA's `Retry-After`, or the configured interval. */
  function Asked(p: Policy, now: int): nat
  {
    match p
    case Ari(_, _, _, retryAfter) => retryAfter(now)
    case Lifetime(_, _, intervalSeconds) => intervalSeconds * SECOND
  }

  /**
   How long a check waits: as long as it was asked to or until the target, known to the second, whichever is less,
   but not less than a minute.
   */
  lemma WaitIsExact(p: Policy, now: int)
    requires ValidPolicy(p) && now < Target(p)
    ensures exists left: int ::
              && left % SECOND == 0 && Target(p) - now - SECOND < left < Target(p) - now + SECOND
              && Evaluate(p, now) ==
                 Ok(Wait(if left < 60 * SECOND || Asked(p, now) < 60 * SECOND then 60 * SECOND
                         else if left <= Asked(p, now) then left else Asked(p, now)))
  {
    match p {
      case Ari(start, end, sample, retryAfter) => assert DurationUntil(now, Target(p)) % SECOND == 0;
      case Lifetime(notBefore, notAfter, intervalSeconds) =>
        assert now == now / SECOND * SECOND + now % SECOND;
        assert ((FallbackRenewAt(notBefore, notAfter) - now / SECOND) * SECOND) % SECOND == 0;
    }
  }

  // ---- Repeated checks ----

  /** Each check of a run picks its policy anew; every one of them issues from some instant up to `limit` on. */
  ghost predicate TargetsBy(policies: nat -> Policy, limit: int)
  {
    forall k: nat :: ValidPolicy(policies(k)) && Target(policies(k)) <= limit
  }

  /** Which check issues and when, each check coming right after the wait before it. */
  function IssueAt(policies: nat -> Policy, ghost limit: int, k: nat, now: int): (nat, int)
    requires TargetsBy(policies, limit)
    decreases if now < limit then limit - now else 0
  {
    CheckIsCareful(policies(k), now);
    match Evaluate(policies(k), now).value
    case Issue => (k, now)
    case Wait(delay) => IssueAt(policies, limit, k + 1, now + delay)
  }

  /**
   Checks end, whatever policy each of them finds: the one that issues does so from its own target on, less than
   a minute after the latest target, and there is at most one check a minute before it.
   */
  lemma {:induction false} IssuesWithinAMinute(policies: nat -> Policy, limit: int, k: nat, now: int)
    requires TargetsBy(policies, limit)
    ensures var (n, at) := IssueAt(policies, limit, k, now);
            && k <= n && Target(policies(n)) <= at && (n - k) * MIN_SCHEDULE_DELAY <= at - now
            && at < if now < limit then limit + MIN_SCHEDULE_DELAY else now + 1
    decreases if now < limit then limit - now else 0
  {
    CheckIsCareful(policies(k), now);
    if Evaluate(policies(k), now).value == Issue {
    } else {
      IssuesWithinAMinute(policies, limit, k + 1, now + Evaluate(policies(k), now).value.delay);
    }
  }

  function Sum(waits: seq<int>): int
  {
    if waits == [] then 0 else Sum(waits[..|waits| - 1]) + waits[|waits| - 1]
  }

  /** Wait `i` is at least a minute and at most the patience of the policy found at its check. */
  predicate WaitOk(policies: nat -> Policy, start: int, waits: seq<int>, i: nat)
    requires i < |waits|
  {
    MIN_SCHEDULE_DELAY <= waits[i] <= Patience(policies(i), start + Sum(waits[..i]))
  }

  ghost predicate WaitsOk(policies: nat -> Policy, start: int, waits: seq<int>)
  {
    forall i | 0 <= i < |waits| :: WaitOk(policies, start, waits, i)
  }

  lemma {:induction false} OneMoreWait(policies: nat -> Policy, start: int, waits: seq<int>, delay: int)
    requires WaitsOk(policies, start, waits)
    requires MIN_SCHEDULE_DELAY <= delay <= Patience(policies(|waits|), start + Sum(waits))
    ensures WaitsOk(policies, start, waits + [delay]) && Sum(waits + [delay]) == Sum(waits) + delay
  {
    var more := waits + [delay];
    assert more[..|waits|] == waits;
    forall i | 0 <= i < |more| ensures WaitOk(policies, start, more, i) {
      if i < |waits| {
        assert WaitOk(policies, start, waits, i);
        assert more[..i] == waits[..i];
      }
    }
  }

  /** The checks of the service, one after the other, with the waits between them. */
  method CheckUntilIssue(policies: nat -> Policy, ghost limit: int, start: int) returns (now: int, waits: seq<int>)
    requires TargetsBy(policies, limit)
    ensures (|waits|, now) == IssueAt(policies, limit, 0, start)
    ensures now == start + Sum(waits) && WaitsOk(policies, start, waits)
  {
    now, waits := start, [];
    while true
      invariant IssueAt(policies, limit, |waits|, now) == IssueAt(policies, limit, 0, start)
      invariant now == start + Sum(waits) && WaitsOk(policies, start, waits)
      decreases if now < limit then limit - now else 0
    {
      CheckIsCareful(policies(|waits|), now);
      match Evaluate(policies(|waits|), now).value {
        case Issue => return;
        case Wait(delay) =>
          OneMoreWait(policies, start, waits, delay);
          waits := waits + [delay];
          now := now + delay;
      }
    }
  }

  /** The shortest lifetime, in seconds, for which the lifetime rule never issues too late. */
  const SAFE_LIFETIME := 178

  /** The same policy at every check. */
  function Always(p: Policy): nat -> Policy
  {
    _ => p
  }

  lemma LateWithoutSafeLifetime(notBefore: int, notAfter: int, intervalSeconds: nat)
    requires notBefore < notAfter && notAfter - notBefore < SAFE_LIFETIME
    ensures var p := Lifetime(notBefore, notAfter, intervalSeconds);
            var now := Target(p) - SECOND;
            now < Target(p) && IssueAt(Always(p), Target(p), 0, now).1 >= notAfter * SECOND
  {
    var p := Lifetime(notBefore, notAfter, intervalSeconds);
    var renewAt := FallbackRenewAt(notBefore, notAfter);
    var now := Target(p) - SECOND;
    QuotientIs(now, renewAt - 1, SECOND);
    assert Evaluate(p, now) == Ok(Wait(MIN_SCHEDULE_DELAY));
    assert renewAt + 59 >= notAfter;
    CheckIsCareful(p, now + MIN_SCHEDULE_DELAY);
  }

  /**
   With instant checks, a certificate whose checks start before the renewal point is renewed before it
   expires, whenever the first check happens, if and only if it lives for at least 178 seconds.
   */
  lemma RenewedBeforeExpiry(notBefore: int, notAfter: int, intervalSeconds: nat)
    requires notBefore < notAfter
    ensures var p := Lifetime(notBefore, notAfter, intervalSeconds);
            (forall now :: now < Target(p) ==> IssueAt(Always(p), Target(p), 0, now).1 < notAfter * SECOND) <==>
            notAfter - notBefore >= SAFE_LIFETIME
  {
    var p := Lifetime(notBefore, notAfter, intervalSeconds);
    if notAfter - notBefore >= SAFE_LIFETIME {
      forall now | now < Target(p) ensures IssueAt(Always(p), Target(p), 0, now).1 < notAfter * SECOND {
        IssuesWithinAMinute(Always(p), Target(p), 0, now);
        assert FallbackRenewAt(notBefore, notAfter) + 60 <= notAfter;
      }
    } else {
      LateWithoutSafeLifetime(notBefore, notAfter, intervalSeconds);
    }
  }

  /**
   A policy a check may find for a certificate: its lifetime, or a window whose point leaves a minute before
   expiry.
   */
  predicate FitsCertificate(p: Policy, notBefore: int, notAfter: int)
  {
    match p
    case Ari(_, _, _, _) => ValidPolicy(p) && Target(p) + MIN_SCHEDULE_DELAY <= notAfter * SECOND
    case Lifetime(from, to, _) => from == notBefore && to == notAfter
  }

  /** Also when window and lifetime take turns, the certificate is renewed before it expires. */
  lemma RenewedUnderMixedPolicies(policies: nat -> Policy, notBefore: int, notAfter: int, start: int)
    requires notAfter - notBefore >= SAFE_LIFETIME
    requires forall k: nat :: FitsCertificate(policies(k), notBefore, notAfter)
    requires start < notAfter * SECOND - MIN_SCHEDULE_DELAY
    ensures var limit := notAfter * SECOND - MIN_SCHEDULE_DELAY;
            TargetsBy(policies, limit) && IssueAt(policies, limit, 0, start).1 < notAfter * SECOND
  {
    var limit := notAfter * SECOND - MIN_SCHEDULE_DELAY;
    forall k: nat ensures ValidPolicy(policies(k)) && Target(policies(k)) <= limit {
      assert FitsCertificate(policies(k), notBefore, notAfter);
      assert FallbackRenewAt(notBefore, notAfter) + 60 <= notAfter;
    }
    IssuesWithinAMinute(policies, limit, 0, start);
  }

  // ---- Retries after failures ----

  function NextRetryDelay(current: int): int
  {
    Min(current * 2, MAX_RETRY_DELAY)
  }

  class AcmeService {
    var retryDelay: int

    constructor ()
      ensures retryDelay == MIN_RETRY_DELAY
    {
      retryDelay := MIN_RETRY_DELAY;
    }

    /** One round of the service loop: the delay before the next one. */
    method AfterRound(result: Option<int>) returns (delay: int)
      modifies this
      ensures (retryDelay, delay) == Round(old(retryDelay), result)
    {
      match result {
        case Some(next) =>
          retryDelay := MIN_RETRY_DELAY;
          delay := next;
        case None =>
          delay := retryDelay;
          retryDelay := NextRetryDelay(retryDelay);
      }
    }
  }

  /** New retry delay and the wait after a round; `None` is a failed round. */
  function Round(retryDelay: int, result: Option<int>): (int, int)
  {
    match result
    case Some(next) => (MIN_RETRY_DELAY, next)
    case None => (NextRetryDelay(retryDelay), retryDelay)
  }

  function RetryDelayAfter(rounds: seq<Option<int>>): int
  {
    if rounds == [] then MIN_RETRY_DELAY
    else Round(RetryDelayAfter(rounds[..|rounds| - 1]), rounds[|rounds| - 1]).0
  }

  function Failures(rounds: seq<Option<int>>): nat
  {
    if rounds == [] || rounds[|rounds| - 1].Some? then 0 else 1 + Failures(rounds[..|rounds| - 1])
  }

  function Pow2(k: nat): nat
  {
    if k == 0 then 1 else 2 * Pow2(k - 1)
  }

  lemma {:induction false} RetryDelayIsCappedDoubling(rounds: seq<Option<int>>)
    ensures RetryDelayAfter(rounds) == Min(MIN_RETRY_DELAY * Pow2(Failures(rounds)), MAX_RETRY_DELAY)
  {
    if rounds == [] {
    } else {
      RetryDelayIsCappedDoubling(rounds[..|rounds| - 1]);
    }
  }

  /**
   The wait after the `k`-th failure in a row is a minute doubled `k - 1` times, at most an hour; any success
   starts over.
   */
  lemma {:induction false} WaitAfterFailures(rounds: seq<Option<int>>)
    requires rounds != [] && rounds[|rounds| - 1].None?
    ensures var wait := Round(RetryDelayAfter(rounds[..|rounds| - 1]), None).1;
            wait == Min(60 * Pow2(Failures(rounds) - 1), 3600) * 1000000000
  {
    RetryDelayIsCappedDoubling(rounds[..|rounds| - 1]);
  }
}
