/**
 The gateway's cache of token-signing keys: merging with a grace window, the lock-free throttle of
 on-demand refreshes, and the backoff of the refresh loop (apps/gateway/src/jwks.rs).
 */
module Jwks {
  import opened Wrappers

  const KEY_GRACE_SECS := 24 * 3600

  datatype KeyEntry = KeyEntry(key: string, cachedAt: nat)

  type Keys = map<string, KeyEntry>

  function SaturatingSub(a: nat, b: nat): nat
  {
    if a < b then 0 else a - b
  }

  predicate InGrace(entry: KeyEntry, now: nat, grace: nat)
  {
    SaturatingSub(now, entry.cachedAt) < grace
  }

  // ---- Merging ----

  /** The new keys, stamped now, and the old ones not replaced and still in their grace window. */
  function Merged(cached: Keys, newKeys: map<string, string>, now: nat, grace: nat): Keys
  {
    map kid | kid in newKeys.Keys + cached.Keys && (kid in newKeys || InGrace(cached[kid], now, grace)) ::
      if kid in newKeys then KeyEntry(newKeys[kid], now) else cached[kid]
  }

  method MergeKeys(cached: Keys, newKeys: map<string, string>, now: nat, grace: nat) returns (merged: Keys)
    ensures merged == Merged(cached, newKeys, now, grace)
  {
    merged := map kid | kid in newKeys :: KeyEntry(newKeys[kid], now);
    ghost var stamped := merged;
    var todo := cached.Keys;
    while todo != {}
      invariant todo <= cached.Keys
      invariant merged.Keys == newKeys.Keys + set kid | kid in cached.Keys - todo && InGrace(cached[kid], now, grace)
      invariant forall kid | kid in merged :: merged[kid] == if kid in newKeys then stamped[kid] else cached[kid]
      decreases todo
    {
      var kid :| kid in todo;
      todo := todo - {kid};
      if kid in merged {
        continue;
      }
      if InGrace(cached[kid], now, grace) {
        merged := merged[kid := cached[kid]];
      }
    }
  }

  // ---- The cache ----

  datatype JwksError = Network | EmptyKeys | NoUpstreams | ClockError

  /** What one store replaces as a whole: the keys and what discovery said about everything else. */
  datatype OidcMetadata = OidcMetadata(keys: Keys, discovery: string)

  /** One completed fetch, with the clock reading at the moment it is applied; `None` is a broken clock. */
  datatype Publication = Publication(clock: Option<nat>, discovery: string, keys: map<string, string>)

  predicate Accepted(p: Publication)
  {
    p.keys != map[] && p.clock.Some?
  }

  function Applied(m: OidcMetadata, p: Publication): Result<OidcMetadata, JwksError>
  {
    if p.keys == map[] then Err(EmptyKeys)
    else if p.clock.None? then Err(ClockError)
    else Ok(OidcMetadata(Merged(m.keys, p.keys, p.clock.value, KEY_GRACE_SECS), p.discovery))
  }

  /** Lookup at a clock reading; without a clock the entry counts as just cached. */
  function Lookup(keys: Keys, kid: string, clock: Option<nat>): Option<string>
  {
    if kid !in keys then None
    else
      var now := if clock.Some? then clock.value else keys[kid].cachedAt;
      if InGrace(keys[kid], now, KEY_GRACE_SECS) then Some(keys[kid].key) else None
  }

  class JwksCache {
    var inner: OidcMetadata
    var lastRefreshRequest: int

    constructor (discovery: string)
      ensures inner == OidcMetadata(map[], discovery) && lastRefreshRequest == 0
    {
      inner := OidcMetadata(map[], discovery);
      lastRefreshRequest := 0;
    }

    method ApplyDiscovery(p: Publication) returns (result: Result<nat, JwksError>)
      modifies this`inner
      ensures match Applied(old(inner), p)
              case Ok(m) => result == Ok(|p.keys|) && inner == m
              case Err(e) => result == Err(e) && inner == old(inner)
    {
      if p.keys == map[] {
        return Err(EmptyKeys);
      }
      if p.clock.None? {
        return Err(ClockError);
      }
      var merged := MergeKeys(inner.keys, p.keys, p.clock.value, KEY_GRACE_SECS);
      inner := OidcMetadata(merged, p.discovery);
      result := Ok(|p.keys|);
    }

    method Key(kid: string, clock: Option<nat>) returns (key: Option<string>)
      ensures key == Lookup(inner.keys, kid, clock)
    {
      if kid !in inner.keys {
        return None;
      }
      var entry := inner.keys[kid];
      var now := if clock.Some? then clock.value else entry.cachedAt;
      key := if SaturatingSub(now, entry.cachedAt) < KEY_GRACE_SECS then Some(entry.key) else None;
    }

    /**
     One call that nothing interleaves with: from any state of the interleaved throttle with this counter, the
     four moves of a new caller have the same outcome.
     */
    method RequestRefreshIfDue(clock: Option<nat>, minInterval: nat) returns (won: bool)
      requires lastRefreshRequest >= 0
      modifies this`lastRefreshRequest
      ensures won <==> (if clock.Some? then clock.value else 0) - old(lastRefreshRequest) >= minInterval
      ensures lastRefreshRequest == if won then (if clock.Some? then clock.value else 0) else old(lastRefreshRequest)
      ensures forall s: Throttle, caller | s.last == old(lastRefreshRequest) && caller !in s.calls ::
                var done := Uninterrupted(s, caller, clock, minInterval);
                done.last == lastRefreshRequest && done.calls == s.calls[caller := Returned(won)]
    {
      var now := if clock.Some? then clock.value else 0;
      var last := lastRefreshRequest;
      forall s: Throttle, caller | s.last == last && caller !in s.calls
        ensures var done := Uninterrupted(s, caller, clock, minInterval);
                && done.calls == s.calls[caller := Returned(Due(now, last, minInterval))]
                && done.last == if Due(now, last, minInterval) then now else last
      {
        UninterruptedCall(s, caller, clock, minInterval);
      }
      if !Due(now, last, minInterval) {
        return false;
      }
      lastRefreshRequest := now;
      won := true;
    }
  }

  // ---- Lookup against the whole history ----

  /** The cache after a sequence of fetches, refused ones included. */
  function After(history: seq<Publication>, discovery: string): OidcMetadata
  {
    if history == [] then OidcMetadata(map[], discovery)
    else
      var before := After(history[..|history| - 1], discovery);
      match Applied(before, history[|history| - 1])
      case Ok(m) => m
      case Err(_) => before
  }

  /** The latest accepted publication of a key id. */
  function Latest(history: seq<Publication>, kid: string): Option<KeyEntry>
  {
    if history == [] then None
    else
      var p := history[|history| - 1];
      if Accepted(p) && kid in p.keys then Some(KeyEntry(p.keys[kid], p.clock.value))
      else Latest(history[..|history| - 1], kid)
  }

  /** Clock reading of the last accepted publication. */
  function LastClock(history: seq<Publication>): nat
  {
    if history == [] then 0
    else if Accepted(history[|history| - 1]) then history[|history| - 1].clock.value
    else LastClock(history[..|history| - 1])
  }

  /** The clock never goes back between accepted publications. */
  predicate Monotone(history: seq<Publication>)
  {
    history == [] ||
    var before := history[..|history| - 1];
    Monotone(before) && (Accepted(history[|history| - 1]) ==> LastClock(before) <= history[|history| - 1].clock.value)
  }

  lemma {:induction false} LatestIsNotLater(history: seq<Publication>, kid: string)
    requires Monotone(history) && Latest(history, kid).Some?
    ensures Latest(history, kid).value.cachedAt <= LastClock(history)
  {
    var p := history[|history| - 1];
    if !(Accepted(p) && kid in p.keys) {
      LatestIsNotLater(history[..|history| - 1], kid);
    }
  }

  /** What is stored is exactly the latest publications not yet a full grace window older than the last refresh. */
  lemma {:induction false} StoredKeys(history: seq<Publication>, discovery: string, kid: string)
    requires Monotone(history)
    ensures var keys := After(history, discovery).keys;
            var latest := Latest(history, kid);
            && (kid in keys <==> latest.Some? && LastClock(history) - latest.value.cachedAt < KEY_GRACE_SECS)
            && (kid in keys ==> keys[kid] == latest.value)
  {
    if history == [] {
    } else {
      var before := history[..|history| - 1];
      StoredKeys(before, discovery, kid);
      if Latest(before, kid).Some? {
        LatestIsNotLater(before, kid);
      }
    }
  }

  /** Publication `k` is the last accepted one. */
  ghost predicate LastAccepted(history: seq<Publication>, k: nat)
  {
    && k < |history| && history[k].keys != map[] && history[k].clock.Some?
    && forall i | k < i < |history| :: history[i].keys == map[] || history[i].clock == None
  }

  /** Everything but the keys is what the last accepted fetch said, or what was there before any. */
  lemma {:induction false} DiscoveryIsLatest(history: seq<Publication>, discovery: string)
    ensures forall k: nat | LastAccepted(history, k) :: After(history, discovery).discovery == history[k].discovery
    ensures (forall i | 0 <= i < |history| :: history[i].keys == map[] || history[i].clock == None) ==>
              After(history, discovery) == OidcMetadata(map[], discovery)
  {
    if history == [] {
    } else {
      var before, p := history[..|history| - 1], history[|history| - 1];
      DiscoveryIsLatest(before, discovery);
      forall k: nat | LastAccepted(history, k) && k < |before| ensures LastAccepted(before, k) {
        assert history[k] == before[k];
        assert forall i | k < i < |before| :: before[i] == history[i];
      }
      assert forall i | 0 <= i < |before| :: before[i] == history[i];
    }
  }

  /** A fetch is refused without keys or without a clock, and the reason is told in this order. */
  lemma RefusedFetch(m: OidcMetadata, p: Publication)
    ensures Applied(m, p) == Err(EmptyKeys) <==> p.keys == map[]
    ensures Applied(m, p) == Err(ClockError) <==> p.keys != map[] && p.clock == None
    ensures Applied(m, p).Ok? <==> p.keys != map[] && p.clock.Some?
  {
  }

  /**
   Under a clock that never goes back, a lookup answers with the latest publication of the key id while
   that is less than a day old, and with nothing otherwise: pruning in the merge is never observable.
   */
  lemma {:induction false} LookupIsLatestPublication(history: seq<Publication>, discovery: string, kid: string,
                                                     now: nat)
    requires Monotone(history) && LastClock(history) <= now
    ensures Lookup(After(history, discovery).keys, kid, Some(now)) ==
            match Latest(history, kid)
            case Some(entry) => if now - entry.cachedAt < 86400 then Some(entry.key) else None
            case None => None
  {
    StoredKeys(history, discovery, kid);
    if Latest(history, kid).Some? {
      LatestIsNotLater(history, kid);
    }
  }

  /**
   While the clock is broken the age test is off, and pruning does show: the key is found exactly if
   no accepted refresh happened a day or more after its latest publication.
   */
  lemma {:induction false} LookupWithoutClock(history: seq<Publication>, discovery: string, kid: string)
    requires Monotone(history)
    ensures Lookup(After(history, discovery).keys, kid, None) ==
            match Latest(history, kid)
            case Some(entry) => if LastClock(history) - entry.cachedAt < 86400 then Some(entry.key) else None
            case None => None
  {
    StoredKeys(history, discovery, kid);
  }

  // ---- The throttle, step by step ----

  predicate Due(now: int, last: int, minInterval: nat)
  {
    now - last >= minInterval
  }

  /** Where one call of `request_refresh_if_due` stands. */
  datatype Call = ReadClock | Load(now: nat) | Exchange(now: nat, seen: int) | Returned(won: bool)

  /** The shared counter, the calls under way, and the timestamps of the winners in order. */
  datatype Throttle = Throttle(last: int, calls: map<nat, Call>, wins: seq<int>)

  /** A new call starts, or a call takes its next step; the clock may read anything. */
  datatype Move = Enter(caller: nat) | Advance(caller: nat, clock: Option<nat>)

  function NewThrottle(): Throttle
  {
    Throttle(0, map[], [])
  }

  function Step(s: Throttle, move: Move, minInterval: nat): Throttle
  {
    match move
    case Enter(caller) => if caller in s.calls then s else s.(calls := s.calls[caller := ReadClock])
    case Advance(caller, clock) =>
      if caller !in s.calls then s
      else
        match s.calls[caller]
        case ReadClock => s.(calls := s.calls[caller := Load(if clock.Some? then clock.value else 0)])
        case Load(now) =>
          var next := if Due(now, s.last, minInterval) then Exchange(now, s.last) else Returned(false);
          s.(calls := s.calls[caller := next])
        case Exchange(now, seen) =>
          if s.last == seen then Throttle(now, s.calls[caller := Returned(true)], s.wins + [now])
          else s.(calls := s.calls[caller := Returned(false)])
        case Returned(_) => s
  }

  function RunThrottle(moves: seq<Move>, minInterval: nat): Throttle
  {
    if moves == [] then NewThrottle()
    else Step(RunThrottle(moves[..|moves| - 1], minInterval), moves[|moves| - 1], minInterval)
  }

  /** Four moves of one caller with nothing in between. */
  function Uninterrupted(s: Throttle, caller: nat, clock: Option<nat>, minInterval: nat): Throttle
  {
    var entered := Step(s, Enter(caller), minInterval);
    var loading := Step(entered, Advance(caller, clock), minInterval);
    var loaded := Step(loading, Advance(caller, clock), minInterval);
    Step(loaded, Advance(caller, clock), minInterval)
  }

  lemma UninterruptedCall(s: Throttle, caller: nat, clock: Option<nat>, minInterval: nat)
    requires caller !in s.calls
    ensures var done := Uninterrupted(s, caller, clock, minInterval);
            var now := if clock.Some? then clock.value else 0;
            var won := Due(now, s.last, minInterval);
            && done.calls == s.calls[caller := Returned(won)]
            && done.last == (if won then now else s.last)
            && done.wins == (if won then s.wins + [now] else s.wins)
  {
  }

  predicate Spaced(wins: seq<int>, minInterval: nat)
  {
    forall i | 0 < i < |wins| :: wins[i - 1] + minInterval <= wins[i]
  }

  predicate ThrottleInvariant(s: Throttle, minInterval: nat)
  {
    && Spaced(s.wins, minInterval)
    && s.last == (if s.wins == [] then 0 else s.wins[|s.wins| - 1])
    && (s.wins != [] ==> s.wins[0] >= minInterval)
    && forall caller | caller in s.calls && s.calls[caller].Exchange? ::
         Due(s.calls[caller].now, s.calls[caller].seen, minInterval)
  }

  lemma StepKeepsSpacing(s: Throttle, move: Move, minInterval: nat)
    requires ThrottleInvariant(s, minInterval)
    ensures ThrottleInvariant(Step(s, move, minInterval), minInterval)
  {
  }

  /** In every interleaving of calls with one interval, whatever the clocks read, wins are at least that far apart. */
  lemma {:induction false} WinsAreSpaced(moves: seq<Move>, minInterval: nat)
    ensures ThrottleInvariant(RunThrottle(moves, minInterval), minInterval)
  {
    if moves == [] {
    } else {
      WinsAreSpaced(moves[..|moves| - 1], minInterval);
      StepKeepsSpacing(RunThrottle(moves[..|moves| - 1], minInterval), moves[|moves| - 1], minInterval);
    }
  }

  function WinsBetween(wins: seq<int>, a: int, b: int): nat
  {
    if wins == [] then 0
    else WinsBetween(wins[..|wins| - 1], a, b) + if a <= wins[|wins| - 1] <= b then 1 else 0
  }

  lemma {:induction false} NoWinsOutside(wins: seq<int>, minInterval: nat, a: int, b: int, c: int)
    requires Spaced(wins, minInterval) && (wins != [] ==> wins[|wins| - 1] <= c)
    ensures WinsBetween(wins, a, b) == WinsBetween(wins, a, if b < c then b else c)
    ensures c < a ==> WinsBetween(wins, a, b) == 0
  {
    if |wins| <= 1 {
    } else {
      NoWinsOutside(wins[..|wins| - 1], minInterval, a, b, c);
    }
  }

  lemma {:induction false} SpacedWinsAreFew(wins: seq<int>, minInterval: nat, a: int, b: int)
    requires Spaced(wins, minInterval) && a <= b
    ensures WinsBetween(wins, a, b) == 0 || (WinsBetween(wins, a, b) - 1) * minInterval <= b - a
  {
    if wins == [] {
    } else {
      var before, w := wins[..|wins| - 1], wins[|wins| - 1];
      if a <= w <= b {
        NoWinsOutside(before, minInterval, a, b, w - minInterval);
        if a <= w - minInterval {
          SpacedWinsAreFew(before, minInterval, a, w - minInterval);
          var c := WinsBetween(before, a, w - minInterval);
          assert (c - 1) * minInterval + minInterval == c * minInterval;
        }
      } else {
        SpacedWinsAreFew(before, minInterval, a, b);
      }
    }
  }

  /** So at most `(b - a) / m + 1` calls that read a time in `[a, b]` ever wake the refresh loop. */
  lemma {:induction false} FewWinsInAnyWindow(moves: seq<Move>, minInterval: nat, a: int, b: int)
    requires minInterval > 0 && a <= b
    ensures WinsBetween(RunThrottle(moves, minInterval).wins, a, b) <= (b - a) / minInterval + 1
  {
    WinsAreSpaced(moves, minInterval);
    var wins := RunThrottle(moves, minInterval).wins;
    SpacedWinsAreFew(wins, minInterval, a, b);
    var c := WinsBetween(wins, a, b);
    if c > 0 {
      QuotientBound(c - 1, minInterval, b - a);
    }
  }

  lemma QuotientBound(c: nat, m: nat, d: nat)
    requires m > 0 && c * m <= d
    ensures c <= d / m
  {
    var q := d / m;
    assert d == q * m + d % m;
    assert (q + 1 - c) * m == q * m + m - c * m;
    assert (q + 1 - c) * m > 0;
  }

  // ---- The refresh service ----

  const INIT_RETRY_SECS := 10
  const INIT_MAX_ATTEMPTS := 5
  const BACKOFF_SECS := [30, 60, 120, 300]

  /** Answer of one upstream: a fetch that can be applied, or a network failure. */
  datatype Fetch = Unreachable | Fetched(p: Publication)

  /** One attempt asks the upstreams in order. */
  type Attempt = seq<Fetch>

  function FirstAccepted(fetches: Attempt): Option<Publication>
  {
    if fetches == [] then None
    else if fetches[0].Fetched? && Accepted(fetches[0].p) then Some(fetches[0].p)
    else FirstAccepted(fetches[1..])
  }

  function FetchError(fetch: Fetch): JwksError
  {
    if fetch.Unreachable? then Network else if fetch.p.keys == map[] then EmptyKeys else ClockError
  }

  /** The first accepted fetch is applied; without one the last error is reported. */
  function Tried(m: OidcMetadata, fetches: Attempt): Result<OidcMetadata, JwksError>
  {
    if FirstAccepted(fetches).Some? then Applied(m, FirstAccepted(fetches).value)
    else if fetches == [] then Err(NoUpstreams)
    else Err(FetchError(fetches[|fetches| - 1]))
  }

  /**
   The walk over the upstreams: the first one whose answer is accepted is applied; when none is, the last one tells
   the error, unreachable, without keys or met without a clock.
   */
  lemma {:induction false} WalkOutcome(m: OidcMetadata, fetches: Attempt)
    ensures fetches == [] ==> Tried(m, fetches) == Err(NoUpstreams)
    ensures forall k: nat | FirstTaken(fetches, k) :: Tried(m, fetches) == Applied(m, fetches[k].p)
    ensures fetches != [] && (forall i | 0 <= i < |fetches| :: !Takes(fetches[i])) ==>
              match fetches[|fetches| - 1]
              case Unreachable => Tried(m, fetches) == Err(Network)
              case Fetched(p) => Tried(m, fetches) == Err(if p.keys == map[] then EmptyKeys else ClockError)
    decreases fetches
  {
    if fetches == [] {
    } else if Takes(fetches[0]) {
      assert forall k: nat | FirstTaken(fetches, k) :: k == 0;
    } else {
      var rest := fetches[1..];
      WalkOutcome(m, rest);
      forall k: nat | FirstTaken(fetches, k) ensures FirstTaken(rest, k - 1) && fetches[k] == rest[k - 1] {
        assert forall i | 0 <= i < |rest| :: rest[i] == fetches[i + 1];
      }
      if forall i | 0 <= i < |fetches| :: !Takes(fetches[i]) {
        assert forall i | 0 <= i < |rest| :: rest[i] == fetches[i + 1];
        NoneTaken(fetches);
      }
    }
  }

  predicate Takes(fetch: Fetch)
  {
    fetch.Fetched? && fetch.p.keys != map[] && fetch.p.clock.Some?
  }

  ghost predicate FirstTaken(fetches: Attempt, k: nat)
  {
    k < |fetches| && Takes(fetches[k]) && forall i | 0 <= i < k :: !Takes(fetches[i])
  }

  lemma {:induction false} NoneTaken(fetches: Attempt)
    requires forall i | 0 <= i < |fetches| :: !Takes(fetches[i])
    ensures FirstAccepted(fetches).None?
    decreases fetches
  {
    if fetches == [] {
    } else {
      assert !Takes(fetches[0]);
      NoneTaken(fetches[1..]);
    }
  }

  /** The cache and the failure counter. */
  datatype Service = Service(m: OidcMetadata, failures: nat)

  function BackoffEntry(failures: nat): nat
    requires failures >= 1
  {
    BACKOFF_SECS[if failures < |BACKOFF_SECS| then failures - 1 else |BACKOFF_SECS| - 1]
  }

  /** Counter and delay after an attempt. */
  function Backoff(failures: nat, empty: bool, success: bool, interval: nat): (nat, nat)
  {
    if success then (0, interval)
    else if empty then (failures, INIT_RETRY_SECS)
    else (failures + 1, BackoffEntry(failures + 1))
  }

  /** One turn of the refresh loop: the new state and the delay before the next turn. */
  function Turn(s: Service, fetches: Attempt, interval: nat): (Service, nat)
  {
    var result := Tried(s.m, fetches);
    var m := if result.Ok? then result.value else s.m;
    var (failures, delay) := Backoff(s.failures, m.keys == map[], result.Ok?, interval);
    (Service(m, failures), delay)
  }

  class JwksRefreshService {
    const cache: JwksCache
    const interval: nat
    var consecutiveFailures: nat

    constructor (cache: JwksCache, interval: nat)
      ensures this.cache == cache && this.interval == interval && consecutiveFailures == 0
    {
      this.cache := cache;
      this.interval := interval;
      consecutiveFailures := 0;
    }

    function State(): Service
      reads this, cache
    {
      Service(cache.inner, consecutiveFailures)
    }

    method BackoffDelay(success: bool) returns (delay: nat)
      modifies this
      ensures (consecutiveFailures, delay) ==
              Backoff(old(consecutiveFailures), cache.inner.keys == map[], success, interval)
    {
      if success {
        consecutiveFailures := 0;
        return interval;
      }
      if cache.inner.keys == map[] {
        return INIT_RETRY_SECS;
      }
      consecutiveFailures := consecutiveFailures + 1;
      var idx := SaturatingSub(consecutiveFailures, 1);
      idx := if idx < |BACKOFF_SECS| - 1 then idx else |BACKOFF_SECS| - 1;
      delay := BACKOFF_SECS[idx];
    }

    method TryRefreshFromAny(fetches: Attempt) returns (error: Option<JwksError>)
      modifies cache`inner
      ensures match Tried(old(cache.inner), fetches)
              case Ok(m) => error == None && cache.inner == m
              case Err(e) => error == Some(e) && cache.inner == old(cache.inner)
    {
      if fetches == [] {
        return Some(NoUpstreams);
      }
      error := None;
      for i := 0 to |fetches|
        invariant cache.inner == old(cache.inner)
        invariant FirstAccepted(fetches) == FirstAccepted(fetches[i..])
        invariant error == if i == 0 then None else Some(FetchError(fetches[i - 1]))
      {
        assert fetches[i..][0] == fetches[i] && fetches[i..][1..] == fetches[i + 1..];
        match fetches[i] {
          case Unreachable => error := Some(Network);
          case Fetched(p) =>
            var result := cache.ApplyDiscovery(p);
            if result.Ok? {
              return None;
            }
            error := Some(result.error);
        }
      }
    }

    /** The body of the refresh loop. */
    method RefreshOnce(fetches: Attempt) returns (delay: nat)
      modifies this, cache`inner
      ensures (State(), delay) == Turn(old(State()), fetches, interval)
    {
      var error := TryRefreshFromAny(fetches);
      delay := BackoffDelay(error.None?);
    }

    /**
     The first refresh before traffic is let in: at most five attempts, ten seconds apart, ended by the
     first success. Traffic starts with an empty cache only after five failures.
     */
    method AwaitFirstRefresh(attempts: seq<Attempt>) returns (used: nat, waited: nat)
      requires |attempts| >= INIT_MAX_ATTEMPTS && cache.inner.keys == map[]
      modifies cache`inner
      ensures 1 <= used <= 5 && waited == 10 * (used - 1)
      ensures forall i | 0 <= i < used - 1 :: FirstAccepted(attempts[i]).None?
      ensures cache.inner.keys != map[] <==> FirstAccepted(attempts[used - 1]).Some?
      ensures cache.inner.keys == map[] ==> used == 5 && cache.inner == old(cache.inner)
    {
      used, waited := 0, 0;
      while true
        invariant 0 <= used < INIT_MAX_ATTEMPTS && waited == INIT_RETRY_SECS * used
        invariant cache.inner == old(cache.inner)
        invariant forall i | 0 <= i < used :: FirstAccepted(attempts[i]).None?
        decreases INIT_MAX_ATTEMPTS - used
      {
        FirstAcceptedIsAccepted(attempts[used]);
        var error := TryRefreshFromAny(attempts[used]);
        used := used + 1;
        if error.None? {
          AcceptedFills(old(cache.inner), FirstAccepted(attempts[used - 1]).value);
          return;
        }
        if used >= INIT_MAX_ATTEMPTS {
          return;
        }
        waited := waited + INIT_RETRY_SECS;
      }
    }
  }

  lemma {:induction false} FirstAcceptedIsAccepted(fetches: Attempt)
    ensures FirstAccepted(fetches).Some? ==> Accepted(FirstAccepted(fetches).value)
  {
    if fetches == [] {
    } else {
      FirstAcceptedIsAccepted(fetches[1..]);
    }
  }

  lemma AcceptedFills(m: OidcMetadata, p: Publication)
    requires Accepted(p)
    ensures Applied(m, p).Ok? && Applied(m, p).value.keys != map[]
  {
    var kid :| kid in p.keys;
    assert kid in Applied(m, p).value.keys;
  }

  // ---- Over every run of the loop ----

  function RunLoop(start: OidcMetadata, attempts: seq<Attempt>, interval: nat): Service
  {
    if attempts == [] then Service(start, 0)
    else Turn(RunLoop(start, attempts[..|attempts| - 1], interval), attempts[|attempts| - 1], interval).0
  }

  predicate Succeeds(fetches: Attempt)
  {
    FirstAccepted(fetches).Some?
  }

  predicate EverSucceeded(attempts: seq<Attempt>)
  {
    exists i | 0 <= i < |attempts| :: Succeeds(attempts[i])
  }

  /** Failures since the last success. */
  function TrailingFailures(attempts: seq<Attempt>): nat
  {
    if attempts == [] || Succeeds(attempts[|attempts| - 1]) then 0
    else 1 + TrailingFailures(attempts[..|attempts| - 1])
  }

  lemma TurnCases(s: Service, fetches: Attempt, interval: nat)
    ensures var (after, delay) := Turn(s, fetches, interval);
            if Succeeds(fetches) then after.m.keys != map[] && after.failures == 0 && delay == interval
            else
              && after.m == s.m
              && if s.m.keys == map[] then after.failures == s.failures && delay == INIT_RETRY_SECS
                 else after.failures == s.failures + 1 && delay == BackoffEntry(after.failures)
  {
    FirstAcceptedIsAccepted(fetches);
    if Succeeds(fetches) {
      AcceptedFills(s.m, FirstAccepted(fetches).value);
    }
  }

  lemma EverSucceededStep(attempts: seq<Attempt>)
    requires attempts != []
    ensures EverSucceeded(attempts) <==> EverSucceeded(attempts[..|attempts| - 1]) || Succeeds(attempts[|attempts| - 1])
  {
    var before := attempts[..|attempts| - 1];
    if i :| 0 <= i < |before| && Succeeds(before[i]) {
      assert Succeeds(attempts[i]);
    }
    if i :| 0 <= i < |attempts| && Succeeds(attempts[i]) && i < |before| {
      assert Succeeds(before[i]);
    }
  }

  /** The first refresh before the loop, or some attempt of the loop, succeeded. */
  predicate Primed(start: OidcMetadata, attempts: seq<Attempt>)
  {
    start.keys != map[] || EverSucceeded(attempts)
  }

  /** The cache is filled exactly from the first success on, and the counter counts the failures since the last one. */
  lemma {:induction false} LoopState(start: OidcMetadata, attempts: seq<Attempt>, interval: nat)
    ensures var s := RunLoop(start, attempts, interval);
            && (s.m.keys != map[] <==> Primed(start, attempts))
            && s.failures == if Primed(start, attempts) then TrailingFailures(attempts) else 0
  {
    if attempts == [] {
    } else {
      var before := attempts[..|attempts| - 1];
      LoopState(start, before, interval);
      EverSucceededStep(attempts);
      TurnCases(RunLoop(start, before, interval), attempts[|attempts| - 1], interval);
    }
  }

  /**
   The delay after the last attempt of any run: the configured interval after a success, ten seconds
   exactly while nothing ever succeeded, and after `k` failures since the last success entry
   `min(k, 4)` of the table.
   */
  lemma DelayAfterRun(start: OidcMetadata, attempts: seq<Attempt>, interval: nat)
    requires attempts != []
    ensures var last := |attempts| - 1;
            var delay := Turn(RunLoop(start, attempts[..last], interval), attempts[last], interval).1;
            var k := TrailingFailures(attempts);
            if k == 0 then delay == interval
            else if !Primed(start, attempts) then delay == 10
            else delay == [30, 60, 120, 300][if k <= 4 then k - 1 else 3] && 30 <= delay <= 300
  {
    var last := |attempts| - 1;
    LoopState(start, attempts[..last], interval);
    EverSucceededStep(attempts);
    TurnCases(RunLoop(start, attempts[..last], interval), attempts[last], interval);
  }

  /** Once filled, the cache is never empty again, however the later attempts go. */
  lemma {:induction false} NeverEmptyAgain(start: OidcMetadata, attempts: seq<Attempt>, more: seq<Attempt>,
                                           interval: nat)
    requires RunLoop(start, attempts, interval).m.keys != map[]
    ensures RunLoop(start, attempts + more, interval).m.keys != map[]
  {
    LoopState(start, attempts, interval);
    LoopState(start, attempts + more, interval);
    if start.keys == map[] {
      var i :| 0 <= i < |attempts| && Succeeds(attempts[i]);
      assert Succeeds((attempts + more)[i]);
    }
  }

  /** The accepted publications of a run, one per successful attempt. */
  function History(attempts: seq<Attempt>): seq<Publication>
  {
    if attempts == [] then []
    else
      var before := History(attempts[..|attempts| - 1]);
      match FirstAccepted(attempts[|attempts| - 1])
      case Some(p) => before + [p]
      case None => before
  }

  /** The loop keeps exactly the cache of its publication history, so lookups obey the history law. */
  lemma {:induction false} LoopKeepsHistory(discovery: string, attempts: seq<Attempt>, interval: nat)
    ensures RunLoop(OidcMetadata(map[], discovery), attempts, interval).m == After(History(attempts), discovery)
  {
    if attempts == [] {
    } else {
      LoopKeepsHistory(discovery, attempts[..|attempts| - 1], interval);
      FirstAcceptedIsAccepted(attempts[|attempts| - 1]);
      var history := History(attempts);
      if Succeeds(attempts[|attempts| - 1]) {
        assert history[..|history| - 1] == History(attempts[..|attempts| - 1]);
      }
    }
  }
}
