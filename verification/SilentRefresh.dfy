/**
 Silent refresh: concurrent requests of one user race for a Redis lock, the winner walks the refresh
 endpoints, and the lock is kept or released (apps/gateway/src/auth/refresh.rs, apps/gateway/src/redis.rs).
 Times are milliseconds.
 */
module SilentRefresh {
  import opened Wrappers
  import opened Gateway

  const LOCK_TTL := 30000
  const REQUEST_TIMEOUT := 5000

  datatype EndpointOutcome = Tokens(tokens: RefreshedTokens) | Unneeded | Unanswered

  // ---- The walk over endpoints ----

  /** Whether the answer of endpoint `k` ends the walk; only the primary may say that no refresh is needed. */
  function Settled(withPrimary: bool, k: nat, answer: EndpointOutcome): Option<RefreshOutcome>
  {
    match answer
    case Tokens(tokens) => Some(Rotated(tokens))
    case Unneeded => if withPrimary && k == 0 then Some(Skipped) else None
    case Unanswered => None
  }

  /** Number of requests a walk can make: the primary endpoint if known, then every upstream. */
  function Total(withPrimary: bool, upstreams: nat): nat
  {
    upstreams + if withPrimary then 1 else 0
  }

  /** Nothing among these answers ends the walk. */
  predicate Undecided(withPrimary: bool, answers: seq<EndpointOutcome>)
  {
    forall k | 0 <= k < |answers| :: Settled(withPrimary, k, answers[k]).None?
  }

  /** The outcome of a walk is the first answer that settles it; without one, failure after the last endpoint. */
  ghost predicate DecidedBy(withPrimary: bool, upstreams: nat, answers: seq<EndpointOutcome>, outcome: RefreshOutcome)
  {
    if answers != [] && Settled(withPrimary, |answers| - 1, answers[|answers| - 1]).Some? then
      && Undecided(withPrimary, answers[..|answers| - 1])
      && Settled(withPrimary, |answers| - 1, answers[|answers| - 1]) == Some(outcome)
      && |answers| <= Total(withPrimary, upstreams)
    else
      Undecided(withPrimary, answers) && |answers| == Total(withPrimary, upstreams) && outcome == Failed
  }

  // ---- The shared store ----

  /** Keys with their expiry times. */
  type Locks = map<string, int>

  predicate Held(locks: Locks, key: string, now: int)
  {
    key in locks && now < locks[key]
  }

  /** `SET key value NX EX ttl`. */
  function Acquired(locks: Locks, key: string, ttl: nat, now: int): (bool, Locks)
  {
    if Held(locks, key, now) then (false, locks) else (true, locks[key := now + ttl])
  }

  class Redis {
    var locks: Locks
    var up: bool

    constructor ()
      ensures locks == map[] && up
    {
      locks := map[];
      up := true;
    }

    /** Fail-open: without Redis every caller counts as the winner. */
    method AcquireNxEx(key: string, ttl: nat, now: int) returns (won: bool)
      modifies this`locks
      ensures if up then (won, locks) == Acquired(old(locks), key, ttl, now) else won && locks == old(locks)
    {
      if !up {
        return true;
      }
      won := !(key in locks && now < locks[key]);
      if won {
        locks := locks[key := now + ttl];
      }
    }

    method Del(key: string)
      modifies this`locks
      ensures locks == if up then old(locks) - {key} else old(locks)
    {
      if up {
        locks := locks - {key};
      }
    }
  }

  class TokenRefresher {
    const redis: Redis
    const upstreams: nat

    constructor (redis: Redis, upstreams: nat)
      ensures this.redis == redis && this.upstreams == upstreams
    {
      this.redis := redis;
      this.upstreams := upstreams;
    }

    /**
     One refresh from lock to outcome, given what each endpoint would answer. `used` is how many were
     asked. A primary that says "not needed" ends the walk, and only it; else the first tokens do; else all
     endpoints were asked in vain. The lock survives exactly a rotation or the primary's "not needed".
     */
    method TryRefresh(sub: string, hasPrimary: bool, answers: seq<EndpointOutcome>, now: int)
      returns (outcome: RefreshOutcome, used: nat)
      requires |answers| == Total(hasPrimary, upstreams)
      modifies redis`locks
      ensures used <= |answers|
      ensures var (won, locked) := Acquired(old(redis.locks), sub, LOCK_TTL, now);
              if redis.up && !won then outcome == Deduped && used == 0 && redis.locks == old(redis.locks)
              else
                && (outcome == Skipped <==> hasPrimary && answers[0] == Unneeded)
                && (outcome == Skipped ==> used == 1)
                && (forall t :: outcome == Rotated(t) <==>
                      && used > 0 && answers[used - 1] == Tokens(t) && !(hasPrimary && answers[0] == Unneeded)
                      && forall k | 0 <= k < used - 1 :: !answers[k].Tokens?)
                && (!outcome.Skipped? && !outcome.Rotated? ==>
                      outcome == Failed && used == |answers| && forall k | 0 <= k < used :: !answers[k].Tokens?)
                && (redis.up ==> redis.locks == if outcome == Failed then old(redis.locks) - {sub} else locked)
                && (!redis.up ==> redis.locks == old(redis.locks))
    {
      used := 0;
      var won := redis.AcquireNxEx(sub, LOCK_TTL, now);
      if !won {
        return Deduped, 0;
      }
      if hasPrimary {
        used := 1;
        match answers[0] {
          case Tokens(tokens) => return Rotated(tokens), 1;
          case Unneeded => return Skipped, 1;
          case Unanswered =>
        }
      }
      if upstreams == 0 {
        redis.Del(sub);
        assert redis.up ==> redis.locks == old(redis.locks) - {sub};
        return Failed, used;
      }
      for i := 0 to upstreams
        invariant used == i + if hasPrimary then 1 else 0
        invariant !(hasPrimary && answers[0] == Unneeded)
        invariant forall k | 0 <= k < used :: !answers[k].Tokens?
        invariant redis.locks == if redis.up then Acquired(old(redis.locks), sub, LOCK_TTL, now).1 else old(redis.locks)
      {
        used := used + 1;
        if answers[used - 1].Tokens? {
          return Rotated(answers[used - 1].tokens), used;
        }
      }
      redis.Del(sub);
      assert redis.up ==> redis.locks == old(redis.locks) - {sub};
      return Failed, used;
    }
  }

  // ---- Interleaved requests ----

  /** A walk with a request in flight, or its end; a walk may also be dropped with its connection. */
  datatype Progress = Walking(deadline: int) | Ended(outcome: RefreshOutcome) | Dropped

  datatype Refresh =
    Refresh(sub: string, start: int, withPrimary: bool, answers: seq<EndpointOutcome>, progress: Progress)

  /** All gateways together: the clock, the locks in Redis, and every refresh so far in order of its start. */
  datatype World = World(now: int, locks: Locks, refreshes: seq<Refresh>)

  datatype Move =
    | Tick(elapsed: nat)
    | Start(sub: string, withPrimary: bool)
    | Answer(i: nat, answer: EndpointOutcome)
    | Drop(i: nat)

  function Begin(): World
  {
    World(0, map[], [])
  }

  /** Every request in flight is answered or times out by its deadline. */
  predicate MayPass(w: World, elapsed: nat)
  {
    forall i | 0 <= i < |w.refreshes| ::
      w.refreshes[i].progress.Walking? ==> w.now + elapsed <= w.refreshes[i].progress.deadline
  }

  predicate InFlight(w: World, i: nat)
  {
    i < |w.refreshes| && w.refreshes[i].progress.Walking?
  }

  function Started(w: World, upstreams: nat, sub: string, withPrimary: bool): World
  {
    var (won, locks) := Acquired(w.locks, sub, LOCK_TTL, w.now);
    if !won then w.(refreshes := w.refreshes + [Refresh(sub, w.now, withPrimary, [], Ended(Deduped))])
    else if Total(withPrimary, upstreams) == 0 then
      World(w.now, locks - {sub}, w.refreshes + [Refresh(sub, w.now, withPrimary, [], Ended(Failed))])
    else World(w.now, locks, w.refreshes + [Refresh(sub, w.now, withPrimary, [], Walking(w.now + REQUEST_TIMEOUT))])
  }

  function Answered(w: World, upstreams: nat, i: nat, answer: EndpointOutcome): World
    requires InFlight(w, i)
  {
    var r := w.refreshes[i];
    var answers := r.answers + [answer];
    var settled := Settled(r.withPrimary, |r.answers|, answer);
    if settled.Some? then
      w.(refreshes := w.refreshes[i := r.(answers := answers, progress := Ended(settled.value))])
    else if |answers| < Total(r.withPrimary, upstreams) then
      w.(refreshes := w.refreshes[i := r.(answers := answers, progress := Walking(w.now + REQUEST_TIMEOUT))])
    else
      World(w.now, w.locks - {r.sub}, w.refreshes[i := r.(answers := answers, progress := Ended(Failed))])
  }

  /** Moves that are not possible leave the world as it is. */
  function Step(w: World, upstreams: nat, move: Move): World
  {
    match move
    case Tick(elapsed) => if MayPass(w, elapsed) then w.(now := w.now + elapsed) else w
    case Start(sub, withPrimary) => Started(w, upstreams, sub, withPrimary)
    case Answer(i, answer) => if InFlight(w, i) then Answered(w, upstreams, i, answer) else w
    case Drop(i) =>
      if InFlight(w, i) then w.(refreshes := w.refreshes[i := w.refreshes[i].(progress := Dropped)]) else w
  }

  function Run(moves: seq<Move>, upstreams: nat): World
  {
    if moves == [] then Begin() else Step(Run(moves[..|moves| - 1], upstreams), upstreams, moves[|moves| - 1])
  }

  // ---- What holds in every interleaving ----

  /** The walk won the lock. */
  predicate Won(r: Refresh)
  {
    r.progress != Ended(Deduped)
  }

  /** The walk ended in a way that keeps its lock: with tokens, with nothing to do, or cut off. */
  predicate KeepsLock(r: Refresh)
  {
    r.progress.Dropped? || (r.progress.Ended? && (r.progress.outcome.Rotated? || r.progress.outcome.Skipped?))
  }

  /** A walk in flight is within the time its answers so far allow. */
  predicate OnTime(r: Refresh, now: int, upstreams: nat)
  {
    r.progress.Walking? ==>
      && |r.answers| < Total(r.withPrimary, upstreams)
      && now <= r.progress.deadline <= r.start + REQUEST_TIMEOUT * (|r.answers| + 1)
  }

  /** A lock that must still be there is there, with the expiry its owner set. */
  predicate LockStands(r: Refresh, w: World)
  {
    r.progress.Walking? || (KeepsLock(r) && w.now < r.start + LOCK_TTL) ==>
      r.sub in w.locks && w.locks[r.sub] == r.start + LOCK_TTL
  }

  /** Two refreshes in the order of their starts. */
  predicate Apart(earlier: Refresh, later: Refresh)
  {
    earlier.sub == later.sub && Won(later) ==>
      && !earlier.progress.Walking?
      && earlier.start <= later.start
      && (KeepsLock(earlier) ==> earlier.start + LOCK_TTL <= later.start)
  }

  ghost predicate Invariant(w: World, upstreams: nat)
  {
    && (forall i | 0 <= i < |w.refreshes| ::
          && w.refreshes[i].start <= w.now
          && OnTime(w.refreshes[i], w.now, upstreams) && LockStands(w.refreshes[i], w))
    && forall i, j | 0 <= i < j < |w.refreshes| :: Apart(w.refreshes[i], w.refreshes[j])
  }

  /** Every walk ends inside the lock's lifetime. */
  predicate EndsInTime(upstreams: nat)
  {
    REQUEST_TIMEOUT * (1 + upstreams) < LOCK_TTL
  }

  lemma WalkingHoldsLock(w: World, upstreams: nat, i: nat)
    requires EndsInTime(upstreams) && Invariant(w, upstreams) && InFlight(w, i)
    ensures Held(w.locks, w.refreshes[i].sub, w.now)
  {
    var r := w.refreshes[i];
    assert OnTime(r, w.now, upstreams) && LockStands(r, w);
    assert |r.answers| + 1 <= 1 + upstreams;
  }

  lemma TickKeeps(w: World, upstreams: nat, elapsed: nat)
    requires Invariant(w, upstreams) && MayPass(w, elapsed)
    ensures Invariant(w.(now := w.now + elapsed), upstreams)
  {
    var after := w.(now := w.now + elapsed);
    forall i | 0 <= i < |w.refreshes|
      ensures OnTime(w.refreshes[i], after.now, upstreams) && LockStands(w.refreshes[i], after) {
      assert OnTime(w.refreshes[i], w.now, upstreams) && LockStands(w.refreshes[i], w);
    }
  }

  lemma StartKeeps(w: World, upstreams: nat, sub: string, withPrimary: bool)
    requires EndsInTime(upstreams) && Invariant(w, upstreams)
    ensures Invariant(Started(w, upstreams, sub, withPrimary), upstreams)
  {
    var after := Started(w, upstreams, sub, withPrimary);
    var n := |w.refreshes|;
    forall i | 0 <= i < n
      ensures OnTime(after.refreshes[i], after.now, upstreams) && LockStands(after.refreshes[i], after)
      ensures Apart(after.refreshes[i], after.refreshes[n]) {
      assert LockStands(w.refreshes[i], w) && OnTime(w.refreshes[i], w.now, upstreams);
      if InFlight(w, i) {
        WalkingHoldsLock(w, upstreams, i);
      }
    }
  }

  lemma OthersAreDone(w: World, upstreams: nat, i: nat, j: nat)
    requires Invariant(w, upstreams) && InFlight(w, i) && j < |w.refreshes| && j != i
    requires w.refreshes[j].sub == w.refreshes[i].sub
    ensures !w.refreshes[j].progress.Walking?
    ensures KeepsLock(w.refreshes[j]) ==> w.refreshes[j].start + LOCK_TTL <= w.now
    ensures i < j ==> !Won(w.refreshes[j])
  {
    if i < j {
      assert Apart(w.refreshes[i], w.refreshes[j]);
    } else {
      assert Apart(w.refreshes[j], w.refreshes[i]);
    }
  }

  /** Replacing one refresh in flight by its next state keeps the invariant. */
  lemma ChangeKeeps(w: World, upstreams: nat, i: nat, r: Refresh, locks: Locks)
    requires Invariant(w, upstreams) && InFlight(w, i)
    requires r.sub == w.refreshes[i].sub && r.start == w.refreshes[i].start && Won(r)
    requires OnTime(r, w.now, upstreams) && LockStands(r, w.(locks := locks))
    requires locks == w.locks || (locks == w.locks - {r.sub} && !r.progress.Walking?)
    ensures Invariant(World(w.now, locks, w.refreshes[i := r]), upstreams)
  {
    var after := World(w.now, locks, w.refreshes[i := r]);
    forall j | 0 <= j < |after.refreshes|
      ensures OnTime(after.refreshes[j], after.now, upstreams) && LockStands(after.refreshes[j], after)
      ensures j < i ==> Apart(after.refreshes[j], r)
      ensures i < j ==> Apart(r, after.refreshes[j]) {
      if j != i {
        assert LockStands(w.refreshes[j], w);
        if w.refreshes[j].sub == r.sub {
          OthersAreDone(w, upstreams, i, j);
        }
        if j < i {
          assert Apart(w.refreshes[j], w.refreshes[i]);
        }
      }
    }
    forall j, k | 0 <= j < k < |after.refreshes| ensures Apart(after.refreshes[j], after.refreshes[k]) {
      if j != i && k != i {
        assert Apart(w.refreshes[j], w.refreshes[k]);
      }
    }
  }

  lemma AnswerKeeps(w: World, upstreams: nat, i: nat, answer: EndpointOutcome)
    requires Invariant(w, upstreams) && InFlight(w, i)
    ensures Invariant(Answered(w, upstreams, i, answer), upstreams)
  {
    var r := w.refreshes[i];
    assert OnTime(r, w.now, upstreams) && LockStands(r, w);
    var after := Answered(w, upstreams, i, answer);
    ChangeKeeps(w, upstreams, i, after.refreshes[i], after.locks);
  }

  lemma {:induction false} InvariantHolds(moves: seq<Move>, upstreams: nat)
    requires EndsInTime(upstreams)
    ensures Invariant(Run(moves, upstreams), upstreams)
  {
    if moves == [] {
    } else {
      var w := Run(moves[..|moves| - 1], upstreams);
      InvariantHolds(moves[..|moves| - 1], upstreams);
      match moves[|moves| - 1] {
        case Tick(elapsed) => if MayPass(w, elapsed) { TickKeeps(w, upstreams, elapsed); }
        case Start(sub, withPrimary) => StartKeeps(w, upstreams, sub, withPrimary);
        case Answer(i, answer) => if InFlight(w, i) { AnswerKeeps(w, upstreams, i, answer); }
        case Drop(i) =>
          if InFlight(w, i) {
            ChangeKeeps(w, upstreams, i, w.refreshes[i].(progress := Dropped), w.locks);
          }
      }
    }
  }

  /** No user ever has two refreshes in flight at once. */
  predicate OneAtATime(w: World)
  {
    forall i, j | 0 <= i < j < |w.refreshes| ::
      InFlight(w, i) && InFlight(w, j) ==> w.refreshes[i].sub != w.refreshes[j].sub
  }

  /** After a refresh that kept its lock, the same user's next one starts a full lock lifetime later. */
  predicate SpacedOut(w: World)
  {
    forall i, j | 0 <= i < j < |w.refreshes| ::
      w.refreshes[i].sub == w.refreshes[j].sub && KeepsLock(w.refreshes[i]) && Won(w.refreshes[j]) ==>
        w.refreshes[i].start + LOCK_TTL <= w.refreshes[j].start
  }

  lemma {:induction false} SafeWhenWalksEnd(moves: seq<Move>, upstreams: nat)
    requires EndsInTime(upstreams)
    ensures OneAtATime(Run(moves, upstreams)) && SpacedOut(Run(moves, upstreams))
  {
    InvariantHolds(moves, upstreams);
    var w := Run(moves, upstreams);
    forall i, j | 0 <= i < j < |w.refreshes| ensures Apart(w.refreshes[i], w.refreshes[j]) {
    }
  }

  // ---- Nobody is turned away without reason ----

  /** Refresh `i` of the user won the lock less than its lifetime ago and has not failed. */
  predicate HasSay(w: World, i: nat, sub: string)
  {
    && i < |w.refreshes| && w.refreshes[i].sub == sub
    && Won(w.refreshes[i]) && w.refreshes[i].progress != Ended(Failed)
    && w.now < w.refreshes[i].start + LOCK_TTL
  }

  predicate Owns(r: Refresh, sub: string, expires: int)
  {
    r.sub == sub && Won(r) && r.progress != Ended(Failed) && r.start + LOCK_TTL == expires
  }

  ghost predicate OwnersKnown(w: World)
  {
    forall sub | sub in w.locks :: exists i | 0 <= i < |w.refreshes| :: Owns(w.refreshes[i], sub, w.locks[sub])
  }

  lemma StartKeepsOwners(w: World, upstreams: nat, sub: string, withPrimary: bool)
    requires OwnersKnown(w)
    ensures OwnersKnown(Started(w, upstreams, sub, withPrimary))
  {
    var after := Started(w, upstreams, sub, withPrimary);
    forall s | s in after.locks
      ensures exists i | 0 <= i < |after.refreshes| :: Owns(after.refreshes[i], s, after.locks[s])
    {
      if s == sub && !Held(w.locks, sub, w.now) {
        assert Owns(after.refreshes[|w.refreshes|], s, after.locks[s]);
      } else {
        var i :| 0 <= i < |w.refreshes| && Owns(w.refreshes[i], s, w.locks[s]);
        assert Owns(after.refreshes[i], s, after.locks[s]);
      }
    }
  }

  lemma ChangeKeepsOwners(w: World, i: nat, r: Refresh, locks: Locks)
    requires OwnersKnown(w) && InFlight(w, i)
    requires r.sub == w.refreshes[i].sub && r.start == w.refreshes[i].start && Won(r)
    requires if r.progress == Ended(Failed) then locks == w.locks - {r.sub} else locks == w.locks
    ensures OwnersKnown(World(w.now, locks, w.refreshes[i := r]))
  {
    var after := World(w.now, locks, w.refreshes[i := r]);
    forall s | s in after.locks
      ensures exists k | 0 <= k < |after.refreshes| :: Owns(after.refreshes[k], s, after.locks[s])
    {
      var k :| 0 <= k < |w.refreshes| && Owns(w.refreshes[k], s, w.locks[s]);
      assert Owns(after.refreshes[k], s, after.locks[s]);
    }
  }

  lemma {:induction false} OwnersStayKnown(moves: seq<Move>, upstreams: nat)
    ensures OwnersKnown(Run(moves, upstreams))
  {
    if moves == [] {
    } else {
      var w := Run(moves[..|moves| - 1], upstreams);
      OwnersStayKnown(moves[..|moves| - 1], upstreams);
      match moves[|moves| - 1] {
        case Tick(elapsed) =>
        case Start(sub, withPrimary) => StartKeepsOwners(w, upstreams, sub, withPrimary);
        case Answer(i, answer) =>
          if InFlight(w, i) {
            var after := Answered(w, upstreams, i, answer);
            ChangeKeepsOwners(w, i, after.refreshes[i], after.locks);
          }
        case Drop(i) =>
          if InFlight(w, i) {
            ChangeKeepsOwners(w, i, w.refreshes[i].(progress := Dropped), w.locks);
          }
      }
    }
  }

  /**
   In every interleaving whose walks end inside the lock's lifetime, a request is turned away as a duplicate if
   and only if a refresh of the same user was started less than 30 seconds before that has not failed.
   */
  lemma {:induction false} DedupedIffAnotherHasSay(moves: seq<Move>, upstreams: nat, sub: string, withPrimary: bool)
    requires EndsInTime(upstreams)
    ensures var w := Run(moves, upstreams);
            var after := Step(w, upstreams, Start(sub, withPrimary));
            && |after.refreshes| == |w.refreshes| + 1
            && (after.refreshes[|w.refreshes|].progress == Ended(Deduped) <==> exists i: nat :: HasSay(w, i, sub))
  {
    var w := Run(moves, upstreams);
    InvariantHolds(moves, upstreams);
    OwnersStayKnown(moves, upstreams);
    if Held(w.locks, sub, w.now) {
      var i :| 0 <= i < |w.refreshes| && Owns(w.refreshes[i], sub, w.locks[sub]);
      assert HasSay(w, i, sub);
    }
    if i: nat :| HasSay(w, i, sub) {
      assert OnTime(w.refreshes[i], w.now, upstreams) && LockStands(w.refreshes[i], w);
    }
  }

  // ---- The bound is exact ----

  /** One user's walk in which the first `k` endpoints let the whole timeout pass. */
  function SlowWalk(sub: string, k: nat): seq<Move>
  {
    if k == 0 then [Start(sub, true)] else SlowWalk(sub, k - 1) + [Tick(REQUEST_TIMEOUT)] + [Answer(0, Unanswered)]
  }

  function Silence(k: nat): seq<EndpointOutcome>
  {
    seq(k, _ => Unanswered)
  }

  lemma {:induction false} RunOn(moves: seq<Move>, move: Move, upstreams: nat)
    ensures Run(moves + [move], upstreams) == Step(Run(moves, upstreams), upstreams, move)
  {
    assert (moves + [move])[..|moves|] == moves;
  }

  function SlowWorld(sub: string, k: nat): World
  {
    World(REQUEST_TIMEOUT * k, map[sub := LOCK_TTL],
          [Refresh(sub, 0, true, Silence(k), Walking(REQUEST_TIMEOUT * (k + 1)))])
  }

  lemma SlowStep(sub: string, k: nat, upstreams: nat)
    requires k < upstreams
    ensures Step(Step(SlowWorld(sub, k), upstreams, Tick(REQUEST_TIMEOUT)), upstreams, Answer(0, Unanswered)) ==
            SlowWorld(sub, k + 1)
  {
    var w := SlowWorld(sub, k);
    assert MayPass(w, REQUEST_TIMEOUT);
    assert Silence(k) + [Unanswered] == Silence(k + 1);
    assert w.refreshes[0 := SlowWorld(sub, k + 1).refreshes[0]] == SlowWorld(sub, k + 1).refreshes;
  }

  lemma {:induction false} SlowWalkGoesOn(sub: string, k: nat, upstreams: nat)
    requires k <= upstreams
    ensures Run(SlowWalk(sub, k), upstreams) == SlowWorld(sub, k)
  {
    if k == 0 {
      SlowStart(sub, upstreams);
    } else {
      SlowWalkGoesOn(sub, k - 1, upstreams);
      TwoMore(SlowWalk(sub, k - 1), Tick(REQUEST_TIMEOUT), Answer(0, Unanswered), upstreams);
      SlowStep(sub, k - 1, upstreams);
    }
  }

  lemma {:induction false} SlowStart(sub: string, upstreams: nat)
    ensures Run([Start(sub, true)], upstreams) == SlowWorld(sub, 0)
  {
    RunOn([], Start(sub, true), upstreams);
    assert [] + [Start(sub, true)] == [Start(sub, true)];
    assert Silence(0) == [];
  }

  lemma {:induction false} TwoMore(moves: seq<Move>, first: Move, second: Move, upstreams: nat)
    ensures Run(moves + [first] + [second], upstreams) ==
            Step(Step(Run(moves, upstreams), upstreams, first), upstreams, second)
  {
    RunOn(moves, first, upstreams);
    RunOn(moves + [first], second, upstreams);
  }

  /** With five upstreams or more, a slow walk outlives its lock and a second one starts beside it. */
  lemma {:induction false} SlowWalkOutlivesLock(sub: string, upstreams: nat)
    requires !EndsInTime(upstreams)
    ensures var moves := SlowWalk(sub, 5) + [Tick(REQUEST_TIMEOUT)] + [Start(sub, true)];
            !OneAtATime(Run(moves, upstreams))
  {
    SlowWalkGoesOn(sub, 5, upstreams);
    RunOn(SlowWalk(sub, 5), Tick(REQUEST_TIMEOUT), upstreams);
    RunOn(SlowWalk(sub, 5) + [Tick(REQUEST_TIMEOUT)], Start(sub, true), upstreams);
    var w := Run(SlowWalk(sub, 5) + [Tick(REQUEST_TIMEOUT)] + [Start(sub, true)], upstreams);
    assert InFlight(w, 0) && InFlight(w, 1) && w.refreshes[0].sub == w.refreshes[1].sub;
  }

  /** One refresh at a time per user, in every interleaving, if and only if all walks end inside the lock's lifetime. */
  lemma {:induction false} OneAtATimeIffWalksEnd(upstreams: nat)
    ensures (forall moves :: OneAtATime(Run(moves, upstreams))) <==> EndsInTime(upstreams)
    ensures EndsInTime(upstreams) <==> upstreams <= 4
  {
    if EndsInTime(upstreams) {
      forall moves ensures OneAtATime(Run(moves, upstreams)) {
        SafeWhenWalksEnd(moves, upstreams);
      }
    } else {
      SlowWalkOutlivesLock("u", upstreams);
    }
  }

  // ---- What each walk reports ----

  ghost predicate Sound(r: Refresh, upstreams: nat)
  {
    r.progress.Ended? && r.progress.outcome != Deduped ==>
      DecidedBy(r.withPrimary, upstreams, r.answers, r.progress.outcome)
  }

  lemma AnswerDecides(r: Refresh, upstreams: nat, answer: EndpointOutcome)
    requires Undecided(r.withPrimary, r.answers) && |r.answers| < Total(r.withPrimary, upstreams)
    ensures var answers := r.answers + [answer];
            match Settled(r.withPrimary, |r.answers|, answer)
            case Some(outcome) => DecidedBy(r.withPrimary, upstreams, answers, outcome)
            case None =>
              && Undecided(r.withPrimary, answers)
              && (|answers| == Total(r.withPrimary, upstreams) ==> DecidedBy(r.withPrimary, upstreams, answers, Failed))
  {
    assert (r.answers + [answer])[..|r.answers|] == r.answers;
  }

  ghost predicate Consistent(r: Refresh, upstreams: nat)
  {
    && (r.progress.Walking? ==> Undecided(r.withPrimary, r.answers) && |r.answers| < Total(r.withPrimary, upstreams))
    && Sound(r, upstreams)
  }

  ghost predicate AllConsistent(w: World, upstreams: nat)
  {
    forall i | 0 <= i < |w.refreshes| :: Consistent(w.refreshes[i], upstreams)
  }

  /**
   For any number of upstreams and in every interleaving: a finished walk reports what the first
   settling answer says, asked no endpoint after it, and reports failure only after all of them. On the
   answers themselves: "not needed" is reported exactly for a primary that said so; otherwise the tokens of
   the last endpoint asked, when none before it gave any; otherwise failure, with all endpoints asked.
   */
  lemma {:induction false} OutcomeIsFirstSettlingAnswer(moves: seq<Move>, upstreams: nat, i: nat)
    requires var w := Run(moves, upstreams);
             i < |w.refreshes| && w.refreshes[i].progress.Ended? && w.refreshes[i].progress.outcome != Deduped
    ensures var r := Run(moves, upstreams).refreshes[i];
            var outcome, n := r.progress.outcome, |r.answers|;
            && (outcome == Skipped <==> r.withPrimary && n > 0 && r.answers[0] == Unneeded)
            && (outcome == Skipped ==> n == 1)
            && (forall t :: outcome == Rotated(t) <==>
                  && n > 0 && r.answers[n - 1] == Tokens(t) && !(r.withPrimary && r.answers[0] == Unneeded)
                  && forall k | 0 <= k < n - 1 :: !r.answers[k].Tokens?)
            && (!outcome.Skipped? && !outcome.Rotated? ==>
                  && outcome == Failed && n == upstreams + (if r.withPrimary then 1 else 0)
                  && forall k | 0 <= k < n :: !r.answers[k].Tokens?)
  {
    RunIsConsistent(moves, upstreams);
    var r := Run(moves, upstreams).refreshes[i];
    assert Consistent(r, upstreams);
    DecidedOnAnswers(r.withPrimary, upstreams, r.answers, r.progress.outcome);
  }

  /** A walk that goes on has endpoints left, and none of its answers so far ended it; the next answer is added. */
  lemma {:induction false} WalkGoesOn(moves: seq<Move>, upstreams: nat, i: nat, answer: EndpointOutcome)
    requires InFlight(Run(moves, upstreams), i)
    ensures var w := Run(moves, upstreams);
            var r, after := w.refreshes[i], Step(w, upstreams, Answer(i, answer));
            && |r.answers| < upstreams + (if r.withPrimary then 1 else 0)
            && (forall k | 0 <= k < |r.answers| :: !r.answers[k].Tokens?)
            && !(r.withPrimary && r.answers != [] && r.answers[0] == Unneeded)
            && i < |after.refreshes| && after.refreshes[i].answers == r.answers + [answer]
  {
    RunIsConsistent(moves, upstreams);
    assert Consistent(Run(moves, upstreams).refreshes[i], upstreams);
  }

  lemma DecidedOnAnswers(withPrimary: bool, upstreams: nat, answers: seq<EndpointOutcome>, outcome: RefreshOutcome)
    requires DecidedBy(withPrimary, upstreams, answers, outcome)
    ensures outcome == Skipped <==> withPrimary && answers != [] && answers[0] == Unneeded
    ensures outcome == Skipped ==> |answers| == 1
    ensures outcome.Rotated? <==>
              answers != [] && answers[|answers| - 1].Tokens? && !(withPrimary && answers[0] == Unneeded)
    ensures outcome.Rotated? ==> answers[|answers| - 1] == Tokens(outcome.tokens)
    ensures outcome.Rotated? ==> forall k | 0 <= k < |answers| - 1 :: !answers[k].Tokens?
    ensures outcome.Failed? ==> |answers| == Total(withPrimary, upstreams)
    ensures outcome.Failed? ==> forall k | 0 <= k < |answers| :: !answers[k].Tokens?
    ensures outcome != Deduped
  {
    var n := |answers|;
    if n > 1 {
      assert Undecided(withPrimary, answers[..n - 1]);
      assert answers[..n - 1][0] == answers[0];
    }
    forall k | 0 <= k < n - 1 ensures !answers[k].Tokens? {
      assert answers[..n - 1][k] == answers[k];
    }
  }

  lemma {:induction false} RunIsConsistent(moves: seq<Move>, upstreams: nat)
    ensures AllConsistent(Run(moves, upstreams), upstreams)
  {
    if moves == [] {
    } else {
      var w, move := Run(moves[..|moves| - 1], upstreams), moves[|moves| - 1];
      RunIsConsistent(moves[..|moves| - 1], upstreams);
      if move.Answer? && InFlight(w, move.i) {
        assert Consistent(w.refreshes[move.i], upstreams);
        AnswerDecides(w.refreshes[move.i], upstreams, move.answer);
      }
    }
  }
}
