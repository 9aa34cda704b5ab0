/**
 The cached permission context: deriving it from the tables, and the three Redis keys per user that
 stand between requests and the database (apps/portal/src/lib/permissions.ts). Times are milliseconds;
 each call is atomic.
 */
module PermissionCache {
  import opened Wrappers

  const CONTEXT_TTL := 3600000
  const CONTEXT_TTL_JITTER := 300000
  const MISSING_TTL := 60000
  const UNAVAILABLE_TTL := 5000

  // ---- Deriving the context ----

  datatype PermissionRow = PermissionRow(code: string, active: bool)
  datatype RoleRow = RoleRow(id: string, code: string, name: string, dept: Option<string>, active: bool,
                             permissions: seq<Option<PermissionRow>>)

  /** A user with the nested rows one query brings; a link to a deleted row reads as `None`. */
  datatype UserRow = UserRow(active: bool, passwordChanged: bool, roles: seq<Option<RoleRow>>)

  datatype RoleBrief = RoleBrief(id: string, code: string, name: string)
  datatype Context =
    Context(roles: seq<RoleBrief>, permissions: seq<string>, deptIds: seq<string>, mustChangePassword: bool)

  /** Elements in order of their first occurrence. */
  function Distinct(s: seq<string>): (d: seq<string>)
    ensures forall x :: x in d <==> x in s
    ensures forall i, j | 0 <= i < j < |d| :: d[i] != d[j]
  {
    if s == [] then []
    else
      var before, last := s[..|s| - 1], s[|s| - 1];
      assert s == before + [last];
      if last in before then Distinct(before) else Distinct(before) + [last]
  }

  function ActiveRoles(roles: seq<Option<RoleRow>>): seq<RoleRow>
  {
    if roles == [] then []
    else (if roles[0].Some? && roles[0].value.active then [roles[0].value] else []) + ActiveRoles(roles[1..])
  }

  function ActiveCodes(permissions: seq<Option<PermissionRow>>): seq<string>
  {
    if permissions == [] then []
    else
      (if permissions[0].Some? && permissions[0].value.active then [permissions[0].value.code] else [])
      + ActiveCodes(permissions[1..])
  }

  function CodesOf(roles: seq<RoleRow>): seq<string>
  {
    if roles == [] then [] else ActiveCodes(roles[0].permissions) + CodesOf(roles[1..])
  }

  function DeptsOf(roles: seq<RoleRow>): seq<string>
  {
    if roles == [] then []
    else (if roles[0].dept.Some? && roles[0].dept.value != "" then [roles[0].dept.value] else []) + DeptsOf(roles[1..])
  }

  function Briefs(roles: seq<RoleRow>): seq<RoleBrief>
  {
    seq(|roles|, i requires 0 <= i < |roles| => RoleBrief(roles[i].id, roles[i].code, roles[i].name))
  }

  datatype DenyReason = Missing | Inactive

  datatype Answer = Granted(context: Context) | Denied(reason: DenyReason) | Unavailable

  /** What a working database says about a user. */
  function Derived(row: Option<UserRow>): Answer
  {
    match row
    case None => Denied(Missing)
    case Some(user) =>
      if !user.active then Denied(Inactive)
      else
        var roles := ActiveRoles(user.roles);
        Granted(Context(Briefs(roles), Distinct(CodesOf(roles)), Distinct(DeptsOf(roles)), !user.passwordChanged))
  }

  /** The row grants the code through an active role and an active permission. */
  ghost predicate GrantsCode(user: UserRow, code: string)
  {
    exists i, k | 0 <= i < |user.roles| && user.roles[i].Some? && 0 <= k < |user.roles[i].value.permissions| ::
      user.roles[i].value.active && user.roles[i].value.permissions[k] == Some(PermissionRow(code, true))
  }

  lemma {:induction false} ActiveRolesAreThose(roles: seq<Option<RoleRow>>, role: RoleRow)
    ensures role in ActiveRoles(roles) <==> role.active && exists i | 0 <= i < |roles| :: roles[i] == Some(role)
  {
    if roles == [] {
    } else {
      ActiveRolesAreThose(roles[1..], role);
      if i :| 0 <= i < |roles| && roles[i] == Some(role) && i > 0 {
        assert roles[1..][i - 1] == Some(role);
      }
    }
  }

  lemma {:induction false} ActiveCodesAreThose(permissions: seq<Option<PermissionRow>>, code: string)
    ensures code in ActiveCodes(permissions) <==>
            exists k | 0 <= k < |permissions| :: permissions[k] == Some(PermissionRow(code, true))
  {
    if permissions == [] {
    } else {
      ActiveCodesAreThose(permissions[1..], code);
      if k :| 0 <= k < |permissions| && permissions[k] == Some(PermissionRow(code, true)) && k > 0 {
        assert permissions[1..][k - 1] == Some(PermissionRow(code, true));
      }
    }
  }

  lemma {:induction false} CodesOfAreThose(roles: seq<RoleRow>, code: string)
    ensures code in CodesOf(roles) <==> exists i | 0 <= i < |roles| :: code in ActiveCodes(roles[i].permissions)
  {
    if roles == [] {
    } else {
      CodesOfAreThose(roles[1..], code);
      if i :| 0 <= i < |roles| && code in ActiveCodes(roles[i].permissions) && i > 0 {
        assert code in ActiveCodes(roles[1..][i - 1].permissions);
      }
    }
  }

  /** A granted context lists exactly the codes of active permissions of active roles, each once. */
  lemma DerivedCodes(user: UserRow, code: string)
    requires user.active
    ensures Derived(Some(user)).Granted?
    ensures code in Derived(Some(user)).context.permissions <==> GrantsCode(user, code)
    ensures var p := Derived(Some(user)).context.permissions; forall i, j | 0 <= i < j < |p| :: p[i] != p[j]
  {
    var roles := ActiveRoles(user.roles);
    CodesOfAreThose(roles, code);
    if i :| 0 <= i < |roles| && code in ActiveCodes(roles[i].permissions) {
      ActiveRolesAreThose(user.roles, roles[i]);
      ActiveCodesAreThose(roles[i].permissions, code);
      var j :| 0 <= j < |user.roles| && user.roles[j] == Some(roles[i]);
      var k :| 0 <= k < |roles[i].permissions| && roles[i].permissions[k] == Some(PermissionRow(code, true));
      assert user.roles[j].value.permissions[k] == Some(PermissionRow(code, true));
    }
    if GrantsCode(user, code) {
      var i, k :| 0 <= i < |user.roles| && user.roles[i].Some? && 0 <= k < |user.roles[i].value.permissions| &&
                  user.roles[i].value.active && user.roles[i].value.permissions[k] == Some(PermissionRow(code, true));
      ActiveRolesAreThose(user.roles, user.roles[i].value);
      ActiveCodesAreThose(user.roles[i].value.permissions, code);
    }
  }

  lemma {:induction false} DeptsOfAreThose(roles: seq<RoleRow>, dept: string)
    ensures dept in DeptsOf(roles) <==> dept != "" && exists i | 0 <= i < |roles| :: roles[i].dept == Some(dept)
  {
    if roles == [] {
    } else {
      DeptsOfAreThose(roles[1..], dept);
      if i :| 0 <= i < |roles| && roles[i].dept == Some(dept) && i > 0 {
        assert roles[1..][i - 1].dept == Some(dept);
      }
    }
  }

  /** Row `i` of the user is an active role. */
  predicate ActiveRole(user: UserRow, i: nat)
  {
    i < |user.roles| && user.roles[i].Some? && user.roles[i].value.active
  }

  /**
   The rest of a granted context: the active roles by id, code and name, their departments without repeats, and
   whether the password is still the first one.
   */
  lemma DerivedContext(user: UserRow, brief: RoleBrief, dept: string)
    requires user.active
    ensures Derived(Some(user)).Granted?
    ensures var c := Derived(Some(user)).context;
            && (c.mustChangePassword <==> !user.passwordChanged)
            && (brief in c.roles <==>
                  exists i: nat :: ActiveRole(user, i) &&
                    var r := user.roles[i].value; brief == RoleBrief(r.id, r.code, r.name))
            && (dept in c.deptIds <==>
                  dept != "" && exists i: nat :: ActiveRole(user, i) && user.roles[i].value.dept == Some(dept))
            && forall i, j | 0 <= i < j < |c.deptIds| :: c.deptIds[i] != c.deptIds[j]
  {
    var roles := ActiveRoles(user.roles);
    DeptsOfAreThose(roles, dept);
    forall role ensures role in roles <==> exists i: nat :: ActiveRole(user, i) && user.roles[i].value == role {
      ActiveRolesAreThose(user.roles, role);
      if i: nat :| ActiveRole(user, i) && user.roles[i].value == role {
        assert user.roles[i] == Some(role);
      }
      if i :| 0 <= i < |user.roles| && user.roles[i] == Some(role) && role.active {
        assert ActiveRole(user, i);
      }
    }
    var briefs := Briefs(roles);
    if k :| 0 <= k < |briefs| && briefs[k] == brief {
      assert roles[k] in roles;
    }
    if i: nat :| ActiveRole(user, i) && var r := user.roles[i].value; brief == RoleBrief(r.id, r.code, r.name) {
      assert user.roles[i].value in roles;
      var k :| 0 <= k < |roles| && roles[k] == user.roles[i].value;
      assert briefs[k] == brief;
    }
    if i: nat :| ActiveRole(user, i) && user.roles[i].value.dept == Some(dept) {
      assert user.roles[i].value in roles;
    }
    if k :| 0 <= k < |roles| && roles[k].dept == Some(dept) {
      assert roles[k] in roles;
    }
  }

  // ---- The three keys ----

  datatype Cached = Cached(context: Context, expires: int)

  /** Contexts, "no such user" marks and "database down" marks, with their expiry times. */
  datatype Keys = Keys(contexts: map<string, Cached>, missing: map<string, int>, unavailable: map<string, int>)

  predicate Marked(marks: map<string, int>, user: string, now: int)
  {
    user in marks && now < marks[user]
  }

  predicate HasContext(k: Keys, user: string, now: int)
  {
    user in k.contexts && now < k.contexts[user].expires
  }

  /** The random part of the TTL. */
  type Jitter = j: int | -CONTEXT_TTL_JITTER <= j <= CONTEXT_TTL_JITTER

  /** The answer a lookup finds in Redis, if any. */
  function FromKeys(k: Keys, user: string, now: int): Option<Answer>
  {
    if Marked(k.unavailable, user, now) then Some(Unavailable)
    else if Marked(k.missing, user, now) then Some(Denied(Missing))
    else if HasContext(k, user, now) then Some(Granted(k.contexts[user].context))
    else None
  }

  /** What a database read writes back. */
  function WrittenBack(k: Keys, user: string, now: int, answer: Answer, jitter: Jitter): Keys
  {
    match answer
    case Granted(context) => k.(contexts := k.contexts[user := Cached(context, now + CONTEXT_TTL + jitter)])
    case Denied(Missing) => k.(missing := k.missing[user := now + MISSING_TTL])
    case Denied(Inactive) => k
    case Unavailable => k.(unavailable := k.unavailable[user := now + UNAVAILABLE_TTL])
  }

  /** The database side of a call: the user's row, or `None` when the database fails. */
  type DbReply = Option<Option<UserRow>>

  function Read(db: DbReply): Answer
  {
    if db.Some? then Derived(db.value) else Unavailable
  }

  predicate AsksDatabase(k: Keys, user: string, now: int, redisUp: bool)
  {
    !redisUp || FromKeys(k, user, now).None?
  }

  function LookedUp(k: Keys, user: string, now: int, redisUp: bool, db: DbReply, jitter: Jitter): (Answer, Keys)
  {
    if !AsksDatabase(k, user, now, redisUp) then (FromKeys(k, user, now).value, k)
    else (Read(db), if redisUp then WrittenBack(k, user, now, Read(db), jitter) else k)
  }

  function Forgotten(k: Keys, user: string): Keys
  {
    Keys(k.contexts - {user}, k.missing - {user}, k.unavailable)
  }

  function Refreshed(k: Keys, user: string, now: int, redisUp: bool, db: DbReply, jitter: Jitter): (bool, Keys)
  {
    if !redisUp then (false, k)
    else
      var (answer, after) := LookedUp(Forgotten(k, user), user, now, redisUp, db, jitter);
      (answer.Granted?, after)
  }

  function Cleared(k: Keys, user: string, redisUp: bool): Keys
  {
    if redisUp then Forgotten(k, user) else k
  }

  datatype Issuance = Issued(prefilled: bool) | Refused(reason: DenyReason)

  function ForIssuance(k: Keys, user: string, now: int, redisUp: bool, db: DbReply, jitter: Jitter,
                       prefillJitter: Jitter)
    : (Issuance, Keys)
  {
    var (answer, after) := LookedUp(k, user, now, redisUp, db, jitter);
    match answer
    case Denied(reason) => (Refused(reason), after)
    case Unavailable => (Issued(false), after)
    case Granted(_) => (Issued(true), if redisUp then WrittenBack(after, user, now, answer, prefillJitter) else after)
  }

  class PermissionStore {
    var contexts: map<string, Cached>
    var missing: map<string, int>
    var unavailable: map<string, int>

    constructor ()
      ensures Current() == Keys(map[], map[], map[])
    {
      contexts, missing, unavailable := map[], map[], map[];
    }

    function Current(): Keys
      reads this
    {
      Keys(contexts, missing, unavailable)
    }

    method GetUserPermissionContext(user: string, now: int, redisUp: bool, db: DbReply, jitter: Jitter)
      returns (answer: Answer)
      modifies this
      ensures (answer, Current()) == LookedUp(old(Current()), user, now, redisUp, db, jitter)
    {
      if redisUp {
        if user in unavailable && now < unavailable[user] {
          return Unavailable;
        }
        if user in missing && now < missing[user] {
          return Denied(Missing);
        }
        if user in contexts && now < contexts[user].expires {
          return Granted(contexts[user].context);
        }
      }
      if db.None? {
        if redisUp {
          unavailable := unavailable[user := now + UNAVAILABLE_TTL];
        }
        return Unavailable;
      }
      answer := Derived(db.value);
      if redisUp {
        match answer {
          case Granted(context) => contexts := contexts[user := Cached(context, now + CONTEXT_TTL + jitter)];
          case Denied(Missing) => missing := missing[user := now + MISSING_TTL];
          case Denied(Inactive) =>
        }
      }
    }

    method RefreshUserPermissionCache(user: string, now: int, redisUp: bool, db: DbReply, jitter: Jitter)
      returns (ok: bool)
      modifies this
      ensures (ok, Current()) == Refreshed(old(Current()), user, now, redisUp, db, jitter)
    {
      if !redisUp {
        return false;
      }
      contexts, missing := contexts - {user}, missing - {user};
      var answer := GetUserPermissionContext(user, now, redisUp, db, jitter);
      ok := answer.Granted?;
    }

    method ClearUserPermissionCache(user: string, redisUp: bool)
      modifies this
      ensures Current() == Cleared(old(Current()), user, redisUp)
    {
      if redisUp {
        contexts, missing := contexts - {user}, missing - {user};
      }
    }

    method ResolveIssuancePermission(user: string, now: int, redisUp: bool, db: DbReply, jitter: Jitter,
                                     prefillJitter: Jitter)
      returns (issuance: Issuance)
      modifies this
      ensures (issuance, Current()) == ForIssuance(old(Current()), user, now, redisUp, db, jitter, prefillJitter)
    {
      var answer := GetUserPermissionContext(user, now, redisUp, db, jitter);
      match answer {
        case Denied(reason) => return Refused(reason);
        case Unavailable => return Issued(false);
        case Granted(context) =>
          if redisUp {
            contexts := contexts[user := Cached(context, now + CONTEXT_TTL + prefillJitter)];
          }
          return Issued(true);
      }
    }
  }

  // ---- What each call answers ----

  /** Some key of the user is live in Redis: nothing but these keys answers a lookup then. */
  predicate AnyKey(k: Keys, user: string, now: int)
  {
    Marked(k.unavailable, user, now) || Marked(k.missing, user, now) || HasContext(k, user, now)
  }

  /** A lookup answers from the first live key, failure mark, absence mark, context, or else from the database. */
  lemma LookupAnswer(k: Keys, user: string, now: int, redisUp: bool, db: DbReply, jitter: Jitter)
    ensures var answer := LookedUp(k, user, now, redisUp, db, jitter).0;
            if redisUp && AnyKey(k, user, now) then
              && (answer == Unavailable <==> Marked(k.unavailable, user, now))
              && (answer == Denied(Missing) <==> !Marked(k.unavailable, user, now) && Marked(k.missing, user, now))
              && answer != Denied(Inactive)
              && (answer.Granted? ==> HasContext(k, user, now) && answer.context == k.contexts[user].context)
            else
              && (answer == Unavailable <==> db == None)
              && (answer == Denied(Missing) <==> db == Some(None))
              && (answer == Denied(Inactive) <==> db.Some? && db.value.Some? && !db.value.value.active)
              && (answer.Granted? <==> db.Some? && db.value.Some? && db.value.value.active)
    ensures !redisUp ==> LookedUp(k, user, now, redisUp, db, jitter).1 == k
  {
  }

  /** What the database said is said again from Redis: for a minute, for five seconds, or for 55 minutes at least. */
  lemma LookupIsRemembered(k: Keys, user: string, now: int, db: DbReply, jitter: Jitter, later: int)
    requires !AnyKey(k, user, now) && now <= later
    ensures var (answer, after) := LookedUp(k, user, now, true, db, jitter);
            && (answer == Unavailable ==> (FromKeys(after, user, later) == Some(answer) <==> later < now + 5000))
            && (answer == Denied(Missing) ==> (FromKeys(after, user, later) == Some(answer) <==> later < now + 60000))
            && (answer == Denied(Inactive) ==> after == k)
            && (answer.Granted? ==> (FromKeys(after, user, later) == Some(answer) <==> later < now + 3600000 + jitter))
  {
  }

  /**
   Whether tokens may be issued. With the database asked: refused exactly for a missing or inactive user, issued
   without a prefill when it fails. Otherwise the first live key decides, and only the absence mark refuses.
   */
  lemma IssuanceAnswer(k: Keys, user: string, now: int, redisUp: bool, db: DbReply, jitter: Jitter,
                       prefillJitter: Jitter)
    ensures var issuance := ForIssuance(k, user, now, redisUp, db, jitter, prefillJitter).0;
            if redisUp && AnyKey(k, user, now) then
              issuance == if Marked(k.unavailable, user, now) then Issued(false)
                          else if Marked(k.missing, user, now) then Refused(Missing)
                          else Issued(true)
            else
              && (issuance == Refused(Missing) <==> db == Some(None))
              && (issuance == Refused(Inactive) <==> db.Some? && db.value.Some? && !db.value.value.active)
              && (issuance == Issued(false) <==> db == None)
              && (issuance == Issued(true) <==> db.Some? && db.value.Some? && db.value.value.active)
    ensures !redisUp ==> ForIssuance(k, user, now, redisUp, db, jitter, prefillJitter).1 == k
  {
    LookupAnswer(k, user, now, redisUp, db, jitter);
  }

  /** An issuance with a prefill leaves the user's context, the cached or the current one, with a new lifetime. */
  lemma IssuancePrefills(k: Keys, user: string, now: int, db: DbReply, jitter: Jitter, prefillJitter: Jitter,
                         later: int)
    requires now <= later
    ensures var (issuance, after) := ForIssuance(k, user, now, true, db, jitter, prefillJitter);
            issuance == Issued(true) ==>
              var context := if HasContext(k, user, now) then k.contexts[user].context else Read(db).context;
              && (HasContext(k, user, now) || Read(db).Granted?)
              && (FromKeys(after, user, later) == Some(Granted(context)) <==> later < now + 3600000 + prefillJitter)
              && forall other | other != user ::
                   (other in after.contexts <==> other in k.contexts) &&
                   (other in k.contexts ==> after.contexts[other] == k.contexts[other])
  {
    LookupAnswer(k, user, now, true, db, jitter);
  }

  /** A clear that reaches Redis drops context and absence mark of this user only, and no failure mark. */
  lemma ClearForgets(k: Keys, user: string, other: string, now: int)
    ensures var after := Cleared(k, user, true);
            && !HasContext(after, user, now) && !Marked(after.missing, user, now) && after.unavailable == k.unavailable
            && (other != user ==>
                  && (HasContext(after, other, now) <==> HasContext(k, other, now))
                  && FromKeys(after, other, now) == FromKeys(k, other, now))
    ensures Cleared(k, user, false) == k
  {
  }

  // ---- Runs against a changing database ----

  type Database = map<string, UserRow>

  /** One database read: whose, when, of which version, with what answer (`Unavailable` for a failure). */
  datatype DbRead = DbRead(user: string, at: int, version: nat, answer: Answer)

  /** A context written back by an issuance: whose, when, and how many reads there had been before. */
  datatype Prefill = Prefill(user: string, at: int, seen: nat)

  /**
   The world with its history: every version of the database, every read and every prefill so far, and for
   each user the version that was current at the last refresh or clear.
   */
  datatype World = World(now: int, versions: seq<Database>, keys: Keys, log: seq<DbRead>, prefills: seq<Prefill>,
                         floor: map<string, nat>)

  datatype Move =
    | Elapse(elapsed: nat)
    | Write(db: Database)
    | Lookup(user: string, redisUp: bool, dbUp: bool, jitter: Jitter)
    | Refresh(user: string, redisUp: bool, dbUp: bool, jitter: Jitter)
    | Clear(user: string, redisUp: bool)
    | Issue(user: string, redisUp: bool, dbUp: bool, jitter: Jitter, prefillJitter: Jitter)

  function Begin(db: Database): World
  {
    World(0, [db], Keys(map[], map[], map[]), [], [], map[])
  }

  function Row(db: Database, user: string): Option<UserRow>
  {
    if user in db then Some(db[user]) else None
  }

  function Reply(w: World, user: string, dbUp: bool): DbReply
    requires w.versions != []
  {
    if dbUp then Some(Row(w.versions[|w.versions| - 1], user)) else None
  }

  function Logged(w: World, keys: Keys, user: string, redisUp: bool, dbUp: bool): seq<DbRead>
    requires w.versions != []
  {
    if AsksDatabase(keys, user, w.now, redisUp) then
      w.log + [DbRead(user, w.now, |w.versions| - 1, Read(Reply(w, user, dbUp)))]
    else w.log
  }

  function Step(w: World, move: Move): World
    requires w.versions != []
  {
    match move
    case Elapse(elapsed) => w.(now := w.now + elapsed)
    case Write(db) => w.(versions := w.versions + [db])
    case Lookup(user, redisUp, dbUp, jitter) =>
      w.(keys := LookedUp(w.keys, user, w.now, redisUp, Reply(w, user, dbUp), jitter).1,
         log := Logged(w, w.keys, user, redisUp, dbUp))
    case Refresh(user, redisUp, dbUp, jitter) =>
      if !redisUp then w
      else
        w.(keys := Refreshed(w.keys, user, w.now, redisUp, Reply(w, user, dbUp), jitter).1,
           log := Logged(w, Forgotten(w.keys, user), user, redisUp, dbUp),
           floor := w.floor[user := |w.versions| - 1])
    case Clear(user, redisUp) =>
      if !redisUp then w
      else w.(keys := Cleared(w.keys, user, redisUp), floor := w.floor[user := |w.versions| - 1])
    case Issue(user, redisUp, dbUp, jitter, prefillJitter) =>
      var log := Logged(w, w.keys, user, redisUp, dbUp);
      var (issuance, keys) := ForIssuance(w.keys, user, w.now, redisUp, Reply(w, user, dbUp), jitter, prefillJitter);
      w.(keys := keys, log := log,
         prefills := w.prefills + if redisUp && issuance == Issued(true) then [Prefill(user, w.now, |log|)] else [])
  }

  function Run(db: Database, moves: seq<Move>): (w: World)
    ensures w.versions != []
  {
    if moves == [] then Begin(db) else Step(Run(db, moves[..|moves| - 1]), moves[|moves| - 1])
  }

  function Floor(w: World, user: string): nat
  {
    if user in w.floor then w.floor[user] else 0
  }

  // ---- What the keys remember ----

  /** A read of the given user with the given answer, at or after the given time. */
  ghost predicate WasRead(log: seq<DbRead>, user: string, answer: Answer, since: int)
  {
    exists i | 0 <= i < |log| :: log[i].user == user && log[i].answer == answer && log[i].at >= since
  }

  ghost predicate LogIsTrue(w: World)
  {
    forall i | 0 <= i < |w.log| ::
      && w.log[i].version < |w.versions| && w.log[i].at <= w.now
      && (w.log[i].answer != Unavailable ==>
            w.log[i].answer == Derived(Row(w.versions[w.log[i].version], w.log[i].user)))
  }

  const MAX_CONTEXT_TTL := CONTEXT_TTL + CONTEXT_TTL_JITTER

  /** How often a context was written back for the user after read `i`. */
  function Fills(prefills: seq<Prefill>, user: string, i: nat): nat
  {
    if prefills == [] then 0
    else
      var p := prefills[|prefills| - 1];
      Fills(prefills[..|prefills| - 1], user, i) + if p.user == user && p.seen > i then 1 else 0
  }

  /** Some prefill for the user after read `i` reaches to the given expiry. */
  ghost predicate Prefilled(prefills: seq<Prefill>, user: string, i: nat, expires: int)
  {
    exists p :: p in prefills && p.user == user && p.seen > i && expires <= p.at + MAX_CONTEXT_TTL
  }

  /**
   Read `i` explains a cached context: it gave that context at or after the version, and the expiry is one
   lifetime after it or after a later prefill, and at most one lifetime further for each later prefill.
   */
  ghost predicate Explains(log: seq<DbRead>, prefills: seq<Prefill>, i: nat, user: string, cached: Cached, version: nat)
  {
    && i < |log| && log[i].user == user && log[i].answer == Granted(cached.context) && log[i].version >= version
    && (cached.expires <= log[i].at + MAX_CONTEXT_TTL || Prefilled(prefills, user, i, cached.expires))
    && cached.expires <= log[i].at + MAX_CONTEXT_TTL * (1 + Fills(prefills, user, i))
  }

  ghost predicate Explained(log: seq<DbRead>, prefills: seq<Prefill>, user: string, cached: Cached, version: nat)
  {
    exists i: nat :: Explains(log, prefills, i, user, cached, version)
  }

  /** Every key goes back to a read; a context to one not before the user's floor. */
  ghost predicate Backed(w: World, user: string)
  {
    var k := w.keys;
    && (user in k.contexts ==> Explained(w.log, w.prefills, user, k.contexts[user], Floor(w, user)))
    && (user in k.missing ==> WasRead(w.log, user, Denied(Missing), k.missing[user] - MISSING_TTL))
    && (user in k.unavailable ==> WasRead(w.log, user, Unavailable, k.unavailable[user] - UNAVAILABLE_TTL))
  }

  ghost predicate Invariant(w: World)
  {
    && w.versions != [] && w.now >= 0 && LogIsTrue(w)
    && (forall user :: Floor(w, user) < |w.versions|)
    && forall user :: Backed(w, user)
  }

  lemma ReadsAreKept(log: seq<DbRead>, read: DbRead, user: string, answer: Answer, since: int)
    ensures WasRead(log, user, answer, since) ==> WasRead(log + [read], user, answer, since)
    ensures read.user == user && read.answer == answer && read.at >= since ==>
              WasRead(log + [read], user, answer, since)
  {
    if i :| 0 <= i < |log| && log[i].user == user && log[i].answer == answer && log[i].at >= since {
      assert (log + [read])[i] == log[i];
    }
    assert (log + [read])[|log|] == read;
  }

  lemma StillExplained(log: seq<DbRead>, read: DbRead, prefills: seq<Prefill>, user: string, cached: Cached,
                       version: nat)
    requires Explained(log, prefills, user, cached, version)
    ensures Explained(log + [read], prefills, user, cached, version)
  {
    var i: nat :| Explains(log, prefills, i, user, cached, version);
    assert (log + [read])[i] == log[i];
    assert Explains(log + [read], prefills, i, user, cached, version);
  }

  /** A read explains the context written back at once. */
  lemma FreshIsExplained(log: seq<DbRead>, prefills: seq<Prefill>, read: DbRead, jitter: Jitter)
    requires read.answer.Granted?
    ensures var cached := Cached(read.answer.context, read.at + CONTEXT_TTL + jitter);
            Explained(log + [read], prefills, read.user, cached, read.version)
  {
    var cached := Cached(read.answer.context, read.at + CONTEXT_TTL + jitter);
    assert (log + [read])[|log|] == read;
    assert Explains(log + [read], prefills, |log|, read.user, cached, read.version);
  }

  lemma OlderFloor(log: seq<DbRead>, prefills: seq<Prefill>, user: string, cached: Cached, version: nat, lower: nat)
    requires Explained(log, prefills, user, cached, version) && lower <= version
    ensures Explained(log, prefills, user, cached, lower)
  {
    var i: nat :| Explains(log, prefills, i, user, cached, version);
    assert Explains(log, prefills, i, user, cached, lower);
  }

  /** A prefill of a live context moves its expiry by at most one lifetime. */
  lemma PrefillIsExplained(w: World, user: string, cached: Cached, version: nat, jitter: Jitter)
    requires Explained(w.log, w.prefills, user, cached, version) && w.now <= cached.expires
    ensures var filled := cached.(expires := w.now + CONTEXT_TTL + jitter);
            Explained(w.log, w.prefills + [Prefill(user, w.now, |w.log|)], user, filled, version)
  {
    var i: nat :| Explains(w.log, w.prefills, i, user, cached, version);
    var filled := cached.(expires := w.now + CONTEXT_TTL + jitter);
    var p := Prefill(user, w.now, |w.log|);
    OneMoreFill(w.prefills, p, i, filled.expires);
    assert Explains(w.log, w.prefills + [p], i, user, filled, version);
  }

  lemma {:induction false} OneMoreFill(prefills: seq<Prefill>, p: Prefill, i: nat, expires: int)
    requires p.seen > i && expires <= p.at + MAX_CONTEXT_TTL
    ensures Fills(prefills + [p], p.user, i) == Fills(prefills, p.user, i) + 1
    ensures Prefilled(prefills + [p], p.user, i, expires)
  {
    assert (prefills + [p])[..|prefills|] == prefills;
    assert p in prefills + [p];
  }

  lemma OthersStayExplained(log: seq<DbRead>, prefills: seq<Prefill>, p: Prefill, user: string, cached: Cached,
                            version: nat)
    requires Explained(log, prefills, user, cached, version)
    ensures Explained(log, prefills + [p], user, cached, version)
  {
    var i: nat :| Explains(log, prefills, i, user, cached, version);
    assert (prefills + [p])[..|prefills|] == prefills;
    assert Prefilled(prefills, user, i, cached.expires) ==> Prefilled(prefills + [p], user, i, cached.expires);
    assert Explains(log, prefills + [p], i, user, cached, version);
  }

  lemma BackedByMore(w: World, read: DbRead, user: string)
    requires Backed(w, user)
    ensures Backed(w.(log := w.log + [read]), user)
  {
    var k := w.keys;
    if user in k.contexts {
      StillExplained(w.log, read, w.prefills, user, k.contexts[user], Floor(w, user));
    }
    if user in k.missing {
      ReadsAreKept(w.log, read, user, Denied(Missing), k.missing[user] - MISSING_TTL);
    }
    if user in k.unavailable {
      ReadsAreKept(w.log, read, user, Unavailable, k.unavailable[user] - UNAVAILABLE_TTL);
    }
  }

  /** A read just logged may be written back. */
  lemma WriteBackIsBacked(w: World, user: string, version: nat, answer: Answer, jitter: Jitter, other: string)
    requires Backed(w, other) && w.now >= 0 && Floor(w, user) <= version
    ensures var log := w.log + [DbRead(user, w.now, version, answer)];
            Backed(w.(keys := WrittenBack(w.keys, user, w.now, answer, jitter), log := log), other)
  {
    var read := DbRead(user, w.now, version, answer);
    BackedByMore(w, read, other);
    if other == user {
      match answer {
        case Granted(context) =>
          FreshIsExplained(w.log, w.prefills, read, jitter);
          var cached := Cached(context, w.now + CONTEXT_TTL + jitter);
          OlderFloor(w.log + [read], w.prefills, user, cached, version, Floor(w, user));
        case Denied(Missing) => ReadsAreKept(w.log, read, user, answer, w.now);
        case Denied(Inactive) =>
        case Unavailable => ReadsAreKept(w.log, read, user, answer, w.now);
      }
    }
  }

  /** A lookup, on its own or as the first part of a larger call. */
  function AfterLookup(w: World, user: string, redisUp: bool, dbUp: bool, jitter: Jitter): World
    requires w.versions != []
  {
    w.(keys := LookedUp(w.keys, user, w.now, redisUp, Reply(w, user, dbUp), jitter).1,
       log := Logged(w, w.keys, user, redisUp, dbUp))
  }

  lemma LookupKeeps(w: World, user: string, redisUp: bool, dbUp: bool, jitter: Jitter)
    requires Invariant(w)
    ensures Invariant(AfterLookup(w, user, redisUp, dbUp, jitter))
  {
    var after := AfterLookup(w, user, redisUp, dbUp, jitter);
    forall other ensures Backed(after, other) && Floor(after, other) < |w.versions| {
      assert Backed(w, other) && Floor(w, other) < |w.versions| && Floor(w, user) < |w.versions|;
      LookupBacks(w, user, redisUp, dbUp, jitter, other);
    }
  }

  lemma LookupBacks(w: World, user: string, redisUp: bool, dbUp: bool, jitter: Jitter, other: string)
    requires w.versions != [] && w.now >= 0 && Backed(w, other) && Floor(w, user) < |w.versions|
    ensures Backed(AfterLookup(w, user, redisUp, dbUp, jitter), other)
  {
    var read := DbRead(user, w.now, |w.versions| - 1, Read(Reply(w, user, dbUp)));
    if AsksDatabase(w.keys, user, w.now, redisUp) {
      WriteBackIsBacked(w, user, read.version, read.answer, jitter, other);
      BackedByMore(w, read, other);
    }
  }

  lemma ForgetKeeps(w: World, user: string)
    requires Invariant(w)
    ensures Invariant(w.(keys := Forgotten(w.keys, user), floor := w.floor[user := |w.versions| - 1]))
  {
    var after := w.(keys := Forgotten(w.keys, user), floor := w.floor[user := |w.versions| - 1]);
    forall other ensures Backed(after, other) && Floor(after, other) < |w.versions| {
      assert Backed(w, other) && Floor(w, other) < |w.versions|;
    }
  }

  /** A granted lookup through Redis leaves the context cached and live. */
  lemma GrantedIsCached(w: World, user: string, dbUp: bool, jitter: Jitter)
    requires w.versions != []
    ensures var (answer, keys) := LookedUp(w.keys, user, w.now, true, Reply(w, user, dbUp), jitter);
            answer.Granted? ==>
              && user in keys.contexts && keys.contexts[user].context == answer.context
              && w.now <= keys.contexts[user].expires
  {
  }

  /** Writing a context just looked up once more only moves its expiry. */
  lemma PrefillKeeps(w: World, user: string, redisUp: bool, dbUp: bool, jitter: Jitter, prefillJitter: Jitter)
    requires Invariant(w)
    ensures Invariant(Step(w, Issue(user, redisUp, dbUp, jitter, prefillJitter)))
  {
    var looked := AfterLookup(w, user, redisUp, dbUp, jitter);
    var after := Step(w, Issue(user, redisUp, dbUp, jitter, prefillJitter));
    LookupKeeps(w, user, redisUp, dbUp, jitter);
    GrantedIsCached(w, user, dbUp, jitter);
    forall other ensures Backed(after, other) && Floor(after, other) < |w.versions| {
      assert Backed(looked, other) && Floor(looked, other) < |w.versions|;
      if after != looked {
        FilledIsBacked(looked, user, prefillJitter, other);
      }
    }
  }

  lemma FilledIsBacked(w: World, user: string, jitter: Jitter, other: string)
    requires Backed(w, other) && user in w.keys.contexts && w.now <= w.keys.contexts[user].expires
    ensures var filled := w.keys.contexts[user].(expires := w.now + CONTEXT_TTL + jitter);
            Backed(w.(keys := w.keys.(contexts := w.keys.contexts[user := filled]),
                      prefills := w.prefills + [Prefill(user, w.now, |w.log|)]), other)
  {
    if other == user {
      PrefillIsExplained(w, user, w.keys.contexts[user], Floor(w, user), jitter);
    } else if other in w.keys.contexts {
      var cached := w.keys.contexts[other];
      OthersStayExplained(w.log, w.prefills, Prefill(user, w.now, |w.log|), other, cached, Floor(w, other));
    }
  }

  lemma StepKeeps(w: World, move: Move)
    requires Invariant(w)
    ensures Invariant(Step(w, move))
  {
    match move {
      case Elapse(elapsed) =>
        forall user ensures Backed(Step(w, move), user) && Floor(Step(w, move), user) < |w.versions| {
          assert Backed(w, user) && Floor(w, user) < |w.versions|;
        }
      case Write(db) =>
        forall user ensures Backed(Step(w, move), user) && Floor(Step(w, move), user) < |w.versions| {
          assert Backed(w, user) && Floor(w, user) < |w.versions|;
        }
      case Lookup(user, redisUp, dbUp, jitter) => LookupKeeps(w, user, redisUp, dbUp, jitter);
      case Refresh(user, redisUp, dbUp, jitter) =>
        if redisUp {
          ForgetKeeps(w, user);
          var forgotten := w.(keys := Forgotten(w.keys, user), floor := w.floor[user := |w.versions| - 1]);
          LookupKeeps(forgotten, user, redisUp, dbUp, jitter);
        }
      case Clear(user, redisUp) => if redisUp { ForgetKeeps(w, user); }
      case Issue(user, redisUp, dbUp, jitter, prefillJitter) =>
        PrefillKeeps(w, user, redisUp, dbUp, jitter, prefillJitter);
    }
  }

  lemma {:induction false} InvariantHolds(db: Database, moves: seq<Move>)
    ensures Invariant(Run(db, moves))
  {
    if moves == [] {
      forall user ensures Backed(Begin(db), user) && Floor(Begin(db), user) < 1 {
      }
    } else {
      InvariantHolds(db, moves[..|moves| - 1]);
      StepKeeps(Run(db, moves[..|moves| - 1]), moves[|moves| - 1]);
    }
  }

  // ---- What every lookup of every run may answer ----

  /**
   After a refresh or a clear, no later lookup returns a context read from an older version of the
   database: whatever it grants was derived from a version at or after that moment.
   */
  lemma {:induction false} NoOlderContext(db: Database, moves: seq<Move>, user: string, redisUp: bool, dbUp: bool,
                                          jitter: Jitter)
    ensures var w := Run(db, moves);
            var answer := LookedUp(w.keys, user, w.now, redisUp, Reply(w, user, dbUp), jitter).0;
            answer.Granted? ==>
              exists v | Floor(w, user) <= v < |w.versions| :: Derived(Row(w.versions[v], user)) == answer
  {
    var w := Run(db, moves);
    InvariantHolds(db, moves);
    assert Backed(w, user) && Floor(w, user) < |w.versions|;
    if AsksDatabase(w.keys, user, w.now, redisUp) {
      assert dbUp ==> Read(Reply(w, user, dbUp)) == Derived(Row(w.versions[|w.versions| - 1], user));
    } else if HasContext(w.keys, user, w.now) {
      CachedIsDerived(w, user);
    }
  }

  lemma CachedIsDerived(w: World, user: string)
    requires w.versions != [] && LogIsTrue(w) && user in w.keys.contexts
    requires Explained(w.log, w.prefills, user, w.keys.contexts[user], Floor(w, user))
    ensures exists v | Floor(w, user) <= v < |w.versions| ::
              Derived(Row(w.versions[v], user)) == Granted(w.keys.contexts[user].context)
  {
    var i: nat :| Explains(w.log, w.prefills, i, user, w.keys.contexts[user], Floor(w, user));
    assert Derived(Row(w.versions[w.log[i].version], user)) == Granted(w.keys.contexts[user].context);
  }

  /** A refresh or clear of the user that reaches Redis. */
  predicate Flushes(move: Move, user: string)
  {
    (move.Refresh? || move.Clear?) && move.user == user && move.redisUp
  }

  /** What the floor means: every such move raises it to the current version, and nothing lowers it. */
  lemma {:induction false} FloorRises(db: Database, moves: seq<Move>, more: seq<Move>, user: string)
    ensures var before, after := Run(db, moves), Run(db, moves + more);
            && |before.versions| <= |after.versions| && before.versions <= after.versions
            && Floor(before, user) <= Floor(after, user)
            && (moves != [] && Flushes(moves[|moves| - 1], user) ==>
                  Floor(after, user) >= |before.versions| - 1)
    decreases |more|
  {
    if more == [] {
      assert moves + more == moves;
      if moves != [] && Flushes(moves[|moves| - 1], user) {
        FlushRaises(Run(db, moves[..|moves| - 1]), moves[|moves| - 1], user);
      }
    } else {
      var rest := more[..|more| - 1];
      FloorRises(db, moves, rest, user);
      assert moves + more == (moves + rest) + [more[|more| - 1]];
      RunOn(db, moves + rest, more[|more| - 1]);
      InvariantHolds(db, moves + rest);
      StepRaises(Run(db, moves + rest), more[|more| - 1], user);
    }
  }

  lemma FlushRaises(w: World, move: Move, user: string)
    requires w.versions != [] && Flushes(move, user)
    ensures Floor(Step(w, move), user) == |Step(w, move).versions| - 1
  {
  }

  lemma StepRaises(w: World, move: Move, user: string)
    requires w.versions != [] && Floor(w, user) < |w.versions|
    ensures w.versions <= Step(w, move).versions && Floor(w, user) <= Floor(Step(w, move), user)
  {
  }

  /**
   Right after a refresh or a clear, with both stores up and no failure mark live, an issuance is refused if and
   only if the user is missing or inactive in the current version of the database.
   */
  lemma {:induction false} IssuanceAfterFlush(db: Database, moves: seq<Move>, user: string, jitter: Jitter,
                                              prefillJitter: Jitter)
    requires moves != [] && Flushes(moves[|moves| - 1], user)
    requires !Marked(Run(db, moves).keys.unavailable, user, Run(db, moves).now)
    ensures var w := Run(db, moves);
            var current := Row(w.versions[|w.versions| - 1], user);
            ForIssuance(w.keys, user, w.now, true, Reply(w, user, true), jitter, prefillJitter).0 ==
            if current.None? then Refused(Missing)
            else if !current.value.active then Refused(Inactive)
            else Issued(true)
  {
    var w := Run(db, moves);
    var before, move := Run(db, moves[..|moves| - 1]), moves[|moves| - 1];
    assert w == Step(before, move);
    if move.Refresh? {
      LookupAnswer(Forgotten(before.keys, user), user, before.now, true, Reply(before, user, move.dbUp), move.jitter);
    }
    IssuanceAnswer(w.keys, user, w.now, true, Reply(w, user, true), jitter, prefillJitter);
  }

  /** Over every run: tokens are issued with a prefill only to a user who was active at or after the last flush. */
  lemma {:induction false} IssuedOnlyToActive(db: Database, moves: seq<Move>, user: string, redisUp: bool, dbUp: bool,
                                              jitter: Jitter, prefillJitter: Jitter)
    ensures var w := Run(db, moves);
            ForIssuance(w.keys, user, w.now, redisUp, Reply(w, user, dbUp), jitter, prefillJitter).0 == Issued(true) ==>
              exists v | Floor(w, user) <= v < |w.versions| :: user in w.versions[v] && w.versions[v][user].active
  {
    NoOlderContext(db, moves, user, redisUp, dbUp, jitter);
    var w := Run(db, moves);
    var answer := LookedUp(w.keys, user, w.now, redisUp, Reply(w, user, dbUp), jitter).0;
    if answer.Granted? {
      var v :| Floor(w, user) <= v < |w.versions| && Derived(Row(w.versions[v], user)) == answer;
      assert user in w.versions[v] && w.versions[v][user].active;
    }
  }

  /**
   A refresh reports success exactly when Redis and database work, no failure mark is live and the user
   is active; then the context cached is the current one, and lookups find it there for 55 minutes.
   */
  lemma RefreshOkIsCurrent(w: World, user: string, redisUp: bool, dbUp: bool, jitter: Jitter, later: int)
    requires w.versions != []
    requires w.now <= later < w.now + CONTEXT_TTL - CONTEXT_TTL_JITTER
    ensures var current := Row(w.versions[|w.versions| - 1], user);
            var (ok, keys) := Refreshed(w.keys, user, w.now, redisUp, Reply(w, user, dbUp), jitter);
            && (ok <==> redisUp && dbUp && !Marked(w.keys.unavailable, user, w.now) && Derived(current).Granted?)
            && (ok ==> FromKeys(keys, user, later) == Some(Derived(current)))
            && (redisUp && !ok ==> !HasContext(keys, user, w.now))
  {
  }

  /** Without asking the database, "no such user" is answered only within a minute of a read that found none. */
  lemma {:induction false} MissingOnlyAfterRead(db: Database, moves: seq<Move>, user: string, redisUp: bool)
    ensures var w := Run(db, moves);
            !AsksDatabase(w.keys, user, w.now, redisUp) && FromKeys(w.keys, user, w.now) == Some(Denied(Missing)) ==>
              exists i | 0 <= i < |w.log| ::
                && w.log[i].user == user && w.now - w.log[i].at < MISSING_TTL
                && w.log[i].answer == Denied(Missing)
                && w.log[i].version < |w.versions| && user !in w.versions[w.log[i].version]
  {
    var w := Run(db, moves);
    InvariantHolds(db, moves);
    assert Backed(w, user);
    if Marked(w.keys.missing, user, w.now) {
      var since := w.keys.missing[user] - MISSING_TTL;
      var i :| 0 <= i < |w.log| && w.log[i].user == user && w.log[i].answer == Denied(Missing) && w.log[i].at >= since;
      assert user !in w.versions[w.log[i].version];
    }
  }

  /** Without asking the database, "unavailable" is answered only within five seconds of a failed read. */
  lemma {:induction false} UnavailableOnlyAfterFailure(db: Database, moves: seq<Move>, user: string, redisUp: bool)
    ensures var w := Run(db, moves);
            !AsksDatabase(w.keys, user, w.now, redisUp) && FromKeys(w.keys, user, w.now) == Some(Unavailable) ==>
              exists i | 0 <= i < |w.log| ::
                w.log[i].user == user && w.log[i].answer == Unavailable && w.now - w.log[i].at < UNAVAILABLE_TTL
  {
    var w := Run(db, moves);
    InvariantHolds(db, moves);
    assert Backed(w, user);
  }

  /** A database failure touches neither contexts nor "no such user" marks, so it is never recorded as either. */
  lemma FailureIsNotAbsence(k: Keys, user: string, now: int, redisUp: bool, jitter: Jitter)
    ensures var (answer, after) := LookedUp(k, user, now, redisUp, None, jitter);
            && after.missing == k.missing && after.contexts == k.contexts
            && (AsksDatabase(k, user, now, redisUp) ==> answer == Unavailable)
            && (Marked(after.missing, user, now) ==> Marked(k.missing, user, now))
  {
  }

  // ---- Age ----

  /** Read `i` gave the user's cached context, at a version not before the user's floor. */
  predicate IsSource(w: World, user: string, i: nat)
  {
    && i < |w.log| && user in w.keys.contexts && w.log[i].user == user
    && w.log[i].answer == Granted(w.keys.contexts[user].context) && w.log[i].version >= Floor(w, user)
  }

  /** Some issuance to the user wrote the context back after read `i` and within the last 65 minutes. */
  ghost predicate LatelyPrefilled(w: World, user: string, i: nat)
  {
    exists p :: p in w.prefills && p.user == user && p.seen > i && w.now - p.at < MAX_CONTEXT_TTL
  }

  /** Read `i` gave the cached context and is young enough for the issuances to the user since then. */
  ghost predicate IsRecentSource(w: World, user: string, i: nat)
  {
    && IsSource(w, user, i)
    && (w.now - w.log[i].at < MAX_CONTEXT_TTL || LatelyPrefilled(w, user, i))
    && w.now - w.log[i].at < MAX_CONTEXT_TTL * (1 + Fills(w.prefills, user, i))
  }

  /**
   For every user and every run: a live context was read within the last 65 minutes, or an issuance to that
   user after the read wrote it back within them; its age is at most 65 minutes for the read and for each of
   those issuances.
   */
  lemma {:induction false} ContextAge(db: Database, moves: seq<Move>, user: string)
    ensures var w := Run(db, moves);
            HasContext(w.keys, user, w.now) ==> exists i: nat :: IsRecentSource(w, user, i)
  {
    var w := Run(db, moves);
    InvariantHolds(db, moves);
    assert Backed(w, user);
    if HasContext(w.keys, user, w.now) {
      var i: nat :| Explains(w.log, w.prefills, i, user, w.keys.contexts[user], Floor(w, user));
      AgeOfSource(w, user, i);
    }
  }

  lemma AgeOfSource(w: World, user: string, i: nat)
    requires HasContext(w.keys, user, w.now)
    requires Explains(w.log, w.prefills, i, user, w.keys.contexts[user], Floor(w, user))
    ensures IsRecentSource(w, user, i)
  {
    var expires := w.keys.contexts[user].expires;
    if Prefilled(w.prefills, user, i, expires) {
      var p :| p in w.prefills && p.user == user && p.seen > i && expires <= p.at + MAX_CONTEXT_TTL;
      assert w.now - p.at < MAX_CONTEXT_TTL;
    }
  }

  predicate IssuesTo(move: Move, user: string)
  {
    move.Issue? && move.user == user
  }

  lemma {:induction false} PrefillsAreIssuances(db: Database, moves: seq<Move>, user: string)
    requires forall move | move in moves :: !IssuesTo(move, user)
    ensures forall p | p in Run(db, moves).prefills :: p.user != user
  {
    if moves == [] {
    } else {
      PrefillsAreIssuances(db, moves[..|moves| - 1], user);
      assert !IssuesTo(moves[|moves| - 1], user);
    }
  }

  /** A user to whom nothing is issued has no context older than 65 minutes, whatever is issued to others. */
  lemma {:induction false} ContextsAgeOutWithoutIssuance(db: Database, moves: seq<Move>, user: string)
    requires forall move | move in moves :: !IssuesTo(move, user)
    ensures var w := Run(db, moves);
            HasContext(w.keys, user, w.now) ==>
              exists i: nat :: IsSource(w, user, i) && w.now - w.log[i].at < MAX_CONTEXT_TTL
  {
    ContextAge(db, moves, user);
    PrefillsAreIssuances(db, moves, user);
    var w := Run(db, moves);
    if HasContext(w.keys, user, w.now) {
      var i: nat :| IsRecentSource(w, user, i);
      assert IsSource(w, user, i);
    }
  }

  /** The longest wait after which a context written back with the largest jitter is still there. */
  const LIFE := MAX_CONTEXT_TTL - 1

  /** One lookup, then a write that removes the user, then `n` issuances, each at the last moment. */
  function KeptAlive(user: string, n: nat): seq<Move>
  {
    if n == 0 then [Lookup(user, true, true, CONTEXT_TTL_JITTER)] + [Write(map[])]
    else KeptAlive(user, n - 1) + [Elapse(LIFE)] + [Issue(user, true, true, 0, CONTEXT_TTL_JITTER)]
  }

  lemma {:induction false} RunOn(db: Database, moves: seq<Move>, move: Move)
    ensures Run(db, moves + [move]) == Step(Run(db, moves), move)
  {
    assert (moves + [move])[..|moves|] == moves;
  }

  /** The context is cached with the longest lifetime and the user is gone from the database. */
  ghost predicate Stale(w: World, user: string, answer: Answer, now: int)
  {
    && answer.Granted? && w.now == now && w.versions != [] && w.versions[|w.versions| - 1] == map[]
    && w.keys == Keys(map[user := Cached(answer.context, w.now + MAX_CONTEXT_TTL)], map[], map[])
  }

  lemma StaysStale(w: World, user: string, answer: Answer, now: int)
    requires Stale(w, user, answer, now)
    ensures FromKeys(w.keys, user, now + LIFE) == Some(answer)
    ensures Stale(Step(Step(w, Elapse(LIFE)), Issue(user, true, true, 0, CONTEXT_TTL_JITTER)), user, answer, now + LIFE)
  {
    var waited := Step(w, Elapse(LIFE));
    assert FromKeys(waited.keys, user, waited.now) == Some(answer);
  }

  /**
   The age bound is reached to the millisecond per lifetime: a user deleted right after the first lookup still
   has that context one lifetime for the lookup and one for each of `n` issuances later, for every `n`.
   */
  lemma {:induction false} IssuanceKeepsContextAlive(db: Database, user: string, n: nat)
    requires user in db && db[user].active
    ensures var w, answer := Run(db, KeptAlive(user, n)), Derived(Some(db[user]));
            Stale(w, user, answer, LIFE * n) && FromKeys(w.keys, user, LIFE * (n + 1)) == Some(answer)
  {
    var answer := Derived(Some(db[user]));
    if n == 0 {
      FirstStale(db, user);
    } else {
      IssuanceKeepsContextAlive(db, user, n - 1);
      NextStale(db, KeptAlive(user, n - 1), user, answer, LIFE * (n - 1));
    }
    StaysStale(Run(db, KeptAlive(user, n)), user, answer, LIFE * n);
  }

  lemma {:induction false} FirstStale(db: Database, user: string)
    requires user in db && db[user].active
    ensures Stale(Run(db, KeptAlive(user, 0)), user, Derived(Some(db[user])), 0)
  {
    var move := Lookup(user, true, true, CONTEXT_TTL_JITTER);
    assert [] + [move] == [move];
    RunOn(db, [], move);
    RunOn(db, [move], Write(map[]));
  }

  lemma {:induction false} NextStale(db: Database, moves: seq<Move>, user: string, answer: Answer, now: int)
    requires Stale(Run(db, moves), user, answer, now)
    ensures var more := moves + [Elapse(LIFE)] + [Issue(user, true, true, 0, CONTEXT_TTL_JITTER)];
            Stale(Run(db, more), user, answer, now + LIFE)
  {
    RunOn(db, moves, Elapse(LIFE));
    RunOn(db, moves + [Elapse(LIFE)], Issue(user, true, true, 0, CONTEXT_TTL_JITTER));
    StaysStale(Run(db, moves), user, answer, now);
  }
}
