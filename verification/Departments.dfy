/**
 The department forest: the cycle check, the materialised ancestor path, the data-scope predicate
 read off it, and the three operations that write the table
 (apps/portal/src/domain/department/department.ts, apps/portal/src/app/(dashboard)/departments/actions.ts,
 apps/portal/src/lib/authz/data-scope.ts).
 */
module Departments {
  import opened Wrappers
  import opened Strings

  // ---- The cycle check over arbitrary rows ----

  datatype Row = Row(id: string, parentId: Option<string>)

  /** A missing parent and the empty id both stop the walk. */
  function OrEmpty(id: Option<string>): string
  {
    if id.Some? then id.value else ""
  }

  /** Parent of the first row with this id; `""` when there is none. */
  function FirstParent(rows: seq<Row>, id: string): string
  {
    if rows == [] then "" else if rows[0].id == id then OrEmpty(rows[0].parentId) else FirstParent(rows[1..], id)
  }

  /** The parent relation as a map: of several rows with one id the first counts. */
  function ParentMap(rows: seq<Row>): map<string, string>
  {
    if rows == [] then map[] else ParentMap(rows[1..])[rows[0].id := OrEmpty(rows[0].parentId)]
  }

  function Up(parents: map<string, string>, id: string): string
  {
    if id != "" && id in parents then parents[id] else ""
  }

  /** Where `n` steps towards the root lead; `""` once the walk has stopped. */
  function Climb(parents: map<string, string>, id: string, n: nat): string
  {
    if n == 0 then id else Up(parents, Climb(parents, id, n - 1))
  }

  ghost predicate OnWalk(parents: map<string, string>, start: string, id: string)
  {
    exists n: nat :: Climb(parents, start, n) == id
  }

  /** `dept` is `start` or lies above it. */
  ghost predicate Reaches(parents: map<string, string>, start: string, dept: string)
  {
    start == dept || (dept != "" && OnWalk(parents, start, dept))
  }

  lemma {:induction false} FirstParentIsLookup(rows: seq<Row>, id: string)
    requires id != ""
    ensures FirstParent(rows, id) == Up(ParentMap(rows), id)
  {
    if rows == [] {
    } else {
      FirstParentIsLookup(rows[1..], id);
    }
  }

  /** A set closed under the parent relation holds every place the walk visits. */
  lemma {:induction false} ClimbStaysInside(parents: map<string, string>, id: string, n: nat, inside: set<string>)
    requires id in inside && forall x | x in inside :: Up(parents, x) in inside
    ensures Climb(parents, id, n) in inside
  {
    if n == 0 {
    } else {
      ClimbStaysInside(parents, id, n - 1, inside);
    }
  }

  /** The walk so far: `visited` holds what lies before `current`, and nothing else follows from it. */
  ghost predicate Walked(parents: map<string, string>, start: string, visited: set<string>, current: string)
  {
    && OnWalk(parents, start, current)
    && (if visited == {} then current == start else start in visited)
    && forall x | x in visited :: Up(parents, x) in visited + {current}
  }

  lemma WalkOn(parents: map<string, string>, start: string, visited: set<string>, current: string)
    requires Walked(parents, start, visited, current)
    ensures Walked(parents, start, visited + {current}, Up(parents, current))
  {
    var n: nat :| Climb(parents, start, n) == current;
    assert Climb(parents, start, n + 1) == Up(parents, current);
  }

  lemma WalkIsOver(parents: map<string, string>, start: string, visited: set<string>, current: string, dept: string)
    requires Walked(parents, start, visited, current)
    requires current == "" || current in visited
    requires dept !in visited && dept != start
    ensures !Reaches(parents, start, dept)
  {
    if dept != "" && OnWalk(parents, start, dept) {
      var n: nat :| Climb(parents, start, n) == dept;
      assert Up(parents, "") == "";
      ClimbStaysInside(parents, start, n, visited + {current});
    }
  }

  function Ids(rows: seq<Row>): set<string>
  {
    set i | 0 <= i < |rows| :: OrEmpty(rows[i].parentId)
  }

  lemma {:induction false} FirstParentIsListed(rows: seq<Row>, id: string)
    ensures FirstParent(rows, id) == "" || FirstParent(rows, id) in Ids(rows)
  {
    if rows == [] || rows[0].id == id {
    } else {
      FirstParentIsListed(rows[1..], id);
      forall i | 0 <= i < |rows[1..]| ensures OrEmpty(rows[1..][i].parentId) in Ids(rows) {
        assert rows[1..][i] == rows[i + 1];
      }
    }
  }

  /** Everything the walk can come to. */
  function Universe(rows: seq<Row>, start: string): set<string>
  {
    {start} + Ids(rows)
  }

  ghost predicate Walking(rows: seq<Row>, start: string, dept: string, visited: set<string>, current: string)
  {
    && Walked(ParentMap(rows), start, visited, current)
    && (current != "" ==> current in Universe(rows, start))
    && visited <= Universe(rows, start) && dept !in visited
  }

  lemma {:induction false} WalkStep(rows: seq<Row>, start: string, dept: string, visited: set<string>, current: string)
    requires Walking(rows, start, dept, visited, current)
    requires current != "" && current != dept && current !in visited
    ensures Walking(rows, start, dept, visited + {current}, FirstParent(rows, current))
    ensures |Universe(rows, start) - (visited + {current})| < |Universe(rows, start) - visited|
  {
    FirstParentIsLookup(rows, current);
    FirstParentIsListed(rows, current);
    WalkOn(ParentMap(rows), start, visited, current);
    var universe := Universe(rows, start);
    assert universe - visited == universe - (visited + {current}) + {current};
  }

  datatype Error =
    NotFound | Forbidden | BusinessRule | MoveToChild | CannotDeleteRoot | HasChildren | HasUsers | HasRoles | Rejected

  /**
   The cycle check: on every row list, with cycles, duplicate ids or missing parents, the walk ends,
   and it refuses exactly the moves under the department itself or under something below it.
   */
  method ValidateNoCircularReference(deptId: string, newParentId: string, rows: seq<Row>) returns (error: Option<Error>)
    ensures error == if Reaches(ParentMap(rows), newParentId, deptId) then Some(MoveToChild) else None
  {
    if deptId == newParentId {
      return Some(MoveToChild);
    }
    var currentId := newParentId;
    var visited: set<string> := {};
    assert Climb(ParentMap(rows), newParentId, 0) == newParentId;
    while currentId != ""
      invariant Walking(rows, newParentId, deptId, visited, currentId)
      decreases |Universe(rows, newParentId) - visited|
    {
      if currentId == deptId {
        return Some(MoveToChild);
      }
      if currentId in visited {
        break;
      }
      WalkStep(rows, newParentId, deptId, visited, currentId);
      visited := visited + {currentId};
      currentId := FirstParent(rows, currentId);
    }
    WalkIsOver(ParentMap(rows), newParentId, visited, currentId, deptId);
    return None;
  }

  // ---- The table and its ancestor chains ----

  datatype Dept = Dept(parent: Option<string>, ancestors: Option<string>, active: bool)

  type Table = map<string, Dept>

  const UUID_LENGTH := 36

  predicate Uuid(id: string)
  {
    |id| == UUID_LENGTH && '/' !in id
  }

  /** The ancestors text of a child, and the prefix of everything below: own text, `/`, own id. */
  function Prefix(id: string, ancestors: Option<string>): string
  {
    if ancestors.Some? && ancestors.value != "" then ancestors.value + "/" + id else id
  }

  /** `chain` lists the proper ancestors of `id`, root first. */
  ghost predicate IsChain(t: Table, id: string, chain: seq<string>)
    decreases |chain|
  {
    id in t &&
    if chain == [] then t[id].parent == None
    else t[id].parent == Some(chain[|chain| - 1]) && IsChain(t, chain[|chain| - 1], chain[..|chain| - 1])
  }

  /** Climbing from the department ends at a root. */
  ghost predicate Rooted(t: Table, id: string)
  {
    exists chain :: IsChain(t, id, chain)
  }

  function PathText(chain: seq<string>): Option<string>
  {
    if chain == [] then None else Some(Join(chain, "/"))
  }

  /** The row has a finite ancestor chain and its text spells exactly that chain. */
  ghost predicate Filed(t: Table, id: string)
    requires id in t
  {
    exists chain :: IsChain(t, id, chain) && t[id].ancestors == PathText(chain)
  }

  ghost predicate UuidKeys(t: Table)
  {
    forall id | id in t :: Uuid(id)
  }

  /** No cycles, no missing parents, and every materialised path is right. */
  ghost predicate WellFormed(t: Table)
  {
    UuidKeys(t) && forall id | id in t :: Filed(t, id)
  }

  ghost function Chain(t: Table, id: string): (chain: seq<string>)
    requires WellFormed(t) && id in t
    ensures IsChain(t, id, chain) && t[id].ancestors == PathText(chain)
  {
    assert Filed(t, id);
    var chain :| IsChain(t, id, chain) && t[id].ancestors == PathText(chain);
    chain
  }

  lemma {:induction false} ChainIsUnique(t: Table, id: string, a: seq<string>, b: seq<string>)
    requires IsChain(t, id, a) && IsChain(t, id, b)
    ensures a == b
    decreases |a|
  {
    if a == [] {
    } else {
      ChainIsUnique(t, a[|a| - 1], a[..|a| - 1], b[..|b| - 1]);
      assert a == a[..|a| - 1] + [a[|a| - 1]] && b == b[..|b| - 1] + [b[|b| - 1]];
    }
  }

  /** Each ancestor's own chain is the part of the chain before it. */
  lemma {:induction false} ChainOfAncestor(t: Table, id: string, chain: seq<string>, i: nat)
    requires IsChain(t, id, chain) && i < |chain|
    ensures IsChain(t, chain[i], chain[..i])
    decreases |chain|
  {
    if i == |chain| - 1 {
    } else {
      var shorter := chain[..|chain| - 1];
      ChainOfAncestor(t, chain[|chain| - 1], shorter, i);
      assert shorter[..i] == chain[..i];
    }
  }

  lemma {:induction false} ChainHasNoRepeats(t: Table, id: string, chain: seq<string>, i: nat, j: nat)
    requires IsChain(t, id, chain) && i < j <= |chain|
    ensures chain[i] != if j < |chain| then chain[j] else id
  {
    ChainOfAncestor(t, id, chain, i);
    if j < |chain| {
      ChainOfAncestor(t, id, chain, j);
      if chain[i] == chain[j] {
        ChainIsUnique(t, chain[i], chain[..i], chain[..j]);
      }
    } else if chain[i] == id {
      ChainIsUnique(t, id, chain[..i], chain);
    }
  }

  lemma {:induction false} NeverOwnAncestor(t: Table, id: string, chain: seq<string>)
    requires IsChain(t, id, chain)
    ensures id !in chain
  {
    forall i | 0 <= i < |chain| ensures chain[i] != id {
      ChainHasNoRepeats(t, id, chain, i, |chain|);
    }
  }

  lemma {:induction false} ChainKeysAreUuids(t: Table, id: string, chain: seq<string>)
    requires IsChain(t, id, chain) && UuidKeys(t)
    ensures forall i | 0 <= i < |chain| :: chain[i] in t && Uuid(chain[i])
    decreases |chain|
  {
    if chain == [] {
    } else {
      var rest := chain[..|chain| - 1];
      ChainKeysAreUuids(t, chain[|chain| - 1], rest);
      forall i | 0 <= i < |chain| ensures chain[i] in t && Uuid(chain[i]) {
        if i < |rest| {
          assert chain[i] == rest[i];
        }
      }
    }
  }

  // ---- Text of a chain ----

  /** Ids as path segments: not empty, no `/`. */
  ghost predicate Segments(ids: seq<string>)
  {
    forall i | 0 <= i < |ids| :: ids[i] != "" && '/' !in ids[i]
  }

  ghost predicate AllUuids(ids: seq<string>)
  {
    forall i | 0 <= i < |ids| :: Uuid(ids[i])
  }

  lemma {:induction false} JoinNotEmpty(ids: seq<string>)
    requires ids != [] && Segments(ids)
    ensures Join(ids, "/") != ""
  {
  }

  lemma {:induction false} PrefixIsJoin(id: string, chain: seq<string>)
    requires Segments(chain)
    ensures Prefix(id, PathText(chain)) == Join(chain + [id], "/")
  {
    if chain == [] {
      assert chain + [id] == [id];
    } else {
      JoinNotEmpty(chain);
      JoinOfConcat(chain, [id], "/");
    }
  }

  /** What follows a prefix: every further id with a `/` before it. */
  function Tail(ids: seq<string>): string
  {
    if ids == [] then "" else "/" + ids[0] + Tail(ids[1..])
  }

  lemma {:induction false} JoinIsPrefixAndTail(a: seq<string>, b: seq<string>)
    requires a != []
    ensures Join(a + b, "/") == Join(a, "/") + Tail(b)
    decreases |b|
  {
    if b == [] {
      assert a + b == a;
    } else {
      assert a + b == (a + [b[0]]) + b[1..];
      JoinIsPrefixAndTail(a + [b[0]], b[1..]);
      JoinOfConcat(a, [b[0]], "/");
      assert Join([b[0]], "/") == b[0];
      assert Join(a, "/") + "/" + b[0] + Tail(b[1..]) == Join(a, "/") + ("/" + b[0] + Tail(b[1..]));
    }
  }

  // ---- The data-scope predicate ----

  /** `s LIKE '%' || piece || '%'` for a piece without wildcards. */
  predicate Contains(s: string, piece: string)
  {
    exists i | 0 <= i <= |s| :: piece <= s[i..]
  }

  predicate EndsWith(s: string, piece: string)
  {
    |piece| <= |s| && s[|s| - |piece|..] == piece
  }

  /** Where a path segment can stand: alone, first, last, or between two others. */
  predicate SegmentAt(deptId: string, text: string)
  {
    || text == deptId || deptId + "/" <= text || EndsWith(text, "/" + deptId) || Contains(text, "/" + deptId + "/")
  }

  /** The five branches of the subtree condition. */
  predicate Covers(deptId: string, id: string, ancestors: Option<string>)
  {
    id == deptId || (ancestors.Some? && SegmentAt(deptId, ancestors.value))
  }

  lemma {:induction false} FirstPiece(deptId: string, text: string)
    requires '/' !in deptId && deptId + "/" <= text
    ensures deptId in Split(text, '/')
  {
    var rest := text[|deptId| + 1..];
    assert text == deptId + ['/'] + rest;
    SplitOfFree(deptId, '/');
    SplitOfConcat(deptId, rest, '/');
    assert Split(text, '/')[0] == deptId;
  }

  lemma {:induction false} LastPiece(deptId: string, text: string)
    requires '/' !in deptId && EndsWith(text, "/" + deptId)
    ensures deptId in Split(text, '/')
  {
    var before := text[..|text| - |deptId| - 1];
    assert text == before + ['/'] + deptId;
    SplitOfFree(deptId, '/');
    SplitOfConcat(before, deptId, '/');
    assert Split(text, '/')[|Split(before, '/')|] == deptId;
  }

  lemma {:induction false} InnerPiece(deptId: string, text: string)
    requires '/' !in deptId && Contains(text, "/" + deptId + "/")
    ensures deptId in Split(text, '/')
  {
    var i :| 0 <= i <= |text| && "/" + deptId + "/" <= text[i..];
    var before, rest := text[..i], text[i + 1..];
    assert deptId + "/" <= rest by {
      assert rest == text[i..][1..];
      assert ("/" + deptId + "/")[1..] == deptId + "/";
    }
    assert text == before + ['/'] + rest;
    SplitOfConcat(before, rest, '/');
    FirstPiece(deptId, rest);
  }

  lemma {:induction false} SegmentIsPiece(deptId: string, text: string)
    requires '/' !in deptId && SegmentAt(deptId, text)
    ensures deptId in Split(text, '/')
  {
    if text == deptId {
      SplitOfFree(deptId, '/');
      assert Split(text, '/')[0] == deptId;
    } else if deptId + "/" <= text {
      FirstPiece(deptId, text);
    } else if EndsWith(text, "/" + deptId) {
      LastPiece(deptId, text);
    } else {
      InnerPiece(deptId, text);
    }
  }

  lemma {:induction false} JoinedAround(a: seq<string>, deptId: string, b: seq<string>)
    ensures SegmentAt(deptId, Join(a + [deptId] + b, "/"))
  {
    JoinIsPrefixAndTail(a + [deptId], b);
    var text := Join(a + [deptId] + b, "/");
    if a == [] {
      assert a + [deptId] == [deptId];
      if b != [] {
        assert deptId + "/" <= text;
      }
    } else {
      JoinOfConcat(a, [deptId], "/");
      InsideOrAtEnd(Join(a, "/"), deptId, b);
    }
  }

  lemma {:induction false} InsideOrAtEnd(before: string, deptId: string, b: seq<string>)
    ensures SegmentAt(deptId, before + "/" + deptId + Tail(b))
  {
    var text := before + "/" + deptId + Tail(b);
    if b == [] {
      assert text[|before|..] == "/" + deptId;
    } else {
      assert text[|before|..] == "/" + deptId + "/" + (b[0] + Tail(b[1..]));
      assert "/" + deptId + "/" <= text[|before|..];
    }
  }

  lemma {:induction false} PieceIsSegment(deptId: string, text: string)
    requires deptId in Split(text, '/')
    ensures SegmentAt(deptId, text)
  {
    var pieces := Split(text, '/');
    var i :| 0 <= i < |pieces| && pieces[i] == deptId;
    JoinOfSplit(text, '/');
    assert pieces == pieces[..i] + [deptId] + pieces[i + 1..];
    JoinedAround(pieces[..i], deptId, pieces[i + 1..]);
  }

  /** The five branches say exactly: the department itself or one of the segments of the path. */
  lemma CoversIsMembership(deptId: string, id: string, ancestors: Option<string>)
    requires '/' !in deptId
    ensures Covers(deptId, id, ancestors) <==>
            id == deptId || (ancestors.Some? && deptId in Split(ancestors.value, '/'))
  {
    if ancestors.Some? {
      if deptId in Split(ancestors.value, '/') {
        PieceIsSegment(deptId, ancestors.value);
      }
      if SegmentAt(deptId, ancestors.value) {
        SegmentIsPiece(deptId, ancestors.value);
      }
    }
  }

  lemma {:induction false} SegmentsOfChain(t: Table, id: string, chain: seq<string>)
    requires UuidKeys(t) && IsChain(t, id, chain)
    ensures Segments(chain) && AllUuids(chain)
    ensures chain != [] ==> Split(Join(chain, "/"), '/') == chain
  {
    ChainKeysAreUuids(t, id, chain);
    if chain != [] {
      assert "/" == ['/'];
      SplitOfJoin(chain, '/');
    }
  }

  /** In a well-formed table the scope predicate is exactly "itself or a descendant". */
  lemma CoversExactlyTheSubtree(t: Table, deptId: string, id: string)
    requires WellFormed(t) && id in t && '/' !in deptId
    ensures Covers(deptId, id, t[id].ancestors) <==> id == deptId || deptId in Chain(t, id)
  {
    var chain := Chain(t, id);
    SegmentsOfChain(t, id, chain);
    CoversIsMembership(deptId, id, t[id].ancestors);
  }

  /** The data scope of an operator whose active roles are filed under `roleDepts`. */
  function ResolveScope(t: Table, roleDepts: set<string>): set<string>
  {
    set id | id in t && (exists d :: d in roleDepts && d != "" && Covers(d, id, t[id].ancestors))
  }

  /** A data scope is exactly the union of the subtrees of the role departments. */
  lemma ScopeIsSubtrees(t: Table, roleDepts: set<string>, id: string)
    requires WellFormed(t) && id in t && forall d | d in roleDepts :: '/' !in d
    ensures id in ResolveScope(t, roleDepts) <==> exists d | d in roleDepts :: d == id || d in Chain(t, id)
  {
    SegmentsOfChain(t, id, Chain(t, id));
    assert Uuid(id);
    forall d | d in roleDepts ensures d != "" && Covers(d, id, t[id].ancestors) <==> d == id || d in Chain(t, id) {
      CoversExactlyTheSubtree(t, d, id);
    }
  }

  /** The row filter of a path rewrite: `ancestors = prefix OR ancestors LIKE prefix || '/%'`. */
  predicate UnderPrefix(ancestors: Option<string>, prefix: string)
  {
    ancestors.Some? && (ancestors.value == prefix || prefix + "/" <= ancestors.value)
  }

  lemma {:induction false} UnderJoin(above: seq<string>, chain: seq<string>)
    requires above != [] && Segments(above) && Segments(chain)
    ensures UnderPrefix(PathText(chain), Join(above, "/")) <==> above <= chain
  {
    var prefix := Join(above, "/");
    assert "/" == ['/'];
    if above <= chain {
      JoinIsPrefixAndTail(above, chain[|above|..]);
      assert chain == above + chain[|above|..];
    }
    if UnderPrefix(PathText(chain), prefix) {
      var text := Join(chain, "/");
      SplitOfJoin(chain, '/');
      SplitOfJoin(above, '/');
      if text != prefix {
        var rest := text[|prefix| + 1..];
        assert text == prefix + ['/'] + rest;
        SplitOfConcat(prefix, rest, '/');
      }
    }
  }

  /** The materialised-path test finds exactly the proper descendants. */
  lemma PrefixFindsDescendants(t: Table, d: string, e: string)
    requires WellFormed(t) && d in t && e in t
    ensures UnderPrefix(t[e].ancestors, Prefix(d, t[d].ancestors)) <==> d in Chain(t, e)
  {
    var above, chain := Chain(t, d), Chain(t, e);
    SegmentsOfChain(t, d, above);
    SegmentsOfChain(t, e, chain);
    assert Uuid(d);
    PrefixIsJoin(d, above);
    UnderJoin(above + [d], chain);
    if d in chain {
      var i :| 0 <= i < |chain| && chain[i] == d;
      ChainOfAncestor(t, e, chain, i);
      ChainIsUnique(t, d, above, chain[..i]);
      assert above + [d] == chain[..i + 1];
    }
    if above + [d] <= chain {
      assert chain[|above|] == (above + [d])[|above|] == d;
    }
  }

  // ---- Walking a table ----

  function ParentsOf(t: Table): map<string, string>
  {
    map id | id in t :: OrEmpty(t[id].parent)
  }

  /** `rows` is the table read into a list, in any order. */
  ghost predicate Lists(rows: seq<Row>, t: Table)
  {
    && (forall i | 0 <= i < |rows| :: rows[i].id in t && rows[i].parentId == t[rows[i].id].parent)
    && forall id | id in t :: exists i :: 0 <= i < |rows| && rows[i].id == id
  }

  lemma {:induction false} LookupInList(rows: seq<Row>, t: Table, id: string)
    requires forall i | 0 <= i < |rows| :: rows[i].id in t && rows[i].parentId == t[rows[i].id].parent
    ensures id in ParentMap(rows) <==> exists i :: 0 <= i < |rows| && rows[i].id == id
    ensures id in ParentMap(rows) ==> id in t && ParentMap(rows)[id] == OrEmpty(t[id].parent)
  {
    if rows == [] {
    } else {
      LookupInList(rows[1..], t, id);
      if i :| 0 <= i < |rows| && rows[i].id == id && i > 0 {
        assert rows[1..][i - 1].id == id;
      }
      if i :| 0 <= i < |rows[1..]| && rows[1..][i].id == id {
        assert rows[i + 1].id == id;
      }
    }
  }

  lemma {:induction false} ListedParents(rows: seq<Row>, t: Table)
    requires Lists(rows, t)
    ensures ParentMap(rows) == ParentsOf(t)
  {
    forall id ensures id in ParentMap(rows) <==> id in t
              ensures id in t ==> ParentMap(rows)[id] == OrEmpty(t[id].parent) {
      LookupInList(rows, t, id);
    }
  }

  /** Climbing from a department walks its chain backwards and then stops. */
  lemma {:induction false} ClimbIsChain(t: Table, id: string, chain: seq<string>, n: nat)
    requires IsChain(t, id, chain) && UuidKeys(t)
    ensures Climb(ParentsOf(t), id, n) == if n == 0 then id else if n <= |chain| then chain[|chain| - n] else ""
  {
    if n == 0 {
    } else {
      ClimbIsChain(t, id, chain, n - 1);
      if 1 < n <= |chain| + 1 {
        ChainOfAncestor(t, id, chain, |chain| - n + 1);
      }
      if n <= |chain| + 1 {
        ChainKeysAreUuids(t, id, chain);
      }
    }
  }

  /** In a well-formed table the cycle check refuses exactly the department's own subtree. */
  lemma ReachesExactlyTheSubtree(t: Table, parent: string, id: string)
    requires WellFormed(t) && parent in t && id in t
    ensures Reaches(ParentsOf(t), parent, id) <==> parent == id || id in Chain(t, parent)
  {
    var chain := Chain(t, parent);
    assert Uuid(id);
    if OnWalk(ParentsOf(t), parent, id) {
      var n: nat :| Climb(ParentsOf(t), parent, n) == id;
      ClimbIsChain(t, parent, chain, n);
    }
    if id in chain {
      var i :| 0 <= i < |chain| && chain[i] == id;
      ClimbIsChain(t, parent, chain, |chain| - i);
    }
  }

  // ---- What a move does to chains ----

  /** `id` hangs under `parent` now; the other parents are as before. */
  ghost predicate Rehung(t: Table, after: Table, id: string, parent: string)
  {
    && after.Keys == t.Keys && id in t && after[id].parent == Some(parent)
    && forall e | e in t && e != id :: after[e].parent == t[e].parent
  }

  lemma {:induction false} ChainUntouched(t: Table, after: Table, id: string, parent: string, e: string,
                                          chain: seq<string>)
    requires Rehung(t, after, id, parent)
    requires IsChain(t, e, chain) && e != id && id !in chain
    ensures IsChain(after, e, chain)
    decreases |chain|
  {
    if chain == [] {
    } else {
      ChainUntouched(t, after, id, parent, chain[|chain| - 1], chain[..|chain| - 1]);
    }
  }

  /** Below the moved department the part of the chain from it downwards stays. */
  lemma {:induction false} ChainCarriedAlong(t: Table, after: Table, id: string, parent: string, e: string,
                                             above: seq<string>, below: seq<string>, newAbove: seq<string>)
    requires Rehung(t, after, id, parent)
    requires IsChain(t, e, above + [id] + below) && id != e && id !in below
    requires IsChain(after, id, newAbove)
    ensures IsChain(after, e, newAbove + [id] + below)
    decreases |below|
  {
    var before, carried := above + [id] + below, newAbove + [id] + below;
    if below == [] {
      assert carried[..|carried| - 1] == newAbove;
    } else {
      var last := |below| - 1;
      assert before[..|before| - 1] == above + [id] + below[..last];
      assert carried[..|carried| - 1] == newAbove + [id] + below[..last];
      ChainCarriedAlong(t, after, id, parent, below[last], above, below[..last], newAbove);
    }
  }

  /** Chains after a move, as a function of the chains before. */
  function MovedChain(id: string, parentChain: seq<string>, parent: string, e: string, above: seq<string>,
                      chain: seq<string>)
    : seq<string>
  {
    if e == id then parentChain + [parent]
    else if above + [id] <= chain then parentChain + [parent] + chain[|above|..]
    else chain
  }

  lemma PrefixHoldsLast(above: seq<string>, id: string, chain: seq<string>)
    ensures above + [id] <= chain ==> id in chain
  {
    if above + [id] <= chain {
      assert chain[|above|] == (above + [id])[|above|];
    }
  }

  /** A chain through `id` starts with the chain of `id`, and `id` is on it once. */
  lemma {:induction false} ChainThrough(t: Table, id: string, above: seq<string>, e: string, chain: seq<string>)
    requires IsChain(t, e, chain) && IsChain(t, id, above) && id in chain
    ensures above + [id] <= chain && id !in chain[|above| + 1..] && id != e
  {
    var i :| 0 <= i < |chain| && chain[i] == id;
    ChainOfAncestor(t, e, chain, i);
    ChainIsUnique(t, id, above, chain[..i]);
    forall j | i < j < |chain| ensures chain[j] != id {
      ChainHasNoRepeats(t, e, chain, i, j);
    }
    NeverOwnAncestor(t, e, chain);
    assert above + [id] == chain[..i + 1];
  }

  /** The part of a chain from `id` on, set behind new ancestors. */
  lemma CarriedPart(above: seq<string>, id: string, newAbove: seq<string>, chain: seq<string>)
    requires above + [id] <= chain
    ensures chain == above + [id] + chain[|above| + 1..]
    ensures newAbove + [id] + chain[|above| + 1..] == newAbove + chain[|above|..]
  {
    assert chain[|above|] == (above + [id])[|above|];
  }

  lemma {:induction false} DescendantAfterMove(t: Table, after: Table, id: string, e: string, chain: seq<string>,
                                               above: seq<string>, parent: string, newAbove: seq<string>)
    requires Rehung(t, after, id, parent) && IsChain(t, e, chain) && IsChain(t, id, above) && id in chain
    requires IsChain(after, id, newAbove)
    ensures above + [id] <= chain && IsChain(after, e, newAbove + chain[|above|..])
  {
    ChainThrough(t, id, above, e, chain);
    CarriedPart(above, id, newAbove, chain);
    ChainCarriedAlong(t, after, id, parent, e, above, chain[|above| + 1..], newAbove);
  }

  lemma {:induction false} ChainsAfterMove(t: Table, after: Table, id: string, parent: string, e: string)
    requires WellFormed(t) && Rehung(t, after, id, parent) && parent in t && e in t
    requires parent != id && id !in Chain(t, parent)
    ensures IsChain(after, e, MovedChain(id, Chain(t, parent), parent, e, Chain(t, id), Chain(t, e)))
  {
    var up, above, chain := Chain(t, parent), Chain(t, id), Chain(t, e);
    ChainUntouched(t, after, id, parent, parent, up);
    assert (up + [parent])[..|up|] == up;
    assert IsChain(after, id, up + [parent]);
    if e != id {
      PrefixHoldsLast(above, id, chain);
      if id in chain {
        DescendantAfterMove(t, after, id, e, chain, above, parent, up + [parent]);
      } else {
        ChainUntouched(t, after, id, parent, e, chain);
      }
    }
  }

  /** Under itself or under a descendant, the department's new chain would contain itself. */
  lemma {:induction false} CyclicMoveHasNoChain(t: Table, after: Table, id: string, parent: string, c: seq<string>)
    requires WellFormed(t) && parent in t && id in t && Rehung(t, after, id, parent)
    requires parent == id || id in Chain(t, parent)
    ensures !IsChain(after, id, c)
  {
    if IsChain(after, id, c) {
      var rest := c[..|c| - 1];
      if parent == id {
        ChainIsUnique(after, id, c, rest);
      } else {
        var above, chain := Chain(t, id), Chain(t, parent);
        ChainThrough(t, id, above, parent, chain);
        var below := chain[|above| + 1..];
        assert chain == above + [id] + below;
        ChainCarriedAlong(t, after, id, parent, parent, above, below, c);
        ChainIsUnique(after, parent, rest, c + [id] + below);
      }
    }
  }

  /** The check refuses a move exactly when it would leave the department without a chain to a root. */
  lemma CycleCheckIsExact(t: Table, after: Table, id: string, parent: string)
    requires WellFormed(t) && parent in t && id in t && Rehung(t, after, id, parent)
    ensures Reaches(ParentsOf(t), parent, id) <==> !Rooted(after, id)
  {
    ReachesExactlyTheSubtree(t, parent, id);
    if parent != id && id !in Chain(t, parent) {
      ChainsAfterMove(t, after, id, parent, id);
      assert Rooted(after, id);
    } else {
      forall c ensures !IsChain(after, id, c) {
        CyclicMoveHasNoChain(t, after, id, parent, c);
      }
    }
  }

  // ---- What a move does to the texts ----

  /** SQL `REPLACE(s, from, to)`: every occurrence, left to right, not overlapping. */
  function Replace(s: string, from: string, to: string): string
    decreases |s|
  {
    if s == "" || from == "" then s
    else if from <= s then to + Replace(s[|from|..], from, to)
    else [s[0]] + Replace(s[1..], from, to)
  }

  ghost predicate Absent(s: string, from: string)
  {
    forall i | 0 <= i <= |s| :: !(from <= s[i..])
  }

  lemma {:induction false} ReplaceAbsent(s: string, from: string, to: string)
    requires Absent(s, from)
    ensures Replace(s, from, to) == s
  {
    if s == "" {
    } else {
      assert s[0..] == s;
      forall i | 0 <= i <= |s[1..]| ensures !(from <= s[1..][i..]) {
        assert s[1..][i..] == s[i + 1..];
      }
      ReplaceAbsent(s[1..], from, to);
    }
  }

  /** An id of the fixed length occurs in a run of other ids of that length nowhere, not even across a `/`. */
  lemma {:induction false} IdAbsentFromTail(id: string, ids: seq<string>)
    requires Uuid(id) && AllUuids(ids) && id !in ids
    ensures Absent(Tail(ids), id)
  {
    var tail := Tail(ids);
    if ids == [] {
    } else {
      assert Uuid(ids[0]);
      IdAbsentFromTail(id, ids[1..]);
      var rest := Tail(ids[1..]);
      assert tail == "/" + ids[0] + rest;
      forall i | 0 <= i <= |tail| ensures !(id <= tail[i..]) {
        if id <= tail[i..] {
          IdNotAt(id, ids[0], rest, i);
        }
      }
    }
  }

  lemma IdNotAt(id: string, first: string, rest: string, i: nat)
    requires Uuid(id) && Uuid(first) && id != first
    requires rest == "" || rest[0] == '/'
    requires Absent(rest, id)
    requires i <= |rest| + UUID_LENGTH + 1
    ensures !(id <= ("/" + first + rest)[i..])
  {
    var tail := "/" + first + rest;
    var at := tail[i..];
    if i == 0 {
      assert at[0] == '/';
    } else if i == 1 {
      assert at[..UUID_LENGTH] == first;
    } else if i <= UUID_LENGTH {
      var k := UUID_LENGTH + 1 - i;
      assert rest != "" ==> at[k] == '/' && id[k] != '/';
    } else {
      assert at == rest[i - UUID_LENGTH - 1..];
    }
  }

  lemma AbsentLonger(s: string, short: string, long: string)
    requires Absent(s, short) && short <= long
    ensures Absent(s, long)
  {
  }

  /** Rewriting a descendant's text replaces exactly the old prefix. */
  lemma {:induction false} RewriteIsExact(above: seq<string>, below: seq<string>, newAbove: seq<string>)
    requires above != [] && newAbove != []
    requires AllUuids(above) && AllUuids(below) && above[0] !in below
    ensures Replace(Join(above + below, "/"), Join(above, "/"), Join(newAbove, "/")) == Join(newAbove + below, "/")
  {
    var from, to := Join(above, "/"), Join(newAbove, "/");
    JoinIsPrefixAndTail(above, below);
    JoinIsPrefixAndTail(newAbove, below);
    assert Uuid(above[0]);
    IdAbsentFromTail(above[0], below);
    assert above[0] <= from;
    AbsentLonger(Tail(below), above[0], from);
    ReplaceAbsent(Tail(below), from, to);
    var text := from + Tail(below);
    assert text[|from|..] == Tail(below);
  }

  // ---- The three operations ----

  /** Width of the `ancestors` column. */
  const MAX_ANCESTORS := 500

  predicate Fits(t: Table)
  {
    forall id | id in t :: t[id].ancestors.Some? ==> |t[id].ancestors.value| <= MAX_ANCESTORS
  }

  /** A parent id that is present and not the empty string. */
  function Truthy(parent: Option<string>): Option<string>
  {
    if parent.Some? && parent.value != "" then parent else None
  }

  function Usable(t: Table, id: string): Option<Error>
  {
    if id !in t then Some(NotFound) else if !t[id].active then Some(BusinessRule) else None
  }

  predicate HasRoot(t: Table)
  {
    exists id | id in t :: t[id].parent.None?
  }

  predicate HasChild(t: Table, id: string)
  {
    exists e | e in t :: t[e].parent == Some(id)
  }

  /** The insert, refused by the database for a taken id, a parent that is no id, or a text too long. */
  function Inserted(t: Table, id: string, dept: Dept): Result<Table, Error>
  {
    if id in t || dept.parent == Some("") || !Fits(t[id := dept]) then Err(Rejected) else Ok(t[id := dept])
  }

  function Created(t: Table, scope: set<string>, id: string, parent: Option<string>): Result<Table, Error>
  {
    match Truthy(parent)
    case Some(p) =>
      if Usable(t, p).Some? then Err(Usable(t, p).value)
      else if p !in scope then Err(Forbidden)
      else Inserted(t, id, Dept(parent, Some(Prefix(p, t[p].ancestors)), true))
    case None =>
      if HasRoot(t) then Err(BusinessRule)
      else if scope == {} then Err(Forbidden)
      else Inserted(t, id, Dept(parent, None, true))
  }

  /** `undefined` when the parent does not change; otherwise the new ancestors text. */
  function ResolveParentAncestors(t: Table, dept: Dept, patch: Option<Option<string>>): Option<Option<string>>
  {
    if patch.None? || patch.value == dept.parent then None
    else
      match Truthy(patch.value)
      case None => Some(None)
      case Some(p) => Some(if p in t then Some(Prefix(p, t[p].ancestors)) else None)
  }

  function Relabel(text: Option<string>, from: string, to: string): Option<string>
  {
    if UnderPrefix(text, from) then Some(Replace(text.value, from, to)) else text
  }

  /** The bulk rewrite of the texts below a moved department. */
  function Relabelled(t: Table, from: string, to: string): Table
  {
    map e | e in t :: t[e].(ancestors := Relabel(t[e].ancestors, from, to))
  }

  function Patched(t: Table, id: string, patch: Option<Option<string>>, status: Option<bool>): Table
    requires id in t
  {
    var dept := t[id];
    var ancestors := ResolveParentAncestors(t, dept, patch);
    var updated := Dept(if patch.Some? then patch.value else dept.parent,
                        if ancestors.Some? then ancestors.value else dept.ancestors,
                        if status.Some? then status.value else dept.active);
    var from, to := Prefix(id, dept.ancestors), Prefix(id, updated.ancestors);
    if ancestors.Some? && from != to then Relabelled(t[id := updated], from, to) else t[id := updated]
  }

  ghost predicate Cyclic(t: Table, id: string, patch: Option<Option<string>>)
    requires id in t
  {
    && patch.Some? && patch.value != t[id].parent && Truthy(patch.value).Some?
    && Reaches(ParentsOf(t), patch.value.value, id)
  }

  ghost function Updated(t: Table, scope: set<string>, id: string, patch: Option<Option<string>>, status: Option<bool>)
    : Result<Table, Error>
  {
    var parent := if patch.Some? then Truthy(patch.value) else None;
    if id !in t then Err(NotFound)
    else if id !in scope || (parent.Some? && parent.value !in scope) then Err(Forbidden)
    else if patch == Some(None) && t[id].parent.Some? then Err(BusinessRule)
    else if t[id].parent.None? && status == Some(false) then Err(BusinessRule)
    else if parent.Some? && Usable(t, parent.value).Some? then Err(Usable(t, parent.value).value)
    else if Cyclic(t, id, patch) then Err(MoveToChild)
    else if patch == Some(Some("")) || !Fits(Patched(t, id, patch, status)) then Err(Rejected)
    else Ok(Patched(t, id, patch, status))
  }

  function Deleted(t: Table, scope: set<string>, id: string, users: nat, roles: nat): Result<Table, Error>
  {
    if id !in t then Err(NotFound)
    else if id !in scope then Err(Forbidden)
    else if t[id].parent.None? then Err(CannotDeleteRoot)
    else if HasChild(t, id) then Err(HasChildren)
    else if users > 0 then Err(HasUsers)
    else if roles > 0 then Err(HasRoles)
    else Ok(t - {id})
  }

  /** The department table as the three actions change it. */
  class DepartmentStore {
    var table: Table

    constructor ()
      ensures table == map[]
    {
      table := map[];
    }

    /** The whole table as a row list. */
    method FindMany() returns (rows: seq<Row>)
      ensures Lists(rows, table)
    {
      rows := [];
      var todo := table.Keys;
      while todo != {}
        invariant todo <= table.Keys
        invariant forall i | 0 <= i < |rows| :: rows[i].id in table && rows[i].parentId == table[rows[i].id].parent
        invariant forall id | id in table && id !in todo :: exists i :: 0 <= i < |rows| && rows[i].id == id
        decreases todo
      {
        var id :| id in todo;
        ghost var before := rows;
        rows := rows + [Row(id, table[id].parent)];
        assert rows[|before|].id == id;
        assert forall i | 0 <= i < |before| :: rows[i] == before[i];
        todo := todo - {id};
      }
    }

    method Create(scope: set<string>, id: string, parent: Option<string>) returns (error: Option<Error>)
      modifies this
      ensures Outcome(error, old(table), Created(old(table), scope, id, parent))
    {
      var ancestors: Option<string> := None;
      if parent.Some? && parent.value != "" {
        error := Usable(table, parent.value);
        if error.Some? {
          return;
        }
        if parent.value !in scope {
          return Some(Forbidden);
        }
        ancestors := Some(Prefix(parent.value, table[parent.value].ancestors));
      } else {
        if HasRoot(table) {
          return Some(BusinessRule);
        }
        if scope == {} {
          return Some(Forbidden);
        }
      }
      var inserted := Inserted(table, id, Dept(parent, ancestors, true));
      if inserted.Err? {
        return Some(inserted.error);
      }
      table := inserted.value;
      return None;
    }

    method Update(scope: set<string>, id: string, patch: Option<Option<string>>, status: Option<bool>)
      returns (error: Option<Error>)
      modifies this
      ensures Outcome(error, old(table), Updated(old(table), scope, id, patch, status))
    {
      if id !in table {
        return Some(NotFound);
      }
      var parent := if patch.Some? then Truthy(patch.value) else None;
      if id !in scope || (parent.Some? && parent.value !in scope) {
        return Some(Forbidden);
      }
      if (patch == Some(None) && table[id].parent.Some?) || (table[id].parent.None? && status == Some(false)) {
        return Some(BusinessRule);
      }
      if parent.Some? {
        error := Usable(table, parent.value);
        if error.Some? {
          return;
        }
      }
      if parent.Some? && patch.value != table[id].parent {
        var rows := FindMany();
        ListedParents(rows, table);
        error := ValidateNoCircularReference(id, parent.value, rows);
        if error.Some? {
          return;
        }
      }
      var patched := Patched(table, id, patch, status);
      if patch == Some(Some("")) || !Fits(patched) {
        return Some(Rejected);
      }
      table := patched;
      return None;
    }

    method Delete(scope: set<string>, id: string, users: nat, roles: nat) returns (error: Option<Error>)
      modifies this
      ensures Outcome(error, old(table), Deleted(old(table), scope, id, users, roles))
    {
      if id !in table {
        return Some(NotFound);
      }
      if id !in scope {
        return Some(Forbidden);
      }
      if table[id].parent.None? {
        return Some(CannotDeleteRoot);
      }
      if HasChild(table, id) {
        return Some(HasChildren);
      }
      if users > 0 {
        return Some(HasUsers);
      }
      if roles > 0 {
        return Some(HasRoles);
      }
      table := table - {id};
      return None;
    }

    /** A refused operation changes nothing; an accepted one leaves the specified table. */
    ghost predicate Outcome(error: Option<Error>, before: Table, result: Result<Table, Error>)
      reads this
    {
      match result
      case Ok(t) => error == None && table == t
      case Err(e) => error == Some(e) && table == before
    }
  }

  // ---- Who may do what ----

  /** The patch names this parent. */
  predicate Names(patch: Option<Option<string>>, parent: string)
  {
    patch == Some(Some(parent)) && parent != ""
  }

  /** An update of an existing row is forbidden exactly outside the scope, or towards a parent outside it. */
  lemma UpdateForbidden(t: Table, scope: set<string>, id: string, patch: Option<Option<string>>, status: Option<bool>)
    ensures id !in t ==> Updated(t, scope, id, patch, status) == Err(NotFound)
    ensures Updated(t, scope, id, patch, status) == Err(Forbidden) <==>
            id in t && (id !in scope || exists p :: Names(patch, p) && p !in scope)
  {
    if patch.Some? && Truthy(patch.value).Some? {
      assert Names(patch, patch.value.value);
    }
  }

  /** The rules that speak about the root: no row becomes a second one, and the root is not disabled. */
  predicate AgainstRoot(t: Table, id: string, patch: Option<Option<string>>, status: Option<bool>)
    requires id in t
  {
    (patch == Some(None) && t[id].parent.Some?) || (t[id].parent.None? && status == Some(false))
  }

  /**
   Within the scope: every refusal with its full condition, and success exactly when none applies. In a forest the
   cycle check refuses a new parent that is the department or lies below it.
   */
  lemma UpdateGuards(t: Table, scope: set<string>, id: string, patch: Option<Option<string>>, status: Option<bool>)
    requires WellFormed(t) && id in t && id in scope && forall p | Names(patch, p) :: p in scope
    ensures var result := Updated(t, scope, id, patch, status);
            var usable := forall p | Names(patch, p) :: p in t && t[p].active;
            var circular := exists p :: Names(patch, p) && p in t && t[id].parent != Some(p) && Above(t, id, p);
            && (result == Err(BusinessRule) <==>
                  AgainstRoot(t, id, patch, status) || exists p :: Names(patch, p) && p in t && !t[p].active)
            && (result == Err(NotFound) <==>
                  !AgainstRoot(t, id, patch, status) && exists p :: Names(patch, p) && p !in t)
            && (result == Err(MoveToChild) <==> !AgainstRoot(t, id, patch, status) && usable && circular)
            && (result.Ok? || result == Err(Rejected) <==> !AgainstRoot(t, id, patch, status) && usable && !circular)
            && (result == Err(Rejected) ==> patch == Some(Some("")) || !Fits(Patched(t, id, patch, status)))
            && (result.Ok? ==> patch != Some(Some("")) && Fits(Patched(t, id, patch, status)))
  {
    if patch.Some? && Truthy(patch.value).Some? {
      var p := patch.value.value;
      assert Names(patch, p);
      if p in t {
        ReachesExactlyTheSubtree(t, p, id);
      }
    }
  }

  /** What a successful update leaves: the patched parent and status in its own row, those of all others as before. */
  lemma UpdateTakesEffect(t: Table, scope: set<string>, id: string, patch: Option<Option<string>>,
                          status: Option<bool>)
    requires Updated(t, scope, id, patch, status).Ok?
    ensures id in t && id in scope && forall p | Names(patch, p) :: p in scope
    ensures var after := Updated(t, scope, id, patch, status).value;
            && after.Keys == t.Keys
            && after[id].parent == (if patch.Some? then patch.value else t[id].parent)
            && after[id].active == (if status.Some? then status.value else t[id].active)
            && forall e | e in t && e != id :: after[e].parent == t[e].parent && after[e].active == t[e].active
  {
  }

  /** A creation: every refusal with its full condition, and the one new row. */
  lemma CreateGuards(t: Table, scope: set<string>, id: string, parent: Option<string>)
    ensures var result := Created(t, scope, id, parent);
            var below := parent.Some? && parent.value != "";
            && (below && parent.value !in t ==> result == Err(NotFound))
            && (below && parent.value in t && !t[parent.value].active ==> result == Err(BusinessRule))
            && (below && parent.value in t && t[parent.value].active && parent.value !in scope ==>
                  result == Err(Forbidden))
            && (!below && (exists e | e in t :: t[e].parent.None?) ==> result == Err(BusinessRule))
            && (!below && (forall e | e in t :: t[e].parent.Some?) && scope == {} ==> result == Err(Forbidden))
            && (result.Ok? || result == Err(Rejected) <==>
                  if below then parent.value in t && t[parent.value].active && parent.value in scope
                  else scope != {} && forall e | e in t :: t[e].parent.Some?)
            && (result == Err(Rejected) ==>
                  id in t || parent == Some("")
                  || (below && parent.value in t && |Prefix(parent.value, t[parent.value].ancestors)| > 500)
                  || !Fits(t))
            && (result.Ok? ==>
                  && id !in t && parent != Some("") && scope != {}
                  && (below ==> parent.value in t && t[parent.value].active && parent.value in scope)
                  && (!below ==> parent == None && forall e | e in t :: t[e].parent.Some?)
                  && id in result.value && result.value[id].parent == parent && result.value[id].active
                  && result.value - {id} == t)
  {
    var result := Created(t, scope, id, parent);
    if result == Err(Rejected) && id !in t && parent != Some("") && Fits(t) {
      var p := Truthy(parent);
      var dept := Dept(parent, if p.Some? then Some(Prefix(p.value, t[p.value].ancestors)) else None, true);
      assert Inserted(t, id, dept) == Err(Rejected);
      forall e | e in t[id := dept] && e != id && t[e].ancestors.Some? ensures |t[e].ancestors.value| <= MAX_ANCESTORS {
      }
    }
  }

  /** A deletion: refused in this order, successful exactly when nothing refuses it, and then only this row is gone. */
  lemma DeleteGuards(t: Table, scope: set<string>, id: string, users: nat, roles: nat)
    ensures var result := Deleted(t, scope, id, users, roles);
            && (result == Err(NotFound) <==> id !in t)
            && (result == Err(Forbidden) <==> id in t && id !in scope)
            && (id in t && id in scope ==>
                  && (result == Err(CannotDeleteRoot) <==> t[id].parent.None?)
                  && (result == Err(HasChildren) <==>
                        t[id].parent.Some? && exists e | e in t :: t[e].parent == Some(id))
                  && (result.Ok? ==> users == 0 && roles == 0 && result.value == t - {id})
                  && (t[id].parent.Some? && !(exists e | e in t :: t[e].parent == Some(id)) ==>
                        && (result == Err(HasUsers) <==> users > 0)
                        && (result == Err(HasRoles) <==> users == 0 && roles > 0)
                        && (result.Ok? <==> users == 0 && roles == 0)))
  {
  }

  // ---- Every operation keeps the forest ----

  ghost predicate OneRoot(t: Table)
  {
    forall a, b | a in t && b in t && t[a].parent.None? && t[b].parent.None? :: a == b
  }

  lemma {:induction false} ChainBesides(t: Table, after: Table, e: string, chain: seq<string>)
    requires IsChain(t, e, chain)
    requires forall k | k == e || k in chain :: k in t && k in after && after[k].parent == t[k].parent
    ensures IsChain(after, e, chain)
    decreases |chain|
  {
    if chain == [] {
    } else {
      ChainBesides(t, after, chain[|chain| - 1], chain[..|chain| - 1]);
    }
  }

  lemma InsertedIsFiled(t: Table, id: string, dept: Dept)
    requires WellFormed(t) && Uuid(id) && id !in t && dept.parent.Some? && dept.parent.value in t
    requires dept.ancestors == Some(Prefix(dept.parent.value, t[dept.parent.value].ancestors))
    ensures Filed(t[id := dept], id)
  {
    var after, p := t[id := dept], dept.parent.value;
    var up := Chain(t, p);
    SegmentsOfChain(t, p, up);
    ChainKeysAreUuids(t, p, up);
    ChainBesides(t, after, p, up);
    PrefixIsJoin(p, up);
    assert (up + [p])[..|up|] == up;
    assert IsChain(after, id, up + [p]);
  }

  lemma InsertKeepsForest(t: Table, id: string, dept: Dept)
    requires WellFormed(t) && Uuid(id) && id !in t
    requires dept.parent.Some? ==>
               && dept.parent.value in t
               && dept.ancestors == Some(Prefix(dept.parent.value, t[dept.parent.value].ancestors))
    requires dept.parent.None? ==> dept.ancestors.None?
    ensures WellFormed(t[id := dept])
  {
    var after := t[id := dept];
    forall e | e in after ensures Filed(after, e) {
      if e != id {
        ChainKeysAreUuids(t, e, Chain(t, e));
        ChainBesides(t, after, e, Chain(t, e));
      } else if dept.parent.None? {
        assert IsChain(after, id, []);
      } else {
        InsertedIsFiled(t, id, dept);
      }
    }
  }

  lemma CreateKeepsForest(t: Table, scope: set<string>, id: string, parent: Option<string>)
    requires WellFormed(t) && OneRoot(t) && Uuid(id)
    requires Created(t, scope, id, parent).Ok?
    ensures WellFormed(Created(t, scope, id, parent).value) && OneRoot(Created(t, scope, id, parent).value)
  {
    var after := Created(t, scope, id, parent).value;
    InsertKeepsForest(t, id, after[id]);
  }

  /** An ancestor has a child. */
  lemma {:induction false} AncestorHasChild(t: Table, e: string, chain: seq<string>, id: string)
    requires IsChain(t, e, chain) && id in chain
    ensures HasChild(t, id)
  {
    var i :| 0 <= i < |chain| && chain[i] == id;
    if i == |chain| - 1 {
      assert t[e].parent == Some(id);
    } else {
      ChainOfAncestor(t, e, chain, i + 1);
      assert chain[..i + 1][i] == id;
      assert t[chain[i + 1]].parent == Some(id);
    }
  }

  lemma DeleteKeepsForest(t: Table, scope: set<string>, id: string, users: nat, roles: nat)
    requires WellFormed(t) && OneRoot(t)
    requires Deleted(t, scope, id, users, roles).Ok?
    ensures WellFormed(t - {id}) && OneRoot(t - {id})
  {
    var after := t - {id};
    forall e | e in after ensures Filed(after, e) {
      var chain := Chain(t, e);
      if id in chain {
        AncestorHasChild(t, e, chain, id);
        assert false;
      }
      ChainKeysAreUuids(t, e, chain);
      ChainBesides(t, after, e, chain);
    }
  }

  /** A move really changes the prefix: the rewrite always takes place. */
  lemma {:induction false} MoveChangesPrefix(above: seq<string>, newAbove: seq<string>, id: string)
    requires Segments(above) && Segments(newAbove) && id != "" && '/' !in id && above != newAbove
    ensures Join(above + [id], "/") != Join(newAbove + [id], "/")
  {
    assert "/" == ['/'];
    SplitOfJoin(above + [id], '/');
    SplitOfJoin(newAbove + [id], '/');
    assert (above + [id])[..|above|] == above && (newAbove + [id])[..|newAbove|] == newAbove;
  }

  /** A real move: a usable new parent, not the current one, and the cycle check passed. */
  ghost predicate Moves(t: Table, id: string, parent: string)
  {
    && WellFormed(t) && id in t && parent in t && t[id].parent != Some(parent)
    && parent != id && id !in Chain(t, parent)
  }

  /** Path of everything directly below: the chain with the department's own id. */
  function Below(chain: seq<string>, id: string): string
  {
    Join(chain + [id], "/")
  }

  /** The prefixes the move replaces and writes are the paths of the old and the new chain. */
  lemma PrefixesOfMove(t: Table, id: string, parent: string)
    requires Moves(t, id, parent)
    ensures var up, above := Chain(t, parent), Chain(t, id);
            && Prefix(id, t[id].ancestors) == Below(above, id)
            && Some(Prefix(parent, t[parent].ancestors)) == PathText(up + [parent])
            && Prefix(id, PathText(up + [parent])) == Below(up + [parent], id)
            && Below(above, id) != Below(up + [parent], id)
  {
    var up, above := Chain(t, parent), Chain(t, id);
    SegmentsOfChain(t, parent, up);
    SegmentsOfChain(t, id, above);
    assert Uuid(id) && Uuid(parent);
    PrefixIsJoin(id, above);
    PrefixIsJoin(parent, up);
    PrefixIsJoin(id, up + [parent]);
    assert above != up + [parent];
    MoveChangesPrefix(above, up + [parent], id);
  }

  lemma MoveRelabels(t: Table, id: string, parent: string, status: Option<bool>)
    requires Moves(t, id, parent)
    ensures var up, above := Chain(t, parent), Chain(t, id);
            exists active ::
              Patched(t, id, Some(Some(parent)), status) ==
              Relabelled(t[id := Dept(Some(parent), PathText(up + [parent]), active)],
                         Below(above, id), Below(up + [parent], id))
  {
    var up, above := Chain(t, parent), Chain(t, id);
    PrefixesOfMove(t, id, parent);
    var active := if status.Some? then status.value else t[id].active;
    var updated := Dept(Some(parent), PathText(up + [parent]), active);
    assert Patched(t, id, Some(Some(parent)), status) ==
           Relabelled(t[id := updated], Below(above, id), Below(up + [parent], id));
  }

  lemma {:induction false} FirstIsNotBelow(t: Table, e: string, chain: seq<string>, above: seq<string>,
                                           below: seq<string>)
    requires IsChain(t, e, chain) && chain == above + below && above != [] && UuidKeys(t)
    ensures AllUuids(above) && AllUuids(below) && above[0] !in below
  {
    ChainKeysAreUuids(t, e, chain);
    forall i | 0 <= i < |above| ensures Uuid(above[i]) {
      assert above[i] == chain[i];
    }
    forall j | 0 <= j < |below| ensures Uuid(below[j]) && below[j] != above[0] {
      assert below[j] == chain[|above| + j];
      ChainHasNoRepeats(t, e, chain, 0, |above| + j);
    }
  }

  /** Two paths that the rewrite can tell apart: every id has the fixed length, and `own` does not start again below. */
  ghost predicate Separable(own: seq<string>, chain: seq<string>)
  {
    && own != [] && Segments(own) && Segments(chain)
    && (own <= chain ==> AllUuids(own) && AllUuids(chain[|own|..]) && own[0] !in chain[|own|..])
  }

  lemma {:induction false} RelabelledText(own: seq<string>, newOwn: seq<string>, chain: seq<string>)
    requires Separable(own, chain) && newOwn != []
    ensures Relabel(PathText(chain), Join(own, "/"), Join(newOwn, "/")) ==
            PathText(if own <= chain then newOwn + chain[|own|..] else chain)
  {
    UnderJoin(own, chain);
    if own <= chain {
      assert chain == own + chain[|own|..];
      RewriteIsExact(own, chain[|own|..], newOwn);
    }
  }

  lemma {:induction false} ChainsAreSeparable(t: Table, id: string, e: string, above: seq<string>, chain: seq<string>)
    requires UuidKeys(t) && IsChain(t, id, above) && IsChain(t, e, chain)
    ensures Separable(above + [id], chain)
  {
    var own := above + [id];
    SegmentsOfChain(t, id, above);
    SegmentsOfChain(t, e, chain);
    assert Uuid(id);
    if own <= chain {
      assert chain == own + chain[|own|..];
      FirstIsNotBelow(t, e, chain, own, chain[|own|..]);
    }
  }

  /** The new text of a department other than the moved one. */
  lemma RelabelledChain(t: Table, id: string, parent: string, e: string)
    requires Moves(t, id, parent) && e in t && e != id
    ensures var up, above, chain := Chain(t, parent), Chain(t, id), Chain(t, e);
            Relabel(PathText(chain), Below(above, id), Below(up + [parent], id)) ==
            PathText(MovedChain(id, up, parent, e, above, chain))
  {
    var newAbove, above, chain := Chain(t, parent) + [parent], Chain(t, id), Chain(t, e);
    ChainsAreSeparable(t, id, e, above, chain);
    RelabelledText(above + [id], newAbove + [id], chain);
    if above + [id] <= chain {
      CarriedPart(above, id, newAbove, chain);
    }
  }

  /** The moved department's own new text is not touched by the rewrite. */
  lemma MovedOwnText(t: Table, id: string, parent: string)
    requires Moves(t, id, parent)
    ensures !UnderPrefix(PathText(Chain(t, parent) + [parent]), Below(Chain(t, id), id))
  {
    var up, above := Chain(t, parent), Chain(t, id);
    SegmentsOfChain(t, parent, up);
    SegmentsOfChain(t, id, above);
    assert Uuid(id) && Uuid(parent);
    UnderJoin(above + [id], up + [parent]);
    PrefixHoldsLast(above, id, up + [parent]);
  }

  lemma MovedText(t: Table, id: string, parent: string, status: Option<bool>, e: string)
    requires Moves(t, id, parent) && e in t
    ensures Patched(t, id, Some(Some(parent)), status)[e].ancestors ==
            PathText(MovedChain(id, Chain(t, parent), parent, e, Chain(t, id), Chain(t, e)))
  {
    MoveRelabels(t, id, parent, status);
    if e == id {
      MovedOwnText(t, id, parent);
    } else {
      RelabelledChain(t, id, parent, e);
    }
  }

  /** A move that passes the check keeps every chain and every materialised path of the table right. */
  lemma MoveKeepsForest(t: Table, id: string, parent: string, status: Option<bool>)
    requires Moves(t, id, parent)
    ensures WellFormed(Patched(t, id, Some(Some(parent)), status))
    ensures Rehung(t, Patched(t, id, Some(Some(parent)), status), id, parent)
  {
    var after := Patched(t, id, Some(Some(parent)), status);
    forall e | e in t ensures Filed(after, e) {
      ChainsAfterMove(t, after, id, parent, e);
      MovedText(t, id, parent, status, e);
    }
  }

  lemma {:induction false} RootOfChain(t: Table, id: string, chain: seq<string>)
    requires IsChain(t, id, chain)
    ensures var top := if chain == [] then id else chain[0]; top in t && t[top].parent.None?
  {
    if chain != [] {
      ChainOfAncestor(t, id, chain, 0);
    }
  }

  lemma UnmovedKeepsForest(t: Table, id: string, patch: Option<Option<string>>, status: Option<bool>)
    requires WellFormed(t) && id in t
    requires patch.None? || patch.value == t[id].parent
    ensures WellFormed(Patched(t, id, patch, status))
    ensures forall e | e in t ::
              e in Patched(t, id, patch, status) && Patched(t, id, patch, status)[e].parent == t[e].parent
  {
    var after := Patched(t, id, patch, status);
    forall e | e in after ensures Filed(after, e) {
      ChainKeysAreUuids(t, e, Chain(t, e));
      ChainBesides(t, after, e, Chain(t, e));
    }
  }

  /** A root cannot be moved: everything it could move to lies below it. */
  lemma RootIsNotMoved(t: Table, id: string, parent: string)
    requires Moves(t, id, parent) && OneRoot(t)
    ensures t[id].parent.Some?
  {
    RootOfChain(t, parent, Chain(t, parent));
  }

  lemma MoveKeepsRoots(t: Table, id: string, parent: string, status: Option<bool>)
    requires Moves(t, id, parent) && OneRoot(t)
    ensures var after := Patched(t, id, Some(Some(parent)), status);
            WellFormed(after) && OneRoot(after) && after.Keys == t.Keys
            && forall r | r in t && t[r].parent.None? :: after[r].parent.None?
  {
    MoveKeepsForest(t, id, parent, status);
    RootIsNotMoved(t, id, parent);
  }

  lemma UpdateKeepsForest(t: Table, scope: set<string>, id: string, patch: Option<Option<string>>, status: Option<bool>)
    requires WellFormed(t) && OneRoot(t)
    requires Updated(t, scope, id, patch, status).Ok?
    ensures var after := Patched(t, id, patch, status);
            WellFormed(after) && OneRoot(after) && after.Keys == t.Keys
            && forall r | r in t && t[r].parent.None? :: after[r].parent.None?
  {
    if patch.None? || patch.value == t[id].parent {
      UnmovedKeepsForest(t, id, patch, status);
    } else {
      ReachesExactlyTheSubtree(t, patch.value.value, id);
      MoveKeepsRoots(t, id, patch.value.value, status);
    }
  }

  // ---- Over every run ----

  datatype Step =
    | Create(scope: set<string>, id: string, parent: Option<string>)
    | Update(scope: set<string>, id: string, patch: Option<Option<string>>, status: Option<bool>)
    | Delete(scope: set<string>, id: string, users: nat, roles: nat)

  ghost function Attempt(t: Table, step: Step): Result<Table, Error>
  {
    match step
    case Create(scope, id, parent) => Created(t, scope, id, parent)
    case Update(scope, id, patch, status) => Updated(t, scope, id, patch, status)
    case Delete(scope, id, users, roles) => Deleted(t, scope, id, users, roles)
  }

  ghost function After(t: Table, step: Step): Table
  {
    match Attempt(t, step)
    case Ok(after) => after
    case Err(_) => t
  }

  ghost function Run(t: Table, steps: seq<Step>): Table
    decreases steps
  {
    if steps == [] then t else Run(After(t, steps[0]), steps[1..])
  }

  /** New ids come from the UUID generator. */
  ghost predicate Generated(steps: seq<Step>)
  {
    forall i | 0 <= i < |steps| :: steps[i].Create? ==> Uuid(steps[i].id)
  }

  lemma StepKeepsForest(t: Table, step: Step)
    requires WellFormed(t) && OneRoot(t) && (step.Create? ==> Uuid(step.id))
    ensures WellFormed(After(t, step)) && OneRoot(After(t, step))
    ensures forall r | r in t && t[r].parent.None? :: r in After(t, step) && After(t, step)[r].parent.None?
  {
    if Attempt(t, step).Ok? {
      match step {
        case Create(scope, id, parent) => CreateKeepsForest(t, scope, id, parent);
        case Update(scope, id, patch, status) => UpdateKeepsForest(t, scope, id, patch, status);
        case Delete(scope, id, users, roles) => DeleteKeepsForest(t, scope, id, users, roles);
      }
    }
  }

  /**
   Over every run of creates, updates with moves, and deletes by any operators: the departments stay
   one forest with at most one root, every materialised path stays right, and a root once created
   is never removed, moved or joined by a second one.
   */
  lemma {:induction false} RunKeepsForest(t: Table, steps: seq<Step>)
    requires WellFormed(t) && OneRoot(t) && Generated(steps)
    ensures WellFormed(Run(t, steps)) && OneRoot(Run(t, steps))
    ensures forall r | r in t && t[r].parent.None? :: r in Run(t, steps) && Run(t, steps)[r].parent.None?
    decreases steps
  {
    if steps == [] {
    } else {
      StepKeepsForest(t, steps[0]);
      RunKeepsForest(After(t, steps[0]), steps[1..]);
    }
  }

  // ---- Nobody acts outside the data scope ----

  /** The department is there with the parent and the status it had, and no new child. */
  ghost predicate Untouched(t: Table, after: Table, d: string)
    requires d in t
  {
    && d in after && after[d].parent == t[d].parent && after[d].active == t[d].active
    && forall e | e in after && after[e].parent == Some(d) :: e in t && t[e].parent == Some(d)
  }

  lemma StepStaysInScope(t: Table, step: Step, d: string)
    requires d in t && d !in step.scope && d != ""
    ensures Untouched(t, After(t, step), d)
  {
    if Attempt(t, step).Ok? {
      match step {
        case Create(scope, id, parent) => CreateGuards(t, scope, id, parent);
        case Update(scope, id, patch, status) =>
          UpdateTakesEffect(t, scope, id, patch, status);
          assert patch == Some(Some(d)) ==> Names(patch, d);
        case Delete(scope, id, users, roles) => DeleteGuards(t, scope, id, users, roles);
      }
    }
  }

  /**
   Over every run of creates, updates and deletes: a department in no step's data scope is never deleted, keeps its
   parent and its status, and gains no child.
   */
  lemma {:induction false} RunStaysInScope(t: Table, steps: seq<Step>, d: string)
    requires d in t && d != "" && forall i | 0 <= i < |steps| :: d !in steps[i].scope
    ensures Untouched(t, Run(t, steps), d)
    decreases steps
  {
    if steps == [] {
    } else {
      StepStaysInScope(t, steps[0], d);
      RunStaysInScope(After(t, steps[0]), steps[1..], d);
    }
  }

  // ---- What a move does to data scopes ----

  /** `d` is `e` or above it: `e` is in the data scope of a role filed under `d`. */
  ghost predicate Above(t: Table, d: string, e: string)
    requires WellFormed(t) && e in t
  {
    d == e || d in Chain(t, e)
  }

  /** The line from the root down to `e`: every place on it has the part before it as its chain. */
  lemma Line(t: Table, e: string, j: nat)
    requires WellFormed(t) && e in t && j <= |Chain(t, e)|
    ensures var line := Chain(t, e) + [e]; line[j] in t && Chain(t, line[j]) == line[..j]
  {
    var chain := Chain(t, e);
    var line := chain + [e];
    if j < |chain| {
      ChainKeysAreUuids(t, e, chain);
      ChainOfAncestor(t, e, chain, j);
      ChainIsUnique(t, chain[j], chain[..j], Chain(t, chain[j]));
      assert line[..j] == chain[..j];
    } else {
      assert line[..j] == chain;
    }
  }

  lemma AboveIsOnLine(t: Table, d: string, e: string)
    requires WellFormed(t) && d in t && e in t
    ensures Above(t, d, e) <==> |Chain(t, d)| <= |Chain(t, e)| && (Chain(t, e) + [e])[|Chain(t, d)|] == d
  {
    var line := Chain(t, e) + [e];
    if Above(t, d, e) {
      assert d in line;
      var i :| 0 <= i < |line| && line[i] == d;
      Line(t, e, i);
    }
  }

  /** From an ancestor down to `e` lie exactly the places that are below the one and above the other. */
  lemma ChainFrom(t: Table, id: string, d: string, e: string)
    requires WellFormed(t) && id in t && d in t && e in t && Above(t, id, e)
    ensures |Chain(t, id)| <= |Chain(t, e)|
    ensures d in (Chain(t, e) + [e])[|Chain(t, id)|..] <==> Above(t, d, e) && Above(t, id, d)
  {
    AboveIsOnLine(t, id, e);
    AboveIsOnLine(t, d, e);
    AboveIsOnLine(t, id, d);
    var i, j := |Chain(t, id)|, |Chain(t, d)|;
    var line := Chain(t, e) + [e];
    if Above(t, d, e) {
      Line(t, e, j);
      assert line[..j] + [d] == line[..j + 1];
      if i <= j {
        assert line[i..][j - i] == d;
        assert (line[..j] + [d])[i] == line[i];
      }
    }
    if k :| 0 <= k < |line[i..]| && line[i..][k] == d {
      Line(t, e, i + k);
      assert line[i + k] == d;
    }
  }

  /**
   What a move changes in data scopes: the moved subtree leaves every scope it was in from above,
   enters exactly the scopes that hold the new parent, and nothing else changes.
   */
  lemma MoveShiftsScopes(t: Table, id: string, parent: string, status: Option<bool>, d: string, e: string)
    requires Moves(t, id, parent) && d in t && e in t
    ensures var after := Patched(t, id, Some(Some(parent)), status);
            && WellFormed(after) && e in after
            && (Above(after, d, e) <==>
                if Above(t, id, e) then Above(t, d, parent) || (Above(t, d, e) && Above(t, id, d)) else Above(t, d, e))
  {
    var after := Patched(t, id, Some(Some(parent)), status);
    MoveKeepsForest(t, id, parent, status);
    ChainsAfterMove(t, after, id, parent, e);
    var up, above, chain := Chain(t, parent), Chain(t, id), Chain(t, e);
    ChainIsUnique(after, e, Chain(after, e), MovedChain(id, up, parent, e, above, chain));
    PrefixHoldsLast(above, id, chain);
    if Above(t, id, e) {
      ChainFrom(t, id, d, e);
      assert Chain(after, e) + [e] == up + [parent] + (chain + [e])[|above|..] by {
        if e != id {
          AncestorPrefix(t, id, e);
        }
      }
      assert d in Chain(after, e) + [e] <==> Above(after, d, e);
    }
  }

  lemma AncestorPrefix(t: Table, id: string, e: string)
    requires WellFormed(t) && id in t && e in t && id in Chain(t, e)
    ensures Chain(t, id) + [id] <= Chain(t, e)
  {
    var chain := Chain(t, e);
    var i :| 0 <= i < |chain| && chain[i] == id;
    ChainOfAncestor(t, e, chain, i);
    ChainIsUnique(t, id, Chain(t, id), chain[..i]);
    assert chain[..i] + [id] == chain[..i + 1];
  }
}
