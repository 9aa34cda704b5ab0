/**
 Cookie request headers: extraction by name and the single-pass rewrite that strips
 the refresh token before a request is forwarded (apps/gateway/src/cookie.rs).
 */
module Cookie {
  import opened Wrappers
  import opened Strings

  const ACCESS_COOKIE := "portal_jwt_token"
  const REFRESH_COOKIE := "portal_refresh_token"

  /** The two session cookies, by name. The results below use only what `Proper` says of the names. */
  datatype SessionNames = SessionNames(access: string, refresh: string)
  {
    ghost predicate Proper()
    {
      access != refresh && ProperName(access) && ProperName(refresh)
    }
  }

  const PORTAL := SessionNames(ACCESS_COOKIE, REFRESH_COOKIE)

  /** A cookie name: not empty, no `=`, no `;`, no leading white space. */
  ghost predicate ProperName(name: string)
  {
    name != "" && '=' !in name && ';' !in name && !IsWhitespace(name[0])
  }

  lemma PortalNamesAreProper()
    ensures PORTAL.Proper()
  {
    assert |ACCESS_COOKIE| != |REFRESH_COOKIE|;
  }

  /** The Unicode `White_Space` property, which `str::trim_start` removes. */
  predicate IsWhitespace(c: char)
  {
    || '\U{0009}' <= c <= '\U{000D}'
    || c == ' ' || c == '\U{0085}' || c == '\U{00A0}' || c == '\U{1680}'
    || '\U{2000}' <= c <= '\U{200A}'
    || c == '\U{2028}' || c == '\U{2029}' || c == '\U{202F}' || c == '\U{205F}' || c == '\U{3000}'
  }

  function TrimStart(s: string): (t: string)
    ensures t != "" ==> !IsWhitespace(t[0])
  {
    if s != "" && IsWhitespace(s[0]) then TrimStart(s[1..]) else s
  }

  /** The value of a `name=value` segment, if the segment is for `name`. */
  function CookieValue(segment: string, name: string): (value: Option<string>)
    ensures value.Some? <==> name + "=" <= segment
    ensures value.Some? ==> segment == name + "=" + value.value
  {
    match StripPrefix(segment, name)
    case None =>
      assert name + "=" <= segment ==> name <= segment;
      None
    case Some(rest) => StripPrefix(rest, "=")
  }

  function Segment(name: string, value: string): string
  {
    name + "=" + value
  }

  /** Drops one pair of surrounding double quotes; a lone quote is left alone. */
  function StripQuotes(value: string): string
  {
    if QuoteWrapped(value) then value[1..|value| - 1] else value
  }

  predicate QuoteWrapped(value: string)
  {
    |value| >= 2 && value[0] == '"' && value[|value| - 1] == '"'
  }

  function FindValue(segments: seq<string>, name: string): Option<string>
  {
    if segments == [] then None
    else
      match CookieValue(TrimStart(segments[0]), name)
      case Some(value) => Some(StripQuotes(value))
      case None => FindValue(segments[1..], name)
  }

  function ExtractFromHeader(header: string, name: string): Option<string>
  {
    FindValue(Split(header, ';'), name)
  }

  // ---- What a header says: its cookies in order ----

  /** The non-empty segments of a header, without their leading white space. */
  function Trimmed(segments: seq<string>): seq<string>
  {
    if segments == [] then []
    else
      var head := TrimStart(segments[0]);
      (if head == "" then [] else [head]) + Trimmed(segments[1..])
  }

  function CookiesOf(header: string): seq<string>
  {
    Trimmed(Split(header, ';'))
  }

  /** The cookies that go upstream: no refresh token, every access token replaced. */
  function Kept(names: SessionNames, cookies: seq<string>, newAccess: Option<string>): seq<string>
  {
    if cookies == [] then []
    else if CookieValue(cookies[0], names.refresh).Some? then Kept(names, cookies[1..], newAccess)
    else if newAccess.Some? && CookieValue(cookies[0], names.access).Some? then
      [Segment(names.access, newAccess.value)] + Kept(names, cookies[1..], newAccess)
    else [cookies[0]] + Kept(names, cookies[1..], newAccess)
  }

  /** The first cookie for `name`, searched in the parsed cookies. */
  function Lookup(cookies: seq<string>, name: string): Option<string>
  {
    if cookies == [] then None
    else if CookieValue(cookies[0], name).Some? then Some(StripQuotes(CookieValue(cookies[0], name).value))
    else Lookup(cookies[1..], name)
  }

  function Forwarded(names: SessionNames, cookies: seq<string>, newAccess: Option<string>): seq<string>
  {
    Kept(names, cookies, newAccess) +
    if newAccess.Some? && Lookup(cookies, names.access).None?
    then [Segment(names.access, newAccess.value)] else []
  }

  function Rewritten(names: SessionNames, raw: string, newAccess: Option<string>): string
  {
    Join(Forwarded(names, CookiesOf(raw), newAccess), "; ")
  }

  // ---- The loops ----

  /** Appends a piece, after a separator when there is already output. */
  function Glue(out: string, piece: string): string
  {
    if out == "" then piece else out + "; " + piece
  }

  ghost predicate AllNonEmpty(pieces: seq<string>)
  {
    forall i | 0 <= i < |pieces| :: pieces[i] != ""
  }

  lemma {:induction false} JoinSnoc(pieces: seq<string>, piece: string)
    requires AllNonEmpty(pieces)
    ensures Join(pieces + [piece], "; ") == Glue(Join(pieces, "; "), piece)
    ensures pieces != [] ==> Join(pieces, "; ") != ""
  {
    if pieces != [] {
      JoinOfConcat(pieces, [piece], "; ");
      if |pieces| > 1 {
        assert Join(pieces, "; ") == pieces[0] + "; " + Join(pieces[1..], "; ");
      }
    } else {
      assert pieces + [piece] == [piece];
    }
  }

  lemma {:induction false} TrimmedConcat(a: seq<string>, b: seq<string>)
    ensures Trimmed(a + b) == Trimmed(a) + Trimmed(b)
  {
    if a == [] {
      assert a + b == b;
    } else {
      assert (a + b)[1..] == a[1..] + b;
      TrimmedConcat(a[1..], b);
    }
  }

  lemma {:induction false} KeptConcat(names: SessionNames, a: seq<string>, b: seq<string>, newAccess: Option<string>)
    ensures Kept(names, a + b, newAccess) == Kept(names, a, newAccess) + Kept(names, b, newAccess)
  {
    if a == [] {
      assert a + b == b;
    } else {
      assert (a + b)[1..] == a[1..] + b;
      KeptConcat(names, a[1..], b, newAccess);
    }
  }

  lemma {:induction false} KeptNonEmpty(names: SessionNames, cookies: seq<string>, newAccess: Option<string>)
    requires names.Proper()
    requires AllNonEmpty(cookies)
    ensures AllNonEmpty(Kept(names, cookies, newAccess))
  {
    if cookies == [] {
    } else {
      KeptNonEmpty(names, cookies[1..], newAccess);
    }
  }

  lemma {:induction false} TrimmedNonEmpty(segments: seq<string>)
    ensures AllNonEmpty(Trimmed(segments))
  {
    if segments == [] {
    } else {
      TrimmedNonEmpty(segments[1..]);
    }
  }

  /** What one trimmed segment becomes: nothing, the new access token, or itself. */
  function Piece(names: SessionNames, segment: string, newAccess: Option<string>): Option<string>
  {
    if segment == "" || CookieValue(segment, names.refresh).Some? then None
    else if newAccess.Some? && CookieValue(segment, names.access).Some?
    then Some(Segment(names.access, newAccess.value))
    else Some(segment)
  }

  lemma TrimmedSnoc(segments: seq<string>, i: nat)
    requires i < |segments|
    ensures Trimmed(segments[..i + 1]) ==
            Trimmed(segments[..i]) + (if TrimStart(segments[i]) == "" then [] else [TrimStart(segments[i])])
  {
    assert segments[..i + 1] == segments[..i] + [segments[i]];
    TrimmedConcat(segments[..i], [segments[i]]);
    assert Trimmed([segments[i]][1..]) == [];
  }

  lemma {:induction false} KeptOne(names: SessionNames, segment: string, newAccess: Option<string>)
    requires names.Proper() && segment != ""
    ensures Kept(names, [segment], newAccess) ==
            (if Piece(names, segment, newAccess).None? then [] else [Piece(names, segment, newAccess).value])
    ensures Piece(names, segment, newAccess).None? ==> CookieValue(segment, names.access).None?
    ensures Lookup([segment], names.access).Some? <==> CookieValue(segment, names.access).Some?
  {
    assert Kept(names, [segment][1..], newAccess) == [];
    assert Lookup([segment][1..], names.access) == None;
    if CookieValue(segment, names.refresh).Some? {
      NamesExclude(segment, names.refresh, names.access);
    }
  }

  /** One loop iteration, on the specification side. */
  lemma {:induction false} RewriteStep(names: SessionNames, segments: seq<string>, i: nat, newAccess: Option<string>)
    requires names.Proper()
    requires i < |segments|
    ensures var before := Trimmed(segments[..i]);
            var after := Trimmed(segments[..i + 1]);
            var segment := TrimStart(segments[i]);
            var piece := Piece(names, segment, newAccess);
            && Join(Kept(names, after, newAccess), "; ") ==
               (if piece.None? then Join(Kept(names, before, newAccess), "; ")
                else Glue(Join(Kept(names, before, newAccess), "; "), piece.value))
            && (Lookup(after, names.access).Some? <==>
                  Lookup(before, names.access).Some? || CookieValue(segment, names.access).Some?)
            && (piece.None? ==> CookieValue(segment, names.access).None?)
  {
    var before, segment := Trimmed(segments[..i]), TrimStart(segments[i]);
    TrimmedSnoc(segments, i);
    if segment == "" {
      assert before + [] == before;
    } else {
      KeptOne(names, segment, newAccess);
      KeptConcat(names, before, [segment], newAccess);
      LookupConcat(before, [segment], names.access);
      var kept, piece := Kept(names, before, newAccess), Piece(names, segment, newAccess);
      if piece.None? {
        assert kept + [] == kept;
      } else {
        TrimmedNonEmpty(segments[..i]);
        KeptNonEmpty(names, before, newAccess);
        JoinSnoc(kept, piece.value);
      }
    }
  }

  /** The output after the first `i` segments. */
  function Output(names: SessionNames, segments: seq<string>, i: nat, newAccess: Option<string>): string
    requires i <= |segments|
  {
    if i == 0 then ""
    else
      var out := Output(names, segments, i - 1, newAccess);
      var piece := Piece(names, TrimStart(segments[i - 1]), newAccess);
      if piece.None? then out else Glue(out, piece.value)
  }

  lemma {:induction false} OutputIsKept(names: SessionNames, segments: seq<string>, i: nat, newAccess: Option<string>)
    requires names.Proper()
    requires i <= |segments|
    ensures Output(names, segments, i, newAccess) == Join(Kept(names, Trimmed(segments[..i]), newAccess), "; ")
  {
    if i == 0 {
    } else {
      OutputIsKept(names, segments, i - 1, newAccess);
      RewriteStep(names, segments, i - 1, newAccess);
    }
  }

  /** Whether an access cookie is among the first `i` segments. */
  predicate SeenAccess(names: SessionNames, segments: seq<string>, i: nat)
    requires i <= |segments|
  {
    i > 0 && (SeenAccess(names, segments, i - 1) || CookieValue(TrimStart(segments[i - 1]), names.access).Some?)
  }

  lemma {:induction false} SeenIsLookup(names: SessionNames, segments: seq<string>, i: nat)
    requires names.Proper()
    requires i <= |segments|
    ensures SeenAccess(names, segments, i) <==> Lookup(Trimmed(segments[..i]), names.access).Some?
  {
    if i == 0 {
    } else {
      SeenIsLookup(names, segments, i - 1);
      RewriteStep(names, segments, i - 1, None);
    }
  }

  lemma DroppedIsNotAccess(names: SessionNames, segment: string, newAccess: Option<string>)
    requires names.Proper()
    ensures Piece(names, segment, newAccess).None? ==> CookieValue(segment, names.access).None?
  {
    if segment != "" {
      KeptOne(names, segment, newAccess);
    }
  }

  lemma {:induction false} OutputIsRewritten(names: SessionNames, raw: string, newAccess: Option<string>)
    requires names.Proper()
    ensures var segments := Split(raw, ';');
            var out := Output(names, segments, |segments|, newAccess);
            Rewritten(names, raw, newAccess) ==
            if newAccess.Some? && !SeenAccess(names, segments, |segments|)
            then Glue(out, Segment(names.access, newAccess.value)) else out
  {
    var segments := Split(raw, ';');
    var kept := Kept(names, CookiesOf(raw), newAccess);
    assert segments[..|segments|] == segments;
    OutputIsKept(names, segments, |segments|, newAccess);
    SeenIsLookup(names, segments, |segments|);
    TrimmedNonEmpty(segments);
    KeptNonEmpty(names, CookiesOf(raw), newAccess);
    if newAccess.Some? && Lookup(CookiesOf(raw), names.access).None? {
      JoinSnoc(kept, Segment(names.access, newAccess.value));
    } else {
      assert kept + [] == kept;
    }
  }

  method RewriteSegments(names: SessionNames, segments: seq<string>, newAccess: Option<string>)
    returns (out: string, replaced: bool)
    requires names.Proper()
    ensures out == Output(names, segments, |segments|, newAccess)
    ensures replaced <==> newAccess.Some? && SeenAccess(names, segments, |segments|)
  {
    out, replaced := "", false;
    var i := 0;
    while i < |segments|
      invariant 0 <= i <= |segments|
      invariant out == Output(names, segments, i, newAccess)
      invariant replaced <==> newAccess.Some? && SeenAccess(names, segments, i)
    {
      var segment := TrimStart(segments[i]);
      DroppedIsNotAccess(names, segment, newAccess);
      i := i + 1;
      if segment == "" || CookieValue(segment, names.refresh).Some? {
        continue;
      }
      if newAccess.Some? && CookieValue(segment, names.access).Some? {
        out := Glue(out, Segment(names.access, newAccess.value));
        replaced := true;
      } else {
        out := Glue(out, segment);
      }
    }
  }

  /** The single pass over the segments builds exactly the rewritten header. */
  method RewriteProtectedCookies(names: SessionNames, raw: string, newAccess: Option<string>) returns (out: string)
    requires names.Proper()
    ensures out == Rewritten(names, raw, newAccess)
  {
    var replaced;
    out, replaced := RewriteSegments(names, Split(raw, ';'), newAccess);
    OutputIsRewritten(names, raw, newAccess);
    if newAccess.Some? && !replaced {
      out := Glue(out, Segment(names.access, newAccess.value));
    }
  }

  // ---- Reading back a rendered header ----

  /** A segment that survives rendering: non-empty, no separator, no leading white space. */
  ghost predicate Clean(cookie: string)
  {
    cookie != "" && ';' !in cookie && !IsWhitespace(cookie[0])
  }

  ghost predicate AllClean(cookies: seq<string>)
  {
    forall i | 0 <= i < |cookies| :: Clean(cookies[i])
  }

  lemma {:induction false} TrimStartKeepsFree(s: string, c: char)
    requires c !in s
    ensures c !in TrimStart(s)
  {
    if s == "" || !IsWhitespace(s[0]) {
    } else {
      TrimStartKeepsFree(s[1..], c);
    }
  }

  lemma {:induction false} TrimmedIsClean(segments: seq<string>)
    requires forall i | 0 <= i < |segments| :: ';' !in segments[i]
    ensures AllClean(Trimmed(segments))
  {
    if segments == [] {
    } else {
      TrimStartKeepsFree(segments[0], ';');
      TrimmedIsClean(segments[1..]);
    }
  }

  lemma CookiesOfAreClean(header: string)
    ensures AllClean(CookiesOf(header))
  {
    SplitPiecesAreFree(header, ';');
    TrimmedIsClean(Split(header, ';'));
  }

  lemma CookiesOfClean(cookie: string)
    requires Clean(cookie)
    ensures CookiesOf(cookie) == [cookie]
  {
    SplitOfFree(cookie, ';');
    assert TrimStart(cookie) == cookie;
    assert Trimmed([cookie][1..]) == [];
  }

  lemma CookiesOfSeparated(a: string, b: string)
    ensures CookiesOf(a + "; " + b) == CookiesOf(a) + CookiesOf(b)
  {
    assert a + "; " + b == a + [';'] + (" " + b);
    SplitOfConcat(a, " " + b, ';');
    TrimmedConcat(Split(a, ';'), Split(" " + b, ';'));
    SpaceIsTrimmed(b);
  }

  lemma AllCleanTail(cookies: seq<string>)
    requires AllClean(cookies) && cookies != []
    ensures Clean(cookies[0]) && AllClean(cookies[1..])
  {
  }

  /** Parsing the printed cookies gives the cookies back. */
  lemma {:induction false} CookiesOfJoin(cookies: seq<string>)
    requires AllClean(cookies)
    ensures CookiesOf(Join(cookies, "; ")) == cookies
  {
    if cookies == [] {
      EmptyHeader();
    } else {
      AllCleanTail(cookies);
      var head, tail := cookies[0], cookies[1..];
      assert cookies == [head] + tail;
      CookiesOfClean(head);
      if tail != [] {
        CookiesOfJoin(tail);
        CookiesOfSeparated(head, Join(tail, "; "));
        assert Join(cookies, "; ") == head + "; " + Join(tail, "; ");
      }
    }
  }

  lemma EmptyHeader()
    ensures CookiesOf("") == []
  {
    assert TrimStart("") == "";
    assert Trimmed([""][1..]) == [];
  }

  lemma SpaceIsTrimmed(s: string)
    ensures CookiesOf(" " + s) == CookiesOf(s)
  {
    var rest := Split(s, ';');
    assert (" " + s)[1..] == s;
    assert Split(" " + s, ';') == [" " + rest[0]] + rest[1..];
    assert (" " + rest[0])[1..] == rest[0];
    assert TrimStart(" " + rest[0]) == TrimStart(rest[0]);
  }

  lemma {:induction false} FindIsLookup(segments: seq<string>, name: string)
    ensures FindValue(segments, name) == Lookup(Trimmed(segments), name)
  {
    if segments == [] {
    } else {
      FindIsLookup(segments[1..], name);
      var head := TrimStart(segments[0]);
      if head == "" {
        assert CookieValue(head, name).None?;
        assert Trimmed(segments) == Trimmed(segments[1..]);
      } else {
        assert Trimmed(segments)[1..] == Trimmed(segments[1..]);
      }
    }
  }

  lemma {:induction false} ExtractIsLookup(header: string, name: string)
    ensures ExtractFromHeader(header, name) == Lookup(CookiesOf(header), name)
  {
    FindIsLookup(Split(header, ';'), name);
  }

  predicate AllBlank(gap: string)
  {
    forall i | 0 <= i < |gap| :: IsWhitespace(gap[i])
  }

  /** The segment is `name=value` behind white space. */
  ghost predicate Carries(segment: string, name: string, value: string)
  {
    exists gap: string :: AllBlank(gap) && segment == gap + Segment(name, value)
  }

  lemma {:induction false} TrimStartIs(gap: string, text: string)
    requires AllBlank(gap)
    requires text != "" && !IsWhitespace(text[0])
    ensures TrimStart(gap + text) == text
    decreases |gap|
  {
    if gap == "" {
      assert gap + text == text;
    } else {
      assert (gap + text)[1..] == gap[1..] + text;
      TrimStartIs(gap[1..], text);
    }
  }

  lemma {:induction false} TrimStartLeaves(s: string)
    ensures exists gap: string :: AllBlank(gap) && s == gap + TrimStart(s)
  {
    if s != "" && IsWhitespace(s[0]) {
      TrimStartLeaves(s[1..]);
      var gap: string :| AllBlank(gap) && s[1..] == gap + TrimStart(s);
      assert s == ([s[0]] + gap) + TrimStart(s);
    } else {
      assert s == "" + TrimStart(s);
    }
  }

  lemma ValueOfSegment(name: string, value: string)
    ensures CookieValue(Segment(name, value), name) == Some(value)
  {
    assert name + "=" <= Segment(name, value);
    assert Segment(name, value)[|name| + 1..] == value;
  }

  lemma {:induction false} CarriedIsTrimmed(segment: string, name: string, value: string)
    requires name != "" && !IsWhitespace(name[0])
    ensures Carries(segment, name, value) <==> CookieValue(TrimStart(segment), name) == Some(value)
  {
    if gap: string :| AllBlank(gap) && segment == gap + Segment(name, value) {
      TrimStartIs(gap, Segment(name, value));
      ValueOfSegment(name, value);
    }
    TrimStartLeaves(segment);
  }

  /** Whether `text` is what is read from a value: without one pair of surrounding quotes, if it has one. */
  ghost predicate ReadAs(value: string, text: string)
  {
    if exists inner: string :: value == ['"'] + inner + ['"'] then value == ['"'] + text + ['"'] else text == value
  }

  lemma StripQuotesIs(value: string)
    ensures ReadAs(value, StripQuotes(value))
  {
    if QuoteWrapped(value) {
      assert value == ['"'] + StripQuotes(value) + ['"'];
    }
  }

  /** No segment before `i` carries the name. */
  ghost predicate NoneBefore(segments: seq<string>, name: string, i: nat)
    requires i <= |segments|
  {
    forall j, value | 0 <= j < i :: !Carries(segments[j], name, value)
  }

  ghost predicate FirstCarrier(segments: seq<string>, name: string, i: nat, value: string)
  {
    i < |segments| && NoneBefore(segments, name, i) && Carries(segments[i], name, value)
  }

  lemma NoneBeforeTail(segments: seq<string>, name: string, i: nat)
    requires 0 < i <= |segments| && NoneBefore(segments, name, i)
    ensures NoneBefore(segments[1..], name, i - 1)
  {
    forall j, value | 0 <= j < i - 1 ensures !Carries(segments[1..][j], name, value) {
      assert segments[1..][j] == segments[j + 1];
    }
  }

  lemma {:induction false} FirstCarrierIsFound(segments: seq<string>, name: string, i: nat, value: string)
    requires name != "" && !IsWhitespace(name[0])
    requires FirstCarrier(segments, name, i, value)
    ensures FindValue(segments, name) == Some(StripQuotes(value))
    decreases i
  {
    if i == 0 {
      CarriedIsTrimmed(segments[0], name, value);
    } else {
      NotCarried(segments[0], name);
      NoneBeforeTail(segments, name, i);
      FirstCarrierIsFound(segments[1..], name, i - 1, value);
    }
  }

  lemma {:induction false} NotCarried(segment: string, name: string)
    requires name != "" && !IsWhitespace(name[0])
    requires forall value :: !Carries(segment, name, value)
    ensures CookieValue(TrimStart(segment), name).None?
  {
    if CookieValue(TrimStart(segment), name).Some? {
      CarriedIsTrimmed(segment, name, CookieValue(TrimStart(segment), name).value);
    }
  }

  lemma {:induction false} NoCarrierIsNone(segments: seq<string>, name: string)
    requires name != "" && !IsWhitespace(name[0]) && NoneBefore(segments, name, |segments|)
    ensures FindValue(segments, name).None?
  {
    if segments == [] {
    } else {
      NotCarried(segments[0], name);
      NoneBeforeTail(segments, name, |segments|);
      NoCarrierIsNone(segments[1..], name);
    }
  }

  /** What is read from a header: the value of its first segment for the name, unquoted; nothing without one. */
  lemma {:induction false} ExtractedIs(header: string, name: string)
    requires name != "" && !IsWhitespace(name[0])
    ensures var segments, found := Split(header, ';'), ExtractFromHeader(header, name);
            && (NoneBefore(segments, name, |segments|) ==> found.None?)
            && forall i: nat, value | FirstCarrier(segments, name, i, value) ::
                 found.Some? && ReadAs(value, found.value)
  {
    var segments := Split(header, ';');
    if NoneBefore(segments, name, |segments|) {
      NoCarrierIsNone(segments, name);
    }
    forall i: nat, value | FirstCarrier(segments, name, i, value)
      ensures var found := ExtractFromHeader(header, name); found.Some? && ReadAs(value, found.value)
    {
      FirstCarrierIsFound(segments, name, i, value);
      StripQuotesIs(value);
    }
  }

  /** A segment belongs to one `=`-free name only. */
  lemma NamesExclude(segment: string, a: string, b: string)
    requires '=' !in a && '=' !in b && a != b
    requires CookieValue(segment, a).Some?
    ensures CookieValue(segment, b).None?
  {
    if |a| < |b| {
      assert segment[|a|] == '=';
    } else if |b| < |a| {
      assert segment[|b|] == a[|b|];
    } else {
      assert segment[..|a|] == a;
    }
  }

  lemma {:induction false} LookupConcat(a: seq<string>, b: seq<string>, name: string)
    ensures Lookup(a + b, name) == if Lookup(a, name).Some? then Lookup(a, name) else Lookup(b, name)
  {
    if a == [] {
      assert a + b == b;
    } else {
      assert (a + b)[1..] == a[1..] + b;
      LookupConcat(a[1..], b, name);
    }
  }

  lemma KeyedSegment(name: string, value: string)
    requires '=' !in name
    ensures CookieValue(Segment(name, value), name) == Some(value)
  {
    assert name + "=" <= Segment(name, value);
  }

  lemma {:induction false} LookupKept(names: SessionNames, cookies: seq<string>, newAccess: Option<string>,
                                      name: string)
    requires names.Proper()
    requires '=' !in name
    ensures name == names.refresh ==> Lookup(Kept(names, cookies, newAccess), name).None?
    ensures name == names.access && newAccess.Some? ==>
              Lookup(Kept(names, cookies, newAccess), name) ==
              if Lookup(cookies, name).Some? then Some(StripQuotes(newAccess.value)) else None
    ensures name != names.refresh && (name != names.access || newAccess.None?) ==>
              Lookup(Kept(names, cookies, newAccess), name) == Lookup(cookies, name)
  {
    if cookies == [] {
    } else {
      var head := cookies[0];
      LookupKept(names, cookies[1..], newAccess, name);
      assert cookies == [head] + cookies[1..];
      if CookieValue(head, names.refresh).Some? {
        if name != names.refresh {
          NamesExclude(head, names.refresh, name);
        }
      } else if newAccess.Some? && CookieValue(head, names.access).Some? {
        var renewed := Segment(names.access, newAccess.value);
        KeyedSegment(names.access, newAccess.value);
        if name != names.access {
          NamesExclude(head, names.access, name);
          NamesExclude(renewed, names.access, name);
        }
        assert Kept(names, cookies, newAccess)[1..] == Kept(names, cookies[1..], newAccess);
      } else {
        assert Kept(names, cookies, newAccess)[1..] == Kept(names, cookies[1..], newAccess);
      }
    }
  }

  lemma {:induction false} LookupForwarded(names: SessionNames, cookies: seq<string>, newAccess: Option<string>,
                                           name: string)
    requires names.Proper()
    requires '=' !in name
    ensures name == names.refresh ==> Lookup(Forwarded(names, cookies, newAccess), name).None?
    ensures name == names.access && newAccess.Some? ==>
              Lookup(Forwarded(names, cookies, newAccess), name) == Some(StripQuotes(newAccess.value))
    ensures name != names.refresh && (name != names.access || newAccess.None?) ==>
              Lookup(Forwarded(names, cookies, newAccess), name) == Lookup(cookies, name)
  {
    LookupKept(names, cookies, newAccess, name);
    var added := if newAccess.Some? && Lookup(cookies, names.access).None?
                 then [Segment(names.access, newAccess.value)] else [];
    LookupConcat(Kept(names, cookies, newAccess), added, name);
    if added != [] {
      LookupRendered(names.access, newAccess.value, name);
    }
  }

  lemma {:induction false} LookupRendered(name: string, value: string, other: string)
    requires '=' !in name && '=' !in other
    ensures Lookup([Segment(name, value)], other) == if other == name then Some(StripQuotes(value)) else None
  {
    var segment := Segment(name, value);
    KeyedSegment(name, value);
    if other != name {
      NamesExclude(segment, name, other);
      assert Lookup([segment][1..], other) == None;
    }
  }

  lemma RenderedIsClean(name: string, value: string)
    requires ProperName(name) && ';' !in value
    ensures Clean(Segment(name, value))
  {
  }

  lemma {:induction false} KeptIsClean(names: SessionNames, cookies: seq<string>, newAccess: Option<string>)
    requires names.Proper()
    requires AllClean(cookies)
    requires newAccess.Some? ==> ';' !in newAccess.value
    ensures AllClean(Kept(names, cookies, newAccess))
  {
    if cookies == [] {
    } else {
      KeptIsClean(names, cookies[1..], newAccess);
      if newAccess.Some? {
        RenderedIsClean(names.access, newAccess.value);
      }
    }
  }

  lemma ForwardedIsClean(names: SessionNames, cookies: seq<string>, newAccess: Option<string>)
    requires names.Proper()
    requires AllClean(cookies)
    requires newAccess.Some? ==> ';' !in newAccess.value
    ensures AllClean(Forwarded(names, cookies, newAccess))
  {
    KeptIsClean(names, cookies, newAccess);
    if newAccess.Some? {
      RenderedIsClean(names.access, newAccess.value);
    }
  }

  /** The rewritten header parses to exactly the forwarded cookies. */
  lemma CookiesOfRewritten(names: SessionNames, raw: string, newAccess: Option<string>)
    requires names.Proper()
    requires newAccess.Some? ==> ';' !in newAccess.value
    ensures CookiesOf(Rewritten(names, raw, newAccess)) == Forwarded(names, CookiesOf(raw), newAccess)
  {
    var cookies := CookiesOf(raw);
    CookiesOfAreClean(raw);
    ForwardedIsClean(names, cookies, newAccess);
    CookiesOfJoin(Forwarded(names, cookies, newAccess));
  }

  /**
   Whatever the browser sent, the upstream can no longer read the refresh token, reads the new
   access token (after quote stripping), and reads every other cookie as before.
   */
  lemma RewriteHidesRefreshAndSetsAccess(names: SessionNames, raw: string, newAccess: Option<string>, name: string)
    requires names.Proper()
    requires newAccess.Some? ==> ';' !in newAccess.value
    requires '=' !in name
    ensures name == names.refresh ==> ExtractFromHeader(Rewritten(names, raw, newAccess), name).None?
    ensures name == names.access && newAccess.Some? ==>
              ExtractFromHeader(Rewritten(names, raw, newAccess), name) == Some(StripQuotes(newAccess.value))
    ensures name != names.refresh && (name != names.access || newAccess.None?) ==>
              ExtractFromHeader(Rewritten(names, raw, newAccess), name) == ExtractFromHeader(raw, name)
  {
    CookiesOfRewritten(names, raw, newAccess);
    ExtractIsLookup(raw, name);
    ExtractIsLookup(Rewritten(names, raw, newAccess), name);
    LookupForwarded(names, CookiesOf(raw), newAccess, name);
  }

  lemma {:induction false} LookedUpIsFree(cookies: seq<string>, name: string)
    requires AllClean(cookies) && Lookup(cookies, name).Some?
    ensures ';' !in Lookup(cookies, name).value
  {
    if CookieValue(cookies[0], name).None? {
      LookedUpIsFree(cookies[1..], name);
    } else {
      assert Clean(cookies[0]);
    }
  }

  /** The new access token is read back as given exactly when it has no `;` and is not itself wrapped in quotes. */
  lemma AccessRoundTrip(names: SessionNames, raw: string, access: string)
    requires names.Proper()
    ensures ExtractFromHeader(Rewritten(names, raw, Some(access)), names.access) == Some(access) <==>
            ';' !in access && !QuoteWrapped(access)
  {
    var header := Rewritten(names, raw, Some(access));
    if ';' in access {
      ExtractIsLookup(header, names.access);
      CookiesOfAreClean(header);
      if Lookup(CookiesOf(header), names.access).Some? {
        LookedUpIsFree(CookiesOf(header), names.access);
      }
    } else {
      RewriteHidesRefreshAndSetsAccess(names, raw, Some(access), names.access);
      if QuoteWrapped(access) {
        assert |StripQuotes(access)| < |access|;
      }
    }
  }

  lemma {:induction false} KeptIsFixed(names: SessionNames, cookies: seq<string>, newAccess: Option<string>)
    requires names.Proper()
    ensures Kept(names, Kept(names, cookies, newAccess), newAccess) == Kept(names, cookies, newAccess)
    ensures newAccess.Some? ==>
              (Lookup(Kept(names, cookies, newAccess), names.access).Some? <==> Lookup(cookies, names.access).Some?)
  {
    if cookies == [] {
    } else {
      var head := cookies[0];
      KeptIsFixed(names, cookies[1..], newAccess);
      assert cookies == [head] + cookies[1..];
      var rest := Kept(names, cookies[1..], newAccess);
      if CookieValue(head, names.refresh).Some? {
        NamesExclude(head, names.refresh, names.access);
      } else if newAccess.Some? && CookieValue(head, names.access).Some? {
        var renewed := Segment(names.access, newAccess.value);
        KeyedSegment(names.access, newAccess.value);
        NamesExclude(renewed, names.access, names.refresh);
        assert ([renewed] + rest)[1..] == rest;
      } else {
        assert ([head] + rest)[1..] == rest;
      }
    }
  }

  lemma {:induction false} KeptRendered(names: SessionNames, access: string)
    requires names.Proper()
    ensures Kept(names, [Segment(names.access, access)], Some(access)) == [Segment(names.access, access)]
  {
    var segment := Segment(names.access, access);
    KeyedSegment(names.access, access);
    NamesExclude(segment, names.access, names.refresh);
    assert Kept(names, [segment][1..], Some(access)) == [];
  }

  lemma ForwardedIsFixed(names: SessionNames, cookies: seq<string>, newAccess: Option<string>)
    requires names.Proper()
    ensures Forwarded(names, Forwarded(names, cookies, newAccess), newAccess) == Forwarded(names, cookies, newAccess)
  {
    KeptIsFixed(names, cookies, newAccess);
    var kept := Kept(names, cookies, newAccess);
    if newAccess.None? || Lookup(cookies, names.access).Some? {
      assert kept + [] == kept;
    } else {
      var added := [Segment(names.access, newAccess.value)];
      KeptRendered(names, newAccess.value);
      KeptConcat(names, kept, added, newAccess);
      LookupRendered(names.access, newAccess.value, names.access);
      LookupConcat(kept, added, names.access);
      assert Forwarded(names, cookies, newAccess) == kept + added;
    }
  }

  /** Rewriting an already rewritten header changes nothing. */
  lemma RewriteIsIdempotent(names: SessionNames, raw: string, newAccess: Option<string>)
    requires names.Proper()
    requires newAccess.Some? ==> ';' !in newAccess.value
    ensures Rewritten(names, Rewritten(names, raw, newAccess), newAccess) == Rewritten(names, raw, newAccess)
  {
    CookiesOfRewritten(names, raw, newAccess);
    ForwardedIsFixed(names, CookiesOf(raw), newAccess);
  }

  // ---- Several Cookie header fields ----

  /** `collapse_cookie_header`: the readable header fields in one string, or nothing. */
  method CollapseCookieHeader(fields: seq<string>) returns (header: Option<string>)
    ensures header == Collapsed(fields)
  {
    var result := "";
    var i := 0;
    while i < |fields|
      invariant 0 <= i <= |fields|
      invariant result == Accumulated(fields[..i])
    {
      assert fields[..i + 1][..i] == fields[..i];
      if result != "" {
        result := result + "; ";
      }
      result := result + fields[i];
      i := i + 1;
    }
    assert fields[..i] == fields;
    header := if result == "" then None else Some(result);
  }

  function Accumulated(fields: seq<string>): string
  {
    if fields == [] then "" else Glue(Accumulated(fields[..|fields| - 1]), fields[|fields| - 1])
  }

  function Collapsed(fields: seq<string>): Option<string>
  {
    if Accumulated(fields) == "" then None else Some(Accumulated(fields))
  }

  function FirstValue(fields: seq<string>, name: string): Option<string>
  {
    if fields == [] then None
    else if FirstValue(fields[..|fields| - 1], name).Some? then FirstValue(fields[..|fields| - 1], name)
    else ExtractFromHeader(fields[|fields| - 1], name)
  }

  /** Collapsing loses no cookie: the first field that has the name decides. */
  lemma {:induction false} CollapseKeepsCookies(fields: seq<string>, name: string)
    ensures FirstValue(fields, name) == ExtractFromHeader(Accumulated(fields), name)
  {
    if fields == [] {
      EmptyHeader();
      ExtractIsLookup("", name);
    } else {
      var front, last := fields[..|fields| - 1], fields[|fields| - 1];
      var left := Accumulated(front);
      CollapseKeepsCookies(front, name);
      ExtractIsLookup(left, name);
      ExtractIsLookup(last, name);
      if left == "" {
        EmptyHeader();
      } else {
        ExtractIsLookup(left + "; " + last, name);
        CookiesOfSeparated(left, last);
        LookupConcat(CookiesOf(left), CookiesOf(last), name);
      }
    }
  }

  /** There is no collapsed header exactly when every field is empty, and reading it is reading the fields. */
  lemma {:induction false} CollapsedReadsFields(fields: seq<string>, name: string)
    ensures Collapsed(fields).None? <==> forall i | 0 <= i < |fields| :: fields[i] == ""
    ensures FirstValue(fields, name) ==
            if Collapsed(fields).None? then None else ExtractFromHeader(Collapsed(fields).value, name)
  {
    if fields == [] {
    } else {
      CollapsedReadsFields(fields[..|fields| - 1], name);
    }
    CollapseKeepsCookies(fields, name);
    if Collapsed(fields).None? {
      ExtractIsLookup("", name);
      EmptyHeader();
    }
  }
}
