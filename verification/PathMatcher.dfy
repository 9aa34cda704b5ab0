/**
 Screening of request paths before any routing decision, and their classification
 (apps/gateway/src/path_matcher.rs). A byte is modelled as the character of the same code.
 */
module PathMatcher {
  import opened Wrappers
  import opened Strings

  // ---- Percent decoding ----

  function HexVal(c: char): (v: Option<nat>)
    ensures v.Some? ==> v.value < 16
  {
    if '0' <= c <= '9' then Some((c - '0') as nat)
    else if 'a' <= c <= 'f' then Some((c - 'a') as nat + 10)
    else if 'A' <= c <= 'F' then Some((c - 'A') as nat + 10)
    else None
  }

  /** Whether a well-formed `%XX` escape starts at the head of `s`. */
  predicate IsEscape(s: string)
  {
    |s| >= 3 && s[0] == '%' && HexVal(s[1]).Some? && HexVal(s[2]).Some?
  }

  function EscapedByte(s: string): char
    requires IsEscape(s)
  {
    (HexVal(s[1]).value * 16 + HexVal(s[2]).value) as char
  }

  /** Escapes replaced by their byte, everything else kept. */
  function Decoded(s: string): string
  {
    if s == "" then ""
    else if IsEscape(s) then [EscapedByte(s)] + Decoded(s[3..])
    else [s[0]] + Decoded(s[1..])
  }

  lemma DecodeStep(path: string, index: nat)
    requires index < |path|
    ensures var rest := path[index..];
            Decoded(rest) ==
            if IsEscape(rest) then [EscapedByte(rest)] + Decoded(path[index + 3..])
            else [path[index]] + Decoded(path[index + 1..])
  {
    var rest := path[index..];
    assert IsEscape(rest) ==> rest[3..] == path[index + 3..];
    assert rest[1..] == path[index + 1..];
  }

  lemma Regroup(a: string, b: string, c: string)
    ensures a + (b + c) == a + b + c
  {
  }

  const LOWER_DIGITS := "0123456789abcdef"
  const UPPER_DIGITS := "0123456789ABCDEF"

  lemma HexValIs(c: char, v: nat)
    requires v < 16
    ensures HexVal(c) == Some(v) <==> c == LOWER_DIGITS[v] || c == UPPER_DIGITS[v]
  {
    if v < 10 {
      assert LOWER_DIGITS[v] == '0' + v as char && UPPER_DIGITS[v] == '0' + v as char;
    } else {
      assert LOWER_DIGITS[v] == 'a' + (v - 10) as char && UPPER_DIGITS[v] == 'A' + (v - 10) as char;
    }
  }

  /** Every escape, in either case, stands for its byte. */
  lemma {:induction false} EscapeIsByte(hi: nat, lo: nat, a: char, b: char, rest: string)
    requires hi < 16 && lo < 16
    requires a == LOWER_DIGITS[hi] || a == UPPER_DIGITS[hi]
    requires b == LOWER_DIGITS[lo] || b == UPPER_DIGITS[lo]
    ensures Decoded(['%', a, b] + rest) == [(16 * hi + lo) as char] + Decoded(rest)
  {
    HexValIs(a, hi);
    HexValIs(b, lo);
    assert (['%', a, b] + rest)[3..] == rest;
  }

  ghost predicate IsHexDigit(c: char)
  {
    exists v: nat :: v < 16 && (c == LOWER_DIGITS[v] || c == UPPER_DIGITS[v])
  }

  lemma HexDigits(c: char)
    ensures HexVal(c).Some? <==> IsHexDigit(c)
  {
    if HexVal(c).Some? {
      HexValIs(c, HexVal(c).value);
    }
    if v: nat :| v < 16 && (c == LOWER_DIGITS[v] || c == UPPER_DIGITS[v]) {
      HexValIs(c, v);
    }
  }

  /** Anything else stands for itself. */
  lemma {:induction false} OthersAreKept(c: char, rest: string)
    requires c != '%' || |rest| < 2 || !IsHexDigit(rest[0]) || !IsHexDigit(rest[1])
    ensures Decoded([c] + rest) == [c] + Decoded(rest)
  {
    var s := [c] + rest;
    if |rest| >= 2 {
      HexDigits(rest[0]);
      HexDigits(rest[1]);
      assert s[1] == rest[0] && s[2] == rest[1];
    }
    assert s[1..] == rest;
  }

  method PercentDecode(path: string) returns (decoded: string)
    ensures decoded == Decoded(path)
  {
    decoded := "";
    var index := 0;
    assert path[0..] == path;
    while index < |path|
      invariant 0 <= index <= |path|
      invariant decoded + Decoded(path[index..]) == Decoded(path)
    {
      DecodeStep(path, index);
      if path[index] == '%' && index + 2 < |path| {
        var high, low := HexVal(path[index + 1]), HexVal(path[index + 2]);
        if high.Some? && low.Some? {
          var byte := [(high.value * 16 + low.value) as char];
          Regroup(decoded, byte, Decoded(path[index + 3..]));
          decoded := decoded + byte;
          index := index + 3;
          continue;
        }
      }
      Regroup(decoded, [path[index]], Decoded(path[index + 1..]));
      decoded := decoded + [path[index]];
      index := index + 1;
    }
  }

  // ---- Dot segments ----

  predicate IsSeparator(c: char)
  {
    c == '/' || c == '\\'
  }

  /** `split` on slash or backslash. */
  function Segments(s: string): (segments: seq<string>)
    ensures |segments| >= 1
  {
    if s == "" then [""]
    else
      var rest := Segments(s[1..]);
      if IsSeparator(s[0]) then [""] + rest else [[s[0]] + rest[0]] + rest[1..]
  }

  predicate AnyDot(segments: seq<string>)
  {
    exists i | 0 <= i < |segments| :: segments[i] == "." || segments[i] == ".."
  }

  predicate NeedsDecoding(path: string)
  {
    exists i | 0 <= i < |path| :: path[i] == '.' || path[i] == '%' || path[i] == '\\'
  }

  /** The full check, without the fast path. */
  predicate FullCheck(path: string)
  {
    AnyDot(Segments(Decoded(path)))
  }

  /** Paths free of `.`, `%` and `\` are answered without decoding. */
  method HasDotSegments(path: string) returns (found: bool)
    ensures found <==> FullCheck(path)
  {
    if !NeedsDecoding(path) {
      FastPathAgrees(path);
      return false;
    }
    var decoded := PercentDecode(path);
    found := AnyDot(Segments(decoded));
  }

  lemma {:induction false} DecodedOfPlain(s: string)
    requires '%' !in s
    ensures Decoded(s) == s
  {
    if s == "" {
    } else {
      DecodedOfPlain(s[1..]);
      assert s == [s[0]] + s[1..];
    }
  }

  lemma {:induction false} SegmentsWithoutDot(s: string)
    requires '.' !in s
    ensures forall i | 0 <= i < |Segments(s)| :: '.' !in Segments(s)[i]
  {
    if s == "" {
    } else {
      SegmentsWithoutDot(s[1..]);
    }
  }

  /** The fast path gives the answer of the full check. */
  lemma FastPathAgrees(path: string)
    requires !NeedsDecoding(path)
    ensures !FullCheck(path)
  {
    DecodedOfPlain(path);
    SegmentsWithoutDot(path);
    assert "."[0] == '.' && ".."[0] == '.';
  }

  // ---- What an upstream does: section 5.2.4 of RFC 3986 ----

  /** Backslashes read as slashes. */
  function Slashed(s: string): string
  {
    if s == "" then "" else [if s[0] == '\\' then '/' else s[0]] + Slashed(s[1..])
  }

  /** The length of the first segment, with its leading slash if it has one. */
  function FirstSegment(input: string): (n: nat)
    requires input != ""
    ensures 1 <= n <= |input|
    ensures n < |input| ==> input[n] == '/'
    ensures forall i | 1 <= i < n :: input[i] != '/'
  {
    1 + UntilSlash(input[1..])
  }

  function UntilSlash(s: string): (n: nat)
    ensures n <= |s|
    ensures n < |s| ==> s[n] == '/'
    ensures forall i | 0 <= i < n :: s[i] != '/'
  {
    if s == "" || s[0] == '/' then 0 else 1 + UntilSlash(s[1..])
  }

  /** The output buffer without its last segment and the slash before it. */
  function DropLast(output: string): (shorter: string)
    ensures |shorter| <= |output|
  {
    if output == "" then ""
    else if output[|output| - 1] == '/' then output[..|output| - 1]
    else DropLast(output[..|output| - 1])
  }

  /** Which step of section 5.2.4 applies to a non-empty input buffer. */
  datatype Rule = Prefix(n: nat) | SlashDot(n: nat) | SlashDotDot(n: nat) | OnlyDots | Copy

  predicate DotAt(s: string, i: nat)
  {
    i < |s| && s[i] == '.'
  }

  /** A segment ends at position `i`: the string ends there or a slash follows. */
  predicate EndsAt(s: string, i: nat)
  {
    i == |s| || (i < |s| && s[i] == '/')
  }

  function RuleFor(input: string): Rule
    requires input != ""
  {
    if input[0] == '/' then
      if DotAt(input, 1) && EndsAt(input, 2) then SlashDot(2)
      else if DotAt(input, 1) && DotAt(input, 2) && EndsAt(input, 3) then SlashDotDot(3)
      else Copy
    else if DotAt(input, 0) && DotAt(input, 1) && EndsAt(input, 2) then
      if |input| == 2 then OnlyDots else Prefix(3)
    else if DotAt(input, 0) && EndsAt(input, 1) then
      if |input| == 1 then OnlyDots else Prefix(2)
    else Copy
  }

  /** What is left after `/.` or `/..`: the following slash, or one written at the end. */
  function AfterDots(input: string, n: nat): string
    requires n <= |input|
  {
    if n == |input| then "/" else input[n..]
  }

  /** The loop of section 5.2.4: `input` is the input buffer, `output` the output buffer. */
  function RemoveDotSegments(input: string, output: string): string
    decreases |input|
  {
    if input == "" then output
    else
      match RuleFor(input)
      case Prefix(n) => RemoveDotSegments(input[n..], output)
      case SlashDot(n) => RemoveDotSegments(AfterDots(input, n), output)
      case SlashDotDot(n) => RemoveDotSegments(AfterDots(input, n), DropLast(output))
      case OnlyDots => output
      case Copy => RemoveDotSegments(input[FirstSegment(input)..], output + input[..FirstSegment(input)])
  }

  /** The path an upstream that decodes and normalises will route on. */
  function Normalised(path: string): string
  {
    RemoveDotSegments(Slashed(Decoded(path)), "")
  }

  // ---- The screen accepts exactly the paths normalisation leaves alone ----

  lemma {:induction false} SegmentsAreSplit(s: string)
    ensures Segments(s) == Split(Slashed(s), '/')
  {
    if s == "" {
    } else {
      SegmentsAreSplit(s[1..]);
      assert Slashed(s)[1..] == Slashed(s[1..]);
    }
  }

  predicate IsDot(segment: string)
  {
    segment == "." || segment == ".."
  }

  predicate HasDots(s: string)
  {
    AnyDot(Split(s, '/'))
  }

  lemma {:induction false} SplitAtSlash(s: string, n: nat)
    requires n <= |s| && (forall i | 0 <= i < n :: s[i] != '/')
    requires n < |s| ==> s[n] == '/'
    ensures Split(s, '/') == [s[..n]] + if n < |s| then Split(s[n + 1..], '/') else []
  {
    SplitOfFree(s[..n], '/');
    if n < |s| {
      assert s == s[..n] + ['/'] + s[n + 1..];
      SplitOfConcat(s[..n], s[n + 1..], '/');
    } else {
      assert s[..n] == s;
    }
  }

  /** Dots of a string are those of its first segment and those of the rest. */
  lemma DotsOfFirst(s: string, n: nat)
    requires n <= |s| && (forall i | 0 <= i < n :: s[i] != '/')
    requires n < |s| ==> s[n] == '/'
    ensures HasDots(s) <==> IsDot(s[..n]) || (n < |s| && HasDots(s[n + 1..]))
  {
    SplitAtSlash(s, n);
    var segments := Split(s, '/');
    assert segments[0] == s[..n];
    if n < |s| {
      assert segments[1..] == Split(s[n + 1..], '/');
      if HasDots(s[n + 1..]) {
        var i :| 0 <= i < |segments[1..]| && IsDot(segments[1..][i]);
        assert IsDot(segments[i + 1]);
      }
      if HasDots(s) {
        var i :| 0 <= i < |segments| && IsDot(segments[i]);
        assert i > 0 ==> segments[1..][i - 1] == segments[i];
      }
    }
  }

  /** The first segment of a non-empty input, without a leading slash. */
  function Body(input: string): string
    requires input != ""
  {
    if input[0] == '/' then input[1..] else input
  }

  lemma {:induction false} UntilSlashIs(s: string, n: nat)
    requires EndsAt(s, n) && forall i | 0 <= i < n :: s[i] != '/'
    ensures UntilSlash(s) == n
  {
    if n == 0 {
    } else {
      UntilSlashIs(s[1..], n - 1);
    }
  }

  /** A rule other than copying applies exactly when the first segment is a dot segment. */
  lemma RuleIsFirstDot(input: string)
    requires input != ""
    ensures RuleFor(input) == Copy <==> !IsDot(Body(input)[..UntilSlash(Body(input))])
  {
    var body := Body(input);
    var n := UntilSlash(body);
    if RuleFor(input) != Copy {
      if DotAt(body, 0) && EndsAt(body, 1) {
        UntilSlashIs(body, 1);
        assert body[..1] == ".";
      } else {
        UntilSlashIs(body, 2);
        assert body[..2] == "..";
      }
    } else if n == 1 {
      assert body[..n][0] == body[0];
    } else if n == 2 {
      assert body[..n][0] == body[0] && body[..n][1] == body[1];
    }
  }

  /** Dots of the input: in its first segment, or in what remains after it is copied. */
  lemma DotsAfterFirst(input: string)
    requires input != ""
    ensures var n := FirstSegment(input);
            RuleFor(input) == Copy ==> (HasDots(input) <==> n < |input| && HasDots(input[n..]))
  {
    RuleIsFirstDot(input);
    var body, n := Body(input), FirstSegment(input);
    var k := UntilSlash(body);
    DotsOfFirst(body, k);
    if input[0] == '/' {
      DotsOfFirst(input, 0);
      assert k == n - 1;
    } else {
      FirstIsUntil(input);
    }
    if n < |input| {
      DotsOfFirst(input[n..], 0);
      assert input[n..][1..] == body[k + 1..];
    }
  }

  lemma {:induction false} FirstIsUntil(input: string)
    requires input != "" && input[0] != '/'
    ensures FirstSegment(input) == UntilSlash(input)
  {
  }

  /** Normalisation never makes a path longer. */
  lemma {:induction false} RemoveNeverGrows(input: string, output: string)
    ensures |RemoveDotSegments(input, output)| <= |output| + |input|
    decreases |input|
  {
    if input == "" {
    } else {
      match RuleFor(input) {
        case Prefix(n) => RemoveNeverGrows(input[n..], output);
        case SlashDot(n) => RemoveNeverGrows(AfterDots(input, n), output);
        case SlashDotDot(n) => RemoveNeverGrows(AfterDots(input, n), DropLast(output));
        case OnlyDots =>
        case Copy =>
          var n := FirstSegment(input);
          RemoveNeverGrows(input[n..], output + input[..n]);
      }
    }
  }

  /** Every rule but copying takes something away. */
  lemma {:induction false} DotRuleShrinks(input: string, output: string)
    requires input != "" && RuleFor(input) != Copy
    ensures |RemoveDotSegments(input, output)| < |output| + |input|
  {
    match RuleFor(input) {
      case Prefix(n) => RemoveNeverGrows(input[n..], output);
      case SlashDot(n) => RemoveNeverGrows(AfterDots(input, n), output);
      case SlashDotDot(n) => RemoveNeverGrows(AfterDots(input, n), DropLast(output));
      case OnlyDots =>
    }
  }

  /** Without dot segments the loop only copies; with one it makes the path shorter. */
  lemma {:induction false} RemoveShrinksOnDots(input: string, output: string)
    ensures !HasDots(input) ==> RemoveDotSegments(input, output) == output + input
    ensures HasDots(input) ==> |RemoveDotSegments(input, output)| < |output| + |input|
    decreases |input|
  {
    if input == "" {
      NoDotsInNothing();
    } else if RuleFor(input) != Copy {
      DotRuleHasDots(input);
      DotRuleShrinks(input, output);
    } else {
      var n := FirstSegment(input);
      DotsAfterFirst(input);
      RemoveShrinksOnDots(input[n..], output + input[..n]);
      assert output + input[..n] + input[n..] == output + input;
      if n == |input| {
        assert input[n..] == "";
        NoDotsInNothing();
      }
    }
  }

  lemma NoDotsInNothing()
    ensures !HasDots("")
  {
    assert Split("", '/') == [""];
  }

  lemma DotRuleHasDots(input: string)
    requires input != "" && RuleFor(input) != Copy
    ensures HasDots(input)
  {
    RuleIsFirstDot(input);
    var body := Body(input);
    DotsOfFirst(body, UntilSlash(body));
    if input[0] == '/' {
      DotsOfFirst(input, 0);
    }
  }

  /**
   The screen rejects exactly the paths that normalisation would change: a path is accepted iff
   removing dot segments from its decoded, slash-only form is the identity.
   */
  lemma {:induction false} AcceptedIffNormalised(path: string)
    ensures FullCheck(path) <==> Normalised(path) != Slashed(Decoded(path))
  {
    var decoded := Slashed(Decoded(path));
    SegmentsAreSplit(Decoded(path));
    assert FullCheck(path) <==> HasDots(decoded);
    RemoveShrinksOnDots(decoded, "");
    assert "" + decoded == decoded;
  }

  // ---- Classification ----

  datatype PathClass = Protected | Static | Public | Microservice

  predicate IsMicroserviceRoute(path: string)
  {
    "/api/v1/" <= path && !("/api/v1/auth/" <= path)
  }

  function LowerByte(c: char): char
  {
    if 'A' <= c <= 'Z' then c - 'A' + 'a' else c
  }

  function LowerBytes(s: string): string
  {
    seq(|s|, i requires 0 <= i < |s| => LowerByte(s[i]))
  }

  const STATIC_EXTENSIONS: seq<string> :=
    ["js", "css", "ico", "png", "jpg", "gif", "svg", "ttf", "txt", "json", "jpeg", "woff", "woff2"]

  predicate StaticExtension(ext: string)
  {
    LowerBytes(ext) in STATIC_EXTENSIONS
  }

  /** Lowers the extension in a five-byte buffer; longer and empty ones are refused up front. */
  method IsStaticExt(ext: string) returns (found: bool)
    ensures found <==> StaticExtension(ext)
  {
    ghost var lowered := LowerBytes(ext);
    assert |lowered| == |ext|;
    if |ext| > 5 || ext == "" {
      LongExtensionsAreNotStatic(lowered);
      return false;
    }
    var buf := new char[5](_ => '\0');
    var i := 0;
    while i < |ext|
      invariant 0 <= i <= |ext|
      invariant forall k | 0 <= k < i :: buf[k] == ext[k]
    {
      buf[i] := ext[i];
      i := i + 1;
    }
    i := 0;
    while i < |ext|
      invariant 0 <= i <= |ext|
      invariant forall k | 0 <= k < i :: buf[k] == lowered[k]
      invariant forall k | i <= k < |ext| :: buf[k] == ext[k]
    {
      buf[i] := LowerByte(buf[i]);
      i := i + 1;
    }
    assert buf[..|ext|] == lowered;
    found := buf[..|ext|] in STATIC_EXTENSIONS;
  }

  lemma LongExtensionsAreNotStatic(s: string)
    requires |s| > 5 || s == ""
    ensures s !in STATIC_EXTENSIONS
  {
    assert forall i | 0 <= i < |STATIC_EXTENSIONS| :: 2 <= |STATIC_EXTENSIONS[i]| <= 5;
  }

  /** The text after the last dot, if there is one. */
  function AfterLastDot(path: string): Option<string>
  {
    if path == "" then None
    else
      match AfterLastDot(path[1..])
      case Some(ext) => Some(ext)
      case None => if path[0] == '.' then Some(path[1..]) else None
  }

  predicate IsAssetPath(path: string)
  {
    && !("/api/" <= path)
    && AfterLastDot(path).Some?
    && '/' !in AfterLastDot(path).value
    && StaticExtension(AfterLastDot(path).value)
  }

  /** The white list: exact paths, and prefixes for entries that end in a slash. */
  datatype PathMatcher = PathMatcher(exact: set<string>, prefixes: seq<string>)
  {
    predicate IsWhitelisted(path: string)
    {
      path in exact || exists p | p in prefixes :: p <= path
    }

    function Classify(path: string): PathClass
    {
      if "/_next/" <= path || "/static/" <= path then Static
      else if IsWhitelisted(path) then Public
      else if IsMicroserviceRoute(path) then Microservice
      else if IsAssetPath(path) then Public
      else Protected
    }
  }

  predicate IsPrefixEntry(entry: string)
  {
    entry != "" && entry[|entry| - 1] == '/' && entry != "/"
  }

  /** Sorts the configured entries into exact paths and prefixes; the order of prefixes does not matter. */
  method NewMatcher(entries: seq<string>) returns (m: PathMatcher)
    ensures forall p :: p in m.prefixes <==> p in entries && p != "" && p[|p| - 1] == '/' && p != "/"
    ensures forall p :: p in m.exact <==> p in entries && p !in m.prefixes
  {
    var exact, prefixes := {}, [];
    for i := 0 to |entries|
      invariant forall p :: p in exact <==> p in entries[..i] && !IsPrefixEntry(p)
      invariant forall p :: p in prefixes <==> p in entries[..i] && IsPrefixEntry(p)
    {
      assert entries[..i + 1] == entries[..i] + [entries[i]];
      if IsPrefixEntry(entries[i]) {
        prefixes := prefixes + [entries[i]];
      } else {
        exact := exact + {entries[i]};
      }
    }
    assert entries[..|entries|] == entries;
    m := PathMatcher(exact, prefixes);
  }

  // ---- A class decided by a prefix still holds after normalisation ----

  lemma {:induction false} DecodedKeepsPrefix(prefix: string, rest: string)
    requires '%' !in prefix && '\\' !in prefix
    ensures Slashed(Decoded(prefix + rest)) == prefix + Slashed(Decoded(rest))
  {
    if prefix == "" {
      assert prefix + rest == rest;
    } else {
      assert (prefix + rest)[1..] == prefix[1..] + rest;
      DecodedKeepsPrefix(prefix[1..], rest);
      var tail := Decoded(prefix[1..] + rest);
      assert Decoded(prefix + rest) == [prefix[0]] + tail;
      assert ([prefix[0]] + tail)[1..] == tail;
      assert prefix == [prefix[0]] + prefix[1..];
    }
  }

  /** An accepted path that starts with a plain prefix starts with it after normalisation too. */
  lemma AcceptedKeepsPrefix(path: string, prefix: string)
    requires !FullCheck(path) && prefix <= path
    requires '%' !in prefix && '\\' !in prefix
    ensures prefix <= Normalised(path)
  {
    AcceptedIffNormalised(path);
    assert path == prefix + path[|prefix|..];
    DecodedKeepsPrefix(prefix, path[|prefix|..]);
  }

  /** An accepted static path is still under a static directory for the upstream. */
  lemma StaticStaysStatic(m: PathMatcher, path: string)
    requires !FullCheck(path) && m.Classify(path) == Static
    ensures "/_next/" <= Normalised(path) || "/static/" <= Normalised(path)
  {
    if "/_next/" <= path {
      AcceptedKeepsPrefix(path, "/_next/");
    } else {
      AcceptedKeepsPrefix(path, "/static/");
    }
  }

  /** So is an accepted path that a white-listed prefix made public. */
  lemma WhitelistedPrefixStays(m: PathMatcher, path: string, prefix: string)
    requires !FullCheck(path) && prefix in m.prefixes && prefix <= path
    requires '%' !in prefix && '\\' !in prefix
    ensures prefix <= Normalised(path) && m.IsWhitelisted(Normalised(path))
  {
    AcceptedKeepsPrefix(path, prefix);
  }

  // ---- Public by extension, and the decoded path ----

  /** What the class promises on the path as sent: public without the white list means outside `/api/`. */
  predicate PublicAsset(m: PathMatcher, path: string)
  {
    m.Classify(path) == Public && !m.IsWhitelisted(path)
  }

  predicate SameByte(sent: char, meant: char)
  {
    sent == meant || (meant == '/' && sent == '\\')
  }

  /** The raw path starts with a spelling of `text`: each character as it is, escaped, or a backslash for a slash. */
  predicate Spells(raw: string, text: string)
    decreases |text|
  {
    text == "" ||
    if IsEscape(raw) then SameByte(EscapedByte(raw), text[0]) && Spells(raw[3..], text[1..])
    else raw != "" && SameByte(raw[0], text[0]) && Spells(raw[1..], text[1..])
  }

  lemma {:induction false} SpellsIsDecodedPrefix(raw: string, text: string)
    requires '\\' !in text
    ensures Spells(raw, text) <==> text <= Slashed(Decoded(raw))
    decreases |text|
  {
    if text == "" || raw == "" {
    } else {
      var rest := if IsEscape(raw) then raw[3..] else raw[1..];
      var head := if IsEscape(raw) then EscapedByte(raw) else raw[0];
      SpellsIsDecodedPrefix(rest, text[1..]);
      assert Decoded(raw) == [head] + Decoded(rest);
      assert ([head] + Decoded(rest))[1..] == Decoded(rest);
      PrefixStep(text, if head == '\\' then '/' else head, Slashed(Decoded(rest)));
    }
  }

  lemma PrefixStep(text: string, c: char, rest: string)
    requires text != ""
    ensures text <= [c] + rest <==> text[0] == c && text[1..] <= rest
  {
    assert text == [text[0]] + text[1..];
    if text <= [c] + rest {
      assert ([c] + rest)[..|text|][1..] == rest[..|text| - 1];
    }
  }

  /**
   An accepted path made public by its extension is outside `/api/` for the upstream too if and only if the
   path as sent does not spell `/api/` with escapes or backslashes.
   */
  lemma {:induction false} AssetOutsideApiIffNotSpelled(m: PathMatcher, path: string)
    requires !FullCheck(path) && PublicAsset(m, path)
    ensures !("/api/" <= path)
    ensures "/api/" <= Normalised(path) <==> Spells(path, "/api/")
  {
    AcceptedIffNormalised(path);
    SpellsIsDecodedPrefix(path, "/api/");
  }

  /** A guard on the path as sent: no escape and no backslash among its first five characters. */
  predicate PlainHead(path: string)
  {
    forall i | 0 <= i < |path| && i < 5 :: path[i] != '%' && path[i] != '\\'
  }

  lemma PlainHeadKeepsAssetsOutside(m: PathMatcher, path: string)
    requires !FullCheck(path) && PublicAsset(m, path) && PlainHead(path)
    ensures !("/api/" <= Normalised(path))
  {
    var n := if |path| < 5 then |path| else 5;
    AcceptedIffNormalised(path);
    assert path == path[..n] + path[n..];
    DecodedKeepsPrefix(path[..n], path[n..]);
    if |path| < 5 {
      assert path[n..] == "" && Normalised(path) == path;
    } else {
      assert Normalised(path)[..5] == path[..5];
    }
  }

  /** No escape and no backslash among the first thirteen characters, as many as `/api/v1/auth/` has. */
  predicate PlainApiHead(path: string)
  {
    forall i | 0 <= i < |path| && i < 13 :: path[i] != '%' && path[i] != '\\'
  }

  lemma PlainHeadKeepsPrefix(path: string, prefix: string)
    requires !FullCheck(path) && PlainApiHead(path) && |prefix| <= 13
    ensures prefix <= path <==> prefix <= Normalised(path)
  {
    var n := if |path| < 13 then |path| else 13;
    AcceptedIffNormalised(path);
    assert path == path[..n] + path[n..];
    DecodedKeepsPrefix(path[..n], path[n..]);
    assert Normalised(path)[..n] == path[..n];
    if |path| < 13 {
      assert path[n..] == "" && Normalised(path) == path;
    } else if prefix <= Normalised(path) {
      assert prefix == Normalised(path)[..13][..|prefix|];
    }
  }

  /**
   Which accepted paths go to the microservices, with their cookies taken away: of those that are neither static nor
   white-listed and have a plain head, exactly the ones an upstream reads under `/api/v1/` but not under
   `/api/v1/auth/`.
   */
  lemma MicroserviceIffNormalised(m: PathMatcher, path: string)
    requires !FullCheck(path) && PlainApiHead(path) && !m.IsWhitelisted(path)
    ensures m.Classify(path) == Microservice <==>
            "/api/v1/" <= Normalised(path) && !("/api/v1/auth/" <= Normalised(path))
  {
    PlainHeadKeepsPrefix(path, "/api/v1/");
    PlainHeadKeepsPrefix(path, "/api/v1/auth/");
    if "/api/v1/" <= path {
      assert path[1] == 'a' && "/_next/"[1] == '_' && "/static/"[1] == 's';
    }
  }

  /** The path ends in a dot and one of the extensions, in any case. */
  ghost predicate HasStaticEnding(path: string)
  {
    exists dot: nat, ext :: EndsInExtension(path, dot, ext)
  }

  predicate SpelledInAnyCase(text: string, lower: string)
  {
    && |text| == |lower|
    && forall i | 0 <= i < |text| ::
         text[i] == lower[i] || ('A' <= text[i] <= 'Z' && text[i] as int + 32 == lower[i] as int)
  }

  lemma ExtensionsAreLetters(text: string, ext: string)
    requires ext in STATIC_EXTENSIONS
    ensures LowerBytes(text) == ext <==> SpelledInAnyCase(text, ext)
    ensures SpelledInAnyCase(text, ext) ==> '.' !in text && '/' !in text
  {
    assert forall i, c | 0 <= i < |STATIC_EXTENSIONS| && c in STATIC_EXTENSIONS[i] :: c == '2' || 'a' <= c <= 'z';
    assert forall i | 0 <= i < |ext| :: ext[i] in ext;
    assert forall i | 0 <= i < |text| && |text| == |ext| :: LowerBytes(text)[i] == LowerByte(text[i]);
  }

  lemma {:induction false} AfterLastDotIs(path: string)
    ensures AfterLastDot(path).None? ==> '.' !in path
    ensures AfterLastDot(path).Some? ==>
              |AfterLastDot(path).value| < |path| &&
              var dot := |path| - |AfterLastDot(path).value| - 1;
              path[dot] == '.' && path[dot + 1..] == AfterLastDot(path).value
  {
    if path == "" {
    } else {
      AfterLastDotIs(path[1..]);
    }
  }

  ghost predicate EndsInExtension(path: string, dot: nat, ext: string)
  {
    dot < |path| && path[dot] == '.' && ext in STATIC_EXTENSIONS && SpelledInAnyCase(path[dot + 1..], ext)
  }

  lemma {:induction false} AssetHasEnding(path: string, text: string)
    requires AfterLastDot(path) == Some(text) && StaticExtension(text)
    ensures HasStaticEnding(path)
  {
    AfterLastDotIs(path);
    ExtensionsAreLetters(text, LowerBytes(text));
    assert EndsInExtension(path, |path| - |text| - 1, LowerBytes(text));
  }

  lemma {:induction false} EndingIsLast(path: string, dot: nat, ext: string)
    requires EndsInExtension(path, dot, ext)
    ensures AfterLastDot(path) == Some(path[dot + 1..])
    ensures '/' !in path[dot + 1..] && StaticExtension(path[dot + 1..])
  {
    ExtensionsAreLetters(path[dot + 1..], ext);
    LastDot(path[..dot], path[dot + 1..]);
    assert path == path[..dot] + ['.'] + path[dot + 1..];
  }

  /** Which paths are assets. */
  lemma AssetIff(path: string)
    ensures IsAssetPath(path) <==> !("/api/" <= path) && HasStaticEnding(path)
  {
    if AfterLastDot(path).Some? && StaticExtension(AfterLastDot(path).value) {
      var text := AfterLastDot(path).value;
      AssetHasEnding(path, text);
      ExtensionsAreLetters(text, LowerBytes(text));
    }
    if dot: nat, ext :| EndsInExtension(path, dot, ext) {
      EndingIsLast(path, dot, ext);
    }
  }

  lemma ServicesAreApis(path: string)
    ensures "/api/v1/" <= path ==> "/api/" <= path && !("/_next/" <= path) && !("/static/" <= path)
  {
    assert "/api/" <= "/api/v1/";
    assert "/_next/"[1] == '_' && "/static/"[1] == 's' && "/api/v1/"[1] == 'a';
  }

  /** The class of every path: static directories first, then the white list, the microservices and the assets. */
  lemma ClassOfPath(m: PathMatcher, path: string)
    ensures var unguarded := "/_next/" <= path || "/static/" <= path;
            var service := "/api/v1/" <= path && !("/api/v1/auth/" <= path);
            var asset := !("/api/" <= path) && HasStaticEnding(path);
            && (m.Classify(path) == Static <==> unguarded)
            && (m.Classify(path) == Public <==> !unguarded && (OnList(m, path) || asset))
            && (m.Classify(path) == Microservice <==> !unguarded && !OnList(m, path) && service)
            && (m.Classify(path) == Protected <==> !unguarded && !OnList(m, path) && !service && !asset)
  {
    AssetIff(path);
    ServicesAreApis(path);
    assert m.IsWhitelisted(path) <==> OnList(m, path);
  }

  ghost predicate OnList(m: PathMatcher, path: string)
  {
    path in m.exact || exists p :: p in m.prefixes && p <= path
  }

  /** A file name without an extension: no separator, escape or dot. */
  predicate PlainName(name: string)
  {
    forall c | c in name :: c != '/' && c != '\\' && c != '%' && c != '.'
  }

  /** The guard is needed: behind an encoded slash every API file with a static extension is public. */
  lemma EncodedSlashIsPublic(m: PathMatcher, name: string)
    requires PlainName(name) && !m.IsWhitelisted("/api%2f" + name + ".json")
    ensures var path := "/api%2f" + name + ".json";
            !FullCheck(path) && PublicAsset(m, path) && Normalised(path) == "/api/" + name + ".json"
  {
    var tail := name + ".json";
    var path := "/api%2f" + name + ".json";
    assert path == "/api%2f" + tail;
    DecodedOfEscaped(tail);
    NoDotsUnderApi(tail);
    SegmentsAreSplit(Decoded(path));
    AcceptedIffNormalised(path);
    assert "/api/" + tail == "/api/" + name + ".json";
    JsonUnderEscapedApi(path, name);
  }

  lemma JsonUnderEscapedApi(path: string, name: string)
    requires path == "/api%2f" + name + ".json"
    ensures IsAssetPath(path)
    ensures !("/_next/" <= path) && !("/static/" <= path) && !IsMicroserviceRoute(path)
  {
    var head := "/api%2f" + name;
    assert path == head + ['.'] + "json";
    LastDot(head, "json");
    assert path[4] == '%' && path[1] == 'a';
    assert "json" == STATIC_EXTENSIONS[9];
    assert LowerBytes("json") == "json";
  }

  lemma {:induction false} LastDot(head: string, ext: string)
    requires '.' !in ext
    ensures AfterLastDot(head + ['.'] + ext) == Some(ext)
  {
    var path := head + ['.'] + ext;
    if head == "" {
      NoDot(ext);
      assert path[1..] == ext;
    } else {
      LastDot(head[1..], ext);
      assert path[1..] == head[1..] + ['.'] + ext;
    }
  }

  lemma {:induction false} NoDot(s: string)
    requires '.' !in s
    ensures AfterLastDot(s).None?
  {
    if s == "" {
    } else {
      NoDot(s[1..]);
    }
  }

  lemma {:induction false} DecodedOfEscaped(tail: string)
    requires '%' !in tail && '\\' !in tail
    ensures Slashed(Decoded("/api%2f" + tail)) == "/api/" + tail
  {
    var rest := "%2f" + tail;
    assert "/api%2f" + tail == "/api" + rest;
    DecodedKeepsPrefix("/api", rest);
    DecodedSlash(rest, tail);
    assert "/api" + (['/'] + tail) == "/api/" + tail;
  }

  lemma {:induction false} DecodedSlash(path: string, tail: string)
    requires path == "%2f" + tail && '%' !in tail && '\\' !in tail
    ensures Slashed(Decoded(path)) == ['/'] + tail
  {
    DecodedKeepsPrefix(tail, "");
    assert tail + "" == tail && tail + Slashed(Decoded("")) == tail;
    assert path[3..] == tail;
    assert HexVal('2') == Some(2) && HexVal('f') == Some(15);
    SlashedStep(EscapedByte(path), Decoded(tail));
  }

  lemma {:induction false} SlashedStep(c: char, rest: string)
    ensures Slashed([c] + rest) == [if c == '\\' then '/' else c] + Slashed(rest)
  {
    assert ([c] + rest)[1..] == rest;
  }

  lemma NoDotsUnderApi(tail: string)
    requires '/' !in tail && |tail| > 2
    ensures !HasDots("/api/" + tail)
  {
    assert "/api/" + tail == "/api" + ['/'] + tail;
    assert "/api" == "" + ['/'] + "api";
    SplitOfConcat("/api", tail, '/');
    SplitOfConcat("", "api", '/');
    SplitOfFree("api", '/');
    SplitOfFree(tail, '/');
    assert Split("/api/" + tail, '/') == ["", "api", tail];
  }
}
