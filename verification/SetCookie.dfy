/**
 `Set-Cookie` values: the gateway's printer (apps/gateway/src/oauth.rs) and a browser that
 parses and stores them by sections 5.2 and 5.3 of RFC 6265.
 */
module SetCookie {
  import opened Wrappers
  import opened Strings
  import opened Cookie

  // ---- The printer ----

  function Digit(d: nat): char
    requires d < 10
  {
    '0' + d as char
  }

  /** The decimal notation of an unsigned number. */
  function Decimal(n: nat): string
  {
    if n < 10 then [Digit(n)] else Decimal(n / 10) + [Digit(n % 10)]
  }

  /** The fields the format string separates by `; `. */
  function Fields(pair: string, age: string, path: string, secure: bool): seq<string>
  {
    [pair, "Path=" + path, "HttpOnly", "SameSite=Lax", "Max-Age=" + age] + if secure then ["Secure"] else []
  }

  function BuildSetCookie(name: string, value: string, maxAge: nat, path: string, secure: bool): string
  {
    Join(Fields(Segment(name, value), Decimal(maxAge), path, secure), "; ")
  }

  /** The header that deletes a cookie: no value, `Max-Age=0`. */
  function BuildClearCookie(name: string, path: string, secure: bool): string
  {
    Join(Fields(name + "=", "0", path, secure), "; ")
  }

  // ---- The browser's parser, section 5.2 ----

  predicate IsWsp(c: char)
  {
    c == ' ' || c == '\t'
  }

  function TrimLeft(s: string): string
  {
    if s != "" && IsWsp(s[0]) then TrimLeft(s[1..]) else s
  }

  function TrimRight(s: string): string
  {
    if s != "" && IsWsp(s[|s| - 1]) then TrimRight(s[..|s| - 1]) else s
  }

  function Trim(s: string): string
  {
    TrimRight(TrimLeft(s))
  }

  /** Text before and after the first `=`; everything and nothing when there is none. */
  function CutAtEquals(s: string): (cut: (string, string))
    ensures '=' !in cut.0
  {
    if s == "" then ("", "")
    else if s[0] == '=' then ("", s[1..])
    else var rest := CutAtEquals(s[1..]); ([s[0]] + rest.0, rest.1)
  }

  function LowerChar(c: char): char
  {
    if 'A' <= c <= 'Z' then c - 'A' + 'a' else c
  }

  function Lower(s: string): string
  {
    if s == "" then "" else [LowerChar(s[0])] + Lower(s[1..])
  }

  predicate IsDigit(c: char)
  {
    '0' <= c <= '9'
  }

  predicate AllDigits(s: string)
  {
    forall i | 0 <= i < |s| :: IsDigit(s[i])
  }

  function ParseDigits(s: string): int
    requires AllDigits(s)
  {
    if s == "" then 0 else ParseDigits(s[..|s| - 1]) * 10 + (s[|s| - 1] - '0') as int
  }

  /** Section 5.2.2; `None` means the attribute is ignored. */
  function ParseMaxAge(value: string): Option<int>
  {
    if value == "" || !(IsDigit(value[0]) || value[0] == '-') || !AllDigits(value[1..]) then None
    else if value[0] == '-' then Some(-ParseDigits(value[1..]))
    else
      assert AllDigits(value);
      Some(ParseDigits(value))
  }

  /**
   A received cookie; `path` is `None` for the default path of section 5.1.4, and `domain` is empty
   when no Domain attribute was given.
   */
  datatype Received = Received(name: string, value: string, maxAge: Option<int>, path: Option<string>, domain: string)

  /** Section 5.2.3: a leading dot is dropped, the rest is lower-cased; an empty value is ignored. */
  function CookieDomain(value: string): string
    requires value != ""
  {
    Lower(if value[0] == '.' then value[1..] else value)
  }

  function ApplyAttribute(cookie: Received, attribute: string): Received
  {
    var cut := CutAtEquals(attribute);
    var name, value := Lower(Trim(cut.0)), Trim(cut.1);
    if name == "max-age" then
      if ParseMaxAge(value).Some? then cookie.(maxAge := ParseMaxAge(value)) else cookie
    else if name == "path" then
      cookie.(path := if value != "" && value[0] == '/' then Some(value) else None)
    else if name == "domain" then
      if value != "" then cookie.(domain := CookieDomain(value)) else cookie
    else cookie
  }

  function ApplyAttributes(cookie: Received, attributes: seq<string>): Received
    decreases attributes
  {
    if attributes == [] then cookie
    else ApplyAttributes(ApplyAttribute(cookie, attributes[0]), attributes[1..])
  }

  function ParseSetCookie(header: string): Option<Received>
  {
    var pieces := Split(header, ';');
    var cut := CutAtEquals(pieces[0]);
    if '=' !in pieces[0] || Trim(cut.0) == "" then None
    else Some(ApplyAttributes(Received(Trim(cut.0), Trim(cut.1), None, None, ""), pieces[1..]))
  }

  // ---- Parsing undoes printing ----

  /** What section 5.2 leaves unchanged when it trims. */
  ghost predicate Unpadded(s: string)
  {
    s == "" || (!IsWsp(s[0]) && !IsWsp(s[|s| - 1]))
  }

  ghost predicate PlainValue(value: string)
  {
    ';' !in value && Unpadded(value)
  }

  ghost predicate PlainName(name: string)
  {
    name != "" && '=' !in name && PlainValue(name)
  }

  ghost predicate PlainPath(path: string)
  {
    path != "" && path[0] == '/' && PlainValue(path)
  }

  lemma TrimOfUnpadded(s: string)
    requires Unpadded(s)
    ensures Trim(s) == s
  {
  }

  lemma {:induction false} CutOfPair(name: string, value: string)
    requires '=' !in name
    ensures CutAtEquals(name + "=" + value) == (name, value)
  {
    var s := name + "=" + value;
    if name == "" {
      assert s[1..] == value;
    } else {
      assert s[1..] == name[1..] + "=" + value;
      CutOfPair(name[1..], value);
      assert name == [name[0]] + name[1..];
    }
  }

  lemma {:induction false} DecimalIsDigits(n: nat)
    ensures Decimal(n) != "" && AllDigits(Decimal(n)) && ParseDigits(Decimal(n)) == n
  {
    if n >= 10 {
      DecimalIsDigits(n / 10);
      assert Decimal(n)[..|Decimal(n)| - 1] == Decimal(n / 10);
    } else {
      assert Decimal(n)[..0] == "";
    }
  }

  lemma {:induction false} ParseMaxAgeOfDecimal(n: nat)
    ensures ParseMaxAge(Decimal(n)) == Some(n as int)
  {
    DecimalIsDigits(n);
    assert IsDigit(Decimal(n)[0]);
  }

  lemma {:induction false} DecimalIsPlain(n: nat)
    ensures PlainValue(Decimal(n))
  {
    DecimalIsDigits(n);
    var d := Decimal(n);
    assert forall i | 0 <= i < |d| :: IsDigit(d[i]);
  }

  /** The space after a semicolon does not matter. */
  lemma SpacedAttribute(cookie: Received, attribute: string)
    ensures ApplyAttribute(cookie, " " + attribute) == ApplyAttribute(cookie, attribute)
  {
    var spaced := " " + attribute;
    assert spaced[1..] == attribute;
    var cut := CutAtEquals(attribute);
    assert CutAtEquals(spaced) == (" " + cut.0, cut.1);
    assert (" " + cut.0)[1..] == cut.0;
    assert TrimLeft(" " + cut.0) == TrimLeft(cut.0);
  }

  lemma PathAttribute(cookie: Received, path: string)
    requires PlainPath(path)
    ensures ApplyAttribute(cookie, "Path=" + path) == cookie.(path := Some(path))
  {
    assert "Path=" + path == "Path" + "=" + path;
    CutOfPair("Path", path);
    TrimOfUnpadded("Path");
    LowerOfPath();
    TrimOfUnpadded(path);
  }

  lemma LowerOfPath()
    ensures Lower("Path") == "path"
  {
    assert "Path"[1..] == "ath" && "ath"[1..] == "th" && "th"[1..] == "h" && "h"[1..] == "";
    assert Lower("h") == "h";
    assert Lower("th") == "th";
    assert Lower("ath") == "ath";
  }

  lemma LowerOfMaxAge()
    ensures Lower("Max-Age") == "max-age"
  {
    assert "Max-Age"[1..] == "ax-Age" && "ax-Age"[1..] == "x-Age" && "x-Age"[1..] == "-Age";
    assert "-Age"[1..] == "Age" && "Age"[1..] == "ge" && "ge"[1..] == "e" && "e"[1..] == "";
    assert Lower("e") == "e";
    assert Lower("ge") == "ge";
    assert Lower("Age") == "age";
    assert Lower("-Age") == "-age";
    assert Lower("x-Age") == "x-age";
    assert Lower("ax-Age") == "ax-age";
  }

  lemma {:induction false} MaxAgeAttribute(cookie: Received, n: nat)
    ensures ApplyAttribute(cookie, "Max-Age=" + Decimal(n)) == cookie.(maxAge := Some(n as int))
  {
    assert "Max-Age=" + Decimal(n) == "Max-Age" + "=" + Decimal(n);
    CutOfPair("Max-Age", Decimal(n));
    TrimOfUnpadded("Max-Age");
    LowerOfMaxAge();
    DecimalIsPlain(n);
    TrimOfUnpadded(Decimal(n));
    ParseMaxAgeOfDecimal(n);
  }

  lemma {:induction false} LowerHead(s: string)
    requires s != ""
    ensures Lower(s) != "" && Lower(s)[0] == LowerChar(s[0])
  {
  }

  lemma {:induction false} CutOfFlag(s: string)
    requires '=' !in s
    ensures CutAtEquals(s) == (s, "")
  {
    if s == "" {
    } else {
      CutOfFlag(s[1..]);
      assert s == [s[0]] + s[1..];
    }
  }

  /** A name the browser of section 5.2 does not act on: it starts with none of `m`, `p` and `d`. */
  ghost predicate Ignored(name: string)
  {
    && name != "" && '=' !in name && Unpadded(name)
    && LowerChar(name[0]) != 'm' && LowerChar(name[0]) != 'p' && LowerChar(name[0]) != 'd'
  }

  lemma FlagIgnored(cookie: Received, name: string)
    requires Ignored(name)
    ensures ApplyAttribute(cookie, name) == cookie
  {
    CutOfFlag(name);
    TrimOfUnpadded(name);
    LowerHead(name);
  }

  lemma PairIgnored(cookie: Received, name: string, value: string)
    requires Ignored(name)
    ensures ApplyAttribute(cookie, name + "=" + value) == cookie
  {
    CutOfPair(name, value);
    TrimOfUnpadded(name);
    LowerHead(name);
  }

  lemma FixedNamesIgnored()
    ensures Ignored("HttpOnly") && Ignored("Secure") && Ignored("SameSite")
    ensures "SameSite=Lax" == "SameSite" + "=" + "Lax"
  {
  }

  /** Each element with a space in front. */
  function Spaced(fields: seq<string>): seq<string>
  {
    if fields == [] then [] else [" " + fields[0]] + Spaced(fields[1..])
  }

  lemma {:induction false} SplitOfSpacedJoin(fields: seq<string>)
    requires fields != []
    requires forall i | 0 <= i < |fields| :: ';' !in fields[i]
    ensures Split(Join(fields, "; "), ';') == [fields[0]] + Spaced(fields[1..])
  {
    SplitOfFree(fields[0], ';');
    if |fields| <= 1 {
    } else {
      var tail := Join(fields[1..], "; ");
      SplitOfSpacedJoin(fields[1..]);
      assert Join(fields, "; ") == fields[0] + [';'] + (" " + tail);
      SplitOfConcat(fields[0], " " + tail, ';');
      assert (" " + tail)[1..] == tail;
      assert Split(" " + tail, ';') == [" " + fields[1]] + Spaced(fields[1..][1..]);
    }
  }

  lemma {:induction false} ApplySpaced(cookie: Received, fields: seq<string>)
    ensures ApplyAttributes(cookie, Spaced(fields)) == ApplyAttributes(cookie, fields)
    decreases fields
  {
    if fields == [] {
    } else {
      SpacedAttribute(cookie, fields[0]);
      ApplySpaced(ApplyAttribute(cookie, fields[0]), fields[1..]);
      assert Spaced(fields)[1..] == Spaced(fields[1..]);
    }
  }

  lemma {:induction false} ApplyCons(cookie: Received, attribute: string, rest: seq<string>)
    ensures ApplyAttributes(cookie, [attribute] + rest) == ApplyAttributes(ApplyAttribute(cookie, attribute), rest)
  {
    assert ([attribute] + rest)[1..] == rest;
  }

  lemma {:induction false} ApplyFields(start: Received, maxAge: nat, path: string, secure: bool)
    requires PlainPath(path)
    ensures ApplyAttributes(start, Fields("", Decimal(maxAge), path, secure)[1..]) ==
            start.(path := Some(path)).(maxAge := Some(maxAge as int))
  {
    var withPath := start.(path := Some(path));
    var done := withPath.(maxAge := Some(maxAge as int));
    var pathField, ageField := "Path=" + path, "Max-Age=" + Decimal(maxAge);
    var last := if secure then ["Secure"] else [];
    var age := [ageField] + last;
    var site := ["SameSite=Lax"] + age;
    var http := ["HttpOnly"] + site;
    assert Fields("", Decimal(maxAge), path, secure)[1..] == [pathField] + http;
    ApplyCons(start, pathField, http);
    PathAttribute(start, path);
    ApplyCons(withPath, "HttpOnly", site);
    FixedNamesIgnored();
    FlagIgnored(withPath, "HttpOnly");
    ApplyCons(withPath, "SameSite=Lax", age);
    PairIgnored(withPath, "SameSite", "Lax");
    ApplyCons(withPath, ageField, last);
    MaxAgeAttribute(withPath, maxAge);
    if secure {
      ApplyCons(done, "Secure", []);
      FlagIgnored(done, "Secure");
    }
  }

  lemma FieldsAreFree(pair: string, age: string, path: string, secure: bool)
    requires ';' !in pair && ';' !in age && ';' !in path
    ensures forall i | 0 <= i < |Fields(pair, age, path, secure)| :: ';' !in Fields(pair, age, path, secure)[i]
    ensures Fields(pair, age, path, secure)[0] == pair
    ensures Fields(pair, age, path, secure)[1..] == Fields("", age, path, secure)[1..]
  {
  }

  lemma {:induction false} AttributesKeepPair(cookie: Received, attributes: seq<string>)
    ensures ApplyAttributes(cookie, attributes).name == cookie.name
    ensures ApplyAttributes(cookie, attributes).value == cookie.value
    decreases attributes
  {
    if attributes == [] {
    } else {
      AttributesKeepPair(ApplyAttribute(cookie, attributes[0]), attributes[1..]);
    }
  }

  lemma {:induction false} ApplyConcat(cookie: Received, a: seq<string>, b: seq<string>)
    ensures ApplyAttributes(cookie, a + b) == ApplyAttributes(ApplyAttributes(cookie, a), b)
    decreases a
  {
    if a == [] {
      assert a + b == b;
    } else {
      assert (a + b)[1..] == a[1..] + b;
      ApplyConcat(ApplyAttribute(cookie, a[0]), a[1..], b);
    }
  }

  lemma {:induction false} SplitOfPair(name: string, value: string)
    requires ';' !in name
    ensures Split(Segment(name, value), ';') == [Segment(name, Split(value, ';')[0])] + Split(value, ';')[1..]
  {
    var s := Segment(name, value);
    if name == "" {
      assert s[1..] == value;
      assert ['='] + Split(value, ';')[0] == Segment("", Split(value, ';')[0]);
    } else {
      assert s[1..] == Segment(name[1..], value);
      SplitOfPair(name[1..], value);
      var head := Split(value, ';')[0];
      assert [s[0]] + Segment(name[1..], head) == Segment(name, head);
    }
  }

  /** The part of a printed value the browser keeps. */
  function StoredValue(value: string): string
  {
    Trim(Split(value, ';')[0])
  }

  lemma {:induction false} TrimFacts(s: string)
    ensures Trim(s) == s <==> Unpadded(s)
    ensures |Trim(s)| <= |s|
  {
    TrimLeftShrinks(s);
    TrimRightShrinks(TrimLeft(s));
    if Unpadded(s) {
      TrimOfUnpadded(s);
    }
  }

  lemma {:induction false} TrimLeftShrinks(s: string)
    ensures |TrimLeft(s)| <= |s|
    ensures if s == "" || !IsWsp(s[0]) then TrimLeft(s) == s else |TrimLeft(s)| < |s|
  {
    if s == "" || !IsWsp(s[0]) {
    } else {
      TrimLeftShrinks(s[1..]);
    }
  }

  lemma {:induction false} TrimRightShrinks(s: string)
    ensures |TrimRight(s)| <= |s|
    ensures if s == "" || !IsWsp(s[|s| - 1]) then TrimRight(s) == s else |TrimRight(s)| < |s|
  {
    if s == "" || !IsWsp(s[|s| - 1]) {
    } else {
      TrimRightShrinks(s[..|s| - 1]);
    }
  }

  lemma {:induction false} SplitHeadShrinks(s: string, sep: char)
    ensures |Split(s, sep)[0]| <= |s|
    ensures Split(s, sep)[0] == s <==> sep !in s
  {
    if s == "" {
    } else {
      SplitHeadShrinks(s[1..], sep);
      assert s == [s[0]] + s[1..];
    }
  }

  /** A value survives the browser exactly when it has no `;` and no surrounding white space. */
  lemma StoredValueIsValue(value: string)
    ensures StoredValue(value) == value <==> PlainValue(value)
    ensures ';' !in StoredValue(value)
  {
    var head := Split(value, ';')[0];
    SplitHeadShrinks(value, ';');
    TrimFacts(head);
    SplitPiecesAreFree(value, ';');
    TrimKeepsFree(head);
  }

  lemma {:induction false} TrimKeepsFree(s: string)
    requires ';' !in s
    ensures ';' !in Trim(s)
  {
    TrimLeftKeepsFree(s);
    TrimRightKeepsFree(TrimLeft(s));
  }

  lemma {:induction false} TrimLeftKeepsFree(s: string)
    requires ';' !in s
    ensures ';' !in TrimLeft(s)
  {
    if s == "" || !IsWsp(s[0]) {
    } else {
      TrimLeftKeepsFree(s[1..]);
    }
  }

  lemma {:induction false} TrimRightKeepsFree(s: string)
    requires ';' !in s
    ensures ';' !in TrimRight(s)
  {
    if s == "" || !IsWsp(s[|s| - 1]) {
    } else {
      TrimRightKeepsFree(s[..|s| - 1]);
    }
  }

  // ---- The Domain attribute a value can carry in ----

  /** The domain named by one `;` segment, if it is a Domain attribute. */
  function DomainNamed(segment: string): Option<string>
  {
    var cut := CutAtEquals(segment);
    if Lower(Trim(cut.0)) == "domain" && Trim(cut.1) != "" then Some(CookieDomain(Trim(cut.1))) else None
  }

  /** The last domain named by the segments. */
  function LastDomain(segments: seq<string>): Option<string>
  {
    if segments == [] then None
    else if DomainNamed(segments[|segments| - 1]).Some? then DomainNamed(segments[|segments| - 1])
    else LastDomain(segments[..|segments| - 1])
  }

  /** The domain that the text of a cookie value asks for behind its first `;`; empty when it asks for none. */
  function ValueDomain(value: string): string
  {
    var named := LastDomain(Split(value, ';')[1..]);
    if named.Some? then named.value else ""
  }

  lemma OneAttributeDomain(cookie: Received, attribute: string)
    ensures ApplyAttribute(cookie, attribute).domain ==
            if DomainNamed(attribute).Some? then DomainNamed(attribute).value else cookie.domain
  {
    assert "max-age"[0] == 'm' && "path"[0] == 'p' && "domain"[0] == 'd';
  }

  lemma {:induction false} AttributesDomain(cookie: Received, attributes: seq<string>)
    ensures ApplyAttributes(cookie, attributes).domain ==
            if LastDomain(attributes).Some? then LastDomain(attributes).value else cookie.domain
  {
    if attributes == [] {
    } else {
      var before, last := attributes[..|attributes| - 1], attributes[|attributes| - 1];
      assert attributes == before + [last];
      ApplyConcat(cookie, before, [last]);
      AttributesDomain(cookie, before);
      var middle := ApplyAttributes(cookie, before);
      assert [last][1..] == [];
      assert ApplyAttributes(middle, [last]) == ApplyAttribute(middle, last);
      OneAttributeDomain(middle, last);
    }
  }

  /** A value without `;` names no domain. */
  lemma PlainValueNamesNoDomain(value: string)
    requires ';' !in value
    ensures ValueDomain(value) == ""
  {
    SplitOfFree(value, ';');
  }

  /** Everything the printer writes after the `name=value` pair. */
  function PrintedTail(maxAge: nat, path: string, secure: bool): seq<string>
  {
    Fields("", Decimal(maxAge), path, secure)[1..]
  }

  lemma PrintedHeader(name: string, value: string, maxAge: nat, path: string, secure: bool)
    ensures BuildSetCookie(name, value, maxAge, path, secure) ==
            Segment(name, value) + [';'] + (" " + Join(PrintedTail(maxAge, path, secure), "; "))
  {
    var pair := Segment(name, value);
    assert Fields(pair, Decimal(maxAge), path, secure)[1..] == PrintedTail(maxAge, path, secure);
    assert "; " == [';'] + " ";
  }

  lemma TailIsFree(maxAge: nat, path: string, secure: bool)
    requires ';' !in path
    ensures PrintedTail(maxAge, path, secure) != []
    ensures forall i | 0 <= i < |PrintedTail(maxAge, path, secure)| :: ';' !in PrintedTail(maxAge, path, secure)[i]
  {
    DecimalIsPlain(maxAge);
    FieldsAreFree("", Decimal(maxAge), path, secure);
  }

  lemma {:induction false} SplitOfPrinted(name: string, value: string, maxAge: nat, path: string, secure: bool)
    requires PlainName(name) && PlainPath(path)
    ensures var pieces := Split(value, ';');
            Split(BuildSetCookie(name, value, maxAge, path, secure), ';') ==
            [Segment(name, pieces[0])] + (pieces[1..] + Spaced(PrintedTail(maxAge, path, secure)))
  {
    var tail := PrintedTail(maxAge, path, secure);
    PrintedHeader(name, value, maxAge, path, secure);
    TailIsFree(maxAge, path, secure);
    SplitOfConcat(Segment(name, value), " " + Join(tail, "; "), ';');
    SplitOfPair(name, value);
    SplitOfTail(tail);
  }

  /** The attributes of a header that keep scripts, other sites and plain connections away from the cookie. */
  predicate Guarded(header: string)
  {
    var pieces := Split(header, ';');
    " HttpOnly" in pieces && " SameSite=Lax" in pieces && " Secure" in pieces
  }

  lemma {:induction false} SpacedHas(fields: seq<string>, k: nat)
    requires k < |fields|
    ensures " " + fields[k] in Spaced(fields)
  {
    if k > 0 {
      SpacedHas(fields[1..], k - 1);
    }
  }

  /** Whatever the value contains, a cookie printed as secure is guarded. */
  lemma PrintedIsGuarded(name: string, value: string, maxAge: nat, path: string)
    requires PlainName(name) && PlainPath(path)
    ensures Guarded(BuildSetCookie(name, value, maxAge, path, true))
  {
    var tail := PrintedTail(maxAge, path, true);
    SplitOfPrinted(name, value, maxAge, path, true);
    SpacedHas(tail, 1);
    SpacedHas(tail, 2);
    SpacedHas(tail, 4);
    assert tail[1] == "HttpOnly" && tail[2] == "SameSite=Lax" && tail[4] == "Secure";
    assert " " + "HttpOnly" == " HttpOnly" && " " + "SameSite=Lax" == " SameSite=Lax" && " " + "Secure" == " Secure";
  }

  /**
   Whatever the value contains, a printed cookie is received under the name, path and lifetime it was
   printed with: attributes of that kind smuggled in by the value are overridden. A Domain attribute is
   not, since the printer writes none of its own.
   */
  lemma SetCookieReceived(name: string, value: string, maxAge: nat, path: string, secure: bool)
    requires PlainName(name) && PlainPath(path)
    ensures ParseSetCookie(BuildSetCookie(name, value, maxAge, path, secure)) ==
            Some(Received(name, StoredValue(value), Some(maxAge as int), Some(path), ValueDomain(value)))
  {
    var head, extra := Split(value, ';')[0], Split(value, ';')[1..];
    var tail := PrintedTail(maxAge, path, secure);
    SplitOfPrinted(name, value, maxAge, path, secure);
    CutOfPair(name, head);
    TrimOfUnpadded(name);
    var start := Received(name, Trim(head), None, None, "");
    ApplyConcat(start, extra, Spaced(tail));
    AttributesKeepPair(start, extra);
    AttributesDomain(start, extra);
    var middle := ApplyAttributes(start, extra);
    ApplySpaced(middle, tail);
    ApplyFields(middle, maxAge, path, secure);
    assert ([Segment(name, head)] + (extra + Spaced(tail)))[1..] == extra + Spaced(tail);
  }

  lemma {:induction false} SplitOfTail(tail: seq<string>)
    requires tail != []
    requires forall i | 0 <= i < |tail| :: ';' !in tail[i]
    ensures Split(" " + Join(tail, "; "), ';') == Spaced(tail)
  {
    SplitOfSpacedJoin(tail);
    var text := Join(tail, "; ");
    assert (" " + text)[1..] == text;
    assert Spaced(tail) == [" " + tail[0]] + Spaced(tail[1..]);
  }

  lemma ClearIsEmptyCookie(name: string, path: string, secure: bool)
    ensures BuildClearCookie(name, path, secure) == BuildSetCookie(name, "", 0, path, secure)
  {
    assert Decimal(0) == "0";
    assert Segment(name, "") == name + "=";
  }

  // ---- The browser's store, section 5.3 ----

  /** The host all requests go to, in lower case, and the public suffixes the browser knows. */
  datatype Site = Site(host: string, isAddress: bool, publicSuffix: string -> bool)

  /** Section 5.1.3, for the host of the site. */
  predicate DomainMatch(site: Site, domain: string)
  {
    || site.host == domain
    || (&& !site.isAddress
        && |domain| < |site.host|
        && site.host[|site.host| - |domain|..] == domain
        && site.host[|site.host| - |domain| - 1] == '.')
  }

  /** Where a cookie with this Domain attribute goes, section 5.3 steps 4 to 6. */
  datatype Placement = Placed(domain: string, hostOnly: bool) | Refused

  function Place(site: Site, domain: string): Placement
  {
    if domain != "" && site.publicSuffix(domain) then
      if domain == site.host then Placed(site.host, true) else Refused
    else if domain == "" then Placed(site.host, true)
    else if DomainMatch(site, domain) then Placed(domain, false)
    else Refused
  }

  /** What identifies a stored cookie, section 5.3 step 11. */
  datatype Key = Key(name: string, domain: string, path: string)

  datatype Entry = Entry(value: string, expires: Option<int>, hostOnly: bool)

  type Jar = map<Key, Entry>

  predicate Live(entry: Entry, now: int)
  {
    entry.expires.None? || now <= entry.expires.value
  }

  function Store(site: Site, jar: Jar, cookie: Received, defaultPath: string, now: int): Jar
  {
    match Place(site, cookie.domain)
    case Refused => jar
    case Placed(domain, hostOnly) =>
      var key := Key(cookie.name, domain, if cookie.path.Some? then cookie.path.value else defaultPath);
      if cookie.maxAge.None? then jar[key := Entry(cookie.value, None, hostOnly)]
      else if cookie.maxAge.value <= 0 then jar - {key}
      else jar[key := Entry(cookie.value, Some(now + cookie.maxAge.value), hostOnly)]
  }

  /** The jar after the `Set-Cookie` fields of one response, in order. */
  function Receive(site: Site, jar: Jar, headers: seq<string>, defaultPath: string, now: int): Jar
    decreases headers
  {
    if headers == [] then jar
    else Receive(site, ReceiveOne(site, jar, headers[0], defaultPath, now), headers[1..], defaultPath, now)
  }

  function ReceiveOne(site: Site, jar: Jar, header: string, defaultPath: string, now: int): Jar
  {
    var cookie := ParseSetCookie(header);
    if cookie.Some? then Store(site, jar, cookie.value, defaultPath, now) else jar
  }

  lemma {:induction false} ReceiveConcat(site: Site, jar: Jar, a: seq<string>, b: seq<string>, defaultPath: string,
                                         now: int)
    ensures Receive(site, jar, a + b, defaultPath, now) ==
            Receive(site, Receive(site, jar, a, defaultPath, now), b, defaultPath, now)
    decreases a
  {
    if a == [] {
      assert a + b == b;
    } else {
      assert (a + b)[1..] == a[1..] + b;
      ReceiveConcat(site, ReceiveOne(site, jar, a[0], defaultPath, now), a[1..], b, defaultPath, now);
    }
  }

  /** The value asks for a domain above the host, and the browser grants it. */
  predicate Strays(site: Site, value: string)
  {
    var domain := ValueDomain(value);
    domain != "" && domain != site.host && DomainMatch(site, domain) && !site.publicSuffix(domain)
  }

  /** The value asks for a domain the host may not set cookies for. */
  predicate Rejected(site: Site, value: string)
  {
    var domain := ValueDomain(value);
    domain != "" && domain != site.host && (site.publicSuffix(domain) || !DomainMatch(site, domain))
  }

  /** The value is stored under the host itself: it names no other domain. */
  predicate StaysHome(site: Site, value: string)
  {
    ValueDomain(value) == "" || ValueDomain(value) == site.host
  }

  /** The jar after one printed cookie: under the host, under a parent domain, or unchanged. */
  function Put(site: Site, jar: Jar, name: string, value: string, maxAge: nat, path: string, now: int): Jar
    requires maxAge > 0
  {
    match Place(site, ValueDomain(value))
    case Refused => jar
    case Placed(domain, hostOnly) =>
      jar[Key(name, domain, path) := Entry(StoredValue(value), Some(now + maxAge), hostOnly)]
  }

  lemma PlacementCases(site: Site, value: string)
    ensures StaysHome(site, value) <==>
            Place(site, ValueDomain(value)).Placed? && Place(site, ValueDomain(value)).domain == site.host
    ensures Strays(site, value) <==>
            Place(site, ValueDomain(value)).Placed? && Place(site, ValueDomain(value)).domain != site.host
    ensures Rejected(site, value) <==> Place(site, ValueDomain(value)).Refused?
  {
  }

  lemma PlainValueStaysHome(site: Site, value: string)
    requires ';' !in value
    ensures StaysHome(site, value) && Place(site, ValueDomain(value)) == Placed(site.host, true)
  {
    PlainValueNamesNoDomain(value);
  }

  lemma {:induction false} ReceiveSet(site: Site, jar: Jar, name: string, value: string, maxAge: nat, path: string,
                                      secure: bool, defaultPath: string, now: int)
    requires PlainName(name) && PlainPath(path) && maxAge > 0
    ensures Receive(site, jar, [BuildSetCookie(name, value, maxAge, path, secure)], defaultPath, now) ==
            Put(site, jar, name, value, maxAge, path, now)
  {
    SetCookieReceived(name, value, maxAge, path, secure);
    var headers := [BuildSetCookie(name, value, maxAge, path, secure)];
    assert headers[1..] == [];
  }

  /** A clearing cookie removes the cookie of that name and path under the host itself, and no other. */
  lemma {:induction false} ReceiveClear(site: Site, jar: Jar, name: string, path: string, secure: bool,
                                        defaultPath: string, now: int)
    requires PlainName(name) && PlainPath(path)
    ensures Receive(site, jar, [BuildClearCookie(name, path, secure)], defaultPath, now) ==
            jar - {Key(name, site.host, path)}
  {
    ClearIsEmptyCookie(name, path, secure);
    SetCookieReceived(name, "", 0, path, secure);
    PlainValueStaysHome(site, "");
    var headers := [BuildClearCookie(name, path, secure)];
    assert headers[1..] == [];
  }

  /** Section 5.1.4: whether a stored path covers a request path. */
  predicate PathMatch(requestPath: string, cookiePath: string)
  {
    || requestPath == cookiePath
    || (&& cookiePath <= requestPath
        && |cookiePath| < |requestPath|
        && ((cookiePath != "" && cookiePath[|cookiePath| - 1] == '/') || requestPath[|cookiePath|] == '/'))
  }

  // ---- The Cookie header, section 5.4 ----

  /** Whether the cookie belongs into a request to this path of the site. */
  predicate Belongs(site: Site, key: Key, entry: Entry, requestPath: string, now: int)
  {
    && Live(entry, now) && PathMatch(requestPath, key.path)
    && if entry.hostOnly then key.domain == site.host else DomainMatch(site, key.domain)
  }

  /**
   `sent` lists exactly the cookies that belong into the request, in some order. The order of
   section 5.4 (longer paths first) is one of these.
   */
  ghost predicate Sends(site: Site, jar: Jar, requestPath: string, now: int, sent: seq<(string, string)>)
  {
    && (forall key | key in jar && Belongs(site, key, jar[key], requestPath, now) :: (key.name, jar[key].value) in sent)
    && (forall i | 0 <= i < |sent| :: SentFrom(site, jar, requestPath, now, sent[i]))
  }

  ghost predicate SentFrom(site: Site, jar: Jar, requestPath: string, now: int, pair: (string, string))
  {
    exists key :: key in jar && Belongs(site, key, jar[key], requestPath, now) && pair == (key.name, jar[key].value)
  }

  /** What a browser holds that evicts expired cookies at once, as section 5.3 asks. */
  function Evicted(jar: Jar, now: int): Jar
  {
    map key | key in jar && Live(jar[key], now) :: jar[key]
  }

  /** Eviction cannot be seen from outside: the same cookies are sent without it. */
  lemma EvictionIsUnseen(site: Site, jar: Jar, requestPath: string, now: int, sent: seq<(string, string)>)
    ensures Sends(site, jar, requestPath, now, sent) <==> Sends(site, Evicted(jar, now), requestPath, now, sent)
  {
    var held := Evicted(jar, now);
    assert forall key :: key in held <==> key in jar && Live(jar[key], now);
    forall pair ensures SentFrom(site, jar, requestPath, now, pair) <==> SentFrom(site, held, requestPath, now, pair) {
      if key :| key in jar && Belongs(site, key, jar[key], requestPath, now) && pair == (key.name, jar[key].value) {
        assert key in held;
      }
    }
  }

  /** Nor in what later responses and later times make of the jar. */
  lemma {:induction false} EvictionStaysUnseen(site: Site, a: Jar, b: Jar, headers: seq<string>, defaultPath: string,
                                               now: int, later: int)
    requires Evicted(a, now) == Evicted(b, now) && now <= later
    ensures Evicted(Receive(site, a, headers, defaultPath, now), later) ==
            Evicted(Receive(site, b, headers, defaultPath, now), later)
    decreases headers
  {
    if headers == [] {
      EvictedLater(a, now, later);
      EvictedLater(b, now, later);
    } else {
      var cookie := ParseSetCookie(headers[0]);
      if cookie.Some? {
        StoreEvicted(site, a, b, cookie.value, defaultPath, now);
      }
      EvictionStaysUnseen(site, ReceiveOne(site, a, headers[0], defaultPath, now),
                          ReceiveOne(site, b, headers[0], defaultPath, now), headers[1..], defaultPath, now, later);
    }
  }

  lemma EvictedLater(jar: Jar, now: int, later: int)
    requires now <= later
    ensures Evicted(jar, later) == Evicted(Evicted(jar, now), later)
  {
  }

  lemma StoreEvicted(site: Site, a: Jar, b: Jar, cookie: Received, defaultPath: string, now: int)
    requires Evicted(a, now) == Evicted(b, now)
    ensures Evicted(Store(site, a, cookie, defaultPath, now), now) ==
            Evicted(Store(site, b, cookie, defaultPath, now), now)
  {
    assert forall key :: key in a && Live(a[key], now) <==> key in Evicted(a, now);
    assert forall key :: key in b && Live(b[key], now) <==> key in Evicted(b, now);
    assert forall key | key in Evicted(a, now) :: a[key] == Evicted(a, now)[key] == b[key];
  }

  function Segments(sent: seq<(string, string)>): seq<string>
  {
    if sent == [] then [] else [Segment(sent[0].0, sent[0].1)] + Segments(sent[1..])
  }

  function CookieHeader(sent: seq<(string, string)>): string
  {
    Join(Segments(sent), "; ")
  }

  ghost predicate ProperPairs(sent: seq<(string, string)>)
  {
    forall i | 0 <= i < |sent| :: ProperName(sent[i].0) && ';' !in sent[i].1
  }

  lemma {:induction false} SegmentsAreClean(sent: seq<(string, string)>)
    requires ProperPairs(sent)
    ensures AllClean(Segments(sent))
  {
    if sent == [] {
    } else {
      RenderedIsClean(sent[0].0, sent[0].1);
      SegmentsAreClean(sent[1..]);
    }
  }

  function FirstSent(sent: seq<(string, string)>, name: string): Option<string>
  {
    if sent == [] then None
    else if sent[0].0 == name then Some(StripQuotes(sent[0].1))
    else FirstSent(sent[1..], name)
  }

  lemma {:induction false} LookupSegments(sent: seq<(string, string)>, name: string)
    requires ProperPairs(sent)
    requires '=' !in name
    ensures Lookup(Segments(sent), name) == FirstSent(sent, name)
  {
    if sent == [] {
    } else {
      LookupSegments(sent[1..], name);
      LookupRendered(sent[0].0, sent[0].1, name);
      LookupConcat([Segment(sent[0].0, sent[0].1)], Segments(sent[1..]), name);
    }
  }

  /** The gateway reads from a browser's header the first cookie sent under that name. */
  lemma {:induction false} ExtractSent(sent: seq<(string, string)>, name: string)
    requires ProperPairs(sent)
    requires '=' !in name
    ensures ExtractFromHeader(CookieHeader(sent), name) == FirstSent(sent, name)
  {
    SegmentsAreClean(sent);
    CookiesOfJoin(Segments(sent));
    ExtractIsLookup(CookieHeader(sent), name);
    LookupSegments(sent, name);
  }

  lemma {:induction false} FirstSentUnique(sent: seq<(string, string)>, name: string, value: string)
    requires forall i | 0 <= i < |sent| :: sent[i].0 == name ==> sent[i].1 == value
    ensures FirstSent(sent, name) == if (name, value) in sent then Some(StripQuotes(value)) else None
  {
    if sent == [] {
    } else {
      FirstSentUnique(sent[1..], name, value);
      assert sent == [sent[0]] + sent[1..];
    }
  }
}
