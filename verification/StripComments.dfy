/**
 Blanking the comments of a source text without moving anything else
 (apps/portal/__tests__/helpers/repo-scan.ts).
 */
module StripComments {
  import opened Wrappers

  // ---- The character state machine ----

  datatype State = Code | Line | Block | Single | Double | Template

  const SINGLE_QUOTE := '\''
  const DOUBLE_QUOTE := '\"'
  const BACKTICK := '`'
  const BACKSLASH := '\\'

  function Opened(c: char): State
  {
    if c == SINGLE_QUOTE then Single else if c == DOUBLE_QUOTE then Double else if c == BACKTICK then Template else Code
  }

  predicate Closes(st: State, c: char)
  {
    (st == Single && c == SINGLE_QUOTE) || (st == Double && c == DOUBLE_QUOTE) || (st == Template && c == BACKTICK)
  }

  function Blank(c: char): char
  {
    if c == '\n' then '\n' else ' '
  }

  predicate Starts(s: string, a: char, b: char)
  {
    |s| >= 2 && s[0] == a && s[1] == b
  }

  /** The output for what is left of the text, from a state. */
  function Strip(s: string, st: State): string
    decreases |s|
  {
    if s == "" then ""
    else if st == Code then
      if Starts(s, '/', '/') then [' ', ' '] + Strip(s[2..], Line)
      else if Starts(s, '/', '*') then [' ', ' '] + Strip(s[2..], Block)
      else [s[0]] + Strip(s[1..], Opened(s[0]))
    else if st == Line then [Blank(s[0])] + Strip(s[1..], if s[0] == '\n' then Code else Line)
    else if st == Block then
      if Starts(s, '*', '/') then [' ', ' '] + Strip(s[2..], Code) else [Blank(s[0])] + Strip(s[1..], Block)
    else if s[0] == BACKSLASH && st != Template then
      if |s| == 1 then [s[0]] else [s[0], s[1]] + Strip(s[2..], st)
    else [s[0]] + Strip(s[1..], if Closes(st, s[0]) then Code else st)
  }

  /** One turn of the machine: what it writes, as many characters as it reads, and the next state. */
  datatype Move = Move(out: string, next: State)

  /** One turn of the loop: what to push for the characters at `i`, and the next state. */
  method Turn(source: string, i: nat, st: State) returns (m: Move)
    requires i < |source|
    ensures 1 <= |m.out| <= |source| - i
    ensures Strip(source[i..], st) == m.out + Strip(source[i + |m.out|..], m.next)
  {
    var ch := source[i];
    var next := if i + 1 < |source| then Some(source[i + 1]) else None;
    ghost var rest := source[i..];
    assert rest[0] == ch && rest[1..] == source[i + 1..];
    assert next.Some? ==> rest[1] == next.value && rest[2..] == source[i + 2..];
    if st == Code {
      if ch == '/' && next == Some('/') {
        return Move([' ', ' '], Line);
      }
      if ch == '/' && next == Some('*') {
        return Move([' ', ' '], Block);
      }
      if ch == SINGLE_QUOTE {
        return Move([ch], Single);
      } else if ch == DOUBLE_QUOTE {
        return Move([ch], Double);
      } else if ch == BACKTICK {
        return Move([ch], Template);
      }
      return Move([ch], Code);
    }
    if st == Line {
      if ch == '\n' {
        return Move(['\n'], Code);
      }
      return Move([' '], Line);
    }
    if st == Block {
      if ch == '*' && next == Some('/') {
        return Move([' ', ' '], Code);
      }
      return Move(if ch == '\n' then ['\n'] else [' '], Block);
    }
    if ch == BACKSLASH && st != Template {
      if next.None? {
        assert source[i + 1..] == "";
        return Move([ch], st);
      }
      return Move([ch, next.value], st);
    }
    var closes := (st == Single && ch == SINGLE_QUOTE) || (st == Double && ch == DOUBLE_QUOTE) ||
                  (st == Template && ch == BACKTICK);
    if closes {
      return Move([ch], Code);
    }
    return Move([ch], st);
  }

  method StripSource(source: string) returns (result: string)
    ensures result == Strip(source, Code)
  {
    result := "";
    var st := Code;
    var i := 0;
    assert source[0..] == source;
    while i < |source|
      invariant 0 <= i <= |source|
      invariant Strip(source, Code) == result + Strip(source[i..], st)
    {
      var m := Turn(source, i, st);
      Regroup(result, m.out, Strip(source[i + |m.out|..], m.next));
      result, i, st := result + m.out, i + |m.out|, m.next;
    }
    assert source[i..] == "";
  }

  lemma Regroup(a: string, b: string, c: string)
    ensures a + (b + c) == a + b + c
  {
  }

  // ---- Nothing moves ----

  /** Same length, newlines in exactly the same places, and every other character kept or blanked. */
  ghost predicate OnlyBlanked(s: string, out: string)
  {
    |out| == |s| && forall i | 0 <= i < |s| :: (out[i] == '\n' <==> s[i] == '\n') && (out[i] == s[i] || out[i] == ' ')
  }

  lemma BlankedJoins(a: string, x: string, b: string, y: string)
    requires OnlyBlanked(a, x) && OnlyBlanked(b, y)
    ensures OnlyBlanked(a + b, x + y)
  {
  }

  lemma {:induction false} StripOnlyBlanks(s: string, st: State)
    ensures OnlyBlanked(s, Strip(s, st))
    decreases |s|, 1
  {
    if s == "" {
    } else if st == Code && (Starts(s, '/', '/') || Starts(s, '/', '*')) {
      TwoBlanked(s, if s[1] == '/' then Line else Block);
    } else if st == Block && Starts(s, '*', '/') {
      TwoBlanked(s, Code);
    } else if Escapes(st) && s[0] == BACKSLASH && |s| > 1 {
      StripOnlyBlanks(s[2..], st);
      assert s == [s[0], s[1]] + s[2..];
      BlankedJoins([s[0], s[1]], [s[0], s[1]], s[2..], Strip(s[2..], st));
    } else if st == Line || st == Block {
      OneBlanked(s, Blank(s[0]), if st == Line && s[0] == '\n' then Code else st);
    } else {
      OneBlanked(s, s[0], if st == Code then Opened(s[0]) else if Closes(st, s[0]) then Code else st);
    }
  }

  lemma {:induction false} OneBlanked(s: string, c: char, next: State)
    requires s != "" && (c == s[0] || c == Blank(s[0]))
    ensures OnlyBlanked(s, [c] + Strip(s[1..], next))
    decreases |s|, 0
  {
    StripOnlyBlanks(s[1..], next);
    assert s == [s[0]] + s[1..];
    BlankedJoins([s[0]], [c], s[1..], Strip(s[1..], next));
  }

  lemma {:induction false} TwoBlanked(s: string, next: State)
    requires |s| >= 2 && s[0] != '\n' && s[1] != '\n'
    ensures OnlyBlanked(s, [' ', ' '] + Strip(s[2..], next))
    decreases |s|, 0
  {
    StripOnlyBlanks(s[2..], next);
    assert s == s[..2] + s[2..];
    BlankedJoins(s[..2], [' ', ' '], s[2..], Strip(s[2..], next));
  }

  // ---- Idempotence ----

  /** The state in which the output is read again: comments have become white space in code. */
  function Reread(st: State): State
  {
    if st == Line || st == Block then Code else st
  }

  lemma {:induction false} TwoBlanks(rest: string)
    ensures Strip([' ', ' '] + rest, Code) == [' ', ' '] + Strip(rest, Code)
  {
    assert ([' ', ' '] + rest)[1..] == [' '] + rest;
    assert ([' '] + rest)[1..] == rest;
    assert [' ', ' '] + Strip(rest, Code) == [' '] + ([' '] + Strip(rest, Code));
  }

  /** A blanked character is read as code and written again. */
  lemma {:induction false} BlankIsKept(c: char, rest: string)
    ensures Strip([Blank(c)] + rest, Code) == [Blank(c)] + Strip(rest, Code)
  {
    KeepOne(Blank(c), rest, Code);
  }

  /** A slash that opened no comment opens none in the output. */
  lemma {:induction false} OutputStarts(s: string, st: State, c: char)
    requires c != ' ' && StartsWith(Strip(s, st), c)
    ensures StartsWith(s, c)
  {
    StripOnlyBlanks(s, st);
  }

  lemma CodeIsKept(s: string)
    requires s != "" && !Starts(s, '/', '/') && !Starts(s, '/', '*')
    ensures var rest := Strip(s[1..], Opened(s[0]));
            Strip([s[0]] + rest, Code) == [s[0]] + Strip(rest, Opened(s[0]))
  {
    var rest := Strip(s[1..], Opened(s[0]));
    if StartsWith(rest, '/') {
      OutputStarts(s[1..], Opened(s[0]), '/');
    }
    if StartsWith(rest, '*') {
      OutputStarts(s[1..], Opened(s[0]), '*');
    }
    KeepOne(s[0], rest, Code);
  }

  /** Stripping twice is stripping once. */
  lemma {:induction false} StripTwice(s: string, st: State)
    ensures Strip(Strip(s, st), Reread(st)) == Strip(s, st)
    decreases |s|, 1
  {
    if s == "" {
    } else if st == Code {
      StripTwiceInCode(s);
    } else if st == Line || st == Block {
      StripTwiceInComment(s, st);
    } else if s[0] == BACKSLASH && st != Template {
      if |s| > 1 {
        StripTwice(s[2..], st);
        KeepEscape(s[1], Strip(s[2..], st), st);
      }
    } else {
      var next := if Closes(st, s[0]) then Code else st;
      StripTwice(s[1..], next);
      KeepOne(s[0], Strip(s[1..], next), st);
    }
  }

  lemma {:induction false} StripTwiceInCode(s: string)
    requires s != ""
    ensures Strip(Strip(s, Code), Code) == Strip(s, Code)
    decreases |s|, 0
  {
    if Starts(s, '/', '/') || Starts(s, '/', '*') {
      var next := if s[1] == '/' then Line else Block;
      StripTwice(s[2..], next);
      TwoBlanks(Strip(s[2..], next));
    } else {
      StripTwice(s[1..], Opened(s[0]));
      CodeIsKept(s);
    }
  }

  lemma {:induction false} StripTwiceInComment(s: string, st: State)
    requires s != "" && (st == Line || st == Block)
    ensures Strip(Strip(s, st), Code) == Strip(s, st)
    decreases |s|, 0
  {
    if st == Block && Starts(s, '*', '/') {
      StripTwice(s[2..], Code);
      TwoBlanks(Strip(s[2..], Code));
    } else {
      var next := if st == Line && s[0] == '\n' then Code else st;
      StripTwice(s[1..], next);
      BlankIsKept(s[0], Strip(s[1..], next));
    }
  }

  // ---- What is a comment: tokens ----

  /** How a piece of template text ends: the closing backtick, the start of a substitution, the end of the text. */
  datatype End = Tick | Brace | Cut

  /**
   The lexical units of ECMAScript that matter here. A template is a chunk opened by a backtick; after a
   substitution its text goes on with a chunk opened by the closing brace.
   */
  datatype Token =
    | Plain(c: char)
    | Text(quote: char, body: string, closed: bool)
    | Chunk(opener: char, body: string, end: End)
    | LineComment(body: string)
    | BlockComment(body: string, closed: bool)

  predicate IsComment(t: Token)
  {
    t.LineComment? || t.BlockComment?
  }

  predicate IsQuote(c: char)
  {
    c == SINGLE_QUOTE || c == DOUBLE_QUOTE
  }

  function ClosingQuote(quote: char, closed: bool): string
  {
    if closed then [quote] else []
  }

  function ClosingMark(closed: bool): string
  {
    if closed then ['*', '/'] else []
  }

  function Ending(end: End): string
  {
    match end
    case Tick => [BACKTICK]
    case Brace => ['$', '{']
    case Cut => []
  }

  function Render(t: Token): string
  {
    match t
    case Plain(c) => [c]
    case Text(quote, body, closed) => [quote] + body + ClosingQuote(quote, closed)
    case Chunk(opener, body, end) => [opener] + body + Ending(end)
    case LineComment(body) => ['/', '/'] + body
    case BlockComment(body, closed) => ['/', '*'] + body + ClosingMark(closed)
  }

  function RenderAll(ts: seq<Token>): string
  {
    if ts == [] then "" else Render(ts[0]) + RenderAll(ts[1..])
  }

  function BlankAll(s: string): string
  {
    if s == "" then "" else [Blank(s[0])] + BlankAll(s[1..])
  }

  /** Comments become white space, everything else stays. */
  function Cleared(t: Token): string
  {
    if IsComment(t) then BlankAll(Render(t)) else Render(t)
  }

  function ClearedAll(ts: seq<Token>): string
  {
    if ts == [] then "" else Cleared(ts[0]) + ClearedAll(ts[1..])
  }

  /** The inside of a string: no bare quote; a backslash takes the next character with it. */
  predicate TextBody(quote: char, body: string, closed: bool)
    decreases |body|
  {
    if body == "" then true
    else if body[0] == BACKSLASH then
      if |body| == 1 then !closed else TextBody(quote, body[2..], closed)
    else body[0] != quote && TextBody(quote, body[1..], closed)
  }

  /** A piece of template text: no bare backtick or `${`; a backslash takes the next character with it. */
  predicate ChunkBody(body: string, end: End)
    decreases |body|
  {
    if body == "" then true
    else if body[0] == BACKSLASH then
      if |body| == 1 then end == Cut else ChunkBody(body[2..], end)
    else body[0] != BACKTICK && !Starts(body, '$', '{') && ChunkBody(body[1..], end)
  }

  /** The inside of a block comment: the closing mark does not come earlier. */
  predicate BlockBody(body: string, closed: bool)
  {
    if body == "" then true
    else !Starts(body + ClosingMark(closed), '*', '/') && BlockBody(body[1..], closed)
  }

  predicate StartsWith(s: string, c: char)
  {
    s != "" && s[0] == c
  }

  /** The substitutions a token stands in, innermost first: for each, how many braces are open inside it. */
  type Open = seq<nat>

  /** Whether a closing brace at this place ends a substitution. */
  predicate EndsSubstitution(open: Open)
  {
    open != [] && open[0] == 0
  }

  function Next(t: Token, open: Open): Open
  {
    match t
    case Plain(c) =>
      if open == [] then open
      else if c == '{' then [open[0] + 1] + open[1..]
      else if c == '}' && open[0] > 0 then [open[0] - 1] + open[1..]
      else open
    case Chunk(opener, _, end) =>
      if opener == BACKTICK then if end == Brace then [0] + open else open
      else if end == Tick && open != [] then open[1..] else open
    case _ => open
  }

  predicate TokenOk(t: Token, after: string, open: Open)
  {
    match t
    case Plain(c) =>
      && !IsQuote(c) && c != BACKTICK && !(c == '}' && EndsSubstitution(open))
      && (c == '/' ==> !StartsWith(after, '/') && !StartsWith(after, '*'))
    case Text(quote, body, closed) => IsQuote(quote) && TextBody(quote, body, closed) && (!closed ==> after == "")
    case Chunk(opener, body, end) =>
      && (opener == BACKTICK || (opener == '}' && EndsSubstitution(open)))
      && ChunkBody(body, end) && (end == Cut ==> after == "")
    case LineComment(body) => '\n' !in body && (after != "" ==> after[0] == '\n')
    case BlockComment(body, closed) => BlockBody(body, closed) && (!closed ==> after == "")
  }

  predicate TokensOk(ts: seq<Token>, open: Open)
  {
    ts == [] || (TokenOk(ts[0], RenderAll(ts[1..]), open) && TokensOk(ts[1..], Next(ts[0], open)))
  }

  /** The substitutions in which the token behind these stands. */
  function After(ts: seq<Token>, open: Open): Open
  {
    if ts == [] then open else After(ts[1..], Next(ts[0], open))
  }

  /** Opening less closing braces among the plain characters. */
  function OpenBraces(ts: seq<Token>): int
  {
    if ts == [] then 0
    else (if ts[0] == Plain('{') then 1 else if ts[0] == Plain('}') then -1 else 0) + OpenBraces(ts[1..])
  }

  /** Never more closing than opening braces, counting `n` opened before, and no template. */
  predicate Nested(ts: seq<Token>, n: int)
  {
    n >= 0 && (ts == [] || (!ts[0].Chunk? && Nested(ts[1..], n + OpenBraces(ts[..1]))))
  }

  /** Braces nest: inside a substitution a closing brace ends it exactly when all braces opened in it are closed. */
  lemma {:induction false} BracesNest(ts: seq<Token>, n: nat, outer: Open)
    requires Nested(ts, n)
    ensures After(ts, [n] + outer) == [n + OpenBraces(ts)] + outer
    ensures EndsSubstitution(After(ts, [n] + outer)) <==> n + OpenBraces(ts) == 0
  {
    if ts == [] {
    } else {
      var one := OpenBraces(ts[..1]);
      assert OpenBraces(ts[..1][1..]) == 0;
      BracesNest(ts[1..], n + one, outer);
      assert Next(ts[0], [n] + outer) == [n + one] + outer;
    }
  }

  /** A template begins and ends where it stands, and its substitution is one more level, with no brace open. */
  lemma TemplatesNest(head: string, middle: string, tail: string, open: Open)
    ensures Next(Chunk(BACKTICK, head, Tick), open) == open
    ensures Next(Chunk(BACKTICK, head, Brace), open) == [0] + open
    ensures Next(Chunk('}', middle, Brace), [0] + open) == [0] + open
    ensures Next(Chunk('}', tail, Tick), [0] + open) == open
    ensures Next(Plain('}'), []) == [] && !EndsSubstitution([])
  {
    assert ([0] + open)[1..] == open;
  }

  // ---- The machine on one token ----

  predicate Escapes(st: State)
  {
    st == Single || st == Double
  }

  /** A character that stays, in code or in a string. */
  lemma KeepOne(c: char, rest: string, st: State)
    requires st != Line && st != Block
    requires st == Code ==> c != '/' || (!StartsWith(rest, '/') && !StartsWith(rest, '*'))
    requires Escapes(st) ==> c != BACKSLASH
    ensures Strip([c] + rest, st) ==
            [c] + Strip(rest, if st == Code then Opened(c) else if Closes(st, c) then Code else st)
  {
    assert ([c] + rest)[1..] == rest;
  }

  lemma {:induction false} KeepEscape(c: char, rest: string, st: State)
    requires Escapes(st)
    ensures Strip([BACKSLASH, c] + rest, st) == [BACKSLASH, c] + Strip(rest, st)
  {
    assert ([BACKSLASH, c] + rest)[2..] == rest;
  }

  lemma {:induction false} BlankOne(c: char, rest: string, st: State)
    requires (st == Line && c != '\n') || (st == Block && !(c == '*' && StartsWith(rest, '/')))
    ensures Strip([c] + rest, st) == [Blank(c)] + Strip(rest, st)
  {
    assert ([c] + rest)[1..] == rest;
  }

  lemma {:induction false} CommentOpens(mark: string, rest: string, next: State)
    requires (mark == ['/', '/'] && next == Line) || (mark == ['/', '*'] && next == Block)
    ensures Strip(mark + rest, Code) == [' ', ' '] + Strip(rest, next)
  {
    assert (mark + rest)[2..] == rest;
  }

  lemma {:induction false} CommentCloses(rest: string)
    ensures Strip(['*', '/'] + rest, Block) == [' ', ' '] + Strip(rest, Code)
  {
    assert (['*', '/'] + rest)[2..] == rest;
  }

  lemma {:induction false} LineEnds(after: string)
    requires after != "" ==> after[0] == '\n'
    ensures Strip(after, Line) == Strip(after, Code)
  {
  }

  /** From inside a string to behind it. */
  lemma {:induction false} StripThroughText(quote: char, body: string, closed: bool, after: string)
    requires IsQuote(quote) && TextBody(quote, body, closed) && (!closed ==> after == "")
    ensures Strip(body + (ClosingQuote(quote, closed) + after), Opened(quote)) ==
            body + (ClosingQuote(quote, closed) + Strip(after, Code))
    decreases |body|
  {
    var tail, out := ClosingQuote(quote, closed) + after, ClosingQuote(quote, closed) + Strip(after, Code);
    if body == "" {
      assert body + tail == tail && body + out == out;
      if closed {
        KeepOne(quote, after, Opened(quote));
      }
    } else if body[0] == BACKSLASH {
      if |body| == 1 {
        assert body + tail == [BACKSLASH] && body + out == [BACKSLASH];
      } else {
        StripThroughText(quote, body[2..], closed, after);
        KeepEscape(body[1], body[2..] + tail, Opened(quote));
        SplitFront(body, 2, tail);
        SplitFront(body, 2, out);
        assert body[..2] == [BACKSLASH, body[1]];
      }
    } else {
      StripThroughText(quote, body[1..], closed, after);
      KeepOne(body[0], body[1..] + tail, Opened(quote));
      SplitFront(body, 1, tail);
      SplitFront(body, 1, out);
      assert body[..1] == [body[0]];
    }
  }

  lemma SplitFront(body: string, n: nat, tail: string)
    requires n <= |body|
    ensures body + tail == body[..n] + (body[n..] + tail)
  {
  }

  /** In a template the machine keeps everything up to the next backtick, whatever it is. */
  lemma {:induction false} StripInTemplate(text: string, after: string)
    requires BACKTICK !in text
    ensures Strip(text + after, Template) == text + Strip(after, Template)
  {
    if text == "" {
      assert text + after == after && text + Strip(after, Template) == Strip(after, Template);
    } else {
      StripInTemplate(text[1..], after);
      KeepOne(text[0], text[1..] + after, Template);
      SplitFront(text, 1, after);
      SplitFront(text, 1, Strip(after, Template));
      assert text[..1] == [text[0]];
    }
  }

  lemma {:induction false} StripThroughLine(body: string, after: string)
    requires '\n' !in body && (after != "" ==> after[0] == '\n')
    ensures Strip(body + after, Line) == BlankAll(body) + Strip(after, Code)
    decreases |body|
  {
    if body == "" {
      assert body + after == after;
      LineEnds(after);
    } else {
      StripThroughLine(body[1..], after);
      BlankOne(body[0], body[1..] + after, Line);
      SplitFront(body, 1, after);
      assert body[..1] == [body[0]];
      Regroup([Blank(body[0])], BlankAll(body[1..]), Strip(after, Code));
    }
  }

  lemma {:induction false} StripThroughBlock(body: string, closed: bool, after: string)
    requires BlockBody(body, closed) && (!closed ==> after == "")
    ensures Strip(body + (ClosingMark(closed) + after), Block) ==
            BlankAll(body) + (BlankAll(ClosingMark(closed)) + Strip(after, Code))
    decreases |body|
  {
    var tail, out := ClosingMark(closed) + after, BlankAll(ClosingMark(closed)) + Strip(after, Code);
    if body == "" {
      assert body + tail == tail && BlankAll(body) + out == out;
      BlankMark(['*', '/']);
      if closed {
        CommentCloses(after);
      }
    } else {
      StripThroughBlock(body[1..], closed, after);
      assert StartsWith(body[1..] + tail, '/') == Starts([body[0]] + (body[1..] + tail), body[0], '/');
      assert Starts(body + ClosingMark(closed), '*', '/') == (body[0] == '*' && StartsWith(body[1..] + tail, '/'));
      BlankOne(body[0], body[1..] + tail, Block);
      SplitFront(body, 1, tail);
      assert body[..1] == [body[0]];
      Regroup([Blank(body[0])], BlankAll(body[1..]), out);
    }
  }

  lemma {:induction false} BlankMark(mark: string)
    requires |mark| == 2 && mark[0] != '\n' && mark[1] != '\n'
    ensures BlankAll(mark) == [' ', ' ']
  {
    assert mark[1..] == [mark[1]];
    assert BlankAll(mark[1..]) == [' '];
  }

  lemma {:induction false} BlankAllJoins(a: string, b: string)
    ensures BlankAll(a + b) == BlankAll(a) + BlankAll(b)
  {
    if a == "" {
      assert a + b == b;
    } else {
      assert (a + b)[1..] == a[1..] + b;
      BlankAllJoins(a[1..], b);
    }
  }

  lemma {:induction false} StripText(quote: char, body: string, closed: bool, after: string)
    requires TokenOk(Text(quote, body, closed), after, [])
    ensures Strip(Render(Text(quote, body, closed)) + after, Code) ==
            Render(Text(quote, body, closed)) + Strip(after, Code)
  {
    var close := ClosingQuote(quote, closed);
    KeepOne(quote, body + (close + after), Code);
    StripThroughText(quote, body, closed, after);
    Reassociate([quote], body, close, after);
    Reassociate([quote], body, close, Strip(after, Code));
  }

  lemma Reassociate(a: string, b: string, c: string, d: string)
    ensures a + (b + (c + d)) == a + b + c + d
  {
  }

  lemma {:induction false} StripLine(body: string, after: string)
    requires TokenOk(LineComment(body), after, [])
    ensures Strip(Render(LineComment(body)) + after, Code) == BlankAll(Render(LineComment(body))) + Strip(after, Code)
  {
    Regroup(['/', '/'], body, after);
    CommentOpens(['/', '/'], body + after, Line);
    StripThroughLine(body, after);
    BlankAllJoins(['/', '/'], body);
    BlankMark(['/', '/']);
    Regroup([' ', ' '], BlankAll(body), Strip(after, Code));
  }

  lemma {:induction false} StripBlock(body: string, closed: bool, after: string)
    requires TokenOk(BlockComment(body, closed), after, [])
    ensures Strip(Render(BlockComment(body, closed)) + after, Code) ==
            BlankAll(Render(BlockComment(body, closed))) + Strip(after, Code)
  {
    var close := ClosingMark(closed);
    Reassociate(['/', '*'], body, close, after);
    CommentOpens(['/', '*'], body + (close + after), Block);
    StripThroughBlock(body, closed, after);
    BlankAllJoins(['/', '*'] + body, close);
    BlankAllJoins(['/', '*'], body);
    BlankMark(['/', '*']);
    Reassociate([' ', ' '], BlankAll(body), BlankAll(close), Strip(after, Code));
  }

  // ---- Templates without hidden backticks ----

  /** Inside a template the only backtick is the one that closes it: none is escaped, none belongs to a nested token. */
  predicate TickFree(t: Token, open: Open)
  {
    if t.Chunk? then BACKTICK !in t.body && (t.opener == BACKTICK ==> open == [])
    else open == [] || BACKTICK !in Render(t)
  }

  predicate TicksPlain(ts: seq<Token>, open: Open)
  {
    ts == [] || (TickFree(ts[0], open) && TicksPlain(ts[1..], Next(ts[0], open)))
  }

  /** No comment stands in a substitution. */
  predicate NoInnerComment(ts: seq<Token>, open: Open)
  {
    ts == [] || ((open == [] || !IsComment(ts[0])) && NoInnerComment(ts[1..], Next(ts[0], open)))
  }

  /** The machine does not look into templates: outside a token is cleared, in a substitution it stays. */
  function Kept(t: Token, open: Open): string
  {
    if open == [] then Cleared(t) else Render(t)
  }

  function KeptAll(ts: seq<Token>, open: Open): string
  {
    if ts == [] then "" else Kept(ts[0], open) + KeptAll(ts[1..], Next(ts[0], open))
  }

  function StateIn(open: Open): State
  {
    if open == [] then Code else Template
  }

  lemma StripChunkEnd(end: End, after: string)
    requires end == Cut ==> after == ""
    ensures Strip(Ending(end) + after, Template) ==
            Ending(end) + Strip(after, if end == Tick then Code else Template)
  {
    match end {
      case Tick => KeepOne(BACKTICK, after, Template);
      case Brace => StripInTemplate(['$', '{'], after);
      case Cut => assert Ending(end) + after == "";
    }
  }

  lemma StripChunk(opener: char, body: string, end: End, after: string, open: Open)
    requires TokenOk(Chunk(opener, body, end), after, open) && TickFree(Chunk(opener, body, end), open) && |open| <= 1
    ensures Strip(Render(Chunk(opener, body, end)) + after, StateIn(open)) ==
            Render(Chunk(opener, body, end)) + Strip(after, if end == Tick then Code else Template)
  {
    var rest := body + (Ending(end) + after);
    KeepOne(opener, rest, StateIn(open));
    StripInTemplate(body, Ending(end) + after);
    StripChunkEnd(end, after);
    Reassociate([opener], body, Ending(end), after);
    Reassociate([opener], body, Ending(end), Strip(after, if end == Tick then Code else Template));
  }

  lemma {:induction false} StripToken(t: Token, after: string, open: Open)
    requires TokenOk(t, after, open) && TickFree(t, open) && |open| <= 1
    ensures Strip(Render(t) + after, StateIn(open)) == Kept(t, open) + Strip(after, StateIn(Next(t, open)))
  {
    if t.Chunk? {
      StripChunk(t.opener, t.body, t.end, after, open);
      assert t.end == Cut ==> after == "";
    } else if open != [] {
      StripInTemplate(Render(t), after);
    } else {
      match t {
        case Plain(c) => KeepOne(c, after, Code);
        case Text(quote, body, closed) => StripText(quote, body, closed, after);
        case LineComment(body) => StripLine(body, after);
        case BlockComment(body, closed) => StripBlock(body, closed, after);
      }
    }
  }

  lemma {:induction false} StripKeeps(ts: seq<Token>, open: Open)
    requires TokensOk(ts, open) && TicksPlain(ts, open) && |open| <= 1
    ensures Strip(RenderAll(ts), StateIn(open)) == KeptAll(ts, open)
  {
    if ts == [] {
    } else {
      StripToken(ts[0], RenderAll(ts[1..]), open);
      StripKeeps(ts[1..], Next(ts[0], open));
    }
  }

  lemma {:induction false} BlankAllLength(s: string)
    ensures |BlankAll(s)| == |s|
  {
    if s == "" {
    } else {
      BlankAllLength(s[1..]);
    }
  }

  lemma ClearedDiffers(t: Token)
    ensures |Cleared(t)| == |Render(t)|
    ensures IsComment(t) ==> Cleared(t) != Render(t)
  {
    BlankAllLength(Render(t));
    if IsComment(t) {
      assert Render(t)[0] == '/' && Cleared(t)[0] == ' ';
    }
  }

  lemma SameFronts(a: string, b: string, c: string, d: string)
    requires |a| == |c|
    ensures a + b == c + d <==> a == c && b == d
  {
    if a + b == c + d {
      assert (a + b)[..|a|] == a && (c + d)[..|a|] == c;
      assert (a + b)[|a|..] == b && (c + d)[|a|..] == d;
    }
  }

  lemma {:induction false} KeptIsCleared(ts: seq<Token>, open: Open)
    ensures KeptAll(ts, open) == ClearedAll(ts) <==> NoInnerComment(ts, open)
  {
    if ts == [] {
    } else {
      var t, next := ts[0], Next(ts[0], open);
      KeptIsCleared(ts[1..], next);
      ClearedDiffers(t);
      SameFronts(Kept(t, open), KeptAll(ts[1..], next), Cleared(t), ClearedAll(ts[1..]));
    }
  }

  /**
   Where no template hides a backtick: stripping blanks the comments and keeps code, strings and templates as
   they are if and only if no comment stands in a substitution.
   */
  lemma {:induction false} StripClearsComments(ts: seq<Token>)
    requires TokensOk(ts, []) && TicksPlain(ts, [])
    ensures Strip(RenderAll(ts), Code) == ClearedAll(ts) <==> NoInnerComment(ts, [])
  {
    StripKeeps(ts, []);
    KeptIsCleared(ts, []);
  }

  // ---- Every text is made of tokens, in one way ----

  /** Length of the string body at the start of the text. */
  function TextLength(quote: char, s: string): (n: nat)
    ensures n <= |s|
    decreases |s|
  {
    if s == "" || (s[0] == quote && s[0] != BACKSLASH) then 0
    else if s[0] == BACKSLASH then if |s| == 1 then 1 else 2 + TextLength(quote, s[2..])
    else 1 + TextLength(quote, s[1..])
  }

  /** Length of the template text at the start of the text. */
  function ChunkLength(s: string): (n: nat)
    ensures n <= |s|
    decreases |s|
  {
    if s == "" || s[0] == BACKTICK || Starts(s, '$', '{') then 0
    else if s[0] == BACKSLASH then if |s| == 1 then 1 else 2 + ChunkLength(s[2..])
    else 1 + ChunkLength(s[1..])
  }

  function EndAt(s: string, n: nat): End
    requires n <= |s|
  {
    if n == |s| then Cut else if s[n] == BACKTICK then Tick else Brace
  }

  function LineLength(s: string): (n: nat)
    ensures n <= |s| && '\n' !in s[..n] && (n < |s| ==> s[n] == '\n')
  {
    if s == "" || s[0] == '\n' then 0 else 1 + LineLength(s[1..])
  }

  function BlockLength(s: string): (n: nat)
    ensures n <= |s| && (n < |s| ==> n + 2 <= |s| && s[n] == '*' && s[n + 1] == '/')
  {
    if s == "" || Starts(s, '*', '/') then 0 else 1 + BlockLength(s[1..])
  }

  lemma {:induction false} TextIsBody(quote: char, s: string)
    requires IsQuote(quote)
    ensures var n := TextLength(quote, s);
            (n < |s| ==> s[n] == quote) && TextBody(quote, s[..n], n < |s|)
    decreases |s|
  {
    var n := TextLength(quote, s);
    if n == 0 {
    } else if s[0] == BACKSLASH {
      if |s| == 1 {
        assert s[..n] == s;
      } else {
        TextIsBody(quote, s[2..]);
        assert s[..n][2..] == s[2..][..n - 2];
      }
    } else {
      TextIsBody(quote, s[1..]);
      assert s[..n][1..] == s[1..][..n - 1];
    }
  }

  lemma {:induction false} ChunkIsBody(s: string)
    ensures var n := ChunkLength(s);
            && (n < |s| ==> s[n] == BACKTICK || (n + 1 < |s| && s[n] == '$' && s[n + 1] == '{'))
            && ChunkBody(s[..n], EndAt(s, n))
    decreases |s|
  {
    var n := ChunkLength(s);
    if n == 0 {
    } else if s[0] == BACKSLASH {
      if |s| == 1 {
        assert s[..n] == s;
      } else {
        ChunkIsBody(s[2..]);
        assert s[..n][2..] == s[2..][..n - 2];
      }
    } else {
      ChunkIsBody(s[1..]);
      assert s[..n][1..] == s[1..][..n - 1];
    }
  }

  lemma {:induction false} BlockIsBody(s: string)
    ensures var n := BlockLength(s); BlockBody(s[..n], n < |s|)
    decreases |s|
  {
    var n := BlockLength(s);
    if n == 0 {
    } else {
      BlockIsBody(s[1..]);
      assert s[..n][1..] == s[1..][..n - 1];
    }
  }

  /** The piece of template text behind its opening character, and what follows it. */
  function ChunkAt(opener: char, rest: string): (Token, string)
  {
    var n := ChunkLength(rest);
    var end := EndAt(rest, n);
    ChunkIsBody(rest);
    (Chunk(opener, rest[..n], end), rest[n + |Ending(end)|..])
  }

  /** First token and what follows it. */
  function FirstToken(s: string, open: Open): (Token, string)
    requires s != ""
  {
    if Starts(s, '/', '/') then
      var n := LineLength(s[2..]);
      (LineComment(s[2..][..n]), s[2..][n..])
    else if Starts(s, '/', '*') then
      var n := BlockLength(s[2..]);
      var closed := n < |s| - 2;
      (BlockComment(s[2..][..n], closed), if closed then s[2..][n + 2..] else "")
    else if IsQuote(s[0]) then
      var n := TextLength(s[0], s[1..]);
      var closed := n < |s| - 1;
      (Text(s[0], s[1..][..n], closed), if closed then s[1..][n + 1..] else "")
    else if s[0] == BACKTICK || (s[0] == '}' && EndsSubstitution(open)) then
      ChunkAt(s[0], s[1..])
    else (Plain(s[0]), s[1..])
  }

  lemma CutOut(front: string, body: string, n: nat, middle: string)
    requires n + |middle| <= |body| && body[n..n + |middle|] == middle
    ensures front + body == front + body[..n] + middle + body[n + |middle|..]
  {
    assert body == body[..n] + middle + body[n + |middle|..];
  }

  lemma {:induction false} FirstText(quote: char, body: string, open: Open)
    requires IsQuote(quote)
    ensures var n := TextLength(quote, body);
            var t := Text(quote, body[..n], n < |body|);
            var after := if n < |body| then body[n + 1..] else "";
            [quote] + body == Render(t) + after && TokenOk(t, after, open)
  {
    TextIsBody(quote, body);
    var n := TextLength(quote, body);
    var close := ClosingQuote(quote, n < |body|);
    assert body[n..n + |close|] == close;
    CutOut([quote], body, n, close);
  }

  lemma {:induction false} FirstChunk(opener: char, body: string, n: nat, end: End, open: Open)
    requires opener == BACKTICK || (opener == '}' && EndsSubstitution(open))
    requires n == ChunkLength(body) && end == EndAt(body, n)
    ensures n + |Ending(end)| <= |body|
    ensures [opener] + body == Render(Chunk(opener, body[..n], end)) + body[n + |Ending(end)|..]
    ensures TokenOk(Chunk(opener, body[..n], end), body[n + |Ending(end)|..], open)
  {
    ChunkIsBody(body);
    ChunkEnds(body, n);
    ChunkRenders(opener, body, n);
    ChunkIsOk(opener, body[..n], end, body[n + |Ending(end)|..], open);
  }

  lemma {:induction false} ChunkIsOk(opener: char, text: string, end: End, after: string, open: Open)
    requires opener == BACKTICK || (opener == '}' && EndsSubstitution(open))
    requires ChunkBody(text, end) && (end == Cut ==> after == "")
    ensures TokenOk(Chunk(opener, text, end), after, open)
  {
  }

  lemma ChunkEnds(body: string, n: nat)
    requires n <= |body|
    requires n < |body| ==> body[n] == BACKTICK || (n + 1 < |body| && body[n] == '$' && body[n + 1] == '{')
    ensures var end := EndAt(body, n);
            && n + |Ending(end)| <= |body| && body[n..n + |Ending(end)|] == Ending(end)
            && (end == Cut ==> body[n + |Ending(end)|..] == "")
  {
  }

  lemma ChunkRenders(opener: char, body: string, n: nat)
    requires n <= |body|
    requires n < |body| ==> body[n] == BACKTICK || (n + 1 < |body| && body[n] == '$' && body[n + 1] == '{')
    ensures var end := EndAt(body, n);
            && n + |Ending(end)| <= |body|
            && [opener] + body == Render(Chunk(opener, body[..n], end)) + body[n + |Ending(end)|..]
  {
    ChunkEnds(body, n);
    CutOut([opener], body, n, Ending(EndAt(body, n)));
  }

  lemma {:induction false} FirstBlock(body: string, open: Open)
    ensures var n := BlockLength(body);
            var t := BlockComment(body[..n], n < |body|);
            (n < |body| ==> n + 2 <= |body|) &&
            var after := if n < |body| then body[n + 2..] else "";
            ['/', '*'] + body == Render(t) + after && TokenOk(t, after, open)
  {
    BlockIsBody(body);
    BlockRenders(body, BlockLength(body));
  }

  lemma BlockRenders(body: string, n: nat)
    requires n == |body| || (n + 2 <= |body| && body[n] == '*' && body[n + 1] == '/')
    ensures ['/', '*'] + body == Render(BlockComment(body[..n], n < |body|)) + if n < |body| then body[n + 2..] else ""
  {
    var close := ClosingMark(n < |body|);
    assert body[n..n + |close|] == close;
    CutOut(['/', '*'], body, n, close);
  }

  lemma {:induction false} FirstLine(body: string, open: Open)
    ensures var n := LineLength(body);
            && ['/', '/'] + body == Render(LineComment(body[..n])) + body[n..]
            && TokenOk(LineComment(body[..n]), body[n..], open)
  {
    assert body == body[..LineLength(body)] + body[LineLength(body)..];
  }

  ghost predicate FirstOk(s: string, open: Open)
    requires s != ""
  {
    var (t, after) := FirstToken(s, open);
    s == Render(t) + after && |after| < |s| && TokenOk(t, after, open)
  }

  lemma CommentComesFirst(s: string, open: Open)
    requires Starts(s, '/', '/') || Starts(s, '/', '*')
    ensures FirstOk(s, open)
  {
    if Starts(s, '/', '/') {
      FirstLine(s[2..], open);
      assert s == ['/', '/'] + s[2..];
    } else {
      FirstBlock(s[2..], open);
      assert s == ['/', '*'] + s[2..];
    }
  }

  lemma TextComesFirst(s: string, open: Open)
    requires s != "" && IsQuote(s[0])
    ensures FirstOk(s, open)
  {
    FirstText(s[0], s[1..], open);
    assert s == [s[0]] + s[1..];
  }

  lemma ChunkComesFirst(s: string, open: Open)
    requires s != "" && (s[0] == BACKTICK || (s[0] == '}' && EndsSubstitution(open)))
    ensures FirstOk(s, open)
  {
    var n := ChunkLength(s[1..]);
    FirstChunk(s[0], s[1..], n, EndAt(s[1..], n), open);
    assert s == [s[0]] + s[1..];
  }

  lemma FirstTokenIsOk(s: string, open: Open)
    requires s != ""
    ensures FirstOk(s, open)
  {
    if Starts(s, '/', '/') || Starts(s, '/', '*') {
      CommentComesFirst(s, open);
    } else if IsQuote(s[0]) {
      TextComesFirst(s, open);
    } else if s[0] == BACKTICK || (s[0] == '}' && EndsSubstitution(open)) {
      ChunkComesFirst(s, open);
    } else {
      assert s == [s[0]] + s[1..];
    }
  }

  function Lex(s: string, open: Open): seq<Token>
    decreases |s|
  {
    if s == "" then []
    else
      FirstTokenIsOk(s, open);
      var (t, after) := FirstToken(s, open);
      [t] + Lex(after, Next(t, open))
  }

  /** Every text is a sequence of tokens. */
  lemma {:induction false} LexIsExact(s: string, open: Open)
    ensures RenderAll(Lex(s, open)) == s && TokensOk(Lex(s, open), open)
    decreases |s|
  {
    if s == "" {
    } else {
      FirstTokenIsOk(s, open);
      var (t, after) := FirstToken(s, open);
      LexIsExact(after, Next(t, open));
      assert Lex(s, open)[1..] == Lex(after, Next(t, open));
    }
  }

  lemma {:induction false} TextLengthOf(quote: char, body: string, closed: bool, after: string)
    requires IsQuote(quote) && TextBody(quote, body, closed) && (!closed ==> after == "")
    ensures TextLength(quote, body + (ClosingQuote(quote, closed) + after)) == |body|
    decreases |body|
  {
    var tail := ClosingQuote(quote, closed) + after;
    var s := body + tail;
    if body == "" {
      assert s == tail && (s != "" ==> s[0] == quote);
    } else if body[0] == BACKSLASH {
      assert s[0] == BACKSLASH;
      if |body| == 1 {
        assert s == body;
      } else {
        TextLengthOf(quote, body[2..], closed, after);
        assert s[2..] == body[2..] + tail;
      }
    } else {
      TextLengthOf(quote, body[1..], closed, after);
      assert s[1..] == body[1..] + tail;
    }
  }

  lemma {:induction false} ChunkLengthOf(body: string, end: End, after: string)
    requires ChunkBody(body, end) && (end == Cut ==> after == "")
    ensures ChunkLength(body + (Ending(end) + after)) == |body|
    decreases |body|
  {
    var tail := Ending(end) + after;
    var s := body + tail;
    if body == "" {
      assert s == tail;
    } else if body[0] == BACKSLASH {
      if |body| == 1 {
        assert s == body;
      } else {
        ChunkLengthOf(body[2..], end, after);
        assert s[2..] == body[2..] + tail;
      }
    } else {
      ChunkLengthOf(body[1..], end, after);
      assert s[1..] == body[1..] + tail;
      assert !Starts(s, '$', '{') by {
        assert |body| == 1 && tail != "" ==> s[1] == tail[0] && tail[0] != '{';
      }
    }
  }

  lemma {:induction false} LineLengthOf(body: string, after: string)
    requires '\n' !in body && (after != "" ==> after[0] == '\n')
    ensures LineLength(body + after) == |body|
  {
    if body == "" {
      assert body + after == after;
    } else {
      LineLengthOf(body[1..], after);
      assert (body + after)[1..] == body[1..] + after;
    }
  }

  lemma StartsAlike(body: string, closed: bool, after: string)
    requires body != "" && (!closed ==> after == "")
    ensures Starts(body + (ClosingMark(closed) + after), '*', '/') == Starts(body + ClosingMark(closed), '*', '/')
  {
    var front := body + ClosingMark(closed);
    assert body + (ClosingMark(closed) + after) == front + after;
    assert |front| == 1 ==> front + after == front;
  }

  lemma {:induction false} BlockLengthStep(s: string)
    requires s != "" && !Starts(s, '*', '/')
    ensures BlockLength(s) == 1 + BlockLength(s[1..])
  {
  }

  lemma {:induction false} BlockLengthOfMark(closed: bool, after: string)
    requires !closed ==> after == ""
    ensures BlockLength(ClosingMark(closed) + after) == 0
  {
  }

  lemma {:induction false} BlockLengthOf(body: string, closed: bool, after: string)
    requires BlockBody(body, closed) && (!closed ==> after == "")
    ensures BlockLength(body + (ClosingMark(closed) + after)) == |body|
  {
    var s := body + (ClosingMark(closed) + after);
    if body == "" {
      assert s == ClosingMark(closed) + after;
      BlockLengthOfMark(closed, after);
    } else {
      BlockLengthOf(body[1..], closed, after);
      assert s[1..] == body[1..] + (ClosingMark(closed) + after);
      StartsAlike(body, closed, after);
      BlockLengthStep(s);
    }
  }

  lemma CutBack(front: string, body: string, middle: string, after: string)
    ensures var s := front + body + middle + after;
            && s[|front|..] == body + (middle + after)
            && s[|front|..][..|body|] == body
            && s[|front|..][|body| + |middle|..] == after
  {
  }

  lemma FirstOfText(t: Token, after: string, open: Open)
    requires t.Text? && TokenOk(t, after, open)
    ensures FirstToken(Render(t) + after, open) == (t, after)
  {
    var close := ClosingQuote(t.quote, t.closed);
    TextLengthOf(t.quote, t.body, t.closed, after);
    CutBack([t.quote], t.body, close, after);
  }

  lemma ChunkIsRead(s: string, open: Open)
    requires s != "" && (s[0] == BACKTICK || (s[0] == '}' && EndsSubstitution(open)))
    ensures FirstToken(s, open) == ChunkAt(s[0], s[1..])
  {
  }

  lemma ChunkEndsThere(body: string, end: End, after: string)
    requires end == Cut ==> after == ""
    ensures EndAt(body + (Ending(end) + after), |body|) == end
  {
    var tail := Ending(end) + after;
    assert tail != "" ==> (body + tail)[|body|] == tail[0];
  }

  lemma FirstOfChunk(t: Token, after: string, open: Open)
    requires t.Chunk? && TokenOk(t, after, open)
    ensures FirstToken(Render(t) + after, open) == (t, after)
  {
    var rest := t.body + (Ending(t.end) + after);
    ChunkLengthOf(t.body, t.end, after);
    ChunkEndsThere(t.body, t.end, after);
    Reassociate([t.opener], t.body, Ending(t.end), after);
    assert (Render(t) + after)[1..] == rest;
    ChunkIsRead(Render(t) + after, open);
    assert rest[..|t.body|] == t.body && rest[|t.body| + |Ending(t.end)|..] == after;
  }

  lemma FirstOfLine(body: string, after: string, open: Open)
    requires TokenOk(LineComment(body), after, open)
    ensures FirstToken(Render(LineComment(body)) + after, open) == (LineComment(body), after)
  {
    LineLengthOf(body, after);
    var s := ['/', '/'] + body + after;
    assert s[2..] == body + after;
  }

  lemma FirstOfBlock(body: string, closed: bool, after: string, open: Open)
    requires TokenOk(BlockComment(body, closed), after, open)
    ensures FirstToken(Render(BlockComment(body, closed)) + after, open) == (BlockComment(body, closed), after)
  {
    BlockLengthOf(body, closed, after);
    CutBack(['/', '*'], body, ClosingMark(closed), after);
  }

  lemma FirstOfToken(t: Token, after: string, open: Open)
    requires TokenOk(t, after, open)
    ensures Render(t) + after != "" && FirstToken(Render(t) + after, open) == (t, after)
  {
    if t.Plain? {
      var s := [t.c] + after;
      assert s[1..] == after;
    } else if t.Text? {
      FirstOfText(t, after, open);
    } else if t.Chunk? {
      FirstOfChunk(t, after, open);
    } else if t.LineComment? {
      FirstOfLine(t.body, after, open);
    } else {
      FirstOfBlock(t.body, t.closed, after, open);
    }
  }

  /** The reading is unique: tokens are found again in the text they make up. */
  lemma {:induction false} LexOfRender(ts: seq<Token>, open: Open)
    requires TokensOk(ts, open)
    ensures Lex(RenderAll(ts), open) == ts
  {
    if ts == [] {
    } else {
      FirstOfToken(ts[0], RenderAll(ts[1..]), open);
      LexOfRender(ts[1..], Next(ts[0], open));
    }
  }

  /** A text whose templates hide no backtick and whose substitutions hold no comment. */
  predicate Tame(s: string)
  {
    TicksPlain(Lex(s, []), []) && NoInnerComment(Lex(s, []), [])
  }

  /**
   For every source text: it consists of tokens in exactly one way, and of a tame one stripping keeps all
   tokens except that comments become white space of the same shape.
   */
  lemma {:induction false} EveryTextIsCleared(s: string)
    ensures TokensOk(Lex(s, []), []) && RenderAll(Lex(s, [])) == s
    ensures forall ts :: TokensOk(ts, []) && RenderAll(ts) == s ==> ts == Lex(s, [])
    ensures Tame(s) ==> Strip(s, Code) == ClearedAll(Lex(s, []))
  {
    LexIsExact(s, []);
    forall ts | TokensOk(ts, []) && RenderAll(ts) == s ensures ts == Lex(s, []) {
      LexOfRender(ts, []);
    }
    if Tame(s) {
      StripClearsComments(Lex(s, []));
    }
  }

  // ---- No comment is left ----

  function Blanks(s: string): seq<Token>
  {
    if s == "" then [] else [Plain(Blank(s[0]))] + Blanks(s[1..])
  }

  /** The tokens of the stripped text: white space where a comment was. */
  function Blanked(ts: seq<Token>): seq<Token>
  {
    if ts == [] then []
    else (if IsComment(ts[0]) then Blanks(Render(ts[0])) else [ts[0]]) + Blanked(ts[1..])
  }

  lemma {:induction false} BlanksAreRead(s: string, rest: seq<Token>, open: Open)
    requires TokensOk(rest, open)
    ensures TokensOk(Blanks(s) + rest, open)
    ensures RenderAll(Blanks(s) + rest) == BlankAll(s) + RenderAll(rest)
  {
    if s == "" {
      assert Blanks(s) + rest == rest;
    } else {
      BlanksAreRead(s[1..], rest, open);
      OneMoreBlank(s[0], Blanks(s[1..]) + rest, open);
      assert Blanks(s) + rest == [Plain(Blank(s[0]))] + (Blanks(s[1..]) + rest);
      Regroup([Blank(s[0])], BlankAll(s[1..]), RenderAll(rest));
    }
  }

  lemma {:induction false} OneMoreBlank(c: char, ts: seq<Token>, open: Open)
    requires TokensOk(ts, open)
    ensures TokensOk([Plain(Blank(c))] + ts, open)
    ensures RenderAll([Plain(Blank(c))] + ts) == [Blank(c)] + RenderAll(ts)
  {
    assert ([Plain(Blank(c))] + ts)[1..] == ts;
  }

  lemma {:induction false} BlankedHasNoComments(ts: seq<Token>)
    ensures forall t | t in Blanked(ts) :: !IsComment(t)
  {
    if ts == [] {
    } else {
      BlanksArePlain(Render(ts[0]));
      BlankedHasNoComments(ts[1..]);
    }
  }

  lemma {:induction false} BlanksArePlain(s: string)
    ensures forall t | t in Blanks(s) :: t.Plain?
  {
    if s == "" {
    } else {
      BlanksArePlain(s[1..]);
    }
  }

  lemma {:induction false} ClearedStarts(ts: seq<Token>)
    ensures ClearedAll(ts) == "" <==> RenderAll(ts) == ""
    ensures StartsWith(ClearedAll(ts), '/') ==> StartsWith(RenderAll(ts), '/')
    ensures StartsWith(ClearedAll(ts), '*') ==> StartsWith(RenderAll(ts), '*')
  {
    if ts != [] {
      assert Render(ts[0]) != "";
      assert IsComment(ts[0]) ==> Cleared(ts[0])[0] == ' ';
    }
  }

  lemma {:induction false} BlankedIsRead(ts: seq<Token>, open: Open)
    requires TokensOk(ts, open)
    ensures TokensOk(Blanked(ts), open) && RenderAll(Blanked(ts)) == ClearedAll(ts)
  {
    if ts == [] {
    } else {
      var t, rest, next := ts[0], Blanked(ts[1..]), Next(ts[0], open);
      BlankedIsRead(ts[1..], next);
      if IsComment(t) {
        BlanksAreRead(Render(t), rest, open);
      } else {
        ClearedStarts(ts[1..]);
        assert ([t] + rest)[1..] == rest;
        StillOk(t, RenderAll(ts[1..]), ClearedAll(ts[1..]), open);
      }
    }
  }

  lemma StillOk(t: Token, before: string, after: string, open: Open)
    requires TokenOk(t, before, open) && !IsComment(t)
    requires before == "" ==> after == ""
    requires StartsWith(after, '/') ==> StartsWith(before, '/')
    requires StartsWith(after, '*') ==> StartsWith(before, '*')
    ensures TokenOk(t, after, open)
  {
  }

  /** No comment is left of a tame text: however the stripped text is read as tokens, none is a comment. */
  lemma {:induction false} NoCommentIsLeft(s: string, ts: seq<Token>)
    requires Tame(s) && TokensOk(ts, []) && RenderAll(ts) == Strip(s, Code)
    ensures forall t | t in ts :: !IsComment(t)
  {
    EveryTextIsCleared(s);
    BlankedIsRead(Lex(s, []), []);
    LexOfRender(ts, []);
    LexOfRender(Blanked(Lex(s, [])), []);
    BlankedHasNoComments(Lex(s, []));
  }

  // ---- Escaped backticks ----

  /** A template that starts with an escaped backtick. */
  function EscapedTick(text: string): Token
  {
    Chunk(BACKTICK, [BACKSLASH, BACKTICK] + text, Tick)
  }

  /** Behind an escaped backtick the machine reads the template as code: two slashes blank the rest of the line. */
  lemma {:induction false} EscapedTickLosesBody(line: string)
    requires '\n' !in line && BACKTICK !in line && BACKSLASH !in line && '$' !in line
    ensures var t := EscapedTick(['/', '/'] + line);
            && Lex(Render(t), []) == [t]
            && Strip(Render(t), Code) == [BACKTICK, BACKSLASH, BACKTICK] + BlankAll(['/', '/'] + line + [BACKTICK])
            && Strip(Render(t), Code) != ClearedAll([t])
  {
    EscapedTickIsBody(['/', '/'] + line);
    OnlyToken(EscapedTick(['/', '/'] + line));
    EscapedTickStrips(line, Render(EscapedTick(['/', '/'] + line)));
  }

  lemma {:induction false} EscapedTickStrips(line: string, whole: string)
    requires '\n' !in line && whole == Render(EscapedTick(['/', '/'] + line))
    ensures Strip(whole, Code) == [BACKTICK, BACKSLASH, BACKTICK] + BlankAll(['/', '/'] + line + [BACKTICK]) != whole
  {
    var mark, comment := [BACKTICK, BACKSLASH, BACKTICK], ['/', '/'] + line + [BACKTICK];
    RenderOfEscapedTick(['/', '/'] + line);
    ThroughEscapedTick(comment);
    assert ['/', '/'] + (line + [BACKTICK]) == comment;
    StripOnlyLine(line + [BACKTICK]);
    SameFronts(mark, comment, mark, BlankAll(comment));
  }

  lemma RenderOfEscapedTick(text: string)
    ensures Render(EscapedTick(text)) == [BACKTICK, BACKSLASH, BACKTICK] + (text + [BACKTICK])
  {
  }

  lemma {:induction false} StripOnlyLine(body: string)
    requires '\n' !in body
    ensures Strip(['/', '/'] + body, Code) == BlankAll(['/', '/'] + body) != ['/', '/'] + body
  {
    var comment := ['/', '/'] + body;
    StripLine(body, "");
    assert comment + "" == comment && BlankAll(comment) + Strip("", Code) == BlankAll(comment);
    assert BlankAll(comment)[0] == ' ';
  }

  lemma OnlyToken(t: Token)
    requires TokenOk(t, "", [])
    ensures Lex(Render(t), []) == [t] && RenderAll([t]) == Render(t) && ClearedAll([t]) == Cleared(t)
  {
    assert [t][1..] == [] && Render(t) + "" == Render(t) && Cleared(t) + "" == Cleared(t);
    LexOfRender([t], []);
  }

  lemma {:induction false} PlainIsChunk(text: string, end: End)
    requires BACKTICK !in text && BACKSLASH !in text && '$' !in text
    ensures ChunkBody(text, end)
  {
    if text == "" {
    } else {
      PlainIsChunk(text[1..], end);
    }
  }

  lemma {:induction false} EscapedTickIsBody(text: string)
    requires BACKTICK !in text && BACKSLASH !in text && '$' !in text
    ensures ChunkBody([BACKSLASH, BACKTICK] + text, Tick)
  {
    PlainIsChunk(text, Tick);
    assert ([BACKSLASH, BACKTICK] + text)[2..] == text;
  }

  lemma {:induction false} ThroughEscapedTick(after: string)
    ensures Strip([BACKTICK, BACKSLASH, BACKTICK] + after, Code) ==
            [BACKTICK, BACKSLASH, BACKTICK] + Strip(after, Code)
  {
    var ticks := [BACKSLASH, BACKTICK];
    StripInTemplate([BACKSLASH], [BACKTICK] + after);
    KeepOne(BACKTICK, after, Template);
    KeepOne(BACKTICK, [BACKSLASH] + ([BACKTICK] + after), Code);
    assert [BACKTICK, BACKSLASH, BACKTICK] + after == [BACKTICK] + ([BACKSLASH] + ([BACKTICK] + after));
  }

  /** And behind the end of that template it reads code as a template: every comment up to the next backtick stays. */
  lemma EscapedTickKeepsComments(t: Token, comment: string)
    requires t == Chunk(BACKTICK, [BACKSLASH, BACKTICK], Tick)
    requires '\n' !in comment && BACKTICK !in comment
    ensures var ts := [t, LineComment(comment)];
            Lex(RenderAll(ts), []) == ts && Strip(RenderAll(ts), Code) == RenderAll(ts)
  {
    var u := LineComment(comment);
    assert TokenOk(u, "", []);
    EscapedTickIsBody("");
    assert [BACKSLASH, BACKTICK] + "" == [BACKSLASH, BACKTICK];
    TwoTokens(t, u);
    OpensTemplate(RenderAll([t, u]), Render(u));
  }

  lemma TwoTokens(t: Token, u: Token)
    requires TokenOk(t, Render(u), []) && TokenOk(u, "", []) && Next(t, []) == []
    ensures RenderAll([t, u]) == Render(t) + Render(u) && Lex(RenderAll([t, u]), []) == [t, u]
  {
    OnlyToken(u);
    assert [t, u][1..] == [u] && [u][1..] == [];
    LexOfRender([t, u], []);
  }

  lemma {:induction false} OpensTemplate(whole: string, text: string)
    requires BACKTICK !in text && whole == [BACKTICK, BACKSLASH, BACKTICK, BACKTICK] + text
    ensures Strip(whole, Code) == whole
  {
    assert whole == [BACKTICK, BACKSLASH, BACKTICK] + ([BACKTICK] + text);
    ThroughEscapedTick([BACKTICK] + text);
    KeepOne(BACKTICK, text, Code);
    StripInTemplate(text, "");
    assert text + "" == text;
  }

  function Ticks(body: string): nat
  {
    if body == "" then 0 else (if body[0] == BACKTICK then 1 else 0) + Ticks(body[1..])
  }

  /** Between its odd and even backticks, where the machine sees code, the text has no quote and no slash. */
  predicate PlainBetweenTicks(body: string, inCode: bool)
  {
    if body == "" then true
    else if body[0] == BACKTICK then PlainBetweenTicks(body[1..], !inCode)
    else (inCode ==> !IsQuote(body[0]) && body[0] != '/') && PlainBetweenTicks(body[1..], inCode)
  }

  lemma {:induction false} ThroughTicks(body: string, inCode: bool, after: string)
    requires PlainBetweenTicks(body, inCode)
    ensures Strip(body + after, if inCode then Code else Template) ==
            body + Strip(after, if inCode == (Ticks(body) % 2 == 0) then Code else Template)
  {
    var rest := Strip(after, if inCode == (Ticks(body) % 2 == 0) then Code else Template);
    if body == "" {
      assert body + after == after && body + rest == rest;
    } else {
      var tail, next := body[1..], inCode != (body[0] == BACKTICK);
      ThroughTicks(tail, next, after);
      assert next == (Ticks(tail) % 2 == 0) <==> inCode == (Ticks(body) % 2 == 0);
      OneThrough(body[0], inCode, tail + after);
      SplitFront(body, 1, after);
      SplitFront(body, 1, rest);
      assert body[..1] == [body[0]];
    }
  }

  lemma OneThrough(c: char, inCode: bool, rest: string)
    requires inCode ==> !IsQuote(c) && c != '/'
    ensures Strip([c] + rest, if inCode then Code else Template) ==
            [c] + Strip(rest, if inCode == (c != BACKTICK) then Code else Template)
  {
    KeepOne(c, rest, if inCode then Code else Template);
  }

  /** Whatever follows, the text stays and what follows is read as code. */
  ghost predicate StaysEverywhere(text: string)
  {
    forall after :: Strip(text + after, Code) == text + Strip(after, Code)
  }

  /** What the machine does first from a state. */
  function FirstMove(s: string, st: State): (m: Move)
    requires s != ""
    ensures 1 <= |m.out| <= |s|
  {
    if st == Code then
      if Starts(s, '/', '/') then Move([' ', ' '], Line)
      else if Starts(s, '/', '*') then Move([' ', ' '], Block)
      else Move([s[0]], Opened(s[0]))
    else if st == Line then Move([Blank(s[0])], if s[0] == '\n' then Code else Line)
    else if st == Block then
      if Starts(s, '*', '/') then Move([' ', ' '], Code) else Move([Blank(s[0])], Block)
    else if s[0] == BACKSLASH && st != Template then Move(if |s| == 1 then [s[0]] else [s[0], s[1]], st)
    else Move([s[0]], if Closes(st, s[0]) then Code else st)
  }

  lemma {:induction false} StripMoves(s: string, st: State)
    requires s != ""
    ensures var m := FirstMove(s, st); Strip(s, st) == m.out + Strip(s[|m.out|..], m.next)
  {
  }

  /** The state in which the machine has read the whole text. */
  function Reads(s: string, st: State): State
    decreases |s|
  {
    if s == "" then st
    else
      var m := FirstMove(s, st);
      Reads(s[|m.out|..], m.next)
  }

  predicate EndsInTick(s: string)
  {
    s != "" && s[|s| - 1] == BACKTICK
  }

  /** No move straddles the end of a text that ends in a backtick. */
  lemma MovesStayInside(s: string, after: string, st: State)
    requires EndsInTick(s)
    ensures FirstMove(s + after, st) == FirstMove(s, st)
  {
  }

  lemma {:induction false} ReadsOn(s: string, after: string, st: State)
    requires s == "" || EndsInTick(s)
    ensures Strip(s + after, st) == Strip(s, st) + Strip(after, Reads(s, st))
    decreases |s|
  {
    if s == "" {
      assert s + after == after;
    } else {
      var m := FirstMove(s, st);
      var n := |m.out|;
      MovesStayInside(s, after, st);
      StripMoves(s, st);
      StripMoves(s + after, st);
      assert (s + after)[n..] == s[n..] + after;
      ReadsOn(s[n..], after, m.next);
      Regroup(m.out, Strip(s[n..], m.next), Strip(after, Reads(s, st)));
    }
  }

  /** Some continuation tells any other state from code. */
  lemma OtherStatesShow(st: State)
    requires st != Code
    ensures exists after :: Strip(after, st) != Strip(after, Code)
  {
    if st == Line || st == Block {
      assert Strip("x", st)[0] == ' ' && Strip("x", Code)[0] == 'x';
    } else {
      StripMoves("//", st);
      StripMoves("//", Code);
      assert Strip("//", st)[0] == '/' && Strip("//", Code)[0] == ' ';
    }
  }

  /**
   A text that ends in a backtick, such as any complete template with its substitutions and the templates nested
   in them, stays in every surrounding text if and only if the machine keeps it on its own and ends in code.
   */
  lemma {:induction false} StaysIffReadBack(text: string)
    requires EndsInTick(text)
    ensures StaysEverywhere(text) <==> Strip(text, Code) == text && Reads(text, Code) == Code
  {
    if StaysEverywhere(text) {
      StaysMeansReadBack(text);
    }
    if Strip(text, Code) == text && Reads(text, Code) == Code {
      forall after ensures Strip(text + after, Code) == text + Strip(after, Code) {
        ReadsOn(text, after, Code);
      }
    }
  }

  lemma {:induction false} StaysMeansReadBack(text: string)
    requires EndsInTick(text) && StaysEverywhere(text)
    ensures Strip(text, Code) == text && Reads(text, Code) == Code
  {
    assert Strip(text + "", Code) == text + Strip("", Code) && text + "" == text;
    if Reads(text, Code) != Code {
      OtherStatesShow(Reads(text, Code));
      var after :| Strip(after, Reads(text, Code)) != Strip(after, Code);
      ReadsOn(text, after, Code);
      SameFronts(text, Strip(after, Reads(text, Code)), text, Strip(after, Code));
    }
  }

  /**
   A template whose escaped backticks enclose no quote and no slash stays in every surrounding text if and only
   if it has an even number of them.
   */
  lemma {:induction false} TemplateStaysIffTicksEven(body: string)
    requires ChunkBody(body, Tick) && PlainBetweenTicks(body, false)
    ensures StaysEverywhere(Render(Chunk(BACKTICK, body, Tick))) <==> Ticks(body) % 2 == 0
  {
    var text := Render(Chunk(BACKTICK, body, Tick));
    forall after: string
      ensures Strip(text + after, Code) == text + Strip(after, if Ticks(body) % 2 == 0 then Code else Template)
    {
      TemplateLeaves(body, after);
    }
    if Ticks(body) % 2 == 1 {
      var comment := ['/', '/'];
      assert Strip(text + comment, Code) == text + Strip(comment, Template);
      CommentOpens(comment, "", Line);
      StripInTemplate(comment, "");
      assert comment + "" == comment;
      SameFronts(text, Strip(comment, Template), text, Strip(comment, Code));
    }
  }

  lemma TemplateLeaves(body: string, after: string)
    requires PlainBetweenTicks(body, false)
    ensures var text := Render(Chunk(BACKTICK, body, Tick));
            Strip(text + after, Code) == text + Strip(after, if Ticks(body) % 2 == 0 then Code else Template)
  {
    var st := if Ticks(body) % 2 == 0 then Template else Code;
    var tail := [BACKTICK] + after;
    KeepOne(BACKTICK, body + tail, Code);
    ThroughTicks(body, false, tail);
    KeepOne(BACKTICK, after, st);
    Reassociate([BACKTICK], body, [BACKTICK], after);
    Reassociate([BACKTICK], body, [BACKTICK], Strip(after, if st == Template then Code else Template));
  }
}
