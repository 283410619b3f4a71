/** countBraces of internal/yara/validator.go, against a lexer that cuts a rule into segments. */
module YaraLexer {

  datatype Kind = Code | Quoted | LineComment | BlockComment

  datatype Segment = Segment(kind: Kind, text: string)

  // ---- The reference lexer ----

  /** `s` starts with the two characters. */
  predicate Head(s: string, x: char, y: char) {
    |s| >= 2 && s[0] == x && s[1] == y
  }

  /** A comment or a string starts at the head of `s`. */
  predicate Opens(s: string) {
    Head(s, '/', '/') || Head(s, '/', '*') || (s != "" && s[0] == '"')
  }

  /** Length of the plain code at the head of `s`. */
  function CodeLength(s: string): (n: nat)
    ensures n <= |s|
  {
    if s == "" || Opens(s) then 0 else 1 + CodeLength(s[1..])
  }

  /** Length up to and with the first newline, or to the end. */
  function LineLength(s: string): (n: nat)
    ensures n <= |s|
  {
    if s == "" then 0 else if s[0] == '\n' then 1 else 1 + LineLength(s[1..])
  }

  /** Length up to and with the first closing mark, or to the end. */
  function BlockLength(s: string): (n: nat)
    ensures n <= |s|
  {
    if s == "" then 0 else if Head(s, '*', '/') then 2 else 1 + BlockLength(s[1..])
  }

  /** Length up to and with the first quote that is not escaped, or to the end. */
  function QuotedLength(s: string): (n: nat)
    ensures n <= |s|
    decreases |s|
  {
    if s == "" then 0
    else if s[0] == '"' then 1
    else if s[0] == '\\' && |s| >= 2 then 2 + QuotedLength(s[2..])
    else 1 + QuotedLength(s[1..])
  }

  function First(s: string): (seg: Segment)
    requires s != ""
    ensures seg.text != "" && seg.text <= s
  {
    if Head(s, '/', '/') then Segment(LineComment, s[..2 + LineLength(s[2..])])
    else if Head(s, '/', '*') then Segment(BlockComment, s[..2 + BlockLength(s[2..])])
    else if s[0] == '"' then Segment(Quoted, s[..1 + QuotedLength(s[1..])])
    else Segment(Code, s[..1 + CodeLength(s[1..])])
  }

  function Lex(s: string): seq<Segment>
    decreases |s|
  {
    if s == "" then [] else [First(s)] + Lex(s[|First(s).text|..])
  }

  function Texts(segs: seq<Segment>): string {
    if segs == [] then "" else segs[0].text + Texts(segs[1..])
  }

  function Occurrences(s: string, c: char): nat {
    if s == "" then 0 else (if s[0] == c then 1 else 0) + Occurrences(s[1..], c)
  }

  /** How often `c` stands in code. */
  function InCode(segs: seq<Segment>, c: char): nat {
    if segs == [] then 0
    else (if segs[0].kind == Code then Occurrences(segs[0].text, c) else 0) + InCode(segs[1..], c)
  }

  lemma TextsCons(seg: Segment, segs: seq<Segment>)
    ensures Texts([seg] + segs) == seg.text + Texts(segs)
  {
    assert ([seg] + segs)[1..] == segs;
  }

  lemma PrefixAndRest(p: string, s: string)
    requires p <= s
    ensures p + s[|p|..] == s
  {
  }

  /** The segments are a partition of the input. */
  lemma {:induction false} LexConcatenates(s: string)
    ensures Texts(Lex(s)) == s
    decreases |s|
  {
    if s != "" {
      var first, tail := First(s), s[|First(s).text|..];
      LexConcatenates(tail);
      TextsCons(first, Lex(tail));
      PrefixAndRest(first.text, s);
    }
  }

  // ---- The automaton, one character or mark at a time ----

  datatype Mode = InPlain | InLine | InBlock | InString(escaped: bool)

  function Advance(m: Mode, s: string): (Mode, nat)
    requires s != ""
  {
    match m
    case InLine => (if s[0] == '\n' then InPlain else InLine, 1)
    case InBlock => if Head(s, '*', '/') then (InPlain, 2) else (InBlock, 1)
    case InString(escaped) =>
      (if escaped then InString(false) else if s[0] == '\\' then InString(true)
       else if s[0] == '"' then InPlain else InString(false), 1)
    case InPlain =>
      if Head(s, '/', '/') then (InLine, 2) else if Head(s, '/', '*') then (InBlock, 2)
      else if s[0] == '"' then (InString(false), 1) else (InPlain, 1)
  }

  /** How often `c`, a brace, is counted from here on. */
  function Count(m: Mode, s: string, c: char): nat
    decreases |s|
  {
    if s == "" then 0
    else
      var (next, n) := Advance(m, s);
      (if m == next == InPlain && s[0] == c then 1 else 0) + Count(next, s[n..], c)
  }

  predicate IsBrace(c: char) {
    c == '{' || c == '}'
  }

  lemma CountStep(m: Mode, s: string, c: char)
    requires s != ""
    ensures var (next, n) := Advance(m, s);
            n <= |s| && Count(m, s, c) == (if m == next == InPlain && s[0] == c then 1 else 0) + Count(next, s[n..], c)
  {
  }

  lemma {:induction false} CountLine(s: string, c: char)
    ensures Count(InLine, s, c) == Count(InPlain, s[LineLength(s)..], c)
  {
    if s != "" && s[0] != '\n' {
      CountLine(s[1..], c);
      assert s[1..][LineLength(s[1..])..] == s[LineLength(s)..];
    }
  }

  lemma {:induction false} CountBlock(s: string, c: char)
    ensures Count(InBlock, s, c) == Count(InPlain, s[BlockLength(s)..], c)
  {
    if s != "" && !Head(s, '*', '/') {
      CountBlock(s[1..], c);
      assert s[1..][BlockLength(s[1..])..] == s[BlockLength(s)..];
    }
  }

  lemma {:induction false} CountQuoted(s: string, c: char)
    ensures Count(InString(false), s, c) == Count(InPlain, s[QuotedLength(s)..], c)
    decreases |s|
  {
    if s == "" || s[0] == '"' {
    } else if s[0] == '\\' {
      CountStep(InString(false), s, c);
      if |s| >= 2 {
        CountStep(InString(true), s[1..], c);
        assert s[1..][1..] == s[2..];
        CountQuoted(s[2..], c);
        assert s[2..][QuotedLength(s[2..])..] == s[QuotedLength(s)..];
      }
    } else {
      CountQuoted(s[1..], c);
      assert s[1..][QuotedLength(s[1..])..] == s[QuotedLength(s)..];
    }
  }

  lemma {:induction false} CountCode(s: string, c: char)
    ensures Count(InPlain, s, c) ==
            Occurrences(s[..CodeLength(s)], c) + Count(InPlain, s[CodeLength(s)..], c)
  {
    if s == "" || Opens(s) {
      assert s[..0] == "" && s[0..] == s;
    } else {
      var n := CodeLength(s[1..]);
      CountCode(s[1..], c);
      assert s[1..][n..] == s[n + 1..] && s[..n + 1][1..] == s[1..][..n];
    }
  }

  lemma SkipComment(s: string, c: char)
    requires IsBrace(c) && (Head(s, '/', '/') || Head(s, '/', '*'))
    ensures Count(InPlain, s, c) == Count(InPlain, s[|First(s).text|..], c)
  {
    CountStep(InPlain, s, c);
    var n := |First(s).text|;
    if Head(s, '/', '/') {
      CountLine(s[2..], c);
    } else {
      CountBlock(s[2..], c);
    }
    assert s[2..][n - 2..] == s[n..];
  }

  lemma SkipQuoted(s: string, c: char)
    requires IsBrace(c) && s != "" && s[0] == '"'
    ensures First(s).kind == Quoted
    ensures Count(InPlain, s, c) == Count(InPlain, s[|First(s).text|..], c)
  {
    CountStep(InPlain, s, c);
    CountQuoted(s[1..], c);
    assert s[1..][|First(s).text| - 1..] == s[|First(s).text|..];
  }

  /** The automaton counts exactly the braces in code segments. */
  lemma {:induction false} CountIsLexical(s: string, c: char)
    requires IsBrace(c)
    ensures Count(InPlain, s, c) == InCode(Lex(s), c)
    decreases |s|
  {
    if s != "" {
      var tail := s[|First(s).text|..];
      CountIsLexical(tail, c);
      assert Lex(s)[1..] == Lex(tail);
      if Head(s, '/', '/') || Head(s, '/', '*') {
        SkipComment(s, c);
      } else if s[0] == '"' {
        SkipQuoted(s, c);
      } else {
        CountCode(s, c);
      }
    }
  }

  // ---- The loop ----

  /** `Advance` in terms of the index. */
  function AdvanceAt(m: Mode, s: string, i: nat): (Mode, nat)
    requires i < |s|
  {
    var next := if i + 1 < |s| then s[i + 1] else '\0';
    match m
    case InLine => (if s[i] == '\n' then InPlain else InLine, 1)
    case InBlock => if s[i] == '*' && next == '/' then (InPlain, 2) else (InBlock, 1)
    case InString(escaped) =>
      (if escaped then InString(false) else if s[i] == '\\' then InString(true)
       else if s[i] == '"' then InPlain else InString(false), 1)
    case InPlain =>
      if s[i] == '/' && next == '/' then (InLine, 2) else if s[i] == '/' && next == '*' then (InBlock, 2)
      else if s[i] == '"' then (InString(false), 1) else (InPlain, 1)
  }

  lemma AdvanceIndexed(m: Mode, s: string, i: nat)
    requires i < |s|
    ensures Advance(m, s[i..]) == AdvanceAt(m, s, i)
    ensures i + AdvanceAt(m, s, i).1 <= |s|
  {
    assert i + 1 < |s| ==> s[i..][1] == s[i + 1];
  }

  lemma CountAt(m: Mode, s: string, i: nat, c: char)
    requires i < |s|
    ensures var (next, n) := AdvanceAt(m, s, i);
            && i + n <= |s|
            && Count(m, s[i..], c) == (if m == next == InPlain && s[i] == c then 1 else 0) + Count(next, s[i + n..], c)
  {
    AdvanceIndexed(m, s, i);
    CountStep(m, s[i..], c);
    assert s[i..][AdvanceAt(m, s, i).1..] == s[i + AdvanceAt(m, s, i).1..];
  }

  /** How often `c`, a brace, is still counted from index `i` on. */
  function Tally(s: string, i: nat, m: Mode, c: char): nat
    decreases |s| - i
  {
    if i >= |s| then 0
    else
      var (next, n) := AdvanceAt(m, s, i);
      (if m == next == InPlain && s[i] == c then 1 else 0) + Tally(s, i + n, next, c)
  }

  lemma {:induction false} TallyIsCount(s: string, i: nat, m: Mode, c: char)
    requires i <= |s|
    ensures Tally(s, i, m, c) == Count(m, s[i..], c)
    decreases |s| - i
  {
    if i < |s| {
      var (next, n) := AdvanceAt(m, s, i);
      CountAt(m, s, i, c);
      TallyIsCount(s, i + n, next, c);
    }
  }

  lemma TallyIsLexical(s: string, c: char)
    requires IsBrace(c)
    ensures Tally(s, 0, InPlain, c) == InCode(Lex(s), c)
  {
    TallyIsCount(s, 0, InPlain, c);
    assert s[0..] == s;
    CountIsLexical(s, c);
  }

  function ModeOf(inString: bool, inLineComment: bool, inBlockComment: bool, escaped: bool): Mode {
    if inLineComment then InLine else if inBlockComment then InBlock
    else if inString then InString(escaped) else InPlain
  }

  /** One pass with four flags: the opening and the closing braces in code. */
  method CountBraces(s: string) returns (openCount: nat, closeCount: nat)
    ensures openCount == InCode(Lex(s), '{') && closeCount == InCode(Lex(s), '}')
  {
    openCount, closeCount := 0, 0;
    var inString, inLineComment, inBlockComment, escaped := false, false, false, false;
    var i, n := 0, |s|;
    while i < n
      invariant 0 <= i <= n
      invariant var mode := ModeOf(inString, inLineComment, inBlockComment, escaped);
                && openCount + Tally(s, i, mode, '{') == Tally(s, 0, InPlain, '{')
                && closeCount + Tally(s, i, mode, '}') == Tally(s, 0, InPlain, '}')
      invariant !(inString && (inLineComment || inBlockComment)) && !(inLineComment && inBlockComment)
    {
      var c := s[i];
      if inLineComment {
        if c == '\n' {
          inLineComment := false;
        }
      } else if inBlockComment {
        if c == '*' && i + 1 < n && s[i + 1] == '/' {
          inBlockComment := false;
          i := i + 1;
        }
      } else if inString {
        if escaped {
          escaped := false;
        } else if c == '\\' {
          escaped := true;
        } else if c == '"' {
          inString := false;
        }
      } else if c == '/' && i + 1 < n && s[i + 1] == '/' {
        inLineComment := true;
        i := i + 1;
      } else if c == '/' && i + 1 < n && s[i + 1] == '*' {
        inBlockComment := true;
        i := i + 1;
      } else if c == '"' {
        inString, escaped := true, false;
      } else if c == '{' {
        openCount := openCount + 1;
      } else if c == '}' {
        closeCount := closeCount + 1;
      }
      i := i + 1;
    }
    TallyIsLexical(s, '{');
    TallyIsLexical(s, '}');
  }

  /** The brace check of ValidateRule. */
  method BracesBalanced(content: string) returns (ok: bool)
    ensures ok <==> InCode(Lex(content), '{') == InCode(Lex(content), '}') > 0
  {
    var open, close := CountBraces(content);
    ok := open != 0 && open == close;
  }

  // ---- Inserting a comment ----

  /** The mode after `s`. */
  function Final(m: Mode, s: string): Mode
    decreases |s|
  {
    if s == "" then m else var (next, n) := Advance(m, s); Final(next, s[n..])
  }

  /** The last character of `s` is a slash, and it is code. */
  predicate PlainSlash(m: Mode, s: string)
    decreases |s|
  {
    s != "" &&
    var (next, n) := Advance(m, s);
    if n == |s| then m == next == InPlain && s[0] == '/' else PlainSlash(next, s[n..])
  }

  lemma DropFront(a: string, b: string, n: nat)
    requires n <= |a|
    ensures (a + b)[n..] == a[n..] + b
  {
  }

  /** What follows does not change the first step. */
  lemma FirstStep(m: Mode, a: string, b: string)
    requires a != "" && Final(m, a) == InPlain && !PlainSlash(m, a)
    ensures Advance(m, a + b) == Advance(m, a) && Advance(m, a).1 <= |a|
  {
    assert (a + b)[0] == a[0];
    if |a| == 1 {
      assert a[Advance(m, a).1..] == "";
    } else {
      assert (a + b)[1] == a[1];
    }
  }

  lemma {:induction false} CountSplit(m: Mode, a: string, b: string, c: char)
    requires Final(m, a) == InPlain && !PlainSlash(m, a)
    ensures Count(m, a + b, c) == Count(m, a, c) + Count(InPlain, b, c)
    decreases |a|
  {
    if a == "" {
      assert a + b == b;
    } else {
      var (next, n) := Advance(m, a);
      FirstStep(m, a, b);
      DropFront(a, b, n);
      CountSplit(next, a[n..], b, c);
      CountStep(m, a, c);
      CountStep(m, a + b, c);
    }
  }

  /** `body` does not close the comment it stands in. */
  predicate Unclosed(body: string) {
    forall i :: 0 <= i < |body| - 1 ==> !(body[i] == '*' && body[i + 1] == '/')
  }

  lemma {:induction false} BlockLengthOf(body: string, b: string)
    requires Unclosed(body)
    ensures BlockLength(body + "*/" + b) == |body| + 2
  {
    var s := body + "*/" + b;
    if body == "" {
      assert s[0] == '*' && s[1] == '/';
    } else {
      assert s[1..] == body[1..] + "*/" + b;
      assert s[0] == body[0] && s[1] == if |body| > 1 then body[1] else '*';
      BlockLengthOf(body[1..], b);
    }
  }

  lemma CountComment(body: string, b: string, c: char)
    requires Unclosed(body) && IsBrace(c)
    ensures Count(InPlain, "/*" + (body + "*/" + b), c) == Count(InPlain, b, c)
  {
    var inner := body + "*/" + b;
    var s := "/*" + inner;
    assert s[0] == '/' && s[1] == '*' && s[2..] == inner;
    CountStep(InPlain, s, c);
    CountBlock(inner, c);
    BlockLengthOf(body, b);
    assert inner[|body| + 2..] == b;
  }

  lemma SameTails(a: string, x: string, y: string, c: char)
    requires IsBrace(c) && Final(InPlain, a) == InPlain && !PlainSlash(InPlain, a)
    requires Count(InPlain, x, c) == Count(InPlain, y, c)
    ensures InCode(Lex(a + x), c) == InCode(Lex(a + y), c)
  {
    CountSplit(InPlain, a, x, c);
    CountSplit(InPlain, a, y, c);
    CountIsLexical(a + x, c);
    CountIsLexical(a + y, c);
  }

  /** A block comment put at a code position after `a` hides no brace and uncovers none, unless a
      slash in code stands right before it. */
  lemma CommentIsHarmless(a: string, body: string, b: string, c: char)
    requires Unclosed(body) && IsBrace(c)
    requires Final(InPlain, a) == InPlain && !PlainSlash(InPlain, a)
    ensures InCode(Lex(a + ("/*" + (body + "*/" + b))), c) == InCode(Lex(a + b), c)
  {
    CountComment(body, b, c);
    SameTails(a, "/*" + (body + "*/" + b), b, c);
  }

  // ---- What is counted, and what hides ----

  lemma {:induction false} PlainCount(s: string, c: char)
    requires '/' !in s && '"' !in s
    ensures Count(InPlain, s, c) == multiset(s)[c]
  {
    if s != "" {
      CountStep(InPlain, s, c);
      PlainCount(s[1..], c);
      assert s == [s[0]] + s[1..];
    }
  }

  /** In a text without slashes and quotes every brace counts. */
  lemma PlainIsCode(s: string, c: char)
    requires IsBrace(c) && '/' !in s && '"' !in s
    ensures InCode(Lex(s), c) == multiset(s)[c]
  {
    PlainCount(s, c);
    CountIsLexical(s, c);
  }

  /** A text as it is written between quotes. */
  function Escape(body: string): string {
    if body == "" then ""
    else (if body[0] == '"' || body[0] == '\\' then ['\\', body[0]] else [body[0]]) + Escape(body[1..])
  }

  lemma {:induction false} CountEscaped(body: string, b: string, c: char)
    ensures Count(InString(false), Escape(body) + (['"'] + b), c) == Count(InPlain, b, c)
  {
    var tail := ['"'] + b;
    var s := Escape(body) + tail;
    CountStep(InString(false), s, c);
    if body == "" {
      assert s == tail && tail[1..] == b;
    } else {
      CountEscaped(body[1..], b, c);
      if body[0] == '"' || body[0] == '\\' {
        assert s[0] == '\\' && s[1] == body[0] && s[2..] == Escape(body[1..]) + tail;
        CountStep(InString(true), s[1..], c);
        assert s[1..][1..] == s[2..];
      } else {
        assert s[0] == body[0] && s[1..] == Escape(body[1..]) + tail;
      }
    }
  }

  lemma {:induction false} CountToNewline(body: string, b: string, c: char)
    requires '\n' !in body
    ensures Count(InLine, body + (['\n'] + b), c) == Count(InPlain, b, c)
  {
    var s := body + (['\n'] + b);
    CountStep(InLine, s, c);
    if body == "" {
      assert s[1..] == b;
    } else {
      assert s[0] == body[0] && s[1..] == body[1..] + (['\n'] + b);
      CountToNewline(body[1..], b, c);
    }
  }

  /** A string at a code position hides whatever stands in it, with its quotes and backslashes escaped. */
  lemma QuotedHides(a: string, body: string, b: string, c: char)
    requires IsBrace(c) && Final(InPlain, a) == InPlain && !PlainSlash(InPlain, a)
    ensures InCode(Lex(a + (['"'] + (Escape(body) + (['"'] + b)))), c) == InCode(Lex(a + b), c)
  {
    var inner := Escape(body) + (['"'] + b);
    CountStep(InPlain, ['"'] + inner, c);
    assert (['"'] + inner)[1..] == inner;
    CountEscaped(body, b, c);
    SameTails(a, ['"'] + inner, b, c);
  }

  /** So does a line comment, up to and with its newline. */
  lemma LineHides(a: string, body: string, b: string, c: char)
    requires IsBrace(c) && '\n' !in body && Final(InPlain, a) == InPlain && !PlainSlash(InPlain, a)
    ensures InCode(Lex(a + ("//" + (body + (['\n'] + b)))), c) == InCode(Lex(a + b), c)
  {
    var inner := body + (['\n'] + b);
    CountStep(InPlain, "//" + inner, c);
    assert ("//" + inner)[2..] == inner;
    CountToNewline(body, b, c);
    SameTails(a, "//" + inner, b, c);
  }

  lemma {:induction false} PlainSlashLast(m: Mode, s: string)
    requires PlainSlash(m, s)
    ensures s[|s| - 1] == '/'
    ensures Final(m, s[..|s| - 1]) == InPlain && !PlainSlash(m, s[..|s| - 1])
    decreases |s|
  {
    var (next, n) := Advance(m, s);
    if n < |s| {
      PlainSlashLast(next, s[n..]);
      var a := s[..|s| - 1];
      AdvanceIndexed(m, s, 0);
      AdvanceIndexed(m, a, 0);
      assert a[0..] == a && s[0..] == s;
      assert s[n..][..|s[n..]| - 1] == a[n..];
      assert Advance(m, a) == (next, n);
    }
  }

  lemma LineCommentHides(s: string, c: char)
    requires '\n' !in s
    ensures Count(InLine, s, c) == 0
  {
  }

  lemma SlashExample(commented: string, plain: string)
    requires commented == "//**/{" && plain == "/{"
    ensures Count(InPlain, commented, '{') == 0 && Count(InPlain, plain, '{') == 1
  {
    CountStep(InPlain, commented, '{');
    assert '\n' !in commented[2..];
    LineCommentHides(commented[2..], '{');
    CountStep(InPlain, plain, '{');
    CountStep(InPlain, plain[1..], '{');
  }

  lemma DifferentTails(front: string, x: string, y: string, c: char)
    requires IsBrace(c) && Final(InPlain, front) == InPlain && !PlainSlash(InPlain, front)
    requires Count(InPlain, x, c) != Count(InPlain, y, c)
    ensures InCode(Lex(front + x), c) != InCode(Lex(front + y), c)
  {
    CountSplit(InPlain, front, x, c);
    CountSplit(InPlain, front, y, c);
    CountIsLexical(front + x, c);
    CountIsLexical(front + y, c);
  }

  lemma SlashMoves(a: string, tail: string)
    requires a != "" && a[|a| - 1] == '/'
    ensures a + tail == a[..|a| - 1] + (['/'] + tail)
  {
    assert a == a[..|a| - 1] + ['/'];
  }

  lemma HiddenAfterSlash(a: string, commented: string, plain: string)
    requires PlainSlash(InPlain, a) && ['/'] + commented == "//**/{" && ['/'] + plain == "/{"
    ensures InCode(Lex(a + commented), '{') != InCode(Lex(a + plain), '{')
  {
    PlainSlashLast(InPlain, a);
    SlashExample(['/'] + commented, ['/'] + plain);
    DifferentTails(a[..|a| - 1], ['/'] + commented, ['/'] + plain, '{');
    SlashMoves(a, commented);
    SlashMoves(a, plain);
  }

  /** The exception is real: after such a slash the inserted comment turns into a line comment. */
  lemma CommentAfterSlashHides(a: string)
    requires PlainSlash(InPlain, a)
    ensures InCode(Lex(a + "/**/{"), '{') != InCode(Lex(a + "{"), '{')
  {
    HiddenAfterSlash(a, "/**/{", "{");
  }
}
