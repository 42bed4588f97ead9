/** The finite state machine that removes comments from the input file before it is parsed as JSON. */
module CommentFsm {

  datatype State =
    | NoComment
    | OneSlash
    | OneLineComment
    | MultiLineComment
    | StarInComment
    | NoCommentBsl
    | InQuote
    | InQuoteBsl

  datatype CharacterClass = Is(c: char) | IsAny

  datatype Action = Skip | Push | SlashAndPush

  datatype Row = Row(state: State, cls: CharacterClass, next: State, action: Action)

  const TRANSITION_TABLE: seq<Row> := [
    Row(NoComment, Is('/'), OneSlash, Skip),
    Row(NoComment, Is('"'), InQuote, Push),
    Row(NoComment, Is('\\'), NoCommentBsl, Push),
    Row(NoComment, IsAny, NoComment, Push),
    Row(OneSlash, Is('/'), OneLineComment, Skip),
    Row(OneSlash, Is('*'), MultiLineComment, Skip),
    Row(OneSlash, IsAny, NoComment, SlashAndPush),
    Row(OneLineComment, Is('\n'), NoComment, Push),
    Row(OneLineComment, Is('\r'), NoComment, Push),
    Row(OneLineComment, IsAny, OneLineComment, Skip),
    Row(MultiLineComment, Is('*'), StarInComment, Skip),
    Row(MultiLineComment, Is('\n'), MultiLineComment, Push),
    Row(MultiLineComment, Is('\r'), MultiLineComment, Push),
    Row(MultiLineComment, IsAny, MultiLineComment, Skip),
    Row(StarInComment, Is('/'), NoComment, Skip),
    Row(StarInComment, IsAny, MultiLineComment, Skip),
    Row(InQuote, Is('"'), NoComment, Push),
    Row(InQuote, Is('\\'), InQuoteBsl, Push),
    Row(InQuote, IsAny, InQuote, Push),
    Row(InQuoteBsl, IsAny, InQuote, Push),
    Row(NoCommentBsl, IsAny, NoComment, Push)
  ]

  predicate Applies(row: Row, s: State, c: char) {
    row.state == s && (row.cls.Is? ==> row.cls.c == c)
  }

  function Emit(a: Action, c: char): string {
    match a
    case Skip => ""
    case Push => [c]
    case SlashAndPush => ['/', c]
  }

  /** Rule lookup: the first applicable row from position `i` on; no row at all leaves the state alone. */
  function Lookup(s: State, c: char, i: nat): (State, string)
    requires i <= |TRANSITION_TABLE|
    decreases |TRANSITION_TABLE| - i
  {
    if i == |TRANSITION_TABLE| then (s, "")
    else
      var row := TRANSITION_TABLE[i];
      if Applies(row, s, c) then (row.next, Emit(row.action, c)) else Lookup(s, c, i + 1)
  }

  function Step(s: State, c: char): (State, string) {
    Lookup(s, c, 0)
  }

  /** State after all of `x`. */
  function End(s: State, x: string): State
    decreases |x|
  {
    if x == "" then s else End(Step(s, x[0]).0, x[1..])
  }

  /** Everything delivered for `x`. */
  function Out(s: State, x: string): string
    decreases |x|
  {
    if x == "" then "" else Step(s, x[0]).1 + Out(Step(s, x[0]).0, x[1..])
  }

  // ---------------------------------------------------------------- the table as a function

  lemma {:induction false} LookupSkips(s: State, c: char, i: nat, k: nat)
    requires i <= k <= |TRANSITION_TABLE|
    requires forall j | i <= j < k :: TRANSITION_TABLE[j].state != s
    ensures Lookup(s, c, i) == Lookup(s, c, k)
    decreases k - i
  {
    if i < k {
      LookupSkips(s, c, i + 1, k);
    }
  }

  /** The lookup of a state whose rows start at `k`, four rows deep. */
  lemma LookupFour(s: State, c: char, k: nat)
    requires k + 4 <= |TRANSITION_TABLE|
    requires forall j | 0 <= j < k :: TRANSITION_TABLE[j].state != s
    ensures Step(s, c) ==
            var t := TRANSITION_TABLE;
            if Applies(t[k], s, c) then (t[k].next, Emit(t[k].action, c))
            else if Applies(t[k + 1], s, c) then (t[k + 1].next, Emit(t[k + 1].action, c))
            else if Applies(t[k + 2], s, c) then (t[k + 2].next, Emit(t[k + 2].action, c))
            else if Applies(t[k + 3], s, c) then (t[k + 3].next, Emit(t[k + 3].action, c))
            else Lookup(s, c, k + 4)
  {
    LookupSkips(s, c, 0, k);
    assert Lookup(s, c, k + 1) == if Applies(TRANSITION_TABLE[k + 1], s, c)
      then (TRANSITION_TABLE[k + 1].next, Emit(TRANSITION_TABLE[k + 1].action, c)) else Lookup(s, c, k + 2);
    assert Lookup(s, c, k + 3) == if Applies(TRANSITION_TABLE[k + 3], s, c)
      then (TRANSITION_TABLE[k + 3].next, Emit(TRANSITION_TABLE[k + 3].action, c)) else Lookup(s, c, k + 4);
  }

  /** The machine written state by state instead of row by row. */
  function Meaning(s: State, c: char): (State, string) {
    match s
    case NoComment =>
      if c == '/' then (OneSlash, "")
      else (if c == '"' then InQuote else if c == '\\' then NoCommentBsl else NoComment, [c])
    case OneSlash =>
      if c == '/' then (OneLineComment, "") else if c == '*' then (MultiLineComment, "") else (NoComment, ['/', c])
    case OneLineComment => if IsNewline(c) then (NoComment, [c]) else (OneLineComment, "")
    case MultiLineComment =>
      if c == '*' then (StarInComment, "") else (MultiLineComment, if IsNewline(c) then [c] else "")
    case StarInComment => (if c == '/' then NoComment else MultiLineComment, "")
    case InQuote => (if c == '"' then NoComment else if c == '\\' then InQuoteBsl else InQuote, [c])
    case InQuoteBsl => (InQuote, [c])
    case NoCommentBsl => (NoComment, [c])
  }

  lemma StepOutsideComments(s: State, c: char)
    requires s.NoComment? || s.OneSlash? || s.NoCommentBsl?
    ensures Step(s, c) == Meaning(s, c)
  {
    match s
    case NoComment => LookupFour(s, c, 0);
    case OneSlash => LookupFour(s, c, 4);
    case NoCommentBsl => LookupSkips(s, c, 0, 20);
  }

  lemma StepInComments(s: State, c: char)
    requires IsCommentState(s)
    ensures Step(s, c) == Meaning(s, c)
  {
    match s
    case OneLineComment => LookupFour(s, c, 7);
    case MultiLineComment => LookupFour(s, c, 10);
    case StarInComment => LookupFour(s, c, 14);
  }

  lemma StepInQuotes(s: State, c: char)
    requires s.InQuote? || s.InQuoteBsl?
    ensures Step(s, c) == Meaning(s, c)
  {
    if s.InQuote? { LookupFour(s, c, 16); } else { LookupSkips(s, c, 0, 19); }
  }

  /** What the 21 rows say; the fall-through of the lookup is never reached. */
  lemma StepCases(s: State, c: char)
    ensures Step(s, c) == Meaning(s, c)
  {
    if IsCommentState(s) {
      StepInComments(s, c);
    } else if s.InQuote? || s.InQuoteBsl? {
      StepInQuotes(s, c);
    } else {
      StepOutsideComments(s, c);
    }
  }

  // ---------------------------------------------------------------- runs

  lemma {:induction false} RunConcat(s: State, x: string, y: string)
    ensures End(s, x + y) == End(End(s, x), y)
    ensures Out(s, x + y) == Out(s, x) + Out(End(s, x), y)
    decreases |x|
  {
    hide Step, Lookup;
    if x == "" {
      assert x + y == y;
    } else {
      assert (x + y)[1..] == x[1..] + y;
      RunConcat(Step(s, x[0]).0, x[1..], y);
    }
  }

  lemma RunOne(s: State, c: char)
    ensures End(s, [c]) == Step(s, c).0
    ensures Out(s, [c]) == Step(s, c).1
  {
    assert [c][1..] == "";
  }

  lemma RunTwo(s: State, c: char, d: char)
    ensures End(s, [c, d]) == Step(Step(s, c).0, d).0
    ensures Out(s, [c, d]) == Step(s, c).1 + Step(Step(s, c).0, d).1
  {
    assert [c, d] == [c] + [d];
    RunConcat(s, [c], [d]);
    RunOne(s, c);
    RunOne(Step(s, c).0, d);
  }

  predicate IsCommentState(s: State) {
    s.OneLineComment? || s.MultiLineComment? || s.StarInComment?
  }

  /** No prefix of `x` leaves the machine inside a comment. */
  predicate StaysOutside(s: State, x: string)
    decreases |x|
  {
    !IsCommentState(s) && (x == "" || StaysOutside(Step(s, x[0]).0, x[1..]))
  }

  lemma {:induction false} StaysOutsideConcat(s: State, x: string, y: string)
    requires StaysOutside(s, x) && StaysOutside(End(s, x), y)
    ensures StaysOutside(s, x + y)
    decreases |x|
  {
    if x == "" {
      assert x + y == y;
    } else {
      assert (x + y)[1..] == x[1..] + y;
      StaysOutsideConcat(Step(s, x[0]).0, x[1..], y);
    }
  }

  /** Where a second machine stands when it reads the output of a first machine that stands at `s`. */
  function Shadow(s: State): State {
    if s.InQuote? || s.InQuoteBsl? || s.NoCommentBsl? then s else NoComment
  }

  lemma ShadowStep(s: State, c: char)
    ensures var (n, o) := Step(s, c);
            Out(Shadow(s), o) == o && End(Shadow(s), o) == Shadow(n) && StaysOutside(Shadow(s), o)
  {
    StepCases(s, c);
    var (n, o) := Step(s, c);
    if |o| == 1 {
      assert o == [c];
      RunOne(Shadow(s), c);
      StepCases(Shadow(s), c);
      assert o[1..] == "";
    } else if |o| == 2 {
      assert o == ['/', c];
      RunTwo(NoComment, '/', c);
      StepCases(NoComment, '/');
      StepCases(OneSlash, c);
      assert StaysOutside(OneSlash, o[1..]) by { assert o[1..][1..] == ""; }
    }
  }

  lemma {:induction false} FilteredAgain(s: State, x: string)
    ensures Out(Shadow(s), Out(s, x)) == Out(s, x)
    ensures End(Shadow(s), Out(s, x)) == Shadow(End(s, x))
    ensures StaysOutside(Shadow(s), Out(s, x))
    decreases |x|
  {
    if x != "" {
      var (n, o) := Step(s, x[0]);
      ShadowStep(s, x[0]);
      FilteredAgain(n, x[1..]);
      RunConcat(Shadow(s), o, Out(n, x[1..]));
      StaysOutsideConcat(Shadow(s), o, Out(n, x[1..]));
    }
  }

  /** Filtering is idempotent on every text, and a filtered text never opens a comment again. */
  lemma FilterIdempotent(x: string)
    ensures Out(NoComment, Out(NoComment, x)) == Out(NoComment, x)
    ensures StaysOutside(NoComment, Out(NoComment, x))
  {
    FilteredAgain(NoComment, x);
  }

  // ---------------------------------------------------------------- line numbers

  predicate IsNewline(c: char) {
    c == '\n' || c == '\r'
  }

  function Newlines(x: string): nat
    decreases |x|
  {
    if x == "" then 0 else (if IsNewline(x[0]) then 1 else 0) + Newlines(x[1..])
  }

  /** Line ends that arrive while the machine has just seen a star inside a block comment. */
  function NewlinesAfterStar(s: State, x: string): nat
    decreases |x|
  {
    if x == "" then 0
    else (if s.StarInComment? && IsNewline(x[0]) then 1 else 0) + NewlinesAfterStar(Step(s, x[0]).0, x[1..])
  }

  lemma {:induction false} NewlinesConcat(x: string, y: string)
    ensures Newlines(x + y) == Newlines(x) + Newlines(y)
    decreases |x|
  {
    if x == "" {
      assert x + y == y;
    } else {
      assert (x + y)[1..] == x[1..] + y;
      NewlinesConcat(x[1..], y);
    }
  }

  lemma {:induction false} NewlinesConserved(s: State, x: string)
    ensures Newlines(Out(s, x)) + NewlinesAfterStar(s, x) == Newlines(x)
    decreases |x|
  {
    if x != "" {
      var (n, o) := Step(s, x[0]);
      StepCases(s, x[0]);
      NewlinesConserved(n, x[1..]);
      NewlinesConcat(o, Out(n, x[1..]));
      assert forall c :: Newlines([c]) == if IsNewline(c) then 1 else 0 by {
        forall c ensures Newlines([c]) == if IsNewline(c) then 1 else 0 { assert [c][1..] == ""; }
      }
      if |o| == 2 {
        assert o[1..] == [x[0]];
      }
    }
  }

  /** Line numbers survive filtering exactly when no line end follows a counted star inside a comment. */
  lemma LineNumbersKeptIff(x: string)
    ensures Newlines(Out(NoComment, x)) == Newlines(x) <==> NewlinesAfterStar(NoComment, x) == 0
  {
    NewlinesConserved(NoComment, x);
  }

  /** A comment of two lines that becomes one: its line end follows a counted star. */
  lemma LineEndDropped()
    ensures var x := "/* *\n*/"; Newlines(x) == 1 && Out(NoComment, x) == ""
  {
    var x := "/* *\n*/";
    StepCases(NoComment, '/');
    StepCases(OneSlash, '*');
    StepCases(MultiLineComment, ' ');
    StepCases(MultiLineComment, '*');
    StepCases(StarInComment, '\n');
    StepCases(StarInComment, '/');
    assert x[1..][1..] == " *\n*/" && " *\n*/"[1..][1..] == "\n*/" && "\n*/"[1..][1..] == "/" && "/"[1..] == "";
    hide Step;
    assert Out(StarInComment, "/") == "";
    assert Out(StarInComment, "\n*/") == Out(MultiLineComment, "\n*/"[1..]);
    assert Newlines("\n*/") == 1 + Newlines("\n*/"[1..]);
  }

  // ---------------------------------------------------------------- where a block comment ends

  /** No `*` followed by `/` anywhere in `x`. */
  predicate NoTerminator(x: string) {
    forall i | 0 < i < |x| :: !(x[i - 1] == '*' && x[i] == '/')
  }

  function TrailingStars(x: string): nat
    decreases |x|
  {
    if x == "" || x[|x| - 1] != '*' then 0 else 1 + TrailingStars(x[..|x| - 1])
  }

  lemma {:induction false} CommentBodyState(b: string)
    requires NoTerminator(b)
    ensures End(MultiLineComment, b) == if TrailingStars(b) % 2 == 1 then StarInComment else MultiLineComment
    decreases |b|
  {
    hide Step, Lookup;
    if b != "" {
      var a, c := b[..|b| - 1], b[|b| - 1];
      assert b == a + [c];
      forall i | 0 < i < |a| ensures !(a[i - 1] == '*' && a[i] == '/') {
        assert a[i - 1] == b[i - 1] && a[i] == b[i];
      }
      CommentBodyState(a);
      RunConcat(MultiLineComment, a, [c]);
      RunOne(End(MultiLineComment, a), c);
      StepCases(End(MultiLineComment, a), c);
      if End(MultiLineComment, a) == StarInComment {
        assert a[|a| - 1] == '*';
        assert b[|b| - 2] == '*';
      }
    }
  }

  /** A comment body is closed by the first star-slash pair behind it iff it ends in an even number of stars. */
  lemma BlockCommentClosesIff(b: string)
    requires NoTerminator(b)
    ensures End(NoComment, "/*" + b + "*/") == NoComment <==> TrailingStars(b) % 2 == 0
  {
    RunTwo(NoComment, '/', '*');
    StepCases(NoComment, '/');
    StepCases(OneSlash, '*');
    assert ['/', '*'] == "/*" && ['*', '/'] == "*/";
    CommentBodyState(b);
    var s := End(MultiLineComment, b);
    RunConcat(NoComment, "/*", b);
    RunConcat(NoComment, "/*" + b, "*/");
    RunTwo(s, '*', '/');
    StepCases(s, '*');
    StepCases(Step(s, '*').0, '/');
  }

  /** The shortest failing comment: in slash-star-star-slash-behind-a-star the comment stays open. */
  lemma DoubleStarStaysOpen()
    ensures End(NoComment, "/*" + "*" + "*/") != NoComment
  {
    assert "*"[..0] == "";
    BlockCommentClosesIff("*");
  }

  // ---------------------------------------------------------------- the filter against a grammar of comments

  datatype QuoteChar = Bare(c: char) | Escape(c: char)

  datatype Piece =
    | Plain(c: char)
    | Escaped(c: char)
    | LoneSlash(c: char)
    | Quoted(body: seq<QuoteChar>)
    | LineComment(text: string, eol: char)
    | BlockComment(text: string)

  predicate WellFormed(p: Piece) {
    match p
    case Plain(c) => c != '/' && c != '"' && c != '\\'
    case Escaped(_) => true
    case LoneSlash(c) => c != '/' && c != '*'
    case Quoted(body) => forall q | q in body :: q.Bare? ==> q.c != '"' && q.c != '\\'
    case LineComment(text, eol) => IsNewline(eol) && forall c | c in text :: !IsNewline(c)
    case BlockComment(text) =>
      && NoTerminator(text) && TrailingStars(text) % 2 == 0
      && forall i | 0 < i < |text| :: IsNewline(text[i]) ==> text[i - 1] != '*'
  }

  function RenderQuote(body: seq<QuoteChar>): string
    decreases |body|
  {
    if body == [] then ""
    else (match body[0] case Bare(c) => [c] case Escape(c) => ['\\', c]) + RenderQuote(body[1..])
  }

  function Render(p: Piece): string {
    match p
    case Plain(c) => [c]
    case Escaped(c) => ['\\', c]
    case LoneSlash(c) => ['/', c]
    case Quoted(body) => "\"" + RenderQuote(body) + "\""
    case LineComment(text, eol) => "//" + text + [eol]
    case BlockComment(text) => "/*" + text + "*/"
  }

  function OnlyNewlines(x: string): string
    decreases |x|
  {
    if x == "" then "" else (if IsNewline(x[0]) then [x[0]] else "") + OnlyNewlines(x[1..])
  }

  /** The text of a piece without its comments; line ends stay. */
  function Strip(p: Piece): string {
    match p
    case LineComment(_, eol) => [eol]
    case BlockComment(text) => OnlyNewlines(text)
    case _ => Render(p)
  }

  function RenderAll(ps: seq<Piece>): string
    decreases |ps|
  {
    if ps == [] then "" else Render(ps[0]) + RenderAll(ps[1..])
  }

  function StripAll(ps: seq<Piece>): string
    decreases |ps|
  {
    if ps == [] then "" else Strip(ps[0]) + StripAll(ps[1..])
  }

  lemma {:induction false} QuoteRun(body: seq<QuoteChar>)
    requires WellFormed(Quoted(body))
    ensures End(InQuote, RenderQuote(body)) == InQuote
    ensures Out(InQuote, RenderQuote(body)) == RenderQuote(body)
    decreases |body|
  {
    hide Step, Lookup;
    if body != [] {
      var q := body[0];
      assert q in body;
      assert forall r | r in body[1..] :: r in body;
      QuoteRun(body[1..]);
      StepCases(InQuote, q.c);
      StepCases(InQuote, '\\');
      StepCases(InQuoteBsl, q.c);
      RunOne(InQuote, q.c);
      RunTwo(InQuote, '\\', q.c);
      RunConcat(InQuote, if q.Bare? then [q.c] else ['\\', q.c], RenderQuote(body[1..]));
    }
  }

  lemma {:induction false} LineRun(text: string)
    requires forall c | c in text :: !IsNewline(c)
    ensures End(OneLineComment, text) == OneLineComment && Out(OneLineComment, text) == ""
    decreases |text|
  {
    if text != "" {
      assert forall c | c in text[1..] :: c in text;
      StepCases(OneLineComment, text[0]);
      LineRun(text[1..]);
    }
  }

  lemma {:induction false} BlockRun(text: string, s: State)
    requires s == MultiLineComment || (s == StarInComment && (text != "" ==> text[0] != '/' && !IsNewline(text[0])))
    requires NoTerminator(text)
    requires forall i | 0 < i < |text| :: IsNewline(text[i]) ==> text[i - 1] != '*'
    ensures Out(s, text) == OnlyNewlines(text)
    decreases |text|
  {
    if text != "" {
      StepCases(s, text[0]);
      var rest := text[1..];
      forall i | 0 < i < |rest|
        ensures !(rest[i - 1] == '*' && rest[i] == '/') && (IsNewline(rest[i]) ==> rest[i - 1] != '*')
      {
        assert rest[i - 1] == text[i] && rest[i] == text[i + 1];
      }
      if rest != "" {
        assert rest[0] == text[1] && text[0] == text[1 - 1];
      }
      BlockRun(rest, Step(s, text[0]).0);
    }
  }

  lemma PieceRun(p: Piece)
    requires WellFormed(p)
    ensures End(NoComment, Render(p)) == NoComment && Out(NoComment, Render(p)) == Strip(p)
  {
    match p
    case Plain(c) =>
      RunOne(NoComment, c);
      StepCases(NoComment, c);
    case Escaped(c) =>
      RunTwo(NoComment, '\\', c);
      StepCases(NoComment, '\\');
      StepCases(NoCommentBsl, c);
    case LoneSlash(c) =>
      RunTwo(NoComment, '/', c);
      StepCases(NoComment, '/');
      StepCases(OneSlash, c);
    case Quoted(body) =>
      QuoteRun(body);
      RunConcat(NoComment, "\"", RenderQuote(body));
      RunConcat(NoComment, "\"" + RenderQuote(body), "\"");
      RunOne(NoComment, '"');
      RunOne(InQuote, '"');
      StepCases(NoComment, '"');
      StepCases(InQuote, '"');
    case LineComment(text, eol) =>
      LineRun(text);
      assert ['/', '/'] == "//";
      RunTwo(NoComment, '/', '/');
      StepCases(NoComment, '/');
      StepCases(OneSlash, '/');
      RunConcat(NoComment, "//", text);
      RunConcat(NoComment, "//" + text, [eol]);
      RunOne(OneLineComment, eol);
      StepCases(OneLineComment, eol);
    case BlockComment(text) =>
      BlockPieceRun(text);
  }

  lemma BlockPieceRun(text: string)
    requires WellFormed(BlockComment(text))
    ensures var x := "/*" + text + "*/"; End(NoComment, x) == NoComment && Out(NoComment, x) == OnlyNewlines(text)
  {
    BlockCommentClosesIff(text);
    BlockRun(text, MultiLineComment);
    CommentBodyState(text);
    assert ['/', '*'] == "/*" && ['*', '/'] == "*/";
    RunTwo(NoComment, '/', '*');
    StepCases(NoComment, '/');
    StepCases(OneSlash, '*');
    RunConcat(NoComment, "/*", text);
    RunConcat(NoComment, "/*" + text, "*/");
    RunTwo(MultiLineComment, '*', '/');
    StepCases(MultiLineComment, '*');
    StepCases(StarInComment, '/');
  }

  /** On every text made of code, quoted strings and comments the filter removes exactly the comments. */
  lemma {:induction false} FilterStripsComments(ps: seq<Piece>)
    requires forall p | p in ps :: WellFormed(p)
    ensures Out(NoComment, RenderAll(ps)) == StripAll(ps) && End(NoComment, RenderAll(ps)) == NoComment
    decreases |ps|
  {
    if ps != [] {
      assert ps[0] in ps;
      assert forall p | p in ps[1..] :: p in ps;
      PieceRun(ps[0]);
      FilterStripsComments(ps[1..]);
      RunConcat(NoComment, Render(ps[0]), RenderAll(ps[1..]));
    }
  }
}
