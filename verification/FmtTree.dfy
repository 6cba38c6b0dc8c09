/** The formatter's tree: tokens with the line breaks before them, parsed into
    lists, prefixes and comments, and the questions the layout asks of a node. */
module FmtTree {
  import opened FmtLexer

  const MAX_NESTING := 1024

  datatype Tok = Tok(lex: Lexeme, newlines: nat)

  datatype Node =
    | AtomNode(text: string, newlines: nat)
    | ListNode(open: Lexeme, items: seq<Node>, newlines: nat)
    | PrefixNode(text: string, target: Node, newlines: nat)
    | DatumNode(target: Node, newlines: nat)
    | LineNode(text: string, newlines: nat)
    | BlockNode(text: string, newlines: nat)

  datatype Error = UnterminatedToken | UnterminatedList | UnexpectedRParen | DanglingPrefix | NestingTooDeep

  datatype Parsed<T> = Ok(value: T, rest: seq<Tok>) | Err(error: Error)

  // ---- tokens with line breaks ----

  /** A CR that an LF follows is not a line break of its own. */
  function BreakAt(s: string): nat
    requires s != []
  {
    if s[0] == '\n' || (s[0] == '\r' && !At(s, 1, '\n')) then 1 else 0
  }

  function Scan(s: string, newlines: nat): Option<seq<Tok>> {
    if s == [] then Some([])
    else if IsSpace(s[0]) then Scan(s[1..], newlines + BreakAt(s))
    else
      match Token(s)
      case None => None
      case Some((k, n)) =>
        match Scan(s[n..], 0)
        case None => None
        case Some(rest) => Some([Tok(Lexeme(k, s[..n]), newlines)] + rest)
  }

  function Lexemes(toks: seq<Tok>): (ls: seq<Lexeme>)
    ensures |ls| == |toks|
  {
    if toks == [] then [] else [toks[0].lex] + Lexemes(toks[1..])
  }

  lemma {:induction false} ScanIsLex(s: string, newlines: nat)
    ensures Lex(s) == match Scan(s, newlines) case None => None case Some(toks) => Some(Lexemes(toks))
    decreases |s|
  {
    hide Token;
    if s != [] {
      if IsSpace(s[0]) {
        ScanIsLex(s[1..], newlines + BreakAt(s));
      } else {
        var t := Token(s);
        if t.Some? {
          ScanIsLex(s[t.value.1..], 0);
        }
      }
    }
  }

  // ---- what the formatter may change in a token ----

  predicate IsBlank(c: char) {
    c == ' ' || c == '\t' || c == '\r'
  }

  function Trimmed(s: string): (t: string)
    ensures t <= s
    ensures t == [] || !IsBlank(t[|t| - 1])
  {
    if s != [] && IsBlank(s[|s| - 1]) then Trimmed(s[..|s| - 1]) else s
  }

  /** CR LF and a lone CR become LF. */
  function PlainBreaks(s: string): string {
    if s == [] then []
    else if s[0] == '\r' then (if At(s, 1, '\n') then [] else "\n") + PlainBreaks(s[1..])
    else [s[0]] + PlainBreaks(s[1..])
  }

  function Tidy(t: Lexeme): Lexeme {
    match t.kind
    case LineComment => Lexeme(LineComment, Trimmed(t.text))
    case BlockComment => Lexeme(BlockComment, PlainBreaks(t.text))
    case _ => t
  }

  function TidyAll(toks: seq<Tok>): (ls: seq<Lexeme>)
    ensures |ls| == |toks|
  {
    if toks == [] then [] else [Tidy(toks[0].lex)] + TidyAll(toks[1..])
  }

  // ---- parsing ----

  function ParseNode(t: Tok, rest: seq<Tok>, depth: nat): (r: Parsed<Node>)
    ensures r.Ok? ==> |r.rest| <= |rest|
    decreases |rest|, 3
  {
    match t.lex.kind
    case LParen => ParseList(t, rest, depth)
    case ListOpen => ParseList(t, rest, depth)
    case Atom => Ok(AtomNode(t.lex.text, t.newlines), rest)
    case LineComment => Ok(LineNode(Trimmed(t.lex.text), t.newlines), rest)
    case BlockComment => Ok(BlockNode(PlainBreaks(t.lex.text), t.newlines), rest)
    case Prefix => ParsePrefix(t, rest, depth)
    case DatumComment => ParsePrefix(t, rest, depth)
    case RParen => Err(UnexpectedRParen)
  }

  function ParsePrefix(t: Tok, rest: seq<Tok>, depth: nat): (r: Parsed<Node>)
    ensures r.Ok? ==> |r.rest| <= |rest|
    decreases |rest|, 2
  {
    if rest == [] || rest[0].lex.kind == RParen then Err(DanglingPrefix)
    else
      match ParseNode(rest[0], rest[1..], depth)
      case Err(e) => Err(e)
      case Ok(target, r) =>
        Ok(if t.lex.kind == Prefix then PrefixNode(t.lex.text, target, t.newlines) else DatumNode(target, t.newlines), r)
  }

  function ParseList(t: Tok, rest: seq<Tok>, depth: nat): (r: Parsed<Node>)
    ensures r.Ok? ==> |r.rest| <= |rest|
    decreases |rest|, 2
  {
    if depth >= MAX_NESTING then Err(NestingTooDeep)
    else
      match ParseItems(rest, depth + 1)
      case Err(e) => Err(e)
      case Ok(items, r) => Ok(ListNode(t.lex, items, t.newlines), r)
  }

  function ParseItems(toks: seq<Tok>, depth: nat): (r: Parsed<seq<Node>>)
    ensures r.Ok? ==> |r.rest| < |toks|
    decreases |toks|, 1
  {
    if toks == [] then Err(UnterminatedList)
    else if toks[0].lex.kind == RParen then Ok([], toks[1..])
    else
      match ParseNode(toks[0], toks[1..], depth)
      case Err(e) => Err(e)
      case Ok(n, r) =>
        match ParseItems(r, depth)
        case Err(e) => Err(e)
        case Ok(ns, r2) => Ok([n] + ns, r2)
  }

  function ParseProgram(toks: seq<Tok>): Parsed<seq<Node>>
    decreases |toks|
  {
    if toks == [] then Ok([], [])
    else
      match ParseNode(toks[0], toks[1..], 0)
      case Err(e) => Err(e)
      case Ok(n, r) =>
        match ParseProgram(r)
        case Err(e) => Err(e)
        case Ok(ns, r2) => Ok([n] + ns, r2)
  }

  /** The tokens of a node, in order. */
  function Flatten(n: Node): (ls: seq<Lexeme>)
    ensures ls != []
  {
    match n
    case AtomNode(text, _) => [Lexeme(Atom, text)]
    case ListNode(open, items, _) => [open] + FlattenAll(items) + [Lexeme(RParen, ")")]
    case PrefixNode(text, target, _) => [Lexeme(Prefix, text)] + Flatten(target)
    case DatumNode(target, _) => [Lexeme(DatumComment, "#;")] + Flatten(target)
    case LineNode(text, _) => [Lexeme(LineComment, text)]
    case BlockNode(text, _) => [Lexeme(BlockComment, text)]
  }

  function FlattenAll(ns: seq<Node>): seq<Lexeme> {
    if ns == [] then [] else Flatten(ns[0]) + FlattenAll(ns[1..])
  }

  /** Fixed spellings: a closing parenthesis and a datum comment. */
  ghost predicate Spelled(toks: seq<Tok>) {
    forall i :: 0 <= i < |toks| ==> SpelledTok(toks[i].lex)
  }

  predicate SpelledTok(t: Lexeme) {
    (t.kind == RParen ==> t.text == ")") && (t.kind == DatumComment ==> t.text == "#;")
  }

  lemma {:induction false} TidyIs(toks: seq<Tok>, i: nat)
    requires i < |toks|
    ensures TidyAll(toks)[i] == Tidy(toks[i].lex)
  {
    if i > 0 {
      TidyIs(toks[1..], i - 1);
    }
  }

  lemma {:induction false} ParsedNode(t: Tok, rest: seq<Tok>, depth: nat)
    requires ParseNode(t, rest, depth).Ok? && SpelledTok(t.lex) && Spelled(rest)
    ensures var r := ParseNode(t, rest, depth);
            [Tidy(t.lex)] + TidyAll(rest) == Flatten(r.value) + TidyAll(r.rest) && Spelled(r.rest)
    decreases |rest|, 3
  {
    hide Tidy, Trimmed, PlainBreaks;
    var r := ParseNode(t, rest, depth);
    match t.lex.kind
    case LParen => ParsedItems(rest, depth + 1); TidyKeeps(t.lex); Regroup1(t, r, rest, depth);
    case ListOpen => ParsedItems(rest, depth + 1); TidyKeeps(t.lex); Regroup1(t, r, rest, depth);
    case Prefix => TidyKeeps(t.lex); ParsedNode(rest[0], rest[1..], depth); Regroup2(t, r, rest, depth);
    case DatumComment => TidyKeeps(t.lex); ParsedNode(rest[0], rest[1..], depth); Regroup2(t, r, rest, depth);
    case Atom => TidyKeeps(t.lex);
    case LineComment => TidyChanges(t.lex);
    case BlockComment => TidyChanges(t.lex);
    case RParen =>
  }

  lemma TidyKeeps(t: Lexeme)
    ensures t.kind != LineComment && t.kind != BlockComment ==> Tidy(t) == t
  {
  }

  lemma TidyChanges(t: Lexeme)
    ensures t.kind == LineComment ==> Tidy(t) == Lexeme(LineComment, Trimmed(t.text))
    ensures t.kind == BlockComment ==> Tidy(t) == Lexeme(BlockComment, PlainBreaks(t.text))
  {
  }

  lemma Regroup1(t: Tok, r: Parsed<Node>, rest: seq<Tok>, depth: nat)
    requires t.lex.kind == LParen || t.lex.kind == ListOpen
    requires r == ParseNode(t, rest, depth) && r.Ok? && r.value.ListNode?
    requires TidyAll(rest) == FlattenAll(r.value.items) + [Lexeme(RParen, ")")] + TidyAll(r.rest)
    ensures [t.lex] + TidyAll(rest) == Flatten(r.value) + TidyAll(r.rest)
  {
  }

  lemma Regroup2(t: Tok, r: Parsed<Node>, rest: seq<Tok>, depth: nat)
    requires t.lex.kind == Prefix || t.lex.kind == DatumComment
    requires r == ParseNode(t, rest, depth) && r.Ok? && SpelledTok(t.lex) && rest != []
    requires r.value.PrefixNode? || r.value.DatumNode?
    requires [Tidy(rest[0].lex)] + TidyAll(rest[1..]) == Flatten(r.value.target) + TidyAll(r.rest)
    ensures [t.lex] + TidyAll(rest) == Flatten(r.value) + TidyAll(r.rest)
  {
    hide Tidy;
    assert TidyAll(rest) == [Tidy(rest[0].lex)] + TidyAll(rest[1..]);
  }

  lemma {:induction false} ParsedItems(toks: seq<Tok>, depth: nat)
    requires ParseItems(toks, depth).Ok? && Spelled(toks)
    ensures var r := ParseItems(toks, depth);
            TidyAll(toks) == FlattenAll(r.value) + [Lexeme(RParen, ")")] + TidyAll(r.rest) && Spelled(r.rest)
    decreases |toks|, 1
  {
    hide Tidy, ParseNode, Flatten;
    var r := ParseItems(toks, depth);
    TidyKeeps(toks[0].lex);
    assert Spelled(toks[1..]) && SpelledTok(toks[0].lex);
    if toks[0].lex.kind != RParen {
      ParsedNode(toks[0], toks[1..], depth);
      var n := ParseNode(toks[0], toks[1..], depth);
      ParsedItems(n.rest, depth);
      assert r.value[0] == n.value && r.value[1..] == ParseItems(n.rest, depth).value;
    }
  }

  /** Parsing loses and moves no token: the tree lists them all, tidied, in order. */
  lemma {:induction false} ParsedProgram(toks: seq<Tok>)
    requires ParseProgram(toks).Ok? && Spelled(toks)
    ensures FlattenAll(ParseProgram(toks).value) == TidyAll(toks)
    decreases |toks|
  {
    hide Tidy, ParseNode;
    if toks != [] {
      assert Spelled(toks[1..]) && SpelledTok(toks[0].lex);
      ParsedNode(toks[0], toks[1..], 0);
      var n := ParseNode(toks[0], toks[1..], 0);
      ParsedProgram(n.rest);
      var ns := ParseProgram(toks).value;
      assert ns[0] == n.value && ns[1..] == ParseProgram(n.rest).value;
    }
  }

  // ---- layout questions ----

  predicate IsComment(n: Node) {
    n.LineNode? || n.BlockNode?
  }

  function FirstCode(ns: seq<Node>): (r: Option<nat>)
    ensures r.Some? ==> r.value < |ns| && !IsComment(ns[r.value])
  {
    if ns == [] then None
    else if !IsComment(ns[0]) then Some(0)
    else
      var r := FirstCode(ns[1..]);
      if r.None? then None else Some(1 + r.value)
  }

  const BODY: map<string, nat> := map[
    "lambda" := 1, "define" := 1, "define-values" := 1, "define-syntax" := 1, "define-record-type" := 1,
    "define-library" := 1, "let*" := 1, "letrec" := 1, "letrec*" := 1, "let-values" := 1, "let*-values" := 1,
    "let-syntax" := 1, "letrec-syntax" := 1, "when" := 1, "unless" := 1, "begin" := 0, "if" := 1, "cond" := 1,
    "case" := 1, "do" := 2, "parameterize" := 1, "guard" := 1, "syntax-rules" := 1, "case-lambda" := 0,
    "receive" := 2, "test-group" := 1, "test-group-with-cleanup" := 1]

  /** How many items stay on the first line of a body form; none for a call. */
  function StyleOf(items: seq<Node>): Option<nat> {
    if items == [] || !items[0].AtomNode? then None
    else if items[0].text == "let" then Some(if |items| >= 2 && items[1].AtomNode? then 2 else 1)
    else if items[0].text in BODY then Some(BODY[items[0].text])
    else None
  }

  /** The width on one line, unless the node cannot be on one. */
  function Measure(n: Node): Option<nat> {
    match n
    case LineNode(_, _) => None
    case AtomNode(text, _) => if '\n' in text then None else Some(|text|)
    case BlockNode(text, _) => if '\n' in text then None else Some(|text|)
    case PrefixNode(text, target, _) => Shifted(Measure(target), |text|)
    case DatumNode(target, _) => Shifted(Measure(target), 2)
    case ListNode(open, items, _) => Shifted(MeasureAll(items), |open.text| + 1)
  }

  function MeasureAll(ns: seq<Node>): Option<nat> {
    if ns == [] then Some(0)
    else
      var first, rest := Measure(ns[0]), MeasureAll(ns[1..]);
      if first.None? || rest.None? then None
      else Some(first.value + rest.value + if |ns| > 1 then 1 else 0)
  }

  predicate IsData(n: Node) {
    n.ListNode? && n.open.kind == ListOpen
  }

  /** A blank line in the body keeps a list off one line. */
  predicate HasBodyBlank(n: Node) {
    n.ListNode? &&
    var first := if FirstCode(n.items) != Some(0) || IsData(n) then 1
                 else if StyleOf(n.items).Some? then StyleOf(n.items).value + 1 else 2;
    exists i :: first <= i < |n.items| && n.items[i].newlines >= 2
  }

  // ---- line comments that swallow what follows ----

  /** The last token of the node is a line comment. */
  predicate EndsOpen(n: Node) {
    match n
    case LineNode(_, _) => true
    case PrefixNode(_, target, _) => EndsOpen(target)
    case DatumNode(target, _) => EndsOpen(target)
    case _ => false
  }

  /** Where the comments that stood on the line of the item before j end, and
      whether a line comment ended them. */
  function Trail(items: seq<Node>, j: nat): (r: (nat, bool))
    requires j <= |items|
    ensures j <= r.0 <= |items|
    decreases |items| - j
  {
    if j < |items| && IsComment(items[j]) && items[j].newlines == 0 then
      if items[j].LineNode? then (j + 1, true) else Trail(items, j + 1)
    else
      (j, false)
  }

  /** Of the items placed on the first line of a list, at most k + 1, one that ends
      in a line comment is followed by another, or by a comment on its line. */
  predicate HeadSwallows(items: seq<Node>, i: nat, placed: nat, k: nat, wasLine: bool)
    requires placed > 0 ==> i > 0
    decreases |items| - i
  {
    && i < |items| && placed <= k && !IsComment(items[i]) && !wasLine
    && var (j, line) := Trail(items, i + 1);
       (placed > 0 && EndsOpen(items[i - 1])) || (j > i + 1 && EndsOpen(items[i])) || HeadSwallows(items, j, placed + 1, k, line)
  }

  /** How many items follow the first one on its line. */
  function HeadOf(items: seq<Node>): nat {
    if StyleOf(items).Some? then StyleOf(items).value else 1
  }

  /** A list with a line comment in it is never on one line, so that the tree alone
      decides what follows a line comment directly. */
  predicate Swallows(n: Node)
    decreases n
  {
    match n
    case PrefixNode(_, target, _) => Swallows(target)
    case DatumNode(target, _) => Swallows(target)
    case ListNode(_, items, _) =>
      || (exists i :: 0 <= i < |items| && Swallows(items[i]))
      || (FirstCode(items) == Some(0) && !IsData(n) && HeadSwallows(items, 0, 0, HeadOf(items), false))
    case _ => false
  }

  predicate AnySwallows(ns: seq<Node>) {
    exists i :: 0 <= i < |ns| && Swallows(ns[i])
  }

  lemma {:induction false} TrailKeeps(items: seq<Node>, j: nat)
    requires j <= |items|
    ensures var (e, line) := Trail(items, j);
            e > j ==> (EndsOpen(items[e - 1]) <==> line) && IsComment(items[j])
    decreases |items| - j
  {
    if j < |items| && IsComment(items[j]) && items[j].newlines == 0 && !items[j].LineNode? {
      TrailKeeps(items, j + 1);
    }
  }

  /** Without a line comment nothing is swallowed. */
  lemma {:induction false} MeasuredIsSafe(n: Node)
    requires Measure(n).Some?
    ensures !Swallows(n) && !EndsOpen(n)
    decreases n, 1
  {
    match n
    case PrefixNode(_, target, _) => MeasuredIsSafe(target);
    case DatumNode(target, _) => MeasuredIsSafe(target);
    case ListNode(_, items, _) =>
      MeasuredAreSafe(items);
      if FirstCode(items) == Some(0) && !IsData(n) { SafeHead(items, 0, 0, HeadOf(items), false); }
    case _ =>
  }

  lemma {:induction false} MeasuredAreSafe(ns: seq<Node>)
    requires MeasureAll(ns).Some?
    ensures forall i :: 0 <= i < |ns| ==> !Swallows(ns[i]) && !EndsOpen(ns[i])
    decreases ns, 0
  {
    hide Measure, Swallows, EndsOpen;
    if ns != [] {
      MeasuredIsSafe(ns[0]);
      MeasuredAreSafe(ns[1..]);
      assert forall i :: 0 < i < |ns| ==> ns[i] == ns[1..][i - 1];
    }
  }

  lemma {:induction false} SafeHead(items: seq<Node>, i: nat, placed: nat, k: nat, wasLine: bool)
    requires (placed > 0 ==> i > 0) && forall m :: 0 <= m < |items| ==> !EndsOpen(items[m])
    ensures !HeadSwallows(items, i, placed, k, wasLine)
    decreases |items| - i
  {
    if i < |items| && placed <= k && !IsComment(items[i]) && !wasLine {
      var (j, line) := Trail(items, i + 1);
      SafeHead(items, j, placed + 1, k, line);
    }
  }
}
