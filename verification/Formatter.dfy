/** Formatting a source text, and exactly when the program in it is preserved. */
module Formatter {
  import opened FmtLexer
  import opened FmtTree
  import opened FmtTidy
  import opened FmtSpelling
  import opened FmtPrinter
  import FmtScanner

  predicate IsPrefix(t: Lexeme) {
    t.kind == Prefix || t.kind == DatumComment
  }

  /** No line comment stands directly behind a quote-like prefix or a datum comment. */
  predicate Calm(ls: seq<Lexeme>) {
    forall i :: 0 <= i < |ls| - 1 && IsPrefix(ls[i]) ==> ls[i + 1].kind != LineComment
  }

  /** The text ends in the middle of a character name, and not with a line break. */
  predicate CutOff(ls: seq<Lexeme>) {
    ls != [] &&
    var t := ls[|ls| - 1];
    t.kind == Atom && !Complete(t.text) && !(t.text != [] && t.text[|t.text| - 1] == '\n')
  }

  ghost predicate AllTokens(toks: seq<Tok>) {
    forall i :: 0 <= i < |toks| ==> IsToken(toks[i].lex) && SpelledTok(toks[i].lex)
  }

  // ---- what parsing builds ----

  lemma {:induction false} ParsedNodeIsSound(toks: seq<Tok>, depth: nat)
    requires toks != [] && AllTokens(toks) && ParseNode(toks[0], toks[1..], depth).Ok?
    ensures Sound(ParseNode(toks[0], toks[1..], depth).value) && AllTokens(ParseNode(toks[0], toks[1..], depth).rest)
    decreases |toks|, 0
  {
    hide IsToken, Tidy, Trimmed, PlainBreaks;
    var t := toks[0];
    assert AllTokens(toks[1..]);
    match t.lex.kind
    case Atom =>
    case LineComment => TidyIsToken(t.lex); TidyChanges(t.lex);
    case BlockComment => TidyIsToken(t.lex); TidyChanges(t.lex);
    case Prefix => ParsedNodeIsSound(toks[1..], depth);
    case DatumComment => ParsedNodeIsSound(toks[1..], depth);
    case LParen => ParsedItemsAreSound(toks[1..], depth + 1);
    case ListOpen => ParsedItemsAreSound(toks[1..], depth + 1);
    case RParen =>
  }

  lemma {:induction false} ParsedItemsAreSound(toks: seq<Tok>, depth: nat)
    requires AllTokens(toks) && ParseItems(toks, depth).Ok?
    ensures AllSound(ParseItems(toks, depth).value) && AllTokens(ParseItems(toks, depth).rest)
    decreases |toks|, 1
  {
    hide ParseNode, Sound;
    if toks[0].lex.kind != RParen {
      ParsedNodeIsSound(toks, depth);
      ParsedItemsAreSound(ParseNode(toks[0], toks[1..], depth).rest, depth);
    }
  }

  lemma {:induction false} ParsedProgramIsSound(toks: seq<Tok>)
    requires AllTokens(toks) && ParseProgram(toks).Ok?
    ensures AllSound(ParseProgram(toks).value)
    decreases |toks|
  {
    hide ParseNode, Sound, AllTokens;
    if toks != [] {
      ParsedNodeIsSound(toks, 0);
      ParsedProgramIsSound(ParseNode(toks[0], toks[1..], 0).rest);
    }
  }

  // ---- nothing is swallowed without a line comment behind a prefix ----

  lemma {:induction false} CalmNodeIsSafe(n: Node, more: seq<Lexeme>)
    requires Calm(Flatten(n) + more)
    ensures !Swallows(n) && (EndsOpen(n) ==> n.LineNode?) && Calm(more)
    decreases n, 1
  {
    var ls := Flatten(n) + more;
    CalmRest(Flatten(n), more);
    match n
    case ListNode(open, items, _) =>
      assert ls == [open] + (FlattenAll(items) + ([Lexeme(RParen, ")")] + more));
      CalmRest([open], FlattenAll(items) + ([Lexeme(RParen, ")")] + more));
      CalmItemsAreSafe(items, [Lexeme(RParen, ")")] + more);
      if FirstCode(items) == Some(0) { CalmHead(items, 0, 0, HeadOf(items), false); }
    case PrefixNode(text, target, _) =>
      assert ls == [Lexeme(Prefix, text)] + (Flatten(target) + more);
      CalmRest([Lexeme(Prefix, text)], Flatten(target) + more);
      CalmNodeIsSafe(target, more);
      assert IsPrefix(ls[0]) && ls[1] == Flatten(target)[0];
    case DatumNode(target, _) =>
      assert ls == [Lexeme(DatumComment, "#;")] + (Flatten(target) + more);
      CalmRest([Lexeme(DatumComment, "#;")], Flatten(target) + more);
      CalmNodeIsSafe(target, more);
      assert IsPrefix(ls[0]) && ls[1] == Flatten(target)[0];
    case _ =>
  }

  lemma {:induction false} CalmItemsAreSafe(ns: seq<Node>, more: seq<Lexeme>)
    requires Calm(FlattenAll(ns) + more)
    ensures Calm(more) && forall i :: 0 <= i < |ns| ==> !Swallows(ns[i]) && (EndsOpen(ns[i]) ==> ns[i].LineNode?)
    decreases ns, 0
  {
    hide Swallows, EndsOpen, Flatten, Calm;
    if ns == [] {
      assert FlattenAll(ns) + more == more;
    } else {
      assert FlattenAll(ns) + more == Flatten(ns[0]) + (FlattenAll(ns[1..]) + more);
      CalmNodeIsSafe(ns[0], FlattenAll(ns[1..]) + more);
      CalmItemsAreSafe(ns[1..], more);
      assert forall i :: 0 < i < |ns| ==> ns[i] == ns[1..][i - 1];
    }
  }

  lemma {:induction false} CalmHead(items: seq<Node>, i: nat, placed: nat, k: nat, wasLine: bool)
    requires i <= |items| && (placed > 0 ==> i > 0 && (EndsOpen(items[i - 1]) ==> wasLine))
    requires forall m :: 0 <= m < |items| ==> (EndsOpen(items[m]) ==> items[m].LineNode?)
    ensures !HeadSwallows(items, i, placed, k, wasLine)
    decreases |items| - i
  {
    if i < |items| && placed <= k && !IsComment(items[i]) && !wasLine {
      var (j, line) := Trail(items, i + 1);
      TrailKeeps(items, i + 1);
      CalmHead(items, j, placed + 1, k, line);
    }
  }

  lemma CalmRest(a: seq<Lexeme>, b: seq<Lexeme>)
    requires Calm(a + b)
    ensures Calm(b)
  {
    forall i | 0 <= i < |b| - 1 && IsPrefix(b[i])
      ensures b[i + 1].kind != LineComment
    {
      assert (a + b)[|a| + i] == b[i] && (a + b)[|a| + i + 1] == b[i + 1];
    }
  }

  // ---- tokens of a text ----

  lemma {:induction false} LexemesAre(toks: seq<Tok>, i: nat)
    requires i < |toks|
    ensures Lexemes(toks)[i] == toks[i].lex
  {
    if i > 0 {
      LexemesAre(toks[1..], i - 1);
    }
  }

  lemma ScannedAreTokens(s: string, toks: seq<Tok>)
    requires Scan(s, 0) == Some(toks)
    ensures AllTokens(toks) && Spelled(toks) && Lex(s) == Some(Lexemes(toks))
  {
    hide IsToken, SpelledTok;
    ScanIsLex(s, 0);
    LexedAreTokens(s);
    forall i | 0 <= i < |toks|
      ensures Lexemes(toks)[i] == toks[i].lex
    {
      LexemesAre(toks, i);
    }
  }

  /** Only the last token of a text can be a character name that was cut off. */
  lemma {:induction false} CutIsLast(s: string)
    requires Lex(s).Some?
    ensures !Cut(Lex(s).value)
    decreases |s|
  {
    hide Token, ModeAfter;
    if s != [] {
      if IsSpace(s[0]) {
        CutIsLast(s[1..]);
      } else {
        var (k, n) := Token(s).value;
        CutIsLast(s[n..]);
        CutReachesEnd(s, k, n);
        var rest := Lex(s[n..]).value;
        assert Lex(s).value == [Lexeme(k, s[..n])] + rest;
        CutBehind(Lexeme(k, s[..n]), rest);
      }
    }
  }

  lemma CutBehind(t: Lexeme, rest: seq<Lexeme>)
    requires !Cut(rest) && (ModeAfter(t) == Starved ==> rest == [])
    ensures !Cut([t] + rest)
  {
    hide ModeAfter;
    var ls := [t] + rest;
    forall i | 0 <= i < |ls| - 1
      ensures ModeAfter(ls[i]) != Starved
    {
      if i > 0 { assert ls[i] == rest[i - 1]; }
    }
  }

  lemma CutReachesEnd(s: string, k: Kind, n: nat)
    requires s != [] && Token(s) == Some((k, n))
    ensures ModeAfter(Lexeme(k, s[..n])) == Starved ==> n == |s| && Lex(s[n..]) == Some([])
  {
    hide BlockLength, QuotedLength, RawString, IsLabel, AtomLength, LineLength, AlnumLength;
    var t := s[..n];
    if k == Atom && !Complete(t) {
      assert t[0] == s[0] && t[1] == s[1];
      if |t| > 2 { assert t[2] == s[2]; }
    }
  }

  /** Tidying changes nothing the printer goes by. */
  lemma {:induction false} TidySame(toks: seq<Tok>)
    requires AllTokens(toks)
    ensures Calm(TidyAll(toks)) == Calm(Lexemes(toks))
    ensures Splices(TidyAll(toks)) == Splices(Lexemes(toks)) && Cut(TidyAll(toks)) == Cut(Lexemes(toks))
    ensures CutOff(TidyAll(toks)) == CutOff(Lexemes(toks))
  {
    hide ModeAfter, IsToken, Complete;
    var a, b := TidyAll(toks), Lexemes(toks);
    forall i | 0 <= i < |toks|
      ensures TidyOf(a[i], b[i])
    {
      TidyIs(toks, i);
      LexemesAre(toks, i);
      TidyOfToken(toks[i].lex);
    }
    assert forall i :: 0 <= i < |toks| - 1 ==> SplicesAt(a, i) == SplicesAt(b, i);
    if toks != [] {
      assert TidyOf(a[|a| - 1], b[|b| - 1]);
    }
  }

  predicate TidyOf(a: Lexeme, b: Lexeme) {
    && a.kind == b.kind && ModeAfter(a) == ModeAfter(b) && At(a.text, 0, '@') == At(b.text, 0, '@')
    && (b.kind == Atom ==> a == b)
  }

  lemma TidyOfToken(t: Lexeme)
    requires IsToken(t)
    ensures TidyOf(Tidy(t), t)
  {
    hide BlockLength, QuotedLength, RawString, CharLength, IsLabel, AtomLength, LineLength, Trimmed, PlainBreaks, Complete;
    if t.kind == LineComment || t.kind == BlockComment {
      TidyIsToken(t);
      assert t.text[0] == ';' || t.text[0] == '#';
      assert Tidy(t).text[0] == ';' || Tidy(t).text[0] == '#';
    }
  }

  // ---- formatting ----

  datatype Outcome = Formatted(text: string) | Failed(error: Error)

  function ParseText(s: string): Parsed<seq<Node>> {
    match Scan(s, 0)
    case None => Err(UnterminatedToken)
    case Some(toks) => ParseProgram(toks)
  }

  /** The output is read back as the tokens of s one by one, but for blanks at the ends
      of line comments and the spelling of line breaks in block comments. */
  ghost predicate Preserves(s: string, text: string) {
    && Lex(s).Some? && Lex(text).Some? && |Lex(text).value| == |Lex(s).value|
    && forall i :: 0 <= i < |Lex(s).value| ==> IsTidied(Lex(s).value[i], Lex(text).value[i])
  }

  lemma PreservesIff(s: string, toks: seq<Tok>, text: string)
    requires Lex(s) == Some(Lexemes(toks))
    ensures Preserves(s, text) <==> Lex(text) == Some(TidyAll(toks))
  {
    hide Lex, IsTidied, Tidy;
    var a, b := Lexemes(toks), TidyAll(toks);
    forall i | 0 <= i < |toks| ensures a[i] == toks[i].lex && b[i] == Tidy(a[i]) {
      LexemesAre(toks, i);
      TidyIs(toks, i);
    }
    forall i, x ensures 0 <= i < |toks| ==> (IsTidied(a[i], x) <==> x == b[i]) {
      if 0 <= i < |toks| { TidyIff(a[i], x); }
    }
    if Lex(text).Some? {
      assert |Lex(text).value| == |a| && (forall i :: 0 <= i < |a| ==> IsTidied(a[i], Lex(text).value[i])) <==> Lex(text).value == b;
    }
  }

  /** A comma before an @, or a character name the text breaks off in. */
  predicate Mishap(ls: seq<Lexeme>) {
    Splices(ls) || CutOff(ls)
  }

  /** Formatting fails exactly where parsing does.  Otherwise the program is preserved
      exactly when its text has no mishap and its tree swallows nothing. */
  method Format(s: string) returns (r: Outcome)
    ensures match ParseText(s) case Ok(_, _) => r.Formatted? case Err(e) => r == Failed(e)
    ensures r.Formatted? ==> Lex(s).Some? && r.text != [] && r.text[|r.text| - 1] == '\n'
    ensures r.Formatted? ==> (Preserves(s, r.text) <==> !Mishap(Lex(s).value) && !AnySwallows(ParseText(s).value))
  {
    hide Spells, Scan, ParseProgram, Mishap, Sound, Lex, Tracks, AnySwallows;
    var scanned := FmtScanner.TokensOf(s);
    if scanned.None? {
      return Failed(UnterminatedToken);
    }
    var parsed := ParseProgram(scanned.value);
    if parsed.Err? {
      return Failed(parsed.error);
    }
    ScannedAreTokens(s, scanned.value);
    ParsedProgramIsSound(scanned.value);
    ParsedProgram(scanned.value);
    var p := new Printer();
    p.EmitTopLevel(parsed.value);
    ghost var ls := TidyAll(scanned.value);
    assert p.toks == ls;
    var text := p.out;
    Finished(s, scanned.value, parsed.value, text, p.mode);
    if text == [] || text[|text| - 1] != '\n' {
      text := text + "\n";
    }
    return Formatted(text);
  }

  // The text with its final line break, read back.
  lemma Finished(s: string, toks: seq<Tok>, nodes: seq<Node>, out: string, m: Mode)
    requires Scan(s, 0) == Some(toks) && AllTokens(toks) && Lex(s) == Some(Lexemes(toks))
    requires FlattenAll(nodes) == TidyAll(toks)
    requires Spells(out, TidyAll(toks), m) && Tracks(m, Free, FlattenAll(nodes), AnySwallows(nodes))
    requires m == Starved ==> EndsWithLast(out, TidyAll(toks))
    ensures var text := if out == [] || out[|out| - 1] != '\n' then out + "\n" else out;
            Preserves(s, text) <==> !Mishap(Lexemes(toks)) && !AnySwallows(nodes)
  {
    hide Spells, Scan, Lex, Splices, Cut, After, AnySwallows, AllTokens, Flatten, FlattenAll, Preserves;
    var ls := TidyAll(toks);
    PreservesIff(s, toks, out);
    PreservesIff(s, toks, out + "\n");
    TidySame(toks);
    CutIsLast(s);
    SpoiledIff(ls);
    LastMode(ls);
    assert EndsInBreak(out, ls, m) by { BreakAtEnd(out, ls, m); }
    ReadBack(out, ls, m);
  }

  lemma LastMode(ls: seq<Lexeme>)
    ensures After(Free, ls) == Starved <==> ls != [] && After(Free, ls) != Spoiled && ModeAfter(ls[|ls| - 1]) == Starved
  {
    if ls != [] && After(Free, ls) != Spoiled {
      AfterIs(ls);
    }
  }

  ghost predicate EndsInBreak(out: string, ls: seq<Lexeme>, m: Mode) {
    m == Starved ==> ls != [] && ls[|ls| - 1].text != [] && out != []
                     && out[|out| - 1] == ls[|ls| - 1].text[|ls[|ls| - 1].text| - 1]
  }

  lemma BreakAtEnd(out: string, ls: seq<Lexeme>, m: Mode)
    requires m == Starved ==> EndsWithLast(out, ls) && ls[|ls| - 1].text != []
    ensures EndsInBreak(out, ls, m)
  {
    if m == Starved {
      var t := ls[|ls| - 1].text;
      assert out[|out| - |t|..][|t| - 1] == out[|out| - 1];
    }
  }

  lemma ReadBack(out: string, ls: seq<Lexeme>, m: Mode)
    requires Spells(out, ls, m)
    ensures (Lex(out) == Some(ls)) <==> m != Spoiled
    ensures (Lex(out + "\n") == Some(ls)) <==> m != Spoiled && m != Starved
  {
    hide Spells, Lex;
    SpellsHere(out, ls, m, []);
    assert out + [] == out;
    LexNothing();
    SpellsHere(out, ls, m, "\n");
    LexBlank('\n', []);
    assert ['\n'] + [] == "\n";
    assert ls + [] == ls && ls <= ls;
  }

  lemma LexNothing()
    ensures Lex([]) == Some([])
  {
  }

  // ---- what goes wrong, and when nothing does ----

  /** A text with no line comment behind a prefix is preserved exactly when it has
      no mishap. */
  lemma CalmSwallowsNothing(s: string)
    requires ParseText(s).Ok? && Lex(s).Some? && Calm(Lex(s).value)
    ensures !AnySwallows(ParseText(s).value)
  {
    hide Scan, Lex, ParseProgram, Calm, Swallows, AllTokens;
    var toks := Scan(s, 0).value;
    ScannedAreTokens(s, toks);
    ParsedProgram(toks);
    TidySame(toks);
    var nodes := ParseText(s).value;
    assert FlattenAll(nodes) + [] == TidyAll(toks);
    CalmItemsAreSafe(nodes, []);
  }
}
