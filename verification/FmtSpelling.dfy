/** When a text spells given tokens, and what may be added to it. */
module FmtSpelling {
  import opened FmtLexer
  import opened FmtTree

  // ---- what may come after the last token ----

  datatype Mode =
    | Free
    | NeedsDelim    // after an atom
    | NeedsBreak    // after a line comment
    | NoAt          // after an unquote comma
    | Starved       // after a character name that ended with the text
    | Spoiled       // whatever follows, these tokens will not be read back

  predicate Admits(m: Mode, rest: string) {
    match m
    case Free => true
    case NeedsDelim => rest == [] || rest[0] == ' ' || rest[0] == '\n' || rest[0] == ')'
    case NeedsBreak => rest == [] || rest[0] == '\n'
    case NoAt => rest == [] || rest[0] != '@'
    case Starved => rest == []
    case Spoiled => false
  }

  predicate Refuses(m: Mode, rest: string) {
    match m
    case NeedsBreak => rest != [] && rest[0] != '\n'
    case NoAt => rest != [] && rest[0] == '@'
    case Starved => rest != []
    case Spoiled => true
    case _ => false
  }

  function ModeAfter(t: Lexeme): Mode {
    match t.kind
    case Atom => if Complete(t.text) then NeedsDelim else Starved
    case LineComment => NeedsBreak
    case Prefix => if t.text == "," then NoAt else Free
    case _ => Free
  }

  function Prepend(toks: seq<Lexeme>, r: Option<seq<Lexeme>>): Option<seq<Lexeme>> {
    if r.None? then None else Some(toks + r.value)
  }

  /** The text is not read back as these tokens and more. */
  predicate Misread(toks: seq<Lexeme>, r: Option<seq<Lexeme>>) {
    r.None? || !(toks <= r.value)
  }

  ghost predicate ReadsAs(out: string, toks: seq<Lexeme>, m: Mode, rest: string) {
    && (Admits(m, rest) ==> Lex(out + rest) == Prepend(toks, Lex(rest)))
    && (Refuses(m, rest) ==> Misread(toks, Lex(out + rest)))
  }

  /** Whatever comes next, as far as the mode lets it, `out` is read as `toks`. */
  ghost predicate Spells(out: string, toks: seq<Lexeme>, m: Mode) {
    forall rest :: ReadsAs(out, toks, m, rest)
  }

  lemma SpellsHere(out: string, toks: seq<Lexeme>, m: Mode, rest: string)
    requires Spells(out, toks, m)
    ensures ReadsAs(out, toks, m, rest)
  {
  }

  lemma NothingSpelled()
    ensures Spells("", [], Free)
  {
    forall rest
      ensures ReadsAs("", [], Free, rest)
    {
      assert "" + rest == rest;
      var r := Lex(rest);
      if r.Some? {
        assert [] + r.value == r.value;
      }
    }
  }

  /** After a space or a line break: a space goes into an open line comment. */
  function Blanked(m: Mode, c: char): Mode {
    if m == Spoiled || m == Starved || (m == NeedsBreak && c != '\n') then Spoiled else Free
  }

  /** After a token, with a line break before it where a comment needs one. */
  function NextMode(m: Mode, t: Lexeme): Mode {
    if m == Spoiled || m == Starved || (m == NoAt && At(t.text, 0, '@')) then Spoiled else ModeAfter(t)
  }

  /** After a token put directly behind what is there. */
  function Joined(m: Mode, t: Lexeme): Mode {
    if m == NeedsBreak then Spoiled else NextMode(m, t)
  }

  lemma Misreads(toks: seq<Lexeme>, more: seq<Lexeme>, r: Option<seq<Lexeme>>)
    requires Misread(toks, r)
    ensures Misread(toks + more, r)
  {
  }

  /** White space between tokens. */
  lemma AddBlank(out: string, toks: seq<Lexeme>, m: Mode, c: char)
    requires Spells(out, toks, m) && (c == '\n' || c == ' ')
    ensures Spells(out + [c], toks, Blanked(m, c))
  {
    hide Lex, Spells;
    forall rest
      ensures ReadsAs(out + [c], toks, Blanked(m, c), rest)
    {
      assert out + [c] + rest == out + ([c] + rest);
      SpellsHere(out, toks, m, [c] + rest);
      LexBlank(c, rest);
    }
    SpellsAll(out + [c], toks, Blanked(m, c));
  }

  lemma SpellsAll(out: string, toks: seq<Lexeme>, m: Mode)
    requires forall rest :: ReadsAs(out, toks, m, rest)
    ensures Spells(out, toks, m)
  {
  }

  lemma LexBlank(c: char, rest: string)
    requires IsSpace(c)
    ensures Lex([c] + rest) == Lex(rest)
  {
    assert ([c] + rest)[1..] == rest;
  }

  /** The token, read where it stands before `rest`. */
  lemma LexToken(t: Lexeme, rest: string)
    requires IsToken(t) && MayFollow(t, rest)
    ensures Lex(t.text + rest) == Prepend([t], Lex(rest))
  {
    hide Token, MayFollow;
    var s := t.text;
    assert s[..|s|] == s;
    TokenStable(s, t.kind, |s|, rest);
    var b := s + rest;
    assert b[0] == s[0] && b[..|s|] == s && b[|s|..] == rest;
  }

  lemma AdmittedMayFollow(t: Lexeme, rest: string)
    requires Admits(ModeAfter(t), rest)
    ensures MayFollow(t, rest)
  {
  }

  /** Adding a token whose first byte the mode admits, or refuses. */
  lemma AddToken(out: string, toks: seq<Lexeme>, m: Mode, t: Lexeme)
    requires Spells(out, toks, m) && IsToken(t)
    requires Admits(m, t.text) || Refuses(m, t.text)
    ensures Spells(out + t.text, toks + [t], Joined(m, t))
  {
    hide Lex, Spells, IsToken;
    forall rest
      ensures ReadsAs(out + t.text, toks + [t], Joined(m, t), rest)
    {
      assert out + t.text + rest == out + (t.text + rest);
      SpellsHere(out, toks, m, t.text + rest);
      TextNotEmpty(t);
      assert (t.text + rest)[0] == t.text[0];
      TokenIsNoBreak(t);
      if Refuses(m, t.text) {
        Misreads(toks, [t], Lex(out + (t.text + rest)));
      } else if Admits(ModeAfter(t), rest) {
        AdmittedMayFollow(t, rest);
        LexToken(t, rest);
        PrependTwice(toks, [t], Lex(rest));
      } else if Refuses(ModeAfter(t), rest) {
        LexGrown(t, rest);
        MisreadAfter(toks, t, Lex(t.text + rest));
      }
    }
    SpellsAll(out + t.text, toks + [t], Joined(m, t));
  }

  lemma TokenIsNoBreak(t: Lexeme)
    requires IsToken(t)
    ensures t.text[0] != '\n'
  {
  }

  lemma TextNotEmpty(t: Lexeme)
    requires IsToken(t)
    ensures t.text != []
  {
  }

  lemma PrependTwice(a: seq<Lexeme>, b: seq<Lexeme>, r: Option<seq<Lexeme>>)
    ensures Prepend(a, Prepend(b, r)) == Prepend(a + b, r)
  {
    if r.Some? {
      assert a + (b + r.value) == a + b + r.value;
    }
  }

  lemma MisreadAfter(toks: seq<Lexeme>, t: Lexeme, r: Option<seq<Lexeme>>)
    requires Misread([t], r)
    ensures Misread(toks + [t], Prepend(toks, r))
  {
    if r.Some? && r.value != [] {
      assert (toks + r.value)[|toks|] == r.value[0];
      assert (toks + [t])[|toks|] == t;
    }
  }

  /** A comma takes an @ that follows, a character name the bytes it lacks, a line
      comment everything up to the line break. */
  lemma LexGrown(t: Lexeme, rest: string)
    requires IsToken(t) && Refuses(ModeAfter(t), rest)
    ensures Misread([t], Lex(t.text + rest))
  {
    var b := t.text + rest;
    assert b[0] == t.text[0];
    var r := Token(b);
    assert r.Some? && r.value.1 > |t.text| by {
      if t.kind == Atom { CharGrows(t, rest); }
      if t.kind == LineComment { CommentGrows(t, rest); }
    }
    var l := Lex(b);
    if l.Some? {
      assert l.value[0].text == b[..r.value.1];
    }
  }

  lemma CommentGrows(t: Lexeme, rest: string)
    requires IsToken(t) && t.kind == LineComment && rest != [] && rest[0] != '\n'
    ensures Token(t.text + rest).Some? && Token(t.text + rest).value.1 > |t.text|
  {
    hide BlockLength, QuotedLength, RawString, CharLength, IsLabel, AtomLength, LineLength;
    var s := t.text;
    var b := s + rest;
    assert b[0] == s[0] == ';';
    assert s[..|s|] == s;
    var n := LineLength(b);
    assert n < |b| ==> b[n] == '\n';
    assert forall i :: 0 <= i < |s| ==> b[i] == s[i];
    assert b[|s|] == rest[0];
  }

  lemma CharGrows(t: Lexeme, rest: string)
    requires IsToken(t) && t.kind == Atom && !Complete(t.text) && rest != []
    ensures Token(t.text + rest).Some? && Token(t.text + rest).value.1 > |t.text|
  {
    hide BlockLength, QuotedLength, RawString, IsLabel, AtomLength;
    var s := t.text;
    var b := s + rest;
    assert b[0] == '#' && b[1] == '\\';
    var c := b[2..];
    assert c == s[2..] + rest;
    if |s| > 2 {
      assert c[0] == s[2];
      assert |s[2..]| < Utf8Length(c[0]);
    }
    assert CharLength(c) > |s| - 2;
  }

  // ---- tokens of a text ----

  lemma {:induction false} LexedAreTokens(s: string)
    requires Lex(s).Some?
    ensures forall i :: 0 <= i < |Lex(s).value| ==> IsToken(Lex(s).value[i]) && SpelledTok(Lex(s).value[i])
    decreases |s|
  {
    hide Token, IsToken, SpelledTok;
    if s != [] {
      if IsSpace(s[0]) {
        LexedAreTokens(s[1..]);
      } else {
        var (k, n) := Token(s).value;
        LexedAreTokens(s[n..]);
        FirstIsToken(s, k, n);
      }
    }
  }

  lemma FirstIsToken(s: string, k: Kind, n: nat)
    requires s != [] && !IsSpace(s[0]) && Token(s) == Some((k, n))
    ensures IsToken(Lexeme(k, s[..n])) && SpelledTok(Lexeme(k, s[..n]))
  {
    TokenStable(s, k, n, []);
    assert s[..n] + [] == s[..n];
    hide BlockLength, QuotedLength, RawString, CharLength, IsLabel, AtomLength, LineLength;
    if k == DatumComment {
      assert s[..n] == "#;";
    }
  }

  /** A tidied token is still one token of its kind. */
  lemma TidyIsToken(t: Lexeme)
    requires IsToken(t)
    ensures IsToken(Tidy(t))
  {
    if t.kind == LineComment {
      TrimmedIsToken(t);
    } else if t.kind == BlockComment {
      BreaksAreToken(t);
    }
  }

  lemma TrimmedIsToken(t: Lexeme)
    requires IsToken(t) && t.kind == LineComment
    ensures IsToken(Lexeme(LineComment, Trimmed(t.text)))
  {
    hide BlockLength, QuotedLength, RawString, CharLength, IsLabel, AtomLength;
    var s := t.text;
    assert s[0] == ';' && LineLength(s) == |s| && s[..|s|] == s;
    TrimmedKeepsFirst(s);
    var u := Trimmed(s);
    assert '\n' !in u by { assert forall i :: 0 <= i < |u| ==> u[i] == s[i]; }
    LineStable(u, []);
    assert u + [] == u;
  }

  lemma {:induction false} TrimmedKeepsFirst(s: string)
    requires s != [] && !IsBlank(s[0])
    ensures Trimmed(s) != [] && Trimmed(s)[0] == s[0]
  {
    if IsBlank(s[|s| - 1]) {
      TrimmedKeepsFirst(s[..|s| - 1]);
    }
  }

  /** Replacing line breaks inside a block comment changes nothing the lexer counts. */
  lemma {:induction false} BlockPlain(s: string, depth: nat)
    requires depth > 0 && BlockLength(s, depth) == Some(|s|)
    ensures BlockLength(PlainBreaks(s), depth) == Some(|PlainBreaks(s)|)
    decreases |s|
  {
    hide BlockLength, PlainBreaks;
    BlockStep(s, depth);
    BlockIsLong(s, depth);
    PlainStep(s);
    var p := PlainBreaks(s);
    BlockStep(p, depth);
    if Opens(s) {
      BlockPlain(s[2..], depth + 1);
      PlainTwo(s);
      assert p[2..] == PlainBreaks(s[2..]);
    } else if Closes(s) {
      PlainTwo(s);
      if depth > 1 {
        BlockPlain(s[2..], depth - 1);
        assert p[2..] == PlainBreaks(s[2..]);
      } else {
        assert s[2..] == [];
        PlainStep(s[2..]);
      }
    } else {
      BlockPlain(s[1..], depth);
      BlockIsLong(PlainBreaks(s[1..]), depth);
      PlainStep(s[1..]);
      if s[0] == '\r' && At(s, 1, '\n') {
        assert p == PlainBreaks(s[1..]);
      } else {
        assert p[1..] == PlainBreaks(s[1..]);
      }
    }
  }

  lemma PlainStep(s: string)
    ensures s == [] ==> PlainBreaks(s) == []
    ensures s != [] && s[0] == '\r' && At(s, 1, '\n') ==> PlainBreaks(s) == PlainBreaks(s[1..])
    ensures s != [] && s[0] == '\r' && !At(s, 1, '\n') ==> PlainBreaks(s) == ['\n'] + PlainBreaks(s[1..])
    ensures s != [] && s[0] != '\r' ==> PlainBreaks(s) == [s[0]] + PlainBreaks(s[1..])
    ensures s != [] && s[0] == '\r' ==> At(PlainBreaks(s), 0, '\n')
  {
    if s != [] && s[0] == '\r' && At(s, 1, '\n') {
      assert s[1..][0] == '\n';
      assert [] + PlainBreaks(s[1..]) == PlainBreaks(s[1..]);
    }
  }

  lemma PlainTwo(s: string)
    requires Opens(s) || Closes(s)
    ensures PlainBreaks(s) == s[..2] + PlainBreaks(s[2..])
  {
    PlainStep(s);
    PlainStep(s[1..]);
    assert s[1..][1..] == s[2..];
  }

  lemma BreaksAreToken(t: Lexeme)
    requires IsToken(t) && t.kind == BlockComment
    ensures IsToken(Lexeme(BlockComment, PlainBreaks(t.text)))
  {
    hide BlockLength, QuotedLength, RawString, CharLength, IsLabel, AtomLength, PlainBreaks;
    var s := t.text;
    assert s[0] == '#' && At(s, 1, '|');
    BlockPlain(s[2..], 1);
    PlainTwo(s);
    var p := PlainBreaks(s);
    assert p[2..] == PlainBreaks(s[2..]);
  }

  // ---- runs of tokens ----

  /** The mode after some tokens, whatever white space the layout puts between them. */
  function After(m: Mode, ls: seq<Lexeme>): Mode
    decreases |ls|
  {
    if ls == [] then m else After(NextMode(m, ls[0]), ls[1..])
  }

  lemma {:induction false} AfterConcat(m: Mode, a: seq<Lexeme>, b: seq<Lexeme>)
    ensures After(m, a + b) == After(After(m, a), b)
    decreases |a|
  {
    hide NextMode;
    if a == [] {
      assert a + b == b;
    } else {
      AfterConcat(NextMode(m, a[0]), a[1..], b);
      assert (a + b)[1..] == a[1..] + b;
    }
  }

  lemma AfterBlank(m: Mode, c: char, ls: seq<Lexeme>)
    requires ls != [] && m != NoAt
    ensures Blanked(m, c) == Spoiled || After(Blanked(m, c), ls) == After(m, ls)
    ensures m != NeedsBreak || c == '\n' ==> After(Blanked(m, c), ls) == After(m, ls)
  {
    assert Blanked(m, c) == Free ==> NextMode(Blanked(m, c), ls[0]) == NextMode(m, ls[0]);
  }

  lemma {:induction false} StaysSpoiled(ls: seq<Lexeme>)
    ensures After(Spoiled, ls) == Spoiled
  {
    if ls != [] {
      StaysSpoiled(ls[1..]);
    }
  }

  /** An unquote comma directly before a token that starts with @. */
  predicate Splices(ls: seq<Lexeme>) {
    exists i :: 0 <= i < |ls| - 1 && SplicesAt(ls, i)
  }

  predicate SplicesAt(ls: seq<Lexeme>, i: nat)
    requires i + 1 < |ls|
  {
    ModeAfter(ls[i]) == NoAt && At(ls[i + 1].text, 0, '@')
  }

  predicate Cut(ls: seq<Lexeme>) {
    exists i :: 0 <= i < |ls| - 1 && ModeAfter(ls[i]) == Starved
  }

  lemma AfterSnoc(m: Mode, r: seq<Lexeme>, t: Lexeme)
    ensures After(m, r + [t]) == NextMode(After(m, r), t)
  {
    AfterConcat(m, r, [t]);
  }

  lemma {:induction false} AfterIs(ls: seq<Lexeme>)
    requires ls != [] && After(Free, ls) != Spoiled
    ensures After(Free, ls) == ModeAfter(ls[|ls| - 1])
  {
    var r := ls[..|ls| - 1];
    assert ls == r + [ls[|ls| - 1]];
    AfterSnoc(Free, r, ls[|ls| - 1]);
  }

  /** Tokens are printed so that they cannot be read back exactly when a comma
      stands before an @, or a character name that was cut off is not the last. */
  lemma {:induction false} SpoiledIff(ls: seq<Lexeme>)
    ensures After(Free, ls) == Spoiled <==> Splices(ls) || Cut(ls)
  {
    hide ModeAfter, After;
    if ls == [] {
      AfterNone(Free);
    } else {
      var r, t := ls[..|ls| - 1], ls[|ls| - 1];
      assert ls == r + [t];
      AfterSnoc(Free, r, t);
      SpoiledIff(r);
      SpoilsOneMore(r, t);
      if r == [] {
        AfterNone(Free);
      } else if After(Free, r) != Spoiled {
        AfterIs(r);
      }
      NeverSpoiled(t);
    }
  }

  lemma AfterNone(m: Mode)
    ensures After(m, []) == m
  {
  }

  lemma NeverSpoiled(t: Lexeme)
    ensures ModeAfter(t) != Spoiled
  {
  }

  lemma SpoilsOneMore(r: seq<Lexeme>, t: Lexeme)
    ensures Splices(r + [t]) <==> Splices(r) || (r != [] && ModeAfter(r[|r| - 1]) == NoAt && At(t.text, 0, '@'))
    ensures Cut(r + [t]) <==> Cut(r) || (r != [] && ModeAfter(r[|r| - 1]) == Starved)
  {
    hide ModeAfter;
    var ls := r + [t];
    forall i | 0 <= i < |r| - 1
      ensures SplicesAt(ls, i) <==> SplicesAt(r, i)
      ensures ls[i] == r[i]
    {
      assert ls[i] == r[i] && ls[i + 1] == r[i + 1];
    }
    if r != [] {
      assert ls[|r| - 1] == r[|r| - 1] && ls[|r|] == t;
      assert SplicesAt(ls, |r| - 1) <==> ModeAfter(r[|r| - 1]) == NoAt && At(t.text, 0, '@');
    }
  }
}
