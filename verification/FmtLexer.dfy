/** The formatter's lexer. A byte is written as the character of its code. */
module FmtLexer {

  datatype Option<T> = None | Some(value: T)

  datatype Kind = LParen | RParen | ListOpen | Atom | Prefix | DatumComment | LineComment | BlockComment

  datatype Lexeme = Lexeme(kind: Kind, text: string)

  predicate IsSpace(c: char) {
    c == ' ' || c == '\t' || c == '\n' || c == '\r' || c as int == 12
  }

  predicate IsDelim(c: char) {
    IsSpace(c) || c == '(' || c == ')' || c == '"' || c == ';' || c == '|'
  }

  predicate IsDigit(c: char) {
    '0' <= c <= '9'
  }

  predicate IsAlpha(c: char) {
    'a' <= c <= 'z' || 'A' <= c <= 'Z'
  }

  // ---- how far each kind of token reaches ----

  /** To the closing quote; a backslash takes the next byte with it. */
  function QuotedLength(s: string, quote: char): (r: Option<nat>)
    ensures r.Some? ==> 0 < r.value <= |s|
  {
    if s == [] then None
    else if s[0] == '\\' then
      if |s| < 2 then None
      else
        var r := QuotedLength(s[2..], quote);
        if r.None? then None else Some(2 + r.value)
    else if s[0] == quote then Some(1)
    else
      var r := QuotedLength(s[1..], quote);
      if r.None? then None else Some(1 + r.value)
  }

  function AtomLength(s: string): (n: nat)
    ensures n <= |s| && (n < |s| ==> IsDelim(s[n]))
  {
    if s == [] || IsDelim(s[0]) then 0 else 1 + AtomLength(s[1..])
  }

  function LineLength(s: string): (n: nat)
    ensures n <= |s| && (n < |s| ==> s[n] == '\n') && '\n' !in s[..n]
  {
    if s == [] || s[0] == '\n' then 0 else 1 + LineLength(s[1..])
  }

  /** To the end of the comment `depth` openings deep. */
  function BlockLength(s: string, depth: nat): (r: Option<nat>)
    requires depth > 0
    ensures r.Some? ==> 0 < r.value <= |s|
  {
    if |s| < 2 then None
    else if s[0] == '#' && s[1] == '|' then
      var r := BlockLength(s[2..], depth + 1);
      if r.None? then None else Some(2 + r.value)
    else if s[0] == '|' && s[1] == '#' then
      if depth == 1 then Some(2)
      else
        var r := BlockLength(s[2..], depth - 1);
        if r.None? then None else Some(2 + r.value)
    else
      var r := BlockLength(s[1..], depth);
      if r.None? then None else Some(1 + r.value)
  }

  function QuoteIndex(s: string): (r: Option<nat>)
    ensures r.Some? ==> r.value < |s| && s[r.value] == '"'
  {
    if s == [] then None
    else if s[0] == '"' then Some(0)
    else
      var r := QuoteIndex(s[1..]);
      if r.None? then None else Some(1 + r.value)
  }

  predicate ClosesRaw(s: string, delim: string) {
    |s| >= |delim| + 2 && s[0] == '"' && s[1..|delim| + 1] == delim && s[|delim| + 1] == '"'
  }

  function RawLength(s: string, delim: string): (r: Option<nat>)
    ensures r.Some? ==> 0 < r.value <= |s|
  {
    if s == [] then None
    else if ClosesRaw(s, delim) then Some(|delim| + 2)
    else
      var r := RawLength(s[1..], delim);
      if r.None? then None else Some(1 + r.value)
  }

  function AlnumLength(s: string): (n: nat)
    ensures n <= |s| && (n < |s| ==> !IsAlpha(s[n]) && !IsDigit(s[n]))
  {
    if s == [] || !(IsAlpha(s[0]) || IsDigit(s[0])) then 0 else 1 + AlnumLength(s[1..])
  }

  /** The bytes a character takes, told from its first one. */
  function Utf8Length(first: char): (n: nat)
    ensures 1 <= n <= 4
  {
    var b := first as int;
    if 0xC0 <= b < 0xE0 then 2 else if 0xE0 <= b < 0xF0 then 3 else if 0xF0 <= b < 0xF8 then 4 else 1
  }

  function Min(a: nat, b: nat): nat {
    if a <= b then a else b
  }

  // A character after #\ : its bytes, and for a letter the rest of a name.
  function CharLength(s: string): (n: nat)
    ensures n <= |s|
  {
    if s == [] then 0
    else
      var n := Min(|s|, Utf8Length(s[0]));
      if IsAlpha(s[0]) then n + AlnumLength(s[n..]) else n
  }

  function DigitLength(s: string): (n: nat)
    ensures n <= |s| && (n < |s| ==> !IsDigit(s[n]))
  {
    if s == [] || !IsDigit(s[0]) then 0 else 1 + DigitLength(s[1..])
  }

  // ---- one token ----

  predicate At(s: string, i: nat, c: char) {
    i < |s| && s[i] == c
  }

  function Shifted(r: Option<nat>, k: nat): Option<nat> {
    if r.None? then None else Some(k + r.value)
  }

  function RawString(s: string): (r: Option<nat>)
    requires |s| >= 2
    ensures r.Some? ==> 2 < r.value <= |s|
  {
    var d := QuoteIndex(s[2..]);
    if d.None? then None
    else
      var delim := s[2..2 + d.value];
      Shifted(RawLength(s[3 + d.value..], delim), 3 + d.value)
  }

  function Kinded(k: Kind, r: Option<nat>): Option<(Kind, nat)> {
    if r.None? then None else Some((k, r.value))
  }

  /** A label like #12= quotes what follows it. */
  predicate IsLabel(s: string) {
    At(s, 0, '#') && DigitLength(s[1..]) > 0 && At(s, 1 + DigitLength(s[1..]), '=')
  }

  function HashToken(s: string): (r: Option<(Kind, nat)>)
    requires At(s, 0, '#')
    ensures r.Some? ==> 0 < r.value.1 <= |s|
  {
    if At(s, 1, '|') then Kinded(BlockComment, Shifted(BlockLength(s[2..], 1), 2))
    else if At(s, 1, ';') then Some((DatumComment, 2))
    else if At(s, 1, '(') then Some((ListOpen, 2))
    else if At(s, 1, 'u') && At(s, 2, '8') && At(s, 3, '(') then Some((ListOpen, 4))
    else if At(s, 1, 'u') && At(s, 2, '8') && At(s, 3, '"') then Kinded(Atom, Shifted(QuotedLength(s[4..], '"'), 4))
    else if At(s, 1, '"') then Kinded(Atom, RawString(s))
    else if At(s, 1, '\\') then Some((Atom, 2 + CharLength(s[2..])))
    else if IsLabel(s) then Some((Prefix, 2 + DigitLength(s[1..])))
    else Some((Atom, 1 + AtomLength(s[1..])))
  }

  function Token(s: string): (r: Option<(Kind, nat)>)
    requires s != []
    ensures r.Some? ==> 0 < r.value.1 <= |s|
  {
    var c := s[0];
    if c == '(' then Some((LParen, 1))
    else if c == ')' then Some((RParen, 1))
    else if c == '\'' || c == '`' then Some((Prefix, 1))
    else if c == ',' then Some((Prefix, if At(s, 1, '@') then 2 else 1))
    else if c == ';' then Some((LineComment, LineLength(s)))
    else if c == '"' then Kinded(Atom, Shifted(QuotedLength(s[1..], '"'), 1))
    else if c == '|' then Kinded(Atom, Shifted(QuotedLength(s[1..], '|'), 1))
    else if c == '#' then HashToken(s)
    else Some((Atom, 1 + AtomLength(s[1..])))
  }

  /** All the tokens of a text, or nothing when one does not end. */
  function Lex(s: string): Option<seq<Lexeme>> {
    if s == [] then Some([])
    else if IsSpace(s[0]) then Lex(s[1..])
    else
      match Token(s)
      case None => None
      case Some((k, n)) =>
        match Lex(s[n..])
        case None => None
        case Some(rest) => Some([Lexeme(k, s[..n])] + rest)
  }

  // ---- a token keeps its extent in another text ----

  /** A character name that has all its bytes. */
  predicate Complete(text: string) {
    At(text, 0, '#') && At(text, 1, '\\') ==> |text| > 2 && |text| >= 2 + Utf8Length(text[2])
  }

  /** What may come directly after a token without changing it. */
  predicate MayFollow(t: Lexeme, rest: string) {
    rest == [] ||
    match t.kind
    case Atom => (rest[0] == ' ' || rest[0] == '\n' || rest[0] == ')') && Complete(t.text)
    case Prefix => t.text == "," ==> rest[0] != '@'
    case LineComment => rest[0] == '\n'
    case _ => true
  }

  /** The text is one whole token of its kind. */
  predicate IsToken(t: Lexeme) {
    t.text != [] && !IsSpace(t.text[0]) && Token(t.text) == Some((t.kind, |t.text|))
  }

  lemma {:induction false} QuotedStable(s: string, q: char, n: nat, rest: string)
    requires QuotedLength(s, q) == Some(n)
    ensures QuotedLength(s[..n] + rest, q) == Some(n)
  {
    var b := s[..n] + rest;
    if s[0] == '\\' {
      QuotedStable(s[2..], q, n - 2, rest);
      assert b[2..] == s[2..][..n - 2] + rest;
    } else if s[0] != q {
      QuotedStable(s[1..], q, n - 1, rest);
      assert b[1..] == s[1..][..n - 1] + rest;
    }
  }

  lemma {:induction false} AtomStable(s: string, rest: string)
    requires rest == [] || IsDelim(rest[0])
    ensures AtomLength(s[..AtomLength(s)] + rest) == AtomLength(s)
  {
    var n := AtomLength(s);
    var b := s[..n] + rest;
    if n > 0 {
      AtomStable(s[1..], rest);
      assert b[1..] == s[1..][..n - 1] + rest;
    }
  }

  lemma {:induction false} LineStable(s: string, rest: string)
    requires '\n' !in s && (rest == [] || rest[0] == '\n')
    ensures LineLength(s + rest) == |s|
  {
    if s != [] {
      LineStable(s[1..], rest);
      assert (s + rest)[1..] == s[1..] + rest;
    }
  }

  lemma {:induction false} BlockStable(s: string, depth: nat, n: nat, rest: string)
    requires depth > 0 && BlockLength(s, depth) == Some(n)
    ensures BlockLength(s[..n] + rest, depth) == Some(n)
    decreases |s|
  {
    hide BlockLength;
    var b := s[..n] + rest;
    BlockStep(s, depth);
    BlockIsLong(s, depth);
    BlockStep(b, depth);
    assert b[0] == s[0] && b[1] == s[1];
    if Opens(s) {
      BlockStable(s[2..], depth + 1, n - 2, rest);
      assert b[2..] == s[2..][..n - 2] + rest;
    } else if Closes(s) {
      if depth > 1 {
        BlockStable(s[2..], depth - 1, n - 2, rest);
        assert b[2..] == s[2..][..n - 2] + rest;
      }
    } else {
      BlockStable(s[1..], depth, n - 1, rest);
      assert b[1..] == s[1..][..n - 1] + rest;
    }
  }

  predicate Opens(s: string) {
    At(s, 0, '#') && At(s, 1, '|')
  }

  predicate Closes(s: string) {
    At(s, 0, '|') && At(s, 1, '#')
  }

  lemma BlockStep(s: string, depth: nat)
    requires depth > 0
    ensures BlockLength(s, depth)
         == if |s| < 2 then None
            else if Opens(s) then Shifted(BlockLength(s[2..], depth + 1), 2)
            else if Closes(s) then (if depth == 1 then Some(2) else Shifted(BlockLength(s[2..], depth - 1), 2))
            else Shifted(BlockLength(s[1..], depth), 1)
  {
  }

  lemma {:induction false} BlockIsLong(s: string, depth: nat)
    requires depth > 0
    ensures BlockLength(s, depth).Some? ==> BlockLength(s, depth).value >= 2
    decreases |s|
  {
    if |s| >= 2 && !(s[0] == '#' && s[1] == '|') && !(s[0] == '|' && s[1] == '#') {
      BlockIsLong(s[1..], depth);
    }
  }

  lemma {:induction false} QuoteIndexStable(s: string, n: nat, rest: string)
    requires QuoteIndex(s) == Some(n)
    ensures QuoteIndex(s[..n + 1] + rest) == Some(n)
  {
    var b := s[..n + 1] + rest;
    if n > 0 {
      QuoteIndexStable(s[1..], n - 1, rest);
      assert b[1..] == s[1..][..n] + rest;
    }
  }

  lemma {:induction false} RawStable(s: string, delim: string, n: nat, rest: string)
    requires RawLength(s, delim) == Some(n)
    ensures RawLength(s[..n] + rest, delim) == Some(n)
  {
    var b := s[..n] + rest;
    if ClosesRaw(s, delim) {
      assert b[1..|delim| + 1] == s[1..|delim| + 1];
    } else {
      RawStable(s[1..], delim, n - 1, rest);
      assert b[1..] == s[1..][..n - 1] + rest;
      RawIsLong(s[1..], delim);
      assert b[1..|delim| + 1] == s[1..|delim| + 1];
      assert b[|delim| + 1] == s[|delim| + 1];
    }
  }

  lemma {:induction false} RawIsLong(s: string, delim: string)
    ensures RawLength(s, delim).Some? ==> RawLength(s, delim).value >= |delim| + 2
  {
    if s != [] && !ClosesRaw(s, delim) {
      RawIsLong(s[1..], delim);
    }
  }

  lemma {:induction false} AlnumStable(s: string, rest: string)
    requires rest == [] || !(IsAlpha(rest[0]) || IsDigit(rest[0]))
    ensures AlnumLength(s[..AlnumLength(s)] + rest) == AlnumLength(s)
  {
    var n := AlnumLength(s);
    if n > 0 {
      AlnumStable(s[1..], rest);
      assert (s[..n] + rest)[1..] == s[1..][..n - 1] + rest;
    }
  }

  lemma RawStringStable(s: string, n: nat, rest: string)
    requires |s| >= 2 && RawString(s) == Some(n)
    ensures RawString(s[..n] + rest) == Some(n)
  {
    hide RawLength, QuoteIndex;
    var b := s[..n] + rest;
    var d := QuoteIndex(s[2..]).value;
    QuoteIndexStable(s[2..], d, s[3 + d..n] + rest);
    assert b[2..] == s[2..][..d + 1] + (s[3 + d..n] + rest);
    var delim := s[2..2 + d];
    assert b[2..2 + d] == delim;
    RawStable(s[3 + d..], delim, n - 3 - d, rest);
    assert b[3 + d..] == s[3 + d..][..n - 3 - d] + rest;
  }

  lemma CharStable(s: string, rest: string)
    requires rest == [] || (!(IsAlpha(rest[0]) || IsDigit(rest[0])) && s != [] && |s| >= Utf8Length(s[0]))
    ensures CharLength(s[..CharLength(s)] + rest) == CharLength(s)
  {
    var n := CharLength(s);
    var b := s[..n] + rest;
    if s != [] && IsAlpha(s[0]) {
      AlnumStable(s[1..], rest);
      assert b[1..] == s[1..][..n - 1] + rest;
    }
  }

  lemma {:induction false} DigitStable(s: string, n: nat, rest: string)
    requires DigitLength(s) <= n <= |s| && (DigitLength(s) == n ==> rest == [] || !IsDigit(rest[0]))
    ensures DigitLength(s[..n] + rest) == DigitLength(s)
  {
    var b := s[..n] + rest;
    if DigitLength(s) > 0 {
      DigitStable(s[1..], n - 1, rest);
      assert b[1..] == s[1..][..n - 1] + rest;
    }
  }

  // Nothing after # makes it more than a plain atom.
  predicate PlainHead(s: string) {
    && At(s, 0, '#') && !At(s, 1, '|') && !At(s, 1, ';') && !At(s, 1, '(') && !At(s, 1, '"') && !At(s, 1, '\\')
    && !(At(s, 1, 'u') && At(s, 2, '8') && (At(s, 3, '(') || At(s, 3, '"')))
  }

  predicate AtomEnd(rest: string) {
    rest == [] || rest[0] == ' ' || rest[0] == '\n' || rest[0] == ')'
  }

  lemma PlainHeadStable(s: string, rest: string)
    requires PlainHead(s) && AtomEnd(rest)
    ensures PlainHead(s[..1 + AtomLength(s[1..])] + rest)
  {
    hide AtomLength;
    var a := AtomLength(s[1..]);
    var b := s[..1 + a] + rest;
    AtomHasNoDelim(s[1..]);
    assert forall i :: 0 < i < 1 + a ==> b[i] == s[1..][i - 1];
  }

  lemma NoLabelStable(s: string, rest: string)
    requires At(s, 0, '#') && !IsLabel(s) && AtomEnd(rest)
    ensures !IsLabel(s[..1 + AtomLength(s[1..])] + rest)
  {
    hide AtomLength, DigitLength;
    var a := AtomLength(s[1..]);
    var d := DigitLength(s[1..]);
    var b := s[..1 + a] + rest;
    assert b[1..] == s[1..][..a] + rest;
    DigitsInAtom(s[1..]);
    DigitStable(s[1..], a, rest);
    if d < a {
      assert b[1 + d] == s[1 + d];
    }
  }

  lemma PlainHashStable(s: string, rest: string)
    requires PlainHead(s) && !IsLabel(s) && AtomEnd(rest)
    ensures HashToken(s[..1 + AtomLength(s[1..])] + rest) == Some((Atom, 1 + AtomLength(s[1..])))
  {
    hide AtomLength, IsLabel, BlockLength, QuotedLength, RawString, CharLength;
    var a := AtomLength(s[1..]);
    var b := s[..1 + a] + rest;
    PlainHeadStable(s, rest);
    NoLabelStable(s, rest);
    AtomStable(s[1..], rest);
    assert b[1..] == s[1..][..a] + rest;
  }

  lemma {:induction false} AtomHasNoDelim(s: string)
    ensures forall i :: 0 <= i < AtomLength(s) ==> !IsDelim(s[i])
  {
    if s != [] && !IsDelim(s[0]) {
      AtomHasNoDelim(s[1..]);
      forall i | 0 <= i < AtomLength(s) ensures !IsDelim(s[i]) {
        if i > 0 { assert s[i] == s[1..][i - 1]; }
      }
    }
  }

  lemma {:induction false} DigitsInAtom(s: string)
    ensures DigitLength(s) <= AtomLength(s)
  {
    if s != [] && IsDigit(s[0]) {
      DigitsInAtom(s[1..]);
    }
  }

  lemma HashStable(s: string, k: Kind, n: nat, rest: string)
    requires At(s, 0, '#') && HashToken(s) == Some((k, n)) && MayFollow(Lexeme(k, s[..n]), rest)
    ensures HashToken(s[..n] + rest) == Some((k, n))
  {
    hide BlockLength, QuotedLength, RawString, CharLength, IsLabel, AtomLength;
    var b := s[..n] + rest;
    if At(s, 1, '|') {
      BlockStable(s[2..], 1, n - 2, rest);
      assert b[2..] == s[2..][..n - 2] + rest;
    } else if At(s, 1, ';') || At(s, 1, '(') {
    } else if At(s, 1, 'u') && At(s, 2, '8') && At(s, 3, '(') {
    } else if At(s, 1, 'u') && At(s, 2, '8') && At(s, 3, '"') {
      QuotedStable(s[4..], '"', n - 4, rest);
      assert b[4..] == s[4..][..n - 4] + rest;
    } else if At(s, 1, '"') {
      RawStringStable(s, n, rest);
    } else if At(s, 1, '\\') {
      HashCharStable(s, n, rest);
    } else if IsLabel(s) {
      LabelStable(s, rest);
    } else {
      PlainHashStable(s, rest);
    }
  }

  lemma HashCharStable(s: string, n: nat, rest: string)
    requires At(s, 0, '#') && At(s, 1, '\\') && n == 2 + CharLength(s[2..])
    requires MayFollow(Lexeme(Atom, s[..n]), rest)
    ensures HashToken(s[..n] + rest) == Some((Atom, n))
  {
    hide CharLength, BlockLength, QuotedLength, RawString, IsLabel, AtomLength;
    var b := s[..n] + rest;
    var t := s[..n];
    if rest != [] {
      assert Complete(t) && t[0] == s[0] && t[1] == s[1];
      assert |t| > 2 && t[2] == s[2];
    }
    CharStable(s[2..], rest);
    assert b[2..] == s[2..][..n - 2] + rest;
  }

  lemma LabelStable(s: string, rest: string)
    requires IsLabel(s) && HashToken(s) == Some((Prefix, 2 + DigitLength(s[1..])))
    ensures HashToken(s[..2 + DigitLength(s[1..])] + rest) == HashToken(s)
  {
    var d := DigitLength(s[1..]);
    var b := s[..2 + d] + rest;
    DigitStable(s[1..], d + 1, rest);
    assert b[1..] == s[1..][..d + 1] + rest;
    assert b[1 + d] == s[1 + d] && b[1] == s[1];
    assert IsDigit(s[1]);
  }

  /** What follows a token does not change where it ends. */
  lemma TokenStable(s: string, k: Kind, n: nat, rest: string)
    requires s != [] && Token(s) == Some((k, n)) && MayFollow(Lexeme(k, s[..n]), rest)
    ensures Token(s[..n] + rest) == Some((k, n))
  {
    hide HashToken, QuotedLength, AtomLength, LineLength;
    var b := s[..n] + rest;
    var c := s[0];
    assert b[0] == c;
    if c == '#' {
      HashStable(s, k, n, rest);
    } else if c == ';' {
      LineStable(s[..n], rest);
    } else if c == '"' || c == '|' {
      QuotedStable(s[1..], c, n - 1, rest);
      assert b[1..] == s[1..][..n - 1] + rest;
    } else if c == ',' {
      if n == 1 { assert s[..1] == ","; }
    } else if c == '(' || c == ')' || c == '\'' || c == '`' {
    } else {
      AtomStable(s[1..], rest);
      assert b[1..] == s[1..][..n - 1] + rest;
    }
  }
}
