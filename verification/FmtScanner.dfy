/** The lexer as it runs: a position in the text that each scan moves forward. */
module FmtScanner {
  import opened FmtLexer
  import opened FmtTree

  class Scanner {
    const src: string
    var pos: nat

    ghost predicate Valid()
      reads this
    {
      pos <= |src|
    }

    function Rest(): string
      requires Valid()
      reads this
    {
      src[pos..]
    }

    constructor (src: string)
      ensures Valid() && this.src == src && Rest() == src
    {
      this.src := src;
      pos := 0;
    }

    /** Moves over white space and counts the line breaks in it. */
    method SkipSpace() returns (newlines: nat)
      requires Valid()
      modifies this
      ensures Valid() && (Rest() == [] || !IsSpace(Rest()[0])) && pos >= old(pos)
      ensures Scan(old(Rest()), 0) == Scan(Rest(), newlines)
    {
      hide Token, Scan;
      newlines := 0;
      while pos < |src| && IsSpace(src[pos])
        invariant Valid() && pos >= old(pos)
        invariant Scan(old(Rest()), 0) == Scan(Rest(), newlines)
      {
        ghost var s := Rest();
        var c := src[pos];
        pos := pos + 1;
        assert Rest() == s[1..];
        ghost var before := newlines;
        if c == '\n' || (c == '\r' && !(pos < |src| && src[pos] == '\n')) {
          newlines := newlines + 1;
        }
        assert newlines == before + BreakAt(s);
        ScanSpace(s, before);
      }
    }

    /** Over a string or a |symbol|, from its opening quote. */
    method ScanQuoted(quote: char) returns (ok: bool)
      requires Valid() && pos < |src|
      modifies this
      ensures Valid() && Moved(old(Rest()), Rest(), ok, Shifted(QuotedLength(old(Rest())[1..], quote), 1))
    {
      hide QuotedLength;
      ghost var s := Rest();
      pos := pos + 1;
      assert Rest() == s[1..];
      while pos < |src|
        invariant Valid() && pos >= old(pos) + 1 && Rest() == s[pos - old(pos)..]
        invariant Shifted(QuotedLength(s[1..], quote), 1) == Shifted(QuotedLength(Rest(), quote), pos - old(pos))
        decreases |src| - pos
      {
        var c := src[pos];
        ghost var r := Rest();
        assert r[0] == c;
        QuotedStep(r, quote);
        if c == '\\' {
          if pos + 2 > |src| {
            return false;
          }
          pos := pos + 2;
          assert Rest() == r[2..];
        } else {
          pos := pos + 1;
          assert Rest() == r[1..];
          if c == quote {
            return true;
          }
        }
      }
      QuotedStep([], quote);
      return false;
    }

    /** Over a block comment and the comments nested in it. */
    method ScanBlockComment() returns (ok: bool)
      requires Valid() && pos + 2 <= |src|
      modifies this
      ensures Valid() && Moved(old(Rest()), Rest(), ok, Shifted(BlockLength(old(Rest())[2..], 1), 2))
    {
      hide BlockLength;
      ghost var s := Rest();
      pos := pos + 2;
      assert Rest() == s[2..];
      var depth: nat := 1;
      while pos + 1 < |src|
        invariant Valid() && pos >= old(pos) + 2 && depth > 0 && Rest() == s[pos - old(pos)..]
        invariant Shifted(BlockLength(s[2..], 1), 2) == Shifted(BlockLength(Rest(), depth), pos - old(pos))
        decreases |src| - pos
      {
        ghost var r := Rest();
        BlockStep(r, depth);
        assert r[0] == src[pos] && r[1] == src[pos + 1];
        if src[pos] == '#' && src[pos + 1] == '|' {
          depth := depth + 1;
          pos := pos + 2;
          assert Rest() == r[2..];
        } else if src[pos] == '|' && src[pos + 1] == '#' {
          depth := depth - 1;
          pos := pos + 2;
          assert Rest() == r[2..];
          if depth == 0 {
            return true;
          }
        } else {
          pos := pos + 1;
          assert Rest() == r[1..];
        }
      }
      BlockStep(Rest(), depth);
      return false;
    }

    /** Over a raw string, whose closing quote repeats its delimiter. */
    method ScanRawString() returns (ok: bool)
      requires Valid() && pos + 2 <= |src|
      modifies this
      ensures Valid() && Moved(old(Rest()), Rest(), ok, RawString(old(Rest())))
    {
      hide RawLength, QuoteIndex;
      ghost var s := Rest();
      pos := pos + 2;
      var start := pos;
      assert Rest() == s[2..];
      ScanToQuote();
      if pos >= |src| {
        return false;
      }
      var delim := src[start..pos];
      ghost var d := pos - start;
      assert QuoteIndex(s[2..]) == Some(d) && delim == s[2..2 + d];
      pos := pos + 1;
      assert Rest() == s[3 + d..];
      ok := ScanToDelimiter(delim);
    }

    method ScanToQuote()
      requires Valid()
      modifies this
      ensures Valid() && pos >= old(pos)
      ensures QuoteIndex(old(Rest())) == if pos == |src| then None else Some(pos - old(pos))
    {
      ghost var body := Rest();
      while pos < |src| && src[pos] != '"'
        invariant old(pos) <= pos <= |src|
        invariant QuoteIndex(body) == Shifted(QuoteIndex(Rest()), pos - old(pos))
      {
        ghost var r := Rest();
        assert r[0] == src[pos];
        pos := pos + 1;
        assert Rest() == r[1..];
      }
      assert pos < |src| ==> Rest()[0] == src[pos];
    }

    method ScanToDelimiter(delim: string) returns (ok: bool)
      requires Valid()
      modifies this
      ensures Valid() && Moved(old(Rest()), Rest(), ok, RawLength(old(Rest()), delim))
    {
      hide RawLength, ClosesRaw;
      ghost var text := Rest();
      while pos < |src|
        invariant Valid() && pos >= old(pos) && Rest() == text[pos - old(pos)..]
        invariant RawLength(text, delim) == Shifted(RawLength(Rest(), delim), pos - old(pos))
      {
        ghost var r := Rest();
        ClosesHere(src, pos, delim);
        RawStep(r, delim);
        if src[pos] == '"' && pos + |delim| + 2 <= |src| && src[pos + 1..pos + 1 + |delim|] == delim
           && src[pos + 1 + |delim|] == '"'
        {
          pos := pos + |delim| + 2;
          return true;
        }
        pos := pos + 1;
        assert Rest() == r[1..];
      }
      RawStep([], delim);
      return false;
    }

    /** Over an atom: its first byte, and on to the next delimiter. */
    method ScanAtom()
      requires Valid() && pos < |src|
      modifies this
      ensures Valid() && Moved(old(Rest()), Rest(), true, Some(1 + AtomLength(old(Rest())[1..])))
    {
      ghost var s := Rest();
      pos := pos + 1;
      assert Rest() == s[1..];
      while pos < |src| && !IsDelim(src[pos])
        invariant Valid() && pos >= old(pos) + 1 && Rest() == s[pos - old(pos)..]
        invariant 1 + AtomLength(s[1..]) == AtomLength(Rest()) + (pos - old(pos))
      {
        ghost var r := Rest();
        assert r[0] == src[pos];
        pos := pos + 1;
        assert Rest() == r[1..];
      }
      assert AtomLength(Rest()) == 0;
    }

    method ScanLine()
      requires Valid()
      modifies this
      ensures Valid() && Moved(old(Rest()), Rest(), true, Some(LineLength(old(Rest()))))
    {
      ghost var s := Rest();
      while pos < |src| && src[pos] != '\n'
        invariant Valid() && pos >= old(pos) && Rest() == s[pos - old(pos)..]
        invariant LineLength(s) == LineLength(Rest()) + (pos - old(pos))
      {
        ghost var r := Rest();
        assert r[0] == src[pos];
        pos := pos + 1;
        assert Rest() == r[1..];
      }
      assert LineLength(Rest()) == 0;
    }

    /** The next token, with the line breaks before it; none at the end of the text.
        Taking tokens one after the other takes those of the whole text. */
    method Next() returns (ok: bool, tok: Option<Tok>)
      requires Valid()
      modifies this
      ensures Valid() && (ok && tok.Some? ==> pos > old(pos))
      ensures !ok ==> Scan(old(Rest()), 0).None?
      ensures ok && tok.None? ==> Scan(old(Rest()), 0) == Some([])
      ensures ok && tok.Some? ==>
                Scan(old(Rest()), 0) == (match Scan(Rest(), 0) case None => None case Some(toks) => Some([tok.value] + toks))
    {
      hide Token, BreakAt;
      var newlines := SkipSpace();
      if pos == |src| {
        return true, None;
      }
      ghost var s := Rest();
      var start := pos;
      var kind;
      ok, kind := ScanToken();
      if !ok {
        return false, None;
      }
      assert src[start..pos] == s[..pos - start] && Rest() == s[pos - start..];
      tok := Some(Tok(Lexeme(kind, src[start..pos]), newlines));
    }

    method ScanToken() returns (ok: bool, kind: Kind)
      requires Valid() && pos < |src|
      modifies this
      ensures Valid() && MovedAs(old(Rest()), Rest(), ok, kind, Token(old(Rest())))
    {
      hide QuotedLength, AtomLength, LineLength, HashToken;
      ghost var s := Rest();
      var c := src[pos];
      ok, kind := true, LParen;
      assert s[0] == c;
      if c == '(' || c == ')' {
        pos := pos + 1;
        kind := if c == '(' then LParen else RParen;
      } else if c == '\'' || c == '`' {
        pos := pos + 1;
        kind := Prefix;
      } else if c == ',' {
        pos := pos + 1;
        if pos < |src| && src[pos] == '@' {
          pos := pos + 1;
        }
        kind := Prefix;
      } else if c == ';' {
        ScanLine();
        kind := LineComment;
      } else if c == '"' || c == '|' {
        ok := ScanQuoted(c);
        kind := Atom;
      } else if c == '#' {
        ok, kind := ScanHash();
      } else {
        ScanAtom();
        kind := Atom;
      }
    }

    method ScanHash() returns (ok: bool, kind: Kind)
      requires Valid() && pos < |src| && src[pos] == '#'
      modifies this
      ensures Valid() && MovedAs(old(Rest()), Rest(), ok, kind, HashToken(old(Rest())))
    {
      hide QuotedLength, BlockLength, RawString, AtomLength, CharLength, IsLabel, DigitLength;
      ghost var s := Rest();
      var left := |src| - pos;
      ok, kind := true, Atom;
      assert |s| == left && forall i :: 0 <= i < left ==> s[i] == src[pos + i];
      if left >= 2 && src[pos + 1] == '|' {
        ok := ScanBlockComment();
        kind := BlockComment;
      } else if left >= 2 && src[pos + 1] == ';' {
        pos := pos + 2;
        kind := DatumComment;
      } else if left >= 2 && src[pos + 1] == '(' {
        pos := pos + 2;
        kind := ListOpen;
      } else if left >= 4 && src[pos + 1] == 'u' && src[pos + 2] == '8' && src[pos + 3] == '(' {
        pos := pos + 4;
        kind := ListOpen;
      } else if left >= 4 && src[pos + 1] == 'u' && src[pos + 2] == '8' && src[pos + 3] == '"' {
        pos := pos + 3;
        assert Rest()[1..] == s[4..];
        ok := ScanQuoted('"');
      } else if left >= 2 && src[pos + 1] == '"' {
        ok := ScanRawString();
      } else if left >= 2 && src[pos + 1] == '\\' {
        var n := 2 + CharLength(src[pos + 2..]);
        assert src[pos + 2..] == s[2..];
        pos := pos + n;
      } else {
        ok, kind := ScanLabelOrAtom();
      }
    }

    // A label ends in =, anything else is an atom.
    method ScanLabelOrAtom() returns (ok: bool, kind: Kind)
      requires Valid() && pos < |src| && src[pos] == '#'
      modifies this
      ensures Valid() && ok
      ensures MovedAs(old(Rest()), Rest(), true, kind,
                      if IsLabel(old(Rest())) then Some((Prefix, 2 + DigitLength(old(Rest())[1..])))
                      else Some((Atom, 1 + AtomLength(old(Rest())[1..]))))
    {
      hide AtomLength;
      ghost var s := Rest();
      ok := true;
      var i := 1;
      ghost var digits := s[1..];
      while pos + i < |src| && IsDigit(src[pos + i])
        invariant 1 <= i <= |src| - pos && DigitLength(digits) == DigitLength(digits[i - 1..]) + (i - 1)
        modifies {}
      {
        assert digits[i - 1..][0] == src[pos + i] && digits[i - 1..][1..] == digits[i..];
        i := i + 1;
      }
      assert i - 1 < |digits| ==> digits[i - 1..][0] == src[pos + i];
      assert DigitLength(digits[i - 1..]) == 0;
      assert pos + i < |src| ==> s[i] == src[pos + i];
      if i > 1 && pos + i < |src| && src[pos + i] == '=' {
        pos := pos + i + 1;
        kind := Prefix;
        return;
      }
      ScanAtom();
      kind := Atom;
    }
  }

  /** Takes tokens until the text ends. */
  method TokensOf(s: string) returns (r: Option<seq<Tok>>)
    ensures r == Scan(s, 0)
  {
    hide Scan;
    var scanner := new Scanner(s);
    var toks: seq<Tok> := [];
    var ok, tok := true, None;
    ghost var rest := Scan(s, 0);
    if rest.Some? { assert toks + rest.value == rest.value; }
    while true
      invariant fresh(scanner) && scanner.Valid()
      invariant Scan(s, 0) == Behind(toks, Scan(scanner.Rest(), 0))
      decreases |scanner.src| - scanner.pos
    {
      ok, tok := scanner.Next();
      if !ok {
        return None;
      }
      if tok.None? {
        assert toks + [] == toks;
        return Some(toks);
      }
      BehindOneMore(toks, tok.value, Scan(scanner.Rest(), 0));
      toks := toks + [tok.value];
    }
  }

  function Behind(toks: seq<Tok>, rest: Option<seq<Tok>>): Option<seq<Tok>> {
    match rest
    case None => None
    case Some(more) => Some(toks + more)
  }

  lemma BehindOneMore(toks: seq<Tok>, tok: Tok, rest: Option<seq<Tok>>)
    ensures Behind(toks, match rest case None => None case Some(more) => Some([tok] + more)) == Behind(toks + [tok], rest)
  {
    if rest.Some? {
      assert toks + ([tok] + rest.value) == toks + [tok] + rest.value;
    }
  }

  lemma ScanSpace(s: string, newlines: nat)
    requires s != [] && IsSpace(s[0])
    ensures Scan(s, newlines) == Scan(s[1..], newlines + BreakAt(s))
  {
  }

  lemma ClosesHere(src: string, pos: nat, delim: string)
    requires pos < |src|
    ensures ClosesRaw(src[pos..], delim) <==>
              src[pos] == '"' && pos + |delim| + 2 <= |src| && src[pos + 1..pos + 1 + |delim|] == delim
              && src[pos + 1 + |delim|] == '"'
  {
    var r := src[pos..];
    if |r| >= |delim| + 2 {
      assert r[1..|delim| + 1] == src[pos + 1..pos + 1 + |delim|];
    }
  }

  lemma QuotedStep(r: string, quote: char)
    ensures QuotedLength(r, quote)
         == if r == [] then None
            else if r[0] == '\\' then (if |r| < 2 then None else Shifted(QuotedLength(r[2..], quote), 2))
            else if r[0] == quote then Some(1)
            else Shifted(QuotedLength(r[1..], quote), 1)
  {
  }

  lemma RawStep(r: string, delim: string)
    ensures RawLength(r, delim)
         == if r == [] then None else if ClosesRaw(r, delim) then Some(|delim| + 2) else Shifted(RawLength(r[1..], delim), 1)
    ensures ClosesRaw(r, delim) ==> |delim| + 2 <= |r|
  {
  }

  /** A scan succeeds when the format gives a length, and has moved by it. */
  ghost predicate Moved(before: string, after: string, ok: bool, r: Option<nat>) {
    (ok <==> r.Some?) && (ok ==> r.value <= |before| && after == before[r.value..])
  }

  ghost predicate MovedAs(before: string, after: string, ok: bool, kind: Kind, r: Option<(Kind, nat)>) {
    (ok <==> r.Some?) && (ok ==> r.value.0 == kind && r.value.1 <= |before| && after == before[r.value.1..])
  }
}
