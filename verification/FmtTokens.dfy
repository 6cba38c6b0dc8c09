/** What the tokens of a text are: they and white space make up the whole text, each
    kind is told by its spelling, and each reaches as far as its notation says. */
module FmtTokens {
  import opened FmtLexer
  import opened FmtSpelling

  // ---- the whole text ------------------------------------------------------------------

  ghost predicate AllSpace(s: string) {
    forall i :: 0 <= i < |s| ==> s[i] in {' ', '\t', '\n', '\r'} || s[i] as int == 12
  }

  /** The text is white space, a token, white space, and so on. */
  ghost predicate Covers(s: string, ts: seq<Lexeme>)
    decreases |ts|
  {
    if ts == [] then AllSpace(s)
    else exists gap: nat :: CoversFrom(s, ts, gap)
  }

  ghost predicate CoversFrom(s: string, ts: seq<Lexeme>, gap: nat)
    requires ts != []
    decreases |ts|, 0
  {
    && gap + |ts[0].text| <= |s| && AllSpace(s[..gap])
    && s[gap..gap + |ts[0].text|] == ts[0].text
    && Covers(s[gap + |ts[0].text|..], ts[1..])
  }

  /** Every character of a text is in one of its tokens or is white space. */
  lemma {:induction false} LexCovers(s: string)
    requires Lex(s).Some?
    ensures Covers(s, Lex(s).value)
    decreases |s|
  {
    hide Token;
    if s != [] {
      if IsSpace(s[0]) {
        LexCovers(s[1..]);
        CoversBehind(s, Lex(s).value);
      } else {
        var (k, n) := Token(s).value;
        LexCovers(s[n..]);
        var ts := Lex(s).value;
        assert ts[0].text == s[..n] && ts[1..] == Lex(s[n..]).value;
        assert s[0..0 + n] == s[..n] && s[0 + n..] == s[n..];
        assert CoversFrom(s, ts, 0);
      }
    }
  }

  lemma CoversBehind(s: string, ts: seq<Lexeme>)
    requires s != [] && IsSpace(s[0]) && Covers(s[1..], ts)
    ensures Covers(s, ts)
  {
    if ts == [] {
      assert forall i :: 0 < i < |s| ==> s[i] == s[1..][i - 1];
    } else {
      var gap: nat :| CoversFrom(s[1..], ts, gap);
      var n := |ts[0].text|;
      assert s[gap + 1..gap + 1 + n] == s[1..][gap..gap + n] && s[gap + 1 + n..] == s[1..][gap + n..];
      assert s[..gap + 1] == [s[0]] + s[1..][..gap];
      assert CoversFrom(s, ts, gap + 1);
    }
  }

  // ---- kinds ------------------------------------------------------------------------------

  predicate IsLabelText(text: string) {
    && |text| >= 3 && text[0] == '#' && text[|text| - 1] == '='
    && forall i :: 1 <= i < |text| - 1 ==> IsDigit(text[i])
  }

  /** The spelling of a token tells its kind. */
  lemma KindsAre(t: Lexeme)
    requires IsToken(t)
    ensures t.kind == LParen <==> t.text == "("
    ensures t.kind == RParen <==> t.text == ")"
    ensures t.kind == ListOpen <==> t.text == "#(" || t.text == "#u8("
    ensures t.kind == DatumComment <==> t.text == "#;"
    ensures t.kind == LineComment <==> t.text[0] == ';'
    ensures t.kind == BlockComment <==> |t.text| > 1 && t.text[0] == '#' && t.text[1] == '|'
    ensures t.kind == Prefix <==> t.text in {"'", "`", ",", ",@"} || IsLabelText(t.text)
  {
    hide QuotedLength, BlockLength, RawString, CharLength, AtomLength, LineLength, DigitLength;
    var s := t.text;
    if s[0] == '#' {
      LabelTextIs(s);
      hide IsLabelText, IsLabel;
      assert s == "#u8(" || s == "#(" || s == "#;" || t.kind == BlockComment || t.kind == Atom || IsLabel(s);
    } else {
      assert !IsLabelText(s);
      assert t.kind == Prefix <==> s == "'" || s == "`" || s == "," || s == ",@";
    }
  }

  lemma LabelTextIs(s: string)
    requires At(s, 0, '#')
    ensures IsLabelText(s) <==> IsLabel(s) && |s| == 2 + DigitLength(s[1..])
  {
    var d := DigitLength(s[1..]);
    DigitsAre(s[1..], d);
    if IsLabelText(s) {
      assert forall i :: 0 <= i < |s| - 2 ==> s[1..][i] == s[i + 1];
      DigitsAre(s[1..], |s| - 2);
    }
    if IsLabel(s) && |s| == 2 + d {
      assert forall i :: 1 <= i < |s| - 1 ==> s[i] == s[1..][i - 1];
    }
  }

  /** The longest run of digits. */
  lemma {:induction false} DigitsAre(s: string, n: nat)
    ensures DigitLength(s) == n <==> n <= |s| && (n < |s| ==> !IsDigit(s[n])) && forall i :: 0 <= i < n ==> IsDigit(s[i])
  {
    if s != [] && IsDigit(s[0]) && n > 0 {
      DigitsAre(s[1..], n - 1);
      if n <= |s| { assert forall i :: 0 < i < n ==> s[i] == s[1..][i - 1]; }
    }
  }

  // ---- extents ------------------------------------------------------------------------------

  /** A plain atom runs up to the first delimiter. */
  lemma {:induction false} AtomIff(s: string, n: nat)
    ensures AtomLength(s) == n <==> n <= |s| && (n < |s| ==> IsDelim(s[n])) && forall i :: 0 <= i < n ==> !IsDelim(s[i])
  {
    if s != [] && !IsDelim(s[0]) && n > 0 {
      AtomIff(s[1..], n - 1);
      if n <= |s| { assert forall i :: 0 < i < n ==> s[i] == s[1..][i - 1]; }
    }
  }

  /** Characters that are neither a backslash nor the quote, and any that follow a
      backslash. */
  predicate IsQuotedBody(s: string, quote: char) {
    s == [] ||
    if s[0] == '\\' then |s| >= 2 && IsQuotedBody(s[2..], quote)
    else s[0] != quote && IsQuotedBody(s[1..], quote)
  }

  /** A string or a |symbol| ends at the first quote without a backslash. */
  lemma {:induction false} QuotedIff(s: string, quote: char, n: nat)
    requires quote != '\\'
    ensures QuotedLength(s, quote) == Some(n) <==>
            0 < n <= |s| && s[n - 1] == quote && IsQuotedBody(s[..n - 1], quote)
    decreases |s|
  {
    if s != [] {
      if s[0] == '\\' {
        if |s| >= 2 && n >= 2 {
          QuotedIff(s[2..], quote, n - 2);
          if 3 <= n <= |s| { assert s[..n - 1][2..] == s[2..][..n - 3]; }
        }
      } else if s[0] != quote && n > 0 {
        QuotedIff(s[1..], quote, n - 1);
        if 2 <= n <= |s| { assert s[..n - 1][1..] == s[1..][..n - 2]; }
      }
    }
  }

  /** A raw string ends at the first quote its delimiter and another quote follow. */
  lemma {:induction false} RawIff(s: string, delim: string, n: nat)
    ensures RawLength(s, delim) == Some(n) <==>
            && |delim| + 2 <= n <= |s| && ClosesRaw(s[n - |delim| - 2..], delim)
            && forall i :: 0 <= i < n - |delim| - 2 ==> !ClosesRaw(s[i..], delim)
  {
    hide ClosesRaw;
    if s != [] {
      assert s[0..] == s;
      if !ClosesRaw(s, delim) {
        assert forall i :: 1 <= i <= |s| ==> s[i..] == s[1..][i - 1..];
        if n > |delim| + 2 {
          RawIff(s[1..], delim, n - 1);
        } else if n > 0 {
          RawIff(s[1..], delim, n - 1);
        }
      }
    }
  }

  lemma {:induction false} QuoteIndexIff(s: string, n: nat)
    ensures QuoteIndex(s) == Some(n) <==> n < |s| && s[n] == '"' && forall i :: 0 <= i < n ==> s[i] != '"'
  {
    if s != [] && s[0] != '"' && n > 0 {
      QuoteIndexIff(s[1..], n - 1);
      if n < |s| { assert forall i :: 0 < i <= n ==> s[i] == s[1..][i - 1]; }
    }
  }

  // ---- nested comments ------------------------------------------------------------------------

  /** Text before the first mark, an opening or a closing one, is skipped. */
  lemma {:induction false} BlockSkips(s: string, depth: nat, n: nat)
    requires depth > 0 && n <= |s|
    requires forall i :: 0 <= i < n ==> !Opens(s[i..]) && !Closes(s[i..])
    ensures BlockLength(s, depth) == Shifted(BlockLength(s[n..], depth), n)
    decreases n
  {
    hide Opens, Closes, BlockLength;
    if n == 0 {
      assert s[0..] == s;
    } else {
      BlockStep(s, depth);
      assert s[0..] == s;
      if |s| >= 2 {
        assert forall i :: 1 <= i <= n ==> s[i..] == s[1..][i - 1..];
        BlockSkips(s[1..], depth, n - 1);
      } else {
        BlockStep(s[n..], depth);
      }
    }
  }

  /** A closing mark ends the comment. */
  lemma BlockEnds(s: string)
    requires Closes(s)
    ensures BlockLength(s, 1) == Some(2)
  {
    BlockStep(s, 1);
  }

  /** A comment inside is skipped as a whole, or does not end. */
  lemma BlockNests(s: string)
    requires Opens(s)
    ensures BlockLength(s, 1) == match BlockLength(s[2..], 1)
                                 case None => None
                                 case Some(n) => Shifted(BlockLength(s[2 + n..], 1), 2 + n)
  {
    hide BlockLength;
    BlockStep(s, 1);
    BlockDeeper(s[2..], 1, 1);
    var inner := BlockLength(s[2..], 1);
    if inner.Some? { assert s[2..][inner.value..] == s[2 + inner.value..]; }
  }

  lemma {:induction false} BlockDeeper(s: string, depth: nat, more: nat)
    requires depth > 0 && more > 0
    ensures BlockLength(s, depth + more) == match BlockLength(s, depth)
                                            case None => None
                                            case Some(n) => Shifted(BlockLength(s[n..], more), n)
    decreases |s|
  {
    hide BlockLength, Opens, Closes;
    BlockStep(s, depth);
    BlockStep(s, depth + more);
    if |s| >= 2 {
      if Opens(s) {
        BlockDeeper(s[2..], depth + 1, more);
        RestOf(s, 2, BlockLength(s[2..], depth + 1));
      } else if Closes(s) {
        if depth > 1 {
          BlockDeeper(s[2..], depth - 1, more);
          RestOf(s, 2, BlockLength(s[2..], depth - 1));
        }
      } else {
        BlockDeeper(s[1..], depth, more);
        RestOf(s, 1, BlockLength(s[1..], depth));
      }
    }
  }

  lemma RestOf(s: string, k: nat, r: Option<nat>)
    requires k <= |s| && (r.Some? ==> r.value <= |s| - k)
    ensures r.Some? ==> s[k..][r.value..] == s[k + r.value..]
  {
  }
}
