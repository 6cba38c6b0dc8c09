/** Two texts that formatting does not preserve. */
module FormatterExamples {
  import opened FmtLexer
  import opened FmtTree
  import opened FmtSpelling
  import opened Formatter

  /** One token at the front of a text. */
  lemma ScanOne(t: Lexeme, rest: string, newlines: nat, toks: seq<Tok>)
    requires t.text != [] && !IsSpace(t.text[0]) && Token(t.text + rest) == Some((t.kind, |t.text|)) && Scan(rest, 0) == Some(toks)
    ensures Scan(t.text + rest, newlines) == Some([Tok(t, newlines)] + toks)
  {
    hide Token;
    var s := t.text + rest;
    assert s[..|t.text|] == t.text && s[|t.text|..] == rest && s[0] == t.text[0];
  }

  lemma ScanSpace(rest: string, newlines: nat, toks: seq<Tok>)
    requires Scan(rest, newlines) == Some(toks)
    ensures Scan(" " + rest, newlines) == Some(toks)
  {
    assert (" " + rest)[1..] == rest;
  }

  lemma ScanBreak(rest: string, newlines: nat, toks: seq<Tok>)
    requires Scan(rest, newlines + 1) == Some(toks)
    ensures Scan("\n" + rest, newlines) == Some(toks)
  {
    assert ("\n" + rest)[1..] == rest;
  }

  // ---- a comma before an @ ----

  const COMMA := Lexeme(Prefix, ",")
  const AT := Lexeme(Atom, "@a")

  lemma AtIsScanned()
    ensures Scan("@a", 0) == Some([Tok(AT, 0)])
  {
    assert "@a" + "" == "@a" && "@a"[1..] == "a" && "a"[1..] == "";
    assert AtomLength("a") == 1;
    assert Token("@a" + "") == Some((Atom, 2));
    ScanOne(AT, "", 0, []);
    assert [Tok(AT, 0)] + [] == [Tok(AT, 0)];
  }

  lemma CommaIsScanned()
    ensures Scan(", @a", 0) == Some([Tok(COMMA, 0), Tok(AT, 0)])
  {
    AtIsScanned();
    hide Scan;
    ScanSpace("@a", 0, [Tok(AT, 0)]);
    assert " " + "@a" == " @a" && "," + " @a" == ", @a";
    assert Token(", @a") == Some((Prefix, 1));
    ScanOne(COMMA, " @a", 0, [Tok(AT, 0)]);
    assert [Tok(COMMA, 0)] + [Tok(AT, 0)] == [Tok(COMMA, 0), Tok(AT, 0)];
  }

  /** ", @a" is printed without its space, and then the comma takes the @. */
  lemma CommaTakesAt()
    ensures ParseText(", @a") == Ok([PrefixNode(",", AtomNode("@a", 0), 0)], [])
    ensures Lex(", @a") == Some([COMMA, AT]) && Mishap([COMMA, AT])
  {
    CommaIsScanned();
    ScanIsLex(", @a", 0);
    hide Scan, Lex;
    var toks := [Tok(COMMA, 0), Tok(AT, 0)];
    assert toks[1..] == [Tok(AT, 0)] && [Tok(AT, 0)][1..] == [];
    assert Lexemes([Tok(AT, 0)]) == [AT] by { assert Lexemes([]) == [] && [AT] + [] == [AT]; }
    assert Lexemes(toks) == [COMMA] + [AT] == [COMMA, AT];
    assert SplicesAt([COMMA, AT], 0);
    CommaParses(toks);
  }

  lemma CommaParses(toks: seq<Tok>)
    requires toks == [Tok(COMMA, 0), Tok(AT, 0)]
    ensures ParseProgram(toks) == Ok([PrefixNode(",", AtomNode("@a", 0), 0)], [])
  {
    var rest := toks[1..];
    assert rest == [Tok(AT, 0)] && rest[1..] == [];
    assert ParseNode(rest[0], [], 0) == Ok(AtomNode("@a", 0), []);
    assert ParseNode(toks[0], rest, 0) == Ok(PrefixNode(",", AtomNode("@a", 0), 0), []);
    assert [PrefixNode(",", AtomNode("@a", 0), 0)] + [] == [PrefixNode(",", AtomNode("@a", 0), 0)];
  }

  // ---- an argument in a comment ----

  const TICK := Lexeme(Prefix, "'")
  const NOTE := Lexeme(LineComment, "; c")
  const F := Lexeme(Atom, "f")
  const X := Lexeme(Atom, "x")

  function SwallowToks(): seq<Tok> {
    [Tok(Lexeme(LParen, "("), 0), Tok(TICK, 0), Tok(NOTE, 0), Tok(F, 1), Tok(X, 0), Tok(Lexeme(RParen, ")"), 0)]
  }

  lemma LetterIsScanned(c: char, rest: string, newlines: nat, toks: seq<Tok>)
    requires 'a' <= c <= 'z' && (rest == [] || IsDelim(rest[0])) && Scan(rest, 0) == Some(toks)
    ensures Scan([c] + rest, newlines) == Some([Tok(Lexeme(Atom, [c]), newlines)] + toks)
  {
    assert ([c] + rest)[1..] == rest;
    ScanOne(Lexeme(Atom, [c]), rest, newlines, toks);
  }

  const CLOSE := Tok(Lexeme(RParen, ")"), 0)

  lemma CallIsScanned()
    ensures Scan("f x)", 1) == Some([Tok(F, 1), Tok(X, 0), CLOSE])
  {
    CloseIsScanned();
    hide Scan, Token;
    LetterIsScanned('x', ")", 0, [CLOSE]);
    assert ['x'] + ")" == "x)" && [Tok(X, 0)] + [CLOSE] == [Tok(X, 0), CLOSE];
    ScanSpace("x)", 0, [Tok(X, 0), CLOSE]);
    assert " " + "x)" == " x)" && ['f'] + " x)" == "f x)";
    LetterIsScanned('f', " x)", 1, [Tok(X, 0), CLOSE]);
    assert [Tok(F, 1)] + [Tok(X, 0), CLOSE] == [Tok(F, 1), Tok(X, 0), CLOSE];
  }

  lemma BreakIsScanned()
    ensures Scan("\n f x)", 0) == Some([Tok(F, 1), Tok(X, 0), CLOSE])
  {
    CallIsScanned();
    hide Scan;
    ScanSpace("f x)", 1, [Tok(F, 1), Tok(X, 0), CLOSE]);
    assert " " + "f x)" == " f x)";
    ScanBreak(" f x)", 0, [Tok(F, 1), Tok(X, 0), CLOSE]);
    assert "\n" + " f x)" == "\n f x)";
  }

  lemma SwallowTokens()
    ensures Scan("('; c\n f x)", 0) == Some(SwallowToks())
  {
    hide Scan;
    BreakIsScanned();
    var t3 := [Tok(F, 1), Tok(X, 0), CLOSE];
    NoteIsScanned(t3);
    SwallowFront([Tok(NOTE, 0)] + t3);
    SwallowToksAre(t3);
  }

  lemma SwallowToksAre(t3: seq<Tok>)
    requires t3 == [Tok(F, 1), Tok(X, 0), CLOSE]
    ensures [Tok(Lexeme(LParen, "("), 0)] + ([Tok(TICK, 0)] + ([Tok(NOTE, 0)] + t3)) == SwallowToks()
  {
  }

  lemma CloseIsScanned()
    ensures Scan(")", 0) == Some([CLOSE])
  {
    assert ")" + "" == ")" && Token(")" + "") == Some((RParen, 1));
    ScanOne(Lexeme(RParen, ")"), "", 0, []);
    assert [CLOSE] + [] == [CLOSE];
  }

  lemma NoteIsScanned(t3: seq<Tok>)
    requires Scan("\n f x)", 0) == Some(t3)
    ensures Scan("; c\n f x)", 0) == Some([Tok(NOTE, 0)] + t3)
  {
    hide Scan;
    var s := "; c\n f x)";
    assert "; c" + "\n f x)" == s;
    assert LineLength(s) == 3 by {
      assert s[1..] == " c\n f x)" && s[1..][1..] == "c\n f x)" && s[1..][1..][1..] == "\n f x)";
      assert LineLength("\n f x)") == 0;
      assert LineLength("c\n f x)") == 1;
    }
    ScanOne(NOTE, "\n f x)", 0, t3);
  }

  lemma SwallowFront(toks: seq<Tok>)
    requires Scan("; c\n f x)", 0) == Some(toks)
    ensures Scan("('; c\n f x)", 0) == Some([Tok(Lexeme(LParen, "("), 0)] + ([Tok(TICK, 0)] + toks))
  {
    hide Scan;
    var s := "; c\n f x)";
    assert "'" + s == "'; c\n f x)";
    ScanOne(TICK, s, 0, toks);
    assert "(" + "'; c\n f x)" == "('; c\n f x)";
    ScanOne(Lexeme(LParen, "("), "'; c\n f x)", 0, [Tok(TICK, 0)] + toks);
  }

  function SwallowTree(): Node {
    ListNode(Lexeme(LParen, "("), [PrefixNode("'", LineNode("; c", 0), 0), AtomNode("f", 1), AtomNode("x", 0)], 0)
  }

  /** In ('; c, a line break, f x) the comment ends the operator: f is printed behind
      it on its line, and is lost. */
  lemma CommentSwallowsArgument()
    ensures ParseText("('; c\n f x)") == Ok([SwallowTree()], [])
    ensures AnySwallows([SwallowTree()])
  {
    SwallowTokens();
    hide Scan;
    SwallowParses();
    var items := SwallowTree().items;
    assert Trail(items, 1) == (1, false) && EndsOpen(items[0]);
    assert HeadSwallows(items, 1, 1, 1, false);
    assert StyleOf(items) == None && HeadOf(items) == 1;
    assert HeadSwallows(items, 0, 0, 1, false);
    assert Swallows(SwallowTree());
    assert Swallows([SwallowTree()][0]);
  }

  lemma SwallowParses()
    ensures ParseProgram(SwallowToks()) == Ok([SwallowTree()], [])
  {
    var toks, items := SwallowToks(), SwallowTree().items;
    var r3, r1 := toks[3..], toks[1..];
    CallParses(r3);
    hide Trimmed;
    assert r1[2..] == r3 && r1[1..][1..] == r3;
    TrimmedNote();
    assert ParseNode(r1[1], r3, 1) == Ok(LineNode("; c", 0), r3);
    assert ParseNode(r1[0], r1[1..], 1) == Ok(items[0], r3);
    assert [items[0]] + [items[1], items[2]] == items;
    assert ParseItems(r1, 1) == Ok(items, []);
    assert ParseNode(toks[0], r1, 0) == Ok(SwallowTree(), []);
    assert [SwallowTree()] + [] == [SwallowTree()];
  }

  lemma TrimmedNote()
    ensures Trimmed("; c") == "; c"
  {
  }

  lemma CallParses(toks: seq<Tok>)
    requires toks == [Tok(F, 1), Tok(X, 0), Tok(Lexeme(RParen, ")"), 0)]
    ensures ParseItems(toks, 1) == Ok([AtomNode("f", 1), AtomNode("x", 0)], [])
  {
    var a, b := toks[1..], toks[2..];
    assert a[1..] == b && b[1..] == [];
    assert ParseItems(b, 1) == Ok([], []);
    assert ParseItems(a, 1) == Ok([AtomNode("x", 0)], []) by { assert [AtomNode("x", 0)] + [] == [AtomNode("x", 0)]; }
    assert [AtomNode("f", 1)] + [AtomNode("x", 0)] == [AtomNode("f", 1), AtomNode("x", 0)];
  }
}
