/** Exactly the token sequences the formatter parses. */
module FmtParses {
  import opened FmtLexer
  import opened FmtTree

  /** Counting parentheses from `depth` open ones: none closes too many, at most
      MAX_NESTING are open at once, all are closed at the end, and behind every prefix
      there is something to prefix. */
  ghost predicate Balanced(toks: seq<Tok>, depth: nat) {
    if toks == [] then depth == 0
    else
      match toks[0].lex.kind
      case LParen => depth < MAX_NESTING && Balanced(toks[1..], depth + 1)
      case ListOpen => depth < MAX_NESTING && Balanced(toks[1..], depth + 1)
      case RParen => depth > 0 && Balanced(toks[1..], depth - 1)
      case Prefix => toks[1..] != [] && toks[1].lex.kind != RParen && Balanced(toks[1..], depth)
      case DatumComment => toks[1..] != [] && toks[1].lex.kind != RParen && Balanced(toks[1..], depth)
      case _ => Balanced(toks[1..], depth)
  }

  /** A program parses exactly when its tokens are balanced. */
  lemma {:induction false} ParsesIff(toks: seq<Tok>)
    ensures ParseProgram(toks).Ok? <==> Balanced(toks, 0)
    decreases |toks|
  {
    hide ParseNode, Balanced;
    if toks == [] {
      NothingIsBalanced(0);
    } else {
      NodeParses(toks, 0);
      var r := ParseNode(toks[0], toks[1..], 0);
      if r.Ok? { ParsesIff(r.rest); }
      CloseIsUnbalanced(toks);
    }
  }

  lemma NothingIsBalanced(depth: nat)
    ensures Balanced([], depth) <==> depth == 0
  {
  }

  lemma CloseIsUnbalanced(toks: seq<Tok>)
    requires toks != []
    ensures toks[0].lex.kind == RParen ==> !Balanced(toks, 0) && ParseNode(toks[0], toks[1..], 0).Err?
  {
  }

  // Balance is what parsing of a node leaves balanced; with a closing parenthesis there is no node.
  lemma {:induction false} NodeParses(toks: seq<Tok>, depth: nat)
    requires toks != []
    ensures var r := ParseNode(toks[0], toks[1..], depth);
            toks[0].lex.kind != RParen ==> (Balanced(toks, depth) <==> r.Ok? && Balanced(r.rest, depth))
    decreases |toks|, 0
  {
    var rest := toks[1..];
    match toks[0].lex.kind
    case LParen => ItemsParse(rest, depth + 1);
    case ListOpen => ItemsParse(rest, depth + 1);
    case Prefix => if rest != [] { assert rest[0] == toks[1]; NodeParses(rest, depth); }
    case DatumComment => if rest != [] { assert rest[0] == toks[1]; NodeParses(rest, depth); }
    case _ =>
  }

  lemma {:induction false} ItemsParse(toks: seq<Tok>, depth: nat)
    requires depth > 0
    ensures var r := ParseItems(toks, depth);
            Balanced(toks, depth) <==> r.Ok? && Balanced(r.rest, depth - 1)
    decreases |toks|, 1
  {
    if toks != [] && toks[0].lex.kind != RParen {
      NodeParses(toks, depth);
      var r := ParseNode(toks[0], toks[1..], depth);
      hide ParseNode;
      if r.Ok? { ItemsParse(r.rest, depth); }
    }
  }
}
