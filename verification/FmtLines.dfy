/** Columns, and a node on one line. */
module FmtLines {
  import opened FmtLexer
  import opened FmtTree
  import opened FmtSpelling
  import opened FmtTokens

  /** The characters behind the last line break. */
  function Column(s: string): (n: nat)
    ensures n <= |s|
  {
    if s == [] || s[|s| - 1] == '\n' then 0 else 1 + Column(s[..|s| - 1])
  }

  lemma {:induction false} ColumnOfMore(s: string, t: string)
    ensures Column(s + t) == if '\n' in t then Column(t) else Column(s) + |t|
  {
    if t == [] {
      assert s + t == s;
    } else {
      var front := t[..|t| - 1];
      assert (s + t)[..|s + t| - 1] == s + front && t == front + [t[|t| - 1]];
      ColumnOfMore(s, front);
    }
  }

  /** Where the last line break is. */
  lemma {:induction false} ColumnIs(t: string, i: nat)
    requires i <= |t| && (i > 0 ==> t[i - 1] == '\n') && forall k :: i <= k < |t| ==> t[k] != '\n'
    ensures '\n' in t <==> i > 0
    ensures Column(t) == |t| - i
    decreases |t| - i
  {
    if i < |t| {
      ColumnIs(t[..|t| - 1], i);
    }
  }

  // ---- one line ------------------------------------------------------------------

  /** The node with one space between the items of every list. */
  function OneLine(n: Node): string {
    match n
    case AtomNode(text, _) => text
    case ListNode(open, items, _) => open.text + OneLineAll(items) + ")"
    case PrefixNode(text, target, _) => text + OneLine(target)
    case DatumNode(target, _) => "#;" + OneLine(target)
    case LineNode(text, _) => text
    case BlockNode(text, _) => text
  }

  function OneLineAll(ns: seq<Node>): string {
    if ns == [] then [] else OneLine(ns[0]) + (if |ns| > 1 then " " else "") + OneLineAll(ns[1..])
  }

  lemma {:induction false} OneLineMore(ns: seq<Node>, i: nat)
    requires i < |ns|
    ensures OneLineAll(ns[..i + 1]) == OneLineAll(ns[..i]) + (if i > 0 then " " else "") + OneLine(ns[i])
  {
    hide OneLine;
    var a, b := ns[..i], ns[..i + 1];
    if i == 0 {
      assert b == [ns[0]] && b[1..] == [];
      assert OneLineAll(b[1..]) == [];
    } else {
      OneLineMore(ns[1..], i - 1);
      assert a[1..] == ns[1..][..i - 1] && b[1..] == ns[1..][..i] && ns[i] == ns[1..][i - 1];
      assert b[0] == ns[0] && a[0] == ns[0];
      if i == 1 { assert a[1..] == [] && OneLineAll(a[1..]) == []; }
    }
  }

  /** A node that has a width on one line is as wide as its text, without line breaks. */
  lemma {:induction false} MeasureIs(n: Node)
    requires AllTexts(n)
    ensures Measure(n) == if '\n' in OneLine(n) || HasLineComment(n) then None else Some(|OneLine(n)|)
    decreases n, 1
  {
    match n
    case ListNode(open, items, _) => MeasureAllIs(items);
    case PrefixNode(text, target, _) => MeasureIs(target);
    case DatumNode(target, _) => MeasureIs(target);
    case _ =>
  }

  lemma {:induction false} MeasureAllIs(ns: seq<Node>)
    requires forall i :: 0 <= i < |ns| ==> AllTexts(ns[i])
    ensures MeasureAll(ns) == if '\n' in OneLineAll(ns) || AnyLineComment(ns) then None else Some(|OneLineAll(ns)|)
    decreases ns, 0
  {
    hide OneLine, Measure, HasLineComment;
    if ns != [] {
      MeasureIs(ns[0]);
      MeasureAllIs(ns[1..]);
    }
  }

  /** No prefix and no opening of a list has a line break in it. */
  predicate AllTexts(n: Node)
    decreases n
  {
    match n
    case ListNode(open, items, _) => '\n' !in open.text && forall i :: 0 <= i < |items| ==> AllTexts(items[i])
    case PrefixNode(text, target, _) => '\n' !in text && AllTexts(target)
    case DatumNode(target, _) => AllTexts(target)
    case _ => true
  }

  predicate HasLineComment(n: Node)
    decreases n, 1
  {
    match n
    case LineNode(_, _) => true
    case ListNode(_, items, _) => AnyLineComment(items)
    case PrefixNode(_, target, _) => HasLineComment(target)
    case DatumNode(target, _) => HasLineComment(target)
    case _ => false
  }

  predicate AnyLineComment(ns: seq<Node>)
    decreases ns, 0
  {
    ns != [] && (HasLineComment(ns[0]) || AnyLineComment(ns[1..]))
  }

  /** The tokens that open a list or quote something have no line break. */
  lemma ShortHasNoBreak(t: Lexeme)
    requires IsToken(t) && (t.kind == Prefix || t.kind == LParen || t.kind == ListOpen)
    ensures '\n' !in t.text
  {
    KindsAre(t);
    hide IsToken;
    if IsLabelText(t.text) { LabelHasNoBreak(t.text); }
  }

  lemma LabelHasNoBreak(text: string)
    requires IsLabelText(text)
    ensures '\n' !in text
  {
    forall i | 0 <= i < |text| ensures text[i] != '\n' {
    }
  }

  // ---- more lines than one ------------------------------------------------------------

  /** The text grew by a line break at least. */
  predicate Broke(a: string, b: string) {
    a <= b && '\n' in b[|a|..]
  }

  lemma BrokeStill(a: string, b: string, c: string)
    requires a <= b <= c
    ensures Broke(a, b) || Broke(b, c) ==> Broke(a, c)
  {
    if Broke(a, b) {
      var k :| 0 <= k < |b[|a|..]| && b[|a|..][k] == '\n';
      assert c[|a|..][k] == '\n';
    }
    if Broke(b, c) {
      var k :| 0 <= k < |c[|b|..]| && c[|b|..][k] == '\n';
      assert c[|a|..][k + |b| - |a|] == '\n';
    }
  }

  /** Where the items end that are placed on the first line of a list. */
  function HeadEnd(items: seq<Node>, i: nat, placed: nat, k: nat, wasLine: bool): (e: nat)
    requires i <= |items|
    ensures e <= |items|
    decreases |items| - i
  {
    if i < |items| && placed <= k && !IsComment(items[i]) && !wasLine then
      var (j, line) := Trail(items, i + 1);
      HeadEnd(items, j, placed + 1, k, line)
    else
      i
  }

  /** A list that does not fit on a line and has an item to go on a line of its own:
      one behind those of the first line, which in data is the first item alone. */
  predicate Spreads(n: Node)
    requires n.ListNode?
  {
    if FirstCode(n.items) != Some(0) || IsData(n) then HasOwnLine(n.items, true)
    else HeadEnd(n.items, 0, 0, HeadOf(n.items), false) < |n.items|
  }

  predicate StaysOnLine(n: Node) {
    IsComment(n) && n.newlines == 0
  }

  /** Of the items of a body, where the first may stay on the line, item i goes on a new one. */
  predicate OwnLine(items: seq<Node>, i: nat, firstInline: bool)
    requires i < |items|
  {
    if i == 0 then !firstInline else !StaysOnLine(items[i])
  }

  predicate HasOwnLine(items: seq<Node>, firstInline: bool) {
    exists i :: 0 <= i < |items| && OwnLine(items, i, firstInline)
  }
}
