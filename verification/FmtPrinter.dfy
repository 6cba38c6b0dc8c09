/** The formatter's printer. Whatever layout the widths lead to, the output is
    read back as the tokens of the tree, or a named mishap spoiled it. */
module FmtPrinter {
  import opened FmtLexer
  import opened FmtTree
  import opened FmtSpelling
  import opened FmtLines

  const MAX_WIDTH := 80
  const INDENT_STEP := 2

  /** A tree of whole tokens. */
  ghost predicate Sound(n: Node)
    decreases n
  {
    match n
    case AtomNode(text, _) => IsToken(Lexeme(Atom, text))
    case ListNode(open, items, _) =>
      IsToken(open) && (open.kind == LParen || open.kind == ListOpen)
      && forall i :: 0 <= i < |items| ==> Sound(items[i])
    case PrefixNode(text, target, _) => IsToken(Lexeme(Prefix, text)) && Sound(target)
    case DatumNode(target, _) => Sound(target)
    case LineNode(text, _) => IsToken(Lexeme(LineComment, text))
    case BlockNode(text, _) => IsToken(Lexeme(BlockComment, text))
  }

  ghost predicate AllSound(ns: seq<Node>) {
    forall i :: 0 <= i < |ns| ==> Sound(ns[i])
  }

  // ---- sizes and runs of nodes ----

  ghost function Size(n: Node): (k: nat)
    ensures k > 0
  {
    match n
    case ListNode(_, items, _) => 1 + SizeAll(items)
    case PrefixNode(_, target, _) => 1 + Size(target)
    case DatumNode(target, _) => 1 + Size(target)
    case _ => 1
  }

  ghost function SizeAll(ns: seq<Node>): nat {
    if ns == [] then 0 else Size(ns[0]) + SizeAll(ns[1..])
  }

  lemma {:induction false} SizeOfItem(ns: seq<Node>, i: nat)
    requires i < |ns|
    ensures Size(ns[i]) <= SizeAll(ns) && SizeAll(ns[i..]) <= SizeAll(ns)
  {
    hide Size;
    if i > 0 {
      SizeOfItem(ns[1..], i - 1);
      assert ns[i..] == ns[1..][i - 1..];
    } else {
      assert ns[0..] == ns;
    }
  }

  lemma {:induction false} FlattenConcat(a: seq<Node>, b: seq<Node>)
    ensures FlattenAll(a + b) == FlattenAll(a) + FlattenAll(b)
  {
    hide Flatten;
    if a == [] {
      assert a + b == b;
    } else {
      FlattenConcat(a[1..], b);
      assert (a + b)[1..] == a[1..] + b && (a + b)[0] == a[0];
    }
  }

  lemma FlattenSnoc(ns: seq<Node>, i: nat)
    requires i < |ns|
    ensures FlattenAll(ns[..i + 1]) == FlattenAll(ns[..i]) + Flatten(ns[i])
  {
    assert ns[..i + 1] == ns[..i] + [ns[i]];
    FlattenConcat(ns[..i], [ns[i]]);
    assert [ns[i]][1..] == [];
  }

  lemma FlattenSplit(ns: seq<Node>, i: nat)
    requires i <= |ns|
    ensures FlattenAll(ns) == FlattenAll(ns[..i]) + FlattenAll(ns[i..])
  {
    assert ns == ns[..i] + ns[i..];
    FlattenConcat(ns[..i], ns[i..]);
  }

  // ---- modes ----

  /** Between two nodes. */
  predicate Between(m: Mode) {
    m != NoAt
  }

  predicate Starts(m: Mode) {
    m == Free || m == NoAt || m == Spoiled
  }

  /** The mode the tokens lead to, unless a token was swallowed on the way. */
  ghost predicate Tracks(m: Mode, m0: Mode, ls: seq<Lexeme>, swallowed: bool) {
    m == if swallowed then Spoiled else After(m0, ls)
  }

  /** Right behind a node. */
  ghost predicate Behind(m: Mode, n: Node) {
    Between(m) && (m == Spoiled || (m == NeedsBreak <==> EndsOpen(n)))
  }

  lemma OneToken(m: Mode, t: Lexeme)
    ensures After(m, [t]) == NextMode(m, t)
  {
    AfterSnoc(m, [], t);
    assert [] + [t] == [t];
  }

  lemma {:induction false} ModeOfNode(m: Mode, n: Node)
    ensures Behind(After(m, Flatten(n)), n)
    decreases n
  {
    match n
    case AtomNode(text, _) => OneToken(m, Lexeme(Atom, text));
    case ListNode(open, items, _) => AfterSnoc(m, [open] + FlattenAll(items), Lexeme(RParen, ")"));
    case PrefixNode(text, target, _) =>
      AfterConcat(m, [Lexeme(Prefix, text)], Flatten(target));
      ModeOfNode(After(m, [Lexeme(Prefix, text)]), target);
    case DatumNode(target, _) =>
      AfterConcat(m, [Lexeme(DatumComment, "#;")], Flatten(target));
      ModeOfNode(After(m, [Lexeme(DatumComment, "#;")]), target);
    case LineNode(text, _) => OneToken(m, Lexeme(LineComment, text));
    case BlockNode(text, _) => OneToken(m, Lexeme(BlockComment, text));
  }

  lemma AnyOfMore(items: seq<Node>, i: nat)
    requires i < |items|
    ensures AnySwallows(items[..i + 1]) <==> AnySwallows(items[..i]) || Swallows(items[i])
  {
    hide Swallows;
    var a, b := items[..i], items[..i + 1];
    assert forall k :: 0 <= k < i ==> a[k] == b[k];
    assert b[i] == items[i];
  }

  lemma AnyOfBoth(items: seq<Node>, i: nat)
    requires i <= |items|
    ensures AnySwallows(items) <==> AnySwallows(items[..i]) || AnySwallows(items[i..])
  {
    hide Swallows;
    var a, b := items[..i], items[i..];
    assert forall k :: 0 <= k < i ==> a[k] == items[k];
    assert forall k :: i <= k < |items| ==> b[k - i] == items[k];
  }

  /** The white space before an item: after a space an open line comment swallows it. */
  ghost predicate Spaced(was: Mode, start: Mode, opens: bool) {
    || (!opens && (start == was || start == Blanked(was, '\n')))
    || (start == Blanked(was, ' ') && (was == Spoiled || (was == NeedsBreak <==> opens)))
  }

  // The mode after one more item: `was` before it, `start` after any white space, `now` behind it.
  lemma ItemDone(m0: Mode, was: Mode, start: Mode, now: Mode, items: seq<Node>, i: nat, head: bool, opens: bool)
    requires i < |items| && Between(was) && Tracks(was, m0, FlattenAll(items[..i]), AnySwallows(items[..i]) || head)
    requires Tracks(now, start, Flatten(items[i]), Swallows(items[i])) && Spaced(was, start, opens)
    ensures FlattenAll(items[..i + 1]) == FlattenAll(items[..i]) + Flatten(items[i])
    ensures Tracks(now, m0, FlattenAll(items[..i + 1]), AnySwallows(items[..i + 1]) || head || opens)
    ensures Behind(now, items[i])
  {
    hide Flatten, FlattenAll, Swallows, AnySwallows, EndsOpen;
    FlattenSnoc(items, i);
    AnyOfMore(items, i);
    var ls := Flatten(items[i]);
    AfterConcat(m0, FlattenAll(items[..i]), ls);
    AfterBlank(was, '\n', ls);
    AfterBlank(was, ' ', ls);
    StaysSpoiled(ls);
    ModeOfNode(was, items[i]);
    ModeOfNode(start, items[i]);
  }

  lemma {:induction false} SoundTexts(n: Node)
    requires Sound(n)
    ensures AllTexts(n)
    decreases n
  {
    hide IsToken;
    match n
    case ListNode(open, items, _) =>
      ShortHasNoBreak(open);
      forall i | 0 <= i < |items| ensures AllTexts(items[i]) { SoundTexts(items[i]); }
    case PrefixNode(text, target, _) => ShortHasNoBreak(Lexeme(Prefix, text)); SoundTexts(target);
    case DatumNode(target, _) => SoundTexts(target);
    case _ =>
  }

  /** The node is short enough for the rest of the line, and nothing keeps it apart. */
  predicate Fits(n: Node, col: nat) {
    Measure(n).Some? && col + Measure(n).value <= MAX_WIDTH && !HasBodyBlank(n)
  }

  class Printer {
    var out: string
    var col: nat
    var open: bool
    ghost var toks: seq<Lexeme>
    ghost var mode: Mode

    /** The output spells the tokens so far, and an open line comment is known to be open. */
    ghost predicate Kept()
      reads this
    {
      && Spells(out, toks, mode)
      && (mode == NeedsBreak ==> open)
      && (mode == Starved ==> EndsWithLast(out, toks))
    }

    /** And the output is not further right than the column says. */
    ghost predicate Valid()
      reads this
    {
      Kept() && Column(out) <= col
    }

    /** These tokens were added. */
    twostate predicate Printed(ls: seq<Lexeme>, swallowed: bool)
      reads this
    {
      Valid() && old(out) <= out && toks == old(toks) + ls && Tracks(mode, old(mode), ls, swallowed)
    }

    /** This text was added, without a line break. */
    twostate predicate OnOneLine(text: string)
      reads this
    {
      out == old(out) + text && col == old(col) + |text|
    }

    constructor ()
      ensures Valid() && toks == [] && mode == Free && col == 0 && out == "" && !open
    {
      out := "";
      col := 0;
      open := false;
      toks := [];
      mode := Free;
      new;
      NothingSpelled();
    }

    /** One token as it is; the column counts from its last line break. */
    method Raw(t: Lexeme)
      requires Valid() && IsToken(t) && (Admits(mode, t.text) || Refuses(mode, t.text))
      modifies this
      ensures out == old(out) + t.text && toks == old(toks) + [t] && mode == Joined(old(mode), t) && !open
      ensures Spells(out, toks, mode) && (mode == Starved ==> EndsWithLast(out, toks))
      ensures Column(out) <= col && ('\n' !in t.text ==> col == old(col) + |t.text|)
    {
      hide Spells, IsToken, Admits, Refuses, Joined, Column;
      AddToken(out, toks, mode, t);
      out := out + t.text;
      var i: nat := |t.text|;
      while i > 0 && t.text[i - 1] != '\n'
        invariant i <= |t.text| && forall k :: i <= k < |t.text| ==> t.text[k] != '\n'
        modifies {}
      {
        i := i - 1;
      }
      ColumnIs(t.text, i);
      ColumnOfMore(old(out), t.text);
      if i > 0 {
        col := |t.text| - i;
      } else {
        col := col + |t.text|;
      }
      open := false;
      mode := Joined(mode, t);
      toks := toks + [t];
    }

    method Spaces(n: nat)
      requires Valid()
      modifies this
      ensures Valid() && toks == old(toks) && open == old(open) && col == old(col) + n
      ensures old(out) <= out && (n == 1 ==> out == old(out) + " ")
      ensures mode == if n == 0 then old(mode) else Blanked(old(mode), ' ')
    {
      hide Spells, EndsWithLast, Column;
      var i := 0;
      while i < n
        invariant i <= n && Kept() && toks == old(toks) && open == old(open) && col == old(col) && Column(out) <= col + i
        invariant old(out) <= out && (i == 0 ==> out == old(out)) && (i == 1 ==> out == old(out) + " ")
        invariant mode == if i == 0 then old(mode) else Blanked(old(mode), ' ')
      {
        AddBlank(out, toks, mode, ' ');
        ColumnOfMore(out, " ");
        out := out + " ";
        mode := Blanked(mode, ' ');
        i := i + 1;
      }
      col := col + n;
    }

    // The column is left where it was before the line break, as the source leaves it.
    method NewlineTo(indent: nat)
      requires Valid()
      modifies this
      ensures Valid() && toks == old(toks) && !open && mode == Blanked(old(mode), '\n') && col == old(col) + indent
      ensures Broke(old(out), out)
    {
      hide Spells, EndsWithLast, Column;
      AddBlank(out, toks, mode, '\n');
      ColumnOfMore(out, "\n");
      ColumnIs("\n", 1);
      out := out + "\n";
      mode := Blanked(mode, '\n');
      ghost var broken := out;
      assert broken[|old(out)|..] == "\n" && Broke(old(out), broken);
      Spaces(indent);
      open := false;
      BrokeStill(old(out), broken, out);
    }

    method BlankLine()
      requires Valid()
      modifies this
      ensures Valid() && toks == old(toks) && open == old(open) && mode == Blanked(old(mode), '\n') && col == old(col)
      ensures old(out) <= out
    {
      hide Spells, EndsWithLast, Column;
      AddBlank(out, toks, mode, '\n');
      ColumnOfMore(out, "\n");
      ColumnIs("\n", 1);
      out := out + "\n";
      mode := Blanked(mode, '\n');
    }

    // A token that is no line comment, where a node may start.
    method Put(t: Lexeme)
      requires Valid() && IsToken(t) && t.kind != LineComment && Starts(mode)
      modifies this
      ensures Printed([t], false)
      ensures out == old(out) + t.text && ('\n' !in t.text ==> col == old(col) + |t.text|)
      ensures (t.kind == Prefix || t.kind == DatumComment) ==> Starts(mode)
      ensures (t.kind == LParen || t.kind == ListOpen) ==> mode == Free || mode == Spoiled
    {
      hide Spells, IsToken, Admits, Refuses;
      StartAdmits(mode);
      OneToken(mode, t);
      Raw(t);
    }

    method EmitNode(n: Node)
      requires Valid() && Sound(n) && Starts(mode)
      modifies this
      ensures Printed(Flatten(n), Swallows(n))
      decreases Size(n), 3
    {
      hide Spells, IsToken, Admits, Refuses, NextMode, After, EndsWithLast;
      match n
      case AtomNode(text, _) => Put(Lexeme(Atom, text));
      case BlockNode(text, _) => Put(Lexeme(BlockComment, text));
      case LineNode(text, _) =>
        StartAdmits(mode);
        OneToken(mode, Lexeme(LineComment, text));
        Raw(Lexeme(LineComment, text));
        open := true;
      case PrefixNode(text, target, _) =>
        PrefixThen(mode, toks, Lexeme(Prefix, text), target);
        Put(Lexeme(Prefix, text));
        EmitNode(target);
      case DatumNode(target, _) =>
        PrefixThen(mode, toks, Lexeme(DatumComment, "#;"), target);
        DatumIsToken();
        Put(Lexeme(DatumComment, "#;"));
        EmitNode(target);
      case ListNode(_, _, _) =>
        EmitList(n);
    }

    method EmitList(n: Node)
      requires Valid() && Sound(n) && n.ListNode? && Starts(mode)
      modifies this
      ensures Printed(Flatten(n), Swallows(n))
      ensures Fits(n, old(col)) ==> out == old(out) + OneLine(n) && Column(out) <= MAX_WIDTH
      ensures !Fits(n, old(col)) && Spreads(n) ==> Broke(old(out), out)
      decreases Size(n), 2
    {
      var start := col;
      var w := Measure(n);
      if w.Some? && start + w.value <= MAX_WIDTH && !HasBodyBlank(n) {
        MeasuredIsSafe(n);
        SoundTexts(n);
        MeasureIs(n);
        EmitInline(n);
      } else {
        EmitBrokenList(n, start);
      }
    }

    method EmitInline(n: Node)
      requires Valid() && Sound(n) && Measure(n).Some? && Starts(mode)
      modifies this
      ensures Printed(Flatten(n), false) && OnOneLine(OneLine(n))
      decreases Size(n), 1
    {
      hide Spells, IsToken, Admits, Refuses, NextMode, After, EndsWithLast, Column, Swallows, HasBodyBlank;
      match n
      case AtomNode(text, _) => Put(Lexeme(Atom, text));
      case BlockNode(text, _) => Put(Lexeme(BlockComment, text));
      case PrefixNode(text, target, _) =>
        PrefixThen(mode, toks, Lexeme(Prefix, text), target);
        ShortHasNoBreak(Lexeme(Prefix, text));
        Put(Lexeme(Prefix, text));
        EmitInline(target);
        assert old(out) + text + OneLine(target) == old(out) + OneLine(n);
      case DatumNode(target, _) =>
        PrefixThen(mode, toks, Lexeme(DatumComment, "#;"), target);
        DatumIsToken();
        Put(Lexeme(DatumComment, "#;"));
        EmitInline(target);
        assert old(out) + "#;" + OneLine(target) == old(out) + OneLine(n);
      case ListNode(_, _, _) =>
        InlineList(n);
    }

    method InlineList(n: Node)
      requires Valid() && Sound(n) && n.ListNode? && Measure(n).Some? && Starts(mode)
      modifies this
      ensures Printed(Flatten(n), false) && OnOneLine(OneLine(n))
      decreases Size(n), 0
    {
      hide Spells, IsToken, Admits, Refuses, NextMode, After, EndsWithLast, Column, Sound, Swallows, EndsOpen;
      ghost var m0, t0, o0 := mode, toks, out;
      OpenOf(n);
      ShortHasNoBreak(n.open);
      Put(n.open);
      ghost var m1 := mode;
      InlineItems(n.items);
      CloseIsToken();
      CloseAdmits(mode);
      ListDone(m0, m1, mode, n, false);
      Raw(Lexeme(RParen, ")"));
      assert t0 + [n.open] + FlattenAll(n.items) + [Lexeme(RParen, ")")] == t0 + Flatten(n);
      assert o0 + n.open.text + OneLineAll(n.items) + ")" == o0 + OneLine(n);
    }

    ghost predicate Lined(out0: string, col0: nat, text: string)
      reads this
    {
      out == out0 + text && col == col0 + |text|
    }

    // Items of a list on one line, a space between two of them.
    method InlineItems(items: seq<Node>)
      requires Valid() && AllSound(items) && MeasureAll(items).Some? && (mode == Free || mode == Spoiled)
      modifies this
      ensures Printed(FlattenAll(items), false) && OnOneLine(OneLineAll(items)) && Between(mode) && mode != NeedsBreak
      decreases SizeAll(items), 2
    {
      hide Spells, Sound, Swallows, EndsOpen, NextMode, After, EndsWithLast, OneLine, OneLineAll, Column;
      var i := 0;
      ghost var out0, toks0, mode0, col0 := out, toks, mode, col;
      StartItems(mode, items);
      NothingOnLine(items);
      MeasuredAreSafe(items);
      while i < |items|
        invariant Upto(out0, toks0, mode0, items, i, false) && mode != NeedsBreak
        invariant i == 0 ==> mode == Free || mode == Spoiled
        invariant Lined(out0, col0, OneLineAll(items[..i]))
      {
        ghost var was := mode;
        if i > 0 {
          Spaces(1);
        }
        ghost var start := mode;
        SizeOfItem(items, i);
        MeasureItem(items, i);
        EmitInline(items[i]);
        OneLineMore(items, i);
        ItemDone(mode0, was, start, mode, items, i, false, false);
        i := i + 1;
      }
      assert items[..i] == items;
    }

    // The first i items of a list were printed, from a given start; `head` tells
    // whether one of them was swallowed on the line of the list's first.
    ghost predicate Upto(out0: string, toks0: seq<Lexeme>, mode0: Mode, items: seq<Node>, i: nat, head: bool)
      reads this
    {
      && i <= |items| && Valid() && out0 <= out && Between(mode) && toks == toks0 + FlattenAll(items[..i])
      && Tracks(mode, mode0, FlattenAll(items[..i]), AnySwallows(items[..i]) || head)
    }

    // A line break before an item, or a space before a comment that stood on the line.
    method Separate(node: Node, indent: nat, started: bool)
      requires Valid() && Between(mode)
      modifies this
      ensures Valid() && toks == old(toks) && Starts(mode) && Spaced(old(mode), mode, false)
      ensures old(out) <= out && (!(started && StaysOnLine(node)) ==> Broke(old(out), out))
    {
      hide Spells, EndsWithLast, Column;
      if IsComment(node) && node.newlines == 0 && started && !open {
        Spaces(1);
      } else {
        if node.newlines >= 2 {
          BlankLine();
        }
        ghost var before := out;
        NewlineTo(indent);
        BrokeStill(old(out), before, out);
      }
    }

    /** Children on lines of their own, except comments that stood at the end of a line. */
    method EmitBodyFrom(children: seq<Node>, indent: nat, firstInline: bool)
      requires Valid() && AllSound(children) && Between(mode) && (firstInline ==> mode == Free || mode == Spoiled)
      modifies this
      ensures Printed(FlattenAll(children), AnySwallows(children)) && Between(mode)
      ensures HasOwnLine(children, firstInline) ==> Broke(old(out), out)
      decreases SizeAll(children), 4
    {
      hide Spells, Sound, Swallows, EndsOpen, NextMode, After, EndsWithLast, Column, Broke, StaysOnLine;
      var started := false;
      var i := 0;
      ghost var out0, toks0, mode0 := out, toks, mode;
      StartItems(mode, children);
      while i < |children|
        invariant Upto(out0, toks0, mode0, children, i, false) && (started <==> i > 0) && (i == 0 ==> mode == mode0)
        invariant forall k :: 0 <= k < i && OwnLine(children, k, firstInline) ==> Broke(out0, out)
      {
        ghost var was, before := mode, out;
        var child := children[i];
        SizeOfItem(children, i);
        if !(firstInline && !started) {
          Separate(child, indent, started);
        }
        ghost var start, parted := mode, out;
        EmitNode(child);
        BrokeStill(before, parted, out);
        BrokeStill(out0, before, out);
        ItemDone(mode0, was, start, mode, children, i, false, false);
        started := true;
        i := i + 1;
      }
      assert children[..i] == children;
    }

    method EmitBody(children: seq<Node>, indent: nat)
      requires Valid() && AllSound(children) && Between(mode)
      modifies this
      ensures Printed(FlattenAll(children), AnySwallows(children)) && Between(mode)
      ensures children != [] ==> Broke(old(out), out)
      decreases SizeAll(children), 5
    {
      assert children != [] ==> OwnLine(children, 0, false);
      EmitBodyFrom(children, indent, false);
    }

    // A space and an item.
    method EmitOnLine(items: seq<Node>, i: nat, ghost out0: string, ghost toks0: seq<Lexeme>, ghost mode0: Mode, ghost head: bool)
      requires AllSound(items) && 0 < i < |items| && Upto(out0, toks0, mode0, items, i, head) && Behind(mode, items[i - 1])
      modifies this
      ensures Upto(out0, toks0, mode0, items, i + 1, head || EndsOpen(items[i - 1])) && Behind(mode, items[i])
      decreases SizeAll(items), 4
    {
      hide Spells, Sound, Swallows, AnySwallows, EndsOpen, NextMode, After, EndsWithLast;
      ghost var was := mode;
      Spaces(1);
      ghost var start := mode;
      SizeOfItem(items, i);
      EmitNode(items[i]);
      ItemDone(mode0, was, start, mode, items, i, head, EndsOpen(items[i - 1]));
    }

    // Comments that stood on the line of the item before them; a line comment ends them.
    method EmitTrailing(items: seq<Node>, i: nat, ghost out0: string, ghost toks0: seq<Lexeme>, ghost mode0: Mode, ghost head: bool)
      returns (j: nat, wasLine: bool)
      requires AllSound(items) && 0 < i <= |items| && Upto(out0, toks0, mode0, items, i, head) && Behind(mode, items[i - 1])
      modifies this
      ensures (j, wasLine) == Trail(items, i)
      ensures Upto(out0, toks0, mode0, items, j, head || (j > i && EndsOpen(items[i - 1]))) && Behind(mode, items[j - 1])
      decreases SizeAll(items), 5
    {
      hide Spells, Sound, Swallows, AnySwallows, Flatten, FlattenAll, NextMode, After, EndsWithLast, Upto, Behind;
      j, wasLine := i, false;
      while j < |items| && IsComment(items[j]) && items[j].newlines == 0 && !wasLine
        invariant i <= j <= |items| && Trail(items, i) == if wasLine then (j, true) else Trail(items, j)
        invariant Upto(out0, toks0, mode0, items, j, head || (j > i && EndsOpen(items[i - 1]))) && Behind(mode, items[j - 1])
        invariant j > i ==> (EndsOpen(items[j - 1]) <==> wasLine)
      {
        EmitOnLine(items, j, out0, toks0, mode0, head || (j > i && EndsOpen(items[i - 1])));
        wasLine := items[j].LineNode?;
        j := j + 1;
      }
    }

    // The items that are left go into the body.
    method EmitRest(items: seq<Node>, i: nat, indent: nat, ghost out0: string, ghost toks0: seq<Lexeme>, ghost mode0: Mode, ghost head: bool)
      requires AllSound(items) && Upto(out0, toks0, mode0, items, i, head)
      modifies this
      ensures Upto(out0, toks0, mode0, items, |items|, head)
      ensures i < |items| ==> Broke(out0, out)
      decreases SizeAll(items), 6
    {
      hide Spells, Sound, AnySwallows, NextMode, After, EndsWithLast, Column, Broke;
      if i < |items| {
        SizeOfItem(items, i);
      }
      FlattenSplit(items, i);
      AnyOfBoth(items, i);
      AfterConcat(mode0, FlattenAll(items[..i]), FlattenAll(items[i..]));
      StaysSpoiled(FlattenAll(items[i..]));
      EmitBody(items[i..], indent);
      BrokeStill(out0, old(out), out);
      assert items[..|items|] == items;
    }

    /** The first k + 1 items on one line, the rest indented by a step. */
    method EmitBodyStyle(items: seq<Node>, start: nat, k: nat)
      requires Valid() && AllSound(items) && (mode == Free || mode == Spoiled)
      modifies this
      ensures Printed(FlattenAll(items), AnySwallows(items) || HeadSwallows(items, 0, 0, k, false)) && Between(mode)
      ensures HeadEnd(items, 0, 0, k, false) < |items| ==> Broke(old(out), out)
      decreases SizeAll(items), 7
    {
      hide Spells, Sound, Swallows, AnySwallows, EndsOpen, NextMode, After, EndsWithLast;
      var i, placed: nat, wasLine := 0, 0, false;
      ghost var out0, toks0, mode0, head := out, toks, mode, false;
      StartItems(mode, items);
      while i < |items| && placed <= k && !IsComment(items[i]) && !wasLine
        invariant Upto(out0, toks0, mode0, items, i, head)
        invariant if placed == 0 then i == 0 && (mode == Free || mode == Spoiled) else i > 0 && Behind(mode, items[i - 1])
        invariant HeadEnd(items, 0, 0, k, false) == HeadEnd(items, i, placed, k, wasLine)
        invariant HeadSwallows(items, 0, 0, k, false) <==> head || HeadSwallows(items, i, placed, k, wasLine)
        decreases |items| - i
      {
        ghost var at := i;
        i, wasLine := EmitPlaced(items, i, placed, out0, toks0, mode0, head);
        head := head || (placed > 0 && EndsOpen(items[at - 1])) || (i > at + 1 && EndsOpen(items[at]));
        placed := placed + 1;
      }
      EmitRest(items, i, start + INDENT_STEP, out0, toks0, mode0, head);
      assert items[..|items|] == items;
    }

    // One of the distinguished items, with the comments behind it.
    method EmitPlaced(items: seq<Node>, i: nat, placed: nat, ghost out0: string, ghost toks0: seq<Lexeme>, ghost mode0: Mode, ghost head: bool)
      returns (j: nat, wasLine: bool)
      requires AllSound(items) && i < |items| && Upto(out0, toks0, mode0, items, i, head)
      requires if placed == 0 then mode == Free || mode == Spoiled else i > 0 && Behind(mode, items[i - 1])
      modifies this
      ensures i < j && (j, wasLine) == Trail(items, i + 1) && Behind(mode, items[j - 1])
      ensures Upto(out0, toks0, mode0, items, j,
                   head || (placed > 0 && EndsOpen(items[i - 1])) || (j > i + 1 && EndsOpen(items[i])))
      decreases SizeAll(items), 6
    {
      hide Spells, Sound, Swallows, EndsOpen, NextMode, After, EndsWithLast;
      ghost var was := mode;
      if placed > 0 {
        Spaces(1);
      }
      ghost var start, opens := mode, placed > 0 && EndsOpen(items[i - 1]);
      SizeOfItem(items, i);
      EmitNode(items[i]);
      ItemDone(mode0, was, start, mode, items, i, head, opens);
      j, wasLine := EmitTrailing(items, i + 1, out0, toks0, mode0, head || opens);
    }

    /** Operator and first argument on one line, the other arguments under the first one. */
    method EmitCallStyle(items: seq<Node>, openCol: nat)
      requires Valid() && AllSound(items) && items != [] && !IsComment(items[0]) && (mode == Free || mode == Spoiled)
      modifies this
      ensures Printed(FlattenAll(items), AnySwallows(items) || HeadSwallows(items, 0, 0, 1, false)) && Between(mode)
      ensures HeadEnd(items, 0, 0, 1, false) < |items| ==> Broke(old(out), out)
      decreases SizeAll(items), 7
    {
      hide Spells, Sound, Swallows, AnySwallows, EndsOpen, NextMode, After, EndsWithLast;
      ghost var out0, toks0, mode0 := out, toks, mode;
      StartItems(mode, items);
      CallHead(items);
      CallEnd(items);
      var i, wasLine := EmitPlaced(items, 0, 0, out0, toks0, mode0, false);
      ghost var head := i > 1 && EndsOpen(items[0]);
      if wasLine || i == |items| || IsComment(items[i]) {
        EmitRest(items, i, openCol, out0, toks0, mode0, head);
      } else {
        var align := col + 1;
        ghost var at := i;
        i, wasLine := EmitPlaced(items, i, 1, out0, toks0, mode0, head);
        head := head || EndsOpen(items[at - 1]) || (i > at + 1 && EndsOpen(items[at]));
        EmitRest(items, i, align, out0, toks0, mode0, head);
      }
      assert items[..|items|] == items;
    }

    method EmitBrokenList(n: Node, start: nat)
      requires Valid() && Sound(n) && n.ListNode? && Starts(mode)
      modifies this
      ensures Printed(Flatten(n), Swallows(n)) && (Spreads(n) ==> Broke(old(out), out))
      decreases Size(n), 1
    {
      hide Spells, IsToken, NextMode, Admits, Refuses, After, EndsWithLast, Column, Broke, Spreads, Sound, Swallows;
      ghost var m0, t0 := mode, toks;
      OpenOf(n);
      Put(n.open);
      ghost var m1, begun := mode, out;
      EmitItems(n, start);
      ListDone(m0, m1, mode, n, Swallows(n));
      ghost var filled := out;
      BrokeStill(old(out), begun, filled);
      CloseParen(start);
      BrokeStill(old(out), filled, out);
      assert t0 + [n.open] + FlattenAll(n.items) + [Lexeme(RParen, ")")] == t0 + Flatten(n);
    }

    // What stands between the parentheses of a list that is not on one line.
    method EmitItems(n: Node, start: nat)
      requires Valid() && n.ListNode? && AllSound(n.items) && (mode == Free || mode == Spoiled)
      modifies this
      ensures Printed(FlattenAll(n.items), Swallows(n)) && Between(mode) && (Spreads(n) ==> Broke(old(out), out))
      decreases Size(n), 0
    {
      hide Spells, NextMode, After, EndsWithLast, Column, Broke, HasOwnLine, HeadEnd, Tracks;
      var openCol := col;
      if FirstCode(n.items) != Some(0) || IsData(n) {
        EmitBodyFrom(n.items, openCol, true);
      } else {
        FirstIsCode(n.items);
        var style := StyleOf(n.items);
        if style.Some? {
          EmitBodyStyle(n.items, start, style.value);
        } else {
          EmitCallStyle(n.items, openCol);
        }
      }
    }

    // An open line comment is ended first.
    method CloseParen(parenCol: nat)
      requires Valid() && Between(mode)
      modifies this
      ensures Valid() && toks == old(toks) + [Lexeme(RParen, ")")] && mode == NextMode(old(mode), Lexeme(RParen, ")"))
      ensures old(out) <= out
    {
      hide Spells, EndsWithLast, Column;
      if open {
        NewlineTo(parenCol);
      }
      CloseIsToken();
      Raw(Lexeme(RParen, ")"));
    }

    /** Top-level forms start lines of their own, except comments at the end of one. */
    method EmitTopLevel(nodes: seq<Node>)
      requires Valid() && AllSound(nodes) && mode == Free && toks == []
      modifies this
      ensures Printed(FlattenAll(nodes), AnySwallows(nodes)) && Between(mode)
    {
      hide Spells, Sound, Swallows, EndsOpen, NextMode, After, EndsWithLast;
      var i := 0;
      ghost var out0, toks0, mode0 := out, toks, mode;
      StartItems(mode, nodes);
      while i < |nodes|
        invariant Upto(out0, toks0, mode0, nodes, i, false) && (i == 0 ==> mode == Free)
      {
        ghost var was := mode;
        if i > 0 {
          Separate(nodes[i], 0, true);
        }
        ghost var start := mode;
        EmitNode(nodes[i]);
        ItemDone(mode0, was, start, mode, nodes, i, false, false);
        i := i + 1;
      }
      assert nodes[..i] == nodes;
    }
  }

  ghost predicate EndsWithLast(out: string, toks: seq<Lexeme>) {
    toks != [] && |toks[|toks| - 1].text| <= |out|
    && out[|out| - |toks[|toks| - 1].text|..] == toks[|toks| - 1].text
  }

  lemma StartAdmits(m: Mode)
    requires Starts(m)
    ensures forall rest :: Admits(m, rest) || Refuses(m, rest)
    ensures forall t: Lexeme :: Joined(m, t) == NextMode(m, t)
    ensures forall t: Lexeme :: t.kind != LineComment ==> NextMode(m, t) != NeedsBreak
  {
  }

  lemma CloseAdmits(m: Mode)
    requires Between(m)
    ensures Admits(m, ")") || Refuses(m, ")")
    ensures Joined(m, Lexeme(RParen, ")")) == if m == NeedsBreak then Spoiled else NextMode(m, Lexeme(RParen, ")"))
  {
  }

  lemma StartItems(m: Mode, items: seq<Node>)
    ensures items[..0] == [] && FlattenAll(items[..0]) == [] && Tracks(m, m, [], AnySwallows(items[..0]))
  {
  }

  lemma PrefixThen(m: Mode, toks: seq<Lexeme>, t: Lexeme, target: Node)
    ensures After(m, [t] + Flatten(target)) == After(After(m, [t]), Flatten(target))
    ensures toks + [t] + Flatten(target) == toks + ([t] + Flatten(target))
  {
    AfterConcat(m, [t], Flatten(target));
  }

  lemma NothingOnLine(items: seq<Node>)
    ensures OneLineAll(items[..0]) == []
  {
  }

  lemma OpenOf(n: Node)
    requires n.ListNode? && Sound(n)
    ensures IsToken(n.open) && (n.open.kind == LParen || n.open.kind == ListOpen) && AllSound(n.items)
  {
  }

  lemma DatumIsToken()
    ensures IsToken(Lexeme(DatumComment, "#;"))
  {
  }

  lemma CloseIsToken()
    ensures IsToken(Lexeme(RParen, ")"))
  {
  }

  lemma {:induction false} MeasureItem(items: seq<Node>, i: nat)
    requires i < |items| && MeasureAll(items).Some?
    ensures Measure(items[i]).Some? && !items[i].LineNode?
  {
    if i > 0 {
      MeasureItem(items[1..], i - 1);
    }
  }

  lemma FirstIsCode(items: seq<Node>)
    requires FirstCode(items) == Some(0)
    ensures items != [] && !IsComment(items[0])
  {
  }

  // What a call places on its first line: the operator and one argument.
  lemma CallHead(items: seq<Node>)
    requires items != [] && !IsComment(items[0])
    ensures var (i, line) := Trail(items, 1);
            if line || i == |items| || IsComment(items[i]) then
              HeadSwallows(items, 0, 0, 1, false) <==> (i > 1 && EndsOpen(items[0]))
            else
              var (j, _) := Trail(items, i + 1);
              HeadSwallows(items, 0, 0, 1, false) <==>
              (i > 1 && EndsOpen(items[0])) || EndsOpen(items[i - 1]) || (j > i + 1 && EndsOpen(items[i]))
  {
    hide EndsOpen, Trail;
    var (i, line) := Trail(items, 1);
    var e := HeadSwallows(items, i, 1, 1, line);
    assert HeadSwallows(items, 0, 0, 1, false) == ((i > 1 && EndsOpen(items[0])) || e);
    if !(line || i == |items| || IsComment(items[i])) {
      var (j, last) := Trail(items, i + 1);
      assert !HeadSwallows(items, j, 2, 1, last);
    }
  }

  lemma CallEnd(items: seq<Node>)
    requires items != [] && !IsComment(items[0])
    ensures var (i, line) := Trail(items, 1);
            HeadEnd(items, 0, 0, 1, false) == if line || i == |items| || IsComment(items[i]) then i else Trail(items, i + 1).0
  {
    hide Trail;
    var (i, line) := Trail(items, 1);
    assert HeadEnd(items, 0, 0, 1, false) == HeadEnd(items, i, 1, 1, line);
    if !(line || i == |items| || IsComment(items[i])) {
      var (j, last) := Trail(items, i + 1);
      assert HeadEnd(items, i, 1, 1, line) == HeadEnd(items, j, 2, 1, last);
    }
  }

  // The closing parenthesis of a list, put after a line break if one is needed.
  lemma ListDone(m0: Mode, m1: Mode, m2: Mode, n: Node, swallowed: bool)
    requires n.ListNode? && Tracks(m1, m0, [n.open], false) && Tracks(m2, m1, FlattenAll(n.items), swallowed)
    ensures Tracks(NextMode(m2, Lexeme(RParen, ")")), m0, Flatten(n), swallowed)
    ensures NextMode(m2, Lexeme(RParen, ")")) == Free || NextMode(m2, Lexeme(RParen, ")")) == Spoiled
    ensures Flatten(n) == [n.open] + FlattenAll(n.items) + [Lexeme(RParen, ")")]
  {
    AfterSnoc(m0, [n.open] + FlattenAll(n.items), Lexeme(RParen, ")"));
    AfterConcat(m0, [n.open], FlattenAll(n.items));
  }
}
