/** What tidying makes of a token, told from the text before and after. */
module FmtTidy {
  import opened FmtLexer
  import opened FmtTree

  /** t is s without the blanks at its end, and nothing else is gone. */
  ghost predicate IsTrimmed(s: string, t: string) {
    && t <= s && (t == [] || !IsBlank(t[|t| - 1]))
    && forall i :: |t| <= i < |s| ==> IsBlank(s[i])
  }

  /** The CR of a CR LF. */
  predicate IsHalfBreak(s: string, i: nat)
    requires i < |s|
  {
    s[i] == '\r' && i + 1 < |s| && s[i + 1] == '\n'
  }

  /** `at` lists the places of s that stay: all but the CR of a CR LF, in order. */
  ghost predicate IsKeptPlaces(s: string, at: seq<nat>) {
    && (forall j, k :: 0 <= j < k < |at| ==> at[j] < at[k])
    && (forall i: nat :: i in at <==> i < |s| && !IsHalfBreak(s, i))
  }

  /** t has, for every place of s that stays, its character, an LF for a CR. */
  ghost predicate IsPlain(s: string, t: string) {
    exists at: seq<nat> ::
      && IsKeptPlaces(s, at) && |at| == |t|
      && forall k :: 0 <= k < |at| ==> at[k] < |s| && t[k] == PlainAt(s, at[k])
  }

  lemma {:induction false} TrimmedIs(s: string)
    ensures IsTrimmed(s, Trimmed(s))
  {
    if s != [] && IsBlank(s[|s| - 1]) {
      TrimmedIs(s[..|s| - 1]);
    }
  }

  lemma TrimmedIsUnique(s: string, t: string, u: string)
    requires IsTrimmed(s, t) && IsTrimmed(s, u)
    ensures t == u
  {
    assert t != [] ==> s[|t| - 1] == t[|t| - 1];
    assert u != [] ==> s[|u| - 1] == u[|u| - 1];
  }

  lemma {:induction false} PlainBreaksIs(s: string)
    ensures IsPlain(s, PlainBreaks(s))
  {
    if s == [] {
      var at: seq<nat> := [];
      assert IsKeptPlaces(s, at);
    } else {
      PlainBreaksIs(s[1..]);
      var at := PlacesOf(s[1..], PlainBreaks(s[1..]));
      PlainStep(s);
      PlainCons(s, at, PlainBreaks(s[1..]), PlainBreaks(s));
    }
  }

  lemma PlainStep(s: string)
    requires s != []
    ensures PlainBreaks(s) == if IsHalfBreak(s, 0) then PlainBreaks(s[1..])
                              else [if s[0] == '\r' then '\n' else s[0]] + PlainBreaks(s[1..])
  {
    assert [] + PlainBreaks(s[1..]) == PlainBreaks(s[1..]);
  }

  /** The character that stays of the place i. */
  function PlainAt(s: string, i: nat): char
    requires i < |s|
  {
    if s[i] == '\r' then '\n' else s[i]
  }

  lemma PlainCons(s: string, at: seq<nat>, rest: string, t: string)
    requires s != [] && IsKeptPlaces(s[1..], at) && |at| == |rest|
    requires forall k :: 0 <= k < |at| ==> at[k] < |s[1..]| && rest[k] == PlainAt(s[1..], at[k])
    requires t == if IsHalfBreak(s, 0) then rest else [PlainAt(s, 0)] + rest
    ensures IsPlain(s, t)
  {
    hide IsKeptPlaces, IsPlain, IsHalfBreak;
    var moved := Moved(at);
    KeptPlacesMove(s, at, moved);
    MovedReads(s, at, rest);
    if IsHalfBreak(s, 0) {
      PlainFrom(s, moved, t);
    } else {
      FirstReads(s, moved, rest, t);
      PlainFrom(s, [0] + moved, t);
    }
  }

  function Moved(at: seq<nat>): (moved: seq<nat>)
    ensures |moved| == |at| && forall k :: 0 <= k < |at| ==> moved[k] == at[k] + 1
  {
    seq(|at|, k requires 0 <= k < |at| => at[k] + 1)
  }

  lemma MovedReads(s: string, at: seq<nat>, rest: string)
    requires s != [] && |at| == |rest|
    requires forall k :: 0 <= k < |at| ==> at[k] < |s[1..]| && rest[k] == PlainAt(s[1..], at[k])
    ensures forall k :: 0 <= k < |at| ==> Moved(at)[k] < |s| && rest[k] == PlainAt(s, Moved(at)[k])
  {
    var moved := Moved(at);
    forall k | 0 <= k < |at| ensures moved[k] < |s| && rest[k] == PlainAt(s, moved[k]) {
      assert s[1..][at[k]] == s[at[k] + 1];
    }
  }

  lemma FirstReads(s: string, moved: seq<nat>, rest: string, t: string)
    requires s != [] && |moved| == |rest| && t == [PlainAt(s, 0)] + rest
    requires forall k :: 0 <= k < |moved| ==> moved[k] < |s| && rest[k] == PlainAt(s, moved[k])
    ensures forall k :: 0 <= k < |[0] + moved| ==> ([0] + moved)[k] < |s| && t[k] == PlainAt(s, ([0] + moved)[k])
  {
    hide PlainAt;
    var all := [0] + moved;
    forall k | 0 <= k < |all| ensures all[k] < |s| && t[k] == PlainAt(s, all[k]) {
      if k > 0 { assert all[k] == moved[k - 1] && t[k] == rest[k - 1]; }
    }
  }

  lemma PlainFrom(s: string, at: seq<nat>, t: string)
    requires IsKeptPlaces(s, at) && |at| == |t| && forall k :: 0 <= k < |at| ==> at[k] < |s| && t[k] == PlainAt(s, at[k])
    ensures IsPlain(s, t)
  {
  }

  lemma KeptPlacesMove(s: string, at: seq<nat>, moved: seq<nat>)
    requires s != [] && IsKeptPlaces(s[1..], at) && |moved| == |at| && forall k :: 0 <= k < |at| ==> moved[k] == at[k] + 1
    ensures IsKeptPlaces(s, if IsHalfBreak(s, 0) then moved else [0] + moved)
  {
    var all := if IsHalfBreak(s, 0) then moved else [0] + moved;
    forall i: nat ensures i in all <==> i < |s| && !IsHalfBreak(s, i) {
      if i > 0 {
        assert i - 1 in at <==> i - 1 < |s[1..]| && !IsHalfBreak(s[1..], i - 1);
        MovedIn(at, moved, i);
        assert i in all <==> i in moved;
      } else {
        assert 0 !in moved;
      }
    }
  }

  lemma MovedIn(at: seq<nat>, moved: seq<nat>, i: nat)
    requires i > 0 && |moved| == |at| && forall k :: 0 <= k < |at| ==> moved[k] == at[k] + 1
    ensures i in moved <==> i - 1 in at
  {
    if i - 1 in at {
      var k :| 0 <= k < |at| && at[k] == i - 1;
      assert moved[k] == i;
    }
  }

  lemma {:induction false} KeptPlacesUnique(s: string, a: seq<nat>, b: seq<nat>)
    requires IsKeptPlaces(s, a) && IsKeptPlaces(s, b)
    ensures a == b
  {
    IncreasingUnique(a, b);
  }

  lemma HasMember(b: seq<nat>)
    ensures b != [] ==> exists i: nat :: i in b
  {
    if b != [] { assert b[0] in b; }
  }

  lemma {:induction false} IncreasingUnique(a: seq<nat>, b: seq<nat>)
    requires (forall j, k :: 0 <= j < k < |a| ==> a[j] < a[k]) && (forall j, k :: 0 <= j < k < |b| ==> b[j] < b[k])
    requires forall i: nat :: i in a <==> i in b
    ensures a == b
    decreases |a|
  {
    if a == [] {
      HasMember(b);
    } else {
      var x := a[|a| - 1];
      assert x in b && b != [];
      var y := b[|b| - 1];
      assert y in a;
      assert x == y;
      var c, d := a[..|a| - 1], b[..|b| - 1];
      forall i: nat ensures i in c <==> i in d {
        assert i in a <==> i in c || i == x;
        assert i in b <==> i in d || i == y;
        assert x !in c && y !in d;
      }
      IncreasingUnique(c, d);
      assert a == c + [x] && b == d + [y];
    }
  }

  lemma PlainIsUnique(s: string, t: string, u: string)
    requires IsPlain(s, t) && IsPlain(s, u)
    ensures t == u
  {
    var a := PlacesOf(s, t);
    var b := PlacesOf(s, u);
    KeptPlacesUnique(s, a, b);
  }

  lemma PlacesOf(s: string, t: string) returns (at: seq<nat>)
    requires IsPlain(s, t)
    ensures IsKeptPlaces(s, at) && |at| == |t|
    ensures forall k :: 0 <= k < |at| ==> at[k] < |s| && t[k] == PlainAt(s, at[k])
  {
    at :| IsKeptPlaces(s, at) && |at| == |t|
          && forall k :: 0 <= k < |at| ==> at[k] < |s| && t[k] == PlainAt(s, at[k]);
  }

  /** What formatting makes of a token: a line comment loses the blanks at its end, a
      block comment gets plain line breaks, everything else stays as it is. */
  ghost predicate IsTidied(a: Lexeme, b: Lexeme) {
    match a.kind
    case LineComment => b.kind == LineComment && IsTrimmed(a.text, b.text)
    case BlockComment => b.kind == BlockComment && IsPlain(a.text, b.text)
    case _ => b == a
  }

  /** Tidying does that, and only that. */
  lemma TidyIff(a: Lexeme, b: Lexeme)
    ensures IsTidied(a, b) <==> b == Tidy(a)
  {
    TrimmedIs(a.text);
    PlainBreaksIs(a.text);
    hide IsTrimmed, IsPlain, Trimmed, PlainBreaks;
    if IsTidied(a, b) {
      if a.kind == LineComment { TrimmedIsUnique(a.text, b.text, Trimmed(a.text)); }
      if a.kind == BlockComment { PlainIsUnique(a.text, b.text, PlainBreaks(a.text)); }
    }
  }
}
