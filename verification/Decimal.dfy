/** Integers to decimal text and back. */
module Decimal {
  import opened Limbs
  import opened Bignum

  predicate IsDigit(c: char) {
    '0' <= c <= '9'
  }

  function DigitValue(c: char): (d: nat)
    requires IsDigit(c)
    ensures d < 10
  {
    c as int - '0' as int
  }

  function DigitChar(d: nat): (c: char)
    requires d < 10
    ensures IsDigit(c) && DigitValue(c) == d
  {
    (d + '0' as int) as char
  }

  predicate AllDigits(text: string) {
    forall i :: 0 <= i < |text| ==> IsDigit(text[i])
  }

  /** The number a run of digits stands for. */
  function DecValue(text: string): nat
    requires AllDigits(text)
  {
    if text == [] then 0 else 10 * DecValue(text[..|text| - 1]) + DigitValue(text[|text| - 1])
  }

  /** The digits of a number, without leading zeros. */
  function Dec(n: nat): (text: string)
    ensures text != [] && AllDigits(text)
  {
    if n < 10 then [DigitChar(n)] else Dec(n / 10) + [DigitChar(n % 10)]
  }

  /** Exactly k digits, with leading zeros. */
  function Padded(n: nat, k: nat): (text: string)
    ensures |text| == k && AllDigits(text)
  {
    if k == 0 then [] else Padded(n / 10, k - 1) + [DigitChar(n % 10)]
  }

  /** A sign, or none, then one digit or more. */
  function SignLength(text: string): nat {
    if text != [] && (text[0] == '+' || text[0] == '-') then 1 else 0
  }

  predicate IsDecimal(text: string) {
    SignLength(text) < |text| && AllDigits(text[SignLength(text)..])
  }

  function TextValue(text: string): int
    requires IsDecimal(text)
  {
    var m := DecValue(text[SignLength(text)..]);
    if text[0] == '-' then 0 - m else m
  }

  /** How a number is written. */
  function Written(n: int): string {
    if n < 0 then ['-'] + Dec(0 - n) else Dec(n)
  }

  // ---- laws -----------------------------------------------------------------

  lemma {:induction false} DecValueOfDec(n: nat)
    ensures DecValue(Dec(n)) == n
  {
    if n < 10 {
      assert Dec(n)[..0] == [];
    } else {
      DecValueOfDec(n / 10);
      assert Dec(n)[..|Dec(n)| - 1] == Dec(n / 10);
    }
  }

  lemma WrittenIsDecimal(n: int)
    ensures IsDecimal(Written(n)) && TextValue(Written(n)) == n
  {
    if n < 0 {
      assert Written(n)[1..] == Dec(0 - n);
      DecValueOfDec(0 - n);
    } else {
      assert IsDigit(Dec(n)[0]);
      assert Written(n)[0..] == Dec(n);
      DecValueOfDec(n);
    }
  }

  /** A minus sign or nothing, then digits: no plus sign, no zero in front of other
      digits, no minus zero. */
  predicate IsNumeral(text: string) {
    && IsDecimal(text) && (SignLength(text) == 1 ==> text[0] == '-' && text != "-0")
    && (|text| > SignLength(text) + 1 ==> text[SignLength(text)] != '0')
  }

  lemma LastDigit(front: nat, d: nat)
    requires d < 10
    ensures (10 * front + d) / 10 == front && (10 * front + d) % 10 == d
  {
  }

  lemma OneMoreDigit(front: nat, d: nat)
    requires front > 0 && d < 10
    ensures Dec(10 * front + d) == Dec(front) + [DigitChar(d)]
  {
    LastDigit(front, d);
  }

  lemma {:induction false} DigitsAreDec(text: string)
    requires text != [] && AllDigits(text) && (|text| > 1 ==> text[0] != '0')
    ensures text == Dec(DecValue(text)) && (text != "0" ==> DecValue(text) > 0)
  {
    var front, c := text[..|text| - 1], text[|text| - 1];
    assert text == front + [c];
    assert DigitChar(DigitValue(c)) == c;
    if |text| == 1 {
      assert front == [] && DecValue(text) == DigitValue(c);
    } else {
      DigitsAreDec(front);
      assert front != "0" by { assert front[0] == text[0]; }
      hide Dec;
      OneMoreDigit(DecValue(front), DigitValue(c));
    }
  }

  lemma {:induction false} DecHasNoZeroInFront(n: nat)
    ensures |Dec(n)| > 1 ==> Dec(n)[0] != '0'
    ensures Dec(n)[0] == '0' ==> n == 0
  {
    if n >= 10 {
      DecHasNoZeroInFront(n / 10);
      assert Dec(n)[0] == Dec(n / 10)[0];
    }
  }

  /** An integer is written as the one numeral that stands for it. */
  lemma WrittenIff(text: string, n: int)
    ensures text == Written(n) <==> IsNumeral(text) && TextValue(text) == n
  {
    hide Dec, DecValue;
    WrittenIsDecimal(n);
    DecHasNoZeroInFront(if n < 0 then 0 - n else n);
    if IsNumeral(text) && TextValue(text) == n {
      var k := SignLength(text);
      DigitsAreDec(text[k..]);
      assert text == text[..k] + text[k..];
      if k == 1 {
        assert text[k..] != "0" by { assert text[..1] == ['-']; }
      } else {
        assert text[..0] == [];
      }
    }
  }

  function Ten(k: nat): nat {
    if k == 0 then 1 else 10 * Ten(k - 1)
  }

  lemma {:induction false} TenPositive(k: nat)
    ensures Ten(k) >= 1
  {
    if k > 0 { TenPositive(k - 1); }
  }

  /** Writing a number in two parts: the high one, then the low one padded. */
  lemma {:induction false} DecSplits(w: nat, r: nat, k: nat)
    requires w > 0 && r < Ten(k)
    ensures Dec(w * Ten(k) + r) == Dec(w) + Padded(r, k)
  {
    if k == 0 {
      assert Dec(w) + [] == Dec(w);
    } else {
      var n := w * Ten(k) + r;
      TenPositive(k - 1);
      MulMono(1, w, Ten(k - 1));
      assert w * (10 * Ten(k - 1)) == 10 * (w * Ten(k - 1));
      assert n / 10 == w * Ten(k - 1) + r / 10 && n % 10 == r % 10 && n >= 10;
      DecSplits(w, r / 10, k - 1);
      assert Dec(w) + (Padded(r / 10, k - 1) + [DigitChar(r % 10)]) == (Dec(w) + Padded(r / 10, k - 1)) + [DigitChar(r % 10)];
    }
  }

  // ---- parsing --------------------------------------------------------------

  /** Ten times what is there, plus the digit. */
  method PushDigit(limbs: seq<Limb>, digit: Limb) returns (r: seq<Limb>)
    ensures Normal(r) && Val(r) == 10 * Val(limbs) + digit
  {
    var scaled, n := MulMag(limbs, [10]);
    One(10);
    var added, m := AddMag(scaled[..n], [digit]);
    One(digit);
    var len := NormalizeLimbs(added, m);
    r := added[..len];
  }

  lemma DigitsOneMore(text: string, i: nat)
    requires i < |text| && AllDigits(text)
    ensures DecValue(text[..i + 1]) == 10 * DecValue(text[..i]) + DigitValue(text[i])
  {
    assert text[..i + 1][..i] == text[..i];
  }

  method ParseDigits(text: string) returns (limbs: seq<Limb>)
    requires AllDigits(text)
    ensures Normal(limbs) && Val(limbs) == DecValue(text)
  {
    limbs := [];
    assert text[..0] == [];
    var i := 0;
    while i < |text|
      invariant 0 <= i <= |text| && Normal(limbs) && Val(limbs) == DecValue(text[..i])
    {
      DigitsOneMore(text, i);
      limbs := PushDigit(limbs, DigitValue(text[i]));
      i := i + 1;
    }
    assert text[..i] == text;
  }

  method ParseDecimal(text: string) returns (r: Option<Num>)
    ensures r.Some? <==> IsDecimal(text)
    ensures r.Some? ==> Canonical(r.value) && IntOf(r.value) == TextValue(text)
  {
    if |text| == 0 { return None; }
    var i := 0;
    var positive := true;
    if text[0] == '+' {
      i := 1;
    } else if text[0] == '-' {
      positive := false;
      i := 1;
    }
    if i >= |text| { return None; }
    var j := i;
    while j < |text|
      invariant i <= j <= |text|
      invariant forall k :: i <= k < j ==> IsDigit(text[k])
    {
      if !IsDigit(text[j]) {
        assert text[i..][j - i] == text[j];
        return None;
      }
      j := j + 1;
    }
    var limbs := ParseDigits(text[i..]);
    if |limbs| == 0 { return Some(Fix(0)); }
    var a := new Limb[|limbs|](k requires 0 <= k < |limbs| => limbs[k]);
    assert a[..|limbs|] == limbs;
    var v := MakeFromMag(a, |limbs|, positive);
    return Some(v);
  }

  // ---- printing -------------------------------------------------------------

  const CHUNK: nat := 1_000_000_000
  const CHUNK_DIGITS := 9

  lemma ChunkIs()
    ensures Ten(CHUNK_DIGITS) == CHUNK
  {
    assert Ten(1) == 10 && Ten(2) == 100 && Ten(3) == 1000;
    assert Ten(4) == 10000 && Ten(5) == 100000 && Ten(6) == 1000000;
    assert Ten(7) == 10000000 && Ten(8) == 100000000;
  }

  /** Divides the limbs in place, from the top. */
  method DivInPlace(a: array<Limb>, len: nat, d: Limb) returns (rem: nat)
    requires d > 0 && len <= a.Length
    modifies a
    ensures rem < d && old(Val(a[..len])) == Val(a[..len]) * d + rem
  {
    hide Val, Pow, Above, Divided;
    ghost var was := a[..len];
    rem := 0;
    var i := len;
    DividedStarts(a[..len], was, d);
    while i > 0
      invariant 0 <= i <= len && 0 <= rem < d && a[..i] == was[..i]
      invariant |a[..len]| == |was| && Divided(a[..len], was, i, d, rem)
    {
      assert a[i - 1] == a[..i][i - 1] == was[i - 1];
      var s := rem * B + a[i - 1];
      DivStep(rem, a[i - 1], d);
      ghost var before := a[..len];
      a[i - 1] := s / d;
      assert a[..len][i..] == before[i..];
      DividedStep(before, a[..len], was, i - 1, d, rem, s);
      assert a[..i - 1] == was[..i - 1];
      rem := s % d;
      i := i - 1;
    }
    DividedEnds(a[..len], was, d, rem);
  }

  function Reversed(s: string): string {
    if s == [] then [] else Reversed(s[1..]) + [s[0]]
  }

  lemma {:induction false} ReversedAppend(a: string, b: string)
    ensures Reversed(a + b) == Reversed(b) + Reversed(a)
  {
    if a == [] {
      assert a + b == b && Reversed(b) + [] == Reversed(b);
    } else {
      assert (a + b)[1..] == a[1..] + b;
      ReversedAppend(a[1..], b);
      assert Reversed(b) + (Reversed(a[1..]) + [a[0]]) == (Reversed(b) + Reversed(a[1..])) + [a[0]];
    }
  }

  lemma {:induction false} ReversedTwice(s: string)
    ensures Reversed(Reversed(s)) == s
  {
    if s != [] {
      ReversedAppend(Reversed(s[1..]), [s[0]]);
      ReversedTwice(s[1..]);
      assert Reversed([s[0]]) == [s[0]] by { assert [s[0]][1..] == []; }
      assert s == [s[0]] + s[1..];
    }
  }

  /** What is still to be written, then what has been. */
  ghost predicate Progress(n: nat, w: nat, done: string) {
    Dec(n) == if w == 0 then done else Dec(w) + done
  }

  lemma OneChunk(n: nat, w: nat, q: nat, rem: nat, done: string)
    requires Progress(n, w, done) && w > 0 && w == q * CHUNK + rem && rem < CHUNK
    ensures Progress(n, q, (if q == 0 then Dec(rem) else Padded(rem, CHUNK_DIGITS)) + done)
  {
    hide Dec, Padded, Ten;
    ChunkIs();
    assert q == 0 ==> w == rem;
    if q > 0 {
      DecSplits(q, rem, CHUNK_DIGITS);
      assert (Dec(q) + Padded(rem, CHUNK_DIGITS)) + done == Dec(q) + (Padded(rem, CHUNK_DIGITS) + done);
    }
  }

  method AppendReversed(digits: string, chunk: string) returns (r: string)
    ensures r == digits + Reversed(chunk)
  {
    r := digits;
    var i := |chunk|;
    assert chunk[|chunk|..] == [];
    while i > 0
      invariant 0 <= i <= |chunk| && r == digits + Reversed(chunk[i..])
      decreases i
    {
      assert chunk[i - 1..] == [chunk[i - 1]] + chunk[i..];
      ReversedAppend([chunk[i - 1]], chunk[i..]);
      assert Reversed([chunk[i - 1]]) == [chunk[i - 1]] by { assert [chunk[i - 1]][1..] == []; }
      r := r + [chunk[i - 1]];
      i := i - 1;
    }
    assert chunk[0..] == chunk;
  }

  /** The limbs from the top: chunks of nine digits, the last one unpadded. */
  method WriteMag(limbs: seq<Limb>) returns (digits: string)
    requires Normal(limbs) && limbs != []
    ensures digits == Reversed(Dec(Val(limbs)))
  {
    var work := new Limb[|limbs|](k requires 0 <= k < |limbs| => limbs[k]);
    assert work[..|limbs|] == limbs;
    var wlen := |limbs|;
    digits := [];
    ghost var done: string := [];
    NormalBound(limbs);
    PowPositive(|limbs| - 1);
    assert Dec(Val(limbs)) + done == Dec(Val(limbs));
    while wlen > 0
      invariant 0 <= wlen <= work.Length && Normal(work[..wlen]) && digits == Reversed(done)
      invariant Progress(Val(limbs), Val(work[..wlen]), done)
      decreases Val(work[..wlen])
    {
      ghost var w := Val(work[..wlen]);
      NormalBound(work[..wlen]);
      PowPositive(wlen - 1);
      var rem := DivInPlace(work, wlen, CHUNK);
      wlen := NormalizeLimbs(work, wlen);
      ghost var q := Val(work[..wlen]);
      EmptyIff(work[..wlen]);
      OneChunk(Val(limbs), w, q, rem, done);
      var chunk := if wlen == 0 then Dec(rem) else Padded(rem, CHUNK_DIGITS);
      digits := AppendReversed(digits, chunk);
      ReversedAppend(chunk, done);
      done := chunk + done;
    }
    assert work[..0] == [];
  }

  lemma EmptyIff(a: seq<Limb>)
    requires Normal(a)
    ensures Val(a) == 0 <==> a == []
  {
    if a != [] {
      NormalBound(a);
      PowPositive(|a| - 1);
    }
  }

  method ToString(v: Num) returns (text: string)
    requires Ok(v)
    ensures text == Written(IntOf(v))
  {
    if v.Fix? { return Written(v.n); }
    NormalBound(v.limbs);
    PowPositive(|v.limbs| - 1);
    hide Dec, Val, Pow;
    var digits := WriteMag(v.limbs);
    ReversedTwice(Dec(Val(v.limbs)));
    var back := AppendReversed(if v.positive then [] else ['-'], digits);
    return back;
  }

  /** Printing a canonical integer and parsing the text gives the integer back,
      in the same form. */
  method PrintThenParse(v: Num) returns (text: string, r: Option<Num>)
    requires Canonical(v)
    ensures text == Written(IntOf(v)) && r == Some(v)
  {
    text := ToString(v);
    r := ParseDecimal(text);
    WrittenIsDecimal(IntOf(v));
    CanonicalIsUnique(v, r.value);
  }
}
