/** The bytes of a cached function: little-endian words, counted blobs, tagged
    constants, nested functions in place. */
module CacheFormat {

  type Byte = b: int | 0 <= b < 256
  type Bytes = seq<Byte>

  datatype Option<T> = None | Some(value: T)

  // What a reader makes of some bytes, and the bytes after it.
  datatype Got<T> = Fail | Got(value: T, rest: Bytes)

  datatype Const =
    | Word(bits: nat)
    | Text(data: Bytes)
    | Symbol(name: Bytes, interned: bool)
    | Code(fn: Function)
    | Unsupported(id: nat)

  datatype Function = Function(
    arity: Byte, numRegs: Byte, numUpvalues: Byte, variadic: Byte,
    code: Bytes, constants: seq<Const>, upLocal: Bytes, upIndex: Bytes)

  const TAG_WORD: Byte := 73
  const TAG_TEXT: Byte := 83
  const TAG_SYMBOL: Byte := 89
  const TAG_CODE: Byte := 70

  // ---- words ----

  function Pow256(n: nat): (p: nat)
    ensures p > 0
  {
    if n == 0 then 1 else 256 * Pow256(n - 1)
  }

  /** The low n bytes of v, least significant first. */
  function Little(v: nat, n: nat): (s: Bytes)
    ensures |s| == n
  {
    if n == 0 then [] else [v % 256] + Little(v / 256, n - 1)
  }

  function FromLittle(s: Bytes): (v: nat) {
    if s == [] then 0 else s[0] + 256 * FromLittle(s[1..])
  }

  function ReadWord(s: Bytes, n: nat): Got<nat> {
    if |s| < n then Fail else Got(FromLittle(s[..n]), s[n..])
  }

  lemma {:induction false} LittleRoundTrip(v: nat, n: nat)
    ensures FromLittle(Little(v, n)) == v % Pow256(n)
  {
    if n > 0 {
      LittleRoundTrip(v / 256, n - 1);
      assert Little(v, n)[1..] == Little(v / 256, n - 1);
      SplitMod(v, Pow256(n - 1));
    }
  }

  /** Byte i of a word counts 256 to the i. */
  lemma {:induction false} LittleIs(v: nat, n: nat, i: nat)
    requires i < n
    ensures Little(v, n)[i] == v / Pow256(i) % 256
  {
    if i > 0 {
      LittleIs(v / 256, n - 1, i - 1);
      DivideTwice(v, Pow256(i - 1));
    }
  }

  lemma DivideTwice(v: nat, p: nat)
    requires p > 0
    ensures v / 256 / p == v / (256 * p)
  {
    var q, r := v / 256 / p, (v / 256) % p;
    var low := v % 256;
    assert v / 256 == q * p + r;
    assert v == 256 * (q * p + r) + low;
    assert 256 * (q * p + r) == q * (256 * p) + 256 * r;
    assert 256 * r + low < 256 * p;
    Unique(v, 256 * p, q, 256 * r + low);
    QuotientIs(v, 256 * p, q, 256 * r + low);
  }

  lemma QuotientIs(v: nat, m: nat, q: nat, r: nat)
    requires v == q * m + r && r < m
    ensures v / m == q
  {
    Unique(v, m, q, r);
    var d := v / m;
    assert v == d * m + r;
    if d > q {
      Gap(q, d, m);
    } else if q > d {
      Gap(d, q, m);
    }
  }

  lemma SplitMod(v: nat, p: nat)
    requires p > 0
    ensures v % (256 * p) == v % 256 + 256 * ((v / 256) % p)
  {
    var q, r := v / 256 / p, (v / 256) % p;
    assert v / 256 == q * p + r;
    assert v == 256 * (q * p + r) + v % 256;
    Unique(v, 256 * p, q, 256 * r + v % 256) by {
      assert 256 * (q * p + r) == q * (256 * p) + 256 * r;
      assert 256 * r + v % 256 < 256 * p;
    }
  }

  lemma Unique(v: nat, m: nat, q: nat, r: nat)
    requires v == q * m + r && r < m
    ensures v % m == r
  {
    var q1, r1 := v / m, v % m;
    assert v == q1 * m + r1;
    if q1 > q {
      Gap(q, q1, m);
    } else if q > q1 {
      Gap(q1, q, m);
    }
  }

  lemma Gap(a: nat, b: nat, m: nat)
    requires a < b
    ensures b * m >= a * m + m
  {
    Spread(a, b - a - 1, m);
    assert (b - a - 1) * m >= 0;
  }

  lemma Spread(a: nat, k: nat, m: nat)
    ensures (a + 1 + k) * m == a * m + m + k * m
  {
  }

  /** A word is read back modulo its width, with what follows it untouched. */
  lemma WordRoundTrip(v: nat, n: nat, rest: Bytes)
    ensures ReadWord(Little(v, n) + rest, n) == Got(v % Pow256(n), rest)
  {
    LittleRoundTrip(v, n);
    var s := Little(v, n) + rest;
    assert s[..n] == Little(v, n) && s[n..] == rest;
  }

  // ---- blobs ----

  const U32 := 4
  const U64 := 8

  function WriteBlob(data: Bytes): Bytes {
    Little(|data|, U32) + data
  }

  function ReadBlob(s: Bytes): Got<Bytes> {
    match ReadWord(s, U32)
    case Fail => Fail
    case Got(n, rest) => if |rest| < n then Fail else Got(rest[..n], rest[n..])
  }

  ghost predicate Short(n: nat) {
    n < Pow256(U32)
  }

  /** A blob comes back, with everything after it, exactly when its length fits the header. */
  lemma BlobRoundTripIff(data: Bytes, rest: Bytes)
    ensures ReadBlob(WriteBlob(data) + rest) == Got(data, rest) <==> Short(|data|)
  {
    var s := WriteBlob(data) + rest;
    assert s == Little(|data|, U32) + (data + rest);
    WordRoundTrip(|data|, U32, data + rest);
    if Short(|data|) {
      Unique(|data|, Pow256(U32), 0, |data|);
      assert (data + rest)[..|data|] == data && (data + rest)[|data|..] == rest;
    }
  }

  // ---- functions ----

  /** A C string ends at its first zero byte. */
  function CString(s: Bytes): Bytes {
    if s == [] || s[0] == 0 then [] else [s[0]] + CString(s[1..])
  }

  /** The bytes of a function, unless a constant in it cannot be stored. */
  function WriteFunction(f: Function): Option<Bytes>
    decreases f, 1
  {
    match WriteConstants(f, 0)
    case None => None
    case Some(cs) =>
      Some(Little(f.arity, U32) + Little(f.numRegs, U32) + Little(f.numUpvalues, U32) + Little(f.variadic, U32)
           + WriteBlob(f.code) + Little(|f.constants|, U32) + cs
           + (if f.numUpvalues > 0 then f.upLocal + f.upIndex else []))
  }

  function WriteConstants(f: Function, i: nat): Option<Bytes>
    requires i <= |f.constants|
    decreases f, 0, |f.constants| - i
  {
    if i == |f.constants| then Some([])
    else
      var c := WriteConst(f.constants[i]);
      var rest := WriteConstants(f, i + 1);
      if c.None? || rest.None? then None else Some(c.value + rest.value)
  }

  function WriteConst(c: Const): Option<Bytes>
    decreases c, 1
  {
    match c
    case Word(bits) => Some([TAG_WORD] + Little(bits, U64))
    case Text(data) => Some([TAG_TEXT] + WriteBlob(data))
    case Symbol(name, _) => Some([TAG_SYMBOL] + WriteBlob(CString(name)))
    case Code(fn) =>
      (match WriteFunction(fn)
       case None => None
       case Some(b) => Some([TAG_CODE] + b))
    case Unsupported(_) => None
  }

  // The five words in front of a function's code and constants.
  function ReadHeader(s: Bytes): Got<(nat, nat, nat, nat)> {
    match ReadWord(s, U32)
    case Fail => Fail
    case Got(a, s1) =>
      match ReadWord(s1, U32)
      case Fail => Fail
      case Got(b, s2) =>
        match ReadWord(s2, U32)
        case Fail => Fail
        case Got(c, s3) =>
          match ReadWord(s3, U32)
          case Fail => Fail
          case Got(d, s4) => Got((a, b, c, d), s4)
  }

  function ReadFunction(s: Bytes): (r: Got<Function>)
    ensures r.Got? ==> |r.rest| < |s|
    decreases |s|, 0, 2
  {
    match ReadHeader(s)
    case Fail => Fail
    case Got(h, s1) =>
      match ReadBlob(s1)
      case Fail => Fail
      case Got(code, s2) =>
        match ReadWord(s2, U32)
        case Fail => Fail
        case Got(count, s3) =>
          assert |s3| < |s|;
          match ReadConstants(s3, count)
          case Fail => Fail
          case Got(cs, s4) => ReadUpvalues(h, code, cs, s4)
  }

  // Counts are cut to a byte in the function, but not where its tables are read.
  function ReadUpvalues(h: (nat, nat, nat, nat), code: Bytes, cs: seq<Const>, s: Bytes): (r: Got<Function>)
    ensures r.Got? ==> |r.rest| <= |s|
  {
    var n := h.2;
    if |s| < n + n then Fail
    else Got(Function(h.0 % 256, h.1 % 256, n % 256, h.3 % 256, code, cs, s[..n], s[n..n + n]), s[n + n..])
  }

  function ReadConstants(s: Bytes, count: nat): (r: Got<seq<Const>>)
    ensures r.Got? ==> |r.rest| <= |s| && |r.value| == count
    decreases |s|, count, 1
  {
    if count == 0 then Got([], s)
    else
      match ReadConst(s)
      case Fail => Fail
      case Got(c, s1) =>
        match ReadConstants(s1, count - 1)
        case Fail => Fail
        case Got(cs, s2) => Got([c] + cs, s2)
  }

  function ReadConst(s: Bytes): (r: Got<Const>)
    ensures r.Got? ==> |r.rest| < |s|
    decreases |s|, 0, 0
  {
    if s == [] then Fail
    else if s[0] == TAG_WORD then
      (match ReadWord(s[1..], U64) case Fail => Fail case Got(w, r) => Got(Word(w), r))
    else if s[0] == TAG_TEXT then
      (match ReadBlob(s[1..]) case Fail => Fail case Got(d, r) => Got(Text(d), r))
    else if s[0] == TAG_SYMBOL then
      (match ReadBlob(s[1..]) case Fail => Fail case Got(d, r) => Got(Symbol(CString(d), true), r))
    else if s[0] == TAG_CODE then
      (match ReadFunction(s[1..]) case Fail => Fail case Got(f, r) => Got(Code(f), r))
    else Fail
  }

  // ---- what comes back ----

  /** Sizes and words as the running system has them. */
  ghost predicate Sized(f: Function)
    decreases f
  {
    && Short(|f.code|) && Short(|f.constants|)
    && |f.upLocal| == |f.upIndex| == f.numUpvalues
    && forall i :: 0 <= i < |f.constants| ==> SizedConst(f.constants[i])
  }

  ghost predicate SizedConst(c: Const)
    decreases c
  {
    match c
    case Word(bits) => bits < Pow256(U64)
    case Text(data) => Short(|data|)
    case Symbol(name, _) => Short(|CString(name)|)
    case Code(fn) => Sized(fn)
    case Unsupported(_) => true
  }

  predicate Storable(f: Function)
    decreases f
  {
    forall i :: 0 <= i < |f.constants| ==> StorableConst(f.constants[i])
  }

  predicate StorableConst(c: Const)
    decreases c
  {
    match c
    case Code(fn) => Storable(fn)
    case Unsupported(_) => false
    case _ => true
  }

  /** Symbols come back interned and cut at their first zero byte; nothing else changes. */
  function Restored(f: Function): Function
    decreases f, 1
  {
    f.(constants := RestoredFrom(f, 0))
  }

  function RestoredFrom(f: Function, i: nat): (cs: seq<Const>)
    requires i <= |f.constants|
    ensures |cs| == |f.constants| - i
    decreases f, 0, |f.constants| - i
  {
    if i == |f.constants| then [] else [RestoredConst(f.constants[i])] + RestoredFrom(f, i + 1)
  }

  function RestoredConst(c: Const): Const
    decreases c, 1
  {
    match c
    case Symbol(name, _) => Symbol(CString(name), true)
    case Code(fn) => Code(Restored(fn))
    case _ => c
  }

  /** Every symbol is interned and free of zero bytes. */
  predicate PlainNames(f: Function)
    decreases f
  {
    forall i :: 0 <= i < |f.constants| ==> PlainConst(f.constants[i])
  }

  predicate PlainConst(c: Const)
    decreases c
  {
    match c
    case Symbol(name, interned) => interned && 0 !in name
    case Code(fn) => PlainNames(fn)
    case _ => true
  }
}
