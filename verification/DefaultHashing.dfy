/** The hash and the equivalence a table has when the program gives none:
    which equal keys land on the same hash. */
module DefaultHashing {

  datatype Mode = Eq | Eqv | Equal

  // Keys as the table sees them: a word, and for a pointer the object it leads to.
  datatype Key =
    | False
    | True
    | Nil
    | Char(code: nat)
    | Immediate(bits: nat)
    | Fixnum(n: int)
    | Flonum(bits: nat)
    | Symbol(addr: nat, name: seq<nat>)
    | Str(addr: nat, text: seq<nat>)
    | Bytes(addr: nat, data: seq<nat>)
    | Bignum(addr: nat, value: int)
    | Rational(addr: nat, num: int, den: int)
    | Pair(addr: nat, car: Key, cdr: Key)
    | Vector(addr: nat, items: seq<Key>)
    | Opaque(addr: nat)
  {
    predicate OnHeap() { Bits().0 == 3 }

    // What identifies the word: its kind and bits, or its address.
    function Bits(): (int, int) {
      match this
      case False => (4, 1)
      case True => (4, 2)
      case Nil => (4, 0)
      case Char(c) => (5, c)
      case Immediate(b) => (0, b)
      case Fixnum(n) => (1, n)
      case Flonum(b) => (2, b)
      case Symbol(a, _) => (3, a)
      case Str(a, _) => (3, a)
      case Bytes(a, _) => (3, a)
      case Bignum(a, _) => (3, a)
      case Rational(a, _, _) => (3, a)
      case Pair(a, _, _) => (3, a)
      case Vector(a, _) => (3, a)
      case Opaque(a) => (3, a)
    }
  }

  predicate IsEqv(a: Key, b: Key) {
    || a.Bits() == b.Bits()
    || (a.Bignum? && b.Bignum? && a.value == b.value)
    || (a.Bignum? && b.Fixnum? && a.value == b.n)
    || (a.Fixnum? && b.Bignum? && a.n == b.value)
    || (a.Rational? && b.Rational? && a.num == b.num && a.den == b.den)
  }

  predicate IsEqual(a: Key, b: Key)
    decreases a
  {
    || IsEqv(a, b)
    || (a.Pair? && b.Pair? && IsEqual(a.car, b.car) && IsEqual(a.cdr, b.cdr))
    || (a.Str? && b.Str? && a.text == b.text)
    || (a.Bytes? && b.Bytes? && a.data == b.data)
    || (a.Vector? && b.Vector? && |a.items| == |b.items|
        && forall i :: 0 <= i < |a.items| ==> IsEqual(a.items[i], b.items[i]))
  }

  predicate KeyEqual(mode: Mode, a: Key, b: Key) {
    match mode
    case Eq => a.Bits() == b.Bits()
    case Eqv => IsEqv(a, b)
    case Equal => IsEqual(a, b)
  }

  // The mixers, left open: one on words, one on bytes.
  datatype Mixers = Mixers(word: int -> nat, text: seq<nat> -> nat)

  function IdentityHash(m: Mixers, k: Key): nat {
    m.word(k.Bits().1)
  }

  /** Numbers that fit a word, symbols and strings hash by content; everything
      else by the address of the object. */
  function Hash(m: Mixers, mode: Mode, k: Key): nat {
    if mode == Eq then IdentityHash(m, k)
    else match k
      case Fixnum(n) => m.word(n)
      case Char(c) => m.word(c)
      case True => 1
      case False => 0
      case Nil => 2
      case Symbol(_, name) => m.text(name)
      case Str(_, text) => m.text(text)
      case _ => IdentityHash(m, k)
  }

  /** The word mixer is a bijection in the source: two shifts and two odd factors. */
  ghost predicate Injective(m: Mixers) {
    forall x, y :: m.word(x) == m.word(y) ==> x == y
  }

  // Both keys live in one heap, where bignums are those that are no fixnum.
  ghost predicate SameHeap(a: Key, b: Key) {
    && (a.Bits() == b.Bits() ==> a == b)
    && !(a.Bignum? && b.Fixnum? && a.value == b.n)
    && !(a.Fixnum? && b.Bignum? && a.n == b.value)
  }

  /** Equal keys hash alike exactly when they are one object or hash by content:
      so a table finds equal bignums and rationals under eqv?, and besides these
      equal pairs, vectors and bytevectors under equal?, only as the same object. */
  lemma DefaultHashRespectsIff(m: Mixers, mode: Mode, a: Key, b: Key)
    requires Injective(m) && SameHeap(a, b) && KeyEqual(mode, a, b)
    ensures Hash(m, mode, a) == Hash(m, mode, b) <==> a == b || a.Str?
  {
    if a != b {
      assert mode != Eq;
      assert a.OnHeap() && b.OnHeap();
      if !a.Str? {
        assert a.Bits().1 != b.Bits().1;
      }
    }
  }

  /** 2^64 computed twice is eqv? to itself, and an eqv table looks it up elsewhere. */
  lemma BignumKeyHashesByAddress(m: Mixers)
    requires Injective(m)
    ensures KeyEqual(Eqv, Bignum(16, 0x1_0000_0000_0000_0000), Bignum(32, 0x1_0000_0000_0000_0000))
    ensures Hash(m, Eqv, Bignum(16, 0x1_0000_0000_0000_0000)) != Hash(m, Eqv, Bignum(32, 0x1_0000_0000_0000_0000))
  {
  }
}
