/** Reading a cached function back gives the function that was written, whatever
    follows it in the file; and loading a whole file. */
module CacheRoundTrip {
  import opened CacheFormat

  lemma SmallWord(v: nat, n: nat, rest: Bytes)
    requires v < Pow256(n)
    ensures ReadWord(Little(v, n) + rest, n) == Got(v, rest)
  {
    WordRoundTrip(v, n, rest);
    Unique(v, Pow256(n), 0, v);
  }

  lemma ByteFits(b: Byte)
    ensures b < Pow256(U32) && b % 256 == b
  {
    assert Pow256(1) == 256 * Pow256(0);
    assert Pow256(2) == 65536;
  }

  lemma Assoc(a: Bytes, b: Bytes, c: Bytes)
    ensures (a + b) + c == a + (b + c)
  {
  }

  lemma HeaderRoundTrip(a: Byte, b: Byte, c: Byte, d: Byte, rest: Bytes)
    ensures ReadHeader(Little(a, U32) + (Little(b, U32) + (Little(c, U32) + (Little(d, U32) + rest))))
         == Got((a, b, c, d), rest)
  {
    hide ReadWord, Little, Pow256;
    ByteFits(a);
    ByteFits(b);
    ByteFits(c);
    ByteFits(d);
    SmallWord(a, U32, Little(b, U32) + (Little(c, U32) + (Little(d, U32) + rest)));
    SmallWord(b, U32, Little(c, U32) + (Little(d, U32) + rest));
    SmallWord(c, U32, Little(d, U32) + rest);
    SmallWord(d, U32, rest);
  }

  // The parts of a written function, grouped as the reader takes them.
  function Parts(f: Function, cs: Bytes, rest: Bytes): Bytes {
    Little(f.arity, U32) + (Little(f.numRegs, U32) + (Little(f.numUpvalues, U32) + (Little(f.variadic, U32)
      + (WriteBlob(f.code) + (Little(|f.constants|, U32) + (cs + (f.upLocal + f.upIndex + rest)))))))
  }

  lemma PartsAre(f: Function, rest: Bytes)
    requires Sized(f) && WriteFunction(f).Some?
    ensures WriteConstants(f, 0).Some?
    ensures WriteFunction(f).value + rest == Parts(f, WriteConstants(f, 0).value, rest)
  {
    hide Little, WriteConstants, WriteBlob;
    var cs := WriteConstants(f, 0).value;
    var ups := if f.numUpvalues > 0 then f.upLocal + f.upIndex else [];
    assert ups == f.upLocal + f.upIndex;
    Regroup(Little(f.arity, U32), Little(f.numRegs, U32), Little(f.numUpvalues, U32), Little(f.variadic, U32),
            WriteBlob(f.code), Little(|f.constants|, U32), cs, ups, rest);
  }

  lemma Regroup(a: Bytes, b: Bytes, c: Bytes, d: Bytes, e: Bytes, g: Bytes, h: Bytes, i: Bytes, rest: Bytes)
    ensures (a + b + c + d + e + g + h + i) + rest == a + (b + (c + (d + (e + (g + (h + (i + rest)))))))
  {
    Assoc(a + b + c + d + e + g + h, i, rest);
    Assoc(a + b + c + d + e + g, h, i + rest);
    Assoc(a + b + c + d + e, g, h + (i + rest));
    Assoc(a + b + c + d, e, g + (h + (i + rest)));
    Assoc(a + b + c, d, e + (g + (h + (i + rest))));
    Assoc(a + b, c, d + (e + (g + (h + (i + rest)))));
    Assoc(a, b, c + (d + (e + (g + (h + (i + rest))))));
  }

  /** Reading what was written, followed by anything, gives the restored function and stops where it ended. */
  lemma {:induction false} FunctionRoundTrip(f: Function, rest: Bytes)
    requires Sized(f) && WriteFunction(f).Some?
    ensures ReadFunction(WriteFunction(f).value + rest) == Got(Restored(f), rest)
    decreases f, 1
  {
    PartsAre(f, rest);
    var cs := WriteConstants(f, 0).value;
    ConstantsRoundTrip(f, 0, f.upLocal + f.upIndex + rest);
    ReadParts(f, cs, RestoredFrom(f, 0), rest);
  }

  lemma ReadParts(f: Function, cs: Bytes, constants: seq<Const>, rest: Bytes)
    requires Sized(f)
    requires ReadConstants(cs + (f.upLocal + f.upIndex + rest), |f.constants|) == Got(constants, f.upLocal + f.upIndex + rest)
    ensures ReadFunction(Parts(f, cs, rest)) == Got(f.(constants := constants), rest)
  {
    hide ReadHeader, ReadWord, Little, WriteBlob, ReadBlob, ReadConstants;
    var ups := f.upLocal + f.upIndex + rest;
    var s2 := Little(|f.constants|, U32) + (cs + ups);
    HeaderRoundTrip(f.arity, f.numRegs, f.numUpvalues, f.variadic, WriteBlob(f.code) + s2);
    BlobRoundTripIff(f.code, s2);
    SmallWord(|f.constants|, U32, cs + ups);
    var n: nat := f.numUpvalues;
    assert ups[..n] == f.upLocal && ups[n..n + n] == f.upIndex && ups[n + n..] == rest;
    ByteFits(f.arity);
    ByteFits(f.numRegs);
    ByteFits(f.numUpvalues);
    ByteFits(f.variadic);
  }

  lemma {:induction false} ConstantsRoundTrip(f: Function, i: nat, rest: Bytes)
    requires Sized(f) && i <= |f.constants| && WriteConstants(f, i).Some?
    ensures ReadConstants(WriteConstants(f, i).value + rest, |f.constants| - i) == Got(RestoredFrom(f, i), rest)
    decreases f, 0, |f.constants| - i
  {
    hide ReadConst, WriteConst, RestoredConst, SizedConst;
    if i == |f.constants| {
      assert WriteConstants(f, i).value + rest == rest;
    } else {
      var c := f.constants[i];
      var cs := WriteConstants(f, i + 1).value;
      assert SizedConst(c);
      ConstRoundTrip(c, cs + rest);
      ConstantsRoundTrip(f, i + 1, rest);
      Assoc(WriteConst(c).value, cs, rest);
    }
  }

  lemma {:induction false} ConstRoundTrip(c: Const, rest: Bytes)
    requires SizedConst(c) && WriteConst(c).Some?
    ensures ReadConst(WriteConst(c).value + rest) == Got(RestoredConst(c), rest)
    decreases c, 1
  {
    hide ReadFunction, WriteFunction, ReadBlob, WriteBlob, Restored, Sized, ReadWord, Little;
    var s := WriteConst(c).value + rest;
    match c
    case Word(bits) =>
      SmallWord(bits, U64, rest);
      assert s[1..] == Little(bits, U64) + rest;
    case Text(data) =>
      BlobRoundTripIff(data, rest);
      assert s[1..] == WriteBlob(data) + rest;
    case Symbol(name, _) =>
      BlobRoundTripIff(CString(name), rest);
      CStringTwice(name);
      assert s[1..] == WriteBlob(CString(name)) + rest;
    case Code(fn) =>
      FunctionRoundTrip(fn, rest);
      assert s[1..] == WriteFunction(fn).value + rest;
  }

  lemma {:induction false} CStringTwice(s: Bytes)
    ensures CString(CString(s)) == CString(s)
    ensures CString(s) == s <==> 0 !in s
  {
    if s != [] && s[0] != 0 {
      CStringTwice(s[1..]);
    }
  }

  /** A function can be written exactly when no constant in it, at any depth, is of a kind that is refused. */
  lemma {:induction false} StorableIff(f: Function)
    ensures WriteFunction(f).Some? <==> Storable(f)
    decreases f, 1
  {
    ConstantsStorableIff(f, 0);
  }

  lemma {:induction false} ConstantsStorableIff(f: Function, i: nat)
    requires i <= |f.constants|
    ensures WriteConstants(f, i).Some? <==> forall j :: i <= j < |f.constants| ==> StorableConst(f.constants[j])
    decreases f, 0, |f.constants| - i
  {
    hide StorableConst, WriteConst;
    if i < |f.constants| {
      ConstStorableIff(f.constants[i]);
      ConstantsStorableIff(f, i + 1);
    }
  }

  lemma {:induction false} ConstStorableIff(c: Const)
    ensures WriteConst(c).Some? <==> StorableConst(c)
    decreases c, 1
  {
    hide Storable, WriteFunction;
    if c.Code? {
      StorableIff(c.fn);
    }
  }

  /** The function that comes back is the one written exactly when all its symbols are interned and free of zeros. */
  lemma {:induction false} RestoredIff(f: Function)
    ensures Restored(f) == f <==> PlainNames(f)
    decreases f, 1
  {
    RestoredFromIff(f, 0);
    assert f.constants[0..] == f.constants;
  }

  lemma {:induction false} RestoredFromIff(f: Function, i: nat)
    requires i <= |f.constants|
    ensures RestoredFrom(f, i) == f.constants[i..] <==> forall j :: i <= j < |f.constants| ==> PlainConst(f.constants[j])
    decreases f, 0, |f.constants| - i
  {
    hide PlainConst, RestoredConst;
    if i < |f.constants| {
      RestoredConstIff(f.constants[i]);
      RestoredFromIff(f, i + 1);
      var r := RestoredFrom(f, i);
      assert f.constants[i..] == [f.constants[i]] + f.constants[i + 1..];
      assert r[0] == RestoredConst(f.constants[i]) && r[1..] == RestoredFrom(f, i + 1);
      assert f.constants[i..][1..] == f.constants[i + 1..];
    }
  }

  lemma {:induction false} RestoredConstIff(c: Const)
    ensures RestoredConst(c) == c <==> PlainConst(c)
    decreases c, 1
  {
    hide Restored, PlainNames;
    match c
    case Symbol(name, interned) => CStringTwice(name);
    case Code(fn) => RestoredIff(fn);
    case _ =>
  }

  /** The round trip, with both its conditions: what is written at all, and what comes back the same. */
  lemma RoundTripIff(f: Function, rest: Bytes)
    requires Sized(f)
    ensures WriteFunction(f).Some? <==> Storable(f)
    ensures Storable(f) ==> (ReadFunction(WriteFunction(f).value + rest) == Got(f, rest) <==> PlainNames(f))
  {
    hide ReadFunction, WriteFunction, Restored, PlainNames, Storable, Sized;
    StorableIff(f);
    RestoredIff(f);
    if Storable(f) {
      FunctionRoundTrip(f, rest);
    }
  }
}
