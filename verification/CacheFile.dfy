/** A whole cache file: what it was made from, its functions, and the names of
    the global slots their code refers to by number. */
module CacheFile {
  import opened CacheFormat
  import opened CacheRoundTrip

  const MAGIC: Bytes := [67, 72, 66, 67]
  const VERSION: nat := 3

  // The hashes of the source text and of the compiler's version.
  datatype Origin = Origin(source: nat, version: nat)

  type Names = seq<Bytes>

  function WriteFunctions(fns: seq<Function>): Option<Bytes> {
    if fns == [] then Some([])
    else
      var first := WriteFunction(fns[0]);
      var rest := WriteFunctions(fns[1..]);
      if first.None? || rest.None? then None else Some(first.value + rest.value)
  }

  function WriteNames(names: Names): Bytes {
    if names == [] then [] else WriteBlob(CString(names[0])) + WriteNames(names[1..])
  }

  function Store(o: Origin, path: Bytes, fns: seq<Function>, globals: Names): Option<Bytes> {
    match WriteFunctions(fns)
    case None => None
    case Some(b) =>
      Some(MAGIC + Little(VERSION, U32) + Little(o.source, U64) + Little(o.version, U64) + WriteBlob(path)
           + Little(|fns|, U32) + b + Little(|globals|, U32) + WriteNames(globals))
  }

  function ReadFunctions(s: Bytes, count: nat): Got<seq<Function>>
    decreases count
  {
    if count == 0 then Got([], s)
    else
      match ReadFunction(s)
      case Fail => Fail
      case Got(f, s1) =>
        match ReadFunctions(s1, count - 1)
        case Fail => Fail
        case Got(fs, s2) => Got([f] + fs, s2)
  }

  /** Slot i must carry the stored name: it is compared where the slot exists, and
      made where it does not, which works only when no earlier slot has that name. */
  function ReadNames(s: Bytes, count: nat, i: nat, have: Names): Got<Names>
    requires i <= count
    decreases count - i
  {
    if i == count then Got(have, s)
    else
      match ReadBlob(s)
      case Fail => Fail
      case Got(blob, s1) =>
        var name := CString(blob);
        if i < |have| then (if have[i] != name then Fail else ReadNames(s1, count, i + 1, have))
        else if name in have || |have| != i then Fail
        else ReadNames(s1, count, i + 1, have + [name])
  }

  function ReadOrigin(s: Bytes): Got<Origin> {
    if |s| < 4 || s[..4] != MAGIC then Fail
    else
      match ReadWord(s[4..], U32)
      case Fail => Fail
      case Got(v, s1) =>
        if v != VERSION then Fail
        else
          match ReadWord(s1, U64)
          case Fail => Fail
          case Got(src, s2) =>
            match ReadWord(s2, U64)
            case Fail => Fail
            case Got(ver, s3) => Got(Origin(src, ver), s3)
  }

  function ReadBody(s: Bytes, have: Names): Option<(seq<Function>, Names)> {
    match ReadBlob(s)
    case Fail => None
    case Got(_, s1) =>
      match ReadWord(s1, U32)
      case Fail => None
      case Got(count, s2) =>
        match ReadFunctions(s2, count)
        case Fail => None
        case Got(fns, s3) =>
          match ReadWord(s3, U32)
          case Fail => None
          case Got(n, s4) =>
            match ReadNames(s4, n, 0, have)
            case Fail => None
            case Got(names, _) => Some((fns, names))
  }

  /** The functions of a file and the global names afterwards, if the file fits this source and this system. */
  function Load(s: Bytes, o: Origin, have: Names): Option<(seq<Function>, Names)> {
    match ReadOrigin(s)
    case Fail => None
    case Got(stored, body) => if stored != o then None else ReadBody(body, have)
  }

  // ---- what loading a stored file does ----

  ghost predicate OriginFits(o: Origin) {
    o.source < Pow256(U64) && o.version < Pow256(U64)
  }

  ghost predicate NamesFit(names: Names) {
    && Short(|names|)
    && (forall i :: 0 <= i < |names| ==> Short(|names[i]|) && 0 !in names[i])
    && (forall i, j :: 0 <= i < j < |names| ==> names[i] != names[j])
  }

  /** The slots both systems have carry the same names. */
  predicate Agree(a: Names, b: Names) {
    a <= b || b <= a
  }

  function Longer(a: Names, b: Names): Names {
    if |a| >= |b| then a else b
  }

  function RestoredAll(fns: seq<Function>): seq<Function> {
    if fns == [] then [] else [Restored(fns[0])] + RestoredAll(fns[1..])
  }

  lemma {:induction false} FunctionsRoundTrip(fns: seq<Function>, rest: Bytes)
    requires WriteFunctions(fns).Some? && forall i :: 0 <= i < |fns| ==> Sized(fns[i])
    ensures ReadFunctions(WriteFunctions(fns).value + rest, |fns|) == Got(RestoredAll(fns), rest)
  {
    hide ReadFunction, WriteFunction, Restored, Sized;
    if fns == [] {
      assert WriteFunctions(fns).value + rest == rest;
    } else {
      var b := WriteFunctions(fns[1..]).value;
      FunctionRoundTrip(fns[0], b + rest);
      FunctionsRoundTrip(fns[1..], rest);
      Assoc(WriteFunction(fns[0]).value, b, rest);
    }
  }

  lemma {:induction false} NamesRoundTrip(names: Names, i: nat, have: Names, rest: Bytes)
    requires NamesFit(names) && i <= |names| && i <= |have| && names[..i] == have[..i]
    ensures ReadNames(WriteNames(names[i..]) + rest, |names|, i, have)
         == if Agree(names, have) then Got(Longer(names, have), rest) else Fail
    decreases |names| - i
  {
    hide ReadBlob, WriteBlob;
    if i == |names| {
      assert WriteNames(names[i..]) + rest == rest;
      assert names == have[..i];
      assert |have| == i ==> names == have;
    } else {
      var name := names[i];
      CStringTwice(name);
      var after := WriteNames(names[i + 1..]) + rest;
      BlobRoundTripIff(name, after);
      assert names[i..][1..] == names[i + 1..] && names[i..][0] == name;
      assert WriteNames(names[i..]) + rest == WriteBlob(name) + after;
      if i < |have| {
        if have[i] == name {
          assert names[..i + 1] == have[..i + 1] by { OneMore(names, have, i); }
          NamesRoundTrip(names, i + 1, have, rest);
        } else {
          NotAgreeing(names, have, i);
        }
      } else {
        NewName(names, have, i);
        NamesRoundTrip(names, i + 1, have + [name], rest);
      }
    }
  }

  lemma OneMore(a: Names, b: Names, i: nat)
    requires i < |a| && i < |b| && a[..i] == b[..i] && a[i] == b[i]
    ensures a[..i + 1] == b[..i + 1]
  {
  }

  lemma NotAgreeing(a: Names, b: Names, i: nat)
    requires i < |a| && i < |b| && a[i] != b[i]
    ensures !Agree(a, b)
  {
  }

  lemma NewName(names: Names, have: Names, i: nat)
    requires NamesFit(names) && i == |have| < |names| && names[..i] == have[..i]
    ensures names[i] !in have && Agree(names, have) && Longer(names, have) == names
    ensures Agree(names, have + [names[i]]) && Longer(names, have + [names[i]]) == names
    ensures names[..i + 1] == (have + [names[i]])[..i + 1]
  {
    assert have == names[..i];
    assert have + [names[i]] == names[..i + 1];
  }

  lemma OriginRoundTrip(o: Origin, rest: Bytes)
    requires OriginFits(o)
    ensures ReadOrigin(MAGIC + (Little(VERSION, U32) + (Little(o.source, U64) + (Little(o.version, U64) + rest)))) == Got(o, rest)
  {
    hide ReadWord, Little;
    ByteFits(3);
    var s1 := Little(VERSION, U32) + (Little(o.source, U64) + (Little(o.version, U64) + rest));
    var s := MAGIC + s1;
    assert s[..4] == MAGIC && s[4..] == s1;
    SmallWord(VERSION, U32, Little(o.source, U64) + (Little(o.version, U64) + rest));
    SmallWord(o.source, U64, Little(o.version, U64) + rest);
    SmallWord(o.version, U64, rest);
  }

  /** A stored file loads exactly when it comes from the same source and version and
      the global slots agree; then it gives every function back and names the slots
      the code refers to. */
  lemma LoadAfterStoreIff(o: Origin, path: Bytes, fns: seq<Function>, globals: Names, now: Origin, have: Names)
    requires OriginFits(o) && Short(|path|) && Short(|fns|) && NamesFit(globals)
    requires forall i :: 0 <= i < |fns| ==> Sized(fns[i]) && Storable(fns[i])
    ensures Store(o, path, fns, globals).Some?
    ensures Load(Store(o, path, fns, globals).value, now, have)
         == if o == now && Agree(globals, have) then Some((RestoredAll(fns), Longer(globals, have))) else None
  {
    hide ReadOrigin, ReadFunctions, ReadNames, ReadBlob, WriteBlob, ReadWord, Little, WriteFunctions, WriteNames;
    AllStorable(fns);
    var b := WriteFunctions(fns).value;
    var names := WriteNames(globals);
    var s3 := Little(|globals|, U32) + names;
    var body := WriteBlob(path) + (Little(|fns|, U32) + (b + s3));
    Regroup(MAGIC, Little(VERSION, U32), Little(o.source, U64), Little(o.version, U64), WriteBlob(path),
            Little(|fns|, U32), b, Little(|globals|, U32), names);
    OriginRoundTrip(o, body);
    BlobRoundTripIff(path, Little(|fns|, U32) + (b + s3));
    SmallWord(|fns|, U32, b + s3);
    FunctionsRoundTrip(fns, s3);
    SmallWord(|globals|, U32, names);
    NamesRoundTrip(globals, 0, have, []);
    assert globals[0..] == globals && names + [] == names;
  }

  lemma {:induction false} AllStorable(fns: seq<Function>)
    requires forall i :: 0 <= i < |fns| ==> Storable(fns[i])
    ensures WriteFunctions(fns).Some?
  {
    hide Storable, WriteFunction;
    if fns != [] {
      StorableIff(fns[0]);
      AllStorable(fns[1..]);
    }
  }
}
