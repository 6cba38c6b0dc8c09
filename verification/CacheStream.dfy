/** Writing and reading the cache one field at a time. */
module CacheStream {
  import opened CacheFormat
  import opened CacheRoundTrip

  class Writer {
    var out: Bytes

    constructor ()
      ensures out == []
    {
      out := [];
    }

    method WriteU32(v: nat)
      modifies this
      ensures out == old(out) + Little(v, U32)
    {
      FourBytes(v);
      out := out + [v % 256, v / 256 % 256, v / 65536 % 256, v / 16777216 % 256];
    }

    method WriteU64(v: nat)
      modifies this
      ensures out == old(out) + Little(v, U64)
    {
      hide Little;
      var left := v;
      var i := 0;
      NoLittle(out);
      while i < U64
        invariant 0 <= i <= U64 && out + Little(left, U64 - i) == old(out) + Little(v, U64)
      {
        LittleStep(left, U64 - i);
        ghost var was, more := out, Little(left / 256, U64 - i - 1);
        out := out + [left % 256];
        assert was + ([left % 256] + more) == out + more;
        left := left / 256;
        i := i + 1;
      }
    }

    method WriteBytes(data: Bytes)
      modifies this
      ensures out == old(out) + WriteBlob(data)
    {
      WriteU32(|data|);
      out := out + data;
    }

    /** Stops at the first constant that is of a kind that is refused. */
    method WriteFn(f: Function) returns (ok: bool)
      modifies this
      ensures ok <==> WriteFunction(f).Some?
      ensures ok ==> out == old(out) + WriteFunction(f).value
      decreases f, 2
    {
      hide Little, WriteBlob, WriteConst;
      ghost var before := out;
      WriteU32(f.arity);
      WriteU32(f.numRegs);
      WriteU32(f.numUpvalues);
      WriteU32(f.variadic);
      WriteBytes(f.code);
      WriteU32(|f.constants|);
      ghost var head := Little(f.arity, U32) + Little(f.numRegs, U32) + Little(f.numUpvalues, U32) + Little(f.variadic, U32)
                        + WriteBlob(f.code) + Little(|f.constants|, U32);
      assert out == before + head;
      ok := WriteAll(f);
      if !ok {
        return;
      }
      if f.numUpvalues > 0 {
        out := out + f.upLocal;
        out := out + f.upIndex;
      }
      assert out == before + WriteFunction(f).value;
    }

    method WriteAll(f: Function) returns (ok: bool)
      modifies this
      ensures ok <==> WriteConstants(f, 0).Some?
      ensures ok ==> out == old(out) + WriteConstants(f, 0).value
      decreases f, 1
    {
      hide WriteConst, WriteConstants;
      var i := 0;
      while i < |f.constants|
        invariant i <= |f.constants|
        invariant Remains(old(out), out, f, i)
      {
        ghost var before := out;
        WriteStep(f, i);
        ok := WriteOne(f.constants[i]);
        if !ok {
          return;
        }
        RemainsStep(old(out), before, out, f, i);
        i := i + 1;
      }
      WriteStep(f, i);
      assert out + [] == out;
      return true;
    }

    method WriteOne(c: Const) returns (ok: bool)
      modifies this
      ensures ok <==> WriteConst(c).Some?
      ensures ok ==> out == old(out) + WriteConst(c).value
      decreases c, 3
    {
      hide WriteFunction, Little, WriteBlob;
      match c
      case Word(bits) =>
        out := out + [TAG_WORD];
        WriteU64(bits);
        return true;
      case Text(data) =>
        out := out + [TAG_TEXT];
        WriteBytes(data);
        return true;
      case Symbol(name, _) =>
        out := out + [TAG_SYMBOL];
        WriteBytes(CString(name));
        return true;
      case Code(fn) =>
        out := out + [TAG_CODE];
        ok := WriteFn(fn);
      case Unsupported(_) =>
        return false;
    }
  }

  class Reader {
    const data: Bytes
    var pos: nat

    ghost predicate Valid()
      reads this
    {
      pos <= |data|
    }

    function Rest(): Bytes
      requires Valid()
      reads this
    {
      data[pos..]
    }

    constructor (data: Bytes)
      ensures Valid() && Rest() == data
    {
      this.data := data;
      pos := 0;
    }

    method ReadU32() returns (r: Option<nat>)
      requires Valid()
      modifies this
      ensures Valid() && Follows(old(Rest()), Rest(), r, ReadWord(old(Rest()), U32))
    {
      if |data| - pos < U32 {
        return None;
      }
      ghost var s := Rest();
      var b0: int, b1: int, b2: int, b3: int := data[pos], data[pos + 1], data[pos + 2], data[pos + 3];
      FourRead(s[..U32]);
      pos := pos + U32;
      assert Rest() == s[U32..];
      return Some(b0 + 256 * b1 + 65536 * b2 + 16777216 * b3);
    }

    method ReadU64() returns (r: Option<nat>)
      requires Valid()
      modifies this
      ensures Valid() && Follows(old(Rest()), Rest(), r, ReadWord(old(Rest()), U64))
    {
      var x, scale: nat := 0, 1;
      ghost var s, start := Rest(), pos;
      var i := 0;
      while i < U64
        invariant 0 <= i <= U64 && start <= pos && pos == start + i <= |data|
        invariant x == FromLittle(s[..i]) && scale == Pow256(i)
      {
        if pos == |data| {
          return None;
        }
        assert s[..i + 1] == s[..i] + [data[pos]];
        LittleSnoc(s[..i], data[pos]);
        x := x + data[pos] * scale;
        scale := 256 * scale;
        pos := pos + 1;
        i := i + 1;
      }
      assert Rest() == s[U64..];
      return Some(x);
    }

    method ReadBytes() returns (r: Option<Bytes>)
      requires Valid()
      modifies this
      ensures Valid() && Follows(old(Rest()), Rest(), r, ReadBlob(old(Rest())))
    {
      var n := ReadU32();
      if n.None? || |data| - pos < n.value {
        return None;
      }
      ghost var s := Rest();
      r := Some(data[pos..pos + n.value]);
      pos := pos + n.value;
      assert r.value == s[..n.value] && Rest() == s[n.value..];
    }

    method ReadSizes() returns (r: Option<(nat, nat, nat, nat)>)
      requires Valid()
      modifies this
      ensures Valid() && Follows(old(Rest()), Rest(), r, ReadHeader(old(Rest())))
    {
      hide ReadWord;
      var arity := ReadU32();
      if arity.None? { return None; }
      var regs := ReadU32();
      if regs.None? { return None; }
      var ups := ReadU32();
      if ups.None? { return None; }
      var variadic := ReadU32();
      if variadic.None? { return None; }
      return Some((arity.value, regs.value, ups.value, variadic.value));
    }

    method ReadFn() returns (r: Option<Function>)
      requires Valid()
      modifies this
      ensures Valid() && Follows(old(Rest()), Rest(), r, ReadFunction(old(Rest())))
      decreases |data| - pos, 2
    {
      hide ReadHeader, ReadWord, ReadBlob, ReadConstants, ReadUpvalues;
      var h := ReadSizes();
      if h.None? { return None; }
      var code := ReadBytes();
      if code.None? { return None; }
      ghost var s := Rest();
      var count := ReadU32();
      if count.None? { return None; }
      WordIsLong(s, U32);
      var constants := ReadAll(count.value);
      if constants.None? { return None; }
      r := ReadTables(h.value, code.value, constants.value);
    }

    // The tables are read at their stored length; the fields keep the low byte of each size.
    method ReadTables(h: (nat, nat, nat, nat), code: Bytes, constants: seq<Const>) returns (r: Option<Function>)
      requires Valid()
      modifies this
      ensures Valid() && Follows(old(Rest()), Rest(), r, ReadUpvalues(h, code, constants, old(Rest())))
    {
      var n := h.2;
      if |data| - pos < n + n { return None; }
      ghost var s := Rest();
      r := Some(Function(h.0 % 256, h.1 % 256, n % 256, h.3 % 256, code, constants,
                         data[pos..pos + n], data[pos + n..pos + n + n]));
      pos := pos + n + n;
      assert r.value.upLocal == s[..n] && r.value.upIndex == s[n..n + n] && Rest() == s[n + n..];
    }

    method ReadAll(count: nat) returns (r: Option<seq<Const>>)
      requires Valid()
      modifies this
      ensures Valid() && Follows(old(Rest()), Rest(), r, ReadConstants(old(Rest()), count))
      decreases |data| - pos, 1
    {
      hide ReadConst, ReadConstants;
      var cs: seq<Const> := [];
      var i := 0;
      ContinuesEnds(Rest(), count);
      while i < count
        invariant i <= count && Valid() && pos >= old(pos)
        invariant Continues(cs, ReadConstants(Rest(), count - i), ReadConstants(old(Rest()), count))
      {
        ghost var s := Rest();
        var c := ReadOne();
        ContinuesFails(s, count - i);
        if c.None? { return None; }
        ContinuesStep(cs, s, count - i, c.value, Rest(), ReadConstants(old(Rest()), count));
        cs := cs + [c.value];
        i := i + 1;
      }
      ContinuesEnds(Rest(), 0);
      assert cs + [] == cs;
      return Some(cs);
    }

    method ReadOne() returns (r: Option<Const>)
      requires Valid()
      modifies this
      ensures Valid() && Follows(old(Rest()), Rest(), r, ReadConst(old(Rest())))
      decreases |data| - pos, 0
    {
      hide ReadWord, ReadBlob, ReadFunction;
      if pos == |data| { return None; }
      var tag := data[pos];
      ghost var s := Rest();
      pos := pos + 1;
      assert Rest() == s[1..];
      if tag == TAG_WORD {
        var w := ReadU64();
        return if w.None? then None else Some(Word(w.value));
      } else if tag == TAG_TEXT {
        var d := ReadBytes();
        return if d.None? then None else Some(Text(d.value));
      } else if tag == TAG_SYMBOL {
        var d := ReadBytes();
        return if d.None? then None else Some(Symbol(CString(d.value), true));
      } else if tag == TAG_CODE {
        var f := ReadFn();
        return if f.None? then None else Some(Code(f.value));
      }
      return None;
    }
  }

  /** A reading method found what the format says, and stopped where it says. */
  ghost predicate Follows<T>(before: Bytes, after: Bytes, r: Option<T>, g: Got<T>) {
    && |after| <= |before|
    && (r.Some? <==> g.Got?)
    && (r.Some? ==> r.value == g.value && after == g.rest)
  }

  ghost predicate Continues(cs: seq<Const>, now: Got<seq<Const>>, all: Got<seq<Const>>) {
    && (now.Got? <==> all.Got?)
    && (now.Got? ==> all.value == cs + now.value && all.rest == now.rest)
  }

  lemma ContinuesEnds(s: Bytes, count: nat)
    ensures Continues([], ReadConstants(s, count), ReadConstants(s, count))
    ensures ReadConstants(s, 0) == Got([], s)
  {
    var all := ReadConstants(s, count);
    if all.Got? {
      assert [] + all.value == all.value;
    }
  }

  lemma ContinuesFails(s: Bytes, count: nat)
    requires count > 0
    ensures ReadConst(s).Fail? ==> ReadConstants(s, count).Fail?
  {
  }

  lemma ContinuesStep(cs: seq<Const>, s: Bytes, count: nat, c: Const, s1: Bytes, all: Got<seq<Const>>)
    requires count > 0 && Continues(cs, ReadConstants(s, count), all) && ReadConst(s) == Got(c, s1)
    ensures Continues(cs + [c], ReadConstants(s1, count - 1), all)
  {
    hide ReadConst;
    var now := ReadConstants(s1, count - 1);
    if now.Got? {
      assert cs + ([c] + now.value) == cs + [c] + now.value;
    }
  }

  // What is left to write after i constants.
  ghost predicate Remains(start: Bytes, out: Bytes, f: Function, i: nat)
    requires i <= |f.constants|
  {
    && (WriteConstants(f, 0).Some? <==> WriteConstants(f, i).Some?)
    && (WriteConstants(f, i).Some? ==> out + WriteConstants(f, i).value == start + WriteConstants(f, 0).value)
  }

  lemma WriteStep(f: Function, i: nat)
    requires i <= |f.constants|
    ensures i == |f.constants| ==> WriteConstants(f, i) == Some([])
    ensures i < |f.constants| ==>
              && (WriteConstants(f, i).Some? <==> WriteConst(f.constants[i]).Some? && WriteConstants(f, i + 1).Some?)
              && (WriteConstants(f, i).Some? ==>
                    WriteConstants(f, i).value == WriteConst(f.constants[i]).value + WriteConstants(f, i + 1).value)
  {
  }

  lemma RemainsStep(start: Bytes, before: Bytes, out: Bytes, f: Function, i: nat)
    requires i < |f.constants| && Remains(start, before, f, i)
    requires WriteConst(f.constants[i]).Some? && out == before + WriteConst(f.constants[i]).value
    ensures Remains(start, out, f, i + 1)
  {
    hide WriteConst;
    if WriteConstants(f, i + 1).Some? {
      Assoc(before, WriteConst(f.constants[i]).value, WriteConstants(f, i + 1).value);
    }
  }

  lemma FourBytes(v: nat)
    ensures Little(v, U32) == [v % 256, v / 256 % 256, v / 65536 % 256, v / 16777216 % 256]
  {
    assert Little(v, 4) == [v % 256] + Little(v / 256, 3);
    assert Little(v / 256, 3) == [v / 256 % 256] + Little(v / 256 / 256, 2);
    assert Little(v / 256 / 256, 2) == [v / 256 / 256 % 256] + Little(v / 256 / 256 / 256, 1);
    assert Little(v / 256 / 256 / 256, 1) == [v / 256 / 256 / 256 % 256] + Little(v / 256 / 256 / 256 / 256, 0);
  }

  lemma FourRead(s: Bytes)
    requires |s| == U32
    ensures FromLittle(s) == s[0] as int + 256 * (s[1] as int) + 65536 * (s[2] as int) + 16777216 * (s[3] as int)
  {
    assert s[1..][1..] == s[2..] && s[2..][1..] == s[3..] && s[3..][1..] == [];
    assert FromLittle(s[3..]) == s[3];
    assert FromLittle(s[2..]) == s[2] as int + 256 * (s[3] as int);
    assert FromLittle(s[1..]) == s[1] as int + 256 * FromLittle(s[2..]);
  }

  lemma {:induction false} LittleSnoc(s: Bytes, b: Byte)
    ensures FromLittle(s + [b]) == FromLittle(s) + b * Pow256(|s|)
  {
    var t := s + [b];
    if s == [] {
      assert t[1..] == [];
    } else {
      LittleSnoc(s[1..], b);
      assert t[1..] == s[1..] + [b];
      assert 256 * (b * Pow256(|s| - 1)) == b * (256 * Pow256(|s| - 1));
    }
  }

  lemma WordIsLong(s: Bytes, n: nat)
    ensures ReadWord(s, n).Got? ==> |ReadWord(s, n).rest| == |s| - n
  {
  }

  lemma LittleStep(v: nat, n: nat)
    requires n > 0
    ensures Little(v, n) == [v % 256] + Little(v / 256, n - 1)
  {
  }

  lemma NoLittle(out: Bytes)
    ensures forall v: nat :: out + Little(v, 0) == out
  {
  }
}
