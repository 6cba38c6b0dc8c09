/** The function compiler as it runs: a growing code buffer, registers and tables
    updated in place, jumps emitted empty and patched. */
module Compiler {
  import opened Bytecode
  import opened CompilerSpec
  import opened CompilerProofs
  import opened CompilerMeaning

  const OP_JUMP: Byte := 14
  const OP_JUMP_FALSE: Byte := 15
  const OP_JUMP_TRUE: Byte := 16

  // ---- patching -------------------------------------------------------------

  function WithOffset(i: Instr, offset: int): Instr {
    match i
    case Jump(_) => Jump(offset)
    case JumpFalse(t, _) => JumpFalse(t, offset)
    case JumpTrue(t, _) => JumpTrue(t, offset)
    case _ => i
  }

  predicate IsHole(i: Instr) {
    i == WithOffset(i, 0) && (i.Jump? || i.JumpFalse? || i.JumpTrue?)
  }

  lemma PatchOne(i: Instr, offset: int)
    requires IsHole(i) && Fits(i) && 0 <= offset <= MAX_OFFSET
    ensures var j := WithOffset(i, offset); var n := Size(i);
            && Fits(j) && Size(j) == n && |Encode(i)| == n
            && Encode(j) == Encode(i)[n - 2 := Low(offset)][n - 1 := High(offset)]
  {
  }

  /** Setting the last two bytes of one instruction changes that one only. */
  lemma PatchBytes(pre: seq<Byte>, x: seq<Byte>, post: seq<Byte>, at: nat, lo: Byte, hi: Byte)
    requires |x| >= 2 && at == |pre| + |x| - 2
    ensures (pre + x + post)[at := lo][at + 1 := hi] == pre + x[|x| - 2 := lo][|x| - 1 := hi] + post
  {
  }

  class FuncCompiler {
    const sc: Scope
    var code: array<Byte>
    var codeLen: nat
    var nextReg: nat
    var maxRegs: nat
    var constants: seq<Value>
    var upvalues: seq<Name>

    ghost predicate Valid()
      reads this
    {
      0 < code.Length && codeLen <= code.Length
    }

    ghost function Code(): seq<Byte>
      reads this, code
      requires Valid()
    {
      code[..codeLen]
    }

    ghost function Tabs(): Tables
      reads this
    {
      Tables(constants, upvalues, maxRegs)
    }

    constructor (sc: Scope)
      ensures Valid() && Code() == [] && fresh(code) && this.sc == sc
      ensures Tabs() == Tables([], [], |sc.locals|) && nextReg == |sc.locals|
    {
      this.sc := sc;
      code := new Byte[256](_ => 0);
      codeLen, nextReg, maxRegs := 0, |sc.locals|, |sc.locals|;
      constants, upvalues := [], [];
    }

    // ---- bytes --------------------------------------------------------------

    /** A full buffer is copied into one twice as long. */
    method EmitByte(b: Byte)
      requires Valid()
      modifies `code, `codeLen, code
      ensures Valid() && (code == old(code) || fresh(code))
      ensures Code() == old(Code()) + [b]
    {
      if codeLen >= code.Length {
        var bigger := new Byte[2 * code.Length](_ => 0);
        var i := 0;
        while i < codeLen
          modifies bigger
          invariant i <= codeLen && bigger[..i] == code[..i]
        {
          bigger[i] := code[i];
          i := i + 1;
        }
        code := bigger;
      }
      code[codeLen] := b;
      codeLen := codeLen + 1;
    }

    method EmitU16(v: nat)
      requires Valid() && v < 0x1_0000
      modifies `code, `codeLen, code
      ensures Valid() && (code == old(code) || fresh(code))
      ensures Code() == old(Code()) + [Low(v), High(v)]
    {
      EmitByte(Low(v));
      EmitByte(High(v));
      assert old(Code()) + [Low(v)] + [High(v)] == old(Code()) + [Low(v), High(v)];
    }

    method EmitTwo(a: Byte, b: Byte)
      requires Valid()
      modifies `code, `codeLen, code
      ensures Valid() && (code == old(code) || fresh(code))
      ensures Code() == old(Code()) + [a, b]
    {
      EmitByte(a);
      EmitByte(b);
      assert old(Code()) + [a] + [b] == old(Code()) + [a, b];
    }

    method EmitThree(a: Byte, b: Byte, c: Byte)
      requires Valid()
      modifies `code, `codeLen, code
      ensures Valid() && (code == old(code) || fresh(code))
      ensures Code() == old(Code()) + [a, b, c]
    {
      EmitTwo(a, b);
      EmitByte(c);
      assert old(Code()) + [a, b] + [c] == old(Code()) + [a, b, c];
    }

    /** A jump whose offset is still zero, and where that offset stands. */
    method EmitJump() returns (at: nat)
      requires Valid()
      modifies `code, `codeLen, code
      ensures Valid() && (code == old(code) || fresh(code))
      ensures Code() == old(Code()) + Encode(Jump(0)) && at == |old(Code())| + 1
    {
      EmitByte(OP_JUMP);
      at := codeLen;
      EmitU16(0);
      assert old(Code()) + [OP_JUMP] + [0, 0] == old(Code()) + [OP_JUMP, 0, 0];
    }

    method EmitJumpTest(op: Byte, test: Byte) returns (at: nat)
      requires Valid() && (op == OP_JUMP_FALSE || op == OP_JUMP_TRUE)
      modifies `code, `codeLen, code
      ensures Valid() && (code == old(code) || fresh(code))
      ensures Code() == old(Code()) + Encode(JumpIf(op == OP_JUMP_TRUE, test, 0)) && at == |old(Code())| + 2
    {
      EmitTwo(op, test);
      at := codeLen;
      EmitU16(0);
      assert old(Code()) + [op, test] + [0, 0] == old(Code()) + [op, test, 0, 0];
    }

    /** The jump goes to the end of the code so far; one too far gives up. */
    method PatchJump(at: nat) returns (ok: bool)
      requires Valid() && at + 2 <= codeLen
      modifies code
      ensures ok == (codeLen - (at + 2) <= MAX_OFFSET)
      ensures ok ==> Code() == old(Code())[at := Low(codeLen - (at + 2))][at + 1 := High(codeLen - (at + 2))]
      ensures !ok ==> Code() == old(Code())
    {
      var offset := codeLen - (at + 2);
      if offset > MAX_OFFSET { return false; }
      code[at] := Low(offset);
      code[at + 1] := High(offset);
      return true;
    }

    /** In terms of instructions: the hole gets the distance to the end. */
    method PatchHole(at: nat, ghost pre: seq<Byte>, ghost a: seq<Instr>, ghost i: Instr, ghost b: seq<Instr>)
      returns (ok: bool)
      requires Valid() && AllFit(a) && IsHole(i) && Fits(i) && AllFit(b)
      requires Code() == pre + (Bytes(a) + Encode(i) + Bytes(b)) && at == |pre| + Len(a) + Size(i) - 2
      modifies code
      ensures ok == (Len(b) <= MAX_OFFSET)
      ensures ok ==> Fits(WithOffset(i, Len(b)))
      ensures ok ==> Code() == pre + (Bytes(a) + Encode(WithOffset(i, Len(b))) + Bytes(b))
    {
      hide AllFit, Bytes, Len, Encode, Size, IsHole, Fits, WithOffset;
      LenIsSize(a);
      LenIsSize(b);
      HoleSize(i);
      ok := PatchJump(at);
      if ok {
        PatchOne(i, Len(b));
        PatchMiddle(old(Code()), pre, Bytes(a), Encode(i), Bytes(b), Encode(WithOffset(i, Len(b))),
                    at, Low(Len(b)), High(Len(b)));
      }
    }

    // ---- registers and tables -----------------------------------------------

    method AllocReg() returns (ok: bool, r: nat)
      modifies `nextReg, `maxRegs
      ensures ok == (old(nextReg) < REG_LIMIT) && r == old(nextReg)
      ensures nextReg == if ok then r + 1 else r
      ensures Tabs() == if ok then Grow(old(Tabs()), r + 1) else old(Tabs())
    {
      r := nextReg;
      if nextReg >= REG_LIMIT { return false, r; }
      nextReg := nextReg + 1;
      if r + 1 > maxRegs { maxRegs := r + 1; }
      ok := true;
    }

    method EnsureTemps()
      modifies `nextReg, `maxRegs
      ensures nextReg == Temps(sc, old(nextReg)) && Tabs() == Grow(old(Tabs()), nextReg)
    {
      if nextReg < |sc.locals| { nextReg := |sc.locals|; }
      if nextReg > maxRegs { maxRegs := nextReg; }
    }

    method AddConstant(v: Value) returns (idx: int)
      modifies `constants
      ensures (idx, Tabs()) == AddConst(old(Tabs()), v)
    {
      var i := 0;
      while i < |constants|
        invariant i <= |constants| && constants == old(constants)
        invariant IndexOf(constants[..i], v) == -1
      {
        IndexOneMore(constants, v, i);
        if constants[i] == v { return i; }
        i := i + 1;
      }
      assert constants[..i] == constants;
      if |constants| >= MAX_CONSTS { return -1; }
      constants := constants + [v];
      return |constants| - 1;
    }

    method ResolveLocalName(x: Name) returns (i: int)
      ensures i == ResolveLocal(sc.locals, x)
    {
      i := |sc.locals| - 1;
      assert sc.locals[..|sc.locals|] == sc.locals;
      while i >= 0
        invariant -1 <= i < |sc.locals|
        invariant ResolveLocal(sc.locals[..i + 1], x) == ResolveLocal(sc.locals, x)
      {
        assert sc.locals[..i + 1][..i] == sc.locals[..i];
        if sc.locals[i] == x { return; }
        i := i - 1;
      }
    }

    method ResolveUpvalueName(x: Name) returns (idx: int)
      modifies `upvalues
      ensures (idx, Tabs()) == ResolveUp(sc, old(Tabs()), x)
    {
      if x !in sc.outer { return -1; }
      var i := 0;
      while i < |upvalues|
        invariant i <= |upvalues| && upvalues == old(upvalues)
        invariant IndexOf(upvalues[..i], x) == -1
      {
        IndexOneMore(upvalues, x, i);
        if upvalues[i] == x { return i; }
        i := i + 1;
      }
      assert upvalues[..i] == upvalues;
      if |upvalues| >= MAX_UPVALUES { return -1; }
      upvalues := upvalues + [x];
      return |upvalues| - 1;
    }

    // ---- pieces ---------------------------------------------------------------

    /** Code was added exactly as generated, and the tables are the generated
        ones; or generation gives up, and so does the compiler. */
    twostate predicate Adds(ok: bool, new r: Option<Piece>)
      reads this, code
      requires old(Valid()) && Valid()
    {
      && ok == r.Some?
      && (ok ==> AllFit(r.value.code) && Code() == old(Code()) + Bytes(r.value.code) && Tabs() == r.value.tables
                 && nextReg == old(nextReg))
    }

    method LoadInto(dst: nat, v: Value) returns (ok: bool)
      requires Valid() && TablesOk(sc, Tabs()) && dst < REG_LIMIT
      modifies this, code
      ensures Valid() && (code == old(code) || fresh(code)) && Adds(ok, Load(dst, v, old(Tabs())))
    {
      LoadGood(sc, Tabs(), dst, v);
      match v
      case Void => EmitTwo(4, dst); OneBytes(LoadVoid(dst)); return true;
      case True => EmitTwo(2, dst); OneBytes(LoadTrue(dst)); return true;
      case False => EmitTwo(3, dst); OneBytes(LoadFalse(dst)); return true;
      case Null => EmitTwo(1, dst); OneBytes(LoadNil(dst)); return true;
      case Other(_) =>
        var idx := AddConstant(v);
        if idx < 0 { return false; }
        EmitTwo(0, dst);
        EmitU16(idx);
        OneBytes(LoadConst(dst, idx));
        assert old(Code()) + [0, dst] + [Low(idx), High(idx)] == old(Code()) + Encode(LoadConst(dst, idx));
        return true;
    }

    method CompileVariable(x: Name, dst: nat) returns (ok: bool)
      requires Valid() && TablesOk(sc, Tabs()) && dst < REG_LIMIT && |sc.locals| <= REG_LIMIT
      modifies this, code
      ensures Valid() && (code == old(code) || fresh(code)) && Adds(ok, GenVar(x, sc, old(Tabs()), dst))
    {
      VarGood(sc, Tabs(), dst, x);
      var i := ResolveLocalName(x);
      if i >= 0 {
        EmitThree(5, dst, i);
        OneBytes(Move(dst, i));
        return true;
      }
      var j := ResolveUpvalueName(x);
      if j < 0 { return false; }
      EmitThree(9, dst, j);
      OneBytes(GetUpvalue(dst, j));
      return true;
    }

    method StoreVariable(x: Name, dst: nat, src: nat) returns (ok: bool)
      requires Valid() && TablesOk(sc, Tabs()) && dst < REG_LIMIT && src < REG_LIMIT && |sc.locals| <= REG_LIMIT
      modifies this, code
      ensures Valid() && (code == old(code) || fresh(code)) && Adds(ok, GenStore(x, sc, old(Tabs()), dst, src))
    {
      StoreGood(sc, Tabs(), dst, src, x);
      var i := ResolveLocalName(x);
      ghost var first;
      if i >= 0 {
        first := Move(i, src);
        EmitThree(5, i, src);
      } else {
        var j := ResolveUpvalueName(x);
        if j < 0 { return false; }
        first := SetUpvalue(j, src);
        EmitThree(10, j, src);
      }
      EmitThree(5, dst, src);
      TwoBytes(old(Code()), first, Move(dst, src));
      return true;
    }

    // ---- expressions ----------------------------------------------------------

    method CompileExpr(e: Expr, dst: nat) returns (ok: bool)
      requires Valid() && TablesOk(sc, Tabs()) && Placed(sc, dst, nextReg)
      modifies this, code
      ensures Valid() && (code == old(code) || fresh(code)) && Adds(ok, Gen(e, sc, old(Tabs()), dst, old(nextReg)))
      decreases e, 1
    {
      hide TablesOk, Load, GenVar, Good, GenSet, GenIf, GenBegin, GenUntil, GenApply;
      match e
      case Const(v) => ok := LoadInto(dst, v);
      case Var(x) => ok := CompileVariable(x, dst);
      case SetVar(_, _) => ok := CompileSet(e, dst);
      case If(_, _, _) => ok := CompileIf(e, dst);
      case Begin(es) => if es.Nil? { ok := LoadInto(dst, Void); } else { ok := CompileBegin(es, dst); }
      case And(es) => if es.Nil? { ok := LoadInto(dst, True); } else { ok := CompileUntil(es, false, dst); }
      case Or(es) => if es.Nil? { ok := LoadInto(dst, False); } else { ok := CompileUntil(es, true, dst); }
      case Apply(_, _) => ok := CompileCall(e, dst);
    }

    method CompileSet(e: Expr, dst: nat) returns (ok: bool)
      requires e.SetVar? && Valid() && TablesOk(sc, Tabs()) && Placed(sc, dst, nextReg)
      modifies this, code
      ensures Valid() && (code == old(code) || fresh(code)) && Adds(ok, GenSet(e, sc, old(Tabs()), dst, old(nextReg)))
      decreases e, 0
    {
      hide TablesOk, Good, Gen, GenStore, AllFit, Bytes, Extends;
      EnsureTemps();
      var saved := nextReg;
      var r;
      ok, r := AllocReg();
      if !ok { return; }
      GrowExtends(sc, old(Tabs()), r + 1);
      assert Tabs() == Grow(old(Tabs()), r + 1);
      GenGood(e.e, sc, Tabs(), r, nextReg);
      GoodOfOption(sc, Tabs(), Gen(e.e, sc, Tabs(), r, nextReg));
      ok := CompileExpr(e.e, r);
      if !ok { return; }
      label L:
      ghost var a := Gen(e.e, sc, Grow(old(Tabs()), r + 1), r, r + 1).value;
      StoreGood(sc, Tabs(), dst, r, e.x);
      GoodOfOption(sc, Tabs(), GenStore(e.x, sc, Tabs(), dst, r));
      ok := StoreVariable(e.x, dst, r);
      if !ok { return; }
      ghost var b := GenStore(e.x, sc, a.tables, dst, r).value;
      BytesAppend(a.code, b.code);
      nextReg := saved;
      assert old(Code()) + Bytes(a.code) + Bytes(b.code) == old(Code()) + (Bytes(a.code) + Bytes(b.code));
    }

    method CompileIf(e: Expr, dst: nat) returns (ok: bool)
      requires e.If? && Valid() && TablesOk(sc, Tabs()) && Placed(sc, dst, nextReg)
      modifies this, code
      ensures Valid() && (code == old(code) || fresh(code)) && Adds(ok, GenIf(e, sc, old(Tabs()), dst, old(nextReg)))
      decreases e, 0
    {
      hide TablesOk, Good, Gen, AllFit, Bytes, Extends, JoinIf, Len, Encode, Load;
      if e.rest.Cons? && e.rest.tail.Cons? { return false; }
      EnsureTemps();
      var saved := nextReg;
      var r;
      ok, r := AllocReg();
      if !ok { return; }
      GrowExtends(sc, old(Tabs()), r + 1);
      assert Tabs() == Grow(old(Tabs()), r + 1);
      GenGood(e.test, sc, Tabs(), r, nextReg);
      GoodOfOption(sc, Tabs(), Gen(e.test, sc, Tabs(), r, nextReg));
      ok := CompileExpr(e.test, r);
      if !ok { return; }
      ghost var a := Gen(e.test, sc, Grow(old(Tabs()), r + 1), r, r + 1).value;
      var jf := EmitJumpTest(OP_JUMP_FALSE, r);
      nextReg := saved;
      ok := CompileBranches(e, dst, jf, old(Code()), a);
    }

    /** The consequent, the jump over the alternate, and the alternate, with both
        jumps patched. */
    method CompileBranches(e: Expr, dst: nat, jf: nat, ghost pre: seq<Byte>, ghost a: Piece) returns (ok: bool)
      requires e.If? && Valid() && TablesOk(sc, Tabs()) && Placed(sc, dst, nextReg) && nextReg < REG_LIMIT
      requires AllFit(a.code) && Tabs() == a.tables
      requires Code() == pre + Bytes(a.code) + Encode(JumpFalse(nextReg, 0)) && jf == |pre + Bytes(a.code)| + 2
      modifies this, code
      ensures Valid() && (code == old(code) || fresh(code))
      ensures var r := match Gen(e.consequent, sc, a.tables, dst, old(nextReg))
                       case None => None
                       case Some(b) =>
                         match GenRest(e.rest, sc, b.tables, dst, old(nextReg))
                         case None => None
                         case Some(c) => JoinIf(old(nextReg), a, b, c);
              ok == r.Some? && (ok ==> AllFit(r.value.code) && Code() == pre + Bytes(r.value.code)
                                       && Tabs() == r.value.tables && nextReg == old(nextReg))
      decreases e, -1
    {
      hide TablesOk, Good, Gen, AllFit, Bytes, Extends, JoinIf, Len, Encode, Fits;
      ghost var r, t := nextReg, Tabs();
      GenGood(e.consequent, sc, t, dst, r);
      GoodOfOption(sc, t, Gen(e.consequent, sc, t, dst, r));
      ok := CompileExpr(e.consequent, dst);
      if !ok { return; }
      ghost var b := Gen(e.consequent, sc, t, dst, r).value;
      var end := EmitJump();
      JumpsFit(r);
      IfHoles(pre, a.code, JumpFalse(r, 0), b.code, Jump(0), Code());
      ok := PatchHole(jf, pre, a.code, JumpFalse(r, 0), b.code + [Jump(0)]);
      if !ok {
        JoinFails(r, a, b, GenRest(e.rest, sc, b.tables, dst, r));
        return;
      }
      ghost var front := a.code + [JumpFalse(r, Len(b.code) + 3)] + b.code;
      FrontIs(pre, a.code, r, b.code, Code());
      RestGood(e.rest, sc, b.tables, dst, r);
      GoodOfOption(sc, b.tables, GenRest(e.rest, sc, b.tables, dst, r));
      ok := CompileRest(e.rest, dst);
      if !ok { return; }
      ghost var c := GenRest(e.rest, sc, b.tables, dst, r).value;
      EndHole(pre, front, c.code, Code(), end);
      ok := PatchHole(end, pre, front, Jump(0), c.code);
      JoinedIs(r, a, b, c);
    }

    method CompileRest(rest: Exprs, dst: nat) returns (ok: bool)
      requires Valid() && TablesOk(sc, Tabs()) && Placed(sc, dst, nextReg)
      modifies this, code
      ensures Valid() && (code == old(code) || fresh(code)) && Adds(ok, GenRest(rest, sc, old(Tabs()), dst, old(nextReg)))
      decreases rest, 0
    {
      if rest.Cons? {
        ok := CompileExpr(rest.head, dst);
      } else {
        ok := LoadInto(dst, False);
      }
    }

    method CompileBegin(es: Exprs, dst: nat) returns (ok: bool)
      requires es.Cons? && Valid() && TablesOk(sc, Tabs()) && Placed(sc, dst, nextReg)
      modifies this, code
      ensures Valid() && (code == old(code) || fresh(code)) && Adds(ok, GenBegin(es, sc, old(Tabs()), dst, old(nextReg)))
      decreases es, 0
    {
      hide TablesOk, Good, Gen, AllFit, Bytes, Extends;
      ghost var goal := GenBegin(es, sc, Tabs(), dst, nextReg);
      ghost var done: seq<Instr> := [];
      NoBytes();
      BeforeNothing(goal);
      var args := es;
      while args.Cons?
        invariant Valid() && (code == old(code) || fresh(code)) && nextReg == old(nextReg)
        invariant AllFit(done) && Code() == old(Code()) + Bytes(done)
        invariant args.Cons? ==> TablesOk(sc, Tabs()) && (args == es || args < es)
                                 && goal == Before(done, GenBegin(args, sc, Tabs(), dst, nextReg))
        invariant args.Nil? ==> goal == Some(Piece(done, Tabs()))
        decreases args
      {
        ghost var a := Gen(args.head, sc, Tabs(), dst, nextReg);
        GenGood(args.head, sc, Tabs(), dst, nextReg);
        GoodOfOption(sc, Tabs(), a);
        ok := CompileExpr(args.head, dst);
        if !ok { return; }
        BytesAppend(done, a.value.code);
        assert old(Code()) + Bytes(done) + Bytes(a.value.code) == old(Code()) + (Bytes(done) + Bytes(a.value.code));
        BeforeBoth(done, a.value.code, if args.tail.Cons? then GenBegin(args.tail, sc, Tabs(), dst, nextReg) else None);
        done := done + a.value.code;
        args := args.tail;
      }
      ok := true;
    }

    /** Operands one by one, each but the last followed by a jump that is patched
        when the end is known. */
    method CompileUntil(es: Exprs, stop: bool, dst: nat) returns (ok: bool)
      requires es.Cons? && Valid() && TablesOk(sc, Tabs()) && Placed(sc, dst, nextReg)
      modifies this, code
      ensures Valid() && (code == old(code) || fresh(code))
      ensures Adds(ok, if Count(es) > MAX_JUMPS + 1 then None else GenUntil(es, stop, sc, old(Tabs()), dst, old(nextReg)))
      decreases es, 0
    {
      hide TablesOk, Good, Gen, AllFit, Bytes, Extends, Len, Encode, Fits;
      ghost var goal := GenUntil(es, stop, sc, Tabs(), dst, nextReg);
      ghost var blocks: seq<seq<Instr>> := [];
      NothingOpen(old(Code()), goal, stop, dst);
      var jumps: seq<nat> := [];
      var args := es;
      while args.tail.Cons?
        invariant args.Cons? && (args == es || args < es)
        invariant Valid() && (code == old(code) || fresh(code)) && nextReg == old(nextReg) && TablesOk(sc, Tabs())
        invariant |jumps| == |blocks| <= MAX_JUMPS && Count(es) == |jumps| + Count(args)
        invariant Pending(old(Code()), blocks, jumps, stop, dst, Code())
        invariant goal == Wrap(blocks, stop, dst, GenUntil(args, stop, sc, Tabs(), dst, nextReg))
        decreases args
      {
        ghost var t, before := Tabs(), Code();
        GenGood(args.head, sc, t, dst, nextReg);
        GoodOfOption(sc, t, Gen(args.head, sc, t, dst, nextReg));
        ok := CompileExpr(args.head, dst);
        if !ok { WrapNone(blocks, stop, dst); return; }
        if |jumps| >= MAX_JUMPS { return false; }
        var at := EmitJumpTest(if stop then OP_JUMP_TRUE else OP_JUMP_FALSE, dst);
        ghost var a := Gen(args.head, sc, t, dst, nextReg).value;
        JumpIfFits(stop, dst, 0);
        OneMorePending(old(Code()), blocks, jumps, stop, dst, before, a.code, at, Code());
        WrapOneMore(blocks, a.code, stop, dst, GenUntil(args.tail, stop, sc, a.tables, dst, nextReg));
        jumps := jumps + [at];
        blocks := blocks + [a.code];
        args := args.tail;
      }
      GenGood(args.head, sc, Tabs(), dst, nextReg);
      GoodOfOption(sc, Tabs(), Gen(args.head, sc, Tabs(), dst, nextReg));
      ghost var last := Gen(args.head, sc, Tabs(), dst, nextReg);
      ghost var before := Code();
      ok := CompileExpr(args.head, dst);
      if !ok { WrapNone(blocks, stop, dst); return; }
      AllOpen(old(Code()), blocks, jumps, stop, dst, before, last.value.code, Code());
      ok := PatchAll(jumps, old(Code()), blocks, last.value, stop, dst);
    }

    /** Every pending jump is patched to the end of the code. */
    method PatchAll(jumps: seq<nat>, ghost pre: seq<Byte>, ghost blocks: seq<seq<Instr>>, ghost last: Piece,
                    ghost stop: bool, ghost dst: nat) returns (ok: bool)
      requires Valid() && dst < REG_LIMIT && |jumps| == |blocks| && AllFit(last.code)
      requires Opened(pre, blocks, last.code, jumps, stop, dst, Code())
      modifies code
      ensures Valid() && codeLen == old(codeLen)
      ensures var r := Wrap(blocks, stop, dst, Some(last));
              ok == r.Some? && (ok ==> r.value.tables == last.tables && AllFit(r.value.code)
                                       && Code() == pre + Bytes(r.value.code))
    {
      hide AllFit, Bytes, Len, Encode, Fits, Wrap, Opened;
      ghost var closed: seq<Instr> := [];
      NoBytes();
      NothingClosed(pre, blocks, last, stop, dst);
      ghost var goal := Wrap(blocks, stop, dst, Some(last));
      var i := 0;
      while i < |jumps|
        invariant i <= |jumps| && AllFit(closed) && AllFit(last.code)
        invariant Opened(pre + Bytes(closed), blocks[i..], last.code, jumps[i..], stop, dst, Code())
        invariant goal == Before(closed, Wrap(blocks[i..], stop, dst, Some(last)))
      {
        ghost var rest := OpenParts(pre + Bytes(closed), blocks[i..], last, jumps[i..], stop, dst, Code());
        SliceOn(blocks, i);
        SliceOn(jumps, i);
        JumpIfFits(stop, dst, 0);
        ghost var was := Code();
        ok := PatchHole(jumps[i], pre + Bytes(closed), blocks[i], JumpIf(stop, dst, 0), rest);
        if !ok { return; }
        JumpIfFits(stop, dst, Len(rest));
        ghost var block := blocks[i] + [JumpIf(stop, dst, Len(rest))];
        CloseOne(pre, closed, blocks[i..], last, jumps[i..], stop, dst, rest, was, Code());
        BeforeBoth(closed, block, Wrap(blocks[i + 1..], stop, dst, Some(last)));
        closed := closed + block;
        i := i + 1;
      }
      NoneLeft(pre, closed, blocks[i..], last, jumps[i..], stop, dst, Code());
      ok := true;
    }

    // ---- calls ----------------------------------------------------------------

    method AllocRegs(n: nat) returns (ok: bool)
      requires nextReg <= REG_LIMIT
      modifies `nextReg, `maxRegs
      ensures ok == (old(nextReg) + n <= REG_LIMIT)
      ensures ok ==> nextReg == old(nextReg) + n && Tabs() == (if n > 0 then Grow(old(Tabs()), nextReg) else old(Tabs()))
      ensures constants == old(constants) && upvalues == old(upvalues)
    {
      var i := 0;
      while i < n
        invariant i <= n && nextReg == old(nextReg) + i <= REG_LIMIT
        invariant Tabs() == if i > 0 then Grow(old(Tabs()), nextReg) else old(Tabs())
      {
        var r;
        ok, r := AllocReg();
        if !ok { return; }
        i := i + 1;
      }
      ok := true;
    }

    method CompileOperands(es: Exprs, reg0: nat) returns (ok: bool)
      requires Valid() && TablesOk(sc, Tabs()) && |sc.locals| <= reg0 && reg0 + Count(es) <= nextReg <= REG_LIMIT
      modifies this, code
      ensures Valid() && (code == old(code) || fresh(code)) && Adds(ok, GenEach(es, sc, old(Tabs()), reg0, old(nextReg)))
      decreases es, 2
    {
      hide TablesOk, Good, Gen, AllFit, Bytes, Extends;
      ghost var goal := GenEach(es, sc, Tabs(), reg0, nextReg);
      ghost var done: seq<Instr> := [];
      NoBytes();
      BeforeNothing(goal);
      var args, reg := es, reg0;
      while args.Cons?
        invariant Valid() && (code == old(code) || fresh(code)) && nextReg == old(nextReg)
        invariant AllFit(done) && Code() == old(Code()) + Bytes(done) && TablesOk(sc, Tabs())
        invariant (args == es || args < es) && |sc.locals| <= reg && reg + Count(args) <= nextReg
        invariant goal == Before(done, GenEach(args, sc, Tabs(), reg, nextReg))
        decreases args
      {
        ghost var t := Tabs();
        ghost var a := Gen(args.head, sc, t, reg, nextReg);
        GenGood(args.head, sc, t, reg, nextReg);
        GoodOfOption(sc, t, a);
        ok := CompileExpr(args.head, reg);
        if !ok { return; }
        BytesAppend(done, a.value.code);
        assert old(Code()) + Bytes(done) + Bytes(a.value.code) == old(Code()) + (Bytes(done) + Bytes(a.value.code));
        EachOneMore(args, sc, t, reg, nextReg, a.value);
        BeforeBoth(done, a.value.code, GenEach(args.tail, sc, a.value.tables, reg + 1, nextReg));
        done := done + a.value.code;
        args, reg := args.tail, reg + 1;
      }
      assert done + [] == done;
      ok := true;
    }

    method CompileCall(e: Expr, dst: nat) returns (ok: bool)
      requires e.Apply? && Valid() && TablesOk(sc, Tabs()) && Placed(sc, dst, nextReg)
      modifies this, code
      ensures Valid() && (code == old(code) || fresh(code)) && Adds(ok, GenApply(e, sc, old(Tabs()), dst, old(nextReg)))
      decreases e, 0
    {
      hide TablesOk, Good, Gen, AllFit, Bytes, Extends, Encode, GenEach;
      var nargs := Count(e.args);
      if nargs > MAX_ARGS { return false; }
      EnsureTemps();
      var saved := nextReg;
      var base;
      ok, base := AllocReg();
      if !ok { return; }
      ok := AllocRegs(nargs);
      if !ok { return; }
      ghost var u := Grow(old(Tabs()), base + nargs + 1);
      assert Tabs() == u;
      GrowExtends(sc, old(Tabs()), base + nargs + 1);
      GenGood(e.f, sc, u, base, nextReg);
      GoodOfOption(sc, u, Gen(e.f, sc, u, base, nextReg));
      ok := CompileExpr(e.f, base);
      if !ok { return; }
      ghost var a := Gen(e.f, sc, u, base, nextReg).value;
      EachGood(e.args, sc, a.tables, base + 1, nextReg);
      GoodOfOption(sc, a.tables, GenEach(e.args, sc, a.tables, base + 1, nextReg));
      ok := CompileOperands(e.args, base + 1);
      if !ok { return; }
      ghost var b := GenEach(e.args, sc, a.tables, base + 1, nextReg).value;
      EmitCall(base, nargs, dst);
      CallBytes(old(Code()), a.code, b.code, CallCode(base, nargs, dst));
      nextReg := saved;
    }

    method EmitCall(base: nat, nargs: nat, dst: nat)
      requires Valid() && base < REG_LIMIT && nargs <= MAX_ARGS && dst < REG_LIMIT
      modifies `code, `codeLen, code
      ensures Valid() && (code == old(code) || fresh(code))
      ensures AllFit(CallCode(base, nargs, dst)) && Code() == old(Code()) + Bytes(CallCode(base, nargs, dst))
    {
      EmitThree(11, base, nargs);
      OneBytes(Bytecode.Call(base, nargs));
      if dst != base {
        EmitThree(5, dst, base);
        TwoBytes(old(Code()), Bytecode.Call(base, nargs), Move(dst, base));
      }
    }
  }

  function CallCode(base: nat, nargs: nat, dst: nat): seq<Instr> {
    if dst != base then [Bytecode.Call(base, nargs), Move(dst, base)] else [Bytecode.Call(base, nargs)]
  }

  lemma CallBytes(pre: seq<Byte>, a: seq<Instr>, b: seq<Instr>, c: seq<Instr>)
    requires AllFit(a) && AllFit(b) && AllFit(c)
    ensures AllFit(a + b + c) && pre + Bytes(a) + Bytes(b) + Bytes(c) == pre + Bytes(a + b + c)
    ensures |c| == 2 ==> a + b + [c[0]] + [c[1]] == a + b + c
    ensures |c| == 1 ==> a + b + [c[0]] + [] == a + b + c
  {
    hide AllFit, Bytes;
    BytesAppend(a, b);
    BytesAppend(a + b, c);
  }

  lemma EachOneMore(es: Exprs, sc: Scope, t: Tables, reg: nat, next: nat, a: Piece)
    requires es.Cons? && Gen(es.head, sc, t, reg, next) == Some(a)
    ensures GenEach(es, sc, t, reg, next) == Before(a.code, GenEach(es.tail, sc, a.tables, reg + 1, next))
  {
  }

  // ---- pending jumps ----------------------------------------------------------

  /** Operands with empty jumps after them, then the last one. */
  ghost function Open(blocks: seq<seq<Instr>>, last: seq<Instr>, stop: bool, dst: nat): seq<Instr> {
    if blocks == [] then last else blocks[0] + [JumpIf(stop, dst, 0)] + Open(blocks[1..], last, stop, dst)
  }

  /** The same with every jump going to the end; None when one is too far. */
  ghost function Wrap(blocks: seq<seq<Instr>>, stop: bool, dst: nat, r: Option<Piece>): Option<Piece> {
    if blocks == [] then r else
      match Wrap(blocks[1..], stop, dst, r)
      case None => None
      case Some(b) =>
        if Len(b.code) > MAX_OFFSET then None
        else Some(Piece(blocks[0] + [JumpIf(stop, dst, Len(b.code))] + b.code, b.tables))
  }

  lemma {:induction false} WrapNone(blocks: seq<seq<Instr>>, stop: bool, dst: nat)
    ensures Wrap(blocks, stop, dst, None).None?
  {
    if blocks != [] {
      WrapNone(blocks[1..], stop, dst);
    }
  }

  lemma {:induction false} WrapOneMore(blocks: seq<seq<Instr>>, a: seq<Instr>, stop: bool, dst: nat, r: Option<Piece>)
    ensures Wrap(blocks + [a], stop, dst, r) == Wrap(blocks, stop, dst, Wrap([a], stop, dst, r))
  {
    if blocks == [] {
      assert blocks + [a] == [a];
    } else {
      assert (blocks + [a])[1..] == blocks[1..] + [a];
      WrapOneMore(blocks[1..], a, stop, dst, r);
    }
  }

  lemma {:induction false} WrapLen(blocks: seq<seq<Instr>>, last: Piece, stop: bool, dst: nat)
    ensures var r := Wrap(blocks, stop, dst, Some(last)); r.Some? ==> Len(r.value.code) == Len(Open(blocks, last.code, stop, dst))
  {
    if blocks != [] {
      WrapLen(blocks[1..], last, stop, dst);
      var r := Wrap(blocks[1..], stop, dst, Some(last));
      if r.Some? {
        JumpLen(blocks[0], stop, dst, Len(r.value.code), r.value.code);
        JumpLen(blocks[0], stop, dst, 0, Open(blocks[1..], last.code, stop, dst));
      }
    }
  }

  lemma JumpLen(a: seq<Instr>, stop: bool, dst: nat, offset: int, b: seq<Instr>)
    ensures Len(a + [JumpIf(stop, dst, offset)] + b) == Len(a) + 4 + Len(b)
  {
    LenAppend(a, [JumpIf(stop, dst, offset)]);
    LenAppend(a + [JumpIf(stop, dst, offset)], b);
    assert [JumpIf(stop, dst, offset)][..0] == [];
  }

  lemma JumpIfFits(stop: bool, dst: nat, offset: int)
    requires dst < REG_LIMIT && 0 <= offset <= MAX_OFFSET
    ensures Fits(JumpIf(stop, dst, offset)) && Size(JumpIf(stop, dst, offset)) == 4
    ensures offset == 0 ==> IsHole(JumpIf(stop, dst, offset))
    ensures WithOffset(JumpIf(stop, dst, 0), offset) == JumpIf(stop, dst, offset)
    ensures |Encode(JumpIf(stop, dst, offset))| == 4
  {
  }

  /** The code so far is the open operands, and the jumps stand after them. */
  ghost predicate Opened(pre: seq<Byte>, blocks: seq<seq<Instr>>, last: seq<Instr>, jumps: seq<nat>, stop: bool, dst: nat,
                         now: seq<Byte>)
    decreases |blocks|
  {
    && |jumps| == |blocks| && AllFit(last) && dst < REG_LIMIT
    && if blocks == [] then now == pre + Bytes(last)
       else
         && AllFit(blocks[0]) && jumps[0] == |pre| + Len(blocks[0]) + 2
         && (JumpIfFits(stop, dst, 0);
             Opened(pre + Bytes(blocks[0]) + Encode(JumpIf(stop, dst, 0)), blocks[1..], last, jumps[1..], stop, dst, now))
  }

  ghost predicate Pending(pre: seq<Byte>, blocks: seq<seq<Instr>>, jumps: seq<nat>, stop: bool, dst: nat, now: seq<Byte>) {
    Opened(pre, blocks, [], jumps, stop, dst, now)
  }

  lemma NothingOpen(pre: seq<Byte>, goal: Option<Piece>, stop: bool, dst: nat)
    requires dst < REG_LIMIT
    ensures Pending(pre, [], [], stop, dst, pre) && Wrap([], stop, dst, goal) == goal
  {
    NoBytes();
    assert pre + [] == pre;
  }

  lemma {:induction false} OneMorePending(pre: seq<Byte>, blocks: seq<seq<Instr>>, jumps: seq<nat>, stop: bool, dst: nat,
                                          before: seq<Byte>, a: seq<Instr>, at: nat, now: seq<Byte>)
    requires Pending(pre, blocks, jumps, stop, dst, before) && AllFit(a) && Fits(JumpIf(stop, dst, 0))
    requires now == before + Bytes(a) + Encode(JumpIf(stop, dst, 0)) && at == |before + Bytes(a)| + 2
    ensures Pending(pre, blocks + [a], jumps + [at], stop, dst, now)
    decreases |blocks|
  {
    hide AllFit, Bytes, Len, Encode, Fits;
    NoBytes();
    if blocks == [] {
      assert jumps == [] && before == pre + [] == pre;
      assert blocks + [a] == [a] && jumps + [at] == [at];
      LenIsSize(a);
      assert [a][1..] == [] && [at][1..] == [];
      assert now + Bytes([]) == now;
      assert Opened(now, [], [], [], stop, dst, now);
    } else {
      assert (blocks + [a])[1..] == blocks[1..] + [a] && (jumps + [at])[1..] == jumps[1..] + [at];
      OneMorePending(pre + Bytes(blocks[0]) + Encode(JumpIf(stop, dst, 0)), blocks[1..], jumps[1..], stop, dst, before, a, at, now);
    }
  }

  lemma {:induction false} AllOpen(pre: seq<Byte>, blocks: seq<seq<Instr>>, jumps: seq<nat>, stop: bool, dst: nat,
                                   before: seq<Byte>, last: seq<Instr>, now: seq<Byte>)
    requires Pending(pre, blocks, jumps, stop, dst, before) && AllFit(last) && now == before + Bytes(last)
    ensures Opened(pre, blocks, last, jumps, stop, dst, now)
    decreases |blocks|
  {
    hide AllFit, Bytes, Len, Encode;
    NoBytes();
    if blocks == [] {
      assert pre + [] == pre;
    } else {
      JumpIfFits(stop, dst, 0);
      AllOpen(pre + Bytes(blocks[0]) + Encode(JumpIf(stop, dst, 0)), blocks[1..], jumps[1..], stop, dst, before, last, now);
    }
  }

  lemma {:induction false} OpenedIs(pre: seq<Byte>, blocks: seq<seq<Instr>>, last: seq<Instr>, jumps: seq<nat>, stop: bool,
                                    dst: nat, now: seq<Byte>)
    requires Opened(pre, blocks, last, jumps, stop, dst, now)
    ensures AllFit(Open(blocks, last, stop, dst)) && now == pre + Bytes(Open(blocks, last, stop, dst))
    decreases |blocks|
  {
    hide AllFit, Bytes, Len, Encode, Fits;
    if blocks != [] {
      JumpIfFits(stop, dst, 0);
      var j := JumpIf(stop, dst, 0);
      var rest := Open(blocks[1..], last, stop, dst);
      OpenedIs(pre + Bytes(blocks[0]) + Encode(j), blocks[1..], last, jumps[1..], stop, dst, now);
      FrontBytes(blocks[0], j, rest);
      FourParts(pre, Bytes(blocks[0]), Encode(j), Bytes(rest));
    }
  }

  /** Where the code starts matters only by its length. */
  lemma {:induction false} Reopened(p: seq<Byte>, q: seq<Byte>, blocks: seq<seq<Instr>>, last: seq<Instr>, jumps: seq<nat>,
                                    stop: bool, dst: nat, now: seq<Byte>)
    requires Opened(p, blocks, last, jumps, stop, dst, now) && |p| == |q|
    ensures AllFit(Open(blocks, last, stop, dst))
    ensures Opened(q, blocks, last, jumps, stop, dst, q + Bytes(Open(blocks, last, stop, dst)))
    decreases |blocks|
  {
    hide AllFit, Bytes, Len, Encode, Fits;
    OpenedIs(p, blocks, last, jumps, stop, dst, now);
    if blocks != [] {
      JumpIfFits(stop, dst, 0);
      var j := JumpIf(stop, dst, 0);
      var rest := Open(blocks[1..], last, stop, dst);
      Reopened(p + Bytes(blocks[0]) + Encode(j), q + Bytes(blocks[0]) + Encode(j), blocks[1..], last, jumps[1..], stop, dst, now);
      FrontBytes(blocks[0], j, rest);
      FourParts(q, Bytes(blocks[0]), Encode(j), Bytes(rest));
    }
  }

  /** The first open operand, its empty jump, and what the jump must pass. */
  lemma OpenParts(pre: seq<Byte>, blocks: seq<seq<Instr>>, last: Piece, jumps: seq<nat>, stop: bool, dst: nat, now: seq<Byte>)
    returns (rest: seq<Instr>)
    requires blocks != [] && Opened(pre, blocks, last.code, jumps, stop, dst, now)
    ensures |jumps| == |blocks| && AllFit(blocks[0]) && AllFit(rest) && rest == Open(blocks[1..], last.code, stop, dst)
    ensures Fits(JumpIf(stop, dst, 0)) && now == pre + (Bytes(blocks[0]) + Encode(JumpIf(stop, dst, 0)) + Bytes(rest))
    ensures jumps[0] == |pre| + Len(blocks[0]) + 2
    ensures Len(rest) > MAX_OFFSET ==> Wrap(blocks, stop, dst, Some(last)).None?
    ensures Len(rest) <= MAX_OFFSET ==> (Wrap(blocks, stop, dst, Some(last))
              == Before(blocks[0] + [JumpIf(stop, dst, Len(rest))], Wrap(blocks[1..], stop, dst, Some(last))))
  {
    hide AllFit, Bytes, Len, Encode, Fits;
    JumpIfFits(stop, dst, 0);
    var j := JumpIf(stop, dst, 0);
    rest := Open(blocks[1..], last.code, stop, dst);
    OpenedIs(pre + Bytes(blocks[0]) + Encode(j), blocks[1..], last.code, jumps[1..], stop, dst, now);
    FourParts(pre, Bytes(blocks[0]), Encode(j), Bytes(rest));
    WrapLen(blocks[1..], last, stop, dst);
  }

  lemma SliceOn<T>(xs: seq<T>, i: nat)
    requires i < |xs|
    ensures xs[i..][0] == xs[i] && xs[i..][1..] == xs[i + 1..]
  {
  }

  lemma NothingClosed(pre: seq<Byte>, blocks: seq<seq<Instr>>, last: Piece, stop: bool, dst: nat)
    ensures AllFit([]) && pre + Bytes([]) == pre && blocks[0..] == blocks
    ensures Wrap(blocks, stop, dst, Some(last)) == Before([], Wrap(blocks[0..], stop, dst, Some(last)))
  {
    NoBytes();
    BeforeNothing(Wrap(blocks, stop, dst, Some(last)));
  }

  /** One jump more goes to the end. */
  lemma CloseOne(pre: seq<Byte>, closed: seq<Instr>, blocks: seq<seq<Instr>>, last: Piece, jumps: seq<nat>, stop: bool, dst: nat,
                 rest: seq<Instr>, was: seq<Byte>, now: seq<Byte>)
    requires AllFit(closed) && blocks != [] && Opened(pre + Bytes(closed), blocks, last.code, jumps, stop, dst, was)
    requires AllFit(rest) && rest == Open(blocks[1..], last.code, stop, dst) && Len(rest) <= MAX_OFFSET
    requires AllFit(blocks[0]) && Fits(JumpIf(stop, dst, Len(rest)))
    requires now == (pre + Bytes(closed)) + (Bytes(blocks[0]) + Encode(JumpIf(stop, dst, Len(rest))) + Bytes(rest))
    ensures |jumps| == |blocks|
    ensures var more := closed + (blocks[0] + [JumpIf(stop, dst, Len(rest))]);
            AllFit(more) && Opened(pre + Bytes(more), blocks[1..], last.code, jumps[1..], stop, dst, now)
  {
    hide AllFit, Bytes, Len, Encode, Fits;
    JumpIfFits(stop, dst, 0);
    JumpIfFits(stop, dst, Len(rest));
    var j := JumpIf(stop, dst, Len(rest));
    BitFits(j);
    OneBytes(j);
    BytesAppend(blocks[0], [j]);
    BytesAppend(closed, blocks[0] + [j]);
    var p := pre + Bytes(closed) + Bytes(blocks[0]) + Encode(JumpIf(stop, dst, 0));
    var q := pre + Bytes(closed) + Bytes(blocks[0]) + Encode(j);
    Reopened(p, q, blocks[1..], last.code, jumps[1..], stop, dst, was);
    FourParts(pre + Bytes(closed), Bytes(blocks[0]), Encode(j), Bytes(rest));
    assert q == pre + (Bytes(closed) + (Bytes(blocks[0]) + Encode(j)));
  }

  lemma NoneLeft(pre: seq<Byte>, closed: seq<Instr>, blocks: seq<seq<Instr>>, last: Piece, jumps: seq<nat>, stop: bool, dst: nat,
                 now: seq<Byte>)
    requires blocks == [] && AllFit(closed) && Opened(pre + Bytes(closed), blocks, last.code, jumps, stop, dst, now)
    ensures Wrap(blocks, stop, dst, Some(last)) == Some(last)
    ensures AllFit(closed + last.code) && now == pre + Bytes(closed + last.code)
  {
    hide AllFit, Bytes;
    BytesAppend(closed, last.code);
    assert pre + Bytes(closed) + Bytes(last.code) == pre + (Bytes(closed) + Bytes(last.code));
  }

  lemma JumpsFit(r: nat)
    requires r < REG_LIMIT
    ensures Fits(JumpFalse(r, 0)) && Fits(Jump(0)) && IsHole(JumpFalse(r, 0)) && IsHole(Jump(0))
    ensures Size(JumpFalse(r, 0)) == 4 && Size(Jump(0)) == 3
    ensures AllFit([Jump(0)]) && Bytes([Jump(0)]) == Encode(Jump(0)) && Len([Jump(0)]) == 3
  {
    assert AllFit([Jump(0)]);
    OneBytes(Jump(0));
  }

  lemma Regroup<T>(pre: seq<T>, a: seq<T>, x: seq<T>, b: seq<T>, y: seq<T>)
    ensures pre + a + x + b + y == pre + (a + x + (b + y))
  {
  }

  /** Test, hole, consequent, hole: the first hole is before the rest. */
  lemma IfHoles(pre: seq<Byte>, a: seq<Instr>, x: Instr, b: seq<Instr>, y: Instr, now: seq<Byte>)
    requires AllFit(a) && AllFit(b) && Fits(x) && Fits(y) && AllFit([y]) && Bytes([y]) == Encode(y)
    requires now == pre + Bytes(a) + Encode(x) + Bytes(b) + Encode(y)
    ensures AllFit(b + [y]) && now == pre + (Bytes(a) + Encode(x) + Bytes(b + [y])) && Len(b + [y]) == Len(b) + Len([y])
    ensures |pre + Bytes(a)| == |pre| + Len(a)
    ensures |pre + Bytes(a) + Encode(x) + Bytes(b)| == |pre| + Len(a) + Size(x) + Len(b)
  {
    hide AllFit, Bytes, Len, Encode, Fits, Size;
    BytesAppend(b, [y]);
    LenAppend(b, [y]);
    LenIsSize(a);
    LenIsSize(b);
    HoleSize(x);
    Regroup(pre, Bytes(a), Encode(x), Bytes(b), Bytes([y]));
  }

  lemma FrontBytes(a: seq<Instr>, x: Instr, b: seq<Instr>)
    requires AllFit(a) && AllFit(b) && Fits(x)
    ensures AllFit(a + [x] + b) && Bytes(a + [x] + b) == Bytes(a) + Encode(x) + Bytes(b)
    ensures Len(a + [x] + b) == Len(a) + Size(x) + Len(b)
  {
    BitFits(x);
    OneBytes(x);
    hide AllFit, Bytes, Len, Encode, Fits, Size;
    BytesAppend(a, [x]);
    BytesAppend(a + [x], b);
    LenAppend(a, [x]);
    LenAppend(a + [x], b);
  }

  lemma Regroup4<T>(pre: seq<T>, a: seq<T>, x: seq<T>, b: seq<T>, y: seq<T>)
    ensures pre + (a + x + (b + y)) == pre + (a + x + b + y)
  {
  }

  lemma FrontIs(pre: seq<Byte>, a: seq<Instr>, r: nat, b: seq<Instr>, now: seq<Byte>)
    requires AllFit(a) && AllFit(b) && AllFit(b + [Jump(0)]) && Fits(JumpFalse(r, Len(b) + 3)) && Fits(Jump(0))
    requires now == pre + (Bytes(a) + Encode(JumpFalse(r, Len(b) + 3)) + Bytes(b + [Jump(0)]))
    ensures AllFit(a + [JumpFalse(r, Len(b) + 3)] + b)
    ensures now == pre + (Bytes(a + [JumpFalse(r, Len(b) + 3)] + b) + Encode(Jump(0)))
    ensures Len(a + [JumpFalse(r, Len(b) + 3)] + b) == Len(a) + 4 + Len(b)
  {
    var x := JumpFalse(r, Len(b) + 3);
    BitFits(Jump(0));
    OneBytes(Jump(0));
    hide AllFit, Bytes, Len, Encode, Fits;
    FrontBytes(a, x, b);
    BytesAppend(b, [Jump(0)]);
    Regroup4(pre, Bytes(a), Encode(x), Bytes(b), Encode(Jump(0)));
  }

  lemma EndHole(pre: seq<Byte>, front: seq<Instr>, c: seq<Instr>, now: seq<Byte>, end: nat)
    requires AllFit(front) && AllFit(c) && Fits(Jump(0))
    requires now == pre + (Bytes(front) + Encode(Jump(0))) + Bytes(c)
    ensures now == pre + (Bytes(front) + Encode(Jump(0)) + Bytes(c))
  {
  }

  lemma JoinFails(r: nat, a: Piece, b: Piece, c: Option<Piece>)
    requires Len(b.code) + 3 > MAX_OFFSET
    ensures c.Some? ==> JoinIf(r, a, b, c.value).None?
  {
  }

  lemma JoinedIs(r: nat, a: Piece, b: Piece, c: Piece)
    requires Len(b.code) + 3 <= MAX_OFFSET && AllFit(a.code + [JumpFalse(r, Len(b.code) + 3)] + b.code) && AllFit(c.code)
    ensures JoinIf(r, a, b, c).Some? <==> Len(c.code) <= MAX_OFFSET
    ensures var front := a.code + [JumpFalse(r, Len(b.code) + 3)] + b.code; var j := Jump(Len(c.code));
            JoinIf(r, a, b, c).Some? && Fits(j) ==>
              && JoinIf(r, a, b, c).value.tables == c.tables
              && AllFit(JoinIf(r, a, b, c).value.code)
              && Bytes(JoinIf(r, a, b, c).value.code) == Bytes(front) + Encode(j) + Bytes(c.code)
  {
    hide AllFit, Bytes, Len, Encode, Fits;
    var front := a.code + [JumpFalse(r, Len(b.code) + 3)] + b.code;
    var j := Jump(Len(c.code));
    if Fits(j) && JoinIf(r, a, b, c).Some? {
      FrontBytes(front, j, c.code);
    }
  }

  /** A piece after code that is there already. */
  function Before(done: seq<Instr>, r: Option<Piece>): Option<Piece> {
    match r case None => None case Some(b) => Some(Piece(done + b.code, b.tables))
  }

  lemma BeforeBoth(a: seq<Instr>, b: seq<Instr>, r: Option<Piece>)
    ensures Before(a + b, r) == Before(a, Before(b, r))
  {
    if r.Some? {
      assert a + b + r.value.code == a + (b + r.value.code);
    }
  }

  lemma BeforeNothing(r: Option<Piece>)
    ensures Before([], r) == r
  {
    if r.Some? {
      assert [] + r.value.code == r.value.code;
    }
  }

  lemma NoBytes()
    ensures AllFit([]) && Bytes([]) == []
  {
  }

  lemma GoodOfOption(sc: Scope, t: Tables, p: Option<Piece>)
    requires Good(sc, t, p)
    ensures p.Some? ==> TablesOk(sc, p.value.tables) && Extends(t, p.value.tables) && AllFit(p.value.code)
  {
  }

  lemma {:induction false} IndexOneMore<T>(xs: seq<T>, x: T, i: nat)
    requires i < |xs| && IndexOf(xs[..i], x) == -1
    ensures IndexOf(xs[..i + 1], x) == if xs[i] == x then i else -1
    ensures xs[i] == x ==> IndexOf(xs, x) == i
  {
    assert xs[..i + 1][..i] == xs[..i];
    if xs[i] == x {
      IndexStays(xs, x, i + 1);
    }
  }

  lemma {:induction false} IndexStays<T>(xs: seq<T>, x: T, n: nat)
    requires n <= |xs| && IndexOf(xs[..n], x) >= 0
    ensures IndexOf(xs, x) == IndexOf(xs[..n], x)
  {
    if n == |xs| {
      assert xs[..n] == xs;
    } else {
      assert xs[..|xs| - 1][..n] == xs[..n];
      IndexStays(xs[..|xs| - 1], x, n);
    }
  }

  lemma TwoBytes(pre: seq<Byte>, i: Instr, j: Instr)
    requires Fits(i) && Fits(j)
    ensures AllFit([i, j]) && pre + Encode(i) + Encode(j) == pre + Bytes([i, j])
  {
    assert AllFit([i]) && AllFit([j]);
    OneBytes(i);
    OneBytes(j);
    hide Encode, Fits;
    BytesAppend([i], [j]);
    assert [i] + [j] == [i, j];
  }

  lemma HoleSize(i: Instr)
    requires Fits(i)
    ensures |Encode(i)| == Size(i) >= 2
  {
  }

  lemma PatchMiddle(was: seq<Byte>, pre: seq<Byte>, before: seq<Byte>, x: seq<Byte>, after: seq<Byte>, y: seq<Byte>,
                    at: nat, lo: Byte, hi: Byte)
    requires |x| >= 2 && was == pre + (before + x + after) && at == |pre| + |before| + |x| - 2
    requires y == x[|x| - 2 := lo][|x| - 1 := hi]
    ensures was[at := lo][at + 1 := hi] == pre + (before + y + after)
  {
    FourParts(pre, before, x, after);
    FourParts(pre, before, y, after);
    PatchBytes(pre + before, x, after, at, lo, hi);
  }

  lemma FourParts<T>(a: seq<T>, b: seq<T>, c: seq<T>, d: seq<T>)
    ensures a + (b + c + d) == (a + b) + c + d
  {
  }
}
