/** The bytes of register code and the machine that runs them. */
module Bytecode {

  datatype Option<T> = None | Some(value: T)

  type Byte = x: int | 0 <= x < 256

  datatype Value = Void | True | False | Null | Other(id: nat)

  /** Whatever a call may change outside the frame. */
  type World = nat

  /** What calling a value with arguments gives, and does to the world. */
  type Callee = (Value, seq<Value>, World) -> (Value, World)

  datatype Instr =
    | LoadConst(dst: nat, idx: nat)
    | LoadNil(dst: nat)
    | LoadTrue(dst: nat)
    | LoadFalse(dst: nat)
    | LoadVoid(dst: nat)
    | Move(dst: nat, src: nat)
    | GetUpvalue(dst: nat, up: nat)
    | SetUpvalue(up: nat, src: nat)
    | Call(base: nat, nargs: nat)
    | Jump(offset: int)
    | JumpFalse(test: nat, offset: int)
    | JumpTrue(test: nat, offset: int)

  // ---- encoding -----------------------------------------------------------

  /** Operands fit their bytes: registers and counts one, table indices two. */
  predicate Fits(i: Instr) {
    match i
    case LoadConst(d, x) => d < 256 && x < 0x1_0000
    case Move(d, s) => d < 256 && s < 256
    case GetUpvalue(d, u) => d < 256 && u < 256
    case SetUpvalue(u, s) => u < 256 && s < 256
    case Call(b, n) => b < 256 && n < 256
    case Jump(o) => -0x8000 <= o < 0x8000
    case JumpFalse(t, o) => t < 256 && -0x8000 <= o < 0x8000
    case JumpTrue(t, o) => t < 256 && -0x8000 <= o < 0x8000
    case _ => i.dst < 256
  }

  function Low(v: int): Byte {
    v % 256
  }

  function High(v: int): Byte {
    (v / 256) % 256
  }

  function Encode(i: Instr): (b: seq<Byte>)
    requires Fits(i)
    ensures 2 <= |b| <= 4
  {
    match i
    case LoadConst(d, x) => [0, d, Low(x), High(x)]
    case LoadNil(d) => [1, d]
    case LoadTrue(d) => [2, d]
    case LoadFalse(d) => [3, d]
    case LoadVoid(d) => [4, d]
    case Move(d, s) => [5, d, s]
    case GetUpvalue(d, u) => [9, d, u]
    case SetUpvalue(u, s) => [10, u, s]
    case Call(b, n) => [11, b, n]
    case Jump(o) => [14, Low(o), High(o)]
    case JumpFalse(t, o) => [15, t, Low(o), High(o)]
    case JumpTrue(t, o) => [16, t, Low(o), High(o)]
  }

  function Unsigned(lo: Byte, hi: Byte): nat {
    lo + 256 * hi
  }

  function Signed(lo: Byte, hi: Byte): int {
    var u := Unsigned(lo, hi);
    if u < 0x8000 then u else u - 0x1_0000
  }

  /** The instruction at a position, as the machine fetches it. */
  function Decode(code: seq<Byte>, pc: nat): Option<Instr> {
    if pc + 2 > |code| then None else
      var op, a := code[pc], code[pc + 1];
      if op == 1 then Some(LoadNil(a))
      else if op == 2 then Some(LoadTrue(a))
      else if op == 3 then Some(LoadFalse(a))
      else if op == 4 then Some(LoadVoid(a))
      else if pc + 3 > |code| then None else
        var b := code[pc + 2];
        if op == 5 then Some(Move(a, b))
        else if op == 9 then Some(GetUpvalue(a, b))
        else if op == 10 then Some(SetUpvalue(a, b))
        else if op == 11 then Some(Call(a, b))
        else if op == 14 then Some(Jump(Signed(a, b)))
        else if pc + 4 > |code| then None else
          var c := code[pc + 3];
          if op == 0 then Some(LoadConst(a, Unsigned(b, c)))
          else if op == 15 then Some(JumpFalse(a, Signed(b, c)))
          else if op == 16 then Some(JumpTrue(a, Signed(b, c)))
          else None
  }

  function Size(i: Instr): nat {
    match i
    case LoadConst(_, _) => 4
    case JumpFalse(_, _) => 4
    case JumpTrue(_, _) => 4
    case Move(_, _) => 3
    case GetUpvalue(_, _) => 3
    case SetUpvalue(_, _) => 3
    case Call(_, _) => 3
    case Jump(_) => 3
    case _ => 2
  }

  lemma SignedBytes(o: int)
    requires -0x8000 <= o < 0x8000
    ensures Signed(Low(o), High(o)) == o
  {
    if o >= 0 {
      assert o == Low(o) + 256 * (o / 256) && 0 <= o / 256 < 256;
    } else {
      assert (o + 0x1_0000) / 256 == o / 256 + 256;
      assert 0 <= o / 256 + 256 < 256;
      assert High(o) == o / 256 + 256;
    }
  }

  lemma UnsignedBytes(v: nat)
    requires v < 0x1_0000
    ensures Unsigned(Low(v), High(v)) == v
  {
  }

  /** Decoding finds the instruction that was encoded, wherever it stands. */
  lemma DecodeEncode(pre: seq<Byte>, i: Instr, post: seq<Byte>)
    requires Fits(i)
    ensures Decode(pre + Encode(i) + post, |pre|) == Some(i)
    ensures |Encode(i)| == Size(i)
  {
    var code := pre + Encode(i) + post;
    var b := Encode(i);
    assert forall k :: 0 <= k < |b| ==> code[|pre| + k] == b[k];
    match i
    case LoadConst(_, x) => UnsignedBytes(x);
    case Jump(o) => SignedBytes(o);
    case JumpFalse(_, o) => SignedBytes(o);
    case JumpTrue(_, o) => SignedBytes(o);
    case _ =>
  }

  predicate AllFit(ins: seq<Instr>) {
    forall i <- ins :: Fits(i)
  }

  function Bytes(ins: seq<Instr>): (b: seq<Byte>)
    requires AllFit(ins)
  {
    if ins == [] then [] else Bytes(ins[..|ins| - 1]) + Encode(ins[|ins| - 1])
  }

  function Len(ins: seq<Instr>): nat {
    if ins == [] then 0 else Len(ins[..|ins| - 1]) + Size(ins[|ins| - 1])
  }

  lemma {:induction false} LenIsSize(ins: seq<Instr>)
    requires AllFit(ins)
    ensures |Bytes(ins)| == Len(ins)
  {
    if ins != [] {
      LenIsSize(ins[..|ins| - 1]);
      DecodeEncode([], ins[|ins| - 1], []);
    }
  }

  lemma {:induction false} BytesAppend(a: seq<Instr>, b: seq<Instr>)
    requires AllFit(a) && AllFit(b)
    ensures AllFit(a + b) && Bytes(a + b) == Bytes(a) + Bytes(b)
  {
    hide Fits, Encode;
    if b == [] {
      assert a + b == a;
    } else {
      var front, last := b[..|b| - 1], b[|b| - 1];
      BytesAppend(a, front);
      assert (a + b)[..|a + b| - 1] == a + front;
      assert (Bytes(a) + Bytes(front)) + Encode(last) == Bytes(a) + (Bytes(front) + Encode(last));
    }
  }

  lemma {:induction false} LenAppend(a: seq<Instr>, b: seq<Instr>)
    ensures Len(a + b) == Len(a) + Len(b)
  {
    if b == [] {
      assert a + b == a;
    } else {
      LenAppend(a, b[..|b| - 1]);
      assert (a + b)[..|a + b| - 1] == a + b[..|b| - 1];
    }
  }

  // ---- the machine --------------------------------------------------------

  datatype Machine = Machine(pc: int, regs: seq<Value>, ups: seq<Value>, world: World)

  datatype Program = Program(code: seq<Byte>, consts: seq<Value>, callee: Callee)

  function Put(m: Machine, size: nat, dst: nat, v: Value): Option<Machine> {
    if dst < |m.regs| then Some(m.(pc := m.pc + size, regs := m.regs[dst := v])) else None
  }

  function Branch(m: Machine, test: nat, offset: int, onTrue: bool): Option<Machine> {
    if test >= |m.regs| then None
    else Some(m.(pc := if (m.regs[test] != False) == onTrue then m.pc + 4 + offset else m.pc + 4))
  }

  /** One instruction; None where the machine would leave its registers, its
      tables or its code. */
  function Step(p: Program, m: Machine): Option<Machine> {
    if m.pc < 0 then None else
    match Decode(p.code, m.pc)
    case None => None
    case Some(i) => Perform(p, m, i)
  }

  function Perform(p: Program, m: Machine, i: Instr): Option<Machine> {
    match i
    case LoadConst(d, x) => if x < |p.consts| then Put(m, 4, d, p.consts[x]) else None
    case LoadNil(d) => Put(m, 2, d, Null)
    case LoadTrue(d) => Put(m, 2, d, True)
    case LoadFalse(d) => Put(m, 2, d, False)
    case LoadVoid(d) => Put(m, 2, d, Void)
    case Move(d, s) => if s < |m.regs| then Put(m, 3, d, m.regs[s]) else None
    case GetUpvalue(d, u) => if u < |m.ups| then Put(m, 3, d, m.ups[u]) else None
    case SetUpvalue(u, s) =>
      if u < |m.ups| && s < |m.regs| then Some(m.(pc := m.pc + 3, ups := m.ups[u := m.regs[s]])) else None
    case Call(b, n) =>
      if b + n < |m.regs| then
        var (v, w) := p.callee(m.regs[b], m.regs[b + 1..b + 1 + n], m.world);
        Put(m.(world := w), 3, b, v)
      else None
    case Jump(o) => Some(m.(pc := m.pc + 3 + o))
    case JumpFalse(t, o) => Branch(m, t, o, false)
    case JumpTrue(t, o) => Branch(m, t, o, true)
  }

  function Run(p: Program, m: Machine, n: nat): Option<Machine> {
    if n == 0 then Some(m) else
      match Run(p, m, n - 1)
      case None => None
      case Some(k) => Step(p, k)
  }

  /** The machine gets from one state to another. */
  ghost predicate Goes(p: Program, m: Machine, k: Machine) {
    exists n: nat :: Run(p, m, n) == Some(k)
  }

  lemma {:induction false} RunOn(p: Program, m: Machine, a: nat, k: Machine, b: nat)
    requires Run(p, m, a) == Some(k)
    ensures Run(p, m, a + b) == Run(p, k, b)
  {
    hide Step;
    if b > 0 {
      RunOn(p, m, a, k, b - 1);
    }
  }

  lemma GoesOn(p: Program, m: Machine, k: Machine, l: Machine)
    requires Goes(p, m, k) && Goes(p, k, l)
    ensures Goes(p, m, l)
  {
    var a: nat :| Run(p, m, a) == Some(k);
    var b: nat :| Run(p, k, b) == Some(l);
    RunOn(p, m, a, k, b);
  }

  lemma GoesNowhere(p: Program, m: Machine)
    ensures Goes(p, m, m)
  {
    assert Run(p, m, 0) == Some(m);
  }

  lemma GoesOneStep(p: Program, m: Machine, i: Instr, k: Machine)
    requires m.pc >= 0 && Decode(p.code, m.pc) == Some(i) && Perform(p, m, i) == Some(k)
    ensures Goes(p, m, k)
  {
    assert Run(p, m, 0) == Some(m);
    assert Run(p, m, 1) == Step(p, m) == Some(k);
  }
}
