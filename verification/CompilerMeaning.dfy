/** Running the generated code evaluates the expression. */
module CompilerMeaning {
  import opened Bytecode
  import opened CompilerSpec
  import opened CompilerProofs

  /** The instructions stand at a position of the program. */
  predicate At(p: Program, pos: int, ins: seq<Instr>)
    requires AllFit(ins)
  {
    0 <= pos && pos + Len(ins) <= |p.code| && p.code[pos..pos + Len(ins)] == Bytes(ins)
  }

  lemma SliceSplits(code: seq<Byte>, pos: nat, x: seq<Byte>, y: seq<Byte>)
    requires pos + |x| + |y| <= |code| && code[pos..pos + |x| + |y|] == x + y
    ensures code[pos..pos + |x|] == x && code[pos + |x|..pos + |x| + |y|] == y
  {
    var all := code[pos..pos + |x| + |y|];
    assert code[pos..pos + |x|] == all[..|x|];
    assert code[pos + |x|..pos + |x| + |y|] == all[|x|..];
  }

  lemma SliceCuts(code: seq<Byte>, pos: nat, x: seq<Byte>)
    requires pos + |x| <= |code| && code[pos..pos + |x|] == x
    ensures code == code[..pos] + x + code[pos + |x|..]
  {
  }

  lemma AtSplit(p: Program, pos: int, a: seq<Instr>, b: seq<Instr>)
    requires AllFit(a) && AllFit(b) && AllFit(a + b) && At(p, pos, a + b)
    ensures At(p, pos, a) && At(p, pos + Len(a), b)
  {
    hide AllFit, Bytes, Len;
    BytesAppend(a, b);
    LenAppend(a, b);
    LenIsSize(a);
    LenIsSize(b);
    SliceSplits(p.code, pos, Bytes(a), Bytes(b));
  }

  lemma OneBytes(i: Instr)
    requires AllFit([i])
    ensures Fits(i) && Bytes([i]) == Encode(i) && Len([i]) == Size(i) == |Encode(i)|
  {
    assert i in [i];
    assert [i][..0] == [];
    DecodeEncode([], i, []);
  }

  lemma AtDecode(p: Program, pos: int, i: Instr)
    requires AllFit([i]) && At(p, pos, [i])
    ensures pos >= 0 && Decode(p.code, pos) == Some(i) && Len([i]) == Size(i)
  {
    hide AllFit, Bytes, Len, Encode, Decode, Fits;
    OneBytes(i);
    SliceCuts(p.code, pos, Encode(i));
    DecodeEncode(p.code[..pos], i, p.code[pos + Size(i)..]);
  }

  // ---- the machine holds the store ------------------------------------------

  ghost predicate Agree(m: Machine, sc: Scope, fin: Tables, s: Store) {
    && |sc.locals| <= |m.regs| && m.regs[..|sc.locals|] == s.locals
    && fin.maxRegs <= |m.regs|
    && s.ups.Keys == sc.outer && |m.ups| == |fin.ups|
    && (forall j :: 0 <= j < |fin.ups| ==> fin.ups[j] in s.ups && m.ups[j] == s.ups[fin.ups[j]])
    && m.world == s.world
  }

  /** The machine stands at the code, and the final tables are at least those the
      code was generated into. */
  ghost predicate Ready(p: Program, m: Machine, sc: Scope, fin: Tables, piece: Piece, dst: nat, next: nat, s: Store) {
    && AllFit(piece.code) && At(p, m.pc, piece.code)
    && Extends(piece.tables, fin) && TablesOk(sc, fin) && p.consts == fin.consts
    && Placed(sc, dst, next) && next <= |m.regs|
    && Agree(m, sc, fin, s)
  }

  /** The value is in its register, the store is what evaluation left, and no
      other temporary below the free ones has changed. */
  ghost predicate Done(m: Machine, k: Machine, sc: Scope, fin: Tables, dst: nat, next: nat, len: nat, v: Value, s: Store) {
    && k.pc == m.pc + len
    && |k.regs| == |m.regs| && dst < |k.regs| && k.regs[dst] == v
    && Agree(k, sc, fin, s)
    && forall r :: |sc.locals| <= r < next && r < |k.regs| && r != dst ==> k.regs[r] == m.regs[r]
  }

  // ---- single instructions --------------------------------------------------

  lemma PutDone(p: Program, m: Machine, sc: Scope, fin: Tables, dst: nat, next: nat, i: Instr, v: Value, s: Store)
    requires Agree(m, sc, fin, s) && Placed(sc, dst, next) && next <= |m.regs|
    requires AllFit([i]) && At(p, m.pc, [i]) && Perform(p, m, i) == Put(m, Size(i), dst, v)
    ensures var k := m.(pc := m.pc + Size(i), regs := m.regs[dst := v]);
            Goes(p, m, k) && Done(m, k, sc, fin, dst, next, Len([i]), v, s)
  {
    AtDecode(p, m.pc, i);
    var k := m.(pc := m.pc + Size(i), regs := m.regs[dst := v]);
    GoesOneStep(p, m, i, k);
    assert k.regs[..|sc.locals|] == m.regs[..|sc.locals|];
  }

  lemma ExecLoad(p: Program, m: Machine, sc: Scope, t: Tables, fin: Tables, v: Value, dst: nat, next: nat, s: Store)
    returns (k: Machine)
    requires Load(dst, v, t).Some? && Ready(p, m, sc, fin, Load(dst, v, t).value, dst, next, s)
    ensures Goes(p, m, k) && Done(m, k, sc, fin, dst, next, Len(Load(dst, v, t).value.code), v, s)
  {
    var i := Load(dst, v, t).value.code[0];
    PutDone(p, m, sc, fin, dst, next, i, v, s);
    k := m.(pc := m.pc + Size(i), regs := m.regs[dst := v]);
  }

  lemma ExecVar(p: Program, m: Machine, sc: Scope, t: Tables, fin: Tables, x: Name, dst: nat, next: nat, s: Store)
    returns (k: Machine)
    requires GenVar(x, sc, t, dst).Some? && Ready(p, m, sc, fin, GenVar(x, sc, t, dst).value, dst, next, s)
    ensures Goes(p, m, k)
    ensures Done(m, k, sc, fin, dst, next, Len(GenVar(x, sc, t, dst).value.code), Lookup(sc, s, x), s)
  {
    var i := GenVar(x, sc, t, dst).value.code[0];
    var v := Lookup(sc, s, x);
    assert ResolveLocal(sc.locals, x) >= 0 ==> v == m.regs[..|sc.locals|][ResolveLocal(sc.locals, x)];
    PutDone(p, m, sc, fin, dst, next, i, v, s);
    k := m.(pc := m.pc + Size(i), regs := m.regs[dst := v]);
  }

  lemma StoredAgrees(m: Machine, sc: Scope, t: Tables, fin: Tables, x: Name, v: Value, s: Store, j: nat)
    requires Agree(m, sc, fin, s) && TablesOk(sc, fin) && ResolveLocal(sc.locals, x) < 0
    requires j < |fin.ups| && fin.ups[j] == x
    ensures Agree(m.(ups := m.ups[j := v]), sc, fin, Assign(sc, s, x, v))
  {
  }

  lemma StoredLocalAgrees(m: Machine, sc: Scope, fin: Tables, x: Name, v: Value, s: Store)
    requires Agree(m, sc, fin, s) && ResolveLocal(sc.locals, x) >= 0
    ensures Agree(m.(regs := m.regs[ResolveLocal(sc.locals, x) := v]), sc, fin, Assign(sc, s, x, v))
  {
    var i := ResolveLocal(sc.locals, x);
    assert m.regs[i := v][..|sc.locals|] == m.regs[..|sc.locals|][i := v];
  }

  lemma MovedAgrees(m: Machine, sc: Scope, fin: Tables, s: Store, pc: int)
    requires Agree(m, sc, fin, s)
    ensures Agree(m.(pc := pc), sc, fin, s)
  {
  }

  /** The first of the two instructions of a store writes the variable. */
  lemma ExecWrite(p: Program, m: Machine, sc: Scope, t: Tables, fin: Tables, x: Name, dst: nat, src: nat, s: Store)
    returns (h: Machine)
    requires GenStore(x, sc, t, dst, src).Some? && m.pc >= 0
    requires var piece := GenStore(x, sc, t, dst, src).value;
             && Extends(piece.tables, fin) && TablesOk(sc, fin)
             && Decode(p.code, m.pc) == Some(piece.code[0])
    requires Agree(m, sc, fin, s) && |sc.locals| <= src < |m.regs|
    ensures Goes(p, m, h) && h.pc == m.pc + 3 && Agree(h, sc, fin, Assign(sc, s, x, m.regs[src]))
    ensures |h.regs| == |m.regs| && forall r :: |sc.locals| <= r < |m.regs| ==> h.regs[r] == m.regs[r]
  {
    var v, i := m.regs[src], GenStore(x, sc, t, dst, src).value.code[0];
    if i.Move? {
      h := m.(pc := m.pc + 3, regs := m.regs[i.dst := v]);
      StoredLocalAgrees(m, sc, fin, x, v, s);
      MovedAgrees(m.(regs := m.regs[i.dst := v]), sc, fin, Assign(sc, s, x, v), m.pc + 3);
    } else {
      h := m.(pc := m.pc + 3, ups := m.ups[i.up := v]);
      StoredAgrees(m, sc, t, fin, x, v, s, i.up);
      MovedAgrees(m.(ups := m.ups[i.up := v]), sc, fin, Assign(sc, s, x, v), m.pc + 3);
    }
    hide Decode;
    GoesOneStep(p, m, i, h);
  }

  lemma StoreCode(x: Name, sc: Scope, t: Tables, dst: nat, src: nat)
    requires GenStore(x, sc, t, dst, src).Some?
    ensures var code := GenStore(x, sc, t, dst, src).value.code;
            |code| == 2 && code == [code[0]] + [Move(dst, src)] && Size(code[0]) == 3
            && (AllFit(code) ==> AllFit([code[0]]) && AllFit([Move(dst, src)]))
  {
    var code := GenStore(x, sc, t, dst, src).value.code;
    assert code[0] in code && code[1] in code;
  }

  /** Storing a temporary to a variable, then moving it to the target. */
  lemma ExecStore(p: Program, m: Machine, sc: Scope, t: Tables, fin: Tables, x: Name, dst: nat, src: nat, next: nat, s: Store)
    returns (k: Machine)
    requires GenStore(x, sc, t, dst, src).Some? && Ready(p, m, sc, fin, GenStore(x, sc, t, dst, src).value, dst, next, s)
    requires |sc.locals| <= src < |m.regs|
    ensures Goes(p, m, k)
    ensures Done(m, k, sc, fin, dst, next, Len(GenStore(x, sc, t, dst, src).value.code), m.regs[src], Assign(sc, s, x, m.regs[src]))
  {
    var code := GenStore(x, sc, t, dst, src).value.code;
    StoreCode(x, sc, t, dst, src);
    var v, i := m.regs[src], code[0];
    AtSplit(p, m.pc, [i], [Move(dst, src)]);
    AtDecode(p, m.pc, i);
    LenAppend([i], [Move(dst, src)]);
    var h := ExecWrite(p, m, sc, t, fin, x, dst, src, s);
    hide GenStore, Decode, Len, At, Agree, Goes, AllFit;
    MoveDone(p, h, sc, fin, dst, next, src, Assign(sc, s, x, v));
    k := h.(pc := h.pc + 3, regs := h.regs[dst := v]);
    GoesOn(p, m, h, k);
  }

  lemma MoveDone(p: Program, m: Machine, sc: Scope, fin: Tables, dst: nat, next: nat, src: nat, s: Store)
    requires Agree(m, sc, fin, s) && Placed(sc, dst, next) && next <= |m.regs| && src < |m.regs|
    requires AllFit([Move(dst, src)]) && At(p, m.pc, [Move(dst, src)])
    ensures var k := m.(pc := m.pc + 3, regs := m.regs[dst := m.regs[src]]);
            Goes(p, m, k) && Done(m, k, sc, fin, dst, next, Len([Move(dst, src)]), m.regs[src], s)
  {
    PutDone(p, m, sc, fin, dst, next, Move(dst, src), m.regs[src], s);
  }

  // ---- putting pieces together ----------------------------------------------

  /** Code that starts with a piece is ready to run it. */
  lemma ReadyFront(p: Program, m: Machine, sc: Scope, fin: Tables, all: Piece, dst: nat, next: nat, s: Store,
                   a: Piece, rest: seq<Instr>, dst1: nat, next1: nat)
    requires Ready(p, m, sc, fin, all, dst, next, s)
    requires all.code == a.code + rest && AllFit(a.code) && AllFit(rest) && Extends(a.tables, all.tables)
    requires Placed(sc, dst1, next1) && next1 <= |m.regs|
    ensures Ready(p, m, sc, fin, a, dst1, next1, s) && At(p, m.pc + Len(a.code), rest)
  {
    AtSplit(p, m.pc, a.code, rest);
  }

  /** The same program, further on. */
  lemma ReadyAt(p: Program, m: Machine, k: Machine, sc: Scope, fin: Tables, all: Piece, dst: nat, next: nat, s: Store,
                b: Piece, dst1: nat, next1: nat, s1: Store)
    requires Ready(p, m, sc, fin, all, dst, next, s) && |k.regs| == |m.regs| && Agree(k, sc, fin, s1)
    requires AllFit(b.code) && At(p, k.pc, b.code) && Extends(b.tables, all.tables)
    requires Placed(sc, dst1, next1) && next1 <= |m.regs|
    ensures Ready(p, k, sc, fin, b, dst1, next1, s1)
  {
  }

  lemma DoneOn(m: Machine, k: Machine, l: Machine, sc: Scope, fin: Tables, dst: nat, next: nat,
               dst1: nat, next1: nat, len1: nat, v1: Value, s1: Store, len2: nat, v: Value, s2: Store)
    requires Done(m, k, sc, fin, dst1, next1, len1, v1, s1) && Done(k, l, sc, fin, dst, next, len2, v, s2)
    requires next <= next1 && (dst1 >= next || dst1 == dst)
    ensures Done(m, l, sc, fin, dst, next, len1 + len2, v, s2)
  {
  }

  /** A branch moves the machine and nothing else. */
  lemma BranchGoes(p: Program, m: Machine, i: Instr)
    requires AllFit([i]) && At(p, m.pc, [i]) && (i.JumpFalse? || i.JumpTrue?) && i.test < |m.regs|
    ensures var taken := (m.regs[i.test] != False) == i.JumpTrue?;
            Goes(p, m, m.(pc := if taken then m.pc + 4 + i.offset else m.pc + 4))
  {
    hide Decode, At, AllFit, Bytes, Len;
    AtDecode(p, m.pc, i);
    GoesOneStep(p, m, i, m.(pc := if (m.regs[i.test] != False) == i.JumpTrue? then m.pc + 4 + i.offset else m.pc + 4));
  }

  lemma JumpGoes(p: Program, m: Machine, offset: int)
    requires AllFit([Jump(offset)]) && At(p, m.pc, [Jump(offset)])
    ensures Goes(p, m, m.(pc := m.pc + 3 + offset))
  {
    hide Decode, At, AllFit, Bytes, Len;
    AtDecode(p, m.pc, Jump(offset));
    GoesOneStep(p, m, Jump(offset), m.(pc := m.pc + 3 + offset));
  }

  // ---- expressions ----------------------------------------------------------

  /** What running a piece of code is proved to do. */
  ghost predicate Computes(p: Program, m: Machine, k: Machine, sc: Scope, fin: Tables, piece: Piece, dst: nat, next: nat,
                           r: (Value, Store))
  {
    Goes(p, m, k) && Done(m, k, sc, fin, dst, next, Len(piece.code), r.0, r.1)
  }

  /** The code of an expression, run from its first byte, ends at its last with
      the expression's value in the target register and the expression's
      assignments made, and leaves every other register below the free ones. */
  lemma {:induction false} CodeComputes(p: Program, m: Machine, sc: Scope, t: Tables, fin: Tables,
                                        e: Expr, dst: nat, next: nat, s: Store) returns (k: Machine)
    requires TablesOk(sc, t) && Gen(e, sc, t, dst, next).Some?
    requires Ready(p, m, sc, fin, Gen(e, sc, t, dst, next).value, dst, next, s)
    ensures Computes(p, m, k, sc, fin, Gen(e, sc, t, dst, next).value, dst, next, Eval(e, sc, p.callee, s))
    decreases e, 1
  {
    hide Ready, Done, Goes, TablesOk, Load, GenVar, Lookup;
    match e
    case Const(v) => k := ExecLoad(p, m, sc, t, fin, v, dst, next, s);
    case Var(x) => k := ExecVar(p, m, sc, t, fin, x, dst, next, s);
    case SetVar(_, _) => k := SetComputes(p, m, sc, t, fin, e, dst, next, s);
    case If(_, _, _) => k := IfComputes(p, m, sc, t, fin, e, dst, next, s);
    case Begin(es) =>
      if es.Nil? { k := ExecLoad(p, m, sc, t, fin, Void, dst, next, s); }
      else { k := BeginComputes(p, m, sc, t, fin, es, dst, next, s, Void); }
    case And(es) =>
      if es.Nil? { k := ExecLoad(p, m, sc, t, fin, True, dst, next, s); }
      else { k := UntilComputes(p, m, sc, t, fin, es, false, dst, next, s); }
    case Or(es) =>
      if es.Nil? { k := ExecLoad(p, m, sc, t, fin, False, dst, next, s); }
      else { k := UntilComputes(p, m, sc, t, fin, es, true, dst, next, s); }
    case Apply(_, _) => k := ApplyComputes(p, m, sc, t, fin, e, dst, next, s);
  }

  lemma ReadyMeans(p: Program, m: Machine, sc: Scope, fin: Tables, piece: Piece, dst: nat, next: nat, s: Store)
    requires Ready(p, m, sc, fin, piece, dst, next, s)
    ensures Placed(sc, dst, next) && Temps(sc, next) == next <= |m.regs| && Extends(piece.tables, fin)
    ensures fin.maxRegs <= |m.regs| && AllFit(piece.code) && At(p, m.pc, piece.code)
  {
  }

  lemma DoneMeans(m: Machine, k: Machine, sc: Scope, fin: Tables, dst: nat, next: nat, len: nat, v: Value, s: Store)
    requires Done(m, k, sc, fin, dst, next, len, v, s)
    ensures k.pc == m.pc + len && |k.regs| == |m.regs| && Agree(k, sc, fin, s) && dst < |k.regs| && k.regs[dst] == v
  {
  }

  lemma {:induction false} SetComputes(p: Program, m: Machine, sc: Scope, t: Tables, fin: Tables,
                                       e: Expr, dst: nat, next: nat, s: Store) returns (k: Machine)
    requires e.SetVar? && TablesOk(sc, t) && GenSet(e, sc, t, dst, next).Some?
    requires Ready(p, m, sc, fin, GenSet(e, sc, t, dst, next).value, dst, next, s)
    ensures Computes(p, m, k, sc, fin, GenSet(e, sc, t, dst, next).value, dst, next, Eval(e, sc, p.callee, s))
    decreases e, 0
  {
    hide Ready, Done, Goes, TablesOk, Extends, GenStore, At, AllFit, Agree, Gen, Eval, Good;
    var all := GenSet(e, sc, t, dst, next).value;
    ReadyMeans(p, m, sc, fin, all, dst, next, s);
    var r, u := next, Grow(t, next + 1);
    GrowExtends(sc, t, next + 1);
    var a := Gen(e.e, sc, u, r, r + 1).value;
    GenGood(e.e, sc, u, r, r + 1);
    GoodOf(sc, u, a);
    var b := GenStore(e.x, sc, a.tables, dst, r).value;
    StoreGood(sc, a.tables, dst, r, e.x);
    GoodOf(sc, a.tables, b);
    RoomIsThere(u, a.tables, b.tables, fin);
    ReadyFront(p, m, sc, fin, all, dst, next, s, a, b.code, r, r + 1);
    var h := CodeComputes(p, m, sc, u, fin, e.e, r, r + 1, s);
    var (v, s1) := Eval(e.e, sc, p.callee, s);
    DoneMeans(m, h, sc, fin, r, r + 1, Len(a.code), v, s1);
    ReadyAt(p, m, h, sc, fin, all, dst, next, s, b, dst, next, s1);
    k := ExecStore(p, h, sc, a.tables, fin, e.x, dst, r, next, s1);
    GoesOn(p, m, h, k);
    DoneOn(m, h, k, sc, fin, dst, next, r, r + 1, Len(a.code), v, s1, Len(b.code), v, Assign(sc, s1, e.x, v));
    LenAppend(a.code, b.code);
    EvalOfSet(e, sc, p.callee, s);
  }

  lemma EvalOfSet(e: Expr, sc: Scope, callee: Callee, s: Store)
    requires e.SetVar?
    ensures Eval(e, sc, callee, s)
         == (Eval(e.e, sc, callee, s).0, Assign(sc, Eval(e.e, sc, callee, s).1, e.x, Eval(e.e, sc, callee, s).0))
  {
  }

  /** The registers a piece was given are among those of the final function. */
  lemma RoomIsThere(u: Tables, v: Tables, w: Tables, fin: Tables)
    requires Extends(u, v) && Extends(v, w) && Extends(w, fin)
    ensures u.maxRegs <= fin.maxRegs && Extends(v, fin) && Extends(u, w)
  {
  }

  lemma {:induction false} BeginComputes(p: Program, m: Machine, sc: Scope, t: Tables, fin: Tables,
                                         es: Exprs, dst: nat, next: nat, s: Store, last: Value) returns (k: Machine)
    requires es.Cons? && TablesOk(sc, t) && GenBegin(es, sc, t, dst, next).Some?
    requires Ready(p, m, sc, fin, GenBegin(es, sc, t, dst, next).value, dst, next, s)
    ensures Computes(p, m, k, sc, fin, GenBegin(es, sc, t, dst, next).value, dst, next, EvalLast(es, sc, p.callee, s, last))
    decreases es, 0
  {
    hide Ready, Done, Goes, TablesOk, Extends, At, AllFit, Agree, Gen, Eval, Good;
    var all := GenBegin(es, sc, t, dst, next).value;
    ReadyMeans(p, m, sc, fin, all, dst, next, s);
    var a := Gen(es.head, sc, t, dst, next).value;
    var (v, s1) := Eval(es.head, sc, p.callee, s);
    if es.tail.Nil? {
      k := CodeComputes(p, m, sc, t, fin, es.head, dst, next, s);
    } else {
      GenGood(es.head, sc, t, dst, next);
      GoodOf(sc, t, a);
      var b := GenBegin(es.tail, sc, a.tables, dst, next).value;
      BeginGood(es.tail, sc, a.tables, dst, next);
      GoodOf(sc, a.tables, b);
      RoomIsThere(t, a.tables, b.tables, fin);
      ReadyFront(p, m, sc, fin, all, dst, next, s, a, b.code, dst, next);
      var h := CodeComputes(p, m, sc, t, fin, es.head, dst, next, s);
      DoneMeans(m, h, sc, fin, dst, next, Len(a.code), v, s1);
      SameTables(b.tables);
      ReadyAt(p, m, h, sc, fin, all, dst, next, s, b, dst, next, s1);
      k := BeginComputes(p, h, sc, a.tables, fin, es.tail, dst, next, s1, v);
      GoesOn(p, m, h, k);
      var (v2, s2) := EvalLast(es.tail, sc, p.callee, s1, v);
      DoneOn(m, h, k, sc, fin, dst, next, dst, next, Len(a.code), v, s1, Len(b.code), v2, s2);
      LenAppend(a.code, b.code);
    }
  }

  lemma SameTables(t: Tables)
    ensures Extends(t, t)
  {
  }

  lemma BitFits(i: Instr)
    requires Fits(i)
    ensures AllFit([i])
  {
  }

  lemma BothFit(a: seq<Instr>, b: seq<Instr>)
    requires AllFit(a) && AllFit(b)
    ensures AllFit(a + b)
  {
  }

  /** The jump after an operand goes to the end of the form, or on to the rest. */
  lemma {:induction false} UntilComputes(p: Program, m: Machine, sc: Scope, t: Tables, fin: Tables,
                                         es: Exprs, stop: bool, dst: nat, next: nat, s: Store) returns (k: Machine)
    requires es.Cons? && TablesOk(sc, t) && GenUntil(es, stop, sc, t, dst, next).Some?
    requires Ready(p, m, sc, fin, GenUntil(es, stop, sc, t, dst, next).value, dst, next, s)
    ensures Computes(p, m, k, sc, fin, GenUntil(es, stop, sc, t, dst, next).value, dst, next, EvalUntil(es, stop, sc, p.callee, s))
    decreases es, 0
  {
    hide Ready, Done, Goes, TablesOk, Extends, At, AllFit, Agree, Gen, Eval, Good, Len, Computes;
    var all := GenUntil(es, stop, sc, t, dst, next).value;
    ReadyMeans(p, m, sc, fin, all, dst, next, s);
    var a := Gen(es.head, sc, t, dst, next).value;
    var (v, s1) := Eval(es.head, sc, p.callee, s);
    if es.tail.Nil? {
      k := CodeComputes(p, m, sc, t, fin, es.head, dst, next, s);
    } else {
      GenGood(es.head, sc, t, dst, next);
      GoodOf(sc, t, a);
      var b := GenUntil(es.tail, stop, sc, a.tables, dst, next).value;
      UntilGood(es.tail, stop, sc, a.tables, dst, next);
      GoodOf(sc, a.tables, b);
      RoomIsThere(t, a.tables, b.tables, fin);
      var i := JumpIf(stop, dst, Len(b.code));
      BitFits(i);
      BothFit([i], b.code);
      assert a.code + [i] + b.code == a.code + ([i] + b.code);
      ReadyFront(p, m, sc, fin, all, dst, next, s, a, [i] + b.code, dst, next);
      var h := CodeComputes(p, m, sc, t, fin, es.head, dst, next, s);
      ComputesMeans(p, m, h, sc, fin, a, dst, next, v, s1);
      AtSplit(p, h.pc, [i], b.code);
      BranchGoes(p, h, i);
      OneBytes(i);
      LenAppend(a.code, [i] + b.code);
      LenAppend([i], b.code);
      var taken := (v != False) == stop;
      var l := h.(pc := if taken then h.pc + 4 + i.offset else h.pc + 4);
      GoesOn(p, m, h, l);
      DoneMoved(m, h, sc, fin, dst, next, Len(a.code), v, s1, l.pc - m.pc);
      if taken {
        k := l;
        ComputesOf(p, m, k, sc, fin, all, dst, next, (v, s1));
      } else {
        DoneMeans(m, l, sc, fin, dst, next, Len(a.code) + 4, v, s1);
        SameTables(b.tables);
        ReadyAt(p, m, l, sc, fin, all, dst, next, s, b, dst, next, s1);
        k := UntilComputes(p, l, sc, a.tables, fin, es.tail, stop, dst, next, s1);
        var (v2, s2) := EvalUntil(es.tail, stop, sc, p.callee, s1);
        ComputesMeans(p, l, k, sc, fin, b, dst, next, v2, s2);
        GoesOn(p, m, l, k);
        DoneOn(m, l, k, sc, fin, dst, next, dst, next, Len(a.code) + 4, v, s1, Len(b.code), v2, s2);
        ComputesOf(p, m, k, sc, fin, all, dst, next, (v2, s2));
      }
    }
  }

  lemma DoneMoved(m: Machine, k: Machine, sc: Scope, fin: Tables, dst: nat, next: nat, len: nat, v: Value, s: Store, to: nat)
    requires Done(m, k, sc, fin, dst, next, len, v, s)
    ensures Done(m, k.(pc := m.pc + to), sc, fin, dst, next, to, v, s)
  {
  }

  // ---- if -------------------------------------------------------------------

  /** The alternate that is not written is false. */
  function GenRest(rest: Exprs, sc: Scope, t: Tables, dst: nat, next: nat): Option<Piece> {
    if rest.Cons? then Gen(rest.head, sc, t, dst, next) else Load(dst, False, t)
  }

  function EvalRest(rest: Exprs, sc: Scope, callee: Callee, s: Store): (Value, Store) {
    if rest.Cons? then Eval(rest.head, sc, callee, s) else (False, s)
  }

  lemma {:induction false} RestComputes(p: Program, m: Machine, sc: Scope, t: Tables, fin: Tables,
                                        rest: Exprs, dst: nat, next: nat, s: Store) returns (k: Machine)
    requires TablesOk(sc, t) && GenRest(rest, sc, t, dst, next).Some?
    requires Ready(p, m, sc, fin, GenRest(rest, sc, t, dst, next).value, dst, next, s)
    ensures Computes(p, m, k, sc, fin, GenRest(rest, sc, t, dst, next).value, dst, next, EvalRest(rest, sc, p.callee, s))
    decreases rest, 0
  {
    if rest.Cons? {
      k := CodeComputes(p, m, sc, t, fin, rest.head, dst, next, s);
    } else {
      k := ExecLoad(p, m, sc, t, fin, False, dst, next, s);
    }
  }

  lemma {:induction false} RestGood(rest: Exprs, sc: Scope, t: Tables, dst: nat, next: nat)
    requires TablesOk(sc, t) && Placed(sc, dst, next)
    ensures Good(sc, t, GenRest(rest, sc, t, dst, next))
  {
    if rest.Cons? {
      GenGood(rest.head, sc, t, dst, next);
    } else {
      LoadGood(sc, t, dst, False);
    }
  }

  /** The parts of the code of an if. */
  ghost predicate IfParts(e: Expr, sc: Scope, t: Tables, dst: nat, next: nat, a: Piece, b: Piece, c: Piece)
    requires e.If?
  {
    && TablesOk(sc, Grow(t, next + 1)) && TablesOk(sc, a.tables) && TablesOk(sc, b.tables)
    && AllFit(a.code) && AllFit(b.code) && AllFit(c.code)
    && Extends(Grow(t, next + 1), a.tables) && Extends(a.tables, b.tables) && Extends(b.tables, c.tables)
    && Gen(e.test, sc, Grow(t, next + 1), next, next + 1) == Some(a)
    && Gen(e.consequent, sc, a.tables, dst, next) == Some(b)
    && GenRest(e.rest, sc, b.tables, dst, next) == Some(c)
    && Fits(JumpFalse(next, Len(b.code) + 3)) && Fits(Jump(Len(c.code)))
    && next + 1 <= REG_LIMIT
  }

  lemma IfHasParts(e: Expr, sc: Scope, t: Tables, dst: nat, next: nat) returns (a: Piece, b: Piece, c: Piece)
    requires e.If? && TablesOk(sc, t) && Placed(sc, dst, next) && GenIf(e, sc, t, dst, next).Some?
    ensures IfParts(e, sc, t, dst, next, a, b, c)
    ensures GenIf(e, sc, t, dst, next)
         == Some(Piece(a.code + ([JumpFalse(next, Len(b.code) + 3)] + (b.code + ([Jump(Len(c.code))] + c.code))), c.tables))
  {
    hide Gen, Good, AllFit, TablesOk, Extends, Len;
    var u := Grow(t, next + 1);
    GrowExtends(sc, t, next + 1);
    a := Gen(e.test, sc, u, next, next + 1).value;
    GenGood(e.test, sc, u, next, next + 1);
    GoodOf(sc, u, a);
    b := Gen(e.consequent, sc, a.tables, dst, next).value;
    GenGood(e.consequent, sc, a.tables, dst, next);
    GoodOf(sc, a.tables, b);
    RestGood(e.rest, sc, b.tables, dst, next);
    c := GenRest(e.rest, sc, b.tables, dst, next).value;
    GoodOf(sc, b.tables, c);
    Reassociate(a.code, [JumpFalse(next, Len(b.code) + 3)], b.code, [Jump(Len(c.code))], c.code);
  }

  lemma Reassociate<T>(a: seq<T>, b: seq<T>, c: seq<T>, d: seq<T>, e: seq<T>)
    ensures a + b + c + d + e == a + (b + (c + (d + e)))
  {
  }

  lemma {:induction false} IfComputes(p: Program, m: Machine, sc: Scope, t: Tables, fin: Tables,
                                      e: Expr, dst: nat, next: nat, s: Store) returns (k: Machine)
    requires e.If? && TablesOk(sc, t) && GenIf(e, sc, t, dst, next).Some?
    requires Ready(p, m, sc, fin, GenIf(e, sc, t, dst, next).value, dst, next, s)
    ensures Computes(p, m, k, sc, fin, GenIf(e, sc, t, dst, next).value, dst, next, Eval(e, sc, p.callee, s))
    decreases e, 0
  {
    hide Ready, Done, Goes, TablesOk, Extends, At, AllFit, Agree, Gen, Good, GenIf, GenRest, EvalRest, Len, Computes;
    var all := GenIf(e, sc, t, dst, next).value;
    ReadyMeans(p, m, sc, fin, all, dst, next, s);
    var a, b, c := IfHasParts(e, sc, t, dst, next);
    var u := Grow(t, next + 1);
    IfRoom(u, a.tables, b.tables, c.tables, fin);
    GrowExtends(sc, t, next + 1);
    var jf, j := JumpFalse(next, Len(b.code) + 3), Jump(Len(c.code));
    BitFits(jf); BitFits(j); BothFit([j], c.code); BothFit(b.code, [j] + c.code); BothFit([jf], b.code + ([j] + c.code));
    ReadyFront(p, m, sc, fin, all, dst, next, s, a, [jf] + (b.code + ([j] + c.code)), next, next + 1);
    var h := CodeComputes(p, m, sc, u, fin, e.test, next, next + 1, s);
    var (v, s1) := Eval(e.test, sc, p.callee, s);
    ComputesMeans(p, m, h, sc, fin, a, next, next + 1, v, s1);
    AtSplit(p, h.pc, [jf], b.code + ([j] + c.code));
    AtSplit(p, h.pc + Len([jf]), b.code, [j] + c.code);
    AtSplit(p, h.pc + Len([jf]) + Len(b.code), [j], c.code);
    OneBytes(jf); OneBytes(j);
    BranchGoes(p, h, jf);
    var l := h.(pc := if v == False then h.pc + 4 + jf.offset else h.pc + 4);
    GoesOn(p, m, h, l);
    DoneMoved(m, h, sc, fin, next, next + 1, Len(a.code), v, s1, l.pc - m.pc);
    DoneMeans(m, l, sc, fin, next, next + 1, l.pc - m.pc, v, s1);
    IfLen(a.code, [jf], b.code, [j], c.code);
    if v == False {
      ReadyAt(p, m, l, sc, fin, all, dst, next, s, c, dst, next, s1);
      k := RestComputes(p, l, sc, b.tables, fin, e.rest, dst, next, s1);
      var r := EvalRest(e.rest, sc, p.callee, s1);
      ComputesMeans(p, l, k, sc, fin, c, dst, next, r.0, r.1);
      FinishIf(p, m, l, k, sc, fin, all, dst, next, v, s1, r, Len(c.code));
      EvalOfIf(e, sc, p.callee, s);
    } else {
      ReadyAt(p, m, l, sc, fin, all, dst, next, s, b, dst, next, s1);
      var i := CodeComputes(p, l, sc, a.tables, fin, e.consequent, dst, next, s1);
      var r := Eval(e.consequent, sc, p.callee, s1);
      ComputesMeans(p, l, i, sc, fin, b, dst, next, r.0, r.1);
      JumpGoes(p, i, j.offset);
      k := i.(pc := i.pc + 3 + j.offset);
      GoesOn(p, l, i, k);
      DoneMoved(l, i, sc, fin, dst, next, Len(b.code), r.0, r.1, Len(b.code) + 3 + j.offset);
      FinishIf(p, m, l, k, sc, fin, all, dst, next, v, s1, r, Len(b.code) + 3 + j.offset);
      EvalOfIf(e, sc, p.callee, s);
    }
  }

  lemma ComputesMeans(p: Program, m: Machine, k: Machine, sc: Scope, fin: Tables, piece: Piece, dst: nat, next: nat,
                      v: Value, s: Store)
    requires Computes(p, m, k, sc, fin, piece, dst, next, (v, s))
    ensures Goes(p, m, k) && Done(m, k, sc, fin, dst, next, Len(piece.code), v, s)
    ensures k.pc == m.pc + Len(piece.code) && |k.regs| == |m.regs| && Agree(k, sc, fin, s)
    ensures dst < |k.regs| && k.regs[dst] == v
  {
  }

  lemma IfRoom(u: Tables, a: Tables, b: Tables, c: Tables, fin: Tables)
    requires Extends(u, a) && Extends(a, b) && Extends(b, c) && Extends(c, fin)
    ensures u.maxRegs <= fin.maxRegs && Extends(a, c) && Extends(b, c) && Extends(c, c)
  {
  }

  lemma IfLen(a: seq<Instr>, jf: seq<Instr>, b: seq<Instr>, j: seq<Instr>, c: seq<Instr>)
    ensures Len(a + (jf + (b + (j + c)))) == Len(a) + Len(jf) + Len(b) + Len(j) + Len(c)
  {
    LenAppend(a, jf + (b + (j + c)));
    LenAppend(jf, b + (j + c));
    LenAppend(b, j + c);
    LenAppend(j, c);
  }

  lemma EvalOfIf(e: Expr, sc: Scope, callee: Callee, s: Store)
    requires e.If?
    ensures var (v, t) := Eval(e.test, sc, callee, s);
            Eval(e, sc, callee, s) ==
              (if v != False then Eval(e.consequent, sc, callee, t) else EvalRest(e.rest, sc, callee, t))
  {
  }

  /** One branch after the test: the whole form is done. */
  lemma FinishIf(p: Program, m: Machine, l: Machine, k: Machine, sc: Scope, fin: Tables, all: Piece,
                 dst: nat, next: nat, v: Value, s1: Store, r: (Value, Store), len: nat)
    requires Goes(p, m, l) && Goes(p, l, k)
    requires l.pc >= m.pc && Done(m, l, sc, fin, next, next + 1, l.pc - m.pc, v, s1)
    requires Done(l, k, sc, fin, dst, next, len, r.0, r.1)
    requires l.pc - m.pc + len == Len(all.code)
    ensures Computes(p, m, k, sc, fin, all, dst, next, r)
  {
    GoesOn(p, m, l, k);
    DoneOn(m, l, k, sc, fin, dst, next, next, next + 1, l.pc - m.pc, v, s1, len, r.0, r.1);
  }

  // ---- calls ----------------------------------------------------------------

  /** The registers from `reg` on hold the values. */
  predicate Hold(k: Machine, reg: nat, vs: seq<Value>) {
    reg + |vs| <= |k.regs| && k.regs[reg..reg + |vs|] == vs
  }

  lemma {:induction false} EachCount(es: Exprs, sc: Scope, callee: Callee, s: Store)
    ensures |EvalEach(es, sc, callee, s).0| == Count(es)
  {
    if es.Cons? {
      EachCount(es.tail, sc, callee, Eval(es.head, sc, callee, s).1);
    }
  }

  /** What operands leave: their values in consecutive registers. */
  ghost predicate EachDone(m: Machine, k: Machine, sc: Scope, fin: Tables, reg: nat, len: nat, vs: seq<Value>, s: Store) {
    && k.pc == m.pc + len && |k.regs| == |m.regs| && Hold(k, reg, vs) && Agree(k, sc, fin, s)
    && forall r :: |sc.locals| <= r < reg && r < |k.regs| ==> k.regs[r] == m.regs[r]
  }

  lemma EachDoneOn(m: Machine, h: Machine, k: Machine, sc: Scope, fin: Tables, reg: nat, next: nat,
                   len1: nat, v: Value, s1: Store, len2: nat, vs: seq<Value>, s2: Store)
    requires Done(m, h, sc, fin, reg, next, len1, v, s1) && EachDone(h, k, sc, fin, reg + 1, len2, vs, s2)
    requires reg < next && |sc.locals| <= reg
    ensures EachDone(m, k, sc, fin, reg, len1 + len2, [v] + vs, s2)
  {
    assert k.regs[reg] == h.regs[reg] == v;
    assert k.regs[reg..reg + 1 + |vs|] == [k.regs[reg]] + k.regs[reg + 1..reg + 1 + |vs|];
  }

  lemma NoOperands(p: Program, m: Machine, sc: Scope, fin: Tables, reg: nat, s: Store)
    requires Agree(m, sc, fin, s) && reg <= |m.regs|
    ensures Goes(p, m, m) && EachDone(m, m, sc, fin, reg, Len([]), [], s)
  {
    GoesNowhere(p, m);
  }

  lemma {:induction false} EachComputes(p: Program, m: Machine, sc: Scope, t: Tables, fin: Tables,
                                        es: Exprs, reg: nat, next: nat, s: Store) returns (k: Machine)
    requires TablesOk(sc, t) && GenEach(es, sc, t, reg, next).Some?
    requires var all := GenEach(es, sc, t, reg, next).value;
             AllFit(all.code) && At(p, m.pc, all.code) && Extends(all.tables, fin)
    requires TablesOk(sc, fin) && p.consts == fin.consts && Agree(m, sc, fin, s)
    requires |sc.locals| <= reg && reg + Count(es) <= next <= REG_LIMIT && next <= |m.regs|
    ensures Goes(p, m, k)
    ensures EachDone(m, k, sc, fin, reg, Len(GenEach(es, sc, t, reg, next).value.code),
                     EvalEach(es, sc, p.callee, s).0, EvalEach(es, sc, p.callee, s).1)
    decreases es, 0
  {
    hide Ready, Done, Goes, TablesOk, Extends, At, AllFit, Agree, Gen, Eval, Good, Len, EachDone, Hold, Computes;
    if es.Nil? {
      k := m;
      NoOperands(p, m, sc, fin, reg, s);
    } else {
      var all := GenEach(es, sc, t, reg, next).value;
      var a := Gen(es.head, sc, t, reg, next).value;
      GenGood(es.head, sc, t, reg, next);
      GoodOf(sc, t, a);
      var b := GenEach(es.tail, sc, a.tables, reg + 1, next).value;
      EachGood(es.tail, sc, a.tables, reg + 1, next);
      GoodOf(sc, a.tables, b);
      RoomIsThere(t, a.tables, b.tables, fin);
      AtSplit(p, m.pc, a.code, b.code);
      ReadyOf(p, m, sc, fin, a, reg, next, s);
      var h := CodeComputes(p, m, sc, t, fin, es.head, reg, next, s);
      var (v, s1) := Eval(es.head, sc, p.callee, s);
      ComputesMeans(p, m, h, sc, fin, a, reg, next, v, s1);
      k := EachComputes(p, h, sc, a.tables, fin, es.tail, reg + 1, next, s1);
      GoesOn(p, m, h, k);
      var (vs, s2) := EvalEach(es.tail, sc, p.callee, s1);
      EachDoneOn(m, h, k, sc, fin, reg, next, Len(a.code), v, s1, Len(b.code), vs, s2);
      LenAppend(a.code, b.code);
    }
  }

  lemma ReadyOf(p: Program, m: Machine, sc: Scope, fin: Tables, piece: Piece, dst: nat, next: nat, s: Store)
    requires AllFit(piece.code) && At(p, m.pc, piece.code) && Extends(piece.tables, fin) && TablesOk(sc, fin)
    requires p.consts == fin.consts && Placed(sc, dst, next) && next <= |m.regs| && Agree(m, sc, fin, s)
    ensures Ready(p, m, sc, fin, piece, dst, next, s)
  {
  }

  /** The call itself: operator and operands give way to the result. */
  lemma CallGoes(p: Program, m: Machine, sc: Scope, fin: Tables, r: nat, g: Value, vs: seq<Value>, s: Store) returns (k: Machine)
    requires AllFit([Bytecode.Call(r, |vs|)]) && At(p, m.pc, [Bytecode.Call(r, |vs|)])
    requires Agree(m, sc, fin, s) && |sc.locals| <= r && r + |vs| < |m.regs| && m.regs[r] == g && Hold(m, r + 1, vs)
    ensures Goes(p, m, k) && k.pc == m.pc + 3 && |k.regs| == |m.regs|
    ensures k.regs[r] == p.callee(g, vs, s.world).0
    ensures Agree(k, sc, fin, s.(world := p.callee(g, vs, s.world).1))
    ensures forall q :: |sc.locals| <= q < r ==> k.regs[q] == m.regs[q]
  {
    var i := Bytecode.Call(r, |vs|);
    hide Decode, At, AllFit, Bytes, Len;
    AtDecode(p, m.pc, i);
    var (v, w) := p.callee(g, vs, s.world);
    k := m.(world := w, pc := m.pc + 3, regs := m.regs[r := v]);
    assert m.regs[r + 1..r + 1 + |vs|] == vs;
    GoesOneStep(p, m, i, k);
    assert k.regs[..|sc.locals|] == m.regs[..|sc.locals|];
  }

  /** The parts of the code of a call. */
  ghost predicate ApplyParts(e: Expr, sc: Scope, t: Tables, next: nat, a: Piece, b: Piece)
    requires e.Apply?
  {
    var n := Count(e.args);
    && TablesOk(sc, Grow(t, next + n + 1)) && TablesOk(sc, a.tables) && AllFit(a.code) && AllFit(b.code)
    && Extends(Grow(t, next + n + 1), a.tables) && Extends(a.tables, b.tables)
    && Gen(e.f, sc, Grow(t, next + n + 1), next, next + n + 1) == Some(a)
    && GenEach(e.args, sc, a.tables, next + 1, next + n + 1) == Some(b)
    && next + n + 1 <= REG_LIMIT && n <= MAX_ARGS
  }

  lemma ApplyHasParts(e: Expr, sc: Scope, t: Tables, dst: nat, next: nat) returns (a: Piece, b: Piece)
    requires e.Apply? && TablesOk(sc, t) && Placed(sc, dst, next) && GenApply(e, sc, t, dst, next).Some?
    ensures ApplyParts(e, sc, t, next, a, b)
    ensures GenApply(e, sc, t, dst, next)
         == Some(Piece(a.code + (b.code + ([Bytecode.Call(next, Count(e.args))] + [Move(dst, next)])), b.tables))
  {
    hide Gen, Good, AllFit, TablesOk, Extends;
    var n := Count(e.args);
    var u := Grow(t, next + n + 1);
    GrowExtends(sc, t, next + n + 1);
    a := Gen(e.f, sc, u, next, next + n + 1).value;
    GenGood(e.f, sc, u, next, next + n + 1);
    GoodOf(sc, u, a);
    b := GenEach(e.args, sc, a.tables, next + 1, next + n + 1).value;
    EachGood(e.args, sc, a.tables, next + 1, next + n + 1);
    GoodOf(sc, a.tables, b);
    Reassociate(a.code, b.code, [Bytecode.Call(next, n)], [Move(dst, next)], []);
    assert [Move(dst, next)] + [] == [Move(dst, next)];
    assert a.code + b.code + [Bytecode.Call(next, n)] + [Move(dst, next)] + []
        == a.code + b.code + [Bytecode.Call(next, n)] + [Move(dst, next)];
  }

  lemma EvalOfApply(e: Expr, sc: Scope, callee: Callee, s: Store)
    requires e.Apply?
    ensures var (g, t) := Eval(e.f, sc, callee, s);
            var (vs, u) := EvalEach(e.args, sc, callee, t);
            Eval(e, sc, callee, s) == (callee(g, vs, u.world).0, u.(world := callee(g, vs, u.world).1))
  {
  }

  lemma {:induction false} ApplyComputes(p: Program, m: Machine, sc: Scope, t: Tables, fin: Tables,
                                         e: Expr, dst: nat, next: nat, s: Store) returns (k: Machine)
    requires e.Apply? && TablesOk(sc, t) && GenApply(e, sc, t, dst, next).Some?
    requires Ready(p, m, sc, fin, GenApply(e, sc, t, dst, next).value, dst, next, s)
    ensures Computes(p, m, k, sc, fin, GenApply(e, sc, t, dst, next).value, dst, next, Eval(e, sc, p.callee, s))
    decreases e, 0
  {
    hide Ready, Done, Goes, TablesOk, Extends, At, AllFit, Agree, Gen, Good, GenApply, GenEach, EvalEach, Eval, Len, Computes,
         EachDone, Hold;
    var all := GenApply(e, sc, t, dst, next).value;
    ReadyMeans(p, m, sc, fin, all, dst, next, s);
    var a, b := ApplyHasParts(e, sc, t, dst, next);
    var n := Count(e.args);
    var u := Grow(t, next + n + 1);
    GrowExtends(sc, t, next + n + 1);
    RoomIsThere(u, a.tables, b.tables, fin);
    var call, move := Bytecode.Call(next, n), Move(dst, next);
    BitFits(call); BitFits(move); BothFit([call], [move]); BothFit(b.code, [call] + [move]);
    ReadyFront(p, m, sc, fin, all, dst, next, s, a, b.code + ([call] + [move]), next, next + n + 1);
    var h := CodeComputes(p, m, sc, u, fin, e.f, next, next + n + 1, s);
    var (g, s1) := Eval(e.f, sc, p.callee, s);
    ComputesMeans(p, m, h, sc, fin, a, next, next + n + 1, g, s1);
    AtSplit(p, h.pc, b.code, [call] + [move]);
    AtSplit(p, h.pc + Len(b.code), [call], [move]);
    OneBytes(call); OneBytes(move);
    FinalTables(p, m, sc, fin, all, dst, next, s);
    var i := EachComputes(p, h, sc, a.tables, fin, e.args, next + 1, next + n + 1, s1);
    var (vs, s2) := EvalEach(e.args, sc, p.callee, s1);
    EachCount(e.args, sc, p.callee, s1);
    EachMeans(h, i, sc, fin, next, Len(b.code), vs, s2);
    GoesOn(p, m, h, i);
    var j := CallGoes(p, i, sc, fin, next, g, vs, s2);
    GoesOn(p, m, i, j);
    var s3 := s2.(world := p.callee(g, vs, s2.world).1);
    MoveDone(p, j, sc, fin, dst, next, next, s3);
    k := j.(pc := j.pc + 3, regs := j.regs[dst := j.regs[next]]);
    GoesOn(p, m, j, k);
    IfLen(a.code, b.code, [call], [move], []);
    NoCode();
    assert [move] + [] == [move];
    OthersKept(m, h, i, j, k, sc, fin, dst, next, n, Len(a.code), g, s1, Len(b.code), vs, s2, j.regs[next], s3);
    EvalOfApply(e, sc, p.callee, s);
    ComputesOf(p, m, k, sc, fin, all, dst, next, Eval(e, sc, p.callee, s));
  }

  lemma NoCode()
    ensures Len([]) == 0
  {
  }

  lemma FinalTables(p: Program, m: Machine, sc: Scope, fin: Tables, piece: Piece, dst: nat, next: nat, s: Store)
    requires Ready(p, m, sc, fin, piece, dst, next, s)
    ensures TablesOk(sc, fin) && p.consts == fin.consts
  {
  }

  lemma EachMeans(h: Machine, i: Machine, sc: Scope, fin: Tables, r: nat, len: nat, vs: seq<Value>, s: Store)
    requires EachDone(h, i, sc, fin, r + 1, len, vs, s) && |sc.locals| <= r < |h.regs|
    ensures i.pc == h.pc + len && |i.regs| == |h.regs| && Hold(i, r + 1, vs) && Agree(i, sc, fin, s)
    ensures i.regs[r] == h.regs[r] && r + |vs| < |i.regs|
  {
  }

  lemma ComputesOf(p: Program, m: Machine, k: Machine, sc: Scope, fin: Tables, piece: Piece, dst: nat, next: nat,
                   r: (Value, Store))
    requires Goes(p, m, k) && Done(m, k, sc, fin, dst, next, Len(piece.code), r.0, r.1)
    ensures Computes(p, m, k, sc, fin, piece, dst, next, r)
  {
  }

  /** Operator, operands, call and move together leave every other register. */
  lemma OthersKept(m: Machine, h: Machine, i: Machine, j: Machine, k: Machine, sc: Scope, fin: Tables, dst: nat, next: nat,
                   n: nat, len1: nat, g: Value, s1: Store, len2: nat, vs: seq<Value>, s2: Store, v: Value, s3: Store)
    requires Done(m, h, sc, fin, next, next + n + 1, len1, g, s1)
    requires EachDone(h, i, sc, fin, next + 1, len2, vs, s2)
    requires j.pc == i.pc + 3 && |j.regs| == |i.regs| && next < |j.regs|
    requires forall q :: |sc.locals| <= q < next ==> j.regs[q] == i.regs[q]
    requires Done(j, k, sc, fin, dst, next, 3, v, s3)
    ensures Done(m, k, sc, fin, dst, next, len1 + len2 + 6, v, s3)
  {
  }
}
