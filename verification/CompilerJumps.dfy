/** Every jump of the generated code lands on the start of an instruction, or on
    the end of the code. */
module CompilerJumps {
  import opened Bytecode
  import opened CompilerSpec
  import opened CompilerProofs
  import opened CompilerMeaning

  /** A position between two instructions. */
  ghost predicate Boundary(ins: seq<Instr>, pos: int) {
    exists j :: 0 <= j <= |ins| && Len(ins[..j]) == pos
  }

  predicate IsJump(i: Instr) {
    i.Jump? || i.JumpFalse? || i.JumpTrue?
  }

  ghost predicate Lands(ins: seq<Instr>, k: int)
    requires 0 <= k < |ins|
  {
    IsJump(ins[k]) ==> Boundary(ins, Len(ins[..k + 1]) + ins[k].offset)
  }

  ghost predicate JumpsLand(ins: seq<Instr>) {
    forall k :: 0 <= k < |ins| ==> Lands(ins, k)
  }

  lemma BytesAround(a: seq<Instr>, i: Instr, b: seq<Instr>)
    requires AllFit(a) && AllFit([i]) && AllFit(b)
    ensures AllFit(a + ([i] + b)) && Fits(i)
    ensures Bytes(a + ([i] + b)) == Bytes(a) + Encode(i) + Bytes(b) && |Bytes(a)| == Len(a)
  {
    hide AllFit, Fits, Encode, Bytes, Len;
    OneBytes(i);
    BytesAppend([i], b);
    BytesAppend(a, [i] + b);
    LenIsSize(a);
    assert Bytes(a) + (Encode(i) + Bytes(b)) == Bytes(a) + Encode(i) + Bytes(b);
  }

  lemma SplitsAt<T>(xs: seq<T>, j: nat)
    requires j < |xs|
    ensures xs == xs[..j] + ([xs[j]] + xs[j + 1..])
  {
  }

  /** The machine fetches exactly the generated instructions: at a boundary it
      decodes the instruction that starts there. */
  lemma BoundaryDecodes(ins: seq<Instr>, j: nat)
    requires AllFit(ins) && j < |ins|
    ensures Decode(Bytes(ins), Len(ins[..j])) == Some(ins[j])
  {
    var a, i, b := ins[..j], ins[j], ins[j + 1..];
    hide AllFit, Fits, Encode, Decode, Bytes, Len;
    SplitsAt(ins, j);
    PartsFit(a, i, b);
    BytesAround(a, i, b);
    DecodeEncode(Bytes(a), i, Bytes(b));
  }

  lemma PartsFit(a: seq<Instr>, i: Instr, b: seq<Instr>)
    requires AllFit(a + ([i] + b))
    ensures AllFit(a) && AllFit([i]) && AllFit(b)
  {
    var all := a + ([i] + b);
    assert forall k :: 0 <= k < |a| ==> all[k] == a[k];
    assert all[|a|] == i;
    assert forall k :: 0 <= k < |b| ==> all[|a| + 1 + k] == b[k];
  }

  lemma BoundaryAfter(a: seq<Instr>, b: seq<Instr>, pos: int)
    requires Boundary(b, pos)
    ensures Boundary(a + b, Len(a) + pos)
  {
    var j :| 0 <= j <= |b| && Len(b[..j]) == pos;
    assert (a + b)[..|a| + j] == a + b[..j];
    LenAppend(a, b[..j]);
  }

  lemma BoundaryBefore(a: seq<Instr>, b: seq<Instr>, pos: int)
    requires Boundary(a, pos)
    ensures Boundary(a + b, pos)
  {
    var j :| 0 <= j <= |a| && Len(a[..j]) == pos;
    assert (a + b)[..j] == a[..j];
  }

  lemma BoundaryEnd(a: seq<Instr>)
    ensures Boundary(a, Len(a))
  {
    assert a[..|a|] == a;
  }

  lemma BothLand(a: seq<Instr>, b: seq<Instr>)
    requires JumpsLand(a) && JumpsLand(b)
    ensures JumpsLand(a + b)
  {
    hide Boundary, Len;
    forall k | 0 <= k < |a + b| ensures Lands(a + b, k) {
      if IsJump((a + b)[k]) {
        if k < |a| {
          assert Lands(a, k);
          assert (a + b)[..k + 1] == a[..k + 1];
          BoundaryBefore(a, b, Len(a[..k + 1]) + a[k].offset);
        } else {
          var j := k - |a|;
          assert Lands(b, j);
          assert (a + b)[..k + 1] == a + b[..j + 1];
          LenAppend(a, b[..j + 1]);
          BoundaryAfter(a, b, Len(b[..j + 1]) + b[j].offset);
        }
      }
    }
  }

  /** A jump over what follows it, up to a boundary there. */
  lemma JumpOver(i: Instr, rest: seq<Instr>)
    requires IsJump(i) && Boundary(rest, i.offset) && JumpsLand(rest)
    ensures JumpsLand([i] + rest)
  {
    hide Boundary;
    assert [i][..0] == [];
    assert Len([i]) == Size(i);
    var all := [i] + rest;
    forall k | 0 <= k < |all| ensures Lands(all, k) {
      if k == 0 {
        assert all[..1] == [i];
        BoundaryAfter([i], rest, i.offset);
      } else if IsJump(all[k]) {
        assert Lands(rest, k - 1);
        assert all[..k + 1] == [i] + rest[..k];
        LenAppend([i], rest[..k]);
        BoundaryAfter([i], rest, Len(rest[..k]) + rest[k - 1].offset);
      }
    }
  }

  lemma NoJumps(ins: seq<Instr>)
    requires forall i <- ins :: !IsJump(i)
    ensures JumpsLand(ins)
  {
  }

  ghost predicate AllLand(p: Option<Piece>) {
    p.Some? ==> JumpsLand(p.value.code)
  }

  lemma {:induction false} GeneratedJumpsLand(e: Expr, sc: Scope, t: Tables, dst: nat, next: nat)
    ensures AllLand(Gen(e, sc, t, dst, next))
    decreases e, 1
  {
    match e
    case SetVar(_, _) => SetLands(e, sc, t, dst, next);
    case If(_, _, _) => IfLands(e, sc, t, dst, next);
    case Begin(es) => if es.Cons? { BeginLands(es, sc, t, dst, next); }
    case And(es) => if es.Cons? { UntilLands(es, false, sc, t, dst, next); }
    case Or(es) => if es.Cons? { UntilLands(es, true, sc, t, dst, next); }
    case Apply(_, _) => ApplyLands(e, sc, t, dst, next);
    case _ =>
  }

  lemma {:induction false} SetLands(e: Expr, sc: Scope, t: Tables, dst: nat, next: nat)
    requires e.SetVar?
    ensures AllLand(GenSet(e, sc, t, dst, next))
    decreases e, 0
  {
    if GenSet(e, sc, t, dst, next).Some? {
      var r := Temps(sc, next);
      GeneratedJumpsLand(e.e, sc, Grow(t, r + 1), r, r + 1);
      var a := Gen(e.e, sc, Grow(t, r + 1), r, r + 1).value;
      var b := GenStore(e.x, sc, a.tables, dst, r).value;
      NoJumps(b.code);
      hide JumpsLand;
      BothLand(a.code, b.code);
    }
  }

  lemma {:induction false} IfLands(e: Expr, sc: Scope, t: Tables, dst: nat, next: nat)
    requires e.If?
    ensures AllLand(GenIf(e, sc, t, dst, next))
    decreases e, 0
  {
    if GenIf(e, sc, t, dst, next).Some? {
      hide JumpsLand, Gen;
      var r := Temps(sc, next);
      GeneratedJumpsLand(e.test, sc, Grow(t, r + 1), r, r + 1);
      var a := Gen(e.test, sc, Grow(t, r + 1), r, r + 1).value;
      GeneratedJumpsLand(e.consequent, sc, a.tables, dst, r);
      var b := Gen(e.consequent, sc, a.tables, dst, r).value;
      RestLands(e.rest, sc, b.tables, dst, r);
      var c := GenRest(e.rest, sc, b.tables, dst, r).value;
      IfCodeLands(r, a.code, b.code, c.code);
      assert GenIf(e, sc, t, dst, next) == JoinIf(r, a, b, c);
    }
  }

  lemma {:induction false} RestLands(rest: Exprs, sc: Scope, t: Tables, dst: nat, next: nat)
    ensures AllLand(GenRest(rest, sc, t, dst, next))
    decreases rest, 0
  {
    if rest.Cons? {
      GeneratedJumpsLand(rest.head, sc, t, dst, next);
    } else if GenRest(rest, sc, t, dst, next).Some? {
      NoJumps(GenRest(rest, sc, t, dst, next).value.code);
    }
  }

  lemma IfCodeLands(r: nat, a: seq<Instr>, b: seq<Instr>, c: seq<Instr>)
    requires JumpsLand(a) && JumpsLand(b) && JumpsLand(c)
    ensures JumpsLand(a + [JumpFalse(r, Len(b) + 3)] + b + [Jump(Len(c))] + c)
  {
    hide JumpsLand, Boundary;
    var jf, j := JumpFalse(r, Len(b) + 3), Jump(Len(c));
    BoundaryEnd(c);
    JumpOver(j, c);
    BothLand(b, [j] + c);
    assert [j][..0] == [];
    LenAppend(b, [j]);
    BoundaryEnd(b + [j]);
    BoundaryBefore(b + [j], c, Len(b) + 3);
    assert (b + [j]) + c == b + ([j] + c);
    JumpOver(jf, b + ([j] + c));
    BothLand(a, [jf] + (b + ([j] + c)));
    Reassociate(a, [jf], b, [j], c);
  }

  lemma {:induction false} BeginLands(es: Exprs, sc: Scope, t: Tables, dst: nat, next: nat)
    requires es.Cons?
    ensures AllLand(GenBegin(es, sc, t, dst, next))
    decreases es, 0
  {
    if GenBegin(es, sc, t, dst, next).Some? {
      hide JumpsLand;
      GeneratedJumpsLand(es.head, sc, t, dst, next);
      var a := Gen(es.head, sc, t, dst, next).value;
      if es.tail.Cons? {
        BeginLands(es.tail, sc, a.tables, dst, next);
        BothLand(a.code, GenBegin(es.tail, sc, a.tables, dst, next).value.code);
      }
    }
  }

  lemma {:induction false} UntilLands(es: Exprs, stop: bool, sc: Scope, t: Tables, dst: nat, next: nat)
    requires es.Cons?
    ensures AllLand(GenUntil(es, stop, sc, t, dst, next))
    decreases es, 0
  {
    if GenUntil(es, stop, sc, t, dst, next).Some? {
      hide JumpsLand, Boundary;
      GeneratedJumpsLand(es.head, sc, t, dst, next);
      var a := Gen(es.head, sc, t, dst, next).value;
      if es.tail.Cons? {
        UntilLands(es.tail, stop, sc, a.tables, dst, next);
        var b := GenUntil(es.tail, stop, sc, a.tables, dst, next).value;
        var i := JumpIf(stop, dst, Len(b.code));
        BoundaryEnd(b.code);
        JumpOver(i, b.code);
        BothLand(a.code, [i] + b.code);
        assert a.code + [i] + b.code == a.code + ([i] + b.code);
      }
    }
  }

  lemma {:induction false} ApplyLands(e: Expr, sc: Scope, t: Tables, dst: nat, next: nat)
    requires e.Apply?
    ensures AllLand(GenApply(e, sc, t, dst, next))
    decreases e, 0
  {
    if GenApply(e, sc, t, dst, next).Some? {
      hide JumpsLand, Gen, GenEach;
      var r, n := Temps(sc, next), Count(e.args);
      GeneratedJumpsLand(e.f, sc, Grow(t, r + n + 1), r, r + n + 1);
      var a := Gen(e.f, sc, Grow(t, r + n + 1), r, r + n + 1).value;
      EachLands(e.args, sc, a.tables, r + 1, r + n + 1);
      var b := GenEach(e.args, sc, a.tables, r + 1, r + n + 1).value;
      var c, d := [Bytecode.Call(r, n)], if dst != r then [Move(dst, r)] else [];
      NoJumps(c);
      NoJumps(d);
      BothLand(a.code, b.code);
      BothLand(a.code + b.code, c);
      BothLand(a.code + b.code + c, d);
    }
  }

  lemma {:induction false} EachLands(es: Exprs, sc: Scope, t: Tables, reg: nat, next: nat)
    ensures AllLand(GenEach(es, sc, t, reg, next))
    decreases es, 0
  {
    if es.Cons? && GenEach(es, sc, t, reg, next).Some? {
      hide JumpsLand;
      GeneratedJumpsLand(es.head, sc, t, reg, next);
      var a := Gen(es.head, sc, t, reg, next).value;
      EachLands(es.tail, sc, a.tables, reg + 1, next);
      BothLand(a.code, GenEach(es.tail, sc, a.tables, reg + 1, next).value.code);
    }
  }
}
