/** The code of expressions has no control flow of its own, and what it pushes it pops. */
module Plain {
  import opened Words
  import opened Il
  import opened Ast
  import opened Compile

  predicate IsPlain(op: Op) {
    IsBinary(op) || op.Not? || op.Negate? || op.LoadNumericConstant? || op.GetVarAddr? || op.ReadAddr? || op.WriteAddr?
    || op.Push? || op.Pop? || op.FunctionCall? || op.PointerCall?
  }

  predicate AllPlain(code: seq<Instr>) {
    forall k :: 0 <= k < |code| ==> IsPlain(code[k].op)
  }

  function Pushed(op: Op): int {
    if op.Push? then 1 else if op.Pop? then -1 else 0
  }

  /** Values pushed less values popped. */
  function Net(code: seq<Instr>): int {
    if code == [] then 0 else Net(code[..|code| - 1]) + Pushed(code[|code| - 1].op)
  }

  predicate Balance(code: seq<Instr>, n: int) {
    AllPlain(code) && Net(code) == n
  }

  lemma {:induction false} NetJoin(a: seq<Instr>, b: seq<Instr>)
    ensures Net(a + b) == Net(a) + Net(b)
    decreases |b|
  {
    if b == [] {
      assert a + b == a;
    } else {
      NetJoin(a, b[..|b| - 1]);
      assert (a + b)[..|a + b| - 1] == a + b[..|b| - 1];
    }
  }

  lemma Join(a: seq<Instr>, b: seq<Instr>, m: int, n: int)
    requires Balance(a, m) && Balance(b, n)
    ensures Balance(a + b, m + n)
  {
    hide IsPlain, Net;
    NetJoin(a, b);
  }

  lemma One(ins: Instr)
    requires IsPlain(ins.op)
    ensures Balance([ins], Pushed(ins.op))
  {
    hide IsPlain;
    assert [ins][..0] == [];
    assert Net([]) == 0;
  }

  lemma Nothing()
    ensures Balance([], 0)
  {
  }

  /** Plain code without pushes and pops. */
  lemma {:induction false} Flat(code: seq<Instr>)
    requires AllPlain(code) && forall k :: 0 <= k < |code| ==> Pushed(code[k].op) == 0
    ensures Balance(code, 0)
    decreases |code|
  {
    hide IsPlain;
    if code != [] { Flat(code[..|code| - 1]); }
  }

  lemma {:induction false} PushesPlain(k: nat, n: nat)
    requires k <= n
    ensures Balance(Pushes(k, n), n - k)
    decreases n - k
  {
    hide Balance;
    if k < n {
      PushesPlain(k + 1, n);
      One(Ins(Push, k));
      Join([Ins(Push, k)], Pushes(k + 1, n), 1, n - k - 1);
    } else {
      Nothing();
    }
  }

  lemma {:induction false} PopsPlain(n: nat)
    ensures Balance(Pops(n), 0 - n)
  {
    hide Balance;
    if n > 0 {
      PopsPlain(n - 1);
      One(Ins(Pop, n - 1));
      Join([Ins(Pop, n - 1)], Pops(n - 1), -1, 1 - n);
    } else {
      Nothing();
    }
  }

  lemma ApplyPlain(op: BinaryOp, p: nat)
    ensures Balance(Apply(op, p), -2)
  {
    hide Balance;
    One(Ins(Pop, p + 1));
    One(Ins(Pop, p));
    One(Ins2(op, p, p + 1));
    Join([Ins(Pop, p + 1)], [Ins(Pop, p)], -1, -1);
    Join([Ins(Pop, p + 1)] + [Ins(Pop, p)], [Ins2(op, p, p + 1)], -2, 0);
    assert [Ins(Pop, p + 1)] + [Ins(Pop, p)] + [Ins2(op, p, p + 1)] == Apply(op, p);
  }

  lemma {:induction false} ReducePlain(ops: seq<BinaryOp>, op: Op, p: nat)
    ensures forall k :: 0 <= k < |Reduced(ops, op)| ==> IsBinary(Reduced(ops, op)[k])
    ensures |Reduced(ops, op)| <= |ops| && Balance(CReduce(ops, op, p), |Reduced(ops, op)| - |ops|)
    decreases |ops|
  {
    hide Balance, Priority, Apply;
    if ops != [] && Priority(ops[|ops| - 1]) >= Priority(op) {
      var top, init := ops[|ops| - 1], ops[..|ops| - 1];
      ReducePlain(init, op, p);
      ApplyPlain(top, p);
      One(Ins(Push, p));
      Join(Apply(top, p), [Ins(Push, p)], -2, 1);
      Join(Apply(top, p) + [Ins(Push, p)], CReduce(init, op, p), -1, |Reduced(init, op)| - |init|);
    } else {
      Nothing();
    }
  }

  lemma {:induction false} UnwindPlain(ops: seq<BinaryOp>, p: nat)
    requires ops != []
    ensures Balance(CUnwind(ops, p), -1 - |ops|)
    decreases |ops|
  {
    hide Balance, Apply;
    var top, init := ops[|ops| - 1], ops[..|ops| - 1];
    ApplyPlain(top, p);
    if |ops| > 1 {
      UnwindPlain(init, p);
      One(Ins(Push, p));
      Join(Apply(top, p), [Ins(Push, p)], -2, 1);
      Join(Apply(top, p) + [Ins(Push, p)], CUnwind(init, p), -1, -|ops|);
    }
  }

  /** With the operators `ops` waiting there is one value more than operators on the stack. */
  lemma {:induction false} ChainPlain(ops: seq<BinaryOp>, rest: seq<Term>, p: nat)
    requires ops != []
    ensures Balance(CChain(ops, rest, p), -1 - |ops|)
    decreases rest, 0
  {
    hide Balance, CReduce, CTerm, CUnwind, Reduced;
    if rest == [] {
      UnwindPlain(ops, p);
    } else {
      var op := rest[0].op;
      var reduced := Reduced(ops, op);
      ReducePlain(ops, op, p);
      TermPlain(rest[0], p);
      One(Ins(Push, p));
      Join(CReduce(ops, op, p), CTerm(rest[0], p), |reduced| - |ops|, 0);
      Join(CReduce(ops, op, p) + CTerm(rest[0], p), [Ins(Push, p)], |reduced| - |ops|, 1);
      ChainPlain(reduced + [op], rest[1..], p);
      Join(CReduce(ops, op, p) + CTerm(rest[0], p) + [Ins(Push, p)], CChain(reduced + [op], rest[1..], p),
           |reduced| - |ops| + 1, -2 - |reduced|);
    }
  }

  lemma {:induction false} TermPlain(t: Term, p: nat)
    ensures Balance(CTerm(t, p), 0)
    decreases t, 0
  {
    OperandPlain(t.operand, p);
  }

  lemma {:induction false} ExprPlain(e: Expr, p: nat)
    ensures Balance(CExpr(e, p), 0)
    decreases e, 0
  {
    hide Balance, COperand, CTerm, CChain;
    OperandPlain(e.first, p);
    if |e.rest| > 0 {
      var op, t := e.rest[0].op, e.rest[0];
      var two := COperand(e.first, p) + CTerm(t, p + 1);
      TermPlain(t, p + 1);
      Join(COperand(e.first, p), CTerm(t, p + 1), 0, 0);
      if |e.rest| == 1 {
        One(Ins2(op, p, p + 1));
        Join(two, [Ins2(op, p, p + 1)], 0, 0);
      } else {
        PushTwo(p);
        ChainPlain([op], e.rest[1..], p);
        Join(two, [Ins(Push, p), Ins(Push, p + 1)], 0, 2);
        Join(two + [Ins(Push, p), Ins(Push, p + 1)], CChain([op], e.rest[1..], p), 2, -2);
      }
    }
  }

  lemma PushTwo(p: nat)
    ensures Balance([Ins(Push, p), Ins(Push, p + 1)], 2)
  {
    hide Balance;
    Pair(Ins(Push, p), Ins(Push, p + 1));
  }

  lemma {:induction false} ArgsPlain(args: seq<Expr>, k: nat)
    ensures Balance(CArgs(args, k), 0)
    decreases args, 0
  {
    hide Balance, CExpr;
    if args != [] {
      ExprPlain(args[0], k);
      ArgsPlain(args[1..], k + 1);
      Join(CExpr(args[0], k), CArgs(args[1..], k + 1), 0, 0);
    } else {
      Nothing();
    }
  }

  lemma {:induction false} PointerCallPlain(args: seq<Expr>, p: nat)
    ensures Balance(CPointerCall(args, p), 0)
    decreases args, 1
  {
    hide Balance, CArgs, Pushes, Pops;
    var pop, call := Ins(Pop, POINTER_REG), Ins2(PointerCall, p, POINTER_REG);
    PushesPlain(0, p);
    PopsPlain(p);
    ArgsPlain(args, 0);
    One(Ins(Push, p));
    One(pop);
    One(call);
    Join(Pushes(0, p), [Ins(Push, p)], p, 1);
    Join(Pushes(0, p) + [Ins(Push, p)], CArgs(args, 0), p + 1, 0);
    Join([pop], [call], -1, 0);
    assert [pop] + [call] == [pop, call];
    Join(Pushes(0, p) + [Ins(Push, p)] + CArgs(args, 0), [pop, call], p + 1, -1);
    Join(Pushes(0, p) + [Ins(Push, p)] + CArgs(args, 0) + [pop, call], Pops(p), p, 0 - p);
  }

  lemma ScaledPlain(p: nat, size: int)
    ensures Balance(Scaled(p, size), 0)
  {
    Flat(Scaled(p, size));
  }

  lemma {:induction false} IndexesPlain(lv: LValue, indexes: seq<Expr>, p: nat)
    ensures Balance(CIndexes(lv, indexes, p), 0)
    decreases indexes, 0
  {
    hide Balance, CExpr, Scaled;
    Nothing();
    if indexes != [] {
      var read := if lv.isPointer != 0 then [Read(p, p, PTR_SIZE)] else [];
      var scaled := Scaled(p, if lv.isPointer <= 1 then lv.tsize else PTR_SIZE);
      One(Read(p, p, PTR_SIZE));
      ExprPlain(indexes[0], p + 1);
      ScaledPlain(p, if lv.isPointer <= 1 then lv.tsize else PTR_SIZE);
      IndexesPlain(lv, indexes[1..], p);
      Join(read, CExpr(indexes[0], p + 1), 0, 0);
      Join(read + CExpr(indexes[0], p + 1), scaled, 0, 0);
      Join(read + CExpr(indexes[0], p + 1) + scaled, CIndexes(lv, indexes[1..], p), 0, 0);
    }
  }

  lemma {:induction false} LValuePlain(lv: LValue, p: nat)
    ensures Balance(CLValue(lv, p), 0)
    decreases lv, 0
  {
    hide Balance, CIndexes;
    IndexesPlain(lv, lv.indexes, p);
    One(Named(GetVarAddr, p, lv.name));
    Join([Named(GetVarAddr, p, lv.name)], CIndexes(lv, lv.indexes, p), 0, 0);
  }

  lemma PrefixPlain(prefix: Option<BinaryOp>, p: nat, size: int)
    ensures Balance(CPrefix(prefix, p, size), 0)
  {
    hide Balance, IsBinary;
    match prefix
    case None => Nothing();
    case Some(op) =>
      BinaryPlain(op);
      Pair(Read(p + 1, p, size), Const(p + 2, 1));
      Pair(Ins2(op, p + 1, p + 2), Write(p + 1, p, size));
      Join([Read(p + 1, p, size), Const(p + 2, 1)], [Ins2(op, p + 1, p + 2), Write(p + 1, p, size)], 0, 0);
      assert [Read(p + 1, p, size), Const(p + 2, 1)] + [Ins2(op, p + 1, p + 2), Write(p + 1, p, size)]
          == CPrefix(prefix, p, size);
  }

  lemma PostfixPlain(op: BinaryOp, p: nat, size: int)
    ensures Balance(CPostfix(op, p, size), 0)
  {
    hide Balance, IsBinary, IsPlain;
    var read, push, pop := Read(p + 1, p, size), Ins(Push, p + 1), Ins(Pop, p);
    var change := [Const(p + 2, 1), Ins2(op, p + 1, p + 2), Write(p + 1, p, size)];
    ChangePlain(op, p, size);
    StackOps(p);
    One(read);
    One(push);
    One(pop);
    Join([read], [push], 0, 1);
    Join([read] + [push], change, 1, 0);
    Join([read] + [push] + change, [pop], 1, -1);
    assert [read] + [push] + change + [pop] == CPostfix(op, p, size);
  }

  lemma StackOps(p: nat)
    ensures IsPlain(Push) && IsPlain(Pop) && IsPlain(ReadAddr)
  {
  }

  lemma ChangePlain(op: BinaryOp, p: nat, size: int)
    ensures Balance([Const(p + 2, 1), Ins2(op, p + 1, p + 2), Write(p + 1, p, size)], 0)
  {
    hide IsBinary, Balance;
    BinaryPlain(op);
    One(Const(p + 2, 1));
    Pair(Ins2(op, p + 1, p + 2), Write(p + 1, p, size));
    Join([Const(p + 2, 1)], [Ins2(op, p + 1, p + 2), Write(p + 1, p, size)], 0, 0);
    assert [Const(p + 2, 1)] + [Ins2(op, p + 1, p + 2), Write(p + 1, p, size)]
        == [Const(p + 2, 1), Ins2(op, p + 1, p + 2), Write(p + 1, p, size)];
  }

  lemma BinaryPlain(op: BinaryOp)
    ensures IsPlain(op) && Pushed(op) == 0
  {
  }

  lemma Pair(a: Instr, b: Instr)
    requires IsPlain(a.op) && IsPlain(b.op)
    ensures Balance([a, b], Pushed(a.op) + Pushed(b.op))
  {
    hide IsPlain, Balance;
    One(a);
    One(b);
    Join([a], [b], Pushed(a.op), Pushed(b.op));
    assert [a] + [b] == [a, b];
  }

  lemma {:induction false} SuffixPlain(lv: LValue, prefix: Option<BinaryOp>, suffix: Suffix, p: nat)
    ensures Balance(CSuffix(lv, prefix, suffix, p), 0)
    decreases suffix, 0
  {
    hide Balance, CPrefix, CPostfix, COperand, Scaled, LvSize, IsReference;
    Nothing();
    One(Read(p, p, PTR_SIZE));
    match suffix
    case PlusOperand(o) =>
      var read := if IsReference(lv) then [Read(p, p, PTR_SIZE)] else [];
      OperandPlain(o, p + 1);
      ScaledPlain(p, lv.tsize);
      Join(read, COperand(o, p + 1), 0, 0);
      Join(read + COperand(o, p + 1), Scaled(p, lv.tsize), 0, 0);
    case _ =>
      var size := LvSize(lv);
      var post := if suffix.PostIncrement? then CPostfix(Add, p, size)
                  else if suffix.PostDecrement? then CPostfix(Sub, p, size) else [Read(p, p, size)];
      PrefixPlain(prefix, p, size);
      PostfixPlain(Add, p, size);
      PostfixPlain(Sub, p, size);
      One(Read(p, p, size));
      Join(CPrefix(prefix, p, size), post, 0, 0);
  }

  lemma NegatedPlain(neg: bool, p: nat)
    ensures Balance(Negated(neg, p), 0)
  {
    hide Balance;
    Nothing();
    One(Ins(Negate, p));
  }

  lemma {:induction false} OperandPlain(o: Operand, p: nat)
    ensures Balance(COperand(o, p), 0)
    decreases o, 0
  {
    hide Balance, CLValue, CSuffix, CPointerCall, CExpr, CArgs, Pushes, Pops, Negated;
    match o
    case Num(v, neg, _) =>
      One(Const(p, v));
      NegatedPlain(neg, p);
      Join([Const(p, v)], Negated(neg, p), 0, 0);
    case LogNot(o1) =>
      OperandPlain(o1, p);
      One(Ins(Not, p));
      Join(COperand(o1, p), [Ins(Not, p)], 0, 0);
    case Paren(e, neg) =>
      ExprPlain(e, p);
      NegatedPlain(neg, p);
      Join(CExpr(e, p), Negated(neg, p), 0, 0);
    case Value(lv, prefix, suffix, calls, args, neg) =>
      var call := if calls then CPointerCall(args, p) else [];
      LValuePlain(lv, p);
      SuffixPlain(lv, prefix, suffix, p);
      PointerCallPlain(args, p);
      Nothing();
      NegatedPlain(neg, p);
      Join(CLValue(lv, p), CSuffix(lv, prefix, suffix, p), 0, 0);
      Join(CLValue(lv, p) + CSuffix(lv, prefix, suffix, p), call, 0, 0);
      Join(CLValue(lv, p) + CSuffix(lv, prefix, suffix, p) + call, Negated(neg, p), 0, 0);
    case AddressOf(lv) => LValuePlain(lv, p);
    case Call(name, args, neg) =>
      ArgsPlain(args, 0);
      SavedPlain(CArgs(args, 0), Named(FunctionCall, p, name), neg, p);
    case FunctionAddress(name, neg) =>
      Nothing();
      SavedPlain([], Named(GetVarAddr, p, name), neg, p);
      assert Pushes(0, p) + [] == Pushes(0, p);
  }

  /** Code between saving and restoring the registers below p. */
  lemma SavedPlain(code: seq<Instr>, ins: Instr, neg: bool, p: nat)
    requires Balance(code, 0) && IsPlain(ins.op) && Pushed(ins.op) == 0
    ensures Balance(Pushes(0, p) + code + [ins] + Pops(p) + Negated(neg, p), 0)
  {
    hide Balance, Pushes, Pops, Negated, IsPlain;
    PushesPlain(0, p);
    PopsPlain(p);
    NegatedPlain(neg, p);
    One(ins);
    Join(Pushes(0, p), code, p, 0);
    Join(Pushes(0, p) + code, [ins], p, 0);
    Join(Pushes(0, p) + code + [ins], Pops(p), p, 0 - p);
    Join(Pushes(0, p) + code + [ins] + Pops(p), Negated(neg, p), 0, 0);
  }

  lemma AssignPlain(a: Assign)
    ensures Balance(CAssign(a), 0)
  {
    hide Balance, CLValue, CExpr, CPointerCall, LvSize, IncrementSize, IsBinary;
    var lv := a.lv;
    LValuePlain(lv, 0);
    match a
    case Store(_, value) =>
      ExprPlain(value, 1);
      One(Write(1, 0, LvSize(lv)));
      Join(CLValue(lv, 0), CExpr(value, 1), 0, 0);
      Join(CLValue(lv, 0) + CExpr(value, 1), [Write(1, 0, LvSize(lv))], 0, 0);
    case Update(_, op, amount) =>
      var front := CLValue(lv, 0) + [Read(1, 0, LvSize(lv))];
      One(Read(1, 0, LvSize(lv)));
      Join(CLValue(lv, 0), [Read(1, 0, LvSize(lv))], 0, 0);
      AmountPlain(lv, amount);
      StorePlain(lv, op);
      Join(front, CAmount(lv, amount), 0, 0);
      Join(front + CAmount(lv, amount), [Ins2(op, 1, 2), Write(1, 0, LvSize(lv))], 0, 0);
    case CallThrough(_, args) =>
      One(Read(0, 0, LvSize(lv)));
      PointerCallPlain(args, 0);
      Join(CLValue(lv, 0), [Read(0, 0, LvSize(lv))], 0, 0);
      Join(CLValue(lv, 0) + [Read(0, 0, LvSize(lv))], CPointerCall(args, 0), 0, 0);
  }

  lemma StorePlain(lv: LValue, op: BinaryOp)
    ensures Balance([Ins2(op, 1, 2), Write(1, 0, LvSize(lv))], 0)
  {
    hide Balance, LvSize, IsBinary;
    BinaryPlain(op);
    Pair(Ins2(op, 1, 2), Write(1, 0, LvSize(lv)));
  }

  lemma AmountPlain(lv: LValue, amount: Option<Expr>)
    ensures Balance(CAmount(lv, amount), 0)
  {
    hide Balance, CExpr, IncrementSize;
    var inc := IncrementSize(lv);
    One(Const(2, inc));
    if amount.Some? {
      Nothing();
      ExprPlain(amount.value, 2);
      Pair(Const(3, inc), Ins2(Mul, 2, 3));
      Join(CExpr(amount.value, 2), if inc != 1 then [Const(3, inc), Ins2(Mul, 2, 3)] else [], 0, 0);
    }
  }

  lemma OptAssignPlain(a: Option<Assign>)
    ensures Balance(COptAssign(a), 0)
  {
    Nothing();
    if a.Some? { AssignPlain(a.value); }
  }

  lemma {:induction false} InitsPlain(inits: seq<Init>)
    ensures Balance(CInits(inits), 0)
  {
    hide Balance, CExpr;
    Nothing();
    if inits != [] {
      var x := inits[0];
      var value, store := CExpr(x.value, 1), [Named(GetVarAddr, 0, x.name), Write(1, 0, x.size)];
      ExprPlain(x.value, 1);
      InitsPlain(inits[1..]);
      Flat(store);
      Join(value, store, 0, 0);
      Join(value + store, CInits(inits[1..]), 0, 0);
    }
  }

  lemma TestPlain(test: Option<Expr>)
    ensures Balance(CTest(test), 0)
  {
    One(Const(0, 1));
    if test.Some? { ExprPlain(test.value, 0); }
  }
}
