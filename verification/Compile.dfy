/** The IL the parser emits for each construct, as a function of what it has recognised.  The imperative parser is
    proved to append exactly this, and the theorems about meaning are about this. */
module Compile {
  import opened Words
  import opened Il
  import opened Ast

  function Ins(op: Op, param: int): Instr { Instr(op, param, 0, 0, "") }
  function Ins2(op: Op, param: int, source: int): Instr { Instr(op, param, source, 0, "") }
  function Const(param: int, value: int): Instr { Instr(LoadNumericConstant, param, value, 0, "") }
  function Read(param: int, address: int, size: int): Instr { Instr(ReadAddr, param, address, size, "") }
  function Write(param: int, address: int, size: int): Instr { Instr(WriteAddr, param, address, size, "") }
  function Named(op: Op, param: int, name: string): Instr { Instr(op, param, 0, 0, name) }
  function Target(op: Op, target: int): Instr { Instr(op, 0, target, 0, "") }
  function Marker(op: Op, block: int): Instr { Instr(op, 0, block, 0, "") }

  /** Registers k, ..., n-1 pushed in this order. */
  function Pushes(k: nat, n: nat): seq<Instr>
    requires k <= n
    decreases n - k
  {
    if k == n then [] else [Ins(Push, k)] + Pushes(k + 1, n)
  }

  /** Registers n-1, ..., 0 popped in this order. */
  function Pops(n: nat): seq<Instr> {
    if n == 0 then [] else [Ins(Pop, n - 1)] + Pops(n - 1)
  }

  // ----- expressions -----

  /** The address in register p is advanced by register p+1 elements. */
  function Scaled(p: nat, size: int): seq<Instr> {
    (if size != 1 then [Const(p + 2, size), Ins2(Mul, p + 1, p + 2)] else []) + [Ins2(Add, p, p + 1)]
  }

  function CIndexes(lv: LValue, indexes: seq<Expr>, p: nat): seq<Instr>
    decreases indexes, 0
  {
    if indexes == [] then []
    else
      (if lv.isPointer != 0 then [Read(p, p, PTR_SIZE)] else [])
      + CExpr(indexes[0], p + 1) + Scaled(p, if lv.isPointer <= 1 then lv.tsize else PTR_SIZE)
      + CIndexes(lv, indexes[1..], p)
  }

  /** Leaves the address of an lvalue in register p. */
  function CLValue(lv: LValue, p: nat): seq<Instr>
    decreases lv, 0
  {
    [Named(GetVarAddr, p, lv.name)] + CIndexes(lv, lv.indexes, p)
  }

  /** `++` or `--` in front: the variable behind the address in register p is changed by one. */
  function CPrefix(prefix: Option<BinaryOp>, p: nat, size: int): seq<Instr> {
    match prefix
    case None => []
    case Some(op) => [Read(p + 1, p, size), Const(p + 2, 1), Ins2(op, p + 1, p + 2), Write(p + 1, p, size)]
  }

  /** `++` or `--` behind: changed by one, and the old value kept on the stack meanwhile. */
  function CPostfix(op: Op, p: nat, size: int): seq<Instr> {
    [Read(p + 1, p, size), Ins(Push, p + 1), Const(p + 2, 1), Ins2(op, p + 1, p + 2), Write(p + 1, p, size),
     Ins(Pop, p)]
  }

  function CSuffix(lv: LValue, prefix: Option<BinaryOp>, suffix: Suffix, p: nat): seq<Instr>
    decreases suffix, 0
  {
    match suffix
    case PlusOperand(o) =>
      (if IsReference(lv) then [Read(p, p, PTR_SIZE)] else []) + COperand(o, p + 1) + Scaled(p, lv.tsize)
    case _ =>
      if !IsReference(lv) then []
      else
        var size := LvSize(lv);
        CPrefix(prefix, p, size)
        + (if suffix.PostIncrement? then CPostfix(Add, p, size)
           else if suffix.PostDecrement? then CPostfix(Sub, p, size)
           else [Read(p, p, size)])
  }

  function Negated(neg: bool, p: nat): seq<Instr> {
    if neg then [Ins(Negate, p)] else []
  }

  function CArgs(args: seq<Expr>, k: nat): seq<Instr>
    decreases args, 0
  {
    if args == [] then [] else CExpr(args[0], k) + CArgs(args[1..], k + 1)
  }

  /** A call of the function whose address is in register p. */
  function CPointerCall(args: seq<Expr>, p: nat): seq<Instr>
    decreases args, 1
  {
    Pushes(0, p) + [Ins(Push, p)] + CArgs(args, 0)
    + [Ins(Pop, POINTER_REG), Ins2(PointerCall, p, POINTER_REG)] + Pops(p)
  }

  function COperand(o: Operand, p: nat): seq<Instr>
    decreases o, 0
  {
    match o
    case Num(v, neg, _) => [Const(p, v)] + Negated(neg, p)
    case LogNot(o1) => COperand(o1, p) + [Ins(Not, p)]
    case Paren(e, neg) => CExpr(e, p) + Negated(neg, p)
    case Value(lv, prefix, suffix, calls, args, neg) =>
      CLValue(lv, p) + CSuffix(lv, prefix, suffix, p)
      + (if calls then CPointerCall(args, p) else [])
      + Negated(neg, p)
    case AddressOf(lv) => CLValue(lv, p)
    case Call(name, args, neg) =>
      Pushes(0, p) + CArgs(args, 0) + [Named(FunctionCall, p, name)] + Pops(p) + Negated(neg, p)
    case FunctionAddress(name, neg) =>
      Pushes(0, p) + [Named(GetVarAddr, p, name)] + Pops(p) + Negated(neg, p)
  }

  /** The top two values are taken off the stack and combined in register p. */
  function Apply(op: Op, p: nat): seq<Instr> {
    [Ins(Pop, p + 1), Ins(Pop, p), Ins2(op, p, p + 1)]
  }

  /** Operators on the stack that bind at least as tightly as the coming one are applied first. */
  function Reduced(ops: seq<Op>, op: Op): seq<Op> {
    if ops != [] && Priority(ops[|ops| - 1]) >= Priority(op) then Reduced(ops[..|ops| - 1], op) else ops
  }

  function CReduce(ops: seq<Op>, op: Op, p: nat): seq<Instr> {
    if ops != [] && Priority(ops[|ops| - 1]) >= Priority(op) then
      Apply(ops[|ops| - 1], p) + [Ins(Push, p)] + CReduce(ops[..|ops| - 1], op, p)
    else []
  }

  function CUnwind(ops: seq<Op>, p: nat): seq<Instr> {
    if ops == [] then []
    else if |ops| == 1 then Apply(ops[0], p)
    else Apply(ops[|ops| - 1], p) + [Ins(Push, p)] + CUnwind(ops[..|ops| - 1], p)
  }

  function CTerm(t: Term, p: nat): seq<Instr>
    decreases t, 0
  {
    COperand(t.operand, p)
  }

  /** The rest of a chain, with the operators still to be applied on the stack `ops`. */
  function CChain(ops: seq<Op>, rest: seq<Term>, p: nat): seq<Instr>
    decreases rest, 0
  {
    if rest == [] then CUnwind(ops, p)
    else
      CReduce(ops, rest[0].op, p) + CTerm(rest[0], p) + [Ins(Push, p)]
      + CChain(Reduced(ops, rest[0].op) + [rest[0].op], rest[1..], p)
  }

  /** Leaves the value of an expression in register p. */
  function CExpr(e: Expr, p: nat): seq<Instr>
    decreases e, 0
  {
    if |e.rest| == 0 then COperand(e.first, p)
    else
      var op := e.rest[0].op;
      var two := COperand(e.first, p) + CTerm(e.rest[0], p + 1);
      if |e.rest| == 1 then two + [Ins2(op, p, p + 1)]
      else two + [Ins(Push, p), Ins(Push, p + 1)] + CChain([op], e.rest[1..], p)
  }

  // ----- statements -----

  /** How much a variable changes by, in register 2. */
  function CAmount(lv: LValue, amount: Option<Expr>): seq<Instr> {
    match amount
    case None => [Const(2, IncrementSize(lv))]
    case Some(e) =>
      CExpr(e, 2) + (if IncrementSize(lv) != 1 then [Const(3, IncrementSize(lv)), Ins2(Mul, 2, 3)] else [])
  }

  function CAssign(a: Assign): seq<Instr> {
    match a
    case Store(lv, value) => CLValue(lv, 0) + CExpr(value, 1) + [Write(1, 0, LvSize(lv))]
    case Update(lv, op, amount) =>
      CLValue(lv, 0) + [Read(1, 0, LvSize(lv))] + CAmount(lv, amount) + [Ins2(op, 1, 2), Write(1, 0, LvSize(lv))]
    case CallThrough(lv, args) => CLValue(lv, 0) + [Read(0, 0, LvSize(lv))] + CPointerCall(args, 0)
  }

  function COptAssign(a: Option<Assign>): seq<Instr> {
    match a case None => [] case Some(x) => CAssign(x)
  }

  function CInits(inits: seq<Init>): seq<Instr> {
    if inits == [] then []
    else
      CExpr(inits[0].value, 1) + [Named(GetVarAddr, 0, inits[0].name), Write(1, 0, inits[0].size)] + CInits(inits[1..])
  }

  /** The condition of a for loop; without one it is 1. */
  function CTest(test: Option<Expr>): seq<Instr> {
    match test case None => [Const(0, 1)] case Some(e) => CExpr(e, 0)
  }

  /** The statement's code when its first instruction has index `base`; breaks go to index `brk`. */
  function CStmt(s: Stmt, base: nat, brk: nat): seq<Instr>
    decreases s, 0
  {
    match s
    case Compound(id, body) =>
      [Marker(BlockStart, id)] + CStmts(body, base + 1, brk) + [Marker(BlockEnd, id)]
    case ReturnFrom(f, value) =>
      (match value case None => [] case Some(e) => CExpr(e, 0)) + [Named(Return, 0, f)]
    case If(cond, thn, els) =>
      var c := CExpr(cond, 0);
      var t := CStmt(thn, base + |c| + 1, brk);
      var after := base + |c| + 1 + |t|;
      (match els
       case None => c + [Target(Jz, after)] + t + [Ins(Label, 0)]
       case Some(e) =>
         var f := CStmt(e, after + 2, brk);
         c + [Target(Jz, after + 1)] + t + [Target(Jump, after + 2 + |f|), Ins(Label, 0)] + f + [Ins(Label, 0)])
    case While(cond, body) =>
      var c := CExpr(cond, 0);
      var b := CStmt(body, base + |c| + 2, brk);
      [Ins(Label, 0)] + c + [Target(Jz, base + |c| + 3 + |b|)] + b + [Target(Jump, base), Ins(Label, 0)]
    case DoWhile(body, cond) =>
      [Ins(Label, 0)] + CStmt(body, base + 1, brk) + CExpr(cond, 0) + [Target(Jnz, base)]
    case For(init, test, step, body) =>
      var i, c, n := COptAssign(init), CTest(test), COptAssign(step);
      var start := base + |i|;
      var increment := start + |c| + 3;
      var entry := increment + |n| + 2;
      var b := CStmt(body, entry + 1, brk);
      i + [Ins(Label, 0)] + c + [Target(Jz, entry + |b| + 2), Target(Jump, entry), Ins(Label, 0)] + n
      + [Target(Jump, start), Ins(Label, 0)] + b + [Target(Jump, increment), Ins(Label, 0)]
    case Switch(on, clauses) =>
      var v := CExpr(on, 1);
      var exit := base + |v| + 1;
      var b := CClauses(clauses, exit + 1, exit);
      var checks := CChecks(clauses, exit + 1, exit) + CDefault(clauses, exit + 1, exit);
      v + [Target(Jump, exit + 1 + |b|), Target(Jump, exit + 2 + |b| + |checks|)] + b
      + [Ins(Label, 0)] + checks + [Ins(Label, 0)]
    case Break(after) => [Target(Jump, brk)] + CStmt(after, base + 1, brk)
    case Empty => []
    case Declare(_, ds) => CInits(InitsOf(ds))
    case Evaluate(o) => COperand(o, 0)
    case Assignment(a) => CAssign(a)
  }

  function CStmts(ss: seq<Stmt>, base: nat, brk: nat): seq<Instr>
    decreases ss, 0
  {
    if ss == [] then []
    else
      var c := CStmt(ss[0], base, brk);
      c + CStmts(ss[1..], base + |c|, brk)
  }

  function CClause(c: Clause, base: nat, brk: nat): seq<Instr>
    decreases c, 0
  {
    [Ins(Label, 0)] + CStmts(c.body, base + 1, brk)
  }

  function CClauses(cs: seq<Clause>, base: nat, brk: nat): seq<Instr>
    decreases cs, 0
  {
    if cs == [] then []
    else
      var c := CClause(cs[0], base, brk);
      c + CClauses(cs[1..], base + |c|, brk)
  }

  /** Register 1 is compared with every case value in turn. */
  function CChecks(cs: seq<Clause>, base: nat, brk: nat): seq<Instr>
    decreases cs, 1
  {
    if cs == [] then []
    else
      (match cs[0].tag
       case None => []
       case Some(v) => [Const(0, v), Ins2(Equals, 0, 1), Target(Jnz, base)])
      + CChecks(cs[1..], base + |CClause(cs[0], base, brk)|, brk)
  }

  /** The index of the last default label. */
  function DefaultAt(cs: seq<Clause>, base: nat, brk: nat): Option<nat>
    decreases cs, 1
  {
    if cs == [] then None
    else
      match DefaultAt(cs[1..], base + |CClause(cs[0], base, brk)|, brk)
      case Some(k) => Some(k)
      case None => if cs[0].tag.None? then Some(base) else None
  }

  function CDefault(cs: seq<Clause>, base: nat, brk: nat): seq<Instr>
    decreases cs, 2
  {
    match DefaultAt(cs, base, brk)
    case None => []
    case Some(k) => [Target(Jump, k)]
  }

  /** A function's code, with its body in block `id`. */
  function CFunction(name: string, id: nat, body: seq<Stmt>, base: nat): seq<Instr> {
    [Named(EntryPoint, 0, name), Marker(BlockStart, id)] + CStmts(body, base + 2, 0)
    + [Marker(BlockEnd, id), Named(ExitPoint, 0, name)]
  }
}
