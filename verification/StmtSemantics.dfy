/** The structured meaning of statements, following the compiler's own rules: a break leaves the nearest switch, through
    any loops inside it; a case falls through to the next one. */
module StmtSemantics {
  import opened Words
  import opened Il
  import opened Ast
  import opened CTypes
  import opened Semantics
  import IlMachine

  /** How a statement ends, with the memory and the number of blocks entered by then. */
  datatype Outcome =
    | Normal(mem: Mem, entered: nat)
    | Broke(mem: Mem, entered: nat)
    | Returned(fname: string, value: Option<Word>, mem: Mem, entered: nat)

  /** What one more means for an lvalue. */
  function AmountBy(typed: bool, lv: LValue): int {
    if typed then TypedAmount(lv) else IncrementSize(lv)
  }

  ghost function EvalAmount(env: Env, lv: LValue, amount: Option<Expr>, mem: Mem): Option<Result> {
    var one := AmountBy(env.typed, lv);
    match amount
    case None => Some(Result(Wrap(one), mem))
    case Some(e) =>
      match EvalExpr(env, e, mem)
      case None => None
      case Some(r) => Some(Result(if one != 1 then Binary(Mul, r.v, Wrap(one)) else r.v, r.mem))
  }

  /** The old value is read before the amount is computed. */
  ghost function EvalUpdate(env: Env, lv: LValue, op: BinaryOp, amount: Option<Expr>, a: Word, mem: Mem): Option<Mem> {
    match ReadMem(env, mem, a, SizeBy(env.typed, lv))
    case None => None
    case Some(v) =>
      match EvalAmount(env, lv, amount, mem)
      case None => None
      case Some(r) => WriteMem(env, r.mem, a, SizeBy(env.typed, lv), Binary(op, v, r.v))
  }

  ghost function EvalAssign(env: Env, x: Assign, mem: Mem): Option<Mem> {
    if env.typed && !CTypes.Readable(Denoted(x.lv)) then None
    else match EvalLValue(env, x.lv, mem)
      case None => None
      case Some(a) =>
        match x
        case Store(lv, value) =>
          (match EvalExpr(env, value, a.mem)
           case None => None
           case Some(r) => WriteMem(env, r.mem, a.v, SizeBy(env.typed, lv), r.v))
        case Update(lv, op, amount) => EvalUpdate(env, lv, op, amount, a.v, a.mem)
        case CallThrough(lv, args) =>
          (match ReadMem(env, a.mem, a.v, SizeBy(env.typed, lv))
           case None => None
           case Some(f) =>
             match EvalPointerCall(env, f, args, a.mem) case None => None case Some(r) => Some(r.mem))
  }

  ghost function EvalOptAssign(env: Env, x: Option<Assign>, mem: Mem): Option<Mem> {
    match x case None => Some(mem) case Some(a) => EvalAssign(env, a, mem)
  }

  ghost function EvalInits(env: Env, inits: seq<Init>, mem: Mem): Option<Mem> {
    if inits == [] then Some(mem)
    else match EvalExpr(env, inits[0].value, mem)
      case None => None
      case Some(r) =>
        if inits[0].name !in env.addr then None
        else match WriteMem(env, r.mem, env.addr[inits[0].name], if env.typed then inits[0].own else inits[0].size, r.v)
          case None => None
          case Some(m) => EvalInits(env, inits[1..], m)
  }

  ghost function EvalTest(env: Env, test: Option<Expr>, mem: Mem): Option<Result> {
    match test case None => Some(Result(1, mem)) case Some(e) => EvalExpr(env, e, mem)
  }

  /** The first case with this value; otherwise the last default label. */
  function Case(cs: seq<Clause>, v: Word): Option<nat> {
    if cs == [] then None
    else if cs[0].tag.Some? && Wrap(cs[0].tag.value) == v then Some(0)
    else match Case(cs[1..], v) case None => None case Some(k) => Some(k + 1)
  }

  function Default(cs: seq<Clause>): Option<nat> {
    if cs == [] then None
    else match Default(cs[1..])
      case Some(k) => Some(k + 1)
      case None => if cs[0].tag.None? then Some(0) else None
  }

  function Select(cs: seq<Clause>, v: Word): Option<nat> {
    match Case(cs, v) case Some(k) => Some(k) case None => Default(cs)
  }

  lemma {:induction false} CaseInRange(cs: seq<Clause>, v: Word)
    ensures Case(cs, v).Some? ==> Case(cs, v).value < |cs|
    ensures Default(cs).Some? ==> Default(cs).value < |cs|
    ensures Select(cs, v).Some? ==> Select(cs, v).value < |cs|
  {
    if cs != [] {
      CaseInRange(cs[1..], v);
    }
  }

  /** None when a part has no meaning, or when more than `fuel` loop iterations are nested or needed. */
  ghost function EvalStmt(env: Env, s: Stmt, mem: Mem, n: nat, fuel: nat): Option<Outcome>
    decreases fuel, s, 0
  {
    match s
    case Compound(id, body) => EvalStmts(Inside(env, id), body, Exposed(env, id, n, mem), n + 1, fuel)
    case ReturnFrom(f, value) =>
      (match value
       case None => Some(Returned(f, None, mem, n))
       case Some(e) =>
         match EvalExpr(env, e, mem) case None => None case Some(r) => Some(Returned(f, Some(r.v), r.mem, n)))
    case If(cond, thn, els) =>
      (match EvalExpr(env, cond, mem)
       case None => None
       case Some(r) =>
         if r.v != 0 then EvalStmt(env, thn, r.mem, n, fuel)
         else match els case None => Some(Normal(r.mem, n)) case Some(e) => EvalStmt(env, e, r.mem, n, fuel))
    case While(cond, body) =>
      (match EvalExpr(env, cond, mem)
       case None => None
       case Some(r) =>
         if r.v == 0 then Some(Normal(r.mem, n))
         else match EvalStmt(env, body, r.mem, n, fuel)
           case Some(Normal(m, k)) => if fuel == 0 then None else EvalStmt(env, s, m, k, fuel - 1)
           case other => other)
    case DoWhile(body, cond) =>
      (match EvalStmt(env, body, mem, n, fuel)
       case Some(Normal(m, k)) =>
         (match EvalExpr(env, cond, m)
          case None => None
          case Some(r) =>
            if r.v == 0 then Some(Normal(r.mem, k))
            else if fuel == 0 then None else EvalStmt(env, s, r.mem, k, fuel - 1))
       case other => other)
    case For(init, test, step, body) =>
      (match EvalOptAssign(env, init, mem)
       case None => None
       case Some(m) => EvalFor(env, test, step, body, m, n, fuel))
    case Switch(on, clauses) =>
      (match EvalExpr(env, on, mem)
       case None => None
       case Some(r) =>
         match Select(clauses, r.v)
         case None => Some(Normal(r.mem, n))
         case Some(k) =>
           CaseInRange(clauses, r.v);
           match EvalClauses(env, clauses, k, r.mem, n, fuel)
           case Some(Broke(m, j)) => Some(Normal(m, j))
           case other => other)
    case Break(_) => Some(Broke(mem, n))
    case Empty => Some(Normal(mem, n))
    case Declare(_, ds) =>
      (match EvalInits(env, InitsOf(ds), mem) case None => None case Some(m) => Some(Normal(m, n)))
    case Evaluate(o) => (match EvalOperand(env, o, mem) case None => None case Some(r) => Some(Normal(r.mem, n)))
    case Assignment(a) => (match EvalAssign(env, a, mem) case None => None case Some(m) => Some(Normal(m, n)))
  }

  /** A for loop from its test on. */
  ghost function EvalFor(env: Env, test: Option<Expr>, step: Option<Assign>, body: Stmt, mem: Mem, n: nat, fuel: nat)
    : Option<Outcome>
    decreases fuel, body, 1
  {
    match EvalTest(env, test, mem)
    case None => None
    case Some(r) =>
      if r.v == 0 then Some(Normal(r.mem, n))
      else match EvalStmt(env, body, r.mem, n, fuel)
        case Some(Normal(m, k)) =>
          (match EvalOptAssign(env, step, m)
           case None => None
           case Some(m') => if fuel == 0 then None else EvalFor(env, test, step, body, m', k, fuel - 1))
        case other => other
  }

  ghost function EvalStmts(env: Env, ss: seq<Stmt>, mem: Mem, n: nat, fuel: nat): Option<Outcome>
    decreases fuel, ss, 0
  {
    if ss == [] then Some(Normal(mem, n))
    else match EvalStmt(env, ss[0], mem, n, fuel)
      case Some(Normal(m, k)) => EvalStmts(env, ss[1..], m, k, fuel)
      case other => other
  }

  ghost function EvalClause(env: Env, c: Clause, mem: Mem, n: nat, fuel: nat): Option<Outcome>
    decreases fuel, c, 0
  {
    EvalStmts(env, c.body, mem, n, fuel)
  }

  /** From clause k on, falling through. */
  ghost function EvalClauses(env: Env, cs: seq<Clause>, k: nat, mem: Mem, n: nat, fuel: nat): Option<Outcome>
    requires k <= |cs|
    decreases fuel, cs, |cs| - k
  {
    if k == |cs| then Some(Normal(mem, n))
    else match EvalClause(env, cs[k], mem, n, fuel)
      case Some(Normal(m, j)) => EvalClauses(env, cs, k + 1, m, j, fuel)
      case other => other
  }

  // ----- one iteration of a for loop -----

  /** A for loop's outcome from the parts of one iteration. */
  ghost function ForOutcome(r: Option<Result>, n: nat, body: Option<Outcome>, m: Option<Mem>, fuel: nat,
                            rest: Option<Outcome>): Option<Outcome> {
    match r
    case None => None
    case Some(v) =>
      if v.v == 0 then Some(Normal(v.mem, n))
      else match body
        case Some(Normal(_, _)) => if m.None? || fuel == 0 then None else rest
        case other => other
  }

  /** After one iteration of a for loop. */
  ghost function NextMem(env: Env, step: Option<Assign>, body: Option<Outcome>): Option<Mem> {
    match body case Some(Normal(m, _)) => EvalOptAssign(env, step, m) case _ => None
  }

  ghost function NextCount(body: Option<Outcome>): nat {
    match body case Some(Normal(_, k)) => k case _ => 0
  }

  ghost function BodyOutcome(env: Env, body: Stmt, r: Option<Result>, n: nat, fuel: nat): Option<Outcome> {
    match r case None => None case Some(v) => EvalStmt(env, body, v.mem, n, fuel)
  }

  lemma ForUnfold(env: Env, test: Option<Expr>, step: Option<Assign>, body: Stmt, mem: Mem, n: nat, fuel: nat)
    ensures var r := EvalTest(env, test, mem);
            var o := BodyOutcome(env, body, r, n, fuel);
            var m := NextMem(env, step, o);
            var rest := if m.None? || fuel == 0 then None
                        else EvalFor(env, test, step, body, m.value, NextCount(o), fuel - 1);
            EvalFor(env, test, step, body, mem, n, fuel) == ForOutcome(r, n, o, m, fuel, rest)
  {
    hide EvalTest, EvalStmt, EvalOptAssign;
  }

  // ----- statements that never end normally -----

  predicate Departs(s: Stmt)
    decreases s
  {
    match s
    case ReturnFrom(_, _) => true
    case Break(_) => true
    case Compound(_, body) => DepartsSomewhere(body)
    case If(_, thn, els) => els.Some? && Departs(thn) && Departs(els.value)
    case _ => false
  }

  predicate DepartsSomewhere(ss: seq<Stmt>)
    decreases ss
  {
    ss != [] && (Departs(ss[0]) || DepartsSomewhere(ss[1..]))
  }

  lemma {:induction false} DepartsNotNormal(env: Env, s: Stmt, mem: Mem, n: nat, fuel: nat)
    requires Departs(s)
    ensures EvalStmt(env, s, mem, n, fuel).Some? ==> !EvalStmt(env, s, mem, n, fuel).value.Normal?
    decreases s
  {
    match s
    case Compound(_, body) =>
      DepartsSomewhereNotNormal(Inside(env, s.id), body, Exposed(env, s.id, n, mem), n + 1, fuel);
    case If(cond, thn, els) =>
      if EvalExpr(env, cond, mem).Some? {
        var m := EvalExpr(env, cond, mem).value.mem;
        DepartsNotNormal(env, thn, m, n, fuel);
        DepartsNotNormal(env, els.value, m, n, fuel);
      }
    case _ =>
  }

  lemma {:induction false} DepartsSomewhereNotNormal(env: Env, ss: seq<Stmt>, mem: Mem, n: nat, fuel: nat)
    requires DepartsSomewhere(ss)
    ensures EvalStmts(env, ss, mem, n, fuel).Some? ==> !EvalStmts(env, ss, mem, n, fuel).value.Normal?
    decreases ss
  {
    if Departs(ss[0]) {
      DepartsNotNormal(env, ss[0], mem, n, fuel);
    } else {
      var o := EvalStmt(env, ss[0], mem, n, fuel);
      if o.Some? && o.value.Normal? {
        DepartsSomewhereNotNormal(env, ss[1..], o.value.mem, o.value.entered, fuel);
      }
    }
  }
}
