/** The code of a statement, with its back-patched jumps, has the statement's structured meaning. */
module Flow {
  import opened Words
  import opened Runs
  import opened Il
  import opened Ast
  import opened Semantics
  import Levels
  import opened StmtSemantics
  import opened Straight
  import opened Compile
  import opened Pieces
  import opened ExprCorrect
  import IlMachine

  /** Execution at an IL index. */
  datatype Config = Config(pc: int, st: St)

  /** The surroundings of a piece of code, which no step changes: `block` is the block of the statements looked at, and
      execution stops outside the indices from `lo` up to `hi`. */
  datatype World = World(env: Env, exits: map<string, int>, code: seq<Instr>, blocks: seq<Block>, block: nat, lo: nat,
                         hi: nat)

  /** The block in force at an index, as the markers before it say. */
  ghost predicate InScope(w: World, pc: nat, b: nat) {
    pc <= |w.code| && BlockAfter(w.blocks, None, w.code[..pc]) == Some(b)
  }

  /** Names mean what they mean in the block in force; outside all blocks they mean nothing. */
  ghost function EnvAt(w: World, pc: nat): Env {
    if pc > |w.code| then w.env
    else match BlockAfter(w.blocks, None, w.code[..pc])
      case Some(b) => Inside(w.env, b)
      case None => w.env.(addr := imap[], access := Access(iset{}, iset{}))
  }

  /** A block is entered. */
  ghost function EnterBlock(env: Env, id: nat, st: St): St {
    st.(mem := Exposed(env, id, st.entered, st.mem), entered := st.entered + 1)
  }

  /** One step of a piece of IL within a function; a return goes to the function's exit point.  Block markers are only
      passed with nothing pushed. */
  ghost function FlowStep(w: World, c: Config): Option<Config> {
    if !(w.lo <= c.pc < w.hi <= |w.code|) then None else
    var ins := w.code[c.pc];
    var next := c.(pc := c.pc + 1);
    if ins.op.Label? then Some(next)
    else if ins.op.BlockStart? then
      if c.st.stack == [] && ins.int1 >= 0 then Some(Config(c.pc + 1, EnterBlock(w.env, ins.int1, c.st))) else None
    else if ins.op.BlockEnd? then if c.st.stack == [] then Some(next) else None
    else if ins.op.Jump? then Some(c.(pc := ins.int1))
    else if ins.op.Jz? || ins.op.Jnz? then
      if 0 <= ins.param < |c.st.regs| then
        Some(if (c.st.regs[ins.param] == 0) == ins.op.Jz? then c.(pc := ins.int1) else next)
      else None
    else if ins.op.Return? then if ins.name in w.exits then Some(c.(pc := w.exits[ins.name])) else None
    else match ExecInstr(EnvAt(w, c.pc), ins, c.st)
      case None => None
      case Some(t) => Some(Config(c.pc + 1, t))
  }

  ghost function Stepper(w: World): Config -> Option<Config> {
    c => FlowStep(w, c)
  }

  ghost predicate Goes(w: World, c: Config, d: Config) {
    Reaches(Stepper(w), c, d)
  }

  /** Every step of v is one of w. */
  ghost predicate Wider(v: World, w: World) {
    && v.env.(addr := w.env.addr, access := w.env.access) == w.env && v.exits == w.exits && v.code == w.code
    && v.blocks == w.blocks
    && w.lo <= v.lo && v.hi <= w.hi <= |w.code|
  }

  lemma WiderStep(v: World, w: World, c: Config)
    requires Wider(v, w) && FlowStep(v, c).Some?
    ensures FlowStep(w, c) == FlowStep(v, c)
  {
    hide ExecInstr, Exposed;
    assert v.env.frame == w.env.frame && v.env.stale == w.env.stale && v.env.scopes == w.env.scopes;
    assert EnvAt(v, c.pc) == EnvAt(w, c.pc);
    var ins := v.code[c.pc];
    if ins.op.BlockStart? { SameExposed(v.env, w.env, ins.int1, c.st.entered, c.st.mem); }
  }

  lemma SameExposed(e: Env, f: Env, id: nat, n: nat, mem: Mem)
    requires e.frame == f.frame && e.stale == f.stale
    ensures Exposed(e, id, n, mem) == Exposed(f, id, n, mem)
  {
    assert forall a: Word :: ByteExposed(e, id, n, mem, a) == ByteExposed(f, id, n, mem, a);
  }

  lemma {:induction false} WiderRun(v: World, w: World, c: Config, n: nat, d: Config)
    requires Wider(v, w) && Run(Stepper(v), c, n) == Some(d)
    ensures Run(Stepper(w), c, n) == Some(d)
    decreases n
  {
    hide FlowStep;
    if n > 0 {
      WiderStep(v, w, c);
      WiderRun(v, w, FlowStep(v, c).value, n - 1, d);
    }
  }

  lemma WiderGoes(v: World, w: World, c: Config, d: Config)
    requires Wider(v, w) && Goes(v, c, d)
    ensures Goes(w, c, d)
  {
    var n: nat :| Run(Stepper(v), c, n) == Some(d);
    WiderRun(v, w, c, n, d);
  }

  lemma GoesSelf(w: World, c: Config)
    ensures Goes(w, c, c)
  {
    ReachesSelf(Stepper(w), c);
  }

  lemma GoesThen(w: World, c: Config, d: Config, e: Config)
    requires Goes(w, c, d) && Goes(w, d, e)
    ensures Goes(w, c, e)
  {
    ReachesThen(Stepper(w), c, d, e);
  }

  lemma GoesStep(w: World, c: Config, d: Config)
    requires FlowStep(w, c) == Some(d)
    ensures Goes(w, c, d)
  {
    ReachesStep(Stepper(w), c, d);
  }

  // ----- pieces of code at their place -----

  /** The piece lies at `base`, inside the indices that are executed. */
  ghost predicate InCode(w: World, base: nat, piece: seq<Instr>) {
    At(w.code, base, piece) && w.lo <= base && base + |piece| <= w.hi <= |w.code|
  }

  lemma InCodeSplit(w: World, base: nat, a: seq<Instr>, b: seq<Instr>)
    requires InCode(w, base, a + b)
    ensures InCode(w, base, a) && InCode(w, base + |a|, b)
  {
    hide At;
    AtSplit(w.code, base, a, b);
  }

  /** All of these indices are in the block looked at. */
  ghost predicate InBlock(w: World, base: nat, n: nat) {
    forall k :: base <= k < base + n ==> InScope(w, k, w.block)
  }

  /** The names in scope and the bytes to be accessed are those of the block looked at, and pointers go by the
      compiler's rules. */
  ghost predicate Settled(w: World) {
    w.env.addr == w.env.scopes(w.block) && w.env.access == w.env.accesses(w.block) && !w.env.typed
  }

  lemma AtRegs(code: seq<Instr>, base: nat, piece: seq<Instr>, n: nat)
    requires At(code, base, piece) && RegsBelow(code, n)
    ensures RegsBelow(piece, n)
  {
    forall k | 0 <= k < |piece| ensures RegOk(piece[k], n) {
      assert piece[k] == code[base..base + |piece|][k] == code[base + k];
      assert RegOk(code[base + k], n);
    }
  }

  /** Straight code runs through. */
  lemma {:induction false} StraightGoes(w: World, base: nat, piece: seq<Instr>, st: St, t: St)
    requires InCode(w, base, piece) && InBlock(w, base, |piece|) && Settled(w) && Exec(w.env, piece, st) == Some(t)
    ensures Goes(w, Config(base, st), Config(base + |piece|, t))
    decreases |piece|
  {
    hide Goes, ExecInstr;
    if piece == [] {
      GoesSelf(w, Config(base, st));
    } else {
      var ins, rest := piece[0], piece[1..];
      assert piece == [ins] + rest;
      InCodeSplit(w, base, [ins], rest);
      AtOne(w.code, base, ins);
      var st1 := ExecInstr(w.env, ins, st).value;
      NotControl(w.env, ins, st);
      assert InScope(w, base, w.block);
      GoesStep(w, Config(base, st), Config(base + 1, st1));
      StraightGoes(w, base + 1, rest, st1, t);
      GoesThen(w, Config(base, st), Config(base + 1, st1), Config(base + |piece|, t));
    }
  }

  lemma NotControl(env: Env, ins: Instr, st: St)
    requires ExecInstr(env, ins, st).Some?
    ensures !ins.op.Label? && !ins.op.BlockStart? && !ins.op.BlockEnd? && !ins.op.Jump?
    ensures !ins.op.Jz? && !ins.op.Jnz? && !ins.op.Return?
  {
  }

  lemma LabelGoes(w: World, pc: nat, ins: Instr, st: St)
    requires InCode(w, pc, [ins]) && ins.op.Label?
    ensures Goes(w, Config(pc, st), Config(pc + 1, st))
  {
    AtOne(w.code, pc, ins);
    GoesStep(w, Config(pc, st), Config(pc + 1, st));
  }

  lemma JumpGoes(w: World, pc: nat, target: int, st: St)
    requires InCode(w, pc, [Target(Jump, target)])
    ensures Goes(w, Config(pc, st), Config(target, st))
  {
    AtOne(w.code, pc, Target(Jump, target));
    GoesStep(w, Config(pc, st), Config(target, st));
  }

  lemma CondGoes(w: World, pc: nat, op: Op, target: int, st: St)
    requires (op.Jz? || op.Jnz?) && InCode(w, pc, [Target(op, target)]) && |st.regs| > 0
    ensures Goes(w, Config(pc, st), Config(if (st.regs[0] == 0) == op.Jz? then target else pc + 1, st))
  {
    AtOne(w.code, pc, Target(op, target));
    GoesStep(w, Config(pc, st), Config(if (st.regs[0] == 0) == op.Jz? then target else pc + 1, st));
  }

  // ----- well-formed statements -----

  /** The last clause of every switch leaves it, and every return names a function with a known exit point. */
  predicate WellFormed(s: Stmt, exits: map<string, int>)
    decreases s, 0
  {
    match s
    case Compound(_, body) => AllWellFormed(body, exits)
    case ReturnFrom(f, _) => f in exits
    case If(_, thn, els) => WellFormed(thn, exits) && (els.Some? ==> WellFormed(els.value, exits))
    case While(_, body) => WellFormed(body, exits)
    case DoWhile(body, _) => WellFormed(body, exits)
    case For(_, _, _, body) => WellFormed(body, exits)
    case Switch(_, clauses) =>
      ClausesWellFormed(clauses, exits) && (clauses != [] ==> DepartsSomewhere(clauses[|clauses| - 1].body))
    case _ => true
  }

  predicate AllWellFormed(ss: seq<Stmt>, exits: map<string, int>)
    decreases ss, 0
  {
    ss != [] ==> WellFormed(ss[0], exits) && AllWellFormed(ss[1..], exits)
  }

  predicate ClauseWellFormed(c: Clause, exits: map<string, int>)
    decreases c, 0
  {
    AllWellFormed(c.body, exits)
  }

  predicate ClausesWellFormed(cs: seq<Clause>, exits: map<string, int>)
    decreases cs, 0
  {
    cs != [] ==> ClauseWellFormed(cs[0], exits) && ClausesWellFormed(cs[1..], exits)
  }

  // ----- the block in force over a statement's code -----

  /** The surroundings seen from inside block `id`. */
  ghost function WithinBlock(w: World, id: nat): World {
    w.(block := id, env := Inside(w.env, id))
  }

  /** Every name in the statement's code is looked up in the block that it stands in. */
  ghost predicate Scoped(w: World, s: Stmt, base: nat, brk: nat)
    decreases s, 0
  {
    match s
    case Compound(id, body) => AllScoped(WithinBlock(w, id), body, base + 1, brk)
    case ReturnFrom(_, value) => value.Some? ==> InBlock(w, base, |CExpr(value.value, 0)|)
    case If(cond, thn, els) =>
      var f := IfPlaces(s, base, brk);
      && InBlock(w, base, |CExpr(cond, 0)|) && Scoped(w, thn, f.inner, brk)
      && (els.Some? ==> Scoped(w, els.value, f.after + 2, brk))
    case While(cond, inner) =>
      InBlock(w, base + 1, |CExpr(cond, 0)|) && Scoped(w, inner, WhilePlaces(s, base, brk).inner, brk)
    case DoWhile(inner, cond) => Scoped(w, inner, base + 1, brk) && InBlock(w, DoTest(s, base, brk), |CExpr(cond, 0)|)
    case For(init, test, step, inner) =>
      var f := ForPlaces(s, base, brk);
      && InBlock(w, base, |COptAssign(init)|) && InBlock(w, f.start + 1, |CTest(test)|)
      && InBlock(w, f.increment + 1, |COptAssign(step)|) && Scoped(w, inner, f.entry + 1, brk)
    case Switch(on, clauses) =>
      var f := SwitchPlaces(s, base);
      && InBlock(w, base, |CExpr(on, 1)|) && ClausesScoped(w, clauses, f.first, f.exit)
      && ChecksScoped(w, s, base)
    case Break(_) => true
    case _ => InBlock(w, base, |CStmt(s, base, brk)|)
  }

  ghost predicate AllScoped(w: World, ss: seq<Stmt>, base: nat, brk: nat)
    decreases ss, 0
  {
    ss != [] ==> Scoped(w, ss[0], base, brk) && AllScoped(w, ss[1..], base + |CStmt(ss[0], base, brk)|, brk)
  }

  ghost predicate ClauseScoped(w: World, c: Clause, base: nat, brk: nat)
    decreases c, 0
  {
    AllScoped(w, c.body, base + 1, brk)
  }

  ghost predicate ClausesScoped(w: World, cs: seq<Clause>, base: nat, brk: nat)
    decreases cs, 0
  {
    cs != [] ==> ClauseScoped(w, cs[0], base, brk) && ClausesScoped(w, cs[1..], base + |CClause(cs[0], base, brk)|, brk)
  }

  // ----- where a statement's code ends up -----

  ghost predicate Lands(w: World, o: Outcome, st: St, end: int, brk: int, c: Config) {
    && c.st.stack == st.stack && |c.st.regs| == |st.regs| && c.st.mem == o.mem && c.st.entered == o.entered
    && match o
       case Normal(_, _) => c.pc == end
       case Broke(_, _) => c.pc == brk
       case Returned(f, v, _, _) =>
         f in w.exits && c.pc == w.exits[f] && (v.Some? ==> |c.st.regs| > 0 && c.st.regs[0] == v.value)
  }

  /** The setting of every lemma below: the piece is in place, its registers exist, nothing is pushed. */
  ghost predicate Ready(w: World, base: nat, piece: seq<Instr>, st: St) {
    && InCode(w, base, piece) && Settled(w) && RegsBelow(w.code, |st.regs|) && |st.regs| >= MAX_PARAMS
    && st.stack == []
  }

  ghost predicate Same(st: St, t: St) {
    t.stack == st.stack && |t.regs| == |st.regs| && t.entered == st.entered
  }

  lemma ExprGoes(w: World, base: nat, e: Expr, p: nat, st: St, r: Result) returns (t: St)
    requires Ready(w, base, CExpr(e, p), st) && InBlock(w, base, |CExpr(e, p)|)
    requires EvalExpr(w.env, e, st.mem) == Some(r)
    ensures Goes(w, Config(base, st), Config(base + |CExpr(e, p)|, t))
    ensures Leaves(st, t, p, r.v, r.mem) && Same(st, t)
  {
    hide Goes, RegsBelow, Exec, CExpr, EvalExpr, At, InBlock;
    AtRegs(w.code, base, CExpr(e, p), |st.regs|);
    t := ExprRun(w.env, e, p, st, r);
    StraightGoes(w, base, CExpr(e, p), st, t);
  }

  // ----- assignments and declarations -----

  /** Storing register d at the address in register o. */
  lemma ThenStore(env: Env, code: seq<Instr>, d: nat, o: nat, size: int, st: St, t: St, m: Mem) returns (u: St)
    requires Exec(env, code, st) == Some(t) && d < |t.regs| && o < |t.regs|
    requires WriteMem(env, t.mem, t.regs[o], size, t.regs[d]) == Some(m)
    ensures u == t.(mem := m) && Exec(env, code + [Write(d, o, size)], st) == Some(u)
  {
    hide Exec, WriteMem;
    u := t.(mem := m);
    ExecOne(env, Write(d, o, size), t);
    ExecThen(env, code, [Write(d, o, size)], st, t, u);
  }

  /** What an assignment or update stores, before it is cut to the size of the variable. */
  ghost function StoredValue(env: Env, x: Assign, mem: Mem): Option<Word> {
    match EvalLValue(env, x.lv, mem)
    case None => None
    case Some(a) =>
      match x
      case Store(lv, value) => (match EvalExpr(env, value, a.mem) case None => None case Some(r) => Some(r.v))
      case Update(lv, op, amount) =>
        (match (ReadMem(env, a.mem, a.v, LvSize(lv)), EvalAmount(env, lv, amount, a.mem))
         case (Some(v), Some(r)) => Some(Binary(op, v, r.v))
         case _ => None)
      case CallThrough(_, _) => None
  }

  lemma StoreRun(env: Env, lv: LValue, value: Expr, st: St, m: Mem) returns (t: St)
    requires RegsBelow(CAssign(Store(lv, value)), |st.regs|) && |st.regs| >= MAX_PARAMS && !env.typed
    requires EvalAssign(env, Store(lv, value), st.mem) == Some(m)
    ensures Exec(env, CAssign(Store(lv, value)), st) == Some(t) && Same(st, t) && t.mem == m
    ensures StoredValue(env, Store(lv, value), st.mem) == Some(t.regs[1])
  {
    hide Exec, RegsBelow, CLValue, CExpr, EvalLValue, EvalExpr, WriteMem;
    var n := |st.regs|;
    RegsSplit(CLValue(lv, 0) + CExpr(value, 1), [Write(1, 0, LvSize(lv))], n);
    RegsSplit(CLValue(lv, 0), CExpr(value, 1), n);
    var a := EvalLValue(env, lv, st.mem).value;
    var t1 := LValueRun(env, lv, 0, st, a);
    var r := EvalExpr(env, value, a.mem).value;
    var t2 := ExprRun(env, value, 1, t1, r);
    ExecThen(env, CLValue(lv, 0), CExpr(value, 1), st, t1, t2);
    t := ThenStore(env, CLValue(lv, 0) + CExpr(value, 1), 1, 0, LvSize(lv), st, t2, m);
  }

  lemma AmountRun(env: Env, lv: LValue, amount: Option<Expr>, st: St, r: Result) returns (t: St)
    requires RegsBelow(CAmount(lv, amount), |st.regs|) && |st.regs| >= MAX_PARAMS && !env.typed
    requires EvalAmount(env, lv, amount, st.mem) == Some(r)
    ensures Exec(env, CAmount(lv, amount), st) == Some(t) && Leaves(st, t, 2, r.v, r.mem)
  {
    hide Exec, RegsBelow, CExpr, EvalExpr, Binary;
    var inc := IncrementSize(lv);
    match amount
    case None => t := ConstRun(env, 2, inc, st);
    case Some(e) =>
      var scale := if inc != 1 then [Const(3, inc), Ins2(Mul, 2, 3)] else [];
      RegsSplit(CExpr(e, 2), scale, |st.regs|);
      var v := EvalExpr(env, e, st.mem).value;
      t := ExprRun(env, e, 2, st, v);
      if inc != 1 {
        var code := CExpr(e, 2) + [Const(3, inc)];
        var t1 := ThenWrite(env, CExpr(e, 2), Const(3, inc), st, t, 2, 3, Wrap(inc));
        t := ThenBinary(env, code, Mul, 2, st, t1, v.v, Wrap(inc));
        assert code + [Ins2(Mul, 2, 3)] == CExpr(e, 2) + scale;
      } else {
        assert CExpr(e, 2) + scale == CExpr(e, 2);
      }
  }

  /** The old value in register 1 and the amount in register 2. */
  lemma OldAndAmount(env: Env, lv: LValue, amount: Option<Expr>, st: St, a: Result, v: Word, r: Result) returns (t: St)
    requires RegsBelow(CLValue(lv, 0) + [Read(1, 0, LvSize(lv))] + CAmount(lv, amount), |st.regs|)
    requires |st.regs| >= MAX_PARAMS && !env.typed
    requires EvalLValue(env, lv, st.mem) == Some(a) && ReadMem(env, a.mem, a.v, LvSize(lv)) == Some(v)
    requires EvalAmount(env, lv, amount, a.mem) == Some(r)
    ensures Exec(env, CLValue(lv, 0) + [Read(1, 0, LvSize(lv))] + CAmount(lv, amount), st) == Some(t)
    ensures Same(st, t) && t.mem == r.mem && t.regs[0] == a.v && t.regs[1] == v && t.regs[2] == r.v
  {
    hide Exec, RegsBelow, CLValue, CAmount, EvalLValue, EvalAmount, ReadMem, LvSize;
    var n, size := |st.regs|, LvSize(lv);
    var read := Read(1, 0, size);
    var front := CLValue(lv, 0) + [read];
    RegsSplit(front, CAmount(lv, amount), n);
    RegsSplit(CLValue(lv, 0), [read], n);
    var t1 := LValueRun(env, lv, 0, st, a);
    var t2 := ThenWrite(env, CLValue(lv, 0), read, st, t1, 0, 1, v);
    t := AmountRun(env, lv, amount, t2, r);
    ExecThen(env, front, CAmount(lv, amount), st, t2, t);
  }

  lemma UpdateRun(env: Env, lv: LValue, op: BinaryOp, amount: Option<Expr>, st: St, m: Mem) returns (t: St)
    requires RegsBelow(CAssign(Update(lv, op, amount)), |st.regs|) && |st.regs| >= MAX_PARAMS && !env.typed
    requires EvalAssign(env, Update(lv, op, amount), st.mem) == Some(m)
    ensures Exec(env, CAssign(Update(lv, op, amount)), st) == Some(t) && Same(st, t) && t.mem == m
    ensures StoredValue(env, Update(lv, op, amount), st.mem) == Some(t.regs[1])
  {
    hide Exec, RegsBelow, CAssign, CLValue, CAmount, EvalLValue, EvalAmount, WriteMem, ReadMem, Binary, LvSize;
    var size := LvSize(lv);
    var front := CLValue(lv, 0) + [Read(1, 0, size)] + CAmount(lv, amount);
    var apply, write := [Ins2(op, 1, 2)], [Write(1, 0, size)];
    UpdateCode(lv, op, amount);
    assert apply + write == [Ins2(op, 1, 2), Write(1, 0, size)];
    RegsSplit(front, apply + write, |st.regs|);
    var a := EvalLValue(env, lv, st.mem).value;
    var v := ReadMem(env, a.mem, a.v, size).value;
    var r := EvalAmount(env, lv, amount, a.mem).value;
    var t1 := OldAndAmount(env, lv, amount, st, a, v, r);
    var t2 := t1.(regs := t1.regs[1 := Binary(op, v, r.v)]);
    ExecOne(env, Ins2(op, 1, 2), t1);
    ExecThen(env, front, apply, st, t1, t2);
    t := ThenStore(env, front + apply, 1, 0, size, st, t2, m);
    assert front + apply + write == front + (apply + write);
  }

  lemma UpdateCode(lv: LValue, op: BinaryOp, amount: Option<Expr>)
    ensures CAssign(Update(lv, op, amount))
         == CLValue(lv, 0) + [Read(1, 0, LvSize(lv))] + CAmount(lv, amount) + [Ins2(op, 1, 2), Write(1, 0, LvSize(lv))]
  {
  }

  lemma CallThroughRun(env: Env, lv: LValue, args: seq<Expr>, st: St, m: Mem) returns (t: St)
    requires RegsBelow(CAssign(CallThrough(lv, args)), |st.regs|) && |st.regs| >= MAX_PARAMS && !env.typed
    requires EvalAssign(env, CallThrough(lv, args), st.mem) == Some(m)
    ensures Exec(env, CAssign(CallThrough(lv, args)), st) == Some(t) && Same(st, t) && t.mem == m
  {
    hide Exec, RegsBelow, CLValue, CPointerCall, EvalLValue, EvalPointerCall, ReadMem;
    var n, size := |st.regs|, LvSize(lv);
    var read := Read(0, 0, size);
    RegsSplit(CLValue(lv, 0) + [read], CPointerCall(args, 0), n);
    RegsSplit(CLValue(lv, 0), [read], n);
    RegsOfPointerCall(args, 0, n);
    var a := EvalLValue(env, lv, st.mem).value;
    var t1 := LValueRun(env, lv, 0, st, a);
    var f := ReadMem(env, a.mem, a.v, size).value;
    var t2 := ThenWrite(env, CLValue(lv, 0), read, st, t1, 0, 0, f);
    var r := EvalPointerCall(env, f, args, a.mem).value;
    t := PointerCallRun(env, args, 0, t2, f, r);
    ExecThen(env, CLValue(lv, 0) + [read], CPointerCall(args, 0), st, t2, t);
  }

  lemma AssignRun(env: Env, x: Assign, st: St, m: Mem) returns (t: St)
    requires RegsBelow(CAssign(x), |st.regs|) && |st.regs| >= MAX_PARAMS && !env.typed
    requires EvalAssign(env, x, st.mem) == Some(m)
    ensures Exec(env, CAssign(x), st) == Some(t) && Same(st, t) && t.mem == m
    ensures !x.CallThrough? ==> |t.regs| >= MAX_PARAMS && StoredValue(env, x, st.mem) == Some(t.regs[1])
  {
    hide Exec, RegsBelow, EvalAssign, CAssign, StoredValue;
    match x
    case Store(lv, value) => t := StoreRun(env, lv, value, st, m);
    case Update(lv, op, amount) => t := UpdateRun(env, lv, op, amount, st, m);
    case CallThrough(lv, args) => t := CallThroughRun(env, lv, args, st, m);
  }

  lemma OptAssignGoes(w: World, base: nat, x: Option<Assign>, st: St, m: Mem) returns (t: St)
    requires Ready(w, base, COptAssign(x), st) && InBlock(w, base, |COptAssign(x)|)
    requires EvalOptAssign(w.env, x, st.mem) == Some(m)
    ensures Goes(w, Config(base, st), Config(base + |COptAssign(x)|, t)) && Same(st, t) && t.mem == m
  {
    hide Goes, RegsBelow, Exec, CAssign, EvalAssign, At, InBlock;
    match x
    case None =>
      t := st;
      GoesSelf(w, Config(base, st));
    case Some(a) =>
      AtRegs(w.code, base, CAssign(a), |st.regs|);
      t := AssignRun(w.env, a, st, m);
      StraightGoes(w, base, CAssign(a), st, t);
  }

  /** The value that the last initialiser stores. */
  ghost function LastInit(env: Env, inits: seq<Init>, mem: Mem): Option<Word> {
    if inits == [] then None
    else match EvalExpr(env, inits[0].value, mem)
      case None => None
      case Some(r) =>
        if |inits| == 1 then Some(r.v)
        else if inits[0].name !in env.addr then None
        else match WriteMem(env, r.mem, env.addr[inits[0].name], inits[0].size, r.v)
          case None => None
          case Some(m) => LastInit(env, inits[1..], m)
  }

  lemma {:induction false} InitsRun(env: Env, inits: seq<Init>, st: St, m: Mem) returns (t: St)
    requires RegsBelow(CInits(inits), |st.regs|) && |st.regs| >= MAX_PARAMS && !env.typed
    requires EvalInits(env, inits, st.mem) == Some(m)
    ensures Exec(env, CInits(inits), st) == Some(t) && Same(st, t) && t.mem == m
    ensures inits != [] ==> LastInit(env, inits, st.mem) == Some(t.regs[1])
  {
    hide Exec, RegsBelow, CExpr, EvalExpr, WriteMem;
    if inits == [] {
      t := st;
      ExecNone(env, st);
    } else {
      var x, n := inits[0], |st.regs|;
      var addr, write := Named(GetVarAddr, 0, x.name), Write(1, 0, x.size);
      RegsSplit(CExpr(x.value, 1) + [addr, write], CInits(inits[1..]), n);
      RegsSplit(CExpr(x.value, 1), [addr, write], n);
      var r := EvalExpr(env, x.value, st.mem).value;
      var t1 := ExprRun(env, x.value, 1, st, r);
      var t2 := ThenWrite(env, CExpr(x.value, 1), addr, st, t1, 0, 0, env.addr[x.name]);
      var m1 := WriteMem(env, r.mem, env.addr[x.name], x.size, r.v).value;
      var t3 := ThenStore(env, CExpr(x.value, 1) + [addr], 1, 0, x.size, st, t2, m1);
      assert CExpr(x.value, 1) + [addr] + [write] == CExpr(x.value, 1) + [addr, write];
      t := InitsRun(env, inits[1..], t3, m);
      if |inits| == 1 { assert CInits(inits[1..]) == []; ExecNone(env, t3); }
      ExecThen(env, CExpr(x.value, 1) + [addr, write], CInits(inits[1..]), st, t3, t);
    }
  }

  // ----- statements -----

  /** Where the parts of a piece lie: the first part is ready, and so is the rest behind it. */
  lemma Split(w: World, base: nat, a: seq<Instr>, b: seq<Instr>, st: St)
    requires Ready(w, base, a + b, st)
    ensures Ready(w, base, a, st) && Ready(w, base + |a|, b, st)
  {
    hide RegsBelow, InCode;
    InCodeSplit(w, base, a, b);
  }

  /** The theorem: the code of a statement takes every run from its first index to where its outcome says. */
  lemma {:induction false} StmtGoes(w: World, s: Stmt, base: nat, brk: nat, st: St, fuel: nat, o: Outcome)
    returns (c: Config)
    requires Ready(w, base, CStmt(s, base, brk), st) && WellFormed(s, w.exits) && Scoped(w, s, base, brk)
    requires EvalStmt(w.env, s, st.mem, st.entered, fuel) == Some(o)
    ensures Goes(w, Config(base, st), c) && Lands(w, o, st, base + |CStmt(s, base, brk)|, brk, c)
    decreases fuel, s, 2
  {
    hide Goes, Ready;
    match s
    case Compound(_, _) => c := CompoundGoes(w, s, base, brk, st, fuel, o);
    case ReturnFrom(_, _) => c := ReturnGoes(w, s, base, brk, st, fuel, o);
    case If(_, _, _) => c := IfGoes(w, s, base, brk, st, fuel, o);
    case While(_, _) => c := WhileGoes(w, s, base, brk, st, fuel, o);
    case DoWhile(_, _) => c := DoGoes(w, s, base, brk, st, fuel, o);
    case For(_, _, _, _) => c := ForGoes(w, s, base, brk, st, fuel, o);
    case Switch(_, _) => c := SwitchGoes(w, s, base, brk, st, fuel, o);
    case _ => c := SimpleGoes(w, s, base, brk, st, fuel, o);
  }

  lemma SimpleGoes(w: World, s: Stmt, base: nat, brk: nat, st: St, fuel: nat, o: Outcome) returns (c: Config)
    requires s.Break? || s.Empty? || s.Declare? || s.Evaluate? || s.Assignment?
    requires Ready(w, base, CStmt(s, base, brk), st) && Scoped(w, s, base, brk)
    requires EvalStmt(w.env, s, st.mem, st.entered, fuel) == Some(o)
    ensures Goes(w, Config(base, st), c) && Lands(w, o, st, base + |CStmt(s, base, brk)|, brk, c)
  {
    hide Goes, RegsBelow, At, Exec, CInits, COperand, CAssign, EvalInits, EvalOperand, EvalAssign, InBlock;
    var n := |st.regs|;
    var code := CStmt(s, base, brk);
    AtRegs(w.code, base, code, n);
    match s
    case Break(after) =>
      InCodeSplit(w, base, [Target(Jump, brk)], CStmt(after, base + 1, brk));
      c := Config(brk, st);
      JumpGoes(w, base, brk, st);
    case Empty =>
      c := Config(base, st);
      GoesSelf(w, c);
    case Declare(_, ds) =>
      var t := InitsRun(w.env, InitsOf(ds), st, o.mem);
      c := Config(base + |code|, t);
      StraightGoes(w, base, code, st, t);
    case Evaluate(e) =>
      var t := OperandRun(w.env, e, 0, st, EvalOperand(w.env, e, st.mem).value);
      c := Config(base + |code|, t);
      StraightGoes(w, base, code, st, t);
    case Assignment(a) =>
      var t := AssignRun(w.env, a, st, o.mem);
      c := Config(base + |code|, t);
      StraightGoes(w, base, code, st, t);
  }

  lemma ReturnGoes(w: World, s: Stmt, base: nat, brk: nat, st: St, fuel: nat, o: Outcome) returns (c: Config)
    requires s.ReturnFrom? && s.fname in w.exits && Ready(w, base, CStmt(s, base, brk), st) && Scoped(w, s, base, brk)
    requires EvalStmt(w.env, s, st.mem, st.entered, fuel) == Some(o)
    ensures Goes(w, Config(base, st), c) && Lands(w, o, st, base + |CStmt(s, base, brk)|, brk, c)
  {
    hide Goes, Ready, CExpr, EvalExpr;
    var ins := Named(Return, 0, s.fname);
    var value := match s.value case None => [] case Some(e) => CExpr(e, 0);
    Split(w, base, value, [ins], st);
    var t := st;
    match s.value {
      case None => GoesSelf(w, Config(base, st));
      case Some(e) => t := ExprGoes(w, base, e, 0, st, EvalExpr(w.env, e, st.mem).value);
    }
    c := Config(w.exits[s.fname], t);
    ReturnStep(w, base + |value|, s.fname, st, t);
    GoesThen(w, Config(base, st), Config(base + |value|, t), c);
  }

  lemma ReturnStep(w: World, pc: nat, f: string, st: St, t: St)
    requires Ready(w, pc, [Named(Return, 0, f)], st) && f in w.exits
    ensures Goes(w, Config(pc, t), Config(w.exits[f], t))
  {
    hide Goes;
    AtOne(w.code, pc, Named(Return, 0, f));
    GoesStep(w, Config(pc, t), Config(w.exits[f], t));
  }

  lemma {:induction false} CompoundGoes(w: World, s: Stmt, base: nat, brk: nat, st: St, fuel: nat, o: Outcome)
    returns (c: Config)
    requires s.Compound? && Ready(w, base, CStmt(s, base, brk), st) && WellFormed(s, w.exits) && Scoped(w, s, base, brk)
    requires EvalStmt(w.env, s, st.mem, st.entered, fuel) == Some(o)
    ensures Goes(w, Config(base, st), c) && Lands(w, o, st, base + |CStmt(s, base, brk)|, brk, c)
    decreases fuel, s, 1
  {
    hide Goes, Ready, CStmts, EvalStmts, AllScoped, Wider, Exposed;
    var start, end := Marker(BlockStart, s.id), Marker(BlockEnd, s.id);
    var body := CStmts(s.body, base + 1, brk);
    var v, inner := WithinBlock(w, s.id), EnterBlock(w.env, s.id, st);
    Split(w, base, [start] + body, [end], st);
    Split(w, base, [start], body, st);
    StartGoes(w, base, s.id, st);
    InnerReady(w, s.id, base + 1, body, st, inner);
    c := StmtsGoes(v, s.body, base + 1, brk, inner, fuel, o);
    WiderGoes(v, w, Config(base + 1, inner), c);
    GoesThen(w, Config(base, st), Config(base + 1, inner), c);
    if o.Normal? {
      EndGoes(w, base + 1 + |body|, s.id, st, c.st);
      var d := Config(base + |[start] + body + [end]|, c.st);
      GoesThen(w, Config(base, st), c, d);
      c := d;
    }
  }

  lemma StartGoes(w: World, pc: nat, id: nat, st: St)
    requires Ready(w, pc, [Marker(BlockStart, id)], st)
    ensures Goes(w, Config(pc, st), Config(pc + 1, EnterBlock(w.env, id, st)))
  {
    hide Goes, EnterBlock;
    AtOne(w.code, pc, Marker(BlockStart, id));
    GoesStep(w, Config(pc, st), Config(pc + 1, EnterBlock(w.env, id, st)));
  }

  lemma EndGoes(w: World, pc: nat, id: nat, st: St, t: St)
    requires Ready(w, pc, [Marker(BlockEnd, id)], st) && t.stack == st.stack
    ensures Goes(w, Config(pc, t), Config(pc + 1, t))
  {
    hide Goes;
    AtOne(w.code, pc, Marker(BlockEnd, id));
    GoesStep(w, Config(pc, t), Config(pc + 1, t));
  }

  lemma InnerReady(w: World, id: nat, base: nat, piece: seq<Instr>, st: St, t: St)
    requires Ready(w, base, piece, st) && |t.regs| == |st.regs| && t.stack == st.stack
    ensures Ready(WithinBlock(w, id), base, piece, t) && Wider(WithinBlock(w, id), w)
  {
    hide RegsBelow, At;
    assert w.env.(addr := w.env.addr, access := w.env.access) == w.env;
  }

  lemma {:induction false} StmtsGoes(w: World, ss: seq<Stmt>, base: nat, brk: nat, st: St, fuel: nat, o: Outcome)
    returns (c: Config)
    requires Ready(w, base, CStmts(ss, base, brk), st) && AllWellFormed(ss, w.exits) && AllScoped(w, ss, base, brk)
    requires EvalStmts(w.env, ss, st.mem, st.entered, fuel) == Some(o)
    ensures Goes(w, Config(base, st), c) && Lands(w, o, st, base + |CStmts(ss, base, brk)|, brk, c)
    decreases fuel, ss, 1
  {
    hide Goes, Ready, CStmt, EvalStmt, WellFormed, Scoped;
    if ss == [] {
      c := Config(base, st);
      GoesSelf(w, c);
    } else {
      var first := CStmt(ss[0], base, brk);
      var mid := base + |first|;
      Split(w, base, first, CStmts(ss[1..], mid, brk), st);
      var o1 := EvalStmt(w.env, ss[0], st.mem, st.entered, fuel).value;
      c := StmtGoes(w, ss[0], base, brk, st, fuel, o1);
      if o1.Normal? {
        Resume(w, mid, CStmts(ss[1..], mid, brk), st, c.st);
        var d := StmtsGoes(w, ss[1..], mid, brk, c.st, fuel, o);
        GoesThen(w, Config(base, st), c, d);
        c := d;
      }
    }
  }

  /** What is ready for one state is ready for another with as many registers. */
  lemma Resume(w: World, base: nat, piece: seq<Instr>, st: St, t: St)
    requires Ready(w, base, piece, st) && |t.regs| == |st.regs| && t.stack == st.stack
    ensures Ready(w, base, piece, t)
  {
  }

  /** An expression and the conditional jump on its value. */
  lemma TestGoes(w: World, base: nat, e: Expr, op: Op, target: int, st: St, r: Result) returns (t: St)
    requires (op.Jz? || op.Jnz?) && Ready(w, base, CExpr(e, 0) + [Target(op, target)], st)
    requires InBlock(w, base, |CExpr(e, 0)|) && EvalExpr(w.env, e, st.mem) == Some(r)
    ensures var next := base + |CExpr(e, 0)| + 1;
            Goes(w, Config(base, st), Config(if (r.v == 0) == op.Jz? then target else next, t))
    ensures Same(st, t) && t.mem == r.mem
  {
    hide Goes, RegsBelow, CExpr, EvalExpr, InBlock;
    Split(w, base, CExpr(e, 0), [Target(op, target)], st);
    t := ExprGoes(w, base, e, 0, st, r);
    var jump := base + |CExpr(e, 0)|;
    CondGoes(w, jump, op, target, t);
    GoesThen(w, Config(base, st), Config(jump, t), Config(if (r.v == 0) == op.Jz? then target else jump + 1, t));
  }

  lemma JumpFrom(w: World, c: Config, d: Config, target: int, st: St)
    requires Goes(w, c, d) && d.pc >= 0 && Ready(w, d.pc, [Target(Jump, target)], st)
    ensures Goes(w, c, Config(target, d.st))
  {
    hide Goes;
    JumpGoes(w, d.pc, target, d.st);
    GoesThen(w, c, d, Config(target, d.st));
  }

  lemma LabelFrom(w: World, c: Config, d: Config, st: St)
    requires Goes(w, c, d) && d.pc >= 0 && Ready(w, d.pc, [Ins(Label, 0)], st)
    ensures Goes(w, c, Config(d.pc + 1, d.st))
  {
    hide Goes;
    LabelGoes(w, d.pc, Ins(Label, 0), d.st);
    GoesThen(w, c, d, Config(d.pc + 1, d.st));
  }

  lemma IfSplit(w: World, s: Stmt, base: nat, brk: nat, st: St)
    requires s.If? && Ready(w, base, CStmt(s, base, brk), st)
    ensures var f := IfPlaces(s, base, brk);
            && Ready(w, base, CExpr(s.cond, 0) + [Target(Jz, if s.els.None? then f.after else f.after + 1)], st)
            && Ready(w, f.inner, CStmt(s.thn, f.inner, brk), st) && Ready(w, f.end, [Ins(Label, 0)], st)
            && (s.els.Some? ==>
                  && Ready(w, f.after, [Target(Jump, f.end)], st) && Ready(w, f.after + 1, [Ins(Label, 0)], st)
                  && Ready(w, f.after + 2, CStmt(s.els.value, f.after + 2, brk), st))
            && f.end + 1 == base + |CStmt(s, base, brk)|
            && f.inner == base + |CExpr(s.cond, 0)| + 1 && f.after == f.inner + |CStmt(s.thn, f.inner, brk)|
            && (s.els.None? ==> f.end == f.after)
            && (s.els.Some? ==> f.end == f.after + 2 + |CStmt(s.els.value, f.after + 2, brk)|)
  {
    hide At, RegsBelow, CStmt, CExpr;
    IfPieces(w.code, s, base, brk);
  }

  lemma {:induction false} IfGoes(w: World, s: Stmt, base: nat, brk: nat, st: St, fuel: nat, o: Outcome)
    returns (c: Config)
    requires s.If? && Ready(w, base, CStmt(s, base, brk), st) && WellFormed(s, w.exits) && Scoped(w, s, base, brk)
    requires EvalStmt(w.env, s, st.mem, st.entered, fuel) == Some(o)
    ensures Goes(w, Config(base, st), c) && Lands(w, o, st, base + |CStmt(s, base, brk)|, brk, c)
    decreases fuel, s, 1
  {
    hide Goes, Ready, CExpr, EvalExpr, CStmt, IfPlaces;
    var f := IfPlaces(s, base, brk);
    IfSplit(w, s, base, brk, st);
    var r := EvalExpr(w.env, s.cond, st.mem).value;
    var from := Config(base, st);
    var t := TestGoes(w, base, s.cond, Jz, if s.els.None? then f.after else f.after + 1, st, r);
    if r.v != 0 {
      Resume(w, f.inner, CStmt(s.thn, f.inner, brk), st, t);
      c := StmtGoes(w, s.thn, f.inner, brk, t, fuel, o);
      GoesThen(w, from, Config(f.inner, t), c);
      if o.Normal? && s.els.Some? {
        JumpFrom(w, from, c, f.end, st);
        c := Config(f.end, c.st);
      }
    } else if s.els.Some? {
      LabelFrom(w, from, Config(f.after + 1, t), st);
      Resume(w, f.after + 2, CStmt(s.els.value, f.after + 2, brk), st, t);
      c := StmtGoes(w, s.els.value, f.after + 2, brk, t, fuel, o);
      GoesThen(w, from, Config(f.after + 2, t), c);
    } else {
      c := Config(f.after, t);
    }
    if o.Normal? {
      LabelFrom(w, from, c, st);
      c := Config(f.end + 1, c.st);
    }
  }

  lemma WhileSplit(w: World, s: Stmt, base: nat, brk: nat, st: St)
    requires s.While? && Ready(w, base, CStmt(s, base, brk), st)
    ensures var f := WhilePlaces(s, base, brk);
            && Ready(w, base, [Ins(Label, 0)], st) && Ready(w, base + 1, CExpr(s.cond, 0) + [Target(Jz, f.end)], st)
            && Ready(w, f.inner, CStmt(s.inner, f.inner, brk), st)
            && f.end >= 1 && Ready(w, f.end - 1, [Target(Jump, base)], st) && Ready(w, f.end, [Ins(Label, 0)], st)
            && f.end + 1 == base + |CStmt(s, base, brk)|
            && f.inner == base + |CExpr(s.cond, 0)| + 2 && f.end == f.inner + |CStmt(s.inner, f.inner, brk)| + 1
  {
    hide At, RegsBelow, CStmt, CExpr;
    WhilePieces(w.code, s, base, brk);
  }

  lemma {:induction false} WhileGoes(w: World, s: Stmt, base: nat, brk: nat, st: St, fuel: nat, o: Outcome)
    returns (c: Config)
    requires s.While? && Ready(w, base, CStmt(s, base, brk), st) && WellFormed(s, w.exits) && Scoped(w, s, base, brk)
    requires EvalStmt(w.env, s, st.mem, st.entered, fuel) == Some(o)
    ensures Goes(w, Config(base, st), c) && Lands(w, o, st, base + |CStmt(s, base, brk)|, brk, c)
    decreases fuel, s, 1
  {
    hide Goes, Ready, CExpr, EvalExpr, CStmt, WhilePlaces;
    var f := WhilePlaces(s, base, brk);
    WhileSplit(w, s, base, brk, st);
    var from := Config(base, st);
    GoesSelf(w, from);
    LabelFrom(w, from, from, st);
    var r := EvalExpr(w.env, s.cond, st.mem).value;
    var t := TestGoes(w, base + 1, s.cond, Jz, f.end, st, r);
    GoesThen(w, from, Config(base + 1, st), Config(if r.v == 0 then f.end else f.inner, t));
    if r.v == 0 {
      LabelFrom(w, from, Config(f.end, t), st);
      c := Config(f.end + 1, t);
    } else {
      Resume(w, f.inner, CStmt(s.inner, f.inner, brk), st, t);
      var o1 := EvalStmt(w.env, s.inner, r.mem, st.entered, fuel).value;
      c := StmtGoes(w, s.inner, f.inner, brk, t, fuel, o1);
      GoesThen(w, from, Config(f.inner, t), c);
      if o1.Normal? {
        JumpFrom(w, from, c, base, st);
        Resume(w, base, CStmt(s, base, brk), st, c.st);
        var d := StmtGoes(w, s, base, brk, c.st, fuel - 1, o);
        GoesThen(w, from, Config(base, c.st), d);
        c := d;
      }
    }
  }

  lemma DoSplit(w: World, s: Stmt, base: nat, brk: nat, st: St)
    requires s.DoWhile? && Ready(w, base, CStmt(s, base, brk), st)
    ensures var test := DoTest(s, base, brk);
            && Ready(w, base, [Ins(Label, 0)], st) && Ready(w, base + 1, CStmt(s.inner, base + 1, brk), st)
            && Ready(w, test, CExpr(s.cond, 0) + [Target(Jnz, base)], st)
            && test == base + 1 + |CStmt(s.inner, base + 1, brk)|
            && test + |CExpr(s.cond, 0)| + 1 == base + |CStmt(s, base, brk)|
  {
    hide At, RegsBelow, CStmt, CExpr;
    DoPieces(w.code, s, base, brk);
  }

  lemma {:induction false} DoGoes(w: World, s: Stmt, base: nat, brk: nat, st: St, fuel: nat, o: Outcome)
    returns (c: Config)
    requires s.DoWhile? && Ready(w, base, CStmt(s, base, brk), st) && WellFormed(s, w.exits) && Scoped(w, s, base, brk)
    requires EvalStmt(w.env, s, st.mem, st.entered, fuel) == Some(o)
    ensures Goes(w, Config(base, st), c) && Lands(w, o, st, base + |CStmt(s, base, brk)|, brk, c)
    decreases fuel, s, 1
  {
    hide Goes, Ready, CExpr, EvalExpr, CStmt, DoTest;
    DoSplit(w, s, base, brk, st);
    var test, from := DoTest(s, base, brk), Config(base, st);
    GoesSelf(w, from);
    LabelFrom(w, from, from, st);
    var o1 := EvalStmt(w.env, s.inner, st.mem, st.entered, fuel).value;
    c := StmtGoes(w, s.inner, base + 1, brk, st, fuel, o1);
    GoesThen(w, from, Config(base + 1, st), c);
    if o1.Normal? {
      Resume(w, test, CExpr(s.cond, 0) + [Target(Jnz, base)], st, c.st);
      var r := EvalExpr(w.env, s.cond, c.st.mem).value;
      var t := TestGoes(w, test, s.cond, Jnz, base, c.st, r);
      var d := Config(if r.v != 0 then base else test + |CExpr(s.cond, 0)| + 1, t);
      GoesThen(w, from, c, d);
      c := d;
      if r.v != 0 {
        Resume(w, base, CStmt(s, base, brk), st, t);
        c := StmtGoes(w, s, base, brk, t, fuel - 1, o);
        GoesThen(w, from, d, c);
      }
    }
  }

  // ----- for loops -----

  /** Every piece of a for loop after its initialisation is in place. */
  ghost predicate ForReady(w: World, s: Stmt, base: nat, brk: nat, st: St)
    requires s.For?
  {
    var f := ForPlaces(s, base, brk);
    && Ready(w, f.start, [Ins(Label, 0)], st) && Ready(w, f.start + 1, CTest(s.test) + [Target(Jz, f.end)], st)
    && Ready(w, f.increment - 1, [Target(Jump, f.entry)], st) && Ready(w, f.increment, [Ins(Label, 0)], st)
    && Ready(w, f.increment + 1, COptAssign(s.step), st) && Ready(w, f.entry - 1, [Target(Jump, f.start)], st)
    && Ready(w, f.entry, [Ins(Label, 0)], st) && Ready(w, f.entry + 1, CStmt(s.inner, f.entry + 1, brk), st)
    && Ready(w, f.end - 1, [Target(Jump, f.increment)], st) && Ready(w, f.end, [Ins(Label, 0)], st)
  }

  lemma ForSplit(w: World, s: Stmt, base: nat, brk: nat, st: St)
    requires s.For? && Ready(w, base, CStmt(s, base, brk), st)
    ensures Ready(w, base, COptAssign(s.init), st) && ForReady(w, s, base, brk, st)
    ensures ForPlaces(s, base, brk).end + 1 == base + |CStmt(s, base, brk)|
  {
    hide At, RegsBelow, CStmt, COptAssign, CTest;
    ForPieces(w.code, s, base, brk);
  }

  lemma ForResume(w: World, s: Stmt, base: nat, brk: nat, st: St, t: St)
    requires s.For? && ForReady(w, s, base, brk, st) && |t.regs| == |st.regs| && t.stack == st.stack
    ensures ForReady(w, s, base, brk, t)
  {
    hide At, RegsBelow, ForPlaces;
  }

  /** The test of a for loop, which may be missing. */
  lemma ForTestGoes(w: World, base: nat, test: Option<Expr>, target: int, st: St, r: Result) returns (t: St)
    requires Ready(w, base, CTest(test) + [Target(Jz, target)], st) && InBlock(w, base, |CTest(test)|)
    requires EvalTest(w.env, test, st.mem) == Some(r)
    ensures var next := base + |CTest(test)| + 1;
            Goes(w, Config(base, st), Config(if r.v == 0 then target else next, t))
    ensures Same(st, t) && t.mem == r.mem
  {
    hide Goes, RegsBelow, CExpr, EvalExpr, Exec, At;
    match test
    case Some(e) => t := TestGoes(w, base, e, Jz, target, st, r);
    case None =>
      Split(w, base, [Const(0, 1)], [Target(Jz, target)], st);
      t := ConstRun(w.env, 0, 1, st);
      StraightGoes(w, base, [Const(0, 1)], st, t);
      CondGoes(w, base + 1, Jz, target, t);
      GoesThen(w, Config(base, st), Config(base + 1, t), Config(base + 2, t));
  }

  lemma {:induction false} ForGoes(w: World, s: Stmt, base: nat, brk: nat, st: St, fuel: nat, o: Outcome)
    returns (c: Config)
    requires s.For? && Ready(w, base, CStmt(s, base, brk), st) && WellFormed(s, w.exits) && Scoped(w, s, base, brk)
    requires EvalStmt(w.env, s, st.mem, st.entered, fuel) == Some(o)
    ensures Goes(w, Config(base, st), c) && Lands(w, o, st, base + |CStmt(s, base, brk)|, brk, c)
    decreases fuel, s, 1
  {
    hide Goes, Ready, COptAssign, EvalOptAssign, CStmt, ForReady;
    ForSplit(w, s, base, brk, st);
    var m := EvalOptAssign(w.env, s.init, st.mem).value;
    var t := OptAssignGoes(w, base, s.init, st, m);
    ForResume(w, s, base, brk, st, t);
    c := LoopGoes(w, s, base, brk, t, fuel, o);
    GoesThen(w, Config(base, st), Config(base + |COptAssign(s.init)|, t), c);
  }

  /** A for loop from its test on. */
  lemma {:induction false} LoopGoes(w: World, s: Stmt, base: nat, brk: nat, st: St, fuel: nat, o: Outcome)
    returns (c: Config)
    requires s.For? && ForReady(w, s, base, brk, st) && WellFormed(s.inner, w.exits) && Scoped(w, s, base, brk)
    requires EvalFor(w.env, s.test, s.step, s.inner, st.mem, st.entered, fuel) == Some(o)
    ensures var f := ForPlaces(s, base, brk);
            Goes(w, Config(f.start, st), c) && Lands(w, o, st, f.end + 1, brk, c)
    decreases fuel, s, 0
  {
    hide Goes, Ready, COptAssign, EvalOptAssign, CTest, EvalTest, CStmt;
    var f := ForPlaces(s, base, brk);
    var from := Config(f.start, st);
    GoesSelf(w, from);
    LabelFrom(w, from, from, st);
    var r := EvalTest(w.env, s.test, st.mem).value;
    var t := ForTestGoes(w, f.start + 1, s.test, f.end, st, r);
    GoesThen(w, from, Config(f.start + 1, st), Config(if r.v == 0 then f.end else f.increment - 1, t));
    if r.v == 0 {
      LabelFrom(w, from, Config(f.end, t), st);
      c := Config(f.end + 1, t);
    } else {
      JumpFrom(w, from, Config(f.increment - 1, t), f.entry, st);
      LabelFrom(w, from, Config(f.entry, t), st);
      Resume(w, f.entry + 1, CStmt(s.inner, f.entry + 1, brk), st, t);
      var o1 := EvalStmt(w.env, s.inner, r.mem, st.entered, fuel).value;
      c := StmtGoes(w, s.inner, f.entry + 1, brk, t, fuel, o1);
      GoesThen(w, from, Config(f.entry + 1, t), c);
      if o1.Normal? {
        var u := StepGoes(w, s, base, brk, st, from, c, fuel);
        ForResume(w, s, base, brk, st, u);
        c := LoopGoes(w, s, base, brk, u, fuel - 1, o);
        GoesThen(w, from, Config(f.start, u), c);
      }
    }
  }

  /** From the end of the body through the increment back to the test. */
  lemma StepGoes(w: World, s: Stmt, base: nat, brk: nat, st: St, from: Config, c: Config, fuel: nat) returns (u: St)
    requires s.For? && ForReady(w, s, base, brk, st) && Scoped(w, s, base, brk)
    requires |c.st.regs| == |st.regs| && c.st.stack == st.stack
    requires Goes(w, from, c) && c.pc == ForPlaces(s, base, brk).end - 1
    requires EvalOptAssign(w.env, s.step, c.st.mem).Some?
    ensures Goes(w, from, Config(ForPlaces(s, base, brk).start, u)) && Same(c.st, u)
    ensures EvalOptAssign(w.env, s.step, c.st.mem) == Some(u.mem)
  {
    hide Goes, Ready, COptAssign, EvalOptAssign, CTest, CStmt;
    var f := ForPlaces(s, base, brk);
    JumpFrom(w, from, c, f.increment, st);
    LabelFrom(w, from, Config(f.increment, c.st), st);
    Resume(w, f.increment + 1, COptAssign(s.step), st, c.st);
    u := OptAssignGoes(w, f.increment + 1, s.step, c.st, EvalOptAssign(w.env, s.step, c.st.mem).value);
    GoesThen(w, from, Config(f.increment + 1, c.st), Config(f.entry - 1, u));
    JumpFrom(w, from, Config(f.entry - 1, u), f.start, st);
  }

  // ----- switches -----

  /** The index of the label of clause k. */
  function ClausePlace(cs: seq<Clause>, k: nat, base: nat, brk: nat): nat
    requires k <= |cs|
    decreases k
  {
    if k == 0 then base else ClausePlace(cs[1..], k - 1, base + |CClause(cs[0], base, brk)|, brk)
  }

  lemma {:induction false} ClauseReady(w: World, cs: seq<Clause>, k: nat, base: nat, brk: nat, st: St)
    requires k < |cs| && Ready(w, base, CClauses(cs, base, brk), st)
    ensures var place := ClausePlace(cs, k, base, brk);
            Ready(w, place, CClause(cs[k], place, brk), st)
            && ClausePlace(cs, k + 1, base, brk) == place + |CClause(cs[k], place, brk)|
    decreases k
  {
    hide Ready, CClause;
    var first := CClause(cs[0], base, brk);
    Split(w, base, first, CClauses(cs[1..], base + |first|, brk), st);
    if k > 0 {
      ClauseReady(w, cs[1..], k - 1, base + |first|, brk, st);
    } else {
      assert ClausePlace(cs[1..], 0, base + |first|, brk) == base + |first|;
    }
  }

  lemma {:induction false} ClausePlaceEnd(cs: seq<Clause>, base: nat, brk: nat)
    ensures ClausePlace(cs, |cs|, base, brk) == base + |CClauses(cs, base, brk)|
  {
    hide CClause;
    if cs != [] {
      ClausePlaceEnd(cs[1..], base + |CClause(cs[0], base, brk)|, brk);
    }
  }

  /** The code finds the default label where the clause is. */
  lemma {:induction false} DefaultPlace(cs: seq<Clause>, base: nat, brk: nat)
    ensures DefaultAt(cs, base, brk).Some? <==> Default(cs).Some?
    ensures Default(cs).Some? ==>
              Default(cs).value < |cs|
                && DefaultAt(cs, base, brk) == Some(ClausePlace(cs, Default(cs).value, base, brk))
  {
    hide CClause;
    if cs != [] {
      DefaultPlace(cs[1..], base + |CClause(cs[0], base, brk)|, brk);
    }
  }

  /** One comparison with register 1: equal goes to the clause, different to the next check. */
  lemma CheckOne(w: World, at: nat, value: int, place: nat, st: St) returns (t: St)
    requires Ready(w, at, [Const(0, value), Ins2(Equals, 0, 1), Target(Jnz, place)], st) && InBlock(w, at, 2)
    ensures Goes(w, Config(at, st), Config(if Wrap(value) == st.regs[1] then place else at + 3, t))
    ensures Same(st, t) && t.mem == st.mem && t.regs[1] == st.regs[1]
  {
    hide Goes, RegsBelow, At, Exec, Wrap;
    var two, jnz := [Const(0, value), Ins2(Equals, 0, 1)], [Target(Jnz, place)];
    assert two + jnz == [Const(0, value), Ins2(Equals, 0, 1), Target(Jnz, place)];
    Split(w, at, two, jnz, st);
    var t1 := ConstRun(w.env, 0, value, st);
    t1 := st.(regs := st.regs[0 := Wrap(value)]);
    ExecOne(w.env, Const(0, value), st);
    var v := if Wrap(value) == st.regs[1] then 1 else 0;
    t := t1.(regs := t1.regs[0 := v]);
    ExecOne(w.env, Ins2(Equals, 0, 1), t1);
    ExecThen(w.env, [Const(0, value)], [Ins2(Equals, 0, 1)], st, t1, t);
    assert [Const(0, value)] + [Ins2(Equals, 0, 1)] == two;
    StraightGoes(w, at, two, st, t);
    CondGoes(w, at + 2, Jnz, place, t);
    GoesThen(w, Config(at, st), Config(at + 2, t), Config(if v == 1 then place else at + 3, t));
  }

  /** The checks take the first case whose value is in register 1, or fall through with register 1 kept. */
  lemma {:induction false} ChecksGo(w: World, cs: seq<Clause>, base: nat, brk: nat, at: nat, st: St) returns (t: St)
    requires Ready(w, at, CChecks(cs, base, brk), st) && InBlock(w, at, |CChecks(cs, base, brk)|)
    ensures Case(cs, st.regs[1]).Some? ==> Case(cs, st.regs[1]).value < |cs|
    ensures var k := Case(cs, st.regs[1]);
            Goes(w, Config(at, st), Config(if k.Some? then ClausePlace(cs, k.value, base, brk)
                                           else at + |CChecks(cs, base, brk)|, t))
    ensures Same(st, t) && t.mem == st.mem && t.regs[1] == st.regs[1]
    decreases cs
  {
    hide Goes, Ready, CClause, Wrap;
    FirstReg(w, at, CChecks(cs, base, brk), st);
    if cs == [] {
      t := st;
      GoesSelf(w, Config(at, st));
    } else {
      var next := base + |CClause(cs[0], base, brk)|;
      var more := CChecks(cs[1..], next, brk);
      match cs[0].tag
      case None =>
        assert [] + more == more;
        t := ChecksGo(w, cs[1..], next, brk, at, st);
      case Some(value) =>
        var check := [Const(0, value), Ins2(Equals, 0, 1), Target(Jnz, base)];
        Split(w, at, check, more, st);
        t := CheckOne(w, at, value, base, st);
        if Wrap(value) != st.regs[1] {
          Resume(w, at + 3, more, st, t);
          var u := ChecksGo(w, cs[1..], next, brk, at + 3, t);
          var k := Case(cs[1..], t.regs[1]);
          GoesThen(w, Config(at, st), Config(at + 3, t),
                   Config(if k.Some? then ClausePlace(cs[1..], k.value, next, brk) else at + 3 + |more|, u));
          t := u;
        }
    }
  }

  lemma FirstReg(w: World, at: nat, piece: seq<Instr>, st: St)
    requires Ready(w, at, piece, st)
    ensures |st.regs| >= MAX_PARAMS
  {
  }

  /** From clause k on, falling through. */
  lemma {:induction false} ClausesGo(w: World, cs: seq<Clause>, k: nat, base: nat, brk: nat, st: St, fuel: nat,
                                     o: Outcome)
    returns (c: Config)
    requires k <= |cs| && Ready(w, base, CClauses(cs, base, brk), st)
    requires ClausesWellFormed(cs, w.exits) && ClausesScoped(w, cs, base, brk)
    requires EvalClauses(w.env, cs, k, st.mem, st.entered, fuel) == Some(o)
    ensures Goes(w, Config(ClausePlace(cs, k, base, brk), st), c)
    ensures Lands(w, o, st, base + |CClauses(cs, base, brk)|, brk, c)
    decreases fuel, cs, |cs| - k
  {
    hide Goes, Ready, CClause, CClauses, EvalClause, ClausePlace, ClauseWellFormed, ClauseScoped, ClausesScoped;
    var place := ClausePlace(cs, k, base, brk);
    if k == |cs| {
      ClausePlaceEnd(cs, base, brk);
      c := Config(place, st);
      GoesSelf(w, c);
    } else {
      ClauseReady(w, cs, k, base, brk, st);
      OneWellFormed(cs, k, w.exits);
      OneScoped(w, cs, k, base, brk);
      var o1 := EvalClause(w.env, cs[k], st.mem, st.entered, fuel).value;
      c := ClauseGoes(w, cs[k], place, brk, st, fuel, o1);
      if o1.Normal? {
        Resume(w, base, CClauses(cs, base, brk), st, c.st);
        var d := ClausesGo(w, cs, k + 1, base, brk, c.st, fuel, o);
        GoesThen(w, Config(place, st), c, d);
        c := d;
      }
    }
  }

  lemma {:induction false} OneWellFormed(cs: seq<Clause>, k: nat, exits: map<string, int>)
    requires k < |cs| && ClausesWellFormed(cs, exits)
    ensures ClauseWellFormed(cs[k], exits)
  {
    if k > 0 {
      OneWellFormed(cs[1..], k - 1, exits);
    }
  }

  lemma {:induction false} OneScoped(w: World, cs: seq<Clause>, k: nat, base: nat, brk: nat)
    requires k < |cs| && ClausesScoped(w, cs, base, brk)
    ensures ClauseScoped(w, cs[k], ClausePlace(cs, k, base, brk), brk)
    decreases k
  {
    hide CClause, ClauseScoped;
    if k > 0 {
      OneScoped(w, cs[1..], k - 1, base + |CClause(cs[0], base, brk)|, brk);
    }
  }

  lemma {:induction false} ClauseGoes(w: World, x: Clause, base: nat, brk: nat, st: St, fuel: nat, o: Outcome)
    returns (c: Config)
    requires Ready(w, base, CClause(x, base, brk), st) && ClauseWellFormed(x, w.exits) && ClauseScoped(w, x, base, brk)
    requires EvalClause(w.env, x, st.mem, st.entered, fuel) == Some(o)
    ensures Goes(w, Config(base, st), c) && Lands(w, o, st, base + |CClause(x, base, brk)|, brk, c)
    decreases fuel, x, 1
  {
    hide Goes, Ready, CStmts, EvalStmts, AllScoped;
    Split(w, base, [Ins(Label, 0)], CStmts(x.body, base + 1, brk), st);
    GoesSelf(w, Config(base, st));
    LabelFrom(w, Config(base, st), Config(base, st), st);
    c := StmtsGoes(w, x.body, base + 1, brk, st, fuel, o);
    GoesThen(w, Config(base, st), Config(base + 1, st), c);
  }

  lemma {:induction false} ClausesNotNormal(env: Env, cs: seq<Clause>, k: nat, mem: Mem, n: nat, fuel: nat)
    requires k < |cs| && DepartsSomewhere(cs[|cs| - 1].body) && EvalClauses(env, cs, k, mem, n, fuel).Some?
    ensures !EvalClauses(env, cs, k, mem, n, fuel).value.Normal?
    decreases |cs| - k
  {
    hide EvalStmts;
    var o := EvalClause(env, cs[k], mem, n, fuel);
    if k == |cs| - 1 {
      DepartsSomewhereNotNormal(env, cs[k].body, mem, n, fuel);
    } else if o.Some? && o.value.Normal? {
      ClausesNotNormal(env, cs, k + 1, o.value.mem, o.value.entered, fuel);
    }
  }

  /** Every piece of a switch after its expression is in place. */
  ghost predicate SwitchReady(w: World, s: Stmt, base: nat, st: St)
    requires s.Switch?
  {
    var f := SwitchPlaces(s, base);
    && f.exit >= 1 && Ready(w, f.exit - 1, [Target(Jump, f.check)], st) && Ready(w, f.exit, [Target(Jump, f.end)], st)
    && Ready(w, f.first, CClauses(s.clauses, f.first, f.exit), st) && Ready(w, f.check, [Ins(Label, 0)], st)
    && Ready(w, f.check + 1, Checks(s, f.first, f.exit), st)
    && Ready(w, f.end, [Ins(Label, 0)], st)
  }

  lemma SwitchSplit(w: World, s: Stmt, base: nat, brk: nat, st: St)
    requires s.Switch? && Ready(w, base, CStmt(s, base, brk), st)
    ensures Ready(w, base, CExpr(s.on, 1), st) && SwitchReady(w, s, base, st)
    ensures SwitchPlaces(s, base).end + 1 == base + |CStmt(s, base, brk)|
  {
    hide At, RegsBelow, CStmt, CExpr, CClauses, Checks;
    SwitchPieces(w.code, s, base, brk);
  }

  lemma SwitchResume(w: World, s: Stmt, base: nat, st: St, t: St)
    requires s.Switch? && SwitchReady(w, s, base, st) && |t.regs| == |st.regs| && t.stack == st.stack
    ensures SwitchReady(w, s, base, t)
  {
    hide At, RegsBelow, SwitchPlaces;
  }

  ghost predicate ChecksScoped(w: World, s: Stmt, base: nat)
    requires s.Switch?
  {
    var f := SwitchPlaces(s, base);
    InBlock(w, f.check + 1, |CChecks(s.clauses, f.first, f.exit)|)
  }

  /** Dispatch, exactly: from the check label control goes to the selected clause; it leaves the switch at once if and
      only if register 1 equals no case value and there is no default. */
  lemma DispatchGoes(w: World, s: Stmt, base: nat, st: St) returns (t: St)
    requires s.Switch? && SwitchReady(w, s, base, st) && |st.regs| >= MAX_PARAMS && ChecksScoped(w, s, base)
    ensures Select(s.clauses, st.regs[1]).Some? ==> Select(s.clauses, st.regs[1]).value < |s.clauses|
    ensures var f, k := SwitchPlaces(s, base), Select(s.clauses, st.regs[1]);
            Goes(w, Config(f.check, st),
                 Config(if k.Some? then ClausePlace(s.clauses, k.value, f.first, f.exit) else f.end + 1, t))
    ensures Same(st, t) && t.mem == st.mem && t.regs[1] == st.regs[1]
  {
    hide Goes, Ready, CChecks, CClauses, ClausePlace;
    var f, cs := SwitchPlaces(s, base), s.clauses;
    var from := Config(f.check, st);
    GoesSelf(w, from);
    LabelFrom(w, from, from, st);
    var checks, other := CChecks(cs, f.first, f.exit), CDefault(cs, f.first, f.exit);
    Split(w, f.check + 1, checks, other, st);
    t := ChecksGo(w, cs, f.first, f.exit, f.check + 1, st);
    CaseInRange(cs, st.regs[1]);
    var k := Case(cs, st.regs[1]);
    var behind := f.check + 1 + |checks|;
    GoesThen(w, from, Config(f.check + 1, st),
             Config(if k.Some? then ClausePlace(cs, k.value, f.first, f.exit) else behind, t));
    if k.None? {
      DefaultPlace(cs, f.first, f.exit);
      match DefaultAt(cs, f.first, f.exit)
      case Some(place) => JumpFrom(w, from, Config(behind, t), place, st);
      case None => LabelFrom(w, from, Config(behind, t), st);
    }
  }

  lemma {:induction false} SwitchGoes(w: World, s: Stmt, base: nat, brk: nat, st: St, fuel: nat, o: Outcome)
    returns (c: Config)
    requires s.Switch? && Ready(w, base, CStmt(s, base, brk), st) && WellFormed(s, w.exits) && Scoped(w, s, base, brk)
    requires EvalStmt(w.env, s, st.mem, st.entered, fuel) == Some(o)
    ensures Goes(w, Config(base, st), c) && Lands(w, o, st, base + |CStmt(s, base, brk)|, brk, c)
    decreases fuel, s, 1
  {
    hide Goes, Ready, CExpr, EvalExpr, CStmt, SwitchPlaces, ClausePlace, CClauses, EvalClauses, CChecks, CDefault;
    SwitchSplit(w, s, base, brk, st);
    FirstReg(w, base, CExpr(s.on, 1), st);
    var f := SwitchPlaces(s, base);
    var from := Config(base, st);
    var r := EvalExpr(w.env, s.on, st.mem).value;
    var t := ExprGoes(w, base, s.on, 1, st, r);
    assert f.exit - 1 == base + |CExpr(s.on, 1)| by { SwitchExit(s, base); }
    JumpFrom(w, from, Config(f.exit - 1, t), f.check, st);
    SwitchResume(w, s, base, st, t);
    var u := DispatchGoes(w, s, base, t);
    var k := Select(s.clauses, r.v);
    GoesThen(w, from, Config(f.check, t),
             Config(if k.Some? then ClausePlace(s.clauses, k.value, f.first, f.exit) else f.end + 1, u));
    if k.None? {
      c := Config(f.end + 1, u);
    } else {
      SwitchResume(w, s, base, t, u);
      var o1 := EvalClauses(w.env, s.clauses, k.value, r.mem, st.entered, fuel).value;
      c := ClausesGo(w, s.clauses, k.value, f.first, f.exit, u, fuel, o1);
      GoesThen(w, from, Config(ClausePlace(s.clauses, k.value, f.first, f.exit), u), c);
      ClausesNotNormal(w.env, s.clauses, k.value, r.mem, st.entered, fuel);
      if o1.Broke? {
        JumpFrom(w, from, c, f.end, st);
        LabelFrom(w, from, Config(f.end, c.st), st);
        c := Config(f.end + 1, c.st);
      }
    }
  }

  lemma SwitchExit(s: Stmt, base: nat)
    requires s.Switch?
    ensures SwitchPlaces(s, base).exit == base + |CExpr(s.on, 1)| + 1
    ensures SwitchPlaces(s, base).first == SwitchPlaces(s, base).exit + 1
  {
  }

  // ----- a switch whose last clause does not leave -----

  /** The indices of the clauses only. */
  function ClausesOnly(w: World, s: Stmt, base: nat): World
    requires s.Switch?
  {
    w.(lo := SwitchPlaces(s, base).first, hi := SwitchPlaces(s, base).check)
  }

  /** What the lemmas below start from: clauses from k on are entered in state st. */
  ghost predicate AtClause(w: World, s: Stmt, base: nat, k: nat, st: St)
    requires s.Switch?
  {
    var f := SwitchPlaces(s, base);
    && SwitchReady(w, s, base, st) && ChecksScoped(w, s, base) && k <= |s.clauses| && |st.regs| >= MAX_PARAMS
    && ClausesWellFormed(s.clauses, w.exits) && ClausesScoped(ClausesOnly(w, s, base), s.clauses, f.first, f.exit)
  }

  /** Control goes on where a dispatch on v sends it: behind the switch if and only if v is no case value and there is
      no default, else to the clause selected. */
  ghost predicate Redispatches(w: World, s: Stmt, base: nat, from: Config, v: Word, t: St)
    requires s.Switch?
  {
    var f, j := SwitchPlaces(s, base), Select(s.clauses, v);
    && (j.Some? ==> j.value < |s.clauses|)
    && var place :=
         if j.Some? && j.value < |s.clauses| then ClausePlace(s.clauses, j.value, f.first, f.exit) else f.end + 1;
       Goes(w, from, Config(place, t))
  }

  /** Falling off the last clause dispatches once more, on what register 1 holds by then. */
  lemma FallOffDispatches(w: World, s: Stmt, base: nat, from: Config, u: St, st: St) returns (t: St)
    requires s.Switch? && AtClause(w, s, base, 0, st) && |u.regs| == |st.regs| && u.stack == st.stack
    requires Goes(w, from, Config(SwitchPlaces(s, base).check, u))
    ensures Redispatches(w, s, base, from, u.regs[1], t) && Same(u, t) && t.mem == u.mem
  {
    hide Goes, ClausePlace, CClauses, ClausesWellFormed, ClausesScoped, CChecks, RegsBelow, At, InBlock, CExpr, Checks;
    SwitchResume(w, s, base, st, u);
    t := DispatchGoes(w, s, base, u);
    var f, j := SwitchPlaces(s, base), Select(s.clauses, u.regs[1]);
    GoesThen(w, from, Config(f.check, u),
             Config(if j.Some? then ClausePlace(s.clauses, j.value, f.first, f.exit) else f.end + 1, t));
  }

  lemma ClausesAlone(w: World, s: Stmt, base: nat, k: nat, st: St)
    requires s.Switch? && AtClause(w, s, base, k, st)
    ensures var f, v := SwitchPlaces(s, base), ClausesOnly(w, s, base);
            && Ready(v, f.first, CClauses(s.clauses, f.first, f.exit), st) && Wider(v, w) && v.hi == f.check
            && f.check == f.first + |CClauses(s.clauses, f.first, f.exit)|
  {
    hide At, RegsBelow, CClauses, Checks, CExpr, ClausesScoped, ClausesWellFormed, InBlock;
    assert w.env.(addr := w.env.addr, access := w.env.access) == w.env;
  }

  // ----- register 1 through clauses that do not write it -----

  /** Leaves register 1 alone. */
  predicate KeepsOne(ins: Instr) {
    !IlMachine.IsCall(ins)
    && (ins.param == 1 ==>
          || ins.op.Push? || ins.op.WriteAddr? || ins.op.Label? || ins.op.Jump? || ins.op.Jz? || ins.op.Jnz?
          || ins.op.Return? || ins.op.BlockStart? || ins.op.BlockEnd?)
  }

  predicate Quiet(code: seq<Instr>) {
    forall k :: 0 <= k < |code| ==> KeepsOne(code[k])
  }

  lemma QuietStep(w: World, c: Config, d: Config)
    requires FlowStep(w, c) == Some(d) && 0 <= c.pc < |w.code| && KeepsOne(w.code[c.pc]) && |c.st.regs| >= MAX_PARAMS
    ensures |d.st.regs| == |c.st.regs| && d.st.regs[1] == c.st.regs[1]
  {
    hide Binary, ReadMem, WriteMem, Exposed, BlockAfter;
  }

  lemma {:induction false} QuietRun(w: World, c: Config, n: nat, d: Config)
    requires Run(Stepper(w), c, n) == Some(d) && |c.st.regs| >= MAX_PARAMS
    requires forall k :: w.lo <= k < w.hi && k < |w.code| ==> KeepsOne(w.code[k])
    ensures |d.st.regs| == |c.st.regs| && d.st.regs[1] == c.st.regs[1]
    decreases n
  {
    hide FlowStep, KeepsOne;
    if n > 0 {
      var e := FlowStep(w, c).value;
      InsideRange(w, c, e);
      QuietStep(w, c, e);
      QuietRun(w, e, n - 1, d);
    }
  }

  lemma InsideRange(w: World, c: Config, d: Config)
    requires FlowStep(w, c) == Some(d)
    ensures w.lo <= c.pc < w.hi <= |w.code|
  {
  }

  /** Clauses that emit nothing that writes register 1: it still holds the value of the switch, by which the clause was
      selected, so control comes back to a clause and does not leave. */
  lemma FallOffQuiet(w: World, s: Stmt, base: nat, k: nat, st: St, fuel: nat, m: Mem, n: nat) returns (u: St, t: St)
    requires s.Switch? && AtClause(w, s, base, k, st)
    requires EvalClauses(w.env, s.clauses, k, st.mem, st.entered, fuel) == Some(Normal(m, n))
    requires var f := SwitchPlaces(s, base); Quiet(CClauses(s.clauses, f.first, f.exit))
    ensures u.mem == t.mem == m && |u.regs| == |st.regs| >= MAX_PARAMS && u.regs[1] == st.regs[1]
    ensures var f := SwitchPlaces(s, base);
            var from := Config(ClausePlace(s.clauses, k, f.first, f.exit), st);
            Goes(w, from, Config(f.check, u)) && Redispatches(w, s, base, from, st.regs[1], t)
  {
    hide Goes, ClausePlace, CClauses, EvalClauses, ClausesWellFormed, ClausesScoped, CChecks, CDefault, CExpr,
      RegsBelow, At, Ready, SwitchReady, ChecksScoped, Redispatches, Wider, FlowStep, KeepsOne;
    var f, v := SwitchPlaces(s, base), ClausesOnly(w, s, base);
    var from := Config(ClausePlace(s.clauses, k, f.first, f.exit), st);
    ClausesAlone(w, s, base, k, st);
    var c := ClausesGo(v, s.clauses, k, f.first, f.exit, st, fuel, Normal(m, n));
    u := c.st;
    var steps := StepsOf(v, from, c);
    AllQuiet(v, f.first, CClauses(s.clauses, f.first, f.exit), st);
    QuietRun(v, from, steps, c);
    WiderGoes(v, w, from, c);
    t := FallOffDispatches(w, s, base, from, u, st);
  }

  lemma StepsOf(w: World, c: Config, d: Config) returns (n: nat)
    requires Goes(w, c, d)
    ensures Run(Stepper(w), c, n) == Some(d)
  {
    n :| Run(Stepper(w), c, n) == Some(d);
  }

  lemma AllQuiet(v: World, base: nat, piece: seq<Instr>, st: St)
    requires Ready(v, base, piece, st) && Quiet(piece) && v.lo == base && v.hi == base + |piece|
    ensures forall k :: v.lo <= k < v.hi && k < |v.code| ==> KeepsOne(v.code[k])
  {
    hide RegsBelow, KeepsOne;
    forall k | v.lo <= k < v.hi && k < |v.code| ensures KeepsOne(v.code[k]) {
      AtIndex(v.code, base, piece, k - base);
    }
  }

  // ----- register 1 behind an assignment -----

  /** The clauses without the last statement of the last one. */
  function Trimmed(cs: seq<Clause>): seq<Clause>
    requires cs != [] && cs[|cs| - 1].body != []
  {
    var last := cs[|cs| - 1];
    cs[|cs| - 1 := last.(body := last.body[..|last.body| - 1])]
  }

  lemma {:induction false} StmtsAppend(ss: seq<Stmt>, x: Stmt, base: nat, brk: nat)
    ensures CStmts(ss + [x], base, brk) == CStmts(ss, base, brk) + CStmt(x, base + |CStmts(ss, base, brk)|, brk)
    decreases ss
  {
    hide CStmt;
    if ss == [] {
      assert [] + [x] == [x] && [x][1..] == [];
      assert CStmts([], base + |CStmt(x, base, brk)|, brk) == [];
    } else {
      assert (ss + [x])[1..] == ss[1..] + [x];
      StmtsAppend(ss[1..], x, base + |CStmt(ss[0], base, brk)|, brk);
    }
  }

  lemma {:induction false} ScopedAppend(w: World, ss: seq<Stmt>, x: Stmt, base: nat, brk: nat)
    requires AllScoped(w, ss + [x], base, brk) && AllWellFormed(ss + [x], w.exits)
    ensures AllScoped(w, ss, base, brk) && Scoped(w, x, base + |CStmts(ss, base, brk)|, brk)
    ensures AllWellFormed(ss, w.exits)
    decreases ss
  {
    hide CStmt, Scoped, WellFormed;
    if ss == [] {
      assert [] + [x] == [x];
    } else {
      assert (ss + [x])[1..] == ss[1..] + [x];
      ScopedAppend(w, ss[1..], x, base + |CStmt(ss[0], base, brk)|, brk);
    }
  }

  /** Through the clauses up to their last statement, which stores something. */
  lemma {:induction false} ClausesGoStored(w: World, cs: seq<Clause>, k: nat, base: nat, brk: nat, st: St, fuel: nat,
                                           x: Stmt, m1: Mem, n1: nat, m: Mem) returns (c: Config)
    requires k < |cs| && cs[|cs| - 1].body != [] && cs[|cs| - 1].body[|cs[|cs| - 1].body| - 1] == x && StoresLast(x)
    requires Ready(w, base, CClauses(cs, base, brk), st) && ClausesWellFormed(cs, w.exits)
    requires ClausesScoped(w, cs, base, brk)
    requires EvalClauses(w.env, Trimmed(cs), k, st.mem, st.entered, fuel) == Some(Normal(m1, n1))
    requires Stores(w.env, x, m1) == Some(m)
    ensures Goes(w, Config(ClausePlace(cs, k, base, brk), st), c) && c.pc == base + |CClauses(cs, base, brk)|
    ensures c.st.mem == m && c.st.entered == n1 && |c.st.regs| == |st.regs| && |st.regs| >= MAX_PARAMS
    ensures c.st.stack == st.stack
    ensures StoredBy(w.env, x, m1) == Some(c.st.regs[1])
    decreases |cs| - k
  {
    hide Goes, Ready, CClause, CClauses, EvalClause, ClausePlace, ClauseWellFormed, ClauseScoped, ClausesScoped,
      ClausesWellFormed, StoredBy, Stores;
    var place, ds := ClausePlace(cs, k, base, brk), Trimmed(cs);
    ClauseReady(w, cs, k, base, brk, st);
    OneWellFormed(cs, k, w.exits);
    OneScoped(w, cs, k, base, brk);
    var o1 := EvalClause(w.env, ds[k], st.mem, st.entered, fuel).value;
    if k == |cs| - 1 {
      c := LastClauseGoes(w, cs[k], place, brk, st, fuel, x, o1, m);
      ClausePlaceEnd(cs, base, brk);
      assert EvalClauses(w.env, ds, k + 1, o1.mem, o1.entered, fuel) == Some(o1);
    } else {
      c := ClauseGoes(w, cs[k], place, brk, st, fuel, o1);
      Resume(w, base, CClauses(cs, base, brk), st, c.st);
      FirstReg(w, base, CClauses(cs, base, brk), st);
      var d := ClausesGoStored(w, cs, k + 1, base, brk, c.st, fuel, x, m1, n1, m);
      GoesThen(w, Config(place, st), c, d);
      c := d;
    }
  }

  /** The label, the other statements and the one that stores. */
  lemma LastClauseGoes(w: World, y: Clause, base: nat, brk: nat, st: St, fuel: nat, x: Stmt, o: Outcome, m: Mem)
    returns (c: Config)
    requires y.body != [] && y.body[|y.body| - 1] == x && StoresLast(x)
    requires Ready(w, base, CClause(y, base, brk), st) && ClauseWellFormed(y, w.exits) && ClauseScoped(w, y, base, brk)
    requires EvalClause(w.env, y.(body := y.body[..|y.body| - 1]), st.mem, st.entered, fuel) == Some(o) && o.Normal?
    requires Stores(w.env, x, o.mem) == Some(m)
    ensures Goes(w, Config(base, st), c) && c.pc == base + |CClause(y, base, brk)|
    ensures c.st.mem == m && c.st.entered == o.entered && |c.st.regs| == |st.regs| && |st.regs| >= MAX_PARAMS
    ensures c.st.stack == st.stack && StoredBy(w.env, x, o.mem) == Some(c.st.regs[1])
  {
    hide Goes, RegsBelow, At, Exec, CStmts, CAssign, EvalStmts, Stores, StoredBy, AllScoped, AllWellFormed, InBlock;
    var init, from := y.body[..|y.body| - 1], Config(base, st);
    assert y.body == init + [x];
    var front, mid := CStmts(init, base + 1, brk), base + 1 + |CStmts(init, base + 1, brk)|;
    var code := CStmt(x, mid, brk);
    StmtsAppend(init, x, base + 1, brk);
    ScopedAppend(w, init, x, base + 1, brk);
    Split(w, base, [Ins(Label, 0)], front + code, st);
    Split(w, base + 1, front, code, st);
    GoesSelf(w, from);
    LabelFrom(w, from, from, st);
    c := StmtsGoes(w, init, base + 1, brk, st, fuel, o);
    GoesThen(w, from, Config(base + 1, st), c);
    Resume(w, mid, code, st, c.st);
    var t := StoringGoes(w, x, mid, brk, c.st, m);
    var d := Config(mid + |code|, t);
    GoesThen(w, from, c, d);
    c := d;
  }

  /** A statement that stores something last. */
  predicate StoresLast(x: Stmt) {
    (x.Assignment? && !x.a.CallThrough?) || (x.Declare? && InitsOf(x.ds) != [])
  }

  ghost function Stores(env: Env, x: Stmt, mem: Mem): Option<Mem> {
    match x
    case Assignment(a) => EvalAssign(env, a, mem)
    case Declare(_, ds) => EvalInits(env, InitsOf(ds), mem)
    case _ => None
  }

  /** What it stores last. */
  ghost function StoredBy(env: Env, x: Stmt, mem: Mem): Option<Word> {
    match x
    case Assignment(a) => StoredValue(env, a, mem)
    case Declare(_, ds) => LastInit(env, InitsOf(ds), mem)
    case _ => None
  }

  lemma StoringGoes(w: World, x: Stmt, base: nat, brk: nat, st: St, m: Mem) returns (t: St)
    requires StoresLast(x) && Ready(w, base, CStmt(x, base, brk), st) && Scoped(w, x, base, brk)
    requires Stores(w.env, x, st.mem) == Some(m)
    ensures Goes(w, Config(base, st), Config(base + |CStmt(x, base, brk)|, t)) && Same(st, t) && t.mem == m
    ensures |t.regs| >= MAX_PARAMS && StoredBy(w.env, x, st.mem) == Some(t.regs[1])
  {
    hide Goes, RegsBelow, At, Exec, CInits, CAssign, EvalInits, EvalAssign, StoredValue, LastInit, InBlock;
    var code := CStmt(x, base, brk);
    AtRegs(w.code, base, code, |st.regs|);
    match x {
      case Assignment(a) => t := AssignRun(w.env, a, st, m);
      case Declare(_, ds) => t := InitsRun(w.env, InitsOf(ds), st, m);
    }
    StraightGoes(w, base, code, st, t);
  }

  /** Clauses whose last statement is an assignment or an initialised declaration: register 1 holds the value stored, so
      control leaves the switch, then and there, if and only if that is no case value and there is no default. */
  lemma FallOffStored(w: World, s: Stmt, base: nat, k: nat, st: St, fuel: nat, x: Stmt, m1: Mem, n1: nat, m: Mem,
                      v: Word)
    returns (u: St, t: St)
    requires s.Switch? && AtClause(w, s, base, k, st) && k < |s.clauses|
    requires var last := s.clauses[|s.clauses| - 1].body;
             last != [] && last[|last| - 1] == x && StoresLast(x)
    requires EvalClauses(w.env, Trimmed(s.clauses), k, st.mem, st.entered, fuel) == Some(Normal(m1, n1))
    requires Stores(w.env, x, m1) == Some(m) && StoredBy(w.env, x, m1) == Some(v)
    ensures u.mem == t.mem == m && |u.regs| >= MAX_PARAMS && u.regs[1] == v
    ensures var f := SwitchPlaces(s, base);
            var from := Config(ClausePlace(s.clauses, k, f.first, f.exit), st);
            Goes(w, from, Config(f.check, u)) && Redispatches(w, s, base, from, v, t)
  {
    hide Goes, ClausePlace, CClauses, EvalClauses, ClausesWellFormed, ClausesScoped, CChecks, CDefault, CExpr,
      RegsBelow, At, Ready, SwitchReady, ChecksScoped, Redispatches, Wider, Stores, StoredBy;
    var f, v1 := SwitchPlaces(s, base), ClausesOnly(w, s, base);
    var from := Config(ClausePlace(s.clauses, k, f.first, f.exit), st);
    ClausesAlone(w, s, base, k, st);
    var c := ClausesGoStored(v1, s.clauses, k, f.first, f.exit, st, fuel, x, m1, n1, m);
    u := c.st;
    WiderGoes(v1, w, from, c);
    t := FallOffDispatches(w, s, base, from, u, st);
  }

  // ----- from the start of the switch -----

  /** The switch's code enters the selected clause with its value in register 1. */
  lemma SwitchEnters(w: World, s: Stmt, base: nat, brk: nat, st: St, r: Result, k: nat) returns (t: St)
    requires s.Switch? && Ready(w, base, CStmt(s, base, brk), st) && Scoped(w, s, base, brk)
    requires EvalExpr(w.env, s.on, st.mem) == Some(r) && Select(s.clauses, r.v) == Some(k)
    ensures k < |s.clauses| && SwitchReady(w, s, base, t) && ChecksScoped(w, s, base) && Same(st, t)
    ensures |t.regs| >= MAX_PARAMS && t.regs[1] == r.v && t.mem == r.mem
    ensures var f := SwitchPlaces(s, base);
            Goes(w, Config(base, st), Config(ClausePlace(s.clauses, k, f.first, f.exit), t))
  {
    hide Goes, Ready, CExpr, EvalExpr, CStmt, SwitchPlaces, ClausePlace, CClauses, CChecks, CDefault, InBlock;
    SwitchSplit(w, s, base, brk, st);
    FirstReg(w, base, CExpr(s.on, 1), st);
    var f, from := SwitchPlaces(s, base), Config(base, st);
    var u := ExprGoes(w, base, s.on, 1, st, r);
    assert f.exit - 1 == base + |CExpr(s.on, 1)| by { SwitchExit(s, base); }
    JumpFrom(w, from, Config(f.exit - 1, u), f.check, st);
    SwitchResume(w, s, base, st, u);
    t := DispatchGoes(w, s, base, u);
    GoesThen(w, from, Config(f.check, u), Config(ClausePlace(s.clauses, k, f.first, f.exit), t));
    SwitchResume(w, s, base, u, t);
  }

  /** A switch that falls off clauses that never write register 1 comes back to the clause it entered: it does not
      leave. */
  lemma SwitchReenters(w: World, s: Stmt, base: nat, brk: nat, st: St, fuel: nat, r: Result, k: nat, m: Mem, n: nat)
    returns (t: St)
    requires s.Switch? && Ready(w, base, CStmt(s, base, brk), st) && Scoped(w, s, base, brk)
    requires ClausesWellFormed(s.clauses, w.exits)
    requires var f := SwitchPlaces(s, base);
             && ClausesScoped(ClausesOnly(w, s, base), s.clauses, f.first, f.exit)
             && Quiet(CClauses(s.clauses, f.first, f.exit))
    requires EvalExpr(w.env, s.on, st.mem) == Some(r) && Select(s.clauses, r.v) == Some(k) && k < |s.clauses|
    requires EvalClauses(w.env, s.clauses, k, r.mem, st.entered, fuel) == Some(Normal(m, n))
    ensures var f := SwitchPlaces(s, base);
            Goes(w, Config(base, st), Config(ClausePlace(s.clauses, k, f.first, f.exit), t))
    ensures t.mem == m
  {
    hide Goes, Ready, CExpr, EvalExpr, CStmt, SwitchPlaces, ClausePlace, CClauses, CChecks, CDefault, EvalClauses,
      Scoped, ClausesScoped, Quiet, ClausesWellFormed, SwitchReady, ChecksScoped;
    var u := SwitchEnters(w, s, base, brk, st, r, k);
    var end;
    end, t := FallOffQuiet(w, s, base, k, u, fuel, m, n);
    var f := SwitchPlaces(s, base);
    GoesThen(w, Config(base, st), Config(ClausePlace(s.clauses, k, f.first, f.exit), u),
             Config(ClausePlace(s.clauses, k, f.first, f.exit), t));
  }

  /** A switch that falls off a statement that stores something leaves then and there if and only if the value stored
      selects no clause. */
  lemma SwitchLeavesIff(w: World, s: Stmt, base: nat, brk: nat, st: St, fuel: nat, r: Result, k: nat, x: Stmt, m1: Mem,
                        n1: nat, m: Mem, v: Word) returns (t: St)
    requires s.Switch? && Ready(w, base, CStmt(s, base, brk), st) && Scoped(w, s, base, brk)
    requires ClausesWellFormed(s.clauses, w.exits)
    requires var f := SwitchPlaces(s, base); ClausesScoped(ClausesOnly(w, s, base), s.clauses, f.first, f.exit)
    requires EvalExpr(w.env, s.on, st.mem) == Some(r) && Select(s.clauses, r.v) == Some(k) && k < |s.clauses|
    requires var last := s.clauses[|s.clauses| - 1].body;
             last != [] && last[|last| - 1] == x && StoresLast(x)
    requires EvalClauses(w.env, Trimmed(s.clauses), k, r.mem, st.entered, fuel) == Some(Normal(m1, n1))
    requires Stores(w.env, x, m1) == Some(m) && StoredBy(w.env, x, m1) == Some(v)
    ensures Redispatches(w, s, base, Config(base, st), v, t) && t.mem == m
  {
    hide Goes, Ready, CExpr, EvalExpr, CStmt, SwitchPlaces, ClausePlace, CClauses, CChecks, CDefault, EvalClauses,
      Scoped, ClausesScoped, ClausesWellFormed, SwitchReady, ChecksScoped, Stores, StoredBy;
    var u := SwitchEnters(w, s, base, brk, st, r, k);
    var end;
    end, t := FallOffStored(w, s, base, k, u, fuel, x, m1, n1, m, v);
    var f, j := SwitchPlaces(s, base), Select(s.clauses, v);
    GoesThen(w, Config(base, st), Config(ClausePlace(s.clauses, k, f.first, f.exit), u),
             Config(if j.Some? then ClausePlace(s.clauses, j.value, f.first, f.exit) else f.end + 1, t));
  }

  function LoopingSwitch(): Stmt {
    var one := Digits("1", false);
    Switch(Expr(Num(1, false, one), []), [Clause(CaseOf(1, one), [])])
  }

  /** `switch (1) { case 1: }` has a structured meaning, but its code never gets past its last label. */
  lemma FallOffLoops(env: Env, exits: map<string, int>, blocks: seq<Block>, b: nat, st: St, d: Config)
    requires |st.regs| >= MAX_PARAMS
    ensures var s := LoopingSwitch();
            && EvalStmt(env, s, st.mem, st.entered, 0) == Some(Normal(st.mem, st.entered))
            && |CStmt(s, 0, 0)| == 9
            && (Goes(World(env, exits, CStmt(s, 0, 0), blocks, b, 0, 9), Config(0, st), d) ==> d.pc < 8)
  {
    var s := LoopingSwitch();
    var code := CStmt(s, 0, 0);
    LoopCodeIs(s);
    LoopMeaning(env, s, st.mem, st.entered);
    var w := World(env, exits, code, blocks, b, 0, 9);
    if Goes(w, Config(0, st), d) {
      var n: nat :| Run(Stepper(w), Config(0, st), n) == Some(d);
      LoopRuns(w, Config(0, st), n, d);
    }
  }

  lemma LoopPieces(c: Clause)
    requires c == Clause(CaseOf(1, Digits("1", false)), [])
    ensures CClauses([c], 3, 2) == [Ins(Label, 0)]
    ensures CChecks([c], 3, 2) == [Const(0, 1), Ins2(Equals, 0, 1), Target(Jnz, 3)]
    ensures CDefault([c], 3, 2) == []
  {
    assert [c][1..] == [];
    assert CClause(c, 3, 2) == [Ins(Label, 0)];
    assert DefaultAt([c], 3, 2) == None;
  }

  lemma LoopCodeIs(s: Stmt)
    requires s == LoopingSwitch()
    ensures CStmt(s, 0, 0) == Looping()
  {
    hide CClauses, CChecks, CDefault, CStmts;
    assert CExpr(s.on, 1) == [Const(1, 1)];
    hide CExpr;
    LoopPieces(s.clauses[0]);
    assert s.clauses == [s.clauses[0]];
  }

  lemma LoopMeaning(env: Env, s: Stmt, mem: Mem, n: nat)
    requires s == LoopingSwitch()
    ensures EvalStmt(env, s, mem, n, 0) == Some(Normal(mem, n))
  {
    Levels.LevelLeaf(1);
    assert [1] + [] == [1];
    assert EvalExpr(env, s.on, mem) == Some(Result(1, mem));
    assert Select(s.clauses, 1) == Some(0);
    assert EvalClause(env, s.clauses[0], mem, n, 0) == Some(Normal(mem, n));
    assert EvalClauses(env, s.clauses, 1, mem, n, 0) == Some(Normal(mem, n));
  }

  function Looping(): seq<Instr> {
    [Const(1, 1), Target(Jump, 4), Target(Jump, 8), Ins(Label, 0), Ins(Label, 0),
     Const(0, 1), Ins2(Equals, 0, 1), Target(Jnz, 3), Ins(Label, 0)]
  }

  /** Where the loop can be: past the start, register 1 is 1; before the conditional jump, register 0 is not 0. */
  predicate InLoop(c: Config) {
    && |c.st.regs| >= MAX_PARAMS && (c.pc == 0 || c.pc == 1 || 3 <= c.pc <= 7)
    && (c.pc >= 1 ==> c.st.regs[1] == 1) && (c.pc == 6 ==> c.st.regs[0] == 1) && (c.pc == 7 ==> c.st.regs[0] == 1)
  }

  lemma {:induction false} LoopRuns(w: World, c: Config, n: nat, d: Config)
    requires w.code == Looping() && InLoop(c) && Run(Stepper(w), c, n) == Some(d)
    ensures InLoop(d)
    decreases n
  {
    hide FlowStep, InLoop;
    if n > 0 {
      LoopStep(w, c);
      LoopRuns(w, FlowStep(w, c).value, n - 1, d);
    }
  }

  lemma LoopStep(w: World, c: Config)
    requires w.code == Looping() && InLoop(c) && FlowStep(w, c).Some?
    ensures InLoop(FlowStep(w, c).value)
  {
    hide LoadWord, StoreWord, BlockAfter;
    assert Wrap(1) == 1;
  }
}
