/** The code does what a program means by the rules of the language, wherever the compiler's own rules for pointers are
    those of the language. */
module TypedCode {
  import opened Words
  import opened Runs
  import opened Ast
  import opened Compile
  import opened Semantics
  import opened StmtSemantics
  import opened Straight
  import opened Uses
  import opened Scaling
  import ExprCorrect
  import Flow
  import IlMachine
  import Placement
  import EndToEnd

  lemma CodedSame(e: Env)
    requires !e.typed
    ensures Coded(e) == e
  {
  }

  /** The value of an operand, and with it what its suffix does to its variable. */
  lemma OperandRunTyped(env: Env, o: Operand, p: nat, st: St, r: Result) returns (t: St)
    requires ExprCorrect.RegsBelow(COperand(o, p), |st.regs|) && |st.regs| >= MAX_PARAMS && !env.typed
    requires OperandUses(Fitting(), o) && EvalOperand(Typed(env), o, st.mem) == Some(r)
    ensures Exec(env, COperand(o, p), st) == Some(t) && ExprCorrect.Leaves(st, t, p, r.v, r.mem)
  {
    hide AllAlike, EvalOperand, OperandUses, Exec, COperand;
    CodedSame(env);
    FittingAlike(env);
    OperandSame(Fitting(), Typed(env), Coded(env), o, st.mem);
    t := ExprCorrect.OperandRun(env, o, p, st, r);
  }

  lemma ExprRunTyped(env: Env, e: Expr, p: nat, st: St, r: Result) returns (t: St)
    requires ExprCorrect.RegsBelow(CExpr(e, p), |st.regs|) && |st.regs| >= MAX_PARAMS && !env.typed
    requires ExprUses(Fitting(), e) && EvalExpr(Typed(env), e, st.mem) == Some(r)
    ensures Exec(env, CExpr(e, p), st) == Some(t) && ExprCorrect.Leaves(st, t, p, r.v, r.mem)
  {
    hide EvalExpr, ExprUses, Exec, CExpr;
    CodedSame(env);
    ExprTyped(env, e, st.mem);
    t := ExprCorrect.ExprRun(env, e, p, st, r);
  }

  lemma AssignRunTyped(env: Env, x: Assign, st: St, m: Mem) returns (t: St)
    requires ExprCorrect.RegsBelow(CAssign(x), |st.regs|) && |st.regs| >= MAX_PARAMS && !env.typed
    requires AssignUses(Fitting(), x) && EvalAssign(Typed(env), x, st.mem) == Some(m)
    ensures Exec(env, CAssign(x), st) == Some(t) && t.mem == m
  {
    hide EvalAssign, AssignUses, Exec, CAssign;
    CodedSame(env);
    AssignTyped(env, x, st.mem);
    t := Flow.AssignRun(env, x, st, m);
  }

  lemma StmtGoesTyped(w: Flow.World, s: Stmt, base: nat, brk: nat, st: St, fuel: nat, o: Outcome)
    returns (c: Flow.Config)
    requires Flow.Ready(w, base, CStmt(s, base, brk), st) && Flow.WellFormed(s, w.exits) && Flow.Scoped(w, s, base, brk)
    requires StmtUses(FittingIn(), w.block, s) && EvalStmt(Typed(w.env), s, st.mem, st.entered, fuel) == Some(o)
    ensures Flow.Goes(w, Flow.Config(base, st), c) && Flow.Lands(w, o, st, base + |CStmt(s, base, brk)|, brk, c)
  {
    hide EvalStmt, StmtUses, CStmt, Flow.WellFormed, Flow.Scoped, Flow.InCode;
    OutcomeTyped(w, s, st, fuel);
    c := Flow.StmtGoes(w, s, base, brk, st, fuel, o);
  }

  lemma OutcomeTyped(w: Flow.World, s: Stmt, st: St, fuel: nat)
    requires Flow.Settled(w) && StmtUses(FittingIn(), w.block, s)
    ensures EvalStmt(Typed(w.env), s, st.mem, st.entered, fuel) == EvalStmt(w.env, s, st.mem, st.entered, fuel)
  {
    hide EvalStmt, StmtUses;
    CodedSame(w.env);
    assert Inside(w.env, w.block) == w.env && Inside(Typed(w.env), w.block) == Typed(w.env);
    StmtTyped(w.env, w.block, s, st.mem, st.entered, fuel);
  }

  /** On the IL machine, with the statement's meaning that of the language. */
  lemma StatementRunsTyped(g: EndToEnd.Ground, x: Stmt, base: nat, brk: nat, st: St, fuel: nat, o: Outcome,
                           s: IlMachine.State)
    returns (n: nat, c: Flow.Config, t: IlMachine.State)
    requires EndToEnd.StatementAt(g, x, base, brk) && Placement.GoodLayout(g.arch, g.P, g.L)
    requires Flow.Ready(g.w, base, CStmt(x, base, brk), st) && Flow.WellFormed(x, g.w.exits)
    requires StmtUses(FittingIn(), g.w.block, x) && EvalStmt(Typed(g.w.env), x, st.mem, st.entered, fuel) == Some(o)
    requires EndToEnd.Matches(g, Flow.Config(base, st), s)
    requires EndToEnd.Told(g.w.env.stale, g.w.env.clobber, st.entered, st.calls, EndToEnd.HostOf(g), s)
    requires EndToEnd.Enough(g, Flow.Config(base, st), s, o.entered)
    ensures Flow.Lands(g.w, o, st, base + |CStmt(x, base, brk)|, brk, c)
    ensures EndToEnd.RunOk(g, Flow.Config(base, st), s, n) ==>
              && Via(EndToEnd.MachineStepper(g.arch, g.P, g.L), EndToEnd.InFrame(g.P, g.fp), s, t)
              && EndToEnd.Matches(g, c, t) && EndToEnd.HeldSame(g.held, s.mem, t.mem)
  {
    hide EndToEnd.Matches, EndToEnd.StatementAt, EndToEnd.Told, EndToEnd.Enough, EndToEnd.RunOk, EvalStmt, StmtUses,
      CStmt, Flow.WellFormed, Flow.Lands, Flow.InCode, Placement.GoodLayout, Via, EndToEnd.HeldSame;
    OutcomeTyped(g.w, x, st, fuel);
    n, c, t := EndToEnd.StatementRuns(g, x, base, brk, st, fuel, o, s);
  }
}
