/** A compiled function, called: from the call through its entry point, its body and its exit point it keeps the call
    protocol and ends with what its body means. */
module CompiledFunctions {
  import opened Words
  import opened Runs
  import opened Il
  import opened Ast
  import opened Compile
  import opened Pieces
  import opened Semantics
  import opened StmtSemantics
  import opened Straight
  import opened Flow
  import opened IlMachine
  import opened Zones
  import opened EndToEnd
  import Linked
  import ScopedCode
  import StackPointer
  import Placement
  import Backend
  import Calls
  import Frame
  import Reach
  import Grammar
  import Tables
  import Tokens
  import ArmSim

  // ----- the statements of a body -----

  /** The body of a function in a sized program, entered in block `w.block` at push height h. */
  ghost predicate BodyIn(g: Ground, ss: seq<Stmt>, base: nat) {
    && g.w.code == g.P.il && g.w.blocks == g.P.blocks && Frame.Sized(g.P) && g.P.blocks[0].localsSize == 0
    && 16 <= g.lo && (forall a :: a in g.held ==> g.fp <= a) && g.out.None?
    && StackPointer.BodyAt(g.P, ss, base, g.w.block, g.h) && g.w.lo == base && g.w.hi == base + |CStmts(ss, base, 0)|
    && Surrounds(g) && forall name :: name in g.w.exits ==> ExitIs(g, name)
  }

  lemma BodyGround(g: Ground, ss: seq<Stmt>, base: nat)
    requires BodyIn(g, ss, base)
    ensures Grounded(g) && AllScoped(g.w, ss, base, 0)
  {
    hide Surrounds, Frame.Sized, CStmts, Linked.LevelAt, Linked.ScopesOfAll, Linked.JumpLinked, AllScoped,
      Linked.AllNested;
    var c, end, b := Links(g), base + |CStmts(ss, base, 0)|, g.w.block;
    var scopes := Linked.ScopesOfAll(ss, base, 0, b);
    Linked.StmtsLinked(c, ss, base, None, 0, b, g.h);
    StackPointer.AllScopesUnder(ss, base, 0, b, g.P.blocks);
    forall k | g.w.lo <= k <= g.w.hi ensures LevelOk(g, k) {
      HeightGrows(c, base, k);
      if k < end { assert Linked.InScope(c, base + (k - base), scopes[k - base]); }
    }
    assert ScopedCode.Links(g.w) == c;
    ScopedCode.StmtsScoped(g.w, ss, base, None, 0, g.h);
  }

  /** Everything a run of a body starts from. */
  ghost predicate BodyStarted(g: Ground, ss: seq<Stmt>, base: nat, st: St, fuel: nat, o: Outcome, s: State) {
    && BodyIn(g, ss, base) && Placement.GoodLayout(g.arch, g.P, g.L)
    && Ready(g.w, base, CStmts(ss, base, 0), st) && AllWellFormed(ss, g.w.exits)
    && EvalStmts(g.w.env, ss, st.mem, st.entered, fuel) == Some(o)
    && Matches(g, Config(base, st), s) && Told(g.w.env.stale, g.w.env.clobber, st.entered, st.calls, HostOf(g), s)
    && Enough(g, Config(base, st), s, o.entered)
  }

  lemma BodyGoes(g: Ground, ss: seq<Stmt>, base: nat, st: St, fuel: nat, o: Outcome, s: State)
    returns (n: nat, c: Config)
    requires BodyStarted(g, ss, base, st, fuel, o, s)
    ensures Lands(g.w, o, st, base + |CStmts(ss, base, 0)|, 0, c) && c.st.entered == o.entered
    ensures Run(Flow.Stepper(g.w), Config(base, st), n) == Some(c)
  {
    hide Matches, Placement.GoodLayout, RunOk, Flow.Ready, EvalStmts, CStmts, AllWellFormed, BodyIn, Grounded,
      AllScoped, Told, Enough, FlowStep;
    BodyGround(g, ss, base);
    c := StmtsGoes(g.w, ss, base, 0, st, fuel, o);
    n :| Run(Flow.Stepper(g.w), Config(base, st), n) == Some(c);
  }

  lemma BodyRuns(g: Ground, ss: seq<Stmt>, base: nat, st: St, fuel: nat, o: Outcome, s: State)
    returns (n: nat, c: Config, t: State)
    requires BodyStarted(g, ss, base, st, fuel, o, s)
    ensures Lands(g.w, o, st, base + |CStmts(ss, base, 0)|, 0, c)
    ensures Run(Flow.Stepper(g.w), Config(base, st), n) == Some(c)
    ensures RunOk(g, Config(base, st), s, n) ==>
              && Via(MachineStepper(g.arch, g.P, g.L), InFrame(g.P, g.fp), s, t) && Matches(g, c, t)
              && HeldSame(g.held, s.mem, t.mem)
  {
    hide Matches, Placement.GoodLayout, RunOk, Flow.Ready, EvalStmts, CStmts, AllWellFormed, BodyIn, Grounded,
      AllScoped, Told, Enough, FlowStep, Via, Lands, HeldSame, InFrame, Run;
    BodyGround(g, ss, base);
    t := s;
    n, c := BodyGoes(g, ss, base, st, fuel, o, s);
    if RunOk(g, Config(base, st), s, n) {
      t := RunMatches(g, Config(base, st), s, n, c);
    }
  }

  // ----- breaks stay inside -----

  /** Without a break outside its switches a statement does not end in one. */
  lemma {:induction false} NoBreak(env: Env, s: Stmt, mem: Mem, n: nat, fuel: nat)
    requires Linked.BreakFree(s)
    ensures EvalStmt(env, s, mem, n, fuel).Some? ==> !EvalStmt(env, s, mem, n, fuel).value.Broke?
    decreases fuel, s, 0
  {
    hide EvalExpr, EvalInits, EvalOperand, EvalAssign, EvalOptAssign, EvalClauses, Exposed;
    match s
    case Compound(id, body) => NoBreaks(Inside(env, id), body, Exposed(env, id, n, mem), n + 1, fuel);
    case If(cond, thn, els) =>
      if EvalExpr(env, cond, mem).Some? {
        var m := EvalExpr(env, cond, mem).value.mem;
        NoBreak(env, thn, m, n, fuel);
        if els.Some? { NoBreak(env, els.value, m, n, fuel); }
      }
    case While(cond, inner) =>
      if EvalExpr(env, cond, mem).Some? {
        var m := EvalExpr(env, cond, mem).value.mem;
        NoBreak(env, inner, m, n, fuel);
        var o := EvalStmt(env, inner, m, n, fuel);
        if o.Some? && o.value.Normal? && fuel > 0 { NoBreak(env, s, o.value.mem, o.value.entered, fuel - 1); }
      }
    case DoWhile(inner, cond) =>
      NoBreak(env, inner, mem, n, fuel);
      var o := EvalStmt(env, inner, mem, n, fuel);
      if o.Some? && o.value.Normal? && fuel > 0 && EvalExpr(env, cond, o.value.mem).Some? {
        NoBreak(env, s, EvalExpr(env, cond, o.value.mem).value.mem, o.value.entered, fuel - 1);
      }
    case For(init, test, step, inner) =>
      if EvalOptAssign(env, init, mem).Some? {
        NoBreakFor(env, test, step, inner, EvalOptAssign(env, init, mem).value, n, fuel);
      }
    case _ =>
  }

  lemma {:induction false} NoBreakFor(env: Env, test: Option<Expr>, step: Option<Assign>, inner: Stmt, mem: Mem, n: nat,
                                      fuel: nat)
    requires Linked.BreakFree(inner)
    ensures EvalFor(env, test, step, inner, mem, n, fuel).Some? ==>
              !EvalFor(env, test, step, inner, mem, n, fuel).value.Broke?
    decreases fuel, inner, 1
  {
    hide EvalTest, EvalOptAssign, EvalFor, EvalStmt;
    ForUnfold(env, test, step, inner, mem, n, fuel);
    var r := EvalTest(env, test, mem);
    if r.Some? { NoBreak(env, inner, r.value.mem, n, fuel); }
    var o := BodyOutcome(env, inner, r, n, fuel);
    var m := NextMem(env, step, o);
    if m.Some? && fuel > 0 { NoBreakFor(env, test, step, inner, m.value, NextCount(o), fuel - 1); }
  }

  lemma {:induction false} NoBreaks(env: Env, ss: seq<Stmt>, mem: Mem, n: nat, fuel: nat)
    requires Linked.AllBreakFree(ss)
    ensures EvalStmts(env, ss, mem, n, fuel).Some? ==> !EvalStmts(env, ss, mem, n, fuel).value.Broke?
    decreases fuel, ss, 0
  {
    hide EvalStmt, Linked.BreakFree;
    if ss != [] {
      NoBreak(env, ss[0], mem, n, fuel);
      var o := EvalStmt(env, ss[0], mem, n, fuel);
      if o.Some? && o.value.Normal? { NoBreaks(env, ss[1..], o.value.mem, o.value.entered, fuel); }
    }
  }

  // ----- a function -----

  /** Function f's code in a finished program: it starts at index e, its body is in block `id`, and the tables say
      so. */
  ghost predicate FunctionAt(P: Program, f: nat, e: nat, id: nat, body: seq<Stmt>, h: int) {
    && f < |P.funcs| && FindFunction(P.funcs, P.funcs[f].name) == Some(f)
    && At(P.il, e, CFunction(P.funcs[f].name, id, body, e)) && P.funcs[f].exit == e + 3 + |CStmts(body, e + 2, 0)|
    && 1 <= id < |P.blocks| && P.blocks[id].parent.None? && P.blocks[id].func == Some(f)
    && Linked.AllNested(body, id, P.blocks) && Linked.AllBreakFree(body)
    && Linked.LevelAt(Linked.Linkage(P.il, P.blocks), e) == Linked.Level(None, h)
  }

  /** What the parser accepts as function f is there in this sense once its code and the finished tables are. */
  lemma FunctionParsed(P: Program, names: Grammar.Names, blocks: seq<Block>, f: nat, ts: seq<Tokens.Token>, i: nat,
                       e: nat, h: int)
    requires i <= |ts| && Grammar.PFunctionBody(names, blocks, f, ts, i).Some? && f < |names.funcs| && |blocks| >= 1
    requires e <= |P.il| && Linked.LevelAt(Linked.Linkage(P.il, P.blocks), e) == Linked.Level(None, h)
    requires var p := Grammar.PFunctionBody(names, blocks, f, ts, i).value;
             && Tables.KeepsParents(p.blocks, P.blocks) && |blocks| < |P.blocks| && P.blocks[|blocks|].func == Some(f)
             && f < |P.funcs| && P.funcs[f].name == names.funcs[f].name
             && FindFunction(P.funcs, P.funcs[f].name) == Some(f)
             && At(P.il, e, CFunction(P.funcs[f].name, |blocks|, p.value, e))
             && P.funcs[f].exit == e + 3 + |CStmts(p.value, e + 2, 0)|
    ensures FunctionAt(P, f, e, |blocks|, Grammar.PFunctionBody(names, blocks, f, ts, i).value.value, h)
  {
    hide Grammar.PFunctionBody, CStmts, Linked.LevelAt, Linked.AllNested, Linked.AllBreakFree;
    var p := Grammar.PFunctionBody(names, blocks, f, ts, i).value;
    Tables.FunctionTables(names, blocks, f, ts, i);
    Tables.AllNestedLater(p.value, |blocks|, p.blocks, P.blocks);
    assert Tables.BlockGrows(Grammar.WithBody(blocks, f)[|blocks|], p.blocks[|blocks|]);
  }

  /** The state in which the body starts: behind the entry point and the start marker of the function's block. */
  ghost function BodyStart(P: Program, s: State, f: nat, id: nat): State
    requires f < |P.funcs| && |P.funcs[f].params| <= |s.regs| && id < |P.blocks|
  {
    var t := Enter(s, P.funcs[f]);
    t.(pc := t.pc + 1, sp := if HasLocals(P, id) then Wrap(t.sp - P.blocks[id].localsSize) else t.sp)
  }

  /** What lies at or above the stack pointer a function is entered with is untouched by its entry. */
  lemma {:induction false} StoresBelow(m: Mem, fp: Word, params: seq<Var>, regs: seq<Word>, k: nat, x: Word)
    requires k <= |params| <= |regs| && Calls.OffsetsOk(params) && fp >= Frame.MAX_FRAME && fp + 4 <= x
    ensures StoreParams(m, fp, params, regs, k)[x] == m[x]
    decreases |params| - k
  {
    hide StoreWord;
    if k < |params| {
      Calls.ByteKept(m, fp - params[k].offset, regs[k], x);
      SmallWrap(x);
      StoresBelow(StoreWord(m, Wrap(fp - params[k].offset), regs[k]), fp, params, regs, k + 1, x);
    }
  }

  lemma EnterBelow(s: State, f: Function, x: Word)
    requires |f.params| <= |s.regs| && Calls.OffsetsOk(f.params) && s.sp >= 4096 && s.sp <= x
    ensures Enter(s, f).mem[x] == s.mem[x]
  {
    hide StoreWord, StoreParams;
    var fp: int := s.sp - 16;
    SmallWrap(fp);
    SmallWrap(x);
    var m1 := StoreWord(s.mem, Wrap(fp + 12), s.fp);
    Calls.ByteKept(s.mem, fp + 12, s.fp, x);
    Calls.ByteKept(m1, fp + 8, s.ra, x);
    StoresBelow(StoreWord(m1, Wrap(fp + 8), s.ra), fp, f.params, s.regs, 0, x);
  }

  lemma EntryThere(P: Program, f: nat, e: nat, id: nat, body: seq<Stmt>, h: int)
    requires FunctionAt(P, f, e, id, body, h)
    ensures AtOp(P, e, EntryPoint) && P.il[e].name == P.funcs[f].name && AtOp(P, e + 1, BlockStart)
    ensures P.il[e + 1].int1 == id
  {
    hide CStmts, Linked.LevelAt, Linked.AllNested, Linked.AllBreakFree, At, FindFunction;
    var front, back := [Named(EntryPoint, 0, P.funcs[f].name), Marker(BlockStart, id)], CStmts(body, e + 2, 0);
    var tail := [Marker(BlockEnd, id), Named(ExitPoint, 0, P.funcs[f].name)];
    AtSplit(P.il, e, front + back, tail);
    AtSplit(P.il, e, front, back);
    AtIndex(P.il, e, front, 0);
    AtIndex(P.il, e, front, 1);
  }

  /** Two steps into the body. */
  lemma EntrySteps(arch: Backend.Arch, P: Program, L: Layout, s: State, f: nat, e: nat, id: nat, body: seq<Stmt>,
                   h: int)
    requires FunctionAt(P, f, e, id, body, h) && s.pc == e && |P.funcs[f].params| <= |s.regs|
    ensures AtOp(P, e, EntryPoint) && AtOp(P, e + 1, BlockStart)
    ensures MachineStep(arch, P, L, s) == Some(Enter(s, P.funcs[f]))
    ensures MachineStep(arch, P, L, Enter(s, P.funcs[f])) == Some(BodyStart(P, s, f, id))
  {
    hide CStmts, Linked.LevelAt, Linked.AllNested, Linked.AllBreakFree, At, StoreParams, LoadWord, StoreWord,
      FindFunction, Wrap;
    EntryThere(P, f, e, id, body, h);
  }

  /** Behind the body stand the end marker of the function's block and the exit point. */
  lemma ExitThere(P: Program, f: nat, e: nat, id: nat, body: seq<Stmt>, h: int)
    requires FunctionAt(P, f, e, id, body, h)
    ensures var end := e + 2 + |CStmts(body, e + 2, 0)|;
            && AtOp(P, end, BlockEnd) && P.il[end].int1 == id && AtOp(P, end + 1, ExitPoint)
            && P.funcs[f].exit == end + 1
  {
    hide CStmts, Linked.LevelAt, Linked.AllNested, Linked.AllBreakFree, At;
    var front, back := [Named(EntryPoint, 0, P.funcs[f].name), Marker(BlockStart, id)], CStmts(body, e + 2, 0);
    var tail := [Marker(BlockEnd, id), Named(ExitPoint, 0, P.funcs[f].name)];
    AtSplit(P.il, e, front + back, tail);
    AtIndex(P.il, e + 2 + |back|, tail, 0);
    AtIndex(P.il, e + 2 + |back|, tail, 1);
  }

  /** From where the body's run has landed to the exit point. */
  lemma ToExit(g: Ground, f: nat, e: nat, id: nat, body: seq<Stmt>, c: Config, t: State) returns (u: State)
    requires f < |g.P.funcs| && FunctionAt(g.P, f, e, id, body, g.h) && Matches(g, c, t)
    requires c.pc == e + 2 + |CStmts(body, e + 2, 0)| || c.pc == g.P.funcs[f].exit
    ensures Via(MachineStepper(g.arch, g.P, g.L), InFrame(g.P, g.fp), t, u)
    ensures AtOp(g.P, u.pc, ExitPoint) && u.fp == t.fp && u.regs == t.regs && u.mem == t.mem
  {
    hide FunctionAt, CStmts, MemAgrees, StackHeld, HeightAt, Via, ZoneAt;
    ExitThere(g.P, f, e, id, body, g.h);
    var step, good := MachineStepper(g.arch, g.P, g.L), InFrame(g.P, g.fp);
    if c.pc == g.P.funcs[f].exit {
      u := t;
      ViaSelf(step, good, t);
    } else {
      u := t.(pc := t.pc + 1, sp := if HasLocals(g.P, id) then Wrap(t.sp + g.P.blocks[id].localsSize) else t.sp);
      ViaStep(step, good, t, u);
    }
  }

  // ----- the call -----

  /** The bytes the body must not write: what its caller holds, what its caller has pushed, and its own saved words. */
  ghost function HeldFor(a: Host, s: State): iset<int> {
    iset x | Reserved(a, s, x) || s.sp - 8 <= x < s.sp
  }

  /** A call of function f from state s, with the activation that belongs to it. */
  ghost predicate CallOf(a: Host, s: State, j: State, g: Ground, f: nat, e: nat, id: nat, body: seq<Stmt>) {
    && f < |a.P.funcs| && id < |a.P.blocks|
    && 0 <= s.pc < |a.P.il| && IsCall(a.P.il[s.pc]) && MachineStep(a.arch, a.P, a.L, s) == Some(j) && j.pc == e
    && FunctionAt(a.P, f, e, id, body, g.h) && Frame.Sized(a.P) && a.P.blocks[0].localsSize == 0
    && |a.P.funcs[f].params| <= |j.regs| && s.sp >= 4096 && (forall x :: x in a.held ==> s.sp <= x)
    && g.arch == a.arch && g.P == a.P && g.L == a.L && g.fp == s.sp - 16 && g.held == HeldFor(a, s) && g.w.block == id
  }

  lemma SavedKept(held: iset<int>, fp: Word, top: int, m: Mem, n: Mem)
    requires HeldSame(held, m, n) && fp + 16 == top < 0x1_0000_0000
    requires forall x: Word :: top - 8 <= x < top ==> x in held
    ensures LoadWord(n, Wrap(fp + 8)) == LoadWord(m, Wrap(fp + 8))
    ensures LoadWord(n, Wrap(fp + 12)) == LoadWord(m, Wrap(fp + 12))
  {
    hide WordOf;
    SmallWrap(fp + 8);
    SmallWrap(fp + 9);
    SmallWrap(fp + 10);
    SmallWrap(fp + 11);
    SmallWrap(fp + 12);
    SmallWrap(fp + 13);
    SmallWrap(fp + 14);
    SmallWrap(fp + 15);
  }

  lemma Landed(g: Ground, f: nat, o: Outcome, st: St, end: int, c: Config)
    requires Lands(g.w, o, st, end, 0, c) && !o.Broke? && f < |g.P.funcs|
    requires g.w.exits == map[g.P.funcs[f].name := g.P.funcs[f].exit]
    ensures c.st.mem == o.mem && (c.pc == end || c.pc == g.P.funcs[f].exit)
  {
  }

  lemma EntryFrame(s: State, f: Function)
    requires |f.params| <= |s.regs|
    ensures Enter(s, f).fp == Wrap(s.sp - 16) && Enter(s, f).regs == s.regs && Enter(s, f).pc == s.pc + 1
  {
  }

  lemma MatchedExit(g: Ground, c: Config, t: State)
    requires Matches(g, c, t)
    ensures t.regs == c.st.regs && t.fp == g.fp && MemAgrees(ZoneAt(g, c.pc), c.st.mem, t.mem)
  {
    hide MemAgrees, StackHeld, ZoneAt, HeightAt;
  }

  lemma StepsVia(step: State -> Option<State>, good: State -> bool, s: State, t: State) returns (n: nat)
    requires Via(step, good, s, t)
    ensures Run(step, s, n) == Some(t) && AllGood(step, good, s, n)
  {
    n :| Run(step, s, n) == Some(t) && AllGood(step, good, s, n);
  }

  /** Through entry and body all that is reserved stays, and so do the two saved words. */
  lemma KeptAround(a: Host, s: State, j: State, g: Ground, f: nat, e: nat, id: nat, body: seq<Stmt>, u: State)
    requires CallOf(a, s, j, g, f, e, id, body) && j.sp == s.sp && j.mem == s.mem
    requires HeldSame(g.held, Enter(j, a.P.funcs[f]).mem, u.mem)
    ensures var m := Enter(j, a.P.funcs[f]).mem;
            && LoadWord(u.mem, Wrap(g.fp + 8)) == LoadWord(m, Wrap(g.fp + 8))
            && LoadWord(u.mem, Wrap(g.fp + 12)) == LoadWord(m, Wrap(g.fp + 12))
    ensures forall x: Word :: Reserved(a, s, x) ==> u.mem[x] == s.mem[x]
  {
    hide FunctionAt, MachineStep, Frame.Sized, Enter, LoadWord, FrameEnd;
    var fn := a.P.funcs[f];
    SavedKept(g.held, g.fp, s.sp, Enter(j, fn).mem, u.mem);
    ParamsOk(a.P);
    forall x: Word | Reserved(a, s, x) ensures u.mem[x] == s.mem[x] {
      EnterBelow(j, fn, x);
    }
  }

  /** What the steps of a call make of its state. */
  lemma CallEnters(a: Host, s: State, j: State, g: Ground, f: nat, e: nat, id: nat, body: seq<Stmt>)
    requires CallOf(a, s, j, g, f, e, id, body)
    ensures j.sp == s.sp && j.mem == s.mem && j.regs == s.regs && AtOp(a.P, j.pc, EntryPoint)
    ensures var entered := Enter(j, a.P.funcs[f]);
            && MachineStep(a.arch, a.P, a.L, j) == Some(entered)
            && MachineStep(a.arch, a.P, a.L, entered) == Some(BodyStart(a.P, j, f, id))
            && entered.fp == g.fp && entered.regs == s.regs && InFrame(a.P, g.fp)(entered)
            && BodyStart(a.P, j, f, id).mem == entered.mem
  {
    hide FunctionAt, MachineStep, Frame.Sized, FrameEnd, Enter;
    CallKeepsFp(a, s, j);
    EntrySteps(a.arch, a.P, a.L, j, f, e, id, body, g.h);
    EntryFrame(j, a.P.funcs[f]);
    SmallWrap(s.sp - 16);
  }

  /** A run through the entry point to the exit point that leaves what is held alone is a callee's run. */
  lemma Assembled(a: Host, s: State, j: State, g: Ground, f: nat, e: nat, id: nat, body: seq<Stmt>, t: State, u: State)
    returns (k: Callee)
    requires CallOf(a, s, j, g, f, e, id, body) && |u.regs| == |s.regs| && u.fp == g.fp
    requires Via(MachineStepper(a.arch, a.P, a.L), InFrame(a.P, g.fp), BodyStart(a.P, j, f, id), t)
    requires Via(MachineStepper(a.arch, a.P, a.L), InFrame(a.P, g.fp), t, u) && AtOp(a.P, u.pc, ExitPoint)
    requires HeldSame(g.held, BodyStart(a.P, j, f, id).mem, u.mem)
    ensures Keeps(a, s, k) && k.exit == u
  {
    hide FunctionAt, MachineStep, Frame.Sized, FrameEnd, Enter, LoadWord, Reserved, AllGood, InFrame, Via, Run,
      BodyStart;
    var step, good := MachineStepper(a.arch, a.P, a.L), InFrame(a.P, g.fp);
    var entered, start := Enter(j, a.P.funcs[f]), BodyStart(a.P, j, f, id);
    CallEnters(a, s, j, g, f, e, id, body);
    ViaStep(step, good, entered, start);
    ViaThen(step, good, entered, start, t);
    ViaThen(step, good, entered, t, u);
    var n := StepsVia(step, good, entered, u);
    k := Callee(j, entered, u, n);
    KeptAround(a, s, j, g, f, e, id, body, u);
  }

  /** The theorem: a compiled function, called by name or through a pointer, keeps its part of the call protocol, and
      what its exit point is reached with is what its body means: its memory outside the frame, and its value in
      register 0. */
  lemma FunctionKeeps(a: Host, s: State, j: State, g: Ground, f: nat, e: nat, id: nat, body: seq<Stmt>, st: St,
                      fuel: nat, o: Outcome)
    returns (n: nat, c: Config, k: Callee)
    requires CallOf(a, s, j, g, f, e, id, body)
    requires g.w.exits == map[g.P.funcs[f].name := g.P.funcs[f].exit]
    requires BodyStarted(g, body, e + 2, st, fuel, o, BodyStart(g.P, j, f, id))
    ensures Lands(g.w, o, st, e + 2 + |CStmts(body, e + 2, 0)|, 0, c)
    ensures Run(Flow.Stepper(g.w), Config(e + 2, st), n) == Some(c)
    ensures RunOk(g, Config(e + 2, st), BodyStart(g.P, j, f, id), n) ==>
              && Keeps(a, s, k) && Called(a, s) && TheCallee(a, s) == k
              && k.exit.regs == c.st.regs && MemAgrees(ZoneAt(g, c.pc), o.mem, k.exit.mem)
  {
    hide BodyStarted, FunctionAt, Lands, RunOk, FlowStep, Matches, Via, CStmts, Frame.Sized, MachineStep, ZoneAt, Enter,
      Keeps, FrameEnd, HeldSame, MemAgrees, BodyStart;
    var start := BodyStart(g.P, j, f, id);
    k := Callee(j, start, start, 0);
    var t;
    n, c, t := BodyRuns(g, body, e + 2, st, fuel, o, start);
    if RunOk(g, Config(e + 2, st), start, n) {
      BodyEnds(g, body, e + 2, st, fuel, o, start);
      Landed(g, f, o, st, e + 2 + |CStmts(body, e + 2, 0)|, c);
      var u := ToExit(g, f, e, id, body, c, t);
      MatchedExit(g, c, t);
      BodyMatches(g, body, e + 2, st, fuel, o, start);
      LandedRegs(g, o, st, e + 2 + |CStmts(body, e + 2, 0)|, c, start, e + 2);
      CallEnters(a, s, j, g, f, e, id, body);
      SameRegs(a.P, j, f, id);
      k := Assembled(a, s, j, g, f, e, id, body, t, u);
      assert Called(a, s);
      CalleeUnique(a, s, k, TheCallee(a, s));
    }
  }

  lemma BodyEnds(g: Ground, ss: seq<Stmt>, base: nat, st: St, fuel: nat, o: Outcome, s: State)
    requires BodyStarted(g, ss, base, st, fuel, o, s)
    ensures !o.Broke?
  {
    hide Matches, Told, Enough, EvalStmts, Ready, CStmts, Placement.GoodLayout, AllWellFormed, Linked.AllBreakFree;
    NoBreaks(g.w.env, ss, st.mem, st.entered, fuel);
  }

  lemma BodyMatches(g: Ground, ss: seq<Stmt>, base: nat, st: St, fuel: nat, o: Outcome, s: State)
    requires BodyStarted(g, ss, base, st, fuel, o, s)
    ensures Matches(g, Config(base, st), s)
  {
    hide Matches, BodyIn, Told, Enough, EvalStmts, Ready, CStmts, Placement.GoodLayout, AllWellFormed;
  }

  lemma SameRegs(P: Program, s: State, f: nat, id: nat)
    requires f < |P.funcs| && |P.funcs[f].params| <= |s.regs| && id < |P.blocks|
    ensures BodyStart(P, s, f, id).regs == s.regs
  {
  }

  /** As many registers at the end as at the start. */
  lemma LandedRegs(g: Ground, o: Outcome, st: St, end: int, c: Config, s: State, base: nat)
    requires Lands(g.w, o, st, end, 0, c) && Matches(g, Config(base, st), s)
    ensures |c.st.regs| == |s.regs|
  {
    hide MemAgrees, StackHeld, ZoneAt, HeightAt;
  }
}
