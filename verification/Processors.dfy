/** From source statements to the two processors. */
module Processors {
  import opened Words
  import opened Runs
  import opened Il
  import Ast
  import opened Compile
  import opened Semantics
  import opened StmtSemantics
  import opened Straight
  import opened Flow
  import opened IlMachine
  import opened EndToEnd
  import CodeMemory
  import Placement
  import Backend
  import BothBackends
  import RiscvIsa
  import RiscvSim
  import ArmIsa
  import ArmSim

  /** Everything the end-to-end theorem starts from: the statement's code, its meaning, and a state that stands for
      it. */
  ghost predicate Started(g: Ground, x: Ast.Stmt, base: nat, brk: nat, st: St, fuel: nat, o: Outcome, s: State) {
    && StatementAt(g, x, base, brk) && Ready(g.w, base, CStmt(x, base, brk), st) && WellFormed(x, g.w.exits)
    && EvalStmt(g.w.env, x, st.mem, st.entered, fuel) == Some(o)
    && Matches(g, Config(base, st), s) && Told(g.w.env.stale, g.w.env.clobber, st.entered, st.calls, HostOf(g), s)
    && Enough(g, Config(base, st), s, o.entered)
  }

  lemma {:induction false} RiscvRun(P: Program, L: Layout, s: State, n: nat, t: State)
    requires Run(MachineStepper(Backend.Riscv, P, L), s, n) == Some(t)
    ensures Run(IlMachine.Stepper(P, L, true), s, n) == Some(t)
    decreases n
  {
    hide Step;
    if n > 0 { RiscvRun(P, L, Step(P, L, true, s).value, n - 1, t); }
  }

  lemma {:induction false} ArmRun(P: Program, L: Layout, s: State, n: nat, t: State)
    requires Run(MachineStepper(Backend.Arm, P, L), s, n) == Some(t)
    ensures Run(ArmSim.AgreedStepper(P, L), s, n) == Some(t)
    decreases n
  {
    hide Step, ArmSim.ArmAgrees;
    if n > 0 { ArmRun(P, L, Step(P, L, false, s).value, n - 1, t); }
  }

  /** The theorem for RISC-V: the processor, started where the statement's code starts, gets to where its outcome says,
      with the outcome's memory, value and place. */
  lemma RiscvStatement(g: Ground, code: CodeMemory.Code, x: Ast.Stmt, base: nat, brk: nat, st: St, fuel: nat,
                       o: Outcome, s: State, m: RiscvIsa.Machine)
    returns (n: nat, c: Config, t: State, m': RiscvIsa.Machine)
    requires g.arch.Riscv? && Placement.Placed(Backend.Riscv, g.P, g.L, code)
    requires Started(g, x, base, brk, st, fuel, o, s) && RiscvSim.Related(g.L, s, m)
    ensures Lands(g.w, o, st, base + |CStmt(x, base, brk)|, brk, c)
    ensures Run(Flow.Stepper(g.w), Config(base, st), n) == Some(c)
    ensures RunOk(g, Config(base, st), s, n) ==>
              Matches(g, c, t) && Reaches(RiscvIsa.Stepper(code), m, m') && RiscvSim.Related(g.L, t, m')
  {
    hide Matches, RiscvSim.Related, RunOk, Flow.Ready, EvalStmt, CStmt, WellFormed, StatementAt, Told, Enough, FlowStep,
      Lands, MachineStepper, Placement.GoodLayout;
    m' := m;
    n, c, t := StatementRuns(g, x, base, brk, st, fuel, o, s);
    if RunOk(g, Config(base, st), s, n) {
      var steps: nat :| Run(MachineStepper(g.arch, g.P, g.L), s, steps) == Some(t);
      RiscvRun(g.P, g.L, s, steps, t);
      m' := RiscvSim.RunSimulated(g.P, g.L, code, s, m, steps, t);
    }
  }

  /** The theorem for ARM. */
  lemma ArmStatement(g: Ground, code: CodeMemory.Code, x: Ast.Stmt, base: nat, brk: nat, st: St, fuel: nat, o: Outcome,
                     s: State, m: ArmIsa.Machine)
    returns (n: nat, c: Config, t: State, m': ArmIsa.Machine)
    requires g.arch.Arm? && Placement.Placed(Backend.Arm, g.P, g.L, code) && ArmSim.Sized(g.P)
    requires Started(g, x, base, brk, st, fuel, o, s) && ArmSim.Related(g.L, s, m)
    ensures Lands(g.w, o, st, base + |CStmt(x, base, brk)|, brk, c)
    ensures Run(Flow.Stepper(g.w), Config(base, st), n) == Some(c)
    ensures RunOk(g, Config(base, st), s, n) ==>
              Matches(g, c, t) && Reaches(ArmIsa.Stepper(code), m, m') && ArmSim.Related(g.L, t, m')
  {
    hide Matches, ArmSim.Related, RunOk, Flow.Ready, EvalStmt, CStmt, WellFormed, StatementAt, Told, Enough, FlowStep,
      Lands, MachineStepper, Placement.GoodLayout, ArmSim.Sized;
    m' := m;
    n, c, t := StatementRuns(g, x, base, brk, st, fuel, o, s);
    if RunOk(g, Config(base, st), s, n) {
      var steps: nat :| Run(MachineStepper(g.arch, g.P, g.L), s, steps) == Some(t);
      ArmRun(g.P, g.L, s, steps, t);
      m' := ArmSim.RunSimulated(g.P, g.L, code, s, m, steps, t);
    }
  }
}
