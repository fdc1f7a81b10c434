/** Calls inside calls: what a function means is told in terms of what the functions it calls mean, down to some depth,
    and then nothing about the machine is left to be asked of a run. */
module Recursion {
  import opened Words
  import opened Runs
  import opened Il
  import opened Ast
  import opened Compile
  import opened Pieces
  import opened Semantics
  import opened StmtSemantics
  import opened Straight
  import opened Flow
  import opened IlMachine
  import opened Zones
  import opened EndToEnd
  import opened CompiledFunctions
  import ExprCorrect
  import Linked
  import StackPointer
  import Frame
  import Reach
  import Placement
  import ArmSim
  import Accesses
  import Backend
  import CodeMemory
  import Processors
  import RiscvIsa
  import RiscvSim
  import ArmIsa

  /** One call: the function called, its activation, and the outcome its body has there.  `j` is the state at its entry
      point. */
  datatype Act = Act(g: Ground, f: nat, e: nat, id: nat, body: seq<Stmt>, st: St, fuel: nat, o: Outcome, j: State)

  ghost function Start(x: Act): Config {
    Config(x.e + 2, x.st)
  }

  ghost predicate Acts(a: Host, s: State, x: Act) {
    && CallOf(a, s, x.j, x.g, x.f, x.e, x.id, x.body)
    && x.g.w.exits == map[x.g.P.funcs[x.f].name := x.g.P.funcs[x.f].exit]
    && BodyStarted(x.g, x.body, x.e + 2, x.st, x.fuel, x.o, BodyStart(x.g.P, x.j, x.f, x.id))
  }

  /** The body ends in configuration c. */
  ghost predicate EndsIn(x: Act, c: Config) {
    && Reaches(Flow.Stepper(x.g.w), Start(x), c)
    && Lands(x.g.w, x.o, x.st, x.e + 2 + |CStmts(x.body, x.e + 2, 0)|, 0, c)
  }

  /** The caller's surroundings answer a call as the callee's body does: with its memory, outside the caller's zone, and
      its value; without one, with what the body happens to leave in register 0. */
  ghost predicate Answers(g: Ground, s: State, c: Config, x: Act) {
    && x.g.lo == g.lo && MemAgrees(ZoneAt(g, s.pc), c.st.mem, x.o.mem)
    && 0 <= s.pc < |g.P.il| && 0 <= g.P.il[s.pc].param < |c.st.regs|
    && if x.o.Returned? && x.o.value.Some? then c.st.regs[g.P.il[s.pc].param] == x.o.value.value
       else forall end :: EndsIn(x, end) && |end.st.regs| > 0 ==> c.st.regs[g.P.il[s.pc].param] == end.st.regs[0]
  }

  /** The call in state s means activation x, with calls nested at most d deep. */
  ghost predicate Means(d: nat, a: Host, s: State, x: Act)
    decreases d, 1, 0
  {
    && Acts(a, s, x)
    && forall n: nat :: CallsMean(d, x.g, Start(x), BodyStart(x.g.P, x.j, x.f, x.id), n)
  }

  ghost predicate CallMeans(d: nat, g: Ground, s: State, c: Config)
    decreases d, 2, 0
  {
    exists x :: Means(d, HostOf(g), s, x) && Answers(g, s, c, x)
  }

  predicate Calling(g: Ground, c: Config) {
    0 <= c.pc < |g.P.il| && IsCall(g.P.il[c.pc])
  }

  /** In the first n steps of an activation every call has a meaning, and is answered by it. */
  ghost predicate CallsMean(d: nat, g: Ground, c: Config, s: State, n: nat)
    decreases d, 0, n
  {
    n == 0 ||
    match FlowStep(g.w, c)
    case None => true
    case Some(c1) =>
      && (Calling(g, c) ==> d > 0 && CallMeans(d - 1, g, s, c1))
      && (g.arch.Arm? ==> ArmSim.ArmAgrees(g.P, s))
      && match Next(HostOf(g), s) case None => true case Some(t) => CallsMean(d, g, c1, t, n - 1)
  }

  // ----- what is meant happens -----

  /** The theorem: a call that has a meaning returns, keeps its part of the call protocol, and ends with what its body
      means. */
  lemma {:induction false} MeantHappens(d: nat, a: Host, s: State, x: Act) returns (c: Config, k: Callee)
    requires Means(d, a, s, x)
    ensures EndsIn(x, c) && Keeps(a, s, k) && Called(a, s) && TheCallee(a, s) == k
    ensures k.exit.regs == c.st.regs && MemAgrees(ZoneAt(x.g, c.pc), x.o.mem, k.exit.mem)
    decreases d, 1, 0
  {
    hide FunctionAt, MachineStep, Frame.Sized, HeldFor, BodyStarted, Lands, RunOk, Keeps, MemAgrees, ZoneAt, BodyStart,
      FlowStep, Running, CStmts;
    var start := BodyStart(x.g.P, x.j, x.f, x.id);
    var n;
    n, c, k := FunctionKeeps(a, s, x.j, x.g, x.f, x.e, x.id, x.body, x.st, x.fuel, x.o);
    assert CallsMean(d, x.g, Start(x), start, n);
    ActRuns(x, start);
    LandedCount(x, c);
    CallsHappen(d, x.g, Start(x), start, n, c);
  }

  lemma LandedCount(x: Act, c: Config)
    requires Lands(x.g.w, x.o, x.st, x.e + 2 + |CStmts(x.body, x.e + 2, 0)|, 0, c)
    ensures c.st.entered == x.o.entered
  {
  }

  lemma ActRuns(x: Act, start: State)
    requires BodyStarted(x.g, x.body, x.e + 2, x.st, x.fuel, x.o, start)
    ensures Running(x.g, Start(x), start, x.o.entered)
  {
    hide Matches, Told, Enough, EvalStmts, Flow.Ready, CStmts, Placement.GoodLayout, AllWellFormed, BodyIn, Grounded;
    BodyGround(x.g, x.body, x.e + 2);
  }

  /** What a run of an activation needs besides its calls. */
  ghost predicate Running(g: Ground, c: Config, s: State, limit: nat) {
    && Grounded(g) && Placement.GoodLayout(g.arch, g.P, g.L) && Matches(g, c, s) && Enough(g, c, s, limit)
    && Told(g.w.env.stale, g.w.env.clobber, c.st.entered, c.st.calls, HostOf(g), s)
  }

  lemma {:induction false} CallsHappen(d: nat, g: Ground, c: Config, s: State, n: nat, end: Config)
    requires Running(g, c, s, end.st.entered) && Run(Flow.Stepper(g.w), c, n) == Some(end) && CallsMean(d, g, c, s, n)
    ensures RunOk(g, c, s, n)
    decreases d, 0, n
  {
    hide FlowStep, Grounded, Matches, Told, Enough, Placement.GoodLayout, CallOk, Next, ArmSim.ArmAgrees, AtCall,
      Calling, Via, InFrame, MachineStep, HeldSame, CallMeans, Called, Clobbers, AtStart, Counted;
    if n > 0 {
      var c1 := FlowStep(g.w, c).value;
      if Calling(g, c) { CallHappens(d - 1, g, c, s, c1); } else { NoCall(g, c, s, c1); }
      EnteredGrows(g.w, c1, n - 1, end);
      ToldNext(g.w.env.stale, g.w.env.clobber, c.st.entered, c.st.calls, HostOf(g), s);
      var s1 := NextMatches(g, c, s, c1, end.st.entered);
      SameCounts(g, c, s, c1);
      CallsHappen(d, g, c1, s1, n - 1, end);
    }
  }

  lemma NoCall(g: Ground, c: Config, s: State, c1: Config)
    requires !Calling(g, c)
    ensures CallOk(g, c, s, c1)
  {
  }

  lemma {:induction false} CallHappens(d: nat, g: Ground, c: Config, s: State, c1: Config)
    requires Grounded(g) && Matches(g, c, s) && Calling(g, c) && FlowStep(g.w, c) == Some(c1) && CallMeans(d, g, s, c1)
    ensures CallOk(g, c, s, c1)
    decreases d, 2, 0
  {
    hide FlowStep, Grounded, Matches, Means, Answers, EndsIn, Keeps, MemAgrees, ZoneAt, Gives;
    var x :| Means(d, HostOf(g), s, x) && Answers(g, s, c1, x);
    var end, k := MeantHappens(d, HostOf(g), s, x);
    AnswerGives(d, g, c, s, c1, x, end, k);
  }

  lemma AnswerGives(d: nat, g: Ground, c: Config, s: State, c1: Config, x: Act, end: Config, k: Callee)
    requires Grounded(g) && Matches(g, c, s) && Calling(g, c) && FlowStep(g.w, c) == Some(c1)
    requires Means(d, HostOf(g), s, x) && Answers(g, s, c1, x) && EndsIn(x, end) && Keeps(HostOf(g), s, k)
    requires k.exit.regs == end.st.regs && MemAgrees(ZoneAt(x.g, end.pc), x.o.mem, k.exit.mem)
    ensures Gives(g, s, c1, k)
  {
    hide FlowStep, Grounded, Matches, CallsMean, Keeps, MemAgrees, ZoneAt, Acts, EndsIn, BodyStart;
    ReturnedThere(g, c, s, c1, x, end, k);
    ZonesNest(g, c, s, x, end);
    MemThrough(ZoneAt(g, s.pc), ZoneAt(x.g, end.pc), c1.st.mem, x.o.mem, k.exit.mem);
  }

  lemma ReturnedThere(g: Ground, c: Config, s: State, c1: Config, x: Act, end: Config, k: Callee)
    requires Acts(HostOf(g), s, x) && Answers(g, s, c1, x) && EndsIn(x, end) && k.exit.regs == end.st.regs
    ensures 0 <= s.pc < |g.P.il| && 0 <= g.P.il[s.pc].param < |c1.st.regs| && |k.exit.regs| > 0
    ensures c1.st.regs[g.P.il[s.pc].param] == k.exit.regs[0]
  {
    hide CallOf, CStmts, MemAgrees, ZoneAt, BodyIn, Matches, Told, Enough, EvalStmts, Placement.GoodLayout,
      AllWellFormed, BodyStart;
  }

  /** The callee's frame is in its caller's zone. */
  lemma ZonesNest(g: Ground, c: Config, s: State, x: Act, end: Config)
    requires Matches(g, c, s) && Acts(HostOf(g), s, x) && x.g.lo == g.lo
    ensures ZoneAt(g, s.pc).lo <= ZoneAt(x.g, end.pc).lo && ZoneAt(x.g, end.pc).hi <= ZoneAt(g, s.pc).hi
  {
    hide FunctionAt, CStmts, MemAgrees, HeldAt, HeightAt, Matches, BodyStarted, MachineStep, Frame.Sized,
      Linked.LevelAt, HeldFor;
    StackBelow(g, c, s);
    BodyBlocks(x, BodyStart(x.g.P, x.j, x.f, x.id), end.pc);
  }

  lemma StackBelow(g: Ground, c: Config, s: State)
    requires Matches(g, c, s)
    ensures s.sp <= ZoneAt(g, s.pc).hi
  {
    hide MemAgrees, HeldAt, HeightAt, DepthAt;
  }

  lemma BodyBlocks(x: Act, start: State, pc: int)
    requires BodyStarted(x.g, x.body, x.e + 2, x.st, x.fuel, x.o, start)
    ensures DepthAt(x.g, pc) >= 0
  {
    hide Matches, Told, Enough, EvalStmts, Flow.Ready, CStmts, Placement.GoodLayout, AllWellFormed, BodyIn, Frame.Depth,
      Linked.LevelAt, Frame.Sized, Surrounds, Linked.AllLinked, Linked.Encloses;
    BodyGround(x.g, x.body, x.e + 2);
    if InRegion(x.g, pc) {
      var k: nat := pc;
      assert LevelOk(x.g, k);
      StackPointer.EnclosedInside(x.g.P.blocks, x.g.w.block, BlockOf(x.g, pc));
    }
    Frame.DepthGrows(x.g.P, BlockOf(x.g, pc));
  }

  lemma MemThrough(z: Zone, y: Zone, m: Mem, n: Mem, r: Mem)
    requires MemAgrees(z, m, n) && MemAgrees(y, n, r) && z.lo <= y.lo && y.hi <= z.hi
    ensures MemAgrees(z, m, r)
  {
  }

  /** A function that calls nothing means what its body does. */
  lemma LeafMeans(a: Host, s: State, x: Act)
    requires Acts(a, s, x) && a.arch.Riscv? && Accesses.CallFree(x.g)
    ensures Means(0, a, s, x)
  {
    hide CallsMean, BodyStarted, BodyStart, FunctionAt, MachineStep, HeldFor, Frame.Sized;
    BodyCode(x, BodyStart(x.g.P, x.j, x.f, x.id));
    forall n: nat ensures CallsMean(0, x.g, Start(x), BodyStart(x.g.P, x.j, x.f, x.id), n) {
      NoneCalled(x.g, Start(x), BodyStart(x.g.P, x.j, x.f, x.id), n);
    }
  }

  lemma BodyCode(x: Act, start: State)
    requires BodyStarted(x.g, x.body, x.e + 2, x.st, x.fuel, x.o, start)
    ensures x.g.w.code == x.g.P.il
  {
    hide Matches, Told, Enough, EvalStmts, Flow.Ready, CStmts, Placement.GoodLayout, AllWellFormed;
  }

  lemma {:induction false} NoneCalled(g: Ground, c: Config, s: State, n: nat)
    requires Accesses.CallFree(g) && g.w.code == g.P.il && g.arch.Riscv?
    ensures CallsMean(0, g, c, s, n)
    decreases n
  {
    hide FlowStep, Next;
    if n > 0 && FlowStep(g.w, c).Some? {
      EnteredStep(g.w, c, FlowStep(g.w, c).value);
      if Next(HostOf(g), s).Some? { NoneCalled(g, FlowStep(g.w, c).value, Next(HostOf(g), s).value, n - 1); }
    }
  }

  /** A statement whose calls have meanings: its code runs to its outcome, with nothing about the machine left to
      ask. */
  lemma StatementHappens(d: nat, g: Ground, x: Stmt, base: nat, brk: nat, st: St, fuel: nat, o: Outcome, s: State)
    returns (c: Config, t: State)
    requires StatementAt(g, x, base, brk) && Placement.GoodLayout(g.arch, g.P, g.L)
    requires Flow.Ready(g.w, base, CStmt(x, base, brk), st) && WellFormed(x, g.w.exits)
    requires EvalStmt(g.w.env, x, st.mem, st.entered, fuel) == Some(o)
    requires Matches(g, Config(base, st), s) && Told(g.w.env.stale, g.w.env.clobber, st.entered, st.calls, HostOf(g), s)
    requires Enough(g, Config(base, st), s, o.entered) && forall n: nat :: CallsMean(d, g, Config(base, st), s, n)
    ensures Lands(g.w, o, st, base + |CStmt(x, base, brk)|, brk, c)
    ensures Via(MachineStepper(g.arch, g.P, g.L), InFrame(g.P, g.fp), s, t) && Matches(g, c, t)
    ensures HeldSame(g.held, s.mem, t.mem)
  {
    hide Matches, Told, Enough, RunOk, EvalStmt, CStmt, WellFormed, Flow.Ready, Placement.GoodLayout, Via, HeldSame,
      StatementAt, CallsMean, Grounded, FlowStep;
    var n;
    n, c, t := StatementRuns(g, x, base, brk, st, fuel, o, s);
    StatementGround(g, x, base, brk);
    assert CallsMean(d, g, Config(base, st), s, n);
    CallsHappen(d, g, Config(base, st), s, n, c);
  }

  lemma StartedRuns(d: nat, g: Ground, x: Stmt, base: nat, brk: nat, st: St, fuel: nat, o: Outcome, s: State, n: nat,
                    c: Config)
    requires Processors.Started(g, x, base, brk, st, fuel, o, s) && Placement.GoodLayout(g.arch, g.P, g.L)
    requires Run(Flow.Stepper(g.w), Config(base, st), n) == Some(c) && CallsMean(d, g, Config(base, st), s, n)
    requires Lands(g.w, o, st, base + |CStmt(x, base, brk)|, brk, c)
    ensures RunOk(g, Config(base, st), s, n)
  {
    hide Matches, Told, Enough, RunOk, EvalStmt, CStmt, WellFormed, Flow.Ready, Placement.GoodLayout, StatementAt,
      CallsMean, Grounded, FlowStep;
    StatementGround(g, x, base, brk);
    CallsHappen(d, g, Config(base, st), s, n, c);
  }

  /** The same on the RISC-V processor: from a statement's meaning and those of the functions it calls to the run of the
      code generated. */
  lemma RiscvHappens(d: nat, g: Ground, code: CodeMemory.Code, x: Stmt, base: nat, brk: nat, st: St, fuel: nat,
                     o: Outcome, s: State, m: RiscvIsa.Machine)
    returns (c: Config, t: State, m': RiscvIsa.Machine)
    requires g.arch.Riscv? && Placement.Placed(Backend.Riscv, g.P, g.L, code) && RiscvSim.Related(g.L, s, m)
    requires Processors.Started(g, x, base, brk, st, fuel, o, s)
    requires forall n: nat :: CallsMean(d, g, Config(base, st), s, n)
    ensures Lands(g.w, o, st, base + |CStmt(x, base, brk)|, brk, c)
    ensures Matches(g, c, t) && Reaches(RiscvIsa.Stepper(code), m, m') && RiscvSim.Related(g.L, t, m')
  {
    hide Matches, RiscvSim.Related, RunOk, Processors.Started, Placement.GoodLayout, CallsMean, Lands, FlowStep, CStmt;
    var n;
    n, c, t, m' := Processors.RiscvStatement(g, code, x, base, brk, st, fuel, o, s, m);
    StartedRuns(d, g, x, base, brk, st, fuel, o, s, n, c);
  }

  /** And on the ARM processor, on operands on which it computes what the IL means. */
  lemma ArmHappens(d: nat, g: Ground, code: CodeMemory.Code, x: Stmt, base: nat, brk: nat, st: St, fuel: nat,
                   o: Outcome, s: State, m: ArmIsa.Machine)
    returns (c: Config, t: State, m': ArmIsa.Machine)
    requires g.arch.Arm? && Placement.Placed(Backend.Arm, g.P, g.L, code) && ArmSim.Sized(g.P)
    requires ArmSim.Related(g.L, s, m) && Processors.Started(g, x, base, brk, st, fuel, o, s)
    requires forall n: nat :: CallsMean(d, g, Config(base, st), s, n)
    ensures Lands(g.w, o, st, base + |CStmt(x, base, brk)|, brk, c)
    ensures Matches(g, c, t) && Reaches(ArmIsa.Stepper(code), m, m') && ArmSim.Related(g.L, t, m')
  {
    hide Matches, ArmSim.Related, RunOk, Processors.Started, Placement.GoodLayout, CallsMean, Lands, FlowStep, CStmt,
      ArmSim.Sized;
    var n;
    n, c, t, m' := Processors.ArmStatement(g, code, x, base, brk, st, fuel, o, s, m);
    StartedRuns(d, g, x, base, brk, st, fuel, o, s, n, c);
  }

  // ----- every call has an activation -----

  /** The surroundings of an activation; only what calls give is left open. */
  ghost function Around(g: Ground, calls: Env, stale: nat -> Mem, clobber: (nat, nat) -> Word): Env {
    calls.(typed := false,
           addr := NamesIn(g.P, g.L, g.fp, g.w.block), scopes := (b: nat) => NamesIn(g.P, g.L, g.fp, b),
           access := AccessIn(g, g.w.block), accesses := (b: nat) => AccessIn(g, b),
           frame := (b: nat) => FrameIn(g.P, g.fp, b), stale := stale, charSigned := g.arch.Riscv?, clobber := clobber)
  }

  /** What the called function and its caller must be like. */
  ghost predicate Callable(a: Host, s: State, j: State, f: nat, e: nat, id: nat, body: seq<Stmt>, h: int, lo: int) {
    && f < |a.P.funcs| && id < |a.P.blocks|
    && 0 <= s.pc < |a.P.il| && IsCall(a.P.il[s.pc]) && MachineStep(a.arch, a.P, a.L, s) == Some(j) && j.pc == e
    && FunctionAt(a.P, f, e, id, body, h) && Frame.Sized(a.P) && a.P.blocks[0].localsSize == 0
    && |a.P.funcs[f].params| <= |j.regs| && s.sp >= 4096 && (forall x :: x in a.held ==> s.sp <= x)
    && ExprCorrect.RegsBelow(a.P.il, |s.regs|) && |s.regs| >= MAX_PARAMS && Placement.GoodLayout(a.arch, a.P, a.L)
    && AllWellFormed(body, map[a.P.funcs[f].name := a.P.funcs[f].exit])
    && 16 <= lo <= s.sp - 16 - Frame.Depth(a.P.blocks, a.P.funcs, id)
  }

  ghost function GroundOf(a: Host, s: State, f: nat, e: nat, id: nat, body: seq<Stmt>, h: int, lo: int,
                          env: Env): Ground
    requires f < |a.P.funcs| && 16 <= s.sp
  {
    var w := World(env, map[a.P.funcs[f].name := a.P.funcs[f].exit], a.P.il, a.P.blocks, id, e + 2,
                   e + 2 + |CStmts(body, e + 2, 0)|);
    Ground(a.arch, a.P, a.L, w, s.sp - 16, lo, h, None, HeldFor(a, s))
  }

  /** Whatever its inner calls may give, an activation for a call is there, with what memory and registers hold. */
  lemma ActivationExists(a: Host, s: State, j: State, f: nat, e: nat, id: nat, body: seq<Stmt>, h: int, lo: int,
                         calls: Env)
    returns (g: Ground, st: St)
    requires Callable(a, s, j, f, e, id, body, h, lo)
    ensures CallOf(a, s, j, g, f, e, id, body) && g.w.exits == map[g.P.funcs[f].name := g.P.funcs[f].exit] && g.lo == lo
    ensures g.w.env == calls.(typed := false, addr := g.w.env.addr, scopes := g.w.env.scopes, access := g.w.env.access,
                              accesses := g.w.env.accesses, frame := g.w.env.frame, stale := g.w.env.stale,
                              charSigned := g.w.env.charSigned, clobber := g.w.env.clobber)
    ensures BodyIn(g, body, e + 2) && Placement.GoodLayout(g.arch, g.P, g.L)
    ensures Flow.Ready(g.w, e + 2, CStmts(body, e + 2, 0), st) && AllWellFormed(body, g.w.exits)
    ensures var start := BodyStart(g.P, j, f, id);
            && Matches(g, Config(e + 2, st), start)
            && Told(g.w.env.stale, g.w.env.clobber, st.entered, st.calls, HostOf(g), start)
    ensures st.entered == 0 && st.mem == BodyStart(a.P, j, f, id).mem && st.regs == j.regs
  {
    hide Callable, Around, BodyIn, Flow.Ready, Matches, Told, CallOf, GroundOf, BodyStart, AllWellFormed,
      Placement.GoodLayout, CStmts;
    CallableParts(a, s, j, f, e, id, body, h, lo);
    var start := BodyStart(a.P, j, f, id);
    var stale, clobber := ToldExists(0, 0, Host(a.arch, a.P, a.L, HeldFor(a, s)), start);
    var env := Around(GroundOf(a, s, f, e, id, body, h, lo, calls), calls, stale, clobber);
    g := GroundOf(a, s, f, e, id, body, h, lo, env);
    GroundFields(a, s, f, e, id, body, h, lo, calls, stale, clobber);
    st := St(j.regs, [], start.mem, 0, 0);
    CallActs(a, s, j, f, e, id, body, h, lo, env);
    BodyThere(a, s, j, f, e, id, body, h, lo, g);
    BodyReady(a, s, j, f, e, id, body, h, lo, g, st);
    StartStands(a, s, j, f, e, id, body, h, lo, g, st);
  }

  lemma CallableParts(a: Host, s: State, j: State, f: nat, e: nat, id: nat, body: seq<Stmt>, h: int, lo: int)
    requires Callable(a, s, j, f, e, id, body, h, lo)
    ensures f < |a.P.funcs| && id < |a.P.blocks| && |a.P.funcs[f].params| <= |j.regs| && s.sp >= 4096
    ensures Placement.GoodLayout(a.arch, a.P, a.L) && AllWellFormed(body, map[a.P.funcs[f].name := a.P.funcs[f].exit])
    ensures j.regs == s.regs && j.mem == s.mem && j.sp == s.sp
  {
    hide FunctionAt, MachineStep, Frame.Sized, Frame.Depth, AllWellFormed, Placement.GoodLayout, ExprCorrect.RegsBelow;
    CallKeepsFp(a, s, j);
  }

  lemma GroundFields(a: Host, s: State, f: nat, e: nat, id: nat, body: seq<Stmt>, h: int, lo: int, calls: Env,
                     stale: nat -> Mem, clobber: (nat, nat) -> Word)
    requires f < |a.P.funcs| && 16 <= s.sp
    ensures var env := Around(GroundOf(a, s, f, e, id, body, h, lo, calls), calls, stale, clobber);
            var g := GroundOf(a, s, f, e, id, body, h, lo, env);
            && env.stale == stale && env.clobber == clobber && g.w.env == env
            && g.w.exits == map[a.P.funcs[f].name := a.P.funcs[f].exit] && g.lo == lo && g.P == a.P && g.arch == a.arch
            && g.L == a.L && HostOf(g) == Host(a.arch, a.P, a.L, HeldFor(a, s))
            && Surrounds(g) && Settled(g.w)
            && env == calls.(typed := false, addr := env.addr, scopes := env.scopes, access := env.access,
                             accesses := env.accesses, frame := env.frame, stale := env.stale,
                             charSigned := env.charSigned, clobber := env.clobber)
  {
    hide NamesIn, FrameIn, HeldFor, CStmts;
    var env := Around(GroundOf(a, s, f, e, id, body, h, lo, calls), calls, stale, clobber);
    var g := GroundOf(a, s, f, e, id, body, h, lo, env);
    forall b: nat ensures AccessIn(g, b) == AccessIn(GroundOf(a, s, f, e, id, body, h, lo, calls), b) {}
  }

  lemma CallActs(a: Host, s: State, j: State, f: nat, e: nat, id: nat, body: seq<Stmt>, h: int, lo: int, env: Env)
    requires Callable(a, s, j, f, e, id, body, h, lo)
    ensures CallOf(a, s, j, GroundOf(a, s, f, e, id, body, h, lo, env), f, e, id, body)
  {
    hide FunctionAt, MachineStep, Frame.Sized, Frame.Depth, AllWellFormed, Placement.GoodLayout, ExprCorrect.RegsBelow,
      HeldFor, CStmts;
  }

  lemma BodyThere(a: Host, s: State, j: State, f: nat, e: nat, id: nat, body: seq<Stmt>, h: int, lo: int, g: Ground)
    requires Callable(a, s, j, f, e, id, body, h, lo) && g == GroundOf(a, s, f, e, id, body, h, lo, g.w.env)
    requires Surrounds(g)
    ensures BodyIn(g, body, e + 2) && g.w.hi <= |g.P.il|
  {
    hide MachineStep, Frame.Sized, Frame.Depth, AllWellFormed, Placement.GoodLayout, ExprCorrect.RegsBelow, Surrounds,
      CStmts, Linked.LevelAt, Linked.AllNested, Linked.AllBreakFree, FindFunction, At;
    StackPointer.FunctionLevels(a.P, a.P.funcs[f].name, id, body, e, h);
    forall x | x in g.held ensures g.fp <= x {}
    ExitOutside(g, f, e, body);
  }

  lemma ExitOutside(g: Ground, f: nat, e: nat, body: seq<Stmt>)
    requires f < |g.P.funcs| && FindFunction(g.P.funcs, g.P.funcs[f].name) == Some(f)
    requires g.P.funcs[f].exit == e + 3 + |CStmts(body, e + 2, 0)| < |g.P.il|
    requires g.w.hi == e + 2 + |CStmts(body, e + 2, 0)|
    requires g.w.exits == map[g.P.funcs[f].name := g.P.funcs[f].exit]
    ensures forall name :: name in g.w.exits ==> ExitIs(g, name)
  {
    hide FindFunction, CStmts;
  }

  lemma BodyReady(a: Host, s: State, j: State, f: nat, e: nat, id: nat, body: seq<Stmt>, h: int, lo: int, g: Ground,
                  st: St)
    requires Callable(a, s, j, f, e, id, body, h, lo) && g == GroundOf(a, s, f, e, id, body, h, lo, g.w.env)
    requires Settled(g.w)
    requires BodyIn(g, body, e + 2) && st.regs == j.regs == s.regs && st.stack == [] && g.w.hi <= |g.P.il|
    ensures Flow.Ready(g.w, e + 2, CStmts(body, e + 2, 0), st)
  {
    hide MachineStep, Frame.Sized, Frame.Depth, AllWellFormed, Placement.GoodLayout, ExprCorrect.RegsBelow, Surrounds,
      CStmts, Linked.LevelAt, Linked.AllNested, Linked.AllBreakFree, FunctionAt, At;
  }

  /** Behind the entry the stack pointer is at the end of the frame. */
  lemma StartStands(a: Host, s: State, j: State, f: nat, e: nat, id: nat, body: seq<Stmt>, h: int, lo: int, g: Ground,
                    st: St)
    requires Callable(a, s, j, f, e, id, body, h, lo) && g == GroundOf(a, s, f, e, id, body, h, lo, g.w.env)
    requires BodyIn(g, body, e + 2) && j.regs == s.regs && j.mem == s.mem && j.sp == s.sp
    requires st == St(j.regs, [], BodyStart(a.P, j, f, id).mem, 0, 0)
    ensures Matches(g, Config(e + 2, st), BodyStart(a.P, j, f, id))
  {
    hide MachineStep, AllWellFormed, Placement.GoodLayout, ExprCorrect.RegsBelow, Surrounds, CStmts, Linked.LevelAt,
      Linked.AllNested, Linked.AllBreakFree, FindFunction, At, StoreParams, StoreWord, Frame.Sized, Frame.Depth,
      FunctionAt;
    StartFrame(a, s, j, f, e, id, body, h, lo);
    BodyGround(g, body, e + 2);
    StartLevel(g, body, e + 2);
  }

  lemma StartLevel(g: Ground, body: seq<Stmt>, base: nat)
    requires BodyIn(g, body, base)
    ensures BlockOf(g, base) == g.w.block && HeightAt(g, base) == 0
  {
    hide CStmts, Linked.LevelAt, Linked.AllNested, Linked.AllBreakFree, At, Surrounds, Frame.Sized;
  }

  lemma StartFrame(a: Host, s: State, j: State, f: nat, e: nat, id: nat, body: seq<Stmt>, h: int, lo: int)
    requires Callable(a, s, j, f, e, id, body, h, lo) && j.sp == s.sp
    ensures var t := BodyStart(a.P, j, f, id);
            && t.pc == e + 2 && t.fp == s.sp - 16 && t.regs == j.regs
            && t.sp == s.sp - 16 - Frame.Depth(a.P.blocks, a.P.funcs, id)
  {
    hide MachineStep, AllWellFormed, Placement.GoodLayout, ExprCorrect.RegsBelow, CStmts, Linked.LevelAt,
      Linked.AllNested, Linked.AllBreakFree, FindFunction, At, StoreParams, StoreWord, Frame.Sized;
    Reach.SizesFit(a.P);
    assert Reach.FunctionFits(a.P.funcs[f]) && Reach.SizeFits(a.P.blocks[id].localsSize);
    BodyDepth(a.P, f, id);
    hide Frame.Depth;
    SmallWrap(s.sp - 16);
    SmallWrap(s.sp - 16 - a.P.funcs[f].paramsSize);
    SmallWrap(s.sp - 16 - a.P.funcs[f].paramsSize - a.P.blocks[id].localsSize);
  }

  /** The frame of a function's own block: its parameters and the block's locals. */
  lemma BodyDepth(P: Program, f: nat, id: nat)
    requires Frame.Sized(P) && 1 <= id < |P.blocks| && P.blocks[id].parent.None? && P.blocks[id].func == Some(f)
    requires f < |P.funcs|
    ensures Frame.Depth(P.blocks, P.funcs, id) == P.funcs[f].paramsSize + P.blocks[id].localsSize
    ensures !HasLocals(P, id) ==> P.blocks[id].localsSize == 0
  {
    assert Frame.BlockSized(P.types, P.blocks, P.funcs, id);
  }
}
