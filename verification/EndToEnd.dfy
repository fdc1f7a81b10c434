/** From source statements to machine code: the structured meaning is carried through IL on numbered registers with an
    abstract push stack, to the IL machine whose pushed values lie in memory, to the processor.

    Inside a function the stack below the block in force is the zone where values are pushed; it ends where the frame of
    that block does, so it shrinks when a block is entered and grows when one is left.  Outside the zone the program's
    memory is the machine's.  The zone and what callers hold are not the program's to read and write: a statement that
    does has no meaning.  One thing is asked of a run: callees keep their part of the call protocol. */
module EndToEnd {
  import opened Words
  import opened Runs
  import opened Il
  import Ast
  import opened Compile
  import opened Semantics
  import opened StmtSemantics
  import opened Straight
  import opened Flow
  import opened IlMachine
  import opened Zones
  import Grammar
  import Scoping
  import Linked
  import Plain
  import StackPointer
  import ScopedCode
  import Placement
  import Backend
  import Calls
  import Frame
  import Reach
  import ArmSim

  // ----- an activation of a function -----

  /** One piece of a function's code, the indices from `w.lo` up to `w.hi`, in one activation: the frame pointer, how
      far down the stack may reach, the push height at which the piece is entered, where its breaks go, and the
      addresses at which callers hold saved words and pushed values. */
  datatype Ground = Ground(arch: Backend.Arch, P: Program, L: Layout, w: World, fp: Word, lo: int, h: int,
                           out: Option<Linked.Out>, held: iset<int>)

  function Links(g: Ground): Linked.Linkage {
    Linked.Linkage(g.P.il, g.P.blocks)
  }

  predicate InRegion(g: Ground, pc: int) {
    g.w.lo <= pc <= g.w.hi <= |g.P.il|
  }

  predicate OutsideRegion(g: Ground, pc: int) {
    0 <= pc < |g.P.il| && !InRegion(g, pc)
  }

  /** The block in force; outside the piece, the block the piece stands in. */
  function BlockOf(g: Ground, pc: int): nat {
    if !InRegion(g, pc) then g.w.block
    else match Linked.LevelAt(Links(g), pc).block case Some(b) => b case None => g.w.block
  }

  function DepthAt(g: Ground, pc: int): int {
    Frame.Depth(g.P.blocks, g.P.funcs, BlockOf(g, pc))
  }

  /** Where values are pushed: from the end of the stack up to the frame of the block in force. */
  function ZoneAt(g: Ground, pc: int): Zone {
    Zone(g.lo, g.fp - DepthAt(g, pc))
  }

  function HeightAt(g: Ground, pc: int): int {
    if InRegion(g, pc) then Linked.LevelAt(Links(g), pc).height - g.h else 0
  }

  /** Where a name leads in block b, by the rules of the language: locals and parameters, then globals, then functions.
      A name that is both a local and a global has no meaning here, since parser and generator disagree about it. */
  ghost function NameIn(P: Program, L: Layout, fp: Word, b: nat, name: string): Option<Word> {
    match FindLocalVariable(P.blocks, P.funcs, b, name)
    case Some(v) => if FindGlobalVariable(P.blocks, name).Some? then None
      else Some(AddressOf(P, L, fp, Local(v.offset)))
    case None =>
      match FindGlobalVariable(P.blocks, name)
      case Some(v) => Some(AddressOf(P, L, fp, Global(v.offset)))
      case None =>
        match FindFunction(P.funcs, name)
        case Some(f) => Some(AddressOf(P, L, fp, FunctionEntry(P.funcs[f].entry)))
        case None => None
  }

  ghost function NamesIn(P: Program, L: Layout, fp: Word, b: nat): imap<string, Word> {
    imap name | NameIn(P, L, fp, b, name).Some? :: NameIn(P, L, fp, b, name).value
  }

  /** A block's locals lie between the frame outside it and its own end. */
  function FrameIn(P: Program, fp: Word, b: nat): Range {
    Range(fp - Frame.Depth(P.blocks, P.funcs, b), fp - Frame.Outside(P.blocks, P.funcs, b))
  }

  /** In block b the program may read outside the zone, and write there unless callers hold the byte. */
  ghost function AccessIn(g: Ground, b: nat): Access {
    var z := Zone(g.lo, g.fp - Frame.Depth(g.P.blocks, g.P.funcs, b));
    Access(iset a | !InZone(z, a), iset a | !InZone(z, a) && a !in g.held)
  }

  /** The surroundings are those of this activation. */
  ghost predicate Surrounds(g: Ground) {
    && g.w.env.charSigned == g.arch.Riscv?
    && (forall b: nat :: g.w.env.scopes(b) == NamesIn(g.P, g.L, g.fp, b))
    && (forall b: nat :: g.w.env.accesses(b) == AccessIn(g, b))
    && (forall b: nat :: g.w.env.frame(b) == FrameIn(g.P, g.fp, b))
  }

  ghost predicate ExitIs(g: Ground, name: string)
    requires name in g.w.exits
  {
    match FindFunction(g.P.funcs, name)
    case None => false
    case Some(f) => g.w.exits[name] == g.P.funcs[f].exit && OutsideRegion(g, g.P.funcs[f].exit)
  }

  ghost predicate LevelOk(g: Ground, k: nat)
    requires k <= |g.P.il|
  {
    var l := Linked.LevelAt(Links(g), k);
    && l.block.Some? && Linked.Encloses(g.P.blocks, g.w.block, l.block.value) && l.height - g.h <= k - g.w.lo
  }

  /** The piece of code is part of a sized program, its jumps are linked and its blocks are inside that of the piece. */
  ghost predicate Grounded(g: Ground) {
    && g.w.code == g.P.il && g.w.blocks == g.P.blocks && Frame.Sized(g.P) && g.P.blocks[0].localsSize == 0
    && 16 <= g.lo && (forall a :: a in g.held ==> g.fp <= a)
    && 1 <= g.w.block < |g.P.blocks| && g.w.lo <= g.w.hi <= |g.P.il|
    && Linked.AllLinked(Links(g), Linked.Span(g.w.lo, g.w.hi, g.out), g.w.lo, g.w.hi)
    && (forall k :: g.w.lo <= k <= g.w.hi ==> LevelOk(g, k))
    && (g.out.Some? ==> g.out.value.b == g.w.block && g.out.value.h == g.h && OutsideRegion(g, g.out.value.brk))
    && Surrounds(g) && forall name :: name in g.w.exits ==> ExitIs(g, name)
  }

  /** The machine's state stands for a configuration of the piece. */
  ghost predicate Matches(g: Ground, c: Config, s: State) {
    && s.pc == c.pc && s.regs == c.st.regs && s.fp == g.fp
    && MemAgrees(ZoneAt(g, c.pc), c.st.mem, s.mem) && StackHeld(ZoneAt(g, c.pc), c.st.stack, s.sp, s.mem)
    && (InRegion(g, c.pc) ==> |c.st.stack| == HeightAt(g, c.pc))
  }

  // ----- names -----

  /** What a name means by the rules of the language is what the generator makes of it. */
  lemma NameResolved(P: Program, L: Layout, fp: Word, b: nat, name: string)
    requires NameIn(P, L, fp, b, name).Some?
    ensures var r := Resolve(P, Some(b), name);
            !r.Undefined? && NameIn(P, L, fp, b, name).value == AddressOf(P, L, fp, r)
  {
    hide FindLocalVariable, FindGlobalVariable, FindFunction, AddressOf;
  }

  /** The declaration the parser has found is what the name means, whenever the generator keeps to it; a global must not
      be hidden later. */
  lemma NameIsDeclared(sc: Grammar.Scope, P: Program, L: Layout, fp: Word, name: string, p: Scoping.Place)
    requires Scoping.Finished(sc, P)
    requires Scoping.ParserPlace(sc.blocks, sc.names.funcs, sc.block, name) == Some(p)
    requires Scoping.StillFound(P, sc.block, name, p)
    requires p.GlobalOf? ==> FindLocalVariable(P.blocks, P.funcs, sc.block, name).None?
    ensures Scoping.PlaceOk(P.blocks, P.funcs, p)
    ensures var v := Scoping.VarAt(P.blocks, P.funcs, p);
            NameIn(P, L, fp, sc.block, name)
              == Some(AddressOf(P, L, fp, if p.GlobalOf? then Global(v.offset) else Local(v.offset)))
  {
    hide FindLocalVariable, FindFunction, AddressOf, Scoping.ParserPlace, Scoping.StillFound, Scoping.LocalPlace,
      Scoping.Finished, FindVar, Scoping.Kept, Scoping.BlockKept;
    Scoping.LookupAgreesIff(sc, P, name, p);
    Scoping.PlacesFind(P, sc.block, name);
    Scoping.LocalPlaceFinds(P.blocks, P.funcs, sc.block, name);
  }

  // ----- levels -----

  /** Behind an instruction that is no marker and no jump the block is the same. */
  lemma NextLevel(g: Ground, k: nat)
    requires Grounded(g) && g.w.lo <= k < g.w.hi
    ensures LevelOk(g, k) && LevelOk(g, k + 1) && InRegion(g, k) && InRegion(g, k + 1)
    ensures Linked.JumpLinked(Links(g), Linked.Span(g.w.lo, g.w.hi, g.out), k)
    ensures HeightAt(g, k + 1) == HeightAt(g, k) + Plain.Pushed(g.P.il[k].op) <= k + 1 - g.w.lo
    ensures !g.P.il[k].op.BlockStart? && !g.P.il[k].op.BlockEnd? ==> ZoneAt(g, k + 1) == ZoneAt(g, k)
    ensures 1 <= BlockOf(g, k) < |g.P.blocks| && 1 <= BlockOf(g, k + 1) < |g.P.blocks|
  {
    hide Linked.LevelAt, Linked.JumpLinked, Frame.Depth, Linked.Encloses, Frame.Sized, Surrounds;
    assert LevelOk(g, k);
    var j := k + 1;
    assert LevelOk(g, j);
    Linked.LevelNext(Links(g), k);
    StackPointer.EnclosedInside(g.P.blocks, g.w.block, BlockOf(g, k));
    StackPointer.EnclosedInside(g.P.blocks, g.w.block, BlockOf(g, j));
  }

  // ----- one step -----

  /** One step of the IL machine as the processor is known to follow it: on ARM only where it computes what the IL
      means. */
  ghost function MachineStep(arch: Backend.Arch, P: Program, L: Layout, s: State): Option<State> {
    if arch.Arm? && !ArmSim.ArmAgrees(P, s) then None else Step(P, L, arch.Riscv?, s)
  }

  ghost function MachineStepper(arch: Backend.Arch, P: Program, L: Layout): State -> Option<State> {
    s => MachineStep(arch, P, L, s)
  }

  /** None of the bytes of an access are held. */
  predicate Unheld(held: iset<int>, a: Word, size: int) {
    a !in held && (size == 4 ==> Wrap(a + 1) !in held && Wrap(a + 2) !in held && Wrap(a + 3) !in held)
  }

  ghost predicate HeldSame(held: iset<int>, m: Mem, n: Mem) {
    forall a: Word :: a in held ==> m[a] == n[a]
  }

  /** There is stack left for what the instruction reserves. */
  ghost predicate StackLeft(g: Ground, c: Config, s: State) {
    InRegion(g, c.pc) && c.pc < |g.P.il| ==>
      && (g.P.il[c.pc].op.Push? ==> g.lo <= s.sp - 16)
      && (g.P.il[c.pc].op.BlockStart? ==> g.lo <= s.sp - 2032)
  }

  /** Memory, where a block is entered, is what the surroundings say. */
  ghost predicate StaleIs(g: Ground, c: Config, s: State) {
    InRegion(g, c.pc) && c.pc < |g.P.il| && g.P.il[c.pc].op.BlockStart? ==> g.w.env.stale(c.st.entered) == s.mem
  }

  /** Where the pushed values start; only entering a block takes it down. */
  function Base(c: Config, s: State): int {
    s.sp + 16 * |c.st.stack|
  }

  /** In every block an access to the bytes of a visible local or parameter is clear of all of this. */
  lemma VariableClear(g: Ground, pc: nat, name: string, ofs: int, size: int)
    requires Grounded(g) && g.w.lo <= pc < g.w.hi && Resolve(g.P, Some(BlockOf(g, pc)), name) == Local(ofs)
    requires (size == 4 || size == 1) && size <= ofs && DepthAt(g, pc) <= g.fp
    ensures Clear(ZoneAt(g, pc), Wrap(g.fp - ofs), size) && Unheld(g.held, Wrap(g.fp - ofs), size)
  {
    hide Resolve, Linked.AllLinked, Linked.LevelAt, Frame.Sized, Frame.Depth, Surrounds;
    NextLevel(g, pc);
    Reach.LocalDepth(g.P, Some(BlockOf(g, pc)), name, ofs);
    SmallWrap(g.fp - ofs);
    SmallWrap(g.fp - ofs + 1);
    if size == 4 {
      SmallWrap(g.fp - ofs + 2);
      SmallWrap(g.fp - ofs + 3);
    }
  }

  ghost predicate BaseKept(g: Ground, c: Config, s: State, d: Config, t: State) {
    && HeldSame(g.held, s.mem, t.mem)
    && Base(d, t) + (if 0 <= c.pc < |g.P.il| && g.P.il[c.pc].op.BlockStart? then 2032 else 0) >= Base(c, s)
  }

  ghost predicate StepOk(g: Ground, c: Config, s: State) {
    StackLeft(g, c, s) && StaleIs(g, c, s) && (g.arch.Arm? ==> ArmSim.ArmAgrees(g.P, s))
  }

  ghost predicate Stepping(g: Ground, c: Config, s: State, d: Config) {
    && Grounded(g) && Matches(g, c, s) && StepOk(g, c, s) && FlowStep(g.w, c) == Some(d)
    && g.w.lo <= c.pc < g.w.hi <= |g.P.il| && !IsCall(g.P.il[c.pc])
  }

  lemma Agreed(g: Ground, c: Config, s: State, d: Config)
    requires Stepping(g, c, s, d)
    ensures g.arch.Arm? ==> ArmSim.ArmAgrees(g.P, s)
  {
    hide Grounded, Matches, FlowStep, ArmSim.ArmAgrees;
  }

  /** The next configuration matches when memory and pushed values do in the same zone. */
  lemma OnwardMatches(g: Ground, c: Config, s: State, d: Config, t: State)
    requires Stepping(g, c, s, d) && d.pc == c.pc + 1
    requires !g.P.il[c.pc].op.BlockStart? && !g.P.il[c.pc].op.BlockEnd?
    requires t.pc == d.pc && t.regs == d.st.regs && t.fp == s.fp
    requires var z := ZoneAt(g, c.pc); MemAgrees(z, d.st.mem, t.mem) && StackHeld(z, d.st.stack, t.sp, t.mem)
    requires |d.st.stack| == |c.st.stack| + Plain.Pushed(g.P.il[c.pc].op)
    ensures Matches(g, d, t)
  {
    hide Grounded, FlowStep, StepOk, MemAgrees, StackHeld, ZoneAt, HeightAt, Linked.JumpLinked, Linked.LevelAt;
    NextLevel(g, c.pc);
  }

  lemma MemoryMatches(g: Ground, c: Config, s: State, d: Config) returns (t: State)
    requires Stepping(g, c, s, d) && (g.P.il[c.pc].op.ReadAddr? || g.P.il[c.pc].op.WriteAddr?)
    ensures Step(g.P, g.L, g.arch.Riscv?, s) == Some(t) && Matches(g, d, t) && BaseKept(g, c, s, d, t)
  {
    hide MemAgrees, StackHeld, Clear, Binary, Load, Store, ZoneAt, HeightAt, ArmSim.ArmAgrees, Linked.AllLinked;
    var z, ins := ZoneAt(g, c.pc), g.P.il[c.pc];
    var a := s.regs[ins.int1];
    var signed := g.arch.Riscv?;
    ZoneIs(g, c, s, d);
    AccessClear(g, c, d);
    if ins.op.ReadAddr? {
      LoadAgrees(z, c.st.mem, s.mem, a, ins.int2, signed);
      t := s.(pc := d.pc, regs := d.st.regs);
    } else {
      SizesOf(c.st.mem, s.mem, a, ins.int2, s.regs[ins.param]);
      StoreAgrees(z, c.st.mem, s.mem, a, ins.int2, s.regs[ins.param]);
      StoreKeepsStack(z, c.st.stack, s.sp, s.mem, a, ins.int2, s.regs[ins.param]);
      t := s.(pc := d.pc, mem := Store(s.mem, a, ins.int2, s.regs[ins.param]).value);
      StoreHeld(g.held, s.mem, a, ins.int2, s.regs[ins.param]);
    }
    OnwardMatches(g, c, s, d, t);
  }

  /** What a step reads and writes is the program's own. */
  lemma AccessClear(g: Ground, c: Config, d: Config)
    requires Grounded(g) && FlowStep(g.w, c) == Some(d) && g.w.lo <= c.pc < g.w.hi
    requires g.P.il[c.pc].op.ReadAddr? || g.P.il[c.pc].op.WriteAddr?
    ensures var ins := g.P.il[c.pc];
            && 0 <= ins.int1 < |c.st.regs| && 0 <= ins.param < |c.st.regs|
            && Clear(ZoneAt(g, c.pc), c.st.regs[ins.int1], ins.int2)
            && (ins.op.ReadAddr? ==>
                  var v := Load(c.st.mem, c.st.regs[ins.int1], ins.int2, g.w.env.charSigned);
                  v.Some? && d == Config(c.pc + 1, c.st.(regs := c.st.regs[ins.param := v.value])))
            && (ins.op.WriteAddr? ==>
                  var m := Store(c.st.mem, c.st.regs[ins.int1], ins.int2, c.st.regs[ins.param]);
                  && m.Some? && d == Config(c.pc + 1, c.st.(mem := m.value))
                  && Unheld(g.held, c.st.regs[ins.int1], ins.int2))
  {
    hide Load, Store, Linked.AllLinked, Linked.LevelAt, Frame.Sized, Frame.Depth, BlockAfter, NamesIn, FrameIn, Exposed;
    NextLevel(g, c.pc);
    BlockInForce(g, c.pc);
    assert g.w.env.accesses(BlockOf(g, c.pc)) == AccessIn(g, BlockOf(g, c.pc));
  }

  lemma ZoneIs(g: Ground, c: Config, s: State, d: Config)
    requires Stepping(g, c, s, d)
    ensures ZoneOk(ZoneAt(g, c.pc)) && MemAgrees(ZoneAt(g, c.pc), c.st.mem, s.mem)
    ensures StackHeld(ZoneAt(g, c.pc), c.st.stack, s.sp, s.mem) && InRegion(g, c.pc)
    ensures g.w.env.charSigned == g.arch.Riscv?
  {
    hide MemAgrees, FlowStep, StepOk, HeightAt, Linked.AllLinked, Linked.LevelAt, HeldAt;
    NextLevel(g, c.pc);
    Frame.DepthGrows(g.P, BlockOf(g, c.pc));
  }

  lemma StoreHeld(held: iset<int>, m: Mem, a: Word, size: int, v: Word)
    requires (size == 4 || size == 1) && Unheld(held, a, size)
    ensures HeldSame(held, m, Store(m, a, size, v).value)
  {
    hide Wrap, StoreWord, StoreByte;
    forall b: Word | b in held ensures m[b] == Store(m, a, size, v).value[b] { StoreChanges(m, a, size, v, b); }
  }

  /** A push writes below everything held. */
  lemma PushUnheld(held: iset<int>, sp: Word, m: Mem, v: Word, top: int)
    requires sp >= 16 && sp <= top && forall a :: a in held ==> top <= a
    ensures HeldSame(held, m, StoreWord(m, Wrap(sp - 16), v))
  {
    hide StoreWord;
    forall b: Word | b in held ensures m[b] == StoreWord(m, Wrap(sp - 16), v)[b] {
      StoreWordFrame(m, Wrap(sp - 16), v, b);
    }
  }

  lemma SizesOf(m: Mem, n: Mem, a: Word, size: int, v: Word)
    ensures Store(m, a, size, v).Some? <==> size == 4 || size == 1
    ensures Store(n, a, size, v).Some? <==> size == 4 || size == 1
  {
  }

  lemma StackMatches(g: Ground, c: Config, s: State, d: Config) returns (t: State)
    requires Stepping(g, c, s, d) && (g.P.il[c.pc].op.Push? || g.P.il[c.pc].op.Pop?)
    ensures Step(g.P, g.L, g.arch.Riscv?, s) == Some(t) && Matches(g, d, t) && BaseKept(g, c, s, d, t)
  {
    hide MemAgrees, HeldAt, Clear, Binary, LoadWord, StoreWord, Wrap, ZoneAt, HeightAt, ArmSim.ArmAgrees,
      Linked.AllLinked;
    var z, ins := ZoneAt(g, c.pc), g.P.il[c.pc];
    ZoneIs(g, c, s, d);
    if ins.op.Push? {
      var sp := Wrap(s.sp - 16);
      assert z.lo <= s.sp - 16 by { ZoneLo(g, c.pc); }
      SmallWrap(s.sp - 16);
      BelowTop(g, c, s, d);
      PushUnheld(g.held, s.sp, s.mem, s.regs[ins.param], g.fp);
      PushHeld(z, c.st.stack, s.sp, c.st.mem, s.mem, s.regs[ins.param]);
      t := s.(pc := d.pc, sp := sp, mem := StoreWord(s.mem, sp, s.regs[ins.param]));
    } else {
      assert s.sp + 16 < 0x1_0000_0000 by { BelowTop(g, c, s, d); }
      SmallWrap(s.sp + 16);
      PopHeld(z, c.st.stack, s.sp, s.mem);
      t := s.(pc := d.pc, sp := Wrap(s.sp + 16), regs := d.st.regs);
    }
    OnwardMatches(g, c, s, d, t);
  }

  lemma ZoneLo(g: Ground, pc: int)
    ensures ZoneAt(g, pc).lo == g.lo
  {
  }

  /** The zone ends at or below the frame pointer. */
  lemma BelowTop(g: Ground, c: Config, s: State, d: Config)
    requires Stepping(g, c, s, d)
    ensures ZoneAt(g, c.pc).hi <= g.fp && s.sp + 16 * |c.st.stack| <= g.fp
  {
    hide MemAgrees, FlowStep, StepOk, HeightAt, Linked.AllLinked, Linked.LevelAt, HeldAt;
    NextLevel(g, c.pc);
    Frame.DepthGrows(g.P, BlockOf(g, c.pc));
  }

  lemma ValueMatches(g: Ground, c: Config, s: State, d: Config) returns (t: State)
    requires Stepping(g, c, s, d)
    requires var op := g.P.il[c.pc].op;
             !op.Label? && !op.Jump? && !op.Jz? && !op.Jnz? && !op.Return? && !op.BlockStart? && !op.BlockEnd?
             && !op.Push? && !op.Pop? && !op.ReadAddr? && !op.WriteAddr?
    ensures Step(g.P, g.L, g.arch.Riscv?, s) == Some(t) && Matches(g, d, t) && BaseKept(g, c, s, d, t)
  {
    hide MemAgrees, StackHeld, Binary, Resolve, AddressOf, Wrap, ZoneAt, HeightAt, ArmSim.ArmAgrees, Linked.AllLinked,
      NameIn, BlockAfter;
    ZoneIs(g, c, s, d);
    t := s.(pc := d.pc, regs := d.st.regs);
    var ins := g.P.il[c.pc];
    if ins.op.GetVarAddr? {
      BlockInForce(g, c.pc);
      NameResolved(g.P, g.L, g.fp, BlockOf(g, c.pc), ins.name);
    }
    OnwardMatches(g, c, s, d, t);
  }

  /** Names are looked up in the block in force. */
  lemma BlockInForce(g: Ground, pc: int)
    requires Grounded(g) && g.w.lo <= pc < g.w.hi
    ensures BlockAt(g.P, pc) == Some(BlockOf(g, pc)) && EnvAt(g.w, pc) == Inside(g.w.env, BlockOf(g, pc))
    ensures EnvAt(g.w, pc).addr == NamesIn(g.P, g.L, g.fp, BlockOf(g, pc))
  {
    hide NamesIn, Linked.AllLinked, Frame.Sized, FrameIn;
    assert LevelOk(g, pc);
  }

  /** Entering a block: its locals come into view as the bytes that are there. */
  lemma StartMatches(g: Ground, c: Config, s: State, d: Config) returns (t: State)
    requires Stepping(g, c, s, d) && g.P.il[c.pc].op.BlockStart?
    ensures Step(g.P, g.L, g.arch.Riscv?, s) == Some(t) && Matches(g, d, t) && BaseKept(g, c, s, d, t)
  {
    hide MemAgrees, Binary, Resolve, HeightAt, ArmSim.ArmAgrees, Linked.AllLinked, Linked.LevelAt, Frame.Sized,
      Frame.Depth, Exposed, HeldAt, BlockAfter, BlockOf;
    var id := g.P.il[c.pc].int1;
    NextLevel(g, c.pc);
    StartBlocks(g, c.pc);
    StackPointer.MarkerMove(g.P, id, BlockOf(g, c.pc));
    Reach.SizesFit(g.P);
    assert Reach.SizeFits(g.P.blocks[id].localsSize);
    var sp: int := if HasLocals(g.P, id) then s.sp - g.P.blocks[id].localsSize else s.sp;
    SmallWrap(sp);
    t := s.(pc := d.pc, sp := sp);
    ExposedAgrees(g, c, s, id);
  }

  /** A block's start marker leads from its parent into it. */
  lemma StartBlocks(g: Ground, k: nat)
    requires Grounded(g) && g.w.lo <= k < g.w.hi && g.P.il[k].op.BlockStart?
    ensures var id := g.P.il[k].int1;
            && 1 <= id < |g.P.blocks| && BlockOf(g, k + 1) == id && g.P.blocks[id].parent == Some(BlockOf(g, k))
  {
    hide Linked.LevelAt, Frame.Sized, Surrounds, Linked.Encloses;
    NextLevel(g, k);
    Linked.LevelNext(Links(g), k);
    assert LevelOk(g, k) && LevelOk(g, k + 1);
  }

  /** A block's end marker leads from it into its parent. */
  lemma EndBlocks(g: Ground, k: nat)
    requires Grounded(g) && g.w.lo <= k < g.w.hi && g.P.il[k].op.BlockEnd?
    ensures var id := g.P.il[k].int1;
            && 1 <= id < |g.P.blocks| && BlockOf(g, k) == id && g.P.blocks[id].parent == Some(BlockOf(g, k + 1))
  {
    hide Linked.LevelAt, Frame.Sized, Surrounds, Linked.Encloses;
    NextLevel(g, k);
    Linked.LevelNext(Links(g), k);
    assert LevelOk(g, k) && LevelOk(g, k + 1);
  }

  lemma ExposedAgrees(g: Ground, c: Config, s: State, id: nat)
    requires Grounded(g) && Matches(g, c, s) && g.w.lo <= c.pc < g.w.hi && StaleIs(g, c, s)
    requires g.P.il[c.pc].op.BlockStart? && g.P.il[c.pc].int1 == id
    ensures MemAgrees(ZoneAt(g, c.pc + 1), Exposed(g.w.env, id, c.st.entered, c.st.mem), s.mem)
  {
    hide Linked.AllLinked, Linked.LevelAt, Frame.Sized, HeightAt, BlockOf, HeldAt;
    StartBlocks(g, c.pc);
    StackPointer.MarkerMove(g.P, id, BlockOf(g, c.pc));
    StackPointer.OutsideIs(g.P, id, BlockOf(g, c.pc));
    var m := Exposed(g.w.env, id, c.st.entered, c.st.mem);
    forall a: Word | !InZone(ZoneAt(g, c.pc + 1), a) ensures m[a] == s.mem[a] {
      assert m[a] == ByteExposed(g.w.env, id, c.st.entered, c.st.mem, a);
    }
  }

  lemma EndMatches(g: Ground, c: Config, s: State, d: Config) returns (t: State)
    requires Stepping(g, c, s, d) && g.P.il[c.pc].op.BlockEnd?
    ensures Step(g.P, g.L, g.arch.Riscv?, s) == Some(t) && Matches(g, d, t) && BaseKept(g, c, s, d, t)
  {
    hide MemAgrees, Binary, Resolve, HeightAt, ArmSim.ArmAgrees, Linked.AllLinked, Linked.LevelAt, Frame.Sized,
      Frame.Depth, HeldAt, BlockAfter, BlockOf;
    var id := g.P.il[c.pc].int1;
    NextLevel(g, c.pc);
    EndBlocks(g, c.pc);
    StackPointer.MarkerMove(g.P, id, BlockOf(g, c.pc + 1));
    BelowTop(g, c, s, d);
    Frame.DepthGrows(g.P, BlockOf(g, c.pc + 1));
    Reach.SizesFit(g.P);
    assert Reach.SizeFits(g.P.blocks[id].localsSize);
    var sp: int := if HasLocals(g.P, id) then s.sp + g.P.blocks[id].localsSize else s.sp;
    SmallWrap(sp);
    t := s.(pc := d.pc, sp := sp);
    ZoneGrows(ZoneAt(g, c.pc), ZoneAt(g, d.pc), d.st.mem, t.mem);
  }

  /** Where a jump inside the piece leads, the height is the same and the block the same or one around it; a jump out of
      it leaves for the piece's own block. */
  lemma JumpLevel(g: Ground, k: nat, j: int)
    requires Grounded(g) && g.w.lo <= k < g.w.hi
    requires var op := g.P.il[k].op; (op.Jump? || op.Jz? || op.Jnz?) && j == g.P.il[k].int1
    ensures 0 <= j < |g.P.il|
    ensures DepthAt(g, j) <= DepthAt(g, k)
    ensures InRegion(g, j) ==> HeightAt(g, j) == HeightAt(g, k)
  {
    hide Linked.LevelAt, Frame.Sized, Surrounds, Frame.Depth;
    NextLevel(g, k);
    assert LevelOk(g, k);
    if InRegion(g, j) { assert LevelOk(g, j); }
    StackPointer.EnclosingDepth(g.P, BlockOf(g, j), BlockOf(g, k));
  }

  /** Control that goes elsewhere with nothing else changed. */
  lemma ElsewhereMatches(g: Ground, c: Config, s: State, d: Config, t: State)
    requires Grounded(g) && Matches(g, c, s) && d.st == c.st && t == s.(pc := d.pc)
    requires DepthAt(g, d.pc) <= DepthAt(g, c.pc)
    requires InRegion(g, d.pc) ==> InRegion(g, c.pc) && HeightAt(g, d.pc) == HeightAt(g, c.pc)
    ensures Matches(g, d, t)
  {
    hide Grounded, DepthAt, HeightAt, HeldAt;
    ZoneGrows(ZoneAt(g, c.pc), ZoneAt(g, d.pc), c.st.mem, s.mem);
  }

  lemma ReturnLevel(g: Ground, k: nat, name: string)
    requires Grounded(g) && g.w.lo <= k < g.w.hi && name in g.w.exits
    ensures ExitIs(g, name) && DepthAt(g, g.w.exits[name]) <= DepthAt(g, k)
  {
    hide Linked.LevelAt, Frame.Sized, Surrounds, Frame.Depth;
    NextLevel(g, k);
    assert LevelOk(g, k);
    StackPointer.EnclosingDepth(g.P, g.w.block, BlockOf(g, k));
  }

  lemma ControlStep(g: Ground, c: Config, s: State, d: Config)
    requires FlowStep(g.w, c) == Some(d) && g.w.code == g.P.il && s.pc == c.pc && s.regs == c.st.regs
    requires 0 <= c.pc < |g.P.il|
    requires var ins := g.P.il[c.pc];
             && (ins.op.Label? || ins.op.Jump? || ins.op.Jz? || ins.op.Jnz? || ins.op.Return?)
             && (ins.op.Jump? || ins.op.Jz? || ins.op.Jnz? ==> 0 <= ins.int1 < |g.P.il|)
             && (ins.op.Return? ==> ins.name in g.w.exits && ExitIs(g, ins.name))
    ensures Step(g.P, g.L, g.arch.Riscv?, s) == Some(s.(pc := d.pc)) && d.st == c.st
  {
    hide FindFunction, BlockOf, BlockAfter;
  }

  lemma ControlMatches(g: Ground, c: Config, s: State, d: Config) returns (t: State)
    requires Stepping(g, c, s, d)
    requires var op := g.P.il[c.pc].op; op.Label? || op.Jump? || op.Jz? || op.Jnz? || op.Return?
    ensures Step(g.P, g.L, g.arch.Riscv?, s) == Some(t) && Matches(g, d, t) && BaseKept(g, c, s, d, t)
  {
    hide MemAgrees, StackHeld, Binary, Resolve, HeightAt, ArmSim.ArmAgrees, Linked.AllLinked, Linked.LevelAt,
      Frame.Sized, Frame.Depth, HeldAt, BlockAfter, BlockOf, ZoneAt, DepthAt, Surrounds, Step;
    var ins := g.P.il[c.pc];
    t := s.(pc := d.pc);
    ZoneIs(g, c, s, d);
    if ins.op.Jump? || ins.op.Jz? || ins.op.Jnz? { JumpLevel(g, c.pc, ins.int1); }
    if ins.op.Return? { ReturnLevel(g, c.pc, ins.name); }
    ControlStep(g, c, s, d);
    if ins.op.Label? || ((ins.op.Jz? || ins.op.Jnz?) && d.pc == c.pc + 1) {
      OnwardMatches(g, c, s, d, t);
    } else {
      ElsewhereMatches(g, c, s, d, t);
    }
  }

  /** A step of the abstract machine is a step of the IL machine. */
  lemma StepMatches(g: Ground, c: Config, s: State, d: Config) returns (t: State)
    requires Grounded(g) && Matches(g, c, s) && StepOk(g, c, s) && FlowStep(g.w, c) == Some(d)
    requires 0 <= c.pc < |g.P.il| ==> !IsCall(g.P.il[c.pc])
    ensures MachineStep(g.arch, g.P, g.L, s) == Some(t) && Matches(g, d, t) && BaseKept(g, c, s, d, t)
  {
    hide Matches, StepOk, ArmSim.ArmAgrees, Step, ExecInstr;
    assert Stepping(g, c, s, d);
    hide Grounded, FlowStep;
    var ins := g.P.il[c.pc];
    if ins.op.ReadAddr? || ins.op.WriteAddr? {
      t := MemoryMatches(g, c, s, d);
    } else if ins.op.Push? || ins.op.Pop? {
      t := StackMatches(g, c, s, d);
    } else if ins.op.BlockStart? {
      t := StartMatches(g, c, s, d);
    } else if ins.op.BlockEnd? {
      t := EndMatches(g, c, s, d);
    } else if ins.op.Label? || ins.op.Jump? || ins.op.Jz? || ins.op.Jnz? || ins.op.Return? {
      t := ControlMatches(g, c, s, d);
    } else {
      t := ValueMatches(g, c, s, d);
    }
    assert g.arch.Arm? ==> ArmSim.ArmAgrees(g.P, s) by { Agreed(g, c, s, d); }
  }

  // ----- calls -----

  /** A callee's run: at its entry point, behind it, and at its exit point `n` steps later. */
  datatype Callee = Callee(entry: State, body: State, exit: State, n: nat)

  /** The machine's side of an activation. */
  datatype Host = Host(arch: Backend.Arch, P: Program, L: Layout, held: iset<int>)

  function HostOf(g: Ground): Host {
    Host(g.arch, g.P, g.L, g.held)
  }

  /** The end of the frame of the block in force. */
  function FrameEnd(P: Program, s: State): int {
    if 0 <= s.pc <= |P.il| && BlockAt(P, s.pc).Some? then s.fp - Frame.Depth(P.blocks, P.funcs, BlockAt(P, s.pc).value)
    else s.fp
  }

  ghost predicate AtOp(P: Program, pc: int, op: Op) {
    0 <= pc < |P.il| && P.il[pc].op == op
  }

  /** In an activation or in one it has called, and not at its exit point. */
  ghost predicate Within(P: Program, fp: Word, u: State) {
    u.fp <= fp && !(u.fp == fp && AtOp(P, u.pc, ExitPoint))
  }

  ghost function InFrame(P: Program, fp: Word): State -> bool {
    u => Within(P, fp, u)
  }

  /** The bytes a callee must leave alone: what is held for others, and the values its caller has pushed. */
  predicate Reserved(a: Host, s: State, x: int) {
    x in a.held || s.sp <= x < FrameEnd(a.P, s)
  }

  /** The callee runs in frames below the caller's to its first exit, and leaves the frame pointer, the two saved words
      and all that is reserved alone. */
  ghost predicate Keeps(a: Host, s: State, k: Callee) {
    var step := MachineStepper(a.arch, a.P, a.L);
    && MachineStep(a.arch, a.P, a.L, s) == Some(k.entry) && AtOp(a.P, k.entry.pc, EntryPoint)
    && MachineStep(a.arch, a.P, a.L, k.entry) == Some(k.body) && k.body.fp + 16 == s.sp
    && Run(step, k.body, k.n) == Some(k.exit) && AllGood(step, InFrame(a.P, k.body.fp), k.body, k.n)
    && AtOp(a.P, k.exit.pc, ExitPoint) && k.exit.fp == k.body.fp && |k.exit.regs| == |s.regs|
    && LoadWord(k.exit.mem, Wrap(k.exit.fp + 8)) == LoadWord(k.body.mem, Wrap(k.exit.fp + 8))
    && LoadWord(k.exit.mem, Wrap(k.exit.fp + 12)) == LoadWord(k.body.mem, Wrap(k.exit.fp + 12))
    && forall x: Word :: Reserved(a, s, x) ==> k.exit.mem[x] == s.mem[x]
  }

  ghost predicate Called(a: Host, s: State) {
    exists k :: Keeps(a, s, k)
  }

  ghost function TheCallee(a: Host, s: State): (k: Callee)
    requires Called(a, s)
    ensures Keeps(a, s, k)
  {
    var k :| Keeps(a, s, k);
    k
  }

  /** There is only one. */
  lemma CalleeUnique(a: Host, s: State, j: Callee, k: Callee)
    requires Keeps(a, s, j) && Keeps(a, s, k)
    ensures j == k
  {
    hide MachineStep, LoadWord, FrameEnd, Reserved;
    if j.n < k.n {
      ExitFirst(a, s, j, k);
    } else if k.n < j.n {
      ExitFirst(a, s, k, j);
    }
  }

  lemma ExitFirst(a: Host, s: State, j: Callee, k: Callee)
    requires Keeps(a, s, j) && Keeps(a, s, k)
    ensures j.n >= k.n
  {
    hide MachineStep, LoadWord, FrameEnd, Reserved;
    if j.n < k.n {
      GoodAt(MachineStepper(a.arch, a.P, a.L), InFrame(a.P, k.body.fp), k.body, k.n, j.n, j.exit);
      assert false;
    }
  }

  /** The callee ends with the result and memory the surroundings promise of the call. */
  ghost predicate Gives(g: Ground, s: State, d: Config, k: Callee) {
    && 0 <= s.pc < |g.P.il| && 0 <= g.P.il[s.pc].param < |d.st.regs| && |k.exit.regs| > 0
    && d.st.regs[g.P.il[s.pc].param] == k.exit.regs[0]
    && MemAgrees(ZoneAt(g, s.pc), d.st.mem, k.exit.mem)
  }

  /** One step on in the activation: a whole call is one step. */
  ghost function Next(a: Host, s: State): Option<State> {
    if 0 <= s.pc < |a.P.il| && IsCall(a.P.il[s.pc]) then
      if Called(a, s) then MachineStep(a.arch, a.P, a.L, TheCallee(a, s).exit) else None
    else MachineStep(a.arch, a.P, a.L, s)
  }

  ghost function NextStepper(a: Host): State -> Option<State> {
    s => Next(a, s)
  }

  /** The callee leaves in the registers what the surroundings say of this call. */
  ghost predicate Clobbers(clobber: (nat, nat) -> Word, n: nat, k: Callee) {
    forall r: nat :: r < |k.exit.regs| ==> clobber(n, r) == k.exit.regs[r]
  }

  ghost predicate CallOk(g: Ground, c: Config, s: State, d: Config) {
    0 <= c.pc < |g.P.il| && IsCall(g.P.il[c.pc]) ==>
      Called(HostOf(g), s) && Gives(g, s, d, TheCallee(HostOf(g), s))
  }

  /** A call by name or through a pointer, up to the instruction behind it. */
  lemma CallMatches(g: Ground, c: Config, s: State, d: Config) returns (t: State)
    requires Grounded(g) && Placement.GoodLayout(g.arch, g.P, g.L) && Matches(g, c, s) && CallOk(g, c, s, d)
    requires 0 <= c.pc < |g.P.il| && IsCall(g.P.il[c.pc]) && FlowStep(g.w, c) == Some(d)
    requires Clobbers(g.w.env.clobber, c.st.calls, TheCallee(HostOf(g), s))
    ensures Next(HostOf(g), s) == Some(t) && Via(MachineStepper(g.arch, g.P, g.L), InFrame(g.P, g.fp), s, t)
    ensures Matches(g, d, t) && BaseKept(g, c, s, d, t)
  {
    hide MemAgrees, StackHeld, LoadWord, StoreWord, Placement.GoodLayout, Step, FlowStep, Linked.AllLinked,
      Linked.LevelAt, ZoneAt, HeightAt, FrameEnd, ArmSim.ArmAgrees, Frame.Sized, Surrounds, AllGood, InFrame, Via;
    var k := TheCallee(HostOf(g), s);
    ParamsOk(g.P);
    CallKeepsStack(g.w, c, d);
    Calls.CallReturns(g.arch, g.P, g.L, g.arch.Riscv?, s, k.entry, k.body, k.exit);
    t := Step(g.P, g.L, g.arch.Riscv?, k.exit).value;
    ExitAgrees(g.P, k.exit);
    CallRegs(g, c, d, k.exit.regs);
    NextLevel(g, c.pc);
    CallZone(g, c, s);
    CalleeReached(HostOf(g), g.fp, s, k, t);
    HeldAbove(ZoneAt(g, c.pc), c.st.stack, s.sp, s.mem, t.mem);
  }

  lemma ParamsOk(P: Program)
    requires Frame.Sized(P) && P.blocks[0].localsSize == 0
    ensures forall f :: 0 <= f < |P.funcs| ==> Calls.OffsetsOk(P.funcs[f].params)
  {
    hide Frame.Sized;
    Reach.SizesFit(P);
  }

  /** An exit point asks nothing of the processor. */
  lemma ExitAgrees(P: Program, s: State)
    requires AtOp(P, s.pc, ExitPoint)
    ensures ArmSim.ArmAgrees(P, s)
  {
  }

  lemma CalleeReached(a: Host, fp: Word, s: State, k: Callee, t: State)
    requires Keeps(a, s, k) && MachineStep(a.arch, a.P, a.L, k.exit) == Some(t)
    requires s.fp == fp && s.sp <= fp && 0 <= s.pc < |a.P.il| && IsCall(a.P.il[s.pc])
    ensures Via(MachineStepper(a.arch, a.P, a.L), InFrame(a.P, fp), s, t)
  {
    hide MachineStep, LoadWord, FrameEnd, Reserved, AllGood, Run;
    var step, good := MachineStepper(a.arch, a.P, a.L), InFrame(a.P, fp);
    CallKeepsFp(a, s, k.entry);
    ViaStep(step, good, s, k.entry);
    ViaStep(step, good, k.entry, k.body);
    ViaStep(step, good, k.exit, t);
    GoodWeakens(step, good, InFrame(a.P, k.body.fp), k.body, k.n);
    assert Via(step, good, k.body, k.exit);
    ViaThen(step, good, s, k.entry, k.body);
    ViaThen(step, good, s, k.body, k.exit);
    ViaThen(step, good, s, k.exit, t);
  }

  lemma CallKeepsFp(a: Host, s: State, t: State)
    requires MachineStep(a.arch, a.P, a.L, s) == Some(t) && 0 <= s.pc < |a.P.il| && IsCall(a.P.il[s.pc])
    ensures t.fp == s.fp && t.sp == s.sp && t.mem == s.mem && t.regs == s.regs
  {
    hide ArmSim.ArmAgrees, FindFunction;
    Calls.CallLeavesRa(a.P, a.L, a.arch.Riscv?, s, t);
  }

  /** Registers behind a call, all of them. */
  lemma CallRegs(g: Ground, c: Config, d: Config, regs: seq<Word>)
    requires FlowStep(g.w, c) == Some(d) && g.w.code == g.P.il && 0 <= c.pc < |g.P.il| && IsCall(g.P.il[c.pc])
    requires |regs| == |c.st.regs| > 0 && forall r: nat :: r < |regs| ==> g.w.env.clobber(c.st.calls, r) == regs[r]
    requires 0 <= g.P.il[c.pc].param < |d.st.regs| && d.st.regs[g.P.il[c.pc].param] == regs[0]
    ensures d.st.regs == regs[g.P.il[c.pc].param := regs[0]]
  {
    hide BlockAfter, Exposed;
    var p := g.P.il[c.pc].param;
    forall r: nat | r < |regs| && r != p ensures d.st.regs[r] == regs[r] {}
  }

  lemma CallKeepsStack(w: World, c: Config, d: Config)
    requires FlowStep(w, c) == Some(d) && 0 <= c.pc < |w.code| && IsCall(w.code[c.pc])
    ensures d.pc == c.pc + 1 && d.st.stack == c.st.stack && w.lo <= c.pc < w.hi && d.st.entered == c.st.entered
    ensures |d.st.regs| == |c.st.regs| && 0 <= w.code[c.pc].param < |c.st.regs|
  {
  }

  /** The zone of the activation is the machine's view of it. */
  lemma CallZone(g: Ground, c: Config, s: State)
    requires Grounded(g) && Matches(g, c, s) && g.w.lo <= c.pc < g.w.hi
    ensures ZoneAt(g, c.pc).hi == FrameEnd(g.P, s) && ZoneOk(ZoneAt(g, c.pc)) && s.sp <= g.fp
  {
    hide MemAgrees, HeldAt, Linked.AllLinked, Surrounds, Frame.Sized, HeightAt;
    NextLevel(g, c.pc);
    BlockInForce(g, c.pc);
    Frame.DepthGrows(g.P, BlockOf(g, c.pc));
  }

  // ----- runs -----

  predicate AtStart(P: Program, s: State) {
    0 <= s.pc < |P.il| && P.il[s.pc].op.BlockStart?
  }

  predicate AtCall(P: Program, s: State) {
    0 <= s.pc < |P.il| && IsCall(P.il[s.pc])
  }

  /** Of the first n steps of the activation, how many enter a block, or make a call. */
  ghost function Count(calls: bool, a: Host, s: State, n: nat): nat
    decreases n
  {
    if n == 0 then 0
    else
      Counted(calls, a, s)
      + match Next(a, s) case None => 0 case Some(t) => Count(calls, a, t, n - 1)
  }

  function Counted(calls: bool, a: Host, s: State): nat {
    if (if calls then AtCall(a.P, s) else AtStart(a.P, s)) then 1 else 0
  }

  /** What a run finds and the surroundings only name: what memory holds where a block is entered, and what a callee
      leaves in the registers.  At the n-th step they are as named. */
  ghost predicate ToldAt(stale: nat -> Mem, clobber: (nat, nat) -> Word, e: nat, k: nat, a: Host, s: State, n: nat) {
    match Run(NextStepper(a), s, n)
    case None => true
    case Some(t) =>
      && (AtStart(a.P, t) ==> stale(e + Count(false, a, s, n)) == t.mem)
      && (AtCall(a.P, t) && Called(a, t) ==> Clobbers(clobber, k + Count(true, a, s, n), TheCallee(a, t)))
  }

  /** They are as named throughout the activation, from state s on, in which e blocks have been entered and k calls
      made. */
  ghost predicate Told(stale: nat -> Mem, clobber: (nat, nat) -> Word, e: nat, k: nat, a: Host, s: State) {
    forall n: nat :: ToldAt(stale, clobber, e, k, a, s, n)
  }

  lemma ToldFirst(stale: nat -> Mem, clobber: (nat, nat) -> Word, e: nat, k: nat, a: Host, s: State)
    requires ToldAt(stale, clobber, e, k, a, s, 0)
    ensures AtStart(a.P, s) ==> stale(e) == s.mem
    ensures AtCall(a.P, s) && Called(a, s) ==> Clobbers(clobber, k, TheCallee(a, s))
  {
    hide AtStart, AtCall, Called, Clobbers;
  }

  lemma CountNext(calls: bool, a: Host, s: State, t: State, n: nat)
    requires Next(a, s) == Some(t)
    ensures Count(calls, a, s, n + 1) == Counted(calls, a, s) + Count(calls, a, t, n)
    ensures Run(NextStepper(a), s, n + 1) == Run(NextStepper(a), t, n)
  {
    hide Next, Counted;
  }

  lemma ToldStep(stale: nat -> Mem, clobber: (nat, nat) -> Word, e: nat, k: nat, a: Host, s: State, t: State, n: nat)
    requires ToldAt(stale, clobber, e, k, a, s, n + 1) && Next(a, s) == Some(t)
    ensures ToldAt(stale, clobber, e + Counted(false, a, s), k + Counted(true, a, s), a, t, n)
  {
    hide Next, AtStart, AtCall, Counted, Count, Run, Called, Clobbers, Keeps;
    CountNext(false, a, s, t, n);
    CountNext(true, a, s, t, n);
  }

  lemma ToldNext(stale: nat -> Mem, clobber: (nat, nat) -> Word, e: nat, k: nat, a: Host, s: State)
    requires Told(stale, clobber, e, k, a, s)
    ensures AtStart(a.P, s) ==> stale(e) == s.mem
    ensures AtCall(a.P, s) && Called(a, s) ==> Clobbers(clobber, k, TheCallee(a, s))
    ensures Next(a, s).Some? ==>
              Told(stale, clobber, e + Counted(false, a, s), k + Counted(true, a, s), a, Next(a, s).value)
  {
    hide Next, AtStart, AtCall, Counted, Called, Clobbers, ToldAt;
    assert ToldAt(stale, clobber, e, k, a, s, 0);
    ToldFirst(stale, clobber, e, k, a, s);
    if Next(a, s).Some? {
      var t, e', k' := Next(a, s).value, e + Counted(false, a, s), k + Counted(true, a, s);
      forall n: nat ensures ToldAt(stale, clobber, e', k', a, t, n) {
        ToldStep(stale, clobber, e, k, a, s, t, n);
      }
    }
  }

  /** Whatever a run finds, some names fit it: none is without. */
  lemma ToldExists(e: nat, k: nat, a: Host, s: State) returns (stale: nat -> Mem, clobber: (nat, nat) -> Word)
    ensures Told(stale, clobber, e, k, a, s)
  {
    hide Next, Count, AtStart, AtCall, TheEvent, Called, Keeps;
    stale := i => TheEvent(false, e, a, s, i).mem;
    clobber := (i, r) => LeftIn(a, TheEvent(true, k, a, s, i), r);
    forall n: nat ensures ToldAt(stale, clobber, e, k, a, s, n) {
      if HappensAt(false, a, s, n) { EventIs(false, e, a, s, n); }
      if HappensAt(true, a, s, n) { EventIs(true, k, a, s, n); }
    }
  }

  /** What a callee called from state t leaves in register r. */
  ghost function LeftIn(a: Host, t: State, r: nat): Word {
    if Called(a, t) && r < |TheCallee(a, t).exit.regs| then TheCallee(a, t).exit.regs[r] else 0
  }

  ghost predicate HappensAt(calls: bool, a: Host, s: State, n: nat) {
    match Run(NextStepper(a), s, n)
    case None => false
    case Some(t) => if calls then AtCall(a.P, t) else AtStart(a.P, t)
  }

  ghost predicate IsEvent(calls: bool, e: nat, a: Host, s: State, i: nat, n: nat) {
    HappensAt(calls, a, s, n) && i == e + Count(calls, a, s, n)
  }

  /** The state in which the i-th entry, or call, is made, if there is one. */
  ghost function TheEvent(calls: bool, e: nat, a: Host, s: State, i: nat): (t: State)
    ensures (exists n: nat :: IsEvent(calls, e, a, s, i, n)) ==>
              exists n: nat :: IsEvent(calls, e, a, s, i, n) && t == Run(NextStepper(a), s, n).value
  {
    if exists n: nat :: IsEvent(calls, e, a, s, i, n) then
      var n: nat :| IsEvent(calls, e, a, s, i, n);
      Run(NextStepper(a), s, n).value
    else s
  }

  lemma EventIs(calls: bool, e: nat, a: Host, s: State, n: nat)
    requires HappensAt(calls, a, s, n)
    ensures TheEvent(calls, e, a, s, e + Count(calls, a, s, n)) == Run(NextStepper(a), s, n).value
  {
    hide Next, Count, AtStart, AtCall, TheEvent;
    var i := e + Count(calls, a, s, n);
    assert IsEvent(calls, e, a, s, i, n);
    var j: nat :| IsEvent(calls, e, a, s, i, j) && TheEvent(calls, e, a, s, i) == Run(NextStepper(a), s, j).value;
    assert IsEvent(calls, e, a, s, i, j);
    OneEvent(calls, a, s, n, j);
  }

  /** Two events of one number are one. */
  lemma {:induction false} OneEvent(calls: bool, a: Host, s: State, n: nat, j: nat)
    requires HappensAt(calls, a, s, n) && HappensAt(calls, a, s, j) && Count(calls, a, s, n) == Count(calls, a, s, j)
    ensures n == j
    decreases n
  {
    hide Next, AtStart, AtCall;
    if n > 0 && j > 0 {
      OneEvent(calls, a, Next(a, s).value, n - 1, j - 1);
    }
  }

  /** What is asked of a run, step by step: callees keep their part.  On ARM, besides, operands are such that it
      computes what the IL means. */
  ghost predicate RunOk(g: Ground, c: Config, s: State, n: nat)
    decreases n
  {
    n == 0 ||
    match FlowStep(g.w, c)
    case None => true
    case Some(d) =>
      && CallOk(g, c, s, d) && (g.arch.Arm? ==> ArmSim.ArmAgrees(g.P, s))
      && match Next(HostOf(g), s) case None => true case Some(t) => RunOk(g, d, t, n - 1)
  }

  /** Enough stack for as many blocks as are entered and as many values as the piece can push. */
  predicate Enough(g: Ground, c: Config, s: State, limit: nat) {
    Base(c, s) >= g.lo + 2032 * (limit - c.st.entered) + 16 * (g.w.hi - g.w.lo)
  }

  lemma EnteredStep(w: World, c: Config, d: Config)
    requires FlowStep(w, c) == Some(d)
    ensures w.lo <= c.pc < w.hi <= |w.code|
    ensures d.st.entered == c.st.entered + if w.code[c.pc].op.BlockStart? then 1 else 0
    ensures w.code[c.pc].op.BlockStart? ==> c.st.stack == []
  {
  }

  lemma {:induction false} EnteredGrows(w: World, c: Config, n: nat, d: Config)
    requires Run(Flow.Stepper(w), c, n) == Some(d)
    ensures c.st.entered <= d.st.entered
    decreases n
  {
    hide FlowStep;
    if n > 0 {
      EnteredStep(w, c, FlowStep(w, c).value);
      EnteredGrows(w, FlowStep(w, c).value, n - 1, d);
    }
  }

  lemma LeftThere(g: Ground, c: Config, s: State, d: Config, limit: nat)
    requires Grounded(g) && Matches(g, c, s) && FlowStep(g.w, c) == Some(d) && Enough(g, c, s, limit)
    requires d.st.entered <= limit
    ensures StackLeft(g, c, s)
  {
    hide FlowStep, MemAgrees, StackHeld, HeightAt, ZoneAt, Linked.AllLinked, Surrounds, Linked.JumpLinked, LevelOk;
    EnteredStep(g.w, c, d);
    NextLevel(g, c.pc);
  }

  lemma EnoughNext(g: Ground, c: Config, s: State, d: Config, t: State, limit: nat)
    requires Enough(g, c, s, limit) && BaseKept(g, c, s, d, t) && FlowStep(g.w, c) == Some(d) && g.w.code == g.P.il
    ensures Enough(g, d, t, limit)
  {
    hide FlowStep;
    EnteredStep(g.w, c, d);
  }

  /** A piece's own instructions are no exit points. */
  lemma NotExit(g: Ground, c: Config, s: State, d: Config)
    requires FlowStep(g.w, c) == Some(d) && g.w.code == g.P.il && s.pc == c.pc && s.fp == g.fp
    ensures InFrame(g.P, g.fp)(s)
  {
    hide Exposed, BlockAfter, Binary;
  }

  /** One step of the abstract machine, in the activation. */
  lemma NextMatches(g: Ground, c: Config, s: State, d: Config, limit: nat) returns (t: State)
    requires Grounded(g) && Placement.GoodLayout(g.arch, g.P, g.L) && Matches(g, c, s) && FlowStep(g.w, c) == Some(d)
    requires CallOk(g, c, s, d) && (g.arch.Arm? ==> ArmSim.ArmAgrees(g.P, s))
    requires Enough(g, c, s, limit) && d.st.entered <= limit
    requires AtStart(g.P, s) ==> g.w.env.stale(c.st.entered) == s.mem
    requires AtCall(g.P, s) && Called(HostOf(g), s) ==> Clobbers(g.w.env.clobber, c.st.calls, TheCallee(HostOf(g), s))
    ensures Next(HostOf(g), s) == Some(t) && Via(MachineStepper(g.arch, g.P, g.L), InFrame(g.P, g.fp), s, t)
    ensures Matches(g, d, t) && Enough(g, d, t, limit) && HeldSame(g.held, s.mem, t.mem)
  {
    hide MachineStep, FlowStep, Placement.GoodLayout, Via, InFrame, Called, Gives, StackLeft, Enough, ArmSim.ArmAgrees,
      ZoneAt, MemAgrees, StackHeld, HeightAt, HeldSame, Linked.AllLinked, Surrounds;
    if 0 <= c.pc < |g.P.il| && IsCall(g.P.il[c.pc]) {
      t := CallMatches(g, c, s, d);
    } else {
      LeftThere(g, c, s, d, limit);
      t := StepMatches(g, c, s, d);
      NotExit(g, c, s, d);
      ViaStep(MachineStepper(g.arch, g.P, g.L), InFrame(g.P, g.fp), s, t);
    }
    EnoughNext(g, c, s, d, t, limit);
  }

  lemma {:induction false} RunMatches(g: Ground, c: Config, s: State, n: nat, d: Config) returns (t: State)
    requires Grounded(g) && Placement.GoodLayout(g.arch, g.P, g.L) && Matches(g, c, s) && RunOk(g, c, s, n)
    requires Run(Flow.Stepper(g.w), c, n) == Some(d) && Enough(g, c, s, d.st.entered)
    requires Told(g.w.env.stale, g.w.env.clobber, c.st.entered, c.st.calls, HostOf(g), s)
    ensures Via(MachineStepper(g.arch, g.P, g.L), InFrame(g.P, g.fp), s, t) && Matches(g, d, t)
    ensures HeldSame(g.held, s.mem, t.mem)
    ensures Run(NextStepper(HostOf(g)), s, n) == Some(t)
    decreases n
  {
    hide Matches, Told, FlowStep, Via, InFrame, Next, Grounded, Placement.GoodLayout, MachineStep, CallOk,
      ArmSim.ArmAgrees, Enough;
    var step, good := MachineStepper(g.arch, g.P, g.L), InFrame(g.P, g.fp);
    if n == 0 {
      t := s;
      ViaSelf(step, good, s);
    } else {
      var c1 := FlowStep(g.w, c).value;
      EnteredGrows(g.w, c1, n - 1, d);
      ToldNext(g.w.env.stale, g.w.env.clobber, c.st.entered, c.st.calls, HostOf(g), s);
      var s1 := NextMatches(g, c, s, c1, d.st.entered);
      SameCounts(g, c, s, c1);
      t := RunMatches(g, c1, s1, n - 1, d);
      ViaThen(step, good, s, s1, t);
    }
  }

  lemma {:induction false} RunOkPrefix(g: Ground, c: Config, s: State, n: nat, k: nat)
    requires RunOk(g, c, s, n) && k <= n
    ensures RunOk(g, c, s, k)
    decreases k
  {
    hide FlowStep, Next, CallOk, ArmSim.ArmAgrees;
    if k > 0 && FlowStep(g.w, c).Some? && Next(HostOf(g), s).Some? {
      RunOkPrefix(g, FlowStep(g.w, c).value, Next(HostOf(g), s).value, n - 1, k - 1);
    }
  }

  lemma {:induction false} RunPrefix(w: World, c: Config, n: nat, k: nat, d: Config) returns (e: Config)
    requires Run(Flow.Stepper(w), c, n) == Some(d) && k <= n
    ensures Run(Flow.Stepper(w), c, k) == Some(e) && Run(Flow.Stepper(w), e, n - k) == Some(d)
    decreases k
  {
    hide FlowStep;
    e := c;
    if k > 0 { e := RunPrefix(w, FlowStep(w, c).value, n - 1, k - 1, d); }
  }

  /** In every state of such a run, calls and all, the stack pointer is at or below the end of the frame of the block in
      force, and below that by the values pushed. */
  lemma StatesSafeInRun(g: Ground, c: Config, s: State, n: nat, d: Config, k: nat) returns (t: State)
    requires Grounded(g) && Placement.GoodLayout(g.arch, g.P, g.L) && Matches(g, c, s) && RunOk(g, c, s, n)
    requires Run(Flow.Stepper(g.w), c, n) == Some(d) && Enough(g, c, s, d.st.entered) && k <= n
    requires Told(g.w.env.stale, g.w.env.clobber, c.st.entered, c.st.calls, HostOf(g), s)
    ensures Run(NextStepper(HostOf(g)), s, k) == Some(t) && t.fp == g.fp
    ensures t.sp <= g.fp - DepthAt(g, t.pc)
    ensures InRegion(g, t.pc) ==> t.sp + 16 * HeightAt(g, t.pc) <= g.fp - DepthAt(g, t.pc)
  {
    hide Grounded, Placement.GoodLayout, RunOk, FlowStep, Told, Next, Via, InFrame, HeldSame, MemAgrees, HeldAt,
      DepthAt, HeightAt;
    var e := RunPrefix(g.w, c, n, k, d);
    EnteredGrows(g.w, e, n - k, d);
    RunOkPrefix(g, c, s, n, k);
    t := RunMatches(g, c, s, k, e);
  }

  /** Both machines enter blocks and make calls together. */
  lemma SameCounts(g: Ground, c: Config, s: State, d: Config)
    requires Grounded(g) && Matches(g, c, s) && FlowStep(g.w, c) == Some(d)
    ensures d.st.entered == c.st.entered + Counted(false, HostOf(g), s)
    ensures d.st.calls == c.st.calls + Counted(true, HostOf(g), s)
  {
    hide MemAgrees, StackHeld, HeightAt, ZoneAt, Linked.AllLinked, Surrounds, Exposed, BlockAfter;
    EnteredStep(g.w, c, d);
  }

  // ----- statements -----

  /** A statement's code in a sized program, entered in block `w.block` at push height h. */
  ghost predicate StatementAt(g: Ground, x: Ast.Stmt, base: nat, brk: nat) {
    && g.w.code == g.P.il && g.w.blocks == g.P.blocks && Frame.Sized(g.P) && g.P.blocks[0].localsSize == 0
    && 16 <= g.lo && (forall a :: a in g.held ==> g.fp <= a)
    && 1 <= g.w.block < |g.P.blocks| && g.w.lo == base && g.w.hi == base + |CStmt(x, base, brk)|
    && Linked.Located(Links(g), x, base, g.out, brk, g.w.block, g.h) && (g.out.Some? ==> OutsideRegion(g, brk))
    && Surrounds(g) && forall name :: name in g.w.exits ==> ExitIs(g, name)
  }

  /** Every instruction pushes one value at most. */
  lemma {:induction false} HeightGrows(c: Linked.Linkage, lo: nat, k: nat)
    requires lo <= k <= |c.code|
    ensures Linked.LevelAt(c, k).height <= Linked.LevelAt(c, lo).height + (k - lo)
    decreases k
  {
    hide Linked.LevelAt;
    if lo < k {
      HeightGrows(c, lo, k - 1);
      Linked.LevelNext(c, k - 1);
    }
  }

  lemma StatementGround(g: Ground, x: Ast.Stmt, base: nat, brk: nat)
    requires StatementAt(g, x, base, brk)
    ensures Grounded(g) && Scoped(g.w, x, base, brk)
  {
    hide Surrounds, Frame.Sized, CStmt, Linked.LevelAt, Linked.Scopes, Linked.JumpLinked, Scoped, Linked.Nested;
    var c, end, b := Links(g), base + |CStmt(x, base, brk)|, g.w.block;
    var scopes := Linked.Scopes(x, base, brk, b);
    Linked.StmtLinked(c, x, base, g.out, brk, b, g.h);
    StackPointer.ScopesUnder(x, base, brk, b, g.P.blocks);
    forall k | g.w.lo <= k <= g.w.hi ensures LevelOk(g, k) {
      HeightGrows(c, base, k);
      if k < end { assert Linked.InScope(c, base + (k - base), scopes[k - base]); }
    }
    assert ScopedCode.Links(g.w) == c;
    ScopedCode.StmtScoped(g.w, x, base, g.out, brk, g.h);
  }

  /** The end-to-end theorem on IL: a statement, with whatever blocks and calls, started in a state that stands for (st,
      its surroundings), ends in a state that stands for the statement's outcome: its memory, its returned value, its
      place to go on.  The bytes of locals that come into view are those that are there.  The run takes n steps of the
      activation. */
  lemma StatementRuns(g: Ground, x: Ast.Stmt, base: nat, brk: nat, st: St, fuel: nat, o: Outcome, s: State)
    returns (n: nat, c: Config, t: State)
    requires StatementAt(g, x, base, brk) && Placement.GoodLayout(g.arch, g.P, g.L)
    requires Ready(g.w, base, CStmt(x, base, brk), st) && WellFormed(x, g.w.exits)
    requires EvalStmt(g.w.env, x, st.mem, st.entered, fuel) == Some(o)
    requires Matches(g, Config(base, st), s) && Told(g.w.env.stale, g.w.env.clobber, st.entered, st.calls, HostOf(g), s)
    requires Enough(g, Config(base, st), s, o.entered)
    ensures Lands(g.w, o, st, base + |CStmt(x, base, brk)|, brk, c)
    ensures Run(Flow.Stepper(g.w), Config(base, st), n) == Some(c)
    ensures RunOk(g, Config(base, st), s, n) ==>
              Via(MachineStepper(g.arch, g.P, g.L), InFrame(g.P, g.fp), s, t) && Matches(g, c, t)
                && HeldSame(g.held, s.mem, t.mem)
  {
    hide Matches, Placement.GoodLayout, RunOk, Flow.Ready, EvalStmt, CStmt, WellFormed, StatementAt, Grounded, Scoped,
      Told, Enough, FlowStep;
    StatementGround(g, x, base, brk);
    t := s;
    c := StmtGoes(g.w, x, base, brk, st, fuel, o);
    n :| Run(Flow.Stepper(g.w), Config(base, st), n) == Some(c);
    if RunOk(g, Config(base, st), s, n) {
      assert c.st.entered == o.entered;
      t := RunMatches(g, Config(base, st), s, n, c);
    }
  }
}
