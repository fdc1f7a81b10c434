/** One program on two processors. */
module BothBackends {
  import opened Words
  import opened Runs
  import opened Il
  import opened IlMachine
  import opened CodeMemory
  import Placement
  import Backend
  import Frame
  import Scoping
  import RiscvIsa
  import RiscvSim
  import ArmIsa
  import ArmSim

  /** Reading a byte with its top bit set is all that the two processors do differently with memory. */
  ghost predicate SevenBit(ins: Instr, s: State) {
    ins.op.ReadAddr? && ins.int2 == 1 && 0 <= ins.int1 < |s.regs| ==> s.mem[s.regs[ins.int1]] < 0x80
  }

  /** Operations whose effect depends neither on where code and data lie nor on the signedness of char. */
  ghost predicate Portable(P: Program, s: State)
    requires 0 <= s.pc < |P.il|
  {
    var ins := P.il[s.pc];
    && (IsBinary(ins.op) || ins.op.Not? || ins.op.Negate? || ins.op.LoadNumericConstant? || ins.op.Push? || ins.op.Pop?
        || ins.op.Label? || ins.op.Jump? || ins.op.Jz? || ins.op.Jnz? || ins.op.BlockStart? || ins.op.BlockEnd?
        || ins.op.Return? || ins.op.ReadAddr? || ins.op.WriteAddr?
        || (ins.op.GetVarAddr? && Resolve(P, BlockAt(P, s.pc), ins.name).Local?))
    && SevenBit(ins, s)
  }

  /** Steps by such operations on operands the two processors treat alike. */
  ghost function PortableStepper(P: Program, L: Layout): State -> Option<State> {
    (s: State) =>
      if 0 <= s.pc < |P.il| && Portable(P, s) && ArmSim.ArmAgrees(P, s) then Step(P, L, true, s) else None
  }

  lemma PortableSame(P: Program, L: Layout, M: Layout, s: State)
    requires 0 <= s.pc < |P.il| && Portable(P, s)
    ensures Step(P, L, true, s) == Step(P, M, false, s)
  {
    hide LoadWord, StoreWord, LoadByte, StoreByte, Wrap, Binary, Resolve, BlockAt, FindFunction;
    var ins := P.il[s.pc];
    if ins.op.ReadAddr? && 0 <= ins.int1 < |s.regs| { LoadByteSame(s.mem, s.regs[ins.int1]); }
  }

  /** On a read that can be done the condition is exact. */
  lemma ReadSameIff(P: Program, L: Layout, M: Layout, s: State)
    requires 0 <= s.pc < |P.il| && P.il[s.pc].op.ReadAddr? && Step(P, L, true, s).Some?
    ensures Step(P, L, true, s) == Step(P, M, false, s) <==> SevenBit(P.il[s.pc], s)
  {
    hide LoadWord, LoadByte, Wrap;
    var ins := P.il[s.pc];
    LoadByteSame(s.mem, s.regs[ins.int1]);
    if !SevenBit(ins, s) {
      assert Step(P, L, true, s).value.regs[ins.param] != Step(P, M, false, s).value.regs[ins.param];
    }
  }

  lemma {:induction false} PortableRuns(P: Program, L: Layout, M: Layout, s: State, n: nat, t: State)
    requires Run(PortableStepper(P, L), s, n) == Some(t)
    ensures Run(IlMachine.Stepper(P, L, true), s, n) == Some(t) && Run(ArmSim.AgreedStepper(P, M), s, n) == Some(t)
    decreases n
  {
    hide Step, ArmSim.ArmAgrees;
    if n > 0 {
      PortableSame(P, L, M, s);
      PortableRuns(P, L, M, Step(P, L, true, s).value, n - 1, t);
    }
  }

  /** Register k of the IL is x(10+k) on the one and r(k) on the other. */
  ghost predicate SameRegisters(t: State, x: RiscvIsa.Machine, y: ArmIsa.Machine) {
    |t.regs| <= 11 && |x.x| == 32 && |y.r| == 15 && forall k :: 0 <= k < |t.regs| ==> x.x[10 + k] == t.regs[k] == y.r[k]
  }

  /** On every such run the RISC-V code and the ARM code end with the same values in the IL's registers and the same
      memory and stack pointer. */
  lemma BothAgree(P: Program, L: Layout, rv: Code, M: Layout, arm: Code, s: State, x: RiscvIsa.Machine,
                  y: ArmIsa.Machine, n: nat, t: State)
    returns (x': RiscvIsa.Machine, y': ArmIsa.Machine)
    requires Placement.Placed(Backend.Riscv, P, L, rv) && Placement.Placed(Backend.Arm, P, M, arm) && ArmSim.Sized(P)
    requires RiscvSim.Related(L, s, x) && ArmSim.Related(M, s, y)
    requires Run(PortableStepper(P, L), s, n) == Some(t)
    ensures Reaches(RiscvIsa.Stepper(rv), x, x') && Reaches(ArmIsa.Stepper(arm), y, y')
    ensures SameRegisters(t, x', y') && x'.mem == y'.mem == t.mem && x'.x[2] == y'.r[13] == t.sp
  {
    hide Placement.Placed, ArmSim.Sized, Reaches;
    PortableRuns(P, L, M, s, n, t);
    x' := RiscvSim.RunSimulated(P, L, rv, s, x, n, t);
    y' := ArmSim.RunSimulated(P, M, arm, s, y, n, t);
  }

  // ----- what sizing leaves fits the ARM backend -----

  /** With at most 2^17 blocks, two markers for each of which fill the IL buffer, and data below 2^28 every frame and
      offset is one the ARM backend can address. */
  lemma SizedForArm(P: Program)
    requires Frame.Sized(P) && |P.blocks| <= 0x2_0000
    requires P.blocks[0].localsSize == 0 && ArmSim.SizedVars(P.blocks[0].locals)
    ensures ArmSim.Sized(P)
  {
    hide Frame.PlaceVars, Frame.TotalSize, Frame.SizeOf, Frame.Outside, Frame.Depth;
    forall f | 0 <= f < |P.funcs| ensures ArmSim.SizedFunction(P.funcs[f]) {
      var g := P.funcs[f];
      assert Frame.FunctionSized(P.types, g);
      Frame.Align16Is(Frame.TotalSize(P.types, g.params));
      Frame.PlacedApart(P.types, g.params, 0);
      VarsWithin(P.types, g.params, 0, Frame.TotalSize(P.types, g.params));
    }
    forall b | 0 <= b < |P.blocks| ensures ArmSim.SizedBlock(P.blocks[b]) {
      if b > 0 {
        assert Frame.BlockSized(P.types, P.blocks, P.funcs, b);
        DepthBound(P, b);
        var at := Frame.Outside(P.blocks, P.funcs, b);
        Frame.Align16Is(Frame.TotalSize(P.types, P.blocks[b].locals));
        Frame.PlacedApart(P.types, P.blocks[b].locals, at);
        VarsWithin(P.types, P.blocks[b].locals, at, at + Frame.TotalSize(P.types, P.blocks[b].locals));
      }
    }
  }

  lemma VarsWithin(types: seq<TypeDef>, vs: seq<Var>, lo: nat, hi: nat)
    requires Frame.AllApart(types, vs, lo, hi)
    ensures forall k :: 0 <= k < |vs| ==> 0 <= vs[k].offset <= hi
    ensures forall v :: v in vs ==> 0 <= v.offset <= hi
  {
    forall k | 0 <= k < |vs| ensures 0 <= vs[k].offset <= hi { assert Frame.Within(types, vs[k], lo, hi); }
  }

  lemma {:induction false} DepthBound(P: Program, b: nat)
    requires Frame.Sized(P) && 1 <= b < |P.blocks|
    ensures 0 <= Frame.Outside(P.blocks, P.funcs, b) <= 2032 * b
    ensures P.blocks[b].localsSize <= 2032 && Frame.Depth(P.blocks, P.funcs, b) <= 2032 * (b + 1)
    decreases b
  {
    hide Frame.PlaceVars, Frame.TotalSize;
    assert Frame.BlockSized(P.types, P.blocks, P.funcs, b) && Frame.BlockOk(P.blocks, P.funcs, b);
    Frame.Align16Is(Frame.TotalSize(P.types, P.blocks[b].locals));
    var f := P.funcs[P.blocks[b].func.value];
    assert Frame.FunctionSized(P.types, f);
    Frame.Align16Is(Frame.TotalSize(P.types, f.params));
    if P.blocks[b].parent.Some? { DepthBound(P, P.blocks[b].parent.value); }
  }
}
