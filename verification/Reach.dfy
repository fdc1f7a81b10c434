/** When the second pass stops: which immediates fit, and how deep a frame may be. */
module Reach {
  import opened Words
  import opened Il
  import opened IlMachine
  import opened Frame
  import Scoping

  /** A local or parameter lies between the frame pointer and the depth of the block it is visible in. */
  lemma LocalDepth(P: Program, bd: Option<nat>, name: string, ofs: int)
    requires Sized(P) && Resolve(P, bd, name) == Local(ofs)
    ensures bd.Some? && 0 <= ofs <= if bd.value >= 1 then Depth(P.blocks, P.funcs, bd.value) else MAX_FRAME
    ensures bd.value < |P.blocks|
  {
    hide PlaceVars, Depth, TotalSize, SizeOf;
    var b := bd.value;
    Scoping.FindVisible(P.blocks, P.funcs, b, name);
    var vs := Scoping.ChainLocals(P.blocks, b) + Scoping.Params(P.blocks, P.funcs, b);
    Scoping.FindSound(vs, name);
    var v := FindVar(vs, name).value;
    if b >= 1 {
      FrameApart(P, b);
      var k :| 0 <= k < |vs| && vs[k] == v;
      assert Within(P.types, vs[k], 0, Depth(P.blocks, P.funcs, b));
    } else {
      OnlyParams(P, name);
      var f := P.funcs[P.blocks[b].func.value];
      assert FunctionSized(P.types, f);
      PlacedApart(P.types, f.params, 0);
      Align16Is(TotalSize(P.types, f.params));
      Scoping.FindSound(f.params, name);
      var k :| 0 <= k < |f.params| && f.params[k] == v;
      assert Within(P.types, f.params[k], 0, TotalSize(P.types, f.params));
    }
  }

  /** What the block of the globals shows besides the globals. */
  lemma OnlyParams(P: Program, name: string)
    requires |P.blocks| >= 1 && P.blocks[0].parent.None? && FindGlobalVariable(P.blocks, name).None?
    requires FindLocalVariable(P.blocks, P.funcs, 0, name).Some?
    ensures P.blocks[0].func.Some? && P.blocks[0].func.value < |P.funcs|
    ensures FindLocalVariable(P.blocks, P.funcs, 0, name) == FindVar(P.funcs[P.blocks[0].func.value].params, name)
  {
  }

  /** The frame sizes are multiples of 16 of at most 2032, and the parameters lie in their function's part. */
  lemma SizesFit(P: Program)
    requires Sized(P) && P.blocks[0].localsSize == 0
    ensures forall f :: 0 <= f < |P.funcs| ==> FunctionFits(P.funcs[f])
    ensures forall b :: 0 <= b < |P.blocks| ==> SizeFits(P.blocks[b].localsSize)
  {
    hide PlaceVars, Outside, TotalSize, SizeOf;
    forall f | 0 <= f < |P.funcs| ensures FunctionFits(P.funcs[f]) {
      var params := P.funcs[f].params;
      assert FunctionSized(P.types, P.funcs[f]);
      Align16Is(TotalSize(P.types, params));
      PlacedApart(P.types, params, 0);
      forall k | 0 <= k < |params| ensures 0 <= params[k].offset <= P.funcs[f].paramsSize {
        assert Within(P.types, params[k], 0, TotalSize(P.types, params));
      }
    }
    forall b | 0 <= b < |P.blocks| ensures SizeFits(P.blocks[b].localsSize) {
      if b > 0 {
        assert BlockSized(P.types, P.blocks, P.funcs, b);
        Align16Is(TotalSize(P.types, P.blocks[b].locals));
      }
    }
  }

  predicate SizeFits(n: int) {
    0 <= n <= 2032 && n % 16 == 0
  }

  predicate FunctionFits(f: Function) {
    SizeFits(f.paramsSize) && forall k :: 0 <= k < |f.params| ==> 0 <= f.params[k].offset <= f.paramsSize
  }

  ghost predicate Fits(P: Program) {
    && (forall f :: 0 <= f < |P.funcs| ==> FunctionFits(P.funcs[f]))
    && (forall b :: 0 <= b < |P.blocks| ==> SizeFits(P.blocks[b].localsSize))
  }
}

module RiscvReach {
  import opened Words
  import opened Il
  import opened IlMachine
  import opened RiscvIsa
  import opened RiscvEncode
  import opened RiscvBackend
  import opened Reach

  /** The immediates the encoders take; the other operands are never refused. */
  predicate InRange(ins: Rv) {
    match ins
    case I(_, _, _, imm) => -2048 <= imm < 2048
    case Ld(_, _, _, imm) => -2048 <= imm < 2048
    case St(_, _, _, imm) => -2048 <= imm < 2048
    case Jalr(_, _, imm) => -2048 <= imm < 2048
    case Br(_, _, _, imm) => -4096 <= imm < 4096
    case _ => true
  }

  lemma AssembleIff(ins: Rv)
    ensures Assemble(ins).Some? <==> InRange(ins)
  {
  }

  predicate AllInRange(asm: seq<Rv>) {
    forall k :: 0 <= k < |asm| ==> InRange(asm[k])
  }

  lemma {:induction false} AssembleAllIff(asm: seq<Rv>)
    ensures AssembleAll(asm).Some? <==> AllInRange(asm)
  {
    hide Assemble, InRange;
    if asm != [] {
      AssembleIff(asm[0]);
      AssembleAllIff(asm[1..]);
      assert AllInRange(asm) ==> AllInRange(asm[1..]);
      if AllInRange(asm[1..]) && InRange(asm[0]) {
        forall k | 0 <= k < |asm| ensures InRange(asm[k]) {
          if k > 0 { assert asm[k] == asm[1..][k - 1]; }
        }
      }
    }
  }

  lemma {:induction false} StoresInRange(params: seq<Var>, k: nat)
    requires k <= |params| && forall i :: 0 <= i < |params| ==> 0 <= params[i].offset <= 2048
    ensures AllInRange(StoreParamsCode(params, k))
    decreases |params| - k
  {
    if k < |params| {
      StoresInRange(params, k + 1);
    }
  }

  predicate Near(r: Resolved) {
    r.Local? ==> -2047 <= r.offset <= 2048
  }

  lemma EntryInRange(f: Function)
    requires FunctionFits(f)
    ensures AllInRange(EntryCode(f))
  {
    StoresInRange(f.params, 0);
  }

  lemma ValueInRange(L: Layout, d: int, r: Resolved, pc: int)
    requires VarAddr(L, d, r, pc).Some?
    ensures AllInRange(VarAddr(L, d, r, pc).value) <==> Near(r)
  {
    hide Lo, Hi;
    match r
    case Global(ofs) => LoSpec(L.dataStart + ofs - pc);
    case Local(ofs) =>
      var asm := VarAddr(L, d, r, pc).value;
      assert asm[0] == Addi(d, S0, 0) && asm[1] == Addi(d, d, -ofs);
    case FunctionEntry(e) => LoSpec(L.codeStart + L.offs[e]);
  }

  lemma ConstantInRange(d: int, val: int)
    ensures AllInRange(NumericConstant(d, val))
  {
    hide Lo, Hi;
    LoSpec(val);
  }

  lemma DataInRange(d: int, ofs: int)
    ensures AllInRange(PcRelative(d, ofs))
  {
    hide Lo, Hi;
    LoSpec(ofs);
  }

  lemma LowerInRange(P: Program, L: Layout, bd: Option<nat>, ins: Instr, pc: int)
    requires Fits(P) && Lower(P, L, bd, ins, pc).Some?
    ensures AllInRange(Lower(P, L, bd, ins, pc).value) <==> (ins.op.GetVarAddr? ==> Near(Resolve(P, bd, ins.name)))
  {
    hide Resolve, PcRelative, NumericConstant, VarAddr, EntryCode;
    var d := DestReg(ins.param);
    if ins.op.GetVarAddr? {
      ValueInRange(L, d, Resolve(P, bd, ins.name), pc);
    } else if ins.op.LoadNumericConstant? {
      ConstantInRange(d, ins.int1);
    } else if ins.op.LoadDataAddress? {
      DataInRange(d, L.dataStart + ins.int1 - pc);
    } else if ins.op.EntryPoint? {
      EntryInRange(P.funcs[FindFunction(P.funcs, ins.name).value]);
    }
  }

  /** With sized tables an operation that can be lowered is emitted unless it takes the address of a local more than
      2048 bytes below the frame pointer. */
  lemma LowersIff(P: Program, L: Layout, bd: Option<nat>, ins: Instr, pc: int)
    requires Fits(P) && !ins.op.Generic?
    ensures LowerWords(P, L, bd, ins, pc).Some? <==>
              Lower(P, L, bd, ins, pc).Some? && (ins.op.GetVarAddr? ==> Near(Resolve(P, bd, ins.name)))
  {
    hide Lower, AssembleAll, AllInRange, Near;
    if Lower(P, L, bd, ins, pc).Some? {
      AssembleAllIff(Lower(P, L, bd, ins, pc).value);
      LowerInRange(P, L, bd, ins, pc);
    }
  }
}

module ArmReach {
  import opened Words
  import opened Il
  import opened IlMachine
  import opened ArmIsa
  import opened ArmEncode
  import opened ArmBackend
  import opened Reach

  /** Only the rotated operands of the data-processing instructions can be refused. */
  ghost predicate InRange(ins: Arm) {
    ins.DpImm? && ins.imm >= 0 ==> Representable(ins.imm)
  }

  lemma AssembleIff(ins: Arm)
    requires ins.DpReg? ==> ins.rm <= 255
    ensures Assemble(ins).Some? <==> InRange(ins)
  {
    hide Encode, EncodeTransfer, EncodeWide, EncodeBranch, Representable;
    if ins.DpImm? && ins.imm >= 0 { OperandExists(ins.imm); }
  }

  predicate SmallRegs(asm: seq<Arm>) {
    forall k :: 0 <= k < |asm| ==> asm[k].DpReg? ==> asm[k].rm <= 255
  }

  ghost predicate AllInRange(asm: seq<Arm>) {
    forall k :: 0 <= k < |asm| ==> InRange(asm[k])
  }

  lemma {:induction false} AssembleAllIff(asm: seq<Arm>)
    requires SmallRegs(asm)
    ensures AssembleAll(asm).Some? <==> AllInRange(asm)
  {
    hide Assemble, InRange;
    if asm != [] {
      AssembleIff(asm[0]);
      AssembleAllIff(asm[1..]);
      assert AllInRange(asm) ==> AllInRange(asm[1..]);
      if AllInRange(asm[1..]) && InRange(asm[0]) {
        forall k | 0 <= k < |asm| ensures InRange(asm[k]) {
          if k > 0 { assert asm[k] == asm[1..][k - 1]; }
        }
      }
    }
  }

  lemma {:induction false} StoresInRange(params: seq<Var>, k: nat)
    requires k <= |params|
    ensures AllInRange(StoreParamsCode(params, k)) && SmallRegs(StoreParamsCode(params, k))
    decreases |params| - k
  {
    hide Representable;
    if k < |params| {
      StoresInRange(params, k + 1);
    }
  }

  lemma Steps(n: nat)
    requires n % 16 == 0 && n <= 4080
    ensures Representable(n)
  {
    assert Pow2(4) == 16;
    assert IsShifted(n, n / 16, 2);
  }

  lemma Bytes(n: nat)
    requires n <= 255
    ensures Representable(n)
  {
    assert IsShifted(n, n, 0);
  }

  /** The second addition takes the offset rounded up to the next multiple of 256. */
  function Page(ofs: nat): nat {
    (ofs + 255) / 256 * 256
  }

  ghost predicate Near(r: Resolved) {
    r.Local? ==> r.offset >= 0 && Representable(Page(r.offset))
  }

  lemma EntryInRange(f: Function)
    requires FunctionFits(f)
    ensures AllInRange(EntryCode(f)) && SmallRegs(EntryCode(f))
  {
    hide Representable;
    StoresInRange(f.params, 0);
    Steps(16 + f.paramsSize);
    Steps(f.paramsSize);
  }

  lemma ValueInRange(L: Layout, d: int, r: Resolved)
    requires VarAddr(L, d, r).Some? && (r.Local? ==> r.offset >= 0)
    ensures AllInRange(VarAddr(L, d, r).value) <==> Near(r)
    ensures SmallRegs(VarAddr(L, d, r).value)
  {
    hide Representable;
    if r.Local? {
      var asm := VarAddr(L, d, r).value;
      var low, page: int := -r.offset % 256, Page(r.offset);
      Bytes(low);
      Bytes(0);
      assert low + r.offset == page;
      assert asm[0] == AddI(d, S0, low) && asm[1] == AddI(d, d, -page);
    }
  }

  lemma BinaryInRange(P: Program, L: Layout, bd: Option<nat>, ins: Instr, pc: int)
    requires IsBinary(ins.op) && ins.int1 <= 255
    ensures Lower(P, L, bd, ins, pc).Some?
    ensures AllInRange(Lower(P, L, bd, ins, pc).value) && SmallRegs(Lower(P, L, bd, ins, pc).value)
  {
    hide Representable;
    Bytes(0);
    Bytes(1);
  }

  lemma ConstantInRange(d: int, val: int)
    ensures AllInRange(NumericConstant(d, val)) && SmallRegs(NumericConstant(d, val))
  {
    hide Representable;
    if 0 <= val < 256 { Bytes(val); }
  }

  lemma OtherInRange(P: Program, L: Layout, bd: Option<nat>, ins: Instr, pc: int)
    requires Fits(P) && Lower(P, L, bd, ins, pc).Some? && !IsBinary(ins.op)
    requires ins.op.GetVarAddr? && Resolve(P, bd, ins.name).Local? ==> Resolve(P, bd, ins.name).offset >= 0
    ensures AllInRange(Lower(P, L, bd, ins, pc).value) <==> (ins.op.GetVarAddr? ==> Near(Resolve(P, bd, ins.name)))
    ensures SmallRegs(Lower(P, L, bd, ins, pc).value)
  {
    hide Resolve, VarAddr, EntryCode, NumericConstant, Representable;
    if ins.op.GetVarAddr? {
      ValueInRange(L, ins.param, Resolve(P, bd, ins.name));
    } else if ins.op.EntryPoint? {
      EntryInRange(P.funcs[FindFunction(P.funcs, ins.name).value]);
    } else if ins.op.LoadNumericConstant? {
      ConstantInRange(ins.param, ins.int1);
    } else {
      Bytes(0);
      Bytes(1);
      Bytes(4);
      Bytes(16);
      if (ins.op.BlockStart? || ins.op.BlockEnd?) && 0 <= ins.int1 < |P.blocks| {
        Steps(P.blocks[ins.int1].localsSize);
      }
    }
  }

  lemma LowerInRange(P: Program, L: Layout, bd: Option<nat>, ins: Instr, pc: int)
    requires Fits(P) && Lower(P, L, bd, ins, pc).Some? && (IsBinary(ins.op) ==> ins.int1 <= 255)
    requires ins.op.GetVarAddr? && Resolve(P, bd, ins.name).Local? ==> Resolve(P, bd, ins.name).offset >= 0
    ensures AllInRange(Lower(P, L, bd, ins, pc).value) <==> (ins.op.GetVarAddr? ==> Near(Resolve(P, bd, ins.name)))
    ensures SmallRegs(Lower(P, L, bd, ins, pc).value)
  {
    hide Lower, Resolve, AllInRange, SmallRegs, Near;
    if IsBinary(ins.op) {
      BinaryInRange(P, L, bd, ins, pc);
    } else {
      OtherInRange(P, L, bd, ins, pc);
    }
  }

  /** With sized tables an operation that can be lowered is emitted unless it takes the address of a local whose
      distance, rounded up to a multiple of 256, is not eight bits shifted by an even amount. */
  lemma LowersIff(P: Program, L: Layout, bd: Option<nat>, ins: Instr, pc: int)
    requires Fits(P) && !ins.op.Generic? && (IsBinary(ins.op) ==> ins.int1 <= 255)
    requires ins.op.GetVarAddr? && Resolve(P, bd, ins.name).Local? ==> Resolve(P, bd, ins.name).offset >= 0
    ensures LowerWords(P, L, bd, ins, pc).Some? <==>
              Lower(P, L, bd, ins, pc).Some? && (ins.op.GetVarAddr? ==> Near(Resolve(P, bd, ins.name)))
  {
    hide Lower, AssembleAll, AllInRange, Near, Resolve;
    if Lower(P, L, bd, ins, pc).Some? {
      LowerInRange(P, L, bd, ins, pc);
      AssembleAllIff(Lower(P, L, bd, ins, pc).value);
    }
  }
}

/** The two backends side by side. */
module BothReach {
  import opened Words
  import opened Il
  import opened IlMachine
  import opened Frame
  import opened Reach
  import RiscvBackend
  import ArmBackend
  import ArmEncode
  import RiscvReach
  import ArmReach

  /** Apart from immediates, both backends take the same operations. */
  lemma SameOperations(P: Program, L: Layout, bd: Option<nat>, ins: Instr, pc: int)
    ensures RiscvBackend.Lower(P, L, bd, ins, pc).Some? <==> ArmBackend.Lower(P, L, bd, ins, pc).Some?
  {
    hide Resolve, RiscvBackend.PcRelative, RiscvBackend.Absolute, RiscvBackend.NumericConstant, RiscvBackend.EntryCode,
      RiscvBackend.CondJump, ArmBackend.Wide, ArmBackend.NumericConstant, ArmBackend.EntryCode, ArmBackend.CondJump;
  }

  /** The deepest frame each backend can address to its end. */
  const RISCV_DEPTH := 2048
  const ARM_DEPTH := 65280

  lemma PagesRepresentable(ofs: nat)
    requires ofs <= ARM_DEPTH
    ensures ArmEncode.Representable(ArmReach.Page(ofs))
  {
    assert Pow2(8) == 256;
    assert ArmEncode.IsShifted(ArmReach.Page(ofs), (ofs + 255) / 256, 4);
  }

  ghost predicate Shallow(P: Program, bd: Option<nat>, depth: int) {
    bd.Some? && 1 <= bd.value < |P.blocks| ==> Depth(P.blocks, P.funcs, bd.value) <= depth
  }

  lemma LocalsNear(P: Program, bd: Option<nat>, name: string)
    requires Sized(P)
    ensures var r := Resolve(P, bd, name);
            && (r.Local? ==> r.offset >= 0)
            && (Shallow(P, bd, RISCV_DEPTH) ==> RiscvReach.Near(r)) && (Shallow(P, bd, ARM_DEPTH) ==> ArmReach.Near(r))
  {
    hide Resolve, Sized, Depth;
    var r := Resolve(P, bd, name);
    if r.Local? {
      LocalDepth(P, bd, name, r.offset);
      if r.offset <= ARM_DEPTH { PagesRepresentable(r.offset); }
    }
  }

  /** In blocks whose frames reach no deeper than 2048 bytes the sizes that passed the check make every operation that
      has a meaning encodable, on both backends. */
  lemma ShallowEmitted(P: Program, L: Layout, bd: Option<nat>, ins: Instr, pc: int)
    requires Sized(P) && P.blocks[0].localsSize == 0 && Shallow(P, bd, RISCV_DEPTH)
    requires !ins.op.Generic? && (IsBinary(ins.op) ==> ins.int1 <= 255)
    ensures RiscvBackend.LowerWords(P, L, bd, ins, pc).Some? <==> RiscvBackend.Lower(P, L, bd, ins, pc).Some?
    ensures ArmBackend.LowerWords(P, L, bd, ins, pc).Some? <==> RiscvBackend.Lower(P, L, bd, ins, pc).Some?
  {
    hide Resolve, Sized, Depth, RiscvBackend.Lower, ArmBackend.Lower, RiscvBackend.LowerWords, ArmBackend.LowerWords,
      RiscvReach.Near, ArmReach.Near, FunctionFits, SizeFits;
    SizesFit(P);
    LocalsNear(P, bd, ins.name);
    SameOperations(P, L, bd, ins, pc);
    RiscvReach.LowersIff(P, L, bd, ins, pc);
    ArmReach.LowersIff(P, L, bd, ins, pc);
  }

  /** The size check is made for each block alone.  Between 2048 and 65280 bytes below the frame pointer the RISC-V
      backend stops at a local that the ARM backend addresses. */
  lemma DeepLocal(P: Program, L: Layout, bd: Option<nat>, d: int, name: string, pc: int)
    requires Sized(P) && P.blocks[0].localsSize == 0
    requires Resolve(P, bd, name).Local? && Resolve(P, bd, name).offset <= ARM_DEPTH
    ensures var ins := Instr(GetVarAddr, d, 0, 0, name);
            && (RiscvBackend.LowerWords(P, L, bd, ins, pc).None? <==> Resolve(P, bd, name).offset > RISCV_DEPTH)
            && ArmBackend.LowerWords(P, L, bd, ins, pc).Some?
  {
    hide Resolve, Sized, Depth, RiscvBackend.LowerWords, ArmBackend.LowerWords, FunctionFits, SizeFits;
    SizesFit(P);
    LocalsNear(P, bd, name);
    PagesRepresentable(Resolve(P, bd, name).offset);
    var ins := Instr(GetVarAddr, d, 0, 0, name);
    RiscvReach.LowersIff(P, L, bd, ins, pc);
    ArmReach.LowersIff(P, L, bd, ins, pc);
  }

  /** Two nested blocks that each pass the check reach that far. */
  lemma NestedTooDeep() returns (P: Program)
    ensures Sized(P) && P.blocks[0].localsSize == 0 && Resolve(P, Some(2), "b") == Local(2064)
  {
    var a := Var("char", "a", 0, 0, 2032, 2032);
    var b := Var("char", "b", 0, 0, 32, 2064);
    var types := [TypeDef("char", 1)];
    P := Program([], [Block([], None, None, 0), Block([a], None, Some(0), 2032), Block([b], Some(1), Some(0), 32)],
                 [Function("f", [], 0, 0, 0)], types);
    OneVar(types, a, 0);
    OneVar(types, b, 2032);
    assert Depth(P.blocks, P.funcs, 1) == 2032;
    assert forall k :: 1 <= k < 3 ==> BlockSized(types, P.blocks, P.funcs, k) && BlockOk(P.blocks, P.funcs, k);
    assert FindVar([b], "b") == Some(b);
  }

  lemma OneVar(types: seq<TypeDef>, v: Var, at: nat)
    requires types == [TypeDef("char", 1)] && v.typeName == "char" && v.isPointer == v.isFunction == 0
    requires v.arraySize > 0
    requires v.offset == at + v.arraySize
    ensures TotalSize(types, [v]) == v.arraySize && PlaceVars(types, [v], at) == [v]
  {
    assert FindType(types, "char") == Some(types[0]);
    assert TotalSize(types, []) == 0;
    assert v.(offset := at + v.arraySize) == v;
  }
}
