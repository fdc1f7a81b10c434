/** The RISC-V backend: predicted code lengths and the instructions emitted for each IL operation. */
module RiscvBackend {
  import opened Words
  import opened Il
  import opened IlMachine
  import opened RiscvIsa
  import opened RiscvEncode

  const ZERO := 0
  const RA := 1
  const SP := 2
  const S0 := 8
  const A0 := 10

  const ECALL := 115

  function DestReg(param: int): int {
    param + 10
  }

  /** None where the source stops with an error or follows a null pointer. */
  function CodeLength(P: Program, ins: Instr): Option<nat> {
    match ins.op
    case EntryPoint =>
      (match FindFunction(P.funcs, ins.name)
       case Some(f) => Some(16 + 4 * |P.funcs[f].params|)
       case None => None)
    case FunctionCall => Some(if ins.param != 0 then 8 else 4)
    case PointerCall => Some(if ins.param != 0 then 8 else 4)
    case LoadNumericConstant => Some(if ins.int1 > -2048 && ins.int1 < 2047 then 4 else 8)
    case BlockStart => if 0 <= ins.int1 < |P.blocks| then Some(if HasLocals(P, ins.int1) then 4 else 0) else None
    case BlockEnd => if 0 <= ins.int1 < |P.blocks| then Some(if HasLocals(P, ins.int1) then 4 else 0) else None
    case Syscall => Some(20)
    case ExitPoint => Some(16)
    case Exit => Some(12)
    case LoadDataAddress => Some(8)
    case Jz => Some(8)
    case Jnz => Some(8)
    case Push => Some(8)
    case Pop => Some(8)
    case GetVarAddr => Some(8)
    case Start => Some(8)
    case Label => Some(0)
    case _ => Some(if IsComparison(ins.op) then 16 else 4)
  }

  function Addi(rd: int, rs1: int, imm: int): Rv { I(ADDI, rd, rs1, imm) }
  function Lw(rd: int, rs1: int, imm: int): Rv { Ld(LW, rd, rs1, imm) }
  function Sw(rs2: int, rs1: int, imm: int): Rv { St(SW, rs2, rs1, imm) }

  function PcRelative(d: int, ofs: int): seq<Rv> {
    [Auipc(d, Upper(Hi(ofs))), Addi(d, d, Lo(ofs))]
  }

  function Absolute(d: int, val: int): seq<Rv> {
    [Lui(d, Upper(Hi(val))), Addi(d, d, Lo(val))]
  }

  function NumericConstant(d: int, val: int): seq<Rv> {
    if val > -2048 && val < 2047 then [Addi(d, ZERO, Lo(val))] else Absolute(d, val)
  }

  function VarAddr(L: Layout, d: int, r: Resolved, pc: int): Option<seq<Rv>> {
    match r
    case Global(ofs) => Some(PcRelative(d, L.dataStart + ofs - pc))
    case Local(ofs) => Some([Addi(d, S0, 0), Addi(d, d, -ofs)])
    case FunctionEntry(e) =>
      if 0 <= e < |L.offs| then Some(Absolute(d, L.codeStart + L.offs[e])) else None
    case Undefined => None
  }

  function Compare(op: Op, d: int, o: int): seq<Rv>
    requires IsComparison(op)
  {
    [match op
     case Equals => Br(BEQ, d, o, 12)
     case NotEquals => Br(BNE, d, o, 12)
     case LessThan => Br(BLT, d, o, 12)
     case GreaterEqThan => Br(BGE, d, o, 12)
     case GreaterThan => Br(BLT, o, d, 12)
     case LessEqThan => Br(BGE, o, d, 12),
     Addi(d, ZERO, 0), Jal(ZERO, 8), Addi(d, ZERO, 1)]
  }

  /** The branch starts four bytes after the jump's own address; `ofs` is the distance from there. */
  function CondJump(op: Op, d: int, ofs: int): seq<Rv> {
    if -4096 <= ofs <= 4095 then
      [Addi(ZERO, ZERO, 0), Br(if op.Jz? then BEQ else BNE, d, ZERO, ofs)]
    else
      [Br(if op.Jz? then BNE else BEQ, d, ZERO, 8), Jal(ZERO, ofs)]
  }

  function StoreParamsCode(params: seq<Var>, k: nat): seq<Rv>
    requires k <= |params|
    decreases |params| - k
  {
    if k == |params| then [] else [Sw(A0 + k, S0, -params[k].offset)] + StoreParamsCode(params, k + 1)
  }

  function EntryCode(f: Function): seq<Rv> {
    var len := f.paramsSize;
    [Addi(SP, SP, -16 - len), Sw(S0, SP, 12 + len), Sw(RA, SP, 8 + len), Addi(S0, SP, len)]
    + StoreParamsCode(f.params, 0)
  }

  function ExitCode(): seq<Rv> {
    [Addi(SP, S0, 16), Lw(RA, SP, -8), Lw(S0, SP, -4), Jalr(ZERO, RA, 0)]
  }

  function CallCode(jump: Rv, d: int): seq<Rv> {
    if d != A0 then [jump, Addi(d, A0, 0)] else [jump]
  }

  function Distance(L: Layout, target: int, pc: int): Option<int> {
    if 0 <= target < |L.offs| then Some(L.offs[target] - pc) else None
  }

  function RFunOf(op: Op): RFun
    requires IsBinary(op) && !IsComparison(op)
  {
    match op
    case Add => ADD
    case Sub => SUB
    case Mul => MUL
    case BitLshift => SLL
    case BitRshift => SRL
    case LogAnd => AND
    case BitAnd => AND
    case LogOr => OR
    case BitOr => OR
  }

  /** The instructions for one IL operation emitted at code offset `pc`, in block `bd`; None where the source stops. */
  function Lower(P: Program, L: Layout, bd: Option<nat>, ins: Instr, pc: int): Option<seq<Rv>> {
    var d, o := DestReg(ins.param), DestReg(ins.int1);
    if IsComparison(ins.op) then Some(Compare(ins.op, d, o))
    else if IsBinary(ins.op) then Some([R(RFunOf(ins.op), d, d, o)])
    else match ins.op
      case Negate => Some([R(SUB, d, ZERO, d)])
      case Not => Some([I(SLTIU, d, d, 1)])
      case LoadDataAddress => Some(PcRelative(d, L.dataStart + ins.int1 - pc))
      case LoadNumericConstant => Some(NumericConstant(d, ins.int1))
      case GetVarAddr => VarAddr(L, d, Resolve(P, bd, ins.name), pc)
      case ReadAddr =>
        if ins.int2 == 4 then Some([Lw(d, o, 0)]) else if ins.int2 == 1 then Some([Ld(LB, d, o, 0)]) else None
      case WriteAddr =>
        if ins.int2 == 4 then Some([Sw(d, o, 0)]) else if ins.int2 == 1 then Some([St(SB, d, o, 0)]) else None
      case Jump =>
        (match Distance(L, ins.int1, pc) case Some(ofs) => Some([Jal(ZERO, ofs)]) case None => None)
      case Return =>
        (match FindFunction(P.funcs, ins.name)
         case Some(f) =>
           (match Distance(L, P.funcs[f].exit, pc) case Some(ofs) => Some([Jal(ZERO, ofs)]) case None => None)
         case None => None)
      case FunctionCall =>
        (match FindFunction(P.funcs, ins.name)
         case Some(f) =>
           (match Distance(L, P.funcs[f].entry, pc) case Some(ofs) => Some(CallCode(Jal(RA, ofs), d)) case None => None)
         case None => None)
      case PointerCall => Some(CallCode(Jalr(RA, o, 0), d))
      case Push => Some([Addi(SP, SP, -16), Sw(d, SP, 0)])
      case Pop => Some([Lw(d, SP, 0), Addi(SP, SP, 16)])
      case ExitPoint => Some(ExitCode())
      case Label => Some([])
      case Jz =>
        (match Distance(L, ins.int1, pc) case Some(ofs) => Some(CondJump(Jz, d, ofs - 4)) case None => None)
      case Jnz =>
        (match Distance(L, ins.int1, pc) case Some(ofs) => Some(CondJump(Jnz, d, ofs - 4)) case None => None)
      case BlockStart =>
        if !(0 <= ins.int1 < |P.blocks|) then None
        else if HasLocals(P, ins.int1) then Some([Addi(SP, SP, -P.blocks[ins.int1].localsSize)]) else Some([])
      case BlockEnd =>
        if !(0 <= ins.int1 < |P.blocks|) then None
        else if HasLocals(P, ins.int1) then Some([Addi(SP, SP, P.blocks[ins.int1].localsSize)]) else Some([])
      case EntryPoint =>
        (match FindFunction(P.funcs, ins.name) case Some(f) => Some(EntryCode(P.funcs[f])) case None => None)
      case Start => Some([Lw(A0, SP, 0), Addi(A0 + 1, SP, 4)])
      case Syscall => Some([Addi(17, A0, 0), Addi(A0, A0 + 1, 0), Addi(A0 + 1, A0 + 2, 0), Addi(A0 + 2, A0 + 3, 0)])
      case Exit => Some([Addi(A0, ZERO, 0), Addi(17, ZERO, 93)])
      case _ => None
  }

  function AssembleAll(asm: seq<Rv>): Option<seq<Word>> {
    if asm == [] then Some([])
    else match Assemble(asm[0])
      case None => None
      case Some(w) =>
        match AssembleAll(asm[1..])
        case None => None
        case Some(ws) => Some([w] + ws)
  }

  /** The words emitted; system calls end in ECALL, and a generic operation is a word given by the program. */
  function LowerWords(P: Program, L: Layout, bd: Option<nat>, ins: Instr, pc: int): Option<seq<Word>> {
    if ins.op.Generic? then Some([Wrap(ins.int1)])
    else match Lower(P, L, bd, ins, pc)
      case None => None
      case Some(asm) =>
        match AssembleAll(asm)
        case None => None
        case Some(ws) => Some(if ins.op.Syscall? || ins.op.Exit? then ws + [ECALL] else ws)
  }

  lemma {:induction false} StoreParamsCodeLength(params: seq<Var>, k: nat)
    requires k <= |params|
    ensures |StoreParamsCode(params, k)| == |params| - k
    decreases |params| - k
  {
    if k < |params| {
      StoreParamsCodeLength(params, k + 1);
    }
  }

  lemma {:induction false} AssembleAllLength(asm: seq<Rv>)
    requires AssembleAll(asm).Some?
    ensures |AssembleAll(asm).value| == |asm|
    ensures forall k :: 0 <= k < |asm| ==> Assemble(asm[k]) == Some(AssembleAll(asm).value[k])
  {
    if asm != [] {
      AssembleAllLength(asm[1..]);
    }
  }

  lemma LoweredLength(P: Program, L: Layout, bd: Option<nat>, ins: Instr, pc: int)
    requires Lower(P, L, bd, ins, pc).Some?
    ensures var n := |Lower(P, L, bd, ins, pc).value|;
            CodeLength(P, ins) == Some(4 * if ins.op.Syscall? || ins.op.Exit? then n + 1 else n)
  {
    if ins.op.EntryPoint? {
      StoreParamsCodeLength(P.funcs[FindFunction(P.funcs, ins.name).value].params, 0);
    }
  }

  /** What the first pass predicts is what the second pass emits, for every operation. */
  lemma LengthPredicted(P: Program, L: Layout, bd: Option<nat>, ins: Instr, pc: int)
    requires LowerWords(P, L, bd, ins, pc).Some?
    ensures CodeLength(P, ins) == Some(4 * |LowerWords(P, L, bd, ins, pc).value|)
  {
    if !ins.op.Generic? {
      LoweredLength(P, L, bd, ins, pc);
      AssembleAllLength(Lower(P, L, bd, ins, pc).value);
    }
  }
}
