/** The ARM backend: predicted code lengths and the instructions emitted for each IL operation. */
module ArmBackend {
  import opened Words
  import opened Il
  import opened IlMachine
  import opened ArmIsa
  import opened ArmEncode

  const S0 := 11
  const SP := 13
  const LR := 14
  const PC := 15

  /** The supervisor call. */
  const SWI := 0xEF00_0000

  /** None where the source stops with an error or follows a null pointer. */
  function CodeLength(P: Program, ins: Instr): Option<nat> {
    match ins.op
    case EntryPoint =>
      (match FindFunction(P.funcs, ins.name)
       case Some(f) => Some(16 + 4 * |P.funcs[f].params|)
       case None => None)
    case FunctionCall => Some(if ins.param != 0 then 8 else 4)
    case PointerCall => Some(if ins.param != 0 then 8 else 4)
    case LoadNumericConstant => Some(if ins.int1 >= 0 && ins.int1 < 256 then 4 else 8)
    case BlockStart => if 0 <= ins.int1 < |P.blocks| then Some(if HasLocals(P, ins.int1) then 4 else 0) else None
    case BlockEnd => if 0 <= ins.int1 < |P.blocks| then Some(if HasLocals(P, ins.int1) then 4 else 0) else None
    case Syscall => Some(20)
    case ExitPoint => Some(16)
    case Exit => Some(12)
    case LoadDataAddress => Some(8)
    case Jz => Some(8)
    case Jnz => Some(8)
    case Push => Some(8)
    case Pop => Some(8)
    case GetVarAddr => Some(8)
    case Start => Some(8)
    case Label => Some(0)
    case _ => Some(if IsComparison(ins.op) then 12 else 4)
  }

  function AddI(rd: int, rs: int, imm: int): Arm {
    if imm >= 0 then DpImm(AL, ADD, false, rs, rd, imm) else DpImm(AL, SUB, false, rs, rd, -imm)
  }

  function MovI(c: Cond, rd: int, imm: int): Arm { DpImm(c, MOV, false, 0, rd, imm) }
  function MovR(rd: int, rs: int): Arm { DpReg(AL, MOV, false, 0, rd, rs) }
  function Lw(rd: int, rn: int, ofs: int): Arm { Transfer(AL, true, false, rn, rd, ofs) }
  function Sw(rd: int, rn: int, ofs: int): Arm { Transfer(AL, false, false, rn, rd, ofs) }

  function Wide(d: int, val: int): seq<Arm> {
    [Movw(AL, d, val % 0x1_0000), Movt(AL, d, val / 0x1_0000 % 0x1_0000)]
  }

  function NumericConstant(d: int, val: int): seq<Arm> {
    if val >= 0 && val < 256 then [MovI(AL, d, val)] else Wide(d, val)
  }

  function LocalAddr(d: int, offset: int): seq<Arm> {
    [AddI(d, S0, offset % 256), AddI(d, d, offset - offset % 256)]
  }

  function VarAddr(L: Layout, d: int, r: Resolved): Option<seq<Arm>> {
    match r
    case Global(ofs) => Some(Wide(d, L.dataStart + ofs + L.codeStart))
    case Local(ofs) => Some(LocalAddr(d, -ofs))
    case FunctionEntry(e) => if 0 <= e < |L.offs| then Some(Wide(d, L.codeStart + L.offs[e])) else None
    case Undefined => None
  }

  function CondOf(op: Op): Cond
    requires IsComparison(op)
  {
    match op
    case Equals => EQ
    case NotEquals => NE
    case LessThan => LT
    case GreaterEqThan => GE
    case GreaterThan => GT
    case LessEqThan => LE
  }

  function Compare(op: Op, d: int, o: int): seq<Arm>
    requires IsComparison(op)
  {
    [DpReg(AL, CMP, true, d, d, o), MovI(AL, d, 0), MovI(CondOf(op), d, 1)]
  }

  /** The branch starts four bytes after the jump's own address; `ofs` is the distance from there. */
  function CondJump(jz: bool, d: int, ofs: int): seq<Arm> {
    [DpImm(AL, TEQ, true, d, 0, 0), Branch(if jz then EQ else NE, false, ofs)]
  }

  function StoreParamsCode(params: seq<Var>, k: nat): seq<Arm>
    requires k <= |params|
    decreases |params| - k
  {
    if k == |params| then [] else [Sw(k, S0, -params[k].offset)] + StoreParamsCode(params, k + 1)
  }

  function EntryCode(f: Function): seq<Arm> {
    var len := f.paramsSize;
    [AddI(SP, SP, -16 - len), Sw(S0, SP, 12 + len), Sw(LR, SP, 8 + len), AddI(S0, SP, len)]
    + StoreParamsCode(f.params, 0)
  }

  function ExitCode(): seq<Arm> {
    [AddI(SP, S0, 16), Lw(LR, SP, -8), Lw(S0, SP, -4), MovR(PC, LR)]
  }

  function CallCode(jump: Arm, d: int): seq<Arm> {
    if d != 0 then [jump, MovR(d, 0)] else [jump]
  }

  function Distance(L: Layout, target: int, pc: int): Option<int> {
    if 0 <= target < |L.offs| then Some(L.offs[target] - pc) else None
  }

  function AluCode(op: Op, d: int, o: int): Arm
    requires IsBinary(op) && !IsComparison(op)
  {
    match op
    case Add => DpReg(AL, ADD, false, d, d, o)
    case Sub => DpReg(AL, SUB, false, d, d, o)
    case Mul => ArmIsa.Mul(AL, d, o, d)
    case BitLshift => Shift(AL, LSL, d, d, o)
    case BitRshift => Shift(AL, LSR, d, d, o)
    case LogAnd => DpReg(AL, AND, false, d, d, o)
    case BitAnd => DpReg(AL, AND, false, d, d, o)
    case LogOr => DpReg(AL, ORR, false, d, d, o)
    case BitOr => DpReg(AL, ORR, false, d, d, o)
  }

  /** The instructions for one IL operation emitted at code offset `pc`, in block `bd`; None where the source stops. */
  function Lower(P: Program, L: Layout, bd: Option<nat>, ins: Instr, pc: int): Option<seq<Arm>> {
    var d, o := ins.param, ins.int1;
    if IsComparison(ins.op) then Some(Compare(ins.op, d, o))
    else if IsBinary(ins.op) then Some([AluCode(ins.op, d, o)])
    else match ins.op
      case Negate => Some([DpImm(AL, RSB, false, d, d, 0)])
      case Not => Some([DpImm(AL, RSB, false, d, d, 1)])
      case LoadDataAddress => Some(Wide(d, L.dataStart + ins.int1 + L.codeStart))
      case LoadNumericConstant => Some(NumericConstant(d, ins.int1))
      case GetVarAddr => VarAddr(L, d, Resolve(P, bd, ins.name))
      case ReadAddr =>
        if ins.int2 == 4 then Some([Lw(d, o, 0)])
        else if ins.int2 == 1 then Some([Transfer(AL, true, true, o, d, 0)]) else None
      case WriteAddr =>
        if ins.int2 == 4 then Some([Sw(d, o, 0)])
        else if ins.int2 == 1 then Some([Transfer(AL, false, true, o, d, 0)]) else None
      case Jump =>
        (match Distance(L, ins.int1, pc) case Some(ofs) => Some([Branch(AL, false, ofs)]) case None => None)
      case Return =>
        (match FindFunction(P.funcs, ins.name)
         case Some(f) =>
           (match Distance(L, P.funcs[f].exit, pc) case Some(ofs) => Some([Branch(AL, false, ofs)]) case None => None)
         case None => None)
      case FunctionCall =>
        (match FindFunction(P.funcs, ins.name)
         case Some(f) =>
           (match Distance(L, P.funcs[f].entry, pc)
            case Some(ofs) => Some(CallCode(Branch(AL, true, ofs), d))
            case None => None)
         case None => None)
      case PointerCall => Some(CallCode(BranchLinkReg(AL, o), d))
      case Push => Some([AddI(SP, SP, -16), Sw(d, SP, 0)])
      case Pop => Some([Lw(d, SP, 0), AddI(SP, SP, 16)])
      case ExitPoint => Some(ExitCode())
      case Label => Some([])
      case Jz =>
        (match Distance(L, ins.int1, pc) case Some(ofs) => Some(CondJump(true, d, ofs - 4)) case None => None)
      case Jnz =>
        (match Distance(L, ins.int1, pc) case Some(ofs) => Some(CondJump(false, d, ofs - 4)) case None => None)
      case BlockStart =>
        if !(0 <= ins.int1 < |P.blocks|) then None
        else if HasLocals(P, ins.int1) then Some([AddI(SP, SP, -P.blocks[ins.int1].localsSize)]) else Some([])
      case BlockEnd =>
        if !(0 <= ins.int1 < |P.blocks|) then None
        else if HasLocals(P, ins.int1) then Some([AddI(SP, SP, P.blocks[ins.int1].localsSize)]) else Some([])
      case EntryPoint =>
        (match FindFunction(P.funcs, ins.name) case Some(f) => Some(EntryCode(P.funcs[f])) case None => None)
      case Start => Some([Lw(0, SP, 0), AddI(1, SP, 4)])
      case Syscall => Some([MovR(7, 0), MovR(0, 1), MovR(1, 2), MovR(2, 3)])
      case Exit => Some([MovI(AL, 0, 0), MovI(AL, 7, 1)])
      case _ => None
  }

  function AssembleAll(asm: seq<Arm>): Option<seq<Word>> {
    if asm == [] then Some([])
    else match Assemble(asm[0])
      case None => None
      case Some(w) =>
        match AssembleAll(asm[1..])
        case None => None
        case Some(ws) => Some([w] + ws)
  }

  /** The words emitted; system calls end in SWI, and a generic operation is a word given by the program. */
  function LowerWords(P: Program, L: Layout, bd: Option<nat>, ins: Instr, pc: int): Option<seq<Word>> {
    if ins.op.Generic? then Some([Wrap(ins.int1)])
    else match Lower(P, L, bd, ins, pc)
      case None => None
      case Some(asm) =>
        match AssembleAll(asm)
        case None => None
        case Some(ws) => Some(if ins.op.Syscall? || ins.op.Exit? then ws + [SWI] else ws)
  }

  lemma {:induction false} StoreParamsCodeLength(params: seq<Var>, k: nat)
    requires k <= |params|
    ensures |StoreParamsCode(params, k)| == |params| - k
    decreases |params| - k
  {
    if k < |params| {
      StoreParamsCodeLength(params, k + 1);
    }
  }

  lemma {:induction false} AssembleAllLength(asm: seq<Arm>)
    requires AssembleAll(asm).Some?
    ensures |AssembleAll(asm).value| == |asm|
    ensures forall k :: 0 <= k < |asm| ==> Assemble(asm[k]) == Some(AssembleAll(asm).value[k])
  {
    if asm != [] {
      AssembleAllLength(asm[1..]);
    }
  }

  lemma LoweredLength(P: Program, L: Layout, bd: Option<nat>, ins: Instr, pc: int)
    requires Lower(P, L, bd, ins, pc).Some?
    ensures var n := |Lower(P, L, bd, ins, pc).value|;
            CodeLength(P, ins) == Some(4 * if ins.op.Syscall? || ins.op.Exit? then n + 1 else n)
  {
    if ins.op.EntryPoint? {
      StoreParamsCodeLength(P.funcs[FindFunction(P.funcs, ins.name).value].params, 0);
    }
  }

  /** What the first pass predicts is what the second pass emits, for every operation. */
  lemma LengthPredicted(P: Program, L: Layout, bd: Option<nat>, ins: Instr, pc: int)
    requires LowerWords(P, L, bd, ins, pc).Some?
    ensures CodeLength(P, ins) == Some(4 * |LowerWords(P, L, bd, ins, pc).value|)
  {
    if !ins.op.Generic? {
      LoweredLength(P, L, bd, ins, pc);
      AssembleAllLength(Lower(P, L, bd, ins, pc).value);
    }
  }

  // ----- addresses of locals -----

  /** Eight bits above any multiple of 256 up to 255 * 256 can be encoded. */
  lemma HighByteRepresentable(j: nat)
    requires j <= 255
    ensures Operand(256 * j).Some?
  {
    assert Pow2(8) == 256;
    assert IsShifted(256 * j, j, 4);
    OperandExists(256 * j);
  }

  /** The two additions can be encoded for every offset from -65280 to 255. */
  lemma LocalAddrEncodable(d: int, offset: int)
    requires -65280 <= offset <= 255
    ensures forall k :: 0 <= k < 2 ==> Assemble(LocalAddr(d, offset)[k]).Some?
  {
    hide Operand;
    var low := offset % 256;
    OperandSmall(low);
    OperandSmall(0);
    var j := (low - offset) / 256;
    assert offset - low == -256 * j && 0 <= j <= 255;
    HighByteRepresentable(j);
  }

  lemma OperandSmall(x: int)
    requires 0 <= x <= 255
    ensures Operand(x).Some?
  {
  }

  /** The stack adjustments of frames, blocks and pushes can be encoded: sixteen times at most 255. */
  lemma FrameSizesEncodable(rd: int, rs: int, len: int)
    requires len % 16 == 0 && -4080 <= len <= 4080
    ensures Assemble(AddI(rd, rs, len)).Some?
  {
    var b := if len >= 0 then len / 16 else -len / 16;
    assert Pow2(4) == 16;
    assert IsShifted(16 * b, b, 2);
    OperandExists(16 * b);
  }
}
