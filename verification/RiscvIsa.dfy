/** The part of RV32IM the compiler uses: decoding and execution, after the RISC-V Unprivileged ISA, chapter 2
    (RV32I) and section 7.1 (MUL). */
module RiscvIsa {
  import opened Words
  import opened CodeMemory

  datatype RFun = ADD | SUB | SLL | SRL | OR | AND | MUL
  datatype IFun = ADDI | SLTIU
  datatype LoadFun = LB | LW
  datatype StoreFun = SB | SW
  datatype BranchFun = BEQ | BNE | BLT | BGE

  /** Immediates are signed; `upper` is the 20-bit field of LUI and AUIPC. */
  datatype Rv =
    | R(rf: RFun, rd: int, rs1: int, rs2: int)
    | I(iff: IFun, rd: int, rs1: int, imm: int)
    | Ld(lf: LoadFun, rd: int, rs1: int, imm: int)
    | St(sf: StoreFun, rs2: int, rs1: int, imm: int)
    | Br(bf: BranchFun, rs1: int, rs2: int, imm: int)
    | Jal(rd: int, imm: int)
    | Jalr(rd: int, rs1: int, imm: int)
    | Lui(rd: int, upper: int)
    | Auipc(rd: int, upper: int)

  // ----- fields of an instruction word (section 2.2) -----

  function Opcode(w: Word): int { w % 128 }
  function Rd(w: Word): int { w / 128 % 32 }
  function Funct3(w: Word): int { w / 4096 % 8 }
  function Rs1(w: Word): int { w / 32768 % 32 }
  function Rs2(w: Word): int { w / 1048576 % 32 }
  function Funct7(w: Word): int { w / 33554432 }

  /** Sign extension of an n-bit field, given 2^(n-1). */
  function SignExtend(field: int, half: int): int {
    if field >= half then field - 2 * half else field
  }

  // Immediates (section 2.3).

  function ImmI(w: Word): int {
    SignExtend(w / 1048576, 2048)
  }

  function ImmS(w: Word): int {
    SignExtend(Funct7(w) * 32 + Rd(w), 2048)
  }

  /** imm[12|10:5] in bits 31:25 and imm[4:1|11] in bits 11:7. */
  function ImmB(w: Word): int {
    SignExtend(Funct7(w) / 64 * 4096 + Rd(w) % 2 * 2048 + Funct7(w) % 64 * 32 + Rd(w) / 2 * 2, 4096)
  }

  function UpperU(w: Word): int {
    w / 4096
  }

  /** imm[20|10:1|11|19:12] in bits 31:12. */
  function ImmJ(w: Word): int {
    SignExtend(w / 0x8000_0000 * 1048576 + w / 4096 % 256 * 4096 + w / 1048576 % 2 * 2048 + w / 2097152 % 1024 * 2,
               1048576)
  }

  function DecodeR(funct3: int, funct7: int): Option<RFun> {
    if funct7 == 0 then
      if funct3 == 0 then Some(ADD) else if funct3 == 1 then Some(SLL) else if funct3 == 5 then Some(SRL)
      else if funct3 == 6 then Some(OR) else if funct3 == 7 then Some(AND) else None
    else if funct7 == 32 && funct3 == 0 then Some(SUB)
    else if funct7 == 1 && funct3 == 0 then Some(MUL)
    else None
  }

  function DecodeI(funct3: int): Option<IFun> {
    if funct3 == 0 then Some(ADDI) else if funct3 == 3 then Some(SLTIU) else None
  }

  function DecodeLoad(funct3: int): Option<LoadFun> {
    if funct3 == 0 then Some(LB) else if funct3 == 2 then Some(LW) else None
  }

  function DecodeStore(funct3: int): Option<StoreFun> {
    if funct3 == 0 then Some(SB) else if funct3 == 2 then Some(SW) else None
  }

  function DecodeBranch(funct3: int): Option<BranchFun> {
    if funct3 == 0 then Some(BEQ) else if funct3 == 1 then Some(BNE)
    else if funct3 == 4 then Some(BLT) else if funct3 == 5 then Some(BGE) else None
  }

  function Decode(w: Word): Option<Rv> {
    match Opcode(w)
    case 51 =>
      (match DecodeR(Funct3(w), Funct7(w)) case Some(f) => Some(R(f, Rd(w), Rs1(w), Rs2(w))) case None => None)
    case 19 =>
      (match DecodeI(Funct3(w)) case Some(f) => Some(I(f, Rd(w), Rs1(w), ImmI(w))) case None => None)
    case 3 =>
      (match DecodeLoad(Funct3(w)) case Some(f) => Some(Ld(f, Rd(w), Rs1(w), ImmI(w))) case None => None)
    case 35 =>
      (match DecodeStore(Funct3(w)) case Some(f) => Some(St(f, Rs2(w), Rs1(w), ImmS(w))) case None => None)
    case 99 =>
      (match DecodeBranch(Funct3(w)) case Some(f) => Some(Br(f, Rs1(w), Rs2(w), ImmB(w))) case None => None)
    case 111 => Some(Jal(Rd(w), ImmJ(w)))
    case 103 => if Funct3(w) == 0 then Some(Jalr(Rd(w), Rs1(w), ImmI(w))) else None
    case 55 => Some(Lui(Rd(w), UpperU(w)))
    case 23 => Some(Auipc(Rd(w), UpperU(w)))
    case _ => None
  }

  // ----- execution -----

  datatype Machine = Machine(pc: int, x: seq<Word>, mem: Mem)

  function X(m: Machine, r: int): Word {
    if 0 <= r < |m.x| then m.x[r] else 0
  }

  /** Writes to x0 are ignored. */
  function SetX(m: Machine, r: int, v: Word): Machine {
    if 0 < r < |m.x| then m.(x := m.x[r := v]) else m
  }

  function AluR(f: RFun, a: Word, b: Word): Word {
    match f
    case ADD => Wrap(a + b)
    case SUB => Wrap(a - b)
    case SLL => Shl(a, b % 32)
    case SRL => Shr(a, b % 32)
    case OR => Or(a, b)
    case AND => And(a, b)
    case MUL => Wrap(a * b)
  }

  function Taken(f: BranchFun, a: Word, b: Word): bool {
    match f
    case BEQ => a == b
    case BNE => a != b
    case BLT => Signed(a) < Signed(b)
    case BGE => Signed(a) >= Signed(b)
  }

  ghost function Execute(ins: Rv, m: Machine): Machine {
    var next := m.(pc := m.pc + 4);
    match ins
    case R(f, rd, rs1, rs2) => SetX(next, rd, AluR(f, X(m, rs1), X(m, rs2)))
    case I(f, rd, rs1, imm) =>
      SetX(next, rd, match f
                     case ADDI => Wrap(X(m, rs1) + imm)
                     case SLTIU => if X(m, rs1) < Wrap(imm) then 1 else 0)
    case Ld(f, rd, rs1, imm) =>
      var a := Wrap(X(m, rs1) + imm);
      SetX(next, rd, match f case LB => LoadByte(m.mem, a, true) case LW => LoadWord(m.mem, a))
    case St(f, rs2, rs1, imm) =>
      var a := Wrap(X(m, rs1) + imm);
      var v := X(m, rs2);
      next.(mem := match f case SB => StoreByte(m.mem, a, v) case SW => StoreWord(m.mem, a, v))
    case Br(f, rs1, rs2, imm) => if Taken(f, X(m, rs1), X(m, rs2)) then m.(pc := m.pc + imm) else next
    case Jal(rd, imm) => SetX(m.(pc := m.pc + imm), rd, Wrap(m.pc + 4))
    case Jalr(rd, rs1, imm) =>
      var t := Wrap(X(m, rs1) + imm);
      SetX(m.(pc := t - t % 2), rd, Wrap(m.pc + 4))
    case Lui(rd, upper) => SetX(next, rd, Wrap(4096 * upper))
    case Auipc(rd, upper) => SetX(next, rd, Wrap(m.pc + 4096 * upper))
  }

  ghost function Step(code: Code, m: Machine): Option<Machine> {
    match Fetch(code, m.pc)
    case None => None
    case Some(w) =>
      match Decode(w)
      case None => None
      case Some(ins) => Some(Execute(ins, m))
  }

  ghost function Stepper(code: Code): Machine -> Option<Machine> {
    m => Step(code, m)
  }
}
