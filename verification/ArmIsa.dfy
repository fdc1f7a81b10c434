/** The part of ARMv7 the compiler uses, in ARM state: decoding and execution, after the ARM Architecture Reference
    Manual ARMv7-A and ARMv7-R edition (DDI 0406C), chapters A5 and A8.  Should-be-zero fields are ignored. */
module ArmIsa {
  import opened Words
  import opened CodeMemory

  datatype Cond = EQ | NE | GE | LT | GT | LE | AL
  datatype DpOp = AND | SUB | RSB | ADD | TEQ | CMP | ORR | MOV
  datatype ShiftKind = LSL | LSR

  datatype Arm =
    | DpImm(cond: Cond, dp: DpOp, s: bool, rn: int, rd: int, imm: int)
    | DpReg(cond: Cond, dp: DpOp, s: bool, rn: int, rd: int, rm: int)
    | Shift(cond: Cond, kind: ShiftKind, rd: int, rm: int, rs: int)
    | Movw(cond: Cond, rd: int, imm: int)
    | Movt(cond: Cond, rd: int, imm: int)
    | Mul(cond: Cond, rd: int, rn: int, rm: int)
    | Transfer(cond: Cond, load: bool, bytewise: bool, rn: int, rd: int, ofs: int)
    | Branch(cond: Cond, link: bool, ofs: int)
    | BranchLinkReg(cond: Cond, rm: int)

  // ----- fields -----

  function CondBits(w: Word): int { w / 0x1000_0000 }
  function OpBits(w: Word): int { w / 0x10_0000 % 256 }
  function Rn(w: Word): int { w / 0x1_0000 % 16 }
  function Rd(w: Word): int { w / 0x1000 % 16 }
  function Low12(w: Word): int { w % 0x1000 }

  /** Rotation of a 32-bit value to the right. */
  function RotateRight(x: nat, n: nat): int
    requires n <= 32
  {
    x / Pow2(n) + x % Pow2(n) * Pow2(32 - n)
  }

  /** ARMExpandImm (section A5.2.4): eight bits rotated right by twice the four-bit field. */
  function ExpandImm(imm12: int): int
    requires 0 <= imm12 < 4096
  {
    RotateRight(imm12 % 256, 2 * (imm12 / 256))
  }

  function DecodeCond(c: int): Option<Cond> {
    if c == 0 then Some(EQ) else if c == 1 then Some(NE) else if c == 10 then Some(GE) else if c == 11 then Some(LT)
    else if c == 12 then Some(GT) else if c == 13 then Some(LE) else if c == 14 then Some(AL) else None
  }

  function DecodeDp(opcode: int): Option<DpOp> {
    if opcode == 0 then Some(AND) else if opcode == 2 then Some(SUB) else if opcode == 3 then Some(RSB)
    else if opcode == 4 then Some(ADD) else if opcode == 9 then Some(TEQ) else if opcode == 10 then Some(CMP)
    else if opcode == 12 then Some(ORR) else if opcode == 13 then Some(MOV) else None
  }

  /** TEQ and CMP exist only with the S bit; without it their opcodes mean other instructions. */
  function Flagged(dp: DpOp, s: int): Option<DpOp> {
    if (dp.TEQ? || dp.CMP?) == (s == 1) then Some(dp) else None
  }

  function DecodeReg(cond: Cond, op: int, rn: int, rd: int, low: int): Option<Arm>
    requires 0 <= op < 32
  {
    if low / 16 == 0 then
      match DecodeDp(op / 2)
      case None => None
      case Some(dp) => if Flagged(dp, op % 2).Some? then Some(DpReg(cond, dp, op % 2 == 1, rn, rd, low % 16)) else None
    else if op == 26 && low / 16 % 16 == 1 then Some(Shift(cond, LSL, rd, low % 16, low / 256))
    else if op == 26 && low / 16 % 16 == 3 then Some(Shift(cond, LSR, rd, low % 16, low / 256))
    else if op == 0 && low / 16 % 16 == 9 then Some(Mul(cond, rn, low % 16, low / 256))
    else if op == 18 && low / 16 % 16 == 3 then Some(BranchLinkReg(cond, low % 16))
    else None
  }

  function DecodeImm(cond: Cond, op: int, rn: int, rd: int, low: int): Option<Arm>
    requires 32 <= op < 64 && 0 <= low < 4096
  {
    if op == 48 then Some(Movw(cond, rd, rn * 4096 + low))
    else if op == 52 then Some(Movt(cond, rd, rn * 4096 + low))
    else match DecodeDp((op - 32) / 2)
      case None => None
      case Some(dp) =>
        if Flagged(dp, op % 2).Some? then Some(DpImm(cond, dp, op % 2 == 1, rn, rd, ExpandImm(low))) else None
  }

  /** Immediate-offset transfers without write-back: bits 27:20 are 010 1 U B 0 L. */
  function DecodeTransfer(cond: Cond, op: int, rn: int, rd: int, low: int): Option<Arm>
    requires 64 <= op < 96
  {
    if op >= 80 && op / 2 % 2 == 0 then
      Some(Transfer(cond, op % 2 == 1, op / 4 % 2 == 1, rn, rd, if op / 8 % 2 == 1 then low else -low))
    else None
  }

  /** The branch offset counts from eight bytes after the instruction. */
  function BranchOffset(w: Word): int {
    var field := w % 0x100_0000;
    4 * (if field >= 0x80_0000 then field - 0x100_0000 else field) + 8
  }

  function Decode(w: Word): Option<Arm> {
    match DecodeCond(CondBits(w))
    case None => None
    case Some(cond) =>
      var op := OpBits(w);
      if op < 32 then DecodeReg(cond, op, Rn(w), Rd(w), Low12(w))
      else if op < 64 then DecodeImm(cond, op, Rn(w), Rd(w), Low12(w))
      else if op < 96 then DecodeTransfer(cond, op, Rn(w), Rd(w), Low12(w))
      else if 160 <= op < 192 then Some(Branch(cond, op >= 176, BranchOffset(w)))
      else None
  }

  // ----- execution -----

  datatype Flags = Flags(n: bool, z: bool, c: bool, v: bool)

  /** Registers 0 to 14; the program counter is kept apart. */
  datatype Machine = Machine(pc: int, r: seq<Word>, flags: Flags, mem: Mem)

  function R(m: Machine, k: int): Word {
    if 0 <= k < |m.r| then m.r[k] else 0
  }

  function SetR(m: Machine, k: int, v: Word): Machine {
    if 0 <= k < |m.r| then m.(r := m.r[k := v]) else m
  }

  predicate Negative(w: Word) {
    w >= 0x8000_0000
  }

  /** The flags of a subtraction: borrow and signed overflow as the manual's AddWithCarry sets them. */
  function CompareFlags(a: Word, b: Word): Flags {
    var d := Wrap(a - b);
    Flags(Negative(d), d == 0, a >= b, Negative(a) != Negative(b) && Negative(d) != Negative(a))
  }

  /** The flags of an exclusive or with an unrotated operand: carry and overflow are kept. */
  function TestFlags(a: Word, b: Word, f: Flags): Flags {
    f.(n := Negative(a) != Negative(b), z := a == b)
  }

  predicate Holds(c: Cond, f: Flags) {
    match c
    case EQ => f.z
    case NE => !f.z
    case GE => f.n == f.v
    case LT => f.n != f.v
    case GT => !f.z && f.n == f.v
    case LE => f.z || f.n != f.v
    case AL => true
  }

  function DpResult(dp: DpOp, a: Word, b: Word): Word {
    match dp
    case AND => And(a, b)
    case SUB => Wrap(a - b)
    case RSB => Wrap(b - a)
    case ADD => Wrap(a + b)
    case ORR => Or(a, b)
    case MOV => b
    case _ => 0
  }

  /** Register-controlled shifts use the low byte of the count; 32 and more shift everything out. */
  function ShiftResult(kind: ShiftKind, a: Word, count: Word): Word {
    var n := count % 256;
    if n >= 32 then 0 else if kind.LSL? then Shl(a, n) else Shr(a, n)
  }

  ghost function DataProcess(m: Machine, dp: DpOp, rd: int, a: Word, b: Word): Option<Machine> {
    var next := m.(pc := m.pc + 4);
    if dp.CMP? then Some(next.(flags := CompareFlags(a, b)))
    else if dp.TEQ? then Some(next.(flags := TestFlags(a, b, m.flags)))
    else if rd != 15 then Some(SetR(next, rd, DpResult(dp, a, b)))
    else if DpResult(dp, a, b) % 4 == 0 then Some(m.(pc := DpResult(dp, a, b)))
    else None
  }

  /** Upper half replaced, lower half kept. */
  function WithTop(w: Word, top: int): Word {
    Wrap(w % 0x1_0000 + 0x1_0000 * top)
  }

  /** The effect of an instruction whose condition holds; None leaves ARM state or this part of it. */
  ghost function Perform(ins: Arm, m: Machine): Option<Machine> {
    var next := m.(pc := m.pc + 4);
    match ins
    case DpImm(_, dp, _, rn, rd, imm) => DataProcess(m, dp, rd, R(m, rn), Wrap(imm))
    case DpReg(_, dp, _, rn, rd, rm) => DataProcess(m, dp, rd, R(m, rn), R(m, rm))
    case Shift(_, kind, rd, rm, rs) => Some(SetR(next, rd, ShiftResult(kind, R(m, rm), R(m, rs))))
    case Movw(_, rd, imm) => Some(SetR(next, rd, Wrap(imm)))
    case Movt(_, rd, imm) => Some(SetR(next, rd, WithTop(R(m, rd), imm)))
    case Mul(_, rd, rn, rm) => Some(SetR(next, rd, Wrap(R(m, rm) * R(m, rn))))
    case Transfer(_, load, bytewise, rn, rd, ofs) =>
      var a := Wrap(R(m, rn) + ofs);
      if load then Some(SetR(next, rd, if bytewise then LoadByte(m.mem, a, false) else LoadWord(m.mem, a)))
      else Some(next.(mem := if bytewise then StoreByte(m.mem, a, R(m, rd)) else StoreWord(m.mem, a, R(m, rd))))
    case Branch(_, link, ofs) =>
      var there := m.(pc := m.pc + ofs);
      Some(if link then SetR(there, 14, Wrap(m.pc + 4)) else there)
    case BranchLinkReg(_, rm) =>
      if R(m, rm) % 4 == 0 then Some(SetR(m.(pc := R(m, rm)), 14, Wrap(m.pc + 4))) else None
  }

  ghost function Execute(ins: Arm, m: Machine): Option<Machine> {
    if Holds(ins.cond, m.flags) then Perform(ins, m) else Some(m.(pc := m.pc + 4))
  }

  ghost function Step(code: Code, m: Machine): Option<Machine> {
    match Fetch(code, m.pc)
    case None => None
    case Some(w) =>
      match Decode(w)
      case None => None
      case Some(ins) => Execute(ins, m)
  }

  ghost function Stepper(code: Code): Machine -> Option<Machine> {
    m => Step(code, m)
  }

  /** The conditions tested after a CMP are the signed comparisons. */
  lemma ConditionsAreComparisons(a: Word, b: Word)
    ensures var f := CompareFlags(a, b);
            && (Holds(EQ, f) <==> a == b) && (Holds(NE, f) <==> a != b)
            && (Holds(LT, f) <==> Signed(a) < Signed(b)) && (Holds(GE, f) <==> Signed(a) >= Signed(b))
            && (Holds(GT, f) <==> Signed(a) > Signed(b)) && (Holds(LE, f) <==> Signed(a) <= Signed(b))
  {
    var d: int := a - b;
    assert Wrap(d) == if a >= b then d else d + 0x1_0000_0000;
  }
}
