/** The RISC-V instruction encoders, and that the ISA's decoder inverts them. */
module RiscvEncode {
  import opened Words
  import opened RiscvIsa

  // Operation codes: the opcode with funct3 at bit 12 and funct7 at bit 25.
  const RI_ADD := 51
  const RI_SUB := 1073741875
  const RI_OR := 24627
  const RI_AND := 28723
  const RI_SLL := 4147
  const RI_SRL := 20531
  const RI_ADDI := 19
  const RI_SLTIU := 12307
  const RI_LB := 3
  const RI_LW := 8195
  const RI_SB := 35
  const RI_SW := 8227
  const RI_BEQ := 99
  const RI_BNE := 4195
  const RI_BLT := 16483
  const RI_BGE := 20579
  const RI_JAL := 111
  const RI_JALR := 103
  const RI_LUI := 55
  const RI_AUIPC := 23
  const RI_MUL := 33554483

  /** Copies the bits of `imm` from position `from` on, as many as `count` (a power of two) distinguishes, to the place
      of value `to`. */
  function ExtractBits(imm: int, from: int, count: int, to: int): int
    requires from > 0 && count > 0
  {
    imm / from % count * to
  }

  /** The upper part of a value that a following ADDI completes: rounded up when the low twelve bits are negative. */
  function Hi(val: int): int {
    if val / 2048 % 2 != 0 then val + 4096 else val
  }

  function Lo(val: int): int {
    if val / 2048 % 2 != 0 then val % 4096 - 4096 else val % 4096
  }

  function EncodeR(op: int, rd: int, rs1: int, rs2: int): Word {
    Wrap(op + rd * 128 + rs1 * 32768 + rs2 * 1048576)
  }

  /** None where the source stops with "Offset too large". */
  function EncodeI(op: int, rd: int, rs1: int, imm: int): Option<Word> {
    if imm > 2047 || imm < -2048 then None
    else
      var field := if imm < 0 then (imm + 4096) % 8192 else imm;
      Some(Wrap(op + rd * 128 + rs1 * 32768 + field * 1048576))
  }

  function EncodeS(op: int, rs1: int, rs2: int, imm: int): Option<Word> {
    if imm > 2047 || imm < -2048 then None
    else
      var field := if imm < 0 then (imm + 4096) % 8192 else imm;
      Some(Wrap(op + rs1 * 32768 + rs2 * 1048576 + ExtractBits(field, 1, 32, 128)
                + ExtractBits(field, 32, 128, 33554432)))
  }

  function EncodeB(op: int, rs1: int, rs2: int, imm: int): Option<Word> {
    if imm > 4095 || imm < -4096 then None
    else
      var sign := if imm < 0 then 1 else 0;
      Some(Wrap(op + rs1 * 32768 + rs2 * 1048576 + ExtractBits(imm, 2048, 2, 128) + ExtractBits(imm, 2, 16, 256)
                + ExtractBits(imm, 32, 64, 33554432) + sign * 0x8000_0000))
  }

  /** The range of the offset is not checked. */
  function EncodeJ(op: int, rd: int, imm: int): Word {
    var sign := if imm < 0 then 1 else 0;
    var field := if imm < 0 then 2097152 - (-imm) else imm;
    Wrap(op + rd * 128 + ExtractBits(field, 2, 1024, 2097152) + ExtractBits(field, 2048, 2, 1048576)
         + ExtractBits(field, 4096, 256, 4096) + sign * 0x8000_0000)
  }

  function EncodeU(op: int, rd: int, imm: int): Word {
    Wrap(op + rd * 128 + ExtractBits(imm, 4096, 1048576, 4096))
  }

  function OpR(f: RFun): int {
    match f
    case ADD => RI_ADD case SUB => RI_SUB case SLL => RI_SLL case SRL => RI_SRL
    case OR => RI_OR case AND => RI_AND case MUL => RI_MUL
  }

  function OpB(f: BranchFun): int {
    match f case BEQ => RI_BEQ case BNE => RI_BNE case BLT => RI_BLT case BGE => RI_BGE
  }

  /** The encoder wrapper of each instruction.  LUI and AUIPC take a full value and keep its upper bits. */
  function Assemble(ins: Rv): Option<Word> {
    match ins
    case R(f, rd, rs1, rs2) => Some(EncodeR(OpR(f), rd, rs1, rs2))
    case I(f, rd, rs1, imm) => EncodeI(if f == ADDI then RI_ADDI else RI_SLTIU, rd, rs1, imm)
    case Ld(f, rd, rs1, imm) => EncodeI(if f == LB then RI_LB else RI_LW, rd, rs1, imm)
    case St(f, rs2, rs1, imm) => EncodeS(if f == SB then RI_SB else RI_SW, rs1, rs2, imm)
    case Br(f, rs1, rs2, imm) => EncodeB(OpB(f), rs1, rs2, imm)
    case Jal(rd, imm) => Some(EncodeJ(RI_JAL, rd, imm))
    case Jalr(rd, rs1, imm) => EncodeI(RI_JALR, rd, rs1, imm)
    case Lui(rd, upper) => Some(EncodeU(RI_LUI, rd, upper * 4096))
    case Auipc(rd, upper) => Some(EncodeU(RI_AUIPC, rd, upper * 4096))
  }

  predicate IsReg(r: int) {
    0 <= r < 32
  }

  /** What an encoder silently assumes of its operands. */
  predicate Legal(ins: Rv) {
    match ins
    case R(f, rd, rs1, rs2) => IsReg(rd) && IsReg(rs1) && IsReg(rs2)
    case I(f, rd, rs1, imm) => IsReg(rd) && IsReg(rs1)
    case Ld(f, rd, rs1, imm) => IsReg(rd) && IsReg(rs1)
    case St(f, rs2, rs1, imm) => IsReg(rs1) && IsReg(rs2)
    case Br(f, rs1, rs2, imm) => IsReg(rs1) && IsReg(rs2) && imm % 2 == 0
    case Jal(rd, imm) => IsReg(rd) && imm % 2 == 0 && -1048576 <= imm < 1048576
    case Jalr(rd, rs1, imm) => IsReg(rd) && IsReg(rs1)
    case Lui(rd, upper) => IsReg(rd) && 0 <= upper < 1048576
    case Auipc(rd, upper) => IsReg(rd) && 0 <= upper < 1048576
  }

  /** Every field of a word put together from fields comes back. */
  lemma Fields(w: Word, opcode: int, rd: int, funct3: int, rs1: int, rs2: int, funct7: int)
    requires 0 <= opcode < 128 && IsReg(rd) && 0 <= funct3 < 8 && IsReg(rs1) && IsReg(rs2) && 0 <= funct7 < 128
    requires w == opcode + 128 * (rd + 32 * (funct3 + 8 * (rs1 + 32 * (rs2 + 32 * funct7))))
    ensures Opcode(w) == opcode && Rd(w) == rd && Funct3(w) == funct3
    ensures Rs1(w) == rs1 && Rs2(w) == rs2 && Funct7(w) == funct7
    ensures w / 1048576 == rs2 + 32 * funct7
    ensures w / 4096 == funct3 + 8 * (rs1 + 32 * (rs2 + 32 * funct7))
  {
    var w5 := rs2 + 32 * funct7;
    var w4 := rs1 + 32 * w5;
    var w3 := funct3 + 8 * w4;
    var w2 := rd + 32 * w3;
    assert w / 128 == w2;
    assert w / 4096 == w3;
    assert w / 32768 == w4;
    assert w / 1048576 == w5;
    assert w / 33554432 == funct7;
  }

  // Operation codes split into their fields.
  predicate IsOp(op: int, opcode: int, funct3: int, funct7: int) {
    0 <= opcode < 128 && 0 <= funct3 < 8 && 0 <= funct7 < 128
    && op == opcode + 4096 * funct3 + 33554432 * funct7
  }

  lemma EncodeRFields(op: int, opcode: int, funct3: int, funct7: int, rd: int, rs1: int, rs2: int)
    requires IsOp(op, opcode, funct3, funct7) && IsReg(rd) && IsReg(rs1) && IsReg(rs2)
    ensures var w := EncodeR(op, rd, rs1, rs2);
            Opcode(w) == opcode && Rd(w) == rd && Funct3(w) == funct3 && Rs1(w) == rs1 && Rs2(w) == rs2
            && Funct7(w) == funct7
  {
    Fields(EncodeR(op, rd, rs1, rs2), opcode, rd, funct3, rs1, rs2, funct7);
  }

  lemma EncodeIFields(op: int, opcode: int, funct3: int, rd: int, rs1: int, imm: int)
    requires IsOp(op, opcode, funct3, 0) && IsReg(rd) && IsReg(rs1)
    ensures EncodeI(op, rd, rs1, imm).Some? <==> -2048 <= imm < 2048
    ensures EncodeI(op, rd, rs1, imm).Some? ==>
              var w := EncodeI(op, rd, rs1, imm).value;
              Opcode(w) == opcode && Rd(w) == rd && Funct3(w) == funct3 && Rs1(w) == rs1 && ImmI(w) == imm
  {
    if -2048 <= imm < 2048 {
      var field := if imm < 0 then imm + 4096 else imm;
      assert (imm + 4096) % 8192 == imm + 4096;
      Fields(EncodeI(op, rd, rs1, imm).value, opcode, rd, funct3, rs1, field % 32, field / 32);
    }
  }

  lemma EncodeSFields(op: int, opcode: int, funct3: int, rs1: int, rs2: int, imm: int)
    requires IsOp(op, opcode, funct3, 0) && IsReg(rs1) && IsReg(rs2)
    ensures EncodeS(op, rs1, rs2, imm).Some? <==> -2048 <= imm < 2048
    ensures EncodeS(op, rs1, rs2, imm).Some? ==>
              var w := EncodeS(op, rs1, rs2, imm).value;
              Opcode(w) == opcode && Funct3(w) == funct3 && Rs1(w) == rs1 && Rs2(w) == rs2 && ImmS(w) == imm
  {
    if -2048 <= imm < 2048 {
      var field := if imm < 0 then imm + 4096 else imm;
      var low, high := field % 32, field / 32;
      assert (imm + 4096) % 8192 == imm + 4096;
      assert high % 128 == high;
      var w := EncodeS(op, rs1, rs2, imm).value;
      assert w == op + rs1 * 32768 + rs2 * 1048576 + low * 128 + high * 33554432;
      Fields(w, opcode, low, funct3, rs1, rs2, high);
      assert high * 32 + low == field;
    }
  }

  lemma BranchBits(imm: int)
    requires -4096 <= imm < 4096
    ensures var sign := if imm < 0 then 1 else 0;
            sign * 4096 + imm / 2048 % 2 * 2048 + imm / 32 % 64 * 32 + imm / 2 % 16 * 2 == imm - imm % 2 + sign * 8192
  {
    var sign := if imm < 0 then 1 else 0;
    var f := imm + 8192 * sign;
    assert imm / 2 == 16 * (imm / 32) + imm / 2 % 16;
    assert imm / 32 == 64 * (imm / 2048) + imm / 32 % 64;
    assert imm / 2048 == 2 * (imm / 4096) + imm / 2048 % 2;
    assert imm / 4096 == -sign;
  }

  lemma EncodeBFields(op: int, opcode: int, funct3: int, rs1: int, rs2: int, imm: int)
    requires IsOp(op, opcode, funct3, 0) && IsReg(rs1) && IsReg(rs2)
    ensures EncodeB(op, rs1, rs2, imm).Some? <==> -4096 <= imm < 4096
    ensures EncodeB(op, rs1, rs2, imm).Some? ==>
              var w := EncodeB(op, rs1, rs2, imm).value;
              Opcode(w) == opcode && Funct3(w) == funct3 && Rs1(w) == rs1 && Rs2(w) == rs2 && ImmB(w) == imm - imm % 2
  {
    if -4096 <= imm < 4096 {
      var sign := if imm < 0 then 1 else 0;
      var b11, b4, b10 := imm / 2048 % 2, imm / 2 % 16, imm / 32 % 64;
      var low := b4 * 2 + b11;
      var high := sign * 64 + b10;
      var w := EncodeB(op, rs1, rs2, imm).value;
      Fields(w, opcode, low, funct3, rs1, rs2, high);
      RemainderUnique(high, 64, sign, b10);
      RemainderUnique(low, 2, b4, b11);
      assert ImmB(w) == SignExtend(sign * 4096 + b11 * 2048 + b10 * 32 + b4 * 2, 4096);
      BranchBits(imm);
    }
  }

  /** A word whose upper twenty bits are `u`. */
  lemma FieldsU(w: Word, opcode: int, rd: int, u: int)
    requires 0 <= opcode < 128 && IsReg(rd) && 0 <= u < 1048576
    requires w == opcode + 128 * rd + 4096 * u
    ensures Opcode(w) == opcode && Rd(w) == rd && w / 4096 == u
  {
    assert w / 128 == rd + 32 * u;
  }

  lemma EncodeUFields(op: int, rd: int, imm: int)
    requires IsOp(op, op, 0, 0) && IsReg(rd)
    ensures var w := EncodeU(op, rd, imm);
            Opcode(w) == op && Rd(w) == rd && UpperU(w) == imm / 4096 % 1048576
  {
    FieldsU(EncodeU(op, rd, imm), op, rd, imm / 4096 % 1048576);
  }

  lemma JumpBits(f: int)
    requires 0 <= f < 2097152
    ensures f == f / 1048576 * 1048576 + f / 4096 % 256 * 4096 + f / 2048 % 2 * 2048 + f / 2 % 1024 * 2 + f % 2
  {
    assert f / 2 == 1024 * (f / 2048) + f / 2 % 1024;
    assert f / 2048 == 2 * (f / 4096) + f / 2048 % 2;
    assert f / 4096 == 256 * (f / 1048576) + f / 4096 % 256;
  }

  lemma FieldsJ(w: Word, op: int, rd: int, b19: int, b11: int, b10: int, sign: int)
    requires 0 <= op < 128 && IsReg(rd) && 0 <= b19 < 256 && 0 <= b11 < 2 && 0 <= b10 < 1024 && 0 <= sign < 2
    requires w == op + 128 * (rd + 32 * (b19 + 256 * (b11 + 2 * (b10 + 1024 * sign))))
    ensures Opcode(w) == op && Rd(w) == rd
    ensures ImmJ(w) == SignExtend(sign * 1048576 + b19 * 4096 + b11 * 2048 + b10 * 2, 1048576)
  {
    var u2 := b10 + 1024 * sign;
    var u1 := b11 + 2 * u2;
    var u := b19 + 256 * u1;
    FieldsU(w, op, rd, u);
    RemainderUnique(u, 256, u1, b19);
    RemainderUnique(u1, 2, u2, b11);
    RemainderUnique(u2, 1024, sign, b10);
    RemainderUnique(w, 1048576, u1, op + 128 * rd + 4096 * b19);
    RemainderUnique(w, 2097152, u2, op + 128 * rd + 4096 * b19 + 1048576 * b11);
    RemainderUnique(w, 0x8000_0000, sign, op + 128 * rd + 4096 * b19 + 1048576 * b11 + 2097152 * b10);
  }

  lemma EncodeJFields(op: int, rd: int, imm: int)
    requires IsOp(op, op, 0, 0) && IsReg(rd) && imm % 2 == 0 && -1048576 <= imm < 1048576
    ensures var w := EncodeJ(op, rd, imm);
            Opcode(w) == op && Rd(w) == rd && ImmJ(w) == imm
  {
    var sign := if imm < 0 then 1 else 0;
    var f := imm + 2097152 * sign;
    var b10, b11, b19 := f / 2 % 1024, f / 2048 % 2, f / 4096 % 256;
    var w := EncodeJ(op, rd, imm);
    assert w == op + rd * 128 + b10 * 2097152 + b11 * 1048576 + b19 * 4096 + sign * 0x8000_0000;
    FieldsJ(w, op, rd, b19, b11, b10, sign);
    JumpParts(imm, sign);
  }

  lemma JumpParts(imm: int, sign: int)
    requires imm % 2 == 0 && -1048576 <= imm < 1048576 && sign == if imm < 0 then 1 else 0
    ensures var f := imm + 2097152 * sign;
            SignExtend(sign * 1048576 + f / 4096 % 256 * 4096 + f / 2048 % 2 * 2048 + f / 2 % 1024 * 2, 1048576) == imm
  {
    var f := imm + 2097152 * sign;
    assert f / 1048576 == sign;
    assert f % 2 == 0;
    JumpBits(f);
  }

  lemma DecodeAssembledR(f: RFun, rd: int, rs1: int, rs2: int)
    requires IsReg(rd) && IsReg(rs1) && IsReg(rs2)
    ensures Decode(EncodeR(OpR(f), rd, rs1, rs2)) == Some(R(f, rd, rs1, rs2))
  {
    var funct3 := if f == SLL then 1 else if f == SRL then 5 else if f == OR then 6 else if f == AND then 7 else 0;
    var funct7 := if f == SUB then 32 else if f == MUL then 1 else 0;
    EncodeRFields(OpR(f), 51, funct3, funct7, rd, rs1, rs2);
  }

  lemma DecodeAssembledB(f: BranchFun, rs1: int, rs2: int, imm: int)
    requires IsReg(rs1) && IsReg(rs2) && imm % 2 == 0
    requires EncodeB(OpB(f), rs1, rs2, imm).Some?
    ensures Decode(EncodeB(OpB(f), rs1, rs2, imm).value) == Some(Br(f, rs1, rs2, imm))
  {
    var funct3 := match f case BEQ => 0 case BNE => 1 case BLT => 4 case BGE => 5;
    EncodeBFields(OpB(f), 99, funct3, rs1, rs2, imm);
  }

  lemma DecodeAssembledI(ins: Rv)
    requires ins.I? || ins.Ld? || ins.Jalr?
    requires Legal(ins) && Assemble(ins).Some?
    ensures Decode(Assemble(ins).value) == Some(ins)
  {
    match ins
    case I(f, rd, rs1, imm) =>
      EncodeIFields(if f == ADDI then RI_ADDI else RI_SLTIU, 19, if f == ADDI then 0 else 3, rd, rs1, imm);
    case Ld(f, rd, rs1, imm) =>
      EncodeIFields(if f == LB then RI_LB else RI_LW, 3, if f == LB then 0 else 2, rd, rs1, imm);
    case Jalr(rd, rs1, imm) => EncodeIFields(RI_JALR, 103, 0, rd, rs1, imm);
  }

  lemma DecodeAssembledS(f: StoreFun, rs2: int, rs1: int, imm: int)
    requires IsReg(rs1) && IsReg(rs2) && Assemble(St(f, rs2, rs1, imm)).Some?
    ensures Decode(Assemble(St(f, rs2, rs1, imm)).value) == Some(St(f, rs2, rs1, imm))
  {
    EncodeSFields(if f == SB then RI_SB else RI_SW, 35, if f == SB then 0 else 2, rs1, rs2, imm);
  }

  lemma DecodeAssembledJ(rd: int, imm: int)
    requires Legal(Jal(rd, imm))
    ensures Decode(EncodeJ(RI_JAL, rd, imm)) == Some(Jal(rd, imm))
  {
    EncodeJFields(RI_JAL, rd, imm);
  }

  lemma DecodeAssembledU(op: int, rd: int, upper: int)
    requires op == RI_LUI || op == RI_AUIPC
    requires IsReg(rd) && 0 <= upper < 1048576
    ensures Decode(EncodeU(op, rd, upper * 4096)) == Some(if op == RI_LUI then Lui(rd, upper) else Auipc(rd, upper))
  {
    UpperBack(upper);
    var w := EncodeU(op, rd, upper * 4096);
    assert Opcode(w) == op && Rd(w) == rd && UpperU(w) == upper by {
      EncodeUFields(op, rd, upper * 4096);
    }
  }

  lemma UpperBack(upper: int)
    requires 0 <= upper < 1048576
    ensures upper * 4096 / 4096 % 1048576 == upper
  {
    RemainderUnique(upper * 4096, 4096, upper, 0);
  }

  /** The ISA's decoder takes every assembled instruction back to itself, operands and immediate included. */
  lemma DecodeAssembled(ins: Rv)
    requires Legal(ins) && Assemble(ins).Some?
    ensures Decode(Assemble(ins).value) == Some(ins)
  {
    match ins
    case R(f, rd, rs1, rs2) => DecodeAssembledR(f, rd, rs1, rs2);
    case St(f, rs2, rs1, imm) => DecodeAssembledS(f, rs2, rs1, imm);
    case Br(f, rs1, rs2, imm) => DecodeAssembledB(f, rs1, rs2, imm);
    case Jal(rd, imm) => DecodeAssembledJ(rd, imm);
    case Lui(rd, upper) => DecodeAssembledU(RI_LUI, rd, upper);
    case Auipc(rd, upper) => DecodeAssembledU(RI_AUIPC, rd, upper);
    case _ => DecodeAssembledI(ins);
  }

  /** The 20 bits LUI and AUIPC keep of a value. */
  function Upper(val: int): int {
    val / 4096 % 1048576
  }

  /** The pair lui/addi (or auipc/addi) built with Hi and Lo adds up to the value for every 32-bit value, and the low
      part always fits ADDI's immediate. */
  lemma HiLo(val: int, base: int)
    ensures -2048 <= Lo(val) < 2048
    ensures Wrap(Wrap(base + 4096 * Upper(Hi(val))) + Lo(val)) == Wrap(base + val)
    ensures forall op, rd :: EncodeU(op, rd, Hi(val)) == EncodeU(op, rd, 4096 * Upper(Hi(val)))
  {
    var h, u := Hi(val), Upper(Hi(val));
    LoSpec(val);
    var q := h / 4096 / 1048576;
    assert h / 4096 == 1048576 * q + u;
    WrapWrap(base + 4096 * u, Lo(val));
    assert base + val == base + 4096 * u + Lo(val) + 0x1_0000_0000 * q;
    WrapPeriod(base + 4096 * u + Lo(val), q);
    assert 4096 * u / 4096 % 1048576 == u;
  }

  lemma LoSpec(val: int)
    ensures val == 4096 * (Hi(val) / 4096) + Lo(val)
    ensures -2048 <= Lo(val) < 2048
  {
    var r := val % 4096;
    assert val == 4096 * (val / 4096) + r;
    assert val / 2048 == 2 * (val / 4096) + r / 2048;
  }
}
