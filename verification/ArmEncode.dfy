/** The ARM instruction encoders, the rotated immediates, and that the ISA's decoder inverts the encoders. */
module ArmEncode {
  import opened Words
  import opened ArmIsa

  function CondCode(c: Cond): int {
    match c case EQ => 0 case NE => 1 case GE => 10 case LT => 11 case GT => 12 case LE => 13 case AL => 14
  }

  function DpCode(dp: DpOp): int {
    match dp
    case AND => 0 case SUB => 2 case RSB => 3 case ADD => 4 case TEQ => 9 case CMP => 10 case ORR => 12 case MOV => 13
  }

  function Encode(cond: int, opcode: int, rn: int, rd: int, op2: int): Word {
    Wrap(cond * 0x1000_0000 + opcode * 0x10_0000 + rn * 0x1_0000 + rd * 0x1000 + op2)
  }

  // ----- rotated immediates -----

  /** What the loop of the encoder leaves: the value with all factors of four taken out, and the rotation left. */
  function TakeOut(op2: nat, shift: int): (int, int)
    requires op2 > 0
  {
    if op2 % 4 == 0 then TakeOut(op2 / 4, shift - 1) else (op2, shift)
  }

  /** The twelve-bit operand: a rotation and eight bits; None where the source stops with "Unable to represent value".
      A negative value is not noticed, and only its low byte is encoded. */
  function Operand(op2: int): Option<int> {
    if op2 > 255 then
      var (v, shift) := TakeOut(op2, 16);
      if v > 255 then None else Some(shift * 256 + v)
    else Some(op2 % 256)
  }

  method EncodeOperand(op2: int) returns (r: Option<int>)
    ensures r == Operand(op2)
  {
    var v, shift := op2, 0;
    if v > 255 {
      shift := 16;
      while v % 4 == 0
        invariant v > 0
        invariant TakeOut(v, shift) == TakeOut(op2, 16)
        decreases v
      {
        v := v / 4;
        shift := shift - 1;
      }
      if v > 255 {
        return None;
      }
    }
    r := Some(shift * 256 + v % 256);
  }

  lemma {:induction false} TakeOutSpec(op2: nat, shift: int) returns (k: nat)
    requires op2 > 0
    ensures var (v, sh) := TakeOut(op2, shift);
            v > 0 && v % 4 != 0 && op2 == v * Pow2(2 * k) && sh == shift - k
  {
    if op2 % 4 == 0 {
      var j := TakeOutSpec(op2 / 4, shift - 1);
      k := j + 1;
      var v := TakeOut(op2, shift).0;
      assert op2 == 4 * (v * Pow2(2 * j));
      assert Pow2(2 * k) == 4 * Pow2(2 * j);
      MulSwap(v, Pow2(2 * j));
    } else {
      k := 0;
    }
  }

  lemma MulSwap(v: int, p: int)
    ensures 4 * (v * p) == v * (4 * p)
  {
  }

  /** Some number of eight bits, shifted left by an even amount. */
  ghost predicate Representable(op2: nat) {
    exists b: nat, k: nat :: b <= 255 && IsShifted(op2, b, k)
  }

  ghost predicate IsShifted(op2: nat, b: nat, k: nat) {
    op2 == b * Pow2(2 * k)
  }

  /** Taking more factors of four out of the same value leaves less. */
  lemma {:induction false} TakeOutLeast(op2: nat, shift: int, b: nat, k: nat)
    requires op2 > 0 && op2 == b * Pow2(2 * k)
    ensures TakeOut(op2, shift).0 <= b
  {
    if k == 0 {
      TakeOutShrinks(op2, shift);
    } else {
      var q := b * Pow2(2 * (k - 1));
      assert Pow2(2 * k) == 4 * Pow2(2 * (k - 1));
      MulSwap(b, Pow2(2 * (k - 1)));
      assert op2 == 4 * q;
      TakeOutLeast(q, shift - 1, b, k - 1);
    }
  }

  lemma {:induction false} TakeOutShrinks(op2: nat, shift: int)
    requires op2 > 0
    ensures TakeOut(op2, shift).0 <= op2
  {
    if op2 % 4 == 0 {
      TakeOutShrinks(op2 / 4, shift - 1);
    }
  }

  /** The encoder accepts a non-negative value exactly when it is eight bits shifted by an even amount. */
  lemma OperandExists(op2: nat)
    ensures Operand(op2).Some? <==> Representable(op2)
  {
    if op2 <= 255 {
      assert Pow2(0) == 1;
      assert IsShifted(op2, op2, 0);
    } else {
      var k := TakeOutSpec(op2, 16);
      var v := TakeOut(op2, 16).0;
      if v <= 255 {
        assert IsShifted(op2, v, k);
      }
      if Representable(op2) {
        var b: nat, j: nat :| b <= 255 && IsShifted(op2, b, j);
        TakeOutLeast(op2, 16, b, j);
      }
    }
  }

  lemma {:induction false} Pow2Add(a: nat, b: nat)
    ensures Pow2(a + b) == Pow2(a) * Pow2(b)
  {
    if a > 0 {
      Pow2Add(a - 1, b);
      assert Pow2(a + b) == 2 * (Pow2(a - 1) * Pow2(b));
    }
  }

  lemma MulLess(a: int, b: int, c: int)
    requires c > 0 && a * c < b * c
    ensures a < b
  {
  }

  /** A product below 2^31 with a factor 2^(2k) leaves k at most 15. */
  lemma ShiftBound(op2: nat, v: nat, k: nat)
    requires v > 0 && op2 == v * Pow2(2 * k) && op2 < 0x8000_0000
    ensures k <= 15
  {
    MulAtLeast(Pow2(2 * k), v);
    if k > 15 {
      Pow2Of32();
      Pow2Monotone(32, 2 * k);
    }
  }

  lemma RotateBack(v: nat, k: nat, op2: nat)
    requires 1 <= k <= 16 && op2 == v * Pow2(2 * k) && op2 < 0x1_0000_0000
    ensures RotateRight(v, 32 - 2 * k) == op2
  {
    var n := 32 - 2 * k;
    Pow2Add(n, 2 * k);
    Pow2Of32();
    MulLess(v, Pow2(n), Pow2(2 * k));
    RemainderUnique(v, Pow2(n), 0, v);
  }

  lemma RotateZero(x: nat)
    ensures RotateRight(x, 0) == x
  {
    assert Pow2(0) == 1;
    assert x / 1 == x && x % 1 == 0;
  }

  /** The processor's expansion of the encoded operand is the value. */
  lemma OperandExpands(op2: nat)
    requires op2 < 0x8000_0000 && Operand(op2).Some?
    ensures 0 <= Operand(op2).value < 4096 && ExpandImm(Operand(op2).value) == op2
  {
    hide TakeOut, RotateRight;
    if op2 <= 255 {
      RotateZero(op2);
    } else {
      var k := TakeOutSpec(op2, 16);
      var v := TakeOut(op2, 16).0;
      ShiftBound(op2, v, k);
      assert Pow2(0) == 1;
      var field := Operand(op2).value;
      RemainderUnique(field, 256, 16 - k, v);
      RotateBack(v, k, op2);
    }
  }

  // ----- instructions -----

  function Bit(b: bool): int {
    if b then 1 else 0
  }

  /** Data processing with an immediate (io = 1) or a register (io = 0) as second operand. */
  function EncodeMov(cond: int, io: int, opcode: int, s: int, rn: int, rd: int, op2: int): Option<Word> {
    match Operand(op2)
    case None => None
    case Some(low) => Some(Encode(cond, s + opcode * 2 + io * 32, rn, rd, low))
  }

  /** The immediate of MOVW and MOVT is split into twelve and four bits. */
  function EncodeWide(cond: int, opcode: int, rd: int, imm: int): Word {
    Wrap(Encode(cond, opcode, 0, rd, 0) + imm % 4096 + imm / 4096 % 16 * 0x1_0000)
  }

  function EncodeTransfer(cond: int, load: bool, bytewise: bool, rn: int, rd: int, ofs: int): Word {
    var opcode := 64 + 16 + (if ofs < 0 then 0 else 8) + Bit(load) + (if bytewise then 4 else 0);
    Encode(cond, opcode, rn, rd, (if ofs < 0 then -ofs else ofs) % 4096)
  }

  /** Only the low 24 bits of the word offset are kept. */
  function EncodeBranch(cond: int, link: bool, ofs: int): Word {
    Wrap(Encode(cond, if link then 176 else 160, 0, 0, 0) + (ofs - 8) / 4 % 0x100_0000)
  }

  function Assemble(ins: Arm): Option<Word> {
    match ins
    case DpImm(c, dp, s, rn, rd, imm) => EncodeMov(CondCode(c), 1, DpCode(dp), Bit(s), rn, rd, imm)
    case DpReg(c, dp, s, rn, rd, rm) => EncodeMov(CondCode(c), 0, DpCode(dp), Bit(s), rn, rd, rm)
    case Shift(c, kind, rd, rm, rs) =>
      Some(Encode(CondCode(c), 26, 0, rd, rm + 16 + (if kind.LSR? then 32 else 0) + rs * 256))
    case Movw(c, rd, imm) => Some(EncodeWide(CondCode(c), 48, rd, imm))
    case Movt(c, rd, imm) => Some(EncodeWide(CondCode(c), 52, rd, imm))
    case Mul(c, rd, rn, rm) => Some(Encode(CondCode(c), 0, rd, 0, rm * 256 + 144 + rn))
    case Transfer(c, load, bytewise, rn, rd, ofs) => Some(EncodeTransfer(CondCode(c), load, bytewise, rn, rd, ofs))
    case Branch(c, link, ofs) => Some(EncodeBranch(CondCode(c), link, ofs))
    case BranchLinkReg(c, rm) => Some(Encode(CondCode(c), 18, 15, 15, rm + 3888))
  }

  predicate IsReg(r: int) {
    0 <= r < 16
  }

  /** What an encoder silently assumes of its operands. */
  predicate Legal(ins: Arm) {
    match ins
    case DpImm(c, dp, s, rn, rd, imm) =>
      IsReg(rn) && IsReg(rd) && 0 <= imm < 0x8000_0000 && s == (dp.TEQ? || dp.CMP?)
    case DpReg(c, dp, s, rn, rd, rm) => IsReg(rn) && IsReg(rd) && IsReg(rm) && s == (dp.TEQ? || dp.CMP?)
    case Shift(c, kind, rd, rm, rs) => IsReg(rd) && IsReg(rm) && IsReg(rs)
    case Movw(c, rd, imm) => IsReg(rd) && 0 <= imm < 0x1_0000
    case Movt(c, rd, imm) => IsReg(rd) && 0 <= imm < 0x1_0000
    case Mul(c, rd, rn, rm) => IsReg(rd) && IsReg(rn) && IsReg(rm)
    case Transfer(c, load, bytewise, rn, rd, ofs) => IsReg(rn) && IsReg(rd) && -4096 < ofs < 4096
    case Branch(c, link, ofs) => ofs % 4 == 0 && -0x200_0000 <= ofs - 8 < 0x200_0000
    case BranchLinkReg(c, rm) => IsReg(rm)
  }

  /** Every field of a word put together from fields comes back. */
  lemma Fields(w: Word, cond: int, op: int, rn: int, rd: int, low: int)
    requires 0 <= cond < 16 && 0 <= op < 256 && IsReg(rn) && IsReg(rd) && 0 <= low < 4096
    requires w == cond * 0x1000_0000 + op * 0x10_0000 + rn * 0x1_0000 + rd * 0x1000 + low
    ensures CondBits(w) == cond && OpBits(w) == op && Rn(w) == rn && Rd(w) == rd && Low12(w) == low
  {
    RemainderUnique(w, 0x1000, rd + 16 * (rn + 16 * (op + 256 * cond)), low);
    RemainderUnique(w, 0x1_0000, rn + 16 * (op + 256 * cond), low + 0x1000 * rd);
    RemainderUnique(w, 0x10_0000, op + 256 * cond, low + 0x1000 * rd + 0x1_0000 * rn);
    RemainderUnique(w, 0x1000_0000, cond, low + 0x1000 * rd + 0x1_0000 * rn + 0x10_0000 * op);
    RemainderUnique(rd + 16 * (rn + 16 * (op + 256 * cond)), 16, rn + 16 * (op + 256 * cond), rd);
    RemainderUnique(rn + 16 * (op + 256 * cond), 16, op + 256 * cond, rn);
    RemainderUnique(op + 256 * cond, 256, cond, op);
  }

  lemma EncodeFields(cond: int, op: int, rn: int, rd: int, low: int)
    requires 0 <= cond < 16 && 0 <= op < 256 && IsReg(rn) && IsReg(rd) && 0 <= low < 4096
    ensures var w := Encode(cond, op, rn, rd, low);
            CondBits(w) == cond && OpBits(w) == op && Rn(w) == rn && Rd(w) == rd && Low12(w) == low
  {
    Fields(Encode(cond, op, rn, rd, low), cond, op, rn, rd, low);
  }

  lemma CondBack(c: Cond)
    ensures 0 <= CondCode(c) < 15 && DecodeCond(CondCode(c)) == Some(c)
  {
  }

  lemma DpBack(dp: DpOp, s: bool)
    requires s == (dp.TEQ? || dp.CMP?)
    ensures var op := Bit(s) + DpCode(dp) * 2;
            && 0 <= op < 32 && op / 2 == DpCode(dp) && (op % 2 == 1) == s
            && DecodeDp(op / 2) == Some(dp) && Flagged(dp, op % 2).Some? && op != 16 && op != 20
  {
  }

  lemma DecodeDpImm(c: Cond, dp: DpOp, s: bool, rn: int, rd: int, imm: int)
    requires Legal(DpImm(c, dp, s, rn, rd, imm)) && Operand(imm).Some?
    ensures Decode(EncodeMov(CondCode(c), 1, DpCode(dp), Bit(s), rn, rd, imm).value)
         == Some(DpImm(c, dp, s, rn, rd, imm))
  {
    hide Operand, ExpandImm;
    OperandExpands(imm);
    CondBack(c);
    DpBack(dp, s);
    EncodeFields(CondCode(c), Bit(s) + DpCode(dp) * 2 + 32, rn, rd, Operand(imm).value);
  }

  lemma DecodeDpReg(c: Cond, dp: DpOp, s: bool, rn: int, rd: int, rm: int)
    requires Legal(DpReg(c, dp, s, rn, rd, rm))
    ensures EncodeMov(CondCode(c), 0, DpCode(dp), Bit(s), rn, rd, rm).Some?
    ensures Decode(EncodeMov(CondCode(c), 0, DpCode(dp), Bit(s), rn, rd, rm).value) == Some(DpReg(c, dp, s, rn, rd, rm))
  {
    hide DecodeImm, DecodeTransfer, TakeOut;
    CondBack(c);
    DpBack(dp, s);
    assert rm % 256 == rm && rm / 16 == 0 && rm % 16 == rm;
    EncodeFields(CondCode(c), Bit(s) + DpCode(dp) * 2, rn, rd, rm);
  }

  /** Twelve bits put together from three groups of four. */
  lemma LowBack(low: int, a: int, b: int, c: int)
    requires 0 <= a < 16 && 0 <= b < 16 && 0 <= c < 16 && low == a + 16 * b + 256 * c
    ensures low % 16 == a && low / 16 % 16 == b && low / 256 == c && 0 <= low < 4096
    ensures b > 0 ==> low / 16 != 0
  {
    RemainderUnique(low, 16, b + 16 * c, a);
    RemainderUnique(b + 16 * c, 16, c, b);
    RemainderUnique(low, 256, c, a + 16 * b);
  }

  lemma DecodeShift(c: Cond, kind: ShiftKind, rd: int, rm: int, rs: int)
    requires IsReg(rd) && IsReg(rm) && IsReg(rs)
    ensures Decode(Assemble(Shift(c, kind, rd, rm, rs)).value) == Some(Shift(c, kind, rd, rm, rs))
  {
    hide DecodeImm, DecodeTransfer;
    CondBack(c);
    var low := rm + 16 + (if kind.LSR? then 32 else 0) + rs * 256;
    LowBack(low, rm, if kind.LSR? then 3 else 1, rs);
    EncodeFields(CondCode(c), 26, 0, rd, low);
  }

  lemma DecodeMul(c: Cond, rd: int, rn: int, rm: int)
    requires IsReg(rd) && IsReg(rn) && IsReg(rm)
    ensures Decode(Assemble(Mul(c, rd, rn, rm)).value) == Some(Mul(c, rd, rn, rm))
  {
    hide DecodeImm, DecodeTransfer;
    CondBack(c);
    var low := rm * 256 + 144 + rn;
    LowBack(low, rn, 9, rm);
    EncodeFields(CondCode(c), 0, rd, 0, low);
  }

  lemma DecodeBranchLinkReg(c: Cond, rm: int)
    requires IsReg(rm)
    ensures Decode(Assemble(BranchLinkReg(c, rm)).value) == Some(BranchLinkReg(c, rm))
  {
    hide DecodeImm, DecodeTransfer;
    CondBack(c);
    var low := rm + 3888;
    LowBack(low, rm, 3, 15);
    EncodeFields(CondCode(c), 18, 15, 15, low);
  }

  lemma DecodeWide(c: Cond, opcode: int, rd: int, imm: int)
    requires (opcode == 48 || opcode == 52) && IsReg(rd) && 0 <= imm < 0x1_0000
    ensures Decode(EncodeWide(CondCode(c), opcode, rd, imm))
         == Some(if opcode == 48 then Movw(c, rd, imm) else Movt(c, rd, imm))
  {
    CondBack(c);
    Fields(EncodeWide(CondCode(c), opcode, rd, imm), CondCode(c), opcode, imm / 4096, rd, imm % 4096);
  }

  lemma DecodeTransferred(c: Cond, load: bool, bytewise: bool, rn: int, rd: int, ofs: int)
    requires IsReg(rn) && IsReg(rd) && -4096 < ofs < 4096
    ensures Decode(EncodeTransfer(CondCode(c), load, bytewise, rn, rd, ofs))
         == Some(Transfer(c, load, bytewise, rn, rd, ofs))
  {
    CondBack(c);
    var opcode := 80 + (if ofs < 0 then 0 else 8) + Bit(load) + (if bytewise then 4 else 0);
    var low := if ofs < 0 then -ofs else ofs;
    assert low % 4096 == low;
    EncodeFields(CondCode(c), opcode, rn, rd, low);
  }

  lemma DecodeBranch(c: Cond, link: bool, ofs: int)
    requires ofs % 4 == 0 && -0x200_0000 <= ofs - 8 < 0x200_0000
    ensures Decode(EncodeBranch(CondCode(c), link, ofs)) == Some(Branch(c, link, ofs))
  {
    CondBack(c);
    var o := (ofs - 8) / 4;
    var field := if o < 0 then o + 0x100_0000 else o;
    assert ofs - 8 == 4 * o;
    assert o % 0x100_0000 == field;
    var top := if link then 176 else 160;
    var w := EncodeBranch(CondCode(c), link, ofs);
    assert w == CondCode(c) * 0x1000_0000 + top * 0x10_0000 + field;
    BranchFields(w, CondCode(c), top, field);
  }

  lemma BranchFields(w: Word, cond: int, top: int, field: int)
    requires 0 <= cond < 16 && (top == 160 || top == 176) && 0 <= field < 0x100_0000
    requires w == cond * 0x1000_0000 + top * 0x10_0000 + field
    ensures CondBits(w) == cond && (OpBits(w) >= 176) == (top == 176) && 160 <= OpBits(w) < 192
    ensures w % 0x100_0000 == field
  {
    var a, low := field / 0x1000, field % 0x1000;
    var b, rd := a / 16, a % 16;
    var h, rn := b / 16, b % 16;
    assert field == 0x1000 * a + low && a == 16 * b + rd && b == 16 * h + rn;
    hide CondBits, OpBits, Rn, Rd, Low12;
    Fields(w, cond, top + h, rn, rd, low);
    RemainderUnique(w, 0x100_0000, cond * 16 + (if top == 160 then 10 else 11), field);
  }

  /** The ISA's decoder takes every assembled instruction back to itself, operands and immediate included. */
  lemma DecodeAssembled(ins: Arm)
    requires Legal(ins) && Assemble(ins).Some?
    ensures Decode(Assemble(ins).value) == Some(ins)
  {
    hide Decode;
    match ins
    case DpImm(c, dp, s, rn, rd, imm) => DecodeDpImm(c, dp, s, rn, rd, imm);
    case DpReg(c, dp, s, rn, rd, rm) => DecodeDpReg(c, dp, s, rn, rd, rm);
    case Movw(c, rd, imm) => DecodeWide(c, 48, rd, imm);
    case Movt(c, rd, imm) => DecodeWide(c, 52, rd, imm);
    case Transfer(c, load, bytewise, rn, rd, ofs) => DecodeTransferred(c, load, bytewise, rn, rd, ofs);
    case Branch(c, link, ofs) => DecodeBranch(c, link, ofs);
    case Shift(c, kind, rd, rm, rs) => DecodeShift(c, kind, rd, rm, rs);
    case Mul(c, rd, rn, rm) => DecodeMul(c, rd, rn, rm);
    case BranchLinkReg(c, rm) => DecodeBranchLinkReg(c, rm);
  }

  /** MOVW then MOVT of a value's halves leaves exactly that value, for every 32-bit value. */
  lemma WideHalves(val: int)
    ensures 0 <= val % 0x1_0000 < 0x1_0000 && 0 <= val / 0x1_0000 % 0x1_0000 < 0x1_0000
    ensures WithTop(Wrap(val % 0x1_0000), val / 0x1_0000 % 0x1_0000) == Wrap(val)
  {
    var low, high := val % 0x1_0000, val / 0x1_0000;
    var top, q := high % 0x1_0000, high / 0x1_0000;
    assert low % 0x1_0000 == low;
    assert val == low + 0x1_0000 * top + 0x1_0000_0000 * q by {
      assert val == 0x1_0000 * high + low;
      assert high == 0x1_0000 * q + top;
    }
    WrapPeriod(low + 0x1_0000 * top, q);
  }

  /** The wide encoders look at sixteen bits only. */
  lemma WideTruncates(cond: int, opcode: int, rd: int, val: int)
    ensures EncodeWide(cond, opcode, rd, val) == EncodeWide(cond, opcode, rd, val % 0x1_0000)
  {
    hide Encode;
    var low, high := val % 0x1_0000, val / 0x1_0000;
    var mid, bottom := low / 4096, low % 4096;
    assert val == 0x1_0000 * high + low && low == 4096 * mid + bottom;
    RemainderUnique(val, 4096, 16 * high + mid, bottom);
    RemainderUnique(16 * high + mid, 16, high, mid);
    RemainderUnique(mid, 16, 0, mid);
  }
}
