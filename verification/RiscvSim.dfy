/** The RISC-V code emitted for an IL program simulates it, step by step and over whole runs.

    IL register k is x(10+k); the IL's stack pointer, frame pointer and return address are sp, s0 and ra; memory is the
    same; the machine stands at the code address of the IL's current instruction. */
module RiscvSim {
  import opened Words
  import opened Runs
  import opened Il
  import IlMachine
  import opened RiscvIsa
  import opened RiscvEncode
  import opened RiscvBackend
  import opened CodeMemory
  import opened Backend
  import opened Placement

  type Layout = IlMachine.Layout

  ghost predicate Related(L: Layout, s: IlMachine.State, m: Machine) {
    && 0 <= s.pc < |L.offs|
    && m.pc == L.codeStart + L.offs[s.pc]
    && |m.x| == 32 && m.x[0] == 0
    && m.x[RA] == s.ra && m.x[SP] == s.sp && m.x[S0] == s.fp
    && |s.regs| <= 22
    && (forall k :: 0 <= k < |s.regs| ==> s.regs[k] == m.x[10 + k])
    && m.mem == s.mem
  }

  // ----- emitted instructions -----

  ghost predicate EmitsAt(code: Code, off: int, asm: seq<Rv>, k: int)
    requires 0 <= k < |asm|
  {
    Assemble(asm[k]).Some? && Fetch(code, code.start + off + 4 * k) == Assemble(asm[k])
  }

  /** The assembled instructions lie at this offset of the code. */
  ghost predicate Emits(code: Code, off: int, asm: seq<Rv>) {
    forall k :: 0 <= k < |asm| ==> EmitsAt(code, off, asm, k)
  }

  lemma EmitsLowered(P: Program, L: Layout, code: Code, i: int, asm: seq<Rv>)
    requires Placed(Riscv, P, L, code) && 0 <= i < |P.il|
    requires !P.il[i].op.Generic? && !P.il[i].op.Syscall? && !P.il[i].op.Exit?
    requires Lower(P, L, BlockAt(P, i), P.il[i], L.offs[i]) == Some(asm)
    ensures Emits(code, L.offs[i], asm)
    ensures L.offs[i + 1] == L.offs[i] + 4 * |asm|
  {
    assert PlacedAt(Riscv, P, L, code, i) && LengthAt(Riscv, P, L, i);
    LoweredLength(P, L, BlockAt(P, i), P.il[i], L.offs[i]);
    AssembleAllLength(asm);
    var ws := AssembleAll(asm).value;
    forall k | 0 <= k < |asm|
      ensures EmitsAt(code, L.offs[i], asm, k)
    {
      assert WordAt(code, L.offs[i], ws, k);
    }
  }

  lemma AssembledStep(code: Code, m: Machine, ins: Rv, w: Word)
    requires Legal(ins) && Assemble(ins) == Some(w) && Fetch(code, m.pc) == Some(w)
    ensures Step(code, m) == Some(Execute(ins, m))
  {
    DecodeAssembled(ins);
  }

  /** The machine executes the k-th emitted instruction when it stands there. */
  lemma Executes(code: Code, off: int, asm: seq<Rv>, k: int, ins: Rv, m: Machine)
    requires Emits(code, off, asm) && 0 <= k < |asm| && asm[k] == ins && Legal(ins)
    requires m.pc == code.start + off + 4 * k
    ensures Reaches(Stepper(code), m, Execute(ins, m))
  {
    assert EmitsAt(code, off, asm, k);
    AssembledStep(code, m, ins, Assemble(ins).value);
    ReachesStep(Stepper(code), m, Execute(ins, m));
  }

  lemma RunAddi(code: Code, off: int, asm: seq<Rv>, k: int, m: Machine, rd: int, rs1: int, imm: int)
    requires Emits(code, off, asm) && 0 <= k < |asm| && asm[k] == Addi(rd, rs1, imm) && IsReg(rd) && IsReg(rs1)
    requires m.pc == code.start + off + 4 * k
    ensures Reaches(Stepper(code), m, SetX(m.(pc := m.pc + 4), rd, Wrap(X(m, rs1) + imm)))
  {
    Executes(code, off, asm, k, asm[k], m);
  }

  lemma RunLw(code: Code, off: int, asm: seq<Rv>, k: int, m: Machine, rd: int, rs1: int, imm: int)
    requires Emits(code, off, asm) && 0 <= k < |asm| && asm[k] == Lw(rd, rs1, imm) && IsReg(rd) && IsReg(rs1)
    requires m.pc == code.start + off + 4 * k
    ensures Reaches(Stepper(code), m, SetX(m.(pc := m.pc + 4), rd, LoadWord(m.mem, Wrap(X(m, rs1) + imm))))
  {
    Executes(code, off, asm, k, asm[k], m);
  }

  lemma RunSw(code: Code, off: int, asm: seq<Rv>, k: int, m: Machine, rs2: int, rs1: int, imm: int)
    requires Emits(code, off, asm) && 0 <= k < |asm| && asm[k] == Sw(rs2, rs1, imm) && IsReg(rs2) && IsReg(rs1)
    requires m.pc == code.start + off + 4 * k
    ensures Reaches(Stepper(code), m,
                    m.(pc := m.pc + 4, mem := StoreWord(m.mem, Wrap(X(m, rs1) + imm), X(m, rs2))))
  {
    hide Emits, StoreWord, Assemble, Reaches;
    Executes(code, off, asm, k, asm[k], m);
  }

  lemma RunJal(code: Code, off: int, asm: seq<Rv>, k: int, m: Machine, rd: int, imm: int)
    requires Emits(code, off, asm) && 0 <= k < |asm| && asm[k] == Jal(rd, imm) && Legal(asm[k])
    requires m.pc == code.start + off + 4 * k
    ensures Reaches(Stepper(code), m, SetX(m.(pc := m.pc + imm), rd, Wrap(m.pc + 4)))
  {
    Executes(code, off, asm, k, asm[k], m);
  }

  lemma RunJalr(code: Code, off: int, asm: seq<Rv>, k: int, m: Machine, rd: int, rs1: int)
    requires Emits(code, off, asm) && 0 <= k < |asm| && asm[k] == Jalr(rd, rs1, 0) && IsReg(rd) && IsReg(rs1)
    requires m.pc == code.start + off + 4 * k && X(m, rs1) % 2 == 0
    ensures Reaches(Stepper(code), m, SetX(m.(pc := X(m, rs1)), rd, Wrap(m.pc + 4)))
  {
    Executes(code, off, asm, k, asm[k], m);
  }

  // ----- registers -----

  /** Writing IL register d is writing x(10+d). */
  lemma RelatedSet(L: Layout, s: IlMachine.State, m: Machine, d: int, v: Word, pc: int)
    requires Related(L, s, m) && 0 <= d < |s.regs|
    requires 0 <= pc < |L.offs|
    ensures Related(L, s.(pc := pc, regs := s.regs[d := v]), SetX(m.(pc := L.codeStart + L.offs[pc]), 10 + d, v))
  {
  }

  lemma RelatedGet(L: Layout, s: IlMachine.State, m: Machine, d: int)
    requires Related(L, s, m) && 0 <= d < |s.regs|
    ensures X(m, 10 + d) == s.regs[d] && IsReg(10 + d)
  {
  }

  // ----- one IL operation: what its instructions do -----

  /** The machine stands at IL instruction s.pc, whose instructions are asm and whose successor comes right after. */
  ghost predicate Here(L: Layout, code: Code, s: IlMachine.State, m: Machine, asm: seq<Rv>) {
    && Related(L, s, m) && code.start == L.codeStart
    && s.pc + 1 < |L.offs| && L.offs[s.pc + 1] == L.offs[s.pc] + 4 * |asm|
    && Emits(code, L.offs[s.pc], asm)
  }

  function Set(s: IlMachine.State, d: int, v: Word): IlMachine.State
    requires 0 <= d < |s.regs|
  {
    s.(pc := s.pc + 1, regs := s.regs[d := v])
  }

  /** One instruction that writes a register. */
  lemma SimOne(L: Layout, code: Code, s: IlMachine.State, m: Machine, ins: Rv, d: int, v: Word)
    requires Here(L, code, s, m, [ins]) && 0 <= d < |s.regs| && Legal(ins)
    requires Execute(ins, m) == SetX(m.(pc := m.pc + 4), 10 + d, v)
    ensures Reaches(Stepper(code), m, Execute(ins, m)) && Related(L, Set(s, d, v), Execute(ins, m))
  {
    hide Reaches, Emits;
    Executes(code, L.offs[s.pc], [ins], 0, ins, m);
    RelatedSet(L, s, m, d, v, s.pc + 1);
  }

  /** A branch over "load 0, skip" to "load 1". */
  lemma SimSelect(L: Layout, code: Code, s: IlMachine.State, m: Machine, br: Rv, d: int, taken: bool)
    returns (m': Machine)
    requires 0 <= d < |s.regs| && Legal(br)
    requires Here(L, code, s, m, [br, Addi(10 + d, ZERO, 0), Jal(ZERO, 8), Addi(10 + d, ZERO, 1)])
    requires Execute(br, m) == m.(pc := m.pc + if taken then 12 else 4)
    ensures Reaches(Stepper(code), m, m') && Related(L, Set(s, d, if taken then 1 else 0), m')
  {
    hide Reaches, Emits;
    var asm, off := [br, Addi(10 + d, ZERO, 0), Jal(ZERO, 8), Addi(10 + d, ZERO, 1)], L.offs[s.pc];
    var m1 := m.(pc := m.pc + if taken then 12 else 4);
    Executes(code, off, asm, 0, br, m);
    var v := if taken then 1 else 0;
    m' := SetX(m.(pc := m.pc + 16), 10 + d, v);
    if taken {
      RunAddi(code, off, asm, 3, m1, 10 + d, ZERO, 1);
    } else {
      RunAddi(code, off, asm, 1, m1, 10 + d, ZERO, 0);
      var m2 := SetX(m.(pc := m.pc + 8), 10 + d, v);
      RunJal(code, off, asm, 2, m2, ZERO, 8);
      ReachesThen(Stepper(code), m1, m2, m');
    }
    ReachesThen(Stepper(code), m, m1, m');
    RelatedSet(L, s, m, d, v, s.pc + 1);
  }

  lemma SimCompare(L: Layout, code: Code, s: IlMachine.State, m: Machine, op: Op, d: int, o: int)
    returns (m': Machine)
    requires IsComparison(op) && 0 <= d < |s.regs| && 0 <= o < |s.regs|
    requires Here(L, code, s, m, Compare(op, 10 + d, 10 + o))
    ensures Reaches(Stepper(code), m, m') && Related(L, Set(s, d, Binary(op, s.regs[d], s.regs[o])), m')
  {
    hide Reaches, Emits, Related;
    RelatedGet(L, s, m, d);
    RelatedGet(L, s, m, o);
    m' := SimSelect(L, code, s, m, Compare(op, 10 + d, 10 + o)[0], d, Binary(op, s.regs[d], s.regs[o]) == 1);
  }

  /** Two instructions that build a value in a register: the upper part, then the completing ADDI. */
  lemma SimTwoPart(L: Layout, code: Code, s: IlMachine.State, m: Machine, relative: bool, d: int, ofs: int)
    returns (m': Machine)
    requires 0 <= d < |s.regs|
    requires Here(L, code, s, m, if relative then PcRelative(10 + d, ofs) else Absolute(10 + d, ofs))
    ensures Reaches(Stepper(code), m, m')
    ensures Related(L, Set(s, d, Wrap(if relative then m.pc + ofs else ofs)), m')
  {
    hide Reaches, Emits, Wrap;
    var base := if relative then m.pc else 0;
    var u := Upper(Hi(ofs));
    var asm, off := if relative then PcRelative(10 + d, ofs) else Absolute(10 + d, ofs), L.offs[s.pc];
    var m1 := SetX(m.(pc := m.pc + 4), 10 + d, Wrap(base + 4096 * u));
    Executes(code, off, asm, 0, asm[0], m);
    RunAddi(code, off, asm, 1, m1, 10 + d, 10 + d, Lo(ofs));
    HiLo(ofs, base);
    m' := SetX(m.(pc := m.pc + 8), 10 + d, Wrap(base + ofs));
    assert m' == SetX(m1.(pc := m.pc + 8), 10 + d, Wrap(base + ofs));
    ReachesThen(Stepper(code), m, m1, m');
    RelatedSet(L, s, m, d, Wrap(base + ofs), s.pc + 1);
  }

  lemma SimConstant(L: Layout, code: Code, s: IlMachine.State, m: Machine, d: int, val: int) returns (m': Machine)
    requires 0 <= d < |s.regs| && Here(L, code, s, m, NumericConstant(10 + d, val))
    ensures Reaches(Stepper(code), m, m') && Related(L, Set(s, d, Wrap(val)), m')
  {
    hide Reaches, Emits;
    if val > -2048 && val < 2047 {
      LoSpec(val);
      var ins := Addi(10 + d, ZERO, Lo(val));
      SimOne(L, code, s, m, ins, d, Wrap(val));
      m' := Execute(ins, m);
    } else {
      m' := SimTwoPart(L, code, s, m, false, d, val);
    }
  }

  /** A local's address, from the frame pointer. */
  lemma SimLocal(L: Layout, code: Code, s: IlMachine.State, m: Machine, d: int, ofs: int) returns (m': Machine)
    requires 0 <= d < |s.regs| && Here(L, code, s, m, [Addi(10 + d, S0, 0), Addi(10 + d, 10 + d, -ofs)])
    ensures Reaches(Stepper(code), m, m') && Related(L, Set(s, d, Wrap(s.fp - ofs)), m')
  {
    hide Reaches, Emits;
    var asm, off := [Addi(10 + d, S0, 0), Addi(10 + d, 10 + d, -ofs)], L.offs[s.pc];
    var m1 := SetX(m.(pc := m.pc + 4), 10 + d, s.fp);
    RunAddi(code, off, asm, 0, m, 10 + d, S0, 0);
    RunAddi(code, off, asm, 1, m1, 10 + d, 10 + d, -ofs);
    m' := SetX(m.(pc := m.pc + 8), 10 + d, Wrap(s.fp - ofs));
    assert m' == SetX(m1.(pc := m.pc + 8), 10 + d, Wrap(s.fp - ofs));
    ReachesThen(Stepper(code), m, m1, m');
    RelatedSet(L, s, m, d, Wrap(s.fp - ofs), s.pc + 1);
  }

  /** One instruction that changes memory or the stack pointer only. */
  lemma SimOther(L: Layout, code: Code, s: IlMachine.State, m: Machine, ins: Rv, sp: Word, mem: Mem)
    requires Here(L, code, s, m, [ins]) && Legal(ins)
    requires Execute(ins, m) == SetX(m.(pc := m.pc + 4, mem := mem), SP, sp)
    ensures Reaches(Stepper(code), m, Execute(ins, m))
    ensures Related(L, s.(pc := s.pc + 1, sp := sp, mem := mem), Execute(ins, m))
  {
    hide Reaches, Emits;
    Executes(code, L.offs[s.pc], [ins], 0, ins, m);
  }

  lemma SimPush(L: Layout, code: Code, s: IlMachine.State, m: Machine, d: int) returns (m': Machine)
    requires 0 <= d < |s.regs| && Here(L, code, s, m, [Addi(SP, SP, -16), Sw(10 + d, SP, 0)])
    ensures Reaches(Stepper(code), m, m')
    ensures var sp := Wrap(s.sp - 16);
            Related(L, s.(pc := s.pc + 1, sp := sp, mem := StoreWord(s.mem, sp, s.regs[d])), m')
  {
    hide Reaches, Emits, StoreWord, LoadWord;
    var asm, off := [Addi(SP, SP, -16), Sw(10 + d, SP, 0)], L.offs[s.pc];
    var sp := Wrap(s.sp - 16);
    RelatedGet(L, s, m, d);
    var m1 := SetX(m.(pc := m.pc + 4), SP, sp);
    RunAddi(code, off, asm, 0, m, SP, SP, -16);
    m' := m1.(pc := m.pc + 8, mem := StoreWord(s.mem, sp, s.regs[d]));
    RunSw(code, off, asm, 1, m1, 10 + d, SP, 0);
    ReachesThen(Stepper(code), m, m1, m');
  }

  lemma SimPop(L: Layout, code: Code, s: IlMachine.State, m: Machine, d: int) returns (m': Machine)
    requires 0 <= d < |s.regs| && Here(L, code, s, m, [Lw(10 + d, SP, 0), Addi(SP, SP, 16)])
    ensures Reaches(Stepper(code), m, m')
    ensures Related(L, Set(s, d, LoadWord(s.mem, s.sp)).(sp := Wrap(s.sp + 16)), m')
  {
    hide Reaches, Emits, StoreWord, LoadWord;
    var asm, off := [Lw(10 + d, SP, 0), Addi(SP, SP, 16)], L.offs[s.pc];
    var v := LoadWord(s.mem, s.sp);
    var m1 := SetX(m.(pc := m.pc + 4), 10 + d, v);
    RunLw(code, off, asm, 0, m, 10 + d, SP, 0);
    m' := SetX(m1.(pc := m.pc + 8), SP, Wrap(s.sp + 16));
    RunAddi(code, off, asm, 1, m1, SP, SP, 16);
    ReachesThen(Stepper(code), m, m1, m');
  }

  // ----- control transfer -----

  lemma SimJump(L: Layout, code: Code, s: IlMachine.State, m: Machine, asm: seq<Rv>, rd: int, target: int)
    returns (m': Machine)
    requires Related(L, s, m) && code.start == L.codeStart && 0 <= target < |L.offs|
    requires rd == ZERO || rd == RA
    requires var jump := Jal(rd, L.offs[target] - L.offs[s.pc]);
             Legal(jump) && |asm| > 0 && asm[0] == jump && Emits(code, L.offs[s.pc], asm)
    ensures Reaches(Stepper(code), m, m')
    ensures Related(L, s.(pc := target, ra := if rd == RA then Wrap(m.pc + 4) else s.ra), m')
  {
    hide Reaches, Emits;
    RunJal(code, L.offs[s.pc], asm, 0, m, rd, L.offs[target] - L.offs[s.pc]);
    m' := SetX(m.(pc := L.codeStart + L.offs[target]), rd, Wrap(m.pc + 4));
  }

  /** Near and far conditional jumps both land on their target, or on the next IL instruction. */
  lemma SimCondJump(L: Layout, code: Code, s: IlMachine.State, m: Machine, op: Op, d: int, target: int, ofs: int)
    returns (m': Machine)
    requires (op.Jz? || op.Jnz?) && 0 <= d < |s.regs| && 0 <= target < |L.offs|
    requires Here(L, code, s, m, CondJump(op, 10 + d, ofs))
    requires ofs == L.offs[target] - L.offs[s.pc] - 4 && ofs % 2 == 0 && -1048576 <= ofs < 1048576
    ensures Reaches(Stepper(code), m, m')
    ensures Related(L, s.(pc := if (s.regs[d] == 0) == (op.Jz?) then target else s.pc + 1), m')
  {
    hide Reaches, Emits;
    var asm, off := CondJump(op, 10 + d, ofs), L.offs[s.pc];
    RelatedGet(L, s, m, d);
    var m1 := m.(pc := m.pc + 4);
    var jumps := (s.regs[d] == 0) == (op.Jz?);
    m' := m.(pc := if jumps then L.codeStart + L.offs[target] else m.pc + 8);
    if -4096 <= ofs <= 4095 {
      RunAddi(code, off, asm, 0, m, ZERO, ZERO, 0);
      Executes(code, off, asm, 1, asm[1], m1);
      ReachesThen(Stepper(code), m, m1, m');
    } else {
      Executes(code, off, asm, 0, asm[0], m);
      if jumps {
        RunJal(code, off, asm, 1, m1, ZERO, ofs);
        ReachesThen(Stepper(code), m, m1, m');
      }
    }
  }

  lemma SimPointerCall(P: Program, L: Layout, code: Code, s: IlMachine.State, m: Machine, asm: seq<Rv>, o: int, e: int)
    returns (m': Machine)
    requires GoodLayout(Riscv, P, L) && Related(L, s, m) && code.start == L.codeStart && 0 <= o < |s.regs|
    requires 0 <= e < |P.il| && IlMachine.CodeAddr(L, e) == s.regs[o]
    requires |asm| > 0 && asm[0] == Jalr(RA, 10 + o, 0) && Emits(code, L.offs[s.pc], asm)
    ensures Reaches(Stepper(code), m, m')
    ensures Related(L, s.(pc := e, ra := Wrap(m.pc + 4)), m')
  {
    hide Reaches, Emits;
    CodeAddrAligned(Riscv, P, L, e);
    RelatedGet(L, s, m, o);
    RunJalr(code, L.offs[s.pc], asm, 0, m, RA, 10 + o);
    m' := SetX(m.(pc := s.regs[o]), RA, Wrap(m.pc + 4));
  }

  // ----- function entry and exit -----

  /** The parameter stores of an entry point, from the k-th on. */
  lemma {:induction false} SimStoreParams(L: Layout, code: Code, off: int, asm: seq<Rv>, j: nat, params: seq<Var>,
                                          k: nat, s: IlMachine.State, m: Machine) returns (m': Machine)
    requires k <= |params| <= |s.regs| <= 22 && |m.x| == 32
    requires Emits(code, off, asm) && j <= |asm| && asm[j..] == StoreParamsCode(params, k)
    requires m.pc == code.start + off + 4 * j && m.x[S0] == s.fp && m.mem == s.mem
    requires forall i :: 0 <= i < |s.regs| ==> s.regs[i] == m.x[10 + i]
    ensures Reaches(Stepper(code), m, m')
    ensures m' == m.(pc := code.start + off + 4 * |asm|,
                     mem := IlMachine.StoreParams(s.mem, s.fp, params, s.regs, k))
    decreases |params| - k
  {
    hide Reaches, Emits, Wrap, StoreWord, LoadWord;
    if k == |params| {
      m' := m;
      ReachesSelf(Stepper(code), m);
    } else {
      assert asm[j] == Sw(A0 + k, S0, -params[k].offset) && asm[j + 1..] == StoreParamsCode(params, k + 1);
      RunSw(code, off, asm, j, m, A0 + k, S0, -params[k].offset);
      var m1 := m.(pc := m.pc + 4, mem := StoreWord(s.mem, Wrap(s.fp - params[k].offset), s.regs[k]));
      var s1 := s.(mem := StoreWord(s.mem, Wrap(s.fp - params[k].offset), s.regs[k]));
      m' := SimStoreParams(L, code, off, asm, j + 1, params, k + 1, s1, m1);
      ReachesThen(Stepper(code), m, m1, m');
    }
  }

  /** The frame's addresses, seen from the lowered stack pointer as the code sees them. */
  lemma FrameAddresses(sp: Word, len: int)
    ensures var low, fp := Wrap(sp - 16 - len), Wrap(sp - 16);
            Wrap(low + (12 + len)) == Wrap(fp + 12) && Wrap(low + (8 + len)) == Wrap(fp + 8) && Wrap(low + len) == fp
  {
    WrapWrap(sp - 16 - len, 12 + len);
    WrapWrap(sp - 16 - len, 8 + len);
    WrapWrap(sp - 16 - len, len);
    WrapWrap(sp - 16, 12);
    WrapWrap(sp - 16, 8);
  }

  lemma SimEntrySaves(L: Layout, code: Code, s: IlMachine.State, m: Machine, f: Function) returns (m': Machine)
    requires Here(L, code, s, m, EntryCode(f))
    ensures Reaches(Stepper(code), m, m')
    ensures var fp := Wrap(s.sp - 16);
            m' == m.(pc := m.pc + 16, x := m.x[SP := Wrap(s.sp - 16 - f.paramsSize)][S0 := fp],
                     mem := StoreWord(StoreWord(s.mem, Wrap(fp + 12), s.fp), Wrap(fp + 8), s.ra))
  {
    hide Reaches, Emits, Wrap, StoreWord, LoadWord;
    var len, asm, off := f.paramsSize, EntryCode(f), L.offs[s.pc];
    FrameAddresses(s.sp, len);
    var m1 := m.(pc := m.pc + 4, x := m.x[SP := Wrap(s.sp - 16 - len)]);
    RunAddi(code, off, asm, 0, m, SP, SP, -16 - len);
    var fp: int := Wrap(s.sp - 16);
    var m2 := m1.(pc := m.pc + 8, mem := StoreWord(s.mem, Wrap(fp + 12), s.fp));
    RunSw(code, off, asm, 1, m1, S0, SP, 12 + len);
    var m3 := m2.(pc := m.pc + 12, mem := StoreWord(m2.mem, Wrap(fp + 8), s.ra));
    RunSw(code, off, asm, 2, m2, RA, SP, 8 + len);
    m' := m3.(pc := m.pc + 16, x := m3.x[S0 := fp]);
    RunAddi(code, off, asm, 3, m3, S0, SP, len);
    ReachesThen(Stepper(code), m, m1, m2);
    ReachesThen(Stepper(code), m, m2, m3);
    ReachesThen(Stepper(code), m, m3, m');
  }

  lemma SimEntry(L: Layout, code: Code, s: IlMachine.State, m: Machine, f: Function) returns (m': Machine)
    requires |f.params| <= |s.regs| && Here(L, code, s, m, EntryCode(f))
    ensures Reaches(Stepper(code), m, m') && Related(L, IlMachine.Enter(s, f), m')
  {
    hide Reaches, Emits, Wrap, StoreWord, LoadWord;
    var asm := EntryCode(f);
    var m4 := SimEntrySaves(L, code, s, m, f);
    assert asm[4..] == StoreParamsCode(f.params, 0);
    var s4 := s.(fp := Wrap(s.sp - 16), mem := m4.mem);
    m' := SimStoreParams(L, code, L.offs[s.pc], asm, 4, f.params, 0, s4, m4);
    ReachesThen(Stepper(code), m, m4, m');
  }

  /** The exit code, up to its jump to the saved return address. */
  lemma SimExitJump(L: Layout, code: Code, s: IlMachine.State, m: Machine, ra: Word) returns (m': Machine)
    requires Here(L, code, s, m, ExitCode())
    requires ra == LoadWord(s.mem, Wrap(Wrap(s.fp + 16) - 8)) && ra % 2 == 0
    ensures Reaches(Stepper(code), m, m')
    ensures var sp := Wrap(s.fp + 16);
            m' == m.(pc := ra, x := m.x[SP := sp][RA := ra][S0 := LoadWord(s.mem, Wrap(sp - 4))])
  {
    hide Reaches, Emits, Wrap, StoreWord, LoadWord;
    var asm, off := ExitCode(), L.offs[s.pc];
    var sp: int := Wrap(s.fp + 16);
    var fp: Word := LoadWord(s.mem, Wrap(sp - 4));
    var m1 := m.(pc := m.pc + 4, x := m.x[SP := sp]);
    RunAddi(code, off, asm, 0, m, SP, S0, 16);
    var m2 := m1.(pc := m.pc + 8, x := m1.x[RA := ra]);
    RunLw(code, off, asm, 1, m1, RA, SP, -8);
    var m3 := m2.(pc := m.pc + 12, x := m2.x[S0 := fp]);
    RunLw(code, off, asm, 2, m2, S0, SP, -4);
    m' := m3.(pc := ra);
    RunJalr(code, off, asm, 3, m3, ZERO, RA);
    ReachesThen(Stepper(code), m, m1, m2);
    ReachesThen(Stepper(code), m, m2, m3);
    ReachesThen(Stepper(code), m, m3, m');
  }

  /** Back behind the call's jump, the result is moved to the call's register. */
  lemma SimAfterCall(L: Layout, code: Code, s: IlMachine.State, m: Machine, c: int, asm: seq<Rv>, jump: Rv, d: int)
    returns (m': Machine)
    requires 0 <= d < |s.regs| && 0 <= c && c + 1 < |L.offs| && code.start == L.codeStart
    requires Emits(code, L.offs[c], asm) && asm == CallCode(jump, 10 + d) && L.offs[c + 1] == L.offs[c] + 4 * |asm|
    requires m.pc == L.codeStart + L.offs[c] + 4
    requires |m.x| == 32 && m.x[0] == 0 && m.x[RA] == s.ra && m.x[SP] == s.sp && m.x[S0] == s.fp && m.mem == s.mem
    requires |s.regs| <= 22 && forall k :: 0 <= k < |s.regs| ==> s.regs[k] == m.x[10 + k]
    ensures Reaches(Stepper(code), m, m')
    ensures Related(L, s.(pc := c + 1, regs := s.regs[d := s.regs[0]]), m')
  {
    hide Reaches, Emits;
    if d == 0 {
      m' := m;
      ReachesSelf(Stepper(code), m);
    } else {
      RunAddi(code, L.offs[c], asm, 1, m, 10 + d, A0, 0);
      m' := SetX(m.(pc := m.pc + 4), 10 + d, s.regs[0]);
    }
  }

  // ----- the simulation -----

  /** The setting of a step: the program is placed, the states are related, and the IL can step. */
  ghost predicate Stepping(P: Program, L: Layout, code: Code, s: IlMachine.State, m: Machine, t: IlMachine.State) {
    Placed(Riscv, P, L, code) && Related(L, s, m) && 0 <= s.pc < |P.il| && IlMachine.Step(P, L, true, s) == Some(t)
  }

  /** The instructions the placed code holds for an IL operation. */
  lemma LoweredAt(P: Program, L: Layout, code: Code, i: int) returns (asm: seq<Rv>)
    requires Placed(Riscv, P, L, code) && 0 <= i < |P.il|
    requires !P.il[i].op.Generic? && !P.il[i].op.Syscall? && !P.il[i].op.Exit?
    ensures Lower(P, L, BlockAt(P, i), P.il[i], L.offs[i]) == Some(asm)
    ensures Emits(code, L.offs[i], asm) && L.offs[i + 1] == L.offs[i] + 4 * |asm|
    ensures |L.offs| == |P.il| + 1 && code.start == L.codeStart && GoodLayout(Riscv, P, L)
  {
    assert PlacedAt(Riscv, P, L, code, i);
    asm := Lower(P, L, BlockAt(P, i), P.il[i], L.offs[i]).value;
    EmitsLowered(P, L, code, i, asm);
  }

  lemma StepAlu(P: Program, L: Layout, code: Code, s: IlMachine.State, m: Machine, t: IlMachine.State)
    returns (m': Machine)
    requires Stepping(P, L, code, s, m, t)
    requires IsBinary(P.il[s.pc].op) || (P.il[s.pc].op.Negate? || P.il[s.pc].op.Not?)
    ensures Reaches(Stepper(code), m, m') && Related(L, t, m')
  {
    hide Reaches, Emits, Placed, Execute;
    var ins := P.il[s.pc];
    var asm := LoweredAt(P, L, code, s.pc);
    var d, o := ins.param, ins.int1;
    if IsComparison(ins.op) {
      m' := SimCompare(L, code, s, m, ins.op, d, o);
    } else {
      m' := StepAluOne(P, L, code, s, m, t, asm);
    }
  }

  lemma StepAluOne(P: Program, L: Layout, code: Code, s: IlMachine.State, m: Machine, t: IlMachine.State, asm: seq<Rv>)
    returns (m': Machine)
    requires Stepping(P, L, code, s, m, t)
    requires var op := P.il[s.pc].op; !IsComparison(op) && (IsBinary(op) || (op.Negate? || op.Not?))
    requires Lower(P, L, BlockAt(P, s.pc), P.il[s.pc], L.offs[s.pc]) == Some(asm)
    requires Here(L, code, s, m, asm)
    ensures Reaches(Stepper(code), m, m') && Related(L, t, m')
  {
    hide Reaches, Emits, Placed;
    var ins := P.il[s.pc];
    var d, o := ins.param, ins.int1;
    RelatedGet(L, s, m, d);
    if IsBinary(ins.op) {
      RelatedGet(L, s, m, o);
    }
    m' := Execute(asm[0], m);
    SimOne(L, code, s, m, asm[0], d, t.regs[d]);
  }

  lemma StepValue(P: Program, L: Layout, code: Code, s: IlMachine.State, m: Machine, t: IlMachine.State)
    returns (m': Machine)
    requires Stepping(P, L, code, s, m, t)
    requires (P.il[s.pc].op.LoadNumericConstant? || P.il[s.pc].op.LoadDataAddress? || P.il[s.pc].op.GetVarAddr?)
    ensures Reaches(Stepper(code), m, m') && Related(L, t, m')
  {
    hide Reaches, Emits, Placed, Execute, IlMachine.Step, Resolve, BlockAt;
    IlMachine.StepOfValue(P, L, true, s, t);
    var ins := P.il[s.pc];
    var asm := LoweredAt(P, L, code, s.pc);
    if ins.op.LoadNumericConstant? {
      m' := SimConstant(L, code, s, m, ins.param, ins.int1);
    } else if ins.op.LoadDataAddress? {
      m' := SimTwoPart(L, code, s, m, true, ins.param, L.dataStart + ins.int1 - L.offs[s.pc]);
    } else {
      m' := StepVarAddr(P, L, code, s, m, t, asm);
    }
  }

  lemma StepVarAddr(P: Program, L: Layout, code: Code, s: IlMachine.State, m: Machine, t: IlMachine.State, asm: seq<Rv>)
    returns (m': Machine)
    requires Stepping(P, L, code, s, m, t) && P.il[s.pc].op.GetVarAddr?
    requires Lower(P, L, BlockAt(P, s.pc), P.il[s.pc], L.offs[s.pc]) == Some(asm)
    requires Here(L, code, s, m, asm)
    ensures Reaches(Stepper(code), m, m') && Related(L, t, m')
  {
    hide Reaches, Emits, Placed, Execute, Resolve, BlockAt, IlMachine.Step;
    IlMachine.StepOfValue(P, L, true, s, t);
    var ins := P.il[s.pc];
    match Resolve(P, BlockAt(P, s.pc), ins.name)
    case Global(ofs) => m' := SimTwoPart(L, code, s, m, true, ins.param, L.dataStart + ofs - L.offs[s.pc]);
    case Local(ofs) => m' := SimLocal(L, code, s, m, ins.param, ofs);
    case FunctionEntry(e) => m' := SimTwoPart(L, code, s, m, false, ins.param, L.codeStart + L.offs[e]);
  }

  lemma StepRead(P: Program, L: Layout, code: Code, s: IlMachine.State, m: Machine, t: IlMachine.State)
    returns (m': Machine)
    requires Stepping(P, L, code, s, m, t) && P.il[s.pc].op.ReadAddr?
    ensures Reaches(Stepper(code), m, m') && Related(L, t, m')
  {
    hide Reaches, Emits, Placed, LoadWord, StoreWord, LoadByte, StoreByte, IlMachine.Step;
    IlMachine.StepOfMemory(P, L, true, s, t);
    var ins := P.il[s.pc];
    var asm := LoweredAt(P, L, code, s.pc);
    RelatedGet(L, s, m, ins.param);
    RelatedGet(L, s, m, ins.int1);
    m' := Execute(asm[0], m);
    SimOne(L, code, s, m, asm[0], ins.param, t.regs[ins.param]);
  }

  lemma StepWrite(P: Program, L: Layout, code: Code, s: IlMachine.State, m: Machine, t: IlMachine.State)
    returns (m': Machine)
    requires Stepping(P, L, code, s, m, t) && P.il[s.pc].op.WriteAddr?
    ensures Reaches(Stepper(code), m, m') && Related(L, t, m')
  {
    hide Reaches, Emits, Placed, LoadWord, StoreWord, LoadByte, StoreByte, IlMachine.Step;
    IlMachine.StepOfMemory(P, L, true, s, t);
    var ins := P.il[s.pc];
    var asm := LoweredAt(P, L, code, s.pc);
    RelatedGet(L, s, m, ins.param);
    RelatedGet(L, s, m, ins.int1);
    m' := Execute(asm[0], m);
    SimOther(L, code, s, m, asm[0], s.sp, t.mem);
  }

  lemma StepStack(P: Program, L: Layout, code: Code, s: IlMachine.State, m: Machine, t: IlMachine.State)
    returns (m': Machine)
    requires Stepping(P, L, code, s, m, t) && (P.il[s.pc].op.Push? || P.il[s.pc].op.Pop?)
    ensures Reaches(Stepper(code), m, m') && Related(L, t, m')
  {
    hide Reaches, Emits, Placed, Execute, LoadWord, StoreWord, IlMachine.Step;
    IlMachine.StepOfStack(P, L, true, s, t);
    var ins := P.il[s.pc];
    var asm := LoweredAt(P, L, code, s.pc);
    if ins.op.Push? {
      m' := SimPush(L, code, s, m, ins.param);
    } else {
      m' := SimPop(L, code, s, m, ins.param);
    }
  }

  lemma StepMarker(P: Program, L: Layout, code: Code, s: IlMachine.State, m: Machine, t: IlMachine.State)
    returns (m': Machine)
    requires Stepping(P, L, code, s, m, t)
    requires P.il[s.pc].op.Label? || P.il[s.pc].op.BlockStart? || P.il[s.pc].op.BlockEnd?
    ensures Reaches(Stepper(code), m, m') && Related(L, t, m')
  {
    hide Reaches, Emits, Placed, IlMachine.Step, Wrap;
    IlMachine.StepOfMarker(P, L, true, s, t);
    var asm := LoweredAt(P, L, code, s.pc);
    if |asm| == 0 {
      m' := m;
      ReachesSelf(Stepper(code), m);
    } else {
      m' := Execute(asm[0], m);
      SimOther(L, code, s, m, asm[0], t.sp, s.mem);
    }
  }

  lemma JumpLowered(P: Program, L: Layout, bd: Option<nat>, ins: Instr, pc: int, target: int)
    requires ins.op.Jump? || ins.op.Return? || ins.op.FunctionCall?
    requires Lower(P, L, bd, ins, pc).Some? && IlMachine.JumpTarget(P, ins) == Some(target) && 0 <= target < |L.offs|
    ensures var asm := Lower(P, L, bd, ins, pc).value;
            |asm| > 0 && asm[0] == Jal(if ins.op.FunctionCall? then RA else ZERO, L.offs[target] - pc)
  {
  }

  lemma StepJump(P: Program, L: Layout, code: Code, s: IlMachine.State, m: Machine, t: IlMachine.State)
    returns (m': Machine)
    requires Stepping(P, L, code, s, m, t)
    requires P.il[s.pc].op.Jump? || P.il[s.pc].op.Return? || P.il[s.pc].op.FunctionCall?
    ensures Reaches(Stepper(code), m, m') && Related(L, t, m')
  {
    hide Reaches, Emits, Placed, Execute, GoodLayout, Lower, IlMachine.Step, IlMachine.JumpTarget, BlockAt;
    var ins := P.il[s.pc];
    var asm := LoweredAt(P, L, code, s.pc);
    IlMachine.StepOfJump(P, L, true, s, t);
    JumpLowered(P, L, BlockAt(P, s.pc), ins, L.offs[s.pc], t.pc);
    DistanceFits(Riscv, P, L, s.pc, t.pc);
    var rd := if ins.op.FunctionCall? then RA else ZERO;
    m' := SimJump(L, code, s, m, asm, rd, t.pc);
  }

  lemma StepCondJump(P: Program, L: Layout, code: Code, s: IlMachine.State, m: Machine, t: IlMachine.State)
    returns (m': Machine)
    requires Stepping(P, L, code, s, m, t) && (P.il[s.pc].op.Jz? || P.il[s.pc].op.Jnz?)
    ensures Reaches(Stepper(code), m, m') && Related(L, t, m')
  {
    hide Reaches, Emits, Placed, Execute, GoodLayout, IlMachine.Step, Related;
    IlMachine.StepOfCondJump(P, L, true, s, t);
    var ins := P.il[s.pc];
    var asm := LoweredAt(P, L, code, s.pc);
    DistanceFits(Riscv, P, L, s.pc, ins.int1);
    var ofs := L.offs[ins.int1] - L.offs[s.pc] - 4;
    m' := SimCondJump(L, code, s, m, ins.op, ins.param, ins.int1, ofs);
  }

  lemma StepPointerCall(P: Program, L: Layout, code: Code, s: IlMachine.State, m: Machine, t: IlMachine.State)
    returns (m': Machine)
    requires Stepping(P, L, code, s, m, t) && P.il[s.pc].op.PointerCall?
    ensures Reaches(Stepper(code), m, m') && Related(L, t, m')
  {
    hide Reaches, Emits, Placed, Execute, GoodLayout;
    var ins := P.il[s.pc];
    var asm := LoweredAt(P, L, code, s.pc);
    assert IlMachine.EntryAt(P, L, s.regs[ins.int1], t.pc);
    m' := SimPointerCall(P, L, code, s, m, asm, ins.int1, t.pc);
  }

  lemma StepEntry(P: Program, L: Layout, code: Code, s: IlMachine.State, m: Machine, t: IlMachine.State)
    returns (m': Machine)
    requires Stepping(P, L, code, s, m, t) && P.il[s.pc].op.EntryPoint?
    ensures Reaches(Stepper(code), m, m') && Related(L, t, m')
  {
    hide Reaches, Emits, Placed, Execute, EntryCode, IlMachine.Enter;
    var asm := LoweredAt(P, L, code, s.pc);
    m' := SimEntry(L, code, s, m, P.funcs[FindFunction(P.funcs, P.il[s.pc].name).value]);
  }

  /** The code of a call is its jump, followed by a move of the result unless it belongs in a0. */
  lemma CallLowered(P: Program, L: Layout, code: Code, c: int) returns (asm: seq<Rv>, jump: Rv)
    requires Placed(Riscv, P, L, code) && 0 <= c < |P.il| && IlMachine.IsCall(P.il[c])
    ensures asm == CallCode(jump, DestReg(P.il[c].param))
    ensures Emits(code, L.offs[c], asm) && L.offs[c + 1] == L.offs[c] + 4 * |asm|
  {
    hide Emits, Placed;
    asm := LoweredAt(P, L, code, c);
    jump := asm[0];
  }

  lemma StepExit(P: Program, L: Layout, code: Code, s: IlMachine.State, m: Machine, t: IlMachine.State)
    returns (m': Machine)
    requires Stepping(P, L, code, s, m, t) && P.il[s.pc].op.ExitPoint?
    ensures Reaches(Stepper(code), m, m') && Related(L, t, m')
  {
    hide Reaches, Emits, Placed, Execute, CallCode, IlMachine.Step, LoadWord;
    var asm := LoweredAt(P, L, code, s.pc);
    IlMachine.StepOfExit(P, L, true, s, t);
    var c := t.pc - 1;
    CodeAddrAligned(Riscv, P, L, c);
    var m1 := SimExitJump(L, code, s, m, t.ra);
    var call, jump := CallLowered(P, L, code, c);
    var s1 := t.(regs := s.regs);
    m' := SimAfterCall(L, code, s1, m1, c, call, jump, P.il[c].param);
    ReachesThen(Stepper(code), m, m1, m');
  }

  /** Whenever the IL steps, the machine reaches a state related to the IL's next state. */
  lemma StepSimulated(P: Program, L: Layout, code: Code, s: IlMachine.State, m: Machine, t: IlMachine.State)
    returns (m': Machine)
    requires Placed(Riscv, P, L, code) && Related(L, s, m) && IlMachine.Step(P, L, true, s) == Some(t)
    ensures Reaches(Stepper(code), m, m') && Related(L, t, m')
  {
    hide Reaches, Placed, Related;
    var op := P.il[s.pc].op;
    if IsBinary(op) || (op.Negate? || op.Not?) {
      m' := StepAlu(P, L, code, s, m, t);
    } else if (op.LoadNumericConstant? || op.LoadDataAddress? || op.GetVarAddr?) {
      m' := StepValue(P, L, code, s, m, t);
    } else if op.ReadAddr? {
      m' := StepRead(P, L, code, s, m, t);
    } else if op.WriteAddr? {
      m' := StepWrite(P, L, code, s, m, t);
    } else if (op.Push? || op.Pop?) {
      m' := StepStack(P, L, code, s, m, t);
    } else if (op.Label? || op.BlockStart? || op.BlockEnd?) {
      m' := StepMarker(P, L, code, s, m, t);
    } else if (op.Jump? || op.Return? || op.FunctionCall?) {
      m' := StepJump(P, L, code, s, m, t);
    } else if (op.Jz? || op.Jnz?) {
      m' := StepCondJump(P, L, code, s, m, t);
    } else if op.PointerCall? {
      m' := StepPointerCall(P, L, code, s, m, t);
    } else if op.EntryPoint? {
      m' := StepEntry(P, L, code, s, m, t);
    } else {
      m' := StepExit(P, L, code, s, m, t);
    }
  }

  /** Every run of the IL is matched by a run of the machine. */
  lemma {:induction false} RunSimulated(P: Program, L: Layout, code: Code, s: IlMachine.State, m: Machine, n: nat,
                                        t: IlMachine.State) returns (m': Machine)
    requires Placed(Riscv, P, L, code) && Related(L, s, m)
    requires Run(IlMachine.Stepper(P, L, true), s, n) == Some(t)
    ensures Reaches(Stepper(code), m, m') && Related(L, t, m')
    decreases n
  {
    hide Reaches, Placed, Related, IlMachine.Step;
    if n == 0 {
      m' := m;
      ReachesSelf(Stepper(code), m);
    } else {
      var s1 := IlMachine.Step(P, L, true, s).value;
      var m1 := StepSimulated(P, L, code, s, m, s1);
      m' := RunSimulated(P, L, code, s1, m1, n - 1, t);
      ReachesThen(Stepper(code), m, m1, m');
    }
  }
}
