/** The ARM code emitted for an IL program simulates it too.

    IL register k is r(k); the IL's stack pointer, frame pointer and return address are r13, r11 and r14.  Two
    operations agree with the IL only on some operands (ArmAgrees): `!` is computed as one minus its operand, and
    shift counts of 32 and more shift everything out.  Bytes are read without sign. */
module ArmSim {
  import opened Words
  import opened Runs
  import opened Il
  import IlMachine
  import opened ArmIsa
  import opened ArmEncode
  import opened ArmBackend
  import opened CodeMemory
  import Backend
  import opened Placement

  type Layout = IlMachine.Layout

  /** Frame and block sizes as the sizing pass leaves them: transfers and stack adjustments fit their fields. */
  ghost predicate Sized(P: Program) {
    && (forall f :: 0 <= f < |P.funcs| ==> SizedFunction(P.funcs[f]))
    && (forall b :: 0 <= b < |P.blocks| ==> SizedBlock(P.blocks[b]))
  }

  ghost predicate SizedFunction(f: Function) {
    0 <= f.paramsSize <= 2032 && SizedVars(f.params) && ShortOffsets(f.params)
  }

  ghost predicate SizedBlock(b: Block) {
    0 <= b.localsSize <= 2032 && SizedVars(b.locals)
  }

  ghost predicate SizedVars(vs: seq<Var>) {
    forall v :: v in vs ==> 0 <= v.offset < 0x1000_0000
  }

  ghost predicate ShortOffsets(vs: seq<Var>) {
    forall k :: 0 <= k < |vs| ==> -4096 < vs[k].offset < 4096
  }

  ghost predicate Related(L: Layout, s: IlMachine.State, m: Machine) {
    && 0 <= s.pc < |L.offs|
    && m.pc == L.codeStart + L.offs[s.pc]
    && |m.r| == 15
    && m.r[LR] == s.ra && m.r[SP] == s.sp && m.r[S0] == s.fp
    && |s.regs| <= 11
    && (forall k :: 0 <= k < |s.regs| ==> s.regs[k] == m.r[k])
    && m.mem == s.mem
  }

  // ----- emitted instructions -----

  ghost predicate EmitsAt(code: Code, off: int, asm: seq<Arm>, k: int)
    requires 0 <= k < |asm|
  {
    Assemble(asm[k]).Some? && Fetch(code, code.start + off + 4 * k) == Assemble(asm[k])
  }

  /** The assembled instructions lie at this offset of the code. */
  ghost predicate Emits(code: Code, off: int, asm: seq<Arm>) {
    forall k :: 0 <= k < |asm| ==> EmitsAt(code, off, asm, k)
  }

  lemma EmitsLowered(P: Program, L: Layout, code: Code, i: int, asm: seq<Arm>)
    requires Placed(Backend.Arm, P, L, code) && 0 <= i < |P.il|
    requires !P.il[i].op.Generic? && !P.il[i].op.Syscall? && !P.il[i].op.Exit?
    requires Lower(P, L, BlockAt(P, i), P.il[i], L.offs[i]) == Some(asm)
    ensures Emits(code, L.offs[i], asm)
    ensures L.offs[i + 1] == L.offs[i] + 4 * |asm|
  {
    assert PlacedAt(Backend.Arm, P, L, code, i) && LengthAt(Backend.Arm, P, L, i);
    LoweredLength(P, L, BlockAt(P, i), P.il[i], L.offs[i]);
    AssembleAllLength(asm);
    var ws := AssembleAll(asm).value;
    forall k | 0 <= k < |asm|
      ensures EmitsAt(code, L.offs[i], asm, k)
    {
      assert WordAt(code, L.offs[i], ws, k);
    }
  }

  lemma AssembledStep(code: Code, m: Machine, ins: Arm, w: Word)
    requires Legal(ins) && Assemble(ins) == Some(w) && Fetch(code, m.pc) == Some(w)
    ensures Step(code, m) == Execute(ins, m)
  {
    hide Assemble, Decode, Execute;
    DecodeAssembled(ins);
  }

  /** The machine executes the k-th emitted instruction when it stands there. */
  lemma Executes(code: Code, off: int, asm: seq<Arm>, k: int, m: Machine, m': Machine)
    requires Emits(code, off, asm) && 0 <= k < |asm| && Legal(asm[k])
    requires m.pc == code.start + off + 4 * k
    requires Execute(asm[k], m) == Some(m')
    ensures Reaches(Stepper(code), m, m')
  {
    hide Assemble, Execute, Fetch, Legal;
    assert EmitsAt(code, off, asm, k);
    AssembledStep(code, m, asm[k], Assemble(asm[k]).value);
    ReachesStep(Stepper(code), m, m');
  }

  lemma RunAddI(code: Code, off: int, asm: seq<Arm>, k: int, m: Machine, rd: int, rn: int, imm: int)
    requires Emits(code, off, asm) && 0 <= k < |asm| && asm[k] == AddI(rd, rn, imm)
    requires 0 <= rd < 15 && 0 <= rn < 15 && -0x8000_0000 < imm < 0x8000_0000
    requires m.pc == code.start + off + 4 * k
    ensures Reaches(Stepper(code), m, SetR(m.(pc := m.pc + 4), rd, Wrap(R(m, rn) + imm)))
  {
    hide Emits, Reaches;
    Executes(code, off, asm, k, m, SetR(m.(pc := m.pc + 4), rd, Wrap(R(m, rn) + imm)));
  }

  lemma RunLw(code: Code, off: int, asm: seq<Arm>, k: int, m: Machine, rd: int, rn: int, ofs: int)
    requires Emits(code, off, asm) && 0 <= k < |asm| && asm[k] == Lw(rd, rn, ofs)
    requires 0 <= rd < 15 && 0 <= rn < 15 && -4096 < ofs < 4096
    requires m.pc == code.start + off + 4 * k
    ensures Reaches(Stepper(code), m, SetR(m.(pc := m.pc + 4), rd, LoadWord(m.mem, Wrap(R(m, rn) + ofs))))
  {
    hide Emits, Reaches, LoadWord, StoreWord;
    Executes(code, off, asm, k, m, SetR(m.(pc := m.pc + 4), rd, LoadWord(m.mem, Wrap(R(m, rn) + ofs))));
  }

  lemma RunSw(code: Code, off: int, asm: seq<Arm>, k: int, m: Machine, rd: int, rn: int, ofs: int)
    requires Emits(code, off, asm) && 0 <= k < |asm| && asm[k] == Sw(rd, rn, ofs)
    requires 0 <= rd < 15 && 0 <= rn < 15 && -4096 < ofs < 4096
    requires m.pc == code.start + off + 4 * k
    ensures Reaches(Stepper(code), m,
                    m.(pc := m.pc + 4, mem := StoreWord(m.mem, Wrap(R(m, rn) + ofs), R(m, rd))))
  {
    hide Emits, Reaches, LoadWord, StoreWord;
    Executes(code, off, asm, k, m, m.(pc := m.pc + 4, mem := StoreWord(m.mem, Wrap(R(m, rn) + ofs), R(m, rd))));
  }

  // ----- registers -----

  /** Writing IL register d is writing r(d). */
  lemma RelatedSet(L: Layout, s: IlMachine.State, m: Machine, d: int, v: Word, pc: int)
    requires Related(L, s, m) && 0 <= d < |s.regs|
    requires 0 <= pc < |L.offs|
    ensures Related(L, s.(pc := pc, regs := s.regs[d := v]), SetR(m.(pc := L.codeStart + L.offs[pc]), d, v))
  {
  }

  /** The flags are nobody's. */
  lemma RelatedFlags(L: Layout, s: IlMachine.State, m: Machine, f: Flags)
    requires Related(L, s, m)
    ensures Related(L, s, m.(flags := f))
  {
  }

  // ----- one IL operation: what its instructions do -----

  /** The machine stands at IL instruction s.pc, whose instructions are asm and whose successor comes right after. */
  ghost predicate Here(L: Layout, code: Code, s: IlMachine.State, m: Machine, asm: seq<Arm>) {
    && Related(L, s, m) && code.start == L.codeStart
    && s.pc + 1 < |L.offs| && L.offs[s.pc + 1] == L.offs[s.pc] + 4 * |asm|
    && Emits(code, L.offs[s.pc], asm)
  }

  function Set(s: IlMachine.State, d: int, v: Word): IlMachine.State
    requires 0 <= d < |s.regs|
  {
    s.(pc := s.pc + 1, regs := s.regs[d := v])
  }

  /** One instruction that writes a register. */
  lemma SimOne(L: Layout, code: Code, s: IlMachine.State, m: Machine, ins: Arm, d: int, v: Word)
    requires Here(L, code, s, m, [ins]) && 0 <= d < |s.regs| && Legal(ins)
    requires Execute(ins, m) == Some(SetR(m.(pc := m.pc + 4), d, v))
    ensures var m' := SetR(m.(pc := m.pc + 4), d, v);
            Reaches(Stepper(code), m, m') && Related(L, Set(s, d, v), m')
  {
    hide Reaches, Emits, Execute;
    Executes(code, L.offs[s.pc], [ins], 0, m, SetR(m.(pc := m.pc + 4), d, v));
    RelatedSet(L, s, m, d, v, s.pc + 1);
  }

  /** A comparison: the flags, then 0, then 1 if the condition holds. */
  lemma SimCompare(L: Layout, code: Code, s: IlMachine.State, m: Machine, op: Op, d: int, o: int)
    returns (m': Machine)
    requires IsComparison(op) && 0 <= d < |s.regs| && 0 <= o < |s.regs|
    requires Here(L, code, s, m, Compare(op, d, o))
    ensures Reaches(Stepper(code), m, m') && Related(L, Set(s, d, Binary(op, s.regs[d], s.regs[o])), m')
  {
    hide Reaches, Emits, CompareFlags, Holds, Signed;
    var f := CompareFlags(s.regs[d], s.regs[o]);
    ConditionsAreComparisons(s.regs[d], s.regs[o]);
    AlwaysHolds(m.flags);
    AlwaysHolds(f);
    var v := Binary(op, s.regs[d], s.regs[o]);
    assert Holds(CondOf(op), f) <==> v == 1;
    m' := SimCompareParts(L, code, s, m, CondOf(op), d, o, f, v);
  }

  lemma AlwaysHolds(f: Flags)
    ensures Holds(AL, f)
  {
  }

  lemma SimCompareParts(L: Layout, code: Code, s: IlMachine.State, m: Machine, c: Cond, d: int, o: int, f: Flags,
                        v: Word)
    returns (m': Machine)
    requires 0 <= d < |s.regs| && 0 <= o < |s.regs|
    requires Here(L, code, s, m, [DpReg(AL, CMP, true, d, d, o), MovI(AL, d, 0), MovI(c, d, 1)])
    requires f == CompareFlags(s.regs[d], s.regs[o]) && v == if Holds(c, f) then 1 else 0
    ensures Reaches(Stepper(code), m, m') && Related(L, Set(s, d, v), m')
  {
    hide Reaches, Emits, CompareFlags;
    var asm, off := [DpReg(AL, CMP, true, d, d, o), MovI(AL, d, 0), MovI(c, d, 1)], L.offs[s.pc];
    var m1 := m.(pc := m.pc + 4, flags := f);
    Executes(code, off, asm, 0, m, m1);
    var m2 := SetR(m1.(pc := m.pc + 8), d, 0);
    Executes(code, off, asm, 1, m1, m2);
    m' := SetR(m1.(pc := m.pc + 12), d, v);
    assert m2.(pc := m.pc + 12) == SetR(m1.(pc := m.pc + 12), d, 0);
    assert SetR(m2.(pc := m.pc + 12), d, 1) == SetR(m1.(pc := m.pc + 12), d, 1);
    Executes(code, off, asm, 2, m2, m');
    ReachesThen(Stepper(code), m, m1, m2);
    ReachesThen(Stepper(code), m, m2, m');
    RelatedFlags(L, s, m, f);
    RelatedSet(L, s, m.(flags := f), d, v, s.pc + 1);
  }

  /** MOVW and MOVT build a whole value. */
  lemma SimWide(L: Layout, code: Code, s: IlMachine.State, m: Machine, d: int, val: int) returns (m': Machine)
    requires 0 <= d < |s.regs| && Here(L, code, s, m, Wide(d, val))
    ensures Reaches(Stepper(code), m, m') && Related(L, Set(s, d, Wrap(val)), m')
  {
    hide Reaches, Emits, WithTop;
    var asm, off := Wide(d, val), L.offs[s.pc];
    WideHalves(val);
    var m1 := SetR(m.(pc := m.pc + 4), d, Wrap(val % 0x1_0000));
    Executes(code, off, asm, 0, m, m1);
    m' := SetR(m.(pc := m.pc + 8), d, Wrap(val));
    assert m' == SetR(m1.(pc := m.pc + 8), d, Wrap(val));
    Executes(code, off, asm, 1, m1, m');
    ReachesThen(Stepper(code), m, m1, m');
    RelatedSet(L, s, m, d, Wrap(val), s.pc + 1);
  }

  lemma SimConstant(L: Layout, code: Code, s: IlMachine.State, m: Machine, d: int, val: int) returns (m': Machine)
    requires 0 <= d < |s.regs| && Here(L, code, s, m, NumericConstant(d, val))
    ensures Reaches(Stepper(code), m, m') && Related(L, Set(s, d, Wrap(val)), m')
  {
    hide Reaches, Emits;
    if val >= 0 && val < 256 {
      SimOne(L, code, s, m, MovI(AL, d, val), d, Wrap(val));
      m' := SetR(m.(pc := m.pc + 4), d, Wrap(val));
    } else {
      m' := SimWide(L, code, s, m, d, val);
    }
  }

  /** A local's address, from the frame pointer in two additions. */
  lemma SimLocal(L: Layout, code: Code, s: IlMachine.State, m: Machine, d: int, offset: int) returns (m': Machine)
    requires 0 <= d < |s.regs| && Here(L, code, s, m, LocalAddr(d, offset))
    requires -0x1000_0000 < offset < 0x1000_0000
    ensures Reaches(Stepper(code), m, m') && Related(L, Set(s, d, Wrap(s.fp + offset)), m')
  {
    hide Reaches, Emits, Wrap;
    var asm, off := LocalAddr(d, offset), L.offs[s.pc];
    var low := offset % 256;
    var m1 := SetR(m.(pc := m.pc + 4), d, Wrap(s.fp + low));
    RunAddI(code, off, asm, 0, m, d, S0, low);
    RunAddI(code, off, asm, 1, m1, d, d, offset - low);
    WrapWrap(s.fp + low, offset - low);
    m' := SetR(m.(pc := m.pc + 8), d, Wrap(s.fp + offset));
    assert m' == SetR(m1.(pc := m.pc + 8), d, Wrap(s.fp + offset));
    ReachesThen(Stepper(code), m, m1, m');
    RelatedSet(L, s, m, d, Wrap(s.fp + offset), s.pc + 1);
  }

  /** One instruction that changes memory or the stack pointer only. */
  lemma SimOther(L: Layout, code: Code, s: IlMachine.State, m: Machine, ins: Arm, sp: Word, mem: Mem)
    requires Here(L, code, s, m, [ins]) && Legal(ins)
    requires Execute(ins, m) == Some(SetR(m.(pc := m.pc + 4, mem := mem), SP, sp))
    ensures var m' := SetR(m.(pc := m.pc + 4, mem := mem), SP, sp);
            Reaches(Stepper(code), m, m') && Related(L, s.(pc := s.pc + 1, sp := sp, mem := mem), m')
  {
    hide Reaches, Emits, Execute;
    Executes(code, L.offs[s.pc], [ins], 0, m, SetR(m.(pc := m.pc + 4, mem := mem), SP, sp));
  }

  lemma SimPush(L: Layout, code: Code, s: IlMachine.State, m: Machine, d: int) returns (m': Machine)
    requires 0 <= d < |s.regs| && Here(L, code, s, m, [AddI(SP, SP, -16), Sw(d, SP, 0)])
    ensures Reaches(Stepper(code), m, m')
    ensures var sp := Wrap(s.sp - 16);
            Related(L, s.(pc := s.pc + 1, sp := sp, mem := StoreWord(s.mem, sp, s.regs[d])), m')
  {
    hide Reaches, Emits, StoreWord;
    var asm, off := [AddI(SP, SP, -16), Sw(d, SP, 0)], L.offs[s.pc];
    var sp := Wrap(s.sp - 16);
    var m1 := SetR(m.(pc := m.pc + 4), SP, sp);
    RunAddI(code, off, asm, 0, m, SP, SP, -16);
    m' := m1.(pc := m.pc + 8, mem := StoreWord(s.mem, sp, s.regs[d]));
    RunSw(code, off, asm, 1, m1, d, SP, 0);
    ReachesThen(Stepper(code), m, m1, m');
  }

  lemma SimPop(L: Layout, code: Code, s: IlMachine.State, m: Machine, d: int) returns (m': Machine)
    requires 0 <= d < |s.regs| && Here(L, code, s, m, [Lw(d, SP, 0), AddI(SP, SP, 16)])
    ensures Reaches(Stepper(code), m, m')
    ensures Related(L, Set(s, d, LoadWord(s.mem, s.sp)).(sp := Wrap(s.sp + 16)), m')
  {
    hide Reaches, Emits, LoadWord;
    var asm, off := [Lw(d, SP, 0), AddI(SP, SP, 16)], L.offs[s.pc];
    var v := LoadWord(s.mem, s.sp);
    var m1 := SetR(m.(pc := m.pc + 4), d, v);
    RunLw(code, off, asm, 0, m, d, SP, 0);
    m' := SetR(m1.(pc := m.pc + 8), SP, Wrap(s.sp + 16));
    RunAddI(code, off, asm, 1, m1, SP, SP, 16);
    ReachesThen(Stepper(code), m, m1, m');
  }

  // ----- control transfer -----

  lemma SimBranch(L: Layout, code: Code, s: IlMachine.State, m: Machine, asm: seq<Arm>, link: bool, target: int)
    returns (m': Machine)
    requires Related(L, s, m) && code.start == L.codeStart && 0 <= target < |L.offs|
    requires var jump := Branch(AL, link, L.offs[target] - L.offs[s.pc]);
             Legal(jump) && |asm| > 0 && asm[0] == jump && Emits(code, L.offs[s.pc], asm)
    ensures Reaches(Stepper(code), m, m')
    ensures Related(L, s.(pc := target, ra := if link then Wrap(m.pc + 4) else s.ra), m')
  {
    hide Reaches, Emits;
    var there := m.(pc := L.codeStart + L.offs[target]);
    m' := if link then SetR(there, LR, Wrap(m.pc + 4)) else there;
    Executes(code, L.offs[s.pc], asm, 0, m, m');
  }

  lemma SimCondJump(L: Layout, code: Code, s: IlMachine.State, m: Machine, jz: bool, d: int, target: int, ofs: int)
    returns (m': Machine)
    requires 0 <= d < |s.regs| && 0 <= target < |L.offs|
    requires Here(L, code, s, m, CondJump(jz, d, ofs))
    requires ofs == L.offs[target] - L.offs[s.pc] - 4 && ofs % 4 == 0 && -0x10_0010 <= ofs <= 0x10_0010
    ensures Reaches(Stepper(code), m, m')
    ensures Related(L, s.(pc := if (s.regs[d] == 0) == jz then target else s.pc + 1), m')
  {
    hide Reaches, Emits;
    var asm, off := CondJump(jz, d, ofs), L.offs[s.pc];
    var f := TestFlags(s.regs[d], 0, m.flags);
    var m1 := m.(pc := m.pc + 4, flags := f);
    Executes(code, off, asm, 0, m, m1);
    m' := m1.(pc := if (s.regs[d] == 0) == jz then L.codeStart + L.offs[target] else m.pc + 8);
    Executes(code, off, asm, 1, m1, m');
    ReachesThen(Stepper(code), m, m1, m');
  }

  lemma SimPointerCall(P: Program, L: Layout, code: Code, s: IlMachine.State, m: Machine, asm: seq<Arm>, o: int, e: int)
    returns (m': Machine)
    requires GoodLayout(Backend.Arm, P, L) && Related(L, s, m) && code.start == L.codeStart && 0 <= o < |s.regs|
    requires 0 <= e < |P.il| && IlMachine.CodeAddr(L, e) == s.regs[o]
    requires |asm| > 0 && asm[0] == BranchLinkReg(AL, o) && Emits(code, L.offs[s.pc], asm)
    ensures Reaches(Stepper(code), m, m')
    ensures Related(L, s.(pc := e, ra := Wrap(m.pc + 4)), m')
  {
    hide Reaches, Emits;
    CodeAddrAligned(Backend.Arm, P, L, e);
    m' := SetR(m.(pc := s.regs[o]), LR, Wrap(m.pc + 4));
    Executes(code, L.offs[s.pc], asm, 0, m, m');
  }

  // ----- function entry and exit -----

  /** The parameter stores of an entry point, from the k-th on. */
  lemma {:induction false} SimStoreParams(L: Layout, code: Code, off: int, asm: seq<Arm>, j: nat, params: seq<Var>,
                                          k: nat, s: IlMachine.State, m: Machine) returns (m': Machine)
    requires k <= |params| <= |s.regs| <= 11 && |m.r| == 15 && ShortOffsets(params)
    requires Emits(code, off, asm) && j <= |asm| && asm[j..] == StoreParamsCode(params, k)
    requires m.pc == code.start + off + 4 * j && m.r[S0] == s.fp && m.mem == s.mem
    requires forall i :: 0 <= i < |s.regs| ==> s.regs[i] == m.r[i]
    ensures Reaches(Stepper(code), m, m')
    ensures m' == m.(pc := code.start + off + 4 * |asm|,
                     mem := IlMachine.StoreParams(s.mem, s.fp, params, s.regs, k))
    decreases |params| - k
  {
    hide Reaches, Emits, Wrap, StoreWord;
    if k == |params| {
      m' := m;
      ReachesSelf(Stepper(code), m);
    } else {
      assert asm[j] == Sw(k, S0, -params[k].offset) && asm[j + 1..] == StoreParamsCode(params, k + 1);
      RunSw(code, off, asm, j, m, k, S0, -params[k].offset);
      var m1 := m.(pc := m.pc + 4, mem := StoreWord(s.mem, Wrap(s.fp - params[k].offset), s.regs[k]));
      var s1 := s.(mem := StoreWord(s.mem, Wrap(s.fp - params[k].offset), s.regs[k]));
      m' := SimStoreParams(L, code, off, asm, j + 1, params, k + 1, s1, m1);
      ReachesThen(Stepper(code), m, m1, m');
    }
  }

  /** The frame's addresses, seen from the lowered stack pointer as the code sees them. */
  lemma FrameAddresses(sp: Word, len: int)
    ensures var low, fp := Wrap(sp + (-16 - len)), Wrap(sp - 16);
            Wrap(low + (12 + len)) == Wrap(fp + 12) && Wrap(low + (8 + len)) == Wrap(fp + 8) && Wrap(low + len) == fp
  {
    WrapWrap(sp - 16 - len, 12 + len);
    WrapWrap(sp - 16 - len, 8 + len);
    WrapWrap(sp - 16 - len, len);
    WrapWrap(sp - 16, 12);
    WrapWrap(sp - 16, 8);
  }

  lemma SimEntrySaves(L: Layout, code: Code, s: IlMachine.State, m: Machine, f: Function) returns (m': Machine)
    requires Here(L, code, s, m, EntryCode(f)) && SizedFunction(f)
    ensures Reaches(Stepper(code), m, m')
    ensures var fp := Wrap(s.sp - 16);
            m' == m.(pc := m.pc + 16, r := m.r[SP := Wrap(s.sp - 16 - f.paramsSize)][S0 := fp],
                     mem := StoreWord(StoreWord(s.mem, Wrap(fp + 12), s.fp), Wrap(fp + 8), s.ra))
  {
    hide Reaches, Emits, Wrap, StoreWord;
    var len, asm, off := f.paramsSize, EntryCode(f), L.offs[s.pc];
    FrameAddresses(s.sp, len);
    var low := Wrap(s.sp - 16 - len);
    var m1 := m.(pc := m.pc + 4, r := m.r[SP := low]);
    RunAddI(code, off, asm, 0, m, SP, SP, -16 - len);
    var fp: int := Wrap(s.sp - 16);
    var m2 := m1.(pc := m.pc + 8, mem := StoreWord(s.mem, Wrap(fp + 12), s.fp));
    RunSw(code, off, asm, 1, m1, S0, SP, 12 + len);
    var m3 := m2.(pc := m.pc + 12, mem := StoreWord(m2.mem, Wrap(fp + 8), s.ra));
    RunSw(code, off, asm, 2, m2, LR, SP, 8 + len);
    m' := m3.(pc := m.pc + 16, r := m3.r[S0 := fp]);
    RunAddI(code, off, asm, 3, m3, S0, SP, len);
    ReachesThen(Stepper(code), m, m1, m2);
    ReachesThen(Stepper(code), m, m2, m3);
    ReachesThen(Stepper(code), m, m3, m');
  }

  lemma SimEntry(L: Layout, code: Code, s: IlMachine.State, m: Machine, f: Function) returns (m': Machine)
    requires |f.params| <= |s.regs| && Here(L, code, s, m, EntryCode(f)) && SizedFunction(f)
    ensures Reaches(Stepper(code), m, m') && Related(L, IlMachine.Enter(s, f), m')
  {
    hide Reaches, Emits, Wrap, StoreWord, LoadWord;
    var asm := EntryCode(f);
    var m4 := SimEntrySaves(L, code, s, m, f);
    assert asm[4..] == StoreParamsCode(f.params, 0);
    var s4 := s.(fp := Wrap(s.sp - 16), mem := m4.mem);
    m' := SimStoreParams(L, code, L.offs[s.pc], asm, 4, f.params, 0, s4, m4);
    ReachesThen(Stepper(code), m, m4, m');
  }

  /** The exit code, up to its jump to the saved return address. */
  lemma SimExitJump(L: Layout, code: Code, s: IlMachine.State, m: Machine, ra: Word) returns (m': Machine)
    requires Here(L, code, s, m, ExitCode())
    requires ra == LoadWord(s.mem, Wrap(Wrap(s.fp + 16) - 8)) && ra % 4 == 0
    ensures Reaches(Stepper(code), m, m')
    ensures var sp := Wrap(s.fp + 16);
            m' == m.(pc := ra, r := m.r[SP := sp][LR := ra][S0 := LoadWord(s.mem, Wrap(sp - 4))])
  {
    hide Reaches, Emits, Wrap, LoadWord;
    var asm, off := ExitCode(), L.offs[s.pc];
    var sp: int := Wrap(s.fp + 16);
    var fp: Word := LoadWord(s.mem, Wrap(sp - 4));
    var m1 := m.(pc := m.pc + 4, r := m.r[SP := sp]);
    RunAddI(code, off, asm, 0, m, SP, S0, 16);
    var m2 := m1.(pc := m.pc + 8, r := m1.r[LR := ra]);
    RunLw(code, off, asm, 1, m1, LR, SP, -8);
    var m3 := m2.(pc := m.pc + 12, r := m2.r[S0 := fp]);
    RunLw(code, off, asm, 2, m2, S0, SP, -4);
    m' := m3.(pc := ra);
    Executes(code, off, asm, 3, m3, m');
    ReachesThen(Stepper(code), m, m1, m2);
    ReachesThen(Stepper(code), m, m2, m3);
    ReachesThen(Stepper(code), m, m3, m');
  }

  /** Back behind the call's jump, the result is moved to the call's register. */
  lemma SimAfterCall(L: Layout, code: Code, s: IlMachine.State, m: Machine, c: int, asm: seq<Arm>, jump: Arm, d: int)
    returns (m': Machine)
    requires 0 <= d < |s.regs| && 0 <= c && c + 1 < |L.offs| && code.start == L.codeStart
    requires Emits(code, L.offs[c], asm) && asm == CallCode(jump, d) && L.offs[c + 1] == L.offs[c] + 4 * |asm|
    requires m.pc == L.codeStart + L.offs[c] + 4
    requires |m.r| == 15 && m.r[LR] == s.ra && m.r[SP] == s.sp && m.r[S0] == s.fp && m.mem == s.mem
    requires |s.regs| <= 11 && forall k :: 0 <= k < |s.regs| ==> s.regs[k] == m.r[k]
    ensures Reaches(Stepper(code), m, m')
    ensures Related(L, s.(pc := c + 1, regs := s.regs[d := s.regs[0]]), m')
  {
    hide Reaches, Emits;
    if d == 0 {
      m' := m;
      ReachesSelf(Stepper(code), m);
    } else {
      m' := SetR(m.(pc := m.pc + 4), d, s.regs[0]);
      Executes(code, L.offs[c], asm, 1, m, m');
    }
  }

  // ----- where the backends differ -----

  /** The operands on which ARM code computes what the IL means. */
  ghost predicate ArmAgrees(P: Program, s: IlMachine.State) {
    0 <= s.pc < |P.il| ==>
      var ins := P.il[s.pc];
      && (ins.op.Not? && 0 <= ins.param < |s.regs| ==> s.regs[ins.param] <= 1)
      && ((ins.op.BitLshift? || ins.op.BitRshift?) && 0 <= ins.param < |s.regs| && 0 <= ins.int1 < |s.regs| ==>
            s.regs[ins.int1] % 256 < 32 || Binary(ins.op, s.regs[ins.param], s.regs[ins.int1]) == 0)
  }

  /** `!` as one minus the operand is right exactly on truth values. */
  lemma NotAgrees(x: Word)
    ensures Wrap(1 - x) == LogicalNot(x) <==> x <= 1
  {
    var d: int := 1 - x;
    assert Wrap(d) == if x <= 1 then d else d + 0x1_0000_0000;
  }

  /** Shifts agree exactly when the count's low byte is below 32, or the masked shift gives zero as well. */
  lemma ShiftAgrees(a: Word, b: Word)
    ensures ShiftResult(LSL, a, b) == Binary(BitLshift, a, b) <==> b % 256 < 32 || Shl(a, b % 32) == 0
    ensures ShiftResult(LSR, a, b) == Binary(BitRshift, a, b) <==> b % 256 < 32 || Shr(a, b % 32) == 0
  {
    hide Shl, Shr;
    CountBack(b);
  }

  lemma CountBack(b: Word)
    ensures b % 256 % 32 == b % 32
  {
    assert b == 256 * (b / 256) + b % 256;
    assert b % 256 == 32 * (b % 256 / 32) + b % 256 % 32;
    RemainderUnique(b, 32, 8 * (b / 256) + b % 256 / 32, b % 256 % 32);
  }

  // ----- the simulation -----

  /** The setting of a step: as for the other backend, and the operands are ones ARM agrees on. */
  ghost predicate Stepping(P: Program, L: Layout, code: Code, s: IlMachine.State, m: Machine, t: IlMachine.State) {
    && Placed(Backend.Arm, P, L, code) && Sized(P) && Related(L, s, m) && ArmAgrees(P, s)
    && 0 <= s.pc < |P.il| && IlMachine.Step(P, L, false, s) == Some(t)
  }

  /** The instructions the placed code holds for an IL operation. */
  lemma LoweredAt(P: Program, L: Layout, code: Code, i: int) returns (asm: seq<Arm>)
    requires Placed(Backend.Arm, P, L, code) && 0 <= i < |P.il|
    requires !P.il[i].op.Generic? && !P.il[i].op.Syscall? && !P.il[i].op.Exit?
    ensures Lower(P, L, BlockAt(P, i), P.il[i], L.offs[i]) == Some(asm)
    ensures Emits(code, L.offs[i], asm) && L.offs[i + 1] == L.offs[i] + 4 * |asm|
    ensures |L.offs| == |P.il| + 1 && code.start == L.codeStart && GoodLayout(Backend.Arm, P, L)
  {
    assert PlacedAt(Backend.Arm, P, L, code, i);
    asm := Lower(P, L, BlockAt(P, i), P.il[i], L.offs[i]).value;
    EmitsLowered(P, L, code, i, asm);
  }

  lemma StepAlu(P: Program, L: Layout, code: Code, s: IlMachine.State, m: Machine, t: IlMachine.State)
    returns (m': Machine)
    requires Stepping(P, L, code, s, m, t)
    requires IsBinary(P.il[s.pc].op) || P.il[s.pc].op.Negate? || P.il[s.pc].op.Not?
    ensures Reaches(Stepper(code), m, m') && Related(L, t, m')
  {
    hide Reaches, Emits, Placed, Execute;
    var ins := P.il[s.pc];
    var asm := LoweredAt(P, L, code, s.pc);
    if IsComparison(ins.op) {
      m' := SimCompare(L, code, s, m, ins.op, ins.param, ins.int1);
    } else {
      m' := StepAluOne(P, L, code, s, m, t, asm);
    }
  }

  lemma StepAluOne(P: Program, L: Layout, code: Code, s: IlMachine.State, m: Machine, t: IlMachine.State, asm: seq<Arm>)
    returns (m': Machine)
    requires Stepping(P, L, code, s, m, t)
    requires var op := P.il[s.pc].op; !IsComparison(op) && (IsBinary(op) || op.Negate? || op.Not?)
    requires Lower(P, L, BlockAt(P, s.pc), P.il[s.pc], L.offs[s.pc]) == Some(asm)
    requires Here(L, code, s, m, asm)
    ensures Reaches(Stepper(code), m, m') && Related(L, t, m')
  {
    hide Reaches, Emits, Placed, Wrap, Shl, Shr, And, Or;
    var ins := P.il[s.pc];
    var d, o := ins.param, ins.int1;
    m' := SetR(m.(pc := m.pc + 4), d, t.regs[d]);
    if ins.op.Not? {
      NotAgrees(s.regs[d]);
      assert Wrap(1) == 1 by { WrapIsMod(1); }
    } else if ins.op.Negate? {
      assert Wrap(0) == 0 by { WrapIsMod(0); }
    } else if ins.op.BitLshift? || ins.op.BitRshift? {
      ShiftAgrees(s.regs[d], s.regs[o]);
    }
    SimOne(L, code, s, m, asm[0], d, t.regs[d]);
  }

  lemma FindVarIn(vs: seq<Var>, name: string)
    requires FindVar(vs, name).Some?
    ensures FindVar(vs, name).value in vs
  {
  }

  lemma {:induction false} FindInChainSized(P: Program, b: nat, name: string)
    requires Sized(P) && FindInChain(P.blocks, b, name).Some?
    ensures 0 <= FindInChain(P.blocks, b, name).value.offset < 0x1000_0000
    decreases b
  {
    assert SizedBlock(P.blocks[b]);
    if FindVar(P.blocks[b].locals, name).Some? {
      FindVarIn(P.blocks[b].locals, name);
    } else {
      FindInChainSized(P, P.blocks[b].parent.value, name);
    }
  }

  /** Sized tables give every local an offset the two additions can take. */
  lemma LocalSized(P: Program, bd: Option<nat>, name: string, ofs: int)
    requires Sized(P) && Resolve(P, bd, name) == Local(ofs)
    ensures 0 <= ofs < 0x1000_0000
  {
    var b := bd.value;
    if FindInChain(P.blocks, b, name).Some? {
      FindInChainSized(P, b, name);
    } else {
      var f := P.blocks[b].func.value;
      assert SizedFunction(P.funcs[f]);
      FindVarIn(P.funcs[f].params, name);
    }
  }

  lemma StepValue(P: Program, L: Layout, code: Code, s: IlMachine.State, m: Machine, t: IlMachine.State)
    returns (m': Machine)
    requires Stepping(P, L, code, s, m, t)
    requires P.il[s.pc].op.LoadNumericConstant? || P.il[s.pc].op.LoadDataAddress? || P.il[s.pc].op.GetVarAddr?
    ensures Reaches(Stepper(code), m, m') && Related(L, t, m')
  {
    hide Reaches, Emits, Placed, Sized, Execute, IlMachine.Step, Resolve, BlockAt;
    IlMachine.StepOfValue(P, L, false, s, t);
    var ins := P.il[s.pc];
    var asm := LoweredAt(P, L, code, s.pc);
    if ins.op.LoadNumericConstant? {
      m' := SimConstant(L, code, s, m, ins.param, ins.int1);
    } else if ins.op.LoadDataAddress? {
      m' := SimWide(L, code, s, m, ins.param, L.dataStart + ins.int1 + L.codeStart);
    } else {
      var bd := BlockAt(P, s.pc);
      match Resolve(P, bd, ins.name)
      case Global(ofs) => m' := SimWide(L, code, s, m, ins.param, L.dataStart + ofs + L.codeStart);
      case Local(ofs) =>
        LocalSized(P, bd, ins.name, ofs);
        m' := SimLocal(L, code, s, m, ins.param, -ofs);
      case FunctionEntry(e) => m' := SimWide(L, code, s, m, ins.param, L.codeStart + L.offs[e]);
    }
  }

  lemma StepMemory(P: Program, L: Layout, code: Code, s: IlMachine.State, m: Machine, t: IlMachine.State)
    returns (m': Machine)
    requires Stepping(P, L, code, s, m, t) && (P.il[s.pc].op.ReadAddr? || P.il[s.pc].op.WriteAddr?)
    ensures Reaches(Stepper(code), m, m') && Related(L, t, m')
  {
    hide Reaches, Emits, Placed, LoadWord, StoreWord, LoadByte, StoreByte, IlMachine.Step;
    IlMachine.StepOfMemory(P, L, false, s, t);
    var ins := P.il[s.pc];
    var asm := LoweredAt(P, L, code, s.pc);
    var next := m.(pc := m.pc + 4);
    if ins.op.ReadAddr? {
      m' := SetR(next, ins.param, t.regs[ins.param]);
      SimOne(L, code, s, m, asm[0], ins.param, t.regs[ins.param]);
    } else {
      m' := SetR(next.(mem := t.mem), SP, s.sp);
      assert m' == next.(mem := t.mem);
      SimOther(L, code, s, m, asm[0], s.sp, t.mem);
    }
  }

  lemma StepStack(P: Program, L: Layout, code: Code, s: IlMachine.State, m: Machine, t: IlMachine.State)
    returns (m': Machine)
    requires Stepping(P, L, code, s, m, t) && (P.il[s.pc].op.Push? || P.il[s.pc].op.Pop?)
    ensures Reaches(Stepper(code), m, m') && Related(L, t, m')
  {
    hide Reaches, Emits, Placed, Execute, LoadWord, StoreWord, IlMachine.Step;
    IlMachine.StepOfStack(P, L, false, s, t);
    var ins := P.il[s.pc];
    var asm := LoweredAt(P, L, code, s.pc);
    if ins.op.Push? {
      m' := SimPush(L, code, s, m, ins.param);
    } else {
      m' := SimPop(L, code, s, m, ins.param);
    }
  }

  lemma StepMarker(P: Program, L: Layout, code: Code, s: IlMachine.State, m: Machine, t: IlMachine.State)
    returns (m': Machine)
    requires Stepping(P, L, code, s, m, t)
    requires P.il[s.pc].op.Label? || P.il[s.pc].op.BlockStart? || P.il[s.pc].op.BlockEnd?
    ensures Reaches(Stepper(code), m, m') && Related(L, t, m')
  {
    hide Reaches, Emits, Placed, IlMachine.Step;
    IlMachine.StepOfMarker(P, L, false, s, t);
    var asm := LoweredAt(P, L, code, s.pc);
    if |asm| == 0 {
      m' := m;
      ReachesSelf(Stepper(code), m);
    } else {
      assert SizedBlock(P.blocks[P.il[s.pc].int1]);
      m' := SetR(m.(pc := m.pc + 4, mem := s.mem), SP, t.sp);
      SimOther(L, code, s, m, asm[0], t.sp, s.mem);
    }
  }

  lemma JumpLowered(P: Program, L: Layout, bd: Option<nat>, ins: Instr, pc: int, target: int)
    requires ins.op.Jump? || ins.op.Return? || ins.op.FunctionCall?
    requires Lower(P, L, bd, ins, pc).Some? && IlMachine.JumpTarget(P, ins) == Some(target) && 0 <= target < |L.offs|
    ensures var asm := Lower(P, L, bd, ins, pc).value;
            |asm| > 0 && asm[0] == Branch(AL, ins.op.FunctionCall?, L.offs[target] - pc)
  {
  }

  lemma StepJump(P: Program, L: Layout, code: Code, s: IlMachine.State, m: Machine, t: IlMachine.State)
    returns (m': Machine)
    requires Stepping(P, L, code, s, m, t)
    requires P.il[s.pc].op.Jump? || P.il[s.pc].op.Return? || P.il[s.pc].op.FunctionCall?
    ensures Reaches(Stepper(code), m, m') && Related(L, t, m')
  {
    hide Reaches, Emits, Placed, Sized, Execute, GoodLayout, Lower, IlMachine.Step, IlMachine.JumpTarget, BlockAt;
    var ins := P.il[s.pc];
    var asm := LoweredAt(P, L, code, s.pc);
    IlMachine.StepOfJump(P, L, false, s, t);
    JumpLowered(P, L, BlockAt(P, s.pc), ins, L.offs[s.pc], t.pc);
    DistanceFits(Backend.Arm, P, L, s.pc, t.pc);
    m' := SimBranch(L, code, s, m, asm, ins.op.FunctionCall?, t.pc);
  }

  lemma StepCondJump(P: Program, L: Layout, code: Code, s: IlMachine.State, m: Machine, t: IlMachine.State)
    returns (m': Machine)
    requires Stepping(P, L, code, s, m, t) && (P.il[s.pc].op.Jz? || P.il[s.pc].op.Jnz?)
    ensures Reaches(Stepper(code), m, m') && Related(L, t, m')
  {
    hide Reaches, Emits, Placed, Sized, Execute, GoodLayout, IlMachine.Step, Related;
    IlMachine.StepOfCondJump(P, L, false, s, t);
    var ins := P.il[s.pc];
    var asm := LoweredAt(P, L, code, s.pc);
    DistanceFits(Backend.Arm, P, L, s.pc, ins.int1);
    var ofs := L.offs[ins.int1] - L.offs[s.pc] - 4;
    m' := SimCondJump(L, code, s, m, ins.op.Jz?, ins.param, ins.int1, ofs);
  }

  lemma StepPointerCall(P: Program, L: Layout, code: Code, s: IlMachine.State, m: Machine, t: IlMachine.State)
    returns (m': Machine)
    requires Stepping(P, L, code, s, m, t) && P.il[s.pc].op.PointerCall?
    ensures Reaches(Stepper(code), m, m') && Related(L, t, m')
  {
    hide Reaches, Emits, Placed, Sized, Execute, GoodLayout;
    var ins := P.il[s.pc];
    var asm := LoweredAt(P, L, code, s.pc);
    assert IlMachine.EntryAt(P, L, s.regs[ins.int1], t.pc);
    m' := SimPointerCall(P, L, code, s, m, asm, ins.int1, t.pc);
  }

  lemma StepEntry(P: Program, L: Layout, code: Code, s: IlMachine.State, m: Machine, t: IlMachine.State)
    returns (m': Machine)
    requires Stepping(P, L, code, s, m, t) && P.il[s.pc].op.EntryPoint?
    ensures Reaches(Stepper(code), m, m') && Related(L, t, m')
  {
    hide Reaches, Emits, Placed, Execute, EntryCode, IlMachine.Enter, SizedFunction;
    var asm := LoweredAt(P, L, code, s.pc);
    var f := FindFunction(P.funcs, P.il[s.pc].name).value;
    assert SizedFunction(P.funcs[f]);
    m' := SimEntry(L, code, s, m, P.funcs[f]);
  }

  /** The code of a call is its jump, followed by a move of the result unless it belongs in r0. */
  lemma CallLowered(P: Program, L: Layout, code: Code, c: int) returns (asm: seq<Arm>, jump: Arm)
    requires Placed(Backend.Arm, P, L, code) && 0 <= c < |P.il| && IlMachine.IsCall(P.il[c])
    ensures asm == CallCode(jump, P.il[c].param)
    ensures Emits(code, L.offs[c], asm) && L.offs[c + 1] == L.offs[c] + 4 * |asm|
  {
    hide Emits, Placed;
    asm := LoweredAt(P, L, code, c);
    jump := asm[0];
  }

  lemma StepExit(P: Program, L: Layout, code: Code, s: IlMachine.State, m: Machine, t: IlMachine.State)
    returns (m': Machine)
    requires Stepping(P, L, code, s, m, t) && P.il[s.pc].op.ExitPoint?
    ensures Reaches(Stepper(code), m, m') && Related(L, t, m')
  {
    hide Reaches, Emits, Placed, Sized, Execute, CallCode, IlMachine.Step, LoadWord;
    var asm := LoweredAt(P, L, code, s.pc);
    IlMachine.StepOfExit(P, L, false, s, t);
    var c := t.pc - 1;
    CodeAddrAligned(Backend.Arm, P, L, c);
    var m1 := SimExitJump(L, code, s, m, t.ra);
    var call, jump := CallLowered(P, L, code, c);
    var s1 := t.(regs := s.regs);
    m' := SimAfterCall(L, code, s1, m1, c, call, jump, P.il[c].param);
    ReachesThen(Stepper(code), m, m1, m');
  }

  /** Whenever the IL steps on operands ARM agrees on, the machine reaches a state related to the IL's next state. */
  lemma StepSimulated(P: Program, L: Layout, code: Code, s: IlMachine.State, m: Machine, t: IlMachine.State)
    returns (m': Machine)
    requires Placed(Backend.Arm, P, L, code) && Sized(P) && Related(L, s, m) && ArmAgrees(P, s)
    requires IlMachine.Step(P, L, false, s) == Some(t)
    ensures Reaches(Stepper(code), m, m') && Related(L, t, m')
  {
    hide Reaches, Placed, Sized, Related, ArmAgrees;
    var op := P.il[s.pc].op;
    if IsBinary(op) || op.Negate? || op.Not? {
      m' := StepAlu(P, L, code, s, m, t);
    } else if op.LoadNumericConstant? || op.LoadDataAddress? || op.GetVarAddr? {
      m' := StepValue(P, L, code, s, m, t);
    } else if op.ReadAddr? || op.WriteAddr? {
      m' := StepMemory(P, L, code, s, m, t);
    } else if op.Push? || op.Pop? {
      m' := StepStack(P, L, code, s, m, t);
    } else if op.Label? || op.BlockStart? || op.BlockEnd? {
      m' := StepMarker(P, L, code, s, m, t);
    } else if op.Jump? || op.Return? || op.FunctionCall? {
      m' := StepJump(P, L, code, s, m, t);
    } else if op.Jz? || op.Jnz? {
      m' := StepCondJump(P, L, code, s, m, t);
    } else if op.PointerCall? {
      m' := StepPointerCall(P, L, code, s, m, t);
    } else if op.EntryPoint? {
      m' := StepEntry(P, L, code, s, m, t);
    } else {
      m' := StepExit(P, L, code, s, m, t);
    }
  }

  /** The IL's steps, as far as ARM agrees on their operands. */
  ghost function AgreedStepper(P: Program, L: Layout): IlMachine.State -> Option<IlMachine.State> {
    s => if ArmAgrees(P, s) then IlMachine.Step(P, L, false, s) else None
  }

  /** Every run of the IL on such operands is matched by a run of the machine. */
  lemma {:induction false} RunSimulated(P: Program, L: Layout, code: Code, s: IlMachine.State, m: Machine, n: nat,
                                        t: IlMachine.State) returns (m': Machine)
    requires Placed(Backend.Arm, P, L, code) && Sized(P) && Related(L, s, m)
    requires Run(AgreedStepper(P, L), s, n) == Some(t)
    ensures Reaches(Stepper(code), m, m') && Related(L, t, m')
    decreases n
  {
    hide Reaches, Placed, Sized, Related, ArmAgrees, IlMachine.Step;
    if n == 0 {
      m' := m;
      ReachesSelf(Stepper(code), m);
    } else {
      var s1 := IlMachine.Step(P, L, false, s).value;
      var m1 := StepSimulated(P, L, code, s, m, s1);
      m' := RunSimulated(P, L, code, s1, m1, n - 1, t);
      ReachesThen(Stepper(code), m, m1, m');
    }
  }
}
