/** A machine that runs IL with the frame protocol both backends share.

    Registers are numbered from 0.  A call leaves the address of the instruction after its jump in `ra`; the callee's
    entry point saves `ra` and the frame pointer at `fp + 8` and `fp + 12`, and its exit point takes both back from
    there.  Pushed values live in memory, sixteen bytes apart. */
module IlMachine {
  import opened Words
  import opened Il

  /** Where code generation put things: the address of the code, the distance from it to the data, and the offset in
      the code of each IL instruction. */
  datatype Layout = Layout(codeStart: int, dataStart: int, offs: seq<int>)

  datatype State = State(pc: int, regs: seq<Word>, sp: Word, fp: Word, ra: Word, mem: Mem)

  ghost function CodeAddr(L: Layout, i: int): int {
    L.codeStart + if 0 <= i < |L.offs| then L.offs[i] else 0
  }

  predicate IsCall(ins: Instr) {
    ins.op.FunctionCall? || ins.op.PointerCall?
  }

  /** The IL call whose jump leaves `a` in the return-address register. */
  ghost predicate CallSite(P: Program, L: Layout, a: Word, c: int) {
    0 <= c < |P.il| && IsCall(P.il[c]) && CodeAddr(L, c) + 4 == a
  }

  ghost predicate EntryAt(P: Program, L: Layout, a: Word, e: int) {
    0 <= e < |P.il| && P.il[e].op.EntryPoint? && CodeAddr(L, e) == a
  }

  ghost function AddressOf(P: Program, L: Layout, fp: Word, r: Resolved): Word
    requires !r.Undefined?
  {
    match r
    case Global(ofs) => Wrap(L.codeStart + L.dataStart + ofs)
    case Local(ofs) => Wrap(fp - ofs)
    case FunctionEntry(e) => Wrap(CodeAddr(L, e))
  }

  /** Stores registers k, k+1, ... as the parameters k, k+1, ... of a frame. */
  ghost function StoreParams(m: Mem, fp: Word, params: seq<Var>, regs: seq<Word>, k: nat): Mem
    requires k <= |params| <= |regs|
    decreases |params| - k
  {
    if k == |params| then m
    else StoreParams(StoreWord(m, Wrap(fp - params[k].offset), regs[k]), fp, params, regs, k + 1)
  }

  ghost function Load(m: Mem, a: Word, size: int, charSigned: bool): Option<Word> {
    if size == 4 then Some(LoadWord(m, a)) else if size == 1 then Some(LoadByte(m, a, charSigned)) else None
  }

  ghost function Store(m: Mem, a: Word, size: int, v: Word): Option<Mem> {
    if size == 4 then Some(StoreWord(m, a, v)) else if size == 1 then Some(StoreByte(m, a, v)) else None
  }

  ghost function Enter(s: State, f: Function): State
    requires |f.params| <= |s.regs|
  {
    var fp := Wrap(s.sp - 16);
    var saved := StoreWord(StoreWord(s.mem, Wrap(fp + 12), s.fp), Wrap(fp + 8), s.ra);
    s.(pc := s.pc + 1, sp := Wrap(s.sp - 16 - f.paramsSize), fp := fp,
       mem := StoreParams(saved, fp, f.params, s.regs, 0))
  }

  /** Control goes back behind the call that left the saved return address, with register 0 as its result. */
  ghost function Leave(P: Program, L: Layout, s: State): Option<State> {
    var sp := Wrap(s.fp + 16);
    var ra := LoadWord(s.mem, Wrap(sp - 8));
    if exists c :: CallSite(P, L, ra, c) && 0 <= P.il[c].param < |s.regs| then
      var c :| CallSite(P, L, ra, c) && 0 <= P.il[c].param < |s.regs|;
      Some(State(c + 1, s.regs[P.il[c].param := s.regs[0]], sp, LoadWord(s.mem, Wrap(sp - 4)), ra, s.mem))
    else None
  }

  /** One step; None when the instruction is not modelled or its operands make no sense. */
  ghost function Step(P: Program, L: Layout, charSigned: bool, s: State): Option<State> {
    if !(0 <= s.pc < |P.il|) then None else
    var ins := P.il[s.pc];
    var n := |s.regs|;
    var d, o := ins.param, ins.int1;
    var next := s.(pc := s.pc + 1);
    if IsBinary(ins.op) then
      if 0 <= d < n && 0 <= o < n then Some(next.(regs := s.regs[d := Binary(ins.op, s.regs[d], s.regs[o])])) else None
    else match ins.op
      case Not => if 0 <= d < n then Some(next.(regs := s.regs[d := LogicalNot(s.regs[d])])) else None
      case Negate => if 0 <= d < n then Some(next.(regs := s.regs[d := NegateWord(s.regs[d])])) else None
      case LoadNumericConstant => if 0 <= d < n then Some(next.(regs := s.regs[d := Wrap(ins.int1)])) else None
      case LoadDataAddress =>
        if 0 <= d < n then Some(next.(regs := s.regs[d := Wrap(L.codeStart + L.dataStart + ins.int1)])) else None
      case GetVarAddr =>
        var r := Resolve(P, BlockAt(P, s.pc), ins.name);
        if 0 <= d < n && !r.Undefined? then Some(next.(regs := s.regs[d := AddressOf(P, L, s.fp, r)])) else None
      case ReadAddr =>
        if 0 <= d < n && 0 <= o < n then
          match Load(s.mem, s.regs[o], ins.int2, charSigned)
          case Some(v) => Some(next.(regs := s.regs[d := v]))
          case None => None
        else None
      case WriteAddr =>
        if 0 <= d < n && 0 <= o < n then
          match Store(s.mem, s.regs[o], ins.int2, s.regs[d])
          case Some(m) => Some(next.(mem := m))
          case None => None
        else None
      case Push =>
        if 0 <= d < n then
          var sp := Wrap(s.sp - 16);
          Some(next.(sp := sp, mem := StoreWord(s.mem, sp, s.regs[d])))
        else None
      case Pop =>
        if 0 <= d < n then Some(next.(sp := Wrap(s.sp + 16), regs := s.regs[d := LoadWord(s.mem, s.sp)])) else None
      case Label => Some(next)
      case Jump => if 0 <= o < |P.il| then Some(s.(pc := o)) else None
      case Jz =>
        if 0 <= d < n && 0 <= o < |P.il| then Some(if s.regs[d] == 0 then s.(pc := o) else next) else None
      case Jnz =>
        if 0 <= d < n && 0 <= o < |P.il| then Some(if s.regs[d] != 0 then s.(pc := o) else next) else None
      case BlockStart =>
        Some(if HasLocals(P, o) then next.(sp := Wrap(s.sp - P.blocks[o].localsSize)) else next)
      case BlockEnd =>
        Some(if HasLocals(P, o) then next.(sp := Wrap(s.sp + P.blocks[o].localsSize)) else next)
      case Return =>
        (match FindFunction(P.funcs, ins.name)
         case Some(f) => if 0 <= P.funcs[f].exit < |P.il| then Some(s.(pc := P.funcs[f].exit)) else None
         case None => None)
      case FunctionCall =>
        (match FindFunction(P.funcs, ins.name)
         case Some(f) =>
           if 0 <= P.funcs[f].entry < |P.il| then
             Some(s.(pc := P.funcs[f].entry, ra := Wrap(CodeAddr(L, s.pc) + 4)))
           else None
         case None => None)
      case PointerCall =>
        if 0 <= o < n && exists e :: EntryAt(P, L, s.regs[o], e) then
          var e :| EntryAt(P, L, s.regs[o], e);
          Some(s.(pc := e, ra := Wrap(CodeAddr(L, s.pc) + 4)))
        else None
      case EntryPoint =>
        (match FindFunction(P.funcs, ins.name)
         case Some(f) => if |P.funcs[f].params| <= n then Some(Enter(s, P.funcs[f])) else None
         case None => None)
      case ExitPoint => Leave(P, L, s)
      case _ => None
  }

  ghost function Stepper(P: Program, L: Layout, charSigned: bool): State -> Option<State> {
    s => Step(P, L, charSigned, s)
  }

  // ----- what a step does, by kind of operation -----

  lemma StepOfCondJump(P: Program, L: Layout, charSigned: bool, s: State, t: State)
    requires Step(P, L, charSigned, s) == Some(t) && 0 <= s.pc < |P.il| && (P.il[s.pc].op.Jz? || P.il[s.pc].op.Jnz?)
    ensures var ins := P.il[s.pc];
            && 0 <= ins.param < |s.regs| && 0 <= ins.int1 < |P.il|
            && t == s.(pc := if (s.regs[ins.param] == 0) == (ins.op.Jz?) then ins.int1 else s.pc + 1)
  {
  }

  lemma StepOfMemory(P: Program, L: Layout, charSigned: bool, s: State, t: State)
    requires Step(P, L, charSigned, s) == Some(t) && 0 <= s.pc < |P.il|
    requires P.il[s.pc].op.ReadAddr? || P.il[s.pc].op.WriteAddr?
    ensures var ins := P.il[s.pc];
            var d, o := ins.param, ins.int1;
            && 0 <= d < |s.regs| && 0 <= o < |s.regs| && (ins.int2 == 4 || ins.int2 == 1)
            && (ins.op.ReadAddr? ==>
                  var v := Load(s.mem, s.regs[o], ins.int2, charSigned);
                  v.Some? && t == s.(pc := s.pc + 1, regs := s.regs[d := v.value]))
            && (ins.op.WriteAddr? ==>
                  var m := Store(s.mem, s.regs[o], ins.int2, s.regs[d]);
                  m.Some? && t == s.(pc := s.pc + 1, mem := m.value))
  {
    hide LoadWord, StoreWord, LoadByte, StoreByte;
  }

  lemma StepOfStack(P: Program, L: Layout, charSigned: bool, s: State, t: State)
    requires Step(P, L, charSigned, s) == Some(t) && 0 <= s.pc < |P.il| && (P.il[s.pc].op.Push? || P.il[s.pc].op.Pop?)
    ensures var d := P.il[s.pc].param;
            && 0 <= d < |s.regs|
            && (P.il[s.pc].op.Push? ==>
                  var sp := Wrap(s.sp - 16);
                  t == s.(pc := s.pc + 1, sp := sp, mem := StoreWord(s.mem, sp, s.regs[d])))
            && (P.il[s.pc].op.Pop? ==>
                  t == s.(pc := s.pc + 1, sp := Wrap(s.sp + 16), regs := s.regs[d := LoadWord(s.mem, s.sp)]))
  {
    hide LoadWord, StoreWord;
  }

  lemma StepOfMarker(P: Program, L: Layout, charSigned: bool, s: State, t: State)
    requires Step(P, L, charSigned, s) == Some(t) && 0 <= s.pc < |P.il|
    requires (P.il[s.pc].op.Label? || P.il[s.pc].op.BlockStart? || P.il[s.pc].op.BlockEnd?)
    ensures var ins := P.il[s.pc];
            var o := ins.int1;
            t == s.(pc := s.pc + 1, sp := if ins.op.Label? || !HasLocals(P, o) then s.sp
                                          else if ins.op.BlockStart? then Wrap(s.sp - P.blocks[o].localsSize)
                                          else Wrap(s.sp + P.blocks[o].localsSize))
  {
  }

  lemma StepOfValue(P: Program, L: Layout, charSigned: bool, s: State, t: State)
    requires Step(P, L, charSigned, s) == Some(t) && 0 <= s.pc < |P.il|
    requires (P.il[s.pc].op.LoadNumericConstant? || P.il[s.pc].op.LoadDataAddress? || P.il[s.pc].op.GetVarAddr?)
    ensures var ins := P.il[s.pc];
            && 0 <= ins.param < |s.regs|
            && (ins.op.GetVarAddr? ==> !Resolve(P, BlockAt(P, s.pc), ins.name).Undefined?)
            && t == s.(pc := s.pc + 1, regs := s.regs[ins.param :=
                         if ins.op.LoadNumericConstant? then Wrap(ins.int1)
                         else if ins.op.LoadDataAddress? then Wrap(L.codeStart + L.dataStart + ins.int1)
                         else AddressOf(P, L, s.fp, Resolve(P, BlockAt(P, s.pc), ins.name))])
  {
    hide Resolve, BlockAt;
  }

  /** Where an unconditional transfer goes. */
  function JumpTarget(P: Program, ins: Instr): Option<int> {
    if ins.op.Jump? then Some(ins.int1)
    else match FindFunction(P.funcs, ins.name)
      case None => None
      case Some(f) => Some(if ins.op.Return? then P.funcs[f].exit else P.funcs[f].entry)
  }

  lemma StepOfJump(P: Program, L: Layout, charSigned: bool, s: State, t: State)
    requires Step(P, L, charSigned, s) == Some(t) && 0 <= s.pc < |P.il|
    requires P.il[s.pc].op.Jump? || P.il[s.pc].op.Return? || P.il[s.pc].op.FunctionCall?
    ensures JumpTarget(P, P.il[s.pc]) == Some(t.pc) && 0 <= t.pc < |P.il|
    ensures t == s.(pc := t.pc, ra := if P.il[s.pc].op.FunctionCall? then Wrap(CodeAddr(L, s.pc) + 4) else s.ra)
  {
  }

  lemma StepOfExit(P: Program, L: Layout, charSigned: bool, s: State, t: State)
    requires Step(P, L, charSigned, s) == Some(t) && 0 <= s.pc < |P.il| && P.il[s.pc].op.ExitPoint?
    ensures CallSite(P, L, t.ra, t.pc - 1) && 0 <= P.il[t.pc - 1].param < |s.regs|
    ensures var sp := Wrap(s.fp + 16);
            t == State(t.pc, s.regs[P.il[t.pc - 1].param := s.regs[0]], sp, LoadWord(s.mem, Wrap(sp - 4)),
                       LoadWord(s.mem, Wrap(sp - 8)), s.mem)
  {
    hide LoadWord;
  }
}
