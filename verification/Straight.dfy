/** IL without jumps, run as one sequence on numbered registers, a stack of pushed values, and memory. */
module Straight {
  import opened Words
  import opened Il
  import opened Semantics
  import IlMachine

  /** `entered` counts the blocks entered so far, `calls` the calls made. */
  datatype St = St(regs: seq<Word>, stack: seq<Word>, mem: Mem, entered: nat, calls: nat)

  /** A call leaves its result in the named register and anything in the others. */
  ghost function AfterCall(env: Env, st: St, d: int, r: (Word, Mem)): St
    requires 0 <= d < |st.regs|
  {
    var junk := seq<Word>(|st.regs|, k requires 0 <= k => env.clobber(st.calls, k));
    st.(regs := junk[d := r.0], mem := r.1, calls := st.calls + 1)
  }

  /** None where an operand makes no sense, and for control transfers. */
  ghost function ExecInstr(env: Env, ins: Instr, st: St): Option<St> {
    var n := |st.regs|;
    var d, o := ins.param, ins.int1;
    if !(0 <= d < n) then None
    else if IsBinary(ins.op) then
      if 0 <= o < n then Some(st.(regs := st.regs[d := Binary(ins.op, st.regs[d], st.regs[o])])) else None
    else match ins.op
      case Not => Some(st.(regs := st.regs[d := LogicalNot(st.regs[d])]))
      case Negate => Some(st.(regs := st.regs[d := NegateWord(st.regs[d])]))
      case LoadNumericConstant => Some(st.(regs := st.regs[d := Wrap(ins.int1)]))
      case GetVarAddr => if ins.name in env.addr then Some(st.(regs := st.regs[d := env.addr[ins.name]])) else None
      case ReadAddr =>
        if 0 <= o < n then
          match ReadMem(env, st.mem, st.regs[o], ins.int2)
          case Some(v) => Some(st.(regs := st.regs[d := v]))
          case None => None
        else None
      case WriteAddr =>
        if 0 <= o < n then
          match WriteMem(env, st.mem, st.regs[o], ins.int2, st.regs[d])
          case Some(m) => Some(st.(mem := m))
          case None => None
        else None
      case Push => Some(st.(stack := st.stack + [st.regs[d]]))
      case Pop =>
        if st.stack != [] then
          Some(st.(stack := st.stack[..|st.stack| - 1], regs := st.regs[d := st.stack[|st.stack| - 1]]))
        else None
      case FunctionCall =>
        if ins.name in env.arity && env.arity[ins.name] <= n then
          Some(AfterCall(env, st, d, env.call(ins.name, st.regs[..env.arity[ins.name]], st.mem)))
        else None
      case PointerCall =>
        if 0 <= o < n && env.pointerArity(st.regs[o]) <= n then
          Some(AfterCall(env, st, d, env.pointerCall(st.regs[o], st.regs[..env.pointerArity(st.regs[o])], st.mem)))
        else None
      case _ => None
  }

  ghost function Exec(env: Env, code: seq<Instr>, st: St): Option<St> {
    if code == [] then Some(st)
    else match ExecInstr(env, code[0], st)
      case None => None
      case Some(t) => Exec(env, code[1..], t)
  }

  lemma {:induction false} ExecThen(env: Env, a: seq<Instr>, b: seq<Instr>, st: St, t: St, u: St)
    requires Exec(env, a, st) == Some(t) && Exec(env, b, t) == Some(u)
    ensures Exec(env, a + b, st) == Some(u)
  {
    hide ExecInstr;
    if a == [] {
      assert a + b == b;
    } else {
      assert (a + b)[1..] == a[1..] + b;
      ExecThen(env, a[1..], b, ExecInstr(env, a[0], st).value, t, u);
    }
  }

  lemma ExecOne(env: Env, ins: Instr, st: St)
    ensures Exec(env, [ins], st) == ExecInstr(env, ins, st)
  {
    hide ExecInstr;
    var code := [ins];
    assert code[1..] == [];
  }

  lemma ExecNone(env: Env, st: St)
    ensures Exec(env, [], st) == Some(st)
  {
  }
}
