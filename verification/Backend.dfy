/** The choice between the two backends. */
module Backend {
  import opened Words
  import opened Il
  import opened IlMachine
  import RiscvBackend
  import ArmBackend

  datatype Arch = Riscv | Arm

  function CodeLength(arch: Arch, P: Program, ins: Instr): Option<nat> {
    match arch
    case Riscv => RiscvBackend.CodeLength(P, ins)
    case Arm => ArmBackend.CodeLength(P, ins)
  }

  function LowerWords(arch: Arch, P: Program, L: Layout, bd: Option<nat>, ins: Instr, pc: int): Option<seq<Word>> {
    match arch
    case Riscv => RiscvBackend.LowerWords(P, L, bd, ins, pc)
    case Arm => ArmBackend.LowerWords(P, L, bd, ins, pc)
  }

  /** What the first pass predicts is what the second pass emits, on either backend and for every operation. */
  lemma LengthPredicted(arch: Arch, P: Program, L: Layout, bd: Option<nat>, ins: Instr, pc: int)
    requires LowerWords(arch, P, L, bd, ins, pc).Some?
    ensures CodeLength(arch, P, ins) == Some(4 * |LowerWords(arch, P, L, bd, ins, pc).value|)
  {
    hide RiscvBackend.CodeLength, ArmBackend.CodeLength, RiscvBackend.LowerWords, ArmBackend.LowerWords;
    match arch
    case Riscv => RiscvBackend.LengthPredicted(P, L, bd, ins, pc);
    case Arm => ArmBackend.LengthPredicted(P, L, bd, ins, pc);
  }

  lemma LengthMultiple(arch: Arch, P: Program, ins: Instr)
    requires CodeLength(arch, P, ins).Some?
    ensures CodeLength(arch, P, ins).value % 4 == 0
  {
  }
}
