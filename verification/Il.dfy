/** The intermediate language: instructions, the symbol tables they refer to, and name lookup on those tables. */
module Il {
  import opened Words

  datatype Op =
    | Generic | EntryPoint | LoadDataAddress | Exit | FunctionCall | PointerCall | ExitPoint | Return | Jump
    | LoadNumericConstant | Label | Jz | Jnz | Push | Pop | BlockStart | BlockEnd | GetVarAddr | ReadAddr | WriteAddr
    | Add | Sub | Mul | BitLshift | BitRshift | LogAnd | LogOr | Not | Equals | NotEquals | LessThan | LessEqThan
    | GreaterThan | GreaterEqThan | BitOr | BitAnd | Negate | Syscall | Start

  /** `param` is the destination register; the other parameters depend on the operation. */
  datatype Instr = Instr(op: Op, param: int, int1: int, int2: int, name: string)

  datatype TypeDef = TypeDef(name: string, size: nat)

  datatype Var = Var(typeName: string, name: string, isPointer: int, isFunction: int, arraySize: int, offset: int)

  /** `entry` and `exit` are IL indices. */
  datatype Function = Function(name: string, params: seq<Var>, entry: int, exit: int, paramsSize: int)

  /** A block's parent was added before it, so its index is smaller; block 0 holds the globals. */
  datatype Block = Block(locals: seq<Var>, parent: Option<nat>, func: Option<nat>, localsSize: int)

  datatype Program = Program(il: seq<Instr>, blocks: seq<Block>, funcs: seq<Function>, types: seq<TypeDef>)

  predicate IsComparison(op: Op) {
    (op.Equals? || op.NotEquals? || op.LessThan? || op.LessEqThan? || op.GreaterThan? || op.GreaterEqThan?)
  }

  predicate IsBinary(op: Op) {
    IsComparison(op)
      || (op.Add? || op.Sub? || op.Mul? || op.BitLshift? || op.BitRshift? || op.LogAnd? || op.LogOr? || op.BitOr?
          || op.BitAnd?)
  }

  type BinaryOp = op: Op | IsBinary(op) witness Add

  // ----- table lookup: the first entry with the name wins -----

  function FindVar(vs: seq<Var>, name: string): Option<Var> {
    if vs == [] then None else if vs[0].name == name then Some(vs[0]) else FindVar(vs[1..], name)
  }

  function FindFunction(fs: seq<Function>, name: string): (r: Option<nat>)
    ensures r.Some? ==> r.value < |fs| && fs[r.value].name == name
    ensures r.None? ==> forall i :: 0 <= i < |fs| ==> fs[i].name != name
  {
    if fs == [] then None
    else if fs[0].name == name then Some(0)
    else match FindFunction(fs[1..], name)
      case None => None
      case Some(k) => Some(k + 1)
  }

  function FindType(ts: seq<TypeDef>, name: string): Option<TypeDef> {
    if ts == [] then None else if ts[0].name == name then Some(ts[0]) else FindType(ts[1..], name)
  }

  /** The variable a name denotes in the locals of a block or of one of its ancestors. */
  function FindInChain(blocks: seq<Block>, b: nat, name: string): Option<Var>
    decreases b
  {
    if b >= |blocks| then None
    else match FindVar(blocks[b].locals, name)
      case Some(v) => Some(v)
      case None =>
        match blocks[b].parent
        case Some(p) => if p < b then FindInChain(blocks, p, name) else None
        case None => None
  }

  /** Locals of the block and its ancestors first, the function's parameters last. */
  function FindLocalVariable(blocks: seq<Block>, funcs: seq<Function>, b: nat, name: string): Option<Var> {
    match FindInChain(blocks, b, name)
    case Some(v) => Some(v)
    case None =>
      if b < |blocks| && blocks[b].func.Some? && blocks[b].func.value < |funcs|
      then FindVar(funcs[blocks[b].func.value].params, name)
      else None
  }

  function FindGlobalVariable(blocks: seq<Block>, name: string): Option<Var> {
    if |blocks| == 0 then None else FindVar(blocks[0].locals, name)
  }

  /** The parser's lookup: locals shadow globals. */
  function FindVariable(blocks: seq<Block>, funcs: seq<Function>, b: nat, name: string): Option<Var> {
    match FindLocalVariable(blocks, funcs, b, name)
    case Some(v) => Some(v)
    case None => FindGlobalVariable(blocks, name)
  }

  /** The code generator's lookup: globals first, and a function's name when there is no such variable. */
  datatype Resolved = Global(offset: int) | Local(offset: int) | FunctionEntry(entry: int) | Undefined

  function Resolve(P: Program, bd: Option<nat>, name: string): Resolved {
    match FindGlobalVariable(P.blocks, name)
    case Some(v) => Global(v.offset)
    case None =>
      if bd.None? then Undefined
      else match FindLocalVariable(P.blocks, P.funcs, bd.value, name)
        case Some(v) => Local(v.offset)
        case None =>
          match FindFunction(P.funcs, name)
          case Some(f) => FunctionEntry(P.funcs[f].entry)
          case None => Undefined
  }

  // ----- the block in force at an IL index, as the markers say -----

  function AfterMarker(blocks: seq<Block>, bd: Option<nat>, ins: Instr): Option<nat> {
    if ins.op.BlockStart? && 0 <= ins.int1 then Some(ins.int1)
    else if ins.op.BlockEnd? && 0 <= ins.int1 < |blocks| then blocks[ins.int1].parent
    else bd
  }

  function BlockAfter(blocks: seq<Block>, bd: Option<nat>, code: seq<Instr>): Option<nat> {
    if code == [] then bd
    else AfterMarker(blocks, BlockAfter(blocks, bd, code[..|code| - 1]), code[|code| - 1])
  }

  function BlockAt(P: Program, i: nat): Option<nat>
    requires i <= |P.il|
  {
    BlockAfter(P.blocks, None, P.il[..i])
  }

  /** Does a block reserve stack space?  Only one that declares something. */
  predicate HasLocals(P: Program, b: int) {
    0 <= b < |P.blocks| && |P.blocks[b].locals| > 0
  }

  // ----- operators on words -----

  function Binary(op: Op, a: Word, b: Word): Word
    requires IsBinary(op)
  {
    match op
    case Add => Wrap(a + b)
    case Sub => Wrap(a - b)
    case Mul => Wrap(a * b)
    case BitLshift => Shl(a, b % 32)
    case BitRshift => Shr(a, b % 32)
    case LogAnd => And(a, b)
    case BitAnd => And(a, b)
    case LogOr => Or(a, b)
    case BitOr => Or(a, b)
    case Equals => if a == b then 1 else 0
    case NotEquals => if a != b then 1 else 0
    case LessThan => if Signed(a) < Signed(b) then 1 else 0
    case LessEqThan => if Signed(a) <= Signed(b) then 1 else 0
    case GreaterThan => if Signed(a) > Signed(b) then 1 else 0
    case GreaterEqThan => if Signed(a) >= Signed(b) then 1 else 0
  }

  function LogicalNot(a: Word): Word {
    if a == 0 then 1 else 0
  }

  function NegateWord(a: Word): Word {
    Wrap(0 - a)
  }
}
