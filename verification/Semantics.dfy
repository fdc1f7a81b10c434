/** The meaning of expressions and statements, independent of how they are compiled.

    Operands are evaluated from left to right; an expression's value is taken level by level, products first.  `&&` and
    `||` evaluate both sides and are bitwise.  None means that the construct has no meaning here: an unknown name, an
    access of an unsupported size or of bytes that are not the program's, too few arguments.

    There are two sets of rules for pointers: those of the language, by the type of what an lvalue denotes, and those
    the compiler follows, which look at the declaration of its variable only. */
module Semantics {
  import opened Words
  import opened Il
  import opened Ast
  import opened CTypes
  import opened Levels
  import IlMachine

  /** What the code's surroundings provide: the addresses of the names in scope, and of those in scope in each block;
      the bytes that may be read and written here and in each block; where the locals of a block lie, and what memory
      holds when a block is entered, counted over all entries; the functions that can be called by name or through a
      pointer, and what the n-th call leaves in the other registers.  `typed` says which rules hold for pointers. */
  datatype Env = Env(
    typed: bool,
    addr: imap<string, Word>,
    scopes: nat -> imap<string, Word>,
    access: Access,
    accesses: nat -> Access,
    frame: nat -> Range,
    stale: nat -> Mem,
    charSigned: bool,
    arity: map<string, nat>,
    call: (string, seq<Word>, Mem) -> (Word, Mem),
    pointerArity: Word -> nat,
    pointerCall: (Word, seq<Word>, Mem) -> (Word, Mem),
    clobber: (nat, nat) -> Word)

  /** The bytes that may be read and those that may be written. */
  datatype Access = Access(read: iset<int>, write: iset<int>)

  ghost predicate Permits(allowed: iset<int>, a: Word, size: int) {
    a in allowed && (size == 4 ==> Wrap(a + 1) in allowed && Wrap(a + 2) in allowed && Wrap(a + 3) in allowed)
  }

  ghost function ReadMem(env: Env, mem: Mem, a: Word, size: int): Option<Word> {
    if Permits(env.access.read, a, size) then IlMachine.Load(mem, a, size, env.charSigned) else None
  }

  ghost function WriteMem(env: Env, mem: Mem, a: Word, size: int, v: Word): Option<Mem> {
    if Permits(env.access.write, a, size) then IlMachine.Store(mem, a, size, v) else None
  }

  /** The addresses from `lo` up to `hi`. */
  datatype Range = Range(lo: int, hi: int)

  predicate InRange(r: Range, a: int) {
    r.lo <= a < r.hi
  }

  /** The surroundings of the statements in block `id`. */
  ghost function Inside(env: Env, id: nat): Env {
    env.(addr := env.scopes(id), access := env.accesses(id))
  }

  ghost function ByteExposed(env: Env, id: nat, n: nat, mem: Mem, a: Word): Byte {
    if InRange(env.frame(id), a) then env.stale(n)[a] else mem[a]
  }

  /** Entering block `id`, the n-th entry, exposes its locals: their bytes are whatever memory holds there. */
  ghost function Exposed(env: Env, id: nat, n: nat, mem: Mem): Mem {
    var bytes := seq<Byte>(0x1_0000_0000, a requires 0 <= a < 0x1_0000_0000 => ByteExposed(env, id, n, mem, a));
    assert |bytes| == 0x1_0000_0000;
    bytes
  }

  /** A value and the memory after computing it. */
  datatype Result = Result(v: Word, mem: Mem)

  datatype Results = Results(vs: seq<Word>, mem: Mem)

  const MAX_PARAMS := 8

  // ----- operators -----

  /** The rightmost operator of least priority, where the compiler's tree has its root. */
  function Root(ops: seq<Op>): (k: nat)
    requires ops != []
    ensures k < |ops|
    ensures forall j :: 0 <= j < |ops| ==> Priority(ops[k]) <= Priority(ops[j])
    ensures forall j :: k < j < |ops| ==> Priority(ops[k]) < Priority(ops[j])
  {
    if |ops| == 1 then 0
    else
      var k := Root(ops[..|ops| - 1]);
      if Priority(ops[|ops| - 1]) <= Priority(ops[k]) then |ops| - 1 else k
  }

  /** The value of the tree over these operand values and operators. */
  function TreeValue(vs: seq<Word>, ops: seq<Op>): Word
    requires |vs| == |ops| + 1
    requires forall k :: 0 <= k < |ops| ==> IsBinary(ops[k])
    decreases |ops|
  {
    if ops == [] then vs[0]
    else
      var k := Root(ops);
      Binary(ops[k], TreeValue(vs[..k + 1], ops[..k]), TreeValue(vs[k + 1..], ops[k + 1..]))
  }

  function Ops(rest: seq<Term>): (ops: seq<Op>)
    ensures |ops| == |rest|
    ensures forall k :: 0 <= k < |rest| ==> ops[k] == rest[k].op
  {
    if rest == [] then [] else [rest[0].op] + Ops(rest[1..])
  }

  function NegatedValue(neg: bool, v: Word): Word {
    if neg then NegateWord(v) else v
  }

  // ----- expressions -----

  /** An address advanced by `index` elements. */
  function Advance(a: Word, index: Word, size: int): Word {
    Binary(Add, a, if size != 1 then Binary(Mul, index, Wrap(size)) else index)
  }

  /** The start of the elements that the index behind n others counts. */
  ghost function IndexStart(env: Env, lv: LValue, n: nat, a: Word, mem: Mem): Option<Word> {
    if if env.typed then KindAfter(lv, n).Pointer? else lv.isPointer != 0 then ReadMem(env, mem, a, PTR_SIZE)
    else if env.typed && !KindAfter(lv, n).Array? then None
    else Some(a)
  }

  function IndexSize(typed: bool, lv: LValue, n: nat): int {
    if typed then ElementSize(lv, KindAfter(lv, n)) else if lv.isPointer <= 1 then lv.tsize else PTR_SIZE
  }

  ghost function EvalIndexes(env: Env, lv: LValue, n: nat, indexes: seq<Expr>, a: Word, mem: Mem): Option<Result>
    decreases indexes, 0
  {
    if indexes == [] then Some(Result(a, mem))
    else match IndexStart(env, lv, n, a, mem)
      case None => None
      case Some(start) =>
        match EvalExpr(env, indexes[0], mem)
        case None => None
        case Some(r) =>
          EvalIndexes(env, lv, n + 1, indexes[1..], Advance(start, r.v, IndexSize(env.typed, lv, n)), r.mem)
  }

  /** The address of an lvalue. */
  ghost function EvalLValue(env: Env, lv: LValue, mem: Mem): Option<Result>
    decreases lv, 0
  {
    if lv.name in env.addr then EvalIndexes(env, lv, 0, lv.indexes, env.addr[lv.name], mem) else None
  }

  /** The size of what an lvalue denotes. */
  function SizeBy(typed: bool, lv: LValue): int {
    if typed then TypedSize(lv) else LvSize(lv)
  }

  /** Is there something to be read and written at the address? */
  predicate AccessibleBy(typed: bool, lv: LValue) {
    if typed then CTypes.Readable(Denoted(lv)) else IsReference(lv)
  }

  /** What `++` adds in an expression. */
  function StepBy(typed: bool, lv: LValue): Word {
    if typed then Wrap(TypedAmount(lv)) else 1
  }

  /** The variable at an address changed by one step: its old value, and the memory with the new one. */
  ghost function Bump(env: Env, op: BinaryOp, a: Word, size: int, step: Word, mem: Mem): Option<Result> {
    match ReadMem(env, mem, a, size)
      case None => None
      case Some(v) =>
        match WriteMem(env, mem, a, size, Binary(op, v, step))
        case None => None
        case Some(m) => Some(Result(v, m))
  }

  ghost function LoadResult(env: Env, a: Word, size: int, mem: Mem): Option<Result> {
    match ReadMem(env, mem, a, size) case None => None case Some(v) => Some(Result(v, mem))
  }

  /** What the amount behind a plus is added to. */
  ghost function PlusStart(env: Env, lv: LValue, a: Word, mem: Mem): Option<Word> {
    if env.typed then
      if Denoted(lv).Array? then Some(a) else if Denoted(lv).NoType? then None else ReadMem(env, mem, a, TypedSize(lv))
    else if IsReference(lv) then ReadMem(env, mem, a, PTR_SIZE)
    else Some(a)
  }

  function PlusSize(typed: bool, lv: LValue): int {
    if typed then ElementSize(lv, Denoted(lv)) else lv.tsize
  }

  /** What becomes of the address of an lvalue in an expression. */
  ghost function EvalSuffix(env: Env, lv: LValue, prefix: Option<BinaryOp>, suffix: Suffix, a: Word,
                            mem: Mem): Option<Result>
    decreases suffix, 0
  {
    if suffix.PlusOperand? then
      match PlusStart(env, lv, a, mem)
      case None => None
      case Some(start) =>
        match EvalOperand(env, suffix.o, mem)
        case None => None
        case Some(r) => Some(Result(Advance(start, r.v, PlusSize(env.typed, lv)), r.mem))
    else if !AccessibleBy(env.typed, lv) then
      if env.typed && Denoted(lv).NoType? then None else Some(Result(a, mem))
    else
      var size, step := SizeBy(env.typed, lv), StepBy(env.typed, lv);
      var bumped := match prefix case None => Some(Result(0, mem)) case Some(op) => Bump(env, op, a, size, step, mem);
      match bumped
      case None => None
      case Some(r) =>
        if suffix.PostIncrement? then Bump(env, Add, a, size, step, r.mem)
        else if suffix.PostDecrement? then Bump(env, Sub, a, size, step, r.mem)
        else LoadResult(env, a, size, r.mem)
  }

  ghost function EvalArgs(env: Env, args: seq<Expr>, mem: Mem): Option<Results>
    decreases args, 0
  {
    if args == [] then Some(Results([], mem))
    else match EvalExpr(env, args[0], mem)
      case None => None
      case Some(r) =>
        match EvalArgs(env, args[1..], r.mem)
        case None => None
        case Some(rs) => Some(Results([r.v] + rs.vs, rs.mem))
  }

  ghost function EvalCall(env: Env, name: string, args: seq<Expr>, mem: Mem): Option<Result>
    decreases args, 1
  {
    match EvalArgs(env, args, mem)
    case None => None
    case Some(rs) =>
      if name in env.arity && env.arity[name] <= |rs.vs| && env.arity[name] <= MAX_PARAMS then
        var r := env.call(name, rs.vs[..env.arity[name]], rs.mem);
        Some(Result(r.0, r.1))
      else None
  }

  /** A call through a pointer has one register less for arguments: the last one carries the address. */
  ghost function EvalPointerCall(env: Env, f: Word, args: seq<Expr>, mem: Mem): Option<Result>
    decreases args, 1
  {
    match EvalArgs(env, args, mem)
    case None => None
    case Some(rs) =>
      if env.pointerArity(f) <= |rs.vs| && env.pointerArity(f) < MAX_PARAMS then
        var r := env.pointerCall(f, rs.vs[..env.pointerArity(f)], rs.mem);
        Some(Result(r.0, r.1))
      else None
  }

  ghost function EvalOperand(env: Env, o: Operand, mem: Mem): Option<Result>
    decreases o, 0
  {
    match o
    case Num(v, neg, _) => Some(Result(NegatedValue(neg, Wrap(v)), mem))
    case LogNot(o1) =>
      (match EvalOperand(env, o1, mem) case None => None case Some(r) => Some(Result(LogicalNot(r.v), r.mem)))
    case Paren(e, neg) =>
      (match EvalExpr(env, e, mem) case None => None case Some(r) => Some(Result(NegatedValue(neg, r.v), r.mem)))
    case Value(lv, prefix, suffix, calls, args, neg) =>
      (match EvalLValue(env, lv, mem)
       case None => None
       case Some(a) =>
         match EvalSuffix(env, lv, prefix, suffix, a.v, a.mem)
         case None => None
         case Some(r) =>
           match (if calls then EvalPointerCall(env, r.v, args, r.mem) else Some(r))
           case None => None
           case Some(w) => Some(Result(NegatedValue(neg, w.v), w.mem)))
    case AddressOf(lv) => EvalLValue(env, lv, mem)
    case Call(name, args, neg) =>
      (match EvalCall(env, name, args, mem)
       case None => None
       case Some(r) => Some(Result(NegatedValue(neg, r.v), r.mem)))
    case FunctionAddress(name, neg) =>
      if name in env.addr then Some(Result(NegatedValue(neg, env.addr[name]), mem)) else None
  }

  ghost function EvalTerm(env: Env, t: Term, mem: Mem): Option<Result>
    decreases t, 0
  {
    EvalOperand(env, t.operand, mem)
  }

  ghost function EvalTerms(env: Env, rest: seq<Term>, mem: Mem): Option<Results>
    decreases rest, 0
  {
    if rest == [] then Some(Results([], mem))
    else match EvalTerm(env, rest[0], mem)
      case None => None
      case Some(r) =>
        match EvalTerms(env, rest[1..], r.mem)
        case None => None
        case Some(rs) => Some(Results([r.v] + rs.vs, rs.mem))
  }

  lemma {:induction false} EvalTermsLength(env: Env, rest: seq<Term>, mem: Mem)
    requires EvalTerms(env, rest, mem).Some?
    ensures |EvalTerms(env, rest, mem).value.vs| == |rest|
  {
    if rest != [] {
      EvalTermsLength(env, rest[1..], EvalTerm(env, rest[0], mem).value.mem);
    }
  }

  ghost function EvalExpr(env: Env, e: Expr, mem: Mem): Option<Result>
    decreases e, 0
  {
    match EvalOperand(env, e.first, mem)
    case None => None
    case Some(r) =>
      match EvalTerms(env, e.rest, r.mem)
      case None => None
      case Some(rs) =>
        if |rs.vs| == |e.rest| then
          Some(Result(LevelValue([r.v] + rs.vs, Ops(e.rest)), rs.mem))
        else None
  }
}
