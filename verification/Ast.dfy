/** What the parser recognises, with every name already resolved to its variable's data.

    An expression is kept as the parser meets it: a first operand and a chain of operators with their operands. */
module Ast {
  import opened Words
  import opened Il

  /** A variable, array element, or element reached through a pointer.  `tsize` is the size of the declared type. */
  datatype LValue = LValue(name: string, isPointer: int, isFunction: int, arraySize: int, tsize: nat,
                           indexes: seq<Expr>)

  datatype Suffix = Plain | PostIncrement | PostDecrement | PlusOperand(o: Operand)

  /** How a number was written: in digits, with the minus sign in front that belongs to it; as a character; or by the
      name of a constant. */
  datatype NumForm = Digits(text: string, minus: bool) | Character | Constant(name: string)

  /** `neg` is a unary minus in front; `prefix` is Add for ++, Sub for --; `calls` tells whether the value is called,
      with the arguments `args`. */
  datatype Operand =
    | Num(value: int, neg: bool, form: NumForm)
    | LogNot(o: Operand)
    | Paren(e: Expr, neg: bool)
    | Value(lv: LValue, prefix: Option<BinaryOp>, suffix: Suffix, calls: bool, args: seq<Expr>, neg: bool)
    | AddressOf(lv: LValue)
    | Call(name: string, args: seq<Expr>, neg: bool)
    | FunctionAddress(name: string, neg: bool)

  datatype Term = Term(op: BinaryOp, operand: Operand)

  datatype Expr = Expr(first: Operand, rest: seq<Term>)

  /** `=`; `++`, `--` (no value) and the compound assignments; and a call through a variable. */
  datatype Assign =
    | Store(lv: LValue, value: Expr)
    | Update(lv: LValue, op: BinaryOp, amount: Option<Expr>)
    | CallThrough(lv: LValue, args: seq<Expr>)

  /** An initialised declarator; `size` is what is stored, `own` the variable's own size. */
  datatype Init = Init(name: string, size: int, own: int, value: Expr)

  /** What a declarator looks like: a star or none, the name, and what stands in square brackets behind it. */
  datatype Form = Form(star: bool, name: string, part: ArrayPart)

  datatype ArrayPart = NoLength | Length(text: string) | Open

  datatype Declarator = Declarator(form: Form, init: Option<Init>)

  /** The initialised ones, in order. */
  function InitsOf(ds: seq<Declarator>): seq<Init> {
    if ds == [] then []
    else match ds[0].init case None => InitsOf(ds[1..]) case Some(x) => [x] + InitsOf(ds[1..])
  }

  datatype Label = CaseOf(value: int, form: NumForm) | DefaultCase

  function TagOf(x: Label): Option<int> {
    match x case CaseOf(v, _) => Some(v) case DefaultCase => None
  }

  /** A label and the statements up to the next one; `tag` is the case's value, None for the default. */
  datatype Clause = Clause(head: Label, body: seq<Stmt>) {
    const tag := TagOf(head)
  }

  /** A break does not end its statement in this parser: `after` is what follows it up to and including the `;`. */
  datatype Stmt =
    | Compound(id: nat, body: seq<Stmt>)
    | ReturnFrom(fname: string, value: Option<Expr>)
    | If(cond: Expr, thn: Stmt, els: Option<Stmt>)
    | While(cond: Expr, inner: Stmt)
    | DoWhile(inner: Stmt, cond: Expr)
    | For(init: Option<Assign>, test: Option<Expr>, step: Option<Assign>, inner: Stmt)
    | Switch(on: Expr, clauses: seq<Clause>)
    | Break(after: Stmt)
    | Empty
    | Declare(typeName: string, ds: seq<Declarator>)
    | Evaluate(o: Operand)
    | Assignment(a: Assign)

  /** The register an indirect call takes its address from. */
  const POINTER_REG := 7

  const PTR_SIZE := 4

  /** The size of what an lvalue denotes. */
  function LvSize(lv: LValue): int {
    if |lv.indexes| > 0 && lv.isPointer <= 1 then lv.tsize
    else if lv.isPointer != 0 || lv.isFunction != 0 then PTR_SIZE
    else lv.tsize
  }

  /** Does the address computed for an lvalue still have to be read?  Not for an array by itself. */
  predicate IsReference(lv: LValue) {
    |lv.indexes| > 0 || lv.arraySize <= 0
  }

  /** A bare increment of a pointer moves it by its element size. */
  function IncrementSize(lv: LValue): int {
    if lv.isPointer != 0 then lv.tsize else 1
  }

  // ----- priorities -----

  function Priority(op: Op): int {
    if op.LogAnd? || op.LogOr? then -2
    else if IsComparison(op) then -1
    else if op.Mul? then 1
    else 0
  }
}
