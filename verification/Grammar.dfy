/** Which token sequences the parser accepts, and what it recognises in them: the grammar, read off token by token.

    None is the source's fatal error, or a construct outside this model (strings, `sizeof`, members, inline assembly,
    function-pointer declarators). */
module Grammar {
  import opened Words
  import opened Il
  import opened Ast
  import opened Tokens
  import opened Numbers

  datatype Names = Names(types: seq<TypeDef>, funcs: seq<Function>, constants: seq<(string, int)>)

  /** What names mean at a place in the text: the tables, and the block the place is in. */
  datatype Scope = Scope(names: Names, blocks: seq<Block>, block: nat)

  datatype Parse<T> = Parse(value: T, next: nat)

  function FindConstant(cs: seq<(string, int)>, name: string): Option<int> {
    if cs == [] then None else if cs[0].0 == name then Some(cs[0].1) else FindConstant(cs[1..], name)
  }

  function Lookup(sc: Scope, name: string): (r: Option<Var>) {
    FindVariable(sc.blocks, sc.names.funcs, sc.block, name)
  }

  // ----- expressions -----

  function PIndexes(sc: Scope, v: Var, ts: seq<Token>, i: nat): (r: Option<Parse<seq<Expr>>>)
    requires i <= |ts|
    ensures r.Some? ==> i <= r.value.next <= |ts|
    decreases |ts| - i, 1
  {
    if Peek(ts, i).TDot? || Peek(ts, i).TArrow? then None
    else if !Peek(ts, i).TOpSquare? then Some(Parse([], i))
    else if v.isPointer == 0 && v.arraySize == 0 then None
    else
      match PExpr(sc, ts, i + 1)
      case None => None
      case Some(e) =>
        if !Peek(ts, e.next).TClSquare? then None
        else match PIndexes(sc, v, ts, e.next + 1)
          case None => None
          case Some(es) => Some(Parse([e.value] + es.value, es.next))
  }

  /** Behind the name of a variable. */
  function PLValue(sc: Scope, v: Var, ts: seq<Token>, i: nat): (r: Option<Parse<LValue>>)
    requires i <= |ts|
    ensures r.Some? ==> i <= r.value.next <= |ts|
    decreases |ts| - i, 2
  {
    match FindType(sc.names.types, v.typeName)
    case None => None
    case Some(t) =>
      match PIndexes(sc, v, ts, i)
      case None => None
      case Some(xs) => Some(Parse(LValue(v.name, v.isPointer, v.isFunction, v.arraySize, t.size, xs.value), xs.next))
  }

  function PSuffix(sc: Scope, v: Var, lv: LValue, ts: seq<Token>, i: nat): (r: Option<Parse<Suffix>>)
    requires i <= |ts|
    ensures r.Some? ==> i <= r.value.next <= |ts|
    decreases |ts| - i, 2
  {
    if Peek(ts, i).TPlus? && (v.isPointer > 0 || v.arraySize > 0) then
      match POperand(sc, ts, i + 1)
      case None => None
      case Some(o) => Some(Parse(PlusOperand(o.value), o.next))
    else if IsReference(lv) && Peek(ts, i).TPlusPlus? then Some(Parse(PostIncrement, i + 1))
    else if IsReference(lv) && Peek(ts, i).TMinusMinus? then Some(Parse(PostDecrement, i + 1))
    else Some(Parse(Plain, i))
  }

  /** Behind the opening bracket; the commas are optional. */
  function PArgs(sc: Scope, ts: seq<Token>, i: nat): (r: Option<Parse<seq<Expr>>>)
    requires i <= |ts|
    ensures r.Some? ==> i < r.value.next <= |ts|
    decreases |ts| - i, 5
  {
    if Peek(ts, i).TClBracket? then Some(Parse([], i + 1))
    else
      match PExpr(sc, ts, i)
      case None => None
      case Some(e) =>
        match PArgs(sc, ts, if Peek(ts, e.next).TComma? then e.next + 1 else e.next)
        case None => None
        case Some(es) => Some(Parse([e.value] + es.value, es.next))
  }

  /** A variable behind its name, with what may follow it in an expression. */
  function PValue(sc: Scope, v: Var, prefix: Option<BinaryOp>, neg: bool, ts: seq<Token>,
                  i: nat): (r: Option<Parse<Operand>>)
    requires i <= |ts|
    ensures r.Some? ==> i <= r.value.next <= |ts|
    decreases |ts| - i, 6
  {
    match PLValue(sc, v, ts, i)
    case None => None
    case Some(lv) =>
      match PSuffix(sc, v, lv.value, ts, lv.next)
      case None => None
      case Some(s) =>
        if !Peek(ts, s.next).TOpBracket? then Some(Parse(Value(lv.value, prefix, s.value, false, [], neg), s.next))
        else match PArgs(sc, ts, s.next + 1)
          case None => None
          case Some(args) => Some(Parse(Value(lv.value, prefix, s.value, true, args.value, neg), args.next))
  }

  /** A constant, a variable or a function; a `++` or `--` in front only matters for a variable. */
  function PNamed(sc: Scope, prefix: Option<BinaryOp>, neg: bool, ts: seq<Token>, i: nat): (r: Option<Parse<Operand>>)
    requires i <= |ts|
    ensures r.Some? ==> i < r.value.next <= |ts|
    decreases |ts| - i, 0
  {
    if !Peek(ts, i).TIdent? then None
    else
      var name := ts[i].name;
      match FindConstant(sc.names.constants, name)
      case Some(c) => Some(Parse(Num(c, neg, Constant(name)), i + 1))
      case None =>
        match Lookup(sc, name)
        case Some(v) => PValue(sc, v, prefix, neg, ts, i + 1)
        case None =>
          if FindFunction(sc.names.funcs, name).None? then None
          else if !Peek(ts, i + 1).TOpBracket? then Some(Parse(FunctionAddress(name, neg), i + 1))
          else match PArgs(sc, ts, i + 2)
            case None => None
            case Some(args) => Some(Parse(Call(name, args.value, neg), args.next))
  }

  function POperand(sc: Scope, ts: seq<Token>, i: nat): (r: Option<Parse<Operand>>)
    requires i <= |ts|
    ensures r.Some? ==> i < r.value.next <= |ts|
    decreases |ts| - i, 2
  {
    if Peek(ts, i).TMinus? then
      if Peek(ts, i + 1).TNumeric? || Peek(ts, i + 1).TIdent? || Peek(ts, i + 1).TOpBracket?
      then PPrimary(sc, true, ts, i + 1) else None
    else PPrimary(sc, false, ts, i)
  }

  function PPrimary(sc: Scope, neg: bool, ts: seq<Token>, i: nat): (r: Option<Parse<Operand>>)
    requires i <= |ts|
    ensures r.Some? ==> i < r.value.next <= |ts|
    decreases |ts| - i, 1
  {
    match Peek(ts, i)
    case TChar(c) => Some(Parse(Num(c, false, Character), i + 1))
    case TNumeric(text) =>
      (match ParamValue(text, neg)
       case None => None
       case Some(n) => Some(Parse(Num(n, false, Digits(text, neg)), i + 1)))
    case TLogNot =>
      (match POperand(sc, ts, i + 1) case None => None case Some(o) => Some(Parse(LogNot(o.value), o.next)))
    case TAmpersand =>
      if !Peek(ts, i + 1).TIdent? then None
      else (match Lookup(sc, ts[i + 1].name)
        case None => None
        case Some(v) =>
          match PLValue(sc, v, ts, i + 2) case None => None case Some(lv) => Some(Parse(AddressOf(lv.value), lv.next)))
    case TOpBracket =>
      (match PExpr(sc, ts, i + 1)
       case None => None
       case Some(e) => if Peek(ts, e.next).TClBracket? then Some(Parse(Paren(e.value, neg), e.next + 1)) else None)
    case TPlusPlus => PNamed(sc, Some(Add), neg, ts, i + 1)
    case TMinusMinus => PNamed(sc, Some(Sub), neg, ts, i + 1)
    case TIdent(_) => PNamed(sc, None, neg, ts, i)
    case _ => None
  }

  function PTerms(sc: Scope, ts: seq<Token>, i: nat): (r: Option<Parse<seq<Term>>>)
    requires i <= |ts|
    ensures r.Some? ==> i <= r.value.next <= |ts|
    decreases |ts| - i, 3
  {
    match Operator(Peek(ts, i))
    case None => Some(Parse([], i))
    case Some(op) =>
      match POperand(sc, ts, i + 1)
      case None => None
      case Some(o) =>
        match PTerms(sc, ts, o.next)
        case None => None
        case Some(rest) => Some(Parse([Term(op, o.value)] + rest.value, rest.next))
  }

  function PExpr(sc: Scope, ts: seq<Token>, i: nat): (r: Option<Parse<Expr>>)
    requires i <= |ts|
    ensures r.Some? ==> i < r.value.next <= |ts|
    decreases |ts| - i, 4
  {
    match POperand(sc, ts, i)
    case None => None
    case Some(o) =>
      match PTerms(sc, ts, o.next)
      case None => None
      case Some(rest) => Some(Parse(Expr(o.value, rest.value), rest.next))
  }

  // ----- statements -----

  datatype Parsed<T> = Parsed(value: T, next: nat, blocks: seq<Block>)

  function In(sc: Scope, blocks: seq<Block>): Scope {
    sc.(blocks := blocks)
  }

  /** The operator of `++`, `--` and the compound assignments. */
  function UpdateOperator(t: Token): Option<BinaryOp> {
    match t
    case TPlusPlus => Some(Add)
    case TMinusMinus => Some(Sub)
    case TPlusEq => Some(Add)
    case TMinusEq => Some(Sub)
    case TOrEq => Some(BitOr)
    case TAndEq => Some(BitAnd)
    case _ => None
  }

  function PAssign(sc: Scope, ts: seq<Token>, i: nat): (r: Option<Parse<Assign>>)
    requires i <= |ts|
    ensures r.Some? ==> i < r.value.next <= |ts|
  {
    if !Peek(ts, i).TIdent? then None
    else match Lookup(sc, ts[i].name)
      case None => None
      case Some(v) =>
        match PLValue(sc, v, ts, i + 1)
        case None => None
        case Some(lv) => PAssigned(sc, lv.value, ts, lv.next)
  }

  /** Behind the left-hand side. */
  function PAssigned(sc: Scope, lv: LValue, ts: seq<Token>, i: nat): (r: Option<Parse<Assign>>)
    requires i <= |ts|
    ensures r.Some? ==> i < r.value.next <= |ts|
  {
    var t := Peek(ts, i);
    match UpdateOperator(t)
    case Some(op) =>
      if t.TPlusPlus? || t.TMinusMinus? then Some(Parse(Update(lv, op, None), i + 1))
      else (match PExpr(sc, ts, i + 1)
        case None => None
        case Some(e) => Some(Parse(Update(lv, op, Some(e.value)), e.next)))
    case None =>
      if t.TOpBracket? then
        match PArgs(sc, ts, i + 1)
        case None => None
        case Some(args) => Some(Parse(CallThrough(lv, args.value), args.next))
      else if t.TAssign? then
        match PExpr(sc, ts, i + 1)
        case None => None
        case Some(e) => Some(Parse(Store(lv, e.value), e.next))
      else None
  }

  /** A declarator behind the type name. */
  function PDeclarator(typeName: string, ts: seq<Token>, i: nat): (r: Option<Parse<Var>>)
    requires i <= |ts|
    ensures r.Some? ==> i < r.value.next <= |ts|
  {
    var star := if Peek(ts, i).TStar? then 1 else 0;
    var j := i + star;
    if !Peek(ts, j).TIdent? then None
    else if !Peek(ts, j + 1).TOpSquare? then Some(Parse(Var(typeName, ts[j].name, star, 0, 0, 0), j + 1))
    else if Peek(ts, j + 2).TNumeric? then
      if Peek(ts, j + 3).TClSquare? then
        Some(Parse(Var(typeName, ts[j].name, star, 0, ConstValue(ts[j + 2].text), 0), j + 4))
      else None
    else if Peek(ts, j + 2).TClSquare? then Some(Parse(Var(typeName, ts[j].name, star + 1, 0, 0, 0), j + 3))
    else None
  }

  function WithLocal(blocks: seq<Block>, b: nat, v: Var): (r: seq<Block>)
    requires b < |blocks|
    ensures |r| == |blocks|
  {
    blocks[b := blocks[b].(locals := blocks[b].locals + [v])]
  }

  /** What is stored into a declared variable: the size of the first declarator serves for all. */
  function DeclaredSize(v: Var, tsize: nat): int {
    if v.isPointer != 0 || v.isFunction != 0 then PTR_SIZE else tsize
  }

  datatype InitParse = InitParse(size: int, d: Declarator, next: nat, blocks: seq<Block>)

  function NameAt(ts: seq<Token>, i: nat): string {
    match Peek(ts, i) case TIdent(name) => name case _ => ""
  }

  /** How a declarator is written. */
  function FormAt(ts: seq<Token>, i: nat): Form {
    var star := Peek(ts, i).TStar?;
    var j := if star then i + 1 else i;
    var part :=
      if !Peek(ts, j + 1).TOpSquare? then NoLength
      else match Peek(ts, j + 2) case TNumeric(text) => Length(text) case _ => Open;
    Form(star, NameAt(ts, j), part)
  }

  /** A declarator with its initialiser, if it has one; the name is declared before the initialiser is read.  `size` is
      None at the first declarator. */
  function PInit(sc: Scope, t: TypeDef, size: Option<int>, ts: seq<Token>, i: nat): (r: Option<InitParse>)
    requires i <= |ts| && sc.block < |sc.blocks|
    ensures r.Some? ==> i < r.value.next <= |ts| && |r.value.blocks| == |sc.blocks|
  {
    match PDeclarator(t.name, ts, i)
    case None => None
    case Some(d) =>
      var blocks := WithLocal(sc.blocks, sc.block, d.value);
      var n := match size case None => DeclaredSize(d.value, t.size) case Some(n) => n;
      if !Peek(ts, d.next).TAssign? then Some(InitParse(n, Declarator(FormAt(ts, i), None), d.next, blocks))
      else match PExpr(In(sc, blocks), ts, d.next + 1)
        case None => None
        case Some(e) =>
          var x := Init(d.value.name, n, DeclaredSize(d.value, t.size), e.value);
          Some(InitParse(n, Declarator(FormAt(ts, i), Some(x)), e.next, blocks))
  }

  /** Further declarators up to the semicolon. */
  function PMoreInits(sc: Scope, t: TypeDef, size: int, ts: seq<Token>, i: nat): (r: Option<Parsed<seq<Declarator>>>)
    requires i <= |ts| && sc.block < |sc.blocks|
    ensures r.Some? ==> i < r.value.next <= |ts| && |r.value.blocks| == |sc.blocks|
    decreases |ts| - i
  {
    if Peek(ts, i).TSemicolon? then Some(Parsed([], i + 1, sc.blocks))
    else if !Peek(ts, i).TComma? then None
    else match PInit(sc, t, Some(size), ts, i + 1)
      case None => None
      case Some(x) =>
        match PMoreInits(In(sc, x.blocks), t, size, ts, x.next)
        case None => None
        case Some(more) => Some(more.(value := [x.d] + more.value))
  }

  function PDeclare(sc: Scope, t: TypeDef, ts: seq<Token>, i: nat): (r: Option<Parsed<seq<Declarator>>>)
    requires i <= |ts| && sc.block < |sc.blocks|
    ensures r.Some? ==> i < r.value.next <= |ts| && |r.value.blocks| == |sc.blocks|
  {
    match PInit(sc, t, None, ts, i)
    case None => None
    case Some(x) =>
      match PMoreInits(In(sc, x.blocks), t, x.size, ts, x.next)
      case None => None
      case Some(more) => Some(more.(value := [x.d] + more.value))
  }

  function PCaseLabel(sc: Scope, t: Token): Option<Label> {
    match t
    case TNumeric(text) => Some(CaseOf(ConstValue(text), Digits(text, false)))
    case TIdent(name) =>
      (match FindConstant(sc.names.constants, name) case None => None case Some(v) => Some(CaseOf(v, Constant(name))))
    case _ => None
  }

  predicate StartsClause(t: Token) {
    t.TCase? || t.TDefault?
  }

  /** Clauses up to the closing brace. */
  function PClauses(sc: Scope, ts: seq<Token>, i: nat): (r: Option<Parsed<seq<Clause>>>)
    requires i <= |ts| && sc.block < |sc.blocks|
    ensures r.Some? ==> i < r.value.next <= |ts| && |r.value.blocks| >= |sc.blocks|
    decreases |ts| - i, 3
  {
    if Peek(ts, i).TClCurly? then Some(Parsed([], i + 1, sc.blocks))
    else match PClause(sc, ts, i)
      case None => None
      case Some(c) =>
        match PClauses(In(sc, c.blocks), ts, c.next)
        case None => None
        case Some(cs) => Some(cs.(value := [c.value] + cs.value))
  }

  /** A label and its statements. */
  function PClause(sc: Scope, ts: seq<Token>, i: nat): (r: Option<Parsed<Clause>>)
    requires i <= |ts| && sc.block < |sc.blocks|
    ensures r.Some? ==> i < r.value.next <= |ts| && |r.value.blocks| >= |sc.blocks|
    decreases |ts| - i, 2
  {
    if !StartsClause(Peek(ts, i)) then None
    else
      var byCase := Peek(ts, i).TCase?;
      var head := if byCase then PCaseLabel(sc, Peek(ts, i + 1)) else Some(DefaultCase);
      var j := if byCase then i + 2 else i + 1;
      if head.None? || !Peek(ts, j).TColon? then None
      else match PClauseBody(sc, ts, j + 1)
        case None => None
        case Some(body) => Some(Parsed(Clause(head.value, body.value), body.next, body.blocks))
  }

  /** Statements up to the next label or the end of the switch. */
  function PClauseBody(sc: Scope, ts: seq<Token>, i: nat): (r: Option<Parsed<seq<Stmt>>>)
    requires i <= |ts| && sc.block < |sc.blocks|
    ensures r.Some? ==> i <= r.value.next <= |ts| && |r.value.blocks| >= |sc.blocks|
    decreases |ts| - i, 2
  {
    if StartsClause(Peek(ts, i)) || Peek(ts, i).TClCurly? then Some(Parsed([], i, sc.blocks))
    else match PStmt(sc, true, ts, i)
      case None => None
      case Some(s) =>
        match PClauseBody(In(sc, s.blocks), ts, s.next)
        case None => None
        case Some(ss) => Some(ss.(value := [s.value] + ss.value))
  }

  /** Statements up to the closing brace. */
  function PStmts(sc: Scope, inSwitch: bool, ts: seq<Token>, i: nat): (r: Option<Parsed<seq<Stmt>>>)
    requires i <= |ts| && sc.block < |sc.blocks|
    ensures r.Some? ==> i < r.value.next <= |ts| && |r.value.blocks| >= |sc.blocks|
    decreases |ts| - i, 2
  {
    if Peek(ts, i).TClCurly? then Some(Parsed([], i + 1, sc.blocks))
    else match PStmt(sc, inSwitch, ts, i)
      case None => None
      case Some(s) =>
        match PStmts(In(sc, s.blocks), inSwitch, ts, s.next)
        case None => None
        case Some(ss) => Some(ss.(value := [s.value] + ss.value))
  }

  /** A block; its number is that of the table's next entry. */
  function PBlock(sc: Scope, inSwitch: bool, ts: seq<Token>, i: nat): (r: Option<Parsed<Stmt>>)
    requires i <= |ts| && sc.block < |sc.blocks|
    ensures r.Some? ==> i < r.value.next <= |ts| && |r.value.blocks| >= |sc.blocks|
    decreases |ts| - i, 0
  {
    if !Peek(ts, i).TOpCurly? then None
    else
      var id := |sc.blocks|;
      var blocks := sc.blocks + [Block([], Some(sc.block), sc.blocks[sc.block].func, 0)];
      match PStmts(Scope(sc.names, blocks, id), inSwitch, ts, i + 1)
      case None => None
      case Some(ss) => Some(Parsed(Compound(id, ss.value), ss.next, ss.blocks))
  }

  /** `( expression )` */
  function PCondition(sc: Scope, ts: seq<Token>, i: nat): (r: Option<Parse<Expr>>)
    requires i <= |ts|
    ensures r.Some? ==> i < r.value.next <= |ts|
  {
    if !Peek(ts, i).TOpBracket? then None
    else match PExpr(sc, ts, i + 1)
      case None => None
      case Some(e) => if Peek(ts, e.next).TClBracket? then Some(Parse(e.value, e.next + 1)) else None
  }

  function FunctionName(sc: Scope): Option<string>
    requires sc.block < |sc.blocks|
  {
    match sc.blocks[sc.block].func
    case None => None
    case Some(f) => if f < |sc.names.funcs| then Some(sc.names.funcs[f].name) else None
  }

  function PReturn(sc: Scope, ts: seq<Token>, i: nat): (r: Option<Parse<Stmt>>)
    requires i <= |ts| && sc.block < |sc.blocks|
    ensures r.Some? ==> i < r.value.next <= |ts|
  {
    match FunctionName(sc)
    case None => None
    case Some(f) =>
      if Peek(ts, i).TSemicolon? then Some(Parse(ReturnFrom(f, None), i + 1))
      else match PExpr(sc, ts, i)
        case None => None
        case Some(e) =>
          if Peek(ts, e.next).TSemicolon? then Some(Parse(ReturnFrom(f, Some(e.value)), e.next + 1)) else None
  }

  function PIf(sc: Scope, inSwitch: bool, ts: seq<Token>, i: nat): (r: Option<Parsed<Stmt>>)
    requires i <= |ts| && sc.block < |sc.blocks|
    ensures r.Some? ==> i < r.value.next <= |ts| && |r.value.blocks| >= |sc.blocks|
    decreases |ts| - i, 0
  {
    match PCondition(sc, ts, i)
    case None => None
    case Some(c) =>
      match PStmt(sc, inSwitch, ts, c.next)
      case None => None
      case Some(t) =>
        if !Peek(ts, t.next).TElse? then Some(t.(value := If(c.value, t.value, None)))
        else match PStmt(In(sc, t.blocks), inSwitch, ts, t.next + 1)
          case None => None
          case Some(e) => Some(e.(value := If(c.value, t.value, Some(e.value))))
  }

  function PWhile(sc: Scope, inSwitch: bool, ts: seq<Token>, i: nat): (r: Option<Parsed<Stmt>>)
    requires i <= |ts| && sc.block < |sc.blocks|
    ensures r.Some? ==> i < r.value.next <= |ts| && |r.value.blocks| >= |sc.blocks|
    decreases |ts| - i, 0
  {
    match PCondition(sc, ts, i)
    case None => None
    case Some(c) =>
      match PStmt(sc, inSwitch, ts, c.next)
      case None => None
      case Some(s) => Some(s.(value := While(c.value, s.value)))
  }

  function PSwitch(sc: Scope, ts: seq<Token>, i: nat): (r: Option<Parsed<Stmt>>)
    requires i <= |ts| && sc.block < |sc.blocks|
    ensures r.Some? ==> i < r.value.next <= |ts| && |r.value.blocks| >= |sc.blocks|
    decreases |ts| - i, 0
  {
    match PCondition(sc, ts, i)
    case None => None
    case Some(c) =>
      if !Peek(ts, c.next).TOpCurly? then None
      else match PClauses(sc, ts, c.next + 1)
        case None => None
        case Some(cs) => Some(Parsed(Switch(c.value, cs.value), cs.next, cs.blocks))
  }

  function PDo(sc: Scope, inSwitch: bool, ts: seq<Token>, i: nat): (r: Option<Parsed<Stmt>>)
    requires i <= |ts| && sc.block < |sc.blocks|
    ensures r.Some? ==> i < r.value.next <= |ts| && |r.value.blocks| >= |sc.blocks|
    decreases |ts| - i, 6
  {
    match PStmt(sc, inSwitch, ts, i)
    case None => None
    case Some(s) =>
      if !Peek(ts, s.next).TWhile? then None
      else match PCondition(In(sc, s.blocks), ts, s.next + 1)
        case None => None
        case Some(c) =>
          if Peek(ts, c.next).TSemicolon? then Some(Parsed(DoWhile(s.value, c.value), c.next + 1, s.blocks)) else None
  }

  /** An assignment that may be missing, up to and including the token that ends it. */
  function POptAssign(sc: Scope, close: Token, ts: seq<Token>, i: nat): (r: Option<Parse<Option<Assign>>>)
    requires i <= |ts| && !close.TEof?
    ensures r.Some? ==> i < r.value.next <= |ts|
  {
    if Peek(ts, i) == close then Some(Parse(None, i + 1))
    else match PAssign(sc, ts, i)
      case None => None
      case Some(a) => if Peek(ts, a.next) == close then Some(Parse(Some(a.value), a.next + 1)) else None
  }

  function POptExpr(sc: Scope, ts: seq<Token>, i: nat): (r: Option<Parse<Option<Expr>>>)
    requires i <= |ts|
    ensures r.Some? ==> i < r.value.next <= |ts|
  {
    if Peek(ts, i).TSemicolon? then Some(Parse(None, i + 1))
    else match PExpr(sc, ts, i)
      case None => None
      case Some(e) => if Peek(ts, e.next).TSemicolon? then Some(Parse(Some(e.value), e.next + 1)) else None
  }

  datatype ForHead = ForHead(init: Option<Assign>, test: Option<Expr>, step: Option<Assign>)

  function PForHead(sc: Scope, ts: seq<Token>, i: nat): (r: Option<Parse<ForHead>>)
    requires i <= |ts|
    ensures r.Some? ==> i < r.value.next <= |ts|
  {
    if !Peek(ts, i).TOpBracket? then None
    else match POptAssign(sc, TSemicolon, ts, i + 1)
      case None => None
      case Some(init) =>
        match POptExpr(sc, ts, init.next)
        case None => None
        case Some(test) =>
          match POptAssign(sc, TClBracket, ts, test.next)
          case None => None
          case Some(step) => Some(Parse(ForHead(init.value, test.value, step.value), step.next))
  }

  function PFor(sc: Scope, inSwitch: bool, ts: seq<Token>, i: nat): (r: Option<Parsed<Stmt>>)
    requires i <= |ts| && sc.block < |sc.blocks|
    ensures r.Some? ==> i < r.value.next <= |ts| && |r.value.blocks| >= |sc.blocks|
    decreases |ts| - i, 0
  {
    match PForHead(sc, ts, i)
    case None => None
    case Some(h) =>
      match PStmt(sc, inSwitch, ts, h.next)
      case None => None
      case Some(s) => Some(s.(value := For(h.value.init, h.value.test, h.value.step, s.value)))
  }

  /** A declaration, a call or an assignment, with its semicolon. */
  function PPlain(sc: Scope, ts: seq<Token>, i: nat): (r: Option<Parsed<Stmt>>)
    requires i <= |ts| && sc.block < |sc.blocks|
    ensures r.Some? ==> i < r.value.next <= |ts| && |r.value.blocks| >= |sc.blocks|
  {
    if !Peek(ts, i).TIdent? then None
    else
      var name := ts[i].name;
      match FindType(sc.names.types, name)
      case Some(t) =>
        (match PDeclare(sc, t, ts, i + 1)
         case None => None
         case Some(d) => Some(Parsed(Declare(name, d.value), d.next, d.blocks)))
      case None =>
        var parsed :=
          if FindFunction(sc.names.funcs, name).None? then
            match PAssign(sc, ts, i) case None => None case Some(a) => Some(Parse(Assignment(a.value), a.next))
          else if !Peek(ts, i + 1).TOpBracket? then Some(Parse(Evaluate(FunctionAddress(name, false)), i + 1))
          else match PArgs(sc, ts, i + 2)
            case None => None
            case Some(args) => Some(Parse(Evaluate(Call(name, args.value, false)), args.next));
        match parsed
        case None => None
        case Some(s) => if Peek(ts, s.next).TSemicolon? then Some(Parsed(s.value, s.next + 1, sc.blocks)) else None
  }

  /** What may follow a `break`, and what no other keyword starts. */
  function PTail(sc: Scope, inSwitch: bool, ts: seq<Token>, i: nat): (r: Option<Parsed<Stmt>>)
    requires i <= |ts| && sc.block < |sc.blocks|
    ensures r.Some? ==> i < r.value.next <= |ts| && |r.value.blocks| >= |sc.blocks|
    decreases |ts| - i, 0
  {
    match Peek(ts, i)
    case TFor => PFor(sc, inSwitch, ts, i + 1)
    case TDo => PDo(sc, inSwitch, ts, i + 1)
    case TSemicolon => Some(Parsed(Empty, i + 1, sc.blocks))
    case _ => PPlain(sc, ts, i)
  }

  function PStmt(sc: Scope, inSwitch: bool, ts: seq<Token>, i: nat): (r: Option<Parsed<Stmt>>)
    requires i <= |ts| && sc.block < |sc.blocks|
    ensures r.Some? ==> i < r.value.next <= |ts| && |r.value.blocks| >= |sc.blocks|
    decreases |ts| - i, 1
  {
    match Peek(ts, i)
    case TOpCurly => PBlock(sc, inSwitch, ts, i)
    case TReturn =>
      (match PReturn(sc, ts, i + 1) case None => None case Some(s) => Some(Parsed(s.value, s.next, sc.blocks)))
    case TIf => PIf(sc, inSwitch, ts, i + 1)
    case TWhile => PWhile(sc, inSwitch, ts, i + 1)
    case TSwitch => PSwitch(sc, ts, i + 1)
    case TBreak =>
      if !inSwitch then None
      else (match PTail(sc, inSwitch, ts, i + 1)
        case None => None
        case Some(s) => Some(s.(value := Break(s.value))))
    case _ => PTail(sc, inSwitch, ts, i)
  }

  /** The table with the outermost block of function f. */
  function WithBody(blocks: seq<Block>, f: nat): seq<Block> {
    blocks + [Block([], None, Some(f), 0)]
  }

  /** The body of function f; its block is the table's next entry. */
  function PFunctionBody(names: Names, blocks: seq<Block>, f: nat, ts: seq<Token>,
                         i: nat): (r: Option<Parsed<seq<Stmt>>>)
    requires i <= |ts|
    ensures r.Some? ==> i < r.value.next <= |ts| && |r.value.blocks| > |blocks|
  {
    if !Peek(ts, i).TOpCurly? then None
    else PStmts(Scope(names, WithBody(blocks, f), |blocks|), false, ts, i + 1)
  }
}
