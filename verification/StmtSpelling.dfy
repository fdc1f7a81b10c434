/** Every statement can be written down: spelling it and reading it back gives the same statement, and the tables it
    declares. */
module StmtSpelling {
  import opened Words
  import opened Il
  import opened Ast
  import opened Tokens
  import opened Numbers
  import opened Numerals
  import opened Grammar
  import opened Spelling

  // ----- assignments -----

  /** The token of a compound assignment. */
  function UpdateToken(op: BinaryOp): Token {
    match op
    case Add => TPlusEq
    case Sub => TMinusEq
    case BitOr => TOrEq
    case _ => TAndEq
  }

  function SpellAssign(a: Assign): seq<Token> {
    match a
    case Store(lv, value) => SpellLValue(lv) + ([TAssign] + SpellExpr(value))
    case Update(lv, op, None) => SpellLValue(lv) + [if op.Add? then TPlusPlus else TMinusMinus]
    case Update(lv, op, Some(e)) => SpellLValue(lv) + ([UpdateToken(op)] + SpellExpr(e))
    case CallThrough(lv, args) => SpellLValue(lv) + ([TOpBracket] + (SpellArgs(args) + [TClBracket]))
  }

  /** An expression that means what it says and ends where token t follows. */
  ghost predicate ExprFits(sc: Scope, e: Expr, t: Token) {
    ExprOk(e) && ExprReads(sc, e) && ExprStops(e, t)
  }

  ghost predicate AssignFits(sc: Scope, a: Assign, t: Token) {
    && LValueOk(a.lv) && LValueReads(sc, a.lv)
    && match a
       case Store(_, value) => ExprFits(sc, value, t)
       case Update(_, op, None) => op.Add? || op.Sub?
       case Update(_, op, Some(e)) => (op.Add? || op.Sub? || op.BitOr? || op.BitAnd?) && ExprFits(sc, e, t)
       case CallThrough(_, args) => ExprsOk(args) && ArgsRead(sc, args)
  }

  lemma NothingAt(sc: Scope, ts: seq<Token>, i: nat)
    requires i <= |ts| && (Peek(ts, i).TSemicolon? || Peek(ts, i).TClBracket?)
    ensures POperand(sc, ts, i).None?
  {
  }

  lemma FitsBack(sc: Scope, e: Expr, t: Token, ts: seq<Token>, i: nat)
    requires ExprFits(sc, e, t) && Spelled(ts, i, SpellExpr(e)) && Peek(ts, i + |SpellExpr(e)|) == t
    ensures i + |SpellExpr(e)| <= |ts| && PExpr(sc, ts, i) == Some(Parse(e, i + |SpellExpr(e)|))
    ensures !Peek(ts, i).TSemicolon? && !Peek(ts, i).TClBracket?
  {
    hide ExprOk, ExprReads, ExprStops, Spelled, SpellExpr, POperand, PTerms;
    ExprBack(sc, e, ts, i);
    if Peek(ts, i).TSemicolon? || Peek(ts, i).TClBracket? { NothingAt(sc, ts, i); }
  }

  lemma AssignedParsed(sc: Scope, a: Assign, ts: seq<Token>, i: nat, end: nat)
    requires i < |ts| && end <= |ts|
    requires match a
             case Store(_, value) => Peek(ts, i).TAssign? && PExpr(sc, ts, i + 1) == Some(Parse(value, end))
             case Update(_, op, None) =>
               ((op.Add? && Peek(ts, i).TPlusPlus?) || (op.Sub? && Peek(ts, i).TMinusMinus?)) && end == i + 1
             case Update(_, op, Some(e)) =>
               && (op.Add? || op.Sub? || op.BitOr? || op.BitAnd?) && Peek(ts, i) == UpdateToken(op)
               && PExpr(sc, ts, i + 1) == Some(Parse(e, end))
             case CallThrough(_, args) => Peek(ts, i).TOpBracket? && PArgs(sc, ts, i + 1) == Some(Parse(args, end))
    ensures PAssigned(sc, a.lv, ts, i) == Some(Parse(a, end))
  {
    hide PExpr, PArgs;
  }

  /** The tokens behind the lvalue. */
  function AssignTail(a: Assign): seq<Token> {
    match a
    case Store(_, value) => [TAssign] + SpellExpr(value)
    case Update(_, op, None) => [if op.Add? then TPlusPlus else TMinusMinus]
    case Update(_, op, Some(e)) => [UpdateToken(op)] + SpellExpr(e)
    case CallThrough(_, args) => [TOpBracket] + (SpellArgs(args) + [TClBracket])
  }

  lemma ValueBack(sc: Scope, op: Token, e: Expr, t: Token, ts: seq<Token>, j: nat)
    requires ExprFits(sc, e, t) && Spelled(ts, j, [op] + SpellExpr(e)) && Peek(ts, j + 1 + |SpellExpr(e)|) == t
    ensures j + 1 + |SpellExpr(e)| <= |ts| && Peek(ts, j) == op
    ensures PExpr(sc, ts, j + 1) == Some(Parse(e, j + 1 + |SpellExpr(e)|))
  {
    hide Spelled, SpellExpr, ExprFits, PExpr;
    SpelledSplit(ts, j, [op], SpellExpr(e));
    SpelledOne(ts, j, op);
    FitsBack(sc, e, t, ts, j + 1);
  }

  lemma ThroughBack(sc: Scope, args: seq<Expr>, ts: seq<Token>, j: nat)
    requires ExprsOk(args) && ArgsRead(sc, args) && Spelled(ts, j, [TOpBracket] + (SpellArgs(args) + [TClBracket]))
    ensures j + 2 + |SpellArgs(args)| <= |ts| && Peek(ts, j) == TOpBracket
    ensures PArgs(sc, ts, j + 1) == Some(Parse(args, j + 2 + |SpellArgs(args)|))
  {
    hide Spelled, SpellArgs, ExprsOk, ArgsRead, PArgs;
    SpelledSplit(ts, j, [TOpBracket], SpellArgs(args) + [TClBracket]);
    SpelledOne(ts, j, TOpBracket);
    ArgsBack(sc, args, ts, j + 1);
  }

  lemma AssignTailBack(sc: Scope, a: Assign, t: Token, ts: seq<Token>, j: nat)
    requires AssignFits(sc, a, t) && Spelled(ts, j, AssignTail(a)) && Peek(ts, j + |AssignTail(a)|) == t
    ensures j + |AssignTail(a)| <= |ts| && LvStops(Peek(ts, j))
    ensures PAssigned(sc, a.lv, ts, j) == Some(Parse(a, j + |AssignTail(a)|))
  {
    hide Spelled, SpellExpr, SpellArgs, ExprFits, ExprsOk, ArgsRead, LValueOk, LValueReads, PExpr, PArgs, PAssigned;
    match a {
      case Store(_, value) => ValueBack(sc, TAssign, value, t, ts, j);
      case Update(_, op, None) => SpelledOne(ts, j, if op.Add? then TPlusPlus else TMinusMinus);
      case Update(_, op, Some(e)) => ValueBack(sc, UpdateToken(op), e, t, ts, j);
      case CallThrough(_, args) => ThroughBack(sc, args, ts, j);
    }
    AssignedParsed(sc, a, ts, j, j + |AssignTail(a)|);
  }

  lemma AssignBack(sc: Scope, a: Assign, t: Token, ts: seq<Token>, i: nat)
    requires AssignFits(sc, a, t) && Spelled(ts, i, SpellAssign(a)) && Peek(ts, i + |SpellAssign(a)|) == t
    ensures i + |SpellAssign(a)| <= |ts| && PAssign(sc, ts, i) == Some(Parse(a, i + |SpellAssign(a)|))
    ensures Peek(ts, i) == TIdent(a.lv.name)
  {
    hide Spelled, SpellLValue, ExprFits, ExprsOk, ArgsRead, LValueOk, LValueReads, PLValue, PAssigned, Lookup,
      AssignTail, SpellAssign, AssignFits;
    FitsLValue(sc, a, t);
    var x := SpellLValue(a.lv);
    AssignSplit(a);
    SpelledSplit(ts, i, x, AssignTail(a));
    AssignTailBack(sc, a, t, ts, i + |x|);
    LValueBack(sc, a.lv, ts, i);
    NameIs(sc, a.lv);
  }

  lemma FitsLValue(sc: Scope, a: Assign, t: Token)
    requires AssignFits(sc, a, t)
    ensures LValueOk(a.lv) && LValueReads(sc, a.lv)
  {
  }

  lemma AssignSplit(a: Assign)
    ensures SpellAssign(a) == SpellLValue(a.lv) + AssignTail(a)
  {
  }

  // ----- declarations -----

  function SpellPart(part: ArrayPart): seq<Token> {
    match part
    case NoLength => []
    case Length(text) => [TOpSquare, TNumeric(text), TClSquare]
    case Open => [TOpSquare, TClSquare]
  }

  function SpellForm(f: Form): seq<Token> {
    (if f.star then [TStar] else []) + ([TIdent(f.name)] + SpellPart(f.part))
  }

  function SpellInit(x: Option<Init>): seq<Token> {
    match x case None => [] case Some(y) => [TAssign] + SpellExpr(y.value)
  }

  function SpellDeclarator(d: Declarator): seq<Token> {
    SpellForm(d.form) + SpellInit(d.init)
  }

  /** Further declarators, each behind a comma, and the semicolon. */
  function SpellMore(ds: seq<Declarator>): seq<Token> {
    if ds == [] then [TSemicolon] else [TComma] + (SpellDeclarator(ds[0]) + SpellMore(ds[1..]))
  }

  function SpellDeclare(name: string, ds: seq<Declarator>): seq<Token> {
    if ds == [] then [] else [TIdent(name)] + (SpellDeclarator(ds[0]) + SpellMore(ds[1..]))
  }

  ghost predicate PartOk(part: ArrayPart) {
    part.Length? ==> exists n: nat :: Denotes(part.text, n)
  }

  /** The number of elements a length text denotes. */
  ghost function ElementsOf(part: ArrayPart): (n: int)
    requires PartOk(part)
    ensures part.Length? ==> n == ConstValue(part.text)
    ensures !part.Length? ==> n == 0
  {
    match part
    case Length(text) =>
      var n: nat :| Denotes(text, n);
      DenotedReads(text, n, false);
      Int32(n)
    case _ => 0
  }

  /** The variable declared: a pointer for a star and one for an open array. */
  ghost function VarOf(typeName: string, f: Form): Var
    requires PartOk(f.part)
  {
    Var(typeName, f.name, (if f.star then 1 else 0) + (if f.part.Open? then 1 else 0), 0, ElementsOf(f.part), 0)
  }

  /** The bytes a variable of this type needs, or a pointer. */
  function Needs(v: Var, t: TypeDef): int {
    if v.isPointer > 0 then PTR_SIZE else t.size
  }

  ghost function WithVar(sc: Scope, t: TypeDef, f: Form): (r: Scope)
    requires PartOk(f.part) && sc.block < |sc.blocks|
    ensures r.block == sc.block && |r.blocks| == |sc.blocks| && r.names == sc.names
  {
    sc.(blocks := sc.blocks[sc.block := sc.blocks[sc.block].(
      locals := sc.blocks[sc.block].locals + [VarOf(t.name, f)])])
  }

  /** An initialiser is read where its variable is already declared; it stores `size`, or what its own variable
      needs. */
  ghost predicate InitFits(sc: Scope, t: TypeDef, size: Option<int>, d: Declarator, next: Token)
    requires sc.block < |sc.blocks|
  {
    && PartOk(d.form.part)
    && match d.init
       case None => true
       case Some(x) =>
         && x.name == d.form.name && x.own == Needs(VarOf(t.name, d.form), t)
         && x.size == (match size case None => x.own case Some(n) => n)
         && ExprFits(WithVar(sc, t, d.form), x.value, next)
  }

  function After(ds: seq<Declarator>): Token {
    if ds == [] then TSemicolon else TComma
  }

  ghost predicate MoreFit(sc: Scope, t: TypeDef, size: int, ds: seq<Declarator>)
    requires sc.block < |sc.blocks|
    decreases |ds|
  {
    ds != [] ==>
      && InitFits(sc, t, Some(size), ds[0], After(ds[1..]))
      && MoreFit(WithVar(sc, t, ds[0].form), t, size, ds[1..])
  }

  ghost predicate DeclareFits(sc: Scope, t: TypeDef, ds: seq<Declarator>)
    requires sc.block < |sc.blocks|
  {
    && ds != [] && InitFits(sc, t, None, ds[0], After(ds[1..]))
    && MoreFit(WithVar(sc, t, ds[0].form), t, Needs(VarOf(t.name, ds[0].form), t), ds[1..])
  }

  /** The scope behind the declarators. */
  ghost function Declaring(sc: Scope, t: TypeDef, ds: seq<Declarator>): (r: Scope)
    requires sc.block < |sc.blocks|
    ensures r.block == sc.block && |r.blocks| == |sc.blocks| && r.names == sc.names
    decreases |ds|
  {
    if ds == [] || !PartOk(ds[0].form.part) then sc else Declaring(WithVar(sc, t, ds[0].form), t, ds[1..])
  }

  lemma PartBack(f: Form, typeName: string, ts: seq<Token>, i: nat)
    requires PartOk(f.part) && Spelled(ts, i, SpellForm(f)) && !Peek(ts, i + |SpellForm(f)|).TOpSquare?
    ensures i + |SpellForm(f)| <= |ts| && FormAt(ts, i) == f
    ensures PDeclarator(typeName, ts, i) == Some(Parse(VarOf(typeName, f), i + |SpellForm(f)|))
  {
    hide Spelled, ConstValue, Denotes;
    var star := if f.star then [TStar] else [];
    var j := i + |star|;
    SpelledSplit(ts, i, star, [TIdent(f.name)] + SpellPart(f.part));
    SpelledSplit(ts, j, [TIdent(f.name)], SpellPart(f.part));
    SpelledOne(ts, j, TIdent(f.name));
    if f.star { SpelledOne(ts, i, TStar); }
    PartTokens(f.part, ts, j + 1);
  }

  lemma PartTokens(part: ArrayPart, ts: seq<Token>, i: nat)
    requires Spelled(ts, i, SpellPart(part))
    ensures i + |SpellPart(part)| <= |ts|
    ensures part.Length? ==>
              Peek(ts, i).TOpSquare? && Peek(ts, i + 1) == TNumeric(part.text) && Peek(ts, i + 2).TClSquare?
    ensures part.Open? ==> Peek(ts, i).TOpSquare? && Peek(ts, i + 1).TClSquare?
  {
    var piece := SpellPart(part);
    forall k | 0 <= k < |piece| ensures ts[i + k] == piece[k] {
      assert ts[i..i + |piece|][k] == ts[i + k];
    }
  }

  lemma InitParsed(sc: Scope, t: TypeDef, size: Option<int>, d: Declarator, ts: seq<Token>, i: nat, j: nat, end: nat)
    requires i < j <= |ts| && end <= |ts| && sc.block < |sc.blocks| && PartOk(d.form.part)
    requires PDeclarator(t.name, ts, i) == Some(Parse(VarOf(t.name, d.form), j)) && FormAt(ts, i) == d.form
    requires d.init.None? ==> end == j && !Peek(ts, j).TAssign?
    requires d.init.Some? ==>
               && j < |ts| && Peek(ts, j).TAssign? && d.init.value.name == d.form.name
               && d.init.value.own == Needs(VarOf(t.name, d.form), t)
               && d.init.value.size == (match size case None => d.init.value.own case Some(n) => n)
               && PExpr(WithVar(sc, t, d.form), ts, j + 1) == Some(Parse(d.init.value.value, end))
    ensures PInit(sc, t, size, ts, i)
         == Some(InitParse(match size case None => Needs(VarOf(t.name, d.form), t) case Some(n) => n, d, end,
                           WithVar(sc, t, d.form).blocks))
  {
    hide PExpr, PDeclarator, FormAt, ElementsOf;
  }

  lemma InitBack(sc: Scope, t: TypeDef, size: Option<int>, d: Declarator, next: Token, ts: seq<Token>, i: nat)
    requires sc.block < |sc.blocks| && InitFits(sc, t, size, d, next) && (next.TComma? || next.TSemicolon?)
    requires Spelled(ts, i, SpellDeclarator(d)) && Peek(ts, i + |SpellDeclarator(d)|) == next
    ensures PartOk(d.form.part) && i + |SpellDeclarator(d)| <= |ts|
    ensures PInit(sc, t, size, ts, i)
         == Some(InitParse(match size case None => Needs(VarOf(t.name, d.form), t) case Some(n) => n, d,
                           i + |SpellDeclarator(d)|, WithVar(sc, t, d.form).blocks))
  {
    hide Spelled, SpellForm, SpellExpr, ExprFits, PExpr, PDeclarator, FormAt, VarOf, WithVar, PInit;
    var j := i + |SpellForm(d.form)|;
    SpelledSplit(ts, i, SpellForm(d.form), SpellInit(d.init));
    if d.init.Some? {
      var x := d.init.value;
      SpelledSplit(ts, j, [TAssign], SpellExpr(x.value));
      SpelledOne(ts, j, TAssign);
      FitsBack(WithVar(sc, t, d.form), x.value, next, ts, j + 1);
    }
    FormNotEmpty(d.form);
    PartBack(d.form, t.name, ts, i);
    InitParsed(sc, t, size, d, ts, i, j, i + |SpellDeclarator(d)|);
  }

  lemma FormNotEmpty(f: Form)
    ensures |SpellForm(f)| > 0
  {
  }

  lemma MoreParsed(sc: Scope, t: TypeDef, size: int, d: Declarator, ds: seq<Declarator>, ts: seq<Token>, i: nat, j: nat,
                   end: nat, blocks: seq<Block>)
    requires i < j <= |ts| && end <= |ts| && sc.block < |sc.blocks| && PartOk(d.form.part) && Peek(ts, i).TComma?
    requires PInit(sc, t, Some(size), ts, i + 1) == Some(InitParse(size, d, j, WithVar(sc, t, d.form).blocks))
    requires PMoreInits(WithVar(sc, t, d.form), t, size, ts, j) == Some(Parsed(ds, end, blocks))
    ensures PMoreInits(sc, t, size, ts, i) == Some(Parsed([d] + ds, end, blocks))
  {
    hide PInit;
    assert In(sc, WithVar(sc, t, d.form).blocks) == WithVar(sc, t, d.form);
  }

  lemma MoreParts(sc: Scope, t: TypeDef, size: int, ds: seq<Declarator>)
    requires sc.block < |sc.blocks| && MoreFit(sc, t, size, ds) && ds != []
    ensures InitFits(sc, t, Some(size), ds[0], After(ds[1..])) && PartOk(ds[0].form.part)
    ensures MoreFit(WithVar(sc, t, ds[0].form), t, size, ds[1..])
    ensures SpellMore(ds) == [TComma] + (SpellDeclarator(ds[0]) + SpellMore(ds[1..]))
    ensures Declaring(sc, t, ds) == Declaring(WithVar(sc, t, ds[0].form), t, ds[1..])
  {
    hide WithVar, SpellDeclarator;
  }

  lemma {:induction false} MoreBack(sc: Scope, t: TypeDef, size: int, ds: seq<Declarator>, ts: seq<Token>, i: nat)
    requires sc.block < |sc.blocks| && MoreFit(sc, t, size, ds) && Spelled(ts, i, SpellMore(ds))
    ensures i + |SpellMore(ds)| <= |ts| && Peek(ts, i) == After(ds)
    ensures PMoreInits(sc, t, size, ts, i) == Some(Parsed(ds, i + |SpellMore(ds)|, Declaring(sc, t, ds).blocks))
    decreases |ds|
  {
    hide Spelled, SpellDeclarator, InitFits, PInit, WithVar, PartOk;
    if ds == [] {
      SpelledOne(ts, i, TSemicolon);
    } else {
      hide MoreFit, SpellMore, Declaring, PMoreInits;
      var d, x := ds[0], SpellDeclarator(ds[0]);
      MoreParts(sc, t, size, ds);
      SpelledSplit(ts, i, [TComma], x + SpellMore(ds[1..]));
      SpelledSplit(ts, i + 1, x, SpellMore(ds[1..]));
      SpelledOne(ts, i, TComma);
      MoreBack(WithVar(sc, t, d.form), t, size, ds[1..], ts, i + 1 + |x|);
      InitBack(sc, t, Some(size), d, After(ds[1..]), ts, i + 1);
      MoreParsed(sc, t, size, d, ds[1..], ts, i, i + 1 + |x|, i + |SpellMore(ds)|, Declaring(sc, t, ds).blocks);
      assert [d] + ds[1..] == ds;
    }
  }

  lemma FitsPart(sc: Scope, t: TypeDef, size: Option<int>, d: Declarator, next: Token)
    requires sc.block < |sc.blocks| && InitFits(sc, t, size, d, next)
    ensures PartOk(d.form.part)
  {
  }

  lemma DeclareBack(sc: Scope, t: TypeDef, name: string, ds: seq<Declarator>, ts: seq<Token>, i: nat)
    requires sc.block < |sc.blocks| && DeclareFits(sc, t, ds) && Spelled(ts, i, SpellDeclare(name, ds))
    ensures i + |SpellDeclare(name, ds)| <= |ts| && Peek(ts, i) == TIdent(name) && i < |ts|
    ensures PDeclare(sc, t, ts, i + 1)
         == Some(Parsed(ds, i + |SpellDeclare(name, ds)|, Declaring(sc, t, ds).blocks))
  {
    hide Spelled, SpellDeclarator, SpellMore, InitFits, MoreFit, PInit, PMoreInits, PDeclare, Declaring, WithVar,
      PartOk, VarOf, Needs;
    var d, x := ds[0], SpellDeclarator(ds[0]);
    SpelledSplit(ts, i, [TIdent(name)], x + SpellMore(ds[1..]));
    SpelledSplit(ts, i + 1, x, SpellMore(ds[1..]));
    SpelledOne(ts, i, TIdent(name));
    FitsPart(sc, t, None, d, After(ds[1..]));
    var size := Needs(VarOf(t.name, d.form), t);
    MoreBack(WithVar(sc, t, d.form), t, size, ds[1..], ts, i + 1 + |x|);
    InitBack(sc, t, None, d, After(ds[1..]), ts, i + 1);
    DeclareParsed(sc, t, ds, size, ts, i + 1, i + 1 + |x|, i + |SpellDeclare(name, ds)|);
  }

  lemma DeclareParsed(sc: Scope, t: TypeDef, ds: seq<Declarator>, size: int, ts: seq<Token>, i: nat, j: nat, end: nat)
    requires sc.block < |sc.blocks| && ds != [] && PartOk(ds[0].form.part) && i <= |ts| && j <= |ts|
    requires var inner := WithVar(sc, t, ds[0].form);
             && PInit(sc, t, None, ts, i) == Some(InitParse(size, ds[0], j, inner.blocks))
             && PMoreInits(inner, t, size, ts, j) == Some(Parsed(ds[1..], end, Declaring(inner, t, ds[1..]).blocks))
    ensures PDeclare(sc, t, ts, i) == Some(Parsed(ds, end, Declaring(sc, t, ds).blocks))
  {
    hide PInit, PMoreInits, WithVar, PartOk;
    SameIn(sc, t, ds[0].form);
    assert [ds[0]] + ds[1..] == ds;
  }

  lemma SameIn(sc: Scope, t: TypeDef, f: Form)
    requires PartOk(f.part) && sc.block < |sc.blocks|
    ensures In(sc, WithVar(sc, t, f).blocks) == WithVar(sc, t, f)
  {
  }

  // ----- statements -----

  function SpellCondition(c: Expr): seq<Token> {
    [TOpBracket] + (SpellExpr(c) + [TClBracket])
  }

  function SpellOptExpr(e: Option<Expr>): seq<Token> {
    (match e case None => [] case Some(x) => SpellExpr(x)) + [TSemicolon]
  }

  function SpellOptAssign(a: Option<Assign>, close: Token): seq<Token> {
    (match a case None => [] case Some(x) => SpellAssign(x)) + [close]
  }

  function SpellForHead(h: ForHead): seq<Token> {
    [TOpBracket] + (SpellOptAssign(h.init, TSemicolon) + (SpellOptExpr(h.test) + SpellOptAssign(h.step, TClBracket)))
  }

  function SpellLabel(x: Label): seq<Token> {
    match x
    case CaseOf(v, form) => [TCase, NumToken(v, form), TColon]
    case DefaultCase => [TDefault, TColon]
  }

  function SpellStmt(s: Stmt): seq<Token>
    decreases s, 0
  {
    match s
    case Compound(_, body) => [TOpCurly] + SpellStmts(body)
    case ReturnFrom(_, value) => [TReturn] + SpellOptExpr(value)
    case If(cond, thn, els) => [TIf] + (SpellCondition(cond) + (SpellStmt(thn) + SpellElse(els)))
    case While(cond, body) => [TWhile] + (SpellCondition(cond) + SpellStmt(body))
    case DoWhile(body, cond) => [TDo] + (SpellStmt(body) + ([TWhile] + (SpellCondition(cond) + [TSemicolon])))
    case For(init, test, step, body) => [TFor] + (SpellForHead(ForHead(init, test, step)) + SpellStmt(body))
    case Switch(on, clauses) => [TSwitch] + (SpellCondition(on) + ([TOpCurly] + SpellClauses(clauses)))
    case Break(after) => [TBreak] + SpellStmt(after)
    case Empty => [TSemicolon]
    case Declare(name, ds) => SpellDeclare(name, ds)
    case Evaluate(o) => SpellOperand(o) + [TSemicolon]
    case Assignment(a) => SpellAssign(a) + [TSemicolon]
  }

  function SpellElse(els: Option<Stmt>): seq<Token>
    decreases els, 0
  {
    match els case None => [] case Some(e) => [TElse] + SpellStmt(e)
  }

  /** Statements and the closing brace. */
  function SpellStmts(ss: seq<Stmt>): seq<Token>
    decreases ss, 0
  {
    if ss == [] then [TClCurly] else SpellStmt(ss[0]) + SpellStmts(ss[1..])
  }

  function SpellBody(ss: seq<Stmt>): seq<Token>
    decreases ss, 0
  {
    if ss == [] then [] else SpellStmt(ss[0]) + SpellBody(ss[1..])
  }

  function SpellClause(c: Clause): seq<Token>
    decreases c, 0
  {
    SpellLabel(c.head) + SpellBody(c.body)
  }

  /** Clauses and the closing brace. */
  function SpellClauses(cs: seq<Clause>): seq<Token>
    decreases cs, 0
  {
    if cs == [] then [TClCurly] else SpellClause(cs[0]) + SpellClauses(cs[1..])
  }

  // ----- what a statement declares -----

  /** The scope of a block inside: its entry in the table is the next one. */
  function Inner(sc: Scope): (r: Scope)
    requires sc.block < |sc.blocks|
    ensures r.block < |r.blocks| == |sc.blocks| + 1 && r.names == sc.names
  {
    Scope(sc.names, sc.blocks + [Block([], Some(sc.block), sc.blocks[sc.block].func, 0)], |sc.blocks|)
  }

  /** The same place with more in the tables. */
  function Later(sc: Scope, blocks: seq<Block>): (r: Scope) {
    sc.(blocks := blocks)
  }

  /** The table of blocks behind a statement. */
  ghost function Tables(sc: Scope, s: Stmt): (r: seq<Block>)
    requires sc.block < |sc.blocks|
    ensures |r| >= |sc.blocks|
    decreases s, 0
  {
    match s
    case Compound(_, body) => AllTables(Inner(sc), body)
    case If(_, thn, els) => ElseTables(Later(sc, Tables(sc, thn)), els)
    case While(_, body) => Tables(sc, body)
    case DoWhile(body, _) => Tables(sc, body)
    case For(_, _, _, body) => Tables(sc, body)
    case Switch(_, clauses) => ClausesTables(sc, clauses)
    case Break(after) => Tables(sc, after)
    case Declare(name, ds) =>
      (match FindType(sc.names.types, name) case None => sc.blocks case Some(t) => Declaring(sc, t, ds).blocks)
    case _ => sc.blocks
  }

  ghost function ElseTables(sc: Scope, els: Option<Stmt>): (r: seq<Block>)
    requires sc.block < |sc.blocks|
    ensures |r| >= |sc.blocks|
    decreases els, 0
  {
    match els case None => sc.blocks case Some(e) => Tables(sc, e)
  }

  ghost function AllTables(sc: Scope, ss: seq<Stmt>): (r: seq<Block>)
    requires sc.block < |sc.blocks|
    ensures |r| >= |sc.blocks|
    decreases ss, 0
  {
    if ss == [] then sc.blocks else AllTables(Later(sc, Tables(sc, ss[0])), ss[1..])
  }

  ghost function ClauseTables(sc: Scope, c: Clause): (r: seq<Block>)
    requires sc.block < |sc.blocks|
    ensures |r| >= |sc.blocks|
    decreases c, 0
  {
    AllTables(sc, c.body)
  }

  ghost function ClausesTables(sc: Scope, cs: seq<Clause>): (r: seq<Block>)
    requires sc.block < |sc.blocks|
    ensures |r| >= |sc.blocks|
    decreases cs, 0
  {
    if cs == [] then sc.blocks else ClausesTables(Later(sc, ClauseTables(sc, cs[0])), cs[1..])
  }

  // ----- what can be written where -----

  /** No `else` behind the statement could become part of it. */
  predicate Closed(s: Stmt)
    decreases s
  {
    match s
    case If(_, _, els) => els.Some? && Closed(els.value)
    case While(_, body) => Closed(body)
    case For(_, _, _, body) => Closed(body)
    case Break(after) => Closed(after)
    case _ => true
  }

  /** What may follow a `break`. */
  predicate MayTrail(s: Stmt) {
    s.For? || s.DoWhile? || s.Empty? || s.Declare? || s.Evaluate? || s.Assignment?
  }

  ghost predicate OptExprFits(sc: Scope, e: Option<Expr>) {
    match e case None => true case Some(x) => ExprFits(sc, x, TSemicolon)
  }

  ghost predicate OptAssignFits(sc: Scope, a: Option<Assign>, close: Token) {
    match a case None => true case Some(x) => AssignFits(sc, x, close)
  }

  ghost predicate LabelFits(sc: Scope, x: Label) {
    match x
    case DefaultCase => true
    case CaseOf(v, Digits(text, minus)) => !minus && exists n: nat :: Denotes(text, n) && v == Int32(n)
    case CaseOf(v, Constant(name)) => FindConstant(sc.names.constants, name) == Some(v)
    case CaseOf(_, Character) => false
  }

  /** A call by name, or a function's name alone. */
  ghost predicate EvaluateFits(sc: Scope, o: Operand) {
    match o
    case Call(name, args, neg) =>
      !neg && FindType(sc.names.types, name).None? && FindFunction(sc.names.funcs, name).Some? && ExprsOk(args)
      && ArgsRead(sc, args)
    case FunctionAddress(name, neg) =>
      !neg && FindType(sc.names.types, name).None? && FindFunction(sc.names.funcs, name).Some?
    case _ => false
  }

  /** A statement whose names, numbers and block numbers are what the scope makes of them; `sw` inside a switch. */
  ghost predicate StmtFits(sc: Scope, sw: bool, s: Stmt)
    requires sc.block < |sc.blocks|
    decreases s, 0
  {
    match s
    case Compound(id, body) => id == |sc.blocks| && AllFit(Inner(sc), sw, body)
    case ReturnFrom(f, value) => FunctionName(sc) == Some(f) && OptExprFits(sc, value)
    case If(cond, thn, els) =>
      && ExprFits(sc, cond, TClBracket) && StmtFits(sc, sw, thn) && (els.Some? ==> Closed(thn))
      && ElseFits(Later(sc, Tables(sc, thn)), sw, els)
    case While(cond, body) => ExprFits(sc, cond, TClBracket) && StmtFits(sc, sw, body)
    case DoWhile(body, cond) => StmtFits(sc, sw, body) && ExprFits(Later(sc, Tables(sc, body)), cond, TClBracket)
    case For(init, test, step, body) =>
      && OptAssignFits(sc, init, TSemicolon) && OptExprFits(sc, test) && OptAssignFits(sc, step, TClBracket)
      && StmtFits(sc, sw, body)
    case Switch(on, clauses) => ExprFits(sc, on, TClBracket) && ClausesFit(sc, clauses)
    case Break(after) => sw && MayTrail(after) && StmtFits(sc, sw, after)
    case Empty => true
    case Declare(name, ds) =>
      (match FindType(sc.names.types, name) case None => false case Some(t) => DeclareFits(sc, t, ds))
    case Evaluate(o) => EvaluateFits(sc, o)
    case Assignment(a) =>
      && FindType(sc.names.types, a.lv.name).None? && FindFunction(sc.names.funcs, a.lv.name).None?
      && AssignFits(sc, a, TSemicolon)
  }

  ghost predicate ElseFits(sc: Scope, sw: bool, els: Option<Stmt>)
    requires sc.block < |sc.blocks|
    decreases els, 0
  {
    match els case None => true case Some(e) => StmtFits(sc, sw, e)
  }

  ghost predicate AllFit(sc: Scope, sw: bool, ss: seq<Stmt>)
    requires sc.block < |sc.blocks|
    decreases ss, 0
  {
    ss != [] ==> StmtFits(sc, sw, ss[0]) && AllFit(Later(sc, Tables(sc, ss[0])), sw, ss[1..])
  }

  ghost predicate ClauseFits(sc: Scope, c: Clause)
    requires sc.block < |sc.blocks|
    decreases c, 0
  {
    LabelFits(sc, c.head) && AllFit(sc, true, c.body)
  }

  ghost predicate ClausesFit(sc: Scope, cs: seq<Clause>)
    requires sc.block < |sc.blocks|
    decreases cs, 0
  {
    cs != [] ==> ClauseFits(sc, cs[0]) && ClausesFit(Later(sc, ClauseTables(sc, cs[0])), cs[1..])
  }

  // ----- reading back -----

  lemma ConditionBack(sc: Scope, c: Expr, ts: seq<Token>, i: nat)
    requires ExprFits(sc, c, TClBracket) && Spelled(ts, i, SpellCondition(c))
    ensures i + |SpellCondition(c)| <= |ts| && PCondition(sc, ts, i) == Some(Parse(c, i + |SpellCondition(c)|))
  {
    hide Spelled, SpellExpr, ExprFits, PExpr;
    SpelledSplit(ts, i, [TOpBracket], SpellExpr(c) + [TClBracket]);
    SpelledSplit(ts, i + 1, SpellExpr(c), [TClBracket]);
    SpelledOne(ts, i, TOpBracket);
    SpelledOne(ts, i + 1 + |SpellExpr(c)|, TClBracket);
    FitsBack(sc, c, TClBracket, ts, i + 1);
  }

  lemma OptExprBack(sc: Scope, e: Option<Expr>, ts: seq<Token>, i: nat)
    requires OptExprFits(sc, e) && Spelled(ts, i, SpellOptExpr(e))
    ensures i + |SpellOptExpr(e)| <= |ts| && POptExpr(sc, ts, i) == Some(Parse(e, i + |SpellOptExpr(e)|))
    ensures e.None? <==> Peek(ts, i).TSemicolon?
    ensures e.Some? ==>
              && PExpr(sc, ts, i) == Some(Parse(e.value, i + |SpellExpr(e.value)|))
              && Peek(ts, i + |SpellExpr(e.value)|).TSemicolon?
  {
    hide Spelled, SpellExpr, ExprFits, PExpr;
    match e
    case None =>
      assert SpellOptExpr(e) == [TSemicolon];
      SpelledOne(ts, i, TSemicolon);
    case Some(x) =>
      SpelledSplit(ts, i, SpellExpr(x), [TSemicolon]);
      SpelledOne(ts, i + |SpellExpr(x)|, TSemicolon);
      FitsBack(sc, x, TSemicolon, ts, i);
  }

  lemma OptAssignBack(sc: Scope, a: Option<Assign>, close: Token, ts: seq<Token>, i: nat)
    requires OptAssignFits(sc, a, close) && Spelled(ts, i, SpellOptAssign(a, close))
    requires close.TSemicolon? || close.TClBracket?
    ensures i + |SpellOptAssign(a, close)| <= |ts|
    ensures POptAssign(sc, close, ts, i) == Some(Parse(a, i + |SpellOptAssign(a, close)|))
  {
    hide Spelled, SpellAssign, AssignFits, PAssign;
    match a
    case None =>
      assert SpellOptAssign(a, close) == [close];
      SpelledOne(ts, i, close);
    case Some(x) =>
      SpelledSplit(ts, i, SpellAssign(x), [close]);
      SpelledOne(ts, i + |SpellAssign(x)|, close);
      AssignBack(sc, x, close, ts, i);
  }

  lemma ForHeadBack(sc: Scope, h: ForHead, ts: seq<Token>, i: nat)
    requires OptAssignFits(sc, h.init, TSemicolon) && OptExprFits(sc, h.test) && OptAssignFits(sc, h.step, TClBracket)
    requires Spelled(ts, i, SpellForHead(h))
    ensures i + |SpellForHead(h)| <= |ts| && PForHead(sc, ts, i) == Some(Parse(h, i + |SpellForHead(h)|))
  {
    hide Spelled, SpellOptAssign, SpellOptExpr, OptAssignFits, OptExprFits, POptAssign, POptExpr;
    var x, y, z := SpellOptAssign(h.init, TSemicolon), SpellOptExpr(h.test), SpellOptAssign(h.step, TClBracket);
    SpelledSplit(ts, i, [TOpBracket], x + (y + z));
    SpelledSplit(ts, i + 1, x, y + z);
    SpelledSplit(ts, i + 1 + |x|, y, z);
    SpelledOne(ts, i, TOpBracket);
    OptAssignBack(sc, h.init, TSemicolon, ts, i + 1);
    OptExprBack(sc, h.test, ts, i + 1 + |x|);
    OptAssignBack(sc, h.step, TClBracket, ts, i + 1 + |x| + |y|);
  }

  /** Where a statement can start. */
  predicate Starts(t: Token) {
    !t.TElse? && !t.TClCurly? && !StartsClause(t)
  }

  /** Statement s stands at i, with nothing behind it that could become part of it. */
  ghost predicate Stands(ts: seq<Token>, i: nat, s: Stmt) {
    Spelled(ts, i, SpellStmt(s)) && (!Closed(s) ==> !Peek(ts, i + |SpellStmt(s)|).TElse?)
  }

  /** It is read back, with what it declares. */
  ghost predicate ReadBack(sc: Scope, sw: bool, s: Stmt, ts: seq<Token>, i: nat)
    requires sc.block < |sc.blocks|
  {
    && i + |SpellStmt(s)| <= |ts| && Starts(Peek(ts, i))
    && PStmt(sc, sw, ts, i) == Some(Parsed(s, i + |SpellStmt(s)|, Tables(sc, s)))
  }

  ghost predicate TailBack(sc: Scope, sw: bool, s: Stmt, ts: seq<Token>, i: nat)
    requires sc.block < |sc.blocks|
  {
    && i + |SpellStmt(s)| <= |ts| && TailToken(Peek(ts, i))
    && PTail(sc, sw, ts, i) == Some(Parsed(s, i + |SpellStmt(s)|, Tables(sc, s)))
  }

  predicate TailToken(t: Token) {
    t.TFor? || t.TDo? || t.TSemicolon? || t.TIdent?
  }

  lemma TailIsRead(sc: Scope, sw: bool, s: Stmt, ts: seq<Token>, i: nat)
    requires sc.block < |sc.blocks| && TailBack(sc, sw, s, ts, i)
    ensures ReadBack(sc, sw, s, ts, i)
  {
    hide PTail, SpellStmt, Tables;
  }

  lemma DeclaredBack(sc: Scope, sw: bool, s: Stmt, ts: seq<Token>, i: nat)
    requires sc.block < |sc.blocks| && s.Declare? && StmtFits(sc, sw, s) && Spelled(ts, i, SpellStmt(s))
    ensures TailBack(sc, sw, s, ts, i)
  {
    hide Spelled, SpellDeclare, DeclareFits, PDeclare, Declaring, FindType;
    DeclareBack(sc, FindType(sc.names.types, s.typeName).value, s.typeName, s.ds, ts, i);
  }

  lemma EvaluatedBack(sc: Scope, sw: bool, s: Stmt, ts: seq<Token>, i: nat)
    requires sc.block < |sc.blocks| && s.Evaluate? && StmtFits(sc, sw, s) && Spelled(ts, i, SpellStmt(s))
    ensures TailBack(sc, sw, s, ts, i)
  {
    hide Spelled, PTail, SpellOperand;
    assert SpellStmt(s) == SpellOperand(s.o) + [TSemicolon] && Tables(sc, s) == sc.blocks;
    match s.o
    case Call(name, args, _) => CalledBack(sc, name, args, ts, i);
    case FunctionAddress(name, _) => NamedBack(sc, name, ts, i);
  }

  lemma CalledBack(sc: Scope, name: string, args: seq<Expr>, ts: seq<Token>, i: nat)
    requires sc.block < |sc.blocks| && EvaluateFits(sc, Call(name, args, false))
    requires Spelled(ts, i, SpellOperand(Call(name, args, false)) + [TSemicolon])
    ensures var end := i + |SpellOperand(Call(name, args, false))| + 1;
            && end <= |ts| && Peek(ts, i).TIdent?
            && PTail(sc, false, ts, i) == PTail(sc, true, ts, i)
            == Some(Parsed(Evaluate(Call(name, args, false)), end, sc.blocks))
  {
    hide Spelled, SpellArgs, SpellOperand, ExprsOk, ArgsRead, PArgs, PTail, FindType, FindFunction;
    var rest := SpellArgs(args) + [TClBracket];
    CallSpelled(name, args);
    SpelledSplit(ts, i, [TIdent(name)], [TOpBracket] + (rest + [TSemicolon]));
    SpelledSplit(ts, i + 1, [TOpBracket], rest + [TSemicolon]);
    SpelledSplit(ts, i + 2, rest, [TSemicolon]);
    SpelledOne(ts, i, TIdent(name));
    SpelledOne(ts, i + 1, TOpBracket);
    SpelledOne(ts, i + 2 + |rest|, TSemicolon);
    ArgsBack(sc, args, ts, i + 2);
    CalledParsed(sc, name, args, ts, i, i + 2 + |rest|);
  }

  lemma CalledParsed(sc: Scope, name: string, args: seq<Expr>, ts: seq<Token>, i: nat, end: nat)
    requires sc.block < |sc.blocks| && i + 2 <= end < |ts|
    requires Peek(ts, i) == TIdent(name) && Peek(ts, i + 1).TOpBracket? && Peek(ts, end).TSemicolon?
    requires FindType(sc.names.types, name).None? && FindFunction(sc.names.funcs, name).Some?
    requires PArgs(sc, ts, i + 2) == Some(Parse(args, end))
    ensures PTail(sc, false, ts, i) == PTail(sc, true, ts, i)
         == Some(Parsed(Evaluate(Call(name, args, false)), end + 1, sc.blocks))
  {
    hide PArgs, FindType, FindFunction;
  }

  lemma CallSpelled(name: string, args: seq<Expr>)
    ensures SpellOperand(Call(name, args, false)) + [TSemicolon]
         == [TIdent(name)] + ([TOpBracket] + ((SpellArgs(args) + [TClBracket]) + [TSemicolon]))
  {
    hide SpellArgs;
    assert SpellOperand(Call(name, args, false)) == [] + ([TIdent(name), TOpBracket] + SpellArgs(args) + [TClBracket]);
  }

  lemma NamedBack(sc: Scope, name: string, ts: seq<Token>, i: nat)
    requires sc.block < |sc.blocks| && EvaluateFits(sc, FunctionAddress(name, false))
    requires Spelled(ts, i, SpellOperand(FunctionAddress(name, false)) + [TSemicolon])
    ensures var end := i + |SpellOperand(FunctionAddress(name, false))| + 1;
            && end <= |ts| && Peek(ts, i).TIdent?
            && PTail(sc, false, ts, i) == PTail(sc, true, ts, i)
            == Some(Parsed(Evaluate(FunctionAddress(name, false)), end, sc.blocks))
  {
    hide Spelled, FindType, FindFunction;
    assert SpellOperand(FunctionAddress(name, false)) == [] + [TIdent(name)];
    assert [] + [TIdent(name)] == [TIdent(name)];
    SpelledSplit(ts, i, [TIdent(name)], [TSemicolon]);
    SpelledOne(ts, i, TIdent(name));
    SpelledOne(ts, i + 1, TSemicolon);
  }

  lemma AssignmentBack(sc: Scope, sw: bool, s: Stmt, ts: seq<Token>, i: nat)
    requires sc.block < |sc.blocks| && s.Assignment? && StmtFits(sc, sw, s) && Spelled(ts, i, SpellStmt(s))
    ensures TailBack(sc, sw, s, ts, i)
  {
    hide Spelled, SpellAssign, AssignFits, PAssign, FindType, FindFunction;
    SpelledSplit(ts, i, SpellAssign(s.a), [TSemicolon]);
    SpelledOne(ts, i + |SpellAssign(s.a)|, TSemicolon);
    AssignBack(sc, s.a, TSemicolon, ts, i);
  }

  lemma ForParts(sc: Scope, sw: bool, s: Stmt)
    requires sc.block < |sc.blocks| && s.For? && StmtFits(sc, sw, s)
    ensures OptAssignFits(sc, s.init, TSemicolon) && OptExprFits(sc, s.test) && OptAssignFits(sc, s.step, TClBracket)
    ensures StmtFits(sc, sw, s.inner) && Tables(sc, s) == Tables(sc, s.inner) && Closed(s) == Closed(s.inner)
    ensures SpellStmt(s) == [TFor] + (SpellForHead(ForHead(s.init, s.test, s.step)) + SpellStmt(s.inner))
  {
  }

  lemma ForParsed(sc: Scope, sw: bool, s: Stmt, ts: seq<Token>, i: nat, j: nat, end: nat, blocks: seq<Block>)
    requires s.For? && sc.block < |sc.blocks| && i < |ts| && j <= |ts| && Peek(ts, i).TFor?
    requires PForHead(sc, ts, i + 1) == Some(Parse(ForHead(s.init, s.test, s.step), j))
    requires PStmt(sc, sw, ts, j) == Some(Parsed(s.inner, end, blocks))
    ensures PTail(sc, sw, ts, i) == Some(Parsed(s, end, blocks))
  {
    hide PForHead, PStmt;
  }

  lemma {:induction false} ForBack(sc: Scope, sw: bool, s: Stmt, ts: seq<Token>, i: nat)
    requires sc.block < |sc.blocks| && s.For? && StmtFits(sc, sw, s) && Stands(ts, i, s)
    ensures TailBack(sc, sw, s, ts, i)
    decreases s, 0
  {
    hide Spelled, SpellForHead, OptAssignFits, OptExprFits, PForHead, PStmt, PTail, StmtFits, SpellStmt, Tables, Closed;
    var h := ForHead(s.init, s.test, s.step);
    var x := SpellForHead(h);
    ForParts(sc, sw, s);
    SpelledSplit(ts, i, [TFor], x + SpellStmt(s.inner));
    SpelledSplit(ts, i + 1, x, SpellStmt(s.inner));
    SpelledOne(ts, i, TFor);
    ForHeadBack(sc, h, ts, i + 1);
    StmtBack(sc, sw, s.inner, ts, i + 1 + |x|);
    ForParsed(sc, sw, s, ts, i, i + 1 + |x|, i + |SpellStmt(s)|, Tables(sc, s));
  }

  lemma DoParts(sc: Scope, sw: bool, s: Stmt)
    requires sc.block < |sc.blocks| && s.DoWhile? && StmtFits(sc, sw, s)
    ensures StmtFits(sc, sw, s.inner) && ExprFits(Later(sc, Tables(sc, s.inner)), s.cond, TClBracket)
    ensures Tables(sc, s) == Tables(sc, s.inner)
    ensures SpellStmt(s) == [TDo] + (SpellStmt(s.inner) + ([TWhile] + (SpellCondition(s.cond) + [TSemicolon])))
  {
  }

  lemma DoParsed(sc: Scope, sw: bool, s: Stmt, ts: seq<Token>, i: nat, j: nat, k: nat, blocks: seq<Block>)
    requires s.DoWhile? && sc.block < |sc.blocks| <= |blocks| && i < |ts| && j < |ts| && k < |ts| && Peek(ts, i).TDo?
    requires PStmt(sc, sw, ts, i + 1) == Some(Parsed(s.inner, j, blocks)) && Peek(ts, j).TWhile?
    requires PCondition(Later(sc, blocks), ts, j + 1) == Some(Parse(s.cond, k)) && Peek(ts, k).TSemicolon?
    ensures PTail(sc, sw, ts, i) == Some(Parsed(s, k + 1, blocks))
  {
    hide PCondition, PStmt;
  }

  lemma {:induction false} DoBack(sc: Scope, sw: bool, s: Stmt, ts: seq<Token>, i: nat)
    requires sc.block < |sc.blocks| && s.DoWhile? && StmtFits(sc, sw, s) && Stands(ts, i, s)
    ensures TailBack(sc, sw, s, ts, i)
    decreases s, 0
  {
    hide Spelled, SpellCondition, ExprFits, PCondition, PStmt, PTail, StmtFits, SpellStmt, Tables, Closed;
    DoParts(sc, sw, s);
    var x, y := SpellStmt(s.inner), SpellCondition(s.cond);
    SpelledSplit(ts, i, [TDo], x + ([TWhile] + (y + [TSemicolon])));
    SpelledSplit(ts, i + 1, x, [TWhile] + (y + [TSemicolon]));
    var j := i + 1 + |x|;
    SpelledSplit(ts, j, [TWhile], y + [TSemicolon]);
    SpelledSplit(ts, j + 1, y, [TSemicolon]);
    SpelledOne(ts, i, TDo);
    SpelledOne(ts, j, TWhile);
    SpelledOne(ts, j + 1 + |y|, TSemicolon);
    StmtBack(sc, sw, s.inner, ts, i + 1);
    ConditionBack(Later(sc, Tables(sc, s.inner)), s.cond, ts, j + 1);
    DoParsed(sc, sw, s, ts, i, j, j + 1 + |y|, Tables(sc, s));
  }

  lemma {:induction false} TrailBack(sc: Scope, sw: bool, s: Stmt, ts: seq<Token>, i: nat)
    requires sc.block < |sc.blocks| && MayTrail(s) && StmtFits(sc, sw, s) && Stands(ts, i, s)
    ensures TailBack(sc, sw, s, ts, i)
    decreases s, 1
  {
    hide Spelled, StmtFits, TailBack, SpellDeclare, SpellAssign, SpellForHead, SpellOperand, SpellCondition;
    match s
    case For(_, _, _, _) => ForBack(sc, sw, s, ts, i);
    case DoWhile(_, _) => DoBack(sc, sw, s, ts, i);
    case Declare(_, _) => DeclaredBack(sc, sw, s, ts, i);
    case Evaluate(_) => EvaluatedBack(sc, sw, s, ts, i);
    case Assignment(_) => AssignmentBack(sc, sw, s, ts, i);
    case Empty => EmptyBack(sc, sw, ts, i);
  }

  lemma EmptyBack(sc: Scope, sw: bool, ts: seq<Token>, i: nat)
    requires sc.block < |sc.blocks| && Spelled(ts, i, SpellStmt(Empty))
    ensures TailBack(sc, sw, Empty, ts, i)
  {
    SpelledOne(ts, i, TSemicolon);
  }

  lemma BreakParts(sc: Scope, sw: bool, s: Stmt)
    requires sc.block < |sc.blocks| && s.Break? && StmtFits(sc, sw, s)
    ensures sw && MayTrail(s.after) && StmtFits(sc, sw, s.after) && Tables(sc, s) == Tables(sc, s.after)
    ensures Closed(s) == Closed(s.after) && SpellStmt(s) == [TBreak] + SpellStmt(s.after)
  {
  }

  lemma BreakParsed(sc: Scope, s: Stmt, ts: seq<Token>, i: nat, end: nat, blocks: seq<Block>)
    requires s.Break? && sc.block < |sc.blocks| && i < |ts| && Peek(ts, i).TBreak?
    requires PTail(sc, true, ts, i + 1) == Some(Parsed(s.after, end, blocks))
    ensures PStmt(sc, true, ts, i) == Some(Parsed(s, end, blocks))
  {
    hide PTail;
  }

  lemma {:induction false} BreakBack(sc: Scope, sw: bool, s: Stmt, ts: seq<Token>, i: nat)
    requires sc.block < |sc.blocks| && s.Break? && StmtFits(sc, sw, s) && Stands(ts, i, s)
    ensures ReadBack(sc, sw, s, ts, i)
    decreases s, 0
  {
    hide Spelled, PTail, PStmt, StmtFits, SpellStmt, Tables, Closed;
    BreakParts(sc, sw, s);
    SpelledSplit(ts, i, [TBreak], SpellStmt(s.after));
    SpelledOne(ts, i, TBreak);
    TrailBack(sc, sw, s.after, ts, i + 1);
    BreakParsed(sc, s, ts, i, i + |SpellStmt(s)|, Tables(sc, s));
  }

  lemma ReturnBack(sc: Scope, sw: bool, s: Stmt, ts: seq<Token>, i: nat)
    requires sc.block < |sc.blocks| && s.ReturnFrom? && StmtFits(sc, sw, s) && Spelled(ts, i, SpellStmt(s))
    ensures ReadBack(sc, sw, s, ts, i)
  {
    hide Spelled, SpellExpr, ExprFits, PExpr, FunctionName;
    SpelledSplit(ts, i, [TReturn], SpellOptExpr(s.value));
    SpelledOne(ts, i, TReturn);
    OptExprBack(sc, s.value, ts, i + 1);
  }

  lemma WhileParts(sc: Scope, sw: bool, s: Stmt)
    requires sc.block < |sc.blocks| && s.While? && StmtFits(sc, sw, s)
    ensures ExprFits(sc, s.cond, TClBracket) && StmtFits(sc, sw, s.inner) && Tables(sc, s) == Tables(sc, s.inner)
    ensures Closed(s) == Closed(s.inner) && SpellStmt(s) == [TWhile] + (SpellCondition(s.cond) + SpellStmt(s.inner))
  {
  }

  lemma WhileParsed(sc: Scope, sw: bool, s: Stmt, ts: seq<Token>, i: nat, j: nat, end: nat, blocks: seq<Block>)
    requires s.While? && sc.block < |sc.blocks| && i < |ts| && j <= |ts|
    requires PCondition(sc, ts, i + 1) == Some(Parse(s.cond, j))
    requires PStmt(sc, sw, ts, j) == Some(Parsed(s.inner, end, blocks))
    ensures PWhile(sc, sw, ts, i + 1) == Some(Parsed(s, end, blocks))
  {
    hide PCondition, PStmt;
  }

  lemma {:induction false} WhileBack(sc: Scope, sw: bool, s: Stmt, ts: seq<Token>, i: nat)
    requires sc.block < |sc.blocks| && s.While? && StmtFits(sc, sw, s) && Stands(ts, i, s)
    ensures ReadBack(sc, sw, s, ts, i)
    decreases s, 0
  {
    hide Spelled, SpellCondition, ExprFits, PCondition, PStmt, PWhile, StmtFits, SpellStmt, Tables, Closed;
    WhileParts(sc, sw, s);
    var x := SpellCondition(s.cond);
    SpelledSplit(ts, i, [TWhile], x + SpellStmt(s.inner));
    SpelledSplit(ts, i + 1, x, SpellStmt(s.inner));
    SpelledOne(ts, i, TWhile);
    ConditionBack(sc, s.cond, ts, i + 1);
    StmtBack(sc, sw, s.inner, ts, i + 1 + |x|);
    WhileParsed(sc, sw, s, ts, i, i + 1 + |x|, i + |SpellStmt(s)|, Tables(sc, s));
    OneOf(sc, sw, ts, i);
  }

  /** What the first token decides. */
  lemma OneOf(sc: Scope, sw: bool, ts: seq<Token>, i: nat)
    requires i <= |ts| && sc.block < |sc.blocks|
    ensures Peek(ts, i).TOpCurly? ==> PStmt(sc, sw, ts, i) == PBlock(sc, sw, ts, i)
    ensures Peek(ts, i).TIf? ==> PStmt(sc, sw, ts, i) == PIf(sc, sw, ts, i + 1)
    ensures Peek(ts, i).TWhile? ==> PStmt(sc, sw, ts, i) == PWhile(sc, sw, ts, i + 1)
    ensures Peek(ts, i).TSwitch? ==> PStmt(sc, sw, ts, i) == PSwitch(sc, ts, i + 1)
  {
    hide PBlock, PIf, PWhile, PSwitch;
  }

  lemma IfParsed(sc: Scope, sw: bool, s: Stmt, ts: seq<Token>, i: nat, j: nat, k: nat, end: nat)
    requires s.If? && sc.block < |sc.blocks| && i <= |ts| && j <= |ts| && k <= |ts| && end <= |ts|
    requires PCondition(sc, ts, i) == Some(Parse(s.cond, j))
    requires PStmt(sc, sw, ts, j) == Some(Parsed(s.thn, k, Tables(sc, s.thn)))
    requires s.els.None? ==> !Peek(ts, k).TElse? && end == k
    requires s.els.Some? ==>
               var sc1 := Later(sc, Tables(sc, s.thn));
               && k < |ts| && Peek(ts, k).TElse?
               && PStmt(sc1, sw, ts, k + 1) == Some(Parsed(s.els.value, end, Tables(sc1, s.els.value)))
    ensures PIf(sc, sw, ts, i) == Some(Parsed(s, end, Tables(sc, s)))
  {
    hide PCondition, PStmt;
  }

  lemma IfParts(sc: Scope, sw: bool, s: Stmt)
    requires sc.block < |sc.blocks| && s.If? && StmtFits(sc, sw, s)
    ensures ExprFits(sc, s.cond, TClBracket) && StmtFits(sc, sw, s.thn)
    ensures SpellStmt(s) == [TIf] + (SpellCondition(s.cond) + (SpellStmt(s.thn) + SpellElse(s.els)))
    ensures s.els.None? ==> SpellElse(s.els) == [] && !Closed(s)
    ensures s.els.Some? ==>
              && Closed(s.thn) && SpellElse(s.els) == [TElse] + SpellStmt(s.els.value)
              && Closed(s) == Closed(s.els.value)
              && StmtFits(Later(sc, Tables(sc, s.thn)), sw, s.els.value)
  {
  }

  lemma {:induction false} IfBack(sc: Scope, sw: bool, s: Stmt, ts: seq<Token>, i: nat)
    requires sc.block < |sc.blocks| && s.If? && StmtFits(sc, sw, s) && Stands(ts, i, s)
    ensures ReadBack(sc, sw, s, ts, i)
    decreases s, 0
  {
    hide Spelled, SpellCondition, ExprFits, PCondition, PStmt, PIf, StmtFits, SpellStmt, SpellElse, Tables, Closed;
    IfParts(sc, sw, s);
    var x, y, z := SpellCondition(s.cond), SpellStmt(s.thn), SpellElse(s.els);
    var j := i + 1 + |x|;
    SpelledSplit(ts, i, [TIf], x + (y + z));
    SpelledSplit(ts, i + 1, x, y + z);
    SpelledSplit(ts, j, y, z);
    SpelledOne(ts, i, TIf);
    ConditionBack(sc, s.cond, ts, i + 1);
    var k := j + |y|;
    if s.els.Some? {
      SpelledSplit(ts, k, [TElse], SpellStmt(s.els.value));
      SpelledOne(ts, k, TElse);
      StmtBack(Later(sc, Tables(sc, s.thn)), sw, s.els.value, ts, k + 1);
    }
    StmtBack(sc, sw, s.thn, ts, j);
    IfParsed(sc, sw, s, ts, i + 1, j, k, i + |SpellStmt(s)|);
    OneOf(sc, sw, ts, i);
  }

  lemma {:induction false} SwitchBack(sc: Scope, sw: bool, s: Stmt, ts: seq<Token>, i: nat)
    requires sc.block < |sc.blocks| && s.Switch? && StmtFits(sc, sw, s) && Stands(ts, i, s)
    ensures ReadBack(sc, sw, s, ts, i)
    decreases s, 0
  {
    hide Spelled, SpellCondition, ExprFits, PCondition, PClauses, PStmt;
    var x, y := SpellCondition(s.on), SpellClauses(s.clauses);
    var j := i + 1 + |x|;
    SpelledSplit(ts, i, [TSwitch], x + ([TOpCurly] + y));
    SpelledSplit(ts, i + 1, x, [TOpCurly] + y);
    SpelledSplit(ts, j, [TOpCurly], y);
    SpelledOne(ts, i, TSwitch);
    SpelledOne(ts, j, TOpCurly);
    ConditionBack(sc, s.on, ts, i + 1);
    ClausesBack(sc, s.clauses, ts, j + 1);
    OneOf(sc, sw, ts, i);
  }

  lemma CompoundParts(sc: Scope, sw: bool, s: Stmt)
    requires sc.block < |sc.blocks| && s.Compound? && StmtFits(sc, sw, s)
    ensures s.id == |sc.blocks| && AllFit(Inner(sc), sw, s.body) && Tables(sc, s) == AllTables(Inner(sc), s.body)
    ensures SpellStmt(s) == [TOpCurly] + SpellStmts(s.body)
  {
  }

  lemma CompoundParsed(sc: Scope, sw: bool, s: Stmt, ts: seq<Token>, i: nat, end: nat, blocks: seq<Block>)
    requires s.Compound? && sc.block < |sc.blocks| && i < |ts| && Peek(ts, i).TOpCurly? && s.id == |sc.blocks|
    requires PStmts(Inner(sc), sw, ts, i + 1) == Some(Parsed(s.body, end, blocks))
    ensures PBlock(sc, sw, ts, i) == Some(Parsed(s, end, blocks))
  {
    hide PStmts;
  }

  lemma {:induction false} CompoundBack(sc: Scope, sw: bool, s: Stmt, ts: seq<Token>, i: nat)
    requires sc.block < |sc.blocks| && s.Compound? && StmtFits(sc, sw, s) && Stands(ts, i, s)
    ensures ReadBack(sc, sw, s, ts, i)
    decreases s, 0
  {
    hide Spelled, PStmts, PStmt, PBlock, StmtFits, AllFit, SpellStmt, SpellStmts, Tables, AllTables;
    CompoundParts(sc, sw, s);
    SpelledSplit(ts, i, [TOpCurly], SpellStmts(s.body));
    SpelledOne(ts, i, TOpCurly);
    StmtsBack(Inner(sc), sw, s.body, ts, i + 1);
    CompoundParsed(sc, sw, s, ts, i, i + |SpellStmt(s)|, Tables(sc, s));
    OneOf(sc, sw, ts, i);
  }

  lemma {:induction false} StmtsBack(sc: Scope, sw: bool, ss: seq<Stmt>, ts: seq<Token>, i: nat)
    requires sc.block < |sc.blocks| && AllFit(sc, sw, ss) && Spelled(ts, i, SpellStmts(ss))
    ensures i + |SpellStmts(ss)| <= |ts| && !Peek(ts, i).TElse?
    ensures PStmts(sc, sw, ts, i) == Some(Parsed(ss, i + |SpellStmts(ss)|, AllTables(sc, ss)))
    decreases ss, 0
  {
    hide Spelled, PStmt, SpellStmt, StmtFits, Tables;
    if ss == [] {
      SpelledOne(ts, i, TClCurly);
    } else {
      var x := SpellStmt(ss[0]);
      SpelledSplit(ts, i, x, SpellStmts(ss[1..]));
      StmtsBack(Later(sc, Tables(sc, ss[0])), sw, ss[1..], ts, i + |x|);
      StmtBack(sc, sw, ss[0], ts, i);
      assert [ss[0]] + ss[1..] == ss;
    }
  }

  lemma {:induction false} BodyBack(sc: Scope, ss: seq<Stmt>, ts: seq<Token>, i: nat)
    requires sc.block < |sc.blocks| && AllFit(sc, true, ss) && Spelled(ts, i, SpellBody(ss))
    requires var t := Peek(ts, i + |SpellBody(ss)|); StartsClause(t) || t.TClCurly?
    ensures i + |SpellBody(ss)| <= |ts| && !Peek(ts, i).TElse?
    ensures PClauseBody(sc, ts, i) == Some(Parsed(ss, i + |SpellBody(ss)|, AllTables(sc, ss)))
    decreases ss, 0
  {
    hide Spelled, PStmt, SpellStmt, StmtFits, Tables;
    SpelledBound(ts, i, SpellBody(ss));
    if ss != [] {
      var x := SpellStmt(ss[0]);
      SpelledSplit(ts, i, x, SpellBody(ss[1..]));
      BodyBack(Later(sc, Tables(sc, ss[0])), ss[1..], ts, i + |x|);
      StmtBack(sc, true, ss[0], ts, i);
      assert [ss[0]] + ss[1..] == ss;
    }
  }

  lemma LabelTokens(x: Label, ts: seq<Token>, i: nat)
    requires Spelled(ts, i, SpellLabel(x))
    ensures i + |SpellLabel(x)| <= |ts| && Peek(ts, i + |SpellLabel(x)| - 1).TColon?
    ensures if x.DefaultCase? then Peek(ts, i).TDefault? && |SpellLabel(x)| == 2
            else Peek(ts, i).TCase? && |SpellLabel(x)| == 3 && Peek(ts, i + 1) == NumToken(x.value, x.form)
  {
    var piece := SpellLabel(x);
    forall k | 0 <= k < |piece| ensures ts[i + k] == piece[k] {
      assert ts[i..i + |piece|][k] == ts[i + k];
    }
  }

  lemma LabelBack(sc: Scope, v: int, form: NumForm)
    requires LabelFits(sc, CaseOf(v, form))
    ensures PCaseLabel(sc, NumToken(v, form)) == Some(CaseOf(v, form))
  {
    hide FindConstant, ConstValue, Int32;
    if form.Digits? {
      var n: nat :| Denotes(form.text, n) && v == Int32(n);
      DenotedReads(form.text, n, false);
    }
  }

  lemma {:induction false} ClauseBack(sc: Scope, c: Clause, ts: seq<Token>, i: nat)
    requires sc.block < |sc.blocks| && ClauseFits(sc, c) && Spelled(ts, i, SpellClause(c))
    requires var t := Peek(ts, i + |SpellClause(c)|); StartsClause(t) || t.TClCurly?
    ensures i + |SpellClause(c)| <= |ts| && StartsClause(Peek(ts, i))
    ensures PClause(sc, ts, i) == Some(Parsed(c, i + |SpellClause(c)|, ClauseTables(sc, c)))
    decreases c, 0
  {
    hide Spelled, PClauseBody, SpellBody, SpellLabel, LabelFits, AllFit, PCaseLabel, AllTables;
    SpelledSplit(ts, i, SpellLabel(c.head), SpellBody(c.body));
    LabelTokens(c.head, ts, i);
    if c.head.CaseOf? { LabelBack(sc, c.head.value, c.head.form); }
    BodyBack(sc, c.body, ts, i + |SpellLabel(c.head)|);
  }

  lemma {:induction false} ClausesBack(sc: Scope, cs: seq<Clause>, ts: seq<Token>, i: nat)
    requires sc.block < |sc.blocks| && ClausesFit(sc, cs) && Spelled(ts, i, SpellClauses(cs))
    ensures i + |SpellClauses(cs)| <= |ts| && (StartsClause(Peek(ts, i)) || Peek(ts, i).TClCurly?)
    ensures PClauses(sc, ts, i) == Some(Parsed(cs, i + |SpellClauses(cs)|, ClausesTables(sc, cs)))
    decreases cs, 0
  {
    hide Spelled, PClause, SpellClause, ClauseFits, ClauseTables;
    if cs == [] {
      SpelledOne(ts, i, TClCurly);
    } else {
      var x := SpellClause(cs[0]);
      SpelledSplit(ts, i, x, SpellClauses(cs[1..]));
      ClausesBack(Later(sc, ClauseTables(sc, cs[0])), cs[1..], ts, i + |x|);
      ClauseBack(sc, cs[0], ts, i);
      assert [cs[0]] + cs[1..] == cs;
    }
  }

  /** The round trip: a statement that fits its scope, spelled anywhere and not followed by an `else` it could take, is
      read back as itself, and the tables behind it are those it declares. */
  lemma {:induction false} StmtBack(sc: Scope, sw: bool, s: Stmt, ts: seq<Token>, i: nat)
    requires sc.block < |sc.blocks| && StmtFits(sc, sw, s) && Stands(ts, i, s)
    ensures ReadBack(sc, sw, s, ts, i)
    decreases s, 2
  {
    hide StmtFits, ReadBack, TailBack, SpellStmt, Spelled;
    match s
    case Compound(_, _) => CompoundBack(sc, sw, s, ts, i);
    case ReturnFrom(_, _) => ReturnBack(sc, sw, s, ts, i);
    case If(_, _, _) => IfBack(sc, sw, s, ts, i);
    case While(_, _) => WhileBack(sc, sw, s, ts, i);
    case Switch(_, _) => SwitchBack(sc, sw, s, ts, i);
    case Break(_) => BreakBack(sc, sw, s, ts, i);
    case _ =>
      TrailBack(sc, sw, s, ts, i);
      TailIsRead(sc, sw, s, ts, i);
  }

  /** No two statements that fit have one spelling. */
  lemma StmtSpellingUnique(sc: Scope, sw: bool, a: Stmt, b: Stmt)
    requires sc.block < |sc.blocks| && StmtFits(sc, sw, a) && StmtFits(sc, sw, b) && SpellStmt(a) == SpellStmt(b)
    ensures a == b
  {
    hide StmtFits, SpellStmt, PStmt, Tables;
    var ts := SpellStmt(a);
    assert ts[0..|ts|] == ts;
    StmtBack(sc, sw, a, ts, 0);
    StmtBack(sc, sw, b, ts, 0);
  }

  /** A function's body, from brace to brace; its block is the next entry in the table. */
  lemma FunctionBack(names: Names, blocks: seq<Block>, f: nat, body: seq<Stmt>, ts: seq<Token>, i: nat)
    requires var sc := Scope(names, WithBody(blocks, f), |blocks|); AllFit(sc, false, body)
    requires Spelled(ts, i, [TOpCurly] + SpellStmts(body))
    ensures var sc := Scope(names, WithBody(blocks, f), |blocks|);
            var end := i + 1 + |SpellStmts(body)|;
            end <= |ts| && PFunctionBody(names, blocks, f, ts, i) == Some(Parsed(body, end, AllTables(sc, body)))
  {
    hide Spelled, AllFit, SpellStmts, PStmts, AllTables;
    SpelledSplit(ts, i, [TOpCurly], SpellStmts(body));
    SpelledOne(ts, i, TOpCurly);
    StmtsBack(Scope(names, WithBody(blocks, f), |blocks|), false, body, ts, i + 1);
  }
}
