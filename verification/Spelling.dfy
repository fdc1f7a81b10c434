/** Every expression can be written down: spelling it and reading it back gives the same expression. */
module Spelling {
  import opened Words
  import opened Il
  import opened Ast
  import opened Tokens
  import opened Numbers
  import opened Numerals
  import opened Grammar

  function OperatorToken(op: BinaryOp): (t: Token)
    ensures Operator(t) == Some(op)
  {
    match op
    case Add => TPlus
    case Sub => TMinus
    case Mul => TStar
    case BitLshift => TLshift
    case BitRshift => TRshift
    case LogAnd => TLogAnd
    case LogOr => TLogOr
    case Equals => TEq
    case NotEquals => TNoteq
    case LessThan => TLt
    case LessEqThan => TLe
    case GreaterThan => TGt
    case GreaterEqThan => TGe
    case BitAnd => TAmpersand
    case BitOr => TBitOr
  }

  function NumToken(v: int, form: NumForm): Token {
    match form
    case Digits(text, _) => TNumeric(text)
    case Character => TChar(v)
    case Constant(name) => TIdent(name)
  }

  function Minus(neg: bool): seq<Token> {
    if neg then [TMinus] else []
  }

  function PrefixTokens(prefix: Option<BinaryOp>): seq<Token> {
    match prefix case None => [] case Some(op) => if op.Add? then [TPlusPlus] else [TMinusMinus]
  }

  function SpellIndexes(xs: seq<Expr>): seq<Token>
    decreases xs, 0
  {
    if xs == [] then [] else [TOpSquare] + SpellExpr(xs[0]) + [TClSquare] + SpellIndexes(xs[1..])
  }

  function SpellArgs(args: seq<Expr>): seq<Token>
    decreases args, 0
  {
    if args == [] then []
    else if |args| == 1 then SpellExpr(args[0])
    else SpellExpr(args[0]) + [TComma] + SpellArgs(args[1..])
  }

  function SpellSuffix(s: Suffix): seq<Token>
    decreases s, 0
  {
    match s
    case Plain => []
    case PostIncrement => [TPlusPlus]
    case PostDecrement => [TMinusMinus]
    case PlusOperand(o) => [TPlus] + SpellOperand(o)
  }

  function SpellLValue(lv: LValue): seq<Token>
    decreases lv, 0
  {
    [TIdent(lv.name)] + SpellIndexes(lv.indexes)
  }

  function SpellOperand(o: Operand): seq<Token>
    decreases o, 2
  {
    Minus(Signed(o)) + Unsigned(o)
  }

  /** What follows the minus sign, if there is one. */
  function Unsigned(o: Operand): seq<Token>
    decreases o, 1
  {
    match o
    case Num(v, _, form) => [NumToken(v, form)]
    case LogNot(o1) => [TLogNot] + SpellOperand(o1)
    case Paren(e, neg) => [TOpBracket] + SpellExpr(e) + [TClBracket]
    case Value(lv, prefix, suffix, calls, args, neg) =>
      PrefixTokens(prefix) + (SpellLValue(lv) + SpellSuffix(suffix) + SpellCall(o))
    case AddressOf(lv) => [TAmpersand] + SpellLValue(lv)
    case Call(name, args, neg) => [TIdent(name), TOpBracket] + SpellArgs(args) + [TClBracket]
    case FunctionAddress(name, neg) => [TIdent(name)]
  }

  predicate Signed(o: Operand) {
    match o
    case Num(_, neg, form) =>
      (match form case Digits(_, minus) => minus case Character => false case Constant(_) => neg)
    case LogNot(_) => false
    case AddressOf(_) => false
    case Paren(_, neg) => neg
    case Value(_, _, _, _, _, neg) => neg
    case Call(_, _, neg) => neg
    case FunctionAddress(_, neg) => neg
  }

  function SpellCall(o: Operand): seq<Token>
    requires o.Value?
    decreases o, 0
  {
    if o.calls then [TOpBracket] + (SpellArgs(o.args) + [TClBracket]) else []
  }

  function SpellTerm(t: Term): seq<Token>
    decreases t, 0
  {
    [OperatorToken(t.op)] + SpellOperand(t.operand)
  }

  function SpellTerms(rest: seq<Term>): seq<Token>
    decreases rest, 0
  {
    if rest == [] then [] else SpellTerm(rest[0]) + SpellTerms(rest[1..])
  }

  function SpellExpr(e: Expr): seq<Token>
    decreases e, 0
  {
    SpellOperand(e.first) + SpellTerms(e.rest)
  }

  // ----- what can be spelled at all -----

  /** The text of a number denotes it, cut to 32 bits and with its sign. */
  ghost predicate NumOk(v: int, neg: bool, form: NumForm) {
    match form
    case Digits(text, minus) => !neg && exists n: nat :: Denotes(text, n) && v == Negation(minus, Int32(n))
    case Character => !neg
    case Constant(_) => true
  }

  /** Numbers with their texts; signs and `++` only where the grammar has a place for them. */
  ghost predicate OperandOk(o: Operand)
    decreases o, 0
  {
    match o
    case Num(v, neg, form) => NumOk(v, neg, form)
    case LogNot(o1) => OperandOk(o1)
    case Paren(e, _) => ExprOk(e)
    case Value(lv, prefix, suffix, calls, args, neg) =>
      && LValueOk(lv) && SuffixOk(suffix) && (neg ==> prefix.None?)
      && (prefix.Some? ==> prefix.value.Add? || prefix.value.Sub?)
      && ExprsOk(args) && (!calls ==> args == [])
    case AddressOf(lv) => LValueOk(lv)
    case Call(_, args, _) => ExprsOk(args)
    case FunctionAddress(_, _) => true
  }

  ghost predicate LValueOk(lv: LValue)
    decreases lv, 0
  {
    ExprsOk(lv.indexes)
  }

  ghost predicate SuffixOk(s: Suffix)
    decreases s, 0
  {
    s.PlusOperand? ==> OperandOk(s.o)
  }

  ghost predicate TermOk(t: Term)
    decreases t, 0
  {
    OperandOk(t.operand)
  }

  ghost predicate ExprsOk(xs: seq<Expr>)
    decreases xs, 0
  {
    xs != [] ==> ExprOk(xs[0]) && ExprsOk(xs[1..])
  }

  ghost predicate TermsOk(xs: seq<Term>)
    decreases xs, 0
  {
    xs != [] ==> TermOk(xs[0]) && TermsOk(xs[1..])
  }

  ghost predicate ExprOk(e: Expr)
    decreases e, 0
  {
    OperandOk(e.first) && TermsOk(e.rest)
  }

  // ----- what keeps its meaning -----

  /** May this token follow an lvalue? */
  predicate LvStops(t: Token) {
    !t.TOpSquare? && !t.TDot? && !t.TArrow?
  }

  predicate SuffixStops(lv: LValue, s: Suffix, t: Token)
    decreases s, 0
  {
    match s
    case Plain =>
      && LvStops(t) && !(t.TPlus? && (lv.isPointer > 0 || lv.arraySize > 0))
      && !(IsReference(lv) && (t.TPlusPlus? || t.TMinusMinus?))
    case PlusOperand(o) => Stops(o, t)
    case _ => true
  }

  /** May this token follow an operand without becoming part of it? */
  predicate Stops(o: Operand, t: Token)
    decreases o, 0
  {
    match o
    case LogNot(o1) => Stops(o1, t)
    case Value(lv, _, suffix, calls, _, _) =>
      SuffixStops(lv, suffix, if calls then TOpBracket else t) && (calls || !t.TOpBracket?)
    case AddressOf(_) => LvStops(t)
    case FunctionAddress(_, _) => !t.TOpBracket?
    case _ => true
  }

  predicate ChainStops(o: Operand, rest: seq<Term>, t: Token)
    decreases rest
  {
    if rest == [] then Stops(o, t)
    else Stops(o, OperatorToken(rest[0].op)) && ChainStops(rest[0].operand, rest[1..], t)
  }

  predicate ExprStops(e: Expr, t: Token) {
    ChainStops(e.first, e.rest, t) && Operator(t).None?
  }

  /** The name and data of an lvalue are those of a variable in scope. */
  predicate NameReads(sc: Scope, lv: LValue) {
    match Lookup(sc, lv.name)
    case None => false
    case Some(v) =>
      && v.name == lv.name && v.isPointer == lv.isPointer && v.isFunction == lv.isFunction
      && v.arraySize == lv.arraySize
      && (match FindType(sc.names.types, v.typeName) case None => false case Some(t) => t.size == lv.tsize)
  }

  predicate IndexesRead(sc: Scope, xs: seq<Expr>)
    decreases xs, 0
  {
    xs != [] ==> ExprReads(sc, xs[0]) && ExprStops(xs[0], TClSquare) && IndexesRead(sc, xs[1..])
  }

  predicate LValueReads(sc: Scope, lv: LValue)
    decreases lv, 0
  {
    NameReads(sc, lv) && IndexesRead(sc, lv.indexes) && (lv.indexes != [] ==> lv.isPointer != 0 || lv.arraySize != 0)
  }

  predicate SuffixReads(sc: Scope, lv: LValue, s: Suffix)
    decreases s, 0
  {
    match s
    case Plain => true
    case PlusOperand(o) => (lv.isPointer > 0 || lv.arraySize > 0) && OperandReads(sc, o)
    case _ => IsReference(lv)
  }

  predicate ArgsRead(sc: Scope, args: seq<Expr>)
    decreases args, 0
  {
    args != [] ==>
      && ExprReads(sc, args[0]) && ExprStops(args[0], if |args| == 1 then TClBracket else TComma)
      && ArgsRead(sc, args[1..])
  }

  predicate OperandReads(sc: Scope, o: Operand)
    decreases o, 0
  {
    match o
    case Num(v, _, form) => form.Constant? ==> FindConstant(sc.names.constants, form.name) == Some(v)
    case LogNot(o1) => OperandReads(sc, o1)
    case Paren(e, _) => ExprReads(sc, e) && ExprStops(e, TClBracket)
    case Value(lv, _, suffix, _, args, _) =>
      && FindConstant(sc.names.constants, lv.name).None? && LValueReads(sc, lv) && SuffixReads(sc, lv, suffix)
      && ArgsRead(sc, args)
    case AddressOf(lv) => LValueReads(sc, lv)
    case Call(name, args, _) => IsFunctionName(sc, name) && ArgsRead(sc, args)
    case FunctionAddress(name, _) => IsFunctionName(sc, name)
  }

  predicate IsFunctionName(sc: Scope, name: string) {
    FindConstant(sc.names.constants, name).None? && Lookup(sc, name).None? && FindFunction(sc.names.funcs, name).Some?
  }

  predicate TermReads(sc: Scope, t: Term)
    decreases t, 0
  {
    OperandReads(sc, t.operand)
  }

  predicate TermsRead(sc: Scope, rest: seq<Term>)
    decreases rest, 0
  {
    rest != [] ==> TermReads(sc, rest[0]) && TermsRead(sc, rest[1..])
  }

  predicate ExprReads(sc: Scope, e: Expr)
    decreases e, 0
  {
    OperandReads(sc, e.first) && TermsRead(sc, e.rest)
  }

  // ----- reading back -----

  ghost predicate Spelled(ts: seq<Token>, i: nat, piece: seq<Token>) {
    i + |piece| <= |ts| && ts[i..i + |piece|] == piece
  }

  lemma SpelledSplit(ts: seq<Token>, i: nat, a: seq<Token>, b: seq<Token>)
    requires Spelled(ts, i, a + b)
    ensures Spelled(ts, i, a) && Spelled(ts, i + |a|, b) && i + |a| + |b| <= |ts|
  {
    assert ts[i..i + |a|] == (a + b)[..|a|];
    assert ts[i + |a|..i + |a| + |b|] == (a + b)[|a|..];
  }

  lemma SpelledOne(ts: seq<Token>, i: nat, t: Token)
    requires Spelled(ts, i, [t])
    ensures i < |ts| && ts[i] == t && Peek(ts, i) == t
  {
    assert ts[i..i + 1][0] == ts[i];
  }

  lemma SpelledBound(ts: seq<Token>, i: nat, piece: seq<Token>)
    requires Spelled(ts, i, piece)
    ensures i + |piece| <= |ts|
  {
  }

  lemma IndexParsed(sc: Scope, v: Var, x: Expr, xs: seq<Expr>, ts: seq<Token>, i: nat, j: nat, end: nat)
    requires i < |ts| && j < |ts| && end <= |ts| && Peek(ts, i).TOpSquare? && Peek(ts, j).TClSquare?
    requires v.isPointer != 0 || v.arraySize != 0
    requires PExpr(sc, ts, i + 1) == Some(Parse(x, j)) && PIndexes(sc, v, ts, j + 1) == Some(Parse(xs, end))
    ensures PIndexes(sc, v, ts, i) == Some(Parse([x] + xs, end))
  {
    hide PExpr;
  }

  lemma {:induction false} IndexesBack(sc: Scope, v: Var, xs: seq<Expr>, ts: seq<Token>, i: nat)
    requires ExprsOk(xs) && IndexesRead(sc, xs) && Spelled(ts, i, SpellIndexes(xs))
    requires xs != [] ==> v.isPointer != 0 || v.arraySize != 0
    requires LvStops(Peek(ts, i + |SpellIndexes(xs)|))
    ensures i + |SpellIndexes(xs)| <= |ts| && PIndexes(sc, v, ts, i) == Some(Parse(xs, i + |SpellIndexes(xs)|))
    decreases xs, 2
  {
    hide Spelled, SpellExpr, ExprReads, ExprStops, PExpr, ExprOk, PIndexes;
    SpelledBound(ts, i, SpellIndexes(xs));
    if xs == [] {
      NoIndexes(sc, v, ts, i);
    } else {
      hide LvStops;
      var x, rest := SpellExpr(xs[0]), SpellIndexes(xs[1..]);
      SpelledSplit(ts, i, [TOpSquare] + x + [TClSquare], rest);
      SpelledSplit(ts, i, [TOpSquare] + x, [TClSquare]);
      SpelledSplit(ts, i, [TOpSquare], x);
      SpelledOne(ts, i, TOpSquare);
      SpelledOne(ts, i + 1 + |x|, TClSquare);
      ExprBack(sc, xs[0], ts, i + 1);
      IndexesBack(sc, v, xs[1..], ts, i + 2 + |x|);
      IndexParsed(sc, v, xs[0], xs[1..], ts, i, i + 1 + |x|, i + |SpellIndexes(xs)|);
      assert [xs[0]] + xs[1..] == xs;
    }
  }

  lemma NoIndexes(sc: Scope, v: Var, ts: seq<Token>, i: nat)
    requires i <= |ts| && LvStops(Peek(ts, i))
    ensures PIndexes(sc, v, ts, i) == Some(Parse([], i))
  {
  }

  lemma {:induction false} LValueBack(sc: Scope, lv: LValue, ts: seq<Token>, i: nat)
    requires LValueOk(lv) && LValueReads(sc, lv) && Spelled(ts, i, SpellLValue(lv))
    requires LvStops(Peek(ts, i + |SpellLValue(lv)|))
    ensures i + |SpellLValue(lv)| <= |ts| && Peek(ts, i) == TIdent(lv.name) && i < |ts|
    ensures PLValue(sc, Lookup(sc, lv.name).value, ts, i + 1) == Some(Parse(lv, i + |SpellLValue(lv)|))
    decreases lv, 0
  {
    hide Spelled, IndexesRead, PIndexes, ExprOk;
    SpelledBound(ts, i, SpellLValue(lv));
    SpelledSplit(ts, i, [TIdent(lv.name)], SpellIndexes(lv.indexes));
    SpelledOne(ts, i, TIdent(lv.name));
    IndexesBack(sc, Lookup(sc, lv.name).value, lv.indexes, ts, i + 1);
  }

  lemma {:induction false} SuffixBack(sc: Scope, v: Var, lv: LValue, s: Suffix, ts: seq<Token>, i: nat)
    requires SuffixOk(s) && SuffixReads(sc, lv, s) && v.isPointer == lv.isPointer && v.arraySize == lv.arraySize
    requires Spelled(ts, i, SpellSuffix(s)) && SuffixStops(lv, s, Peek(ts, i + |SpellSuffix(s)|))
    ensures i + |SpellSuffix(s)| <= |ts| && PSuffix(sc, v, lv, ts, i) == Some(Parse(s, i + |SpellSuffix(s)|))
    ensures LvStops(Peek(ts, i))
    decreases s, 0
  {
    hide Spelled, SpellOperand, OperandReads, POperand, IsReference;
    SpelledBound(ts, i, SpellSuffix(s));
    match s
    case Plain =>
    case PostIncrement => SpelledOne(ts, i, TPlusPlus);
    case PostDecrement => SpelledOne(ts, i, TMinusMinus);
    case PlusOperand(o) =>
      SpelledSplit(ts, i, [TPlus], SpellOperand(o));
      SpelledOne(ts, i, TPlus);
      OperandBack(sc, o, ts, i + 1);
  }

  lemma ArgParsed(sc: Scope, x: Expr, xs: seq<Expr>, ts: seq<Token>, i: nat, j: nat, end: nat)
    requires i <= |ts| && j < |ts| && end <= |ts|
    requires PExpr(sc, ts, i) == Some(Parse(x, j))
    requires PArgs(sc, ts, if Peek(ts, j).TComma? then j + 1 else j) == Some(Parse(xs, end))
    ensures PArgs(sc, ts, i) == Some(Parse([x] + xs, end))
  {
    hide PExpr;
    ExprStarts(sc, x, ts, i);
  }

  lemma NoArgs(sc: Scope, ts: seq<Token>, i: nat)
    requires i < |ts| && Peek(ts, i).TClBracket?
    ensures PArgs(sc, ts, i) == Some(Parse([], i + 1))
  {
  }

  lemma {:induction false} ArgsBack(sc: Scope, args: seq<Expr>, ts: seq<Token>, i: nat)
    requires ExprsOk(args) && ArgsRead(sc, args)
    requires Spelled(ts, i, SpellArgs(args) + [TClBracket])
    ensures var end := i + |SpellArgs(args)| + 1; end <= |ts| && PArgs(sc, ts, i) == Some(Parse(args, end))
    decreases args, 2
  {
    hide Spelled, SpellExpr, ExprReads, ExprStops, PExpr, ExprOk, PArgs;
    SpelledSplit(ts, i, SpellArgs(args), [TClBracket]);
    SpelledOne(ts, i + |SpellArgs(args)|, TClBracket);
    if args == [] {
      NoArgs(sc, ts, i);
    } else {
      var x, rest := SpellExpr(args[0]), args[1..];
      if rest == [] {
        assert SpellArgs(args) == x;
        NoArgs(sc, ts, i + |x|);
      } else {
        SpelledSplit(ts, i, x + [TComma], SpellArgs(rest));
        SpelledSplit(ts, i, x, [TComma]);
        SpelledOne(ts, i + |x|, TComma);
        SpelledJoin(ts, i + |x| + 1, SpellArgs(rest), [TClBracket]);
        ArgsBack(sc, rest, ts, i + |x| + 1);
      }
      ExprBack(sc, args[0], ts, i);
      ArgParsed(sc, args[0], rest, ts, i, i + |x|, i + |SpellArgs(args)| + 1);
      assert [args[0]] + rest == args;
    }
  }

  lemma SpelledJoin(ts: seq<Token>, i: nat, a: seq<Token>, b: seq<Token>)
    requires Spelled(ts, i, a) && Spelled(ts, i + |a|, b)
    ensures Spelled(ts, i, a + b)
  {
    assert ts[i..i + |a + b|] == ts[i..i + |a|] + ts[i + |a|..i + |a| + |b|];
  }

  lemma NoOperandAt(sc: Scope, ts: seq<Token>, i: nat)
    requires i <= |ts| && Peek(ts, i).TClBracket?
    ensures POperand(sc, ts, i).None?
  {
  }

  /** No expression starts with a closing bracket. */
  lemma ExprStarts(sc: Scope, e: Expr, ts: seq<Token>, i: nat)
    requires i <= |ts| && PExpr(sc, ts, i).Some?
    ensures !Peek(ts, i).TClBracket?
  {
    hide POperand, PTerms;
    if Peek(ts, i).TClBracket? { NoOperandAt(sc, ts, i); }
  }

  /** The parts of a variable operand put together. */
  lemma ValueParsed(sc: Scope, v: Var, o: Operand, ts: seq<Token>, i: nat, j: nat, k: nat, end: nat)
    requires o.Value? && i <= |ts| && j <= |ts| && k <= |ts|
    requires PLValue(sc, v, ts, i) == Some(Parse(o.lv, j)) && PSuffix(sc, v, o.lv, ts, j) == Some(Parse(o.suffix, k))
    requires o.calls == Peek(ts, k).TOpBracket?
    requires if o.calls then k < |ts| && PArgs(sc, ts, k + 1) == Some(Parse(o.args, end)) else end == k && o.args == []
    ensures PValue(sc, v, o.prefix, o.neg, ts, i) == Some(Parse(o, end))
  {
    hide PLValue, PSuffix, PArgs;
  }

  lemma NamedValue(sc: Scope, lv: LValue, prefix: Option<BinaryOp>, neg: bool, ts: seq<Token>, i: nat)
    requires i < |ts| && Peek(ts, i) == TIdent(lv.name) && LValueReads(sc, lv)
    requires FindConstant(sc.names.constants, lv.name).None?
    ensures Lookup(sc, lv.name).Some?
    ensures PNamed(sc, prefix, neg, ts, i) == PValue(sc, Lookup(sc, lv.name).value, prefix, neg, ts, i + 1)
  {
    hide PValue, Lookup, FindConstant, LValueReads;
    NameIs(sc, lv);
  }

  lemma {:induction false} CallPartBack(sc: Scope, o: Operand, ts: seq<Token>, i: nat)
    requires o.Value? && OperandOk(o) && OperandReads(sc, o) && Spelled(ts, i, SpellCall(o))
    requires Stops(o, Peek(ts, i + |SpellCall(o)|))
    ensures i + |SpellCall(o)| <= |ts| && o.calls == Peek(ts, i).TOpBracket?
    ensures SuffixStops(o.lv, o.suffix, Peek(ts, i))
    ensures !o.calls ==> SpellCall(o) == [] && o.args == []
    ensures o.calls ==> i < |ts| && PArgs(sc, ts, i + 1) == Some(Parse(o.args, i + |SpellCall(o)|))
    decreases o, 0
  {
    hide Spelled, SpellArgs, LValueReads, SuffixReads, ArgsRead, PArgs, LValueOk, SuffixOk, ExprOk, SuffixStops,
      FindConstant;
    SpelledBound(ts, i, SpellCall(o));
    if o.calls {
      SpelledSplit(ts, i, [TOpBracket], SpellArgs(o.args) + [TClBracket]);
      SpelledOne(ts, i, TOpBracket);
      ArgsBack(sc, o.args, ts, i + 1);
    }
  }

  lemma {:induction false} ValueBack(sc: Scope, o: Operand, ts: seq<Token>, i: nat)
    requires o.Value? && OperandOk(o) && OperandReads(sc, o)
    requires Spelled(ts, i, SpellLValue(o.lv) + SpellSuffix(o.suffix) + SpellCall(o))
    requires Stops(o, Peek(ts, i + |SpellLValue(o.lv) + SpellSuffix(o.suffix) + SpellCall(o)|))
    ensures var end := i + |SpellLValue(o.lv) + SpellSuffix(o.suffix) + SpellCall(o)|;
            && end <= |ts| && i < |ts| && Peek(ts, i) == TIdent(o.lv.name)
            && PNamed(sc, o.prefix, o.neg, ts, i) == Some(Parse(o, end))
    decreases o, 1
  {
    hide Spelled, SpellLValue, SpellSuffix, SpellCall, LValueReads, SuffixReads, ArgsRead, PLValue, PSuffix, PArgs,
      PNamed, PValue, LValueOk, SuffixOk, ExprOk, Lookup, FindConstant, Stops, SuffixStops;
    var x, y := SpellLValue(o.lv), SpellSuffix(o.suffix);
    SpelledSplit(ts, i, x + y, SpellCall(o));
    SpelledSplit(ts, i, x, y);
    CallPartBack(sc, o, ts, i + |x| + |y|);
    NameIs(sc, o.lv);
    var v := Lookup(sc, o.lv.name).value;
    SuffixBack(sc, v, o.lv, o.suffix, ts, i + |x|);
    LValueBack(sc, o.lv, ts, i);
    NamedValue(sc, o.lv, o.prefix, o.neg, ts, i);
    ValueParsed(sc, v, o, ts, i + 1, i + |x|, i + |x| + |y|, i + |x| + |y| + |SpellCall(o)|);
  }

  lemma NameIs(sc: Scope, lv: LValue)
    requires LValueReads(sc, lv)
    ensures Lookup(sc, lv.name).Some?
    ensures Lookup(sc, lv.name).value.isPointer == lv.isPointer && Lookup(sc, lv.name).value.arraySize == lv.arraySize
  {
    hide IndexesRead;
  }

  lemma {:induction false} CallBack(sc: Scope, name: string, args: seq<Expr>, neg: bool, ts: seq<Token>, i: nat)
    requires ExprsOk(args) && ArgsRead(sc, args) && IsFunctionName(sc, name)
    requires Spelled(ts, i, [TIdent(name), TOpBracket] + SpellArgs(args) + [TClBracket])
    ensures var end := i + 3 + |SpellArgs(args)|;
            && end <= |ts| && i < |ts| && Peek(ts, i) == TIdent(name)
            && PNamed(sc, None, neg, ts, i) == Some(Parse(Call(name, args, neg), end))
    decreases args, 3
  {
    hide Spelled, SpellArgs, ArgsRead, PArgs, ExprOk, Lookup, FindConstant, FindFunction;
    var rest := SpellArgs(args) + [TClBracket];
    assert [TIdent(name), TOpBracket] + SpellArgs(args) + [TClBracket] == [TIdent(name)] + ([TOpBracket] + rest);
    SpelledSplit(ts, i, [TIdent(name)], [TOpBracket] + rest);
    SpelledSplit(ts, i + 1, [TOpBracket], rest);
    SpelledOne(ts, i, TIdent(name));
    SpelledOne(ts, i + 1, TOpBracket);
    ArgsBack(sc, args, ts, i + 2);
  }

  lemma {:induction false} ParenBack(sc: Scope, e: Expr, neg: bool, ts: seq<Token>, i: nat)
    requires ExprOk(e) && ExprReads(sc, e) && ExprStops(e, TClBracket)
    requires Spelled(ts, i, [TOpBracket] + SpellExpr(e) + [TClBracket])
    ensures var end := i + 2 + |SpellExpr(e)|;
            && end <= |ts| && Peek(ts, i).TOpBracket? && PPrimary(sc, neg, ts, i) == Some(Parse(Paren(e, neg), end))
    decreases e, 8
  {
    hide Spelled, SpellExpr, ExprOk, ExprReads, ExprStops, PExpr;
    SpelledSplit(ts, i, [TOpBracket] + SpellExpr(e), [TClBracket]);
    SpelledSplit(ts, i, [TOpBracket], SpellExpr(e));
    SpelledOne(ts, i, TOpBracket);
    SpelledOne(ts, i + 1 + |SpellExpr(e)|, TClBracket);
    ExprBack(sc, e, ts, i + 1);
  }

  lemma NumBack(sc: Scope, o: Operand, ts: seq<Token>, i: nat)
    requires o.Num? && OperandOk(o) && OperandReads(sc, o) && i < |ts| && Peek(ts, i) == NumToken(o.value, o.form)
    ensures PPrimary(sc, Signed(o), ts, i) == Some(Parse(o, i + 1))
    ensures Signed(o) ==> Peek(ts, i).TNumeric? || Peek(ts, i).TIdent?
  {
    hide ParamValue, Int32, FindConstant;
    match o.form
    case Digits(text, minus) =>
      var n: nat :| Denotes(text, n) && o.value == Negation(minus, Int32(n));
      DenotedReads(text, n, minus);
    case Character =>
    case Constant(name) => ConstantBack(sc, o.value, o.neg, name, ts, i);
  }

  lemma ConstantBack(sc: Scope, v: int, neg: bool, name: string, ts: seq<Token>, i: nat)
    requires i < |ts| && Peek(ts, i) == TIdent(name) && FindConstant(sc.names.constants, name) == Some(v)
    ensures PNamed(sc, None, neg, ts, i) == Some(Parse(Num(v, neg, Constant(name)), i + 1))
  {
    hide FindConstant;
  }

  lemma {:induction false} PrimaryBack(sc: Scope, o: Operand, ts: seq<Token>, i: nat)
    requires OperandOk(o) && OperandReads(sc, o) && Spelled(ts, i, Unsigned(o)) && Stops(o, Peek(ts, i + |Unsigned(o)|))
    ensures i + |Unsigned(o)| <= |ts| && PPrimary(sc, Signed(o), ts, i) == Some(Parse(o, i + |Unsigned(o)|))
    ensures Signed(o) ==> Peek(ts, i).TNumeric? || Peek(ts, i).TIdent? || Peek(ts, i).TOpBracket?
    ensures !Peek(ts, i).TMinus?
    decreases o, 3
  {
    hide Spelled, SpellLValue, SpellSuffix, SpellArgs, SpellExpr, SpellOperand, SpellCall, ExprOk, LValueOk, SuffixOk,
      ExprStops, PNamed, PExpr, PLValue, POperand, LValueReads, ExprReads, ArgsRead, SuffixReads, ParamValue,
      FormatText, Lookup, FindConstant, FindFunction, SuffixStops, IsFunctionName;
    SpelledBound(ts, i, Unsigned(o));
    match o
    case Num(v, _, form) =>
      SpelledOne(ts, i, NumToken(v, form));
      NumBack(sc, o, ts, i);
    case LogNot(o1) =>
      SpelledSplit(ts, i, [TLogNot], SpellOperand(o1));
      SpelledOne(ts, i, TLogNot);
      OperandBack(sc, o1, ts, i + 1);
    case Paren(e, _) =>
      ParenBack(sc, e, o.neg, ts, i);
    case Value(lv, prefix, suffix, calls, args, _) => PrefixedBack(sc, o, ts, i);
    case AddressOf(lv) =>
      SpelledSplit(ts, i, [TAmpersand], SpellLValue(lv));
      SpelledOne(ts, i, TAmpersand);
      LValueBack(sc, lv, ts, i + 1);
      NameIs(sc, lv);
    case Call(name, args, neg) => CallBack(sc, name, args, neg, ts, i);
    case FunctionAddress(name, neg) =>
      SpelledOne(ts, i, TIdent(name));
      AddressBack(sc, name, neg, ts, i);
  }

  lemma AddressBack(sc: Scope, name: string, neg: bool, ts: seq<Token>, i: nat)
    requires i < |ts| && Peek(ts, i) == TIdent(name) && IsFunctionName(sc, name) && !Peek(ts, i + 1).TOpBracket?
    ensures PNamed(sc, None, neg, ts, i) == Some(Parse(FunctionAddress(name, neg), i + 1))
  {
    hide Lookup, FindConstant, FindFunction;
  }

  lemma {:induction false} PrefixedBack(sc: Scope, o: Operand, ts: seq<Token>, i: nat)
    requires o.Value? && OperandOk(o) && OperandReads(sc, o) && Spelled(ts, i, Unsigned(o))
    requires Stops(o, Peek(ts, i + |Unsigned(o)|))
    ensures i + |Unsigned(o)| <= |ts| && PPrimary(sc, o.neg, ts, i) == Some(Parse(o, i + |Unsigned(o)|))
    ensures (o.neg ==> Peek(ts, i).TIdent?) && !Peek(ts, i).TMinus?
    decreases o, 2
  {
    hide Spelled, SpellLValue, SpellSuffix, SpellArgs, ExprOk, LValueOk, SuffixOk, PNamed, LValueReads, ArgsRead,
      SuffixReads, Lookup, FindConstant, Stops, SpellExpr;
    var plus := PrefixTokens(o.prefix);
    SpelledSplit(ts, i, plus, SpellLValue(o.lv) + SpellSuffix(o.suffix) + SpellCall(o));
    ValueBack(sc, o, ts, i + |plus|);
    if o.prefix.Some? {
      SpelledOne(ts, i, plus[0]);
    }
  }

  /** Every number but the least can be written in decimal digits: a minus sign is a token of its own. */
  lemma NumberSpelled(v: int)
    requires -0x7FFF_FFFF <= v <= 0x7FFF_FFFF
    ensures OperandOk(Num(v, false, Digits(FormatText(if v < 0 then -v else v, 0, false, 10, false), v < 0)))
  {
    hide FormatText, ConstValue, Int32, Denotes;
    var n := if v < 0 then -v else v;
    var text := FormatText(n, 0, false, 10, false);
    DigitsOnly(n);
    DigitsDenote(text);
    var w: nat :| Denotes(text, w);
    DenotedReads(text, w, false);
    DecimalConstant(n);
    Int32Small(v);
  }

  lemma NumberBack(v: int)
    requires -0x7FFF_FFFF <= v <= 0x7FFF_FFFF
    ensures var n := if v < 0 then -v else v; ParamValue(FormatText(n, 0, false, 10, false), v < 0) == Some(v)
  {
    hide FormatText, DecFrom;
    var n := if v < 0 then -v else v;
    DecimalRoundTrip(n);
    Int32Small(v);
    Int32Small(n);
    var text := FormatText(n, 0, false, 10, false);
    NoSign(n);
  }

  /** The text of a number that is not negative starts with a digit and has no hexadecimal prefix. */
  lemma NoSign(n: int)
    requires 0 <= n <= 0x7FFF_FFFF
    ensures var text := FormatText(n, 0, false, 10, false);
            CharAt(text, 0) != '-' && !(CharAt(text, 0) == '0' && CharAt(text, 1) == 'x')
  {
    hide Dec, Pow10, Zeros, FormatText;
    PowerOf10();
    var s := Dec(n, 10);
    TrimmedDec(n, 10);
    UnsignedText(n, s, Zeros(s));
    var digits := s[Zeros(s)..];
    if n > 0 {
      assert IsDigit(digits[0]);
      if |digits| > 1 { assert IsDigit(digits[1]); }
    }
  }

  lemma {:induction false} OperandBack(sc: Scope, o: Operand, ts: seq<Token>, i: nat)
    requires OperandOk(o) && OperandReads(sc, o) && Spelled(ts, i, SpellOperand(o))
    requires Stops(o, Peek(ts, i + |SpellOperand(o)|))
    ensures i + |SpellOperand(o)| <= |ts| && POperand(sc, ts, i) == Some(Parse(o, i + |SpellOperand(o)|))
    decreases o, 4
  {
    hide Spelled, Unsigned, Signed, OperandOk, OperandReads, Stops, PPrimary;
    SpelledSplit(ts, i, Minus(Signed(o)), Unsigned(o));
    PrimaryBack(sc, o, ts, i + |Minus(Signed(o))|);
    if Signed(o) { SpelledOne(ts, i, TMinus); }
  }

  lemma {:induction false} TermBack(sc: Scope, x: Term, ts: seq<Token>, i: nat)
    requires TermOk(x) && TermReads(sc, x) && Spelled(ts, i, SpellTerm(x))
    requires Stops(x.operand, Peek(ts, i + |SpellTerm(x)|))
    ensures i + |SpellTerm(x)| <= |ts| && Operator(Peek(ts, i)) == Some(x.op)
    ensures i < |ts| && POperand(sc, ts, i + 1) == Some(Parse(x.operand, i + |SpellTerm(x)|))
    decreases x, 5
  {
    hide Spelled, SpellOperand, OperandOk, OperandReads, Stops, POperand, Operator;
    SpelledSplit(ts, i, [OperatorToken(x.op)], SpellOperand(x.operand));
    SpelledOne(ts, i, OperatorToken(x.op));
    OperandBack(sc, x.operand, ts, i + 1);
  }

  lemma {:induction false} TermsBack(sc: Scope, rest: seq<Term>, ts: seq<Token>, i: nat)
    requires TermsOk(rest) && TermsRead(sc, rest) && Spelled(ts, i, SpellTerms(rest))
    requires Operator(Peek(ts, i + |SpellTerms(rest)|)).None?
    requires rest != [] ==> ChainStops(rest[0].operand, rest[1..], Peek(ts, i + |SpellTerms(rest)|))
    ensures i + |SpellTerms(rest)| <= |ts| && PTerms(sc, ts, i) == Some(Parse(rest, i + |SpellTerms(rest)|))
    ensures rest != [] ==> Peek(ts, i) == OperatorToken(rest[0].op)
    decreases rest, 6
  {
    hide Spelled, SpellTerm, TermOk, TermReads, Stops, POperand, Operator;
    SpelledBound(ts, i, SpellTerms(rest));
    if rest != [] {
      var first, more := SpellTerm(rest[0]), SpellTerms(rest[1..]);
      SpelledSplit(ts, i, first, more);
      TermsBack(sc, rest[1..], ts, i + |first|);
      assert more == [] ==> rest[1..] == [] by { if rest[1..] != [] { TermNotEmpty(rest[1]); } }
      if rest[1..] == [] { assert more == []; }
      TermBack(sc, rest[0], ts, i);
      FirstToken(rest[0], ts, i);
      assert [Term(rest[0].op, rest[0].operand)] + rest[1..] == rest;
    }
  }

  lemma TermNotEmpty(x: Term)
    requires TermOk(x)
    ensures SpellTerm(x) != []
  {
    hide SpellOperand;
  }

  lemma FirstToken(x: Term, ts: seq<Token>, i: nat)
    requires TermOk(x) && Spelled(ts, i, SpellTerm(x))
    ensures Peek(ts, i) == OperatorToken(x.op)
  {
    hide Spelled, SpellOperand;
    SpelledSplit(ts, i, [OperatorToken(x.op)], SpellOperand(x.operand));
    SpelledOne(ts, i, OperatorToken(x.op));
  }

  /** The round trip: an expression whose names mean what it says, spelled anywhere and followed by a token that cannot
      continue it, is read back as itself. */
  lemma {:induction false} ExprBack(sc: Scope, e: Expr, ts: seq<Token>, i: nat)
    requires ExprOk(e) && ExprReads(sc, e) && Spelled(ts, i, SpellExpr(e)) && ExprStops(e, Peek(ts, i + |SpellExpr(e)|))
    ensures i + |SpellExpr(e)| <= |ts| && PExpr(sc, ts, i) == Some(Parse(e, i + |SpellExpr(e)|))
    decreases e, 7
  {
    hide Spelled, SpellOperand, SpellTerms, OperandOk, OperandReads, TermOk, TermsRead, Stops, POperand, PTerms,
      Operator;
    SpelledSplit(ts, i, SpellOperand(e.first), SpellTerms(e.rest));
    TermsBack(sc, e.rest, ts, i + |SpellOperand(e.first)|);
    if e.rest == [] { NoTerms(); }
    OperandBack(sc, e.first, ts, i);
  }

  lemma NoTerms()
    ensures SpellTerms([]) == []
  {
  }

  /** No two expressions that read back share a spelling. */
  lemma SpellingUnique(sc: Scope, a: Expr, b: Expr, t: Token)
    requires ExprOk(a) && ExprReads(sc, a) && ExprStops(a, t)
    requires ExprOk(b) && ExprReads(sc, b) && ExprStops(b, t)
    requires SpellExpr(a) == SpellExpr(b)
    ensures a == b
  {
    hide SpellExpr, ExprReads, ExprStops, ExprOk, PExpr;
    var ts := SpellExpr(a) + [t];
    assert ts[0..|SpellExpr(a)|] == SpellExpr(a);
    ExprBack(sc, a, ts, 0);
    ExprBack(sc, b, ts, 0);
  }
}
