/** Nothing else is accepted: what the parser reads means what its tokens say in its scope, and is written as its
    spelling, but for commas between arguments, and for `++` and `--` in front of constants and functions, which it lets
    pass. */
module Accepted {
  import opened Words
  import opened Il
  import opened Ast
  import opened Tokens
  import opened Numbers
  import opened Numerals
  import opened Grammar
  import opened Spelling
  import opened StmtSpelling
  import Scoping

  // ----- tokens that count -----

  predicate Counts(t: Token) {
    !t.TComma? && !t.TPlusPlus? && !t.TMinusMinus?
  }

  function Bare(ts: seq<Token>): seq<Token> {
    if ts == [] then [] else (if Counts(ts[0]) then [ts[0]] else []) + Bare(ts[1..])
  }

  lemma {:induction false} BareJoin(xs: seq<Token>, ys: seq<Token>)
    ensures Bare(xs + ys) == Bare(xs) + Bare(ys)
  {
    if xs == [] {
      assert xs + ys == ys;
    } else {
      hide Counts;
      assert (xs + ys)[1..] == xs[1..] + ys && (xs + ys)[0] == xs[0];
      BareJoin(xs[1..], ys);
      var first := if Counts(xs[0]) then [xs[0]] else [];
      assert first + (Bare(xs[1..]) + Bare(ys)) == (first + Bare(xs[1..])) + Bare(ys);
    }
  }

  /** The tokens from i up to j are these, as far as they count. */
  ghost predicate Same(ts: seq<Token>, i: nat, j: nat, piece: seq<Token>) {
    i <= j <= |ts| && Bare(ts[i..j]) == Bare(piece)
  }

  lemma SameJoin(ts: seq<Token>, i: nat, j: nat, k: nat, a: seq<Token>, b: seq<Token>)
    requires Same(ts, i, j, a) && Same(ts, j, k, b)
    ensures Same(ts, i, k, a + b)
  {
    assert ts[i..k] == ts[i..j] + ts[j..k];
    BareJoin(ts[i..j], ts[j..k]);
    BareJoin(a, b);
  }

  lemma SameOne(ts: seq<Token>, i: nat, t: Token)
    requires i < |ts| && Peek(ts, i) == t
    ensures Same(ts, i, i + 1, [t])
  {
    assert ts[i..i + 1] == [t];
  }

  lemma SameNone(ts: seq<Token>, i: nat)
    requires i <= |ts|
    ensures Same(ts, i, i, [])
  {
  }

  lemma SameSkip(ts: seq<Token>, i: nat)
    requires i < |ts| && !Counts(Peek(ts, i))
    ensures Same(ts, i, i + 1, [])
  {
    assert ts[i..i + 1] == [ts[i]];
    assert [ts[i]][1..] == [];
  }

  lemma SameAs(ts: seq<Token>, i: nat, j: nat, a: seq<Token>, b: seq<Token>)
    requires Same(ts, i, j, a) && Bare(a) == Bare(b)
    ensures Same(ts, i, j, b)
  {
  }

  /** A token in front. */
  lemma SameFront(ts: seq<Token>, i: nat, j: nat, t: Token, a: seq<Token>)
    requires i < |ts| && Peek(ts, i) == t && Same(ts, i + 1, j, a)
    ensures Same(ts, i, j, [t] + a)
  {
    hide Same;
    SameOne(ts, i, t);
    SameJoin(ts, i, i + 1, j, [t], a);
  }

  /** A token behind. */
  lemma SameBack(ts: seq<Token>, i: nat, j: nat, a: seq<Token>, t: Token)
    requires Same(ts, i, j, a) && j < |ts| && Peek(ts, j) == t
    ensures Same(ts, i, j + 1, a + [t])
  {
    hide Same;
    SameOne(ts, j, t);
    SameJoin(ts, i, j, j + 1, a, [t]);
  }

  lemma SkipFront(ts: seq<Token>, i: nat, j: nat, a: seq<Token>)
    requires i < |ts| && !Counts(Peek(ts, i)) && Same(ts, i + 1, j, a)
    ensures Same(ts, i, j, a)
  {
    hide Same;
    SameSkip(ts, i);
    SameJoin(ts, i, i + 1, j, [], a);
    assert [] + a == a;
  }

  /** Tokens that do not count may be spelled as well. */
  lemma SpellFront(ts: seq<Token>, i: nat, j: nat, a: seq<Token>, t: Token)
    requires Same(ts, i, j, a) && !Counts(t)
    ensures Same(ts, i, j, [t] + a)
  {
    assert ([t] + a)[1..] == a;
  }

  // ----- what is good about something read -----

  /** The lexer's numbers are numbers. */
  ghost predicate NumeralsOk(ts: seq<Token>) {
    forall k :: 0 <= k < |ts| && ts[k].TNumeric? ==> exists n: nat :: Denotes(ts[k].text, n)
  }

  /** Tokens that end any expression. */
  predicate Ends(t: Token) {
    t.TComma? || t.TSemicolon? || t.TClBracket? || t.TClSquare?
  }

  ghost predicate OperandGood(sc: Scope, o: Operand, ts: seq<Token>, i: nat, j: nat) {
    && OperandOk(o) && OperandReads(sc, o) && Stops(o, Peek(ts, j)) && (forall t :: Ends(t) ==> Stops(o, t))
    && Same(ts, i, j, SpellOperand(o))
  }

  ghost predicate ExprGood(sc: Scope, e: Expr, ts: seq<Token>, i: nat, j: nat) {
    && ExprOk(e) && ExprReads(sc, e) && (forall t :: Ends(t) ==> ExprStops(e, t)) && Same(ts, i, j, SpellExpr(e))
  }

  lemma {:induction false} LookupNamed(vs: seq<Var>, name: string)
    ensures FindVar(vs, name).Some? ==> FindVar(vs, name).value.name == name
  {
    if vs != [] { LookupNamed(vs[1..], name); }
  }

  lemma FoundNamed(sc: Scope, name: string)
    ensures Lookup(sc, name).Some? ==> Lookup(sc, name).value.name == name
  {
    Scoping.FindVisible(sc.blocks, sc.names.funcs, sc.block, name);
    LookupNamed(Scoping.Visible(sc.blocks, sc.names.funcs, sc.block), name);
  }

  // ----- expressions -----

  lemma {:induction false} IndexesGood(sc: Scope, v: Var, ts: seq<Token>, i: nat)
    requires NumeralsOk(ts) && i <= |ts| && PIndexes(sc, v, ts, i).Some?
    ensures var p := PIndexes(sc, v, ts, i).value;
            && ExprsOk(p.value) && IndexesRead(sc, p.value) && Same(ts, i, p.next, SpellIndexes(p.value))
            && (p.value != [] ==> v.isPointer != 0 || v.arraySize != 0) && LvStops(Peek(ts, p.next))
    decreases |ts| - i, 1
  {
    hide NumeralsOk, Same, ExprOk, ExprReads, ExprStops, SpellExpr, PExpr;
    if !Peek(ts, i).TOpSquare? {
      SameNone(ts, i);
    } else {
      var e := PExpr(sc, ts, i + 1).value;
      ExprAccepted(sc, ts, i + 1);
      IndexesGood(sc, v, ts, e.next + 1);
      var rest := PIndexes(sc, v, ts, e.next + 1).value;
      SameFront(ts, i, e.next, TOpSquare, SpellExpr(e.value));
      SameBack(ts, i, e.next, [TOpSquare] + SpellExpr(e.value), TClSquare);
      SameJoin(ts, i, e.next + 1, rest.next, [TOpSquare] + SpellExpr(e.value) + [TClSquare], SpellIndexes(rest.value));
      var all := [e.value] + rest.value;
      assert all[0] == e.value && all[1..] == rest.value;
    }
  }

  lemma {:induction false} LValueGood(sc: Scope, v: Var, ts: seq<Token>, i: nat)
    requires NumeralsOk(ts) && i < |ts| && Peek(ts, i) == TIdent(v.name) && Lookup(sc, v.name) == Some(v)
    requires PLValue(sc, v, ts, i + 1).Some?
    ensures var p := PLValue(sc, v, ts, i + 1).value;
            && LValueOk(p.value) && LValueReads(sc, p.value) && Same(ts, i, p.next, SpellLValue(p.value))
            && LvStops(Peek(ts, p.next)) && p.value.name == v.name && p.value.isPointer == v.isPointer
            && p.value.arraySize == v.arraySize
    decreases |ts| - i, 0
  {
    hide NumeralsOk, Same, ExprOk, IndexesRead, PIndexes, FindType, Lookup;
    IndexesGood(sc, v, ts, i + 1);
    var xs := PIndexes(sc, v, ts, i + 1).value;
    SameFront(ts, i, xs.next, TIdent(v.name), SpellIndexes(xs.value));
  }

  lemma {:induction false} SuffixGood(sc: Scope, v: Var, lv: LValue, ts: seq<Token>, i: nat)
    requires NumeralsOk(ts) && i <= |ts| && PSuffix(sc, v, lv, ts, i).Some? && LvStops(Peek(ts, i))
    requires v.isPointer == lv.isPointer && v.arraySize == lv.arraySize
    ensures var p := PSuffix(sc, v, lv, ts, i).value;
            && SuffixOk(p.value) && SuffixReads(sc, lv, p.value) && Same(ts, i, p.next, SpellSuffix(p.value))
            && SuffixStops(lv, p.value, Peek(ts, p.next)) && forall t :: Ends(t) ==> SuffixStops(lv, p.value, t)
    decreases |ts| - i, 2
  {
    hide NumeralsOk, Same, OperandOk, OperandReads, SpellOperand, POperand, Stops, IsReference;
    var p := PSuffix(sc, v, lv, ts, i).value;
    match p.value
    case PlusOperand(o) =>
      OperandAccepted(sc, ts, i + 1);
      SameFront(ts, i, p.next, TPlus, SpellOperand(o));
    case Plain => SameNone(ts, i);
    case PostIncrement => SameOne(ts, i, TPlusPlus);
    case PostDecrement => SameOne(ts, i, TMinusMinus);
  }

  lemma {:induction false} ArgsGood(sc: Scope, ts: seq<Token>, i: nat)
    requires NumeralsOk(ts) && i <= |ts| && PArgs(sc, ts, i).Some?
    ensures var p := PArgs(sc, ts, i).value;
            ExprsOk(p.value) && ArgsRead(sc, p.value) && Same(ts, i, p.next, SpellArgs(p.value) + [TClBracket])
    decreases |ts| - i, 7
  {
    hide NumeralsOk, Same, ExprOk, ExprReads, ExprStops, SpellExpr, PExpr;
    var p := PArgs(sc, ts, i).value;
    if Peek(ts, i).TClBracket? {
      SameOne(ts, i, TClBracket);
      assert [] + [TClBracket] == [TClBracket];
    } else {
      var e := PExpr(sc, ts, i).value;
      ExprAccepted(sc, ts, i);
      var j := if Peek(ts, e.next).TComma? then e.next + 1 else e.next;
      ArgsGood(sc, ts, j);
      var rest := PArgs(sc, ts, j).value;
      var all := [e.value] + rest.value;
      assert all[0] == e.value && all[1..] == rest.value;
      if j > e.next { SkipFront(ts, e.next, rest.next, SpellArgs(rest.value) + [TClBracket]); }
      ArgsJoin(ts, i, e.next, rest.next, e.value, rest.value);
    }
  }

  lemma ArgsJoin(ts: seq<Token>, i: nat, j: nat, k: nat, e: Expr, rest: seq<Expr>)
    requires Same(ts, i, j, SpellExpr(e)) && Same(ts, j, k, SpellArgs(rest) + [TClBracket])
    ensures Same(ts, i, k, SpellArgs([e] + rest) + [TClBracket])
  {
    hide Same, SpellExpr;
    var x, y := SpellExpr(e), SpellArgs(rest) + [TClBracket];
    SameJoin(ts, i, j, k, x, y);
    if rest == [] {
      assert SpellArgs(rest) == [] && SpellArgs([e] + rest) == x;
      assert [] + [TClBracket] == [TClBracket];
    } else {
      assert ([e] + rest)[1..] == rest;
      assert SpellArgs([e] + rest) == x + [TComma] + SpellArgs(rest);
      SpellFront(ts, j, k, y, TComma);
      SameJoin(ts, i, j, k, x, [TComma] + y);
      assert x + ([TComma] + y) == SpellArgs([e] + rest) + [TClBracket];
    }
  }

  /** A variable with what follows its name, without a prefix. */
  function Inner(o: Operand): seq<Token>
    requires o.Value?
  {
    SpellLValue(o.lv) + SpellSuffix(o.suffix) + SpellCall(o)
  }

  predicate PrefixOk(prefix: Option<BinaryOp>, neg: bool) {
    match prefix case None => true case Some(op) => !neg && (op.Add? || op.Sub?)
  }

  ghost predicate NamedGood(sc: Scope, o: Operand, prefix: Option<BinaryOp>, neg: bool, ts: seq<Token>, i: nat,
                            j: nat) {
    && OperandOk(o) && OperandReads(sc, o) && Stops(o, Peek(ts, j)) && (forall t :: Ends(t) ==> Stops(o, t))
    && Spelling.Signed(o) == neg && !o.LogNot? && !o.Paren? && !o.AddressOf?
    && (if o.Value? then o.prefix == prefix && Same(ts, i, j, Inner(o)) else Same(ts, i, j, Unsigned(o)))
  }

  /** The parts of what PValue has read. */
  lemma ValueParts(sc: Scope, v: Var, prefix: Option<BinaryOp>, neg: bool, ts: seq<Token>, i: nat)
    requires i <= |ts| && PValue(sc, v, prefix, neg, ts, i).Some?
    ensures var o := PValue(sc, v, prefix, neg, ts, i).value.value;
            var lv := PLValue(sc, v, ts, i);
            && o.Value? && o.prefix == prefix && o.neg == neg && lv.Some? && lv.value.value == o.lv
            && var s := PSuffix(sc, v, o.lv, ts, lv.value.next);
            && s.Some? && s.value.value == o.suffix && o.calls == Peek(ts, s.value.next).TOpBracket?
            && if o.calls then PArgs(sc, ts, s.value.next + 1)
              == Some(Parse(o.args, PValue(sc, v, prefix, neg, ts, i).value.next))
               else o.args == [] && PValue(sc, v, prefix, neg, ts, i).value.next == s.value.next
  {
    hide PLValue, PSuffix, PArgs;
  }

  lemma {:induction false} ValueGood(sc: Scope, v: Var, prefix: Option<BinaryOp>, neg: bool, ts: seq<Token>, i: nat)
    requires NumeralsOk(ts) && i < |ts| && Peek(ts, i) == TIdent(v.name) && Lookup(sc, v.name) == Some(v)
    requires FindConstant(sc.names.constants, v.name).None? && PrefixOk(prefix, neg)
    requires PValue(sc, v, prefix, neg, ts, i + 1).Some?
    ensures var p := PValue(sc, v, prefix, neg, ts, i + 1).value; NamedGood(sc, p.value, prefix, neg, ts, i, p.next)
    decreases |ts| - i, 1
  {
    hide NumeralsOk, Same, ExprOk, LValueOk, LValueReads, SuffixOk, SuffixReads, ArgsRead, SpellLValue, SpellSuffix,
      SpellArgs, PLValue, PSuffix, PArgs, PValue, Lookup, FindConstant, SuffixStops, LvStops;
    ValueParts(sc, v, prefix, neg, ts, i + 1);
    var p := PValue(sc, v, prefix, neg, ts, i + 1).value;
    var o, lv := p.value, PLValue(sc, v, ts, i + 1).value;
    LValueGood(sc, v, ts, i);
    SuffixGood(sc, v, o.lv, ts, lv.next);
    var s := PSuffix(sc, v, o.lv, ts, lv.next).value;
    SameJoin(ts, i, lv.next, s.next, SpellLValue(o.lv), SpellSuffix(o.suffix));
    if o.calls {
      ArgsGood(sc, ts, s.next + 1);
      SameFront(ts, s.next, p.next, TOpBracket, SpellArgs(o.args) + [TClBracket]);
    } else {
      SameNone(ts, s.next);
      NoArgsOk(sc);
    }
    SameJoin(ts, i, s.next, p.next, SpellLValue(o.lv) + SpellSuffix(o.suffix), SpellCall(o));
  }

  lemma NoArgsOk(sc: Scope)
    ensures ExprsOk([]) && ArgsRead(sc, [])
  {
  }

  lemma ConstantGood(sc: Scope, prefix: Option<BinaryOp>, neg: bool, ts: seq<Token>, i: nat, v: int)
    requires i < |ts| && Peek(ts, i).TIdent? && FindConstant(sc.names.constants, ts[i].name) == Some(v)
    ensures NamedGood(sc, Num(v, neg, Constant(ts[i].name)), prefix, neg, ts, i, i + 1)
  {
    hide Same, FindConstant;
    SameOne(ts, i, TIdent(ts[i].name));
  }

  lemma {:induction false} FunctionGood(sc: Scope, prefix: Option<BinaryOp>, neg: bool, ts: seq<Token>, i: nat)
    requires NumeralsOk(ts) && i < |ts| && Peek(ts, i).TIdent? && IsFunctionName(sc, ts[i].name)
    requires Peek(ts, i + 1).TOpBracket? ==> PArgs(sc, ts, i + 2).Some?
    ensures !Peek(ts, i + 1).TOpBracket? ==>
              NamedGood(sc, FunctionAddress(ts[i].name, neg), prefix, neg, ts, i, i + 1)
    ensures Peek(ts, i + 1).TOpBracket? ==>
              var p := PArgs(sc, ts, i + 2).value;
              NamedGood(sc, Call(ts[i].name, p.value, neg), prefix, neg, ts, i, p.next)
    decreases |ts| - i, 0
  {
    hide NumeralsOk, Same, ExprOk, ArgsRead, SpellArgs, PArgs, IsFunctionName;
    var name := TIdent(ts[i].name);
    SameOne(ts, i, name);
    if Peek(ts, i + 1).TOpBracket? {
      ArgsGood(sc, ts, i + 2);
      var p := PArgs(sc, ts, i + 2).value;
      SameBack(ts, i, i + 1, [name], TOpBracket);
      SameJoin(ts, i, i + 2, p.next, [name] + [TOpBracket], SpellArgs(p.value) + [TClBracket]);
      assert [name] + [TOpBracket] + (SpellArgs(p.value) + [TClBracket])
          == [name, TOpBracket] + SpellArgs(p.value) + [TClBracket];
    }
  }

  lemma {:induction false} NamedAccepted(sc: Scope, prefix: Option<BinaryOp>, neg: bool, ts: seq<Token>, i: nat)
    requires NumeralsOk(ts) && i <= |ts| && PNamed(sc, prefix, neg, ts, i).Some? && PrefixOk(prefix, neg)
    ensures var p := PNamed(sc, prefix, neg, ts, i).value; NamedGood(sc, p.value, prefix, neg, ts, i, p.next)
    decreases |ts| - i, 2
  {
    hide NumeralsOk, NamedGood, PValue, PArgs, Lookup, FindConstant, FindFunction;
    var name := ts[i].name;
    FoundNamed(sc, name);
    if FindConstant(sc.names.constants, name).Some? {
      ConstantGood(sc, prefix, neg, ts, i, FindConstant(sc.names.constants, name).value);
    } else if Lookup(sc, name).Some? {
      ValueGood(sc, Lookup(sc, name).value, prefix, neg, ts, i);
    } else {
      FunctionGood(sc, prefix, neg, ts, i);
    }
  }

  // ----- operands -----

  ghost predicate PrimaryGood(sc: Scope, o: Operand, neg: bool, ts: seq<Token>, i: nat, j: nat) {
    && OperandOk(o) && OperandReads(sc, o) && Stops(o, Peek(ts, j)) && (forall t :: Ends(t) ==> Stops(o, t))
    && Spelling.Signed(o) == neg && Same(ts, i, j, Unsigned(o))
  }

  predicate MayBeSigned(t: Token) {
    t.TNumeric? || t.TIdent? || t.TOpBracket?
  }

  /** What a prefix token does to what follows it. */
  lemma PrefixedGood(sc: Scope, o: Operand, prefix: Option<BinaryOp>, neg: bool, ts: seq<Token>, i: nat, j: nat)
    requires NamedGood(sc, o, prefix, neg, ts, if prefix.Some? then i + 1 else i, j) && PrefixOk(prefix, neg)
    requires prefix.Some? ==> i < |ts| && !Counts(Peek(ts, i))
    ensures PrimaryGood(sc, o, neg, ts, i, j)
  {
    hide Same, OperandOk, OperandReads, Stops, SpellLValue, SpellSuffix, SpellCall, SpellArgs, Counts;
    var piece := if o.Value? then Inner(o) else Unsigned(o);
    if prefix.Some? {
      SkipFront(ts, i, j, piece);
      if o.Value? {
        var plus := if prefix.value.Add? then TPlusPlus else TMinusMinus;
        assert !Counts(plus) by { NoCount(prefix.value); }
        SpellFront(ts, i, j, piece, plus);
      }
    } else if o.Value? {
      assert [] + piece == piece;
    }
  }

  lemma NoCount(op: BinaryOp)
    ensures !Counts(if op.Add? then TPlusPlus else TMinusMinus)
  {
  }

  lemma NumberGood(sc: Scope, text: string, neg: bool, ts: seq<Token>, i: nat, v: int)
    requires NumeralsOk(ts) && i < |ts| && Peek(ts, i) == TNumeric(text) && ParamValue(text, neg) == Some(v)
    ensures PrimaryGood(sc, Num(v, false, Digits(text, neg)), neg, ts, i, i + 1)
  {
    hide ParamValue, Int32, Same, Denotes;
    SameOne(ts, i, TNumeric(text));
    assert ts[i].TNumeric?;
    var n: nat :| Denotes(text, n);
    DenotedReads(text, n, neg);
  }

  lemma {:induction false} PrimaryAccepted(sc: Scope, neg: bool, ts: seq<Token>, i: nat)
    requires NumeralsOk(ts) && i <= |ts| && PPrimary(sc, neg, ts, i).Some? && (neg ==> MayBeSigned(Peek(ts, i)))
    ensures var p := PPrimary(sc, neg, ts, i).value; PrimaryGood(sc, p.value, neg, ts, i, p.next)
    decreases |ts| - i, 3
  {
    hide NumeralsOk, Same, ExprOk, ExprReads, ExprStops, SpellExpr, SpellLValue, PExpr, PNamed, POperand, PLValue,
      PrimaryGood, NamedGood, Lookup, ParamValue;
    var p := PPrimary(sc, neg, ts, i).value;
    match Peek(ts, i)
    case TChar(c) => CharGood(sc, ts, i, c);
    case TNumeric(text) => NumberGood(sc, text, neg, ts, i, p.value.value);
    case TLogNot =>
      OperandAccepted(sc, ts, i + 1);
      NotGood(sc, p.value.o, ts, i, p.next);
    case TAmpersand =>
      FoundNamed(sc, ts[i + 1].name);
      LValueGood(sc, Lookup(sc, ts[i + 1].name).value, ts, i + 1);
      AddressGood(sc, p.value.lv, ts, i, p.next);
    case TOpBracket =>
      ExprAccepted(sc, ts, i + 1);
      ParenGood(sc, p.value.e, neg, ts, i, p.next - 1);
    case TPlusPlus =>
      NamedAccepted(sc, Some(Add), neg, ts, i + 1);
      PrefixedGood(sc, p.value, Some(Add), neg, ts, i, p.next);
    case TMinusMinus =>
      NamedAccepted(sc, Some(Sub), neg, ts, i + 1);
      PrefixedGood(sc, p.value, Some(Sub), neg, ts, i, p.next);
    case TIdent(_) =>
      NamedAccepted(sc, None, neg, ts, i);
      PrefixedGood(sc, p.value, None, neg, ts, i, p.next);
  }

  lemma CharGood(sc: Scope, ts: seq<Token>, i: nat, c: int)
    requires i < |ts| && Peek(ts, i) == TChar(c)
    ensures PrimaryGood(sc, Num(c, false, Character), false, ts, i, i + 1)
  {
    hide Same;
    SameOne(ts, i, TChar(c));
  }

  lemma NotGood(sc: Scope, o: Operand, ts: seq<Token>, i: nat, j: nat)
    requires i < |ts| && Peek(ts, i).TLogNot? && OperandGood(sc, o, ts, i + 1, j)
    ensures PrimaryGood(sc, LogNot(o), false, ts, i, j)
  {
    hide Same, SpellOperand;
    SameFront(ts, i, j, TLogNot, SpellOperand(o));
  }

  lemma AddressGood(sc: Scope, lv: LValue, ts: seq<Token>, i: nat, j: nat)
    requires i < |ts| && Peek(ts, i).TAmpersand? && LValueOk(lv) && LValueReads(sc, lv) && LvStops(Peek(ts, j))
    requires Same(ts, i + 1, j, SpellLValue(lv))
    ensures PrimaryGood(sc, AddressOf(lv), false, ts, i, j)
  {
    hide Same, SpellLValue, LValueOk, LValueReads;
    SameFront(ts, i, j, TAmpersand, SpellLValue(lv));
  }

  lemma ParenGood(sc: Scope, e: Expr, neg: bool, ts: seq<Token>, i: nat, j: nat)
    requires i < |ts| && Peek(ts, i).TOpBracket? && ExprGood(sc, e, ts, i + 1, j) && Peek(ts, j).TClBracket? && j < |ts|
    ensures PrimaryGood(sc, Paren(e, neg), neg, ts, i, j + 1)
  {
    hide Same, SpellExpr, ExprOk, ExprReads, ExprStops;
    SameFront(ts, i, j, TOpBracket, SpellExpr(e));
    SameBack(ts, i, j, [TOpBracket] + SpellExpr(e), TClBracket);
  }

  lemma {:induction false} OperandAccepted(sc: Scope, ts: seq<Token>, i: nat)
    requires NumeralsOk(ts) && i <= |ts| && POperand(sc, ts, i).Some?
    ensures var p := POperand(sc, ts, i).value; OperandGood(sc, p.value, ts, i, p.next)
    decreases |ts| - i, 4
  {
    hide NumeralsOk, Same, PPrimary, OperandOk, OperandReads, Stops, Unsigned, Spelling.Signed;
    var p := POperand(sc, ts, i).value;
    if Peek(ts, i).TMinus? {
      PrimaryAccepted(sc, true, ts, i + 1);
      SameFront(ts, i, p.next, TMinus, Unsigned(p.value));
    } else {
      PrimaryAccepted(sc, false, ts, i);
      assert [] + Unsigned(p.value) == Unsigned(p.value);
    }
  }

  lemma OperatorKnown(t: Token, op: BinaryOp)
    requires Operator(t) == Some(op)
    ensures t == OperatorToken(op)
  {
  }

  ghost predicate TermsGood(sc: Scope, rest: seq<Term>, ts: seq<Token>, i: nat, j: nat) {
    && TermsOk(rest) && TermsRead(sc, rest) && Same(ts, i, j, SpellTerms(rest)) && Operator(Peek(ts, j)).None?
    && (rest != [] ==> Peek(ts, i) == OperatorToken(rest[0].op)) && (rest == [] ==> i == j)
    && forall t :: Ends(t) && rest != [] ==> ChainStops(rest[0].operand, rest[1..], t)
  }

  lemma {:induction false} TermsAccepted(sc: Scope, ts: seq<Token>, i: nat)
    requires NumeralsOk(ts) && i <= |ts| && PTerms(sc, ts, i).Some?
    ensures var p := PTerms(sc, ts, i).value; TermsGood(sc, p.value, ts, i, p.next)
    decreases |ts| - i, 5
  {
    hide NumeralsOk, Same, OperandGood, TermsGood, POperand, Operator;
    var p := PTerms(sc, ts, i).value;
    match Operator(Peek(ts, i))
    case None => NoTermsGood(sc, ts, i);
    case Some(op) =>
      OperatorKnown(Peek(ts, i), op);
      OperandAccepted(sc, ts, i + 1);
      var o := POperand(sc, ts, i + 1).value;
      TermsAccepted(sc, ts, o.next);
      TermJoin(sc, op, o.value, PTerms(sc, ts, o.next).value.value, ts, i, o.next, p.next);
  }

  lemma NoTermsGood(sc: Scope, ts: seq<Token>, i: nat)
    requires i <= |ts| && Operator(Peek(ts, i)).None?
    ensures TermsGood(sc, [], ts, i, i)
  {
    hide Same, Operator;
    SameNone(ts, i);
  }

  lemma TermJoin(sc: Scope, op: BinaryOp, o: Operand, rest: seq<Term>, ts: seq<Token>, i: nat, j: nat, k: nat)
    requires i < |ts| && Peek(ts, i) == OperatorToken(op) && OperandGood(sc, o, ts, i + 1, j)
    requires TermsGood(sc, rest, ts, j, k)
    ensures TermsGood(sc, [Term(op, o)] + rest, ts, i, k)
  {
    hide Same, SpellOperand, OperandOk, OperandReads, Stops, Operator, OperatorToken;
    var all := [Term(op, o)] + rest;
    assert all[0] == Term(op, o) && all[1..] == rest;
    SameFront(ts, i, j, OperatorToken(op), SpellOperand(o));
    SameJoin(ts, i, j, k, SpellTerm(all[0]), SpellTerms(rest));
    assert SpellTerms(all) == SpellTerm(all[0]) + SpellTerms(all[1..]);
    assert TermsOk(all) && TermsRead(sc, all);
    forall t | Ends(t) ensures ChainStops(all[0].operand, all[1..], t) {
      if rest != [] { assert ChainStops(rest[0].operand, rest[1..], t); }
    }
  }

  lemma {:induction false} ExprAccepted(sc: Scope, ts: seq<Token>, i: nat)
    requires NumeralsOk(ts) && i <= |ts| && PExpr(sc, ts, i).Some?
    ensures var p := PExpr(sc, ts, i).value; ExprGood(sc, p.value, ts, i, p.next)
    decreases |ts| - i, 6
  {
    hide NumeralsOk, Same, POperand, PTerms, OperandGood, TermsGood, ExprGood;
    OperandAccepted(sc, ts, i);
    var o := POperand(sc, ts, i).value;
    TermsAccepted(sc, ts, o.next);
    var rest := PTerms(sc, ts, o.next).value;
    ExprJoin(sc, o.value, rest.value, ts, i, o.next, rest.next);
  }

  lemma ExprJoin(sc: Scope, o: Operand, rest: seq<Term>, ts: seq<Token>, i: nat, j: nat, k: nat)
    requires OperandGood(sc, o, ts, i, j) && TermsGood(sc, rest, ts, j, k)
    ensures ExprGood(sc, Expr(o, rest), ts, i, k)
  {
    hide Same, SpellOperand, SpellTerms, OperandOk, OperandReads, Stops, OperatorToken, TermsOk, TermsRead;
    SameJoin(ts, i, j, k, SpellOperand(o), SpellTerms(rest));
    forall t | Ends(t) ensures ExprStops(Expr(o, rest), t) {}
  }

  // ----- assignments -----

  ghost predicate AssignGood(sc: Scope, a: Assign, ts: seq<Token>, i: nat, j: nat) {
    (forall t :: Ends(t) ==> AssignFits(sc, a, t)) && Same(ts, i, j, SpellAssign(a)) && Peek(ts, i) == TIdent(a.lv.name)
  }

  lemma UpdateKnown(t: Token, op: BinaryOp)
    requires UpdateOperator(t) == Some(op) && !t.TPlusPlus? && !t.TMinusMinus?
    ensures t == UpdateToken(op) && (op.Add? || op.Sub? || op.BitOr? || op.BitAnd?)
  {
  }

  /** Behind the left-hand side: the tokens of the rest. */
  function Rest(a: Assign): seq<Token> {
    match a
    case Store(_, value) => [TAssign] + SpellExpr(value)
    case Update(_, op, None) => [if op.Add? then TPlusPlus else TMinusMinus]
    case Update(_, op, Some(e)) => [UpdateToken(op)] + SpellExpr(e)
    case CallThrough(_, args) => [TOpBracket] + (SpellArgs(args) + [TClBracket])
  }

  lemma {:induction false} AssignedAccepted(sc: Scope, lv: LValue, ts: seq<Token>, i: nat)
    requires NumeralsOk(ts) && i <= |ts| && PAssigned(sc, lv, ts, i).Some? && LValueOk(lv) && LValueReads(sc, lv)
    ensures var p := PAssigned(sc, lv, ts, i).value;
            && p.value.lv == lv && Same(ts, i, p.next, Rest(p.value))
            && forall t :: Ends(t) ==> AssignFits(sc, p.value, t)
  {
    hide NumeralsOk, Same, ExprOk, ExprReads, ExprStops, SpellExpr, SpellArgs, PExpr, PArgs, ArgsRead, LValueOk,
      LValueReads;
    var p := PAssigned(sc, lv, ts, i).value;
    match p.value
    case Store(_, value) =>
      ExprAccepted(sc, ts, i + 1);
      SameFront(ts, i, p.next, TAssign, SpellExpr(value));
    case Update(_, op, None) => SameOne(ts, i, if op.Add? then TPlusPlus else TMinusMinus);
    case Update(_, op, Some(e)) =>
      UpdateKnown(Peek(ts, i), op);
      ExprAccepted(sc, ts, i + 1);
      SameFront(ts, i, p.next, UpdateToken(op), SpellExpr(e));
    case CallThrough(_, args) =>
      ArgsGood(sc, ts, i + 1);
      SameFront(ts, i, p.next, TOpBracket, SpellArgs(args) + [TClBracket]);
  }

  lemma {:induction false} AssignAccepted(sc: Scope, ts: seq<Token>, i: nat)
    requires NumeralsOk(ts) && i <= |ts| && PAssign(sc, ts, i).Some?
    ensures var p := PAssign(sc, ts, i).value; AssignGood(sc, p.value, ts, i, p.next)
  {
    hide NumeralsOk, Same, AssignFits, SpellLValue, SpellExpr, SpellArgs, PLValue, PAssigned, LValueOk, LValueReads,
      Lookup;
    var p, v := PAssign(sc, ts, i).value, Lookup(sc, ts[i].name).value;
    FoundNamed(sc, ts[i].name);
    LValueGood(sc, v, ts, i);
    var lv := PLValue(sc, v, ts, i + 1).value;
    AssignedAccepted(sc, lv.value, ts, lv.next);
    SameJoin(ts, i, lv.next, p.next, SpellLValue(lv.value), Rest(p.value));
    assert SpellAssign(p.value) == SpellLValue(lv.value) + Rest(p.value);
  }

  // ----- declarations -----

  lemma PartGood(typeName: string, ts: seq<Token>, i: nat)
    requires NumeralsOk(ts) && i <= |ts| && PDeclarator(typeName, ts, i).Some?
    ensures PartOk(FormAt(ts, i).part)
  {
    hide Denotes;
  }

  lemma FormGood(typeName: string, ts: seq<Token>, i: nat)
    requires NumeralsOk(ts) && i <= |ts| && PDeclarator(typeName, ts, i).Some?
    ensures var p := PDeclarator(typeName, ts, i).value;
            && PartOk(FormAt(ts, i).part) && p.value == VarOf(typeName, FormAt(ts, i))
            && Same(ts, i, p.next, SpellForm(FormAt(ts, i)))
  {
    hide NumeralsOk, Same, ConstValue;
    PartGood(typeName, ts, i);
    var f, p := FormAt(ts, i), PDeclarator(typeName, ts, i).value;
    var j := if f.star then i + 1 else i;
    PartSpelled(f.part, ts, j + 1, p.next);
    SameFront(ts, j, p.next, TIdent(f.name), SpellPart(f.part));
    if f.star {
      SameFront(ts, i, p.next, TStar, [TIdent(f.name)] + SpellPart(f.part));
    } else {
      assert [] + ([TIdent(f.name)] + SpellPart(f.part)) == [TIdent(f.name)] + SpellPart(f.part);
    }
  }

  lemma PartSpelled(part: ArrayPart, ts: seq<Token>, i: nat, j: nat)
    requires i <= |ts| && j == i + |SpellPart(part)| <= |ts|
    requires part.Length? ==>
               Peek(ts, i).TOpSquare? && Peek(ts, i + 1) == TNumeric(part.text) && Peek(ts, i + 2).TClSquare?
    requires part.Open? ==> Peek(ts, i).TOpSquare? && Peek(ts, i + 1).TClSquare?
    ensures Same(ts, i, j, SpellPart(part))
  {
    assert ts[i..j] == SpellPart(part);
  }

  ghost predicate InitGood(sc: Scope, t: TypeDef, size: Option<int>, x: InitParse, ts: seq<Token>, i: nat)
    requires sc.block < |sc.blocks|
  {
    && PartOk(x.d.form.part) && (forall next :: Ends(next) ==> InitFits(sc, t, size, x.d, next))
    && x.blocks == WithVar(sc, t, x.d.form).blocks && Same(ts, i, x.next, SpellDeclarator(x.d))
    && x.size == match size case None => Needs(VarOf(t.name, x.d.form), t) case Some(n) => n
  }

  lemma {:induction false} InitAccepted(sc: Scope, t: TypeDef, size: Option<int>, ts: seq<Token>, i: nat)
    requires NumeralsOk(ts) && i <= |ts| && sc.block < |sc.blocks| && PInit(sc, t, size, ts, i).Some?
    ensures InitGood(sc, t, size, PInit(sc, t, size, ts, i).value, ts, i)
  {
    hide NumeralsOk, Same, SpellForm, SpellExpr, ExprOk, ExprReads, ExprStops, PExpr, PDeclarator, FormAt, ElementsOf,
      PartOk;
    FormGood(t.name, ts, i);
    var x, f, d := PInit(sc, t, size, ts, i).value, FormAt(ts, i), PDeclarator(t.name, ts, i).value;
    assert In(sc, WithLocal(sc.blocks, sc.block, d.value)) == WithVar(sc, t, f);
    if x.d.init.Some? {
      ExprAccepted(WithVar(sc, t, f), ts, d.next + 1);
      SameFront(ts, d.next, x.next, TAssign, SpellExpr(x.d.init.value.value));
    } else {
      SameNone(ts, d.next);
    }
    SameJoin(ts, i, d.next, x.next, SpellForm(f), SpellInit(x.d.init));
  }

  ghost predicate MoreGood(sc: Scope, t: TypeDef, size: int, p: Parsed<seq<Declarator>>, ts: seq<Token>, i: nat)
    requires sc.block < |sc.blocks|
  {
    && MoreFit(sc, t, size, p.value) && p.blocks == Declaring(sc, t, p.value).blocks
    && Same(ts, i, p.next, SpellMore(p.value))
  }

  lemma MoreJoin(sc: Scope, t: TypeDef, size: int, x: InitParse, p: Parsed<seq<Declarator>>, ts: seq<Token>, i: nat)
    requires sc.block < |sc.blocks| && i < |ts| && Peek(ts, i).TComma?
    requires InitGood(sc, t, Some(size), x, ts, i + 1) && MoreGood(WithVar(sc, t, x.d.form), t, size, p, ts, x.next)
    ensures MoreGood(sc, t, size, p.(value := [x.d] + p.value), ts, i)
  {
    hide Same, InitFits, SpellDeclarator, WithVar, PartOk;
    var ds := [x.d] + p.value;
    assert ds[0] == x.d && ds[1..] == p.value;
    SameJoin(ts, i + 1, x.next, p.next, SpellDeclarator(x.d), SpellMore(p.value));
    SameFront(ts, i, p.next, TComma, SpellDeclarator(x.d) + SpellMore(p.value));
  }

  lemma {:induction false} MoreAccepted(sc: Scope, t: TypeDef, size: int, ts: seq<Token>, i: nat)
    requires NumeralsOk(ts) && i <= |ts| && sc.block < |sc.blocks| && PMoreInits(sc, t, size, ts, i).Some?
    ensures MoreGood(sc, t, size, PMoreInits(sc, t, size, ts, i).value, ts, i)
    decreases |ts| - i
  {
    hide NumeralsOk, Same, InitFits, PInit, WithVar, PartOk, VarOf;
    if Peek(ts, i).TSemicolon? {
      SameOne(ts, i, TSemicolon);
    } else {
      hide MoreGood;
      InitAccepted(sc, t, Some(size), ts, i + 1);
      var x := PInit(sc, t, Some(size), ts, i + 1).value;
      SameIn(sc, t, x.d.form);
      MoreAccepted(WithVar(sc, t, x.d.form), t, size, ts, x.next);
      MoreJoin(sc, t, size, x, PMoreInits(WithVar(sc, t, x.d.form), t, size, ts, x.next).value, ts, i);
    }
  }

  lemma {:induction false} DeclareAccepted(sc: Scope, t: TypeDef, name: string, ts: seq<Token>, i: nat)
    requires NumeralsOk(ts) && i < |ts| && Peek(ts, i) == TIdent(name) && sc.block < |sc.blocks|
    requires PDeclare(sc, t, ts, i + 1).Some?
    ensures var p := PDeclare(sc, t, ts, i + 1).value;
            && DeclareFits(sc, t, p.value) && p.blocks == Declaring(sc, t, p.value).blocks
            && Same(ts, i, p.next, SpellDeclare(name, p.value))
  {
    hide NumeralsOk, Same, InitFits, MoreFit, PInit, PMoreInits, WithVar, PartOk, VarOf, SpellDeclarator, SpellMore;
    InitAccepted(sc, t, None, ts, i + 1);
    var x := PInit(sc, t, None, ts, i + 1).value;
    SameIn(sc, t, x.d.form);
    MoreAccepted(WithVar(sc, t, x.d.form), t, x.size, ts, x.next);
    var more := PMoreInits(WithVar(sc, t, x.d.form), t, x.size, ts, x.next).value;
    var ds := [x.d] + more.value;
    assert ds[0] == x.d && ds[1..] == more.value;
    SameJoin(ts, i + 1, x.next, more.next, SpellDeclarator(x.d), SpellMore(more.value));
    SameFront(ts, i, more.next, TIdent(name), SpellDeclarator(x.d) + SpellMore(more.value));
  }

  // ----- statements -----

  ghost predicate StmtGood(sc: Scope, sw: bool, p: Parsed<Stmt>, ts: seq<Token>, i: nat)
    requires sc.block < |sc.blocks|
  {
    && StmtFits(sc, sw, p.value) && p.blocks == StmtSpelling.Tables(sc, p.value)
    && Same(ts, i, p.next, SpellStmt(p.value)) && (Peek(ts, p.next).TElse? ==> Closed(p.value))
  }

  lemma {:induction false} ConditionAccepted(sc: Scope, ts: seq<Token>, i: nat)
    requires NumeralsOk(ts) && i <= |ts| && PCondition(sc, ts, i).Some?
    ensures var p := PCondition(sc, ts, i).value;
            ExprFits(sc, p.value, TClBracket) && Same(ts, i, p.next, SpellCondition(p.value))
  {
    hide NumeralsOk, Same, ExprOk, ExprReads, ExprStops, SpellExpr, PExpr;
    ExprAccepted(sc, ts, i + 1);
    var e := PExpr(sc, ts, i + 1).value;
    SameBack(ts, i + 1, e.next, SpellExpr(e.value), TClBracket);
    SameFront(ts, i, e.next + 1, TOpBracket, SpellExpr(e.value) + [TClBracket]);
  }

  lemma {:induction false} OptExprAccepted(sc: Scope, ts: seq<Token>, i: nat)
    requires NumeralsOk(ts) && i <= |ts| && POptExpr(sc, ts, i).Some?
    ensures var p := POptExpr(sc, ts, i).value;
            OptExprFits(sc, p.value) && Same(ts, i, p.next, SpellOptExpr(p.value))
  {
    hide NumeralsOk, Same, ExprOk, ExprReads, ExprStops, SpellExpr, PExpr;
    if Peek(ts, i).TSemicolon? {
      SameOne(ts, i, TSemicolon);
      assert [] + [TSemicolon] == [TSemicolon];
    } else {
      ExprAccepted(sc, ts, i);
      var e := PExpr(sc, ts, i).value;
      SameBack(ts, i, e.next, SpellExpr(e.value), TSemicolon);
    }
  }

  lemma {:induction false} OptAssignAccepted(sc: Scope, close: Token, ts: seq<Token>, i: nat)
    requires NumeralsOk(ts) && i <= |ts| && (close.TSemicolon? || close.TClBracket?)
    requires POptAssign(sc, close, ts, i).Some?
    ensures var p := POptAssign(sc, close, ts, i).value;
            OptAssignFits(sc, p.value, close) && Same(ts, i, p.next, SpellOptAssign(p.value, close))
  {
    hide NumeralsOk, Same, AssignFits, SpellAssign, PAssign;
    if Peek(ts, i) == close {
      SameOne(ts, i, close);
      assert [] + [close] == [close];
    } else {
      AssignAccepted(sc, ts, i);
      var a := PAssign(sc, ts, i).value;
      SameBack(ts, i, a.next, SpellAssign(a.value), close);
    }
  }

  lemma {:induction false} ForHeadAccepted(sc: Scope, ts: seq<Token>, i: nat)
    requires NumeralsOk(ts) && i <= |ts| && PForHead(sc, ts, i).Some?
    ensures var p := PForHead(sc, ts, i).value;
            && OptAssignFits(sc, p.value.init, TSemicolon) && OptExprFits(sc, p.value.test)
            && OptAssignFits(sc, p.value.step, TClBracket) && Same(ts, i, p.next, SpellForHead(p.value))
  {
    hide NumeralsOk, Same, OptAssignFits, OptExprFits, SpellOptAssign, SpellOptExpr, POptAssign, POptExpr;
    OptAssignAccepted(sc, TSemicolon, ts, i + 1);
    var x := POptAssign(sc, TSemicolon, ts, i + 1).value;
    OptExprAccepted(sc, ts, x.next);
    var y := POptExpr(sc, ts, x.next).value;
    OptAssignAccepted(sc, TClBracket, ts, y.next);
    var z := POptAssign(sc, TClBracket, ts, y.next).value;
    var c := SpellOptAssign(z.value, TClBracket);
    SameJoin(ts, x.next, y.next, z.next, SpellOptExpr(y.value), c);
    SameJoin(ts, i + 1, x.next, z.next, SpellOptAssign(x.value, TSemicolon), SpellOptExpr(y.value) + c);
    SameFront(ts, i, z.next, TOpBracket, SpellOptAssign(x.value, TSemicolon) + (SpellOptExpr(y.value) + c));
  }

  lemma ForJoin(sc: Scope, sw: bool, h: ForHead, p: Parsed<Stmt>, ts: seq<Token>, i: nat, j: nat)
    requires sc.block < |sc.blocks| && i < |ts| && Peek(ts, i).TFor? && StmtGood(sc, sw, p, ts, j)
    requires OptAssignFits(sc, h.init, TSemicolon) && OptExprFits(sc, h.test) && OptAssignFits(sc, h.step, TClBracket)
    requires Same(ts, i + 1, j, SpellForHead(h))
    ensures StmtGood(sc, sw, p.(value := For(h.init, h.test, h.step, p.value)), ts, i)
  {
    hide Same, OptAssignFits, OptExprFits, SpellForHead;
    SameJoin(ts, i + 1, j, p.next, SpellForHead(h), SpellStmt(p.value));
    SameFront(ts, i, p.next, TFor, SpellForHead(h) + SpellStmt(p.value));
  }

  lemma {:induction false} ForAccepted(sc: Scope, sw: bool, ts: seq<Token>, i: nat)
    requires NumeralsOk(ts) && i < |ts| && sc.block < |sc.blocks| && Peek(ts, i).TFor? && PFor(sc, sw, ts, i + 1).Some?
    ensures var p := PFor(sc, sw, ts, i + 1).value; StmtGood(sc, sw, p, ts, i) && p.value.For?
    decreases |ts| - i, 0
  {
    hide NumeralsOk, Same, StmtGood, OptAssignFits, OptExprFits, SpellForHead, PForHead, PStmt;
    ForHeadAccepted(sc, ts, i + 1);
    var h := PForHead(sc, ts, i + 1).value;
    StmtAccepted(sc, sw, ts, h.next);
    ForJoin(sc, sw, h.value, PStmt(sc, sw, ts, h.next).value, ts, i, h.next);
  }

  lemma DoJoin(sc: Scope, sw: bool, p: Parsed<Stmt>, c: Expr, ts: seq<Token>, i: nat, j: nat)
    requires sc.block < |sc.blocks| && i < |ts| && Peek(ts, i).TDo? && StmtGood(sc, sw, p, ts, i + 1)
    requires sc.block < |p.blocks| && ExprFits(Later(sc, p.blocks), c, TClBracket)
    requires p.next < |ts| && Peek(ts, p.next).TWhile? && Same(ts, p.next + 1, j, SpellCondition(c))
    requires j < |ts| && Peek(ts, j).TSemicolon?
    ensures StmtGood(sc, sw, Parsed(DoWhile(p.value, c), j + 1, p.blocks), ts, i)
  {
    hide Same, ExprFits, SpellCondition;
    SameBack(ts, p.next + 1, j, SpellCondition(c), TSemicolon);
    SameFront(ts, p.next, j + 1, TWhile, SpellCondition(c) + [TSemicolon]);
    SameJoin(ts, i + 1, p.next, j + 1, SpellStmt(p.value), [TWhile] + (SpellCondition(c) + [TSemicolon]));
    SameFront(ts, i, j + 1, TDo, SpellStmt(p.value) + ([TWhile] + (SpellCondition(c) + [TSemicolon])));
  }

  lemma {:induction false} DoAccepted(sc: Scope, sw: bool, ts: seq<Token>, i: nat)
    requires NumeralsOk(ts) && i < |ts| && sc.block < |sc.blocks| && Peek(ts, i).TDo? && PDo(sc, sw, ts, i + 1).Some?
    ensures var p := PDo(sc, sw, ts, i + 1).value; StmtGood(sc, sw, p, ts, i) && p.value.DoWhile?
    decreases |ts| - i, 0
  {
    hide NumeralsOk, Same, StmtGood, ExprFits, SpellCondition, PCondition, PStmt;
    StmtAccepted(sc, sw, ts, i + 1);
    var p := PStmt(sc, sw, ts, i + 1).value;
    ConditionAccepted(Later(sc, p.blocks), ts, p.next + 1);
    var c := PCondition(Later(sc, p.blocks), ts, p.next + 1).value;
    DoJoin(sc, sw, p, c.value, ts, i, c.next);
  }

  ghost predicate PlainGood(sc: Scope, p: Parsed<Stmt>, ts: seq<Token>, i: nat)
    requires sc.block < |sc.blocks|
  {
    && (forall sw :: StmtFits(sc, sw, p.value)) && p.blocks == StmtSpelling.Tables(sc, p.value)
    && Same(ts, i, p.next, SpellStmt(p.value)) && Closed(p.value) && MayTrail(p.value)
  }

  lemma DeclaredGood(sc: Scope, t: TypeDef, ts: seq<Token>, i: nat)
    requires NumeralsOk(ts) && i < |ts| && Peek(ts, i).TIdent? && sc.block < |sc.blocks|
    requires FindType(sc.names.types, ts[i].name) == Some(t) && PDeclare(sc, t, ts, i + 1).Some?
    ensures var d := PDeclare(sc, t, ts, i + 1).value;
            PlainGood(sc, Parsed(Declare(ts[i].name, d.value), d.next, d.blocks), ts, i)
  {
    hide NumeralsOk, Same, DeclareFits, SpellDeclare, PDeclare, FindType, Declaring;
    DeclareAccepted(sc, t, ts[i].name, ts, i);
  }

  lemma AssignmentGood(sc: Scope, ts: seq<Token>, i: nat)
    requires NumeralsOk(ts) && i < |ts| && Peek(ts, i).TIdent? && sc.block < |sc.blocks|
    requires FindType(sc.names.types, ts[i].name).None? && FindFunction(sc.names.funcs, ts[i].name).None?
    requires PAssign(sc, ts, i).Some? && Peek(ts, PAssign(sc, ts, i).value.next).TSemicolon?
    ensures var a := PAssign(sc, ts, i).value;
            a.next < |ts| && PlainGood(sc, Parsed(Assignment(a.value), a.next + 1, sc.blocks), ts, i)
  {
    hide NumeralsOk, Same, AssignFits, SpellAssign, PAssign, FindType, FindFunction;
    AssignAccepted(sc, ts, i);
    var a := PAssign(sc, ts, i).value;
    SameBack(ts, i, a.next, SpellAssign(a.value), TSemicolon);
  }

  lemma CallGood(sc: Scope, ts: seq<Token>, i: nat)
    requires NumeralsOk(ts) && i < |ts| && Peek(ts, i).TIdent? && sc.block < |sc.blocks|
    requires FindType(sc.names.types, ts[i].name).None? && FindFunction(sc.names.funcs, ts[i].name).Some?
    requires Peek(ts, i + 1).TOpBracket? && PArgs(sc, ts, i + 2).Some?
    requires Peek(ts, PArgs(sc, ts, i + 2).value.next).TSemicolon?
    ensures var p := PArgs(sc, ts, i + 2).value;
            && p.next < |ts|
            && PlainGood(sc, Parsed(Evaluate(Call(ts[i].name, p.value, false)), p.next + 1, sc.blocks), ts, i)
  {
    hide NumeralsOk, Same, ExprOk, ArgsRead, SpellArgs, SpellOperand, PArgs, FindType, FindFunction;
    ArgsGood(sc, ts, i + 2);
    var p, name := PArgs(sc, ts, i + 2).value, ts[i].name;
    var rest := SpellArgs(p.value) + [TClBracket];
    SameBack(ts, i + 2, p.next, rest, TSemicolon);
    SameFront(ts, i + 1, p.next + 1, TOpBracket, rest + [TSemicolon]);
    SameFront(ts, i, p.next + 1, TIdent(name), [TOpBracket] + (rest + [TSemicolon]));
    CallSpelled(name, p.value);
  }

  lemma AloneGood(sc: Scope, ts: seq<Token>, i: nat)
    requires NumeralsOk(ts) && i + 1 < |ts| && Peek(ts, i).TIdent? && sc.block < |sc.blocks|
    requires FindType(sc.names.types, ts[i].name).None? && FindFunction(sc.names.funcs, ts[i].name).Some?
    requires Peek(ts, i + 1).TSemicolon?
    ensures PlainGood(sc, Parsed(Evaluate(FunctionAddress(ts[i].name, false)), i + 2, sc.blocks), ts, i)
  {
    hide NumeralsOk, Same, FindType, FindFunction;
    SameOne(ts, i, TIdent(ts[i].name));
    SameBack(ts, i, i + 1, [TIdent(ts[i].name)], TSemicolon);
    assert SpellOperand(FunctionAddress(ts[i].name, false)) == [] + [TIdent(ts[i].name)];
    assert [] + [TIdent(ts[i].name)] == [TIdent(ts[i].name)];
  }

  lemma PlainAccepted(sc: Scope, ts: seq<Token>, i: nat)
    requires NumeralsOk(ts) && i <= |ts| && sc.block < |sc.blocks| && PPlain(sc, ts, i).Some?
    ensures PlainGood(sc, PPlain(sc, ts, i).value, ts, i)
  {
    hide NumeralsOk, PlainGood, PDeclare, PAssign, PArgs, FindType, FindFunction;
    var name := ts[i].name;
    match FindType(sc.names.types, name)
    case Some(t) => DeclaredGood(sc, t, ts, i);
    case None =>
      if FindFunction(sc.names.funcs, name).None? {
        AssignmentGood(sc, ts, i);
      } else if Peek(ts, i + 1).TOpBracket? {
        CallGood(sc, ts, i);
      } else {
        AloneGood(sc, ts, i);
      }
  }

  lemma {:induction false} TailAccepted(sc: Scope, sw: bool, ts: seq<Token>, i: nat)
    requires NumeralsOk(ts) && i <= |ts| && sc.block < |sc.blocks| && PTail(sc, sw, ts, i).Some?
    ensures var p := PTail(sc, sw, ts, i).value; StmtGood(sc, sw, p, ts, i) && MayTrail(p.value)
    decreases |ts| - i, 1
  {
    hide NumeralsOk, StmtGood, PFor, PDo, PPlain, PlainGood, Same;
    var p := PTail(sc, sw, ts, i).value;
    match Peek(ts, i)
    case TFor => ForAccepted(sc, sw, ts, i);
    case TDo => DoAccepted(sc, sw, ts, i);
    case TSemicolon => EmptyGood(sc, sw, ts, i);
    case _ =>
      PlainAccepted(sc, ts, i);
      PlainIsGood(sc, sw, p, ts, i);
  }

  lemma PlainIsGood(sc: Scope, sw: bool, p: Parsed<Stmt>, ts: seq<Token>, i: nat)
    requires sc.block < |sc.blocks| && PlainGood(sc, p, ts, i)
    ensures StmtGood(sc, sw, p, ts, i) && MayTrail(p.value)
  {
    hide Same, StmtFits, StmtSpelling.Tables, SpellStmt;
  }

  lemma EmptyGood(sc: Scope, sw: bool, ts: seq<Token>, i: nat)
    requires i < |ts| && Peek(ts, i).TSemicolon? && sc.block < |sc.blocks|
    ensures StmtGood(sc, sw, Parsed(Empty, i + 1, sc.blocks), ts, i)
  {
    hide Same;
    SameOne(ts, i, TSemicolon);
  }

  lemma BreakJoin(sc: Scope, p: Parsed<Stmt>, ts: seq<Token>, i: nat)
    requires sc.block < |sc.blocks| && i < |ts| && Peek(ts, i).TBreak? && StmtGood(sc, true, p, ts, i + 1)
    requires MayTrail(p.value)
    ensures StmtGood(sc, true, p.(value := Break(p.value)), ts, i)
  {
    hide Same;
    SameFront(ts, i, p.next, TBreak, SpellStmt(p.value));
  }

  lemma ReturnAccepted(sc: Scope, sw: bool, ts: seq<Token>, i: nat)
    requires NumeralsOk(ts) && i < |ts| && Peek(ts, i).TReturn? && sc.block < |sc.blocks|
    requires PReturn(sc, ts, i + 1).Some?
    ensures var p := PReturn(sc, ts, i + 1).value; StmtGood(sc, sw, Parsed(p.value, p.next, sc.blocks), ts, i)
  {
    hide NumeralsOk, Same, ExprFits, SpellExpr, PExpr, FunctionName;
    var p := PReturn(sc, ts, i + 1).value;
    OptExprAccepted(sc, ts, i + 1);
    SameFront(ts, i, p.next, TReturn, SpellOptExpr(p.value.value));
  }

  lemma WhileJoin(sc: Scope, sw: bool, c: Expr, p: Parsed<Stmt>, ts: seq<Token>, i: nat, j: nat)
    requires sc.block < |sc.blocks| && i < |ts| && Peek(ts, i).TWhile? && StmtGood(sc, sw, p, ts, j)
    requires ExprFits(sc, c, TClBracket) && Same(ts, i + 1, j, SpellCondition(c))
    ensures StmtGood(sc, sw, p.(value := While(c, p.value)), ts, i)
  {
    hide Same, ExprFits, SpellCondition;
    SameJoin(ts, i + 1, j, p.next, SpellCondition(c), SpellStmt(p.value));
    SameFront(ts, i, p.next, TWhile, SpellCondition(c) + SpellStmt(p.value));
  }

  lemma {:induction false} WhileAccepted(sc: Scope, sw: bool, ts: seq<Token>, i: nat)
    requires NumeralsOk(ts) && i < |ts| && sc.block < |sc.blocks| && Peek(ts, i).TWhile?
    requires PWhile(sc, sw, ts, i + 1).Some?
    ensures StmtGood(sc, sw, PWhile(sc, sw, ts, i + 1).value, ts, i)
    decreases |ts| - i, 0
  {
    hide NumeralsOk, Same, StmtGood, ExprFits, SpellCondition, PCondition, PStmt;
    ConditionAccepted(sc, ts, i + 1);
    var c := PCondition(sc, ts, i + 1).value;
    StmtAccepted(sc, sw, ts, c.next);
    WhileJoin(sc, sw, c.value, PStmt(sc, sw, ts, c.next).value, ts, i, c.next);
  }

  lemma IfShape(sc: Scope, sw: bool, c: Expr, thn: Stmt, els: Option<Stmt>)
    requires sc.block < |sc.blocks|
    ensures var s, sc1 := If(c, thn, els), Later(sc, StmtSpelling.Tables(sc, thn));
            && SpellStmt(s) == [TIf] + (SpellCondition(c) + (SpellStmt(thn) + SpellElse(els)))
            && SpellElse(els) == (match els case None => [] case Some(e) => [TElse] + SpellStmt(e))
            && StmtSpelling.Tables(sc, s)
               == (match els case None => sc1.blocks case Some(e) => StmtSpelling.Tables(sc1, e))
            && Closed(s) == (match els case None => false case Some(e) => Closed(e))
            && (ExprFits(sc, c, TClBracket) && StmtFits(sc, sw, thn)
                && (match els case None => true case Some(e) => Closed(thn) && StmtFits(sc1, sw, e))
                ==> StmtFits(sc, sw, s))
  {
    hide ExprFits, SpellCondition;
  }

  lemma IfJoin(sc: Scope, sw: bool, c: Expr, p: Parsed<Stmt>, ts: seq<Token>, i: nat, j: nat)
    requires sc.block < |sc.blocks| && i < |ts| && Peek(ts, i).TIf? && StmtGood(sc, sw, p, ts, j)
    requires ExprFits(sc, c, TClBracket) && Same(ts, i + 1, j, SpellCondition(c)) && !Peek(ts, p.next).TElse?
    ensures StmtGood(sc, sw, p.(value := If(c, p.value, None)), ts, i)
  {
    hide Same, ExprFits, SpellCondition, SpellStmt, StmtSpelling.Tables, Closed, StmtFits, SpellElse;
    var x, y := SpellCondition(c), SpellStmt(p.value);
    SameJoin(ts, i + 1, j, p.next, x, y);
    SameFront(ts, i, p.next, TIf, x + y);
    IfShape(sc, sw, c, p.value, None);
    assert y + [] == y;
  }

  lemma IfElseJoin(sc: Scope, sw: bool, c: Expr, p: Parsed<Stmt>, e: Parsed<Stmt>, ts: seq<Token>, i: nat, j: nat)
    requires sc.block < |sc.blocks| && i < |ts| && Peek(ts, i).TIf? && StmtGood(sc, sw, p, ts, j)
    requires ExprFits(sc, c, TClBracket) && Same(ts, i + 1, j, SpellCondition(c))
    requires sc.block < |p.blocks| && p.next < |ts| && Peek(ts, p.next).TElse?
    requires StmtGood(Later(sc, p.blocks), sw, e, ts, p.next + 1)
    ensures StmtGood(sc, sw, e.(value := If(c, p.value, Some(e.value))), ts, i)
  {
    hide Same, ExprFits, SpellCondition, SpellStmt, StmtSpelling.Tables, Closed, StmtFits, SpellElse;
    IfShape(sc, sw, c, p.value, Some(e.value));
    var x, y, z := SpellCondition(c), SpellStmt(p.value), SpellStmt(e.value);
    SameFront(ts, p.next, e.next, TElse, z);
    SameJoin(ts, j, p.next, e.next, y, [TElse] + z);
    SameJoin(ts, i + 1, j, e.next, x, y + ([TElse] + z));
    SameFront(ts, i, e.next, TIf, x + (y + ([TElse] + z)));
  }

  lemma {:induction false} IfAccepted(sc: Scope, sw: bool, ts: seq<Token>, i: nat)
    requires NumeralsOk(ts) && i < |ts| && sc.block < |sc.blocks| && Peek(ts, i).TIf? && PIf(sc, sw, ts, i + 1).Some?
    ensures StmtGood(sc, sw, PIf(sc, sw, ts, i + 1).value, ts, i)
    decreases |ts| - i, 0
  {
    hide NumeralsOk, Same, StmtGood, ExprFits, SpellCondition, PCondition, PStmt;
    ConditionAccepted(sc, ts, i + 1);
    var c := PCondition(sc, ts, i + 1).value;
    StmtAccepted(sc, sw, ts, c.next);
    var p := PStmt(sc, sw, ts, c.next).value;
    if Peek(ts, p.next).TElse? {
      StmtAccepted(Later(sc, p.blocks), sw, ts, p.next + 1);
      IfElseJoin(sc, sw, c.value, p, PStmt(Later(sc, p.blocks), sw, ts, p.next + 1).value, ts, i, c.next);
    } else {
      IfJoin(sc, sw, c.value, p, ts, i, c.next);
    }
  }

  // ----- lists of statements -----

  ghost predicate StmtsGood(sc: Scope, sw: bool, p: Parsed<seq<Stmt>>, ts: seq<Token>, i: nat)
    requires sc.block < |sc.blocks|
  {
    && AllFit(sc, sw, p.value) && p.blocks == AllTables(sc, p.value) && Same(ts, i, p.next, SpellStmts(p.value))
  }

  lemma StmtsJoin(sc: Scope, sw: bool, x: Parsed<Stmt>, p: Parsed<seq<Stmt>>, ts: seq<Token>, i: nat)
    requires sc.block < |sc.blocks| && StmtGood(sc, sw, x, ts, i)
    requires sc.block < |x.blocks| && StmtsGood(Later(sc, x.blocks), sw, p, ts, x.next)
    ensures StmtsGood(sc, sw, p.(value := [x.value] + p.value), ts, i)
  {
    hide Same, StmtFits, StmtSpelling.Tables, SpellStmt;
    var ss := [x.value] + p.value;
    assert ss[0] == x.value && ss[1..] == p.value;
    SameJoin(ts, i, x.next, p.next, SpellStmt(x.value), SpellStmts(p.value));
  }

  lemma {:induction false} StmtsAccepted(sc: Scope, sw: bool, ts: seq<Token>, i: nat)
    requires NumeralsOk(ts) && i <= |ts| && sc.block < |sc.blocks| && PStmts(sc, sw, ts, i).Some?
    ensures StmtsGood(sc, sw, PStmts(sc, sw, ts, i).value, ts, i)
    decreases |ts| - i, 4
  {
    hide NumeralsOk, Same, StmtGood, PStmt;
    if Peek(ts, i).TClCurly? {
      SameOne(ts, i, TClCurly);
    } else {
      hide StmtsGood;
      StmtAccepted(sc, sw, ts, i);
      var x := PStmt(sc, sw, ts, i).value;
      StmtsAccepted(Later(sc, x.blocks), sw, ts, x.next);
      StmtsJoin(sc, sw, x, PStmts(Later(sc, x.blocks), sw, ts, x.next).value, ts, i);
    }
  }

  lemma BlockJoin(sc: Scope, sw: bool, p: Parsed<seq<Stmt>>, ts: seq<Token>, i: nat)
    requires sc.block < |sc.blocks| && i < |ts| && Peek(ts, i).TOpCurly?
    requires StmtsGood(StmtSpelling.Inner(sc), sw, p, ts, i + 1)
    ensures StmtGood(sc, sw, Parsed(Compound(|sc.blocks|, p.value), p.next, p.blocks), ts, i)
  {
    hide Same, AllFit, AllTables, SpellStmts;
    SameFront(ts, i, p.next, TOpCurly, SpellStmts(p.value));
  }

  lemma {:induction false} BlockAccepted(sc: Scope, sw: bool, ts: seq<Token>, i: nat)
    requires NumeralsOk(ts) && i < |ts| && sc.block < |sc.blocks| && PBlock(sc, sw, ts, i).Some?
    ensures StmtGood(sc, sw, PBlock(sc, sw, ts, i).value, ts, i)
    decreases |ts| - i, 0
  {
    hide NumeralsOk, StmtGood, StmtsGood, PStmts;
    StmtsAccepted(StmtSpelling.Inner(sc), sw, ts, i + 1);
    BlockJoin(sc, sw, PStmts(StmtSpelling.Inner(sc), sw, ts, i + 1).value, ts, i);
  }

  ghost predicate BodyGood(sc: Scope, p: Parsed<seq<Stmt>>, ts: seq<Token>, i: nat)
    requires sc.block < |sc.blocks|
  {
    && AllFit(sc, true, p.value) && p.blocks == AllTables(sc, p.value) && Same(ts, i, p.next, SpellBody(p.value))
  }

  lemma BodyJoin(sc: Scope, x: Parsed<Stmt>, p: Parsed<seq<Stmt>>, ts: seq<Token>, i: nat)
    requires sc.block < |sc.blocks| && StmtGood(sc, true, x, ts, i)
    requires sc.block < |x.blocks| && BodyGood(Later(sc, x.blocks), p, ts, x.next)
    ensures BodyGood(sc, p.(value := [x.value] + p.value), ts, i)
  {
    hide Same, StmtFits, StmtSpelling.Tables, SpellStmt;
    var ss := [x.value] + p.value;
    assert ss[0] == x.value && ss[1..] == p.value;
    SameJoin(ts, i, x.next, p.next, SpellStmt(x.value), SpellBody(p.value));
  }

  lemma {:induction false} BodyAccepted(sc: Scope, ts: seq<Token>, i: nat)
    requires NumeralsOk(ts) && i <= |ts| && sc.block < |sc.blocks| && PClauseBody(sc, ts, i).Some?
    ensures BodyGood(sc, PClauseBody(sc, ts, i).value, ts, i)
    decreases |ts| - i, 4
  {
    hide NumeralsOk, Same, StmtGood, PStmt;
    if StartsClause(Peek(ts, i)) || Peek(ts, i).TClCurly? {
      SameNone(ts, i);
    } else {
      hide BodyGood;
      StmtAccepted(sc, true, ts, i);
      var x := PStmt(sc, true, ts, i).value;
      BodyAccepted(Later(sc, x.blocks), ts, x.next);
      BodyJoin(sc, x, PClauseBody(Later(sc, x.blocks), ts, x.next).value, ts, i);
    }
  }

  lemma LabelGood(sc: Scope, ts: seq<Token>, i: nat, x: Label)
    requires NumeralsOk(ts) && i < |ts| && StartsClause(Peek(ts, i))
    requires var j := if Peek(ts, i).TCase? then i + 2 else i + 1;
             && j < |ts| && Peek(ts, j).TColon?
             && Some(x) == if Peek(ts, i).TCase? then PCaseLabel(sc, Peek(ts, i + 1)) else Some(DefaultCase)
    ensures LabelFits(sc, x) && Same(ts, i, (if Peek(ts, i).TCase? then i + 3 else i + 2), SpellLabel(x))
  {
    hide ConstValue, Int32, FindConstant;
    if Peek(ts, i).TCase? {
      if ts[i + 1].TNumeric? {
        var n: nat :| Denotes(ts[i + 1].text, n);
        DenotedReads(ts[i + 1].text, n, false);
      }
      assert ts[i..i + 3] == SpellLabel(x);
    } else {
      assert ts[i..i + 2] == SpellLabel(x);
    }
  }

  lemma {:induction false} ClauseAccepted(sc: Scope, ts: seq<Token>, i: nat)
    requires NumeralsOk(ts) && i <= |ts| && sc.block < |sc.blocks| && PClause(sc, ts, i).Some?
    ensures var p := PClause(sc, ts, i).value;
            && ClauseFits(sc, p.value) && p.blocks == ClauseTables(sc, p.value)
            && Same(ts, i, p.next, SpellClause(p.value))
    decreases |ts| - i, 0
  {
    hide NumeralsOk, Same, AllFit, AllTables, SpellBody, SpellLabel, LabelFits, PClauseBody, PCaseLabel;
    var p := PClause(sc, ts, i).value;
    LabelGood(sc, ts, i, p.value.head);
    var j := if Peek(ts, i).TCase? then i + 3 else i + 2;
    BodyAccepted(sc, ts, j);
    SameJoin(ts, i, j, p.next, SpellLabel(p.value.head), SpellBody(p.value.body));
  }

  ghost predicate ClausesGood(sc: Scope, p: Parsed<seq<Clause>>, ts: seq<Token>, i: nat)
    requires sc.block < |sc.blocks|
  {
    && ClausesFit(sc, p.value) && p.blocks == ClausesTables(sc, p.value) && Same(ts, i, p.next, SpellClauses(p.value))
  }

  lemma ClausesJoin(sc: Scope, x: Parsed<Clause>, p: Parsed<seq<Clause>>, ts: seq<Token>, i: nat)
    requires sc.block < |sc.blocks| && ClauseFits(sc, x.value) && x.blocks == ClauseTables(sc, x.value)
    requires Same(ts, i, x.next, SpellClause(x.value))
    requires sc.block < |x.blocks| && ClausesGood(Later(sc, x.blocks), p, ts, x.next)
    ensures ClausesGood(sc, p.(value := [x.value] + p.value), ts, i)
  {
    hide Same, ClauseFits, ClauseTables, SpellClause;
    var cs := [x.value] + p.value;
    assert cs[0] == x.value && cs[1..] == p.value;
    SameJoin(ts, i, x.next, p.next, SpellClause(x.value), SpellClauses(p.value));
  }

  lemma {:induction false} ClausesAccepted(sc: Scope, ts: seq<Token>, i: nat)
    requires NumeralsOk(ts) && i <= |ts| && sc.block < |sc.blocks| && PClauses(sc, ts, i).Some?
    ensures ClausesGood(sc, PClauses(sc, ts, i).value, ts, i)
    decreases |ts| - i, 5
  {
    hide NumeralsOk, Same, ClauseFits, ClauseTables, SpellClause, PClause;
    if Peek(ts, i).TClCurly? {
      SameOne(ts, i, TClCurly);
    } else {
      hide ClausesGood;
      ClauseAccepted(sc, ts, i);
      var x := PClause(sc, ts, i).value;
      ClausesAccepted(Later(sc, x.blocks), ts, x.next);
      ClausesJoin(sc, x, PClauses(Later(sc, x.blocks), ts, x.next).value, ts, i);
    }
  }

  lemma SwitchJoin(sc: Scope, sw: bool, c: Expr, p: Parsed<seq<Clause>>, ts: seq<Token>, i: nat, j: nat)
    requires sc.block < |sc.blocks| && i < |ts| && Peek(ts, i).TSwitch? && ExprFits(sc, c, TClBracket)
    requires Same(ts, i + 1, j, SpellCondition(c)) && j < |ts| && Peek(ts, j).TOpCurly? && ClausesGood(sc, p, ts, j + 1)
    ensures StmtGood(sc, sw, Parsed(Switch(c, p.value), p.next, p.blocks), ts, i)
  {
    hide Same, ExprFits, SpellCondition, ClausesFit, ClausesTables, SpellClauses;
    SameFront(ts, j, p.next, TOpCurly, SpellClauses(p.value));
    SameJoin(ts, i + 1, j, p.next, SpellCondition(c), [TOpCurly] + SpellClauses(p.value));
    SameFront(ts, i, p.next, TSwitch, SpellCondition(c) + ([TOpCurly] + SpellClauses(p.value)));
  }

  lemma {:induction false} SwitchAccepted(sc: Scope, sw: bool, ts: seq<Token>, i: nat)
    requires NumeralsOk(ts) && i < |ts| && sc.block < |sc.blocks| && Peek(ts, i).TSwitch?
    requires PSwitch(sc, ts, i + 1).Some?
    ensures StmtGood(sc, sw, PSwitch(sc, ts, i + 1).value, ts, i)
    decreases |ts| - i, 0
  {
    hide NumeralsOk, Same, StmtGood, ExprFits, SpellCondition, PCondition, PClauses, ClausesGood;
    ConditionAccepted(sc, ts, i + 1);
    var c := PCondition(sc, ts, i + 1).value;
    ClausesAccepted(sc, ts, c.next + 1);
    SwitchJoin(sc, sw, c.value, PClauses(sc, ts, c.next + 1).value, ts, i, c.next);
  }

  /** The theorem: a statement that is accepted fits its scope, leaves the tables it declares, and is written as its
      spelling, as far as tokens count. */
  lemma {:induction false} StmtAccepted(sc: Scope, sw: bool, ts: seq<Token>, i: nat)
    requires NumeralsOk(ts) && i <= |ts| && sc.block < |sc.blocks| && PStmt(sc, sw, ts, i).Some?
    ensures StmtGood(sc, sw, PStmt(sc, sw, ts, i).value, ts, i)
    decreases |ts| - i, 3
  {
    hide NumeralsOk, StmtGood, PBlock, PReturn, PIf, PWhile, PSwitch, PTail;
    match Peek(ts, i)
    case TOpCurly => BlockAccepted(sc, sw, ts, i);
    case TReturn => ReturnAccepted(sc, sw, ts, i);
    case TIf => IfAccepted(sc, sw, ts, i);
    case TWhile => WhileAccepted(sc, sw, ts, i);
    case TSwitch => SwitchAccepted(sc, sw, ts, i);
    case TBreak =>
      TailAccepted(sc, sw, ts, i + 1);
      BreakJoin(sc, PTail(sc, sw, ts, i + 1).value, ts, i);
    case _ => TailAccepted(sc, sw, ts, i);
  }

  /** A function's body that is accepted. */
  lemma FunctionAccepted(names: Names, blocks: seq<Block>, f: nat, ts: seq<Token>, i: nat)
    requires NumeralsOk(ts) && i <= |ts| && PFunctionBody(names, blocks, f, ts, i).Some?
    ensures var sc := Scope(names, WithBody(blocks, f), |blocks|);
            var p := PFunctionBody(names, blocks, f, ts, i).value;
            && AllFit(sc, false, p.value) && p.blocks == AllTables(sc, p.value)
            && Same(ts, i, p.next, [TOpCurly] + SpellStmts(p.value))
  {
    hide NumeralsOk, Same, AllFit, AllTables, SpellStmts, PStmts;
    var p := PFunctionBody(names, blocks, f, ts, i).value;
    StmtsAccepted(Scope(names, WithBody(blocks, f), |blocks|), false, ts, i + 1);
    SameFront(ts, i, p.next, TOpCurly, SpellStmts(p.value));
  }
}
