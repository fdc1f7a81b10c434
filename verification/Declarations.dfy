/** Declarations with initialisers, and one reading of an expression, where the parser departs from the language. */
module Declarations {
  import opened Words
  import opened Il
  import opened Ast
  import opened Tokens
  import opened Numbers
  import opened Grammar

  // ----- how much an initialiser stores -----

  predicate IsPtr(v: Var) {
    v.isPointer != 0
  }

  /** The variable an initialiser belongs to. */
  predicate Declared(blocks: seq<Block>, b: nat, t: TypeDef, i: Init, v: Var) {
    b < |blocks| && v in blocks[b].locals && v.name == i.name && i.own == DeclaredSize(v, t.size)
  }

  /** It stores what the declaration's first variable needs: that is its own size exactly if both are pointers, or
      neither is, or the type is as large as a pointer. */
  predicate StoredLike(t: TypeDef, first: Var, i: Init, v: Var) {
    && i.size == DeclaredSize(first, t.size)
    && (i.size == i.own <==> t.size == PTR_SIZE || (IsPtr(v) <==> IsPtr(first)))
  }

  ghost predicate StoredAs(blocks: seq<Block>, b: nat, t: TypeDef, first: Var, i: Init) {
    exists v :: Declared(blocks, b, t, i, v) && StoredLike(t, first, i, v)
  }

  ghost predicate InitStoredAs(blocks: seq<Block>, b: nat, t: TypeDef, first: Var, d: Declarator) {
    d.init.Some? ==> StoredAs(blocks, b, t, first, d.init.value)
  }

  ghost predicate AllStoredAs(blocks: seq<Block>, b: nat, t: TypeDef, first: Var, ds: seq<Declarator>) {
    forall k :: 0 <= k < |ds| ==> InitStoredAs(blocks, b, t, first, ds[k])
  }

  ghost predicate LocalsStay(before: seq<Block>, after: seq<Block>, b: nat) {
    b < |before| <= |after| && forall v :: v in before[b].locals ==> v in after[b].locals
  }

  lemma StillStored(before: seq<Block>, after: seq<Block>, b: nat, t: TypeDef, first: Var, ds: seq<Declarator>)
    requires AllStoredAs(before, b, t, first, ds) && LocalsStay(before, after, b)
    ensures AllStoredAs(after, b, t, first, ds)
  {
    forall k | 0 <= k < |ds| ensures InitStoredAs(after, b, t, first, ds[k]) {
      assert InitStoredAs(before, b, t, first, ds[k]);
      if ds[k].init.Some? {
        var x := ds[k].init.value;
        var v :| Declared(before, b, t, x, v) && StoredLike(t, first, x, v);
        assert Declared(after, b, t, x, v);
      }
    }
  }

  lemma InitStored(sc: Scope, t: TypeDef, size: Option<int>, first: Var, ts: seq<Token>, i: nat)
    requires i <= |ts| && sc.block < |sc.blocks| && PInit(sc, t, size, ts, i).Some?
    requires if size.Some? then size.value == DeclaredSize(first, t.size) && first.isFunction == 0
             else PDeclarator(t.name, ts, i).value.value == first
    ensures var x := PInit(sc, t, size, ts, i).value;
            && x.size == DeclaredSize(first, t.size) && first.isFunction == 0
            && LocalsStay(sc.blocks, x.blocks, sc.block) && InitStoredAs(x.blocks, sc.block, t, first, x.d)
  {
    hide PExpr;
    var x := PInit(sc, t, size, ts, i).value;
    var v := PDeclarator(t.name, ts, i).value.value;
    var locals := x.blocks[sc.block].locals;
    assert locals == sc.blocks[sc.block].locals + [v];
    assert locals[|locals| - 1] == v;
    if x.d.init.Some? {
      assert Declared(x.blocks, sc.block, t, x.d.init.value, v);
      assert StoredLike(t, first, x.d.init.value, v);
    }
  }

  lemma {:induction false} MoreStored(sc: Scope, t: TypeDef, first: Var, ts: seq<Token>, i: nat)
    requires i <= |ts| && sc.block < |sc.blocks| && first.isFunction == 0
    requires PMoreInits(sc, t, DeclaredSize(first, t.size), ts, i).Some?
    ensures var r := PMoreInits(sc, t, DeclaredSize(first, t.size), ts, i).value;
            LocalsStay(sc.blocks, r.blocks, sc.block) && AllStoredAs(r.blocks, sc.block, t, first, r.value)
    decreases |ts| - i
  {
    hide PInit, StoredAs, DeclaredSize;
    if !Peek(ts, i).TSemicolon? {
      var size := DeclaredSize(first, t.size);
      var r := PMoreInits(sc, t, size, ts, i).value;
      InitStored(sc, t, Some(size), first, ts, i + 1);
      var x := PInit(sc, t, Some(size), ts, i + 1).value;
      MoreStored(In(sc, x.blocks), t, first, ts, x.next);
      StillStored(x.blocks, r.blocks, sc.block, t, first, [x.d]);
    }
  }

  lemma DeclarationSizes(sc: Scope, t: TypeDef, ts: seq<Token>, i: nat)
    requires i <= |ts| && sc.block < |sc.blocks| && PDeclare(sc, t, ts, i).Some?
    ensures PDeclarator(t.name, ts, i).Some?
    ensures var r := PDeclare(sc, t, ts, i).value;
            AllStoredAs(r.blocks, sc.block, t, PDeclarator(t.name, ts, i).value.value, r.value)
  {
    hide PDeclarator, PMoreInits, StoredAs, PExpr, DeclaredSize;
    var first := PDeclarator(t.name, ts, i).value.value;
    var r := PDeclare(sc, t, ts, i).value;
    InitStored(sc, t, None, first, ts, i);
    var x := PInit(sc, t, None, ts, i).value;
    MoreStored(In(sc, x.blocks), t, first, ts, x.next);
    StillStored(x.blocks, r.blocks, sc.block, t, first, [x.d]);
  }

  // ----- two readings -----

  lemma {:induction false} NumberRead(sc: Scope, ts: seq<Token>, i: nat)
    requires i < |ts| && ts[i] == TNumeric("1")
    ensures POperand(sc, ts, i) == Some(Parse(Num(1, false, Digits("1", false)), i + 1))
  {
    assert ParamValue("1", false) == Some(1);
  }

  /** A variable by itself. */
  lemma {:induction false} NameRead(sc: Scope, v: Var, t: TypeDef, ts: seq<Token>, i: nat)
    requires i < |ts| && ts[i] == TIdent(v.name) && FindConstant(sc.names.constants, v.name).None?
    requires Lookup(sc, v.name) == Some(v) && FindType(sc.names.types, v.typeName) == Some(t)
    requires i + 1 < |ts| && (ts[i + 1].TSemicolon? || ts[i + 1].TStar?)
    ensures POperand(sc, ts, i) == Some(Parse(Value(Plainly(v, t, []), None, Plain, false, [], false), i + 1))
  {
    var lv := Plainly(v, t, []);
    assert PIndexes(sc, v, ts, i + 1) == Some(Parse([], i + 1));
    assert PLValue(sc, v, ts, i + 1) == Some(Parse(lv, i + 1));
    hide PLValue, PIndexes;
    assert PSuffix(sc, v, lv, ts, i + 1) == Some(Parse(Plain, i + 1));
    hide PSuffix;
    NamedRead(sc, v, ts, i, Value(lv, None, Plain, false, [], false), i + 1);
  }

  lemma {:induction false} NamedRead(sc: Scope, v: Var, ts: seq<Token>, i: nat, o: Operand, j: nat)
    requires i < |ts| && ts[i] == TIdent(v.name) && FindConstant(sc.names.constants, v.name).None?
    requires Lookup(sc, v.name) == Some(v) && PValue(sc, v, None, false, ts, i + 1) == Some(Parse(o, j))
    ensures POperand(sc, ts, i) == Some(Parse(o, j))
  {
    hide PValue, Lookup, FindConstant;
    assert PNamed(sc, None, false, ts, i) == Some(Parse(o, j));
    hide PNamed;
    assert PPrimary(sc, false, ts, i) == Some(Parse(o, j));
  }

  function Plainly(v: Var, t: TypeDef, indexes: seq<Expr>): LValue {
    LValue(v.name, v.isPointer, v.isFunction, v.arraySize, t.size, indexes)
  }

  /** An operand with nothing of an expression behind it. */
  lemma {:induction false} AloneRead(sc: Scope, ts: seq<Token>, i: nat, o: Operand)
    requires i < |ts| && POperand(sc, ts, i) == Some(Parse(o, i + 1)) && Operator(Peek(ts, i + 1)).None?
    ensures PExpr(sc, ts, i) == Some(Parse(Expr(o, []), i + 1))
  {
    hide POperand;
  }

  predicate PointerDeclared(ts: seq<Token>) {
    && |ts| == 9 && ts[0] == TIdent("c") && ts[1].TAssign? && ts[2] == TNumeric("1") && ts[3].TComma?
    && ts[4].TStar? && ts[5] == TIdent("p") && ts[6].TAssign? && ts[7] == TIdent("q") && ts[8].TSemicolon?
  }

  /** `char c = 1, *p = q;`: p gets the low byte of q only. */
  lemma {:induction false} PointerInitialised(sc: Scope, q: Var, ts: seq<Token>) returns (one: Expr, two: Expr)
    requires sc.block < |sc.blocks| && q == Var("char", "q", 1, 0, 0, 0) && PointerDeclared(ts)
    requires sc.names == Names([TypeDef("char", 1)], [], []) && sc.blocks[sc.block].locals == [q]
    ensures var r := PDeclare(sc, TypeDef("char", 1), ts, 0);
            && r.Some? && |r.value.value| == 2 && r.value.value[0].init == Some(Init("c", 1, 1, one))
            && r.value.value[1].init == Some(Init("p", 1, PTR_SIZE, two))
  {
    hide *;
    DeclaredTokens(ts);
    var t, c, p := TypeDef("char", 1), Var("char", "c", 0, 0, 0, 0), Var("char", "p", 1, 0, 0, 0);
    var blocks := WithLocal(sc.blocks, sc.block, c);
    var sc1 := In(sc, blocks);
    ScopeIn(sc, blocks);
    one := OneRead(sc1, ts);
    two := QRead(sc, ts, q, c, p);
    CRead(sc, t, ts, one);
    ScopeIn(sc, WithLocal(blocks, sc.block, p));
    PRead(sc1, t, ts, two);
    var x := InitParse(1, Declarator(FormAt(ts, 0), Some(Init("c", 1, 1, one))), 3, blocks);
    var y := InitParse(1, Declarator(FormAt(ts, 4), Some(Init("p", 1, PTR_SIZE, two))), 8,
                       WithLocal(blocks, sc.block, p));
    TwoDeclared(sc, t, ts, x, y);
  }

  lemma DeclaredTokens(ts: seq<Token>)
    requires PointerDeclared(ts)
    ensures |ts| == 9 && Peek(ts, 3).TComma? && Peek(ts, 8).TSemicolon?
  {
  }

  lemma ScopeIn(sc: Scope, blocks: seq<Block>)
    ensures In(sc, blocks).blocks == blocks && In(sc, blocks).block == sc.block && In(sc, blocks).names == sc.names
    ensures forall more :: In(In(sc, blocks), more) == In(sc, more)
  {
  }

  /** A declaration of two variables. */
  lemma {:induction false} TwoDeclared(sc: Scope, t: TypeDef, ts: seq<Token>, x: InitParse, y: InitParse)
    requires sc.block < |sc.blocks| && 0 < x.next < |ts| && |x.blocks| == |sc.blocks| && Peek(ts, x.next).TComma?
    requires PInit(sc, t, None, ts, 0) == Some(x) && PInit(In(sc, x.blocks), t, Some(x.size), ts, x.next + 1) == Some(y)
    requires Peek(ts, y.next).TSemicolon?
    ensures PDeclare(sc, t, ts, 0) == Some(Parsed([x.d] + [y.d], y.next + 1, y.blocks))
  {
    hide PInit, PMoreInits;
    LastInit(In(sc, x.blocks), t, x.size, ts, x.next, y);
  }

  lemma {:induction false} CRead(sc: Scope, t: TypeDef, ts: seq<Token>, e: Expr)
    requires PointerDeclared(ts) && sc.block < |sc.blocks| && t == TypeDef("char", 1)
    requires PExpr(In(sc, WithLocal(sc.blocks, sc.block, Var("char", "c", 0, 0, 0, 0))), ts, 2) == Some(Parse(e, 3))
    ensures var blocks := WithLocal(sc.blocks, sc.block, Var("char", "c", 0, 0, 0, 0));
            PInit(sc, t, None, ts, 0)
              == Some(InitParse(1, Declarator(FormAt(ts, 0), Some(Init("c", 1, 1, e))), 3, blocks))
  {
    hide PExpr, PDeclarator, WithLocal, PInit;
    BareDeclarator("char", ts, 0);
    InitRead(sc, t, None, ts, 0, Var("char", "c", 0, 0, 0, 0), 1, e, 3);
  }

  lemma {:induction false} PRead(sc: Scope, t: TypeDef, ts: seq<Token>, e: Expr)
    requires PointerDeclared(ts) && sc.block < |sc.blocks| && t == TypeDef("char", 1)
    requires PExpr(In(sc, WithLocal(sc.blocks, sc.block, Var("char", "p", 1, 0, 0, 0))), ts, 7) == Some(Parse(e, 8))
    ensures var blocks := WithLocal(sc.blocks, sc.block, Var("char", "p", 1, 0, 0, 0));
            var d := Declarator(FormAt(ts, 4), Some(Init("p", 1, PTR_SIZE, e)));
            PInit(sc, t, Some(1), ts, 4) == Some(InitParse(1, d, 8, blocks))
  {
    hide PExpr, PDeclarator, WithLocal, PInit;
    BareDeclarator("char", ts, 4);
    InitRead(sc, t, Some(1), ts, 4, Var("char", "p", 1, 0, 0, 0), 6, e, 8);
  }

  lemma {:induction false} OneRead(sc: Scope, ts: seq<Token>) returns (e: Expr)
    requires PointerDeclared(ts)
    ensures PExpr(sc, ts, 2) == Some(Parse(e, 3))
  {
    hide POperand, PExpr;
    NumberRead(sc, ts, 2);
    AloneRead(sc, ts, 2, Num(1, false, Digits("1", false)));
    e := Expr(Num(1, false, Digits("1", false)), []);
  }

  lemma {:induction false} QRead(sc: Scope, ts: seq<Token>, q: Var, c: Var, p: Var) returns (e: Expr)
    requires PointerDeclared(ts) && sc.names == Names([TypeDef("char", 1)], [], []) && sc.block < |sc.blocks|
    requires sc.blocks[sc.block].locals == [q] && q == Var("char", "q", 1, 0, 0, 0) && c.name == "c" && p.name == "p"
    ensures PExpr(In(sc, WithLocal(WithLocal(sc.blocks, sc.block, c), sc.block, p)), ts, 7) == Some(Parse(e, 8))
  {
    var sc2 := In(sc, WithLocal(WithLocal(sc.blocks, sc.block, c), sc.block, p));
    assert sc2.blocks[sc.block].locals == [q, c, p];
    assert FindVar([q, c, p], "q") == Some(q);
    hide POperand, PExpr;
    NameRead(sc2, q, TypeDef("char", 1), ts, 7);
    var o := Value(Plainly(q, TypeDef("char", 1), []), None, Plain, false, [], false);
    AloneRead(sc2, ts, 7, o);
    e := Expr(o, []);
  }

  /** A variable or pointer, not an array. */
  lemma {:induction false} BareDeclarator(typeName: string, ts: seq<Token>, i: nat)
    requires i < |ts|
    requires var j := if ts[i].TStar? then i + 1 else i; Peek(ts, j).TIdent? && !Peek(ts, j + 1).TOpSquare?
    ensures var star := if ts[i].TStar? then 1 else 0;
            PDeclarator(typeName, ts, i) == Some(Parse(Var(typeName, ts[i + star].name, star, 0, 0, 0), i + star + 1))
  {
  }

  lemma {:induction false} InitRead(sc: Scope, t: TypeDef, size: Option<int>, ts: seq<Token>, i: nat, v: Var, j: nat,
                                    e: Expr, k: nat)
    requires i < j < k <= |ts| && sc.block < |sc.blocks| && Peek(ts, j).TAssign?
    requires PDeclarator(t.name, ts, i) == Some(Parse(v, j))
    requires PExpr(In(sc, WithLocal(sc.blocks, sc.block, v)), ts, j + 1) == Some(Parse(e, k))
    ensures var own := DeclaredSize(v, t.size);
            var n := match size case None => own case Some(n) => n;
            var d := Declarator(FormAt(ts, i), Some(Init(v.name, n, own, e)));
            var x := InitParse(n, d, k, WithLocal(sc.blocks, sc.block, v));
            PInit(sc, t, size, ts, i) == Some(x)
  {
    hide PExpr, PDeclarator, WithLocal;
  }

  lemma {:induction false} LastInit(sc: Scope, t: TypeDef, size: int, ts: seq<Token>, i: nat, x: InitParse)
    requires i <= |ts| && sc.block < |sc.blocks| && Peek(ts, i).TComma?
    requires PInit(sc, t, Some(size), ts, i + 1) == Some(x) && Peek(ts, x.next).TSemicolon?
    ensures PMoreInits(sc, t, size, ts, i) == Some(Parsed([x.d], x.next + 1, x.blocks))
  {
    hide PInit;
    assert PMoreInits(In(sc, x.blocks), t, size, ts, x.next) == Some(Parsed([], x.next + 1, x.blocks));
    assert [x.d] + [] == [x.d];
  }

  /** Behind a pointer p the plus takes the next operand only, so `p + a * b` is read as `(p + a) * b`. */
  lemma {:induction false} PlusBindsFirst(sc: Scope, v: Var, t: TypeDef, ts: seq<Token>, i: nat, a: Operand, j: nat,
                                          b: Operand, k: nat)
    requires i < |ts| && ts[i] == TIdent(v.name) && FindConstant(sc.names.constants, v.name).None?
    requires Lookup(sc, v.name) == Some(v) && FindType(sc.names.types, v.typeName) == Some(t) && v.isPointer > 0
    requires Peek(ts, i + 1).TPlus? && POperand(sc, ts, i + 2) == Some(Parse(a, j))
    requires Peek(ts, j).TStar? && POperand(sc, ts, j + 1) == Some(Parse(b, k)) && Operator(Peek(ts, k)).None?
    ensures var sum := Value(Plainly(v, t, []), None, PlusOperand(a), false, [], false);
            PExpr(sc, ts, i) == Some(Parse(Expr(sum, [Term(Mul, b)]), k))
  {
    var lv := Plainly(v, t, []);
    var sum := Value(lv, None, PlusOperand(a), false, [], false);
    hide POperand, Lookup, FindConstant;
    assert PIndexes(sc, v, ts, i + 1) == Some(Parse([], i + 1));
    assert PLValue(sc, v, ts, i + 1) == Some(Parse(lv, i + 1));
    hide PLValue, PIndexes;
    assert PSuffix(sc, v, lv, ts, i + 1) == Some(Parse(PlusOperand(a), j));
    hide PSuffix;
    assert PValue(sc, v, None, false, ts, i + 1) == Some(Parse(sum, j));
    NamedRead(sc, v, ts, i, sum, j);
    hide PValue;
    assert PTerms(sc, ts, k) == Some(Parse([], k));
    assert PTerms(sc, ts, j) == Some(Parse([Term(Mul, b)] + [], k));
    assert [Term(Mul, b)] + [] == [Term(Mul, b)];
  }
}
