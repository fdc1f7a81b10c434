/** Where the compiler's rules for pointers are those of the language.

    The compiler looks at the declaration of a variable, not at the type of what its indexes lead to: it follows a
    pointer at every index or at none, it scales what is added to an element reached through a pointer, and `++` in an
    expression moves a pointer by a byte.  For each rule the exact condition on the declaration and the number of
    indexes is given here; where a statement meets them, both sets of rules give it the same meaning. */
module Scaling {
  import opened Words
  import opened Il
  import opened Ast
  import opened CTypes
  import opened Semantics
  import opened StmtSemantics
  import opened Uses
  import IlMachine

  /** The rules of the language, and those the code follows. */
  ghost function Typed(e: Env): Env {
    e.(typed := true)
  }

  ghost function Coded(e: Env): Env {
    e.(typed := false)
  }

  // ----- conditions on declaration and indexes -----

  /** How many pointers are left to be followed; an array counts as one before it is indexed. */
  function Depth(lv: LValue): int {
    lv.isPointer + (if lv.arraySize > 0 then 1 else 0) - |lv.indexes|
  }

  /** One index behind a plain array or pointer; or indexes of a pointer to pointers, the last one only where four bytes
      are right.  Never an array of pointers: the code would follow the first pointer instead of selecting one. */
  predicate IndexesFit(lv: LValue) {
    var n := |lv.indexes|;
    || n == 0
    || (n == 1 && lv.isPointer + (if lv.arraySize > 0 then 1 else 0) == 1 && BaseSize(lv) == lv.tsize)
    || (lv.arraySize <= 0 && lv.isPointer >= 2 && (n < lv.isPointer || (n == lv.isPointer && BaseSize(lv) == PTR_SIZE)))
  }

  /** The size of what is read and written. */
  predicate SizeFits(lv: LValue) {
    |lv.indexes| == 0
    || (if Depth(lv) > 0 then lv.isPointer != 1 || lv.tsize == PTR_SIZE
        else BaseSize(lv) == if lv.isPointer <= 1 then lv.tsize else PTR_SIZE)
  }

  /** What `++`, `--` and the compound assignments add as statements: right for a pointer to values and for an element
      that is not reached through a pointer; otherwise by luck of the size. */
  predicate AmountFits(lv: LValue) {
    if Depth(lv) == 0 then lv.isPointer == 0 || lv.tsize == 1
    else if Depth(lv) == 1 then BaseSize(lv) == lv.tsize
    else lv.tsize == PTR_SIZE
  }

  /** What `++` and `--` add in an expression: right for numbers and for pointers to bytes. */
  predicate BumpFits(lv: LValue) {
    Depth(lv) == 0 || (Depth(lv) == 1 && BaseSize(lv) == 1)
  }

  /** What a plus behind a pointer or array adds: right for an array of values and a pointer to values, never behind an
      element (an object of size one is not read as a pointer is, and a larger one not counted in bytes). */
  predicate PlusFits(lv: LValue) {
    if lv.arraySize > 0 && |lv.indexes| == 0 then lv.tsize == if lv.isPointer > 0 then PTR_SIZE else BaseSize(lv)
    else if Depth(lv) == 0 then lv.tsize == 1 && BaseSize(lv) == PTR_SIZE
    else lv.tsize == if Depth(lv) > 1 then PTR_SIZE else BaseSize(lv)
  }

  predicate ValueFits(lv: LValue, prefix: Option<BinaryOp>, suffix: Suffix) {
    if suffix.PlusOperand? then PlusFits(lv)
    else IsReference(lv) ==> SizeFits(lv) && (Bumps(prefix, suffix) ==> BumpFits(lv))
  }

  predicate UseFits(u: Use) {
    match u
    case InOperand(o) =>
      if o.Value? then 0 <= o.lv.isPointer && IndexesFit(o.lv) && ValueFits(o.lv, o.prefix, o.suffix)
      else o.AddressOf? ==> 0 <= o.lv.isPointer && IndexesFit(o.lv)
    case InAssign(x) =>
      && 0 <= x.lv.isPointer && IsReference(x.lv) && IndexesFit(x.lv) && SizeFits(x.lv)
      && (x.Update? ==> AmountFits(x.lv))
    case InInit(i) => i.size == i.own
  }

  // ----- they are the exact conditions -----

  lemma KindIs(lv: LValue)
    requires 0 <= lv.isPointer
    ensures Denoted(lv).Array? <==> !IsReference(lv)
    ensures Denoted(lv) == Scalar <==> Depth(lv) == 0
    ensures Denoted(lv).NoType? <==> Depth(lv) < 0
    ensures IsReference(lv) && Depth(lv) > 0 ==> Denoted(lv) == Pointer(Depth(lv))
  {
  }

  /** The code takes index k as the language does: it follows a pointer where there is one, and counts in the same
      size. */
  predicate StepFits(lv: LValue, k: nat) {
    var kind := KindAfter(lv, k);
    Indexable(kind) && (kind.Pointer? <==> lv.isPointer != 0) && IndexSize(true, lv, k) == IndexSize(false, lv, k)
  }

  lemma IndexesFitIff(lv: LValue)
    requires 0 <= lv.isPointer
    ensures IndexesFit(lv) <==> forall k: nat :: k < |lv.indexes| ==> StepFits(lv, k)
  {
    if forall k: nat :: k < |lv.indexes| ==> StepFits(lv, k) {
      StepFitsAt(lv, 0);
      StepFitsAt(lv, 1);
      StepFitsAt(lv, lv.isPointer);
      if lv.isPointer > 0 { StepFitsAt(lv, lv.isPointer - 1); }
    }
  }

  lemma StepFitsAt(lv: LValue, k: nat)
    requires forall k: nat :: k < |lv.indexes| ==> StepFits(lv, k)
    ensures k < |lv.indexes| ==> StepFits(lv, k)
  {
  }

  lemma SizeFitsIff(lv: LValue)
    requires 0 <= lv.isPointer && CTypes.Readable(Denoted(lv))
    ensures SizeFits(lv) <==> SizeBy(true, lv) == SizeBy(false, lv)
  {
  }

  lemma AmountFitsIff(lv: LValue)
    requires 0 <= lv.isPointer && CTypes.Readable(Denoted(lv))
    ensures AmountFits(lv) <==> AmountBy(true, lv) == AmountBy(false, lv)
  {
  }

  lemma BumpFitsIff(lv: LValue)
    requires 0 <= lv.isPointer && CTypes.Readable(Denoted(lv))
    ensures BumpFits(lv) ==> StepBy(true, lv) == StepBy(false, lv)
    ensures lv.tsize < 0x1_0000_0000 ==> (BumpFits(lv) <==> StepBy(true, lv) == StepBy(false, lv))
  {
  }

  /** Adding to a number tells what has been added, in a word or in a byte. */
  lemma SumsDiffer(op: BinaryOp, v: Word, x: Word, y: Word)
    requires op.Add? || op.Sub?
    ensures Binary(op, v, x) == Binary(op, v, y) <==> x == y
  {
    var n: int, i: int, j: int := v, x, y;
    SmallWrap(i);
    SmallWrap(j);
    if op.Add? {
      WrapWrap(n + i, -n);
      WrapWrap(n + j, -n);
    } else {
      WrapWrap(n - i, -n);
      WrapWrap(n - j, -n);
    }
  }

  /** A word stored differently is memory that differs. */
  lemma StoresDiffer(mem: Mem, a: Word, v: Word, w: Word)
    ensures StoreWord(mem, a, v) == StoreWord(mem, a, w) <==> v == w
  {
    hide LoadWord, StoreWord;
    LoadStoredWord(mem, a, v);
    LoadStoredWord(mem, a, w);
  }

  /** `x++;` and `x--;` do what they mean exactly under the condition, whatever the variable holds. */
  lemma UpdateAgreesIff(e: Env, lv: LValue, op: BinaryOp, a: Word, mem: Mem)
    requires op.Add? || op.Sub?
    requires 0 <= lv.isPointer && CTypes.Readable(Denoted(lv)) && SizeFits(lv) && lv.tsize < 0x1_0000_0000
    requires EvalUpdate(Coded(e), lv, op, None, a, mem).Some?
    ensures EvalUpdate(Typed(e), lv, op, None, a, mem) == EvalUpdate(Coded(e), lv, op, None, a, mem) <==> AmountFits(lv)
  {
    hide LoadWord, StoreWord, LoadByte, StoreByte, Binary, Permits, Wrap;
    SizeFitsIff(lv);
    AmountFitsIff(lv);
    var v := ReadMem(e, mem, a, LvSize(lv)).value;
    var x, y := Wrap(AmountBy(true, lv)), Wrap(AmountBy(false, lv));
    SmallWrap(AmountBy(true, lv));
    SmallWrap(AmountBy(false, lv));
    SumsDiffer(op, v, x, y);
    StoresDiffer(mem, a, Binary(op, v, x), Binary(op, v, y));
  }

  /** So do `x++`, `++x` and their counterparts inside an expression. */
  lemma BumpAgreesIff(e: Env, lv: LValue, op: BinaryOp, a: Word, mem: Mem)
    requires op.Add? || op.Sub?
    requires 0 <= lv.isPointer && CTypes.Readable(Denoted(lv)) && SizeFits(lv) && lv.tsize < 0x1_0000_0000
    requires Bump(Coded(e), op, a, LvSize(lv), 1, mem).Some?
    ensures Bump(Typed(e), op, a, TypedSize(lv), StepBy(true, lv), mem) == Bump(Coded(e), op, a, LvSize(lv), 1, mem)
       <==> BumpFits(lv)
  {
    hide LoadWord, StoreWord, LoadByte, StoreByte, Binary, Permits, Wrap;
    SizeFitsIff(lv);
    BumpFitsIff(lv);
    var v := ReadMem(e, mem, a, LvSize(lv)).value;
    var x := StepBy(true, lv);
    SumsDiffer(op, v, x, 1);
    StoresDiffer(mem, a, Binary(op, v, x), Binary(op, v, 1));
  }

  lemma PlusFitsIff(lv: LValue)
    requires 0 <= lv.isPointer && !Denoted(lv).NoType?
    ensures PlusFits(lv) <==>
            PlusSize(true, lv) == PlusSize(false, lv) && (IsReference(lv) ==> TypedSize(lv) == PTR_SIZE)
  {
  }

  /** Counting in another size leads elsewhere, at the latest for the index one. */
  lemma AdvanceAgreesIff(a: Word, m: int, n: int)
    requires 0 <= m < 0x1_0000_0000 && 0 <= n < 0x1_0000_0000
    ensures (forall i: Word :: Advance(a, i, m) == Advance(a, i, n)) <==> m == n
  {
    SmallWrap(m);
    SmallWrap(n);
    SumsDiffer(Add, a, m, n);
    hide Wrap;
    if forall i: Word :: Advance(a, i, m) == Advance(a, i, n) {
      OneMore(a, m);
      OneMore(a, n);
    }
  }

  lemma OneMore(a: Word, m: Word)
    ensures Advance(a, 1, m) == Binary(Add, a, m)
  {
    var k: int := m;
    assert 1 * k == k;
    SmallWrap(k);
  }

  // ----- statements that meet the conditions -----

  lemma IndexesFitAlike(e: Env, lv: LValue)
    requires 0 <= lv.isPointer && IndexesFit(lv)
    ensures IndexesAlike(Typed(e), Coded(e), lv)
  {
    hide ReadMem;
    IndexesFitIff(lv);
    forall k: nat | k < |lv.indexes| ensures StepAlike(Typed(e), Coded(e), lv, k) {
      StepFitsAt(lv, k);
      StepFitsAlike(e, lv, k);
    }
  }

  lemma StepFitsAlike(e: Env, lv: LValue, k: nat)
    requires StepFits(lv, k)
    ensures StepAlike(Typed(e), Coded(e), lv, k)
  {
    hide IlMachine.Load, Permits;
  }

  lemma SizeFitsAlike(e: Env, lv: LValue)
    requires SizeBy(true, lv) == SizeBy(false, lv)
    ensures ReadAlike(Typed(e), Coded(e), lv) && WriteAlike(Typed(e), Coded(e), lv)
  {
    hide IlMachine.Load, IlMachine.Store, Permits, SizeBy, Reached;
  }

  lemma PlusFitsAlike(e: Env, lv: LValue)
    requires 0 <= lv.isPointer && !Denoted(lv).NoType? && PlusFits(lv)
    ensures PlusAlike(Typed(e), Coded(e), lv)
  {
    hide IlMachine.Load, Permits, Reached, PlusFits, PlusSize, TypedSize, Denoted;
    KindIs(lv);
    PlusFitsIff(lv);
  }

  lemma IndexesFitKind(lv: LValue)
    requires 0 <= lv.isPointer && IndexesFit(lv)
    ensures !Denoted(lv).NoType?
  {
  }

  lemma ValueFitsAlike(e: Env, lv: LValue, prefix: Option<BinaryOp>, suffix: Suffix)
    requires 0 <= lv.isPointer && IndexesFit(lv) && ValueFits(lv, prefix, suffix)
    ensures ValueAlike(Typed(e), Coded(e), lv, prefix, suffix)
  {
    hide PlusAlike, ReadAlike, WriteAlike, SizeFits, BumpFits, PlusFits, IndexesFit, IsReference, Denoted, StepBy,
      Bumps;
    IndexesFitKind(lv);
    KindIs(lv);
    if suffix.PlusOperand? {
      PlusFitsAlike(e, lv);
    } else if IsReference(lv) {
      SizeFitsIff(lv);
      SizeFitsAlike(e, lv);
      BumpFitsIff(lv);
    }
  }

  function Fitting(): Use -> bool {
    u => UseFits(u)
  }

  function FittingIn(): (nat, Use) -> bool {
    (b, u) => UseFits(u)
  }

  lemma UseFitsAlike(e: Env, u: Use)
    requires UseFits(u)
    ensures UseAlike(Typed(e), Coded(e), u)
  {
    hide IndexesAlike, ValueAlike, ReadAlike, WriteAlike, IndexesFit, ValueFits, SizeFits, AmountFits, Denoted,
      WriteMem;
    match u
    case InOperand(o) =>
      if o.Value? {
        IndexesFitAlike(e, o.lv);
        ValueFitsAlike(e, o.lv, o.prefix, o.suffix);
      } else if o.AddressOf? {
        IndexesFitAlike(e, o.lv);
      }
    case InAssign(x) =>
      IndexesFitAlike(e, x.lv);
      IndexesFitKind(x.lv);
      KindIs(x.lv);
      SizeFitsIff(x.lv);
      SizeFitsAlike(e, x.lv);
      if x.Update? { AmountFitsIff(x.lv); }
    case InInit(i) => InitFitsAlike(e, i);
  }

  lemma InitFitsAlike(e: Env, i: Init)
    requires i.size == i.own
    ensures InitAlike(Typed(e), Coded(e), i)
  {
    hide IlMachine.Store, Permits;
  }

  lemma FittingAlike(e: Env)
    ensures AllAlike(Fitting(), Typed(e), Coded(e))
  {
    hide UseFits, UseAlike;
    forall u | Fitting()(u) ensures UseAlike(Typed(e), Coded(e), u) { UseFitsAlike(e, u); }
  }

  lemma FittingAlikeInside(e: Env)
    ensures AlikeInside(FittingIn(), Typed(e), Coded(e))
  {
    hide UseFits, UseAlike;
    forall b: nat, u: Use | FittingIn()(b, u) ensures UseAlike(Inside(Typed(e), b), Inside(Coded(e), b), u) {
      assert Inside(Typed(e), b) == Typed(Inside(e, b)) && Inside(Coded(e), b) == Coded(Inside(e, b));
      UseFitsAlike(Inside(e, b), u);
    }
  }

  /** What an expression, an assignment or a statement means by the rules of the language is what the code computes,
      where all its uses of variables meet the conditions. */
  lemma ExprTyped(e: Env, x: Expr, mem: Mem)
    requires ExprUses(Fitting(), x)
    ensures EvalExpr(Typed(e), x, mem) == EvalExpr(Coded(e), x, mem)
  {
    hide AllAlike;
    FittingAlike(e);
    ExprSame(Fitting(), Typed(e), Coded(e), x, mem);
  }

  lemma AssignTyped(e: Env, x: Assign, mem: Mem)
    requires AssignUses(Fitting(), x)
    ensures EvalAssign(Typed(e), x, mem) == EvalAssign(Coded(e), x, mem)
  {
    hide AllAlike;
    FittingAlike(e);
    AssignSame(Fitting(), Typed(e), Coded(e), x, mem);
  }

  lemma StmtTyped(e: Env, b: nat, s: Stmt, mem: Mem, n: nat, fuel: nat)
    requires StmtUses(FittingIn(), b, s)
    ensures EvalStmt(Inside(Typed(e), b), s, mem, n, fuel) == EvalStmt(Inside(Coded(e), b), s, mem, n, fuel)
  {
    hide AlikeInside;
    FittingAlikeInside(e);
    StmtSame(FittingIn(), Typed(e), Coded(e), b, s, mem, n, fuel);
  }

  // ----- where the code goes wrong -----

  function Number(k: int): Operand {
    Num(k, false, Character)
  }

  function Literal(k: int): Expr {
    Expr(Number(k), [])
  }

  lemma LiteralValue(e: Env, k: int, mem: Mem)
    ensures EvalExpr(e, Literal(k), mem) == Some(Result(Wrap(k), mem))
  {
    var vs := [Wrap(k)];
    assert vs + [] == vs && Ops([]) == [];
  }

  lemma OneIndex(e: Env, lv: LValue, k: int, start: Word, mem: Mem)
    requires lv.name in e.addr && lv.indexes == [Literal(k)]
    requires IndexStart(e, lv, 0, e.addr[lv.name], mem) == Some(start)
    ensures EvalLValue(e, lv, mem) == Some(Result(Advance(start, Wrap(k), IndexSize(e.typed, lv, 0)), mem))
  {
    hide IndexStart, IndexSize, Advance;
    var es := lv.indexes;
    assert es[0] == Literal(k) && es[1..] == [];
    LiteralValue(e, k, mem);
    hide EvalExpr, Literal;
    var b := Advance(start, Wrap(k), IndexSize(e.typed, lv, 0));
    assert EvalIndexes(e, lv, 1, es[1..], b, mem) == Some(Result(b, mem));
    assert EvalIndexes(e, lv, 0, es, e.addr[lv.name], mem) == EvalIndexes(e, lv, 1, es[1..], b, mem);
  }

  lemma ElementUpdated(e: Env, mem: Mem, p: Word, v: Word, lv: LValue, amount: Word)
    requires lv == LValue("p", 1, 0, 0, 4, [Literal(0)]) && AmountBy(e.typed, lv) == amount
    requires "p" in e.addr && ReadMem(e, mem, e.addr["p"], 4) == Some(p)
    requires ReadMem(e, mem, p, 4) == Some(v) && Permits(e.access.write, p, 4)
    ensures EvalAssign(e, Update(lv, Add, Some(Literal(1))), mem) == Some(StoreWord(mem, p, Wrap(v + amount)))
  {
    hide LoadWord, StoreWord, Permits;
    OneIndex(e, lv, 0, p, mem);
    LiteralValue(e, 1, mem);
    hide EvalLValue, EvalExpr, ReadMem;
  }

  /** `int *p;` and `p[0] += 1;`: the element grows by four. */
  lemma ElementIncremented(e: Env, mem: Mem, p: Word, v: Word)
    requires "p" in e.addr && ReadMem(e, mem, e.addr["p"], 4) == Some(p)
    requires ReadMem(e, mem, p, 4) == Some(v) && Permits(e.access.write, p, 4)
    ensures var x := Update(LValue("p", 1, 0, 0, 4, [Literal(0)]), Add, Some(Literal(1)));
            && EvalAssign(Typed(e), x, mem) == Some(StoreWord(mem, p, Wrap(v + 1)))
            && EvalAssign(Coded(e), x, mem) == Some(StoreWord(mem, p, Wrap(v + 4)))
  {
    hide LoadWord, StoreWord, EvalAssign;
    var lv := LValue("p", 1, 0, 0, 4, [Literal(0)]);
    ElementUpdated(Typed(e), mem, p, v, lv, 1);
    ElementUpdated(Coded(e), mem, p, v, lv, 4);
  }

  /** `int *p;` and `p++` in an expression: the pointer moves by one byte. */
  lemma PointerBumped(e: Env, mem: Mem, p: Word)
    requires "p" in e.addr && ReadMem(e, mem, e.addr["p"], 4) == Some(p) && Permits(e.access.write, e.addr["p"], 4)
    ensures var o := Value(LValue("p", 1, 0, 0, 4, []), None, PostIncrement, false, [], false);
            && EvalOperand(Typed(e), o, mem) == Some(Result(p, StoreWord(mem, e.addr["p"], Wrap(p + 4))))
            && EvalOperand(Coded(e), o, mem) == Some(Result(p, StoreWord(mem, e.addr["p"], Wrap(p + 1))))
  {
    hide LoadWord, StoreWord, Permits;
  }

  /** A parameter `char *q[]` and `q++;`: it moves by one byte instead of one pointer. */
  lemma PointerToPointersBumped(e: Env, mem: Mem, q: Word)
    requires "q" in e.addr && ReadMem(e, mem, e.addr["q"], 4) == Some(q) && Permits(e.access.write, e.addr["q"], 4)
    ensures var x := Update(LValue("q", 2, 0, 0, 1, []), Add, None);
            && EvalAssign(Typed(e), x, mem) == Some(StoreWord(mem, e.addr["q"], Wrap(q + 4)))
            && EvalAssign(Coded(e), x, mem) == Some(StoreWord(mem, e.addr["q"], Wrap(q + 1)))
  {
    hide LoadWord, StoreWord, Permits;
  }

  lemma OneAdded(e: Env, lv: LValue, a: Word, start: Word, mem: Mem)
    requires EvalLValue(e, lv, mem) == Some(Result(a, mem)) && PlusStart(e, lv, a, mem) == Some(start)
    ensures EvalOperand(e, Value(lv, None, PlusOperand(Number(1)), false, [], false), mem)
         == Some(Result(Advance(start, 1, PlusSize(e.typed, lv)), mem))
  {
    hide EvalLValue, PlusStart, PlusSize, Advance;
    assert EvalOperand(e, Number(1), mem) == Some(Result(1, mem));
  }

  /** `int a[10];` and `a[0] + 1`: an element with a plus behind it is taken for a pointer, so four is added. */
  lemma ElementPlusOne(e: Env, mem: Mem, v: Word)
    requires "a" in e.addr && ReadMem(e, mem, e.addr["a"], 4) == Some(v)
    ensures var o := Value(LValue("a", 0, 0, 10, 4, [Literal(0)]), None, PlusOperand(Number(1)), false, [], false);
            && EvalOperand(Typed(e), o, mem) == Some(Result(Wrap(v + 1), mem))
            && EvalOperand(Coded(e), o, mem) == Some(Result(Wrap(v + 4), mem))
  {
    hide LoadWord, Permits;
    var lv, a := LValue("a", 0, 0, 10, 4, [Literal(0)]), e.addr["a"];
    OneIndex(Typed(e), lv, 0, a, mem);
    OneIndex(Coded(e), lv, 0, a, mem);
    OneAdded(Typed(e), lv, a, v, mem);
    OneAdded(Coded(e), lv, a, v, mem);
    hide EvalLValue, EvalOperand, ReadMem;
  }

  /** `char *names[4];` and `names[1]`: not the second pointer, but the second byte of what the first one points to. */
  lemma PointerSelected(e: Env, mem: Mem, first: Word)
    requires "names" in e.addr && ReadMem(e, mem, e.addr["names"], 4) == Some(first)
    ensures var lv, a: int := LValue("names", 1, 0, 4, 1, [Literal(1)]), e.addr["names"];
            && EvalLValue(Typed(e), lv, mem) == Some(Result(Wrap(a + 4), mem))
            && EvalLValue(Coded(e), lv, mem) == Some(Result(Wrap(first + 1), mem))
            && SizeBy(true, lv) == 4 && SizeBy(false, lv) == 1
  {
    hide LoadWord, Permits;
    var lv := LValue("names", 1, 0, 4, 1, [Literal(1)]);
    OneIndex(Typed(e), lv, 1, e.addr["names"], mem);
    OneIndex(Coded(e), lv, 1, first, mem);
    hide EvalLValue, ReadMem;
  }
}
