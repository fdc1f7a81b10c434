/** Two sets of surroundings that treat every variable used in a statement alike give the statement the same meaning. */
module Uses {
  import opened Words
  import opened Il
  import opened Ast
  import opened CTypes
  import opened Semantics
  import opened StmtSemantics

  /** A place where a variable is used: a value or address in an expression, an assignment, an initialised
      declaration. */
  datatype Use = InOperand(o: Operand) | InAssign(x: Assign) | InInit(i: Init)

  // ----- every use in a piece of the program satisfies q -----

  predicate ExprUses(q: Use -> bool, e: Expr)
    decreases e, 0
  {
    OperandUses(q, e.first) && TermsUses(q, e.rest)
  }

  predicate TermUses(q: Use -> bool, t: Term)
    decreases t, 0
  {
    OperandUses(q, t.operand)
  }

  predicate TermsUses(q: Use -> bool, rest: seq<Term>)
    decreases rest, 0
  {
    rest != [] ==> TermUses(q, rest[0]) && TermsUses(q, rest[1..])
  }

  predicate ExprsUses(q: Use -> bool, es: seq<Expr>)
    decreases es, 0
  {
    es != [] ==> ExprUses(q, es[0]) && ExprsUses(q, es[1..])
  }

  predicate LValueUses(q: Use -> bool, lv: LValue)
    decreases lv, 0
  {
    ExprsUses(q, lv.indexes)
  }

  predicate SuffixUses(q: Use -> bool, suffix: Suffix)
    decreases suffix, 0
  {
    suffix.PlusOperand? ==> OperandUses(q, suffix.o)
  }

  predicate OperandUses(q: Use -> bool, o: Operand)
    decreases o, 0
  {
    match o
    case LogNot(o1) => OperandUses(q, o1)
    case Paren(e, _) => ExprUses(q, e)
    case Value(lv, _, suffix, _, args, _) =>
      q(InOperand(o)) && LValueUses(q, lv) && SuffixUses(q, suffix) && ExprsUses(q, args)
    case AddressOf(lv) => q(InOperand(o)) && LValueUses(q, lv)
    case Call(_, args, _) => ExprsUses(q, args)
    case _ => true
  }

  predicate OptExprUses(q: Use -> bool, e: Option<Expr>) {
    match e case None => true case Some(x) => ExprUses(q, x)
  }

  predicate AssignUses(q: Use -> bool, x: Assign) {
    && q(InAssign(x)) && LValueUses(q, x.lv)
    && match x
       case Store(_, value) => ExprUses(q, value)
       case Update(_, _, amount) => OptExprUses(q, amount)
       case CallThrough(_, args) => ExprsUses(q, args)
  }

  predicate OptAssignUses(q: Use -> bool, x: Option<Assign>) {
    match x case None => true case Some(a) => AssignUses(q, a)
  }

  predicate InitsUses(q: Use -> bool, inits: seq<Init>) {
    inits != [] ==> q(InInit(inits[0])) && ExprUses(q, inits[0].value) && InitsUses(q, inits[1..])
  }

  function UseIn(p: (nat, Use) -> bool, b: nat): Use -> bool {
    u => p(b, u)
  }

  /** Every use in statement s of block b satisfies p; so do those in inner blocks. */
  predicate StmtUses(p: (nat, Use) -> bool, b: nat, s: Stmt)
    decreases s, 0
  {
    var q := UseIn(p, b);
    match s
    case Compound(id, body) => StmtsUses(p, id, body)
    case ReturnFrom(_, value) => OptExprUses(q, value)
    case If(cond, thn, els) =>
      ExprUses(q, cond) && StmtUses(p, b, thn) && (match els case None => true case Some(e) => StmtUses(p, b, e))
    case While(cond, body) => ExprUses(q, cond) && StmtUses(p, b, body)
    case DoWhile(body, cond) => ExprUses(q, cond) && StmtUses(p, b, body)
    case For(init, test, step, body) =>
      OptAssignUses(q, init) && OptExprUses(q, test) && OptAssignUses(q, step) && StmtUses(p, b, body)
    case Switch(on, clauses) => ExprUses(q, on) && ClausesUses(p, b, clauses)
    case Break(_) => true
    case Empty => true
    case Declare(_, ds) => InitsUses(q, InitsOf(ds))
    case Evaluate(o) => OperandUses(q, o)
    case Assignment(a) => AssignUses(q, a)
  }

  predicate StmtsUses(p: (nat, Use) -> bool, b: nat, ss: seq<Stmt>)
    decreases ss, 0
  {
    ss != [] ==> StmtUses(p, b, ss[0]) && StmtsUses(p, b, ss[1..])
  }

  predicate ClauseUses(p: (nat, Use) -> bool, b: nat, c: Clause)
    decreases c, 0
  {
    StmtsUses(p, b, c.body)
  }

  predicate ClausesUses(p: (nat, Use) -> bool, b: nat, cs: seq<Clause>)
    decreases cs, 0
  {
    forall k :: 0 <= k < |cs| ==> ClauseUses(p, b, cs[k])
  }

  // ----- surroundings that treat a use alike -----

  /** They may differ in the rules for pointers and in what may be read and written. */
  ghost predicate Pair(e: Env, f: Env) {
    f == e.(typed := f.typed, access := f.access, accesses := f.accesses)
  }

  /** The addresses an lvalue can have: for a variable by itself there is just one. */
  ghost predicate Reached(e: Env, lv: LValue, a: Word) {
    lv.indexes == [] ==> lv.name in e.addr && a == e.addr[lv.name]
  }

  ghost predicate StepAlike(e: Env, f: Env, lv: LValue, k: nat) {
    && IndexSize(e.typed, lv, k) == IndexSize(f.typed, lv, k)
    && forall a, mem :: IndexStart(e, lv, k, a, mem) == IndexStart(f, lv, k, a, mem)
  }

  ghost predicate IndexesAlike(e: Env, f: Env, lv: LValue) {
    forall k: nat :: k < |lv.indexes| ==> StepAlike(e, f, lv, k)
  }

  ghost predicate ReadAlike(e: Env, f: Env, lv: LValue) {
    forall a, mem :: Reached(e, lv, a) ==>
      ReadMem(e, mem, a, SizeBy(e.typed, lv)) == ReadMem(f, mem, a, SizeBy(f.typed, lv))
  }

  ghost predicate WriteAlike(e: Env, f: Env, lv: LValue) {
    forall a, mem, v :: Reached(e, lv, a) ==>
      WriteMem(e, mem, a, SizeBy(e.typed, lv), v) == WriteMem(f, mem, a, SizeBy(f.typed, lv), v)
  }

  ghost predicate PlusAlike(e: Env, f: Env, lv: LValue) {
    && PlusSize(e.typed, lv) == PlusSize(f.typed, lv)
    && forall a, mem :: Reached(e, lv, a) ==> PlusStart(e, lv, a, mem) == PlusStart(f, lv, a, mem)
  }

  predicate Bumps(prefix: Option<BinaryOp>, suffix: Suffix) {
    prefix.Some? || suffix.PostIncrement? || suffix.PostDecrement?
  }

  ghost predicate ValueAlike(e: Env, f: Env, lv: LValue, prefix: Option<BinaryOp>, suffix: Suffix) {
    if suffix.PlusOperand? then PlusAlike(e, f, lv)
    else
      && AccessibleBy(e.typed, lv) == AccessibleBy(f.typed, lv)
      && (!AccessibleBy(e.typed, lv) ==> (e.typed && Denoted(lv).NoType?) == (f.typed && Denoted(lv).NoType?))
      && (AccessibleBy(e.typed, lv) ==>
            && ReadAlike(e, f, lv)
            && (Bumps(prefix, suffix) ==> WriteAlike(e, f, lv) && StepBy(e.typed, lv) == StepBy(f.typed, lv)))
  }

  ghost predicate AssignAlike(e: Env, f: Env, x: Assign) {
    && (e.typed && !CTypes.Readable(Denoted(x.lv))) == (f.typed && !CTypes.Readable(Denoted(x.lv)))
    && IndexesAlike(e, f, x.lv) && (!x.Store? ==> ReadAlike(e, f, x.lv)) && (!x.CallThrough? ==> WriteAlike(e, f, x.lv))
    && (x.Update? ==> AmountBy(e.typed, x.lv) == AmountBy(f.typed, x.lv))
  }

  function InitSize(typed: bool, i: Init): int {
    if typed then i.own else i.size
  }

  ghost predicate InitAlike(e: Env, f: Env, i: Init) {
    i.name in e.addr ==>
      forall mem, v :: WriteMem(e, mem, e.addr[i.name], InitSize(e.typed, i), v)
                    == WriteMem(f, mem, e.addr[i.name], InitSize(f.typed, i), v)
  }

  ghost predicate UseAlike(e: Env, f: Env, u: Use) {
    match u
    case InOperand(o) =>
      if o.Value? then IndexesAlike(e, f, o.lv) && ValueAlike(e, f, o.lv, o.prefix, o.suffix)
      else o.AddressOf? ==> IndexesAlike(e, f, o.lv)
    case InAssign(x) => AssignAlike(e, f, x)
    case InInit(i) => InitAlike(e, f, i)
  }

  ghost predicate AllAlike(q: Use -> bool, e: Env, f: Env) {
    Pair(e, f) && forall u :: q(u) ==> UseAlike(e, f, u)
  }

  // ----- expressions -----

  lemma StepSame(e: Env, f: Env, lv: LValue, k: nat, a: Word, mem: Mem)
    requires IndexesAlike(e, f, lv) && k < |lv.indexes|
    ensures IndexStart(e, lv, k, a, mem) == IndexStart(f, lv, k, a, mem)
    ensures IndexSize(e.typed, lv, k) == IndexSize(f.typed, lv, k)
  {
    hide IndexStart, IndexSize;
    assert StepAlike(e, f, lv, k);
  }

  lemma {:induction false} IndexesSame(q: Use -> bool, e: Env, f: Env, lv: LValue, k: nat, es: seq<Expr>, a: Word,
                                       mem: Mem)
    requires AllAlike(q, e, f) && IndexesAlike(e, f, lv) && ExprsUses(q, es) && k + |es| == |lv.indexes|
    ensures EvalIndexes(e, lv, k, es, a, mem) == EvalIndexes(f, lv, k, es, a, mem)
    decreases es, 0
  {
    hide IndexStart, IndexSize, Advance, AllAlike, IndexesAlike, EvalExpr;
    if es != [] {
      StepSame(e, f, lv, k, a, mem);
      ExprSame(q, e, f, es[0], mem);
      var start, r := IndexStart(e, lv, k, a, mem), EvalExpr(e, es[0], mem);
      if start.Some? && r.Some? {
        var b := Advance(start.value, r.value.v, IndexSize(e.typed, lv, k));
        IndexesSame(q, e, f, lv, k + 1, es[1..], b, r.value.mem);
      }
    }
  }

  lemma {:induction false} LValueSame(q: Use -> bool, e: Env, f: Env, lv: LValue, mem: Mem)
    requires AllAlike(q, e, f) && IndexesAlike(e, f, lv) && LValueUses(q, lv)
    ensures EvalLValue(e, lv, mem) == EvalLValue(f, lv, mem)
    ensures EvalLValue(e, lv, mem).Some? ==> Reached(e, lv, EvalLValue(e, lv, mem).value.v)
    decreases lv, 0
  {
    hide IndexStart, IndexSize, Advance, IndexesAlike;
    if lv.name in e.addr { IndexesSame(q, e, f, lv, 0, lv.indexes, e.addr[lv.name], mem); }
  }

  lemma BumpSame(e: Env, f: Env, lv: LValue, op: BinaryOp, a: Word, mem: Mem)
    requires ReadAlike(e, f, lv) && WriteAlike(e, f, lv) && StepBy(e.typed, lv) == StepBy(f.typed, lv)
    requires Reached(e, lv, a)
    ensures Bump(e, op, a, SizeBy(e.typed, lv), StepBy(e.typed, lv), mem)
         == Bump(f, op, a, SizeBy(f.typed, lv), StepBy(f.typed, lv), mem)
  {
    hide ReadMem, WriteMem, SizeBy, StepBy, Binary, Reached;
  }

  lemma {:induction false} SuffixSame(q: Use -> bool, e: Env, f: Env, lv: LValue, prefix: Option<BinaryOp>,
                                      suffix: Suffix, a: Word, mem: Mem)
    requires AllAlike(q, e, f) && ValueAlike(e, f, lv, prefix, suffix) && SuffixUses(q, suffix) && Reached(e, lv, a)
    ensures EvalSuffix(e, lv, prefix, suffix, a, mem) == EvalSuffix(f, lv, prefix, suffix, a, mem)
    decreases suffix, 0
  {
    hide ReadMem, WriteMem, SizeBy, StepBy, PlusStart, PlusSize, Advance, Reached, AllAlike, Denoted, AccessibleBy,
      Bump;
    if suffix.PlusOperand? {
      OperandSame(q, e, f, suffix.o, mem);
    } else if AccessibleBy(e.typed, lv) {
      if prefix.Some? { BumpSame(e, f, lv, prefix.value, a, mem); }
      var size, step := SizeBy(e.typed, lv), StepBy(e.typed, lv);
      var bumped :=
        match prefix case None => Some(Result(0, mem)) case Some(op) => Bump(e, op, a, size, step, mem);
      if bumped.Some? {
        if suffix.PostIncrement? { BumpSame(e, f, lv, Add, a, bumped.value.mem); }
        if suffix.PostDecrement? { BumpSame(e, f, lv, Sub, a, bumped.value.mem); }
      }
    }
  }

  lemma {:induction false} ArgsSame(q: Use -> bool, e: Env, f: Env, es: seq<Expr>, mem: Mem)
    requires AllAlike(q, e, f) && ExprsUses(q, es)
    ensures EvalArgs(e, es, mem) == EvalArgs(f, es, mem)
    decreases es, 0
  {
    hide AllAlike;
    if es != [] {
      ExprSame(q, e, f, es[0], mem);
      var r := EvalExpr(e, es[0], mem);
      if r.Some? { ArgsSame(q, e, f, es[1..], r.value.mem); }
    }
  }

  lemma {:induction false} ValueSame(q: Use -> bool, e: Env, f: Env, o: Operand, mem: Mem)
    requires AllAlike(q, e, f) && OperandUses(q, o) && o.Value?
    ensures EvalOperand(e, o, mem) == EvalOperand(f, o, mem)
    decreases o, 0
  {
    assert Pair(e, f) && UseAlike(e, f, InOperand(o));
    hide AllAlike, EvalLValue, EvalSuffix, EvalArgs, LValueUses, SuffixUses, ExprsUses, ValueAlike, IndexesAlike,
      Reached;
    LValueSame(q, e, f, o.lv, mem);
    var a := EvalLValue(e, o.lv, mem);
    if a.Some? {
      SuffixSame(q, e, f, o.lv, o.prefix, o.suffix, a.value.v, a.value.mem);
      var r := EvalSuffix(e, o.lv, o.prefix, o.suffix, a.value.v, a.value.mem);
      if r.Some? { ArgsSame(q, e, f, o.args, r.value.mem); }
    }
  }

  lemma {:induction false} OperandSame(q: Use -> bool, e: Env, f: Env, o: Operand, mem: Mem)
    requires AllAlike(q, e, f) && OperandUses(q, o)
    ensures EvalOperand(e, o, mem) == EvalOperand(f, o, mem)
    decreases o, 1
  {
    hide ValueAlike, IndexesAlike, Reached;
    match o
    case LogNot(o1) => OperandSame(q, e, f, o1, mem);
    case Paren(x, _) => ExprSame(q, e, f, x, mem);
    case Value(lv, prefix, suffix, calls, args, _) =>
      ValueSame(q, e, f, o, mem);
    case AddressOf(lv) =>
      assert UseAlike(e, f, InOperand(o));
      LValueSame(q, e, f, lv, mem);
    case Call(_, args, _) => ArgsSame(q, e, f, args, mem);
    case _ =>
  }

  lemma {:induction false} TermsSame(q: Use -> bool, e: Env, f: Env, rest: seq<Term>, mem: Mem)
    requires AllAlike(q, e, f) && TermsUses(q, rest)
    ensures EvalTerms(e, rest, mem) == EvalTerms(f, rest, mem)
    decreases rest, 0
  {
    hide AllAlike;
    if rest != [] {
      TermSame(q, e, f, rest[0], mem);
      var r := EvalTerm(e, rest[0], mem);
      if r.Some? { TermsSame(q, e, f, rest[1..], r.value.mem); }
    }
  }

  lemma {:induction false} TermSame(q: Use -> bool, e: Env, f: Env, t: Term, mem: Mem)
    requires AllAlike(q, e, f) && TermUses(q, t)
    ensures EvalTerm(e, t, mem) == EvalTerm(f, t, mem)
    decreases t, 0
  {
    OperandSame(q, e, f, t.operand, mem);
  }

  lemma {:induction false} ExprSame(q: Use -> bool, e: Env, f: Env, x: Expr, mem: Mem)
    requires AllAlike(q, e, f) && ExprUses(q, x)
    ensures EvalExpr(e, x, mem) == EvalExpr(f, x, mem)
    decreases x, 0
  {
    hide AllAlike;
    OperandSame(q, e, f, x.first, mem);
    var r := EvalOperand(e, x.first, mem);
    if r.Some? { TermsSame(q, e, f, x.rest, r.value.mem); }
  }

  // ----- statements -----

  lemma UpdateSame(q: Use -> bool, e: Env, f: Env, lv: LValue, op: BinaryOp, amount: Option<Expr>, a: Word, mem: Mem)
    requires AllAlike(q, e, f) && AssignAlike(e, f, Update(lv, op, amount)) && OptExprUses(q, amount)
    requires Reached(e, lv, a)
    ensures EvalUpdate(e, lv, op, amount, a, mem) == EvalUpdate(f, lv, op, amount, a, mem)
  {
    hide AllAlike, ReadMem, WriteMem, SizeBy, Reached, IndexesAlike, ReadAlike, WriteAlike, Denoted, Binary, EvalAmount;
    AmountSame(q, e, f, lv, amount, mem);
    ReadSame(e, f, lv, a, mem);
    var r := EvalAmount(e, lv, amount, mem);
    if r.Some? && ReadMem(e, mem, a, SizeBy(e.typed, lv)).Some? {
      WriteSame(e, f, lv, a, r.value.mem, Binary(op, ReadMem(e, mem, a, SizeBy(e.typed, lv)).value, r.value.v));
    }
  }

  lemma AmountSame(q: Use -> bool, e: Env, f: Env, lv: LValue, amount: Option<Expr>, mem: Mem)
    requires AllAlike(q, e, f) && OptExprUses(q, amount) && AmountBy(e.typed, lv) == AmountBy(f.typed, lv)
    ensures EvalAmount(e, lv, amount, mem) == EvalAmount(f, lv, amount, mem)
  {
    hide AllAlike, AmountBy, Binary, EvalExpr;
    if amount.Some? { ExprSame(q, e, f, amount.value, mem); }
  }

  lemma ReadSame(e: Env, f: Env, lv: LValue, a: Word, mem: Mem)
    requires ReadAlike(e, f, lv) && Reached(e, lv, a)
    ensures ReadMem(e, mem, a, SizeBy(e.typed, lv)) == ReadMem(f, mem, a, SizeBy(f.typed, lv))
  {
    hide ReadMem, SizeBy, Reached;
  }

  lemma WriteSame(e: Env, f: Env, lv: LValue, a: Word, mem: Mem, v: Word)
    requires WriteAlike(e, f, lv) && Reached(e, lv, a)
    ensures WriteMem(e, mem, a, SizeBy(e.typed, lv), v) == WriteMem(f, mem, a, SizeBy(f.typed, lv), v)
  {
    hide WriteMem, SizeBy, Reached;
  }

  /** The part of an assignment behind its address. */
  ghost function AssignAt(e: Env, x: Assign, a: Word, mem: Mem): Option<Mem> {
    match x
    case Store(lv, value) =>
      (match EvalExpr(e, value, mem)
       case None => None
       case Some(r) => WriteMem(e, r.mem, a, SizeBy(e.typed, lv), r.v))
    case Update(lv, op, amount) => EvalUpdate(e, lv, op, amount, a, mem)
    case CallThrough(lv, args) =>
      match ReadMem(e, mem, a, SizeBy(e.typed, lv))
      case None => None
      case Some(f) => match EvalPointerCall(e, f, args, mem) case None => None case Some(r) => Some(r.mem)
  }

  lemma AssignUnfold(e: Env, x: Assign, mem: Mem)
    ensures EvalAssign(e, x, mem)
         == if e.typed && !CTypes.Readable(Denoted(x.lv)) then None
            else match EvalLValue(e, x.lv, mem) case None => None case Some(a) => AssignAt(e, x, a.v, a.mem)
  {
    hide ReadMem, WriteMem, SizeBy, EvalUpdate, EvalExpr, EvalLValue, EvalPointerCall, Denoted;
  }

  lemma AssignAtSame(q: Use -> bool, e: Env, f: Env, x: Assign, a: Word, mem: Mem)
    requires AllAlike(q, e, f) && AssignUses(q, x) && AssignAlike(e, f, x) && Reached(e, x.lv, a)
    ensures AssignAt(e, x, a, mem) == AssignAt(f, x, a, mem)
  {
    hide ReadMem, WriteMem, SizeBy, AmountBy, Reached, IndexesAlike, ReadAlike, WriteAlike, Denoted, EvalUpdate,
      EvalExpr;
    assert Pair(e, f);
    hide AllAlike;
    match x
    case Store(lv, value) =>
      ExprSame(q, e, f, value, mem);
      var r := EvalExpr(e, value, mem);
      if r.Some? { WriteSame(e, f, lv, a, r.value.mem, r.value.v); }
    case Update(lv, op, amount) => UpdateSame(q, e, f, lv, op, amount, a, mem);
    case CallThrough(lv, args) =>
      ReadSame(e, f, lv, a, mem);
      ArgsSame(q, e, f, args, mem);
  }

  lemma AssignSame(q: Use -> bool, e: Env, f: Env, x: Assign, mem: Mem)
    requires AllAlike(q, e, f) && AssignUses(q, x)
    ensures EvalAssign(e, x, mem) == EvalAssign(f, x, mem)
  {
    hide ReadMem, WriteMem, SizeBy, AmountBy, Reached, IndexesAlike, ReadAlike, WriteAlike, Denoted, AssignAt,
      EvalAssign, EvalLValue, ExprUses, ExprsUses, OptExprUses;
    assert UseAlike(e, f, InAssign(x));
    hide AllAlike;
    AssignUnfold(e, x, mem);
    AssignUnfold(f, x, mem);
    LValueSame(q, e, f, x.lv, mem);
    var a := EvalLValue(e, x.lv, mem);
    if a.Some? { AssignAtSame(q, e, f, x, a.value.v, a.value.mem); }
  }

  lemma {:induction false} InitsSame(q: Use -> bool, e: Env, f: Env, inits: seq<Init>, mem: Mem)
    requires AllAlike(q, e, f) && InitsUses(q, inits)
    ensures EvalInits(e, inits, mem) == EvalInits(f, inits, mem)
  {
    hide WriteMem;
    if inits != [] {
      assert UseAlike(e, f, InInit(inits[0]));
      ExprSame(q, e, f, inits[0].value, mem);
      var r := EvalExpr(e, inits[0].value, mem);
      if r.Some? && inits[0].name in e.addr {
        var m := WriteMem(e, r.value.mem, e.addr[inits[0].name], InitSize(e.typed, inits[0]), r.value.v);
        if m.Some? { InitsSame(q, e, f, inits[1..], m.value); }
      }
    }
  }

  /** In every block. */
  ghost predicate AlikeInside(p: (nat, Use) -> bool, e: Env, f: Env) {
    Pair(e, f) && forall b: nat, u: Use :: p(b, u) ==> UseAlike(Inside(e, b), Inside(f, b), u)
  }

  lemma AlikeIn(p: (nat, Use) -> bool, e: Env, f: Env, b: nat)
    requires AlikeInside(p, e, f)
    ensures AllAlike(UseIn(p, b), Inside(e, b), Inside(f, b))
  {
    hide UseAlike;
    forall u | UseIn(p, b)(u) ensures UseAlike(Inside(e, b), Inside(f, b), u) { assert p(b, u); }
  }

  lemma InsideAgain(e: Env, b: nat, id: nat)
    ensures Inside(Inside(e, b), id) == Inside(e, id)
  {
  }

  lemma OptAssignSame(q: Use -> bool, e: Env, f: Env, x: Option<Assign>, mem: Mem)
    requires AllAlike(q, e, f) && OptAssignUses(q, x)
    ensures EvalOptAssign(e, x, mem) == EvalOptAssign(f, x, mem)
  {
    hide AllAlike;
    if x.Some? { AssignSame(q, e, f, x.value, mem); }
  }

  /** Surroundings that treat all uses of a statement alike give it the same outcome. */
  lemma {:induction false} StmtSame(p: (nat, Use) -> bool, e: Env, f: Env, b: nat, s: Stmt, mem: Mem, n: nat, fuel: nat)
    requires AlikeInside(p, e, f) && StmtUses(p, b, s)
    ensures EvalStmt(Inside(e, b), s, mem, n, fuel) == EvalStmt(Inside(f, b), s, mem, n, fuel)
    decreases fuel, s, 1
  {
    var q, g, h := UseIn(p, b), Inside(e, b), Inside(f, b);
    AlikeIn(p, e, f, b);
    hide AllAlike, AlikeInside, Inside, Exposed, EvalExpr, EvalOptAssign, EvalAssign, EvalInits, EvalOperand, EvalStmts,
      EvalClauses, EvalFor, ExprUses, OptAssignUses, AssignUses, InitsUses, OperandUses, StmtsUses, Select;
    match s
    case Compound(id, body) =>
      InsideAgain(e, b, id);
      InsideAgain(f, b, id);
      ExposedSame(p, e, f, b, id, n, mem);
      StmtsSame(p, e, f, id, body, Exposed(g, id, n, mem), n + 1, fuel);
    case ReturnFrom(_, value) => if value.Some? { ExprSame(q, g, h, value.value, mem); }
    case If(_, _, _) => IfSame(p, e, f, b, s, mem, n, fuel);
    case While(_, _) => WhileSame(p, e, f, b, s, mem, n, fuel);
    case DoWhile(_, _) => DoSame(p, e, f, b, s, mem, n, fuel);
    case For(init, test, step, body) =>
      OptAssignSame(q, g, h, init, mem);
      var m := EvalOptAssign(g, init, mem);
      if m.Some? { ForSame(p, e, f, b, test, step, body, m.value, n, fuel); }
    case Switch(_, _) => SwitchSame(p, e, f, b, s, mem, n, fuel);
    case Declare(_, ds) => InitsSame(q, g, h, InitsOf(ds), mem);
    case Evaluate(o) => OperandSame(q, g, h, o, mem);
    case Assignment(a) => AssignSame(q, g, h, a, mem);
    case Break(_) =>
    case Empty =>
  }

  lemma ExposedSame(p: (nat, Use) -> bool, e: Env, f: Env, b: nat, id: nat, n: nat, mem: Mem)
    requires AlikeInside(p, e, f)
    ensures Exposed(Inside(e, b), id, n, mem) == Exposed(Inside(f, b), id, n, mem)
  {
    var x, y := Exposed(Inside(e, b), id, n, mem), Exposed(Inside(f, b), id, n, mem);
    forall a | 0 <= a < 0x1_0000_0000 ensures x[a] == y[a] {}
  }

  lemma {:induction false} WhileSame(p: (nat, Use) -> bool, e: Env, f: Env, b: nat, s: Stmt, mem: Mem, n: nat,
                                     fuel: nat)
    requires AlikeInside(p, e, f) && StmtUses(p, b, s) && s.While?
    ensures EvalStmt(Inside(e, b), s, mem, n, fuel) == EvalStmt(Inside(f, b), s, mem, n, fuel)
    decreases fuel, s, 0
  {
    var q, g, h := UseIn(p, b), Inside(e, b), Inside(f, b);
    AlikeIn(p, e, f, b);
    hide AllAlike, AlikeInside, Inside;
    ExprSame(q, g, h, s.cond, mem);
    var r := EvalExpr(g, s.cond, mem);
    if r.Some? && r.value.v != 0 {
      StmtSame(p, e, f, b, s.inner, r.value.mem, n, fuel);
      match EvalStmt(g, s.inner, r.value.mem, n, fuel)
      case Some(Normal(m, k)) => if fuel > 0 { StmtSame(p, e, f, b, s, m, k, fuel - 1); }
      case _ =>
    }
  }

  lemma ConditionSame(p: (nat, Use) -> bool, e: Env, f: Env, b: nat, x: Expr, mem: Mem)
    requires AlikeInside(p, e, f) && ExprUses(UseIn(p, b), x)
    ensures EvalExpr(Inside(e, b), x, mem) == EvalExpr(Inside(f, b), x, mem)
  {
    hide AllAlike, EvalExpr, ExprUses;
    AlikeIn(p, e, f, b);
    ExprSame(UseIn(p, b), Inside(e, b), Inside(f, b), x, mem);
  }

  /** What comes behind the first pass through the body. */
  ghost function DoRest(env: Env, s: Stmt, o: Option<Outcome>, fuel: nat): Option<Outcome>
    requires s.DoWhile?
  {
    match o
    case Some(Normal(m, k)) =>
      (match EvalExpr(env, s.cond, m)
       case None => None
       case Some(r) =>
         if r.v == 0 then Some(Normal(r.mem, k)) else if fuel == 0 then None else EvalStmt(env, s, r.mem, k, fuel - 1))
    case other => other
  }

  lemma DoUnfold(env: Env, s: Stmt, mem: Mem, n: nat, fuel: nat)
    requires s.DoWhile?
    ensures EvalStmt(env, s, mem, n, fuel) == DoRest(env, s, EvalStmt(env, s.inner, mem, n, fuel), fuel)
  {
    hide EvalExpr;
  }

  lemma {:induction false} DoSame(p: (nat, Use) -> bool, e: Env, f: Env, b: nat, s: Stmt, mem: Mem, n: nat, fuel: nat)
    requires AlikeInside(p, e, f) && StmtUses(p, b, s) && s.DoWhile?
    ensures EvalStmt(Inside(e, b), s, mem, n, fuel) == EvalStmt(Inside(f, b), s, mem, n, fuel)
    decreases fuel, s, 0
  {
    var g, h := Inside(e, b), Inside(f, b);
    DoUnfold(g, s, mem, n, fuel);
    DoUnfold(h, s, mem, n, fuel);
    assert StmtUses(p, b, s.inner) && ExprUses(UseIn(p, b), s.cond);
    hide ExprUses, AllAlike, AlikeInside, Inside, EvalExpr, StmtUses, EvalStmt, DoRest;
    StmtSame(p, e, f, b, s.inner, mem, n, fuel);
    DoRestSame(p, e, f, b, s, EvalStmt(g, s.inner, mem, n, fuel), fuel);
  }

  lemma {:induction false} DoRestSame(p: (nat, Use) -> bool, e: Env, f: Env, b: nat, s: Stmt, o: Option<Outcome>,
                                      fuel: nat)
    requires AlikeInside(p, e, f) && StmtUses(p, b, s) && s.DoWhile? && ExprUses(UseIn(p, b), s.cond)
    ensures DoRest(Inside(e, b), s, o, fuel) == DoRest(Inside(f, b), s, o, fuel)
    decreases fuel, s.inner, 3
  {
    hide *;
    var g, h := Inside(e, b), Inside(f, b);
    if o.Some? && o.value.Normal? {
      var m := o.value.mem;
      ConditionSame(p, e, f, b, s.cond, m);
      var r := EvalExpr(g, s.cond, m);
      if r.Some? && fuel > 0 { StmtSame(p, e, f, b, s, r.value.mem, o.value.entered, fuel - 1); }
    }
    DoRestJoin(g, h, s, o, fuel);
  }

  lemma DoRestJoin(g: Env, h: Env, s: Stmt, o: Option<Outcome>, fuel: nat)
    requires s.DoWhile?
    requires o.Some? && o.value.Normal? ==>
               var r := EvalExpr(g, s.cond, o.value.mem);
               && EvalExpr(h, s.cond, o.value.mem) == r
               && (r.Some? && fuel > 0 ==>
                     EvalStmt(g, s, r.value.mem, o.value.entered, fuel - 1)
                     == EvalStmt(h, s, r.value.mem, o.value.entered, fuel - 1))
    ensures DoRest(g, s, o, fuel) == DoRest(h, s, o, fuel)
  {
    hide EvalExpr, EvalStmt;
  }

  lemma {:induction false} IfSame(p: (nat, Use) -> bool, e: Env, f: Env, b: nat, s: Stmt, mem: Mem, n: nat, fuel: nat)
    requires AlikeInside(p, e, f) && StmtUses(p, b, s) && s.If?
    ensures EvalStmt(Inside(e, b), s, mem, n, fuel) == EvalStmt(Inside(f, b), s, mem, n, fuel)
    decreases fuel, s, 0
  {
    hide AllAlike, AlikeInside, Inside, EvalExpr, ExprUses;
    ConditionSame(p, e, f, b, s.cond, mem);
    var r := EvalExpr(Inside(e, b), s.cond, mem);
    if r.Some? {
      StmtSame(p, e, f, b, s.thn, r.value.mem, n, fuel);
      if s.els.Some? { StmtSame(p, e, f, b, s.els.value, r.value.mem, n, fuel); }
    }
  }

  lemma {:induction false} SwitchSame(p: (nat, Use) -> bool, e: Env, f: Env, b: nat, s: Stmt, mem: Mem, n: nat,
                                      fuel: nat)
    requires AlikeInside(p, e, f) && StmtUses(p, b, s) && s.Switch?
    ensures EvalStmt(Inside(e, b), s, mem, n, fuel) == EvalStmt(Inside(f, b), s, mem, n, fuel)
    decreases fuel, s, 0
  {
    hide AllAlike, AlikeInside, Inside, EvalExpr, EvalClauses, ExprUses, ClausesUses, Select;
    ConditionSame(p, e, f, b, s.on, mem);
    var r := EvalExpr(Inside(e, b), s.on, mem);
    if r.Some? && Select(s.clauses, r.value.v).Some? {
      CaseInRange(s.clauses, r.value.v);
      ClausesSame(p, e, f, b, s.clauses, Select(s.clauses, r.value.v).value, r.value.mem, n, fuel);
    }
  }

  lemma TestSame(q: Use -> bool, e: Env, f: Env, test: Option<Expr>, mem: Mem)
    requires AllAlike(q, e, f) && OptExprUses(q, test)
    ensures EvalTest(e, test, mem) == EvalTest(f, test, mem)
  {
    hide AllAlike;
    if test.Some? { ExprSame(q, e, f, test.value, mem); }
  }

  /** Two surroundings in which the parts of one iteration are the same. */
  lemma ForJoin(g: Env, h: Env, test: Option<Expr>, step: Option<Assign>, body: Stmt, mem: Mem, n: nat, fuel: nat)
    requires EvalTest(g, test, mem) == EvalTest(h, test, mem)
    requires var r := EvalTest(g, test, mem); BodyOutcome(g, body, r, n, fuel) == BodyOutcome(h, body, r, n, fuel)
    requires var o := BodyOutcome(g, body, EvalTest(g, test, mem), n, fuel);
             var m := NextMem(g, step, o);
             && NextMem(h, step, o) == m
             && (m.Some? && fuel > 0 ==>
                   EvalFor(g, test, step, body, m.value, NextCount(o), fuel - 1)
                   == EvalFor(h, test, step, body, m.value, NextCount(o), fuel - 1))
    ensures EvalFor(g, test, step, body, mem, n, fuel) == EvalFor(h, test, step, body, mem, n, fuel)
  {
    hide EvalStmt, EvalTest, EvalOptAssign, EvalFor, ForOutcome, BodyOutcome, NextMem;
    ForUnfold(g, test, step, body, mem, n, fuel);
    ForUnfold(h, test, step, body, mem, n, fuel);
  }

  lemma {:induction false} PartsSame(p: (nat, Use) -> bool, e: Env, f: Env, b: nat, test: Option<Expr>,
                                     step: Option<Assign>, body: Stmt, mem: Mem, n: nat, fuel: nat)
    requires AlikeInside(p, e, f) && StmtUses(p, b, body)
    requires OptExprUses(UseIn(p, b), test) && OptAssignUses(UseIn(p, b), step)
    ensures var g, h := Inside(e, b), Inside(f, b);
            var r := EvalTest(g, test, mem);
            var o := BodyOutcome(g, body, r, n, fuel);
            && EvalTest(h, test, mem) == r && BodyOutcome(h, body, r, n, fuel) == o
            && NextMem(h, step, o) == NextMem(g, step, o)
    decreases fuel, body, 2
  {
    var q, g, h := UseIn(p, b), Inside(e, b), Inside(f, b);
    AlikeIn(p, e, f, b);
    hide AllAlike, AlikeInside, Inside, EvalStmt, EvalTest, NextMem, OptExprUses, OptAssignUses, StmtUses;
    TestSame(q, g, h, test, mem);
    var r := EvalTest(g, test, mem);
    if r.Some? { StmtSame(p, e, f, b, body, r.value.mem, n, fuel); }
    var o := BodyOutcome(g, body, r, n, fuel);
    NextSame(q, g, h, step, o);
  }

  lemma NextSame(q: Use -> bool, e: Env, f: Env, step: Option<Assign>, o: Option<Outcome>)
    requires AllAlike(q, e, f) && OptAssignUses(q, step)
    ensures NextMem(f, step, o) == NextMem(e, step, o)
  {
    hide AllAlike, EvalOptAssign, OptAssignUses;
    if o.Some? && o.value.Normal? { OptAssignSame(q, e, f, step, o.value.mem); }
  }

  lemma {:induction false} ForSame(p: (nat, Use) -> bool, e: Env, f: Env, b: nat, test: Option<Expr>,
                                   step: Option<Assign>, body: Stmt, mem: Mem, n: nat, fuel: nat)
    requires AlikeInside(p, e, f) && StmtUses(p, b, body)
    requires OptExprUses(UseIn(p, b), test) && OptAssignUses(UseIn(p, b), step)
    ensures EvalFor(Inside(e, b), test, step, body, mem, n, fuel)
         == EvalFor(Inside(f, b), test, step, body, mem, n, fuel)
    decreases fuel, body, 3
  {
    hide AlikeInside, Inside, EvalTest, OptExprUses, OptAssignUses, StmtUses, EvalFor, NextCount, NextMem, BodyOutcome,
      UseIn;
    var g, h := Inside(e, b), Inside(f, b);
    PartsSame(p, e, f, b, test, step, body, mem, n, fuel);
    var o := BodyOutcome(g, body, EvalTest(g, test, mem), n, fuel);
    var m := NextMem(g, step, o);
    if m.Some? && fuel > 0 { ForSame(p, e, f, b, test, step, body, m.value, NextCount(o), fuel - 1); }
    ForJoin(g, h, test, step, body, mem, n, fuel);
  }

  lemma {:induction false} StmtsSame(p: (nat, Use) -> bool, e: Env, f: Env, b: nat, ss: seq<Stmt>, mem: Mem, n: nat,
                                     fuel: nat)
    requires AlikeInside(p, e, f) && StmtsUses(p, b, ss)
    ensures EvalStmts(Inside(e, b), ss, mem, n, fuel) == EvalStmts(Inside(f, b), ss, mem, n, fuel)
    decreases fuel, ss, 0
  {
    hide AlikeInside, Inside;
    if ss != [] {
      StmtSame(p, e, f, b, ss[0], mem, n, fuel);
      match EvalStmt(Inside(e, b), ss[0], mem, n, fuel)
      case Some(Normal(m, k)) => StmtsSame(p, e, f, b, ss[1..], m, k, fuel);
      case _ =>
    }
  }

  lemma {:induction false} ClauseSame(p: (nat, Use) -> bool, e: Env, f: Env, b: nat, c: Clause, mem: Mem, n: nat,
                                      fuel: nat)
    requires AlikeInside(p, e, f) && ClauseUses(p, b, c)
    ensures EvalClause(Inside(e, b), c, mem, n, fuel) == EvalClause(Inside(f, b), c, mem, n, fuel)
    decreases fuel, c, 0
  {
    hide AlikeInside, Inside;
    StmtsSame(p, e, f, b, c.body, mem, n, fuel);
  }

  lemma {:induction false} ClausesSame(p: (nat, Use) -> bool, e: Env, f: Env, b: nat, cs: seq<Clause>, k: nat, mem: Mem,
                                       n: nat, fuel: nat)
    requires AlikeInside(p, e, f) && ClausesUses(p, b, cs) && k <= |cs|
    ensures EvalClauses(Inside(e, b), cs, k, mem, n, fuel) == EvalClauses(Inside(f, b), cs, k, mem, n, fuel)
    decreases fuel, cs, |cs| - k
  {
    hide AlikeInside, Inside;
    if k < |cs| {
      ClauseSame(p, e, f, b, cs[k], mem, n, fuel);
      match EvalClause(Inside(e, b), cs[k], mem, n, fuel)
      case Some(Normal(m, j)) => ClausesSame(p, e, f, b, cs, k + 1, m, j, fuel);
      case _ =>
    }
  }
}
