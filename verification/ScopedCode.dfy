/** The block in force over a compiled statement's code is, for every name in it, the block the name stands in. */
module ScopedCode {
  import opened Words
  import opened Il
  import opened Ast
  import opened Compile
  import opened Pieces
  import opened Plain
  import opened Linked
  import Flow

  function Links(w: Flow.World): Linkage {
    Linkage(w.code, w.blocks)
  }

  lemma PlainScoped(w: Flow.World, base: nat, piece: seq<Instr>, h: int)
    requires At(w.code, base, piece) && Balance(piece, 0) && Entered(Links(w), w.block, h, base)
    ensures Flow.InBlock(w, base, |piece|)
  {
    hide At, Net;
    AtBounds(w.code, base, piece);
    forall k | base <= k < base + |piece| ensures Flow.InScope(w, k, w.block) {
      PlainLevel(Links(w), base, piece, w.block, h, k - base);
    }
  }

  /** The test's code in front of its jump. */
  lemma TestScoped(w: Flow.World, base: nat, test: seq<Instr>, jump: Instr, h: int)
    requires At(w.code, base, test + [jump]) && Balance(test, 0) && Entered(Links(w), w.block, h, base)
    ensures Flow.InBlock(w, base, |test|)
  {
    hide At, Balance, LevelAt, Flow.InBlock;
    AtSplit(w.code, base, test, [jump]);
    PlainScoped(w, base, test, h);
  }

  lemma {:induction false} StmtScoped(w: Flow.World, s: Stmt, base: nat, out: Option<Out>, brk: nat, h: int)
    requires Located(Links(w), s, base, out, brk, w.block, h)
    ensures Flow.Scoped(w, s, base, brk)
    decreases s, 3
  {
    hide At, Balance, LevelAt, Flow.Scoped;
    match s
    case Compound(_, _) => CompoundScoped(w, s, base, out, brk, h);
    case If(_, _, _) => IfScoped(w, s, base, out, brk, h);
    case While(_, _) => WhileScoped(w, s, base, out, brk, h);
    case DoWhile(_, _) => DoScoped(w, s, base, out, brk, h);
    case For(_, _, _, _) => ForScoped(w, s, base, out, brk, h);
    case Switch(_, _) => SwitchScoped(w, s, base, out, brk, h);
    case _ => SimpleScoped(w, s, base, out, brk, h);
  }

  lemma SimpleScoped(w: Flow.World, s: Stmt, base: nat, out: Option<Out>, brk: nat, h: int)
    requires s.Empty? || s.Declare? || s.Evaluate? || s.Assignment? || s.ReturnFrom? || s.Break?
    requires Located(Links(w), s, base, out, brk, w.block, h)
    ensures Flow.Scoped(w, s, base, brk)
  {
    hide At, Balance, LevelAt, COperand, CAssign, CInits, CExpr, Flow.InBlock;
    Nothing();
    var code := CStmt(s, base, brk);
    match s {
      case Declare(_, ds) =>
        InitsPlain(InitsOf(ds));
        PlainScoped(w, base, code, h);
      case Evaluate(o) =>
        OperandPlain(o, 0);
        PlainScoped(w, base, code, h);
      case Assignment(a) =>
        AssignPlain(a);
        PlainScoped(w, base, code, h);
      case Empty => PlainScoped(w, base, code, h);
      case Break(_) =>
      case ReturnFrom(f, value) =>
        if value.Some? {
          ExprPlain(value.value, 0);
          TestScoped(w, base, CExpr(value.value, 0), Named(Return, 0, f), h);
        }
    }
  }

  lemma {:induction false} StmtsScoped(w: Flow.World, ss: seq<Stmt>, base: nat, out: Option<Out>, brk: nat, h: int)
    requires At(w.code, base, CStmts(ss, base, brk)) && Entered(Links(w), w.block, h, base)
    requires AllNested(ss, w.block, w.blocks)
    requires if out.Some? then out.value == Out(brk, w.block, h) else AllBreakFree(ss)
    ensures Flow.AllScoped(w, ss, base, brk)
    decreases ss, 1
  {
    hide Fits, At, LevelAt, CStmt, Scopes, Nested, BreakFree, Flow.Scoped;
    if ss != [] {
      var c, mid := Links(w), base + |CStmt(ss[0], base, brk)|;
      AtSplit(w.code, base, CStmt(ss[0], base, brk), CStmts(ss[1..], mid, brk));
      StmtScoped(w, ss[0], base, out, brk, h);
      StmtLinked(c, ss[0], base, out, brk, w.block, h);
      FitsEnds(c, Span(base, mid, out), w.block, h, base, mid, Scopes(ss[0], base, brk, w.block));
      StmtsScoped(w, ss[1..], mid, out, brk, h);
    }
  }

  lemma {:induction false} CompoundScoped(w: Flow.World, s: Stmt, base: nat, out: Option<Out>, brk: nat, h: int)
    requires s.Compound? && Located(Links(w), s, base, out, brk, w.block, h)
    ensures Flow.Scoped(w, s, base, brk)
    decreases s, 2
  {
    hide At, LevelAt, CStmts, AllNested, AllBreakFree, Flow.AllScoped;
    var id, body := s.id, CStmts(s.body, base + 1, brk);
    AtSplit(w.code, base, [Marker(BlockStart, id)] + body, [Marker(BlockEnd, id)]);
    AtSplit(w.code, base, [Marker(BlockStart, id)], body);
    StartLevel(Links(w), w.block, h, base, id);
    var inner := match out case None => None case Some(o) => Some(o.(b := id));
    StmtsScoped(Flow.WithinBlock(w, id), s.body, base + 1, inner, brk, h);
  }

  /** Where a statement inside another one ends, the level is the one it was entered at. */
  lemma InnerEnds(w: Flow.World, s: Stmt, base: nat, out: Option<Out>, brk: nat, h: int)
    requires Located(Links(w), s, base, out, brk, w.block, h)
    ensures Entered(Links(w), w.block, h, base + |CStmt(s, base, brk)|)
  {
    hide Fits, At, LevelAt, CStmt, Scopes, Located;
    var end := base + |CStmt(s, base, brk)|;
    StmtLinked(Links(w), s, base, out, brk, w.block, h);
    FitsEnds(Links(w), Span(base, end, out), w.block, h, base, end, Scopes(s, base, brk, w.block));
  }

  lemma {:induction false} IfScoped(w: Flow.World, s: Stmt, base: nat, out: Option<Out>, brk: nat, h: int)
    requires s.If? && Located(Links(w), s, base, out, brk, w.block, h)
    ensures Flow.Scoped(w, s, base, brk)
    decreases s, 2
  {
    hide At, Balance, LevelAt, CStmt, CExpr, Flow.InBlock, IfPlaces;
    var f, c, test := IfPlaces(s, base, brk), Links(w), CExpr(s.cond, 0);
    IfPieces(w.code, s, base, brk);
    IfOrder(s, base, brk, w.block);
    ExprPlain(s.cond, 0);
    var jz := Target(Jz, if s.els.None? then f.after else f.after + 1);
    TestScoped(w, base, test, jz, h);
    EnteredTest(c, w.block, h, base, test, jz);
    StmtScoped(w, s.thn, f.inner, out, brk, h);
    if s.els.Some? {
      InnerEnds(w, s.thn, f.inner, out, brk, h);
      EnteredNext(c, w.block, h, f.after, Target(Jump, f.end));
      EnteredNext(c, w.block, h, f.after + 1, Ins(Label, 0));
      StmtScoped(w, s.els.value, f.after + 2, out, brk, h);
    }
  }

  lemma {:induction false} WhileScoped(w: Flow.World, s: Stmt, base: nat, out: Option<Out>, brk: nat, h: int)
    requires s.While? && Located(Links(w), s, base, out, brk, w.block, h)
    ensures Flow.Scoped(w, s, base, brk)
    decreases s, 2
  {
    hide At, Balance, LevelAt, CStmt, CExpr, Flow.InBlock;
    var f, c, test := WhilePlaces(s, base, brk), Links(w), CExpr(s.cond, 0);
    WhilePieces(w.code, s, base, brk);
    ExprPlain(s.cond, 0);
    EnteredNext(c, w.block, h, base, Ins(Label, 0));
    TestScoped(w, base + 1, test, Target(Jz, f.end), h);
    EnteredTest(c, w.block, h, base + 1, test, Target(Jz, f.end));
    StmtScoped(w, s.inner, f.inner, out, brk, h);
  }

  lemma {:induction false} DoScoped(w: Flow.World, s: Stmt, base: nat, out: Option<Out>, brk: nat, h: int)
    requires s.DoWhile? && Located(Links(w), s, base, out, brk, w.block, h)
    ensures Flow.Scoped(w, s, base, brk)
    decreases s, 2
  {
    hide At, Balance, LevelAt, CStmt, CExpr, Flow.InBlock;
    DoPieces(w.code, s, base, brk);
    ExprPlain(s.cond, 0);
    EnteredNext(Links(w), w.block, h, base, Ins(Label, 0));
    StmtScoped(w, s.inner, base + 1, out, brk, h);
    InnerEnds(w, s.inner, base + 1, out, brk, h);
    TestScoped(w, DoTest(s, base, brk), CExpr(s.cond, 0), Target(Jnz, base), h);
  }

  lemma {:induction false} ForScoped(w: Flow.World, s: Stmt, base: nat, out: Option<Out>, brk: nat, h: int)
    requires s.For? && Located(Links(w), s, base, out, brk, w.block, h)
    ensures Flow.Scoped(w, s, base, brk)
    decreases s, 2
  {
    hide At, Balance, LevelAt, CStmt, COptAssign, CTest, Flow.InBlock;
    var f, c, b := ForPlaces(s, base, brk), Links(w), w.block;
    ForPieces(w.code, s, base, brk);
    OptAssignPlain(s.init);
    TestPlain(s.test);
    OptAssignPlain(s.step);
    PlainScoped(w, base, COptAssign(s.init), h);
    EnteredPlain(c, b, h, base, COptAssign(s.init));
    EnteredNext(c, b, h, f.start, Ins(Label, 0));
    TestScoped(w, f.start + 1, CTest(s.test), Target(Jz, f.end), h);
    EnteredTest(c, b, h, f.start + 1, CTest(s.test), Target(Jz, f.end));
    EnteredNext(c, b, h, f.increment - 1, Target(Jump, f.entry));
    EnteredNext(c, b, h, f.increment, Ins(Label, 0));
    PlainScoped(w, f.increment + 1, COptAssign(s.step), h);
    EnteredBody(c, s, base, brk, b, h);
    StmtScoped(w, s.inner, f.entry + 1, out, brk, h);
  }

  // ----- switches -----

  lemma {:induction false} ClausesScoped(w: Flow.World, cs: seq<Clause>, base: nat, brk: nat, h: int)
    requires At(w.code, base, CClauses(cs, base, brk)) && Entered(Links(w), w.block, h, base)
    requires ClausesNested(cs, w.block, w.blocks)
    ensures Flow.ClausesScoped(w, cs, base, brk)
    decreases cs, 1
  {
    hide At, LevelAt, CClause, ClauseNested, Flow.ClauseScoped, LabelIn;
    if cs != [] {
      var mid := base + |CClause(cs[0], base, brk)|;
      AtSplit(w.code, base, CClause(cs[0], base, brk), CClauses(cs[1..], mid, brk));
      ClauseScoped(w, cs[0], base, brk, h);
      FirstClause(Links(w), cs, base, brk, w.block, h);
      ClausesScoped(w, cs[1..], mid, brk, h);
    }
  }

  lemma {:induction false} ClauseScoped(w: Flow.World, x: Clause, base: nat, brk: nat, h: int)
    requires At(w.code, base, CClause(x, base, brk)) && Entered(Links(w), w.block, h, base)
    requires ClauseNested(x, w.block, w.blocks)
    ensures Flow.ClauseScoped(w, x, base, brk)
    decreases x, 2
  {
    hide At, LevelAt, CStmts, AllNested, Flow.AllScoped;
    AtSplit(w.code, base, [Ins(Label, 0)], CStmts(x.body, base + 1, brk));
    EnteredNext(Links(w), w.block, h, base, Ins(Label, 0));
    StmtsScoped(w, x.body, base + 1, Some(Out(brk, w.block, h)), brk, h);
  }

  /** The comparisons are all in the switch's block. */
  lemma {:induction false} ChecksScoped(w: Flow.World, cs: seq<Clause>, base: nat, exit: nat, at: nat, h: int)
    requires At(w.code, base, CClauses(cs, base, exit)) && Entered(Links(w), w.block, h, base)
    requires ClausesNested(cs, w.block, w.blocks) && base + |CClauses(cs, base, exit)| <= |w.code|
    requires At(w.code, at, CChecks(cs, base, exit)) && Entered(Links(w), w.block, h, at)
    ensures Flow.InBlock(w, at, |CChecks(cs, base, exit)|)
  {
    hide At, CClauses, CChecks, ClausesNested;
    var c, n := Links(w), |CChecks(cs, base, exit)|;
    var r := Span(base, base + |CClauses(cs, base, exit)|, None);
    ChecksLinked(c, cs, base, exit, at, r, w.block, h);
    forall k | at <= k < at + n ensures Flow.InScope(w, k, w.block) {
      assert InScope(c, at + (k - at), Same(n, w.block)[k - at]);
    }
  }

  lemma {:induction false} SwitchScoped(w: Flow.World, s: Stmt, base: nat, out: Option<Out>, brk: nat, h: int)
    requires s.Switch? && Located(Links(w), s, base, out, brk, w.block, h)
    ensures Flow.Scoped(w, s, base, brk)
    decreases s, 2
  {
    hide Fits, At, Balance, LevelAt, CStmt, CExpr, CClauses, CChecks, CDefault, ClausesNested, Flow.InBlock,
      Flow.ClausesScoped;
    var f, c, b := SwitchPlaces(s, base), Links(w), w.block;
    SwitchPieces(w.code, s, base, brk);
    SwitchOrder(s, base);
    ExprPlain(s.on, 1);
    PlainScoped(w, base, CExpr(s.on, 1), h);
    EnteredPlain(c, b, h, base, CExpr(s.on, 1));
    EnteredNext(c, b, h, f.exit - 1, Target(Jump, f.check));
    EnteredNext(c, b, h, f.exit, Target(Jump, f.end));
    ClausesScoped(w, s.clauses, f.first, f.exit, h);
    var ys := ScopesOfClauses(s.clauses, f.first, f.exit, b);
    var inside := Some(Out(f.exit, b, h));
    ClausesLinked(c, s.clauses, f.first, f.exit, b, h);
    FitsEnds(c, Span(f.first, f.check, inside), b, h, f.first, f.check, ys);
    EnteredNext(c, b, h, f.check, Ins(Label, 0));
    AtBounds(w.code, f.first, CClauses(s.clauses, f.first, f.exit));
    AtSplit(w.code, f.check + 1, CChecks(s.clauses, f.first, f.exit), CDefault(s.clauses, f.first, f.exit));
    ChecksScoped(w, s.clauses, f.first, f.exit, f.check + 1, h);
  }
}
