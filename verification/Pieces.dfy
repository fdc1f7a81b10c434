/** Where the pieces of a compound statement's code lie. */
module Pieces {
  import opened Words
  import opened Il
  import opened Ast
  import opened Compile

  ghost predicate At(code: seq<Instr>, base: nat, piece: seq<Instr>) {
    base + |piece| <= |code| && code[base..base + |piece|] == piece
  }

  lemma AtSplit(code: seq<Instr>, base: nat, a: seq<Instr>, b: seq<Instr>)
    requires At(code, base, a + b)
    ensures At(code, base, a) && At(code, base + |a|, b)
  {
    assert code[base..base + |a|] == (a + b)[..|a|];
    assert code[base + |a|..base + |a| + |b|] == (a + b)[|a|..];
  }

  lemma AtOne(code: seq<Instr>, base: nat, ins: Instr)
    requires At(code, base, [ins])
    ensures base < |code| && code[base] == ins
  {
    assert code[base..base + 1][0] == code[base];
  }

  lemma AtIndex(code: seq<Instr>, base: nat, piece: seq<Instr>, k: nat)
    requires At(code, base, piece) && k < |piece|
    ensures base + k < |code| && code[base + k] == piece[k]
  {
    assert code[base..base + |piece|][k] == code[base + k];
  }

  // ----- if -----

  /** `end` is the index of the last label. */
  datatype IfCode = IfCode(inner: nat, after: nat, end: nat)

  function IfPlaces(s: Stmt, base: nat, brk: nat): IfCode
    requires s.If?
  {
    var inner := base + |CExpr(s.cond, 0)| + 1;
    var after := inner + |CStmt(s.thn, inner, brk)|;
    IfCode(inner, after, match s.els case None => after case Some(e) => after + 2 + |CStmt(e, after + 2, brk)|)
  }

  ghost predicate IfAt(code: seq<Instr>, s: Stmt, base: nat, brk: nat)
    requires s.If?
  {
    var f := IfPlaces(s, base, brk);
    && At(code, base, CExpr(s.cond, 0) + [Target(Jz, if s.els.None? then f.after else f.after + 1)])
    && At(code, f.inner, CStmt(s.thn, f.inner, brk)) && At(code, f.end, [Ins(Label, 0)])
    && (s.els.Some? ==>
          && At(code, f.after, [Target(Jump, f.end)]) && At(code, f.after + 1, [Ins(Label, 0)])
          && At(code, f.after + 2, CStmt(s.els.value, f.after + 2, brk)))
  }

  lemma IfPieces(code: seq<Instr>, s: Stmt, base: nat, brk: nat)
    requires s.If? && At(code, base, CStmt(s, base, brk))
    ensures IfAt(code, s, base, brk) && IfPlaces(s, base, brk).end + 1 == base + |CStmt(s, base, brk)|
  {
    hide At, CExpr;
    if s.els.None? {
      IfThenPieces(code, s, base, brk);
    } else {
      IfElsePieces(code, s, base, brk);
    }
  }

  lemma IfThenPieces(code: seq<Instr>, s: Stmt, base: nat, brk: nat)
    requires s.If? && s.els.None? && At(code, base, CStmt(s, base, brk))
    ensures IfAt(code, s, base, brk) && IfPlaces(s, base, brk).end + 1 == base + |CStmt(s, base, brk)|
  {
    hide At, CExpr;
    var f := IfPlaces(s, base, brk);
    var test, thn := CExpr(s.cond, 0) + [Target(Jz, f.after)], CStmt(s.thn, f.inner, brk);
    AtSplit(code, base, test + thn, [Ins(Label, 0)]);
    AtSplit(code, base, test, thn);
  }

  lemma IfElsePieces(code: seq<Instr>, s: Stmt, base: nat, brk: nat)
    requires s.If? && s.els.Some? && At(code, base, CStmt(s, base, brk))
    ensures IfAt(code, s, base, brk) && IfPlaces(s, base, brk).end + 1 == base + |CStmt(s, base, brk)|
  {
    hide At, CExpr, CStmt;
    var f := IfPlaces(s, base, brk);
    var test, thn := CExpr(s.cond, 0) + [Target(Jz, f.after + 1)], CStmt(s.thn, f.inner, brk);
    var els, mark := CStmt(s.els.value, f.after + 2, brk), [Ins(Label, 0)];
    var middle := [Target(Jump, f.end), Ins(Label, 0)];
    IfElseShape(s, base, brk);
    AtSplit(code, base, test + thn + middle + els, mark);
    AtSplit(code, base, test + thn + middle, els);
    AtSplit(code, base, test + thn, middle);
    AtSplit(code, base, test, thn);
    assert middle == [Target(Jump, f.end)] + mark;
    AtSplit(code, f.after, [Target(Jump, f.end)], mark);
  }

  lemma IfElseShape(s: Stmt, base: nat, brk: nat)
    requires s.If? && s.els.Some?
    ensures var f := IfPlaces(s, base, brk);
            CStmt(s, base, brk)
            == CExpr(s.cond, 0) + [Target(Jz, f.after + 1)] + CStmt(s.thn, f.inner, brk)
               + [Target(Jump, f.end), Ins(Label, 0)] + CStmt(s.els.value, f.after + 2, brk) + [Ins(Label, 0)]
  {
    hide CExpr;
  }

  // ----- while and do -----

  datatype LoopCode = LoopCode(inner: nat, end: nat)

  function WhilePlaces(s: Stmt, base: nat, brk: nat): LoopCode
    requires s.While?
  {
    var inner := base + |CExpr(s.cond, 0)| + 2;
    LoopCode(inner, inner + |CStmt(s.inner, inner, brk)| + 1)
  }

  ghost predicate WhileAt(code: seq<Instr>, s: Stmt, base: nat, brk: nat)
    requires s.While?
  {
    var f := WhilePlaces(s, base, brk);
    && At(code, base, [Ins(Label, 0)]) && At(code, base + 1, CExpr(s.cond, 0) + [Target(Jz, f.end)])
    && At(code, f.inner, CStmt(s.inner, f.inner, brk))
    && At(code, f.end - 1, [Target(Jump, base)]) && At(code, f.end, [Ins(Label, 0)])
  }

  lemma WhilePieces(code: seq<Instr>, s: Stmt, base: nat, brk: nat)
    requires s.While? && At(code, base, CStmt(s, base, brk))
    ensures WhileAt(code, s, base, brk) && WhilePlaces(s, base, brk).end + 1 == base + |CStmt(s, base, brk)|
  {
    hide At, CExpr;
    var f := WhilePlaces(s, base, brk);
    var test, body := CExpr(s.cond, 0), CStmt(s.inner, f.inner, brk);
    var mark, jz, jump := [Ins(Label, 0)], [Target(Jz, f.end)], [Target(Jump, base)];
    assert CStmt(s, base, brk) == mark + (test + jz) + body + (jump + mark);
    AtSplit(code, base, mark + (test + jz) + body, jump + mark);
    AtSplit(code, base, mark + (test + jz), body);
    AtSplit(code, base, mark, test + jz);
    AtSplit(code, f.end - 1, jump, mark);
  }

  /** The end of a do loop is behind its conditional jump; its test starts at `test`. */
  function DoTest(s: Stmt, base: nat, brk: nat): nat
    requires s.DoWhile?
  {
    base + 1 + |CStmt(s.inner, base + 1, brk)|
  }

  ghost predicate DoAt(code: seq<Instr>, s: Stmt, base: nat, brk: nat)
    requires s.DoWhile?
  {
    && At(code, base, [Ins(Label, 0)]) && At(code, base + 1, CStmt(s.inner, base + 1, brk))
    && At(code, DoTest(s, base, brk), CExpr(s.cond, 0) + [Target(Jnz, base)])
  }

  lemma DoPieces(code: seq<Instr>, s: Stmt, base: nat, brk: nat)
    requires s.DoWhile? && At(code, base, CStmt(s, base, brk))
    ensures DoAt(code, s, base, brk)
    ensures DoTest(s, base, brk) + |CExpr(s.cond, 0)| + 1 == base + |CStmt(s, base, brk)|
  {
    hide At, CExpr;
    var body, test := CStmt(s.inner, base + 1, brk), CExpr(s.cond, 0);
    var mark, jnz := [Ins(Label, 0)], [Target(Jnz, base)];
    assert mark + body + test + jnz == mark + body + (test + jnz);
    AtSplit(code, base, mark + body, test + jnz);
    AtSplit(code, base, mark, body);
  }

  // ----- for -----

  /** Where the test, the increment and the body start, and where the loop ends. */
  datatype ForCode = ForCode(start: nat, increment: nat, entry: nat, end: nat)

  function ForPlaces(s: Stmt, base: nat, brk: nat): ForCode
    requires s.For?
  {
    var start := base + |COptAssign(s.init)|;
    var increment := start + |CTest(s.test)| + 3;
    var entry := increment + |COptAssign(s.step)| + 2;
    ForCode(start, increment, entry, entry + |CStmt(s.inner, entry + 1, brk)| + 2)
  }

  ghost predicate ForAt(code: seq<Instr>, s: Stmt, base: nat, brk: nat)
    requires s.For?
  {
    var f := ForPlaces(s, base, brk);
    && At(code, base, COptAssign(s.init))
    && At(code, f.start, [Ins(Label, 0)]) && At(code, f.start + 1, CTest(s.test) + [Target(Jz, f.end)])
    && At(code, f.increment - 1, [Target(Jump, f.entry)]) && At(code, f.increment, [Ins(Label, 0)])
    && At(code, f.increment + 1, COptAssign(s.step)) && At(code, f.entry - 1, [Target(Jump, f.start)])
    && At(code, f.entry, [Ins(Label, 0)]) && At(code, f.entry + 1, CStmt(s.inner, f.entry + 1, brk))
    && At(code, f.end - 1, [Target(Jump, f.increment)]) && At(code, f.end, [Ins(Label, 0)])
  }

  lemma ForPieces(code: seq<Instr>, s: Stmt, base: nat, brk: nat)
    requires s.For? && At(code, base, CStmt(s, base, brk))
    ensures ForAt(code, s, base, brk) && ForPlaces(s, base, brk).end + 1 == base + |CStmt(s, base, brk)|
  {
    hide At, COptAssign, CTest, CStmt;
    var f := ForPlaces(s, base, brk);
    var init, test, step := COptAssign(s.init), CTest(s.test), COptAssign(s.step);
    var body, mark := CStmt(s.inner, f.entry + 1, brk), [Ins(Label, 0)];
    ForShape(s, base, brk);
    AtEight(code, base, init, mark, test + [Target(Jz, f.end)], [Target(Jump, f.entry)] + mark, step,
            [Target(Jump, f.start)] + mark, body, [Target(Jump, f.increment)] + mark);
    AtSplit(code, f.increment - 1, [Target(Jump, f.entry)], mark);
    AtSplit(code, f.entry - 1, [Target(Jump, f.start)], mark);
    AtSplit(code, f.end - 1, [Target(Jump, f.increment)], mark);
  }

  lemma AtEight(code: seq<Instr>, base: nat, a: seq<Instr>, b: seq<Instr>, c: seq<Instr>, d: seq<Instr>, e: seq<Instr>,
                f: seq<Instr>, g: seq<Instr>, h: seq<Instr>)
    requires At(code, base, a + b + c + d + e + f + g + h)
    ensures At(code, base, a) && At(code, base + |a|, b) && At(code, base + |a| + |b|, c)
    ensures At(code, base + |a| + |b| + |c|, d) && At(code, base + |a| + |b| + |c| + |d|, e)
    ensures At(code, base + |a| + |b| + |c| + |d| + |e|, f) && At(code, base + |a| + |b| + |c| + |d| + |e| + |f|, g)
    ensures At(code, base + |a| + |b| + |c| + |d| + |e| + |f| + |g|, h)
  {
    hide At;
    AtSplit(code, base, a + b + c + d + e + f + g, h);
    AtSplit(code, base, a + b + c + d + e + f, g);
    AtSplit(code, base, a + b + c + d + e, f);
    AtSplit(code, base, a + b + c + d, e);
    AtSplit(code, base, a + b + c, d);
    AtSplit(code, base, a + b, c);
    AtSplit(code, base, a, b);
  }

  lemma ForShape(s: Stmt, base: nat, brk: nat)
    requires s.For?
    ensures var f, mark := ForPlaces(s, base, brk), [Ins(Label, 0)];
            CStmt(s, base, brk)
            == COptAssign(s.init) + mark + (CTest(s.test) + [Target(Jz, f.end)]) + ([Target(Jump, f.entry)] + mark)
               + COptAssign(s.step) + ([Target(Jump, f.start)] + mark) + CStmt(s.inner, f.entry + 1, brk)
               + ([Target(Jump, f.increment)] + mark)
  {
    hide COptAssign, CTest;
  }

  // ----- switch -----

  /** The exit jump, the first clause, the label of the checks and the last label. */
  datatype SwitchCode = SwitchCode(exit: nat, first: nat, check: nat, end: nat)

  function Checks(s: Stmt, first: nat, exit: nat): seq<Instr>
    requires s.Switch?
  {
    CChecks(s.clauses, first, exit) + CDefault(s.clauses, first, exit)
  }

  function SwitchPlaces(s: Stmt, base: nat): SwitchCode
    requires s.Switch?
  {
    var exit := base + |CExpr(s.on, 1)| + 1;
    var check := exit + 1 + |CClauses(s.clauses, exit + 1, exit)|;
    SwitchCode(exit, exit + 1, check, check + 1 + |Checks(s, exit + 1, exit)|)
  }

  ghost predicate SwitchAt(code: seq<Instr>, s: Stmt, base: nat)
    requires s.Switch?
  {
    var f := SwitchPlaces(s, base);
    && f.exit >= 1 && f.exit - 1 == base + |CExpr(s.on, 1)| && At(code, base, CExpr(s.on, 1))
    && At(code, f.exit - 1, [Target(Jump, f.check)]) && At(code, f.exit, [Target(Jump, f.end)])
    && At(code, f.first, CClauses(s.clauses, f.first, f.exit)) && At(code, f.check, [Ins(Label, 0)])
    && At(code, f.check + 1, Checks(s, f.first, f.exit)) && At(code, f.end, [Ins(Label, 0)])
  }

  lemma SwitchPieces(code: seq<Instr>, s: Stmt, base: nat, brk: nat)
    requires s.Switch? && At(code, base, CStmt(s, base, brk))
    ensures SwitchAt(code, s, base) && SwitchPlaces(s, base).end + 1 == base + |CStmt(s, base, brk)|
  {
    hide At, CExpr, CClauses, CChecks, CDefault;
    var f := SwitchPlaces(s, base);
    var v, b, checks := CExpr(s.on, 1), CClauses(s.clauses, f.first, f.exit), Checks(s, f.first, f.exit);
    var mark, jumps := [Ins(Label, 0)], [Target(Jump, f.check), Target(Jump, f.end)];
    AtSplit(code, base, v + jumps + b + mark + checks, mark);
    AtSplit(code, base, v + jumps + b + mark, checks);
    AtSplit(code, base, v + jumps + b, mark);
    AtSplit(code, base, v + jumps, b);
    AtSplit(code, base, v, jumps);
    assert jumps == [Target(Jump, f.check)] + [Target(Jump, f.end)];
    AtSplit(code, f.exit - 1, [Target(Jump, f.check)], [Target(Jump, f.end)]);
  }
}
