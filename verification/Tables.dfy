/** What reading statements does to the block table: it only grows, the blocks read are nested in it as in the text, and
    breaks outside a switch are refused. */
module Tables {
  import opened Words
  import opened Il
  import opened Ast
  import opened Tokens
  import opened Grammar
  import opened Linked

  ghost predicate BlockGrows(a: Block, b: Block) {
    a.parent == b.parent && a.func == b.func && a.locals <= b.locals
  }

  /** Blocks and locals are added at the end only. */
  ghost predicate Extends(old1: seq<Block>, new1: seq<Block>) {
    |old1| <= |new1| && forall k :: 0 <= k < |old1| ==> BlockGrows(old1[k], new1[k])
  }

  lemma ExtendsThrough(a: seq<Block>, b: seq<Block>, c: seq<Block>)
    requires Extends(a, b) && Extends(b, c)
    ensures Extends(a, c)
  {
    forall k | 0 <= k < |a| ensures BlockGrows(a[k], c[k]) {
      assert BlockGrows(a[k], b[k]) && BlockGrows(b[k], c[k]);
    }
  }

  lemma ExtendsSelf(a: seq<Block>)
    ensures Extends(a, a)
  {
  }

  /** What nesting depends on. */
  ghost predicate KeepsParents(a: seq<Block>, b: seq<Block>) {
    |a| <= |b| && forall k :: 0 <= k < |a| ==> a[k].parent == b[k].parent
  }

  lemma ExtendsKeeps(a: seq<Block>, b: seq<Block>)
    requires Extends(a, b)
    ensures KeepsParents(a, b)
  {
    forall k | 0 <= k < |a| ensures a[k].parent == b[k].parent { assert BlockGrows(a[k], b[k]); }
  }

  lemma {:induction false} NestedLater(s: Stmt, b: nat, before: seq<Block>, after: seq<Block>)
    requires Nested(s, b, before) && KeepsParents(before, after)
    ensures Nested(s, b, after)
    decreases s, 0
  {
    match s
    case Compound(id, body) =>
      AllNestedLater(body, id, before, after);
    case If(_, thn, els) =>
      NestedLater(thn, b, before, after);
      if els.Some? { NestedLater(els.value, b, before, after); }
    case While(_, inner) => NestedLater(inner, b, before, after);
    case DoWhile(inner, _) => NestedLater(inner, b, before, after);
    case For(_, _, _, inner) => NestedLater(inner, b, before, after);
    case Switch(_, clauses) => ClausesNestedLater(clauses, b, before, after);
    case Break(x) => NestedLater(x, b, before, after);
    case _ =>
  }

  lemma {:induction false} AllNestedLater(ss: seq<Stmt>, b: nat, before: seq<Block>, after: seq<Block>)
    requires AllNested(ss, b, before) && KeepsParents(before, after)
    ensures AllNested(ss, b, after)
    decreases ss, 0
  {
    if ss != [] {
      NestedLater(ss[0], b, before, after);
      AllNestedLater(ss[1..], b, before, after);
    }
  }

  lemma {:induction false} ClauseNestedLater(c: Clause, b: nat, before: seq<Block>, after: seq<Block>)
    requires ClauseNested(c, b, before) && KeepsParents(before, after)
    ensures ClauseNested(c, b, after)
    decreases c, 0
  {
    AllNestedLater(c.body, b, before, after);
  }

  lemma {:induction false} ClausesNestedLater(cs: seq<Clause>, b: nat, before: seq<Block>, after: seq<Block>)
    requires ClausesNested(cs, b, before) && KeepsParents(before, after)
    ensures ClausesNested(cs, b, after)
    decreases cs, 0
  {
    if cs != [] {
      ClauseNestedLater(cs[0], b, before, after);
      ClausesNestedLater(cs[1..], b, before, after);
    }
  }

  // ----- declarations -----

  lemma LocalAdded(blocks: seq<Block>, b: nat, v: Var)
    requires b < |blocks|
    ensures Extends(blocks, WithLocal(blocks, b, v))
  {
    var after := WithLocal(blocks, b, v);
    forall k | 0 <= k < |blocks| ensures BlockGrows(blocks[k], after[k]) {}
  }

  lemma InitTables(sc: Scope, t: TypeDef, size: Option<int>, ts: seq<Token>, i: nat)
    requires i <= |ts| && sc.block < |sc.blocks| && PInit(sc, t, size, ts, i).Some?
    ensures Extends(sc.blocks, PInit(sc, t, size, ts, i).value.blocks)
  {
    hide PExpr, PDeclarator, Extends, WithLocal;
    LocalAdded(sc.blocks, sc.block, PDeclarator(t.name, ts, i).value.value);
  }

  lemma {:induction false} MoreTables(sc: Scope, t: TypeDef, size: int, ts: seq<Token>, i: nat)
    requires i <= |ts| && sc.block < |sc.blocks| && PMoreInits(sc, t, size, ts, i).Some?
    ensures Extends(sc.blocks, PMoreInits(sc, t, size, ts, i).value.blocks)
    decreases |ts| - i
  {
    hide PInit, Extends;
    if Peek(ts, i).TSemicolon? {
      ExtendsSelf(sc.blocks);
    } else {
      var x := PInit(sc, t, Some(size), ts, i + 1).value;
      InitTables(sc, t, Some(size), ts, i + 1);
      MoreTables(In(sc, x.blocks), t, size, ts, x.next);
      ExtendsThrough(sc.blocks, x.blocks, PMoreInits(sc, t, size, ts, i).value.blocks);
    }
  }

  lemma DeclareTables(sc: Scope, t: TypeDef, ts: seq<Token>, i: nat)
    requires i <= |ts| && sc.block < |sc.blocks| && PDeclare(sc, t, ts, i).Some?
    ensures Extends(sc.blocks, PDeclare(sc, t, ts, i).value.blocks)
  {
    hide PInit, PMoreInits, Extends;
    var x := PInit(sc, t, None, ts, i).value;
    InitTables(sc, t, None, ts, i);
    MoreTables(In(sc, x.blocks), t, x.size, ts, x.next);
    ExtendsThrough(sc.blocks, x.blocks, PDeclare(sc, t, ts, i).value.blocks);
  }

  // ----- statements -----

  ghost predicate Grown(sc: Scope, inSwitch: bool, s: Stmt, blocks: seq<Block>) {
    Extends(sc.blocks, blocks) && Nested(s, sc.block, blocks) && (!inSwitch ==> BreakFree(s))
  }

  ghost predicate AllGrown(sc: Scope, inSwitch: bool, ss: seq<Stmt>, blocks: seq<Block>) {
    Extends(sc.blocks, blocks) && AllNested(ss, sc.block, blocks) && (!inSwitch ==> AllBreakFree(ss))
  }

  /** A statement read in a block leaves the table as its code needs it. */
  lemma {:induction false} StmtTables(sc: Scope, inSwitch: bool, ts: seq<Token>, i: nat)
    requires i <= |ts| && sc.block < |sc.blocks| && PStmt(sc, inSwitch, ts, i).Some?
    ensures var p := PStmt(sc, inSwitch, ts, i).value; Grown(sc, inSwitch, p.value, p.blocks)
    decreases |ts| - i, 2
  {
    hide PBlock, PReturn, PIf, PWhile, PSwitch, PTail, Extends;
    ExtendsSelf(sc.blocks);
    match Peek(ts, i)
    case TOpCurly => BlockTables(sc, inSwitch, ts, i);
    case TReturn => ReturnIs(sc, ts, i + 1);
    case TIf => IfTables(sc, inSwitch, ts, i + 1);
    case TWhile => WhileTables(sc, inSwitch, ts, i + 1);
    case TSwitch => SwitchTables(sc, inSwitch, ts, i + 1);
    case TBreak => TailTables(sc, inSwitch, ts, i + 1);
    case _ => TailTables(sc, inSwitch, ts, i);
  }

  lemma ReturnIs(sc: Scope, ts: seq<Token>, i: nat)
    requires i <= |ts| && sc.block < |sc.blocks| && PReturn(sc, ts, i).Some?
    ensures PReturn(sc, ts, i).value.value.ReturnFrom?
  {
    hide PExpr;
  }

  lemma {:induction false} TailTables(sc: Scope, inSwitch: bool, ts: seq<Token>, i: nat)
    requires i <= |ts| && sc.block < |sc.blocks| && PTail(sc, inSwitch, ts, i).Some?
    ensures var p := PTail(sc, inSwitch, ts, i).value; Grown(sc, inSwitch, p.value, p.blocks)
    decreases |ts| - i, 1
  {
    hide PFor, PDo, PPlain, Extends;
    ExtendsSelf(sc.blocks);
    match Peek(ts, i)
    case TFor => ForTables(sc, inSwitch, ts, i + 1);
    case TDo => DoTables(sc, inSwitch, ts, i + 1);
    case TSemicolon =>
    case _ => PlainTables(sc, inSwitch, ts, i);
  }

  lemma PlainTables(sc: Scope, inSwitch: bool, ts: seq<Token>, i: nat)
    requires i <= |ts| && sc.block < |sc.blocks| && PPlain(sc, ts, i).Some?
    ensures var p := PPlain(sc, ts, i).value; Grown(sc, inSwitch, p.value, p.blocks)
  {
    hide PDeclare, PAssign, PArgs, Extends, FindType, FindFunction;
    ExtendsSelf(sc.blocks);
    match FindType(sc.names.types, ts[i].name)
    case Some(t) => DeclareTables(sc, t, ts, i + 1);
    case None =>
  }

  lemma {:induction false} IfTables(sc: Scope, inSwitch: bool, ts: seq<Token>, i: nat)
    requires i <= |ts| && sc.block < |sc.blocks| && PIf(sc, inSwitch, ts, i).Some?
    ensures var p := PIf(sc, inSwitch, ts, i).value; Grown(sc, inSwitch, p.value, p.blocks)
    decreases |ts| - i, 0
  {
    hide PCondition, PStmt, Extends;
    var c := PCondition(sc, ts, i).value;
    var t := PStmt(sc, inSwitch, ts, c.next).value;
    StmtTables(sc, inSwitch, ts, c.next);
    if Peek(ts, t.next).TElse? {
      StmtTables(In(sc, t.blocks), inSwitch, ts, t.next + 1);
      var e := PStmt(In(sc, t.blocks), inSwitch, ts, t.next + 1).value;
      ExtendsKeeps(t.blocks, e.blocks);
      NestedLater(t.value, sc.block, t.blocks, e.blocks);
      ExtendsThrough(sc.blocks, t.blocks, e.blocks);
    }
  }

  lemma {:induction false} WhileTables(sc: Scope, inSwitch: bool, ts: seq<Token>, i: nat)
    requires i <= |ts| && sc.block < |sc.blocks| && PWhile(sc, inSwitch, ts, i).Some?
    ensures var p := PWhile(sc, inSwitch, ts, i).value; Grown(sc, inSwitch, p.value, p.blocks)
    decreases |ts| - i, 0
  {
    hide PCondition, PStmt, Extends;
    StmtTables(sc, inSwitch, ts, PCondition(sc, ts, i).value.next);
  }

  lemma {:induction false} DoTables(sc: Scope, inSwitch: bool, ts: seq<Token>, i: nat)
    requires i <= |ts| && sc.block < |sc.blocks| && PDo(sc, inSwitch, ts, i).Some?
    ensures var p := PDo(sc, inSwitch, ts, i).value; Grown(sc, inSwitch, p.value, p.blocks)
    decreases |ts| - i, 3
  {
    hide PCondition, PStmt, Extends;
    StmtTables(sc, inSwitch, ts, i);
  }

  lemma {:induction false} ForTables(sc: Scope, inSwitch: bool, ts: seq<Token>, i: nat)
    requires i <= |ts| && sc.block < |sc.blocks| && PFor(sc, inSwitch, ts, i).Some?
    ensures var p := PFor(sc, inSwitch, ts, i).value; Grown(sc, inSwitch, p.value, p.blocks)
    decreases |ts| - i, 0
  {
    hide PForHead, PStmt, Extends;
    StmtTables(sc, inSwitch, ts, PForHead(sc, ts, i).value.next);
  }

  lemma {:induction false} BlockTables(sc: Scope, inSwitch: bool, ts: seq<Token>, i: nat)
    requires i <= |ts| && sc.block < |sc.blocks| && PBlock(sc, inSwitch, ts, i).Some?
    ensures var p := PBlock(sc, inSwitch, ts, i).value; Grown(sc, inSwitch, p.value, p.blocks)
    decreases |ts| - i, 1
  {
    hide PStmts, AllNested, AllBreakFree;
    var id := |sc.blocks|;
    var blocks := sc.blocks + [Block([], Some(sc.block), sc.blocks[sc.block].func, 0)];
    assert Extends(sc.blocks, blocks);
    var inner := Scope(sc.names, blocks, id);
    StmtsTables(inner, inSwitch, ts, i + 1);
    var ss := PStmts(inner, inSwitch, ts, i + 1).value;
    assert BlockGrows(blocks[id], ss.blocks[id]);
    ExtendsThrough(sc.blocks, blocks, ss.blocks);
  }

  lemma {:induction false} StmtsTables(sc: Scope, inSwitch: bool, ts: seq<Token>, i: nat)
    requires i <= |ts| && sc.block < |sc.blocks| && PStmts(sc, inSwitch, ts, i).Some?
    ensures var p := PStmts(sc, inSwitch, ts, i).value; AllGrown(sc, inSwitch, p.value, p.blocks)
    decreases |ts| - i, 3
  {
    hide PStmt, Extends, Nested, BreakFree;
    ExtendsSelf(sc.blocks);
    if !Peek(ts, i).TClCurly? {
      var s := PStmt(sc, inSwitch, ts, i).value;
      StmtTables(sc, inSwitch, ts, i);
      StmtsTables(In(sc, s.blocks), inSwitch, ts, s.next);
      var ss := PStmts(In(sc, s.blocks), inSwitch, ts, s.next).value;
      ExtendsKeeps(s.blocks, ss.blocks);
      NestedLater(s.value, sc.block, s.blocks, ss.blocks);
      ExtendsThrough(sc.blocks, s.blocks, ss.blocks);
    }
  }

  lemma {:induction false} BodyTables(sc: Scope, ts: seq<Token>, i: nat)
    requires i <= |ts| && sc.block < |sc.blocks| && PClauseBody(sc, ts, i).Some?
    ensures var p := PClauseBody(sc, ts, i).value; AllGrown(sc, true, p.value, p.blocks)
    decreases |ts| - i, 3
  {
    hide PStmt, Extends, Nested;
    ExtendsSelf(sc.blocks);
    if !StartsClause(Peek(ts, i)) && !Peek(ts, i).TClCurly? {
      var s := PStmt(sc, true, ts, i).value;
      StmtTables(sc, true, ts, i);
      BodyTables(In(sc, s.blocks), ts, s.next);
      var ss := PClauseBody(In(sc, s.blocks), ts, s.next).value;
      ExtendsKeeps(s.blocks, ss.blocks);
      NestedLater(s.value, sc.block, s.blocks, ss.blocks);
      ExtendsThrough(sc.blocks, s.blocks, ss.blocks);
    }
  }

  lemma {:induction false} ClauseTables(sc: Scope, ts: seq<Token>, i: nat)
    requires i <= |ts| && sc.block < |sc.blocks| && PClause(sc, ts, i).Some?
    ensures var p := PClause(sc, ts, i).value; Extends(sc.blocks, p.blocks) && ClauseNested(p.value, sc.block, p.blocks)
    decreases |ts| - i, 3
  {
    hide PClauseBody, Extends, AllNested;
    BodyTables(sc, ts, (if Peek(ts, i).TCase? then i + 2 else i + 1) + 1);
  }

  lemma {:induction false} ClausesTables(sc: Scope, ts: seq<Token>, i: nat)
    requires i <= |ts| && sc.block < |sc.blocks| && PClauses(sc, ts, i).Some?
    ensures var p := PClauses(sc, ts, i).value;
            Extends(sc.blocks, p.blocks) && ClausesNested(p.value, sc.block, p.blocks)
    decreases |ts| - i, 4
  {
    hide PClause, Extends, ClauseNested;
    ExtendsSelf(sc.blocks);
    if !Peek(ts, i).TClCurly? {
      var c := PClause(sc, ts, i).value;
      ClauseTables(sc, ts, i);
      ClausesTables(In(sc, c.blocks), ts, c.next);
      var cs := PClauses(In(sc, c.blocks), ts, c.next).value;
      ExtendsKeeps(c.blocks, cs.blocks);
      ClauseNestedLater(c.value, sc.block, c.blocks, cs.blocks);
      ExtendsThrough(sc.blocks, c.blocks, cs.blocks);
    }
  }

  lemma {:induction false} SwitchTables(sc: Scope, inSwitch: bool, ts: seq<Token>, i: nat)
    requires i <= |ts| && sc.block < |sc.blocks| && PSwitch(sc, ts, i).Some?
    ensures var p := PSwitch(sc, ts, i).value; Grown(sc, inSwitch, p.value, p.blocks)
    decreases |ts| - i, 0
  {
    hide PCondition, PClauses, Extends, ClausesNested;
    ClausesTables(sc, ts, PCondition(sc, ts, i).value.next + 1);
  }

  /** A function's body, read as the parser reads it, is nested in its block and has no break outside a switch. */
  lemma FunctionTables(names: Names, blocks: seq<Block>, f: nat, ts: seq<Token>, i: nat)
    requires i <= |ts| && PFunctionBody(names, blocks, f, ts, i).Some?
    ensures var p := PFunctionBody(names, blocks, f, ts, i).value;
            Extends(WithBody(blocks, f), p.blocks) && AllNested(p.value, |blocks|, p.blocks) && AllBreakFree(p.value)
  {
    hide PStmts, Extends, AllNested, AllBreakFree;
    StmtsTables(Scope(names, WithBody(blocks, f), |blocks|), false, ts, i + 1);
  }
}
