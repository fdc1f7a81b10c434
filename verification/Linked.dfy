/** The IL of a statement is well linked: every jump has a proper target, at the same height of the push stack and in
    the same block or one around it; block markers nest; and the block in force at each instruction is the one the
    parser was in when it emitted the instruction. */
module Linked {
  import opened Words
  import opened Il
  import opened Ast
  import opened Compile
  import opened Pieces
  import opened Plain

  datatype Linkage = Linkage(code: seq<Instr>, blocks: seq<Block>)

  // ----- the block and the height of the push stack at an index -----

  datatype Level = Level(block: Option<nat>, height: int)

  function LevelAt(c: Linkage, k: nat): Level
    requires k <= |c.code|
  {
    Level(BlockAfter(c.blocks, None, c.code[..k]), Net(c.code[..k]))
  }

  lemma LevelNext(c: Linkage, k: nat)
    requires k < |c.code|
    ensures var l := LevelAt(c, k);
            LevelAt(c, k + 1) == Level(AfterMarker(c.blocks, l.block, c.code[k]), l.height + Pushed(c.code[k].op))
  {
    assert c.code[..k + 1][..k] == c.code[..k];
  }

  /** The block a is b or one around it. */
  predicate Encloses(blocks: seq<Block>, a: nat, b: nat)
    decreases b
  {
    || a == b
    || (b < |blocks| && match blocks[b].parent case None => false case Some(p) => p < b && Encloses(blocks, a, p))
  }

  lemma {:induction false} EnclosesThrough(blocks: seq<Block>, a: nat, b: nat, c: nat)
    requires Encloses(blocks, a, b) && Encloses(blocks, b, c)
    ensures Encloses(blocks, a, c)
    decreases c
  {
    if b != c { EnclosesThrough(blocks, a, b, blocks[c].parent.value); }
  }

  /** Every block inside the statement has the right parent in the table. */
  predicate Nested(s: Stmt, b: nat, blocks: seq<Block>)
    decreases s, 0
  {
    match s
    case Compound(id, body) => b < id < |blocks| && blocks[id].parent == Some(b) && AllNested(body, id, blocks)
    case If(_, thn, els) => Nested(thn, b, blocks) && (els.Some? ==> Nested(els.value, b, blocks))
    case While(_, inner) => Nested(inner, b, blocks)
    case DoWhile(inner, _) => Nested(inner, b, blocks)
    case For(_, _, _, inner) => Nested(inner, b, blocks)
    case Switch(_, clauses) => ClausesNested(clauses, b, blocks)
    case Break(after) => Nested(after, b, blocks)
    case _ => true
  }

  predicate AllNested(ss: seq<Stmt>, b: nat, blocks: seq<Block>)
    decreases ss, 0
  {
    ss != [] ==> Nested(ss[0], b, blocks) && AllNested(ss[1..], b, blocks)
  }

  predicate ClauseNested(c: Clause, b: nat, blocks: seq<Block>)
    decreases c, 0
  {
    AllNested(c.body, b, blocks)
  }

  predicate ClausesNested(cs: seq<Clause>, b: nat, blocks: seq<Block>)
    decreases cs, 0
  {
    cs != [] ==> ClauseNested(cs[0], b, blocks) && ClausesNested(cs[1..], b, blocks)
  }

  /** Breaks only inside switches. */
  predicate BreakFree(s: Stmt)
    decreases s, 0
  {
    match s
    case Compound(_, body) => AllBreakFree(body)
    case If(_, thn, els) => BreakFree(thn) && (els.Some? ==> BreakFree(els.value))
    case While(_, inner) => BreakFree(inner)
    case DoWhile(inner, _) => BreakFree(inner)
    case For(_, _, _, inner) => BreakFree(inner)
    case Break(_) => false
    case _ => true
  }

  predicate AllBreakFree(ss: seq<Stmt>)
    decreases ss, 0
  {
    ss != [] ==> BreakFree(ss[0]) && AllBreakFree(ss[1..])
  }

  // ----- the block the parser is in -----

  function Same(n: nat, b: nat): (r: seq<nat>)
    ensures |r| == n && forall k :: 0 <= k < n ==> r[k] == b
  {
    seq(n, _ => b)
  }

  /** The block the parser is in as it emits each instruction of a statement that it reads in block b. */
  function Scopes(s: Stmt, base: nat, brk: nat, b: nat): (r: seq<nat>)
    decreases s, 0
  {
    match s
    case Compound(id, body) => Same(1, b) + ScopesOfAll(body, base + 1, brk, id) + Same(1, id)
    case If(_, thn, els) =>
      var f := IfPlaces(s, base, brk);
      Same(f.inner - base, b) + Scopes(thn, f.inner, brk, b)
      + (match els case None => [] case Some(e) => Same(2, b) + Scopes(e, f.after + 2, brk, b)) + Same(1, b)
    case While(_, inner) =>
      var f := WhilePlaces(s, base, brk);
      Same(f.inner - base, b) + Scopes(inner, f.inner, brk, b) + Same(2, b)
    case DoWhile(inner, cond) => Same(1, b) + Scopes(inner, base + 1, brk, b) + Same(|CExpr(cond, 0)| + 1, b)
    case For(_, _, _, inner) =>
      var f := ForPlaces(s, base, brk);
      Same(f.entry + 1 - base, b) + Scopes(inner, f.entry + 1, brk, b) + Same(2, b)
    case Switch(_, clauses) =>
      var f := SwitchPlaces(s, base);
      Same(f.first - base, b) + ScopesOfClauses(clauses, f.first, f.exit, b) + Same(f.end + 1 - f.check, b)
    case Break(after) => Same(1, b) + Scopes(after, base + 1, brk, b)
    case _ => Same(|CStmt(s, base, brk)|, b)
  }

  function ScopesOfAll(ss: seq<Stmt>, base: nat, brk: nat, b: nat): seq<nat>
    decreases ss, 0
  {
    if ss == [] then []
    else Scopes(ss[0], base, brk, b) + ScopesOfAll(ss[1..], base + |CStmt(ss[0], base, brk)|, brk, b)
  }

  function ScopesOfClause(c: Clause, base: nat, brk: nat, b: nat): seq<nat>
    decreases c, 0
  {
    Same(1, b) + ScopesOfAll(c.body, base + 1, brk, b)
  }

  function ScopesOfClauses(cs: seq<Clause>, base: nat, brk: nat, b: nat): seq<nat>
    decreases cs, 0
  {
    if cs == [] then []
    else ScopesOfClause(cs[0], base, brk, b) + ScopesOfClauses(cs[1..], base + |CClause(cs[0], base, brk)|, brk, b)
  }

  // ----- where jumps go -----

  /** Where breaks go, and the level of the statements they are read in: the block b and the height h. */
  datatype Out = Out(brk: int, b: nat, h: int)

  /** The indices a statement's jumps may go to, and its way out. */
  datatype Span = Span(lo: nat, hi: nat, out: Option<Out>)

  ghost predicate LabelIn(c: Linkage, r: Span, t: int) {
    r.lo <= t < r.hi <= |c.code| && c.code[t].op.Label?
  }

  /** The exit jump of a switch in this range: a jump that itself goes to a label there, at its own level. */
  ghost predicate ExitIn(c: Linkage, r: Span, t: int) {
    r.lo <= t < r.hi <= |c.code| && c.code[t].op.Jump? && LabelIn(c, r, c.code[t].int1) && Up(c, t, c.code[t].int1)
  }

  /** From index k to t the height stays the same, and the block the same or one around it. */
  ghost predicate Up(c: Linkage, k: nat, t: nat)
    requires k <= |c.code| && t <= |c.code|
  {
    && LevelAt(c, k).height == LevelAt(c, t).height
    && LevelAt(c, k).block.Some? && LevelAt(c, t).block.Some?
    && Encloses(c.blocks, LevelAt(c, t).block.value, LevelAt(c, k).block.value)
  }

  ghost predicate BreakOut(c: Linkage, r: Span, k: nat, t: int)
    requires k <= |c.code|
  {
    && r.out.Some? && t == r.out.value.brk && LevelAt(c, k).height == r.out.value.h
    && LevelAt(c, k).block.Some? && Encloses(c.blocks, r.out.value.b, LevelAt(c, k).block.value)
  }

  /** A jump at index k goes to a label of the range, or it is a break: to the exit jump of a switch in the range, or
      out of the statement.  A block's start marker lies in the block's parent, its end marker in the block. */
  ghost predicate JumpLinked(c: Linkage, r: Span, k: nat)
    requires k < |c.code|
  {
    var ins := c.code[k];
    && (ins.op.Jz? || ins.op.Jnz? ==> LabelIn(c, r, ins.int1) && Up(c, k, ins.int1))
    && (ins.op.Jump? ==>
          || (LabelIn(c, r, ins.int1) && Up(c, k, ins.int1))
          || (ExitIn(c, r, ins.int1) && Up(c, k, ins.int1))
          || BreakOut(c, r, k, ins.int1))
    && (ins.op.BlockStart? ==> 0 <= ins.int1 < |c.blocks| && LevelAt(c, k).block == c.blocks[ins.int1].parent)
    && (ins.op.BlockEnd? ==> 0 <= ins.int1 < |c.blocks| && LevelAt(c, k).block == Some(ins.int1))
  }

  ghost predicate AllLinked(c: Linkage, r: Span, start: nat, end: nat) {
    end <= |c.code| && forall k :: start <= k < end ==> JumpLinked(c, r, k)
  }

  ghost predicate InScope(c: Linkage, k: nat, b: nat) {
    k <= |c.code| && LevelAt(c, k).block == Some(b)
  }

  ghost predicate ScopesAt(c: Linkage, start: nat, scopes: seq<nat>) {
    forall k :: 0 <= k < |scopes| ==> InScope(c, start + k, scopes[k])
  }

  /** A piece from `start` to `end`, entered and left at the level (b, h). */
  ghost predicate Fits(c: Linkage, r: Span, b: nat, h: int, start: nat, end: nat, scopes: seq<nat>) {
    && start <= end <= |c.code| && AllLinked(c, r, start, end)
    && LevelAt(c, start) == LevelAt(c, end) == Level(Some(b), h)
    && |scopes| == end - start && ScopesAt(c, start, scopes)
  }

  ghost predicate Entered(c: Linkage, b: nat, h: int, start: nat) {
    start <= |c.code| && LevelAt(c, start) == Level(Some(b), h)
  }

  lemma FitsEnds(c: Linkage, r: Span, b: nat, h: int, start: nat, end: nat, scopes: seq<nat>)
    requires Fits(c, r, b, h, start, end, scopes)
    ensures Entered(c, b, h, start) && Entered(c, b, h, end) && |scopes| == end - start
  {
    hide LevelAt;
  }

  lemma FitsJoin(c: Linkage, r: Span, b: nat, h: int, start: nat, mid: nat, end: nat, xs: seq<nat>, ys: seq<nat>)
    requires Fits(c, r, b, h, start, mid, xs) && Fits(c, r, b, h, mid, end, ys)
    ensures Fits(c, r, b, h, start, end, xs + ys)
  {
    hide JumpLinked, LevelAt, InScope;
    forall k | 0 <= k < |xs + ys| ensures InScope(c, start + k, (xs + ys)[k]) {
      if k >= |xs| { assert InScope(c, mid + (k - |xs|), ys[k - |xs|]); }
    }
    assert LevelAt(c, start) == LevelAt(c, end);
  }

  lemma FitsNothing(c: Linkage, r: Span, b: nat, h: int, start: nat)
    requires Entered(c, b, h, start)
    ensures Fits(c, r, b, h, start, start, [])
  {
    hide LevelAt;
  }

  lemma LabelWiden(c: Linkage, r: Span, r': Span, t: int)
    requires LabelIn(c, r, t) && r'.lo <= r.lo && r.hi <= r'.hi <= |c.code|
    ensures LabelIn(c, r', t)
  {
  }

  lemma FitsWiden(c: Linkage, r: Span, r': Span, b: nat, h: int, start: nat, end: nat, scopes: seq<nat>)
    requires Fits(c, r, b, h, start, end, scopes)
    requires r'.lo <= r.lo && r.hi <= r'.hi <= |c.code| && r.out == r'.out
    ensures Fits(c, r', b, h, start, end, scopes)
  {
    hide LevelAt, Up, InScope;
    forall k | start <= k < end ensures JumpLinked(c, r', k) {
      assert JumpLinked(c, r, k);
    }
  }

  /** Breaks to a switch's own exit jump are linked wherever the switch is. */
  lemma FitsExit(c: Linkage, r: Span, out: Option<Out>, b: nat, h: int, exit: nat, start: nat, end: nat,
                 scopes: seq<nat>)
    requires Fits(c, r, b, h, start, end, scopes) && r.out == Some(Out(exit, b, h))
    requires ExitIn(c, r, exit) && Entered(c, b, h, exit)
    ensures Fits(c, r.(out := out), b, h, start, end, scopes)
  {
    hide LevelAt, InScope;
    forall k | start <= k < end ensures JumpLinked(c, r.(out := out), k) {
      assert JumpLinked(c, r, k);
    }
  }

  /** A block's breaks, seen from outside the block. */
  lemma LinkedOutwards(c: Linkage, r: Span, b: nat, h: int, id: nat, out: Option<Out>, start: nat, end: nat)
    requires r.out == (match out case None => None case Some(o) => Some(o.(b := id)))
    requires AllLinked(c, r, start, end) && (out.Some? ==> out.value.b == b && Encloses(c.blocks, b, id))
    ensures AllLinked(c, r.(out := out), start, end)
  {
    hide LevelAt;
    forall k | start <= k < end ensures JumpLinked(c, r.(out := out), k) {
      assert JumpLinked(c, r, k);
      if BreakOut(c, r, k, c.code[k].int1) {
        EnclosesThrough(c.blocks, b, id, LevelAt(c, k).block.value);
      }
    }
  }

  // ----- pieces -----

  /** Plain code moves the height by its balance and stays in its block. */
  lemma {:induction false} PlainLevel(c: Linkage, base: nat, piece: seq<Instr>, b: nat, h: int, j: nat)
    requires At(c.code, base, piece) && AllPlain(piece) && j <= |piece| && Entered(c, b, h, base)
    ensures Entered(c, b, h + Net(piece[..j]), base + j)
    decreases j
  {
    hide At, LevelAt;
    AtBounds(c.code, base, piece);
    if j > 0 {
      PlainLevel(c, base, piece, b, h, j - 1);
      AtIndex(c.code, base, piece, j - 1);
      LevelNext(c, base + j - 1);
      assert piece[..j][..j - 1] == piece[..j - 1] && piece[..j][j - 1] == piece[j - 1];
      assert IsPlain(piece[j - 1].op);
    } else {
      assert piece[..0] == [];
    }
  }

  lemma AtBounds(code: seq<Instr>, base: nat, piece: seq<Instr>)
    requires At(code, base, piece)
    ensures base + |piece| <= |code|
  {
  }

  lemma FitsPlain(c: Linkage, r: Span, b: nat, h: int, base: nat, piece: seq<Instr>)
    requires At(c.code, base, piece) && Balance(piece, 0) && Entered(c, b, h, base)
    ensures Fits(c, r, b, h, base, base + |piece|, Same(|piece|, b))
  {
    hide At, LevelAt, Net;
    AtBounds(c.code, base, piece);
    forall k | base <= k < base + |piece| ensures JumpLinked(c, r, k) {
      AtIndex(c.code, base, piece, k - base);
      assert IsPlain(piece[k - base].op);
    }
    var scopes := Same(|piece|, b);
    forall k | 0 <= k < |scopes| ensures InScope(c, base + k, scopes[k]) {
      PlainLevel(c, base, piece, b, h, k);
    }
    PlainLevel(c, base, piece, b, h, |piece|);
    assert piece[..|piece|] == piece;
  }

  /** One instruction that is no marker; a jump goes to a label at the same level, or out. */
  lemma FitsOne(c: Linkage, r: Span, b: nat, h: int, k: nat, ins: Instr)
    requires At(c.code, k, [ins]) && Entered(c, b, h, k)
    requires ins.op.Label? || ins.op.Return? || ins.op.Jump? || ins.op.Jz? || ins.op.Jnz?
    requires ins.op.Jz? || ins.op.Jnz? ==> LabelIn(c, r, ins.int1) && Entered(c, b, h, ins.int1)
    requires ins.op.Jump? ==>
               || (LabelIn(c, r, ins.int1) && Entered(c, b, h, ins.int1))
               || (r.out.Some? && r.out.value == Out(ins.int1, b, h))
    ensures Fits(c, r, b, h, k, k + 1, Same(1, b))
  {
    hide LevelAt, At;
    AtBounds(c.code, k, [ins]);
    AtOne(c.code, k, ins);
    LevelNext(c, k);
  }

  lemma LabelThere(c: Linkage, r: Span, k: nat)
    requires At(c.code, k, [Ins(Label, 0)]) && r.lo <= k < r.hi <= |c.code|
    ensures LabelIn(c, r, k)
  {
    AtOne(c.code, k, Ins(Label, 0));
  }

  /** A label, whose level is that before it. */
  lemma LabelFits(c: Linkage, r: Span, b: nat, h: int, k: nat)
    requires At(c.code, k, [Ins(Label, 0)]) && Entered(c, b, h, k) && r.lo <= k < r.hi <= |c.code|
    ensures Fits(c, r, b, h, k, k + 1, Same(1, b)) && LabelIn(c, r, k) && Entered(c, b, h, k + 1)
  {
    hide LevelAt, At, Fits;
    FitsOne(c, r, b, h, k, Ins(Label, 0));
    FitsEnds(c, r, b, h, k, k + 1, Same(1, b));
    LabelThere(c, r, k);
  }

  /** Levels behind one instruction that is neither marker nor push nor pop. */
  lemma EnteredNext(c: Linkage, b: nat, h: int, k: nat, ins: Instr)
    requires At(c.code, k, [ins]) && Entered(c, b, h, k)
    requires ins.op.Label? || ins.op.Return? || ins.op.Jump? || ins.op.Jz? || ins.op.Jnz?
    ensures Entered(c, b, h, k + 1)
  {
    hide LevelAt, At;
    AtBounds(c.code, k, [ins]);
    AtOne(c.code, k, ins);
    LevelNext(c, k);
  }

  lemma EnteredTest(c: Linkage, b: nat, h: int, base: nat, test: seq<Instr>, jump: Instr)
    requires At(c.code, base, test + [jump]) && Balance(test, 0) && (jump.op.Jz? || jump.op.Jnz?)
    requires Entered(c, b, h, base)
    ensures Entered(c, b, h, base + |test| + 1)
  {
    hide LevelAt, At, Net;
    AtSplit(c.code, base, test, [jump]);
    PlainLevel(c, base, test, b, h, |test|);
    assert test[..|test|] == test;
    EnteredNext(c, b, h, base + |test|, jump);
  }

  /** A plain piece and the conditional jump behind it. */
  lemma TestFits(c: Linkage, r: Span, b: nat, h: int, base: nat, test: seq<Instr>, jump: Instr)
    requires At(c.code, base, test + [jump]) && Balance(test, 0) && (jump.op.Jz? || jump.op.Jnz?)
    requires LabelIn(c, r, jump.int1) && Entered(c, b, h, jump.int1) && Entered(c, b, h, base)
    ensures Fits(c, r, b, h, base, base + |test| + 1, Same(|test| + 1, b))
  {
    hide LevelAt, At, Balance, Fits;
    AtSplit(c.code, base, test, [jump]);
    FitsPlain(c, r, b, h, base, test);
    FitsEnds(c, r, b, h, base, base + |test|, Same(|test|, b));
    FitsOne(c, r, b, h, base + |test|, jump);
    FitsJoin(c, r, b, h, base, base + |test|, base + |test| + 1, Same(|test|, b), Same(1, b));
    assert Same(|test|, b) + Same(1, b) == Same(|test| + 1, b);
  }

  // ----- statements -----

  /** What every lemma below starts from and ends with. */
  ghost predicate Located(c: Linkage, s: Stmt, base: nat, out: Option<Out>, brk: nat, b: nat, h: int) {
    && At(c.code, base, CStmt(s, base, brk)) && Entered(c, b, h, base) && Nested(s, b, c.blocks)
    && (if out.Some? then out.value == Out(brk, b, h) else BreakFree(s))
  }

  ghost predicate StmtFits(c: Linkage, s: Stmt, base: nat, out: Option<Out>, brk: nat, b: nat, h: int) {
    var end := base + |CStmt(s, base, brk)|;
    Fits(c, Span(base, end, out), b, h, base, end, Scopes(s, base, brk, b))
  }

  /** The theorem: after back-patching, every jump of a statement's code goes to a label inside that code, or is a
      break, which goes to the exit jump of the nearest switch around it; no jump changes the height of the push stack
      or enters a block; the statement is left at the level at which it is entered; and the block in force at each
      instruction, as the markers say, is the one the parser was in. */
  lemma {:induction false} StmtLinked(c: Linkage, s: Stmt, base: nat, out: Option<Out>, brk: nat, b: nat, h: int)
    requires Located(c, s, base, out, brk, b, h)
    ensures StmtFits(c, s, base, out, brk, b, h)
    decreases s, 3
  {
    hide Fits, At, Balance, LevelAt;
    match s
    case Compound(_, _) => CompoundLinked(c, s, base, out, brk, b, h);
    case If(_, _, _) => IfLinked(c, s, base, out, brk, b, h);
    case While(_, _) => WhileLinked(c, s, base, out, brk, b, h);
    case DoWhile(_, _) => DoLinked(c, s, base, out, brk, b, h);
    case For(_, _, _, _) => ForLinked(c, s, base, out, brk, b, h);
    case Switch(_, _) => SwitchLinked(c, s, base, out, brk, b, h);
    case Break(_) => BreakLinked(c, s, base, out, brk, b, h);
    case ReturnFrom(_, _) => ReturnLinked(c, s, base, out, brk, b, h);
    case _ => SimpleLinked(c, s, base, out, brk, b, h);
  }

  lemma SimpleLinked(c: Linkage, s: Stmt, base: nat, out: Option<Out>, brk: nat, b: nat, h: int)
    requires s.Empty? || s.Declare? || s.Evaluate? || s.Assignment?
    requires Located(c, s, base, out, brk, b, h)
    ensures StmtFits(c, s, base, out, brk, b, h)
  {
    hide Fits, At, Balance, LevelAt, COperand, CAssign, CInits;
    Nothing();
    match s {
      case Declare(_, ds) => InitsPlain(InitsOf(ds));
      case Evaluate(o) => OperandPlain(o, 0);
      case Assignment(a) => AssignPlain(a);
      case Empty =>
    }
    var code := CStmt(s, base, brk);
    FitsPlain(c, Span(base, base + |code|, out), b, h, base, code);
  }

  lemma ReturnLinked(c: Linkage, s: Stmt, base: nat, out: Option<Out>, brk: nat, b: nat, h: int)
    requires s.ReturnFrom? && Located(c, s, base, out, brk, b, h)
    ensures StmtFits(c, s, base, out, brk, b, h)
  {
    hide Fits, At, Balance, LevelAt, CExpr;
    var v := match s.value case None => [] case Some(e) => CExpr(e, 0);
    Nothing();
    if s.value.Some? { ExprPlain(s.value.value, 0); }
    var end := base + |v| + 1;
    var r := Span(base, end, out);
    AtSplit(c.code, base, v, [Named(Return, 0, s.fname)]);
    FitsPlain(c, r, b, h, base, v);
    FitsEnds(c, r, b, h, base, end - 1, Same(|v|, b));
    FitsOne(c, r, b, h, end - 1, Named(Return, 0, s.fname));
    FitsJoin(c, r, b, h, base, end - 1, end, Same(|v|, b), Same(1, b));
    assert Same(|v|, b) + Same(1, b) == Same(|v| + 1, b);
  }

  lemma {:induction false} BreakLinked(c: Linkage, s: Stmt, base: nat, out: Option<Out>, brk: nat, b: nat, h: int)
    requires s.Break? && Located(c, s, base, out, brk, b, h)
    ensures StmtFits(c, s, base, out, brk, b, h)
    decreases s, 2
  {
    hide Fits, At, LevelAt;
    var after := CStmt(s.after, base + 1, brk);
    var end := base + 1 + |after|;
    var r := Span(base, end, out);
    AtBounds(c.code, base, CStmt(s, base, brk));
    AtSplit(c.code, base, [Target(Jump, brk)], after);
    FitsOne(c, r, b, h, base, Target(Jump, brk));
    FitsEnds(c, r, b, h, base, base + 1, Same(1, b));
    StmtLinked(c, s.after, base + 1, out, brk, b, h);
    FitsWiden(c, Span(base + 1, end, out), r, b, h, base + 1, end, Scopes(s.after, base + 1, brk, b));
    FitsJoin(c, r, b, h, base, base + 1, end, Same(1, b), Scopes(s.after, base + 1, brk, b));
  }

  lemma {:induction false} StmtsLinked(c: Linkage, ss: seq<Stmt>, base: nat, out: Option<Out>, brk: nat, b: nat, h: int)
    requires At(c.code, base, CStmts(ss, base, brk)) && Entered(c, b, h, base) && AllNested(ss, b, c.blocks)
    requires if out.Some? then out.value == Out(brk, b, h) else AllBreakFree(ss)
    ensures var end := base + |CStmts(ss, base, brk)|;
            Fits(c, Span(base, end, out), b, h, base, end, ScopesOfAll(ss, base, brk, b))
    decreases ss, 1
  {
    hide Fits, At, LevelAt, CStmt, Scopes, Nested, BreakFree;
    var end := base + |CStmts(ss, base, brk)|;
    var r := Span(base, end, out);
    AtBounds(c.code, base, CStmts(ss, base, brk));
    if ss == [] {
      FitsNothing(c, r, b, h, base);
    } else {
      var first := CStmt(ss[0], base, brk);
      var mid := base + |first|;
      var xs, ys := Scopes(ss[0], base, brk, b), ScopesOfAll(ss[1..], mid, brk, b);
      AtSplit(c.code, base, first, CStmts(ss[1..], mid, brk));
      StmtLinked(c, ss[0], base, out, brk, b, h);
      FitsEnds(c, Span(base, mid, out), b, h, base, mid, xs);
      StmtsLinked(c, ss[1..], mid, out, brk, b, h);
      FitsWiden(c, Span(base, mid, out), r, b, h, base, mid, xs);
      FitsWiden(c, Span(mid, end, out), r, b, h, mid, end, ys);
      FitsJoin(c, r, b, h, base, mid, end, xs, ys);
    }
  }

  lemma {:induction false} CompoundLinked(c: Linkage, s: Stmt, base: nat, out: Option<Out>, brk: nat, b: nat, h: int)
    requires s.Compound? && Located(c, s, base, out, brk, b, h)
    ensures StmtFits(c, s, base, out, brk, b, h)
    decreases s, 2
  {
    hide Fits, At, LevelAt, CStmts, ScopesOfAll, AllNested, AllBreakFree;
    var id, body := s.id, CStmts(s.body, base + 1, brk);
    var end := base + 2 + |body|;
    var inner := match out case None => None case Some(o) => Some(o.(b := id));
    var ys := ScopesOfAll(s.body, base + 1, brk, id);
    AtBounds(c.code, base, CStmt(s, base, brk));
    AtSplit(c.code, base, [Marker(BlockStart, id)] + body, [Marker(BlockEnd, id)]);
    AtSplit(c.code, base, [Marker(BlockStart, id)], body);
    StartLevel(c, b, h, base, id);
    StmtsLinked(c, s.body, base + 1, inner, brk, id, h);
    FitsEnds(c, Span(base + 1, end - 1, inner), id, h, base + 1, end - 1, ys);
    EndLevel(c, b, h, end - 1, id);
    BlockFits(c, Span(base + 1, end - 1, inner), Span(base, end, out), b, h, id, base, end, ys);
  }

  lemma StartLevel(c: Linkage, b: nat, h: int, k: nat, id: nat)
    requires At(c.code, k, [Marker(BlockStart, id)]) && Entered(c, b, h, k)
    ensures Entered(c, id, h, k + 1)
  {
    AtBounds(c.code, k, [Marker(BlockStart, id)]);
    AtOne(c.code, k, Marker(BlockStart, id));
    LevelNext(c, k);
  }

  lemma EndLevel(c: Linkage, b: nat, h: int, k: nat, id: nat)
    requires At(c.code, k, [Marker(BlockEnd, id)]) && Entered(c, id, h, k)
    requires id < |c.blocks| && c.blocks[id].parent == Some(b)
    ensures Entered(c, b, h, k + 1)
  {
    AtBounds(c.code, k, [Marker(BlockEnd, id)]);
    AtOne(c.code, k, Marker(BlockEnd, id));
    LevelNext(c, k);
  }

  /** Between its markers a block is at its own level; around them, at that of the block it is in. */
  lemma BlockFits(c: Linkage, r: Span, r': Span, b: nat, h: int, id: nat, base: nat, end: nat, ys: seq<nat>)
    requires end >= base + 2 && Fits(c, r, id, h, base + 1, end - 1, ys)
    requires r'.lo <= r.lo && r.hi <= r'.hi <= |c.code|
    requires r.out == (match r'.out case None => None case Some(o) => Some(o.(b := id)))
    requires r'.out.Some? ==> r'.out.value.b == b
    requires b < id < |c.blocks| && c.blocks[id].parent == Some(b)
    requires Entered(c, b, h, base) && Entered(c, b, h, end) && At(c.code, base, [Marker(BlockStart, id)])
    requires At(c.code, end - 1, [Marker(BlockEnd, id)])
    ensures Fits(c, r', b, h, base, end, Same(1, b) + ys + Same(1, id))
  {
    hide LevelAt, At, JumpLinked, InScope;
    FitsWiden(c, r, r'.(out := r.out), id, h, base + 1, end - 1, ys);
    LinkedOutwards(c, r'.(out := r.out), b, h, id, r'.out, base + 1, end - 1);
    MarkersLinked(c, r', b, h, id, base, end);
    var scopes := Same(1, b) + ys + Same(1, id);
    forall k | 0 <= k < |scopes| ensures InScope(c, base + k, scopes[k]) {
      if 0 < k < |scopes| - 1 { assert InScope(c, base + 1 + (k - 1), ys[k - 1]); }
    }
    forall k | base <= k < end ensures JumpLinked(c, r', k) {}
  }

  lemma MarkersLinked(c: Linkage, r: Span, b: nat, h: int, id: nat, base: nat, end: nat)
    requires base + 2 <= end <= |c.code| && Entered(c, b, h, base) && Entered(c, id, h, end - 1)
    requires At(c.code, base, [Marker(BlockStart, id)]) && At(c.code, end - 1, [Marker(BlockEnd, id)])
    requires id < |c.blocks| && c.blocks[id].parent == Some(b)
    ensures JumpLinked(c, r, base) && JumpLinked(c, r, end - 1) && InScope(c, base, b) && InScope(c, end - 1, id)
  {
    hide LevelAt;
    AtOne(c.code, base, Marker(BlockStart, id));
    AtOne(c.code, end - 1, Marker(BlockEnd, id));
  }

  lemma {:induction false} IfLinked(c: Linkage, s: Stmt, base: nat, out: Option<Out>, brk: nat, b: nat, h: int)
    requires s.If? && Located(c, s, base, out, brk, b, h)
    ensures StmtFits(c, s, base, out, brk, b, h)
    decreases s, 2
  {
    hide Fits, At, Balance, LevelAt, CStmt, CExpr, LabelIn, Scopes, IfPlaces;
    var f, end := IfPlaces(s, base, brk), base + |CStmt(s, base, brk)|;
    var r, test := Span(base, end, out), CExpr(s.cond, 0);
    AtBounds(c.code, base, CStmt(s, base, brk));
    IfPieces(c.code, s, base, brk);
    IfOrder(s, base, brk, b);
    ExprPlain(s.cond, 0);
    var jz := Target(Jz, if s.els.None? then f.after else f.after + 1);
    EnteredTest(c, b, h, base, test, jz);
    var xs := Scopes(s.thn, f.inner, brk, b);
    StmtLinked(c, s.thn, f.inner, out, brk, b, h);
    FitsEnds(c, Span(f.inner, f.after, out), b, h, f.inner, f.after, xs);
    FitsWiden(c, Span(f.inner, f.after, out), r, b, h, f.inner, f.after, xs);
    if s.els.None? {
      LabelFits(c, r, b, h, f.end);
      TestFits(c, r, b, h, base, test, jz);
      FitsJoin(c, r, b, h, base, f.inner, f.after, Same(f.inner - base, b), xs);
      FitsJoin(c, r, b, h, base, f.after, end, Same(f.inner - base, b) + xs, Same(1, b));
    } else {
      ElseLinked(c, s, base, out, brk, b, h, r);
      var ys := Scopes(s.els.value, f.after + 2, brk, b);
      LabelThere(c, r, f.after + 1);
      TestFits(c, r, b, h, base, test, jz);
      FitsJoin(c, r, b, h, base, f.inner, f.after, Same(f.inner - base, b), xs);
      FitsJoin(c, r, b, h, base, f.after, f.end, Same(f.inner - base, b) + xs, Same(2, b) + ys);
      FitsEnds(c, r, b, h, f.after, f.end, Same(2, b) + ys);
      LabelFits(c, r, b, h, f.end);
      FitsJoin(c, r, b, h, base, f.end, end, Same(f.inner - base, b) + xs + (Same(2, b) + ys), Same(1, b));
    }
  }

  lemma IfOrder(s: Stmt, base: nat, brk: nat, b: nat)
    requires s.If?
    ensures var f := IfPlaces(s, base, brk);
            && f.inner == base + |CExpr(s.cond, 0)| + 1 && f.after == f.inner + |CStmt(s.thn, f.inner, brk)|
            && f.after <= f.end && (s.els.None? ==> f.end == f.after)
            && (s.els.Some? ==> f.end == f.after + 2 + |CStmt(s.els.value, f.after + 2, brk)|)
            && (s.els.None? ==>
                  Scopes(s, base, brk, b) == Same(f.inner - base, b) + Scopes(s.thn, f.inner, brk, b) + Same(1, b))
            && (s.els.Some? ==>
                  Scopes(s, base, brk, b)
                  == Same(f.inner - base, b) + Scopes(s.thn, f.inner, brk, b)
                     + (Same(2, b) + Scopes(s.els.value, f.after + 2, brk, b)) + Same(1, b))
  {
    hide CExpr, CStmt;
  }

  /** The jump around the other branch, its label, and the branch. */
  lemma {:induction false} ElseLinked(c: Linkage, s: Stmt, base: nat, out: Option<Out>, brk: nat, b: nat, h: int,
                                      r: Span)
    requires s.If? && s.els.Some? && IfAt(c.code, s, base, brk) && Nested(s.els.value, b, c.blocks)
    requires if out.Some? then out.value == Out(brk, b, h) else BreakFree(s.els.value)
    requires var f := IfPlaces(s, base, brk);
             r.lo <= f.after && f.end < r.hi <= |c.code| && r.out == out && Entered(c, b, h, f.after)
    ensures var f := IfPlaces(s, base, brk);
            && Fits(c, r, b, h, f.after, f.end, Same(2, b) + Scopes(s.els.value, f.after + 2, brk, b))
            && Entered(c, b, h, f.after + 1)
    decreases s, 0
  {
    hide Fits, At, LevelAt, CStmt, CExpr, LabelIn, Scopes;
    var f := IfPlaces(s, base, brk);
    EnteredNext(c, b, h, f.after, Target(Jump, f.end));
    LabelFits(c, r, b, h, f.after + 1);
    var ys := Scopes(s.els.value, f.after + 2, brk, b);
    StmtLinked(c, s.els.value, f.after + 2, out, brk, b, h);
    FitsEnds(c, Span(f.after + 2, f.end, out), b, h, f.after + 2, f.end, ys);
    FitsWiden(c, Span(f.after + 2, f.end, out), r, b, h, f.after + 2, f.end, ys);
    LabelThere(c, r, f.end);
    FitsOne(c, r, b, h, f.after, Target(Jump, f.end));
    FitsJoin(c, r, b, h, f.after, f.after + 1, f.after + 2, Same(1, b), Same(1, b));
    assert Same(1, b) + Same(1, b) == Same(2, b);
    FitsJoin(c, r, b, h, f.after, f.after + 2, f.end, Same(2, b), ys);
  }

  lemma {:induction false} WhileLinked(c: Linkage, s: Stmt, base: nat, out: Option<Out>, brk: nat, b: nat, h: int)
    requires s.While? && Located(c, s, base, out, brk, b, h)
    ensures StmtFits(c, s, base, out, brk, b, h)
    decreases s, 2
  {
    hide Fits, At, Balance, LevelAt, CStmt, CExpr, LabelIn;
    var f, end := WhilePlaces(s, base, brk), base + |CStmt(s, base, brk)|;
    var r, test := Span(base, end, out), CExpr(s.cond, 0);
    AtBounds(c.code, base, CStmt(s, base, brk));
    WhilePieces(c.code, s, base, brk);
    ExprPlain(s.cond, 0);
    LabelFits(c, r, b, h, base);
    EnteredTest(c, b, h, base + 1, test, Target(Jz, f.end));
    var xs := Scopes(s.inner, f.inner, brk, b);
    StmtLinked(c, s.inner, f.inner, out, brk, b, h);
    FitsEnds(c, Span(f.inner, f.end - 1, out), b, h, f.inner, f.end - 1, xs);
    FitsWiden(c, Span(f.inner, f.end - 1, out), r, b, h, f.inner, f.end - 1, xs);
    FitsOne(c, r, b, h, f.end - 1, Target(Jump, base));
    EnteredNext(c, b, h, f.end - 1, Target(Jump, base));
    LabelFits(c, r, b, h, f.end);
    TestFits(c, r, b, h, base + 1, test, Target(Jz, f.end));
    var n := |test| + 1;
    FitsJoin(c, r, b, h, base, base + 1, f.inner, Same(1, b), Same(n, b));
    assert Same(1, b) + Same(n, b) == Same(f.inner - base, b);
    FitsJoin(c, r, b, h, base, f.inner, f.end - 1, Same(f.inner - base, b), xs);
    FitsJoin(c, r, b, h, f.end - 1, f.end, end, Same(1, b), Same(1, b));
    assert Same(1, b) + Same(1, b) == Same(2, b);
    FitsJoin(c, r, b, h, base, f.end - 1, end, Same(f.inner - base, b) + xs, Same(2, b));
  }

  lemma {:induction false} DoLinked(c: Linkage, s: Stmt, base: nat, out: Option<Out>, brk: nat, b: nat, h: int)
    requires s.DoWhile? && Located(c, s, base, out, brk, b, h)
    ensures StmtFits(c, s, base, out, brk, b, h)
    decreases s, 2
  {
    hide Fits, At, Balance, LevelAt, CStmt, CExpr, LabelIn;
    var at, end := DoTest(s, base, brk), base + |CStmt(s, base, brk)|;
    var r, test := Span(base, end, out), CExpr(s.cond, 0);
    AtBounds(c.code, base, CStmt(s, base, brk));
    DoPieces(c.code, s, base, brk);
    ExprPlain(s.cond, 0);
    LabelFits(c, r, b, h, base);
    var xs := Scopes(s.inner, base + 1, brk, b);
    StmtLinked(c, s.inner, base + 1, out, brk, b, h);
    FitsEnds(c, Span(base + 1, at, out), b, h, base + 1, at, xs);
    FitsWiden(c, Span(base + 1, at, out), r, b, h, base + 1, at, xs);
    TestFits(c, r, b, h, at, test, Target(Jnz, base));
    FitsJoin(c, r, b, h, base, base + 1, at, Same(1, b), xs);
    FitsJoin(c, r, b, h, base, at, end, Same(1, b) + xs, Same(|test| + 1, b));
  }

  /** The head of a for loop, from its initialisation to the label of its body. */
  lemma ForHeadLinked(c: Linkage, s: Stmt, base: nat, brk: nat, b: nat, h: int, r: Span)
    requires s.For? && ForAt(c.code, s, base, brk) && Entered(c, b, h, base)
    requires var f := ForPlaces(s, base, brk);
             r.lo <= base && f.end < r.hi <= |c.code| && LabelIn(c, r, f.end) && Entered(c, b, h, f.end)
    ensures var f := ForPlaces(s, base, brk);
            && Fits(c, r, b, h, base, f.entry + 1, Same(f.entry + 1 - base, b))
            && Entered(c, b, h, f.increment) && LabelIn(c, r, f.increment)
  {
    hide Fits, At, Balance, LevelAt, CStmt, COptAssign, CTest, LabelIn;
    var f := ForPlaces(s, base, brk);
    OptAssignPlain(s.init);
    TestPlain(s.test);
    OptAssignPlain(s.step);
    FitsPlain(c, r, b, h, base, COptAssign(s.init));
    FitsEnds(c, r, b, h, base, f.start, Same(f.start - base, b));
    LabelFits(c, r, b, h, f.start);
    FitsGrow(c, r, b, h, base, f.start, f.start + 1);
    TestFits(c, r, b, h, f.start + 1, CTest(s.test), Target(Jz, f.end));
    FitsGrow(c, r, b, h, base, f.start + 1, f.increment - 1);
    FitsEnds(c, r, b, h, base, f.increment - 1, Same(f.increment - 1 - base, b));
    EnteredNext(c, b, h, f.increment - 1, Target(Jump, f.entry));
    LabelFits(c, r, b, h, f.increment);
    FitsPlain(c, r, b, h, f.increment + 1, COptAssign(s.step));
    FitsEnds(c, r, b, h, f.increment + 1, f.entry - 1, Same(f.entry - 1 - (f.increment + 1), b));
    FitsOne(c, r, b, h, f.entry - 1, Target(Jump, f.start));
    EnteredNext(c, b, h, f.entry - 1, Target(Jump, f.start));
    LabelFits(c, r, b, h, f.entry);
    FitsOne(c, r, b, h, f.increment - 1, Target(Jump, f.entry));
    FitsGrow(c, r, b, h, base, f.increment - 1, f.increment);
    FitsGrow(c, r, b, h, base, f.increment, f.increment + 1);
    FitsGrow(c, r, b, h, base, f.increment + 1, f.entry - 1);
    FitsGrow(c, r, b, h, base, f.entry - 1, f.entry);
    FitsGrow(c, r, b, h, base, f.entry, f.entry + 1);
  }

  /** Joining two pieces that are in the same block throughout. */
  lemma FitsGrow(c: Linkage, r: Span, b: nat, h: int, start: nat, mid: nat, end: nat)
    requires start <= mid <= end && Fits(c, r, b, h, start, mid, Same(mid - start, b))
    requires Fits(c, r, b, h, mid, end, Same(end - mid, b))
    ensures Fits(c, r, b, h, start, end, Same(end - start, b))
  {
    hide Fits;
    FitsJoin(c, r, b, h, start, mid, end, Same(mid - start, b), Same(end - mid, b));
    assert Same(mid - start, b) + Same(end - mid, b) == Same(end - start, b);
  }

  lemma {:induction false} ForLinked(c: Linkage, s: Stmt, base: nat, out: Option<Out>, brk: nat, b: nat, h: int)
    requires s.For? && Located(c, s, base, out, brk, b, h)
    ensures StmtFits(c, s, base, out, brk, b, h)
    decreases s, 2
  {
    hide Fits, At, Balance, LevelAt, CStmt, COptAssign, CTest, LabelIn;
    var f, end := ForPlaces(s, base, brk), base + |CStmt(s, base, brk)|;
    var r := Span(base, end, out);
    AtBounds(c.code, base, CStmt(s, base, brk));
    ForPieces(c.code, s, base, brk);
    EnteredBody(c, s, base, brk, b, h);
    var xs := Scopes(s.inner, f.entry + 1, brk, b);
    StmtLinked(c, s.inner, f.entry + 1, out, brk, b, h);
    FitsEnds(c, Span(f.entry + 1, f.end - 1, out), b, h, f.entry + 1, f.end - 1, xs);
    FitsWiden(c, Span(f.entry + 1, f.end - 1, out), r, b, h, f.entry + 1, f.end - 1, xs);
    EnteredNext(c, b, h, f.end - 1, Target(Jump, f.increment));
    LabelFits(c, r, b, h, f.end);
    ForHeadLinked(c, s, base, brk, b, h, r);
    FitsOne(c, r, b, h, f.end - 1, Target(Jump, f.increment));
    FitsGrow(c, r, b, h, f.end - 1, f.end, end);
    FitsJoin(c, r, b, h, base, f.entry + 1, f.end - 1, Same(f.entry + 1 - base, b), xs);
    FitsJoin(c, r, b, h, base, f.end - 1, end, Same(f.entry + 1 - base, b) + xs, Same(2, b));
  }

  /** The levels through the head of a for loop, whatever its jumps go to. */
  lemma EnteredBody(c: Linkage, s: Stmt, base: nat, brk: nat, b: nat, h: int)
    requires s.For? && ForAt(c.code, s, base, brk) && Entered(c, b, h, base)
    ensures Entered(c, b, h, ForPlaces(s, base, brk).entry + 1)
  {
    hide At, Balance, LevelAt, CStmt, COptAssign, CTest;
    var f := ForPlaces(s, base, brk);
    OptAssignPlain(s.init);
    TestPlain(s.test);
    OptAssignPlain(s.step);
    EnteredPlain(c, b, h, base, COptAssign(s.init));
    EnteredNext(c, b, h, f.start, Ins(Label, 0));
    EnteredTest(c, b, h, f.start + 1, CTest(s.test), Target(Jz, f.end));
    EnteredNext(c, b, h, f.increment - 1, Target(Jump, f.entry));
    EnteredNext(c, b, h, f.increment, Ins(Label, 0));
    EnteredPlain(c, b, h, f.increment + 1, COptAssign(s.step));
    EnteredNext(c, b, h, f.entry - 1, Target(Jump, f.start));
    EnteredNext(c, b, h, f.entry, Ins(Label, 0));
  }

  lemma EnteredPlain(c: Linkage, b: nat, h: int, base: nat, piece: seq<Instr>)
    requires At(c.code, base, piece) && Balance(piece, 0) && Entered(c, b, h, base)
    ensures Entered(c, b, h, base + |piece|)
  {
    hide At, LevelAt, Net;
    PlainLevel(c, base, piece, b, h, |piece|);
    assert piece[..|piece|] == piece;
  }

  // ----- switches -----

  lemma {:induction false} ClausesLinked(c: Linkage, cs: seq<Clause>, base: nat, brk: nat, b: nat, h: int)
    requires At(c.code, base, CClauses(cs, base, brk)) && Entered(c, b, h, base) && ClausesNested(cs, b, c.blocks)
    ensures var end := base + |CClauses(cs, base, brk)|;
            Fits(c, Span(base, end, Some(Out(brk, b, h))), b, h, base, end, ScopesOfClauses(cs, base, brk, b))
    decreases cs, 1
  {
    hide Fits, At, LevelAt, CClause, ScopesOfClause, ClauseNested;
    var end, out := base + |CClauses(cs, base, brk)|, Some(Out(brk, b, h));
    var r := Span(base, end, out);
    AtBounds(c.code, base, CClauses(cs, base, brk));
    if cs == [] {
      FitsNothing(c, r, b, h, base);
    } else {
      var mid := base + |CClause(cs[0], base, brk)|;
      var xs, ys := ScopesOfClause(cs[0], base, brk, b), ScopesOfClauses(cs[1..], mid, brk, b);
      AtSplit(c.code, base, CClause(cs[0], base, brk), CClauses(cs[1..], mid, brk));
      ClauseLinked(c, cs[0], base, brk, b, h);
      FitsEnds(c, Span(base, mid, out), b, h, base, mid, xs);
      ClausesLinked(c, cs[1..], mid, brk, b, h);
      FitsWiden(c, Span(base, mid, out), r, b, h, base, mid, xs);
      FitsWiden(c, Span(mid, end, out), r, b, h, mid, end, ys);
      FitsJoin(c, r, b, h, base, mid, end, xs, ys);
    }
  }

  lemma {:induction false} ClauseLinked(c: Linkage, x: Clause, base: nat, brk: nat, b: nat, h: int)
    requires At(c.code, base, CClause(x, base, brk)) && Entered(c, b, h, base) && ClauseNested(x, b, c.blocks)
    ensures var end := base + |CClause(x, base, brk)|;
            Fits(c, Span(base, end, Some(Out(brk, b, h))), b, h, base, end, ScopesOfClause(x, base, brk, b))
    decreases x, 2
  {
    hide Fits, At, LevelAt, CStmts, ScopesOfAll, AllNested, LabelIn;
    var end, out := base + |CClause(x, base, brk)|, Some(Out(brk, b, h));
    var r, ys := Span(base, end, out), ScopesOfAll(x.body, base + 1, brk, b);
    AtBounds(c.code, base, CClause(x, base, brk));
    AtSplit(c.code, base, [Ins(Label, 0)], CStmts(x.body, base + 1, brk));
    LabelFits(c, r, b, h, base);
    StmtsLinked(c, x.body, base + 1, out, brk, b, h);
    FitsWiden(c, Span(base + 1, end, out), r, b, h, base + 1, end, ys);
    FitsJoin(c, r, b, h, base, base + 1, end, Same(1, b), ys);
  }

  /** The first of some clauses: its label is there, and the others follow. */
  lemma {:induction false} FirstClause(c: Linkage, cs: seq<Clause>, base: nat, brk: nat, b: nat, h: int)
    requires cs != [] && At(c.code, base, CClauses(cs, base, brk)) && Entered(c, b, h, base)
    requires ClausesNested(cs, b, c.blocks)
    ensures var next := base + |CClause(cs[0], base, brk)|;
            && LabelIn(c, Span(base, base + |CClauses(cs, base, brk)|, None), base)
            && At(c.code, next, CClauses(cs[1..], next, brk)) && Entered(c, b, h, next)
            && next + |CClauses(cs[1..], next, brk)| == base + |CClauses(cs, base, brk)|
            && ClausesNested(cs[1..], b, c.blocks)
    decreases cs, 3
  {
    hide At, CStmts, Fits, ScopesOfClause, ClauseNested, LevelAt;
    var first := CClause(cs[0], base, brk);
    AtBounds(c.code, base, CClauses(cs, base, brk));
    AtSplit(c.code, base, first, CClauses(cs[1..], base + |first|, brk));
    ClauseLinked(c, cs[0], base, brk, b, h);
    FitsEnds(c, Span(base, base + |first|, Some(Out(brk, b, h))), b, h, base, base + |first|,
             ScopesOfClause(cs[0], base, brk, b));
    AtSplit(c.code, base, [Ins(Label, 0)], CStmts(cs[0].body, base + 1, brk));
    LabelThere(c, Span(base, base + |CClauses(cs, base, brk)|, None), base);
  }

  lemma {:induction false} ChecksLinked(c: Linkage, cs: seq<Clause>, base: nat, exit: nat, at: nat, r: Span, b: nat,
                                        h: int)
    requires At(c.code, base, CClauses(cs, base, exit)) && Entered(c, b, h, base) && ClausesNested(cs, b, c.blocks)
    requires At(c.code, at, CChecks(cs, base, exit)) && Entered(c, b, h, at)
    requires r.lo <= base && base + |CClauses(cs, base, exit)| <= r.hi <= |c.code|
    ensures var n := |CChecks(cs, base, exit)|; Fits(c, r, b, h, at, at + n, Same(n, b)) && Entered(c, b, h, at + n)
    decreases cs, 4
  {
    hide Fits, At, LevelAt, CClause, CClauses, LabelIn, ClausesNested;
    if cs == [] {
      FitsNothing(c, r, b, h, at);
      assert Same(0, b) == [];
    } else {
      var next := base + |CClause(cs[0], base, exit)|;
      var more := CChecks(cs[1..], next, exit);
      FirstClause(c, cs, base, exit, b, h);
      LabelWiden(c, Span(base, base + |CClauses(cs, base, exit)|, None), r, base);
      assert CChecks(cs, base, exit) == (match cs[0].tag
        case None => more case Some(v) => [Const(0, v), Ins2(Equals, 0, 1), Target(Jnz, base)] + more);
      hide CChecks;
      match cs[0].tag
      case None => ChecksLinked(c, cs[1..], next, exit, at, r, b, h);
      case Some(v) =>
        AtSplit(c.code, at, [Const(0, v), Ins2(Equals, 0, 1), Target(Jnz, base)], more);
        CheckLinked(c, v, base, at, r, b, h);
        FitsEnds(c, r, b, h, at, at + 3, Same(3, b));
        ChecksLinked(c, cs[1..], next, exit, at + 3, r, b, h);
        FitsGrow(c, r, b, h, at, at + 3, at + 3 + |more|);
    }
  }

  lemma CheckLinked(c: Linkage, v: int, target: nat, at: nat, r: Span, b: nat, h: int)
    requires At(c.code, at, [Const(0, v), Ins2(Equals, 0, 1), Target(Jnz, target)]) && Entered(c, b, h, at)
    requires LabelIn(c, r, target) && Entered(c, b, h, target)
    ensures Fits(c, r, b, h, at, at + 3, Same(3, b))
  {
    hide Fits, At, LabelIn, LevelAt, Balance;
    var test := [Const(0, v), Ins2(Equals, 0, 1)];
    assert test + [Target(Jnz, target)] == [Const(0, v), Ins2(Equals, 0, 1), Target(Jnz, target)];
    Pair(Const(0, v), Ins2(Equals, 0, 1));
    TestFits(c, r, b, h, at, test, Target(Jnz, target));
  }

  lemma {:induction false} DefaultLabel(c: Linkage, cs: seq<Clause>, base: nat, exit: nat, b: nat, h: int)
    requires At(c.code, base, CClauses(cs, base, exit)) && Entered(c, b, h, base) && ClausesNested(cs, b, c.blocks)
    requires DefaultAt(cs, base, exit).Some?
    ensures var k := DefaultAt(cs, base, exit).value;
            LabelIn(c, Span(base, base + |CClauses(cs, base, exit)|, None), k) && Entered(c, b, h, k)
    decreases cs, 4
  {
    hide At, CClause, CClauses, ClausesNested, LevelAt, Fits;
    FirstClause(c, cs, base, exit, b, h);
    var next := base + |CClause(cs[0], base, exit)|;
    if DefaultAt(cs[1..], next, exit).Some? {
      DefaultLabel(c, cs[1..], next, exit, b, h);
    }
  }

  /** The checks and the jump to the default label. */
  lemma {:induction false} DispatchLinked(c: Linkage, s: Stmt, base: nat, r: Span, b: nat, h: int)
    requires s.Switch? && SwitchAt(c.code, s, base) && ClausesNested(s.clauses, b, c.blocks)
    requires var f := SwitchPlaces(s, base);
             r.lo <= base && f.end < r.hi <= |c.code| && Entered(c, b, h, f.first) && Entered(c, b, h, f.check + 1)
    ensures var f := SwitchPlaces(s, base);
            Fits(c, r, b, h, f.check + 1, f.end, Same(f.end - (f.check + 1), b)) && Entered(c, b, h, f.end)
    decreases s, 1
  {
    hide Fits, At, CExpr, LabelIn, CClauses, CChecks, LevelAt;
    var f, cs := SwitchPlaces(s, base), s.clauses;
    var checks := CChecks(cs, f.first, f.exit);
    AtSplit(c.code, f.check + 1, checks, CDefault(cs, f.first, f.exit));
    ChecksLinked(c, cs, f.first, f.exit, f.check + 1, r, b, h);
    match DefaultAt(cs, f.first, f.exit)
    case None =>
    case Some(k) =>
      DefaultLabel(c, cs, f.first, f.exit, b, h);
      LabelWiden(c, Span(f.first, f.check, None), r, k);
      FitsOne(c, r, b, h, f.end - 1, Target(Jump, k));
      EnteredNext(c, b, h, f.end - 1, Target(Jump, k));
      FitsGrow(c, r, b, h, f.check + 1, f.end - 1, f.end);
  }

  lemma {:induction false} SwitchLinked(c: Linkage, s: Stmt, base: nat, out: Option<Out>, brk: nat, b: nat, h: int)
    requires s.Switch? && Located(c, s, base, out, brk, b, h)
    ensures StmtFits(c, s, base, out, brk, b, h)
    decreases s, 2
  {
    hide Fits, At, Balance, LevelAt, CStmt, CExpr, LabelIn, CClauses, Checks, SwitchPlaces;
    var f, end := SwitchPlaces(s, base), base + |CStmt(s, base, brk)|;
    AtBounds(c.code, base, CStmt(s, base, brk));
    SwitchPieces(c.code, s, base, brk);
    var inside := Some(Out(f.exit, b, h));
    var r := Span(base, end, inside);
    SwitchOrder(s, base);
    ExprPlain(s.on, 1);
    FitsPlain(c, r, b, h, base, CExpr(s.on, 1));
    FitsEnds(c, r, b, h, base, f.exit - 1, Same(f.exit - 1 - base, b));
    EnteredNext(c, b, h, f.exit - 1, Target(Jump, f.check));
    EnteredNext(c, b, h, f.exit, Target(Jump, f.end));
    var ys := ScopesOfClauses(s.clauses, f.first, f.exit, b);
    ClausesLinked(c, s.clauses, f.first, f.exit, b, h);
    FitsEnds(c, Span(f.first, f.check, inside), b, h, f.first, f.check, ys);
    FitsWiden(c, Span(f.first, f.check, inside), r, b, h, f.first, f.check, ys);
    LabelFits(c, r, b, h, f.check);
    DispatchLinked(c, s, base, r, b, h);
    LabelFits(c, r, b, h, f.end);
    FitsOne(c, r, b, h, f.exit - 1, Target(Jump, f.check));
    FitsOne(c, r, b, h, f.exit, Target(Jump, f.end));
    FitsGrow(c, r, b, h, base, f.exit - 1, f.exit);
    FitsGrow(c, r, b, h, base, f.exit, f.first);
    FitsGrow(c, r, b, h, f.check, f.check + 1, f.end);
    FitsGrow(c, r, b, h, f.check, f.end, end);
    FitsJoin(c, r, b, h, base, f.first, f.check, Same(f.first - base, b), ys);
    FitsJoin(c, r, b, h, base, f.check, end, Same(f.first - base, b) + ys, Same(end - f.check, b));
    ExitThere(c, r, b, h, f.exit, f.end);
    FitsExit(c, r, out, b, h, f.exit, base, end, Same(f.first - base, b) + ys + Same(end - f.check, b));
  }

  lemma SwitchOrder(s: Stmt, base: nat)
    requires s.Switch?
    ensures var f := SwitchPlaces(s, base);
            && base < f.exit && f.first == f.exit + 1 && f.exit == base + |CExpr(s.on, 1)| + 1
            && f.check == f.first + |CClauses(s.clauses, f.first, f.exit)| && f.check < f.end
            && f.end == f.check + 1 + |Checks(s, f.first, f.exit)|
  {
  }

  lemma ExitThere(c: Linkage, r: Span, b: nat, h: int, exit: nat, end: nat)
    requires At(c.code, exit, [Target(Jump, end)]) && r.lo <= exit < r.hi <= |c.code| && LabelIn(c, r, end)
    requires Entered(c, b, h, exit) && Entered(c, b, h, end)
    ensures ExitIn(c, r, exit)
  {
    hide LevelAt;
    AtOne(c.code, exit, Target(Jump, end));
  }
}
