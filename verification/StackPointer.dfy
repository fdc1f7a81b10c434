/** The stack pointer along any way through a function's body, even one that leaves blocks by breaks. */
module StackPointer {
  import opened Words
  import opened Il
  import opened Ast
  import opened Compile
  import opened Pieces
  import opened Plain
  import opened Linked
  import opened Frame
  import opened Grammar
  import opened Scoping
  import opened Tables
  import opened Tokens
  import opened Runs
  import IlMachine

  /** What an instruction adds to the stack pointer, a call with its return adding nothing. */
  function SpMove(P: Program, ins: Instr): int {
    if ins.op.Push? then -16
    else if ins.op.Pop? then 16
    else if ins.op.BlockStart? && HasLocals(P, ins.int1) then -P.blocks[ins.int1].localsSize
    else if ins.op.BlockEnd? && HasLocals(P, ins.int1) then P.blocks[ins.int1].localsSize
    else 0
  }

  /** Control may go from index k to j inside a function body; whether a conditional jump is taken is left open. */
  predicate Follows(P: Program, k: nat, j: nat)
    requires k < |P.il|
  {
    var ins := P.il[k];
    if ins.op.Jump? then j == ins.int1
    else if ins.op.Jz? || ins.op.Jnz? then j == ins.int1 || j == k + 1
    else !ins.op.Return? && j == k + 1
  }

  /** A way through the indices from lo up to hi. */
  predicate IsPath(P: Program, path: seq<nat>, lo: nat, hi: nat)
    requires hi <= |P.il|
  {
    && path != [] && (forall i :: 0 <= i < |path| ==> lo <= path[i] <= hi)
    && forall i :: 0 <= i < |path| - 1 ==> PathStep(P, path, i, hi)
  }

  predicate PathStep(P: Program, path: seq<nat>, i: nat, hi: nat)
    requires i + 1 < |path| && hi <= |P.il|
  {
    path[i] < hi && Follows(P, path[i], path[i + 1])
  }

  function SpAlong(P: Program, path: seq<nat>): int {
    if |path| <= 1 || path[|path| - 2] >= |P.il| then 0
    else SpAlong(P, path[..|path| - 1]) + SpMove(P, P.il[path[|path| - 2]])
  }

  /** What the stack must hold at an index: the frame of the block in force, and the values pushed. */
  function Room(P: Program, k: nat): int
    requires k <= |P.il|
  {
    var l := LevelAt(Linkage(P.il, P.blocks), k);
    (match l.block case Some(b) => Depth(P.blocks, P.funcs, b) case None => 0) + 16 * l.height
  }

  lemma {:induction false} EnclosingDepth(P: Program, a: nat, b: nat)
    requires Sized(P) && 1 <= b < |P.blocks| && Encloses(P.blocks, a, b)
    ensures 1 <= a < |P.blocks| && Depth(P.blocks, P.funcs, a) <= Depth(P.blocks, P.funcs, b)
    decreases b
  {
    hide Depth, Outside, BlockSized;
    assert BlockOk(P.blocks, P.funcs, b);
    if a != b {
      var p := P.blocks[b].parent.value;
      EnclosingDepth(P, a, p);
      DepthGrows(P, b);
      OutsideIs(P, b, p);
    }
  }

  lemma OutsideIs(P: Program, b: nat, p: nat)
    requires b < |P.blocks| && P.blocks[b].parent == Some(p) && p < b
    ensures Outside(P.blocks, P.funcs, b) == Depth(P.blocks, P.funcs, p)
  {
  }

  /** The markers reserve and release exactly the difference in depth. */
  lemma MarkerMove(P: Program, id: nat, p: nat)
    requires Sized(P) && 1 <= id < |P.blocks| && P.blocks[id].parent == Some(p)
    ensures p < id && Depth(P.blocks, P.funcs, id)
         == Depth(P.blocks, P.funcs, p) + (if HasLocals(P, id) then P.blocks[id].localsSize else 0)
  {
    hide PlaceVars;
    assert BlockSized(P.types, P.blocks, P.funcs, id) && BlockOk(P.blocks, P.funcs, id);
  }

  /** No single step makes the stack pointer rise above what is needed. */
  lemma StepKeepsRoom(P: Program, r: Span, k: nat, j: nat)
    requires Sized(P) && k < |P.il| && j <= |P.il| && Follows(P, k, j)
    requires P.il[k].op.Jump? && r.out.Some? ==> j != r.out.value.brk
    requires JumpLinked(Linkage(P.il, P.blocks), r, k)
    requires LevelAt(Linkage(P.il, P.blocks), k).block.Some?
    requires 1 <= LevelAt(Linkage(P.il, P.blocks), k).block.value < |P.blocks|
    requires LevelAt(Linkage(P.il, P.blocks), j).block.Some?
    ensures SpMove(P, P.il[k]) + Room(P, j) <= Room(P, k)
  {
    hide LevelAt, Depth, LabelIn;
    var c, ins := Linkage(P.il, P.blocks), P.il[k];
    if ins.op.Jump? || ((ins.op.Jz? || ins.op.Jnz?) && j != k + 1) {
      assert Up(c, k, j);
      EnclosingDepth(P, LevelAt(c, j).block.value, LevelAt(c, k).block.value);
    } else {
      LevelNext(c, k);
      if ins.op.BlockStart? {
        MarkerMove(P, ins.int1, LevelAt(c, k).block.value);
      } else if ins.op.BlockEnd? {
        MarkerMove(P, ins.int1, LevelAt(c, j).block.value);
      }
    }
  }

  ghost predicate Inside(P: Program, k: nat) {
    k <= |P.il| && LevelAt(Linkage(P.il, P.blocks), k).block.Some?
    && 1 <= LevelAt(Linkage(P.il, P.blocks), k).block.value < |P.blocks|
  }

  /** Along every way through well-linked code the stack pointer falls at least by what the place reached needs more. */
  lemma {:induction false} PathKeepsRoom(P: Program, r: Span, path: seq<nat>, lo: nat, hi: nat)
    requires Sized(P) && hi <= |P.il| && IsPath(P, path, lo, hi) && r.out.None?
    requires AllLinked(Linkage(P.il, P.blocks), r, lo, hi) && forall k :: lo <= k <= hi ==> Inside(P, k)
    ensures SpAlong(P, path) + Room(P, path[|path| - 1]) <= Room(P, path[0])
    decreases |path|
  {
    hide LevelAt, Room, SpMove, JumpLinked, Follows;
    if |path| > 1 {
      var front := path[..|path| - 1];
      var k, j := path[|path| - 2], path[|path| - 1];
      assert front[|front| - 1] == k;
      forall i | 0 <= i < |front| - 1 ensures PathStep(P, front, i, hi) {
        assert PathStep(P, path, i, hi);
      }
      PathKeepsRoom(P, r, front, lo, hi);
      assert Inside(P, k) && Inside(P, j);
      assert PathStep(P, path, |path| - 2, hi);
      StepKeepsRoom(P, r, k, j);
    }
  }

  /** The body of a function between its block markers: statements in block `id`. */
  ghost predicate BodyAt(P: Program, body: seq<Stmt>, base: nat, id: nat, h: int) {
    && At(P.il, base, CStmts(body, base, 0)) && Entered(Linkage(P.il, P.blocks), id, h, base)
    && AllNested(body, id, P.blocks) && AllBreakFree(body) && 1 <= id < |P.blocks|
  }

  // ----- the blocks in a statement -----

  /** All of these blocks are b or inside it. */
  predicate Under(blocks: seq<Block>, b: nat, xs: seq<nat>) {
    forall k :: 0 <= k < |xs| ==> Encloses(blocks, b, xs[k])
  }

  lemma UnderJoin(blocks: seq<Block>, b: nat, xs: seq<nat>, ys: seq<nat>)
    requires Under(blocks, b, xs) && Under(blocks, b, ys)
    ensures Under(blocks, b, xs + ys)
  {
    hide Encloses;
  }

  lemma UnderSame(blocks: seq<Block>, b: nat, n: nat)
    ensures Under(blocks, b, Same(n, b))
  {
  }

  lemma UnderOuter(blocks: seq<Block>, b: nat, id: nat, xs: seq<nat>)
    requires Under(blocks, id, xs) && Encloses(blocks, b, id)
    ensures Under(blocks, b, xs)
  {
    hide Encloses;
    forall k | 0 <= k < |xs| ensures Encloses(blocks, b, xs[k]) { EnclosesThrough(blocks, b, id, xs[k]); }
  }

  /** Only blocks in the table, other than that of the globals, are inside one. */
  lemma {:induction false} EnclosedInside(blocks: seq<Block>, b: nat, x: nat)
    requires Encloses(blocks, b, x) && 1 <= b < |blocks|
    ensures 1 <= x < |blocks|
    decreases x
  {
  }

  /** Every instruction of a statement read in block b is in b or in a block inside it. */
  lemma {:induction false} ScopesUnder(s: Stmt, base: nat, brk: nat, b: nat, blocks: seq<Block>)
    requires Nested(s, b, blocks)
    ensures Under(blocks, b, Scopes(s, base, brk, b))
    decreases s, 0
  {
    hide CStmt, CExpr, CClauses, COptAssign, CTest, Checks, Under;
    match s
    case Compound(id, body) =>
      AllScopesUnder(body, base + 1, brk, id, blocks);
      assert Encloses(blocks, b, b) && Encloses(blocks, b, id);
      var ys := ScopesOfAll(body, base + 1, brk, id);
      UnderOuter(blocks, b, id, ys);
      UnderSame(blocks, b, 1);
      UnderSame(blocks, id, 1);
      UnderOuter(blocks, b, id, Same(1, id));
      UnderJoin(blocks, b, Same(1, b), ys);
      UnderJoin(blocks, b, Same(1, b) + ys, Same(1, id));
    case If(_, thn, els) =>
      var f := IfPlaces(s, base, brk);
      var xs := Scopes(thn, f.inner, brk, b);
      ScopesUnder(thn, f.inner, brk, b, blocks);
      UnderAround(blocks, b, f.inner - base, xs, 0);
      UnderSame(blocks, b, 1);
      var front := Same(f.inner - base, b) + xs;
      match els {
        case None =>
          assert front + [] + Same(1, b) == front + Same(1, b);
          UnderJoin(blocks, b, front, Same(1, b));
        case Some(e) =>
          var ys := Scopes(e, f.after + 2, brk, b);
          ScopesUnder(e, f.after + 2, brk, b, blocks);
          UnderAround(blocks, b, 2, ys, 0);
          UnderJoin(blocks, b, front, Same(2, b) + ys);
          UnderJoin(blocks, b, front + (Same(2, b) + ys), Same(1, b));
      }
    case While(_, inner) =>
      var f := WhilePlaces(s, base, brk);
      ScopesUnder(inner, f.inner, brk, b, blocks);
      UnderAround(blocks, b, f.inner - base, Scopes(inner, f.inner, brk, b), 2);
    case DoWhile(inner, cond) =>
      ScopesUnder(inner, base + 1, brk, b, blocks);
      UnderAround(blocks, b, 1, Scopes(inner, base + 1, brk, b), |CExpr(cond, 0)| + 1);
    case For(_, _, _, inner) =>
      var f := ForPlaces(s, base, brk);
      ScopesUnder(inner, f.entry + 1, brk, b, blocks);
      UnderAround(blocks, b, f.entry + 1 - base, Scopes(inner, f.entry + 1, brk, b), 2);
    case Switch(_, clauses) =>
      var f := SwitchPlaces(s, base);
      ClausesScopesUnder(clauses, f.first, f.exit, b, blocks);
      UnderAround(blocks, b, f.first - base, ScopesOfClauses(clauses, f.first, f.exit, b), f.end + 1 - f.check);
    case Break(after) =>
      ScopesUnder(after, base + 1, brk, b, blocks);
      UnderAround(blocks, b, 1, Scopes(after, base + 1, brk, b), 0);
    case _ => UnderSame(blocks, b, |CStmt(s, base, brk)|);
  }

  /** Instructions of block b in front and behind. */
  lemma UnderAround(blocks: seq<Block>, b: nat, n: nat, xs: seq<nat>, m: nat)
    requires Under(blocks, b, xs)
    ensures Under(blocks, b, Same(n, b) + xs + Same(m, b)) && Under(blocks, b, Same(n, b) + xs)
  {
    hide Under;
    UnderSame(blocks, b, n);
    UnderSame(blocks, b, m);
    UnderJoin(blocks, b, Same(n, b), xs);
    UnderJoin(blocks, b, Same(n, b) + xs, Same(m, b));
  }

  lemma {:induction false} AllScopesUnder(ss: seq<Stmt>, base: nat, brk: nat, b: nat, blocks: seq<Block>)
    requires AllNested(ss, b, blocks)
    ensures Under(blocks, b, ScopesOfAll(ss, base, brk, b))
    decreases ss, 0
  {
    hide CStmt, Nested, Scopes;
    if ss != [] {
      var mid := base + |CStmt(ss[0], base, brk)|;
      ScopesUnder(ss[0], base, brk, b, blocks);
      AllScopesUnder(ss[1..], mid, brk, b, blocks);
      UnderJoin(blocks, b, Scopes(ss[0], base, brk, b), ScopesOfAll(ss[1..], mid, brk, b));
    }
  }

  lemma {:induction false} ClauseScopesUnder(x: Clause, base: nat, brk: nat, b: nat, blocks: seq<Block>)
    requires ClauseNested(x, b, blocks)
    ensures Under(blocks, b, ScopesOfClause(x, base, brk, b))
    decreases x, 0
  {
    hide Under, AllNested;
    AllScopesUnder(x.body, base + 1, brk, b, blocks);
    UnderAround(blocks, b, 1, ScopesOfAll(x.body, base + 1, brk, b), 0);
  }

  lemma {:induction false} ClausesScopesUnder(cs: seq<Clause>, base: nat, brk: nat, b: nat, blocks: seq<Block>)
    requires ClausesNested(cs, b, blocks)
    ensures Under(blocks, b, ScopesOfClauses(cs, base, brk, b))
    decreases cs, 0
  {
    hide CClause, ClauseNested, ScopesOfClause;
    if cs != [] {
      var mid := base + |CClause(cs[0], base, brk)|;
      ClauseScopesUnder(cs[0], base, brk, b, blocks);
      ClausesScopesUnder(cs[1..], mid, brk, b, blocks);
      UnderJoin(blocks, b, ScopesOfClause(cs[0], base, brk, b), ScopesOfClauses(cs[1..], mid, brk, b));
    }
  }

  /** The theorem: at every place of a function body, reached in whatever way, the stack pointer is below the frame of
      the block in force and the values pushed, so a push never writes into a variable.  It may be lower still: a break
      out of a block with locals leaves their space reserved. */
  lemma FrameSafe(P: Program, body: seq<Stmt>, base: nat, id: nat, h: int, path: seq<nat>, sp: int, fp: int)
    requires Sized(P) && BodyAt(P, body, base, id, h)
    requires var end := base + |CStmts(body, base, 0)|; end <= |P.il| && IsPath(P, path, base, end) && path[0] == base
    requires sp == fp - Depth(P.blocks, P.funcs, id)
    ensures var k := path[|path| - 1];
            && Inside(P, k)
            && var l := LevelAt(Linkage(P.il, P.blocks), k);
               sp + SpAlong(P, path) <= fp - Depth(P.blocks, P.funcs, l.block.value) - 16 * (l.height - h)
  {
    hide LevelAt, CStmts, ScopesOfAll, IsPath, SpAlong, Depth, JumpLinked, BlockSized, FunctionSized, BlockOk;
    var c, end := Linkage(P.il, P.blocks), base + |CStmts(body, base, 0)|;
    var r, scopes := Span(base, end, None), ScopesOfAll(body, base, 0, id);
    StmtsLinked(c, body, base, None, 0, id, h);
    AllScopesUnder(body, base, 0, id, P.blocks);
    forall k | base <= k <= end ensures Inside(P, k) {
      if k < end {
        assert InScope(c, base + (k - base), scopes[k - base]);
        EnclosedInside(P.blocks, id, scopes[k - base]);
      }
    }
    PathKeepsRoom(P, r, path, base, end);
    PathEnds(P, path, base, end);
  }

  lemma PathEnds(P: Program, path: seq<nat>, lo: nat, hi: nat)
    requires hi <= |P.il| && IsPath(P, path, lo, hi)
    ensures path != [] && lo <= path[|path| - 1] <= hi
  {
  }

  // ----- whole functions -----

  /** A function's code in place, entered outside any block: inside its block markers its body is at the level of its
      own block, and behind them control is outside any block again. */
  lemma FunctionLevels(P: Program, name: string, id: nat, body: seq<Stmt>, entry: nat, h: int)
    requires At(P.il, entry, CFunction(name, id, body, entry)) && 1 <= id < |P.blocks| && P.blocks[id].parent.None?
    requires AllNested(body, id, P.blocks) && AllBreakFree(body)
    requires LevelAt(Linkage(P.il, P.blocks), entry) == Level(None, h)
    ensures BodyAt(P, body, entry + 2, id, h)
    ensures var exit := entry + 3 + |CStmts(body, entry + 2, 0)|;
            exit < |P.il| && P.il[exit].op.ExitPoint? && LevelAt(Linkage(P.il, P.blocks), exit) == Level(None, h)
  {
    hide CStmts, LevelAt, AllNested, AllBreakFree, ScopesOfAll, Fits, At;
    var c, code := Linkage(P.il, P.blocks), CStmts(body, entry + 2, 0);
    var entering, leaving := Named(EntryPoint, 0, name), Named(ExitPoint, 0, name);
    var front, back := [entering, Marker(BlockStart, id)], [Marker(BlockEnd, id), leaving];
    AtSplit(P.il, entry, front + code, back);
    AtSplit(P.il, entry, front, code);
    AtIndex(P.il, entry, front, 0);
    AtIndex(P.il, entry, front, 1);
    LevelNext(c, entry);
    LevelNext(c, entry + 1);
    var end := entry + 2 + |code|;
    AtIndex(P.il, end, back, 0);
    AtIndex(P.il, end, back, 1);
    StmtsLinked(c, body, entry + 2, None, 0, id, h);
    FitsEnds(c, Span(entry + 2, end, None), id, h, entry + 2, end, ScopesOfAll(body, entry + 2, 0, id));
    LevelNext(c, end);
  }

  /** For every function the parser accepts, compiled into a program whose tables are sized: wherever control is in its
      body, in whatever way it got there, the stack pointer is below every variable visible there, so no push overwrites
      one. */
  lemma FunctionSafe(P: Program, names: Names, blocks: seq<Block>, f: nat, ts: seq<Token>, i: nat, entry: nat, h: int,
                     path: seq<nat>, sp: int, fp: int)
    requires i <= |ts| && PFunctionBody(names, blocks, f, ts, i).Some? && f < |names.funcs| && |blocks| >= 1
    requires Sized(P) && KeepsParents(PFunctionBody(names, blocks, f, ts, i).value.blocks, P.blocks)
    requires var body := PFunctionBody(names, blocks, f, ts, i).value.value;
             && At(P.il, entry, CFunction(names.funcs[f].name, |blocks|, body, entry))
             && LevelAt(Linkage(P.il, P.blocks), entry) == Level(None, h)
             && var end := entry + 2 + |CStmts(body, entry + 2, 0)|;
                end <= |P.il| && IsPath(P, path, entry + 2, end) && path[0] == entry + 2
    requires sp == fp - Depth(P.blocks, P.funcs, |blocks|)
    ensures var k := path[|path| - 1];
            && Inside(P, k)
            && var l := LevelAt(Linkage(P.il, P.blocks), k);
               && sp + SpAlong(P, path) <= fp - Depth(P.blocks, P.funcs, l.block.value) - 16 * (l.height - h)
               && AllApart(P.types, ChainLocals(P.blocks, l.block.value) + Params(P.blocks, P.funcs, l.block.value), 0,
                           Depth(P.blocks, P.funcs, l.block.value))
  {
    hide PFunctionBody, CStmts, LevelAt, AllNested, AllBreakFree, IsPath, SpAlong, Depth, AllApart, ChainLocals, BodyAt,
      Room;
    var p := PFunctionBody(names, blocks, f, ts, i).value;
    FunctionTables(names, blocks, f, ts, i);
    AllNestedLater(p.value, |blocks|, p.blocks, P.blocks);
    assert BlockGrows(WithBody(blocks, f)[|blocks|], p.blocks[|blocks|]);
    FunctionLevels(P, names.funcs[f].name, |blocks|, p.value, entry, h);
    PathEnds(P, path, entry + 2, entry + 2 + |CStmts(p.value, entry + 2, 0)|);
    FrameSafe(P, p.value, entry + 2, |blocks|, h, path, sp, fp);
    FrameApart(P, LevelAt(Linkage(P.il, P.blocks), path[|path| - 1]).block.value);
  }

  // ----- the machine -----

  /** A step of the IL machine inside a body follows the code and moves the stack pointer accordingly. */
  lemma MachineFollows(P: Program, L: IlMachine.Layout, charSigned: bool, s: IlMachine.State, t: IlMachine.State)
    requires IlMachine.Step(P, L, charSigned, s) == Some(t) && 0 <= s.pc < |P.il|
    requires var op := P.il[s.pc].op;
             !op.FunctionCall? && !op.PointerCall? && !op.Return? && !op.EntryPoint? && !op.ExitPoint?
    ensures t.pc >= 0 && Follows(P, s.pc, t.pc) && t.sp == Wrap(s.sp + SpMove(P, P.il[s.pc])) && t.fp == s.fp
  {
    hide LoadWord, StoreWord, LoadByte, StoreByte, Binary, Resolve, BlockAt, FindFunction, Wrap;
    SmallWrap(s.sp);
  }

  /** A run of the machine through the indices from lo up to hi, without calls. */
  ghost predicate Stays(P: Program, L: IlMachine.Layout, charSigned: bool, s: IlMachine.State, n: nat, lo: nat, hi: nat)
    decreases n
  {
    && lo <= s.pc <= hi <= |P.il|
    && (n > 0 ==>
          && s.pc < hi && Ordinary(P.il[s.pc].op)
          && match IlMachine.Step(P, L, charSigned, s)
             case None => false
             case Some(t) => Stays(P, L, charSigned, t, n - 1, lo, hi))
  }

  predicate Ordinary(op: Op) {
    !op.FunctionCall? && !op.PointerCall? && !op.Return? && !op.EntryPoint? && !op.ExitPoint?
  }

  lemma SpFront(P: Program, k: nat, path: seq<nat>)
    requires path != [] && k < |P.il| && forall i :: 0 <= i < |path| - 1 ==> path[i] < |P.il|
    ensures SpAlong(P, [k] + path) == SpMove(P, P.il[k]) + SpAlong(P, path)
    decreases |path|
  {
    hide SpMove;
    var longer := [k] + path;
    if |path| == 1 {
      assert longer[..1] == [k];
      assert SpAlong(P, [k]) == 0;
    } else {
      var front := path[..|path| - 1];
      assert longer[..|longer| - 1] == [k] + front;
      assert longer[|longer| - 2] == path[|path| - 2];
      SpFront(P, k, front);
    }
  }

  lemma FrontPath(P: Program, k: nat, path: seq<nat>, lo: nat, hi: nat)
    requires hi <= |P.il| && IsPath(P, path, lo, hi) && lo <= k < hi && Follows(P, k, path[0])
    ensures IsPath(P, [k] + path, lo, hi)
  {
    hide Follows;
    var longer := [k] + path;
    forall i | 0 <= i < |longer| - 1 ensures PathStep(P, longer, i, hi) {
      if i > 0 { assert PathStep(P, path, i - 1, hi); }
    }
  }

  /** A run of the machine is a way through the code, and the stack pointer moves as along that way. */
  lemma {:induction false} RunFollows(P: Program, L: IlMachine.Layout, charSigned: bool, s: IlMachine.State, n: nat,
                                      lo: nat, hi: nat)
    returns (t: IlMachine.State, path: seq<nat>)
    requires Stays(P, L, charSigned, s, n, lo, hi)
    ensures Run(IlMachine.Stepper(P, L, charSigned), s, n) == Some(t) && lo <= t.pc <= hi && t.fp == s.fp
    ensures hi <= |P.il| && IsPath(P, path, lo, hi) && path[0] == s.pc && path[|path| - 1] == t.pc
    ensures t.sp == Wrap(s.sp + SpAlong(P, path))
    decreases n
  {
    hide IlMachine.Step, SpMove, Follows, SpAlong;
    if n == 0 {
      t, path := s, [s.pc];
      SmallWrap(s.sp);
      assert SpAlong(P, path) == 0 by { SpOne(P, s.pc); }
    } else {
      var u := IlMachine.Step(P, L, charSigned, s).value;
      MachineFollows(P, L, charSigned, s, u);
      var rest;
      t, rest := RunFollows(P, L, charSigned, u, n - 1, lo, hi);
      path := [s.pc] + rest;
      FrontPath(P, s.pc, rest, lo, hi);
      forall i | 0 <= i < |rest| - 1 ensures rest[i] < |P.il| { assert PathStep(P, rest, i, hi); }
      SpFront(P, s.pc, rest);
      WrapWrap(s.sp + SpMove(P, P.il[s.pc]), SpAlong(P, rest));
    }
  }

  lemma SpOne(P: Program, k: nat)
    ensures SpAlong(P, [k]) == 0
  {
  }

  /** Every state the machine reaches in a function's body has its stack pointer at or below the frame of the block in
      force and the values pushed. */
  lemma StatesSafe(P: Program, L: IlMachine.Layout, charSigned: bool, body: seq<Stmt>, base: nat, id: nat, h: int,
                   s: IlMachine.State, n: nat)
    returns (t: IlMachine.State, sp: int)
    requires Sized(P) && BodyAt(P, body, base, id, h) && base + |CStmts(body, base, 0)| <= |P.il|
    requires Stays(P, L, charSigned, s, n, base, base + |CStmts(body, base, 0)|)
    requires s.pc == base && s.sp == s.fp - Depth(P.blocks, P.funcs, id)
    ensures Run(IlMachine.Stepper(P, L, charSigned), s, n) == Some(t) && t.fp == s.fp && 0 <= t.pc && Inside(P, t.pc)
    ensures t.sp == Wrap(sp)
    ensures var l := LevelAt(Linkage(P.il, P.blocks), t.pc);
            sp <= t.fp - Depth(P.blocks, P.funcs, l.block.value) - 16 * (l.height - h)
  {
    hide Stays, BodyAt, IsPath, SpAlong, CStmts, LevelAt, Depth, Inside;
    var end := base + |CStmts(body, base, 0)|;
    var path;
    t, path := RunFollows(P, L, charSigned, s, n, base, end);
    PathEnds(P, path, base, end);
    FrameSafe(P, body, base, id, h, path, s.sp, s.fp);
    sp := s.sp + SpAlong(P, path);
  }
}
