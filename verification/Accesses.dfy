/** Statements that use their variables only by name, neither indexing nor following pointers, never touch bytes that
    are not theirs: they mean the same whatever else memory is reserved for, and without calls nothing at all is asked
    of a run. */
module Accesses {
  import opened Words
  import opened Runs
  import opened Il
  import opened Ast
  import opened Compile
  import opened Semantics
  import opened StmtSemantics
  import opened Straight
  import opened Uses
  import opened EndToEnd
  import Flow
  import Frame
  import Scoping
  import IlMachine
  import Placement

  // ----- uses by name -----

  /** How many bytes of its variable a use reads or writes; 0 if none. */
  function BytesUsed(u: Use): int {
    match u
    case InOperand(o) =>
      if o.Value? && IsReference(o.lv) then (if o.suffix.PlusOperand? then PTR_SIZE else LvSize(o.lv)) else 0
    case InAssign(x) => LvSize(x.lv)
    case InInit(i) => i.size
  }

  function UsedName(u: Use): string {
    match u
    case InOperand(o) => if o.Value? || o.AddressOf? then o.lv.name else ""
    case InAssign(x) => x.lv.name
    case InInit(i) => i.name
  }

  predicate Indexed(u: Use) {
    match u
    case InOperand(o) => (o.Value? || o.AddressOf?) && o.lv.indexes != []
    case InAssign(x) => x.lv.indexes != []
    case InInit(_) => false
  }

  /** In block b the name means a variable of at least so many bytes. */
  predicate Holds(P: Program, b: nat, name: string, size: int) {
    match FindLocalVariable(P.blocks, P.funcs, b, name)
    case Some(v) => FindGlobalVariable(P.blocks, name).None? && size <= Frame.SizeOf(P.types, v)
    case None =>
      match FindGlobalVariable(P.blocks, name)
      case Some(v) => size <= Frame.SizeOf(P.types, v)
      case None => false
  }

  predicate UsedByName(P: Program, fp: Word, b: nat, u: Use) {
    && !Indexed(u) && 1 <= b < |P.blocks| && Frame.Depth(P.blocks, P.funcs, b) <= fp
    && (BytesUsed(u) == 1 || BytesUsed(u) == 4 ==> Holds(P, b, UsedName(u), BytesUsed(u)))
  }

  function ByName(P: Program, fp: Word): (nat, Use) -> bool {
    (b: nat, u: Use) => UsedByName(P, fp, b, u)
  }

  // ----- the bytes of a variable -----

  lemma LocalWithin(P: Program, b: nat, name: string)
    requires Frame.Sized(P) && 1 <= b < |P.blocks| && FindLocalVariable(P.blocks, P.funcs, b, name).Some?
    ensures Frame.Within(P.types, FindLocalVariable(P.blocks, P.funcs, b, name).value, 0,
                         Frame.Depth(P.blocks, P.funcs, b))
  {
    hide Frame.PlaceVars, Frame.Depth, Frame.TotalSize, Frame.SizeOf, Frame.Within;
    Scoping.FindVisible(P.blocks, P.funcs, b, name);
    var vs := Scoping.ChainLocals(P.blocks, b) + Scoping.Params(P.blocks, P.funcs, b);
    Scoping.FindSound(vs, name);
    var v := FindVar(vs, name).value;
    Frame.FrameApart(P, b);
    var k :| 0 <= k < |vs| && vs[k] == v;
    assert Frame.Within(P.types, vs[k], 0, Frame.Depth(P.blocks, P.funcs, b));
  }

  /** The program's data ends below the stack. */
  predicate DataAt(P: Program, L: IlMachine.Layout, lo: int, v: Var) {
    0 <= L.codeStart + L.dataStart + v.offset && L.codeStart + L.dataStart + v.offset + Frame.SizeOf(P.types, v) <= lo
  }

  ghost predicate DataBelow(P: Program, L: IlMachine.Layout, lo: int) {
    |P.blocks| >= 1 && forall v :: v in P.blocks[0].locals ==> DataAt(P, L, lo, v)
  }

  /** What memory looks like in an activation. */
  ghost predicate Housed(g: Ground) {
    && Frame.Sized(g.P) && DataBelow(g.P, g.L, g.lo) && g.lo <= g.fp && (forall a :: a in g.held ==> g.fp <= a)
    && Surrounds(g)
  }

  /** So many bytes from an address on, without wrapping around, are neither pushed values nor held by callers. */
  lemma BytesPermitted(g: Ground, b: nat, a: int, size: int)
    requires 0 <= a && (size == 1 || size == 4) && a + size <= g.fp && (forall x :: x in g.held ==> g.fp <= x)
    requires a + size <= g.lo || g.fp - Frame.Depth(g.P.blocks, g.P.funcs, b) <= a
    ensures a < 0x1_0000_0000 && Permits(AccessIn(g, b).read, a, size) && Permits(AccessIn(g, b).write, a, size)
  {
    hide Frame.Depth;
    if size == 4 {
      SmallWrap(a + 1);
      SmallWrap(a + 2);
      SmallWrap(a + 3);
    }
  }

  /** A visible local or parameter. */
  lemma LocalPermitted(g: Ground, b: nat, name: string, size: int)
    requires Housed(g) && 1 <= b < |g.P.blocks| && Frame.Depth(g.P.blocks, g.P.funcs, b) <= g.fp
    requires (size == 1 || size == 4) && Holds(g.P, b, name, size)
    requires FindLocalVariable(g.P.blocks, g.P.funcs, b, name).Some? && name in NamesIn(g.P, g.L, g.fp, b)
    ensures var a := NamesIn(g.P, g.L, g.fp, b)[name];
            Permits(AccessIn(g, b).read, a, size) && Permits(AccessIn(g, b).write, a, size)
  {
    hide Frame.Depth, Frame.Sized, FindLocalVariable, FindGlobalVariable, Frame.SizeOf, Surrounds, DataBelow, Permits,
      AccessIn;
    LocalWithin(g.P, b, name);
    var v := FindLocalVariable(g.P.blocks, g.P.funcs, b, name).value;
    SmallWrap(g.fp - v.offset);
    BytesPermitted(g, b, g.fp - v.offset, size);
  }

  /** A global. */
  lemma GlobalPermitted(g: Ground, b: nat, name: string, size: int)
    requires Housed(g) && (size == 1 || size == 4) && Holds(g.P, b, name, size)
    requires FindLocalVariable(g.P.blocks, g.P.funcs, b, name).None? && name in NamesIn(g.P, g.L, g.fp, b)
    ensures var a := NamesIn(g.P, g.L, g.fp, b)[name];
            Permits(AccessIn(g, b).read, a, size) && Permits(AccessIn(g, b).write, a, size)
  {
    hide Frame.Depth, Frame.Sized, FindLocalVariable, FindVar, Frame.SizeOf, Surrounds, Permits, AccessIn;
    Scoping.FindSound(g.P.blocks[0].locals, name);
    var v := FindGlobalVariable(g.P.blocks, name).value;
    assert DataAt(g.P, g.L, g.lo, v);
    var a := g.L.codeStart + g.L.dataStart + v.offset;
    SmallWrap(a);
    BytesPermitted(g, b, a, size);
  }

  // ----- nothing is refused -----

  predicate IsAddress(a: int) {
    0 <= a < 0x1_0000_0000
  }

  /** Everything may be read and written. */
  ghost function Unrestricted(e: Env): Env {
    var all := Access(iset a | IsAddress(a), iset a | IsAddress(a));
    e.(access := all, accesses := (_: nat) => all)
  }

  lemma NamePermitted(g: Ground, b: nat, u: Use, a: Word)
    requires Housed(g) && UsedByName(g.P, g.fp, b, u) && (BytesUsed(u) == 1 || BytesUsed(u) == 4)
    requires UsedName(u) in g.w.env.scopes(b) && a == g.w.env.scopes(b)[UsedName(u)]
    ensures Permits(AccessIn(g, b).read, a, BytesUsed(u)) && Permits(AccessIn(g, b).write, a, BytesUsed(u))
  {
    hide Frame.Depth, Frame.Sized, Permits, AccessIn, NamesIn, Holds;
    if FindLocalVariable(g.P.blocks, g.P.funcs, b, UsedName(u)).Some? {
      LocalPermitted(g, b, UsedName(u), BytesUsed(u));
    } else {
      GlobalPermitted(g, b, UsedName(u), BytesUsed(u));
    }
  }

  /** Where it is permitted, and for sizes that cannot be accessed at all, permission makes no difference. */
  lemma PermittedSame(g: Ground, b: nat, a: Word, size: int)
    requires Housed(g)
    requires size == 1 || size == 4 ==> Permits(AccessIn(g, b).read, a, size) && Permits(AccessIn(g, b).write, a, size)
    ensures var e, f := Inside(g.w.env, b), Inside(Unrestricted(g.w.env), b);
            && (forall mem :: ReadMem(e, mem, a, size) == ReadMem(f, mem, a, size))
            && (forall mem, v :: WriteMem(e, mem, a, size, v) == WriteMem(f, mem, a, size, v))
  {
    hide LoadWord, LoadByte, StoreWord, StoreByte, AccessIn, Frame.Sized, DataBelow;
  }

  lemma UseSame(g: Ground, b: nat, u: Use)
    requires Housed(g) && UsedByName(g.P, g.fp, b, u) && !g.w.env.typed
    ensures UseAlike(Inside(g.w.env, b), Inside(Unrestricted(g.w.env), b), u)
  {
    hide Housed, Permits, UsedByName, ReadMem, WriteMem, LvSize, IsReference;
    var e, f := Inside(g.w.env, b), Inside(Unrestricted(g.w.env), b);
    assert !Indexed(u) by { NotIndexed(g.P, g.fp, b, u); }
    if UsedName(u) in e.addr {
      var a := e.addr[UsedName(u)];
      if BytesUsed(u) == 1 || BytesUsed(u) == 4 { NamePermitted(g, b, u, a); }
      PermittedSame(g, b, a, BytesUsed(u));
    }
  }

  lemma NotIndexed(P: Program, fp: Word, b: nat, u: Use)
    requires UsedByName(P, fp, b, u)
    ensures !Indexed(u)
  {
  }

  /** Such a statement means the same when nothing is reserved. */
  lemma ByNameMeans(g: Ground, b: nat, x: Stmt, mem: Mem, n: nat, fuel: nat)
    requires Housed(g) && !g.w.env.typed && StmtUses(ByName(g.P, g.fp), b, x)
    ensures EvalStmt(Inside(g.w.env, b), x, mem, n, fuel) == EvalStmt(Inside(Unrestricted(g.w.env), b), x, mem, n, fuel)
  {
    hide Housed, UsedByName, UseAlike, EvalStmt, StmtUses;
    var e, f := g.w.env, Unrestricted(g.w.env);
    forall b: nat, u: Use | ByName(g.P, g.fp)(b, u) ensures UseAlike(Inside(e, b), Inside(f, b), u) {
      UseSame(g, b, u);
    }
    StmtSame(ByName(g.P, g.fp), e, f, b, x, mem, n, fuel);
  }

  // ----- and nothing is asked of a run -----

  predicate CallFree(g: Ground) {
    0 <= g.w.lo <= g.w.hi <= |g.P.il| && forall k :: g.w.lo <= k < g.w.hi ==> !IlMachine.IsCall(g.P.il[k])
  }

  lemma {:induction false} CallFreeOk(g: Ground, c: Flow.Config, s: IlMachine.State, n: nat)
    requires CallFree(g) && g.w.code == g.P.il && g.arch.Riscv?
    ensures RunOk(g, c, s, n)
    decreases n
  {
    hide Flow.FlowStep, Next;
    if n > 0 && Flow.FlowStep(g.w, c).Some? {
      EnteredStep(g.w, c, Flow.FlowStep(g.w, c).value);
      if Next(HostOf(g), s).Some? { CallFreeOk(g, Flow.FlowStep(g.w, c).value, Next(HostOf(g), s).value, n - 1); }
    }
  }

  /** A statement without calls that uses its variables by name only: its code runs to the outcome it has in a memory
      that is all its own, with nothing asked but that there is stack. */
  lemma ByNameRuns(g: Ground, x: Stmt, base: nat, brk: nat, st: St, fuel: nat, o: Outcome, s: IlMachine.State)
    returns (c: Flow.Config, t: IlMachine.State)
    requires StatementAt(g, x, base, brk) && Placement.GoodLayout(g.arch, g.P, g.L) && g.arch.Riscv?
    requires Flow.Ready(g.w, base, CStmt(x, base, brk), st) && Flow.WellFormed(x, g.w.exits)
    requires StmtUses(ByName(g.P, g.fp), g.w.block, x) && CallFree(g) && DataBelow(g.P, g.L, g.lo) && g.lo <= g.fp
    requires EvalStmt(Inside(Unrestricted(g.w.env), g.w.block), x, st.mem, st.entered, fuel) == Some(o)
    requires Matches(g, Flow.Config(base, st), s)
    requires Told(g.w.env.stale, g.w.env.clobber, st.entered, st.calls, HostOf(g), s)
    requires Enough(g, Flow.Config(base, st), s, o.entered)
    ensures Flow.Lands(g.w, o, st, base + |CStmt(x, base, brk)|, brk, c)
    ensures Via(MachineStepper(g.arch, g.P, g.L), InFrame(g.P, g.fp), s, t) && Matches(g, c, t)
    ensures HeldSame(g.held, s.mem, t.mem)
  {
    hide Matches, Told, Enough, RunOk, EvalStmt, StmtUses, CStmt, Flow.WellFormed, Flow.Lands, Flow.InCode,
      Placement.GoodLayout, Via, HeldSame, Surrounds, Linked.Located;
    ByNameMeans(g, g.w.block, x, st.mem, st.entered, fuel);
    assert Inside(g.w.env, g.w.block) == g.w.env;
    var n;
    n, c, t := StatementRuns(g, x, base, brk, st, fuel, o, s);
    CallFreeOk(g, Flow.Config(base, st), s, n);
  }
}
