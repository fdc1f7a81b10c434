/** The elements of an array are exactly the bytes reserved for it: each index inside the bounds leads to bytes of the
    array's own, none is left over, and none belongs to another variable. */
module Elements {
  import opened Words
  import opened Il
  import opened Ast
  import opened CTypes
  import opened Semantics
  import opened IlMachine
  import opened Frame
  import opened EndToEnd
  import opened Accesses
  import Scoping
  import Declarations
  import DataAddresses
  import Loader
  import Codegen
  import Elf

  /** v is declared as n elements of type t. */
  predicate ArrayOf(types: seq<TypeDef>, v: Var, t: TypeDef, n: nat) {
    FindType(types, v.typeName) == Some(t) && v.arraySize == n > 0 && v.isPointer == 0 && v.isFunction == 0
  }

  /** Where index i leads from `start` on, by either set of rules for pointers. */
  function ElementPlace(typed: bool, v: Var, t: TypeDef, start: Word, i: Word): Word {
    Advance(start, i, IndexSize(typed, Declarations.Plainly(v, t, []), 0))
  }

  predicate InElement(start: int, size: nat, i: nat, x: int) {
    start + i * size <= x < start + (i + 1) * size
  }

  predicate InVariable(types: seq<TypeDef>, v: Var, start: int, x: int) {
    start <= x < start + SizeOf(types, v)
  }

  // ----- arithmetic of elements -----

  lemma TimesOrdered(a: nat, b: nat, c: nat)
    requires a <= b
    ensures a * c <= b * c && (a + 1) * c == a * c + c
  {
    if a < b { TimesOrdered(a, b - 1, c); }
  }

  lemma ElementInside(n: nat, size: nat, i: nat)
    requires i < n
    ensures 0 <= i * size && (i + 1) * size == i * size + size <= n * size
  {
    TimesOrdered(i, n, size);
    TimesOrdered(i + 1, n, size);
  }

  /** Elements lie one behind the other, their size apart. */
  lemma PlaceIs(types: seq<TypeDef>, typed: bool, v: Var, t: TypeDef, n: nat, start: Word, i: nat)
    requires ArrayOf(types, v, t, n) && i < n && n < 0x1_0000_0000 && start + n * t.size < 0x1_0000_0000
    ensures ElementPlace(typed, v, t, start, i) == start + i * t.size
  {
    ElementInside(n, t.size, i);
    if t.size == 1 {
      SmallWrap(start + i);
    } else {
      SizeWraps(n, t.size);
      SmallWrap(t.size);
      SmallWrap(i * t.size);
      SmallWrap(start + i * t.size);
    }
  }

  lemma SizeWraps(n: nat, size: nat)
    requires n > 0 && n * size < 0x1_0000_0000
    ensures size < 0x1_0000_0000
  {
    TimesOrdered(1, n, size);
  }

  lemma ArrayBytes(types: seq<TypeDef>, v: Var, t: TypeDef, n: nat)
    requires ArrayOf(types, v, t, n)
    ensures SizeOf(types, v) == n * t.size
  {
  }

  /** Together they are exactly the variable's bytes. */
  lemma ElementsFill(types: seq<TypeDef>, v: Var, t: TypeDef, n: nat, start: int, x: int)
    requires ArrayOf(types, v, t, n)
    ensures InVariable(types, v, start, x) <==> exists i: nat :: i < n && InElement(start, t.size, i, x)
  {
    hide SizeOf;
    ArrayBytes(types, v, t, n);
    if InVariable(types, v, start, x) {
      var i := ElementAt(n, t.size, x - start);
      assert InElement(start, t.size, i, x);
    }
    if exists i: nat :: i < n && InElement(start, t.size, i, x) {
      var i: nat :| i < n && InElement(start, t.size, i, x);
      ElementInside(n, t.size, i);
    }
  }

  lemma {:induction false} ElementAt(n: nat, size: nat, d: nat) returns (i: nat)
    requires d < n * size
    ensures i < n && i * size <= d < (i + 1) * size
    decreases n
  {
    TimesOrdered(n - 1, n, size);
    if (n - 1) * size <= d { i := n - 1; } else { i := ElementAt(n - 1, size, d); }
  }

  /** Two elements have no byte in common. */
  lemma ElementsApart(start: int, size: nat, i: nat, j: nat, x: int)
    requires InElement(start, size, i, x) && InElement(start, size, j, x)
    ensures i == j
  {
    if i < j { TimesOrdered(i + 1, j, size); }
    if j < i { TimesOrdered(j + 1, i, size); }
  }

  /** Which arrays get the space of their elements: all but those of pointers, which get the space of one. */
  lemma SpaceIff(types: seq<TypeDef>, v: Var, t: TypeDef)
    requires FindType(types, v.typeName) == Some(t) && t.size > 0 && v.arraySize > 0 && v.isPointer >= 0
    requires v.isFunction >= 0
    ensures var lv := Declarations.Plainly(v, t, []);
            var fits := SizeOf(types, v) == v.arraySize * ElementSize(lv, KindAfter(lv, 0));
            fits <==> v.arraySize == 1 || (v.isPointer == 0 && v.isFunction == 0)
  {
    if v.isPointer == 0 && v.isFunction == 0 { ArrayBytes(types, v, t, v.arraySize); }
  }

  /** A variable that is no array has the space of what it denotes. */
  lemma ScalarSpace(types: seq<TypeDef>, v: Var, t: TypeDef)
    requires FindType(types, v.typeName) == Some(t) && v.arraySize <= 0 && v.isPointer >= 0 && v.isFunction >= 0
    ensures SizeOf(types, v) == TypedSize(Declarations.Plainly(v, t, []))
  {
  }

  // ----- the meaning of an index -----

  /** An array with an index denotes the element the index counts to. */
  lemma IndexedPlace(env: Env, types: seq<TypeDef>, v: Var, t: TypeDef, n: nat, x: Expr, mem: Mem, r: Result)
    requires ArrayOf(types, v, t, n) && v.name in env.addr && EvalExpr(env, x, mem) == Some(r)
    ensures EvalLValue(env, Declarations.Plainly(v, t, [x]), mem)
         == Some(Result(ElementPlace(env.typed, v, t, env.addr[v.name], r.v), r.mem))
  {
    hide EvalExpr, Advance;
    var lv := Declarations.Plainly(v, t, [x]);
    assert lv.indexes[0] == x && lv.indexes[1..] == [];
    var a := Advance(env.addr[v.name], r.v, IndexSize(env.typed, lv, 0));
    assert EvalIndexes(env, lv, 1, [], a, r.mem) == Some(Result(a, r.mem));
    assert EvalIndexes(env, lv, 0, lv.indexes, env.addr[v.name], mem)
      == EvalIndexes(env, lv, 1, lv.indexes[1..], a, r.mem);
  }

  // ----- arrays in a frame -----

  predicate LocalByte(types: seq<TypeDef>, fp: int, v: Var, x: int) {
    InVariable(types, v, fp - v.offset, x)
  }

  function Locals(P: Program, b: nat): seq<Var> {
    Scoping.ChainLocals(P.blocks, b) + Scoping.Params(P.blocks, P.funcs, b)
  }

  /** Variable k of those visible in block b, an array: element i is in the frame, below the frame pointer, and no byte
      of it belongs to another variable. */
  lemma LocalElement(P: Program, typed: bool, fp: Word, b: nat, k: nat, t: TypeDef, n: nat, i: nat)
    requires Sized(P) && 1 <= b < |P.blocks| && Depth(P.blocks, P.funcs, b) <= fp
    requires k < |Locals(P, b)| && ArrayOf(P.types, Locals(P, b)[k], t, n) && i < n < 0x1_0000_0000
    ensures var v := Locals(P, b)[k];
            var a := fp - v.offset + i * t.size;
            && 0 <= fp - v.offset < 0x1_0000_0000 && ElementPlace(typed, v, t, fp - v.offset, i) == a
            && fp - Depth(P.blocks, P.funcs, b) <= a && a + t.size <= fp
            && forall j, x :: 0 <= j < |Locals(P, b)| && InElement(fp - v.offset, t.size, i, x) ==>
                 (LocalByte(P.types, fp, Locals(P, b)[j], x) <==> j == k)
  {
    hide Depth, Sized, SizeOf, PlaceVars, TotalSize;
    FrameApart(P, b);
    var vs := Locals(P, b);
    var v := vs[k];
    assert Frame.Within(P.types, v, 0, Depth(P.blocks, P.funcs, b));
    ArrayBytes(P.types, v, t, n);
    ElementInside(n, t.size, i);
    PlaceIs(P.types, typed, v, t, n, fp - v.offset, i);
    forall j, x | 0 <= j < |vs| && InElement(fp - v.offset, t.size, i, x)
      ensures LocalByte(P.types, fp, vs[j], x) <==> j == k
    {
      if j < k { assert Apart(P.types, vs[j], vs[k]); }
      if k < j { assert Apart(P.types, vs[k], vs[j]); }
    }
  }

  // ----- arrays in the data -----

  /** Global k, an array: byte j of element i is one byte of the loaded file, that of this global's and of no
      other's. */
  lemma GlobalElement(P: Program, L: Layout, decls: seq<Var>, literals: nat, p: Elf.Parts, typed: bool, fp: Word,
                      k: nat, t: TypeDef, n: nat, i: nat, j: nat)
    requires DataAddresses.Generated(P, L, decls, literals, p) && Elf.SmallFile(p)
    requires k < |decls| && |P.blocks[0].locals| == |decls| && ArrayOf(P.types, P.blocks[0].locals[k], t, n)
    requires i < n < 0x1_0000_0000 && j < t.size
    requires IlMachine.AddressOf(P, L, fp, Global(P.blocks[0].locals[k].offset)) + n * t.size < 0x1_0000_0000
    ensures var vs := P.blocks[0].locals;
            var a := ElementPlace(typed, vs[k], t, IlMachine.AddressOf(P, L, fp, Global(vs[k].offset)), i);
            var ofs := vs[k].offset + i * t.size + j;
            && literals <= ofs < |p.data| && Loader.LoadedByte(Elf.FileBytes(p), a + j) == Some(p.data[ofs])
            && forall m :: 0 <= m < |vs| ==> (DataAddresses.Owns(P.types, vs, m, ofs) <==> m == k)
  {
    hide Loader.LoadedByte, Elf.FileBytes, SizeOf, Codegen.PlaceGlobals, IlMachine.AddressOf;
    var v := P.blocks[0].locals[k];
    ArrayBytes(P.types, v, t, n);
    ElementInside(n, t.size, i);
    PlaceIs(P.types, typed, v, t, n, IlMachine.AddressOf(P, L, fp, Global(v.offset)), i);
    DataAddresses.GlobalFound(P, L, decls, literals, p, fp, k, i * t.size + j);
  }

  // ----- they may be used -----

  /** The variable a name means in block b, and where it starts. */
  ghost predicate Means(g: Ground, b: nat, name: string, v: Var, start: int) {
    match FindLocalVariable(g.P.blocks, g.P.funcs, b, name)
    case Some(w) =>
      && v == w && FindGlobalVariable(g.P.blocks, name).None? && start == g.fp - w.offset
      && Depth(g.P.blocks, g.P.funcs, b) <= g.fp
    case None =>
      match FindGlobalVariable(g.P.blocks, name)
      case Some(w) => v == w && start == g.L.codeStart + g.L.dataStart + w.offset
      case None => false
  }

  /** In an activation every element inside the bounds is the program's to read and write. */
  lemma ElementPermitted(g: Ground, b: nat, name: string, v: Var, start: int, t: TypeDef, n: nat, typed: bool, i: nat)
    requires Housed(g) && 1 <= b < |g.P.blocks| && Means(g, b, name, v, start) && ArrayOf(g.P.types, v, t, n)
    requires (t.size == 1 || t.size == 4) && i < n
    ensures 0 <= start < 0x1_0000_0000 && n < 0x1_0000_0000 && NameIn(g.P, g.L, g.fp, b, name) == Some(start)
    ensures var a := ElementPlace(typed, v, t, start, i);
            Permits(AccessIn(g, b).read, a, t.size) && Permits(AccessIn(g, b).write, a, t.size)
  {
    hide Depth, Sized, SizeOf, Permits, AccessIn, Surrounds, FindLocalVariable, FindVar, ElementPlace, InElement;
    ArrayBytes(g.P.types, v, t, n);
    ElementInside(n, t.size, i);
    SpaceInside(g, b, name, v, start);
    TimesOrdered(1, t.size, n);
    SmallWrap(start);
    PlaceIs(g.P.types, typed, v, t, n, start, i);
    BytesPermitted(g, b, start + i * t.size, t.size);
  }

  lemma SpaceInside(g: Ground, b: nat, name: string, v: Var, start: int)
    requires Housed(g) && 1 <= b < |g.P.blocks| && Means(g, b, name, v, start)
    ensures 0 <= start && start + SizeOf(g.P.types, v) <= g.fp
    ensures start + SizeOf(g.P.types, v) <= g.lo || g.fp - Depth(g.P.blocks, g.P.funcs, b) <= start
  {
    hide Depth, Sized, SizeOf, Surrounds, FindLocalVariable, FindVar;
    if FindLocalVariable(g.P.blocks, g.P.funcs, b, name).Some? {
      LocalWithin(g.P, b, name);
    } else {
      Scoping.FindSound(g.P.blocks[0].locals, name);
      assert DataAt(g.P, g.L, g.lo, v);
    }
  }
}
