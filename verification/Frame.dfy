/** The layout of stack frames: where parameters and locals lie, how deep a block's frame is, and that no two visible
    variables overlap.  That pushed values never reach them is the subject of StackPointer. */
module Frame {
  import opened Words
  import opened Il
  import opened Scoping

  // ----- sizes and offsets -----

  function SizeOf(types: seq<TypeDef>, v: Var): nat {
    if v.isPointer > 0 || v.isFunction > 0 then 4
    else match FindType(types, v.typeName)
      case None => 0
      case Some(t) => t.size * (if v.arraySize > 0 then v.arraySize else 1)
  }

  function TotalSize(types: seq<TypeDef>, vs: seq<Var>): nat {
    if vs == [] then 0 else SizeOf(types, vs[0]) + TotalSize(types, vs[1..])
  }

  function Align16(n: nat): nat {
    if n % 16 > 0 then n - n % 16 + 16 else n
  }

  lemma Align16Is(n: nat)
    ensures Align16(n) % 16 == 0 && n <= Align16(n) < n + 16
  {
  }

  /** Each variable's offset is the distance from the frame pointer down to its first byte. */
  function PlaceVars(types: seq<TypeDef>, vs: seq<Var>, at: nat): (r: seq<Var>)
    ensures |r| == |vs| && forall k :: 0 <= k < |vs| ==> SameDeclaration(vs[k], r[k])
  {
    if vs == [] then []
    else
      var end := at + SizeOf(types, vs[0]);
      [vs[0].(offset := end)] + PlaceVars(types, vs[1..], end)
  }

  /** Larger frames are refused. */
  const MAX_FRAME := 2047

  predicate FunctionSized(types: seq<TypeDef>, f: Function) {
    f.params == PlaceVars(types, f.params, 0) && f.paramsSize == Align16(TotalSize(types, f.params)) <= MAX_FRAME
  }

  /** How far below the frame pointer a block's own locals start. */
  function Outside(blocks: seq<Block>, funcs: seq<Function>, b: nat): int
    decreases b, 0
  {
    if b >= |blocks| then 0
    else match blocks[b].parent
      case Some(p) => if p < b then Depth(blocks, funcs, p) else 0
      case None =>
        match blocks[b].func case Some(f) => (if f < |funcs| then funcs[f].paramsSize else 0) case None => 0
  }

  /** How far below the frame pointer a block's frame reaches. */
  function Depth(blocks: seq<Block>, funcs: seq<Function>, b: nat): int
    decreases b, 1
  {
    Outside(blocks, funcs, b) + if b < |blocks| then blocks[b].localsSize else 0
  }

  predicate BlockSized(types: seq<TypeDef>, blocks: seq<Block>, funcs: seq<Function>, b: nat)
    requires b < |blocks|
  {
    var at := Outside(blocks, funcs, b);
    && at >= 0 && blocks[b].locals == PlaceVars(types, blocks[b].locals, at)
    && blocks[b].localsSize == Align16(TotalSize(types, blocks[b].locals)) <= MAX_FRAME
  }

  /** A block's parent is an earlier block of the same function, and not the block of the globals. */
  predicate BlockOk(blocks: seq<Block>, funcs: seq<Function>, b: nat)
    requires b < |blocks|
  {
    && blocks[b].func.Some? && blocks[b].func.value < |funcs|
    && match blocks[b].parent case None => true case Some(p) => 1 <= p < b && blocks[p].func == blocks[b].func
  }

  /** What sizing leaves behind. */
  ghost predicate Sized(P: Program) {
    && |P.blocks| >= 1 && P.blocks[0].parent.None?
    && (forall f :: 0 <= f < |P.funcs| ==> FunctionSized(P.types, P.funcs[f]))
    && (forall b :: 1 <= b < |P.blocks| ==>
          BlockSized(P.types, P.blocks, P.funcs, b) && BlockOk(P.blocks, P.funcs, b))
  }

  // ----- variables do not overlap -----

  /** A variable occupies the bytes at distances (offset - size, offset] below the frame pointer. */
  predicate Within(types: seq<TypeDef>, v: Var, lo: int, hi: int) {
    lo <= v.offset - SizeOf(types, v) && v.offset <= hi
  }

  predicate Apart(types: seq<TypeDef>, v: Var, w: Var) {
    v.offset <= w.offset - SizeOf(types, w) || w.offset <= v.offset - SizeOf(types, v)
  }

  ghost predicate AllApart(types: seq<TypeDef>, vs: seq<Var>, lo: int, hi: int) {
    && (forall i :: 0 <= i < |vs| ==> Within(types, vs[i], lo, hi))
    && (forall i, j :: 0 <= i < j < |vs| ==> Apart(types, vs[i], vs[j]))
  }

  lemma SizeIgnoresOffset(types: seq<TypeDef>, v: Var, offset: int)
    ensures SizeOf(types, v.(offset := offset)) == SizeOf(types, v)
  {
  }

  lemma {:induction false} PlacedApart(types: seq<TypeDef>, vs: seq<Var>, at: nat)
    ensures AllApart(types, PlaceVars(types, vs, at), at, at + TotalSize(types, vs))
  {
    hide SizeOf;
    if vs != [] {
      var end := at + SizeOf(types, vs[0]);
      SizeIgnoresOffset(types, vs[0], end);
      var first, rest := vs[0].(offset := end), PlaceVars(types, vs[1..], end);
      PlacedApart(types, vs[1..], end);
      ApartJoin(types, [first], rest, at, end, end + TotalSize(types, vs[1..]));
    }
  }

  lemma ApartJoin(types: seq<TypeDef>, vs: seq<Var>, ws: seq<Var>, lo: int, mid: int, hi: int)
    requires AllApart(types, vs, lo, mid) && AllApart(types, ws, mid, hi) && lo <= mid <= hi
    ensures AllApart(types, vs + ws, lo, hi) && AllApart(types, ws + vs, lo, hi)
  {
    hide SizeOf;
    var a, b := vs + ws, ws + vs;
    forall i | 0 <= i < |a| ensures Within(types, a[i], lo, hi) {
      if i >= |vs| { assert Within(types, ws[i - |vs|], mid, hi); } else { assert Within(types, vs[i], lo, mid); }
    }
    forall i | 0 <= i < |b| ensures Within(types, b[i], lo, hi) {
      if i >= |ws| { assert Within(types, vs[i - |ws|], lo, mid); } else { assert Within(types, ws[i], mid, hi); }
    }
    forall i, j | 0 <= i < j < |a| ensures Apart(types, a[i], a[j]) {
      if i < |vs| <= j {
        assert Within(types, vs[i], lo, mid) && Within(types, ws[j - |vs|], mid, hi);
      } else if i >= |vs| {
        assert Apart(types, ws[i - |vs|], ws[j - |vs|]);
      }
    }
    forall i, j | 0 <= i < j < |b| ensures Apart(types, b[i], b[j]) {
      if i < |ws| <= j {
        assert Within(types, ws[i], mid, hi) && Within(types, vs[j - |ws|], lo, mid);
      } else if i >= |ws| {
        assert Apart(types, vs[i - |ws|], vs[j - |ws|]);
      }
    }
  }

  lemma ApartWiden(types: seq<TypeDef>, vs: seq<Var>, lo: int, hi: int, hi': int)
    requires AllApart(types, vs, lo, hi) && hi <= hi'
    ensures AllApart(types, vs, lo, hi')
  {
    hide SizeOf;
    forall i | 0 <= i < |vs| ensures Within(types, vs[i], lo, hi') { assert Within(types, vs[i], lo, hi); }
  }

  lemma {:induction false} DepthGrows(P: Program, b: nat)
    requires Sized(P) && 1 <= b < |P.blocks|
    ensures BlockOk(P.blocks, P.funcs, b)
    ensures 0 <= P.funcs[P.blocks[b].func.value].paramsSize <= Outside(P.blocks, P.funcs, b)
    ensures Outside(P.blocks, P.funcs, b) <= Depth(P.blocks, P.funcs, b)
    ensures Depth(P.blocks, P.funcs, b) % 16 == 0 && Outside(P.blocks, P.funcs, b) % 16 == 0
    decreases b
  {
    hide PlaceVars, TotalSize;
    assert BlockSized(P.types, P.blocks, P.funcs, b) && BlockOk(P.blocks, P.funcs, b);
    assert FunctionSized(P.types, P.funcs[P.blocks[b].func.value]);
    Align16Is(TotalSize(P.types, P.blocks[b].locals));
    Align16Is(TotalSize(P.types, P.funcs[P.blocks[b].func.value].params));
    match P.blocks[b].parent {
      case Some(p) => DepthGrows(P, p);
      case None =>
    }
    SumOf16(Outside(P.blocks, P.funcs, b), P.blocks[b].localsSize);
  }

  lemma SumOf16(a: int, b: int)
    requires a % 16 == 0 && b % 16 == 0
    ensures (a + b) % 16 == 0
  {
  }

  /** In every block all variables of the frame, locals of the whole chain and parameters, lie in pairwise disjoint
      places between the frame pointer and the block's depth. */
  lemma {:induction false} FrameApart(P: Program, b: nat)
    requires Sized(P) && 1 <= b < |P.blocks|
    ensures AllApart(P.types, ChainLocals(P.blocks, b) + Params(P.blocks, P.funcs, b), 0, Depth(P.blocks, P.funcs, b))
    decreases b
  {
    hide AllApart, TotalSize, PlaceVars;
    var types, at, depth := P.types, Outside(P.blocks, P.funcs, b), Depth(P.blocks, P.funcs, b);
    var locals, params := P.blocks[b].locals, Params(P.blocks, P.funcs, b);
    assert BlockSized(types, P.blocks, P.funcs, b) && BlockOk(P.blocks, P.funcs, b);
    var f := P.funcs[P.blocks[b].func.value];
    assert FunctionSized(types, f);
    DepthGrows(P, b);
    PlacedApart(types, locals, at);
    Align16Is(TotalSize(types, locals));
    ApartWiden(types, locals, at, at + TotalSize(types, locals), depth);
    match P.blocks[b].parent
    case None =>
      PlacedApart(types, f.params, 0);
      Align16Is(TotalSize(types, f.params));
      ApartWiden(types, params, 0, TotalSize(types, f.params), at);
      ApartJoin(types, params, locals, 0, at, depth);
      assert ChainLocals(P.blocks, b) == locals + [] == locals;
    case Some(p) =>
      FrameApart(P, p);
      var outer := ChainLocals(P.blocks, p) + params;
      assert params == Params(P.blocks, P.funcs, p);
      ApartJoin(types, outer, locals, 0, at, depth);
      assert ChainLocals(P.blocks, b) + params == locals + outer;
  }
}
