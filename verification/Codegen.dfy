/** The code generator: it sizes functions and blocks, computes the length of the code, and then emits it in a second
    pass that relies on the lengths of the first. */
module Codegen {
  import opened Words
  import opened Il
  import opened IlMachine
  import opened CodeMemory
  import opened Backend
  import opened Placement
  import opened Frame
  import opened Scoping
  import opened Linked
  import RiscvBackend
  import ArmBackend
  import BothReach

  // ----- what sizing is to produce, from the declarations alone -----

  function SizedOutside(types: seq<TypeDef>, blocks: seq<Block>, funcs: seq<Function>, b: nat): nat
    decreases b
  {
    if b >= |blocks| then 0
    else match blocks[b].parent
      case Some(p) =>
        if p < b then SizedOutside(types, blocks, funcs, p)
          + (if p < |blocks| then Align16(TotalSize(types, blocks[p].locals)) else 0)
        else 0
      case None =>
        match blocks[b].func
        case Some(f) => (if f < |funcs| then Align16(TotalSize(types, funcs[f].params)) else 0)
        case None => 0
  }

  function SizedBlock(types: seq<TypeDef>, blocks: seq<Block>, funcs: seq<Function>, b: nat): Block
    requires b < |blocks|
  {
    blocks[b].(locals := PlaceVars(types, blocks[b].locals, SizedOutside(types, blocks, funcs, b)),
               localsSize := Align16(TotalSize(types, blocks[b].locals)))
  }

  function SizedFunction(types: seq<TypeDef>, f: Function): Function {
    f.(params := PlaceVars(types, f.params, 0), paramsSize := Align16(TotalSize(types, f.params)))
  }

  /** Data offsets count upwards. */
  function PlaceGlobals(types: seq<TypeDef>, vs: seq<Var>, at: nat): seq<Var> {
    if vs == [] then []
    else [vs[0].(offset := at)] + PlaceGlobals(types, vs[1..], at + SizeOf(types, vs[0]))
  }

  ghost predicate SameVars(vs: seq<Var>, ws: seq<Var>) {
    |vs| == |ws| && forall k :: 0 <= k < |vs| ==> SameDeclaration(vs[k], ws[k])
  }

  lemma {:induction false} SameSizes(types: seq<TypeDef>, vs: seq<Var>, ws: seq<Var>, at: nat)
    requires SameVars(vs, ws)
    ensures TotalSize(types, vs) == TotalSize(types, ws) && PlaceVars(types, vs, at) == PlaceVars(types, ws, at)
  {
    if vs != [] {
      assert SameDeclaration(vs[0], ws[0]);
      forall k | 0 <= k < |vs[1..]| ensures SameDeclaration(vs[1..][k], ws[1..][k]) {
        assert SameDeclaration(vs[k + 1], ws[k + 1]);
      }
      SameSizes(types, vs[1..], ws[1..], at + SizeOf(types, vs[0]));
    }
  }

  ghost predicate SameBlock(a: Block, b: Block) {
    a.parent == b.parent && a.func == b.func && SameVars(a.locals, b.locals)
  }

  ghost predicate SameBlocks(xs: seq<Block>, ys: seq<Block>) {
    |xs| == |ys| && forall k :: 0 <= k < |xs| ==> SameBlock(xs[k], ys[k])
  }

  /** Sizing reads only declarations. */
  lemma {:induction false} SameOutside(types: seq<TypeDef>, xs: seq<Block>, ys: seq<Block>, funcs: seq<Function>,
                                       b: nat)
    requires SameBlocks(xs, ys)
    ensures SizedOutside(types, xs, funcs, b) == SizedOutside(types, ys, funcs, b)
    decreases b
  {
    if b < |xs| {
      assert SameBlock(xs[b], ys[b]);
      match xs[b].parent
      case Some(p) =>
        if p < b {
          assert SameBlock(xs[p], ys[p]);
          SameSizes(types, xs[p].locals, ys[p].locals, 0);
          SameOutside(types, xs, ys, funcs, p);
        }
      case None =>
    }
  }

  lemma SameSized(types: seq<TypeDef>, xs: seq<Block>, ys: seq<Block>, funcs: seq<Function>, b: nat)
    requires SameBlocks(xs, ys) && b < |xs|
    ensures SizedBlock(types, xs, funcs, b).locals == SizedBlock(types, ys, funcs, b).locals
    ensures SizedBlock(types, xs, funcs, b).localsSize == SizedBlock(types, ys, funcs, b).localsSize
  {
    assert SameBlock(xs[b], ys[b]);
    SameOutside(types, xs, ys, funcs, b);
    SameSizes(types, xs[b].locals, ys[b].locals, SizedOutside(types, xs, funcs, b));
  }

  predicate Sizable(types: seq<TypeDef>, v: Var) {
    v.isPointer > 0 || v.isFunction > 0 || FindType(types, v.typeName).Some?
  }

  predicate AllSizable(types: seq<TypeDef>, vs: seq<Var>) {
    forall k :: 0 <= k < |vs| ==> Sizable(types, vs[k])
  }

  /** The tables the parser hands over: every declared type is known, and blocks are where they belong. */
  ghost predicate TablesOk(P: Program) {
    && |P.blocks| >= 1 && P.blocks[0].parent.None?
    && (forall f :: 0 <= f < |P.funcs| ==> AllSizable(P.types, P.funcs[f].params))
    && (forall b :: 0 <= b < |P.blocks| ==> AllSizable(P.types, P.blocks[b].locals))
    && (forall b :: 1 <= b < |P.blocks| ==> BlockOk(P.blocks, P.funcs, b))
  }

  method SizeVariable(types: seq<TypeDef>, v: Var) returns (s: nat)
    requires Sizable(types, v)
    ensures s == SizeOf(types, v)
  {
    s := 0;
    if v.isPointer > 0 || v.isFunction > 0 {
      s := s + 4;
    } else {
      var bs := FindType(types, v.typeName).value.size;
      if v.arraySize > 0 {
        var j := 0;
        while j < v.arraySize
          invariant 0 <= j <= v.arraySize && s == bs * j
        {
          s := s + bs;
          j := j + 1;
        }
      } else {
        s := s + bs;
      }
    }
  }

  lemma {:induction false} TotalSplit(types: seq<TypeDef>, vs: seq<Var>, k: nat)
    requires k < |vs|
    ensures TotalSize(types, vs[..k + 1]) == TotalSize(types, vs[..k]) + SizeOf(types, vs[k])
    decreases k
  {
    hide SizeOf;
    if k > 0 {
      assert vs[..k + 1][1..] == vs[1..][..k] && vs[..k][1..] == vs[1..][..k - 1];
      TotalSplit(types, vs[1..], k - 1);
    } else {
      assert vs[..1][1..] == [];
    }
  }

  lemma {:induction false} PlacedSplit(types: seq<TypeDef>, vs: seq<Var>, at: nat, k: nat)
    requires k < |vs|
    ensures PlaceVars(types, vs, at)[k] == vs[k].(offset := at + TotalSize(types, vs[..k + 1]))
    decreases k
  {
    hide SizeOf, SameDeclaration, TotalSize;
    TotalHead(types, vs, k);
    if k > 0 {
      PlacedSplit(types, vs[1..], at + SizeOf(types, vs[0]), k - 1);
      assert PlaceVars(types, vs, at)[k] == PlaceVars(types, vs[1..], at + SizeOf(types, vs[0]))[k - 1];
    }
  }

  lemma TotalHead(types: seq<TypeDef>, vs: seq<Var>, k: nat)
    requires k < |vs|
    ensures TotalSize(types, vs[..k + 1]) == SizeOf(types, vs[0]) + if k > 0 then TotalSize(types, vs[1..][..k]) else 0
  {
    hide SizeOf;
    assert vs[..k + 1][1..] == vs[1..][..k];
  }

  // ----- the generator -----

  predicate Small(types: seq<TypeDef>, vs: seq<Var>) {
    Align16(TotalSize(types, vs)) <= MAX_FRAME
  }

  /** After sizing block b: it and the blocks around it are sized, the others are as before. */
  ghost predicate ChainSized(types: seq<TypeDef>, before: seq<Block>, funcs: seq<Function>, b: nat, after: seq<Block>) {
    |after| == |before| && forall c :: 0 <= c < |before| ==> ChainSizedAt(types, before, funcs, b, after, c)
  }

  ghost predicate ChainSizedAt(types: seq<TypeDef>, before: seq<Block>, funcs: seq<Function>, b: nat, after: seq<Block>,
                               c: nat)
    requires c < |before| == |after|
  {
    after[c] == if Encloses(before, c, b) then SizedBlock(types, before, funcs, c) else before[c]
  }

  ghost predicate ChainSmall(types: seq<TypeDef>, blocks: seq<Block>, b: nat) {
    forall c :: 0 <= c < |blocks| && Encloses(blocks, c, b) ==> Small(types, blocks[c].locals)
  }

  class Generator {
    const arch: Arch
    const types: seq<TypeDef>
    const il: seq<Instr>
    var funcs: seq<Function>
    var blocks: seq<Block>
    /** The offset in the code of each IL instruction, and behind them the length of the code. */
    var offs: seq<int>
    var code: seq<Byte>
    var dataIdx: nat

    constructor (arch: Arch, P: Program, dataIdx: nat)
      ensures this.arch == arch && Prog() == P && offs == [] && code == [] && this.dataIdx == dataIdx
    {
      this.arch, types, il, funcs, blocks, offs, code, this.dataIdx :=
        arch, P.types, P.il, P.funcs, P.blocks, [], [], dataIdx;
    }

    function Prog(): Program
      reads this
    {
      Program(il, blocks, funcs, types)
    }

    // ----- sizing -----

    method SizeFunction(f: nat) returns (ok: bool)
      requires f < |funcs| && AllSizable(types, funcs[f].params)
      modifies `funcs
      ensures ok <==> Small(types, old(funcs)[f].params)
      ensures ok ==> funcs == old(funcs)[f := SizedFunction(types, old(funcs)[f])]
    {
      hide SizeOf, PlaceVars, TotalSize;
      ghost var before := funcs;
      ghost var vs := funcs[f].params;
      var s, i := 0, 0;
      TotalNone(types, vs);
      while i < |funcs[f].params|
        invariant |funcs| == |before| && (forall k :: 0 <= k < |funcs| && k != f ==> funcs[k] == before[k])
        invariant funcs[f] == before[f].(params := funcs[f].params) && |funcs[f].params| == |vs|
        invariant 0 <= i <= |vs| && s == TotalSize(types, vs[..i])
        invariant forall k :: 0 <= k < i ==> funcs[f].params[k] == PlaceVars(types, vs, 0)[k]
        invariant forall k :: i <= k < |vs| ==> funcs[f].params[k] == vs[k]
      {
        var size := SizeVariable(types, funcs[f].params[i]);
        TotalSplit(types, vs, i);
        PlacedSplit(types, vs, 0, i);
        var v := funcs[f].params[i].(offset := s + size);
        funcs := funcs[f := funcs[f].(params := funcs[f].params[i := v])];
        s := s + size;
        i := i + 1;
      }
      assert vs[..i] == vs;
      assert funcs[f].params == PlaceVars(types, vs, 0);
      if s % 16 > 0 {
        s := s - s % 16 + 16;
      }
      ok := s <= MAX_FRAME;
      funcs := funcs[f := funcs[f].(paramsSize := s)];
    }

    /** The locals of one block, behind what is outside it. */
    method SizeLocals(b: nat, offset: nat) returns (ok: bool, size: nat)
      requires b < |blocks| && AllSizable(types, blocks[b].locals)
      modifies `blocks
      ensures ok <==> Small(types, old(blocks)[b].locals)
      ensures size == Align16(TotalSize(types, old(blocks)[b].locals))
      ensures blocks
           == old(blocks)[b := old(blocks)[b].(locals := PlaceVars(types, old(blocks)[b].locals, offset),
                                               localsSize := size)]
    {
      hide SizeOf, PlaceVars, TotalSize;
      ghost var before := blocks;
      ghost var vs := blocks[b].locals;
      var i := 0;
      size := 0;
      TotalNone(types, vs);
      while i < |blocks[b].locals|
        invariant |blocks| == |before| && (forall k :: 0 <= k < |blocks| && k != b ==> blocks[k] == before[k])
        invariant blocks[b] == before[b].(locals := blocks[b].locals) && |blocks[b].locals| == |vs|
        invariant 0 <= i <= |vs| && size == TotalSize(types, vs[..i])
        invariant forall k :: 0 <= k < i ==> blocks[b].locals[k] == PlaceVars(types, vs, offset)[k]
        invariant forall k :: i <= k < |vs| ==> blocks[b].locals[k] == vs[k]
      {
        var n := SizeVariable(types, blocks[b].locals[i]);
        TotalSplit(types, vs, i);
        PlacedSplit(types, vs, offset, i);
        var v := blocks[b].locals[i].(offset := size + offset + n);
        blocks := blocks[b := blocks[b].(locals := blocks[b].locals[i := v])];
        size := size + n;
        i := i + 1;
      }
      assert vs[..i] == vs;
      assert blocks[b].locals == PlaceVars(types, vs, offset);
      if size % 16 > 0 {
        size := size - size % 16 + 16;
      }
      ok := size <= MAX_FRAME;
      blocks := blocks[b := blocks[b].(localsSize := size)];
    }

    /** Sizes the blocks around b again, then b itself; returns how deep its frame reaches. */
    method SizeBlock(b: nat) returns (ok: bool, depth: nat)
      requires b < |blocks| && forall c :: 0 <= c < |blocks| ==> AllSizable(types, blocks[c].locals)
      requires forall c :: 1 <= c < |blocks| ==> BlockOk(blocks, funcs, c)
      requires forall f :: 0 <= f < |funcs| ==> funcs[f].paramsSize == Align16(TotalSize(types, funcs[f].params))
      requires b >= 1
      modifies `blocks
      ensures ok <==> ChainSmall(types, old(blocks), b)
      ensures ok ==> ChainSized(types, old(blocks), funcs, b, blocks)
      ensures ok ==>
                depth == SizedOutside(types, old(blocks), funcs, b) + Align16(TotalSize(types, old(blocks)[b].locals))
      decreases b
    {
      hide SizeOf, PlaceVars, TotalSize, AllSizable;
      ghost var before := blocks;
      assert BlockOk(blocks, funcs, b);
      SmallChain(types, before, b);
      var offset: nat;
      match blocks[b].parent {
        case None =>
          offset := funcs[blocks[b].func.value].paramsSize;
        case Some(p) =>
          ok, offset := SizeBlock(p);
          if !ok { return false, 0; }
      }
      ghost var between := blocks;
      OwnKept(types, before, funcs, b, between);
      var size;
      ok, size := SizeLocals(b, offset);
      depth := size + offset;
      ChainStep(types, before, funcs, b, between, blocks);
    }

    method SizeAllFunctions() returns (ok: bool)
      requires forall f :: 0 <= f < |funcs| ==> AllSizable(types, funcs[f].params)
      modifies `funcs
      ensures ok <==> FunctionsSmall(types, old(funcs))
      ensures ok ==> FunctionsSized(types, old(funcs), funcs, |funcs|)
    {
      hide SizedFunction, AllSizable, Small;
      ghost var before := funcs;
      var i := 0;
      while i < |funcs|
        invariant 0 <= i <= |funcs| && FunctionsSized(types, before, funcs, i)
        invariant forall k :: 0 <= k < i ==> Small(types, before[k].params)
      {
        assert FunctionSizedAt(types, before, funcs, i, i);
        ghost var here := funcs;
        ok := SizeFunction(i);
        if !ok { return; }
        i := i + 1;
        forall k | 0 <= k < |before| ensures FunctionSizedAt(types, before, funcs, i, k) {
          assert FunctionSizedAt(types, before, here, i - 1, k);
        }
      }
      ok := true;
    }

    method SizeAllBlocks() returns (ok: bool)
      requires forall c :: 0 <= c < |blocks| ==> AllSizable(types, blocks[c].locals)
      requires forall c :: 1 <= c < |blocks| ==> BlockOk(blocks, funcs, c)
      requires forall f :: 0 <= f < |funcs| ==> funcs[f].paramsSize == Align16(TotalSize(types, funcs[f].params))
      modifies `blocks
      ensures ok <==> BlocksSmall(types, old(blocks))
      ensures ok ==> BlocksSized(types, old(blocks), funcs, blocks, |blocks|)
    {
      hide SizedBlock, AllSizable, Small, TotalSize, BlockOk;
      ghost var before := blocks;
      var i := 1;
      StartSized(types, before, funcs);
      while i < |blocks|
        invariant 1 <= i && (i <= |blocks| || i == 1) && BlocksSized(types, before, funcs, blocks, i)
        invariant forall k :: 1 <= k < i && k < |before| ==> Small(types, before[k].locals)
      {
        ghost var here := blocks;
        SizedKeeps(types, before, funcs, here, i);
        var depth;
        ok, depth := SizeBlock(i);
        SmallSame(types, before, funcs, here, i);
        if !ok { return; }
        BlocksStep(types, before, funcs, here, i, blocks);
        i := i + 1;
      }
      if |blocks| == 0 { BlocksSizedNone(types, before, funcs, blocks); }
      ok := true;
    }

    /** Global variables get their offsets in the data section. */
    method PlaceData()
      requires |blocks| > 0 && AllSizable(types, blocks[0].locals)
      modifies `blocks, `dataIdx
      ensures dataIdx == old(dataIdx) + TotalSize(types, old(blocks)[0].locals)
      ensures blocks
           == old(blocks)[0 := old(blocks)[0].(locals := PlaceGlobals(types, old(blocks)[0].locals, old(dataIdx)))]
    {
      hide SizeOf, TotalSize, PlaceGlobals;
      ghost var before := blocks;
      ghost var vs, start := blocks[0].locals, dataIdx;
      var i := 0;
      TotalNone(types, vs);
      GlobalsLength(types, vs, start);
      while i < |blocks[0].locals|
        invariant |blocks| == |before| && (forall k :: 1 <= k < |blocks| ==> blocks[k] == before[k])
        invariant blocks[0] == before[0].(locals := blocks[0].locals) && |blocks[0].locals| == |vs|
        invariant 0 <= i <= |vs| && dataIdx == start + TotalSize(types, vs[..i])
        invariant forall k :: 0 <= k < i ==> blocks[0].locals[k] == PlaceGlobals(types, vs, start)[k]
        invariant forall k :: i <= k < |vs| ==> blocks[0].locals[k] == vs[k]
      {
        GlobalsSplit(types, vs, start, i);
        TotalSplit(types, vs, i);
        var v := blocks[0].locals[i];
        blocks := blocks[0 := blocks[0].(locals := blocks[0].locals[i := v.(offset := dataIdx)])];
        var n := SizeVariable(types, v);
        dataIdx := dataIdx + n;
        i := i + 1;
      }
      assert vs[..i] == vs;
      assert blocks[0].locals == PlaceGlobals(types, vs, start);
    }

    /** Functions, then blocks, then the data. */
    method SizeFunctions() returns (ok: bool)
      requires TablesOk(Prog())
      modifies `funcs, `blocks, `dataIdx
      ensures ok <==> FunctionsSmall(types, old(funcs)) && BlocksSmall(types, old(blocks))
      ensures ok ==> FunctionsSized(types, old(funcs), funcs, |funcs|)
      ensures ok ==>
                |blocks| == |old(blocks)|
                  && BlocksSized(types, old(blocks), funcs, blocks[0 := old(blocks)[0]], |blocks|)
      ensures ok ==> blocks[0] == old(blocks)[0].(locals := PlaceGlobals(types, old(blocks)[0].locals, old(dataIdx)))
      ensures ok ==> dataIdx == old(dataIdx) + TotalSize(types, old(blocks)[0].locals)
      ensures ok ==> Sized(Prog())
    {
      hide Sized, SizedBlock, SizedFunction, AllSizable, TotalSize, Small, BlockOk;
      ghost var fs, bs := funcs, blocks;
      ok := SizeAllFunctions();
      if !ok { return; }
      ParamsSizes(types, fs, funcs);
      SameFunctions(bs, fs, funcs);
      ok := SizeAllBlocks();
      if !ok { return; }
      OutermostKept(types, bs, funcs, blocks);
      ghost var sized := blocks;
      PlaceData();
      assert blocks[0 := bs[0]] == sized;
      AllSized(Prog(), fs, bs, sized);
    }

    // ----- the first pass: lengths -----

    /** None of the code exists yet; the offsets are where it will be. */
    method CalculateCodeLength() returns (ok: bool, len: nat)
      modifies `offs
      ensures ok <==> LengthsKnown(arch, Prog())
      ensures ok ==> |offs| == |il| + 1 && offs[0] == 0 && offs[|il|] == len
      ensures ok ==> forall i :: 0 <= i < |il| ==> LengthIs(arch, Prog(), offs, i)
    {
      hide CodeLength;
      len := 0;
      offs := [];
      var i := 0;
      ghost var P := Prog();
      while i < |il|
        invariant 0 <= i <= |il| == |P.il| && |offs| == i && (i > 0 ==> offs[0] == 0) && (i == 0 ==> len == 0)
        invariant Prog() == P
        invariant forall k :: 0 <= k < i ==> CodeLength(arch, P, il[k]).Some?
        invariant forall k :: 0 <= k < i ==> LengthIs(arch, P, offs + [len], k)
      {
        offs := offs + [len];
        var opLen := CodeLength(arch, Prog(), il[i]);
        if opLen.None? { return false, 0; }
        ghost var here := offs;
        len := len + opLen.value;
        forall k | 0 <= k < i + 1 ensures LengthIs(arch, P, offs + [len], k) {
          if k < i { assert LengthIs(arch, P, here, k); }
        }
        i := i + 1;
      }
      offs := offs + [len];
      ok := true;
    }

    // ----- the second pass: code -----

    method EmitWord(w: Word)
      modifies `code
      ensures |code| == |old(code)| + 4 && old(code) <= code
      ensures forall start :: Fetch(Code(start, code), start + |old(code)|) == Some(w)
    {
      var i := 0;
      ghost var before := code;
      while i < 4
        invariant 0 <= i <= 4 && |code| == |before| + i && before <= code
        invariant forall k :: 0 <= k < i ==> code[|before| + k] == ExtractByte(w, k)
      {
        code := code + [ExtractByte(w, i)];
        i := i + 1;
      }
      ExtractedBytes(w);
    }

    method EmitWords(ws: seq<Word>, ghost start: int)
      modifies `code
      ensures |code| == |old(code)| + 4 * |ws| && old(code) <= code
      ensures CodeAt(Code(start, code), |old(code)|, ws)
    {
      hide Fetch;
      var i := 0;
      ghost var before := code;
      while i < |ws|
        invariant 0 <= i <= |ws| && |code| == |before| + 4 * i && before <= code
        invariant forall k :: 0 <= k < i ==> WordAt(Code(start, code), |before|, ws, k)
      {
        ghost var here := code;
        EmitWord(ws[i]);
        forall k | 0 <= k < i + 1 ensures WordAt(Code(start, code), |before|, ws, k) {
          if k < i {
            assert WordAt(Code(start, here), |before|, ws, k);
            FetchGrows(start, here, code, start + |before| + 4 * k);
          }
        }
        i := i + 1;
      }
    }

    /** The whole generator: lengths, sizes, code.  The block in force is kept from the markers as the loop passes them,
        and at every instruction the code is as long as the first pass said it would be. */
    method Generate() returns (ok: bool, L: Layout)
      requires TablesOk(Prog()) && code == []
      modifies this
      ensures ok <==>
                && LengthsKnown(arch, old(Prog())) && FunctionsSmall(types, old(funcs))
                && BlocksSmall(types, old(blocks))
                && Emittable(arch, Prog(), L)
      ensures ok ==> L == Layout(CODE_START, |code|, offs) && Sized(Prog())
      ensures ok ==> Prog().il == old(Prog()).il && FunctionsSized(types, old(funcs), funcs, |funcs|)
      ensures ok ==>
                |blocks| == |old(blocks)|
                  && BlocksSized(types, old(blocks), funcs, blocks[0 := old(blocks)[0]], |blocks|)
      ensures ok ==> blocks[0] == old(blocks)[0].(locals := PlaceGlobals(types, old(blocks)[0].locals, old(dataIdx)))
      ensures ok ==> dataIdx == old(dataIdx) + TotalSize(types, old(blocks)[0].locals)
      ensures ok && |code| <= MAX_CODE && Starts(il) ==> Placed(arch, Prog(), L, Code(CODE_START, code))
    {
      hide Sized, CodeLength, LowerWords, CodeAt, BlockAfter, SizedFunction, SizedBlock, Small, BlockOk, AllSizable;
      L := Layout(CODE_START, 0, []);
      ghost var before, data := Prog(), dataIdx;
      var len;
      ok, len := CalculateCodeLength();
      if !ok { return; }
      assert Prog() == before;
      GlobalsLength(types, blocks[0].locals, data);
      ok := SizeFunctions();
      if !ok { return; }
      L := Layout(CODE_START, len, offs);
      ghost var P := Prog();
      ghost var dataEnd := dataIdx;
      LengthsKept(arch, before, P, offs);
      BlockNone(blocks);
      var i := 0;
      var bd: Option<nat> := None;
      while i < |il|
        invariant 0 <= i <= |il| == |P.il| && Prog() == P && L == Layout(CODE_START, len, offs) && dataIdx == dataEnd
        invariant |code| == offs[i] && bd == BlockAfter(blocks, None, il[..i])
        invariant forall k :: 0 <= k < i ==> PlacedAt(arch, P, L, Code(CODE_START, code), k)
      {
        var words := LowerWords(arch, Prog(), L, bd, il[i], |code|);
        assert il[..i] == P.il[..i];
        if words.None? {
          assert !EmittableAt(arch, P, L, i);
          return false, L;
        }
        ghost var here := code;
        EmitWords(words.value, CODE_START);
        assert LengthIs(arch, P, offs, i);
        LengthPredicted(arch, P, L, bd, il[i], offs[i]);
        BlockNext(blocks, il, i);
        bd := AfterMarker(blocks, bd, il[i]);
        forall k | 0 <= k < i + 1 ensures PlacedAt(arch, P, L, Code(CODE_START, code), k) {
          assert il[..k] == P.il[..k];
          if k < i {
            assert PlacedAt(arch, P, L, Code(CODE_START, here), k);
            CodeGrows(CODE_START, here, code, offs[k], LowerWords(arch, P, L, BlockAt(P, k), P.il[k], offs[k]).value);
          }
        }
        i := i + 1;
      }
      forall k | 0 <= k < |il| ensures EmittableAt(arch, P, L, k) {
        assert PlacedAt(arch, P, L, Code(CODE_START, code), k);
      }
      if |code| <= MAX_CODE && Starts(il) {
        forall k | 0 <= k < |il| ensures LengthAt(arch, P, L, k) {
          assert LengthIs(arch, P, offs, k);
        }
      }
    }
  }

  predicate LengthsKnown(arch: Arch, P: Program) {
    forall i :: 0 <= i < |P.il| ==> CodeLength(arch, P, P.il[i]).Some?
  }

  ghost predicate EmittableAt(arch: Arch, P: Program, L: Layout, i: nat)
    requires i < |P.il| <= |L.offs|
  {
    LowerWords(arch, P, L, BlockAt(P, i), P.il[i], L.offs[i]).Some?
  }

  /** Every operation has a lowering the backend can encode. */
  ghost predicate Emittable(arch: Arch, P: Program, L: Layout) {
    |P.il| <= |L.offs| && forall i :: 0 <= i < |P.il| ==> EmittableAt(arch, P, L, i)
  }

  /** What an operation needs to be emitted by either backend: a lowering, register numbers, and a block whose frame is
      at most 2048 bytes deep. */
  ghost predicate WellUsed(P: Program, L: Layout, i: nat)
    requires i < |P.il| <= |L.offs|
  {
    && !P.il[i].op.Generic? && (IsBinary(P.il[i].op) ==> P.il[i].int1 <= 255)
    && BothReach.Shallow(P, BlockAt(P, i), BothReach.RISCV_DEPTH)
    && RiscvBackend.Lower(P, L, BlockAt(P, i), P.il[i], L.offs[i]).Some?
  }

  /** On sized tables the second pass never stops at such a program, whichever the backend. */
  lemma WellUsedEmittable(arch: Arch, P: Program, L: Layout)
    requires Sized(P) && P.blocks[0].localsSize == 0 && |P.il| <= |L.offs|
    requires forall i :: 0 <= i < |P.il| ==> WellUsed(P, L, i)
    ensures Emittable(arch, P, L)
  {
    hide Sized, BothReach.Shallow, BlockAt, RiscvBackend.Lower, RiscvBackend.LowerWords, ArmBackend.LowerWords;
    forall i | 0 <= i < |P.il| ensures EmittableAt(arch, P, L, i) {
      assert WellUsed(P, L, i);
      BothReach.ShallowEmitted(P, L, BlockAt(P, i), P.il[i], L.offs[i]);
    }
  }

  /** As every program does: the start label and the start operation. */
  predicate Starts(il: seq<Instr>) {
    |il| >= 2 && il[0].op.Label? && il[1].op.Start?
  }

  ghost predicate LengthIs(arch: Arch, P: Program, offs: seq<int>, i: nat)
    requires i < |P.il| && i + 1 < |offs|
  {
    CodeLength(arch, P, P.il[i]) == Some(offs[i + 1] - offs[i])
  }

  lemma FetchGrows(start: int, before: seq<Byte>, after: seq<Byte>, pc: int)
    requires before <= after && Fetch(Code(start, before), pc).Some?
    ensures Fetch(Code(start, after), pc) == Fetch(Code(start, before), pc)
  {
  }

  lemma CodeGrows(start: int, before: seq<Byte>, after: seq<Byte>, off: int, ws: seq<Word>)
    requires before <= after && CodeAt(Code(start, before), off, ws)
    ensures CodeAt(Code(start, after), off, ws)
  {
    hide Fetch;
    forall k | 0 <= k < |ws| ensures WordAt(Code(start, after), off, ws, k) {
      assert WordAt(Code(start, before), off, ws, k);
      FetchGrows(start, before, after, start + off + 4 * k);
    }
  }

  lemma BlockNone(blocks: seq<Block>)
    ensures BlockAfter(blocks, None, []) == None
  {
  }

  lemma BlockNext(blocks: seq<Block>, il: seq<Instr>, i: nat)
    requires i < |il|
    ensures BlockAfter(blocks, None, il[..i + 1]) == AfterMarker(blocks, BlockAfter(blocks, None, il[..i]), il[i])
  {
    assert il[..i + 1][..i] == il[..i];
  }

  // ----- sizing does not change lengths -----

  ghost predicate SameShape(P: Program, Q: Program) {
    && P.il == Q.il && |P.funcs| == |Q.funcs| && |P.blocks| == |Q.blocks|
    && (forall f :: 0 <= f < |P.funcs| ==> SameArity(P.funcs[f], Q.funcs[f]))
    && (forall b :: 0 <= b < |P.blocks| ==> |P.blocks[b].locals| == |Q.blocks[b].locals|)
  }

  predicate SameArity(f: Function, g: Function) {
    f.name == g.name && |f.params| == |g.params|
  }

  lemma {:induction false} SameFinds(fs: seq<Function>, gs: seq<Function>, name: string)
    requires |fs| == |gs| && forall f :: 0 <= f < |fs| ==> SameArity(fs[f], gs[f])
    ensures FindFunction(fs, name) == FindFunction(gs, name)
  {
    if fs != [] {
      assert SameArity(fs[0], gs[0]);
      forall f | 0 <= f < |fs[1..]| ensures SameArity(fs[1..][f], gs[1..][f]) {
        assert SameArity(fs[f + 1], gs[f + 1]);
      }
      SameFinds(fs[1..], gs[1..], name);
    }
  }

  lemma LengthKept(arch: Arch, P: Program, Q: Program, ins: Instr)
    requires SameShape(P, Q)
    ensures CodeLength(arch, P, ins) == CodeLength(arch, Q, ins)
  {
    SameFinds(P.funcs, Q.funcs, ins.name);
    var f := FindFunction(P.funcs, ins.name);
    assert f.Some? ==> SameArity(P.funcs[f.value], Q.funcs[f.value]);
  }

  lemma LengthsKept(arch: Arch, P: Program, Q: Program, offs: seq<int>)
    requires |offs| == |P.il| + 1 && (forall i :: 0 <= i < |P.il| ==> LengthIs(arch, P, offs, i)) && P.il == Q.il
    requires FunctionsSized(P.types, P.funcs, Q.funcs, |Q.funcs|) && |P.blocks| == |Q.blocks| > 0
    requires BlocksSized(P.types, P.blocks, Q.funcs, Q.blocks[0 := P.blocks[0]], |Q.blocks|)
    requires |Q.blocks[0].locals| == |P.blocks[0].locals|
    ensures forall i :: 0 <= i < |Q.il| ==> LengthIs(arch, Q, offs, i)
  {
    hide CodeLength;
    forall f | 0 <= f < |P.funcs| ensures SameArity(P.funcs[f], Q.funcs[f]) {
      assert FunctionSizedAt(P.types, P.funcs, Q.funcs, |Q.funcs|, f);
    }
    forall b | 0 <= b < |P.blocks| ensures |P.blocks[b].locals| == |Q.blocks[b].locals| {
      assert BlockSizedAt(P.types, P.blocks, Q.funcs, Q.blocks[0 := P.blocks[0]], |Q.blocks|, b);
    }
    forall i | 0 <= i < |Q.il| ensures LengthIs(arch, Q, offs, i) {
      assert LengthIs(arch, P, offs, i);
      LengthKept(arch, P, Q, P.il[i]);
    }
  }

  // ----- sizing all of them -----

  ghost predicate FunctionsSmall(types: seq<TypeDef>, funcs: seq<Function>) {
    forall f :: 0 <= f < |funcs| ==> Small(types, funcs[f].params)
  }

  ghost predicate BlocksSmall(types: seq<TypeDef>, blocks: seq<Block>) {
    forall b :: 1 <= b < |blocks| ==> Small(types, blocks[b].locals)
  }

  ghost predicate FunctionSizedAt(types: seq<TypeDef>, before: seq<Function>, after: seq<Function>, n: nat, k: nat)
    requires k < |before| == |after|
  {
    after[k] == if k < n then SizedFunction(types, before[k]) else before[k]
  }

  /** The first n functions are sized. */
  ghost predicate FunctionsSized(types: seq<TypeDef>, before: seq<Function>, after: seq<Function>, n: nat) {
    |after| == |before| && forall k :: 0 <= k < |before| ==> FunctionSizedAt(types, before, after, n, k)
  }

  ghost predicate BlockSizedAt(types: seq<TypeDef>, before: seq<Block>, funcs: seq<Function>, after: seq<Block>, n: nat,
                               k: nat)
    requires k < |before| == |after|
  {
    after[k] == if 1 <= k < n then SizedBlock(types, before, funcs, k) else before[k]
  }

  /** The blocks from 1 to n - 1 are sized. */
  ghost predicate BlocksSized(types: seq<TypeDef>, before: seq<Block>, funcs: seq<Function>, after: seq<Block>,
                              n: nat) {
    |after| == |before| && forall k :: 0 <= k < |before| ==> BlockSizedAt(types, before, funcs, after, n, k)
  }

  lemma StartSized(types: seq<TypeDef>, before: seq<Block>, funcs: seq<Function>)
    ensures BlocksSized(types, before, funcs, before, 1)
  {
  }

  lemma BlocksSizedNone(types: seq<TypeDef>, before: seq<Block>, funcs: seq<Function>, after: seq<Block>)
    requires |before| == |after| == 0
    ensures BlocksSized(types, before, funcs, after, 0)
  {
  }

  lemma SizedDeclares(types: seq<TypeDef>, before: seq<Block>, funcs: seq<Function>, after: seq<Block>, n: nat)
    requires BlocksSized(types, before, funcs, after, n)
    ensures SameBlocks(before, after)
  {
    forall k | 0 <= k < |before| ensures SameBlock(before[k], after[k]) {
      assert BlockSizedAt(types, before, funcs, after, n, k);
    }
  }

  /** Sizing some blocks keeps what sizing the others needs. */
  lemma SizedKeeps(types: seq<TypeDef>, before: seq<Block>, funcs: seq<Function>, here: seq<Block>, n: nat)
    requires BlocksSized(types, before, funcs, here, n)
    requires forall c :: 0 <= c < |before| ==> AllSizable(types, before[c].locals)
    requires forall c :: 1 <= c < |before| ==> BlockOk(before, funcs, c)
    ensures forall c :: 0 <= c < |here| ==> AllSizable(types, here[c].locals)
    ensures forall c :: 1 <= c < |here| ==> BlockOk(here, funcs, c)
  {
    SizedDeclares(types, before, funcs, here, n);
    forall c | 0 <= c < |here| ensures AllSizable(types, here[c].locals) {
      assert SameBlock(before[c], here[c]) && AllSizable(types, before[c].locals);
      forall k | 0 <= k < |here[c].locals| ensures Sizable(types, here[c].locals[k]) {
        assert SameDeclaration(before[c].locals[k], here[c].locals[k]) && Sizable(types, before[c].locals[k]);
      }
    }
    forall c | 1 <= c < |here| ensures BlockOk(here, funcs, c) {
      assert BlockOk(before, funcs, c) && SameBlock(before[c], here[c]);
      if here[c].parent.Some? { assert SameBlock(before[here[c].parent.value], here[here[c].parent.value]); }
    }
  }

  lemma {:induction false} EnclosesInside(blocks: seq<Block>, funcs: seq<Function>, a: nat, b: nat)
    requires 1 <= b < |blocks| && Encloses(blocks, a, b) && forall c :: 1 <= c < |blocks| ==> BlockOk(blocks, funcs, c)
    ensures 1 <= a <= b
    decreases b
  {
    assert BlockOk(blocks, funcs, b);
    if a != b { EnclosesInside(blocks, funcs, a, blocks[b].parent.value); }
  }

  /** Once the earlier blocks are known to be small, a chain is small exactly if its last block is. */
  lemma SmallSame(types: seq<TypeDef>, before: seq<Block>, funcs: seq<Function>, here: seq<Block>, i: nat)
    requires 1 <= i < |here| && BlocksSized(types, before, funcs, here, i)
    requires forall c :: 1 <= c < |here| ==> BlockOk(here, funcs, c)
    requires forall k :: 1 <= k < i ==> Small(types, before[k].locals)
    ensures ChainSmall(types, here, i) <==> Small(types, before[i].locals)
  {
    hide SizedBlock, BlockOk, TotalSize, Encloses;
    SizedDeclares(types, before, funcs, here, i);
    forall c | 0 <= c < |here| ensures Small(types, here[c].locals) <==> Small(types, before[c].locals) {
      assert SameBlock(before[c], here[c]);
      SameSizes(types, before[c].locals, here[c].locals, 0);
    }
    forall c | 0 <= c < |here| && Encloses(here, c, i) ensures 1 <= c <= i {
      EnclosesInside(here, funcs, c, i);
    }
    assert Encloses(here, i, i) by { EnclosesStep(here, funcs, i, i); }
  }

  lemma BlocksStep(types: seq<TypeDef>, before: seq<Block>, funcs: seq<Function>, here: seq<Block>, i: nat,
                   after: seq<Block>)
    requires 1 <= i < |here| && BlocksSized(types, before, funcs, here, i) && ChainSized(types, here, funcs, i, after)
    requires forall c :: 1 <= c < |here| ==> BlockOk(here, funcs, c)
    ensures BlocksSized(types, before, funcs, after, i + 1)
  {
    hide BlockOk, Encloses;
    SizedDeclares(types, before, funcs, here, i);
    var next := i + 1;
    forall c | 0 <= c < |before| ensures BlockSizedAt(types, before, funcs, after, next, c) {
      assert BlockSizedAt(types, before, funcs, here, i, c) && ChainSizedAt(types, here, funcs, i, after, c);
      assert SameBlock(before[c], here[c]);
      SameSized(types, before, here, funcs, c);
      if Encloses(here, c, i) {
        EnclosesInside(here, funcs, c, i);
      } else if c == i {
        EnclosesStep(here, funcs, i, i);
      }
    }
  }

  lemma ParamsSizes(types: seq<TypeDef>, fs: seq<Function>, funcs: seq<Function>)
    requires FunctionsSized(types, fs, funcs, |fs|)
    ensures forall f :: 0 <= f < |funcs| ==> funcs[f].paramsSize == Align16(TotalSize(types, funcs[f].params))
  {
    forall f | 0 <= f < |funcs| ensures funcs[f].paramsSize == Align16(TotalSize(types, funcs[f].params)) {
      assert FunctionSizedAt(types, fs, funcs, |fs|, f);
      SameSizes(types, fs[f].params, funcs[f].params, 0);
    }
  }

  lemma SameFunctions(blocks: seq<Block>, fs: seq<Function>, funcs: seq<Function>)
    requires |fs| == |funcs| && forall c :: 1 <= c < |blocks| ==> BlockOk(blocks, fs, c)
    ensures forall c :: 1 <= c < |blocks| ==> BlockOk(blocks, funcs, c)
  {
    forall c | 1 <= c < |blocks| ensures BlockOk(blocks, funcs, c) { assert BlockOk(blocks, fs, c); }
  }

  lemma OutermostKept(types: seq<TypeDef>, before: seq<Block>, funcs: seq<Function>, after: seq<Block>)
    requires |before| > 0 && BlocksSized(types, before, funcs, after, |after|)
    ensures after[0] == before[0]
  {
    assert BlockSizedAt(types, before, funcs, after, |after|, 0);
  }

  lemma {:induction false} GlobalsLength(types: seq<TypeDef>, vs: seq<Var>, at: nat)
    ensures |PlaceGlobals(types, vs, at)| == |vs|
  {
    hide SizeOf;
    if vs != [] { GlobalsLength(types, vs[1..], at + SizeOf(types, vs[0])); }
  }

  lemma {:induction false} GlobalsSplit(types: seq<TypeDef>, vs: seq<Var>, at: nat, k: nat)
    requires k < |vs|
    ensures |PlaceGlobals(types, vs, at)| == |vs|
    ensures PlaceGlobals(types, vs, at)[k] == vs[k].(offset := at + TotalSize(types, vs[..k]))
    decreases k
  {
    hide SizeOf;
    GlobalsLength(types, vs, at);
    if k > 0 {
      assert vs[..k][1..] == vs[1..][..k - 1];
      GlobalsSplit(types, vs[1..], at + SizeOf(types, vs[0]), k - 1);
    }
  }

  /** Where a sized block's locals start is where its declarations say. */
  lemma {:induction false} OutsideSized(types: seq<TypeDef>, before: seq<Block>, funcs: seq<Function>,
                                        after: seq<Block>, b: nat)
    requires |before| == |after| && 1 <= b < |before|
    requires forall c :: 1 <= c < |before| ==> after[c] == SizedBlock(types, before, funcs, c)
    requires forall c :: 1 <= c < |before| ==> BlockOk(before, funcs, c)
    requires forall f :: 0 <= f < |funcs| ==> funcs[f].paramsSize == Align16(TotalSize(types, funcs[f].params))
    ensures Outside(after, funcs, b) == SizedOutside(types, before, funcs, b)
    decreases b
  {
    hide TotalSize, PlaceVars;
    assert BlockOk(before, funcs, b) && after[b] == SizedBlock(types, before, funcs, b);
    if before[b].parent.Some? {
      var p := before[b].parent.value;
      assert after[p] == SizedBlock(types, before, funcs, p);
      OutsideSized(types, before, funcs, after, p);
    }
  }

  lemma AllSized(P: Program, fs: seq<Function>, before: seq<Block>, sized: seq<Block>)
    requires FunctionsSized(P.types, fs, P.funcs, |fs|) && FunctionsSmall(P.types, fs)
    requires |before| > 0 && before[0].parent.None? && BlocksSized(P.types, before, P.funcs, sized, |sized|)
    requires BlocksSmall(P.types, before) && |P.blocks| == |sized| && P.blocks[0].parent.None?
    requires forall c :: 1 <= c < |sized| ==> P.blocks[c] == sized[c]
    requires forall c :: 1 <= c < |before| ==> BlockOk(before, P.funcs, c)
    ensures Sized(P)
  {
    hide TotalSize, PlaceVars, Outside, SizedOutside, Small;
    var types := P.types;
    ParamsSizes(types, fs, P.funcs);
    forall f | 0 <= f < |P.funcs| ensures FunctionSized(types, P.funcs[f]) {
      FunctionIsSized(types, fs, P.funcs, f);
    }
    forall c | 1 <= c < |before| ensures P.blocks[c] == SizedBlock(types, before, P.funcs, c) {
      assert BlockSizedAt(types, before, P.funcs, sized, |sized|, c);
    }
    forall b | 1 <= b < |P.blocks| ensures BlockSized(types, P.blocks, P.funcs, b) && BlockOk(P.blocks, P.funcs, b) {
      assert P.blocks[b] == SizedBlock(types, before, P.funcs, b) && BlockOk(before, P.funcs, b);
      if before[b].parent.Some? {
        var p := before[b].parent.value;
        assert P.blocks[p] == SizedBlock(types, before, P.funcs, p);
      }
      OutsideSized(types, before, P.funcs, P.blocks, b);
      BlockIsSized(types, before, P.funcs, P.blocks, b);
    }
  }

  lemma FunctionIsSized(types: seq<TypeDef>, fs: seq<Function>, funcs: seq<Function>, f: nat)
    requires FunctionsSized(types, fs, funcs, |fs|) && FunctionsSmall(types, fs) && f < |funcs|
    ensures FunctionSized(types, funcs[f])
  {
    assert FunctionSizedAt(types, fs, funcs, |fs|, f) && Small(types, fs[f].params);
    SameSizes(types, fs[f].params, funcs[f].params, 0);
  }

  lemma BlockIsSized(types: seq<TypeDef>, before: seq<Block>, funcs: seq<Function>, after: seq<Block>, b: nat)
    requires b < |before| == |after| && after[b] == SizedBlock(types, before, funcs, b)
    requires Small(types, before[b].locals)
    requires Outside(after, funcs, b) == SizedOutside(types, before, funcs, b)
    ensures BlockSized(types, after, funcs, b)
  {
    hide Outside, SizedOutside;
    SameSizes(types, before[b].locals, after[b].locals, SizedOutside(types, before, funcs, b));
  }

  lemma {:induction false} EnclosesBelow(blocks: seq<Block>, a: nat, b: nat)
    requires Encloses(blocks, a, b)
    ensures a <= b
    decreases b
  {
    if a != b { EnclosesBelow(blocks, a, blocks[b].parent.value); }
  }

  lemma EnclosesStep(blocks: seq<Block>, funcs: seq<Function>, c: nat, b: nat)
    requires b < |blocks| && BlockOk(blocks, funcs, b)
    ensures Encloses(blocks, c, b) <==>
              c == b || (blocks[b].parent.Some? && Encloses(blocks, c, blocks[b].parent.value))
    ensures blocks[b].parent.Some? ==> !Encloses(blocks, b, blocks[b].parent.value)
  {
    if blocks[b].parent.Some? && Encloses(blocks, b, blocks[b].parent.value) {
      EnclosesBelow(blocks, b, blocks[b].parent.value);
      assert false;
    }
  }

  lemma SmallChain(types: seq<TypeDef>, blocks: seq<Block>, b: nat)
    requires b < |blocks| && match blocks[b].parent case None => true case Some(p) => p < b
    ensures ChainSmall(types, blocks, b) <==>
              Small(types, blocks[b].locals)
                && (blocks[b].parent.Some? ==> ChainSmall(types, blocks, blocks[b].parent.value))
  {
    hide Small;
    assert Encloses(blocks, b, b);
  }

  /** What sizing the blocks around b leaves of b itself: everything. */
  lemma OwnKept(types: seq<TypeDef>, before: seq<Block>, funcs: seq<Function>, b: nat, between: seq<Block>)
    requires b < |before| && BlockOk(before, funcs, b)
    requires match before[b].parent
             case None => between == before case Some(p) => ChainSized(types, before, funcs, p, between)
    ensures |between| == |before| && between[b] == before[b]
  {
    if before[b].parent.Some? {
      EnclosesStep(before, funcs, b, b);
      assert ChainSizedAt(types, before, funcs, before[b].parent.value, between, b);
    }
  }

  lemma ChainStep(types: seq<TypeDef>, before: seq<Block>, funcs: seq<Function>, b: nat, between: seq<Block>,
                  after: seq<Block>)
    requires b < |before| == |between| && BlockOk(before, funcs, b)
    requires match before[b].parent
             case None => between == before case Some(p) => ChainSized(types, before, funcs, p, between)
    requires after == between[b := SizedBlock(types, before, funcs, b)]
    ensures ChainSized(types, before, funcs, b, after)
  {
    hide SizedBlock, Encloses;
    forall c | 0 <= c < |before| ensures ChainSizedAt(types, before, funcs, b, after, c) {
      EnclosesStep(before, funcs, c, b);
      if before[b].parent.Some? {
        assert ChainSizedAt(types, before, funcs, before[b].parent.value, between, c);
      }
    }
  }

  lemma TotalNone(types: seq<TypeDef>, vs: seq<Var>)
    ensures TotalSize(types, vs[..0]) == 0
  {
  }
}
