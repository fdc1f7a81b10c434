/** The parser resolves a name on the tables as they are so far, locals first; the code generator does it again on
    the finished and sized tables, globals first.  When exactly they find the same variable is the subject of this
    module. */
module Scoping {
  import opened Words
  import opened Il
  import opened Grammar

  /** The same declaration, before and after it got its offset. */
  predicate SameDeclaration(v: Var, w: Var) {
    v.(offset := 0) == w.(offset := 0)
  }

  /** Declarations are kept in order and only added behind. */
  ghost predicate Kept(vs: seq<Var>, ws: seq<Var>) {
    |vs| <= |ws| && forall k :: 0 <= k < |vs| ==> SameDeclaration(vs[k], ws[k])
  }

  ghost predicate BlockKept(a: Block, b: Block) {
    a.parent == b.parent && a.func == b.func && Kept(a.locals, b.locals)
  }

  /** The parameters of the function a block belongs to. */
  ghost predicate ParamsKept(sc: Scope, P: Program)
    requires sc.block < |sc.blocks| && |sc.names.funcs| <= |P.funcs|
  {
    match sc.blocks[sc.block].func
    case None => true
    case Some(f) => f < |sc.names.funcs| ==> Kept(sc.names.funcs[f].params, P.funcs[f].params)
  }

  /** The tables at some point of parsing, and the finished program.  The parameters of other functions may have
      changed: a definition replaces those of an earlier declaration. */
  ghost predicate Finished(sc: Scope, P: Program) {
    && sc.block < |sc.blocks| <= |P.blocks| && |sc.names.funcs| <= |P.funcs|
    && (forall k :: 0 <= k < |sc.blocks| ==> BlockKept(sc.blocks[k], P.blocks[k]))
    && ParamsKept(sc, P)
  }

  function ChainLocals(blocks: seq<Block>, b: nat): seq<Var>
    decreases b
  {
    if b >= |blocks| then []
    else
      blocks[b].locals
      + (match blocks[b].parent case Some(p) => (if p < b then ChainLocals(blocks, p) else []) case None => [])
  }

  function Params(blocks: seq<Block>, funcs: seq<Function>, b: nat): seq<Var> {
    if b < |blocks| && blocks[b].func.Some? && blocks[b].func.value < |funcs| then funcs[blocks[b].func.value].params
    else []
  }

  function Globals(blocks: seq<Block>): seq<Var> {
    if |blocks| == 0 then [] else blocks[0].locals
  }

  /** All variables visible in block b, those of the block itself first. */
  function Visible(blocks: seq<Block>, funcs: seq<Function>, b: nat): seq<Var> {
    ChainLocals(blocks, b) + Params(blocks, funcs, b) + Globals(blocks)
  }

  ghost predicate Distinct(vs: seq<Var>) {
    forall i, j :: 0 <= i < j < |vs| ==> vs[i].name != vs[j].name
  }

  lemma {:induction false} FindJoin(vs: seq<Var>, ws: seq<Var>, name: string)
    ensures FindVar(vs + ws, name) == match FindVar(vs, name) case Some(v) => Some(v) case None => FindVar(ws, name)
  {
    if vs == [] {
      assert vs + ws == ws;
    } else {
      assert (vs + ws)[1..] == vs[1..] + ws;
      FindJoin(vs[1..], ws, name);
    }
  }

  lemma {:induction false} FindSound(vs: seq<Var>, name: string)
    ensures FindVar(vs, name).Some? ==> FindVar(vs, name).value in vs && FindVar(vs, name).value.name == name
    ensures FindVar(vs, name).None? ==> forall k :: 0 <= k < |vs| ==> vs[k].name != name
  {
    if vs != [] { FindSound(vs[1..], name); }
  }

  lemma {:induction false} ChainFind(blocks: seq<Block>, b: nat, name: string)
    ensures FindInChain(blocks, b, name) == FindVar(ChainLocals(blocks, b), name)
    decreases b
  {
    if b < |blocks| {
      var outer := match blocks[b].parent case Some(p) => if p < b then ChainLocals(blocks, p) else [] case None => [];
      FindJoin(blocks[b].locals, outer, name);
      if blocks[b].parent.Some? && blocks[b].parent.value < b { ChainFind(blocks, blocks[b].parent.value, name); }
    }
  }

  /** The parser's search is the search of the visible variables in order. */
  lemma FindVisible(blocks: seq<Block>, funcs: seq<Function>, b: nat, name: string)
    ensures FindVariable(blocks, funcs, b, name) == FindVar(Visible(blocks, funcs, b), name)
    ensures FindLocalVariable(blocks, funcs, b, name)
         == FindVar(ChainLocals(blocks, b) + Params(blocks, funcs, b), name)
  {
    ChainFind(blocks, b, name);
    FindJoin(ChainLocals(blocks, b), Params(blocks, funcs, b), name);
    FindJoin(ChainLocals(blocks, b) + Params(blocks, funcs, b), Globals(blocks), name);
  }

  /** A variable found before is still there, now perhaps with an offset. */
  lemma {:induction false} StillThere(vs: seq<Var>, ws: seq<Var>, name: string) returns (w: Var)
    requires Kept(vs, ws) && FindVar(vs, name).Some?
    ensures w in ws && SameDeclaration(FindVar(vs, name).value, w)
  {
    assert SameDeclaration(vs[0], ws[0]);
    if vs[0].name == name {
      w := ws[0];
    } else {
      forall k | 0 <= k < |vs[1..]| ensures SameDeclaration(vs[1..][k], ws[1..][k]) {
        assert SameDeclaration(vs[k + 1], ws[k + 1]);
      }
      w := StillThere(vs[1..], ws[1..], name);
    }
  }

  lemma {:induction false} StillInChain(sc: Scope, P: Program, b: nat, name: string) returns (w: Var)
    requires Finished(sc, P) && b < |sc.blocks| && FindInChain(sc.blocks, b, name).Some?
    ensures w in ChainLocals(P.blocks, b) && SameDeclaration(FindInChain(sc.blocks, b, name).value, w)
    decreases b
  {
    assert BlockKept(sc.blocks[b], P.blocks[b]);
    if FindVar(sc.blocks[b].locals, name).Some? {
      w := StillThere(sc.blocks[b].locals, P.blocks[b].locals, name);
    } else {
      w := StillInChain(sc, P, sc.blocks[b].parent.value, name);
    }
  }

  lemma {:induction false} OnlyOne(vs: seq<Var>, w: Var)
    requires Distinct(vs) && w in vs
    ensures FindVar(vs, w.name) == Some(w)
  {
    if vs[0] != w {
      assert vs[1..][0..] == vs[1..];
      var k :| 0 <= k < |vs| && vs[k] == w;
      assert vs[1..][k - 1] == w;
      OnlyOne(vs[1..], w);
    }
  }

  lemma DistinctParts(vs: seq<Var>, ws: seq<Var>)
    requires Distinct(vs + ws)
    ensures Distinct(vs) && Distinct(ws)
    ensures forall v, w :: v in vs && w in ws ==> v.name != w.name
  {
    forall i, j | 0 <= i < j < |vs| ensures vs[i].name != vs[j].name { assert (vs + ws)[i].name != (vs + ws)[j].name; }
    forall i, j | 0 <= i < j < |ws| ensures ws[i].name != ws[j].name {
      assert (vs + ws)[|vs| + i].name != (vs + ws)[|vs| + j].name;
    }
    forall v, w | v in vs && w in ws ensures v.name != w.name {
      var i :| 0 <= i < |vs| && vs[i] == v;
      var j :| 0 <= j < |ws| && ws[j] == w;
      assert (vs + ws)[i].name != (vs + ws)[|vs| + j].name;
    }
  }

  /** The variable the parser resolved a name to, at any point of its run, is the one the code generator uses. */
  lemma LookupAgrees(sc: Scope, P: Program, name: string) returns (w: Var)
    requires Finished(sc, P)
    requires Distinct(Visible(P.blocks, P.funcs, sc.block)) && Lookup(sc, name).Some?
    ensures SameDeclaration(Lookup(sc, name).value, w) && w.name == name
    ensures Resolve(P, Some(sc.block), name) == if w in Globals(P.blocks) then Global(w.offset) else Local(w.offset)
    ensures w in Globals(P.blocks) <==> FindLocalVariable(sc.blocks, sc.names.funcs, sc.block, name).None?
  {
    hide ChainLocals, FindVar, Distinct;
    var b := sc.block;
    var locals := ChainLocals(P.blocks, b) + Params(P.blocks, P.funcs, b);
    FindVisible(P.blocks, P.funcs, b, name);
    FindVisible(sc.blocks, sc.names.funcs, b, name);
    FindSound(Visible(sc.blocks, sc.names.funcs, b), name);
    DistinctParts(locals, Globals(P.blocks));
    w := Resolved(sc, P, name);
    assert w.name == name;
    if FindLocalVariable(sc.blocks, sc.names.funcs, b, name).Some? {
      OnlyOne(locals, w);
      FindSound(Globals(P.blocks), name);
    } else {
      OnlyOne(Globals(P.blocks), w);
    }
  }

  /** The parser's variable in the finished tables, among the locals or among the globals as the parser found it. */
  lemma Resolved(sc: Scope, P: Program, name: string) returns (w: Var)
    requires Finished(sc, P) && Lookup(sc, name).Some?
    ensures SameDeclaration(Lookup(sc, name).value, w)
    ensures if FindLocalVariable(sc.blocks, sc.names.funcs, sc.block, name).Some?
            then w in ChainLocals(P.blocks, sc.block) + Params(P.blocks, P.funcs, sc.block) else w in Globals(P.blocks)
  {
    hide ChainLocals, FindVar, FindInChain, Kept;
    var b, fs := sc.block, sc.names.funcs;
    assert BlockKept(sc.blocks[b], P.blocks[b]);
    if FindInChain(sc.blocks, b, name).Some? {
      w := StillInChain(sc, P, b, name);
    } else if FindLocalVariable(sc.blocks, fs, b, name).Some? {
      var f := sc.blocks[b].func.value;
      w := StillThere(fs[f].params, P.funcs[f].params, name);
    } else {
      assert BlockKept(sc.blocks[0], P.blocks[0]);
      w := StillThere(sc.blocks[0].locals, P.blocks[0].locals, name);
    }
  }

  // ----- when exactly they agree -----

  /** A declaration by its place in the tables. */
  datatype Place = LocalOf(block: nat, index: nat) | ParamOf(func: nat, index: nat) | GlobalOf(index: nat)

  function FirstNamed(vs: seq<Var>, name: string): (r: Option<nat>)
    ensures r.Some? ==> r.value < |vs| && vs[r.value].name == name && FindVar(vs, name) == Some(vs[r.value])
    ensures r.None? <==> FindVar(vs, name).None?
  {
    if vs == [] then None
    else if vs[0].name == name then Some(0)
    else match FirstNamed(vs[1..], name) case None => None case Some(k) => Some(k + 1)
  }

  function ChainPlace(blocks: seq<Block>, b: nat, name: string): Option<Place>
    decreases b
  {
    if b >= |blocks| then None
    else match FirstNamed(blocks[b].locals, name)
      case Some(k) => Some(LocalOf(b, k))
      case None =>
        match blocks[b].parent case Some(p) => (if p < b then ChainPlace(blocks, p, name) else None) case None => None
  }

  function LocalPlace(blocks: seq<Block>, funcs: seq<Function>, b: nat, name: string): Option<Place> {
    match ChainPlace(blocks, b, name)
    case Some(p) => Some(p)
    case None =>
      if b < |blocks| && blocks[b].func.Some? && blocks[b].func.value < |funcs| then
        match FirstNamed(funcs[blocks[b].func.value].params, name)
        case Some(k) => Some(ParamOf(blocks[b].func.value, k))
        case None => None
      else None
  }

  function GlobalPlace(blocks: seq<Block>, name: string): Option<Place> {
    match FirstNamed(Globals(blocks), name) case Some(k) => Some(GlobalOf(k)) case None => None
  }

  /** The parser's choice. */
  function ParserPlace(blocks: seq<Block>, funcs: seq<Function>, b: nat, name: string): Option<Place> {
    match LocalPlace(blocks, funcs, b, name) case Some(p) => Some(p) case None => GlobalPlace(blocks, name)
  }

  /** The code generator's choice. */
  function GeneratorPlace(blocks: seq<Block>, funcs: seq<Function>, b: nat, name: string): Option<Place> {
    match GlobalPlace(blocks, name) case Some(p) => Some(p) case None => LocalPlace(blocks, funcs, b, name)
  }

  predicate PlaceOk(blocks: seq<Block>, funcs: seq<Function>, p: Place) {
    match p
    case LocalOf(b, k) => b < |blocks| && k < |blocks[b].locals|
    case ParamOf(f, k) => f < |funcs| && k < |funcs[f].params|
    case GlobalOf(k) => k < |Globals(blocks)|
  }

  function VarAt(blocks: seq<Block>, funcs: seq<Function>, p: Place): Var
    requires PlaceOk(blocks, funcs, p)
  {
    match p
    case LocalOf(b, k) => blocks[b].locals[k]
    case ParamOf(f, k) => funcs[f].params[k]
    case GlobalOf(k) => Globals(blocks)[k]
  }

  lemma {:induction false} ChainPlaceFinds(blocks: seq<Block>, funcs: seq<Function>, b: nat, name: string)
    ensures match ChainPlace(blocks, b, name)
            case None => FindInChain(blocks, b, name).None?
            case Some(p) =>
              p.LocalOf? && PlaceOk(blocks, funcs, p) && FindInChain(blocks, b, name) == Some(VarAt(blocks, funcs, p))
    decreases b
  {
    if b < |blocks| && FirstNamed(blocks[b].locals, name).None? && blocks[b].parent.Some?
      && blocks[b].parent.value < b {
      ChainPlaceFinds(blocks, funcs, blocks[b].parent.value, name);
    }
  }

  lemma LocalPlaceFinds(blocks: seq<Block>, funcs: seq<Function>, b: nat, name: string)
    ensures match LocalPlace(blocks, funcs, b, name)
            case None => FindLocalVariable(blocks, funcs, b, name).None?
            case Some(p) =>
              !p.GlobalOf? && PlaceOk(blocks, funcs, p)
                && FindLocalVariable(blocks, funcs, b, name) == Some(VarAt(blocks, funcs, p))
  {
    hide ChainPlace, FindInChain, FindVar;
    ChainPlaceFinds(blocks, funcs, b, name);
  }

  /** The places are those of the variables the two searches give. */
  lemma PlacesFind(P: Program, b: nat, name: string)
    ensures match ParserPlace(P.blocks, P.funcs, b, name)
            case None => FindVariable(P.blocks, P.funcs, b, name).None?
            case Some(p) =>
              PlaceOk(P.blocks, P.funcs, p)
                && FindVariable(P.blocks, P.funcs, b, name) == Some(VarAt(P.blocks, P.funcs, p))
    ensures match GeneratorPlace(P.blocks, P.funcs, b, name)
            case None => !Resolve(P, Some(b), name).Global? && !Resolve(P, Some(b), name).Local?
            case Some(p) =>
              && PlaceOk(P.blocks, P.funcs, p)
              && var v := VarAt(P.blocks, P.funcs, p);
                 Resolve(P, Some(b), name) == if p.GlobalOf? then Global(v.offset) else Local(v.offset)
  {
    hide LocalPlace, FindLocalVariable, FindVar, FindFunction;
    LocalPlaceFinds(P.blocks, P.funcs, b, name);
  }

  /** A block of the chain from b, nearer than block `to`, declares the name. */
  predicate DeclaredNearer(blocks: seq<Block>, b: nat, to: nat, name: string)
    decreases b
  {
    b != to && b < |blocks|
    && (FindVar(blocks[b].locals, name).Some?
        || match blocks[b].parent case Some(p) => p < b && DeclaredNearer(blocks, p, to, name) case None => false)
  }

  /** What the finished tables must not hold when the parser has found the declaration p. */
  predicate StillFound(P: Program, b: nat, name: string, p: Place) {
    match p
    case GlobalOf(_) => true
    case LocalOf(to, _) => FindGlobalVariable(P.blocks, name).None? && !DeclaredNearer(P.blocks, b, to, name)
    case ParamOf(_, _) => FindGlobalVariable(P.blocks, name).None? && FindInChain(P.blocks, b, name).None?
  }

  /** The exact condition.  A global the parser found stays the generator's choice; a local or a parameter does if and
      only if there is in the end no global of that name, and no nearer block declares the name later. */
  lemma LookupAgreesIff(sc: Scope, P: Program, name: string, p: Place)
    requires Finished(sc, P)
    requires ParserPlace(sc.blocks, sc.names.funcs, sc.block, name) == Some(p)
    ensures GeneratorPlace(P.blocks, P.funcs, sc.block, name) == Some(p) <==> StillFound(P, sc.block, name, p)
  {
    hide ChainPlace, FindInChain, FindVar, DeclaredNearer, Kept;
    var b, fs := sc.block, sc.names.funcs;
    assert BlockKept(sc.blocks[b], P.blocks[b]) && BlockKept(sc.blocks[0], P.blocks[0]);
    ChainPlaceFinds(P.blocks, P.funcs, b, name);
    ChainPlaceFinds(sc.blocks, fs, b, name);
    match p
    case GlobalOf(_) => SameFirst(Globals(sc.blocks), Globals(P.blocks), name);
    case LocalOf(to, k) => ChainKept(sc, P, b, name, to, k);
    case ParamOf(f, _) => SameFirst(fs[f].params, P.funcs[f].params, name);
  }

  /** Declarations added behind do not change which is the first. */
  lemma {:induction false} SameFirst(vs: seq<Var>, ws: seq<Var>, name: string)
    requires Kept(vs, ws) && FirstNamed(vs, name).Some?
    ensures FirstNamed(ws, name) == FirstNamed(vs, name)
  {
    assert SameDeclaration(vs[0], ws[0]);
    if vs[0].name != name {
      forall k | 0 <= k < |vs[1..]| ensures SameDeclaration(vs[1..][k], ws[1..][k]) {
        assert SameDeclaration(vs[k + 1], ws[k + 1]);
      }
      SameFirst(vs[1..], ws[1..], name);
    }
  }

  lemma {:induction false} ChainKept(sc: Scope, P: Program, b: nat, name: string, to: nat, k: nat)
    requires Finished(sc, P) && b < |sc.blocks| && ChainPlace(sc.blocks, b, name) == Some(LocalOf(to, k))
    ensures ChainPlace(P.blocks, b, name).Some?
    ensures ChainPlace(P.blocks, b, name) == Some(LocalOf(to, k)) <==> !DeclaredNearer(P.blocks, b, to, name)
    decreases b
  {
    hide FindVar, Kept;
    assert BlockKept(sc.blocks[b], P.blocks[b]);
    if b == to {
      ChainBelow(sc.blocks, b, name);
      SameFirst(sc.blocks[b].locals, P.blocks[b].locals, name);
    } else {
      ChainKept(sc, P, sc.blocks[b].parent.value, name, to, k);
    }
  }

  /** Outer blocks have smaller indices. */
  lemma {:induction false} ChainBelow(blocks: seq<Block>, b: nat, name: string)
    requires b < |blocks| && ChainPlace(blocks, b, name).Some?
    ensures var p := ChainPlace(blocks, b, name).value;
            p.LocalOf? && p.block <= b && (p.block == b <==> FirstNamed(blocks[b].locals, name).Some?)
    decreases b
  {
    if FirstNamed(blocks[b].locals, name).None? { ChainBelow(blocks, blocks[b].parent.value, name); }
  }

  /** `{ int x; { x = 1; int x; } }`: at the assignment the parser finds the outer x, and the generator then stores into
      the inner one. */
  lemma DeclaredLater() returns (sc: Scope, P: Program)
    ensures Finished(sc, P) && sc.block == 2 && Globals(P.blocks) == []
    ensures ParserPlace(sc.blocks, sc.names.funcs, 2, "x") == Some(LocalOf(1, 0))
    ensures GeneratorPlace(P.blocks, P.funcs, 2, "x") == Some(LocalOf(2, 0))
    ensures P.blocks[1].locals[0].offset == 4 && Resolve(P, Some(2), "x") == Local(20)
  {
    var x := Var("int", "x", 0, 0, 0, 0);
    var f := Function("f", [], 0, 0, 0);
    var outer, inner := x.(offset := 4), x.(offset := 20);
    sc := Scope(Names([TypeDef("int", 4)], [f], []),
                [Block([], None, None, 0), Block([x], None, Some(0), 0), Block([], Some(1), Some(0), 0)], 2);
    P := Program([],
                 [Block([], None, None, 0), Block([outer], None, Some(0), 16), Block([inner], Some(1), Some(0), 16)],
                 [f], [TypeDef("int", 4)]);
    assert FirstNamed([x], "x") == Some(0) && FirstNamed([], "x") == None;
    assert FirstNamed([inner], "x") == Some(0);
    assert ChainPlace(sc.blocks, 1, "x") == Some(LocalOf(1, 0));
    PlacesFind(P, 2, "x");
  }

  /** With a local variable and a global of one name they differ: the parser takes the local, the code generator the
      global. */
  lemma ShadowedGlobal(P: Program, b: nat, name: string)
    requires FindLocalVariable(P.blocks, P.funcs, b, name).Some? && FindGlobalVariable(P.blocks, name).Some?
    ensures FindVariable(P.blocks, P.funcs, b, name) == FindLocalVariable(P.blocks, P.funcs, b, name)
    ensures Resolve(P, Some(b), name) == Global(FindGlobalVariable(P.blocks, name).value.offset)
  {
  }
}
