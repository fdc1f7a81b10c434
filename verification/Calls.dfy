/** The call protocol: what an entry point saves, an exit point restores, and which parameters survive being stored. */
module Calls {
  import opened Words
  import opened Il
  import opened IlMachine
  import opened Backend
  import opened Placement
  import opened Frame
  import Scoping

  // ----- words that do not overlap -----

  lemma WrapDiffer(x: int, e: int)
    requires 0 < e < 0x1_0000_0000
    ensures Wrap(x) != Wrap(x + e)
  {
    hide Wrap;
    WrapIsMod(x);
    WrapIsMod(x + e);
    var q, r := x / 0x1_0000_0000, (x + e) / 0x1_0000_0000;
    assert x == 0x1_0000_0000 * q + Wrap(x);
    assert x + e == 0x1_0000_0000 * r + Wrap(x + e);
  }

  /** A byte outside the four that start at address x. */
  lemma ByteKept(m: Mem, x: int, v: Word, y: int)
    requires 4 <= y - x < 0x1_0000_0000 || 0 < x - y <= 0xFFFF_FFFC
    ensures StoreWord(m, Wrap(x), v)[Wrap(y)] == m[Wrap(y)]
  {
    hide Wrap, StoreWord;
    WrapWrap(x, 1);
    WrapWrap(x, 2);
    WrapWrap(x, 3);
    if y > x {
      WrapDiffer(x, y - x);
      WrapDiffer(x + 1, y - x - 1);
      WrapDiffer(x + 2, y - x - 2);
      WrapDiffer(x + 3, y - x - 3);
    } else {
      WrapDiffer(y, x - y);
      WrapDiffer(y, x + 1 - y);
      WrapDiffer(y, x + 2 - y);
      WrapDiffer(y, x + 3 - y);
    }
    StoreWordFrame(m, Wrap(x), v, Wrap(y));
  }

  lemma LoadBytes(m: Mem, y: int)
    ensures LoadWord(m, Wrap(y)) == WordOf(m[Wrap(y)], m[Wrap(y + 1)], m[Wrap(y + 2)], m[Wrap(y + 3)])
  {
    hide WordOf, Wrap;
    WrapWrap(y, 1);
    WrapWrap(y, 2);
    WrapWrap(y, 3);
  }

  lemma LoadOther(m: Mem, x: int, v: Word, y: int)
    requires 4 <= y - x <= 0xFFFF_FFFC || 4 <= x - y <= 0xFFFF_FFFC
    ensures LoadWord(StoreWord(m, Wrap(x), v), Wrap(y)) == LoadWord(m, Wrap(y))
  {
    hide StoreWord, LoadWord, WordOf, Wrap;
    LoadBytes(m, y);
    LoadBytes(StoreWord(m, Wrap(x), v), y);
    ByteKept(m, x, v, y);
    ByteKept(m, x, v, y + 1);
    ByteKept(m, x, v, y + 2);
    ByteKept(m, x, v, y + 3);
  }

  // ----- the entry point saves -----

  /** Parameter offsets as sizing leaves them. */
  predicate OffsetsOk(params: seq<Var>) {
    forall k :: 0 <= k < |params| ==> 0 <= params[k].offset <= MAX_FRAME
  }

  /** Storing parameters leaves the words above the frame pointer alone. */
  lemma {:induction false} ParamsBelow(m: Mem, fp: Word, params: seq<Var>, regs: seq<Word>, k: nat, d: int)
    requires k <= |params| <= |regs| && OffsetsOk(params) && 4 <= d <= 12
    ensures LoadWord(StoreParams(m, fp, params, regs, k), Wrap(fp + d)) == LoadWord(m, Wrap(fp + d))
    decreases |params| - k
  {
    hide LoadWord, StoreWord;
    if k < |params| {
      LoadOther(m, fp - params[k].offset, regs[k], fp + d);
      ParamsBelow(StoreWord(m, Wrap(fp - params[k].offset), regs[k]), fp, params, regs, k + 1, d);
    }
  }

  lemma EnterSaves(s: State, f: Function)
    requires |f.params| <= |s.regs| && OffsetsOk(f.params)
    ensures var t := Enter(s, f);
            && t.fp == Wrap(s.sp - 16) && LoadWord(t.mem, Wrap(t.fp + 12)) == s.fp
            && LoadWord(t.mem, Wrap(t.fp + 8)) == s.ra
  {
    hide LoadWord, StoreWord, StoreParams;
    var fp: int := Wrap(s.sp - 16);
    var m1 := StoreWord(s.mem, Wrap(fp + 12), s.fp);
    var m2 := StoreWord(m1, Wrap(fp + 8), s.ra);
    LoadStoredWord(s.mem, Wrap(fp + 12), s.fp);
    LoadStoredWord(m1, Wrap(fp + 8), s.ra);
    LoadOther(m1, fp + 8, s.ra, fp + 12);
    ParamsBelow(m2, fp, f.params, s.regs, 0, 12);
    ParamsBelow(m2, fp, f.params, s.regs, 0, 8);
  }

  // ----- the exit point restores -----

  lemma CallLength(arch: Arch, P: Program, ins: Instr)
    requires IsCall(ins)
    ensures CodeLength(arch, P, ins).Some? && CodeLength(arch, P, ins).value >= 4
  {
  }

  /** Two calls never leave the same return address. */
  lemma CallSitesDiffer(arch: Arch, P: Program, L: Layout, a: Word, c: int, d: int)
    requires GoodLayout(arch, P, L) && CallSite(P, L, a, c) && CallSite(P, L, a, d)
    ensures c == d
  {
    hide CodeLength;
    var i, j := if c < d then c else d, if c < d then d else c;
    if i < j {
      assert LengthAt(arch, P, L, i);
      CallLength(arch, P, P.il[i]);
      OffsetsGrow(arch, P, L, i + 1, j);
    }
  }

  /** From a call through the callee's entry point, any body that keeps the frame pointer and the two saved words, and
      the exit point, control is back behind the call with the caller's stack and frame pointer, whatever the stack
      pointer has become by then, and with the result in the register the call names. */
  lemma CallReturns(arch: Arch, P: Program, L: Layout, charSigned: bool, s: State, t1: State, t2: State, t3: State)
    requires GoodLayout(arch, P, L) && 0 <= s.pc < |P.il| && IsCall(P.il[s.pc]) && 0 <= P.il[s.pc].param < |s.regs|
    requires Step(P, L, charSigned, s) == Some(t1) && 0 <= t1.pc < |P.il| && P.il[t1.pc].op.EntryPoint?
    requires Step(P, L, charSigned, t1) == Some(t2)
    requires forall f :: 0 <= f < |P.funcs| ==> OffsetsOk(P.funcs[f].params)
    requires 0 <= t3.pc < |P.il| && P.il[t3.pc].op.ExitPoint? && t3.fp == t2.fp && |t3.regs| == |s.regs|
    requires LoadWord(t3.mem, Wrap(t3.fp + 8)) == LoadWord(t2.mem, Wrap(t3.fp + 8))
    requires LoadWord(t3.mem, Wrap(t3.fp + 12)) == LoadWord(t2.mem, Wrap(t3.fp + 12))
    ensures var d := P.il[s.pc].param;
            var ra := LoadWord(t3.mem, Wrap(t3.fp + 8));
            Step(P, L, charSigned, t3) == Some(State(s.pc + 1, t3.regs[d := t3.regs[0]], s.sp, s.fp, ra, t3.mem))
  {
    hide GoodLayout, LoadWord, StoreWord, StoreParams, CodeLength;
    CallLeavesRa(P, L, charSigned, s, t1);
    var f := EntryEnters(P, L, charSigned, t1, t2);
    EnterSaves(t1, f);
    var ra := LoadWord(t3.mem, Wrap(t3.fp + 8));
    RaIsCall(arch, P, L, s.pc, ra);
    ExitLeaves(arch, P, L, charSigned, t3, s.pc);
    WrapWrap(s.sp - 16, 16);
    assert Wrap(s.sp) == s.sp;
    assert Step(P, L, charSigned, t3)
        == Some(State(s.pc + 1, t3.regs[P.il[s.pc].param := t3.regs[0]], s.sp, s.fp, ra, t3.mem));
  }

  lemma CallLeavesRa(P: Program, L: Layout, charSigned: bool, s: State, t: State)
    requires Step(P, L, charSigned, s) == Some(t) && 0 <= s.pc < |P.il| && IsCall(P.il[s.pc])
    ensures t == s.(pc := t.pc, ra := Wrap(CodeAddr(L, s.pc) + 4))
  {
    hide CodeAddr;
  }

  lemma EntryEnters(P: Program, L: Layout, charSigned: bool, s: State, t: State) returns (f: Function)
    requires Step(P, L, charSigned, s) == Some(t) && 0 <= s.pc < |P.il| && P.il[s.pc].op.EntryPoint?
    ensures f in P.funcs && |f.params| <= |s.regs| && t == Enter(s, f)
  {
    hide Enter;
    f := P.funcs[FindFunction(P.funcs, P.il[s.pc].name).value];
  }

  lemma RaIsCall(arch: Arch, P: Program, L: Layout, c: int, ra: Word)
    requires GoodLayout(arch, P, L) && 0 <= c < |P.il| && IsCall(P.il[c]) && ra == Wrap(CodeAddr(L, c) + 4)
    ensures CallSite(P, L, ra, c)
  {
    hide CodeLength;
    CodeAddrAligned(arch, P, L, c);
  }

  lemma ExitLeaves(arch: Arch, P: Program, L: Layout, charSigned: bool, s: State, c: int)
    requires GoodLayout(arch, P, L) && 0 <= s.pc < |P.il| && P.il[s.pc].op.ExitPoint?
    requires CallSite(P, L, LoadWord(s.mem, Wrap(s.fp + 8)), c) && 0 <= P.il[c].param < |s.regs|
    ensures var ra := LoadWord(s.mem, Wrap(s.fp + 8));
            Step(P, L, charSigned, s)
            == Some(State(c + 1, s.regs[P.il[c].param := s.regs[0]], Wrap(s.fp + 16), LoadWord(s.mem, Wrap(s.fp + 12)),
                          ra, s.mem))
  {
    hide LoadWord, GoodLayout, CallSite;
    WrapWrap(s.fp + 16, -8);
    WrapWrap(s.fp + 16, -4);
    var ra := LoadWord(s.mem, Wrap(s.fp + 8));
    forall d | CallSite(P, L, ra, d) ensures d == c {
      CallSitesDiffer(arch, P, L, ra, c, d);
    }
  }

  // ----- parameters -----

  /** A parameter of one byte or one word, as the callee reads it. */
  ghost predicate Readable(types: seq<TypeDef>, params: seq<Var>, k: nat, m: Mem, fp: Word, regs: seq<Word>)
    requires k < |params| <= |regs|
  {
    var a, stored := Wrap(fp - params[k].offset), StoreParams(m, fp, params, regs, 0);
    if SizeOf(types, params[k]) == 4 then LoadWord(stored, a) == regs[k] else stored[a] == regs[k] % 0x100
  }

  predicate SmallParams(types: seq<TypeDef>, params: seq<Var>) {
    && params == PlaceVars(types, params, 0) && TotalSize(types, params) <= MAX_FRAME
    && forall k :: 0 <= k < |params| ==> SizeOf(types, params[k]) == 4 || SizeOf(types, params[k]) == 1
  }

  /** No parameter but the first is a single byte. */
  predicate WordsBehind(types: seq<TypeDef>, params: seq<Var>) {
    forall k :: 1 <= k < |params| ==> SizeOf(types, params[k]) == 4
  }

  ghost predicate AlwaysReadable(types: seq<TypeDef>, params: seq<Var>) {
    forall k: nat, m: Mem, fp: Word, regs: seq<Word> | k < |params| <= |regs| :: Readable(types, params, k, m, fp, regs)
  }

  lemma {:induction false} OffsetsStep(types: seq<TypeDef>, vs: seq<Var>, at: nat, k: nat)
    requires k < |vs|
    ensures var r := PlaceVars(types, vs, at);
            && r[k].offset == (if k == 0 then at else r[k - 1].offset) + SizeOf(types, vs[k])
            && at <= r[k].offset <= at + TotalSize(types, vs)
    decreases k
  {
    hide SizeOf, Scoping.SameDeclaration;
    var r, end := PlaceVars(types, vs, at), at + SizeOf(types, vs[0]);
    var rest := PlaceVars(types, vs[1..], end);
    assert r == [vs[0].(offset := end)] + rest;
    assert TotalSize(types, vs) == SizeOf(types, vs[0]) + TotalSize(types, vs[1..]);
    hide PlaceVars, TotalSize;
    if k > 0 { OffsetsStep(types, vs[1..], end, k - 1); }
  }

  lemma {:induction false} OffsetsApart(types: seq<TypeDef>, params: seq<Var>, k: nat, j: nat)
    requires SmallParams(types, params) && WordsBehind(types, params) && k < j < |params|
    ensures params[j].offset - params[k].offset >= 4 && 0 < params[k].offset && params[j].offset <= MAX_FRAME
    decreases j
  {
    hide SizeOf;
    OffsetsStep(types, params, 0, j);
    OffsetsStep(types, params, 0, k);
    if k > 0 { OffsetsStep(types, params, 0, k - 1); }
    if j > k + 1 { OffsetsApart(types, params, k, j - 1); }
  }

  /** Parameters stored later leave parameter k alone. */
  lemma {:induction false} LaterKeep(types: seq<TypeDef>, params: seq<Var>, k: nat, j: nat, m: Mem, fp: Word,
                                     regs: seq<Word>)
    requires SmallParams(types, params) && WordsBehind(types, params) && k < j <= |params| <= |regs|
    ensures var t, a := StoreParams(m, fp, params, regs, j), Wrap(fp - params[k].offset);
            t[a] == m[a] && (SizeOf(types, params[k]) == 4 ==> LoadWord(t, a) == LoadWord(m, a))
    decreases |params| - j
  {
    hide SizeOf, StoreWord, LoadWord, SmallParams, WordsBehind;
    if j < |params| {
      OffsetsApart(types, params, k, j);
      ByteKept(m, fp - params[j].offset, regs[j], fp - params[k].offset);
      LoadOther(m, fp - params[j].offset, regs[j], fp - params[k].offset);
      LaterKeep(types, params, k, j + 1, StoreWord(m, Wrap(fp - params[j].offset), regs[j]), fp, regs);
    }
  }

  lemma {:induction false} ReadableFrom(types: seq<TypeDef>, params: seq<Var>, k: nat, j: nat, m: Mem, fp: Word,
                                        regs: seq<Word>)
    requires SmallParams(types, params) && WordsBehind(types, params) && j <= k < |params| <= |regs|
    ensures var t, a := StoreParams(m, fp, params, regs, j), Wrap(fp - params[k].offset);
            if SizeOf(types, params[k]) == 4 then LoadWord(t, a) == regs[k] else t[a] == regs[k] % 0x100
    decreases |params| - j
  {
    hide SizeOf, LoadWord, SmallParams, WordsBehind, StoreWord;
    var m1 := StoreWord(m, Wrap(fp - params[j].offset), regs[j]);
    if j == k {
      LaterKeep(types, params, k, k + 1, m1, fp, regs);
      LoadStoredWord(m, Wrap(fp - params[k].offset), regs[k]);
      LowByte(m, Wrap(fp - params[k].offset), regs[k]);
    } else {
      ReadableFrom(types, params, k, j + 1, m1, fp, regs);
    }
  }

  lemma LowByte(m: Mem, a: Word, v: Word)
    ensures StoreWord(m, a, v)[a] == v % 0x100
  {
    AddressesDiffer(a);
  }

  const ONES: Word := 0xFFFF_FFFF

  /** Storing all ones either sets a byte or leaves it. */
  lemma OnesByte(m: Mem, x: int, y: int)
    ensures StoreWord(m, Wrap(x), ONES)[Wrap(y)] == 0xFF || StoreWord(m, Wrap(x), ONES)[Wrap(y)] == m[Wrap(y)]
    ensures y == x + 1 ==> StoreWord(m, Wrap(x), ONES)[Wrap(y)] == 0xFF
  {
    AddressesDiffer(Wrap(x));
    WrapWrap(x, 1);
  }

  lemma {:induction false} OnesStay(params: seq<Var>, regs: seq<Word>, j: nat, m: Mem, fp: Word, y: int)
    requires j <= |params| <= |regs| && (forall i :: j <= i < |params| ==> regs[i] == ONES) && m[Wrap(y)] == 0xFF
    ensures StoreParams(m, fp, params, regs, j)[Wrap(y)] == 0xFF
    decreases |params| - j
  {
    hide StoreWord;
    if j < |params| {
      OnesByte(m, fp - params[j].offset, y);
      OnesStay(params, regs, j + 1, StoreWord(m, Wrap(fp - params[j].offset), regs[j]), fp, y);
    }
  }

  lemma {:induction false} OnesFrom(params: seq<Var>, regs: seq<Word>, k: nat, j: nat, m: Mem, fp: Word)
    requires j <= k && k + 1 < |params| <= |regs| && (forall i :: k < i < |params| ==> regs[i] == ONES)
    requires params[k + 1].offset == params[k].offset + 1
    ensures StoreParams(m, fp, params, regs, j)[Wrap(fp - params[k].offset)] == 0xFF
    decreases k - j
  {
    hide StoreWord;
    var m1 := StoreWord(m, Wrap(fp - params[j].offset), regs[j]);
    if j < k {
      OnesFrom(params, regs, k, j + 1, m1, fp);
    } else {
      var y := fp - params[k].offset;
      OnesByte(m1, fp - params[k + 1].offset, y);
      OnesStay(params, regs, k + 2, StoreWord(m1, Wrap(fp - params[k + 1].offset), ONES), fp, y);
    }
  }

  /** A single-byte parameter behind another destroys it: with 0 in the one and all ones behind, a byte of it reads
      255. */
  lemma ByteDestroys(types: seq<TypeDef>, params: seq<Var>, k: nat, m: Mem, fp: Word)
    requires SmallParams(types, params) && k + 1 < |params| && SizeOf(types, params[k + 1]) == 1
    ensures var regs := seq(|params|, i => if i <= k then 0 else ONES); !Readable(types, params, k, m, fp, regs)
  {
    hide SizeOf, StoreWord, StoreParams;
    OffsetsStep(types, params, 0, k + 1);
    var regs: seq<Word> := seq(|params|, i => if i <= k then 0 else ONES);
    OnesFrom(params, regs, k, 0, m, fp);
    var stored, a := StoreParams(m, fp, params, regs, 0), Wrap(fp - params[k].offset);
    LowestByte(stored, a);
  }

  lemma LowestByte(m: Mem, a: Word)
    requires m[a] == 0xFF
    ensures LoadWord(m, a) != 0
  {
  }

  /** Every parameter reaches the callee whatever the arguments exactly if no parameter but the first is a single byte,
      because each is stored as a whole word. */
  lemma ParamsReadableIff(types: seq<TypeDef>, params: seq<Var>)
    requires SmallParams(types, params)
    ensures AlwaysReadable(types, params) <==> WordsBehind(types, params)
  {
    hide SizeOf, StoreWord, StoreParams, LoadWord;
    if WordsBehind(types, params) {
      forall k: nat, m: Mem, fp: Word, regs: seq<Word> | k < |params| <= |regs|
        ensures Readable(types, params, k, m, fp, regs)
      {
        ReadableFrom(types, params, k, 0, m, fp, regs);
      }
    } else {
      var j :| 1 <= j < |params| && SizeOf(types, params[j]) != 4;
      var m: Mem :| true;
      ByteDestroys(types, params, j - 1, m, 0);
      var regs: seq<Word> := seq(|params|, i => if i <= j - 1 then 0 else ONES);
      assert !Readable(types, params, j - 1, m, 0, regs);
    }
  }
}
