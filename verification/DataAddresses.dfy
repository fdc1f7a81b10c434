/** Literals and global variables are where the code looks for them: at the addresses the generator computes, the load
    segment of the file puts their own bytes. */
module DataAddresses {
  import opened Words
  import opened Il
  import opened IlMachine
  import opened Frame
  import opened Codegen
  import Placement
  import CodeMemory
  import opened Loader
  import Elf

  // ----- globals in the data -----

  /** The bytes of global k among the placed globals. */
  predicate Owns(types: seq<TypeDef>, vs: seq<Var>, k: nat, ofs: int)
    requires k < |vs|
  {
    vs[k].offset <= ofs < vs[k].offset + SizeOf(types, vs[k])
  }

  /** Placed globals fill the data from `at` on, one behind the other. */
  lemma {:induction false} GlobalWithin(types: seq<TypeDef>, vs: seq<Var>, at: nat, k: nat)
    requires k < |vs|
    ensures |PlaceGlobals(types, vs, at)| == |vs|
    ensures var v := PlaceGlobals(types, vs, at)[k];
            && SizeOf(types, v) == SizeOf(types, vs[k])
            && at <= v.offset && v.offset + SizeOf(types, v) <= at + TotalSize(types, vs)
  {
    hide SizeOf;
    SizeIgnoresOffset(types, vs[0], at);
    if k > 0 {
      GlobalWithin(types, vs[1..], at + SizeOf(types, vs[0]), k - 1);
    } else {
      GlobalsLength(types, vs, at);
    }
  }

  lemma {:induction false} GlobalsInOrder(types: seq<TypeDef>, vs: seq<Var>, at: nat, j: nat, k: nat)
    requires j < k < |vs|
    ensures |PlaceGlobals(types, vs, at)| == |vs|
    ensures var r := PlaceGlobals(types, vs, at); r[j].offset + SizeOf(types, r[j]) <= r[k].offset
  {
    hide SizeOf;
    var next := at + SizeOf(types, vs[0]);
    SizeIgnoresOffset(types, vs[0], at);
    GlobalsLength(types, vs, at);
    if j > 0 {
      GlobalsInOrder(types, vs[1..], next, j - 1, k - 1);
    } else {
      GlobalWithin(types, vs[1..], next, k - 1);
    }
  }

  /** No byte of the data belongs to two globals. */
  lemma GlobalsApart(types: seq<TypeDef>, vs: seq<Var>, at: nat, j: nat, k: nat, ofs: int)
    requires j < |vs| && k < |vs| && |PlaceGlobals(types, vs, at)| == |vs|
    requires Owns(types, PlaceGlobals(types, vs, at), j, ofs) && Owns(types, PlaceGlobals(types, vs, at), k, ofs)
    ensures j == k
  {
    hide SizeOf, PlaceGlobals;
    if j < k { GlobalsInOrder(types, vs, at, j, k); }
    if k < j { GlobalsInOrder(types, vs, at, k, j); }
  }

  // ----- the file in memory -----

  /** Behind the code, `ofs` bytes on, is byte `ofs` of the data. */
  lemma DataLoaded(p: Elf.Parts, ofs: nat)
    requires Elf.SmallFile(p) && ofs < |p.data|
    ensures LoadedByte(Elf.FileBytes(p), Placement.CODE_START + |p.code| + ofs) == Some(p.data[ofs])
  {
    hide Elf.FileBytes, LoadedByte, WordAt, SegmentAt;
    OneSegment(p);
    Loaded(p, Placement.CODE_START + |p.code| + ofs);
  }

  /** The address of a literal, as code computes it. */
  function LiteralAddress(L: Layout, ofs: int): Word {
    Wrap(L.codeStart + L.dataStart + ofs)
  }

  /** A literal's bytes are at the address the code loads. */
  lemma LiteralFound(L: Layout, p: Elf.Parts, ofs: nat, k: nat)
    requires Elf.SmallFile(p) && L.codeStart == Placement.CODE_START && L.dataStart == |p.code| && ofs + k < |p.data|
    ensures LoadedByte(Elf.FileBytes(p), LiteralAddress(L, ofs) + k) == Some(p.data[ofs + k])
  {
    hide Elf.FileBytes, LoadedByte;
    DataLoaded(p, ofs + k);
    SmallSum(p, ofs);
  }

  lemma SmallSum(p: Elf.Parts, ofs: nat)
    requires Elf.SmallFile(p) && ofs < |p.data|
    ensures Wrap(Placement.CODE_START + |p.code| + ofs) == Placement.CODE_START + |p.code| + ofs
  {
  }

  /** What the generator leaves: its layout, its code, and its globals placed behind the literals. */
  ghost predicate Generated(P: Program, L: Layout, decls: seq<Var>, literals: nat, p: Elf.Parts) {
    && L.codeStart == Placement.CODE_START && L.dataStart == |p.code| && |P.blocks| > 0
    && P.blocks[0].locals == PlaceGlobals(P.types, decls, literals) && literals + TotalSize(P.types, decls) <= |p.data|
  }

  /** The theorem: in a generated program's file, the address the code computes for a global leads to bytes of the data
      that are that global's own, no other global's, and no literal's. */
  lemma GlobalFound(P: Program, L: Layout, decls: seq<Var>, literals: nat, p: Elf.Parts, fp: Word, i: nat, k: nat)
    requires Generated(P, L, decls, literals, p) && Elf.SmallFile(p)
    requires i < |decls| && |P.blocks[0].locals| == |decls| && k < SizeOf(P.types, P.blocks[0].locals[i])
    ensures var vs := P.blocks[0].locals;
            var ofs := vs[i].offset + k;
            && literals <= ofs < |p.data|
            && LoadedByte(Elf.FileBytes(p), AddressOf(P, L, fp, Global(vs[i].offset)) + k) == Some(p.data[ofs])
            && forall j :: 0 <= j < |vs| ==> (Owns(P.types, vs, j, ofs) <==> j == i)
  {
    hide Elf.FileBytes, LoadedByte, SizeOf, PlaceGlobals;
    var vs := P.blocks[0].locals;
    var ofs := vs[i].offset + k;
    GlobalWithin(P.types, decls, literals, i);
    forall j | 0 <= j < |vs| ensures Owns(P.types, vs, j, ofs) <==> j == i {
      if Owns(P.types, vs, j, ofs) { GlobalsApart(P.types, decls, literals, i, j, ofs); }
    }
    LiteralFound(L, p, vs[i].offset, k);
  }

  /** Generating the code and writing the file: the data starts with the literals, and the globals' part is empty.  With
      symbols added elsewhere this is what the compiler does last. */
  method Build(gen: Generator, literals: seq<Byte>, machine: Byte, flags: int, fill: Byte)
    returns (ok: bool, L: Layout, file: seq<Byte>, ghost p: Elf.Parts)
    requires TablesOk(gen.Prog()) && gen.code == [] && gen.dataIdx == |literals|
    modifies gen
    ensures ok ==> file == Elf.FileBytes(p) && p.code == gen.code && literals <= p.data
    ensures ok ==> Generated(gen.Prog(), L, old(gen.blocks)[0].locals, |literals|, p)
  {
    hide Elf.FileBytes, PlaceGlobals, TotalSize, AllSizable, Emittable, Sized;
    file, p := [], Elf.Parts(0, 0, [], [], [], [], 0);
    ok, L := gen.Generate();
    if !ok { return; }
    var data := literals + seq(gen.dataIdx - |literals|, _ => 0);
    var writer := new Elf.Writer(machine, flags, fill, gen.code, data);
    file := writer.Generate();
    p := writer.Contents();
  }
}
