/** What the searches through the tables find: the first entry with the name. */
module Lookups {
  import opened Words
  import opened Il
  import opened Grammar

  predicate IsFirst(names: seq<string>, name: string, k: nat) {
    k < |names| && names[k] == name && forall j :: 0 <= j < k ==> names[j] != name
  }

  function FirstIndex(names: seq<string>, name: string, from: nat): (r: Option<nat>)
    requires from <= |names| && forall j :: 0 <= j < from ==> names[j] != name
    ensures r.Some? ==> IsFirst(names, name, r.value)
    ensures r.None? <==> name !in names
    decreases |names| - from
  {
    if from == |names| then None else if names[from] == name then Some(from) else FirstIndex(names, name, from + 1)
  }

  lemma IndexUnique(names: seq<string>, name: string, j: nat, k: nat)
    requires IsFirst(names, name, j) && IsFirst(names, name, k)
    ensures j == k
  {
  }

  /** The first entry of the rest is the first entry, if the one in front is another. */
  lemma IndexNext(names: seq<string>, name: string)
    requires names != [] && names[0] != name
    ensures FirstIndex(names, name, 0)
         == match FirstIndex(names[1..], name, 0) case None => None case Some(k) => Some(k + 1)
  {
    var r := FirstIndex(names[1..], name, 0);
    assert name in names <==> name in names[1..];
    if r.Some? {
      forall j | 0 <= j < r.value + 1 ensures names[j] != name { if j > 0 { assert names[1..][j - 1] == names[j]; } }
      IndexUnique(names, name, r.value + 1, FirstIndex(names, name, 0).value);
    }
  }

  function Names<T(!new)>(xs: seq<T>, name: T -> string): (r: seq<string>)
    ensures |r| == |xs| && forall k :: 0 <= k < |xs| ==> r[k] == name(xs[k])
  {
    seq(|xs|, k requires 0 <= k < |xs| => name(xs[k]))
  }

  function TypeNames(ts: seq<TypeDef>): seq<string> {
    Names(ts, (t: TypeDef) => t.name)
  }

  lemma {:induction false} TypeFirst(ts: seq<TypeDef>, name: string)
    ensures FindType(ts, name) == match FirstIndex(TypeNames(ts), name, 0) case None => None case Some(k) => Some(ts[k])
  {
    if ts != [] && ts[0].name != name {
      IndexNext(TypeNames(ts), name);
      assert TypeNames(ts)[1..] == TypeNames(ts[1..]);
      TypeFirst(ts[1..], name);
    }
  }

  function VarNames(vs: seq<Var>): seq<string> {
    Names(vs, (v: Var) => v.name)
  }

  lemma {:induction false} VarFirst(vs: seq<Var>, name: string)
    ensures FindVar(vs, name) == match FirstIndex(VarNames(vs), name, 0) case None => None case Some(k) => Some(vs[k])
  {
    if vs != [] && vs[0].name != name {
      IndexNext(VarNames(vs), name);
      assert VarNames(vs)[1..] == VarNames(vs[1..]);
      VarFirst(vs[1..], name);
    }
  }

  function FunctionNames(fs: seq<Function>): seq<string> {
    Names(fs, (f: Function) => f.name)
  }

  lemma {:induction false} FunctionFirst(fs: seq<Function>, name: string)
    ensures FindFunction(fs, name) == FirstIndex(FunctionNames(fs), name, 0)
  {
    if fs != [] && fs[0].name != name {
      IndexNext(FunctionNames(fs), name);
      assert FunctionNames(fs)[1..] == FunctionNames(fs[1..]);
      FunctionFirst(fs[1..], name);
    }
  }

  function ConstantNames(cs: seq<(string, int)>): seq<string> {
    Names(cs, (c: (string, int)) => c.0)
  }

  lemma {:induction false} ConstantFirst(cs: seq<(string, int)>, name: string)
    ensures FindConstant(cs, name)
         == match FirstIndex(ConstantNames(cs), name, 0) case None => None case Some(k) => Some(cs[k].1)
  {
    if cs != [] && cs[0].0 != name {
      IndexNext(ConstantNames(cs), name);
      assert ConstantNames(cs)[1..] == ConstantNames(cs[1..]);
      ConstantFirst(cs[1..], name);
    }
  }
}
