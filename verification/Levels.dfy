/** The value of a chain of operands and operators, level by level: products of operands, sums of products, comparisons
    of sums, and connectives of comparisons, each level from left to right. */
module Levels {
  import opened Words
  import opened Il

  predicate IsProduct(op: Op) {
    op.Mul?
  }

  /** Shifts and the bitwise operators bind like sums. */
  predicate IsSum(op: Op) {
    op.Add? || op.Sub? || op.BitLshift? || op.BitRshift? || op.BitAnd? || op.BitOr?
  }

  predicate IsRelation(op: Op) {
    op.Equals? || op.NotEquals? || op.LessThan? || op.LessEqThan? || op.GreaterThan? || op.GreaterEqThan?
  }

  predicate IsConnective(op: Op) {
    op.LogAnd? || op.LogOr?
  }

  datatype Chain = Chain(vs: seq<Word>, ops: seq<Op>)

  predicate Valid(c: Chain) {
    |c.vs| == |c.ops| + 1 && forall k :: 0 <= k < |c.ops| ==> IsBinary(c.ops[k])
  }

  /** The operators of one level applied, from left to right; what is left are the others, in order. */
  function Applied(level: Op -> bool, c: Chain): (r: Chain)
    requires Valid(c)
    ensures Valid(r) && (forall k :: 0 <= k < |r.ops| ==> r.ops[k] in c.ops && !level(r.ops[k]))
    decreases |c.ops|
  {
    if c.ops == [] then c
    else if level(c.ops[0]) then
      Applied(level, Chain([Binary(c.ops[0], c.vs[0], c.vs[1])] + c.vs[2..], c.ops[1..]))
    else
      var rest := Applied(level, Chain(c.vs[1..], c.ops[1..]));
      Chain([c.vs[0]] + rest.vs, [c.ops[0]] + rest.ops)
  }

  function Products(c: Chain): (r: Chain)
    requires Valid(c)
    ensures Valid(r)
  {
    Applied(IsProduct, c)
  }

  function Sums(c: Chain): (r: Chain)
    requires Valid(c)
    ensures Valid(r)
  {
    Applied(IsSum, Products(c))
  }

  function Relations(c: Chain): (r: Chain)
    requires Valid(c)
    ensures Valid(r)
  {
    Applied(IsRelation, Sums(c))
  }

  /** All four levels, the tightest first. */
  function LevelValue(vs: seq<Word>, ops: seq<Op>): Word
    requires Valid(Chain(vs, ops))
  {
    Applied(IsConnective, Relations(Chain(vs, ops))).vs[0]
  }

  predicate OnLevel(op: Op) {
    IsProduct(op) || IsSum(op) || IsRelation(op) || IsConnective(op)
  }

  lemma NoneLeft(c: Chain, k: nat)
    requires Valid(c) && k < |Applied(IsConnective, Relations(c)).ops|
    ensures !OnLevel(Applied(IsConnective, Relations(c)).ops[k])
  {
    hide Applied, Binary, IsBinary;
    var op := Applied(IsConnective, Relations(c)).ops[k];
    assert op in Relations(c).ops;
    assert op in Sums(c).ops;
    assert op in Products(c).ops;
  }

  /** Every operator is on one of the levels, so one value is left. */
  lemma LevelsFinish(vs: seq<Word>, ops: seq<Op>)
    requires Valid(Chain(vs, ops))
    ensures Applied(IsConnective, Relations(Chain(vs, ops))) == Chain([LevelValue(vs, ops)], [])
  {
    hide Applied, Binary, Relations;
    var r := Applied(IsConnective, Relations(Chain(vs, ops)));
    if r.ops != [] { NoneLeft(Chain(vs, ops), 0); }
    assert r.vs == [r.vs[0]];
  }

  lemma LevelLeaf(v: Word)
    ensures LevelValue([v], []) == v
  {
  }
}
