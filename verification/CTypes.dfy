/** The types of the language: what an lvalue denotes, how large it is, and by how much arithmetic moves it. */
module CTypes {
  import opened Words
  import opened Il
  import opened Ast

  /** `depth` counts the pointers still to be followed; for an array, those of its elements. */
  datatype Kind = Array(depth: nat) | Pointer(depth: nat) | Scalar | NoType

  /** What the variable denotes behind n indexes: an array is indexed first, then its pointers are followed. */
  function KindAfter(lv: LValue, n: nat): Kind {
    var first := if lv.arraySize > 0 then 1 else 0;
    if lv.isPointer < 0 then NoType
    else if n < first then Array(lv.isPointer)
    else
      var depth := lv.isPointer - (n - first);
      if depth > 0 then Pointer(depth) else if depth == 0 then Scalar else NoType
  }

  function Denoted(lv: LValue): Kind {
    KindAfter(lv, |lv.indexes|)
  }

  function BaseSize(lv: LValue): int {
    if lv.isFunction != 0 then PTR_SIZE else lv.tsize
  }

  /** The size of an array's elements and of what a pointer points to. */
  function ElementSize(lv: LValue, kind: Kind): int {
    match kind
    case Array(depth) => if depth > 0 then PTR_SIZE else BaseSize(lv)
    case Pointer(depth) => if depth > 1 then PTR_SIZE else BaseSize(lv)
    case _ => 1
  }

  /** The size of what an lvalue denotes, if that can be read and written. */
  function TypedSize(lv: LValue): int {
    if Denoted(lv).Pointer? then PTR_SIZE else BaseSize(lv)
  }

  /** How much one more is: an element for a pointer, one for a number. */
  function TypedAmount(lv: LValue): int {
    if Denoted(lv).Pointer? then ElementSize(lv, Denoted(lv)) else 1
  }

  predicate Readable(kind: Kind) {
    kind.Pointer? || kind.Scalar?
  }

  predicate Indexable(kind: Kind) {
    kind.Array? || kind.Pointer?
  }
}
