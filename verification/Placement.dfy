/** A laid-out program and the code that belongs to it. */
module Placement {
  import opened Words
  import opened Il
  import opened IlMachine
  import opened CodeMemory
  import opened Backend

  /** The first address after the ELF headers. */
  const CODE_START := 0x10054
  const MAX_CODE := 1048576

  ghost predicate LengthAt(arch: Arch, P: Program, L: Layout, i: int)
    requires 0 <= i < |P.il| < |L.offs|
  {
    CodeLength(arch, P, P.il[i]) == Some(L.offs[i + 1] - L.offs[i])
  }

  /** The offsets are the running sums of the predicted lengths, the code fits its buffer, and it begins as every
      program does: with the start label and the start operation. */
  ghost predicate GoodLayout(arch: Arch, P: Program, L: Layout) {
    && L.codeStart == CODE_START
    && |L.offs| == |P.il| + 1
    && L.offs[0] == 0
    && L.dataStart == L.offs[|P.il|] <= MAX_CODE
    && |P.il| >= 2 && P.il[0].op.Label? && P.il[1].op.Start?
    && forall i :: 0 <= i < |P.il| ==> LengthAt(arch, P, L, i)
  }

  ghost predicate WordAt(code: Code, off: int, ws: seq<Word>, k: int)
    requires 0 <= k < |ws|
  {
    Fetch(code, code.start + off + 4 * k) == Some(ws[k])
  }

  /** The words lie at this offset of the code. */
  ghost predicate CodeAt(code: Code, off: int, ws: seq<Word>) {
    forall k :: 0 <= k < |ws| ==> WordAt(code, off, ws, k)
  }

  ghost predicate PlacedAt(arch: Arch, P: Program, L: Layout, code: Code, i: int)
    requires 0 <= i < |P.il| <= |L.offs|
  {
    var ws := LowerWords(arch, P, L, BlockAt(P, i), P.il[i], L.offs[i]);
    ws.Some? && CodeAt(code, L.offs[i], ws.value)
  }

  /** Every IL instruction's code lies at its offset. */
  ghost predicate Placed(arch: Arch, P: Program, L: Layout, code: Code) {
    && GoodLayout(arch, P, L) && code.start == L.codeStart
    && forall i :: 0 <= i < |P.il| ==> PlacedAt(arch, P, L, code, i)
  }

  // ----- offsets -----

  lemma {:induction false} OffsetsGrow(arch: Arch, P: Program, L: Layout, i: int, j: int)
    requires GoodLayout(arch, P, L) && 0 <= i <= j <= |P.il|
    ensures 0 <= L.offs[i] <= L.offs[j] <= MAX_CODE
    ensures L.offs[i] % 4 == 0
    decreases j, i
  {
    hide CodeLength;
    OffsetsBounded(arch, P, L, j);
    if i < j {
      assert LengthAt(arch, P, L, j - 1);
      OffsetsGrow(arch, P, L, i, j - 1);
    } else {
      if i > 0 {
        OffsetsGrow(arch, P, L, i - 1, i - 1);
        assert LengthAt(arch, P, L, i - 1);
        LengthMultiple(arch, P, P.il[i - 1]);
      }
    }
  }

  lemma {:induction false} OffsetsBounded(arch: Arch, P: Program, L: Layout, i: int)
    requires GoodLayout(arch, P, L) && 0 <= i <= |P.il|
    ensures L.offs[i] <= MAX_CODE
    decreases |P.il| - i
  {
    hide CodeLength;
    if i < |P.il| {
      assert LengthAt(arch, P, L, i);
      OffsetsBounded(arch, P, L, i + 1);
    }
  }

  /** Every distance from a jump to a place of the code is even and below 2^20, because the code fits its buffer. */
  lemma DistanceFits(arch: Arch, P: Program, L: Layout, i: int, target: int)
    requires GoodLayout(arch, P, L) && 0 <= i < |P.il| && 0 <= target <= |P.il|
    requires !P.il[i].op.Label? && !P.il[i].op.Start?
    ensures -1048576 <= L.offs[target] - L.offs[i] <= 1048568
    ensures P.il[i].op.Jz? || P.il[i].op.Jnz? ==> -1048568 <= L.offs[target] - L.offs[i]
    ensures (L.offs[target] - L.offs[i]) % 2 == 0 && (L.offs[target] - L.offs[i] - 4) % 2 == 0
    ensures (L.offs[target] - L.offs[i]) % 4 == 0 && (L.offs[target] - L.offs[i] - 4) % 4 == 0
  {
    OffsetsGrow(arch, P, L, i, i);
    OffsetsGrow(arch, P, L, target, target);
    DifferenceMultiple(L.offs[target], L.offs[i]);
    DifferenceMultiple(L.offs[target] - L.offs[i], 4);
    assert LengthAt(arch, P, L, 0) && LengthAt(arch, P, L, 1);
    OffsetsGrow(arch, P, L, 2, i);
    OffsetsGrow(arch, P, L, i + 1, i + 1);
    assert LengthAt(arch, P, L, i);
  }

  lemma DifferenceMultiple(a: int, b: int)
    requires a % 4 == 0 && b % 4 == 0
    ensures (a - b) % 4 == 0 && (a - b) % 2 == 0
  {
    var p, q := a / 4, b / 4;
    assert a - b == 4 * (p - q);
    FourTimes(p - q);
  }

  lemma FourTimes(k: int)
    ensures (4 * k) % 4 == 0 && (4 * k) % 2 == 0
  {
    assert 4 * k == 2 * (2 * k);
  }

  lemma CodeAddrAligned(arch: Arch, P: Program, L: Layout, i: int)
    requires GoodLayout(arch, P, L) && 0 <= i <= |P.il|
    ensures CodeAddr(L, i) == CODE_START + L.offs[i] && 0 <= CodeAddr(L, i) < 0x1000_0000
    ensures CodeAddr(L, i) % 4 == 0 && CodeAddr(L, i) % 2 == 0
    ensures (CodeAddr(L, i) + 4) % 4 == 0 && (CodeAddr(L, i) + 4) % 2 == 0
  {
    OffsetsGrow(arch, P, L, i, i);
    DifferenceMultiple(L.offs[i], -CODE_START);
    DifferenceMultiple(L.offs[i], -CODE_START - 4);
  }
}
