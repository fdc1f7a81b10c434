/** Memory as a program sees it and as it is: the two agree outside the zone where values are pushed. */
module Zones {
  import opened Words
  import opened Il
  import opened IlMachine

  datatype Zone = Zone(lo: int, hi: int)

  predicate InZone(z: Zone, a: int) {
    z.lo <= a < z.hi
  }

  predicate ZoneOk(z: Zone) {
    0 <= z.lo <= z.hi <= 0x1_0000_0000
  }

  /** The bytes of an access lie outside the zone. */
  predicate Clear(z: Zone, a: Word, size: int) {
    !InZone(z, a)
    && (size == 4 ==> !InZone(z, Wrap(a + 1)) && !InZone(z, Wrap(a + 2)) && !InZone(z, Wrap(a + 3)))
  }

  ghost predicate MemAgrees(z: Zone, m: Mem, n: Mem) {
    forall a: Word :: !InZone(z, a) ==> m[a] == n[a]
  }

  ghost predicate HeldAt(stack: seq<Word>, sp: Word, mem: Mem, i: int)
    requires 0 <= i < |stack|
  {
    LoadWord(mem, Wrap(sp + 16 * (|stack| - 1 - i))) == stack[i]
  }

  /** The pushed values lie sixteen bytes apart from the stack pointer upwards, inside the zone. */
  ghost predicate StackHeld(z: Zone, stack: seq<Word>, sp: Word, mem: Mem) {
    z.lo <= sp && sp + 16 * |stack| <= z.hi && forall i :: 0 <= i < |stack| ==> HeldAt(stack, sp, mem, i)
  }

  // ----- memory -----

  lemma LoadAgrees(z: Zone, m: Mem, n: Mem, a: Word, size: int, charSigned: bool)
    requires MemAgrees(z, m, n) && Clear(z, a, size)
    ensures Load(m, a, size, charSigned) == Load(n, a, size, charSigned)
  {
    hide Wrap, WordOf;
  }

  lemma StoreChanges(m: Mem, a: Word, size: int, v: Word, b: Word)
    requires (size == 4 || size == 1) && b != a
    requires size == 4 ==> b != Wrap(a + 1) && b != Wrap(a + 2) && b != Wrap(a + 3)
    ensures Store(m, a, size, v).value[b] == m[b]
  {
    hide Wrap;
    if size == 4 { StoreWordFrame(m, a, v, b); }
  }

  /** Storing the same value in both memories keeps them in agreement. */
  lemma StoreAgrees(z: Zone, m: Mem, n: Mem, a: Word, size: int, v: Word)
    requires MemAgrees(z, m, n) && (size == 4 || size == 1)
    ensures MemAgrees(z, Store(m, a, size, v).value, Store(n, a, size, v).value)
  {
    hide Wrap;
    AddressesDiffer(a);
  }

  lemma WordClear(z: Zone, m: Mem, a: Word, size: int, v: Word, b: int)
    requires (size == 4 || size == 1) && Clear(z, a, size) && ZoneOk(z) && z.lo <= b && b + 4 <= z.hi
    ensures LoadWord(Store(m, a, size, v).value, Wrap(b)) == LoadWord(m, Wrap(b))
  {
    hide WordOf, StoreWord, StoreByte, Wrap;
    SmallWrap(b);
    SmallWrap(b + 1);
    SmallWrap(b + 2);
    SmallWrap(b + 3);
    StoreChanges(m, a, size, v, b);
    StoreChanges(m, a, size, v, b + 1);
    StoreChanges(m, a, size, v, b + 2);
    StoreChanges(m, a, size, v, b + 3);
  }

  /** An access outside the zone leaves the pushed values alone. */
  lemma StoreKeepsStack(z: Zone, stack: seq<Word>, sp: Word, m: Mem, a: Word, size: int, v: Word)
    requires ZoneOk(z) && StackHeld(z, stack, sp, m) && (size == 4 || size == 1) && Clear(z, a, size)
    ensures StackHeld(z, stack, sp, Store(m, a, size, v).value)
  {
    hide LoadWord, StoreWord, StoreByte, Clear;
    forall i | 0 <= i < |stack| ensures HeldAt(stack, sp, Store(m, a, size, v).value, i) {
      assert HeldAt(stack, sp, m, i);
      WordClear(z, m, a, size, v, sp + 16 * (|stack| - 1 - i));
    }
  }

  lemma PushHeld(z: Zone, stack: seq<Word>, sp: Word, m: Mem, n: Mem, v: Word)
    requires ZoneOk(z) && StackHeld(z, stack, sp, n) && MemAgrees(z, m, n) && z.lo <= sp - 16
    ensures var sp' := Wrap(sp - 16);
            StackHeld(z, stack + [v], sp', StoreWord(n, sp', v)) && MemAgrees(z, m, StoreWord(n, sp', v))
  {
    hide LoadWord, StoreWord;
    var sp': int := sp - 16;
    SmallWrap(sp');
    var n' := StoreWord(n, sp', v);
    var more := stack + [v];
    forall i | 0 <= i < |more| ensures HeldAt(more, sp', n', i) {
      if i < |stack| {
        assert HeldAt(stack, sp, n, i);
        var b := sp + 16 * (|stack| - 1 - i);
        assert sp' + 16 * (|more| - 1 - i) == b;
        Apart(n, sp', v, b);
      } else {
        LoadStoredWord(n, sp', v);
      }
    }
    forall a: Word | !InZone(z, a) ensures m[a] == n'[a] {
      SmallWrap(sp' + 1);
      SmallWrap(sp' + 2);
      SmallWrap(sp' + 3);
      StoreWordFrame(n, sp', v, a);
    }
  }

  /** Two words of the zone at least sixteen bytes apart. */
  lemma Apart(m: Mem, a: int, v: Word, b: int)
    requires 0 <= a && a + 16 <= b && b + 4 <= 0x1_0000_0000
    ensures LoadWord(StoreWord(m, a, v), Wrap(b)) == LoadWord(m, Wrap(b))
  {
    hide StoreWord, WordOf;
    SmallWrap(a + 1);
    SmallWrap(a + 2);
    SmallWrap(a + 3);
    SmallWrap(b);
    SmallWrap(b + 1);
    SmallWrap(b + 2);
    SmallWrap(b + 3);
    StoreWordFrame(m, a, v, b);
    StoreWordFrame(m, a, v, b + 1);
    StoreWordFrame(m, a, v, b + 2);
    StoreWordFrame(m, a, v, b + 3);
  }

  lemma PopHeld(z: Zone, stack: seq<Word>, sp: Word, n: Mem)
    requires ZoneOk(z) && StackHeld(z, stack, sp, n) && stack != [] && sp + 16 < 0x1_0000_0000
    ensures LoadWord(n, sp) == stack[|stack| - 1] && StackHeld(z, stack[..|stack| - 1], Wrap(sp + 16), n)
  {
    hide LoadWord;
    assert HeldAt(stack, sp, n, |stack| - 1);
    SmallWrap(sp);
    SmallWrap(sp + 16);
    var rest, up := stack[..|stack| - 1], Wrap(sp + 16);
    forall i | 0 <= i < |rest| ensures HeldAt(rest, up, n, i) {
      assert HeldAt(stack, sp, n, i);
    }
  }

  /** Pushed values outlive changes below the stack pointer. */
  lemma HeldAbove(z: Zone, stack: seq<Word>, sp: Word, m: Mem, n: Mem)
    requires ZoneOk(z) && StackHeld(z, stack, sp, m) && forall a: Word :: sp <= a < z.hi ==> n[a] == m[a]
    ensures StackHeld(z, stack, sp, n)
  {
    hide WordOf;
    forall i | 0 <= i < |stack| ensures HeldAt(stack, sp, n, i) {
      assert HeldAt(stack, sp, m, i);
      var b: int := sp + 16 * (|stack| - 1 - i);
      SmallWrap(b);
      SmallWrap(b + 1);
      SmallWrap(b + 2);
      SmallWrap(b + 3);
    }
  }

  /** Both the program and the machine may lose sight of more. */
  lemma ZoneGrows(z: Zone, y: Zone, m: Mem, n: Mem)
    requires MemAgrees(z, m, n) && y.lo <= z.lo && z.hi <= y.hi
    ensures MemAgrees(y, m, n)
  {
  }
}
