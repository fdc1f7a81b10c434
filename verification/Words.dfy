/** 32-bit machine words, the host compiler's `int`, and byte-addressed memory.

    A word is the unsigned reading of 32 bits.  The host's `int` is two's complement; its right shift is arithmetic,
    which on unbounded integers is Dafny's Euclidean division by a power of two, and `x & (2^n - 1)` is `x % 2^n`. */
module Words {
  type Word = w: int | 0 <= w < 0x1_0000_0000
  type Byte = b: int | 0 <= b < 0x100

  datatype Option<+T> = None | Some(value: T)

  /** The word congruent to x modulo 2^32. */
  function Wrap(x: int): Word
    decreases if x < 0 then 0x1_0000_0000 - x else x
  {
    if x < 0 then Wrap(x + 0x1_0000_0000)
    else if x >= 0x1_0000_0000 then Wrap(x - 0x1_0000_0000)
    else x
  }

  lemma {:induction false} WrapIsMod(x: int)
    ensures Wrap(x) == x % 0x1_0000_0000
    decreases if x < 0 then 0x1_0000_0000 - x else x
  {
    if x < 0 {
      WrapIsMod(x + 0x1_0000_0000);
    } else if x >= 0x1_0000_0000 {
      WrapIsMod(x - 0x1_0000_0000);
    }
  }

  lemma WrapWrap(x: int, y: int)
    ensures Wrap(Wrap(x) + y) == Wrap(x + y)
  {
    WrapIsMod(x);
    WrapIsMod(x + y);
    WrapIsMod(Wrap(x) + y);
  }

  lemma WrapPeriod(x: int, k: int)
    ensures Wrap(x + 0x1_0000_0000 * k) == Wrap(x)
  {
    WrapIsMod(x);
    WrapIsMod(x + 0x1_0000_0000 * k);
  }

  /** The value of a word read as a signed 32-bit integer. */
  function Signed(w: Word): int {
    if w < 0x8000_0000 then w else w - 0x1_0000_0000
  }

  /** Arithmetic on the host's `int`, wrapping at 32 bits. */
  function Int32(x: int): int {
    Signed(Wrap(x))
  }

  function Pow2(n: nat): (r: nat)
    ensures r > 0
  {
    if n == 0 then 1 else 2 * Pow2(n - 1)
  }

  // ----- bitwise operations, bit by bit -----

  function AndBits(n: nat, a: nat, b: nat): (r: nat)
    requires a < Pow2(n) && b < Pow2(n)
    ensures r < Pow2(n)
  {
    if n == 0 then 0 else (if a % 2 == 1 && b % 2 == 1 then 1 else 0) + 2 * AndBits(n - 1, a / 2, b / 2)
  }

  function OrBits(n: nat, a: nat, b: nat): (r: nat)
    requires a < Pow2(n) && b < Pow2(n)
    ensures r < Pow2(n)
  {
    if n == 0 then 0 else (if a % 2 + b % 2 > 0 then 1 else 0) + 2 * OrBits(n - 1, a / 2, b / 2)
  }

  lemma Pow2Of32()
    ensures Pow2(32) == 0x1_0000_0000
  {
    assert Pow2(8) == 0x100;
    assert Pow2(16) == 0x1_0000;
    assert Pow2(24) == 0x100_0000;
  }

  function And(a: Word, b: Word): Word {
    Pow2Of32();
    AndBits(32, a, b)
  }

  function Or(a: Word, b: Word): Word {
    Pow2Of32();
    OrBits(32, a, b)
  }

  function Shl(a: Word, n: nat): Word {
    Wrap(a * Pow2(n))
  }

  /** Logical right shift. */
  function Shr(a: Word, n: nat): Word {
    ShrBound(a, Pow2(n));
    a / Pow2(n)
  }

  lemma ShrBound(a: nat, d: nat)
    requires d > 0
    ensures 0 <= a / d <= a
  {
    var q := a / d;
    MulAtLeast(d, q);
    assert a == d * q + a % d;
  }

  lemma MulAtLeast(d: int, q: int)
    requires d > 0
    ensures q >= 0 ==> d * q >= q
    ensures q >= 1 ==> d * q >= d
    ensures q <= -1 ==> d * q <= -d
  {
  }

  /** Masking with 2^k - 1 keeps the remainder modulo 2^k. */
  lemma {:induction false} AndMask(n: nat, k: nat, a: nat, mask: nat)
    requires k <= n && a < Pow2(n) && mask == Pow2(k) - 1 && mask < Pow2(n)
    ensures AndBits(n, a, mask) == a % Pow2(k)
  {
    if k == 0 {
      AndZero(n, a);
    } else {
      var q := Pow2(k - 1);
      assert mask == 2 * q - 1 && mask / 2 == q - 1 && mask % 2 == 1;
      AndMask(n - 1, k - 1, a / 2, mask / 2);
      ModTwice(a, q);
    }
  }

  lemma {:induction false} AndZero(n: nat, a: nat)
    requires a < Pow2(n)
    ensures AndBits(n, a, 0) == 0
  {
    if n > 0 {
      AndZero(n - 1, a / 2);
    }
  }

  lemma {:induction false} Pow2Monotone(k: nat, n: nat)
    requires k <= n
    ensures Pow2(k) <= Pow2(n)
  {
    if k < n {
      Pow2Monotone(k, n - 1);
    }
  }

  lemma ModTwice(a: nat, q: nat)
    requires q > 0
    ensures a % (2 * q) == a % 2 + 2 * ((a / 2) % q)
  {
    var h := a / 2;
    var r := a % 2 + 2 * (h % q);
    assert a == (2 * q) * (h / q) + r by {
      assert h == q * (h / q) + h % q;
    }
    RemainderUnique(a, 2 * q, h / q, r);
  }

  lemma RemainderUnique(a: int, d: int, k: int, r: int)
    requires d > 0 && 0 <= r < d && a == d * k + r
    ensures a % d == r && a / d == k
  {
    var k', r' := a / d, a % d;
    assert a == d * k' + r';
    assert d * (k' - k) == d * k' - d * k;
    MulAtLeast(d, k' - k);
  }

  /** On truth values the compiler's eager `&&` and `||` are the logical connectives. */
  lemma {:induction false} LogicalOnTruthValues(a: Word, b: Word)
    requires a <= 1 && b <= 1
    ensures And(a, b) == (if a == 1 && b == 1 then 1 else 0)
    ensures Or(a, b) == (if a == 1 || b == 1 then 1 else 0)
  {
    Pow2Of32();
    LowestBits(32, a, b);
  }

  lemma LowestBits(n: nat, a: nat, b: nat)
    requires n > 0 && a <= 1 && b <= 1 && a < Pow2(n) && b < Pow2(n)
    ensures AndBits(n, a, b) == (if a == 1 && b == 1 then 1 else 0)
    ensures OrBits(n, a, b) == (if a == 1 || b == 1 then 1 else 0)
  {
    AndZero(n - 1, 0);
    OrZero(n - 1);
  }

  lemma {:induction false} OrZero(n: nat)
    ensures OrBits(n, 0, 0) == 0
  {
    if n > 0 {
      OrZero(n - 1);
    }
  }

  lemma SmallWrap(x: int)
    requires 0 <= x < 0x1_0000_0000
    ensures Wrap(x) == x
  {
  }

  // ----- memory -----

  type Mem = m: seq<Byte> | |m| == 0x1_0000_0000
    ghost witness seq(0x1_0000_0000, i => 0)

  ghost function LoadWord(m: Mem, a: Word): Word {
    WordOf(m[a], m[Wrap(a + 1)], m[Wrap(a + 2)], m[Wrap(a + 3)])
  }

  /** The little-endian word with these four bytes. */
  function WordOf(b0: int, b1: int, b2: int, b3: int): Word
    requires 0 <= b0 < 0x100 && 0 <= b1 < 0x100 && 0 <= b2 < 0x100 && 0 <= b3 < 0x100
  {
    b0 + 0x100 * b1 + 0x1_0000 * b2 + 0x100_0000 * b3
  }

  ghost function StoreWord(m: Mem, a: Word, v: Word): Mem {
    m[a := v % 0x100][Wrap(a + 1) := v / 0x100 % 0x100]
     [Wrap(a + 2) := v / 0x1_0000 % 0x100][Wrap(a + 3) := v / 0x100_0000]
  }

  /** A one-byte load: sign-extending on RISC-V (LB), zero-extending on ARM (LDRB). */
  ghost function LoadByte(m: Mem, a: Word, signed: bool): Word {
    var b: int := m[a];
    if signed && b >= 0x80 then 0xFFFF_FF00 + b else b
  }

  ghost function StoreByte(m: Mem, a: Word, v: Word): Mem {
    m[a := v % 0x100]
  }

  /** The two ways of loading a byte agree on seven-bit values only. */
  lemma LoadByteSame(m: Mem, a: Word)
    ensures LoadByte(m, a, true) == LoadByte(m, a, false) <==> m[a] < 0x80
  {
  }

  lemma BytesOfWord(v: Word)
    ensures v == WordOf(v % 0x100, v / 0x100 % 0x100, v / 0x1_0000 % 0x100, v / 0x100_0000)
  {
    assert v / 0x1_0000 == v / 0x100 / 0x100;
    assert v / 0x100_0000 == v / 0x1_0000 / 0x100;
  }

  /** The four addresses of a word differ. */
  lemma AddressesDiffer(a: Word)
    ensures a != Wrap(a + 1) && a != Wrap(a + 2) && a != Wrap(a + 3)
    ensures Wrap(a + 1) != Wrap(a + 2) && Wrap(a + 1) != Wrap(a + 3) && Wrap(a + 2) != Wrap(a + 3)
  {
  }

  lemma LoadStoredWord(m: Mem, a: Word, v: Word)
    ensures LoadWord(StoreWord(m, a, v), a) == v
  {
    AddressesDiffer(a);
    BytesOfWord(v);
  }

  /** Storing four bytes changes only those four. */
  lemma StoreWordFrame(m: Mem, a: Word, v: Word, b: Word)
    requires b != a && b != Wrap(a + 1) && b != Wrap(a + 2) && b != Wrap(a + 3)
    ensures StoreWord(m, a, v)[b] == m[b]
  {
  }
}
