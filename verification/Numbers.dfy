/** Printing and reading numbers without division: the run-time library's renderer against the compiler's two
    readers. */
module Numbers {
  import opened Words

  // ----- reading -----

  /** Past the end of a text is its terminator. */
  function CharAt(text: string, i: nat): char {
    if i < |text| then text[i] else '\0'
  }

  predicate IsDigit(c: char) {
    '0' <= c <= '9'
  }

  /** The compiler's own test, which also lets an x through. */
  predicate IsHex(c: char) {
    IsDigit(c) || 'a' <= c <= 'f' || c == 'x' || 'A' <= c <= 'F'
  }

  function HexDigit(c: char): Option<int> {
    if IsDigit(c) then Some(c as int - '0' as int)
    else if 'a' <= c <= 'f' then Some(c as int - 'a' as int + 10)
    else if 'A' <= c <= 'F' then Some(c as int - 'A' as int + 10)
    else None
  }

  function DecFrom(text: string, i: nat, acc: int): int
    decreases |text| - i
  {
    var v := Int32(acc * 10 + (CharAt(text, i) as int - '0' as int));
    if IsDigit(CharAt(text, i + 1)) then DecFrom(text, i + 1, v) else v
  }

  function HexFrom(text: string, i: nat, acc: int): Option<int>
    decreases |text| - i
  {
    match HexDigit(CharAt(text, i))
    case None => None
    case Some(d) =>
      var v := Int32(acc * 16 + d);
      if IsHex(CharAt(text, i + 1)) then HexFrom(text, i + 1, v) else Some(v)
  }

  function Negation(neg: bool, v: int): int {
    if neg then Int32(-v) else v
  }

  /** A number in an expression, under a unary minus or not; None for an invalid constant. */
  function ParamValue(text: string, neg: bool): Option<int> {
    var minus := CharAt(text, 0) == '-';
    if CharAt(text, 0) == '0' && CharAt(text, 1) == 'x' then
      match HexFrom(text, 2, 0) case None => None case Some(v) => Some(Negation(neg != minus, v))
    else Some(Negation(neg != minus, DecFrom(text, if minus then 1 else 0, 0)))
  }

  method ReadNumericParam(text: string, neg: bool) returns (r: Option<int>)
    ensures r == ParamValue(text, neg)
  {
    var isneg, i, value := neg, 0, 0;
    if CharAt(text, 0) == '-' {
      isneg := !isneg;
      i := i + 1;
    }
    if CharAt(text, 0) == '0' && CharAt(text, 1) == 'x' {
      i := 2;
      var more := true;
      while more
        invariant 2 <= i && (more ==> HexFrom(text, i, value) == HexFrom(text, 2, 0))
        invariant !more ==> HexFrom(text, 2, 0) == Some(value)
        decreases more, |text| - i
      {
        var d := HexDigit(CharAt(text, i));
        if d.None? { return None; }
        i := i + 1;
        value := Int32(value * 16 + d.value);
        more := IsHex(CharAt(text, i));
      }
    } else {
      ghost var start := i;
      var more := true;
      while more
        invariant more ==> DecFrom(text, i, value) == DecFrom(text, start, 0)
        invariant !more ==> DecFrom(text, start, 0) == value
        decreases more, |text| - i
      {
        value := Int32(value * 10 + (CharAt(text, i) as int - '0' as int));
        i := i + 1;
        more := IsDigit(CharAt(text, i));
      }
    }
    if isneg {
      value := Int32(-value);
    }
    return Some(value);
  }

  /** Characters that are no digits only shift. */
  function ConstHex(text: string, i: nat, acc: int): int
    decreases |text| - i
  {
    if CharAt(text, i) == '\0' then acc
    else
      var shifted := Int32(acc * 16);
      ConstHex(text, i + 1, match HexDigit(CharAt(text, i)) case None => shifted case Some(d) => Int32(shifted + d))
  }

  function ConstFrom(text: string, i: nat, acc: int): int
    decreases |text| - i
  {
    if CharAt(text, i) == '\0' then acc
    else if i == 1 && (CharAt(text, 1) == 'x' || CharAt(text, 1) == 'X') then ConstHex(text, 2, 0)
    else ConstFrom(text, i + 1, Int32(acc * 10 + CharAt(text, i) as int - '0' as int))
  }

  /** A number as a case label or an array size. */
  function ConstValue(text: string): int {
    ConstFrom(text, 0, 0)
  }

  method ReadNumericConstant(text: string) returns (value: int)
    ensures value == ConstValue(text)
  {
    var i := 0;
    value := 0;
    while CharAt(text, i) != '\0'
      invariant ConstFrom(text, i, value) == ConstValue(text)
      decreases |text| - i
    {
      if i == 1 && (CharAt(text, i) == 'x' || CharAt(text, i) == 'X') {
        value := 0;
        i := 2;
        while CharAt(text, i) != '\0'
          invariant ConstHex(text, i, value) == ConstValue(text)
          decreases |text| - i
        {
          var d := HexDigit(CharAt(text, i));
          i := i + 1;
          value := Int32(value * 16);
          if d.Some? {
            value := Int32(value + d.value);
          }
        }
        return;
      }
      value := Int32(value * 10 + CharAt(text, i) as int - '0' as int);
      i := i + 1;
    }
  }

  // ----- rendering -----

  /** On the least `int` the renderer looks for a digit beyond its buffer. */
  type Printable = x: int | -0x7FFF_FFFF <= x <= 0x7FFF_FFFF

  function Pow10(k: nat): (r: nat)
    ensures r > 0
  {
    if k == 0 then 1 else 10 * Pow10(k - 1)
  }

  function DigitChar(d: int): char
    requires 0 <= d < 16
  {
    if d < 10 then ('0' as int + d) as char else ('a' as int + d - 10) as char
  }

  /** The k decimal digits of n, the most significant first. */
  function Dec(n: nat, k: nat): (s: string)
    requires n < Pow10(k)
    ensures |s| == k
  {
    if k == 0 then []
    else
      DigitBounds(n, Pow10(k - 1));
      [DigitChar(n / Pow10(k - 1))] + Dec(n % Pow10(k - 1), k - 1)
  }

  lemma DigitBounds(n: nat, w: nat)
    requires w > 0 && n < 10 * w
    ensures 0 <= n / w < 10 && 0 <= n % w < w
  {
    var q := n / w;
    assert n == w * q + n % w;
    MulAtLeast(w, q);
    assert w * (q - 10) == w * q - 10 * w;
    MulAtLeast(w, q - 10);
  }

  /** The number of leading zeros. */
  function Zeros(s: string): (c: nat)
    ensures c <= |s|
    ensures forall k :: 0 <= k < c ==> s[k] == '0'
    ensures c < |s| ==> s[c] != '0'
  {
    if s == [] || s[0] != '0' then 0 else 1 + Zeros(s[1..])
  }

  /** The minus sign replaces the last leading zero; a number with ten digits has no room for it. */
  function Render10(val: Printable): (s: string)
    ensures |s| == 10
  {
    PowerOf10();
    var digits := Dec(if val < 0 then -val else val, 10);
    var c := Zeros(digits);
    if val < 0 && c > 0 then digits[c - 1 := '-'] else digits
  }

  lemma PowerOf10()
    ensures Pow10(10) == 10000000000
    ensures Pow10(9) == 1000000000
  {
    assert Pow10(5) == 100000;
  }

  /** Counts in pb[k] how often the weight can be taken off. */
  method TakeDigit(pb: array<char>, k: nat, val: nat, weight: nat) returns (rest: nat)
    requires k < pb.Length && pb[k] == '0' && weight > 0 && val < 10 * weight
    modifies pb
    ensures rest == val % weight && 0 <= val / weight < 10
    ensures pb[..] == old(pb[..])[k := DigitChar(val / weight)]
  {
    DigitBounds(val, weight);
    rest := val;
    ghost var d := 0;
    while rest >= weight
      invariant 0 <= d && val == d * weight + rest && d <= val / weight
      invariant pb[..] == old(pb[..])[k := DigitChar(d)]
    {
      rest := rest - weight;
      d := d + 1;
      Quotient(val, weight, d, rest);
      pb[k] := (pb[k] as int + 1) as char;
    }
    Quotient(val, weight, d, rest);
  }

  lemma Quotient(n: nat, w: nat, d: nat, r: nat)
    requires w > 0 && n == d * w + r
    ensures d <= n / w
    ensures r < w ==> d == n / w && r == n % w
  {
    var q := n / w;
    assert n == w * q + n % w;
    assert w * (d - q) == w * d - w * q;
    MulAtLeast(w, d - q);
    if r < w {
      RemainderUnique(n, w, d, r);
    }
  }

  /** The ten powers of ten the renderer counts down with, one loop each. */
  const WEIGHTS: seq<nat> :=
    [1000000000, 100000000, 10000000, 1000000, 100000, 10000, 1000, 100, 10, 1]

  lemma WeightsArePowers(k: nat)
    requires k < 10
    ensures WEIGHTS[k] == Pow10(9 - k)
  {
    assert Pow10(4) == 10000 && Pow10(8) == 100000000;
  }

  lemma DecSplit(before: string, n: nat, k: nat)
    requires k > 0 && n < Pow10(k)
    ensures 0 <= n / Pow10(k - 1) < 10 && 0 <= n % Pow10(k - 1) < Pow10(k - 1)
    ensures 0 < Pow10(k) == 10 * Pow10(k - 1)
    ensures before + Dec(n, k) == before + [DigitChar(n / Pow10(k - 1))] + Dec(n % Pow10(k - 1), k - 1)
  {
    DigitBounds(n, Pow10(k - 1));
  }

  method DigitsInPlace(pb: array<char>, n: nat)
    requires pb.Length == 10 && pb[..] == Filled('0', 10) && n < Pow10(10)
    modifies pb
    ensures pb[..] == Dec(n, 10)
  {
    hide Dec, Pow10;
    var rest: nat := n;
    assert pb[..0] + Dec(rest, 10) == Dec(n, 10);
    for k := 0 to 10
      invariant 0 <= rest < Pow10(10 - k) && Dec(n, 10) == pb[..k] + Dec(rest, 10 - k)
      invariant forall j :: k <= j < 10 ==> pb[j] == '0'
    {
      WeightsArePowers(k);
      DecSplit(pb[..k], rest, 10 - k);
      ghost var before := pb[..];
      rest := TakeDigit(pb, k, rest, WEIGHTS[k]);
      assert pb[..k] == pb[..][..k] == before[..k];
      assert pb[..k + 1] == pb[..k] + [pb[k]];
      assert forall j :: k < j < 10 ==> pb[..][j] == before[j];
    }
    assert pb[..] == pb[..10] + Dec(rest, 0);
  }

  method Render10InPlace(pb: array<char>, val: Printable)
    requires pb.Length == 10 && pb[..] == Filled('0', 10)
    modifies pb
    ensures pb[..] == Render10(val)
  {
    hide Dec, Pow10;
    PowerOf10();
    var n: nat := if val < 0 then -val else val;
    DigitsInPlace(pb, n);
    if val < 0 {
      var c := 0;
      while c < 10 && pb[c] == '0'
        invariant 0 <= c <= 10 && forall j :: 0 <= j < c ==> pb[j] == '0'
      {
        c := c + 1;
      }
      ZerosIs(pb[..], c);
      if c > 0 {
        pb[c - 1] := '-';
      }
    }
  }

  function Filled(c: char, n: nat): (s: string)
    ensures |s| == n && forall k :: 0 <= k < n ==> s[k] == c
  {
    if n == 0 then [] else [c] + Filled(c, n - 1)
  }

  lemma {:induction false} ZerosIs(s: string, c: nat)
    requires c <= |s| && (forall j :: 0 <= j < c ==> s[j] == '0') && (c < |s| ==> s[c] != '0')
    ensures Zeros(s) == c
  {
    if c > 0 {
      ZerosIs(s[1..], c - 1);
    }
  }

  /** The digits of n to the base 16, the most significant first. */
  function Hex(n: nat, k: nat): (s: string)
    ensures |s| == k
  {
    if k == 0 then [] else Hex(n / 16, k - 1) + [DigitChar(n % 16)]
  }

  /** Nine digits, of which a word needs eight; the first of the ten characters stays as it is. */
  function Render16(val: Word): (s: string)
    ensures |s| == 10
  {
    ['0'] + Hex(val, 9)
  }

  /** The run-time library is compiled by the compiler it belongs to, whose right shift is logical. */
  method Render16InPlace(pb: array<char>, val: Word)
    requires pb.Length == 10 && pb[..] == Filled('0', 10)
    modifies pb
    ensures pb[..] == Render16(val)
  {
    var c, v: nat := 9, val;
    while c > 0
      invariant 0 <= c <= 9 && pb[0] == '0'
      invariant Hex(val, 9) == Hex(v, c) + pb[c + 1..]
    {
      ghost var before := pb[c + 1..];
      pb[c] := DigitChar(v % 16);
      assert pb[c..] == [pb[c]] + before;
      v := v / 16;
      c := c - 1;
    }
    assert pb[..] == [pb[0]] + pb[1..];
  }

  // ----- formatting -----

  type CInt = x: int | -0x8000_0000 <= x <= 0x7FFF_FFFF

  /** Base 10 or 16, and in base 10 not the least `int`. */
  predicate CanRender(val: CInt, b: int) {
    b == 16 || (b == 10 && val > -0x8000_0000)
  }

  function Rendered(val: CInt, b: int): (pb: string)
    requires CanRender(val, b)
    ensures |pb| == 10
  {
    if b == 10 then Render10(val) else Render16(Wrap(val))
  }

  /** The digits from position c on, with leading zeros kept, blanked or, without padding, dropped. */
  function Padded(pb: string, pad: char): (s: string)
    ensures |s| == |pb|
  {
    Filled(pad, Zeros(pb)) + pb[Zeros(pb)..]
  }

  function FormatText(val: CInt, width: nat, zeropad: bool, b: int, prefix: bool): string
    requires CanRender(val, b)
  {
    var pb, pad := Rendered(val, b), if zeropad then '0' else ' ';
    var w: nat := if !prefix then width else if width > 2 then width - 2 else 0;
    (if prefix then "0x" else "")
    + (if w == 0 then (if Zeros(pb) == 10 then "0" else pb[Zeros(pb)..])
       else if w > 10 then Filled(pad, w - 10) + Padded(pb, pad)
       else Padded(pb[10 - w..], pad))
  }

  lemma PaddedIs(pb: string, pad: char)
    ensures Padded(pb, pad) == Filled(pad, Zeros(pb)) + pb[Zeros(pb)..]
  {
    hide Filled, Zeros;
  }

  lemma JoinAt(a: string, b: string, k: nat)
    requires k < |a| + |b|
    ensures (a + b)[k] == if k < |a| then a[k] else b[k - |a|]
  {
  }

  lemma PaddedAt(pb: string, pad: char, k: nat)
    requires k < |pb|
    ensures Padded(pb, pad)[k] == if k >= Zeros(pb) then pb[k] else pad
    ensures k < Zeros(pb) ==> pb[k] == '0'
    ensures k == Zeros(pb) ==> pb[k] != '0'
  {
    hide Filled, Zeros, Padded;
    var z := Zeros(pb);
    PaddedIs(pb, pad);
    JoinAt(Filled(pad, z), pb[z..], k);
  }

  /** Writes the digits pb[c..] with leading zeros replaced, behind the bi characters already in the buffer. */
  method WritePadded(buffer: array<char>, bi: nat, pb: array<char>, c: nat, pad: char) returns (end: nat)
    requires pb.Length == 10 && c <= 10 && bi + 10 - c <= buffer.Length && buffer != pb
    modifies buffer
    ensures end == bi + 10 - c && buffer[..end] == old(buffer[..bi]) + Padded(pb[c..], pad)
  {
    hide Zeros, Filled, Padded;
    var k, started := c, false;
    ghost var digits := pb[c..];
    ghost var text := Padded(digits, pad);
    end := bi;
    while k < 10
      invariant c <= k <= 10 && end == bi + k - c && started == (k - c > Zeros(digits))
      invariant forall j :: 0 <= j < bi ==> buffer[j] == old(buffer[j])
      invariant forall j :: 0 <= j < k - c ==> buffer[bi + j] == text[j]
    {
      assert digits[k - c] == pb[k];
      PaddedAt(digits, pad, k - c);
      if pb[k] != '0' {
        started := true;
      }
      buffer[end] := if started then pb[k] else pad;
      end := end + 1;
      k := k + 1;
    }
    assert buffer[..end] == old(buffer[..bi]) + text;
  }

  /** Writes the digits from the first that is not 0 on; nothing when there is none. */
  method WriteTrimmed(buffer: array<char>, bi: nat, pb: array<char>) returns (end: nat, started: bool)
    requires pb.Length == 10 && bi + 10 <= buffer.Length && buffer != pb
    modifies buffer
    ensures bi <= end <= bi + 10 && started == (Zeros(pb[..]) < 10)
    ensures buffer[..end] == old(buffer[..bi]) + pb[Zeros(pb[..])..]
  {
    hide Zeros;
    var c := 0;
    ghost var digits := pb[..];
    ghost var z := Zeros(digits);
    end, started := bi, false;
    while c < 10
      invariant 0 <= c <= 10 && started == (c > z) && end == bi + (if c > z then c - z else 0)
      invariant forall j :: 0 <= j < bi ==> buffer[j] == old(buffer[j])
      invariant forall j :: z <= j < c ==> buffer[bi + (j - z)] == digits[j]
    {
      assert digits[c] == pb[c];
      if pb[c] != '0' {
        started := true;
      }
      if started {
        buffer[end] := pb[c];
        end := end + 1;
      }
      c := c + 1;
    }
    assert buffer[..end] == old(buffer[..bi]) + digits[z..];
  }

  method ExtraPadding(buffer: array<char>, bi: nat, width: nat, pad: char) returns (end: nat, w: nat)
    requires bi + width <= buffer.Length
    modifies buffer
    ensures w == (if width > 10 then 10 else width) && end == bi + width - w
    ensures buffer[..end] == old(buffer[..bi]) + Filled(pad, width - w)
  {
    hide Filled;
    end, w := bi, width;
    while w > 10
      invariant w <= width && (width <= 10 ==> w == width) && (width > 10 ==> w >= 10)
      invariant end == bi + width - w
      invariant forall j :: 0 <= j < bi ==> buffer[j] == old(buffer[j])
      invariant forall j :: bi <= j < end ==> buffer[j] == pad
    {
      buffer[end] := pad;
      end := end + 1;
      w := w - 1;
    }
    assert buffer[..end] == old(buffer[..bi]) + Filled(pad, width - w);
  }

  method Render(val: CInt, b: int) returns (pb: array<char>)
    requires CanRender(val, b)
    ensures fresh(pb) && pb.Length == 10 && pb[..] == Rendered(val, b)
  {
    hide Render10, Render16;
    pb := new char[10];
    var pbi := 0;
    while pbi < 10
      invariant 0 <= pbi <= 10 && forall j :: 0 <= j < pbi ==> pb[j] == '0'
    {
      pb[pbi] := '0';
      pbi := pbi + 1;
    }
    assert pb[..] == Filled('0', 10);
    if b == 10 {
      Render10InPlace(pb, val);
    } else {
      Render16InPlace(pb, Wrap(val));
    }
  }

  method Format(buffer: array<char>, val: CInt, width: nat, zeropad: bool, b: int, prefix: bool) returns (bi: nat)
    requires CanRender(val, b) && width + 12 <= buffer.Length
    modifies buffer
    ensures bi <= buffer.Length && buffer[..bi] == FormatText(val, width, zeropad, b, prefix)
  {
    hide Rendered, Filled, Zeros, Padded, FormatText;
    var w := width;
    bi := 0;
    if prefix {
      buffer[0], buffer[1] := '0', 'x';
      bi := 2;
      w := if w > 2 then w - 2 else 0;
    }
    ghost var front := buffer[..bi];
    assert front == if prefix then "0x" else "";
    FormatIs(val, width, zeropad, b, prefix, w, front);
    var pb := Render(val, b);
    var pad := if zeropad then '0' else ' ';
    FilledNone(pad);
    bi, w := ExtraPadding(buffer, bi, w, pad);
    if w == 0 {
      assert buffer[..bi] == front;
      var started;
      bi, started := WriteTrimmed(buffer, bi, pb);
      if !started {
        assert buffer[..bi] == front;
        buffer[bi] := '0';
        bi := bi + 1;
        assert buffer[..bi] == front + "0";
      }
    } else {
      bi := WritePadded(buffer, bi, pb, 10 - w, pad);
      assert pb[0..] == pb[..];
    }
  }

  lemma FormatIs(val: CInt, width: nat, zeropad: bool, b: int, prefix: bool, w: nat, front: string)
    requires CanRender(val, b) && w == (if !prefix then width else if width > 2 then width - 2 else 0)
    requires front == if prefix then "0x" else ""
    ensures var pb, text := Rendered(val, b), FormatText(val, width, zeropad, b, prefix);
            var pad := if zeropad then '0' else ' ';
            && (w == 0 && Zeros(pb) < 10 ==> text == front + pb[Zeros(pb)..])
            && (w == 0 && Zeros(pb) == 10 ==> text == front + "0")
            && (0 < w <= 10 ==> text == front + Padded(pb[10 - w..], pad))
            && (w > 10 ==> text == front + Filled(pad, w - 10) + Padded(pb, pad))
  {
    hide Rendered, Filled, Zeros, Padded;
    if w > 10 {
      var pb, pad := Rendered(val, b), if zeropad then '0' else ' ';
      assert front + Filled(pad, w - 10) + Padded(pb, pad) == front + (Filled(pad, w - 10) + Padded(pb, pad));
    }
  }

  lemma FilledNone(c: char)
    ensures Filled(c, 0) == []
  {
  }

  // ----- printing and reading undo each other -----

  /** What reading decimal digits comes to. */
  function FoldDec(s: string, acc: int): int {
    if s == [] then acc else FoldDec(s[1..], Int32(acc * 10 + (s[0] as int - '0' as int)))
  }

  predicate AllDigits(s: string) {
    forall k :: 0 <= k < |s| ==> IsDigit(s[k])
  }

  lemma {:induction false} ReadsDigits(text: string, i: nat, acc: int)
    requires i < |text| && AllDigits(text[i..])
    ensures DecFrom(text, i, acc) == FoldDec(text[i..], acc)
    decreases |text| - i
  {
    var rest := text[i..];
    assert rest[1..] == text[i + 1..];
    assert rest[0] == text[i];
    if i + 1 < |text| {
      assert rest[1] == text[i + 1];
      ReadsDigits(text, i + 1, Int32(acc * 10 + (text[i] as int - '0' as int)));
    }
  }

  lemma Int32Small(x: int)
    requires -0x8000_0000 <= x < 0x8000_0000
    ensures Int32(x) == x
  {
    WrapIsMod(x);
    RemainderUnique(x, 0x1_0000_0000, if x < 0 then -1 else 0, if x < 0 then x + 0x1_0000_0000 else x);
  }

  lemma DecCons(n: nat, k: nat)
    requires k > 0 && n < Pow10(k)
    ensures var w := Pow10(k - 1);
            && Pow10(k) == 10 * w && n == w * (n / w) + n % w && 0 <= n / w < 10 && 0 <= n % w < w
            && Dec(n, k) == [DigitChar(n / w)] + Dec(n % w, k - 1)
  {
    DigitBounds(n, Pow10(k - 1));
  }

  lemma Horner(acc: nat, w: nat, d: nat, r: nat)
    ensures (acc * 10 + d) * w + r == acc * (10 * w) + (w * d + r)
    ensures w > 0 ==> acc * 10 + d <= (acc * 10 + d) * w
  {
    if w > 0 { MulAtLeast(w, acc * 10 + d); }
  }

  /** Reading the digits of n behind a prefix with value acc. */
  lemma {:induction false} FoldsDec(n: nat, k: nat, acc: nat)
    requires n < Pow10(k) && acc * Pow10(k) + n < 0x8000_0000
    ensures AllDigits(Dec(n, k)) && FoldDec(Dec(n, k), acc) == acc * Pow10(k) + n
    decreases k
  {
    hide Int32, Dec, Pow10;
    if k > 0 {
      DecCons(n, k);
      var w := Pow10(k - 1);
      var d, r := n / w, n % w;
      Horner(acc, w, d, r);
      Int32Small(acc * 10 + d);
      FoldsDec(r, k - 1, acc * 10 + d);
      assert Dec(n, k)[1..] == Dec(r, k - 1);
    } else {
      DecNone(n);
    }
  }

  lemma DecNone(n: nat)
    requires n < Pow10(0)
    ensures Pow10(0) == 1 && n == 0 && Dec(n, 0) == []
  {
  }

  /** Leading zeros carry no value. */
  lemma {:induction false} TrimmedDec(n: nat, k: nat)
    requires n < Pow10(k) && n < 0x8000_0000
    ensures AllDigits(Dec(n, k)) && AllDigits(Dec(n, k)[Zeros(Dec(n, k))..])
    ensures FoldDec(Dec(n, k)[Zeros(Dec(n, k))..], 0) == n
    ensures n == 0 <==> Zeros(Dec(n, k)) == k
    ensures n > 0 && k > 0 ==> (Zeros(Dec(n, k)) > 0 <==> n < Pow10(k - 1))
    decreases k
  {
    hide Dec, Pow10, FoldDec, Zeros;
    FoldsDec(n, k, 0);
    var s := Dec(n, k);
    if k == 0 {
      DecNone(n);
    } else {
      DecCons(n, k);
      var w := Pow10(k - 1);
      var d, r := n / w, n % w;
      ZerosCons(s);
      if d == 0 {
        assert s[1..] == Dec(r, k - 1);
        TrimmedDec(r, k - 1);
        assert s[Zeros(s)..] == s[1..][Zeros(s[1..])..];
      } else {
        MulAtLeast(w, d);
        assert s[0] == DigitChar(d) != '0';
        assert s[0..] == s;
      }
    }
  }

  lemma ZerosCons(s: string)
    requires s != []
    ensures Zeros(s) == if s[0] != '0' then 0 else 1 + Zeros(s[1..])
  {
  }

  /** The decimal text of every number above -10^9 reads back as the number; below, the sign is lost, because ten digits
      leave it no place. */
  lemma DecimalRoundTrip(val: Printable)
    ensures ParamValue(FormatText(val, 0, false, 10, false), false) == Some(if val > -1000000000 then val else -val)
    ensures FormatText(val, 0, true, 10, false) == FormatText(val, 0, false, 10, false)
  {
    hide Dec, Pow10, FoldDec, DecFrom, Int32, Zeros, FormatText, Render10;
    PowerOf10();
    var n: nat := if val < 0 then -val else val;
    var s := Dec(n, 10);
    TrimmedDec(n, 10);
    var c := Zeros(s);
    UnsignedText(val, s, c);
    var text := FormatText(val, 0, false, 10, false);
    if n == 0 {
      assert text == "0";
      ZeroReads();
    } else if val >= 0 || c == 0 {
      assert text[0] == s[c] != '0';
      assert text[0..] == text;
      ReadsDigits(text, 0, 0);
    } else {
      NegativeText(val, s, c);
      assert text[1..] == s[c..];
      ReadsDigits(text, 1, 0);
      var minus: int := 0 - n;
      Int32Small(minus);
    }
  }

  lemma ZeroReads()
    ensures DecFrom("0", 0, 0) == 0
  {
    Int32Small(0);
  }

  lemma UnsignedText(val: Printable, s: string, c: nat)
    requires (val < 0 ==> -val < Pow10(10) && s == Dec(-val, 10)) && (val >= 0 ==> val < Pow10(10) && s == Dec(val, 10))
    requires c == Zeros(s)
    ensures FormatText(val, 0, true, 10, false) == FormatText(val, 0, false, 10, false)
    ensures val >= 0 || c == 0 ==> FormatText(val, 0, false, 10, false) == if c == 10 then "0" else s[c..]
  {
    hide Dec, Pow10;
    assert val >= 0 || c == 0 ==> Render10(val) == s;
    assert "" + (if c == 10 then "0" else s[c..]) == if c == 10 then "0" else s[c..];
  }

  lemma NegativeText(val: Printable, s: string, c: nat)
    requires val < 0 && -val < Pow10(10) && s == Dec(-val, 10) && c == Zeros(s) && 0 < c < 10
    ensures FormatText(val, 0, false, 10, false) == "-" + s[c..]
  {
    hide Dec, Pow10, Zeros;
    var pb := Render10(val);
    assert pb == s[c - 1 := '-'];
    ZerosIs(pb, c - 1);
    assert pb[c - 1..] == "-" + s[c..];
    assert "" + pb[c - 1..] == pb[c - 1..];
  }

  /** The exact condition. */
  lemma DecimalRoundTripIff(val: Printable)
    ensures ParamValue(FormatText(val, 0, false, 10, false), false) == Some(val) <==> val > -1000000000
  {
    DecimalRoundTrip(val);
  }

  // ----- hexadecimal -----

  predicate AllHexDigits(s: string) {
    forall k :: 0 <= k < |s| ==> HexDigit(s[k]).Some?
  }

  function FoldHex(s: string, acc: int): int
    requires AllHexDigits(s)
  {
    if s == [] then acc else FoldHex(s[1..], Int32(Int32(acc * 16) + HexDigit(s[0]).value))
  }

  lemma {:induction false} ReadsHex(text: string, i: nat, acc: int)
    requires i <= |text| && AllHexDigits(text[i..])
    ensures ConstHex(text, i, acc) == FoldHex(text[i..], acc)
    decreases |text| - i
  {
    if i < |text| {
      var rest := text[i..];
      assert rest[0] == text[i] && rest[1..] == text[i + 1..];
      ReadsHex(text, i + 1, Int32(Int32(acc * 16) + HexDigit(text[i]).value));
    }
  }

  lemma Int32Shift(acc: int, d: int)
    ensures Int32(Int32(acc * 16) + d) == Int32(acc * 16 + d)
  {
    var w: int := Wrap(acc * 16);
    WrapWrap(acc * 16, d);
    WrapPeriod(w + d, -1);
  }

  lemma Int32Mul(acc: int, d: int)
    ensures Int32(Int32(acc) * 16 + d) == Int32(acc * 16 + d)
  {
    var w: int := Wrap(acc);
    WrapIsMod(acc);
    var q := acc / 0x1_0000_0000;
    assert acc == 0x1_0000_0000 * q + w;
    WrapPeriod(w * 16 + d, 16 * q);
    WrapPeriod(w * 16 + d, -16);
  }

  lemma {:induction false} FoldsAppend(s: string, t: string, acc: int)
    requires AllHexDigits(s) && AllHexDigits(t)
    ensures AllHexDigits(s + t) && FoldHex(s + t, acc) == FoldHex(t, FoldHex(s, acc))
  {
    if s == [] {
      assert s + t == t;
    } else {
      assert (s + t)[1..] == s[1..] + t;
      FoldsAppend(s[1..], t, Int32(Int32(acc * 16) + HexDigit(s[0]).value));
    }
  }

  function Pow16(k: nat): nat {
    if k == 0 then 1 else 16 * Pow16(k - 1)
  }

  /** Reading the hexadecimal digits of n gives n, as a 32-bit number. */
  lemma {:induction false} FoldsHex(n: nat, k: nat)
    requires n < Pow16(k)
    ensures AllHexDigits(Hex(n, k)) && FoldHex(Hex(n, k), 0) == Int32(n)
    decreases k
  {
    if k > 0 {
      DigitBound16(n, Pow16(k - 1));
      FoldsHex(n / 16, k - 1);
      var last := [DigitChar(n % 16)];
      assert HexDigit(last[0]) == Some(n % 16);
      FoldsAppend(Hex(n / 16, k - 1), last, 0);
      assert last[1..] == [];
      Int32Shift(Int32(n / 16), n % 16);
      Int32Mul(n / 16, n % 16);
    } else {
      Int32Small(0);
    }
  }

  lemma DigitBound16(n: nat, w: nat)
    requires n < 16 * w
    ensures 0 <= n / 16 < w
  {
  }

  lemma {:induction false} TrimmedHex(s: string)
    requires AllHexDigits(s)
    ensures AllHexDigits(s[Zeros(s)..]) && FoldHex(s[Zeros(s)..], 0) == FoldHex(s, 0)
  {
    if s != [] && s[0] == '0' {
      Int32Small(0);
      TrimmedHex(s[1..]);
      assert s[Zeros(s)..] == s[1..][Zeros(s[1..])..];
    } else {
      assert s[0..] == s;
    }
  }

  lemma Prefixed(digits: string)
    requires AllHexDigits(digits)
    ensures ConstValue("0x" + digits) == FoldHex(digits, 0)
  {
    var text := "0x" + digits;
    assert text[2..] == digits;
    Int32Small(0);
    assert ConstFrom(text, 0, 0) == ConstFrom(text, 1, 0);
    ReadsHex(text, 2, 0);
  }

  /** Every word has its value in its nine digits, of which the first is 0. */
  lemma HexDigitsOf(val: CInt)
    ensures var digits := Hex(Wrap(val), 9);
            && AllHexDigits(digits) && AllHexDigits(digits[1..]) && digits[0] == '0'
            && FoldHex(digits, 0) == val && FoldHex(digits[1..], 0) == val
  {
    hide Hex, Wrap;
    var w := Wrap(val);
    var digits := Hex(w, 9);
    assert Pow16(4) == 0x1_0000 && Pow16(8) == 0x1_0000_0000;
    FoldsHex(w, 9);
    TopDigit(w, 9);
    Int32Small(val);
    Int32Small(0);
    assert Int32(w) == val by { WrapWrap(val, 0); }
  }

  /** The prefixed hexadecimal text of every number reads back as the number, unpadded or padded with zeros to ten
      characters. */
  lemma HexRoundTrip(val: CInt, zeropad: bool)
    ensures ConstValue(FormatText(val, 0, zeropad, 16, true)) == val
    ensures ConstValue(FormatText(val, 10, true, 16, true)) == val
  {
    hide Hex, Wrap, FormatText, Zeros, ConstValue, FoldHex;
    var pb := Render16(Wrap(val));
    HexDigitsOf(val);
    assert pb[1..] == Hex(Wrap(val), 9);
    FoldZero(pb);
    FoldZero(pb[1..]);
    TrimmedHex(pb);
    TextUnpadded(val, zeropad, pb);
    var digits := if Zeros(pb) == 10 then "0" else pb[Zeros(pb)..];
    if Zeros(pb) == 10 {
      assert pb[10..] == [] && "0"[1..] == [];
      FoldZero("0");
    }
    Prefixed(digits);
    TextPadded(val, pb);
    assert pb[1..][1..] == pb[2..];
    Prefixed(pb[2..]);
  }

  lemma FoldZero(s: string)
    requires s != [] && s[0] == '0' && AllHexDigits(s[1..])
    ensures AllHexDigits(s) && FoldHex(s, 0) == FoldHex(s[1..], 0)
  {
    forall k | 0 <= k < |s| ensures HexDigit(s[k]).Some? {
      if k > 0 { assert s[1..][k - 1] == s[k]; }
    }
    Int32Small(0);
  }

  lemma TextUnpadded(val: CInt, zeropad: bool, pb: string)
    requires pb == Render16(Wrap(val))
    ensures FormatText(val, 0, zeropad, 16, true) == "0x" + if Zeros(pb) == 10 then "0" else pb[Zeros(pb)..]
  {
  }

  lemma TextPadded(val: CInt, pb: string)
    requires pb == Render16(Wrap(val))
    ensures FormatText(val, 10, true, 16, true) == "0x" + pb[2..]
  {
    var s := pb[2..];
    assert Padded(s, '0') == s by {
      assert s == s[..Zeros(s)] + s[Zeros(s)..];
      assert s[..Zeros(s)] == Filled('0', Zeros(s));
    }
  }

  lemma {:induction false} TopDigit(n: nat, k: nat)
    requires k > 0 && n < Pow16(k - 1)
    ensures Hex(n, k)[0] == '0'
    decreases k
  {
    if k > 1 {
      DigitBound16(n, Pow16(k - 2));
      TopDigit(n / 16, k - 1);
    }
  }
}
