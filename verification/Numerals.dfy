/** What the two number readers make of a written number, by the weights of its digits. */
module Numerals {
  import opened Words
  import opened Numbers

  /** A digit as written: its value and, above nine, whether the letter is upper case. */
  datatype Figure = Figure(value: nat, upper: bool)

  function FigureChar(f: Figure): char {
    match f.value
    case 0 => '0'
    case 1 => '1'
    case 2 => '2'
    case 3 => '3'
    case 4 => '4'
    case 5 => '5'
    case 6 => '6'
    case 7 => '7'
    case 8 => '8'
    case 9 => '9'
    case 10 => if f.upper then 'A' else 'a'
    case 11 => if f.upper then 'B' else 'b'
    case 12 => if f.upper then 'C' else 'c'
    case 13 => if f.upper then 'D' else 'd'
    case 14 => if f.upper then 'E' else 'e'
    case _ => if f.upper then 'F' else 'f'
  }

  function Text(fs: seq<Figure>): (s: string)
    ensures |s| == |fs| && forall k :: 0 <= k < |fs| ==> s[k] == FigureChar(fs[k])
  {
    if fs == [] then [] else [FigureChar(fs[0])] + Text(fs[1..])
  }

  predicate Below(base: nat, fs: seq<Figure>) {
    forall k :: 0 <= k < |fs| ==> fs[k].value < base
  }

  function Power(base: nat, k: nat): nat {
    if k == 0 then 1 else base * Power(base, k - 1)
  }

  /** Every digit times its weight. */
  function Weighted(base: nat, fs: seq<Figure>): nat {
    if fs == [] then 0 else fs[0].value * Power(base, |fs| - 1) + Weighted(base, fs[1..])
  }

  lemma FigureReads(f: Figure)
    requires f.value < 16
    ensures HexDigit(FigureChar(f)) == Some(f.value) && IsHex(FigureChar(f))
    ensures FigureChar(f) != 'x' && FigureChar(f) != 'X' && FigureChar(f) != '-' && FigureChar(f) != '\0'
    ensures IsDigit(FigureChar(f)) <==> f.value < 10
    ensures f.value < 10 ==> FigureChar(f) as int - '0' as int == f.value
  {
  }

  /** Cutting to 32 bits on the way does not change the result. */
  lemma CutEarly(x: int, k: nat, y: int)
    ensures Int32(Int32(x) * k + y) == Int32(x * k + y)
  {
    var w: int := Wrap(x);
    WrapIsMod(x);
    var q := x / 0x1_0000_0000;
    assert x == 0x1_0000_0000 * q + w;
    var c := if w >= 0x8000_0000 then 1 else 0;
    assert Int32(x) == w - 0x1_0000_0000 * c;
    Shifted(w, k, y, q);
    Shifted(w, k, y, -c);
  }

  lemma Shifted(w: int, k: nat, y: int, q: int)
    ensures Wrap((w + 0x1_0000_0000 * q) * k + y) == Wrap(w * k + y)
  {
    assert (w + 0x1_0000_0000 * q) * k + y == (w * k + y) + 0x1_0000_0000 * (q * k);
    WrapPeriod(w * k + y, q * k);
  }

  /** One digit more in front of the rest. */
  lemma OneFigure(base: nat, acc: int, f: Figure, rest: seq<Figure>)
    ensures Int32(Int32(acc * base + f.value) * Power(base, |rest|) + Weighted(base, rest))
         == Int32(acc * Power(base, |rest| + 1) + Weighted(base, [f] + rest))
  {
    var fs, p := [f] + rest, Power(base, |rest|);
    assert fs[1..] == rest && fs[0] == f;
    assert Weighted(base, fs) == f.value * p + Weighted(base, rest) && Power(base, |rest| + 1) == base * p;
    hide Int32, Power, Weighted;
    Spread(acc, base, p, f.value);
    CutEarly(acc * base + f.value, p, Weighted(base, rest));
  }

  lemma Spread(a: int, b: int, p: int, d: int)
    ensures (a * b + d) * p == a * (b * p) + d * p
  {
    assert (a * b + d) * p == (a * b) * p + d * p;
    Associate(a, b, p);
  }

  lemma Associate(a: int, b: int, p: int)
    ensures (a * b) * p == a * (b * p)
  {
  }

  /** What is left to be read of a text from place i on. */
  predicate Ahead(text: string, i: nat, fs: seq<Figure>) {
    i + |fs| == |text| && forall k :: 0 <= k < |fs| ==> text[i + k] == FigureChar(fs[k])
  }

  lemma AheadNext(text: string, i: nat, fs: seq<Figure>)
    requires Ahead(text, i, fs) && fs != []
    ensures CharAt(text, i) == FigureChar(fs[0]) && Ahead(text, i + 1, fs[1..]) && fs == [fs[0]] + fs[1..]
    ensures CharAt(text, i + 1) == if |fs| > 1 then FigureChar(fs[1]) else '\0'
  {
    if |fs| > 1 { assert text[i + 1] == FigureChar(fs[1]); }
    forall k | 0 <= k < |fs[1..]| ensures text[i + 1 + k] == FigureChar(fs[1..][k]) {
      assert text[i + (k + 1)] == FigureChar(fs[k + 1]);
    }
  }

  lemma {:induction false} DecimalAhead(text: string, i: nat, fs: seq<Figure>, acc: int)
    requires Ahead(text, i, fs) && Below(10, fs) && fs != []
    ensures DecFrom(text, i, acc) == Int32(acc * Power(10, |fs|) + Weighted(10, fs))
    decreases |fs|
  {
    hide Int32, FigureChar, Power, Weighted, DecFrom;
    AheadNext(text, i, fs);
    FigureReads(fs[0]);
    var rest := fs[1..];
    if rest != [] { FigureReads(fs[1]); }
    var v := Int32(acc * 10 + fs[0].value);
    DecimalUnfold(text, i, acc, fs[0].value);
    OneFigure(10, acc, fs[0], rest);
    if rest == [] {
      NoneAhead(10, v);
      CutTwice(acc * 10 + fs[0].value);
    } else {
      DecimalAhead(text, i + 1, rest, v);
    }
  }

  lemma DecimalUnfold(text: string, i: nat, acc: int, d: nat)
    requires CharAt(text, i) as int - '0' as int == d
    ensures var v := Int32(acc * 10 + d);
            DecFrom(text, i, acc) == if IsDigit(CharAt(text, i + 1)) then DecFrom(text, i + 1, v) else v
  {
  }

  lemma NoneAhead(base: nat, v: int)
    ensures v * Power(base, 0) + Weighted(base, []) == v
  {
  }

  lemma CutTwice(x: int)
    ensures Int32(Int32(x)) == Int32(x)
  {
    CutEarly(x, 1, 0);
  }

  lemma {:induction false} HexadecimalAhead(text: string, i: nat, fs: seq<Figure>, acc: int)
    requires Ahead(text, i, fs) && Below(16, fs) && fs != []
    ensures HexFrom(text, i, acc) == Some(Int32(acc * Power(16, |fs|) + Weighted(16, fs)))
    decreases |fs|
  {
    hide Int32, FigureChar, Power, Weighted, HexFrom, HexDigit;
    AheadNext(text, i, fs);
    FigureReads(fs[0]);
    var rest := fs[1..];
    if rest != [] { FigureReads(fs[1]); }
    var v := Int32(acc * 16 + fs[0].value);
    HexadecimalUnfold(text, i, acc, fs[0].value);
    OneFigure(16, acc, fs[0], rest);
    if rest == [] {
      NoneAhead(16, v);
      CutTwice(acc * 16 + fs[0].value);
    } else {
      HexadecimalAhead(text, i + 1, rest, v);
    }
  }

  lemma HexadecimalUnfold(text: string, i: nat, acc: int, d: nat)
    requires HexDigit(CharAt(text, i)) == Some(d)
    ensures var v := Int32(acc * 16 + d);
            HexFrom(text, i, acc) == if IsHex(CharAt(text, i + 1)) then HexFrom(text, i + 1, v) else Some(v)
  {
  }

  lemma {:induction false} ConstDecimalAhead(text: string, i: nat, fs: seq<Figure>, acc: int)
    requires Ahead(text, i, fs) && Below(10, fs) && Int32(acc) == acc
    ensures ConstFrom(text, i, acc) == Int32(acc * Power(10, |fs|) + Weighted(10, fs))
    decreases |fs|
  {
    hide Int32, FigureChar, Power, Weighted, ConstFrom;
    if fs == [] {
      NoneAhead(10, acc);
      ConstEnd(text, i, acc);
    } else {
      AheadNext(text, i, fs);
      FigureReads(fs[0]);
      ConstUnfold(text, i, acc, fs[0].value);
      OneFigure(10, acc, fs[0], fs[1..]);
      CutTwice(acc * 10 + fs[0].value);
      ConstDecimalAhead(text, i + 1, fs[1..], Int32(acc * 10 + fs[0].value));
    }
  }

  lemma ConstEnd(text: string, i: nat, acc: int)
    requires i == |text|
    ensures ConstFrom(text, i, acc) == ConstHex(text, i, acc) == acc
  {
  }

  lemma ConstUnfold(text: string, i: nat, acc: int, d: nat)
    requires i < |text| && text[i] as int - '0' as int == d < 10
    ensures ConstFrom(text, i, acc) == ConstFrom(text, i + 1, Int32(acc * 10 + d))
  {
  }

  lemma {:induction false} ConstHexAhead(text: string, i: nat, fs: seq<Figure>, acc: int)
    requires Ahead(text, i, fs) && Below(16, fs) && Int32(acc) == acc
    ensures ConstHex(text, i, acc) == Int32(acc * Power(16, |fs|) + Weighted(16, fs))
    decreases |fs|
  {
    hide Int32, FigureChar, Power, Weighted, ConstHex, HexDigit;
    if fs == [] {
      NoneAhead(16, acc);
      ConstEnd(text, i, acc);
    } else {
      AheadNext(text, i, fs);
      FigureReads(fs[0]);
      ConstHexUnfold(text, i, acc, fs[0].value);
      OneFigure(16, acc, fs[0], fs[1..]);
      CutTwice(acc * 16 + fs[0].value);
      ConstHexAhead(text, i + 1, fs[1..], Int32(acc * 16 + fs[0].value));
    }
  }

  lemma ConstHexUnfold(text: string, i: nat, acc: int, d: nat)
    requires i < |text| && HexDigit(text[i]) == Some(d)
    ensures ConstHex(text, i, acc) == ConstHex(text, i + 1, Int32(acc * 16 + d))
  {
    Int32Shift(acc, d);
    assert text[i] != '\0';
  }

  // ----- the readers -----

  function Prefix(upper: bool): string {
    if upper then "0X" else "0x"
  }

  lemma TextAhead(front: string, fs: seq<Figure>)
    ensures Ahead(front + Text(fs), |front|, fs)
  {
  }

  /** A decimal number, in an expression or as a constant. */
  lemma DecimalReads(fs: seq<Figure>, neg: bool)
    requires Below(10, fs) && fs != []
    ensures ConstValue(Text(fs)) == Int32(Weighted(10, fs))
    ensures ParamValue(Text(fs), neg) == Some(Negation(neg, Int32(Weighted(10, fs))))
  {
    hide Int32, Power, Weighted, DecFrom, ConstFrom, FigureChar, HexFrom;
    TextAhead("", fs);
    assert "" + Text(fs) == Text(fs);
    FigureReads(fs[0]);
    if |fs| > 1 { FigureReads(fs[1]); }
    ZeroInt();
    DecimalAhead(Text(fs), 0, fs, 0);
    ConstDecimalAhead(Text(fs), 0, fs, 0);
  }

  lemma ZeroInt()
    ensures Int32(0) == 0
  {
  }

  /** A hexadecimal one, its letters in either case. */
  lemma HexadecimalReads(fs: seq<Figure>, neg: bool)
    requires Below(16, fs) && fs != []
    ensures ConstValue(Prefix(false) + Text(fs)) == Int32(Weighted(16, fs))
    ensures ParamValue(Prefix(false) + Text(fs), neg) == Some(Negation(neg, Int32(Weighted(16, fs))))
  {
    hide Int32, Power, Weighted, DecFrom, ConstHex, FigureChar, HexFrom;
    var text := Prefix(false) + Text(fs);
    TextAhead(Prefix(false), fs);
    ZeroInt();
    HexadecimalAhead(text, 2, fs, 0);
    ConstHexAhead(text, 2, fs, 0);
    ConstPrefix(text);
  }

  lemma ConstPrefix(text: string)
    requires |text| >= 2 && text[0] == '0' && (text[1] == 'x' || text[1] == 'X')
    ensures ConstValue(text) == ConstHex(text, 2, 0)
  {
    ZeroInt();
    ConstUnfold(text, 0, 0, 0);
  }

  /** Behind an upper-case prefix a constant has its value, but in an expression the number is 0: the test looks for the
      X in the wrong place. */
  lemma UpperPrefixReads(fs: seq<Figure>, neg: bool)
    requires Below(16, fs)
    ensures ConstValue(Prefix(true) + Text(fs)) == Int32(Weighted(16, fs))
    ensures ParamValue(Prefix(true) + Text(fs), neg) == Some(0)
  {
    hide Int32, Power, Weighted, ConstHex, FigureChar, HexFrom;
    var text := Prefix(true) + Text(fs);
    TextAhead(Prefix(true), fs);
    ZeroInt();
    ConstHexAhead(text, 2, fs, 0);
    ConstPrefix(text);
    DecimalUnfold(text, 0, 0, 0);
  }

  // ----- written numbers -----

  /** The value a decimal or prefixed hexadecimal text has by the weights of its digits. */
  ghost predicate Denotes(text: string, n: nat) {
    exists base: nat, fs: seq<Figure> :: Writes(text, base, fs) && n == Weighted(base, fs)
  }

  predicate Writes(text: string, base: nat, fs: seq<Figure>) {
    && fs != [] && Below(base, fs)
    && ((base == 10 && text == Text(fs)) || (base == 16 && text == Prefix(false) + Text(fs)))
  }

  /** Both readers give that value, cut to 32 bits; only the one for expressions looks at a sign. */
  lemma DenotedReads(text: string, n: nat, neg: bool)
    requires Denotes(text, n)
    ensures ConstValue(text) == Int32(n) && ParamValue(text, neg) == Some(Negation(neg, Int32(n)))
  {
    hide Int32, Weighted, Text;
    var base: nat, fs: seq<Figure> :| Writes(text, base, fs) && n == Weighted(base, fs);
    if base == 10 { DecimalReads(fs, neg); } else { HexadecimalReads(fs, neg); }
  }

  // ----- the texts printed -----

  function Figures(s: string): (fs: seq<Figure>)
    requires AllHexDigits(s)
    ensures |fs| == |s| && Below(16, fs) && Text(fs) == s
    ensures AllDigits(s) ==> Below(10, fs)
  {
    if s == [] then []
    else
      FigureBack(s[0]);
      [Figure(HexDigit(s[0]).value, 'A' <= s[0] <= 'F')] + Figures(s[1..])
  }

  lemma FigureBack(c: char)
    requires HexDigit(c).Some?
    ensures HexDigit(c).value < 16 && FigureChar(Figure(HexDigit(c).value, 'A' <= c <= 'F')) == c
    ensures IsDigit(c) ==> HexDigit(c).value < 10
  {
  }

  lemma DigitsDenote(s: string)
    requires s != [] && AllDigits(s)
    ensures exists n: nat :: Denotes(s, n)
  {
    hide Text, Weighted;
    forall k | 0 <= k < |s| ensures HexDigit(s[k]).Some? {}
    assert Writes(s, 10, Figures(s));
    assert Denotes(s, Weighted(10, Figures(s)));
  }

  lemma DigitsAgree(s: string, neg: bool)
    requires s != [] && AllDigits(s)
    ensures ParamValue(s, neg) == Some(Negation(neg, ConstValue(s)))
  {
    hide Int32, Weighted, Text, ConstValue, ParamValue;
    forall k | 0 <= k < |s| ensures HexDigit(s[k]).Some? {}
    DecimalReads(Figures(s), neg);
  }

  lemma HexDigitsAgree(s: string, neg: bool)
    requires s != [] && AllHexDigits(s)
    ensures ParamValue("0x" + s, neg) == Some(Negation(neg, ConstValue("0x" + s)))
  {
    hide Int32, Weighted, Text, ConstValue, ParamValue;
    HexadecimalReads(Figures(s), neg);
  }

  /** The decimal text of every number that is not negative, read as a constant. */
  lemma DecimalConstant(n: int)
    requires 0 <= n <= 0x7FFF_FFFF
    ensures ConstValue(FormatText(n, 0, false, 10, false)) == n
  {
    hide ConstValue, ParamValue, FormatText;
    DigitsOnly(n);
    DigitsAgree(FormatText(n, 0, false, 10, false), false);
    DecimalRoundTrip(n);
  }

  lemma DigitsOnly(n: int)
    requires 0 <= n <= 0x7FFF_FFFF
    ensures var text := FormatText(n, 0, false, 10, false); text != [] && AllDigits(text)
  {
    hide Dec, Pow10, Zeros, FormatText;
    PowerOf10();
    var s := Dec(n, 10);
    TrimmedDec(n, 10);
    UnsignedText(n, s, Zeros(s));
  }

  /** The prefixed hexadecimal text of every 32-bit value, unpadded or padded with zeros to ten characters, read in an
      expression, under a minus or not. */
  lemma HexadecimalParam(val: CInt, zeropad: bool, neg: bool)
    ensures ParamValue(FormatText(val, 0, zeropad, 16, true), neg) == Some(Negation(neg, val))
    ensures ParamValue(FormatText(val, 10, true, 16, true), neg) == Some(Negation(neg, val))
  {
    hide ConstValue, ParamValue, FormatText, Hex, Wrap, Zeros, FoldHex;
    var pb := Render16(Wrap(val));
    HexDigitsOf(val);
    assert pb[1..] == Hex(Wrap(val), 9);
    FoldZero(pb);
    TextUnpadded(val, zeropad, pb);
    TextPadded(val, pb);
    HexRoundTrip(val, zeropad);
    assert AllHexDigits(pb[2..]) by { assert pb[1..][1..] == pb[2..]; }
    HexDigitsAgree(pb[2..], neg);
    var digits := if Zeros(pb) == 10 then "0" else pb[Zeros(pb)..];
    assert AllHexDigits(digits) && digits != [];
    HexDigitsAgree(digits, neg);
  }

  // ----- widths -----

  /** Printed in a width that is large enough, a number keeps its text, behind padding; only zero between blanks loses
      its digit. */
  lemma WidthKeepsText(val: CInt, width: nat, zeropad: bool, b: int)
    requires CanRender(val, b) && width > 0
    ensures var t := FormatText(val, 0, zeropad, b, false);
            var u := FormatText(val, width, zeropad, b, false);
            var pad := if zeropad then '0' else ' ';
            && |u| == width
            && (|t| <= width && (val != 0 || zeropad) ==> u == Filled(pad, width - |t|) + t)
            && (val == 0 && !zeropad ==> u == Filled(pad, width))
  {
    hide Rendered, Filled, Zeros, InWidth, FormatText;
    var pb, pad := Rendered(val, b), if zeropad then '0' else ' ';
    NoPrefix(val, 0, zeropad, b);
    NoPrefix(val, width, zeropad, b);
    ZeroIff(val, b);
    InWidthIs(pb, pad, width);
    if val == 0 {
      FilledJoin(pad, width - 1, 1);
      assert Filled(pad, width) + pb[10..] == Filled(pad, width);
    }
  }

  /** The digits in a width, with leading zeros padded. */
  function InWidth(pb: string, pad: char, width: nat): string
    requires |pb| == 10
  {
    if width > 10 then Filled(pad, width - 10) + Padded(pb, pad) else Padded(pb[10 - width..], pad)
  }

  lemma InWidthIs(pb: string, pad: char, width: nat)
    requires |pb| == 10
    ensures |InWidth(pb, pad, width)| == width
    ensures 10 - Zeros(pb) <= width ==>
              InWidth(pb, pad, width) == Filled(pad, width - (10 - Zeros(pb))) + pb[Zeros(pb)..]
  {
    hide Filled, Zeros, Padded;
    var z := Zeros(pb);
    if width > 10 {
      FilledJoin(pad, width - 10, z);
      PaddedWhole(pb, pad);
      assert Filled(pad, width - 10) + (Filled(pad, z) + pb[z..]) == Filled(pad, width - 10) + Filled(pad, z) + pb[z..];
    } else {
      PaddedPart(pb, pad, 10 - width);
    }
  }

  lemma NoPrefix(val: CInt, width: nat, zeropad: bool, b: int)
    requires CanRender(val, b)
    ensures var pb, pad := Rendered(val, b), if zeropad then '0' else ' ';
            var text := if width == 0 then (if Zeros(pb) == 10 then "0" else pb[Zeros(pb)..])
                        else InWidth(pb, pad, width);
            FormatText(val, width, zeropad, b, false) == text
  {
    hide Rendered, Filled, Zeros, Padded;
  }

  lemma PaddedWhole(pb: string, pad: char)
    ensures Padded(pb, pad) == Filled(pad, Zeros(pb)) + pb[Zeros(pb)..]
  {
  }

  lemma {:induction false} FilledJoin(c: char, m: nat, n: nat)
    ensures Filled(c, m) + Filled(c, n) == Filled(c, m + n) && Filled(c, 1) == [c]
  {
    forall k | 0 <= k < m + n ensures (Filled(c, m) + Filled(c, n))[k] == c {}
  }

  /** Cutting leading zeros off the front. */
  lemma PaddedPart(pb: string, pad: char, cut: nat)
    requires cut <= |pb|
    ensures cut <= Zeros(pb) ==> Padded(pb[cut..], pad) == Filled(pad, Zeros(pb) - cut) + pb[Zeros(pb)..]
  {
    if cut <= Zeros(pb) {
      var s := pb[cut..];
      ZerosIs(s, Zeros(pb) - cut);
      assert s[Zeros(s)..] == pb[Zeros(pb)..];
    }
  }

  lemma ZeroIff(val: CInt, b: int)
    requires CanRender(val, b)
    ensures Zeros(Rendered(val, b)) == 10 <==> val == 0
  {
    hide Dec, Hex, Pow10, Zeros, Wrap, FoldHex;
    var pb := Rendered(val, b);
    if b == 10 {
      PowerOf10();
      var n: nat := if val < 0 then -val else val;
      SmallZeros(n);
      var c := Zeros(Dec(n, 10));
      if val < 0 && c > 0 { assert pb[c - 1] == '-'; }
    } else {
      HexDigitsOf(val);
      if val == 0 {
        NoHex(9);
        SmallWrap(0);
        ZerosIs(pb, 10);
      } else if Zeros(pb) == 10 {
        NoValue(pb[1..]);
        assert false;
      }
    }
  }

  lemma SmallZeros(n: nat)
    requires n < 0x8000_0000
    ensures n < Pow10(10) && (Zeros(Dec(n, 10)) == 10 <==> n == 0)
  {
    hide Dec, Pow10, Zeros;
    PowerOf10();
    TrimmedDec(n, 10);
  }

  lemma {:induction false} NoHex(k: nat)
    ensures forall j :: 0 <= j < k ==> Hex(0, k)[j] == '0'
  {
    if k > 0 { NoHex(k - 1); }
  }

  lemma {:induction false} NoValue(s: string)
    requires AllHexDigits(s) && forall k :: 0 <= k < |s| ==> s[k] == '0'
    ensures FoldHex(s, 0) == 0
  {
    if s != [] {
      ZeroInt();
      NoValue(s[1..]);
    }
  }

  /** So the text printed ends in the number's text if and only if that fits the width and is not zero between
      blanks. */
  lemma WidthKeepsIff(val: CInt, width: nat, zeropad: bool, b: int)
    requires CanRender(val, b) && width > 0
    ensures var t := FormatText(val, 0, zeropad, b, false);
            var u := FormatText(val, width, zeropad, b, false);
            var kept := |t| <= |u| && u[|u| - |t|..] == t;
            kept <==> |t| <= width && (val != 0 || zeropad)
  {
    hide FormatText;
    WidthKeepsText(val, width, zeropad, b);
    var t, u := FormatText(val, 0, zeropad, b, false), FormatText(val, width, zeropad, b, false);
    if val == 0 {
      ZeroText(zeropad, b);
      if !zeropad { assert u[|u| - 1..][0] == ' '; }
    }
    if |t| <= width && (val != 0 || zeropad) { assert u[width - |t|..] == t; }
  }

  lemma ZeroText(zeropad: bool, b: int)
    requires CanRender(0, b)
    ensures FormatText(0, 0, zeropad, b, false) == "0"
  {
    hide Rendered, InWidth;
    ZeroIff(0, b);
    NoPrefix(0, 0, zeropad, b);
  }
}
