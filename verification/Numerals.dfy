/** Positional numerals: what Go's %x prints and strconv.ParseUint reads, and big-endian fixed-width integers. */
module Numerals {
  import opened Results
  import opened Text

  const TWO_TO_THE_64: nat := 0x1_0000_0000_0000_0000

  function Pow(base: nat, e: nat): nat {
    if e == 0 then 1 else base * Pow(base, e - 1)
  }

  // A Go string is a string of bytes.
  type Bytes = seq<Byte>

  const DIGIT_0: Byte := 48
  const UPPER_A: Byte := 65
  const LOWER_A: Byte := 97

  function DigitChar(d: nat): Byte
    requires d < 16
  {
    if d < 10 then DIGIT_0 + d else LOWER_A + (d - 10)
  }

  // The value of a digit or letter in either case; other bytes have none.
  function DigitOf(c: Byte): Option<nat> {
    if DIGIT_0 <= c < DIGIT_0 + 10 then Some(c - DIGIT_0)
    else if LOWER_A <= c < LOWER_A + 26 then Some(c - LOWER_A + 10)
    else if UPPER_A <= c < UPPER_A + 26 then Some(c - UPPER_A + 10)
    else None
  }

  predicate IsDigit(c: Byte, base: nat) {
    DigitOf(c).Some? && DigitOf(c).value < base
  }

  predicate AllDigits(s: Bytes, base: nat) {
    forall i :: 0 <= i < |s| ==> IsDigit(s[i], base)
  }

  predicate IsNumeral(s: Bytes, base: nat) {
    s != [] && AllDigits(s, base)
  }

  // The number a digit string stands for.
  function Value(s: Bytes, base: nat): nat
    requires AllDigits(s, base)
  {
    if s == [] then 0 else Value(s[..|s| - 1], base) * base + DigitOf(s[|s| - 1]).value
  }

  // A number that does not fit the bit size is an error, as is anything but digits.
  function ParseUint(s: Bytes, base: nat, bits: nat): Result<nat> {
    if !IsNumeral(s, base) then Err
    else if Value(s, base) >= Pow(2, bits) then Err
    else Ok(Value(s, base))
  }

  function Zeros(n: nat): (z: Bytes)
    ensures |z| == n && forall i :: 0 <= i < n ==> z[i] == DIGIT_0
  {
    seq(n, _ => DIGIT_0)
  }

  function Hex(n: nat): (s: Bytes)
    ensures |s| >= 1
  {
    if n < 16 then [DigitChar(n)] else Hex(n / 16) + [DigitChar(n % 16)]
  }

  function HexPadded(n: nat, width: nat): Bytes {
    var s := Hex(n);
    if |s| < width then Zeros(width - |s|) + s else s
  }

  lemma DigitRoundTrip(d: nat)
    requires d < 16
    ensures DigitOf(DigitChar(d)) == Some(d)
  {
  }

  lemma {:induction false} HexValue(n: nat)
    ensures IsNumeral(Hex(n), 16) && Value(Hex(n), 16) == n
  {
    DigitRoundTrip(n % 16);
    if n >= 16 {
      HexValue(n / 16);
      var s := Hex(n);
      assert s[..|s| - 1] == Hex(n / 16);
    } else {
      assert Hex(n)[..0] == [];
    }
  }

  lemma {:induction false} HexLength(n: nat, k: nat)
    requires k >= 1 && n < Pow(16, k)
    ensures |Hex(n)| <= k
  {
    if n >= 16 {
      assert k > 1 by {
        assert Pow(16, 1) == 16 * Pow(16, 0);
      }
      HexLength(n / 16, k - 1);
    }
  }

  lemma {:induction false} PowPositive(base: nat, e: nat)
    requires base > 0
    ensures Pow(base, e) > 0
  {
    if e > 0 {
      PowPositive(base, e - 1);
    }
  }

  lemma {:induction false} PowAdd(base: nat, a: nat, b: nat)
    ensures Pow(base, a + b) == Pow(base, a) * Pow(base, b)
  {
    if a > 0 {
      PowAdd(base, a - 1, b);
      assert Pow(base, a + b) == base * Pow(base, a - 1 + b);
      Associate(base, Pow(base, a - 1), Pow(base, b));
    }
  }

  lemma Associate(x: nat, y: nat, z: nat)
    ensures x * (y * z) == x * y * z
  {
  }

  lemma {:induction false} PowMonotone(base: nat, a: nat, b: nat)
    requires base > 0 && a <= b
    ensures Pow(base, a) <= Pow(base, b)
  {
    if a < b {
      PowMonotone(base, a, b - 1);
      Scaled(base, Pow(base, b - 1));
    }
  }

  lemma Scaled(x: nat, y: nat)
    requires x > 0
    ensures x * y >= y
  {
  }

  lemma WidthOf64()
    ensures Pow(16, 16) == TWO_TO_THE_64 == Pow(2, 64)
    ensures Pow(2, 8) == 256
  {
    assert Pow(2, 8) == 256;
    PowAdd(2, 8, 8);
    PowAdd(2, 16, 16);
    PowAdd(2, 32, 32);
    assert Pow(16, 4) == 65536;
    PowAdd(16, 4, 4);
    PowAdd(16, 8, 8);
  }

  // A numeral read in two pieces.
  lemma {:induction false} ValueOfAppend(a: Bytes, b: Bytes, base: nat)
    requires AllDigits(a, base) && AllDigits(b, base)
    ensures AllDigits(a + b, base)
    ensures Value(a + b, base) == Value(a, base) * Pow(base, |b|) + Value(b, base)
  {
    if b == [] {
      assert a + b == a;
    } else {
      var k := |b| - 1;
      var s := a + b;
      assert s[..|s| - 1] == a + b[..k];
      ValueOfAppend(a, b[..k], base);
      Distribute(Value(a, base), Pow(base, k), Value(b[..k], base), base);
    }
  }

  lemma Distribute(x: nat, p: nat, y: nat, base: nat)
    ensures (x * p + y) * base == x * (base * p) + y * base
  {
  }

  lemma {:induction false} ValueBound(s: Bytes, base: nat)
    requires AllDigits(s, base)
    ensures Value(s, base) < Pow(base, |s|)
  {
    if s != [] {
      var k := |s| - 1;
      ValueBound(s[..k], base);
      ShiftBound(Value(s[..k], base), Pow(base, k), DigitOf(s[k]).value, base);
    }
  }

  lemma ShiftBound(v: nat, p: nat, d: nat, base: nat)
    requires v < p && d < base
    ensures v * base + d < base * p
  {
    assert (v + 1) * base <= p * base;
  }

  lemma LeadingZeros(n: nat, s: Bytes, base: nat)
    requires base >= 1 && AllDigits(s, base)
    ensures AllDigits(Zeros(n) + s, base)
    ensures Value(Zeros(n) + s, base) == Value(s, base)
  {
    ZerosValue(Zeros(n), base);
    ValueOfAppend(Zeros(n), s, base);
  }

  lemma {:induction false} ZerosValue(z: Bytes, base: nat)
    requires base >= 1 && forall i :: 0 <= i < |z| ==> z[i] == DIGIT_0
    ensures AllDigits(z, base)
    ensures Value(z, base) == 0
  {
    if z != [] {
      ZerosValue(z[..|z| - 1], base);
    }
  }

  /** Reading what %x printed gives the number back, whenever it fits the bit size. */
  lemma ParseHex(n: nat, bits: nat)
    requires n < Pow(2, bits)
    ensures ParseUint(Hex(n), 16, bits) == Ok(n)
  {
    HexValue(n);
  }

  lemma HexPaddedValue(n: nat, width: nat)
    requires width >= 1 && n < Pow(16, width)
    ensures |HexPadded(n, width)| == width
    ensures IsNumeral(HexPadded(n, width), 16) && Value(HexPadded(n, width), 16) == n
  {
    var s := Hex(n);
    HexLength(n, width);
    HexValue(n);
    if |s| < width {
      LeadingZeros(width - |s|, s, 16);
      assert HexPadded(n, width) == Zeros(width - |s|) + s;
    }
  }

  // n as width bytes, most significant first.
  function BigEndian(n: nat, width: nat): (b: seq<Byte>)
    ensures |b| == width
  {
    if width == 0 then [] else BigEndian(n / 256, width - 1) + [n % 256]
  }

  function FromBigEndian(b: seq<Byte>): nat {
    if b == [] then 0 else FromBigEndian(b[..|b| - 1]) * 256 + b[|b| - 1]
  }

  // The most significant byte comes first.
  lemma {:induction false} BigEndianDigits(n: nat, width: nat, i: nat)
    requires i < width
    ensures Pow(256, width - 1 - i) > 0
    ensures BigEndian(n, width)[i] == n / Pow(256, width - 1 - i) % 256
  {
    PowPositive(256, width - 1 - i);
    if i < width - 1 {
      BigEndianDigits(n / 256, width - 1, i);
      DivideTwice(n, Pow(256, width - 2 - i));
    }
  }

  lemma DivideTwice(n: nat, p: nat)
    requires p > 0
    ensures n / 256 / p == n / (256 * p)
  {
    var q, r := n / (256 * p), n % (256 * p);
    assert n == q * (256 * p) + r;
    var m := n / 256;
    assert q * p * 256 <= n < (q * p + p) * 256;
    assert q * p <= m < q * p + p;
    QuotientIs(m, p, q);
  }

  lemma QuotientIs(m: nat, p: nat, q: nat)
    requires p > 0 && q * p <= m < q * p + p
    ensures m / p == q
  {
    var d := m / p;
    assert d * p <= m < d * p + p;
    CancelLess(d, q + 1, p);
    CancelLess(q, d + 1, p);
  }

  lemma CancelLess(a: nat, b: nat, p: nat)
    requires a * p < b * p
    ensures a < b
  {
  }

  // "0", "ff" and "1a" are 0, 255 and 26; letters may be capital, and "g" is no hexadecimal digit.
  lemma HexVectors()
    ensures Hex(0) == [48] && Hex(255) == [102, 102] && Hex(26) == [49, 97]
    ensures IsNumeral([49, 65], 16) && Value([49, 65], 16) == 26
    ensures !IsNumeral([103], 16) && !IsNumeral([71], 16) && !IsNumeral([45], 16)
  {
    assert Hex(15) == [102] && Hex(1) == [49];
    assert [49, 65][..1] == [49] && [49][..0] == [];
    assert Value([49], 16) == 1;
    var g: Bytes, capital: Bytes, minus: Bytes := [103], [71], [45];
    assert !IsDigit(g[0], 16) && !IsDigit(capital[0], 16) && !IsDigit(minus[0], 16);
  }

  lemma {:induction false} BigEndianRoundTrip(n: nat, width: nat)
    requires n < Pow(256, width)
    ensures FromBigEndian(BigEndian(n, width)) == n
  {
    if width > 0 {
      BigEndianRoundTrip(n / 256, width - 1);
      var b := BigEndian(n, width);
      assert b[..|b| - 1] == BigEndian(n / 256, width - 1);
    }
  }

  lemma {:induction false} FromBigEndianRoundTrip(b: seq<Byte>)
    ensures FromBigEndian(b) < Pow(256, |b|)
    ensures BigEndian(FromBigEndian(b), |b|) == b
  {
    if b != [] {
      FromBigEndianRoundTrip(b[..|b| - 1]);
      var v := FromBigEndian(b[..|b| - 1]);
      assert FromBigEndian(b) / 256 == v && FromBigEndian(b) % 256 == b[|b| - 1];
    }
  }
}
