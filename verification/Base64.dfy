/**
 Unpadded base64 with the standard alphabet (sections 3.2 and 4 of RFC 4648), as the header codec uses it.
 Decoding skips carriage returns and line feeds and does not look at the unused low bits of the last character.
*/
module Base64 {
  import opened Results
  import opened Text

  type Sextet = v: int | 0 <= v < 64

  const CARRIAGE_RETURN: Byte := 13
  const LINE_FEED: Byte := 10

  function Letter(v: Sextet): (c: Byte)
    ensures c != CARRIAGE_RETURN && c != LINE_FEED && c != 58 && c != 59
  {
    if v < 26 then 65 + v
    else if v < 52 then 97 + (v - 26)
    else if v < 62 then 48 + (v - 52)
    else if v == 62 then 43
    else 47
  }

  function SextetOf(c: Byte): (r: Option<Sextet>)
    ensures r.Some? ==> Letter(r.value) == c
  {
    if 65 <= c < 91 then Some(c - 65)
    else if 97 <= c < 123 then Some(c - 97 + 26)
    else if 48 <= c < 58 then Some(c - 48 + 52)
    else if c == 43 then Some(62)
    else if c == 47 then Some(63)
    else None
  }

  function EncodedLen(n: nat): nat {
    n / 3 * 4 + (n % 3 * 8 + 5) / 6
  }

  function DecodedLen(n: nat): nat {
    n / 4 * 3 + n % 4 * 6 / 8
  }

  // The characters of one group of 1, 2 or 3 bytes.
  function EncodeGroup(g: seq<Byte>): (cs: seq<Byte>)
    requires 1 <= |g| <= 3
    ensures |cs| == |g| + 1
  {
    var b0, b1, b2 := g[0], if |g| > 1 then g[1] else 0, if |g| > 2 then g[2] else 0;
    [Letter(b0 / 4), Letter(b0 % 4 * 16 + b1 / 16)] +
    (if |g| > 1 then [Letter(b1 % 16 * 4 + b2 / 64)] else []) +
    (if |g| > 2 then [Letter(b2 % 64)] else [])
  }

  function Encode(s: seq<Byte>): seq<Byte> {
    if |s| == 0 then []
    else if |s| <= 3 then EncodeGroup(s)
    else EncodeGroup(s[..3]) + Encode(s[3..])
  }

  // The bytes of one group of 2, 3 or 4 characters; None when a character is outside the alphabet.
  function DecodeGroup(g: seq<Byte>): Option<seq<Byte>>
    requires 2 <= |g| <= 4
  {
    var v0, v1 := SextetOf(g[0]), SextetOf(g[1]);
    var v2 := if |g| > 2 then SextetOf(g[2]) else Some(0);
    var v3 := if |g| > 3 then SextetOf(g[3]) else Some(0);
    if v0.None? || v1.None? || v2.None? || v3.None? then None
    else
      var x0: int, x1: int, x2: int, x3: int := v0.value, v1.value, v2.value, v3.value;
      var b0: Byte, b1: Byte, b2: Byte := x0 * 4 + x1 / 16, x1 % 16 * 16 + x2 / 4, x2 % 4 * 64 + x3;
      Some([b0] + (if |g| > 2 then [b1] else []) + (if |g| > 3 then [b2] else []))
  }

  // A single left-over character is corrupt input.
  function DecodeLetters(cs: seq<Byte>): Option<seq<Byte>> {
    if |cs| == 0 then Some([])
    else if |cs| == 1 then None
    else if |cs| <= 4 then DecodeGroup(cs)
    else
      var head, tail := DecodeGroup(cs[..4]), DecodeLetters(cs[4..]);
      if head.None? || tail.None? then None else Some(head.value + tail.value)
  }

  function WithoutLineBreaks(cs: seq<Byte>): seq<Byte> {
    if cs == [] then []
    else if cs[0] == CARRIAGE_RETURN || cs[0] == LINE_FEED then WithoutLineBreaks(cs[1..])
    else [cs[0]] + WithoutLineBreaks(cs[1..])
  }

  function Decode(cs: seq<Byte>): Option<seq<Byte>> {
    DecodeLetters(WithoutLineBreaks(cs))
  }

  lemma GroupRoundTrip(g: seq<Byte>)
    requires 1 <= |g| <= 3
    ensures DecodeGroup(EncodeGroup(g)) == Some(g)
  {
    var cs := EncodeGroup(g);
    var b0, b1, b2 := g[0], if |g| > 1 then g[1] else 0, if |g| > 2 then g[2] else 0;
    LetterRoundTrip(b0 / 4);
    LetterRoundTrip(b0 % 4 * 16 + b1 / 16);
    LetterRoundTrip(b1 % 16 * 4 + b2 / 64);
    LetterRoundTrip(b2 % 64);
    assert (b0 % 4 * 16 + b1 / 16) / 16 == b0 % 4 && (b0 % 4 * 16 + b1 / 16) % 16 == b1 / 16;
    assert (b1 % 16 * 4 + b2 / 64) / 4 == b1 % 16 && (b1 % 16 * 4 + b2 / 64) % 4 == b2 / 64;
    var d := DecodeGroup(cs);
    assert d.Some?;
    assert d.value[0] == g[0];
    assert |g| > 1 ==> d.value[1] == g[1];
    assert |g| > 2 ==> d.value[2] == g[2];
    assert d.value == g;
  }

  lemma LetterRoundTrip(v: Sextet)
    ensures SextetOf(Letter(v)) == Some(v)
  {
  }

  lemma {:induction false} EncodePlain(s: seq<Byte>)
    ensures WithoutLineBreaks(Encode(s)) == Encode(s)
    ensures 58 !in Encode(s) && 59 !in Encode(s)
  {
    if |s| > 3 {
      EncodePlain(s[3..]);
      GroupPlain(s[..3], Encode(s[3..]));
    } else if |s| > 0 {
      GroupPlain(s, []);
      assert EncodeGroup(s) + [] == EncodeGroup(s);
    }
  }

  lemma GroupPlain(g: seq<Byte>, rest: seq<Byte>)
    requires 1 <= |g| <= 3
    ensures 58 !in EncodeGroup(g) && 59 !in EncodeGroup(g)
    ensures WithoutLineBreaks(EncodeGroup(g) + rest) == EncodeGroup(g) + WithoutLineBreaks(rest)
  {
    PlainPrefix(EncodeGroup(g), rest);
  }

  lemma {:induction false} PlainPrefix(a: seq<Byte>, b: seq<Byte>)
    requires CARRIAGE_RETURN !in a && LINE_FEED !in a
    ensures WithoutLineBreaks(a + b) == a + WithoutLineBreaks(b)
  {
    if a == [] {
      assert a + b == b;
    } else {
      PlainPrefix(a[1..], b);
      assert (a + b)[1..] == a[1..] + b;
    }
  }

  // Decoding undoes encoding, for every byte string.
  lemma {:induction false} RoundTrip(s: seq<Byte>)
    ensures Decode(Encode(s)) == Some(s)
  {
    EncodePlain(s);
    LettersRoundTrip(s);
  }

  lemma {:induction false} LettersRoundTrip(s: seq<Byte>)
    ensures DecodeLetters(Encode(s)) == Some(s)
  {
    if |s| > 3 {
      GroupRoundTrip(s[..3]);
      LettersRoundTrip(s[3..]);
      var cs := Encode(s);
      assert cs[..4] == EncodeGroup(s[..3]) && cs[4..] == Encode(s[3..]);
      assert s == s[..3] + s[3..];
    } else if |s| > 0 {
      GroupRoundTrip(s);
    }
  }

  // Both ends of the alphabet: "AA", "+/8" and "z08" come from the bytes 0; 251 and 255; and 207 and 79.
  lemma AlphabetVectors()
    ensures Encode([0]) == [65, 65] && Encode([251, 255]) == [43, 47, 56] && Encode([207, 79]) == [122, 48, 56]
  {
  }

  // The test vectors of section 10 of RFC 4648, without padding: "", "f", "fo", "foo" and "foobar".
  lemma Vectors()
    ensures Encode([]) == [] && Encode([102]) == [90, 103] && Encode([102, 111]) == [90, 109, 56]
    ensures Encode([102, 111, 111]) == [90, 109, 57, 118]
    ensures Encode([102, 111, 111, 98, 97, 114]) == [90, 109, 57, 118, 89, 109, 70, 121]
  {
    var foobar: seq<Byte> := [102, 111, 111, 98, 97, 114];
    assert foobar[..3] == [102, 111, 111] && foobar[3..] == [98, 97, 114];
    assert EncodeGroup([98, 97, 114]) == [89, 109, 70, 121];
  }

  // A successful decode yields as many bytes as DecodedLen allots to the characters that are not line breaks.
  lemma {:induction false} DecodeLength(cs: seq<Byte>)
    requires DecodeLetters(cs).Some?
    ensures |DecodeLetters(cs).value| == DecodedLen(|cs|)
  {
    if |cs| > 4 {
      DecodeLength(cs[4..]);
      assert |cs| / 4 == (|cs| - 4) / 4 + 1;
    }
  }

  lemma {:induction false} LineBreaksShorten(cs: seq<Byte>)
    ensures |WithoutLineBreaks(cs)| <= |cs|
  {
    if cs != [] {
      LineBreaksShorten(cs[1..]);
    }
  }

  lemma DecodedLenMonotone(m: nat, n: nat)
    requires m <= n
    ensures DecodedLen(m) <= DecodedLen(n)
  {
    if m / 4 == n / 4 {
      assert m % 4 <= n % 4;
    } else {
      assert m / 4 + 1 <= n / 4;
    }
  }

  lemma DecodedLenOfEncoded(n: nat)
    ensures DecodedLen(EncodedLen(n)) == n
  {
    var q, r := n / 3, n % 3;
    var e := EncodedLen(n);
    if r == 0 {
      assert e == q * 4;
    } else if r == 1 {
      assert e == q * 4 + 2;
    } else {
      assert e == q * 4 + 3;
    }
    assert e / 4 == q;
  }

  lemma {:induction false} EncodeLength(s: seq<Byte>)
    ensures |Encode(s)| == EncodedLen(|s|)
  {
    if |s| > 3 {
      EncodeLength(s[3..]);
      assert |s| / 3 == (|s| - 3) / 3 + 1 && |s| % 3 == (|s| - 3) % 3;
    } else if |s| > 0 {
      assert |EncodeGroup(s)| == |s| + 1;
    }
  }

  lemma EncodeStep(s: seq<Byte>, si: nat, done: seq<Byte>)
    requires si + 3 < |s| && Encode(s) == done + Encode(s[si..])
    ensures Encode(s) == done + EncodeGroup(s[si..si + 3]) + Encode(s[si + 3..])
    ensures |done| + 4 <= |Encode(s)|
  {
    assert s[si..][..3] == s[si..si + 3] && s[si..][3..] == s[si + 3..];
  }

  // Writes the encoding of s to the front of dst, three bytes at a time.
  method EncodeInto(dst: array<Byte>, s: seq<Byte>)
    requires |Encode(s)| <= dst.Length
    modifies dst
    ensures dst[..|Encode(s)|] == Encode(s)
  {
    var si, di := 0, 0;
    ghost var done: seq<Byte> := [];
    while |s| - si > 3
      invariant 0 <= si <= |s| && di == |done| <= dst.Length
      invariant Encode(s) == done + Encode(s[si..])
      invariant dst[..di] == done
    {
      EncodeStep(s, si, done);
      WriteGroup(dst, di, s[si..si + 3]);
      done := done + EncodeGroup(s[si..si + 3]);
      si, di := si + 3, di + 4;
    }
    if si < |s| {
      WriteGroup(dst, di, s[si..]);
    }
  }

  method WriteGroup(dst: array<Byte>, di: nat, g: seq<Byte>)
    requires 1 <= |g| <= 3 && di + |g| + 1 <= dst.Length
    modifies dst
    ensures dst[..di + |g| + 1] == old(dst[..di]) + EncodeGroup(g)
  {
    var group := EncodeGroup(g);
    forall i | 0 <= i < |group| {
      dst[di + i] := group[i];
    }
  }
}
