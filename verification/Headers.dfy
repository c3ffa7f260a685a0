/**
 The header codec of the HTTP/2 transport: every header name and value is base64-encoded, name and value are joined
 with ':' and the pairs with ';'. Reading the text gives the pairs back.
*/
module Headers {
  import opened Base64
  import opened Results
  import opened Text

  const SEMICOLON: Byte := 59
  const COLON: Byte := 58

  datatype HTTPHeader = HTTPHeader(name: seq<Byte>, value: seq<Byte>)

  // A header map: each name with its values in order.
  type HeaderMap = map<seq<Byte>, seq<seq<Byte>>>

  // One possible iteration over the map: every name exactly once. Go may choose another one in each loop.
  ghost predicate IsIteration(h: HeaderMap, order: seq<seq<Byte>>) {
    && (forall i, j :: 0 <= i < j < |order| ==> order[i] != order[j])
    && (forall n :: n in order <==> n in h)
  }

  function PairsOf(name: seq<Byte>, values: seq<seq<Byte>>): (pairs: seq<HTTPHeader>) {
    seq(|values|, i requires 0 <= i < |values| => HTTPHeader(name, values[i]))
  }

  // The (name, value) pairs in iteration order.
  function Pairs(h: HeaderMap, order: seq<seq<Byte>>): seq<HTTPHeader>
    requires forall n :: n in order ==> n in h
  {
    if order == [] then []
    else
      var k := |order| - 1;
      Pairs(h, order[..k]) + PairsOf(order[k], h[order[k]])
  }

  function PairText(p: HTTPHeader): seq<Byte> {
    Encode(p.name) + [COLON] + Encode(p.value)
  }

  function PairsText(pairs: seq<HTTPHeader>): seq<Byte> {
    if pairs == [] then []
    else
      var k := |pairs| - 1;
      var before := PairsText(pairs[..k]);
      (if |before| > 0 then before + [SEMICOLON] else before) + PairText(pairs[k])
  }

  // What the sizing loop adds up: both delimiters are counted for every pair.
  function SizeOf(pairs: seq<HTTPHeader>): nat {
    if pairs == [] then 0
    else
      var p := pairs[|pairs| - 1];
      SizeOf(pairs[..|pairs| - 1]) + 2 + EncodedLen(|p.name|) + EncodedLen(|p.value|)
  }

  // The longest single encoding among the pairs.
  function LongestOf(pairs: seq<HTTPHeader>): nat {
    if pairs == [] then 0
    else
      var p := pairs[|pairs| - 1];
      Max(LongestOf(pairs[..|pairs| - 1]), Max(EncodedLen(|p.name|), EncodedLen(|p.value|)))
  }

  function Max(a: nat, b: nat): nat {
    if a < b then b else a
  }

  function Zeros(n: nat): (z: seq<Byte>)
    ensures |z| == n && forall i :: 0 <= i < n ==> z[i] == 0
  {
    seq(n, _ => 0)
  }

  // How many bytes of a decode buffer of DecodedLen bytes the decoding of text leaves untouched.
  function Slack(text: seq<Byte>): nat
    requires Decode(text).Some?
  {
    DecodeLength(WithoutLineBreaks(text));
    LineBreaksShorten(text);
    DecodedLenMonotone(|WithoutLineBreaks(text)|, |text|);
    DecodedLen(|text|) - |Decode(text).value|
  }

  // The decode buffer after decoding text into it: the decoded bytes, then the zeros it was allocated with.
  function DecodeBuffer(text: seq<Byte>): Option<seq<Byte>> {
    var d := Decode(text);
    if d.None? then None else Some(d.value + Zeros(Slack(text)))
  }

  function DeserializePair(text: seq<Byte>): Result<HTTPHeader> {
    var parts := Split(text, COLON);
    if |parts| != 2 then Err
    else
      var name, value := DecodeBuffer(parts[0]), DecodeBuffer(parts[1]);
      if name.None? || value.None? then Err else Ok(HTTPHeader(name.value, value.value))
  }

  function DeserializeParts(parts: seq<seq<Byte>>): Result<seq<HTTPHeader>> {
    if parts == [] then Ok([])
    else
      var k := |parts| - 1;
      var before := DeserializeParts(parts[..k]);
      if before.Err? || parts[k] == [] then before
      else
        var last := DeserializePair(parts[k]);
        if last.Err? then Err else Ok(before.value + [last.value])
  }

  function Deserialize(text: seq<Byte>): Result<seq<HTTPHeader>> {
    DeserializeParts(Split(text, SEMICOLON))
  }

  /** Reading back what was written gives exactly the pairs, in order, empty names and values included. */
  lemma {:induction false} RoundTrip(pairs: seq<HTTPHeader>)
    ensures Deserialize(PairsText(pairs)) == Ok(pairs)
  {
    if pairs == [] {
      assert DeserializeParts([[]]) == DeserializeParts([[]][..0]);
    } else {
      TextParts(pairs);
      PartsRoundTrip(pairs);
    }
  }

  /** The text on the wire: "a: b" and "c: " become "YQ:Yg;Yw:". */
  lemma WireFormat()
    ensures PairsText([HTTPHeader([97], [98]), HTTPHeader([99], [])]) == [89, 81, 58, 89, 103, 59, 89, 119, 58]
  {
    var first, second := HTTPHeader([97], [98]), HTTPHeader([99], []);
    assert Encode([97]) == [89, 81] && Encode([98]) == [89, 103] && Encode([99]) == [89, 119] && Encode([]) == [];
    assert PairText(first) == [89, 81, 58, 89, 103] && PairText(second) == [89, 119, 58];
    assert [first, second][..1] == [first] && [first][..0] == [];
    assert PairsText([first]) == PairText(first);
  }

  // The pair texts, one by one.
  function PairTexts(pairs: seq<HTTPHeader>): seq<seq<Byte>> {
    if pairs == [] then [] else PairTexts(pairs[..|pairs| - 1]) + [PairText(pairs[|pairs| - 1])]
  }

  lemma {:induction false} TextParts(pairs: seq<HTTPHeader>)
    requires pairs != []
    ensures |PairsText(pairs)| > 0
    ensures Split(PairsText(pairs), SEMICOLON) == PairTexts(pairs)
  {
    var k := |pairs| - 1;
    var before, last := PairsText(pairs[..k]), PairText(pairs[k]);
    EncodePlain(pairs[k].name);
    EncodePlain(pairs[k].value);
    assert SEMICOLON !in last;
    if k == 0 {
      SplitWhole(last, SEMICOLON);
      assert PairsText(pairs) == last;
    } else {
      TextParts(pairs[..k]);
      SplitCutLast(before, last, SEMICOLON);
    }
  }

  lemma PartsRoundTrip(pairs: seq<HTTPHeader>)
    ensures DeserializeParts(PairTexts(pairs)) == Ok(pairs)
  {
    TextsAre(pairs);
    forall p ensures PairText(p) != [] && DeserializePair(PairText(p)) == Ok(p) {
      PairRoundTrip(p);
    }
    PartsRead(PairTexts(pairs), pairs);
  }

  lemma {:induction false} TextsAre(pairs: seq<HTTPHeader>)
    ensures |PairTexts(pairs)| == |pairs|
    ensures forall i :: 0 <= i < |pairs| ==> PairTexts(pairs)[i] == PairText(pairs[i])
  {
    if pairs != [] {
      TextsAre(pairs[..|pairs| - 1]);
    }
  }

  lemma {:induction false} PartsRead(parts: seq<seq<Byte>>, pairs: seq<HTTPHeader>)
    requires |parts| == |pairs|
    requires forall i :: 0 <= i < |parts| ==> parts[i] != [] && DeserializePair(parts[i]) == Ok(pairs[i])
    ensures DeserializeParts(parts) == Ok(pairs)
  {
    if parts != [] {
      var k := |parts| - 1;
      var last := DeserializePair(parts[k]);
      assert last == Ok(pairs[k]) && parts[k] != [];
      PartsRead(parts[..k], pairs[..k]);
      var before := DeserializeParts(parts[..k]);
      assert DeserializeParts(parts) == Ok(before.value + [last.value]);
      assert pairs == pairs[..k] + [pairs[k]];
    }
  }

  lemma PairRoundTrip(p: HTTPHeader)
    ensures DeserializePair(PairText(p)) == Ok(p)
  {
    EncodePlain(p.name);
    EncodePlain(p.value);
    SplitCut(Encode(p.name), Encode(p.value), COLON);
    SplitWhole(Encode(p.value), COLON);
    NoSlack(p.name);
    NoSlack(p.value);
  }

  // A buffer of DecodedLen bytes is exactly filled by the decoding of an encoded string.
  lemma NoSlack(s: seq<Byte>)
    ensures DecodedLen(|Encode(s)|) == |s|
    ensures DecodeBuffer(Encode(s)) == Some(s)
  {
    Base64.RoundTrip(s);
    EncodeLength(s);
    DecodedLenOfEncoded(|s|);
    FullBuffer(Encode(s), s);
  }

  lemma FullBuffer(text: seq<Byte>, d: seq<Byte>)
    requires Decode(text) == Some(d) && |d| == DecodedLen(|text|)
    ensures DecodeBuffer(text) == Some(d)
  {
    assert d + Zeros(0) == d;
  }

  /**
   On other input the ignored byte count shows: a field is decoded without slack exactly when leaving out its line
   breaks does not change the length the buffer was given. Otherwise the field ends in zero bytes nobody sent.
  */
  lemma SlackExactly(text: seq<Byte>)
    requires Decode(text).Some?
    ensures DecodeBuffer(text) == Decode(text) <==> DecodedLen(|text|) == DecodedLen(|WithoutLineBreaks(text)|)
    ensures Decode(text).value <= DecodeBuffer(text).value
    ensures forall i :: |Decode(text).value| <= i < |DecodeBuffer(text).value| ==> DecodeBuffer(text).value[i] == 0
  {
    DecodeLength(WithoutLineBreaks(text));
    var d, buffer := Decode(text).value, DecodeBuffer(text).value;
    assert |buffer| == DecodedLen(|text|);
    if Slack(text) == 0 {
      assert buffer == d;
    }
  }

  // "YQ" with a line break in front decodes to "a" and one zero byte.
  lemma SlackWitness()
    ensures var text: seq<Byte> := [10, 89, 81];
            Decode(text) == Some([97]) && DecodeBuffer(text) == Some([97, 0])
  {
    var text: seq<Byte> := [10, 89, 81];
    var one: seq<Byte> := [89, 81];
    assert text[1..] == one && one[1..] == [81];
    assert WithoutLineBreaks([81]) == [81];
    assert WithoutLineBreaks(one) == one;
    assert WithoutLineBreaks(text) == one;
    assert SextetOf(89) == Some(24) && SextetOf(81) == Some(16);
    assert DecodeGroup(one).value == [97];
    assert DecodeLetters(one) == Some([97]);
    assert Slack(text) == 1;
    assert [97] + Zeros(1) == [97, 0];
  }

  /** The size computed in advance is one more than the real length as soon as there is a pair. */
  lemma {:induction false} SizeIsLengthPlusOne(pairs: seq<HTTPHeader>)
    ensures SizeOf(pairs) == |PairsText(pairs)| + (if pairs == [] then 0 else 1)
  {
    if pairs != [] {
      var k := |pairs| - 1;
      EncodeLength(pairs[k].name);
      EncodeLength(pairs[k].value);
      SizeIsLengthPlusOne(pairs[..k]);
      if k > 0 {
        TextParts(pairs[..k]);
      }
    }
  }

  lemma {:induction false} SizeOfAppend(a: seq<HTTPHeader>, b: seq<HTTPHeader>)
    ensures SizeOf(a + b) == SizeOf(a) + SizeOf(b)
    ensures LongestOf(a + b) == Max(LongestOf(a), LongestOf(b))
  {
    if b == [] {
      assert a + b == a;
    } else {
      SizeOfAppend(a, b[..|b| - 1]);
      assert (a + b)[..|a + b| - 1] == a + b[..|b| - 1];
    }
  }

  function Sum(f: seq<Byte> -> nat, order: seq<seq<Byte>>): nat {
    if order == [] then 0 else Sum(f, order[..|order| - 1]) + f(order[|order| - 1])
  }

  function Highest(f: seq<Byte> -> nat, order: seq<seq<Byte>>): nat {
    if order == [] then 0 else Max(Highest(f, order[..|order| - 1]), f(order[|order| - 1]))
  }

  lemma {:induction false} Without(f: seq<Byte> -> nat, order: seq<seq<Byte>>, k: nat)
    requires k < |order|
    ensures Sum(f, order) == Sum(f, order[..k] + order[k + 1..]) + f(order[k])
    ensures Highest(f, order) == Max(Highest(f, order[..k] + order[k + 1..]), f(order[k]))
  {
    var m := |order| - 1;
    var without := order[..k] + order[k + 1..];
    if k == m {
      assert without == order[..m];
    } else {
      Without(f, order[..m], k);
      assert order[..m][..k] + order[..m][k + 1..] == without[..m - 1];
      assert without[m - 1] == order[m];
    }
  }

  lemma RemoveKeepsSet(a: seq<seq<Byte>>, m: nat, b: seq<seq<Byte>>, k: nat)
    requires m == |a| - 1 && k < |b| && a[m] == b[k]
    requires forall i, j :: 0 <= i < j < |a| ==> a[i] != a[j]
    requires forall i, j :: 0 <= i < j < |b| ==> b[i] != b[j]
    requires forall n :: n in a <==> n in b
    ensures forall n :: n in a[..m] <==> n in b[..k] + b[k + 1..]
  {
    var b' := b[..k] + b[k + 1..];
    forall n
      ensures n in a[..m] <==> n in b'
    {
      if n in a[..m] {
        assert n in a;
        var j :| 0 <= j < |b| && b[j] == n;
        assert b'[if j < k then j else j - 1] == n;
      }
      if n in b' {
        var j :| 0 <= j < |b'| && b'[j] == n;
        assert n == b[if j < k then j else j + 1] && n in a;
        var i :| 0 <= i < |a| && a[i] == n;
        assert a[..m][i] == n;
      }
    }
  }

  lemma EmptyOrMember<T>(b: seq<T>)
    ensures b == [] || exists n :: n in b
  {
    if b != [] {
      assert b[0] in b;
    }
  }

  lemma {:induction false} SumIsOrderFree(f: seq<Byte> -> nat, a: seq<seq<Byte>>, b: seq<seq<Byte>>)
    requires forall i, j :: 0 <= i < j < |a| ==> a[i] != a[j]
    requires forall i, j :: 0 <= i < j < |b| ==> b[i] != b[j]
    requires forall n :: n in a <==> n in b
    ensures Sum(f, a) == Sum(f, b) && Highest(f, a) == Highest(f, b)
    decreases |a|
  {
    if a == [] {
      EmptyOrMember(b);
    } else {
      var m := |a| - 1;
      assert a[m] in b;
      var k :| 0 <= k < |b| && b[k] == a[m];
      var b' := b[..k] + b[k + 1..];
      Without(f, b, k);
      RemoveKeepsSet(a, m, b, k);
      forall i, j | 0 <= i < j < |b'|
        ensures b'[i] != b'[j]
      {
        assert b'[i] == b[if i < k then i else i + 1] && b'[j] == b[if j < k then j else j + 1];
      }
      SumIsOrderFree(f, a[..m], b');
    }
  }

  function NameSize(h: HeaderMap): seq<Byte> -> nat {
    n => if n in h then SizeOf(PairsOf(n, h[n])) else 0
  }

  function NameLongest(h: HeaderMap): seq<Byte> -> nat {
    n => if n in h then LongestOf(PairsOf(n, h[n])) else 0
  }

  lemma {:induction false} SizeIsSum(h: HeaderMap, order: seq<seq<Byte>>)
    requires forall n :: n in order ==> n in h
    ensures SizeOf(Pairs(h, order)) == Sum(NameSize(h), order)
    ensures LongestOf(Pairs(h, order)) == Highest(NameLongest(h), order)
  {
    if order != [] {
      var k := |order| - 1;
      SizeIsSum(h, order[..k]);
      SizeOfAppend(Pairs(h, order[..k]), PairsOf(order[k], h[order[k]]));
    }
  }

  /** Both figures are the same whatever iteration the sizing loop happens to get. */
  lemma SizeIsOrderFree(h: HeaderMap, a: seq<seq<Byte>>, b: seq<seq<Byte>>)
    requires IsIteration(h, a) && IsIteration(h, b)
    ensures SizeOf(Pairs(h, a)) == SizeOf(Pairs(h, b))
    ensures LongestOf(Pairs(h, a)) == LongestOf(Pairs(h, b))
  {
    SizeIsSum(h, a);
    SizeIsSum(h, b);
    SumIsOrderFree(NameSize(h), a, b);
    SumIsOrderFree(NameLongest(h), a, b);
  }

  // The values the pairs carry for one name.
  function ValuesOf(pairs: seq<HTTPHeader>, name: seq<Byte>): seq<seq<Byte>> {
    if pairs == [] then []
    else
      var p := pairs[|pairs| - 1];
      ValuesOf(pairs[..|pairs| - 1], name) + (if p.name == name then [p.value] else [])
  }

  lemma {:induction false} ValuesOfAppend(a: seq<HTTPHeader>, b: seq<HTTPHeader>, name: seq<Byte>)
    ensures ValuesOf(a + b, name) == ValuesOf(a, name) + ValuesOf(b, name)
  {
    if b == [] {
      assert a + b == a;
    } else {
      ValuesOfAppend(a, b[..|b| - 1], name);
      assert (a + b)[..|a + b| - 1] == a + b[..|b| - 1];
    }
  }

  lemma {:induction false} ValuesOfPairsOf(name: seq<Byte>, values: seq<seq<Byte>>, other: seq<Byte>)
    ensures ValuesOf(PairsOf(name, values), other) == if name == other then values else []
  {
    if values != [] {
      var k := |values| - 1;
      ValuesOfPairsOf(name, values[..k], other);
      assert PairsOf(name, values)[..k] == PairsOf(name, values[..k]);
    }
  }

  lemma LastName(order: seq<seq<Byte>>, name: seq<Byte>)
    requires order != [] && forall i, j :: 0 <= i < j < |order| ==> order[i] != order[j]
    ensures name in order <==> name in order[..|order| - 1] || name == order[|order| - 1]
    ensures order[|order| - 1] !in order[..|order| - 1]
  {
    var k := |order| - 1;
    assert order == order[..k] + [order[k]];
  }

  lemma {:induction false} PairsCarryValues(h: HeaderMap, order: seq<seq<Byte>>, name: seq<Byte>)
    requires forall n :: n in order ==> n in h
    requires forall i, j :: 0 <= i < j < |order| ==> order[i] != order[j]
    ensures ValuesOf(Pairs(h, order), name) == if name in order then h[name] else []
  {
    if order != [] {
      var k := |order| - 1;
      var before, last := Pairs(h, order[..k]), PairsOf(order[k], h[order[k]]);
      PairsCarryValues(h, order[..k], name);
      assert ValuesOf(Pairs(h, order), name) == ValuesOf(before, name) + ValuesOf(last, name) by {
        ValuesOfAppend(before, last, name);
      }
      ValuesOfPairsOf(order[k], h[order[k]], name);
      LastName(order, name);
      if name == order[k] {
        assert [] + h[name] == h[name];
      } else {
        assert ValuesOf(before, name) + [] == ValuesOf(before, name);
      }
    }
  }

  /**
   For every header map and every iteration over it, the far end reads, for each name, exactly that name's values in
   their order, and nothing for any other name.
  */
  lemma MapSurvives(h: HeaderMap, order: seq<seq<Byte>>, name: seq<Byte>)
    requires IsIteration(h, order)
    ensures Deserialize(PairsText(Pairs(h, order))).Ok?
    ensures ValuesOf(Deserialize(PairsText(Pairs(h, order))).value, name) == if name in h then h[name] else []
  {
    RoundTrip(Pairs(h, order));
    PairsCarryValues(h, order, name);
  }

  lemma PairsSnoc(h: HeaderMap, order: seq<seq<Byte>>, i: nat)
    requires i < |order| && forall n :: n in order ==> n in h
    ensures Pairs(h, order[..i + 1]) == Pairs(h, order[..i]) + PairsOf(order[i], h[order[i]])
  {
    assert order[..i + 1][..i] == order[..i];
  }

  lemma PairsOfSnoc(before: seq<HTTPHeader>, name: seq<Byte>, values: seq<seq<Byte>>, j: nat)
    requires j < |values|
    ensures before + PairsOf(name, values[..j + 1]) ==
            before + PairsOf(name, values[..j]) + [HTTPHeader(name, values[j])]
  {
  }

  lemma SizeSnoc(pairs: seq<HTTPHeader>, p: HTTPHeader)
    ensures SizeOf(pairs + [p]) == SizeOf(pairs) + 2 + EncodedLen(|p.name|) + EncodedLen(|p.value|)
    ensures LongestOf(pairs + [p]) == Max(LongestOf(pairs), Max(EncodedLen(|p.name|), EncodedLen(|p.value|)))
  {
    assert (pairs + [p])[..|pairs|] == pairs;
  }

  // The inner sizing loop: all values of one name.
  method MeasureValues(
    serializedLen: nat, maxTempLen: nat, ghost before: seq<HTTPHeader>, name: seq<Byte>, values: seq<seq<Byte>>)
    returns (serializedLen': nat, maxTempLen': nat)
    requires serializedLen == SizeOf(before) && maxTempLen == LongestOf(before)
    ensures serializedLen' == SizeOf(before + PairsOf(name, values))
    ensures maxTempLen' == LongestOf(before + PairsOf(name, values))
  {
    serializedLen', maxTempLen' := serializedLen, maxTempLen;
    assert before + PairsOf(name, values[..0]) == before;
    for j := 0 to |values|
      invariant serializedLen' == SizeOf(before + PairsOf(name, values[..j]))
      invariant maxTempLen' == LongestOf(before + PairsOf(name, values[..j]))
    {
      var nameLen := EncodedLen(|name|);
      var valueLen := EncodedLen(|values[j]|);
      PairsOfSnoc(before, name, values, j);
      SizeSnoc(before + PairsOf(name, values[..j]), HTTPHeader(name, values[j]));
      serializedLen' := serializedLen' + 2 + nameLen + valueLen;
      if nameLen > maxTempLen' {
        maxTempLen' := nameLen;
      }
      if valueLen > maxTempLen' {
        maxTempLen' := valueLen;
      }
    }
    assert values[..|values|] == values;
  }

  /** The sizing pass. */
  method Measure(h: HeaderMap, order: seq<seq<Byte>>) returns (serializedLen: nat, maxTempLen: nat)
    requires IsIteration(h, order)
    ensures serializedLen == SizeOf(Pairs(h, order))
    ensures maxTempLen == LongestOf(Pairs(h, order))
  {
    serializedLen, maxTempLen := 0, 0;
    for i := 0 to |order|
      invariant serializedLen == SizeOf(Pairs(h, order[..i]))
      invariant maxTempLen == LongestOf(Pairs(h, order[..i]))
    {
      serializedLen, maxTempLen :=
        MeasureValues(serializedLen, maxTempLen, Pairs(h, order[..i]), order[i], h[order[i]]);
      PairsSnoc(h, order, i);
    }
    assert order[..|order|] == order;
  }

  lemma {:induction false} LongestBounds(pairs: seq<HTTPHeader>, p: HTTPHeader)
    requires p in pairs
    ensures EncodedLen(|p.name|) <= LongestOf(pairs) && EncodedLen(|p.value|) <= LongestOf(pairs)
  {
    var k := |pairs| - 1;
    if p != pairs[k] {
      assert pairs == pairs[..k] + [pairs[k]];
      LongestBounds(pairs[..k], p);
    }
  }

  lemma {:induction false} PairsHold(h: HeaderMap, order: seq<seq<Byte>>, i: nat, j: nat)
    requires forall n :: n in order ==> n in h
    requires i < |order| && j < |h[order[i]]|
    ensures HTTPHeader(order[i], h[order[i]][j]) in Pairs(h, order)
  {
    var k := |order| - 1;
    if i == k {
      assert PairsOf(order[k], h[order[k]])[j] in Pairs(h, order);
    } else {
      PairsHold(h, order[..k], i, j);
    }
  }

  // One encoding written through the scratch buffer.
  method WriteB64(buf: seq<Byte>, temp: array<Byte>, s: seq<Byte>) returns (buf': seq<Byte>)
    requires EncodedLen(|s|) <= temp.Length
    modifies temp
    ensures buf' == buf + Encode(s)
  {
    EncodeLength(s);
    var n := EncodedLen(|s|);
    EncodeInto(temp, s);
    buf' := buf + temp[..n];
  }

  method AppendPair(buf: seq<Byte>, temp: array<Byte>, p: HTTPHeader) returns (buf': seq<Byte>)
    requires EncodedLen(|p.name|) <= temp.Length && EncodedLen(|p.value|) <= temp.Length
    modifies temp
    ensures buf' == (if |buf| > 0 then buf + [SEMICOLON] else buf) + PairText(p)
  {
    buf' := buf;
    if |buf'| > 0 {
      buf' := buf' + [SEMICOLON];
    }
    ghost var start := buf';
    buf' := WriteB64(buf', temp, p.name);
    buf' := buf' + [COLON];
    buf' := WriteB64(buf', temp, p.value);
    assert buf' == start + PairText(p);
  }

  lemma TextSnoc(pairs: seq<HTTPHeader>, p: HTTPHeader)
    ensures PairsText(pairs + [p]) ==
            (if |PairsText(pairs)| > 0 then PairsText(pairs) + [SEMICOLON] else PairsText(pairs)) + PairText(p)
  {
    assert (pairs + [p])[..|pairs|] == pairs;
  }

  // The inner loop of the second pass: all values of one name.
  method AppendValues(
    buf: seq<Byte>, temp: array<Byte>, ghost before: seq<HTTPHeader>, name: seq<Byte>, values: seq<seq<Byte>>)
    returns (buf': seq<Byte>)
    requires buf == PairsText(before)
    requires forall p :: p in PairsOf(name, values) ==>
               EncodedLen(|p.name|) <= temp.Length && EncodedLen(|p.value|) <= temp.Length
    modifies temp
    ensures buf' == PairsText(before + PairsOf(name, values))
  {
    buf' := buf;
    assert before + PairsOf(name, values[..0]) == before;
    for j := 0 to |values|
      invariant buf' == PairsText(before + PairsOf(name, values[..j]))
    {
      var p := HTTPHeader(name, values[j]);
      assert p in PairsOf(name, values) by {
        assert PairsOf(name, values)[j] == p;
      }
      PairsOfSnoc(before, name, values, j);
      TextSnoc(before + PairsOf(name, values[..j]), p);
      buf' := AppendPair(buf', temp, p);
    }
    assert values[..|values|] == values;
  }

  /**
   The two passes of the serializer. The scratch buffer sized by the first pass is large enough for every field of the
   second, so it is never replaced, and the text is the pairs' text in the order of the second pass.
  */
  method SerializeHeaders(h: HeaderMap, sizing: seq<seq<Byte>>, writing: seq<seq<Byte>>) returns (buf: seq<Byte>)
    requires IsIteration(h, sizing) && IsIteration(h, writing)
    ensures buf == PairsText(Pairs(h, writing))
    ensures Deserialize(buf) == Ok(Pairs(h, writing))
  {
    var serializedLen, maxTempLen := Measure(h, sizing);
    SizeIsOrderFree(h, sizing, writing);
    buf := [];
    var temp := new Byte[maxTempLen];
    for i := 0 to |writing|
      invariant buf == PairsText(Pairs(h, writing[..i]))
    {
      FieldsFit(h, writing, i);
      PairsSnoc(h, writing, i);
      buf := AppendValues(buf, temp, Pairs(h, writing[..i]), writing[i], h[writing[i]]);
    }
    assert writing[..|writing|] == writing;
    RoundTrip(Pairs(h, writing));
  }

  lemma FieldsFit(h: HeaderMap, order: seq<seq<Byte>>, i: nat)
    requires IsIteration(h, order) && i < |order|
    ensures forall p :: p in PairsOf(order[i], h[order[i]]) ==>
              && EncodedLen(|p.name|) <= LongestOf(Pairs(h, order))
              && EncodedLen(|p.value|) <= LongestOf(Pairs(h, order))
  {
    forall p | p in PairsOf(order[i], h[order[i]])
      ensures EncodedLen(|p.name|) <= LongestOf(Pairs(h, order)) && EncodedLen(|p.value|) <= LongestOf(Pairs(h, order))
    {
      var j :| 0 <= j < |h[order[i]]| && p == HTTPHeader(order[i], h[order[i]][j]);
      PairsHold(h, order, i, j);
      LongestBounds(Pairs(h, order), p);
    }
  }

  /** The reading loop, which stops at the first pair it cannot read. */
  method DeserializeHeaders(serializedHeaders: seq<Byte>) returns (r: Result<seq<HTTPHeader>>)
    ensures r == Deserialize(serializedHeaders)
  {
    var parts := Split(serializedHeaders, SEMICOLON);
    var deserialized := [];
    for i := 0 to |parts|
      invariant DeserializeParts(parts[..i]) == Ok(deserialized)
    {
      assert parts[..i + 1][..i] == parts[..i];
      if |parts[i]| != 0 {
        var pair := DeserializePair(parts[i]);
        if pair.Err? {
          ErrStays(parts, i + 1);
          return Err;
        }
        deserialized := deserialized + [pair.value];
      }
    }
    assert parts[..|parts|] == parts;
    r := Ok(deserialized);
  }

  lemma ErrSnoc(parts: seq<seq<Byte>>)
    requires parts != [] && DeserializeParts(parts[..|parts| - 1]).Err?
    ensures DeserializeParts(parts).Err?
  {
  }

  lemma {:induction false} ErrStays(parts: seq<seq<Byte>>, i: nat)
    requires i <= |parts| && DeserializeParts(parts[..i]).Err?
    ensures DeserializeParts(parts).Err?
    decreases |parts|
  {
    if i < |parts| {
      var k := |parts| - 1;
      assert DeserializeParts(parts[..k][..i]).Err? by {
        assert parts[..k][..i] == parts[..i];
      }
      ErrStays(parts[..k], i);
      ErrSnoc(parts);
    } else {
      assert parts[..i] == parts;
    }
  }
}
