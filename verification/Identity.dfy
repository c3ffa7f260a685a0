/** The trace identity and its two forms: 25 bytes on the datagram path, "trace:span:0:flags" in hex as a header. */
module Identity {
  import opened Numerals
  import opened Results
  import opened Text

  const IDENTITY_LENGTH: nat := 16 + 8 + 1
  const COLON: Byte := 58
  const TRACE_ID_WIDTH: nat := 128 / 4

  type Uint64 = n: nat | n < TWO_TO_THE_64
  type Uint8 = n: nat | n < 256

  datatype Id = Id(traceIDUpper: Uint64, traceIDLower: Uint64, spanID: Uint64, flags: Uint8)

  function ToString(id: Id): Bytes {
    HexPadded(id.traceIDUpper, 16) + HexPadded(id.traceIDLower, 16) +
    [COLON] + Hex(id.spanID) + [COLON] + [DIGIT_0] + [COLON] + Hex(id.flags)
  }

  // Reading a trace identity succeeds, returns an error, or panics.
  datatype Outcome = Parsed(id: Id) | Failed | Panicked

  datatype Padded = PaddedTo(id: Bytes) | Missing | NegativeRepeat

  // Left-pads to 32 digits. strings.Repeat panics when asked for a negative number of copies.
  function PadTracingID(tracingID: Bytes): Padded {
    if |tracingID| == 0 then Missing
    else if |tracingID| == TRACE_ID_WIDTH then PaddedTo(tracingID)
    else if |tracingID| > TRACE_ID_WIDTH then NegativeRepeat
    else PaddedTo(Zeros(TRACE_ID_WIDTH - |tracingID|) + tracingID)
  }

  function NewIdentity(trace: Bytes): Outcome {
    var parts := Split(trace, COLON);
    if |parts| != 4 then Failed
    else
      match PadTracingID(parts[0])
      case Missing => Failed
      case NegativeRepeat => Panicked
      case PaddedTo(t) =>
        if |t| < 16 then Failed
        else
          var upper := ParseUint(t[..16], 16, 64);
          var lower := ParseUint(t[16..], 16, 64);
          var span := ParseUint(parts[1], 16, 64);
          var flags := ParseUint(parts[3], 16, 8);
          if upper.Err? || lower.Err? || span.Err? || flags.Err? then Failed
          else
            WidthOf64();
            Parsed(Id(upper.value, lower.value, span.value, flags.value))
  }

  // The conditions under which a header is a trace identity, in terms of its text alone.
  predicate WellFormed(parts: seq<Bytes>) {
    && |parts| == 4
    && |parts[0]| <= TRACE_ID_WIDTH && IsNumeral(parts[0], 16)
    && IsNumeral(parts[1], 16) && Value(parts[1], 16) < TWO_TO_THE_64
    && IsNumeral(parts[3], 16) && Value(parts[3], 16) < 256
  }

  /** Padding keeps the number: the two halves together stand for the unpadded digits. */
  lemma PaddingKeepsValue(t: Bytes)
    requires IsNumeral(t, 16) && |t| <= TRACE_ID_WIDTH
    ensures PadTracingID(t).PaddedTo?
    ensures var p := PadTracingID(t).id;
            && |p| == TRACE_ID_WIDTH && IsNumeral(p[..16], 16) && IsNumeral(p[16..], 16)
            && Value(p[..16], 16) < TWO_TO_THE_64 && Value(p[16..], 16) < TWO_TO_THE_64
            && Value(p[..16], 16) * TWO_TO_THE_64 + Value(p[16..], 16) == Value(t, 16)
  {
    var p := PadTracingID(t).id;
    if |t| < TRACE_ID_WIDTH {
      LeadingZeros(TRACE_ID_WIDTH - |t|, t, 16);
    }
    HalvesValue(p);
  }

  lemma HalvesValue(p: Bytes)
    requires |p| == TRACE_ID_WIDTH && AllDigits(p, 16)
    ensures IsNumeral(p[..16], 16) && IsNumeral(p[16..], 16)
    ensures Value(p[..16], 16) < TWO_TO_THE_64 && Value(p[16..], 16) < TWO_TO_THE_64
    ensures Value(p[..16], 16) * TWO_TO_THE_64 + Value(p[16..], 16) == Value(p, 16)
  {
    assert p == p[..16] + p[16..];
    TwoHalves(p[..16], p[16..]);
  }

  lemma TwoHalves(u: Bytes, l: Bytes)
    requires |u| == 16 && |l| == 16 && AllDigits(u, 16) && AllDigits(l, 16)
    ensures Value(u, 16) < TWO_TO_THE_64 && Value(l, 16) < TWO_TO_THE_64
    ensures AllDigits(u + l, 16) && Value(u + l, 16) == Value(u, 16) * TWO_TO_THE_64 + Value(l, 16)
  {
    ValueOfAppend(u, l, 16);
    ValueBound(u, 16);
    ValueBound(l, 16);
    WidthOf64();
  }

  lemma PaddingKeepsBadDigits(t: Bytes)
    requires PadTracingID(t).PaddedTo? && !IsNumeral(t, 16)
    ensures var p := PadTracingID(t).id; |p| == TRACE_ID_WIDTH && (!IsNumeral(p[..16], 16) || !IsNumeral(p[16..], 16))
  {
    var p := PadTracingID(t).id;
    var i :| 0 <= i < |t| && !IsDigit(t[i], 16);
    var k := TRACE_ID_WIDTH - |t| + i;
    assert p[k] == t[i];
    if k < 16 {
      assert p[..16][k] == t[i];
    } else {
      assert p[16..][k - 16] == t[i];
    }
  }

  /**
   Exactly which headers are read, and as what: of the header's pieces between colons, the trace halves are the value of
   the first, the span and the flags the values of the second and fourth; the third is not looked at.
  */
  lemma NewIdentityExactly(trace: Bytes)
    ensures var parts := Split(trace, COLON);
            && Join(parts, COLON) == trace && (forall p :: p in parts ==> COLON !in p)
            && (NewIdentity(trace).Parsed? <==> WellFormed(parts))
            && (NewIdentity(trace).Panicked? <==> |parts| == 4 && |parts[0]| > TRACE_ID_WIDTH)
            && (WellFormed(parts) ==>
                  var id := NewIdentity(trace).id;
                  && id.traceIDUpper * TWO_TO_THE_64 + id.traceIDLower == Value(parts[0], 16)
                  && id.spanID == Value(parts[1], 16)
                  && id.flags == Value(parts[3], 16))
  {
    var parts := Split(trace, COLON);
    JoinSplit(trace, COLON);
    WidthOf64();
    if |parts| == 4 && 1 <= |parts[0]| <= TRACE_ID_WIDTH {
      if IsNumeral(parts[0], 16) {
        PaddingKeepsValue(parts[0]);
      } else {
        PaddingKeepsBadDigits(parts[0]);
      }
    }
  }

  /** Printing and reading an identity gives it back, for all values of its four fields. */
  lemma TextRoundTrip(id: Id)
    ensures NewIdentity(ToString(id)) == Parsed(id)
    ensures var parts := Split(ToString(id), COLON);
            |parts| == 4 && |parts[0]| == TRACE_ID_WIDTH && parts[2] == [DIGIT_0]
  {
    WidthOf64();
    var u, l := HexPadded(id.traceIDUpper, 16), HexPadded(id.traceIDLower, 16);
    HexPaddedValue(id.traceIDUpper, 16);
    HexPaddedValue(id.traceIDLower, 16);
    HexValue(id.spanID);
    HexValue(id.flags);
    ParseHex(id.spanID, 64);
    ParseHex(id.flags, 8);
    NumeralHasNoColon(u);
    NumeralHasNoColon(l);
    NumeralHasNoColon(Hex(id.spanID));
    NumeralHasNoColon(Hex(id.flags));
    FourParts(u + l, Hex(id.spanID), [DIGIT_0], Hex(id.flags));
    assert PadTracingID(u + l) == PaddedTo(u + l) && (u + l)[..16] == u && (u + l)[16..] == l;
  }

  lemma FourParts(p0: Bytes, p1: Bytes, p2: Bytes, p3: Bytes)
    requires COLON !in p0 && COLON !in p1 && COLON !in p2 && COLON !in p3
    ensures Split(p0 + [COLON] + p1 + [COLON] + p2 + [COLON] + p3, COLON) == [p0, p1, p2, p3]
  {
    var q2 := p2 + [COLON] + p3;
    var q1 := p1 + [COLON] + q2;
    SplitWhole(p3, COLON);
    SplitCut(p2, p3, COLON);
    SplitCut(p1, q2, COLON);
    SplitCut(p0, q1, COLON);
    FromTheRight(p0, p1, p2, p3);
  }

  lemma FromTheRight(p0: Bytes, p1: Bytes, p2: Bytes, p3: Bytes)
    ensures p0 + [COLON] + p1 + [COLON] + p2 + [COLON] + p3 == p0 + [COLON] + (p1 + [COLON] + (p2 + [COLON] + p3))
  {
  }

  lemma NumeralHasNoColon(s: Bytes)
    requires AllDigits(s, 16)
    ensures COLON !in s
  {
    assert !IsDigit(COLON, 16);
  }

  function Width(field: nat): nat
    requires field < 4
  {
    if field < 3 then 8 else 1
  }

  function FieldOf(id: Id, field: nat): nat
    requires field < 4
  {
    match field
    case 0 => id.traceIDUpper
    case 1 => id.traceIDLower
    case 2 => id.spanID
    case 3 => id.flags
  }

  // The first n fields, big-endian, one after the other.
  function Binary(id: Id, n: nat): (b: seq<Byte>)
    requires n <= 4
    ensures |b| == if n <= 3 then 8 * n else IDENTITY_LENGTH
  {
    if n == 0 then [] else Binary(id, n - 1) + BigEndian(FieldOf(id, n - 1), Width(n - 1))
  }

  lemma BinaryLayout(id: Id)
    ensures Binary(id, 4) ==
            BigEndian(id.traceIDUpper, 8) + BigEndian(id.traceIDLower, 8) + BigEndian(id.spanID, 8) + [id.flags]
  {
    assert Binary(id, 1) == BigEndian(id.traceIDUpper, 8);
    assert Binary(id, 2) == Binary(id, 1) + BigEndian(id.traceIDLower, 8);
    assert Binary(id, 3) == Binary(id, 2) + BigEndian(id.spanID, 8);
    assert BigEndian(id.flags, 1) == [id.flags];
  }

  lemma FieldFits(id: Id, field: nat)
    requires field < 4
    ensures FieldOf(id, field) < Pow(256, Width(field))
    ensures Pow(256, 8) == TWO_TO_THE_64 && Pow(256, 1) == 256
  {
    assert Pow(256, 2) == 65536;
    PowAdd(256, 2, 2);
    PowAdd(256, 4, 4);
  }

  /** The mutable identity whose fields UnmarshalBinary sets. */
  class TraceIdentity {
    var traceIDUpper: Uint64
    var traceIDLower: Uint64
    var spanID: Uint64
    var flags: Uint8

    constructor (id: Id)
      ensures State() == id
    {
      traceIDUpper, traceIDLower, spanID, flags := id.traceIDUpper, id.traceIDLower, id.spanID, id.flags;
    }

    function State(): Id
      reads this
    {
      Id(traceIDUpper, traceIDLower, spanID, flags)
    }

    method MarshalBinary() returns (buf: seq<Byte>)
      ensures buf == Binary(State(), 4) && |buf| == IDENTITY_LENGTH
      ensures buf == BigEndian(traceIDUpper, 8) + BigEndian(traceIDLower, 8) + BigEndian(spanID, 8) + [flags]
    {
      buf := [];
      for field := 0 to 4
        invariant buf == Binary(State(), field)
      {
        buf := buf + BigEndian(FieldOf(State(), field), Width(field));
      }
      BinaryLayout(State());
    }

    /** Fails on fewer than 25 bytes; otherwise the first 25 decide, and bytes behind them are ignored. */
    method UnmarshalBinary(data: seq<Byte>) returns (r: Result<()>)
      modifies this
      ensures r.Ok? <==> |data| >= IDENTITY_LENGTH
      ensures r.Ok? ==> Binary(State(), 4) == data[..IDENTITY_LENGTH]
      ensures r.Err? ==> State() == old(State())
    {
      if |data| < IDENTITY_LENGTH {
        return Err;
      }
      var buf := data;
      for field := 0 to 4
        invariant Binary(State(), field) + buf == data
      {
        var head, rest := buf[..Width(field)], buf[Width(field)..];
        ghost var before := State();
        SetField(field, head);
        EarlierFieldsKept(before, State(), field);
        assert head + rest == buf;
        buf := rest;
      }
      r := Ok(());
    }

    method SetField(field: nat, b: seq<Byte>)
      requires field < 4 && |b| == Width(field)
      modifies this
      ensures BigEndian(FieldOf(State(), field), Width(field)) == b
      ensures forall f :: 0 <= f < 4 && f != field ==> FieldOf(State(), f) == FieldOf(old(State()), f)
    {
      FromBigEndianRoundTrip(b);
      FieldFits(State(), field);
      match field
      case 0 => traceIDUpper := FromBigEndian(b);
      case 1 => traceIDLower := FromBigEndian(b);
      case 2 => spanID := FromBigEndian(b);
      case 3 => flags := FromBigEndian(b);
    }
  }

  lemma {:induction false} EarlierFieldsKept(a: Id, b: Id, n: nat)
    requires n <= 4 && forall f :: 0 <= f < n ==> FieldOf(a, f) == FieldOf(b, f)
    ensures Binary(a, n) == Binary(b, n)
  {
    if n > 0 {
      EarlierFieldsKept(a, b, n - 1);
    }
  }

  /**
   The binary form decides the identity. With the contracts of the two methods this is the round trip: what
   UnmarshalBinary stores has the 25 bytes MarshalBinary wrote, so it is the identity that was marshalled.
  */
  lemma {:induction false} BinaryInjective(a: Id, b: Id, n: nat)
    requires n <= 4 && Binary(a, n) == Binary(b, n)
    ensures forall f :: 0 <= f < n ==> FieldOf(a, f) == FieldOf(b, f)
    ensures n == 4 ==> a == b
  {
    if n > 0 {
      var m := |Binary(a, n - 1)|;
      assert Binary(a, n)[..m] == Binary(a, n - 1) && Binary(b, n)[..m] == Binary(b, n - 1);
      assert Binary(a, n)[m..] == BigEndian(FieldOf(a, n - 1), Width(n - 1));
      assert Binary(b, n)[m..] == BigEndian(FieldOf(b, n - 1), Width(n - 1));
      BinaryInjective(a, b, n - 1);
      FieldFits(a, n - 1);
      FieldFits(b, n - 1);
      BigEndianRoundTrip(FieldOf(a, n - 1), Width(n - 1));
      BigEndianRoundTrip(FieldOf(b, n - 1), Width(n - 1));
    }
    if n == 4 {
      assert FieldOf(a, 0) == FieldOf(b, 0) && FieldOf(a, 1) == FieldOf(b, 1);
      assert FieldOf(a, 2) == FieldOf(b, 2) && FieldOf(a, 3) == FieldOf(b, 3);
    }
  }

  /** Marshalling, sending along with anything behind it, and unmarshalling gives the identity back. */
  method BinaryRoundTrip(id: Id, behind: seq<Byte>) returns (back: Id)
    ensures back == id
  {
    var sender := new TraceIdentity(id);
    var wire := sender.MarshalBinary();
    var receiver := new TraceIdentity(Id(0, 0, 0, 0));
    var r := receiver.UnmarshalBinary(wire + behind);
    assert (wire + behind)[..IDENTITY_LENGTH] == wire;
    BinaryInjective(receiver.State(), id, 4);
    back := receiver.State();
  }
}
