/**
 The datagram multiplexer, version 2. The receiver tells datagrams apart by what the sender appended: a type byte last,
 and before it a session ID or a trace identity. Frame and payload limits depend on the platform.
*/
module Datagrams {
  import Identity
  import opened Results
  import opened Text

  const SESSION_ID_LEN: nat := 16
  const TYPE_ID_LEN: nat := 1

  const TYPE_UDP: Byte := 0
  const TYPE_IP: Byte := 1
  const TYPE_IP_WITH_TRACE: Byte := 2
  const TYPE_TRACING_SPAN: Byte := 3

  datatype Platform = Unix | Windows

  function MaxDatagramFrameSize(p: Platform): nat {
    match p
    case Unix => 1350
    case Windows => 1220
  }

  // The MTU: the largest payload accepted from an origin.
  function MaxDatagramPayloadSize(p: Platform): nat {
    match p
    case Unix => 1280
    case Windows => MaxDatagramFrameSize(Windows) - 3 - SESSION_ID_LEN - TYPE_ID_LEN
  }

  datatype Session = Session(id: seq<Byte>, payload: seq<Byte>)

  datatype Packet =
    | RawPacket(data: seq<Byte>)
    | TracedPacket(packet: seq<Byte>, tracingIdentity: seq<Byte>)
    | TracingSpanPacket(spans: seq<Byte>, tracingIdentity: seq<Byte>)
  {
    function Type(): Byte {
      match this
      case RawPacket(_) => TYPE_IP
      case TracedPacket(_, _) => TYPE_IP_WITH_TRACE
      case TracingSpanPacket(_, _) => TYPE_TRACING_SPAN
    }

    function Payload(): seq<Byte> {
      match this
      case RawPacket(data) => data
      case TracedPacket(packet, _) => packet
      case TracingSpanPacket(spans, _) => spans
    }

    function Metadata(): seq<Byte> {
      match this
      case RawPacket(_) => []
      case TracedPacket(_, tracingIdentity) => tracingIdentity
      case TracingSpanPacket(_, tracingIdentity) => tracingIdentity
    }

    // The identities the tracer hands out are 25 bytes long.
    predicate HasIdentity() {
      this.RawPacket? || |tracingIdentity| == Identity.IDENTITY_LENGTH
    }
  }

  function SuffixMetadata(p: Platform, payload: seq<Byte>, metadata: seq<Byte>): Result<seq<Byte>> {
    if |payload| + |metadata| > MaxDatagramFrameSize(p) then Err else Ok(payload + metadata)
  }

  function SuffixType(p: Platform, b: seq<Byte>, datagramType: Byte): Result<seq<Byte>> {
    if |b| + TYPE_ID_LEN > MaxDatagramFrameSize(p) then Err else Ok(b + [datagramType])
  }

  // The datagram handed to the QUIC connection.
  function SendToSession(p: Platform, s: Session): Result<seq<Byte>> {
    if |s.payload| > MaxDatagramPayloadSize(p) then Err
    else
      var withID := SuffixMetadata(p, s.payload, s.id);
      if withID.Err? then Err else SuffixType(p, withID.value, TYPE_UDP)
  }

  function SendPacket(p: Platform, pk: Packet): Result<seq<Byte>> {
    var withMetadata := SuffixMetadata(p, pk.Payload(), pk.Metadata());
    if withMetadata.Err? then Err else SuffixType(p, withMetadata.value, pk.Type())
  }

  // What the receiver puts on one of its two channels.
  datatype Demuxed = ToSession(session: Session) | ToPackets(packet: Packet)

  // The last n bytes cut off.
  function Extract(b: seq<Byte>, n: nat): Option<(seq<Byte>, seq<Byte>)> {
    if |b| < n then None else Some((b[|b| - n..], b[..|b| - n]))
  }

  function HandleSession(msg: seq<Byte>): Result<Demuxed> {
    match Extract(msg, SESSION_ID_LEN)
    case None => Err
    case Some((id, payload)) => Ok(ToSession(Session(id, payload)))
  }

  function HandlePacket(msg: seq<Byte>, msgType: Byte): Result<Demuxed> {
    if msgType == TYPE_IP then Ok(ToPackets(RawPacket(msg)))
    else if msgType == TYPE_IP_WITH_TRACE || msgType == TYPE_TRACING_SPAN then
      match Extract(msg, Identity.IDENTITY_LENGTH)
      case None => Err
      case Some((identity, payload)) =>
        Ok(ToPackets(if msgType == TYPE_IP_WITH_TRACE then TracedPacket(payload, identity)
                     else TracingSpanPacket(payload, identity)))
    else Err
  }

  function Demux(msgWithType: seq<Byte>): Result<Demuxed> {
    if |msgWithType| < TYPE_ID_LEN then Err
    else
      var msgType := msgWithType[|msgWithType| - TYPE_ID_LEN];
      var msg := msgWithType[..|msgWithType| - TYPE_ID_LEN];
      if msgType == TYPE_UDP then HandleSession(msg)
      else if msgType == TYPE_IP || msgType == TYPE_IP_WITH_TRACE || msgType == TYPE_TRACING_SPAN then
        HandlePacket(msg, msgType)
      else Err
  }

  /**
   On both platforms a payload is sent exactly if it is within the MTU, the two suffix checks then never failing; what
   is sent is the payload, the session ID and the type, and demultiplexes to the same session ID and payload.
  */
  lemma SessionRoundTrip(p: Platform, s: Session)
    requires |s.id| == SESSION_ID_LEN
    ensures SendToSession(p, s).Ok? <==> |s.payload| <= (if p == Unix then 1280 else 1200)
    ensures SendToSession(p, s).Ok? ==>
              && SendToSession(p, s).value == s.payload + s.id + [0]
              && |SendToSession(p, s).value| <= (if p == Unix then 1350 else 1220)
              && Demux(SendToSession(p, s).value) == Ok(ToSession(s))
  {
    if SendToSession(p, s).Ok? {
      var msg := s.payload + s.id;
      assert (msg + [TYPE_UDP])[..|msg|] == msg;
      assert msg[|s.payload|..] == s.id && msg[..|s.payload|] == s.payload;
    }
  }

  /**
   A packet is sent exactly if it fits the frame with its metadata and type, which follow it in this order, and it
   demultiplexes to itself.
  */
  lemma PacketRoundTrip(p: Platform, pk: Packet)
    requires pk.HasIdentity()
    ensures var wire :=
              match pk
              case RawPacket(data) => data + [1]
              case TracedPacket(packet, identity) => packet + identity + [2]
              case TracingSpanPacket(spans, identity) => spans + identity + [3];
            && (SendPacket(p, pk).Ok? <==> |wire| <= (if p == Unix then 1350 else 1220))
            && (SendPacket(p, pk).Ok? ==> SendPacket(p, pk).value == wire && Demux(wire) == Ok(ToPackets(pk)))
  {
    if SendPacket(p, pk).Ok? {
      var msg := pk.Payload() + pk.Metadata();
      assert (msg + [pk.Type()])[..|msg|] == msg;
      assert msg[|pk.Payload()|..] == pk.Metadata() && msg[..|pk.Payload()|] == pk.Payload();
      assert pk.RawPacket? ==> msg == pk.data;
    }
  }

  /**
   The other direction: exactly which bytes are accepted, and that what is made of them, sent again, gives the same
   bytes. So no two datagrams are taken for the same session message or packet.
  */
  lemma DemuxExactly(p: Platform, b: seq<Byte>)
    requires |b| <= MaxDatagramFrameSize(p)
    ensures Demux(b).Ok? <==>
              && |b| >= 1 && b[|b| - 1] <= TYPE_TRACING_SPAN
              && (b[|b| - 1] == TYPE_UDP ==> |b| >= SESSION_ID_LEN + 1)
              && (b[|b| - 1] >= TYPE_IP_WITH_TRACE ==> |b| >= Identity.IDENTITY_LENGTH + 1)
    ensures Demux(b).Ok? ==>
              match Demux(b).value
              case ToPackets(pk) => pk.HasIdentity() && SendPacket(p, pk) == Ok(b)
              case ToSession(s) =>
                && |s.id| == SESSION_ID_LEN
                && SendToSession(p, s) == if |s.payload| <= MaxDatagramPayloadSize(p) then Ok(b) else Err
  {
    if |b| >= 1 {
      var msg := b[..|b| - 1];
      assert b == msg + [b[|b| - 1]];
      if |msg| >= SESSION_ID_LEN {
        assert msg == msg[..|msg| - SESSION_ID_LEN] + msg[|msg| - SESSION_ID_LEN..];
      }
      if |msg| >= Identity.IDENTITY_LENGTH {
        assert msg == msg[..|msg| - Identity.IDENTITY_LENGTH] + msg[|msg| - Identity.IDENTITY_LENGTH..];
      }
      assert msg + [] == msg;
    }
  }

  /**
   A traced packet carries its identity through: marshalled by the sender, cut off by the receiver and unmarshalled, it
   is the same identity, and the packet is the same packet.
  */
  method TraceSurvives(p: Platform, id: Identity.Id, packet: seq<Byte>)
    returns (sent: Result<seq<Byte>>, back: Option<(Identity.Id, seq<Byte>)>)
    ensures sent.Ok? <==> |packet| + Identity.IDENTITY_LENGTH + TYPE_ID_LEN <= MaxDatagramFrameSize(p)
    ensures sent.Ok? ==> back == Some((id, packet))
  {
    var sender := new Identity.TraceIdentity(id);
    var metadata := sender.MarshalBinary();
    var pk := TracedPacket(packet, metadata);
    PacketRoundTrip(p, pk);
    sent := SendPacket(p, pk);
    back := None;
    if sent.Ok? {
      var received := Demux(sent.value).value.packet;
      var receiver := new Identity.TraceIdentity(Identity.Id(0, 0, 0, 0));
      var r := receiver.UnmarshalBinary(received.tracingIdentity);
      assert metadata[..Identity.IDENTITY_LENGTH] == metadata;
      Identity.BinaryInjective(receiver.State(), id, 4);
      back := Some((receiver.State(), received.packet));
    }
  }
}
