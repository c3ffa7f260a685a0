/**
 SOCKS5 addresses as requests carry them and replies repeat them (sections 4 to 6 of RFC 1928): an address type, four or
 sixteen address bytes or a counted domain name, and a two-byte port.
*/
module Socks {
  import opened Results
  import opened Text

  const SOCKS5_VERSION: Byte := 5
  const IPV4_ADDRESS: Byte := 1
  const FQDN_ADDRESS: Byte := 3
  const IPV6_ADDRESS: Byte := 4

  // The fields of AddrSpec; an absent name or IP is empty.
  datatype AddrSpec = AddrSpec(fqdn: seq<Byte>, ip: seq<Byte>, port: int)

  datatype Request = Request(version: Byte, command: Byte, destAddr: AddrSpec)

  // An IPv6 address that stands for an IPv4 address.
  predicate IsMapped(ip: seq<Byte>) {
    |ip| == 16 && (forall i :: 0 <= i < 10 ==> ip[i] == 0) && ip[10] == 255 && ip[11] == 255
  }

  // net.IP.To4.
  function To4(ip: seq<Byte>): Option<seq<Byte>> {
    if |ip| == 4 then Some(ip) else if IsMapped(ip) then Some(ip[12..]) else None
  }

  // The address type and the address bytes; a nil address is sent as 0.0.0.0. None when there is nothing to format.
  function AddressBody(addr: Option<AddrSpec>): Option<(Byte, seq<Byte>)> {
    if addr.None? then Some((IPV4_ADDRESS, [0, 0, 0, 0]))
    else
      var a := addr.value;
      if a.fqdn != [] then Some((FQDN_ADDRESS, [|a.fqdn| % 256] + a.fqdn))
      else if To4(a.ip).Some? then Some((IPV4_ADDRESS, To4(a.ip).value))
      else if |a.ip| == 16 then Some((IPV6_ADDRESS, a.ip))
      else None
  }

  // The port, cut down to 16 bits.
  function PortBytes(port: int): seq<Byte> {
    var p: nat := port % 65536;
    [p / 256, p % 256]
  }

  function ReplyMessage(resp: Byte, addr: Option<AddrSpec>): Option<seq<Byte>> {
    match AddressBody(addr)
    case None => None
    case Some((addrType, body)) =>
      var port := if addr.None? then 0 else addr.value.port;
      Some([SOCKS5_VERSION, resp, 0, addrType] + body + PortBytes(port))
  }

  // copy(dst[at:], src), where there is room for all of src.
  method Copy(dst: array<Byte>, at: nat, src: seq<Byte>)
    requires at + |src| <= dst.Length
    modifies dst
    ensures dst[..] == old(dst[..at]) + src + old(dst[at + |src|..])
  {
    forall i | 0 <= i < |src| {
      dst[at + i] := src[i];
    }
  }

  // The message is put together in a buffer of its exact size.
  method FillMessage(resp: Byte, addrType: Byte, addrBody: seq<Byte>, addrPort: nat) returns (msg: array<Byte>)
    requires addrPort < 65536
    ensures fresh(msg)
    ensures msg[..] == [SOCKS5_VERSION, resp, 0, addrType] + addrBody + [addrPort / 256, addrPort % 256]
  {
    msg := new Byte[6 + |addrBody|];
    msg[0], msg[1], msg[2], msg[3] := SOCKS5_VERSION, resp, 0, addrType;
    assert msg[..4] == [SOCKS5_VERSION, resp, 0, addrType];
    Copy(msg, 4, addrBody);
    ghost var start := [SOCKS5_VERSION, resp, 0, addrType] + addrBody;
    assert msg[..4 + |addrBody|] == start;
    msg[4 + |addrBody|] := addrPort / 256;
    msg[4 + |addrBody| + 1] := addrPort % 256;
    assert msg[..4 + |addrBody|] == start;
    assert msg[..] == start + [addrPort / 256, addrPort % 256];
  }

  method SendReply(resp: Byte, addr: Option<AddrSpec>) returns (written: Option<seq<Byte>>)
    ensures written == ReplyMessage(resp, addr)
  {
    var formatted := AddressBody(addr);
    if formatted.None? {
      return None;
    }
    var (addrType, addrBody) := formatted.value;
    var addrPort := if addr.None? then 0 else addr.value.port % 65536;
    var msg := FillMessage(resp, addrType, addrBody, addrPort);
    return Some(msg[..]);
  }

  // Reading n bytes off the front; with fewer left, everything is used up and the read fails.
  function Take(s: seq<Byte>, n: nat): (r: (Option<seq<Byte>>, seq<Byte>)) {
    if |s| < n then (None, []) else (Some(s[..n]), s[n..])
  }

  function Port(b: seq<Byte>): nat
    requires |b| == 2
  {
    var high: int, low: int := b[0], b[1];
    high * 256 + low
  }

  // The address bytes that follow an address type: (name, IP), and what is left.
  function ReadHost(addrType: Byte, s: seq<Byte>): (Option<(seq<Byte>, seq<Byte>)>, seq<Byte>) {
    if addrType == IPV4_ADDRESS || addrType == IPV6_ADDRESS then
      var (ip, rest) := Take(s, if addrType == IPV4_ADDRESS then 4 else 16);
      (if ip.None? then None else Some(([], ip.value)), rest)
    else if addrType == FQDN_ADDRESS then
      var (len, rest) := Take(s, 1);
      if len.None? then (None, rest)
      else
        var (name, rest') := Take(rest, len.value[0]);
        (if name.None? then None else Some((name.value, [])), rest')
    else (None, s)
  }

  function ReadAddress(s: seq<Byte>): (Option<AddrSpec>, seq<Byte>) {
    var (addrType, s1) := Take(s, 1);
    if addrType.None? then (None, s1)
    else
      var (host, s2) := ReadHost(addrType.value[0], s1);
      if host.None? then (None, s2)
      else
        var (port, s3) := Take(s2, 2);
        if port.None? then (None, s3) else (Some(AddrSpec(host.value.0, host.value.1, Port(port.value))), s3)
  }

  // NewRequest: version, command and reserved byte, then the address.
  function ReadRequest(s: seq<Byte>): (Option<Request>, seq<Byte>) {
    var (header, s1) := Take(s, 3);
    if header.None? then (None, s1)
    else if header.value[0] != SOCKS5_VERSION then (None, s1)
    else
      var (dest, s2) := ReadAddress(s1);
      (if dest.None? then None else Some(Request(SOCKS5_VERSION, header.value[1], dest.value)), s2)
  }

  // The form in which an address comes back: a name without IP, or an IPv4 address in four bytes.
  function Canonical(a: AddrSpec): AddrSpec {
    if a.fqdn != [] then a.(ip := [])
    else if To4(a.ip).Some? then a.(ip := To4(a.ip).value)
    else a
  }

  lemma TakeFront(a: seq<Byte>, b: seq<Byte>)
    ensures Take(a + b, |a|) == (Some(a), b)
  {
    assert (a + b)[..|a|] == a && (a + b)[|a|..] == b;
  }

  lemma PortRoundTrip(port: int)
    ensures |PortBytes(port)| == 2 && Port(PortBytes(port)) == port % 65536
  {
    assert port % 256 == port % 65536 % 256;
  }

  lemma HostRoundTrip(a: AddrSpec, rest: seq<Byte>)
    requires AddressBody(Some(a)).Some? && |a.fqdn| <= 255
    ensures var (addrType, body) := AddressBody(Some(a)).value;
            ReadHost(addrType, body + rest) == (Some((Canonical(a).fqdn, Canonical(a).ip)), rest)
  {
    var (addrType, body) := AddressBody(Some(a)).value;
    if a.fqdn != [] {
      assert body + rest == [|a.fqdn|] + (a.fqdn + rest);
      TakeFront([|a.fqdn|], a.fqdn + rest);
      TakeFront(a.fqdn, rest);
    } else {
      TakeFront(body, rest);
    }
  }

  /**
   The reply on the wire, in every case: version 5, the reply code, a zero, the address type, the address and the port.
   No address is sent as 0.0.0.0 with port 0; a name takes precedence over an IP; an IPv4 address may come in either
   form; and only an IP of another length cannot be formatted.
  */
  lemma WireFormat(resp: Byte, addr: Option<AddrSpec>)
    ensures addr == None ==> ReplyMessage(resp, addr) == Some([5, resp, 0, 1, 0, 0, 0, 0, 0, 0])
    ensures addr.Some? ==>
              var a := addr.value;
              var p: nat := a.port % 65536;
              ReplyMessage(resp, addr) ==
              if a.fqdn != [] then Some([5, resp, 0, 3, |a.fqdn| % 256] + a.fqdn + [p / 256, p % 256])
              else if |a.ip| == 4 then Some([5, resp, 0, 1] + a.ip + [p / 256, p % 256])
              else if |a.ip| == 16 && a.ip[..12] == [0, 0, 0, 0, 0, 0, 0, 0, 0, 0, 255, 255] then
                Some([5, resp, 0, 1] + a.ip[12..] + [p / 256, p % 256])
              else if |a.ip| == 16 then Some([5, resp, 0, 4] + a.ip + [p / 256, p % 256])
              else None
  {
    if addr.Some? {
      var a := addr.value;
      if a.fqdn != [] {
        var p: nat := a.port % 65536;
        assert [5, resp, 0, 3] + ([|a.fqdn| % 256] + a.fqdn) + [p / 256, p % 256] ==
               [5, resp, 0, 3, |a.fqdn| % 256] + a.fqdn + [p / 256, p % 256];
      } else if |a.ip| == 16 {
        MappedPrefix(a.ip);
      }
    } else {
      assert [5, resp, 0, 1] + [0, 0, 0, 0] + [0, 0] == [5, resp, 0, 1, 0, 0, 0, 0, 0, 0];
    }
  }

  lemma MappedPrefix(ip: seq<Byte>)
    requires |ip| == 16
    ensures IsMapped(ip) <==> ip[..12] == [0, 0, 0, 0, 0, 0, 0, 0, 0, 0, 255, 255]
  {
    var prefix: seq<Byte> := [0, 0, 0, 0, 0, 0, 0, 0, 0, 0, 255, 255];
    if IsMapped(ip) {
      assert ip[..12] == prefix;
    }
    if ip[..12] == prefix {
      forall i | 0 <= i < 12
        ensures ip[i] == prefix[i]
      {
        assert ip[..12][i] == prefix[i];
      }
    }
  }

  // A longer name does not come back, because only the low byte of its length is sent.
  lemma LongNameIsLost(a: AddrSpec, rest: seq<Byte>)
    requires |a.fqdn| > 255
    ensures var host := ReadHost(FQDN_ADDRESS, [|a.fqdn| % 256] + a.fqdn + rest).0;
            host.Some? && host.value.0 == a.fqdn[..|a.fqdn| % 256] && host.value.0 != a.fqdn
  {
    var n := |a.fqdn| % 256;
    assert [n] + a.fqdn + rest == [n] + (a.fqdn[..n] + (a.fqdn[n..] + rest));
    TakeFront([n], a.fqdn[..n] + (a.fqdn[n..] + rest));
    TakeFront(a.fqdn[..n], a.fqdn[n..] + rest);
  }

  /**
   Exactly when the address part of a reply reads back as the address, using up just the bytes written: the name has at
   most 255 bytes and the port is a 16-bit number. What stands behind it in the stream makes no difference.
  */
  lemma AddressRoundTripExactly(resp: Byte, a: AddrSpec, rest: seq<Byte>)
    requires ReplyMessage(resp, Some(a)).Some?
    ensures var m := ReplyMessage(resp, Some(a)).value;
            && |m| >= 3
            && (ReadAddress(m[3..] + rest) == (Some(Canonical(a)), rest) <==> |a.fqdn| <= 255 && 0 <= a.port < 65536)
  {
    var m := ReplyMessage(resp, Some(a)).value;
    var (addrType, body) := AddressBody(Some(a)).value;
    var port := PortBytes(a.port);
    assert m[3..] + rest == [addrType] + (body + (port + rest));
    TakeFront([addrType], body + (port + rest));
    PortRoundTrip(a.port);
    if |a.fqdn| <= 255 {
      HostRoundTrip(a, port + rest);
      TakeFront(port, rest);
    } else {
      assert body + (port + rest) == [|a.fqdn| % 256] + a.fqdn + (port + rest);
      LongNameIsLost(a, port + rest);
    }
  }

  /** A whole message read as a request: the reply code comes back as the command, with the address and nothing left. */
  lemma MessageRoundTrip(resp: Byte, a: AddrSpec, rest: seq<Byte>)
    requires ReplyMessage(resp, Some(a)).Some? && |a.fqdn| <= 255 && 0 <= a.port < 65536
    ensures ReadRequest(ReplyMessage(resp, Some(a)).value + rest) ==
            (Some(Request(SOCKS5_VERSION, resp, Canonical(a))), rest)
  {
    AddressRoundTripExactly(resp, a, rest);
    var m := ReplyMessage(resp, Some(a)).value;
    var header, tail := m[..3], m[3..] + rest;
    assert header == [SOCKS5_VERSION, resp, 0];
    assert m + rest == header + tail;
    TakeFront(header, tail);
  }

  /** Addresses that come back unchanged: every name, every 4-byte address and every 16-byte one that is not mapped. */
  lemma CanonicalExactly(a: AddrSpec)
    ensures Canonical(a) == a <==> (if a.fqdn != [] then a.ip == [] else !IsMapped(a.ip))
  {
  }

  /** The connection's byte stream, consumed step by step. */
  class Reader {
    var stream: seq<Byte>

    constructor (bytes: seq<Byte>)
      ensures stream == bytes
    {
      stream := bytes;
    }

    method ReadAtLeast(n: nat) returns (b: Option<seq<Byte>>)
      modifies this
      ensures (b, stream) == Take(old(stream), n)
    {
      if |stream| < n {
        stream := [];
        return None;
      }
      b := Some(stream[..n]);
      stream := stream[n..];
    }

    method ReadAddrSpec() returns (addr: Option<AddrSpec>)
      modifies this
      ensures (addr, stream) == ReadAddress(old(stream))
    {
      var addrType := ReadAtLeast(1);
      if addrType.None? {
        return None;
      }
      var fqdn: seq<Byte>, ip: seq<Byte> := [], [];
      if addrType.value[0] == IPV4_ADDRESS {
        var b := ReadAtLeast(4);
        if b.None? {
          return None;
        }
        ip := b.value;
      } else if addrType.value[0] == IPV6_ADDRESS {
        var b := ReadAtLeast(16);
        if b.None? {
          return None;
        }
        ip := b.value;
      } else if addrType.value[0] == FQDN_ADDRESS {
        var len := ReadAtLeast(1);
        if len.None? {
          return None;
        }
        var b := ReadAtLeast(len.value[0]);
        if b.None? {
          return None;
        }
        fqdn := b.value;
      } else {
        return None;
      }
      var port := ReadAtLeast(2);
      if port.None? {
        return None;
      }
      addr := Some(AddrSpec(fqdn, ip, Port(port.value)));
    }

    method NewRequest() returns (r: Option<Request>)
      modifies this
      ensures (r, stream) == ReadRequest(old(stream))
    {
      var header := ReadAtLeast(3);
      if header.None? || header.value[0] != SOCKS5_VERSION {
        return None;
      }
      var dest := ReadAddrSpec();
      if dest.None? {
        return None;
      }
      r := Some(Request(SOCKS5_VERSION, header.value[1], dest.value));
    }
  }
}
