// GTP-U header, parser and the userspace forwarder.
module Gtp {
  import opened Bits
  import opened Routing

  const SIZE := 8
  const MSG_GPDU: byte := 0xFF
  const MSG_ECHO_REQ: byte := 0x01
  const FLAGS_STANDARD: byte := 0x30

  datatype GtpuHeader = GtpuHeader(flags: byte, msgType: byte, length: u16, teid: u32) {
    // Any of the E, S and PN bits.
    predicate HasOptionalFields() {
      flags % 8 != 0
    }
  }

  function ToBytes(h: GtpuHeader): (r: Bytes)
    ensures |r| == SIZE
  {
    [h.flags, h.msgType] + BE16(h.length) + BE32(h.teid)
  }

  function ParseHeader(buf: Bytes): Option<(GtpuHeader, Bytes)> {
    if |buf| < SIZE then None
    else Some((GtpuHeader(buf[0], buf[1], FromBE16(buf[2..4]), FromBE32(buf[4..8])), buf[SIZE..]))
  }

  function NewGpdu(teid: u32, payloadLen: u16): GtpuHeader {
    GtpuHeader(FLAGS_STANDARD, MSG_GPDU, payloadLen, teid)
  }

  lemma HeaderRoundTrip(h: GtpuHeader, rest: Bytes)
    ensures ParseHeader(ToBytes(h) + rest) == Some((h, rest))
  {
    hide BE16, BE32, FromBE16, FromBE32;
    var buf := ToBytes(h) + rest;
    assert buf[2..4] == BE16(h.length) && buf[4..8] == BE32(h.teid) && buf[SIZE..] == rest;
    BE16RoundTrip(h.length);
    BE32RoundTrip(h.teid);
  }

  // A header followed by a body is the only thing that parses to them.
  lemma ParseHeaderInverse(buf: Bytes)
    requires |buf| >= SIZE
    ensures ToBytes(ParseHeader(buf).value.0) + ParseHeader(buf).value.1 == buf
  {
    var h := ParseHeader(buf).value.0;
    BE16OfFrom(buf[2..4]);
    BE32OfFrom(buf[4..8]);
    assert buf == [buf[0], buf[1]] + buf[2..4] + buf[4..8] + buf[8..];
  }

  // Flags, message type, length and TEID, in network order.
  lemma HeaderLayout(h: GtpuHeader)
    ensures var b := ToBytes(h);
            |b| == 8 && b[0] == h.flags && b[1] == h.msgType
            && FromBE16(b[2..4]) == h.length && FromBE32(b[4..8]) == h.teid
  {
    hide BE16, BE32, FromBE16, FromBE32;
    BE16RoundTrip(h.length);
    BE32RoundTrip(h.teid);
    assert ToBytes(h)[2..4] == BE16(h.length) && ToBytes(h)[4..8] == BE32(h.teid);
  }

  // ---- Extension headers ------------------------------------------------------------------

  // Skips a chain of extension headers: length in units of four octets first, type of the
  // next one last, zero ending the chain.
  function SkipExtHeaders(buf: Bytes): Option<Bytes>
    decreases |buf|
  {
    if buf == [] then None
    else
      var n: int := buf[0] as int * 4;
      if n == 0 || |buf| < n then None
      else if buf[n - 1] == 0 then Some(buf[n..])
      else SkipExtHeaders(buf[n..])
  }

  method SkipExtHeadersLoop(input: Bytes) returns (r: Option<Bytes>)
    ensures r == SkipExtHeaders(input)
  {
    var buf := input;
    while true
      invariant SkipExtHeaders(buf) == SkipExtHeaders(input)
      decreases |buf|
    {
      if buf == [] {
        return None;
      }
      var lenUnits: int := buf[0];
      if lenUnits == 0 {
        return None;
      }
      var totalBytes := lenUnits * 4;
      if |buf| < totalBytes {
        return None;
      }
      var nextType := buf[totalBytes - 1];
      buf := buf[totalBytes..];
      if nextType == 0 {
        return Some(buf);
      }
    }
  }

  // An extension header as its sender sees it: content between the length octet and the
  // next-type octet.
  datatype ExtHeader = ExtHeader(typ: byte, content: Bytes)

  predicate ValidExt(e: ExtHeader) {
    e.typ != 0 && (|e.content| + 2) % 4 == 0 && |e.content| + 2 < 0x400
  }

  predicate ValidExts(exts: seq<ExtHeader>) {
    forall e :: e in exts ==> ValidExt(e)
  }

  function FirstType(exts: seq<ExtHeader>): byte {
    if exts == [] then 0 else exts[0].typ
  }

  function ExtBytes(exts: seq<ExtHeader>): Bytes
    requires ValidExts(exts)
  {
    if exts == [] then []
    else
      assert exts[0] in exts;
      OneExt(exts[0], FirstType(exts[1..])) + ExtBytes(exts[1..])
  }

  function OneExt(e: ExtHeader, next: byte): Bytes
    requires ValidExt(e)
  {
    var units: byte := (|e.content| + 2) / 4;
    [units] + e.content + [next]
  }

  lemma SkipsOne(e: ExtHeader, next: byte, tail: Bytes)
    requires ValidExt(e)
    ensures SkipExtHeaders(OneExt(e, next) + tail) == if next == 0 then Some(tail) else SkipExtHeaders(tail)
  {
    var buf := OneExt(e, next) + tail;
    var n := |e.content| + 2;
    assert buf[0] as int * 4 == n;
    assert buf[n - 1] == next;
    assert buf[n..] == tail;
  }

  // Whatever chain a sender puts in front, exactly its payload is left.
  lemma {:induction false} SkipsExactlyTheChain(exts: seq<ExtHeader>, payload: Bytes)
    requires ValidExts(exts) && exts != []
    ensures SkipExtHeaders(ExtBytes(exts) + payload) == Some(payload)
  {
    hide OneExt, SkipExtHeaders;
    var rest := exts[1..];
    assert exts[0] in exts;
    assert ExtBytes(exts) + payload == OneExt(exts[0], FirstType(rest)) + (ExtBytes(rest) + payload);
    SkipsOne(exts[0], FirstType(rest), ExtBytes(rest) + payload);
    if rest == [] {
      assert ExtBytes(rest) + payload == payload;
    } else {
      assert rest[0] in exts;
      SkipsExactlyTheChain(rest, payload);
    }
  }

  // Skipping always removes at least one whole unit and keeps a suffix.
  lemma {:induction false} SkipShortens(buf: Bytes)
    ensures SkipExtHeaders(buf).Some? ==>
              var k := |buf| - |SkipExtHeaders(buf).value|;
              4 <= k <= |buf| && k % 4 == 0 && SkipExtHeaders(buf).value == buf[k..]
    decreases |buf|
  {
    if buf != [] {
      var n: int := buf[0] as int * 4;
      if 0 < n <= |buf| && buf[n - 1] != 0 {
        SkipShortens(buf[n..]);
        var tail := SkipExtHeaders(buf[n..]);
        if tail.Some? {
          var k := |buf[n..]| - |tail.value|;
          assert buf[n..][k..] == buf[n + k..];
        }
      }
    }
  }

  // ---- Parser -------------------------------------------------------------------------------

  datatype GtpuPacket = GtpuPacket(header: GtpuHeader, payload: Bytes)

  function Parse(udpPayload: Bytes): Option<GtpuPacket> {
    match ParseHeader(udpPayload)
    case None => None
    case Some(hr) =>
      var hdr, rest := hr.0, hr.1;
      if !hdr.HasOptionalFields() then Some(GtpuPacket(hdr, rest))
      else if |rest| < 4 then None
      else if rest[3] == 0 then Some(GtpuPacket(hdr, rest[4..]))
      else
        match SkipExtHeaders(rest[4..])
        case None => None
        case Some(payload) => Some(GtpuPacket(hdr, payload))
  }

  // The sequence number, N-PDU number and first extension type a header with optional
  // fields is followed by.
  datatype Optional = Optional(seqNo: u16, nPdu: byte, exts: seq<ExtHeader>)

  function PacketBytes(hdr: GtpuHeader, opt: Optional, payload: Bytes): Bytes
    requires ValidExts(opt.exts)
  {
    ToBytes(hdr) +
    (if hdr.HasOptionalFields()
     then BE16(opt.seqNo) + [opt.nPdu, FirstType(opt.exts)] + ExtBytes(opt.exts)
     else []) +
    payload
  }

  // Any header, any optional fields, any chain of extension headers, any payload.
  lemma ParseRoundTrip(hdr: GtpuHeader, opt: Optional, payload: Bytes)
    requires ValidExts(opt.exts)
    ensures Parse(PacketBytes(hdr, opt, payload)) == Some(GtpuPacket(hdr, payload))
  {
    hide ToBytes, ParseHeader, BE16, SkipExtHeaders, ExtBytes;
    if hdr.HasOptionalFields() {
      var fields := BE16(opt.seqNo) + [opt.nPdu, FirstType(opt.exts)];
      var rest := fields + (ExtBytes(opt.exts) + payload);
      assert PacketBytes(hdr, opt, payload) == ToBytes(hdr) + rest;
      HeaderRoundTrip(hdr, rest);
      assert rest[4..] == ExtBytes(opt.exts) + payload;
      assert rest[3] == FirstType(opt.exts);
      if opt.exts == [] {
        NoExtBytes();
        assert rest[4..] == payload;
      } else {
        assert opt.exts[0] in opt.exts;
        SkipsExactlyTheChain(opt.exts, payload);
      }
    } else {
      assert PacketBytes(hdr, opt, payload) == ToBytes(hdr) + payload;
      HeaderRoundTrip(hdr, payload);
    }
  }

  lemma NoExtBytes()
    ensures ExtBytes([]) == []
  {
  }

  // ---- Forwarder ------------------------------------------------------------------------------

  datatype ForwardAction =
    | ForwardUl(innerIp: Bytes, route: RouteEntry)
    | EchoRequest(teid: u32)
    | ControlMessage(msgType: byte)
    | Discard
    | UnknownSession(teid: u32)

  function ProcessUplink(buf: Bytes, ulMap: map<u32, RouteEntry>): ForwardAction {
    match Parse(buf)
    case None => Discard
    case Some(pkt) =>
      if pkt.header.msgType == MSG_ECHO_REQ then EchoRequest(pkt.header.teid)
      else if pkt.header.msgType != MSG_GPDU then ControlMessage(pkt.header.msgType)
      else if pkt.header.teid in ulMap then ForwardUl(pkt.payload, ulMap[pkt.header.teid])
      else UnknownSession(pkt.header.teid)
  }

  datatype Datagram = Datagram(bytes: Bytes, addr: Octets4, port: u16)

  // `inner.len() as u16` truncates: the length field is modulo 65536.
  function EncapsulateDownlink(ueIp: Octets4, inner: Bytes, dlMap: map<Octets4, RouteEntry>): Option<Datagram> {
    if ueIp !in dlMap then None
    else
      var route := dlMap[ueIp];
      var hdr := NewGpdu(route.dlTeid, |inner| % 0x1_0000);
      Some(Datagram(ToBytes(hdr) + inner, route.enbAddr, route.enbPort))
  }

  method EncapsulateDownlinkPacket(ueIp: Octets4, inner: Bytes, dlMap: map<Octets4, RouteEntry>)
    returns (r: Option<Datagram>)
    ensures r == EncapsulateDownlink(ueIp, inner, dlMap)
  {
    if ueIp !in dlMap {
      return None;
    }
    var route := dlMap[ueIp];
    var hdr := NewGpdu(route.dlTeid, |inner| % 0x1_0000);
    var dgram: Bytes := [];
    dgram := dgram + ToBytes(hdr);
    assert dgram == ToBytes(hdr);
    dgram := dgram + inner;
    r := Some(Datagram(dgram, route.enbAddr, route.enbPort));
  }

  // What is sent down a tunnel comes out whole at an endpoint that knows the tunnel.
  lemma EncapsulateThenProcess(
    ueIp: Octets4, inner: Bytes, dlMap: map<Octets4, RouteEntry>, peer: map<u32, RouteEntry>)
    requires ueIp in dlMap
    ensures var teid := dlMap[ueIp].dlTeid;
            ProcessUplink(EncapsulateDownlink(ueIp, inner, dlMap).value.bytes, peer) ==
            if teid in peer then ForwardUl(inner, peer[teid]) else UnknownSession(teid)
  {
    hide ToBytes, ParseHeader;
    HeaderRoundTrip(NewGpdu(dlMap[ueIp].dlTeid, |inner| % 0x1_0000), inner);
  }

  // The datagram sent down a tunnel: flags 0x30, type 0xFF, the length of the packet modulo 65536,
  // the far end's TEID, the packet; to the far end's address and port.
  lemma DatagramLayout(ueIp: Octets4, inner: Bytes, dlMap: map<Octets4, RouteEntry>)
    ensures EncapsulateDownlink(ueIp, inner, dlMap).Some? <==> ueIp in dlMap
    ensures ueIp in dlMap ==>
              var d, route := EncapsulateDownlink(ueIp, inner, dlMap).value, dlMap[ueIp];
              && |d.bytes| == 8 + |inner| && d.bytes[0] == 0x30 && d.bytes[1] == 0xFF
              && FromBE16(d.bytes[2..4]) == |inner| % 65536 && FromBE32(d.bytes[4..8]) == route.dlTeid
              && d.bytes[8..] == inner && d.addr == route.enbAddr && d.port == route.enbPort
  {
    hide FromBE16, FromBE32, ToBytes;
    if ueIp in dlMap {
      var h := NewGpdu(dlMap[ueIp].dlTeid, |inner| % 0x1_0000);
      HeaderLayout(h);
      var b := ToBytes(h) + inner;
      assert b[2..4] == ToBytes(h)[2..4] && b[4..8] == ToBytes(h)[4..8] && b[8..] == inner;
    }
  }

  // What the forwarder makes of a datagram: an echo request is type 1, a packet type 255, and only
  // a packet for a known TEID is forwarded, whole and with that TEID's route.
  lemma ForwarderOutcomes(buf: Bytes, ulMap: map<u32, RouteEntry>)
    ensures var r, p := ProcessUplink(buf, ulMap), Parse(buf);
            && (p.None? <==> r == Discard)
            && (p.Some? ==>
                  var h := p.value.header;
                  && h == GtpuHeader(buf[0], buf[1], FromBE16(buf[2..4]), FromBE32(buf[4..8]))
                  && (h.msgType == 1 <==> r == EchoRequest(h.teid))
                  && (h.msgType != 1 && h.msgType != 255 <==> r == ControlMessage(h.msgType))
                  && (h.msgType == 255 && h.teid in ulMap <==> r.ForwardUl?)
                  && (r.ForwardUl? ==> r == ForwardUl(p.value.payload, ulMap[h.teid]))
                  && (h.msgType == 255 && h.teid !in ulMap <==> r == UnknownSession(h.teid)))
  {
    hide FromBE16, FromBE32, SkipExtHeaders;
  }
}
