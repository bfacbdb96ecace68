// The two in-kernel fast paths. A frame lives in a buffer with some headroom in front of
// it; both programs move the head of the frame once and overwrite bytes in place.
module Xdp {
  import opened Bits
  import opened Routing
  import opened Gtp

  const ETH_P_IP: u16 := 0x0800
  const IPPROTO_UDP: byte := 17
  const ETH_HDR_LEN := 14
  const IP_HDR_LEN := 20
  const UDP_HDR_LEN := 8

  type Mac = s: Bytes | |s| == 6 witness [0, 0, 0, 0, 0, 0]

  datatype PdnGwConfig = PdnGwConfig(gwMac: Mac, nicMac: Mac)

  datatype DlTunnelConfig = DlTunnelConfig(ethDst: Mac, ethSrc: Mac, upfIp: Octets4, ifindex: u32)

  datatype Action = Pass | Tx | Redirect(ifindex: u32)

  // Bounds-checked reads.
  function U8At(f: Bytes, off: nat): Option<byte> {
    if off + 1 > |f| then None else Some(f[off])
  }

  function U16At(f: Bytes, off: nat): Option<u16> {
    if off + 2 > |f| then None else Some(FromBE16(f[off..off + 2]))
  }

  // A read succeeds exactly inside the frame.
  lemma ReadsStayInside(f: Bytes, off: nat)
    ensures U8At(f, off) == if off < |f| then Some(f[off]) else None
    ensures U16At(f, off) == if off + 1 < |f| then Some(FromBE16([f[off], f[off + 1]])) else None
  {
    if off + 1 < |f| {
      assert f[off..off + 2] == [f[off], f[off + 1]];
    }
  }

  class XdpContext {
    const buf: array<byte>
    var data: nat
    var dataEnd: nat

    constructor (headroom: nat, frame: Bytes)
      ensures Valid() && Frame() == frame && data == headroom && fresh(buf)
    {
      buf := new byte[headroom + |frame|](i =>
        if headroom <= i < headroom + |frame| then frame[i - headroom] else 0);
      data, dataEnd := headroom, headroom + |frame|;
    }

    ghost predicate Valid()
      reads this
    {
      data <= dataEnd <= buf.Length
    }

    function Frame(): Bytes
      requires Valid()
      reads this, buf
    {
      buf[data..dataEnd]
    }

    method ReadU8(off: nat) returns (r: Option<byte>)
      requires Valid()
      ensures r == U8At(Frame(), off)
    {
      if data + off + 1 > dataEnd {
        return None;
      }
      r := Some(buf[data + off]);
    }

    method ReadU16(off: nat) returns (r: Option<u16>)
      requires Valid()
      ensures r == U16At(Frame(), off)
    {
      if data + off + 2 > dataEnd {
        return None;
      }
      r := Some(FromBE16([buf[data + off], buf[data + off + 1]]));
      assert Frame()[off] == buf[data + off] && Frame()[off + 1] == buf[data + off + 1];
      assert Frame()[off..off + 2] == [buf[data + off], buf[data + off + 1]];
    }

    method ReadOctets4(off: nat) returns (r: Option<Octets4>)
      requires Valid()
      ensures r == if off + 4 > |Frame()| then None else Some(Frame()[off..off + 4])
    {
      if data + off + 4 > dataEnd {
        return None;
      }
      r := Some([buf[data + off], buf[data + off + 1], buf[data + off + 2], buf[data + off + 3]]);
      assert Frame()[off] == buf[data + off] && Frame()[off + 1] == buf[data + off + 1];
      assert Frame()[off + 2] == buf[data + off + 2] && Frame()[off + 3] == buf[data + off + 3];
      assert Frame()[off..off + 4] == r.value;
    }

    // The kernel refuses to leave the headroom or less than an Ethernet header.
    method AdjustHead(delta: int) returns (ok: bool)
      requires Valid()
      modifies this`data
      ensures Valid()
      ensures ok == (0 <= old(data) + delta <= dataEnd - ETH_HDR_LEN)
      ensures data == if ok then old(data) + delta else old(data)
    {
      ok := 0 <= data + delta <= dataEnd - ETH_HDR_LEN;
      if ok {
        data := data + delta;
      }
    }

    method Write(off: nat, s: Bytes)
      requires Valid() && off + |s| <= dataEnd - data
      modifies buf
      ensures Valid()
      ensures Frame() == old(Frame())[..off] + s + old(Frame())[off + |s|..]
    {
      ghost var f := Frame();
      var at := data + off;
      forall k | at <= k < at + |s| {
        buf[k] := s[k - at];
      }
      assert buf[data..at] == f[..off];
      assert buf[at..at + |s|] == s;
      assert buf[at + |s|..dataEnd] == f[off + |s|..];
      assert Frame() == buf[data..at] + buf[at..at + |s|] + buf[at + |s|..dataEnd];
    }
  }

  // ---- Uplink: strip the tunnel -------------------------------------------------------------

  function Ihl(f: Bytes): nat
    requires |f| > ETH_HDR_LEN
  {
    (f[ETH_HDR_LEN] as int % 16) * 4
  }

  function UdpStart(f: Bytes): nat
    requires |f| > ETH_HDR_LEN
  {
    ETH_HDR_LEN + Ihl(f)
  }

  function GtpStart(f: Bytes): nat
    requires |f| > ETH_HDR_LEN
  {
    UdpStart(f) + UDP_HDR_LEN
  }

  // An IPv4/UDP frame to the GTP-U port that carries a whole mandatory GTP-U header.
  predicate IsGtpuFrame(f: Bytes) {
    && |f| > ETH_HDR_LEN
    && Ihl(f) >= IP_HDR_LEN
    && |f| >= GtpStart(f) + SIZE
    && U16At(f, 12) == Some(ETH_P_IP)
    && f[ETH_HDR_LEN + 9] == IPPROTO_UDP
    && U16At(f, UdpStart(f) + 2) == Some(GTP_PORT)
  }

  function UdpPayload(f: Bytes): Bytes
    requires IsGtpuFrame(f)
  {
    f[GtpStart(f)..]
  }

  function TunnelLen(f: Bytes): nat
    requires IsGtpuFrame(f)
  {
    Ihl(f) + UDP_HDR_LEN + SIZE + (if UdpPayload(f)[0] % 8 != 0 then 4 else 0)
  }

  predicate UplinkHit(f: Bytes, teids: map<u32, XdpRouteEntry>, cfg: Option<PdnGwConfig>) {
    && IsGtpuFrame(f)
    && UdpPayload(f)[1] == MSG_GPDU
    && FromBE32(UdpPayload(f)[4..8]) in teids
    && cfg.Some?
    && |f| >= ETH_HDR_LEN + TunnelLen(f)
  }

  function UplinkFrame(f: Bytes, cfg: PdnGwConfig): Bytes
    requires IsGtpuFrame(f) && |f| >= ETH_HDR_LEN + TunnelLen(f)
  {
    cfg.gwMac + cfg.nicMac + [0x08, 0x00] + f[ETH_HDR_LEN + TunnelLen(f)..]
  }

  // What the first five steps learn about a G-PDU: how much to strip, and its TEID.
  datatype Tunnel = Tunnel(strip: nat, teid: u32)

  // None is a parse fault; Some(None) a frame that is not for this program.
  method ParseOuter(ctx: XdpContext) returns (r: Option<Option<Tunnel>>)
    requires ctx.Valid()
    ensures var f := ctx.Frame();
            if IsGtpuFrame(f) && UdpPayload(f)[1] == MSG_GPDU
            then r == Some(Some(Tunnel(TunnelLen(f), FromBE32(UdpPayload(f)[4..8]))))
            else r == None || r == Some(None)
  {
    hide FromBE16, FromBE32;
    ghost var f := ctx.Frame();
    var etherType :- ctx.ReadU16(12);
    if etherType != ETH_P_IP {
      return Some(None);
    }
    var versionIhl :- ctx.ReadU8(ETH_HDR_LEN);
    var ihl: int := (versionIhl as int % 16) * 4;
    if ihl < IP_HDR_LEN {
      return Some(None);
    }
    var protocol :- ctx.ReadU8(ETH_HDR_LEN + 9);
    if protocol != IPPROTO_UDP {
      return Some(None);
    }
    var udpStart := ETH_HDR_LEN + ihl;
    var dstPort :- ctx.ReadU16(udpStart + 2);
    if dstPort != GTP_PORT {
      return Some(None);
    }
    var gtpStart := udpStart + UDP_HDR_LEN;
    var gtpFlags :- ctx.ReadU8(gtpStart);
    var msgType :- ctx.ReadU8(gtpStart + 1);
    var teid :- ctx.ReadOctets4(gtpStart + 4);
    assert UdpPayload(f)[4..8] == teid;
    if msgType != MSG_GPDU {
      return Some(None);
    }
    var gtpTotal := SIZE + if gtpFlags % 8 != 0 then 4 else 0;
    var outerLen := ETH_HDR_LEN + ihl + UDP_HDR_LEN + gtpTotal;
    r := Some(Some(Tunnel(outerLen - ETH_HDR_LEN, FromBE32(teid))));
  }

  method WriteEthernet(ctx: XdpContext, dst: Mac, src: Mac)
    requires ctx.Valid() && |ctx.Frame()| >= ETH_HDR_LEN
    modifies ctx.buf
    ensures ctx.Valid()
    ensures ctx.Frame() == dst + src + [0x08, 0x00] + old(ctx.Frame())[ETH_HDR_LEN..]
  {
    ghost var f := ctx.Frame();
    assert f == [] + f[0..];
    WriteNext([], f, dst);
    ctx.Write(0, dst);
    WriteNext([] + dst, f, src);
    ctx.Write(6, src);
    WriteNext([] + dst + src, f, [0x08]);
    ctx.Write(12, [0x08]);
    WriteNext([] + dst + src + [0x08], f, [0x00]);
    ctx.Write(13, [0x00]);
    assert [] + dst + src + [0x08] + [0x00] == dst + src + [0x08, 0x00];
  }

  // Overwriting the octets after a finished prefix extends that prefix.
  lemma WriteNext(done: Bytes, f: Bytes, s: Bytes)
    requires |done| + |s| <= |f|
    ensures var frame := done + f[|done|..];
            frame[..|done|] + s + frame[|done| + |s|..] == (done + s) + f[|done + s|..]
  {
    var frame := done + f[|done|..];
    assert frame[..|done|] == done && frame[|done| + |s|..] == f[|done| + |s|..];
  }

  // None is a parse fault, which the entry point turns into Pass.
  method Process(ctx: XdpContext, teids: map<u32, XdpRouteEntry>, cfg: Option<PdnGwConfig>)
    returns (r: Option<Action>)
    requires ctx.Valid()
    modifies ctx`data, ctx.buf
    ensures ctx.Valid()
    ensures r == Some(Tx) || r == Some(Pass) || r == None
    ensures r == Some(Tx) <==> UplinkHit(old(ctx.Frame()), teids, cfg)
    ensures r == Some(Tx) ==> ctx.Frame() == UplinkFrame(old(ctx.Frame()), cfg.value)
    ensures r != Some(Tx) ==> ctx.Frame() == old(ctx.Frame())
  {
    hide IsGtpuFrame, FromBE32, UdpPayload, TunnelLen;
    ghost var f := ctx.Frame();
    var outer :- ParseOuter(ctx);
    if outer.None? {
      return Some(Pass);
    }
    if outer.value.teid !in teids {
      return Some(Pass);
    }
    if cfg.None? {
      return Some(Pass);
    }
    var strip := outer.value.strip;
    var ok := ctx.AdjustHead(strip);
    if !ok {
      return Some(Pass);
    }
    assert ctx.Frame() == f[strip..];
    WriteEthernet(ctx, cfg.value.gwMac, cfg.value.nicMac);
    assert f[strip..][ETH_HDR_LEN..] == f[ETH_HDR_LEN + strip..];
    r := Some(Tx);
  }

  // When a frame is transmitted and as what, by offset: EtherType 0x0800, an IPv4 header of at
  // least 20 octets, protocol 17, UDP port 2152, message type 255 and a known TEID; the tunnel goes
  // and a new Ethernet header comes in front of what it carried.
  lemma UplinkOctets(f: Bytes, teids: map<u32, XdpRouteEntry>, cfg: Option<PdnGwConfig>)
    ensures UplinkHit(f, teids, cfg) <==>
            && |f| >= 50 && FromBE16(f[12..14]) == 0x0800 && f[23] == 17
            && var udp := 14 + 4 * (f[14] as int % 16);
               && udp >= 34 && |f| >= udp + 16 && FromBE16(f[udp + 2..udp + 4]) == 2152
               && f[udp + 9] == 255 && FromBE32(f[udp + 12..udp + 16]) in teids && cfg.Some?
               && (f[udp + 8] % 8 != 0 ==> |f| >= udp + 20)
    ensures UplinkHit(f, teids, cfg) ==>
              var udp := 14 + 4 * (f[14] as int % 16);
              var out := UplinkFrame(f, cfg.value);
              && out[0..6] == cfg.value.gwMac && out[6..12] == cfg.value.nicMac && out[12] == 8 && out[13] == 0
              && out[14..] == f[if f[udp + 8] % 8 != 0 then udp + 20 else udp + 16..]
  {
    hide FromBE16, FromBE32;
    if |f| > ETH_HDR_LEN && |f| >= GtpStart(f) + SIZE {
      var udp := UdpStart(f);
      assert f[udp + 8..][4..8] == f[udp + 12..udp + 16];
    }
  }

  // A frame whose G-PDU announces a chain of extension headers.
  predicate HasExtensionChain(payload: Bytes)
    requires |payload| >= SIZE
  {
    payload[0] % 8 != 0 && |payload| >= SIZE + 4 && payload[SIZE + 3] != 0
  }

  // For every frame the uplink program transmits, any IHL and any optional-field flags:
  // what follows the new Ethernet header is what the userspace forwarder would forward
  // for the same UDP payload, except exactly when there is a chain of extension headers,
  // which only userspace skips.
  lemma UplinkMatchesUserspace(
    f: Bytes, routes: Routes, teids: map<u32, XdpRouteEntry>, cfg: PdnGwConfig)
    requires teids == ProjectAll(routes.ul) && UplinkHit(f, teids, Some(cfg))
    ensures var payload := UdpPayload(f);
            ProcessUplink(payload, routes.ul) ==
              ForwardUl(UplinkFrame(f, cfg)[ETH_HDR_LEN..], routes.ul[FromBE32(payload[4..8])])
            <==> !HasExtensionChain(payload)
  {
    hide SkipExtHeaders, FromBE32, FromBE16;
    var payload := UdpPayload(f);
    var n := if payload[0] % 8 != 0 then SIZE + 4 else SIZE;
    var rest := payload[SIZE..];
    assert UplinkFrame(f, cfg)[ETH_HDR_LEN..] == payload[n..];
    if payload[0] % 8 != 0 {
      assert rest[4..] == payload[n..];
      SkipShortens(rest[4..]);
    }
  }

  // A G-PDU on TEID 1 whose header announces one extension header of four octets.
  function ChainFrame(): Bytes {
    [0, 0, 0, 0, 0, 0, 0, 0, 0, 0, 0, 0, 0x08, 0x00]
    + [0x45, 0, 0, 0, 0, 0, 0, 0, 0, 17, 0, 0, 0, 0, 0, 0, 0, 0, 0, 0]
    + [0, 0, 0x08, 0x68, 0, 0, 0, 0]
    + ChainPayload()
  }

  // Mandatory header, optional fields, the extension header, and one octet of payload.
  function ChainPayload(): Bytes {
    [0x34, 0xFF, 0, 0, 0, 0, 0, 1] + ([0, 0, 0, 0x85] + [1, 0, 0, 0, 0x45])
  }

  // That frame is transmitted with the extension header still in front of the payload, where
  // userspace forwards the payload alone.
  lemma ChainIsTransmittedWhole(route: RouteEntry, cfg: PdnGwConfig)
    ensures var routes := Routes(map[1 := route], map[]);
            && UplinkHit(ChainFrame(), ProjectAll(routes.ul), Some(cfg))
            && UplinkFrame(ChainFrame(), cfg)[ETH_HDR_LEN..] == [1, 0, 0, 0, 0x45]
            && ProcessUplink(UdpPayload(ChainFrame()), routes.ul) == ForwardUl([0x45], route)
  {
    hide FromBE16, FromBE32, ChainFrame, IsGtpuFrame, ChainPayload, Parse;
    ChainFrameLayout();
    ChainParses();
    ChainTeid();
    var f := ChainFrame();
    assert UplinkFrame(f, cfg)[ETH_HDR_LEN..] == f[54..];
  }

  lemma ChainFrameLayout()
    ensures var f := ChainFrame();
            && |f| == 59 && Ihl(f) == IP_HDR_LEN && IsGtpuFrame(f)
            && UdpPayload(f) == ChainPayload() && f[54..] == [1, 0, 0, 0, 0x45]
  {
    hide ChainPayload, FromBE16;
    ChainPayloadLayout();
    ChainPort();
    var f := ChainFrame();
    assert f[12..14] == [0x08, 0x00] && f[36..38] == [0x08, 0x68];
    assert f[42..] == ChainPayload();
    assert f[54..] == ChainPayload()[12..];
  }

  lemma ChainPort()
    ensures FromBE16([0x08, 0x68]) == GTP_PORT && FromBE16([0x08, 0x00]) == ETH_P_IP
  {
  }

  lemma ChainPayloadLayout()
    ensures var p := ChainPayload();
            && |p| == 17 && p[0] == 0x34 && p[1] == MSG_GPDU && p[4..8] == [0, 0, 0, 1]
            && p[8..] == [0, 0, 0, 0x85] + [1, 0, 0, 0, 0x45] && p[12..] == [1, 0, 0, 0, 0x45]
  {
  }

  lemma ChainTeid()
    ensures FromBE32([0, 0, 0, 1]) == 1 && FromBE32(ChainPayload()[4..8]) == 1
    ensures |ChainPayload()| == 17 && ChainPayload()[0] % 8 != 0 && ChainPayload()[1] == MSG_GPDU
  {
    ChainPayloadLayout();
  }

  lemma ChainParses()
    ensures Parse(ChainPayload()).Some? && Parse(ChainPayload()).value.payload == [0x45]
    ensures var h := Parse(ChainPayload()).value.header;
            h.msgType == MSG_GPDU && h.teid == 1
  {
    hide ChainPayload, FromBE16, SkipExtHeaders, FromBE32;
    ChainPayloadLayout();
    ChainTeid();
    ChainSkips();
    var rest := ChainPayload()[SIZE..];
    assert rest[3] == 0x85 && rest[4..] == [1, 0, 0, 0, 0x45];
  }

  lemma ChainSkips()
    ensures SkipExtHeaders([1, 0, 0, 0, 0x45]) == Some([0x45])
  {
    assert [1, 0, 0, 0, 0x45][4..] == [0x45];
  }
}
