// The downlink fast path: one head adjustment, then Ethernet, outer IPv4, UDP and GTP-U
// headers written over the old Ethernet header and the new headroom.
module XdpDownlink {
  import opened Bits
  import opened Routing
  import opened Gtp
  import opened Checksum
  import opened Xdp

  const NEW_HDRS_LEN := 50
  const GROW := 36
  const MAX_INNER := 0xFFFF - (IP_HDR_LEN + UDP_HDR_LEN + SIZE)

  // The outer header before its checksum is filled in: DF set, TTL 64, UDP.
  function BareIp(total: u16, src: Octets4, dst: Octets4): (r: Bytes)
    ensures |r| == 20 && r[10] == r[11] == 0
  {
    [0x45, 0x00] + BE16(total) + [0, 0] + [0x40, 0x00] + [64] + [17] + [0, 0] + src + dst
  }

  function OuterIp(total: u16, src: Octets4, dst: Octets4): (r: Bytes)
    ensures |r| == 20
  {
    var h := BareIp(total, src, dst);
    WithChecksum(h, IpHeaderChecksum(h))
  }

  function OuterUdp(dstPort: u16, len: u16): (r: Bytes)
    ensures |r| == 8
  {
    BE16(GTP_PORT) + BE16(dstPort) + BE16(len) + [0, 0]
  }

  function NewHeaders(cfg: DlTunnelConfig, route: XdpRouteEntry, innerLen: nat): (r: Bytes)
    requires innerLen <= MAX_INNER
    ensures |r| == NEW_HDRS_LEN
  {
    cfg.ethDst + cfg.ethSrc + [0x08, 0x00]
    + OuterIp(IP_HDR_LEN + UDP_HDR_LEN + SIZE + innerLen, cfg.upfIp, route.enbIp)
    + OuterUdp(route.enbPort, UDP_HDR_LEN + SIZE + innerLen)
    + ToBytes(NewGpdu(route.dlTeid, innerLen))
  }

  // The destination of the inner packet, at the same place whatever its header length.
  function InnerDst(f: Bytes): Octets4
    requires |f| >= 34
  {
    f[30..34]
  }

  predicate RouteKnown(
    f: Bytes, routes: map<Octets4, XdpRouteEntry>, cfg: Option<DlTunnelConfig>)
  {
    && |f| >= 34
    && U16At(f, 12) == Some(ETH_P_IP)
    && InnerDst(f) in routes
    && routes[InnerDst(f)].dlTeid != 0
    && cfg.Some?
  }

  predicate DownlinkHit(
    f: Bytes, headroom: nat, routes: map<Octets4, XdpRouteEntry>, cfg: Option<DlTunnelConfig>)
  {
    RouteKnown(f, routes, cfg) && headroom >= GROW && |f| - ETH_HDR_LEN <= MAX_INNER
  }

  function DownlinkFrame(f: Bytes, routes: map<Octets4, XdpRouteEntry>, cfg: DlTunnelConfig): (r: Bytes)
    requires RouteKnown(f, routes, Some(cfg)) && |f| - ETH_HDR_LEN <= MAX_INNER
    ensures |r| == |f| + GROW
  {
    NewHeaders(cfg, routes[InnerDst(f)], |f| - ETH_HDR_LEN) + f[ETH_HDR_LEN..]
  }

  method CopyInto(a: array<byte>, off: nat, s: Bytes)
    requires off + |s| <= a.Length
    modifies a
    ensures a[..off + |s|] == old(a[..off]) + s
    ensures a[off + |s|..] == old(a[off + |s|..])
  {
    forall i | 0 <= i < |s| {
      a[off + i] := s[i];
    }
  }

  method FillIpFront(hdrs: array<byte>, total: u16)
    requires hdrs.Length == NEW_HDRS_LEN
    modifies hdrs
    ensures hdrs[..23] == old(hdrs[..14]) + ([0x45, 0x00] + BE16(total) + [0, 0] + [0x40, 0x00] + [64])
  {
    hide BE16;
    var ip := 14;
    CopyInto(hdrs, ip, [0x45, 0x00]);
    CopyInto(hdrs, ip + 2, BE16(total));
    CopyInto(hdrs, ip + 4, [0, 0]);
    CopyInto(hdrs, ip + 6, [0x40, 0x00]);
    CopyInto(hdrs, ip + 8, [64]);
  }

  method FillIp(hdrs: array<byte>, total: u16, src: Octets4, dst: Octets4)
    requires hdrs.Length == NEW_HDRS_LEN
    modifies hdrs
    ensures hdrs[..34] == old(hdrs[..14]) + OuterIp(total, src, dst)
  {
    hide BE16, WithChecksum, IpHeaderChecksum;
    var ip := 14;
    FillIpFront(hdrs, total);
    CopyInto(hdrs, ip + 9, [17]);
    CopyInto(hdrs, ip + 10, [0, 0]);
    CopyInto(hdrs, ip + 12, src);
    CopyInto(hdrs, ip + 16, dst);
    ghost var front := old(hdrs[..14]);
    ghost var bare := BareIp(total, src, dst);
    assert hdrs[..34] == front + bare;
    var ipHdrBytes := hdrs[ip..ip + 20];
    assert ipHdrBytes == bare;
    var csum := IpHeaderChecksum(ipHdrBytes);
    PatchChecksum(hdrs, csum, front, bare);
  }

  method PatchChecksum(hdrs: array<byte>, csum: u16, ghost front: Bytes, ghost bare: Bytes)
    requires hdrs.Length == NEW_HDRS_LEN && |front| == 14 && |bare| == 20
    requires hdrs[..34] == front + bare
    modifies hdrs
    ensures hdrs[..34] == front + WithChecksum(bare, csum)
  {
    hide BE16;
    ghost var before := hdrs[..];
    CopyInto(hdrs, 24, BE16(csum));
    assert hdrs[..24] == front + bare[..10] by {
      assert before[..24] == (front + bare)[..24];
    }
    assert hdrs[26..34] == bare[12..] by {
      assert hdrs[26..34] == hdrs[26..][..8] == before[26..][..8] == before[..34][26..] == (front + bare)[26..];
    }
    assert hdrs[..34] == hdrs[..26] + hdrs[26..34];
  }

  method FillUdp(hdrs: array<byte>, dstPort: u16, udpLen: u16)
    requires hdrs.Length == NEW_HDRS_LEN
    modifies hdrs
    ensures hdrs[..42] == old(hdrs[..34]) + OuterUdp(dstPort, udpLen)
  {
    hide BE16;
    var udp := 34;
    CopyInto(hdrs, udp, BE16(GTP_PORT));
    CopyInto(hdrs, udp + 2, BE16(dstPort));
    CopyInto(hdrs, udp + 4, BE16(udpLen));
    CopyInto(hdrs, udp + 6, [0, 0]);
  }

  method FillGtp(hdrs: array<byte>, innerLen: u16, dlTeid: u32)
    requires hdrs.Length == NEW_HDRS_LEN
    modifies hdrs
    ensures hdrs[..] == old(hdrs[..42]) + ToBytes(NewGpdu(dlTeid, innerLen))
  {
    hide BE16, BE32;
    var gtp := 42;
    CopyInto(hdrs, gtp, [FLAGS_STANDARD]);
    CopyInto(hdrs, gtp + 1, [MSG_GPDU]);
    CopyInto(hdrs, gtp + 2, BE16(innerLen));
    CopyInto(hdrs, gtp + 4, BE32(dlTeid));
    assert hdrs[..] == hdrs[..50];
  }

  method BuildHeaders(cfg: DlTunnelConfig, route: XdpRouteEntry, innerLen: nat) returns (hdrs: array<byte>)
    requires innerLen <= MAX_INNER
    ensures hdrs[..] == NewHeaders(cfg, route, innerLen)
    ensures fresh(hdrs)
  {
    hide OuterIp, OuterUdp, ToBytes;
    var udpLen := UDP_HDR_LEN + SIZE + innerLen;
    var outerLen := IP_HDR_LEN + udpLen;
    hdrs := new byte[NEW_HDRS_LEN](_ => 0);
    CopyInto(hdrs, 0, cfg.ethDst);
    CopyInto(hdrs, 6, cfg.ethSrc);
    CopyInto(hdrs, 12, [0x08]);
    CopyInto(hdrs, 13, [0x00]);
    assert hdrs[..14] == cfg.ethDst + cfg.ethSrc + [0x08, 0x00];
    FillIp(hdrs, outerLen, cfg.upfIp, route.enbIp);
    FillUdp(hdrs, route.enbPort, udpLen);
    FillGtp(hdrs, innerLen, route.dlTeid);
  }

  // None is a parse fault, which the entry point turns into Pass.
  method ProcessDl(ctx: XdpContext, routes: map<Octets4, XdpRouteEntry>, cfg: Option<DlTunnelConfig>)
    returns (r: Option<Action>)
    requires ctx.Valid()
    modifies ctx`data, ctx.buf
    ensures ctx.Valid()
    ensures r == None || r == Some(Pass) || (cfg.Some? && r == Some(Redirect(cfg.value.ifindex)))
    ensures (r.Some? && r.value.Redirect?) <==> DownlinkHit(old(ctx.Frame()), old(ctx.data), routes, cfg)
    ensures r.Some? && r.value.Redirect? ==> ctx.Frame() == DownlinkFrame(old(ctx.Frame()), routes, cfg.value)
    ensures !(r.Some? && r.value.Redirect?) ==>
              var grown := |ctx.Frame()| - |old(ctx.Frame())|;
              (grown == 0 || grown == GROW) && ctx.Frame()[grown..] == old(ctx.Frame())
  {
    hide FromBE16, NewHeaders;
    ghost var f := ctx.Frame();
    var etherType :- ctx.ReadU16(12);
    if etherType != ETH_P_IP {
      return Some(Pass);
    }
    var dstIp :- ctx.ReadOctets4(ETH_HDR_LEN + 16);
    if dstIp !in routes {
      return Some(Pass);
    }
    var route := routes[dstIp];
    if route.dlTeid == 0 {
      return Some(Pass);
    }
    if cfg.None? {
      return Some(Pass);
    }
    var ok := ctx.AdjustHead(-GROW);
    if !ok {
      return Some(Pass);
    }
    assert ctx.Frame()[GROW..] == f;
    var innerLen := ctx.dataEnd - ctx.data - NEW_HDRS_LEN;
    if innerLen > MAX_INNER {
      return Some(Pass);
    }
    ghost var grown := ctx.Frame();
    var hdrs := BuildHeaders(cfg.value, route, innerLen);
    ctx.Write(0, hdrs[..]);
    assert grown[NEW_HDRS_LEN..] == f[ETH_HDR_LEN..];
    r := Some(Redirect(cfg.value.ifindex));
  }

  // ---- Agreement with the userspace forwarder ------------------------------------------------

  // Where the parts of a redirected frame are.
  lemma FrameLayout(cfg: DlTunnelConfig, route: XdpRouteEntry, inner: Bytes)
    requires |inner| <= MAX_INNER
    ensures var out := NewHeaders(cfg, route, |inner|) + inner;
            && |out| == NEW_HDRS_LEN + |inner|
            && out[12..14] == [0x08, 0x00]
            && out[14..34] == OuterIp(|out| - 14, cfg.upfIp, route.enbIp)
            && out[34..42] == OuterUdp(route.enbPort, |out| - 34)
            && out[42..] == ToBytes(NewGpdu(route.dlTeid, |out| - 50)) + inner
            && out[50..] == inner
  {
    hide OuterIp, OuterUdp, ToBytes;
    var out := NewHeaders(cfg, route, |inner|) + inner;
    var eth := cfg.ethDst + cfg.ethSrc + [0x08, 0x00];
    var ip := OuterIp(|out| - 14, cfg.upfIp, route.enbIp);
    var udp := OuterUdp(route.enbPort, |out| - 34);
    var gtp := ToBytes(NewGpdu(route.dlTeid, |out| - 50));
    assert out == eth + (ip + (udp + (gtp + inner)));
    assert out[14..] == ip + (udp + (gtp + inner));
    assert out[34..] == udp + (gtp + inner);
    assert out[42..] == gtp + inner;
    assert out[12..14] == eth[12..14];
  }

  // On every frame the downlink program redirects, what follows the outer IPv4 and UDP
  // headers is the userspace datagram for that UE, addressed to the same place.
  lemma DownlinkMatchesUserspace(
    f: Bytes, headroom: nat, routes: Routes, kernel: map<Octets4, XdpRouteEntry>, cfg: DlTunnelConfig)
    requires kernel == ProjectAll(routes.dl) && DownlinkHit(f, headroom, kernel, Some(cfg))
    ensures var out := DownlinkFrame(f, kernel, cfg);
            EncapsulateDownlink(InnerDst(f), f[ETH_HDR_LEN..], routes.dl) ==
              Some(Datagram(out[42..], out[30..34], FromBE16(out[36..38])))
  {
    hide ToBytes, BE16, FromBE16;
    var route := kernel[InnerDst(f)];
    var inner := f[ETH_HDR_LEN..];
    FrameLayout(cfg, route, inner);
    var out := DownlinkFrame(f, kernel, cfg);
    DstOfOuterIp(|out| - 14, cfg.upfIp, route.enbIp);
    assert out[30..34] == out[14..34][16..20];
    assert out[36..38] == out[34..42][2..4];
    PortOfOuterUdp(route.enbPort, |out| - 34);
  }

  lemma DstOfOuterIp(total: u16, src: Octets4, dst: Octets4)
    ensures OuterIp(total, src, dst)[16..20] == dst
    ensures OuterIp(total, src, dst)[2..4] == BE16(total)
    ensures OuterIp(total, src, dst)[0] == 0x45 && OuterIp(total, src, dst)[9] == 17
  {
    hide BE16, IpHeaderChecksum;
    var h := BareIp(total, src, dst);
    assert h[16..20] == dst && h[2..4] == BE16(total);
    var r := OuterIp(total, src, dst);
    assert r[12..] == h[12..] && r[..10] == h[..10];
    assert r[16..20] == r[12..][4..8] && r[2..4] == r[..10][2..4];
  }

  lemma PortOfOuterUdp(dstPort: u16, len: u16)
    ensures FromBE16(OuterUdp(dstPort, len)[2..4]) == dstPort
    ensures FromBE16(OuterUdp(dstPort, len)[4..6]) == len
  {
    hide BE16, FromBE16;
    var r := OuterUdp(dstPort, len);
    assert r[2..4] == BE16(dstPort) && r[4..6] == BE16(len);
    BE16RoundTrip(dstPort);
    BE16RoundTrip(len);
  }

  // The three length fields count what really follows, and the outer header checks out.
  predicate CountsAndSums(out: Bytes) {
    && |out| >= 50
    && FromBE16(out[16..18]) == |out[14..]|
    && FromBE16(out[38..40]) == |out[34..]|
    && FromBE16(out[44..46]) == |out[50..]|
    && OnesSum(Words(out[14..34])) == 0xFFFF
  }

  lemma LengthsAndChecksum(
    f: Bytes, headroom: nat, kernel: map<Octets4, XdpRouteEntry>, cfg: DlTunnelConfig)
    requires DownlinkHit(f, headroom, kernel, Some(cfg))
    ensures CountsAndSums(DownlinkFrame(f, kernel, cfg)) && |DownlinkFrame(f, kernel, cfg)| == |f| + 36
  {
    hide ToBytes, BE16, FromBE16, OnesSum, IpHeaderChecksum;
    var route := kernel[InnerDst(f)];
    FrameLayout(cfg, route, f[ETH_HDR_LEN..]);
    var out := DownlinkFrame(f, kernel, cfg);
    DstOfOuterIp(|out| - 14, cfg.upfIp, route.enbIp);
    assert out[16..18] == out[14..34][2..4];
    BE16RoundTrip(|out| - 14);
    PortOfOuterUdp(route.enbPort, |out| - 34);
    assert out[38..40] == out[34..42][4..6];
    GtpLength(route.dlTeid, |out| - 50);
    assert out[44..46] == out[42..][2..4] == ToBytes(NewGpdu(route.dlTeid, |out| - 50))[2..4];
    ChecksumVerifies(BareIp(|out| - 14, cfg.upfIp, route.enbIp));
  }

  lemma GtpLength(teid: u32, len: u16)
    ensures FromBE16(ToBytes(NewGpdu(teid, len))[2..4]) == len
  {
    hide BE16, FromBE16;
    assert ToBytes(NewGpdu(teid, len))[2..4] == BE16(len);
    BE16RoundTrip(len);
  }

  // A peer that knows the TEID strips a redirected frame back to the original inner packet.
  lemma UplinkUndoesDownlink(
    f: Bytes, headroom: nat, kernel: map<Octets4, XdpRouteEntry>, cfg: DlTunnelConfig,
    teids: map<u32, XdpRouteEntry>, gw: PdnGwConfig)
    requires DownlinkHit(f, headroom, kernel, Some(cfg))
    requires kernel[InnerDst(f)].enbPort == GTP_PORT && kernel[InnerDst(f)].dlTeid in teids
    ensures var out := DownlinkFrame(f, kernel, cfg);
            && UplinkHit(out, teids, Some(gw))
            && UplinkFrame(out, gw) == gw.gwMac + gw.nicMac + [0x08, 0x00] + f[ETH_HDR_LEN..]
  {
    hide OuterIp, OuterUdp, NewHeaders, FromBE16, FromBE32, ToBytes;
    var route := kernel[InnerDst(f)];
    var inner := f[ETH_HDR_LEN..];
    FrameLayout(cfg, route, inner);
    var out := DownlinkFrame(f, kernel, cfg);
    DstOfOuterIp(|out| - 14, cfg.upfIp, route.enbIp);
    assert out[14] == out[14..34][0] && out[23] == out[14..34][9];
    assert FromBE16(out[12..14]) == ETH_P_IP by { IpEtherType(); }
    PortOfOuterUdp(route.enbPort, |out| - 34);
    assert out[36..38] == out[34..42][2..4];
    GpduFields(route.dlTeid, |out| - 50, inner);
    assert out[42..][4..8] == UdpPayload(out)[4..8];
  }

  lemma IpEtherType()
    ensures FromBE16([0x08, 0x00]) == ETH_P_IP
  {
  }

  lemma GpduFields(teid: u32, len: u16, inner: Bytes)
    ensures var b := ToBytes(NewGpdu(teid, len)) + inner;
            && b[0] == FLAGS_STANDARD && b[1] == MSG_GPDU && FromBE32(b[4..8]) == teid && b[SIZE..] == inner
  {
    hide BE16, BE32, FromBE32;
    var h := NewGpdu(teid, len);
    assert (ToBytes(h) + inner)[4..8] == BE32(teid);
    BE32RoundTrip(teid);
  }

  // When a frame is redirected, by offset: EtherType 0x0800, room for the headers, a short enough
  // packet, and a route with a TEID for its destination address.
  lemma RedirectedWhen(f: Bytes, headroom: nat, routes: map<Octets4, XdpRouteEntry>, cfg: Option<DlTunnelConfig>)
    ensures DownlinkHit(f, headroom, routes, cfg) <==>
            && 34 <= |f| <= 65513 && headroom >= 36 && cfg.Some? && FromBE16(f[12..14]) == 0x0800
            && f[30..34] in routes && routes[f[30..34]].dlTeid != 0
  {
    hide FromBE16;
  }

  // What it is redirected as, by offset.
  predicate Tunnelled(out: Bytes, inner: Bytes, cfg: DlTunnelConfig, route: XdpRouteEntry) {
    && |out| == 50 + |inner|
    && out[0..6] == cfg.ethDst && out[6..12] == cfg.ethSrc && out[12] == 8 && out[13] == 0
    && out[14..16] == [0x45, 0] && FromBE16(out[16..18]) == 36 + |inner|
    && out[18..24] == [0, 0, 0x40, 0, 64, 17] && out[26..30] == cfg.upfIp && out[30..34] == route.enbIp
    && FromBE16(out[34..36]) == 2152 && FromBE16(out[36..38]) == route.enbPort
    && FromBE16(out[38..40]) == 16 + |inner| && out[40..42] == [0, 0]
    && out[42] == 0x30 && out[43] == 0xFF && FromBE16(out[44..46]) == |inner|
    && FromBE32(out[46..50]) == route.dlTeid && out[50..] == inner
  }

  lemma RedirectedOctets(f: Bytes, headroom: nat, routes: map<Octets4, XdpRouteEntry>, cfg: DlTunnelConfig)
    requires DownlinkHit(f, headroom, routes, Some(cfg))
    ensures Tunnelled(DownlinkFrame(f, routes, cfg), f[14..], cfg, routes[f[30..34]])
  {
    var route := routes[InnerDst(f)];
    var inner := f[ETH_HDR_LEN..];
    FrameLayout(cfg, route, inner);
    EthernetOf(cfg, route, inner);
    var out := DownlinkFrame(f, routes, cfg);
    OuterIpOctets(|out| - 14, cfg.upfIp, route.enbIp);
    OuterUdpOctets(route.enbPort, |out| - 34);
    HeaderLayout(NewGpdu(route.dlTeid, |out| - 50));
    var ip, udp := OuterIp(|out| - 14, cfg.upfIp, route.enbIp), OuterUdp(route.enbPort, |out| - 34);
    var gtp := ToBytes(NewGpdu(route.dlTeid, |out| - 50));
    Slices(out, 14, 34, 0, 2);
    Slices(out, 14, 34, 2, 4);
    Slices(out, 14, 34, 4, 10);
    Slices(out, 14, 34, 12, 16);
    Slices(out, 14, 34, 16, 20);
    Slices(out, 34, 42, 0, 2);
    Slices(out, 34, 42, 2, 4);
    Slices(out, 34, 42, 4, 6);
    Slices(out, 34, 42, 6, 8);
    GtpFront(out, gtp, inner);
    hide *;
    assert out[14..34] == ip && out[34..42] == udp;
  }

  lemma Slices(s: Bytes, a: nat, b: nat, i: nat, j: nat)
    requires a <= b <= |s| && i <= j <= b - a
    ensures s[a..b][i..j] == s[a + i..a + j]
  {
    var part := s[a..b];
    forall k | 0 <= k < j - i
      ensures part[i..j][k] == s[a + i..a + j][k]
    {
      assert part[i + k] == s[a + (i + k)];
    }
    assert part[i..j] == s[a + i..a + j];
  }

  lemma GtpFront(out: Bytes, gtp: Bytes, inner: Bytes)
    requires |gtp| == 8 && |out| == 50 + |inner| && out[42..] == gtp + inner
    ensures out[42] == gtp[0] && out[43] == gtp[1] && out[44..46] == gtp[2..4] && out[46..50] == gtp[4..8]
  {
    assert out[42..][0] == gtp[0] && out[42..][1] == gtp[1];
    assert out[42..] == out[42..|out|];
    Slices(out, 42, |out|, 2, 4);
    Slices(out, 42, |out|, 4, 8);
    assert (gtp + inner)[2..4] == gtp[2..4] && (gtp + inner)[4..8] == gtp[4..8];
  }

  lemma EthernetOf(cfg: DlTunnelConfig, route: XdpRouteEntry, inner: Bytes)
    requires |inner| <= MAX_INNER
    ensures var out := NewHeaders(cfg, route, |inner|) + inner;
            out[0..6] == cfg.ethDst && out[6..12] == cfg.ethSrc && out[12] == 8 && out[13] == 0
  {
    hide OuterIp, OuterUdp, ToBytes;
  }

  lemma OuterIpOctets(total: u16, src: Octets4, dst: Octets4)
    ensures var ip := OuterIp(total, src, dst);
            && ip[0..2] == [0x45, 0] && FromBE16(ip[2..4]) == total && ip[4..10] == [0, 0, 0x40, 0, 64, 17]
            && ip[12..16] == src && ip[16..20] == dst
  {
    hide BE16, IpHeaderChecksum, FromBE16;
    BE16RoundTrip(total);
    var h := BareIp(total, src, dst);
    assert h[0..2] == [0x45, 0] && h[2..4] == BE16(total) && h[4..10] == [0, 0, 0x40, 0, 64, 17];
    assert h[12..16] == src && h[16..20] == dst;
    var r := OuterIp(total, src, dst);
    assert r[12..] == h[12..] && r[..10] == h[..10];
    assert r[0..2] == r[..10][0..2] && r[2..4] == r[..10][2..4] && r[4..10] == r[..10][4..10];
    assert r[12..16] == r[12..][0..4] == h[12..][0..4] == src;
    assert r[16..20] == r[12..][4..8] == h[12..][4..8] == dst;
    assert r[0..2] == [0x45, 0] && r[2..4] == BE16(total) && r[4..10] == h[4..10];
  }

  lemma OuterUdpOctets(dstPort: u16, len: u16)
    ensures var udp := OuterUdp(dstPort, len);
            && FromBE16(udp[0..2]) == 2152 && FromBE16(udp[2..4]) == dstPort && FromBE16(udp[4..6]) == len
            && udp[6..8] == [0, 0]
  {
    hide BE16, FromBE16;
    BE16RoundTrip(GTP_PORT);
    BE16RoundTrip(dstPort);
    BE16RoundTrip(len);
    var r := OuterUdp(dstPort, len);
    assert r[0..2] == BE16(GTP_PORT) && r[2..4] == BE16(dstPort) && r[4..6] == BE16(len);
  }
}
