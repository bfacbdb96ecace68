// From control-plane messages to packets: what the kernel programs do with a subscriber's
// packets after any run of the AMF that drove the user plane.
module EndToEnd {
  import opened Bits
  import opened Routing
  import opened Gtp
  import opened Xdp
  import opened XdpDownlink
  import opened Ecs
  import opened Upf
  import opened Control
  import opened AmfRuns
  import AmfNode

  // A node and a user plane at power-on, the kernel maps wired and empty.
  function Start(upfAddr: Option<Octets4>): (r: System)
    ensures WorldInv(r.node.world)
  {
    NewSystem(upfAddr, Some(Kernel(map[], map[])))
  }

  // No setup for an entity whose UE address a session already has, and neither TEIDs nor
  // entity slots beyond what 32 bits can number.
  ghost predicate Ordinary(env: AmfNode.Env, upfAddr: Option<Octets4>, inputs: seq<AmfNode.Input>) {
    && NoSetupClash(env, Start(upfAddr), inputs)
    && FreshAllocations(env, Start(upfAddr), inputs) < 0x1_0000_0000 - AmfNode.TEID_BASE
    && |Run(env, Start(upfAddr), inputs).node.world.slots| <= 0x1_0000_0000
  }

  // At most 65536 slots ever in use and no second setup make any run an ordinary one.
  lemma FewSlotsAreOrdinary(env: AmfNode.Env, upfAddr: Option<Octets4>, inputs: seq<AmfNode.Input>)
    requires NoSecondSetup(env, Start(upfAddr), inputs)
    requires FreshAllocations(env, Start(upfAddr), inputs) < 0x1_0000_0000 - AmfNode.TEID_BASE
    requires |Run(env, Start(upfAddr), inputs).node.world.slots| <= 0x1_0000
    ensures Ordinary(env, upfAddr, inputs)
  {
    hide NoSecondSetup, NoSetupClash, Run, FreshAllocations, AddressInv;
    NewSystemAddresses(upfAddr, Some(Kernel(map[], map[])));
    SlotsRuleOutClashes(env, Start(upfAddr), inputs);
  }

  // The kernel holds, for a live tunnel, the tunnel's own far end under its TEID and under
  // the address of its entity.
  lemma KernelKnowsTunnel(env: AmfNode.Env, upfAddr: Option<Octets4>, inputs: seq<AmfNode.Input>, id: u32)
    requires Ordinary(env, upfAddr, inputs)
    requires TunnelOf(Run(env, Start(upfAddr), inputs).node.world, id).Some?
    ensures var end := Run(env, Start(upfAddr), inputs);
            var t := TunnelOf(end.node.world, id).value;
            var entry := XdpRouteEntry(t.dlTeid, t.ranAddr, GTP_PORT);
            && end.up.kernel.Some?
            && t.ulTeid in end.up.routes.ul && end.up.routes.ul[t.ulTeid].ueIp == AmfNode.UeIp(id)
            && t.ulTeid in end.up.kernel.value.teids && end.up.kernel.value.teids[t.ulTeid] == entry
            && AmfNode.UeIp(id) in end.up.kernel.value.ues && end.up.kernel.value.ues[AmfNode.UeIp(id)] == entry
            && KernelMirrors(end.up)
  {
    hide WorldInv, AmfNode.UeIp, NoSetupClash, FreshAllocations, TeidsConserved, DistinctUeIps;
    var start := Start(upfAddr);
    NewSystemAddresses(upfAddr, Some(Kernel(map[], map[])));
    NewUpfAgrees();
    RunKeepsInv(env, start, inputs);
    RunKeepsDistinct(env, start, inputs);
    RunKeepsMirror(env, start, inputs);
    var end := Run(env, start, inputs);
    var t := TunnelOf(end.node.world, id).value;
    assert Backed(end, id);
    assert end.up.sessions[t.ulTeid].ueIp in end.up.routes.dl;
  }

  // Main result, downlink: an IPv4 frame for a subscriber whose tunnel is up, with the
  // program configured and room to grow, leaves in a tunnel to that subscriber's gNB under
  // that subscriber's downlink TEID, and comes out whole at the other end.
  lemma DownlinkReachesSubscriber(
    env: AmfNode.Env, upfAddr: Option<Octets4>, inputs: seq<AmfNode.Input>, id: u32,
    f: Bytes, headroom: nat, cfg: DlTunnelConfig, gnb: map<u32, RouteEntry>)
    requires Ordinary(env, upfAddr, inputs)
    requires TunnelOf(Run(env, Start(upfAddr), inputs).node.world, id).Some?
    requires TunnelOf(Run(env, Start(upfAddr), inputs).node.world, id).value.dlTeid != 0
    requires 34 <= |f| && |f| - ETH_HDR_LEN <= MAX_INNER && headroom >= GROW
    requires U16At(f, 12) == Some(ETH_P_IP) && InnerDst(f) == AmfNode.UeIp(id)
    requires TunnelOf(Run(env, Start(upfAddr), inputs).node.world, id).value.dlTeid in gnb
    ensures var end := Run(env, Start(upfAddr), inputs);
            var t := TunnelOf(end.node.world, id).value;
            && end.up.kernel.Some?
            && DownlinkHit(f, headroom, end.up.kernel.value.ues, Some(cfg))
            && var out := DownlinkFrame(f, end.up.kernel.value.ues, cfg);
               && out[26..30] == cfg.upfIp && out[30..34] == t.ranAddr
               && FromBE16(out[34..36]) == 2152 && FromBE16(out[36..38]) == 2152
               && ProcessUplink(out[42..], gnb) == ForwardUl(f[ETH_HDR_LEN..], gnb[t.dlTeid])
  {
    hide WorldInv, AmfNode.UeIp, Ordinary, Run, FromBE16, NewHeaders, Parse;
    KernelKnowsTunnel(env, upfAddr, inputs, id);
    var end := Run(env, Start(upfAddr), inputs);
    var kernel := end.up.kernel.value.ues;
    assert kernel == ProjectAll(end.up.routes.dl);
    DownlinkMatchesUserspace(f, headroom, end.up.routes, kernel, cfg);
    RedirectedOctets(f, headroom, kernel, cfg);
    EncapsulateThenProcess(InnerDst(f), f[ETH_HDR_LEN..], end.up.routes.dl, gnb);
  }

  // Main result, uplink: a G-PDU on a live tunnel's TEID hits in the kernel, and without an
  // extension chain leaves as the packet userspace would forward for that subscriber.
  lemma UplinkReachesNetwork(
    env: AmfNode.Env, upfAddr: Option<Octets4>, inputs: seq<AmfNode.Input>, id: u32, f: Bytes, cfg: PdnGwConfig)
    requires Ordinary(env, upfAddr, inputs)
    requires TunnelOf(Run(env, Start(upfAddr), inputs).node.world, id).Some?
    requires IsGtpuFrame(f) && UdpPayload(f)[1] == MSG_GPDU && |f| >= ETH_HDR_LEN + TunnelLen(f)
    requires !HasExtensionChain(UdpPayload(f))
    requires FromBE32(UdpPayload(f)[4..8]) == TunnelOf(Run(env, Start(upfAddr), inputs).node.world, id).value.ulTeid
    ensures var end := Run(env, Start(upfAddr), inputs);
            && end.up.kernel.Some?
            && UplinkHit(f, end.up.kernel.value.teids, Some(cfg))
            && var action := ProcessUplink(UdpPayload(f), end.up.routes.ul);
               action.ForwardUl? && action.innerIp == UplinkFrame(f, cfg)[ETH_HDR_LEN..]
               && action.route.ueIp == AmfNode.UeIp(id)
  {
    hide WorldInv, AmfNode.UeIp, Ordinary, Run, FromBE32, Parse, IsGtpuFrame, TunnelLen, HasExtensionChain;
    KernelKnowsTunnel(env, upfAddr, inputs, id);
    var end := Run(env, Start(upfAddr), inputs);
    UplinkMatchesUserspace(f, end.up.routes, end.up.kernel.value.teids, cfg);
  }
}
