// What the AMF's handlers achieve together: protected messages reach the handler as what the
// UE meant, protected replies reach the UE, and the registration procedure completes in any
// interleaving with other subscribers.
module AmfProcedures {
  import opened Bits
  import opened NasSecurity
  import opened Ecs
  import opened Upf
  import opened Control
  import opened BearerLists
  import opened AmfNode
  import opened AmfRuns
  import opened AmfIsolation
  import Locality
  import Ngap = NgapCodec

  // A UE message protected in step with the entity's context, up to 255 losses, unwraps to
  // the plain message it carries, and only moves the uplink COUNT.
  lemma ProtectedUnwrapsToPlain(env: Env, slot: Slot, ue: NasCtx, sht: byte, plain: Bytes, gap: nat)
    requires slot.live && slot.nas5g.Some? && Paired(ue, slot.nas5g.value) && sht % 16 != 0 && gap < 0x100
    requires CountOf(ue, Uplink) == (CountOf(slot.nas5g.value, Uplink) + gap) % 0x1_0000_0000
    ensures var sent := EncodeProtected(env.crypto, FiveGs, ue, Uplink, sht, NAS_BEARER, plain);
            Unwrap(env, slot, sent.1) ==
            (slot.(nas5g := Some(WithCount(slot.nas5g.value, Uplink, CountOf(sent.0, Uplink)))), Some(plain))
  {
    hide DecodeProtected;
    DeliverAcrossGap(env.crypto, FiveGs, ue, slot.nas5g.value, Uplink, sht, NAS_BEARER, plain, gap);
    SecondOctet(env.crypto, ue, sht, plain);
  }

  lemma SecondOctet(c: Crypto, ue: NasCtx, sht: byte, plain: Bytes)
    ensures var buf := EncodeProtected(c, FiveGs, ue, Uplink, sht, NAS_BEARER, plain).1;
            |buf| >= 2 && buf[1] % 16 == sht % 16
  {
    hide ProtectAt;
  }

  // The AMF's key for an entity, and the context the UE derives from it for itself.
  function Kamf(env: Env, slot: Slot): Ngap.Octets32 {
    var a := slot.security5g;
    env.kamf(a.ck, a.ik, a.plmn, XorBytes(a.sqnUsed, a.ak), slot.identity.imsi)
  }

  // The accept opens at the UE, and both sides end in step.
  lemma AcceptReachesUe(env: Env, upf: Option<Octets4>, slot: Slot, id: u32, ranId: u32, teid: u32)
    requires slot.live
    ensures var l := SecurityModeDone(env, upf, slot, id, ranId, teid);
            var ue := NewContext(env, Kamf(env, slot));
            && |l.out| == 1
            && (upf.Some? ==> l.out[0].InitialContextSetupRequest? && l.out[0].nasPduOpt.Some?)
            && (upf.None? ==> l.out[0].DownlinkNasTransport?)
            && var accept := if upf.Some? then l.out[0].nasPduOpt.value else l.out[0].nasPdu;
               && DecodeProtected(env.crypto, FiveGs, ue, Downlink, NAS_BEARER, accept) ==
                  (ue.(dl := 1), Some(env.registrationAccept(PlaceholderGuti(id))))
               && l.slot.nas5g == Some(ue.(dl := 1))
  {
    hide DecodeProtected, EncodeProtected, PlaceholderGuti, UeIp;
    var ue := NewContext(env, Kamf(env, slot));
    var accept := env.registrationAccept(PlaceholderGuti(id));
    DeliverAcrossGap(env.crypto, FiveGs, ue, ue, Downlink, SHT_INTEGRITY_CIPHERED, NAS_BEARER, accept, 0);
    SenderMovesOne(env.crypto, FiveGs, ue, SHT_INTEGRITY_CIPHERED, accept);
  }

  // The session the gNB is asked to set up is the tunnel the entity and the user plane have.
  lemma RequestNamesTunnel(env: Env, addr: Octets4, slot: Slot, id: u32, ranId: u32, teid: u32)
    requires slot.live
    ensures var l := SecurityModeDone(env, Some(addr), slot, id, ranId, teid);
            && l.out[0].sessions != []
            && FromBE32(l.out[0].sessions[0].gtpTeid) == l.slot.tunnel.value.ulTeid == l.events[0].ulTeid
            && l.out[0].sessions[0].transportAddr == addr
            && l.out[0].securityKey == Kamf(env, slot)
  {
    hide EncodeProtected, BE32, FromBE32, PlaceholderGuti, UeIp;
    BE32RoundTrip(teid);
  }

  type Handed = Locality.Handed<Input>

  // ---- The registration procedure --------------------------------------------------------------

  // The five messages of a registration, addressed to one entity.
  datatype RegistrationRun = RegistrationRun(
    request: Input, identity: Input, answer: Input, complete: Input, setup: Input,
    ranId: u32, suci: Suci, imsi: u64, a: AuthInfo)

  predicate IsPlain(pdu: Bytes) {
    |pdu| < 2 || pdu[1] % 16 == 0
  }

  ghost predicate Says(env: Env, i: Input, ranId: u32, pdu: NasPdu) {
    && i.msg.UplinkNasTransport? && i.msg.ranId == ranId
    && IsPlain(i.msg.nasPdu) && env.decode(i.msg.nasPdu) == pdu
  }

  ghost predicate Follows(env: Env, r: RegistrationRun) {
    && r.request.msg.InitialUeMessage? && r.request.msg.ranId == r.ranId
    && Registering(env, r.request.msg.nasPdu)
    && Says(env, r.identity, r.ranId, IdentityResponse(Some(r.suci)))
    && r.identity.auth == Some(r.a) && ResolveSuci(r.suci) == Some(r.imsi)
    && Says(env, r.answer, r.ranId, AuthenticationResponse(Expected(env, r)))
    && Says(env, r.complete, r.ranId, SecurityModeComplete)
    && r.setup.msg.InitialContextSetupResponse? && r.setup.msg.setup != []
  }

  // The response the vector and the serving network call for.
  function Expected(env: Env, r: RegistrationRun): Bytes
    requires r.request.msg.InitialUeMessage?
  {
    env.resStar(r.a.ck, r.a.ik, r.request.msg.tai[..3], r.a.rand, r.a.res)
  }

  function Entered(env: Env, r: RegistrationRun): Slot
    requires Follows(env, r)
  {
    RegisterSlot(Blank().(live := true), r.ranId, r.request.msg.tai[..3])
  }

  function Challenged(env: Env, id: u32, r: RegistrationRun): Slot
    requires Follows(env, r)
  {
    IdentityDone(env, Entered(env, r), id, r.ranId, Some(r.suci), Some(r.a)).slot
  }

  function Answered(slot: Slot): Slot {
    slot.(security5g := ClearChallenge(slot.security5g), auth := Authenticated)
  }

  lemma Plainly(env: Env, upf: Option<Octets4>, slot: Slot, id: u32, ranId: u32, i: Input, pdu: NasPdu, teid: u32)
    requires Says(env, i, ranId, pdu)
    ensures LocalStep(env, upf, slot, id, i, teid) ==
            Dispatch(env, upf, slot, id, ranId, i.msg.nasPdu, i.auth, teid)
  {
    hide Dispatch, DecodeProtected;
  }

  lemma RequestStage(env: Env, upf: Option<Octets4>, id: u32, r: RegistrationRun, teid: u32)
    requires Follows(env, r)
    ensures LocalStep(env, upf, Blank(), id, r.request, teid) ==
            Local(Entered(env, r), [Ngap.DownlinkNasTransport(id, r.ranId, env.identityRequest)], [], false)
    ensures Entered(env, r).live && Entered(env, r).security5g.plmn == r.request.msg.tai[..3]
  {
    hide EmptyAka;
  }

  lemma IdentityStage(env: Env, upf: Option<Octets4>, id: u32, r: RegistrationRun, teid: u32)
    requires Follows(env, r)
    ensures LocalStep(env, upf, Entered(env, r), id, r.identity, teid) ==
            Local(Challenged(env, id, r),
                  [Ngap.DownlinkNasTransport(id, r.ranId, env.authRequest(r.a.rand, Autn(r.a)))], [], false)
    ensures Challenged(env, id, r).live && Challenged(env, id, r).identity == Identity(r.imsi, r.ranId, ZERO_ADDR)
    ensures Challenged(env, id, r).security5g.pendingXres == Expected(env, r)
  {
    hide LocalStep, Autn, Entered, ResolveSuci;
    RequestStage(env, upf, id, r, teid);
    Plainly(env, upf, Entered(env, r), id, r.ranId, r.identity, IdentityResponse(Some(r.suci)), teid);
  }

  lemma AnswerStage(env: Env, upf: Option<Octets4>, id: u32, r: RegistrationRun, teid: u32)
    requires Follows(env, r)
    ensures LocalStep(env, upf, Challenged(env, id, r), id, r.answer, teid) ==
            Local(Answered(Challenged(env, id, r)), [Ngap.DownlinkNasTransport(id, r.ranId, env.secModeCmd)], [], false)
    ensures Kamf(env, Answered(Challenged(env, id, r))) == Kamf(env, Challenged(env, id, r))
  {
    hide LocalStep, Challenged;
    IdentityStage(env, upf, id, r, teid);
    Plainly(env, upf, Challenged(env, id, r), id, r.ranId, r.answer, AuthenticationResponse(Expected(env, r)),
            teid);
  }

  lemma CompleteStage(env: Env, upf: Option<Octets4>, slot: Slot, id: u32, r: RegistrationRun, teid: u32)
    requires Follows(env, r) && slot.live && upf.Some?
    ensures var l := SecurityModeDone(env, upf, slot, id, r.ranId, teid);
            && LocalStep(env, upf, slot, id, r.complete, teid) == l && l.took
            && l.slot.live && l.slot.identity == slot.identity && l.slot.auth == slot.auth
            && l.slot.tunnel == Some(Tunnel(teid, 0, ZERO_ADDR))
            && l.slot.nas5g == Some(NewContext(env, Kamf(env, slot)).(dl := 1))
            && |l.out| == 1 && l.out[0].InitialContextSetupRequest? && l.out[0].sessions != []
            && FromBE32(l.out[0].sessions[0].gtpTeid) == teid
  {
    hide LocalStep, EncodeProtected, Kamf, NewContext, FromBE32, BE32, ClearKeys, UeIp, PlaceholderGuti;
    Plainly(env, upf, slot, id, r.ranId, r.complete, SecurityModeComplete, teid);
    AcceptReachesUe(env, upf, slot, id, r.ranId, teid);
    RequestNamesTunnel(env, upf.value, slot, id, r.ranId, teid);
  }

  lemma SetupStage(env: Env, upf: Option<Octets4>, slot: Slot, id: u32, r: RegistrationRun, teid: u32)
    requires Follows(env, r) && slot.live && slot.tunnel.Some?
    ensures var l := LocalStep(env, upf, slot, id, r.setup, teid);
            var first := r.setup.msg.setup[0];
            && l.out == []
            && l.slot == slot.(tunnel := Some(
                 slot.tunnel.value.(dlTeid := FromBE32(first.gtpTeid), ranAddr := first.transportAddr)))
  {
    hide FromBE32;
  }

  // The entity after its own five messages, the fourth of which takes a TEID.
  lemma RegistrationAlone(env: Env, addr: Octets4, id: u32, r: RegistrationRun, own: seq<Handed>)
    requires Follows(env, r) && Locality.Messages(own) == [r.request, r.identity, r.answer, r.complete, r.setup]
    ensures var (slot, sent) := Locality.LocalRun(Sight(env), Some(addr), Blank(), id, own);
            var first := r.setup.msg.setup[0];
            var teid := Locality.Offer(own[3]);
            && slot.live && slot.identity == Identity(r.imsi, r.ranId, ZERO_ADDR) && slot.auth == Authenticated
            && slot.tunnel == Some(Tunnel(teid, FromBE32(first.gtpTeid), first.transportAddr))
            && slot.nas5g == Some(NewContext(env, Kamf(env, Challenged(env, id, r))).(dl := 1))
            && |sent| == 4
            && sent[0] == Ngap.DownlinkNasTransport(id, r.ranId, env.identityRequest)
            && sent[1] == Ngap.DownlinkNasTransport(id, r.ranId, env.authRequest(r.a.rand, Autn(r.a)))
            && sent[2] == Ngap.DownlinkNasTransport(id, r.ranId, env.secModeCmd)
            && sent[3].InitialContextSetupRequest? && sent[3].sessions != []
            && FromBE32(sent[3].sessions[0].gtpTeid) == teid
    ensures Locality.TakesExactly(Sight(env), Some(addr), Blank(), id, own) ==> own[3].taken.Some?
  {
    hide SecurityModeDone, Kamf, NewContext, FromBE32, EmptyAka, Autn;
    hide Locality.LocalRun, Locality.TakesExactly, LocalStep, Follows, Challenged, Entered;
    var upf, local := Some(addr), Sight(env);
    var teid := Locality.Offer(own[3]);
    var s1, s2 := Entered(env, r), Challenged(env, id, r);
    var s3 := Answered(s2);
    var l4 := SecurityModeDone(env, upf, s3, id, r.ranId, teid);
    var l5 := LocalStep(env, upf, l4.slot, id, r.setup, Locality.Offer(own[4]));
    RequestStage(env, upf, id, r, Locality.Offer(own[0]));
    IdentityStage(env, upf, id, r, Locality.Offer(own[1]));
    AnswerStage(env, upf, id, r, Locality.Offer(own[2]));
    CompleteStage(env, upf, s3, id, r, teid);
    SetupStage(env, upf, l4.slot, id, r, Locality.Offer(own[4]));
    FiveInARow(own);
    FiveMessages(own, r);
    Locality.Unroll(local, upf, Blank(), id, own[0], own[1..]);
    Locality.Unroll(local, upf, s1, id, own[1], own[2..]);
    Locality.Unroll(local, upf, s2, id, own[2], own[3..]);
    Locality.Unroll(local, upf, s3, id, own[3], own[4..]);
    Locality.Unroll(local, upf, l4.slot, id, own[4], []);
    Locality.NoMore(local, upf, l5.slot, id);
  }

  lemma FiveInARow<T>(s: seq<T>)
    requires |s| == 5
    ensures s == [s[0]] + s[1..] && s[1..] == [s[1]] + s[2..] && s[2..] == [s[2]] + s[3..]
    ensures s[3..] == [s[3]] + s[4..] && s[4..] == [s[4]] + []
  {
  }

  lemma FiveMessages(own: seq<Handed>, r: RegistrationRun)
    requires Locality.Messages(own) == [r.request, r.identity, r.answer, r.complete, r.setup]
    ensures |own| == 5 && own[0].input == r.request && own[1].input == r.identity && own[2].input == r.answer
    ensures own[3].input == r.complete && own[4].input == r.setup
  {
    var m := Locality.Messages(own);
    assert |m| == |own| && m[0] == own[0].input && m[1] == own[1].input && m[2] == own[2].input;
    assert m[3] == own[3].input && m[4] == own[4].input;
  }

  // None of the five identifies the entity anew while it holds a tunnel.
  lemma RegistrationKeepsImsi(env: Env, addr: Octets4, id: u32, r: RegistrationRun, own: seq<Handed>)
    requires Follows(env, r) && Locality.Messages(own) == [r.request, r.identity, r.answer, r.complete, r.setup]
    ensures !Locality.Sometime(Reidentified(env), Sight(env), Some(addr), Blank(), id, own)
  {
    hide LocalStep, Locality.Sometime, Reidentified, Blank, Expected;
    var p, local, upf := Reidentified(env), Sight(env), Some(addr);
    FiveInARow(own);
    FiveMessages(own, r);
    RequestStage(env, upf, id, r, Locality.Offer(own[0]));
    EnteredHasNoTunnel(env, r, own[0], own[1]);
    var s1 := Entered(env, r);
    var s2 := LocalStep(env, upf, s1, id, r.identity, Locality.Offer(own[1])).slot;
    var s3 := LocalStep(env, upf, s2, id, r.answer, Locality.Offer(own[2])).slot;
    var s4 := LocalStep(env, upf, s3, id, r.complete, Locality.Offer(own[3])).slot;
    var s5 := LocalStep(env, upf, s4, id, r.setup, Locality.Offer(own[4])).slot;
    NotIdentity(env, s2, own[2]);
    NotIdentity(env, s3, own[3]);
    NotIdentity(env, s4, own[4]);
    Locality.SometimeUnroll(p, local, upf, Blank(), id, own[0], own[1..]);
    Locality.SometimeUnroll(p, local, upf, s1, id, own[1], own[2..]);
    Locality.SometimeUnroll(p, local, upf, s2, id, own[2], own[3..]);
    Locality.SometimeUnroll(p, local, upf, s3, id, own[3], own[4..]);
    Locality.SometimeUnroll(p, local, upf, s4, id, own[4], []);
    Locality.SometimeNever(p, local, upf, s5, id);
  }

  lemma EnteredHasNoTunnel(env: Env, r: RegistrationRun, request: Handed, identity: Handed)
    requires Follows(env, r) && request.input == r.request
    ensures !Reidentified(env)(Blank(), request) && !Reidentified(env)(Entered(env, r), identity)
  {
    hide EmptyAka, Indexed;
  }

  lemma NotIdentity(env: Env, slot: Slot, h: Handed)
    requires h.input.msg.UplinkNasTransport? ==>
               IsPlain(h.input.msg.nasPdu) && !env.decode(h.input.msg.nasPdu).IdentityResponse?
    ensures !Reidentified(env)(slot, h)
  {
    hide DecodeProtected;
  }

  // Main result. However the messages of other subscribers are interleaved with the five of
  // a registration, as long as no setup clashes with a session's address: the entity ends
  // authenticated with its tunnel up, and the user plane holds the session for this IMSI,
  // reachable by the entity's own UE address in both directions.
  lemma RegistrationCompletes(
    env: Env, sys: System, inputs: seq<Input>, id: u32, addr: Octets4, r: RegistrationRun)
    requires SysInv(TEID_BASE, sys) && sys.node.upf == Some(addr) && NoSetupClash(env, sys, inputs)
    requires IdAddresses(sys.up) && DistinctUeIps(sys.up) && DownlinkAgrees(sys.up)
    requires sys.node.teids.next + FreshAllocations(env, sys, inputs) < 0x1_0000_0000
    requires |Run(env, sys, inputs).node.world.slots| <= 0x1_0000_0000
    requires !IsLive(sys.node.world, id) && Follows(env, r)
    requires Locality.Messages(Own(env, sys, inputs, id)) == [r.request, r.identity, r.answer, r.complete, r.setup]
    ensures |Own(env, sys, inputs, id)| == 5 && Own(env, sys, inputs, id)[3].taken.Some?
    ensures var end := Run(env, sys, inputs);
            var first := r.setup.msg.setup[0];
            var teid := Own(env, sys, inputs, id)[3].taken.value;
            var t := Tunnel(teid, FromBE32(first.gtpTeid), first.transportAddr);
            && SlotOf(end.node.world, id).auth == Authenticated
            && SlotOf(end.node.world, id).identity.imsi == r.imsi
            && TunnelOf(end.node.world, id) == Some(t)
            && t.ulTeid in end.up.sessions && t.ulTeid in end.up.routes.ul && UeIp(id) in end.up.routes.dl
            && var session := end.up.sessions[t.ulTeid];
               && session.entityId == id && session.imsi == r.imsi && session.ueIp == UeIp(id)
               && session.dlTeid == t.dlTeid && session.ranAddr == t.ranAddr
               && end.up.routes.dl[UeIp(id)] == end.up.routes.ul[t.ulTeid]
  {
    hide Locality.LocalRun, Locality.TakesExactly, Sight, Own, Run, Step, FromBE32, Follows, TeidsConserved, UeIp;
    hide NoSetupClash, FreshAllocations, DistinctUeIps, Locality.Sometime, Reidentified;
    DeadIsBlank(sys.node.world, id);
    hide WorldInv;
    RunKeepsInv(env, sys, inputs);
    RunKeepsDistinct(env, sys, inputs);
    EntityIsItsOwnRun(env, sys, inputs, id);
    FiveMessages(Own(env, sys, inputs, id), r);
    RegistrationAlone(env, addr, id, r, Own(env, sys, inputs, id));
    RegistrationKeepsImsi(env, addr, id, r, Own(env, sys, inputs, id));
    RunKeepsImsi(env, sys, inputs, id);
    assert Backed(Run(env, sys, inputs), id);
  }

  // The hypothesis is met, for one, by the five messages in a row at any node: the first is
  // addressed to the id the node spawns, the others to the id they name.
  lemma UninterruptedRegistration(env: Env, sys: System, id: u32, r: RegistrationRun)
    requires WorldInv(sys.node.world) && id == Spawn(sys.node.world).1
    requires Follows(env, r) && r.identity.msg.amfId == r.answer.msg.amfId == id
    requires r.complete.msg.amfId == r.setup.msg.amfId == id
    ensures Locality.Messages(Own(env, sys, [r.request, r.identity, r.answer, r.complete, r.setup], id)) ==
            [r.request, r.identity, r.answer, r.complete, r.setup]
  {
    hide WorldInv, Own, Spawn, SysStep, Locality.Messages;
    FiveInARow([r.request, r.identity, r.answer, r.complete, r.setup]);
    var n1 := Advance(env, sys, id, r.request, [r.identity, r.answer, r.complete, r.setup]);
    var n2 := Advance(env, n1, id, r.identity, [r.answer, r.complete, r.setup]);
    var n3 := Advance(env, n2, id, r.answer, [r.complete, r.setup]);
    var n4 := Advance(env, n3, id, r.complete, [r.setup]);
    var n5 := Advance(env, n4, id, r.setup, []);
    OwnNothing(env, n5, id);
  }

  lemma OwnNothing(env: Env, sys: System, id: u32)
    requires WorldInv(sys.node.world)
    ensures Locality.Messages(Own(env, sys, [], id)) == []
  {
  }

  // One message addressed to the entity.
  lemma Advance(env: Env, sys: System, id: u32, i: Input, rest: seq<Input>) returns (n: System)
    requires WorldInv(sys.node.world) && Addressed(env, sys.node, i) == Some(id)
    ensures n == SysStep(env, sys, i) && WorldInv(n.node.world)
    ensures Locality.Messages(Own(env, sys, [i] + rest, id)) == [i] + Locality.Messages(Own(env, n, rest, id))
  {
    hide WorldInv, Step, SysStep, Addressed;
    n := SysStep(env, sys, i);
    var steps := Steps(env, sys, [i] + rest);
    assert ([i] + rest)[1..] == rest;
    assert steps[0] == Observe(env, sys.node, i) && steps[1..] == Steps(env, n, rest);
  }
}
