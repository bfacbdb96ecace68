// What the MME's handlers achieve together: protected messages reach the handler as what the
// UE meant, protected replies reach the UE, and the attach procedure completes in any
// interleaving with other subscribers.
module MmeProcedures {
  import opened Bits
  import opened NasSecurity
  import opened Ecs
  import opened Upf
  import opened Control
  import opened BearerLists
  import opened MmeNode
  import opened MmeRuns
  import opened MmeIsolation
  import Locality
  import S1ap = S1apCodec

  // A UE message protected in step with the entity's context, up to 255 losses, is
  // dispatched as the plain message it carries, and only moves the uplink COUNT.
  lemma ProtectedIsDispatchedAsPlain(
    env: Env, upf: Option<Octets4>, slot: Slot, ue: NasCtx, id: u32, enbId: u32,
    sht: byte, plain: Bytes, gap: nat, teid: u32)
    requires slot.live && slot.nas.Some? && Paired(ue, slot.nas.value) && sht % 16 != 0 && gap < 0x100
    requires CountOf(ue, Uplink) == (CountOf(slot.nas.value, Uplink) + gap) % 0x1_0000_0000
    ensures var sent := EncodeProtected(env.crypto, Eps, ue, Uplink, sht, NAS_BEARER, plain);
            var moved := slot.(nas := Some(WithCount(slot.nas.value, Uplink, CountOf(sent.0, Uplink))));
            UplinkNas(env, upf, slot, id, enbId, sent.1, teid) == Dispatch(env, upf, moved, id, enbId, plain, teid)
  {
    hide Dispatch, DecodeProtected;
    DeliverAcrossGap(env.crypto, Eps, ue, slot.nas.value, Uplink, sht, NAS_BEARER, plain, gap);
    FirstOctet(env.crypto, ue, sht, plain);
  }

  lemma FirstOctet(c: Crypto, ue: NasCtx, sht: byte, plain: Bytes)
    ensures var buf := EncodeProtected(c, Eps, ue, Uplink, sht, NAS_BEARER, plain).1;
            buf != [] && buf[0] / 16 == sht % 16
  {
    hide ProtectAt;
    HighNibble(sht);
  }

  // The accept a completed security mode sends is the first protected message of a context
  // the UE derives for itself: it opens to the accept, and both sides end in step.
  lemma AcceptReachesUe(env: Env, upf: Option<Octets4>, slot: Slot, id: u32, enbId: u32, teid: u32)
    requires slot.live
    ensures var l := SecurityModeDone(env, upf, slot, id, enbId, teid);
            var ue := NewContext(env, Kasme(env, slot.security));
            && |l.out| == 1
            && (upf.Some? ==> l.out[0].InitialContextSetupRequest? && l.out[0].nasPduOpt.Some?)
            && (upf.None? ==> l.out[0].DownlinkNasTransport?)
            && var accept := if upf.Some? then l.out[0].nasPduOpt.value else l.out[0].nasPdu;
               && DecodeProtected(env.crypto, Eps, ue, Downlink, NAS_BEARER, accept) ==
                  (ue.(dl := 1), Some(env.attachAccept(slot.identity.ueIp)))
               && l.slot.nas == Some(ue.(dl := 1))
  {
    hide DecodeProtected, EncodeProtected;
    var ue := NewContext(env, Kasme(env, slot.security));
    DeliverAcrossGap(env.crypto, Eps, ue, ue, Downlink, SHT_INTEGRITY_CIPHERED, NAS_BEARER,
                     env.attachAccept(slot.identity.ueIp), 0);
    SenderMovesOne(env.crypto, Eps, ue, SHT_INTEGRITY_CIPHERED, env.attachAccept(slot.identity.ueIp));
  }

  // The bearer the eNodeB is asked to set up is the tunnel the entity and the session have.
  lemma RequestNamesTunnel(env: Env, addr: Octets4, slot: Slot, id: u32, enbId: u32, teid: u32)
    requires slot.live
    ensures var l := SecurityModeDone(env, Some(addr), slot, id, enbId, teid);
            && l.out[0].erabs != []
            && FromBE32(l.out[0].erabs[0].gtpTeid) == l.slot.tunnel.value.ulTeid == l.events[0].ulTeid
            && l.out[0].erabs[0].transportAddr == addr
            && l.out[0].securityKey == Kasme(env, slot.security)
  {
    hide EncodeProtected, BE32, FromBE32;
    BE32RoundTrip(teid);
  }

  type Handed = Locality.Handed<Input>

  // ---- The attach procedure ---------------------------------------------------------------------

  // The four messages of an attach, addressed to one entity.
  datatype AttachRun = AttachRun(
    request: Input, answer: Input, complete: Input, setup: Input, enbId: u32, imsi: u64, a: AuthInfo)

  predicate IsPlain(pdu: Bytes) {
    pdu == [] || pdu[0] / 16 == 0
  }

  ghost predicate Follows(env: Env, r: AttachRun) {
    var request, answer, complete, setup :=
      r.request.msg, r.answer.msg, r.complete.msg, r.setup.msg;
    && request.InitialUeMessage? && request.enbId == r.enbId
    && env.decode(request.nasPdu) == AttachRequest(Some(r.imsi)) && r.request.auth == Some(r.a)
    && answer.UplinkNasTransport? && answer.enbId == r.enbId && IsPlain(answer.nasPdu)
    && env.decode(answer.nasPdu) == AuthenticationResponse(r.a.res)
    && complete.UplinkNasTransport? && complete.enbId == r.enbId && IsPlain(complete.nasPdu)
    && env.decode(complete.nasPdu) == SecurityModeComplete
    && setup.InitialContextSetupResponse? && setup.setup != []
  }

  function Challenged(env: Env, r: AttachRun): Slot
    requires Follows(env, r)
  {
    AttachSlot(Blank().(live := true), r.enbId, r.imsi, r.request.msg.tai[..3], r.a)
  }

  // The entity after its own four messages, the third of which takes a TEID.
  lemma AttachAlone(env: Env, addr: Octets4, id: u32, r: AttachRun, own: seq<Handed>)
    requires Follows(env, r) && Locality.Messages(own) == [r.request, r.answer, r.complete, r.setup]
    ensures var (slot, sent) := Locality.LocalRun(Sight(env), Some(addr), Blank(), id, own);
            var first := r.setup.msg.setup[0];
            var teid := Locality.Offer(own[2]);
            && slot.live && slot.identity == Identity(r.imsi, r.enbId, ZERO_ADDR) && slot.auth == Authenticated
            && slot.tunnel == Some(Tunnel(teid, FromBE32(first.gtpTeid), first.transportAddr))
            && slot.nas == Some(NewContext(env, Kasme(env, Challenged(env, r).security)).(dl := 1))
            && |sent| == 3
            && sent[0] == S1ap.DownlinkNasTransport(id, r.enbId, env.authRequest(r.a.rand, Autn(r.a)))
            && sent[1] == S1ap.DownlinkNasTransport(id, r.enbId, env.secModeCmd)
            && sent[2].InitialContextSetupRequest? && sent[2].erabs != []
            && FromBE32(sent[2].erabs[0].gtpTeid) == teid
    ensures Locality.TakesExactly(Sight(env), Some(addr), Blank(), id, own) ==> own[2].taken.Some?
  {
    hide SecurityModeDone, Kasme, NewContext, FromBE32, EmptyAka, Autn, LocalStep, Follows, Challenged;
    hide Locality.LocalRun, Locality.TakesExactly;
    var upf, local := Some(addr), Sight(env);
    var teid := Locality.Offer(own[2]);
    var s1 := Challenged(env, r);
    var s2 := Answered(s1);
    var l3 := SecurityModeDone(env, upf, s2, id, r.enbId, teid);
    var l4 := LocalStep(env, upf, l3.slot, id, r.setup, Locality.Offer(own[3]));
    RequestStage(env, upf, id, r, Locality.Offer(own[0]));
    AnswerStage(env, upf, id, r, Locality.Offer(own[1]));
    CompleteStage(env, upf, s2, id, r, teid);
    SetupStage(env, upf, l3.slot, id, r, Locality.Offer(own[3]));
    FourInARow(own);
    FourMessages(own, r);
    Locality.Unroll(local, upf, Blank(), id, own[0], own[1..]);
    Locality.Unroll(local, upf, s1, id, own[1], own[2..]);
    Locality.Unroll(local, upf, s2, id, own[2], own[3..]);
    Locality.Unroll(local, upf, l3.slot, id, own[3], []);
    Locality.NoMore(local, upf, l4.slot, id);
  }

  lemma FourInARow<T>(s: seq<T>)
    requires |s| == 4
    ensures s == [s[0]] + s[1..] && s[1..] == [s[1]] + s[2..] && s[2..] == [s[2]] + s[3..] && s[3..] == [s[3]] + []
  {
  }

  lemma FourMessages(own: seq<Handed>, r: AttachRun)
    requires Locality.Messages(own) == [r.request, r.answer, r.complete, r.setup]
    ensures |own| == 4 && own[0].input == r.request && own[1].input == r.answer
    ensures own[2].input == r.complete && own[3].input == r.setup
  {
    var m := Locality.Messages(own);
    assert |m| == |own| && m[0] == own[0].input && m[1] == own[1].input && m[2] == own[2].input && m[3] == own[3].input;
  }

  // The challenged entity after the right answer.
  function Answered(slot: Slot): Slot {
    slot.(security := ClearChallenge(slot.security), auth := Authenticated)
  }

  lemma RequestStage(env: Env, upf: Option<Octets4>, id: u32, r: AttachRun, teid: u32)
    requires Follows(env, r)
    ensures LocalStep(env, upf, Blank(), id, r.request, teid) ==
            Local(Challenged(env, r),
                  [S1ap.DownlinkNasTransport(id, r.enbId, env.authRequest(r.a.rand, Autn(r.a)))], [], false)
    ensures Challenged(env, r).live && Challenged(env, r).identity == Identity(r.imsi, r.enbId, ZERO_ADDR)
    ensures Challenged(env, r).security.pendingXres == r.a.res
  {
    hide EmptyAka, Autn;
  }

  lemma AnswerStage(env: Env, upf: Option<Octets4>, id: u32, r: AttachRun, teid: u32)
    requires Follows(env, r)
    ensures LocalStep(env, upf, Challenged(env, r), id, r.answer, teid) ==
            Local(Answered(Challenged(env, r)), [S1ap.DownlinkNasTransport(id, r.enbId, env.secModeCmd)], [], false)
    ensures Kasme(env, Answered(Challenged(env, r)).security) == Kasme(env, Challenged(env, r).security)
  {
    hide LocalStep;
    RequestStage(env, upf, id, r, teid);
    Plainly(env, upf, Challenged(env, r), id, r.enbId, r.answer, teid);
  }

  lemma CompleteStage(env: Env, upf: Option<Octets4>, slot: Slot, id: u32, r: AttachRun, teid: u32)
    requires Follows(env, r) && slot.live && upf.Some?
    ensures var l := SecurityModeDone(env, upf, slot, id, r.enbId, teid);
            && LocalStep(env, upf, slot, id, r.complete, teid) == l && l.took
            && l.slot.live && l.slot.identity == slot.identity && l.slot.auth == slot.auth
            && l.slot.tunnel == Some(Tunnel(teid, 0, ZERO_ADDR))
            && l.slot.nas == Some(NewContext(env, Kasme(env, slot.security)).(dl := 1))
            && |l.out| == 1 && l.out[0].InitialContextSetupRequest? && l.out[0].erabs != []
            && FromBE32(l.out[0].erabs[0].gtpTeid) == teid
  {
    hide LocalStep, EncodeProtected, Kasme, NewContext, FromBE32, BE32, ClearKeys;
    Plainly(env, upf, slot, id, r.enbId, r.complete, teid);
    AcceptReachesUe(env, upf, slot, id, r.enbId, teid);
    RequestNamesTunnel(env, upf.value, slot, id, r.enbId, teid);
  }

  lemma SetupStage(env: Env, upf: Option<Octets4>, slot: Slot, id: u32, r: AttachRun, teid: u32)
    requires Follows(env, r) && slot.live && slot.tunnel.Some?
    ensures var l := LocalStep(env, upf, slot, id, r.setup, teid);
            var first := r.setup.msg.setup[0];
            && l.out == []
            && l.slot == slot.(tunnel := Some(
                 slot.tunnel.value.(dlTeid := FromBE32(first.gtpTeid), ranAddr := first.transportAddr)))
  {
    hide FromBE32;
  }

  lemma Plainly(env: Env, upf: Option<Octets4>, slot: Slot, id: u32, enbId: u32, i: Input, teid: u32)
    requires i.msg.UplinkNasTransport? && i.msg.enbId == enbId && IsPlain(i.msg.nasPdu)
    ensures LocalStep(env, upf, slot, id, i, teid) == Dispatch(env, upf, slot, id, enbId, i.msg.nasPdu, teid)
  {
    hide Dispatch, DecodeProtected;
  }

  // Main result. However the messages of other subscribers are interleaved with the four of
  // an attach: the entity ends authenticated with its tunnel up, and the user plane holds
  // the session for this IMSI with the eNodeB's TEID and address.
  lemma AttachCompletes(env: Env, sys: System, inputs: seq<Input>, id: u32, addr: Octets4, r: AttachRun)
    requires MmeInv(sys) && sys.node.upf == Some(addr)
    requires sys.node.teids.next + FreshAllocations(env, sys, inputs) < 0x1_0000_0000
    requires |Run(env, sys, inputs).node.world.slots| <= 0x1_0000_0000
    requires !IsLive(sys.node.world, id) && Follows(env, r)
    requires Locality.Messages(Own(env, sys, inputs, id)) == [r.request, r.answer, r.complete, r.setup]
    ensures |Own(env, sys, inputs, id)| == 4 && Own(env, sys, inputs, id)[2].taken.Some?
    ensures var end := Run(env, sys, inputs);
            var first := r.setup.msg.setup[0];
            var teid := Own(env, sys, inputs, id)[2].taken.value;
            var t := Tunnel(teid, FromBE32(first.gtpTeid), first.transportAddr);
            && SlotOf(end.node.world, id).auth == Authenticated
            && TunnelOf(end.node.world, id) == Some(t)
            && t.ulTeid in end.up.sessions
            && var session := end.up.sessions[t.ulTeid];
               && session.entityId == id && session.imsi == r.imsi
               && session.dlTeid == t.dlTeid && session.ranAddr == t.ranAddr
  {
    hide Locality.LocalRun, Locality.TakesExactly, Sight, Own, Run, Step, FromBE32, Follows;
    hide TeidsConserved, TablesAgree, RegistryPoints;
    DeadIsBlank(sys.node.world, id);
    hide WorldInv;
    RunKeepsMme(env, sys, inputs);
    EntityIsItsOwnRun(env, sys, inputs, id);
    FourMessages(Own(env, sys, inputs, id), r);
    AttachAlone(env, addr, id, r, Own(env, sys, inputs, id));
    var end := Run(env, sys, inputs);
    assert Backed(end, id) && HoldsImsi(end, id);
  }

  // The hypothesis is met, for one, by the four messages in a row at any node: the first is
  // addressed to the id the node spawns, the others to the id they name.
  lemma UninterruptedAttach(env: Env, sys: System, id: u32, r: AttachRun)
    requires WorldInv(sys.node.world) && id == Spawn(sys.node.world).1
    requires Follows(env, r) && r.answer.msg.mmeId == r.complete.msg.mmeId == r.setup.msg.mmeId == id
    ensures Locality.Messages(Own(env, sys, [r.request, r.answer, r.complete, r.setup], id)) ==
            [r.request, r.answer, r.complete, r.setup]
  {
    hide WorldInv, Own, Spawn, SysStep, Locality.Messages;
    FourInARow([r.request, r.answer, r.complete, r.setup]);
    var n1 := Advance(env, sys, id, r.request, [r.answer, r.complete, r.setup]);
    var n2 := Advance(env, n1, id, r.answer, [r.complete, r.setup]);
    var n3 := Advance(env, n2, id, r.complete, [r.setup]);
    var n4 := Advance(env, n3, id, r.setup, []);
    OwnNothing(env, n4, id);
  }

  lemma OwnNothing(env: Env, sys: System, id: u32)
    requires WorldInv(sys.node.world)
    ensures Locality.Messages(Own(env, sys, [], id)) == []
  {
  }

  // One message addressed to the entity.
  lemma Advance(env: Env, sys: System, id: u32, i: Input, rest: seq<Input>) returns (n: System)
    requires WorldInv(sys.node.world) && Addressed(env, sys.node, i) == Some(id)
    ensures n == SysStep(env, sys, i) && WorldInv(n.node.world)
    ensures Locality.Messages(Own(env, sys, [i] + rest, id)) == [i] + Locality.Messages(Own(env, n, rest, id))
  {
    hide WorldInv, Step, SysStep, Addressed;
    n := SysStep(env, sys, i);
    var steps := Steps(env, sys, [i] + rest);
    assert ([i] + rest)[1..] == rest;
    assert steps[0] == Observe(env, sys.node, i) && steps[1..] == Steps(env, n, rest);
  }
}
