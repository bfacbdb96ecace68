// Where the MME's guarantees stop: runs from power-on, with any codec, on which a property
// fails, beside the exact conditions proved elsewhere, and when an entity becomes authenticated.
module MmeLimits {
  import opened Bits
  import opened NasSecurity
  import opened Ecs
  import opened Upf
  import opened Control
  import opened MmeNode
  import opened MmeRuns
  import opened MmeIsolation
  import opened MmeProcedures
  import Locality
  import S1ap = S1apCodec

  predicate AttachesAs(env: Env, i: Input, imsi: u64) {
    i.msg.InitialUeMessage? && Attaching(env, i.msg.nasPdu, i.auth) == Some(imsi)
  }

  predicate Completes(env: Env, i: Input, id: u32) {
    && i.msg.UplinkNasTransport? && i.msg.mmeId == id
    && IsPlain(i.msg.nasPdu) && env.decode(i.msg.nasPdu) == SecurityModeComplete
  }

  // An attach with nothing to recycle takes the next id and touches nothing else.
  lemma AttachAppends(env: Env, sys: System, i: Input, imsi: u64)
    requires WorldInv(sys.node.world) && sys.node.world.freeIds == [] && |sys.node.world.slots| < 0x1_0000_0000
    requires AttachesAs(env, i, imsi)
    ensures var n := SysStep(env, sys, i);
            && n.up == sys.up && n.node.teids == sys.node.teids && n.node.upf == sys.node.upf
            && n.node.world.freeIds == [] && |n.node.world.slots| == |sys.node.world.slots| + 1
            && IsLive(n.node.world, |sys.node.world.slots|)
            && SlotOf(n.node.world, |sys.node.world.slots|).identity.imsi == imsi
  {
    hide WorldInv;
    NextIdIsLength(sys.node.world);
  }

  lemma NextIdIsLength(w: WorldState)
    requires WorldInv(w) && |w.slots| < 0x1_0000_0000
    ensures w.nextId == |w.slots|
  {
  }

  // A completed security mode adds the session of the TEID on offer.
  lemma CompleteAdds(env: Env, sys: System, i: Input, id: u32, addr: Octets4)
    requires WorldInv(sys.node.world) && sys.node.upf == Some(addr)
    requires IsLive(sys.node.world, id) && Completes(env, i, id)
    ensures var n := SysStep(env, sys, i);
            && n.up.sessions.Keys == sys.up.sessions.Keys + {Alloc(sys.node.teids).1}
            && n.node.teids == Alloc(sys.node.teids).0 && n.node.upf == sys.node.upf
            && n.node.world.freeIds == sys.node.world.freeIds
            && |n.node.world.slots| == |sys.node.world.slots|
            && TunnelOf(n.node.world, id).Some?
  {
    hide WorldInv, EncodeProtected, Alloc, ApplyEvent;
    var l := SecurityModeDone(env, sys.node.upf, SlotOf(sys.node.world, id), id, i.msg.enbId, Alloc(sys.node.teids).1);
    assert UplinkNas(env, sys.node.upf, SlotOf(sys.node.world, id), id, i.msg.enbId, i.msg.nasPdu,
                     Alloc(sys.node.teids).1) == l;
    SingleEvent(sys.up, l.events);
    CreateOnlyAdds(sys.up, l.events[0]);
  }

  // Whatever the codec and the messages: a subscriber that attaches twice from power-on leaves
  // a live entity that the index has lost.
  lemma ReattachLosesEntity(
    env: Env, upf: Option<Octets4>, kernel: Option<Kernel>, first: Input, second: Input, imsi: u64)
    requires AttachesAs(env, first, imsi) && AttachesAs(env, second, imsi)
    ensures !RegistryComplete(Run(env, NewSystem(upf, kernel), [first, second]).node)
  {
    hide WorldInv, Attach, RegistryComplete, Attaching;
    var start := NewSystem(upf, kernel);
    var n1 := SysStep(env, start, first);
    AttachAppends(env, start, first, imsi);
    NewSystemOk(upf, kernel);
    StartComplete(upf, kernel);
    AttachOf(env, start, first, imsi);
    AttachKeepsComplete(env, start.node, first.msg.enbId, imsi, first.msg.tai[..3], first.auth.value);
    StepKeepsMme(env, start, first);
    assert Held(n1.node, imsi);
    AttachOf(env, n1, second, imsi);
    AttachKeepsComplete(env, n1.node, second.msg.enbId, imsi, second.msg.tai[..3], second.auth.value);
    assert [first, second][1..] == [second] && [second][1..] == [];
    assert Run(env, start, [first, second]) == Run(env, n1, [second]);
    assert Run(env, n1, [second]) == SysStep(env, n1, second);
  }

  lemma AttachOf(env: Env, sys: System, i: Input, imsi: u64)
    requires WorldInv(sys.node.world) && AttachesAs(env, i, imsi)
    ensures i.auth.Some?
    ensures SysStep(env, sys, i).node ==
            Attach(env, sys.node, i.msg.enbId, imsi, i.msg.tai[..3], i.auth.value).node
  {
    hide WorldInv, Attach;
  }

  lemma StartComplete(upf: Option<Octets4>, kernel: Option<Kernel>)
    ensures var node := NewSystem(upf, kernel).node;
            RegistryComplete(node) && RegistryPoints(node) && forall imsi: u64 :: !Held(node, imsi)
  {
  }

  // Whatever the codec and the messages: two subscribers that attach and complete from
  // power-on have two sessions with one UE address, so one downlink route between them.
  lemma TwoSubscribersShareAddress(
    env: Env, addr: Octets4, kernel: Option<Kernel>, a: Input, doneA: Input, imsiA: u64,
    b: Input, doneB: Input, imsiB: u64)
    requires AttachesAs(env, a, imsiA) && Completes(env, doneA, 0)
    requires AttachesAs(env, b, imsiB) && Completes(env, doneB, 1)
    ensures var end := Run(env, NewSystem(Some(addr), kernel), [a, doneA, b, doneB]);
            |end.up.sessions| == 2 && !DistinctUeIps(end.up)
  {
    hide WorldInv, SysStep, DistinctUeIps, AttachesAs, Completes;
    var start := NewSystem(Some(addr), kernel);
    AttachAppends(env, start, a, imsiA);
    var n1 := SysStep(env, start, a);
    CompleteAdds(env, n1, doneA, 0, addr);
    var n2 := SysStep(env, n1, doneA);
    AttachAppends(env, n2, b, imsiB);
    var n3 := SysStep(env, n2, b);
    CompleteAdds(env, n3, doneB, 1, addr);
    var n4 := SysStep(env, n3, doneB);
    assert [a, doneA, b, doneB][1..] == [doneA, b, doneB] && [doneA, b, doneB][1..] == [b, doneB];
    assert [b, doneB][1..] == [doneB] && [doneB][1..] == [];
    assert Run(env, start, [a, doneA, b, doneB]) == Run(env, n1, [doneA, b, doneB]);
    assert Run(env, n1, [doneA, b, doneB]) == Run(env, n2, [b, doneB]);
    assert Run(env, n2, [b, doneB]) == Run(env, n3, [doneB]);
    assert Run(env, n3, [doneB]) == Run(env, n4, []) == n4;
    assert n4.up.sessions.Keys == {TEID_BASE, TEID_BASE + 1};
    assert |n4.up.sessions| == |n4.up.sessions.Keys|;
    NothingAssigned(addr, kernel);
    RunSharesOneAddress(env, start, [a, doneA, b, doneB]);
  }

  lemma NothingAssigned(addr: Octets4, kernel: Option<Kernel>)
    ensures NoAddresses(NewSystem(Some(addr), kernel))
  {
  }

  // ---- Authentication -----------------------------------------------------------------------------

  // The response a message to an entity carries, once unwrapped.
  function Answer(env: Env, slot: Slot, i: Input): Option<Bytes> {
    if !i.msg.UplinkNasTransport? then None
    else
      var plain := PlainOf(env, slot, i.msg.nasPdu);
      if plain.None? then None
      else
        match env.decode(plain.value)
        case AuthenticationResponse(res) => Some(res)
        case _ => None
  }

  function PlainOf(env: Env, slot: Slot, pdu: Bytes): Option<Bytes> {
    if IsPlain(pdu) then Some(pdu)
    else if !slot.live || slot.nas.None? then None
    else DecodeProtected(env.crypto, Eps, slot.nas.value, Uplink, NAS_BEARER, pdu).1
  }

  // A step authenticates an entity exactly when it answers with the expected response.
  lemma AuthenticatesExactly(env: Env, upf: Option<Octets4>, slot: Slot, id: u32, i: Input, teid: u32)
    requires slot.auth != Authenticated
    ensures LocalStep(env, upf, slot, id, i, teid).slot.auth == Authenticated
            <==> slot.live && Answer(env, slot, i) == Some(slot.security.pendingXres)
  {
    hide EncodeProtected, DecodeProtected, SecurityModeDone;
    SetupKeepsAuth(env, upf, slot, id, i, teid);
  }

  lemma SetupKeepsAuth(env: Env, upf: Option<Octets4>, slot: Slot, id: u32, i: Input, teid: u32)
    ensures forall s: Slot, enbId: u32 :: SecurityModeDone(env, upf, s, id, enbId, teid).slot.auth == s.auth
  {
    hide EncodeProtected;
  }

  function EpsAka(env: Env): Locality.Challenge<Input> {
    Locality.Challenge((slot: Slot) => slot.security.pendingXres, (slot: Slot, i: Input) => Answer(env, slot, i))
  }

  lemma AnswersGuard(env: Env)
    ensures Locality.Guards(EpsAka(env), Sight(env))
  {
    hide LocalStep, Answer;
    forall upf: Option<Octets4>, slot: Slot, id: u32, i: Input, teid: u32 | slot.auth != Authenticated
      ensures LocalStep(env, upf, slot, id, i, teid).slot.auth == Authenticated
              <==> slot.live && Answer(env, slot, i) == Some(slot.security.pendingXres)
    {
      AuthenticatesExactly(env, upf, slot, id, i, teid);
    }
  }

  // Main result. In any run, whatever the others do: an entity is authenticated under a
  // challenge exactly when it answers one that is outstanding, and without one exactly when it
  // answers zeros; it does not end up authenticated in any other way.
  lemma AuthenticatedExactlyBy(env: Env, sys: System, inputs: seq<Input>, id: u32)
    requires WorldInv(sys.node.world) && |Run(env, sys, inputs).node.world.slots| <= 0x1_0000_0000
    ensures var upf, slot, own := sys.node.upf, SlotOf(sys.node.world, id), Own(env, sys, inputs, id);
            var c, local := EpsAka(env), Sight(env);
            && (Locality.Sometime(Locality.GetsAuthenticated(c, local, upf, id, true), local, upf, slot, id, own)
                <==> Locality.Sometime(Locality.AnswersChallenge(c), local, upf, slot, id, own))
            && (Locality.Sometime(Locality.GetsAuthenticated(c, local, upf, id, false), local, upf, slot, id, own)
                <==> Locality.Sometime(Locality.AnswersZeros(c), local, upf, slot, id, own))
            && (slot.auth != Authenticated && SlotOf(Run(env, sys, inputs).node.world, id).auth == Authenticated ==>
                  || Locality.Sometime(Locality.AnswersChallenge(c), local, upf, slot, id, own)
                  || Locality.Sometime(Locality.AnswersZeros(c), local, upf, slot, id, own))
  {
    hide WorldInv, Run, SlotOf, Own, EpsAka, Sight, Locality.LocalRun, Locality.Sometime, Locality.TakesExactly;
    AnswersGuard(env);
    EntityIsItsOwnRun(env, sys, inputs, id);
    Locality.AuthenticatedExactlyBy(EpsAka(env), Sight(env), sys.node.upf, SlotOf(sys.node.world, id), id,
                                    Own(env, sys, inputs, id));
  }

  // What zeros do, at any step: with no challenge outstanding, an entity is authenticated if
  // and only if it answers as many zeros as the last expected response had octets.
  lemma OnlyZerosPassWithoutChallenge(env: Env, upf: Option<Octets4>, slot: Slot, id: u32, i: Input, teid: u32)
    requires slot.live && slot.auth != Authenticated && !Locality.Outstanding(EpsAka(env), slot)
    ensures LocalStep(env, upf, slot, id, i, teid).slot.auth == Authenticated
            <==> Answer(env, slot, i) == Some(ZeroBytes(|slot.security.pendingXres|))
  {
    hide LocalStep, Answer;
    AuthenticatesExactly(env, upf, slot, id, i, teid);
  }

  // It happens: after a wrong answer has cleared the challenge, zeros pass.
  lemma ZerosPassAfterWrongAnswer(env: Env, slot: Slot, id: u32, enbId: u32, wrong: Bytes)
    requires slot.live && wrong != slot.security.pendingXres
    ensures var rejected := AuthResponse(env, slot, id, enbId, wrong).slot;
            && rejected.auth == Failed(ResMismatch) && !Locality.Outstanding(EpsAka(env), rejected)
            && AuthResponse(env, rejected, id, enbId, ZeroBytes(|slot.security.pendingXres|)).slot.auth == Authenticated
  {
  }
}
