// Where the AMF's guarantees stop: runs from power-on, with any codec, on which a property
// fails, beside the exact conditions proved elsewhere, and when an entity becomes authenticated.
module AmfLimits {
  import opened Bits
  import opened NasSecurity
  import opened Ecs
  import opened Upf
  import opened Control
  import opened AmfNode
  import opened AmfRuns
  import opened AmfIsolation
  import opened AmfProcedures
  import Locality
  import Ngap = NgapCodec

  predicate Registers(env: Env, i: Input) {
    i.msg.InitialUeMessage? && Registering(env, i.msg.nasPdu)
  }

  // At power-on a registration takes id 0, with an expected response of sixteen zeros.
  lemma FirstRegistration(env: Env, upf: Option<Octets4>, kernel: Option<Kernel>, i: Input)
    requires Registers(env, i)
    ensures var start := NewSystem(upf, kernel);
            var n := SysStep(env, start, i);
            && n.up == start.up && n.node.teids == start.node.teids && n.node.upf == upf && n.node.registry == map[]
            && |n.node.world.slots| == 1 && IsLive(n.node.world, 0)
            && SlotOf(n.node.world, 0).identity.imsi == 0 && SlotOf(n.node.world, 0).auth == Unauthenticated
            && SlotOf(n.node.world, 0).security5g.pendingXres == ZeroBytes(16)
  {
  }

  // A completed security mode adds a session with the address of the entity's id.
  lemma CompleteAdds(env: Env, sys: System, i: Input, id: u32, addr: Octets4)
    requires WorldInv(sys.node.world) && sys.node.upf == Some(addr)
    requires IsLive(sys.node.world, id) && Alloc(sys.node.teids).1 !in sys.up.sessions
    requires Carries(env, i, id, SecurityModeComplete)
    ensures var n, teid := SysStep(env, sys, i), Alloc(sys.node.teids).1;
            && n.up.sessions.Keys == sys.up.sessions.Keys + {teid} && n.up.sessions[teid].ueIp == UeIp(id)
            && n.up.sessions[teid].imsi == SlotOf(sys.node.world, id).identity.imsi
            && (forall t: u32 :: t in sys.up.sessions ==> n.up.sessions[t] == sys.up.sessions[t])
            && n.node.teids == Alloc(sys.node.teids).0 && n.node.upf == sys.node.upf
            && TunnelOf(n.node.world, id) == Some(Tunnel(teid, 0, ZERO_ADDR))
            && SlotOf(n.node.world, id).identity == SlotOf(sys.node.world, id).identity
  {
    hide WorldInv, EncodeProtected, Alloc, ApplyEvent, UeIp, PlaceholderGuti;
    var l := SecurityModeDone(env, sys.node.upf, SlotOf(sys.node.world, id), id, i.msg.ranId, Alloc(sys.node.teids).1);
    assert UplinkNas(env, sys.node.upf, SlotOf(sys.node.world, id), id, i.msg.ranId, i.msg.nasPdu, i.auth,
                     Alloc(sys.node.teids).1) == l;
    UpdateFrame(sys.node.world, id, l.slot);
    SingleEvent(sys.up, l.events);
    CreateOnlyAdds(sys.up, l.events[0]);
  }

  // A plain uplink message from an entity.
  predicate Carries(env: Env, i: Input, id: u32, pdu: NasPdu) {
    && i.msg.UplinkNasTransport? && i.msg.amfId == id
    && IsPlain(i.msg.nasPdu) && env.decode(i.msg.nasPdu) == pdu
  }

  // Whatever the codec and the messages: an entity that completes security mode twice has two
  // sessions with one UE address.
  lemma SecondSetupSharesAddress(
    env: Env, addr: Octets4, kernel: Option<Kernel>, request: Input, first: Input, second: Input)
    requires Registers(env, request)
    requires Carries(env, first, 0, SecurityModeComplete) && Carries(env, second, 0, SecurityModeComplete)
    ensures var end := Run(env, NewSystem(Some(addr), kernel), [request, first, second]);
            |end.up.sessions| == 2 && !DistinctUeIps(end.up)
  {
    hide WorldInv, SysStep, UeIp, Carries, Registers;
    var start := NewSystem(Some(addr), kernel);
    FirstRegistration(env, Some(addr), kernel, request);
    var n1 := SysStep(env, start, request);
    CompleteAdds(env, n1, first, 0, addr);
    var n2 := SysStep(env, n1, first);
    CompleteAdds(env, n2, second, 0, addr);
    var n3 := SysStep(env, n2, second);
    RunOfThree(env, start, request, first, second);
    assert n3.up.sessions.Keys == {TEID_BASE, TEID_BASE + 1};
    assert |n3.up.sessions| == |n3.up.sessions.Keys|;
    assert n3.up.sessions[TEID_BASE].ueIp == n3.up.sessions[TEID_BASE + 1].ueIp;
  }

  lemma RunOfThree(env: Env, sys: System, a: Input, b: Input, c: Input)
    requires WorldInv(sys.node.world)
    ensures Run(env, sys, [a, b, c]) == SysStep(env, SysStep(env, SysStep(env, sys, a), b), c)
  {
    hide WorldInv, SysStep;
    var n1 := SysStep(env, sys, a);
    var n2 := SysStep(env, n1, b);
    assert [a, b, c][1..] == [b, c] && [b, c][1..] == [c] && [c][1..] == [];
    assert Run(env, sys, [a, b, c]) == Run(env, n1, [b, c]);
    assert Run(env, n1, [b, c]) == Run(env, n2, [c]);
  }

  // Whatever the codec and the messages: an entity identified only after its session is set up
  // leaves the session with the IMSI it had before, here none.
  lemma LateIdentityLeavesSession(
    env: Env, addr: Octets4, kernel: Option<Kernel>, request: Input, complete: Input, identity: Input,
    suci: Suci, imsi: u64)
    requires Registers(env, request) && Carries(env, complete, 0, SecurityModeComplete)
    requires Carries(env, identity, 0, IdentityResponse(Some(suci))) && identity.auth.Some?
    requires ResolveSuci(suci) == Some(imsi) && imsi != 0
    ensures var end := Run(env, NewSystem(Some(addr), kernel), [request, complete, identity]);
            !HoldsImsi(end, 0)
  {
    hide WorldInv, SysStep, UeIp, Carries, Registers, ResolveSuci;
    var start := NewSystem(Some(addr), kernel);
    FirstRegistration(env, Some(addr), kernel, request);
    var n1 := SysStep(env, start, request);
    CompleteAdds(env, n1, complete, 0, addr);
    var n2 := SysStep(env, n1, complete);
    RunOfThree(env, start, request, complete, identity);
    IdentityMoves(env, n2, identity, 0, suci, imsi);
  }

  // An identity response changes the entity's IMSI, neither its tunnel nor any session.
  lemma IdentityMoves(env: Env, sys: System, i: Input, id: u32, suci: Suci, imsi: u64)
    requires WorldInv(sys.node.world) && IsLive(sys.node.world, id) && i.auth.Some?
    requires Carries(env, i, id, IdentityResponse(Some(suci))) && ResolveSuci(suci) == Some(imsi)
    ensures var n := SysStep(env, sys, i);
            && n.up == sys.up && SlotOf(n.node.world, id).identity.imsi == imsi
            && TunnelOf(n.node.world, id) == TunnelOf(sys.node.world, id)
  {
    hide WorldInv, ResolveSuci;
    var slot := SlotOf(sys.node.world, id);
    UpdateFrame(sys.node.world, id, IdentityDone(env, slot, id, i.msg.ranId, Some(suci), i.auth).slot);
  }

  // ---- Authentication -----------------------------------------------------------------------------

  // The response a message to an entity carries, once unwrapped.
  function Answer(env: Env, slot: Slot, i: Input): Option<Bytes> {
    if !i.msg.UplinkNasTransport? then None
    else
      var plain := Unwrap(env, slot, i.msg.nasPdu).1;
      if plain.None? then None
      else
        match env.decode(plain.value)
        case AuthenticationResponse(resStar) => Some(resStar)
        case _ => None
  }

  // A step authenticates an entity exactly when it answers with the expected response.
  lemma AuthenticatesExactly(env: Env, upf: Option<Octets4>, slot: Slot, id: u32, i: Input, teid: u32)
    requires slot.auth != Authenticated
    ensures LocalStep(env, upf, slot, id, i, teid).slot.auth == Authenticated
            <==> slot.live && Answer(env, slot, i) == Some(slot.security5g.pendingXres)
  {
    hide Dispatch, Unwrap, EmptyAka;
    if i.msg.UplinkNasTransport? {
      var (moved, plain) := Unwrap(env, slot, i.msg.nasPdu);
      UnwrapKeepsAuth(env, slot, i.msg.nasPdu);
      if plain.Some? {
        DispatchAuthenticates(env, upf, moved, id, i.msg.ranId, plain.value, i.auth, teid);
      }
    }
  }

  lemma UnwrapKeepsAuth(env: Env, slot: Slot, pdu: Bytes)
    ensures var moved := Unwrap(env, slot, pdu).0;
            moved.live == slot.live && moved.auth == slot.auth && moved.security5g == slot.security5g
  {
    hide DecodeProtected;
  }

  lemma DispatchAuthenticates(
    env: Env, upf: Option<Octets4>, slot: Slot, id: u32, ranId: u32, plain: Bytes, auth: Option<AuthInfo>, teid: u32)
    requires slot.auth != Authenticated
    ensures Dispatch(env, upf, slot, id, ranId, plain, auth, teid).slot.auth == Authenticated
            <==> slot.live && env.decode(plain) == AuthenticationResponse(slot.security5g.pendingXres)
  {
    hide EncodeProtected, UeIp, PlaceholderGuti, Identified;
  }

  function FiveGAka(env: Env): Locality.Challenge<Input> {
    Locality.Challenge((slot: Slot) => slot.security5g.pendingXres, (slot: Slot, i: Input) => Answer(env, slot, i))
  }

  lemma AnswersGuard(env: Env)
    ensures Locality.Guards(FiveGAka(env), Sight(env))
  {
    hide LocalStep, Answer;
    forall upf: Option<Octets4>, slot: Slot, id: u32, i: Input, teid: u32 | slot.auth != Authenticated
      ensures LocalStep(env, upf, slot, id, i, teid).slot.auth == Authenticated
              <==> slot.live && Answer(env, slot, i) == Some(slot.security5g.pendingXres)
    {
      AuthenticatesExactly(env, upf, slot, id, i, teid);
    }
  }

  // Main result. In any run, whatever the others do: an entity is authenticated under a
  // challenge exactly when it answers one that is outstanding, and without one exactly when it
  // answers zeros; it does not end up authenticated in any other way.
  lemma AuthenticatedExactlyBy(env: Env, sys: System, inputs: seq<Input>, id: u32)
    requires WorldInv(sys.node.world) && |Run(env, sys, inputs).node.world.slots| <= 0x1_0000_0000
    ensures var upf, slot, own := sys.node.upf, SlotOf(sys.node.world, id), Own(env, sys, inputs, id);
            var c, local := FiveGAka(env), Sight(env);
            && (Locality.Sometime(Locality.GetsAuthenticated(c, local, upf, id, true), local, upf, slot, id, own)
                <==> Locality.Sometime(Locality.AnswersChallenge(c), local, upf, slot, id, own))
            && (Locality.Sometime(Locality.GetsAuthenticated(c, local, upf, id, false), local, upf, slot, id, own)
                <==> Locality.Sometime(Locality.AnswersZeros(c), local, upf, slot, id, own))
            && (slot.auth != Authenticated && SlotOf(Run(env, sys, inputs).node.world, id).auth == Authenticated ==>
                  || Locality.Sometime(Locality.AnswersChallenge(c), local, upf, slot, id, own)
                  || Locality.Sometime(Locality.AnswersZeros(c), local, upf, slot, id, own))
  {
    hide WorldInv, Run, SlotOf, Own, FiveGAka, Sight, Locality.LocalRun, Locality.Sometime, Locality.TakesExactly;
    AnswersGuard(env);
    EntityIsItsOwnRun(env, sys, inputs, id);
    Locality.AuthenticatedExactlyBy(FiveGAka(env), Sight(env), sys.node.upf, SlotOf(sys.node.world, id), id,
                                    Own(env, sys, inputs, id));
  }

  // What zeros do, at any step: with no challenge outstanding, an entity is authenticated if
  // and only if it answers as many zeros as the last expected response had octets.
  lemma OnlyZerosPassWithoutChallenge(env: Env, upf: Option<Octets4>, slot: Slot, id: u32, i: Input, teid: u32)
    requires slot.live && slot.auth != Authenticated && !Locality.Outstanding(FiveGAka(env), slot)
    ensures LocalStep(env, upf, slot, id, i, teid).slot.auth == Authenticated
            <==> Answer(env, slot, i) == Some(ZeroBytes(|slot.security5g.pendingXres|))
  {
    hide LocalStep, Answer;
    AuthenticatesExactly(env, upf, slot, id, i, teid);
  }

  // It happens, whatever the codec and the messages: sixteen zeros straight after the
  // registration request authenticate an entity that was never identified or challenged.
  lemma ZerosPassUnidentified(
    env: Env, upf: Option<Octets4>, kernel: Option<Kernel>, request: Input, answer: Input)
    requires Registers(env, request) && Carries(env, answer, 0, AuthenticationResponse(ZeroBytes(16)))
    ensures var end := Run(env, NewSystem(upf, kernel), [request, answer]);
            && SlotOf(end.node.world, 0).auth == Authenticated && SlotOf(end.node.world, 0).identity.imsi == 0
            && end.node.registry == map[]
  {
    hide WorldInv, SysStep, Carries, Registers;
    var start := NewSystem(upf, kernel);
    FirstRegistration(env, upf, kernel, request);
    var n1 := SysStep(env, start, request);
    ZerosAuthenticate(env, n1, answer, 0);
    assert [request, answer][1..] == [answer] && [answer][1..] == [];
    assert Run(env, start, [request, answer]) == Run(env, n1, [answer]);
  }

  lemma ZerosAuthenticate(env: Env, sys: System, i: Input, id: u32)
    requires WorldInv(sys.node.world) && IsLive(sys.node.world, id)
    requires Carries(env, i, id, AuthenticationResponse(SlotOf(sys.node.world, id).security5g.pendingXres))
    ensures var n := SysStep(env, sys, i);
            && SlotOf(n.node.world, id).auth == Authenticated
            && SlotOf(n.node.world, id).identity == SlotOf(sys.node.world, id).identity
            && n.node.registry == sys.node.registry
  {
    hide WorldInv;
    UpdateFrame(sys.node.world, id, AuthResponse(env, SlotOf(sys.node.world, id), id, i.msg.ranId,
                                                 SlotOf(sys.node.world, id).security5g.pendingXres).slot);
  }
}
