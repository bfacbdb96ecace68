// Isolation between the AMF's subscribers: each step touches the one entity it is addressed
// to, so every entity's run is its own, whatever the others do.
module AmfIsolation {
  import opened Bits
  import opened NasSecurity
  import opened Ecs
  import opened Upf
  import opened Control
  import opened AmfNode
  import opened AmfRuns
  import Locality
  import Ngap = NgapCodec

  type Seen = Locality.Seen<Input, Ngap.NgapMessage>

  // The entity a step is addressed to: for a registration, the one it spawns.
  function Addressed(env: Env, s: Node, i: Input): Option<u32>
    requires WorldInv(s.world)
  {
    match i.msg
    case InitialUeMessage(_, nasPdu, _, _, _) =>
      if Registering(env, nasPdu) then Some(Spawn(s.world).1) else None
    case UplinkNasTransport(id, _, _, _, _) => Some(id)
    case InitialContextSetupResponse(id, _, _, _) => Some(id)
    case UeContextReleaseComplete(id, _) => Some(id)
    case _ => None
  }

  // A step as its entity sees it.
  function LocalStep(env: Env, upf: Option<Octets4>, slot: Slot, id: u32, i: Input, teid: u32): Out {
    match i.msg
    case InitialUeMessage(ranId, nasPdu, tai, _, _) =>
      if !Registering(env, nasPdu) then Nothing(slot)
      else Local(RegisterSlot(slot.(live := true), ranId, tai[..3]),
                 [Ngap.DownlinkNasTransport(id, ranId, env.identityRequest)], [], false)
    case UplinkNasTransport(_, ranId, pdu, _, _) => UplinkNas(env, upf, slot, id, ranId, pdu, i.auth, teid)
    case InitialContextSetupResponse(_, _, setup, _) => BearerUp(slot, First(setup))
    case UeContextReleaseComplete(_, _) =>
      if !slot.live then Nothing(slot)
      else Local(Blank(), [], if slot.tunnel.Some? then [RemoveSession(slot.tunnel.value.ulTeid)] else [], false)
    case _ => Nothing(slot)
  }

  function Sight(env: Env): Locality.Sight<Input, Ngap.NgapMessage> {
    (upf: Option<Octets4>, slot: Slot, id: u32, i: Input, teid: u32) => LocalStep(env, upf, slot, id, i, teid)
  }

  // Whether the step, if it spawns, has an id to give out.
  predicate HasRoom(env: Env, s: Node, i: Input) {
    i.msg.InitialUeMessage? && Registering(env, i.msg.nasPdu) ==> CanSpawn(s.world)
  }

  // One step touches the entity it is addressed to, as that entity sees it, and no other.
  lemma StepIsLocal(env: Env, s: Node, i: Input)
    requires WorldInv(s.world) && HasRoom(env, s, i)
    ensures var n := Step(env, s, i);
            && n.node.upf == s.upf
            && match Addressed(env, s, i)
               case None => n == Result(s, [], [])
               case Some(id) =>
                 var l := LocalStep(env, s.upf, SlotOf(s.world, id), id, i, Alloc(s.teids).1);
                 && SlotOf(n.node.world, id) == l.slot && n.out == l.out && n.events == l.events
                 && forall other: u32 :: other != id ==> SlotOf(n.node.world, other) == SlotOf(s.world, other)
  {
    hide WorldInv, UplinkNas, EmptyAka, Indexed;
    var teid := Alloc(s.teids).1;
    match i.msg
    case InitialUeMessage(ranId, nasPdu, tai, _, _) =>
      if Registering(env, nasPdu) {
        EnterIsLocal(s, RegisterSlot(Blank().(live := true), ranId, tai[..3]));
        SpawnIsFresh(s.world);
        DeadIsBlank(s.world, Spawn(s.world).1);
      }
    case UplinkNasTransport(id, ranId, pdu, _, _) =>
      var slot := SlotOf(s.world, id);
      UplinkTame(env, s.upf, slot, id, ranId, pdu, i.auth, teid);
      UpdateFrame(s.world, id, UplinkNas(env, s.upf, slot, id, ranId, pdu, i.auth, teid).slot);
    case InitialContextSetupResponse(id, _, setup, _) =>
      UpdateFrame(s.world, id, BearerUp<Ngap.NgapMessage>(SlotOf(s.world, id), First(setup)).slot);
    case UeContextReleaseComplete(id, _) =>
      DespawnFrame(s.world, id);
    case _ =>
  }

  // A step takes the TEID on offer exactly when it tells the user plane so.
  lemma TakenIsTold(env: Env, upf: Option<Octets4>, slot: Slot, id: u32, i: Input, teid: u32)
    ensures var l := LocalStep(env, upf, slot, id, i, teid);
            Locality.Taken(l.events) == if l.took then Some(teid) else None
  {
    hide UplinkNas;
    if i.msg.UplinkNasTransport? {
      UplinkTame(env, upf, slot, id, i.msg.ranId, i.msg.nasPdu, i.auth, teid);
    }
  }

  // Which TEID is on offer matters only to a step that takes it.
  lemma UntakenIgnored(env: Env)
    ensures Locality.IgnoresUntaken(Sight(env))
  {
    hide LocalStep;
    forall upf: Option<Octets4>, slot: Slot, id: u32, i: Input, t1: u32, t2: u32
      | !LocalStep(env, upf, slot, id, i, t1).took
      ensures LocalStep(env, upf, slot, id, i, t2) == LocalStep(env, upf, slot, id, i, t1)
    {
      OfferIgnored(env, upf, slot, id, i, t1, t2);
    }
  }

  lemma OfferIgnored(env: Env, upf: Option<Octets4>, slot: Slot, id: u32, i: Input, t1: u32, t2: u32)
    requires !LocalStep(env, upf, slot, id, i, t1).took
    ensures LocalStep(env, upf, slot, id, i, t2) == LocalStep(env, upf, slot, id, i, t1)
  {
    hide EncodeProtected, DecodeProtected, UeIp, PlaceholderGuti, Identified;
  }

  // ---- Whole runs --------------------------------------------------------------------------------

  function Observe(env: Env, s: Node, i: Input): Seen
    requires WorldInv(s.world)
  {
    var r := Step(env, s, i);
    Locality.Seen(s, i, Addressed(env, s, i), Locality.Taken(r.events), r.out, r.node)
  }

  // The steps of a run, each with its entity.
  function Steps(env: Env, sys: System, inputs: seq<Input>): seq<Seen>
    requires WorldInv(sys.node.world)
    decreases |inputs|
  {
    if inputs == [] then []
    else [Observe(env, sys.node, inputs[0])] + Steps(env, SysStep(env, sys, inputs[0]), inputs[1..])
  }

  function Own(env: Env, sys: System, inputs: seq<Input>, id: u32): seq<Locality.Handed<Input>>
    requires WorldInv(sys.node.world)
  {
    Locality.Own(Steps(env, sys, inputs), id)
  }

  lemma {:induction false} StepsConnect(env: Env, sys: System, inputs: seq<Input>)
    requires WorldInv(sys.node.world) && |Run(env, sys, inputs).node.world.slots| <= 0x1_0000_0000
    ensures Locality.Connects(Sight(env), sys.node, Steps(env, sys, inputs), Run(env, sys, inputs).node)
    decreases |inputs|
  {
    hide WorldInv, Step, LocalStep, Addressed, SlotOf, HasRoom;
    if inputs != [] {
      var n := SysStep(env, sys, inputs[0]);
      SlotsOnlyGrow(env, n, inputs[1..]);
      StepHasRoom(env, sys.node, inputs[0]);
      StepIsLocal(env, sys.node, inputs[0]);
      if Addressed(env, sys.node, inputs[0]).Some? {
        AddressedTakes(env, sys.node, inputs[0]);
      }
      StepsConnect(env, n, inputs[1..]);
      assert Steps(env, sys, inputs)[1..] == Steps(env, n, inputs[1..]);
    }
  }

  lemma AddressedTakes(env: Env, s: Node, i: Input)
    requires WorldInv(s.world) && HasRoom(env, s, i) && Addressed(env, s, i).Some?
    ensures var id := Addressed(env, s, i).value;
            var l := LocalStep(env, s.upf, SlotOf(s.world, id), id, i, Alloc(s.teids).1);
            Locality.Taken(Step(env, s, i).events) == if l.took then Some(Alloc(s.teids).1) else None
  {
    hide WorldInv, Step, LocalStep, Addressed, SlotOf, HasRoom;
    var id := Addressed(env, s, i).value;
    StepIsLocal(env, s, i);
    TakenIsTold(env, s.upf, SlotOf(s.world, id), id, i, Alloc(s.teids).1);
  }

  lemma StepHasRoom(env: Env, s: Node, i: Input)
    requires WorldInv(s.world) && |Step(env, s, i).node.world.slots| <= 0x1_0000_0000
    ensures HasRoom(env, s, i)
  {
    hide WorldInv, Register, CanSpawn;
    match i.msg
    case InitialUeMessage(ranId, nasPdu, tai, _, _) => RegisterRoom(env, s, ranId, tai[..3]);
    case _ =>
  }

  // Over any interleaving, an entity's components, the messages it is sent and the steps at
  // which it takes a TEID are those of its own subsequence run alone.
  lemma EntityIsItsOwnRun(env: Env, sys: System, inputs: seq<Input>, id: u32)
    requires WorldInv(sys.node.world) && |Run(env, sys, inputs).node.world.slots| <= 0x1_0000_0000
    ensures (SlotOf(Run(env, sys, inputs).node.world, id), Locality.Sent(Steps(env, sys, inputs), id)) ==
            Locality.LocalRun(Sight(env), sys.node.upf, SlotOf(sys.node.world, id), id, Own(env, sys, inputs, id))
    ensures Locality.TakesExactly(Sight(env), sys.node.upf, SlotOf(sys.node.world, id), id, Own(env, sys, inputs, id))
  {
    hide WorldInv, Run, Steps, SlotOf, Locality.Connects, Sight;
    UntakenIgnored(env);
    StepsConnect(env, sys, inputs);
    Locality.EntityIsItsOwnRun(Sight(env), sys.node, Steps(env, sys, inputs), Run(env, sys, inputs).node, id);
  }

  // Two runs of any two nodes that hand an entity the same messages, vectors and TEIDs leave
  // it the same, whatever TEIDs were on offer at its other steps.
  lemma SameHandedSameEntity(env: Env, a: System, inA: seq<Input>, b: System, inB: seq<Input>, id: u32)
    requires WorldInv(a.node.world) && |Run(env, a, inA).node.world.slots| <= 0x1_0000_0000
    requires WorldInv(b.node.world) && |Run(env, b, inB).node.world.slots| <= 0x1_0000_0000
    requires a.node.upf == b.node.upf && SlotOf(a.node.world, id) == SlotOf(b.node.world, id)
    requires Own(env, a, inA, id) == Own(env, b, inB, id)
    ensures SlotOf(Run(env, a, inA).node.world, id) == SlotOf(Run(env, b, inB).node.world, id)
    ensures Locality.Sent(Steps(env, a, inA), id) == Locality.Sent(Steps(env, b, inB), id)
  {
    hide WorldInv, Run, Steps, SlotOf, Locality.Connects, Sight;
    UntakenIgnored(env);
    StepsConnect(env, a, inA);
    StepsConnect(env, b, inB);
    Locality.SameHandedSameEntity(Sight(env), a.node, Steps(env, a, inA), Run(env, a, inA).node,
                                  b.node, Steps(env, b, inB), Run(env, b, inB).node, id);
  }

  // ---- Whose session it is ----------------------------------------------------------------------

  // The message identifies the entity, which holds a tunnel, as another subscriber.
  function Reidentified(env: Env): Locality.Moment<Input> {
    (slot: Slot, h: Locality.Handed<Input>) =>
      && h.input.msg.UplinkNasTransport? && slot.live && slot.tunnel.Some?
      && var imsi := Indexed(env, slot, h.input.msg.nasPdu, h.input.auth);
         imsi.Some? && imsi.value != slot.identity.imsi
  }

  // In any run, whatever the others do, an entity's session carries its IMSI as long as none of
  // its own messages identifies it, holding its tunnel, as another subscriber.
  lemma {:induction false} RunKeepsImsi(env: Env, sys: System, inputs: seq<Input>, id: u32)
    requires SysInv(TEID_BASE, sys) && HoldsImsi(sys, id)
    requires sys.node.teids.next + FreshAllocations(env, sys, inputs) < 0x1_0000_0000
    requires |Run(env, sys, inputs).node.world.slots| <= 0x1_0000_0000
    requires !Locality.Sometime(Reidentified(env), Sight(env), sys.node.upf, SlotOf(sys.node.world, id), id,
                                Own(env, sys, inputs, id))
    ensures HoldsImsi(Run(env, sys, inputs), id)
    decreases |inputs|
  {
    hide SysInv, Step, WorldInv, HoldsImsi, Reidentifies, Reidentified, Sight, Locality.Sometime, HasRoom, LocalStep;
    InvWorld(sys);
    if inputs != [] {
      var n := SysStep(env, sys, inputs[0]);
      CounterMovesByOne(env, sys, inputs[0]);
      SlotsOnlyGrow(env, n, inputs[1..]);
      StepKeepsInv(env, sys, inputs[0]);
      StepKeepsImsiExactly(env, sys, inputs[0], id);
      assert [inputs[0]] + inputs[1..] == inputs;
      StepHasRoom(env, sys.node, inputs[0]);
      OwnStepNotReidentified(env, sys, inputs[0], inputs[1..], id);
      RunKeepsImsi(env, n, inputs[1..], id);
    }
  }

  // Without such a message among its own, an entity's first step is not one, nor are the others.
  lemma OwnStepNotReidentified(env: Env, sys: System, i: Input, rest: seq<Input>, id: u32)
    requires WorldInv(sys.node.world) && HasRoom(env, sys.node, i)
    requires !Locality.Sometime(Reidentified(env), Sight(env), sys.node.upf, SlotOf(sys.node.world, id), id,
                                Own(env, sys, [i] + rest, id))
    ensures !(Reidentifies(env, sys.node, i) && i.msg.amfId == id)
    ensures var n := SysStep(env, sys, i);
            !Locality.Sometime(Reidentified(env), Sight(env), n.node.upf, SlotOf(n.node.world, id), id,
                               Own(env, n, rest, id))
  {
    hide WorldInv, Step, SysStep, HasRoom, LocalStep, Indexed, Locality.Sometime;
    var n := SysStep(env, sys, i);
    var steps := Steps(env, sys, [i] + rest);
    assert ([i] + rest)[1..] == rest;
    assert steps[0] == Observe(env, sys.node, i) && steps[1..] == Steps(env, n, rest);
    StepIsLocal(env, sys.node, i);
    SysStepNode(env, sys, i);
    if Addressed(env, sys.node, i) == Some(id) {
      var slot := SlotOf(sys.node.world, id);
      var h := Locality.Handed(i, Locality.Taken(Step(env, sys.node, i).events));
      AddressedTakes(env, sys.node, i);
      UntakenIgnored(env);
      Locality.OfferDoesNotMatter(Sight(env), sys.node.upf, slot, id, h, Alloc(sys.node.teids).1);
      Locality.SometimeUnroll(Reidentified(env), Sight(env), sys.node.upf, slot, id, h, Own(env, n, rest, id));
      assert !Reidentified(env)(slot, h);
    }
  }

  lemma SysStepNode(env: Env, sys: System, i: Input)
    requires WorldInv(sys.node.world)
    ensures SysStep(env, sys, i).node == Step(env, sys.node, i).node
  {
    hide WorldInv, Step;
  }
}
