// Isolation between the MME's subscribers: each step touches the one entity it is addressed
// to, so every entity's run is its own, whatever the others do.
module MmeIsolation {
  import opened Bits
  import opened NasSecurity
  import opened Ecs
  import opened Upf
  import opened Control
  import opened MmeNode
  import opened MmeRuns
  import Locality
  import S1ap = S1apCodec

  type Seen = Locality.Seen<Input, S1ap.S1apMessage>

  // The entity a step is addressed to: for an attach, the one it spawns.
  function Addressed(env: Env, s: Node, i: Input): Option<u32>
    requires WorldInv(s.world)
  {
    match i.msg
    case InitialUeMessage(_, nasPdu, _, _, _) =>
      if Attaching(env, nasPdu, i.auth).Some? then Some(Spawn(s.world).1) else None
    case UplinkNasTransport(id, _, _, _, _) => Some(id)
    case InitialContextSetupResponse(id, _, _, _) => Some(id)
    case UeContextReleaseComplete(id, _) => Some(id)
    case _ => None
  }

  // A step as its entity sees it.
  function LocalStep(env: Env, upf: Option<Octets4>, slot: Slot, id: u32, i: Input, teid: u32): Out {
    match i.msg
    case InitialUeMessage(enbId, nasPdu, tai, _, _) =>
      var imsi := Attaching(env, nasPdu, i.auth);
      if imsi.None? then Nothing(slot)
      else
        var a := i.auth.value;
        Local(AttachSlot(slot.(live := true), enbId, imsi.value, tai[..3], a),
              [S1ap.DownlinkNasTransport(id, enbId, env.authRequest(a.rand, Autn(a)))], [], false)
    case UplinkNasTransport(_, enbId, pdu, _, _) => UplinkNas(env, upf, slot, id, enbId, pdu, teid)
    case InitialContextSetupResponse(_, _, setup, _) => BearerUp(slot, First(setup))
    case UeContextReleaseComplete(_, _) =>
      if !slot.live then Nothing(slot)
      else Local(Blank(), [], if slot.tunnel.Some? then [RemoveSession(slot.tunnel.value.ulTeid)] else [], false)
    case _ => Nothing(slot)
  }

  function Sight(env: Env): Locality.Sight<Input, S1ap.S1apMessage> {
    (upf: Option<Octets4>, slot: Slot, id: u32, i: Input, teid: u32) => LocalStep(env, upf, slot, id, i, teid)
  }

  // Whether the step, if it spawns, has an id to give out.
  predicate HasRoom(env: Env, s: Node, i: Input) {
    i.msg.InitialUeMessage? && Attaching(env, i.msg.nasPdu, i.auth).Some? ==> CanSpawn(s.world)
  }

  // One step touches the entity it is addressed to, as that entity sees it, and no other.
  lemma StepIsLocal(env: Env, s: Node, i: Input)
    requires WorldInv(s.world) && HasRoom(env, s, i)
    ensures var n := Step(env, s, i);
            && n.node.upf == s.upf
            && match Addressed(env, s, i)
               case None => n == Result(s, [], [])
               case Some(id) =>
                 var l := LocalStep(env, s.upf, SlotOf(s.world, id), id, i, Alloc(s.teids).1);
                 && SlotOf(n.node.world, id) == l.slot && n.out == l.out && n.events == l.events
                 && forall other: u32 :: other != id ==> SlotOf(n.node.world, other) == SlotOf(s.world, other)
  {
    hide WorldInv, UplinkNas;
    var teid := Alloc(s.teids).1;
    match i.msg
    case InitialUeMessage(enbId, nasPdu, tai, _, _) =>
      var imsi := Attaching(env, nasPdu, i.auth);
      if imsi.Some? {
        EnterIsLocal(s, AttachSlot(Blank().(live := true), enbId, imsi.value, tai[..3], i.auth.value));
        SpawnIsFresh(s.world);
        DeadIsBlank(s.world, Spawn(s.world).1);
      }
    case UplinkNasTransport(id, enbId, pdu, _, _) =>
      var slot := SlotOf(s.world, id);
      UplinkTame(env, s.upf, slot, id, enbId, pdu, teid);
      UpdateFrame(s.world, id, UplinkNas(env, s.upf, slot, id, enbId, pdu, teid).slot);
    case InitialContextSetupResponse(id, _, setup, _) =>
      UpdateFrame(s.world, id, BearerUp<S1ap.S1apMessage>(SlotOf(s.world, id), First(setup)).slot);
    case UeContextReleaseComplete(id, _) =>
      DespawnFrame(s.world, id);
    case _ =>
  }

  // A step takes the TEID on offer exactly when it tells the user plane so.
  lemma TakenIsTold(env: Env, upf: Option<Octets4>, slot: Slot, id: u32, i: Input, teid: u32)
    ensures var l := LocalStep(env, upf, slot, id, i, teid);
            Locality.Taken(l.events) == if l.took then Some(teid) else None
  {
    hide UplinkNas;
    if i.msg.UplinkNasTransport? {
      UplinkTame(env, upf, slot, id, i.msg.enbId, i.msg.nasPdu, teid);
    }
  }

  // Which TEID is on offer matters only to a step that takes it.
  lemma UntakenIgnored(env: Env)
    ensures Locality.IgnoresUntaken(Sight(env))
  {
    hide LocalStep;
    forall upf: Option<Octets4>, slot: Slot, id: u32, i: Input, t1: u32, t2: u32
      | !LocalStep(env, upf, slot, id, i, t1).took
      ensures LocalStep(env, upf, slot, id, i, t2) == LocalStep(env, upf, slot, id, i, t1)
    {
      OfferIgnored(env, upf, slot, id, i, t1, t2);
    }
  }

  lemma OfferIgnored(env: Env, upf: Option<Octets4>, slot: Slot, id: u32, i: Input, t1: u32, t2: u32)
    requires !LocalStep(env, upf, slot, id, i, t1).took
    ensures LocalStep(env, upf, slot, id, i, t2) == LocalStep(env, upf, slot, id, i, t1)
  {
    hide EncodeProtected, DecodeProtected;
  }

  // ---- Whole runs --------------------------------------------------------------------------------

  function Observe(env: Env, s: Node, i: Input): Seen
    requires WorldInv(s.world)
  {
    var r := Step(env, s, i);
    Locality.Seen(s, i, Addressed(env, s, i), Locality.Taken(r.events), r.out, r.node)
  }

  // The steps of a run, each with its entity.
  function Steps(env: Env, sys: System, inputs: seq<Input>): seq<Seen>
    requires WorldInv(sys.node.world)
    decreases |inputs|
  {
    if inputs == [] then []
    else [Observe(env, sys.node, inputs[0])] + Steps(env, SysStep(env, sys, inputs[0]), inputs[1..])
  }

  function Own(env: Env, sys: System, inputs: seq<Input>, id: u32): seq<Locality.Handed<Input>>
    requires WorldInv(sys.node.world)
  {
    Locality.Own(Steps(env, sys, inputs), id)
  }

  lemma {:induction false} StepsConnect(env: Env, sys: System, inputs: seq<Input>)
    requires WorldInv(sys.node.world) && |Run(env, sys, inputs).node.world.slots| <= 0x1_0000_0000
    ensures Locality.Connects(Sight(env), sys.node, Steps(env, sys, inputs), Run(env, sys, inputs).node)
    decreases |inputs|
  {
    hide WorldInv, Step, LocalStep, Addressed, SlotOf, HasRoom;
    if inputs != [] {
      var n := SysStep(env, sys, inputs[0]);
      SlotsOnlyGrow(env, n, inputs[1..]);
      StepHasRoom(env, sys.node, inputs[0]);
      StepIsLocal(env, sys.node, inputs[0]);
      if Addressed(env, sys.node, inputs[0]).Some? {
        AddressedTakes(env, sys.node, inputs[0]);
      }
      StepsConnect(env, n, inputs[1..]);
      assert Steps(env, sys, inputs)[1..] == Steps(env, n, inputs[1..]);
    }
  }

  lemma AddressedTakes(env: Env, s: Node, i: Input)
    requires WorldInv(s.world) && HasRoom(env, s, i) && Addressed(env, s, i).Some?
    ensures var id := Addressed(env, s, i).value;
            var l := LocalStep(env, s.upf, SlotOf(s.world, id), id, i, Alloc(s.teids).1);
            Locality.Taken(Step(env, s, i).events) == if l.took then Some(Alloc(s.teids).1) else None
  {
    hide WorldInv, Step, LocalStep, Addressed, SlotOf, HasRoom;
    var id := Addressed(env, s, i).value;
    StepIsLocal(env, s, i);
    TakenIsTold(env, s.upf, SlotOf(s.world, id), id, i, Alloc(s.teids).1);
  }

  lemma StepHasRoom(env: Env, s: Node, i: Input)
    requires WorldInv(s.world) && |Step(env, s, i).node.world.slots| <= 0x1_0000_0000
    ensures HasRoom(env, s, i)
  {
    hide WorldInv, Attach, CanSpawn;
    match i.msg
    case InitialUeMessage(enbId, nasPdu, tai, _, _) =>
      var imsi := Attaching(env, nasPdu, i.auth);
      if imsi.Some? {
        AttachRoom(env, s, enbId, imsi.value, tai[..3], i.auth.value);
      }
    case _ =>
  }

  // Over any interleaving, an entity's components, the messages it is sent and the steps at
  // which it takes a TEID are those of its own subsequence run alone.
  lemma EntityIsItsOwnRun(env: Env, sys: System, inputs: seq<Input>, id: u32)
    requires WorldInv(sys.node.world) && |Run(env, sys, inputs).node.world.slots| <= 0x1_0000_0000
    ensures (SlotOf(Run(env, sys, inputs).node.world, id), Locality.Sent(Steps(env, sys, inputs), id)) ==
            Locality.LocalRun(Sight(env), sys.node.upf, SlotOf(sys.node.world, id), id, Own(env, sys, inputs, id))
    ensures Locality.TakesExactly(Sight(env), sys.node.upf, SlotOf(sys.node.world, id), id, Own(env, sys, inputs, id))
  {
    hide WorldInv, Run, Steps, SlotOf, Locality.Connects, Sight;
    UntakenIgnored(env);
    StepsConnect(env, sys, inputs);
    Locality.EntityIsItsOwnRun(Sight(env), sys.node, Steps(env, sys, inputs), Run(env, sys, inputs).node, id);
  }

  // Two runs of any two nodes that hand an entity the same messages, vectors and TEIDs leave
  // it the same, whatever TEIDs were on offer at its other steps.
  lemma SameHandedSameEntity(env: Env, a: System, inA: seq<Input>, b: System, inB: seq<Input>, id: u32)
    requires WorldInv(a.node.world) && |Run(env, a, inA).node.world.slots| <= 0x1_0000_0000
    requires WorldInv(b.node.world) && |Run(env, b, inB).node.world.slots| <= 0x1_0000_0000
    requires a.node.upf == b.node.upf && SlotOf(a.node.world, id) == SlotOf(b.node.world, id)
    requires Own(env, a, inA, id) == Own(env, b, inB, id)
    ensures SlotOf(Run(env, a, inA).node.world, id) == SlotOf(Run(env, b, inB).node.world, id)
    ensures Locality.Sent(Steps(env, a, inA), id) == Locality.Sent(Steps(env, b, inB), id)
  {
    hide WorldInv, Run, Steps, SlotOf, Locality.Connects, Sight;
    UntakenIgnored(env);
    StepsConnect(env, a, inA);
    StepsConnect(env, b, inB);
    Locality.SameHandedSameEntity(Sight(env), a.node, Steps(env, a, inA), Run(env, a, inA).node,
                                  b.node, Steps(env, b, inB), Run(env, b, inB).node, id);
  }
}
