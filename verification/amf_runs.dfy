// Every run of the AMF with the user plane applying its events: any NGAP messages, in any
// order, for any UE ids, with any subscriber-server answers.
module AmfRuns {
  import opened Bits
  import opened Ecs
  import opened Upf
  import opened Control
  import opened AmfNode
  import opened NasSecurity
  import Ngap = NgapCodec

  // ---- Local steps are well behaved -----------------------------------------------------------

  // A session an entity creates has the address of its id.
  ghost predicate Tame(slot: Slot, id: u32, teid: u32, l: Out) {
    && WellBehaved(slot, id, teid, l)
    && (l.took ==> l.events != [] && l.events[0].CreateSession? && l.events[0].ueIp == UeIp(id))
  }

  lemma DispatchTame(
    env: Env, upf: Option<Octets4>, slot: Slot, id: u32, ranId: u32, plain: Bytes, auth: Option<AuthInfo>, teid: u32)
    ensures Tame(slot, id, teid, Dispatch(env, upf, slot, id, ranId, plain, auth, teid))
  {
    hide EncodeProtected, UeIp, Identified, PlaceholderGuti;
    match env.decode(plain)
    case SecurityModeComplete =>
      var l := SecurityModeDone(env, upf, slot, id, ranId, teid);
      if slot.live {
        assert upf.Some? ==> Establishes(id, teid, l);
      }
    case IdentityResponse(suci) =>
      IdentityTame(env, slot, id, ranId, suci, auth, teid);
    case _ =>
  }

  lemma IdentityTame(
    env: Env, slot: Slot, id: u32, ranId: u32, suci: Option<Suci>, auth: Option<AuthInfo>, teid: u32)
    ensures Tame(slot, id, teid, IdentityDone(env, slot, id, ranId, suci, auth))
  {
  }

  lemma UplinkTame(
    env: Env, upf: Option<Octets4>, slot: Slot, id: u32, ranId: u32, pdu: Bytes, auth: Option<AuthInfo>, teid: u32)
    ensures Tame(slot, id, teid, UplinkNas(env, upf, slot, id, ranId, pdu, auth, teid))
  {
    hide Dispatch, Unwrap, Establishes, UeIp;
    var r := Unwrap(env, slot, pdu);
    UnwrapTame(env, slot, pdu);
    if r.1.Some? {
      DispatchTame(env, upf, r.0, id, ranId, r.1.value, auth, teid);
    }
  }

  lemma BearerUpTame(slot: Slot, id: u32, first: Option<(u32, Octets4)>, teid: u32)
    ensures Tame(slot, id, teid, BearerUp(slot, first))
    ensures !BearerUp<Ngap.NgapMessage>(slot, first).took
  {
  }

  // ---- Runs ---------------------------------------------------------------------------------------

  lemma StepKeepsWorld(env: Env, s: Node, i: Input)
    requires WorldInv(s.world)
    ensures WorldInv(Step(env, s, i).node.world)
  {
    hide WorldInv, UplinkNas, Update, Indexed;
    match i.msg
    case InitialUeMessage(ranId, nasPdu, tai, _, _) =>
      SpawnKeepsInv(s.world);
      var (w, id) := Spawn(s.world);
      UpdateKeepsInv(w, id, RegisterSlot(SlotOf(w, id), ranId, tai[..3]));
    case UplinkNasTransport(id, ranId, pdu, _, _) =>
      UpdateKeepsInv(s.world, id,
                     UplinkNas(env, s.upf, SlotOf(s.world, id), id, ranId, pdu, i.auth, Alloc(s.teids).1).slot);
    case InitialContextSetupResponse(id, _, setup, _) =>
      UpdateKeepsInv(s.world, id, BearerUp<Ngap.NgapMessage>(SlotOf(s.world, id), First(setup)).slot);
    case UeContextReleaseComplete(id, _) =>
      DespawnKeepsInv(s.world, id);
    case _ =>
  }

  function SysStep(env: Env, sys: System, i: Input): (r: System)
    requires WorldInv(sys.node.world)
    ensures WorldInv(r.node.world)
  {
    StepKeepsWorld(env, sys.node, i);
    var r := Step(env, sys.node, i);
    Deliver(sys, r.node, r.events)
  }

  // One turn of the node's event loop, on the objects themselves.
  method Turn(amf: Amf, upf: SessionManager, msg: Ngap.NgapMessage, auth: Option<AuthInfo>)
    returns (out: seq<Ngap.NgapMessage>)
    requires amf.Valid()
    modifies amf.world, amf.registry, amf.teids, upf, upf.routing
    ensures amf.Valid()
    ensures var sys := System(old(amf.NodeState()), old(upf.State()));
            && System(amf.NodeState(), upf.State()) == SysStep(amf.env, sys, Input(msg, auth))
            && out == Step(amf.env, sys.node, Input(msg, auth)).out
  {
    hide WorldInv, Step, ApplyEvents;
    var events;
    out, events := amf.ProcessNgap(msg, auth);
    upf.HandleAll(events);
  }

  function Run(env: Env, sys: System, inputs: seq<Input>): System
    requires WorldInv(sys.node.world)
    decreases |inputs|
  {
    if inputs == [] then sys else Run(env, SysStep(env, sys, inputs[0]), inputs[1..])
  }

  function FreshAllocations(env: Env, sys: System, inputs: seq<Input>): nat
    requires WorldInv(sys.node.world)
    decreases |inputs|
  {
    if inputs == [] then 0
    else
      var n := SysStep(env, sys, inputs[0]);
      (if n.node.teids.next != sys.node.teids.next then 1 else 0) + FreshAllocations(env, n, inputs[1..])
  }

  ghost predicate EveryEventLands(env: Env, sys: System, inputs: seq<Input>)
    requires WorldInv(sys.node.world)
    decreases |inputs|
  {
    inputs == [] ||
    (AllLand(sys.up, Step(env, sys.node, inputs[0]).events)
     && EveryEventLands(env, SysStep(env, sys, inputs[0]), inputs[1..]))
  }

  lemma CommittedKeepsInv(sys: System, id: u32, l: Out, imsi: Option<u64>)
    requires SysInv(TEID_BASE, sys) && Tame(SlotOf(sys.node.world, id), id, Alloc(sys.node.teids).1, l)
    requires l.took && sys.node.teids.free == [] ==> sys.node.teids.next < 0xFFFF_FFFF
    ensures var r := Committed(sys.node, id, l, imsi);
            SysInv(TEID_BASE, Deliver(sys, r.node, r.events)) && AllLand(sys.up, r.events)
  {
    hide WorldInv, WellBehaved, TablesAgree, NoDuplicates;
    CommitKeepsInv(TEID_BASE, sys, id, l);
    var plain := Deliver(sys, Commit(sys.node, id, l), l.events);
    IndexIsApart(plain, Index(sys.node.registry, imsi, id));
  }

  // The composed invariant does not look at the index.
  lemma IndexIsApart(sys: System, registry: map<u64, u32>)
    requires SysInv(TEID_BASE, sys)
    ensures SysInv(TEID_BASE, sys.(node := sys.node.(registry := registry)))
  {
    hide WorldInv, TablesAgree, NoDuplicates;
    var n := sys.(node := sys.node.(registry := registry));
    forall i: u32 | TunnelOf(n.node.world, i).Some?
      ensures Backed(n, i)
    {
      assert Backed(sys, i);
    }
  }

  lemma RegisterKeepsInv(env: Env, sys: System, ranId: u32, plmn: Octets3)
    requires SysInv(TEID_BASE, sys) && CanSpawn(sys.node.world)
    ensures SysInv(TEID_BASE, Deliver(sys, Register(env, sys.node, ranId, plmn).node, []))
  {
    hide EmptyAka;
    SpawnIsFresh(sys.node.world);
    var (w, id) := Spawn(sys.node.world);
    EnterKeepsInv(TEID_BASE, sys, RegisterSlot(SlotOf(w, id), ranId, plmn), sys.node.registry);
  }

  lemma StepKeepsInv(env: Env, sys: System, i: Input)
    requires SysInv(TEID_BASE, sys)
    requires |SysStep(env, sys, i).node.world.slots| <= 0x1_0000_0000
    requires sys.node.teids.next == 0xFFFF_FFFF ==> SysStep(env, sys, i).node.teids.next == sys.node.teids.next
    ensures SysInv(TEID_BASE, SysStep(env, sys, i)) && AllLand(sys.up, Step(env, sys.node, i).events)
  {
    hide SysInv, UplinkNas, Register, Releasing, Tame, Committed, WorldInv, Indexed;
    InvWorld(sys);
    var s := sys.node;
    assert Deliver(sys, s, []) == sys;
    var teid := Alloc(s.teids).1;
    match i.msg
    case InitialUeMessage(ranId, nasPdu, tai, _, _) =>
      if Registering(env, nasPdu) {
        RegisterRoom(env, s, ranId, tai[..3]);
        RegisterKeepsInv(env, sys, ranId, tai[..3]);
        RegisterQuiet(env, s, ranId, tai[..3]);
      }
    case UplinkNasTransport(id, ranId, pdu, _, _) =>
      var slot := SlotOf(s.world, id);
      var l := UplinkNas(env, s.upf, slot, id, ranId, pdu, i.auth, teid);
      var imsi := Indexed(env, slot, pdu, i.auth);
      UplinkTame(env, s.upf, slot, id, ranId, pdu, i.auth, teid);
      TookMovesCounter(s, id, l, imsi);
      CommittedKeepsInv(sys, id, l, imsi);
    case InitialContextSetupResponse(id, _, setup, _) =>
      var l: Out := BearerUp(SlotOf(s.world, id), First(setup));
      BearerUpTame(SlotOf(s.world, id), id, First(setup), teid);
      CommittedKeepsInv(sys, id, l, None);
    case UeContextReleaseComplete(id, _) =>
      ReleaseKeepsInv(TEID_BASE, sys, id);
    case _ =>
  }

  lemma InvWorld(sys: System)
    requires SysInv(TEID_BASE, sys)
    ensures WorldInv(sys.node.world)
  {
  }

  lemma RegisterQuiet(env: Env, s: Node, ranId: u32, plmn: Octets3)
    requires WorldInv(s.world)
    ensures Register(env, s, ranId, plmn).events == []
  {
  }

  lemma TookMovesCounter(s: Node, id: u32, l: Out, imsi: Option<u64>)
    ensures l.took && s.teids.free == [] ==> Committed(s, id, l, imsi).node.teids.next != s.teids.next
  {
  }

  // Main result. In every run with few enough counter allocations and at most 2^32 entity
  // slots ever in use, however many messages: TEIDs are conserved, live tunnels agree with
  // their sessions, and every event lands.
  lemma {:induction false} RunKeepsInv(env: Env, sys: System, inputs: seq<Input>)
    requires SysInv(TEID_BASE, sys)
    requires sys.node.teids.next + FreshAllocations(env, sys, inputs) < 0x1_0000_0000
    requires |Run(env, sys, inputs).node.world.slots| <= 0x1_0000_0000
    ensures SysInv(TEID_BASE, Run(env, sys, inputs)) && EveryEventLands(env, sys, inputs)
    decreases |inputs|
  {
    hide SysInv, Step, WorldInv, AllLand;
    InvWorld(sys);
    if inputs != [] {
      var n := SysStep(env, sys, inputs[0]);
      CounterMovesByOne(env, sys, inputs[0]);
      SlotsOnlyGrow(env, n, inputs[1..]);
      StepKeepsInv(env, sys, inputs[0]);
      RunKeepsInv(env, n, inputs[1..]);
    }
  }

  lemma CounterMovesByOne(env: Env, sys: System, i: Input)
    requires WorldInv(sys.node.world)
    ensures var before, after := sys.node.teids.next, SysStep(env, sys, i).node.teids.next;
            after == before || after == (before + 1) % 0x1_0000_0000
  {
    hide WorldInv, UplinkNas, Update, Indexed;
  }

  // Columns never shrink, and a registration that leaves at most 2^32 slots found an id to use.
  lemma RegisterRoom(env: Env, s: Node, ranId: u32, plmn: Octets3)
    requires WorldInv(s.world)
    ensures var n := |Register(env, s, ranId, plmn).node.world.slots|;
            |s.world.slots| <= n && (n <= 0x1_0000_0000 ==> CanSpawn(s.world))
  {
    hide WorldInv, RegisterSlot, Spawn;
    SpawnLength(s.world);
  }

  lemma StepOnlyGrows(env: Env, s: Node, i: Input)
    requires WorldInv(s.world)
    ensures |s.world.slots| <= |Step(env, s, i).node.world.slots|
  {
    hide WorldInv, UplinkNas, Register, Despawn, Indexed;
    match i.msg
    case InitialUeMessage(ranId, nasPdu, tai, _, _) => RegisterRoom(env, s, ranId, tai[..3]);
    case UeContextReleaseComplete(id, _) => DespawnLength(s.world, id);
    case _ =>
  }

  lemma {:induction false} SlotsOnlyGrow(env: Env, sys: System, inputs: seq<Input>)
    requires WorldInv(sys.node.world)
    ensures |sys.node.world.slots| <= |Run(env, sys, inputs).node.world.slots|
    decreases |inputs|
  {
    hide WorldInv, Step;
    if inputs != [] {
      StepOnlyGrows(env, sys.node, inputs[0]);
      SlotsOnlyGrow(env, SysStep(env, sys, inputs[0]), inputs[1..]);
    }
  }

  // ---- Whose session it is ----------------------------------------------------------------------

  // The message identifies an entity that holds a tunnel as another subscriber.
  predicate Reidentifies(env: Env, s: Node, i: Input) {
    && i.msg.UplinkNasTransport? && TunnelOf(s.world, i.msg.amfId).Some?
    && var slot := SlotOf(s.world, i.msg.amfId);
       var imsi := Indexed(env, slot, i.msg.nasPdu, i.auth);
       imsi.Some? && imsi.value != slot.identity.imsi
  }

  // What identifies an entity is what indexes it, and such a message does nothing to its tunnel.
  lemma IndexedIdentifies(
    env: Env, upf: Option<Octets4>, slot: Slot, id: u32, ranId: u32, pdu: Bytes, auth: Option<AuthInfo>, teid: u32)
    ensures var l := UplinkNas(env, upf, slot, id, ranId, pdu, auth, teid);
            var imsi := Indexed(env, slot, pdu, auth);
            && (imsi.Some? ==> !l.took)
            && l.slot.identity.imsi == if imsi.Some? then imsi.value else slot.identity.imsi
  {
    hide EncodeProtected, DecodeProtected, UeIp, PlaceholderGuti, Identified;
  }

  // Any step keeps the IMSI of an entity's session that of the entity exactly when it does not
  // identify that entity, holding its tunnel, as another subscriber.
  lemma StepKeepsImsiExactly(env: Env, sys: System, i: Input, id: u32)
    requires SysInv(TEID_BASE, sys) && HoldsImsi(sys, id)
    requires |SysStep(env, sys, i).node.world.slots| <= 0x1_0000_0000
    requires sys.node.teids.next == 0xFFFF_FFFF ==> SysStep(env, sys, i).node.teids.next == sys.node.teids.next
    ensures HoldsImsi(SysStep(env, sys, i), id) <==> !(Reidentifies(env, sys.node, i) && i.msg.amfId == id)
  {
    hide SysInv, UplinkNas, Register, Releasing, WellBehaved, Commit, WorldInv, Indexed, HoldsImsi;
    InvWorld(sys);
    var s := sys.node;
    var teid := Alloc(s.teids).1;
    assert Deliver(sys, s, []) == sys;
    match i.msg
    case InitialUeMessage(ranId, nasPdu, tai, _, _) =>
      if Registering(env, nasPdu) {
        RegisterRoom(env, s, ranId, tai[..3]);
        RegisterKeepsImsi(env, sys, ranId, tai[..3], id);
        RegisterQuiet(env, s, ranId, tai[..3]);
      }
    case UplinkNasTransport(e, ranId, pdu, _, _) =>
      var slot := SlotOf(s.world, e);
      var l := UplinkNas(env, s.upf, slot, e, ranId, pdu, i.auth, teid);
      UplinkTame(env, s.upf, slot, e, ranId, pdu, i.auth, teid);
      IndexedIdentifies(env, s.upf, slot, e, ranId, pdu, i.auth, teid);
      TookMovesCounter(s, e, l, Indexed(env, slot, pdu, i.auth));
      CommitKeepsImsiExactly(TEID_BASE, sys, e, l, id);
      ImsiIgnoresIndex(Deliver(sys, Commit(s, e, l), l.events), SysStep(env, sys, i), id);
    case InitialContextSetupResponse(e, _, setup, _) =>
      var l: Out := BearerUp(SlotOf(s.world, e), First(setup));
      BearerUpTame(SlotOf(s.world, e), e, First(setup), teid);
      CommitKeepsImsiExactly(TEID_BASE, sys, e, l, id);
      ImsiIgnoresIndex(Deliver(sys, Commit(s, e, l), l.events), SysStep(env, sys, i), id);
    case UeContextReleaseComplete(e, _) =>
      ReleaseKeepsImsi(TEID_BASE, sys, e, id);
    case _ =>
  }

  // So over all entities: the sessions of live tunnels carry their entities' IMSIs exactly
  // until some message identifies an entity with a tunnel as another subscriber.
  lemma StepKeepsImsisExactly(env: Env, sys: System, i: Input)
    requires SysInv(TEID_BASE, sys) && ImsisAgree(sys)
    requires |SysStep(env, sys, i).node.world.slots| <= 0x1_0000_0000
    requires sys.node.teids.next == 0xFFFF_FFFF ==> SysStep(env, sys, i).node.teids.next == sys.node.teids.next
    ensures ImsisAgree(SysStep(env, sys, i)) <==> !Reidentifies(env, sys.node, i)
  {
    hide SysInv, WorldInv, HoldsImsi, SysStep, Indexed;
    InvWorld(sys);
    forall id: u32
      ensures HoldsImsi(SysStep(env, sys, i), id) <==> !(Reidentifies(env, sys.node, i) && i.msg.amfId == id)
    {
      StepKeepsImsiExactly(env, sys, i, id);
    }
    if Reidentifies(env, sys.node, i) {
      assert !HoldsImsi(SysStep(env, sys, i), i.msg.amfId);
    }
  }

  lemma ImsiIgnoresIndex(a: System, b: System, id: u32)
    requires a.up == b.up && a.node.world == b.node.world
    ensures HoldsImsi(a, id) <==> HoldsImsi(b, id)
  {
  }

  lemma RegisterKeepsImsi(env: Env, sys: System, ranId: u32, plmn: Octets3, id: u32)
    requires SysInv(TEID_BASE, sys) && HoldsImsi(sys, id) && CanSpawn(sys.node.world)
    ensures HoldsImsi(Deliver(sys, Register(env, sys.node, ranId, plmn).node, []), id)
  {
    hide EmptyAka;
    var (w, e) := Spawn(sys.node.world);
    EnterIsLocal(sys.node, RegisterSlot(SlotOf(w, e), ranId, plmn));
    SpawnIsFresh(sys.node.world);
    hide WorldInv;
  }

  function NewSystem(upfAddr: Option<Octets4>, kernel: Option<Kernel>): (r: System)
    ensures WorldInv(r.node.world)
  {
    System(Node(NEW_WORLD, map[], Teids(TEID_BASE, []), upfAddr), NEW_UPF.(kernel := kernel))
  }

  lemma EveryAmfRun(env: Env, upfAddr: Option<Octets4>, kernel: Option<Kernel>, inputs: seq<Input>)
    requires FreshAllocations(env, NewSystem(upfAddr, kernel), inputs) < 0x1_0000_0000 - TEID_BASE
    requires |Run(env, NewSystem(upfAddr, kernel), inputs).node.world.slots| <= 0x1_0000_0000
    ensures var start := NewSystem(upfAddr, kernel);
            SysInv(TEID_BASE, Run(env, start, inputs)) && EveryEventLands(env, start, inputs)
  {
    RunKeepsInv(env, NewSystem(upfAddr, kernel), inputs);
  }

  // In any run at all, with map writes that succeed, the kernel maps stay exact.
  lemma {:induction false} RunKeepsMirror(env: Env, sys: System, inputs: seq<Input>)
    requires WorldInv(sys.node.world) && TablesAgree(sys.up) && KernelMirrors(sys.up)
    ensures var n := Run(env, sys, inputs);
            KernelMirrors(n.up) && n.up.kernel.Some? == sys.up.kernel.Some?
    decreases |inputs|
  {
    hide WorldInv, Step, TablesAgree, KernelMirrors;
    if inputs != [] {
      var es := Step(env, sys.node, inputs[0]).events;
      MirrorAlways(sys.up, es);
      RunKeepsMirror(env, SysStep(env, sys, inputs[0]), inputs[1..]);
    }
  }

  // ---- UE addresses -----------------------------------------------------------------------------------

  // Two ids share an address exactly when they agree modulo 2^16.
  lemma UeIpCollision(a: u32, b: u32)
    ensures UeIp(a) == UeIp(b) <==> a % 0x1_0000 == b % 0x1_0000
  {
    ByteSplit(a);
    ByteSplit(b);
    if UeIp(a) == UeIp(b) {
      assert UeIp(a)[2] == UeIp(b)[2] && UeIp(a)[3] == UeIp(b)[3];
    }
  }

  lemma ByteSplit(id: u32)
    ensures id % 0x1_0000 == UeIp(id)[2] as int * 0x100 + UeIp(id)[3]
  {
    var n: int := id;
    assert n == 0x100 * (n / 0x100) + n % 0x100;
    assert n / 0x100 == 0x100 * (n / 0x1_0000) + n / 0x100 % 0x100;
  }

  // Every session has the address of the id it was created for: always so.
  ghost predicate IdAddresses(u: UpfState) {
    forall t: u32 :: t in u.sessions ==> u.sessions[t].ueIp == UeIp(u.sessions[t].entityId)
  }

  // A session of an entity whose id agrees with `id` modulo 2^16, `id` itself included.
  ghost predicate Clashes(u: UpfState, id: u32) {
    exists t: u32 :: t in u.sessions && u.sessions[t].entityId % 0x1_0000 == id % 0x1_0000
  }

  lemma EventKeepsIdAddresses(u: UpfState, e: UpfEvent)
    requires IdAddresses(u) && (e.CreateSession? ==> e.ueIp == UeIp(e.entityId))
    ensures IdAddresses(ApplyEvent(u, e))
  {
    hide UeIp;
  }

  // A new session keeps addresses distinct exactly when nothing clashes with its entity.
  lemma CreateKeepsDistinctExactly(u: UpfState, e: UpfEvent)
    requires IdAddresses(u) && DistinctUeIps(u)
    requires e.CreateSession? && e.ulTeid !in u.sessions && e.ueIp == UeIp(e.entityId)
    ensures DistinctUeIps(ApplyEvent(u, e)) <==> !Clashes(u, e.entityId)
  {
    hide UeIp, ApplyEvent;
    CreateOnlyAdds(u, e);
    var n := ApplyEvent(u, e);
    forall t: u32 | t in u.sessions
      ensures n.sessions[t].ueIp == e.ueIp <==> u.sessions[t].entityId % 0x1_0000 == e.entityId % 0x1_0000
    {
      UeIpCollision(u.sessions[t].entityId, e.entityId);
    }
    if Clashes(u, e.entityId) {
      var t: u32 :| t in u.sessions && u.sessions[t].entityId % 0x1_0000 == e.entityId % 0x1_0000;
      assert t in n.sessions && e.ulTeid in n.sessions && n.sessions[t].ueIp == n.sessions[e.ulTeid].ueIp;
    }
  }

  // No other event can make two addresses meet.
  lemma OthersKeepDistinct(u: UpfState, e: UpfEvent)
    requires DistinctUeIps(u) && TablesAgree(u) && !e.CreateSession?
    ensures DistinctUeIps(ApplyEvent(u, e))
  {
  }

  // The message of a live entity, once unwrapped, completes security mode, and there is a user
  // plane to set the session up at.
  predicate CompletesSetup(env: Env, s: Node, i: Input) {
    && i.msg.UplinkNasTransport? && s.upf.Some? && IsLive(s.world, i.msg.amfId)
    && var plain := Unwrap(env, SlotOf(s.world, i.msg.amfId), i.msg.nasPdu).1;
       plain.Some? && env.decode(plain.value) == SecurityModeComplete
  }

  // Just then the entity takes a TEID.
  lemma TakesExactly(env: Env, s: Node, i: Input)
    requires i.msg.UplinkNasTransport?
    ensures var id := i.msg.amfId;
            UplinkNas(env, s.upf, SlotOf(s.world, id), id, i.msg.ranId, i.msg.nasPdu, i.auth, Alloc(s.teids).1).took
            <==> CompletesSetup(env, s, i)
  {
    hide EncodeProtected, DecodeProtected, UeIp, PlaceholderGuti, Identified;
  }

  // Every session a step creates is that of the entity it is addressed to.
  lemma StepCreates(env: Env, s: Node, i: Input)
    requires WorldInv(s.world)
    ensures var es := Step(env, s, i).events;
            && |es| <= 1
            && (es != [] && es[0].CreateSession? <==> CompletesSetup(env, s, i))
            && (es != [] && es[0].CreateSession? ==>
                es[0].entityId == i.msg.amfId && es[0].ueIp == UeIp(i.msg.amfId))
  {
    hide WorldInv, UplinkNas, Indexed, Update, UeIp, CompletesSetup;
    match i.msg
    case UplinkNasTransport(id, ranId, pdu, _, _) =>
      UplinkTame(env, s.upf, SlotOf(s.world, id), id, ranId, pdu, i.auth, Alloc(s.teids).1);
      TakesExactly(env, s, i);
    case _ =>
      assert !CompletesSetup(env, s, i) by { NotUplinkCompletesNothing(env, s, i); }
  }

  lemma NotUplinkCompletesNothing(env: Env, s: Node, i: Input)
    requires !i.msg.UplinkNasTransport?
    ensures !CompletesSetup(env, s, i)
  {
  }

  // The step completes security mode for an entity whose address some session already has.
  ghost predicate SetupClash(env: Env, sys: System, i: Input) {
    CompletesSetup(env, sys.node, i) && Clashes(sys.up, i.msg.amfId)
  }

  // Any step, on any number of slots: addresses stay distinct exactly when it is not a setup
  // for an entity whose id agrees modulo 2^16 with that of a session.
  lemma StepKeepsDistinctExactly(env: Env, sys: System, i: Input)
    requires SysInv(TEID_BASE, sys) && IdAddresses(sys.up) && DistinctUeIps(sys.up)
    requires |SysStep(env, sys, i).node.world.slots| <= 0x1_0000_0000
    requires sys.node.teids.next == 0xFFFF_FFFF ==> SysStep(env, sys, i).node.teids.next == sys.node.teids.next
    ensures DistinctUeIps(SysStep(env, sys, i).up) <==> !SetupClash(env, sys, i)
    ensures IdAddresses(SysStep(env, sys, i).up)
  {
    hide SysInv, CompletesSetup, WorldInv, Step, DistinctUeIps, IdAddresses, Clashes, TablesAgree, ApplyEvent, UeIp;
    InvWorld(sys);
    StepKeepsInv(env, sys, i);
    StepCreates(env, sys.node, i);
    InvTables(sys);
    var es := Step(env, sys.node, i).events;
    if es == [] {
      assert ApplyEvents(sys.up, es) == sys.up;
    } else {
      SingleEvent(sys.up, es);
      EventKeepsIdAddresses(sys.up, es[0]);
      if es[0].CreateSession? {
        CreateKeepsDistinctExactly(sys.up, es[0]);
      } else {
        OthersKeepDistinct(sys.up, es[0]);
      }
    }
  }

  lemma InvTables(sys: System)
    requires SysInv(TEID_BASE, sys)
    ensures TablesAgree(sys.up)
  {
  }

  ghost predicate NoSetupClash(env: Env, sys: System, inputs: seq<Input>)
    requires WorldInv(sys.node.world)
    decreases |inputs|
  {
    inputs == [] ||
    (!SetupClash(env, sys, inputs[0]) && NoSetupClash(env, SysStep(env, sys, inputs[0]), inputs[1..]))
  }

  // Main result. With no bound on ids: as long as no setup is for an entity that clashes with
  // a session, sessions have distinct UE addresses and the downlink route of each session's
  // address is its uplink route.
  lemma {:induction false} RunKeepsDistinct(env: Env, sys: System, inputs: seq<Input>)
    requires SysInv(TEID_BASE, sys) && NoSetupClash(env, sys, inputs)
    requires IdAddresses(sys.up) && DistinctUeIps(sys.up) && DownlinkAgrees(sys.up)
    requires sys.node.teids.next + FreshAllocations(env, sys, inputs) < 0x1_0000_0000
    requires |Run(env, sys, inputs).node.world.slots| <= 0x1_0000_0000
    ensures var end := Run(env, sys, inputs);
            DistinctUeIps(end.up) && DownlinkAgrees(end.up) && IdAddresses(end.up)
    decreases |inputs|
  {
    hide SysInv, Step, WorldInv, DownlinkAgrees, DistinctUeIps, IdAddresses, SetupClash, TablesAgree;
    InvWorld(sys);
    if inputs != [] {
      var n := SysStep(env, sys, inputs[0]);
      CounterMovesByOne(env, sys, inputs[0]);
      SlotsOnlyGrow(env, n, inputs[1..]);
      StepKeepsInv(env, sys, inputs[0]);
      StepKeepsDistinctExactly(env, sys, inputs[0]);
      InvTables(sys);
      StepCreates(env, sys.node, inputs[0]);
      EventsKeepDownlink(sys.up, Step(env, sys.node, inputs[0]).events);
      RunKeepsDistinct(env, n, inputs[1..]);
    }
  }

  // Every session belongs to a live entity that holds its tunnel, and has that id's address.
  ghost predicate SessionsHeld(sys: System) {
    forall t: u32 :: t in sys.up.sessions ==> HeldSession(sys, t)
  }

  ghost predicate HeldSession(sys: System, t: u32)
    requires t in sys.up.sessions
  {
    var e := sys.up.sessions[t].entityId;
    && TunnelOf(sys.node.world, e).Some?
    && TunnelOf(sys.node.world, e).value.ulTeid == t
    && sys.up.sessions[t].ueIp == UeIp(e)
  }

  ghost predicate AddressInv(sys: System) {
    && SysInv(TEID_BASE, sys)
    && |sys.node.world.slots| <= 0x1_0000
    && SessionsHeld(sys)
    && DownlinkAgrees(sys.up)
  }

  lemma HeldSessionsHaveDistinctIps(sys: System)
    requires SessionsHeld(sys) && |sys.node.world.slots| <= 0x1_0000
    ensures DistinctUeIps(sys.up)
  {
    hide UeIp;
    forall t1, t2 | t1 in sys.up.sessions && t2 in sys.up.sessions && t1 != t2
      ensures sys.up.sessions[t1].ueIp != sys.up.sessions[t2].ueIp
    {
      assert HeldSession(sys, t1) && HeldSession(sys, t2);
      UeIpCollision(sys.up.sessions[t1].entityId, sys.up.sessions[t2].entityId);
    }
  }

  // With no earlier tunnel, whatever the entity does keeps every session held.
  lemma CommitKeepsHeld(sys: System, id: u32, l: Out)
    requires SysInv(TEID_BASE, sys) && SessionsHeld(sys)
    requires Tame(SlotOf(sys.node.world, id), id, Alloc(sys.node.teids).1, l)
    requires l.took ==> TunnelOf(sys.node.world, id).None?
    ensures SessionsHeld(Deliver(sys, Commit(sys.node, id, l), l.events))
  {
    hide WorldInv, NoDuplicates, ApplyEvent, TablesAgree, UeIp;
    var slot := SlotOf(sys.node.world, id);
    UpdateFrame(sys.node.world, id, l.slot);
    var n := Deliver(sys, Commit(sys.node, id, l), l.events);
    if slot.live && l.events != [] {
      SingleEvent(sys.up, l.events);
      if Retargets(slot, l) {
        assert Backed(sys, id) by { assert TunnelOf(sys.node.world, id).Some?; }
        UpdateOnlyRetargets(sys.up, l.events[0].ulTeid, l.events[0].dlTeid, l.events[0].ranAddr);
      } else {
        CreateOnlyAdds(sys.up, l.events[0]);
      }
    }
    forall t: u32 | t in n.up.sessions
      ensures HeldSession(n, t)
    {
      if t in sys.up.sessions {
        assert HeldSession(sys, t);
      }
    }
  }

  lemma ReleaseKeepsHeld(sys: System, id: u32)
    requires SysInv(TEID_BASE, sys) && SessionsHeld(sys)
    ensures var r := Releasing(sys.node, id); SessionsHeld(Deliver(sys, r.0, r.1))
  {
    hide NoDuplicates, TablesAgree, UeIp, ApplyEvent;
    if IsLive(sys.node.world, id) {
      DespawnFrame(sys.node.world, id);
      hide WorldInv;
      var r := Releasing(sys.node, id);
      var n := Deliver(sys, r.0, r.1);
      if r.1 != [] {
        SingleEvent(sys.up, r.1);
        RemoveOnlyDeletes(sys.up, r.1[0].ulTeid);
      }
      forall t: u32 | t in n.up.sessions
        ensures HeldSession(n, t)
      {
        assert HeldSession(sys, t);
      }
    }
  }

  lemma RegisterKeepsHeld(env: Env, sys: System, ranId: u32, plmn: Octets3)
    requires SysInv(TEID_BASE, sys) && SessionsHeld(sys) && CanSpawn(sys.node.world)
    ensures SessionsHeld(Deliver(sys, Register(env, sys.node, ranId, plmn).node, []))
  {
    hide EmptyAka, UeIp, NoDuplicates, TablesAgree;
    var (w, id) := Spawn(sys.node.world);
    SpawnFrame(sys.node.world);
    SpawnIsFresh(sys.node.world);
    hide WorldInv;
    UpdateFrame(w, id, RegisterSlot(SlotOf(w, id), ranId, plmn));
    var n := Deliver(sys, Register(env, sys.node, ranId, plmn).node, []);
    forall t: u32 | t in n.up.sessions
      ensures HeldSession(n, t)
    {
      assert HeldSession(sys, t) && sys.up.sessions[t].entityId != id;
    }
  }

  // The step completes security mode for an entity that already holds a tunnel.
  predicate SecondSetup(env: Env, s: Node, i: Input) {
    CompletesSetup(env, s, i) && TunnelOf(s.world, i.msg.amfId).Some?
  }

  lemma StepKeepsHeld(env: Env, sys: System, i: Input)
    requires SysInv(TEID_BASE, sys) && SessionsHeld(sys) && !SecondSetup(env, sys.node, i)
    requires |SysStep(env, sys, i).node.world.slots| <= 0x1_0000_0000
    ensures SessionsHeld(SysStep(env, sys, i))
  {
    hide SysInv, UplinkNas, Register, Releasing, Tame, Commit, WorldInv, Indexed, SessionsHeld, CompletesSetup;
    InvWorld(sys);
    var s := sys.node;
    var teid := Alloc(s.teids).1;
    match i.msg
    case InitialUeMessage(ranId, nasPdu, tai, _, _) =>
      assert Deliver(sys, s, []) == sys;
      if Registering(env, nasPdu) {
        RegisterRoom(env, s, ranId, tai[..3]);
        RegisterKeepsHeld(env, sys, ranId, tai[..3]);
        RegisterQuiet(env, s, ranId, tai[..3]);
      }
    case UplinkNasTransport(id, ranId, pdu, _, _) =>
      var slot := SlotOf(s.world, id);
      var l := UplinkNas(env, s.upf, slot, id, ranId, pdu, i.auth, teid);
      UplinkTame(env, s.upf, slot, id, ranId, pdu, i.auth, teid);
      TakesExactly(env, s, i);
      CommitKeepsHeld(sys, id, l);
      HeldIgnoresIndex(Deliver(sys, Commit(s, id, l), l.events), SysStep(env, sys, i));
    case InitialContextSetupResponse(id, _, setup, _) =>
      var l: Out := BearerUp(SlotOf(s.world, id), First(setup));
      BearerUpTame(SlotOf(s.world, id), id, First(setup), teid);
      CommitKeepsHeld(sys, id, l);
      HeldIgnoresIndex(Deliver(sys, Commit(s, id, l), l.events), SysStep(env, sys, i));
    case UeContextReleaseComplete(id, _) =>
      ReleaseKeepsHeld(sys, id);
    case _ =>
      assert Deliver(sys, s, []) == sys;
  }

  lemma HeldIgnoresIndex(a: System, b: System)
    requires SessionsHeld(a) && a.up == b.up && a.node.world == b.node.world
    ensures SessionsHeld(b)
  {
    hide UeIp;
    forall t: u32 | t in b.up.sessions
      ensures HeldSession(b, t)
    {
      assert HeldSession(a, t);
    }
  }

  // Removals do not add sessions, so addresses stay distinct; with them downlink agrees.
  lemma EventsKeepDownlink(u: UpfState, es: seq<UpfEvent>)
    requires TablesAgree(u) && DownlinkAgrees(u) && DistinctUeIps(u) && |es| <= 1
    requires DistinctUeIps(ApplyEvents(u, es))
    ensures DownlinkAgrees(ApplyEvents(u, es))
  {
    hide TablesAgree, DownlinkAgrees, DistinctUeIps, ApplyEvent;
    if |es| == 1 {
      SingleEvent(u, es);
      EventKeepsDownlink(u, es[0]);
    }
  }

  lemma StepKeepsAddresses(env: Env, sys: System, i: Input)
    requires AddressInv(sys) && !SecondSetup(env, sys.node, i)
    requires |SysStep(env, sys, i).node.world.slots| <= 0x1_0000
    requires sys.node.teids.next == 0xFFFF_FFFF ==> SysStep(env, sys, i).node.teids.next == sys.node.teids.next
    ensures AddressInv(SysStep(env, sys, i))
  {
    hide Step, WorldInv, SessionsHeld, DownlinkAgrees, DistinctUeIps, TunnelsBacked, TeidsConserved, TablesAgree;
    StepKeepsInv(env, sys, i);
    StepKeepsHeld(env, sys, i);
    StepCreates(env, sys.node, i);
    HeldSessionsHaveDistinctIps(sys);
    HeldSessionsHaveDistinctIps(SysStep(env, sys, i));
    EventsKeepDownlink(sys.up, Step(env, sys.node, i).events);
  }

  ghost predicate NoSecondSetup(env: Env, sys: System, inputs: seq<Input>)
    requires WorldInv(sys.node.world)
    decreases |inputs|
  {
    inputs == [] ||
    (!SecondSetup(env, sys.node, inputs[0]) && NoSecondSetup(env, SysStep(env, sys, inputs[0]), inputs[1..]))
  }

  // Main result. With at most 65536 entity slots ever in use, however many registrations
  // recycle them, and no second SecurityModeComplete for an
  // entity that holds a tunnel: through every create, update, removal and reuse of ids and
  // TEIDs, sessions have distinct UE addresses and the downlink route of each session's
  // address is its uplink route.
  lemma {:induction false} RunKeepsAddresses(env: Env, sys: System, inputs: seq<Input>)
    requires AddressInv(sys) && NoSecondSetup(env, sys, inputs)
    requires sys.node.teids.next + FreshAllocations(env, sys, inputs) < 0x1_0000_0000
    requires |Run(env, sys, inputs).node.world.slots| <= 0x1_0000
    ensures AddressInv(Run(env, sys, inputs))
    ensures DistinctUeIps(Run(env, sys, inputs).up) && DownlinkAgrees(Run(env, sys, inputs).up)
    decreases |inputs|
  {
    hide Step, WorldInv, SecondSetup, DownlinkAgrees, DistinctUeIps;
    hide SessionsHeld, TunnelsBacked, TeidsConserved, TablesAgree;
    if inputs == [] {
      HeldSessionsHaveDistinctIps(sys);
    } else {
      var n := SysStep(env, sys, inputs[0]);
      CounterMovesByOne(env, sys, inputs[0]);
      SlotsOnlyGrow(env, n, inputs[1..]);
      StepKeepsAddresses(env, sys, inputs[0]);
      RunKeepsAddresses(env, n, inputs[1..]);
    }
  }

  // On at most 65536 slots with every session held, a clash can only be with the entity's own
  // tunnel.
  lemma ClashIsSecondSetup(env: Env, sys: System, i: Input)
    requires SysInv(TEID_BASE, sys) && SessionsHeld(sys) && |sys.node.world.slots| <= 0x1_0000
    ensures SetupClash(env, sys, i) ==> SecondSetup(env, sys.node, i)
  {
    hide SysInv, UeIp, Unwrap;
    if SetupClash(env, sys, i) {
      var id := i.msg.amfId;
      var t: u32 :| t in sys.up.sessions && sys.up.sessions[t].entityId % 0x1_0000 == id % 0x1_0000;
      assert HeldSession(sys, t);
      assert sys.up.sessions[t].entityId == id;
    }
  }

  // So those hypotheses are a special case of no setup clashing.
  lemma {:induction false} SlotsRuleOutClashes(env: Env, sys: System, inputs: seq<Input>)
    requires AddressInv(sys) && NoSecondSetup(env, sys, inputs)
    requires sys.node.teids.next + FreshAllocations(env, sys, inputs) < 0x1_0000_0000
    requires |Run(env, sys, inputs).node.world.slots| <= 0x1_0000
    ensures NoSetupClash(env, sys, inputs)
    decreases |inputs|
  {
    hide Step, WorldInv, SecondSetup, SetupClash, DownlinkAgrees, SessionsHeld;
    hide TunnelsBacked, TeidsConserved, TablesAgree;
    if inputs != [] {
      var n := SysStep(env, sys, inputs[0]);
      CounterMovesByOne(env, sys, inputs[0]);
      SlotsOnlyGrow(env, n, inputs[1..]);
      ClashIsSecondSetup(env, sys, inputs[0]);
      StepKeepsAddresses(env, sys, inputs[0]);
      SlotsRuleOutClashes(env, n, inputs[1..]);
    }
  }

  lemma NewSystemAddresses(upfAddr: Option<Octets4>, kernel: Option<Kernel>)
    ensures AddressInv(NewSystem(upfAddr, kernel))
    ensures IdAddresses(NewSystem(upfAddr, kernel).up) && DistinctUeIps(NewSystem(upfAddr, kernel).up)
  {
  }

  // The second setup is exactly what breaks it: an entity that takes a TEID leaves all
  // addresses distinct if and only if it held no tunnel before.
  lemma SetupKeepsDistinctExactlyOnce(sys: System, id: u32, l: Out)
    requires AddressInv(sys) && Tame(SlotOf(sys.node.world, id), id, Alloc(sys.node.teids).1, l) && l.took
    requires sys.node.teids.free == [] ==> sys.node.teids.next < 0xFFFF_FFFF
    ensures DistinctUeIps(Deliver(sys, Commit(sys.node, id, l), l.events).up)
            <==> TunnelOf(sys.node.world, id).None?
  {
    hide WorldInv, NoDuplicates, ApplyEvent, TablesAgree, UeIp, DownlinkAgrees;
    UpdateFrame(sys.node.world, id, l.slot);
    var n := Deliver(sys, Commit(sys.node, id, l), l.events);
    if TunnelOf(sys.node.world, id).None? {
      CommitKeepsHeld(sys, id, l);
      assert |n.node.world.slots| <= 0x1_0000;
      HeldSessionsHaveDistinctIps(n);
    } else {
      var first := TunnelOf(sys.node.world, id).value.ulTeid;
      assert Backed(sys, id);
      assert HeldSession(sys, first);
      AllocFresh(TEID_BASE, sys);
      SingleEvent(sys.up, l.events);
      CreateOnlyAdds(sys.up, l.events[0]);
      assert first in n.up.sessions && l.events[0].ulTeid in n.up.sessions && first != l.events[0].ulTeid;
      assert n.up.sessions[first].ueIp == n.up.sessions[l.events[0].ulTeid].ueIp;
    }
  }
}
