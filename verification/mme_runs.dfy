// Every run of the MME with the user plane applying its events: any S1AP messages, in any
// order, for any UE ids, with any subscriber-server answers.
module MmeRuns {
  import opened Bits
  import opened Ecs
  import opened Upf
  import opened Control
  import opened MmeNode
  import S1ap = S1apCodec

  // ---- Local steps are well behaved ---------------------------------------------------------

  ghost predicate Tame(slot: Slot, id: u32, teid: u32, l: Out) {
    WellBehaved(slot, id, teid, l) && l.slot.identity == slot.identity
  }

  lemma DispatchTame(env: Env, upf: Option<Octets4>, slot: Slot, id: u32, enbId: u32, plain: Bytes, teid: u32)
    ensures Tame(slot, id, teid, Dispatch(env, upf, slot, id, enbId, plain, teid))
  {
    hide NasSecurity.EncodeProtected;
    match env.decode(plain)
    case SecurityModeComplete =>
      var l := SecurityModeDone(env, upf, slot, id, enbId, teid);
      if slot.live {
        assert upf.Some? ==> Establishes(id, teid, l);
      }
    case _ =>
  }

  lemma UplinkTame(env: Env, upf: Option<Octets4>, slot: Slot, id: u32, enbId: u32, pdu: Bytes, teid: u32)
    ensures Tame(slot, id, teid, UplinkNas(env, upf, slot, id, enbId, pdu, teid))
  {
    hide Dispatch, NasSecurity.DecodeProtected, Establishes;
    var sht := if pdu == [] then 0 else pdu[0] / 16;
    if sht == 0 {
      DispatchTame(env, upf, slot, id, enbId, pdu, teid);
    } else if slot.live && slot.nas.Some? {
      var r := NasSecurity.DecodeProtected(env.crypto, NasSecurity.Eps, slot.nas.value, NasSecurity.Uplink,
                                           NasSecurity.NAS_BEARER, pdu);
      if r.1.Some? {
        DispatchTame(env, upf, slot.(nas := Some(r.0)), id, enbId, r.1.value, teid);
      }
    }
  }

  lemma BearerUpTame(slot: Slot, id: u32, first: Option<(u32, Octets4)>, teid: u32)
    ensures Tame(slot, id, teid, BearerUp(slot, first))
    ensures !BearerUp<S1ap.S1apMessage>(slot, first).took
  {
  }

  // ---- Runs -------------------------------------------------------------------------------------

  lemma StepKeepsWorld(env: Env, s: Node, i: Input)
    requires WorldInv(s.world)
    ensures WorldInv(Step(env, s, i).node.world)
  {
    hide WorldInv, UplinkNas, Update;
    match i.msg
    case InitialUeMessage(enbId, nasPdu, tai, _, _) =>
      SpawnKeepsInv(s.world);
      var (w, id) := Spawn(s.world);
      forall slot: Slot
        ensures WorldInv(Update(w, id, slot))
      {
        UpdateKeepsInv(w, id, slot);
      }
    case UplinkNasTransport(id, enbId, pdu, _, _) =>
      UpdateKeepsInv(s.world, id, UplinkNas(env, s.upf, SlotOf(s.world, id), id, enbId, pdu, Alloc(s.teids).1).slot);
    case InitialContextSetupResponse(id, _, setup, _) =>
      UpdateKeepsInv(s.world, id, BearerUp<S1ap.S1apMessage>(SlotOf(s.world, id), First(setup)).slot);
    case UeContextReleaseComplete(id, _) =>
      DespawnKeepsInv(s.world, id);
    case _ =>
  }

  function SysStep(env: Env, sys: System, i: Input): (r: System)
    requires WorldInv(sys.node.world)
    ensures WorldInv(r.node.world)
  {
    StepKeepsWorld(env, sys.node, i);
    var r := Step(env, sys.node, i);
    Deliver(sys, r.node, r.events)
  }

  // One turn of the node's event loop, on the objects themselves.
  method Turn(mme: Mme, upf: SessionManager, msg: S1ap.S1apMessage, auth: Option<AuthInfo>)
    returns (out: seq<S1ap.S1apMessage>)
    requires mme.Valid()
    modifies mme.world, mme.registry, mme.teids, upf, upf.routing
    ensures mme.Valid()
    ensures var sys := System(old(mme.NodeState()), old(upf.State()));
            && System(mme.NodeState(), upf.State()) == SysStep(mme.env, sys, Input(msg, auth))
            && out == Step(mme.env, sys.node, Input(msg, auth)).out
  {
    hide WorldInv, Step, ApplyEvents;
    var events;
    out, events := mme.ProcessS1ap(msg, auth);
    upf.HandleAll(events);
  }

  function Run(env: Env, sys: System, inputs: seq<Input>): System
    requires WorldInv(sys.node.world)
    decreases |inputs|
  {
    if inputs == [] then sys else Run(env, SysStep(env, sys, inputs[0]), inputs[1..])
  }

  // How often a run takes a TEID off the counter instead of the free list.
  function FreshAllocations(env: Env, sys: System, inputs: seq<Input>): nat
    requires WorldInv(sys.node.world)
    decreases |inputs|
  {
    if inputs == [] then 0
    else
      var n := SysStep(env, sys, inputs[0]);
      (if n.node.teids.next != sys.node.teids.next then 1 else 0) + FreshAllocations(env, n, inputs[1..])
  }

  // Every CreateSession hits an unused TEID, every UpdateBearer finds its session, every
  // RemoveSession returns one.
  ghost predicate EveryEventLands(env: Env, sys: System, inputs: seq<Input>)
    requires WorldInv(sys.node.world)
    decreases |inputs|
  {
    inputs == [] ||
    (AllLand(sys.up, Step(env, sys.node, inputs[0]).events)
     && EveryEventLands(env, SysStep(env, sys, inputs[0]), inputs[1..]))
  }

  // Every index entry points to a live entity with that IMSI.
  ghost predicate RegistryPoints(s: Node) {
    forall imsi: u64 :: imsi in s.registry ==>
      IsLive(s.world, s.registry[imsi]) && SlotOf(s.world, s.registry[imsi]).identity.imsi == imsi
  }

  ghost predicate MmeInv(sys: System) {
    SysInv(TEID_BASE, sys) && ImsisAgree(sys) && RegistryPoints(sys.node)
  }

  // Hence the index is injective.
  lemma RegistryInjective(s: Node, a: u64, b: u64)
    requires RegistryPoints(s) && a in s.registry && b in s.registry && a != b
    ensures s.registry[a] != s.registry[b]
  {
  }

  lemma CommitKeepsMme(sys: System, id: u32, l: Out)
    requires MmeInv(sys) && Tame(SlotOf(sys.node.world, id), id, Alloc(sys.node.teids).1, l)
    requires l.took && sys.node.teids.free == [] ==> sys.node.teids.next < 0xFFFF_FFFF
    ensures MmeInv(Deliver(sys, Commit(sys.node, id, l), l.events)) && AllLand(sys.up, l.events)
  {
    hide SysInv, WellBehaved;
    CommitKeepsInv(TEID_BASE, sys, id, l);
    CommitKeepsImsis(sys, id, l);
    WellBehavedLives(SlotOf(sys.node.world, id), id, Alloc(sys.node.teids).1, l);
    UpdateFrame(sys.node.world, id, l.slot);
  }

  lemma WellBehavedLives(slot: Slot, id: u32, teid: u32, l: Out)
    requires WellBehaved(slot, id, teid, l)
    ensures l.slot.live == slot.live
  {
  }

  lemma CommitKeepsImsis(sys: System, id: u32, l: Out)
    requires SysInv(TEID_BASE, sys) && ImsisAgree(sys)
    requires Tame(SlotOf(sys.node.world, id), id, Alloc(sys.node.teids).1, l)
    requires l.took && sys.node.teids.free == [] ==> sys.node.teids.next < 0xFFFF_FFFF
    ensures ImsisAgree(Deliver(sys, Commit(sys.node, id, l), l.events))
  {
    hide SysInv, WellBehaved, Commit, HoldsImsi;
    forall i: u32
      ensures HoldsImsi(Deliver(sys, Commit(sys.node, id, l), l.events), i)
    {
      CommitKeepsImsiExactly(TEID_BASE, sys, id, l, i);
    }
  }

  lemma ReleaseKeepsMme(sys: System, id: u32)
    requires MmeInv(sys)
    ensures var r := Releasing(sys.node, id);
            MmeInv(Deliver(sys, r.0, r.1)) && AllLand(sys.up, r.1)
  {
    ReleaseKeepsInv(TEID_BASE, sys, id);
    var r := Releasing(sys.node, id);
    forall i: u32
      ensures HoldsImsi(Deliver(sys, r.0, r.1), i)
    {
      ReleaseKeepsImsi(TEID_BASE, sys, id, i);
    }
    hide SysInv, HoldsImsi;
    DespawnFrame(sys.node.world, id);
    hide WorldInv;
  }

  lemma AttachKeepsMme(env: Env, sys: System, enbId: u32, imsi: u64, plmn: Octets3, a: AuthInfo)
    requires MmeInv(sys) && CanSpawn(sys.node.world)
    ensures MmeInv(Deliver(sys, Attach(env, sys.node, enbId, imsi, plmn, a).node, []))
  {
    var (w, id) := Spawn(sys.node.world);
    SpawnFrame(sys.node.world);
    SpawnIsFresh(sys.node.world);
    var slot := AttachSlot(SlotOf(w, id), enbId, imsi, plmn, a);
    EnterKeepsInv(TEID_BASE, sys, slot, sys.node.registry[imsi := id]);
    UpdateFrame(w, id, slot);
    hide WorldInv, NoDuplicates, TablesAgree;
    var n := Deliver(sys, Attach(env, sys.node, enbId, imsi, plmn, a).node, []);
    forall i: u32
      ensures HoldsImsi(n, i)
    {
      assert HoldsImsi(sys, i) && (i != id ==> SlotOf(n.node.world, i) == SlotOf(sys.node.world, i));
    }
    forall m: u64 | m in n.node.registry && m != imsi
      ensures IsLive(n.node.world, n.node.registry[m]) && SlotOf(n.node.world, n.node.registry[m]).identity.imsi == m
    {
      assert n.node.registry[m] != id;
    }
  }

  lemma StepKeepsMme(env: Env, sys: System, i: Input)
    requires MmeInv(sys)
    requires |SysStep(env, sys, i).node.world.slots| <= 0x1_0000_0000
    requires sys.node.teids.next == 0xFFFF_FFFF ==> SysStep(env, sys, i).node.teids.next == sys.node.teids.next
    ensures MmeInv(SysStep(env, sys, i)) && AllLand(sys.up, Step(env, sys.node, i).events)
  {
    hide MmeInv, UplinkNas, Attach, Releasing, Tame, Commit, WorldInv;
    MmeWorld(sys);
    var s := sys.node;
    assert Deliver(sys, s, []) == sys;
    var teid := Alloc(s.teids).1;
    match i.msg
    case InitialUeMessage(enbId, nasPdu, tai, _, _) =>
      var imsi := Attaching(env, nasPdu, i.auth);
      if imsi.Some? {
        AttachRoom(env, s, enbId, imsi.value, tai[..3], i.auth.value);
        AttachKeepsMme(env, sys, enbId, imsi.value, tai[..3], i.auth.value);
        AttachQuiet(env, s, enbId, imsi.value, tai[..3], i.auth.value);
      }
    case UplinkNasTransport(id, enbId, pdu, _, _) =>
      var l := UplinkNas(env, s.upf, SlotOf(s.world, id), id, enbId, pdu, teid);
      UplinkTame(env, s.upf, SlotOf(s.world, id), id, enbId, pdu, teid);
      TookMovesCounter(s, id, l);
      CommitKeepsMme(sys, id, l);
    case InitialContextSetupResponse(id, _, setup, _) =>
      var l: Out := BearerUp(SlotOf(s.world, id), First(setup));
      BearerUpTame(SlotOf(s.world, id), id, First(setup), teid);
      CommitKeepsMme(sys, id, l);
    case UeContextReleaseComplete(id, _) =>
      ReleaseKeepsMme(sys, id);
    case _ =>
  }

  lemma MmeWorld(sys: System)
    requires MmeInv(sys)
    ensures WorldInv(sys.node.world)
  {
  }

  lemma AttachQuiet(env: Env, s: Node, enbId: u32, imsi: u64, plmn: Octets3, a: AuthInfo)
    requires WorldInv(s.world)
    ensures Attach(env, s, enbId, imsi, plmn, a).events == []
  {
  }

  lemma TookMovesCounter(s: Node, id: u32, l: Out)
    ensures l.took && s.teids.free == [] ==> Commit(s, id, l).teids.next != s.teids.next
  {
  }

  // Main result. In every run, as long as fewer TEIDs are taken off the counter than the
  // 32-bit space has above the base and at most 2^32 entity slots are ever in use: TEIDs are conserved, every
  // live tunnel agrees with its session, every event lands, and the IMSI index points to
  // live entities that carry the IMSI.
  lemma {:induction false} RunKeepsMme(env: Env, sys: System, inputs: seq<Input>)
    requires MmeInv(sys)
    requires sys.node.teids.next + FreshAllocations(env, sys, inputs) < 0x1_0000_0000
    requires |Run(env, sys, inputs).node.world.slots| <= 0x1_0000_0000
    ensures MmeInv(Run(env, sys, inputs)) && EveryEventLands(env, sys, inputs)
    decreases |inputs|
  {
    hide MmeInv, Step, WorldInv, AllLand;
    MmeWorld(sys);
    if inputs != [] {
      var n := SysStep(env, sys, inputs[0]);
      CounterMovesByOne(env, sys, inputs[0]);
      SlotsOnlyGrow(env, n, inputs[1..]);
      StepKeepsMme(env, sys, inputs[0]);
      RunKeepsMme(env, n, inputs[1..]);
    }
  }

  lemma CounterMovesByOne(env: Env, sys: System, i: Input)
    requires WorldInv(sys.node.world)
    ensures var before, after := sys.node.teids.next, SysStep(env, sys, i).node.teids.next;
            after == before || after == (before + 1) % 0x1_0000_0000
  {
    hide WorldInv, UplinkNas, Update;
  }

  // Columns never shrink, and an attach that leaves at most 2^32 slots found an id to use.
  lemma AttachRoom(env: Env, s: Node, enbId: u32, imsi: u64, plmn: Octets3, a: AuthInfo)
    requires WorldInv(s.world)
    ensures var n := |Attach(env, s, enbId, imsi, plmn, a).node.world.slots|;
            |s.world.slots| <= n && (n <= 0x1_0000_0000 ==> CanSpawn(s.world))
  {
    hide WorldInv, AttachSlot, Spawn;
    SpawnLength(s.world);
  }

  lemma StepOnlyGrows(env: Env, s: Node, i: Input)
    requires WorldInv(s.world)
    ensures |s.world.slots| <= |Step(env, s, i).node.world.slots|
  {
    hide WorldInv, UplinkNas, Attach, Despawn;
    match i.msg
    case InitialUeMessage(enbId, nasPdu, tai, _, _) =>
      var imsi := Attaching(env, nasPdu, i.auth);
      if imsi.Some? {
        AttachRoom(env, s, enbId, imsi.value, tai[..3], i.auth.value);
      }
    case UeContextReleaseComplete(id, _) => DespawnLength(s.world, id);
    case _ =>
  }

  lemma {:induction false} SlotsOnlyGrow(env: Env, sys: System, inputs: seq<Input>)
    requires WorldInv(sys.node.world)
    ensures |sys.node.world.slots| <= |Run(env, sys, inputs).node.world.slots|
    decreases |inputs|
  {
    hide WorldInv, Step;
    if inputs != [] {
      StepOnlyGrows(env, sys.node, inputs[0]);
      SlotsOnlyGrow(env, SysStep(env, sys, inputs[0]), inputs[1..]);
    }
  }

  function NewSystem(upfAddr: Option<Octets4>, kernel: Option<Kernel>): (r: System)
    ensures WorldInv(r.node.world)
  {
    System(Node(NEW_WORLD, map[], Teids(TEID_BASE, []), upfAddr), NEW_UPF.(kernel := kernel))
  }

  lemma NewSystemOk(upfAddr: Option<Octets4>, kernel: Option<Kernel>)
    ensures MmeInv(NewSystem(upfAddr, kernel))
  {
  }

  // From power-on: fewer than 2^32 - base counter allocations, at most 2^32 slots; any
  // number of messages and attaches.
  lemma EveryMmeRun(env: Env, upfAddr: Option<Octets4>, kernel: Option<Kernel>, inputs: seq<Input>)
    requires FreshAllocations(env, NewSystem(upfAddr, kernel), inputs) < 0x1_0000_0000 - TEID_BASE
    requires |Run(env, NewSystem(upfAddr, kernel), inputs).node.world.slots| <= 0x1_0000_0000
    ensures var start := NewSystem(upfAddr, kernel);
            MmeInv(Run(env, start, inputs)) && EveryEventLands(env, start, inputs)
  {
    NewSystemOk(upfAddr, kernel);
    RunKeepsMme(env, NewSystem(upfAddr, kernel), inputs);
  }

  // In any run at all, with map writes that succeed, the kernel maps stay exact.
  lemma {:induction false} RunKeepsMirror(env: Env, sys: System, inputs: seq<Input>)
    requires WorldInv(sys.node.world) && TablesAgree(sys.up) && KernelMirrors(sys.up)
    ensures var n := Run(env, sys, inputs);
            KernelMirrors(n.up) && n.up.kernel.Some? == sys.up.kernel.Some?
    decreases |inputs|
  {
    hide WorldInv, Step, TablesAgree, KernelMirrors;
    if inputs != [] {
      MirrorAlways(sys.up, Step(env, sys.node, inputs[0]).events);
      RunKeepsMirror(env, SysStep(env, sys, inputs[0]), inputs[1..]);
    }
  }

  // ---- The converse of the index -----------------------------------------------------------------

  // Every live entity is the one its IMSI is indexed to.
  ghost predicate RegistryComplete(s: Node) {
    forall id: u32 :: IsLive(s.world, id) ==>
      SlotOf(s.world, id).identity.imsi in s.registry && s.registry[SlotOf(s.world, id).identity.imsi] == id
  }

  // Whether a live entity already holds the IMSI an attach is about to use.
  ghost predicate Held(s: Node, imsi: u64) {
    exists id: u32 :: IsLive(s.world, id) && SlotOf(s.world, id).identity.imsi == imsi
  }

  // An attach keeps the index complete exactly when nobody live holds the IMSI.
  lemma AttachKeepsComplete(env: Env, s: Node, enbId: u32, imsi: u64, plmn: Octets3, a: AuthInfo)
    requires WorldInv(s.world) && CanSpawn(s.world)
    requires RegistryPoints(s) && RegistryComplete(s)
    ensures RegistryComplete(Attach(env, s, enbId, imsi, plmn, a).node) <==> !Held(s, imsi)
  {
    var (w, id) := Spawn(s.world);
    SpawnFrame(s.world);
    SpawnIsFresh(s.world);
    var slot := AttachSlot(SlotOf(w, id), enbId, imsi, plmn, a);
    UpdateFrame(w, id, slot);
    hide WorldInv;
    var n := Attach(env, s, enbId, imsi, plmn, a).node;
    forall i: u32
      ensures SlotOf(n.world, i) == if i == id then slot else SlotOf(s.world, i)
      ensures IsLive(n.world, i) == (i == id || IsLive(s.world, i))
    {
    }
    if Held(s, imsi) {
      var holder :| IsLive(s.world, holder) && SlotOf(s.world, holder).identity.imsi == imsi;
      assert IsLive(n.world, holder) && n.registry[imsi] == id != holder;
    }
  }

  ghost predicate NeverReattaches(env: Env, sys: System, inputs: seq<Input>)
    requires WorldInv(sys.node.world)
    decreases |inputs|
  {
    inputs == [] ||
    (var i := inputs[0];
     (i.msg.InitialUeMessage? ==>
       var imsi := Attaching(env, i.msg.nasPdu, i.auth);
       imsi.Some? ==> !Held(sys.node, imsi.value))
     && NeverReattaches(env, SysStep(env, sys, i), inputs[1..]))
  }

  lemma CommitKeepsComplete(s: Node, id: u32, l: Out)
    requires RegistryComplete(s) && l.slot.live == SlotOf(s.world, id).live
    requires l.slot.identity == SlotOf(s.world, id).identity
    ensures RegistryComplete(Commit(s, id, l))
  {
    UpdateFrame(s.world, id, l.slot);
  }

  lemma ReleaseKeepsComplete(s: Node, id: u32)
    requires WorldInv(s.world) && RegistryPoints(s) && RegistryComplete(s)
    ensures RegistryComplete(Releasing(s, id).0)
  {
    DespawnFrame(s.world, id);
    hide WorldInv;
  }

  lemma StepKeepsComplete(env: Env, s: Node, i: Input)
    requires WorldInv(s.world) && RegistryPoints(s) && RegistryComplete(s)
    requires |Step(env, s, i).node.world.slots| <= 0x1_0000_0000
    requires i.msg.InitialUeMessage? ==>
               var imsi := Attaching(env, i.msg.nasPdu, i.auth); imsi.Some? ==> !Held(s, imsi.value)
    ensures RegistryComplete(Step(env, s, i).node)
  {
    hide WorldInv, RegistryPoints, RegistryComplete, UplinkNas, Attach, Releasing, Commit, Held;
    var teid := Alloc(s.teids).1;
    match i.msg
    case InitialUeMessage(enbId, nasPdu, tai, _, _) =>
      var imsi := Attaching(env, nasPdu, i.auth);
      if imsi.Some? {
        AttachRoom(env, s, enbId, imsi.value, tai[..3], i.auth.value);
        AttachKeepsComplete(env, s, enbId, imsi.value, tai[..3], i.auth.value);
      }
    case UplinkNasTransport(id, enbId, pdu, _, _) =>
      UplinkTame(env, s.upf, SlotOf(s.world, id), id, enbId, pdu, teid);
      CommitKeepsComplete(s, id, UplinkNas(env, s.upf, SlotOf(s.world, id), id, enbId, pdu, teid));
    case InitialContextSetupResponse(id, _, setup, _) =>
      BearerUpTame(SlotOf(s.world, id), id, First(setup), teid);
      CommitKeepsComplete(s, id, BearerUp(SlotOf(s.world, id), First(setup)));
    case UeContextReleaseComplete(id, _) =>
      ReleaseKeepsComplete(s, id);
    case _ =>
  }

  // When no IMSI attaches again while it is held, index and live entities correspond one to one.
  lemma {:induction false} RunKeepsComplete(env: Env, sys: System, inputs: seq<Input>)
    requires MmeInv(sys) && RegistryComplete(sys.node) && NeverReattaches(env, sys, inputs)
    requires sys.node.teids.next + FreshAllocations(env, sys, inputs) < 0x1_0000_0000
    requires |Run(env, sys, inputs).node.world.slots| <= 0x1_0000_0000
    ensures RegistryPoints(Run(env, sys, inputs).node) && RegistryComplete(Run(env, sys, inputs).node)
    decreases |inputs|
  {
    hide SysInv, Step, WorldInv, RegistryPoints, RegistryComplete, ImsisAgree, AllLand, Held;
    MmeWorld(sys);
    if inputs != [] {
      var n := SysStep(env, sys, inputs[0]);
      CounterMovesByOne(env, sys, inputs[0]);
      SlotsOnlyGrow(env, n, inputs[1..]);
      StepKeepsMme(env, sys, inputs[0]);
      StepKeepsComplete(env, sys.node, inputs[0]);
      RunKeepsComplete(env, n, inputs[1..]);
    }
  }

  // ---- UE addresses -----------------------------------------------------------------------------

  // The MME never assigns an address: identities and sessions all carry 0.0.0.0.
  ghost predicate NoAddresses(sys: System) {
    && (forall id: u32 :: IsLive(sys.node.world, id) ==> SlotOf(sys.node.world, id).identity.ueIp == ZERO_ADDR)
    && (forall t: u32 :: t in sys.up.sessions ==> sys.up.sessions[t].ueIp == ZERO_ADDR)
  }

  ghost predicate CreatesWith(l: Out, ueIp: Octets4) {
    forall e :: e in l.events && e.CreateSession? ==> e.ueIp == ueIp
  }

  lemma UplinkCreatesWithOwnIp(env: Env, upf: Option<Octets4>, slot: Slot, id: u32, enbId: u32, pdu: Bytes, teid: u32)
    ensures CreatesWith(UplinkNas(env, upf, slot, id, enbId, pdu, teid), slot.identity.ueIp)
  {
    hide NasSecurity.EncodeProtected, NasSecurity.DecodeProtected;
  }

  lemma EventsKeepZeroSessions(u: UpfState, es: seq<UpfEvent>)
    requires forall t: u32 :: t in u.sessions ==> u.sessions[t].ueIp == ZERO_ADDR
    requires forall e :: e in es && e.CreateSession? ==> e.ueIp == ZERO_ADDR
    ensures forall t: u32 :: t in ApplyEvents(u, es).sessions ==> ApplyEvents(u, es).sessions[t].ueIp == ZERO_ADDR
    decreases |es|
  {
    if es != [] {
      assert es[0] in es;
      EventsKeepZeroSessions(ApplyEvent(u, es[0]), es[1..]);
    }
  }

  lemma CommitKeepsNoAddresses(sys: System, id: u32, l: Out)
    requires NoAddresses(sys) && Tame(SlotOf(sys.node.world, id), id, Alloc(sys.node.teids).1, l)
    requires IsLive(sys.node.world, id) ==> CreatesWith(l, SlotOf(sys.node.world, id).identity.ueIp)
    ensures NoAddresses(Deliver(sys, Commit(sys.node, id, l), l.events))
  {
    hide ApplyEvents;
    WellBehavedLives(SlotOf(sys.node.world, id), id, Alloc(sys.node.teids).1, l);
    UpdateFrame(sys.node.world, id, l.slot);
    if IsLive(sys.node.world, id) {
      EventsKeepZeroSessions(sys.up, l.events);
    } else {
      NoEventsNoChange(sys.up);
    }
  }

  lemma NoEventsNoChange(u: UpfState)
    ensures ApplyEvents(u, []) == u
  {
  }

  lemma StepKeepsNoAddresses(env: Env, sys: System, i: Input)
    requires WorldInv(sys.node.world) && NoAddresses(sys)
    requires |SysStep(env, sys, i).node.world.slots| <= 0x1_0000_0000
    ensures NoAddresses(SysStep(env, sys, i))
  {
    hide UplinkNas, Tame, Commit, WorldInv, CreatesWith;
    var s := sys.node;
    var teid := Alloc(s.teids).1;
    match i.msg
    case InitialUeMessage(enbId, nasPdu, tai, _, _) =>
      var (w, id) := Spawn(s.world);
      SpawnedLives(s.world);
      if Attaching(env, nasPdu, i.auth).Some? {
        AttachRoom(env, s, enbId, Attaching(env, nasPdu, i.auth).value, tai[..3], i.auth.value);
        SpawnFrame(s.world);
      }
      forall slot: Slot | slot.live
        ensures forall j: u32 :: j != id ==> SlotOf(Update(w, id, slot), j) == SlotOf(w, j)
        ensures SlotOf(Update(w, id, slot), id) == slot
      {
        UpdateFrame(w, id, slot);
      }
    case UplinkNasTransport(id, enbId, pdu, _, _) =>
      var slot := SlotOf(s.world, id);
      UplinkTame(env, s.upf, slot, id, enbId, pdu, teid);
      UplinkCreatesWithOwnIp(env, s.upf, slot, id, enbId, pdu, teid);
      CommitKeepsNoAddresses(sys, id, UplinkNas(env, s.upf, slot, id, enbId, pdu, teid));
    case InitialContextSetupResponse(id, _, setup, _) =>
      var l: Out := BearerUp(SlotOf(s.world, id), First(setup));
      BearerUpTame(SlotOf(s.world, id), id, First(setup), teid);
      assert CreatesWith(l, ZERO_ADDR) by { BearerUpCreatesNothing(SlotOf(s.world, id), First(setup)); }
      CommitKeepsNoAddresses(sys, id, l);
    case UeContextReleaseComplete(id, _) =>
      DespawnFrame(s.world, id);
      EventsKeepZeroSessions(sys.up, Releasing(s, id).1);
    case _ =>
  }

  lemma BearerUpCreatesNothing(slot: Slot, first: Option<(u32, Octets4)>)
    ensures CreatesWith(BearerUp(slot, first), ZERO_ADDR)
  {
  }

  // So in every run the sessions' addresses are distinct exactly while there is at most one
  // session: with two, they share one downlink entry.
  lemma {:induction false} RunSharesOneAddress(env: Env, sys: System, inputs: seq<Input>)
    requires WorldInv(sys.node.world) && NoAddresses(sys)
    requires |Run(env, sys, inputs).node.world.slots| <= 0x1_0000_0000
    ensures DistinctUeIps(Run(env, sys, inputs).up) <==> |Run(env, sys, inputs).up.sessions| <= 1
    decreases |inputs|
  {
    hide WorldInv, Step, DistinctUeIps, NoAddresses;
    if inputs == [] {
      ZeroIpsDistinct(sys);
    } else {
      SlotsOnlyGrow(env, SysStep(env, sys, inputs[0]), inputs[1..]);
      StepKeepsNoAddresses(env, sys, inputs[0]);
      RunSharesOneAddress(env, SysStep(env, sys, inputs[0]), inputs[1..]);
    }
  }

  lemma ZeroIpsDistinct(sys: System)
    requires NoAddresses(sys)
    ensures DistinctUeIps(sys.up) <==> |sys.up.sessions| <= 1
  {
    var keys := sys.up.sessions.Keys;
    if |keys| > 1 {
      var a :| a in keys;
      assert |keys - {a}| > 0;
      var b :| b in keys - {a};
      assert a in sys.up.sessions && b in sys.up.sessions && a != b;
    } else {
      forall a, b | a in sys.up.sessions && b in sys.up.sessions
        ensures a == b
      {
        if a != b {
          assert {a, b} <= keys;
          SubsetSize({a, b}, keys);
        }
      }
    }
  }

  lemma {:induction false} SubsetSize<T>(a: set<T>, b: set<T>)
    requires a <= b
    ensures |a| <= |b|
    decreases |a|
  {
    if a != {} {
      var x :| x in a;
      SubsetSize(a - {x}, b - {x});
    }
  }
}
