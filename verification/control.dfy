// What the MME and the AMF share: the uplink TEID allocator, the state a control-plane
// node carries, how one entity's step is committed to it, and the bearer-setup and release
// steps, which are the same on both sides. Composed with the user plane, this is where
// TEIDs are conserved and tunnels agree with sessions.
module Control {
  import opened Bits
  import opened NasSecurity
  import opened Ecs
  import opened Upf
  import opened BearerLists

  // ---- TEID allocation ------------------------------------------------------------------------

  datatype Teids = Teids(next: u32, free: seq<u32>)

  function Alloc(t: Teids): (Teids, u32) {
    if t.free != [] then (t.(free := t.free[..|t.free| - 1]), t.free[|t.free| - 1])
    else (t.(next := (t.next + 1) % 0x1_0000_0000), t.next)
  }

  function ReleaseTeid(t: Teids, teid: u32): Teids {
    t.(free := t.free + [teid])
  }

  class TeidAllocator {
    var next: u32
    var free: seq<u32>

    constructor (base: u32)
      ensures State() == Teids(base, [])
    {
      next, free := base, [];
    }

    function State(): Teids
      reads this
    {
      Teids(next, free)
    }

    method AllocTeid() returns (teid: u32)
      modifies this
      ensures (State(), teid) == Alloc(old(State()))
    {
      if free != [] {
        teid := free[|free| - 1];
        free := free[..|free| - 1];
        return;
      }
      teid := next;
      next := (next + 1) % 0x1_0000_0000;
    }

    method Release(teid: u32)
      modifies this
      ensures State() == ReleaseTeid(old(State()), teid)
    {
      free := free + [teid];
    }
  }

  // ---- Node state -------------------------------------------------------------------------------

  // `upf` is the user plane's address when the node drives one (Phase 3, Phase B).
  datatype Node = Node(world: WorldState, registry: map<u64, u32>, teids: Teids, upf: Option<Octets4>)

  // What a step does to the one entity it is addressed to: its new slot, the messages and
  // events it emits, and whether it used up the TEID it was offered.
  datatype Local<M> = Local(slot: Slot, out: seq<M>, events: seq<UpfEvent>, took: bool)

  function Nothing<M>(slot: Slot): Local<M> {
    Local(slot, [], [], false)
  }

  function Commit<M>(s: Node, id: u32, l: Local<M>): Node {
    s.(world := Update(s.world, id, l.slot), teids := if l.took then Alloc(s.teids).0 else s.teids)
  }

  // The first bearer of a setup response, if there is one.
  function First(setup: seq<BearerSetup>): Option<(u32, Octets4)> {
    if setup == [] then None else Some((FromBE32(setup[0].gtpTeid), setup[0].transportAddr))
  }

  // It names the tunnel's far end.
  function BearerUp<M>(slot: Slot, first: Option<(u32, Octets4)>): Local<M> {
    if first.None? || !slot.live || slot.tunnel.None? then Nothing(slot)
    else
      var t := slot.tunnel.value;
      var dlTeid, ranAddr := first.value.0, first.value.1;
      Local(slot.(tunnel := Some(t.(dlTeid := dlTeid, ranAddr := ranAddr))), [],
            [UpdateBearer(t.ulTeid, dlTeid, ranAddr)], false)
  }

  function Releasing(s: Node, id: u32): (Node, seq<UpfEvent>)
    requires WorldInv(s.world)
  {
    if !IsLive(s.world, id) then (s, [])
    else
      var slot := SlotOf(s.world, id);
      var gone := s.(world := Despawn(s.world, id), registry := s.registry - {slot.identity.imsi});
      match slot.tunnel
      case None => (gone, [])
      case Some(t) => (gone.(teids := ReleaseTeid(s.teids, t.ulTeid)), [RemoveSession(t.ulTeid)])
  }

  method ReleaseEntity(world: World, registry: ImsiRegistry, teids: TeidAllocator, id: u32, ghost upf: Option<Octets4>)
    returns (events: seq<UpfEvent>)
    requires world.Valid()
    modifies world, registry, teids
    ensures world.Valid()
    ensures (Node(world.State(), registry.imsiMap, teids.State(), upf), events) ==
            Releasing(Node(old(world.State()), old(registry.imsiMap), old(teids.State()), upf), id)
  {
    hide WorldInv;
    var t := world.GetTunnel(id);
    var identity := world.GetIdentity(id);
    if identity.Some? {
      var _ := registry.Deregister(identity.value.imsi);
    }
    world.DespawnEntity(id);
    if t.None? {
      return [];
    }
    teids.Release(t.value.ulTeid);
    events := [RemoveSession(t.value.ulTeid)];
  }

  method BearerUpEntity(world: World, id: u32, first: Option<(u32, Octets4)>) returns (events: seq<UpfEvent>)
    requires world.Valid()
    modifies world
    ensures world.Valid()
    ensures var l := BearerUp<()>(SlotOf(old(world.State()), id), first);
            world.State() == Update(old(world.State()), id, l.slot) && events == l.events
  {
    hide WorldInv;
    if first.None? {
      UpdateNothing(world.State(), id);
      return [];
    }
    var t := world.GetTunnel(id);
    if t.None? {
      UpdateNothing(world.State(), id);
      return [];
    }
    var dlTeid, ranAddr := first.value.0, first.value.1;
    world.SetTunnel(id, t.value.(dlTeid := dlTeid, ranAddr := ranAddr));
    events := [UpdateBearer(t.value.ulTeid, dlTeid, ranAddr)];
  }

  lemma UpdateNothing(w: WorldState, id: u32)
    ensures Update(w, id, SlotOf(w, id)) == w
  {
    if IsLive(w, id) {
      assert w.slots[id := w.slots[id]] == w.slots;
    }
  }

  // Two setters on one entity: the second sees the first, and only the last slot remains.
  lemma UpdateTwice(w: WorldState, id: u32, s1: Slot, s2: Slot)
    ensures Update(Update(w, id, s1), id, s2) == Update(w, id, s2)
    ensures IsLive(w, id) ==> IsLive(Update(w, id, s1), id) && SlotOf(Update(w, id, s1), id) == s1.(live := true)
    ensures !IsLive(w, id) ==> Update(w, id, s1) == w
  {
    if IsLive(w, id) {
      assert w.slots[id := s1.(live := true)][id := s2.(live := true)] == w.slots[id := s2.(live := true)];
    }
  }

  // ---- Authentication material ------------------------------------------------------------------

  // What the subscriber server answers for one challenge.
  datatype AuthInfo = AuthInfo(
    rand: Bytes, res: Bytes, ck: Bytes, ik: Bytes, ak: Octets6, macA: Bytes, sqnUsed: Octets6)

  // (SQN xor AK), the authentication management field, MAC-A.
  function Autn(a: AuthInfo): Bytes {
    XorBytes(a.sqnUsed, a.ak) + [0x80, 0x00] + a.macA
  }

  // ---- Control plane composed with user plane -----------------------------------------------

  datatype System = System(node: Node, up: UpfState)

  // The user plane applies each event as it is emitted.
  function Deliver(sys: System, node: Node, events: seq<UpfEvent>): System {
    System(node, ApplyEvents(sys.up, events))
  }

  ghost predicate AllLand(u: UpfState, es: seq<UpfEvent>)
    decreases |es|
  {
    es == [] || (Lands(u, es[0]) && AllLand(ApplyEvent(u, es[0]), es[1..]))
  }

  // Session keys and free TEIDs are disjoint and make up exactly [base, next), and the free
  // list has no duplicates.
  ghost predicate TeidsConserved(base: u32, sys: System) {
    && base <= sys.node.teids.next
    && NoDuplicates(sys.node.teids.free)
    && (forall t: u32 :: t in sys.up.sessions ==> base <= t < sys.node.teids.next)
    && (forall t: u32 :: t in sys.node.teids.free ==> base <= t < sys.node.teids.next)
    && (forall t: u32 :: t in sys.up.sessions ==> t !in sys.node.teids.free)
    && (forall t: u32 :: base <= t < sys.node.teids.next ==> t in sys.up.sessions || t in sys.node.teids.free)
  }

  lemma ConservedAsSets(base: u32, sys: System)
    requires TeidsConserved(base, sys)
    ensures var free := set t | t in sys.node.teids.free;
            && sys.up.sessions.Keys !! free
            && forall t: u32 :: t in sys.up.sessions.Keys + free <==> base <= t < sys.node.teids.next
  {
  }

  function TunnelOf(w: WorldState, id: u32): Option<Tunnel> {
    if IsLive(w, id) then SlotOf(w, id).tunnel else None
  }

  // Each live tunnel is backed by a session of the same entity with the same far end.
  ghost predicate TunnelsBacked(sys: System) {
    forall id: u32 :: TunnelOf(sys.node.world, id).Some? ==> Backed(sys, id)
  }

  ghost predicate Backed(sys: System, id: u32)
    requires TunnelOf(sys.node.world, id).Some?
  {
    var t := TunnelOf(sys.node.world, id).value;
    && t.ulTeid in sys.up.sessions
    && sys.up.sessions[t.ulTeid].entityId == id
    && sys.up.sessions[t.ulTeid].dlTeid == t.dlTeid
    && sys.up.sessions[t.ulTeid].ranAddr == t.ranAddr
  }

  ghost predicate SysInv(base: u32, sys: System) {
    && WorldInv(sys.node.world)
    && TeidsConserved(base, sys)
    && TablesAgree(sys.up)
    && TunnelsBacked(sys)
  }

  // Live tunnels have pairwise distinct uplink TEIDs, none of them free.
  lemma TunnelsDistinct(base: u32, sys: System, a: u32, b: u32)
    requires SysInv(base, sys)
    requires TunnelOf(sys.node.world, a).Some? && TunnelOf(sys.node.world, b).Some?
    ensures a != b ==> TunnelOf(sys.node.world, a).value.ulTeid != TunnelOf(sys.node.world, b).value.ulTeid
    ensures TunnelOf(sys.node.world, a).value.ulTeid !in sys.node.teids.free
  {
    assert Backed(sys, a) && Backed(sys, b);
  }

  // ---- One step of one entity ---------------------------------------------------------------------

  // The three things an entity's step may do to its tunnel.
  ghost predicate Keeps<M>(slot: Slot, l: Local<M>) {
    !l.took && l.events == [] && l.slot.tunnel == slot.tunnel
  }

  ghost predicate Establishes<M>(id: u32, teid: u32, l: Local<M>) {
    && l.took && l.slot.tunnel == Some(Tunnel(teid, 0, ZERO_ADDR))
    && |l.events| == 1 && l.events[0].CreateSession?
    && l.events[0].ulTeid == teid && l.events[0].entityId == id
    && l.events[0].imsi == l.slot.identity.imsi && l.events[0].ranAddr == ZERO_ADDR
  }

  ghost predicate Retargets<M>(slot: Slot, l: Local<M>) {
    && !l.took && slot.tunnel.Some? && l.slot.tunnel.Some?
    && l.slot.tunnel.value.ulTeid == slot.tunnel.value.ulTeid
    && l.events == [UpdateBearer(slot.tunnel.value.ulTeid, l.slot.tunnel.value.dlTeid, l.slot.tunnel.value.ranAddr)]
  }

  ghost predicate WellBehaved<M>(slot: Slot, id: u32, teid: u32, l: Local<M>) {
    if !slot.live then l.slot == slot && !l.took && l.events == []
    else l.slot.live && (Keeps(slot, l) || Establishes(id, teid, l) || Retargets(slot, l))
  }

  lemma AllocFresh(base: u32, sys: System)
    requires TeidsConserved(base, sys)
    requires sys.node.teids.free != [] || sys.node.teids.next < 0xFFFF_FFFF
    ensures var (teids, teid) := Alloc(sys.node.teids);
            && teid !in sys.up.sessions && teid !in teids.free && NoDuplicates(teids.free)
            && base <= teid < teids.next && sys.node.teids.next <= teids.next
            && (forall t: u32 :: t in teids.free ==> t in sys.node.teids.free)
            && (forall t: u32 :: base <= t < teids.next && t != teid ==> t in sys.up.sessions || t in teids.free)
  {
    var ts := sys.node.teids;
    if ts.free != [] {
      var last := |ts.free| - 1;
      var teid := ts.free[last];
      assert teid in ts.free;
      forall t: u32 | t in ts.free && t != teid
        ensures t in ts.free[..last]
      {
        var k :| 0 <= k < |ts.free| && ts.free[k] == t;
        assert ts.free[..last][k] == t;
      }
    }
  }

  lemma UpdateFrame(w: WorldState, id: u32, s: Slot)
    requires s.live == IsLive(w, id)
    ensures forall i: u32 :: i != id ==> SlotOf(Update(w, id, s), i) == SlotOf(w, i)
    ensures IsLive(w, id) ==> SlotOf(Update(w, id, s), id) == s
    ensures !IsLive(w, id) ==> Update(w, id, s) == w
    ensures forall i: u32 :: IsLive(Update(w, id, s), i) == IsLive(w, i)
  {
    assert s.live ==> s.(live := true) == s;
  }

  lemma EstablishKeepsInv<M>(base: u32, sys: System, id: u32, l: Local<M>)
    requires SysInv(base, sys) && IsLive(sys.node.world, id) && l.slot.live
    requires Establishes(id, Alloc(sys.node.teids).1, l)
    requires sys.node.teids.free != [] || sys.node.teids.next < 0xFFFF_FFFF
    ensures SysInv(base, Deliver(sys, Commit(sys.node, id, l), l.events)) && AllLand(sys.up, l.events)
  {
    hide WorldInv, TablesAgree;
    AllocFresh(base, sys);
    UpdateKeepsInv(sys.node.world, id, l.slot);
    UpdateFrame(sys.node.world, id, l.slot);
    var e := l.events[0];
    EventKeepsTables(sys.up, e);
    SingleEvent(sys.up, l.events);
    var n := Deliver(sys, Commit(sys.node, id, l), l.events);
    forall i: u32 | TunnelOf(n.node.world, i).Some?
      ensures Backed(n, i)
    {
      if i != id {
        assert TunnelOf(sys.node.world, i).Some? && Backed(sys, i);
      }
    }
  }

  lemma SingleEvent(u: UpfState, es: seq<UpfEvent>)
    requires |es| == 1
    ensures ApplyEvents(u, es) == ApplyEvent(u, es[0])
    ensures AllLand(u, es) == Lands(u, es[0])
  {
    assert es[1..] == [];
  }

  lemma CreateOnlyAdds(u: UpfState, e: UpfEvent)
    requires e.CreateSession?
    ensures ApplyEvent(u, e).sessions ==
            u.sessions[e.ulTeid := Session(e.entityId, e.imsi, e.ulTeid, 0, e.ueIp, e.ranAddr, true, 0, 0)]
  {
  }

  lemma RemoveOnlyDeletes(u: UpfState, t: u32)
    ensures ApplyEvent(u, RemoveSession(t)).sessions == u.sessions - {t}
  {
  }

  lemma UpdateOnlyRetargets(u: UpfState, ulTeid: u32, dlTeid: u32, ranAddr: Octets4)
    requires TablesAgree(u) && ulTeid in u.sessions
    ensures var n := ApplyEvent(u, UpdateBearer(ulTeid, dlTeid, ranAddr));
            n.sessions == u.sessions[ulTeid := u.sessions[ulTeid].(dlTeid := dlTeid, ranAddr := ranAddr)]
    ensures Lands(u, UpdateBearer(ulTeid, dlTeid, ranAddr))
  {
  }

  lemma RetargetKeepsInv<M>(base: u32, sys: System, id: u32, l: Local<M>)
    requires SysInv(base, sys) && IsLive(sys.node.world, id) && l.slot.live
    requires Retargets(SlotOf(sys.node.world, id), l)
    ensures SysInv(base, Deliver(sys, Commit(sys.node, id, l), l.events)) && AllLand(sys.up, l.events)
  {
    hide WorldInv, NoDuplicates, TablesAgree, ApplyEvent, Lands;
    UpdateKeepsInv(sys.node.world, id, l.slot);
    UpdateFrame(sys.node.world, id, l.slot);
    assert Backed(sys, id);
    var e := l.events[0];
    EventKeepsTables(sys.up, e);
    SingleEvent(sys.up, l.events);
    UpdateOnlyRetargets(sys.up, e.ulTeid, e.dlTeid, e.ranAddr);
    var n := Deliver(sys, Commit(sys.node, id, l), l.events);
    assert n.up.sessions.Keys == sys.up.sessions.Keys;
    forall i: u32 | TunnelOf(n.node.world, i).Some?
      ensures Backed(n, i)
    {
      if i != id {
        assert TunnelOf(sys.node.world, i).Some? && Backed(sys, i);
      }
    }
  }

  lemma KeepKeepsInv<M>(base: u32, sys: System, id: u32, l: Local<M>)
    requires SysInv(base, sys) && IsLive(sys.node.world, id) && l.slot.live
    requires Keeps(SlotOf(sys.node.world, id), l)
    ensures SysInv(base, Deliver(sys, Commit(sys.node, id, l), l.events)) && AllLand(sys.up, l.events)
  {
    hide WorldInv, TablesAgree, NoDuplicates;
    UpdateKeepsInv(sys.node.world, id, l.slot);
    UpdateFrame(sys.node.world, id, l.slot);
    var n := Deliver(sys, Commit(sys.node, id, l), l.events);
    forall i: u32 | TunnelOf(n.node.world, i).Some?
      ensures Backed(n, i)
    {
      assert TunnelOf(sys.node.world, i).Some? && Backed(sys, i);
    }
  }

  // Whatever a well-behaved entity does, the composed system keeps its invariant and every
  // event finds the user plane in the state it expects.
  lemma CommitKeepsInv<M>(base: u32, sys: System, id: u32, l: Local<M>)
    requires SysInv(base, sys)
    requires WellBehaved(SlotOf(sys.node.world, id), id, Alloc(sys.node.teids).1, l)
    requires l.took && sys.node.teids.free == [] ==> sys.node.teids.next < 0xFFFF_FFFF
    ensures SysInv(base, Deliver(sys, Commit(sys.node, id, l), l.events)) && AllLand(sys.up, l.events)
  {
    hide SysInv, Keeps, Establishes, Retargets;
    var slot := SlotOf(sys.node.world, id);
    if !slot.live {
      UpdateNothing(sys.node.world, id);
    } else if Keeps(slot, l) {
      KeepKeepsInv(base, sys, id, l);
    } else if Retargets(slot, l) {
      RetargetKeepsInv(base, sys, id, l);
    } else {
      assert l.took by { EstablishesTakes(id, Alloc(sys.node.teids).1, l); }
      EstablishKeepsInv(base, sys, id, l);
    }
  }

  lemma EstablishesTakes<M>(id: u32, teid: u32, l: Local<M>)
    requires Establishes(id, teid, l)
    ensures l.took
  {
  }

  lemma ReleaseKeepsInv(base: u32, sys: System, id: u32)
    requires SysInv(base, sys)
    ensures var r := Releasing(sys.node, id);
            SysInv(base, Deliver(sys, r.0, r.1)) && AllLand(sys.up, r.1)
  {
    if IsLive(sys.node.world, id) {
      if SlotOf(sys.node.world, id).tunnel.Some? {
        ReleaseTunnelKeepsInv(base, sys, id);
      } else {
        hide WorldInv, TablesAgree, NoDuplicates;
        DespawnKeepsInv(sys.node.world, id);
        DespawnFrame(sys.node.world, id);
        var n := Deliver(sys, Releasing(sys.node, id).0, []);
        forall i: u32 | TunnelOf(n.node.world, i).Some?
          ensures Backed(n, i)
        {
          assert TunnelOf(sys.node.world, i).Some? && Backed(sys, i);
        }
      }
    }
  }

  lemma DespawnFrame(w: WorldState, id: u32)
    requires WorldInv(w)
    ensures forall i: u32 :: i != id ==> SlotOf(Despawn(w, id), i) == SlotOf(w, i)
    ensures IsLive(w, id) ==> SlotOf(Despawn(w, id), id) == Blank()
  {
  }

  lemma ReleaseTunnelKeepsInv(base: u32, sys: System, id: u32)
    requires SysInv(base, sys) && TunnelOf(sys.node.world, id).Some?
    ensures var r := Releasing(sys.node, id);
            SysInv(base, Deliver(sys, r.0, r.1)) && AllLand(sys.up, r.1)
  {
    hide WorldInv, TablesAgree;
    var ulTeid := TunnelOf(sys.node.world, id).value.ulTeid;
    assert Backed(sys, id);
    DespawnKeepsInv(sys.node.world, id);
    DespawnFrame(sys.node.world, id);
    var r := Releasing(sys.node, id);
    EventKeepsTables(sys.up, RemoveSession(ulTeid));
    SingleEvent(sys.up, r.1);
    var n := Deliver(sys, r.0, r.1);
    forall i: u32 | TunnelOf(n.node.world, i).Some?
      ensures Backed(n, i)
    {
      assert TunnelOf(sys.node.world, i).Some? && Backed(sys, i);
    }
    FreedTeidIsConserved(base, sys, n, ulTeid);
  }

  lemma FreedTeidIsConserved(base: u32, sys: System, n: System, teid: u32)
    requires TeidsConserved(base, sys) && teid in sys.up.sessions
    requires n.node.teids == ReleaseTeid(sys.node.teids, teid) && n.up.sessions == sys.up.sessions - {teid}
    ensures TeidsConserved(base, n)
  {
    var free := n.node.teids.free;
    assert free[|free| - 1] == teid;
    forall t: u32 | base <= t < n.node.teids.next
      ensures t in n.up.sessions || t in free
    {
      if t in sys.node.teids.free {
        var k :| 0 <= k < |sys.node.teids.free| && sys.node.teids.free[k] == t;
        assert free[k] == t;
      }
    }
  }

  // A new entity starts without a tunnel.
  function Enter(s: Node, slot: Slot): (Node, u32)
    requires WorldInv(s.world)
  {
    var (w, id) := Spawn(s.world);
    (s.(world := Update(w, id, slot)), id)
  }

  lemma EnterKeepsInv(base: u32, sys: System, slot: Slot, registry: map<u64, u32>)
    requires SysInv(base, sys) && CanSpawn(sys.node.world)
    requires slot.live && slot.tunnel.None?
    ensures var r := Enter(sys.node, slot);
            SysInv(base, Deliver(sys, r.0.(registry := registry), []))
  {
    hide WorldInv, TablesAgree, NoDuplicates;
    var (w, id) := Spawn(sys.node.world);
    SpawnKeepsInv(sys.node.world);
    SpawnFrame(sys.node.world);
    SpawnIsFresh(sys.node.world);
    UpdateKeepsInv(w, id, slot);
    UpdateFrame(w, id, slot);
    var n := Deliver(sys, Enter(sys.node, slot).0.(registry := registry), []);
    forall i: u32 | TunnelOf(n.node.world, i).Some?
      ensures Backed(n, i)
    {
      assert i != id;
      assert SlotOf(n.node.world, i) == SlotOf(sys.node.world, i);
      assert TunnelOf(sys.node.world, i).Some? && Backed(sys, i);
    }
  }

  lemma EnterIsLocal(s: Node, slot: Slot)
    requires WorldInv(s.world) && CanSpawn(s.world) && slot.live
    ensures var (n, id) := Enter(s, slot);
            && id == Spawn(s.world).1 && SlotOf(n.world, id) == slot
            && forall other: u32 :: other != id ==> SlotOf(n.world, other) == SlotOf(s.world, other)
  {
    SpawnFrame(s.world);
    SpawnIsFresh(s.world);
    hide WorldInv;
    UpdateFrame(Spawn(s.world).0, Spawn(s.world).1, slot);
  }

  // ---- Whose session it is ----------------------------------------------------------------------

  // The session of an entity's tunnel, if it has one, carries the entity's IMSI.
  ghost predicate HoldsImsi(sys: System, id: u32) {
    var t := TunnelOf(sys.node.world, id);
    t.Some? ==>
      && t.value.ulTeid in sys.up.sessions
      && sys.up.sessions[t.value.ulTeid].imsi == SlotOf(sys.node.world, id).identity.imsi
  }

  ghost predicate ImsisAgree(sys: System) {
    forall id: u32 :: HoldsImsi(sys, id)
  }

  // A step of any entity leaves the IMSI of every earlier session.
  lemma CommitKeepsSessionImsi<M>(base: u32, sys: System, e: u32, l: Local<M>, t: u32)
    requires SysInv(base, sys) && WellBehaved(SlotOf(sys.node.world, e), e, Alloc(sys.node.teids).1, l)
    requires l.took && sys.node.teids.free == [] ==> sys.node.teids.next < 0xFFFF_FFFF
    requires t in sys.up.sessions
    ensures var n := Deliver(sys, Commit(sys.node, e, l), l.events);
            t in n.up.sessions && n.up.sessions[t].imsi == sys.up.sessions[t].imsi
  {
    hide WorldInv, NoDuplicates, ApplyEvent, TablesAgree;
    var slot := SlotOf(sys.node.world, e);
    if slot.live && l.events != [] {
      SingleEvent(sys.up, l.events);
      if Retargets(slot, l) {
        assert Backed(sys, e) by { assert TunnelOf(sys.node.world, e).Some?; }
        UpdateOnlyRetargets(sys.up, l.events[0].ulTeid, l.events[0].dlTeid, l.events[0].ranAddr);
      } else {
        AllocFresh(base, sys);
        CreateOnlyAdds(sys.up, l.events[0]);
      }
    }
  }

  // An entity's session keeps its IMSI exactly unless the step gives the entity another one
  // while it keeps its tunnel.
  lemma CommitKeepsImsiExactly<M>(base: u32, sys: System, e: u32, l: Local<M>, id: u32)
    requires SysInv(base, sys) && WellBehaved(SlotOf(sys.node.world, e), e, Alloc(sys.node.teids).1, l)
    requires l.took && sys.node.teids.free == [] ==> sys.node.teids.next < 0xFFFF_FFFF
    requires HoldsImsi(sys, id)
    ensures var slot := SlotOf(sys.node.world, e);
            HoldsImsi(Deliver(sys, Commit(sys.node, e, l), l.events), id)
            <==> !(e == id && TunnelOf(sys.node.world, e).Some? && !l.took
                   && l.slot.identity.imsi != slot.identity.imsi)
  {
    hide WorldInv, NoDuplicates, TeidsConserved, ApplyEvent, TablesAgree;
    var slot := SlotOf(sys.node.world, e);
    UpdateFrame(sys.node.world, e, l.slot);
    var t := TunnelOf(sys.node.world, id);
    if t.Some? {
      CommitKeepsSessionImsi(base, sys, e, l, t.value.ulTeid);
    }
    if l.took {
      SingleEvent(sys.up, l.events);
      CreateOnlyAdds(sys.up, l.events[0]);
    }
  }

  lemma ReleaseKeepsImsi(base: u32, sys: System, e: u32, id: u32)
    requires SysInv(base, sys) && HoldsImsi(sys, id)
    ensures var r := Releasing(sys.node, e); HoldsImsi(Deliver(sys, r.0, r.1), id)
  {
    hide NoDuplicates, TeidsConserved, ApplyEvent, TablesAgree;
    DespawnFrame(sys.node.world, e);
    if TunnelOf(sys.node.world, e).Some? {
      SingleEvent(sys.up, Releasing(sys.node, e).1);
      RemoveOnlyDeletes(sys.up, TunnelOf(sys.node.world, e).value.ulTeid);
      if TunnelOf(sys.node.world, id).Some? {
        TunnelsDistinct(base, sys, e, id);
      }
    }
  }
}
