// Dense entity storage: one column per component, indexed by entity id, with recycled ids.
module Ecs {
  import opened Bits
  import opened NasSecurity

  datatype Identity = Identity(imsi: u64, ranUeId: u32, ueIp: Octets4)

  datatype AuthFailReason = ResMismatch | MacFailure | SqnOutOfRange | InternalError

  datatype AuthState = Unauthenticated | ChallengeIssued | Authenticated | Failed(reason: AuthFailReason)

  // AKA material in flight: the expected response is 8 octets wide in EPS, 16 in 5GS.
  datatype Aka = Aka(
    pendingRand: Bytes, pendingXres: Bytes, ck: Bytes, ik: Bytes, ak: Octets6, plmn: Octets3, sqnUsed: Octets6)

  type Octets3 = s: Bytes | |s| == 3 witness [0, 0, 0]
  type Octets6 = s: Bytes | |s| == 6 witness [0, 0, 0, 0, 0, 0]

  datatype Tunnel = Tunnel(ulTeid: u32, dlTeid: u32, ranAddr: Octets4)

  const ZERO_ADDR: Octets4 := [0, 0, 0, 0]
  const NO_IDENTITY := Identity(0, 0, ZERO_ADDR)

  function EmptyAka(xresLen: nat): Aka {
    Aka(ZeroBytes(16), ZeroBytes(xresLen), ZeroBytes(16), ZeroBytes(16), ZeroBytes(6), ZeroBytes(3), ZeroBytes(6))
  }

  function ClearChallenge(a: Aka): Aka {
    a.(pendingRand := ZeroBytes(|a.pendingRand|), pendingXres := ZeroBytes(|a.pendingXres|))
  }

  function ClearKeys(a: Aka): Aka {
    a.(ck := ZeroBytes(|a.ck|), ik := ZeroBytes(|a.ik|), ak := ZeroBytes(6))
  }

  // Everything stored for one id.
  datatype Slot = Slot(
    live: bool, identity: Identity, auth: AuthState,
    security: Aka, nas: Option<NasCtx>, tunnel: Option<Tunnel>,
    security5g: Aka, nas5g: Option<NasCtx>)

  function Blank(): Slot {
    Slot(false, NO_IDENTITY, Unauthenticated, EmptyAka(8), None, None, EmptyAka(16), None)
  }

  // A blank entity field by field: an expected response of eight octets in EPS, sixteen in 5GS.
  lemma BlankSlot()
    ensures Blank() ==
            Slot(false, Identity(0, 0, [0, 0, 0, 0]), Unauthenticated, ZeroAka(8), None, None, ZeroAka(16), None)
  {
  }

  function ZeroAka(xresLen: nat): Aka {
    Aka(seq<byte>(16, _ => 0), seq<byte>(xresLen, _ => 0), seq<byte>(16, _ => 0), seq<byte>(16, _ => 0),
        [0, 0, 0, 0, 0, 0], [0, 0, 0], [0, 0, 0, 0, 0, 0])
  }

  datatype WorldState = WorldState(slots: seq<Slot>, nextId: u32, freeIds: seq<u32>, liveCount: nat)

  const NEW_WORLD := WorldState([], 0, [], 0)

  predicate IsLive(w: WorldState, id: u32) {
    id < |w.slots| && w.slots[id].live
  }

  // What an id stands for: an id past the columns reads like a dead one.
  function SlotOf(w: WorldState, id: u32): Slot {
    if id < |w.slots| then w.slots[id] else Blank()
  }

  function CountLive(slots: seq<Slot>): nat {
    if slots == [] then 0
    else CountLive(slots[..|slots| - 1]) + (if slots[|slots| - 1].live then 1 else 0)
  }

  predicate NoDuplicates<T(==)>(s: seq<T>) {
    forall i, j :: 0 <= i < j < |s| ==> s[i] != s[j]
  }

  predicate FreeIdsAreTheDead(w: WorldState) {
    && (forall i :: i in w.freeIds ==> i < |w.slots| && !w.slots[i].live)
    && (forall i :: 0 <= i < |w.slots| && !w.slots[i].live ==> i in w.freeIds)
  }

  // The column length is `nextId` (which is 32 bits wide), the free list is duplicate-free
  // and holds exactly the dead ids, dead slots are blank, and the counter counts.
  predicate WorldInv(w: WorldState) {
    && |w.slots| % 0x1_0000_0000 == w.nextId
    && NoDuplicates(w.freeIds)
    && FreeIdsAreTheDead(w)
    && (forall i :: 0 <= i < |w.slots| && !w.slots[i].live ==> w.slots[i] == Blank())
    && w.liveCount == CountLive(w.slots)
  }

  function Spawn(w: WorldState): (WorldState, u32)
    requires WorldInv(w)
  {
    if w.freeIds != [] then
      var id := w.freeIds[|w.freeIds| - 1];
      assert id in w.freeIds;
      (WorldState(w.slots[id := w.slots[id].(live := true)], w.nextId,
                  w.freeIds[..|w.freeIds| - 1], w.liveCount + 1), id)
    else
      (WorldState(w.slots + [Blank().(live := true)], (w.nextId + 1) % 0x1_0000_0000, [], w.liveCount + 1), w.nextId)
  }

  function Despawn(w: WorldState, id: u32): WorldState
    requires WorldInv(w)
  {
    if !IsLive(w, id) then w
    else
      CountLivePositive(w.slots, id);
      WorldState(w.slots[id := Blank()], w.nextId, w.freeIds + [id], w.liveCount - 1)
  }

  // Any component setter: does nothing to an id that is not live.
  function Update(w: WorldState, id: u32, s: Slot): WorldState {
    if !IsLive(w, id) then w else w.(slots := w.slots[id := s.(live := true)])
  }

  // ---- Invariant ----------------------------------------------------------------------------

  lemma {:induction false} CountLivePositive(slots: seq<Slot>, id: nat)
    requires id < |slots| && slots[id].live
    ensures CountLive(slots) > 0
  {
    if id < |slots| - 1 {
      CountLivePositive(slots[..|slots| - 1], id);
    }
  }

  lemma {:induction false} CountLiveUpdate(slots: seq<Slot>, id: nat, s: Slot)
    requires id < |slots|
    ensures CountLive(slots[id := s]) ==
            CountLive(slots) - (if slots[id].live then 1 else 0) + (if s.live then 1 else 0)
  {
    var n := |slots| - 1;
    if id == n {
      assert slots[id := s][..n] == slots[..n];
    } else {
      assert slots[id := s][..n] == slots[..n][id := s];
      CountLiveUpdate(slots[..n], id, s);
    }
  }

  lemma LiveCountCounts(w: WorldState)
    requires WorldInv(w)
    ensures w.liveCount == CountLive(w.slots)
  {
  }

  lemma LastFreeIdIsDead(w: WorldState)
    requires WorldInv(w) && w.freeIds != []
    ensures var id := w.freeIds[|w.freeIds| - 1];
            id < |w.slots| && !w.slots[id].live && w.slots[id] == Blank()
  {
    assert w.freeIds[|w.freeIds| - 1] in w.freeIds;
  }

  lemma SpawnKeepsInv(w: WorldState)
    requires WorldInv(w)
    ensures WorldInv(Spawn(w).0)
  {
    hide EmptyAka;
    var n := Spawn(w).0;
    if w.freeIds != [] {
      hide FreeIdsAreTheDead, NoDuplicates, CountLive;
      LastFreeIdIsDead(w);
      var id := w.freeIds[|w.freeIds| - 1];
      CountLiveUpdate(w.slots, id, w.slots[id].(live := true));
      RecyclingKeepsFreeIds(w, n);
    } else {
      assert n.slots[..|n.slots| - 1] == w.slots;
    }
  }

  lemma RecyclingKeepsFreeIds(w: WorldState, n: WorldState)
    requires FreeIdsAreTheDead(w) && NoDuplicates(w.freeIds) && w.freeIds != []
    requires n.freeIds == w.freeIds[..|w.freeIds| - 1]
    requires var id := w.freeIds[|w.freeIds| - 1];
             && id < |w.slots| == |n.slots| && n.slots[id].live
             && forall i :: 0 <= i < |w.slots| && i != id ==> n.slots[i] == w.slots[i]
    ensures FreeIdsAreTheDead(n) && NoDuplicates(n.freeIds)
  {
    var last := |w.freeIds| - 1;
    forall i | i in n.freeIds
      ensures i < |n.slots| && !n.slots[i].live
    {
      var k :| 0 <= k < last && n.freeIds[k] == i;
      assert w.freeIds[k] == i && i in w.freeIds;
    }
    forall i | 0 <= i < |n.slots| && !n.slots[i].live
      ensures i in n.freeIds
    {
      var k :| 0 <= k < |w.freeIds| && w.freeIds[k] == i;
      assert n.freeIds[k] == i;
    }
  }

  lemma DespawnKeepsInv(w: WorldState, id: u32)
    requires WorldInv(w)
    ensures WorldInv(Despawn(w, id))
  {
    if IsLive(w, id) {
      CountLiveUpdate(w.slots, id, Blank());
      var n := Despawn(w, id);
      assert id !in w.freeIds;
      assert n.freeIds[|n.freeIds| - 1] == id;
      forall i | 0 <= i < |n.slots| && !n.slots[i].live
        ensures i in n.freeIds
      {
        assert i == id || i in w.freeIds;
      }
    }
  }

  lemma UpdateKeepsInv(w: WorldState, id: u32, s: Slot)
    requires WorldInv(w)
    ensures WorldInv(Update(w, id, s))
  {
    if IsLive(w, id) {
      CountLiveUpdate(w.slots, id, s.(live := true));
    }
  }

  datatype WorldOp = SpawnOp | DespawnOp(id: u32) | UpdateOp(id: u32, slot: Slot)

  function Apply(w: WorldState, op: WorldOp): WorldState
    requires WorldInv(w)
  {
    match op
    case SpawnOp => Spawn(w).0
    case DespawnOp(id) => Despawn(w, id)
    case UpdateOp(id, s) => Update(w, id, s)
  }

  lemma ApplyKeepsInv(w: WorldState, op: WorldOp)
    requires WorldInv(w)
    ensures WorldInv(Apply(w, op))
  {
    match op
    case SpawnOp => SpawnKeepsInv(w);
    case DespawnOp(id) => DespawnKeepsInv(w, id);
    case UpdateOp(id, s) => UpdateKeepsInv(w, id, s);
  }

  // Where a sequence of operations leads. Every one leads somewhere, and the invariant holds.
  function RunOps(w: WorldState, ops: seq<WorldOp>): (r: WorldState)
    requires WorldInv(w)
    ensures WorldInv(r)
    decreases |ops|
  {
    if ops == [] then w
    else
      ApplyKeepsInv(w, ops[0]);
      RunOps(Apply(w, ops[0]), ops[1..])
  }

  // There is an id to give out: a dead one to recycle, or one the 32-bit counter has left.
  predicate CanSpawn(w: WorldState) {
    w.freeIds != [] || |w.slots| < 0x1_0000_0000
  }

  // A spawned id was not live and names a blank entity, exactly as long as there is an id to
  // give out.
  lemma SpawnIsFresh(w: WorldState)
    requires WorldInv(w)
    ensures var r := Spawn(w);
            (!IsLive(w, r.1) && SlotOf(r.0, r.1) == Blank().(live := true))
            <==> CanSpawn(w)
    ensures IsLive(Spawn(w).0, Spawn(w).1)
  {
    var r := Spawn(w);
    if w.freeIds != [] {
      assert r.1 in w.freeIds;
    } else if |w.slots| >= 0x1_0000_0000 {
      assert w.slots[w.nextId].live;
    }
  }

  // From the empty world, whatever was spawned, despawned and set.
  lemma EveryRunKeepsInv(ops: seq<WorldOp>)
    ensures var w := RunOps(NEW_WORLD, ops);
            && WorldInv(w)
            && (CanSpawn(w) <==>
                !IsLive(w, Spawn(w).1) && SlotOf(Spawn(w).0, Spawn(w).1) == Blank().(live := true))
  {
    SpawnIsFresh(RunOps(NEW_WORLD, ops));
  }

  lemma SpawnedLives(w: WorldState)
    requires WorldInv(w)
    ensures IsLive(Spawn(w).0, Spawn(w).1)
  {
    SpawnIsFresh(w);
  }

  lemma DeadIsBlank(w: WorldState, id: u32)
    requires WorldInv(w) && !IsLive(w, id)
    ensures SlotOf(w, id) == Blank()
  {
  }

  // With a fresh id, spawning changes nothing else.
  lemma SpawnFrame(w: WorldState)
    requires WorldInv(w) && CanSpawn(w)
    ensures var r := Spawn(w);
            && |r.0.slots| >= |w.slots|
            && forall id :: id != r.1 ==> SlotOf(r.0, id) == SlotOf(w, id)
  {
    if w.freeIds != [] {
      assert w.freeIds[|w.freeIds| - 1] in w.freeIds;
    }
  }

  // Spawning only ever adds slots, and a world of at most 2^32 slots came from one that
  // could spawn.
  lemma SpawnLength(w: WorldState)
    requires WorldInv(w)
    ensures |w.slots| <= |Spawn(w).0.slots| <= |w.slots| + 1
    ensures |Spawn(w).0.slots| <= 0x1_0000_0000 ==> CanSpawn(w)
  {
  }

  lemma DespawnLength(w: WorldState, id: u32)
    requires WorldInv(w)
    ensures |Despawn(w, id).slots| == |w.slots|
  {
  }

  predicate Aligned(
    live: seq<bool>, identity: seq<Identity>, auth: seq<AuthState>, security: seq<Aka>,
    nas: seq<Option<NasCtx>>, tunnel: seq<Option<Tunnel>>, security5g: seq<Aka>, nas5g: seq<Option<NasCtx>>)
  {
    && |live| == |identity| == |auth| == |security| == |nas|
    && |live| == |tunnel| == |security5g| == |nas5g|
  }

  // The columns read row by row.
  function Rows(
    live: seq<bool>, identity: seq<Identity>, auth: seq<AuthState>, security: seq<Aka>,
    nas: seq<Option<NasCtx>>, tunnel: seq<Option<Tunnel>>, security5g: seq<Aka>, nas5g: seq<Option<NasCtx>>
  ): (r: seq<Slot>)
    requires Aligned(live, identity, auth, security, nas, tunnel, security5g, nas5g)
    ensures |r| == |live|
    ensures forall i :: 0 <= i < |live| ==>
      r[i] == Slot(live[i], identity[i], auth[i], security[i], nas[i], tunnel[i], security5g[i], nas5g[i])
  {
    seq(|live|, i requires 0 <= i < |live| =>
      Slot(live[i], identity[i], auth[i], security[i], nas[i], tunnel[i], security5g[i], nas5g[i]))
  }

  lemma RowsReset(
    live: seq<bool>, identity: seq<Identity>, auth: seq<AuthState>, security: seq<Aka>,
    nas: seq<Option<NasCtx>>, tunnel: seq<Option<Tunnel>>, security5g: seq<Aka>, nas5g: seq<Option<NasCtx>>, id: nat)
    requires Aligned(live, identity, auth, security, nas, tunnel, security5g, nas5g) && id < |live|
    ensures Rows(live[id := false], identity[id := NO_IDENTITY], auth[id := Unauthenticated],
                 security[id := EmptyAka(8)], nas[id := None], tunnel[id := None],
                 security5g[id := EmptyAka(16)], nas5g[id := None]) ==
            Rows(live, identity, auth, security, nas, tunnel, security5g, nas5g)[id := Blank()]
  {
    hide EmptyAka;
  }

  lemma RowsGrow(
    live: seq<bool>, identity: seq<Identity>, auth: seq<AuthState>, security: seq<Aka>,
    nas: seq<Option<NasCtx>>, tunnel: seq<Option<Tunnel>>, security5g: seq<Aka>, nas5g: seq<Option<NasCtx>>)
    requires Aligned(live, identity, auth, security, nas, tunnel, security5g, nas5g)
    ensures Rows(live + [true], identity + [NO_IDENTITY], auth + [Unauthenticated],
                 security + [EmptyAka(8)], nas + [None], tunnel + [None],
                 security5g + [EmptyAka(16)], nas5g + [None]) ==
            Rows(live, identity, auth, security, nas, tunnel, security5g, nas5g) + [Blank().(live := true)]
  {
    hide EmptyAka;
  }

  lemma RowsWake(
    live: seq<bool>, identity: seq<Identity>, auth: seq<AuthState>, security: seq<Aka>,
    nas: seq<Option<NasCtx>>, tunnel: seq<Option<Tunnel>>, security5g: seq<Aka>, nas5g: seq<Option<NasCtx>>, id: nat)
    requires Aligned(live, identity, auth, security, nas, tunnel, security5g, nas5g) && id < |live|
    ensures var rows := Rows(live, identity, auth, security, nas, tunnel, security5g, nas5g);
            Rows(live[id := true], identity, auth, security, nas, tunnel, security5g, nas5g) ==
            rows[id := rows[id].(live := true)]
  {
  }

  // ---- The storage itself ---------------------------------------------------------------------

  class World {
    var nextId: u32
    var freeIds: seq<u32>
    var liveCount: nat
    var live: seq<bool>
    var identity: seq<Identity>
    var auth: seq<AuthState>
    var security: seq<Aka>
    var nasSecurity: seq<Option<NasCtx>>
    var tunnel: seq<Option<Tunnel>>
    var security5g: seq<Aka>
    var nasSecurity5g: seq<Option<NasCtx>>

    predicate ColumnsAligned()
      reads this
    {
      Aligned(live, identity, auth, security, nasSecurity, tunnel, security5g, nasSecurity5g)
    }

    function State(): WorldState
      requires ColumnsAligned()
      reads this
    {
      WorldState(Rows(live, identity, auth, security, nasSecurity, tunnel, security5g, nasSecurity5g),
                 nextId, freeIds, liveCount)
    }

    ghost predicate Valid()
      reads this
    {
      ColumnsAligned() && WorldInv(State())
    }

    constructor ()
      ensures Valid() && State() == NEW_WORLD
    {
      nextId, freeIds, liveCount := 0, [], 0;
      live, identity, auth, security := [], [], [], [];
      nasSecurity, tunnel, security5g, nasSecurity5g := [], [], [], [];
    }

    method SpawnEntity() returns (id: u32)
      requires Valid()
      modifies this
      ensures Valid() && (State(), id) == Spawn(old(State()))
    {
      hide WorldInv, EmptyAka, Rows;
      SpawnKeepsInv(State());
      if freeIds != [] {
        LastFreeIdIsDead(State());
        id := freeIds[|freeIds| - 1];
        freeIds := freeIds[..|freeIds| - 1];
        RowsWake(live, identity, auth, security, nasSecurity, tunnel, security5g, nasSecurity5g, id);
        live := live[id := true];
        liveCount := liveCount + 1;
        return;
      }
      id := nextId;
      nextId := (nextId + 1) % 0x1_0000_0000;
      PushComponents();
      liveCount := liveCount + 1;
    }

    // The eight columns grow together.
    method PushComponents()
      requires ColumnsAligned()
      modifies this`live, this`identity, this`auth, this`security,
               this`nasSecurity, this`tunnel, this`security5g, this`nasSecurity5g
      ensures ColumnsAligned()
      ensures State() == old(State()).(slots := old(State()).slots + [Blank().(live := true)])
    {
      hide EmptyAka, Rows;
      RowsGrow(live, identity, auth, security, nasSecurity, tunnel, security5g, nasSecurity5g);
      live := live + [true];
      identity := identity + [NO_IDENTITY];
      auth := auth + [Unauthenticated];
      security := security + [EmptyAka(8)];
      nasSecurity := nasSecurity + [None];
      tunnel := tunnel + [None];
      security5g := security5g + [EmptyAka(16)];
      nasSecurity5g := nasSecurity5g + [None];
    }

    method ResetComponents(id: u32)
      requires ColumnsAligned() && id < |live|
      modifies this`live, this`identity, this`auth, this`security,
               this`nasSecurity, this`tunnel, this`security5g, this`nasSecurity5g
      ensures ColumnsAligned()
      ensures State() == old(State()).(slots := old(State()).slots[id := Blank()])
    {
      hide EmptyAka, Rows;
      RowsReset(live, identity, auth, security, nasSecurity, tunnel, security5g, nasSecurity5g, id);
      live := live[id := false];
      identity := identity[id := NO_IDENTITY];
      auth := auth[id := Unauthenticated];
      security := security[id := EmptyAka(8)];
      nasSecurity := nasSecurity[id := None];
      tunnel := tunnel[id := None];
      security5g := security5g[id := EmptyAka(16)];
      nasSecurity5g := nasSecurity5g[id := None];
    }

    method DespawnEntity(id: u32)
      requires Valid()
      modifies this
      ensures Valid() && State() == Despawn(old(State()), id)
    {
      hide WorldInv, EmptyAka, Rows, Blank;
      DespawnKeepsInv(State(), id);
      if !(id < |live| && live[id]) {
        return;
      }
      CountLivePositive(State().slots, id);
      assert liveCount > 0 by { LiveCountCounts(State()); }
      ResetComponents(id);
      freeIds := freeIds + [id];
      liveCount := liveCount - 1;
    }

    method Alive(id: u32) returns (r: bool)
      requires Valid()
      ensures r == IsLive(State(), id)
    {
      r := id < |live| && live[id];
    }

    method GetIdentity(id: u32) returns (r: Option<Identity>)
      requires Valid()
      ensures r == if IsLive(State(), id) then Some(SlotOf(State(), id).identity) else None
    {
      r := if id < |live| && live[id] then Some(identity[id]) else None;
    }

    method GetSecurity(id: u32) returns (r: Option<Aka>)
      requires Valid()
      ensures r == if IsLive(State(), id) then Some(SlotOf(State(), id).security) else None
    {
      r := if id < |live| && live[id] then Some(security[id]) else None;
    }

    method GetSecurity5g(id: u32) returns (r: Option<Aka>)
      requires Valid()
      ensures r == if IsLive(State(), id) then Some(SlotOf(State(), id).security5g) else None
    {
      r := if id < |live| && live[id] then Some(security5g[id]) else None;
    }

    method GetNas(id: u32) returns (r: Option<NasCtx>)
      requires Valid()
      ensures r == if IsLive(State(), id) then SlotOf(State(), id).nas else None
    {
      r := if id < |live| && live[id] then nasSecurity[id] else None;
    }

    method GetNas5g(id: u32) returns (r: Option<NasCtx>)
      requires Valid()
      ensures r == if IsLive(State(), id) then SlotOf(State(), id).nas5g else None
    {
      r := if id < |live| && live[id] then nasSecurity5g[id] else None;
    }

    method GetTunnel(id: u32) returns (r: Option<Tunnel>)
      requires Valid()
      ensures r == if IsLive(State(), id) then SlotOf(State(), id).tunnel else None
    {
      r := if id < |live| && live[id] then tunnel[id] else None;
    }

    method InsertIdentity(id: u32, v: Identity)
      requires Valid()
      modifies this`identity
      ensures Valid() && State() == Update(old(State()), id, SlotOf(old(State()), id).(identity := v))
    {
      hide WorldInv, Rows;
      ghost var w := State();
      UpdateKeepsInv(w, id, SlotOf(w, id).(identity := v));
      if id < |live| && live[id] {
        identity := identity[id := v];
      }
      assert State().slots == Update(w, id, SlotOf(w, id).(identity := v)).slots;
    }

    method SetAuth(id: u32, v: AuthState)
      requires Valid()
      modifies this`auth
      ensures Valid() && State() == Update(old(State()), id, SlotOf(old(State()), id).(auth := v))
    {
      hide WorldInv, Rows;
      ghost var w := State();
      UpdateKeepsInv(w, id, SlotOf(w, id).(auth := v));
      if id < |live| && live[id] {
        auth := auth[id := v];
      }
      assert State().slots == Update(w, id, SlotOf(w, id).(auth := v)).slots;
    }

    method InsertSecurity(id: u32, v: Aka)
      requires Valid()
      modifies this`security
      ensures Valid() && State() == Update(old(State()), id, SlotOf(old(State()), id).(security := v))
    {
      hide WorldInv, Rows;
      ghost var w := State();
      UpdateKeepsInv(w, id, SlotOf(w, id).(security := v));
      if id < |live| && live[id] {
        security := security[id := v];
      }
      assert State().slots == Update(w, id, SlotOf(w, id).(security := v)).slots;
    }

    method InsertSecurity5g(id: u32, v: Aka)
      requires Valid()
      modifies this`security5g
      ensures Valid() && State() == Update(old(State()), id, SlotOf(old(State()), id).(security5g := v))
    {
      hide WorldInv, Rows;
      ghost var w := State();
      UpdateKeepsInv(w, id, SlotOf(w, id).(security5g := v));
      if id < |live| && live[id] {
        security5g := security5g[id := v];
      }
      assert State().slots == Update(w, id, SlotOf(w, id).(security5g := v)).slots;
    }

    method SetNas(id: u32, v: NasCtx)
      requires Valid()
      modifies this`nasSecurity
      ensures Valid() && State() == Update(old(State()), id, SlotOf(old(State()), id).(nas := Some(v)))
    {
      hide WorldInv, Rows;
      ghost var w := State();
      UpdateKeepsInv(w, id, SlotOf(w, id).(nas := Some(v)));
      if id < |live| && live[id] {
        nasSecurity := nasSecurity[id := Some(v)];
      }
      assert State().slots == Update(w, id, SlotOf(w, id).(nas := Some(v))).slots;
    }

    method SetNas5g(id: u32, v: NasCtx)
      requires Valid()
      modifies this`nasSecurity5g
      ensures Valid() && State() == Update(old(State()), id, SlotOf(old(State()), id).(nas5g := Some(v)))
    {
      hide WorldInv, Rows;
      ghost var w := State();
      UpdateKeepsInv(w, id, SlotOf(w, id).(nas5g := Some(v)));
      if id < |live| && live[id] {
        nasSecurity5g := nasSecurity5g[id := Some(v)];
      }
      assert State().slots == Update(w, id, SlotOf(w, id).(nas5g := Some(v))).slots;
    }

    method SetTunnel(id: u32, v: Tunnel)
      requires Valid()
      modifies this`tunnel
      ensures Valid() && State() == Update(old(State()), id, SlotOf(old(State()), id).(tunnel := Some(v)))
    {
      hide WorldInv, Rows;
      ghost var w := State();
      UpdateKeepsInv(w, id, SlotOf(w, id).(tunnel := Some(v)));
      if id < |live| && live[id] {
        tunnel := tunnel[id := Some(v)];
      }
      assert State().slots == Update(w, id, SlotOf(w, id).(tunnel := Some(v))).slots;
    }
  }

  // ---- IMSI index ---------------------------------------------------------------------------

  class ImsiRegistry {
    var imsiMap: map<u64, u32>

    constructor ()
      ensures imsiMap == map[]
    {
      imsiMap := map[];
    }

    method Register(imsi: u64, entity: u32) returns (previous: Option<u32>)
      modifies this
      ensures imsiMap == old(imsiMap)[imsi := entity]
      ensures previous == if imsi in old(imsiMap) then Some(old(imsiMap)[imsi]) else None
    {
      previous := if imsi in imsiMap then Some(imsiMap[imsi]) else None;
      imsiMap := imsiMap[imsi := entity];
    }

    method Deregister(imsi: u64) returns (removed: Option<u32>)
      modifies this
      ensures imsiMap == old(imsiMap) - {imsi}
      ensures removed == if imsi in old(imsiMap) then Some(old(imsiMap)[imsi]) else None
    {
      removed := if imsi in imsiMap then Some(imsiMap[imsi]) else None;
      imsiMap := imsiMap - {imsi};
    }
  }
}
