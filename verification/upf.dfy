// User-plane sessions: the session table, the two-way routing table shared with the
// forwarder, and the two kernel hash maps that mirror it. The control plane drives it
// with events and picks the uplink TEIDs.
module Upf {
  import opened Bits
  import opened Routing

  datatype Session = Session(
    entityId: u32, imsi: u64, ulTeid: u32, dlTeid: u32, ueIp: Octets4, ranAddr: Octets4, active: bool,
    bytesUl: nat, bytesDl: nat)

  // The kernel's uplink (TEID) and downlink (UE address) maps.
  datatype Kernel = Kernel(teids: map<u32, XdpRouteEntry>, ues: map<Octets4, XdpRouteEntry>)

  datatype UpfState = UpfState(
    sessions: map<u32, Session>, routes: Routes, freeUlTeids: seq<u32>, kernel: Option<Kernel>)

  // UpfEvent of the MME and N3Event of the AMF, with the QoS class octet under one name.
  datatype UpfEvent =
    | CreateSession(ulTeid: u32, entityId: u32, imsi: u64, ueIp: Octets4, ranAddr: Octets4, qos: byte)
    | UpdateBearer(ulTeid: u32, dlTeid: u32, ranAddr: Octets4)
    | RemoveSession(ulTeid: u32)

  function WriteKernel(k: Option<Kernel>, ulTeid: u32, ueIp: Octets4, entry: XdpRouteEntry): Option<Kernel> {
    if k.None? then None
    else Some(Kernel(k.value.teids[ulTeid := entry], k.value.ues[ueIp := entry]))
  }

  function Create(u: UpfState, e: UpfEvent): UpfState
    requires e.CreateSession?
  {
    u.(routes := Install(u.routes, e.ulTeid, NewRoute(e.ueIp, 0, e.ranAddr, e.qos)),
       sessions := u.sessions[e.ulTeid :=
         Session(e.entityId, e.imsi, e.ulTeid, 0, e.ueIp, e.ranAddr, true, 0, 0)],
       kernel := WriteKernel(u.kernel, e.ulTeid, e.ueIp, XdpRouteEntry(0, e.ranAddr, GTP_PORT)))
  }

  // The result says whether a session was there to update.
  function UpdateInfo(u: UpfState, ulTeid: u32, dlTeid: u32, ranAddr: Octets4): (UpfState, bool) {
    if ulTeid !in u.routes.ul then (u, false)
    else
      var current := u.routes.ul[ulTeid];
      var updated := NewRoute(current.ueIp, dlTeid, ranAddr, current.qci);
      (u.(routes := Install(Remove(u.routes, ulTeid), ulTeid, updated),
          sessions := if ulTeid in u.sessions
                      then u.sessions[ulTeid := u.sessions[ulTeid].(dlTeid := dlTeid, ranAddr := ranAddr)]
                      else u.sessions,
          kernel := WriteKernel(u.kernel, ulTeid, current.ueIp, XdpRouteEntry(dlTeid, ranAddr, GTP_PORT))), true)
  }

  function RemoveTeid(u: UpfState, ulTeid: u32): (UpfState, Option<Session>) {
    var ueIp := if ulTeid in u.sessions then Some(u.sessions[ulTeid].ueIp) else None;
    var kernel :=
      if u.kernel.None? then None
      else Some(Kernel(u.kernel.value.teids - {ulTeid},
                       if ueIp.Some? then u.kernel.value.ues - {ueIp.value} else u.kernel.value.ues));
    (u.(routes := Remove(u.routes, ulTeid), kernel := kernel,
        sessions := u.sessions - {ulTeid},
        freeUlTeids := if ulTeid in u.sessions then u.freeUlTeids + [ulTeid] else u.freeUlTeids),
     if ulTeid in u.sessions then Some(u.sessions[ulTeid]) else None)
  }

  function ApplyEvent(u: UpfState, e: UpfEvent): UpfState {
    match e
    case CreateSession(_, _, _, _, _, _) => Create(u, e)
    case UpdateBearer(ulTeid, dlTeid, ranAddr) => UpdateInfo(u, ulTeid, dlTeid, ranAddr).0
    case RemoveSession(ulTeid) => RemoveTeid(u, ulTeid).0
  }

  // Creating does not overwrite, updating finds a session, removing returns one.
  predicate Lands(u: UpfState, e: UpfEvent) {
    match e
    case CreateSession(ulTeid, _, _, _, _, _) => ulTeid !in u.sessions
    case UpdateBearer(ulTeid, dlTeid, ranAddr) => UpdateInfo(u, ulTeid, dlTeid, ranAddr).1
    case RemoveSession(ulTeid) => RemoveTeid(u, ulTeid).1.Some?
  }

  // What each event does, field by field, and when it finds what it expects. A created session is
  // active with no bytes counted and no far-end TEID; an update changes far end only; a removal
  // recycles the TEID. Far ends listen on port 2152.
  lemma EventOutcomes(u: UpfState, e: UpfEvent)
    ensures var n := ApplyEvent(u, e);
            match e
            case CreateSession(t, id, imsi, ueIp, ran, qos) =>
              var route := RouteEntry(ueIp, 0, ran, 2152, qos);
              && n.sessions == u.sessions[t := Session(id, imsi, t, 0, ueIp, ran, true, 0, 0)]
              && n.routes == Routes(u.routes.ul[t := route], u.routes.dl[ueIp := route])
              && n.freeUlTeids == u.freeUlTeids && (Lands(u, e) <==> t !in u.sessions)
            case UpdateBearer(t, dlTeid, ran) =>
              && (t !in u.routes.ul ==> n == u)
              && (t in u.routes.ul ==>
                    var was := u.routes.ul[t];
                    var route := RouteEntry(was.ueIp, dlTeid, ran, 2152, was.qci);
                    && n.routes == Routes(u.routes.ul[t := route], u.routes.dl[was.ueIp := route])
                    && n.sessions.Keys == u.sessions.Keys
                    && (t in u.sessions ==>
                          n.sessions == u.sessions[t := u.sessions[t].(dlTeid := dlTeid, ranAddr := ran)])
                    && n.freeUlTeids == u.freeUlTeids)
              && (Lands(u, e) <==> t in u.routes.ul)
            case RemoveSession(t) =>
              && n.sessions == u.sessions - {t}
              && n.routes == (if t in u.routes.ul
                              then Routes(u.routes.ul - {t}, u.routes.dl - {u.routes.ul[t].ueIp}) else u.routes)
              && n.freeUlTeids == (if t in u.sessions then u.freeUlTeids + [t] else u.freeUlTeids)
              && (Lands(u, e) <==> t in u.sessions)
  {
    match e
    case UpdateBearer(t, dlTeid, ran) =>
      if t in u.routes.ul {
        var was := u.routes.ul[t];
        var route := NewRoute(was.ueIp, dlTeid, ran, was.qci);
        assert (u.routes.ul - {t})[t := route] == u.routes.ul[t := route];
        assert (u.routes.dl - {was.ueIp})[was.ueIp := route] == u.routes.dl[was.ueIp := route];
      }
    case _ =>
  }

  // ---- What every event keeps ---------------------------------------------------------------

  // Session records and uplink routes are two views of the same thing.
  ghost predicate TablesAgree(u: UpfState) {
    && u.sessions.Keys == u.routes.ul.Keys
    && forall t :: t in u.sessions ==>
      && u.sessions[t].ulTeid == t
      && u.routes.ul[t].ueIp == u.sessions[t].ueIp
      && u.routes.ul[t].dlTeid == u.sessions[t].dlTeid
      && u.routes.ul[t].enbAddr == u.sessions[t].ranAddr
      && u.routes.ul[t].enbPort == GTP_PORT
  }

  lemma EventKeepsTables(u: UpfState, e: UpfEvent)
    requires TablesAgree(u)
    ensures TablesAgree(ApplyEvent(u, e))
  {
  }

  // Both kernel maps are exactly the projections of the two routing maps.
  ghost predicate KernelMirrors(u: UpfState) {
    u.kernel.Some? ==>
      u.kernel.value.teids == ProjectAll(u.routes.ul) && u.kernel.value.ues == ProjectAll(u.routes.dl)
  }

  lemma ProjectInsert<K>(m: map<K, RouteEntry>, k: K, e: RouteEntry)
    ensures ProjectAll(m[k := e]) == ProjectAll(m)[k := Project(e)]
  {
  }

  lemma ProjectRemove<K>(m: map<K, RouteEntry>, k: K)
    ensures ProjectAll(m - {k}) == ProjectAll(m) - {k}
  {
  }

  lemma EventKeepsMirror(u: UpfState, e: UpfEvent)
    requires TablesAgree(u) && KernelMirrors(u)
    ensures KernelMirrors(ApplyEvent(u, e))
  {
    hide ProjectAll;
    if u.kernel.Some? {
      match e {
        case CreateSession(ulTeid, _, _, ueIp, ranAddr, qos) =>
          var entry := NewRoute(ueIp, 0, ranAddr, qos);
          ProjectInsert(u.routes.ul, ulTeid, entry);
          ProjectInsert(u.routes.dl, ueIp, entry);
        case UpdateBearer(ulTeid, dlTeid, ranAddr) =>
          if ulTeid in u.routes.ul {
            UpdateKeepsMirror(u, ulTeid, dlTeid, ranAddr);
          }
        case RemoveSession(ulTeid) =>
          ProjectRemove(u.routes.ul, ulTeid);
          if ulTeid in u.sessions {
            ProjectRemove(u.routes.dl, u.sessions[ulTeid].ueIp);
          } else {
            assert u.routes.ul - {ulTeid} == u.routes.ul;
          }
      }
    }
  }

  // Removing an entry and installing its replacement leaves no trace of the removal.
  lemma UpdateKeepsMirror(u: UpfState, ulTeid: u32, dlTeid: u32, ranAddr: Octets4)
    requires TablesAgree(u) && KernelMirrors(u) && u.kernel.Some? && ulTeid in u.routes.ul
    ensures KernelMirrors(UpdateInfo(u, ulTeid, dlTeid, ranAddr).0)
  {
    hide ProjectAll;
    var current := u.routes.ul[ulTeid];
    var updated := NewRoute(current.ueIp, dlTeid, ranAddr, current.qci);
    var n := UpdateInfo(u, ulTeid, dlTeid, ranAddr).0;
    assert n.routes.ul == u.routes.ul[ulTeid := updated];
    assert n.routes.dl == u.routes.dl[current.ueIp := updated];
    ProjectInsert(u.routes.ul, ulTeid, updated);
    ProjectInsert(u.routes.dl, current.ueIp, updated);
  }

  function ApplyEvents(u: UpfState, es: seq<UpfEvent>): UpfState
    decreases |es|
  {
    if es == [] then u else ApplyEvents(ApplyEvent(u, es[0]), es[1..])
  }

  const NEW_UPF := UpfState(map[], Routes(map[], map[]), [], None)

  lemma EventKeepsKernel(u: UpfState, e: UpfEvent)
    ensures ApplyEvent(u, e).kernel.Some? == u.kernel.Some?
  {
  }

  // After any sequence of creates, updates and removes, colliding UE addresses, re-created
  // TEIDs and unknown TEIDs included, the kernel maps are the projections.
  lemma {:induction false} MirrorAlways(u: UpfState, es: seq<UpfEvent>)
    requires TablesAgree(u) && KernelMirrors(u)
    ensures TablesAgree(ApplyEvents(u, es)) && KernelMirrors(ApplyEvents(u, es))
    ensures ApplyEvents(u, es).kernel.Some? == u.kernel.Some?
    decreases |es|
  {
    hide TablesAgree, KernelMirrors, ApplyEvent;
    if es != [] {
      EventKeepsTables(u, es[0]);
      EventKeepsMirror(u, es[0]);
      EventKeepsKernel(u, es[0]);
      MirrorAlways(ApplyEvent(u, es[0]), es[1..]);
    }
  }

  lemma NewUpfAgrees()
    ensures TablesAgree(NEW_UPF)
    ensures KernelMirrors(NEW_UPF.(kernel := Some(Kernel(map[], map[]))))
  {
  }

  // ---- Downlink against uplink ----------------------------------------------------------------

  // The downlink route of a session's UE address is its uplink route.
  ghost predicate DownlinkAgrees(u: UpfState) {
    forall t :: t in u.sessions ==>
      t in u.routes.ul
      && u.sessions[t].ueIp in u.routes.dl
      && u.routes.dl[u.sessions[t].ueIp] == u.routes.ul[t]
  }

  ghost predicate DistinctUeIps(u: UpfState) {
    forall t1, t2 :: t1 in u.sessions && t2 in u.sessions && t1 != t2 ==>
      u.sessions[t1].ueIp != u.sessions[t2].ueIp
  }

  // A route written for `ulTeid` disturbs no session with another address.
  lemma InstallKeepsDownlink(u: UpfState, n: UpfState, ulTeid: u32, entry: RouteEntry)
    requires DownlinkAgrees(u) && DistinctUeIps(n)
    requires n.routes.ul == u.routes.ul[ulTeid := entry] && n.routes.dl == u.routes.dl[entry.ueIp := entry]
    requires ulTeid in n.sessions && n.sessions[ulTeid].ueIp == entry.ueIp
    requires forall t :: t in n.sessions && t != ulTeid ==> t in u.sessions && u.sessions[t].ueIp == n.sessions[t].ueIp
    ensures DownlinkAgrees(n)
  {
    forall t | t in n.sessions
      ensures t in n.routes.ul && n.sessions[t].ueIp in n.routes.dl && n.routes.dl[n.sessions[t].ueIp] == n.routes.ul[t]
    {
      if t != ulTeid {
        assert n.sessions[t].ueIp != n.sessions[ulTeid].ueIp;
      }
    }
  }

  lemma RemoveKeepsDownlink(u: UpfState, ulTeid: u32)
    requires TablesAgree(u) && DownlinkAgrees(u) && DistinctUeIps(u)
    ensures DownlinkAgrees(RemoveTeid(u, ulTeid).0)
  {
    var n := RemoveTeid(u, ulTeid).0;
    if ulTeid in u.sessions {
      assert u.routes.ul[ulTeid].ueIp == u.sessions[ulTeid].ueIp;
      forall t | t in n.sessions
        ensures t in n.routes.ul && n.sessions[t].ueIp in n.routes.dl
        ensures n.routes.dl[n.sessions[t].ueIp] == n.routes.ul[t]
      {
        assert t in u.sessions && u.sessions[t].ueIp != u.sessions[ulTeid].ueIp;
      }
    }
  }

  lemma EventKeepsDownlink(u: UpfState, e: UpfEvent)
    requires TablesAgree(u) && DownlinkAgrees(u) && DistinctUeIps(u)
    requires DistinctUeIps(ApplyEvent(u, e))
    ensures DownlinkAgrees(ApplyEvent(u, e))
  {
    hide DownlinkAgrees, DistinctUeIps;
    var n := ApplyEvent(u, e);
    match e {
      case CreateSession(ulTeid, _, _, ueIp, ranAddr, qos) =>
        InstallKeepsDownlink(u, n, ulTeid, NewRoute(ueIp, 0, ranAddr, qos));
      case UpdateBearer(ulTeid, dlTeid, ranAddr) =>
        if ulTeid in u.routes.ul {
          var current := u.routes.ul[ulTeid];
          var updated := NewRoute(current.ueIp, dlTeid, ranAddr, current.qci);
          assert n.routes.ul == u.routes.ul[ulTeid := updated];
          assert n.routes.dl == u.routes.dl[current.ueIp := updated];
          InstallKeepsDownlink(u, n, ulTeid, updated);
        }
      case RemoveSession(ulTeid) =>
        RemoveKeepsDownlink(u, ulTeid);
    }
  }

  // Why distinct addresses matter: removing one of two sessions with the same UE address
  // leaves the other with an uplink route and no downlink route.
  lemma SharedUeIpLosesDownlink(u: UpfState, removed: u32, kept: u32)
    requires TablesAgree(u) && removed in u.sessions && kept in u.sessions && removed != kept
    requires u.sessions[removed].ueIp == u.sessions[kept].ueIp
    ensures var n := RemoveTeid(u, removed).0;
            kept in n.sessions && kept in n.routes.ul && n.sessions[kept].ueIp !in n.routes.dl
  {
  }

  // ---- The session manager ----------------------------------------------------------------------

  class SessionManager {
    const routing: RoutingTable
    var sessions: map<u32, Session>
    var freeUlTeids: seq<u32>
    var kernel: Option<Kernel>

    constructor ()
      ensures fresh(routing) && State() == NEW_UPF
    {
      routing := new RoutingTable();
      sessions, freeUlTeids, kernel := map[], [], None;
    }

    function State(): UpfState
      reads this, routing
    {
      UpfState(sessions, routing.State(), freeUlTeids, kernel)
    }

    // Map writes are taken to succeed.
    method InsertKernel(ulTeid: u32, ueIp: Octets4, entry: XdpRouteEntry)
      modifies this`kernel
      ensures State() == old(State()).(kernel := WriteKernel(old(kernel), ulTeid, ueIp, entry))
    {
      if kernel.Some? {
        kernel := Some(kernel.value.(teids := kernel.value.teids[ulTeid := entry]));
        kernel := Some(kernel.value.(ues := kernel.value.ues[ueIp := entry]));
      }
    }

    method CreateSessionWithTeid(ulTeid: u32, entityId: u32, imsi: u64, ueIp: Octets4, ranAddr: Octets4, qos: byte)
      modifies this, routing
      ensures State() == Create(old(State()), CreateSession(ulTeid, entityId, imsi, ueIp, ranAddr, qos))
    {
      var entry := NewRoute(ueIp, 0, ranAddr, qos);
      routing.InstallRoute(ulTeid, entry);
      sessions := sessions[ulTeid := Session(entityId, imsi, ulTeid, 0, ueIp, ranAddr, true, 0, 0)];
      InsertKernel(ulTeid, ueIp, XdpRouteEntry(0, ranAddr, GTP_PORT));
    }

    method UpdateBearerInfo(ulTeid: u32, dlTeid: u32, ranAddr: Octets4) returns (found: bool)
      modifies this, routing
      ensures (State(), found) == UpdateInfo(old(State()), ulTeid, dlTeid, ranAddr)
    {
      var lookup := routing.LookupUl(ulTeid);
      if lookup.None? {
        return false;
      }
      var current := lookup.value;
      var _ := routing.RemoveRoute(ulTeid);
      var updated := NewRoute(current.ueIp, dlTeid, ranAddr, current.qci);
      routing.InstallRoute(ulTeid, updated);
      if ulTeid in sessions {
        sessions := sessions[ulTeid := sessions[ulTeid].(dlTeid := dlTeid, ranAddr := ranAddr)];
      }
      InsertKernel(ulTeid, current.ueIp, XdpRouteEntry(dlTeid, ranAddr, GTP_PORT));
      found := true;
    }

    method RemoveSessionByTeid(ulTeid: u32) returns (removed: Option<Session>)
      modifies this, routing
      ensures (State(), removed) == RemoveTeid(old(State()), ulTeid)
    {
      var ueIp := if ulTeid in sessions then Some(sessions[ulTeid].ueIp) else None;
      var _ := routing.RemoveRoute(ulTeid);
      if kernel.Some? {
        kernel := Some(kernel.value.(teids := kernel.value.teids - {ulTeid}));
        if ueIp.Some? {
          kernel := Some(kernel.value.(ues := kernel.value.ues - {ueIp.value}));
        }
      }
      removed := if ulTeid in sessions then Some(sessions[ulTeid]) else None;
      sessions := sessions - {ulTeid};
      if removed.Some? {
        freeUlTeids := freeUlTeids + [ulTeid];
      }
    }

    method Handle(e: UpfEvent)
      modifies this, routing
      ensures State() == ApplyEvent(old(State()), e)
    {
      match e {
        case CreateSession(ulTeid, entityId, imsi, ueIp, ranAddr, qos) =>
          CreateSessionWithTeid(ulTeid, entityId, imsi, ueIp, ranAddr, qos);
        case UpdateBearer(ulTeid, dlTeid, ranAddr) =>
          var _ := UpdateBearerInfo(ulTeid, dlTeid, ranAddr);
        case RemoveSession(ulTeid) =>
          var _ := RemoveSessionByTeid(ulTeid);
      }
    }

    // One control-plane step's events, in the order emitted.
    method HandleAll(es: seq<UpfEvent>)
      modifies this, routing
      ensures State() == ApplyEvents(old(State()), es)
    {
      hide ApplyEvent;
      var i := 0;
      while i < |es|
        invariant 0 <= i <= |es|
        invariant ApplyEvents(State(), es[i..]) == ApplyEvents(old(State()), es)
      {
        Handle(es[i]);
        assert es[i..][1..] == es[i + 1..];
        i := i + 1;
      }
    }
  }
}
