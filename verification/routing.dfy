// The two-way routing table of the user plane, and the kernel's view of its entries.
module Routing {
  import opened Bits

  const GTP_PORT: u16 := 2152

  datatype RouteEntry = RouteEntry(ueIp: Octets4, dlTeid: u32, enbAddr: Octets4, enbPort: u16, qci: byte)

  function NewRoute(ueIp: Octets4, dlTeid: u32, enbAddr: Octets4, qci: byte): RouteEntry {
    RouteEntry(ueIp, dlTeid, enbAddr, GTP_PORT, qci)
  }

  // Uplink TEID to route, and UE address to route.
  datatype Routes = Routes(ul: map<u32, RouteEntry>, dl: map<Octets4, RouteEntry>)

  function Install(r: Routes, ulTeid: u32, entry: RouteEntry): Routes {
    Routes(r.ul[ulTeid := entry], r.dl[entry.ueIp := entry])
  }

  function Remove(r: Routes, ulTeid: u32): Routes {
    if ulTeid in r.ul then Routes(r.ul - {ulTeid}, r.dl - {r.ul[ulTeid].ueIp}) else r
  }

  class RoutingTable {
    var ulMap: map<u32, RouteEntry>
    var dlMap: map<Octets4, RouteEntry>

    constructor ()
      ensures State() == Routes(map[], map[])
    {
      ulMap, dlMap := map[], map[];
    }

    function State(): Routes
      reads this
    {
      Routes(ulMap, dlMap)
    }

    method InstallRoute(ulTeid: u32, entry: RouteEntry)
      modifies this
      ensures State() == Install(old(State()), ulTeid, entry)
    {
      dlMap := dlMap[entry.ueIp := entry];
      ulMap := ulMap[ulTeid := entry];
    }

    method RemoveRoute(ulTeid: u32) returns (r: Option<RouteEntry>)
      modifies this
      ensures State() == Remove(old(State()), ulTeid)
      ensures r == if ulTeid in old(ulMap) then Some(old(ulMap[ulTeid])) else None
    {
      if ulTeid in ulMap {
        var entry := ulMap[ulTeid];
        ulMap := ulMap - {ulTeid};
        dlMap := dlMap - {entry.ueIp};
        return Some(entry);
      }
      r := None;
    }

    method LookupUl(ulTeid: u32) returns (r: Option<RouteEntry>)
      ensures r == if ulTeid in ulMap then Some(ulMap[ulTeid]) else None
    {
      r := if ulTeid in ulMap then Some(ulMap[ulTeid]) else None;
    }
  }

  // What the kernel hash maps hold for a route.
  datatype XdpRouteEntry = XdpRouteEntry(dlTeid: u32, enbIp: Octets4, enbPort: u16)

  function Project(e: RouteEntry): XdpRouteEntry {
    XdpRouteEntry(e.dlTeid, e.enbAddr, e.enbPort)
  }

  function ProjectAll<K>(m: map<K, RouteEntry>): map<K, XdpRouteEntry> {
    map k | k in m :: Project(m[k])
  }
}
