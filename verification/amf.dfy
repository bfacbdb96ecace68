// The AMF: registration (section 4.2.2.2 of TS 23.502) and UE-initiated deregistration
// (section 4.2.2.3) as a step function on node states, and the object that carries it out
// in place. The NAS-5GS message codec, the key derivations and the subscriber server's
// answers are parameters.
module AmfNode {
  import opened Bits
  import opened NasSecurity
  import opened Ecs
  import opened Upf
  import opened Control
  import opened BearerLists
  import Ngap = NgapCodec

  const SHT_INTEGRITY_CIPHERED: byte := 2
  const DEFAULT_PDU_SESSION_ID: byte := 1
  const DEFAULT_QFI: byte := 1
  const AMBR: u64 := 50_000_000
  const TEID_BASE: u32 := 0x0002_0000
  const IDTYPE_5G_GUTI: byte := 0x02

  type Octets5 = s: Bytes | |s| == 5 witness [0, 0, 0, 0, 0]

  datatype Suci = Suci(protectionScheme: byte, msin: Octets5)

  datatype NasPdu =
    | RegistrationRequest(hasGuti: bool)
    | IdentityResponse(suci: Option<Suci>)
    | AuthenticationResponse(resStar: Bytes)
    | SecurityModeComplete
    | RegistrationComplete
    | DeregistrationRequest(switchOff: bool)
    | OtherOrMalformed

  datatype Env = Env(
    crypto: Crypto,
    decode: Bytes -> NasPdu,
    identityRequest: Bytes,
    authRequest: (Bytes, Bytes) -> Bytes,
    secModeCmd: Bytes,
    registrationAccept: Bytes -> Bytes,
    deregistrationAccept: Bytes,
    resStar: (Bytes, Bytes, Octets3, Bytes, Bytes) -> Bytes,
    kamf: (Bytes, Bytes, Octets3, Bytes, u64) -> Ngap.Octets32,
    nasKeys: Bytes -> (Bytes, Bytes))

  type Out = Local<Ngap.NgapMessage>

  // ---- Handlers, seen from the entity they are addressed to ------------------------------------

  predicate Registering(env: Env, nasPdu: Bytes) {
    env.decode(nasPdu) == RegistrationRequest(false)
  }

  // The IMSI is not known yet; the serving network is.
  function RegisterSlot(slot: Slot, ranId: u32, plmn: Octets3): Slot {
    slot.(identity := Identity(0, ranId, ZERO_ADDR), security5g := EmptyAka(16).(plmn := plmn))
  }

  // Only a null-scheme SUCI can be resolved: its five MSIN octets are the IMSI.
  function ResolveSuci(suci: Suci): Option<u64> {
    if suci.protectionScheme != 0 then None
    else
      var top: int := suci.msin[0];
      Some(top * 0x1_0000_0000 + FromBE32(suci.msin[1..]))
  }

  // The IMSI an identity response registers, if it gets that far.
  function Identified(slot: Slot, suci: Option<Suci>, auth: Option<AuthInfo>): Option<u64> {
    if suci.None? || auth.None? || !slot.live then None else ResolveSuci(suci.value)
  }

  function IdentityDone(
    env: Env, slot: Slot, id: u32, ranId: u32, suci: Option<Suci>, auth: Option<AuthInfo>): Out
  {
    match Identified(slot, suci, auth)
    case None => Nothing(slot)
    case Some(imsi) =>
      var a, plmn := auth.value, slot.security5g.plmn;
      Local(slot.(identity := Identity(imsi, ranId, ZERO_ADDR),
                  security5g := Aka(a.rand, env.resStar(a.ck, a.ik, plmn, a.rand, a.res), a.ck, a.ik, a.ak,
                                    plmn, a.sqnUsed),
                  auth := ChallengeIssued),
            [Ngap.DownlinkNasTransport(id, ranId, env.authRequest(a.rand, Autn(a)))], [], false)
  }

  function AuthResponse(env: Env, slot: Slot, id: u32, ranId: u32, resStar: Bytes): Out {
    if !slot.live then Nothing(slot)
    else
      var cleared := slot.(security5g := ClearChallenge(slot.security5g));
      if slot.security5g.pendingXres != resStar then Local(cleared.(auth := Failed(ResMismatch)), [], [], false)
      else Local(cleared.(auth := Authenticated), [Ngap.DownlinkNasTransport(id, ranId, env.secModeCmd)], [], false)
  }

  function NewContext(env: Env, kamf: Bytes): NasCtx {
    var keys := env.nasKeys(kamf);
    NasCtx(keys.0, keys.1, true, true, 0, 0)
  }

  function PlaceholderGuti(id: u32): Bytes {
    [IDTYPE_5G_GUTI, 0, 0, 0, 0, 0, 0] + BE32(id)
  }

  // 10.45.0.0/16, by the low 16 bits of the entity id.
  function UeIp(id: u32): Octets4 {
    var n: int := id;
    var hi: byte, lo: byte := n / 0x100 % 0x100, n % 0x100;
    [10, 45, hi, lo]
  }

  function SecurityModeDone(env: Env, upf: Option<Octets4>, slot: Slot, id: u32, ranId: u32, teid: u32): Out {
    if !slot.live then Nothing(slot)
    else
      var a := slot.security5g;
      var kamf := env.kamf(a.ck, a.ik, a.plmn, XorBytes(a.sqnUsed, a.ak), slot.identity.imsi);
      var (ctx, accept) := EncodeProtected(env.crypto, FiveGs, NewContext(env, kamf), Downlink,
                                           SHT_INTEGRITY_CIPHERED, NAS_BEARER,
                                           env.registrationAccept(PlaceholderGuti(id)));
      var active := slot.(security5g := ClearKeys(a), nas5g := Some(ctx));
      match upf
      case Some(addr) =>
        Local(active.(tunnel := Some(Tunnel(teid, 0, ZERO_ADDR))),
              [Ngap.InitialContextSetupRequest(
                 id, ranId, [BearerToSetup(DEFAULT_PDU_SESSION_ID, DEFAULT_QFI, BE32(teid), addr)],
                 Some(accept), AMBR, AMBR, kamf)],
              [CreateSession(teid, id, slot.identity.imsi, UeIp(id), ZERO_ADDR, DEFAULT_QFI)], true)
      case None =>
        Local(active, [Ngap.DownlinkNasTransport(id, ranId, accept)], [], false)
  }

  function Deregister(env: Env, slot: Slot, id: u32, ranId: u32, switchOff: bool): Out {
    var release := Ngap.UeContextReleaseCommand(id, ranId, Ngap.NasDeregister);
    if !slot.live then Nothing(slot)
    else if switchOff then Local(slot, [release], [], false)
    else
      match slot.nas5g
      case None => Local(slot, [Ngap.DownlinkNasTransport(id, ranId, env.deregistrationAccept), release], [], false)
      case Some(ctx) =>
        var (next, accept) := EncodeProtected(env.crypto, FiveGs, ctx, Downlink,
                                              SHT_INTEGRITY_CIPHERED, NAS_BEARER, env.deregistrationAccept);
        Local(slot.(nas5g := Some(next)), [Ngap.DownlinkNasTransport(id, ranId, accept), release], [], false)
  }

  function Dispatch(
    env: Env, upf: Option<Octets4>, slot: Slot, id: u32, ranId: u32, plain: Bytes, auth: Option<AuthInfo>, teid: u32
  ): Out
  {
    match env.decode(plain)
    case IdentityResponse(suci) => IdentityDone(env, slot, id, ranId, suci, auth)
    case AuthenticationResponse(resStar) => AuthResponse(env, slot, id, ranId, resStar)
    case SecurityModeComplete => SecurityModeDone(env, upf, slot, id, ranId, teid)
    case DeregistrationRequest(switchOff) => Deregister(env, slot, id, ranId, switchOff)
    case _ => Nothing(slot)
  }

  // What is left to dispatch after the security envelope, if anything, and the slot then.
  function Unwrap(env: Env, slot: Slot, pdu: Bytes): (Slot, Option<Bytes>) {
    var sht := if |pdu| < 2 then 0 else pdu[1] % 16;
    if sht == 0 then (slot, Some(pdu))
    else if !slot.live || slot.nas5g.None? then (slot, None)
    else
      var (ctx, inner) := DecodeProtected(env.crypto, FiveGs, slot.nas5g.value, Uplink, NAS_BEARER, pdu);
      (slot.(nas5g := Some(ctx)), inner)
  }

  function UplinkNas(
    env: Env, upf: Option<Octets4>, slot: Slot, id: u32, ranId: u32, pdu: Bytes, auth: Option<AuthInfo>, teid: u32): Out
  {
    var (moved, plain) := Unwrap(env, slot, pdu);
    if plain.None? then Nothing(moved)
    else Dispatch(env, upf, moved, id, ranId, plain.value, auth, teid)
  }

  // The index entry an uplink message makes.
  function Indexed(env: Env, slot: Slot, pdu: Bytes, auth: Option<AuthInfo>): Option<u64> {
    var (moved, plain) := Unwrap(env, slot, pdu);
    if plain.None? then None else IndexedPlain(env, moved, plain.value, auth)
  }

  function IndexedPlain(env: Env, slot: Slot, plain: Bytes, auth: Option<AuthInfo>): Option<u64> {
    match env.decode(plain)
    case IdentityResponse(suci) => Identified(slot, suci, auth)
    case _ => None
  }

  // ---- One step of the node ------------------------------------------------------------------------

  datatype Input = Input(msg: Ngap.NgapMessage, auth: Option<AuthInfo>)

  datatype Result = Result(node: Node, out: seq<Ngap.NgapMessage>, events: seq<UpfEvent>)

  function Index(registry: map<u64, u32>, imsi: Option<u64>, id: u32): map<u64, u32> {
    if imsi.None? then registry else registry[imsi.value := id]
  }

  function Committed(s: Node, id: u32, l: Out, imsi: Option<u64>): Result {
    Result(Commit(s, id, l).(registry := Index(s.registry, imsi, id)), l.out, l.events)
  }

  function Register(env: Env, s: Node, ranId: u32, plmn: Octets3): Result
    requires WorldInv(s.world)
  {
    var (w, id) := Spawn(s.world);
    var (entered, _) := Enter(s, RegisterSlot(SlotOf(w, id), ranId, plmn));
    Result(entered, [Ngap.DownlinkNasTransport(id, ranId, env.identityRequest)], [])
  }

  function Step(env: Env, s: Node, i: Input): Result
    requires WorldInv(s.world)
  {
    var teid := Alloc(s.teids).1;
    match i.msg
    case InitialUeMessage(ranId, nasPdu, tai, _, _) =>
      if !Registering(env, nasPdu) then Result(s, [], [])
      else Register(env, s, ranId, tai[..3])
    case UplinkNasTransport(id, ranId, pdu, _, _) =>
      var slot := SlotOf(s.world, id);
      Committed(s, id, UplinkNas(env, s.upf, slot, id, ranId, pdu, i.auth, teid), Indexed(env, slot, pdu, i.auth))
    case InitialContextSetupResponse(id, _, setup, _) =>
      Committed(s, id, BearerUp(SlotOf(s.world, id), First(setup)), None)
    case UeContextReleaseComplete(id, _) =>
      var (node, events) := Releasing(s, id);
      Result(node, [], events)
    case _ => Result(s, [], [])
  }

  // ---- The object --------------------------------------------------------------------------------------

  class Amf {
    const env: Env
    const world: World
    const registry: ImsiRegistry
    const teids: TeidAllocator
    const phaseBUpf: Option<Octets4>

    constructor (env: Env, phaseBUpf: Option<Octets4>)
      ensures Valid() && fresh(world) && fresh(registry) && fresh(teids)
      ensures NodeState() == Node(NEW_WORLD, map[], Teids(TEID_BASE, []), phaseBUpf)
      ensures this.env == env
    {
      this.env, this.phaseBUpf := env, phaseBUpf;
      world := new World();
      registry := new ImsiRegistry();
      teids := new TeidAllocator(TEID_BASE);
    }

    ghost predicate Valid()
      reads this, world
    {
      world.Valid()
    }

    function NodeState(): Node
      requires world.ColumnsAligned()
      reads this, world, registry, teids
    {
      Node(world.State(), registry.imsiMap, teids.State(), phaseBUpf)
    }

    method ProcessNgap(msg: Ngap.NgapMessage, auth: Option<AuthInfo>)
      returns (out: seq<Ngap.NgapMessage>, events: seq<UpfEvent>)
      requires Valid()
      modifies world, registry, teids
      ensures Valid()
      ensures Result(NodeState(), out, events) == Step(env, old(NodeState()), Input(msg, auth))
    {
      hide WorldInv, UplinkNas, Register, Indexed;
      match msg {
        case InitialUeMessage(ranId, nasPdu, tai, _, _) =>
          out, events := StartRegistration(ranId, nasPdu, tai);
        case UplinkNasTransport(amfId, ranId, nasPdu, _, _) =>
          out, events := HandleUplinkNas(ranId, amfId, nasPdu, auth);
        case InitialContextSetupResponse(amfId, _, setup, _) =>
          events := BearerUpEntity(world, amfId, First(setup));
          out := [];
        case UeContextReleaseComplete(amfId, _) =>
          events := ReleaseEntity(world, registry, teids, amfId, phaseBUpf);
          out := [];
        case _ =>
          out, events := [], [];
      }
    }

    method StartRegistration(ranId: u32, nasPdu: Bytes, tai: Octets6)
      returns (out: seq<Ngap.NgapMessage>, events: seq<UpfEvent>)
      requires Valid()
      modifies world
      ensures Valid()
      ensures Result(NodeState(), out, events) ==
              if !Registering(env, nasPdu) then Result(old(NodeState()), [], [])
              else Register(env, old(NodeState()), ranId, tai[..3])
    {
      hide WorldInv, EmptyAka;
      var plmn := tai[..3];
      var pdu := env.decode(nasPdu);
      if !pdu.RegistrationRequest? {
        return [], [];
      }
      if pdu.hasGuti {
        return [], [];
      }
      SpawnedLives(world.State());
      var entity := world.SpawnEntity();
      ghost var w := world.State();
      ghost var s1 := SlotOf(w, entity).(identity := Identity(0, ranId, ZERO_ADDR));
      world.InsertIdentity(entity, Identity(0, ranId, ZERO_ADDR));
      var aka := EmptyAka(16).(plmn := plmn);
      UpdateTwice(w, entity, s1, s1.(security5g := aka));
      world.InsertSecurity5g(entity, aka);
      return [Ngap.DownlinkNasTransport(entity, ranId, env.identityRequest)], [];
    }

    method HandleUplinkNas(ranId: u32, amfId: u32, nasPdu: Bytes, auth: Option<AuthInfo>)
      returns (out: seq<Ngap.NgapMessage>, events: seq<UpfEvent>)
      requires Valid()
      modifies world, registry, teids
      ensures Valid()
      ensures var s := old(NodeState());
              var slot := SlotOf(s.world, amfId);
              Result(NodeState(), out, events) ==
              Committed(s, amfId, UplinkNas(env, s.upf, slot, amfId, ranId, nasPdu, auth, Alloc(s.teids).1),
                        Indexed(env, slot, nasPdu, auth))
    {
      hide WorldInv, Dispatch, IndexedPlain, Unwrap;
      ghost var s := old(NodeState());
      ghost var w := world.State();
      ghost var moved := Unwrap(env, SlotOf(w, amfId), nasPdu).0;
      var plain := UnwrapNas(amfId, nasPdu);
      if plain.None? {
        return [], [];
      }
      UnwrapTame(env, SlotOf(w, amfId), nasPdu);
      UpdateFrame(w, amfId, moved);
      out, events := DispatchNas(ranId, amfId, plain.value, auth);
      ghost var l := Dispatch(env, s.upf, moved, amfId, ranId, plain.value, auth, Alloc(s.teids).1);
      UpdateTwice(w, amfId, moved, l.slot);
    }

    // None when the message is dropped: no security context, or the envelope is rejected.
    method UnwrapNas(amfId: u32, nasPdu: Bytes) returns (plain: Option<Bytes>)
      requires Valid()
      modifies world
      ensures Valid()
      ensures var r := Unwrap(env, SlotOf(old(world.State()), amfId), nasPdu);
              world.State() == Update(old(world.State()), amfId, r.0) && plain == r.1
    {
      hide WorldInv, DecodeProtected;
      var sht := if |nasPdu| < 2 then 0 else nasPdu[1] % 16;
      UpdateNothing(world.State(), amfId);
      if sht == 0 {
        return Some(nasPdu);
      }
      var ctx := world.GetNas5g(amfId);
      if ctx.None? {
        return None;
      }
      var r := DecodeProtected(env.crypto, FiveGs, ctx.value, Uplink, NAS_BEARER, nasPdu);
      world.SetNas5g(amfId, r.0);
      plain := r.1;
    }

    method DispatchNas(ranId: u32, amfId: u32, plain: Bytes, auth: Option<AuthInfo>)
      returns (out: seq<Ngap.NgapMessage>, events: seq<UpfEvent>)
      requires Valid()
      modifies world, registry, teids
      ensures Valid()
      ensures var s := old(NodeState());
              var slot := SlotOf(s.world, amfId);
              Result(NodeState(), out, events) ==
              Committed(s, amfId, Dispatch(env, s.upf, slot, amfId, ranId, plain, auth, Alloc(s.teids).1),
                        IndexedPlain(env, slot, plain, auth))
    {
      hide WorldInv, IdentityDone, AuthResponse, SecurityModeDone, Deregister, Identified;
      ghost var slot := SlotOf(world.State(), amfId);
      match env.decode(plain) {
        case IdentityResponse(suci) =>
          out := HandleIdentityResponse(ranId, amfId, suci, auth);
          events := [];
          IdentityQuiet(env, slot, amfId, ranId, suci, auth);
        case AuthenticationResponse(resStar) =>
          out := HandleAuthResponse(ranId, amfId, resStar);
          events := [];
          AuthResponseQuiet(env, slot, amfId, ranId, resStar);
        case SecurityModeComplete =>
          out, events := HandleSecurityModeComplete(ranId, amfId);
        case DeregistrationRequest(switchOff) =>
          out := HandleDeregistrationRequest(ranId, amfId, switchOff);
          events := [];
          DeregisterQuiet(env, slot, amfId, ranId, switchOff);
        case _ =>
          UpdateNothing(world.State(), amfId);
          out, events := [], [];
      }
    }

    method HandleIdentityResponse(ranId: u32, amfId: u32, suci: Option<Suci>, auth: Option<AuthInfo>)
      returns (out: seq<Ngap.NgapMessage>)
      requires Valid()
      modifies world, registry
      ensures Valid()
      ensures var slot := SlotOf(old(world.State()), amfId);
              var l := IdentityDone(env, slot, amfId, ranId, suci, auth);
              && world.State() == Update(old(world.State()), amfId, l.slot) && out == l.out
              && registry.imsiMap == Index(old(registry.imsiMap), Identified(slot, suci, auth), amfId)
    {
      hide WorldInv;
      ghost var w := world.State();
      ghost var slot := SlotOf(w, amfId);
      UpdateNothing(w, amfId);
      if suci.None? {
        return [];
      }
      var imsi := ResolveSuci(suci.value);
      if imsi.None? {
        return [];
      }
      if auth.None? {
        return [];
      }
      var a := auth.value;
      var aka := world.GetSecurity5g(amfId);
      if aka.None? {
        return [];
      }
      var plmn := aka.value.plmn;
      var autn := Autn(a);
      var xresStar := env.resStar(a.ck, a.ik, plmn, a.rand, a.res);
      var _ := registry.Register(imsi.value, amfId);
      var identity := Identity(imsi.value, ranId, ZERO_ADDR);
      var fresh5g := Aka(a.rand, xresStar, a.ck, a.ik, a.ak, plmn, a.sqnUsed);
      ghost var s1 := slot.(identity := identity);
      ghost var s2 := s1.(security5g := fresh5g);
      world.InsertIdentity(amfId, identity);
      UpdateTwice(w, amfId, s1, s2);
      world.InsertSecurity5g(amfId, fresh5g);
      UpdateTwice(w, amfId, s2, s2.(auth := ChallengeIssued));
      world.SetAuth(amfId, ChallengeIssued);
      out := [Ngap.DownlinkNasTransport(amfId, ranId, env.authRequest(a.rand, autn))];
    }

    method HandleAuthResponse(ranId: u32, amfId: u32, resStar: Bytes) returns (out: seq<Ngap.NgapMessage>)
      requires Valid()
      modifies world
      ensures Valid()
      ensures var l := AuthResponse(env, SlotOf(old(world.State()), amfId), amfId, ranId, resStar);
              world.State() == Update(old(world.State()), amfId, l.slot) && out == l.out
    {
      hide WorldInv;
      ghost var w := world.State();
      ghost var slot := SlotOf(w, amfId);
      var aka := world.GetSecurity5g(amfId);
      if aka.None? {
        UpdateNothing(w, amfId);
        return [];
      }
      var matched := aka.value.pendingXres == resStar;
      world.InsertSecurity5g(amfId, ClearChallenge(aka.value));
      ghost var cleared := slot.(security5g := ClearChallenge(aka.value));
      if !matched {
        UpdateTwice(w, amfId, cleared, cleared.(auth := Failed(ResMismatch)));
        world.SetAuth(amfId, Failed(ResMismatch));
        return [];
      }
      UpdateTwice(w, amfId, cleared, cleared.(auth := Authenticated));
      world.SetAuth(amfId, Authenticated);
      out := [Ngap.DownlinkNasTransport(amfId, ranId, env.secModeCmd)];
    }

    method HandleSecurityModeComplete(ranId: u32, amfId: u32)
      returns (out: seq<Ngap.NgapMessage>, events: seq<UpfEvent>)
      requires Valid()
      modifies world, teids
      ensures Valid()
      ensures var s := old(NodeState());
              Result(NodeState(), out, events) ==
              Committed(s, amfId,
                        SecurityModeDone(env, s.upf, SlotOf(s.world, amfId), amfId, ranId, Alloc(s.teids).1), None)
    {
      hide WorldInv, EncodeProtected, Alloc, UeIp, PlaceholderGuti;
      ghost var w := world.State();
      ghost var slot := SlotOf(w, amfId);
      var identity := world.GetIdentity(amfId);
      if identity.None? {
        UpdateNothing(w, amfId);
        return [], [];
      }
      var imsi := identity.value.imsi;
      var aka := world.GetSecurity5g(amfId);
      if aka.None? {
        UpdateNothing(w, amfId);
        return [], [];
      }
      var sqnXorAk := XorBytes(aka.value.sqnUsed, aka.value.ak);
      var kamf := env.kamf(aka.value.ck, aka.value.ik, aka.value.plmn, sqnXorAk, imsi);
      world.InsertSecurity5g(amfId, ClearKeys(aka.value));
      ghost var s1 := slot.(security5g := ClearKeys(aka.value));
      var r := EncodeProtected(env.crypto, FiveGs, NewContext(env, kamf), Downlink, SHT_INTEGRITY_CIPHERED,
                               NAS_BEARER, env.registrationAccept(PlaceholderGuti(amfId)));
      ghost var s2 := s1.(nas5g := Some(r.0));
      UpdateTwice(w, amfId, s1, s2);
      if phaseBUpf.Some? {
        var ulTeid := teids.AllocTeid();
        world.SetNas5g(amfId, r.0);
        UpdateTwice(w, amfId, s2, s2.(tunnel := Some(Tunnel(ulTeid, 0, ZERO_ADDR))));
        world.SetTunnel(amfId, Tunnel(ulTeid, 0, ZERO_ADDR));
        out := [Ngap.InitialContextSetupRequest(
                  amfId, ranId, [BearerToSetup(DEFAULT_PDU_SESSION_ID, DEFAULT_QFI, BE32(ulTeid), phaseBUpf.value)],
                  Some(r.1), AMBR, AMBR, kamf)];
        events := [CreateSession(ulTeid, amfId, imsi, UeIp(amfId), ZERO_ADDR, DEFAULT_QFI)];
      } else {
        world.SetNas5g(amfId, r.0);
        out, events := [Ngap.DownlinkNasTransport(amfId, ranId, r.1)], [];
      }
    }

    method HandleDeregistrationRequest(ranId: u32, amfId: u32, switchOff: bool) returns (out: seq<Ngap.NgapMessage>)
      requires Valid()
      modifies world
      ensures Valid()
      ensures var l := Deregister(env, SlotOf(old(world.State()), amfId), amfId, ranId, switchOff);
              world.State() == Update(old(world.State()), amfId, l.slot) && out == l.out
    {
      hide WorldInv, EncodeProtected;
      UpdateNothing(world.State(), amfId);
      var alive := world.Alive(amfId);
      if !alive {
        return [];
      }
      out := [];
      if !switchOff {
        var nasPduOut := env.deregistrationAccept;
        var ctx := world.GetNas5g(amfId);
        if ctx.Some? {
          var r := EncodeProtected(env.crypto, FiveGs, ctx.value, Downlink,
                                   SHT_INTEGRITY_CIPHERED, NAS_BEARER, env.deregistrationAccept);
          world.SetNas5g(amfId, r.0);
          nasPduOut := r.1;
        }
        out := out + [Ngap.DownlinkNasTransport(amfId, ranId, nasPduOut)];
      }
      out := out + [Ngap.UeContextReleaseCommand(amfId, ranId, Ngap.NasDeregister)];
    }
  }

  lemma UnwrapTame(env: Env, slot: Slot, pdu: Bytes)
    ensures var moved := Unwrap(env, slot, pdu).0;
            && moved.live == slot.live && moved.tunnel == slot.tunnel && moved.identity == slot.identity
            && (!slot.live ==> moved == slot)
  {
    hide DecodeProtected;
  }

  lemma IdentityQuiet(env: Env, slot: Slot, id: u32, ranId: u32, suci: Option<Suci>, auth: Option<AuthInfo>)
    ensures var l := IdentityDone(env, slot, id, ranId, suci, auth);
            l.events == [] && !l.took
  {
  }

  lemma AuthResponseQuiet(env: Env, slot: Slot, id: u32, ranId: u32, resStar: Bytes)
    ensures var l := AuthResponse(env, slot, id, ranId, resStar);
            l.events == [] && !l.took
  {
  }

  lemma DeregisterQuiet(env: Env, slot: Slot, id: u32, ranId: u32, switchOff: bool)
    ensures var l := Deregister(env, slot, id, ranId, switchOff);
            l.events == [] && !l.took
  {
  }
}
