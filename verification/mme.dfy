// The MME: attach (section 5.3.2.1 of TS 23.401) and UE-initiated detach (section 5.3.8.2)
// as a step function on node states, and the object that carries it out in place.
// The NAS message codec, the key derivations and the subscriber server's answers are
// parameters.
module MmeNode {
  import opened Bits
  import opened NasSecurity
  import opened Ecs
  import opened Upf
  import opened Control
  import opened BearerLists
  import S1ap = S1apCodec

  const SHT_INTEGRITY_CIPHERED: byte := 2
  const DEFAULT_ERAB_ID: byte := 5
  const DEFAULT_QCI: byte := 9
  const AMBR: u64 := 50_000_000
  const TEID_BASE: u32 := 0x0001_0000

  datatype NasPdu =
    | AttachRequest(imsi: Option<u64>)
    | AuthenticationResponse(res: Bytes)
    | SecurityModeComplete
    | AttachComplete
    | DetachRequest(switchOff: bool)
    | OtherOrMalformed

  datatype Env = Env(
    crypto: Crypto,
    decode: Bytes -> NasPdu,
    authRequest: (Bytes, Bytes) -> Bytes,
    secModeCmd: Bytes,
    attachAccept: Octets4 -> Bytes,
    detachAccept: Bytes,
    kasme: (Bytes, Bytes, Octets3, Bytes) -> S1ap.Octets32,
    nasKeys: Bytes -> (Bytes, Bytes))

  type Out = Local<S1ap.S1apMessage>

  // ---- Handlers, seen from the entity they are addressed to ----------------------------------

  // The IMSI of an attach request the subscriber server can answer.
  function Attaching(env: Env, nasPdu: Bytes, auth: Option<AuthInfo>): Option<u64> {
    match env.decode(nasPdu)
    case AttachRequest(imsi) => if auth.Some? then imsi else None
    case _ => None
  }

  function AttachSlot(slot: Slot, enbId: u32, imsi: u64, plmn: Octets3, a: AuthInfo): Slot {
    slot.(identity := Identity(imsi, enbId, ZERO_ADDR),
          security := Aka(a.rand, a.res, a.ck, a.ik, a.ak, plmn, a.sqnUsed),
          auth := ChallengeIssued)
  }

  function AuthResponse(env: Env, slot: Slot, id: u32, enbId: u32, res: Bytes): Out {
    if !slot.live then Nothing(slot)
    else
      var cleared := slot.(security := ClearChallenge(slot.security));
      if slot.security.pendingXres != res then Local(cleared.(auth := Failed(ResMismatch)), [], [], false)
      else Local(cleared.(auth := Authenticated), [S1ap.DownlinkNasTransport(id, enbId, env.secModeCmd)], [], false)
  }

  function Kasme(env: Env, a: Aka): S1ap.Octets32 {
    env.kasme(a.ck, a.ik, a.plmn, XorBytes(a.sqnUsed, a.ak))
  }

  // The context both algorithms of the selected pair are active in.
  function NewContext(env: Env, kasme: Bytes): NasCtx {
    var keys := env.nasKeys(kasme);
    NasCtx(keys.0, keys.1, true, true, 0, 0)
  }

  function SecurityModeDone(env: Env, upf: Option<Octets4>, slot: Slot, id: u32, enbId: u32, teid: u32): Out {
    if !slot.live then Nothing(slot)
    else
      var kasme := Kasme(env, slot.security);
      var ueIp := slot.identity.ueIp;
      var (ctx, accept) := EncodeProtected(env.crypto, Eps, NewContext(env, kasme), Downlink,
                                           SHT_INTEGRITY_CIPHERED, NAS_BEARER, env.attachAccept(ueIp));
      var active := slot.(security := ClearKeys(slot.security), nas := Some(ctx));
      match upf
      case Some(addr) =>
        Local(active.(tunnel := Some(Tunnel(teid, 0, ZERO_ADDR))),
              [S1ap.InitialContextSetupRequest(
                 id, enbId, [BearerToSetup(DEFAULT_ERAB_ID, DEFAULT_QCI, BE32(teid), addr)],
                 Some(accept), AMBR, AMBR, kasme)],
              [CreateSession(teid, id, slot.identity.imsi, ueIp, ZERO_ADDR, DEFAULT_QCI)], true)
      case None =>
        Local(active, [S1ap.DownlinkNasTransport(id, enbId, accept)], [], false)
  }

  function Detach(env: Env, slot: Slot, id: u32, enbId: u32, switchOff: bool): Out {
    var release := S1ap.UeContextReleaseCommand(id, enbId, S1ap.NasDetach);
    if !slot.live then Nothing(slot)
    else if switchOff then Local(slot, [release], [], false)
    else
      match slot.nas
      case None => Local(slot, [S1ap.DownlinkNasTransport(id, enbId, env.detachAccept), release], [], false)
      case Some(ctx) =>
        var (next, accept) := EncodeProtected(env.crypto, Eps, ctx, Downlink,
                                              SHT_INTEGRITY_CIPHERED, NAS_BEARER, env.detachAccept);
        Local(slot.(nas := Some(next)), [S1ap.DownlinkNasTransport(id, enbId, accept), release], [], false)
  }

  // Dispatch looks at the message, never at the procedure step the entity is in.
  function Dispatch(env: Env, upf: Option<Octets4>, slot: Slot, id: u32, enbId: u32, plain: Bytes, teid: u32): Out {
    match env.decode(plain)
    case AuthenticationResponse(res) => AuthResponse(env, slot, id, enbId, res)
    case SecurityModeComplete => SecurityModeDone(env, upf, slot, id, enbId, teid)
    case DetachRequest(switchOff) => Detach(env, slot, id, enbId, switchOff)
    case _ => Nothing(slot)
  }

  function UplinkNas(env: Env, upf: Option<Octets4>, slot: Slot, id: u32, enbId: u32, pdu: Bytes, teid: u32): Out {
    var sht := if pdu == [] then 0 else pdu[0] / 16;
    if sht == 0 then Dispatch(env, upf, slot, id, enbId, pdu, teid)
    else if !slot.live || slot.nas.None? then Nothing(slot)
    else
      var (ctx, inner) := DecodeProtected(env.crypto, Eps, slot.nas.value, Uplink, NAS_BEARER, pdu);
      var unwrapped := slot.(nas := Some(ctx));
      if inner.None? then Nothing(unwrapped)
      else Dispatch(env, upf, unwrapped, id, enbId, inner.value, teid)
  }

  // ---- One step of the node ----------------------------------------------------------------------

  // A message and the subscriber server's answer, if the step asks for one.
  datatype Input = Input(msg: S1ap.S1apMessage, auth: Option<AuthInfo>)

  datatype Result = Result(node: Node, out: seq<S1ap.S1apMessage>, events: seq<UpfEvent>)

  function Committed(s: Node, id: u32, l: Out): Result {
    Result(Commit(s, id, l), l.out, l.events)
  }

  function Attach(env: Env, s: Node, enbId: u32, imsi: u64, plmn: Octets3, a: AuthInfo): Result
    requires WorldInv(s.world)
  {
    var (w, id) := Spawn(s.world);
    var (entered, _) := Enter(s, AttachSlot(SlotOf(w, id), enbId, imsi, plmn, a));
    Result(entered.(registry := s.registry[imsi := id]),
           [S1ap.DownlinkNasTransport(id, enbId, env.authRequest(a.rand, Autn(a)))], [])
  }

  function Step(env: Env, s: Node, i: Input): Result
    requires WorldInv(s.world)
  {
    var teid := Alloc(s.teids).1;
    match i.msg
    case InitialUeMessage(enbId, nasPdu, tai, _, _) =>
      var imsi := Attaching(env, nasPdu, i.auth);
      if imsi.None? then Result(s, [], [])
      else Attach(env, s, enbId, imsi.value, tai[..3], i.auth.value)
    case UplinkNasTransport(id, enbId, pdu, _, _) =>
      Committed(s, id, UplinkNas(env, s.upf, SlotOf(s.world, id), id, enbId, pdu, teid))
    case InitialContextSetupResponse(id, _, setup, _) =>
      Committed(s, id, BearerUp(SlotOf(s.world, id), First(setup)))
    case UeContextReleaseComplete(id, _) =>
      var (node, events) := Releasing(s, id);
      Result(node, [], events)
    case _ => Result(s, [], [])
  }

  // ---- The object -----------------------------------------------------------------------------------

  class Mme {
    const env: Env
    const world: World
    const registry: ImsiRegistry
    const teids: TeidAllocator
    const phase3Upf: Option<Octets4>

    constructor (env: Env, phase3Upf: Option<Octets4>)
      ensures Valid() && fresh(world) && fresh(registry) && fresh(teids)
      ensures NodeState() == Node(NEW_WORLD, map[], Teids(TEID_BASE, []), phase3Upf)
      ensures this.env == env
    {
      this.env, this.phase3Upf := env, phase3Upf;
      world := new World();
      registry := new ImsiRegistry();
      teids := new TeidAllocator(TEID_BASE);
    }

    ghost predicate Valid()
      reads this, world
    {
      world.Valid()
    }

    function NodeState(): Node
      requires world.ColumnsAligned()
      reads this, world, registry, teids
    {
      Node(world.State(), registry.imsiMap, teids.State(), phase3Upf)
    }

    method ProcessS1ap(msg: S1ap.S1apMessage, auth: Option<AuthInfo>)
      returns (out: seq<S1ap.S1apMessage>, events: seq<UpfEvent>)
      requires Valid()
      modifies world, registry, teids
      ensures Valid()
      ensures Result(NodeState(), out, events) == Step(env, old(NodeState()), Input(msg, auth))
    {
      hide WorldInv, UplinkNas, Attach;
      match msg {
        case InitialUeMessage(enbId, nasPdu, tai, _, _) =>
          out, events := StartAttach(enbId, nasPdu, tai, auth);
        case UplinkNasTransport(mmeId, enbId, nasPdu, _, _) =>
          out, events := HandleUplinkNas(enbId, mmeId, nasPdu);
        case InitialContextSetupResponse(mmeId, _, setup, _) =>
          events := BearerUpEntity(world, mmeId, First(setup));
          out := [];
        case UeContextReleaseComplete(mmeId, _) =>
          events := ReleaseEntity(world, registry, teids, mmeId, phase3Upf);
          out := [];
        case _ =>
          out, events := [], [];
      }
    }

    method StartAttach(enbId: u32, nasPdu: Bytes, tai: S1ap.Octets5, auth: Option<AuthInfo>)
      returns (out: seq<S1ap.S1apMessage>, events: seq<UpfEvent>)
      requires Valid()
      modifies world, registry
      ensures Valid()
      ensures var imsi := Attaching(env, nasPdu, auth);
              Result(NodeState(), out, events) ==
              if imsi.None? then Result(old(NodeState()), [], [])
              else Attach(env, old(NodeState()), enbId, imsi.value, tai[..3], auth.value)
    {
      hide WorldInv;
      var plmn := tai[..3];
      var pdu := env.decode(nasPdu);
      if !pdu.AttachRequest? || pdu.imsi.None? {
        return [], [];
      }
      var imsi := pdu.imsi.value;
      if auth.None? {
        return [], [];
      }
      var a := auth.value;
      var autn := Autn(a);
      var entity := world.SpawnEntity();
      ghost var w := world.State();
      var _ := registry.Register(imsi, entity);
      world.InsertIdentity(entity, Identity(imsi, enbId, ZERO_ADDR));
      UpdateTwice(w, entity, SlotOf(w, entity).(identity := Identity(imsi, enbId, ZERO_ADDR)), SlotOf(w, entity));
      ghost var w1 := world.State();
      world.InsertSecurity(entity, Aka(a.rand, a.res, a.ck, a.ik, a.ak, plmn, a.sqnUsed));
      ghost var w2 := world.State();
      UpdateTwice(w, entity, SlotOf(w1, entity), SlotOf(w2, entity));
      world.SetAuth(entity, ChallengeIssued);
      SpawnedLives(old(world.State()));
      SetterChain(w, entity, Identity(imsi, enbId, ZERO_ADDR),
                  Aka(a.rand, a.res, a.ck, a.ik, a.ak, plmn, a.sqnUsed));
      var nas := env.authRequest(a.rand, autn);
      return [S1ap.DownlinkNasTransport(entity, enbId, nas)], [];
    }

    method HandleUplinkNas(enbId: u32, mmeId: u32, nasPdu: Bytes)
      returns (out: seq<S1ap.S1apMessage>, events: seq<UpfEvent>)
      requires Valid()
      modifies world, teids
      ensures Valid()
      ensures var s := old(NodeState());
              Result(NodeState(), out, events) ==
              Committed(s, mmeId, UplinkNas(env, s.upf, SlotOf(s.world, mmeId), mmeId, enbId, nasPdu, Alloc(s.teids).1))
    {
      hide WorldInv, Dispatch, DecodeProtected;
      ghost var w := world.State();
      var sht := if nasPdu == [] then 0 else nasPdu[0] / 16;
      var plain := nasPdu;
      if sht != 0 {
        var ctx := world.GetNas(mmeId);
        if ctx.None? {
          UpdateNothing(w, mmeId);
          return [], [];
        }
        var r := DecodeProtected(env.crypto, Eps, ctx.value, Uplink, NAS_BEARER, nasPdu);
        world.SetNas(mmeId, r.0);
        if r.1.None? {
          return [], [];
        }
        plain := r.1.value;
      } else {
        UpdateNothing(w, mmeId);
      }
      ghost var unwrapped := world.State();
      out, events := DispatchNas(enbId, mmeId, plain);
      ghost var s := old(NodeState());
      ghost var slot := SlotOf(unwrapped, mmeId);
      ghost var l := Dispatch(env, s.upf, slot, mmeId, enbId, plain, Alloc(s.teids).1);
      UpdateTwice(w, mmeId, slot, l.slot);
      assert unwrapped == Update(w, mmeId, slot);
    }

    method DispatchNas(enbId: u32, mmeId: u32, plain: Bytes)
      returns (out: seq<S1ap.S1apMessage>, events: seq<UpfEvent>)
      requires Valid()
      modifies world, teids
      ensures Valid()
      ensures var s := old(NodeState());
              Result(NodeState(), out, events) ==
              Committed(s, mmeId, Dispatch(env, s.upf, SlotOf(s.world, mmeId), mmeId, enbId, plain, Alloc(s.teids).1))
    {
      hide WorldInv, AuthResponse, SecurityModeDone, Detach;
      match env.decode(plain) {
        case AuthenticationResponse(res) =>
          out := HandleAuthResponse(enbId, mmeId, res);
          events := [];
          AuthResponseQuiet(env, SlotOf(old(world.State()), mmeId), mmeId, enbId, res);
        case SecurityModeComplete =>
          out, events := HandleSecurityModeComplete(enbId, mmeId);
        case DetachRequest(switchOff) =>
          out := HandleDetachRequest(enbId, mmeId, switchOff);
          events := [];
          DetachQuiet(env, SlotOf(old(world.State()), mmeId), mmeId, enbId, switchOff);
        case _ =>
          UpdateNothing(world.State(), mmeId);
          out, events := [], [];
      }
    }

    method HandleAuthResponse(enbId: u32, mmeId: u32, res: Bytes) returns (out: seq<S1ap.S1apMessage>)
      requires Valid()
      modifies world
      ensures Valid()
      ensures var l := AuthResponse(env, SlotOf(old(world.State()), mmeId), mmeId, enbId, res);
              world.State() == Update(old(world.State()), mmeId, l.slot) && out == l.out
    {
      hide WorldInv;
      ghost var w := world.State();
      ghost var slot := SlotOf(w, mmeId);
      var sec := world.GetSecurity(mmeId);
      if sec.None? {
        UpdateNothing(w, mmeId);
        return [];
      }
      var matched := sec.value.pendingXres == res;
      world.InsertSecurity(mmeId, ClearChallenge(sec.value));
      ghost var cleared := slot.(security := ClearChallenge(sec.value));
      if !matched {
        UpdateTwice(w, mmeId, cleared, cleared.(auth := Failed(ResMismatch)));
        world.SetAuth(mmeId, Failed(ResMismatch));
        return [];
      }
      UpdateTwice(w, mmeId, cleared, cleared.(auth := Authenticated));
      world.SetAuth(mmeId, Authenticated);
      out := [S1ap.DownlinkNasTransport(mmeId, enbId, env.secModeCmd)];
    }

    method HandleSecurityModeComplete(enbId: u32, mmeId: u32)
      returns (out: seq<S1ap.S1apMessage>, events: seq<UpfEvent>)
      requires Valid()
      modifies world, teids
      ensures Valid()
      ensures var s := old(NodeState());
              Result(NodeState(), out, events) ==
              Committed(s, mmeId, SecurityModeDone(env, s.upf, SlotOf(s.world, mmeId), mmeId, enbId, Alloc(s.teids).1))
    {
      hide WorldInv, EncodeProtected, Alloc;
      ghost var w := world.State();
      ghost var slot := SlotOf(w, mmeId);
      var identity := world.GetIdentity(mmeId);
      if identity.None? {
        UpdateNothing(w, mmeId);
        return [], [];
      }
      var imsi, ueIp := identity.value.imsi, identity.value.ueIp;
      var sec := world.GetSecurity(mmeId);
      if sec.None? {
        UpdateNothing(w, mmeId);
        return [], [];
      }
      var kasme := env.kasme(sec.value.ck, sec.value.ik, sec.value.plmn, XorBytes(sec.value.sqnUsed, sec.value.ak));
      world.InsertSecurity(mmeId, ClearKeys(sec.value));
      ghost var s1 := slot.(security := ClearKeys(sec.value));
      var r := EncodeProtected(env.crypto, Eps, NewContext(env, kasme), Downlink,
                               SHT_INTEGRITY_CIPHERED, NAS_BEARER, env.attachAccept(ueIp));
      ghost var s2 := s1.(nas := Some(r.0));
      UpdateTwice(w, mmeId, s1, s2);
      if phase3Upf.Some? {
        var ulTeid := teids.AllocTeid();
        world.SetNas(mmeId, r.0);
        UpdateTwice(w, mmeId, s2, s2.(tunnel := Some(Tunnel(ulTeid, 0, ZERO_ADDR))));
        world.SetTunnel(mmeId, Tunnel(ulTeid, 0, ZERO_ADDR));
        out := [S1ap.InitialContextSetupRequest(
                  mmeId, enbId, [BearerToSetup(DEFAULT_ERAB_ID, DEFAULT_QCI, BE32(ulTeid), phase3Upf.value)],
                  Some(r.1), AMBR, AMBR, kasme)];
        events := [CreateSession(ulTeid, mmeId, imsi, ueIp, ZERO_ADDR, DEFAULT_QCI)];
      } else {
        world.SetNas(mmeId, r.0);
        out, events := [S1ap.DownlinkNasTransport(mmeId, enbId, r.1)], [];
      }
    }

    method HandleDetachRequest(enbId: u32, mmeId: u32, switchOff: bool) returns (out: seq<S1ap.S1apMessage>)
      requires Valid()
      modifies world
      ensures Valid()
      ensures var l := Detach(env, SlotOf(old(world.State()), mmeId), mmeId, enbId, switchOff);
              world.State() == Update(old(world.State()), mmeId, l.slot) && out == l.out
    {
      hide WorldInv, EncodeProtected;
      UpdateNothing(world.State(), mmeId);
      var alive := world.Alive(mmeId);
      if !alive {
        return [];
      }
      out := [];
      if !switchOff {
        var nasPduOut := env.detachAccept;
        var ctx := world.GetNas(mmeId);
        if ctx.Some? {
          var r := EncodeProtected(env.crypto, Eps, ctx.value, Downlink,
                                   SHT_INTEGRITY_CIPHERED, NAS_BEARER, env.detachAccept);
          world.SetNas(mmeId, r.0);
          nasPduOut := r.1;
        }
        out := out + [S1ap.DownlinkNasTransport(mmeId, enbId, nasPduOut)];
      }
      out := out + [S1ap.UeContextReleaseCommand(mmeId, enbId, S1ap.NasDetach)];
    }
  }

  lemma AuthResponseQuiet(env: Env, slot: Slot, id: u32, enbId: u32, res: Bytes)
    ensures var l := AuthResponse(env, slot, id, enbId, res);
            l.events == [] && !l.took
  {
  }

  lemma DetachQuiet(env: Env, slot: Slot, id: u32, enbId: u32, switchOff: bool)
    ensures var l := Detach(env, slot, id, enbId, switchOff);
            l.events == [] && !l.took
  {
  }

  // The three setters of an attach amount to one.
  lemma SetterChain(w: WorldState, id: u32, identity: Identity, aka: Aka)
    requires IsLive(w, id)
    ensures var w1 := Update(w, id, SlotOf(w, id).(identity := identity));
            var w2 := Update(w1, id, SlotOf(w1, id).(security := aka));
            Update(w2, id, SlotOf(w2, id).(auth := ChallengeIssued)) ==
            Update(w, id, SlotOf(w, id).(identity := identity, security := aka, auth := ChallengeIssued))
  {
    var s1 := SlotOf(w, id).(identity := identity);
    var s2 := s1.(security := aka);
    UpdateTwice(w, id, s1, s2);
    UpdateTwice(w, id, s2, s2.(auth := ChallengeIssued));
  }
}
