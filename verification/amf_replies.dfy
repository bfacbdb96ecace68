// What the AMF answers to each message and leaves behind, with every field and every octet of
// its own making written out, and what its security contexts keep out.
module AmfReplies {
  import opened Bits
  import opened NasSecurity
  import opened NasWire
  import opened Ecs
  import opened Upf
  import opened Control
  import opened BearerLists
  import opened AmfNode
  import opened AmfRuns
  import opened AmfIsolation
  import opened AmfProcedures
  import opened AmfLimits
  import Locality
  import Ngap = NgapCodec

  // ---- Registration and identity ---------------------------------------------------------------

  // A registration without a GUTI takes a fresh id and draws the identity request; anything else
  // draws nothing and changes nothing.
  lemma RegistrationReplies(env: Env, s: Node, i: Input)
    requires WorldInv(s.world) && i.msg.InitialUeMessage? && HasRoom(env, s, i)
    ensures var n, pdu := Step(env, s, i), env.decode(i.msg.nasPdu);
            if !pdu.RegistrationRequest? || pdu.hasGuti then n == Result(s, [], [])
            else
              var id := Spawn(s.world).1;
              var slot := SlotOf(n.node.world, id);
              && !IsLive(s.world, id) && IsLive(n.node.world, id) && n.node.registry == s.registry
              && n.node.teids == s.teids && n.node.upf == s.upf && n.events == []
              && n.out == [Ngap.DownlinkNasTransport(id, i.msg.ranId, env.identityRequest)]
              && slot.identity == Identity(0, i.msg.ranId, [0, 0, 0, 0]) && slot.auth == Unauthenticated
              && slot.security5g.plmn == i.msg.tai[..3] && slot.security5g.pendingXres == ZeroBytes(16)
              && slot.nas5g == None && slot.tunnel == None
  {
    var pdu := env.decode(i.msg.nasPdu);
    if pdu.RegistrationRequest? && !pdu.hasGuti {
      SpawnIsFresh(s.world);
      EnterIsLocal(s, RegisterSlot(Blank().(live := true), i.msg.ranId, i.msg.tai[..3]));
      DeadIsBlank(s.world, Spawn(s.world).1);
    }
  }

  // The IMSI of a null-scheme SUCI: its five MSIN octets read as one number, the first on top.
  lemma SuciResolves(suci: Suci)
    ensures var m0: int, m1: int, m2: int, m3: int, m4: int :=
              suci.msin[0], suci.msin[1], suci.msin[2], suci.msin[3], suci.msin[4];
            ResolveSuci(suci) ==
            if suci.protectionScheme != 0 then None
            else Some(0x1_0000_0000 * m0 + 0x100_0000 * m1 + 0x1_0000 * m2 + 0x100 * m3 + m4)
  {
  }

  // An identity response with a null-scheme SUCI that the subscriber server knows re-identifies
  // the entity, indexes it and challenges it; any other draws nothing and changes nothing.
  lemma IdentityReplies(env: Env, s: Node, i: Input, moved: Slot, plain: Bytes)
    requires WorldInv(s.world) && i.msg.UplinkNasTransport? && IsLive(s.world, i.msg.amfId)
    requires Unwrap(env, SlotOf(s.world, i.msg.amfId), i.msg.nasPdu) == (moved, Some(plain))
    requires env.decode(plain).IdentityResponse?
    ensures var n, id, suci := Step(env, s, i), i.msg.amfId, env.decode(plain).suci;
            && n.events == [] && n.node.teids == s.teids
            && if suci.None? || i.auth.None? || suci.value.protectionScheme != 0 then
                 n.out == [] && n.node.registry == s.registry && SlotOf(n.node.world, id) == moved
               else
                 var a, imsi, plmn := i.auth.value, ResolveSuci(suci.value).value, moved.security5g.plmn;
                 && n.out == [Ngap.DownlinkNasTransport(id, i.msg.ranId, env.authRequest(a.rand, Autn(a)))]
                 && n.node.registry == s.registry[imsi := id]
                 && SlotOf(n.node.world, id) == moved.(
                      identity := Identity(imsi, i.msg.ranId, [0, 0, 0, 0]), auth := ChallengeIssued,
                      security5g := Aka(a.rand, env.resStar(a.ck, a.ik, plmn, a.rand, a.res), a.ck, a.ik, a.ak, plmn,
                                        a.sqnUsed))
  {
    hide WorldInv, Unwrap, Autn;
    var slot, id := SlotOf(s.world, i.msg.amfId), i.msg.amfId;
    assert moved.live by { UnwrapKeepsAuth(env, slot, i.msg.nasPdu); }
    var l := IdentityDone(env, moved, id, i.msg.ranId, env.decode(plain).suci, i.auth);
    UpdateFrame(s.world, id, l.slot);
  }

  // At power-on nobody is there, nothing is indexed, and the TEID on offer is 131072.
  lemma PowerOn(upf: Option<Octets4>, kernel: Option<Kernel>)
    ensures var node := NewSystem(upf, kernel).node;
            && (forall id: u32 :: !IsLive(node.world, id)) && node.registry == map[] && node.upf == upf
            && Alloc(node.teids) == (Teids(131073, []), 131072) && NewSystem(upf, kernel).up.sessions == map[]
  {
  }

  // ---- Authentication ------------------------------------------------------------------------------

  // The right answer draws the security mode command, a wrong one nothing; both clear the
  // challenge.
  lemma AuthenticationReplies(
    env: Env, upf: Option<Octets4>, slot: Slot, id: u32, ranId: u32, plain: Bytes, res: Bytes,
    auth: Option<AuthInfo>, teid: u32)
    requires slot.live && env.decode(plain) == AuthenticationResponse(res)
    ensures var l := Dispatch(env, upf, slot, id, ranId, plain, auth, teid);
            var a := slot.security5g;
            && l.slot == slot.(auth := if res == a.pendingXres then Authenticated else Failed(ResMismatch),
                               security5g := a.(pendingRand := ZeroBytes(|a.pendingRand|),
                                              pendingXres := ZeroBytes(|a.pendingXres|)))
            && l.out == (if res == a.pendingXres then [Ngap.DownlinkNasTransport(id, ranId, env.secModeCmd)] else [])
            && l.events == [] && !l.took
  {
  }

  // ---- Security mode -------------------------------------------------------------------------------

  // The first protected downlink message under a pair of keys: discriminator 0x7E, security header
  // type 2, the CMAC of direction, COUNT 0 and the ciphertext, COUNT 0, and the text under the
  // keystream of COUNT 0.
  ghost predicate FirstProtected(env: Env, keys: (Bytes, Bytes), sent: Bytes, text: Bytes) {
    && |sent| == 7 + |text| && sent[0] == 0x7E && sent[1] == 2 && sent[6] == 0
    && sent[2..6] == env.crypto.cmac(keys.1, [0, 0, 0, 0, 4] + sent[7..])
    && forall i :: 0 <= i < |text| ==>
         sent[7..][i] == XorByte(text[i], env.crypto.ctr(keys.0, [0, 0, 0, 0, 4, 0, 0, 0, 0, 0, 0, 0, 0, 0, 0, 0], i))
  }

  lemma FirstInputs(message: Bytes)
    ensures CounterBlock(0, NAS_BEARER, Downlink) == [0, 0, 0, 0, 4, 0, 0, 0, 0, 0, 0, 0, 0, 0, 0, 0]
    ensures MacInput(0, NAS_BEARER, Downlink, message) == [0, 0, 0, 0, 4] + message
  {
  }

  lemma FirstIsProtected(env: Env, keys: (Bytes, Bytes), text: Bytes)
    ensures var sent := EncodeProtected(env.crypto, FiveGs, NasCtx(keys.0, keys.1, true, true, 0, 0), Downlink,
                                        SHT_INTEGRITY_CIPHERED, NAS_BEARER, text);
            FirstProtected(env, keys, sent.1, text) && sent.0 == NasCtx(keys.0, keys.1, true, true, 1, 0)
  {
    var ctx := NasCtx(keys.0, keys.1, true, true, 0, 0);
    EnvelopeLayout(env.crypto, FiveGs, ctx, Downlink, SHT_INTEGRITY_CIPHERED, NAS_BEARER, text);
    var sent := EncodeProtected(env.crypto, FiveGs, ctx, Downlink, SHT_INTEGRITY_CIPHERED, NAS_BEARER, text).1;
    FirstInputs(sent[7..]);
    hide EncodeProtected, CounterBlock, MacInput, XorByte;
  }

  // Main result. Completing security mode installs a context that ciphers and MACs under keys
  // derived from this subscriber's vector, sends the accept under it, and, where there is a user
  // plane, asks for the bearer whose session it creates.
  lemma SecurityModeReplies(
    env: Env, upf: Option<Octets4>, slot: Slot, id: u32, ranId: u32, plain: Bytes, auth: Option<AuthInfo>, teid: u32)
    requires slot.live && env.decode(plain) == SecurityModeComplete
    ensures var l := Dispatch(env, upf, slot, id, ranId, plain, auth, teid);
            var a := slot.security5g;
            var kamf := env.kamf(a.ck, a.ik, a.plmn, XorBytes(a.sqnUsed, a.ak), slot.identity.imsi);
            var keys := env.nasKeys(kamf);
            var ctx := NasCtx(keys.0, keys.1, true, true, 1, 0);
            var text := env.registrationAccept([2, 0, 0, 0, 0, 0, 0] + BE32(id));
            var cleared := a.(ck := ZeroBytes(|a.ck|), ik := ZeroBytes(|a.ik|), ak := [0, 0, 0, 0, 0, 0]);
            && |l.out| == 1
            && match upf
               case Some(addr) =>
                 && l.out[0].InitialContextSetupRequest? && l.out[0].nasPduOpt.Some?
                 && FirstProtected(env, keys, l.out[0].nasPduOpt.value, text)
                 && l.out[0] == Ngap.InitialContextSetupRequest(
                      id, ranId, [BearerToSetup(1, 1, BE32(teid), addr)], l.out[0].nasPduOpt,
                      50000000, 50000000, kamf)
                 && l.events == [CreateSession(teid, id, slot.identity.imsi, [10, 45, id / 256 % 256, id % 256],
                                              [0, 0, 0, 0], 1)]
                 && l.took
                 && l.slot == slot.(security5g := cleared, nas5g := Some(ctx),
                                    tunnel := Some(Tunnel(teid, 0, [0, 0, 0, 0])))
               case None =>
                 && l.out[0].DownlinkNasTransport? && l.out[0].amfId == id && l.out[0].ranId == ranId
                 && FirstProtected(env, keys, l.out[0].nasPdu, text)
                 && l.events == [] && !l.took && l.slot == slot.(security5g := cleared, nas5g := Some(ctx))
  {
    var a := slot.security5g;
    var kamf := env.kamf(a.ck, a.ik, a.plmn, XorBytes(a.sqnUsed, a.ak), slot.identity.imsi);
    FirstIsProtected(env, env.nasKeys(kamf), env.registrationAccept([2, 0, 0, 0, 0, 0, 0] + BE32(id)));
    hide EncodeProtected, FirstProtected, XorBytes, BE32;
    assert ZeroBytes(6) == [0, 0, 0, 0, 0, 0];
  }

  // ---- Deregistration --------------------------------------------------------------------------------------

  // Main result. Switching off draws the release command alone. Otherwise the accept goes first,
  // under the entity's context if it has one, where a UE in step opens it, and in the clear if not.
  lemma DeregistrationReplies(
    env: Env, upf: Option<Octets4>, slot: Slot, id: u32, ranId: u32, plain: Bytes, switchOff: bool,
    auth: Option<AuthInfo>, teid: u32, ue: NasCtx)
    requires slot.live && env.decode(plain) == DeregistrationRequest(switchOff)
    requires slot.nas5g.Some? ==> Paired(ue, slot.nas5g.value) && ue.dl == slot.nas5g.value.dl
    ensures var l := Dispatch(env, upf, slot, id, ranId, plain, auth, teid);
            var release := Ngap.UeContextReleaseCommand(id, ranId, Ngap.NasDeregister);
            && l.events == [] && !l.took
            && (switchOff ==> l.out == [release] && l.slot == slot)
            && (!switchOff ==>
                  && |l.out| == 2 && l.out[1] == release
                  && l.out[0].DownlinkNasTransport? && l.out[0].amfId == id && l.out[0].ranId == ranId
                  && (slot.nas5g.None? ==> l.out[0].nasPdu == env.deregistrationAccept && l.slot == slot)
                  && (slot.nas5g.Some? ==>
                        var dl := (slot.nas5g.value.dl + 1) % 0x1_0000_0000;
                        && l.slot == slot.(nas5g := Some(slot.nas5g.value.(dl := dl)))
                        && DecodeProtected(env.crypto, FiveGs, ue, Downlink, NAS_BEARER, l.out[0].nasPdu) ==
                           (ue.(dl := dl), Some(env.deregistrationAccept))))
  {
    if slot.nas5g.Some? && !switchOff {
      var ctx := slot.nas5g.value;
      DeliverAcrossGap(env.crypto, FiveGs, ctx, ue, Downlink, SHT_INTEGRITY_CIPHERED, NAS_BEARER,
                       env.deregistrationAccept, 0);
      SenderMovesOne(env.crypto, FiveGs, ctx, SHT_INTEGRITY_CIPHERED, env.deregistrationAccept);
    }
    hide EncodeProtected, DecodeProtected;
  }

  // ---- Everything else -----------------------------------------------------------------------------

  // No other NAS message, and nothing for an entity that is not there, draws an answer.
  lemma OthersDrawNothing(
    env: Env, upf: Option<Octets4>, slot: Slot, id: u32, ranId: u32, plain: Bytes, auth: Option<AuthInfo>, teid: u32)
    requires !slot.live || env.decode(plain).RegistrationRequest? || env.decode(plain).RegistrationComplete?
             || env.decode(plain).OtherOrMalformed?
    ensures Dispatch(env, upf, slot, id, ranId, plain, auth, teid) == Local(slot, [], [], false)
  {
  }

  // The first bearer of a setup response retargets the tunnel and its session; the release ends
  // session and index entry; both without an answer. Messages for gNBs are ignored.
  lemma BearerAndReleaseReplies(env: Env, s: Node, i: Input)
    requires WorldInv(s.world)
    ensures var n := Step(env, s, i);
            && (i.msg.InitialContextSetupResponse? && TunnelOf(s.world, i.msg.amfId).Some? && i.msg.setup != [] ==>
                  var t := TunnelOf(s.world, i.msg.amfId).value;
                  var first := i.msg.setup[0];
                  && n.out == [] && n.events == [UpdateBearer(t.ulTeid, Number(first.gtpTeid), first.transportAddr)]
                  && TunnelOf(n.node.world, i.msg.amfId) ==
                     Some(Tunnel(t.ulTeid, Number(first.gtpTeid), first.transportAddr)))
            && (i.msg.UeContextReleaseComplete? && IsLive(s.world, i.msg.amfId) ==>
                  var slot := SlotOf(s.world, i.msg.amfId);
                  && n.out == [] && !IsLive(n.node.world, i.msg.amfId)
                  && n.node.registry == s.registry - {slot.identity.imsi}
                  && (slot.tunnel.None? ==> n.events == [] && n.node.teids == s.teids)
                  && (slot.tunnel.Some? ==>
                        && n.events == [RemoveSession(slot.tunnel.value.ulTeid)]
                        && n.node.teids.free == s.teids.free + [slot.tunnel.value.ulTeid]
                        && n.node.teids.next == s.teids.next))
            && (!i.msg.InitialUeMessage? && !i.msg.UplinkNasTransport? && !i.msg.InitialContextSetupResponse?
                && !i.msg.UeContextReleaseComplete? ==>
                  n == Result(s, [], []))
  {
    hide WorldInv;
    match i.msg
    case InitialContextSetupResponse(id, _, setup, _) =>
      UpdateFrame(s.world, id, BearerUp<Ngap.NgapMessage>(SlotOf(s.world, id), First(setup)).slot);
    case UeContextReleaseComplete(id, _) =>
      DespawnFrame(s.world, id);
    case _ =>
  }

  // ---- What the contexts keep out ------------------------------------------------------------------

  // A protected uplink message that the entity's context does not vouch for: its MAC octets are
  // not the CMAC, under the entity's integrity key, of the COUNT its low octet stands for, the
  // uplink direction and the ciphertext.
  ghost predicate Forged(env: Env, ctx: NasCtx, pdu: Bytes) {
    && |pdu| >= 2 && pdu[1] % 16 != 0
    && (|pdu| >= 7 && pdu[0] == 0x7E ==> MacIsWrong(env, ctx, pdu))
  }

  ghost predicate MacIsWrong(env: Env, ctx: NasCtx, pdu: Bytes)
    requires |pdu| >= 7
  {
    var count := ReconstructCount(ctx.ul, pdu[6]);
    pdu[2..6] != env.crypto.cmac(ctx.kInt, BE32(count) + [0] + pdu[7..])
  }

  lemma ForgedIsRejected(env: Env, ctx: NasCtx, pdu: Bytes)
    requires ctx.integrity && Forged(env, ctx, pdu)
    ensures DecodeProtected(env.crypto, FiveGs, ctx, Uplink, NAS_BEARER, pdu) == (ctx, None)
  {
    AcceptedExactly(env.crypto, FiveGs, ctx, Uplink, NAS_BEARER, pdu);
    hide DecodeProtected, ReconstructCount, BE32;
    if |pdu| >= 7 {
      UplinkInput(ReconstructCount(ctx.ul, pdu[6]), pdu[7..]);
    }
  }

  lemma UplinkInput(count: u32, message: Bytes)
    ensures MacInput(count, NAS_BEARER, Uplink, message) == BE32(count) + [0] + message
  {
    hide BE32;
  }

  // Every live entity's context ciphers and MACs.
  ghost predicate ContextsProtect(w: WorldState) {
    forall id: u32 :: SlotOf(w, id).nas5g.Some? ==>
      SlotOf(w, id).nas5g.value.ciphered && SlotOf(w, id).nas5g.value.integrity
  }

  // A context's keys are those its entity was given when it completed security mode, and both
  // algorithms stay on.
  lemma KeysComeFromSetup(env: Env, upf: Option<Octets4>, slot: Slot, id: u32, i: Input, teid: u32)
    requires LocalStep(env, upf, slot, id, i, teid).slot.nas5g.Some?
    ensures var next := LocalStep(env, upf, slot, id, i, teid).slot.nas5g.value;
            || (slot.nas5g.Some? && Paired(next, slot.nas5g.value))
            || (i.msg.UplinkNasTransport? && slot.live && next.ciphered && next.integrity
                && var plain := Unwrap(env, slot, i.msg.nasPdu).1;
                   plain.Some? && env.decode(plain.value) == SecurityModeComplete
                   && (next.kEnc, next.kInt) == SetupKeys(env, slot))
  {
    hide Dispatch, Unwrap;
    if i.msg.UplinkNasTransport? {
      var (moved, plain) := Unwrap(env, slot, i.msg.nasPdu);
      UnwrapKeepsKeys(env, slot, i.msg.nasPdu);
      if plain.Some? {
        DispatchKeys(env, upf, moved, id, i.msg.ranId, plain.value, i.auth, teid);
      }
    }
  }

  lemma UnwrapKeepsKeys(env: Env, slot: Slot, pdu: Bytes)
    ensures var moved := Unwrap(env, slot, pdu).0;
            && moved.live == slot.live && moved.security5g == slot.security5g && moved.identity == slot.identity
            && moved.nas5g.Some? == slot.nas5g.Some?
            && (slot.nas5g.Some? ==> Paired(moved.nas5g.value, slot.nas5g.value))
  {
    if slot.nas5g.Some? {
      OnlyAcceptedEnvelopesMoveCount(env.crypto, FiveGs, slot.nas5g.value, Uplink, NAS_BEARER, pdu);
    }
    hide DecodeProtected;
  }

  function SetupKeys(env: Env, slot: Slot): (Bytes, Bytes) {
    var a := slot.security5g;
    env.nasKeys(env.kamf(a.ck, a.ik, a.plmn, XorBytes(a.sqnUsed, a.ak), slot.identity.imsi))
  }

  lemma DispatchKeys(
    env: Env, upf: Option<Octets4>, slot: Slot, id: u32, ranId: u32, plain: Bytes, auth: Option<AuthInfo>, teid: u32)
    requires Dispatch(env, upf, slot, id, ranId, plain, auth, teid).slot.nas5g.Some?
    ensures var next := Dispatch(env, upf, slot, id, ranId, plain, auth, teid).slot.nas5g.value;
            || (slot.nas5g.Some? && Paired(next, slot.nas5g.value))
            || (slot.live && env.decode(plain) == SecurityModeComplete && next.ciphered && next.integrity
                && (next.kEnc, next.kInt) == SetupKeys(env, slot))
  {
    match env.decode(plain)
    case SecurityModeComplete =>
      if slot.live {
        SecurityModeReplies(env, upf, slot, id, ranId, plain, auth, teid);
      }
    case DeregistrationRequest(switchOff) =>
      if slot.nas5g.Some? {
        SenderMovesOne(env.crypto, FiveGs, slot.nas5g.value, SHT_INTEGRITY_CIPHERED, env.deregistrationAccept);
      }
      hide EncodeProtected;
    case _ =>
  }

  lemma LocalKeepsProtection(env: Env, upf: Option<Octets4>, slot: Slot, id: u32, i: Input, teid: u32)
    requires slot.nas5g.Some? ==> slot.nas5g.value.ciphered && slot.nas5g.value.integrity
    ensures var l := LocalStep(env, upf, slot, id, i, teid);
            l.slot.nas5g.Some? ==> l.slot.nas5g.value.ciphered && l.slot.nas5g.value.integrity
  {
    hide LocalStep;
    if LocalStep(env, upf, slot, id, i, teid).slot.nas5g.Some? {
      KeysComeFromSetup(env, upf, slot, id, i, teid);
    }
  }

  lemma StepKeepsProtection(env: Env, s: Node, i: Input)
    requires WorldInv(s.world) && HasRoom(env, s, i) && ContextsProtect(s.world)
    ensures ContextsProtect(Step(env, s, i).node.world)
  {
    hide WorldInv, Step, HasRoom, LocalStep, SlotOf, Addressed;
    StepIsLocal(env, s, i);
    if Addressed(env, s, i).Some? {
      var id := Addressed(env, s, i).value;
      LocalKeepsProtection(env, s.upf, SlotOf(s.world, id), id, i, Alloc(s.teids).1);
    }
  }

  lemma {:induction false} RunKeepsProtection(env: Env, sys: System, inputs: seq<Input>)
    requires WorldInv(sys.node.world) && ContextsProtect(sys.node.world)
    requires |Run(env, sys, inputs).node.world.slots| <= 0x1_0000_0000
    ensures WorldInv(Run(env, sys, inputs).node.world) && ContextsProtect(Run(env, sys, inputs).node.world)
    decreases |inputs|
  {
    hide WorldInv, Step, ContextsProtect, HasRoom;
    if inputs != [] {
      var n := SysStep(env, sys, inputs[0]);
      SlotsOnlyGrow(env, n, inputs[1..]);
      StepHasRoom(env, sys.node, inputs[0]);
      StepKeepsProtection(env, sys.node, inputs[0]);
      RunKeepsProtection(env, n, inputs[1..]);
    }
  }

  // Main result. After any run from power-on, a forged message to an entity that has a context,
  // and a protected one to an entity that has none, changes nothing anywhere and draws nothing.
  lemma ForgedChangesNothing(
    env: Env, upf: Option<Octets4>, kernel: Option<Kernel>, inputs: seq<Input>, i: Input)
    requires |Run(env, NewSystem(upf, kernel), inputs).node.world.slots| <= 0x1_0000_0000
    requires i.msg.UplinkNasTransport? && |i.msg.nasPdu| >= 2 && i.msg.nasPdu[1] % 16 != 0
    requires var slot := SlotOf(Run(env, NewSystem(upf, kernel), inputs).node.world, i.msg.amfId);
             slot.nas5g.Some? ==> Forged(env, slot.nas5g.value, i.msg.nasPdu)
    ensures WorldInv(Run(env, NewSystem(upf, kernel), inputs).node.world)
    ensures var sys := Run(env, NewSystem(upf, kernel), inputs);
            && SysStep(env, sys, i) == sys
            && Step(env, sys.node, i).out == [] && Step(env, sys.node, i).events == []
  {
    var sys := Run(env, NewSystem(upf, kernel), inputs);
    StartProtects(upf, kernel);
    RunKeepsProtection(env, NewSystem(upf, kernel), inputs);
    var slot := SlotOf(sys.node.world, i.msg.amfId);
    if slot.nas5g.Some? {
      ForgedIsRejected(env, slot.nas5g.value, i.msg.nasPdu);
    }
    hide WorldInv, DecodeProtected, Dispatch, Run, ContextsProtect, Forged;
    UpdateNothing(sys.node.world, i.msg.amfId);
  }

  lemma StartProtects(upf: Option<Octets4>, kernel: Option<Kernel>)
    ensures ContextsProtect(NewSystem(upf, kernel).node.world)
  {
  }
}
