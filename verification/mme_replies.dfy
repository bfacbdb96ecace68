// What the MME answers to each message and leaves behind, with every field and every octet of
// its own making written out, and what its security contexts keep out.
module MmeReplies {
  import opened Bits
  import opened NasSecurity
  import opened NasWire
  import opened Ecs
  import opened Upf
  import opened Control
  import opened BearerLists
  import opened MmeNode
  import opened MmeRuns
  import opened MmeIsolation
  import opened MmeProcedures
  import opened MmeLimits
  import Locality
  import S1ap = S1apCodec

  // ---- Attach --------------------------------------------------------------------------------------

  // (SQN xor AK), then the separation bit and a zero, then MAC-A.
  lemma AutnLayout(a: AuthInfo)
    ensures var autn := Autn(a);
            && |autn| == 8 + |a.macA| && autn[6] == 0x80 && autn[7] == 0 && autn[8..] == a.macA
            && forall i :: 0 <= i < 6 ==> autn[i] == XorByte(a.sqnUsed[i], a.ak[i])
  {
    hide XorByte;
  }

  // An attach the subscriber server can answer takes a fresh id, is indexed under its IMSI, and
  // draws one challenge; anything else draws nothing and changes nothing.
  lemma AttachReplies(env: Env, s: Node, i: Input)
    requires WorldInv(s.world) && i.msg.InitialUeMessage? && HasRoom(env, s, i)
    ensures var n, pdu := Step(env, s, i), env.decode(i.msg.nasPdu);
            if !pdu.AttachRequest? || pdu.imsi.None? || i.auth.None? then n == Result(s, [], [])
            else
              var a, imsi, id := i.auth.value, pdu.imsi.value, Spawn(s.world).1;
              var slot := SlotOf(n.node.world, id);
              && !IsLive(s.world, id) && IsLive(n.node.world, id) && n.node.registry == s.registry[imsi := id]
              && n.node.teids == s.teids && n.node.upf == s.upf && n.events == []
              && n.out == [S1ap.DownlinkNasTransport(id, i.msg.enbId, env.authRequest(a.rand, Autn(a)))]
              && slot.identity == Identity(imsi, i.msg.enbId, [0, 0, 0, 0]) && slot.auth == ChallengeIssued
              && slot.security == Aka(a.rand, a.res, a.ck, a.ik, a.ak, i.msg.tai[..3], a.sqnUsed)
              && slot.nas == None && slot.tunnel == None
  {
    hide Autn;
    var pdu := env.decode(i.msg.nasPdu);
    if pdu.AttachRequest? && pdu.imsi.Some? && i.auth.Some? {
      SpawnIsFresh(s.world);
      EnterIsLocal(s, AttachSlot(Blank().(live := true), i.msg.enbId, pdu.imsi.value, i.msg.tai[..3], i.auth.value));
      DeadIsBlank(s.world, Spawn(s.world).1);
    }
  }

  // At power-on nobody is there, nothing is indexed, and the TEID on offer is 65536.
  lemma PowerOn(upf: Option<Octets4>, kernel: Option<Kernel>)
    ensures var node := NewSystem(upf, kernel).node;
            && (forall id: u32 :: !IsLive(node.world, id)) && node.registry == map[] && node.upf == upf
            && Alloc(node.teids) == (Teids(65537, []), 65536) && NewSystem(upf, kernel).up.sessions == map[]
  {
  }

  // ---- Authentication ------------------------------------------------------------------------------

  // The right answer draws the security mode command, a wrong one nothing; both clear the
  // challenge.
  lemma AuthenticationReplies(
    env: Env, upf: Option<Octets4>, slot: Slot, id: u32, enbId: u32, plain: Bytes, res: Bytes, teid: u32)
    requires slot.live && env.decode(plain) == AuthenticationResponse(res)
    ensures var l := Dispatch(env, upf, slot, id, enbId, plain, teid);
            var a := slot.security;
            && l.slot == slot.(auth := if res == a.pendingXres then Authenticated else Failed(ResMismatch),
                               security := a.(pendingRand := ZeroBytes(|a.pendingRand|),
                                              pendingXres := ZeroBytes(|a.pendingXres|)))
            && l.out == (if res == a.pendingXres then [S1ap.DownlinkNasTransport(id, enbId, env.secModeCmd)] else [])
            && l.events == [] && !l.took
  {
  }

  // ---- Security mode -------------------------------------------------------------------------------

  // The first protected downlink message under a pair of keys: header octet 0x27, the CMAC of
  // direction, COUNT 0 and the ciphertext, COUNT 0, and the text under the keystream of COUNT 0.
  ghost predicate FirstProtected(env: Env, keys: (Bytes, Bytes), sent: Bytes, text: Bytes) {
    && |sent| == 6 + |text| && sent[0] == 0x27 && sent[5] == 0
    && sent[1..5] == env.crypto.cmac(keys.1, [0, 0, 0, 0, 4] + sent[6..])
    && forall i :: 0 <= i < |text| ==>
         sent[6..][i] == XorByte(text[i], env.crypto.ctr(keys.0, [0, 0, 0, 0, 4, 0, 0, 0, 0, 0, 0, 0, 0, 0, 0, 0], i))
  }

  lemma FirstInputs(message: Bytes)
    ensures CounterBlock(0, NAS_BEARER, Downlink) == [0, 0, 0, 0, 4, 0, 0, 0, 0, 0, 0, 0, 0, 0, 0, 0]
    ensures MacInput(0, NAS_BEARER, Downlink, message) == [0, 0, 0, 0, 4] + message
  {
  }

  lemma FirstIsProtected(env: Env, keys: (Bytes, Bytes), text: Bytes)
    ensures var sent := EncodeProtected(env.crypto, Eps, NasCtx(keys.0, keys.1, true, true, 0, 0), Downlink,
                                        SHT_INTEGRITY_CIPHERED, NAS_BEARER, text);
            FirstProtected(env, keys, sent.1, text) && sent.0 == NasCtx(keys.0, keys.1, true, true, 1, 0)
  {
    var ctx := NasCtx(keys.0, keys.1, true, true, 0, 0);
    EnvelopeLayout(env.crypto, Eps, ctx, Downlink, SHT_INTEGRITY_CIPHERED, NAS_BEARER, text);
    var sent := EncodeProtected(env.crypto, Eps, ctx, Downlink, SHT_INTEGRITY_CIPHERED, NAS_BEARER, text).1;
    FirstInputs(sent[6..]);
    hide EncodeProtected, CounterBlock, MacInput, XorByte;
  }

  // Main result. Completing security mode installs a context that ciphers and MACs under keys
  // derived from this subscriber's vector, sends the accept under it, and, where there is a user
  // plane, asks for the bearer whose session it creates.
  lemma SecurityModeReplies(
    env: Env, upf: Option<Octets4>, slot: Slot, id: u32, enbId: u32, plain: Bytes, teid: u32)
    requires slot.live && env.decode(plain) == SecurityModeComplete
    ensures var l := Dispatch(env, upf, slot, id, enbId, plain, teid);
            var a := slot.security;
            var kasme := env.kasme(a.ck, a.ik, a.plmn, XorBytes(a.sqnUsed, a.ak));
            var keys := env.nasKeys(kasme);
            var ctx := NasCtx(keys.0, keys.1, true, true, 1, 0);
            var cleared := a.(ck := ZeroBytes(|a.ck|), ik := ZeroBytes(|a.ik|), ak := [0, 0, 0, 0, 0, 0]);
            && |l.out| == 1
            && match upf
               case Some(addr) =>
                 && l.out[0].InitialContextSetupRequest? && l.out[0].nasPduOpt.Some?
                 && FirstProtected(env, keys, l.out[0].nasPduOpt.value, env.attachAccept(slot.identity.ueIp))
                 && l.out[0] == S1ap.InitialContextSetupRequest(
                      id, enbId, [BearerToSetup(5, 9, BE32(teid), addr)], l.out[0].nasPduOpt,
                      50000000, 50000000, kasme)
                 && l.events == [CreateSession(teid, id, slot.identity.imsi, slot.identity.ueIp, [0, 0, 0, 0], 9)]
                 && l.took
                 && l.slot == slot.(security := cleared, nas := Some(ctx),
                                    tunnel := Some(Tunnel(teid, 0, [0, 0, 0, 0])))
               case None =>
                 && l.out[0].DownlinkNasTransport? && l.out[0].mmeId == id && l.out[0].enbId == enbId
                 && FirstProtected(env, keys, l.out[0].nasPdu, env.attachAccept(slot.identity.ueIp))
                 && l.events == [] && !l.took && l.slot == slot.(security := cleared, nas := Some(ctx))
  {
    var a := slot.security;
    var kasme := env.kasme(a.ck, a.ik, a.plmn, XorBytes(a.sqnUsed, a.ak));
    FirstIsProtected(env, env.nasKeys(kasme), env.attachAccept(slot.identity.ueIp));
    hide EncodeProtected, FirstProtected, XorBytes, BE32;
    assert ZeroBytes(6) == [0, 0, 0, 0, 0, 0];
  }

  // ---- Detach --------------------------------------------------------------------------------------

  // Main result. Switching off draws the release command alone. Otherwise the accept goes first,
  // under the entity's context if it has one, where a UE in step opens it, and in the clear if not.
  lemma DetachReplies(
    env: Env, upf: Option<Octets4>, slot: Slot, id: u32, enbId: u32, plain: Bytes, switchOff: bool, teid: u32,
    ue: NasCtx)
    requires slot.live && env.decode(plain) == DetachRequest(switchOff)
    requires slot.nas.Some? ==> Paired(ue, slot.nas.value) && ue.dl == slot.nas.value.dl
    ensures var l := Dispatch(env, upf, slot, id, enbId, plain, teid);
            var release := S1ap.UeContextReleaseCommand(id, enbId, S1ap.NasDetach);
            && l.events == [] && !l.took
            && (switchOff ==> l.out == [release] && l.slot == slot)
            && (!switchOff ==>
                  && |l.out| == 2 && l.out[1] == release
                  && l.out[0].DownlinkNasTransport? && l.out[0].mmeId == id && l.out[0].enbId == enbId
                  && (slot.nas.None? ==> l.out[0].nasPdu == env.detachAccept && l.slot == slot)
                  && (slot.nas.Some? ==>
                        var dl := (slot.nas.value.dl + 1) % 0x1_0000_0000;
                        && l.slot == slot.(nas := Some(slot.nas.value.(dl := dl)))
                        && DecodeProtected(env.crypto, Eps, ue, Downlink, NAS_BEARER, l.out[0].nasPdu) ==
                           (ue.(dl := dl), Some(env.detachAccept))))
  {
    if slot.nas.Some? && !switchOff {
      var ctx := slot.nas.value;
      DeliverAcrossGap(env.crypto, Eps, ctx, ue, Downlink, SHT_INTEGRITY_CIPHERED, NAS_BEARER, env.detachAccept, 0);
      SenderMovesOne(env.crypto, Eps, ctx, SHT_INTEGRITY_CIPHERED, env.detachAccept);
    }
    hide EncodeProtected, DecodeProtected;
  }

  // ---- Everything else -----------------------------------------------------------------------------

  // No other NAS message, and nothing for an entity that is not there, draws an answer.
  lemma OthersDrawNothing(env: Env, upf: Option<Octets4>, slot: Slot, id: u32, enbId: u32, plain: Bytes, teid: u32)
    requires !slot.live || env.decode(plain).AttachRequest? || env.decode(plain).AttachComplete?
             || env.decode(plain).OtherOrMalformed?
    ensures Dispatch(env, upf, slot, id, enbId, plain, teid) == Local(slot, [], [], false)
  {
  }

  // The first bearer of a setup response retargets the tunnel and its session; the release ends
  // session and index entry; both without an answer. Messages for eNodeBs are ignored.
  lemma BearerAndReleaseReplies(env: Env, s: Node, i: Input)
    requires WorldInv(s.world)
    ensures var n := Step(env, s, i);
            && (i.msg.InitialContextSetupResponse? && TunnelOf(s.world, i.msg.mmeId).Some? && i.msg.setup != [] ==>
                  var t := TunnelOf(s.world, i.msg.mmeId).value;
                  var first := i.msg.setup[0];
                  && n.out == [] && n.events == [UpdateBearer(t.ulTeid, Number(first.gtpTeid), first.transportAddr)]
                  && TunnelOf(n.node.world, i.msg.mmeId) ==
                     Some(Tunnel(t.ulTeid, Number(first.gtpTeid), first.transportAddr)))
            && (i.msg.UeContextReleaseComplete? && IsLive(s.world, i.msg.mmeId) ==>
                  var slot := SlotOf(s.world, i.msg.mmeId);
                  && n.out == [] && !IsLive(n.node.world, i.msg.mmeId)
                  && n.node.registry == s.registry - {slot.identity.imsi}
                  && (slot.tunnel.None? ==> n.events == [] && n.node.teids == s.teids)
                  && (slot.tunnel.Some? ==>
                        && n.events == [RemoveSession(slot.tunnel.value.ulTeid)]
                        && n.node.teids.free == s.teids.free + [slot.tunnel.value.ulTeid]
                        && n.node.teids.next == s.teids.next))
            && (!i.msg.InitialUeMessage? && !i.msg.UplinkNasTransport? && !i.msg.InitialContextSetupResponse?
                && !i.msg.UeContextReleaseComplete? ==>
                  n == Result(s, [], []))
  {
    hide WorldInv;
    match i.msg
    case InitialContextSetupResponse(id, _, setup, _) =>
      UpdateFrame(s.world, id, BearerUp<S1ap.S1apMessage>(SlotOf(s.world, id), First(setup)).slot);
    case UeContextReleaseComplete(id, _) =>
      DespawnFrame(s.world, id);
    case _ =>
  }

  // ---- What the contexts keep out ------------------------------------------------------------------

  // A protected uplink message that the entity's context does not vouch for: its MAC octets are
  // not the CMAC, under the entity's integrity key, of the COUNT its low octet stands for, the
  // uplink direction and the ciphertext.
  ghost predicate Forged(env: Env, ctx: NasCtx, pdu: Bytes) {
    && pdu != [] && pdu[0] / 16 != 0
    && (|pdu| >= 6 ==> MacIsWrong(env, ctx, pdu))
  }

  ghost predicate MacIsWrong(env: Env, ctx: NasCtx, pdu: Bytes)
    requires |pdu| >= 6
  {
    var count := ReconstructCount(ctx.ul, pdu[5]);
    pdu[1..5] != env.crypto.cmac(ctx.kInt, BE32(count) + [0] + pdu[6..])
  }

  lemma ForgedIsRejected(env: Env, ctx: NasCtx, pdu: Bytes)
    requires ctx.integrity && Forged(env, ctx, pdu)
    ensures DecodeProtected(env.crypto, Eps, ctx, Uplink, NAS_BEARER, pdu) == (ctx, None)
  {
    AcceptedExactly(env.crypto, Eps, ctx, Uplink, NAS_BEARER, pdu);
    hide DecodeProtected, ReconstructCount, BE32;
    if |pdu| >= 6 {
      UplinkInput(ReconstructCount(ctx.ul, pdu[5]), pdu[6..]);
    }
  }

  lemma UplinkInput(count: u32, message: Bytes)
    ensures MacInput(count, NAS_BEARER, Uplink, message) == BE32(count) + [0] + message
  {
    hide BE32;
  }

  // Every live entity's context ciphers and MACs.
  ghost predicate ContextsProtect(w: WorldState) {
    forall id: u32 :: SlotOf(w, id).nas.Some? ==> SlotOf(w, id).nas.value.ciphered && SlotOf(w, id).nas.value.integrity
  }

  // A context's keys are those its entity was given when it completed security mode, and both
  // algorithms stay on.
  lemma KeysComeFromSetup(env: Env, upf: Option<Octets4>, slot: Slot, id: u32, i: Input, teid: u32)
    requires LocalStep(env, upf, slot, id, i, teid).slot.nas.Some?
    ensures var next := LocalStep(env, upf, slot, id, i, teid).slot.nas.value;
            || (slot.nas.Some? && Paired(next, slot.nas.value))
            || (i.msg.UplinkNasTransport? && slot.live && next.ciphered && next.integrity
                && var plain := PlainOf(env, slot, i.msg.nasPdu);
                   plain.Some? && env.decode(plain.value) == SecurityModeComplete
                   && (next.kEnc, next.kInt) == SetupKeys(env, slot))
  {
    hide DecodeProtected, Dispatch;
    if i.msg.UplinkNasTransport? {
      var pdu := i.msg.nasPdu;
      if IsPlain(pdu) {
        DispatchKeys(env, upf, slot, id, i.msg.enbId, pdu, teid);
      } else if slot.live && slot.nas.Some? {
        var ctx := slot.nas.value;
        OnlyAcceptedEnvelopesMoveCount(env.crypto, Eps, ctx, Uplink, NAS_BEARER, pdu);
        var r := DecodeProtected(env.crypto, Eps, ctx, Uplink, NAS_BEARER, pdu);
        if r.1.Some? {
          DispatchKeys(env, upf, slot.(nas := Some(r.0)), id, i.msg.enbId, r.1.value, teid);
        }
      }
    }
  }

  function SetupKeys(env: Env, slot: Slot): (Bytes, Bytes) {
    var a := slot.security;
    env.nasKeys(env.kasme(a.ck, a.ik, a.plmn, XorBytes(a.sqnUsed, a.ak)))
  }

  lemma DispatchKeys(env: Env, upf: Option<Octets4>, slot: Slot, id: u32, enbId: u32, plain: Bytes, teid: u32)
    requires Dispatch(env, upf, slot, id, enbId, plain, teid).slot.nas.Some?
    ensures var next := Dispatch(env, upf, slot, id, enbId, plain, teid).slot.nas.value;
            || (slot.nas.Some? && Paired(next, slot.nas.value))
            || (slot.live && env.decode(plain) == SecurityModeComplete && next.ciphered && next.integrity
                && (next.kEnc, next.kInt) == SetupKeys(env, slot))
  {
    match env.decode(plain)
    case SecurityModeComplete =>
      if slot.live {
        SecurityModeReplies(env, upf, slot, id, enbId, plain, teid);
      }
    case DetachRequest(switchOff) =>
      if slot.nas.Some? {
        SenderMovesOne(env.crypto, Eps, slot.nas.value, SHT_INTEGRITY_CIPHERED, env.detachAccept);
      }
      hide EncodeProtected;
    case _ =>
  }

  lemma LocalKeepsProtection(env: Env, upf: Option<Octets4>, slot: Slot, id: u32, i: Input, teid: u32)
    requires slot.nas.Some? ==> slot.nas.value.ciphered && slot.nas.value.integrity
    ensures var l := LocalStep(env, upf, slot, id, i, teid);
            l.slot.nas.Some? ==> l.slot.nas.value.ciphered && l.slot.nas.value.integrity
  {
    hide LocalStep;
    if LocalStep(env, upf, slot, id, i, teid).slot.nas.Some? {
      KeysComeFromSetup(env, upf, slot, id, i, teid);
    }
  }

  lemma StepKeepsProtection(env: Env, s: Node, i: Input)
    requires WorldInv(s.world) && HasRoom(env, s, i) && ContextsProtect(s.world)
    ensures ContextsProtect(Step(env, s, i).node.world)
  {
    hide WorldInv, Step, HasRoom, LocalStep, SlotOf, Addressed;
    StepIsLocal(env, s, i);
    if Addressed(env, s, i).Some? {
      var id := Addressed(env, s, i).value;
      LocalKeepsProtection(env, s.upf, SlotOf(s.world, id), id, i, Alloc(s.teids).1);
    }
  }

  lemma {:induction false} RunKeepsProtection(env: Env, sys: System, inputs: seq<Input>)
    requires WorldInv(sys.node.world) && ContextsProtect(sys.node.world)
    requires |Run(env, sys, inputs).node.world.slots| <= 0x1_0000_0000
    ensures WorldInv(Run(env, sys, inputs).node.world) && ContextsProtect(Run(env, sys, inputs).node.world)
    decreases |inputs|
  {
    hide WorldInv, Step, ContextsProtect, HasRoom;
    if inputs != [] {
      var n := SysStep(env, sys, inputs[0]);
      SlotsOnlyGrow(env, n, inputs[1..]);
      StepHasRoom(env, sys.node, inputs[0]);
      StepKeepsProtection(env, sys.node, inputs[0]);
      RunKeepsProtection(env, n, inputs[1..]);
    }
  }

  // Main result. After any run from power-on, a forged message to an entity that has a context,
  // and a protected one to an entity that has none, changes nothing anywhere and draws nothing.
  lemma ForgedChangesNothing(
    env: Env, upf: Option<Octets4>, kernel: Option<Kernel>, inputs: seq<Input>, i: Input)
    requires |Run(env, NewSystem(upf, kernel), inputs).node.world.slots| <= 0x1_0000_0000
    requires i.msg.UplinkNasTransport? && i.msg.nasPdu != [] && i.msg.nasPdu[0] / 16 != 0
    requires var slot := SlotOf(Run(env, NewSystem(upf, kernel), inputs).node.world, i.msg.mmeId);
             slot.nas.Some? ==> Forged(env, slot.nas.value, i.msg.nasPdu)
    ensures WorldInv(Run(env, NewSystem(upf, kernel), inputs).node.world)
    ensures var sys := Run(env, NewSystem(upf, kernel), inputs);
            && SysStep(env, sys, i) == sys
            && Step(env, sys.node, i).out == [] && Step(env, sys.node, i).events == []
  {
    var sys := Run(env, NewSystem(upf, kernel), inputs);
    StartProtects(upf, kernel);
    RunKeepsProtection(env, NewSystem(upf, kernel), inputs);
    var slot := SlotOf(sys.node.world, i.msg.mmeId);
    if slot.nas.Some? {
      ForgedIsRejected(env, slot.nas.value, i.msg.nasPdu);
    }
    hide WorldInv, DecodeProtected, Dispatch, Run, ContextsProtect, Forged;
    UpdateNothing(sys.node.world, i.msg.mmeId);
  }

  lemma StartProtects(upf: Option<Octets4>, kernel: Option<Kernel>)
    ensures ContextsProtect(NewSystem(upf, kernel).node.world)
  {
  }
}
