// NGAP on the wire (TS 38.413): for each supported message the procedure, the elements in the
// order they are sent, and the octets of each, as numbers.
module NgapWire {
  import opened Bits
  import Per
  import opened IeContainer
  import opened BearerLists
  import opened NgapCodec
  import opened Wire

  // The ranges of the fields.
  predicate WithinLimits(m: NgapMessage) {
    match m
    case InitialUeMessage(_, nas, _, _, cause) => |nas| < 16384 && cause < 16
    case DownlinkNasTransport(_, _, nas) => |nas| < 16384
    case UplinkNasTransport(_, _, nas, _, _) => |nas| < 16384
    case InitialContextSetupRequest(_, _, sessions, nas, dl, ul, _) =>
      && |sessions| < 16384 && (forall it :: it in sessions ==> it.qos < 64)
      && (nas.Some? ==> |nas.value| < 16384) && dl <= 4000000000000 && ul <= 4000000000000
    case InitialContextSetupResponse(_, _, setup, failed) => |setup| < 16384 && |failed| < 16384
    case _ => true
  }

  lemma LimitsAreBounds(m: NgapMessage)
    requires Supported(m)
    ensures WithinLimits(m) <==> InBounds(m)
  {
  }

  function CauseNumber(c: NgapCause): nat {
    match c
    case RadioNetworkUnspecified => 0
    case TransportUnspecified => 1
    case NasNormalRelease => 2
    case NasDeregister => 3
    case NasAuthFailure => 4
    case ProtocolUnspecified => 5
    case MiscUnspecified => 6
  }

  function UeIds(amf: u32, ran: u32, crit: byte): seq<Ie> {
    [Ie(10, crit, BE(amf, 4)), Ie(85, crit, BE(ran, 4))]
  }

  function Nas(nas: Bytes): Ie
    requires |nas| < 16384
  {
    Ie(38, 0, Determinant(|nas|) + nas)
  }

  function SessionsImage(items: seq<BearerToSetup>): Bytes
    requires forall it :: it in items ==> it.qos < 64
  {
    if items == [] then []
    else
      var it := items[|items| - 1];
      SessionsImage(items[..|items| - 1]) + ([it.id, 4 * it.qos] + it.gtpTeid + it.transportAddr)
  }

  function SetupImage(items: seq<BearerSetup>): Bytes {
    if items == [] then []
    else
      var it := items[|items| - 1];
      SetupImage(items[..|items| - 1]) + ([it.id] + it.transportAddr + it.gtpTeid)
  }

  // An element that is sent only when its list is not empty.
  function ListIe(id: u32, crit: byte, count: nat, items: Bytes): seq<Ie>
    requires count < 16384
  {
    if count == 0 then [] else [Ie(id, crit, Determinant(count) + items)]
  }

  function Elements(m: NgapMessage): seq<Ie>
    requires Supported(m) && WithinLimits(m)
  {
    match m
    case InitialUeMessage(ran, nas, tai, cgi, cause) =>
      [Ie(85, 0, BE(ran, 4)), Nas(nas), Ie(121, 1, cgi + tai), Ie(90, 1, [16 * cause])]
    case UplinkNasTransport(amf, ran, nas, tai, cgi) => UeIds(amf, ran, 0) + [Nas(nas), Ie(121, 1, cgi + tai)]
    case DownlinkNasTransport(amf, ran, nas) => UeIds(amf, ran, 0) + [Nas(nas)]
    case InitialContextSetupRequest(amf, ran, sessions, nas, dl, ul, key) =>
      UeIds(amf, ran, 0) + [Ie(94, 0, key), Ie(110, 1, BE(dl, 6) + BE(ul, 6))]
      + ListIe(71, 0, |sessions|, SessionsImage(sessions)) + (if nas.Some? then [Nas(nas.value)] else [])
    case InitialContextSetupResponse(amf, ran, setup, failed) =>
      UeIds(amf, ran, 0) + ListIe(72, 1, |setup|, SetupImage(setup)) + ListIe(55, 1, |failed|, failed)
    case UeContextReleaseCommand(amf, ran, cause) => UeIds(amf, ran, 0) + [Ie(15, 1, [32 * CauseNumber(cause)])]
    case UeContextReleaseComplete(amf, ran) => UeIds(amf, ran, 1)
  }

  // Initiating message 0 or successful outcome 1, the procedure code, and its criticality.
  function Message(m: NgapMessage): Pdu
    requires Supported(m) && WithinLimits(m)
  {
    match m
    case InitialUeMessage(_, _, _, _, _) => Pdu(0, 15, 1, Elements(m))
    case UplinkNasTransport(_, _, _, _, _) => Pdu(0, 46, 1, Elements(m))
    case DownlinkNasTransport(_, _, _) => Pdu(0, 4, 1, Elements(m))
    case InitialContextSetupRequest(_, _, _, _, _, _, _) => Pdu(0, 14, 0, Elements(m))
    case InitialContextSetupResponse(_, _, _, _) => Pdu(1, 14, 0, Elements(m))
    case UeContextReleaseCommand(_, _, _) => Pdu(0, 41, 1, Elements(m))
    case UeContextReleaseComplete(_, _) => Pdu(1, 41, 1, Elements(m))
  }

  // ---- The encoder's elements are these ---------------------------------------------------------

  lemma UeIdsAre(amf: u32, ran: u32, crit: byte)
    ensures [AmfIe(amf, crit), RanIe(ran, crit)] == UeIds(amf, ran, crit)
  {
    hide Per.IntoBytes, Per.WriteInt, BE, Per.Width;
    Widths();
    WideValue(amf, UE_NGAP_ID_MAX, 32);
    WideValue(ran, UE_NGAP_ID_MAX, 32);
  }

  lemma NasIs(nas: Bytes)
    requires |nas| < 16384
    ensures NasIe(nas) == Nas(nas)
  {
    StringValue(nas);
  }

  lemma LocationIs(cgi: Octets9, tai: Octets6)
    ensures LocationIe(cgi, tai) == Ie(121, 1, cgi + tai)
  {
    OctetsValue(cgi, tai);
  }

  lemma RrcCauseIs(cause: byte)
    requires cause < 16
    ensures IntIe(ID_RRC_ESTABLISHMENT_CAUSE, CRITICALITY_IGNORE, cause, RRC_ESTABLISHMENT_CAUSE_MAX) ==
            Ie(90, 1, [16 * cause])
  {
    hide Per.IntoBytes, Per.WriteInt, Per.Width;
    Widths();
    assert Pow2(4) == 16;
    NarrowValue(cause, RRC_ESTABLISHMENT_CAUSE_MAX, 4, 16 * cause);
  }

  lemma CauseIs(c: NgapCause)
    ensures IntIe(ID_CAUSE, CRITICALITY_IGNORE, CauseToInt(c), CAUSE_MAX) == Ie(15, 1, [32 * CauseNumber(c)])
  {
    hide Per.IntoBytes, Per.WriteInt, Per.Width;
    Widths();
    assert Pow2(5) == 32 by { assert Pow2(4) == 16; }
    NarrowValue(CauseToInt(c), CAUSE_MAX, 3, 32 * CauseToInt(c));
  }

  lemma KeyIs(key: Octets32)
    ensures OctetsIe(ID_SECURITY_KEY, CRITICALITY_REJECT, key) == Ie(94, 0, key)
  {
    OctetsValue(key, []);
  }

  lemma AmbrIs(dl: u64, ul: u64)
    requires dl <= 4000000000000 && ul <= 4000000000000
    ensures AmbrIe(CRITICALITY_IGNORE, dl, ul) == Ie(110, 1, BE(dl, 6) + BE(ul, 6))
  {
    hide Per.IntoBytes, Per.WriteInt, BE, BytesBits, Per.Width;
    Widths();
    var w := Per.WriteInt([], dl, 0, BIT_RATE_MAX);
    WideImage([], dl, BIT_RATE_MAX, 42);
    AlignedIs([]);
    assert w == BytesBits(BE(dl, 6));
    WideImage(w, ul, BIT_RATE_MAX, 42);
    AlignedIs(w);
    BytesBitsAppend(BE(dl, 6), BE(ul, 6));
    IntoBytesImage(BE(dl, 6) + BE(ul, 6));
  }

  lemma {:induction false} SessionItemsWrite(w: seq<bool>, items: seq<BearerToSetup>)
    requires |w| % 8 == 0 && (forall it :: it in items ==> it.qos < 64)
    ensures WriteToSetupItems(w, items, PDU_SESSION_ID_MAX, QFI_MAX) == w + BytesBits(SessionsImage(items))
  {
    hide WriteToSetupItem, BytesBits, Per.Width;
    if items == [] {
      assert BytesBits([]) == [] by { NoBits(); }
      assert w + [] == w;
    } else {
      var front, it := items[..|items| - 1], items[|items| - 1];
      SessionItemsWrite(w, front);
      SessionItemWrites(w, SessionsImage(front), it);
    }
  }

  lemma SessionItemWrites(w: seq<bool>, front: Bytes, it: BearerToSetup)
    requires |w| % 8 == 0 && it.qos < 64
    ensures var item: Bytes := [it.id, 4 * it.qos] + it.gtpTeid + it.transportAddr;
            WriteToSetupItem(w + BytesBits(front), it, PDU_SESSION_ID_MAX, QFI_MAX) == w + BytesBits(front + item)
  {
    Widths();
    WideItemHead(it.id, it.qos);
    var head: Bytes := [it.id, 4 * it.qos];
    hide BytesBits, WriteToSetupItem, Per.Width, BitsOf;
    StaysAligned(w, front);
    var at := w + BytesBits(front);
    ToSetupItemWrites(at, it, PDU_SESSION_ID_MAX, QFI_MAX, 8, 6, head);
    BytesBitsAppend(front, head + it.gtpTeid + it.transportAddr);
    Assoc(w, BytesBits(front), BytesBits(head + it.gtpTeid + it.transportAddr));
  }

  lemma NoBits()
    ensures BytesBits([]) == []
  {
  }

  lemma SessionsAre(items: seq<BearerToSetup>)
    requires |items| < 16384 && (forall it :: it in items ==> it.qos < 64)
    ensures ToSetupIes(items) == ListIe(71, 0, |items|, SessionsImage(items))
  {
    hide WriteToSetupItems, SessionsImage, BytesBits, Per.WriteLength, Per.IntoBytes, Determinant;
    DeterminantImage([], |items|);
    AlignedIs([]);
    assert [] + BytesBits(Determinant(|items|)) == BytesBits(Determinant(|items|));
    SessionItemsWrite(BytesBits(Determinant(|items|)), items);
    BytesBitsAppend(Determinant(|items|), SessionsImage(items));
    IntoBytesImage(Determinant(|items|) + SessionsImage(items));
  }

  lemma {:induction false} SetupItemsWrite(w: seq<bool>, items: seq<BearerSetup>)
    requires |w| % 8 == 0
    ensures WriteSetupItems(w, items, PDU_SESSION_ID_MAX) == w + BytesBits(SetupImage(items))
  {
    hide WriteSetupItem, BytesBits, Per.Width;
    if items == [] {
      assert BytesBits([]) == [] by { NoBits(); }
      assert w + [] == w;
    } else {
      var front, it := items[..|items| - 1], items[|items| - 1];
      Widths();
      SetupItemsWrite(w, front);
      assert Pow2(0) == 1;
      SetupItemWrites(w + BytesBits(SetupImage(front)), it, PDU_SESSION_ID_MAX, 8, it.id);
      BytesBitsAppend(SetupImage(front), [it.id] + it.transportAddr + it.gtpTeid);
      Assoc(w, BytesBits(SetupImage(front)), BytesBits([it.id] + it.transportAddr + it.gtpTeid));
    }
  }

  lemma SetupIs(items: seq<BearerSetup>)
    requires |items| < 16384
    ensures SetupIes(items) == ListIe(72, 1, |items|, SetupImage(items))
  {
    hide WriteSetupItems, SetupImage, BytesBits, Per.WriteLength, Per.IntoBytes, Determinant;
    DeterminantImage([], |items|);
    AlignedIs([]);
    assert [] + BytesBits(Determinant(|items|)) == BytesBits(Determinant(|items|));
    SetupItemsWrite(BytesBits(Determinant(|items|)), items);
    BytesBitsAppend(Determinant(|items|), SetupImage(items));
    IntoBytesImage(Determinant(|items|) + SetupImage(items));
  }

  lemma FailedIs(ids: seq<byte>)
    requires |ids| < 16384
    ensures FailedIes(ids) == ListIe(55, 1, |ids|, ids)
  {
    hide WriteIdItems, BytesBits, Per.WriteLength, Per.IntoBytes, Determinant, Per.Width;
    Widths();
    DeterminantImage([], |ids|);
    AlignedIs([]);
    assert [] + BytesBits(Determinant(|ids|)) == BytesBits(Determinant(|ids|));
    IdItemsWrite(BytesBits(Determinant(|ids|)), ids);
    BytesBitsAppend(Determinant(|ids|), ids);
    IntoBytesImage(Determinant(|ids|) + ids);
  }

  lemma EntriesAre(m: NgapMessage)
    requires Supported(m) && WithinLimits(m)
    ensures InBounds(m) && ToPdu(m) == Message(m)
  {
    hide AmfIe, RanIe, NasIe, LocationIe, IntIe, OctetsIe, AmbrIe, ToSetupIes, SetupIes, FailedIes;
    hide BE, Determinant, SessionsImage, SetupImage;
    LimitsAreBounds(m);
    match m {
      case InitialUeMessage(ran, nas, tai, cgi, cause) =>
        UeIdsAre(0, ran, 0);
        assert RanIe(ran, 0) == [AmfIe(0, 0), RanIe(ran, 0)][1] == UeIds(0, ran, 0)[1];
        NasIs(nas);
        LocationIs(cgi, tai);
        RrcCauseIs(cause);
      case UplinkNasTransport(amf, ran, nas, tai, cgi) =>
        UeIdsAre(amf, ran, 0);
        NasIs(nas);
        LocationIs(cgi, tai);
        assert Entries(m) == [AmfIe(amf, 0), RanIe(ran, 0)] + [NasIe(nas), LocationIe(cgi, tai)];
      case DownlinkNasTransport(amf, ran, nas) =>
        UeIdsAre(amf, ran, 0);
        NasIs(nas);
        assert Entries(m) == [AmfIe(amf, 0), RanIe(ran, 0)] + [NasIe(nas)];
      case InitialContextSetupRequest(amf, ran, sessions, nas, dl, ul, key) =>
        UeIdsAre(amf, ran, 0);
        KeyIs(key);
        AmbrIs(dl, ul);
        SessionsAre(sessions);
        if nas.Some? {
          NasIs(nas.value);
        }
        var keyIe, ambrIe := OctetsIe(ID_SECURITY_KEY, CRITICALITY_REJECT, key), AmbrIe(CRITICALITY_IGNORE, dl, ul);
        assert Entries(m) ==
            [AmfIe(amf, 0), RanIe(ran, 0)] + [keyIe, ambrIe] + ToSetupIes(sessions) + NasOptIes(nas);
      case InitialContextSetupResponse(amf, ran, setup, failed) =>
        UeIdsAre(amf, ran, 0);
        SetupIs(setup);
        FailedIs(failed);
      case UeContextReleaseCommand(amf, ran, cause) =>
        UeIdsAre(amf, ran, 0);
        CauseIs(cause);
        assert Entries(m) == [AmfIe(amf, 0), RanIe(ran, 0)]
            + [IntIe(ID_CAUSE, CRITICALITY_IGNORE, CauseToInt(cause), CAUSE_MAX)];
      case UeContextReleaseComplete(amf, ran) =>
        UeIdsAre(amf, ran, 1);
    }
  }

  // Main result. Every supported message whose fields are in range and add up to less than
  // 16384 octets is encoded as exactly these octets, and they decode to it.
  lemma WireImage(m: NgapMessage)
    requires Supported(m) && WithinLimits(m) && WireOctets(m) < 16384
    ensures Representable(Elements(m)) && |ContainerImage(Elements(m))| < 16384
    ensures Encodable(m) && Encode(m) == Ok(PduImage(Message(m))) && Decode(PduImage(Message(m))) == Ok(m)
  {
    hide EncodePdu, DecodePdu, Entries, Elements, WireOctets, PduImage, ContainerImage;
    EntriesAre(m);
    EncodableIsValidPdu(m);
    PduWrites(ToPdu(m));
    RoundTrip(m);
  }

  // ---- What the decoder asks for ----------------------------------------------------------------

  // The elements a message must have, in the order in which a missing one is reported.
  function Mandatory(choice: nat, procedure: u32): seq<u32> {
    if procedure == 15 then [121, 85, 38, 90]
    else if procedure == 46 then [121, 10, 85, 38]
    else if procedure == 4 then [10, 85, 38]
    else if procedure == 14 && choice == 0 then [10, 85, 110, 94]
    else if procedure == 14 && choice == 1 then [10, 85]
    else if procedure == 41 && choice == 0 then [10, 85, 15]
    else if procedure == 41 && choice == 1 then [10, 85]
    else []
  }

  // The element is there and its value can be read.
  predicate Readable(es: seq<Ie>, id: u32) {
    if id == 10 then AmfOf(es).Some?
    else if id == 85 then RanOf(es).Some?
    else if id == 38 then NasOf(es).Some?
    else if id == 121 then LocationOf(es).Some?
    else if id == 90 then RrcCauseOf(es).Some?
    else if id == 15 then CauseOf(es).Some?
    else if id == 94 then KeyOf(es).Some?
    else if id == 110 then AmbrOf(es).Some?
    else false
  }

  function FirstUnreadable(es: seq<Ie>, ids: seq<u32>): Option<u32> {
    if ids == [] then None
    else if !Readable(es, ids[0]) then Some(ids[0])
    else FirstUnreadable(es, ids[1..])
  }

  // Whatever the entries: an unknown procedure is refused, otherwise the first mandatory element
  // that cannot be read is reported, and a message comes out exactly when there is none.
  lemma DecodesOrReports(choice: nat, procedure: u32, es: seq<Ie>)
    ensures var r := DecodeEntries(choice, procedure, es);
            var ids := Mandatory(choice, procedure);
            if ids == [] then r == Err(UnsupportedProcedure)
            else match FirstUnreadable(es, ids)
                 case Some(id) => r == Err(Missing(id))
                 case None => r.Ok?
  {
    hide AmfOf, RanOf, NasOf, LocationOf, RrcCauseOf, CauseOf, KeyOf, AmbrOf, SessionsOf, SetupOf, FailedOf;
    var ids := Mandatory(choice, procedure);
    if |ids| > 1 {
      UnreadableStep(es, ids);
      UnreadableStep(es, ids[1..]);
      if |ids| > 2 {
        UnreadableStep(es, ids[1..][1..]);
        if |ids| > 3 {
          UnreadableStep(es, ids[1..][1..][1..]);
        }
      }
    }
  }

  lemma UnreadableStep(es: seq<Ie>, ids: seq<u32>)
    requires ids != []
    ensures FirstUnreadable(es, ids) == if !Readable(es, ids[0]) then Some(ids[0]) else FirstUnreadable(es, ids[1..])
  {
  }

  // Element 10 is the AMF's id and element 85 the RAN's, wherever they stand.
  lemma UeIdsDecode(es: seq<Ie>, i: nat, j: nat, amf: u32, ran: u32, crit: byte)
    requires DistinctIds(es) && i < |es| && j < |es|
    requires es[i] == Ie(10, crit, BE(amf, 4)) && es[j] == Ie(85, crit, BE(ran, 4))
    ensures DecodeEntries(1, 41, es) == Ok(UeContextReleaseComplete(amf, ran))
  {
    hide Values, Last, ParseUeId, IntIe, BE;
    UeIdsAre(amf, ran, crit);
    assert es[i] == UeIds(amf, ran, crit)[0] && es[j] == UeIds(amf, ran, crit)[1];
    FoundUeIds(es, i, j, amf, ran, crit);
  }
}
